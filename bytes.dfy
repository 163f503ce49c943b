/** Bytes as the bus delivers them, and the 16-bit big-endian fields the
    sensor packs into its data registers. */
module Bytes {

  newtype byte = x: int | 0 <= x < 256

  /** True when `b` has any of the bits of `mask` set (`b & mask` in C). */
  predicate HasBits(b: byte, mask: byte) {
    (b as bv8) & (mask as bv8) != 0
  }

  predicate IsInt16(v: int) {
    -32768 <= v < 32768
  }

  /** The value an `int16_t` holds after the integer `v` is stored into it:
      the unique value in the signed 16-bit range congruent to `v` modulo 2^16. */
  function ToInt16(v: int): (r: int)
    ensures IsInt16(r)
    ensures (v - r) % 65536 == 0
  {
    var m := v % 65536;
    if m < 32768 then m else m - 65536
  }

  lemma {:induction false} ToInt16Unique(v: int, r: int)
    requires IsInt16(r) && (v - r) % 65536 == 0
    ensures ToInt16(v) == r
  {
    var q := (v - r) / 65536;
    assert v == r + 65536 * q;
    var m := v % 65536;
    if r >= 0 {
      assert m == r;
    } else {
      assert m == r + 65536;
    }
  }

  /** The unsigned value of the pair `hi:lo`, high byte first. */
  function BigEndian16(hi: byte, lo: byte): (u: nat)
    ensures u < 65536
    ensures u / 256 == hi as int && u % 256 == lo as int
  {
    hi as int * 256 + lo as int
  }

  /** A signed 16-bit count as the driver unpacks it: the byte pair is
      shifted and or-ed into an int and then stored into an `int16_t`. */
  function Decode16(hi: byte, lo: byte): (c: int)
    ensures IsInt16(c)
    ensures c < 0 <==> hi >= 0x80
    ensures c >= 0 ==> c == BigEndian16(hi, lo)
    ensures c < 0 ==> c == BigEndian16(hi, lo) - 65536
  {
    var u := BigEndian16(hi, lo);
    assert u % 65536 == u;
    assert u < 32768 <==> hi < 0x80;
    ToInt16(u)
  }

  /** The byte pair, high byte first, that the sensor sends for the count `c`. */
  function Encode16(c: int): (bs: (byte, byte))
    requires IsInt16(c)
  {
    var u := if c < 0 then c + 65536 else c;
    ((u / 256) as byte, (u % 256) as byte)
  }

  lemma {:induction false} Decode16Encode16(c: int)
    requires IsInt16(c)
    ensures Decode16(Encode16(c).0, Encode16(c).1) == c
  {
    var u := if c < 0 then c + 65536 else c;
    var hi, lo := Encode16(c).0, Encode16(c).1;
    SplitWord(u);
    assert hi as int == u / 256 && lo as int == u % 256;
    assert BigEndian16(hi, lo) == u;
    ToInt16Unique(u, c);
  }

  lemma SplitWord(u: int)
    requires 0 <= u < 65536
    ensures 0 <= u / 256 < 256 && 0 <= u % 256 < 256
    ensures u == (u / 256) * 256 + u % 256
  {
  }

  lemma {:induction false} Encode16Decode16(hi: byte, lo: byte)
    ensures Encode16(Decode16(hi, lo)) == (hi, lo)
  {
    var c := Decode16(hi, lo);
    var u := if c < 0 then c + 65536 else c;
    assert u == BigEndian16(hi, lo);
    assert (u / 256) as byte == hi;
    assert (u % 256) as byte == lo;
  }
}
