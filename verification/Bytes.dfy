/** Bytes, 16-bit words and the little- and big-endian forms the wire uses. */
module Bytes {

  type byte = bv8

  /** A length or a register number. */
  type u16 = n: nat | n < 0x1_0000

  /** The ten characters that identify a datalog or an inverter. */
  type Serial = s: seq<byte> | |s| == 10 witness [0, 0, 0, 0, 0, 0, 0, 0, 0, 0]

  /** The number in a little-endian byte pair. */
  function Le16(lo: byte, hi: byte): (n: u16)
  {
    lo as int + 256 * (hi as int)
  }

  /** The little-endian byte pair of a number. */
  function LeBytes(n: u16): (s: seq<byte>)
    ensures |s| == 2
  {
    [(n % 256) as byte, (n / 256) as byte]
  }

  /** The big-endian byte pair of a number. */
  function BeBytes(n: u16): (s: seq<byte>)
    ensures |s| == 2
  {
    [(n / 256) as byte, (n % 256) as byte]
  }

  function Widen(b: byte): bv16
  {
    b as bv16
  }

  /** The register value in a little-endian byte pair. */
  function Word(lo: byte, hi: byte): bv16
  {
    (lo as bv16) | ((hi as bv16) << 8)
  }

  /** The little-endian byte pair of a register value. */
  function WordBytes(w: bv16): (s: seq<byte>)
    ensures |s| == 2
  {
    [(w & 0xFF) as byte, (w >> 8) as byte]
  }

  lemma ByteOfInt(b: byte)
    ensures (b as int) as byte == b
  {}

  lemma NextByte(b: byte)
    requires b != 255
    ensures (b + 1) as int == b as int + 1
  {}

  lemma {:induction false} ByteRoundTrip(x: int)
    requires 0 <= x < 256
    ensures (x as byte) as int == x
  {
    if x > 0 {
      ByteRoundTrip(x - 1);
      var b := (x - 1) as byte;
      NextByte(b);
      ByteOfInt(b + 1);
    }
  }

  lemma SplitNumber(lo: int, hi: int)
    requires 0 <= lo < 256
    ensures (lo + 256 * hi) % 256 == lo && (lo + 256 * hi) / 256 == hi
  {}

  lemma LeRoundTrip(n: u16)
    ensures Le16(LeBytes(n)[0], LeBytes(n)[1]) == n
  {
    ByteRoundTrip(n % 256);
    ByteRoundTrip(n / 256);
  }

  lemma BeRoundTrip(n: u16) returns (high: byte, low: byte)
    ensures BeBytes(n) == [high, low] && Le16(low, high) == n
  {
    high, low := (n / 256) as byte, (n % 256) as byte;
    ByteRoundTrip(n % 256);
    ByteRoundTrip(n / 256);
  }

  lemma LeBytesOfLe16(lo: byte, hi: byte)
    ensures LeBytes(Le16(lo, hi)) == [lo, hi]
  {
    ByteOfInt(lo);
    ByteOfInt(hi);
    SplitNumber(lo as int, hi as int);
  }

  lemma WordRoundTrip(w: bv16)
    ensures Word(WordBytes(w)[0], WordBytes(w)[1]) == w
  {}

  lemma WordBytesOfWord(lo: byte, hi: byte)
    ensures WordBytes(Word(lo, hi)) == [lo, hi]
  {}

  lemma WordIsSum(lo: byte, hi: byte)
    ensures Word(lo, hi) == Widen(lo) + 0x100 * Widen(hi)
  {}
}
