/**
 The CRC-16/MODBUS remainder: the bitwise loop of the Python reader, and the algebra of the
 shift register behind it. MODBUS over Serial Line V1.02, section 2.5.1.2 and Appendix B.
 */
module ModbusCrc {
  import opened Bytes

  const INIT: bv16 := 0xFFFF

  // The register operations are named, so that proofs about messages can treat them
  // as symbols and leave the bits to the small lemmas below.

  function Xor(a: bv16, b: bv16): bv16
  {
    a ^ b
  }

  function Half(c: bv16): bv16
  {
    c >> 1
  }

  function Low(c: bv16): bool
  {
    c & 1 == 1
  }

  function Tap(half: bv16, on: bool): bv16
  {
    if on then Xor(half, 0xA001) else half
  }

  /** One turn of the shift register while one message bit enters at the low end. */
  function FeedBit(c: bv16, bit: bool): bv16
  {
    Tap(Half(c), Low(c) != bit)
  }

  function ShiftN(c: bv16, n: nat): bv16
  {
    if n == 0 then c else FeedBit(ShiftN(c, n - 1), false)
  }

  function AbsorbByte(c: bv16, b: byte): bv16
  {
    ShiftN(Xor(c, Widen(b)), 8)
  }

  function Run(c: bv16, data: seq<byte>): bv16
  {
    if data == [] then c else AbsorbByte(Run(c, data[..|data| - 1]), data[|data| - 1])
  }

  /** The checksum as it travels: low byte first. */
  function Checksum(data: seq<byte>): (s: seq<byte>)
    ensures |s| == 2
  {
    WordBytes(Run(INIT, data))
  }

  method CalculateCrc16(data: seq<byte>) returns (checksum: seq<byte>)
    ensures checksum == Checksum(data)
  {
    var crc := INIT;
    for i := 0 to |data|
      invariant crc == Run(INIT, data[..i])
    {
      ghost var before := crc;
      crc := Xor(crc, Widen(data[i]));
      for j := 0 to 8
        invariant crc == ShiftN(Xor(before, Widen(data[i])), j)
      {
        if crc & 0x0001 == 1 {
          crc := Xor(Half(crc), 0xA001);
        } else {
          crc := Half(crc);
        }
      }
      assert data[..i + 1][..i] == data[..i];
    }
    assert data[..|data|] == data;
    checksum := WordBytes(crc);
  }

  // Exclusive-or laws.

  lemma XorComm(a: bv16, b: bv16)
    ensures Xor(a, b) == Xor(b, a)
  {}

  lemma XorAssoc(a: bv16, b: bv16, c: bv16)
    ensures Xor(Xor(a, b), c) == Xor(a, Xor(b, c))
  {}

  lemma XorUnits(a: bv16)
    ensures Xor(a, a) == 0 && Xor(a, 0) == a && Xor(0, a) == a
  {}

  lemma XorZero(a: bv16, b: bv16)
    ensures Xor(a, b) == 0 <==> a == b
  {
    if Xor(a, b) == 0 {
      XorAssoc(a, b, b);
      XorUnits(b);
      XorUnits(a);
    } else {
      XorUnits(a);
    }
  }

  lemma XorHalf(a: bv16, b: bv16)
    ensures Half(Xor(a, b)) == Xor(Half(a), Half(b))
  {}

  lemma XorLow(a: bv16, b: bv16)
    ensures Low(Xor(a, b)) == (Low(a) != Low(b))
  {}

  lemma XorSwap(a: bv16, b: bv16, c: bv16, d: bv16)
    ensures Xor(Xor(a, b), Xor(c, d)) == Xor(Xor(a, c), Xor(b, d))
  {
    XorAssoc(a, b, Xor(c, d));
    XorAssoc(b, c, d);
    XorComm(b, c);
    XorAssoc(c, b, d);
    XorAssoc(a, c, Xor(b, d));
  }

  // The register is linear and loses nothing.

  lemma TapLinear(h: bv16, k: bv16, a: bool, b: bool)
    ensures Tap(Xor(h, k), a != b) == Xor(Tap(h, a), Tap(k, b))
  {
    XorAssoc(h, 0xA001, k);
    XorComm(0xA001, k);
    XorAssoc(h, k, 0xA001);
    XorSwap(h, 0xA001, k, 0xA001);
    XorUnits(0xA001);
    XorUnits(Xor(h, k));
  }

  lemma FeedBitLinear(c: bv16, d: bv16, x: bool, y: bool)
    ensures FeedBit(Xor(c, d), x != y) == Xor(FeedBit(c, x), FeedBit(d, y))
  {
    XorHalf(c, d);
    XorLow(c, d);
    TapLinear(Half(c), Half(d), Low(c) != x, Low(d) != y);
  }

  lemma FeedBitInjective(a: bv16, b: bv16, bit: bool)
    requires FeedBit(a, bit) == FeedBit(b, bit)
    ensures a == b
  {}

  lemma {:induction false} ShiftNLinear(a: bv16, b: bv16, n: nat)
    ensures ShiftN(Xor(a, b), n) == Xor(ShiftN(a, n), ShiftN(b, n))
  {
    if n > 0 {
      ShiftNLinear(a, b, n - 1);
      FeedBitLinear(ShiftN(a, n - 1), ShiftN(b, n - 1), false, false);
    }
  }

  lemma {:induction false} ShiftNInjective(a: bv16, b: bv16, n: nat)
    requires ShiftN(a, n) == ShiftN(b, n)
    ensures a == b
  {
    if n > 0 {
      FeedBitInjective(ShiftN(a, n - 1), ShiftN(b, n - 1), false);
      ShiftNInjective(a, b, n - 1);
    }
  }

  lemma {:induction false} ShiftNZero(n: nat)
    ensures ShiftN(0, n) == 0
  {
    if n > 0 {
      ShiftNZero(n - 1);
    }
  }

  lemma {:induction false} ShiftNAdd(c: bv16, m: nat, n: nat)
    ensures ShiftN(c, m + n) == ShiftN(ShiftN(c, m), n)
  {
    if n > 0 {
      ShiftNAdd(c, m, n - 1);
    }
  }

  // Whole messages.

  function XorBytes(x: seq<byte>, y: seq<byte>): (z: seq<byte>)
    requires |x| == |y|
    ensures |z| == |x|
    ensures forall i :: 0 <= i < |z| ==> z[i] == x[i] ^ y[i]
  {
    seq(|x|, i requires 0 <= i < |x| => x[i] ^ y[i])
  }

  lemma WidenXor(x: byte, y: byte)
    ensures Widen(x ^ y) == Xor(Widen(x), Widen(y))
  {}

  lemma AbsorbByteLinear(c: bv16, d: bv16, x: byte, y: byte)
    ensures AbsorbByte(Xor(c, d), x ^ y) == Xor(AbsorbByte(c, x), AbsorbByte(d, y))
  {
    WidenXor(x, y);
    XorSwap(c, d, Widen(x), Widen(y));
    ShiftNLinear(Xor(c, Widen(x)), Xor(d, Widen(y)), 8);
  }

  /** The remainder is linear in the start value and the message together. */
  lemma {:induction false} RunLinear(c: bv16, d: bv16, x: seq<byte>, y: seq<byte>)
    requires |x| == |y|
    ensures Run(Xor(c, d), XorBytes(x, y)) == Xor(Run(c, x), Run(d, y))
  {
    if x == [] {
      assert XorBytes(x, y) == [];
    } else {
      var n := |x| - 1;
      var z := XorBytes(x, y);
      RunLinear(c, d, x[..n], y[..n]);
      assert z[..n] == XorBytes(x[..n], y[..n]);
      assert z[n] == x[n] ^ y[n];
      AbsorbByteLinear(Run(c, x[..n]), Run(d, y[..n]), x[n], y[n]);
    }
  }

  lemma {:induction false} RunAppend(c: bv16, a: seq<byte>, b: seq<byte>)
    ensures Run(c, a + b) == Run(Run(c, a), b)
  {
    if b == [] {
      assert a + b == a;
    } else {
      var n := |b| - 1;
      RunAppend(c, a, b[..n]);
      assert (a + b)[..|a + b| - 1] == a + b[..n];
    }
  }

  /** The checksum of equal-length messages is affine: the start value cancels out. */
  lemma ChecksumAffine(x: seq<byte>, y: seq<byte>)
    requires |x| == |y|
    ensures Xor(Run(INIT, x), Run(INIT, y)) == Run(0, XorBytes(x, y))
  {
    RunLinear(INIT, INIT, x, y);
    XorUnits(INIT);
  }
}
