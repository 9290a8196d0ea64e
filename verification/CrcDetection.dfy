/**
 What the remainder catches. Two messages of the same length with the same remainder cannot
 differ in one or two bits, in an odd number of bits, or only inside sixteen consecutive bits.
 */
module CrcDetection {
  import opened Bytes
  import opened ModbusCrc

  // The message as a bit stream, the least significant bit of each byte first.

  function Drop(w: bv16, k: nat): bv16
  {
    if k == 0 then w else Half(Drop(w, k - 1))
  }

  function BitsOf(b: byte): (bits: seq<bool>)
    ensures |bits| == 8
    ensures forall k :: 0 <= k < 8 ==> bits[k] == Low(Drop(Widen(b), k))
  {
    seq(8, k requires 0 <= k < 8 => Low(Drop(Widen(b), k)))
  }

  function Bits(m: seq<byte>): (bits: seq<bool>)
    ensures |bits| == 8 * |m|
  {
    if m == [] then [] else Bits(m[..|m| - 1]) + BitsOf(m[|m| - 1])
  }

  function Feed(c: bv16, bits: seq<bool>): bv16
  {
    if bits == [] then c else FeedBit(Feed(c, bits[..|bits| - 1]), bits[|bits| - 1])
  }

  function Diff(x: seq<bool>, y: seq<bool>): (d: seq<bool>)
    requires |x| == |y|
    ensures |d| == |x|
    ensures forall i :: 0 <= i < |d| ==> d[i] == (x[i] != y[i])
  {
    seq(|x|, i requires 0 <= i < |x| => x[i] != y[i])
  }

  function Weight(d: seq<bool>): nat
  {
    if d == [] then 0 else Weight(d[..|d| - 1]) + (if d[|d| - 1] then 1 else 0)
  }

  /** The number of bit positions in which two messages differ. */
  function Distance(x: seq<byte>, y: seq<byte>): nat
    requires |x| == |y|
  {
    Weight(Diff(Bits(x), Bits(y)))
  }

  // Feeding the bits is running the bytes.

  lemma {:induction false} FeedAppend(c: bv16, a: seq<bool>, b: seq<bool>)
    ensures Feed(c, a + b) == Feed(Feed(c, a), b)
  {
    if b == [] {
      assert a + b == a;
    } else {
      var n := |b| - 1;
      FeedAppend(c, a, b[..n]);
      assert (a + b)[..|a + b| - 1] == a + b[..n];
    }
  }

  /** A register fed its own low bit just moves down. */
  lemma OwnBit(c: bv16)
    ensures FeedBit(c, Low(c)) == Half(c)
  {}

  /** A byte loaded at once and shifted k times is its first k bits fed, the rest still pending. */
  lemma {:induction false} LoadedByte(c: bv16, b: byte, k: nat)
    requires k <= 8
    ensures ShiftN(Xor(c, Widen(b)), k) == Xor(Feed(c, BitsOf(b)[..k]), Drop(Widen(b), k))
  {
    var bits := BitsOf(b);
    if k == 0 {
      assert bits[..0] == [];
    } else {
      LoadedByte(c, b, k - 1);
      assert bits[..k][..k - 1] == bits[..k - 1];
      var pending := Drop(Widen(b), k - 1);
      FeedBitLinear(Feed(c, bits[..k - 1]), pending, bits[k - 1], bits[k - 1]);
      OwnBit(pending);
    }
  }

  lemma DropEight(w: bv16)
    ensures Drop(w, 8) == w >> 8
  {
    assert Drop(w, 1) == w >> 1;
    assert Drop(w, 2) == w >> 2;
    assert Drop(w, 3) == w >> 3;
    assert Drop(w, 4) == w >> 4;
    assert Drop(w, 5) == w >> 5;
    assert Drop(w, 6) == w >> 6;
    assert Drop(w, 7) == w >> 7;
  }

  lemma DropAll(b: byte)
    ensures Drop(Widen(b), 8) == 0
  {
    var w := Widen(b);
    DropEight(w);
  }

  lemma FeedByte(c: bv16, b: byte)
    ensures Feed(c, BitsOf(b)) == AbsorbByte(c, b)
  {
    LoadedByte(c, b, 8);
    assert BitsOf(b)[..8] == BitsOf(b);
    DropAll(b);
    XorUnits(Feed(c, BitsOf(b)));
  }

  lemma {:induction false} FeedIsRun(c: bv16, m: seq<byte>)
    ensures Feed(c, Bits(m)) == Run(c, m)
  {
    if m != [] {
      var n := |m| - 1;
      FeedIsRun(c, m[..n]);
      FeedAppend(c, Bits(m[..n]), BitsOf(m[n]));
      FeedByte(Run(c, m[..n]), m[n]);
    }
  }

  lemma WidenInjective(a: byte, b: byte)
    requires Widen(a) == Widen(b)
    ensures a == b
  {}

  lemma ByteFromBits(a: byte, b: byte)
    requires BitsOf(a) == BitsOf(b)
    ensures a == b
  {
    FeedByte(0, a);
    FeedByte(0, b);
    XorUnits(Widen(a));
    XorUnits(Widen(b));
    ShiftNInjective(Widen(a), Widen(b), 8);
    WidenInjective(a, b);
  }

  lemma {:induction false} BitsInjective(x: seq<byte>, y: seq<byte>)
    requires |x| == |y| && Bits(x) == Bits(y)
    ensures x == y
  {
    if x != [] {
      var n := |x| - 1;
      assert Bits(x)[..8 * n] == Bits(x[..n]) && Bits(y)[..8 * n] == Bits(y[..n]);
      assert Bits(x)[8 * n..] == BitsOf(x[n]) && Bits(y)[8 * n..] == BitsOf(y[n]);
      BitsInjective(x[..n], y[..n]);
      ByteFromBits(x[n], y[n]);
      assert x == x[..n] + [x[n]] && y == y[..n] + [y[n]];
    }
  }

  // Differences.

  lemma {:induction false} FeedLinear(c: bv16, d: bv16, x: seq<bool>, y: seq<bool>)
    requires |x| == |y|
    ensures Xor(Feed(c, x), Feed(d, y)) == Feed(Xor(c, d), Diff(x, y))
  {
    if x == [] {
      assert Diff(x, y) == [];
    } else {
      var n := |x| - 1;
      FeedLinear(c, d, x[..n], y[..n]);
      assert Diff(x, y)[..n] == Diff(x[..n], y[..n]);
      FeedBitLinear(Feed(c, x[..n]), Feed(d, y[..n]), x[n], y[n]);
    }
  }

  /** Remainders agree exactly when the difference alone leaves none. */
  lemma SameRemainder(c: bv16, x: seq<byte>, y: seq<byte>)
    requires |x| == |y|
    ensures Run(c, x) == Run(c, y) <==> Feed(0, Diff(Bits(x), Bits(y))) == 0
  {
    FeedIsRun(c, x);
    FeedIsRun(c, y);
    FeedLinear(c, c, Bits(x), Bits(y));
    XorUnits(c);
    XorZero(Run(c, x), Run(c, y));
  }

  lemma {:induction false} FeedZeros(c: bv16, zeros: seq<bool>)
    requires forall i :: 0 <= i < |zeros| ==> !zeros[i]
    ensures Feed(c, zeros) == ShiftN(c, |zeros|)
  {
    if zeros != [] {
      FeedZeros(c, zeros[..|zeros| - 1]);
    }
  }

  /** Leading agreement leaves the register empty. */
  lemma Silent(d: seq<bool>, k: nat)
    requires k <= |d|
    requires forall i :: 0 <= i < k ==> !d[i]
    ensures Feed(0, d) == Feed(0, d[k..])
  {
    FeedAppend(0, d[..k], d[k..]);
    assert d == d[..k] + d[k..];
    FeedZeros(0, d[..k]);
    ShiftNZero(k);
  }

  /** Trailing agreement cannot undo a difference. */
  lemma Persists(d: seq<bool>, k: nat)
    requires k <= |d|
    requires forall i :: k <= i < |d| ==> !d[i]
    requires Feed(0, d[..k]) != 0
    ensures Feed(0, d) != 0
  {
    FeedAppend(0, d[..k], d[k..]);
    assert d == d[..k] + d[k..];
    FeedZeros(Feed(0, d[..k]), d[k..]);
    ShiftNZero(|d| - k);
    if Feed(0, d) == 0 {
      ShiftNInjective(Feed(0, d[..k]), 0, |d| - k);
    }
  }

  lemma {:induction false} FirstTrue(d: seq<bool>) returns (first: nat)
    requires exists i :: 0 <= i < |d| && d[i]
    ensures first < |d| && d[first]
    ensures forall i :: 0 <= i < first ==> !d[i]
  {
    first := 0;
    while !d[first]
      invariant first < |d|
      invariant forall i :: 0 <= i < first ==> !d[i]
      decreases |d| - first
    {
      first := first + 1;
    }
  }

  // Odd errors: the parity of the register follows the parity of what was fed.

  function Parity(c: bv16): bool
    decreases c
  {
    if c == 0 then false else Low(c) != Parity(Half(c))
  }

  lemma ParityStep(c: bv16)
    ensures Parity(c) == (Low(c) != Parity(Half(c)))
  {}

  lemma {:induction false} ParityXor(a: bv16, b: bv16)
    ensures Parity(Xor(a, b)) == (Parity(a) != Parity(b))
    decreases a
  {
    if a == 0 {
      XorUnits(b);
    } else {
      ParityXor(Half(a), Half(b));
      XorHalf(a, b);
      XorLow(a, b);
      ParityStep(a);
      ParityStep(b);
      ParityStep(Xor(a, b));
    }
  }

  lemma ParityOfTap()
    ensures Parity(0xA001)
  {
    assert Parity(0x000A) == Parity(0x0005) == !Parity(0x0002) == !Parity(0x0001);
    assert Parity(0x00A0) == Parity(0x0050) == Parity(0x0028) == Parity(0x0014) == Parity(0x000A);
    assert Parity(0x0A00) == Parity(0x0500) == Parity(0x0280) == Parity(0x0140) == Parity(0x00A0);
    assert Parity(0x5000) == Parity(0x2800) == Parity(0x1400) == Parity(0x0A00);
  }

  lemma ParityFeedBit(c: bv16, bit: bool)
    ensures Parity(FeedBit(c, bit)) == (Parity(c) != bit)
  {
    ParityStep(c);
    ParityXor(Half(c), 0xA001);
    ParityOfTap();
  }

  lemma {:induction false} FeedParity(d: seq<bool>)
    ensures Parity(Feed(0, d)) <==> Weight(d) % 2 == 1
  {
    if d != [] {
      var n := |d| - 1;
      FeedParity(d[..n]);
      ParityFeedBit(Feed(0, d[..n]), d[n]);
    }
  }

  /** Every error of an odd number of bits changes the remainder. */
  lemma OddErrorDetected(c: bv16, x: seq<byte>, y: seq<byte>)
    requires |x| == |y| && Distance(x, y) % 2 == 1
    ensures Run(c, x) != Run(c, y)
  {
    FeedParity(Diff(Bits(x), Bits(y)));
    SameRemainder(c, x, y);
  }

  // Bursts: sixteen bits cannot push the first difference out of the register.

  function Halved(n: nat): bv16
  {
    if n == 0 then 0x8000 else Half(Halved(n - 1))
  }

  ghost predicate Reaches(c: bv16, n: nat)
  {
    c >= Halved(n)
  }

  lemma ShrMonotone(c: bv16, t: bv16)
    requires c >= t
    ensures Half(c) >= Half(t)
  {}

  lemma TapIsHigh(c: bv16)
    ensures Tap(Half(c), true) >= 0x8000
  {}

  lemma HalfIsLow(t: bv16)
    ensures Half(t) < 0x8000
  {}

  lemma StaysAbove(c: bv16, t: bv16, bit: bool)
    requires c >= t
    ensures FeedBit(c, bit) >= Half(t)
  {
    ShrMonotone(c, t);
    TapIsHigh(c);
    HalfIsLow(t);
  }

  lemma ReachesNext(c: bv16, n: nat, bit: bool)
    requires Reaches(c, n)
    ensures Reaches(FeedBit(c, bit), n + 1)
  {
    StaysAbove(c, Halved(n), bit);
  }

  lemma FirstReaches()
    ensures Reaches(FeedBit(0, true), 0)
  {}

  lemma {:induction false} BurstStays(d: seq<bool>)
    requires d != [] && d[0]
    ensures Reaches(Feed(0, d), |d| - 1)
  {
    var n := |d| - 1;
    if n == 0 {
      assert d[..n] == [];
      FirstReaches();
    } else {
      BurstStays(d[..n]);
      ReachesNext(Feed(0, d[..n]), n - 1, d[n]);
    }
  }

  lemma {:induction false} HalvedMonotone(m: nat, n: nat)
    requires m <= n
    ensures Halved(m) >= Halved(n)
  {
    if m < n {
      HalvedMonotone(m, n - 1);
      var h := Halved(n - 1);
      assert Half(h) <= h;
    }
  }

  lemma ReachesIsNonzero(c: bv16, n: nat)
    requires n <= 15 && Reaches(c, n)
    ensures c != 0
  {
    assert Halved(5) == 0x0400;
    assert Halved(10) == 0x0020;
    assert Halved(15) == 0x0001;
    HalvedMonotone(n, 15);
  }

  lemma BurstOfBits(d: seq<bool>, first: nat)
    requires first < |d| && d[first]
    requires forall i :: 0 <= i < |d| && d[i] ==> first <= i < first + 16
    ensures Feed(0, d) != 0
  {
    var end := if first + 16 <= |d| then first + 16 else |d|;
    Silent(d[..end], first);
    BurstStays(d[..end][first..]);
    ReachesIsNonzero(Feed(0, d[..end]), end - first - 1);
    Persists(d, end);
  }

  /** All differences lie among the sixteen bits from k on. */
  ghost predicate Burst(x: seq<byte>, y: seq<byte>, k: nat)
    requires |x| == |y|
  {
    forall i :: 0 <= i < 8 * |x| && Bits(x)[i] != Bits(y)[i] ==> k <= i < k + 16
  }

  /** Every burst of at most sixteen bits, at any alignment, changes the remainder. */
  lemma BurstDetected(c: bv16, x: seq<byte>, y: seq<byte>, k: nat)
    requires |x| == |y| && x != y && Burst(x, y, k)
    ensures Run(c, x) != Run(c, y)
  {
    var d := Diff(Bits(x), Bits(y));
    if forall i :: 0 <= i < |d| ==> !d[i] {
      assert Bits(x) == Bits(y);
      BitsInjective(x, y);
    }
    var first := FirstTrue(d);
    BurstOfBits(d, first);
    SameRemainder(c, x, y);
  }

  // The trailer: a message followed by its checksum leaves nothing, and no other trailer does.

  lemma {:induction false} OwnByte(c: bv16, k: nat)
    requires k <= 8
    ensures Feed(c, BitsOf((c & 0xFF) as byte)[..k]) == Drop(c, k)
  {
    var bits := BitsOf((c & 0xFF) as byte);
    if k == 0 {
      assert bits[..0] == [];
    } else {
      OwnByte(c, k - 1);
      assert bits[..k][..k - 1] == bits[..k - 1];
      LowByteBits(c, k - 1);
      OwnBit(Drop(c, k - 1));
    }
  }

  function And(a: bv16, b: bv16): bv16
  {
    a & b
  }

  lemma HalfAnd(a: bv16, b: bv16)
    ensures Half(And(a, b)) == And(Half(a), Half(b))
  {}

  lemma LowAnd(a: bv16, b: bv16)
    requires Low(b)
    ensures Low(And(a, b)) == Low(a)
  {}

  lemma {:induction false} DropAnd(c: bv16, m: bv16, k: nat)
    ensures Drop(And(c, m), k) == And(Drop(c, k), Drop(m, k))
  {
    if k > 0 {
      DropAnd(c, m, k - 1);
      HalfAnd(Drop(c, k - 1), Drop(m, k - 1));
    }
  }

  lemma MaskBits(k: nat)
    requires k < 8
    ensures Low(Drop(0xFF, k))
  {
    assert Drop(0xFF, 1) == 0x7F;
    assert Drop(0xFF, 2) == 0x3F;
    assert Drop(0xFF, 3) == 0x1F;
    assert Drop(0xFF, 4) == 0x0F;
    assert Drop(0xFF, 5) == 0x07;
    assert Drop(0xFF, 6) == 0x03;
    assert Drop(0xFF, 7) == 0x01;
  }

  lemma WidenLow(c: bv16)
    ensures Widen((c & 0xFF) as byte) == And(c, 0xFF)
  {}

  lemma LowByteBits(c: bv16, k: nat)
    requires k < 8
    ensures Low(Drop(Widen((c & 0xFF) as byte), k)) == Low(Drop(c, k))
  {
    WidenLow(c);
    DropAnd(c, 0xFF, k);
    MaskBits(k);
    LowAnd(Drop(c, k), Drop(0xFF, k));
  }

  lemma WidenHigh(c: bv16)
    ensures Widen((c >> 8) as byte) == c >> 8
  {}

  /** Absorbing its own low byte moves the register down by eight. */
  lemma OwnLowByte(c: bv16)
    ensures AbsorbByte(c, (c & 0xFF) as byte) == c >> 8
  {
    var lo := (c & 0xFF) as byte;
    OwnByte(c, 8);
    assert BitsOf(lo)[..8] == BitsOf(lo);
    FeedByte(c, lo);
    DropEight(c);
  }

  lemma OwnHighByte(c: bv16)
    ensures AbsorbByte(c >> 8, (c >> 8) as byte) == 0
  {
    WidenHigh(c);
    XorUnits(c >> 8);
    ShiftNZero(8);
  }

  lemma RunTwo(c: bv16, lo: byte, hi: byte)
    ensures Run(c, [lo, hi]) == AbsorbByte(AbsorbByte(c, lo), hi)
  {
    assert [lo, hi][..1] == [lo] && [lo][..0] == [];
    assert Run(c, [lo]) == AbsorbByte(c, lo);
  }

  lemma OwnTrailer(c: bv16)
    ensures Run(c, WordBytes(c)) == 0
  {
    RunTwo(c, (c & 0xFF) as byte, (c >> 8) as byte);
    OwnLowByte(c);
    OwnHighByte(c);
  }

  lemma TrailerIff(c: bv16, trailer: seq<byte>)
    requires |trailer| == 2
    ensures Run(c, trailer) == 0 <==> trailer == WordBytes(c)
  {
    OwnTrailer(c);
    if trailer != WordBytes(c) {
      BurstDetected(c, trailer, WordBytes(c), 0);
    }
  }

  /** A two-byte trailer makes the remainder vanish exactly when it is the checksum. */
  lemma ResidueIffChecksum(payload: seq<byte>, trailer: seq<byte>)
    requires |trailer| == 2
    ensures Run(INIT, payload + trailer) == 0 <==> trailer == Checksum(payload)
  {
    RunAppend(INIT, payload, trailer);
    TrailerIff(Run(INIT, payload), trailer);
  }

  /** Two bytes of ones empty the register exactly when it starts out as all ones. */
  lemma OnesEmptyIff(c: bv16)
    ensures Run(c, [0xFF, 0xFF]) == 0 <==> c == 0xFFFF
  {
    TrailerIff(c, [0xFF, 0xFF]);
    OnlyOnes(c);
  }

  lemma OnlyOnes(c: bv16)
    ensures [0xFF, 0xFF] == WordBytes(c) <==> c == 0xFFFF
  {
    assert WordBytes(c)[0] == (c & 0xFF) as byte && WordBytes(c)[1] == (c >> 8) as byte;
  }

  /** What the start value means: behind two bytes of ones a checksum starts from an empty register. */
  lemma StartsWithOnes(m: seq<byte>)
    ensures Checksum([0xFF, 0xFF] + m) == WordBytes(Run(0, m))
  {
    RunAppend(INIT, [0xFF, 0xFF], m);
    OnesEmptyIff(INIT);
  }
}
