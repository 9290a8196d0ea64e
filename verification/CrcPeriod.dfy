/**
 The period of the shift register, and with it the detection of two-bit errors. A lone bit comes
 back to its own position only after 32767 turns; squaring reaches such exponents in a few steps.
 */
module CrcPeriod {
  import opened Bytes
  import opened ModbusCrc
  import opened CrcDetection

  /** The state after n turns from the unit polynomial, which the reflected register holds in bit 15. */
  function Pow(n: nat): bv16
  {
    ShiftN(0x8000, n)
  }

  // Squaring is linear, since cross terms cancel: bit k stands for x^(15 - k) and becomes x^(30 - 2k).

  /** x^(30 - 2k), reduced. */
  function EvenPower(k: nat): bv16
    requires k <= 15
  {
    match k
    case 0 => 0x6001 case 1 => 0xC007 case 2 => 0xC019 case 3 => 0xC061
    case 4 => 0xC181 case 5 => 0xC601 case 6 => 0xD801 case 7 => 0xA001
    case 8 => 0x0002 case 9 => 0x0008 case 10 => 0x0020 case 11 => 0x0080
    case 12 => 0x0200 case 13 => 0x0800 case 14 => 0x2000 case _ => 0x8000
  }

  function Term(on: bool, k: nat): bv16
    requires k <= 15
  {
    if on then EvenPower(k) else 0
  }

  function SquareFrom(a: bv16, k: nat): bv16
    requires k <= 16
    decreases 16 - k
  {
    if k == 16 then 0 else Xor(Term(Low(a), k), SquareFrom(Half(a), k + 1))
  }

  // The same sum four bits at a time, which the verifier can evaluate on a numeral.

  function Sum4(a: bv16, b: bv16, c: bv16, d: bv16): bv16
  {
    Xor(Xor(a, b), Xor(c, d))
  }

  function Nibble(a: bv16, k: nat): bv16
    requires k <= 12
  {
    Sum4(Term(a & 1 != 0, k), Term(a & 2 != 0, k + 1), Term(a & 4 != 0, k + 2), Term(a & 8 != 0, k + 3))
  }

  function Square(a: bv16, n: nat): bv16
    requires n <= 4
    decreases 4 - n
  {
    if n == 4 then 0 else Xor(Nibble(a, 4 * n), Square(a >> 4, n + 1))
  }

  lemma Sum4IsNested(a: bv16, b: bv16, c: bv16, d: bv16, e: bv16)
    ensures Xor(a, Xor(b, Xor(c, Xor(d, e)))) == Xor(Sum4(a, b, c, d), e)
  {
    XorAssoc(a, b, Xor(c, Xor(d, e)));
    XorAssoc(c, d, e);
    XorAssoc(Xor(a, b), Xor(c, d), e);
  }

  lemma NibbleBits(a: bv16)
    ensures Low(a) == (a & 1 != 0)
    ensures Low(Half(a)) == (a & 2 != 0)
    ensures Low(Half(Half(a))) == (a & 4 != 0)
    ensures Low(Half(Half(Half(a)))) == (a & 8 != 0)
    ensures Half(Half(Half(Half(a)))) == a >> 4
  {}

  lemma Unroll(a: bv16, k: nat)
    requires k < 16
    ensures SquareFrom(a, k) == Xor(Term(Low(a), k), SquareFrom(Half(a), k + 1))
  {}

  lemma NibbleWritten(a: bv16, k: nat)
    requires k <= 12
    ensures SquareFrom(a, k) == Xor(Nibble(a, k), SquareFrom(a >> 4, k + 4))
  {
    NibbleBits(a);
    var b, c, d := Half(a), Half(Half(a)), Half(Half(Half(a)));
    Unroll(a, k);
    Unroll(b, k + 1);
    Unroll(c, k + 2);
    Unroll(d, k + 3);
    Sum4IsNested(Term(Low(a), k), Term(Low(b), k + 1), Term(Low(c), k + 2), Term(Low(d), k + 3),
      SquareFrom(a >> 4, k + 4));
  }

  lemma {:induction false} SquareWritten(a: bv16, n: nat)
    requires n <= 4
    ensures Square(a, n) == SquareFrom(a, 4 * n)
    decreases 4 - n
  {
    if n < 4 {
      calc {
        Square(a, n);
        Xor(Nibble(a, 4 * n), Square(a >> 4, n + 1));
        { SquareWritten(a >> 4, n + 1); }
        Xor(Nibble(a, 4 * n), SquareFrom(a >> 4, 4 * n + 4));
        { NibbleWritten(a, 4 * n); }
        SquareFrom(a, 4 * n);
      }
    }
  }

  lemma TermLinear(x: bool, y: bool, k: nat)
    requires k <= 15
    ensures Term(x != y, k) == Xor(Term(x, k), Term(y, k))
  {
    XorUnits(EvenPower(k));
    XorUnits(0);
  }

  lemma {:induction false} SquareLinear(a: bv16, b: bv16, k: nat)
    requires k <= 16
    ensures SquareFrom(Xor(a, b), k) == Xor(SquareFrom(a, k), SquareFrom(b, k))
    decreases 16 - k
  {
    if k == 16 {
      XorUnits(0);
    } else {
      XorLow(a, b);
      XorHalf(a, b);
      SquareLinear(Half(a), Half(b), k + 1);
      TermLinear(Low(a), Low(b), k);
      XorSwap(Term(Low(a), k), Term(Low(b), k), SquareFrom(Half(a), k + 1), SquareFrom(Half(b), k + 1));
    }
  }

  lemma {:induction false} DropOne(b: bv16, n: nat)
    ensures Drop(b, n + 1) == Drop(Half(b), n)
  {
    if n > 0 {
      DropOne(b, n - 1);
    }
  }

  lemma TermShift(on: bool, k: nat)
    requires k < 15
    ensures ShiftN(Term(on, k + 1), 2) == Term(on, k)
  {
    var v := Term(on, k + 1);
    assert ShiftN(v, 1) == FeedBit(v, false);
    assert ShiftN(v, 2) == FeedBit(FeedBit(v, false), false);
  }

  /** Two turns raise every exponent by two, as long as nothing falls off the end. */
  lemma {:induction false} SquareShift(b: bv16, k: nat)
    requires k <= 15 && Drop(b, 15 - k) == 0
    ensures ShiftN(SquareFrom(b, k + 1), 2) == SquareFrom(b, k)
    decreases 15 - k
  {
    if k == 15 {
      ShiftNZero(2);
      assert !Low(b) && Half(b) == 0;
      XorUnits(0);
    } else {
      DropOne(b, 14 - k);
      SquareShift(Half(b), k + 1);
      TermShift(Low(b), k);
      ShiftNLinear(Term(Low(b), k + 1), SquareFrom(Half(b), k + 2), 2);
    }
  }

  lemma HalfFits(a: bv16)
    ensures Drop(Half(a), 15) == 0
  {
    DropOne(a, 15);
    DropSum(a, 8, 8);
    DropEight(a);
    DropEight(a >> 8);
    assert (a >> 8) >> 8 == 0;
  }

  lemma {:induction false} DropSum(a: bv16, m: nat, n: nat)
    ensures Drop(a, m + n) == Drop(Drop(a, m), n)
  {
    if n > 0 {
      DropSum(a, m, n - 1);
    }
  }

  lemma SquareOfTap()
    ensures SquareFrom(0xA001, 0) == ShiftN(EvenPower(0), 2)
  {
    SquareWritten(0xA001, 0);
    assert ShiftN(0x6001, 1) == 0x9001;
    assert ShiftN(0x6001, 2) == 0xE801;
  }

  /** Squaring turns one step into two. */
  lemma SquareStep(a: bv16)
    ensures SquareFrom(FeedBit(a, false), 0) == ShiftN(SquareFrom(a, 0), 2)
  {
    var half, term := Half(a), Term(Low(a), 0);
    HalfFits(a);
    SquareShift(half, 0);
    ShiftNLinear(term, SquareFrom(half, 1), 2);
    SquareOfStep(half, Low(a));
  }

  lemma SquareOfStep(half: bv16, on: bool)
    ensures SquareFrom(Tap(half, on), 0) == Xor(ShiftN(Term(on, 0), 2), SquareFrom(half, 0))
  {
    if on {
      SquareLinear(half, 0xA001, 0);
      SquareOfTap();
      XorComm(SquareFrom(half, 0), SquareFrom(0xA001, 0));
    } else {
      ShiftNZero(2);
      XorUnits(SquareFrom(half, 0));
    }
  }

  lemma {:induction false} PowDouble(n: nat)
    ensures Pow(2 * n) == SquareFrom(Pow(n), 0)
  {
    if n == 0 {
      SquareWritten(0x8000, 0);
    } else {
      PowDouble(n - 1);
      SquareStep(Pow(n - 1));
      ShiftNAdd(0x8000, 2 * (n - 1), 2);
    }
  }

  // Exponents are built up in variables: a numeral in the place of n would be unrolled step by step.

  lemma Unit() returns (n: nat)
    ensures n == 1 && Pow(n) == 0x4000
  {
    n := 1;
  }

  lemma Doubled(n: nat, v: bv16, odd: bool, w: bv16) returns (d: nat)
    requires Pow(n) == v
    requires w == if odd then FeedBit(Square(v, 0), false) else Square(v, 0)
    ensures d == n + n + (if odd then 1 else 0)
    ensures Pow(d) == w
  {
    PowDouble(n);
    SquareWritten(v, 0);
    d := 2 * n;
    if odd {
      d := d + 1;
    }
  }

  lemma Pow217() returns (n: nat)
    ensures n - 1 == 216 && Pow(n) == 0x3E55
  {
    n := Unit();
    n := Doubled(n, 0x4000, true, 0x1000);
    n := Doubled(n, 0x1000, false, 0x0200);
    n := Doubled(n, 0x0200, true, 0x0004);
    n := Doubled(n, 0x0004, true, 0xC00D);
    n := Doubled(n, 0xC00D, false, 0xC079);
    n := Doubled(n, 0xC079, false, 0xDFE1);
    n := Doubled(n, 0xDFE1, true, 0x3E55);
  }

  lemma Pow1057() returns (n: nat)
    ensures n - 1 == 1056 && Pow(n) == 0xCE41
  {
    n := Unit();
    n := Doubled(n, 0x4000, false, 0x2000);
    n := Doubled(n, 0x2000, false, 0x0800);
    n := Doubled(n, 0x0800, false, 0x0080);
    n := Doubled(n, 0x0080, false, 0xA001);
    n := Doubled(n, 0xA001, true, 0xD401);
    n := Doubled(n, 0xD401, false, 0xC221);
    n := Doubled(n, 0xC221, false, 0x0608);
    n := Doubled(n, 0x0608, false, 0xC049);
    n := Doubled(n, 0xC049, false, 0xD861);
    n := Doubled(n, 0xD861, true, 0xCE41);
  }

  lemma Pow4681() returns (n: nat)
    ensures n - 1 == 4680 && Pow(n) == 0x8C69
  {
    n := Unit();
    n := Doubled(n, 0x4000, false, 0x2000);
    n := Doubled(n, 0x2000, false, 0x0800);
    n := Doubled(n, 0x0800, true, 0x0040);
    n := Doubled(n, 0x0040, false, 0xD801);
    n := Doubled(n, 0xD801, false, 0xC281);
    n := Doubled(n, 0xC281, true, 0x3004);
    n := Doubled(n, 0x3004, false, 0xCA19);
    n := Doubled(n, 0xCA19, false, 0xC169);
    n := Doubled(n, 0xC169, true, 0x0F31);
    n := Doubled(n, 0x0F31, false, 0x672B);
    n := Doubled(n, 0x672B, false, 0x8E4C);
    n := Doubled(n, 0x8E4C, true, 0x8C69);
  }

  lemma Pow127() returns (n: nat)
    ensures n - 1 == 126 && Pow(n) == 0xC100
  {
    n := Unit();
    n := Doubled(n, 0x4000, true, 0x1000);
    n := Doubled(n, 0x1000, true, 0x0100);
    n := Doubled(n, 0x0100, true, 0x0001);
    n := Doubled(n, 0x0001, true, 0x9001);
    n := Doubled(n, 0x9001, true, 0xD101);
    n := Doubled(n, 0xD101, true, 0xC100);
  }

  lemma Pow2047() returns (n: nat)
    ensures n - 1 == 2046 && Pow(n) == 0x5100
  {
    n := Pow127();
    n := Doubled(n, 0xC100, true, 0x5001);
    n := Doubled(n, 0x5001, true, 0x8101);
    n := Doubled(n, 0x8101, true, 0xD000);
    n := Doubled(n, 0xD000, true, 0x5100);
  }

  lemma Pow32767() returns (n: nat)
    ensures n - 1 == 32766 && Pow(n) == 0x8000
  {
    n := Pow2047();
    n := Doubled(n, 0x5100, true, 0x1101);
    n := Doubled(n, 0x1101, true, 0x9100);
    n := Doubled(n, 0x9100, true, 0x4101);
    n := Doubled(n, 0x4101, true, 0x8000);
  }

  // The turn counts that bring a lone bit home form a group, so the smallest divides 32767.

  ghost predicate Returns(n: nat)
  {
    Pow(n) == 0x8000
  }

  lemma {:induction false} ReturnsMultiple(n: nat, m: nat)
    requires Returns(n)
    ensures Returns(n * m)
  {
    if m > 0 {
      ReturnsMultiple(n, m - 1);
      assert n * m == n * (m - 1) + n;
      ShiftNAdd(0x8000, n * (m - 1), n);
    } else {
      assert n * m == 0;
    }
  }

  lemma ReturnsDifference(a: nat, b: nat)
    requires a <= b && Returns(a) && Returns(b)
    ensures Returns(b - a)
  {
    ShiftNAdd(0x8000, a, b - a);
  }

  /** Euclid's algorithm on turn counts. */
  lemma {:induction false} CommonPeriod(a: nat, b: nat) returns (g: nat, x: nat, y: nat)
    requires a > 0 && b > 0 && Returns(a) && Returns(b)
    ensures g > 0 && Returns(g) && a == g * x && b == g * y
    decreases a + b
  {
    if a == b {
      g, x, y := a, 1, 1;
    } else if a < b {
      ReturnsDifference(a, b);
      g, x, y := CommonPeriod(a, b - a);
      assert g * (x + y) == g * x + g * y;
      y := x + y;
    } else {
      ReturnsDifference(b, a);
      g, x, y := CommonPeriod(a - b, b);
      assert g * (x + y) == g * x + g * y;
      x := x + y;
    }
  }

  lemma MulMonotone(d: nat, a: nat, b: nat)
    requires a <= b
    ensures d * a <= d * b
  {}

  /** 32767 = 7 * 31 * 151. */
  lemma SmallFactor(d: nat, e: nat)
    requires 2 <= d < 182 && d * e == 32767
    ensures d in {7, 31, 151}
  {}

  lemma ProperDivisor(g: nat, y: nat)
    requires 2 <= y && g * y - 1 == 32766
    ensures g in {1, 7, 31, 151, 217, 1057, 4681}
  {
    if g < 182 {
      if g > 1 {
        SmallFactor(g, y);
      }
    } else if y < 182 {
      SmallFactor(y, g);
    } else {
      MulMonotone(g, 182, y);
      assert false;
    }
  }

  /** A lone bit does not come home before 32767 turns. */
  lemma NoEarlyReturn(n: nat)
    requires 0 < n <= 32766
    ensures !Returns(n)
  {
    if Returns(n) {
      var whole := Pow32767();
      var g, x, y := CommonPeriod(n, whole);
      if y <= 1 {
        MulMonotone(g, y, 1);
        MulMonotone(g, 1, x);
      }
      ProperDivisor(g, y);
      if g in {1, 7, 31, 217} {
        var m := Pow217();
        ReturnsMultiple(g, m / g);
      } else if g in {151, 1057} {
        var m := Pow1057();
        ReturnsMultiple(g, m / g);
      } else {
        var m := Pow4681();
      }
    }
  }

  // Two-bit errors.

  lemma Pow16() returns (n: nat)
    ensures n == 15 && Pow(n) == 1 && Pow(n + 1) == 0xA001
  {
    n := Unit();
    n := Doubled(n, 0x4000, true, 0x1000);
    n := Doubled(n, 0x1000, true, 0x0100);
    n := Doubled(n, 0x0100, true, 0x0001);
  }

  lemma SecondBitMisses(gap: nat)
    requires gap + 1 <= 32766
    ensures FeedBit(ShiftN(0xA001, gap), true) != 0
  {
    var c := ShiftN(0xA001, gap);
    if FeedBit(c, true) == 0 {
      assert FeedBit(1, true) == 0;
      FeedBitInjective(c, 1, true);
      var n := Pow16();
      ShiftNAdd(0x8000, n + 1, gap);
      ShiftNAdd(0x8000, gap + 1, n);
      ShiftNInjective(Pow(gap + 1), 0x8000, n);
      NoEarlyReturn(gap + 1);
    }
  }

  lemma TwoBitWindow(w: seq<bool>)
    requires 2 <= |w| <= 32767 && w[0] && w[|w| - 1]
    requires forall k :: 0 < k < |w| - 1 ==> !w[k]
    ensures Feed(0, w) != 0
  {
    var n := |w| - 1;
    var zeros := w[1..n];
    assert w[..n] == [true] + zeros;
    FeedAppend(0, [true], zeros);
    assert [true][..0] == [];
    assert FeedBit(0, true) == 0xA001;
    FeedZeros(0xA001, zeros);
    SecondBitMisses(n - 1);
  }

  lemma TwoBits(d: seq<bool>, i: nat, j: nat)
    requires i < j < |d| <= 32767 && d[i] && d[j]
    requires forall k :: 0 <= k < |d| && d[k] ==> k == i || k == j
    ensures Feed(0, d) != 0
  {
    Silent(d[..j + 1], i);
    TwoBitWindow(d[..j + 1][i..]);
    Persists(d, j + 1);
  }

  lemma {:induction false} WeightZero(d: seq<bool>)
    requires Weight(d) == 0
    ensures forall k :: 0 <= k < |d| ==> !d[k]
  {
    if d != [] {
      WeightZero(d[..|d| - 1]);
    }
  }

  lemma {:induction false} WeightOne(d: seq<bool>) returns (i: nat)
    requires Weight(d) == 1
    ensures i < |d| && d[i]
    ensures forall k :: 0 <= k < |d| && d[k] ==> k == i
  {
    var n := |d| - 1;
    if d[n] {
      WeightZero(d[..n]);
      i := n;
    } else {
      i := WeightOne(d[..n]);
    }
  }

  lemma {:induction false} WeightTwo(d: seq<bool>) returns (i: nat, j: nat)
    requires Weight(d) == 2
    ensures i < j < |d| && d[i] && d[j]
    ensures forall k :: 0 <= k < |d| && d[k] ==> k == i || k == j
  {
    var n := |d| - 1;
    if d[n] {
      i := WeightOne(d[..n]);
      j := n;
    } else {
      i, j := WeightTwo(d[..n]);
    }
  }

  lemma TwoBitErrorDetected(c: bv16, x: seq<byte>, y: seq<byte>)
    requires |x| == |y| <= 4095 && Distance(x, y) == 2
    ensures Run(c, x) != Run(c, y)
  {
    var d := Diff(Bits(x), Bits(y));
    var i, j := WeightTwo(d);
    TwoBits(d, i, j);
    SameRemainder(c, x, y);
  }

  /** Errors of one, two or three bits anywhere in up to 4095 bytes change the remainder. */
  lemma FewBitErrorsDetected(c: bv16, x: seq<byte>, y: seq<byte>)
    requires |x| == |y| <= 4095 && 1 <= Distance(x, y) <= 3
    ensures Run(c, x) != Run(c, y)
  {
    if Distance(x, y) == 2 {
      TwoBitErrorDetected(c, x, y);
    } else {
      OddErrorDetected(c, x, y);
    }
  }
}
