/** Sixteen-bit numbers in text: how they are read from digits and printed in decimal. */
module Numbers {
  import opened Bytes
  import opened Wrappers

  type Radix = r: nat | r == 10 || r == 16 witness 10

  function DigitOf(c: char, radix: Radix): (d: Option<nat>)
    ensures d.Some? ==> d.value < radix
  {
    if '0' <= c <= '9' then Some(c as int - '0' as int)
    else if radix == 16 && 'a' <= c <= 'f' then Some(c as int - 'a' as int + 10)
    else if radix == 16 && 'A' <= c <= 'F' then Some(c as int - 'A' as int + 10)
    else None
  }

  function Value(digits: string, radix: Radix): Option<nat>
  {
    if digits == "" then Some(0)
    else
      var high, low := Value(digits[..|digits| - 1], radix), DigitOf(digits[|digits| - 1], radix);
      if high.None? || low.None? then None else Some(high.value * radix + low.value)
  }

  /** A leading plus sign and leading zeros are taken; nothing, other characters and numbers past
      65535 are not. */
  function ParseU16(s: string, radix: Radix): Option<u16>
  {
    var digits := if |s| > 1 && s[0] == '+' then s[1..] else s;
    var v := Value(digits, radix);
    if digits == "" || v.None? || v.value >= 0x1_0000 then None else Some(v.value)
  }

  /** The same for eight bits, in decimal. */
  function ParseU8(s: string): (n: Option<nat>)
    ensures n.Some? ==> n.value < 0x100
  {
    var n := ParseU16(s, 10);
    if n.None? || n.value >= 0x100 then None else Some(n.value)
  }

  function Digit(d: nat): (c: char)
    requires d < 10
    ensures DigitOf(c, 10) == Some(d)
  {
    ('0' as int + d) as char
  }

  function Print(n: nat): (s: string)
    ensures s != "" && '0' <= s[0] <= '9'
    ensures forall c :: c in s ==> c != '/' && c != ':'
  {
    if n < 10 then [Digit(n)] else Print(n / 10) + [Digit(n % 10)]
  }

  lemma {:induction false} ValueOfPrint(n: nat)
    ensures Value(Print(n), 10) == Some(n)
  {
    var s := Print(n);
    if n < 10 {
      assert s[..0] == "";
    } else {
      assert s[..|s| - 1] == Print(n / 10);
      ValueOfPrint(n / 10);
    }
  }

  lemma ParsePrint(n: u16)
    ensures ParseU16(Print(n), 10) == Some(n)
  {
    ValueOfPrint(n);
  }

  /** Without sign or needless zeros. */
  predicate Canonical(s: string)
  {
    s != "" && s[0] != '+' && (s[0] == '0' ==> |s| == 1)
  }

  lemma {:induction false} PrintOfValue(s: string)
    requires Canonical(s) && Value(s, 10).Some?
    ensures s == Print(Value(s, 10).value)
    ensures |s| > 1 ==> Value(s, 10).value >= 10
    ensures s != "0" ==> Value(s, 10).value > 0
  {
    var high, last := s[..|s| - 1], s[|s| - 1];
    assert s == high + [last];
    if high == "" {
      assert Value(high, 10) == Some(0);
    } else {
      PrintOfValue(high);
    }
  }

  lemma {:induction false} PrintIsCanonical(n: nat)
    ensures Canonical(Print(n))
    ensures n > 0 ==> Print(n)[0] != '0'
  {
    if n >= 10 {
      PrintIsCanonical(n / 10);
    }
  }

  /** Printing what was read gives the text back exactly when the text was canonical. */
  lemma PrintParse(s: string)
    requires ParseU16(s, 10).Some?
    ensures Print(ParseU16(s, 10).value) == s <==> Canonical(s)
  {
    PrintIsCanonical(ParseU16(s, 10).value);
    if Canonical(s) {
      PrintOfValue(s);
    }
  }

  /** A number below 256 is read back from its print, and no other is. */
  lemma ParseU8Print(n: u16)
    ensures ParseU8(Print(n)) == if n <= 255 then Some(n) else None
  {
    ParsePrint(n);
  }

  // Hexadecimal, as raw values are written: four digits, leading zeros included.

  function HexDigit(d: nat): char
    requires d < 16
  {
    "0123456789abcdef"[d]
  }

  function Hex4(n: u16): (s: string)
    ensures |s| == 4
  {
    [HexDigit(n / 0x1000), HexDigit(n / 0x100 % 16), HexDigit(n / 16 % 16), HexDigit(n % 16)]
  }

  function UpperChar(c: char): char
  {
    if 'a' <= c <= 'z' then (c as int - 'a' as int + 'A' as int) as char else c
  }

  function Upper(s: string): string
  {
    seq(|s|, i requires 0 <= i < |s| => UpperChar(s[i]))
  }

  lemma HexDigitRead(d: nat)
    requires d < 16
    ensures DigitOf(HexDigit(d), 16) == DigitOf(UpperChar(HexDigit(d)), 16) == Some(d)
    ensures HexDigit(d) != '+' && UpperChar(HexDigit(d)) != '+'
  {}

  lemma Nibbles(n: u16)
    ensures n == ((n / 0x1000 * 16 + n / 0x100 % 16) * 16 + n / 16 % 16) * 16 + n % 16
  {}

  lemma FourDigits(s: string, a: nat, b: nat, c: nat, d: nat)
    requires |s| == 4 && s[0] != '+'
    requires DigitOf(s[0], 16) == Some(a) && DigitOf(s[1], 16) == Some(b)
    requires DigitOf(s[2], 16) == Some(c) && DigitOf(s[3], 16) == Some(d)
    ensures Value(s, 16) == Some(((a * 16 + b) * 16 + c) * 16 + d)
  {
    assert s[..3][..2] == s[..2] && s[..2][..1] == s[..1] && s[..1][..0] == "";
    assert Value(s[..1], 16) == Some(a);
    assert Value(s[..2], 16) == Some(a * 16 + b);
    assert Value(s[..3], 16) == Some((a * 16 + b) * 16 + c);
  }

  lemma FourDigitsRead(s: string, n: u16)
    requires |s| == 4 && s[0] != '+'
    requires DigitOf(s[0], 16) == Some(n / 0x1000) && DigitOf(s[1], 16) == Some(n / 0x100 % 16)
    requires DigitOf(s[2], 16) == Some(n / 16 % 16) && DigitOf(s[3], 16) == Some(n % 16)
    ensures ParseU16(s, 16) == Some(n)
  {
    FourDigits(s, n / 0x1000, n / 0x100 % 16, n / 16 % 16, n % 16);
    Nibbles(n);
  }

  /** What was written in hexadecimal is read back, in small and in capital letters. */
  lemma HexRoundTrip(n: u16)
    ensures ParseU16(Hex4(n), 16) == Some(n)
    ensures ParseU16(Upper(Hex4(n)), 16) == Some(n)
  {
    HexDigitRead(n / 0x1000);
    HexDigitRead(n / 0x100 % 16);
    HexDigitRead(n / 16 % 16);
    HexDigitRead(n % 16);
    FourDigitsRead(Hex4(n), n);
    FourDigitsRead(Upper(Hex4(n)), n);
  }

  /** One plus sign in front makes no difference, and alone it is no number. */
  lemma SignIsTaken(s: string, radix: Radix)
    requires s != "" && s[0] != '+'
    ensures ParseU16("+" + s, radix) == ParseU16(s, radix)
    ensures ParseU16("+", radix) == None
  {
    assert ("+" + s)[1..] == s;
    assert "+"[..0] == "";
  }

  lemma {:induction false} ZeroInFront(digits: string, radix: Radix)
    ensures Value("0" + digits, radix) == Value(digits, radix)
  {
    var longer := "0" + digits;
    if digits == "" {
      assert longer[..0] == "";
    } else {
      ZeroInFront(digits[..|digits| - 1], radix);
      assert longer[..|longer| - 1] == "0" + digits[..|digits| - 1];
    }
  }

  /** Nor does a zero in front of digits. */
  lemma ZeroIsTaken(s: string, radix: Radix)
    requires s != "" && s[0] != '+'
    ensures ParseU16("0" + s, radix) == ParseU16(s, radix)
  {
    ZeroInFront(s, radix);
  }
}
