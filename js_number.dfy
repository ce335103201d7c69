/** JavaScript numbers as the source uses them: `Number(text)` (the
    StringToNumber conversion of ECMAScript) and `String(number)`. A finite
    number is modelled by its exact value as a `real`; NaN is `None`. */
module JsNumber {
  import opened Wrappers
  import opened JsString

  predicate IsDigit(c: char) {
    '0' <= c <= '9'
  }

  predicate AllDigits(s: string) {
    forall i :: 0 <= i < |s| ==> IsDigit(s[i])
  }

  function DigitValue(c: char): nat
    requires IsDigit(c)
  {
    c as int - '0' as int
  }

  function DigitChar(d: nat): (c: char)
    requires d < 10
    ensures IsDigit(c) && DigitValue(c) == d
  {
    ('0' as int + d) as char
  }

  /** Decimal digits of n, without leading zeros. */
  function NatToString(n: nat): (r: string)
    ensures |r| >= 1 && AllDigits(r)
    ensures r[0] == '0' ==> n == 0 && r == "0"
    ensures n < 10 <==> |r| == 1
  {
    if n < 10 then [DigitChar(n)] else NatToString(n / 10) + [DigitChar(n % 10)]
  }

  /** The value of a run of decimal digits, most significant first. */
  function DigitsValue(s: string): nat
    requires AllDigits(s)
  {
    if s == [] then 0 else DigitsValue(s[..|s| - 1]) * 10 + DigitValue(s[|s| - 1])
  }

  lemma {:induction false} NatToStringValue(n: nat)
    ensures DigitsValue(NatToString(n)) == n
  {
    if n >= 10 {
      NatToStringValue(n / 10);
      var r := NatToString(n);
      assert r[..|r| - 1] == NatToString(n / 10);
    }
  }

  /** Length of the longest prefix of s made of decimal digits. */
  function DigitRun(s: string): (n: nat)
    ensures n <= |s| && AllDigits(s[..n])
    ensures n < |s| ==> !IsDigit(s[n])
  {
    if s == [] || !IsDigit(s[0]) then 0
    else
      var k := DigitRun(s[1..]);
      assert s[..k + 1] == [s[0]] + s[1..][..k];
      k + 1
  }

  lemma {:induction false} DigitRunAll(s: string)
    requires AllDigits(s)
    ensures DigitRun(s) == |s|
  {
    if s != [] {
      DigitRunAll(s[1..]);
    }
  }

  /** A digit run stops where the digits stop, whatever follows. */
  lemma {:induction false} DigitRunAppend(a: string, b: string)
    ensures DigitRun(a + b) == if DigitRun(a) < |a| then DigitRun(a) else |a| + DigitRun(b)
  {
    if a != [] {
      assert (a + b)[1..] == a[1..] + b;
      DigitRunAppend(a[1..], b);
    } else {
      assert a + b == b;
    }
  }

  /** m × 10^e, exactly, one factor of ten at a time. */
  function ScaleBy(m: real, e: int): real
    decreases if e >= 0 then e else -e
  {
    if e == 0 then m
    else if e > 0 then ScaleBy(m * 10.0, e - 1)
    else ScaleBy(m / 10.0, e + 1)
  }

  /** An optional `e`/`E` exponent part, which must be all of s; `Some(0)` for an empty s. */
  function ParseExponent(s: string): Option<int> {
    if s == [] then Some(0)
    else if s[0] != 'e' && s[0] != 'E' then None
    else
      var t := s[1..];
      var sign := if t != [] && (t[0] == '+' || t[0] == '-') then t[0] else '+';
      var ds := if t != [] && (t[0] == '+' || t[0] == '-') then t[1..] else t;
      if ds == [] || !AllDigits(ds) then None
      else if sign == '-' then Some(-(DigitsValue(ds) as int))
      else Some(DigitsValue(ds))
  }

  /** StrUnsignedDecimalLiteral without `Infinity`: `12`, `12.`, `12.5`, `.5`, each with an
      optional exponent, and nothing else. */
  function ParseUnsignedDecimal(s: string): Option<real> {
    var a := DigitRun(s);
    var intPart := s[..a];
    var afterInt := s[a..];
    var hasDot := afterInt != [] && afterInt[0] == '.';
    var b := if hasDot then DigitRun(afterInt[1..]) else 0;
    var fracPart := if hasDot then afterInt[1..][..b] else [];
    var afterFrac := if hasDot then afterInt[1 + b..] else afterInt;
    if a == 0 && b == 0 then None
    else match ParseExponent(afterFrac)
      case None => None
      case Some(e) =>
        var digits := intPart + fracPart;
        assert AllDigits(digits) by {
          assert forall i :: 0 <= i < |digits| ==> digits[i] == if i < a then intPart[i] else fracPart[i - a];
        }
        Some(ScaleBy(DigitsValue(digits) as real, e - |fracPart|))
  }

  function BaseDigitValue(c: char): (v: int)
    ensures -1 <= v < 16
  {
    if '0' <= c <= '9' then c as int - '0' as int
    else if 'a' <= c <= 'f' then c as int - 'a' as int + 10
    else if 'A' <= c <= 'F' then c as int - 'A' as int + 10
    else -1
  }

  /** The value of s read in the given base, or None if some character is not a digit of it. */
  function ParseBase(s: string, base: nat): Option<nat>
    requires 2 <= base <= 16
  {
    if s == [] then Some(0)
    else
      var d := BaseDigitValue(s[|s| - 1]);
      if d < 0 || d >= base then None
      else match ParseBase(s[..|s| - 1], base)
        case None => None
        case Some(v) => Some(v * base + d)
  }

  /** `0x…`, `0o…` and `0b…` literals (NonDecimalIntegerLiteral, unsigned). */
  function ParseNonDecimal(s: string): Option<real>
    requires |s| >= 2 && s[0] == '0'
  {
    var base := if s[1] == 'x' || s[1] == 'X' then 16
      else if s[1] == 'o' || s[1] == 'O' then 8
      else if s[1] == 'b' || s[1] == 'B' then 2
      else 0;
    if base == 0 || |s| == 2 then None
    else match ParseBase(s[2..], base)
      case None => None
      case Some(v) => Some(v as real)
  }

  /** `Number(text)`: None is NaN. White space around the literal is ignored and the
      empty (or all white space) text is 0. */
  function ToNumber(text: string): Option<real> {
    NumberLiteral(Trim(text))
  }

  /** StringNumericLiteral without its surrounding white space. */
  function NumberLiteral(s: string): Option<real> {
    if s == [] then Some(0.0)
    else if |s| >= 2 && s[0] == '0' && !IsDigit(s[1]) && s[1] != '.' && s[1] != 'e' && s[1] != 'E' then
      ParseNonDecimal(s)
    else if s[0] == '-' then
      match ParseUnsignedDecimal(s[1..])
      case None => None
      case Some(v) => Some(-v)
    else if s[0] == '+' then ParseUnsignedDecimal(s[1..])
    else ParseUnsignedDecimal(s)
  }

  /** `Number(x) || 0` on a form field that may be absent (`null`): NaN and absence give 0. */
  function NumberOrZero(field: Option<string>): real {
    match field
    case None => 0.0
    case Some(text) =>
      match ToNumber(text)
      case None => 0.0
      case Some(v) => v
  }

  /** Up to `fuel` decimal digits of a fraction 0 <= f < 1, stopping once the rest is zero. */
  function FractionDigits(f: real, fuel: nat): (r: string)
    requires 0.0 <= f < 1.0
    ensures AllDigits(r)
    ensures f > 0.0 && fuel > 0 ==> |r| >= 1
    decreases fuel
  {
    if f == 0.0 || fuel == 0 then ""
    else
      var d := (f * 10.0).Floor;
      [DigitChar(d as nat)] + FractionDigits(f * 10.0 - d as real, fuel - 1)
  }

  /** `String(x)` for a finite number: digits of the integer part, then a point and the
      fraction digits when there is a fraction. */
  function NumberToString(x: real): (r: string)
    ensures |r| >= 1
  {
    if x < 0.0 then "-" + UnsignedToString(-x) else UnsignedToString(x)
  }

  function UnsignedToString(x: real): (r: string)
    requires x >= 0.0
    ensures |r| >= 1
  {
    var n := x.Floor;
    var f := x - n as real;
    if f == 0.0 then NatToString(n as nat)
    else NatToString(n as nat) + "." + FractionDigits(f, 20)
  }

  lemma {:induction false} ParseUnsignedDigits(s: string)
    requires |s| >= 1 && AllDigits(s)
    ensures ParseUnsignedDecimal(s) == Some(DigitsValue(s) as real)
  {
    DigitRunAll(s);
    assert s[..|s|] + [] == s;
    assert s[|s|..] == [];
  }

  lemma DigitNotSpace(c: char)
    requires IsDigit(c) || c == '-'
    ensures !IsSpace(c)
  {
  }

  lemma ToNumberDigits(d: string)
    requires |d| >= 1 && AllDigits(d)
    ensures ToNumber(d).Some? && ToNumber(d).value == DigitsValue(d) as real
  {
    ParseUnsignedDigits(d);
    DigitNotSpace(d[0]);
    DigitNotSpace(d[|d| - 1]);
    TrimOfTrimmed(d);
    assert |d| >= 2 && d[0] == '0' ==> IsDigit(d[1]);
  }

  /** A literal with a leading minus is the negated value of the rest. */
  lemma MinusLiteral(d: string, v: real)
    requires ParseUnsignedDecimal(d) == Some(v)
    ensures NumberLiteral("-" + d) == Some(-v)
  {
    assert ("-" + d)[1..] == d;
  }

  lemma NegativeLiteral(d: string)
    requires |d| >= 1 && AllDigits(d)
    ensures NumberLiteral("-" + d).Some? && NumberLiteral("-" + d).value == -(DigitsValue(d) as real)
  {
    ParseUnsignedDigits(d);
    MinusLiteral(d, DigitsValue(d) as real);
  }

  lemma ToNumberNegativeDigits(d: string)
    requires |d| >= 1 && AllDigits(d)
    ensures ToNumber("-" + d).Some? && ToNumber("-" + d).value == -(DigitsValue(d) as real)
  {
    var s := "-" + d;
    assert s[0] == '-' && s[|s| - 1] == d[|d| - 1];
    DigitNotSpace(s[0]);
    DigitNotSpace(d[|d| - 1]);
    TrimOfTrimmed(s);
    NegativeLiteral(d);
  }

  /** `Number(String(n))` is n for every integer n: integer fields survive being sent as text. */
  lemma NumberToStringRoundTrip(n: int)
    ensures ToNumber(NumberToString(n as real)).Some?
    ensures ToNumber(NumberToString(n as real)).value == n as real
  {
    var m: nat := if n < 0 then -n else n;
    var digits := NatToString(m);
    assert UnsignedToString(m as real) == digits;
    NatToStringValue(m);
    if n < 0 {
      ToNumberNegativeDigits(digits);
    } else {
      ToNumberDigits(digits);
    }
  }
}
