/** JavaScript's Number(string) conversion (ECMA-262, section 7.1.4.1.1,
    StringToNumber) and the relational operators `>=` and `<=` between a
    finite price and the converted value. Numbers are exact reals here:
    rounding to the nearest double is not modelled. */
module JsNumbers {
  import opened Options
  import opened JsText

  /** A JavaScript Number: a finite value, one of the two infinities, or NaN. */
  datatype JsNumber = Num(value: real) | PosInfinity | NegInfinity | NaN

  /** The value of a hexadecimal digit (either case); 16 for any other character. */
  function DigitValue(c: char): (d: nat)
    ensures d <= 16
  {
    if '0' <= c <= '9' then c as nat - '0' as nat
    else if 'a' <= c <= 'f' then c as nat - 'a' as nat + 10
    else if 'A' <= c <= 'F' then c as nat - 'A' as nat + 10
    else 16
  }

  /** Every character of `s` is a digit in base `radix`. */
  predicate AllDigits(s: string, radix: nat) {
    forall i :: 0 <= i < |s| ==> DigitValue(s[i]) < radix
  }

  /** The positional value of the digits `s`, most significant first. */
  function DigitsValue(s: string, radix: nat): nat {
    if s == [] then 0 else DigitsValue(s[..|s| - 1], radix) * radix + DigitValue(s[|s| - 1])
  }

  /** The length of the longest prefix of `s` made of decimal digits. */
  function DigitRun(s: string): (n: nat)
    ensures n <= |s|
    ensures AllDigits(s[..n], 10)
    ensures n == |s| || DigitValue(s[n]) >= 10
  {
    if s != [] && DigitValue(s[0]) < 10 then
      var n := 1 + DigitRun(s[1..]);
      assert s[..n] == [s[0]] + s[1..][..n - 1];
      n
    else 0
  }

  /** Ten to the power `e`, for any integer `e`. */
  function Pow10(e: int): (r: real)
    ensures r > 0.0
    decreases if e < 0 then -e else e
  {
    if e == 0 then 1.0
    else if e > 0 then 10.0 * Pow10(e - 1)
    else Pow10(e + 1) / 10.0
  }

  /** SignedInteger of an ExponentPart: an optional sign, then one or more
      decimal digits, and nothing else. */
  function ParseSignedInteger(t: string): Option<int> {
    if t != [] && (t[0] == '+' || t[0] == '-') then
      var d := t[1..];
      if d != [] && AllDigits(d, 10) then
        var v: int := DigitsValue(d, 10);
        Some(if t[0] == '-' then -v else v)
      else None
    else if t != [] && AllDigits(t, 10) then Some(DigitsValue(t, 10))
    else None
  }

  /** An optional ExponentPart (`e` or `E`, then a SignedInteger) making up
      all of `t`; an absent exponent is 0. */
  function ParseExponent(t: string): Option<int> {
    if t == [] then Some(0)
    else if t[0] == 'e' || t[0] == 'E' then ParseSignedInteger(t[1..])
    else None
  }

  /** StrUnsignedDecimalLiteral: `Infinity`, or digits with an optional
      fraction and an optional exponent, where at least one digit stands
      before or after the point. */
  function ParseUnsignedDecimal(t: string): Option<JsNumber> {
    if t == "Infinity" then Some(PosInfinity)
    else
      var i := DigitRun(t);
      var rest := t[i..];
      if rest != [] && rest[0] == '.' then
        var f := DigitRun(rest[1..]);
        if i == 0 && f == 0 then None
        else match ParseExponent(rest[1 + f..])
          case None => None
          case Some(e) => Some(Num(DigitsValue(t[..i] + rest[1..1 + f], 10) as real * Pow10(e - f)))
      else if i == 0 then None
      else match ParseExponent(rest)
        case None => None
        case Some(e) => Some(Num(DigitsValue(t[..i], 10) as real * Pow10(e)))
  }

  /** Unary minus. */
  function Negate(n: JsNumber): JsNumber {
    match n
    case Num(v) => Num(-v)
    case PosInfinity => NegInfinity
    case NegInfinity => PosInfinity
    case NaN => NaN
  }

  /** StrDecimalLiteral: an optional sign before a StrUnsignedDecimalLiteral. */
  function ParseDecimal(t: string): Option<JsNumber> {
    if t != [] && t[0] == '+' then ParseUnsignedDecimal(t[1..])
    else if t != [] && t[0] == '-' then
      match ParseUnsignedDecimal(t[1..])
      case None => None
      case Some(n) => Some(Negate(n))
    else ParseUnsignedDecimal(t)
  }

  /** StrNumericLiteral: a NonDecimalIntegerLiteral (`0x`, `0o` or `0b` and
      unsigned digits of that base) or a StrDecimalLiteral. */
  function ParseNumericLiteral(t: string): Option<JsNumber> {
    if |t| >= 2 && t[0] == '0' && t[1] in "xXoObB" then
      var radix := if t[1] in "xX" then 16 else if t[1] in "oO" then 8 else 2;
      var d := t[2..];
      if d != [] && AllDigits(d, radix) then Some(Num(DigitsValue(d, radix) as real)) else None
    else ParseDecimal(t)
  }

  /** Number(s): white space around the literal is ignored, a string of
      white space alone is 0, and anything that is not a numeric literal is
      NaN. */
  function ToNumber(s: string): (n: JsNumber)
    ensures AllTrimmable(s) ==> n == Num(0.0)
  {
    var t := Trim(s);
    if t == [] then Num(0.0)
    else match ParseNumericLiteral(t)
      case Some(n) => n
      case None => NaN
  }

  /** The JavaScript comparison `x >= n` for a finite `x`: false whenever
      `n` is NaN or positive infinity, and the mirror image of `-x <= -n`. */
  predicate AtLeast(x: real, n: JsNumber): (r: bool)
    ensures n.NaN? ==> !r
    ensures n.PosInfinity? ==> !r
    ensures n.NegInfinity? ==> r
    ensures n.Num? ==> (r <==> x >= n.value)
    ensures r <==> AtMost(-x, Negate(n))
  {
    match n
    case Num(v) => x >= v
    case PosInfinity => false
    case NegInfinity => true
    case NaN => false
  }

  /** The JavaScript comparison `x <= n` for a finite `x`: false whenever
      `n` is NaN, true below positive infinity and false against negative
      infinity. */
  predicate AtMost(x: real, n: JsNumber): (r: bool)
    ensures n.NaN? ==> !r
    ensures n.PosInfinity? ==> r
    ensures n.NegInfinity? ==> !r
    ensures n.Num? ==> (r <==> x <= n.value)
  {
    match n
    case Num(v) => x <= v
    case PosInfinity => true
    case NegInfinity => false
    case NaN => false
  }

  /** The decimal numeral of a natural number, without leading zeros. */
  function NatToString(n: nat): (s: string)
    ensures |s| >= 1 && AllDigits(s, 10)
    ensures |s| >= 2 ==> s[0] != '0'
    ensures DigitsValue(s, 10) == n
  {
    var d := ['0' + (n % 10) as char];
    if n < 10 then d
    else
      var p := NatToString(n / 10);
      var s := p + d;
      assert s[..|s| - 1] == p;
      s
  }

  /** The decimal numeral of an integer: a minus sign before negative ones. */
  function IntToString(i: int): string {
    if i < 0 then "-" + NatToString(-i) else NatToString(i)
  }

  /** Number() reads back every integer from its decimal numeral. */
  lemma ToNumberOfIntString(i: int)
    ensures ToNumber(IntToString(i)) == Num(i as real)
  {
    if i < 0 {
      NegativeIntString(i);
    } else {
      NonNegativeNumeral(i);
    }
  }

  /** The numeral of a natural number reads back as that number. */
  lemma NonNegativeNumeral(n: nat)
    ensures ToNumber(NatToString(n)) == Num(n as real)
  {
    var digits := NatToString(n);
    NumeralIsUnpadded(digits);
    TrimOfUnpadded(digits);
    LiteralOfNumeral(digits);
  }

  /** The numeral of a negative integer reads back as that integer. */
  lemma NegativeIntString(i: int)
    requires i < 0
    ensures ToNumber(IntToString(i)) == Num(i as real)
  {
    var digits := NatToString(-i);
    var s := IntToString(i);
    assert s == "-" + digits;
    NumeralIsUnpadded(digits);
    assert s[|s| - 1] == digits[|digits| - 1] && s[1..] == digits;
    TrimOfUnpadded(s);
    UnsignedDigits(digits);
    NegativeLiteral(s);
    assert Negate(Num((-i) as real)) == Num(i as real);
  }

  lemma NumeralIsUnpadded(digits: string)
    requires |digits| >= 1 && AllDigits(digits, 10)
    ensures !IsTrimmable(digits[0]) && !IsTrimmable(digits[|digits| - 1])
  {
    assert DigitValue(digits[0]) < 10 && DigitValue(digits[|digits| - 1]) < 10;
  }

  /** A decimal numeral without a leading zero is read as a decimal literal. */
  lemma LiteralOfNumeral(digits: string)
    requires |digits| >= 1 && AllDigits(digits, 10)
    requires |digits| >= 2 ==> digits[0] != '0'
    ensures ParseNumericLiteral(digits) == Some(Num(DigitsValue(digits, 10) as real))
  {
    assert DigitValue(digits[0]) < 10;
    assert ParseNumericLiteral(digits) == ParseDecimal(digits);
    assert ParseDecimal(digits) == ParseUnsignedDecimal(digits);
    UnsignedDigits(digits);
  }

  lemma NegativeLiteral(s: string)
    requires |s| >= 2 && s[0] == '-'
    requires ParseUnsignedDecimal(s[1..]).Some?
    ensures ParseNumericLiteral(s) == Some(Negate(ParseUnsignedDecimal(s[1..]).value))
  {
    assert ParseNumericLiteral(s) == ParseDecimal(s);
  }

  /** A string that neither starts nor ends with white space is its own trim. */
  lemma TrimOfUnpadded(s: string)
    requires s != [] && !IsTrimmable(s[0]) && !IsTrimmable(s[|s| - 1])
    ensures Trim(s) == s
  {
    assert TrimStart(s) == s;
  }

  /** The numeral of a natural number reads as StrUnsignedDecimalLiteral. */
  lemma UnsignedDigits(digits: string)
    requires |digits| >= 1 && AllDigits(digits, 10)
    ensures ParseUnsignedDecimal(digits) == Some(Num(DigitsValue(digits, 10) as real))
  {
    assert digits != "Infinity" by {
      assert DigitValue(digits[0]) < 10;
    }
    var i := DigitRun(digits);
    assert i == |digits|;
    assert digits[..i] == digits;
  }

  /** White space around a numeral does not change the number it denotes. */
  lemma ToNumberIgnoresPadding(left: string, s: string, right: string)
    requires AllTrimmable(left) && AllTrimmable(right)
    ensures ToNumber(left + s + right) == ToNumber(s)
  {
    TrimIgnoresPadding(left, s, right);
  }
}
