/**
 * Python floats as the LAS reader produces and compares them, and `float(s)` on
 * plain decimal literals: optional surrounding whitespace, an optional sign, digits
 * with at most one decimal point and at least one digit.
 */
module PyFloat {
  import opened Wrappers
  import opened PyStr

  /** A Python float: a real value or NaN. */
  datatype Num = Finite(v: real) | NaN

  /** Python's `==` on floats: NaN equals nothing, itself included. */
  predicate Eq(a: Num, b: Num) {
    a.Finite? && b.Finite? && a.v == b.v
  }

  /** Python's `<` on floats: false whenever NaN is involved. */
  predicate Less(a: Num, b: Num) {
    a.Finite? && b.Finite? && a.v < b.v
  }

  predicate IsDigit(c: char) {
    '0' <= c <= '9'
  }

  predicate AllDigits(s: string) {
    forall k :: 0 <= k < |s| ==> IsDigit(s[k])
  }

  /** The value of a run of decimal digits, most significant first. */
  function DigitsValue(ds: string): nat
    requires AllDigits(ds)
  {
    if ds == [] then 0
    else 10 * DigitsValue(ds[..|ds| - 1]) + (ds[|ds| - 1] as int - '0' as int)
  }

  /** `x` divided by ten `n` times: the value of `x` moved `n` decimal places right. */
  function Shift(x: real, n: nat): real {
    if n == 0 then x else Shift(x, n - 1) / 10.0
  }

  /** The number of leading decimal digits of `s`. */
  function DigitCount(s: string): (k: nat)
    ensures k <= |s| && AllDigits(s[..k])
    ensures k < |s| ==> !IsDigit(s[k])
  {
    if |s| > 0 && IsDigit(s[0]) then
      var k := DigitCount(s[1..]) + 1;
      assert s[..k] == [s[0]] + s[1..][..k - 1];
      k
    else 0
  }

  /** The value of the literal `w.f` whose fractional part has `n` digits. */
  function DecimalValue(w: nat, f: nat, n: nat): real {
    w as real + Shift(f as real, n)
  }

  /** An unsigned literal: `ddd`, `ddd.`, `ddd.ddd` or `.ddd`. */
  function ParseUnsigned(t: string): Option<real> {
    var i := DigitCount(t);
    if i == |t| then
      if i > 0 then Some(DigitsValue(t) as real) else None
    else if t[i] != '.' then
      None
    else
      var frac := t[i + 1..];
      if !AllDigits(frac) || (i == 0 && frac == []) then None
      else Some(DecimalValue(DigitsValue(t[..i]), DigitsValue(frac), |frac|))
  }

  /** A literal with an optional leading sign. */
  function ParseLiteral(t: string): Option<real> {
    if |t| > 0 && (t[0] == '+' || t[0] == '-') then
      match ParseUnsigned(t[1..])
      case None => None
      case Some(v) => Some(if t[0] == '-' then -v else v)
    else
      ParseUnsigned(t)
  }

  predicate IsLiteralChar(c: char) {
    IsDigit(c) || c == '.' || c == '+' || c == '-'
  }

  lemma LiteralCharNotSpace(c: char)
    requires IsLiteralChar(c)
    ensures !IsSpace(c)
  {
  }

  lemma UnsignedChars(t: string)
    requires ParseUnsigned(t).Some?
    ensures |t| > 0 && forall k :: 0 <= k < |t| ==> IsLiteralChar(t[k])
  {
    var i := DigitCount(t);
    assert forall k :: 0 <= k < i ==> t[k] == t[..i][k];
    if i < |t| {
      assert forall k :: i + 1 <= k < |t| ==> t[k] == t[i + 1..][k - i - 1];
    }
  }

  lemma LiteralChars(t: string)
    ensures ParseLiteral(t).Some? ==> |t| > 0 && forall k :: 0 <= k < |t| ==> IsLiteralChar(t[k])
  {
    if ParseLiteral(t).None? {
    } else if |t| > 0 && (t[0] == '+' || t[0] == '-') {
      UnsignedChars(t[1..]);
      assert forall k :: 1 <= k < |t| ==> t[k] == t[1..][k - 1];
    } else {
      UnsignedChars(t);
    }
  }

  /** `float(s)` on decimal literals; `None` stands for the ValueError Python raises. */
  function ParseFloat(s: string): (r: Option<real>)
    ensures r.Some? ==> |Strip(s)| > 0 && forall k :: 0 <= k < |Strip(s)| ==> IsLiteralChar(Strip(s)[k])
  {
    var t := Strip(s);
    LiteralChars(t);
    ParseLiteral(t)
  }

  /** Text that `float` accepts is a single whitespace-separated token. */
  lemma ParsedIsOneToken(s: string)
    requires ParseFloat(s).Some?
    ensures Tokens(s) == [Strip(s)]
  {
    var t := Strip(s);
    LiteralChars(t);
    forall k | 0 <= k < |t|
      ensures !IsSpace(t[k])
    {
      LiteralCharNotSpace(t[k]);
    }
    TokensOfStrip(s);
    TokensOfWord(t);
  }

  /** Decimal digits of a natural number, most significant first. */
  function NatString(n: nat): (s: string)
    ensures |s| > 0 && AllDigits(s)
  {
    var d := ['0' + (n % 10) as char];
    if n < 10 then d else NatString(n / 10) + d
  }

  lemma {:induction false} NatStringValue(n: nat)
    ensures DigitsValue(NatString(n)) == n
  {
    var s := NatString(n);
    if n >= 10 {
      NatStringValue(n / 10);
      assert s[..|s| - 1] == NatString(n / 10);
    }
  }

  lemma {:induction false} DigitCountAll(s: string, rest: string)
    requires AllDigits(s)
    requires rest == [] || !IsDigit(rest[0])
    ensures DigitCount(s + rest) == |s|
    decreases |s|
  {
    if s != [] {
      assert (s + rest)[1..] == s[1..] + rest;
      DigitCountAll(s[1..], rest);
    } else {
      assert s + rest == rest;
    }
  }

  /** A literal `ddd.ddd` reads back as its decimal value. */
  lemma ParseFloatDecimal(whole: string, frac: string)
    requires |whole| > 0 && AllDigits(whole) && AllDigits(frac)
    ensures ParseFloat(whole + "." + frac)
         == Some(DecimalValue(DigitsValue(whole), DigitsValue(frac), |frac|))
  {
    var t := whole + "." + frac;
    DecimalIsStripped(whole, frac);
    assert ParseFloat(t) == ParseUnsigned(t);
    DecimalPieces(whole, frac);
    UnsignedWithPoint(t, |whole|, whole, frac);
  }

  lemma DecimalIsStripped(whole: string, frac: string)
    requires |whole| > 0 && AllDigits(whole) && AllDigits(frac)
    ensures var t := whole + "." + frac; Strip(t) == t && IsDigit(t[0])
  {
    var t := whole + "." + frac;
    assert t[0] == whole[0];
    assert t[|t| - 1] == if frac == [] then '.' else frac[|frac| - 1];
    LiteralCharNotSpace(t[0]);
    LiteralCharNotSpace(t[|t| - 1]);
    StripOfStripped(t);
  }

  lemma DecimalPieces(whole: string, frac: string)
    requires |whole| > 0 && AllDigits(whole) && AllDigits(frac)
    ensures var t, i := whole + "." + frac, |whole|;
      && DigitCount(t) == i && i < |t| && t[..i] == whole && t[i] == '.' && t[i + 1..] == frac
  {
    var t := whole + "." + frac;
    assert t == whole + ("." + frac);
    DigitCountAll(whole, "." + frac);
    var i := |whole|;
    assert t[..i] == whole;
    assert t[i + 1..] == frac;
  }

  lemma UnsignedWithPoint(t: string, i: nat, whole: string, frac: string)
    requires i == DigitCount(t) && 0 < i < |t| && t[i] == '.'
    requires whole == t[..i] && frac == t[i + 1..] && AllDigits(frac)
    ensures ParseUnsigned(t) == Some(DecimalValue(DigitsValue(whole), DigitsValue(frac), |frac|))
  {
  }

  /** A run of digits is its own stripped form and reads as an unsigned literal. */
  lemma DigitsUnsigned(t: string)
    requires |t| > 0 && AllDigits(t)
    ensures Strip(t) == t && ParseUnsigned(t) == Some(DigitsValue(t) as real)
  {
    LiteralCharNotSpace(t[0]);
    LiteralCharNotSpace(t[|t| - 1]);
    StripOfStripped(t);
    DigitCountAll(t, "");
    assert t + "" == t;
  }

  /** A run of digits reads back as its value. */
  lemma ParseDigits(t: string)
    requires |t| > 0 && AllDigits(t)
    ensures ParseFloat(t) == Some(DigitsValue(t) as real)
  {
    DigitsUnsigned(t);
    UnsignedLiteral(t);
  }

  /** A literal that starts with a digit has no sign to read. */
  lemma UnsignedLiteral(t: string)
    requires |t| > 0 && IsDigit(t[0])
    ensures ParseLiteral(t) == ParseUnsigned(t)
  {
  }

  /** Every natural number written in decimal reads back as itself. */
  lemma ParseFloatNat(n: nat)
    ensures ParseFloat(NatString(n)) == Some(n as real)
  {
    ParseDigits(NatString(n));
    NatStringValue(n);
  }

  /** A '-' followed by digits is its own stripped form. */
  lemma NegativeIsStripped(d: string)
    requires |d| > 0 && AllDigits(d)
    ensures var t := "-" + d; Strip(t) == t && t[0] == '-' && t[1..] == d
  {
    var t := "-" + d;
    assert t[1..] == d;
    assert t[|t| - 1] == d[|d| - 1];
    LiteralCharNotSpace(t[|t| - 1]);
    StripOfStripped(t);
  }

  /** A '-' followed by a run of digits reads back as minus its value. */
  lemma ParseNegativeDigits(d: string, v: real)
    requires |d| > 0 && AllDigits(d) && v == DigitsValue(d) as real
    ensures ParseFloat("-" + d) == Some(-v)
  {
    NegativeIsStripped(d);
    DigitsUnsigned(d);
    NegatedLiteral("-" + d, v);
  }

  /** A negative integer written in decimal reads back as itself. */
  lemma ParseFloatNegative(n: nat)
    ensures ParseFloat("-" + NatString(n)) == Some(-(n as real))
  {
    NatStringValue(n);
    ParseNegativeDigits(NatString(n), n as real);
  }

  lemma NegatedLiteral(t: string, v: real)
    requires |t| > 0 && t[0] == '-' && ParseUnsigned(t[1..]) == Some(v)
    ensures ParseLiteral(t) == Some(-v)
  {
  }
}
