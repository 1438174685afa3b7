/** The JavaScript built-ins the watchlist code leans on, stated over exact
    integers and reals: String.prototype.trim, the regular-expression class
    \s, parseInt, parseFloat and String.prototype.match(/\d+/). */
module Js {

  datatype Option<+T> = None | Some(value: T) {
    function GetOr(default: T): T {
      match this
      case Some(v) => v
      case None => default
    }
  }

  datatype Result<+R, +E> = Ok(value: R) | Err(error: E)

  /** White space as ECMA-262 defines it for trim, \s and the number parsers:
      the WhiteSpace and LineTerminator code points. */
  predicate IsSpace(c: char) {
    c == '\t' || c == '\n' || c == '\U{B}' || c == '\U{C}' || c == '\r' || c == ' '
    || c == '\U{A0}' || c == '\U{1680}' || ('\U{2000}' <= c <= '\U{200A}')
    || c == '\U{2028}' || c == '\U{2029}' || c == '\U{202F}' || c == '\U{205F}'
    || c == '\U{3000}' || c == '\U{FEFF}'
  }

  predicate IsDigit(c: char) { '0' <= c <= '9' }

  function DigitValue(c: char): nat
    requires IsDigit(c)
  {
    c as int - '0' as int
  }

  /** A string of white space only (the empty string included). */
  predicate AllSpace(s: string) {
    forall i :: 0 <= i < |s| ==> IsSpace(s[i])
  }

  /** A string with no white space at either end. */
  predicate Trimmed(s: string) {
    s == [] || (!IsSpace(s[0]) && !IsSpace(s[|s| - 1]))
  }

  /** Drops the white space at the front (the first step of parseInt and parseFloat). */
  function TrimStart(s: string): (r: string)
    ensures |r| <= |s|
    ensures forall i :: 0 <= i < |s| - |r| ==> IsSpace(s[i])
    ensures r == [] || !IsSpace(r[0])
  {
    if s == [] || !IsSpace(s[0]) then s else TrimStart(s[1..])
  }

  /** What TrimStart keeps is the tail of its input. */
  lemma {:induction false} TrimStartIsSuffix(s: string)
    ensures var r := TrimStart(s); r == s[|s| - |r|..]
  {
    if s != [] && IsSpace(s[0]) {
      TrimStartIsSuffix(s[1..]);
      var r := TrimStart(s);
      assert s[1..][|s| - 1 - |r|..] == s[|s| - |r|..];
    }
  }

  /** Drops the white space at the back. */
  function TrimEnd(s: string): (r: string)
    ensures |r| <= |s|
    ensures forall i :: |r| <= i < |s| ==> IsSpace(s[i])
    ensures r == [] || !IsSpace(r[|r| - 1])
  {
    if s == [] || !IsSpace(s[|s| - 1]) then s else TrimEnd(s[..|s| - 1])
  }

  /** What TrimEnd keeps is the head of its input. */
  lemma {:induction false} TrimEndIsPrefix(s: string)
    ensures var r := TrimEnd(s); r == s[..|r|]
  {
    if s != [] && IsSpace(s[|s| - 1]) {
      TrimEndIsPrefix(s[..|s| - 1]);
      var r := TrimEnd(s);
      assert s[..|s| - 1][..|r|] == s[..|r|];
    }
  }

  /** s is white space, then r from position k, then white space. */
  predicate Between(s: string, k: int, r: string) {
    0 <= k && k + |r| <= |s| && r == s[k..k + |r|] && AllSpace(s[..k]) && AllSpace(s[k + |r|..])
  }

  /** String.prototype.trim: the input with the white space at both ends
      cut (TrimCutsOnlySpace). */
  function Trim(s: string): (r: string)
    ensures Trimmed(r)
    ensures r == [] <==> forall i :: 0 <= i < |s| ==> IsSpace(s[i])
  {
    TrimBothEnds(s);
    TrimEnd(TrimStart(s))
  }

  /** Trimming the front and then the back gives a trimmed text, empty
      exactly when the input is all white space. */
  lemma {:induction false} TrimBothEnds(s: string)
    ensures var r := TrimEnd(TrimStart(s));
      Trimmed(r) && (r == [] <==> forall i :: 0 <= i < |s| ==> IsSpace(s[i]))
  {
    var t := TrimStart(s);
    var r := TrimEnd(t);
    TrimStartIsSuffix(s);
    TrimEndIsPrefix(t);
    if r != [] { assert r[0] == t[0]; }
  }

  /** What trim keeps is one stretch of the input, and what it cuts at
      either end is white space. */
  lemma {:induction false} TrimCutsOnlySpace(s: string)
    ensures exists k :: Between(s, k, Trim(s))
  {
    var t := TrimStart(s);
    TrimStartIsSuffix(s);
    TrimEndIsPrefix(t);
    StretchBetween(s, t, TrimEnd(t));
    assert Trim(s) == TrimEnd(t);
  }

  /** A prefix r of a suffix t of s, where what t leaves out in front and
      what r leaves out of t are white space. */
  lemma {:induction false} StretchBetween(s: string, t: string, r: string)
    requires |t| <= |s| && t == s[|s| - |t|..] && (forall i :: 0 <= i < |s| - |t| ==> IsSpace(s[i]))
    requires |r| <= |t| && r == t[..|r|] && (forall i :: |r| <= i < |t| ==> IsSpace(t[i]))
    ensures exists k :: Between(s, k, r)
  {
    var k := |s| - |t|;
    assert s[k + |r|..] == t[|r|..];
    assert Between(s, k, r);
  }

  lemma {:induction false} TrimmedIsFixed(s: string)
    requires Trimmed(s)
    ensures Trim(s) == s
  {
  }

  /** Leading white space never changes the trimmed value. */
  lemma {:induction false} TrimSkipsLeadingSpace(sp: string, s: string)
    requires forall i :: 0 <= i < |sp| ==> IsSpace(sp[i])
    ensures Trim(sp + s) == Trim(s)
  {
    if sp != [] {
      assert (sp + s)[1..] == sp[1..] + s;
      assert TrimStart(sp + s) == TrimStart(sp[1..] + s);
      TrimSkipsLeadingSpace(sp[1..], s);
    } else {
      assert sp + s == s;
    }
  }

  /** Leading white space in front of a non-space character is exactly what
      TrimStart drops. */
  lemma {:induction false} TrimStartSkipsSpace(sp: string, s: string)
    requires forall i :: 0 <= i < |sp| ==> IsSpace(sp[i])
    requires s == [] || !IsSpace(s[0])
    ensures TrimStart(sp + s) == s
  {
    if sp != [] {
      assert (sp + s)[1..] == sp[1..] + s;
      TrimStartSkipsSpace(sp[1..], s);
    } else {
      assert sp + s == s;
    }
  }

  /** Length of the longest prefix of decimal digits. */
  function DigitPrefix(s: string): (n: nat)
    ensures n <= |s|
    ensures forall i :: 0 <= i < n ==> IsDigit(s[i])
    ensures n == |s| || !IsDigit(s[n])
  {
    if s == [] || !IsDigit(s[0]) then 0 else 1 + DigitPrefix(s[1..])
  }

  predicate AllDigits(s: string) {
    forall i :: 0 <= i < |s| ==> IsDigit(s[i])
  }

  /** The value of a decimal numeral. */
  function DigitsValue(ds: string): nat
    requires AllDigits(ds)
  {
    if ds == [] then 0 else DigitsValue(ds[..|ds| - 1]) * 10 + DigitValue(ds[|ds| - 1])
  }

  predicate IsHexDigit(c: char) {
    IsDigit(c) || 'a' <= c <= 'f' || 'A' <= c <= 'F'
  }

  function HexDigitValue(c: char): nat
    requires IsHexDigit(c)
  {
    if IsDigit(c) then DigitValue(c)
    else if 'a' <= c <= 'f' then c as int - 'a' as int + 10
    else c as int - 'A' as int + 10
  }

  function HexPrefix(s: string): (n: nat)
    ensures n <= |s|
    ensures forall i :: 0 <= i < n ==> IsHexDigit(s[i])
    ensures n == |s| || !IsHexDigit(s[n])
  {
    if s == [] || !IsHexDigit(s[0]) then 0 else 1 + HexPrefix(s[1..])
  }

  function HexValue(ds: string): nat
    requires forall i :: 0 <= i < |ds| ==> IsHexDigit(ds[i])
  {
    if ds == [] then 0 else HexValue(ds[..|ds| - 1]) * 16 + HexDigitValue(ds[|ds| - 1])
  }

  /** The sign step shared by parseInt and parseFloat: a leading '-' or '+'
      is consumed, and only '-' negates. */
  function SignOf(t: string): int {
    if |t| > 0 && t[0] == '-' then -1 else 1
  }

  function AfterSign(t: string): (u: string)
    ensures |u| <= |t| && |t| - |u| <= 1
    ensures |u| < |t| <==> t != [] && (t[0] == '-' || t[0] == '+')
  {
    if |t| > 0 && (t[0] == '-' || t[0] == '+') then t[1..] else t
  }

  /** What is left after the sign is the text with at most its first
      character, a sign, removed. */
  lemma AfterSignIsTail(t: string)
    ensures var u := AfterSign(t); u == t[|t| - |u|..]
  {
  }

  /** parseInt(s) with no radix; None stands for NaN. */
  function ParseInt(s: string): Option<int> {
    var t := TrimStart(s);
    match UnsignedInt(AfterSign(t))
    case None => None
    case Some(v) => Some(if SignOf(t) < 0 then -(v as int) else v)
  }

  /** parseInt yields a number only when the text holds a digit, and a
      negative one only when it holds a '-'. */
  lemma {:induction false} ParseIntNeedsDigit(s: string)
    ensures ParseInt(s).Some? ==> exists i :: 0 <= i < |s| && IsDigit(s[i])
    ensures ParseInt(s).Some? && ParseInt(s).value < 0 ==> '-' in s
  {
    var u := AfterSign(TrimStart(s));
    SignedPartIsSuffix(s);
    if ParseInt(s).Some? {
      assert IsDigit(s[|s| - |u|]);
    }
  }

  /** The value parseInt reads after the sign: a "0x"/"0X" switches to base
      16, otherwise the leading decimal digits; None when there are none. */
  function UnsignedInt(u: string): (r: Option<nat>)
    ensures r.Some? ==> u != [] && IsDigit(u[0])
  {
    if |u| >= 2 && u[0] == '0' && (u[1] == 'x' || u[1] == 'X') then
      var h := HexPrefix(u[2..]);
      if h == 0 then None else Some(HexValue(u[2..2 + h]))
    else
      var n := DigitPrefix(u);
      if n == 0 then None else Some(DigitsValue(u[..n]))
  }

  /** What parseInt and parseFloat read after the white space and the sign
      is the tail of the text; a negative sign is a '-' in the text. */
  lemma {:induction false} SignedPartIsSuffix(s: string)
    ensures var t := TrimStart(s); var u := AfterSign(t);
      && |u| <= |s| && u == s[|s| - |u|..]
      && (SignOf(t) < 0 ==> '-' in s)
  {
    var t := TrimStart(s);
    TrimStartIsSuffix(s);
    AfterSignIsTail(t);
    if SignOf(t) < 0 {
      assert t[0] == s[|s| - |t|];
    }
  }

  /** Text that starts with neither white space, a sign, a dot nor a digit
      (the empty text included) is NaN to both number parsers. */
  lemma {:induction false} NotANumber(s: string)
    requires s == [] || (!IsSpace(s[0]) && !IsDigit(s[0]) && s[0] != '+' && s[0] != '-' && s[0] != '.')
    ensures ParseInt(s).None? && ParseFloat(s).None?
  {
    assert TrimStart(s) == s;
    assert AfterSign(s) == s;
  }

  /** A plain decimal numeral followed by text that does not continue it
      parses to the numeral's value. */
  lemma {:induction false} LeadingNumeralParsesToItsValue(s: string, ds: string, rest: string)
    requires s == ds + rest
    requires ds != [] && AllDigits(ds)
    requires rest == [] || !IsDigit(rest[0])
    requires !(|ds| == 1 && ds[0] == '0' && rest != [] && (rest[0] == 'x' || rest[0] == 'X'))
    ensures ParseInt(s) == Some(DigitsValue(ds))
  {
    assert s[0] == ds[0];
    assert TrimStart(s) == s;
    assert SignOf(s) == 1;
    assert AfterSign(s) == s;
    assert !(|s| >= 2 && s[0] == '0' && (s[1] == 'x' || s[1] == 'X')) by {
      if |s| >= 2 {
        if |ds| >= 2 { assert s[1] == ds[1]; } else { assert s[1] == rest[0]; }
      }
    }
    DigitPrefixOfNumeral(ds, rest);
    assert s[..|ds|] == ds;
  }

  lemma {:induction false} DigitPrefixOfNumeral(ds: string, rest: string)
    requires AllDigits(ds)
    requires rest == [] || !IsDigit(rest[0])
    ensures DigitPrefix(ds + rest) == |ds|
  {
    if ds != [] {
      assert (ds + rest)[1..] == ds[1..] + rest;
      DigitPrefixOfNumeral(ds[1..], rest);
    } else {
      assert ds + rest == rest;
    }
  }

  /** A single digit is a numeral worth that digit. */
  lemma {:induction false} SingleDigitValue(d: char)
    requires IsDigit(d)
    ensures AllDigits([d]) && DigitsValue([d]) == DigitValue(d)
  {
    assert [d][..0] == [];
  }

  /** A numeral followed by one more digit is worth ten times as much, plus
      that digit. */
  lemma {:induction false} DigitsValueSnoc(ds: string, d: char)
    requires AllDigits(ds) && IsDigit(d)
    ensures AllDigits(ds + [d])
    ensures DigitsValue(ds + [d]) == DigitsValue(ds) * 10 + DigitValue(d)
  {
    var s := ds + [d];
    assert s[..|s| - 1] == ds;
  }

  function Pow10(e: nat): (r: nat)
    ensures r >= 1
  {
    if e == 0 then 1 else 10 * Pow10(e - 1)
  }

  /** The factor an ExponentPart contributes, or 1 when the text after the
      mantissa does not start with a well-formed exponent. */
  function ExponentFactor(t: string): (f: real)
    ensures f > 0.0
  {
    if |t| >= 1 && (t[0] == 'e' || t[0] == 'E') then
      var v := t[1..];
      var neg := |v| > 0 && v[0] == '-';
      var w := AfterSign(v);
      var n := DigitPrefix(w);
      if n == 0 then 1.0
      else if neg then 1.0 / Pow10(DigitsValue(w[..n])) as real
      else Pow10(DigitsValue(w[..n])) as real
    else 1.0
  }

  /** parseFloat(s) for finite decimal literals; None stands for NaN: white
      space and an optional sign, then the longest decimal literal. */
  function ParseFloat(s: string): (r: Option<real>)
    ensures r.None? <==> UnsignedDecimal(AfterSign(TrimStart(s))).None?
  {
    var t := TrimStart(s);
    match UnsignedDecimal(AfterSign(t))
    case None => None
    case Some(v) => Some(SignOf(t) as real * v)
  }

  /** The value of the longest prefix of u of the form digits[.digits][exponent]
      or .digits[exponent]; None when u starts with neither. */
  function UnsignedDecimal(u: string): (r: Option<real>)
    ensures r.None? <==> DigitPrefix(u) == 0 && !(|u| > 1 && u[0] == '.' && IsDigit(u[1]))
  {
    var n := DigitPrefix(u);
    var hasPoint := n < |u| && u[n] == '.';
    var m := if hasPoint then DigitPrefix(u[n + 1..]) else 0;
    if n == 0 && m == 0 then None
    else
      var whole := DigitsValue(u[..n]) as real;
      var frac := if hasPoint then DigitsValue(u[n + 1..n + 1 + m]) as real / Pow10(m) as real else 0.0;
      var rest := if hasPoint then u[n + 1 + m..] else u[n..];
      Some((whole + frac) * ExponentFactor(rest))
  }

  /** A decimal literal whole.frac with nothing after it parses to its value. */
  lemma {:induction false} DecimalParsesToItsValue(s: string, whole: string, frac: string)
    requires s == whole + "." + frac
    requires whole != [] && AllDigits(whole) && AllDigits(frac)
    ensures ParseFloat(s) == Some(DigitsValue(whole) as real + DigitsValue(frac) as real / Pow10(|frac|) as real)
  {
    assert s[0] == whole[0];
    assert TrimStart(s) == s;
    assert SignOf(s) == 1;
    assert AfterSign(s) == s;
    UnsignedDecimalOfLiteral(whole, frac);
  }

  /** A numeral followed by a dot and a fraction worth zero ("7.0", "7.00")
      parses to the numeral's value. */
  lemma {:induction false} ZeroFractionParsesToWhole(s: string, whole: string, frac: string)
    requires s == whole + "." + frac
    requires whole != [] && AllDigits(whole) && AllDigits(frac) && DigitsValue(frac) == 0
    ensures ParseFloat(s) == Some(DigitsValue(whole) as real)
  {
    var x := DigitsValue(whole) as real;
    assert x + DigitsValue(frac) as real / Pow10(|frac|) as real == x by {
      ZeroOverPositive(Pow10(|frac|) as real);
    }
    DecimalParsesToItsValue(s, whole, frac);
  }

  lemma {:induction false} ZeroOverPositive(p: real)
    requires p > 0.0
    ensures 0.0 / p == 0.0
  {
  }

  lemma {:induction false} UnsignedDecimalOfLiteral(whole: string, frac: string)
    requires whole != [] && AllDigits(whole) && AllDigits(frac)
    ensures UnsignedDecimal(whole + "." + frac)
      == Some(DigitsValue(whole) as real + DigitsValue(frac) as real / Pow10(|frac|) as real)
  {
    var s := whole + "." + frac;
    var n := |whole|;
    WholeBeforePoint(s, whole, frac);
    assert DigitPrefix(s[n + 1..]) == |frac| by {
      DigitPrefixOfNumeral(frac, []);
      assert frac + [] == frac;
    }
    assert s[n + 1..n + 1 + |frac|] == frac;
    assert s[n + 1 + |frac|..] == [];
    assert ExponentFactor([]) == 1.0;
  }

  /** In whole.frac the digit run is the whole part, followed by the point
      and then the fraction. */
  lemma {:induction false} WholeBeforePoint(s: string, whole: string, frac: string)
    requires s == whole + "." + frac
    requires AllDigits(whole)
    ensures DigitPrefix(s) == |whole| < |s| && s[|whole|] == '.'
    ensures s[..|whole|] == whole && s[|whole| + 1..] == frac
  {
    assert s == whole + ("." + frac);
    DigitPrefixOfNumeral(whole, "." + frac);
  }

  /** a % b on integers as JavaScript computes it: the remainder takes the
      sign of the dividend. */
  function JsRemainder(a: int, b: int): (r: int)
    requires b > 0
    ensures a >= 0 ==> 0 <= r < b
    ensures a < 0 ==> -b < r <= 0
    ensures a == TruncatedQuotient(a, b) * b + r
  {
    if a >= 0 then a % b else -((-a) % b)
  }

  /** The quotient rounded toward zero (Math.trunc(a / b)). */
  function TruncatedQuotient(a: int, b: int): int
    requires b > 0
  {
    if a >= 0 then a / b else -((-a) / b)
  }

  /** The index of the first decimal digit, or |s| when there is none. */
  function FirstDigitIndex(s: string): (k: nat)
    ensures k <= |s|
    ensures forall i :: 0 <= i < k ==> !IsDigit(s[i])
    ensures k < |s| ==> IsDigit(s[k])
  {
    if s == [] || IsDigit(s[0]) then 0 else 1 + FirstDigitIndex(s[1..])
  }

  /** s.match(/\d+/): the first maximal run of decimal digits, if any. */
  function MatchDigits(s: string): (r: Option<string>)
    ensures r.None? <==> forall i :: 0 <= i < |s| ==> !IsDigit(s[i])
    ensures r.Some? ==> r.value != [] && AllDigits(r.value)
  {
    var k := FirstDigitIndex(s);
    if k == |s| then None else Some(s[k..k + DigitPrefix(s[k..])])
  }

  /** The run found is the one after a digit-free prefix. */
  lemma {:induction false} MatchDigitsFindsFirstRun(pre: string, ds: string, rest: string)
    requires forall i :: 0 <= i < |pre| ==> !IsDigit(pre[i])
    requires ds != [] && AllDigits(ds)
    requires rest == [] || !IsDigit(rest[0])
    ensures MatchDigits(pre + ds + rest) == Some(ds)
  {
    var s := pre + ds + rest;
    var k := FirstDigitIndex(s);
    assert forall i :: 0 <= i < |pre| ==> s[i] == pre[i];
    assert s[|pre|] == ds[0];
    assert k == |pre|;
    assert s[k..] == ds + rest;
    DigitPrefixOfNumeral(ds, rest);
    assert s[k..k + |ds|] == ds;
  }
}
