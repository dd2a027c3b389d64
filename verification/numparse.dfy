/** The number parsers the code depends on: JavaScript `parseFloat`, JavaScript
    `parseInt(s, 16)` and Python `int(s)`, with the text of a JavaScript number. */
module NumParse {
  import opened Common
  import opened Text

  /** 10 raised to an integer power, as an exact real. */
  function Pow10(k: int): (r: real)
    ensures r > 0.0
    decreases if k < 0 then -k else k
  {
    if k == 0 then 1.0 else if k > 0 then 10.0 * Pow10(k - 1) else Pow10(k + 1) / 10.0
  }

  /** The digit classes numbers are read in. */
  datatype Radix = Decimal | Hexadecimal

  predicate IsRadixDigit(k: Radix, c: char) {
    match k
    case Decimal => IsDigit(c)
    case Hexadecimal => IsHexDigit(c)
  }

  /** Length of the longest prefix of `s` made of digits of radix `ok`. */
  function PrefixLen(s: string, ok: Radix): (n: nat)
    ensures n <= |s|
    ensures forall i :: 0 <= i < n ==> IsRadixDigit(ok, s[i])
    ensures n < |s| ==> !IsRadixDigit(ok, s[n])
  {
    if |s| > 0 && IsRadixDigit(ok, s[0]) then
      var n := 1 + PrefixLen(s[1..], ok);
      assert forall i :: 1 <= i < n ==> s[i] == s[1..][i - 1];
      n
    else 0
  }

  lemma PrefixLenAll(s: string, ok: Radix)
    requires forall i :: 0 <= i < |s| ==> IsRadixDigit(ok, s[i])
    ensures PrefixLen(s, ok) == |s|
  {
  }

  /** The sign a JavaScript or Python number literal may start with. */
  function SignLen(s: string): (n: nat)
    ensures n <= 1 && n <= |s|
  {
    if |s| > 0 && (s[0] == '+' || s[0] == '-') then 1 else 0
  }

  function Signed(neg: bool, v: real): real {
    if neg then -v else v
  }

  /** Exponent part `e[+-]digits` at the start of `s`: its length and value, or length 0. */
  function ExponentPart(s: string): (r: (nat, int))
    ensures r.0 <= |s|
    ensures r.0 == 0 ==> r.1 == 0
  {
    if |s| > 0 && (s[0] == 'e' || s[0] == 'E') then
      var t := s[1..];
      var sl := SignLen(t);
      var n := PrefixLen(t[sl..], Decimal);
      if n == 0 then (0, 0)
      else
        var v := DigitsValue(t[sl..sl + n]) as int;
        (1 + sl + n, if sl == 1 && t[0] == '-' then -v else v)
    else (0, 0)
  }

  /** The decimal literal at the start of a string: integer digits, fraction digits
      after a `.`, and the value of an exponent. */
  datatype Literal = Literal(intDigits: string, fracDigits: string, exp: int)

  predicate AllDigits(s: string) {
    forall i :: 0 <= i < |s| ==> IsDigit(s[i])
  }

  /** Value of a literal: its digits scaled by the exponent less the fraction length. */
  function LiteralValue(l: Literal): (v: real)
    requires AllDigits(l.intDigits) && AllDigits(l.fracDigits)
    ensures v >= 0.0
  {
    DigitsValue(l.intDigits + l.fracDigits) as real * Pow10(l.exp - |l.fracDigits|)
  }

  /** The longest decimal literal at the start of `u` (digits, optional `.digits`,
      optional exponent), or `None` when it has no digit before the exponent. */
  function DecimalPrefix(u: string): (r: Option<Literal>)
    ensures r.Some? ==> AllDigits(r.value.intDigits) && AllDigits(r.value.fracDigits)
    ensures r.Some? ==> |r.value.intDigits| + |r.value.fracDigits| > 0
  {
    var n1 := PrefixLen(u, Decimal);
    var hasDot := n1 < |u| && u[n1] == '.';
    var frac := if hasDot then u[n1 + 1..][..PrefixLen(u[n1 + 1..], Decimal)] else "";
    if n1 + |frac| == 0 then None
    else
      var rest := u[n1 + (if hasDot then 1 else 0) + |frac|..];
      Some(Literal(u[..n1], frac, ExponentPart(rest).1))
  }

  /** JavaScript `parseFloat(s)`: leading whitespace skipped, an optional sign, then
      `Infinity` or the longest decimal literal; NaN when there is neither. */
  function ParseFloat(s: string): (r: Num)
    ensures r.Finite? && r.r < 0.0 ==> StartsWith(TrimStart(s, JsSpaces), "-")
    ensures r.Inf? && !r.pos ==> StartsWith(TrimStart(s, JsSpaces), "-")
  {
    var t := TrimStart(s, JsSpaces);
    var sl := SignLen(t);
    var neg := sl == 1 && t[0] == '-';
    var u := t[sl..];
    if StartsWith(u, "Infinity") then Inf(!neg)
    else
      match DecimalPrefix(u)
      case None => NaN
      case Some(l) => Finite(Signed(neg, LiteralValue(l)))
  }

  lemma DigitNotSpace(c: char)
    requires IsDigit(c) || c == '-'
    ensures !JsSpace(c) && !PySpace(c)
  {
  }

  /** A string of digits is its own decimal literal, with no fraction and no exponent. */
  lemma DecimalPrefixDigits(d: string)
    requires |d| > 0 && AllDigits(d)
    ensures DecimalPrefix(d) == Some(Literal(d, "", 0))
  {
    PrefixLenAll(d, Decimal);
    assert d[..|d|] == d;
  }

  /** `parseFloat` reads back the decimal text of a natural number. */
  lemma ParseFloatNat(n: nat)
    ensures ParseFloat(NatToString(n)) == Finite(n as real)
  {
    var s := NatToString(n);
    DigitNotSpace(s[0]);
    assert TrimStart(s, JsSpaces) == s;
    assert s[0..] == s;
    assert !StartsWith(s, "Infinity") by { assert s[0] != 'I'; }
    DecimalPrefixDigits(s);
    assert s + "" == s;
    DigitsValueNatToString(n);
  }

  /** `parseFloat` reads back the text of a negated natural number. */
  lemma ParseFloatNegNat(n: nat)
    ensures ParseFloat("-" + NatToString(n)) == Finite(-(n as real))
  {
    var d := NatToString(n);
    var s := "-" + d;
    DigitNotSpace('-');
    assert TrimStart(s, JsSpaces) == s;
    assert s[1..] == d;
    assert !StartsWith(d, "Infinity") by { assert d[0] != 'I'; }
    DecimalPrefixDigits(d);
    assert d + "" == d;
    DigitsValueNatToString(n);
  }

  /** Length of the literal `DecimalPrefix` reads, exponent included; 0 when there is none. */
  function DecimalLiteralLen(u: string): (n: nat)
    ensures n <= |u|
    ensures n == 0 <==> DecimalPrefix(u).None?
  {
    var n1 := PrefixLen(u, Decimal);
    var hasDot := n1 < |u| && u[n1] == '.';
    var f := if hasDot then PrefixLen(u[n1 + 1..], Decimal) else 0;
    assert hasDot ==> |u[n1 + 1..][..f]| == f;
    if n1 + f == 0 then 0
    else
      var m := n1 + (if hasDot then 1 else 0) + f;
      m + ExponentPart(u[m..]).0
  }

  /** A hexadecimal digit. */
  predicate IsHexDigit(c: char) {
    IsDigit(c) || ('a' <= c <= 'f') || ('A' <= c <= 'F')
  }

  function HexDigitValue(c: char): (d: nat)
    requires IsHexDigit(c)
    ensures d < 16
  {
    if IsDigit(c) then DigitValue(c)
    else if 'a' <= c <= 'f' then c as int - 'a' as int + 10
    else c as int - 'A' as int + 10
  }

  function HexValue(s: string): nat
    requires forall i :: 0 <= i < |s| ==> IsHexDigit(s[i])
  {
    if |s| == 0 then 0 else HexValue(s[..|s| - 1]) * 16 + HexDigitValue(s[|s| - 1])
  }

  /** JavaScript `parseInt(s, 16)`: leading whitespace skipped, optional sign and `0x`
      prefix, then the longest run of hex digits; `None` stands for NaN. */
  function ParseIntHex(s: string): (r: Option<int>)
    ensures r.Some? && r.value < 0 ==> StartsWith(TrimStart(s, JsSpaces), "-")
  {
    var t := TrimStart(s, JsSpaces);
    var sl := SignLen(t);
    var neg := sl == 1 && t[0] == '-';
    var u := t[sl..];
    var v := if StartsWith(u, "0x") || StartsWith(u, "0X") then u[2..] else u;
    var n := PrefixLen(v, Hexadecimal);
    if n == 0 then None
    else
      var m := HexValue(v[..n]) as int;
      Some(if neg then -m else m)
  }

  /** Two hex digits read by `parseInt(_, 16)` give a channel value in 0..255. */
  lemma ParseIntHexPair(a: char, b: char)
    requires IsHexDigit(a) && IsHexDigit(b)
    ensures ParseIntHex([a, b]) == Some(16 * HexDigitValue(a) + HexDigitValue(b))
    ensures 0 <= 16 * HexDigitValue(a) + HexDigitValue(b) <= 255
  {
    var s := [a, b];
    assert !JsSpace(a) by { assert IsHexDigit(a); }
    assert TrimStart(s, JsSpaces) == s;
    assert SignLen(s) == 0;
    assert s[0..] == s;
    assert !StartsWith(s, "0x") && !StartsWith(s, "0X") by { assert s[1] == b; }
    PrefixLenAll(s, Hexadecimal);
    assert s[..2] == s;
    assert s[..1] == [a];
    assert [a][..0] == [];
    assert HexValue([a]) == HexDigitValue(a);
    assert HexValue(s) == HexValue([a]) * 16 + HexDigitValue(b);
  }

  /** A number as JavaScript template text: an integer or `NaN`. */
  function IntText(v: Option<int>): string {
    match v
    case None => "NaN"
    case Some(i) => IntToString(i)
  }

  /** An unsigned `0x` hexadecimal literal that takes up the whole text. */
  predicate HexLiteral(t: string) {
    |t| > 2 && (StartsWith(t, "0x") || StartsWith(t, "0X")) && PrefixLen(t[2..], Hexadecimal) == |t| - 2
  }

  /** An optional sign, then `Infinity` or a decimal literal that must take up the whole rest;
      NaN otherwise. */
  function SignedDecimal(t: string): (r: Num)
    ensures r.Finite? && r.r < 0.0 ==> StartsWith(t, "-")
    ensures r.Inf? && !r.pos ==> StartsWith(t, "-")
  {
    var sl := SignLen(t);
    var neg := sl == 1 && t[0] == '-';
    assert neg ==> t[..1] == "-";
    var u := t[sl..];
    if u == "Infinity" then Inf(!neg)
    else if DecimalLiteralLen(u) != |u| then NaN
    else
      match DecimalPrefix(u)
      case None => NaN
      case Some(l) => Finite(Signed(neg, LiteralValue(l)))
  }

  /** JavaScript `Number(s)` on a string: surrounding whitespace ignored, blank text is 0,
      then an unsigned `0x` hexadecimal literal or a signed decimal one. */
  function JsNumber(s: string): (r: Num)
    ensures Trim(s, JsSpaces) == "" ==> r == Finite(0.0)
    ensures r.Finite? && r.r < 0.0 ==> StartsWith(Trim(s, JsSpaces), "-")
  {
    var t := Trim(s, JsSpaces);
    if t == "" then Finite(0.0)
    else if HexLiteral(t) then Finite(HexValue(t[2..]) as real)
    else SignedDecimal(t)
  }

  /** A run of decimal digits is read as its value. */
  lemma SignedDecimalDigits(d: string)
    requires |d| > 0 && AllDigits(d)
    ensures SignedDecimal(d) == Finite(DigitsValue(d) as real)
  {
    assert SignLen(d) == 0 by { assert IsDigit(d[0]); }
    assert d[0..] == d;
    assert d != "Infinity" by { assert IsDigit(d[0]); }
    PrefixLenAll(d, Decimal);
    assert d[..|d|] == d;
    DecimalPrefixDigits(d);
    assert d + "" == d;
  }

  /** `Number` reads back the decimal text of a natural number. */
  lemma JsNumberNat(n: nat)
    ensures JsNumber(NatToString(n)) == Finite(n as real)
  {
    var s := NatToString(n);
    DigitNotSpace(s[0]);
    DigitNotSpace(s[|s| - 1]);
    TrimNoop(s, JsSpaces);
    assert !HexLiteral(s) by {
      if |s| > 2 { assert s[..2][1] == s[1]; assert IsDigit(s[1]); }
    }
    SignedDecimalDigits(s);
    DigitsValueNatToString(n);
  }

  /** Digits with single underscores between them, as Python's `int()` accepts. */
  predicate PyDigits(s: string) {
    |s| > 0 && IsDigit(s[0]) && IsDigit(s[|s| - 1])
    && (forall i :: 0 <= i < |s| ==> IsDigit(s[i]) || s[i] == '_')
    && (forall i :: 0 <= i < |s| - 1 ==> !(s[i] == '_' && s[i + 1] == '_'))
  }

  /** Python `int(s)` on a string: surrounding whitespace, an optional sign, then
      decimal digits with optional single underscores; `None` stands for ValueError. */
  function PyInt(s: string): (r: Option<int>)
    ensures r.Some? ==> |Trim(s, PySpaces)| > 0
    ensures r.Some? && r.value < 0 ==> Trim(s, PySpaces)[0] == '-'
  {
    var t := Trim(s, PySpaces);
    var sl := SignLen(t);
    var body := t[sl..];
    if !PyDigits(body) then None
    else
      RemoveCharsKeeps(body, {'_'});
      var v := DigitsValue(RemoveChars(body, {'_'})) as int;
      Some(if sl == 1 && t[0] == '-' then -v else v)
  }

  /** Python's `int()` reads back the decimal text of a natural number. */
  lemma PyIntNat(n: nat)
    ensures PyInt(NatToString(n)) == Some(n)
  {
    var s := NatToString(n);
    DigitNotSpace(s[0]);
    DigitNotSpace(s[|s| - 1]);
    TrimNoop(s, PySpaces);
    assert s[0..] == s;
    RemoveCharsNone(s, {'_'});
    DigitsValueNatToString(n);
  }

  /** Python's `int()` rejects text with no digit at all. */
  lemma PyIntNeedsDigit(s: string)
    requires forall i :: 0 <= i < |s| ==> !IsDigit(s[i])
    ensures PyInt(s) == None
  {
    var t := Trim(s, PySpaces);
    var a := TrimStartIndex(s, PySpaces);
    var body := t[SignLen(t)..];
    assert |body| > 0 ==> body[0] == s[a + SignLen(t)];
  }
}
