/** Chart theme tokens read from CSS custom properties, and the conversion of a hex
    or `rgb()` colour string to an `rgba()` string with a new alpha
    (frontend/src/charts/theme.js). */
module Theme {
  import opened Common
  import opened Text
  import opened NumParse

  /** The ten colour tokens charts are drawn with. */
  datatype ThemeTokens = ThemeTokens(
    axis: string, axisStrong: string, grid: string, zeroLine: string,
    tooltipBg: string, tooltipBorder: string, tooltipText: string,
    up: string, down: string, neutral: string)

  /** Tokens used when no stylesheet value is available. */
  const Fallback := ThemeTokens(
    "#64748b", "#415069", "rgba(99, 116, 145, 0.16)", "rgba(71, 85, 105, 0.55)",
    "rgba(15, 23, 42, 0.92)", "rgba(148, 163, 184, 0.32)", "#f8fafc",
    "#e0314d", "#0b8b74", "#7a879d")

  /** The computed style of the document element: `None` when there is no window (or no
      `getComputedStyle`); a property that is not set reads as the empty string. */
  type Style = Option<map<string, string>>

  function PropertyValue(css: map<string, string>, name: string): string {
    if name in css then css[name] else ""
  }

  /** One token: the trimmed property value, or the fallback when that is empty. */
  function ReadCssVar(style: Style, name: string, fallback: string): (r: string)
    ensures style.None? ==> r == fallback
    ensures style.Some? ==>
      var v := Trim(PropertyValue(style.value, name), JsSpaces);
      (v == [] && r == fallback) || (v != [] && r == v)
  {
    match style
    case None => fallback
    case Some(css) =>
      var v := Trim(PropertyValue(css, name), JsSpaces);
      if v == [] then fallback else v
  }

  /** Every token holds some colour text. */
  predicate NoBlankToken(t: ThemeTokens) {
    t.axis != "" && t.axisStrong != "" && t.grid != "" && t.zeroLine != ""
    && t.tooltipBg != "" && t.tooltipBorder != "" && t.tooltipText != ""
    && t.up != "" && t.down != "" && t.neutral != ""
  }

  /** `resolveChartTheme()`: each token read from its own custom property. Without a window
      the theme is the fallback one, and no token is ever blank. */
  function ResolveChartTheme(style: Style): (t: ThemeTokens)
    ensures style.None? ==> t == Fallback
    ensures NoBlankToken(t)
  {
    ThemeTokens(
      ReadCssVar(style, "--chart-axis", Fallback.axis),
      ReadCssVar(style, "--chart-axis-strong", Fallback.axisStrong),
      ReadCssVar(style, "--chart-grid", Fallback.grid),
      ReadCssVar(style, "--chart-zero-line", Fallback.zeroLine),
      ReadCssVar(style, "--chart-tooltip-bg", Fallback.tooltipBg),
      ReadCssVar(style, "--chart-tooltip-border", Fallback.tooltipBorder),
      ReadCssVar(style, "--chart-tooltip-text", Fallback.tooltipText),
      ReadCssVar(style, "--chart-up", Fallback.up),
      ReadCssVar(style, "--chart-down", Fallback.down),
      ReadCssVar(style, "--chart-neutral", Fallback.neutral))
  }

  /** Without a window every token is its fallback. */
  lemma NoWindowGivesFallback()
    ensures ResolveChartTheme(None) == Fallback
  {
  }

  /** A stylesheet that sets none of the chart properties also yields the fallbacks. */
  lemma EmptyStyleGivesFallback()
    ensures ResolveChartTheme(Some(map[])) == Fallback
  {
    assert Trim("", JsSpaces) == "";
  }

  /** A non-blank property overrides exactly its own token. */
  lemma SetPropertyOverrides(v: string)
    requires v != [] && !JsSpace(v[0]) && !JsSpace(v[|v| - 1])
    ensures ResolveChartTheme(Some(map["--chart-up" := v])).up == v
    ensures ResolveChartTheme(Some(map["--chart-up" := v])).down == Fallback.down
  {
    TrimNoop(v, JsSpaces);
    assert Trim("", JsSpaces) == "";
  }

  const DefaultAlphaFallback := "rgba(99, 116, 145, 1)"

  /** JavaScript `s.slice(start, -1)` for `0 <= start`. */
  function SliceToLast(s: string, start: nat): string {
    if start < |s| - 1 then s[start..|s| - 1] else ""
  }

  /** JavaScript `${body[i]}` for an array that may be too short. */
  function PartText(parts: seq<string>, i: nat): string {
    if i < |parts| then parts[i] else "undefined"
  }

  /** `parts.map((part) => part.trim())`. */
  function TrimAll(parts: seq<string>): seq<string> {
    seq(|parts|, i requires 0 <= i < |parts| => Trim(parts[i], JsSpaces))
  }

  /** The four pieces of text an `rgba(...)` result is assembled from. */
  datatype Rgba = Rgba(red: string, green: string, blue: string, alpha: string)

  /** The template `rgba(${r}, ${g}, ${b}, ${alpha})`. */
  function RgbaText(c: Rgba): (t: string)
    ensures StartsWith(t, "rgba(")
  {
    var t := "rgba(" + c.red + ", " + c.green + ", " + c.blue + ", " + c.alpha + ")";
    assert t[..5] == "rgba(";
    t
  }

  /** Which notation a trimmed colour string is written in, by its prefix. */
  datatype Notation = RgbaNotation | RgbNotation | HexNotation | OtherNotation

  function NotationOf(value: string): Notation {
    if StartsWith(value, "rgba(") then RgbaNotation
    else if StartsWith(value, "rgb(") then RgbNotation
    else if StartsWith(value, "#") then HexNotation
    else OtherNotation
  }

  /** The `rgb(...)`/`rgba(...)` branch: the body between the prefix and the last
      character is split on commas and its first three trimmed parts are kept. */
  function FromFunctional(value: string, prefixLen: nat, alpha: string): Rgba {
    var body := TrimAll(Split(SliceToLast(value, prefixLen), ','));
    Rgba(PartText(body, 0), PartText(body, 1), PartText(body, 2), alpha)
  }

  /** Shorthand `#rgb` written out as `#rrggbb`; other strings unchanged. */
  function NormalizeHex(value: string): string {
    if |value| == 4 then ['#', value[1], value[1], value[2], value[2], value[3], value[3]] else value
  }

  /** A channel of a seven-character hex colour: `parseInt` of two characters, base 16. */
  function Channel(normalized: string, i: nat): string
    requires i + 2 <= |normalized|
  {
    IntText(ParseIntHex(normalized[i..i + 2]))
  }

  /** The `#` branch: a seven-character string (after shorthand expansion) read as three
      base-16 channel values; any other length gives `None`. */
  function FromHex(value: string, alpha: string): Option<Rgba> {
    var n := NormalizeHex(value);
    if |n| == 7 then Some(Rgba(Channel(n, 1), Channel(n, 3), Channel(n, 5), alpha)) else None
  }

  /** The colour `alphaColor` builds before it is written out, or `None` for the fallback. */
  function AlphaParts(value: string, alpha: string): Option<Rgba> {
    match NotationOf(value)
    case RgbaNotation => Some(FromFunctional(value, 5, alpha))
    case RgbNotation => Some(FromFunctional(value, 4, alpha))
    case HexNotation => FromHex(value, alpha)
    case OtherNotation => None
  }

  /** `alphaColor(input, alpha, fallback)`; `input` is `String(x || '')`, so every falsy
      value arrives as the empty string. */
  function AlphaColor(input: string, alpha: string, fallback: string): (r: string)
    ensures Trim(input, JsSpaces) == [] ==> r == fallback
    ensures r == fallback || StartsWith(r, "rgba(")
  {
    ColorOfTrimmed(Trim(input, JsSpaces), alpha, fallback)
  }

  /** `alphaColor` once its argument has been trimmed. */
  function ColorOfTrimmed(value: string, alpha: string, fallback: string): string {
    if value == [] then fallback
    else
      match AlphaParts(value, alpha)
      case Some(c) => RgbaText(c)
      case None => fallback
  }

  /** On a string without surrounding whitespace only the notation decides. */
  lemma AlphaColorTrimmed(v: string, alpha: string, fallback: string)
    requires |v| > 0 && !JsSpace(v[0]) && !JsSpace(v[|v| - 1])
    ensures AlphaColor(v, alpha, fallback) == ColorOfTrimmed(v, alpha, fallback)
  {
    TrimNoop(v, JsSpaces);
  }

  /** A functional colour keeps its first three components, trimmed, and takes the new alpha. */
  lemma AlphaColorFunctional(prefix: string, parts: seq<string>, alpha: string, fallback: string)
    requires prefix == "rgba(" || prefix == "rgb("
    requires |parts| >= 3
    requires forall k :: 0 <= k < |parts| ==> ',' !in parts[k]
    ensures AlphaColor(prefix + Join(parts, ",") + ")", alpha, fallback)
         == RgbaText(Rgba(Trim(parts[0], JsSpaces), Trim(parts[1], JsSpaces), Trim(parts[2], JsSpaces), alpha))
  {
    var v := prefix + Join(parts, ",") + ")";
    var c := Rgba(Trim(parts[0], JsSpaces), Trim(parts[1], JsSpaces), Trim(parts[2], JsSpaces), alpha);
    AlphaPartsFunctional(prefix, parts, alpha);
    assert v[0] == 'r' && v[|v| - 1] == ')';
    AlphaColorOf(v, c, alpha, fallback);
  }

  /** A colour without surrounding whitespace is written out from its parts. */
  lemma AlphaColorOf(value: string, c: Rgba, alpha: string, fallback: string)
    requires |value| > 0 && !JsSpace(value[0]) && !JsSpace(value[|value| - 1])
    requires AlphaParts(value, alpha) == Some(c)
    ensures AlphaColor(value, alpha, fallback) == RgbaText(c)
  {
    AlphaColorTrimmed(value, alpha, fallback);
  }

  lemma AlphaPartsFunctional(prefix: string, parts: seq<string>, alpha: string)
    requires prefix == "rgba(" || prefix == "rgb("
    requires |parts| >= 3
    requires forall k :: 0 <= k < |parts| ==> ',' !in parts[k]
    ensures AlphaParts(prefix + Join(parts, ",") + ")", alpha)
         == Some(Rgba(Trim(parts[0], JsSpaces), Trim(parts[1], JsSpaces), Trim(parts[2], JsSpaces), alpha))
  {
    var j := Join(parts, ",");
    var value := prefix + j + ")";
    NotationFunctional(prefix, j, value);
    FunctionalParts(value, prefix, alpha);
    SliceBody(prefix, j);
    SplitJoin(parts, ',');
    FromFunctionalParts(value, |prefix|, parts, alpha);
  }

  lemma FunctionalParts(value: string, prefix: string, alpha: string)
    requires prefix == "rgba(" || prefix == "rgb("
    requires NotationOf(value) == (if prefix == "rgba(" then RgbaNotation else RgbNotation)
    ensures AlphaParts(value, alpha) == Some(FromFunctional(value, |prefix|, alpha))
  {
  }

  lemma FromFunctionalParts(value: string, n: nat, parts: seq<string>, alpha: string)
    requires Split(SliceToLast(value, n), ',') == parts && |parts| >= 3
    ensures FromFunctional(value, n, alpha)
         == Rgba(Trim(parts[0], JsSpaces), Trim(parts[1], JsSpaces), Trim(parts[2], JsSpaces), alpha)
  {
    var body := TrimAll(parts);
    assert body[0] == Trim(parts[0], JsSpaces) && body[1] == Trim(parts[1], JsSpaces) && body[2] == Trim(parts[2], JsSpaces);
  }

  lemma NotationFunctional(prefix: string, j: string, value: string)
    requires prefix == "rgba(" || prefix == "rgb("
    requires value == prefix + j + ")"
    ensures NotationOf(value) == (if prefix == "rgba(" then RgbaNotation else RgbNotation)
  {
    assert value[..|prefix|] == prefix;
    if prefix == "rgb(" {
      assert value[3] == '(';
    }
  }

  lemma SliceBody(prefix: string, j: string)
    ensures SliceToLast(prefix + j + ")", |prefix|) == j
  {
    var v := prefix + j + ")";
    if |j| > 0 {
      assert v[|prefix|..|v| - 1] == j;
    }
  }

  lemma NotStartsWith(s: string, p: string)
    requires |s| > 0 && |p| > 0 && s[0] != p[0]
    ensures !StartsWith(s, p)
  {
    if |p| <= |s| {
      assert s[..|p|][0] != p[0];
    }
  }

  lemma NotationHex(v: string)
    requires |v| > 0 && v[0] == '#'
    ensures NotationOf(v) == HexNotation
  {
    assert v[..1] == "#";
  }

  /** `#rgb` gives the same colour as `#rrggbb`. */
  lemma AlphaColorShortHex(x: char, y: char, z: char, alpha: string, fallback: string)
    requires !JsSpace(z)
    ensures AlphaColor(['#', x, y, z], alpha, fallback)
         == AlphaColor(['#', x, x, y, y, z, z], alpha, fallback)
  {
    var s := ['#', x, y, z];
    var l := ['#', x, x, y, y, z, z];
    AlphaColorTrimmed(s, alpha, fallback);
    AlphaColorTrimmed(l, alpha, fallback);
    AlphaPartsShortHex(s, l, alpha);
  }

  lemma AlphaPartsShortHex(s: string, l: string, alpha: string)
    requires |s| == 4 && s[0] == '#' && l == ['#', s[1], s[1], s[2], s[2], s[3], s[3]]
    ensures AlphaParts(s, alpha) == AlphaParts(l, alpha)
  {
    NotationHex(s);
    NotationHex(l);
    assert NormalizeHex(s) == l == NormalizeHex(l);
  }

  /** The value of two hex digits, always within 0..255. */
  function PairValue(a: char, b: char): (v: nat)
    requires IsHexDigit(a) && IsHexDigit(b)
    ensures v <= 255
  {
    16 * HexDigitValue(a) + HexDigitValue(b)
  }

  /** A channel made of two hex digits is the decimal text of their value. */
  lemma ChannelOfHexDigits(v: string, i: nat)
    requires i + 2 <= |v| && IsHexDigit(v[i]) && IsHexDigit(v[i + 1])
    ensures Channel(v, i) == NatToString(PairValue(v[i], v[i + 1]))
  {
    var a, b := v[i], v[i + 1];
    assert v[i..i + 2] == [a, b];
    ParseIntHexPair(a, b);
  }

  /** Six hex digits give three decimal channel values in 0..255 and the new alpha. */
  lemma AlphaColorLongHex(h: string, alpha: string, fallback: string)
    requires |h| == 6 && forall i :: 0 <= i < 6 ==> IsHexDigit(h[i])
    ensures AlphaColor("#" + h, alpha, fallback) == RgbaText(Rgba(
      NatToString(PairValue(h[0], h[1])), NatToString(PairValue(h[2], h[3])),
      NatToString(PairValue(h[4], h[5])), alpha))
  {
    var v := "#" + h;
    assert v[6] == h[5];
    assert !JsSpace(v[6]) by { assert IsHexDigit(h[5]); }
    AlphaPartsLongHex(h, v, alpha);
    AlphaColorOf(v, Rgba(
      NatToString(PairValue(h[0], h[1])), NatToString(PairValue(h[2], h[3])),
      NatToString(PairValue(h[4], h[5])), alpha), alpha, fallback);
  }

  lemma AlphaPartsLongHex(h: string, v: string, alpha: string)
    requires |h| == 6 && forall i :: 0 <= i < 6 ==> IsHexDigit(h[i])
    requires v == "#" + h
    ensures AlphaParts(v, alpha) == Some(Rgba(
      NatToString(PairValue(h[0], h[1])), NatToString(PairValue(h[2], h[3])),
      NatToString(PairValue(h[4], h[5])), alpha))
  {
    assert v[1] == h[0] && v[2] == h[1] && v[3] == h[2] && v[4] == h[3] && v[5] == h[4] && v[6] == h[5];
    NotationHex(v);
    SevenHex(v, alpha);
    ChannelOfHexDigits(v, 1);
    ChannelOfHexDigits(v, 3);
    ChannelOfHexDigits(v, 5);
  }

  lemma SevenHex(v: string, alpha: string)
    requires |v| == 7 && v[0] == '#'
    ensures AlphaParts(v, alpha) == Some(Rgba(Channel(v, 1), Channel(v, 3), Channel(v, 5), alpha))
  {
    NotationHex(v);
    assert AlphaParts(v, alpha) == FromHex(v, alpha);
    assert NormalizeHex(v) == v;
  }

  /** A `#` colour of any length other than 4 or 7 gives the fallback. */
  lemma AlphaColorBadHexLength(v: string, alpha: string, fallback: string)
    requires |v| > 0 && v[0] == '#' && |v| != 4 && |v| != 7
    requires !JsSpace(v[|v| - 1])
    ensures AlphaColor(v, alpha, fallback) == fallback
  {
    AlphaColorTrimmed(v, alpha, fallback);
    NotationHex(v);
  }

  /** A value in none of the three notations gives the fallback. */
  lemma AlphaColorOtherShape(v: string, alpha: string, fallback: string)
    requires |v| > 0 && v[0] != '#' && v[0] != 'r'
    requires !JsSpace(v[0]) && !JsSpace(v[|v| - 1])
    ensures AlphaColor(v, alpha, fallback) == fallback
  {
    AlphaColorTrimmed(v, alpha, fallback);
    NotStartsWith(v, "rgba(");
    NotStartsWith(v, "rgb(");
    NotStartsWith(v, "#");
  }
}
