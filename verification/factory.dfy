/** The chart helper functions of frontend/src/charts/factory.js: number series, range
    presets and their buttons, trend and value colouring, and the dataset and option
    records handed to the chart library. Callbacks the library calls per point, per
    segment or per tick are modelled as functions of the record and the callback's input. */
module ChartFactory {
  import opened Common
  import opened Text
  import opened Theme

  /** `toNumberSeries`: `None` stands for a value that is not an array. */
  function ToNumberSeries(series: Option<seq<Num>>): (r: seq<Num>)
    ensures series.None? ==> r == []
    ensures series.Some? ==> |r| == |series.value|
    ensures series.Some? ==> forall i :: 0 <= i < |r| ==>
      !r[i].NaN? && (series.value[i].NaN? ==> r[i] == Finite(0.0))
      && (!series.value[i].NaN? ==> r[i] == series.value[i])
  {
    match series
    case None => []
    case Some(s) => seq(|s|, i requires 0 <= i < |s| => OrZero(s[i]))
  }

  /** The sign `formatSigned` writes before the digits: `+` for a positive number only. */
  function SignPrefix(value: Num): (r: string)
    ensures r == "+" <==> (value.Finite? && value.r > 0.0) || value == Inf(true)
    ensures r != "+" ==> r == ""
  {
    if Greater(OrZero(value), Finite(0.0)) then "+" else ""
  }

  /** A range preset. The empty string stands for a falsy `value`; `count` is the raw
      `count` field after `Number(...)` (NaN when it is missing). */
  datatype Preset = Preset(value: string, caption: string, count: Num)

  predicate HasValue(presets: seq<Preset>, v: string) {
    exists i :: 0 <= i < |presets| && presets[i].value == v
  }

  /** Index of the first preset whose value is `v` at or after `from`, or `|presets|`. */
  function FindFrom(presets: seq<Preset>, v: string, from: nat): (k: nat)
    requires from <= |presets|
    ensures from <= k <= |presets|
    ensures k < |presets| ==> presets[k].value == v
    ensures forall j :: from <= j < k ==> presets[j].value != v
    decreases |presets| - from
  {
    if from == |presets| then from
    else if presets[from].value == v then from
    else FindFrom(presets, v, from + 1)
  }

  /** `presets.find(item => item.value === v)`, as an index. */
  function Find(presets: seq<Preset>, v: string): (k: nat)
    ensures k <= |presets|
    ensures k < |presets| <==> HasValue(presets, v)
    ensures k < |presets| ==> presets[k].value == v
  {
    FindFrom(presets, v, 0)
  }

  /** `normalizeRangeValue`: the requested value when a preset has it, otherwise the first
      preset's value, otherwise the fallback. A missing preset list is the empty one. */
  function NormalizeRange(value: string, presets: seq<Preset>, fallback: string): (r: string)
    ensures |presets| == 0 ==> r == fallback
    ensures HasValue(presets, value) ==> r == value
    ensures |presets| > 0 && !HasValue(presets, value) ==>
      r == (if presets[0].value != "" then presets[0].value else fallback)
  {
    if |presets| == 0 then fallback
    else if Find(presets, value) < |presets| then value
    else if presets[0].value != "" then presets[0].value
    else fallback
  }

  /** The range selected after normalisation is always a preset's value or the fallback. */
  lemma NormalizeRangeKnown(value: string, presets: seq<Preset>, fallback: string)
    ensures var r := NormalizeRange(value, presets, fallback);
      r == fallback || HasValue(presets, r)
  {
    var r := NormalizeRange(value, presets, fallback);
    if |presets| > 0 && r != fallback && !HasValue(presets, value) {
      assert presets[0].value == r;
    }
  }

  /** One rendered button of the range selector. */
  datatype RangeButton = RangeButton(active: bool, range: string, caption: string)

  function Buttons(presets: seq<Preset>, selected: string): (r: seq<RangeButton>)
    ensures |r| == |presets|
    ensures forall i :: 0 <= i < |r| ==> r[i].range == presets[i].value && r[i].caption == presets[i].caption
    ensures HasValue(presets, selected) ==> forall i :: 0 <= i < |r| ==> (r[i].active <==> r[i].range == selected)
    ensures |presets| > 0 && !HasValue(presets, selected) ==> forall i :: 0 <= i < |r| ==>
      (r[i].active <==> r[i].range == (if presets[0].value != "" then presets[0].value else "all"))
  {
    var normalized := NormalizeRange(selected, presets, "all");
    seq(|presets|, i requires 0 <= i < |presets| =>
      RangeButton(presets[i].value == normalized, presets[i].value, presets[i].caption))
  }

  predicate DistinctValues(presets: seq<Preset>) {
    forall i, j :: 0 <= i < j < |presets| ==> presets[i].value != presets[j].value
  }

  /** With distinct, non-empty preset values exactly one button is active: the selected
      range's when a preset has it, the first preset's otherwise. */
  lemma ExactlyOneActive(presets: seq<Preset>, selected: string)
    requires |presets| > 0 && DistinctValues(presets)
    requires forall i :: 0 <= i < |presets| ==> presets[i].value != ""
    ensures var b := Buttons(presets, selected);
      exists i :: 0 <= i < |b| && b[i].active && forall j :: 0 <= j < |b| && b[j].active ==> j == i
    ensures var b := Buttons(presets, selected);
      forall i :: 0 <= i < |b| ==>
        (b[i].active <==> b[i].range == (if HasValue(presets, selected) then selected else presets[0].value))
  {
    var b := Buttons(presets, selected);
    var k := Find(presets, selected);
    var i := if k < |presets| then k else 0;
    assert b[i].active;
    forall j | 0 <= j < |b| && j != i
      ensures !b[j].active
    {
      assert presets[j].value != presets[i].value;
    }
  }

  const ButtonOpen := "<button class=\"chart-range-btn"
  const ButtonClose := "</button>"

  /** One button: the `active` class exactly for the active button, and the button's chart key,
      range value and caption, in that order, before the closing tag. */
  function ButtonHtml(chartKey: string, b: RangeButton): (r: string)
    ensures StartsWith(r, ButtonOpen + " active") <==> b.active
    ensures EndsWith(r, " data-chart-key=\"" + chartKey + "\" data-range=\"" + b.range + "\">" + b.caption + ButtonClose)
    ensures StartsWith(r, ButtonOpen) && EndsWith(r, ButtonClose)
  {
    var cls := if b.active then " active" else "";
    var rest := ButtonRest(chartKey, b);
    var tail := "\" type=\"button\"" + rest;
    var r := ButtonOpen + cls + tail;
    assert StartsWith(r, ButtonOpen + " active") <==> b.active by {
      if b.active {
        StartsWithConcat(ButtonOpen + " active", tail);
      } else {
        assert r[|ButtonOpen|] == '"' != (ButtonOpen + " active")[|ButtonOpen|];
      }
    }
    StartsWithConcat(ButtonOpen, cls + tail);
    assert r == ButtonOpen + (cls + tail);
    EndsWithConcat("\" type=\"button\"", rest);
    EndsWithExtend(ButtonOpen + cls, tail, rest);
    EndsWithConcat(" data-chart-key=\"" + chartKey + "\" data-range=\"" + b.range + "\">" + b.caption, ButtonClose);
    EndsWithShorter(r, rest, ButtonClose);
    r
  }

  /** The button's attributes after `type`, its caption and its closing tag. */
  function ButtonRest(chartKey: string, b: RangeButton): string {
    " data-chart-key=\"" + chartKey + "\" data-range=\"" + b.range + "\">" + b.caption + ButtonClose
  }

  /** The buttons written one after another (`map` then `join('')`): nothing without buttons,
      otherwise markup that opens with the first button and closes with the last. */
  function ButtonsHtml(chartKey: string, bs: seq<RangeButton>): (r: string)
    ensures r == "" <==> |bs| == 0
    ensures |bs| > 0 ==> StartsWith(r, ButtonOpen) && EndsWith(r, ButtonClose)
  {
    if |bs| == 0 then ""
    else
      var init := ButtonsHtml(chartKey, bs[..|bs| - 1]);
      var last := ButtonHtml(chartKey, bs[|bs| - 1]);
      EndsWithExtend(init, last, ButtonClose);
      assert StartsWith(init + last, ButtonOpen) by {
        if |bs| == 1 {
          assert init + last == last;
        } else {
          StartsWithExtend(init, last, ButtonOpen);
        }
      }
      init + last
  }

  /** A single button is written as its own markup. */
  lemma ButtonsHtmlOne(chartKey: string, b: RangeButton)
    ensures ButtonsHtml(chartKey, [b]) == ButtonHtml(chartKey, b)
  {
    assert [b][..0] == [];
  }

  /** One more button adds its own markup at the end, as `ButtonHtml` describes it. */
  lemma ButtonsHtmlSnoc(chartKey: string, bs: seq<RangeButton>, b: RangeButton)
    ensures ButtonsHtml(chartKey, bs + [b]) == ButtonsHtml(chartKey, bs) + ButtonHtml(chartKey, b)
  {
    var s := bs + [b];
    assert s[..|s| - 1] == bs;
    assert s[|s| - 1] == b;
  }

  /** The markup of two runs of buttons is that of the first run followed by that of the
      second, so the buttons appear in list order. */
  lemma {:induction false} ButtonsHtmlAppend(chartKey: string, a: seq<RangeButton>, b: seq<RangeButton>)
    ensures ButtonsHtml(chartKey, a + b) == ButtonsHtml(chartKey, a) + ButtonsHtml(chartKey, b)
    decreases |b|
  {
    if |b| == 0 {
      assert a + b == a;
    } else {
      var binit, x := b[..|b| - 1], b[|b| - 1];
      assert b == binit + [x];
      assert a + b == (a + binit) + [x];
      ButtonsHtmlSnoc(chartKey, a + binit, x);
      ButtonsHtmlSnoc(chartKey, binit, x);
      ButtonsHtmlAppend(chartKey, a, binit);
      Associative(ButtonsHtml(chartKey, a), ButtonsHtml(chartKey, binit), ButtonHtml(chartKey, x));
    }
  }

  const GroupOpen := "<div class=\"chart-range\""
  const GroupLabel := " role=\"group\" aria-label=\"切换图表区间\">"
  const GroupClose := "</div>"

  /** The group's chart-key attribute. */
  function KeyAttr(chartKey: string): string {
    " data-chart-key=\"" + chartKey + "\""
  }

  /** `buildRangeButtonsHtml`: empty without presets, otherwise one group element
      (`<div class="chart-range" data-chart-key="…" …>`) for the chart key, holding exactly the
      buttons of the presets before its closing `</div>`. */
  function RangeButtonsHtml(chartKey: string, presets: seq<Preset>, selected: string): (r: string)
    ensures r == "" <==> |presets| == 0
    ensures |presets| > 0 ==> StartsWith(r, GroupOpen) && EndsWith(r, GroupClose)
    ensures |presets| > 0 ==> StartsWith(r, GroupOpen + KeyAttr(chartKey))
    ensures |presets| > 0 ==> EndsWith(r, ButtonsHtml(chartKey, Buttons(presets, selected)) + GroupClose)
  {
    if |presets| == 0 then ""
    else
      var buttons := ButtonsHtml(chartKey, Buttons(presets, selected));
      Framed(GroupOpen, KeyAttr(chartKey), GroupLabel, buttons, GroupClose);
      GroupOpen + KeyAttr(chartKey) + (GroupLabel + (buttons + GroupClose))
  }

  /** `Math.max(0, total - count)` with `count > 0`, as `slice` truncates it. */
  function StartIndex(total: nat, count: Num): (start: nat)
    ensures start <= total
    ensures count.Finite? && count.r > 0.0 && count.r == count.r.Floor as real ==>
      start == if count.r.Floor <= total then total - count.r.Floor else 0
    ensures !Greater(count, Finite(0.0)) ==> start == 0
  {
    match count
    case Finite(c) =>
      if c <= 0.0 then 0
      else if total as real - c <= 0.0 then 0
      else
        var f := (total as real - c).Floor;
        assert 0 <= f <= total;
        f
    case Inf(pos) => 0
    case NaN => 0
  }

  /** The result of `sliceByRange`. */
  datatype Sliced = Sliced(labels: seq<string>, series: map<string, seq<Num>>, range: string)

  /** `sliceByRange`: the preset the normalised range names gives a count; a positive count
      keeps the trailing labels and drops the same leading elements from every series.
      `None` stands for a value that is not an array. */
  function SliceByRange(labels: Option<seq<string>>, series: map<string, Option<seq<Num>>>,
                        selected: string, presets: seq<Preset>): (r: Sliced)
    ensures r.range == NormalizeRange(selected, presets, "all")
    ensures r.series.Keys == series.Keys
    ensures labels.None? ==> r.labels == []
    ensures labels.Some? ==>
      (exists start :: 0 <= start <= |labels.value| && r.labels == labels.value[start..]
        && forall k :: k in series ==>
             r.series[k] == (if series[k].Some? then series[k].value[MinInt(start, |series[k].value|)..] else []))
  {
    var normalized := NormalizeRange(selected, presets, "all");
    var k := Find(presets, normalized);
    var count := if k < |presets| then OrZero(presets[k].count) else Finite(0.0);
    var total := if labels.Some? then |labels.value| else 0;
    var start := StartIndex(total, count);
    Sliced(
      if labels.Some? then labels.value[start..] else [],
      map key | key in series :: if series[key].Some? then series[key].value[MinInt(start, |series[key].value|)..] else [],
      normalized)
  }

  /** The count of the preset the normalised range selects (0 when none matches). */
  function SelectedCount(selected: string, presets: seq<Preset>): Num {
    var k := Find(presets, NormalizeRange(selected, presets, "all"));
    if k < |presets| then OrZero(presets[k].count) else Finite(0.0)
  }

  /** A positive whole count keeps `min(count, |labels|)` trailing labels. */
  lemma SliceKeepsCount(labels: seq<string>, series: map<string, Option<seq<Num>>>,
                        selected: string, presets: seq<Preset>, n: nat)
    requires n > 0 && SelectedCount(selected, presets) == Finite(n as real)
    ensures var r := SliceByRange(Some(labels), series, selected, presets);
      |r.labels| == MinInt(n, |labels|) && r.labels == labels[|labels| - MinInt(n, |labels|)..]
  {
    assert (n as real).Floor == n;
  }

  /** Without a positive count every array is returned whole. */
  lemma SliceWithoutCount(labels: seq<string>, series: map<string, Option<seq<Num>>>,
                          selected: string, presets: seq<Preset>)
    requires !Greater(SelectedCount(selected, presets), Finite(0.0))
    ensures var r := SliceByRange(Some(labels), series, selected, presets);
      r.labels == labels && forall k :: k in series && series[k].Some? ==> r.series[k] == series[k].value
  {
    var r := SliceByRange(Some(labels), series, selected, presets);
    assert labels[0..] == labels;
    forall k | k in series && series[k].Some?
      ensures r.series[k] == series[k].value
    {
      assert series[k].value[0..] == series[k].value;
    }
  }

  /** Direction a number is classified in: up, down or neutral. */
  datatype Dir = Up | Down | Neutral

  /** A caller's colour overrides; the empty string stands for a missing colour. */
  datatype Palette = Palette(up: string, down: string, neutral: string)

  /** `palette?.x || theme.x` for the colour of a direction. */
  function DirColor(palette: Option<Palette>, theme: ThemeTokens, d: Dir): (c: string)
    ensures palette.Some? && d == Up && palette.value.up != "" ==> c == palette.value.up
    ensures palette.Some? && d == Down && palette.value.down != "" ==> c == palette.value.down
    ensures palette.Some? && d == Neutral && palette.value.neutral != "" ==> c == palette.value.neutral
    ensures (palette.None? || palette.value.up == "") && d == Up ==> c == theme.up
    ensures (palette.None? || palette.value.down == "") && d == Down ==> c == theme.down
    ensures (palette.None? || palette.value.neutral == "") && d == Neutral ==> c == theme.neutral
  {
    var own := match palette
      case None => ""
      case Some(p) => (match d case Up => p.up case Down => p.down case Neutral => p.neutral);
    if own != "" then own
    else match d case Up => theme.up case Down => theme.down case Neutral => theme.neutral
  }

  /** The direction `resolveTrendColor` reads from a trend signal. */
  function TrendDir(signal: real): (d: Dir)
    ensures d == Up <==> signal > 0.0
    ensures d == Down <==> signal < 0.0
  {
    if signal > 0.0 then Up else if signal < 0.0 then Down else Neutral
  }

  /** `resolveTrendSignal`: the last value in `value` mode, otherwise last minus first,
      with a non-finite end read as 0; 0 for an empty series. */
  function TrendSignal(values: seq<Num>, mode: string): (s: real)
    ensures |values| == 0 ==> s == 0.0
    ensures |values| > 0 && mode == "value" ==> s == FiniteOr0(values[|values| - 1])
    ensures |values| > 0 && mode != "value" ==> s == FiniteOr0(values[|values| - 1]) - FiniteOr0(values[0])
  {
    if |values| == 0 then 0.0
    else
      var start := FiniteOr0(values[0]);
      var end := FiniteOr0(values[|values| - 1]);
      if mode == "value" then end else end - start
  }

  /** A series whose ends are equal has no trend in delta mode. */
  lemma FlatSeriesIsNeutral(values: seq<Num>)
    requires |values| > 0 && values[0] == values[|values| - 1]
    ensures TrendDir(TrendSignal(values, "delta")) == Neutral
  {
  }

  /** `resolveValueColor` as a direction: a finite value above the baseline is up, below is
      down; equal or non-finite is neutral. */
  function ValueDir(value: Num, baseline: Num): (d: Dir)
    ensures d == Up <==> value.Finite? && Greater(value, baseline)
    ensures d == Down <==> value.Finite? && Less(value, baseline)
  {
    if !IsFinite(value) then Neutral
    else if Greater(value, baseline) then Up
    else if Less(value, baseline) then Down
    else Neutral
  }

  /** Against a zero baseline, a finite value is classified as a trend signal is. */
  lemma ValueDirAgreesWithTrend(x: real)
    ensures ValueDir(Finite(x), Finite(0.0)) == TrendDir(x)
  {
  }

  /** A segment takes the direction of its end point, or of its start point when the end
      is not finite; with neither finite it is neutral. */
  function SegmentDir(y0: Num, y1: Num, baseline: Num): (d: Dir)
    ensures y1.Finite? ==> d == ValueDir(y1, baseline)
    ensures !y1.Finite? ==> d == ValueDir(y0, baseline)
  {
    if !IsFinite(y0) && !IsFinite(y1) then Neutral
    else ValueDir(if IsFinite(y1) then y1 else y0, baseline)
  }

  /** How the per-point and per-segment colours of a dataset are chosen. */
  datatype Colouring =
    | Semantic(palette: Option<Palette>, theme: ThemeTokens, baseline: Num)
    | Fixed(color: string)

  /** The `fill` setting: off, on to the axis, or towards a baseline with two colours. */
  datatype FillSpec = NoFill | FillOn | FillTarget(baseline: Num, above: string, below: string)

  /** The dataset record `buildLineDataset` returns. */
  datatype Dataset = Dataset(
    caption: string, data: seq<Num>,
    borderColor: string, backgroundColor: string, fill: FillSpec,
    tension: Num, borderWidth: Num, pointHoverRadius: Num, pointBorderWidth: nat,
    colouring: Colouring, baseRadius: Num, showLatestPoint: bool, latestIndex: int)

  /** The options of `buildLineDataset`; the empty string stands for a missing colour. */
  datatype LineConfig = LineConfig(
    caption: string, data: Option<seq<Num>>, palette: Option<Palette>, fixedColor: string,
    trendMode: string, semanticTrend: bool, semanticBaseline: Num,
    tension: Num, lineWidth: Num, fill: bool,
    fillAlpha: string, fillAboveAlpha: string, fillBelowAlpha: string,
    showLatestPoint: bool, pointRadius: Num, pointHoverRadius: Num)

  /** A configuration that gives only a caption and data, the other options at their defaults. */
  function DefaultLineConfig(caption: string, data: Option<seq<Num>>): LineConfig {
    LineConfig(caption, data, None, "", "delta", false, Finite(0.0),
      Finite(0.32), Finite(2.0), true, "0.14", "0.14", "0.12", true, Finite(0.0), Finite(4.0))
  }

  /** The line colour: the fixed colour when one is given, otherwise the trend's colour. */
  function LineColor(cfg: LineConfig, theme: ThemeTokens): (c: string)
    ensures cfg.fixedColor != "" ==> c == cfg.fixedColor
    ensures cfg.fixedColor == "" ==>
      c == DirColor(cfg.palette, theme, TrendDir(TrendSignal(ToNumberSeries(cfg.data), cfg.trendMode)))
  {
    if cfg.fixedColor != "" then cfg.fixedColor
    else DirColor(cfg.palette, theme, TrendDir(TrendSignal(ToNumberSeries(cfg.data), cfg.trendMode)))
  }

  /** `buildLineDataset` with the theme read from `style`. */
  function BuildLineDataset(cfg: LineConfig, style: Style): (d: Dataset)
    ensures d.data == ToNumberSeries(cfg.data)
    ensures forall i :: 0 <= i < |d.data| ==> !d.data[i].NaN?
    ensures d.latestIndex == |d.data| - 1
    ensures d.pointBorderWidth == if cfg.showLatestPoint then 2 else 1
    ensures !cfg.semanticTrend ==> d.colouring == Fixed(d.borderColor)
    ensures !cfg.semanticTrend && cfg.fixedColor != "" ==> d.borderColor == cfg.fixedColor
    ensures !cfg.semanticTrend && !cfg.fill ==> d.backgroundColor == "transparent" && d.fill == NoFill
    ensures cfg.semanticTrend ==> d.colouring.Semantic? && d.colouring.baseline == OrZero(cfg.semanticBaseline)
    ensures cfg.semanticTrend ==> d.fill.NoFill? == !cfg.fill
    ensures !cfg.semanticTrend ==> d.borderColor == LineColor(cfg, ResolveChartTheme(style))
    ensures !cfg.semanticTrend && cfg.fill ==>
      d.fill == FillOn && d.backgroundColor == AlphaColor(d.borderColor, cfg.fillAlpha, DefaultAlphaFallback)
    ensures cfg.semanticTrend ==>
      d.borderColor == DirColor(cfg.palette, ResolveChartTheme(style), Neutral)
      && d.backgroundColor == AlphaColor(d.borderColor, cfg.fillAlpha, DefaultAlphaFallback)
    ensures cfg.semanticTrend && cfg.fill ==> d.fill == FillTarget(OrZero(cfg.semanticBaseline),
      AlphaColor(DirColor(cfg.palette, ResolveChartTheme(style), Up), cfg.fillAboveAlpha, DefaultAlphaFallback),
      AlphaColor(DirColor(cfg.palette, ResolveChartTheme(style), Down), cfg.fillBelowAlpha, DefaultAlphaFallback))
  {
    var theme := ResolveChartTheme(style);
    var values := ToNumberSeries(cfg.data);
    var baseline := OrZero(cfg.semanticBaseline);
    var latestIndex := if |values| > 0 then |values| - 1 else -1;
    var width := if cfg.showLatestPoint then 2 else 1;
    if cfg.semanticTrend then
      var neutral := DirColor(cfg.palette, theme, Neutral);
      Dataset(cfg.caption, values, neutral, AlphaColor(neutral, cfg.fillAlpha, DefaultAlphaFallback),
        if cfg.fill then FillTarget(baseline,
          AlphaColor(DirColor(cfg.palette, theme, Up), cfg.fillAboveAlpha, DefaultAlphaFallback),
          AlphaColor(DirColor(cfg.palette, theme, Down), cfg.fillBelowAlpha, DefaultAlphaFallback))
        else NoFill,
        cfg.tension, cfg.lineWidth, cfg.pointHoverRadius, width,
        Semantic(cfg.palette, theme, baseline), cfg.pointRadius, cfg.showLatestPoint, latestIndex)
    else
      var line := LineColor(cfg, theme);
      Dataset(cfg.caption, values, line,
        if cfg.fill then AlphaColor(line, cfg.fillAlpha, DefaultAlphaFallback) else "transparent",
        if cfg.fill then FillOn else NoFill,
        cfg.tension, cfg.lineWidth, cfg.pointHoverRadius, width,
        Fixed(line), cfg.pointRadius, cfg.showLatestPoint, latestIndex)
  }

  /** The `pointRadius` callback: the base radius, raised to at least 3.5 at the latest
      point when that point is shown. */
  function PointRadius(d: Dataset, index: int): (r: Num)
    ensures !d.showLatestPoint || index != d.latestIndex ==> r == OrZero(d.baseRadius)
    ensures d.showLatestPoint && index == d.latestIndex ==>
      !r.NaN? && !Less(r, Finite(3.5)) && !Less(r, d.baseRadius)
      && (r == Finite(3.5) || r == OrZero(d.baseRadius))
  {
    var base := OrZero(d.baseRadius);
    if !d.showLatestPoint || index != d.latestIndex then base
    else Max(base, Finite(3.5))
  }

  /** Only the last data point can be enlarged: every earlier index keeps the base radius. */
  lemma OnlyLatestPointEnlarged(cfg: LineConfig, style: Style, index: nat)
    requires index + 1 != |ToNumberSeries(cfg.data)|
    ensures PointRadius(BuildLineDataset(cfg, style), index) == OrZero(cfg.pointRadius)
  {
  }

  /** The colour of a point (or of a segment's end values) under the dataset's colouring. */
  function PointColor(d: Dataset, y: Num): (c: string)
    ensures d.colouring.Fixed? ==> c == d.colouring.color
    ensures d.colouring.Semantic? ==>
      c == DirColor(d.colouring.palette, d.colouring.theme, ValueDir(y, d.colouring.baseline))
  {
    match d.colouring
    case Fixed(color) => color
    case Semantic(palette, theme, baseline) => DirColor(palette, theme, ValueDir(y, baseline))
  }

  /** The `segment.borderColor` callback of a semantic dataset. */
  function SegmentColor(d: Dataset, y0: Num, y1: Num): (c: string)
    requires d.colouring.Semantic?
    ensures y1.Finite? ==> c == PointColor(d, y1)
    ensures !y1.Finite? ==> c == PointColor(d, y0)
  {
    DirColor(d.colouring.palette, d.colouring.theme, SegmentDir(y0, y1, d.colouring.baseline))
  }

  /** A semantic dataset colours a point above the baseline up and below it down. */
  lemma SemanticPointColours(cfg: LineConfig, style: Style, y: real)
    requires cfg.semanticTrend && cfg.palette.None?
    ensures var d := BuildLineDataset(cfg, style);
      var t := ResolveChartTheme(style);
      var b := OrZero(cfg.semanticBaseline);
      (Greater(Finite(y), b) ==> PointColor(d, Finite(y)) == t.up)
      && (Less(Finite(y), b) ==> PointColor(d, Finite(y)) == t.down)
      && (!Greater(Finite(y), b) && !Less(Finite(y), b) ==> PointColor(d, Finite(y)) == t.neutral)
  {
  }

  /** The options of `buildLineChartOptions`; the empty string stands for a missing title. */
  datatype OptionsConfig = OptionsConfig(
    maxXTicks: Num, zeroAxis: bool, decimationSamples: Num, enableDecimation: bool,
    spanGaps: bool, yTitle: string, legend: bool)

  function DefaultOptionsConfig(): OptionsConfig {
    OptionsConfig(Finite(8.0), false, Finite(80.0), false, true, "", false)
  }

  /** The option record: what the chart library reads, callbacks aside. */
  datatype ChartOptions = ChartOptions(
    animation: bool, spanGaps: bool, legendDisplay: bool,
    decimationEnabled: bool, decimationSamples: Num, maxXTicks: Num,
    crosshairEnabled: bool, zeroLineEnabled: bool, extremaEnabled: bool,
    titleDisplayed: bool, title: string, zeroAxis: bool, theme: ThemeTokens)

  /** `buildLineChartOptions`: animation and all three drawing plugins are off. */
  function BuildLineChartOptions(cfg: OptionsConfig, style: Style): (o: ChartOptions)
    ensures !o.animation
    ensures !o.crosshairEnabled && !o.zeroLineEnabled && !o.extremaEnabled
    ensures o.titleDisplayed <==> cfg.yTitle != ""
    ensures o.zeroAxis == cfg.zeroAxis && o.spanGaps == cfg.spanGaps && o.legendDisplay == cfg.legend
    ensures o.theme == ResolveChartTheme(style)
  {
    ChartOptions(false, cfg.spanGaps, cfg.legend, cfg.enableDecimation, cfg.decimationSamples,
      cfg.maxXTicks, false, false, false, cfg.yTitle != "", cfg.yTitle, cfg.zeroAxis,
      ResolveChartTheme(style))
  }

  /** Whether a y tick is the zero axis line to emphasise. */
  predicate ZeroTick(o: ChartOptions, tick: Num) {
    o.zeroAxis && IsFinite(tick) && StrictEq(tick, Finite(0.0))
  }

  /** The y grid `color` callback. */
  function GridColor(o: ChartOptions, tick: Num): (c: string)
    ensures ZeroTick(o, tick) ==> c == AlphaColor(o.theme.axisStrong, "0.45", DefaultAlphaFallback)
    ensures !ZeroTick(o, tick) ==> c == o.theme.grid
  {
    if o.zeroAxis && IsFinite(tick) && StrictEq(tick, Finite(0.0))
    then AlphaColor(o.theme.axisStrong, "0.45", DefaultAlphaFallback)
    else o.theme.grid
  }

  /** The y grid `lineWidth` callback. */
  function GridLineWidth(o: ChartOptions, tick: Num): (w: real)
    ensures w == 1.4 || w == 1.0
    ensures w == 1.4 <==> ZeroTick(o, tick)
  {
    if o.zeroAxis && IsFinite(tick) && StrictEq(tick, Finite(0.0)) then 1.4 else 1.0
  }

  /** The emphasised gridline is drawn exactly at a zero tick when the zero axis is on. */
  lemma ZeroGridline(cfg: OptionsConfig, style: Style, tick: Num)
    ensures var o := BuildLineChartOptions(cfg, style);
      GridLineWidth(o, tick) == 1.4 <==> cfg.zeroAxis && tick == Finite(0.0)
  {
  }

  /** With the default options no gridline is emphasised. */
  lemma DefaultOptionsPlainGrid(style: Style, tick: Num)
    ensures var o := BuildLineChartOptions(DefaultOptionsConfig(), style);
      GridLineWidth(o, tick) == 1.0 && GridColor(o, tick) == o.theme.grid
      && !o.titleDisplayed && o.spanGaps
  {
  }
}
