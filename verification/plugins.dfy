/** The guards of the three drawing plugins of frontend/src/charts/plugins.js and the
    choice of the extreme points the extrema plugin labels. What gets drawn is returned
    as a plan; the canvas calls themselves are not modelled. */
module ChartPlugins {
  import opened Common

  /** The crosshair's x position, or `None` when nothing is drawn. `active` holds the `x` of
      each active tooltip element (NaN when an element has none). */
  function CrosshairX(enabled: bool, active: seq<Num>, hasArea: bool): (x: Option<real>)
    ensures x.Some? <==> enabled && |active| > 0 && hasArea && active[0].Finite?
    ensures x.Some? ==> x.value == active[0].r
  {
    if !enabled || |active| == 0 || !hasArea || !IsFinite(active[0]) then None
    else Some(active[0].r)
  }

  /** The y scale's bounds, when the chart has one. */
  datatype Scale = Scale(min: Num, max: Num)

  /** Whether the zero line is drawn. */
  predicate ZeroLineDrawn(enabled: bool, yScale: Option<Scale>, hasArea: bool) {
    enabled && yScale.Some? && hasArea
    && !(Greater(yScale.value.min, Finite(0.0)) || Less(yScale.value.max, Finite(0.0)))
  }

  /** With finite bounds the zero line is drawn exactly when the range contains 0. */
  lemma ZeroLineInRange(lo: real, hi: real)
    ensures ZeroLineDrawn(true, Some(Scale(Finite(lo), Finite(hi))), true) <==> lo <= 0.0 <= hi
  {
  }

  /** A disabled plugin never draws. */
  lemma DisabledPluginsDrawNothing(active: seq<Num>, yScale: Option<Scale>, hasArea: bool)
    ensures CrosshairX(false, active, hasArea) == None
    ensures !ZeroLineDrawn(false, yScale, hasArea)
  {
  }

  /** Every finite value in `data` is at most `data[m]`, and those before `m` are below it:
      `m` is the first position of the maximum. */
  ghost predicate FirstMax(data: seq<Num>, m: nat) {
    m < |data| && data[m].Finite?
    && (forall i :: 0 <= i < |data| && data[i].Finite? ==> data[i].r <= data[m].r)
    && (forall i :: 0 <= i < m && data[i].Finite? ==> data[i].r < data[m].r)
  }

  /** `m` is the first position of the minimum among the finite values. */
  ghost predicate FirstMin(data: seq<Num>, m: nat) {
    m < |data| && data[m].Finite?
    && (forall i :: 0 <= i < |data| && data[i].Finite? ==> data[i].r >= data[m].r)
    && (forall i :: 0 <= i < m && data[i].Finite? ==> data[i].r > data[m].r)
  }

  predicate NoFinite(data: seq<Num>) {
    forall i :: 0 <= i < |data| ==> !data[i].Finite?
  }

  /** The scan of `extremaPlugin`: non-finite values are skipped and the strict comparisons
      keep the first index of the maximum and of the minimum; -1 when no value is finite. */
  method FindExtrema(data: seq<Num>) returns (maxIndex: int, minIndex: int)
    ensures maxIndex == -1 <==> NoFinite(data)
    ensures minIndex == -1 <==> NoFinite(data)
    ensures maxIndex != -1 ==> 0 <= maxIndex && FirstMax(data, maxIndex)
    ensures minIndex != -1 ==> 0 <= minIndex && FirstMin(data, minIndex)
  {
    maxIndex, minIndex := -1, -1;
    var maxValue, minValue := 0.0, 0.0;
    var i := 0;
    while i < |data|
      invariant 0 <= i <= |data|
      invariant maxIndex == -1 <==> NoFinite(data[..i])
      invariant minIndex == -1 <==> NoFinite(data[..i])
      invariant maxIndex != -1 ==> 0 <= maxIndex < i && data[maxIndex] == Finite(maxValue)
      invariant minIndex != -1 ==> 0 <= minIndex < i && data[minIndex] == Finite(minValue)
      invariant maxIndex != -1 ==> forall j :: 0 <= j < i && data[j].Finite? ==> data[j].r <= maxValue
      invariant maxIndex != -1 ==> forall j :: 0 <= j < maxIndex && data[j].Finite? ==> data[j].r < maxValue
      invariant minIndex != -1 ==> forall j :: 0 <= j < i && data[j].Finite? ==> data[j].r >= minValue
      invariant minIndex != -1 ==> forall j :: 0 <= j < minIndex && data[j].Finite? ==> data[j].r > minValue
    {
      assert data[..i + 1] == data[..i] + [data[i]];
      if data[i].Finite? {
        var v := data[i].r;
        if maxIndex == -1 || v > maxValue {
          maxValue, maxIndex := v, i;
        }
        if minIndex == -1 || v < minValue {
          minValue, minIndex := v, i;
        }
      }
      i := i + 1;
    }
    assert data[..|data|] == data;
  }

  /** A point's position on the canvas, as the dataset's meta data gives it. */
  datatype Point = Point(x: Num, y: Num)

  /** What the extrema plugin draws: the high mark and label, the low mark and label. */
  datatype ExtremaPlan = NothingDrawn | Marks(maxIndex: nat, minIndex: nat, high: bool, low: bool)

  predicate Drawable(points: seq<Point>, i: nat) {
    i < |points| && IsFinite(points[i].x) && IsFinite(points[i].y)
  }

  /** `extremaPlugin.afterDatasetsDraw`. `hasDataset` says whether the chart has a first
      dataset; `points` is that dataset's meta data. */
  method ExtremaPlanOf(enabled: bool, hasDataset: bool, data: seq<Num>, points: seq<Point>)
    returns (plan: ExtremaPlan)
    ensures !enabled || !hasDataset || |points| == 0 || NoFinite(data) ==> plan == NothingDrawn
    ensures plan.Marks? ==> FirstMax(data, plan.maxIndex) && FirstMin(data, plan.minIndex)
    ensures plan.Marks? ==> (plan.high <==> Drawable(points, plan.maxIndex))
    ensures plan.Marks? ==> (plan.low <==> plan.minIndex != plan.maxIndex && Drawable(points, plan.minIndex))
    ensures enabled && hasDataset && |points| > 0 && !NoFinite(data) ==> plan.Marks?
  {
    if !enabled || !hasDataset || |points| == 0 {
      return NothingDrawn;
    }
    var maxIndex, minIndex := FindExtrema(data);
    if maxIndex < 0 || minIndex < 0 {
      return NothingDrawn;
    }
    plan := Marks(maxIndex, minIndex, Drawable(points, maxIndex),
      minIndex != maxIndex && Drawable(points, minIndex));
  }

  /** Distinct high and low positions have distinct values, so the low label is drawn
      only when the series is not flat. */
  lemma DistinctExtremaDiffer(data: seq<Num>, m: nat, n: nat)
    requires FirstMax(data, m) && FirstMin(data, n) && m != n
    ensures data[n].r < data[m].r
  {
    if m < n {
      assert data[m].r > data[n].r;
    }
  }
}
