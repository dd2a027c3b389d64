/** The chart slots of the dashboard front end (frontend/src/main.js): one chart instance
    per key, `destroyChart`, and the four render functions that destroy their slot before
    drawing into it again. A chart is an abstract handle (its identity); what a render
    leaves on the page is returned as a view. */
module ChartSlots {
  import opened Common
  import opened Text
  import opened NumParse
  import Escape

  /** `chartInstances`: the live instance of each key (a missing key is `null`), plus the
      identities destroyed so far and the identity the next instance gets. */
  datatype Slots = Slots(live: map<string, nat>, destroyed: set<nat>, nextId: nat)

  const Empty := Slots(map[], {}, 0)

  /** Live instances are fresh, not destroyed, and no two slots share one. */
  ghost predicate Valid(s: Slots) {
    (forall k :: k in s.live ==> s.live[k] < s.nextId && s.live[k] !in s.destroyed)
    && (forall k1, k2 :: k1 in s.live && k2 in s.live && k1 != k2 ==> s.live[k1] != s.live[k2])
    && (forall d :: d in s.destroyed ==> d < s.nextId)
  }

  /** `destroyChart(key)`: a live instance is destroyed and the slot becomes `null`. */
  function DestroyChart(s: Slots, key: string): (r: Slots)
    ensures key !in r.live && r.nextId == s.nextId
    ensures forall k :: k != key ==> (k in r.live <==> k in s.live)
    ensures forall k :: k != key && k in s.live ==> r.live[k] == s.live[k]
    ensures key in s.live ==> r.destroyed == s.destroyed + {s.live[key]}
    ensures key !in s.live ==> r == s
  {
    if key in s.live then Slots(s.live - {key}, s.destroyed + {s.live[key]}, s.nextId) else s
  }

  /** Destroying twice is destroying once. */
  lemma DestroyIdempotent(s: Slots, key: string)
    ensures DestroyChart(DestroyChart(s, key), key) == DestroyChart(s, key)
  {
  }

  /** A new instance stored in an emptied slot. */
  function Create(s: Slots, key: string): (r: Slots)
    requires key !in s.live
    ensures key in r.live && r.live[key] == s.nextId && r.nextId == s.nextId + 1
    ensures r.destroyed == s.destroyed
    ensures forall k :: k != key ==> (k in r.live <==> k in s.live)
    ensures forall k :: k != key && k in s.live ==> r.live[k] == s.live[k]
  {
    Slots(s.live[key := s.nextId], s.destroyed, s.nextId + 1)
  }

  lemma DestroyValid(s: Slots, key: string)
    requires Valid(s)
    ensures Valid(DestroyChart(s, key))
  {
  }

  lemma CreateValid(s: Slots, key: string)
    requires Valid(s) && key !in s.live
    ensures Valid(Create(s, key))
  {
    var r := Create(s, key);
    forall k1, k2 | k1 in r.live && k2 in r.live && k1 != k2
      ensures r.live[k1] != r.live[k2]
    {
      if k1 != key && k2 != key {
        assert r.live[k1] == s.live[k1] && r.live[k2] == s.live[k2];
      }
    }
  }

  /** What a render leaves where its chart goes: nothing done, the "chart library not
      loaded" notice, an empty-state placeholder, a chart with its labels and values, an
      error message (already escaped), or nothing because the render threw. */
  datatype View =
    | Untouched
    | Unavailable
    | Placeholder(message: string)
    | Drawn(labels: seq<string>, values: seq<Num>)
    | ErrorShown(html: string)
    | Threw

  /** What every render depends on besides its data: whether the canvas element exists and
      whether the chart library can be used. */
  datatype Page = Page(hasCanvas: bool, chartsUsable: bool)

  /** A render's result: the view and the slots after it. */
  datatype Rendered = Rendered(view: View, slots: Slots)

  /** The slot discipline every render keeps: the slot is emptied (its instance destroyed)
      before anything is drawn, a drawn view is the slot's newly created instance, any other
      view leaves the slot as it was or empty, and no other slot changes. */
  ghost predicate Disciplined(s: Slots, key: string, r: Rendered) {
    (r.view.Drawn? ==> r.slots == Create(DestroyChart(s, key), key))
    && (r.view.Placeholder? || r.view.Threw? ==> r.slots == DestroyChart(s, key))
    && (!r.view.Drawn? && !r.view.Placeholder? && !r.view.Threw? ==> r.slots == s)
  }

  lemma DisciplinedValid(s: Slots, key: string, r: Rendered)
    requires Valid(s) && Disciplined(s, key, r)
    ensures Valid(r.slots)
    ensures r.view.Drawn? && key in s.live ==> s.live[key] in r.slots.destroyed
    ensures r.view.Drawn? ==> key in r.slots.live && r.slots.live[key] !in s.live.Values
  {
    DestroyValid(s, key);
    if r.view.Drawn? {
      CreateValid(DestroyChart(s, key), key);
    }
  }

  /** `renderTimingChart`'s input: `labels` (`None` when it is not an array), `change_pcts`
      as the raw numbers read from the response (`None` when it is falsy; `RenderTiming` applies
      `Number(x) || 0` to each), and whether any of `change_pcts`,
      `prices`, `change_amounts`, `volumes` and `amounts` is truthy but not an array, so
      that its `.map` throws. */
  datatype TimingData = TimingData(labels: Option<seq<string>>, changePcts: Option<seq<Num>>, nonArray: bool)

  /** The timing render reaches its drawing step: there is a canvas and non-empty labels. */
  predicate TimingShown(page: Page, data: Option<TimingData>) {
    page.hasCanvas && data.Some? && data.value.labels.Some? && |data.value.labels.value| > 0
  }

  /** `renderTimingChart(data)`; `None` is a missing `data`. A non-array series throws after
      the slot has been destroyed, so the slot stays empty; the exception goes to the
      section loader's `catch`. */
  function RenderTiming(s: Slots, page: Page, data: Option<TimingData>): (r: Rendered)
    ensures !TimingShown(page, data) ==> r == Rendered(Untouched, s)
    ensures r.view.Drawn? <==> TimingShown(page, data) && page.chartsUsable && !data.value.nonArray
    ensures r.view.Threw? <==> TimingShown(page, data) && page.chartsUsable && data.value.nonArray
    ensures r.view.Threw? ==> "timing" !in r.slots.live && r.slots == DestroyChart(s, "timing")
    ensures r.view.Drawn? ==> (
      r.view.labels == data.value.labels.value
      && |r.view.values| == |data.value.changePcts.GetOr([])|
      && forall i :: 0 <= i < |r.view.values| ==> r.view.values[i] == OrZero(data.value.changePcts.value[i]))
    ensures r.view.Drawn? ==> "timing" in r.slots.live && r.slots.live["timing"] == s.nextId
    ensures r.view != Untouched && !r.view.Drawn? && !r.view.Threw? ==> r == Rendered(Unavailable, s)
  {
    if !TimingShown(page, data) then Rendered(Untouched, s)
    else if !page.chartsUsable then Rendered(Unavailable, s)
    else
      var cleared := DestroyChart(s, "timing");
      if data.value.nonArray then Rendered(Threw, cleared)
      else
        var pcts := data.value.changePcts.GetOr([]);
        Rendered(Drawn(data.value.labels.value, seq(|pcts|, i requires 0 <= i < |pcts| => OrZero(pcts[i]))),
          Create(cleared, "timing"))
  }

  /** One element of the one-day gold records: its `date` text (`""` when missing or
      falsy) and its `price` after `Number(...)` (`None` when `undefined`). `None` as a
      whole is a falsy element. */
  datatype GoldTick = GoldTick(date: string, price: Option<Num>)

  /** An element the one-day chart plots. */
  predicate TickShown(t: Option<GoldTick>) {
    t.Some? && t.value.date != "" && t.value.price.Some?
  }

  /** `String(date).split(' ')[1] || String(date)`: the time part of a date-time. */
  function TimeLabel(date: string): (r: string)
    ensures date != "" ==> r != ""
  {
    var parts := Split(date, ' ');
    if |parts| >= 2 && parts[1] != "" then parts[1] else date
  }

  /** A `"date time"` stamp is labelled by its time; a stamp without a space keeps its text. */
  lemma TimeLabelOfStamp(d: string, t: string)
    requires ' ' !in d && ' ' !in t && t != ""
    ensures TimeLabel(d + " " + t) == t
    ensures TimeLabel(d) == d
  {
    SplitJoin([d, t], ' ');
    assert Join([d, t], " ") == d + " " + t;
    assert IndexOf(d, ' ') == |d| by { IndexOfFirst(d, ' '); }
  }

  /** The labels and prices of the plotted elements, in order. */
  function OneDayPoints(records: seq<Option<GoldTick>>): (r: (seq<string>, seq<Num>))
    ensures |r.0| == |r.1| <= |records|
    ensures |r.0| == 0 <==> forall i :: 0 <= i < |records| ==> !TickShown(records[i])
    ensures forall i :: 0 <= i < |r.1| ==> !r.1[i].NaN? && r.0[i] != ""
    decreases |records|
  {
    if |records| == 0 then ([], [])
    else
      var rest := OneDayPoints(records[1..]);
      assert forall i :: 1 <= i < |records| ==> records[i] == records[1..][i - 1];
      if TickShown(records[0]) then
        var t := records[0].value;
        ([TimeLabel(t.date)] + rest.0, [OrZero(t.price.value)] + rest.1)
      else rest
  }

  /** The points of a concatenation are the points of each part, in order. */
  lemma {:induction false} OneDayPointsAppend(a: seq<Option<GoldTick>>, b: seq<Option<GoldTick>>)
    ensures var p := OneDayPoints(a + b);
      var pa := OneDayPoints(a);
      var pb := OneDayPoints(b);
      p.0 == pa.0 + pb.0 && p.1 == pa.1 + pb.1
    decreases |a|
  {
    if |a| == 0 {
      assert a + b == b;
    } else {
      var x, r := a[0], a[1..];
      assert a == [x] + r;
      assert a + b == [x] + (r + b);
      OneDayPointsAppend(r, b);
      var pr := OneDayPoints(r);
      var pb := OneDayPoints(b);
      OneDayPointsCons(x, r);
      OneDayPointsCons(x, r + b);
      if TickShown(x) {
        ConsAppend(TimeLabel(x.value.date), pr.0, pb.0);
        ConsAppend(OrZero(x.value.price.value), pr.1, pb.1);
      }
    }
  }

  lemma ConsAppend<T>(x: T, s: seq<T>, t: seq<T>)
    ensures [x] + (s + t) == ([x] + s) + t
  {
  }

  /** The first element contributes its point, if any, ahead of the rest's. */
  lemma OneDayPointsCons(x: Option<GoldTick>, rest: seq<Option<GoldTick>>)
    ensures var p := OneDayPoints([x] + rest);
      var q := OneDayPoints(rest);
      if TickShown(x) then p == ([TimeLabel(x.value.date)] + q.0, [OrZero(x.value.price.value)] + q.1) else p == q
  {
    assert ([x] + rest)[0] == x;
    assert ([x] + rest)[1..] == rest;
  }

  /** A single element gives its time label and price when it is plotted, nothing otherwise. */
  lemma OneDayPointsOne(t: Option<GoldTick>)
    ensures OneDayPoints([t]) == if TickShown(t) then ([TimeLabel(t.value.date)], [OrZero(t.value.price.value)]) else ([], [])
  {
    var rest := OneDayPoints([t][1..]);
    assert [t][1..] == [] && rest == ([], []);
    if TickShown(t) {
      var v := t.value;
      assert OneDayPoints([t]) == ([TimeLabel(v.date)] + rest.0, [OrZero(v.price.value)] + rest.1);
      assert [TimeLabel(v.date)] + rest.0 == [TimeLabel(v.date)];
      assert [OrZero(v.price.value)] + rest.1 == [OrZero(v.price.value)];
    }
  }

  const OneDayEmpty := "暂无分时金价数据"

  /** `renderGoldOneDayChart(records)`; `None` is a value that is not an array. */
  function RenderGoldOneDay(s: Slots, page: Page, records: Option<seq<Option<GoldTick>>>): (r: Rendered)
    ensures !page.hasCanvas ==> r == Rendered(Untouched, s)
    ensures page.hasCanvas && !page.chartsUsable ==> r == Rendered(Unavailable, s)
    ensures page.hasCanvas && page.chartsUsable ==> "goldOneDay" !in DestroyChart(s, "goldOneDay").live
    ensures r.view.Placeholder? <==> (
      page.hasCanvas && page.chartsUsable && (records.None? || |OneDayPoints(records.value).0| == 0))
    ensures r.view.Placeholder? ==> r.view.message == OneDayEmpty && "goldOneDay" !in r.slots.live
    ensures r.view.Drawn? ==> (
      r.view.labels == OneDayPoints(records.value).0
      && r.view.values == OneDayPoints(records.value).1 && |r.view.labels| > 0)
    ensures Disciplined(s, "goldOneDay", r)
  {
    if !page.hasCanvas then Rendered(Untouched, s)
    else if !page.chartsUsable then Rendered(Unavailable, s)
    else
      var cleared := DestroyChart(s, "goldOneDay");
      if records.None? || |records.value| == 0 then Rendered(Placeholder(OneDayEmpty), cleared)
      else
        var pts := OneDayPoints(records.value);
        if |pts.0| == 0 then Rendered(Placeholder(OneDayEmpty), cleared)
        else Rendered(Drawn(pts.0, pts.1), Create(cleared, "goldOneDay"))
  }

  /** Empty one-day data leaves the slot empty and shows the placeholder, whatever was
      drawn there before. */
  lemma EmptyGoldLeavesSlotNull(s: Slots, page: Page)
    requires page.hasCanvas && page.chartsUsable
    ensures RenderGoldOneDay(s, page, Some([])) == Rendered(Placeholder(OneDayEmpty), DestroyChart(s, "goldOneDay"))
    ensures RenderGoldOneDay(s, page, None).slots.live.Keys == s.live.Keys - {"goldOneDay"}
  {
  }

  /** One element of the gold price history: its `date` text (`""` when missing or
      falsy) and `String(china_gold_price)` (`None` when `undefined`). */
  datatype HistoryItem = HistoryItem(date: string, price: Option<string>)

  /** `Number(String(price).replace(/[^\d.-]/g, ''))`. */
  function HistoryValue(price: string): (r: Num)
    ensures KeepNumericChars(price) == "" ==> r == Finite(0.0)
  {
    JsNumber(KeepNumericChars(price))
  }

  lemma {:induction false} KeepNumericAppend(a: string, b: string)
    ensures KeepNumericChars(a + b) == KeepNumericChars(a) + KeepNumericChars(b)
    decreases |a|
  {
    if |a| == 0 {
      assert a + b == b;
    } else {
      var ab := a + b;
      var h := if NumericChar(a[0]) then [a[0]] else "";
      assert ab[0] == a[0];
      assert ab[1..] == a[1..] + b;
      assert KeepNumericChars(ab) == h + KeepNumericChars(a[1..] + b);
      KeepNumericAppend(a[1..], b);
      assert KeepNumericChars(a) == h + KeepNumericChars(a[1..]);
    }
  }

  lemma {:induction false} KeepNumericDigits(d: string)
    requires forall i :: 0 <= i < |d| ==> IsDigit(d[i])
    ensures KeepNumericChars(d) == d
    decreases |d|
  {
    if |d| > 0 {
      KeepNumericDigits(d[1..]);
      assert d == [d[0]] + d[1..];
    }
  }

  /** A price written as a whole number followed by a unit reads as that number. */
  lemma HistoryValueWithUnit(n: nat)
    ensures HistoryValue(NatToString(n) + "元/克") == Finite(n as real)
  {
    var d := NatToString(n);
    KeepNumericAppend(d, "元/克");
    KeepNumericDigits(d);
    assert KeepNumericChars("元/克") == "";
    assert d + "" == d;
    JsNumberNat(n);
  }

  /** The element is kept: it has a date, a defined price, and the price reads finite. */
  predicate HistoryKept(it: Option<HistoryItem>) {
    it.Some? && it.value.date != "" && it.value.price.Some? && HistoryValue(it.value.price.value).Finite?
  }

  /** The kept elements as (date, value) pairs, in input order. */
  function HistoryPoints(records: seq<Option<HistoryItem>>): (r: seq<(string, real)>)
    ensures |r| <= |records|
    ensures |r| == 0 <==> forall i :: 0 <= i < |records| ==> !HistoryKept(records[i])
    ensures forall i :: 0 <= i < |r| ==> r[i].0 != ""
    decreases |records|
  {
    if |records| == 0 then []
    else
      var rest := HistoryPoints(records[1..]);
      assert forall i :: 1 <= i < |records| ==> records[i] == records[1..][i - 1];
      if HistoryKept(records[0]) then
        [(records[0].value.date, HistoryValue(records[0].value.price.value).r)] + rest
      else rest
  }

  function Reverse<T>(s: seq<T>): (r: seq<T>)
    ensures |r| == |s|
    ensures forall i :: 0 <= i < |s| ==> r[i] == s[|s| - 1 - i]
  {
    if |s| == 0 then [] else Reverse(s[1..]) + [s[0]]
  }

  const HistoryEmpty := "暂无历史金价数据"

  /** `renderGoldHistoryChart(records)`: the kept elements, oldest last in the feed, are
      drawn in reverse so that time runs left to right. */
  function RenderGoldHistory(s: Slots, page: Page, records: Option<seq<Option<HistoryItem>>>): (r: Rendered)
    ensures !page.hasCanvas ==> r == Rendered(Untouched, s)
    ensures page.hasCanvas && !page.chartsUsable ==> r == Rendered(Unavailable, s)
    ensures r.view.Placeholder? <==> (
      page.hasCanvas && page.chartsUsable && (records.None? || |HistoryPoints(records.value)| == 0))
    ensures r.view.Placeholder? ==> r.view.message == HistoryEmpty && "goldHistory" !in r.slots.live
    ensures r.view.Drawn? ==>
      var pts := HistoryPoints(records.value);
      |r.view.labels| == |r.view.values| == |pts| > 0
      && forall i :: 0 <= i < |pts| ==>
        r.view.labels[i] == pts[|pts| - 1 - i].0 && r.view.values[i] == Finite(pts[|pts| - 1 - i].1)
    ensures Disciplined(s, "goldHistory", r)
  {
    if !page.hasCanvas then Rendered(Untouched, s)
    else if !page.chartsUsable then Rendered(Unavailable, s)
    else
      var cleared := DestroyChart(s, "goldHistory");
      if records.None? || |records.value| == 0 then Rendered(Placeholder(HistoryEmpty), cleared)
      else
        var pts := HistoryPoints(records.value);
        if |pts| == 0 then Rendered(Placeholder(HistoryEmpty), cleared)
        else
          var rev := Reverse(pts);
          Rendered(Drawn(seq(|rev|, i requires 0 <= i < |rev| => rev[i].0),
                         seq(|rev|, i requires 0 <= i < |rev| => Finite(rev[i].1))),
                   Create(cleared, "goldHistory"))
  }

  /** Every plotted history value is finite. */
  lemma HistoryValuesFinite(s: Slots, page: Page, records: Option<seq<Option<HistoryItem>>>)
    ensures var r := RenderGoldHistory(s, page, records);
      r.view.Drawn? ==> forall i :: 0 <= i < |r.view.values| ==> r.view.values[i].Finite?
  {
  }

  /** The fund chart request as the fetch settles: an error (a failed response, an error
      field, or no chart data) with its message, or the chart data with `labels` and
      `growth` (`None` for a non-array; growth after `Number(x) || 0`). */
  datatype FundFetch = FetchError(message: string) | FetchOk(labels: Option<seq<string>>, growth: Option<seq<Num>>)

  const FundEmpty := "暂无该基金估值走势数据"

  /** `loadAndRenderFundChart(code)`: a failure shows the escaped message and leaves the
      slot as it is; otherwise the slot is destroyed and drawn again when there is data. */
  function RenderFund(s: Slots, hasWrap: bool, page: Page, code: string, fetched: FundFetch): (r: Rendered)
    ensures !hasWrap || !page.hasCanvas || code == "" ==> r == Rendered(Untouched, s)
    ensures r.view.ErrorShown? <==> hasWrap && page.hasCanvas && code != "" && page.chartsUsable && fetched.FetchError?
    ensures r.view.ErrorShown? ==> r.slots == s && r.view.html == Escape.EscapeHtml(Some(fetched.message))
    ensures r.view.Drawn? <==> (
      hasWrap && page.hasCanvas && code != "" && page.chartsUsable && fetched.FetchOk?
      && |fetched.labels.GetOr([])| > 0 && |fetched.growth.GetOr([])| > 0)
    ensures r.view.Drawn? ==> r.view.labels == fetched.labels.value && r.view.values == fetched.growth.value
    ensures hasWrap && page.hasCanvas && code != "" && !page.chartsUsable ==> r == Rendered(Unavailable, s)
    ensures r.view.Placeholder? <==> (
      hasWrap && page.hasCanvas && code != "" && page.chartsUsable && fetched.FetchOk?
      && (|fetched.labels.GetOr([])| == 0 || |fetched.growth.GetOr([])| == 0))
    ensures r.view.Placeholder? ==> r.view.message == FundEmpty && r.slots == DestroyChart(s, "fund")
    ensures Disciplined(s, "fund", r)
  {
    if !hasWrap || !page.hasCanvas || code == "" then Rendered(Untouched, s)
    else if !page.chartsUsable then Rendered(Unavailable, s)
    else
      match fetched
      case FetchError(m) => Rendered(ErrorShown(Escape.EscapeHtml(Some(m))), s)
      case FetchOk(labels, growth) =>
        var cleared := DestroyChart(s, "fund");
        var ls := labels.GetOr([]);
        var gs := growth.GetOr([]);
        if |ls| == 0 || |gs| == 0 then Rendered(Placeholder(FundEmpty), cleared)
        else Rendered(Drawn(ls, gs), Create(cleared, "fund"))
  }

  /** The renders of the page, applied one after another. */
  datatype RenderCall =
    | Timing(page: Page, timing: Option<TimingData>)
    | GoldOneDay(page: Page, ticks: Option<seq<Option<GoldTick>>>)
    | GoldHistory(page: Page, items: Option<seq<Option<HistoryItem>>>)
    | Fund(hasWrap: bool, page: Page, code: string, fetched: FundFetch)

  function Apply(s: Slots, c: RenderCall): Rendered {
    match c
    case Timing(p, d) => RenderTiming(s, p, d)
    case GoldOneDay(p, t) => RenderGoldOneDay(s, p, t)
    case GoldHistory(p, h) => RenderGoldHistory(s, p, h)
    case Fund(w, p, code, f) => RenderFund(s, w, p, code, f)
  }

  /** A destroyed instance stays destroyed, and identities are only ever handed out anew. */
  lemma ApplyGrows(s: Slots, c: RenderCall)
    ensures var r := Apply(s, c).slots;
      s.destroyed <= r.destroyed && s.nextId <= r.nextId
  {
    if c.Timing? {
      TimingDisciplined(s, c.page, c.timing);
    }
  }

  /** The slots after a sequence of renders: instances destroyed along the way are never
      revived, and every identity handed out is new. */
  function RenderAll(s: Slots, calls: seq<RenderCall>): (r: Slots)
    ensures s.destroyed <= r.destroyed && s.nextId <= r.nextId
    decreases |calls|
  {
    if |calls| == 0 then s
    else
      ApplyGrows(s, calls[0]);
      RenderAll(Apply(s, calls[0]).slots, calls[1..])
  }

  /** The timing render keeps the slot discipline too. */
  lemma TimingDisciplined(s: Slots, page: Page, data: Option<TimingData>)
    ensures Disciplined(s, "timing", RenderTiming(s, page, data))
  {
  }

  /** However renders follow one another, no instance is ever live in two slots, and no
      destroyed instance is live again. */
  lemma {:induction false} RenderAllValid(s: Slots, calls: seq<RenderCall>)
    requires Valid(s)
    ensures Valid(RenderAll(s, calls))
    decreases |calls|
  {
    if |calls| > 0 {
      var c := calls[0];
      match c {
        case Timing(p, d) =>
          TimingDisciplined(s, p, d);
          DisciplinedValid(s, "timing", RenderTiming(s, p, d));
        case GoldOneDay(p, t) => DisciplinedValid(s, "goldOneDay", RenderGoldOneDay(s, p, t));
        case GoldHistory(p, h) => DisciplinedValid(s, "goldHistory", RenderGoldHistory(s, p, h));
        case Fund(w, p, code, f) => DisciplinedValid(s, "fund", RenderFund(s, w, p, code, f));
      }
      RenderAllValid(Apply(s, c).slots, calls[1..]);
    }
  }
}
