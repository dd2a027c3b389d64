/** The watchlist store of the console tool (fund.py, class `LanFund`): the comma lists of
    fund codes typed at the prompt, the updates of `CACHE_MAP` behind adding, deleting,
    holding and sector marking, the share edit, the monthly up/down run computed by
    `search_one_code`, and the board menu of `select_fund`. */
module FundStore {
  import opened Common
  import opened Text
  import opened NumParse

  /** One value of `CACHE_MAP`. `sectors` is `[]` where the entry has no `sectors` key, as
      `get("sectors", [])` reads it. */
  datatype Entry = Entry(fundKey: string, fundName: string, isHold: bool, shares: Num, sectors: seq<string>)

  type Store = map<string, Entry>

  // ---------------------------------------------------------------- code lists

  /** The stripped pieces, blank ones dropped: `[p.strip() for p in parts if p.strip()]`. */
  function Pieces(parts: seq<string>): (r: seq<string>)
    requires forall k :: 0 <= k < |parts| ==> ',' !in parts[k]
    ensures |r| <= |parts|
    ensures forall k :: 0 <= k < |r| ==> r[k] != "" && ',' !in r[k] && Trim(r[k], PySpaces) == r[k]
    decreases |parts|
  {
    if |parts| == 0 then []
    else
      var t := Trim(parts[0], PySpaces);
      assert forall x :: x in t ==> x in parts[0];
      TrimNoop(t, PySpaces);
      var rest := Pieces(parts[1..]);
      if t != "" then [t] + rest else rest
  }

  /** `codes.split(",")` followed by stripping and dropping blanks. */
  function CodeList(s: string): (r: seq<string>)
    ensures forall k :: 0 <= k < |r| ==> r[k] != "" && ',' !in r[k] && Trim(r[k], PySpaces) == r[k]
  {
    SplitPiecesLackSeparator(s, ',');
    Pieces(Split(s, ','))
  }

  /** Pieces that are already stripped and non-blank pass through unchanged. */
  lemma {:induction false} PiecesKeep(parts: seq<string>)
    requires forall k :: 0 <= k < |parts| ==> (
      parts[k] != "" && ',' !in parts[k] && Trim(parts[k], PySpaces) == parts[k])
    ensures Pieces(parts) == parts
    decreases |parts|
  {
    if |parts| > 0 {
      PiecesKeep(parts[1..]);
      assert parts == [parts[0]] + parts[1..];
    }
  }

  /** Writing codes out with commas and reading the list back gives the same codes. */
  lemma CodeListJoin(codes: seq<string>)
    requires |codes| >= 1
    requires forall k :: 0 <= k < |codes| ==> (
      codes[k] != "" && ',' !in codes[k] && Trim(codes[k], PySpaces) == codes[k])
    ensures CodeList(Join(codes, ",")) == codes
  {
    SplitJoin(codes, ',');
    PiecesKeep(codes);
  }

  // ---------------------------------------------------------------- map updates

  /** Shares never negative: the share edit refuses negative input and nothing else writes it. */
  ghost predicate NoNegativeShares(store: Store) {
    forall c :: c in store ==> !Less(store[c].shares, Finite(0.0))
  }

  /** The search API's answer for a code: the product key and the fund name. */
  datatype FundInfo = FundInfo(key: string, name: string)

  /** The record `add_code` stores for a code the search found. */
  function Added(info: FundInfo): (e: Entry)
    ensures !e.isHold && e.shares == Finite(0.0) && e.sectors == []
    ensures e.fundKey == info.key && e.fundName == info.name
  {
    Entry(info.key, info.name, false, Finite(0.0), [])
  }

  /** `add_code` over a parsed list; `found` holds the codes the search API knows. A found code
      replaces whatever entry it had; a code the search rejects changes nothing. */
  function AddCodes(store: Store, codes: seq<string>, found: map<string, FundInfo>): (r: Store)
    ensures r.Keys == store.Keys + (set c | c in codes && c in found)
    ensures forall c :: c in r ==> r[c] == (if c in codes && c in found then Added(found[c]) else store[c])
    ensures NoNegativeShares(store) ==> NoNegativeShares(r)
    decreases |codes|
  {
    if |codes| == 0 then store
    else
      var c := codes[0];
      var next := if c in found then store[c := Added(found[c])] else store;
      assert forall x :: x in codes <==> x == c || x in codes[1..];
      AddCodes(next, codes[1..], found)
  }

  /** `delete_code`: the listed codes that are present are removed; the rest is untouched. */
  function DeleteCodes(store: Store, codes: seq<string>): (r: Store)
    ensures r.Keys == store.Keys - (set c | c in codes)
    ensures forall c :: c in r ==> r[c] == store[c]
    ensures NoNegativeShares(store) ==> NoNegativeShares(r)
    decreases |codes|
  {
    if |codes| == 0 then store
    else
      var c := codes[0];
      var next := if c in store then store - {c} else store;
      assert forall x :: x in codes <==> x == c || x in codes[1..];
      DeleteCodes(next, codes[1..])
  }

  /** Adding a new code and deleting it again leaves the store as it was. */
  lemma DeleteUndoesAdd(store: Store, code: string, found: map<string, FundInfo>)
    requires code !in store
    ensures DeleteCodes(AddCodes(store, [code], found), [code]) == store
  {
    var r := DeleteCodes(AddCodes(store, [code], found), [code]);
    assert r.Keys == store.Keys;
  }

  /** The per-code field writes of the listed-code updates. */
  datatype Change = SetSectors(sectors: seq<string>) | SetHold(hold: bool)

  function Apply(e: Entry, ch: Change): Entry {
    match ch
    case SetSectors(s) => e.(sectors := s)
    case SetHold(h) => e.(isHold := h)
  }

  /** The loop shared by `mark_fund_sector_web`, `unmark_fund_sector_web` and the hold and
      unhold branches of `run`: listed codes that are present get the change, unknown codes
      are skipped, no entry appears or disappears. */
  function UpdateListed(store: Store, codes: seq<string>, ch: Change): (r: Store)
    ensures r.Keys == store.Keys
    ensures forall c :: c in r ==> r[c] == (if c in codes then Apply(store[c], ch) else store[c])
    ensures NoNegativeShares(store) ==> NoNegativeShares(r)
    decreases |codes|
  {
    if |codes| == 0 then store
    else
      var c := codes[0];
      var next := if c in store then store[c := Apply(store[c], ch)] else store;
      assert forall x :: x in codes <==> x == c || x in codes[1..];
      UpdateListed(next, codes[1..], ch)
  }

  /** `mark_fund_sector_web(codes, sectors)`. */
  function MarkSectors(store: Store, codes: seq<string>, sectors: seq<string>): (r: Store)
    ensures r.Keys == store.Keys
    ensures forall c :: c in r && c in codes ==> r[c] == store[c].(sectors := sectors)
    ensures forall c :: c in r && c !in codes ==> r[c] == store[c]
  {
    UpdateListed(store, codes, SetSectors(sectors))
  }

  /** `unmark_fund_sector_web(codes)`; the console `unmark_fund_sector` writes `[]` only over a
      non-empty list, which comes to the same map. */
  function UnmarkSectors(store: Store, codes: seq<string>): (r: Store)
    ensures r.Keys == store.Keys
    ensures forall c :: c in r && c in codes ==> r[c] == store[c].(sectors := [])
    ensures forall c :: c in r && c !in codes ==> r[c] == store[c]
  {
    UpdateListed(store, codes, SetSectors([]))
  }

  /** The hold (`True`) and unhold (`False`) branches of `run`. */
  function SetHolding(store: Store, codes: seq<string>, hold: bool): (r: Store)
    ensures r.Keys == store.Keys
    ensures forall c :: c in r && c in codes ==> r[c] == store[c].(isHold := hold)
    ensures forall c :: c in r && c !in codes ==> r[c] == store[c]
  {
    UpdateListed(store, codes, SetHold(hold))
  }

  /** Applying the same listed update twice is the same as applying it once. */
  lemma UpdateIdempotent(store: Store, codes: seq<string>, ch: Change)
    ensures UpdateListed(UpdateListed(store, codes, ch), codes, ch) == UpdateListed(store, codes, ch)
  {
    var once := UpdateListed(store, codes, ch);
    var twice := UpdateListed(once, codes, ch);
    forall c | c in twice
      ensures twice[c] == once[c]
    {
      if c in codes {
        match ch
        case SetSectors(_) =>
        case SetHold(_) =>
      }
    }
  }

  /** Marking and then unmarking the same codes leaves them without sectors and every other
      field as it was. */
  lemma UnmarkAfterMark(store: Store, codes: seq<string>, sectors: seq<string>)
    ensures UnmarkSectors(MarkSectors(store, codes, sectors), codes)
      == UnmarkSectors(store, codes)
  {
  }

  /** `modify_shares` for one present code. `entered` is `float(input)`, or `None` for a blank
      line or text `float` rejects. Negative input is refused; a positive value also marks
      the fund held; zero (and NaN) leave the hold flag as it was. */
  function ModifyShares(store: Store, code: string, entered: Option<Num>): (r: Store)
    ensures r.Keys == store.Keys
    ensures forall c :: c in r && c != code ==> r[c] == store[c]
    ensures (code !in store || entered.None? || Less(entered.value, Finite(0.0))) ==> r == store
    ensures code in store && entered.Some? && !Less(entered.value, Finite(0.0)) ==> (
      r[code].shares == entered.value
      && r[code].isHold == (store[code].isHold || Greater(entered.value, Finite(0.0)))
      && r[code].sectors == store[code].sectors && r[code].fundName == store[code].fundName)
    ensures NoNegativeShares(store) ==> NoNegativeShares(r)
  {
    if code !in store || entered.None? then store
    else
      var v := entered.value;
      if Less(v, Finite(0.0)) then store
      else
        var e := store[code].(shares := v);
        store[code := if Greater(v, Finite(0.0)) then e.(isHold := true) else e]
  }

  /** After a share edit a fund with positive shares is held. */
  lemma PositiveSharesHeld(store: Store, code: string, v: Num)
    requires code in store && Greater(v, Finite(0.0))
    ensures ModifyShares(store, code, Some(v))[code].isHold
    ensures ModifyShares(store, code, Some(v))[code].shares == v
  {
  }

  /** Clearing the shares to zero keeps a held fund held. */
  lemma ZeroSharesKeepHold(store: Store, code: string)
    requires code in store
    ensures ModifyShares(store, code, Some(Finite(0.0)))[code].isHold == store[code].isHold
  {
  }

  // ---------------------------------------------------------------- sector input

  /** `all_sectors`: the category lists of `MAJOR_CATEGORIES` flattened in order. */
  function AllSectors(categories: seq<(string, seq<string>)>): (r: seq<string>)
    ensures forall k, j :: 0 <= k < |categories| && 0 <= j < |categories[k].1| ==> categories[k].1[j] in r
    decreases |categories|
  {
    if |categories| == 0 then []
    else categories[0].1 + AllSectors(categories[1..])
  }

  /** Flattening keeps category order: the sectors of two category lists are those of the
      first followed by those of the second. */
  lemma {:induction false} AllSectorsAppend(a: seq<(string, seq<string>)>, b: seq<(string, seq<string>)>)
    ensures AllSectors(a + b) == AllSectors(a) + AllSectors(b)
    decreases |a|
  {
    if |a| == 0 {
      assert a + b == b;
    } else {
      assert (a + b)[0] == a[0];
      assert (a + b)[1..] == a[1..] + b;
      AllSectorsAppend(a[1..], b);
    }
  }

  /** A single category contributes its own sector list, in its order. */
  lemma AllSectorsOne(c: (string, seq<string>))
    ensures AllSectors([c]) == c.1
  {
    assert [c][1..] == [];
  }

  /** One item of the sector prompt: a number `1..len(all_sectors)` picks that sector, any other
      item (a name, `0`, an out-of-range number) is kept as typed. */
  function ResolveSector(item: string, all: seq<string>): (r: string)
    ensures r == item || r in all
    ensures r != item ==> PyInt(item).Some?
  {
    match PyInt(item)
    case Some(idx) => if 1 <= idx <= |all| then all[idx - 1] else item
    case None => item
  }

  /** A menu number picks the sector shown under it. */
  lemma ResolveNumber(n: nat, all: seq<string>)
    requires 1 <= n <= |all|
    ensures ResolveSector(NatToString(n), all) == all[n - 1]
  {
    PyIntNat(n);
  }

  /** A name with no digit is kept verbatim. */
  lemma ResolveName(item: string, all: seq<string>)
    requires forall i :: 0 <= i < |item| ==> !IsDigit(item[i])
    ensures ResolveSector(item, all) == item
  {
    PyIntNeedsDigit(item);
  }

  /** Each stripped item resolved. */
  function ResolveAll(items: seq<string>, all: seq<string>): (r: seq<string>)
    ensures |r| == |items|
    ensures forall k {:trigger r[k]} :: 0 <= k < |r| ==> r[k] == ResolveSector(Trim(items[k], PySpaces), all)
    decreases |items|
  {
    if |items| == 0 then []
    else [ResolveSector(Trim(items[0], PySpaces), all)] + ResolveAll(items[1..], all)
  }

  /** The sector prompt of `mark_fund_sector`: a blank answer selects nothing (`None`); any other
      answer is split on commas and every item resolved, so the selection is never empty. */
  function SectorInput(input: string, all: seq<string>): (r: Option<seq<string>>)
    ensures r.None? <==> Trim(input, PySpaces) == ""
    ensures r.Some? ==> |r.value| == |Split(Trim(input, PySpaces), ',')| >= 1
    ensures r.Some? ==> forall k :: 0 <= k < |r.value| ==> (
      r.value[k] == ResolveSector(Trim(Split(Trim(input, PySpaces), ',')[k], PySpaces), all))
  {
    var t := Trim(input, PySpaces);
    if t == "" then None else Some(ResolveAll(Split(t, ','), all))
  }

  /** The sectors the prompt binds to a code; a blank answer or an unknown code changes nothing. */
  function MarkSectorsPrompt(store: Store, code: string, input: string, all: seq<string>): (r: Store)
    ensures r.Keys == store.Keys
    ensures forall c :: c in r && c != code ==> r[c] == store[c]
    ensures code in store && SectorInput(input, all).Some? ==> (
      r[code] == store[code].(sectors := SectorInput(input, all).value) && |r[code].sectors| >= 1)
    ensures code !in store || Trim(input, PySpaces) == "" ==> r == store
  {
    if code !in store then store
    else
      match SectorInput(input, all)
      case None => store
      case Some(sel) => store[code := store[code].(sectors := sel)]
  }

  /** Menu numbers typed as `"n1,n2,..."` select exactly those sectors, in the typed order. */
  lemma {:induction false} SectorInputNumbers(ns: seq<nat>, all: seq<string>)
    requires |ns| >= 1
    requires forall k :: 0 <= k < |ns| ==> 1 <= ns[k] <= |all|
    ensures SectorInput(Join(NumberTexts(ns), ","), all).Some?
    ensures var r := SectorInput(Join(NumberTexts(ns), ","), all).value;
      |r| == |ns| && forall k :: 0 <= k < |ns| ==> r[k] == all[ns[k] - 1]
  {
    var texts := NumberTexts(ns);
    var s := Join(texts, ",");
    JoinEnds(texts);
    DigitNotSpace(s[0]);
    DigitNotSpace(s[|s| - 1]);
    TrimNoop(s, PySpaces);
    SplitJoin(texts, ',');
    assert SectorInput(s, all) == Some(ResolveAll(texts, all));
    ResolveNumbers(ns, all);
  }

  lemma ResolveNumbers(ns: seq<nat>, all: seq<string>)
    requires forall k :: 0 <= k < |ns| ==> 1 <= ns[k] <= |all|
    ensures forall k :: 0 <= k < |ns| ==> ResolveAll(NumberTexts(ns), all)[k] == all[ns[k] - 1]
  {
    var texts := NumberTexts(ns);
    forall k | 0 <= k < |ns|
      ensures ResolveSector(Trim(texts[k], PySpaces), all) == all[ns[k] - 1]
    {
      ResolveNumberText(ns[k], all, texts[k]);
    }
    ResolveEach(texts, ns, all);
  }

  /** Items that each resolve to a chosen sector resolve, all together, to those sectors. */
  lemma ResolveEach(texts: seq<string>, ns: seq<nat>, all: seq<string>)
    requires |texts| == |ns|
    requires forall k :: 0 <= k < |ns| ==> 1 <= ns[k] <= |all|
    requires forall k :: 0 <= k < |ns| ==> ResolveSector(Trim(texts[k], PySpaces), all) == all[ns[k] - 1]
    ensures forall k :: 0 <= k < |ns| ==> ResolveAll(texts, all)[k] == all[ns[k] - 1]
  {
  }

  lemma ResolveNumberText(n: nat, all: seq<string>, t: string)
    requires 1 <= n <= |all| && t == NatToString(n)
    ensures ResolveSector(Trim(t, PySpaces), all) == all[n - 1]
  {
    DigitNotSpace(t[0]);
    DigitNotSpace(t[|t| - 1]);
    TrimNoop(t, PySpaces);
    ResolveNumber(n, all);
  }

  /** The decimal texts of the numbers. */
  function NumberTexts(ns: seq<nat>): (r: seq<string>)
    ensures |r| == |ns|
    ensures forall k :: 0 <= k < |r| ==> r[k] == NatToString(ns[k]) && ',' !in r[k]
  {
    seq(|ns|, k requires 0 <= k < |ns| => NatToString(ns[k]))
  }

  /** A comma join of digit strings starts and ends with a digit. */
  lemma {:induction false} JoinEnds(texts: seq<string>)
    requires |texts| >= 1
    requires forall k :: 0 <= k < |texts| ==> |texts[k]| >= 1 && IsDigit(texts[k][0]) && IsDigit(texts[k][|texts[k]| - 1])
    ensures |Join(texts, ",")| >= 1
    ensures IsDigit(Join(texts, ",")[0]) && IsDigit(Join(texts, ",")[|Join(texts, ",")| - 1])
    decreases |texts|
  {
    if |texts| > 1 {
      JoinEnds(texts[1..]);
      var tail := Join(texts[1..], ",");
      assert Join(texts, ",") == texts[0] + "," + tail;
    }
  }

  // ---------------------------------------------------------------- monthly trend

  /** One point of the one-month rate history; only points of type `"fund"` are used. */
  datatype Point = Point(kind: string, rate: real)

  function FundRates(points: seq<Point>): (r: seq<real>)
    ensures |r| <= |points|
    decreases |points|
  {
    if |points| == 0 then []
    else (if points[0].kind == "fund" then [points[0].rate] else []) + FundRates(points[1..])
  }

  /** The rates keep the order of the points: those of two runs of points are the rates of the
      first followed by those of the second. */
  lemma {:induction false} FundRatesAppend(a: seq<Point>, b: seq<Point>)
    ensures FundRates(a + b) == FundRates(a) + FundRates(b)
    decreases |a|
  {
    if |a| == 0 {
      assert a + b == b;
    } else {
      assert (a + b)[0] == a[0];
      var h: seq<real> := if a[0].kind == "fund" then [a[0].rate] else [];
      assert (a + b)[1..] == a[1..] + b;
      assert FundRates(a + b) == h + FundRates(a[1..] + b);
      FundRatesAppend(a[1..], b);
      assert FundRates(a) == h + FundRates(a[1..]);
      assert h + (FundRates(a[1..]) + FundRates(b)) == (h + FundRates(a[1..])) + FundRates(b);
    }
  }

  /** A single point gives its rate exactly when it is a fund point. */
  lemma FundRatesOne(p: Point)
    ensures FundRates([p]) == if p.kind == "fund" then [p.rate] else []
  {
    assert [p][1..] == [];
  }

  /** Day-over-day directions: `true` (涨) when the rate did not fall, ties included. */
  function Moves(rates: seq<real>): (m: seq<bool>)
    ensures |m| == if |rates| < 2 then 0 else |rates| - 1
    ensures forall i :: 0 <= i < |m| ==> (m[i] <==> rates[i + 1] >= rates[i])
  {
    if |rates| < 2 then []
    else seq(|rates| - 1, i requires 0 <= i < |rates| - 1 => rates[i + 1] >= rates[i])
  }

  /** Number of `涨` days. */
  function CountUp(m: seq<bool>): (n: nat)
    ensures n <= |m|
    ensures (forall i :: 0 <= i < |m| ==> m[i]) ==> n == |m|
    ensures n == multiset(m)[true]
    decreases |m|
  {
    if |m| == 0 then 0
    else
      assert m == m[..|m| - 1] + [m[|m| - 1]];
      (if m[|m| - 1] then 1 else 0) + CountUp(m[..|m| - 1])
  }

  /** Length of the run of the most recent direction: the list is reversed in the code and the
      run is counted from its head, which is this run at the end. */
  function LastRun(m: seq<bool>): (k: nat)
    requires |m| >= 1
    ensures 1 <= k <= |m|
    ensures forall j :: |m| - k <= j < |m| ==> m[j] == m[|m| - 1]
    ensures k < |m| ==> m[|m| - k - 1] != m[|m| - 1]
    decreases |m|
  {
    if |m| == 1 || m[|m| - 2] != m[|m| - 1] then 1
    else
      var init := m[..|m| - 1];
      var k := LastRun(init);
      assert forall j :: 0 <= j < |init| ==> init[j] == m[j];
      k + 1
  }

  /** `涨` days, number of compared days, and the signed run: negative when falling. */
  datatype Trend = Trend(upDays: nat, days: nat, streak: int)

  /** The monthly columns of `search_one_code`. With fewer than two points the code indexes an
      empty list, the exception is logged and the fund is left out of the result (`None`). */
  function MonthlyTrend(points: seq<Point>): (r: Option<Trend>)
    ensures r.None? <==> |FundRates(points)| < 2
    ensures r.Some? ==> (
      var rates := FundRates(points);
      var t := r.value;
      t.days == |rates| - 1 && t.upDays <= t.days
      && t.upDays == multiset(Moves(rates))[true]
      && 1 <= (if t.streak < 0 then -t.streak else t.streak) <= t.days
      && (t.streak > 0 <==> rates[|rates| - 1] >= rates[|rates| - 2]))
  {
    var m := Moves(FundRates(points));
    if |m| == 0 then None
    else
      var k: int := LastRun(m);
      var streak := if m[|m| - 1] then k else -k;
      Some(Trend(CountUp(m), |m|, streak))
  }

  /** `s` is the signed length of the most recent same-direction stretch of `rates`: every day
      in it moved the way the sign says and the day before it, if any, moved the other way. */
  predicate IsRun(rates: seq<real>, s: int) {
    var k := if s < 0 then -s else s;
    var n := |rates|;
    k <= n - 1
    && (forall j :: n - 1 - k <= j < n - 1 ==> (rates[j + 1] >= rates[j] <==> s > 0))
    && (k < n - 1 ==> (rates[n - 1 - k] >= rates[n - 2 - k] <==> s < 0))
  }

  /** The streak column is the run in the sense of `IsRun`. */
  lemma StreakIsRun(points: seq<Point>)
    requires |FundRates(points)| >= 2
    ensures IsRun(FundRates(points), MonthlyTrend(points).value.streak)
  {
    var rates := FundRates(points);
    var m := Moves(rates);
    var k: int := LastRun(m);
    var s := if m[|m| - 1] then k else -k;
    assert MonthlyTrend(points).value.streak == s;
    RunOfRates(rates, m, k, s);
  }

  /** `StreakIsRun` stated on the rates themselves. */
  lemma RunOfRates(rates: seq<real>, m: seq<bool>, k: int, s: int)
    requires |rates| >= 2 && m == Moves(rates) && k == LastRun(m)
    requires s == if m[|m| - 1] then k else -k
    ensures IsRun(rates, s)
  {
    var n := |rates|;
    assert |m| == n - 1 && 1 <= k <= |m|;
    assert s > 0 <==> m[n - 2];
    forall j | n - 1 - k <= j < n - 1
      ensures rates[j + 1] >= rates[j] <==> s > 0
    {
      assert m[j] == m[n - 2];
    }
  }

  /** A month of non-falling rates is all `涨` and one run as long as the month. */
  lemma RisingMonth(points: seq<Point>)
    requires |FundRates(points)| >= 2
    requires forall i :: 0 < i < |FundRates(points)| ==> FundRates(points)[i] >= FundRates(points)[i - 1]
    ensures (
      var n := |FundRates(points)| - 1;
      MonthlyTrend(points) == Some(Trend(n, n, n)))
  {
    var rates := FundRates(points);
    var m := Moves(rates);
    assert forall i :: 0 <= i < |m| ==> m[i] by {
      forall i | 0 <= i < |m| ensures m[i] {
        assert rates[i + 1] >= rates[i];
      }
    }
    assert CountUp(m) == |m|;
    var k := LastRun(m);
    assert k == |m|;
  }

  // ---------------------------------------------------------------- board menu

  /** `bk_map` in its literal order: board name and board code. */
  type Menu = seq<(string, string)>

  /** The number shown before the board at position `i`: `str(i + 1)`. */
  function Label(i: nat): (t: string)
    ensures |t| >= 1 && IsDigit(t[0])
  {
    NatToString(i + 1)
  }

  /** The `id_map` entry for a typed id: the position whose label it is. */
  function MenuId(id: string, menu: Menu, from: nat): (r: Option<nat>)
    requires from <= |menu|
    ensures r.Some? ==> from <= r.value < |menu| && Label(r.value) == id
    ensures r.None? ==> forall i :: from <= i < |menu| ==> Label(i) != id
    decreases |menu| - from
  {
    if from == |menu| then None
    else if Label(from) == id then Some(from)
    else MenuId(id, menu, from + 1)
  }

  /** `bk_map[name]`: the first entry with that name (names in the literal are distinct). */
  function BoardByName(name: string, menu: Menu): (r: Option<string>)
    ensures r.Some? ==> exists i :: 0 <= i < |menu| && menu[i] == (name, r.value)
    ensures r.None? ==> forall i :: 0 <= i < |menu| ==> menu[i].0 != name
    decreases |menu|
  {
    if |menu| == 0 then None
    else if menu[0].0 == name then Some(menu[0].1)
    else
      var r := BoardByName(name, menu[1..]);
      assert forall i :: 1 <= i < |menu| ==> menu[i] == menu[1..][i - 1];
      r
  }

  /** What `select_fund(bk_id, is_return=True)` settles on before querying. */
  datatype Selected = Listing(names: seq<string>) | Board(code: string) | NoSuchBoard

  /** Return mode: no id lists the menu; a menu number picks that board; otherwise the id is
      tried as a board name; failing both, the error dict. */
  function SelectReturn(bkId: Option<string>, menu: Menu): (r: Selected)
    ensures bkId.None? ==> r == Listing(seq(|menu|, i requires 0 <= i < |menu| => menu[i].0))
    ensures r.Board? ==> exists i :: 0 <= i < |menu| && menu[i].1 == r.code
    ensures r == NoSuchBoard <==> (
      bkId.Some? && MenuId(bkId.value, menu, 0).None? && BoardByName(bkId.value, menu).None?)
  {
    match bkId
    case None => Listing(seq(|menu|, i requires 0 <= i < |menu| => menu[i].0))
    case Some(id) =>
      match MenuId(id, menu, 0)
      case Some(i) => Board(menu[i].1)
      case None =>
        match BoardByName(id, menu)
        case Some(code) => Board(code)
        case None => NoSuchBoard
  }

  /** The number shown before a board selects that board. */
  lemma SelectByNumber(n: nat, menu: Menu)
    requires 1 <= n <= |menu|
    ensures SelectReturn(Some(NatToString(n)), menu) == Board(menu[n - 1].1)
  {
    var r := MenuId(NatToString(n), menu, 0);
    assert r.Some? by {
      assert Label(n - 1) == NatToString(n);
    }
    NatToStringInjective(r.value + 1, n);
  }

  /** A board name that is not also a menu number selects the board of that name. */
  lemma SelectByName(name: string, menu: Menu, i: nat)
    requires i < |menu| && menu[i].0 == name
    requires forall j :: 0 <= j < |name| ==> !IsDigit(name[j])
    ensures SelectReturn(Some(name), menu).Board?
    ensures exists j :: 0 <= j < |menu| && menu[j] == (name, SelectReturn(Some(name), menu).code)
  {
    forall j | 0 <= j < |menu|
      ensures Label(j) != name
    {
      assert IsDigit(Label(j)[0]);
    }
  }

  /** Console mode: the prompt repeats until a typed line is a menu number; `None` when none of
      the given lines is one. */
  function SelectConsole(lines: seq<string>, menu: Menu): (r: Option<string>)
    ensures r.Some? ==> (
      exists k, i :: (0 <= k < |lines| && 0 <= i < |menu| && Label(i) == lines[k] && r.value == menu[i].1
        && forall k', i' :: 0 <= k' < k && 0 <= i' < |menu| ==> Label(i') != lines[k']))
    ensures r.None? ==> forall k, i :: 0 <= k < |lines| && 0 <= i < |menu| ==> Label(i) != lines[k]
    decreases |lines|
  {
    if |lines| == 0 then None
    else
      match MenuId(lines[0], menu, 0)
      case Some(i) => Some(menu[i].1)
      case None =>
        var r := SelectConsole(lines[1..], menu);
        assert forall k :: 1 <= k < |lines| ==> lines[k] == lines[1..][k - 1];
        assert r.Some? ==> exists k, i :: (0 <= k < |lines| && 0 <= i < |menu| && Label(i) == lines[k]
          && r.value == menu[i].1 && forall k', i' :: 0 <= k' < k && 0 <= i' < |menu| ==> Label(i') != lines[k']) by {
          if r.Some? {
            var k, i :| 0 <= k < |lines| - 1 && 0 <= i < |menu| && Label(i) == lines[1..][k] && r.value == menu[i].1
              && forall k', i' :: 0 <= k' < k && 0 <= i' < |menu| ==> Label(i') != lines[1..][k'];
            assert forall k', i' :: 0 <= k' < k + 1 && 0 <= i' < |menu| ==> Label(i') != lines[k'] by {
              forall k', i' | 0 <= k' < k + 1 && 0 <= i' < |menu| ensures Label(i') != lines[k'] {
                if k' > 0 { assert lines[k'] == lines[1..][k' - 1]; }
              }
            }
            assert Label(i) == lines[k + 1];
          }
        }
        r
  }
}
