/** The fund-list behaviour of the legacy page script (static/js/main.js): the list the
    fund selection dialog offers for each operation and its search, the selection set and
    the confirm guards, the rows the position summary counts, the top-three ranking and the
    held count. Values are given as the page reads them; the money arithmetic is not
    modelled. */
module LegacyFunds {
  import opened Common
  import opened Text
  import opened Sorting

  /** The operations the fund selection dialog serves; `Other` is any other value of
      `currentOperation`, `null` included. */
  datatype Operation = Hold | Unhold | SectorOp | Unsector | DeleteOp | Other

  /** A fund of the dialog's list. */
  datatype ListedFund = ListedFund(code: string, name: string, isHold: bool, sectors: seq<string>)

  /** What the dialog lists for an operation: funds not yet held for marking, held ones for
      unmarking, funds with sectors for removing sectors, all funds otherwise. */
  predicate Offered(op: Operation, f: ListedFund) {
    match op
    case Hold => !f.isHold
    case Unhold => f.isHold
    case Unsector => |f.sectors| > 0
    case _ => true
  }

  /** The search `fund.code.includes(keyword) || fund.name.toLowerCase().includes(keyword)`
      for the lower-cased input. */
  predicate Matches(input: string, f: ListedFund) {
    Contains(f.code, Lower(input)) || Contains(Lower(f.name), Lower(input))
  }

  /** The two list criteria: the operation's filter and the search box. */
  datatype Criterion = ForOperation(op: Operation) | Search(input: string)

  predicate Passes(c: Criterion, f: ListedFund) {
    match c
    case ForOperation(op) => Offered(op, f)
    case Search(input) => Matches(input, f)
  }

  /** `Array.prototype.filter` with a criterion. */
  function Keep(funds: seq<ListedFund>, c: Criterion): (r: seq<ListedFund>)
    ensures |r| <= |funds|
    ensures forall i :: 0 <= i < |r| ==> Passes(c, r[i]) && r[i] in funds
    ensures forall f :: f in funds && Passes(c, f) ==> f in r
    decreases |funds|
  {
    if |funds| == 0 then []
    else
      var rest := Keep(funds[1..], c);
      assert forall f :: f in funds ==> f == funds[0] || f in funds[1..];
      if Passes(c, funds[0]) then [funds[0]] + rest else rest
  }

  /** Filtering keeps list order: the kept funds of two lists are those of the first list
      followed by those of the second. */
  lemma {:induction false} KeepAppend(a: seq<ListedFund>, b: seq<ListedFund>, c: Criterion)
    ensures Keep(a + b, c) == Keep(a, c) + Keep(b, c)
    decreases |a|
  {
    if |a| == 0 {
      assert a + b == b;
    } else {
      assert (a + b)[0] == a[0];
      assert (a + b)[1..] == a[1..] + b;
      KeepAppend(a[1..], b, c);
    }
  }

  /** A single fund is kept exactly when it passes. */
  lemma KeepOne(f: ListedFund, c: Criterion)
    ensures Keep([f], c) == if Passes(c, f) then [f] else []
  {
    assert [f][1..] == [];
  }

  /** Holding and unholding are offered complementary parts of the list. */
  lemma {:induction false} HoldListsPartition(funds: seq<ListedFund>)
    ensures |Keep(funds, ForOperation(Hold))| + |Keep(funds, ForOperation(Unhold))| == |funds|
    ensures forall f :: f in Keep(funds, ForOperation(Hold)) ==> f !in Keep(funds, ForOperation(Unhold))
    decreases |funds|
  {
    if |funds| > 0 {
      HoldListsPartition(funds[1..]);
    }
  }

  /** Searching works within the operation's list: every fund shown passes both. */
  lemma SearchWithinFilter(funds: seq<ListedFund>, op: Operation, input: string)
    ensures forall f :: f in Keep(Keep(funds, ForOperation(op)), Search(input)) ==>
      f in funds && Offered(op, f) && Matches(input, f)
    ensures forall f :: f in funds && Offered(op, f) && Matches(input, f) ==>
      f in Keep(Keep(funds, ForOperation(op)), Search(input))
  {
  }

  lemma ContainsEmpty(s: string)
    ensures Contains(s, "")
  {
    assert s[..0] == "";
  }

  /** An empty search box shows the whole filtered list. */
  lemma {:induction false} EmptySearchKeepsAll(funds: seq<ListedFund>)
    ensures Keep(funds, Search("")) == funds
    decreases |funds|
  {
    if |funds| > 0 {
      ContainsEmpty(funds[0].code);
      EmptySearchKeepsAll(funds[1..]);
      assert funds == [funds[0]] + funds[1..];
    }
  }

  /** The codes picked so far (`selectedFundsForOperation`) and the state of each listed
      fund's checkbox. */
  datatype Selection = Selection(chosen: seq<string>, checked: map<string, bool>)

  predicate NoDuplicates(s: seq<string>) {
    forall i, j :: 0 <= i < j < |s| ==> s[i] != s[j]
  }

  /** The selection holds each code once, exactly the codes whose checkbox is ticked. */
  ghost predicate Consistent(sel: Selection) {
    NoDuplicates(sel.chosen)
    && forall c :: c in sel.chosen <==> (c in sel.checked && sel.checked[c])
  }

  /** `chosen.filter(c => c !== code)`. */
  function Without(s: seq<string>, code: string): (r: seq<string>)
    ensures code !in r
    ensures forall c :: c != code ==> (c in r <==> c in s)
    ensures NoDuplicates(s) ==> NoDuplicates(r)
    decreases |s|
  {
    if |s| == 0 then []
    else
      var rest := Without(s[1..], code);
      assert forall c :: c in s ==> c == s[0] || c in s[1..];
      if s[0] == code then rest
      else
        assert NoDuplicates(s) ==> s[0] !in s[1..];
        [s[0]] + rest
  }

  /** `toggleFundSelection(code)`: the checkbox flips; a ticked code joins the selection once,
      an unticked one leaves it. */
  function Toggle(sel: Selection, code: string): (r: Selection)
    ensures code in r.checked && r.checked[code] == !(code in sel.checked && sel.checked[code])
    ensures forall c :: c != code ==> (c in r.checked <==> c in sel.checked)
    ensures forall c :: c != code && c in sel.checked ==> r.checked[c] == sel.checked[c]
    ensures code in r.chosen <==> r.checked[code]
    ensures forall c :: c != code ==> (c in r.chosen <==> c in sel.chosen)
  {
    var now := !(code in sel.checked && sel.checked[code]);
    var checked := sel.checked[code := now];
    if now then
      Selection(if code in sel.chosen then sel.chosen else sel.chosen + [code], checked)
    else
      Selection(Without(sel.chosen, code), checked)
  }

  /** Toggling keeps the selection consistent with the checkboxes. */
  lemma ToggleConsistent(sel: Selection, code: string)
    requires Consistent(sel)
    ensures Consistent(Toggle(sel, code))
  {
    var r := Toggle(sel, code);
    if r.checked[code] && code !in sel.chosen {
      assert r.chosen == sel.chosen + [code];
      forall i, j | 0 <= i < j < |r.chosen|
        ensures r.chosen[i] != r.chosen[j]
      {
        if j == |sel.chosen| {
          assert r.chosen[i] == sel.chosen[i];
        }
      }
    }
  }

  /** `renderFundSelectionList(shown)`, as every search keystroke calls it: the list is rebuilt
      with one unticked checkbox per shown code, while the chosen codes are kept. */
  function Rerender(sel: Selection, shown: seq<string>): (r: Selection)
    ensures r.chosen == sel.chosen
    ensures forall c :: c in r.checked <==> c in shown
    ensures forall c :: c in r.checked ==> !r.checked[c]
  {
    Selection(sel.chosen, map c | c in shown :: false)
  }

  /** What survives every toggle and every re-render: each code is chosen once, and every
      ticked box is a chosen code. */
  predicate Sound(sel: Selection) {
    NoDuplicates(sel.chosen)
    && forall c :: c in sel.checked && sel.checked[c] ==> c in sel.chosen
  }

  lemma ToggleSound(sel: Selection, code: string)
    requires Sound(sel)
    ensures Sound(Toggle(sel, code))
  {
    var r := Toggle(sel, code);
    if r.checked[code] && code !in sel.chosen {
      assert r.chosen == sel.chosen + [code];
      forall i, j | 0 <= i < j < |r.chosen|
        ensures r.chosen[i] != r.chosen[j]
      {
        if j == |sel.chosen| {
          assert r.chosen[i] == sel.chosen[i];
        }
      }
    }
  }

  lemma RerenderSound(sel: Selection, shown: seq<string>)
    requires Sound(sel)
    ensures Sound(Rerender(sel, shown))
  {
  }

  /** A search that shows a chosen code again unticks its box while the code stays chosen,
      so the chosen codes are no longer exactly the ticked ones. */
  lemma RerenderBreaksConsistency(code: string)
    ensures var sel := Toggle(Selection([], map[]), code);
      Consistent(sel) && !Consistent(Rerender(sel, [code]))
  {
    var sel := Toggle(Selection([], map[]), code);
    var r := Rerender(sel, [code]);
    assert sel.chosen == [code];
    assert code in r.chosen && code in r.checked && !r.checked[code];
  }

  /** Toggling twice gives the same choice of codes back. */
  lemma ToggleTwice(sel: Selection, code: string)
    requires Consistent(sel)
    ensures var r := Toggle(Toggle(sel, code), code);
      forall c :: c in r.chosen <==> c in sel.chosen
  {
  }

  /** What confirming leads to: an alert and nothing else, a request for the operation with
      the chosen codes, the sector dialog opened with them, or nothing sent. */
  datatype Confirmed = Alerted | Sent(op: Operation, codes: seq<string>) | SectorDialog(codes: seq<string>) | NothingSent

  /** `confirmFundSelection`: the outcome and the selection left afterwards (closing the
      dialog clears it). */
  function ConfirmFundSelection(op: Operation, chosen: seq<string>): (r: (Confirmed, seq<string>))
    ensures |chosen| == 0 ==> r == (Alerted, chosen)
    ensures |chosen| > 0 ==> r.1 == []
    ensures r.0.Sent? ==> |r.0.codes| > 0 && r.0.codes == chosen && r.0.op == op
    ensures r.0.SectorDialog? <==> |chosen| > 0 && op == SectorOp
    ensures r.0.NothingSent? <==> |chosen| > 0 && op == Other
  {
    if |chosen| == 0 then (Alerted, chosen)
    else
      match op
      case SectorOp => (SectorDialog(chosen), [])
      case Other => (NothingSent, [])
      case _ => (Sent(op, chosen), [])
  }

  /** `confirmSector`: with no codes an alert and the dialog closes (clearing the picked
      sectors); with no sectors an alert and the dialog stays; otherwise the request goes
      out and the dialog closes, whether the request succeeds or fails, clearing the picked
      sectors. The second result is the sectors picked afterwards. */
  function ConfirmSector(codes: seq<string>, sectors: seq<string>): (r: (Confirmed, seq<string>))
    ensures |codes| == 0 ==> r == (Alerted, [])
    ensures |codes| > 0 && |sectors| == 0 ==> r == (Alerted, sectors)
    ensures r.0.Sent? <==> |codes| > 0 && |sectors| > 0
    ensures r.0.Sent? ==> r.0.op == SectorOp && r.0.codes == codes && r.1 == []
  {
    if |codes| == 0 then (Alerted, [])
    else if |sectors| == 0 then (Alerted, sectors)
    else (Sent(SectorOp, codes), [])
  }

  /** A code ticked in an otherwise empty selection is what a confirmed operation sends. */
  lemma TickThenConfirm(code: string, op: Operation)
    requires op != SectorOp && op != Other
    ensures var sel := Toggle(Selection([], map[]), code);
      ConfirmFundSelection(op, sel.chosen).0 == Sent(op, [code])
  {
  }

  // ---- position summary

  /** Length of the run of characters of the class at the start of `s`: `[0-9.]` when
      `dashes` is false, `[0-9-]` when it is true. */
  function RunLen(s: string, dashes: bool): (n: nat)
    ensures n <= |s|
    ensures forall i :: 0 <= i < n ==> InRun(s[i], dashes)
    ensures n < |s| ==> !InRun(s[n], dashes)
  {
    if |s| == 0 || !InRun(s[0], dashes) then 0
    else
      var n := 1 + RunLen(s[1..], dashes);
      assert forall i :: 1 <= i < n ==> s[i] == s[1..][i - 1];
      n
  }

  predicate InRun(c: char, dashes: bool) {
    IsDigit(c) || (if dashes then c == '-' else c == '.')
  }

  /** `/([0-9.]+)\(([0-9-]+)\)/` matched at position 0 of `s`: the greedy runs can only
      succeed at their full length, because the character after a run is never `(` or `)`
      inside it. */
  function MatchHere(s: string): (r: Option<(string, string)>)
    ensures r.Some? ==> |r.value.0| + |r.value.1| + 2 <= |s|
    ensures r.Some? ==> s[..|r.value.0| + |r.value.1| + 2] == r.value.0 + "(" + r.value.1 + ")"
    ensures r.Some? ==> |r.value.0| > 0 && |r.value.1| > 0
    ensures r.Some? ==> (
      (forall i :: 0 <= i < |r.value.0| ==> InRun(r.value.0[i], false))
      && (forall i :: 0 <= i < |r.value.1| ==> InRun(r.value.1[i], true)))
  {
    var a := RunLen(s, false);
    if a == 0 || a >= |s| || s[a] != '(' then None
    else
      var t := s[a + 1..];
      var b := RunLen(t, true);
      if b == 0 || b >= |t| || t[b] != ')' then None
      else
        var v, d := s[..a], t[..b];
        assert s[..a + b + 2] == s[..a] + [s[a]] + t[..b] + [t[b]];
        Some((v, d))
  }

  /** `text.match(regex)`: the leftmost match, as its two groups. */
  function NetValueMatch(s: string): (r: Option<(string, string)>)
    ensures r.None? <==> forall p :: 0 <= p <= |s| ==> MatchHere(s[p..]).None?
    ensures r.Some? ==> exists p :: (0 <= p <= |s| && MatchHere(s[p..]) == r
      && forall q :: 0 <= q < p ==> MatchHere(s[q..]).None?)
    decreases |s|
  {
    var here := MatchHere(s);
    if here.Some? then
      assert s[0..] == s;
      here
    else if |s| == 0 then None
    else
      var r := NetValueMatch(s[1..]);
      assert forall p :: 1 <= p <= |s| ==> s[p..] == s[1..][p - 1..];
      assert s[0..] == s;
      assert r.Some? ==> exists p :: (0 <= p <= |s| && MatchHere(s[p..]) == r
        && forall q :: 0 <= q < p ==> MatchHere(s[q..]).None?) by {
        if r.Some? {
          var p' :| (0 <= p' <= |s[1..]| && MatchHere(s[1..][p'..]) == r
            && forall q :: 0 <= q < p' ==> MatchHere(s[1..][q..]).None?);
          assert MatchHere(s[p' + 1..]) == r;
          forall q | 0 <= q < p' + 1
            ensures MatchHere(s[q..]).None?
          {
            if q > 0 {
              assert s[q..] == s[1..][q - 1..];
            }
          }
        }
      }
      r
  }

  /** A run followed by a character outside its class has exactly the run's length. */
  lemma {:induction false} RunLenOf(v: string, rest: string, dashes: bool)
    requires forall i :: 0 <= i < |v| ==> InRun(v[i], dashes)
    requires |rest| > 0 && !InRun(rest[0], dashes)
    ensures RunLen(v + rest, dashes) == |v|
    decreases |v|
  {
    if |v| == 0 {
      assert v + rest == rest;
    } else {
      assert (v + rest)[0] == v[0];
      assert (v + rest)[1..] == v[1..] + rest;
      RunLenOf(v[1..], rest, dashes);
    }
  }

  /** A net value cell such as `1.234(2025-02-02)` yields its value and date. */
  lemma NetValueCell(v: string, d: string)
    requires |v| > 0 && |d| > 0
    requires forall i :: 0 <= i < |v| ==> InRun(v[i], false)
    requires forall i :: 0 <= i < |d| ==> InRun(d[i], true)
    ensures NetValueMatch(v + "(" + d + ")") == Some((v, d))
  {
    MatchHereCell(v, d);
    assert (v + "(" + d + ")")[0..] == v + "(" + d + ")";
  }

  lemma MatchHereCell(v: string, d: string)
    requires |v| > 0 && |d| > 0
    requires forall i :: 0 <= i < |v| ==> InRun(v[i], false)
    requires forall i :: 0 <= i < |d| ==> InRun(d[i], true)
    ensures MatchHere(v + "(" + d + ")") == Some((v, d))
  {
    var s := v + "(" + d + ")";
    assert s == v + ("(" + d + ")");
    RunLenOf(v, "(" + d + ")", false);
    assert s[|v|] == '(';
    var t := s[|v| + 1..];
    assert t == d + ")";
    RunLenOf(d, ")", true);
    assert t[|d|] == ')';
    assert s[..|v|] == v;
    assert t[..|d|] == d;
  }

  /** A row of the fund table as the summary reads it: the trimmed texts of its cells. */
  type Cells = seq<string>

  /** What the summary keeps of a counted row: the code, shares, net value text, the net
      value's date (completed with the year), and whether that date is today. */
  datatype Counted = Counted(code: string, shares: Num, netValue: string, date: string, settled: bool)

  /** `MM-DD` dates get the current year in front; other dates are kept. */
  function FullDate(date: string, year: string): (r: string)
    ensures |date| == 5 ==> r == year + "-" + date
    ensures |date| != 5 ==> r == date
  {
    if |date| == 5 then year + "-" + date else date
  }

  /** One row of `calculatePositionSummary`: rows with fewer than six cells, without
      positive shares (`(fundSharesData[code]) || 0`) or without a net value match are
      skipped. `today` is the ISO date and `year` the current year as text. */
  function CountRow(cells: Cells, shares: map<string, Num>, today: string, year: string): (r: Option<Counted>)
    ensures |cells| < 6 ==> r.None?
    ensures r.Some? <==> (
      |cells| >= 6
      && Greater(OrZero(if cells[0] in shares then shares[cells[0]] else Finite(0.0)), Finite(0.0))
      && NetValueMatch(cells[3]).Some?)
    ensures r.Some? ==> r.value.code == cells[0] && Greater(r.value.shares, Finite(0.0))
    ensures r.Some? ==> (r.value.settled <==> r.value.date == today)
    ensures r.Some? ==> r.value.date == FullDate(NetValueMatch(cells[3]).value.1, year)
  {
    if |cells| < 6 then None
    else
      var code := cells[0];
      var held := OrZero(if code in shares then shares[code] else Finite(0.0));
      if !Greater(held, Finite(0.0)) then None
      else
        match NetValueMatch(cells[3])
        case None => None
        case Some(m) =>
          var date := FullDate(m.1, year);
          Some(Counted(code, held, m.0, date, date == today))
  }

  /** The counted rows, in table order. */
  function CountRows(rows: seq<Cells>, shares: map<string, Num>, today: string, year: string): (r: seq<Counted>)
    ensures |r| <= |rows|
    ensures forall i :: 0 <= i < |r| ==> Greater(r[i].shares, Finite(0.0)) && (r[i].settled <==> r[i].date == today)
    decreases |rows|
  {
    if |rows| == 0 then []
    else
      var rest := CountRows(rows[1..], shares, today, year);
      var c := CountRow(rows[0], shares, today, year);
      if c.None? then rest
      else
        CountedFacts(c.value, rest, today);
        [c.value] + rest
  }

  /** The counted rows are exactly the rows `CountRow` keeps, as counted. */
  lemma {:induction false} CountRowsMembers(rows: seq<Cells>, shares: map<string, Num>, today: string, year: string)
    ensures forall x :: (x in CountRows(rows, shares, today, year)
      <==> exists k :: 0 <= k < |rows| && CountRow(rows[k], shares, today, year) == Some(x))
    decreases |rows|
  {
    if |rows| > 0 {
      var rest := rows[1..];
      CountRowsMembers(rest, shares, today, year);
      forall x
        ensures x in CountRows(rows, shares, today, year)
          <==> (exists k :: 0 <= k < |rows| && CountRow(rows[k], shares, today, year) == Some(x))
      {
        if exists k :: 0 <= k < |rows| && CountRow(rows[k], shares, today, year) == Some(x) {
          var k :| 0 <= k < |rows| && CountRow(rows[k], shares, today, year) == Some(x);
          if k > 0 {
            assert rows[k] == rest[k - 1];
          }
        }
        if x in CountRows(rest, shares, today, year) {
          var k :| 0 <= k < |rest| && CountRow(rest[k], shares, today, year) == Some(x);
          assert rows[k + 1] == rest[k];
        }
      }
    }
  }

  /** Counting distributes over the table's rows: each row contributes its own count, in
      table order. */
  lemma {:induction false} CountRowsAppend(a: seq<Cells>, b: seq<Cells>, shares: map<string, Num>, today: string, year: string)
    ensures CountRows(a + b, shares, today, year) == CountRows(a, shares, today, year) + CountRows(b, shares, today, year)
    decreases |a|
  {
    if |a| == 0 {
      assert a + b == b;
    } else {
      assert (a + b)[0] == a[0];
      assert (a + b)[1..] == a[1..] + b;
      CountRowsAppend(a[1..], b, shares, today, year);
    }
  }

  /** A single row is counted exactly when `CountRow` keeps it. */
  lemma CountRowsOne(row: Cells, shares: map<string, Num>, today: string, year: string)
    ensures CountRows([row], shares, today, year)
      == (match CountRow(row, shares, today, year) case Some(c) => [c] case None => [])
  {
    assert [row][1..] == [];
  }

  lemma CountedFacts(c: Counted, rest: seq<Counted>, today: string)
    requires Greater(c.shares, Finite(0.0)) && (c.settled <==> c.date == today)
    requires forall i :: 0 <= i < |rest| ==> Greater(rest[i].shares, Finite(0.0)) && (rest[i].settled <==> rest[i].date == today)
    ensures var r := [c] + rest;
      forall i :: 0 <= i < |r| ==> Greater(r[i].shares, Finite(0.0)) && (r[i].settled <==> r[i].date == today)
  {
    var r := [c] + rest;
    assert forall i :: 1 <= i < |r| ==> r[i] == rest[i - 1];
  }

  /** A held row whose net value cell reads `value(MM-DD)` for an earlier day is counted with
      that value and this year's date, and is not settled today. */
  lemma YesterdayNotSettled(cells: Cells, shares: map<string, Num>, year: string, v: string, mmdd: string, today: string)
    requires |v| > 0 && forall i :: 0 <= i < |v| ==> InRun(v[i], false)
    requires |mmdd| == 5 && forall i :: 0 <= i < |mmdd| ==> InRun(mmdd[i], true)
    requires year + "-" + mmdd != today
    requires |cells| >= 6 && cells[3] == v + "(" + mmdd + ")"
    ensures var r := CountRow(cells, shares, today, year);
      (r.Some? <==> Greater(OrZero(if cells[0] in shares then shares[cells[0]] else Finite(0.0)), Finite(0.0)))
      && (r.Some? ==> !r.value.settled && r.value.date == year + "-" + mmdd && r.value.netValue == v)
  {
    NetValueCell(v, mmdd);
  }

  // ---- top three and held count

  /** A fund of the summary's detail list: its gains today, actual and estimated. */
  datatype Detail = Detail(code: string, actualGain: Num, estimatedGain: Num)

  /** The gain the ranking uses: the actual gain unless it is zero (`!== 0`), then the
      estimated one. */
  function RankGain(d: Detail): (g: Num)
    ensures StrictEq(d.actualGain, Finite(0.0)) ==> g == d.estimatedGain
    ensures !StrictEq(d.actualGain, Finite(0.0)) ==> g == d.actualGain
  {
    if StrictEq(d.actualGain, Finite(0.0)) then d.estimatedGain else d.actualGain
  }

  /** "`a` ranks before `b`": the comparator `bGain - aGain` is negative. */
  predicate RanksBefore(a: Detail, b: Detail) {
    Greater(RankGain(a), RankGain(b))
  }

  lemma RanksBeforeStrict()
    ensures StrictOrder(RanksBefore)
  {
    forall a: Detail, b: Detail, c: Detail | RanksBefore(a, b) && RanksBefore(b, c)
      ensures RanksBefore(a, c)
    {
      LessTransitive(RankGain(c), RankGain(b), RankGain(a));
    }
  }

  /** `getTop3Funds`: a sorted copy of the details, its first three. */
  function Top3(details: seq<Detail>): (r: seq<Detail>)
    ensures |r| == MinInt(3, |details|)
    ensures forall i :: 0 <= i < |r| ==> r[i] in details
    ensures Sorted(r, RanksBefore)
    ensures forall x, y :: x in r && y in details && RanksBefore(y, x) ==> y in r
  {
    var sorted := SortBy(details, RanksBefore);
    RankingSorted(details);
    PrefixOfRanking(details, sorted, MinInt(3, |details|));
    sorted[..MinInt(3, |details|)]
  }

  lemma RankingSorted(details: seq<Detail>)
    ensures Sorted(SortBy(details, RanksBefore), RanksBefore)
  {
    RanksBeforeStrict();
    SortBySorted(details, RanksBefore);
  }

  /** Any prefix of the ranking is itself ranked, and nothing left out ranks above
      anything kept. */
  lemma PrefixOfRanking(details: seq<Detail>, sorted: seq<Detail>, k: nat)
    requires multiset(sorted) == multiset(details) && Sorted(sorted, RanksBefore) && k <= |sorted|
    ensures forall i :: 0 <= i < k ==> sorted[i] in details
    ensures Sorted(sorted[..k], RanksBefore)
    ensures forall x, y :: x in sorted[..k] && y in details && RanksBefore(y, x) ==> y in sorted[..k]
  {
    assert forall i :: 0 <= i < |sorted| ==> sorted[i] in multiset(details);
    PrefixClosed(details, sorted, k);
  }

  lemma PrefixClosed(details: seq<Detail>, sorted: seq<Detail>, k: nat)
    requires multiset(sorted) == multiset(details) && Sorted(sorted, RanksBefore) && k <= |sorted|
    ensures forall x, y :: x in sorted[..k] && y in details && RanksBefore(y, x) ==> y in sorted[..k]
  {
    var r := sorted[..k];
    forall x, y | x in r && y in details && RanksBefore(y, x)
      ensures y in r
    {
      var i :| 0 <= i < |r| && r[i] == x;
      assert y in multiset(sorted);
      var j :| 0 <= j < |sorted| && sorted[j] == y;
      AboveIsEarlier(sorted, i, j);
      assert r[j] == y;
    }
  }

  /** In a ranked sequence, an element that ranks above another comes before it. */
  lemma AboveIsEarlier(sorted: seq<Detail>, i: nat, j: nat)
    requires Sorted(sorted, RanksBefore) && i < |sorted| && j < |sorted|
    requires RanksBefore(sorted[j], sorted[i])
    ensures j < i
  {
  }

  predicate HeldShares(v: Num) {
    Greater(v, Finite(0.0))
  }

  /** The held count: the codes whose shares are above zero. */
  method HeldCount(shares: map<string, Num>) returns (n: nat)
    ensures n == |set c | c in shares && HeldShares(shares[c])|
    ensures n <= |shares|
  {
    n := 0;
    var todo := shares.Keys;
    ghost var done: set<string> := {};
    while todo != {}
      invariant todo + done == shares.Keys && todo !! done
      invariant n == |HeldIn(shares, done)|
      decreases |todo|
    {
      var c :| c in todo;
      HeldStep(shares, done, c);
      if HeldShares(shares[c]) {
        n := n + 1;
      }
      todo := todo - {c};
      done := done + {c};
    }
    HeldAll(shares, done);
  }

  lemma HeldAll(shares: map<string, Num>, done: set<string>)
    requires done == shares.Keys
    ensures HeldIn(shares, done) == set c | c in shares && HeldShares(shares[c])
    ensures |HeldIn(shares, done)| <= |shares|
  {
    SubsetCard(HeldIn(shares, done), shares.Keys);
  }

  /** The held codes among `ks`. */
  ghost function HeldIn(shares: map<string, Num>, ks: set<string>): set<string> {
    set k | k in ks && k in shares && HeldShares(shares[k])
  }

  lemma HeldStep(shares: map<string, Num>, done: set<string>, c: string)
    requires c in shares && c !in done
    ensures |HeldIn(shares, done + {c})| == |HeldIn(shares, done)| + (if HeldShares(shares[c]) then 1 else 0)
  {
    if HeldShares(shares[c]) {
      assert HeldIn(shares, done + {c}) == HeldIn(shares, done) + {c};
    } else {
      assert HeldIn(shares, done + {c}) == HeldIn(shares, done);
    }
  }

  lemma SubsetCard(a: set<string>, b: set<string>)
    requires a <= b
    ensures |a| <= |b|
  {
    assert b == a + (b - a);
  }
}
