/** The order of the fund selector in `loadFundsSection` (frontend/src/main.js): funds by
    shares, largest first, then by code; and the fund whose chart is shown first. */
module FundOrder {
  import opened Common
  import opened Sorting

  /** One entry of the `/api/fund/data` map: its code (the key), its `fund_name` (`""` when
      missing or falsy) and `Number(shares)`. */
  datatype FundEntry = FundEntry(code: string, fundName: string, shares: Num)

  /** The selector's view of a fund. */
  datatype Fund = Fund(code: string, name: string, shares: Num)

  /** `{ code, name: info?.fund_name || code, shares: Number(info?.shares) || 0 }`. */
  function ToFund(e: FundEntry): (f: Fund)
    ensures f.code == e.code && !f.shares.NaN?
    ensures e.fundName != "" ==> f.name == e.fundName
    ensures e.fundName == "" ==> f.name == e.code
  {
    Fund(e.code, if e.fundName != "" then e.fundName else e.code, OrZero(e.shares))
  }

  /** The comparator `(b.shares - a.shares) || a.code.localeCompare(b.code)` read as "a goes
      first": more shares first, and on equal shares the smaller code. Equal infinities
      subtract to NaN, which is falsy, so they fall through to the code as equal shares do. */
  predicate FundBefore(a: Fund, b: Fund) {
    Greater(a.shares, b.shares) || (a.shares == b.shares && LexLt(a.code, b.code))
  }

  /** The comparator is a strict order, so the sort it drives is well defined. */
  lemma FundBeforeStrict()
    ensures StrictOrder(FundBefore)
  {
    forall a: Fund
      ensures !FundBefore(a, a)
    {
      LexLtIrreflexive(a.code);
    }
    forall a: Fund, b: Fund, c: Fund | FundBefore(a, b) && FundBefore(b, c)
      ensures FundBefore(a, c)
    {
      if Greater(a.shares, b.shares) && Greater(b.shares, c.shares) {
        LessTransitive(c.shares, b.shares, a.shares);
      } else if !Greater(a.shares, b.shares) && !Greater(b.shares, c.shares) {
        LexLtTransitive(a.code, b.code, c.code);
      }
    }
  }

  /** The funds of the map in selector order. */
  function OrderFunds(entries: seq<FundEntry>): (r: seq<Fund>)
    ensures |r| == |entries|
    ensures multiset(r) == multiset(seq(|entries|, i requires 0 <= i < |entries| => ToFund(entries[i])))
    ensures Sorted(r, FundBefore)
  {
    var fs := seq(|entries|, i requires 0 <= i < |entries| => ToFund(entries[i]));
    FundBeforeStrict();
    SortBySorted(fs, FundBefore);
    SortBy(fs, FundBefore)
  }

  predicate Held(f: Fund) {
    Greater(f.shares, Finite(0.0))
  }

  /** Position of the first held fund, or `|funds|`. */
  function FirstHeld(funds: seq<Fund>): (i: nat)
    ensures i <= |funds|
    ensures i < |funds| ==> Held(funds[i])
    ensures forall j :: 0 <= j < i ==> !Held(funds[j])
  {
    if |funds| == 0 then 0
    else if Held(funds[0]) then 0
    else
      var i := 1 + FirstHeld(funds[1..]);
      assert forall j :: 1 <= j < i ==> funds[j] == funds[1..][j - 1];
      i
  }

  /** `funds.find((item) => item.shares > 0) || funds[0] || null`. */
  function DefaultFund(funds: seq<Fund>): (r: Option<Fund>)
    ensures r.None? <==> |funds| == 0
    ensures r.Some? ==> r.value in funds
    ensures (exists j :: 0 <= j < |funds| && Held(funds[j])) ==> r.Some? && Held(r.value)
    ensures (forall j :: 0 <= j < |funds| ==> !Held(funds[j])) && |funds| > 0 ==> r == Some(funds[0])
  {
    var i := FirstHeld(funds);
    if i < |funds| then Some(funds[i])
    else if |funds| > 0 then Some(funds[0])
    else None
  }

  /** A value no greater than another does not pass it over zero. */
  lemma HeldBelow(x: Num, y: Num)
    requires !x.NaN? && !y.NaN? && !Greater(y, x) && Greater(y, Finite(0.0))
    ensures Greater(x, Finite(0.0))
  {
  }

  /** In selector order the default fund is simply the first one: a held fund, if there is
      any, sorts before every unheld one. */
  lemma DefaultIsFirst(entries: seq<FundEntry>)
    requires |entries| > 0
    ensures DefaultFund(OrderFunds(entries)) == Some(OrderFunds(entries)[0])
  {
    var r := OrderFunds(entries);
    var fs := seq(|entries|, i requires 0 <= i < |entries| => ToFund(entries[i]));
    assert forall j :: 0 <= j < |r| ==> r[j] in multiset(fs);
    forall j | 0 < j < |r| && Held(r[j])
      ensures Held(r[0])
    {
      assert !FundBefore(r[j], r[0]);
      HeldBelow(r[0].shares, r[j].shares);
    }
  }
}
