/** `enhance_fund_tab_content` (src/module_html.py): the `修改持仓` header after the first
    `近30天` header, and a share button cell at the end of every row that carries a fund
    code. The regular expressions of the code are read on tokens: `<th[^>]*>近30天</th>` is a
    `th` element holding exactly that text, `<tr>.*?</tr>` a bare `<tr>` up to the first
    `</tr>`, and `<td[^>]*>(\d{6})</td>` a `td` element holding six ASCII digits. */
module FundTab {
  import opened Common
  import opened Text
  import opened Markup
  import opened HtmlTables

  // ---------------------------------------------------------------- the header

  const MonthTitle := "近30天"
  const SharesHeader: seq<Tok> := [Open("th", []), Chars("修改持仓"), Close("th")]

  /** A `近30天` header cell starts at `i`. */
  predicate MonthHeaderAt(toks: seq<Tok>, i: nat) {
    i + 3 <= |toks| && OpensTag(toks[i], "th") && toks[i + 1] == Chars(MonthTitle) && toks[i + 2] == Close("th")
  }

  function FirstMonthHeader(toks: seq<Tok>, from: nat): (r: Option<nat>)
    requires from <= |toks|
    ensures r.Some? ==> (from <= r.value && MonthHeaderAt(toks, r.value)
      && forall j :: from <= j < r.value ==> !MonthHeaderAt(toks, j))
    ensures r.None? ==> forall j :: from <= j ==> !MonthHeaderAt(toks, j)
    decreases |toks| - from
  {
    if from == |toks| then None
    else if MonthHeaderAt(toks, from) then Some(from)
    else FirstMonthHeader(toks, from + 1)
  }

  /** The `re.sub(..., count=1)` that adds the shares header: right after the first `近30天`
      header, and nowhere when there is none. */
  function InsertSharesHeader(toks: seq<Tok>): (r: seq<Tok>)
    ensures (forall i: nat :: !MonthHeaderAt(toks, i)) ==> r == toks
    ensures (exists i: nat :: MonthHeaderAt(toks, i)) ==> exists i: nat :: (
      MonthHeaderAt(toks, i) && (forall j :: 0 <= j < i ==> !MonthHeaderAt(toks, j))
      && r == toks[..i + 3] + SharesHeader + toks[i + 3..])
  {
    match FirstMonthHeader(toks, 0)
    case None => toks
    case Some(i) => toks[..i + 3] + SharesHeader + toks[i + 3..]
  }

  /** The header goes in exactly once when there is a `近30天` header: the result is three
      tokens longer, and taking the inserted header back out gives the input. */
  lemma HeaderInsertedOnce(toks: seq<Tok>, i: nat)
    requires MonthHeaderAt(toks, i)
    ensures |InsertSharesHeader(toks)| == |toks| + 3
    ensures exists p :: (3 <= p <= |toks| && MonthHeaderAt(toks, p - 3)
      && InsertSharesHeader(toks)[p..p + 3] == SharesHeader
      && InsertSharesHeader(toks)[..p] + InsertSharesHeader(toks)[p + 3..] == toks)
  {
    var r := InsertSharesHeader(toks);
    var k := FirstMonthHeader(toks, 0).value;
    var p := k + 3;
    assert r == toks[..p] + SharesHeader + toks[p..];
    assert r[..p] == toks[..p];
    assert r[p..p + 3] == SharesHeader;
    assert r[p + 3..] == toks[p..];
    assert toks[..p] + toks[p..] == toks;
  }

  // ---------------------------------------------------------------- the row buttons

  predicate SixDigits(s: string) {
    |s| == 6 && forall i :: 0 <= i < 6 ==> IsDigit(s[i])
  }

  /** A fund code cell starts at `i`. */
  predicate CodeCellAt(toks: seq<Tok>, i: nat) {
    i + 3 <= |toks| && OpensTag(toks[i], "td") && toks[i + 1].Chars? && SixDigits(toks[i + 1].text)
    && toks[i + 2] == Close("td")
  }

  /** `re.search` for the first code cell of a row. */
  function CodeOf(toks: seq<Tok>): (r: Option<string>)
    ensures r.Some? ==> SixDigits(r.value) && |toks| >= 3
    decreases |toks|
  {
    if |toks| < 3 then None
    else if CodeCellAt(toks, 0) then Some(toks[1].text)
    else CodeOf(toks[1..])
  }

  /** `float(shares_map[code])`, with a missing code or a value `float` rejects read as 0. */
  function SharesOf(code: string, shares: map<string, Option<Num>>): (n: Num)
    ensures code !in shares ==> n == Finite(0.0)
    ensures code in shares ==> n == shares[code].GetOr(Finite(0.0))
  {
    if code in shares && shares[code].Some? then shares[code].value else Finite(0.0)
  }

  const Green := "#10b981"
  const Blue := "#3b82f6"

  /** Green for a holding (`shares > 0`), blue otherwise; NaN compares false and is blue. */
  function ButtonColor(code: string, shares: map<string, Option<Num>>): (c: string)
    ensures c == Green <==> Greater(SharesOf(code, shares), Finite(0.0))
    ensures c == Green || c == Blue
  {
    if Greater(SharesOf(code, shares), Finite(0.0)) then Green else Blue
  }

  const StyleHead := "padding: 6px 12px; background: "
  const StyleTail := "; color: white; border: none; border-radius: 6px; cursor: pointer; font-size: 13px; transition: all 0.2s;"

  function ButtonStyle(color: string): string {
    StyleHead + color + StyleTail
  }

  /** What the added cell holds: the `修改` button for the fund. */
  function ShareButton(code: string, color: string): Frag {
    Wrap("button", [("class", "shares-button"), ("id", "sharesBtn_" + code),
                    ("onclick", "openSharesModal('" + code + "')"), ("style", ButtonStyle(color))],
         [Chars("修改")])
  }

  /** One matched row: with a code, the button cell goes in before the closing `</tr>`. */
  function WithButton(row: seq<Tok>, shares: map<string, Option<Num>>): (r: seq<Tok>)
    ensures CodeOf(row).None? ==> r == row
    ensures CodeOf(row).Some? ==> (
      var c := CodeOf(row).value;
      |r| > |row| && r[..|row| - 1] == row[..|row| - 1] && r[|r| - 1] == Close("tr")
      && r[|row| - 1..|r| - 1] == Wrap("td", [], ShareButton(c, ButtonColor(c, shares))))
  {
    match CodeOf(row)
    case None => row
    case Some(c) => row[..|row| - 1] + Wrap("td", [], ShareButton(c, ButtonColor(c, shares))) + [Close("tr")]
  }

  /** The `re.sub` over `<tr>.*?</tr>` with replacement `f`: each bare `<tr>` up to its first
      `</tr>` is one row; an unclosed `<tr>` and everything after it are left alone. */
  function RewriteRows(toks: seq<Tok>, f: seq<Tok> -> seq<Tok>): (r: seq<Tok>)
    ensures NoOpen(toks, "tr") ==> r == toks
    decreases |toks|
  {
    if |toks| == 0 then []
    else if toks[0] == Open("tr", []) then
      var j := CloseAt(toks, "tr", 1);
      if j == |toks| then toks
      else f(toks[..j + 1]) + RewriteRows(toks[j + 1..], f)
    else
      assert NoOpen(toks, "tr") ==> NoOpen(toks[1..], "tr") by {
        assert forall k :: 0 <= k < |toks| - 1 ==> toks[1..][k] == toks[k + 1];
      }
      [toks[0]] + RewriteRows(toks[1..], f)
  }

  function Buttons(shares: map<string, Option<Num>>): seq<Tok> -> seq<Tok> {
    row => WithButton(row, shares)
  }

  /** The row rewrite with the share buttons; markup without a row is left as it is. */
  function AddButtons(toks: seq<Tok>, shares: map<string, Option<Num>>): (r: seq<Tok>)
    ensures NoOpen(toks, "tr") ==> r == toks
  {
    RewriteRows(toks, Buttons(shares))
  }

  const Panels: seq<Tok> := [Block("file-operations"), Block("operations-panel"), Block("add-fund-input")]

  /** `enhance_fund_tab_content(content, shares_map)`: the fixed panels around the rewritten
      content; `None` for the map is the empty map. Content with neither a `近30天` header
      nor a row comes through unchanged between the panels. */
  function EnhanceFundTab(content: seq<Tok>, shares: map<string, Option<Num>>): (r: seq<Tok>)
    ensures |r| >= 4 && r[..3] == Panels && r[|r| - 1] == Block("fund-details-summary")
    ensures (forall i: nat :: !MonthHeaderAt(content, i)) && NoOpen(content, "tr") ==> r[3..|r| - 1] == content
  {
    var body := AddButtons(InsertSharesHeader(content), shares);
    var r := Panels + body + [Block("fund-details-summary")];
    assert r[3..|r| - 1] == body;
    r
  }

  // ---------------------------------------------------------------- on a serialised table

  /** The code a cell value is: six digits of text and nothing else. */
  function CellCode(c: Frag): (r: Option<string>)
    ensures r.Some? <==> |c| == 1 && c[0].Chars? && SixDigits(c[0].text)
    ensures r.Some? ==> r.value == c[0].text
  {
    if |c| == 1 && c[0].Chars? && SixDigits(c[0].text) then Some(c[0].text) else None
  }

  /** The code a row of values carries: its first cell that is a code. */
  function RowCode(cells: seq<Frag>): (r: Option<string>)
    ensures r.Some? ==> exists k :: 0 <= k < |cells| && CellCode(cells[k]) == r
    ensures r.None? ==> forall k :: 0 <= k < |cells| ==> CellCode(cells[k]).None?
    decreases |cells|
  {
    if |cells| == 0 then None
    else if CellCode(cells[0]).Some? then CellCode(cells[0])
    else
      var r := RowCode(cells[1..]);
      assert forall k :: 1 <= k < |cells| ==> cells[k] == cells[1..][k - 1];
      r
  }

  /** The values of a row once the button is added: one more cell exactly when it has a code. */
  function WithButtonCell(cells: seq<Frag>, shares: map<string, Option<Num>>): (r: seq<Frag>)
    ensures RowCode(cells).None? ==> r == cells
    ensures RowCode(cells).Some? ==> (
      var c := RowCode(cells).value;
      r == cells + [ShareButton(c, ButtonColor(c, shares))])
  {
    match RowCode(cells)
    case None => cells
    case Some(c) => cells + [ShareButton(c, ButtonColor(c, shares))]
  }

  lemma {:induction false} CodeOfSkip(x: seq<Tok>, rest: seq<Tok>)
    requires NoOpen(x, "td")
    ensures CodeOf(x + rest) == CodeOf(rest)
    decreases |x|
  {
    if |x| > 0 {
      assert (x + rest)[0] == x[0] && !OpensTag(x[0], "td");
      assert (x + rest)[1..] == x[1..] + rest;
      assert NoOpen(x[1..], "td") by {
        assert forall k :: 0 <= k < |x| - 1 ==> x[1..][k] == x[k + 1];
      }
      CodeOfSkip(x[1..], rest);
    } else {
      assert x + rest == rest;
    }
  }

  /** A cell is matched as a code cell exactly when its value is a code; otherwise the
      search goes on after it. */
  lemma CodeOfCell(c: Frag, more: seq<Tok>)
    requires Phrasing(c)
    ensures CodeOf(Wrap("td", [], c) + more) == (if CellCode(c).Some? then CellCode(c) else CodeOf(more))
  {
    var s := Wrap("td", [], c) + more;
    if CellCode(c).None? {
      assert !CodeCellAt(s, 0) by {
        if |c| >= 2 {
          assert s[2] == c[1];
          assert !(c[1].Close? && TableTag(c[1].tag));
        } else if |c| == 0 {
          assert s[1] == Close("td");
        }
      }
      assert s[1..] == (c + [Close("td")]) + more;
      PhrasingFree(c, "td");
      NoOpenAppend(c, [Close("td")], "td");
      CodeOfSkip(c + [Close("td")], more);
    } else {
      assert CodeCellAt(s, 0);
    }
  }

  /** Scanning the cells of a row finds the first cell that is a code. */
  lemma {:induction false} CodeOfCells(cells: seq<Frag>, rest: seq<Tok>)
    requires AllPhrasing(cells) && NoOpen(rest, "td")
    ensures CodeOf(WrapAll("td", Plain(cells)) + rest) == RowCode(cells)
    decreases |cells|
  {
    if |cells| == 0 {
      assert WrapAll("td", Plain(cells)) == [];
      CodeOfSkip(rest, []);
      assert [] + rest == rest + [] == rest;
    } else {
      var tail := WrapAll("td", Plain(cells[1..]));
      assert Plain(cells)[1..] == Plain(cells[1..]);
      assert WrapAll("td", Plain(cells)) + rest == Wrap("td", [], cells[0]) + (tail + rest);
      assert AllPhrasing(cells[1..]) by {
        assert forall k :: 0 <= k < |cells| - 1 ==> cells[1..][k] == cells[k + 1];
      }
      CodeOfCells(cells[1..], rest);
      CodeOfCell(cells[0], tail + rest);
    }
  }

  /** The code found in a serialised row is the code its values carry. */
  lemma CodeOfRow(cells: seq<Frag>)
    requires AllPhrasing(cells)
    ensures CodeOf(Wrap("tr", [], WrapAll("td", Plain(cells)))) == RowCode(cells)
  {
    var w := WrapAll("td", Plain(cells));
    CodeOfCells(cells, [Close("tr")]);
    assert Wrap("tr", [], w) == [Open("tr", [])] + (w + [Close("tr")]);
    CodeOfSkip([Open("tr", [])], w + [Close("tr")]);
  }

  lemma WrapAllSnoc(tag: string, elems: seq<Elem>, e: Elem)
    ensures WrapAll(tag, elems + [e]) == WrapAll(tag, elems) + Wrap(tag, e.attrs, e.body)
    decreases |elems|
  {
    if |elems| == 0 {
      assert [] + [e] == [e];
    } else {
      assert (elems + [e])[1..] == elems[1..] + [e];
      WrapAllSnoc(tag, elems[1..], e);
    }
  }

  /** Adding one cell before the closing `</tr>` of a serialised row serialises the row's
      values with that value appended. */
  lemma AppendCell(cells: seq<Frag>, b: Frag)
    ensures (var row := Wrap("tr", [], WrapAll("td", Plain(cells)));
      row[..|row| - 1] + Wrap("td", [], b) + [Close("tr")] == Wrap("tr", [], WrapAll("td", Plain(cells + [b]))))
  {
    var w := WrapAll("td", Plain(cells));
    var row := Wrap("tr", [], w);
    assert Plain(cells + [b]) == Plain(cells) + [Elem([], b)];
    WrapAllSnoc("td", Plain(cells), Elem([], b));
    assert row[..|row| - 1] == [Open("tr", [])] + w;
  }

  /** On a row written by the table serialiser, the button rewrite adds the cell the row's
      values call for. */
  lemma WithButtonRow(cells: seq<Frag>, shares: map<string, Option<Num>>)
    requires AllPhrasing(cells)
    ensures WithButton(Wrap("tr", [], WrapAll("td", Plain(cells))), shares)
      == Wrap("tr", [], WrapAll("td", Plain(WithButtonCell(cells, shares))))
  {
    var row := Wrap("tr", [], WrapAll("td", Plain(cells)));
    CodeOfRow(cells);
    match RowCode(cells)
    case None =>
    case Some(c) =>
      var b := ShareButton(c, ButtonColor(c, shares));
      assert WithButton(row, shares) == row[..|row| - 1] + Wrap("td", [], b) + [Close("tr")];
      assert WithButtonCell(cells, shares) == cells + [b];
      AppendCell(cells, b);
  }

  /** Every bare `<tr>` the rewrite meets in `toks` is closed inside `toks`. */
  predicate RowsClosed(toks: seq<Tok>)
    decreases |toks|
  {
    if |toks| == 0 then true
    else if toks[0] == Open("tr", []) then
      var j := CloseAt(toks, "tr", 1);
      j < |toks| && RowsClosed(toks[j + 1..])
    else RowsClosed(toks[1..])
  }

  /** Rewriting a closed stream and then more markup rewrites the two parts one after the
      other. */
  lemma {:induction false} RewriteAppend(a: seq<Tok>, b: seq<Tok>, f: seq<Tok> -> seq<Tok>)
    requires RowsClosed(a)
    ensures RewriteRows(a + b, f) == RewriteRows(a, f) + RewriteRows(b, f)
    decreases |a|
  {
    if |a| == 0 {
      assert a + b == b;
    } else if a[0] == Open("tr", []) {
      var j := CloseAt(a, "tr", 1);
      RewriteAppend(a[j + 1..], b, f);
      RewriteRowFirst(a, b, f);
    } else {
      RewriteAppend(a[1..], b, f);
      RewriteOtherFirst(a, b, f);
    }
  }

  /** The step of `RewriteAppend` for a stream that starts with a closed row. */
  lemma RewriteRowFirst(a: seq<Tok>, b: seq<Tok>, f: seq<Tok> -> seq<Tok>)
    requires |a| > 0 && a[0] == Open("tr", []) && CloseAt(a, "tr", 1) < |a|
    requires (var j := CloseAt(a, "tr", 1);
      RewriteRows(a[j + 1..] + b, f) == RewriteRows(a[j + 1..], f) + RewriteRows(b, f))
    ensures RewriteRows(a + b, f) == RewriteRows(a, f) + RewriteRows(b, f)
  {
    var j := CloseAt(a, "tr", 1);
    RowStep(a, b);
    UnfoldRow(a, j, f);
    UnfoldRow(a + b, j, f);
    Regroup(RewriteRows(a + b, f), RewriteRows(a, f), RewriteRows(b, f),
      f(a[..j + 1]), RewriteRows(a[j + 1..], f), RewriteRows(a[j + 1..] + b, f));
  }

  /** The step of `RewriteAppend` for a stream that starts with anything but a row. */
  lemma RewriteOtherFirst(a: seq<Tok>, b: seq<Tok>, f: seq<Tok> -> seq<Tok>)
    requires |a| > 0 && a[0] != Open("tr", [])
    requires RewriteRows(a[1..] + b, f) == RewriteRows(a[1..], f) + RewriteRows(b, f)
    ensures RewriteRows(a + b, f) == RewriteRows(a, f) + RewriteRows(b, f)
  {
    TailOfAppend(a, b);
    UnfoldOther(a, f);
    UnfoldOther(a + b, f);
    Regroup(RewriteRows(a + b, f), RewriteRows(a, f), RewriteRows(b, f),
      [a[0]], RewriteRows(a[1..], f), RewriteRows(a[1..] + b, f));
  }

  lemma TailOfAppend(a: seq<Tok>, b: seq<Tok>)
    requires |a| > 0
    ensures (a + b)[0] == a[0] && (a + b)[1..] == a[1..] + b
  {
  }

  /** Regrouping a concatenation, stated on plain sequences so that no rewrite is unfolded. */
  lemma Regroup(whole: seq<Tok>, left: seq<Tok>, right: seq<Tok>, x: seq<Tok>, y: seq<Tok>, z: seq<Tok>)
    requires whole == x + z && z == y + right && left == x + y
    ensures whole == left + right
  {
  }

  /** One step of the rewrite on a stream that starts with a closed row. */
  lemma UnfoldRow(t: seq<Tok>, j: nat, f: seq<Tok> -> seq<Tok>)
    requires |t| > 0 && t[0] == Open("tr", []) && j == CloseAt(t, "tr", 1) < |t|
    ensures RewriteRows(t, f) == f(t[..j + 1]) + RewriteRows(t[j + 1..], f)
  {
  }

  /** One step of the rewrite on a stream that starts with anything but a row. */
  lemma UnfoldOther(t: seq<Tok>, f: seq<Tok> -> seq<Tok>)
    requires |t| > 0 && t[0] != Open("tr", [])
    ensures RewriteRows(t, f) == [t[0]] + RewriteRows(t[1..], f)
  {
  }

  /** Two streams whose rows are closed make one whose rows are closed. */
  lemma {:induction false} RowsClosedAppend(a: seq<Tok>, b: seq<Tok>)
    requires RowsClosed(a) && RowsClosed(b)
    ensures RowsClosed(a + b)
    decreases |a|
  {
    if |a| == 0 {
      assert a + b == b;
    } else if a[0] == Open("tr", []) {
      var j := CloseAt(a, "tr", 1);
      assert j < |a| && RowsClosed(a[j + 1..]);
      RowStep(a, b);
      RowsClosedAppend(a[j + 1..], b);
      var ab := a + b;
      assert ab[0] == Open("tr", []) && CloseAt(ab, "tr", 1) == j && ab[j + 1..] == a[j + 1..] + b;
      assert j < |ab| && RowsClosed(ab[j + 1..]);
    } else {
      assert RowsClosed(a[1..]);
      var ab := a + b;
      assert ab[0] == a[0];
      assert ab[1..] == a[1..] + b;
      RowsClosedAppend(a[1..], b);
      assert RowsClosed(ab[1..]);
    }
  }

  /** A row closed inside `a` is closed at the same place in `a + b`. */
  lemma RowStep(a: seq<Tok>, b: seq<Tok>)
    requires |a| > 0 && a[0] == Open("tr", []) && CloseAt(a, "tr", 1) < |a|
    ensures var j := CloseAt(a, "tr", 1);
      (a + b)[0] == a[0] && CloseAt(a + b, "tr", 1) == j
      && (a + b)[..j + 1] == a[..j + 1] && (a + b)[j + 1..] == a[j + 1..] + b
  {
    CloseAtAppend(a, b, "tr", 1);
    var j := CloseAt(a, "tr", 1);
    assert (a + b)[..j + 1] == a[..j + 1];
    assert (a + b)[j + 1..] == a[j + 1..] + b;
  }

  /** Markup holding no row passes through unchanged. */
  lemma {:induction false} RewriteNone(x: seq<Tok>, f: seq<Tok> -> seq<Tok>)
    requires NoOpen(x, "tr")
    ensures RewriteRows(x, f) == x && RowsClosed(x)
    decreases |x|
  {
    if |x| > 0 {
      assert !OpensTag(x[0], "tr");
      assert NoOpen(x[1..], "tr") by {
        assert forall k :: 0 <= k < |x| - 1 ==> x[1..][k] == x[k + 1];
      }
      RewriteNone(x[1..], f);
      assert x == [x[0]] + x[1..];
    }
  }

  /** An element other than a row is rewritten inside. */
  lemma RewriteOther(outer: string, attrs: Attrs, body: seq<Tok>, f: seq<Tok> -> seq<Tok>)
    requires outer != "tr" && RowsClosed(body)
    ensures RewriteRows(Wrap(outer, attrs, body), f) == Wrap(outer, attrs, RewriteRows(body, f))
    ensures RowsClosed(Wrap(outer, attrs, body))
  {
    var w := Wrap(outer, attrs, body);
    RewriteNone([Close(outer)], f);
    RewriteAppend(body, [Close(outer)], f);
    RowsClosedAppend(body, [Close(outer)]);
    assert w[0] == Open(outer, attrs) && w[1..] == body + [Close(outer)];
  }

  /** A closed row is replaced as a whole. */
  lemma RewriteRow(body: seq<Tok>, f: seq<Tok> -> seq<Tok>)
    requires NoClose(body, "tr")
    ensures RewriteRows(Wrap("tr", [], body), f) == f(Wrap("tr", [], body))
    ensures RowsClosed(Wrap("tr", [], body))
  {
    var s := Wrap("tr", [], body);
    var j := CloseAt(s, "tr", 1);
    assert s[|body| + 1] == Close("tr");
    assert forall k :: 1 <= k < |body| + 1 ==> s[k] == body[k - 1];
    assert j == |body| + 1;
    assert s[..j + 1] == s;
    assert s[j + 1..] == [];
  }

  function ExtendedRows(data: seq<seq<Frag>>, shares: map<string, Option<Num>>): (r: seq<seq<Frag>>)
    ensures |r| == |data|
    ensures forall k :: 0 <= k < |r| ==> r[k] == WithButtonCell(data[k], shares)
  {
    seq(|data|, k requires 0 <= k < |data| => WithButtonCell(data[k], shares))
  }

  /** One body row, rewritten. */
  lemma ButtonsBodyRow(cells: seq<Frag>, shares: map<string, Option<Num>>)
    requires AllPhrasing(cells)
    ensures RewriteRows(Wrap("tr", [], Row(cells).body), Buttons(shares))
      == Wrap("tr", [], Row(WithButtonCell(cells, shares)).body)
    ensures RowsClosed(Wrap("tr", [], Row(cells).body))
  {
    PlainFree(cells, "tr");
    WrapAllNoClose("td", Plain(cells), "tr");
    RewriteRow(Row(cells).body, Buttons(shares));
    WithButtonRow(cells, shares);
  }

  lemma RowsTail(data: seq<seq<Frag>>)
    requires |data| > 0
    ensures WrapAll("tr", RowElems(data)) == Wrap("tr", [], Row(data[0]).body) + WrapAll("tr", RowElems(data[1..]))
  {
    assert RowElems(data)[1..] == RowElems(data[1..]);
  }

  lemma ExtendedTail(data: seq<seq<Frag>>, shares: map<string, Option<Num>>)
    requires |data| > 0
    ensures ExtendedRows(data, shares)[1..] == ExtendedRows(data[1..], shares)
  {
  }

  /** The rows of a table body, rewritten one by one. */
  lemma {:induction false} ButtonsRows(data: seq<seq<Frag>>, shares: map<string, Option<Num>>)
    requires forall k :: 0 <= k < |data| ==> AllPhrasing(data[k])
    ensures RewriteRows(WrapAll("tr", RowElems(data)), Buttons(shares))
      == WrapAll("tr", RowElems(ExtendedRows(data, shares)))
    ensures RowsClosed(WrapAll("tr", RowElems(data)))
    decreases |data|
  {
    if |data| > 0 {
      var ext := ExtendedRows(data, shares);
      RowsTail(data);
      RowsTail(ext);
      ExtendedTail(data, shares);
      var head := Wrap("tr", [], Row(data[0]).body);
      ButtonsBodyRow(data[0], shares);
      ButtonsRows(data[1..], shares);
      RewriteAppend(head, WrapAll("tr", RowElems(data[1..])), Buttons(shares));
      RowsClosedAppend(head, WrapAll("tr", RowElems(data[1..])));
    }
  }

  /** The header row holds no `td` cell, so no code. */
  lemma HeaderRowNoCode(title: seq<Frag>, sortable: seq<nat>)
    requires AllPhrasing(title)
    ensures CodeOf(Wrap("tr", [], WrapAll("th", HeaderElems(title, sortable)))) == None
  {
    var hs := HeaderElems(title, sortable);
    var hrow := WrapAll("th", hs);
    HeadersFree(title, sortable, "td");
    WrapAllNoOpen("th", hs, "td");
    NoOpenAppend([Open("tr", [])], hrow, "td");
    CodeOfSkip([Open("tr", [])] + hrow, [Close("tr")]);
    assert Wrap("tr", [], hrow) == ([Open("tr", [])] + hrow) + [Close("tr")];
  }

  /** The header row is kept as it is. */
  lemma HeaderRowKept(title: seq<Frag>, sortable: seq<nat>, shares: map<string, Option<Num>>)
    requires AllPhrasing(title)
    ensures RewriteRows(HeadPart(title, sortable), Buttons(shares)) == HeadPart(title, sortable)
    ensures RowsClosed(HeadPart(title, sortable))
  {
    var hs := HeaderElems(title, sortable);
    var hrow := WrapAll("th", hs);
    HeadersFree(title, sortable, "tr");
    WrapAllNoClose("th", hs, "tr");
    RewriteRow(hrow, Buttons(shares));
    HeaderRowNoCode(title, sortable);
    RewriteOther("thead", [], Wrap("tr", [], hrow), Buttons(shares));
  }

  /** On a table written by `get_table_html`, the button rewrite gives the same table with one
      more cell, the share button coloured by the holding, on every row that has a code; the
      header row has none and is kept. */
  lemma ButtonsOnTable(title: seq<Frag>, data: seq<seq<Frag>>, sortable: seq<nat>,
                       shares: map<string, Option<Num>>)
    requires CleanTable(title, data)
    ensures AddButtons(TableHtml(title, data, sortable), shares)
      == TableHtml(title, ExtendedRows(data, shares), sortable)
  {
    var f := Buttons(shares);
    var head := HeadPart(title, sortable);
    HeaderRowKept(title, sortable, shares);
    ButtonsRows(data, shares);
    RewriteOther("tbody", [], WrapAll("tr", RowElems(data)), f);
    RewriteAppend(head, BodyPart(data), f);
    RowsClosedAppend(head, BodyPart(data));
    var inner := head + BodyPart(data);
    RewriteOther("table", [("class", "style-table")], inner, f);
    RewriteOther("div", ContainerAttrs, Wrap("table", [("class", "style-table")], inner), f);
    TableParts(title, data, sortable);
    TableParts(title, ExtendedRows(data, shares), sortable);
  }
}
