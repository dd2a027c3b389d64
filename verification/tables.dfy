/** The table serialisers: `get_result_html` and `get_tbody` of module_html.py and
    `get_table_html` of src/module_html.py. A cell value is the markup `str(x)` produces,
    written into the page as it is (none of the three escapes it). */
module HtmlTables {
  import opened Text
  import opened Markup

  type Frag = seq<Tok>

  /** The tags the table serialisers write themselves. */
  predicate TableTag(t: string) {
    t == "table" || t == "thead" || t == "thread" || t == "tbody" || t == "tr" || t == "th"
    || t == "td" || t == "div"
  }

  /** A cell value holding no table markup of its own (text, spans, links). */
  predicate Phrasing(f: Frag) {
    forall k :: 0 <= k < |f| ==> !((f[k].Open? || f[k].Close?) && TableTag(f[k].tag))
  }

  lemma PhrasingFree(f: Frag, t: string)
    requires Phrasing(f) && TableTag(t)
    ensures NoOpen(f, t) && NoClose(f, t)
  {
  }

  predicate AllPhrasing(fs: seq<Frag>) {
    forall k :: 0 <= k < |fs| ==> Phrasing(fs[k])
  }

  /** Plain elements, one per value. */
  function Plain(fs: seq<Frag>): (r: seq<Elem>)
    ensures |r| == |fs|
    ensures forall k :: 0 <= k < |r| ==> r[k] == Elem([], fs[k])
  {
    seq(|fs|, k requires 0 <= k < |fs| => Elem([], fs[k]))
  }

  lemma PlainFree(fs: seq<Frag>, t: string)
    requires AllPhrasing(fs) && TableTag(t)
    ensures BodiesClosed(Plain(fs), t) && BodiesOpenFree(Plain(fs), t) && BodiesCloseFree(Plain(fs), t)
  {
  }

  // ---------------------------------------------------------------- module_html.py

  /** `get_result_html(title)`: the header cells, then an empty body holding the literal
      placeholder `{tbody}` for a later `format`. The header group is written `thread`. */
  function ResultHtml(title: seq<Frag>): (r: seq<Tok>)
    ensures Texts(r) == TextsOf(title) + ["{tbody}"]
  {
    TextsWrapAll("th", Plain(title));
    assert Bodies(Plain(title)) == title;
    ShowsWrapped(title);
    Wrap("table", [("class", "style-table")],
      Wrap("thread", [], Wrap("tr", [], WrapAll("th", Plain(title))))
      + Wrap("tbody", [], [Chars("{tbody}")]))
  }

  /** The text shown by the header group and the placeholder body of `get_result_html`. */
  lemma ShowsWrapped(title: seq<Frag>)
    requires Texts(WrapAll("th", Plain(title))) == TextsOf(title)
    ensures Texts(Wrap("table", [("class", "style-table")],
      Wrap("thread", [], Wrap("tr", [], WrapAll("th", Plain(title))))
      + Wrap("tbody", [], [Chars("{tbody}")]))) == TextsOf(title) + ["{tbody}"]
  {
    var ths := WrapAll("th", Plain(title));
    var head := Wrap("thread", [], Wrap("tr", [], ths));
    var body := Wrap("tbody", [], [Chars("{tbody}")]);
    TextsWrap("tr", [], ths);
    TextsWrap("thread", [], Wrap("tr", [], ths));
    TextsWrap("tbody", [], [Chars("{tbody}")]);
    assert Texts([Chars("{tbody}")]) == ["{tbody}"];
    TextsAppend(head, body);
    TextsWrap("table", [("class", "style-table")], head + body);
  }

  /** One header cell per title entry, in order. */
  lemma ResultHeaders(title: seq<Frag>)
    requires AllPhrasing(title)
    ensures Elements(ResultHtml(title), "th") == Plain(title)
  {
    var ths := Plain(title);
    PlainFree(title, "th");
    ElementsWrapAll("th", ths);
    ElementsOther("tr", [], WrapAll("th", ths), "th");
    var head := Wrap("thread", [], Wrap("tr", [], WrapAll("th", ths)));
    ElementsOther("thread", [], Wrap("tr", [], WrapAll("th", ths)), "th");
    var body := Wrap("tbody", [], [Chars("{tbody}")]);
    ElementsNone(body, "th");
    ElementsAppend(head, body, "th");
    ElementsOther("table", [("class", "style-table")], head + body, "th");
    assert ths + [] == ths;
  }

  /** The body holds the `{tbody}` placeholder and nothing else. */
  lemma ResultPlaceholder(title: seq<Frag>)
    requires AllPhrasing(title)
    ensures Elements(ResultHtml(title), "tbody") == [Elem([], [Chars("{tbody}")])]
  {
    var ths := Plain(title);
    PlainFree(title, "tbody");
    WrapAllNoOpen("th", ths, "tbody");
    var head := Wrap("thread", [], Wrap("tr", [], WrapAll("th", ths)));
    NoOpenAppend([Open("thread", []), Open("tr", [])] + WrapAll("th", ths), [Close("tr"), Close("thread")], "tbody");
    NoOpenAppend([Open("thread", []), Open("tr", [])], WrapAll("th", ths), "tbody");
    assert head == [Open("thread", []), Open("tr", [])] + WrapAll("th", ths) + [Close("tr"), Close("thread")];
    ElementsNone(head, "tbody");
    var body := Wrap("tbody", [], [Chars("{tbody}")]);
    ElementsSame("tbody", [], [Chars("{tbody}")]);
    ElementsAppend(head, body, "tbody");
    ElementsOther("table", [("class", "style-table")], head + body, "tbody");
  }

  /** `get_tbody(data)`: one row of data cells. */
  function Tbody(data: seq<Frag>): (r: seq<Tok>)
    ensures Texts(r) == TextsOf(data)
  {
    TextsWrapAll("td", Plain(data));
    assert Bodies(Plain(data)) == data;
    TextsWrap("tr", [], WrapAll("td", Plain(data)));
    Wrap("tr", [], WrapAll("td", Plain(data)))
  }

  /** One data cell per element, in order. */
  lemma TbodyCells(data: seq<Frag>)
    requires AllPhrasing(data)
    ensures Elements(Tbody(data), "td") == Plain(data)
  {
    PlainFree(data, "td");
    ElementsWrapAll("td", Plain(data));
    ElementsOther("tr", [], WrapAll("td", Plain(data)), "td");
  }

  /** The cells sit in one single row. */
  lemma TbodySingleRow(data: seq<Frag>)
    requires AllPhrasing(data)
    ensures Elements(Tbody(data), "tr") == [Elem([], WrapAll("td", Plain(data)))]
  {
    PlainFree(data, "tr");
    WrapAllNoClose("td", Plain(data), "tr");
    ElementsSame("tr", [], WrapAll("td", Plain(data)));
  }

  // ---------------------------------------------------------------- get_table_html

  /** The attributes of header `i`: sortable columns get the class and the click handler that
      sorts by that column index. */
  function SortAttrs(i: nat, sortable: seq<nat>): (a: Attrs)
    ensures |a| > 0 <==> i in sortable
    ensures i in sortable ==> (
      a == [("class", "sortable"), ("onclick", "sortTable(this.closest('table'), " + NatToString(i) + ")")])
  {
    if i in sortable then [("class", "sortable"), ("onclick", "sortTable(this.closest('table'), " + NatToString(i) + ")")]
    else []
  }

  function HeaderElems(title: seq<Frag>, sortable: seq<nat>): (r: seq<Elem>)
    ensures |r| == |title|
  {
    seq(|title|, i requires 0 <= i < |title| => Elem(SortAttrs(i, sortable), title[i]))
  }

  function Row(cells: seq<Frag>): Elem {
    Elem([], WrapAll("td", Plain(cells)))
  }

  function RowElems(data: seq<seq<Frag>>): (r: seq<Elem>)
    ensures |r| == |data|
  {
    seq(|data|, k requires 0 <= k < |data| => Row(data[k]))
  }

  const ContainerAttrs: Attrs := [("class", "table-container")]

  /** `get_table_html(title, data, sortable_columns)`; `None` for the columns is the empty list. */
  function TableHtml(title: seq<Frag>, data: seq<seq<Frag>>, sortable: seq<nat>): (r: seq<Tok>)
    ensures Texts(r) == TextsOf(title) + CellTexts(data)
  {
    HeadShows(title, sortable);
    BodyShows(data);
    TextsAppend(HeadPart(title, sortable), BodyPart(data));
    TextsWrap("table", [("class", "style-table")], HeadPart(title, sortable) + BodyPart(data));
    TextsWrap("div", ContainerAttrs, Wrap("table", [("class", "style-table")], HeadPart(title, sortable) + BodyPart(data)));
    Wrap("div", ContainerAttrs,
      Wrap("table", [("class", "style-table")],
        Wrap("thead", [], Wrap("tr", [], WrapAll("th", HeaderElems(title, sortable))))
        + Wrap("tbody", [], WrapAll("tr", RowElems(data)))))
  }

  predicate CleanTable(title: seq<Frag>, data: seq<seq<Frag>>) {
    AllPhrasing(title) && forall k :: 0 <= k < |data| ==> AllPhrasing(data[k])
  }

  /** The header row and the body of the table. */
  function HeadPart(title: seq<Frag>, sortable: seq<nat>): seq<Tok> {
    Wrap("thead", [], Wrap("tr", [], WrapAll("th", HeaderElems(title, sortable))))
  }

  function BodyPart(data: seq<seq<Frag>>): seq<Tok> {
    Wrap("tbody", [], WrapAll("tr", RowElems(data)))
  }

  /** The texts of every cell, row by row. */
  function CellTexts(data: seq<seq<Frag>>): seq<string>
    decreases |data|
  {
    if |data| == 0 then [] else TextsOf(data[0]) + CellTexts(data[1..])
  }

  /** The header row shows the titles, in order. */
  lemma HeadShows(title: seq<Frag>, sortable: seq<nat>)
    ensures Texts(HeadPart(title, sortable)) == TextsOf(title)
  {
    var hs := HeaderElems(title, sortable);
    TextsWrapAll("th", hs);
    assert Bodies(hs) == title;
    TextsWrap("tr", [], WrapAll("th", hs));
    TextsWrap("thead", [], Wrap("tr", [], WrapAll("th", hs)));
  }

  /** The body shows every cell, row by row. */
  lemma BodyShows(data: seq<seq<Frag>>)
    ensures Texts(BodyPart(data)) == CellTexts(data)
  {
    TextsWrapAll("tr", RowElems(data));
    RowsShowCells(data);
    TextsWrap("tbody", [], WrapAll("tr", RowElems(data)));
  }

  lemma {:induction false} RowsShowCells(data: seq<seq<Frag>>)
    ensures TextsOf(Bodies(RowElems(data))) == CellTexts(data)
    decreases |data|
  {
    if |data| > 0 {
      var b := Bodies(RowElems(data));
      assert b[0] == WrapAll("td", Plain(data[0]));
      TextsWrapAll("td", Plain(data[0]));
      assert Bodies(Plain(data[0])) == data[0];
      assert b[1..] == Bodies(RowElems(data[1..]));
      RowsShowCells(data[1..]);
    }
  }

  lemma TableParts(title: seq<Frag>, data: seq<seq<Frag>>, sortable: seq<nat>)
    ensures TableHtml(title, data, sortable)
      == Wrap("div", ContainerAttrs, Wrap("table", [("class", "style-table")], HeadPart(title, sortable) + BodyPart(data)))
  {
  }

  /** Header bodies are the titles, free of table markup. */
  lemma HeadersFree(title: seq<Frag>, sortable: seq<nat>, t: string)
    requires AllPhrasing(title) && TableTag(t)
    ensures BodiesClosed(HeaderElems(title, sortable), t)
    ensures BodiesOpenFree(HeaderElems(title, sortable), t)
  {
    var hs := HeaderElems(title, sortable);
    forall i | 0 <= i < |hs|
      ensures NoClose(hs[i].body, t) && NoOpen(hs[i].body, t)
    {
      PhrasingFree(title[i], t);
    }
  }

  /** Row bodies are cells of phrasing values: free of every table tag but `td`. */
  lemma RowsFree(data: seq<seq<Frag>>, t: string)
    requires (forall k :: 0 <= k < |data| ==> AllPhrasing(data[k])) && TableTag(t) && t != "td"
    ensures BodiesClosed(RowElems(data), t) && BodiesOpenFree(RowElems(data), t)
  {
    var rows := RowElems(data);
    forall k | 0 <= k < |rows|
      ensures NoClose(rows[k].body, t) && NoOpen(rows[k].body, t)
    {
      PlainFree(data[k], t);
      WrapAllNoClose("td", Plain(data[k]), t);
      WrapAllNoOpen("td", Plain(data[k]), t);
    }
  }

  /** One header per title, in order, and a header is sortable (class and handler for its own
      index) exactly when its index is listed. */
  lemma TableHeaders(title: seq<Frag>, data: seq<seq<Frag>>, sortable: seq<nat>)
    requires CleanTable(title, data)
    ensures Elements(TableHtml(title, data, sortable), "th") == HeaderElems(title, sortable)
    ensures forall i :: 0 <= i < |title| ==> (
      HeaderElems(title, sortable)[i].body == title[i]
      && (HeaderElems(title, sortable)[i].attrs != [] <==> i in sortable))
  {
    var hs := HeaderElems(title, sortable);
    HeadersFree(title, sortable, "th");
    ElementsWrapAll("th", hs);
    ElementsOther("tr", [], WrapAll("th", hs), "th");
    ElementsOther("thead", [], Wrap("tr", [], WrapAll("th", hs)), "th");
    RowsFree(data, "th");
    WrapAllNoOpen("tr", RowElems(data), "th");
    ElementsNone(WrapAll("tr", RowElems(data)), "th");
    ElementsOther("tbody", [], WrapAll("tr", RowElems(data)), "th");
    ElementsAppend(HeadPart(title, sortable), BodyPart(data), "th");
    var inner := HeadPart(title, sortable) + BodyPart(data);
    ElementsOther("table", [("class", "style-table")], inner, "th");
    ElementsOther("div", ContainerAttrs, Wrap("table", [("class", "style-table")], inner), "th");
    TableParts(title, data, sortable);
    assert hs + [] == hs;
  }

  /** The rows: the header row first, then one row per data row in input order. */
  lemma TableRows(title: seq<Frag>, data: seq<seq<Frag>>, sortable: seq<nat>)
    requires CleanTable(title, data)
    ensures Elements(TableHtml(title, data, sortable), "tr")
      == [Elem([], WrapAll("th", HeaderElems(title, sortable)))] + RowElems(data)
  {
    var hs := HeaderElems(title, sortable);
    HeadersFree(title, sortable, "tr");
    WrapAllNoClose("th", hs, "tr");
    ElementsSame("tr", [], WrapAll("th", hs));
    ElementsOther("thead", [], Wrap("tr", [], WrapAll("th", hs)), "tr");
    RowsFree(data, "tr");
    ElementsWrapAll("tr", RowElems(data));
    ElementsOther("tbody", [], WrapAll("tr", RowElems(data)), "tr");
    ElementsAppend(HeadPart(title, sortable), BodyPart(data), "tr");
    var inner := HeadPart(title, sortable) + BodyPart(data);
    ElementsOther("table", [("class", "style-table")], inner, "tr");
    ElementsOther("div", ContainerAttrs, Wrap("table", [("class", "style-table")], inner), "tr");
    TableParts(title, data, sortable);
  }

  /** The cells of a body row read back as the row's values, in order. */
  lemma RowCells(cells: seq<Frag>)
    requires AllPhrasing(cells)
    ensures Elements(Row(cells).body, "td") == Plain(cells)
  {
    PlainFree(cells, "td");
    ElementsWrapAll("td", Plain(cells));
  }

  /** Everything sits inside the single `table-container` division. */
  lemma TableContainer(title: seq<Frag>, data: seq<seq<Frag>>, sortable: seq<nat>)
    requires CleanTable(title, data)
    ensures Elements(TableHtml(title, data, sortable), "div")
      == [Elem(ContainerAttrs, Wrap("table", [("class", "style-table")], HeadPart(title, sortable) + BodyPart(data)))]
  {
    var hs := HeaderElems(title, sortable);
    HeadersFree(title, sortable, "div");
    WrapAllNoClose("th", hs, "div");
    RowsFree(data, "div");
    WrapAllNoClose("tr", RowElems(data), "div");
    var head := HeadPart(title, sortable);
    var body := BodyPart(data);
    assert NoClose(head, "div") by {
      NoCloseAppend([Open("tr", [])], WrapAll("th", hs), "div");
      NoCloseAppend([Open("tr", [])] + WrapAll("th", hs), [Close("tr")], "div");
      NoCloseAppend([Open("thead", [])], Wrap("tr", [], WrapAll("th", hs)), "div");
      NoCloseAppend([Open("thead", [])] + Wrap("tr", [], WrapAll("th", hs)), [Close("thead")], "div");
    }
    assert NoClose(body, "div") by {
      NoCloseAppend([Open("tbody", [])], WrapAll("tr", RowElems(data)), "div");
      NoCloseAppend([Open("tbody", [])] + WrapAll("tr", RowElems(data)), [Close("tbody")], "div");
    }
    var table := Wrap("table", [("class", "style-table")], head + body);
    assert NoClose(table, "div") by {
      NoCloseAppend(head, body, "div");
      NoCloseAppend([Open("table", [("class", "style-table")])], head + body, "div");
      NoCloseAppend([Open("table", [("class", "style-table")])] + (head + body), [Close("table")], "div");
    }
    ElementsSame("div", ContainerAttrs, table);
    TableParts(title, data, sortable);
  }
}
