/** The fund list pages of src/module_html.py: one fund row (`generate_fund_row_html`), the
    holdings and watchlist sections that split the fund map by `is_hold`, the sidebar of
    section icons, and the tabs of `get_full_page_html`. */
module FundPage {
  import opened Common
  import opened Text
  import opened Escape
  import opened Markup
  import opened FundTab

  // ---------------------------------------------------------------- one fund row

  /** A `fund_map` entry; an absent key is `None` and reads as its `.get` default. The
      shares value is kept as the text `str()` gives for it. */
  datatype FundData = FundData(
    name: Option<string>, sectors: Option<seq<string>>, shares: Option<string>, isHold: Option<bool>)

  function Name(d: FundData): string { d.name.GetOr("") }
  function Sectors(d: FundData): seq<string> { d.sectors.GetOr([]) }
  function SharesText(d: FundData): string { d.shares.GetOr("0") }
  function IsHeld(d: FundData): bool { d.isHold.GetOr(false) }

  const HoldAttrs: Attrs := [("class", "tag tag-hold")]
  const HoldText := "持有"
  const SectorAttrs: Attrs := [("style", "color: #8b949e; font-size: 12px;")]
  const SectorPrefix := "板块: "
  const LabelAttrs: Attrs := [("class", "metric-label")]
  const SharesLabel := "持仓份额"
  const SharesBoxAttrs: Attrs := [("class", "metric metric-shares")]
  const CodeAttrs: Attrs := [("class", "fund-code")]
  const NameAttrs: Attrs := [("class", "fund-name")]
  const CodeNameAttrs: Attrs := [("class", "fund-code-name")]
  const TagsAttrs: Attrs := [("class", "fund-tags")]
  const InfoAttrs: Attrs := [("class", "fund-info")]
  const MainAttrs: Attrs := [("class", "fund-row-main")]
  const ActionsAttrs: Attrs := [("class", "fund-row-actions")]
  const ExpandTitle := "展开/收起"
  const ExpandMark := "▼"

  function SectorText(d: FundData): string {
    SectorPrefix + PyEscape(Join(Sectors(d), ", "))
  }

  function HoldTag(held: bool): seq<Tok> {
    if held then Wrap("span", HoldAttrs, [Chars(HoldText)]) else []
  }

  function SectorTag(d: FundData): seq<Tok> {
    if |Sectors(d)| > 0 then Wrap("span", SectorAttrs, [Chars(SectorText(d))]) else []
  }

  function InputAttrs(code: string, shares: string): Attrs {
    [("type", "number"), ("class", "shares-input"), ("id", "shares_" + code), ("value", shares),
     ("step", "0.01"), ("min", "0"), ("onchange", "updateShares('" + code + "', this.value)")]
  }

  /** The shares input, for a held fund only. */
  function SharesInput(code: string, d: FundData, held: bool): seq<Tok> {
    if held then
      Wrap("div", SharesBoxAttrs, Wrap("span", LabelAttrs, [Chars(SharesLabel)]) + [Open("input", InputAttrs(code, SharesText(d)))])
    else []
  }

  function CodeName(code: string, name: string): seq<Tok> {
    Wrap("div", CodeNameAttrs, Wrap("span", CodeAttrs, [Chars(code)]) + Wrap("span", NameAttrs, [Chars(name)]))
  }

  function Info(code: string, d: FundData, held: bool): seq<Tok> {
    Wrap("div", InfoAttrs, CodeName(code, PyEscape(Name(d))) + Wrap("div", TagsAttrs, HoldTag(held) + SectorTag(d)))
  }

  function Metrics(code: string, d: FundData, held: bool): seq<Tok> {
    Wrap("div", [("class", "fund-metrics"), ("id", "metrics_" + code)], [Block("metric-placeholders")] + SharesInput(code, d, held))
  }

  function ToggleAttrs(code: string): Attrs {
    [("class", "btn-icon"), ("onclick", "toggleFundExpand('" + code + "')"), ("title", ExpandTitle)]
  }

  function Actions(code: string): seq<Tok> {
    Wrap("div", ActionsAttrs, Wrap("button", ToggleAttrs(code), Wrap("span", [], [Chars(ExpandMark)])))
  }

  /** `generate_fund_row_html(fund_code, fund_data, is_held)`: code and name (escaped), the
      tags, the metric placeholders the page script fills in, the shares input of a held fund,
      and the expand button. */
  /** One fund row. What it shows: the escaped code and name, `持有` exactly for a held fund,
      the sector list when there is one, the shares label exactly for a held fund, and the
      expand mark. It has the shares input, carrying the escaped code and the shares, exactly
      when the fund is held, and no other input. */
  function FundRow(code: string, d: FundData, held: bool): (r: seq<Tok>)
    ensures Texts(r) == RowTexts(code, d, held)
    ensures Opens(r, "input") == if held then [InputAttrs(PyEscape(code), SharesText(d))] else []
  {
    var sc := PyEscape(code);
    var inner := Info(sc, d, held) + Metrics(sc, d, held);
    var main := Wrap("div", MainAttrs, inner);
    var rowAttrs := [("class", "fund-row"), ("data-code", sc)];
    InfoTexts(sc, d, held);
    MetricsTexts(sc, d, held);
    TextsAppend(Info(sc, d, held), Metrics(sc, d, held));
    TextsWrap("div", MainAttrs, inner);
    ActionsTexts(sc);
    TextsAppend(main, Actions(sc));
    TextsWrap("div", rowAttrs, main + Actions(sc));
    InfoInputs(sc, d, held);
    MetricsInputs(sc, d, held);
    OpensAppend(Info(sc, d, held), Metrics(sc, d, held), "input");
    OpensWrap("div", MainAttrs, inner, "input");
    ActionsInputs(sc);
    OpensAppend(main, Actions(sc), "input");
    OpensWrap("div", rowAttrs, main + Actions(sc), "input");
    Wrap("div", rowAttrs, main + Actions(sc))
  }

  /** The text a row shows, in order. */
  function RowTexts(code: string, d: FundData, held: bool): seq<string> {
    [PyEscape(code), PyEscape(Name(d))]
    + (if held then [HoldText] else [])
    + (if |Sectors(d)| > 0 then [SectorText(d)] else [])
    + (if held then [SharesLabel] else [])
    + [ExpandMark]
  }

  lemma CodeNameTexts(code: string, name: string)
    ensures Texts(CodeName(code, name)) == [code, name]
  {
    var a := Wrap("span", CodeAttrs, [Chars(code)]);
    var b := Wrap("span", NameAttrs, [Chars(name)]);
    TextsWrap("span", CodeAttrs, [Chars(code)]);
    TextsWrap("span", NameAttrs, [Chars(name)]);
    TextsAppend(a, b);
    TextsWrap("div", CodeNameAttrs, a + b);
  }

  lemma TagsTexts(d: FundData, held: bool)
    ensures Texts(Wrap("div", TagsAttrs, HoldTag(held) + SectorTag(d)))
      == (if held then [HoldText] else []) + (if |Sectors(d)| > 0 then [SectorText(d)] else [])
  {
    if held { TextsWrap("span", HoldAttrs, [Chars(HoldText)]); }
    if |Sectors(d)| > 0 { TextsWrap("span", SectorAttrs, [Chars(SectorText(d))]); }
    TextsAppend(HoldTag(held), SectorTag(d));
    TextsWrap("div", TagsAttrs, HoldTag(held) + SectorTag(d));
  }

  lemma InfoTexts(code: string, d: FundData, held: bool)
    ensures Texts(Info(code, d, held)) == [code, PyEscape(Name(d))]
      + (if held then [HoldText] else []) + (if |Sectors(d)| > 0 then [SectorText(d)] else [])
  {
    var n := PyEscape(Name(d));
    var tags := Wrap("div", TagsAttrs, HoldTag(held) + SectorTag(d));
    CodeNameTexts(code, n);
    TagsTexts(d, held);
    TextsAppend(CodeName(code, n), tags);
    TextsWrap("div", InfoAttrs, CodeName(code, n) + tags);
  }

  lemma MetricsTexts(code: string, d: FundData, held: bool)
    ensures Texts(Metrics(code, d, held)) == if held then [SharesLabel] else []
  {
    if held {
      var lbl := Wrap("span", LabelAttrs, [Chars(SharesLabel)]);
      var input := [Open("input", InputAttrs(code, SharesText(d)))];
      TextsWrap("span", LabelAttrs, [Chars(SharesLabel)]);
      TextsAppend(lbl, input);
      TextsWrap("div", SharesBoxAttrs, lbl + input);
    }
    TextsAppend([Block("metric-placeholders")], SharesInput(code, d, held));
    TextsWrap("div", [("class", "fund-metrics"), ("id", "metrics_" + code)], [Block("metric-placeholders")] + SharesInput(code, d, held));
  }

  lemma ActionsTexts(code: string)
    ensures Texts(Actions(code)) == [ExpandMark]
  {
    var s := Wrap("span", [], [Chars(ExpandMark)]);
    TextsWrap("span", [], [Chars(ExpandMark)]);
    TextsWrap("button", ToggleAttrs(code), s);
    TextsWrap("div", ActionsAttrs, Wrap("button", ToggleAttrs(code), s));
  }

  /** Every text a row shows is escaped, and the first two read back as the code and the name. */
  lemma FundRowEscaped(code: string, d: FundData, held: bool)
    ensures forall t :: t in RowTexts(code, d, held) ==> Inert(t)
    ensures Unescape(RowTexts(code, d, held)[0]) == code
    ensures Unescape(RowTexts(code, d, held)[1]) == Name(d)
  {
    RowTextsInert(code, d, held);
    assert RowTexts(code, d, held)[..2] == [PyEscape(code), PyEscape(Name(d))];
  }

  lemma RowTextsInert(code: string, d: FundData, held: bool)
    ensures InertAll(RowTexts(code, d, held))
  {
    var c, n := PyEscape(code), PyEscape(Name(d));
    FixedTextsInert();
    SectorTextInert(d);
    var a := [c, n];
    var b := if held then [HoldText] else [];
    var e := if |Sectors(d)| > 0 then [SectorText(d)] else [];
    var f := if held then [SharesLabel] else [];
    InertAllAppend(a, b);
    InertAllAppend(a + b, e);
    InertAllAppend(a + b + e, f);
    InertAllAppend(a + b + e + f, [ExpandMark]);
  }

  lemma FixedTextsInert()
    ensures Inert(HoldText) && Inert(SharesLabel) && Inert(ExpandMark)
  {
  }

  lemma SectorTextInert(d: FundData)
    ensures Inert(SectorText(d))
  {
    var sec := PyEscape(Join(Sectors(d), ", "));
    assert Inert(SectorPrefix);
    assert forall x :: x in SectorPrefix + sec ==> x in SectorPrefix || x in sec;
  }

  predicate InertAll(ts: seq<string>) {
    forall t :: t in ts ==> Inert(t)
  }

  lemma InertAllAppend(a: seq<string>, b: seq<string>)
    requires InertAll(a) && InertAll(b)
    ensures InertAll(a + b)
  {
  }

  lemma InfoInputs(code: string, d: FundData, held: bool)
    ensures Opens(Info(code, d, held), "input") == []
  {
    var n := PyEscape(Name(d));
    var a := Wrap("span", CodeAttrs, [Chars(code)]);
    var b := Wrap("span", NameAttrs, [Chars(n)]);
    OpensWrap("span", CodeAttrs, [Chars(code)], "input");
    OpensWrap("span", NameAttrs, [Chars(n)], "input");
    OpensAppend(a, b, "input");
    OpensWrap("div", CodeNameAttrs, a + b, "input");
    if held { OpensWrap("span", HoldAttrs, [Chars(HoldText)], "input"); }
    if |Sectors(d)| > 0 { OpensWrap("span", SectorAttrs, [Chars(SectorText(d))], "input"); }
    OpensAppend(HoldTag(held), SectorTag(d), "input");
    OpensWrap("div", TagsAttrs, HoldTag(held) + SectorTag(d), "input");
    OpensAppend(CodeName(code, n), Wrap("div", TagsAttrs, HoldTag(held) + SectorTag(d)), "input");
    OpensWrap("div", InfoAttrs, CodeName(code, n) + Wrap("div", TagsAttrs, HoldTag(held) + SectorTag(d)), "input");
  }

  lemma MetricsInputs(code: string, d: FundData, held: bool)
    ensures Opens(Metrics(code, d, held), "input") == if held then [InputAttrs(code, SharesText(d))] else []
  {
    if held {
      var lbl := Wrap("span", LabelAttrs, [Chars(SharesLabel)]);
      var input := [Open("input", InputAttrs(code, SharesText(d)))];
      OpensWrap("span", LabelAttrs, [Chars(SharesLabel)], "input");
      OpensAppend(lbl, input, "input");
      OpensWrap("div", SharesBoxAttrs, lbl + input, "input");
    }
    OpensAppend([Block("metric-placeholders")], SharesInput(code, d, held), "input");
    OpensWrap("div", [("class", "fund-metrics"), ("id", "metrics_" + code)], [Block("metric-placeholders")] + SharesInput(code, d, held), "input");
  }

  lemma ActionsInputs(code: string)
    ensures Opens(Actions(code), "input") == []
  {
    var s := Wrap("span", [], [Chars(ExpandMark)]);
    OpensWrap("span", [], [Chars(ExpandMark)], "input");
    OpensWrap("button", ToggleAttrs(code), s, "input");
    OpensWrap("div", ActionsAttrs, Wrap("button", ToggleAttrs(code), s), "input");
  }

  // ---------------------------------------------------------------- holdings and watchlist

  /** The funds of the map, in its order, whose `is_hold` is `held`. */
  function Part(funds: seq<(string, FundData)>, held: bool): (r: seq<(string, FundData)>)
    ensures forall x :: x in r <==> x in funds && IsHeld(x.1) == held
    ensures |r| <= |funds|
    decreases |funds|
  {
    if |funds| == 0 then []
    else
      var rest := Part(funds[1..], held);
      assert forall x :: x in funds <==> x == funds[0] || x in funds[1..];
      if IsHeld(funds[0].1) == held then [funds[0]] + rest else rest
  }

  /** The two sections split the map: every fund is in exactly one of them, and their sizes
      add up to the map's. */
  lemma {:induction false} PartsComplementary(funds: seq<(string, FundData)>)
    ensures multiset(Part(funds, true)) + multiset(Part(funds, false)) == multiset(funds)
    ensures |Part(funds, true)| + |Part(funds, false)| == |funds|
    ensures forall x :: x in funds ==> (x in Part(funds, true) <==> x !in Part(funds, false))
    decreases |funds|
  {
    if |funds| > 0 {
      PartsComplementary(funds[1..]);
      assert funds == [funds[0]] + funds[1..];
    }
  }

  datatype Section = Holdings | Watchlist {
    function Held(): bool { this == Holdings }
    function SectionId(): string { if Held() then "holdingsSection" else "watchlistSection" }
    function Icon(): string { if Held() then "H" else "W" }
    function Heading(): string { if Held() then "核心持仓" else "市场观察" }
    function CountId(): string { if Held() then "holdingsCount" else "watchlistCount" }
    function ContentId(): string { if Held() then "holdingsContent" else "watchlistContent" }
    function EmptyText(): string { if Held() then "暂无持仓基金" else "暂无观察基金" }
  }

  const EmptyAttrs: Attrs := [("class", "empty-state")]

  function CountText(n: nat): string { NatToString(n) + " 只基金" }

  function Rows(part: seq<(string, FundData)>, held: bool): seq<Tok>
    decreases |part|
  {
    if |part| == 0 then [] else FundRow(part[0].0, part[0].1, held) + Rows(part[1..], held)
  }

  function RowsTexts(part: seq<(string, FundData)>, held: bool): seq<string>
    decreases |part|
  {
    if |part| == 0 then [] else RowTexts(part[0].0, part[0].1, held) + RowsTexts(part[1..], held)
  }

  function SectionHead(s: Section, n: nat): seq<Tok> {
    Wrap("div", [("class", "section-header")],
      Wrap("h2", [("class", "section-heading")],
        Wrap("span", [("class", "heading-icon")], [Chars(s.Icon())]) + [Chars(s.Heading())])
      + Wrap("div", [("class", "section-meta")],
          Wrap("span", [("class", "fund-count"), ("id", s.CountId())], [Chars(CountText(n))])))
  }

  function EmptyState(s: Section, n: nat): seq<Tok> {
    if n == 0 then Wrap("div", EmptyAttrs, [Chars(s.EmptyText())]) else []
  }

  function SectionContent(s: Section, part: seq<(string, FundData)>): seq<Tok> {
    Wrap("div", [("class", "section-content"), ("id", s.ContentId())], Rows(part, s.Held()) + EmptyState(s, |part|))
  }

  /** `generate_holdings_section_html` / `generate_watchlist_section_html`. What a section
      shows: its icon and heading, the number of its funds, each of its funds' rows in map
      order, and the empty-state text exactly when it has none. */
  function SectionHtml(s: Section, funds: seq<(string, FundData)>): (r: seq<Tok>)
    ensures (var part := Part(funds, s.Held());
      Texts(r) == [s.Icon(), s.Heading(), CountText(|part|)] + RowsTexts(part, s.Held())
        + (if |part| == 0 then [s.EmptyText()] else []))
  {
    var part := Part(funds, s.Held());
    var head, content := SectionHead(s, |part|), SectionContent(s, part);
    var r := Wrap("section", [("class", "content-section"), ("id", s.SectionId())], head + content);
    SectionHeadTexts(s, |part|);
    SectionContentTexts(s, part);
    ShellTexts(s, head, content);
    RegroupSection(Texts(r), Texts(head), Texts(content),
      [s.Icon(), s.Heading(), CountText(|part|)], RowsTexts(part, s.Held()),
      if |part| == 0 then [s.EmptyText()] else []);
    r
  }

  lemma {:induction false} RowsTextsAre(part: seq<(string, FundData)>, held: bool)
    ensures Texts(Rows(part, held)) == RowsTexts(part, held)
    decreases |part|
  {
    if |part| > 0 {
      RowsTextsAre(part[1..], held);
      TextsAppend(FundRow(part[0].0, part[0].1, held), Rows(part[1..], held));
    }
  }

  lemma SectionHeadTexts(s: Section, n: nat)
    ensures Texts(SectionHead(s, n)) == [s.Icon(), s.Heading(), CountText(n)]
  {
    var icon := Wrap("span", [("class", "heading-icon")], [Chars(s.Icon())]);
    var h2 := Wrap("h2", [("class", "section-heading")], icon + [Chars(s.Heading())]);
    var count := Wrap("span", [("class", "fund-count"), ("id", s.CountId())], [Chars(CountText(n))]);
    var meta := Wrap("div", [("class", "section-meta")], count);
    TextsWrap("div", [("class", "section-header")], h2 + meta);
    TextsAppend(h2, meta);
    TextsWrap("h2", [("class", "section-heading")], icon + [Chars(s.Heading())]);
    TextsAppend(icon, [Chars(s.Heading())]);
    TextsWrap("span", [("class", "heading-icon")], [Chars(s.Icon())]);
    TextsWrap("div", [("class", "section-meta")], count);
    TextsWrap("span", [("class", "fund-count"), ("id", s.CountId())], [Chars(CountText(n))]);
  }

  lemma ContentTexts(s: Section, rows: seq<Tok>, n: nat)
    ensures Texts(Wrap("div", [("class", "section-content"), ("id", s.ContentId())], rows + EmptyState(s, n)))
      == Texts(rows) + (if n == 0 then [s.EmptyText()] else [])
  {
    var empty := EmptyState(s, n);
    TextsAppend(rows, empty);
    TextsWrap("div", [("class", "section-content"), ("id", s.ContentId())], rows + empty);
    if n == 0 {
      TextsWrap("div", EmptyAttrs, [Chars(s.EmptyText())]);
    } else {
      assert Texts(empty) == [];
    }
  }

  lemma SectionContentTexts(s: Section, part: seq<(string, FundData)>)
    ensures Texts(SectionContent(s, part))
      == RowsTexts(part, s.Held()) + (if |part| == 0 then [s.EmptyText()] else [])
  {
    RowsTextsAre(part, s.Held());
    ContentTexts(s, Rows(part, s.Held()), |part|);
  }

  lemma ShellTexts(s: Section, head: seq<Tok>, content: seq<Tok>)
    ensures Texts(Wrap("section", [("class", "content-section"), ("id", s.SectionId())], head + content))
      == Texts(head) + Texts(content)
  {
    TextsAppend(head, content);
    TextsWrap("section", [("class", "content-section"), ("id", s.SectionId())], head + content);
  }

  lemma RegroupSection<T>(whole: seq<T>, head: seq<T>, content: seq<T>, x: seq<T>, y: seq<T>, z: seq<T>)
    requires whole == head + content && head == x && content == y + z
    ensures whole == x + y + z
  {
  }

  /** The counts the two sections show add up to the number of funds in the map. */
  lemma CountsAddUp(funds: seq<(string, FundData)>)
    ensures DigitsValue(NatToString(|Part(funds, Holdings.Held())|))
      + DigitsValue(NatToString(|Part(funds, Watchlist.Held())|)) == |funds|
  {
    PartsComplementary(funds);
    DigitsValueNatToString(|Part(funds, true)|);
    DigitsValueNatToString(|Part(funds, false)|);
  }

  // ---------------------------------------------------------------- sidebar

  datatype SideItem = SideItem(id: string, icon: string, caption: string, tabId: string)

  const SideItems: seq<SideItem> := [
    SideItem("news", "📰", "快讯", "kx"),
    SideItem("indices", "📊", "指数", "marker"),
    SideItem("gold-realtime", "🥇", "贵金属", "real_time_gold"),
    SideItem("gold-history", "📈", "金价", "gold"),
    SideItem("volume", "📉", "成交量", "seven_A"),
    SideItem("timing", "🔴", "分时", "A"),
    SideItem("funds", "💼", "基金", "fund"),
    SideItem("sectors", "🏢", "板块", "bk"),
    SideItem("query", "🔍", "查询", "select_fund")]

  const IconClass := "sidebar-icon"
  const ActiveIconClass := "sidebar-icon active"
  const ToggleAttrsBar: Attrs := [("class", "sidebar-toggle"), ("id", "sidebarToggle")]

  function IconButton(i: nat, s: SideItem): Elem {
    Elem([("class", if i == 6 then ActiveIconClass else IconClass), ("data-section", s.id), ("data-tab-id", s.tabId)],
      Wrap("i", [("class", "icon")], [Chars(s.icon)]) + Wrap("span", [("class", "icon-label")], [Chars(s.caption)]))
  }

  const ToggleButton: Elem :=
    Elem(ToggleAttrsBar, Wrap("span", [], [Chars("▶")]) + Wrap("span", [("class", "toggle-text")], [Chars("展开")]))

  predicate ActiveButton(e: Elem) {
    |e.attrs| > 0 && e.attrs[0] == ("class", ActiveIconClass)
  }

  /** The buttons of the sidebar: one per section in order, then the toggle; exactly one is
      active, the one for the funds section. */
  function SidebarButtons(): (r: seq<Elem>)
    ensures |r| == 10
    ensures forall i :: 0 <= i < 9 ==> |r[i].attrs| == 3 && r[i].attrs[1] == ("data-section", SideItems[i].id)
    ensures forall i :: 0 <= i < 10 ==> (ActiveButton(r[i]) <==> i == 6)
    ensures SideItems[6].id == "funds"
  {
    var icons := seq(|SideItems|, i requires 0 <= i < |SideItems| => IconButton(i, SideItems[i]));
    assert ActiveIconClass != IconClass by { assert |ActiveIconClass| != |IconClass|; }
    assert ToggleAttrsBar[0] != ("class", ActiveIconClass) by {
      assert |ToggleAttrsBar[0].1| != |ActiveIconClass|;
    }
    icons + [ToggleButton]
  }

  /** `get_sidebar_navigation_html()`: the buttons read back out of it are exactly its
      buttons, in order. */
  function Sidebar(): (r: seq<Tok>)
    ensures Elements(r, "button") == SidebarButtons()
  {
    var bs := SidebarButtons();
    var icons := WrapAll("button", bs);
    ButtonsUnclosed();
    ElementsWrapAll("button", bs);
    ElementsOther("div", [("class", "sidebar-icons")], icons, "button");
    ElementsOther("aside", [("class", "sidebar-nav"), ("id", "sidebarNav")],
      Wrap("div", [("class", "sidebar-icons")], icons), "button");
    Wrap("aside", [("class", "sidebar-nav"), ("id", "sidebarNav")], Wrap("div", [("class", "sidebar-icons")], icons))
  }

  /** No sidebar button holds a closing `</button>` of its own. */
  lemma ButtonsUnclosed()
    ensures forall k :: 0 <= k < |SidebarButtons()| ==> NoClose(SidebarButtons()[k].body, "button")
  {
    var bs := SidebarButtons();
    forall k | 0 <= k < |bs| ensures NoClose(bs[k].body, "button") {
      if k < 9 {
        var s := SideItems[k];
        assert bs[k] == IconButton(k, s);
        NoCloseAppend(Wrap("i", [("class", "icon")], [Chars(s.icon)]),
          Wrap("span", [("class", "icon-label")], [Chars(s.caption)]), "button");
      } else {
        assert bs[k] == ToggleButton;
        NoCloseAppend(Wrap("span", [], [Chars("▶")]), Wrap("span", [("class", "toggle-text")], [Chars("展开")]), "button");
      }
    }
  }

  // ---------------------------------------------------------------- the tabbed page

  datatype Tab = Tab(id: string, title: string, content: seq<Tok>)

  /** `LoadingPage` is the SSE loading page served before any tab has content. */
  datatype Page = LoadingPage | Dashboard(toks: seq<Tok>)

  /** Content whose text `.strip()` empties. */
  predicate BlankContent(c: seq<Tok>) {
    forall k :: 0 <= k < |c| ==> c[k].Chars? && Trim(c[k].text, PySpaces) == ""
  }

  const ActiveWord := "active"
  const HeaderClass := "tab-button "
  const PaneClass := "tab-content "

  function Activity(i: nat): string { if i == 0 then ActiveWord else "" }

  function TabHeader(i: nat, t: Tab): Elem {
    Elem([("class", HeaderClass + Activity(i)), ("onclick", "openTab(event, '" + t.id + "')")], [Chars(t.title)])
  }

  /** Only the fund tab goes through `enhance_fund_tab_content`, with no shares map. */
  function PaneBody(t: Tab): seq<Tok> {
    if t.id == "fund" then EnhanceFundTab(t.content, map[]) else t.content
  }

  function TabPane(i: nat, t: Tab): Elem {
    Elem([("id", t.id), ("class", PaneClass + Activity(i))], PaneBody(t))
  }

  lemma ActivityOnlyFirst(base: string, i: nat)
    ensures base + Activity(i) == base + ActiveWord <==> i == 0
  {
    if i != 0 {
      assert |base + Activity(i)| != |base + ActiveWord|;
    }
  }

  /** One header per tab, showing its title; only the first is active. */
  function Headers(tabs: seq<Tab>): (r: seq<Elem>)
    ensures |r| == |tabs|
    ensures forall i :: 0 <= i < |r| ==> (
      r[i].body == [Chars(tabs[i].title)] && |r[i].attrs| == 2
      && (r[i].attrs[0] == ("class", HeaderClass + ActiveWord) <==> i == 0))
  {
    forall i: nat { ActivityOnlyFirst(HeaderClass, i); }
    seq(|tabs|, i requires 0 <= i < |tabs| => TabHeader(i, tabs[i]))
  }

  /** One pane per tab, named by its id, holding its content, enhanced exactly for the fund
      tab; only the first is active. */
  function Panes(tabs: seq<Tab>): (r: seq<Elem>)
    ensures |r| == |tabs|
    ensures forall i :: 0 <= i < |r| ==> (
      |r[i].attrs| == 2 && r[i].attrs[0] == ("id", tabs[i].id)
      && (r[i].attrs[1] == ("class", PaneClass + ActiveWord) <==> i == 0)
      && (tabs[i].id == "fund" ==> r[i].body == EnhanceFundTab(tabs[i].content, map[]))
      && (tabs[i].id != "fund" ==> r[i].body == tabs[i].content))
  {
    forall i: nat { ActivityOnlyFirst(PaneClass, i); }
    seq(|tabs|, i requires 0 <= i < |tabs| => TabPane(i, tabs[i]))
  }

  const PageOpen: seq<Tok> :=
    [Block("page-head"), Open("div", [("class", "app-container")]), Open("div", [("class", "main-content")])]
  const PageClose: seq<Tok> := [Close("div"), Close("div"), Block("dialogs"), Block("page-script")]

  function TabBar(tabs: seq<Tab>): seq<Tok> {
    Wrap("div", [("class", "tabs-header")], WrapAll("button", Headers(tabs)))
  }

  function Grid(tabs: seq<Tab>): seq<Tok> {
    Wrap("div", [("class", "dashboard-grid")], WrapAll("div", Panes(tabs)))
  }

  /** `get_full_page_html(tabs_data)` with tabs given as records: the loading page until the
      first tab has content, else the tab bar and the panes. */
  function FullPage(tabs: seq<Tab>): (p: Page)
    ensures p.LoadingPage? <==> |tabs| == 0 || BlankContent(tabs[0].content)
  {
    if |tabs| == 0 || BlankContent(tabs[0].content) then LoadingPage
    else Dashboard(PageOpen + TabBar(tabs) + (Grid(tabs) + PageClose))
  }

  /** A dashboard's first buttons are the tab headers, in order. */
  lemma TabHeadersRead(tabs: seq<Tab>)
    requires FullPage(tabs).Dashboard?
    ensures |Elements(FullPage(tabs).toks, "button")| >= |tabs|
    ensures Elements(FullPage(tabs).toks, "button")[..|tabs|] == Headers(tabs)
  {
    assert NoOpen(PageOpen, "button");
    ElementsNone(PageOpen, "button");
    TabBarButtons(tabs);
    LeadingElements(PageOpen, TabBar(tabs), Grid(tabs) + PageClose, Headers(tabs), "button");
  }

  /** The tab bar holds exactly the tab headers as buttons. */
  lemma TabBarButtons(tabs: seq<Tab>)
    ensures Elements(TabBar(tabs), "button") == Headers(tabs) && ClosedFor(TabBar(tabs), "button")
  {
    var hs := Headers(tabs);
    assert BodiesClosed(hs, "button");
    ElementsWrapAll("button", hs);
    ElementsOther("div", [("class", "tabs-header")], WrapAll("button", hs), "button");
  }

  /** Elements of markup with nothing before them come first. */
  lemma LeadingElements(pre: seq<Tok>, mid: seq<Tok>, rest: seq<Tok>, es: seq<Elem>, tag: string)
    requires Elements(pre, tag) == [] && ClosedFor(pre, tag)
    requires Elements(mid, tag) == es && ClosedFor(mid, tag)
    ensures |Elements(pre + mid + rest, tag)| >= |es|
    ensures Elements(pre + mid + rest, tag)[..|es|] == es
  {
    ElementsAppend(pre, mid, tag);
    ElementsAppend(pre + mid, rest, tag);
    assert Elements(pre + mid + rest, tag) == es + Elements(rest, tag);
  }
}
