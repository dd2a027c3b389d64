/** Section navigation of the dashboard front end (frontend/src/main.js): the section
    table, the normalisation of a requested section, the state the page shows after
    navigating, the loader each section uses, and the market-open clock rule. */
module Navigation {
  import opened Common

  /** A section's entry: the tab whose content it shows, its title, and whether the
      summary bar is visible with it. */
  datatype SectionMeta = SectionMeta(tabId: string, title: string, showSummary: bool)

  /** The section keys, in sidebar order. */
  const SectionKeys: seq<string> :=
    ["news", "indices", "gold-realtime", "gold-history", "volume", "timing", "funds", "sectors", "query"]

  const DefaultSection := "funds"

  /** The own entries of the section table. */
  function Meta(key: string): (m: Option<SectionMeta>)
    ensures m.Some? <==> key in SectionKeys
  {
    if key == "news" then Some(SectionMeta("kx", "7*24快讯", false))
    else if key == "indices" then Some(SectionMeta("marker", "全球指数", false))
    else if key == "gold-realtime" then Some(SectionMeta("real_time_gold", "实时贵金属", false))
    else if key == "gold-history" then Some(SectionMeta("gold", "历史金价", false))
    else if key == "volume" then Some(SectionMeta("seven_A", "成交量趋势", false))
    else if key == "timing" then Some(SectionMeta("A", "上证分时", false))
    else if key == "funds" then Some(SectionMeta("fund", "自选基金", true))
    else if key == "sectors" then Some(SectionMeta("bk", "行业板块", false))
    else if key == "query" then Some(SectionMeta("select_fund", "板块基金查询", false))
    else None
  }

  /** Only the funds section shows the summary bar. */
  lemma SummaryOnlyForFunds(key: string)
    ensures Meta(key).Some? && Meta(key).value.showSummary <==> key == "funds"
  {
  }

  /** Different sections show different tabs. */
  lemma TabIdsDistinct(a: string, b: string)
    requires Meta(a).Some? && Meta(b).Some? && a != b
    ensures Meta(a).value.tabId != Meta(b).value.tabId
  {
  }

  /** Property names every plain JavaScript object inherits from `Object.prototype`; a
      bracket lookup or an `in` test on the section table also finds these, and each
      yields a truthy value (a function, or the prototype object for `__proto__`). */
  const InheritedNames: set<string> := {
    "constructor", "__defineGetter__", "__defineSetter__", "hasOwnProperty",
    "__lookupGetter__", "__lookupSetter__", "isPrototypeOf", "propertyIsEnumerable",
    "toString", "valueOf", "__proto__", "toLocaleString"}

  /** `SECTION_META[k]` is truthy (and `k in SECTION_META` holds) as the code is written. */
  predicate FoundAsWritten(k: string) {
    Meta(k).Some? || k in InheritedNames
  }

  /** `getInitialSectionFromUrl` as written: the `section` query parameter when the table
      lookup is truthy, else the default. `None` stands for a missing parameter. */
  function InitialSectionAsWritten(param: Option<string>): (r: string)
    ensures param.Some? && param.value != "" && FoundAsWritten(param.value) ==> r == param.value
    ensures !(param.Some? && param.value != "" && FoundAsWritten(param.value)) ==> r == DefaultSection
  {
    if param.Some? && param.value != "" && FoundAsWritten(param.value) then param.value else DefaultSection
  }

  /** `currentSection` after `navigateToSection(k)` as written (`k in SECTION_META`). */
  function CurrentSectionAsWritten(k: string): (r: string)
    ensures FoundAsWritten(k) ==> r == k
    ensures !FoundAsWritten(k) ==> r == DefaultSection
  {
    if FoundAsWritten(k) then k else DefaultSection
  }

  /** The lookup as written lets an inherited name through: `?section=constructor` becomes
      the current section although no section has that key. */
  lemma InheritedNameBecomesSection()
    ensures InitialSectionAsWritten(Some("constructor")) == "constructor"
    ensures CurrentSectionAsWritten(InitialSectionAsWritten(Some("constructor"))) == "constructor"
    ensures Meta("constructor").None?
  {
  }

  /** The intended normalisation: a key of the table itself, anything else the default. */
  function NormalizeSection(k: string): (r: string)
    ensures Meta(r).Some?
    ensures k in SectionKeys ==> r == k
    ensures k !in SectionKeys ==> r == DefaultSection
  {
    if Meta(k).Some? then k else DefaultSection
  }

  /** `getInitialSectionFromUrl` with own-property lookup: always a known section. */
  function InitialSection(param: Option<string>): (r: string)
    ensures Meta(r).Some?
    ensures param.Some? && param.value in SectionKeys ==> r == param.value
    ensures !(param.Some? && param.value in SectionKeys) ==> r == DefaultSection
  {
    match param
    case None => DefaultSection
    case Some(p) => NormalizeSection(p)
  }

  /** The corrected normalisation agrees with the code on every name that is not inherited. */
  lemma CorrectedAgreesOffPrototype(k: string)
    requires k !in InheritedNames
    ensures NormalizeSection(k) == CurrentSectionAsWritten(k)
    ensures InitialSection(Some(k)) == InitialSectionAsWritten(Some(k))
  {
    if k == "" {
      assert Meta(k).None?;
    }
  }

  /** Normalising twice changes nothing. */
  lemma NormalizeIdempotent(k: string)
    ensures NormalizeSection(NormalizeSection(k)) == NormalizeSection(k)
  {
  }

  /** How a section's content is loaded: the three custom loaders with their load-state
      keys, or a plain tab fetch. */
  datatype Loader =
    | FundsLoader
    | TimingLoader
    | MetalsLoader(cacheKey: string)
    | TabLoader(tabId: string)

  /** `CUSTOM_SECTION_KEYS`. */
  function CustomKey(section: string): (r: Option<string>)
    ensures r.Some? <==> section in {"funds", "timing", "gold-realtime", "gold-history"}
    ensures r.Some? ==> r.value == "custom:" + section
  {
    if section in {"funds", "timing", "gold-realtime", "gold-history"} then Some("custom:" + section) else None
  }

  /** `loadSectionContent`: which loader a section goes through. */
  function LoaderFor(section: string, meta: SectionMeta): (l: Loader)
    ensures l.FundsLoader? <==> section == "funds"
    ensures l.TimingLoader? <==> section == "timing"
    ensures l.MetalsLoader? <==> section == "gold-realtime" || section == "gold-history"
    ensures l.MetalsLoader? ==> l.cacheKey == "custom:" + section
    ensures l.TabLoader? ==> l.tabId == meta.tabId
  {
    if section == "funds" then FundsLoader
    else if section == "timing" then TimingLoader
    else if section == "gold-realtime" || section == "gold-history" then
      MetalsLoader(CustomKey(section).GetOr("custom:gold-realtime"))
    else TabLoader(meta.tabId)
  }

  /** What the page shows after `navigateToSection`: the current section, which sidebar
      icons are active (one flag per icon, in document order), the title, whether the
      summary bar is shown, and the loader started. */
  datatype NavView = NavView(
    current: string, active: seq<bool>, title: string, summaryShown: bool, loader: Loader)

  /** `navigateToSection(k)` with corrected lookup; `icons` are the icons' `data-section`
      values. */
  function Navigate(k: string, icons: seq<string>): (v: NavView)
    ensures Meta(v.current).Some? && v.current == NormalizeSection(k)
    ensures |v.active| == |icons|
    ensures forall i :: 0 <= i < |icons| ==> (v.active[i] <==> icons[i] == v.current)
    ensures v.summaryShown <==> v.current == "funds"
    ensures v.title == Meta(v.current).value.title
    ensures v.loader == LoaderFor(v.current, Meta(v.current).value)
  {
    var current := NormalizeSection(k);
    var meta := Meta(current).value;
    SummaryOnlyForFunds(current);
    NavView(current,
      seq(|icons|, i requires 0 <= i < |icons| => icons[i] == current),
      meta.title, meta.showSummary, LoaderFor(current, meta))
  }

  /** With one icon per section, exactly one icon is active after navigating. */
  lemma ExactlyOneIconActive(k: string, icons: seq<string>)
    requires forall i, j :: 0 <= i < j < |icons| ==> icons[i] != icons[j]
    requires forall s :: s in SectionKeys ==> s in icons
    ensures var v := Navigate(k, icons);
      exists i :: 0 <= i < |icons| && v.active[i] && forall j :: 0 <= j < |icons| && v.active[j] ==> j == i
  {
    var v := Navigate(k, icons);
    assert v.current in SectionKeys;
    var i :| 0 <= i < |icons| && icons[i] == v.current;
    forall j | 0 <= j < |icons| && j != i
      ensures !v.active[j]
    {
      assert icons[j] != icons[i];
    }
  }

  /** The market status line. */
  datatype MarketStatus = Closed | Open | AfterHours

  /** `updateMarketStatus` for a day of the week (0 is Sunday) and a clock time. */
  function MarketStatusAt(day: nat, hours: nat, minutes: nat): (s: MarketStatus)
    requires day < 7 && hours < 24 && minutes < 60
    ensures s == Closed <==> day == 0 || day == 6
    ensures s == Open <==> 1 <= day <= 5 && (hours > 9 || (hours == 9 && minutes >= 30)) && hours < 15
  {
    if day == 0 || day == 6 then Closed
    else
      var m := hours * 60 + minutes;
      if 9 * 60 + 30 <= m < 15 * 60 then Open else AfterHours
  }

  /** The text the status element shows: each status has its own text. */
  function MarketStatusText(s: MarketStatus): (t: string)
    ensures t == "休市中" <==> s == Closed
    ensures t == "市场开盘中" <==> s == Open
    ensures t == "市场已收盘" <==> s == AfterHours
  {
    match s
    case Closed => "休市中"
    case Open => "市场开盘中"
    case AfterHours => "市场已收盘"
  }
}
