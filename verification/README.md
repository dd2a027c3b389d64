# Fund dashboard: a Dafny model of its pure logic

This project models the pure, checkable logic of a fund-tracking dashboard in Dafny and proves properties of it. The dashboard has a Python side: a watchlist store, HTML table and page serialisers, and a console text formatter. It also has a browser side: a chart helper library, section navigation, and the legacy table page. The model follows the code file by file, one module each:

- `Common`, `Text`, `NumParse`, `Sorting`: JavaScript numbers (a finite real, `NaN` or an infinity), and the string and number primitives the code relies on. These are `trim`/`strip`, `split`/`join`, `parseFloat`, `parseInt(_, 16)`, `Number()`, Python `int()`, and a stable comparator sort.
- `Theme`, `ChartFactory`, `ChartPlugins`, `ChartRegistry` model `frontend/src/charts/`. They cover theme tokens, `alphaColor`, number series, range presets and slicing, and trend and semantic colours. They also cover dataset and option records, the plugin guards, extrema selection, and the chart registry that reuses or recreates an instance per key.
- `Navigation`, `LoadState`, `FundOrder`, `Escape`, `ChartSlots` model `frontend/src/main.js`. They cover section keys and metadata, navigation and the market clock, tab and custom-section load de-duplication, fund ordering and the default fund, `escapeHtml`, and the chart-slot discipline of every render.
- `LegacyFunds`, `LegacyTable` model `static/js/main.js`. They cover the fund selection modal filters, selection toggling, the confirm guards, the position-summary inclusion rules, the top-3 ranking, the cell colour classifier, and table sorting.
- `FundStore` models the `CACHE_MAP` operations of `fund.py`: adding, deleting, sector marking, shares and hold updates, sector input resolution, the monthly up/down run, and menu id resolution.
- `Markup` is a token model of generated HTML: open and close tags, text, and opaque blocks. It also defines a reader that finds the elements of one tag. `HtmlTables`, `FundTab` and `FundPage` build on it to model the serialisers of `module_html.py` and `src/module_html.py`. Properties about the generated pages are stated as what the reader gets back: which cells, rows, buttons and inputs the page holds, in which order, and what text it shows.
- `Console` models `format_text` of `ai_analyzer.py` and the final tidy-up of `strip_markdown`.

State is immutable throughout. The chart registry, the loaded and pending tab sets, and the fund map are values that each operation returns updated. Browser, network, clock and DOM inputs are parameters.

## Model

| member | source | states |
|---|---|---|
| ChartFactory.ToNumberSeries | frontend/src/charts/factory.js:3-5 | a non-array gives `[]`; an array gives a series of the same length whose entries are the finite numbers kept and 0 in place of NaN |
| ChartFactory.SignPrefix | frontend/src/charts/factory.js:7-11 | `formatSigned` writes `+` exactly for a positive number and nothing otherwise |
| ChartFactory.Find | frontend/src/charts/factory.js:22 | the index found is a preset with the value exactly when some preset has it, and it is the first such |
| ChartFactory.NormalizeRange | frontend/src/charts/factory.js:18-24 | no presets gives the fallback; a value some preset has is returned; otherwise the first preset's value, or the fallback when that value is falsy |
| ChartFactory.NormalizeRangeKnown | frontend/src/charts/factory.js:18-24 | the normalised range is always the value of some preset or the fallback |
| ChartFactory.Buttons | frontend/src/charts/factory.js:30-36 | one button per preset, in order, carrying the preset's value and caption; a button is active iff its value is the selected range when some preset has that value, and iff it is the first preset's value (or `all` when that is empty) otherwise |
| ChartFactory.ExactlyOneActive | frontend/src/charts/factory.js:30-36 | with distinct non-empty preset values exactly one button is active, and it is the one whose value is the selected range, or the first preset's when no preset has it |
| ChartFactory.ButtonsHtml | frontend/src/charts/factory.js:31-36 | the joined buttons are empty iff there is no button, and otherwise start with a `chart-range-btn` button and end with its closing tag |
| ChartFactory.ButtonHtml | frontend/src/charts/factory.js:33-34 | a button carries the `active` class iff it is the active one, and ends with its chart key, its range value and its caption, in that order, then `</button>` |
| ChartFactory.ButtonsHtmlOne | frontend/src/charts/factory.js:31-36 | one button is written as that button's own markup |
| ChartFactory.ButtonsHtmlSnoc | frontend/src/charts/factory.js:31-36 | one more button appends exactly its own markup |
| ChartFactory.ButtonsHtmlAppend | frontend/src/charts/factory.js:31-36 | the markup of two runs of buttons is the first run's followed by the second's, so the buttons appear in preset order |
| ChartFactory.RangeButtonsHtml | frontend/src/charts/factory.js:26-38 | the markup is empty iff there are no presets; otherwise it opens a `chart-range` group carrying the chart key and ends with exactly the presets' buttons followed by `</div>` |
| ChartFactory.StartIndex | frontend/src/charts/factory.js:45 | the start is `max(0, total - count)` for a positive whole count and 0 for a count that is not positive |
| ChartFactory.SliceByRange | frontend/src/charts/factory.js:40-58 | the range reported is the normalised one, every series key is kept, and labels and every series lose the same leading elements |
| ChartFactory.SliceKeepsCount | frontend/src/charts/factory.js:43-51 | a positive whole count keeps exactly the last `min(count, |labels|)` labels |
| ChartFactory.SliceWithoutCount | frontend/src/charts/factory.js:43-51 | without a positive count labels and series come back whole |
| ChartFactory.DirColor | frontend/src/charts/factory.js:62-68 | a palette colour is used when given and non-empty, the theme colour otherwise, for each of up, down and neutral |
| ChartFactory.TrendDir | frontend/src/charts/factory.js:60-69 | a signal is up iff positive and down iff negative |
| ChartFactory.TrendSignal | frontend/src/charts/factory.js:71-85 | 0 for an empty series; the last value in `value` mode; last minus first otherwise, non-finite ends read as 0 |
| ChartFactory.FlatSeriesIsNeutral | frontend/src/charts/factory.js:71-85 | a series whose ends are equal is neutral in delta mode |
| ChartFactory.ValueDir | frontend/src/charts/factory.js:87-99 | up iff finite and strictly above the baseline, down iff finite and strictly below, neutral otherwise |
| ChartFactory.ValueDirAgreesWithTrend | frontend/src/charts/factory.js:60-99 | against a zero baseline a finite value is classified as a trend signal is |
| ChartFactory.SegmentDir | frontend/src/charts/factory.js:145-155 | a segment takes its end point's direction, or its start point's when the end is not finite |
| ChartFactory.LineColor | frontend/src/charts/factory.js:125 | a fixed colour overrides the trend colour |
| ChartFactory.BuildLineDataset | frontend/src/charts/factory.js:101-196 | the data is the number series and holds no NaN; the latest index is the last; border width 2 iff the latest point is shown; a fixed dataset takes the line colour, fills its own area with that colour at the fill alpha; a semantic one has the neutral border and fills toward the baseline with the up colour above and the down colour below, each at its alpha |
| ChartFactory.PointRadius | frontend/src/charts/factory.js:158-164 | the base radius everywhere except the latest index when shown, where it is `max(base, 3.5)` |
| ChartFactory.OnlyLatestPointEnlarged | frontend/src/charts/factory.js:184-190 | every index other than the last keeps the base radius |
| ChartFactory.PointColor | frontend/src/charts/factory.js:166-171 | a fixed colouring gives its colour; a semantic one gives the value's direction colour |
| ChartFactory.SegmentColor | frontend/src/charts/factory.js:146-154 | a semantic segment is coloured by its end value, or its start value when the end is not finite |
| ChartFactory.SemanticPointColours | frontend/src/charts/factory.js:128-171 | a semantic dataset colours points above the baseline up, below it down, at it neutral |
| ChartFactory.BuildLineChartOptions | frontend/src/charts/factory.js:198-299 | animation and the three drawing plugins are off; the y title is shown iff given; zero axis, gaps and legend are as configured |
| ChartFactory.GridColor | frontend/src/charts/factory.js:280-286 | the stronger colour exactly at a zero tick with the zero axis on, the grid colour otherwise |
| ChartFactory.GridLineWidth | frontend/src/charts/factory.js:287-293 | width 1.4 exactly at a zero tick with the zero axis on, 1 otherwise |
| ChartFactory.ZeroGridline | frontend/src/charts/factory.js:280-293 | the emphasised gridline appears iff the zero axis is on and the tick is exactly 0 |
| ChartFactory.DefaultOptionsPlainGrid | frontend/src/charts/factory.js:204 | with default options no gridline is emphasised |
| ChartPlugins.CrosshairX | frontend/src/charts/plugins.js:3-21 | the crosshair has a position exactly when the plugin is enabled, there is an active tooltip element, a chart area, and the first element's x is finite; the position is that x |
| ChartPlugins.ZeroLineInRange | frontend/src/charts/plugins.js:37-49 | with the plugin on, a y scale and a chart area, the zero line is drawn iff min ≤ 0 ≤ max |
| ChartPlugins.DisabledPluginsDrawNothing | frontend/src/charts/plugins.js:3-49 | a disabled crosshair or zero-line plugin draws nothing |
| ChartPlugins.FindExtrema | frontend/src/charts/plugins.js:114-133 | both indices are -1 exactly when no value is finite; otherwise they are the first occurrence of the largest and of the smallest finite value |
| ChartPlugins.ExtremaPlanOf | frontend/src/charts/plugins.js:103-173 | nothing is drawn when disabled, without a dataset or points, or with no finite value; otherwise the high mark is drawn iff its point is drawable and the low mark iff its index differs from the high one and its point is drawable |
| ChartPlugins.DistinctExtremaDiffer | frontend/src/charts/plugins.js:120-133 | when the first minimum and first maximum are at different indices the minimum is strictly below the maximum |
| ChartRegistry.DatasetList | frontend/src/charts/factory.js:312-314 | `datasets` when given, else the single `dataset` as a one-element list, else the empty list |
| ChartRegistry.CreateOrUpdate | frontend/src/charts/factory.js:301-350 | a missing key, registry, canvas or backend returns null and changes nothing; otherwise the chart returned is stored under the key with the canvas, labels, datasets and options given, and every other key is untouched |
| ChartRegistry.SameCanvasUpdatesInPlace | frontend/src/charts/factory.js:320-330 | the same canvas keeps the same instance with one more update, destroys nothing, and replaces the payload only when one is given |
| ChartRegistry.OtherCanvasRecreates | frontend/src/charts/factory.js:332-349 | a different canvas destroys the old instance and stores a fresh one with no updates and the given payload |
| ChartRegistry.CreateOrUpdateValid | frontend/src/charts/factory.js:316-349 | every call keeps the registry valid: live instances are never destroyed ones and no two keys share one |
| Navigation.Meta | frontend/src/main.js:1-11 | a section has metadata exactly when its key is one of the nine own keys of `SECTION_META` |
| Navigation.SummaryOnlyForFunds | frontend/src/main.js:1-11 | of all sections only the funds section shows the summary bar |
| Navigation.TabIdsDistinct | frontend/src/main.js:1-11 | two different sections never share a server tab id |
| Navigation.InitialSectionAsWritten | frontend/src/main.js:43-50 | the lookup as written: a non-empty query value is kept whenever `SECTION_META[value]` is truthy, which includes names inherited from the object prototype |
| Navigation.CurrentSectionAsWritten | frontend/src/main.js:846-847 | the `in` test as written: a key is kept whenever it is found on `SECTION_META` or its prototype |
| Navigation.InheritedNameBecomesSection | frontend/src/main.js:43-50 | `?section=constructor` becomes the current section although it has no metadata of its own |
| Navigation.NormalizeSection | frontend/src/main.js:52-57 | the normalised key always has metadata; an own key is kept and anything else becomes the default section |
| Navigation.InitialSection | frontend/src/main.js:43-50 | the section read from the URL always has metadata; it is the query value when that is an own key and the default otherwise |
| Navigation.CorrectedAgreesOffPrototype | frontend/src/main.js:43-50 | for every key that is not a prototype name, the corrected lookups agree with the code as written |
| Navigation.NormalizeIdempotent | frontend/src/main.js:52-57 | normalising a section key twice gives the same key as normalising it once |
| Navigation.CustomKey | frontend/src/main.js:13-18 | exactly the funds, timing and two gold sections have a cache key, and that key is `custom:` followed by the section |
| Navigation.LoaderFor | frontend/src/main.js:829-843 | funds, timing and the gold sections go to their own loaders (the gold loader with its `custom:` key); every other section fetches its server tab |
| Navigation.Navigate | frontend/src/main.js:845-869 | after navigating, the current section is the normalised key, an icon is active iff its section is the current one, the summary shows iff the section is funds, and the title and loader come from the section's metadata |
| Navigation.ExactlyOneIconActive | frontend/src/main.js:850-857 | with one distinct icon for every section, exactly one icon is active after any navigation |
| Navigation.MarketStatusAt | frontend/src/main.js:187-204 | Saturday and Sunday are closed; on a weekday the market is open iff the time is in [09:30, 15:00), and after hours otherwise |
| Navigation.MarketStatusText | frontend/src/main.js:195-203 | each status shows its own text: `休市中` exactly when closed, `市场开盘中` exactly when open, `市场已收盘` exactly after hours |
| LoadState.Begin | frontend/src/main.js:792-812 | a call is skipped iff it is not forced and the tab is loaded; it awaits the pending load iff it is not skipped and one is pending; only a real fetch changes the state, adding the tab to the pending loads |
| LoadState.Settle | frontend/src/main.js:813-826 | a settled fetch leaves the pending loads; the tab becomes loaded iff the fetch succeeded |
| LoadState.Run | frontend/src/main.js:792-827 | over any run of calls and completions no loaded tab is forgotten, and a tab becomes loaded only through a successful completion in the run |
| LoadState.BeginValid | frontend/src/main.js:792-812 | starting a call keeps every tab's fetches in flight at one at most, and pending exactly while in flight |
| LoadState.SettleValid | frontend/src/main.js:820-826 | settling an in-flight fetch keeps the pending loads in step with the fetches in flight |
| LoadState.RunValid | frontend/src/main.js:792-827 | over any interleaving of calls and completions, no tab is ever fetched twice at once |
| LoadState.NoRefetch | frontend/src/main.js:797-800 | while a tab's load is pending, another call never starts a second fetch of it |
| LoadState.FailureRetries | frontend/src/main.js:816-826 | after a failed fetch the tab is neither loaded nor pending, so the next unforced call fetches again |
| LoadState.CustomLoad | frontend/src/main.js:585-598 | a custom section loads iff the call is forced or its key is not yet loaded, and the key is marked loaded iff the load ran and succeeded |
| LoadState.CustomLoadOnce | frontend/src/main.js:585-592 | after a successful load, an unforced second load of the same custom section is skipped |
| LoadState.CustomKeysApartFromTabs | frontend/src/main.js:1-18 | a custom cache key never equals a section's tab id, so custom sections and tabs cannot mark each other loaded |
| FundOrder.ToFund | frontend/src/main.js:607-611 | a holding keeps its code; its name falls back to the code when the fund name is empty; its share count is never NaN |
| FundOrder.FundBeforeStrict | frontend/src/main.js:612 | the fund order (more shares first, then code) is a strict order |
| FundOrder.OrderFunds | frontend/src/main.js:607-612 | the ordered funds are a permutation of the converted holdings, sorted by share count descending and then by code |
| FundOrder.FirstHeld | frontend/src/main.js:614 | the index of the first fund with positive shares, or the length when there is none |
| FundOrder.DefaultFund | frontend/src/main.js:614 | there is no default only for an empty list; the default is a held fund when one exists, and the first fund otherwise |
| FundOrder.DefaultIsFirst | frontend/src/main.js:607-614 | on the ordered list, the default fund is always the first one |
| Escape.EscapeHtml | frontend/src/main.js:162-169 | a missing value escapes to the empty string |
| Escape.EscapeChain | frontend/src/main.js:163-168 | text holding none of `&`, `<`, `>`, `"`, `'` passes through the five replacements unchanged |
| Escape.ChainIsEach | frontend/src/main.js:162-169 | the five chained replacements equal replacing each character by its own entity in one pass |
| Escape.EscapeEachInert | frontend/src/main.js:162-169 | the per-character escape never leaves a `<`, `>`, `"` or `'`, and every `&` in it begins an entity |
| Escape.EscapeHtmlInert | frontend/src/main.js:162-169 | the escaped text is inert: no markup character is left, and every `&` begins an entity |
| Escape.UnescapeEach | frontend/src/main.js:162-169 | decoding the five entities undoes the per-character escape |
| Escape.EscapeHtmlRoundTrip | frontend/src/main.js:162-169 | decoding the five entities gives the original text back |
| Escape.PyEscape | src/module_html.py:736-756 | the server's `html.escape` with quotes leaves no markup character and every `&` begins an entity, and decoding the entities gives the text back |
| ChartSlots.DestroyChart | frontend/src/main.js:171-176 | the slot becomes empty and its instance is added to the destroyed ones; other slots keep their instances; an empty slot is left as it is |
| ChartSlots.DestroyIdempotent | frontend/src/main.js:171-176 | destroying the same slot twice is the same as destroying it once |
| ChartSlots.Create | frontend/src/main.js:288 | a new instance with a fresh identity fills the slot, and no other slot changes |
| ChartSlots.DestroyValid | frontend/src/main.js:171-176 | destroying a slot keeps live instances fresh, undestroyed and in one slot each |
| ChartSlots.CreateValid | frontend/src/main.js:269-288 | creating into an emptied slot keeps live instances fresh, undestroyed and in one slot each |
| ChartSlots.DisciplinedValid | frontend/src/main.js:171-176 | a render that empties its slot before drawing keeps the slots valid, destroys the old instance, and draws a brand-new one |
| ChartSlots.RenderTiming | frontend/src/main.js:259-288 | nothing happens without a canvas, data or non-empty labels; with charts unusable only the unavailable note shows; a series field that is truthy but not an array makes the render throw after emptying the slot; otherwise the chart is drawn with the labels and each change after `Number(x) \|\| 0`, in a fresh instance |
| ChartSlots.TimingDisciplined | frontend/src/main.js:259-269 | the timing render empties its slot before drawing and touches no other slot |
| ChartSlots.TimeLabel | frontend/src/main.js:372 | a non-empty date gives a non-empty label |
| ChartSlots.TimeLabelOfStamp | frontend/src/main.js:372 | `date time` labels as its time part, and a date with no space labels as itself |
| ChartSlots.OneDayPoints | frontend/src/main.js:368-376 | one label and one price per kept tick; there are none iff no tick has a date and a price; every price is a number and every label non-empty |
| ChartSlots.OneDayPointsOne | frontend/src/main.js:368-376 | a single tick gives its time label and its price after `Number(x) \|\| 0` iff it has a date and a price, and nothing otherwise |
| ChartSlots.OneDayPointsAppend | frontend/src/main.js:368-376 | the points of two runs of ticks are the points of the first run followed by those of the second, so the points are exactly the kept ticks in order |
| ChartSlots.RenderGoldOneDay | frontend/src/main.js:351-425 | nothing happens without a canvas; the unavailable note shows without the chart library; otherwise the slot is emptied, and the empty note shows iff there are no records or no kept ticks, else the kept ticks are drawn |
| ChartSlots.EmptyGoldLeavesSlotNull | frontend/src/main.js:361-366 | an empty or missing feed leaves the one-day slot empty and shows the empty note |
| ChartSlots.HistoryValue | frontend/src/main.js:449 | a price with no numeric character is 0 |
| ChartSlots.HistoryValueWithUnit | frontend/src/main.js:449 | a price written as digits with the `元/克` unit reads as that number |
| ChartSlots.HistoryPoints | frontend/src/main.js:444-454 | at most one point per record; there are none iff no record has a date, a price and a finite value; every label is non-empty |
| ChartSlots.Reverse | frontend/src/main.js:461 | the reversed sequence has the same length, and element i is element n-1-i of the input |
| ChartSlots.RenderGoldHistory | frontend/src/main.js:427-463 | nothing happens without a canvas; the unavailable note shows without the chart library; the empty note shows iff there are no kept points; otherwise the kept points are drawn in reverse order |
| ChartSlots.HistoryValuesFinite | frontend/src/main.js:449-452 | every plotted history value is finite |
| ChartSlots.RenderFund | frontend/src/main.js:501-583 | nothing happens without a wrapper, canvas or code; with charts unusable only the unavailable note shows; a failed fetch shows its escaped message and leaves the slot alone; the empty placeholder shows iff a successful fetch has no labels or no growth, after the slot is emptied; the chart is drawn iff labels and growth are both non-empty |
| ChartSlots.RenderAllValid | frontend/src/main.js:171-583 | over any sequence of renders, no instance is live in two slots and no destroyed instance is live again |
| ChartSlots.RenderAll | frontend/src/main.js:171-583 | a sequence of renders never forgets a destroyed instance and never reuses an identity |
| Theme.ReadCssVar | frontend/src/charts/theme.js:14-21 | without a window the fallback is used; otherwise the trimmed property value is used when it is non-empty, and the fallback when it is empty |
| Theme.ResolveChartTheme | frontend/src/charts/theme.js:23-36 | without a window the theme is the fallback theme, and no token of a resolved theme is ever blank |
| Theme.NoWindowGivesFallback | frontend/src/charts/theme.js:14-36 | without a window every theme token is its fallback |
| Theme.EmptyStyleGivesFallback | frontend/src/charts/theme.js:1-36 | a page that sets no chart variable gets the whole fallback theme |
| Theme.SetPropertyOverrides | frontend/src/charts/theme.js:23-36 | setting one chart variable to a non-blank value changes that token only |
| Theme.RgbaText | frontend/src/charts/theme.js:46 | every assembled colour starts with `rgba(` |
| Theme.AlphaColor | frontend/src/charts/theme.js:38-67 | a blank input gives the fallback, and every result is either the fallback or an `rgba(` colour |
| Theme.AlphaColorTrimmed | frontend/src/charts/theme.js:39 | surrounding whitespace does not change the result |
| Theme.AlphaColorFunctional | frontend/src/charts/theme.js:44-52 | an `rgb(` or `rgba(` colour with at least three comma-separated parts keeps its first three parts, trimmed, and takes the new alpha |
| Theme.AlphaColorShortHex | frontend/src/charts/theme.js:54-57 | `#rgb` gives the same result as `#rrggbb` |
| Theme.PairValue | frontend/src/charts/theme.js:59-61 | two hex digits are worth at most 255 |
| Theme.ChannelOfHexDigits | frontend/src/charts/theme.js:59-61 | a channel of two hex digits is the decimal text of their value |
| Theme.AlphaColorLongHex | frontend/src/charts/theme.js:54-63 | `#rrggbb` gives the decimal values of the three digit pairs with the new alpha |
| Theme.AlphaColorBadHexLength | frontend/src/charts/theme.js:54-66 | a `#` colour whose length is neither 4 nor 7 gives the fallback |
| Theme.AlphaColorOtherShape | frontend/src/charts/theme.js:44-66 | a value that starts with neither `#` nor `r` gives the fallback |
| Console.LeadingNewlines | ai_analyzer.py:93 | the count of newlines the text starts with: all of them are newlines and the next character is not |
| Console.Collapse | ai_analyzer.py:93 | collapsing never lengthens the text, empties only empty text, and keeps the first character |
| Console.CollapseNoTriple | ai_analyzer.py:93 | after collapsing, no three newlines are in a row |
| Console.CollapseFixed | ai_analyzer.py:93 | text without three newlines in a row is left unchanged |
| Console.CollapseIdempotent | ai_analyzer.py:93 | collapsing twice is the same as collapsing once |
| Console.CollapseKeepsText | ai_analyzer.py:93 | collapsing removes only newlines: the text without newlines is unchanged |
| Console.CollapseKeepsVisible | ai_analyzer.py:93 | collapsing keeps every visible character, in order |
| Console.TrimKeepsVisible | ai_analyzer.py:95 | `strip` keeps every visible character, in order |
| Console.StripTail | ai_analyzer.py:93-95 | the result has no whitespace at either end and no three newlines in a row |
| Console.StripTailIdempotent | ai_analyzer.py:93-95 | cleaning already-clean text changes nothing |
| Console.StripMarkdown | ai_analyzer.py:56-95 | the result is stripped and has no three newlines in a row; only whitespace changes: its visible characters are those of the rewritten text, in order |
| Console.KeptLines | ai_analyzer.py:105 | at most one line per input line; every kept line is non-empty, stripped, and the strip of an input line |
| Console.KeptLinesAppend | ai_analyzer.py:105 | the kept lines of two runs of lines are those of the first run followed by those of the second |
| Console.KeptLinesOne | ai_analyzer.py:105 | a line is kept, stripped, exactly when its strip is not empty |
| Console.KeptLinesVisible | ai_analyzer.py:105 | stripping and dropping blank lines loses no visible character |
| Console.Flatten | ai_analyzer.py:105 | the flattened paragraph has no newline and no whitespace at either end, and its visible characters are those of the text, in order |
| Console.FlattenFixed | ai_analyzer.py:105 | a stripped text with no newline is already flat |
| Console.FlattenIdempotent | ai_analyzer.py:105 | flattening twice is the same as flattening once |
| Console.LinesOf | ai_analyzer.py:113-118 | every full piece gives its stripped text as a line; the remainder adds a line iff it is not blank |
| Console.FormatLines | ai_analyzer.py:107-120 | the pieces put together give the paragraph; every piece but the last ends at the first character where the line ends on a sentence mark past 30 characters or reaches the width; the lines are the pieces stripped |
| Console.PieceWidth | ai_analyzer.py:112 | a piece that breaks only at its end is at most the width long (one character when the width is below one) |
| Console.LinesBounded | ai_analyzer.py:108-118 | every returned line is stripped and no longer than the width |
| Console.OnePieceIff | ai_analyzer.py:108-118 | the text stays one piece exactly when the break test holds on no non-empty prefix of it |
| Console.ChunkingUnique | ai_analyzer.py:108-118 | the cut is a function of the text: two cuts of the same paragraph are the same |
| Console.FormatText | ai_analyzer.py:97-120 | the lines are the cut of the flattened, stripped report, and no line contains a newline |
| FundStore.Pieces | fund.py:151-152 | at most one code per piece; every code is non-empty, comma-free and already stripped |
| FundStore.CodeList | fund.py:151-152 | every code read from a comma list is non-empty, comma-free and stripped |
| FundStore.CodeListJoin | fund.py:151-152 | joining stripped, non-empty, comma-free codes with commas and reading them back gives the same codes |
| FundStore.Added | fund.py:176-181 | a newly added fund is not held, has zero shares and no sectors, and records the key and name the search returned |
| FundStore.AddCodes | fund.py:150-187 | exactly the listed codes the search found are added (each as a fresh record); every other entry is kept; no share count becomes negative |
| FundStore.DeleteCodes | fund.py:189-201 | exactly the listed codes leave the store; unknown codes are skipped; every other entry is kept |
| FundStore.DeleteUndoesAdd | fund.py:150-201 | deleting a code that was not in the store after adding it gives the store back |
| FundStore.UpdateListed | fund.py:277-282 | listed codes that are present get the change, other entries are kept, and no entry appears or disappears |
| FundStore.MarkSectors | fund.py:270-283 | every listed present code gets the given sectors, and nothing else changes |
| FundStore.UnmarkSectors | fund.py:285-297 | every listed present code loses its sectors and keeps every other field, and nothing else changes |
| FundStore.SetHolding | fund.py:1086-1111 | every listed present code gets the hold flag, and nothing else changes |
| FundStore.UpdateIdempotent | fund.py:277-282 | applying the same listed change twice is the same as applying it once |
| FundStore.UnmarkAfterMark | fund.py:270-297 | unmarking after marking is the same as unmarking alone |
| FundStore.ModifyShares | fund.py:705-733 | an unknown code, blank or non-numeric input, or a negative number leaves the store as it is; otherwise the shares are set, a positive value marks the fund held, and nothing else changes |
| FundStore.PositiveSharesHeld | fund.py:724-728 | after entering a positive share count the fund is held with that count |
| FundStore.ZeroSharesKeepHold | fund.py:724-728 | entering zero shares leaves the hold flag as it was |
| FundStore.AllSectors | fund.py:213-216 | every sector of every category is in the flattened list |
| FundStore.AllSectorsAppend | fund.py:213-216 | the sectors of two runs of categories are those of the first run followed by those of the second |
| FundStore.AllSectorsOne | fund.py:213-216 | one category contributes exactly its own sectors, in order |
| FundStore.ResolveSector | fund.py:242-254 | an item is kept as typed, or is a menu sector when it parses as an integer |
| FundStore.ResolveAll | fund.py:240-254 | one resolved sector per item, in order, each item stripped first |
| FundStore.SectorInput | fund.py:237-262 | a blank answer selects nothing; any other answer selects one resolved sector per comma-separated item, so at least one |
| FundStore.MarkSectorsPrompt | fund.py:228-264 | an unknown code or a blank answer changes nothing; otherwise the code gets the non-empty selection and no other entry changes |
| FundStore.SectorInputNumbers | fund.py:240-248 | menu numbers typed as a comma list select exactly those sectors, in the typed order |
| FundStore.NumberTexts | fund.py:223 | one decimal text per number, each without a comma |
| FundStore.FundRates | fund.py:363-364 | only the fund-type points are kept, so there are at most as many rates as points |
| FundStore.FundRatesAppend | fund.py:363-364 | the rates of two runs of points are those of the first run followed by those of the second |
| FundStore.FundRatesOne | fund.py:363-364 | a point gives its rate iff it is of fund type, and nothing otherwise |
| FundStore.Moves | fund.py:368-377 | one direction per consecutive pair of rates: up exactly when the rate did not fall |
| FundStore.CountUp | fund.py:380 | the up count is the number of up days |
| FundStore.LastRun | fund.py:379-391 | the run has at least one day; every day in it has the latest direction and the day before it, if any, does not |
| FundStore.MonthlyTrend | fund.py:363-408 | there is no trend for fewer than two rates; otherwise the days are one less than the rates, the up days are the number of days on which the rate did not fall, the run is between 1 and the days long, and its sign is positive iff the last rate did not fall |
| FundStore.StreakIsRun | fund.py:379-408 | the signed streak is exactly the latest stretch of days moving one way, bounded by a day that moved the other way |
| FundStore.RisingMonth | fund.py:368-408 | a month of non-falling rates is all up days and a single run as long as the month |
| FundStore.Label | fund.py:948 | every menu label is a non-empty number |
| FundStore.MenuId | fund.py:946-950 | the position found has the typed label, and no position has it when none is found |
| FundStore.BoardByName | fund.py:966-967 | a board found by name is an entry with that name; none is found iff no entry has it |
| FundStore.SelectReturn | fund.py:938-971 | no id lists the board names; a found board is a menu entry; the error comes back exactly when the id is neither a menu number nor a board name |
| FundStore.SelectByNumber | fund.py:946-971 | the number shown before a board selects that board |
| FundStore.SelectByName | fund.py:964-967 | a board name without digits selects the board of that name |
| FundStore.SelectConsole | fund.py:957-971 | the prompt settles on the board of the first typed line that is a menu number, and on nothing when no line is one |
| FundTab.FirstMonthHeader | src/module_html.py:96-98 | the position found holds a `近30天` header and none comes before it; none is found iff no position from the start holds one |
| FundTab.InsertSharesHeader | src/module_html.py:95-98 | without a `近30天` header the content is unchanged; otherwise the shares header goes right after the first such header and nowhere else |
| FundTab.HeaderInsertedOnce | src/module_html.py:95-98 | with a `近30天` header the result is three tokens longer, and removing the inserted header gives the content back |
| FundTab.CodeOf | src/module_html.py:105 | a code found in a row is six digits |
| FundTab.ButtonColor | src/module_html.py:109-122 | the button is green iff the fund's share count is positive, and blue otherwise |
| FundTab.SharesOf | src/module_html.py:110-115 | a code missing from the shares map has 0 shares; a listed code has its parsed share count, or 0 when that does not parse |
| FundTab.CellCode | src/module_html.py:105 | a cell is a code iff it holds exactly six digits of text, and the code is that text |
| FundTab.RowCode | src/module_html.py:105 | a row's code is the code of one of its cells; there is none iff no cell is a code |
| FundTab.WithButtonCell | src/module_html.py:102-133 | a row without a code is unchanged; a row with one gets one more cell, the share button for that code coloured by the holding |
| FundTab.WithButton | src/module_html.py:102-133 | without a code the serialised row is unchanged; with one, everything before its closing `</tr>` is kept, the share button cell for the code is inserted, and the row still ends with `</tr>` |
| FundTab.RewriteRows | src/module_html.py:135-136 | content without a `<tr>` passes through the row rewrite unchanged |
| FundTab.AddButtons | src/module_html.py:135-136 | content without a `<tr>` gets no button |
| FundTab.EnhanceFundTab | src/module_html.py:7-138 | the tab starts with the three fixed panels and ends with the per-fund details block; content with no `近30天` header and no row comes through between them unchanged |
| FundTab.CodeOfRow | src/module_html.py:105 | the first code cell found in a serialised row is the row's code |
| FundTab.WithButtonRow | src/module_html.py:102-133 | on a serialised row, the rewrite adds exactly the cell the row's values call for |
| FundTab.HeaderRowNoCode | src/module_html.py:161-174 | the header row of a table holds no `td` cell, so no code |
| FundTab.HeaderRowKept | src/module_html.py:136-174 | the header row passes through the row rewrite unchanged |
| FundTab.ExtendedRows | src/module_html.py:102-133 | one extended row per data row, each with its share button cell when it has a code |
| FundTab.ButtonsRows | src/module_html.py:136-179 | the row rewrite of serialised body rows equals serialising the extended rows |
| FundTab.ButtonsOnTable | src/module_html.py:102-194 | on a table written by the table serialiser, the button rewrite gives the same table with a share button cell on every row that has a fund code |
| LegacyFunds.Keep | static/js/main.js:209-229 | the kept funds all pass the criterion and come from the list, and every listed fund that passes is kept |
| LegacyFunds.KeepAppend | static/js/main.js:209-229 | filtering two runs of funds keeps the first run's survivors followed by the second's |
| LegacyFunds.KeepOne | static/js/main.js:209-229 | a single fund is kept iff it passes the criterion |
| LegacyFunds.HoldListsPartition | static/js/main.js:211-218 | the hold and unhold lists split the funds: together they hold every fund once, and no fund is in both |
| LegacyFunds.SearchWithinFilter | static/js/main.js:319-324 | a fund is shown after searching iff it is listed, offered for the operation, and matches the search |
| LegacyFunds.EmptySearchKeepsAll | static/js/main.js:319-324 | an empty search keeps the whole list |
| LegacyFunds.Without | static/js/main.js:272 | the code is removed, every other code stays in or out as it was, and no duplicate appears |
| LegacyFunds.Toggle | static/js/main.js:262-275 | the clicked fund's checkbox flips; the code is chosen iff its box is now ticked; every other box and choice is unchanged |
| LegacyFunds.Rerender | static/js/main.js:245-259 | a re-render keeps the chosen codes and draws exactly the shown funds, every box unticked |
| LegacyFunds.ToggleConsistent | static/js/main.js:262-275 | between re-renders, toggling keeps the chosen codes free of duplicates and equal to the ticked boxes |
| LegacyFunds.ToggleSound | static/js/main.js:262-275 | toggling keeps the chosen codes free of duplicates and every ticked box among them |
| LegacyFunds.RerenderSound | static/js/main.js:245-259 | a re-render keeps the chosen codes free of duplicates and every ticked box among them |
| LegacyFunds.RerenderBreaksConsistency | static/js/main.js:245-326 | ticking a fund and then re-rendering the list (as a search does) leaves the fund chosen with its box unticked |
| LegacyFunds.ToggleTwice | static/js/main.js:262-275 | toggling the same fund twice gives the same chosen codes back |
| LegacyFunds.ConfirmFundSelection | static/js/main.js:285-313 | an empty choice only alerts; otherwise the choice is cleared, the sector operation opens the sector dialog with the codes, and the other known operations send the chosen codes |
| LegacyFunds.ConfirmSector | static/js/main.js:582-610 | without codes or without sectors there is only an alert (the codes missing also clears the sectors); the request with the codes goes out iff both are present, and the sectors are cleared after it |
| LegacyFunds.TickThenConfirm | static/js/main.js:262-313 | ticking one fund and confirming sends exactly that code for the operation |
| LegacyFunds.RunLen | static/js/main.js:744 | the length of the leading run of the character class: all of it is in the class and the next character is not |
| LegacyFunds.MatchHere | static/js/main.js:744 | a match at the start is a non-empty value, `(`, a non-empty date and `)`, in the regular expression's classes |
| LegacyFunds.NetValueMatch | static/js/main.js:744 | there is no match iff no position of the cell starts one; a match is the leftmost one |
| LegacyFunds.NetValueCell | static/js/main.js:742-748 | a cell written as `value(date)` gives back that value and date |
| LegacyFunds.FullDate | static/js/main.js:750-755 | an `MM-DD` date gets the current year in front; other dates are kept |
| LegacyFunds.CountRow | static/js/main.js:726-783 | a row counts iff it has six cells, positive shares and a net value match; a counted row carries the code and the completed date, and is settled iff that date is today |
| LegacyFunds.CountRows | static/js/main.js:724-783 | every counted row has positive shares and is settled iff its date is today |
| LegacyFunds.CountRowsMembers | static/js/main.js:724-783 | a record is counted iff some row counts as that record |
| LegacyFunds.CountRowsAppend | static/js/main.js:724-783 | the records of two runs of rows are the records of the first run followed by those of the second |
| LegacyFunds.CountRowsOne | static/js/main.js:726-783 | a single row gives its record iff it counts, and nothing otherwise |
| LegacyFunds.YesterdayNotSettled | static/js/main.js:742-783 | a row whose net value cell reads `value(MM-DD)` for an earlier day is counted exactly when the fund is held, and then with that value and this year's date, and not as settled today |
| LegacyFunds.RankGain | static/js/main.js:1601-1602 | the ranking uses the actual gain unless it is zero, and then the estimated gain |
| LegacyFunds.RanksBeforeStrict | static/js/main.js:1599-1604 | the ranking order is a strict order |
| LegacyFunds.Top3 | static/js/main.js:1595-1606 | the top list has three funds, or all of them when there are fewer; they come from the details, are in ranking order, and no fund ranked above one of them is left out |
| LegacyFunds.RankingSorted | static/js/main.js:1599-1604 | the ranking is sorted by gain, highest first |
| LegacyFunds.HeldCount | static/js/main.js:879-887 | the held count is the number of codes whose shares are above zero |
| LegacyTable.CellTone | static/js/main.js:36-74 | blank cells stay uncoloured; `利好` is positive and `利空` negative; a percentage is negative when its value is below zero or it starts with `-`, uncoloured when it is not a number, and otherwise positive iff its value is above zero or it starts with `+`, else neutral |
| LegacyTable.Colorize | static/js/main.js:36-74 | a cell never gets both classes; every other class is kept; it is positive or negative exactly as its trimmed text's tone says |
| LegacyTable.ColorizeIdempotent | static/js/main.js:36-74 | colouring a cell twice is the same as colouring it once |
| LegacyTable.CleanPercent | static/js/main.js:57 | removing the percentage noise leaves the signed digits of a percentage |
| LegacyTable.PercentTone | static/js/main.js:56-67 | `n%` is positive for a positive n and uncoloured for zero |
| LegacyTable.NegativePercentTone | static/js/main.js:56-67 | `-n%` is negative |
| LegacyTable.ParseValue | static/js/main.js:118-125 | missing cells sort as minus infinity; a cell whose cleaned text reads as a number sorts as that number; one that does not sorts as its lower-cased text; a numeric key is never NaN |
| LegacyTable.CleanAmount | static/js/main.js:122 | `¥n元` and `n%` clean to the digits of n |
| LegacyTable.ParseValueOfAmount | static/js/main.js:118-125 | `¥n元` and `n%` sort as the number n |
| LegacyTable.MissingSortsFirst | static/js/main.js:118-125 | a missing cell sorts below every finite number |
| LegacyTable.NextDir | static/js/main.js:82-88 | sorting a new column is ascending; sorting the same column again flips the direction |
| LegacyTable.DirectionAlternates | static/js/main.js:82-90 | sorting one column repeatedly alternates between the two directions |
| LegacyTable.KeyLessStrict | static/js/main.js:92-104 | the key comparison is irreflexive and transitive |
| LegacyTable.RowOrderStrict | static/js/main.js:92-104 | the row order for a column and direction is a strict order |
| LegacyTable.SortTable | static/js/main.js:79-116 | the sort attributes are set first; a row lacking the column throws and leaves rows and marks alone; otherwise the rows are a permutation, sorted in the chosen direction whenever the column is all numbers or all text, and only the sorted column's header is marked |
| LegacyTable.ExactlyOneHeaderMarked | static/js/main.js:109-115 | after sorting a column the table has, exactly one header carries a mark |
| LegacyTable.CleanYuan | static/js/main.js:122 | cleaning an amount written with `¥` and `元` around plain digits leaves exactly the digits |
| LegacyTable.CleanPercentSign | static/js/main.js:122 | cleaning a percentage leaves exactly the text before the `%` |
| FundPage.FundRow | src/module_html.py:728-782 | a row shows the escaped code and name, `持有` exactly for a held fund, the joined sector list exactly when there is one, the shares label exactly for a held fund, and the expand mark, in that order; it carries an input exactly when the fund is held, holding the escaped code and the fund's shares |
| FundPage.FundRowEscaped | src/module_html.py:735-763 | every text a row shows is escaped, and its first two texts unescape back to the fund's code and name |
| FundPage.Part | src/module_html.py:787-813 | a fund is in a section's list iff it is in the map with the section's hold flag |
| FundPage.PartsComplementary | src/module_html.py:785-834 | the holdings and watchlist lists split the map: as multisets they add up to it, and each fund is in exactly one of them |
| FundPage.SectionHeadTexts | src/module_html.py:789-799 | a section heading shows its icon, its title and the number of its funds |
| FundPage.SectionHtml | src/module_html.py:785-834 | a section shows its heading and count, the rows of exactly its funds in map order, and its empty-state text exactly when it has no fund |
| FundPage.CountsAddUp | src/module_html.py:796-822 | the numbers the two section counters display add up to the number of funds in the map |
| FundPage.SidebarButtons | src/module_html.py:647-679 | ten buttons, the first nine each carrying its section's `data-section`, and exactly the seventh (the fund section) active |
| FundPage.Sidebar | src/module_html.py:647-679 | the buttons read back out of the rendered sidebar are exactly the ten sidebar buttons, in order |
| FundPage.Headers | src/module_html.py:395-405 | one tab header per tab showing its title, and only the first marked active |
| FundPage.Panes | src/module_html.py:395-418 | one pane per tab, named by the tab's id, only the first active, holding the content enhanced exactly for the fund tab and unchanged for every other tab |
| FundPage.FullPage | src/module_html.py:420-425 | the loading page is served exactly when there is no tab or the first tab's content is blank |
| FundPage.TabHeadersRead | src/module_html.py:395-418 | on a dashboard, the first buttons read back from the page are exactly the tab headers, in order |
| FundPage.TabBarButtons | src/module_html.py:395-405 | the tab bar's buttons are exactly the tab headers and every one of them is closed |
| HtmlTables.ResultHeaders | module_html.py:4-18 | the result table has one header cell per title entry, holding that entry, in order |
| HtmlTables.ResultPlaceholder | module_html.py:14 | the result table body holds the `{tbody}` placeholder and nothing else |
| HtmlTables.ResultHtml | module_html.py:4-18 | the result table shows the titles' text in order and then the `{tbody}` placeholder, whatever the titles hold |
| HtmlTables.TbodyCells | module_html.py:21-29 | the body has one data cell per value, holding that value, in order |
| HtmlTables.TbodySingleRow | module_html.py:21-29 | all the body's cells sit in one single row |
| HtmlTables.Tbody | module_html.py:21-29 | the body shows the values' text, in order |
| HtmlTables.SortAttrs | src/module_html.py:162-166 | a header has attributes iff its index is listed as sortable, and then the `sortable` class and a click handler sorting by that same index |
| HtmlTables.TableHeaders | src/module_html.py:161-174 | the table's header cells read back as the titles in order, and a header is sortable exactly when its index is listed |
| HtmlTables.TableRows | src/module_html.py:168-185 | the table's rows read back as the header row first and then one row per data row, in input order |
| HtmlTables.RowCells | src/module_html.py:178 | the cells of a body row read back as the row's values, in order |
| HtmlTables.TableContainer | src/module_html.py:187-194 | the whole table sits inside one single `table-container` division |
| HtmlTables.TableHtml | src/module_html.py:151-194 | the table shows the titles' text and then every cell's text, row by row, whatever the values hold |
| FundPage.InfoTexts | src/module_html.py:739-766 | the info block shows the code, the escaped name, `持有` exactly for a held fund and the sector list exactly when there is one |
| FundPage.MetricsInputs | src/module_html.py:749-775 | the metrics block holds an input exactly for a held fund, carrying the code and the fund's shares |
| NumParse.ParseFloat | static/js/main.js:123 | a negative number, finite or infinite, is read only from text whose first non-blank character is `-` |
| NumParse.ParseFloatNat | static/js/main.js:118-125 | `parseFloat` reads the decimal text of every natural number back as that number |
| NumParse.ParseFloatNegNat | static/js/main.js:118-125 | `parseFloat` reads a minus sign followed by the decimal text of a natural number back as its negation |
| NumParse.ParseIntHex | frontend/src/charts/theme.js:59-61 | `parseInt(_, 16)` gives a negative value only for text whose first non-blank character is `-` |
| NumParse.ParseIntHexPair | frontend/src/charts/theme.js:59-61 | two hex digits are read as sixteen times the first plus the second, a channel value between 0 and 255 |
| NumParse.JsNumber | frontend/src/main.js:449 | blank text reads as 0, and a negative value only comes from text whose first non-blank character is `-` |
| NumParse.JsNumberNat | frontend/src/main.js:449 | `Number` reads the decimal text of every natural number back as that number |
| NumParse.PyInt | fund.py:245 | `int()` succeeds only on text that is not blank, and gives a negative value only when the text starts with `-` after its blanks |
| NumParse.PyIntNat | fund.py:245 | `int()` reads the decimal text of every natural number back as that number |
| NumParse.PyIntNeedsDigit | fund.py:244-245 | `int()` fails on text holding no digit at all |
| Sorting.SortBy | frontend/src/main.js:612 | the sorted list is a permutation of the input |
| Sorting.SortBySorted | frontend/src/main.js:612 | for every strict order the sorted list has no element ordered before one placed ahead of it |
| Sorting.InsertSorted | frontend/src/main.js:612 | inserting one element into a sorted list keeps it sorted |
| Sorting.LexLt | frontend/src/main.js:612 | the code comparison never puts a code before itself, puts a proper prefix first, and puts first the code with the smaller character at the first difference |
| Common.OrZero | frontend/src/main.js:272-276 | the fallback to 0 after `Number` is never NaN, turns NaN into 0 and keeps every other number |
| Common.Max | frontend/src/charts/factory.js:163 | `Math.max` is NaN iff an argument is; otherwise it is one of its arguments and less than neither |
| Text.JoinSplit | fund.py:151 | joining the pieces of a split with the separator gives the text back |
| Text.SplitJoin | fund.py:151 | splitting the separator-joined pieces gives the pieces back when none holds the separator |
| Text.TrimRemovesOnlySpace | fund.py:152 | `strip` removes only blank characters, from each end |
| Text.RemoveCharsKeeps | static/js/main.js:122 | a character-class deletion keeps only characters of the input, and none of the deleted class |
| Text.RemoveCharsAppend | static/js/main.js:122 | a character-class deletion distributes over concatenation |

## Left out

- Network I/O: every `fetch` and every HTTP request in `fund.py`. Responses are parameters: the fund name of a successful add, the fetched tab content, the success flag of a load.
- Threads, timers and animation: the thread pool in `search_code`, `setInterval`, `requestAnimationFrame`, and the navigation indicator motion.
- Canvas drawing and Chart.js internals: a chart is a handle with a canvas identity and an update counter, and the plugins are modelled as what they would draw.
- DOM wiring: event listeners, checkbox click events, `executeEmbeddedScripts`, and the auto-refresh and visibility block of the legacy page.
- Floating point: numbers are exact reals. Rounding, `toFixed`, `toLocaleString`, Python's `str()` of a float, and the money arithmetic of the position summary are not modelled; only its inclusion rules are.
- Strings are sequences of characters. UTF-16 code units, Unicode digits accepted by Python's `int()` and by the `\d` of Python regular expressions (the six-digit code test of `FundTab.CodeOf`), and Unicode case mapping are not modelled. `Lower` maps ASCII letters only, and digits are the ASCII `0`-`9`.
- `Sorting.LexLt` orders codes by character code, where the source uses `localeCompare`. For the six-digit fund codes the two orders agree.
- LegacyFunds.ToggleConsistent: the chosen codes equal the ticked boxes only between re-renders. A search re-renders the list with every box unticked while the chosen codes stay (`LegacyFunds.RerenderBreaksConsistency`); across re-renders the model promises only `LegacyFunds.Sound`: no duplicates, and every ticked box is chosen.
- LegacyTable.SortTable: on a column that mixes numeric and text keys the source's comparator tests `valA > valB` and `valA < valB`; a text key (one `parseFloat` cannot read) converts to NaN there, both tests are false and the comparison is 0. A text row thus counts as equal to every number while the numbers differ among themselves, which is not a consistent order, so the engine decides the result. There the model promises only that the rows are a permutation; sortedness is promised for columns whose keys are all numbers or all text.
- Sorting.SortBy: the source's `Array.prototype.sort` is stable, but its algorithm is not specified. The model sorts by stable insertion and proves the result is a sorted permutation.
- `Number(x)` of non-string values, such as arrays, objects or booleans, is taken as already applied: series entries arrive as numbers. A non-array preset list is modelled as an absent list.
- The market clock takes the weekday, hour and minute as parameters, so time zones are not modelled.
- `MAJOR_CATEGORIES` and `bk_map` are parameters of the sector and menu operations rather than their literal contents.
- The interactive `input()` loops of `fund.py`: only the parsing and the map updates they drive are modelled.
- The regular-expression rewrites inside `strip_markdown` are an abstract `rewrite` parameter. Only the final newline collapse and trim are modelled.
- Page templates: CSS, embedded scripts, the metric placeholders and the dialogs are opaque `Block` tokens, and indentation whitespace is not modelled. The SSE loading page is the single value `LoadingPage`.
- `get_full_page_html`: the `use_sidebar` redirect and the fallback for a list of plain strings are not modelled, since tabs are always records here. `BlankContent` approximates `.strip()` on the rendered content: content is blank when every token is text that strips to nothing.
- `get_table_html` does not escape titles or cells. The model requires table values to hold no table markup of their own, which is the case for every caller.
- The `<th[^>]*>` pattern of `enhance_fund_tab_content` would also match a `<thead>` tag. The model reads header cells as `th` elements only.
- `FundPage.SidebarButtons`: the sidebar holds nine section buttons and a tenth collapse toggle. The model states all ten, with only the fund section's button active.
- The `position_summary` panel built at src/module_html.py:27 is never part of the returned content (line 138), so `FundTab.EnhanceFundTab` leaves it out. `calculate_position_summary` in `fund.py`, called at fund.py:505, is money arithmetic in floating point and is not part of this model.
- `static/js/sidebar-nav.js`, `fund_server.py`, `src/auth.py`, `src/database.py` and `frontend/vite.config.js` are not part of this model.
- Theme.AlphaColor: the function's own contract states only the fallback and the `rgba(` shape. The per-notation results are stated by the lemmas `Theme.AlphaColorFunctional`, `Theme.AlphaColorShortHex`, `Theme.AlphaColorLongHex`, `Theme.AlphaColorBadHexLength` and `Theme.AlphaColorOtherShape`.
- NumParse.ParseFloat: the contract states only the sign rule. The value read is stated for decimal text of whole numbers (`ParseFloatNat`, `ParseFloatNegNat`), not for every literal.
- NumParse.JsNumber: the contract states blank text and the sign rule. The value is stated only for the decimal text of whole numbers (`JsNumberNat`). Binary and octal literals (`0b101`, `0o17`) read as NaN in the model, whereas `Number` accepts them as it does `0x`; the model reads only the decimal and `0x` hexadecimal forms.
- NumParse.PyInt: the contract states only when a parse can succeed and the sign rule. The value is stated for decimal text of whole numbers (`PyIntNat`).
- FundTab.CodeOf: the contract states only that a found code is six digits. Which cell it comes from is stated by the lemmas `FundTab.CodeOfCell` and `FundTab.CodeOfSkip`.
- ChartSlots.HistoryPoints: the contract states only which records are kept, not the value each keeps. The values come from `HistoryValue`.

## Findings

| source | as written | input that shows it | evidently intended | confidence | as-written member | corrected member |
|---|---|---|---|---|---|---|
| frontend/src/main.js:43-50 | `SECTION_META[section]` and `sectionKey in SECTION_META` also find names inherited from `Object.prototype` | the query `?section=constructor` becomes the current section, although no section has that key | only the nine own keys of `SECTION_META` are sections, and any other key falls back to `funds` | not executed | Navigation.InitialSectionAsWritten | Navigation.InitialSection |
