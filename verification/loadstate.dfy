/** The load bookkeeping of the dashboard front end (frontend/src/main.js): the set of
    loaded tabs, the map of loads in flight, and the custom sections' skip-and-mark rule.
    An asynchronous load is split into the moment it starts and the moment it settles,
    so interleavings of concurrent navigations are sequences of these events. */
module LoadState {
  import Navigation

  /** `loadedTabs`, the keys of `pendingLoads`, and (as a ghost of the bookkeeping) the
      multiset of fetches started and not yet settled. */
  datatype State = State(loaded: set<string>, pending: set<string>, inflight: multiset<string>)

  const Initial := State({}, {}, multiset{})

  /** A tab is fetched at most once at a time, and it is pending exactly while it is. */
  ghost predicate Valid(s: State) {
    forall t :: s.inflight[t] == if t in s.pending then 1 else 0
  }

  /** What a call of `fetchAndRenderTab` does when it starts. */
  datatype Start = Skipped | AwaitedPending | Fetched

  /** The start of `fetchAndRenderTab(tabId, _, force)`. */
  function Begin(s: State, tab: string, force: bool): (r: (Start, State))
    ensures r.0 == Skipped <==> !force && tab in s.loaded
    ensures r.0 == AwaitedPending <==> (force || tab !in s.loaded) && tab in s.pending
    ensures r.0 != Fetched ==> r.1 == s
    ensures r.0 == Fetched ==> r.1 == State(s.loaded, s.pending + {tab}, s.inflight + multiset{tab})
  {
    if !force && tab in s.loaded then (Skipped, s)
    else if tab in s.pending then (AwaitedPending, s)
    else (Fetched, State(s.loaded, s.pending + {tab}, s.inflight + multiset{tab}))
  }

  /** A started fetch settles: the tab is marked loaded only on success, and its pending
      entry is removed either way. */
  function Settle(s: State, tab: string, success: bool): (r: State)
    ensures tab !in r.pending
    ensures r.pending == s.pending - {tab}
    ensures success ==> r.loaded == s.loaded + {tab}
    ensures !success ==> r.loaded == s.loaded
  {
    State(if success then s.loaded + {tab} else s.loaded, s.pending - {tab}, s.inflight - multiset{tab})
  }

  /** Starting never puts a second fetch of a tab in flight. */
  lemma BeginValid(s: State, tab: string, force: bool)
    requires Valid(s)
    ensures Valid(Begin(s, tab, force).1)
    ensures Begin(s, tab, force).1.inflight[tab] <= 1
  {
  }

  /** Settling the fetch of a pending tab keeps the bookkeeping exact. */
  lemma SettleValid(s: State, tab: string, success: bool)
    requires Valid(s) && tab in s.pending
    ensures Valid(Settle(s, tab, success))
  {
  }

  /** The events that change the load state: a call of `fetchAndRenderTab` starting, and
      the fetch a call started settling. */
  datatype Event = Call(tab: string, force: bool) | Done(tab: string, success: bool)

  /** The state after a sequence of events; a completion is only possible for a tab whose
      fetch is in flight, so any other `Done` is not an event that can occur and is dropped. */
  function Run(s: State, events: seq<Event>): (r: State)
    ensures s.loaded <= r.loaded
    ensures forall t :: t in r.loaded ==> t in s.loaded || Done(t, true) in events
    decreases |events|
  {
    if |events| == 0 then s
    else
      var next := match events[0]
        case Call(t, f) => Begin(s, t, f).1
        case Done(t, ok) => if t in s.pending then Settle(s, t, ok) else s;
      assert forall t :: t in next.loaded ==> t in s.loaded || events[0] == Done(t, true);
      assert forall e :: e in events[1..] ==> e in events;
      Run(next, events[1..])
  }

  /** Whatever the interleaving of navigations and completions, no tab is ever fetched
      twice at once. */
  lemma {:induction false} RunValid(s: State, events: seq<Event>)
    requires Valid(s)
    ensures Valid(Run(s, events))
    ensures forall t :: Run(s, events).inflight[t] <= 1
    decreases |events|
  {
    if |events| > 0 {
      match events[0] {
        case Call(t, f) => BeginValid(s, t, f);
        case Done(t, ok) =>
          if t in s.pending {
            SettleValid(s, t, ok);
          }
      }
      var next := match events[0]
        case Call(t, f) => Begin(s, t, f).1
        case Done(t, ok) => if t in s.pending then Settle(s, t, ok) else s;
      RunValid(next, events[1..]);
    } else {
      var r := Run(s, events);
      forall t
        ensures r.inflight[t] <= 1
      {
        assert r.inflight[t] == if t in r.pending then 1 else 0;
      }
    }
  }

  /** A loaded tab is not fetched again unless forced; a forced call still waits for a
      fetch already in flight. */
  lemma NoRefetch(s: State, tab: string, force: bool)
    requires (!force && tab in s.loaded) || tab in s.pending
    ensures Begin(s, tab, force).0 != Fetched
  {
  }

  /** A failed load leaves the tab unloaded, so the next visit fetches it again. */
  lemma FailureRetries(s: State, tab: string)
    requires tab !in s.loaded && tab in s.pending
    ensures Begin(Settle(s, tab, false), tab, false).0 == Fetched
  {
  }

  /** `shouldSkipCustomLoad`. */
  predicate SkipCustom(loaded: set<string>, key: string, force: bool) {
    !force && key in loaded
  }

  /** One custom section load (funds, timing or metals): whether it fetches, and the
      loaded set after it; `markCustomLoaded` runs only when the load succeeds. */
  function CustomLoad(loaded: set<string>, key: string, force: bool, success: bool): (r: (bool, set<string>))
    ensures r.0 <==> force || key !in loaded
    ensures r.1 == if r.0 && success then loaded + {key} else loaded
  {
    if SkipCustom(loaded, key, force) then (false, loaded)
    else (true, if success then loaded + {key} else loaded)
  }

  /** After a successful custom load an unforced revisit does not fetch. */
  lemma CustomLoadOnce(loaded: set<string>, key: string, force: bool)
    requires CustomLoad(loaded, key, force, true).0
    ensures !CustomLoad(CustomLoad(loaded, key, force, true).1, key, false, true).0
  {
  }

  /** Custom load keys share the loaded set with tab ids but never collide with one. */
  lemma CustomKeysApartFromTabs(section: string, k: string)
    requires Navigation.CustomKey(section).Some? && Navigation.Meta(k).Some?
    ensures Navigation.CustomKey(section).value != Navigation.Meta(k).value.tabId
  {
    var c := Navigation.CustomKey(section).value;
    assert c[6] == ':';
  }
}
