/** The tabs of a browser session: which one is active, how often each page changed, and the
guard of writes against a page that has changed (src/browser/browser-session.ts). */
module SessionTabs {
  import opened Common
  import opened Text
  import opened Json
  import TargetRegistry

  /** `refs` is the generation of the tab's target registry. */
  datatype Tab = Tab(page: nat, isMain: bool, revision: nat, refs: nat)

  /** `known` holds every tab ever registered, because the observers of a closed page still
  refer to its tab; the sequence number of a tab is its place there. `open` is the map. */
  datatype Tabs = Tabs(known: seq<Tab>, open: seq<nat>, active: Option<nat>, generation: nat) {
    predicate ActiveIsOpen() { active.Some? && active.value in open }
  }

  function TabId(n: nat): Str { Ascii("tab_") + TargetRegistry.Base36(n + 1) }

  lemma TabIdsDiffer(m: nat, n: nat)
    ensures TabId(m) == TabId(n) ==> m == n
  {
    if TabId(m) == TabId(n) {
      assert TabId(m)[4..] == TargetRegistry.Base36(m + 1);
      assert TabId(n)[4..] == TargetRegistry.Base36(n + 1);
      TargetRegistry.Base36RoundTrip(m + 1);
      TargetRegistry.Base36RoundTrip(n + 1);
    }
  }

  predicate Distinct(s: seq<nat>) { forall i, j :: 0 <= i < j < |s| ==> s[i] != s[j] }

  function Without(open: seq<nat>, tab: nat): (r: seq<nat>)
    ensures forall t :: t in r <==> t in open && t != tab
  {
    if open == [] then []
    else if open[0] == tab then Without(open[1..], tab)
    else [open[0]] + Without(open[1..], tab)
  }

  lemma {:induction false} WithoutIsDistinct(open: seq<nat>, tab: nat)
    requires Distinct(open)
    ensures Distinct(Without(open, tab))
  {
    if open != [] {
      assert Distinct(open[1..]);
      WithoutIsDistinct(open[1..], tab);
      assert forall t :: t in Without(open[1..], tab) ==> t != open[0];
    }
  }

  // ----- the source's operations -----

  function FindTabByPage(known: seq<Tab>, open: seq<nat>, page: nat): (r: Option<nat>)
    requires forall t :: t in open ==> t < |known|
    ensures r.Some? ==> r.value in open && known[r.value].page == page
    ensures r.None? ==> forall t :: t in open ==> known[t].page != page
  {
    if open == [] then None
    else
      assert open[0] in open && forall t :: t in open[1..] ==> t in open;
      if known[open[0]].page == page then Some(open[0])
      else FindTabByPage(known, open[1..], page)
  }

  predicate Numbered(s: Tabs) {
    && (forall t :: t in s.open ==> t < |s.known|)
    && (s.active.Some? ==> s.active.value < |s.known|)
  }

  function RegisterTab(s: Tabs, page: nat, isMain: bool): Tabs
    requires Numbered(s)
  {
    match FindTabByPage(s.known, s.open, page)
    case Some(t) => s.(known := s.known[t := s.known[t].(isMain := s.known[t].isMain || isMain)])
    case None => s.(known := s.known + [Tab(page, isMain, 0, 0)], open := s.open + [|s.known|])
  }

  function ActivateTab(s: Tabs, tab: nat): Tabs
    requires tab < |s.known|
  {
    s.(active := Some(tab), generation := s.known[tab].revision)
  }

  /** Without an open tab only the session's own counter moves. */
  function NotePageGeneration(s: Tabs, tab: Option<nat>): Tabs
    requires Numbered(s) && (tab.Some? ==> tab.value < |s.known|)
  {
    var target := if tab.Some? then tab else if s.ActiveIsOpen() then s.active else None;
    match target
    case None => s.(generation := s.generation + 1)
    case Some(t) =>
      var revision := s.known[t].revision + 1;
      s.(known := s.known[t := s.known[t].(revision := revision, refs := revision)],
         generation := if s.active == Some(t) then revision else s.generation)
  }

  /** The end of closing one of several tabs. */
  function CloseTab(s: Tabs, tab: nat): (r: Tabs)
    requires Numbered(s) && tab < |s.known|
    ensures Numbered(r) && |r.known| == |s.known|
  {
    var open := Without(s.open, tab);
    if s.active != Some(tab) || open == [] then s.(open := open)
    else
      var next := open[0];
      assert next in open;
      var main := s.known[next].isMain || s.known[tab].isMain;
      ActivateTab(s.(open := open, known := s.known[next := s.known[next].(isMain := main)]), next)
  }

  function RegisterTabs(s: Tabs, pages: seq<nat>): (r: Tabs)
    requires Numbered(s)
    ensures Numbered(r)
    decreases |pages|
  {
    if pages == [] then s
    else RegisterTabs(RegisterTab(s, pages[0], false), pages[1..])
  }

  function LaunchContext(s: Tabs, pages: seq<nat>): Tabs
    requires Numbered(s) && pages != []
  {
    var main := RegisterTab(s.(open := [], active := None), pages[0], true);
    RegisterTabs(ActivateTab(main, |s.known|), pages[1..])
  }

  // ----- every event that moves them -----

  datatype Event =
    | Navigated(tab: nat)              // the observer of a tab's page, open or closed
    | Noted                            // a navigation without an observer, a resume or a takeover
    | Registered(page: nat, isMain: bool)  // a popup, or the replacement of the last tab
    | Switched(tab: nat)
    | Closed(tab: nat)
    | Replaced(tab: nat, next: nat)    // the last tab was closed
    | Dropped(tab: nat)                // the last tab could not be closed, its replacement goes
    | Launched(pages: seq<nat>)
    | ContextClosed

  function Step(s: Tabs, e: Event): Tabs
    requires Numbered(s)
  {
    match e
    case Navigated(t) => if t < |s.known| then NotePageGeneration(s, Some(t)) else s
    case Noted => NotePageGeneration(s, None)
    case Registered(page, isMain) => RegisterTab(s, page, isMain)
    case Switched(t) => if t in s.open then ActivateTab(s, t) else s
    case Closed(t) => if t < |s.known| then CloseTab(s, t) else s
    case Replaced(t, next) =>
      if next < |s.known| then ActivateTab(s.(open := Without(s.open, t)), next) else s
    case Dropped(t) => s.(open := Without(s.open, t))
    case Launched(pages) => if pages != [] then LaunchContext(s, pages) else s
    case ContextClosed => s.(open := [])
  }

  /** The session's counter is the active tab's, every registry is at its tab's revision,
  and no page has two open tabs. */
  predicate Valid(s: Tabs) {
    && Numbered(s)
    && Distinct(s.open)
    && (forall t :: 0 <= t < |s.known| ==> s.known[t].refs == s.known[t].revision)
    && (s.ActiveIsOpen() ==> s.generation == s.known[s.active.value].revision)
    && (s.active.Some? ==> s.generation >= s.known[s.active.value].revision)
    && (forall t, u | t in s.open && u in s.open && t != u :: s.known[t].page != s.known[u].page)
  }

  const NO_TABS := Tabs([], [], None, 0)

  lemma RegisterKeepsValid(s: Tabs, page: nat, isMain: bool)
    requires Valid(s)
    ensures Valid(RegisterTab(s, page, isMain))
  {
    var r := RegisterTab(s, page, isMain);
    if FindTabByPage(s.known, s.open, page).None? {
      assert forall t :: t in r.open <==> t in s.open || t == |s.known|;
      assert forall i :: 0 <= i < |s.open| ==> s.open[i] in s.open;
    }
  }

  lemma {:induction false} RegisterTabsKeepsValid(s: Tabs, pages: seq<nat>)
    requires Valid(s)
    ensures Valid(RegisterTabs(s, pages))
    decreases |pages|
  {
    if pages != [] {
      RegisterKeepsValid(s, pages[0], false);
      RegisterTabsKeepsValid(RegisterTab(s, pages[0], false), pages[1..]);
    }
  }

  lemma NoteKeepsValid(s: Tabs, tab: Option<nat>)
    requires Valid(s) && (tab.Some? ==> tab.value < |s.known|)
    ensures Valid(NotePageGeneration(s, tab))
  {
  }

  lemma CloseKeepsValid(s: Tabs, tab: nat)
    requires Valid(s) && tab < |s.known|
    ensures Valid(CloseTab(s, tab))
  {
    WithoutIsDistinct(s.open, tab);
    var r := CloseTab(s, tab);
    assert forall t :: t in r.open ==> t in s.open;
    assert forall t :: 0 <= t < |s.known| ==>
      r.known[t].page == s.known[t].page && r.known[t].revision == s.known[t].revision && r.known[t].refs == s.known[t].refs;
  }

  lemma StepKeepsValid(s: Tabs, e: Event)
    requires Valid(s)
    ensures Valid(Step(s, e))
  {
    match e
    case Navigated(t) => if t < |s.known| { NoteKeepsValid(s, Some(t)); }
    case Noted => NoteKeepsValid(s, None);
    case Registered(page, isMain) => RegisterKeepsValid(s, page, isMain);
    case Closed(t) => if t < |s.known| { CloseKeepsValid(s, t); }
    case Replaced(t, _) => WithoutIsDistinct(s.open, t);
    case Dropped(t) => WithoutIsDistinct(s.open, t);
    case Launched(pages) =>
      if pages != [] {
        var cleared := s.(open := [], active := None);
        RegisterKeepsValid(cleared, pages[0], true);
        RegisterTabsKeepsValid(ActivateTab(RegisterTab(cleared, pages[0], true), |s.known|), pages[1..]);
      }
    case _ =>
  }

  function Run(s: Tabs, events: seq<Event>): (r: Tabs)
    requires Valid(s)
    ensures Valid(r)
    decreases |events|
  {
    if events == [] then s
    else
      StepKeepsValid(s, events[0]);
      Run(Step(s, events[0]), events[1..])
  }

  // ----- what a revision counts -----

  /** Does this event note a change of the tab's page? */
  function Notes(s: Tabs, e: Event, tab: nat): nat {
    match e
    case Navigated(t) => if t == tab then 1 else 0
    case Noted => if s.ActiveIsOpen() && s.active == Some(tab) then 1 else 0
    case _ => 0
  }

  function Changes(s: Tabs, events: seq<Event>, tab: nat): nat
    requires Valid(s)
    decreases |events|
  {
    if events == [] then 0
    else
      StepKeepsValid(s, events[0]);
      Notes(s, events[0], tab) + Changes(Step(s, events[0]), events[1..], tab)
  }

  /** A tab keeps its number for ever, only page changes move its revision, and a closed
  tab is never opened again. */
  ghost predicate Grows(s: Tabs, r: Tabs, tab: nat, changes: nat) {
    && tab < |s.known| <= |r.known|
    && r.known[tab].page == s.known[tab].page
    && r.known[tab].revision == s.known[tab].revision + changes
    && (tab in r.open ==> tab in s.open)
  }

  lemma {:induction false} RegisterTabsGrows(s: Tabs, pages: seq<nat>, tab: nat)
    requires Valid(s) && tab < |s.known|
    ensures Grows(s, RegisterTabs(s, pages), tab, 0)
    decreases |pages|
  {
    if pages != [] {
      RegisterKeepsValid(s, pages[0], false);
      RegisterTabsGrows(RegisterTab(s, pages[0], false), pages[1..], tab);
    }
  }

  lemma StepGrows(s: Tabs, e: Event, tab: nat)
    requires Valid(s) && tab < |s.known|
    ensures Grows(s, Step(s, e), tab, Notes(s, e, tab))
  {
    match e
    case Launched(pages) =>
      if pages != [] {
        var cleared := s.(open := [], active := None);
        RegisterKeepsValid(cleared, pages[0], true);
        RegisterTabsGrows(ActivateTab(RegisterTab(cleared, pages[0], true), |s.known|), pages[1..], tab);
      }
    case _ =>
  }

  lemma {:induction false} RunGrows(s: Tabs, events: seq<Event>, tab: nat)
    requires Valid(s) && tab < |s.known|
    ensures Grows(s, Run(s, events), tab, Changes(s, events, tab))
    decreases |events|
  {
    if events != [] {
      StepKeepsValid(s, events[0]);
      StepGrows(s, events[0], tab);
      RunGrows(Step(s, events[0]), events[1..], tab);
    }
  }

  // ----- which tab is active, and which is the main one -----

  /** What is left begins with the first tab that is not the one taken out. */
  lemma {:induction false} WithoutFirst(open: seq<nat>, tab: nat)
    ensures Without(open, tab) == [] <==> forall t :: t in open ==> t == tab
    ensures Without(open, tab) != [] ==>
              exists i :: 0 <= i < |open| && open[i] == Without(open, tab)[0] != tab && forall j :: 0 <= j < i ==> open[j] == tab
  {
    if open != [] {
      WithoutFirst(open[1..], tab);
      if open[0] == tab {
        if Without(open[1..], tab) != [] {
          var i :| 0 <= i < |open[1..]| && open[1..][i] == Without(open[1..], tab)[0] != tab
                   && forall j :: 0 <= j < i ==> open[1..][j] == tab;
          assert open[i + 1] == Without(open, tab)[0];
          assert forall j :: 1 <= j < i + 1 ==> open[j] == open[1..][j - 1];
        }
      } else {
        assert open[0] == Without(open, tab)[0];
        assert open[0] in open;
      }
      assert forall t :: t in open <==> t == open[0] || t in open[1..];
    }
  }

  /** Closing the active tab activates the one that has been open longest and makes it the
  main one if either was; closing another tab leaves the active one as it is. */
  lemma CloseActivatesOldest(s: Tabs, tab: nat)
    requires Valid(s) && tab in s.open && s.ActiveIsOpen()
    ensures var r := Step(s, Closed(tab));
            && tab !in r.open && (forall t :: t in r.open <==> t in s.open && t != tab)
            && (s.active != Some(tab) ==> r.active == s.active && r.known == s.known && r.generation == s.generation)
            && (s.active == Some(tab) && |s.open| > 1 ==>
                  && r.active.Some? && r.active.value in r.open
                  && r.active.value == (if s.open[0] == tab then s.open[1] else s.open[0])
                  && r.generation == s.known[r.active.value].revision
                  && r.known[r.active.value].isMain == (s.known[r.active.value].isMain || s.known[tab].isMain)
                  && forall t :: 0 <= t < |s.known| && t != r.active.value ==> r.known[t] == s.known[t])
  {
    WithoutFirst(s.open, tab);
  }

  /** A launch opens one tab for each page, with the first page's as the active and only main
  one; registering a page again never makes its tab lose that. */
  lemma LaunchActivatesFirst(s: Tabs, page: nat)
    requires Valid(s)
    ensures var r := Step(s, Launched([page]));
            && r.open == [|s.known|] && r.active == Some(|s.known|) && |r.known| == |s.known| + 1
            && r.known[|s.known|] == Tab(page, true, 0, 0) && r.generation == 0
            && forall isMain :: Step(r, Registered(page, isMain)) == r
  {
    var r := Step(s, Launched([page]));
    assert r.open == [|s.known|];
    forall isMain
      ensures Step(r, Registered(page, isMain)) == r
    {
      assert r.known[|s.known| := r.known[|s.known|]] == r.known;
    }
  }

  // ----- the guard of writes -----

  datatype Refusal = InvalidTabId | TabChanged | InvalidRevision | PageChanged

  predicate ControlUnit(u: CodeUnit) { u < 0x20 || u == 0x7F }

  predicate AcceptableTabId(id: Str) {
    0 < |id| <= 100 && forall i :: 0 <= i < |id| ==> !ControlUnit(id[i])
  }

  function Guard(s: Tabs, expected: Option<int>, expectedTabId: Option<Str>): Option<Refusal> {
    if expectedTabId.Some? && !AcceptableTabId(expectedTabId.value) then Some(InvalidTabId)
    else if expectedTabId.Some? && !(s.active.Some? && TabId(s.active.value) == expectedTabId.value) then Some(TabChanged)
    else if expected.None? then None
    else if !(0 <= expected.value <= MAX_SAFE_INTEGER) then Some(InvalidRevision)
    else if expected.value != s.generation then Some(PageChanged)
    else None
  }

  lemma TabIdIsAcceptable(n: nat)
    ensures AcceptableTabId(TabId(n)) <==> |TargetRegistry.Base36(n + 1)| <= 96
  {
    var id := TabId(n);
    var digits := TargetRegistry.Base36(n + 1);
    forall i | 0 <= i < |id|
      ensures !ControlUnit(id[i])
    {
      if i >= 4 {
        assert id[i] == digits[i - 4] && TargetRegistry.IsDigit36(digits[i - 4]);
      }
    }
  }

  /** A write that names the tab and the revision that were observed passes the guard only
  when the same tab is active and its page has not changed in the meantime, whatever else
  happened to this and to other tabs; and it does pass then, unless the tab was closed. */
  lemma GuardMeansUnchanged(s: Tabs, events: seq<Event>, tab: nat)
    requires Valid(s) && s.ActiveIsOpen() && s.active == Some(tab) && s.generation <= MAX_SAFE_INTEGER
    requires |TargetRegistry.Base36(tab + 1)| <= 96
    ensures var r := Run(s, events);
            && (Guard(r, Some(s.generation), Some(TabId(tab))).None? ==> r.active == Some(tab) && Changes(s, events, tab) == 0)
            && (r.active == Some(tab) && Changes(s, events, tab) == 0 && tab in r.open ==>
                  Guard(r, Some(s.generation), Some(TabId(tab))).None?)
  {
    hide Run, Changes, TargetRegistry.Base36;
    var r := Run(s, events);
    RunGrows(s, events, tab);
    TabIdIsAcceptable(tab);
    if r.active.Some? {
      TabIdsDiffer(r.active.value, tab);
    }
  }

  /** A write that names only the revision passes exactly when the tab that is active then
  has changed as often as the observed one had, whichever tab that is. */
  lemma RevisionAloneCountsChanges(s: Tabs, events: seq<Event>, other: nat)
    requires Valid(s) && s.generation <= MAX_SAFE_INTEGER && other < |s.known|
    requires Run(s, events).ActiveIsOpen() && Run(s, events).active == Some(other)
    ensures Guard(Run(s, events), Some(s.generation), None).None?
       <==> s.known[other].revision + Changes(s, events, other) == s.generation
  {
    RunGrows(s, events, other);
  }

  /** So after switching to a tab of the same revision it passes, unless it names the tab too. */
  lemma SwitchPassesByRevision(s: Tabs, tab: nat, other: nat)
    requires Valid(s) && s.ActiveIsOpen() && s.active == Some(tab) && s.generation <= MAX_SAFE_INTEGER
    requires AcceptableTabId(TabId(tab))
    requires other in s.open && other != tab
    ensures var after := Step(s, Switched(other));
            && (Guard(after, Some(s.generation), None).None? <==> s.known[other].revision == s.known[tab].revision)
            && Guard(after, Some(s.generation), Some(TabId(tab))) == Some(TabChanged)
  {
    hide TargetRegistry.Base36;
    TabIdsDiffer(other, tab);
  }

  lemma TwoTabsOfOneRevision()
    ensures var s := Step(Step(NO_TABS, Launched([7])), Registered(8, false));
            && Valid(s) && s.ActiveIsOpen() && s.active == Some(0) && 1 in s.open
            && s.known[0].revision == s.known[1].revision == s.generation == 0
            && AcceptableTabId(TabId(0))
  {
    hide TabId, AcceptableTabId;
    var s := Step(NO_TABS, Launched([7]));
    assert s == Tabs([Tab(7, true, 0, 0)], [0], Some(0), 0);
    assert Step(s, Registered(8, false)) == Tabs([Tab(7, true, 0, 0), Tab(8, false, 0, 0)], [0, 1], Some(0), 0);
    FirstTabId();
  }

  lemma FirstTabId()
    ensures AcceptableTabId(TabId(0))
  {
    TabIdIsAcceptable(0);
    assert TargetRegistry.Base36(1) == [TargetRegistry.Digit36(1)];
  }

  // ----- reopening with a window -----

  const BLANK: Str := Ascii("about:blank")

  datatype TabState = TabState(url: Str, isMain: bool, active: bool)

  /** The state of one tab; an unreadable or overlong address counts as blank. */
  function Captured(s: Tabs, tab: nat, urls: seq<Option<Str>>): TabState
    requires tab < |s.known| == |urls|
  {
    var url := match urls[tab] case Some(u) => (if |u| <= 8192 then u else BLANK) case None => BLANK;
    TabState(url, s.known[tab].isMain, s.active == Some(tab))
  }

  function CaptureTabStates(s: Tabs, urls: seq<Option<Str>>): (r: seq<TabState>)
    requires Numbered(s) && |urls| == |s.known|
    ensures r != []
  {
    if s.open == [] then [TabState(BLANK, true, true)]
    else
      assert forall i :: 0 <= i < |s.open| ==> s.open[i] in s.open;
      seq(|s.open|, i requires 0 <= i < |s.open| => Captured(s, s.open[i], urls))
  }

  /** The first state with the property, or the first state of all. */
  function FirstIndex(states: seq<TabState>, p: TabState -> bool): (k: nat)
    requires states != []
    ensures k < |states|
    ensures forall i :: 0 <= i < |states| && p(states[i]) ==> p(states[k]) && k <= i
    ensures !p(states[k]) ==> k == 0
  {
    if p(states[0]) || |states| == 1 then 0
    else
      var k := FirstIndex(states[1..], p);
      if p(states[1..][k]) then k + 1 else 0
  }

  function MainFirst(states: seq<TabState>): (r: seq<TabState>)
    requires states != []
    ensures |r| == |states| && forall t :: t in r ==> t in states
  {
    var m := FirstIndex(states, (t: TabState) => t.isMain);
    [states[m]] + states[..m] + states[m + 1..]
  }

  function Ordered(states: seq<TabState>, maxTabs: nat): (r: seq<TabState>)
    requires states != [] && maxTabs > 0
    ensures r != []
  {
    var all := MainFirst(states);
    if |all| <= maxTabs then all else all[..maxTabs]
  }

  function ActiveIndex(states: seq<TabState>): (k: nat)
    requires states != []
    ensures k < |states|
  {
    FirstIndex(states, (t: TabState) => t.active)
  }

  /** How often restoring a page moves the revision of its tab: as often as its observer
  sees a navigation, and at least once unless the page stays blank. */
  function Moves(url: Str, navigations: nat): nat {
    if url == BLANK then 0 else Max(1, navigations)
  }

  /** The tabs `r` are those of `s` after restoring `states`, in this order. */
  ghost predicate Restored(s: Tabs, r: Tabs, states: seq<TabState>, pages: seq<nat>, navigations: seq<nat>)
    requires s.active.Some? && s.active.value < |s.known|
    requires 0 < |states| == |navigations| == |pages| + 1
  {
    && Valid(r)
    && |r.open| == |states| && |r.known| == |s.known| + |pages|
    && r.open[0] == s.active.value
    && (forall i :: 1 <= i < |states| ==> r.open[i] == |s.known| + i - 1)
    && r.known[r.open[0]] == Moved(s.known[r.open[0]].(isMain := true), Moves(states[0].url, navigations[0]))
    && (forall i :: 1 <= i < |states| ==>
         r.known[r.open[i]] == Moved(Tab(pages[i - 1], false, 0, 0), Moves(states[i].url, navigations[i])))
    && (forall t :: 0 <= t < |s.known| && t != s.active.value ==> r.known[t] == s.known[t])
    && r.active == Some(r.open[ActiveIndex(states)])
  }

  function Moved(tab: Tab, moves: nat): Tab {
    if moves == 0 then tab else tab.(revision := tab.revision + moves, refs := tab.revision + moves)
  }

  /** The main tab goes to the front, and the others keep their order. */
  lemma MainGoesFirst(states: seq<TabState>, m: nat)
    requires m < |states| && states[m].isMain && forall j :: 0 <= j < m ==> !states[j].isMain
    ensures MainFirst(states)[0] == states[m]
    ensures MainFirst(states)[1..] == states[..m] + states[m + 1..]
  {
    assert FirstIndex(states, (t: TabState) => t.isMain) == m;
  }

  lemma MainFirstPermutes(states: seq<TabState>)
    requires states != []
    ensures multiset(MainFirst(states)) == multiset(states)
  {
    var m := FirstIndex(states, (t: TabState) => t.isMain);
    assert states == states[..m] + [states[m]] + states[m + 1..];
    Swap(states[..m], [states[m]], states[m + 1..]);
  }

  lemma Swap(a: seq<TabState>, b: seq<TabState>, c: seq<TabState>)
    ensures multiset(b + a + c) == multiset(a + b + c)
  {
  }

  lemma RestoredTab(s: Tabs, r: Tabs, states: seq<TabState>, pages: seq<nat>, navigations: seq<nat>,
                    urls: seq<Option<Str>>, i: nat)
    requires s.active.Some? && s.active.value < |s.known|
    requires 0 < |states| == |navigations| == |pages| + 1
    requires Restored(s, r, states, pages, navigations)
    requires |urls| == |r.known| && i < |states| && urls[r.open[i]] == Some(states[i].url) && |states[i].url| <= 8192
    requires states[i].active <==> i == ActiveIndex(states)
    ensures |r.open| == |states| && Numbered(r)
    ensures CaptureTabStates(r, urls)[i] == states[i].(isMain := i == 0)
  {
    hide ActiveIndex;
    assert r.open[i] in r.open && r.open[ActiveIndex(states)] in r.open;
    assert Captured(r, r.open[i], urls) == states[i].(isMain := i == 0);
  }

  predicate OnlyActive(states: seq<TabState>, k: nat) {
    k < |states| && forall i :: 0 <= i < |states| ==> (states[i].active <==> i == k)
  }

  lemma OnlyOneActive(s: Tabs, urls: seq<Option<Str>>) returns (k: nat)
    requires Valid(s) && |urls| == |s.known| && s.ActiveIsOpen()
    ensures OnlyActive(CaptureTabStates(s, urls), k)
    ensures |CaptureTabStates(s, urls)| == |s.open|
    ensures forall i :: 0 <= i < |s.open| ==> |CaptureTabStates(s, urls)[i].url| <= 8192
  {
    k :| 0 <= k < |s.open| && s.open[k] == s.active.value;
  }

  lemma ActiveMoves(states: seq<TabState>, k: nat)
    requires states != [] && OnlyActive(states, k)
    ensures OnlyActive(MainFirst(states), ActiveIndex(MainFirst(states)))
  {
    var m := FirstIndex(states, (t: TabState) => t.isMain);
    var r := MainFirst(states);
    var to := if k == m then 0 else if k < m then k + 1 else k;
    forall i | 0 <= i < |r|
      ensures r[i].active <==> i == to
    {
      assert r[i] == states[if i == 0 then m else if i <= m then i - 1 else i];
    }
    assert r[to].active;
  }

  /** Reopening keeps the open tabs: what is captured afterwards is what was captured before,
  with the main tab in front, as the only main one, and with the same tab active. */
  lemma ReopenKeepsTabs(s: Tabs, urls: seq<Option<Str>>, maxTabs: nat, ordered: seq<TabState>,
                        launched: Tabs, pages: seq<nat>, navigations: seq<nat>, r: Tabs, newUrls: seq<Option<Str>>)
    requires Valid(s) && |urls| == |s.known| && s.ActiveIsOpen() && |s.open| <= maxTabs
    requires ordered == Ordered(CaptureTabStates(s, urls), maxTabs)
    requires launched.active.Some? && launched.active.value < |launched.known|
    requires |ordered| == |navigations| == |pages| + 1
    requires Restored(launched, r, ordered, pages, navigations)
    requires |newUrls| == |r.known|
    requires forall i :: 0 <= i < |ordered| ==> newUrls[r.open[i]] == Some(ordered[i].url)
    ensures multiset(ordered) == multiset(CaptureTabStates(s, urls))
    ensures Numbered(r) && |CaptureTabStates(r, newUrls)| == |ordered|
    ensures forall i :: 0 <= i < |ordered| ==> CaptureTabStates(r, newUrls)[i] == ordered[i].(isMain := i == 0)
  {
    hide MainFirst, Captured, ActiveIndex, Restored;
    var before := CaptureTabStates(s, urls);
    var k := OnlyOneActive(s, urls);
    assert ordered == MainFirst(before);
    MainFirstPermutes(before);
    ActiveMoves(before, k);
    assert forall i :: 0 <= i < |ordered| ==> ordered[i] in before;
    RestoredTab(launched, r, ordered, pages, navigations, newUrls, 0);
    forall i | 0 <= i < |ordered|
      ensures CaptureTabStates(r, newUrls)[i] == ordered[i].(isMain := i == 0)
    {
      RestoredTab(launched, r, ordered, pages, navigations, newUrls, i);
    }
  }

  // ----- the session's own fields -----

  ghost predicate Tail(s: seq<nat>, i: nat) { i <= |s| && forall t :: t in s[i..] ==> t in s }

  /** The fields of the session that hold its tabs; `known` stands for the tab objects. */
  class BrowserTabs {
    const maxTabs: nat
    var known: seq<Tab>
    var tabs: seq<nat>
    var activeTabId: Option<nat>
    var pageGeneration: nat

    function ToState(): Tabs
      reads this
    {
      Tabs(known, tabs, activeTabId, pageGeneration)
    }

    constructor (maxTabs: nat)
      ensures ToState() == NO_TABS && this.maxTabs == maxTabs
    {
      this.maxTabs := maxTabs;
      known, tabs, activeTabId, pageGeneration := [], [], None, 0;
    }

    method FindTab(page: nat) returns (r: Option<nat>)
      requires Numbered(ToState())
      ensures r == FindTabByPage(known, tabs, page)
    {
      assert tabs[0..] == tabs;
      for i := 0 to |tabs|
        invariant Tail(tabs, i) && FindTabByPage(known, tabs, page) == FindTabByPage(known, tabs[i..], page)
      {
        assert tabs[i] in tabs && tabs[i..][0] == tabs[i] && tabs[i..][1..] == tabs[i + 1..];
        if known[tabs[i]].page == page {
          return Some(tabs[i]);
        }
      }
      return None;
    }

    method RegisterTab(page: nat, isMain: bool) returns (tab: nat)
      requires Valid(ToState())
      modifies `known, `tabs
      ensures Valid(ToState()) && ToState() == Step(old(ToState()), Registered(page, isMain))
      ensures tab in tabs && known[tab].page == page
    {
      RegisterKeepsValid(ToState(), page, isMain);
      var existing := FindTab(page);
      if existing.Some? {
        tab := existing.value;
        known := known[tab := known[tab].(isMain := known[tab].isMain || isMain)];
      } else {
        tab := |known|;
        known := known + [Tab(page, isMain, 0, 0)];
        tabs := tabs + [tab];
      }
    }

    method ActivateTab(tab: nat)
      requires Valid(ToState()) && tab in tabs
      modifies `activeTabId, `pageGeneration
      ensures Valid(ToState()) && ToState() == Step(old(ToState()), Switched(tab))
    {
      activeTabId := Some(tab);
      pageGeneration := known[tab].revision;
    }

    method NotePageGeneration(tab: Option<nat>)
      requires Valid(ToState()) && (tab.Some? ==> tab.value < |known|)
      modifies `known, `pageGeneration
      ensures Valid(ToState())
      ensures ToState() == Step(old(ToState()), if tab.Some? then Navigated(tab.value) else Noted)
    {
      NoteKeepsValid(ToState(), tab);
      var target := tab;
      if tab.None? && activeTabId.Some? && activeTabId.value in tabs {
        target := activeTabId;
      }
      if target.None? {
        pageGeneration := pageGeneration + 1;
        return;
      }
      var t := target.value;
      known := known[t := known[t].(revision := known[t].revision + 1)];
      known := known[t := known[t].(refs := known[t].revision)];
      if activeTabId == Some(t) {
        pageGeneration := known[t].revision;
      }
    }

    /** The end of closing one of several tabs, once its page is closed. */
    method FinishCloseTab(tab: nat)
      requires Valid(ToState()) && tab < |known|
      modifies this
      ensures Valid(ToState()) && ToState() == Step(old(ToState()), Closed(tab))
    {
      CloseKeepsValid(ToState(), tab);
      tabs := Without(tabs, tab);
      if activeTabId == Some(tab) && tabs != [] {
        var replacement := tabs[0];
        assert replacement in tabs;
        known := known[replacement := known[replacement].(isMain := known[replacement].isMain || known[tab].isMain)];
        activeTabId := Some(replacement);
        pageGeneration := known[replacement].revision;
      }
    }

    method LaunchContext(pages: seq<nat>)
      requires Valid(ToState()) && pages != []
      modifies this
      ensures Valid(ToState()) && ToState() == Step(old(ToState()), Launched(pages))
    {
      tabs, activeTabId := [], None;
      var mainTab := RegisterTab(pages[0], true);
      ActivateTab(mainTab);
      ghost var launched := ToState();
      for i := 1 to |pages|
        invariant Valid(ToState()) && RegisterTabs(launched, pages[1..]) == RegisterTabs(ToState(), pages[i..])
      {
        ghost var before := ToState();
        assert pages[i..][0] == pages[i] && pages[i..][1..] == pages[i + 1..];
        var _ := RegisterTab(pages[i], false);
        assert RegisterTabs(before, pages[i..]) == RegisterTabs(ToState(), pages[i + 1..]);
      }
    }

    method AssertExpectedPageRevision(expected: Option<int>, expectedTabId: Option<Str>) returns (r: Option<Refusal>)
      ensures r == Guard(ToState(), expected, expectedTabId)
    {
      if expectedTabId.Some? {
        if !AcceptableTabId(expectedTabId.value) {
          return Some(InvalidTabId);
        }
        if activeTabId.None? || expectedTabId.value != TabId(activeTabId.value) {
          return Some(TabChanged);
        }
      }
      if expected.None? {
        return None;
      }
      if expected.value < 0 || expected.value > MAX_SAFE_INTEGER {
        return Some(InvalidRevision);
      }
      return if expected.value != pageGeneration then Some(PageChanged) else None;
    }

    /** The rest of restoring one page after its navigation, which the page's observer has
    seen `navigations` times. */
    method RestoreTabPage(tab: nat, url: Str, navigations: nat)
      requires Valid(ToState()) && tab in tabs
      modifies `known, `pageGeneration
      ensures Valid(ToState())
      ensures known == old(known)[tab := Moved(old(known)[tab], Moves(url, navigations))]
    {
      if url == BLANK {
        return;
      }
      var beforeRevision := known[tab].revision;
      for i := 0 to navigations
        invariant Valid(ToState())
        invariant known == old(known)[tab := Moved(old(known)[tab], i)]
      {
        NotePageGeneration(Some(tab));
      }
      if known[tab].revision == beforeRevision {
        NotePageGeneration(Some(tab));
      }
    }

    /** The main tab stays alone and goes to the first address. */
    method RestoreMain(ordered: seq<TabState>, ghost pages: seq<nat>, navigations: seq<nat>)
      requires Valid(ToState()) && ToState().ActiveIsOpen()
      requires 0 < |ordered| == |navigations| == |pages| + 1
      modifies this
      ensures RestoredSoFar(old(ToState()), ToState(), ordered, pages, navigations, 1)
    {
      var initialMain := activeTabId.value;
      tabs := [initialMain];
      known := known[initialMain := known[initialMain].(isMain := true)];
      RestoreTabPage(initialMain, ordered[0].url, navigations[0]);
    }

    method RestoreNext(ghost start: Tabs, ordered: seq<TabState>, pages: seq<nat>, navigations: seq<nat>, i: nat)
      requires start.active.Some? && start.active.value < |start.known|
      requires 0 < i < |ordered| == |navigations| == |pages| + 1
      requires Distinct(pages) && start.known[start.active.value].page !in pages
      requires RestoredSoFar(start, ToState(), ordered, pages, navigations, i)
      modifies this
      ensures RestoredSoFar(start, ToState(), ordered, pages, navigations, i + 1)
    {
      ghost var before := ToState();
      var tab := RegisterTab(pages[i - 1], false);
      FreshPage(start, before, ordered, pages, navigations, i);
      assert tab == |before.known|;
      RestoreTabPage(tab, ordered[i].url, navigations[i]);
      RestoredNext(start, before, ToState(), ordered, pages, navigations, i);
    }

    /** `pages` are the fresh pages that the context opens. */
    method RestoreTabStates(states: seq<TabState>, pages: seq<nat>, navigations: seq<nat>)
      requires Valid(ToState()) && ToState().ActiveIsOpen() && states != [] && maxTabs > 0
      requires |Ordered(states, maxTabs)| == |navigations| == |pages| + 1
      requires Distinct(pages) && known[activeTabId.value].page !in pages
      modifies this
      ensures Restored(old(ToState()), ToState(), Ordered(states, maxTabs), pages, navigations)
    {
      ghost var start := ToState();
      var ordered := Ordered(states, maxTabs);
      RestoreMain(ordered, pages, navigations);
      for i := 1 to |ordered|
        invariant RestoredSoFar(start, ToState(), ordered, pages, navigations, i)
      {
        RestoreNext(start, ordered, pages, navigations, i);
      }
      RestoredAll(start, ToState(), ordered, pages, navigations);
      ActivateTab(tabs[ActiveIndex(ordered)]);
    }
  }

  /** The first `n` tabs are restored and the first of them is still active. */
  ghost predicate RestoredSoFar(s: Tabs, r: Tabs, states: seq<TabState>, pages: seq<nat>, navigations: seq<nat>, n: nat)
    requires s.active.Some? && s.active.value < |s.known|
    requires 0 < n <= |states| == |navigations| == |pages| + 1
  {
    && Valid(r) && r.active == s.active
    && |r.open| == n && |r.known| == |s.known| + n - 1
    && r.open[0] == s.active.value
    && (forall i :: 1 <= i < n ==> r.open[i] == |s.known| + i - 1)
    && r.known[r.open[0]] == Moved(s.known[r.open[0]].(isMain := true), Moves(states[0].url, navigations[0]))
    && (forall i :: 1 <= i < n ==>
         r.known[r.open[i]] == Moved(Tab(pages[i - 1], false, 0, 0), Moves(states[i].url, navigations[i])))
    && (forall t :: 0 <= t < |s.known| && t != s.active.value ==> r.known[t] == s.known[t])
  }

  lemma FreshPage(s: Tabs, r: Tabs, states: seq<TabState>, pages: seq<nat>, navigations: seq<nat>, n: nat)
    requires s.active.Some? && s.active.value < |s.known|
    requires 0 < n < |states| == |navigations| == |pages| + 1
    requires RestoredSoFar(s, r, states, pages, navigations, n)
    requires Distinct(pages) && s.known[s.active.value].page !in pages
    ensures FindTabByPage(r.known, r.open, pages[n - 1]).None?
  {
    forall i | 0 <= i < n
      ensures r.open[i] < |r.known| && r.known[r.open[i]].page != pages[n - 1]
    {
      assert r.open[i] in r.open;
      if i == 0 {
        assert r.known[r.open[0]].page == s.known[s.active.value].page;
      }
    }
  }

  lemma RestoredNext(s: Tabs, b: Tabs, r: Tabs, states: seq<TabState>, pages: seq<nat>, navigations: seq<nat>, n: nat)
    requires s.active.Some? && s.active.value < |s.known|
    requires 0 < n < |states| == |navigations| == |pages| + 1
    requires RestoredSoFar(s, b, states, pages, navigations, n)
    requires Valid(r) && r.active == b.active && r.open == b.open + [|b.known|]
    requires r.known == b.known + [Moved(Tab(pages[n - 1], false, 0, 0), Moves(states[n].url, navigations[n]))]
    ensures RestoredSoFar(s, r, states, pages, navigations, n + 1)
  {
    hide Moved, Moves, Valid;
    forall i | 0 <= i < n
      ensures r.open[i] == b.open[i] < |b.known| && r.known[r.open[i]] == b.known[b.open[i]]
    {
    }
  }

  lemma RestoredAll(s: Tabs, r: Tabs, states: seq<TabState>, pages: seq<nat>, navigations: seq<nat>)
    requires s.active.Some? && s.active.value < |s.known|
    requires 0 < |states| == |navigations| == |pages| + 1
    requires RestoredSoFar(s, r, states, pages, navigations, |states|)
    ensures ActiveIndex(states) < |r.open| && r.open[ActiveIndex(states)] in r.open
    ensures Restored(s, Step(r, Switched(r.open[ActiveIndex(states)])), states, pages, navigations)
  {
    hide Moved, Moves, ActiveIndex, Valid;
    var e := Switched(r.open[ActiveIndex(states)]);
    StepKeepsValid(r, e);
  }
}
