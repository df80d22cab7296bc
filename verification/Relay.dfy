/** The browser relay's tab and session tables, through its event handlers and worker restarts. */
module Relay {
  import opened Wrappers
  import opened Text

  type Tab = n: nat | n > 0 witness 1

  datatype TabState = Connecting | Connected(session: nat, target: string, order: nat)

  datatype Saved = Saved(tab: Tab, session: nat, target: string, order: nat)

  datatype Snapshot = Snapshot(entries: seq<Saved>, next: nat)

  /** A session is named by its number. */
  function SessionName(n: nat): string {
    "cb-tab-" + Digits(n)
  }

  lemma SessionNamesDiffer(m: nat, n: nat)
    requires SessionName(m) == SessionName(n)
    ensures m == n
  {
    assert SessionName(m)[7..] == Digits(m) && SessionName(n)[7..] == Digits(n);
    DigitsInjective(m, n);
  }

  /** The tables, the last stored snapshot, and the tabs whose debugger a re-announce is waiting on, each with the
      session it had when the wait began. */
  datatype State = State(
    tabs: map<Tab, TabState>,
    tabBySession: map<nat, Tab>,
    children: map<string, Tab>,
    reattach: set<Tab>,
    nextSession: nat,
    stored: Option<Snapshot>,
    probes: set<(Tab, nat)>)

  const START := State(map[], map[], map[], {}, 1, None, {})

  /** One uninterrupted stretch of a handler. */
  datatype Event =
    | Connect(tab: Tab)
    | AttachCommit(tab: Tab, target: string)
    | AttachFailed(tab: Tab)
    | Detach(tab: Tab)
    | Navigated(tab: Tab)
    | ReattachOver(tab: Tab)
    | Removed(tab: Tab)
    | Replaced(added: Tab, removed: Tab)
    | ChildAttached(tab: Tab, child: string)
    | ChildDetached(tab: Tab, child: string)
    | RelayClosed
    | ProbeStarted(tab: Tab)
    | ProbePassed(tab: Tab, session: nat)
    | ProbeFailed(tab: Tab, session: nat)
    | Persist(entries: seq<Saved>)
    | Restart(readable: bool, dead: set<Tab>)

  predicate HasSession(tabs: map<Tab, TabState>, tab: Tab) {
    tab in tabs && tabs[tab].Connected?
  }

  // ------------------------------------------------------------------ pieces of the handlers

  function WithoutChildren(children: map<string, Tab>, tab: Tab): map<string, Tab> {
    map c | c in children && children[c] != tab :: children[c]
  }

  function MovedChildren(children: map<string, Tab>, added: Tab, removed: Tab): map<string, Tab> {
    map c | c in children :: if children[c] == removed then added else children[c]
  }

  function Forgotten(tabBySession: map<nat, Tab>, tabs: map<Tab, TabState>, tab: Tab): map<nat, Tab> {
    if HasSession(tabs, tab) then tabBySession - {tabs[tab].session} else tabBySession
  }

  /** The tab, its session and its child sessions are gone. */
  function Cleared(s: State, tab: Tab): State {
    s.(tabs := s.tabs - {tab}, tabBySession := Forgotten(s.tabBySession, s.tabs, tab),
       children := WithoutChildren(s.children, tab))
  }

  predicate Saves(e: Saved, tabs: map<Tab, TabState>) {
    e.tab in tabs && tabs[e.tab] == Connected(e.session, e.target, e.order)
  }

  /** The connected tabs, each once, in some order. */
  ghost predicate Lists(entries: seq<Saved>, tabs: map<Tab, TabState>) {
    && (forall k :: 0 <= k < |entries| ==> Saves(entries[k], tabs))
    && (forall j, k :: 0 <= j < k < |entries| ==> entries[j].tab != entries[k].tab)
    && (forall t :: HasSession(tabs, t) ==> exists k :: 0 <= k < |entries| && entries[k].tab == t)
  }

  function RestoredTabs(entries: seq<Saved>, n: nat): map<Tab, TabState>
    requires n <= |entries|
  {
    if n == 0 then map[]
    else RestoredTabs(entries, n - 1)[entries[n-1].tab :=
           Connected(entries[n-1].session, entries[n-1].target, entries[n-1].order)]
  }

  function RestoredSessions(entries: seq<Saved>, n: nat): map<nat, Tab>
    requires n <= |entries|
  {
    if n == 0 then map[] else RestoredSessions(entries, n - 1)[entries[n-1].session := entries[n-1].tab]
  }

  /** The tables less those of the first n entries whose tabs are dead. */
  function LivingTabs(tabs: map<Tab, TabState>, entries: seq<Saved>, dead: set<Tab>, n: nat): map<Tab, TabState>
    requires n <= |entries|
  {
    if n == 0 then tabs
    else
      var before := LivingTabs(tabs, entries, dead, n - 1);
      if entries[n-1].tab in dead then before - {entries[n-1].tab} else before
  }

  function LivingSessions(sessions: map<nat, Tab>, entries: seq<Saved>, dead: set<Tab>, n: nat): map<nat, Tab>
    requires n <= |entries|
  {
    if n == 0 then sessions
    else
      var before := LivingSessions(sessions, entries, dead, n - 1);
      if entries[n-1].tab in dead then before - {entries[n-1].session} else before
  }

  function Larger(a: nat, b: nat): nat { if a < b then b else a }

  /** A blank worker that reads the snapshot, if it can, and drops the tabs that are dead. */
  function Restarted(s: State, readable: bool, dead: set<Tab>): State {
    var blank := START.(stored := s.stored);
    if !readable || s.stored.None? then blank
    else
      var entries := s.stored.value.entries;
      blank.(tabs := LivingTabs(RestoredTabs(entries, |entries|), entries, dead, |entries|),
             tabBySession := LivingSessions(RestoredSessions(entries, |entries|), entries, dead, |entries|),
             nextSession := Larger(1, s.stored.value.next))
  }

  // ------------------------------------------------------------------ steps

  ghost predicate Enabled(s: State, e: Event) {
    match e
    case Connect(tab) => !HasSession(s.tabs, tab)
    case AttachCommit(tab, target) => Trim(target) == target && target != ""
    case Navigated(tab) => tab !in s.reattach
    case Replaced(added, removed) => removed in s.tabs
    case ChildAttached(tab, child) => HasSession(s.tabs, tab)
    case ChildDetached(tab, child) => HasSession(s.tabs, tab)
    case ProbeStarted(tab) => HasSession(s.tabs, tab)
    case ProbePassed(tab, session) => (tab, session) in s.probes
    case ProbeFailed(tab, session) => (tab, session) in s.probes
    case Persist(entries) => Lists(entries, s.tabs)
    case _ => true
  }

  function Apply(s: State, e: Event): State {
    match e
    case Connect(tab) => s.(tabs := s.tabs[tab := Connecting])
    case AttachCommit(tab, target) =>
      s.(tabs := s.tabs[tab := Connected(s.nextSession, target, s.nextSession)],
         tabBySession := s.tabBySession[s.nextSession := tab],
         nextSession := s.nextSession + 1)
    case AttachFailed(tab) => s.(tabs := s.tabs - {tab})
    case Detach(tab) => Cleared(s, tab)
    case Navigated(tab) => Cleared(s, tab).(reattach := s.reattach + {tab})
    case ReattachOver(tab) => s.(reattach := s.reattach - {tab})
    case Removed(tab) =>
      if tab in s.tabs then Cleared(s, tab).(reattach := s.reattach - {tab}) else s.(reattach := s.reattach - {tab})
    case Replaced(added, removed) =>
      if removed !in s.tabs then s
      else
        s.(tabs := (s.tabs - {removed})[added := s.tabs[removed]],
           tabBySession := if HasSession(s.tabs, removed) then s.tabBySession[s.tabs[removed].session := added]
                           else s.tabBySession,
           children := MovedChildren(s.children, added, removed))
    case ChildAttached(tab, child) => s.(children := s.children[child := tab])
    case ChildDetached(tab, child) => s.(children := s.children - {child})
    case RelayClosed => s.(reattach := {})
    case ProbeStarted(tab) =>
      if HasSession(s.tabs, tab) then s.(probes := s.probes + {(tab, s.tabs[tab].session)}) else s
    case ProbePassed(tab, session) => s.(probes := s.probes - {(tab, session)})
    case ProbeFailed(tab, session) =>
      s.(tabs := s.tabs - {tab}, tabBySession := s.tabBySession - {session}, probes := s.probes - {(tab, session)})
    case Persist(entries) => s.(stored := Some(Snapshot(entries, s.nextSession)))
    case Restart(readable, dead) => Restarted(s, readable, dead)
  }

  // ------------------------------------------------------------------ the invariant

  /** The session of every tab leads back to that tab. */
  ghost predicate LeadsBack(tabs: map<Tab, TabState>, tabBySession: map<nat, Tab>) {
    forall t :: HasSession(tabs, t) ==> tabs[t].session in tabBySession && tabBySession[tabs[t].session] == t
  }

  /** Every session number is below the next, and every connected tab has a target. */
  ghost predicate Live(tabs: map<Tab, TabState>, next: nat) {
    forall t :: HasSession(tabs, t) ==> tabs[t].session < next && tabs[t].target != ""
  }

  /** Each tab and each session once, every session number below the next. */
  ghost predicate Sound(snapshot: Snapshot) {
    && (forall j, k :: 0 <= j < k < |snapshot.entries| ==>
          snapshot.entries[j].tab != snapshot.entries[k].tab
          && snapshot.entries[j].session != snapshot.entries[k].session)
    && (forall k :: 0 <= k < |snapshot.entries| ==>
          snapshot.entries[k].session < snapshot.next && snapshot.entries[k].target != "")
  }

  /** No two connected tabs have one session. */
  ghost predicate OwnSessions(tabs: map<Tab, TabState>) {
    forall t, u :: HasSession(tabs, t) && HasSession(tabs, u) && tabs[t].session == tabs[u].session ==> t == u
  }

  /** What every step keeps, whatever it overlaps with. */
  ghost predicate Inv(s: State) {
    && OwnSessions(s.tabs)
    && Live(s.tabs, s.nextSession)
    && (s.stored.Some? ==> Sound(s.stored.value))
  }

  lemma CommitKeepsInv(s: State, tab: Tab, target: string)
    requires Inv(s)
    ensures target != "" ==> Inv(Apply(s, AttachCommit(tab, target)))
  {
    var c := Apply(s, AttachCommit(tab, target));
    forall t | HasSession(c.tabs, t) && t != tab ensures HasSession(s.tabs, t) && c.tabs[t] == s.tabs[t] {
    }
  }

  lemma ReplacedKeepsInv(s: State, added: Tab, removed: Tab)
    requires Inv(s) && removed in s.tabs
    ensures Inv(Apply(s, Replaced(added, removed)))
  {
    var c := Apply(s, Replaced(added, removed));
    forall t | HasSession(c.tabs, t)
      ensures t == added ==> HasSession(s.tabs, removed) && c.tabs[t] == s.tabs[removed]
      ensures t != added ==> t != removed && HasSession(s.tabs, t) && c.tabs[t] == s.tabs[t]
    {
    }
  }

  lemma PersistKeepsInv(s: State, entries: seq<Saved>)
    requires Inv(s) && Lists(entries, s.tabs)
    ensures Inv(Apply(s, Persist(entries)))
  {
    forall j, k | 0 <= j < k < |entries| ensures entries[j].session != entries[k].session {
      assert Saves(entries[j], s.tabs) && Saves(entries[k], s.tabs);
    }
    forall k | 0 <= k < |entries| ensures entries[k].session < s.nextSession && entries[k].target != "" {
      assert Saves(entries[k], s.tabs) && HasSession(s.tabs, entries[k].tab);
    }
  }

  lemma {:induction false} RestoredSaves(snapshot: Snapshot, n: nat)
    requires Sound(snapshot) && n <= |snapshot.entries|
    ensures forall k :: 0 <= k < n ==> Saves(snapshot.entries[k], RestoredTabs(snapshot.entries, n))
  {
    if n > 0 {
      RestoredSaves(snapshot, n - 1);
    }
  }

  lemma {:induction false} RestoredFrom(entries: seq<Saved>, n: nat, t: Tab)
    requires n <= |entries|
    ensures t in RestoredTabs(entries, n) ==> exists k :: 0 <= k < n && entries[k].tab == t
  {
    if n > 0 && t != entries[n-1].tab {
      RestoredFrom(entries, n - 1, t);
    }
  }

  lemma RestoredTabsAre(snapshot: Snapshot, n: nat)
    requires Sound(snapshot) && n <= |snapshot.entries|
    ensures var tabs := RestoredTabs(snapshot.entries, n);
      && (forall t :: t in tabs ==> exists k :: 0 <= k < n && snapshot.entries[k].tab == t)
      && (forall k :: 0 <= k < n ==> Saves(snapshot.entries[k], tabs))
  {
    RestoredSaves(snapshot, n);
    forall t | t in RestoredTabs(snapshot.entries, n)
      ensures exists k :: 0 <= k < n && snapshot.entries[k].tab == t
    {
      RestoredFrom(snapshot.entries, n, t);
    }
  }

  lemma {:induction false} RestoredLeadsBack(snapshot: Snapshot, n: nat)
    requires Sound(snapshot) && n <= |snapshot.entries|
    ensures LeadsBack(RestoredTabs(snapshot.entries, n), RestoredSessions(snapshot.entries, n))
  {
    if n > 0 {
      RestoredLeadsBack(snapshot, n - 1);
      RestoredTabsAre(snapshot, n - 1);
      var e, before := snapshot.entries[n-1], RestoredTabs(snapshot.entries, n - 1);
      forall t | HasSession(before, t) ensures before[t].session != e.session {
        var k :| 0 <= k < n - 1 && snapshot.entries[k].tab == t;
        assert Saves(snapshot.entries[k], before);
      }
    }
  }

  lemma {:induction false} LivingTabsAre(tabs: map<Tab, TabState>, entries: seq<Saved>, dead: set<Tab>, n: nat)
    requires n <= |entries|
    ensures var living := LivingTabs(tabs, entries, dead, n);
      && (forall t :: t in living ==> t in tabs && living[t] == tabs[t])
      && (forall t :: t in tabs ==> (t !in living <==> t in dead && exists k :: 0 <= k < n && entries[k].tab == t))
  {
    if n > 0 {
      LivingTabsAre(tabs, entries, dead, n - 1);
    }
  }

  lemma {:induction false} LivingLeadsBack(
    tabs: map<Tab, TabState>, sessions: map<nat, Tab>, entries: seq<Saved>, dead: set<Tab>, n: nat)
    requires n <= |entries| && LeadsBack(tabs, sessions)
    requires forall k :: 0 <= k < |entries| ==> Saves(entries[k], tabs)
    ensures LeadsBack(LivingTabs(tabs, entries, dead, n), LivingSessions(sessions, entries, dead, n))
  {
    if n > 0 {
      LivingLeadsBack(tabs, sessions, entries, dead, n - 1);
      LivingTabsAre(tabs, entries, dead, n - 1);
      assert Saves(entries[n-1], tabs);
    }
  }

  lemma RestartedIs(s: State, dead: set<Tab>)
    requires s.stored.Some? && Sound(s.stored.value)
    ensures var r, entries := Restarted(s, true, dead), s.stored.value.entries;
      && LeadsBack(r.tabs, r.tabBySession)
      && (forall t :: t in r.tabs <==> t !in dead && exists k :: 0 <= k < |entries| && entries[k].tab == t)
      && (forall k :: 0 <= k < |entries| && entries[k].tab !in dead ==> Saves(entries[k], r.tabs))
  {
    var entries := s.stored.value.entries;
    var tabs, sessions := RestoredTabs(entries, |entries|), RestoredSessions(entries, |entries|);
    RestoredTabsAre(s.stored.value, |entries|);
    RestoredLeadsBack(s.stored.value, |entries|);
    LivingTabsAre(tabs, entries, dead, |entries|);
    LivingLeadsBack(tabs, sessions, entries, dead, |entries|);
  }

  lemma RestartKeepsInv(s: State, readable: bool, dead: set<Tab>)
    requires Inv(s)
    ensures Inv(Restarted(s, readable, dead))
    ensures LeadsBack(Restarted(s, readable, dead).tabs, Restarted(s, readable, dead).tabBySession)
  {
    if readable && s.stored.Some? {
      var snapshot := s.stored.value;
      var entries := snapshot.entries;
      RestartedIs(s, dead);
      var c := Restarted(s, readable, dead);
      forall t | HasSession(c.tabs, t) ensures c.tabs[t].session < c.nextSession && c.tabs[t].target != "" {
        var k :| 0 <= k < |entries| && entries[k].tab == t;
        assert Saves(entries[k], c.tabs);
      }
    }
  }

  /** The remaining steps leave every connected tab as it was, or disconnect it. */
  lemma OtherKeepsInv(s: State, e: Event)
    requires Inv(s) && Enabled(s, e)
    requires !e.AttachCommit? && !e.Replaced? && !e.Persist? && !e.Restart?
    ensures Inv(Apply(s, e))
  {
    forall t | HasSession(Apply(s, e).tabs, t) ensures HasSession(s.tabs, t) && Apply(s, e).tabs[t] == s.tabs[t] {
    }
  }

  lemma StepKeepsInv(s: State, e: Event)
    requires Inv(s) && Enabled(s, e)
    ensures Inv(Apply(s, e))
  {
    match e
    case AttachCommit(tab, target) => CommitKeepsInv(s, tab, target);
    case Replaced(added, removed) => ReplacedKeepsInv(s, added, removed);
    case Persist(entries) => PersistKeepsInv(s, entries);
    case Restart(readable, dead) => RestartKeepsInv(s, readable, dead);
    case _ => OtherKeepsInv(s, e);
  }

  // ------------------------------------------------------------------ runs

  function After(events: seq<Event>): State
    decreases |events|
  {
    if events == [] then START else Apply(After(events[..|events|-1]), events[|events|-1])
  }

  ghost predicate Possible(events: seq<Event>)
    decreases |events|
  {
    events != [] ==>
      Possible(events[..|events|-1]) && Enabled(After(events[..|events|-1]), events[|events|-1])
  }

  /** In every state a run can reach, through any number of restarts. */
  lemma {:induction false} RunKeepsInv(events: seq<Event>)
    requires Possible(events)
    ensures Inv(After(events))
    decreases |events|
  {
    if events != [] {
      RunKeepsInv(events[..|events|-1]);
      StepKeepsInv(After(events[..|events|-1]), events[|events|-1]);
    }
  }

  /** So no two tabs ever share a session, and every session number is below the next. */
  lemma NoSharedSession(events: seq<Event>, t: Tab, u: Tab)
    requires Possible(events) && HasSession(After(events).tabs, t) && HasSession(After(events).tabs, u)
    ensures After(events).tabs[t].session == After(events).tabs[u].session <==> t == u
    ensures After(events).tabs[t].session < After(events).nextSession
  {
    RunKeepsInv(events);
  }

  // ------------------------------------------------------------------ sessions that lead back

  /** The probe of a tab fails, and another connected tab has the session that was probed. */
  ghost predicate DropsAnother(s: State, e: Event) {
    e.ProbeFailed? && exists t :: HasSession(s.tabs, t) && t != e.tab && s.tabs[t].session == e.session
  }

  lemma OtherStepLeadsBack(s: State, e: Event)
    requires Inv(s) && LeadsBack(s.tabs, s.tabBySession) && Enabled(s, e) && !e.ProbeFailed? && !e.Restart?
    ensures LeadsBack(Apply(s, e).tabs, Apply(s, e).tabBySession)
  {
    var c := Apply(s, e);
    forall t | HasSession(c.tabs, t)
      ensures c.tabs[t].session in c.tabBySession && c.tabBySession[c.tabs[t].session] == t
    {
    }
  }

  /** A step keeps every session leading back exactly when it drops no session of another tab. */
  lemma StepLeadsBackExactlyWhen(s: State, e: Event)
    requires Inv(s) && LeadsBack(s.tabs, s.tabBySession) && Enabled(s, e)
    ensures LeadsBack(Apply(s, e).tabs, Apply(s, e).tabBySession) <==> !DropsAnother(s, e)
  {
    match e
    case ProbeFailed(tab, session) => DropLeadsBackExactlyWhen(s, tab, session);
    case Restart(readable, dead) => RestartKeepsInv(s, readable, dead);
    case _ => OtherStepLeadsBack(s, e);
  }

  /** Dropping a tab whose probe failed keeps sessions leading back exactly when no other tab has that session. */
  lemma DropLeadsBackExactlyWhen(s: State, tab: Tab, session: nat)
    requires LeadsBack(s.tabs, s.tabBySession)
    ensures var c := Apply(s, ProbeFailed(tab, session));
      LeadsBack(c.tabs, c.tabBySession) <==>
      forall t :: HasSession(s.tabs, t) && t != tab ==> s.tabs[t].session != session
  {
    var c := Apply(s, ProbeFailed(tab, session));
    forall t ensures HasSession(c.tabs, t) <==> HasSession(s.tabs, t) && t != tab {
    }
    forall t | HasSession(s.tabs, t) && t != tab && s.tabs[t].session == session
      ensures !LeadsBack(c.tabs, c.tabBySession)
    {
      assert HasSession(c.tabs, t);
    }
  }

  /** Before the first event of the run and after each. */
  ghost predicate LeadsBackThroughout(events: seq<Event>)
    decreases |events|
  {
    && LeadsBack(After(events).tabs, After(events).tabBySession)
    && (events != [] ==> LeadsBackThroughout(events[..|events|-1]))
  }

  ghost predicate NeverDropsAnother(events: seq<Event>)
    decreases |events|
  {
    events != [] ==>
      NeverDropsAnother(events[..|events|-1]) && !DropsAnother(After(events[..|events|-1]), events[|events|-1])
  }

  /** Over any run, every session leads back at every point exactly when no failed probe drops another tab's session. */
  lemma {:induction false} RunLeadsBackExactlyWhen(events: seq<Event>)
    requires Possible(events)
    ensures LeadsBackThroughout(events) <==> NeverDropsAnother(events)
    decreases |events|
  {
    if events != [] {
      var before := events[..|events|-1];
      RunLeadsBackExactlyWhen(before);
      RunKeepsInv(before);
      if NeverDropsAnother(before) {
        StepLeadsBackExactlyWhen(After(before), events[|events|-1]);
      }
    }
  }

  datatype Kind = Main | Child

  datatype Route = Route(tab: Tab, kind: Kind)

  /** The session has the name, and leads to a tab. */
  predicate Names(s: State, n: nat, id: string) {
    n in s.tabBySession && SessionName(n) == id
  }

  /** The tab a command is routed to by the name of its session: a tab's own session goes before a child session. */
  ghost function GetTabBySessionId(s: State, id: string): Option<Route> {
    if exists n :: Names(s, n, id) then
      var n :| Names(s, n, id);
      Some(Route(s.tabBySession[n], Main))
    else if id in s.children then Some(Route(s.children[id], Child))
    else None
  }

  lemma RouteOfSession(s: State, n: nat)
    requires n in s.tabBySession
    ensures GetTabBySessionId(s, SessionName(n)) == Some(Route(s.tabBySession[n], Main))
  {
    assert Names(s, n, SessionName(n));
    forall m | Names(s, m, SessionName(n)) ensures m == n {
      SessionNamesDiffer(m, n);
    }
  }

  lemma NoRouteOfSession(s: State, n: nat)
    requires n !in s.tabBySession
    ensures forall tab :: GetTabBySessionId(s, SessionName(n)) != Some(Route(tab, Main))
    ensures SessionName(n) !in s.children ==> GetTabBySessionId(s, SessionName(n)) == None
  {
    forall m | Names(s, m, SessionName(n)) ensures m == n {
      SessionNamesDiffer(m, n);
    }
  }

  /** In such runs a command sent to a connected tab's session always reaches that tab. */
  lemma CommandsReachTheirTab(events: seq<Event>, t: Tab)
    requires Possible(events) && NeverDropsAnother(events) && HasSession(After(events).tabs, t)
    ensures GetTabBySessionId(After(events), SessionName(After(events).tabs[t].session)) == Some(Route(t, Main))
  {
    RunLeadsBackExactlyWhen(events);
    RouteOfSession(After(events), After(events).tabs[t].session);
  }

  // ------------------------------------------------------------------ runs without an overlap

  /** A tab whose debugger is being waited on is not replaced meanwhile. */
  predicate NoOverlap(s: State, e: Event) {
    e.Replaced? && HasSession(s.tabs, e.removed) && e.added != e.removed ==>
      (e.removed, s.tabs[e.removed].session) !in s.probes
  }

  ghost predicate NeverOverlaps(events: seq<Event>)
    decreases |events|
  {
    events != [] ==>
      NeverOverlaps(events[..|events|-1]) && NoOverlap(After(events[..|events|-1]), events[|events|-1])
  }

  /** Nothing but the tab that is waited on has its session, and no session to come is waited on. */
  ghost predicate ProbesHold(s: State) {
    && (forall p, t :: p in s.probes && HasSession(s.tabs, t) && s.tabs[t].session == p.1 ==> t == p.0)
    && (forall p :: p in s.probes ==> p.1 < s.nextSession)
  }

  lemma StepProbesHold(s: State, e: Event)
    requires Inv(s) && ProbesHold(s) && Enabled(s, e) && NoOverlap(s, e)
    ensures ProbesHold(Apply(s, e)) && !DropsAnother(s, e)
  {
    var c := Apply(s, e);
    if !e.Restart? {
      forall p, t | p in c.probes && HasSession(c.tabs, t) && c.tabs[t].session == p.1 ensures t == p.0 {
      }
    }
  }

  /** A run in which no tab is replaced while it is waited on drops no other tab's session. */
  lemma {:induction false} NoOverlapDropsNothing(events: seq<Event>)
    requires Possible(events) && NeverOverlaps(events)
    ensures NeverDropsAnother(events) && ProbesHold(After(events))
    decreases |events|
  {
    if events != [] {
      var before := events[..|events|-1];
      NoOverlapDropsNothing(before);
      RunKeepsInv(before);
      StepProbesHold(After(before), events[|events|-1]);
    }
  }

  /** A replacement that overlaps a failing probe leaves a connected tab whose session leads nowhere. */
  lemma OverlapLosesSession(s: State, added: Tab, removed: Tab)
    requires HasSession(s.tabs, removed) && added != removed
    ensures var n := s.tabs[removed].session;
      var probing := Apply(s, ProbeStarted(removed));
      var replaced := Apply(probing, Replaced(added, removed));
      var dropped := Apply(replaced, ProbeFailed(removed, n));
      && Enabled(s, ProbeStarted(removed)) && Enabled(probing, Replaced(added, removed))
      && Enabled(replaced, ProbeFailed(removed, n))
      && HasSession(dropped.tabs, added) && dropped.tabs[added].session == n
      && (forall tab :: GetTabBySessionId(dropped, SessionName(n)) != Some(Route(tab, Main)))
      && (SessionName(n) !in s.children ==> GetTabBySessionId(dropped, SessionName(n)) == None)
  {
    var n := s.tabs[removed].session;
    var replaced := Apply(Apply(s, ProbeStarted(removed)), Replaced(added, removed));
    NoRouteOfSession(Apply(replaced, ProbeFailed(removed, n)), n);
  }

  // ------------------------------------------------------------------ the handlers

  ghost predicate Listed(entries: seq<Saved>, t: Tab) {
    exists k :: 0 <= k < |entries| && entries[k].tab == t
  }

  lemma ListedMore(entries: seq<Saved>, e: Saved)
    ensures Listed(entries + [e], e.tab)
    ensures forall t :: Listed(entries, t) ==> Listed(entries + [e], t)
  {
    var more := entries + [e];
    assert more[|entries|] == e;
    forall t | Listed(entries, t) ensures Listed(more, t) {
      var k :| 0 <= k < |entries| && entries[k].tab == t;
      assert more[k].tab == t;
    }
  }

  /** The worker's tables, and the session storage that outlives it. */
  class Tables {
    var tabs: map<Tab, TabState>
    var tabBySession: map<nat, Tab>
    var children: map<string, Tab>
    var reattach: set<Tab>
    var nextSession: nat
    var stored: Option<Snapshot>
    ghost var probes: set<(Tab, nat)>

    ghost function Now(): State
      reads this
    {
      State(tabs, tabBySession, children, reattach, nextSession, stored, probes)
    }

    constructor ()
      ensures Now() == START
    {
      tabs, tabBySession, children, reattach := map[], map[], map[], {};
      nextSession, stored, probes := 1, None, {};
    }

    /** The connected tabs, in the order they are met. */
    method ListTabs() returns (tabEntries: seq<Saved>)
      requires Live(tabs, nextSession)
      ensures Lists(tabEntries, tabs)
    {
      tabEntries := [];
      var rest := tabs.Keys;
      while rest != {}
        invariant rest <= tabs.Keys
        invariant forall k :: 0 <= k < |tabEntries| ==> Saves(tabEntries[k], tabs) && tabEntries[k].tab !in rest
        invariant forall j, k :: 0 <= j < k < |tabEntries| ==> tabEntries[j].tab != tabEntries[k].tab
        invariant forall t :: HasSession(tabs, t) && t !in rest ==> Listed(tabEntries, t)
        decreases |rest|
      {
        var t :| t in rest;
        rest := rest - {t};
        if tabs[t].Connected? && tabs[t].target != "" {
          ghost var before := tabEntries;
          tabEntries := tabEntries + [Saved(t, tabs[t].session, tabs[t].target, tabs[t].order)];
          ListedMore(before, tabEntries[|before|]);
        } else {
          assert !HasSession(tabs, t);
        }
      }
      assert forall t :: Listed(tabEntries, t) ==> exists k :: 0 <= k < |tabEntries| && tabEntries[k].tab == t;
    }

    method PersistState() returns (ghost entries: seq<Saved>)
      requires Live(tabs, nextSession)
      modifies this`stored
      ensures Lists(entries, tabs) && Now() == Apply(old(Now()), Persist(entries))
    {
      var tabEntries := ListTabs();
      stored := Some(Snapshot(tabEntries, nextSession));
      entries := tabEntries;
    }

    /** A new worker: the tables are empty until the snapshot is read back, and its dead tabs dropped. */
    method RehydrateState(readable: bool, dead: set<Tab>)
      modifies this
      ensures Now() == Apply(old(Now()), Restart(readable, dead))
    {
      tabs, tabBySession, children, reattach, nextSession := map[], map[], map[], {}, 1;
      probes := {};
      if !readable || stored.None? {
        return;
      }
      nextSession := Larger(nextSession, stored.value.next);
      var entries := stored.value.entries;
      RestoreTabs(entries);
      DropDead(entries, dead);
    }

    method RestoreTabs(entries: seq<Saved>)
      requires tabs == map[] && tabBySession == map[]
      modifies this`tabs, this`tabBySession
      ensures tabs == RestoredTabs(entries, |entries|) && tabBySession == RestoredSessions(entries, |entries|)
    {
      for k := 0 to |entries|
        invariant tabs == RestoredTabs(entries, k) && tabBySession == RestoredSessions(entries, k)
      {
        var e := entries[k];
        tabs := tabs[e.tab := Connected(e.session, e.target, e.order)];
        tabBySession := tabBySession[e.session := e.tab];
      }
    }

    method DropDead(entries: seq<Saved>, dead: set<Tab>)
      modifies this`tabs, this`tabBySession
      ensures tabs == LivingTabs(old(tabs), entries, dead, |entries|)
      ensures tabBySession == LivingSessions(old(tabBySession), entries, dead, |entries|)
    {
      for k := 0 to |entries|
        invariant tabs == LivingTabs(old(tabs), entries, dead, k)
        invariant tabBySession == LivingSessions(old(tabBySession), entries, dead, k)
      {
        var e := entries[k];
        if e.tab in dead {
          tabs := tabs - {e.tab};
          tabBySession := tabBySession - {e.session};
        }
      }
    }

    /** After the debugger is attached and has named its target. The attach counts even when the relay cannot be
        told: then it fails with both tables set and nothing stored. */
    method AttachTab(tab: Tab, reported: string, skipAttachedEvent: bool, relayOpen: bool, ghost at: State)
      returns (r: Result<(nat, string), string>)
      requires at == Now() && Inv(at)
      modifies this
      ensures Inv(Now())
      ensures Trim(reported) == "" ==> r.Failure? && Now() == at
      ensures Trim(reported) != "" && r.Failure? ==>
                !skipAttachedEvent && !relayOpen && Now() == Apply(at, AttachCommit(tab, Trim(reported)))
      ensures Trim(reported) != "" && r.Success? ==>
                && (skipAttachedEvent || relayOpen)
                && r.value == (at.nextSession, Trim(reported))
                && exists entries :: Lists(entries, tabs) &&
                     Now() == Apply(Apply(at, AttachCommit(tab, Trim(reported))), Persist(entries))
    {
      var targetId := Trim(reported);
      if targetId == "" {
        return Failure("Target.getTargetInfo returned no targetId");
      }
      var sid := nextSession;
      nextSession := nextSession + 1;
      tabs := tabs[tab := Connected(sid, targetId, sid)];
      tabBySession := tabBySession[sid := tab];
      CommitKeepsInv(at, tab, targetId);
      if !skipAttachedEvent && !relayOpen {
        return Failure("Relay not connected");
      }
      ghost var committed := Now();
      ghost var entries := PersistState();
      PersistKeepsInv(committed, entries);
      r := Success((sid, targetId));
    }

    method DropChildren(tab: Tab)
      modifies this`children
      ensures children == WithoutChildren(old(children), tab)
    {
      ghost var was := children;
      var rest := children.Keys;
      while rest != {}
        invariant rest <= was.Keys
        invariant children == map c | c in was && (c in rest || was[c] != tab) :: was[c]
        decreases |rest|
      {
        var c :| c in rest;
        rest := rest - {c};
        if children[c] == tab {
          children := children - {c};
        }
      }
    }

    method DetachTab(tab: Tab) returns (ghost entries: seq<Saved>)
      requires Live(tabs, nextSession)
      modifies this
      ensures Lists(entries, tabs) && Now() == Apply(Apply(old(Now()), Detach(tab)), Persist(entries))
    {
      ghost var at := Now();
      DropChildren(tab);
      if tab in tabs && tabs[tab].Connected? {
        tabBySession := tabBySession - {tabs[tab].session};
      }
      tabs := tabs - {tab};
      assert Now() == Cleared(at, tab);
      entries := PersistState();
    }

    /** After a detach that was a navigation: the tab is forgotten until it is attached again. */
    method OnNavigation(tab: Tab)
      modifies this
      ensures Now() == if tab in old(reattach) then old(Now()) else Apply(old(Now()), Navigated(tab))
    {
      if tab in reattach {
        return;
      }
      ghost var at := Now();
      if tab in tabs && tabs[tab].Connected? {
        tabBySession := tabBySession - {tabs[tab].session};
      }
      tabs := tabs - {tab};
      DropChildren(tab);
      assert Now() == Cleared(at, tab);
      reattach := reattach + {tab};
    }

    method OnRemoved(tab: Tab)
      requires Live(tabs, nextSession)
      modifies this
      ensures tab !in old(tabs) ==> Now() == Apply(old(Now()), Removed(tab))
      ensures tab in old(tabs) ==>
                exists entries :: Lists(entries, tabs) &&
                  Now() == Apply(Apply(old(Now()), Removed(tab)), Persist(entries))
    {
      ghost var at := Now();
      reattach := reattach - {tab};
      if tab !in tabs {
        return;
      }
      if tabs[tab].Connected? {
        tabBySession := tabBySession - {tabs[tab].session};
      }
      tabs := tabs - {tab};
      DropChildren(tab);
      assert Now() == Apply(at, Removed(tab));
      ghost var entries := PersistState();
    }

    method MoveChildren(added: Tab, removed: Tab)
      modifies this`children
      ensures children == MovedChildren(old(children), added, removed)
    {
      ghost var was := children;
      var rest := children.Keys;
      while rest != {}
        invariant rest <= was.Keys
        invariant children.Keys == was.Keys
        invariant forall c :: c in was ==> children[c] == if was[c] == removed && c !in rest then added else was[c]
        decreases |rest|
      {
        var c :| c in rest;
        rest := rest - {c};
        if children[c] == removed {
          children := children[c := added];
        }
      }
    }

    method OnReplaced(added: Tab, removed: Tab)
      requires Live(tabs, nextSession)
      modifies this
      ensures removed !in old(tabs) ==> Now() == old(Now())
      ensures removed in old(tabs) ==>
                exists entries :: Lists(entries, tabs) &&
                  Now() == Apply(Apply(old(Now()), Replaced(added, removed)), Persist(entries))
    {
      if removed !in tabs {
        return;
      }
      ghost var at := Now();
      var tab := tabs[removed];
      tabs := tabs - {removed};
      tabs := tabs[added := tab];
      if tab.Connected? {
        tabBySession := tabBySession[tab.session := added];
      }
      MoveChildren(added, removed);
      assert Now() == Apply(at, Replaced(added, removed));
      ghost var entries := PersistState();
    }
  }

  // ------------------------------------------------------------------ persisting and restarting

  /** A restart from a snapshot just stored brings back every connected tab that is alive, as it was, and the number
      of the next session. */
  lemma RestartRestores(s: State, entries: seq<Saved>, dead: set<Tab>, t: Tab)
    requires Inv(s) && s.nextSession >= 1 && Lists(entries, s.tabs)
    ensures var r := Apply(Apply(s, Persist(entries)), Restart(true, dead));
      && r.nextSession == s.nextSession
      && (t in r.tabs <==> HasSession(s.tabs, t) && t !in dead)
      && (t in r.tabs ==>
            r.tabs[t] == s.tabs[t] && GetTabBySessionId(r, SessionName(s.tabs[t].session)) == Some(Route(t, Main)))
  {
    PersistKeepsInv(s, entries);
    var r := Apply(Apply(s, Persist(entries)), Restart(true, dead));
    RestartedIs(Apply(s, Persist(entries)), dead);
    if t !in dead && exists k :: 0 <= k < |entries| && entries[k].tab == t {
      var k :| 0 <= k < |entries| && entries[k].tab == t;
      assert Saves(entries[k], s.tabs) && Saves(entries[k], r.tabs) && HasSession(r.tabs, t);
      RouteOfSession(r, r.tabs[t].session);
    }
  }

  // ------------------------------------------------------------------ sessions without a tab

  /** Every session leads to a tab that is there. */
  ghost predicate Present(s: State) {
    forall n :: n in s.tabBySession ==> s.tabBySession[n] in s.tabs
  }

  /** The tab that an event takes out of the tables. */
  function Dropped(s: State, e: Event): Option<Tab> {
    match e
    case AttachFailed(tab) => Some(tab)
    case Detach(tab) => Some(tab)
    case Navigated(tab) => Some(tab)
    case Removed(tab) => Some(tab)
    case Replaced(added, removed) => if added != removed && removed in s.tabs then Some(removed) else None
    case ProbeFailed(tab, session) => Some(tab)
    case _ => None
  }

  /** The session that an event takes along with the tab. */
  function Freed(s: State, e: Event): Option<nat> {
    match e
    case AttachFailed(tab) => None
    case ProbeFailed(tab, session) => Some(session)
    case _ =>
      var tab := Dropped(s, e);
      if tab.Some? && HasSession(s.tabs, tab.value) then Some(s.tabs[tab.value].session) else None
  }

  /** The event drops a tab and leaves a session behind that leads to it. */
  ghost predicate LeavesBehind(s: State, e: Event) {
    exists n :: n in s.tabBySession && Dropped(s, e) == Some(s.tabBySession[n]) && Freed(s, e) != Some(n)
  }

  ghost predicate Leads(entries: seq<Saved>, n: nat, session: nat, tab: Tab)
    requires n <= |entries|
  {
    exists k :: 0 <= k < n && entries[k].session == session && entries[k].tab == tab
  }

  lemma {:induction false} RestoredSessionLeads(entries: seq<Saved>, n: nat, m: nat)
    requires n <= |entries| && m in RestoredSessions(entries, n)
    ensures Leads(entries, n, m, RestoredSessions(entries, n)[m])
  {
    if m == entries[n-1].session {
      assert RestoredSessions(entries, n)[m] == entries[n-1].tab;
    } else {
      RestoredSessionLeads(entries, n - 1, m);
      var k :| 0 <= k < n - 1 && entries[k].session == m && entries[k].tab == RestoredSessions(entries, n - 1)[m];
    }
  }

  lemma {:induction false} LivingSessionsAre(
    sessions: map<nat, Tab>, entries: seq<Saved>, dead: set<Tab>, n: nat)
    requires n <= |entries|
    ensures var living := LivingSessions(sessions, entries, dead, n);
      && (forall m :: m in living ==> m in sessions && living[m] == sessions[m])
      && (forall k :: 0 <= k < n && entries[k].tab in dead ==> entries[k].session !in living)
  {
    if n > 0 {
      LivingSessionsAre(sessions, entries, dead, n - 1);
    }
  }

  /** The session of every entry in `tabBySession` is the session of the tab it leads to. */
  ghost predicate Exact(s: State) {
    forall n :: n in s.tabBySession ==>
      HasSession(s.tabs, s.tabBySession[n]) && s.tabs[s.tabBySession[n]].session == n
  }

  lemma RestartedIsExact(s: State, readable: bool, dead: set<Tab>)
    requires Inv(s)
    ensures Exact(Restarted(s, readable, dead))
  {
    if readable && s.stored.Some? {
      var entries := s.stored.value.entries;
      var r := Restarted(s, readable, dead);
      RestartedIs(s, dead);
      LivingSessionsAre(RestoredSessions(entries, |entries|), entries, dead, |entries|);
      forall m | m in r.tabBySession
        ensures HasSession(r.tabs, r.tabBySession[m]) && r.tabs[r.tabBySession[m]].session == m
      {
        RestoredSessionLeads(entries, |entries|, m);
        var k :| 0 <= k < |entries| && entries[k].session == m && entries[k].tab == r.tabBySession[m];
        assert Saves(entries[k], r.tabs);
      }
    }
  }

  lemma LeftBehindIsAbsent(s: State, e: Event, n: nat)
    requires n in s.tabBySession && Dropped(s, e) == Some(s.tabBySession[n]) && Freed(s, e) != Some(n)
    requires s.tabBySession[n] in s.tabs
    ensures n in Apply(s, e).tabBySession && Apply(s, e).tabBySession[n] !in Apply(s, e).tabs
  {
  }

  lemma OthersArePresent(s: State, e: Event, n: nat)
    requires Present(s) && !e.Restart? && !LeavesBehind(s, e) && n in Apply(s, e).tabBySession
    ensures Apply(s, e).tabBySession[n] in Apply(s, e).tabs
  {
  }

  /** A step keeps every session leading to a tab that is there exactly when it leaves none behind. */
  lemma StepStaysPresentExactlyWhen(s: State, e: Event)
    requires Inv(s) && Present(s)
    ensures Present(Apply(s, e)) <==> !LeavesBehind(s, e)
  {
    if n :| n in s.tabBySession && Dropped(s, e) == Some(s.tabBySession[n]) && Freed(s, e) != Some(n) {
      LeftBehindIsAbsent(s, e, n);
    } else if e.Restart? {
      RestartedIsExact(s, e.readable, e.dead);
    } else {
      forall n | n in Apply(s, e).tabBySession ensures Apply(s, e).tabBySession[n] in Apply(s, e).tabs {
        OthersArePresent(s, e, n);
      }
    }
  }

  /** Before the first event of the run and after each. */
  ghost predicate PresentThroughout(events: seq<Event>)
    decreases |events|
  {
    Present(After(events)) && (events != [] ==> PresentThroughout(events[..|events|-1]))
  }

  ghost predicate NothingLeftBehind(events: seq<Event>)
    decreases |events|
  {
    events != [] ==>
      NothingLeftBehind(events[..|events|-1]) && !LeavesBehind(After(events[..|events|-1]), events[|events|-1])
  }

  /** Over any run, sessions lead to tabs that are there at every point exactly when no event leaves one behind. */
  lemma {:induction false} RunStaysPresentExactlyWhen(events: seq<Event>)
    requires Possible(events)
    ensures PresentThroughout(events) <==> NothingLeftBehind(events)
    decreases |events|
  {
    if events == [] {
      assert Present(START);
    } else {
      var before := events[..|events|-1];
      RunStaysPresentExactlyWhen(before);
      RunKeepsInv(before);
      if Present(After(before)) {
        StepStaysPresentExactlyWhen(After(before), events[|events|-1]);
      } else {
        assert !PresentThroughout(before);
      }
    }
  }

  /** The attach of a tab fails when the tab has its session by then. */
  predicate LateFailure(s: State, e: Event) {
    e.AttachFailed? && HasSession(s.tabs, e.tab)
  }

  ghost predicate NoLateFailure(events: seq<Event>)
    decreases |events|
  {
    events != [] ==>
      NoLateFailure(events[..|events|-1]) && !LateFailure(After(events[..|events|-1]), events[|events|-1])
  }

  /** A tab that is attached is not attached again, does not take the place of another tab, and is not dropped by the
      probe of an earlier session. */
  predicate Orderly(s: State, e: Event) {
    && (e.AttachCommit? ==> !HasSession(s.tabs, e.tab))
    && (e.Replaced? && e.added != e.removed ==> !HasSession(s.tabs, e.added))
    && (e.ProbeFailed? && HasSession(s.tabs, e.tab) ==> s.tabs[e.tab].session == e.session)
  }

  ghost predicate OrderlyThroughout(events: seq<Event>)
    decreases |events|
  {
    events != [] ==>
      OrderlyThroughout(events[..|events|-1]) && Orderly(After(events[..|events|-1]), events[|events|-1])
  }

  lemma CommitStaysExact(s: State, tab: Tab, target: string)
    requires Inv(s) && Exact(s) && !HasSession(s.tabs, tab)
    ensures Exact(Apply(s, AttachCommit(tab, target)))
  {
  }

  lemma ReplacedStaysExact(s: State, added: Tab, removed: Tab)
    requires Exact(s) && removed in s.tabs && (added != removed ==> !HasSession(s.tabs, added))
    ensures Exact(Apply(s, Replaced(added, removed)))
  {
  }

  lemma OtherStaysExact(s: State, e: Event)
    requires Exact(s) && Enabled(s, e) && Orderly(s, e) && !LateFailure(s, e)
    requires !e.AttachCommit? && !e.Replaced? && !e.Restart?
    ensures Exact(Apply(s, e))
  {
    forall n | n in Apply(s, e).tabBySession
      ensures n in s.tabBySession && Apply(s, e).tabBySession[n] == s.tabBySession[n]
           && HasSession(Apply(s, e).tabs, s.tabBySession[n])
           && Apply(s, e).tabs[s.tabBySession[n]] == s.tabs[s.tabBySession[n]]
    {
    }
  }

  lemma StepStaysExact(s: State, e: Event)
    requires Inv(s) && Exact(s) && Enabled(s, e) && Orderly(s, e) && !LateFailure(s, e)
    ensures Exact(Apply(s, e))
  {
    match e
    case AttachCommit(tab, target) => CommitStaysExact(s, tab, target);
    case Replaced(added, removed) => ReplacedStaysExact(s, added, removed);
    case Restart(readable, dead) => RestartedIsExact(s, readable, dead);
    case _ => OtherStaysExact(s, e);
  }

  lemma LateFailureLeavesBehind(s: State, e: Event)
    requires LeadsBack(s.tabs, s.tabBySession) && Exact(s) && Orderly(s, e)
    ensures LeavesBehind(s, e) <==> LateFailure(s, e)
  {
    if LateFailure(s, e) {
      var n := s.tabs[e.tab].session;
      assert n in s.tabBySession && Dropped(s, e) == Some(s.tabBySession[n]);
    }
  }

  /** In orderly runs in which every session leads back, sessions lead to tabs that are there at every point exactly
      when no attach fails after its commit. */
  lemma {:induction false} OrderlyRunStaysPresentExactlyWhen(events: seq<Event>)
    requires Possible(events) && NeverDropsAnother(events) && OrderlyThroughout(events)
    ensures PresentThroughout(events) <==> NoLateFailure(events)
    ensures NoLateFailure(events) ==> Exact(After(events))
    decreases |events|
  {
    RunStaysPresentExactlyWhen(events);
    if events != [] {
      var before := events[..|events|-1];
      OrderlyRunStaysPresentExactlyWhen(before);
      RunStaysPresentExactlyWhen(before);
      RunKeepsInv(before);
      RunLeadsBackExactlyWhen(before);
      if NoLateFailure(before) {
        LateFailureLeavesBehind(After(before), events[|events|-1]);
        if !LateFailure(After(before), events[|events|-1]) {
          StepStaysExact(After(before), events[|events|-1]);
        }
      }
    }
  }

  /** Such a failure is possible from every state. */
  lemma SessionMayOutliveTab(s: State, tab: Tab, target: string)
    requires Trim(target) == target && target != ""
    ensures var committed := Apply(s, AttachCommit(tab, target));
      && Enabled(s, AttachCommit(tab, target)) && LateFailure(committed, AttachFailed(tab))
      && !Present(Apply(committed, AttachFailed(tab)))
  {
    var failed := Apply(Apply(s, AttachCommit(tab, target)), AttachFailed(tab));
    assert s.nextSession in failed.tabBySession && failed.tabBySession[s.nextSession] == tab;
  }

  // ------------------------------------------------------------------ numbers given out again

  /** The session numbers given out, in order. */
  function Numbers(events: seq<Event>): seq<nat>
    decreases |events|, 0
  {
    if events == [] then [] else WithNumber(events[..|events|-1], events[|events|-1])
  }

  function WithNumber(events: seq<Event>, e: Event): seq<nat>
    decreases |events|, 1
  {
    Numbers(events) + if e.AttachCommit? then [After(events).nextSession] else []
  }

  /** The largest number that was ever next. */
  function High(events: seq<Event>): nat
    decreases |events|
  {
    if events == [] then 1 else Larger(High(events[..|events|-1]), After(events).nextSession)
  }

  /** Numbers 1 up to the largest that was next, all given out, and nothing beyond that is stored. */
  ghost predicate Counted(s: State, numbers: seq<nat>, high: nat) {
    && (forall n :: n in numbers <==> 1 <= n < high)
    && 1 <= s.nextSession <= high
    && (s.stored.Some? ==> 1 <= s.stored.value.next <= high)
  }

  lemma StepCounts(s: State, e: Event, numbers: seq<nat>, high: nat)
    requires Counted(s, numbers, high)
    ensures Counted(Apply(s, e), numbers + (if e.AttachCommit? then [s.nextSession] else []),
                    Larger(high, Apply(s, e).nextSession))
  {
  }

  lemma {:induction false} RunCounts(events: seq<Event>)
    ensures Counted(After(events), Numbers(events), High(events))
    decreases |events|
  {
    if events != [] {
      RunCounts(events[..|events|-1]);
      StepCounts(After(events[..|events|-1]), events[|events|-1], Numbers(events[..|events|-1]),
                 High(events[..|events|-1]));
    }
  }

  ghost predicate Distinct(numbers: seq<nat>) {
    forall j, k :: 0 <= j < k < |numbers| ==> numbers[j] != numbers[k]
  }

  /** However the run goes on from any of its points, an attach gets a number that no attach has had. */
  ghost predicate DistinctThroughout(events: seq<Event>)
    decreases |events|
  {
    && (forall tab, target :: Distinct(WithNumber(events, AttachCommit(tab, target))))
    && (events != [] ==> DistinctThroughout(events[..|events|-1]))
  }

  /** The restarted worker counts on from where it was. */
  predicate CountsOn(s: State, e: Event) {
    e.Restart? ==> (if e.readable && s.stored.Some? then s.stored.value.next else 1) >= s.nextSession
  }

  ghost predicate CountsOnThroughout(events: seq<Event>)
    decreases |events|
  {
    events != [] ==>
      CountsOnThroughout(events[..|events|-1]) && CountsOn(After(events[..|events|-1]), events[|events|-1])
  }

  lemma NextDiffersExactlyWhen(events: seq<Event>)
    ensures (forall tab, target :: Distinct(WithNumber(events, AttachCommit(tab, target))))
       <==> Distinct(Numbers(events)) && After(events).nextSession == High(events)
  {
    RunCounts(events);
    var numbers, next := Numbers(events), After(events).nextSession;
    assert forall tab, target :: WithNumber(events, AttachCommit(tab, target)) == numbers + [next];
    assert WithNumber(events, AttachCommit(1, "t")) == numbers + [next];
    OneMoreDistinct(numbers, next);
  }

  lemma OneMoreDistinct(numbers: seq<nat>, n: nat)
    ensures Distinct(numbers + [n]) <==> Distinct(numbers) && n !in numbers
  {
    var more := numbers + [n];
    assert more[|numbers|] == n && forall k :: 0 <= k < |numbers| ==> more[k] == numbers[k];
  }

  /** A step after a run in which every restart counted on. */
  lemma OneMoreCounts(s: State, e: Event, numbers: seq<nat>, high: nat)
    requires Counted(s, numbers, high) && s.nextSession == high && Distinct(numbers)
    ensures Larger(high, Apply(s, e).nextSession) == Apply(s, e).nextSession <==> CountsOn(s, e)
    ensures Distinct(numbers + if e.AttachCommit? then [s.nextSession] else [])
  {
    OneMoreDistinct(numbers, s.nextSession);
    assert numbers + [] == numbers;
  }

  /** Over any run, no session number is given out twice, however the run goes on from any of its points, exactly when
      every restart reads a snapshot stored after the last attach, or comes before the first. */
  lemma {:induction false} NumbersDifferExactlyWhen(events: seq<Event>)
    ensures DistinctThroughout(events) <==> CountsOnThroughout(events)
    ensures CountsOnThroughout(events) ==> Distinct(Numbers(events)) && After(events).nextSession == High(events)
    decreases |events|
  {
    NextDiffersExactlyWhen(events);
    if events != [] {
      var before, e := events[..|events|-1], events[|events|-1];
      NumbersDifferExactlyWhen(before);
      RunCounts(before);
      if CountsOnThroughout(before) {
        OneMoreCounts(After(before), e, Numbers(before), High(before));
      }
    }
  }

  /** A restart between an attach and the next snapshot does not count on: it gives the attach's number out again. */
  lemma NumberGivenOutTwice(events: seq<Event>, t: Tab, target: string, readable: bool, dead: set<Tab>)
    requires CountsOnThroughout(events)
    ensures var run := events + [AttachCommit(t, target), Restart(readable, dead)];
            !CountsOnThroughout(run) && !DistinctThroughout(run)
  {
    var one := events + [AttachCommit(t, target)];
    var run := events + [AttachCommit(t, target), Restart(readable, dead)];
    assert one[..|one|-1] == events && run[..|run|-1] == one;
    NumbersDifferExactlyWhen(events);
    RunCounts(events);
    NumbersDifferExactlyWhen(run);
  }
}
