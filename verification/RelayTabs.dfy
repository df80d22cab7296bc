/** Which tabs of the browser relay are connecting, attached or waiting to be attached again, over whole runs. */
module RelayTabs {
  import opened Wrappers
  import opened Relay

  // ------------------------------------------------------------------ connecting

  predicate Connects(s: State, tab: Tab) {
    tab in s.tabs && s.tabs[tab].Connecting?
  }

  /** The tab that a connecting tab is after an event, if one of them is still connecting: it is not once it is
      attached, has failed, is detached, navigates, is closed or is replaced by another. */
  function StillConnecting(s: State, e: Event, tab: Tab): Option<Tab> {
    match e
    case AttachCommit(t, _) => if t == tab then None else Some(tab)
    case AttachFailed(t) => if t == tab then None else Some(tab)
    case Detach(t) => if t == tab then None else Some(tab)
    case Navigated(t) => if t == tab then None else Some(tab)
    case Removed(t) => if t == tab then None else Some(tab)
    case ProbeFailed(t, _) => if t == tab then None else Some(tab)
    case Replaced(added, removed) =>
      if tab == removed then Some(added) else if tab == added && removed in s.tabs then None else Some(tab)
    case Restart(_, _) => None
    case _ => Some(tab)
  }

  lemma {:induction false} RestoredAreConnected(entries: seq<Saved>, n: nat)
    requires n <= |entries|
    ensures forall t :: t in RestoredTabs(entries, n) ==> RestoredTabs(entries, n)[t].Connected?
  {
    if n > 0 {
      RestoredAreConnected(entries, n - 1);
    }
  }

  lemma NoneConnectsAfterRestart(s: State, readable: bool, dead: set<Tab>, tab: Tab)
    ensures !Connects(Restarted(s, readable, dead), tab)
  {
    if readable && s.stored.Some? {
      var entries := s.stored.value.entries;
      RestoredAreConnected(entries, |entries|);
      LivingTabsAre(RestoredTabs(entries, |entries|), entries, dead, |entries|);
    }
  }

  ghost predicate ComesFrom(s: State, e: Event, tab: Tab) {
    exists u :: Connects(s, u) && StillConnecting(s, e, u) == Some(tab)
  }

  lemma ReplacedConnects(s: State, added: Tab, removed: Tab, tab: Tab)
    ensures Connects(Apply(s, Replaced(added, removed)), tab) <==> ComesFrom(s, Replaced(added, removed), tab)
  {
    var e := Replaced(added, removed);
    assert Connects(s, removed) && tab == added ==> StillConnecting(s, e, removed) == Some(tab);
    assert Connects(s, tab) && tab != added && tab != removed ==> StillConnecting(s, e, tab) == Some(tab);
    assert removed !in s.tabs && Connects(s, tab) ==> StillConnecting(s, e, tab) == Some(tab);
  }

  lemma StepConnects(s: State, e: Event, tab: Tab)
    ensures Connects(Apply(s, e), tab) <==> e == Connect(tab) || ComesFrom(s, e, tab)
  {
    match e
    case Restart(readable, dead) => NoneConnectsAfterRestart(s, readable, dead, tab);
    case Replaced(added, removed) => ReplacedConnects(s, added, removed, tab);
    case _ =>
      assert StillConnecting(s, e, tab) == Some(tab) || StillConnecting(s, e, tab) == None;
  }

  /** What a tab that was connecting before event i has become by the end of the run. */
  function Became(events: seq<Event>, tab: Tab, i: nat): Option<Tab>
    requires i <= |events|
    decreases |events|
  {
    if i == |events| then Some(tab)
    else
      var before := events[..|events|-1];
      match Became(before, tab, i)
      case None => None
      case Some(t) => StillConnecting(After(before), events[|events|-1], t)
  }

  ghost predicate BeganToConnect(events: seq<Event>, i: nat, u: Tab, tab: Tab) {
    i < |events| && events[i] == Connect(u) && Became(events, u, i + 1) == Some(tab)
  }

  ghost predicate SomeBegan(events: seq<Event>, tab: Tab) {
    exists i: nat, u :: BeganToConnect(events, i, u, tab)
  }

  lemma BeganEarlier(events: seq<Event>, i: nat, u: Tab, tab: Tab)
    requires i + 1 < |events|
    ensures var before, e := events[..|events|-1], events[|events|-1];
            BeganToConnect(events, i, u, tab) <==>
            && events[i] == Connect(u) && Became(before, u, i + 1).Some?
            && BeganToConnect(before, i, u, Became(before, u, i + 1).value)
            && StillConnecting(After(before), e, Became(before, u, i + 1).value) == Some(tab)
  {
    assert events[..|events|-1][i] == events[i];
  }

  /** Over any run, a tab is connecting exactly when it began to, or took the place of one that did, and nothing since
      has ended that. */
  lemma {:induction false} ConnectsExactlyWhen(events: seq<Event>, tab: Tab)
    ensures Connects(After(events), tab) <==> SomeBegan(events, tab)
    decreases |events|, 1
  {
    if events != [] {
      var last := |events| - 1;
      var before, e := events[..last], events[last];
      StepConnects(After(before), e, tab);
      if e == Connect(tab) {
        assert BeganToConnect(events, last, tab, tab);
      }
      FromBefore(events, tab);
    }
  }

  lemma FromBefore(events: seq<Event>, tab: Tab)
    requires events != []
    ensures var before, e := events[..|events|-1], events[|events|-1];
            SomeBegan(events, tab) <==> e == Connect(tab) || ComesFrom(After(before), e, tab)
    decreases |events|, 0
  {
    var last := |events| - 1;
    var before, e := events[..last], events[last];
    if SomeBegan(events, tab) {
      var i: nat, u :| BeganToConnect(events, i, u, tab);
      if i < last {
        BeganEarlier(events, i, u, tab);
        var t := Became(before, u, i + 1).value;
        ConnectsExactlyWhen(before, t);
        assert Connects(After(before), t) && StillConnecting(After(before), e, t) == Some(tab);
      }
    }
    if e == Connect(tab) {
      assert BeganToConnect(events, last, tab, tab);
    }
    if ComesFrom(After(before), e, tab) {
      var t :| Connects(After(before), t) && StillConnecting(After(before), e, t) == Some(tab);
      ConnectsExactlyWhen(before, t);
      var i: nat, u :| BeganToConnect(before, i, u, t);
      BeganEarlier(events, i, u, tab);
    }
  }

  // ------------------------------------------------------------------ waiting to be attached again

  /** The event ends the wait for a tab that navigated. */
  predicate EndsWait(e: Event, tab: Tab) {
    e == ReattachOver(tab) || e == Removed(tab) || e.RelayClosed? || e.Restart?
  }

  ghost predicate WaitsSince(events: seq<Event>, tab: Tab, i: nat) {
    i < |events| && events[i] == Navigated(tab) && forall j :: i < j < |events| ==> !EndsWait(events[j], tab)
  }

  lemma WaitsEarlier(events: seq<Event>, tab: Tab, i: nat)
    requires i + 1 < |events|
    ensures WaitsSince(events, tab, i) <==>
              WaitsSince(events[..|events|-1], tab, i) && !EndsWait(events[|events|-1], tab)
  {
    var before := events[..|events|-1];
    assert forall j :: 0 <= j < |before| ==> before[j] == events[j];
    if WaitsSince(before, tab, i) && !EndsWait(events[|events|-1], tab) {
      forall j | i < j < |events| ensures !EndsWait(events[j], tab) {
        assert j < |before| ==> before[j] == events[j];
      }
    }
  }

  lemma StepWaits(s: State, e: Event, tab: Tab)
    ensures tab in Apply(s, e).reattach <==> e == Navigated(tab) || (tab in s.reattach && !EndsWait(e, tab))
  {
  }

  /** Over any run, a tab waits to be attached again exactly when it navigated and since then the attempts have not
      ended, the tab was not closed, the connection not lost and the worker not restarted. */
  lemma {:induction false} WaitsExactlyWhen(events: seq<Event>, tab: Tab)
    ensures tab in After(events).reattach <==> exists i: nat :: WaitsSince(events, tab, i)
    decreases |events|
  {
    if events != [] {
      var last := |events| - 1;
      var before, e := events[..last], events[last];
      WaitsExactlyWhen(before, tab);
      StepWaits(After(before), e, tab);
      if e == Navigated(tab) {
        assert WaitsSince(events, tab, last);
      }
      if i: nat :| WaitsSince(before, tab, i) {
        WaitsEarlier(events, tab, i);
      }
      if i: nat :| WaitsSince(events, tab, i) {
        if i < last {
          WaitsEarlier(events, tab, i);
        }
      }
    }
  }

  // ------------------------------------------------------------------ the order of attachment

  /** Each connected tab, and each in the snapshot, is placed in the order of attachment by its session's number. */
  ghost predicate InAttachOrder(s: State) {
    && (forall t :: HasSession(s.tabs, t) ==> s.tabs[t].order == s.tabs[t].session)
    && (s.stored.Some? ==>
          forall k :: 0 <= k < |s.stored.value.entries| ==>
            s.stored.value.entries[k].order == s.stored.value.entries[k].session)
  }

  lemma {:induction false} RestoredInOrder(entries: seq<Saved>, n: nat)
    requires n <= |entries| && forall k :: 0 <= k < |entries| ==> entries[k].order == entries[k].session
    ensures forall t :: HasSession(RestoredTabs(entries, n), t) ==>
              RestoredTabs(entries, n)[t].order == RestoredTabs(entries, n)[t].session
  {
    if n > 0 {
      RestoredInOrder(entries, n - 1);
    }
  }

  lemma StepInOrder(s: State, e: Event)
    requires InAttachOrder(s) && Enabled(s, e)
    ensures InAttachOrder(Apply(s, e))
  {
    match e
    case Restart(readable, dead) =>
      if readable && s.stored.Some? {
        var entries := s.stored.value.entries;
        RestoredInOrder(entries, |entries|);
        LivingTabsAre(RestoredTabs(entries, |entries|), entries, dead, |entries|);
      }
    case Persist(entries) =>
      forall k | 0 <= k < |entries| ensures entries[k].order == entries[k].session {
        assert Saves(entries[k], s.tabs) && HasSession(s.tabs, entries[k].tab);
      }
    case _ =>
      forall t | HasSession(Apply(s, e).tabs, t) ensures Apply(s, e).tabs[t].order == Apply(s, e).tabs[t].session {
      }
  }

  /** Over any run, restarts included, tabs are in order of attachment as their sessions are numbered. */
  lemma {:induction false} RunInAttachOrder(events: seq<Event>)
    requires Possible(events)
    ensures InAttachOrder(After(events))
    decreases |events|
  {
    if events != [] {
      RunInAttachOrder(events[..|events|-1]);
      StepInOrder(After(events[..|events|-1]), events[|events|-1]);
    }
  }

  // ------------------------------------------------------------------ debuggers that are waited on

  /** The event begins to wait on the tab's debugger, while the tab has that session. */
  predicate BeginsProbe(s: State, e: Event, tab: Tab, session: nat) {
    e == ProbeStarted(tab) && HasSession(s.tabs, tab) && s.tabs[tab].session == session
  }

  predicate EndsProbe(e: Event, tab: Tab, session: nat) {
    e == ProbePassed(tab, session) || e == ProbeFailed(tab, session) || e.Restart?
  }

  ghost predicate ProbedSince(events: seq<Event>, tab: Tab, session: nat, i: nat) {
    && i < |events| && BeginsProbe(After(events[..i]), events[i], tab, session)
    && forall j :: i < j < |events| ==> !EndsProbe(events[j], tab, session)
  }

  lemma ProbedEarlier(events: seq<Event>, tab: Tab, session: nat, i: nat)
    requires i + 1 < |events|
    ensures ProbedSince(events, tab, session, i) <==>
              ProbedSince(events[..|events|-1], tab, session, i) && !EndsProbe(events[|events|-1], tab, session)
  {
    var before := events[..|events|-1];
    assert before[..i] == events[..i];
    assert forall j :: 0 <= j < |before| ==> before[j] == events[j];
    if ProbedSince(before, tab, session, i) && !EndsProbe(events[|events|-1], tab, session) {
      forall j | i < j < |events| ensures !EndsProbe(events[j], tab, session) {
        assert j < |before| ==> before[j] == events[j];
      }
    }
  }

  lemma StepProbes(s: State, e: Event, tab: Tab, session: nat)
    ensures (tab, session) in Apply(s, e).probes <==>
              BeginsProbe(s, e, tab, session) || ((tab, session) in s.probes && !EndsProbe(e, tab, session))
  {
  }

  /** Over any run, a tab's debugger is waited on with a session exactly when that began while the tab had the session,
      and since then the debugger has neither answered nor failed, nor the worker been restarted. */
  lemma {:induction false} ProbedExactlyWhen(events: seq<Event>, tab: Tab, session: nat)
    ensures (tab, session) in After(events).probes <==> exists i: nat :: ProbedSince(events, tab, session, i)
    decreases |events|
  {
    if events != [] {
      var last := |events| - 1;
      var before, e := events[..last], events[last];
      ProbedExactlyWhen(before, tab, session);
      StepProbes(After(before), e, tab, session);
      if BeginsProbe(After(before), e, tab, session) {
        assert ProbedSince(events, tab, session, last);
      }
      if i: nat :| ProbedSince(before, tab, session, i) {
        ProbedEarlier(events, tab, session, i);
      }
      if i: nat :| ProbedSince(events, tab, session, i) {
        if i < last {
          ProbedEarlier(events, tab, session, i);
        }
      }
    }
  }

  // ------------------------------------------------------------------ sessions and their targets

  /** Event i of the run attached some tab to that target, and gave it that session. */
  ghost predicate GivenAt(events: seq<Event>, session: nat, target: string, i: nat) {
    && i < |events| && events[i].AttachCommit? && events[i].target == target
    && After(events[..i]).nextSession == session
  }

  ghost predicate WasGiven(events: seq<Event>, session: nat, target: string) {
    exists i: nat :: GivenAt(events, session, target, i)
  }

  lemma StaysGiven(events: seq<Event>, session: nat, target: string)
    requires events != [] && WasGiven(events[..|events|-1], session, target)
    ensures WasGiven(events, session, target)
  {
    var before := events[..|events|-1];
    var i: nat :| GivenAt(before, session, target, i);
    assert before[..i] == events[..i];
    assert GivenAt(events, session, target, i);
  }

  /** The connected tabs and the entries of the snapshot have sessions and targets that attaches of the run gave. */
  ghost predicate AllGiven(events: seq<Event>, s: State) {
    && (forall t :: HasSession(s.tabs, t) ==> WasGiven(events, s.tabs[t].session, s.tabs[t].target))
    && (s.stored.Some? ==>
          forall k :: 0 <= k < |s.stored.value.entries| ==>
            WasGiven(events, s.stored.value.entries[k].session, s.stored.value.entries[k].target))
  }

  lemma {:induction false} RestoredGiven(events: seq<Event>, entries: seq<Saved>, n: nat)
    requires n <= |entries|
    requires forall k :: 0 <= k < |entries| ==> WasGiven(events, entries[k].session, entries[k].target)
    ensures forall t :: HasSession(RestoredTabs(entries, n), t) ==>
              WasGiven(events, RestoredTabs(entries, n)[t].session, RestoredTabs(entries, n)[t].target)
  {
    if n > 0 {
      RestoredGiven(events, entries, n - 1);
    }
  }

  lemma StepGiven(events: seq<Event>, s: State, e: Event)
    requires AllGiven(events, s) && Enabled(s, e)
    requires e.AttachCommit? ==> WasGiven(events, s.nextSession, e.target)
    ensures AllGiven(events, Apply(s, e))
  {
    match e
    case Restart(readable, dead) =>
      if readable && s.stored.Some? {
        var entries := s.stored.value.entries;
        RestoredGiven(events, entries, |entries|);
        LivingTabsAre(RestoredTabs(entries, |entries|), entries, dead, |entries|);
      }
    case Persist(entries) =>
      forall k | 0 <= k < |entries| ensures WasGiven(events, entries[k].session, entries[k].target) {
        assert Saves(entries[k], s.tabs) && HasSession(s.tabs, entries[k].tab);
      }
    case _ =>
      forall t | HasSession(Apply(s, e).tabs, t)
        ensures WasGiven(events, Apply(s, e).tabs[t].session, Apply(s, e).tabs[t].target)
      {
      }
  }

  lemma AllStayGiven(events: seq<Event>, s: State)
    requires events != [] && AllGiven(events[..|events|-1], s)
    ensures AllGiven(events, s)
  {
    forall session, target | WasGiven(events[..|events|-1], session, target) ensures WasGiven(events, session, target) {
      StaysGiven(events, session, target);
    }
  }

  /** Over any run, restarts included, every connected tab has a session that some attach gave, with the target of that
      attach. */
  lemma {:induction false} SessionsWereGiven(events: seq<Event>)
    requires Possible(events)
    ensures AllGiven(events, After(events))
    decreases |events|
  {
    if events != [] {
      var last := |events| - 1;
      SessionsWereGiven(events[..last]);
      AllStayGiven(events, After(events[..last]));
      if events[last].AttachCommit? {
        assert GivenAt(events, After(events[..last]).nextSession, events[last].target, last);
      }
      StepGiven(events, After(events[..last]), events[last]);
    }
  }
}
