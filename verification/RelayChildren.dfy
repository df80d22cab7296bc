/** The child sessions of the browser relay: which tab each of them leads to, over whole runs. */
module RelayChildren {
  import opened Wrappers
  import opened Relay

  // ------------------------------------------------------------------ one step

  /** A tab that is detached, navigates or is closed takes its child sessions along, and no others. */
  lemma GoWithTheirTab(s: State, e: Event, tab: Tab)
    requires e == Detach(tab) || e == Navigated(tab) || (e == Removed(tab) && tab in s.tabs)
    ensures var after := Apply(s, e).children;
            forall c :: (c in after <==> c in s.children && s.children[c] != tab) &&
                        (c in after ==> after[c] == s.children[c])
  {
  }

  /** The child sessions of a tab that is replaced lead to the tab in its place, and the others where they led. */
  lemma MoveWithTheirTab(s: State, added: Tab, removed: Tab)
    requires removed in s.tabs
    ensures var after := Apply(s, Replaced(added, removed)).children;
            forall c :: (c in after <==> c in s.children) &&
                        (c in after ==> after[c] == if s.children[c] == removed then added else s.children[c])
  {
  }

  /** The event tells of child session c. */
  predicate Tells(e: Event, c: string) {
    (e.ChildAttached? || e.ChildDetached?) && e.child == c
  }

  /** The tab that a child session of `tab` leads to after an event that does not tell of it, if it still leads
      anywhere. */
  function Onward(s: State, e: Event, tab: Tab): Option<Tab> {
    if e.Restart? || e == Detach(tab) || e == Navigated(tab) || (e == Removed(tab) && tab in s.tabs) then None
    else if e.Replaced? && e.removed == tab && tab in s.tabs then Some(e.added)
    else Some(tab)
  }

  /** Where a child session leads, if anywhere. */
  function LedBy(children: map<string, Tab>, c: string): Option<Tab> {
    if c in children then Some(children[c]) else None
  }

  /** A child session leads where its tab goes, unless the event tells of it. */
  lemma LedOn(s: State, e: Event, c: string)
    ensures LedBy(Apply(s, e).children, c)
         == if Tells(e, c) then (if e.ChildAttached? then Some(e.tab) else None)
            else if c in s.children then Onward(s, e, s.children[c])
            else None
  {
    match e
    case Restart(readable, dead) => assert Apply(s, e).children == map[];
    case _ =>
  }

  // ------------------------------------------------------------------ runs

  /** Where a child session of `tab` leads at the end of the run when it was attached before event i and no event
      from there on tells of it. */
  function Followed(events: seq<Event>, tab: Tab, i: nat): Option<Tab>
    requires i <= |events|
    decreases |events|
  {
    if i == |events| then Some(tab)
    else
      var before := events[..|events|-1];
      match Followed(before, tab, i)
      case None => None
      case Some(t) => Onward(After(before), events[|events|-1], t)
  }

  /** Event i attaches the child session, and no later event tells of it. */
  ghost predicate LastTold(events: seq<Event>, i: nat, c: string) {
    && i < |events| && events[i].ChildAttached? && events[i].child == c
    && forall j :: i < j < |events| ==> !Tells(events[j], c)
  }

  /** The child session was last attached under a tab that, followed through replacements, is now `tab`. */
  ghost predicate BelongsTo(events: seq<Event>, c: string, tab: Tab) {
    exists i: nat :: LastTold(events, i, c) && Followed(events, events[i].tab, i + 1) == Some(tab)
  }

  lemma LastToldBefore(events: seq<Event>, i: nat, c: string)
    requires i + 1 < |events|
    ensures LastTold(events, i, c) <==> LastTold(events[..|events|-1], i, c) && !Tells(events[|events|-1], c)
  {
    var before := events[..|events|-1];
    assert forall j :: 0 <= j < |before| ==> before[j] == events[j];
    if LastTold(before, i, c) && !Tells(events[|events|-1], c) {
      forall j | i < j < |events| ensures !Tells(events[j], c) {
        assert j < |before| ==> !Tells(before[j], c);
      }
    }
  }

  /** Over any run, a child session leads to a tab exactly when it was last attached under that tab, followed through
      replacements, and neither the tab has gone nor the child session been detached since. */
  lemma {:induction false} ChildLeadsExactlyWhen(events: seq<Event>, c: string, tab: Tab)
    ensures LedBy(After(events).children, c) == Some(tab) <==> BelongsTo(events, c, tab)
    decreases |events|
  {
    if events != [] {
      var last := |events| - 1;
      var before, e := events[..last], events[last];
      LedOn(After(before), e, c);
      if Tells(e, c) {
        TellsLast(events, c, tab);
      } else {
        Carried(events, c, tab);
      }
    }
  }

  lemma TellsLast(events: seq<Event>, c: string, tab: Tab)
    requires events != [] && Tells(events[|events|-1], c)
    ensures BelongsTo(events, c, tab) <==> events[|events|-1].ChildAttached? && events[|events|-1].tab == tab
  {
    var last := |events| - 1;
    if events[last].ChildAttached? {
      assert LastTold(events, last, c) && Followed(events, events[last].tab, last + 1) == Some(events[last].tab);
    }
    forall i: nat | LastTold(events, i, c) ensures i == last {
    }
  }

  lemma Carried(events: seq<Event>, c: string, tab: Tab)
    requires events != [] && !Tells(events[|events|-1], c)
    ensures var s, e := After(events[..|events|-1]), events[|events|-1];
            BelongsTo(events, c, tab) <==> c in s.children && Onward(s, e, s.children[c]) == Some(tab)
    decreases |events|, 0
  {
    var last := |events| - 1;
    var before, e := events[..last], events[last];
    var s := After(before);
    if BelongsTo(events, c, tab) {
      var i: nat :| LastTold(events, i, c) && Followed(events, events[i].tab, i + 1) == Some(tab);
      LastToldBefore(events, i, c);
      var t := Followed(before, before[i].tab, i + 1).value;
      assert BelongsTo(before, c, t);
      ChildLeadsExactlyWhen(before, c, t);
    }
    if c in s.children && Onward(s, e, s.children[c]) == Some(tab) {
      ChildLeadsExactlyWhen(before, c, s.children[c]);
      var i: nat :| LastTold(before, i, c) && Followed(before, before[i].tab, i + 1) == Some(s.children[c]);
      LastToldBefore(events, i, c);
      assert Followed(events, events[i].tab, i + 1) == Some(tab);
    }
  }

  // ------------------------------------------------------------------ tabs that are gone

  /** Every child session leads to a tab that is there. */
  ghost predicate ChildrenPresent(s: State) {
    forall c :: c in s.children ==> s.children[c] in s.tabs
  }

  /** A tab with child sessions is dropped because its attach or its probe failed. */
  ghost predicate Orphans(s: State, e: Event) {
    (e.AttachFailed? || e.ProbeFailed?) && exists c :: c in s.children && s.children[c] == e.tab
  }

  /** A step keeps every child session leading to a tab that is there exactly when it fails no tab that has one. */
  lemma StepKeepsChildrenPresentExactlyWhen(s: State, e: Event)
    requires ChildrenPresent(s) && Enabled(s, e)
    ensures ChildrenPresent(Apply(s, e)) <==> !Orphans(s, e)
  {
    if c :| (e.AttachFailed? || e.ProbeFailed?) && c in s.children && s.children[c] == e.tab {
      assert c in Apply(s, e).children && Apply(s, e).children[c] == e.tab;
    } else {
      forall c | c in Apply(s, e).children ensures Apply(s, e).children[c] in Apply(s, e).tabs {
        LedOn(s, e, c);
      }
    }
  }

  /** Before the first event of the run and after each. */
  ghost predicate ChildrenPresentThroughout(events: seq<Event>)
    decreases |events|
  {
    ChildrenPresent(After(events)) && (events != [] ==> ChildrenPresentThroughout(events[..|events|-1]))
  }

  ghost predicate NeverOrphans(events: seq<Event>)
    decreases |events|
  {
    events != [] ==>
      NeverOrphans(events[..|events|-1]) && !Orphans(After(events[..|events|-1]), events[|events|-1])
  }

  /** Over any run, child sessions lead to tabs that are there at every point exactly when no attach and no probe fails
      for a tab that has a child session. */
  lemma {:induction false} ChildrenStayPresentExactlyWhen(events: seq<Event>)
    requires Possible(events)
    ensures ChildrenPresentThroughout(events) <==> NeverOrphans(events)
    decreases |events|
  {
    if events != [] {
      var before := events[..|events|-1];
      ChildrenStayPresentExactlyWhen(before);
      if ChildrenPresentThroughout(before) {
        StepKeepsChildrenPresentExactlyWhen(After(before), events[|events|-1]);
      }
    }
  }

  // ------------------------------------------------------------------ routing

  /** A command sent to a session that is not a tab's own reaches the tab that the child session belongs to, and no tab
      when it belongs to none. */
  lemma CommandsReachTheirChild(events: seq<Event>, id: string, tab: Tab)
    requires forall n :: n in After(events).tabBySession ==> SessionName(n) != id
    ensures GetTabBySessionId(After(events), id) == Some(Route(tab, Child)) <==> BelongsTo(events, id, tab)
    ensures GetTabBySessionId(After(events), id) == None <==> forall t :: !BelongsTo(events, id, t)
  {
    ChildLeadsExactlyWhen(events, id, tab);
    if id in After(events).children {
      ChildLeadsExactlyWhen(events, id, After(events).children[id]);
    } else {
      forall t ensures !BelongsTo(events, id, t) {
        ChildLeadsExactlyWhen(events, id, t);
      }
    }
  }
}
