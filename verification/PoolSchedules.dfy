/** Every schedule of the worker pool: what it keeps, that it ends, and when it hangs. */
module PoolSchedules {
  import opened Counting
  import opened Wrappers
  import opened WorkerPool

  /** The invariant holds at every point of every schedule. */
  lemma {:induction false} RunKeepsInv(c: Config, s: State, acts: seq<Action>)
    requires c.Valid() && Inv(c, s) && Runs(c, s, acts)
    ensures Inv(c, After(c, s, acts))
    decreases |acts|
  {
    if acts != [] {
      StepInv(c, s, acts[0]);
      RunKeepsInv(c, Apply(c, s, acts[0]), acts[1..]);
    }
  }

  // ------------------------------------------------------------------ termination

  function Rank(w: Worker): nat {
    match w
    case Starting(_) => 4
    case Waiting => 1
    case Got(_) => 5
    case Running(_) => 4
    case Publishing(_) => 3
    case Cancelling => 2
    case Exited => 0
  }

  /** Steps still possible, at most. */
  function Remaining(c: Config, s: State): int {
    5 * (c.Files() - s.next) + (if s.closed then 0 else 1) + Total(s.workers, Rank)
    + (c.Files() - s.taken) + (if s.collector.Reading? then 2 else if s.collector.Joining? then 1 else 0)
  }

  lemma RankFalls(c: Config, s: State, a: Action)
    requires Enabled(c, s, a) && OfWorker(a) && a.w < |s.workers|
    ensures Rank(Apply(c, s, a).workers[a.w]) - 5 * Apply(c, s, a).next < Rank(s.workers[a.w]) - 5 * s.next
  {
  }

  lemma StepUsesUp(c: Config, s: State, a: Action)
    requires Shape(c, s) && Enabled(c, s, a)
    ensures Remaining(c, Apply(c, s, a)) < Remaining(c, s)
  {
    if OfWorker(a) {
      WorkerMoves(c, s, a);
      RankFalls(c, s, a);
      TotalUpdate(s.workers, Rank, a.w, Apply(c, s, a).workers[a.w]);
    } else {
      WorkersStay(c, s, a);
    }
  }

  lemma {:induction false} RunIsBounded(c: Config, s: State, acts: seq<Action>)
    requires c.Valid() && Inv(c, s) && Runs(c, s, acts)
    ensures |acts| <= Remaining(c, s)
    decreases |acts|
  {
    if acts != [] {
      StepUsesUp(c, s, acts[0]);
      StepInv(c, s, acts[0]);
      RunIsBounded(c, Apply(c, s, acts[0]), acts[1..]);
    }
  }

  lemma {:induction false} FreshRank(ws: seq<Worker>)
    requires forall w :: 0 <= w < |ws| ==> ws[w].Starting?
    ensures Total(ws, Rank) == 4 * |ws|
  {
    if ws != [] {
      FreshRank(ws[1..]);
    }
  }

  // ------------------------------------------------------------------ progress

  /** 1 for a worker that can take another file once it is done with what it has. */
  function Useful(c: Config, w: Worker): nat {
    match w
    case Starting(ok) => if ok then 1 else 0
    case Waiting => 1
    case Got(k) => if k < c.Files() && c.outcomes[k] == Failed then 0 else 1
    case Running(k) => if k < c.Files() && c.outcomes[k] == Failed then 0 else 1
    case Publishing(m) => if IsError(m) then 0 else 1
    case _ => 0
  }

  function UsefulIn(c: Config): Worker -> nat {
    w => Useful(c, w)
  }

  /** How many files `workers` workers get through, each of them stopping at the first file that fails. */
  function HandledBy(outcomes: seq<Report>, workers: nat): (n: nat)
    ensures n <= |outcomes|
  {
    if outcomes == [] || workers == 0 then 0
    else 1 + HandledBy(outcomes[1..], if outcomes[0] == Failed then workers - 1 else workers)
  }

  lemma FailedOf(first: Report, rest: seq<Report>)
    ensures multiset([first] + rest)[Failed] == multiset(rest)[Failed] + if first == Failed then 1 else 0
  {
    assert multiset([first] + rest) == multiset{first} + multiset(rest);
  }

  lemma FirstAndRest(outcomes: seq<Report>, n: nat)
    requires n < |outcomes|
    ensures outcomes == [outcomes[0]] + outcomes[1..] && outcomes[..n+1] == [outcomes[0]] + outcomes[1..][..n]
    ensures n > 0 ==> outcomes[n] == outcomes[1..][n-1]
  {
  }

  /** All files, unless as many fail as there are workers: then the files up to the one that stops the last worker. */
  lemma {:induction false} HandledByExactly(outcomes: seq<Report>, workers: nat)
    ensures var n := HandledBy(outcomes, workers);
            if multiset(outcomes)[Failed] < workers then n == |outcomes|
            else multiset(outcomes[..n])[Failed] == workers && (n > 0 ==> outcomes[n-1] == Failed)
  {
    if outcomes != [] && workers > 0 {
      var left := if outcomes[0] == Failed then workers - 1 else workers;
      var rest := outcomes[1..];
      var n := HandledBy(rest, left);
      HandledByExactly(rest, left);
      FirstAndRest(outcomes, n);
      FailedOf(outcomes[0], rest);
      FailedOf(outcomes[0], rest[..n]);
    }
  }

  lemma {:induction false} MoreWorkersHandleMore(outcomes: seq<Report>, fewer: nat, more: nat)
    requires fewer <= more
    ensures HandledBy(outcomes, fewer) <= HandledBy(outcomes, more)
  {
    if outcomes != [] && fewer > 0 {
      var one := if outcomes[0] == Failed then 1 else 0;
      MoreWorkersHandleMore(outcomes[1..], fewer - one, more - one);
    }
  }

  /** How many files can be reported on in one run. */
  function Handled(c: Config): nat {
    HandledBy(c.outcomes, Total(InitialWorkers(c), UsefulIn(c)))
  }

  /** Whether there can be more messages than the collector and the result channel hold together: one error that the
      collector takes before it stops, `Files()` more on the channel, and one in the hands of a worker. */
  predicate MayHang(c: Config) {
    if c.Files() == 0 then c.Failures() >= 1 else c.Failures() + Handled(c) >= c.Files() + 2
  }

  /** Files handed out, and those the useful workers can still get through. */
  ghost predicate HandsOut(c: Config, s: State) {
    s.next <= c.Files() && s.next + HandledBy(c.outcomes[s.next..], Total(s.workers, UsefulIn(c))) <= Handled(c)
  }

  lemma HandoffHandsOut(c: Config, s: State, w: nat)
    requires HandsOut(c, s) && Enabled(c, s, Handoff(w))
    ensures HandsOut(c, Apply(c, s, Handoff(w)))
  {
    var t := Apply(c, s, Handoff(w));
    TotalUpdate(s.workers, UsefulIn(c), w, t.workers[w]);
    TotalAtLeast(s.workers, UsefulIn(c), w);
    assert c.outcomes[s.next..][1..] == c.outcomes[t.next..];
  }

  lemma UsefulFalls(c: Config, s: State, a: Action)
    requires Enabled(c, s, a) && OfWorker(a) && !a.Handoff? && a.w < |s.workers|
    ensures Apply(c, s, a).next == s.next && Useful(c, Apply(c, s, a).workers[a.w]) <= Useful(c, s.workers[a.w])
  {
  }

  /** Nothing handed out, and no more useful workers. */
  lemma FewerUseful(c: Config, s: State, t: State)
    requires HandsOut(c, s) && t.next == s.next && Total(t.workers, UsefulIn(c)) <= Total(s.workers, UsefulIn(c))
    ensures HandsOut(c, t)
  {
    MoreWorkersHandleMore(c.outcomes[s.next..], Total(t.workers, UsefulIn(c)), Total(s.workers, UsefulIn(c)));
  }

  lemma StepHandsOut(c: Config, s: State, a: Action)
    requires HandsOut(c, s) && Enabled(c, s, a)
    ensures HandsOut(c, Apply(c, s, a))
  {
    if a.Handoff? {
      HandoffHandsOut(c, s, a.w);
    } else if OfWorker(a) {
      WorkerMoves(c, s, a);
      UsefulFalls(c, s, a);
      TotalUpdate(s.workers, UsefulIn(c), a.w, Apply(c, s, a).workers[a.w]);
      FewerUseful(c, s, Apply(c, s, a));
    } else {
      WorkersStay(c, s, a);
      FewerUseful(c, s, Apply(c, s, a));
    }
  }

  lemma {:induction false} RunHandsOut(c: Config, s: State, acts: seq<Action>)
    requires HandsOut(c, s) && Runs(c, s, acts)
    ensures HandsOut(c, After(c, s, acts))
    decreases |acts|
  {
    if acts != [] {
      StepHandsOut(c, s, acts[0]);
      RunHandsOut(c, Apply(c, s, acts[0]), acts[1..]);
    }
  }

  lemma InitialHandsOut(c: Config)
    ensures HandsOut(c, Initial(c))
  {
    assert c.outcomes[0..] == c.outcomes;
  }

  /** The collector waits for the workers, and a worker waits for room that nobody will make. */
  ghost predicate Blocked(c: Config, s: State) {
    && s.collector.Joining?
    && |s.sent| - s.taken >= c.Files()
    && exists w :: 0 <= w < |s.workers| && s.workers[w].Publishing?
  }

  lemma BlockedNeedsMessages(c: Config, s: State)
    requires Inv(c, s) && HandsOut(c, s) && Blocked(c, s)
    ensures MayHang(c)
  {
    var w :| 0 <= w < |s.workers| && s.workers[w].Publishing?;
    TotalAtLeast(s.workers, Owes, w);
  }

  lemma {:induction false} NothingOwed(ws: seq<Worker>)
    requires forall w :: 0 <= w < |ws| ==> ws[w].Exited?
    ensures Total(ws, Owes) == 0
  {
    if ws != [] {
      NothingOwed(ws[1..]);
    }
  }

  lemma BusyWorkerMoves(c: Config, s: State, w: nat)
    requires Shape(c, s) && w < |s.workers| && !s.workers[w].Publishing? && !s.workers[w].Exited?
    ensures exists a :: Enabled(c, s, a)
  {
    match s.workers[w]
    case Starting(_) => assert Enabled(c, s, Begin(w));
    case Waiting =>
      if s.next < c.Files() {
        assert Enabled(c, s, Handoff(w));
      } else if s.closed {
        assert Enabled(c, s, Leave(w));
      } else {
        assert Enabled(c, s, Close);
      }
    case Got(_) => assert Enabled(c, s, Check(w));
    case Running(_) => assert Enabled(c, s, Finish(w, false));
    case Cancelling => assert Enabled(c, s, Cancel(w));
  }

  /** Once all workers have gone, the reports they left are enough to finish reading. */
  lemma CollectorFinishes(c: Config, s: State)
    requires c.Valid() && Inv(c, s) && !s.collector.Returned?
    requires forall w :: 0 <= w < |s.workers| ==> s.workers[w].Exited?
    ensures exists a :: Enabled(c, s, a)
  {
    if s.collector.Joining? {
      assert Enabled(c, s, Join);
    } else if s.taken == c.Files() {
      assert Enabled(c, s, StopReading);
    } else if s.taken < |s.sent| {
      assert Enabled(c, s, Read);
    } else {
      assert s.sent[..s.taken] == s.sent;
      assert WorkerFits(c, s, 0);
      NothingOwed(s.workers);
      assert false;
    }
  }

  lemma Progress(c: Config, s: State)
    requires c.Valid() && Inv(c, s) && !s.collector.Returned? && !Blocked(c, s)
    ensures exists a :: Enabled(c, s, a)
  {
    if w :| 0 <= w < |s.workers| && !s.workers[w].Publishing? && !s.workers[w].Exited? {
      BusyWorkerMoves(c, s, w);
    } else if w :| 0 <= w < |s.workers| && s.workers[w].Publishing? {
      if |s.sent| - s.taken < c.Files() {
        assert Enabled(c, s, Publish(w));
      } else if s.taken == c.Files() {
        assert Enabled(c, s, StopReading);
      } else {
        assert Enabled(c, s, Read);
      }
    } else {
      CollectorFinishes(c, s);
    }
  }

  /** No schedule runs for ever, and no schedule stops before the call returns, unless there can be more messages than
      there is room for. */
  lemma EveryScheduleReturns(c: Config, acts: seq<Action>)
    requires c.Valid() && !MayHang(c) && Runs(c, Initial(c), acts)
    ensures |acts| <= 6 * c.Files() + 4 * |c.starts| + 3
    ensures After(c, Initial(c), acts).collector.Returned? || exists a :: Enabled(c, After(c, Initial(c), acts), a)
  {
    InitialInv(c);
    RunIsBounded(c, Initial(c), acts);
    FreshRank(InitialWorkers(c));
    RunKeepsInv(c, Initial(c), acts);
    InitialHandsOut(c);
    RunHandsOut(c, Initial(c), acts);
    var s := After(c, Initial(c), acts);
    if !s.collector.Returned? {
      if Blocked(c, s) {
        BlockedNeedsMessages(c, s);
      }
      Progress(c, s);
    }
  }

  // ------------------------------------------------------------------ when it hangs

  lemma {:induction false} BlockedForEver(c: Config, s: State, acts: seq<Action>)
    requires Blocked(c, s) && Runs(c, s, acts)
    ensures Blocked(c, After(c, s, acts)) && !After(c, s, acts).collector.Returned?
    decreases |acts|
  {
    if acts != [] {
      var t := Apply(c, s, acts[0]);
      var w :| 0 <= w < |s.workers| && s.workers[w].Publishing?;
      assert t.workers[w] == s.workers[w];
      BlockedForEver(c, t, acts[1..]);
    }
  }

  ghost predicate Reaches(c: Config, s: State, t: State) {
    exists acts :: Runs(c, s, acts) && After(c, s, acts) == t
  }

  lemma ReachesItself(c: Config, s: State)
    ensures Reaches(c, s, s)
  {
    assert Runs(c, s, []) && After(c, s, []) == s;
  }

  lemma ReachesByStep(c: Config, s: State, a: Action, t: State)
    requires Enabled(c, s, a) && Reaches(c, Apply(c, s, a), t)
    ensures Reaches(c, s, t)
  {
    var acts :| Runs(c, Apply(c, s, a), acts) && After(c, Apply(c, s, a), acts) == t;
    assert ([a] + acts)[1..] == acts;
    assert Runs(c, s, [a] + acts) && After(c, s, [a] + acts) == t;
  }

  lemma {:induction false} RunsOn(c: Config, s: State, first: seq<Action>, u: State)
    requires Runs(c, s, first) && Reaches(c, After(c, s, first), u)
    ensures Reaches(c, s, u)
    decreases |first|
  {
    if first != [] {
      RunsOn(c, Apply(c, s, first[0]), first[1..], u);
      ReachesByStep(c, s, first[0], u);
    }
  }

  lemma ReachesOn(c: Config, s: State, t: State, u: State)
    requires Reaches(c, s, t) && Reaches(c, t, u)
    ensures Reaches(c, s, u)
  {
    var first :| Runs(c, s, first) && After(c, s, first) == t;
    RunsOn(c, s, first, u);
  }

  /** 1 for a worker whose translator has yet to fail. */
  function Unstarted(w: Worker): nat {
    if w == Starting(false) then 1 else 0
  }

  lemma {:induction false} FindWorker(ws: seq<Worker>, weigh: Worker -> nat) returns (w: nat)
    requires Total(ws, weigh) > 0
    ensures w < |ws| && weigh(ws[w]) > 0
  {
    if weigh(ws[0]) > 0 {
      w := 0;
    } else {
      w := FindWorker(ws[1..], weigh);
      w := w + 1;
    }
  }

  /** A waiting worker takes the next file, works on it and reports, and nobody else moves. */
  lemma OneFileDone(c: Config, s: State, g: nat) returns (t: State)
    requires c.Valid() && g < |s.workers| && s.workers[g] == Waiting && !s.cancelled
    requires s.next < c.Files() && |s.sent| - s.taken < c.Files()
    ensures Reaches(c, s, t) && t.next == s.next + 1
    ensures t == s.(next := t.next, sent := t.sent, workers := t.workers) && |t.sent| == |s.sent| + 1
    ensures t.workers == s.workers[g := if c.outcomes[s.next] == Failed then Cancelling else Waiting]
  {
    var s1 := Apply(c, s, Handoff(g));
    var s2 := Apply(c, s1, Check(g));
    var s3 := Apply(c, s2, Finish(g, false));
    t := Apply(c, s3, Publish(g));
    ReachesItself(c, t);
    ReachesByStep(c, s3, Publish(g), t);
    ReachesByStep(c, s2, Finish(g, false), t);
    ReachesByStep(c, s1, Check(g), t);
    ReachesByStep(c, s, Handoff(g), t);
    assert c.outcomes[s.next] in c.outcomes;
  }

  ghost predicate Quiet(s: State) {
    !s.cancelled && forall w :: 0 <= w < |s.workers| ==>
                      !s.workers[w].Got? && !s.workers[w].Running? && !s.workers[w].Publishing?
  }

  /** A useful worker starts if it has to, and reports on the next file. */
  lemma OneMoreFile(c: Config, s: State) returns (t: State)
    requires c.Valid() && Quiet(s) && Total(s.workers, UsefulIn(c)) > 0
    requires s.next < c.Files() && |s.sent| - s.taken < c.Files()
    ensures Reaches(c, s, t) && Quiet(t)
    ensures t == s.(next := s.next + 1, sent := t.sent, workers := t.workers) && |t.sent| == |s.sent| + 1
    ensures Total(t.workers, UsefulIn(c))
         == Total(s.workers, UsefulIn(c)) - (if c.outcomes[s.next] == Failed then 1 else 0)
    ensures Total(t.workers, Unstarted) == Total(s.workers, Unstarted)
  {
    var g := FindWorker(s.workers, UsefulIn(c));
    var done := if c.outcomes[s.next] == Failed then Cancelling else Waiting;
    if s.workers[g].Starting? {
      var s0 := Apply(c, s, Begin(g));
      t := OneFileDone(c, s0, g);
      ReachesByStep(c, s, Begin(g), t);
      assert t.workers == s.workers[g := done];
    } else {
      t := OneFileDone(c, s, g);
    }
    TotalUpdate(s.workers, UsefulIn(c), g, done);
    TotalUpdate(s.workers, Unstarted, g, done);
  }

  /** While the collector stands still, all files that can be reported on can be put on the channel. */
  lemma {:induction false} FillByFiles(c: Config, s: State) returns (t: State)
    requires c.Valid() && Quiet(s) && s.next <= c.Files() && 0 <= |s.sent| - s.taken <= s.next
    ensures Reaches(c, s, t) && t.collector == s.collector && t.taken == s.taken
    ensures |t.sent| == |s.sent| + HandledBy(c.outcomes[s.next..], Total(s.workers, UsefulIn(c)))
    ensures Total(t.workers, Unstarted) == Total(s.workers, Unstarted)
    decreases c.Files() - s.next
  {
    if s.next == c.Files() || Total(s.workers, UsefulIn(c)) == 0 {
      t := s;
      ReachesItself(c, s);
    } else {
      var s1 := OneMoreFile(c, s);
      assert c.outcomes[s.next..][1..] == c.outcomes[s1.next..];
      t := FillByFiles(c, s1);
      ReachesOn(c, s, s1, t);
    }
  }

  /** Notices of failed starts fill what room is left, and one more finds none. */
  lemma {:induction false} HangByFailures(c: Config, s: State) returns (t: State)
    requires s.collector.Joining? && 0 <= |s.sent| - s.taken <= c.Files()
    requires |s.sent| - s.taken + Total(s.workers, Unstarted) > c.Files()
    ensures Reaches(c, s, t) && Blocked(c, t)
    decreases c.Files() - (|s.sent| - s.taken)
  {
    var b := FindWorker(s.workers, Unstarted);
    var s1 := Apply(c, s, Begin(b));
    if |s.sent| - s.taken == c.Files() {
      t := s1;
      assert t.workers[b].Publishing?;
      ReachesItself(c, t);
    } else {
      var s2 := Apply(c, s1, Publish(b));
      assert s2.workers == s.workers[b := Exited];
      TotalUpdate(s.workers, Unstarted, b, Exited);
      t := HangByFailures(c, s2);
      ReachesByStep(c, s1, Publish(b), t);
    }
    ReachesByStep(c, s, Begin(b), t);
  }

  lemma HangWithoutFiles(c: Config, a: nat) returns (t: State)
    requires c.Files() == 0 && a < |c.starts| && !c.starts[a]
    ensures Reaches(c, Initial(c), t) && Blocked(c, t)
  {
    var s1 := Apply(c, Initial(c), Begin(a));
    t := Apply(c, s1, StopReading);
    assert t.workers[a].Publishing?;
    ReachesItself(c, t);
    ReachesByStep(c, s1, StopReading, t);
    ReachesByStep(c, Initial(c), Begin(a), t);
  }

  /** Worker a's failure is read first, so the collector waits for the workers. */
  lemma FailureRead(c: Config, a: nat) returns (t: State)
    requires c.Files() > 0 && a < |c.starts| && !c.starts[a]
    ensures Reaches(c, Initial(c), t) && t.workers == InitialWorkers(c)[a := Exited]
    ensures t.next == 0 && !t.cancelled && t.collector.Joining? && |t.sent| == t.taken == 1
  {
    var s1 := Apply(c, Initial(c), Begin(a));
    var s2 := Apply(c, s1, Publish(a));
    t := Apply(c, s2, Read);
    ReachesItself(c, t);
    ReachesByStep(c, s2, Read, t);
    ReachesByStep(c, s1, Publish(a), t);
    ReachesByStep(c, Initial(c), Begin(a), t);
  }

  /** Then the files and the other failures fill the channel. */
  lemma HangWithFiles(c: Config, a: nat) returns (t: State)
    requires c.Valid() && c.Files() > 0 && MayHang(c) && a < |c.starts| && !c.starts[a]
    ensures Reaches(c, Initial(c), t) && Blocked(c, t)
  {
    var s := FailureRead(c, a);
    TotalUpdate(InitialWorkers(c), UsefulIn(c), a, Exited);
    TotalUpdate(InitialWorkers(c), Unstarted, a, Exited);
    OwesUnstarted(InitialWorkers(c));
    assert c.outcomes[0..] == c.outcomes;
    var u := FillByFiles(c, s);
    t := HangByFailures(c, u);
    ReachesOn(c, s, u, t);
    ReachesOn(c, Initial(c), s, t);
  }

  lemma {:induction false} OwesUnstarted(ws: seq<Worker>)
    requires forall w :: 0 <= w < |ws| ==> ws[w].Starting?
    ensures Total(ws, Owes) == Total(ws, Unstarted)
  {
    if ws != [] {
      OwesUnstarted(ws[1..]);
    }
  }

  /** A schedule from which the call never returns exists exactly when there can be more messages than there is room
      for. */
  lemma HangsExactlyWhen(c: Config)
    requires c.Valid()
    ensures (exists t :: Reaches(c, Initial(c), t) && Blocked(c, t)) <==> MayHang(c)
  {
    if t :| Reaches(c, Initial(c), t) && Blocked(c, t) {
      var acts :| Runs(c, Initial(c), acts) && After(c, Initial(c), acts) == t;
      InitialInv(c);
      RunKeepsInv(c, Initial(c), acts);
      InitialHandsOut(c);
      RunHandsOut(c, Initial(c), acts);
      BlockedNeedsMessages(c, t);
    }
    if MayHang(c) {
      var a := FindWorker(InitialWorkers(c), Owes);
      if c.Files() == 0 {
        var t := HangWithoutFiles(c, a);
      } else {
        var t := HangWithFiles(c, a);
      }
    }
  }
}
