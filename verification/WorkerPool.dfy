/** The parallel document runner: `parallel` workers receive file numbers over an unbuffered channel,
    publish one report per file on a channel of capacity `|files|`, and a collector reads the reports
    in order, stops at the first error, and then waits for every worker.

    The pool is a step relation over `State`. One step is one operation of one goroutine: a channel
    operation, a check of the context, a call of `cancel`, or the end of one file. An interleaving is
    a sequence of actions, so a statement about every action sequence covers every schedule. */
module WorkerPool {
  import opened Counting
  import opened Wrappers

  /** What processing a file reports. `Echo` is an error that only passes on the cancelled context. */
  datatype Report = Processed | Skipped | Failed | Echo

  /** A value on the result channel; a worker whose translator did not start sends `NoTranslator`. */
  datatype Message = FromFile(file: nat, report: Report) | NoTranslator(worker: nat)

  datatype Worker =
    | Starting(ok: bool)
    | Waiting
    | Got(file: nat)
    | Running(file: nat)
    | Publishing(message: Message)
    | Cancelling
    | Exited

  datatype Answer = Answer(processed: nat, skipped: nat, err: Option<Message>)

  datatype Collector = Reading | Joining(answer: Answer) | Returned(answer: Answer)

  /** `outcomes[k]` is what file k reports when nobody cancels; `starts[w]` says whether worker w's
      translator starts. Both are facts about the outside world, fixed for one run. */
  datatype Config = Config(outcomes: seq<Report>, starts: seq<bool>) {
    predicate Valid() {
      |starts| > 0 && Echo !in outcomes
    }

    function Files(): nat { |outcomes| }

    /** How many translators fail to start. */
    function Failures(): nat { Total(InitialWorkers(this), Owes) }
  }

  /** `sent` is everything ever put on the result channel; `sent[taken..]` is what is buffered now. */
  datatype State = State(
    workers: seq<Worker>,
    next: nat,
    closed: bool,
    sent: seq<Message>,
    taken: nat,
    cancelled: bool,
    processed: nat,
    skipped: nat,
    collector: Collector)

  datatype Action =
    | Begin(w: nat)
    | Handoff(w: nat)
    | Check(w: nat)
    | Finish(w: nat, echo: bool)
    | Publish(w: nat)
    | Cancel(w: nat)
    | Leave(w: nat)
    | Close
    | Read
    | StopReading
    | Join

  function InitialWorkers(c: Config): seq<Worker> {
    seq(|c.starts|, w requires 0 <= w < |c.starts| => Starting(c.starts[w]))
  }

  function Initial(c: Config): State {
    State(InitialWorkers(c), 0, false, [], 0, false, 0, 0, Reading)
  }

  predicate IsError(m: Message) {
    m.NoTranslator? || m.report == Failed || m.report == Echo
  }

  /** An error that is a cause, not the echo of a cancelled context. */
  predicate IsOriginal(m: Message) {
    m.NoTranslator? || m.report == Failed
  }

  predicate Enabled(c: Config, s: State, a: Action) {
    match a
    case Begin(w) => w < |s.workers| && s.workers[w].Starting?
    case Handoff(w) => w < |s.workers| && s.workers[w].Waiting? && s.next < c.Files()
    case Check(w) => w < |s.workers| && s.workers[w].Got?
    case Finish(w, echo) => w < |s.workers| && s.workers[w].Running? && (echo ==> s.cancelled)
    case Publish(w) => w < |s.workers| && s.workers[w].Publishing? && |s.sent| - s.taken < c.Files()
    case Cancel(w) => w < |s.workers| && s.workers[w].Cancelling?
    case Leave(w) => w < |s.workers| && s.workers[w].Waiting? && s.closed
    case Close => s.next == c.Files() && !s.closed
    case Read => s.collector.Reading? && s.taken < c.Files() && s.taken < |s.sent|
    case StopReading => s.collector.Reading? && s.taken == c.Files()
    case Join => s.collector.Joining? && forall w :: 0 <= w < |s.workers| ==> s.workers[w].Exited?
  }

  function AfterPublish(m: Message): Worker {
    if m.NoTranslator? then Exited else if IsError(m) then Cancelling else Waiting
  }

  function AfterRead(s: State): State
    requires s.taken < |s.sent|
  {
    var m := s.sent[s.taken];
    if IsError(m) then
      s.(taken := s.taken + 1, collector := Joining(Answer(s.processed, s.skipped, Some(m))))
    else if m.report == Skipped then
      s.(taken := s.taken + 1, skipped := s.skipped + 1)
    else
      s.(taken := s.taken + 1, processed := s.processed + 1)
  }

  function Apply(c: Config, s: State, a: Action): State
    requires Enabled(c, s, a)
  {
    match a
    case Begin(w) =>
      s.(workers := s.workers[w := if s.workers[w].ok then Waiting else Publishing(NoTranslator(w))])
    case Handoff(w) => s.(workers := s.workers[w := Got(s.next)], next := s.next + 1)
    case Check(w) => s.(workers := s.workers[w := if s.cancelled then Exited else Running(s.workers[w].file)])
    case Finish(w, echo) =>
      var k := s.workers[w].file;
      var report := if echo || k >= |c.outcomes| then Echo else c.outcomes[k];
      s.(workers := s.workers[w := Publishing(FromFile(k, report))])
    case Publish(w) =>
      var m := s.workers[w].message;
      s.(sent := s.sent + [m], workers := s.workers[w := AfterPublish(m)])
    case Cancel(w) => s.(cancelled := true, workers := s.workers[w := Exited])
    case Leave(w) => s.(workers := s.workers[w := Exited])
    case Close => s.(closed := true)
    case Read => AfterRead(s)
    case StopReading => s.(collector := Joining(Answer(s.processed, s.skipped, None)))
    case Join => s.(collector := Returned(s.collector.answer))
  }

  /** The action sequence can be carried out from s. */
  predicate Runs(c: Config, s: State, acts: seq<Action>)
    decreases |acts|
  {
    acts == [] || (Enabled(c, s, acts[0]) && Runs(c, Apply(c, s, acts[0]), acts[1..]))
  }

  function After(c: Config, s: State, acts: seq<Action>): State
    requires Runs(c, s, acts)
    decreases |acts|
  {
    if acts == [] then s else After(c, Apply(c, s, acts[0]), acts[1..])
  }

  // ------------------------------------------------------------------ the invariant

  /** 1 for a worker that has a message to send whatever happens, short of a cancellation. */
  function Owes(w: Worker): nat {
    match w
    case Starting(ok) => if ok then 0 else 1
    case Got(_) => 1
    case Running(_) => 1
    case Publishing(_) => 1
    case _ => 0
  }

  ghost predicate Holds(w: Worker, k: nat) {
    match w
    case Got(f) => f == k
    case Running(f) => f == k
    case Publishing(m) => m.FromFile? && m.file == k
    case _ => false
  }

  ghost predicate HasOriginal(sent: seq<Message>) {
    exists j :: 0 <= j < |sent| && IsOriginal(sent[j])
  }

  ghost predicate Truthful(c: Config, m: Message) {
    match m
    case FromFile(k, r) => k < |c.outcomes| && (r == c.outcomes[k] || r == Echo)
    case NoTranslator(w) => w < |c.starts| && !c.starts[w]
  }

  ghost predicate Shape(c: Config, s: State) {
    && |s.workers| == |c.starts|
    && s.next <= c.Files()
    && (s.closed ==> s.next == c.Files())
    && s.taken <= |s.sent|
    && s.taken <= c.Files()
  }

  /** Every file number is with at most one worker or in at most one message. */
  ghost predicate OwnedOnce(s: State) {
    && (forall w, k: nat :: 0 <= w < |s.workers| && Holds(s.workers[w], k) ==> k < s.next)
    && (forall v, w, k: nat :: 0 <= v < w < |s.workers| && Holds(s.workers[v], k) ==> !Holds(s.workers[w], k))
    && (forall i :: 0 <= i < |s.sent| && s.sent[i].FromFile? ==> s.sent[i].file < s.next)
    && (forall i, j :: 0 <= i < j < |s.sent| && s.sent[i].FromFile? && s.sent[j].FromFile? ==>
          s.sent[i].file != s.sent[j].file)
    && (forall w, i :: 0 <= w < |s.workers| && 0 <= i < |s.sent| && s.sent[i].FromFile? ==>
          !Holds(s.workers[w], s.sent[i].file))
  }

  ghost predicate WorkerFits(c: Config, s: State, w: nat)
    requires w < |s.workers| && w < |c.starts|
  {
    match s.workers[w]
    case Starting(ok) => ok == c.starts[w]
    case Publishing(m) =>
      Truthful(c, m) && (m.FromFile? ==> c.starts[w]) && (m.FromFile? && m.report == Echo ==> s.cancelled)
    case Cancelling => c.starts[w] && HasOriginal(s.sent)
    case Exited => s.closed || HasOriginal(s.sent)
    case _ => c.starts[w]
  }

  /** Reports are truthful, and cancellation always comes after an original error was queued. */
  ghost predicate Caused(c: Config, s: State) {
    && |s.workers| == |c.starts|
    && (forall w :: 0 <= w < |s.workers| ==> WorkerFits(c, s, w))
    && (forall i :: 0 <= i < |s.sent| ==> Truthful(c, s.sent[i]))
    && (forall i :: 0 <= i < |s.sent| && s.sent[i].FromFile? && s.sent[i].report == Echo ==> HasOriginal(s.sent[..i]))
    && (s.cancelled ==> HasOriginal(s.sent))
    && (s.next > 0 ==> true in c.starts)
  }

  /** Messages sent and messages owed never exceed files handed out plus failed starts. */
  ghost predicate Balanced(c: Config, s: State) {
    && |s.sent| + Total(s.workers, Owes) <= s.next + c.Failures()
    && (!s.cancelled ==> |s.sent| + Total(s.workers, Owes) == s.next + c.Failures())
  }

  function Tally(ms: seq<Message>, r: Report): nat {
    if ms == [] then 0
    else Tally(ms[..|ms|-1], r) + (if ms[|ms|-1].FromFile? && ms[|ms|-1].report == r then 1 else 0)
  }

  ghost predicate AllFine(ms: seq<Message>) {
    forall i :: 0 <= i < |ms| ==> !IsError(ms[i])
  }

  ghost predicate AnswerFits(c: Config, s: State, ans: Answer)
    requires s.taken <= |s.sent|
  {
    match ans.err
    case None =>
      && s.taken == c.Files() && AllFine(s.sent[..s.taken])
      && ans.processed == Tally(s.sent[..s.taken], Processed) && ans.skipped == Tally(s.sent[..s.taken], Skipped)
    case Some(m) =>
      && s.taken > 0 && s.sent[s.taken-1] == m && IsError(m) && AllFine(s.sent[..s.taken-1])
      && ans.processed == Tally(s.sent[..s.taken-1], Processed) && ans.skipped == Tally(s.sent[..s.taken-1], Skipped)
  }

  ghost predicate Collected(c: Config, s: State) {
    && s.taken <= |s.sent|
    && match s.collector
       case Reading =>
         && AllFine(s.sent[..s.taken])
         && s.processed == Tally(s.sent[..s.taken], Processed) && s.skipped == Tally(s.sent[..s.taken], Skipped)
       case Joining(ans) => AnswerFits(c, s, ans)
       case Returned(ans) => AnswerFits(c, s, ans)
  }

  ghost predicate Inv(c: Config, s: State) {
    Shape(c, s) && OwnedOnce(s) && Caused(c, s) && Balanced(c, s) && Collected(c, s)
  }

  lemma InitialInv(c: Config)
    requires c.Valid()
    ensures Inv(c, Initial(c))
  {
  }

  /** The action is one of a worker. */
  predicate OfWorker(a: Action) {
    a.Begin? || a.Handoff? || a.Check? || a.Finish? || a.Publish? || a.Cancel? || a.Leave?
  }

  /** An action of a worker changes that worker and no other, and not the collector. */
  lemma WorkerMoves(c: Config, s: State, a: Action)
    requires Enabled(c, s, a) && OfWorker(a)
    ensures a.w < |s.workers| && Apply(c, s, a).workers == s.workers[a.w := Apply(c, s, a).workers[a.w]]
    ensures Apply(c, s, a).taken == s.taken && Apply(c, s, a).closed == s.closed
    ensures Apply(c, s, a).collector == s.collector
  {
  }

  lemma WorkersStay(c: Config, s: State, a: Action)
    requires Enabled(c, s, a) && !OfWorker(a)
    ensures var t := Apply(c, s, a);
            t.workers == s.workers && t.sent == s.sent && t.next == s.next && t.cancelled == s.cancelled
  {
  }

  lemma StepShape(c: Config, s: State, a: Action)
    requires Shape(c, s) && Enabled(c, s, a)
    ensures Shape(c, Apply(c, s, a))
  {
  }

  lemma FewerHeld(s: State, t: State)
    requires OwnedOnce(s) && t.sent == s.sent && t.next == s.next && |t.workers| == |s.workers|
    requires forall w, k: nat :: 0 <= w < |t.workers| && Holds(t.workers[w], k) ==> Holds(s.workers[w], k)
    ensures OwnedOnce(t)
  {
  }

  lemma HandoffOwnedOnce(c: Config, s: State, w: nat)
    requires OwnedOnce(s) && Enabled(c, s, Handoff(w))
    ensures OwnedOnce(Apply(c, s, Handoff(w)))
  {
  }

  lemma PublishOwnedOnce(c: Config, s: State, w: nat)
    requires OwnedOnce(s) && Enabled(c, s, Publish(w))
    ensures OwnedOnce(Apply(c, s, Publish(w)))
  {
    var t := Apply(c, s, Publish(w));
    var m := s.workers[w].message;
    assert m.FromFile? ==> Holds(s.workers[w], m.file);
    forall v, k: nat | 0 <= v < |t.workers| && Holds(t.workers[v], k)
      ensures v != w && Holds(s.workers[v], k) && (m.FromFile? ==> k != m.file)
    {
    }
  }

  lemma StepOwnedOnce(c: Config, s: State, a: Action)
    requires OwnedOnce(s) && Enabled(c, s, a)
    ensures OwnedOnce(Apply(c, s, a))
  {
    match a
    case Handoff(w) => HandoffOwnedOnce(c, s, w);
    case Publish(w) => PublishOwnedOnce(c, s, w);
    case _ => FewerHeld(s, Apply(c, s, a));
  }

  lemma OriginalKept(sent: seq<Message>, m: Message)
    ensures HasOriginal(sent) || IsOriginal(m) ==> HasOriginal(sent + [m])
  {
    if HasOriginal(sent) {
      var j :| 0 <= j < |sent| && IsOriginal(sent[j]);
      assert (sent + [m])[j] == sent[j];
    } else if IsOriginal(m) {
      assert (sent + [m])[|sent|] == m;
    }
  }

  lemma PublishCaused(c: Config, s: State, w: nat)
    requires Caused(c, s) && Enabled(c, s, Publish(w))
    ensures Caused(c, Apply(c, s, Publish(w)))
  {
    var t := Apply(c, s, Publish(w));
    assert WorkerFits(c, s, w);
    OriginalKept(s.sent, s.workers[w].message);
    forall i | 0 <= i < |t.sent| && t.sent[i].FromFile? && t.sent[i].report == Echo
      ensures HasOriginal(t.sent[..i])
    {
      assert t.sent[..i] == s.sent[..i];
      if i == |s.sent| {
        assert s.sent[..i] == s.sent;
      }
    }
    forall v | 0 <= v < |t.workers| ensures WorkerFits(c, t, v) {
      assert WorkerFits(c, s, v);
    }
  }

  lemma FinishFits(c: Config, s: State, w: nat, echo: bool)
    requires c.Valid() && Shape(c, s) && OwnedOnce(s) && Caused(c, s) && Enabled(c, s, Finish(w, echo))
    ensures WorkerFits(c, Apply(c, s, Finish(w, echo)), w)
  {
    assert Holds(s.workers[w], s.workers[w].file);
    assert WorkerFits(c, s, w);
    assert c.outcomes[s.workers[w].file] != Echo;
  }

  /** What fits a worker still fits it when nothing was sent, cancelled or closed but what may be. */
  lemma FitsStill(c: Config, s: State, t: State, v: nat)
    requires v < |s.workers| == |t.workers| == |c.starts| && t.workers[v] == s.workers[v] && t.sent == s.sent
    requires (s.cancelled ==> t.cancelled) && (s.closed ==> t.closed) && WorkerFits(c, s, v)
    ensures WorkerFits(c, t, v)
  {
  }

  lemma CausedStill(c: Config, s: State, t: State)
    requires Caused(c, s) && |t.workers| == |s.workers| && t.sent == s.sent
    requires (t.cancelled ==> HasOriginal(s.sent)) && (t.next > 0 ==> true in c.starts)
    requires forall v :: 0 <= v < |t.workers| ==> WorkerFits(c, t, v)
    ensures Caused(c, t)
  {
  }

  lemma HandoffFits(c: Config, s: State, w: nat)
    requires |s.workers| == |c.starts| && Enabled(c, s, Handoff(w)) && WorkerFits(c, s, w)
    ensures WorkerFits(c, Apply(c, s, Handoff(w)), w) && c.starts[w]
  {
  }

  /** The worker of an action other than publishing. */
  lemma MovedFits(c: Config, s: State, a: Action)
    requires c.Valid() && Shape(c, s) && OwnedOnce(s) && Caused(c, s) && Enabled(c, s, a)
    requires OfWorker(a) && !a.Publish?
    ensures WorkerFits(c, Apply(c, s, a), a.w)
    ensures Apply(c, s, a).sent == s.sent && (s.cancelled ==> Apply(c, s, a).cancelled)
    ensures Apply(c, s, a).cancelled ==> HasOriginal(s.sent)
    ensures Apply(c, s, a).next > 0 ==> true in c.starts
  {
    assert WorkerFits(c, s, a.w);
    match a
    case Handoff(w) => HandoffFits(c, s, w);
    case Finish(w, echo) => FinishFits(c, s, w, echo);
    case _ =>
  }

  lemma MoveCaused(c: Config, s: State, a: Action)
    requires c.Valid() && Shape(c, s) && OwnedOnce(s) && Caused(c, s) && Enabled(c, s, a)
    requires OfWorker(a) && !a.Publish?
    ensures Caused(c, Apply(c, s, a))
  {
    var t := Apply(c, s, a);
    WorkerMoves(c, s, a);
    MovedFits(c, s, a);
    forall v | 0 <= v < |t.workers| ensures WorkerFits(c, t, v) {
      if v != a.w {
        FitsStill(c, s, t, v);
      }
    }
    CausedStill(c, s, t);
  }

  lemma OtherCaused(c: Config, s: State, a: Action)
    requires Caused(c, s) && Enabled(c, s, a) && !OfWorker(a)
    ensures Caused(c, Apply(c, s, a))
  {
    var t := Apply(c, s, a);
    WorkersStay(c, s, a);
    forall v | 0 <= v < |t.workers| ensures WorkerFits(c, t, v) {
      FitsStill(c, s, t, v);
    }
    CausedStill(c, s, t);
  }

  lemma StepCaused(c: Config, s: State, a: Action)
    requires c.Valid() && Shape(c, s) && OwnedOnce(s) && Caused(c, s) && Enabled(c, s, a)
    ensures Caused(c, Apply(c, s, a))
  {
    if a.Publish? {
      PublishCaused(c, s, a.w);
    } else if OfWorker(a) {
      MoveCaused(c, s, a);
    } else {
      OtherCaused(c, s, a);
    }
  }

  /** What a worker owes, it sends, or need not send after a cancellation. */
  lemma MoveOwes(c: Config, s: State, a: Action)
    requires Enabled(c, s, a) && OfWorker(a) && |s.workers| == |c.starts| && a.w < |s.workers| && WorkerFits(c, s, a.w)
    ensures var t := Apply(c, s, a);
            && |t.sent| + Owes(t.workers[a.w]) <= |s.sent| + Owes(s.workers[a.w]) + (t.next - s.next)
            && (!t.cancelled ==>
                  !s.cancelled
                  && |t.sent| + Owes(t.workers[a.w]) == |s.sent| + Owes(s.workers[a.w]) + (t.next - s.next))
  {
  }

  lemma StepBalanced(c: Config, s: State, a: Action)
    requires Shape(c, s) && Caused(c, s) && Balanced(c, s) && Enabled(c, s, a)
    ensures Balanced(c, Apply(c, s, a))
  {
    if OfWorker(a) {
      WorkerMoves(c, s, a);
      assert WorkerFits(c, s, a.w);
      MoveOwes(c, s, a);
      TotalUpdate(s.workers, Owes, a.w, Apply(c, s, a).workers[a.w]);
    } else {
      WorkersStay(c, s, a);
    }
  }

  lemma PublishCollected(c: Config, s: State, w: nat)
    requires Shape(c, s) && Collected(c, s) && Enabled(c, s, Publish(w))
    ensures Collected(c, Apply(c, s, Publish(w)))
  {
    var t := Apply(c, s, Publish(w));
    assert t.sent[..t.taken] == s.sent[..s.taken];
    if t.taken > 0 {
      assert t.sent[..t.taken-1] == s.sent[..s.taken-1];
    }
  }

  lemma ReadCollected(c: Config, s: State)
    requires Shape(c, s) && Collected(c, s) && Enabled(c, s, Read)
    ensures Collected(c, Apply(c, s, Read))
  {
    var read := s.sent[..s.taken];
    var m := s.sent[s.taken];
    assert s.sent[..s.taken+1] == read + [m];
    assert (read + [m])[..|read + [m]|-1] == read;
  }

  lemma StepCollected(c: Config, s: State, a: Action)
    requires Shape(c, s) && Collected(c, s) && Enabled(c, s, a)
    ensures Collected(c, Apply(c, s, a))
  {
    match a
    case Publish(w) => PublishCollected(c, s, w);
    case Read => ReadCollected(c, s);
    case _ =>
      assert Apply(c, s, a).sent == s.sent && Apply(c, s, a).taken == s.taken;
  }

  /** Every step keeps the invariant. */
  lemma StepInv(c: Config, s: State, a: Action)
    requires c.Valid() && Inv(c, s) && Enabled(c, s, a)
    ensures Inv(c, Apply(c, s, a))
  {
    StepShape(c, s, a);
    StepOwnedOnce(c, s, a);
    StepCaused(c, s, a);
    StepBalanced(c, s, a);
    StepCollected(c, s, a);
  }
}
