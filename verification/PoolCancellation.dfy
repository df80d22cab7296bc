/** What a cancellation does to the worker pool, over every schedule. */
module PoolCancellation {
  import opened WorkerPool
  import opened PoolSchedules

  /** Some worker has called `cancel`. */
  ghost predicate Cancels(acts: seq<Action>) {
    exists i :: 0 <= i < |acts| && acts[i].Cancel?
  }

  /** The state after the first n actions. */
  ghost function At(c: Config, acts: seq<Action>, n: nat): State
    requires n <= |acts| && Runs(c, Initial(c), acts[..n])
  {
    After(c, Initial(c), acts[..n])
  }

  lemma {:induction false} RunsLast(c: Config, s: State, acts: seq<Action>, a: Action)
    ensures Runs(c, s, acts + [a]) <==> Runs(c, s, acts) && Enabled(c, After(c, s, acts), a)
    ensures Runs(c, s, acts + [a]) ==> After(c, s, acts + [a]) == Apply(c, After(c, s, acts), a)
    decreases |acts|
  {
    var more := acts + [a];
    if acts == [] {
      assert more[0] == a && more[1..] == [];
    } else {
      assert more[0] == acts[0] && more[1..] == acts[1..] + [a];
      if Enabled(c, s, acts[0]) {
        RunsLast(c, Apply(c, s, acts[0]), acts[1..], a);
      }
    }
  }

  /** Every beginning of a schedule is one, and each state comes of the one before. */
  lemma {:induction false} AtNext(c: Config, acts: seq<Action>, n: nat)
    requires Runs(c, Initial(c), acts) && n <= |acts|
    ensures Runs(c, Initial(c), acts[..n])
    ensures n < |acts| ==>
              && Runs(c, Initial(c), acts[..n+1]) && Enabled(c, At(c, acts, n), acts[n])
              && At(c, acts, n + 1) == Apply(c, At(c, acts, n), acts[n])
    decreases |acts| - n
  {
    if n == |acts| {
      assert acts[..n] == acts;
    } else {
      AtNext(c, acts, n + 1);
      assert acts[..n+1] == acts[..n] + [acts[n]];
      RunsLast(c, Initial(c), acts[..n], acts[n]);
    }
  }

  lemma CancelsMore(acts: seq<Action>, n: nat)
    requires n < |acts|
    ensures Cancels(acts[..n+1]) <==> Cancels(acts[..n]) || acts[n].Cancel?
  {
    assert acts[..n+1] == acts[..n] + [acts[n]];
    if Cancels(acts[..n]) {
      var i :| 0 <= i < n && acts[..n][i].Cancel?;
      assert acts[..n+1][i].Cancel?;
    }
    if acts[n].Cancel? {
      assert acts[..n+1][n].Cancel?;
    }
  }

  lemma {:induction false} CancelledExactlyWhen(c: Config, acts: seq<Action>, n: nat)
    requires Runs(c, Initial(c), acts) && n <= |acts|
    ensures Runs(c, Initial(c), acts[..n]) && (At(c, acts, n).cancelled <==> Cancels(acts[..n]))
  {
    AtNext(c, acts, n);
    if n > 0 {
      CancelledExactlyWhen(c, acts, n - 1);
      AtNext(c, acts, n - 1);
      CancelsMore(acts, n - 1);
    }
  }

  /** A worker that looks at the context before it starts on its file leaves if there was a cancellation, and starts if
      there was none. */
  lemma CheckExactlyWhen(c: Config, acts: seq<Action>, j: nat)
    requires Runs(c, Initial(c), acts) && j < |acts| && acts[j].Check?
    ensures Runs(c, Initial(c), acts[..j]) && Runs(c, Initial(c), acts[..j+1])
    ensures var w := acts[j].w; w < |At(c, acts, j).workers| == |At(c, acts, j + 1).workers|
    ensures var w := acts[j].w;
            var before := At(c, acts, j).workers[w];
            before.Got? &&
            At(c, acts, j + 1).workers[w] == if Cancels(acts[..j]) then Exited else Running(before.file)
  {
    AtNext(c, acts, j);
    CancelledExactlyWhen(c, acts, j);
  }

  lemma WorkGoesOn(c: Config, s: State, a: Action, w: nat, k: nat)
    requires s.cancelled && Enabled(c, s, a) && w < |Apply(c, s, a).workers| == |s.workers|
    requires Apply(c, s, a).workers[w] == Running(k)
    ensures s.workers[w] == Running(k)
  {
  }

  lemma SameWorkers(c: Config, s: State, a: Action)
    requires Enabled(c, s, a)
    ensures |Apply(c, s, a).workers| == |s.workers|
  {
  }

  /** So after a cancellation work goes on only on the files that were being worked on then. */
  lemma {:induction false} NoFileIsStarted(c: Config, acts: seq<Action>, i: nat, n: nat, w: nat, k: nat)
    requires Runs(c, Initial(c), acts) && i < n <= |acts| && acts[i].Cancel?
    requires Runs(c, Initial(c), acts[..n]) && w < |At(c, acts, n).workers| && At(c, acts, n).workers[w] == Running(k)
    ensures Runs(c, Initial(c), acts[..i+1]) && w < |At(c, acts, i + 1).workers|
    ensures At(c, acts, i + 1).workers[w] == Running(k)
    decreases n
  {
    if n > i + 1 {
      AtNext(c, acts, n - 1);
      CancelledExactlyWhen(c, acts, n - 1);
      assert acts[..n-1][i].Cancel?;
      SameWorkers(c, At(c, acts, n - 1), acts[n-1]);
      WorkGoesOn(c, At(c, acts, n - 1), acts[n-1], w, k);
      NoFileIsStarted(c, acts, i, n - 1, w, k);
    }
  }

  /** An error may be the echo of a cancellation exactly when the worker is at work after a cancellation. */
  lemma EchoExactlyWhen(c: Config, acts: seq<Action>, w: nat)
    requires Runs(c, Initial(c), acts)
    ensures Enabled(c, After(c, Initial(c), acts), Finish(w, true)) <==>
            w < |After(c, Initial(c), acts).workers| && After(c, Initial(c), acts).workers[w].Running? && Cancels(acts)
  {
    assert acts[..|acts|] == acts;
    CancelledExactlyWhen(c, acts, |acts|);
  }

  /** And echoes there are: with two workers, one of which fails on the first file, the other may report the echo. */
  lemma EchoIsPossible(c: Config, a: nat, b: nat) returns (t: State)
    requires a < |c.starts| && b < |c.starts| && a != b && c.starts[a] && c.starts[b]
    requires c.Files() >= 2 && c.outcomes[0] == Failed
    ensures Reaches(c, Initial(c), t) && t.sent == [FromFile(0, Failed), FromFile(1, Echo)]
  {
    var s0 := Initial(c);
    var s4 := BothAtWork(c, a, b);
    var s5 := Apply(c, s4, Finish(a, false));
    var s6 := Apply(c, s5, Publish(a));
    var s7 := Apply(c, s6, Cancel(a));
    var s8 := Apply(c, s7, Finish(b, true));
    t := Apply(c, s8, Publish(b));
    ReachesItself(c, t);
    ReachesByStep(c, s8, Publish(b), t);
    ReachesByStep(c, s7, Finish(b, true), t);
    ReachesByStep(c, s6, Cancel(a), t);
    ReachesByStep(c, s5, Publish(a), t);
    ReachesByStep(c, s4, Finish(a, false), t);
    ReachesOn(c, s0, s4, t);
  }

  /** A worker begins, takes the next file and starts on it. */
  lemma OneAtWork(c: Config, s: State, w: nat) returns (t: State)
    requires w < |s.workers| && s.workers[w] == Starting(true) && s.next < c.Files() && !s.cancelled
    ensures Reaches(c, s, t) && t == s.(next := s.next + 1, workers := s.workers[w := Running(s.next)])
  {
    var s1 := Apply(c, s, Begin(w));
    var s2 := Apply(c, s1, Handoff(w));
    t := Apply(c, s2, Check(w));
    assert t.workers == s.workers[w := Running(s.next)];
    ReachesItself(c, t);
    ReachesByStep(c, s2, Check(w), t);
    ReachesByStep(c, s1, Handoff(w), t);
    ReachesByStep(c, s, Begin(w), t);
  }

  lemma BothAtWork(c: Config, a: nat, b: nat) returns (t: State)
    requires a < |c.starts| && b < |c.starts| && a != b && c.starts[a] && c.starts[b] && c.Files() >= 2
    ensures Reaches(c, Initial(c), t)
    ensures t == Initial(c).(next := 2, workers := InitialWorkers(c)[a := Running(0)][b := Running(1)])
  {
    var s := OneAtWork(c, Initial(c), a);
    t := OneAtWork(c, s, b);
    ReachesOn(c, Initial(c), s, t);
  }

  /** Worker w reports an error of a file on action i. */
  ghost predicate ReportsError(c: Config, acts: seq<Action>, i: nat, w: nat)
    requires i < |acts| && Runs(c, Initial(c), acts[..i])
  {
    && acts[i] == Publish(w) && w < |At(c, acts, i).workers| && At(c, acts, i).workers[w].Publishing?
    && At(c, acts, i).workers[w].message.FromFile? && IsError(At(c, acts, i).workers[w].message)
  }

  lemma StaysCancelling(c: Config, s: State, a: Action, w: nat)
    requires Enabled(c, s, a) && w < |s.workers| == |Apply(c, s, a).workers| && s.workers[w] == Cancelling
    ensures a == Cancel(w) || Apply(c, s, a).workers[w] == Cancelling
  {
  }

  /** A worker that reported an error of a file cancels before it goes. */
  lemma {:induction false} FailureCancels(c: Config, acts: seq<Action>, i: nat, n: nat, w: nat)
    requires Runs(c, Initial(c), acts) && i < n <= |acts|
    requires Runs(c, Initial(c), acts[..i]) && ReportsError(c, acts, i, w)
    ensures Runs(c, Initial(c), acts[..n]) && w < |At(c, acts, n).workers|
    ensures At(c, acts, n).workers[w] == Cancelling || exists j :: i < j < n && acts[j] == Cancel(w)
    decreases n
  {
    if n == i + 1 {
      AtNext(c, acts, i);
    } else {
      FailureCancels(c, acts, i, n - 1, w);
      AtNext(c, acts, n - 1);
      SameWorkers(c, At(c, acts, n - 1), acts[n-1]);
      if At(c, acts, n - 1).workers[w] == Cancelling {
        StaysCancelling(c, At(c, acts, n - 1), acts[n-1], w);
      }
    }
  }
}
