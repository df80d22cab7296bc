/** What the worker pool answers, and its sequential counterpart. */
module PoolAnswers {
  import opened Wrappers
  import opened WorkerPool
  import opened PoolSchedules

  function FilesOf(ms: seq<Message>): set<nat> {
    if ms == [] then {}
    else FilesOf(ms[..|ms|-1]) + (if ms[|ms|-1].FromFile? then {ms[|ms|-1].file} else {})
  }

  lemma {:induction false} FileSent(ms: seq<Message>, k: nat)
    ensures k in FilesOf(ms) <==> exists i :: 0 <= i < |ms| && ms[i].FromFile? && ms[i].file == k
  {
    if ms != [] {
      var last := |ms| - 1;
      FileSent(ms[..last], k);
      assert forall i :: 0 <= i < last ==> ms[..last][i] == ms[i];
      if k in FilesOf(ms) && k !in FilesOf(ms[..last]) {
        assert ms[last].FromFile? && ms[last].file == k;
      }
    }
  }

  /** The files of `files` whose outcome is r. */
  function With(c: Config, files: set<nat>, r: Report): set<nat> {
    set k | k in files && k < c.Files() && c.outcomes[k] == r
  }

  lemma WithOneMore(c: Config, files: set<nat>, k: nat, r: Report)
    requires k !in files && k < c.Files()
    ensures |With(c, files + {k}, r)| == |With(c, files, r)| + (if c.outcomes[k] == r then 1 else 0)
  {
    assert With(c, files + {k}, r) == With(c, files, r) + (if c.outcomes[k] == r then {k} else {});
  }

  /** Reports of distinct files count as their outcomes do. */
  lemma {:induction false} TallyCounts(c: Config, ms: seq<Message>, r: Report)
    requires AllFine(ms) && forall i :: 0 <= i < |ms| ==> Truthful(c, ms[i])
    requires forall i, j :: 0 <= i < j < |ms| && ms[i].FromFile? && ms[j].FromFile? ==> ms[i].file != ms[j].file
    ensures |FilesOf(ms)| == |ms| && forall k :: k in FilesOf(ms) ==> k < c.Files()
    ensures Tally(ms, r) == |With(c, FilesOf(ms), r)|
  {
    if ms == [] {
      assert With(c, FilesOf(ms), r) == {};
    } else {
      var last := |ms| - 1;
      var rest, m := ms[..last], ms[last];
      TallyCounts(c, rest, r);
      FileSent(rest, m.file);
      assert m.file !in FilesOf(rest);
      WithOneMore(c, FilesOf(rest), m.file, r);
    }
  }

  function UpTo(n: nat): set<nat> {
    if n == 0 then {} else UpTo(n - 1) + {n - 1}
  }

  lemma {:induction false} UpToMembers(n: nat)
    ensures |UpTo(n)| == n && forall k: nat :: k in UpTo(n) <==> k < n
  {
    if n > 0 {
      UpToMembers(n - 1);
    }
  }

  lemma {:induction false} OutcomesCount(c: Config, n: nat, r: Report)
    requires n <= c.Files()
    ensures |With(c, UpTo(n), r)| == multiset(c.outcomes[..n])[r]
  {
    if n == 0 {
      assert With(c, UpTo(n), r) == {};
    } else {
      OutcomesCount(c, n - 1, r);
      UpToMembers(n - 1);
      assert c.outcomes[..n] == c.outcomes[..n-1] + [c.outcomes[n-1]];
      WithOneMore(c, UpTo(n - 1), n - 1, r);
    }
  }

  /** n distinct numbers below n are all the numbers below n. */
  lemma {:induction false} FullSubset(s: set<nat>, n: nat)
    requires |s| >= n && forall k :: k in s ==> k < n
    ensures s == UpTo(n)
  {
    if n > 0 {
      FullSubset(s - {n - 1}, n - 1);
      UpToMembers(n - 1);
      assert n - 1 !in s ==> s - {n - 1} == s;
    }
  }

  lemma SentTruthfully(c: Config, s: State)
    requires c.Valid() && Inv(c, s) && s.taken <= |s.sent|
    ensures forall i :: 0 <= i < s.taken ==> Truthful(c, s.sent[..s.taken][i])
  {
    forall i | 0 <= i < s.taken ensures Truthful(c, s.sent[..s.taken][i]) {
      assert s.sent[..s.taken][i] == s.sent[i];
    }
  }

  /** With no error, the messages taken are one a file. */
  lemma FullTally(c: Config, s: State, r: Report)
    requires c.Valid() && Inv(c, s) && s.collector.Returned? && s.collector.answer.err.None?
    ensures s.taken <= |s.sent| && FilesOf(s.sent[..s.taken]) == UpTo(c.Files())
    ensures Tally(s.sent[..s.taken], r) == multiset(c.outcomes)[r]
  {
    SentTruthfully(c, s);
    SentOnce(s, s.taken);
    TallyCounts(c, s.sent[..s.taken], r);
    FullSubset(FilesOf(s.sent[..s.taken]), c.Files());
    OutcomesCount(c, c.Files(), r);
    assert c.outcomes[..c.Files()] == c.outcomes;
  }

  /** Of the first n messages no two are about one file. */
  lemma SentOnce(s: State, n: nat)
    requires OwnedOnce(s) && n <= |s.sent|
    ensures var ms := s.sent[..n];
            forall i, j :: 0 <= i < j < |ms| && ms[i].FromFile? && ms[j].FromFile? ==> ms[i].file != ms[j].file
  {
  }

  /** A call that reports no error has handled every file exactly once. */
  lemma FullAnswer(c: Config, s: State)
    requires c.Valid() && Inv(c, s) && s.collector.Returned? && s.collector.answer.err.None?
    ensures forall k: nat :: k < c.Files() ==>
              exists i :: 0 <= i < c.Files() && s.sent[i] == FromFile(k, c.outcomes[k])
    ensures s.collector.answer.processed == multiset(c.outcomes)[Processed]
    ensures s.collector.answer.skipped == multiset(c.outcomes)[Skipped]
  {
    FullTally(c, s, Processed);
    FullTally(c, s, Skipped);
    SentTruthfully(c, s);
    UpToMembers(c.Files());
    forall k: nat | k < c.Files()
      ensures exists i :: 0 <= i < c.Files() && s.sent[i] == FromFile(k, c.outcomes[k])
    {
      var ms := s.sent[..s.taken];
      FileSent(ms, k);
      var i :| 0 <= i < |ms| && ms[i].FromFile? && ms[i].file == k;
      assert s.sent[i] == ms[i];
    }
  }

  /** What any schedule that returns has answered: an error only when a file or a translator really failed,
      never the echo of a cancellation; no error only when every file succeeded, with exact counts. */
  lemma EveryAnswerIsRight(c: Config, acts: seq<Action>)
    requires c.Valid() && Runs(c, Initial(c), acts) && After(c, Initial(c), acts).collector.Returned?
    ensures match After(c, Initial(c), acts).collector.answer
            case Answer(processed, skipped, None) =>
              && Failed !in c.outcomes
              && processed == multiset(c.outcomes)[Processed] && skipped == multiset(c.outcomes)[Skipped]
              && processed + skipped == c.Files()
            case Answer(_, _, Some(FromFile(k, r))) => k < c.Files() && r == Failed && c.outcomes[k] == Failed
            case Answer(_, _, Some(NoTranslator(w))) => w < |c.starts| && !c.starts[w]
    ensures false !in c.starts ==>
              (After(c, Initial(c), acts).collector.answer.err.None? <==> Failed !in c.outcomes)
  {
    InitialInv(c);
    RunKeepsInv(c, Initial(c), acts);
    var s := After(c, Initial(c), acts);
    var ans := s.collector.answer;
    if ans.err.None? {
      FullAnswer(c, s);
      forall k: nat | k < c.Files() ensures c.outcomes[k] != Failed && c.outcomes[k] != Echo {
        var i :| 0 <= i < c.Files() && s.sent[i] == FromFile(k, c.outcomes[k]);
        assert s.sent[..s.taken][i] == s.sent[i];
      }
      OnlyTwoReports(c.outcomes);
    } else {
      var m := s.sent[s.taken-1];
      assert Truthful(c, m);
      assert m.FromFile? && m.report == Echo ==> HasOriginal(s.sent[..s.taken-1]);
    }
  }

  lemma {:induction false} OnlyTwoReports(outcomes: seq<Report>)
    requires Failed !in outcomes && Echo !in outcomes
    ensures multiset(outcomes)[Processed] + multiset(outcomes)[Skipped] == |outcomes|
  {
    if outcomes != [] {
      var n := |outcomes| - 1;
      assert outcomes == outcomes[..n] + [outcomes[n]];
      assert outcomes[n] in outcomes;
      assert outcomes[n].Processed? || outcomes[n].Skipped?;
      assert multiset(outcomes) == multiset(outcomes[..n]) + multiset{outcomes[n]};
      OnlyTwoReports(outcomes[..n]);
    }
  }

  /** The simple counterpart: one file after the other, stopping at the first error. */
  method RunDocSequential(outcomes: seq<Report>) returns (processed: nat, skipped: nat, err: Option<nat>)
    requires Echo !in outcomes
    ensures err.None? <==> Failed !in outcomes
    ensures err.Some? ==> err.value < |outcomes| && outcomes[err.value] == Failed && Failed !in outcomes[..err.value]
    ensures var handled := if err.None? then outcomes else outcomes[..err.value];
            processed == multiset(handled)[Processed] && skipped == multiset(handled)[Skipped]
  {
    processed, skipped := 0, 0;
    for index := 0 to |outcomes|
      invariant Failed !in outcomes[..index]
      invariant processed == multiset(outcomes[..index])[Processed]
      invariant skipped == multiset(outcomes[..index])[Skipped]
    {
      assert outcomes[..index+1] == outcomes[..index] + [outcomes[index]];
      if outcomes[index] == Failed {
        return processed, skipped, Some(index);
      }
      if outcomes[index] == Skipped {
        skipped := skipped + 1;
      } else {
        processed := processed + 1;
      }
    }
    assert outcomes[..|outcomes|] == outcomes;
    err := None;
  }
}
