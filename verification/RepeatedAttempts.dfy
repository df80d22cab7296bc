/** What repeated attempts come to, attempt by attempt. */
module RepeatedAttempts {
  import opened Wrappers
  import opened Text
  import opened Trimming
  import opened Masking
  import opened Translation

  /** The attempt failed with an error worth repeating: an empty reply, a lost placeholder, or a rate limit. */
  predicate WorthRepeating(a: Attempts, k: nat) {
    && a.outcome(k).Failure?
    && match a.outcome(k).error
       case EmptyTranslation => true
       case PlaceholderMissing(_) => true
       case PromptFailed => a.rateLimited(k)
  }

  /** Every attempt from k on, up to j, failed with such an error, and no wait after one of them was cancelled. */
  ghost predicate Reached(a: Attempts, k: nat, j: nat) {
    k <= j && forall i: nat :: k <= i < j ==> WorthRepeating(a, i) && !a.cancelled(i)
  }

  /** Attempt j is reached and gives r, which nothing after it changes. */
  ghost predicate Decides(a: Attempts, k: nat, j: nat, last: nat, r: Result<string, RetryError>) {
    && Reached(a, k, j) && j <= last
    && match r
       case Success(text) => a.outcome(j) == Success(text)
       case Failure(Failed(e)) => a.outcome(j) == Failure(e) && (j == last || !WorthRepeating(a, j))
       case Failure(Cancelled) => j < last && WorthRepeating(a, j) && a.cancelled(j)
       case Failure(ClientUnavailable) => false
  }

  lemma RetryableIs(a: Attempts, k: nat)
    ensures a.outcome(k).Failure? ==> (a.Retryable(k) <==> WorthRepeating(a, k))
  {
  }

  lemma {:induction false} SomeDecides(a: Attempts, k: nat, left: nat) returns (j: nat)
    ensures Decides(a, k, j, k + left, Retried(a, k, left))
    decreases left
  {
    RetryableIs(a, k);
    if a.outcome(k).Success? || !WorthRepeating(a, k) || left == 0 || a.cancelled(k) {
      j := k;
    } else {
      j := SomeDecides(a, k + 1, left - 1);
    }
  }

  lemma OneDecides(
    a: Attempts, k: nat, i: nat, j: nat, last: nat, r: Result<string, RetryError>, q: Result<string, RetryError>)
    requires Decides(a, k, i, last, r) && Decides(a, k, j, last, q) && i <= j
    ensures r == q
  {
    if i < j {
      GoesPast(a, k, i, j);
    }
  }

  lemma GoesPast(a: Attempts, k: nat, i: nat, j: nat)
    requires Reached(a, k, j) && k <= i < j
    ensures WorthRepeating(a, i) && !a.cancelled(i)
  {
  }

  ghost predicate SomeAttemptDecides(a: Attempts, k: nat, last: nat, r: Result<string, RetryError>) {
    exists j: nat :: Decides(a, k, j, last, r)
  }

  /** The result of the attempts is the one that some attempt decides: the text of the first that succeeds, the error
      of the first that is not worth repeating or of the last, or a cancellation of the wait after one that is. */
  lemma ResultExactlyWhen(a: Attempts, k: nat, left: nat, r: Result<string, RetryError>)
    ensures Retried(a, k, left) == r <==> SomeAttemptDecides(a, k, k + left, r)
  {
    var i := SomeDecides(a, k, left);
    if SomeAttemptDecides(a, k, k + left, r) {
      var j: nat :| Decides(a, k, j, k + left, r);
      if i <= j {
        OneDecides(a, k, i, j, k + left, Retried(a, k, left), r);
      } else {
        OneDecides(a, k, j, i, k + left, r, Retried(a, k, left));
      }
    }
  }

  /** Three attempts are made at most. */
  lemma ThirdIsLast(a: Attempts, r: Result<string, RetryError>)
    ensures Retried(a, 0, MAX_ATTEMPTS - 1) == r <==> SomeAttemptDecides(a, 0, 2, r)
  {
    ResultExactlyWhen(a, 0, 2, r);
  }

  /** A raw attempt fails for an empty translation exactly when a reply came and is blank, for the prompt exactly when
      none came, and otherwise gives what stands in the reply between its white space. */
  lemma RawAttempt(core: string, reply: string -> Option<string>)
    ensures RawOutcome(core, reply) == Failure(EmptyTranslation) <==> reply(core).Some? && AllSpace(reply(core).value)
    ensures RawOutcome(core, reply) == Failure(PromptFailed) <==> reply(core).None?
    ensures RawOutcome(core, reply).Success? ==>
              Stripped(reply(core).value, RawOutcome(core, reply).value) && RawOutcome(core, reply).value != ""
    ensures RawOutcome(core, reply).Failure? ==> !RawOutcome(core, reply).error.PlaceholderMissing?
  {
    if reply(core).Some? {
      TrimIsStripped(reply(core).value);
      BlankExactlyWhen(reply(core).value);
    }
  }
}
