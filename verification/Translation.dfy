/** One translation: the white space around the text is kept, and failed attempts are repeated. */
module Translation {
  import opened Wrappers
  import opened Text
  import opened Masking

  // ------------------------------------------------------------------ the white space around a text

  /** The white space that is set aside, which is less than what `Trim` removes. */
  predicate IsWhitespace(c: char) {
    c == ' ' || c == '\t' || c == '\n' || c == '\r'
  }

  /** It is the white space of seven-bit characters, but for the vertical tab and the form feed. */
  lemma SetAsideExactlyWhen(c: char)
    ensures IsWhitespace(c) <==> IsSpace(c) && c < 128 as char && c != 11 as char && c != 12 as char
  {
  }

  predicate AllWhitespace(s: string) {
    forall i :: 0 <= i < |s| ==> IsWhitespace(s[i])
  }

  predicate NoOuterWhitespace(s: string) {
    s != "" ==> !IsWhitespace(s[0]) && !IsWhitespace(s[|s|-1])
  }

  /** Leading white space, the text itself, trailing white space. */
  method SplitWhitespace(text: string) returns (prefix: string, core: string, suffix: string)
    ensures IsSplit(text, prefix, core, suffix)
  {
    if text == "" {
      return "", "", "";
    }
    var start := 0;
    while start < |text| && IsWhitespace(text[start])
      invariant start <= |text| && forall i :: 0 <= i < start ==> IsWhitespace(text[i])
    {
      start := start + 1;
    }
    var end := |text|;
    while end > start && IsWhitespace(text[end-1])
      invariant start <= end <= |text| && forall i :: end <= i < |text| ==> IsWhitespace(text[i])
    {
      end := end - 1;
    }
    prefix, core, suffix := text[..start], text[start..end], text[end..];
    assert text == text[..start] + text[start..end] + text[end..];
  }

  ghost predicate IsSplit(text: string, prefix: string, core: string, suffix: string) {
    && text == prefix + core + suffix
    && AllWhitespace(prefix) && AllWhitespace(suffix) && NoOuterWhitespace(core)
    && (core == "" ==> suffix == "")
  }

  lemma SplitCharacters(text: string, prefix: string, core: string, suffix: string, i: nat)
    requires text == prefix + core + suffix && i < |text|
    ensures text[i] == if i < |prefix| then prefix[i]
                       else if i < |prefix| + |core| then core[i-|prefix|]
                       else suffix[i-|prefix|-|core|]
  {
  }

  /** There is only one such split. */
  lemma SplitIsUnique(text: string, p: string, c: string, x: string, p': string, c': string, x': string)
    requires IsSplit(text, p, c, x) && IsSplit(text, p', c', x')
    ensures p == p' && c == c' && x == x'
  {
    SamePrefix(text, p, c, x, p', c', x');
    assert text[|p|..] == c + x && text[|p|..] == c' + x';
    SameCore(c, x, c', x');
  }

  lemma SamePrefix(text: string, p: string, c: string, x: string, p': string, c': string, x': string)
    requires IsSplit(text, p, c, x) && IsSplit(text, p', c', x')
    ensures p == p'
  {
    PrefixNotLonger(text, p, c, x, p', c', x');
    PrefixNotLonger(text, p', c', x', p, c, x);
    assert p == text[..|p|] && p' == text[..|p'|];
  }

  lemma PrefixNotLonger(text: string, p: string, c: string, x: string, p': string, c': string, x': string)
    requires IsSplit(text, p, c, x) && IsSplit(text, p', c', x')
    ensures |p| <= |p'|
  {
    if c' == "" {
      assert |p'| == |text|;
    } else {
      SplitCharacters(text, p', c', x', |p'|);
      if |p'| < |text| {
        SplitCharacters(text, p, c, x, |p'|);
      }
    }
  }

  lemma SameCore(c: string, x: string, c': string, x': string)
    requires c + x == c' + x' && AllWhitespace(x) && AllWhitespace(x')
    requires NoOuterWhitespace(c) && NoOuterWhitespace(c') && (c == "" ==> x == "") && (c' == "" ==> x' == "")
    ensures c == c' && x == x'
  {
    CoreNotLonger(c, x, c', x');
    CoreNotLonger(c', x', c, x);
    assert (c + x)[..|c|] == c && (c' + x')[..|c'|] == c';
    assert (c + x)[|c|..] == x && (c' + x')[|c'|..] == x';
  }

  lemma CoreNotLonger(c: string, x: string, c': string, x': string)
    requires c + x == c' + x' && AllWhitespace(x') && NoOuterWhitespace(c)
    ensures |c| <= |c'|
  {
    var all := c' + x';
    assert forall i :: |c'| <= i < |all| ==> IsWhitespace(all[i]);
    if |c| > 0 {
      assert (c + x)[|c|-1] == c[|c|-1];
    }
  }

  // ------------------------------------------------------------------ attempts

  const MAX_ATTEMPTS: nat := 3

  /** What an attempt came to. */
  type Outcome = Result<string, TranslateError>

  /** What attempt k comes to, whether a prompt that failed then was a rate limit, and whether the wait after the
      attempt is cancelled. */
  datatype Attempts = Attempts(outcome: nat -> Outcome, rateLimited: nat -> bool, cancelled: nat -> bool)
  {
    predicate Retryable(k: nat) {
      match outcome(k)
      case Success(_) => false
      case Failure(EmptyTranslation) => true
      case Failure(PlaceholderMissing(_)) => true
      case Failure(PromptFailed) => rateLimited(k)
    }

    /** Attempt k failed, and another one follows. */
    predicate GoesOn(k: nat) {
      Retryable(k) && !cancelled(k)
    }
  }

  datatype RetryError = ClientUnavailable | Failed(error: TranslateError) | Cancelled

  /** What comes of the attempts from k on, with `left` more after it. */
  function Retried(a: Attempts, k: nat, left: nat): Result<string, RetryError>
    decreases left
  {
    match a.outcome(k)
    case Success(text) => Success(text)
    case Failure(e) =>
      if !a.Retryable(k) || left == 0 then Failure(Failed(e))
      else if a.cancelled(k) then Failure(Cancelled)
      else Retried(a, k + 1, left - 1)
  }

  method TranslateWithRetry(a: Attempts) returns (r: Result<string, RetryError>)
    ensures r == Retried(a, 0, MAX_ATTEMPTS - 1)
  {
    var lastErr: RetryError := ClientUnavailable;
    ghost var whole := Retried(a, 0, MAX_ATTEMPTS - 1);
    for attempt := 0 to MAX_ATTEMPTS
      invariant attempt < MAX_ATTEMPTS ==> Retried(a, attempt, MAX_ATTEMPTS - 1 - attempt) == whole
      invariant attempt == MAX_ATTEMPTS ==> whole == Failure(lastErr)
    {
      var translated := a.outcome(attempt);
      if translated.Success? {
        return Success(translated.value);
      }
      if !a.Retryable(attempt) {
        return Failure(Failed(translated.error));
      }
      lastErr := Failed(translated.error);
      if attempt + 1 < MAX_ATTEMPTS {
        if a.cancelled(attempt) {
          return Failure(Cancelled);
        }
      }
    }
    r := Failure(lastErr);
  }

  /** Attempt j gives the text, and every one before it, from k on, goes on. */
  ghost predicate WinsAt(a: Attempts, k: nat, j: nat, text: string) {
    k <= j && a.outcome(j) == Success(text) && forall i: nat :: k <= i < j ==> a.GoesOn(i)
  }

  /** A text comes of the attempts exactly when one of them wins. */
  lemma {:induction false} RetriedSucceedsExactlyWhen(a: Attempts, k: nat, left: nat, text: string)
    ensures Retried(a, k, left) == Success(text) <==> exists j: nat :: j <= k + left && WinsAt(a, k, j, text)
    decreases left
  {
    if a.outcome(k) == Success(text) {
      assert WinsAt(a, k, k, text);
    }
    if left > 0 {
      RetriedSucceedsExactlyWhen(a, k + 1, left - 1, text);
    }
    forall j: nat ensures WinsAt(a, k, j, text) <==>
        (j == k && a.outcome(k) == Success(text)) || (a.GoesOn(k) && WinsAt(a, k + 1, j, text))
    {
    }
    if left > 0 && a.GoesOn(k) && Retried(a, k, left) == Success(text) {
      var j: nat :| j <= k + left && WinsAt(a, k + 1, j, text);
      assert WinsAt(a, k, j, text);
    }
  }

  // ------------------------------------------------------------------ one translation

  /** The attempts on a text, given how each attempt on it turns out. */
  function On(run: (string, nat) -> Outcome, core: string, rateLimited: nat -> bool, cancelled: nat -> bool): Attempts {
    Attempts((k: nat) => run(core, k), rateLimited, cancelled)
  }

  function Framed(prefix: string, r: Result<string, RetryError>, suffix: string): Result<string, RetryError> {
    match r
    case Success(text) => Success(prefix + text + suffix)
    case Failure(e) => Failure(e)
  }

  /** The white space around the text is set aside, and put back around the translation; a text of nothing else is
      returned without an attempt. */
  ghost predicate Translated(
    text: string, run: (string, nat) -> Outcome, rateLimited: nat -> bool, cancelled: nat -> bool,
    r: Result<string, RetryError>)
  {
    exists prefix: string, core: string, suffix: string :: IsSplit(text, prefix, core, suffix) &&
      r == if core == "" then Success(text)
           else Framed(prefix, Retried(On(run, core, rateLimited, cancelled), 0, MAX_ATTEMPTS - 1), suffix)
  }

  method Translate(
    text: string, client: bool, run: (string, nat) -> Outcome, rateLimited: nat -> bool, cancelled: nat -> bool)
    returns (r: Result<string, RetryError>)
    ensures if client then Translated(text, run, rateLimited, cancelled, r) else r == Failure(ClientUnavailable)
  {
    if !client {
      return Failure(ClientUnavailable);
    }
    var prefix, core, suffix := SplitWhitespace(text);
    if core == "" {
      return Success(text);
    }
    var translated := TranslateWithRetry(On(run, core, rateLimited, cancelled));
    match translated {
      case Failure(e) => r := Failure(e);
      case Success(t) => r := Success(prefix + t + suffix);
    }
  }

  /** One raw attempt: the reply, trimmed. */
  function RawOutcome(core: string, reply: string -> Option<string>): Outcome {
    match reply(core)
    case None => Failure(PromptFailed)
    case Some(text) => if Trim(text) == "" then Failure(EmptyTranslation) else Success(Trim(text))
  }

  /** A raw translation by a model that repeats its prompt gives the text back exactly when what is left between the
      white space is something that `Trim` leaves alone. */
  lemma RawEchoExactlyWhen(
    text: string, prefix: string, core: string, suffix: string, run: (string, nat) -> Outcome,
    rateLimited: nat -> bool, cancelled: nat -> bool, r: Result<string, RetryError>)
    requires IsSplit(text, prefix, core, suffix) && Translated(text, run, rateLimited, cancelled, r)
    requires forall k: nat :: run(core, k) == RawOutcome(core, (prompt: string) => Some(prompt))
    ensures r == Success(text) <==> Trim(core) == core
  {
    var p: string, c: string, x: string :| IsSplit(text, p, c, x) &&
      r == if c == "" then Success(text)
           else Framed(p, Retried(On(run, c, rateLimited, cancelled), 0, MAX_ATTEMPTS - 1), x);
    SplitIsUnique(text, prefix, core, suffix, p, c, x);
    if core != "" {
      var a := On(run, core, rateLimited, cancelled);
      assert forall k: nat :: a.outcome(k) == RawOutcome(core, (prompt: string) => Some(prompt));
      if Trim(core) == "" {
        NeverSucceeds(a, 0, MAX_ATTEMPTS - 1);
      } else {
        assert a.outcome(0) == Success(Trim(core));
        MiddleDecides(prefix, Trim(core), core, suffix);
      }
    }
  }

  lemma {:induction false} NeverSucceeds(a: Attempts, k: nat, left: nat)
    requires forall j: nat :: a.outcome(j).Failure?
    ensures Retried(a, k, left).Failure?
    decreases left
  {
    if left > 0 {
      NeverSucceeds(a, k + 1, left - 1);
    }
  }

  lemma MiddleDecides(prefix: string, a: string, b: string, suffix: string)
    ensures prefix + a + suffix == prefix + b + suffix <==> a == b
  {
    var left, right := prefix + a + suffix, prefix + b + suffix;
    if left == right {
      assert |a| == |b|;
      assert left[|prefix|..|prefix|+|a|] == a && right[|prefix|..|prefix|+|b|] == b;
    }
  }

  /** A no-break space around the text is not set aside, and is lost. */
  lemma NoBreakSpaceIsLost() returns (text: string)
    ensures IsSplit(text, "", text, "") && Trim(text) != text
  {
    text := [0xA0 as char, 'a'];
    assert text == "" + text + "";
    assert TrimLeft(text) == TrimLeft(text[1..]) && text[1..] == "a";
  }
}
