/** What polls, commands and a reading of the file do to the pairing notifier's subscribers and remembered requests. */
module Subscribers {
  import opened Wrappers
  import opened Text
  import opened Notifier

  // ------------------------------------------------------------------ targets and keys

  predicate Given(s: Option<string>) {
    s.Some? && !Blank(s.value)
  }

  /** The recipient is the sender, or else where the message came from, or else where it went, whichever is first not
      blank; when none is, there is no target. */
  lemma RecipientIsFirstGiven(ctx: Context)
    ensures ResolveTarget(ctx).None? <==> !Given(ctx.senderId) && !Given(ctx.from) && !Given(ctx.to)
    ensures ResolveTarget(ctx).Some? ==>
              ResolveTarget(ctx).value.to == Trim(if Given(ctx.senderId) then ctx.senderId.value
                                                  else if Given(ctx.from) then ctx.from.value
                                                  else ctx.to.value)
  {
  }

  /** No bar separates anything but the parts of a key. */
  predicate NoBars(t: Target) {
    '|' !in t.to && (t.accountId.Some? ==> '|' !in t.accountId.value)
  }

  function Account(t: Target): string {
    if t.accountId.Some? then t.accountId.value else ""
  }

  function Thread(t: Target): string {
    if t.messageThreadId.Some? then IntText(t.messageThreadId.value) else ""
  }

  lemma IntTextIsNumber(n: int)
    ensures IntText(n) != "" && IntText(n)[0] != '|'
    ensures IntText(n)[0] == '-' <==> n < 0
  {
    DigitsAreDigits(if n < 0 then -n else n);
  }

  lemma SameNumber(m: int, n: int)
    requires IntText(m) == IntText(n)
    ensures m == n
  {
    IntTextIsNumber(m);
    IntTextIsNumber(n);
    if m < 0 {
      assert IntText(m)[1..] == Digits(-m) && IntText(n)[1..] == Digits(-n);
      DigitsInjective(-m, -n);
    } else {
      DigitsInjective(m, n);
    }
  }

  lemma SameThread(t: Target, u: Target)
    ensures Thread(t) == Thread(u) <==> t.messageThreadId == u.messageThreadId
  {
    if t.messageThreadId.Some? {
      IntTextIsNumber(t.messageThreadId.value);
    }
    if u.messageThreadId.Some? {
      IntTextIsNumber(u.messageThreadId.value);
    }
    if t.messageThreadId.Some? && u.messageThreadId.Some? && Thread(t) == Thread(u) {
      SameNumber(t.messageThreadId.value, u.messageThreadId.value);
    }
  }

  /** Texts that agree up to their first bars agree on both sides of them. */
  lemma SameBeforeBar(a: string, x: string, b: string, y: string)
    requires '|' !in a && '|' !in b && a + "|" + x == b + "|" + y
    ensures a == b && x == y
  {
    var s, r := a + "|" + x, b + "|" + y;
    assert s[|a|] == '|' && r[|b|] == '|';
    assert |a| <= |b| ==> s[|a|] == r[|a|];
    assert |b| <= |a| ==> s[|b|] == r[|b|];
    assert s[..|a|] == a && r[..|b|] == b;
    assert s[|a|+1..] == x && r[|b|+1..] == y;
  }

  /** When nothing in them has a bar, two targets have one key exactly when they are of one recipient, one account and
      one thread; an empty account is none. */
  lemma SameKeyExactlyWhen(t: Target, u: Target)
    requires NoBars(t) && NoBars(u)
    ensures Key(t) == Key(u) <==>
              t.to == u.to && Account(t) == Account(u) && t.messageThreadId == u.messageThreadId
  {
    KeyIs(t);
    KeyIs(u);
    SameThread(t, u);
    if Key(t) == Key(u) {
      SameBeforeBar(t.to, Account(t) + "|" + Thread(t), u.to, Account(u) + "|" + Thread(u));
      SameBeforeBar(Account(t), Thread(t), Account(u), Thread(u));
    }
  }

  lemma KeyIs(t: Target)
    ensures Key(t) == t.to + "|" + (Account(t) + "|" + Thread(t))
  {
  }

  /** A bar in a recipient or an account can give two targets that read back as themselves one key. */
  lemma BarsMayCollide()
    ensures var t, u := Target("a|b", None, None), Target("a", Some("b|"), None);
            NormalTarget(t) && NormalTarget(u) && t != u && Key(t) == Key(u)
  {
    TrimIsTrimmed("a|b");
    TrimIsTrimmed("a");
    TrimIsTrimmed("b|");
    KeyIs(Target("a|b", None, None));
    KeyIs(Target("a", Some("b|"), None));
    assert "a|b" + "|" + ("" + "|" + "") == "a" + "|" + ("b|" + "|" + "");
  }

  // ------------------------------------------------------------------ reading any file

  /** A fraction is dropped towards zero. */
  lemma TruncIsTowardsZero(r: real)
    ensures r >= 0.0 ==> 0 <= Trunc(r) && Trunc(r) as real <= r < Trunc(r) as real + 1.0
    ensures r <= 0.0 ==> Trunc(r) <= 0 && Trunc(r) as real - 1.0 < r <= Trunc(r) as real
  {
  }

  /** A subscriber that a record of the file reads as. */
  predicate ReadsAs(item: Option<RawSubscription>, now: int, s: Subscription) {
    && item.Some?
    && var r := item.value;
       && Given(r.to) && s.target.to == Trim(r.to.value)
       && s.target.accountId == (if Given(r.accountId) then Some(Trim(r.accountId.value)) else None)
       && (r.messageThreadId.None? <==> s.target.messageThreadId.None?)
       && (r.messageThreadId.Some? ==> s.target.messageThreadId == Some(Trunc(r.messageThreadId.value)))
       && s.mode == (if r.once then Once else Persistent)
       && s.addedAtMs == if r.addedAtMs.Some? then Trunc(r.addedAtMs.value) else now
  }

  lemma {:induction false} SubscribersReadTo(items: seq<Option<RawSubscription>>, now: int, n: nat, s: Subscription)
    requires n <= |items|
    ensures s in SubscribersFrom(items, now, n) <==> exists k :: 0 <= k < n && ReadsAs(items[k], now, s)
  {
    if n > 0 {
      SubscribersReadTo(items, now, n - 1, s);
      assert HasRecipient(items[n-1]) <==> items[n-1].Some? && Given(items[n-1].value.to);
      assert ReadsAs(items[n-1], now, s) <==> HasRecipient(items[n-1]) && s == FromRecord(items[n-1].value, now);
    }
  }

  /** The subscribers of any file are what its records with a recipient read as, and the remembered requests those with
      an id that is not blank and a positive time. */
  lemma FileReadsExactlyWhen(raw: RawFile, now: int, s: Subscription, id: string, t: int)
    ensures s in FromFile(raw, now).subscribers <==>
              exists k :: 0 <= k < |raw.subscribers| && ReadsAs(raw.subscribers[k], now, s)
    ensures RememberedSince(FromFile(raw, now), id, t) <==>
              id in raw.notified && !Blank(id) && raw.notified[id].Some? && raw.notified[id].value > 0.0
              && t == Trunc(raw.notified[id].value)
  {
    SubscribersReadTo(raw.subscribers, now, |raw.subscribers|, s);
  }

  // ------------------------------------------------------------------ a poll

  /** A poll leaves exactly the subscribers whose key no one-shot subscriber was told under. */
  lemma StaysExactlyWhen(st: NotifyState, e: Event, s: Subscription)
    requires e.Poll? && NormalState(st)
    ensures s in Step(st, e).subscribers <==> s in st.subscribers && !OneShotHeard(Log(st, e), Key(s.target))
  {
    var log, key := Log(st, e), Key(s.target);
    NormalPoll(st, e);
    RemainingHas(st.subscribers, OneShotKeys(log), |st.subscribers|, s);
    assert st.subscribers[..|st.subscribers|] == st.subscribers;
    if OneShotHeard(log, key) {
      var k :| 0 <= k < |log| && log[k].sent && log[k].subscriber.mode == Once && Key(log[k].subscriber.target) == key;
      assert log[k] in log;
    }
  }

  /** In rounds, what is remembered at the end is what was remembered at the start and what was delivered. */
  lemma {:induction false} RoundsRememberOnly(
    subs: seq<Subscription>, pending: seq<Request>, sends: Sends, now: int, known: map<string, int>, n: nat, id: string)
    requires n <= |pending| && id !in known
    ensures var p := Rounds(subs, pending, sends, now, known, n);
            id in p.notified <==> DeliveredIn(p.log, id)
  {
    if n > 0 {
      RoundsRememberOnly(subs, pending, sends, now, known, n - 1, id);
      var p, r := Rounds(subs, pending, sends, now, known, n - 1), pending[n-1];
      if r.requestId !in p.notified {
        var tries := Tries(subs, r, sends, |subs|);
        DeliveredInConcat(p.log, tries, id);
        TriesDeliver(subs, r, sends, id);
      }
    }
  }

  lemma TriesDeliver(subs: seq<Subscription>, r: Request, sends: Sends, id: string)
    ensures var tries := Tries(subs, r, sends, |subs|);
            DeliveredIn(tries, id) <==> AnySent(tries) && r.requestId == id
  {
    var tries := Tries(subs, r, sends, |subs|);
    TriesFrom(subs, r, sends, |subs|);
    forall k | 0 <= k < |tries| ensures tries[k].request == r {
      assert tries[k] in tries;
    }
    if AnySent(tries) && r.requestId == id {
      var k :| 0 <= k < |tries| && tries[k].sent;
      assert tries[k].request.requestId == id;
    }
  }

  /** After a poll a request is remembered since some time exactly when it was delivered then, in this poll, or it is
      still pending and was remembered since then, which is not over a day ago. */
  lemma RememberedExactlyWhen(st: NotifyState, e: Event, id: string, t: int)
    requires e.Poll? && NormalState(st) && !Blank(id)
    ensures RememberedSince(Step(st, e), id, t) <==>
              if id in Ids(e.pending) && ToldWithinADay(st, id, e.now) then t == st.notified[id]
              else DeliveredIn(Log(st, e), id) && t == e.now
    ensures id in Ids(e.pending) && ToldWithinADay(st, id, e.now) ==> !DeliveredIn(Log(st, e), id)
  {
    var known := Remembered(st.notified, Ids(e.pending), e.now);
    RoundsRemember(st.subscribers, e.pending, e.sends, e.now, known, |e.pending|, id);
    if id !in known {
      RoundsRememberOnly(st.subscribers, e.pending, e.sends, e.now, known, |e.pending|, id);
    }
  }

  // ------------------------------------------------------------------ commands

  predicate HasKey(subs: seq<Subscription>, key: string, mode: Mode) {
    exists k :: 0 <= k < |subs| && Key(subs[k].target) == key && subs[k].mode == mode
  }

  /** Arming a target leaves the subscribers of other keys alone, keeps one of its own key that is of that mode already,
      and puts one armed now in the place of one that is not, or of none; what is remembered stays. */
  lemma ArmedExactlyWhen(st: NotifyState, target: Target, mode: Mode, now: Millis, s: Subscription)
    requires NormalState(st) && KeysUnique(st.subscribers) && NormalTarget(target)
    ensures var key, after := Key(target), Step(st, Arm(target, mode, now));
            && (s in after.subscribers <==>
                  || (s in st.subscribers && (Key(s.target) != key || s.mode == mode))
                  || (s == Subscription(target, mode, now) && !HasKey(st.subscribers, key, mode)))
            && after.notified == st.notified
  {
    var subs, after := st.subscribers, Step(st, Arm(target, mode, now)).subscribers;
    var i := Place(subs, target);
    NormalizeIsNormal(st);
    if Unchanged(subs, target, mode) {
      assert st.(subscribers := subs) == st;
      assert s in subs && Key(s.target) == Key(target) ==> s == subs[i];
    } else {
      TrimIsTrimmed("");
      ArmReadsAs(st, target, mode, now);
      if i < |subs| {
        assert after[i] == Subscription(target, mode, now);
        assert forall k :: 0 <= k < |subs| && k != i ==> after[k] == subs[k];
      }
    }
  }

  lemma WithoutKeyAre(subs: seq<Subscription>, key: string, s: Subscription)
    requires KeysUnique(subs)
    ensures s in WithoutKey(subs, key) <==> s in subs && Key(s.target) != key
  {
    var i, left := FindKey(subs, key, 0), WithoutKey(subs, key);
    if i < |subs| {
      assert forall k :: 0 <= k < |left| ==> left[k] == subs[if k < i then k else k + 1];
      forall k | 0 <= k < |subs| && k != i ensures subs[k] in left {
        assert left[if k < i then k else k - 1] == subs[k];
      }
    }
  }

  /** Turning a target off removes the subscriber of its key and no other, and what is remembered stays. */
  lemma OffExactlyWhen(st: NotifyState, target: Target, s: Subscription)
    requires NormalState(st) && KeysUnique(st.subscribers)
    ensures var after := Step(st, Off(target));
            && (s in after.subscribers <==> s in st.subscribers && Key(s.target) != Key(target))
            && after.notified == st.notified
  {
    NormalOff(st, target);
    NormalizeIsNormal(st);
    WithoutKeyAre(st.subscribers, Key(target), s);
  }
}
