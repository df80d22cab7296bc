/** The pairing notifier: a polled file of subscribers and of the requests they were told about. */
module Notifier {
  import opened Wrappers
  import opened Text

  const MAX_SEEN_AGE_MS := 86400000

  type Millis = n: int | n > 0 witness 1

  datatype Mode = Persistent | Once

  datatype Target = Target(to: string, accountId: Option<string>, messageThreadId: Option<int>)

  datatype Subscription = Subscription(target: Target, mode: Mode, addedAtMs: int)

  datatype NotifyState = NotifyState(subscribers: seq<Subscription>, notified: map<string, int>)

  /** `ts` is `None` when it is not a finite number. */
  datatype Request = Request(requestId: string, ts: Option<real>)

  const NOTHING := NotifyState([], map[])

  // ------------------------------------------------------------------ targets and keys

  function IntText(n: int): string {
    if n < 0 then "-" + Digits(-n) else Digits(n)
  }

  function Key(t: Target): string {
    t.to + "|" + (if t.accountId.Some? then t.accountId.value else "") + "|"
    + (if t.messageThreadId.Some? then IntText(t.messageThreadId.value) else "")
  }

  datatype Context = Context(
    senderId: Option<string>,
    from: Option<string>,
    to: Option<string>,
    accountId: Option<string>,
    messageThreadId: Option<int>)

  function TrimmedOr(s: Option<string>, otherwise: string): string {
    if s.Some? && Trim(s.value) != "" then Trim(s.value) else otherwise
  }

  /** The recipient is trimmed; the account is taken as it is, and left out only when it is empty. */
  function ResolveTarget(ctx: Context): Option<Target> {
    var to := TrimmedOr(ctx.senderId, TrimmedOr(ctx.from, TrimmedOr(ctx.to, "")));
    if to == "" then None
    else Some(Target(to, if ctx.accountId == Some("") then None else ctx.accountId, ctx.messageThreadId))
  }

  predicate Resolved(t: Target) {
    t.to != "" && Trim(t.to) == t.to && t.accountId != Some("")
  }

  lemma TrimmedOrIsTrimmed(s: Option<string>, otherwise: string)
    requires Trim(otherwise) == otherwise
    ensures Trim(TrimmedOr(s, otherwise)) == TrimmedOr(s, otherwise)
  {
    if s.Some? {
      TrimIsTrimmed(s.value);
      TrimIsTrimmed(Trim(s.value));
    }
  }

  lemma TargetIsResolved(ctx: Context)
    ensures ResolveTarget(ctx).Some? ==> Resolved(ResolveTarget(ctx).value)
  {
    TrimmedOrIsTrimmed(ctx.to, "");
    TrimmedOrIsTrimmed(ctx.from, TrimmedOr(ctx.to, ""));
    TrimmedOrIsTrimmed(ctx.senderId, TrimmedOr(ctx.from, TrimmedOr(ctx.to, "")));
  }

  // ------------------------------------------------------------------ reading the file back

  /** A target as it is read back from the file: everything trimmed, a blank account dropped. */
  function ReadBack(t: Target): Target {
    Target(Trim(t.to),
           if t.accountId.Some? && Trim(t.accountId.value) != "" then Some(Trim(t.accountId.value)) else None,
           t.messageThreadId)
  }

  predicate NormalTarget(t: Target) {
    t.to != "" && ReadBack(t) == t
  }

  lemma ReadBackIsNormal(t: Target)
    ensures ReadBack(ReadBack(t)) == ReadBack(t)
  {
    TrimIsTrimmed(t.to);
    TrimIsTrimmed(Trim(t.to));
    if t.accountId.Some? {
      TrimIsTrimmed(t.accountId.value);
      TrimIsTrimmed(Trim(t.accountId.value));
    }
  }

  function NormalSubscribers(subs: seq<Subscription>, n: nat): seq<Subscription>
    requires n <= |subs|
  {
    if n == 0 then []
    else NormalSubscribers(subs, n - 1) +
         if Trim(subs[n-1].target.to) == "" then [] else [subs[n-1].(target := ReadBack(subs[n-1].target))]
  }

  function NormalNotified(notified: map<string, int>): map<string, int> {
    map id | id in notified && Trim(id) != "" && notified[id] > 0 :: notified[id]
  }

  function Normalize(st: NotifyState): NotifyState {
    NotifyState(NormalSubscribers(st.subscribers, |st.subscribers|), NormalNotified(st.notified))
  }

  // ------------------------------------------------------------------ any file

  /** A subscriber as a file may hold it. A field is `None` when it is missing, or not of its type and finite. */
  datatype RawSubscription = RawSubscription(
    to: Option<string>, accountId: Option<string>, messageThreadId: Option<real>, once: bool, addedAtMs: Option<real>)

  /** What a file may hold. A subscriber is `None` when it is not a record, a time when it is not a finite number. */
  datatype RawFile = RawFile(subscribers: seq<Option<RawSubscription>>, notified: map<string, Option<real>>)

  /** The whole part, towards zero. */
  function Trunc(r: real): int {
    if r >= 0.0 then r.Floor else -((-r).Floor)
  }

  function TruncOr(r: Option<real>, otherwise: int): int {
    if r.Some? then Trunc(r.value) else otherwise
  }

  predicate HasRecipient(item: Option<RawSubscription>) {
    item.Some? && item.value.to.Some? && Trim(item.value.to.value) != ""
  }

  /** A time of arming that is missing is the time of reading. */
  function FromRecord(record: RawSubscription, now: int): Subscription
    requires HasRecipient(Some(record))
  {
    var thread := if record.messageThreadId.Some? then Some(Trunc(record.messageThreadId.value)) else None;
    Subscription(ReadBack(Target(record.to.value, record.accountId, thread)), if record.once then Once else Persistent,
                 TruncOr(record.addedAtMs, now))
  }

  function SubscribersFrom(items: seq<Option<RawSubscription>>, now: int, n: nat): seq<Subscription>
    requires n <= |items|
  {
    if n == 0 then []
    else SubscribersFrom(items, now, n - 1) +
         if HasRecipient(items[n-1]) then [FromRecord(items[n-1].value, now)] else []
  }

  predicate Kept(id: string, ts: Option<real>) {
    Trim(id) != "" && ts.Some? && ts.value > 0.0
  }

  function NotifiedFrom(raw: map<string, Option<real>>): map<string, int> {
    map id | id in raw && Kept(id, raw[id]) :: Trunc(raw[id].value)
  }

  /** What a file reads as at some time. */
  function FromFile(raw: RawFile, now: int): NotifyState {
    NotifyState(SubscribersFrom(raw.subscribers, now, |raw.subscribers|), NotifiedFrom(raw.notified))
  }

  function WrittenSubscriber(s: Subscription): RawSubscription {
    var thread := s.target.messageThreadId;
    RawSubscription(Some(s.target.to), s.target.accountId, if thread.Some? then Some(thread.value as real) else None,
                    s.mode == Once, Some(s.addedAtMs as real))
  }

  /** The file that a state is written to. */
  function Written(st: NotifyState): RawFile {
    RawFile(seq(|st.subscribers|, k requires 0 <= k < |st.subscribers| => Some(WrittenSubscriber(st.subscribers[k]))),
            map id | id in st.notified :: Some(st.notified[id] as real))
  }

  lemma TruncWhole(n: int)
    ensures Trunc(n as real) == n
  {
    assert (-(n as real)) == (-n) as real;
  }

  lemma WrittenReadsBack(s: Subscription, now: int)
    requires Trim(s.target.to) != ""
    ensures FromRecord(WrittenSubscriber(s), now) == s.(target := ReadBack(s.target))
  {
    TruncWhole(s.addedAtMs);
    if s.target.messageThreadId.Some? {
      TruncWhole(s.target.messageThreadId.value);
    }
  }

  lemma {:induction false} WrittenSubscribers(
    subs: seq<Subscription>, items: seq<Option<RawSubscription>>, now: int, n: nat)
    requires n <= |subs| == |items| && forall k :: 0 <= k < |subs| ==> items[k] == Some(WrittenSubscriber(subs[k]))
    ensures SubscribersFrom(items, now, n) == NormalSubscribers(subs, n)
  {
    if n > 0 {
      WrittenSubscribers(subs, items, now, n - 1);
      if Trim(subs[n-1].target.to) != "" {
        WrittenReadsBack(subs[n-1], now);
      }
    }
  }

  /** A file that was written reads as the state's normal form, whenever it is read. */
  lemma WrittenReadsAs(st: NotifyState, now: int)
    ensures FromFile(Written(st), now) == Normalize(st)
  {
    WrittenSubscribers(st.subscribers, Written(st).subscribers, now, |st.subscribers|);
    forall id | id in st.notified ensures Trunc(st.notified[id] as real) == st.notified[id] {
      TruncWhole(st.notified[id]);
    }
  }

  /** The file holds nothing that could be read, or what was last written. */
  function Read(file: Option<NotifyState>): NotifyState {
    if file.None? then NOTHING else Normalize(file.value)
  }

  predicate AllNormal(subs: seq<Subscription>) {
    forall k :: 0 <= k < |subs| ==> NormalTarget(subs[k].target)
  }

  predicate NormalState(st: NotifyState) {
    AllNormal(st.subscribers) && forall id :: id in st.notified ==> Trim(id) != "" && st.notified[id] > 0
  }

  lemma {:induction false} NormalSubscribersAreNormal(subs: seq<Subscription>, n: nat)
    requires n <= |subs|
    ensures AllNormal(NormalSubscribers(subs, n))
  {
    if n > 0 {
      NormalSubscribersAreNormal(subs, n - 1);
      ReadBackIsNormal(subs[n-1].target);
    }
  }

  lemma NormalTargetStays(s: Subscription)
    requires NormalTarget(s.target)
    ensures Trim(s.target.to) != "" && s.(target := ReadBack(s.target)) == s
  {
  }

  lemma PrefixGrows<T>(s: seq<T>, n: nat)
    requires 0 < n <= |s|
    ensures s[..n] == s[..n-1] + [s[n-1]]
  {
  }

  lemma {:induction false} NormalStaysTo(subs: seq<Subscription>, n: nat)
    requires n <= |subs| && forall k :: 0 <= k < n ==> NormalTarget(subs[k].target)
    ensures NormalSubscribers(subs, n) == subs[..n]
  {
    if n > 0 {
      NormalStaysTo(subs, n - 1);
      NormalTargetStays(subs[n-1]);
      PrefixGrows(subs, n);
    }
  }

  lemma NormalStays(subs: seq<Subscription>)
    requires AllNormal(subs)
    ensures NormalSubscribers(subs, |subs|) == subs
  {
    NormalStaysTo(subs, |subs|);
    assert subs[..|subs|] == subs;
  }

  lemma NormalizeIsNormal(st: NotifyState)
    ensures NormalState(Normalize(st))
    ensures NormalState(st) ==> Normalize(st) == st
  {
    NormalSubscribersAreNormal(st.subscribers, |st.subscribers|);
    if NormalState(st) {
      NormalStays(st.subscribers);
    }
  }

  // ------------------------------------------------------------------ commands

  /** The first subscriber of a key; the number of subscribers if there is none. */
  function FindKey(subs: seq<Subscription>, key: string, from: nat): (i: nat)
    requires from <= |subs|
    ensures from <= i <= |subs|
    ensures i < |subs| ==> Key(subs[i].target) == key
    ensures forall k :: from <= k < i ==> Key(subs[k].target) != key
    decreases |subs| - from
  {
    if from == |subs| || Key(subs[from].target) == key then from else FindKey(subs, key, from + 1)
  }

  function Upserted(subs: seq<Subscription>, target: Target, mode: Mode, now: int): seq<Subscription> {
    var i := FindKey(subs, Key(target), 0);
    if i == |subs| then subs + [Subscription(target, mode, now)]
    else if subs[i].mode == mode then subs
    else subs[i := Subscription(target, mode, now)]
  }

  function WithoutKey(subs: seq<Subscription>, key: string): seq<Subscription> {
    var i := FindKey(subs, key, 0);
    if i == |subs| then subs else subs[..i] + subs[i+1..]
  }

  // ------------------------------------------------------------------ polls

  datatype Attempt = Attempt(subscriber: Subscription, request: Request, sent: bool)

  /** Whether a message to a subscriber about a request gets through, in one poll. */
  type Sends = (Subscription, Request) -> bool

  function Timestamp(request: Request): Option<int> {
    if request.ts.Some? && Trunc(request.ts.value) > 0 then Some(Trunc(request.ts.value)) else None
  }

  predicate ShouldNotify(s: Subscription, request: Request) {
    s.mode == Once ==> Timestamp(request).Some? && Timestamp(request).value >= s.addedAtMs
  }

  function Ids(pending: seq<Request>): set<string> {
    set r | r in pending :: r.requestId
  }

  /** What is still remembered: requests that are pending and were told about within the last day. */
  function Remembered(notified: map<string, int>, ids: set<string>, now: int): map<string, int> {
    map id | id in notified && id in ids && now - notified[id] <= MAX_SEEN_AGE_MS :: notified[id]
  }

  function Tries(subs: seq<Subscription>, request: Request, sends: Sends, m: nat): seq<Attempt>
    requires m <= |subs|
  {
    if m == 0 then []
    else Tries(subs, request, sends, m - 1) +
         if ShouldNotify(subs[m-1], request)
         then [Attempt(subs[m-1], request, sends(subs[m-1], request))] else []
  }

  predicate AnySent(log: seq<Attempt>) {
    exists k :: 0 <= k < |log| && log[k].sent
  }

  datatype Progress = Progress(notified: map<string, int>, log: seq<Attempt>)

  /** After the first n pending requests. */
  function Rounds(
    subs: seq<Subscription>, pending: seq<Request>, sends: Sends, now: int, known: map<string, int>, n: nat): Progress
    requires n <= |pending|
  {
    if n == 0 then Progress(known, [])
    else
      var p := Rounds(subs, pending, sends, now, known, n - 1);
      var r := pending[n-1];
      if r.requestId in p.notified then p
      else
        var tries := Tries(subs, r, sends, |subs|);
        Progress(if AnySent(tries) then p.notified[r.requestId := now] else p.notified, p.log + tries)
  }

  predicate OneShotHeard(log: seq<Attempt>, key: string) {
    exists k :: 0 <= k < |log| && log[k].sent && log[k].subscriber.mode == Once && Key(log[k].subscriber.target) == key
  }

  function OneShotKeys(log: seq<Attempt>): set<string> {
    set a | a in log && a.sent && a.subscriber.mode == Once :: Key(a.subscriber.target)
  }

  function Remaining(subs: seq<Subscription>, done: set<string>, n: nat): seq<Subscription>
    requires n <= |subs|
  {
    if n == 0 then []
    else Remaining(subs, done, n - 1) + if Key(subs[n-1].target) in done then [] else [subs[n-1]]
  }

  function Told(st: NotifyState, pending: seq<Request>, sends: Sends, now: int): Progress {
    Rounds(st.subscribers, pending, sends, now, Remembered(st.notified, Ids(pending), now), |pending|)
  }

  function Polled(st: NotifyState, pending: seq<Request>, sends: Sends, now: int): NotifyState {
    var p := Told(st, pending, sends, now);
    NotifyState(Remaining(st.subscribers, OneShotKeys(p.log), |st.subscribers|), p.notified)
  }

  // ------------------------------------------------------------------ steps

  datatype Event =
    | Poll(pending: seq<Request>, sends: Sends, now: Millis)
    | Arm(target: Target, mode: Mode, now: Millis)
    | Off(target: Target)

  /** What the file reads as after an event, from what it read as before. */
  function Step(st: NotifyState, e: Event): NotifyState {
    match e
    case Poll(pending, sends, now) => Normalize(Polled(st, pending, sends, now))
    case Arm(target, mode, now) => Normalize(st.(subscribers := Upserted(st.subscribers, target, mode, now)))
    case Off(target) => Normalize(st.(subscribers := WithoutKey(st.subscribers, Key(target))))
  }

  function Log(st: NotifyState, e: Event): seq<Attempt> {
    if e.Poll? then Told(st, e.pending, e.sends, e.now).log else []
  }

  /** One event of a run: what the file reads as before and after it, and the messages it tried to send. */
  datatype Moment = Moment(before: NotifyState, event: Event, log: seq<Attempt>, after: NotifyState)

  ghost predicate Happened(m: Moment) {
    NormalState(m.before) && m.after == Step(m.before, m.event) && m.log == Log(m.before, m.event)
  }

  /** A run starts from any state and goes on, event by event, from what each event left. */
  ghost predicate Run(run: seq<Moment>) {
    && (forall k {:trigger Happened(run[k])} :: 0 <= k < |run| ==> Happened(run[k]))
    && (forall k :: 0 <= k < |run| - 1 ==> run[k].after == run[k+1].before)
  }

  lemma StepIsNormal(st: NotifyState, e: Event)
    ensures NormalState(Step(st, e))
  {
    match e
    case Poll(pending, sends, now) => NormalizeIsNormal(Polled(st, pending, sends, now));
    case Arm(target, mode, now) =>
      NormalizeIsNormal(st.(subscribers := Upserted(st.subscribers, target, mode, now)));
    case Off(target) => NormalizeIsNormal(st.(subscribers := WithoutKey(st.subscribers, Key(target))));
  }

  /** Every event can come next. */
  lemma Happening(st: NotifyState, e: Event) returns (m: Moment)
    requires NormalState(st)
    ensures Happened(m) && m.before == st && m.event == e && m.after == Step(st, e) && m.log == Log(st, e)
    ensures NormalState(m.after)
  {
    StepIsNormal(st, e);
    m := Moment(st, e, Log(st, e), Step(st, e));
  }

  lemma NextMoment(run: seq<Moment>, n: nat)
    requires Run(run) && 0 < n < |run|
    ensures Happened(run[n]) && run[n].before == run[n-1].after
  {
    assert Happened(run[n]);
    assert run[n-1].after == run[n-1+1].before;
  }

  // ------------------------------------------------------------------ one subscriber a key

  ghost predicate KeysUnique(subs: seq<Subscription>) {
    forall j, k :: 0 <= j < k < |subs| ==> Key(subs[j].target) != Key(subs[k].target)
  }

  lemma {:induction false} RemainingFrom(subs: seq<Subscription>, done: set<string>, n: nat)
    requires n <= |subs|
    ensures forall s :: s in Remaining(subs, done, n) ==> s in subs[..n] && Key(s.target) !in done
    ensures KeysUnique(subs) ==> KeysUnique(Remaining(subs, done, n))
  {
    if n > 0 {
      RemainingFrom(subs, done, n - 1);
      var before := Remaining(subs, done, n - 1);
      if KeysUnique(subs) {
        forall k | 0 <= k < |before| ensures Key(before[k].target) != Key(subs[n-1].target) {
          assert before[k] in subs[..n-1];
        }
      }
    }
  }

  lemma PollKeepsKeysUnique(st: NotifyState, pending: seq<Request>, sends: Sends, now: Millis)
    requires NormalState(st) && KeysUnique(st.subscribers)
    ensures KeysUnique(Step(st, Poll(pending, sends, now)).subscribers)
  {
    var after := Polled(st, pending, sends, now);
    RemainingFrom(st.subscribers, OneShotKeys(Told(st, pending, sends, now).log), |st.subscribers|);
    forall k | 0 <= k < |after.subscribers| ensures NormalTarget(after.subscribers[k].target) {
      assert after.subscribers[k] in st.subscribers[..|st.subscribers|];
    }
    NormalStays(after.subscribers);
  }

  lemma NormalOff(st: NotifyState, target: Target)
    requires NormalState(st)
    ensures Step(st, Off(target)).subscribers == WithoutKey(st.subscribers, Key(target))
  {
    NormalStays(WithoutKey(st.subscribers, Key(target)));
  }

  lemma OffKeepsKeysUnique(st: NotifyState, target: Target)
    requires NormalState(st) && KeysUnique(st.subscribers)
    ensures KeysUnique(Step(st, Off(target)).subscribers)
    ensures forall s :: s in Step(st, Off(target)).subscribers ==> Key(s.target) != Key(target)
  {
    NormalOff(st, target);
  }

  /** Where the subscriber of an armed target ends up. */
  function Place(subs: seq<Subscription>, target: Target): nat {
    FindKey(subs, Key(target), 0)
  }

  predicate Unchanged(subs: seq<Subscription>, target: Target, mode: Mode) {
    Place(subs, target) < |subs| && subs[Place(subs, target)].mode == mode
  }

  lemma {:induction false} AllAreKept(subs: seq<Subscription>, n: nat)
    requires n <= |subs| && forall k :: 0 <= k < n ==> Trim(subs[k].target.to) != ""
    ensures |NormalSubscribers(subs, n)| == n
    ensures forall k :: 0 <= k < n ==> NormalSubscribers(subs, n)[k] == subs[k].(target := ReadBack(subs[k].target))
  {
    if n > 0 {
      var s := subs[n-1];
      AllAreKept(subs, n - 1);
      assert NormalSubscribers(subs, n) == NormalSubscribers(subs, n - 1) + [s.(target := ReadBack(s.target))];
    }
  }

  lemma ArmReadsAs(st: NotifyState, target: Target, mode: Mode, now: Millis)
    requires NormalState(st) && Resolved(target) && !Unchanged(st.subscribers, target, mode)
    ensures var i, next := Place(st.subscribers, target), Subscription(ReadBack(target), mode, now);
      Step(st, Arm(target, mode, now)).subscribers
      == if i == |st.subscribers| then st.subscribers + [next] else st.subscribers[i := next]
  {
    AllStay(st.subscribers);
    var after := Upserted(st.subscribers, target, mode, now);
    AllAreKept(after, |after|);
  }

  lemma AllStay(subs: seq<Subscription>)
    requires AllNormal(subs)
    ensures forall k :: 0 <= k < |subs| ==>
              Trim(subs[k].target.to) != "" && subs[k].(target := ReadBack(subs[k].target)) == subs[k]
  {
    forall k | 0 <= k < |subs|
      ensures Trim(subs[k].target.to) != "" && subs[k].(target := ReadBack(subs[k].target)) == subs[k]
    {
      NormalTargetStays(subs[k]);
    }
  }

  /** Arming keeps one subscriber a key exactly when it changes nothing, or the target's key as it is read back is
      not another subscriber's. */
  lemma ArmKeepsKeysUniqueExactlyWhen(st: NotifyState, target: Target, mode: Mode, now: Millis)
    requires NormalState(st) && KeysUnique(st.subscribers) && Resolved(target)
    ensures KeysUnique(Step(st, Arm(target, mode, now)).subscribers) <==>
              Unchanged(st.subscribers, target, mode)
              || forall k :: 0 <= k < |st.subscribers| && k != Place(st.subscribers, target) ==>
                   Key(st.subscribers[k].target) != Key(ReadBack(target))
  {
    var i := Place(st.subscribers, target);
    if Unchanged(st.subscribers, target, mode) {
      NormalizeIsNormal(st);
      assert st.(subscribers := st.subscribers) == st;
    } else {
      ArmReadsAs(st, target, mode, now);
      var after := Step(st, Arm(target, mode, now)).subscribers;
      assert after[i].target == ReadBack(target);
      assert forall k :: 0 <= k < |st.subscribers| && k != i ==> after[k] == st.subscribers[k];
    }
  }

  /** So it does for every target that reads back as itself. */
  lemma NormalArmKeepsKeysUnique(st: NotifyState, target: Target, mode: Mode, now: Millis)
    requires NormalState(st) && KeysUnique(st.subscribers) && NormalTarget(target)
    ensures KeysUnique(Step(st, Arm(target, mode, now)).subscribers)
  {
    TrimIsTrimmed("");
    ArmKeepsKeysUniqueExactlyWhen(st, target, mode, now);
  }

  /** And a blank account makes a second subscriber of the same key. */
  lemma BlankAccountDuplicates(mode: Mode, now: Millis) returns (st: NotifyState, target: Target)
    ensures NormalState(st) && KeysUnique(st.subscribers) && Resolved(target)
    ensures !KeysUnique(Step(st, Arm(target, mode, now)).subscribers)
  {
    var plain := Target("a", None, None);
    target := Target("a", Some(" "), None);
    st := NotifyState([Subscription(plain, mode, now)], map[]);
    assert Trim("a") == "a" && Trim(" ") == "";
    assert Key(plain)[1..] == "||" && Key(target)[1..] == "| |";
    assert "||"[1] != "| |"[1];
    ArmKeepsKeysUniqueExactlyWhen(st, target, mode, now);
    assert Key(st.subscribers[0].target) == Key(ReadBack(target));
  }

  ghost predicate ArmsNormally(e: Event) {
    e.Arm? ==> NormalTarget(e.target)
  }

  lemma KeysStayUnique(m: Moment)
    requires Happened(m) && KeysUnique(m.before.subscribers) && ArmsNormally(m.event)
    ensures KeysUnique(m.after.subscribers)
  {
    match m.event
    case Poll(pending, sends, now) => PollKeepsKeysUnique(m.before, pending, sends, now);
    case Arm(target, mode, now) => NormalArmKeepsKeysUnique(m.before, target, mode, now);
    case Off(target) => OffKeepsKeysUnique(m.before, target);
  }

  /** Over any run of polls and commands on such targets there stays one subscriber a key. */
  lemma {:induction false} RunKeepsKeysUnique(run: seq<Moment>, n: nat)
    requires Run(run) && n < |run| && KeysUnique(run[0].before.subscribers)
    requires forall k :: 0 <= k <= n ==> ArmsNormally(run[k].event)
    ensures KeysUnique(run[n].after.subscribers)
  {
    if n > 0 {
      RunKeepsKeysUnique(run, n - 1);
    }
    assert Happened(run[n]);
    KeysStayUnique(run[n]);
  }

  /** An arm that changes nothing, or whose target's key, as it is read back, is not another subscriber's. */
  ghost predicate ArmsFreely(st: NotifyState, e: Event) {
    e.Arm? ==>
      || Unchanged(st.subscribers, e.target, e.mode)
      || forall k :: 0 <= k < |st.subscribers| && k != Place(st.subscribers, e.target) ==>
           Key(st.subscribers[k].target) != Key(ReadBack(e.target))
  }

  lemma StepKeepsKeysUniqueExactlyWhen(m: Moment)
    requires Happened(m) && KeysUnique(m.before.subscribers) && (m.event.Arm? ==> Resolved(m.event.target))
    ensures KeysUnique(m.after.subscribers) <==> ArmsFreely(m.before, m.event)
  {
    match m.event
    case Poll(pending, sends, now) => PollKeepsKeysUnique(m.before, pending, sends, now);
    case Arm(target, mode, now) => ArmKeepsKeysUniqueExactlyWhen(m.before, target, mode, now);
    case Off(target) => OffKeepsKeysUnique(m.before, target);
  }

  ghost predicate UniqueThroughout(run: seq<Moment>, n: nat)
    requires n <= |run|
  {
    n > 0 ==> UniqueThroughout(run, n - 1) && KeysUnique(run[n-1].after.subscribers)
  }

  ghost predicate ArmsFreelyThroughout(run: seq<Moment>, n: nat)
    requires n <= |run|
  {
    n > 0 ==> ArmsFreelyThroughout(run, n - 1) && ArmsFreely(run[n-1].before, run[n-1].event)
  }

  /** Over any run there is one subscriber a key at every point exactly when each arm changes nothing or its key is
      free. */
  lemma {:induction false} RunKeepsKeysUniqueExactlyWhen(run: seq<Moment>, n: nat)
    requires Run(run) && n <= |run| && (run != [] ==> KeysUnique(run[0].before.subscribers))
    requires forall k :: 0 <= k < n && run[k].event.Arm? ==> Resolved(run[k].event.target)
    ensures UniqueThroughout(run, n) <==> ArmsFreelyThroughout(run, n)
  {
    if n > 0 {
      RunKeepsKeysUniqueExactlyWhen(run, n - 1);
      assert Happened(run[n-1]);
      if UniqueThroughout(run, n - 1) {
        if n > 1 {
          NextMoment(run, n - 1);
        }
        StepKeepsKeysUniqueExactlyWhen(run[n-1]);
      }
    }
  }

  // ------------------------------------------------------------------ each request once a day

  /** Some subscriber was told about the request. */
  ghost predicate DeliveredIn(log: seq<Attempt>, id: string) {
    exists k :: 0 <= k < |log| && log[k].sent && log[k].request.requestId == id
  }

  lemma {:induction false} TriesFrom(subs: seq<Subscription>, request: Request, sends: Sends, m: nat)
    requires m <= |subs|
    ensures forall a :: a in Tries(subs, request, sends, m) ==> a.subscriber in subs && a.request == request
  {
    if m > 0 {
      TriesFrom(subs, request, sends, m - 1);
    }
  }

  /** A request that is remembered stays as it was and is not tried; one that is delivered is remembered from now. */
  lemma {:induction false} RoundsRemember(
    subs: seq<Subscription>, pending: seq<Request>, sends: Sends, now: int, known: map<string, int>, n: nat, id: string)
    requires n <= |pending|
    ensures var p := Rounds(subs, pending, sends, now, known, n);
      && (id in known ==> id in p.notified && p.notified[id] == known[id] && !DeliveredIn(p.log, id))
      && (id !in known && DeliveredIn(p.log, id) ==> id in p.notified && p.notified[id] == now)
  {
    if n > 0 {
      RoundsRemember(subs, pending, sends, now, known, n - 1, id);
      var p, r := Rounds(subs, pending, sends, now, known, n - 1), pending[n-1];
      if r.requestId !in p.notified {
        var tries := Tries(subs, r, sends, |subs|);
        TriesFrom(subs, r, sends, |subs|);
        DeliveredInConcat(p.log, tries, id);
        if DeliveredIn(tries, id) {
          var k :| 0 <= k < |tries| && tries[k].sent && tries[k].request.requestId == id;
          assert tries[k] in tries;
        }
      }
    }
  }

  lemma DeliveredInConcat(a: seq<Attempt>, b: seq<Attempt>, id: string)
    ensures DeliveredIn(a + b, id) <==> DeliveredIn(a, id) || DeliveredIn(b, id)
  {
    var all := a + b;
    if DeliveredIn(a, id) {
      var k :| 0 <= k < |a| && a[k].sent && a[k].request.requestId == id;
      assert all[k] == a[k];
    }
    if DeliveredIn(b, id) {
      var k :| 0 <= k < |b| && b[k].sent && b[k].request.requestId == id;
      assert all[|a|+k] == b[k];
    }
  }

  ghost predicate RememberedSince(st: NotifyState, id: string, time: int) {
    id in st.notified && st.notified[id] == time
  }

  lemma PollRemembers(st: NotifyState, e: Event, id: string, time: int)
    requires e.Poll? && Trim(id) != ""
    ensures DeliveredIn(Log(st, e), id) ==> RememberedSince(Step(st, e), id, e.now)
    ensures RememberedSince(st, id, time) && time > 0 && id in Ids(e.pending) && e.now - time <= MAX_SEEN_AGE_MS ==>
              RememberedSince(Step(st, e), id, time) && !DeliveredIn(Log(st, e), id)
  {
    var known := Remembered(st.notified, Ids(e.pending), e.now);
    RoundsRemember(st.subscribers, e.pending, e.sends, e.now, known, |e.pending|, id);
  }

  lemma CommandRemembers(st: NotifyState, e: Event, id: string, time: int)
    requires !e.Poll? && Trim(id) != "" && time > 0 && RememberedSince(st, id, time)
    ensures RememberedSince(Step(st, e), id, time)
  {
  }

  /** The request is pending at every poll after moment i up to moment j, and none of them is later than that. */
  ghost predicate PendingThroughout(run: seq<Moment>, i: nat, j: nat, id: string)
    requires i <= j < |run| && run[j].event.Poll?
  {
    forall k :: i < k <= j && run[k].event.Poll? ==>
      id in Ids(run[k].event.pending) && run[k].event.now <= run[j].event.now
  }

  lemma RememberedAfter(m: Moment, id: string)
    requires Happened(m) && m.event.Poll? && Trim(id) != "" && DeliveredIn(m.log, id)
    ensures RememberedSince(m.after, id, m.event.now)
  {
    PollRemembers(m.before, m.event, id, 1);
  }

  lemma StillRemembered(m: Moment, id: string, time: int)
    requires Happened(m) && Trim(id) != "" && time > 0 && RememberedSince(m.before, id, time)
    requires m.event.Poll? ==> id in Ids(m.event.pending) && m.event.now - time <= MAX_SEEN_AGE_MS
    ensures RememberedSince(m.after, id, time)
    ensures !DeliveredIn(m.log, id)
  {
    if m.event.Poll? {
      PollRemembers(m.before, m.event, id, time);
    } else {
      CommandRemembers(m.before, m.event, id, time);
    }
  }

  lemma PendingAt(run: seq<Moment>, i: nat, n: nat, j: nat, id: string)
    requires i < n <= j < |run| && run[j].event.Poll? && PendingThroughout(run, i, j, id)
    ensures run[n].event.Poll? ==> id in Ids(run[n].event.pending) && run[n].event.now <= run[j].event.now
  {
  }

  lemma {:induction false} RememberedUntil(run: seq<Moment>, i: nat, n: nat, j: nat, id: string, time: int)
    requires Run(run) && i <= n < j < |run| && run[j].event.Poll? && Trim(id) != "" && time > 0
    requires RememberedSince(run[i].after, id, time)
    requires PendingThroughout(run, i, j, id) && run[j].event.now - time <= MAX_SEEN_AGE_MS
    ensures RememberedSince(run[n].after, id, time)
    decreases n
  {
    if n > i {
      RememberedUntil(run, i, n - 1, j, id, time);
      NextMoment(run, n);
      PendingAt(run, i, n, j, id);
      StillRemembered(run[n], id, time);
    }
  }

  /** A request that stays pending is delivered in two polls only if more than a day lies between them. */
  lemma DeliveredAgainOnlyAfterADay(run: seq<Moment>, i: nat, j: nat, id: string)
    requires Run(run) && i < j < |run| && run[i].event.Poll? && run[j].event.Poll? && Trim(id) != ""
    requires PendingThroughout(run, i, j, id)
    requires DeliveredIn(run[i].log, id) && DeliveredIn(run[j].log, id)
    ensures run[j].event.now - run[i].event.now > MAX_SEEN_AGE_MS
  {
    var time := run[i].event.now;
    if run[j].event.now - time <= MAX_SEEN_AGE_MS {
      assert Happened(run[i]);
      NextMoment(run, j);
      RememberedAfter(run[i], id);
      RememberedUntil(run, i, j - 1, j, id, time);
      StillRemembered(run[j], id, time);
    }
  }

  // ------------------------------------------------------------------ one-shot subscribers

  lemma {:induction false} RoundsFrom(
    subs: seq<Subscription>, pending: seq<Request>, sends: Sends, now: int, known: map<string, int>, n: nat)
    requires n <= |pending|
    ensures forall a :: a in Rounds(subs, pending, sends, now, known, n).log ==> a.subscriber in subs
  {
    if n > 0 {
      RoundsFrom(subs, pending, sends, now, known, n - 1);
      TriesFrom(subs, pending[n-1], sends, |subs|);
    }
  }

  ghost predicate NoneWith(subs: seq<Subscription>, key: string) {
    forall s :: s in subs ==> Key(s.target) != key
  }

  lemma NoneTried(st: NotifyState, e: Event, key: string)
    requires NoneWith(st.subscribers, key)
    ensures forall a :: a in Log(st, e) ==> Key(a.subscriber.target) != key
  {
    if e.Poll? {
      var known := Remembered(st.notified, Ids(e.pending), e.now);
      RoundsFrom(st.subscribers, e.pending, e.sends, e.now, known, |e.pending|);
    }
  }

  lemma NormalPoll(st: NotifyState, e: Event)
    requires e.Poll? && NormalState(st)
    ensures Step(st, e).subscribers == Remaining(st.subscribers, OneShotKeys(Log(st, e)), |st.subscribers|)
  {
    var after := Polled(st, e.pending, e.sends, e.now).subscribers;
    RemainingFrom(st.subscribers, OneShotKeys(Log(st, e)), |st.subscribers|);
    forall k | 0 <= k < |after| ensures NormalTarget(after[k].target) {
      assert after[k] in st.subscribers[..|st.subscribers|];
    }
    NormalStays(after);
  }

  /** A poll that got through to a one-shot subscriber leaves nobody with its key. */
  lemma OneShotIsRemoved(st: NotifyState, e: Event, key: string)
    requires e.Poll? && NormalState(st) && OneShotHeard(Log(st, e), key)
    ensures NoneWith(Step(st, e).subscribers, key)
  {
    NormalPoll(st, e);
    RemainingFrom(st.subscribers, OneShotKeys(Log(st, e)), |st.subscribers|);
    var k :| 0 <= k < |Log(st, e)| && Log(st, e)[k].sent && Log(st, e)[k].subscriber.mode == Once
             && Key(Log(st, e)[k].subscriber.target) == key;
    assert Log(st, e)[k] in Log(st, e);
    assert key in OneShotKeys(Log(st, e));
  }

  ghost predicate Arms(e: Event, key: string) {
    e.Arm? && Key(ReadBack(e.target)) == key
  }

  lemma StaysRemoved(st: NotifyState, e: Event, key: string)
    requires NormalState(st) && NoneWith(st.subscribers, key) && !Arms(e, key) && (e.Arm? ==> Resolved(e.target))
    ensures NoneWith(Step(st, e).subscribers, key)
  {
    match e
    case Poll(pending, sends, now) =>
      NormalPoll(st, e);
      RemainingFrom(st.subscribers, OneShotKeys(Log(st, e)), |st.subscribers|);
    case Arm(target, mode, now) =>
      if Unchanged(st.subscribers, target, mode) {
        NormalizeIsNormal(st);
        assert st.(subscribers := st.subscribers) == st;
      } else {
        ArmReadsAs(st, target, mode, now);
      }
    case Off(target) =>
      NormalOff(st, target);
  }

  lemma {:induction false} RemovedUntil(run: seq<Moment>, i: nat, n: nat, key: string)
    requires Run(run) && i <= n < |run| && NoneWith(run[i].after.subscribers, key)
    requires forall k :: i < k <= n ==>
               !Arms(run[k].event, key) && (run[k].event.Arm? ==> Resolved(run[k].event.target))
    ensures NoneWith(run[n].after.subscribers, key)
    decreases n
  {
    if n > i {
      RemovedUntil(run, i, n - 1, key);
      NextMoment(run, n);
      StaysRemoved(run[n].before, run[n].event, key);
    }
  }

  /** A one-shot subscriber that heard something in one poll is not tried in any later one, unless it is armed again. */
  lemma OneShotHearsInOnePoll(run: seq<Moment>, i: nat, j: nat, key: string)
    requires Run(run) && i < j < |run| && run[i].event.Poll? && OneShotHeard(run[i].log, key)
    requires forall k :: i < k < j ==>
               !Arms(run[k].event, key) && (run[k].event.Arm? ==> Resolved(run[k].event.target))
    ensures forall a :: a in run[j].log ==> Key(a.subscriber.target) != key
  {
    assert Happened(run[i]);
    NextMoment(run, j);
    OneShotIsRemoved(run[i].before, run[i].event, key);
    RemovedUntil(run, i, j - 1, key);
    NoneTried(run[j].before, run[j].event, key);
  }

  // ------------------------------------------------------------------ who hears of what

  ghost predicate DistinctIds(pending: seq<Request>) {
    forall j, k :: 0 <= j < k < |pending| ==> pending[j].requestId != pending[k].requestId
  }

  lemma {:induction false} TriesAre(subs: seq<Subscription>, request: Request, sends: Sends, m: nat, a: Attempt)
    requires m <= |subs|
    ensures a in Tries(subs, request, sends, m) <==>
            && a.subscriber in subs[..m] && a.request == request && ShouldNotify(a.subscriber, request)
            && a.sent == sends(a.subscriber, request)
  {
    if m > 0 {
      TriesAre(subs, request, sends, m - 1, a);
      PrefixGrows(subs, m);
    }
  }

  /** In rounds over requests of distinct ids, a subscriber is tried with a request exactly when the request was not
      remembered at the start and is one for the subscriber. */
  lemma {:induction false} RoundsAre(
    subs: seq<Subscription>, pending: seq<Request>, sends: Sends, now: int, known: map<string, int>, n: nat, a: Attempt)
    requires n <= |pending| && DistinctIds(pending)
    ensures a in Rounds(subs, pending, sends, now, known, n).log <==>
            && a.subscriber in subs && a.request in pending[..n] && a.request.requestId !in known
            && ShouldNotify(a.subscriber, a.request) && a.sent == sends(a.subscriber, a.request)
    ensures forall id :: id in Rounds(subs, pending, sends, now, known, n).notified ==>
              id in known || exists k :: 0 <= k < n && pending[k].requestId == id
    ensures forall id :: id in known ==> id in Rounds(subs, pending, sends, now, known, n).notified
  {
    if n > 0 {
      RoundsAre(subs, pending, sends, now, known, n - 1, a);
      TriesAre(subs, pending[n-1], sends, |subs|, a);
      assert subs[..|subs|] == subs;
      assert pending[..n] == pending[..n-1] + [pending[n-1]];
    }
  }

  /** The subscriber is told about the request. */
  ghost predicate Hears(log: seq<Attempt>, s: Subscription, r: Request) {
    Attempt(s, r, true) in log
  }

  /** Somebody was told about the request within the last day. */
  predicate ToldWithinADay(st: NotifyState, id: string, now: int) {
    id in st.notified && now - st.notified[id] <= 24 * 60 * 60 * 1000
  }

  /** The request is one for the subscriber: any request for a persistent one, one that was made when it was armed or
      later for a one-shot one. */
  predicate IsFor(s: Subscription, r: Request) {
    s.mode == Persistent || (r.ts.Some? && r.ts.value >= 1.0 && r.ts.value >= s.addedAtMs as real)
  }

  lemma IsForExactlyWhen(s: Subscription, r: Request)
    ensures ShouldNotify(s, r) <==> IsFor(s, r)
  {
  }

  /** The request is pending, nobody was told about it within a day, it is one for the subscriber, and gets through. */
  ghost predicate Due(st: NotifyState, e: Event, s: Subscription, r: Request)
    requires e.Poll?
  {
    && s in st.subscribers && r in e.pending && !ToldWithinADay(st, r.requestId, e.now)
    && IsFor(s, r) && e.sends(s, r)
  }

  /** A subscriber hears in a poll about exactly the requests that are due to it. */
  lemma HearsExactlyWhen(st: NotifyState, e: Event, s: Subscription, r: Request)
    requires e.Poll? && DistinctIds(e.pending)
    ensures Hears(Log(st, e), s, r) <==> Due(st, e, s, r)
  {
    IsForExactlyWhen(s, r);
    var known := Remembered(st.notified, Ids(e.pending), e.now);
    RoundsAre(st.subscribers, e.pending, e.sends, e.now, known, |e.pending|, Attempt(s, r, true));
    assert e.pending[..|e.pending|] == e.pending;
  }

  lemma DeliveredExactlyWhen(st: NotifyState, e: Event, id: string)
    requires e.Poll? && DistinctIds(e.pending)
    ensures DeliveredIn(Log(st, e), id) <==> exists s, r: Request :: r.requestId == id && Due(st, e, s, r)
  {
    if DeliveredIn(Log(st, e), id) {
      var k :| 0 <= k < |Log(st, e)| && Log(st, e)[k].sent && Log(st, e)[k].request.requestId == id;
      var a := Log(st, e)[k];
      assert a == Attempt(a.subscriber, a.request, true) && a in Log(st, e);
      HearsExactlyWhen(st, e, a.subscriber, a.request);
    }
    if s, r: Request :| r.requestId == id && Due(st, e, s, r) {
      HearsExactlyWhen(st, e, s, r);
      var k :| 0 <= k < |Log(st, e)| && Log(st, e)[k] == Attempt(s, r, true);
    }
  }

  // ------------------------------------------------------------------ blank ids

  /** Some subscriber is one for the request, and gets the message. */
  ghost predicate Reachable(st: NotifyState, e: Event, id: string)
    requires e.Poll?
  {
    exists s, r :: s in st.subscribers && r in e.pending && r.requestId == id && IsFor(s, r) && e.sends(s, r)
  }

  /** Within a day of its delivery, a request that stays pending is delivered again exactly when its id is blank. */
  lemma DeliveredAgainWithinADayExactlyWhen(run: seq<Moment>, i: nat, j: nat, id: string)
    requires Run(run) && i < j < |run| && run[i].event.Poll? && run[j].event.Poll?
    requires PendingThroughout(run, i, j, id) && DeliveredIn(run[i].log, id)
    requires run[j].event.now - run[i].event.now <= MAX_SEEN_AGE_MS
    requires DistinctIds(run[j].event.pending) && Reachable(run[j].before, run[j].event, id)
    ensures DeliveredIn(run[j].log, id) <==> Trim(id) == ""
  {
    assert Happened(run[j]);
    if Trim(id) == "" {
      var st, e := run[j].before, run[j].event;
      var s, r :| s in st.subscribers && r in e.pending && r.requestId == id && IsFor(s, r) && e.sends(s, r);
      assert Due(st, e, s, r);
      DeliveredExactlyWhen(st, e, id);
    } else if DeliveredIn(run[j].log, id) {
      DeliveredAgainOnlyAfterADay(run, i, j, id);
    }
  }

  lemma PersistentStays(st: NotifyState, e: Event, s: Subscription)
    requires e.Poll? && NormalState(st) && st.subscribers == [s] && s.mode == Persistent
    ensures Step(st, e).subscribers == [s]
  {
    var known := Remembered(st.notified, Ids(e.pending), e.now);
    RoundsFrom(st.subscribers, e.pending, e.sends, e.now, known, |e.pending|);
    assert OneShotKeys(Log(st, e)) == {};
    NormalPoll(st, e);
    assert Remaining([s], {}, 1) == [] + [s];
  }

  lemma FirstArmed(target: Target, now: Millis) returns (m: Moment)
    requires NormalTarget(target)
    ensures Happened(m) && m.before == NOTHING && NormalState(m.after)
    ensures m.after.subscribers == [Subscription(target, Persistent, now)]
  {
    m := Happening(NOTHING, Arm(target, Persistent, now));
    NormalStays([Subscription(target, Persistent, now)]);
  }

  lemma BlankIdIsDelivered(st: NotifyState, s: Subscription, request: Request, now: Millis) returns (m: Moment)
    requires NormalState(st) && st.subscribers == [s] && s.mode == Persistent && Trim(request.requestId) == ""
    ensures Happened(m) && m.before == st && m.event.Poll? && m.event.now == now
    ensures NormalState(m.after) && m.after.subscribers == [s] && DeliveredIn(m.log, request.requestId)
  {
    var e := Poll([request], (a: Subscription, b: Request) => true, now);
    m := Happening(st, e);
    PersistentStays(st, e, s);
    assert request in e.pending;
    assert Due(st, e, s, request);
    DeliveredExactlyWhen(st, e, request.requestId);
  }

  lemma RunOfThree(a: Moment, b: Moment, c: Moment)
    requires Happened(a) && Happened(b) && Happened(c) && a.after == b.before && b.after == c.before
    ensures Run([a, b, c])
  {
    var run := [a, b, c];
    forall k {:trigger Happened(run[k])} | 0 <= k < |run| ensures Happened(run[k]) {
      assert run[k] == if k == 0 then a else if k == 1 then b else c;
    }
  }

  /** A run that shows it: one subscriber, and a request with a blank id in two polls. */
  lemma BlankIdIsDeliveredTwice(request: Request, target: Target) returns (run: seq<Moment>)
    requires Trim(request.requestId) == "" && NormalTarget(target)
    ensures Run(run) && |run| == 3 && run[0].before == NOTHING
    ensures run[1].event.Poll? && run[2].event.Poll? && run[2].event.now - run[1].event.now == 1
    ensures DeliveredIn(run[1].log, request.requestId) && DeliveredIn(run[2].log, request.requestId)
  {
    var s := Subscription(target, Persistent, 1);
    var armed := FirstArmed(target, 1);
    var first := BlankIdIsDelivered(armed.after, s, request, 2);
    var second := BlankIdIsDelivered(first.after, s, request, 3);
    RunOfThree(armed, first, second);
    run := [armed, first, second];
  }

  // ------------------------------------------------------------------ more than one message

  lemma {:induction false} RemainingHas(subs: seq<Subscription>, done: set<string>, n: nat, s: Subscription)
    requires n <= |subs|
    ensures s in Remaining(subs, done, n) <==> s in subs[..n] && Key(s.target) !in done
  {
    if n > 0 {
      RemainingHas(subs, done, n - 1, s);
      PrefixGrows(subs, n);
    }
  }

  /** The subscriber is told twice. */
  ghost predicate HearsTwice(log: seq<Attempt>, s: Subscription) {
    exists j, k :: 0 <= j < k < |log| && log[j].sent && log[k].sent && log[j].subscriber == s && log[k].subscriber == s
  }

  /** No subscriber is tried twice with one request. */
  ghost predicate OnceEach(log: seq<Attempt>) {
    forall j, k :: 0 <= j < k < |log| && log[j].subscriber == log[k].subscriber ==> log[j].request != log[k].request
  }

  lemma {:induction false} TriesOnceEach(subs: seq<Subscription>, request: Request, sends: Sends, m: nat)
    requires m <= |subs| && KeysUnique(subs)
    ensures OnceEach(Tries(subs, request, sends, m))
  {
    if m > 0 {
      TriesOnceEach(subs, request, sends, m - 1);
      forall a | a in Tries(subs, request, sends, m - 1) ensures a.subscriber != subs[m-1] {
        TriesAre(subs, request, sends, m - 1, a);
      }
    }
  }

  lemma {:induction false} RoundsOnceEach(
    subs: seq<Subscription>, pending: seq<Request>, sends: Sends, now: int, known: map<string, int>, n: nat)
    requires n <= |pending| && DistinctIds(pending) && KeysUnique(subs)
    ensures OnceEach(Rounds(subs, pending, sends, now, known, n).log)
  {
    if n > 0 {
      RoundsOnceEach(subs, pending, sends, now, known, n - 1);
      TriesOnceEach(subs, pending[n-1], sends, |subs|);
      var p := Rounds(subs, pending, sends, now, known, n - 1);
      forall a | a in p.log ensures a.request != pending[n-1] {
        RoundsAre(subs, pending, sends, now, known, n - 1, a);
      }
      TriesFrom(subs, pending[n-1], sends, |subs|);
      OnceEachConcat(p.log, Tries(subs, pending[n-1], sends, |subs|));
    }
  }

  lemma OnceEachConcat(a: seq<Attempt>, b: seq<Attempt>)
    requires OnceEach(a) && OnceEach(b) && forall x, y :: x in a && y in b ==> x.request != y.request
    ensures OnceEach(a + b)
  {
    var all := a + b;
    forall j, k | 0 <= j < k < |all| && all[j].subscriber == all[k].subscriber
      ensures all[j].request != all[k].request
    {
      assert j < |a| <= k ==> all[j] in a && all[k] in b;
    }
  }

  /** With no subscriber tried twice with one request, being told twice is being told of two requests. */
  lemma TwiceIsOfTwo(log: seq<Attempt>, s: Subscription)
    requires OnceEach(log)
    ensures HearsTwice(log, s) <==> exists r, q :: r != q && Hears(log, s, r) && Hears(log, s, q)
  {
    if HearsTwice(log, s) {
      var j, k :| 0 <= j < k < |log| && log[j].sent && log[k].sent && log[j].subscriber == s && log[k].subscriber == s;
      assert log[j] == Attempt(s, log[j].request, true) && log[k] == Attempt(s, log[k].request, true);
      assert Hears(log, s, log[j].request) && Hears(log, s, log[k].request);
    }
    if r, q :| r != q && Hears(log, s, r) && Hears(log, s, q) {
      var j :| 0 <= j < |log| && log[j] == Attempt(s, r, true);
      var k :| 0 <= k < |log| && log[k] == Attempt(s, q, true);
      assert j < k || k < j;
    }
  }

  /** In one poll a subscriber, one-shot or not, hears more than once exactly when two requests are due to it. */
  lemma HearsTwiceExactlyWhen(st: NotifyState, e: Event, s: Subscription)
    requires e.Poll? && DistinctIds(e.pending) && KeysUnique(st.subscribers)
    ensures HearsTwice(Log(st, e), s) <==> exists r, q :: r != q && Due(st, e, s, r) && Due(st, e, s, q)
  {
    RoundsOnceEach(st.subscribers, e.pending, e.sends, e.now, Remembered(st.notified, Ids(e.pending), e.now),
                   |e.pending|);
    TwiceIsOfTwo(Log(st, e), s);
    forall r ensures Hears(Log(st, e), s, r) <==> Due(st, e, s, r) {
      HearsExactlyWhen(st, e, s, r);
    }
  }

  /** So a one-shot subscriber may hear about two new requests, and not only about the next one. */
  lemma OneShotHearsTwice(s: Subscription, first: Request, second: Request, now: Millis)
    requires s.mode == Once && first.requestId != second.requestId
    requires IsFor(s, first) && IsFor(s, second)
    ensures HearsTwice(Log(NotifyState([s], map[]), Poll([first, second], (a, b) => true, now)), s)
  {
    var st, e := NotifyState([s], map[]), Poll([first, second], (a: Subscription, b: Request) => true, now);
    assert s in st.subscribers && first in e.pending && second in e.pending;
    assert Due(st, e, s, first) && Due(st, e, s, second);
    HearsTwiceExactlyWhen(st, e, s);
  }

  // ------------------------------------------------------------------ the service

  datatype Reply =
    | TelegramOnly
    | NoTarget
    | TurnedOn
    | TurnedOff
    | ArmedOnce
    | Status(mode: Option<Mode>, subscribers: nat, pending: nat)
    | Usage

  /** The first subscriber of the key is of that mode. */
  ghost predicate FirstIs(subs: seq<Subscription>, key: string, mode: Mode) {
    exists k :: 0 <= k < |subs| && Key(subs[k].target) == key && subs[k].mode == mode
                && forall j :: 0 <= j < k ==> Key(subs[j].target) != key
  }

  /** The report on a target: its mode, if it is subscribed, and how many subscribers and requests there are. */
  ghost predicate Reports(st: NotifyState, target: Target, pending: nat, reply: Reply) {
    && reply.Status? && reply.subscribers == |st.subscribers| && reply.pending == pending
    && match reply.mode
       case None => NoneWith(st.subscribers, Key(target))
       case Some(mode) => FirstIs(st.subscribers, Key(target), mode)
  }

  method NormalizeNotified(raw: map<string, Option<real>>) returns (notified: map<string, int>)
    ensures notified == NotifiedFrom(raw)
  {
    notified := map[];
    var rest := raw.Keys;
    while rest != {}
      invariant rest <= raw.Keys
      invariant notified == map id | id in raw && id !in rest && Kept(id, raw[id]) :: Trunc(raw[id].value)
      decreases |rest|
    {
      var id :| id in rest;
      rest := rest - {id};
      if Kept(id, raw[id]) {
        notified := notified[id := Trunc(raw[id].value)];
      }
    }
  }

  method NormalizeSubscribers(raw: seq<Option<RawSubscription>>, now: int) returns (subscribers: seq<Subscription>)
    ensures subscribers == SubscribersFrom(raw, now, |raw|)
  {
    subscribers := [];
    for k := 0 to |raw|
      invariant subscribers == SubscribersFrom(raw, now, k)
    {
      if HasRecipient(raw[k]) {
        subscribers := subscribers + [FromRecord(raw[k].value, now)];
      }
    }
  }

  method NormalizeNotifyState(raw: RawFile, now: int) returns (st: NotifyState)
    ensures st == FromFile(raw, now)
  {
    var subscribers := NormalizeSubscribers(raw.subscribers, now);
    var notified := NormalizeNotified(raw.notified);
    st := NotifyState(subscribers, notified);
  }

  method UpsertNotifySubscriber(subs: seq<Subscription>, target: Target, mode: Mode, now: Millis)
    returns (r: seq<Subscription>, changed: bool)
    ensures r == Upserted(subs, target, mode, now) && (changed <==> !Unchanged(subs, target, mode))
  {
    var index := FindKey(subs, Key(target), 0);
    var next := Subscription(target, mode, now);
    if index == |subs| {
      return subs + [next], true;
    }
    if subs[index].mode == mode {
      return subs, false;
    }
    return subs[index := next], true;
  }

  /** Requests that are no longer pending, or were told about more than a day ago, are forgotten. */
  method ForgetRequests(notified: map<string, int>, ids: set<string>, now: Millis)
    returns (kept: map<string, int>, changed: bool)
    ensures kept == Remembered(notified, ids, now) && (!changed ==> kept == notified)
  {
    kept, changed := notified, false;
    var rest := notified.Keys;
    while rest != {}
      invariant rest <= notified.Keys && (!changed ==> kept == notified)
      invariant kept == map id | id in notified
                          && (id in rest || (id in ids && now - notified[id] <= MAX_SEEN_AGE_MS)) :: notified[id]
      decreases |rest|
    {
      var id :| id in rest;
      rest := rest - {id};
      if id !in ids || now - notified[id] > MAX_SEEN_AGE_MS {
        kept := kept - {id};
        changed := true;
      }
    }
  }

  /** One request, to every subscriber that should hear of it. */
  method NotifyAll(subs: seq<Subscription>, request: Request, sends: Sends)
    returns (tries: seq<Attempt>, delivered: bool)
    ensures tries == Tries(subs, request, sends, |subs|) && delivered == AnySent(tries)
  {
    tries, delivered := [], false;
    for m := 0 to |subs|
      invariant tries == Tries(subs, request, sends, m) && delivered == AnySent(tries)
    {
      if ShouldNotify(subs[m], request) {
        var attempt := Attempt(subs[m], request, sends(subs[m], request));
        AnySentMore(tries, attempt);
        delivered := delivered || attempt.sent;
        tries := tries + [attempt];
      }
    }
  }

  lemma AnySentMore(log: seq<Attempt>, a: Attempt)
    ensures AnySent(log + [a]) <==> AnySent(log) || a.sent
  {
    var more := log + [a];
    assert more[|log|] == a;
    if AnySent(log) {
      var k :| 0 <= k < |log| && log[k].sent;
      assert more[k].sent;
    }
  }

  method FilterSubscribers(subs: seq<Subscription>, done: set<string>) returns (r: seq<Subscription>)
    ensures r == Remaining(subs, done, |subs|)
  {
    r := [];
    for k := 0 to |subs|
      invariant r == Remaining(subs, done, k)
    {
      if Key(subs[k].target) !in done {
        r := r + [subs[k]];
      }
    }
  }

  lemma {:induction false} RemainingLength(subs: seq<Subscription>, done: set<string>, n: nat)
    requires n <= |subs|
    ensures |Remaining(subs, done, n)| <= n
    ensures |Remaining(subs, done, n)| == n ==> Remaining(subs, done, n) == subs[..n]
  {
    if n > 0 {
      RemainingLength(subs, done, n - 1);
      PrefixGrows(subs, n);
    }
  }

  /** Every pending request that is not remembered, to every subscriber. */
  method DeliverAll(st: NotifyState, known: map<string, int>, pending: seq<Request>, sends: Sends, now: Millis)
    returns (p: Progress, changed: bool)
    ensures p == Rounds(st.subscribers, pending, sends, now, known, |pending|)
    ensures !changed ==> p.notified == known
  {
    p, changed := Progress(known, []), false;
    for n := 0 to |pending|
      invariant p == Rounds(st.subscribers, pending, sends, now, known, n) && (!changed ==> p.notified == known)
    {
      var request := pending[n];
      if request.requestId !in p.notified {
        var tries, delivered := NotifyAll(st.subscribers, request, sends);
        var notified := p.notified;
        if delivered {
          notified := notified[request.requestId := now];
          changed := true;
        }
        p := Progress(notified, p.log + tries);
      }
    }
  }

  lemma NoSubscribersNoRounds(pending: seq<Request>, sends: Sends, now: int, known: map<string, int>, n: nat)
    requires n <= |pending|
    ensures Rounds([], pending, sends, now, known, n) == Progress(known, [])
  {
    if n > 0 {
      NoSubscribersNoRounds(pending, sends, now, known, n - 1);
    }
  }

  lemma OffNobody(st: NotifyState, target: Target)
    requires NormalState(st) && FindKey(st.subscribers, Key(target), 0) == |st.subscribers|
    ensures Step(st, Off(target)) == st
  {
    NormalizeIsNormal(st);
    assert st.(subscribers := st.subscribers) == st;
  }

  class Service {
    var file: Option<NotifyState>

    constructor ()
      ensures Read(file) == NOTHING
    {
      file := None;
    }

    method ReadNotifyState(now: Millis) returns (st: NotifyState)
      ensures st == Read(file)
    {
      if file.None? {
        return NOTHING;
      }
      st := NormalizeNotifyState(Written(file.value), now);
      WrittenReadsAs(file.value, now);
    }

    method NotifyPendingPairingRequests(pending: seq<Request>, sends: Sends, now: Millis) returns (log: seq<Attempt>)
      modifies this
      ensures Read(file) == Step(old(Read(file)), Poll(pending, sends, now))
      ensures log == Log(old(Read(file)), Poll(pending, sends, now))
    {
      var st := ReadNotifyState(now);
      var known, changed := ForgetRequests(st.notified, Ids(pending), now);
      var after := NotifyState(st.subscribers, known);
      log := [];
      if |st.subscribers| > 0 {
        var p, delivered := DeliverAll(st, known, pending, sends, now);
        log := p.log;
        var subscribers := FilterSubscribers(st.subscribers, OneShotKeys(p.log));
        RemainingLength(st.subscribers, OneShotKeys(p.log), |st.subscribers|);
        assert st.subscribers[..|st.subscribers|] == st.subscribers;
        changed := changed || delivered || |subscribers| != |st.subscribers|;
        after := NotifyState(subscribers, p.notified);
      } else {
        NoSubscribersNoRounds(pending, sends, now, known, |pending|);
      }
      assert after == Polled(st, pending, sends, now);
      if changed {
        file := Some(after);
      } else {
        ReadIsNormal(file);
        NormalizeIsNormal(st);
      }
    }

    /** Reads the file, changes the subscribers, and writes the file again if there was a change. */
    method ArmSubscriber(target: Target, mode: Mode, now: Millis)
      modifies this
      ensures Read(file) == Step(old(Read(file)), Arm(target, mode, now))
    {
      var st := ReadNotifyState(now);
      ReadIsNormal(file);
      NormalizeIsNormal(st);
      var subs, changed := UpsertNotifySubscriber(st.subscribers, target, mode, now);
      if changed {
        file := Some(st.(subscribers := subs));
      } else {
        assert st.(subscribers := subs) == st;
      }
    }

    method RemoveSubscriber(target: Target, now: Millis)
      modifies this
      ensures Read(file) == Step(old(Read(file)), Off(target))
    {
      var st := ReadNotifyState(now);
      var current := FindKey(st.subscribers, Key(target), 0);
      if current != |st.subscribers| {
        var after := st.(subscribers := st.subscribers[..current] + st.subscribers[current+1..]);
        assert after.subscribers == WithoutKey(st.subscribers, Key(target));
        file := Some(after);
      } else {
        ReadIsNormal(file);
        OffNobody(st, target);
      }
    }

    method HandleNotifyCommand(telegram: bool, ctx: Context, action: string, now: Millis, pending: nat)
      returns (reply: Reply)
      modifies this
      ensures !telegram ==> reply == TelegramOnly && Read(file) == old(Read(file))
      ensures telegram && ResolveTarget(ctx).None? ==> reply == NoTarget && Read(file) == old(Read(file))
      ensures telegram && ResolveTarget(ctx).Some? ==>
                var target, before := ResolveTarget(ctx).value, old(Read(file));
                if action in ["on", "enable"]
                then reply == TurnedOn && Read(file) == Step(before, Arm(target, Persistent, now))
                else if action in ["off", "disable"]
                then reply == TurnedOff && Read(file) == Step(before, Off(target))
                else if action in ["once", "arm"]
                then reply == ArmedOnce && Read(file) == Step(before, Arm(target, Once, now))
                else if action in ["status", ""]
                then Reports(before, target, pending, reply) && Read(file) == before
                else reply == Usage && Read(file) == before
    {
      if !telegram {
        return TelegramOnly;
      }
      var resolved := ResolveTarget(ctx);
      if resolved.None? {
        return NoTarget;
      }
      var target := resolved.value;
      var st := ReadNotifyState(now);
      var current := FindKey(st.subscribers, Key(target), 0);
      if action == "on" || action == "enable" {
        ArmSubscriber(target, Persistent, now);
        return TurnedOn;
      }
      if action == "off" || action == "disable" {
        RemoveSubscriber(target, now);
        return TurnedOff;
      }
      if action == "once" || action == "arm" {
        ArmSubscriber(target, Once, now);
        return ArmedOnce;
      }
      if action == "status" || action == "" {
        return Status(if current == |st.subscribers| then None else Some(st.subscribers[current].mode),
                      |st.subscribers|, pending);
      }
      return Usage;
    }
  }

  lemma ReadIsNormal(file: Option<NotifyState>)
    ensures NormalState(Read(file))
  {
    if file.Some? {
      NormalizeIsNormal(file.value);
    }
  }
}
