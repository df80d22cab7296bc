/** Translating a document segment by segment through the translation memory, and splicing the
    translations into the document. */
module Segments {
  import opened Wrappers
  import opened Text
  import opened TranslationMemory

  datatype Segment = Segment(
    start: nat, stop: nat, text: string, textHash: string, segmentId: string, translated: string, cacheKey: string)

  // ------------------------------------------------------------------ the memory of a run

  /** Every entry holds what the translator says about its text, under the key of that text. */
  ghost predicate Faithful(w: World, uses: set<Use>, entries: map<string, Entry>) {
    && Keyed(entries)
    && forall k :: k in entries ==>
         var u := Use(entries[k].segmentId, entries[k].text);
         u in uses && k == KeyOf(w, u) && w.translate(u.text) == Success(entries[k].translated)
  }

  /** `out` is the translation of a text that was met under the same segment and has the same normal form. */
  ghost predicate Serves(w: World, uses: set<Use>, u: Use, out: string) {
    exists t :: Use(u.segmentId, t) in uses && NormalizeText(t) == NormalizeText(u.text)
                && w.translate(t) == Success(out)
  }

  lemma HitServes(w: World, uses: set<Use>, entries: map<string, Entry>, u: Use)
    requires GoodHash(w, uses) && Faithful(w, uses, entries) && u in uses && KeyOf(w, u) in entries
    ensures Serves(w, uses, u, entries[KeyOf(w, u)].translated)
  {
    var e := entries[KeyOf(w, u)];
    SameKeyExactlyWhen(w, uses, Use(e.segmentId, e.text), u);
  }

  lemma PutFaithful(w: World, uses: set<Use>, entries: map<string, Entry>, e: Entry)
    requires GoodHash(w, uses) && Faithful(w, uses, entries) && Use(e.segmentId, e.text) in uses
    requires e.cacheKey == KeyOf(w, Use(e.segmentId, e.text)) && w.translate(e.text) == Success(e.translated)
    ensures e.cacheKey != "" && Faithful(w, uses, entries[e.cacheKey := e])
  {
    assert |e.cacheKey| == 64;
  }

  /** Entries that could answer a lookup are never lost or changed. */
  ghost predicate Extends(before: map<string, Entry>, after: map<string, Entry>) {
    forall k :: Lookup(before, k).Some? ==> k in after && after[k] == before[k]
  }

  /** A front matter value: the same lookup, without a segment. */
  method TranslateSnippet(w: World, ghost uses: set<Use>, tm: Memory, segmentId: string, text: string)
    returns (r: Result<string, string>)
    requires GoodHash(w, uses) && Faithful(w, uses, tm.entries) && Use(segmentId, text) in uses
    modifies tm
    ensures Faithful(w, uses, tm.entries) && Extends(old(tm.entries), tm.entries)
    ensures match r
            case Failure(e) => w.translate(text) == Failure(e) && tm.entries == old(tm.entries)
            case Success(out) => if Blank(text) then out == text else Serves(w, uses, Use(segmentId, text), out)
    ensures var key := KeyOf(w, Use(segmentId, text));
            tm.entries == if Blank(text) || old(Lookup(tm.entries, key)).Some? || r.Failure? then old(tm.entries)
                          else old(tm.entries)[
                                 key := Entry(key, segmentId, segmentId, HashText(w, text), text, r.value)]
    ensures var key := KeyOf(w, Use(segmentId, text));
            !Blank(text) ==> r == match old(Lookup(tm.entries, key))
                                  case Some(e) => Success(e.translated)
                                  case None => w.translate(text)
  {
    if Blank(text) {
      return Success(text);
    }
    var textHash := HashText(w, text);
    var key := CacheKey(w, segmentId, textHash);
    var entry := tm.Get(key);
    if entry.Some? {
      HitServes(w, uses, tm.entries, Use(segmentId, text));
      return Success(entry.value.translated);
    }
    r := w.translate(text);
    if r.Success? {
      var e := Entry(key, segmentId, segmentId, textHash, text, r.value);
      PutFaithful(w, uses, tm.entries, e);
      tm.Put(e);
    }
  }

  // ------------------------------------------------------------------ the segment loop

  function UseOf(s: Segment): Use {
    Use(s.segmentId, s.text)
  }

  function SegmentKey(w: World, s: Segment): string {
    CacheKey(w, s.segmentId, s.textHash)
  }

  /** A segment as the extraction delivers it. */
  ghost predicate Extracted(w: World, uses: set<Use>, s: Segment) {
    UseOf(s) in uses && s.textHash == HashText(w, s.text)
  }

  /** Only the translation and the key of a segment are filled in. */
  predicate SameSource(s: Segment, t: Segment) {
    t == s.(translated := t.translated, cacheKey := t.cacheKey)
  }

  /** The segment has its key and a translation it may have, and the memory gives the same answer. */
  ghost predicate Settled(w: World, uses: set<Use>, entries: map<string, Entry>, s: Segment) {
    && Serves(w, uses, UseOf(s), s.translated)
    && s.cacheKey == SegmentKey(w, s)
    && (!Blank(s.translated) ==>
          Lookup(entries, s.cacheKey).Some? && entries[s.cacheKey].translated == s.translated)
  }

  /** What a segment is given: the memory's answer, or else the translator's. */
  function Given(w: World, entries: map<string, Entry>, s: Segment): Result<string, string> {
    match Lookup(entries, SegmentKey(w, s))
    case Some(e) => Success(e.translated)
    case None => w.translate(s.text)
  }

  /** What the memory holds after the segment was given `out`. */
  function Remembering(w: World, entries: map<string, Entry>, s: Segment, relPath: string, out: string)
    : map<string, Entry>
  {
    var key := SegmentKey(w, s);
    if Lookup(entries, key).Some? || key == "" then entries
    else entries[key := Entry(key, s.segmentId, relPath, s.textHash, s.text, out)]
  }

  function Filled(w: World, s: Segment, out: string): Segment {
    s.(cacheKey := SegmentKey(w, s), translated := out)
  }

  datatype Outcome = Outcome(entries: map<string, Entry>, segments: seq<Segment>, err: Option<string>)

  /** The memory and the segments after the loop, and the error that ended it. */
  function Processed(w: World, entries: map<string, Entry>, segs: seq<Segment>, relPath: string): (o: Outcome)
    ensures |o.segments| == |segs|
    decreases |segs|
  {
    if segs == [] then Outcome(entries, [], None)
    else
      var s := segs[0];
      match Given(w, entries, s)
      case Failure(e) => Outcome(entries, [s.(cacheKey := SegmentKey(w, s))] + segs[1..], Some(e))
      case Success(out) =>
        After([Filled(w, s, out)], Processed(w, Remembering(w, entries, s, relPath, out), segs[1..], relPath))
  }

  function After(done: seq<Segment>, o: Outcome): Outcome {
    o.(segments := done + o.segments)
  }

  /** Where the loop stands at segment i: what is done and what is still to come make up the whole. */
  ghost predicate Underway(
    w: World, entries: map<string, Entry>, segs: seq<Segment>, i: nat, relPath: string, whole: Outcome)
  {
    i <= |segs| && After(segs[..i], Processed(w, entries, segs[i..], relPath)) == whole
  }

  lemma SegmentDone(
    w: World, entries: map<string, Entry>, segs: seq<Segment>, i: nat, relPath: string, whole: Outcome, out: string)
    requires Underway(w, entries, segs, i, relPath, whole) && i < |segs| && Given(w, entries, segs[i]) == Success(out)
    ensures Underway(w, Remembering(w, entries, segs[i], relPath, out), segs[i := Filled(w, segs[i], out)], i + 1,
                     relPath, whole)
  {
    var s := Filled(w, segs[i], out);
    var tail := Processed(w, Remembering(w, entries, segs[i], relPath, out), segs[i+1..], relPath).segments;
    assert segs[i..][0] == segs[i] && segs[i..][1..] == segs[i+1..];
    assert segs[i := s][..i+1] == segs[..i] + [s] && segs[i := s][i+1..] == segs[i+1..];
    assert segs[..i] + ([s] + tail) == segs[..i] + [s] + tail;
  }

  lemma SegmentFailed(
    w: World, entries: map<string, Entry>, segs: seq<Segment>, i: nat, relPath: string, whole: Outcome, e: string)
    requires Underway(w, entries, segs, i, relPath, whole) && i < |segs| && Given(w, entries, segs[i]) == Failure(e)
    ensures whole == Outcome(entries, segs[i := segs[i].(cacheKey := SegmentKey(w, segs[i]))], Some(e))
  {
    assert segs[i..][0] == segs[i] && segs[i..][1..] == segs[i+1..];
  }

  /** The body of the segment loop, for one segment. */
  method TranslateSegment(w: World, tm: Memory, seg: Segment, relPath: string)
    returns (seg': Segment, err: Option<string>)
    modifies tm
    ensures match Given(w, old(tm.entries), seg)
            case Failure(e) =>
              err == Some(e) && seg' == seg.(cacheKey := SegmentKey(w, seg)) && tm.entries == old(tm.entries)
            case Success(out) =>
              && err == None && seg' == Filled(w, seg, out)
              && tm.entries == Remembering(w, old(tm.entries), seg, relPath, out)
  {
    seg' := seg.(cacheKey := SegmentKey(w, seg));
    var entry := tm.Get(seg'.cacheKey);
    if entry.Some? {
      seg' := seg'.(translated := entry.value.translated);
      return seg', None;
    }
    var translated := w.translate(seg.text);
    if translated.Failure? {
      return seg', Some(translated.error);
    }
    seg' := seg'.(translated := translated.value);
    tm.Put(Entry(seg'.cacheKey, seg.segmentId, relPath, seg.textHash, seg.text, translated.value));
    err := None;
  }

  /** The segment loop. */
  method ProcessSegments(w: World, tm: Memory, segments: array<Segment>, relPath: string) returns (err: Option<string>)
    modifies segments, tm
    ensures Outcome(tm.entries, segments[..], err) == Processed(w, old(tm.entries), old(segments[..]), relPath)
  {
    ghost var whole := Processed(w, tm.entries, segments[..], relPath);
    assert segments[..][0..] == segments[..] && segments[..][..0] == [];
    for i := 0 to segments.Length
      invariant Underway(w, tm.entries, segments[..], i, relPath, whole)
    {
      ghost var entries, segs := tm.entries, segments[..];
      var seg, failed := TranslateSegment(w, tm, segments[i], relPath);
      segments[i] := seg;
      assert segments[..] == segs[i := seg];
      if failed.Some? {
        SegmentFailed(w, entries, segs, i, relPath, whole, failed.value);
        return failed;
      }
      SegmentDone(w, entries, segs, i, relPath, whole, seg.translated);
    }
    err := None;
  }

  // ------------------------------------------------------------------ what the segments get

  lemma OneServed(w: World, uses: set<Use>, entries: map<string, Entry>, s: Segment, relPath: string, out: string)
    requires GoodHash(w, uses) && Faithful(w, uses, entries) && Extracted(w, uses, s)
    requires Given(w, entries, s) == Success(out)
    ensures Faithful(w, uses, Remembering(w, entries, s, relPath, out))
    ensures Extends(entries, Remembering(w, entries, s, relPath, out))
    ensures Settled(w, uses, Remembering(w, entries, s, relPath, out), Filled(w, s, out))
  {
    assert SegmentKey(w, s) == KeyOf(w, UseOf(s));
    if Lookup(entries, SegmentKey(w, s)).Some? {
      HitServes(w, uses, entries, UseOf(s));
    } else {
      PutFaithful(w, uses, entries, Entry(SegmentKey(w, s), s.segmentId, relPath, s.textHash, s.text, out));
    }
  }

  lemma SettledStays(w: World, uses: set<Use>, before: map<string, Entry>, after: map<string, Entry>, s: Segment)
    requires Settled(w, uses, before, s) && Extends(before, after)
    ensures Settled(w, uses, after, s)
  {
  }

  lemma {:induction false} PlacesStay(w: World, entries: map<string, Entry>, segs: seq<Segment>, relPath: string)
    ensures forall i :: 0 <= i < |segs| ==> SameSource(segs[i], Processed(w, entries, segs, relPath).segments[i])
    decreases |segs|
  {
    if segs != [] && Given(w, entries, segs[0]).Success? {
      PlacesStay(w, Remembering(w, entries, segs[0], relPath, Given(w, entries, segs[0]).value), segs[1..], relPath);
    }
  }

  ghost predicate AllSettled(w: World, uses: set<Use>, entries: map<string, Entry>, segs: seq<Segment>) {
    forall i :: 0 <= i < |segs| ==> Settled(w, uses, entries, segs[i])
  }

  ghost predicate SomeFails(w: World, segs: seq<Segment>, e: string) {
    exists i :: 0 <= i < |segs| && w.translate(segs[i].text) == Failure(e)
  }

  lemma OneMoreFails(w: World, segs: seq<Segment>, e: string)
    requires segs != [] && SomeFails(w, segs[1..], e)
    ensures SomeFails(w, segs, e)
  {
    var i :| 0 <= i < |segs[1..]| && w.translate(segs[1..][i].text) == Failure(e);
    assert segs[i+1] == segs[1..][i];
  }

  /** Every segment gets the translation of a text with its own normal form, the memory stays faithful, and afterwards
      it answers for every segment what the segment got. An error is the translator's. */
  ghost predicate RunServes(w: World, uses: set<Use>, entries: map<string, Entry>, segs: seq<Segment>, o: Outcome) {
    && Faithful(w, uses, o.entries) && Extends(entries, o.entries)
    && if o.err.Some? then SomeFails(w, segs, o.err.value) else AllSettled(w, uses, o.entries, o.segments)
  }

  lemma OneMoreServed(
    w: World, uses: set<Use>, entries: map<string, Entry>, between: map<string, Entry>, segs: seq<Segment>,
    first: Segment, o: Outcome)
    requires segs != [] && Extends(entries, between) && Settled(w, uses, between, first)
    requires RunServes(w, uses, between, segs[1..], o)
    ensures RunServes(w, uses, entries, segs, After([first], o))
  {
    if o.err.Some? {
      OneMoreFails(w, segs, o.err.value);
    } else {
      SettledStays(w, uses, between, o.entries, first);
    }
  }

  lemma {:induction false} EverySegmentIsServed(
    w: World, uses: set<Use>, entries: map<string, Entry>, segs: seq<Segment>, relPath: string)
    requires GoodHash(w, uses) && Faithful(w, uses, entries)
    requires forall i :: 0 <= i < |segs| ==> Extracted(w, uses, segs[i])
    ensures RunServes(w, uses, entries, segs, Processed(w, entries, segs, relPath))
    decreases |segs|
  {
    if segs == [] {
    } else {
      match Given(w, entries, segs[0])
      case Failure(e) => assert SomeFails(w, segs, e);
      case Success(out) =>
        var between := Remembering(w, entries, segs[0], relPath, out);
        OneServed(w, uses, entries, segs[0], relPath, out);
        EverySegmentIsServed(w, uses, between, segs[1..], relPath);
        OneMoreServed(w, uses, entries, between, segs, Filled(w, segs[0], out),
                      Processed(w, between, segs[1..], relPath));
    }
  }

  /** The loop ends without an error, and every segment has the translation of its own text. */
  ghost predicate AllOwn(w: World, segs: seq<Segment>, o: Outcome)
    requires |o.segments| == |segs|
  {
    o.err.None? && forall i :: 0 <= i < |segs| ==> w.translate(segs[i].text) == Success(o.segments[i].translated)
  }

  /** Something a memory would answer with later. */
  predicate Lasting(r: Result<string, string>) {
    r.Success? && !Blank(r.value)
  }

  ghost predicate AllTranslate(w: World, segs: seq<Segment>) {
    forall i :: 0 <= i < |segs| ==> w.translate(segs[i].text).Success?
  }

  /** What the memory holds for a segment is its own translation. */
  ghost predicate HeldIsOwn(w: World, entries: map<string, Entry>, segs: seq<Segment>) {
    forall i :: 0 <= i < |segs| && Lookup(entries, SegmentKey(w, segs[i])).Some? ==>
      w.translate(segs[i].text) == Success(entries[SegmentKey(w, segs[i])].translated)
  }

  /** A segment translates as an earlier one under its key does, unless that came out blank. */
  ghost predicate SameKeySameTranslation(w: World, segs: seq<Segment>) {
    forall i, j :: 0 <= i < j < |segs| && SegmentKey(w, segs[i]) == SegmentKey(w, segs[j])
                   && Lasting(w.translate(segs[i].text)) ==>
      w.translate(segs[j].text) == w.translate(segs[i].text)
  }

  lemma ConditionStep(w: World, entries: map<string, Entry>, segs: seq<Segment>, relPath: string, out: string)
    requires segs != [] && SegmentKey(w, segs[0]) != "" && Given(w, entries, segs[0]) == Success(out)
    requires w.translate(segs[0].text) == Success(out)
    ensures HeldIsOwn(w, entries, segs) && SameKeySameTranslation(w, segs) <==>
            && HeldIsOwn(w, Remembering(w, entries, segs[0], relPath, out), segs[1..])
            && SameKeySameTranslation(w, segs[1..])
  {
    var after, rest := Remembering(w, entries, segs[0], relPath, out), segs[1..];
    assert forall i :: 0 <= i < |rest| ==> rest[i] == segs[i+1];
    if HeldIsOwn(w, after, rest) && SameKeySameTranslation(w, rest) {
      forall i | 0 <= i < |segs| && Lookup(entries, SegmentKey(w, segs[i])).Some?
        ensures w.translate(segs[i].text) == Success(entries[SegmentKey(w, segs[i])].translated)
      {
        if i > 0 {
          assert segs[i] == rest[i-1];
        }
      }
      forall i, j | 0 <= i < j < |segs| && SegmentKey(w, segs[i]) == SegmentKey(w, segs[j])
                    && Lasting(w.translate(segs[i].text))
        ensures w.translate(segs[j].text) == w.translate(segs[i].text)
      {
        assert segs[j] == rest[j-1];
        if i > 0 {
          assert segs[i] == rest[i-1];
        }
      }
    }
  }

  lemma FirstIsOwn(w: World, segs: seq<Segment>, first: Segment, o: Outcome)
    requires segs != [] && |o.segments| == |segs| - 1 && w.translate(segs[0].text) == Success(first.translated)
    ensures AllOwn(w, segs, After([first], o)) <==> AllOwn(w, segs[1..], o)
  {
    var rest, all := segs[1..], After([first], o);
    if AllOwn(w, segs, all) {
      forall i | 0 <= i < |rest| ensures w.translate(rest[i].text) == Success(o.segments[i].translated) {
        assert rest[i] == segs[i+1] && o.segments[i] == all.segments[i+1];
      }
    }
    if AllOwn(w, rest, o) {
      forall i | 0 <= i < |segs| ensures w.translate(segs[i].text) == Success(all.segments[i].translated) {
        assert i > 0 ==> rest[i-1] == segs[i] && o.segments[i-1] == all.segments[i];
      }
    }
  }

  lemma FirstTranslates(w: World, segs: seq<Segment>)
    requires segs != [] && w.translate(segs[0].text).Success?
    ensures AllTranslate(w, segs) <==> AllTranslate(w, segs[1..])
  {
    assert forall i :: 0 < i < |segs| ==> segs[i] == segs[1..][i-1];
  }

  /** From any memory, every segment gets its own translation exactly when each text translates, what the memory
      holds already is right, and segments under one key translate alike. */
  lemma {:induction false} OwnTranslationsExactlyWhen(
    w: World, entries: map<string, Entry>, segs: seq<Segment>, relPath: string)
    requires forall a :: w.sha256(a) != ""
    ensures AllOwn(w, segs, Processed(w, entries, segs, relPath)) <==>
            AllTranslate(w, segs) && HeldIsOwn(w, entries, segs) && SameKeySameTranslation(w, segs)
    decreases |segs|
  {
    if segs != [] {
      var given, rest := Given(w, entries, segs[0]), segs[1..];
      if given.Success? && w.translate(segs[0].text) == given {
        ConditionStep(w, entries, segs, relPath, given.value);
        OwnTranslationsExactlyWhen(w, Remembering(w, entries, segs[0], relPath, given.value), rest, relPath);
        var o := Processed(w, Remembering(w, entries, segs[0], relPath, given.value), rest, relPath);
        FirstIsOwn(w, segs, Filled(w, segs[0], given.value), o);
        FirstTranslates(w, segs);
      }
    }
  }

  lemma SegmentKeyIsKeyOf(w: World, uses: set<Use>, segs: seq<Segment>)
    requires GoodHash(w, uses) && forall i :: 0 <= i < |segs| ==> Extracted(w, uses, segs[i])
    ensures forall i, j :: 0 <= i < |segs| && 0 <= j < |segs| ==>
              (SegmentKey(w, segs[i]) == SegmentKey(w, segs[j]) <==>
               segs[i].segmentId == segs[j].segmentId && NormalizeText(segs[i].text) == NormalizeText(segs[j].text))
  {
    forall i, j | 0 <= i < |segs| && 0 <= j < |segs|
      ensures SegmentKey(w, segs[i]) == SegmentKey(w, segs[j]) <==>
              segs[i].segmentId == segs[j].segmentId && NormalizeText(segs[i].text) == NormalizeText(segs[j].text)
    {
      SameKeyExactlyWhen(w, uses, UseOf(segs[i]), UseOf(segs[j]));
    }
  }

  /** A text translates as an earlier one of the same segment and normal form does, unless that came out blank. */
  ghost predicate SameFormSameTranslation(w: World, segs: seq<Segment>) {
    forall i, j :: 0 <= i < j < |segs| && segs[i].segmentId == segs[j].segmentId
                   && NormalizeText(segs[i].text) == NormalizeText(segs[j].text)
                   && Lasting(w.translate(segs[i].text)) ==>
      w.translate(segs[j].text) == w.translate(segs[i].text)
  }

  /** From an empty memory, every segment gets its own translation exactly when each text translates, and texts of
      one segment and one normal form translate alike. */
  lemma FreshRunIsOwnExactlyWhen(w: World, uses: set<Use>, segs: seq<Segment>, relPath: string)
    requires GoodHash(w, uses) && forall i :: 0 <= i < |segs| ==> Extracted(w, uses, segs[i])
    ensures AllOwn(w, segs, Processed(w, map[], segs, relPath)) <==>
            AllTranslate(w, segs) && SameFormSameTranslation(w, segs)
  {
    assert forall a :: |w.sha256(a)| == 64;
    OwnTranslationsExactlyWhen(w, map[], segs, relPath);
    SegmentKeyIsKeyOf(w, uses, segs);
  }

  /** So it need not: of two texts of one segment and one normal form, the second is answered with the translation
      of the first, whatever its own is. */
  lemma SharedNormalFormIsAnsweredAlike(w: World, s: Segment, t: Segment, relPath: string, a: string)
    requires (forall x :: w.sha256(x) != "") && s.segmentId == t.segmentId
    requires s.textHash == HashText(w, s.text) && t.textHash == HashText(w, t.text)
    requires NormalizeText(s.text) == NormalizeText(t.text)
    requires w.translate(s.text) == Success(a) && !Blank(a)
    ensures var o := Processed(w, map[], [s, t], relPath);
            o.err.None? && o.segments[0].translated == a && o.segments[1].translated == a
  {
    var entries := Remembering(w, map[], s, relPath, a);
    assert [s, t][1..] == [t] && [t][1..] == [];
    assert Given(w, entries, t) == Success(a);
    var last := Processed(w, Remembering(w, entries, t, relPath, a), [], relPath);
    assert Processed(w, entries, [t], relPath) == After([Filled(w, t, a)], last);
  }

  /** From any faithful memory, fresh or reloaded, a run over texts that differ in their normal forms gives every
      segment its own translation. */
  lemma DistinctFormsAreOwn(
    w: World, uses: set<Use>, entries: map<string, Entry>, segs: seq<Segment>, relPath: string)
    requires GoodHash(w, uses) && Faithful(w, uses, entries) && AllTranslate(w, segs)
    requires forall i :: 0 <= i < |segs| ==> Extracted(w, uses, segs[i])
    requires forall s, t, id :: Use(id, s) in uses && Use(id, t) in uses && NormalizeText(s) == NormalizeText(t) ==>
               s == t
    ensures AllOwn(w, segs, Processed(w, entries, segs, relPath))
  {
    EverySegmentIsServed(w, uses, entries, segs, relPath);
    PlacesStay(w, entries, segs, relPath);
    var o := Processed(w, entries, segs, relPath);
    forall i | 0 <= i < |segs| && o.err.None?
      ensures w.translate(segs[i].text) == Success(o.segments[i].translated)
    {
      assert SameSource(segs[i], o.segments[i]) && Extracted(w, uses, segs[i]);
      assert Settled(w, uses, o.entries, o.segments[i]);
    }
  }

  /** Such runs there are: over any two uses, with any translator. */
  lemma RunOfTwo(u: Use, v: Use, translate: string -> Result<string, string>, prefix: string)
    returns (w: World, segs: seq<Segment>)
    ensures w.translate == translate && w.prefix == prefix && GoodHash(w, {u, v}) && Faithful(w, {u, v}, map[])
    ensures |segs| == 2 && UseOf(segs[0]) == u && UseOf(segs[1]) == v
    ensures forall i :: 0 <= i < |segs| ==> Extracted(w, {u, v}, segs[i])
  {
    w := HashForTwo(u, v, translate, prefix);
    segs := [Segment(0, 0, u.text, HashText(w, u.text), u.segmentId, "", ""),
             Segment(0, 0, v.text, HashText(w, v.text), v.segmentId, "", "")];
  }

  /** A memory that was saved and loaded again is as good as the one that was saved. */
  lemma ReloadedFaithful(w: World, uses: set<Use>, codec: Codec, entries: map<string, Entry>, keys: seq<string>)
    requires Lawful(codec) && Faithful(w, uses, entries) && (forall k :: k in keys <==> k in entries)
    ensures exists loaded ::
              Parsed(codec, Lines(codec, entries, keys), map[]) == Success(loaded)
              && Faithful(w, uses, loaded) && Extends(entries, loaded) && Extends(loaded, entries)
  {
    ReloadedAnswersAlike(codec, entries, keys);
    assert Faithful(w, uses, Usable(entries));
  }

  // ------------------------------------------------------------------ splicing

  ghost predicate InBody(body: string, segs: seq<Segment>) {
    forall i :: 0 <= i < |segs| ==> segs[i].start <= segs[i].stop <= |body|
  }

  function Spliced(body: string, segs: seq<Segment>, last: nat): string
    requires last <= |body| && InBody(body, segs)
    decreases |segs|
  {
    if segs == [] then body[last..]
    else if segs[0].start < last then Spliced(body, segs[1..], last)
    else body[last..segs[0].start] + segs[0].translated + Spliced(body, segs[1..], segs[0].stop)
  }

  method ApplyTranslations(body: string, segments: seq<Segment>) returns (out: string)
    requires InBody(body, segments)
    ensures out == Spliced(body, segments, 0)
  {
    if |segments| == 0 {
      return body;
    }
    out := "";
    var last: nat := 0;
    assert segments[0..] == segments;
    for i := 0 to |segments|
      invariant last <= |body|
      invariant out + Spliced(body, segments[i..], last) == Spliced(body, segments, 0)
    {
      var seg := segments[i];
      assert segments[i..][0] == seg && segments[i..][1..] == segments[i+1..];
      if seg.start < last {
        continue;
      }
      ghost var before := out;
      out := out + body[last..seg.start];
      out := out + seg.translated;
      ghost var tail := Spliced(body, segments[i+1..], seg.stop);
      assert before + (body[last..seg.start] + seg.translated + tail) == out + tail;
      last := seg.stop;
    }
    out := out + body[last..];
  }

  /** In order, without overlap, and not before `last`. */
  ghost predicate InOrder(body: string, segs: seq<Segment>, last: nat)
    decreases |segs|
  {
    if segs == [] then last <= |body|
    else last <= segs[0].start <= segs[0].stop <= |body| && InOrder(body, segs[1..], segs[0].stop)
  }

  /** The stretches of the body between the segments. */
  function Gaps(body: string, segs: seq<Segment>, last: nat): seq<string>
    requires InOrder(body, segs, last)
    decreases |segs|
  {
    if segs == [] then [body[last..]]
    else [body[last..segs[0].start]] + Gaps(body, segs[1..], segs[0].stop)
  }

  /** gap, word, gap, word, ..., gap */
  function Weave(gaps: seq<string>, words: seq<string>): string
    requires |gaps| == |words| + 1
  {
    if words == [] then gaps[0] else gaps[0] + words[0] + Weave(gaps[1..], words[1..])
  }

  function Translations(segs: seq<Segment>): seq<string> {
    seq(|segs|, i requires 0 <= i < |segs| => segs[i].translated)
  }

  function Originals(body: string, segs: seq<Segment>): seq<string>
    requires InBody(body, segs)
  {
    seq(|segs|, i requires 0 <= i < |segs| => body[segs[i].start..segs[i].stop])
  }

  /** Splicing keeps every stretch outside the segments: the body is those stretches with the originals
      between them, the output is the same stretches with the translations between them. */
  lemma {:induction false} OnlySegmentsChange(body: string, segs: seq<Segment>, last: nat)
    requires InOrder(body, segs, last)
    ensures last <= |body| && InBody(body, segs) && |Gaps(body, segs, last)| == |segs| + 1
    ensures body[last..] == Weave(Gaps(body, segs, last), Originals(body, segs))
    ensures Spliced(body, segs, last) == Weave(Gaps(body, segs, last), Translations(segs))
    decreases |segs|
  {
    if segs != [] {
      var s, rest := segs[0], segs[1..];
      OnlySegmentsChange(body, rest, s.stop);
      assert forall i :: 0 < i < |segs| ==> segs[i] == rest[i-1];
      assert Originals(body, segs)[1..] == Originals(body, rest);
      assert Translations(segs)[1..] == Translations(rest);
      assert Gaps(body, segs, last)[1..] == Gaps(body, rest, s.stop);
      assert body[last..] == body[last..s.start] + body[s.start..s.stop] + body[s.stop..];
    }
  }

  // ------------------------------------------------------------------ with and without the memory

  /** The segments with the translations of their own texts, without any memory. */
  function Uncached(w: World, segs: seq<Segment>): (r: seq<Segment>)
    requires AllTranslate(w, segs)
    ensures |r| == |segs| && forall i :: 0 <= i < |segs| ==> r[i].start == segs[i].start && r[i].stop == segs[i].stop
  {
    seq(|segs|, i requires 0 <= i < |segs| => segs[i].(translated := w.translate(segs[i].text).value))
  }

  lemma {:induction false} SplicedAlike(body: string, segs: seq<Segment>, others: seq<Segment>, last: nat)
    requires last <= |body| && InBody(body, segs) && |segs| == |others|
    requires forall i :: 0 <= i < |segs| ==>
               others[i].start == segs[i].start && others[i].stop == segs[i].stop
               && others[i].translated == segs[i].translated
    ensures InBody(body, others) && Spliced(body, segs, last) == Spliced(body, others, last)
    decreases |segs|
  {
    if segs != [] {
      SplicedAlike(body, segs[1..], others[1..], if segs[0].start < last then last else segs[0].stop);
    }
  }

  /** From any memory that is right about them, segments that translate alike under one key are spliced into the body
      as they would be without a memory. */
  lemma CachedBodyIsUncached(
    w: World, entries: map<string, Entry>, segs: seq<Segment>, relPath: string, body: string)
    requires (forall a :: w.sha256(a) != "") && InBody(body, segs)
    requires AllTranslate(w, segs) && HeldIsOwn(w, entries, segs) && SameKeySameTranslation(w, segs)
    ensures var o := Processed(w, entries, segs, relPath);
            && o.err.None? && InBody(body, o.segments)
            && Spliced(body, o.segments, 0) == Spliced(body, Uncached(w, segs), 0)
  {
    var o := Processed(w, entries, segs, relPath);
    OwnTranslationsExactlyWhen(w, entries, segs, relPath);
    PlacesStay(w, entries, segs, relPath);
    assert forall i :: 0 <= i < |segs| ==> SameSource(segs[i], o.segments[i]);
    SplicedAlike(body, o.segments, Uncached(w, segs), 0);
  }

  /** The body of a document: its segments translated through the memory, and put in place. */
  method TranslateBody(w: World, tm: Memory, body: string, segments: array<Segment>, relPath: string)
    returns (r: Result<string, string>)
    requires InBody(body, segments[..]) && (forall a :: w.sha256(a) != "")
    modifies segments, tm
    ensures var o := Processed(w, old(tm.entries), old(segments[..]), relPath);
            && tm.entries == o.entries && InBody(body, o.segments)
            && r == if o.err.None? then Success(Spliced(body, o.segments, 0)) else Failure(o.err.value)
    ensures AllTranslate(w, old(segments[..])) && HeldIsOwn(w, old(tm.entries), old(segments[..]))
            && SameKeySameTranslation(w, old(segments[..])) && InBody(body, old(segments[..])) ==>
              r == Success(Spliced(body, Uncached(w, old(segments[..])), 0))
  {
    ghost var entries, segs := tm.entries, segments[..];
    PlacesStay(w, entries, segs, relPath);
    var err := ProcessSegments(w, tm, segments, relPath);
    ghost var o := Processed(w, entries, segs, relPath);
    assert forall i :: 0 <= i < |segs| ==> SameSource(segs[i], o.segments[i]);
    if AllTranslate(w, segs) && HeldIsOwn(w, entries, segs) && SameKeySameTranslation(w, segs) {
      CachedBodyIsUncached(w, entries, segs, relPath, body);
    }
    if err.Some? {
      return Failure(err.value);
    }
    var out := ApplyTranslations(body, segments[..]);
    r := Success(out);
  }
}
