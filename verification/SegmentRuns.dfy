/** What a run over segments adds to the memory, and which segments it puts in place. */
module SegmentRuns {
  import opened Wrappers
  import opened TranslationMemory
  import opened Segments

  // ------------------------------------------------------------------ what a run adds

  /** The entry is that of a segment the translator was asked for. */
  ghost predicate Remembers(w: World, segs: seq<Segment>, relPath: string, key: string, e: Entry) {
    exists i :: 0 <= i < |segs| && key == SegmentKey(w, segs[i]) && w.translate(segs[i].text) == Success(e.translated)
      && e == Entry(key, segs[i].segmentId, relPath, segs[i].textHash, segs[i].text, e.translated)
  }

  lemma RemembersMore(w: World, segs: seq<Segment>, relPath: string, key: string, e: Entry)
    requires segs != [] && Remembers(w, segs[1..], relPath, key, e)
    ensures Remembers(w, segs, relPath, key, e)
  {
    var i :| 0 <= i < |segs[1..]| && key == SegmentKey(w, segs[1..][i])
      && w.translate(segs[1..][i].text) == Success(e.translated)
      && e == Entry(key, segs[1..][i].segmentId, relPath, segs[1..][i].textHash, segs[1..][i].text, e.translated);
    assert segs[i+1] == segs[1..][i];
  }

  /** Whatever a run leaves in the memory was there before, or is the record of one of its segments: the document, the
      segment, its text and hash, and what the translator gave. */
  lemma {:induction false} EntriesAreOfSegments(
    w: World, entries: map<string, Entry>, segs: seq<Segment>, relPath: string, key: string)
    requires key in Processed(w, entries, segs, relPath).entries
    ensures var e := Processed(w, entries, segs, relPath).entries[key];
            (key in entries && entries[key] == e) || Remembers(w, segs, relPath, key, e)
    decreases |segs|
  {
    if segs != [] && Given(w, entries, segs[0]).Success? {
      var out := Given(w, entries, segs[0]).value;
      var between := Remembering(w, entries, segs[0], relPath, out);
      EntriesAreOfSegments(w, between, segs[1..], relPath, key);
      var e := Processed(w, entries, segs, relPath).entries[key];
      if !(key in between && between[key] == e) {
        RemembersMore(w, segs, relPath, key, e);
      }
    }
  }

  // ------------------------------------------------------------------ segments that overlap

  /** Where the last segment put in place before segment i ends. */
  function EndBefore(segs: seq<Segment>, i: nat): nat
    requires i <= |segs|
    decreases i, 0
  {
    if i == 0 then 0 else if PutInPlace(segs, i - 1) then segs[i-1].stop else EndBefore(segs, i - 1)
  }

  /** A segment is put in place exactly when it begins at or after the end of the last one that was. */
  predicate PutInPlace(segs: seq<Segment>, i: nat)
    requires i < |segs|
    decreases i, 1
  {
    EndBefore(segs, i) <= segs[i].start
  }

  /** The segments that are put in place, of those from i on. */
  function InPlaceFrom(segs: seq<Segment>, i: nat): seq<Segment>
    requires i <= |segs|
    decreases |segs| - i
  {
    if i == |segs| then []
    else (if PutInPlace(segs, i) then [segs[i]] else []) + InPlaceFrom(segs, i + 1)
  }

  lemma SplicedNext(body: string, segs: seq<Segment>, i: nat)
    requires i < |segs| && InBody(body, segs) && EndBefore(segs, i) <= |body|
    ensures EndBefore(segs, i + 1) <= |body|
    ensures Spliced(body, segs[i..], EndBefore(segs, i))
         == if PutInPlace(segs, i)
            then body[EndBefore(segs, i)..segs[i].start] + segs[i].translated
                 + Spliced(body, segs[i+1..], EndBefore(segs, i + 1))
            else Spliced(body, segs[i+1..], EndBefore(segs, i + 1))
  {
    assert segs[i..][0] == segs[i] && segs[i..][1..] == segs[i+1..];
  }

  lemma InPlaceNext(segs: seq<Segment>, i: nat)
    requires i < |segs|
    ensures InPlaceFrom(segs, i)
         == if PutInPlace(segs, i) then [segs[i]] + InPlaceFrom(segs, i + 1) else InPlaceFrom(segs, i + 1)
  {
  }

  lemma FirstSpliced(body: string, s: Segment, rest: seq<Segment>, last: nat)
    requires last <= s.start <= s.stop <= |body| && InBody(body, rest)
    ensures InBody(body, [s] + rest)
    ensures Spliced(body, [s] + rest, last) == body[last..s.start] + s.translated + Spliced(body, rest, s.stop)
    ensures InOrder(body, rest, s.stop) ==> InOrder(body, [s] + rest, last)
  {
    assert ([s] + rest)[1..] == rest;
  }

  lemma {:induction false} SplicedFrom(body: string, segs: seq<Segment>, i: nat)
    requires i <= |segs| && InBody(body, segs) && EndBefore(segs, i) <= |body|
    ensures InOrder(body, InPlaceFrom(segs, i), EndBefore(segs, i))
    ensures InBody(body, InPlaceFrom(segs, i))
    ensures Spliced(body, segs[i..], EndBefore(segs, i)) == Spliced(body, InPlaceFrom(segs, i), EndBefore(segs, i))
    decreases |segs| - i
  {
    if i < |segs| {
      SplicedNext(body, segs, i);
      SplicedFrom(body, segs, i + 1);
      InPlaceNext(segs, i);
      if PutInPlace(segs, i) {
        FirstSpliced(body, segs[i], InPlaceFrom(segs, i + 1), EndBefore(segs, i));
      }
    }
  }

  /** Of segments in any order, overlapping or not, exactly those put in place take part: the result is the stretches
      of the body around them with their translations between. */
  lemma SplicedInPlace(body: string, segs: seq<Segment>)
    requires InBody(body, segs)
    ensures var placed := InPlaceFrom(segs, 0);
            && InOrder(body, placed, 0)
            && |Gaps(body, placed, 0)| == |placed| + 1
            && Spliced(body, segs, 0) == Weave(Gaps(body, placed, 0), Translations(placed))
  {
    SplicedFrom(body, segs, 0);
    assert segs[0..] == segs;
    OnlySegmentsChange(body, InPlaceFrom(segs, 0), 0);
  }
}
