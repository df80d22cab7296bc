/** An encoding of memory entries, one line each, that can be read back: what is assumed of the file's encoding can be
    met. */
module EntryCodec {
  import opened Wrappers
  import opened Text
  import opened TranslationMemory

  /** One text, character by character. */
  function Spelled(s: string): string {
    if s == "" then ";" else Digits(s[0] as int) + ("," + Spelled(s[1..]))
  }

  function SpelledEntry(e: Entry): string {
    "[" + (Spelled(e.cacheKey) + (Spelled(e.segmentId) + (Spelled(e.sourcePath) +
    (Spelled(e.textHash) + (Spelled(e.text) + (Spelled(e.translated) + "]"))))))
  }

  /** Digits end where they end. */
  lemma DigitsSplit(m: nat, r: string, n: nat, q: string)
    requires Digits(m) + ("," + r) == Digits(n) + ("," + q)
    ensures m == n && r == q
  {
    var a, b := Digits(m), Digits(n);
    var all := a + ("," + r);
    DigitsAreDigits(m);
    DigitsAreDigits(n);
    assert all[|a|] == ',' && all[|b|] == ',';
    assert forall k :: 0 <= k < |a| ==> all[k] == a[k];
    assert forall k :: 0 <= k < |b| ==> all[k] == b[k];
    assert all[..|a|] == a && all[..|b|] == b;
    assert all[|a|+1..] == r && all[|b|+1..] == q;
    DigitsInjective(m, n);
  }

  lemma {:induction false} SpelledSplit(s: string, r: string, t: string, q: string)
    requires Spelled(s) + r == Spelled(t) + q
    ensures s == t && r == q
    decreases |s|
  {
    SpelledStarts(s);
    SpelledStarts(t);
    assert (Spelled(s) + r)[0] == Spelled(s)[0] && (Spelled(t) + q)[0] == Spelled(t)[0];
    if s == "" || t == "" {
      assert (Spelled(s) + r)[1..] == r && (Spelled(t) + q)[1..] == q;
    } else {
      SpelledMore(s, r);
      SpelledMore(t, q);
      DigitsSplit(s[0] as int, Spelled(s[1..]) + r, t[0] as int, Spelled(t[1..]) + q);
      SpelledSplit(s[1..], r, t[1..], q);
      assert s == [s[0]] + s[1..] && t == [t[0]] + t[1..];
    }
  }

  lemma SpelledStarts(s: string)
    ensures Spelled(s) != "" && (Spelled(s)[0] == ';' <==> s == "")
  {
    if s != "" {
      DigitsAreDigits(s[0] as int);
    }
  }

  lemma SpelledMore(s: string, r: string)
    requires s != ""
    ensures Spelled(s) + r == Digits(s[0] as int) + ("," + (Spelled(s[1..]) + r))
  {
  }

  predicate Plain(s: string) {
    forall c :: c in s ==> IsDigit(c) || c in ",;[]"
  }

  lemma {:induction false} SpelledIsPlain(s: string)
    ensures Plain(Spelled(s))
  {
    if s != "" {
      DigitsAreDigits(s[0] as int);
      SpelledIsPlain(s[1..]);
    }
  }

  lemma EntrySplit(d: Entry, e: Entry)
    requires SpelledEntry(d) == SpelledEntry(e)
    ensures d == e
  {
    var a := Spelled(d.segmentId) + (Spelled(d.sourcePath) + (Spelled(d.textHash) + (Spelled(d.text) +
             (Spelled(d.translated) + "]"))));
    var b := Spelled(e.segmentId) + (Spelled(e.sourcePath) + (Spelled(e.textHash) + (Spelled(e.text) +
             (Spelled(e.translated) + "]"))));
    assert SpelledEntry(d)[1..] == Spelled(d.cacheKey) + a && SpelledEntry(e)[1..] == Spelled(e.cacheKey) + b;
    SpelledSplit(d.cacheKey, a, e.cacheKey, b);
    FieldsSplit(d, e);
  }

  lemma FieldsSplit(d: Entry, e: Entry)
    requires Spelled(d.segmentId) + (Spelled(d.sourcePath) + (Spelled(d.textHash) + (Spelled(d.text) +
             (Spelled(d.translated) + "]"))))
          == Spelled(e.segmentId) + (Spelled(e.sourcePath) + (Spelled(e.textHash) + (Spelled(e.text) +
             (Spelled(e.translated) + "]"))))
    ensures d == e.(cacheKey := d.cacheKey)
  {
    SpelledSplit(d.segmentId, Spelled(d.sourcePath) + (Spelled(d.textHash) + (Spelled(d.text) +
                              (Spelled(d.translated) + "]"))),
                 e.segmentId, Spelled(e.sourcePath) + (Spelled(e.textHash) + (Spelled(e.text) +
                              (Spelled(e.translated) + "]"))));
    SpelledSplit(d.sourcePath, Spelled(d.textHash) + (Spelled(d.text) + (Spelled(d.translated) + "]")),
                 e.sourcePath, Spelled(e.textHash) + (Spelled(e.text) + (Spelled(e.translated) + "]")));
    SpelledSplit(d.textHash, Spelled(d.text) + (Spelled(d.translated) + "]"),
                 e.textHash, Spelled(e.text) + (Spelled(e.translated) + "]"));
    SpelledSplit(d.text, Spelled(d.translated) + "]", e.text, Spelled(e.translated) + "]");
    SpelledSplit(d.translated, "]", e.translated, "]");
  }

  lemma SpelledIsLine(e: Entry)
    ensures SpelledEntry(e) != "" && Trimmed(SpelledEntry(e)) && '\n' !in SpelledEntry(e)
  {
    SpelledIsPlain(e.cacheKey);
    SpelledIsPlain(e.segmentId);
    SpelledIsPlain(e.sourcePath);
    SpelledIsPlain(e.textHash);
    SpelledIsPlain(e.text);
    SpelledIsPlain(e.translated);
    var s := SpelledEntry(e);
    assert Plain(s) && s[0] == '[' && s[|s|-1] == ']';
  }

  ghost function ReadEntry(s: string): Option<Entry> {
    if e :| SpelledEntry(e) == s then Some(e) else None
  }

  /** There is such a codec. */
  lemma LawfulCodec() returns (codec: Codec)
    ensures Lawful(codec)
  {
    codec := Codec(SpelledEntry, ReadEntry);
    forall e ensures ReadEntry(SpelledEntry(e)) == Some(e) && SpelledEntry(e) != "" && Trimmed(SpelledEntry(e))
                     && '\n' !in SpelledEntry(e)
    {
      SpelledIsLine(e);
      var d :| SpelledEntry(d) == SpelledEntry(e) && ReadEntry(SpelledEntry(e)) == Some(d);
      EntrySplit(d, e);
    }
  }
}
