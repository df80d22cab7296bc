/** The translation memory, the keys it is addressed by, and its file of one record per line. */
module TranslationMemory {
  import opened Wrappers
  import opened Text

  // ------------------------------------------------------------------ normal form and keys

  /** The maximal runs of non-space characters. */
  function Fields(s: string): seq<string>
    decreases |s|
  {
    if s == "" then []
    else if IsSpace(s[0]) then Fields(s[1..])
    else var e := WordEnd(s, 0);
         [s[..e]] + Fields(s[e..])
  }

  function WordEnd(s: string, i: nat): (e: nat)
    requires i <= |s|
    ensures i <= e <= |s| && (forall k :: i <= k < e ==> !IsSpace(s[k])) && (e < |s| ==> IsSpace(s[e]))
    ensures i < |s| && !IsSpace(s[i]) ==> e > i
    decreases |s| - i
  {
    if i < |s| && !IsSpace(s[i]) then WordEnd(s, i + 1) else i
  }

  function Join(words: seq<string>): string {
    if words == [] then ""
    else if |words| == 1 then words[0]
    else words[0] + " " + Join(words[1..])
  }

  function NormalizeText(s: string): string {
    Join(Fields(Trim(s)))
  }

  ghost predicate Words(words: seq<string>) {
    forall i :: 0 <= i < |words| ==> words[i] != "" && forall k :: 0 <= k < |words[i]| ==> !IsSpace(words[i][k])
  }

  lemma {:induction false} FieldsAreWords(s: string)
    ensures Words(Fields(s))
    decreases |s|
  {
    if s != "" {
      if IsSpace(s[0]) {
        FieldsAreWords(s[1..]);
      } else {
        FieldsAreWords(s[WordEnd(s, 0)..]);
      }
    }
  }

  lemma WordFirst(w: string, rest: string)
    requires w != "" && (forall k :: 0 <= k < |w| ==> !IsSpace(w[k])) && (rest == "" || IsSpace(rest[0]))
    ensures Fields(w + rest) == [w] + Fields(rest)
  {
    var s := w + rest;
    var e := WordEnd(s, 0);
    assert forall k :: 0 <= k < |w| ==> s[k] == w[k];
    assert rest != "" ==> s[|w|] == rest[0];
    assert s[..e] == w && s[e..] == rest;
  }

  lemma SpaceFirst(s: string)
    ensures Fields(" " + s) == Fields(s)
  {
    assert (" " + s)[1..] == s;
  }

  lemma JoinFirst(words: seq<string>)
    requires |words| > 1
    ensures Join(words) == words[0] + (" " + Join(words[1..]))
  {
  }

  /** Joining words and splitting again gives the words back. */
  lemma {:induction false} FieldsOfJoin(words: seq<string>)
    requires Words(words)
    ensures Fields(Join(words)) == words
  {
    if words == [] {
    } else if |words| == 1 {
      WordFirst(words[0], "");
      assert words[0] + "" == words[0];
    } else {
      FieldsOfJoin(words[1..]);
      JoinFirst(words);
      WordFirst(words[0], " " + Join(words[1..]));
      SpaceFirst(Join(words[1..]));
    }
  }

  /** Two texts have the same normal form exactly when they have the same words. */
  lemma SameNormalFormExactlyWhen(s: string, t: string)
    ensures NormalizeText(s) == NormalizeText(t) <==> Fields(Trim(s)) == Fields(Trim(t))
  {
    FieldsAreWords(Trim(s));
    FieldsAreWords(Trim(t));
    FieldsOfJoin(Fields(Trim(s)));
    FieldsOfJoin(Fields(Trim(t)));
  }

  /** The outside world of one run: the digest in hexadecimal, the deterministic translator, and the part
      of the cache key that is the same for the whole run. */
  datatype World = World(sha256: string -> string, translate: string -> Result<string, string>, prefix: string)

  /** What the memory is asked for: a segment and its text. */
  datatype Use = Use(segmentId: string, text: string)

  function HashText(w: World, text: string): string {
    w.sha256(NormalizeText(text))
  }

  /** What is hashed into a key; `prefix` is namespace, source language and target language, joined by bars. */
  function RawKey(w: World, segmentId: string, textHash: string): string {
    w.prefix + "|" + segmentId + "|" + textHash
  }

  function CacheKey(w: World, segmentId: string, textHash: string): string {
    w.sha256(RawKey(w, segmentId, textHash))
  }

  function RawKeyOf(w: World, u: Use): string {
    RawKey(w, u.segmentId, HashText(w, u.text))
  }

  function KeyOf(w: World, u: Use): string {
    CacheKey(w, u.segmentId, HashText(w, u.text))
  }

  /** 64 hexadecimal digits, and no collision among what a run hashes: the normal forms of its texts, and what goes
      into its keys. */
  ghost predicate GoodHash(w: World, uses: set<Use>) {
    && (forall a :: |w.sha256(a)| == 64)
    && (forall u, v :: u in uses && v in uses && HashText(w, u.text) == HashText(w, v.text) ==>
          NormalizeText(u.text) == NormalizeText(v.text))
    && (forall u, v :: u in uses && v in uses && KeyOf(w, u) == KeyOf(w, v) ==> RawKeyOf(w, u) == RawKeyOf(w, v))
  }

  /** Two uses have one key exactly when they are of one segment and their texts have one normal form. */
  lemma SameKeyExactlyWhen(w: World, uses: set<Use>, u: Use, v: Use)
    requires GoodHash(w, uses) && u in uses && v in uses
    ensures KeyOf(w, u) == KeyOf(w, v) <==>
            u.segmentId == v.segmentId && NormalizeText(u.text) == NormalizeText(v.text)
  {
    if KeyOf(w, u) == KeyOf(w, v) {
      var h, g := HashText(w, u.text), HashText(w, v.text);
      var r, q := RawKeyOf(w, u), RawKeyOf(w, v);
      assert r == q;
      assert |h| == 64 && |g| == 64;
      assert h == r[|r|-64..] && g == q[|q|-64..];
      var n := |w.prefix| + 1;
      assert u.segmentId == r[n..|r|-65] && v.segmentId == q[n..|q|-65];
    }
  }

  /** The hash of `x` is the hash of no other string. */
  ghost predicate ToldApart(hash: string -> string, x: string) {
    forall y :: hash(y) == hash(x) ==> y == x
  }

  /** Three strings, one of which ends in the hash of another, can be told apart from all strings. */
  lemma HashTable(s: string, t: string, lead: string) returns (hash: string -> string)
    ensures forall x :: |hash(x)| == 64
    ensures ToldApart(hash, s) && ToldApart(hash, t) && ToldApart(hash, lead + hash(s))
  {
    var a, b, c, d := seq(64, _ => 'a'), seq(64, _ => 'b'), seq(64, _ => 'c'), seq(64, _ => 'd');
    assert a[0] == 'a' && b[0] == 'b' && c[0] == 'c' && d[0] == 'd';
    var raw := lead + a;
    hash := x => if x == s then a else if x == t then b else if x == raw then c else d;
    assert hash(s) == a;
  }

  /** There is such a hash for any two uses. */
  lemma HashForTwo(u: Use, v: Use, translate: string -> Result<string, string>, prefix: string) returns (w: World)
    ensures GoodHash(w, {u, v}) && w.translate == translate && w.prefix == prefix
  {
    var hash := HashTable(NormalizeText(u.text), NormalizeText(v.text), prefix + "|" + u.segmentId + "|");
    w := World(hash, translate, prefix);
    assert ToldApart(w.sha256, NormalizeText(u.text)) && ToldApart(w.sha256, NormalizeText(v.text));
    assert ToldApart(w.sha256, RawKeyOf(w, u));
  }

  // ------------------------------------------------------------------ the memory

  datatype Entry = Entry(
    cacheKey: string, segmentId: string, sourcePath: string, textHash: string, text: string, translated: string)

  function Lookup(entries: map<string, Entry>, key: string): Option<Entry> {
    if key in entries && !Blank(entries[key].translated) then Some(entries[key]) else None
  }

  /** Every entry sits at its own key. */
  ghost predicate Keyed(entries: map<string, Entry>) {
    forall k :: k in entries ==> k != "" && entries[k].cacheKey == k
  }

  class Memory {
    var entries: map<string, Entry>

    constructor ()
      ensures entries == map[]
    {
      entries := map[];
    }

    method Get(key: string) returns (r: Option<Entry>)
      ensures r == Lookup(entries, key)
    {
      if key !in entries {
        return None;
      }
      if Blank(entries[key].translated) {
        return None;
      }
      r := Some(entries[key]);
    }

    method Put(entry: Entry)
      modifies this
      ensures entries == if entry.cacheKey == "" then old(entries) else old(entries)[entry.cacheKey := entry]
      ensures old(Keyed(entries)) ==> Keyed(entries)
    {
      if entry.cacheKey == "" {
        return;
      }
      entries := entries[entry.cacheKey := entry];
    }

    /** `keys` is the sorted list of the map's keys. */
    method Save(codec: Codec, keys: seq<string>) returns (file: string)
      requires forall k :: k in keys ==> k in entries
      ensures file == Lines(codec, entries, keys)
    {
      file := "";
      for i := 0 to |keys|
        invariant file + Lines(codec, entries, keys[i..]) == Lines(codec, entries, keys)
      {
        assert keys[i..][0] == keys[i] && keys[i..][1..] == keys[i+1..];
        assert keys[i] in entries;
        file := file + codec.encode(entries[keys[i]]) + "\n";
      }
    }
  }

  method Load(codec: Codec, file: string) returns (r: Result<map<string, Entry>, string>)
    ensures r == Parsed(codec, file, map[])
  {
    var entries: map<string, Entry> := map[];
    var rest := file;
    while rest != ""
      invariant Parsed(codec, rest, entries) == Parsed(codec, file, map[])
      decreases |rest|
    {
      var n := LineEnd(rest, 0);
      var trimmed := Trim(rest[..n]);
      rest := if n < |rest| then rest[n+1..] else "";
      if trimmed != "" {
        var entry := codec.decode(trimmed);
        if entry.None? {
          return Failure("translation memory decode failed");
        }
        if entry.value.cacheKey != "" && !Blank(entry.value.translated) {
          entries := entries[entry.value.cacheKey := entry.value];
        }
      }
    }
    r := Success(entries);
  }

  // ------------------------------------------------------------------ the file

  /** The JSON encoding of one record, as far as it matters: one line without outer white space that
      decodes to the record. */
  datatype Codec = Codec(encode: Entry -> string, decode: string -> Option<Entry>)

  ghost predicate Lawful(codec: Codec) {
    forall e :: codec.decode(codec.encode(e)) == Some(e) && codec.encode(e) != ""
                && Trimmed(codec.encode(e)) && '\n' !in codec.encode(e)
  }

  function LineEnd(s: string, i: nat): (n: nat)
    requires i <= |s|
    ensures i <= n <= |s|
    decreases |s| - i
  {
    if i == |s| || s[i] == '\n' then i else LineEnd(s, i + 1)
  }

  function Lines(codec: Codec, entries: map<string, Entry>, keys: seq<string>): string
    requires forall k :: k in keys ==> k in entries
  {
    if keys == [] then "" else codec.encode(entries[keys[0]]) + "\n" + Lines(codec, entries, keys[1..])
  }

  function Parsed(codec: Codec, s: string, entries: map<string, Entry>): Result<map<string, Entry>, string>
    decreases |s|
  {
    if s == "" then Success(entries)
    else
      var n := LineEnd(s, 0);
      var trimmed := Trim(s[..n]);
      var rest := if n < |s| then s[n+1..] else "";
      if trimmed == "" then Parsed(codec, rest, entries)
      else match codec.decode(trimmed)
           case None => Failure("translation memory decode failed")
           case Some(e) =>
             Parsed(codec, rest, if e.cacheKey != "" && !Blank(e.translated) then entries[e.cacheKey := e] else entries)
  }

  lemma {:induction false} LineEndIsFirst(s: string, i: nat)
    requires i <= |s|
    ensures var n := LineEnd(s, i);
            (n < |s| ==> s[n] == '\n') && forall k :: i <= k < n ==> s[k] != '\n'
    decreases |s| - i
  {
    if i < |s| && s[i] != '\n' {
      LineEndIsFirst(s, i + 1);
    }
  }

  lemma FirstLine(line: string, rest: string)
    requires '\n' !in line
    ensures LineEnd(line + "\n" + rest, 0) == |line|
    ensures (line + "\n" + rest)[..|line|] == line && (line + "\n" + rest)[|line|+1..] == rest
  {
    var s := line + "\n" + rest;
    LineEndIsFirst(s, 0);
    assert s[|line|] == '\n';
    assert forall k :: 0 <= k < |line| ==> s[k] == line[k] && line[k] in line;
  }

  /** Entries that a lookup can return. */
  function Usable(entries: map<string, Entry>): map<string, Entry> {
    map k | k in entries && !Blank(entries[k].translated) :: entries[k]
  }

  function UsableAt(entries: map<string, Entry>, keys: seq<string>): map<string, Entry>
    requires forall k :: k in keys ==> k in entries
  {
    map k | k in keys && !Blank(entries[k].translated) :: entries[k]
  }

  function Accepted(entries: map<string, Entry>, e: Entry): map<string, Entry> {
    if e.cacheKey != "" && !Blank(e.translated) then entries[e.cacheKey := e] else entries
  }

  lemma ParsedLine(codec: Codec, e: Entry, rest: string, before: map<string, Entry>)
    requires Lawful(codec)
    ensures Parsed(codec, codec.encode(e) + "\n" + rest, before) == Parsed(codec, rest, Accepted(before, e))
  {
    FirstLine(codec.encode(e), rest);
    TrimIsTrimmed(codec.encode(e));
  }

  lemma UsableStep(entries: map<string, Entry>, keys: seq<string>, before: map<string, Entry>)
    requires keys != [] && Keyed(entries) && forall k :: k in keys ==> k in entries
    ensures Accepted(before, entries[keys[0]]) + UsableAt(entries, keys[1..]) == before + UsableAt(entries, keys)
  {
    assert forall k :: k in keys <==> k == keys[0] || k in keys[1..];
  }

  lemma {:induction false} ParsedLines(
    codec: Codec, entries: map<string, Entry>, keys: seq<string>, before: map<string, Entry>)
    requires Lawful(codec) && Keyed(entries) && forall k :: k in keys ==> k in entries
    ensures Parsed(codec, Lines(codec, entries, keys), before) == Success(before + UsableAt(entries, keys))
    decreases |keys|
  {
    if keys == [] {
      assert before + UsableAt(entries, keys) == before;
    } else {
      var e := entries[keys[0]];
      ParsedLine(codec, e, Lines(codec, entries, keys[1..]), before);
      ParsedLines(codec, entries, keys[1..], Accepted(before, e));
      UsableStep(entries, keys, before);
    }
  }

  /** Saving and reloading changes no lookup: whatever order the keys are written in, exactly the entries
      that can be returned survive. */
  lemma ReloadedAnswersAlike(codec: Codec, entries: map<string, Entry>, keys: seq<string>)
    requires Lawful(codec) && Keyed(entries) && (forall k :: k in keys <==> k in entries)
    ensures Parsed(codec, Lines(codec, entries, keys), map[]) == Success(Usable(entries))
    ensures Keyed(Usable(entries)) && forall k :: Lookup(Usable(entries), k) == Lookup(entries, k)
  {
    ParsedLines(codec, entries, keys, map[]);
    assert map[] + UsableAt(entries, keys) == Usable(entries);
  }
}
