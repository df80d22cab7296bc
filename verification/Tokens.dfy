/** Text seen as plain characters and whole tags. The translation engine replaces pieces of text by
    tags (placeholders, markers) and later looks the tags up again; the arguments about it are about
    tokens, and `Render` is what the program sees. */
module Tokens {
  datatype Token = Ch(c: char) | Tag(name: string)

  function Spelled(t: Token): string {
    match t
    case Ch(c) => [c]
    case Tag(name) => name
  }

  function Render(toks: seq<Token>): string {
    if toks == [] then "" else Spelled(toks[0]) + Render(toks[1..])
  }

  function Chars(s: string): seq<Token> {
    seq(|s|, i requires 0 <= i < |s| => Ch(s[i]))
  }

  function Meaning(t: Token, plain: map<string, string>): string {
    if t.Tag? && t.name in plain then plain[t.name] else Spelled(t)
  }

  /** Each tag replaced by what `plain` says. */
  function Expand(toks: seq<Token>, plain: map<string, string>): string {
    if toks == [] then "" else Meaning(toks[0], plain) + Expand(toks[1..], plain)
  }

  /** Each tag `name` replaced by the tokens `filling`. */
  function Subst(toks: seq<Token>, name: string, filling: seq<Token>): seq<Token> {
    if toks == [] then []
    else (if toks[0] == Tag(name) then filling else [toks[0]]) + Subst(toks[1..], name, filling)
  }

  lemma Assoc<T>(a: seq<T>, b: seq<T>, c: seq<T>)
    ensures a + b + c == a + (b + c)
  {
  }

  lemma TailOfConcat<T>(a: seq<T>, b: seq<T>)
    requires a != []
    ensures (a + b)[0] == a[0] && (a + b)[1..] == a[1..] + b
  {
  }

  lemma {:induction false} RenderConcat(a: seq<Token>, b: seq<Token>)
    ensures Render(a + b) == Render(a) + Render(b)
  {
    if a == [] {
      assert a + b == b;
    } else {
      RenderConcat(a[1..], b);
      TailOfConcat(a, b);
      Assoc(Spelled(a[0]), Render(a[1..]), Render(b));
    }
  }

  lemma {:induction false} RenderChars(s: string)
    ensures Render(Chars(s)) == s
  {
    if s != "" {
      RenderChars(s[1..]);
      assert Chars(s)[1..] == Chars(s[1..]);
    }
  }

  lemma {:induction false} ExpandConcat(a: seq<Token>, b: seq<Token>, plain: map<string, string>)
    ensures Expand(a + b, plain) == Expand(a, plain) + Expand(b, plain)
  {
    if a == [] {
      assert a + b == b;
    } else {
      ExpandConcat(a[1..], b, plain);
      TailOfConcat(a, b);
      Assoc(Meaning(a[0], plain), Expand(a[1..], plain), Expand(b, plain));
    }
  }

  /** A name that does not occur as a tag does not matter to the expansion. */
  lemma {:induction false} ExpandFrame(toks: seq<Token>, plain: map<string, string>, name: string, text: string)
    requires Tag(name) !in toks
    ensures Expand(toks, plain[name := text]) == Expand(toks, plain)
  {
    if toks != [] {
      ExpandFrame(toks[1..], plain, name, text);
    }
  }

  /** Putting a tag's own content in its place does not change the expansion. */
  lemma {:induction false} ExpandSubst(toks: seq<Token>, name: string, filling: seq<Token>, plain: map<string, string>)
    requires name in plain && Expand(filling, plain) == plain[name]
    ensures Expand(Subst(toks, name, filling), plain) == Expand(toks, plain)
  {
    if toks != [] {
      ExpandSubst(toks[1..], name, filling, plain);
      var head := if toks[0] == Tag(name) then filling else [toks[0]];
      ExpandConcat(head, Subst(toks[1..], name, filling), plain);
    }
  }

  lemma {:induction false} SubstTags(toks: seq<Token>, name: string, filling: seq<Token>)
    ensures forall t :: t in Subst(toks, name, filling) <==>
              (t in toks && t != Tag(name)) || (Tag(name) in toks && t in filling)
  {
    if toks != [] {
      SubstTags(toks[1..], name, filling);
    }
  }

  lemma {:induction false} SubstConcat(a: seq<Token>, b: seq<Token>, name: string, filling: seq<Token>)
    ensures Subst(a + b, name, filling) == Subst(a, name, filling) + Subst(b, name, filling)
  {
    if a == [] {
      assert a + b == b;
    } else {
      SubstConcat(a[1..], b, name, filling);
      TailOfConcat(a, b);
      Assoc(if a[0] == Tag(name) then filling else [a[0]], Subst(a[1..], name, filling), Subst(b, name, filling));
    }
  }

  lemma {:induction false} SubstNothing(toks: seq<Token>, name: string, filling: seq<Token>)
    requires Tag(name) !in toks
    ensures Subst(toks, name, filling) == toks
  {
    if toks != [] {
      SubstNothing(toks[1..], name, filling);
    }
  }

  /** Without tags, the expansion is the text itself. */
  lemma {:induction false} NoTagsExpand(toks: seq<Token>, plain: map<string, string>)
    requires forall t :: t in toks ==> t.Ch?
    ensures Expand(toks, plain) == Render(toks)
  {
    if toks != [] {
      assert toks[0] in toks;
      NoTagsExpand(toks[1..], plain);
    }
  }

  lemma RenderOne(name: string)
    ensures Render([Tag(name)]) == name
  {
    assert [Tag(name)][1..] == [];
  }
}
