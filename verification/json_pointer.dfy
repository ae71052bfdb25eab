/** JSON Pointer reference tokens (section 4 of RFC 6901) as the schema
    comparison builds them for its diff paths. */
module JsonPointer {
  import opened Strings

  /** `~` becomes `~0` first, then `/` becomes `~1`. */
  function EscapeToken(t: string): string {
    ReplaceAll(ReplaceAll(t, "~", "~0"), "/", "~1")
  }

  /** `~1` becomes `/` first, then `~0` becomes `~`. */
  function UnescapeToken(t: string): string {
    ReplaceAll(ReplaceAll(t, "~1", "/"), "~0", "~")
  }

  /** The escape of one character. */
  function EscapeChar(c: char): string {
    if c == '~' then "~0" else if c == '/' then "~1" else [c]
  }

  /** Character-by-character escaping, the reference the two passes meet. */
  function EscapeEach(t: string): string {
    if t == [] then [] else EscapeChar(t[0]) + EscapeEach(t[1..])
  }

  lemma {:induction false} EscapeIsCharwise(t: string)
    ensures EscapeToken(t) == EscapeEach(t)
  {
    if t != [] {
      EscapeIsCharwise(t[1..]);
      assert t == [t[0]] + t[1..];
      EscapeStep(t[0], t[1..]);
    }
  }

  /** The two passes escape the first character on its own. */
  lemma EscapeStep(c: char, s: string)
    ensures EscapeToken([c] + s) == EscapeChar(c) + EscapeToken(s)
  {
    ReplaceCharCons(c, s, '~', "~0");
    var a := ReplaceAll(s, "~", "~0");
    if c == '~' {
      TildeStep(a);
    } else {
      ReplaceCharCons(c, a, '/', "~1");
    }
  }

  lemma TildeStep(a: string)
    ensures ReplaceAll("~0" + a, "/", "~1") == "~0" + ReplaceAll(a, "/", "~1")
  {
    assert "~0" + a == ['~'] + (['0'] + a);
    ReplaceCharCons('~', "0" + a, '/', "~1");
    ReplaceCharCons('0', a, '/', "~1");
  }

  /** Escaped tokens contain no `/`, and every `~` in them starts `~0` or `~1`. */
  predicate WellEscaped(e: string) {
    '/' !in e && forall i :: 0 <= i < |e| && e[i] == '~' ==> i + 1 < |e| && (e[i + 1] == '0' || e[i + 1] == '1')
  }

  lemma {:induction false} EscapeEachWellEscaped(t: string)
    ensures WellEscaped(EscapeEach(t))
  {
    if t != [] {
      EscapeEachWellEscaped(t[1..]);
      var h := EscapeChar(t[0]);
      var rest := EscapeEach(t[1..]);
      assert EscapeEach(t) == h + rest;
      forall i | 0 <= i < |h + rest| && (h + rest)[i] == '~'
        ensures i + 1 < |h + rest| && ((h + rest)[i + 1] == '0' || (h + rest)[i + 1] == '1')
      {
        if i >= |h| {
          assert rest[i - |h|] == '~';
        }
      }
    }
  }

  /** Unescaping undoes escaping, for every token. */
  lemma {:induction false} EscapeRoundTrip(t: string)
    ensures UnescapeToken(EscapeToken(t)) == t
    ensures WellEscaped(EscapeToken(t))
  {
    EscapeIsCharwise(t);
    EscapeEachWellEscaped(t);
    UnescapeEach(t);
  }

  /** After the `~1` pass only `~0` pairs (and the other characters) remain. */
  function Stage(t: string): string {
    if t == [] then [] else (if t[0] == '~' then "~0" else [t[0]]) + Stage(t[1..])
  }

  lemma UnescapeEach(t: string)
    ensures ReplaceAll(EscapeEach(t), "~1", "/") == Stage(t)
    ensures ReplaceAll(Stage(t), "~0", "~") == t
  {
    UnescapeSlashes(t);
    UnescapeTildes(t);
  }

  lemma {:induction false} UnescapeSlashes(t: string)
    ensures ReplaceAll(EscapeEach(t), "~1", "/") == Stage(t)
  {
    if t != [] {
      UnescapeSlashes(t[1..]);
      UnslashStep(t[0], EscapeEach(t[1..]));
    }
  }

  /** The first pass of unescaping undoes the `/` escape of one character. */
  lemma UnslashStep(c: char, e: string)
    ensures ReplaceAll(EscapeChar(c) + e, "~1", "/") == (if c == '~' then "~0" else [c]) + ReplaceAll(e, "~1", "/")
  {
    if c == '~' {
      TildeUnslash(e);
    } else if c == '/' {
      ReplaceAllHit(e, "~1", "/");
    } else {
      assert ([c] + e)[0] != '~';
      ReplaceAllMiss(c, e, "~1", "/");
    }
  }

  lemma TildeUnslash(e: string)
    ensures ReplaceAll("~0" + e, "~1", "/") == "~0" + ReplaceAll(e, "~1", "/")
  {
    assert "~0" + e == ['~'] + ("0" + e);
    ReplaceAllMiss('~', "0" + e, "~1", "/");
    ReplaceAllMiss('0', e, "~1", "/");
    ConsAssoc('~', "0", ReplaceAll(e, "~1", "/"));
  }

  lemma {:induction false} UnescapeTildes(t: string)
    ensures ReplaceAll(Stage(t), "~0", "~") == t
  {
    if t != [] {
      UnescapeTildes(t[1..]);
      UntildeStep(t[0], Stage(t[1..]));
      assert t == [t[0]] + t[1..];
    }
  }

  /** The second pass of unescaping undoes the `~` escape of one character. */
  lemma UntildeStep(c: char, g: string)
    ensures ReplaceAll((if c == '~' then "~0" else [c]) + g, "~0", "~") == [c] + ReplaceAll(g, "~0", "~")
  {
    if c == '~' {
      ReplaceAllHit(g, "~0", "~");
    } else {
      assert ([c] + g)[0] != '~';
      ReplaceAllMiss(c, g, "~0", "~");
    }
  }

  /** Tokens without `~` and `/` are their own escape. */
  lemma {:induction false} EscapePlain(t: string)
    requires '~' !in t && '/' !in t
    ensures EscapeToken(t) == t
  {
    EscapeIsCharwise(t);
    EscapeEachPlain(t);
  }

  lemma {:induction false} EscapeEachPlain(t: string)
    requires '~' !in t && '/' !in t
    ensures EscapeEach(t) == t
  {
    if t != [] {
      PlainTail(t);
      EscapeEachPlain(t[1..]);
      assert t == [t[0]] + t[1..];
    }
  }

  lemma PlainTail(t: string)
    requires t != [] && '~' !in t && '/' !in t
    ensures t[0] != '~' && t[0] != '/' && '~' !in t[1..] && '/' !in t[1..]
  {
    assert t[0] in t;
    assert forall c :: c in t[1..] ==> c in t;
  }

  /** Escaping is injective, so distinct object keys get distinct paths. */
  lemma EscapeInjective(a: string, b: string)
    requires EscapeToken(a) == EscapeToken(b)
    ensures a == b
  {
    EscapeRoundTrip(a);
    EscapeRoundTrip(b);
  }

  /** `joinJsonPointer`: a base of `/` stands for the document root. */
  function JoinPointer(base: string, token: string): (r: string)
    ensures base != "/" ==> r == base + "/" + EscapeToken(token)
    ensures base == "/" ==> r == "/" + EscapeToken(token)
  {
    var safeBase := if base == "/" then "" else base;
    safeBase + "/" + EscapeToken(token)
  }

  /** The pointer reached from the root by following `tokens` one by one. */
  function PointerOf(tokens: seq<string>): string
    decreases |tokens|
  {
    if tokens == [] then "" else JoinPointer(PointerOf(tokens[..|tokens| - 1]), tokens[|tokens| - 1])
  }

  /** Evaluation side of section 4 of RFC 6901: split at `/`, unescape each token. */
  function ParsePointer(p: string): seq<string> {
    if p == "" then [] else UnescapeAll(Split(p, '/')[1..])
  }

  function UnescapeAll(parts: seq<string>): (r: seq<string>)
    ensures |r| == |parts|
    ensures forall i :: 0 <= i < |parts| ==> r[i] == UnescapeToken(parts[i])
  {
    if parts == [] then [] else [UnescapeToken(parts[0])] + UnescapeAll(parts[1..])
  }

  function EscapeAll(tokens: seq<string>): (r: seq<string>)
    ensures |r| == |tokens|
    ensures forall i :: 0 <= i < |tokens| ==> r[i] == EscapeToken(tokens[i])
  {
    if tokens == [] then [] else [EscapeToken(tokens[0])] + EscapeAll(tokens[1..])
  }

  /** A pointer built from tokens is the root followed by the escaped tokens,
      unless the first token is the empty key and more tokens follow: then the
      `/` that names the empty key is taken for the root. */
  lemma {:induction false} PointerOfShape(tokens: seq<string>)
    requires !(|tokens| >= 2 && tokens[0] == "")
    ensures PointerOf(tokens) == Join([""] + EscapeAll(tokens), "/")
    decreases |tokens|
  {
    if tokens != [] {
      var init := tokens[..|tokens| - 1];
      PointerOfShape(init);
      var es := EscapeAll(init);
      var last := EscapeToken(tokens[|tokens| - 1]);
      EscapeAllSnoc(tokens);
      JoinAppend([""] + es, last, "/");
      AppendAssoc([""], es, [last]);
      if init != [] {
        NotRoot(init);
      }
    }
  }

  lemma EscapeAllSnoc(tokens: seq<string>)
    requires tokens != []
    ensures EscapeAll(tokens) == EscapeAll(tokens[..|tokens| - 1]) + [EscapeToken(tokens[|tokens| - 1])]
  {
    EscapeAllPrefix(tokens);
    SnocOf(EscapeAll(tokens), EscapeAll(tokens[..|tokens| - 1]), EscapeToken(tokens[|tokens| - 1]));
  }

  lemma EscapeAllPrefix(tokens: seq<string>)
    requires tokens != []
    ensures var a, b := EscapeAll(tokens), EscapeAll(tokens[..|tokens| - 1]);
      forall i :: 0 <= i < |b| ==> a[i] == b[i]
  {
    var init := tokens[..|tokens| - 1];
    assert forall i :: 0 <= i < |init| ==> tokens[i] == init[i];
  }

  lemma SnocOf<T>(a: seq<T>, init: seq<T>, last: T)
    requires |a| == |init| + 1 && a[|init|] == last
    requires forall i :: 0 <= i < |init| ==> a[i] == init[i]
    ensures a == init + [last]
  {
  }

  /** A pointer to a non-empty first key is not the bare root `/`. */
  lemma NotRoot(init: seq<string>)
    requires init != [] && init[0] != ""
    requires PointerOf(init) == Join([""] + EscapeAll(init), "/")
    ensures PointerOf(init) != "/"
  {
    EscapeNonEmpty(init[0]);
    JoinHead([""] + EscapeAll(init), "/");
  }

  lemma EscapeNonEmpty(t: string)
    requires t != ""
    ensures EscapeToken(t) != ""
  {
    EscapeIsCharwise(t);
  }

  /** Round trip: parsing a built pointer gives back its tokens. */
  lemma PointerRoundTrip(tokens: seq<string>)
    requires !(|tokens| >= 2 && tokens[0] == "")
    ensures ParsePointer(PointerOf(tokens)) == tokens
  {
    PointerOfShape(tokens);
    var es := EscapeAll(tokens);
    forall i | 0 <= i < |[""] + es| ensures '/' !in ([""] + es)[i] {
      if i > 0 {
        EscapeRoundTrip(tokens[i - 1]);
      }
    }
    JoinSplit([""] + es, '/');
    if tokens != [] {
      assert PointerOf(tokens) != "" by {
        assert |Join([""] + es, "/")| >= 1;
      }
      assert ([""] + es)[1..] == es;
      forall i | 0 <= i < |tokens| ensures UnescapeToken(es[i]) == tokens[i] {
        EscapeRoundTrip(tokens[i]);
      }
    }
  }

  /** The case the precondition above excludes: the empty key at the root
      followed by `a` gets the same pointer as the key `a` at the root. */
  lemma EmptyRootKeyCollides()
    ensures PointerOf(["", "a"]) == PointerOf(["a"]) == "/a"
  {
    assert EscapeToken("") == "";
    assert EscapeToken("a") == "a";
  }
}
