/** Path-segment cleaning, the three-step pattern the sanitizers share:
    every character outside an allowed set becomes a separator, runs of the
    separator shrink to one, and a separator at either end is dropped. */
module Segments {

  /** Every character is allowed. */
  predicate Only(s: string, ok: char -> bool) {
    forall i :: 0 <= i < |s| ==> ok(s[i])
  }

  /** No two separators in a row. */
  predicate NoRun(s: string, c: char) {
    forall i :: 0 <= i < |s| - 1 ==> !(s[i] == c && s[i + 1] == c)
  }

  /** No separator at either end. */
  predicate NoEdge(s: string, c: char) {
    s == [] || (s[0] != c && s[|s| - 1] != c)
  }

  /** The result of cleaning: allowed characters only, single separators,
      none at the ends. */
  predicate Clean(s: string, ok: char -> bool, c: char) {
    Only(s, ok) && NoRun(s, c) && NoEdge(s, c)
  }

  /** `s.replace(/[^allowed]/g, c)` */
  function Substitute(s: string, ok: char -> bool, c: char): (r: string)
    ensures |r| == |s|
    ensures forall i :: 0 <= i < |s| ==> r[i] == if ok(s[i]) then s[i] else c
  {
    seq(|s|, i requires 0 <= i < |s| => if ok(s[i]) then s[i] else c)
  }

  /** `s.replace(/c+/g, c)` */
  function Collapse(s: string, c: char): (r: string)
    ensures |r| <= |s|
    ensures s != [] ==> r != [] && r[0] == s[0] && r[|r| - 1] == s[|s| - 1]
    ensures forall i :: 0 <= i < |r| ==> r[i] in s
    ensures NoRun(r, c)
  {
    if |s| < 2 then s
    else if s[0] == c && s[1] == c then Collapse(s[1..], c)
    else
      var t := Collapse(s[1..], c);
      var r := [s[0]] + t;
      assert forall i :: 1 <= i < |r| ==> r[i] == t[i - 1];
      r
  }

  /** Collapsing leaves a string without separator runs as it is. */
  lemma {:induction false} CollapseClean(s: string, c: char)
    requires NoRun(s, c)
    ensures Collapse(s, c) == s
  {
    if |s| >= 2 {
      assert !(s[0] == c && s[1] == c);
      assert NoRun(s[1..], c) by {
        forall i | 0 <= i < |s| - 2 ensures !(s[1..][i] == c && s[1..][i + 1] == c) {
          assert s[1..][i] == s[i + 1] && s[1..][i + 1] == s[i + 2];
        }
      }
      CollapseClean(s[1..], c);
      assert s == [s[0]] + s[1..];
    }
  }

  /** `s.replace(/^c|c$/g, '')`: one separator goes from each end. After
      `Collapse` that is the same as `/^c+|c+$/g`. */
  function StripEdge(s: string, c: char): string {
    var u := if |s| > 0 && s[0] == c then s[1..] else s;
    if |u| > 0 && u[|u| - 1] == c then u[..|u| - 1] else u
  }

  lemma SliceKeeps(s: string, a: nat, b: nat, ok: char -> bool, c: char)
    requires a <= b <= |s| && Only(s, ok) && NoRun(s, c)
    ensures Only(s[a..b], ok) && NoRun(s[a..b], c)
  {
    var t := s[a..b];
    forall i | 0 <= i < |t| - 1 ensures !(t[i] == c && t[i + 1] == c) {
      assert t[i] == s[a + i] && t[i + 1] == s[a + i + 1];
    }
    forall i | 0 <= i < |t| ensures ok(t[i]) {
      assert t[i] == s[a + i];
    }
  }

  /** Without separator runs, stripping leaves no separator at either end,
      and a string without edge separators is left as it is. */
  lemma StripFacts(s: string, ok: char -> bool, c: char)
    ensures Only(s, ok) && NoRun(s, c) ==> Clean(StripEdge(s, c), ok, c)
    ensures NoEdge(s, c) ==> StripEdge(s, c) == s
  {
    if Only(s, ok) && NoRun(s, c) {
      var a := if |s| > 0 && s[0] == c then 1 else 0;
      var u := s[a..];
      SliceKeeps(s, a, |s|, ok, c);
      if a == 1 && |s| >= 2 {
        assert u[0] == s[1];
      }
      if |u| > 0 && u[|u| - 1] == c {
        SliceKeeps(u, 0, |u| - 1, ok, c);
        if |u| >= 2 {
          assert u[..|u| - 1][|u| - 2] == u[|u| - 2];
          assert u[..|u| - 1][0] == u[0];
        }
      }
    }
  }

  /** The three steps in turn. */
  function Sanitize(s: string, ok: char -> bool, c: char): (r: string)
    requires ok(c)
    ensures Clean(r, ok, c)
    ensures |r| <= |s|
  {
    var d := Substitute(s, ok, c);
    var m := Collapse(d, c);
    assert Only(m, ok) by {
      forall i | 0 <= i < |m| ensures ok(m[i]) {
        assert m[i] in d;
      }
    }
    StripFacts(m, ok, c);
    StripEdge(m, c)
  }

  /** A clean string is its own sanitization. */
  lemma SanitizeClean(s: string, ok: char -> bool, c: char)
    requires ok(c) && Clean(s, ok, c)
    ensures Sanitize(s, ok, c) == s
  {
    assert Substitute(s, ok, c) == s;
    CollapseClean(s, c);
    StripFacts(s, ok, c);
  }

  /** Sanitizing twice is sanitizing once. */
  lemma SanitizeIdempotent(s: string, ok: char -> bool, c: char)
    requires ok(c)
    ensures Sanitize(Sanitize(s, ok, c), ok, c) == Sanitize(s, ok, c)
  {
    SanitizeClean(Sanitize(s, ok, c), ok, c);
  }
}
