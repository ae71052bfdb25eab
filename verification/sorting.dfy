/** Stable insertion sort over an explicit "less than or equal" relation, with
    the facts the normalisers rely on: the result is an ordered permutation,
    an ordered input is left as it is, and (for an antisymmetric order) two
    permutations of one another sort to the same sequence. */
module Sorting {
  /** Total and transitive: `Array.prototype.sort` with a consistent comparator. */
  ghost predicate TotalPreorder<T(!new)>(le: (T, T) -> bool) {
    (forall a, b :: le(a, b) || le(b, a))
    && (forall a, b, c :: le(a, b) && le(b, c) ==> le(a, c))
  }

  predicate Sorted<T>(s: seq<T>, le: (T, T) -> bool) {
    forall i, j :: 0 <= i < j < |s| ==> le(s[i], s[j])
  }

  /** Place `x` before the first element it does not exceed. */
  function Insert<T>(x: T, s: seq<T>, le: (T, T) -> bool): (r: seq<T>)
    ensures multiset(r) == multiset(s) + multiset{x}
    ensures |r| == |s| + 1
  {
    if s == [] then [x]
    else if le(x, s[0]) then [x] + s
    else
      assert s == [s[0]] + s[1..];
      [s[0]] + Insert(x, s[1..], le)
  }

  function Sort<T>(s: seq<T>, le: (T, T) -> bool): (r: seq<T>)
    ensures multiset(r) == multiset(s)
    ensures |r| == |s|
  {
    if s == [] then []
    else
      assert s == [s[0]] + s[1..];
      Insert(s[0], Sort(s[1..], le), le)
  }

  lemma SortSameElements<T>(s: seq<T>, le: (T, T) -> bool)
    ensures forall x :: x in Sort(s, le) <==> x in s
  {
    var r := Sort(s, le);
    forall x ensures x in r <==> x in s {
      assert x in r <==> x in multiset(r);
      assert x in s <==> x in multiset(s);
    }
  }

  lemma {:induction false} InsertSorted<T(!new)>(x: T, s: seq<T>, le: (T, T) -> bool)
    requires TotalPreorder(le) && Sorted(s, le)
    ensures Sorted(Insert(x, s, le), le)
  {
    if s != [] && !le(x, s[0]) {
      InsertSorted(x, s[1..], le);
      var r := Insert(x, s, le);
      var t := Insert(x, s[1..], le);
      assert r == [s[0]] + t;
      forall k | 0 <= k < |t|
        ensures le(s[0], t[k])
      {
        assert t[k] in multiset(t);
        assert t[k] in multiset(s[1..]) + multiset{x};
        if t[k] in multiset(s[1..]) {
          var m :| 0 <= m < |s[1..]| && s[1..][m] == t[k];
          assert s[m + 1] == t[k];
        }
      }
    }
  }

  /** The result of `Sort` is ordered by `le`. */
  lemma {:induction false} SortSorted<T(!new)>(s: seq<T>, le: (T, T) -> bool)
    requires TotalPreorder(le)
    ensures Sorted(Sort(s, le), le)
  {
    if s != [] {
      SortSorted(s[1..], le);
      InsertSorted(s[0], Sort(s[1..], le), le);
    }
  }

  /** Sorting an ordered sequence changes nothing (so sorting is idempotent). */
  lemma {:induction false} SortOfSorted<T>(s: seq<T>, le: (T, T) -> bool)
    requires Sorted(s, le)
    ensures Sort(s, le) == s
  {
    if s != [] {
      assert Sorted(s[1..], le);
      SortOfSorted(s[1..], le);
      if |s| > 1 {
        assert le(s[0], s[1]);
      }
      assert [s[0]] + s[1..] == s;
    }
  }

  lemma SortIdempotent<T(!new)>(s: seq<T>, le: (T, T) -> bool)
    requires TotalPreorder(le)
    ensures Sort(Sort(s, le), le) == Sort(s, le)
  {
    SortSorted(s, le);
    SortOfSorted(Sort(s, le), le);
  }

  /** Two ordered permutations of one another are equal when no two distinct
      elements are ordered both ways. */
  lemma {:induction false} SortedUnique<T(!new)>(a: seq<T>, b: seq<T>, le: (T, T) -> bool)
    requires Sorted(a, le) && Sorted(b, le)
    requires multiset(a) == multiset(b)
    requires AntisymmetricOn(multiset(a), le)
    ensures a == b
  {
    if a != [] {
      TailsAgree(a, b, le);
      SortedUnique(a[1..], b[1..], le);
      assert a == [a[0]] + a[1..];
      assert b == [b[0]] + b[1..];
    }
  }

  /** The heads agree and the tails again meet the conditions. */
  lemma TailsAgree<T(!new)>(a: seq<T>, b: seq<T>, le: (T, T) -> bool)
    requires a != [] && Sorted(a, le) && Sorted(b, le)
    requires multiset(a) == multiset(b)
    requires AntisymmetricOn(multiset(a), le)
    ensures b != [] && a[0] == b[0]
    ensures Sorted(a[1..], le) && Sorted(b[1..], le)
    ensures multiset(a[1..]) == multiset(b[1..])
    ensures AntisymmetricOn(multiset(a[1..]), le)
  {
    SameHead(a, b, le);
    TailMultiset(a);
    TailMultiset(b);
    SortedTail(a, le);
    SortedTail(b, le);
    assert forall x :: x in multiset(a[1..]) ==> x in multiset(a);
  }

  /** No two distinct members of `m` are ordered both ways. */
  ghost predicate AntisymmetricOn<T>(m: multiset<T>, le: (T, T) -> bool) {
    forall x, y :: x in m && y in m && le(x, y) && le(y, x) ==> x == y
  }

  lemma SortedTail<T>(a: seq<T>, le: (T, T) -> bool)
    requires a != [] && Sorted(a, le)
    ensures Sorted(a[1..], le)
  {
    forall i, j | 0 <= i < j < |a| - 1 ensures le(a[1..][i], a[1..][j]) {
      assert le(a[i + 1], a[j + 1]);
    }
  }

  lemma SameHead<T(!new)>(a: seq<T>, b: seq<T>, le: (T, T) -> bool)
    requires a != [] && Sorted(a, le) && Sorted(b, le)
    requires multiset(a) == multiset(b)
    requires AntisymmetricOn(multiset(a), le)
    ensures b != [] && a[0] == b[0]
  {
    assert a[0] in multiset(b);
    var i :| 0 <= i < |b| && b[i] == a[0];
    assert b[0] in multiset(a);
    var j :| 0 <= j < |a| && a[j] == b[0];
    if i > 0 && j > 0 {
      assert le(b[0], b[i]) && le(a[0], a[j]);
    }
  }

  lemma TailMultiset<T>(a: seq<T>)
    requires a != []
    ensures multiset(a[1..]) == multiset(a) - multiset{a[0]}
  {
    assert a == [a[0]] + a[1..];
  }

  /** Permuting the input does not change the sorted result. */
  lemma SortPermutationInvariant<T(!new)>(a: seq<T>, b: seq<T>, le: (T, T) -> bool)
    requires TotalPreorder(le)
    requires multiset(a) == multiset(b)
    requires AntisymmetricOn(multiset(a), le)
    ensures Sort(a, le) == Sort(b, le)
  {
    SortSorted(a, le);
    SortSorted(b, le);
    SortedUnique(Sort(a, le), Sort(b, le), le);
  }

  ghost predicate Distinct<T>(a: seq<T>) {
    forall i, j :: 0 <= i < j < |a| ==> a[i] != a[j]
  }

  /** First occurrences only, in order, as `new Set([...])` keeps them. */
  function Dedup<T(==,!new)>(xs: seq<T>): (r: seq<T>)
    ensures Distinct(r)
    ensures forall x :: x in r <==> x in xs
  {
    if xs == [] then []
    else
      var rest := Dedup(xs[..|xs| - 1]);
      if xs[|xs| - 1] in rest then rest else rest + [xs[|xs| - 1]]
  }

  /** Two different elements are kept, in order. */
  lemma DedupPair<T(!new)>(x: T, y: T)
    requires x != y
    ensures Dedup([x, y]) == [x, y]
  {
    assert [x][..0] == [];
    assert Dedup([x]) == [x];
    assert [x, y][..1] == [x];
  }

  /** Two duplicate-free sequences with the same elements are permutations. */
  lemma DistinctSameElements<T>(a: seq<T>, b: seq<T>)
    requires Distinct(a) && Distinct(b)
    requires forall x :: x in a <==> x in b
    ensures multiset(a) == multiset(b)
  {
    forall x ensures multiset(a)[x] == multiset(b)[x] {
      DistinctCount(a, x);
      DistinctCount(b, x);
    }
  }

  /** Sorting keeps a duplicate-free sequence duplicate-free. */
  lemma SortKeepsDistinct<T>(s: seq<T>, le: (T, T) -> bool)
    requires Distinct(s)
    ensures Distinct(Sort(s, le))
  {
    var r := Sort(s, le);
    forall i, j | 0 <= i < j < |r| ensures r[i] != r[j] {
      if r[i] == r[j] {
        TwoOccurrences(r, i, j);
        DistinctCount(s, r[i]);
        assert false;
      }
    }
  }

  lemma TwoOccurrences<T>(r: seq<T>, i: nat, j: nat)
    requires i < j < |r| && r[i] == r[j]
    ensures multiset(r)[r[i]] >= 2
  {
    assert r == r[..j] + [r[j]] + r[j + 1..];
    assert r[i] in r[..j];
  }

  /** A duplicate-free sequence has as many elements as its set. */
  lemma {:induction false} DistinctCardinality<T>(a: seq<T>)
    requires Distinct(a)
    ensures |set x | x in a| == |a|
  {
    if a != [] {
      var n := |a| - 1;
      var p := a[..n];
      assert Distinct(p) by {
        forall i, j | 0 <= i < j < n ensures p[i] != p[j] {
          assert a[i] != a[j];
        }
      }
      DistinctCardinality(p);
      assert a[n] !in p by {
        forall i | 0 <= i < n ensures p[i] != a[n] {
          assert a[i] != a[n];
        }
      }
      assert a == p + [a[n]];
      assert (set x | x in a) == (set x | x in p) + {a[n]};
    }
  }

  lemma {:induction false} DistinctCount<T>(a: seq<T>, x: T)
    requires Distinct(a)
    ensures multiset(a)[x] == if x in a then 1 else 0
  {
    if a != [] {
      assert Distinct(a[1..]) by {
        forall i, j | 0 <= i < j < |a| - 1 ensures a[1..][i] != a[1..][j] {
          assert a[i + 1] != a[j + 1];
        }
      }
      DistinctCount(a[1..], x);
      assert a == [a[0]] + a[1..];
    }
  }
}

/** Code-point lexicographic order on strings, the model of both the default
    `Array.prototype.sort` on strings and of `localeCompare`. */
module TextOrder {
  import Sorting

  predicate TextLe(a: string, b: string) {
    |a| == 0 || (|b| > 0 && (a[0] < b[0] || (a[0] == b[0] && TextLe(a[1..], b[1..]))))
  }

  lemma {:induction false} TextLeTotal(a: string, b: string)
    ensures TextLe(a, b) || TextLe(b, a)
  {
    if |a| > 0 && |b| > 0 && a[0] == b[0] {
      TextLeTotal(a[1..], b[1..]);
    }
  }

  lemma {:induction false} TextLeTrans(a: string, b: string, c: string)
    requires TextLe(a, b) && TextLe(b, c)
    ensures TextLe(a, c)
  {
    if |a| > 0 && a[0] == b[0] && b[0] == c[0] {
      TextLeTrans(a[1..], b[1..], c[1..]);
    }
  }

  lemma {:induction false} TextLeAntisym(a: string, b: string)
    requires TextLe(a, b) && TextLe(b, a)
    ensures a == b
  {
    if |a| > 0 {
      TextLeAntisym(a[1..], b[1..]);
      assert a == [a[0]] + a[1..] && b == [b[0]] + b[1..];
    }
  }

  lemma TextLeReflexive(a: string)
    ensures TextLe(a, a)
  {
    TextLeTotal(a, a);
  }

  /** Lexicographic order on lists of texts, a shorter prefix first: the
      order of a comparator that falls through key after key. */
  predicate TextsLe(a: seq<string>, b: seq<string>) {
    a == [] || (b != [] && ((a[0] != b[0] && TextLe(a[0], b[0])) || (a[0] == b[0] && TextsLe(a[1..], b[1..]))))
  }

  lemma {:induction false} TextsLeTotal(a: seq<string>, b: seq<string>)
    ensures TextsLe(a, b) || TextsLe(b, a)
  {
    if a != [] && b != [] {
      if a[0] == b[0] {
        TextsLeTotal(a[1..], b[1..]);
      } else {
        TextLeTotal(a[0], b[0]);
      }
    }
  }

  lemma {:induction false} TextsLeTrans(a: seq<string>, b: seq<string>, c: seq<string>)
    requires TextsLe(a, b) && TextsLe(b, c)
    ensures TextsLe(a, c)
  {
    if a != [] {
      if a[0] == b[0] && b[0] == c[0] {
        TextsLeTrans(a[1..], b[1..], c[1..]);
      } else if a[0] != b[0] && b[0] != c[0] {
        TextLeTrans(a[0], b[0], c[0]);
        if a[0] == c[0] {
          TextLeAntisym(a[0], b[0]);
        }
      }
    }
  }

  /** Any order that compares elements by a text key is a total preorder. */
  lemma KeyOrderIsPreorder<T(!new)>(key: T -> string, le: (T, T) -> bool)
    requires forall x, y :: le(x, y) == TextLe(key(x), key(y))
    ensures Sorting.TotalPreorder(le)
  {
    forall a, b ensures le(a, b) || le(b, a) {
      TextLeTotal(key(a), key(b));
    }
    forall a, b, c | le(a, b) && le(b, c) ensures le(a, c) {
      TextLeTrans(key(a), key(b), key(c));
    }
  }

  /** The default sort order of an array of strings. */
  function StringLe(): (string, string) -> bool {
    (a: string, b: string) => TextLe(a, b)
  }

  lemma StringOrderIsPreorder()
    ensures Sorting.TotalPreorder(StringLe())
  {
    KeyOrderIsPreorder((s: string) => s, StringLe());
  }

  /** Two distinct strings never tie. */
  lemma StringOrderAntisymmetric(m: multiset<string>)
    ensures Sorting.AntisymmetricOn(m, StringLe())
  {
    forall a, b | a in m && b in m && StringLe()(a, b) && StringLe()(b, a) ensures a == b {
      TextLeAntisym(a, b);
    }
  }
}
