/** Grouping records under a key, the pattern the aggregators use to build
    their lookup tables: an object whose properties are created on first use
    and whose arrays receive the values in input order (`if (!o[k]) o[k] = [];
    o[k].push(v)`), and an object assigned in a loop, where the last write to
    a key wins. */
module Grouping {
  import opened Sorting

  /** An object of arrays: `order` is the order in which the keys were
      created, `groups` the arrays. */
  datatype Groups<K, V> = Groups(order: seq<K>, groups: map<K, seq<V>>)

  /** Push `vals[i]` onto the array under `keys[i]`, for each `i` in turn. */
  function GroupBy<K(==,!new), V>(keys: seq<K>, vals: seq<V>): (g: Groups<K, V>)
    requires |keys| == |vals|
    ensures forall k :: k in g.groups <==> k in keys
    ensures g.order == Dedup(keys)
    decreases |keys|
  {
    if keys == [] then Groups([], map[])
    else
      var n := |keys| - 1;
      var g := GroupBy(keys[..n], vals[..n]);
      var k := keys[n];
      assert forall x :: x in keys <==> x in keys[..n] || x == k;
      if k in g.groups then Groups(g.order, g.groups[k := g.groups[k] + [vals[n]]])
      else Groups(g.order + [k], g.groups[k := [vals[n]]])
  }

  /** Reference definition: the values whose key is `k`, in input order. */
  function Select<K(==), V(!new)>(keys: seq<K>, vals: seq<V>, k: K): (r: seq<V>)
    requires |keys| == |vals|
    ensures forall v :: v in r <==> exists i :: 0 <= i < |keys| && keys[i] == k && vals[i] == v
    decreases |keys|
  {
    if keys == [] then []
    else
      var n := |keys| - 1;
      var r := Select(keys[..n], vals[..n], k);
      assert forall i :: 0 <= i < n ==> keys[..n][i] == keys[i] && vals[..n][i] == vals[i];
      if keys[n] == k then r + [vals[n]] else r
  }

  /** Each array holds exactly the values filed under its key, in order. */
  lemma {:induction false} GroupBySelect<K(!new), V(!new)>(keys: seq<K>, vals: seq<V>, k: K)
    requires |keys| == |vals|
    ensures k in GroupBy(keys, vals).groups ==> GroupBy(keys, vals).groups[k] == Select(keys, vals, k)
    ensures k !in GroupBy(keys, vals).groups ==> Select(keys, vals, k) == []
    decreases |keys|
  {
    if keys != [] {
      var n := |keys| - 1;
      GroupBySelect(keys[..n], vals[..n], k);
    }
  }

  /** A key no position carries selects nothing. */
  lemma {:induction false} SelectNone<K, V(!new)>(keys: seq<K>, vals: seq<V>, k: K)
    requires |keys| == |vals| && k !in keys
    ensures Select(keys, vals, k) == []
    decreases |keys|
  {
    if keys != [] {
      var n := |keys| - 1;
      assert keys[n] in keys;
      SelectNone(keys[..n], vals[..n], k);
    }
  }

  /** A key carried by one position alone selects that position's value
      alone. */
  lemma {:induction false} SelectOnly<K, V(!new)>(keys: seq<K>, vals: seq<V>, k: K, i: nat)
    requires |keys| == |vals| && i < |keys| && keys[i] == k
    requires forall j :: 0 <= j < |keys| && j != i ==> keys[j] != k
    ensures Select(keys, vals, k) == [vals[i]]
    decreases |keys|
  {
    var n := |keys| - 1;
    if i == n {
      SelectNone(keys[..n], vals[..n], k);
    } else {
      SelectOnly(keys[..n], vals[..n], k, i);
    }
  }

  /** Grouping as a whole: nothing lost, a group for exactly the keys that
      occur, each holding its key's values in order. */
  lemma GroupByExact<K(!new), V(!new)>(keys: seq<K>, vals: seq<V>, k: K)
    requires |keys| == |vals|
    ensures var g := GroupBy(keys, vals);
      && Total(g.order, g.groups) == |keys|
      && (k in g.groups <==> exists i :: 0 <= i < |keys| && keys[i] == k)
      && (k in g.groups ==> g.groups[k] == Select(keys, vals, k))
  {
    GroupByTotal(keys, vals);
    GroupBySelect(keys, vals, k);
  }

  /** The total length of the arrays listed in `order`. */
  function Total<K, V>(order: seq<K>, groups: map<K, seq<V>>): nat {
    if order == [] then 0
    else
      var n := |order| - 1;
      Total(order[..n], groups) + if order[n] in groups then |groups[order[n]]| else 0
  }

  lemma {:induction false} TotalOther<K, V>(order: seq<K>, groups: map<K, seq<V>>, k: K, v: seq<V>)
    requires k !in order
    ensures Total(order, groups[k := v]) == Total(order, groups)
  {
    if order != [] {
      var n := |order| - 1;
      assert k !in order[..n] && order[n] != k;
      TotalOther(order[..n], groups, k, v);
    }
  }

  lemma {:induction false} TotalBump<K, V>(order: seq<K>, groups: map<K, seq<V>>, k: K, x: V)
    requires Distinct(order) && k in order && k in groups
    ensures Total(order, groups[k := groups[k] + [x]]) == Total(order, groups) + 1
  {
    var n := |order| - 1;
    var p := order[..n];
    assert Distinct(p) by {
      forall i, j | 0 <= i < j < n ensures p[i] != p[j] {
        assert order[i] != order[j];
      }
    }
    if order[n] == k {
      assert k !in p by {
        forall i | 0 <= i < n ensures p[i] != k {
          assert order[i] != order[n];
        }
      }
      TotalOther(p, groups, k, groups[k] + [x]);
    } else {
      assert k in p by {
        var i :| 0 <= i < |order| && order[i] == k;
        assert p[i] == k;
      }
      TotalBump(p, groups, k, x);
    }
  }

  /** No value is lost or duplicated: the arrays together are as long as the
      input. */
  lemma {:induction false} GroupByTotal<K(!new), V>(keys: seq<K>, vals: seq<V>)
    requires |keys| == |vals|
    ensures Total(GroupBy(keys, vals).order, GroupBy(keys, vals).groups) == |keys|
    decreases |keys|
  {
    if keys != [] {
      var n := |keys| - 1;
      var g := GroupBy(keys[..n], vals[..n]);
      GroupByTotal(keys[..n], vals[..n]);
      var k := keys[n];
      if k in g.groups {
        assert GroupBy(keys, vals) == Groups(g.order, g.groups[k := g.groups[k] + [vals[n]]]);
        TotalBump(g.order, g.groups, k, vals[n]);
      } else {
        var o, m := g.order + [k], g.groups[k := [vals[n]]];
        assert GroupBy(keys, vals) == Groups(o, m);
        assert k !in g.order;
        TotalOther(g.order, g.groups, k, [vals[n]]);
        assert o[..|g.order|] == g.order && o[|g.order|] == k;
        assert Total(o, m) == Total(g.order, m) + 1;
      }
    }
  }

  /** `[0, 1, ..., n - 1]`: the positions of an array. */
  function Range(n: nat): (r: seq<nat>)
    ensures |r| == n && forall i :: 0 <= i < n ==> r[i] == i
  {
    if n == 0 then [] else Range(n - 1) + [n - 1]
  }

  /** `g` files every position of `keys` under its own key and nowhere
      else, each array in increasing order. */
  predicate Partitions<K>(g: Groups<K, nat>, keys: seq<K>) {
    Covers(g, keys) && Owns(g, keys) && IncreasingGroups(g)
  }

  predicate Covers<K>(g: Groups<K, nat>, keys: seq<K>) {
    forall i :: 0 <= i < |keys| ==> keys[i] in g.groups && i in g.groups[keys[i]]
  }

  predicate Owns<K(==)>(g: Groups<K, nat>, keys: seq<K>) {
    forall k :: k in g.groups ==> OwnedBy(g.groups[k], keys, k)
  }

  /** Every position in `s` holds the key `k`. */
  predicate OwnedBy<K(==)>(s: seq<nat>, keys: seq<K>, k: K) {
    forall j :: 0 <= j < |s| ==> s[j] < |keys| && keys[s[j]] == k
  }

  predicate IncreasingGroups<K>(g: Groups<K, nat>) {
    forall k :: k in g.groups ==> Increasing(g.groups[k])
  }

  /** Grouping positions partitions them: every position sits in the array
      of its own key and in no other, and each array is increasing. */
  lemma PositionGroups<K(!new)>(keys: seq<K>)
    ensures Partitions(GroupBy(keys, Range(|keys|)), keys)
  {
    PositionsCovered(keys);
    PositionsOwned(keys);
    PositionsIncreasing(keys);
  }

  lemma PositionsCovered<K(!new)>(keys: seq<K>)
    ensures Covers(GroupBy(keys, Range(|keys|)), keys)
  {
    var vals := Range(|keys|);
    var g := GroupBy(keys, vals);
    forall i | 0 <= i < |keys| ensures keys[i] in g.groups && i in g.groups[keys[i]] {
      GroupBySelect(keys, vals, keys[i]);
      assert vals[i] == i;
    }
  }

  /** Pushing the last value onto its key's array. */
  lemma GroupByStep<K(!new), V>(keys: seq<K>, vals: seq<V>)
    requires |keys| == |vals| && keys != []
    ensures var n := |keys| - 1; var p := GroupBy(keys[..n], vals[..n]); var k := keys[n];
      GroupBy(keys, vals).groups == if k in p.groups then p.groups[k := p.groups[k] + [vals[n]]] else p.groups[k := [vals[n]]]
  {
  }

  lemma OwnedByExtend<K>(s: seq<nat>, keys: seq<K>, k: K)
    requires keys != [] && OwnedBy(s, keys[..|keys| - 1], k) && keys[|keys| - 1] == k
    ensures OwnedBy(s + [|keys| - 1], keys, k)
  {
    var n := |keys| - 1;
    forall j | 0 <= j < |s| + 1 ensures (s + [n])[j] < |keys| && keys[(s + [n])[j]] == k {
      if j < |s| {
        assert (s + [n])[j] == s[j] && keys[..n][s[j]] == keys[s[j]];
      }
    }
  }

  lemma OwnedByWiden<K>(s: seq<nat>, keys: seq<K>, k: K)
    requires keys != [] && OwnedBy(s, keys[..|keys| - 1], k)
    ensures OwnedBy(s, keys, k)
  {
    var n := |keys| - 1;
    forall j | 0 <= j < |s| ensures s[j] < |keys| && keys[s[j]] == k {
      assert keys[..n][s[j]] == keys[s[j]];
    }
  }

  lemma {:induction false} PositionsOwned<K(!new)>(keys: seq<K>)
    ensures Owns(GroupBy(keys, Range(|keys|)), keys)
    decreases |keys|
  {
    if keys != [] {
      var n := |keys| - 1;
      var vals := Range(|keys|);
      assert vals[..n] == Range(n) && vals[n] == n;
      var p := GroupBy(keys[..n], Range(n));
      var g := GroupBy(keys, vals);
      var k := keys[n];
      GroupByStep(keys, vals);
      PositionsOwned(keys[..n]);
      forall x | x in g.groups ensures OwnedBy(g.groups[x], keys, x) {
        if x == k {
          OwnedByExtend(if k in p.groups then p.groups[k] else [], keys, k);
        } else {
          OwnedByWiden(p.groups[x], keys, x);
        }
      }
    }
  }

  lemma PositionsIncreasing<K(!new)>(keys: seq<K>)
    ensures IncreasingGroups(GroupBy(keys, Range(|keys|)))
  {
    var vals := Range(|keys|);
    var g := GroupBy(keys, vals);
    forall k | k in g.groups ensures Increasing(g.groups[k]) {
      GroupBySelect(keys, vals, k);
      SelectRangeIncreasing(keys, k);
    }
  }

  predicate Increasing(s: seq<nat>) {
    forall i, j :: 0 <= i < j < |s| ==> s[i] < s[j]
  }

  lemma {:induction false} SelectRangeIncreasing<K>(keys: seq<K>, k: K)
    ensures Increasing(Select(keys, Range(|keys|), k))
    decreases |keys|
  {
    if keys != [] {
      var n := |keys| - 1;
      var r := Select(keys[..n], Range(n), k);
      assert Range(|keys|)[..n] == Range(n);
      SelectRangeIncreasing(keys[..n], k);
      assert Select(keys, Range(|keys|), k) == if keys[n] == k then r + [n] else r;
      if keys[n] == k {
        var t := r + [n];
        forall i, j | 0 <= i < j < |t| ensures t[i] < t[j] {
          assert t[i] == r[i] && r[i] in r;
          if j < |r| {
            assert t[j] == r[j];
          }
        }
      }
    }
  }

  /** The values written last: `for (...) o[k] = v`. */
  function LastBy<K(==,!new), V>(pairs: seq<(K, V)>): (m: map<K, V>)
    ensures forall k :: k in m <==> exists i :: 0 <= i < |pairs| && pairs[i].0 == k
    decreases |pairs|
  {
    if pairs == [] then map[]
    else
      var n := |pairs| - 1;
      var m := LastBy(pairs[..n]);
      assert forall i :: 0 <= i < n ==> pairs[..n][i] == pairs[i];
      m[pairs[n].0 := pairs[n].1]
  }

  /** The value under a key is the one of the key's last pair. */
  lemma {:induction false} LastByLatest<K(!new), V>(pairs: seq<(K, V)>, k: K) returns (i: nat)
    requires k in LastBy(pairs)
    ensures i < |pairs| && pairs[i] == (k, LastBy(pairs)[k])
    ensures forall j :: i < j < |pairs| ==> pairs[j].0 != k
    decreases |pairs|
  {
    var n := |pairs| - 1;
    if pairs[n].0 == k {
      i := n;
    } else {
      i := LastByLatest(pairs[..n], k);
    }
  }
}
