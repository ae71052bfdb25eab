/** Depth-first walks over a JSON tree, the shape shared by the image-URL
    collectors and rewriters: arrays item by item, objects value by value
    in property order, strings at the leaves. */
module JsonWalk {
  import opened Json
  import Strings

  /** Every string leaf, in walk order: the reference the walks are
      measured against. */
  function Leaves(v: Json): seq<string>
    decreases v, 1
  {
    match v
    case JStr(s) => [s]
    case JArr(items) => ItemLeaves(items)
    case JObj(fields) => FieldLeaves(fields)
    case _ => []
  }

  function ItemLeaves(items: seq<Json>): seq<string>
    decreases items, 0
  {
    if items == [] then [] else Leaves(items[0]) + ItemLeaves(items[1..])
  }

  function FieldLeaves(fields: seq<Field>): seq<string>
    decreases fields, 0
  {
    if fields == [] then [] else Leaves(fields[0].val) + FieldLeaves(fields[1..])
  }

  /** The elements of `xs` that `keep` accepts, in order. */
  function Keep(xs: seq<string>, keep: string -> bool): (r: seq<string>)
    ensures |r| <= |xs|
    ensures forall x :: x in r <==> x in xs && keep(x)
  {
    if xs == [] then [] else (if keep(xs[0]) then [xs[0]] else []) + Keep(xs[1..], keep)
  }

  lemma {:induction false} KeepAppend(a: seq<string>, b: seq<string>, keep: string -> bool)
    ensures Keep(a + b, keep) == Keep(a, keep) + Keep(b, keep)
  {
    if a == [] {
      assert a + b == b;
    } else {
      assert (a + b)[0] == a[0] && (a + b)[1..] == a[1..] + b;
      KeepAppend(a[1..], b, keep);
    }
  }

  /** Two tests that agree on the elements select the same ones. */
  lemma {:induction false} KeepSame(xs: seq<string>, p: string -> bool, q: string -> bool)
    requires forall i :: 0 <= i < |xs| ==> p(xs[i]) == q(xs[i])
    ensures Keep(xs, p) == Keep(xs, q)
  {
    if xs != [] {
      KeepSame(xs[1..], p, q);
    }
  }

  /** `extractImageUrls(obj, urls)`: falsy values are skipped, a string is
      pushed when `keep` accepts it, arrays and objects are walked. */
  function Collect(v: Json, keep: string -> bool, acc: seq<string>): seq<string>
    decreases v, 1
  {
    match v
    case JStr(s) => if s != "" && keep(s) then acc + [s] else acc
    case JArr(items) => CollectItems(items, keep, acc)
    case JObj(fields) => CollectFields(fields, keep, acc)
    case _ => acc
  }

  function CollectItems(items: seq<Json>, keep: string -> bool, acc: seq<string>): seq<string>
    decreases items, 0
  {
    if items == [] then acc else CollectItems(items[1..], keep, Collect(items[0], keep, acc))
  }

  function CollectFields(fields: seq<Field>, keep: string -> bool, acc: seq<string>): seq<string>
    decreases fields, 0
  {
    if fields == [] then acc else CollectFields(fields[1..], keep, Collect(fields[0].val, keep, acc))
  }

  /** The collector appends exactly the accepted non-empty leaves, in walk
      order. */
  lemma {:induction false} CollectLeaves(v: Json, keep: string -> bool, acc: seq<string>)
    ensures Collect(v, keep, acc) == acc + Keep(Leaves(v), s => s != "" && keep(s))
    decreases v, 1
  {
    match v
    case JStr(s) =>
    case JArr(items) => CollectItemsLeaves(items, keep, acc);
    case JObj(fields) => CollectFieldsLeaves(fields, keep, acc);
    case _ =>
  }

  lemma {:induction false} CollectItemsLeaves(items: seq<Json>, keep: string -> bool, acc: seq<string>)
    ensures CollectItems(items, keep, acc) == acc + Keep(ItemLeaves(items), s => s != "" && keep(s))
    decreases items, 0
  {
    if items != [] {
      var k := s => s != "" && keep(s);
      CollectLeaves(items[0], keep, acc);
      CollectItemsLeaves(items[1..], keep, Collect(items[0], keep, acc));
      KeepAppend(Leaves(items[0]), ItemLeaves(items[1..]), k);
      Strings.AppendAssoc(acc, Keep(Leaves(items[0]), k), Keep(ItemLeaves(items[1..]), k));
    }
  }

  lemma {:induction false} CollectFieldsLeaves(fields: seq<Field>, keep: string -> bool, acc: seq<string>)
    ensures CollectFields(fields, keep, acc) == acc + Keep(FieldLeaves(fields), s => s != "" && keep(s))
    decreases fields, 0
  {
    if fields != [] {
      var k := s => s != "" && keep(s);
      CollectLeaves(fields[0].val, keep, acc);
      CollectFieldsLeaves(fields[1..], keep, Collect(fields[0].val, keep, acc));
      KeepAppend(Leaves(fields[0].val), FieldLeaves(fields[1..]), k);
      Strings.AppendAssoc(acc, Keep(Leaves(fields[0].val), k), Keep(FieldLeaves(fields[1..]), k));
    }
  }

  /** Rebuild the tree with each string leaf replaced by `f` of it. */
  function MapStrings(v: Json, f: string -> Json): Json
    decreases v, 1
  {
    match v
    case JStr(s) => f(s)
    case JArr(items) => JArr(MapItems(items, f))
    case JObj(fields) => JObj(MapFields(fields, f))
    case _ => v
  }

  function MapItems(items: seq<Json>, f: string -> Json): (r: seq<Json>)
    ensures |r| == |items| && forall i :: 0 <= i < |items| ==> r[i] == MapStrings(items[i], f)
    decreases items, 0
  {
    if items == [] then [] else [MapStrings(items[0], f)] + MapItems(items[1..], f)
  }

  function MapFields(fields: seq<Field>, f: string -> Json): (r: seq<Field>)
    ensures |r| == |fields|
    ensures forall i :: 0 <= i < |fields| ==> r[i] == Field(fields[i].key, MapStrings(fields[i].val, f))
    decreases fields, 0
  {
    if fields == [] then [] else [Field(fields[0].key, MapStrings(fields[0].val, f))] + MapFields(fields[1..], f)
  }

  /** `b` has the shape of `a`: the same array lengths, the same keys in
      the same order, the same non-string leaves; a string leaf is kept
      unless `may` allows it to change. */
  predicate Reshaped(a: Json, b: Json, may: string -> bool)
    decreases a, 1
  {
    match a
    case JStr(s) => b == a || may(s)
    case JArr(items) => b.JArr? && |b.items| == |items| && ItemsReshaped(items, b.items, may)
    case JObj(fields) => b.JObj? && |b.fields| == |fields| && FieldsReshaped(fields, b.fields, may)
    case _ => b == a
  }

  predicate ItemsReshaped(a: seq<Json>, b: seq<Json>, may: string -> bool)
    requires |a| == |b|
    decreases a, 0
  {
    a == [] || (Reshaped(a[0], b[0], may) && ItemsReshaped(a[1..], b[1..], may))
  }

  predicate FieldsReshaped(a: seq<Field>, b: seq<Field>, may: string -> bool)
    requires |a| == |b|
    decreases a, 0
  {
    a == [] || (a[0].key == b[0].key && Reshaped(a[0].val, b[0].val, may) && FieldsReshaped(a[1..], b[1..], may))
  }

  /** A rewrite that leaves the strings outside `may` alone keeps the shape. */
  lemma {:induction false} MapReshaped(v: Json, f: string -> Json, may: string -> bool)
    requires forall s :: !may(s) ==> f(s) == JStr(s)
    ensures Reshaped(v, MapStrings(v, f), may)
    decreases v, 1
  {
    match v
    case JStr(s) =>
    case JArr(items) => MapItemsReshaped(items, f, may);
    case JObj(fields) => MapFieldsReshaped(fields, f, may);
    case _ =>
  }

  lemma {:induction false} MapItemsReshaped(items: seq<Json>, f: string -> Json, may: string -> bool)
    requires forall s :: !may(s) ==> f(s) == JStr(s)
    ensures ItemsReshaped(items, MapItems(items, f), may)
    decreases items, 0
  {
    if items != [] {
      MapReshaped(items[0], f, may);
      MapItemsReshaped(items[1..], f, may);
      assert MapItems(items, f)[1..] == MapItems(items[1..], f);
    }
  }

  lemma {:induction false} MapFieldsReshaped(fields: seq<Field>, f: string -> Json, may: string -> bool)
    requires forall s :: !may(s) ==> f(s) == JStr(s)
    ensures FieldsReshaped(fields, MapFields(fields, f), may)
    decreases fields, 0
  {
    if fields != [] {
      MapReshaped(fields[0].val, f, may);
      MapFieldsReshaped(fields[1..], f, may);
      assert MapFields(fields, f)[1..] == MapFields(fields[1..], f);
    }
  }

  /** A rewrite that changes no string is the identity. */
  lemma {:induction false} MapIdentity(v: Json, f: string -> Json)
    requires forall s :: f(s) == JStr(s)
    ensures MapStrings(v, f) == v
    decreases v, 1
  {
    match v
    case JStr(s) =>
    case JArr(items) =>
      forall i | 0 <= i < |items| ensures MapItems(items, f)[i] == items[i] {
        MapIdentity(items[i], f);
      }
    case JObj(fields) =>
      forall i | 0 <= i < |fields| ensures MapFields(fields, f)[i] == fields[i] {
        MapIdentity(fields[i].val, f);
      }
    case _ =>
  }

  /** `b` is `a` with every string leaf `s` replaced by `f(s)`, read
      position by position: array items and object values correspond by
      index, keys stay, and every other leaf is unchanged. */
  predicate Leafwise(a: Json, b: Json, f: string -> Json)
    decreases a
  {
    match a
    case JStr(s) => b == f(s)
    case JArr(items) =>
      b.JArr? && |b.items| == |items| && forall i :: 0 <= i < |items| ==> Leafwise(items[i], b.items[i], f)
    case JObj(fields) =>
      b.JObj? && |b.fields| == |fields| &&
      forall i :: 0 <= i < |fields| ==> b.fields[i].key == fields[i].key && Leafwise(fields[i].val, b.fields[i].val, f)
    case _ => b == a
  }

  /** The rewrite replaces every string leaf by `f` of it. */
  lemma {:induction false} MapLeafwise(v: Json, f: string -> Json)
    ensures Leafwise(v, MapStrings(v, f), f)
    decreases v
  {
    match v
    case JStr(s) =>
    case JArr(items) =>
      forall i | 0 <= i < |items| ensures Leafwise(items[i], MapItems(items, f)[i], f) {
        MapLeafwise(items[i], f);
      }
    case JObj(fields) =>
      forall i | 0 <= i < |fields| ensures Leafwise(fields[i].val, MapFields(fields, f)[i].val, f) {
        MapLeafwise(fields[i].val, f);
      }
    case _ =>
  }

  /** ... and is the only tree that does. */
  lemma {:induction false} LeafwiseUnique(v: Json, b: Json, f: string -> Json)
    requires Leafwise(v, b, f)
    ensures b == MapStrings(v, f)
    decreases v
  {
    match v
    case JStr(s) =>
    case JArr(items) =>
      forall i | 0 <= i < |items| ensures b.items[i] == MapItems(items, f)[i] {
        LeafwiseUnique(items[i], b.items[i], f);
      }
    case JObj(fields) =>
      forall i | 0 <= i < |fields| ensures b.fields[i] == MapFields(fields, f)[i] {
        LeafwiseUnique(fields[i].val, b.fields[i].val, f);
      }
    case _ =>
  }

  /** The rewrite with a running count of the strings `hit` selects, as
      `transformUrls(obj, urlMap, stats)` keeps `stats.transformed`. */
  function MapCount(v: Json, f: string -> Json, hit: string -> bool, n: nat): (Json, nat)
    decreases v, 1
  {
    match v
    case JStr(s) => (f(s), if hit(s) then n + 1 else n)
    case JArr(items) => var (r, m) := MapCountItems(items, f, hit, n); (JArr(r), m)
    case JObj(fields) => var (r, m) := MapCountFields(fields, f, hit, n); (JObj(r), m)
    case _ => (v, n)
  }

  function MapCountItems(items: seq<Json>, f: string -> Json, hit: string -> bool, n: nat): (seq<Json>, nat)
    decreases items, 0
  {
    if items == [] then ([], n)
    else
      var (x, m) := MapCount(items[0], f, hit, n);
      var (rest, k) := MapCountItems(items[1..], f, hit, m);
      ([x] + rest, k)
  }

  function MapCountFields(fields: seq<Field>, f: string -> Json, hit: string -> bool, n: nat): (seq<Field>, nat)
    decreases fields, 0
  {
    if fields == [] then ([], n)
    else
      var (x, m) := MapCount(fields[0].val, f, hit, n);
      var (rest, k) := MapCountFields(fields[1..], f, hit, m);
      ([Field(fields[0].key, x)] + rest, k)
  }

  /** The counting walk builds the plain rewrite and adds one per selected
      leaf. */
  lemma {:induction false} MapCountExact(v: Json, f: string -> Json, hit: string -> bool, n: nat)
    ensures MapCount(v, f, hit, n) == (MapStrings(v, f), n + |Keep(Leaves(v), hit)|)
    decreases v, 1
  {
    match v
    case JStr(s) =>
    case JArr(items) => MapCountItemsExact(items, f, hit, n);
    case JObj(fields) => MapCountFieldsExact(fields, f, hit, n);
    case _ =>
  }

  lemma {:induction false} MapCountItemsExact(items: seq<Json>, f: string -> Json, hit: string -> bool, n: nat)
    ensures MapCountItems(items, f, hit, n) == (MapItems(items, f), n + |Keep(ItemLeaves(items), hit)|)
    decreases items, 0
  {
    if items != [] {
      MapCountExact(items[0], f, hit, n);
      var m := n + |Keep(Leaves(items[0]), hit)|;
      MapCountItemsExact(items[1..], f, hit, m);
      KeepAppend(Leaves(items[0]), ItemLeaves(items[1..]), hit);
      MapCountItemsCons(items, f, hit, n);
    }
  }

  /** One step of the counting walk over items. */
  lemma MapCountItemsCons(items: seq<Json>, f: string -> Json, hit: string -> bool, n: nat)
    requires items != []
    ensures var (x, m) := MapCount(items[0], f, hit, n);
      MapCountItems(items, f, hit, n)
        == ([x] + MapCountItems(items[1..], f, hit, m).0, MapCountItems(items[1..], f, hit, m).1)
    ensures MapItems(items, f) == [MapStrings(items[0], f)] + MapItems(items[1..], f)
    ensures ItemLeaves(items) == Leaves(items[0]) + ItemLeaves(items[1..])
  {
  }

  lemma {:induction false} MapCountFieldsExact(fields: seq<Field>, f: string -> Json, hit: string -> bool, n: nat)
    ensures MapCountFields(fields, f, hit, n) == (MapFields(fields, f), n + |Keep(FieldLeaves(fields), hit)|)
    decreases fields, 0
  {
    if fields != [] {
      MapCountExact(fields[0].val, f, hit, n);
      var m := n + |Keep(Leaves(fields[0].val), hit)|;
      MapCountFieldsExact(fields[1..], f, hit, m);
      KeepAppend(Leaves(fields[0].val), FieldLeaves(fields[1..]), hit);
      MapCountFieldsCons(fields, f, hit, n);
    }
  }

  /** One step of the counting walk over properties. */
  lemma MapCountFieldsCons(fields: seq<Field>, f: string -> Json, hit: string -> bool, n: nat)
    requires fields != []
    ensures var (x, m) := MapCount(fields[0].val, f, hit, n);
      MapCountFields(fields, f, hit, n)
        == ([Field(fields[0].key, x)] + MapCountFields(fields[1..], f, hit, m).0, MapCountFields(fields[1..], f, hit, m).1)
    ensures MapFields(fields, f) == [Field(fields[0].key, MapStrings(fields[0].val, f))] + MapFields(fields[1..], f)
    ensures FieldLeaves(fields) == Leaves(fields[0].val) + FieldLeaves(fields[1..])
  {
  }
}
