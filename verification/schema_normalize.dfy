/** Canonical form of a JSON schema before it is compared with the schema a
    documentation page embeds: object keys sorted, and the items of
    `required`, `enum` and `type` arrays sorted when they are all primitive. */
module SchemaNormalize {
  import opened Wrappers
  import opened Json
  import opened Sorting
  import opened TextOrder
  import opened Strings

  /** The array keys whose item order carries no meaning. */
  predicate IsSortableKey(k: string) { k == "required" || k == "enum" || k == "type" }

  /** `JSON.stringify` of a primitive (string escapes are not modelled). */
  function PrimText(v: Json): string {
    match v
    case JNull => "null"
    case JBool(b) => if b then "true" else "false"
    case JNum(n) => IntText(n)
    case JStr(s) => "\"" + s + "\""
    case _ => ""
  }

  /** Order of primitive items: by their JSON text. */
  function PrimLe(): (Json, Json) -> bool {
    (a: Json, b: Json) => TextLe(PrimText(a), PrimText(b))
  }

  /** Order of object properties: by key. */
  function FieldLe(): (Field, Field) -> bool {
    (a: Field, b: Field) => TextLe(a.key, b.key)
  }

  predicate AllPrimitive(items: seq<Json>) {
    forall i :: 0 <= i < |items| ==> IsPrimitive(items[i])
  }

  /** `normalizeForComparison(value, parentKey)` */
  function Normalize(v: Json, parentKey: string): (r: Json)
    ensures IsPrimitive(v) ==> r == v
    ensures v.JArr? <==> r.JArr?
    ensures v.JObj? <==> r.JObj?
    ensures v.JArr? ==> |r.items| == |v.items|
    ensures v.JObj? ==> |r.fields| == |v.fields| && (forall k :: k in Keys(r.fields) <==> k in Keys(v.fields))
    decreases v, 1
  {
    match v
    case JArr(items) =>
      var n := NormItems(items);
      if IsSortableKey(parentKey) && AllPrimitive(n) then JArr(Sort(n, PrimLe())) else JArr(n)
    case JObj(fields) =>
      var n := NormFields(fields);
      var s := Sort(n, FieldLe());
      SameKeySet(n, s);
      JObj(s)
    case _ => v
  }

  /** Every item is normalised with an empty parent key. */
  function NormItems(items: seq<Json>): (r: seq<Json>)
    ensures |r| == |items|
    ensures forall i :: 0 <= i < |items| ==> r[i] == Normalize(items[i], "")
    decreases items, 0
  {
    if items == [] then [] else [Normalize(items[0], "")] + NormItems(items[1..])
  }

  /** Every property value is normalised with its own key as parent key. */
  function NormFields(fields: seq<Field>): (r: seq<Field>)
    ensures |r| == |fields|
    ensures forall i :: 0 <= i < |fields| ==> r[i] == Field(fields[i].key, Normalize(fields[i].val, fields[i].key))
    ensures Keys(r) == Keys(fields)
    decreases fields, 0
  {
    if fields == [] then []
    else [Field(fields[0].key, Normalize(fields[0].val, fields[0].key))] + NormFields(fields[1..])
  }

  lemma SameKeySet(a: seq<Field>, b: seq<Field>)
    requires multiset(a) == multiset(b)
    ensures forall k :: k in Keys(b) <==> k in Keys(a)
  {
    forall k | k in Keys(b) ensures k in Keys(a) {
      var i :| 0 <= i < |b| && Keys(b)[i] == k;
      assert b[i] in multiset(a);
      var j :| 0 <= j < |a| && a[j] == b[i];
      assert Keys(a)[j] == k;
    }
    forall k | k in Keys(a) ensures k in Keys(b) {
      var i :| 0 <= i < |a| && Keys(a)[i] == k;
      assert a[i] in multiset(b);
      var j :| 0 <= j < |b| && b[j] == a[i];
      assert Keys(b)[j] == k;
    }
  }

  lemma PrimOrderIsPreorder()
    ensures TotalPreorder(PrimLe())
  {
    KeyOrderIsPreorder(PrimText, PrimLe());
  }

  lemma FieldOrderIsPreorder()
    ensures TotalPreorder(FieldLe())
  {
    KeyOrderIsPreorder((f: Field) => f.key, FieldLe());
  }

  /** Object keys come out sorted; sortable primitive arrays come out sorted and
      are permutations of their input. */
  lemma NormalizeOrdered(v: Json, parentKey: string)
    ensures v.JObj? ==> Sorted(Normalize(v, parentKey).fields, FieldLe())
    ensures v.JArr? && IsSortableKey(parentKey) && AllPrimitive(v.items) ==>
      Sorted(Normalize(v, parentKey).items, PrimLe())
      && multiset(Normalize(v, parentKey).items) == multiset(v.items)
    ensures v.JArr? && !IsSortableKey(parentKey) ==> Normalize(v, parentKey).items == NormItems(v.items)
  {
    PrimOrderIsPreorder();
    FieldOrderIsPreorder();
    match v
    case JObj(fields) =>
      SortSorted(NormFields(fields), FieldLe());
    case JArr(items) =>
      if IsSortableKey(parentKey) && AllPrimitive(items) {
        assert NormItems(items) == items;
        SortSorted(items, PrimLe());
      }
    case _ =>
  }

  lemma NormItemsFixed(xs: seq<Json>)
    requires forall i :: 0 <= i < |xs| ==> Normalize(xs[i], "") == xs[i]
    ensures NormItems(xs) == xs
  {
  }

  lemma NormFieldsFixed(fs: seq<Field>)
    requires forall i :: 0 <= i < |fs| ==> Normalize(fs[i].val, fs[i].key) == fs[i].val
    ensures NormFields(fs) == fs
  {
  }

  /** Normalising a normalised value changes nothing. */
  lemma {:induction false} NormalizeIdempotent(v: Json, parentKey: string)
    ensures Normalize(Normalize(v, parentKey), parentKey) == Normalize(v, parentKey)
    decreases v, 1
  {
    if v.JArr? {
      ArrayIdempotent(v, parentKey);
    } else if v.JObj? {
      ObjectIdempotent(v, parentKey);
    }
  }

  lemma {:induction false} ArrayIdempotent(v: Json, parentKey: string)
    requires v.JArr?
    ensures Normalize(Normalize(v, parentKey), parentKey) == Normalize(v, parentKey)
    decreases v, 0
  {
    var n := NormItems(v.items);
    forall i | 0 <= i < |n| ensures Normalize(n[i], "") == n[i] {
      NormalizeIdempotent(v.items[i], "");
    }
    NormItemsFixed(n);
    if IsSortableKey(parentKey) && AllPrimitive(n) {
      PrimOrderIsPreorder();
      var t := Sort(n, PrimLe());
      forall i | 0 <= i < |t| ensures IsPrimitive(t[i]) {
        assert t[i] in multiset(n);
      }
      NormItemsFixed(t);
      SortIdempotent(n, PrimLe());
    }
  }

  lemma {:induction false} ObjectIdempotent(v: Json, parentKey: string)
    requires v.JObj?
    ensures Normalize(Normalize(v, parentKey), parentKey) == Normalize(v, parentKey)
    decreases v, 0
  {
    FieldOrderIsPreorder();
    var n := NormFields(v.fields);
    var t := Sort(n, FieldLe());
    forall i | 0 <= i < |t| ensures Normalize(t[i].val, t[i].key) == t[i].val {
      assert t[i] in multiset(n);
      var j :| 0 <= j < |n| && n[j] == t[i];
      NormalizeIdempotent(v.fields[j].val, v.fields[j].key);
    }
    NormFieldsFixed(t);
    SortSorted(n, FieldLe());
    SortOfSorted(t, FieldLe());
    ObjectNormalizes(v, parentKey);
    ObjectNormalizes(JObj(t), parentKey);
  }

  /** `b` differs from `a` only in the order of object properties and in the
      order of the items of sortable arrays of primitives. */
  predicate Reordered(a: Json, b: Json, parentKey: string)
    decreases a
  {
    match a
    case JArr(xs) =>
      b.JArr? &&
      if IsSortableKey(parentKey) && AllPrimitive(xs) then
        AllPrimitive(b.items) && multiset(xs) == multiset(b.items)
      else
        |xs| == |b.items| && forall i :: 0 <= i < |xs| ==> Reordered(xs[i], b.items[i], "")
    case JObj(fs) =>
      b.JObj? && DistinctKeys(fs) && DistinctKeys(b.fields)
      && (forall j :: 0 <= j < |b.fields| ==> b.fields[j].key in Keys(fs))
      && forall i :: 0 <= i < |fs| ==>
           Get(b.fields, fs[i].key).Some? && Reordered(fs[i].val, Get(b.fields, fs[i].key).value, fs[i].key)
    case _ => b == a
  }

  lemma PrimTextInjective(a: Json, b: Json)
    requires IsPrimitive(a) && IsPrimitive(b) && PrimText(a) == PrimText(b)
    ensures a == b
  {
    var t := PrimText(a);
    if a.JNum? && b.JNum? {
      IntTextInjective(a.n, b.n);
    } else if a.JStr? && b.JStr? {
      assert a.s == t[1..|t| - 1] == b.s;
    }
  }

  lemma PrimOrderAntisymmetric(xs: seq<Json>)
    requires AllPrimitive(xs)
    ensures AntisymmetricOn(multiset(xs), PrimLe())
  {
    forall x, y | x in multiset(xs) && y in multiset(xs) && PrimLe()(x, y) && PrimLe()(y, x)
      ensures x == y
    {
      TextLeAntisym(PrimText(x), PrimText(y));
      PrimTextInjective(x, y);
    }
  }

  lemma FieldOrderAntisymmetric(fs: seq<Field>)
    requires DistinctKeys(fs)
    ensures AntisymmetricOn(multiset(fs), FieldLe())
  {
    forall x, y | x in multiset(fs) && y in multiset(fs) && FieldLe()(x, y) && FieldLe()(y, x)
      ensures x == y
    {
      TextLeAntisym(x.key, y.key);
      var i :| 0 <= i < |fs| && fs[i] == x;
      var j :| 0 <= j < |fs| && fs[j] == y;
      assert i == j;
    }
  }

  lemma GetUnique(fs: seq<Field>, j: nat)
    requires DistinctKeys(fs) && j < |fs|
    ensures Get(fs, fs[j].key) == Some(fs[j].val)
  {
    var r := Get(fs, fs[j].key);
    var i :| 0 <= i < |fs| && fs[i] == Field(fs[j].key, r.value);
  }

  /** Schemas that differ only in property order and in the order of
      `required`/`enum`/`type` entries normalise to the same value, so the
      diff of their normal forms is empty. */
  lemma {:induction false} ReorderedNormalize(a: Json, b: Json, parentKey: string)
    requires Reordered(a, b, parentKey)
    ensures Normalize(a, parentKey) == Normalize(b, parentKey)
    decreases a, 2
  {
    match a
    case JArr(xs) => ReorderedArray(a, b, parentKey);
    case JObj(fs) => ReorderedObject(a, b, parentKey);
    case _ =>
  }

  lemma {:induction false} ReorderedArray(a: Json, b: Json, parentKey: string)
    requires a.JArr? && Reordered(a, b, parentKey)
    ensures Normalize(a, parentKey) == Normalize(b, parentKey)
    decreases a, 1
  {
    var xs := a.items;
    var ys := b.items;
    if IsSortableKey(parentKey) && AllPrimitive(xs) {
      assert NormItems(xs) == xs && NormItems(ys) == ys;
      PrimOrderIsPreorder();
      PrimOrderAntisymmetric(xs);
      SortPermutationInvariant(xs, ys, PrimLe());
    } else {
      forall i | 0 <= i < |xs| ensures Normalize(xs[i], "") == Normalize(ys[i], "") {
        ReorderedNormalize(xs[i], ys[i], "");
      }
      assert NormItems(xs) == NormItems(ys);
    }
  }

  lemma {:induction false} ReorderedObject(a: Json, b: Json, parentKey: string)
    requires a.JObj? && Reordered(a, b, parentKey)
    ensures Normalize(a, parentKey) == Normalize(b, parentKey)
    decreases a, 1
  {
    var n1 := NormFields(a.fields);
    var n2 := NormFields(b.fields);
    ForwardFields(a, b, parentKey);
    BackwardFields(a, b, parentKey);
    NormFieldsDistinct(a.fields);
    NormFieldsDistinct(b.fields);
    DistinctSameElements(n1, n2);
    FieldOrderIsPreorder();
    FieldOrderAntisymmetric(n1);
    SortPermutationInvariant(n1, n2, FieldLe());
    ObjectNormalizes(a, parentKey);
    ObjectNormalizes(b, parentKey);
  }

  lemma NormFieldsDistinct(fs: seq<Field>)
    requires DistinctKeys(fs)
    ensures Distinct(NormFields(fs))
  {
    assert Keys(NormFields(fs)) == Keys(fs);
  }

  /** An object normalises to its sorted normalised fields. */
  lemma ObjectNormalizes(a: Json, parentKey: string)
    requires a.JObj?
    ensures Normalize(a, parentKey) == JObj(Sort(NormFields(a.fields), FieldLe()))
  {
  }

  lemma {:induction false} ForwardFields(a: Json, b: Json, parentKey: string)
    requires a.JObj? && Reordered(a, b, parentKey)
    ensures forall x :: x in NormFields(a.fields) ==> x in NormFields(b.fields)
    decreases a, 0
  {
    var fs := a.fields;
    var gs := b.fields;
    var n1 := NormFields(fs);
    var n2 := NormFields(gs);
    forall x | x in n1 ensures x in n2 {
      var i :| 0 <= i < |n1| && n1[i] == x;
      var k := fs[i].key;
      var w := Get(gs, k).value;
      ReorderedNormalize(fs[i].val, w, k);
      var j :| 0 <= j < |gs| && gs[j] == Field(k, w);
      assert n2[j] == x;
    }
  }

  lemma {:induction false} BackwardFields(a: Json, b: Json, parentKey: string)
    requires a.JObj? && Reordered(a, b, parentKey)
    ensures forall x :: x in NormFields(b.fields) ==> x in NormFields(a.fields)
    decreases a, 0
  {
    var fs := a.fields;
    var gs := b.fields;
    var n1 := NormFields(fs);
    var n2 := NormFields(gs);
    forall x | x in n2 ensures x in n1 {
      var j :| 0 <= j < |n2| && n2[j] == x;
      var k := gs[j].key;
      assert k in Keys(fs);
      var i :| 0 <= i < |fs| && Keys(fs)[i] == k;
      GetUnique(gs, j);
      ReorderedNormalize(fs[i].val, gs[j].val, k);
      assert n1[i] == x;
    }
  }
}
