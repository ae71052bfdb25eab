/** The bounded structural diff between the normalised schema of a dataset
    and the normalised schema block embedded in its documentation page. */
module SchemaDiff {
  import opened Wrappers
  import opened Json
  import opened Strings
  import opened Sorting
  import opened TextOrder
  import opened JsonPointer
  import opened SchemaNormalize

  /** The default cap on the number of reported differences. */
  const DefaultMaxDiffs: nat := 200

  /** What a difference reports; the message text is built from these parts. */
  datatype Message =
    | TypeMismatch(expectedType: string, actualType: string)
    | LengthMismatch(expectedLength: nat, actualLength: nat)
    | UnexpectedKey
    | MissingKey
    | ValueMismatch(expected: Json, actual: Json)

  datatype DiffEntry = DiffEntry(path: string, message: Message)

  /** `typeof` */
  function TypeOf(v: Json): string {
    match v
    case JBool(_) => "boolean"
    case JNum(_) => "number"
    case JStr(_) => "string"
    case _ => "object"
  }

  function ArrayTypeName(v: Json): string { if v.JArr? then "array" else TypeOf(v) }
  function ObjectTypeName(v: Json): string { if v.JObj? then "object" else TypeOf(v) }

  /** The root pointer `""` is reported as `/`. */
  function DisplayPath(p: string): (r: string)
    ensures r != ""
    ensures p != "" ==> r == p
  {
    if p == "" then "/" else p
  }

  /** The sorted union of the keys of both objects. */
  function UnionKeys(e: seq<Field>, a: seq<Field>): (r: seq<string>)
    ensures forall k :: k in r <==> k in Keys(e) || k in Keys(a)
  {
    var u := Dedup(Keys(e) + Keys(a));
    SortSameElements(u, TextLe);
    Sort(u, TextLe)
  }

  function Min(a: nat, b: nat): nat { if a <= b then a else b }

  /** `diffNormalizedValues(expected, actual, pointer, diffs, maxDiffs)`:
      the list only grows, never past the cap, and equal values add nothing. */
  function DiffValues(e: Json, a: Json, ptr: string, diffs: seq<DiffEntry>, max: nat): (r: seq<DiffEntry>)
    ensures |r| >= |diffs| && r[..|diffs|] == diffs
    ensures |diffs| <= max ==> |r| <= max
    ensures |diffs| >= max ==> r == diffs
    ensures e == a ==> r == diffs
    decreases e, 2
  {
    if |diffs| >= max then diffs
    else if e.JArr? || a.JArr? then
      if !(e.JArr? && a.JArr?) then
        diffs + [DiffEntry(DisplayPath(ptr), TypeMismatch(ArrayTypeName(e), ArrayTypeName(a)))]
      else
        var d := if |e.items| != |a.items| then
          diffs + [DiffEntry(DisplayPath(ptr), LengthMismatch(|e.items|, |a.items|))]
        else diffs;
        DiffItems(e, a, 0, ptr, d, max)
    else if e.JObj? || a.JObj? then
      if !(e.JObj? && a.JObj?) then
        diffs + [DiffEntry(DisplayPath(ptr), TypeMismatch(ObjectTypeName(e), ObjectTypeName(a)))]
      else
        DiffKeys(e, a, UnionKeys(e.fields, a.fields), 0, ptr, diffs, max)
    else if e != a then
      diffs + [DiffEntry(DisplayPath(ptr), ValueMismatch(e, a))]
    else diffs
  }

  /** The index loop over the common prefix of two arrays. */
  function DiffItems(e: Json, a: Json, idx: nat, ptr: string, diffs: seq<DiffEntry>, max: nat): (r: seq<DiffEntry>)
    requires e.JArr? && a.JArr? && idx <= Min(|e.items|, |a.items|)
    ensures |r| >= |diffs| && r[..|diffs|] == diffs
    ensures |diffs| <= max ==> |r| <= max
    ensures e == a ==> r == diffs
    decreases e, 1, Min(|e.items|, |a.items|) - idx
  {
    if idx == Min(|e.items|, |a.items|) then diffs
    else
      var d := DiffValues(e.items[idx], a.items[idx], JoinPointer(ptr, NatText(idx)), diffs, max);
      if |d| >= max then d else DiffItems(e, a, idx + 1, ptr, d, max)
  }

  /** The loop over the sorted union of keys: keys only in the documentation
      are unexpected, keys only in the schema are missing. */
  function DiffKeys(e: Json, a: Json, keys: seq<string>, i: nat, ptr: string, diffs: seq<DiffEntry>, max: nat): (r: seq<DiffEntry>)
    requires e.JObj? && a.JObj? && i <= |keys|
    requires |diffs| < max
    ensures |r| >= |diffs| && r[..|diffs|] == diffs
    ensures |r| <= max
    ensures e == a && (forall j :: i <= j < |keys| ==> keys[j] in Keys(e.fields)) ==> r == diffs
    decreases e, 1, |keys| - i
  {
    if i == |keys| then diffs
    else
      var k := keys[i];
      var next := JoinPointer(ptr, k);
      var ev := Get(e.fields, k);
      var av := Get(a.fields, k);
      if ev.None? then
        var d := diffs + [DiffEntry(next, UnexpectedKey)];
        if |d| >= max then d else DiffKeys(e, a, keys, i + 1, ptr, d, max)
      else if av.None? then
        var d := diffs + [DiffEntry(next, MissingKey)];
        if |d| >= max then d else DiffKeys(e, a, keys, i + 1, ptr, d, max)
      else
        assert Field(k, ev.value) in e.fields;
        var d := DiffValues(ev.value, av.value, next, diffs, max);
        if |d| >= max then d else DiffKeys(e, a, keys, i + 1, ptr, d, max)
  }

  /** `diffSchemasWithNormalization`: normalise both sides, then diff. */
  function DiffSchemas(expected: Json, actual: Json, max: nat): (r: seq<DiffEntry>)
    ensures |r| <= max
    ensures Normalize(expected, "") == Normalize(actual, "") ==> r == []
  {
    DiffValues(Normalize(expected, ""), Normalize(actual, ""), "", [], max)
  }

  /** Reordering properties and `required`/`enum`/`type` entries never shows up
      as a difference. */
  lemma ReorderingIsNoDifference(expected: Json, actual: Json, max: nat)
    requires Reordered(expected, actual, "")
    ensures DiffSchemas(expected, actual, max) == []
  {
    ReorderedNormalize(expected, actual, "");
  }
}

/** A schema that differs from another in exactly one primitive leaf yields
    exactly one difference, at the JSON Pointer of that leaf. */
module SchemaDiffLeaf {
  import opened Wrappers
  import opened Json
  import opened Strings
  import opened Sorting
  import opened TextOrder
  import opened JsonPointer
  import opened SchemaDiff

  /** `fs` with the value of key `k` replaced by `nv`. */
  function ReplaceField(fs: seq<Field>, k: string, nv: Json): (r: seq<Field>)
    ensures Keys(r) == Keys(fs)
    ensures forall j :: j != k ==> Get(r, j) == Get(fs, j)
    ensures k in Keys(fs) ==> Get(r, k) == Some(nv)
  {
    if fs == [] then []
    else [if fs[0].key == k then Field(k, nv) else fs[0]] + ReplaceField(fs[1..], k, nv)
  }

  /** Every step of `path` names a property of an object with distinct keys. */
  predicate PathIn(v: Json, path: seq<string>)
    decreases |path|
  {
    path == [] || (v.JObj? && DistinctKeys(v.fields) && Get(v.fields, path[0]).Some?
                   && PathIn(Get(v.fields, path[0]).value, path[1..]))
  }

  function At(v: Json, path: seq<string>): Json
    requires PathIn(v, path)
    decreases |path|
  {
    if path == [] then v else At(Get(v.fields, path[0]).value, path[1..])
  }

  function SetAt(v: Json, path: seq<string>, leaf: Json): Json
    requires PathIn(v, path)
    decreases |path|
  {
    if path == [] then leaf
    else JObj(ReplaceField(v.fields, path[0], SetAt(Get(v.fields, path[0]).value, path[1..], leaf)))
  }

  /** The pointer reached from `ptr` along `path`. */
  function PointerFrom(ptr: string, path: seq<string>): string
    decreases |path|
  {
    if path == [] then ptr else PointerFrom(JoinPointer(ptr, path[0]), path[1..])
  }

  lemma {:induction false} LeafChange(v: Json, path: seq<string>, leaf: Json, ptr: string, diffs: seq<DiffEntry>, max: nat)
    requires PathIn(v, path) && IsPrimitive(At(v, path)) && IsPrimitive(leaf) && leaf != At(v, path)
    requires |diffs| < max
    ensures DiffValues(v, SetAt(v, path, leaf), ptr, diffs, max)
            == diffs + [DiffEntry(DisplayPath(PointerFrom(ptr, path)), ValueMismatch(At(v, path), leaf))]
    decreases |path|, 1
  {
    if path == [] {
      DiffLeaves(v, leaf, ptr, diffs, max);
    } else {
      var a := SetAt(v, path, leaf);
      var keys := UnionKeys(v.fields, a.fields);
      SortKeepsDistinct(Dedup(Keys(v.fields) + Keys(a.fields)), TextLe);
      assert path[0] in keys;
      DiffObjects(v, a, ptr, diffs, max);
      KeysLoop(v, path, leaf, keys, 0, ptr, diffs, max);
      assert keys[0..] == keys;
    }
  }

  lemma DiffObjects(e: Json, a: Json, ptr: string, diffs: seq<DiffEntry>, max: nat)
    requires e.JObj? && a.JObj? && |diffs| < max
    ensures DiffValues(e, a, ptr, diffs, max) == DiffKeys(e, a, UnionKeys(e.fields, a.fields), 0, ptr, diffs, max)
  {
  }

  lemma DiffLeaves(e: Json, a: Json, ptr: string, diffs: seq<DiffEntry>, max: nat)
    requires IsPrimitive(e) && IsPrimitive(a) && e != a && |diffs| < max
    ensures DiffValues(e, a, ptr, diffs, max) == diffs + [DiffEntry(DisplayPath(ptr), ValueMismatch(e, a))]
  {
  }

  lemma DiffKeysStep(e: Json, a: Json, keys: seq<string>, i: nat, ptr: string, diffs: seq<DiffEntry>, max: nat)
    requires e.JObj? && a.JObj? && i < |keys| && |diffs| < max
    requires Get(e.fields, keys[i]).Some? && Get(a.fields, keys[i]).Some?
    ensures var d := DiffValues(Get(e.fields, keys[i]).value, Get(a.fields, keys[i]).value,
                                JoinPointer(ptr, keys[i]), diffs, max);
            DiffKeys(e, a, keys, i, ptr, diffs, max) == if |d| >= max then d else DiffKeys(e, a, keys, i + 1, ptr, d, max)
  {
  }

  lemma {:induction false} KeysLoop(v: Json, path: seq<string>, leaf: Json, keys: seq<string>, i: nat,
                                    ptr: string, diffs: seq<DiffEntry>, max: nat)
    requires path != [] && PathIn(v, path) && IsPrimitive(At(v, path)) && IsPrimitive(leaf) && leaf != At(v, path)
    requires SetAt(v, path, leaf).JObj?
    requires i <= |keys| && Distinct(keys)
    requires forall j :: i <= j < |keys| ==> keys[j] in Keys(v.fields)
    requires |diffs| < max
    ensures path[0] in keys[i..] ==>
              DiffKeys(v, SetAt(v, path, leaf), keys, i, ptr, diffs, max)
              == diffs + [DiffEntry(DisplayPath(PointerFrom(ptr, path)), ValueMismatch(At(v, path), leaf))]
    ensures path[0] !in keys[i..] ==> DiffKeys(v, SetAt(v, path, leaf), keys, i, ptr, diffs, max) == diffs
    decreases |path|, 0, |keys| - i
  {
    var a := SetAt(v, path, leaf);
    if i < |keys| {
      var k := keys[i];
      var ev := Get(v.fields, k).value;
      var av := Get(a.fields, k).value;
      DiffKeysStep(v, a, keys, i, ptr, diffs, max);
      if k == path[0] {
        LeafChange(ev, path[1..], leaf, JoinPointer(ptr, k), diffs, max);
        var d := diffs + [DiffEntry(DisplayPath(PointerFrom(ptr, path)), ValueMismatch(At(v, path), leaf))];
        assert path[0] !in keys[i + 1..];
        if |d| < max {
          KeysLoop(v, path, leaf, keys, i + 1, ptr, d, max);
        }
      } else {
        assert av == ev;
        KeysLoop(v, path, leaf, keys, i + 1, ptr, diffs, max);
        assert path[0] in keys[i..] <==> path[0] in keys[i + 1..];
      }
    }
  }
}

/** The documented behaviour on the schema of a record with a `name` field. */
module SchemaDiffExamples {
  import opened Json
  import opened JsonPointer
  import opened SchemaNormalize
  import opened SchemaDiff
  import opened SchemaDiffLeaf

  function NameSchema(t: string): Json {
    JObj([Field("type", JStr("object")),
          Field("properties", JObj([Field("name", JObj([Field("type", JStr(t))]))]))])
  }

  function NormalNameSchema(t: string): Json {
    JObj([Field("properties", JObj([Field("name", JObj([Field("type", JStr(t))]))])),
          Field("type", JStr("object"))])
  }

  lemma SingleField(f: Field)
    ensures Sorting.Sort([f], FieldLe()) == [f]
  {
  }

  /** The two innermost objects hold one field each and are already in normal form. */
  lemma InnerNormal(t: string)
    ensures Normalize(JObj([Field("name", JObj([Field("type", JStr(t))]))]), "properties")
            == JObj([Field("name", JObj([Field("type", JStr(t))]))])
  {
    var leaf := Field("type", JStr(t));
    var inner := JObj([leaf]);
    assert NormFields([leaf]) == [leaf];
    SingleField(leaf);
    assert Normalize(inner, "name") == inner;
    var nameF := Field("name", inner);
    assert NormFields([nameF]) == [nameF];
    SingleField(nameF);
  }

  /** Sorting the top level puts `properties` before `type`. */
  lemma TopSorted(a: Field, b: Field)
    requires a.key == "type" && b.key == "properties"
    ensures Sorting.Sort([a, b], FieldLe()) == [b, a]
  {
    assert !TextOrder.TextLe("type", "properties");
    assert Sorting.Sort([b], FieldLe()) == [b];
    assert Sorting.Insert(a, [b], FieldLe()) == [b, a];
  }

  /** Fields whose values are already normal are left as they are. */
  lemma FieldsKept(fields: seq<Field>)
    requires forall i :: 0 <= i < |fields| ==> Normalize(fields[i].val, fields[i].key) == fields[i].val
    ensures NormFields(fields) == fields
  {
  }

  /** An object whose fields are normal normalises to its sorted fields. */
  lemma ObjectNormal(fields: seq<Field>, sorted: seq<Field>, parentKey: string)
    requires NormFields(fields) == fields && Sorting.Sort(fields, FieldLe()) == sorted
    ensures Normalize(JObj(fields), parentKey) == JObj(sorted)
  {
  }

  lemma NameSchemaNormalForm(t: string)
    ensures Normalize(NameSchema(t), "") == NormalNameSchema(t)
  {
    var mid := JObj([Field("name", JObj([Field("type", JStr(t))]))]);
    InnerNormal(t);
    var a := Field("type", JStr("object"));
    var b := Field("properties", mid);
    FieldsKept([a, b]);
    TopSorted(a, b);
    ObjectNormal([a, b], [b, a], "");
  }

  function NamePath(): seq<string> { ["properties", "name", "type"] }

  lemma NamePathIn()
    ensures PathIn(NormalNameSchema("string"), NamePath())
    ensures At(NormalNameSchema("string"), NamePath()) == JStr("string")
    ensures SetAt(NormalNameSchema("string"), NamePath(), JStr("number")) == NormalNameSchema("number")
  {
    var v := NormalNameSchema("string");
    var inner := JObj([Field("type", JStr("string"))]);
    var mid := JObj([Field("name", inner)]);
    assert Get(v.fields, "properties") == Wrappers.Some(mid);
    assert Get(mid.fields, "name") == Wrappers.Some(inner);
    assert Get(inner.fields, "type") == Wrappers.Some(JStr("string"));
    var n := JStr("number");
    var inner' := JObj([Field("type", n)]);
    var mid' := JObj([Field("name", inner')]);
    assert SetAt(inner, ["type"], n) == JObj(ReplaceField(inner.fields, "type", n));
    assert ReplaceField(inner.fields, "type", n) == [Field("type", n)];
    assert NamePath()[1..] == ["name", "type"];
    assert ["name", "type"][1..] == ["type"];
    assert SetAt(mid, ["name", "type"], n) == JObj(ReplaceField(mid.fields, "name", inner'));
    assert ReplaceField(mid.fields, "name", inner') == [Field("name", inner')];
    assert SetAt(v, NamePath(), n) == JObj(ReplaceField(v.fields, "properties", mid'));
    assert ReplaceField(v.fields[1..], "properties", mid') == [v.fields[1]];
  }

  lemma NamePointer3()
    ensures PointerFrom("", NamePath()) == "/properties/name/type"
  {
    JoinProperties();
    JoinName();
    JoinType();
    assert NamePath()[1..] == ["name", "type"];
    assert ["name", "type"][1..] == ["type"];
  }

  /** Joining a token that needs no escaping onto a base other than the root slash. */
  lemma JoinPlain(base: string, token: string, joined: string)
    requires base != "/" && EscapeToken(token) == token
    requires joined == base + "/" + token
    ensures JoinPointer(base, token) == joined
  {
  }

  lemma JoinProperties() ensures JoinPointer("", "properties") == "/properties" {
    Spelled("", "properties", "/properties");
    EscProperties();
    JoinPlain("", "properties", "/properties");
  }
  lemma JoinName() ensures JoinPointer("/properties", "name") == "/properties/name" {
    Spelled("/properties", "name", "/properties/name");
    EscName();
    JoinPlain("/properties", "name", "/properties/name");
  }
  lemma JoinType() ensures JoinPointer("/properties/name", "type") == "/properties/name/type" {
    Spelled("/properties/name", "type", "/properties/name/type");
    EscType();
    JoinPlain("/properties/name", "type", "/properties/name/type");
  }
  /** A literal pointer is its base, a slash and its last token, and the base is not the root slash. */
  lemma Spelled(base: string, token: string, joined: string)
    requires joined == base + "/" + token && |base| != 1
    ensures joined == base + "/" + token && base != "/"
  {
  }
  lemma EscProperties() ensures EscapeToken("properties") == "properties" { EscapePlain("properties"); }
  lemma EscName() ensures EscapeToken("name") == "name" { EscapePlain("name"); }
  lemma EscType() ensures EscapeToken("type") == "type" { EscapePlain("type"); }

  /** Two schemas whose normal forms differ in one primitive leaf yield exactly that difference. */
  lemma LeafReport(expected: Json, actual: Json, v: Json, path: seq<string>, leaf: Json, ptr: string, max: nat)
    requires PathIn(v, path) && IsPrimitive(At(v, path)) && IsPrimitive(leaf) && leaf != At(v, path)
    requires Normalize(expected, "") == v && Normalize(actual, "") == SetAt(v, path, leaf)
    requires PointerFrom("", path) == ptr && ptr != "" && 0 < max
    ensures DiffSchemas(expected, actual, max) == [DiffEntry(ptr, ValueMismatch(At(v, path), leaf))]
  {
    LeafChange(v, path, leaf, "", [], max);
  }

  /** A changed leaf type yields exactly one difference, at `/properties/name/type`. */
  lemma ChangedLeafTypeReported()
    ensures DiffSchemas(NameSchema("string"), NameSchema("number"), DefaultMaxDiffs)
            == [DiffEntry("/properties/name/type", ValueMismatch(JStr("string"), JStr("number")))]
  {
    NamePointer3();
    NameSchemaNormalForm("string");
    NameSchemaNormalForm("number");
    NamePathIn();
    LeafReport(NameSchema("string"), NameSchema("number"), NormalNameSchema("string"), NamePath(), JStr("number"),
               "/properties/name/type", DefaultMaxDiffs);
  }
}
