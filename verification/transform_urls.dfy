/** The script that rewrites the data files in place with the blob URL
    map: every string leaf with a truthy entry in the map is replaced by
    that entry, image URL or not. The map file is a parsed JSON object;
    the data files are given as (path, parsed content) pairs, `None`
    standing for a file that does not parse. */
module TransformUrlsScript {
  import opened Wrappers
  import opened Strings
  import opened Json
  import opened JsonWalk
  import opened UploadCommon

  // ------------------------------------------------------- the map lookup

  /** `urlMap[s]` finds an own truthy entry. */
  predicate Hit(m: seq<Field>, s: string) {
    TruthyOpt(Get(m, s))
  }

  /** The replacement of one string leaf. */
  function Replace(m: seq<Field>): string -> Json {
    s => if Hit(m, s) then Get(m, s).value else JStr(s)
  }

  /** `transformUrls(obj, urlMap, stats)`: the rewritten tree and the count
      `stats.transformed` reaches. */
  function Transform(v: Json, m: seq<Field>): (r: (Json, nat))
    ensures Reshaped(v, r.0, s => Hit(m, s))
    ensures r.1 == |Keep(Leaves(v), s => Hit(m, s))|
    ensures r.1 == 0 ==> r.0 == v
  {
    MapCountExact(v, Replace(m), s => Hit(m, s), 0);
    MapReshaped(v, Replace(m), s => Hit(m, s));
    if |Keep(Leaves(v), s => Hit(m, s))| == 0 then
      NoHitKept(v, m);
      MapCount(v, Replace(m), s => Hit(m, s), 0)
    else MapCount(v, Replace(m), s => Hit(m, s), 0)
  }

  /** Without a single hit, the rewrite is the identity. */
  lemma NoHitKept(v: Json, m: seq<Field>)
    requires |Keep(Leaves(v), s => Hit(m, s))| == 0
    ensures MapStrings(v, Replace(m)) == v
  {
    var hits := Keep(Leaves(v), s => Hit(m, s));
    assert forall s :: s in Leaves(v) ==> !Hit(m, s) by {
      assert hits == [];
    }
    LeafwiseIdentity(v, Replace(m));
  }

  /** A rewrite that leaves each leaf of `v` alone leaves `v` alone. */
  lemma {:induction false} LeafwiseIdentity(v: Json, f: string -> Json)
    requires forall s :: s in Leaves(v) ==> f(s) == JStr(s)
    ensures MapStrings(v, f) == v
    decreases v, 1
  {
    match v
    case JStr(s) =>
    case JArr(items) => ItemsIdentity(items, f);
    case JObj(fields) => FieldsIdentity(fields, f);
    case _ =>
  }

  lemma {:induction false} ItemsIdentity(items: seq<Json>, f: string -> Json)
    requires forall s :: s in ItemLeaves(items) ==> f(s) == JStr(s)
    ensures MapItems(items, f) == items
    decreases items, 0
  {
    if items != [] {
      LeafwiseIdentity(items[0], f);
      ItemsIdentity(items[1..], f);
      assert MapItems(items, f)[0] == items[0];
      assert MapItems(items, f)[1..] == MapItems(items[1..], f);
    }
  }

  lemma {:induction false} FieldsIdentity(fields: seq<Field>, f: string -> Json)
    requires forall s :: s in FieldLeaves(fields) ==> f(s) == JStr(s)
    ensures MapFields(fields, f) == fields
    decreases fields, 0
  {
    if fields != [] {
      LeafwiseIdentity(fields[0].val, f);
      FieldsIdentity(fields[1..], f);
      assert MapFields(fields, f)[0] == fields[0];
      assert MapFields(fields, f)[1..] == MapFields(fields[1..], f);
    }
  }

  /** Any string with a truthy entry is replaced, whether or not it looks
      like an image URL. */
  lemma AnyStringReplaced(m: seq<Field>, s: string)
    requires Hit(m, s)
    ensures Transform(JStr(s), m) == (Get(m, s).value, 1)
  {
    assert Leaves(JStr(s)) == [s];
  }

  // ------------------------------------------------------- one file

  /** What `processFile` writes back: the tree and whether it is minified. */
  datatype Output = Output(value: Json, minified: bool)

  /** The count, the write (if any) and whether the file failed to parse. */
  datatype FileStats = FileStats(transformed: nat, output: Option<Output>, error: bool)

  /** `processFile(filePath, urlMap)`: a parse failure counts nothing and
      writes nothing; otherwise the file is written back only in a live
      run with at least one replacement, minified iff its path holds
      ".min.json". */
  function ProcessFile(path: string, content: Option<Json>, m: seq<Field>, dryRun: bool): (r: FileStats)
    ensures r.error <==> content.None?
    ensures r.output.Some? <==> content.Some? && r.transformed > 0 && !dryRun
    ensures r.output.Some? ==> (r.output.value.minified <==> Contains(path, ".min.json"))
    ensures content.Some? ==> r.transformed == |Keep(Leaves(content.value), s => Hit(m, s))|
    ensures r.output.Some? ==> Reshaped(content.value, r.output.value.value, s => Hit(m, s))
  {
    match content
    case None => FileStats(0, None, true)
    case Some(data) =>
      var (t, n) := Transform(data, m);
      if n > 0 && !dryRun then FileStats(n, Some(Output(t, Contains(path, ".min.json"))), false)
      else FileStats(n, None, false)
  }

  // ------------------------------------------------------- the run

  /** `findJsonFiles(DATA_DIR)`: "temp" directories are not entered and
      the URL map itself is never a data file. */
  function FindJsonFiles(root: seq<Entry>, dir: string): (r: seq<string>)
    ensures forall i :: 0 <= i < |r| ==> EndsWith(r[i], ".json")
  {
    DataFilesIn(root, dir, true, ["blob-url-map"])
  }

  /** The URL map file, even beside the data files, is not rewritten. */
  lemma MapFileNotListed(dir: string)
    ensures FindJsonFiles([File("blob-url-map.json")], dir) == []
  {
    var name := "blob-url-map.json";
    assert name[0..12] == "blob-url-map";
    ContainsAt(name, "blob-url-map", 0);
    var excluded := ["blob-url-map"];
    assert excluded[0] == "blob-url-map";
    assert !DataFileName(name, ["blob-url-map"]);
    assert DataFiles(File(name), dir, true, ["blob-url-map"]) == [];
  }

  /** The totals of the loop over the files. */
  datatype Totals = Totals(transformed: nat, modified: nat, written: seq<string>)

  function ProcessAll(files: seq<(string, Option<Json>)>, m: seq<Field>, dryRun: bool): (r: Totals)
    ensures r.modified <= |files|
    ensures dryRun ==> r.written == []
    ensures r.transformed == 0 ==> r.modified == 0 && r.written == []
    ensures forall p :: p in r.written ==> exists i :: 0 <= i < |files| && files[i].0 == p
  {
    if files == [] then Totals(0, 0, [])
    else
      var st := ProcessFile(files[0].0, files[0].1, m, dryRun);
      var rest := ProcessAll(files[1..], m, dryRun);
      assert forall p :: p in rest.written ==> exists i :: 0 <= i < |files| && files[i].0 == p by {
        forall p | p in rest.written ensures exists i :: 0 <= i < |files| && files[i].0 == p {
          var j :| 0 <= j < |files[1..]| && files[1..][j].0 == p;
          assert files[j + 1].0 == p;
        }
      }
      Totals(st.transformed + rest.transformed,
             (if st.transformed > 0 then 1 else 0) + rest.modified,
             (if st.output.Some? then [files[0].0] else []) + rest.written)
  }

  /** The end of `main`. */
  datatype Exit = Failed | NothingToDo | Finished(totals: Totals)

  /** `main()`: without a map file the process exits with code 1, with an
      empty map it exits with 0 before reading any data file. A map file
      that does not parse throws out of `main`, also ending with code 1. */
  function RunScript(mapFile: Option<seq<Field>>, files: seq<(string, Option<Json>)>, dryRun: bool): (r: Exit)
    ensures r == Failed <==> mapFile.None?
    ensures r == NothingToDo <==> mapFile == Some([])
    ensures r.Finished? ==> r.totals == ProcessAll(files, mapFile.value, dryRun)
  {
    match mapFile
    case None => Failed
    case Some(m) => if |Keys(m)| == 0 then NothingToDo else Finished(ProcessAll(files, m, dryRun))
  }

  /** Which exit code the process ends with. */
  function ExitCode(e: Exit): (code: int)
    ensures code == 1 <==> e == Failed
  {
    if e == Failed then 1 else 0
  }

  // ------------------------------------------------------- inherited keys

  /** Names every object parsed by `JSON.parse` inherits from
      `Object.prototype`; reading any of them gives a truthy value. */
  const InheritedNames: seq<string> := ["constructor", "__proto__", "hasOwnProperty", "isPrototypeOf",
    "propertyIsEnumerable", "toString", "valueOf", "toLocaleString", "__defineGetter__",
    "__defineSetter__", "__lookupGetter__", "__lookupSetter__"]

  /** `urlMap[s]` as the script reads it: an own truthy entry, or an
      inherited member that no own entry shadows. */
  predicate HitAsWritten(m: seq<Field>, s: string) {
    Hit(m, s) || (Get(m, s).None? && s in InheritedNames)
  }

  /** `stats.transformed` as the script computes it: one per string leaf
      for which `urlMap[s]` is truthy, inherited members included. */
  function TransformedAsWritten(v: Json, m: seq<Field>): (n: nat)
    ensures n == |Keep(Leaves(v), s => HitAsWritten(m, s))|
    ensures n >= Transform(v, m).1
  {
    MapCountExact(v, Replace(m), s => HitAsWritten(m, s), 0);
    KeepWider(Leaves(v), s => Hit(m, s), s => HitAsWritten(m, s));
    MapCount(v, Replace(m), s => HitAsWritten(m, s), 0).1
  }

  /** A wider filter keeps at least as much. */
  lemma {:induction false} KeepWider(xs: seq<string>, p: string -> bool, q: string -> bool)
    requires forall s :: p(s) ==> q(s)
    ensures |Keep(xs, p)| <= |Keep(xs, q)|
  {
    if xs != [] {
      KeepWider(xs[1..], p, q);
    }
  }

  /** The write decision of `processFile` as written. */
  predicate WritesAsWritten(v: Json, m: seq<Field>, dryRun: bool) {
    TransformedAsWritten(v, m) > 0 && !dryRun
  }

  /** A data file holding the plain string "constructor" is rewritten
      although the map has no entry for it: the inherited constructor
      function is read as a mapping and the string is replaced by it. The
      own-entry lookup writes nothing. */
  lemma ConstructorRewrittenAsWritten()
    ensures var data := JArr([JStr("constructor")]);
      var m := [Field("https://x.io/a.png", JStr("https://pokemn.quest/a.png"))];
      WritesAsWritten(data, m, false) && ProcessFile("data/x.json", Some(data), m, false).output.None?
  {
    var data := JArr([JStr("constructor")]);
    var m := [Field("https://x.io/a.png", JStr("https://pokemn.quest/a.png"))];
    assert Leaves(data) == ["constructor"];
    assert Get(m, "constructor") == None by {
      assert "https://x.io/a.png"[0] != "constructor"[0];
    }
    assert HitAsWritten(m, "constructor");
    assert Keep(["constructor"], s => HitAsWritten(m, s)) == ["constructor"];
    assert Keep(["constructor"], s => Hit(m, s)) == [];
  }

  /** The two lookups agree on every string that is no inherited name, so
      the own-entry lookup only drops the spurious hits. */
  lemma HitAgrees(m: seq<Field>, s: string)
    requires s !in InheritedNames
    ensures HitAsWritten(m, s) <==> Hit(m, s)
  {
  }

  /** With the own-entry lookup, an empty map rewrites nothing at all. */
  lemma EmptyMapRewritesNothing(path: string, data: Json, dryRun: bool)
    ensures ProcessFile(path, Some(data), [], dryRun) == FileStats(0, None, false)
  {
    assert Keep(Leaves(data), s => Hit([], s)) == [] by {
      NoneKept(Leaves(data), s => Hit([], s));
    }
  }

  lemma {:induction false} NoneKept(xs: seq<string>, p: string -> bool)
    requires forall s :: !p(s)
    ensures Keep(xs, p) == []
  {
    if xs != [] {
      NoneKept(xs[1..], p);
    }
  }
}
