/** Filling in the pixel size of images referenced from scraped JSON. The
    network fetch and the header parser are one oracle: `probe` is what
    reading the image's header reports, `None` for any failure. */
module ImageDimensions {
  import opened Wrappers
  import opened Urls
  import opened Json
  import opened JsonWalk
  import opened Sorting
  import opened Security

  /** `{ width, height, type }` */
  datatype Dims = Dims(width: int, height: int, kind: string)

  /** What the header parser reports; the type may be missing. */
  datatype Probe = Probe(width: int, height: int, kind: string)

  /** `getImageDimensions(url)`: nothing for an empty URL or one this
      file's own `validateUrl` refuses, for a failed probe, or for a zero
      width or height; an empty type becomes "unknown". `parsed` is the
      parse of `url`. */
  function GetImageDimensions(url: string, parsed: Option<Url>, probe: Option<Probe>): (r: Option<Dims>)
    ensures r.Some? <==> (url != "" && ImageValidateUrlAsWritten(parsed) && probe.Some? && probe.value.width != 0 && probe.value.height != 0)
    ensures r.Some? ==> r.value.width == probe.value.width && r.value.height == probe.value.height
    ensures r.Some? ==> r.value.kind != "" && (probe.value.kind != "" ==> r.value.kind == probe.value.kind)
  {
    if url == "" || !ImageValidateUrlAsWritten(parsed) then None
    else match probe
      case None => None
      case Some(p) =>
        if p.width != 0 && p.height != 0 then Some(Dims(p.width, p.height, if p.kind == "" then "unknown" else p.kind))
        else None
  }

  /** As written, the IPv6 loopback host is measured like any public one. */
  lemma LoopbackMeasuredAsWritten(probe: Probe)
    requires probe.width != 0 && probe.height != 0
    ensures GetImageDimensions("http://[::1]/a.png", Some(Url("http:", "[::1]", "", "/a.png", "", "")), Some(probe)).Some?
  {
    LoopbackPasses("/a.png");
  }

  lemma LoopbackPasses(path: string)
    ensures ImageValidateUrlAsWritten(Some(Url("http:", "[::1]", "", path, "", "")))
  {
    var h := "[::1]";
    Ipv6TestMissesBrackets(h);
    NotPrefixAt(h, "10.", 0);
    NotPrefixAt(h, "172.", 0);
    NotPrefixAt(h, "192.168.", 0);
    NotPrefixAt(h, "169.254.", 0);
    NotPrefixAt(h, "127.", 0);
  }

  /** The per-URL results gathered into `acc`, in order. */
  function Gather(us: seq<string>, lookup: string -> Option<Dims>, acc: map<string, Dims>): (r: map<string, Dims>)
    ensures forall u :: u in r <==> u in acc || (u in us && lookup(u).Some?)
    ensures forall u :: u in r ==> r[u] == if u in us && lookup(u).Some? then lookup(u).value else acc[u]
    decreases |us|
  {
    if us == [] then acc
    else
      var next := if lookup(us[0]).Some? then acc[us[0] := lookup(us[0]).value] else acc;
      Gather(us[1..], lookup, next)
  }

  /** The URLs `getMultipleImageDimensions` looks up: each non-empty one
      once. */
  function UniqueUrls(urls: seq<string>): (r: seq<string>)
    ensures Distinct(r)
    ensures forall u :: u in r <==> u in urls && u != ""
  {
    Dedup(Keep(urls, u => u != ""))
  }

  /** `getMultipleImageDimensions(urls)`: `lookup` stands for
      `getImageDimensions`. The map holds exactly the non-empty URLs with
      dimensions. */
  function GetMultiple(urls: seq<string>, lookup: string -> Option<Dims>): (r: map<string, Dims>)
    ensures forall u :: u in r <==> u in urls && u != "" && lookup(u).Some?
    ensures forall u :: u in r ==> r[u] == lookup(u).value
  {
    Gather(UniqueUrls(urls), lookup, map[])
  }

  /** The property names the enrichment reads and writes. */
  datatype Keys = Keys(image: string, width: string, height: string, kind: string)

  const DefaultKeys := Keys("image", "imageWidth", "imageHeight", "imageType")

  predicate HasNumber(fields: seq<Field>, key: string) {
    Get(fields, key).Some? && Get(fields, key).value.JNum?
  }

  /** The image URL of an object that is to be enriched: a non-empty
      string under the image key, and, when only missing sizes are filled,
      a width or height that is not a number. */
  function TargetUrl(fields: seq<Field>, k: Keys, onlyMissing: bool): (r: Option<string>)
    ensures r.Some? ==> r.value != "" && Get(fields, k.image) == Some(JStr(r.value))
    ensures r.Some? && onlyMissing ==> !(HasNumber(fields, k.width) && HasNumber(fields, k.height))
  {
    match Get(fields, k.image)
    case Some(JStr(u)) =>
      if u != "" && (!onlyMissing || !(HasNumber(fields, k.width) && HasNumber(fields, k.height))) then Some(u) else None
    case _ => None
  }

  /** The image URLs of the targets in walk order: an object before its
      property values, arrays item by item. */
  function Targets(v: Json, k: Keys, onlyMissing: bool): seq<string>
    decreases v, 1
  {
    match v
    case JArr(items) => ItemTargets(items, k, onlyMissing)
    case JObj(fields) =>
      (if TargetUrl(fields, k, onlyMissing).Some? then [TargetUrl(fields, k, onlyMissing).value] else [])
      + FieldTargets(fields, k, onlyMissing)
    case _ => []
  }

  function ItemTargets(items: seq<Json>, k: Keys, onlyMissing: bool): seq<string>
    decreases items, 0
  {
    if items == [] then [] else Targets(items[0], k, onlyMissing) + ItemTargets(items[1..], k, onlyMissing)
  }

  function FieldTargets(fields: seq<Field>, k: Keys, onlyMissing: bool): seq<string>
    decreases fields, 0
  {
    if fields == [] then [] else Targets(fields[0].val, k, onlyMissing) + FieldTargets(fields[1..], k, onlyMissing)
  }

  /** The three writes on one target. */
  function WriteDims(fields: seq<Field>, k: Keys, d: Dims): (r: seq<Field>)
    ensures k.kind != k.width && k.height != k.width ==> Get(r, k.width) == Some(JNum(d.width))
    ensures k.kind != k.height ==> Get(r, k.height) == Some(JNum(d.height))
    ensures Get(r, k.kind) == Some(JStr(d.kind))
    ensures forall x :: x != k.width && x != k.height && x != k.kind ==> Get(r, x) == Get(fields, x)
  {
    var a := Put(fields, k.width, JNum(d.width));
    var b := Put(a, k.height, JNum(d.height));
    var r := Put(b, k.kind, JStr(d.kind));
    assert Get(a, k.width) == Some(JNum(d.width));
    assert Get(b, k.height) == Some(JNum(d.height));
    assert k.height != k.width ==> Get(b, k.width) == Get(a, k.width);
    assert forall x :: x != k.width && x != k.height && x != k.kind ==> Get(r, x) == Get(b, x) == Get(a, x) == Get(fields, x);
    r
  }

  /** The tree after the writes: every target whose URL has dimensions
      gets them, its nested values enriched first. */
  function Enrich(v: Json, k: Keys, onlyMissing: bool, dims: map<string, Dims>): Json
    decreases v, 1
  {
    match v
    case JArr(items) => JArr(EnrichItems(items, k, onlyMissing, dims))
    case JObj(fields) =>
      var inner := EnrichFields(fields, k, onlyMissing, dims);
      var t := TargetUrl(fields, k, onlyMissing);
      if t.Some? && t.value in dims then JObj(WriteDims(inner, k, dims[t.value])) else JObj(inner)
    case _ => v
  }

  function EnrichItems(items: seq<Json>, k: Keys, onlyMissing: bool, dims: map<string, Dims>): (r: seq<Json>)
    ensures |r| == |items|
    ensures forall i :: 0 <= i < |items| ==> r[i] == Enrich(items[i], k, onlyMissing, dims)
    decreases items, 0
  {
    if items == [] then [] else [Enrich(items[0], k, onlyMissing, dims)] + EnrichItems(items[1..], k, onlyMissing, dims)
  }

  function EnrichFields(fields: seq<Field>, k: Keys, onlyMissing: bool, dims: map<string, Dims>): (r: seq<Field>)
    ensures |r| == |fields|
    ensures forall i :: 0 <= i < |fields| ==> r[i] == Field(fields[i].key, Enrich(fields[i].val, k, onlyMissing, dims))
    decreases fields, 0
  {
    if fields == [] then []
    else [Field(fields[0].key, Enrich(fields[0].val, k, onlyMissing, dims))] + EnrichFields(fields[1..], k, onlyMissing, dims)
  }

  /** `{ candidates, enriched, missing }` */
  datatype Stats = Stats(candidates: nat, enriched: nat, missing: nat)

  /** `enrichMissingImageDimensions(root, options)`: the enriched tree and
      the counts. `lookup` stands for `getImageDimensions`. */
  function EnrichMissing(root: Json, k: Keys, onlyMissing: bool, lookup: string -> Option<Dims>): (r: (Json, Stats))
    ensures r.1.candidates == |Targets(root, k, onlyMissing)|
    ensures r.1.enriched == |Keep(Targets(root, k, onlyMissing), u => lookup(u).Some?)|
    ensures r.1.enriched + r.1.missing == r.1.candidates
  {
    var targets := Targets(root, k, onlyMissing);
    if |targets| == 0 then (root, Stats(0, 0, 0))
    else
      var dims := GetMultiple(Dedup(targets), lookup);
      TargetsNonEmpty(root, k, onlyMissing);
      assert forall i :: 0 <= i < |targets| ==> (targets[i] in dims <==> lookup(targets[i]).Some?) by {
        forall i | 0 <= i < |targets| ensures targets[i] in dims <==> lookup(targets[i]).Some? {
          assert targets[i] in targets && targets[i] in Dedup(targets);
        }
      }
      KeepSame(targets, u => u in dims, u => lookup(u).Some?);
      var enriched := |Keep(targets, u => u in dims)|;
      (Enrich(root, k, onlyMissing, dims), Stats(|targets|, enriched, |targets| - enriched))
  }

  /** Target URLs are never empty. */
  lemma {:induction false} TargetsNonEmpty(v: Json, k: Keys, onlyMissing: bool)
    ensures forall u :: u in Targets(v, k, onlyMissing) ==> u != ""
    decreases v, 1
  {
    match v
    case JArr(items) => ItemTargetsNonEmpty(items, k, onlyMissing);
    case JObj(fields) => FieldTargetsNonEmpty(fields, k, onlyMissing);
    case _ =>
  }

  lemma {:induction false} ItemTargetsNonEmpty(items: seq<Json>, k: Keys, onlyMissing: bool)
    ensures forall u :: u in ItemTargets(items, k, onlyMissing) ==> u != ""
    decreases items, 0
  {
    if items != [] {
      TargetsNonEmpty(items[0], k, onlyMissing);
      ItemTargetsNonEmpty(items[1..], k, onlyMissing);
    }
  }

  lemma {:induction false} FieldTargetsNonEmpty(fields: seq<Field>, k: Keys, onlyMissing: bool)
    ensures forall u :: u in FieldTargets(fields, k, onlyMissing) ==> u != ""
    decreases fields, 0
  {
    if fields != [] {
      TargetsNonEmpty(fields[0].val, k, onlyMissing);
      FieldTargetsNonEmpty(fields[1..], k, onlyMissing);
    }
  }

  /** With no dimensions known the tree is left as it is. */
  lemma {:induction false} EnrichNothing(v: Json, k: Keys, onlyMissing: bool)
    ensures Enrich(v, k, onlyMissing, map[]) == v
    decreases v, 1
  {
    match v
    case JArr(items) =>
      forall i | 0 <= i < |items| ensures EnrichItems(items, k, onlyMissing, map[])[i] == items[i] {
        EnrichNothing(items[i], k, onlyMissing);
      }
    case JObj(fields) =>
      forall i | 0 <= i < |fields| ensures EnrichFields(fields, k, onlyMissing, map[])[i] == fields[i] {
        EnrichNothing(fields[i].val, k, onlyMissing);
      }
    case _ =>
  }

  /** An enriched object has a numeric width and height afterwards, so a
      second run with only missing sizes leaves it out. Any three distinct
      size keys will do, the default ones among them. */
  lemma EnrichedNotMissing(fields: seq<Field>, k: Keys, onlyMissing: bool, dims: map<string, Dims>)
    requires k.width != k.height && k.width != k.kind && k.height != k.kind
    requires TargetUrl(fields, k, onlyMissing).Some? && TargetUrl(fields, k, onlyMissing).value in dims
    ensures Enrich(JObj(fields), k, onlyMissing, dims).JObj?
    ensures var out := Enrich(JObj(fields), k, onlyMissing, dims).fields;
      HasNumber(out, k.width) && HasNumber(out, k.height) && TargetUrl(out, k, true).None?
  {
    var d := dims[TargetUrl(fields, k, onlyMissing).value];
    var inner := EnrichFields(fields, k, onlyMissing, dims);
    EnrichTarget(fields, k, onlyMissing, dims);
    WrittenNotMissing(inner, k, d);
  }

  /** An object whose target URL has dimensions gets the writes. */
  lemma EnrichTarget(fields: seq<Field>, k: Keys, onlyMissing: bool, dims: map<string, Dims>)
    requires TargetUrl(fields, k, onlyMissing).Some? && TargetUrl(fields, k, onlyMissing).value in dims
    ensures Enrich(JObj(fields), k, onlyMissing, dims)
            == JObj(WriteDims(EnrichFields(fields, k, onlyMissing, dims), k, dims[TargetUrl(fields, k, onlyMissing).value]))
  {
  }

  /** With distinct keys, the writes leave a numeric width and height. */
  lemma WrittenNotMissing(fields: seq<Field>, k: Keys, d: Dims)
    requires k.width != k.height && k.width != k.kind && k.height != k.kind
    ensures var out := WriteDims(fields, k, d);
      HasNumber(out, k.width) && HasNumber(out, k.height) && TargetUrl(out, k, true).None?
  {
  }
}
