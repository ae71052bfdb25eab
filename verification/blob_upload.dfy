/** The current blob uploader: which image URLs are uploaded, under which
    blob path, how event banners are halved, how the URL map is updated
    from each upload's outcome, and the repair pass. Downloads, uploads and
    availability checks are oracles passed in as functions. */
module BlobUpload {
  import opened Wrappers
  import opened Strings
  import opened Urls
  import opened JsonWalk
  import opened BlobNaming

  const CustomDomain := "https://pokemn.quest"
  const StoreSuffix := ".public.blob.vercel-storage.com"

  // ------------------------------------------------ the custom domain

  /** The first '/' at or after `i`, or the end. */
  function SlashFrom(b: string, i: nat): (j: nat)
    requires i <= |b|
    ensures i <= j <= |b| && (j == |b| || b[j] == '/')
    ensures forall k :: i <= k < j ==> b[k] != '/'
    decreases |b| - i
  {
    if i == |b| || b[i] == '/' then i else SlashFrom(b, i + 1)
  }

  /** The largest end `k` in `(lo, hi]` where the store suffix ends: the
      greedy `[^/]+` backing off. */
  function SuffixEnd(b: string, lo: nat, hi: nat): (r: Option<nat>)
    requires hi <= |b|
    ensures r.Some? ==> lo < r.value <= hi && EndsWith(b[..r.value], StoreSuffix)
    ensures r.None? ==> forall k :: lo < k <= hi ==> !EndsWith(b[..k], StoreSuffix)
    decreases hi
  {
    if hi <= lo then None
    else if EndsWith(b[..hi], StoreSuffix) then Some(hi)
    else SuffixEnd(b, lo, hi - 1)
  }

  /** `blob.url.replace(/^https:\/\/[^/]+\.public\.blob\.vercel-storage\.com/,
      'https://pokemn.quest')` */
  function ToCustomDomain(b: string): (r: string)
    ensures r == b || (StartsWith(b, "https://") && StartsWith(r, CustomDomain) && EndsWith(b, r[|CustomDomain|..]))
  {
    if !StartsWith(b, "https://") then b
    else
      match SuffixEnd(b, 8 + |StoreSuffix|, SlashFrom(b, 8))
      case None => b
      case Some(k) =>
        var r := CustomDomain + b[k..];
        assert r[..|CustomDomain|] == CustomDomain && r[|CustomDomain|..] == b[k..];
        r
  }

  /** A store URL keeps its path under the custom domain. */
  lemma CustomDomainOfStoreUrl(store: string, path: string)
    requires store != "" && '/' !in store && (path == "" || path[0] == '/')
    ensures ToCustomDomain("https://" + store + StoreSuffix + path) == CustomDomain + path
  {
    var head := "https://" + store + StoreSuffix;
    var b := head + path;
    var e := |head|;
    assert b[..8] == "https://";
    forall k | 8 <= k < e ensures b[k] != '/' {
      if k < 8 + |store| {
        assert b[k] == store[k - 8];
      } else {
        assert b[k] == StoreSuffix[k - 8 - |store|];
      }
    }
    assert e == |b| || b[e] == '/';
    SlashFromStops(b, 8, e);
    assert b[..e] == head;
    assert EndsWith(b[..e], StoreSuffix) by {
      assert head[|head| - |StoreSuffix|..] == StoreSuffix;
    }
    assert b[e..] == path;
  }

  lemma SlashFromStops(b: string, i: nat, e: nat)
    requires i <= e <= |b| && (e == |b| || b[e] == '/')
    requires forall k :: i <= k < e ==> b[k] != '/'
    ensures SlashFrom(b, i) == e
  {
  }

  // ------------------------------------------------ what is uploaded

  /** A URL the map already sends somewhere: `urlMap[url]` is truthy. */
  predicate Mapped(m: map<string, string>, u: string) {
    u in m && m[u] != ""
  }

  /** `getUrlsToProcess(uniqueUrls, urlMap, force)`: everything when
      forced, otherwise the URLs not yet mapped, in order. */
  function UrlsToProcess(unique: seq<string>, m: map<string, string>, force: bool): (r: seq<string>)
    ensures force ==> r == unique
    ensures !force ==> forall u :: u in r <==> u in unique && !Mapped(m, u)
    ensures |r| <= |unique|
  {
    if force then unique else Keep(unique, u => !Mapped(m, u))
  }

  /** `urlToPathname(url)`: the blob path of the canonical form. `parse`
      stands for `new URL`, `decode` for `decodeURIComponent` (`None` where
      it throws), `hash` for `shortHash`, `table` for the dex table. */
  function UploadPathname(url: string, parse: string -> Option<Url>, decode: string -> Option<string>,
                          hash: string -> string, table: seq<(string, string)>): (r: Option<string>)
    ensures r.Some? ==> InCategory(r.value)
    ensures parse(Canonicalize(url, parse(url))).None? ==> r.Some? && StartsWith(r.value, "misc/")
    ensures parse(url).None? ==> r == BlobPathname(url, parse(url), decode, hash, table)
  {
    var c := Canonicalize(url, parse(url));
    BlobPathname(c, parse(c), decode, hash, table)
  }

  /** `isEventBannerPath(pathname)` */
  predicate IsEventBannerPath(p: string) {
    StartsWith(p, "events/")
  }

  // ------------------------------------------------ banner resizing

  datatype Size = Size(width: nat, height: nat)

  /** `Math.max(1, Math.round(side * 0.5))`; halves round up. */
  function HalfSide(side: nat): (r: nat)
    ensures r >= 1
    ensures side >= 1 ==> r <= side && (r == side <==> side == 1)
    ensures side >= 2 ==> r + r == side || r + r == side + 1
  {
    if (side + 1) / 2 < 1 then 1 else (side + 1) / 2
  }

  /** `maybeResizeEventBanner`: the target size when a banner is resized,
      `None` when the original bytes are kept. `meta` is what the image
      decoder reports. */
  function ResizeTarget(pathname: string, contentType: string, meta: Option<Size>): (r: Option<Size>)
    ensures r.Some? <==> (IsEventBannerPath(pathname) && contentType != "image/svg+xml" && contentType != "image/gif"
                          && meta.Some? && meta.value.width > 0 && meta.value.height > 0 && (meta.value.width > 1 || meta.value.height > 1))
    ensures r.Some? ==> 1 <= r.value.width <= meta.value.width && 1 <= r.value.height <= meta.value.height
  {
    if !IsEventBannerPath(pathname) then None
    else if contentType == "image/svg+xml" || contentType == "image/gif" then None
    else match meta
      case None => None
      case Some(s) =>
        if s.width == 0 || s.height == 0 then None
        else
          var t := Size(HalfSide(s.width), HalfSide(s.height));
          if t == s then None else Some(t)
  }

  // ------------------------------------------------ the URL map

  /** What `put` did: stored at a URL, or threw with a message. */
  datatype Outcome = Stored(blobUrl: string) | Threw(message: string)

  /** An outcome that counts as a failure: an error other than "already
      exists". */
  predicate Fails(o: Outcome) {
    o.Threw? && !Contains(o.message, "already exists")
  }

  /** Map the URL and, when different and non-empty, its canonical form. */
  function Record(m: map<string, string>, url: string, canonical: string, value: string): (r: map<string, string>)
    ensures url in r && r[url] == value
    ensures canonical != "" ==> canonical in r && r[canonical] == value
    ensures forall k :: k in r <==> k in m || k == url || (k == canonical && canonical != "")
    ensures forall k :: k in m && k != url && k != canonical ==> r[k] == m[k]
  {
    var r := m[url := value];
    if canonical != "" && canonical != url then r[canonical := value] else r
  }

  /** The map after one upload, and whether it counts as a success. */
  function Step(m: map<string, string>, url: string, canonical: string, pathname: string, o: Outcome): (r: (map<string, string>, bool))
    ensures r.1 <==> !Fails(o)
    ensures !r.1 ==> r.0 == m
    ensures r.1 ==> url in r.0 && (canonical != "" ==> canonical in r.0)
  {
    match o
    case Stored(b) => (Record(m, url, canonical, ToCustomDomain(b)), true)
    case Threw(msg) =>
      if Contains(msg, "already exists") then (Record(m, url, canonical, CustomDomain + "/" + pathname), true)
      else (m, false)
  }

  /** Count of the URLs whose outcome fails. */
  function Failures(urls: seq<string>, outcome: string -> Outcome): (n: nat)
    ensures n <= |urls|
  {
    if urls == [] then 0 else (if Fails(outcome(urls[0])) then 1 else 0) + Failures(urls[1..], outcome)
  }

  /** Some URL has no blob path: its `urlToPathname` call threw. */
  predicate Unplaceable(urls: seq<string>, pathname: string -> Option<string>) {
    exists i :: 0 <= i < |urls| && pathname(urls[i]).None?
  }

  /** The upload loop, one URL after another: the final map, and the
      success and failure counts. `pathname` gives `None` where
      `urlToPathname` throws; that call sits outside the `try`, so the throw
      rejects the batch's `Promise.all` and the whole run: `None`. */
  function Run(urls: seq<string>, m: map<string, string>, outcome: string -> Outcome, canonical: string -> string,
               pathname: string -> Option<string>): (r: Option<(map<string, string>, nat, nat)>)
    ensures r.None? <==> Unplaceable(urls, pathname)
    ensures r.Some? ==> r.value.1 + r.value.2 == |urls|
    ensures r.Some? ==> r.value.2 == Failures(urls, outcome)
    ensures r.Some? ==> forall k :: k in m ==> k in r.value.0
    ensures r.Some? ==> forall i :: 0 <= i < |urls| && !Fails(outcome(urls[i])) ==> urls[i] in r.value.0
    decreases |urls|
  {
    if urls == [] then Some((m, 0, 0))
    else
      var u := urls[0];
      assert forall i :: 1 <= i < |urls| ==> urls[i] == urls[1..][i - 1];
      match pathname(u)
      case None => None
      case Some(p) =>
        var (m1, ok) := Step(m, u, canonical(u), p, outcome(u));
        match Run(urls[1..], m1, outcome, canonical, pathname)
        case None => None
        case Some((m2, s, f)) => Some((m2, s + (if ok then 1 else 0), f + (if ok then 0 else 1)))
  }

  /** Every value written is non-empty when the store never answers with
      an empty URL. */
  lemma {:induction false} RunWritesNonEmpty(urls: seq<string>, m: map<string, string>, outcome: string -> Outcome,
                                            canonical: string -> string, pathname: string -> Option<string>)
    requires forall i :: 0 <= i < |urls| && outcome(urls[i]).Stored? ==> outcome(urls[i]).blobUrl != ""
    ensures var r := Run(urls, m, outcome, canonical, pathname);
      r.Some? ==> forall k :: Mapped(m, k) ==> Mapped(r.value.0, k)
    ensures var r := Run(urls, m, outcome, canonical, pathname);
      r.Some? ==> forall i :: 0 <= i < |urls| && !Fails(outcome(urls[i])) ==> Mapped(r.value.0, urls[i])
    decreases |urls|
  {
    if urls != [] && pathname(urls[0]).Some? {
      var u := urls[0];
      var o := outcome(u);
      var (m1, ok) := Step(m, u, canonical(u), pathname(u).value, o);
      assert forall k :: Mapped(m, k) ==> Mapped(m1, k) by {
        if o.Stored? {
          ToCustomDomainNonEmpty(o.blobUrl);
        }
      }
      assert !Fails(o) ==> Mapped(m1, u) by {
        if o.Stored? {
          ToCustomDomainNonEmpty(o.blobUrl);
        }
      }
      RunWritesNonEmpty(urls[1..], m1, outcome, canonical, pathname);
      assert forall i :: 1 <= i < |urls| ==> urls[i] == urls[1..][i - 1];
    }
  }

  lemma ToCustomDomainNonEmpty(b: string)
    requires b != ""
    ensures ToCustomDomain(b) != ""
  {
  }

  /** A second run without `--force` retries only what failed: every URL
      that succeeded, or was already mapped, is now skipped. */
  lemma RerunSkipsDone(unique: seq<string>, m: map<string, string>, outcome: string -> Outcome,
                       canonical: string -> string, pathname: string -> Option<string>)
    requires forall u :: outcome(u).Stored? ==> outcome(u).blobUrl != ""
    ensures var todo := UrlsToProcess(unique, m, false);
      var r := Run(todo, m, outcome, canonical, pathname);
      r.Some? ==> forall u :: u in UrlsToProcess(unique, r.value.0, false) ==> u in todo && Fails(outcome(u))
  {
    var todo := UrlsToProcess(unique, m, false);
    RunWritesNonEmpty(todo, m, outcome, canonical, pathname);
  }

  /** The result of `main` without `--repair`: the map, the counts, and
      whether the map file is written. A dry run uploads nothing. */
  datatype Report = Report(urlMap: map<string, string>, success: nat, failed: nat, saved: bool)

  /** `None` is the run that a throwing `urlToPathname` aborts, dry run
      included: `main().catch` exits with 1 and no map is saved. */
  function Upload(unique: seq<string>, m: map<string, string>, force: bool, dryRun: bool,
                  outcome: string -> Outcome, canonical: string -> string, pathname: string -> Option<string>): (r: Option<Report>)
    ensures r.None? <==> Unplaceable(UrlsToProcess(unique, m, force), pathname)
    ensures r.Some? ==> (r.value.saved <==> !dryRun && r.value.success > 0)
    ensures r.Some? && dryRun ==> r.value.urlMap == m && r.value.failed == 0 && r.value.success == |UrlsToProcess(unique, m, force)|
    ensures r.Some? ==> r.value.success + r.value.failed == |UrlsToProcess(unique, m, force)|
  {
    var todo := UrlsToProcess(unique, m, force);
    if dryRun then
      if Unplaceable(todo, pathname) then None else Some(Report(m, |todo|, 0, false))
    else
      match Run(todo, m, outcome, canonical, pathname)
      case None => None
      case Some((m2, s, f)) => Some(Report(m2, s, f, s > 0))
  }

  /** A URL to process whose canonical form parses but whose path does not
      decode aborts the upload, whatever the outcomes. */
  lemma UndecodableAbortsUpload(unique: seq<string>, m: map<string, string>, force: bool, dryRun: bool,
                                outcome: string -> Outcome, canonical: string -> string, url: string,
                                parse: string -> Option<Url>, decode: string -> Option<string>,
                                hash: string -> string, table: seq<(string, string)>)
    requires url in UrlsToProcess(unique, m, force)
    requires parse(Canonicalize(url, parse(url))).Some?
    requires decode(parse(Canonicalize(url, parse(url))).value.pathname).None?
    ensures Upload(unique, m, force, dryRun, outcome, canonical, u => UploadPathname(u, parse, decode, hash, table)).None?
  {
    var c := Canonicalize(url, parse(url));
    UndecodableFails(c, parse(c).value, decode, hash, table);
    var todo := UrlsToProcess(unique, m, force);
    var i :| 0 <= i < |todo| && todo[i] == url;
  }

  // ------------------------------------------------ repair

  /** Keep the first source URL of each blob URL, in map order. */
  function BlobToSource(entries: seq<(string, string)>): (r: seq<(string, string)>)
    ensures forall i, j :: 0 <= i < j < |r| ==> r[i].0 != r[j].0
    ensures forall b :: Lookup(r, b) == Lookup(Swap(entries), b)
  {
    var r := FirstWins(Swap(entries));
    forall b ensures Lookup(r, b) == Lookup(Swap(entries), b) {
      FirstWinsLookup(Swap(entries), b);
    }
    r
  }

  /** `(sourceUrl, blobUrl)` pairs turned round. */
  function Swap(entries: seq<(string, string)>): (r: seq<(string, string)>)
    ensures |r| == |entries| && forall i :: 0 <= i < |entries| ==> r[i] == (entries[i].1, entries[i].0)
  {
    seq(|entries|, i requires 0 <= i < |entries| => (entries[i].1, entries[i].0))
  }

  /** The pairs whose blob `ok` says is unreachable, in order. */
  function Unreachable(blobs: seq<(string, string)>, ok: string -> bool): (r: seq<(string, string)>)
    ensures forall p :: p in r <==> p in blobs && !ok(p.0)
  {
    if blobs == [] then []
    else (if ok(blobs[0].0) then [] else [blobs[0]]) + Unreachable(blobs[1..], ok)
  }

  /** The number of the first ten blobs that are unreachable. */
  function SampleFails(sample: seq<(string, string)>, ok: string -> bool): (n: nat)
    ensures n <= |sample|
    ensures n == |sample| <==> forall i :: 0 <= i < |sample| ==> !ok(sample[i].0)
  {
    if sample == [] then 0
    else
      var n := SampleFails(sample[1..], ok);
      assert forall i :: 1 <= i < |sample| ==> sample[i] == sample[1..][i - 1];
      (if ok(sample[0].0) then 0 else 1) + n
  }

  /** `runRepair`'s choice of blobs to re-upload: all of them when every
      sampled blob is unreachable (an empty map counts), otherwise the
      unreachable ones. `ok` stands for `isBlobAccessible`. */
  function ToRepair(entries: seq<(string, string)>, ok: string -> bool): (r: seq<(string, string)>)
    ensures forall p :: p in r ==> p in BlobToSource(entries)
    ensures forall p :: p in BlobToSource(entries) && !ok(p.0) ==> p in r
    ensures (exists i :: 0 <= i < |BlobToSource(entries)| && i < 10 && ok(BlobToSource(entries)[i].0))
      ==> forall p :: p in r <==> p in BlobToSource(entries) && !ok(p.0)
  {
    var blobs := BlobToSource(entries);
    var size := if |blobs| < 10 then |blobs| else 10;
    var sample := blobs[..size];
    var systemic := SampleFails(sample, ok) == size;
    if systemic then
      blobs
    else
      Unreachable(blobs, ok)
  }

  /** The blob path of a custom-domain URL, as the repair pass recovers
      it: the domain and its slash removed. */
  function RepairPathname(blobUrl: string): (r: string)
    ensures StartsWith(blobUrl, CustomDomain + "/") ==> blobUrl == CustomDomain + "/" + r
    ensures !StartsWith(blobUrl, CustomDomain + "/") ==> r == blobUrl
  {
    var head := CustomDomain + "/";
    if StartsWith(blobUrl, head) then
      assert blobUrl == head + blobUrl[|head|..];
      blobUrl[|head|..]
    else blobUrl
  }

  /** The repair pass recovers the path the "already exists" branch
      mapped. */
  lemma RepairPathnameRoundTrip(pathname: string)
    ensures RepairPathname(CustomDomain + "/" + pathname) == pathname
  {
    var head := CustomDomain + "/";
    assert (head + pathname)[..|head|] == head;
  }
}
