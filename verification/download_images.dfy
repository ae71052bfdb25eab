/** The script that mirrors every referenced image into a local directory
    laid out like blob storage: command-line options, the jsDelivr to raw
    GitHub fallback, the download plan and the per-entry decision. Network
    and file system are oracles. */
module DownloadImages {
  import opened Wrappers
  import opened Strings
  import opened Json
  import opened JsonWalk
  import opened Sorting
  import opened TextOrder
  import opened Urls
  import opened BlobNaming
  import opened UploadCommon

  // ------------------------------------------------------- options

  /** `argv.indexOf(flag)`: the first position holding the flag. */
  function IndexOf(argv: seq<string>, flag: string): (r: Option<nat>)
    ensures r.None? <==> flag !in argv
    ensures r.Some? ==> r.value < |argv| && argv[r.value] == flag && flag !in argv[..r.value]
  {
    if argv == [] then None
    else if argv[0] == flag then Some(0)
    else
      match IndexOf(argv[1..], flag)
      case None => None
      case Some(i) =>
        assert argv[..i + 1] == [argv[0]] + argv[1..][..i];
        Some(i + 1)
  }

  /** `readArgValue(flag, fallback)`: the token after the first occurrence
      of the flag, unless the flag is absent or last, or that token is
      empty or starts with "--". */
  function ReadArgValue(argv: seq<string>, flag: string, fallback: string): (r: string)
    ensures flag !in argv ==> r == fallback
    ensures r != fallback ==> r != "" && !StartsWith(r, "--") && exists i :: 0 <= i < |argv| - 1 && argv[i] == flag && argv[i + 1] == r
  {
    match IndexOf(argv, flag)
    case None => fallback
    case Some(i) =>
      if i + 1 < |argv| && argv[i + 1] != "" && !StartsWith(argv[i + 1], "--") then argv[i + 1] else fallback
  }

  /** The flag first occurs right after a prefix without it. */
  lemma {:induction false} IndexOfAt(pre: seq<string>, tail: seq<string>, flag: string)
    requires flag !in pre && tail != [] && tail[0] == flag
    ensures IndexOf(pre + tail, flag) == Some(|pre|)
  {
    if pre != [] {
      IndexOfAt(pre[1..], tail, flag);
      assert (pre + tail)[1..] == pre[1..] + tail;
    }
  }

  /** What is read once the flag's first position is known. */
  lemma ReadAt(argv: seq<string>, flag: string, i: nat, fallback: string)
    requires IndexOf(argv, flag) == Some(i) && i + 1 < |argv|
    ensures ReadArgValue(argv, flag, fallback)
            == if argv[i + 1] != "" && !StartsWith(argv[i + 1], "--") then argv[i + 1] else fallback
  {
  }

  /** The pair of a flag and the token after it, after a prefix without the flag. */
  lemma FlagPair(pre: seq<string>, flag: string, v: string, post: seq<string>)
    requires flag !in pre
    ensures IndexOf(pre + [flag, v] + post, flag) == Some(|pre|)
    ensures |pre| + 1 < |pre + [flag, v] + post| && (pre + [flag, v] + post)[|pre| + 1] == v
  {
    var argv := pre + [flag, v] + post;
    assert argv == pre + ([flag, v] + post);
    IndexOfAt(pre, [flag, v] + post, flag);
  }

  /** A value right after the first occurrence of its flag is read. */
  lemma ReadArgValueFound(pre: seq<string>, flag: string, v: string, post: seq<string>, fallback: string)
    requires flag !in pre && v != "" && !StartsWith(v, "--")
    ensures ReadArgValue(pre + [flag, v] + post, flag, fallback) == v
  {
    FlagPair(pre, flag, v, post);
    ReadAt(pre + [flag, v] + post, flag, |pre|, fallback);
  }

  /** A flag followed by another option falls back. */
  lemma ReadArgValueNextOption(pre: seq<string>, flag: string, next: string, post: seq<string>, fallback: string)
    requires flag !in pre && StartsWith(next, "--")
    ensures ReadArgValue(pre + [flag, next] + post, flag, fallback) == fallback
  {
    FlagPair(pre, flag, next, post);
    ReadAt(pre + [flag, next] + post, flag, |pre|, fallback);
  }

  /** `Math.max(1, parseInt(readArgValue('--parallel', '8'), 10) || 8)`:
      zero and text that does not parse give 8, a negative count gives 1. */
  function Parallel(argv: seq<string>): (n: int)
    ensures n >= 1
    ensures "--parallel" !in argv ==> n == 8
  {
    CountOfEight();
    CountOf(ReadArgValue(argv, "--parallel", "8"))
  }

  /** `Math.max(1, parseInt(t, 10) || 8)` on the flag's text. */
  function CountOf(t: string): (n: int)
    ensures n >= 1
  {
    var p := ParseInt(t);
    var v := if p.None? || p.value == 0 then 8 else p.value;
    if v < 1 then 1 else v
  }

  lemma CountOfEight()
    ensures CountOf("8") == 8
  {
    ParseIntDigits("8");
  }

  /** A positive decimal count after the flag is taken as it is. */
  lemma ParallelCount(pre: seq<string>, digits: string, post: seq<string>)
    requires "--parallel" !in pre && digits != [] && AllDigits(digits) && DigitsValue(digits) > 0
    ensures Parallel(pre + ["--parallel", digits] + post) == DigitsValue(digits)
  {
    assert !StartsWith(digits, "--") by {
      assert IsDigit(digits[0]);
    }
    ReadArgValueFound(pre, "--parallel", digits, post, "8");
    ParseIntDigits(digits);
  }

  // ------------------------------------------------------- fallback

  /** `getFallbackUrls(url)`: a jsDelivr GitHub URL with owner, repository
      and at least one more segment maps to its raw GitHub master URL;
      anything else, an unparseable URL included, has no fallback. */
  function FallbackUrls(parsed: Option<Url>): (r: seq<string>)
    ensures |r| <= 1
    ensures r != [] ==>
      parsed.Some? && parsed.value.hostname == "cdn.jsdelivr.net" && StartsWith(parsed.value.pathname, "/gh/") && |PathParts(parsed.value.pathname)| >= 4
    ensures r != [] ==> StartsWith(r[0], "https://raw.githubusercontent.com/")
  {
    match parsed
    case None => []
    case Some(u) =>
      var parts := PathParts(u.pathname);
      if u.hostname == "cdn.jsdelivr.net" && StartsWith(u.pathname, "/gh/") && |parts| >= 4 then
        var head := "https://raw.githubusercontent.com/";
        var r := head + parts[1] + "/" + parts[2] + "/master/" + Join(parts[3..], "/");
        assert r[..|head|] == head;
        [r]
      else []
  }

  /** What one `download(url)` does: deliver a body, or fail, with the
      HTTP status when there was one. */
  datatype Fetch = Body | Fail(status: Option<int>)

  /** The first fallback that downloads. */
  function FirstBody(urls: seq<string>, fetch: string -> Fetch): (r: Option<string>)
    ensures r.Some? ==> r.value in urls && fetch(r.value) == Body
    ensures r.None? ==> forall i :: 0 <= i < |urls| ==> fetch(urls[i]) != Body
  {
    if urls == [] then None
    else if fetch(urls[0]) == Body then Some(urls[0])
    else
      var r := FirstBody(urls[1..], fetch);
      assert forall i :: 1 <= i < |urls| ==> urls[i] == urls[1..][i - 1];
      r
  }

  /** `downloadWithFallback(url)`: the URL the body came from, or `None`
      for the original error. Fallbacks are tried only after a 403. */
  function DownloadWithFallback(url: string, parsed: Option<Url>, fetch: string -> Fetch): (r: Option<string>)
    ensures r == Some(url) <== fetch(url) == Body
    ensures r.Some? ==> fetch(r.value) == Body
    ensures r.Some? && fetch(url) != Body ==> fetch(url) == Fail(Some(403)) && r.value in FallbackUrls(parsed)
    ensures fetch(url) == Fail(Some(403)) && (exists i :: 0 <= i < |FallbackUrls(parsed)| && fetch(FallbackUrls(parsed)[i]) == Body) ==> r.Some?
  {
    if fetch(url) == Body then Some(url)
    else if fetch(url) == Fail(Some(403)) && |FallbackUrls(parsed)| > 0 then FirstBody(FallbackUrls(parsed), fetch)
    else None
  }

  /** Any other failure is final, even when a fallback exists. */
  lemma OnlyForbiddenFallsBack(url: string, parsed: Option<Url>, fetch: string -> Fetch)
    requires fetch(url).Fail? && fetch(url).status != Some(403)
    ensures DownloadWithFallback(url, parsed, fetch) == None
  {
  }

  // ------------------------------------------------------- fallback round trip

  /** The parse of a query-free jsDelivr pogo_assets URL. */
  function JsDelivr(owner: string, rest: seq<string>): Url {
    Url("https:", "cdn.jsdelivr.net", "", "/" + Join(["gh", owner, "pogo_assets"] + rest, "/"), "", "")
  }

  /** The parse of the matching raw GitHub master URL. */
  function RawGitHub(owner: string, rest: seq<string>): Url {
    Url("https:", "raw.githubusercontent.com", "", "/" + Join([owner, "pogo_assets", "master"] + rest, "/"), "", "")
  }

  /** Segments as the parser keeps them: non-empty and slash-free. */
  predicate Segments(xs: seq<string>) {
    forall i :: 0 <= i < |xs| ==> xs[i] != "" && '/' !in xs[i]
  }

  lemma {:induction false} NonEmptyKeeps(xs: seq<string>)
    requires forall i :: 0 <= i < |xs| ==> xs[i] != ""
    ensures NonEmpty(xs) == xs
  {
    if xs != [] {
      NonEmptyKeeps(xs[1..]);
      assert xs == [xs[0]] + xs[1..];
    }
  }

  /** A path built from segments splits back into them. */
  lemma PathPartsOf(xs: seq<string>)
    requires |xs| >= 1 && Segments(xs)
    ensures PathParts("/" + Join(xs, "/")) == xs
  {
    JoinSplit(xs, '/');
    var j := Join(xs, "/");
    assert ("/" + j)[1..] == j;
    assert Split("/" + j, '/') == [""] + Split(j, '/');
    NonEmptyKeeps(xs);
    assert NonEmpty([""] + xs) == NonEmpty(xs);
  }

  /** Three leading segments come out in front of the rest. */
  lemma JoinThree(a: string, b: string, c: string, rest: seq<string>)
    requires |rest| >= 1
    ensures Join([a, b, c] + rest, "/") == a + "/" + b + "/" + c + "/" + Join(rest, "/")
  {
    var t := Join(rest, "/");
    var x3 := [c] + rest;
    var x2 := [b] + x3;
    var x1 := [a] + x2;
    ThreeCons(a, b, c, rest);
    JoinCons(c, rest, "/");
    JoinCons(b, x3, "/");
    JoinCons(a, x2, "/");
    SlashAssoc(a, b, c, t);
  }

  /** `href` of a URL without port, query or fragment. */
  lemma HrefPlain(u: Url)
    requires u.port == "" && u.search == "" && u.hash == ""
    ensures Href(u) == u.protocol + "//" + u.hostname + u.pathname
  {
  }

  lemma RawGlue(o: string, t: string)
    ensures "https:" + "//" + "raw.githubusercontent.com" + ("/" + (o + "/" + "pogo_assets" + "/" + "master" + "/" + t))
      == "https://raw.githubusercontent.com/" + o + "/" + "pogo_assets" + "/master/" + t
  {
    RawPrefix();
    Regroup("https:" + "//", "raw.githubusercontent.com", "/", o, "pogo_assets", "master", t);
    assert ("https://raw.githubusercontent.com/" + o + "/" + "pogo_assets") + "/" + "master" + "/" + t
        == ("https://raw.githubusercontent.com/" + o + "/" + "pogo_assets") + ("/" + "master" + "/") + t;
  }

  lemma RawPrefix()
    ensures "https:" + "//" + "raw.githubusercontent.com" + "/" == "https://raw.githubusercontent.com/"
    ensures "/" + "master" + "/" == "/master/"
  {
  }

  lemma JsDelivrGlue(o: string, t: string)
    ensures "https:" + "//" + "cdn.jsdelivr.net" + ("/" + ("gh" + "/" + o + "/" + "pogo_assets" + "/" + t))
      == "https://cdn.jsdelivr.net/gh/" + o + "/" + "pogo_assets" + "/" + t
    ensures StartsWith("/" + ("gh" + "/" + o + "/" + "pogo_assets" + "/" + t), "/gh/")
  {
    JsDelivrPrefix();
    Regroup("https:" + "//", "cdn.jsdelivr.net", "/", "gh", o, "pogo_assets", t);
    GhPrefix("/" + "gh" + "/", o + "/" + "pogo_assets" + "/" + t);
    assert "/" + ("gh" + "/" + o + "/" + "pogo_assets" + "/" + t) == ("/" + "gh" + "/") + (o + "/" + "pogo_assets" + "/" + t);
  }

  lemma JsDelivrPrefix()
    ensures "https:" + "//" + "cdn.jsdelivr.net" + "/" + "gh" + "/" == "https://cdn.jsdelivr.net/gh/"
    ensures "/" + "gh" + "/" == "/gh/"
  {
  }

  lemma GhPrefix(head: string, rest: string)
    requires head == "/gh/"
    ensures StartsWith(head + rest, "/gh/")
  {
    assert (head + rest)[..|head|] == head;
  }

  /** The text of the raw GitHub URL. */
  lemma RawGitHubText(owner: string, rest: seq<string>)
    requires |rest| >= 1
    ensures Href(RawGitHub(owner, rest)) == "https://raw.githubusercontent.com/" + owner + "/" + "pogo_assets" + "/master/" + Join(rest, "/")
  {
    var u := RawGitHub(owner, rest);
    JoinThree(owner, "pogo_assets", "master", rest);
    HrefPlain(u);
    RawGlue(owner, Join(rest, "/"));
  }

  /** The text of the jsDelivr URL, and its path prefix. */
  lemma JsDelivrText(owner: string, rest: seq<string>)
    requires |rest| >= 1
    ensures Href(JsDelivr(owner, rest)) == "https://cdn.jsdelivr.net/gh/" + owner + "/" + "pogo_assets" + "/" + Join(rest, "/")
    ensures StartsWith(JsDelivr(owner, rest).pathname, "/gh/")
  {
    var u := JsDelivr(owner, rest);
    JoinThree("gh", owner, "pogo_assets", rest);
    HrefPlain(u);
    JsDelivrGlue(owner, Join(rest, "/"));
  }

  /** Segments with the given ones in front. */
  lemma SegmentsFront(a: string, b: string, c: string, owner: string, rest: seq<string>)
    requires Segments([owner] + rest) && a != "" && '/' !in a && b != "" && '/' !in b && c != "" && '/' !in c
    ensures Segments([a, b, c] + rest)
  {
    var all := [a, b, c] + rest;
    forall i | 3 <= i < |all| ensures all[i] != "" && '/' !in all[i] {
      assert all[i] == ([owner] + rest)[i - 2];
    }
  }

  /** The fallback of a jsDelivr pogo_assets URL is the raw GitHub master
      URL with the same owner and path. */
  lemma FallbackOfJsDelivr(owner: string, rest: seq<string>)
    requires Segments([owner] + rest) && |rest| >= 1
    ensures FallbackUrls(Some(JsDelivr(owner, rest))) == [Href(RawGitHub(owner, rest))]
  {
    assert owner == ([owner] + rest)[0];
    SegmentsFront("gh", "x", "pogo_assets", owner, rest);
    var all := ["gh", owner, "pogo_assets"] + rest;
    assert Segments(all) by {
      assert all[1] == owner;
      assert forall i :: 0 <= i < |all| && i != 1 ==> all[i] == (["gh", "x", "pogo_assets"] + rest)[i];
    }
    PathPartsOf(all);
    JsDelivrText(owner, rest);
    RawGitHubText(owner, rest);
    assert all[1] == owner && all[2] == "pogo_assets" && all[3..] == rest;
  }

  /** Canonicalizing the fallback gives back the jsDelivr URL, once there
      are at least two segments after the repository. */
  lemma FallbackCanonicalizes(owner: string, rest: seq<string>)
    requires Segments([owner] + rest) && |rest| >= 2
    ensures Canonicalize(Href(RawGitHub(owner, rest)), Some(RawGitHub(owner, rest))) == Href(JsDelivr(owner, rest))
  {
    assert owner == ([owner] + rest)[0];
    SegmentsFront(owner, "pogo_assets", "master", owner, rest);
    var all := [owner, "pogo_assets", "master"] + rest;
    PathPartsOf(all);
    assert all[0] == owner && all[1] == "pogo_assets" && all[2] == "master" && all[3..] == rest;
    JsDelivrText(owner, rest);
    var r := RawGitHub(owner, rest);
    assert r.(search := "", hash := "") == r;
    assert Href(r) != "";
  }

  /** Both directions together: the fallback of a query-free jsDelivr
      pogo_assets URL canonicalizes to that URL again. */
  lemma FallbackRoundTrip(owner: string, rest: seq<string>)
    requires Segments([owner] + rest) && |rest| >= 2
    ensures var fb := FallbackUrls(Some(JsDelivr(owner, rest)));
      |fb| == 1 && Canonicalize(fb[0], Some(RawGitHub(owner, rest))) == Href(JsDelivr(owner, rest))
  {
    FallbackOfJsDelivr(owner, rest);
    FallbackCanonicalizes(owner, rest);
  }

  // ------------------------------------------------------- the plan

  /** `readJsonFiles(DATA_DIR)`: every directory is entered, and neither
      URL map is a data file. */
  function MirrorFiles(root: seq<Entry>, dir: string): (r: seq<string>)
    ensures forall i :: 0 <= i < |r| ==> EndsWith(r[i], ".json")
  {
    DataFilesIn(root, dir, false, ["blob-url-map", "local-image-map"])
  }

  /** Image URLs from the files that parsed, with the placeholders gone and
      duplicates dropped; blob-storage URLs are skipped, custom-domain
      ones kept. */
  function MirrorUrls(files: seq<Json>): (r: seq<string>)
    ensures Distinct(r)
    ensures forall u :: u in r <==> MirrorCandidate(u) && InFiles(files, u) && !Contains(u, "example.com")
  {
    assert forall u :: IsImageUrl(u) ==> u != "";
    UniqueUrls(ExtractAll(files, MirrorCandidate))
  }

  /** The canonical forms, first occurrences only. */
  function CanonicalUrls(unique: seq<string>, canon: string -> string): (r: seq<string>)
    ensures Distinct(r)
    ensures forall c :: c in r <==> exists i :: 0 <= i < |unique| && canon(unique[i]) == c
  {
    var cs := seq(|unique|, i requires 0 <= i < |unique| => canon(unique[i]));
    assert forall c :: c in cs <==> exists i :: 0 <= i < |unique| && canon(unique[i]) == c by {
      forall c ensures c in cs <==> exists i :: 0 <= i < |unique| && canon(unique[i]) == c {
        if c in cs {
          var i :| 0 <= i < |cs| && cs[i] == c;
        }
        if exists i :: 0 <= i < |unique| && canon(unique[i]) == c {
          var i :| 0 <= i < |unique| && canon(unique[i]) == c;
          assert cs[i] == c;
        }
      }
    }
    Dedup(cs)
  }

  datatype PlanEntry = PlanEntry(canonicalUrl: string, blobPath: string, localPath: string)

  /** The entry of one canonical URL and its computed blob path;
      `path.join` is plain joining with a slash here. */
  function EntryOf(c: string, out: string, blobPath: string): (e: PlanEntry)
    ensures e.canonicalUrl == c && e.blobPath == blobPath
    ensures StartsWith(e.localPath, out + "/") && EndsWith(e.localPath, blobPath)
  {
    var p := out + "/" + blobPath;
    assert p[..|out + "/"|] == out + "/";
    assert p[|p| - |blobPath|..] == blobPath;
    PlanEntry(c, blobPath, p)
  }

  function ByLocalPath(): (PlanEntry, PlanEntry) -> bool {
    (a: PlanEntry, b: PlanEntry) => TextLe(a.localPath, b.localPath)
  }

  /** Some canonical URL has no blob path: its `externalUrlToBlobPathname`
      call threw. */
  predicate Unplaceable(canonicals: seq<string>, blobPath: string -> Option<string>) {
    exists i :: 0 <= i < |canonicals| && blobPath(canonicals[i]).None?
  }

  /** An entry built from its URL's computed blob path. */
  predicate Placed(e: PlanEntry, out: string, blobPath: string -> Option<string>) {
    blobPath(e.canonicalUrl) == Some(e.blobPath) && e == EntryOf(e.canonicalUrl, out, e.blobPath)
  }

  /** One entry per canonical URL, in the order of the URLs. */
  function Entries(canonicals: seq<string>, out: string, blobPath: string -> Option<string>): (es: seq<PlanEntry>)
    requires !Unplaceable(canonicals, blobPath)
    ensures |es| == |canonicals|
    ensures forall i :: 0 <= i < |es| ==> es[i].canonicalUrl == canonicals[i] && Placed(es[i], out, blobPath)
  {
    seq(|canonicals|, i requires 0 <= i < |canonicals| => EntryOf(canonicals[i], out, blobPath(canonicals[i]).value))
  }

  lemma EntriesMembers(canonicals: seq<string>, out: string, blobPath: string -> Option<string>)
    requires !Unplaceable(canonicals, blobPath)
    ensures forall c :: c in canonicals <==> exists e :: e in Entries(canonicals, out, blobPath) && e.canonicalUrl == c
    ensures forall e :: e in Entries(canonicals, out, blobPath) ==> e.canonicalUrl in canonicals && Placed(e, out, blobPath)
  {
    var es := Entries(canonicals, out, blobPath);
    forall c ensures c in canonicals <==> exists e :: e in es && e.canonicalUrl == c {
      if c in canonicals {
        var i :| 0 <= i < |canonicals| && canonicals[i] == c;
        assert es[i] in es && es[i].canonicalUrl == c;
      }
      if exists e :: e in es && e.canonicalUrl == c {
        var e :| e in es && e.canonicalUrl == c;
        var i :| 0 <= i < |es| && es[i] == e;
      }
    }
    forall e | e in es ensures e.canonicalUrl in canonicals && Placed(e, out, blobPath) {
      var i :| 0 <= i < |es| && es[i] == e;
    }
  }

  lemma EntriesDistinct(canonicals: seq<string>, out: string, blobPath: string -> Option<string>)
    requires !Unplaceable(canonicals, blobPath)
    requires Distinct(canonicals)
    ensures Distinct(Entries(canonicals, out, blobPath))
  {
    var es := Entries(canonicals, out, blobPath);
    forall i, j | 0 <= i < j < |es| ensures es[i] != es[j] {
      assert es[i].canonicalUrl == canonicals[i] && es[j].canonicalUrl == canonicals[j];
    }
  }

  /** Distinct entries each determined by their URL have distinct URLs. */
  lemma DistinctUrls(r: seq<PlanEntry>, out: string, blobPath: string -> Option<string>)
    requires Distinct(r)
    requires forall e :: e in r ==> Placed(e, out, blobPath)
    ensures forall i, j :: 0 <= i < j < |r| ==> r[i].canonicalUrl != r[j].canonicalUrl
  {
    forall i, j | 0 <= i < j < |r| ensures r[i].canonicalUrl != r[j].canonicalUrl {
      assert r[i] in r && r[j] in r;
    }
  }

  /** The download plan: one entry per distinct canonical URL, sorted by
      local path. It is built before the dry-run test, so a canonical URL
      whose blob path throws leaves no plan (`None`), and `main().catch`
      exits with 1. */
  function Plan(canonicals: seq<string>, out: string, blobPath: string -> Option<string>): (r: Option<seq<PlanEntry>>)
    requires Distinct(canonicals)
    ensures r.None? <==> Unplaceable(canonicals, blobPath)
    ensures r.Some? ==> |r.value| == |canonicals|
    ensures r.Some? ==> Sorted(r.value, ByLocalPath())
    ensures r.Some? ==> forall c :: c in canonicals <==> exists e :: e in r.value && e.canonicalUrl == c
    ensures r.Some? ==> forall e :: e in r.value ==> e.canonicalUrl in canonicals && Placed(e, out, blobPath)
    ensures r.Some? ==> forall i, j :: 0 <= i < j < |r.value| ==> r.value[i].canonicalUrl != r.value[j].canonicalUrl
  {
    if Unplaceable(canonicals, blobPath) then None
    else
      var es := Entries(canonicals, out, blobPath);
      KeyOrderIsPreorder((e: PlanEntry) => e.localPath, ByLocalPath());
      SortSorted(es, ByLocalPath());
      SortSameElements(es, ByLocalPath());
      EntriesMembers(canonicals, out, blobPath);
      EntriesDistinct(canonicals, out, blobPath);
      SortKeepsDistinct(es, ByLocalPath());
      DistinctUrls(Sort(es, ByLocalPath()), out, blobPath);
      Some(Sort(es, ByLocalPath()))
  }

  /** A canonical URL that parses but whose path does not decode leaves no
      plan. */
  lemma UndecodableLeavesNoPlan(canonicals: seq<string>, out: string, c: string, parse: string -> Option<Url>,
                                decode: string -> Option<string>, hash: string -> string, table: seq<(string, string)>)
    requires Distinct(canonicals) && c in canonicals
    requires parse(c).Some? && decode(parse(c).value.pathname).None?
    ensures Plan(canonicals, out, x => BlobPathname(x, parse(x), decode, hash, table)).None?
  {
    UndecodableFails(c, parse(c).value, decode, hash, table);
    var i :| 0 <= i < |canonicals| && canonicals[i] == c;
  }

  // ------------------------------------------------------- the downloads

  datatype Stats = Stats(downloaded: nat, skipped: nat, failed: nat)

  /** What happens to one plan entry: an existing file is kept unless
      `--force`, otherwise the body of the download is written. */
  datatype Fate = Downloaded(from: string) | Kept | Failed

  function Visit(e: PlanEntry, force: bool, present: string -> bool,
                 parse: string -> Option<Url>, fetch: string -> Fetch): (r: Fate)
    ensures r == Kept <==> !force && present(e.localPath)
    ensures r.Downloaded? ==> fetch(r.from) == Body
  {
    if !force && present(e.localPath) then Kept
    else match DownloadWithFallback(e.canonicalUrl, parse(e.canonicalUrl), fetch)
      case Some(u) => Downloaded(u)
      case None => Failed
  }

  /** How `main` ends: aborted by a throwing blob path (exit 1), a dry run
      that only previews the plan, or the downloads done (exit 0 whatever
      failed). */
  datatype Ending = Aborted | Previewed | Finished(stats: Stats)

  /** The plan, then the pool, run one entry after another; a dry run
      stops before it. */
  function Mirror(canonicals: seq<string>, out: string, blobPath: string -> Option<string>, dryRun: bool, force: bool,
                  present: string -> bool, parse: string -> Option<Url>, fetch: string -> Fetch): (r: Ending)
    requires Distinct(canonicals)
    ensures r.Aborted? <==> Unplaceable(canonicals, blobPath)
    ensures r.Previewed? <==> dryRun && !Unplaceable(canonicals, blobPath)
    ensures r.Finished? ==> r.stats.downloaded + r.stats.skipped + r.stats.failed == |canonicals|
    ensures r.Finished? && force ==> r.stats.skipped == 0
  {
    match Plan(canonicals, out, blobPath)
    case None => Aborted
    case Some(plan) => if dryRun then Previewed else Finished(Count(plan, force, present, parse, fetch))
  }

  /** The positions of the plan whose file is already on disk and kept. */
  function Present(plan: seq<PlanEntry>, force: bool, present: string -> bool): set<int> {
    set i | 0 <= i < |plan| && !force && present(plan[i].localPath)
  }

  /** Adding one entry adds its position exactly when that entry is kept. */
  lemma PresentSnoc(plan: seq<PlanEntry>, force: bool, present: string -> bool)
    requires plan != []
    ensures |Present(plan, force, present)|
            == |Present(plan[..|plan| - 1], force, present)| + (if !force && present(plan[|plan| - 1].localPath) then 1 else 0)
  {
    var last := |plan| - 1;
    var before := Present(plan[..last], force, present);
    var added: set<int> := if !force && present(plan[last].localPath) then {last} else {};
    forall i ensures i in Present(plan, force, present) <==> i in before + added {
      if 0 <= i < last {
        assert plan[..last][i] == plan[i];
      }
    }
    assert Present(plan, force, present) == before + added;
    assert last !in before;
  }

  function Count(plan: seq<PlanEntry>, force: bool, present: string -> bool,
                 parse: string -> Option<Url>, fetch: string -> Fetch): (s: Stats)
    ensures s.downloaded + s.skipped + s.failed == |plan|
    ensures force ==> s.skipped == 0
    ensures s.skipped == |Present(plan, force, present)|
  {
    if plan == [] then Stats(0, 0, 0)
    else
      var s := Count(plan[..|plan| - 1], force, present, parse, fetch);
      PresentSnoc(plan, force, present);
      match Visit(plan[|plan| - 1], force, present, parse, fetch)
      case Downloaded(_) => s.(downloaded := s.downloaded + 1)
      case Kept => s.(skipped := s.skipped + 1)
      case Failed => s.(failed := s.failed + 1)
  }
}
