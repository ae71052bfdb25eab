/** The older blob uploader under `scripts/`: blob paths mirror the source
    host and path, every unique image URL is visited, and the exit code
    reports failures. Downloads, existence checks and uploads are oracles. */
module LegacyUpload {
  import opened Wrappers
  import opened Strings
  import opened Urls
  import opened Json
  import opened JsonWalk
  import opened Sorting
  import opened UploadCommon
  import opened BlobUpload

  /** The host with its dots turned into dashes. */
  function DashedHost(h: string): (r: string)
    ensures '.' !in r
  {
    DotsGone(h);
    ReplaceAll(h, ".", "-")
  }

  lemma {:induction false} DotsGone(s: string)
    ensures '.' !in ReplaceAll(s, ".", "-")
  {
    if s != [] {
      DotsGone(s[1..]);
      ReplaceCharCons(s[0], s[1..], '.', "-");
      assert s == [s[0]] + s[1..];
    }
  }

  /** `pathname.replace(/^\//, '')`: one leading slash goes. */
  function StripLeadingSlash(p: string): (r: string)
    ensures StartsWith(p, "/") ==> "/" + r == p
    ensures !StartsWith(p, "/") ==> r == p
  {
    if StartsWith(p, "/") then p[1..] else p
  }

  /** The blob path for a host and an already decoded path: "images/", the
      dashed host, a slash, then the path. */
  function LegacyPathname(hostname: string, path: string): (r: string)
    ensures StartsWith(r, "images/" + DashedHost(hostname) + "/")
    ensures EndsWith(r, path)
  {
    var head := "images/" + DashedHost(hostname) + "/";
    var r := head + path;
    assert r[..|head|] == head && r[|r| - |path|..] == path;
    r
  }

  /** `urlToPathname(url)`. Both `new URL` and `decodeURIComponent` may
      throw, which `None` stands for; the decoder is a parameter. */
  function UrlToPathname(parsed: Option<Url>, decode: string -> Option<string>): (r: Option<string>)
    ensures r.Some? <==> parsed.Some? && decode(StripLeadingSlash(parsed.value.pathname)).Some?
    ensures r.Some? ==> r.value == LegacyPathname(parsed.value.hostname, decode(StripLeadingSlash(parsed.value.pathname)).value)
  {
    match parsed
    case None => None
    case Some(u) =>
      match decode(StripLeadingSlash(u.pathname))
      case None => None
      case Some(d) => Some(LegacyPathname(u.hostname, d))
  }

  /** Two URLs on hosts without dots never share a folder. */
  lemma LegacyPathnameHostFolder(hostname: string, path: string)
    requires '.' !in hostname
    ensures StartsWith(LegacyPathname(hostname, path), "images/" + hostname + "/")
  {
    NoDotReplace(hostname);
  }

  lemma {:induction false} NoDotReplace(s: string)
    requires '.' !in s
    ensures ReplaceAll(s, ".", "-") == s
  {
    if s != [] {
      NoDotReplace(s[1..]);
      ReplaceCharCons(s[0], s[1..], '.', "-");
      assert s == [s[0]] + s[1..];
    }
  }

  /** `extractImageUrls` then the de-duplication of `main`: every image URL
      of every file, without host exclusions, first occurrences only. */
  function Candidates(files: seq<Json>): (r: seq<string>)
    ensures Distinct(r)
    ensures forall u :: u in r <==> IsImageUrl(u) && InFiles(files, u) && !Contains(u, "example.com")
  {
    assert forall u :: IsImageUrl(u) ==> u != "";
    UniqueUrls(ExtractAll(files, IsImageUrl))
  }

  /** What happened to one URL. */
  datatype Fate = Uploaded(blobUrl: string) | Skipped | Failed

  /** One URL of the loop. A `None` pathname is the exception
      `urlToPathname` throws, which aborts the whole run; `present` stands
      for `head(pathname)` succeeding and `put` for the download and upload
      together. */
  function Visit(url: string, pathname: Option<string>, m: map<string, string>, force: bool, dryRun: bool,
                 present: string -> bool, put: string -> Option<string>): (r: Option<Fate>)
    ensures r.None? <==> pathname.None?
    ensures r == Some(Skipped) <==>
      pathname.Some? && ((Mapped(m, url) && !force) || (!dryRun && !force && present(pathname.value)))
    ensures r.Some? && r.value.Uploaded? ==> !dryRun ==> put(pathname.value) == Some(r.value.blobUrl)
  {
    match pathname
    case None => None
    case Some(pathname) =>
      if Mapped(m, url) && !force then Some(Skipped)
      else if dryRun then Some(Uploaded(""))
      else if !force && present(pathname) then Some(Skipped)
      else match put(pathname)
        case Some(b) => Some(Uploaded(b))
        case None => Some(Failed)
  }

  datatype Tally = Tally(urlMap: map<string, string>, success: nat, skipped: nat, failed: nat)

  /** The loop over the unique URLs, `pathOf` being `urlToPathname`;
      `None` when it throws for some URL. */
  function RunAll(urls: seq<string>, pathOf: string -> Option<string>, t: Tally, force: bool, dryRun: bool,
                  present: string -> bool, put: string -> Option<string>): (r: Option<Tally>)
    ensures r.None? <==> exists i :: 0 <= i < |urls| && pathOf(urls[i]).None?
    ensures r.Some? ==> r.value.success + r.value.skipped + r.value.failed == t.success + t.skipped + t.failed + |urls|
    ensures r.Some? && dryRun ==> r.value.urlMap == t.urlMap && r.value.failed == t.failed
    ensures r.Some? ==> forall k :: k in t.urlMap ==> k in r.value.urlMap
    decreases |urls|
  {
    if urls == [] then Some(t)
    else
      var u := urls[0];
      assert forall i :: 1 <= i < |urls| ==> urls[i] == urls[1..][i - 1];
      match Visit(u, pathOf(u), t.urlMap, force, dryRun, present, put)
      case None => None
      case Some(Skipped) => RunAll(urls[1..], pathOf, t.(skipped := t.skipped + 1), force, dryRun, present, put)
      case Some(Failed) => RunAll(urls[1..], pathOf, t.(failed := t.failed + 1), force, dryRun, present, put)
      case Some(Uploaded(b)) =>
        var m := if dryRun then t.urlMap else t.urlMap[u := b];
        RunAll(urls[1..], pathOf, t.(urlMap := m, success := t.success + 1), force, dryRun, present, put)
  }

  /** The map written back at the end: only in a live run that uploaded
      something. */
  function SavedMap(r: Option<Tally>, dryRun: bool): (saved: Option<map<string, string>>)
    ensures saved.Some? ==> !dryRun && r.Some? && r.value.success > 0 && saved.value == r.value.urlMap
    ensures r.Some? && !dryRun && r.value.success > 0 ==> saved.Some?
  {
    if r.Some? && !dryRun && r.value.success > 0 then Some(r.value.urlMap) else None
  }

  /** A live run that only skipped leaves the map file untouched. */
  lemma NothingUploadedNothingSaved(urls: seq<string>, pathOf: string -> Option<string>, m: map<string, string>,
                                   present: string -> bool, put: string -> Option<string>)
    requires forall i :: 0 <= i < |urls| ==> Mapped(m, urls[i])
    ensures SavedMap(RunAll(urls, pathOf, Tally(m, 0, 0, 0), false, false, present, put), false) == None
  {
    SkipsOnly(urls, pathOf, Tally(m, 0, 0, 0), present, put);
  }

  lemma {:induction false} SkipsOnly(urls: seq<string>, pathOf: string -> Option<string>, t: Tally,
                                     present: string -> bool, put: string -> Option<string>)
    requires forall i :: 0 <= i < |urls| ==> Mapped(t.urlMap, urls[i])
    ensures var r := RunAll(urls, pathOf, t, false, false, present, put);
      r.Some? ==> r.value.success == t.success && r.value.urlMap == t.urlMap
    decreases |urls|
  {
    if urls != [] {
      assert forall i :: 1 <= i < |urls| ==> urls[i] == urls[1..][i - 1];
      var u := urls[0];
      if pathOf(u).Some? {
        SkipsOnly(urls[1..], pathOf, t.(skipped := t.skipped + 1), present, put);
      }
    }
  }

  /** The process exit code: 1 on an aborted run or any failed upload. */
  function ExitCode(r: Option<Tally>): (code: int)
    ensures code == 0 <==> r.Some? && r.value.failed == 0
  {
    if r.None? || r.value.failed > 0 then 1 else 0
  }

  /** A dry run in which every pathname is computed never fails. */
  lemma DryRunSucceeds(urls: seq<string>, pathOf: string -> Option<string>, m: map<string, string>, force: bool,
                       present: string -> bool, put: string -> Option<string>)
    requires forall i :: 0 <= i < |urls| ==> pathOf(urls[i]).Some?
    ensures ExitCode(RunAll(urls, pathOf, Tally(m, 0, 0, 0), force, true, present, put)) == 0
  {
  }
}
