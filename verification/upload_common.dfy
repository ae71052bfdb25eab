/** The pieces the blob upload, URL transform and local download scripts
    share: which files under the data directory are read, how image URLs
    are gathered from them, and how a file's content type is chosen. */
module UploadCommon {
  import opened Wrappers
  import opened Strings
  import opened Json
  import opened JsonWalk
  import opened Sorting
  import opened Urls
  import opened BlobNaming

  // ------------------------------------------------------- data directory

  /** A directory listing, as `fs.readdirSync(dir, { withFileTypes: true })`
      reports it, nested. */
  datatype Entry = Dir(name: string, entries: seq<Entry>) | File(name: string)

  /** A file the scripts read: a `.json` name holding none of the excluded
      markers (the URL map itself, and for the local mirror its own map). */
  predicate DataFileName(name: string, excluded: seq<string>) {
    EndsWith(name, ".json") && forall i :: 0 <= i < |excluded| ==> !Contains(name, excluded[i])
  }

  /** `readJsonFiles(dir)` / `findJsonFiles(dir)`: the data files in walk
      order, each as `dir + "/" + name`; with `skipTemp`, directories named
      "temp" are not entered. */
  function DataFiles(e: Entry, dir: string, skipTemp: bool, excluded: seq<string>): (r: seq<string>)
    ensures forall i :: 0 <= i < |r| ==> EndsWith(r[i], ".json")
    decreases e, 1
  {
    match e
    case File(name) =>
      if DataFileName(name, excluded) then
        var p := dir + "/" + name;
        assert p[|p| - |name|..] == name;
        assert EndsWith(p, ".json") by {
          assert p[|p| - 5..] == name[|name| - 5..];
        }
        [p]
      else []
    case Dir(name, entries) =>
      if skipTemp && name == "temp" then [] else DataFilesIn(entries, dir + "/" + name, skipTemp, excluded)
  }

  function DataFilesIn(es: seq<Entry>, dir: string, skipTemp: bool, excluded: seq<string>): (r: seq<string>)
    ensures forall i :: 0 <= i < |r| ==> EndsWith(r[i], ".json")
    decreases es, 0
  {
    if es == [] then [] else DataFiles(es[0], dir, skipTemp, excluded) + DataFilesIn(es[1..], dir, skipTemp, excluded)
  }

  /** A data file listed directly in a directory is found. */
  lemma {:induction false} DataFileFound(es: seq<Entry>, dir: string, skipTemp: bool, excluded: seq<string>, name: string)
    requires File(name) in es && DataFileName(name, excluded)
    ensures dir + "/" + name in DataFilesIn(es, dir, skipTemp, excluded)
    decreases es
  {
    if es[0] != File(name) {
      DataFileFound(es[1..], dir, skipTemp, excluded, name);
    }
  }

  /** Nothing inside a skipped "temp" directory is read. */
  lemma TempSkipped(es: seq<Entry>, dir: string, excluded: seq<string>)
    ensures DataFiles(Dir("temp", es), dir, true, excluded) == []
  {
  }

  // ------------------------------------------------------- image URLs

  /** `u` is a string leaf of one of the files. */
  predicate InFiles(files: seq<Json>, u: string) {
    exists i :: 0 <= i < |files| && u in Leaves(files[i])
  }

  lemma InFilesLast(files: seq<Json>, u: string)
    requires files != []
    ensures InFiles(files, u) <==> InFiles(files[..|files| - 1], u) || u in Leaves(files[|files| - 1])
  {
    var init := files[..|files| - 1];
    if InFiles(files, u) {
      var i :| 0 <= i < |files| && u in Leaves(files[i]);
      if i < |files| - 1 {
        assert init[i] == files[i];
      }
    }
    if InFiles(init, u) {
      var i :| 0 <= i < |init| && u in Leaves(init[i]);
      assert init[i] == files[i];
    }
  }

  /** The URLs `extractImageUrls` gathers from every file, file after file. */
  function ExtractAll(files: seq<Json>, keep: string -> bool): (r: seq<string>)
    ensures forall u :: u in r <==> u != "" && keep(u) && InFiles(files, u)
  {
    if files == [] then []
    else
      var rest := ExtractAll(files[..|files| - 1], keep);
      var last := Collect(files[|files| - 1], keep, []);
      CollectLeaves(files[|files| - 1], keep, []);
      assert forall u :: u in rest + last <==> u in rest || u in last;
      assert forall u :: InFiles(files, u) <==> InFiles(files[..|files| - 1], u) || u in Leaves(files[|files| - 1]) by {
        forall u ensures InFiles(files, u) <==> InFiles(files[..|files| - 1], u) || u in Leaves(files[|files| - 1]) {
          InFilesLast(files, u);
        }
      }
      rest + last
  }

  /** `[...new Set(urls)].filter(u => !u.includes('example.com'))`: first
      occurrences in order, placeholders dropped. */
  function UniqueUrls(urls: seq<string>): (r: seq<string>)
    ensures Distinct(r)
    ensures forall u :: u in r <==> u in urls && !Contains(u, "example.com")
  {
    var d := Dedup(urls);
    var r := Keep(d, u => !Contains(u, "example.com"));
    KeepDistinct(d, u => !Contains(u, "example.com"));
    r
  }

  /** Filtering keeps a sequence free of duplicates. */
  lemma {:induction false} KeepDistinct(xs: seq<string>, p: string -> bool)
    requires Distinct(xs)
    ensures Distinct(Keep(xs, p))
  {
    if xs != [] {
      KeepDistinct(xs[1..], p);
      assert Distinct(xs[1..]) by {
        forall i, j | 0 <= i < j < |xs| - 1 ensures xs[1..][i] != xs[1..][j] {
          assert xs[1..][i] == xs[i + 1] && xs[1..][j] == xs[j + 1];
        }
      }
      if p(xs[0]) {
        var t := Keep(xs[1..], p);
        assert xs[0] !in xs[1..] by {
          forall i | 0 <= i < |xs| - 1 ensures xs[1..][i] != xs[0] {
            assert xs[1..][i] == xs[i + 1];
          }
        }
        assert xs[0] !in t;
        var r := [xs[0]] + t;
        forall i, j | 0 <= i < j < |r| ensures r[i] != r[j] {
          if i == 0 {
            assert r[j] == t[j - 1] && t[j - 1] in t;
          } else {
            assert r[i] == t[i - 1] && r[j] == t[j - 1];
          }
        }
      }
    }
  }

  /** The extension-based candidate test of the blob uploader: an image
      URL not already on blob storage or the custom domain. */
  predicate UploadCandidate(s: string) {
    IsImageUrl(s) && !Contains(s, ".blob.vercel-storage.com") && !Contains(s, "pokemn.quest")
  }

  /** The local mirror only skips raw blob-storage URLs. */
  predicate MirrorCandidate(s: string) {
    IsImageUrl(s) && !Contains(s, ".blob.vercel-storage.com")
  }

  // ------------------------------------------------------- content types

  /** The path without its trailing slashes. */
  function TrimSlashes(p: string): (r: string)
    ensures StartsWith(p, r) && (r == [] || r[|r| - 1] != '/')
  {
    if p != [] && p[|p| - 1] == '/' then
      var r := TrimSlashes(p[..|p| - 1]);
      assert p[..|p| - 1][..|r|] == p[..|r|];
      r
    else p
  }

  /** The text after the last '/'. */
  function AfterSlash(p: string): (r: string)
    ensures EndsWith(p, r) && '/' !in r
  {
    if p == [] || p[|p| - 1] == '/' then ""
    else
      var r := AfterSlash(p[..|p| - 1]) + [p[|p| - 1]];
      assert p[|p| - |r|..] == p[..|p| - 1][|p| - |r|..] + [p[|p| - 1]];
      r
  }

  /** `path.extname(p)`: from the last dot of the last segment, unless that
      dot starts the segment or the segment is "..". */
  function ExtName(p: string): (r: string)
    ensures r == "" || (r[0] == '.' && '/' !in r && '.' !in r[1..])
    ensures r != "" ==> EndsWith(AfterSlash(TrimSlashes(p)), r) && |r| < |AfterSlash(TrimSlashes(p))|
  {
    var b := AfterSlash(TrimSlashes(p));
    match LastDot(b)
    case None => ""
    case Some(d) =>
      if d == 0 || b == ".." then ""
      else
        assert forall j :: 0 <= j < |b| - d - 1 ==> b[d..][1..][j] == b[d + 1 + j];
        assert forall c :: c in b[d..] ==> c in b;
        b[d..]
  }

  /** The content types the uploader knows, by lower-case extension. */
  function MimeType(ext: string): (r: string)
    ensures r != "application/octet-stream" <==> ext in [".jpg", ".jpeg", ".png", ".gif", ".webp", ".svg"]
  {
    if ext == ".jpg" || ext == ".jpeg" then "image/jpeg"
    else if ext == ".png" then "image/png"
    else if ext == ".gif" then "image/gif"
    else if ext == ".webp" then "image/webp"
    else if ext == ".svg" then "image/svg+xml"
    else "application/octet-stream"
  }

  /** `getContentType(url)` on the parsed URL. */
  function ContentType(u: Url): string {
    MimeType(Lower(ExtName(u.pathname)))
  }

  /** A dot that starts the file name, or no dot at all, gives no known
      type. */
  lemma NoExtensionOctetStream(u: Url)
    requires '.' !in AfterSlash(TrimSlashes(u.pathname))
    ensures ContentType(u) == "application/octet-stream"
  {
  }

  /** The extension of a file name is found under any folders. */
  lemma ExtNameOfFile(dirs: string, name: string, stem: string, ext: string)
    requires name == stem + "." + ext
    requires stem != "" && '/' !in stem && '.' !in stem && '.' !in ext && '/' !in ext
    ensures ExtName(dirs + "/" + name) == "." + ext
  {
    var p := dirs + "/" + name;
    NameNoSlash(name, stem, ext);
    assert p[|p| - 1] == name[|name| - 1];
    TrimSlashesKeeps(p);
    AfterSlashOf(dirs + "/", name);
    LastDotOf(stem, ext);
    assert name[0] == stem[0] != '.';
    ExtNameFrom(p, name, |stem|);
    assert name[|stem|..] == "." + ext;
  }

  lemma NameNoSlash(name: string, stem: string, ext: string)
    requires name == stem + "." + ext && '/' !in stem && '/' !in ext
    ensures '/' !in name && name != []
  {
    assert forall c :: c in name ==> c in stem || c == '.' || c in ext;
  }

  /** The extension read off a known last segment and its last dot. */
  lemma ExtNameFrom(p: string, b: string, d: nat)
    requires AfterSlash(TrimSlashes(p)) == b && LastDot(b) == Some(d)
    requires d != 0 && b != ".."
    ensures ExtName(p) == b[d..]
  {
  }

  lemma TrimSlashesKeeps(p: string)
    requires p != [] && p[|p| - 1] != '/'
    ensures TrimSlashes(p) == p
  {
  }

  lemma {:induction false} AfterSlashOf(a: string, t: string)
    requires a != [] && a[|a| - 1] == '/' && '/' !in t
    ensures AfterSlash(a + t) == t
    decreases |t|
  {
    if t == [] {
      assert a + t == a;
    } else {
      var p := a + t;
      assert p[..|p| - 1] == a + t[..|t| - 1];
      AfterSlashOf(a, t[..|t| - 1]);
      assert t[..|t| - 1] + [t[|t| - 1]] == t;
    }
  }

  lemma LastDotOf(stem: string, ext: string)
    requires '.' !in ext && stem != "" && '/' !in stem
    ensures LastDot(stem + "." + ext) == Some(|stem|)
  {
    var b := stem + "." + ext;
    assert b[|stem|] == '.';
  }
}
