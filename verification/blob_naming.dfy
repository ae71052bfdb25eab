/** Deterministic blob-storage names for external image URLs: segment and
    name sanitizers, dex-number parsing, URL canonicalization and the
    content-type classifier that turns a URL into a pathname. The hash of a
    URL and the URL parser are parameters; the dex table is built from the
    shiny records passed in. */
module BlobNaming {
  import opened Wrappers
  import opened Strings
  import opened Segments
  import opened Urls

  // ----------------------------------------------------- sanitizeSegment

  /** `[a-zA-Z0-9._-]` */
  predicate SegmentChar(c: char) {
    IsAlnum(c) || c == '.' || c == '_' || c == '-'
  }

  /** `sanitizeSegment(seg)`: white space and every other character outside
      the segment set become '_', runs of '_' shrink to one, and '_' at the
      ends goes. Replacing white-space runs first changes nothing the later
      steps would not, so the steps reduce to the shared three. */
  function SanitizeSegment(seg: string): (r: string)
    ensures Clean(r, SegmentChar, '_')
    ensures |r| <= |seg|
  {
    Sanitize(seg, SegmentChar, '_')
  }

  lemma SanitizeSegmentIdempotent(seg: string)
    ensures SanitizeSegment(SanitizeSegment(seg)) == SanitizeSegment(seg)
  {
    SanitizeIdempotent(seg, SegmentChar, '_');
  }

  // -------------------------------------------------- slugifyPokemonName

  /** The per-character replacements made before lower-casing: gender signs
      become words, apostrophes go, '&' becomes "and". */
  function Expand(c: char): string {
    if c == '♀' then " female "
    else if c == '♂' then " male "
    else if c == '’' || c == '\'' || c == '`' then ""
    else if c == '&' then " and "
    else [c]
  }

  function ExpandAll(s: string): (r: string)
    ensures (forall i :: 0 <= i < |s| ==> IsSlugChar(s[i])) ==> r == s
  {
    if s == [] then [] else Expand(s[0]) + ExpandAll(s[1..])
  }

  /** `slugifyPokemonName(name)`: "" for an empty name, else a lower-case
      dash-separated slug. */
  function Slugify(name: string): (r: string)
    ensures Clean(r, IsSlugChar, '-')
    ensures name == "" ==> r == ""
  {
    if name == "" then "" else Sanitize(Lower(ExpandAll(name)), IsSlugChar, '-')
  }

  /** A slug is its own slug. */
  lemma SlugifyIdempotent(name: string)
    ensures Slugify(Slugify(name)) == Slugify(name)
  {
    var s := Slugify(name);
    if s != "" {
      assert ExpandAll(s) == s;
      assert Lower(s) == s by {
        forall i | 0 <= i < |s| ensures Lower(s)[i] == s[i] {
          assert IsSlugChar(s[i]);
        }
      }
      SanitizeClean(s, IsSlugChar, '-');
    }
  }

  /** The gender sign becomes a word. */
  lemma SlugifyWords()
    ensures Slugify("♀") == "female"
  {
    ExpandFemale();
    LowerKeeps(" female ");
    SanitizeFemale();
    SlugifySteps("♀", " female ", " female ", "female");
  }

  /** Slugifying a non-empty name is expanding, lowering, then sanitizing. */
  lemma SlugifySteps(name: string, e: string, l: string, r: string)
    requires name != "" && ExpandAll(name) == e && Lower(e) == l && Sanitize(l, IsSlugChar, '-') == r
    ensures Slugify(name) == r
  {
  }

  lemma ExpandFemale()
    ensures ExpandAll("♀") == " female "
  {
    assert ExpandAll("♀") == Expand('♀') + ExpandAll("");
  }

  lemma SanitizeFemale()
    ensures Sanitize(" female ", IsSlugChar, '-') == "female"
  {
    SubstituteFemale();
    CollapseFemale();
    StripFemale();
    SanitizeSteps(" female ", IsSlugChar, '-', "-female-", "-female-", "female");
  }

  /** Sanitizing is substituting, then collapsing, then stripping the edges. */
  lemma SanitizeSteps(s: string, ok: char -> bool, c: char, d: string, m: string, r: string)
    requires ok(c) && Substitute(s, ok, c) == d && Collapse(d, c) == m && StripEdge(m, c) == r
    ensures Sanitize(s, ok, c) == r
  {
  }

  lemma StripFemale()
    ensures StripEdge("-female-", '-') == "female"
  {
  }

  lemma SubstituteFemale()
    ensures Substitute(" female ", IsSlugChar, '-') == "-female-"
  {
  }

  lemma CollapseFemale()
    ensures Collapse("-female-", '-') == "-female-"
  {
    var t := "-female-";
    assert NoRun(t, '-');
    CollapseClean(t, '-');
  }

  lemma LowerKeeps(s: string)
    requires forall i :: 0 <= i < |s| ==> !IsUpper(s[i])
    ensures Lower(s) == s
  {
  }

  // ------------------------------------------------------ parseDexNumber

  /** The digits starting at position `k`. */
  function DigitsAt(f: string, k: nat): (d: string)
    requires k <= |f|
    ensures AllDigits(d) && k + |d| <= |f| && f[k..k + |d|] == d
    ensures k + |d| == |f| || !IsDigit(f[k + |d|])
  {
    var d := DigitPrefix(f[k..]);
    assert f[k..][..|d|] == f[k..k + |d|];
    d
  }

  /** `/pokemon_icon_(\d{3,4})(?:_|\.|$)/i` matches at position `i`: the
      whole digit run is three or four long and is followed by '_', '.' or
      the end. A longer run fails both the four- and the three-digit try. */
  predicate IconMatchAt(f: string, i: int) {
    MatchesAt(f, i, "pokemon_icon_")
    && var d := DigitsAt(f, i + 13);
    (|d| == 3 || |d| == 4)
    && (i + 13 + |d| == |f| || f[i + 13 + |d|] == '_' || f[i + 13 + |d|] == '.')
  }

  /** The leftmost match position at or after `i`. */
  function FirstIconMatch(f: string, i: nat): (r: Option<nat>)
    ensures r.Some? ==> i <= r.value && IconMatchAt(f, r.value)
    ensures r.Some? ==> forall j :: i <= j < r.value ==> !IconMatchAt(f, j)
    ensures r.None? ==> forall j :: i <= j ==> !IconMatchAt(f, j)
    decreases |f| - i
  {
    if i + 13 > |f| then
      IconNearEnd(f, i);
      None
    else if IconMatchAt(f, i) then Some(i)
    else FirstIconMatch(f, i + 1)
  }

  /** No match starts within 13 characters of the end. */
  lemma IconNearEnd(f: string, i: nat)
    requires i + 13 > |f|
    ensures forall j :: i <= j ==> !IconMatchAt(f, j)
  {
    assert |"pokemon_icon_"| == 13;
  }

  /** `/^pm(\d+)\./i` matches: its digits are the whole run after "pm". */
  predicate PmMatch(f: string) {
    MatchesAt(f, 0, "pm") && var d := DigitsAt(f, 2); |d| >= 1 && 2 + |d| < |f| && f[2 + |d|] == '.'
  }

  /** `parseDexNumber(filename)`: the icon number if any, else the "pm"
      number, padded to three digits. */
  function ParseDexNumber(f: string): (r: Option<string>)
    ensures r.Some? ==> AllDigits(r.value) && |r.value| >= 3
    ensures r.Some? <==> (exists i :: 0 <= i <= |f| && IconMatchAt(f, i)) || PmMatch(f)
  {
    match FirstIconMatch(f, 0)
    case Some(i) => Some(DigitsAt(f, i + 13))
    case None =>
      if PmMatch(f) then
        var d := DigitsAt(f, 2);
        var p := PadStart(d, 3, '0');
        assert AllDigits(p) by {
          forall k | 0 <= k < |p| ensures IsDigit(p[k]) {
            if k >= |p| - |d| {
              assert p[k] == p[|p| - |d|..][k - (|p| - |d|)];
            }
          }
        }
        Some(p)
      else None
  }

  /** The leftmost icon number wins over a later one and over "pm". */
  lemma ParseDexLeftmost(f: string, i: nat)
    requires IconMatchAt(f, i) && forall j :: 0 <= j < i ==> !IconMatchAt(f, j)
    ensures ParseDexNumber(f) == Some(DigitsAt(f, i + 13))
  {
  }

  /** A short "pm" number is padded to three digits. */
  lemma ParseDexPadded()
    ensures ParseDexNumber("pm7.png") == Some("007")
  {
    var f := "pm7.png";
    assert MatchesAt(f, 0, "pm");
    assert DigitsAt(f, 2) == "7" by {
      assert f[2..] == "7.png";
      assert DigitPrefix("7.png") == "7" by {
        assert DigitPrefix(".png") == "";
      }
    }
    assert FirstIconMatch(f, 0) == None;
    assert PadStart("7", 3, '0') == "007";
  }

  // ------------------------------------------------------------ dex table

  /** A shiny record as the dex table reads it. */
  datatype ShinyEntry = ShinyEntry(dexNumber: Option<int>, name: string)

  /** `String(dex).padStart(3, '0')` */
  function DexKey(dex: int): string {
    PadStart(IntText(dex), 3, '0')
  }

  /** Names the data file may lack, added only where it has none. */
  const Overrides: seq<(string, string)> := [
    ("679", "Honedge"), ("680", "Doublade"), ("681", "Aegislash"), ("701", "Hawlucha"),
    ("718", "Zygarde"), ("719", "Diancie"), ("720", "Hoopa"), ("721", "Volcanion"),
    ("746", "Wishiwashi"), ("778", "Mimikyu"), ("789", "Cosmog"), ("790", "Cosmoem"),
    ("791", "Solgaleo"), ("792", "Lunala"), ("813", "Scorbunny"), ("816", "Sobble"),
    ("835", "Yamper"), ("850", "Sizzlipede")]

  /** The first value written under a key, as `map.get` after
      `if (!map.has(k)) map.set(k, v)`. */
  function Lookup(pairs: seq<(string, string)>, k: string): (r: Option<string>)
    ensures r.Some? <==> exists i :: 0 <= i < |pairs| && pairs[i].0 == k
  {
    if pairs == [] then None
    else if pairs[0].0 == k then Some(pairs[0].1)
    else
      var r := Lookup(pairs[1..], k);
      assert forall i :: 1 <= i < |pairs| ==> pairs[1..][i - 1] == pairs[i];
      r
  }

  /** Keep a pair only when its key is new: a `Map` filled with
      `if (!map.has(k)) map.set(k, v)`, in insertion order. */
  function FirstWins(pairs: seq<(string, string)>): (r: seq<(string, string)>)
    ensures forall i, j :: 0 <= i < j < |r| ==> r[i].0 != r[j].0
    decreases |pairs|
  {
    if pairs == [] then []
    else
      var n := |pairs| - 1;
      var r := FirstWins(pairs[..n]);
      if Lookup(r, pairs[n].0).Some? then r else r + [pairs[n]]
  }

  /** Keeping first writes does not change what a lookup finds. */
  lemma {:induction false} FirstWinsLookup(pairs: seq<(string, string)>, k: string)
    ensures Lookup(FirstWins(pairs), k) == Lookup(pairs, k)
    decreases |pairs|
  {
    if pairs != [] {
      var n := |pairs| - 1;
      FirstWinsLookup(pairs[..n], k);
      LookupAppend(pairs[..n], [pairs[n]], k);
      assert pairs[..n] + [pairs[n]] == pairs;
      var r := FirstWins(pairs[..n]);
      if Lookup(r, pairs[n].0).None? {
        LookupAppend(r, [pairs[n]], k);
      }
    }
  }

  lemma {:induction false} LookupAppend(a: seq<(string, string)>, b: seq<(string, string)>, k: string)
    ensures Lookup(a + b, k) == if Lookup(a, k).Some? then Lookup(a, k) else Lookup(b, k)
  {
    if a == [] {
      assert a + b == b;
    } else {
      assert (a + b)[0] == a[0] && (a + b)[1..] == a[1..] + b;
      LookupAppend(a[1..], b, k);
    }
  }

  /** The records with a dex number and a name, keyed by padded dex. */
  function EntryPairs(entries: seq<ShinyEntry>): (r: seq<(string, string)>)
    ensures forall i :: 0 <= i < |r| ==> r[i].1 != ""
  {
    if entries == [] then []
    else
      var e := entries[0];
      (if e.dexNumber.Some? && e.name != "" then [(DexKey(e.dexNumber.value), e.name)] else [])
      + EntryPairs(entries[1..])
  }

  /** `loadDexToNameMap()`: the data file's first name per dex, then the
      overrides for the dex numbers still missing. */
  function DexToName(entries: seq<ShinyEntry>): seq<(string, string)> {
    FirstWins(EntryPairs(entries) + Overrides)
  }

  /** `loadNameToDexMap()`: each name's slug to its dex, first one kept. */
  function NameToDex(table: seq<(string, string)>): seq<(string, string)> {
    FirstWins(SlugPairs(table))
  }

  function SlugPairs(table: seq<(string, string)>): (r: seq<(string, string)>)
    ensures forall i :: 0 <= i < |r| ==> r[i].0 != ""
  {
    if table == [] then []
    else
      var slug := Slugify(table[0].1);
      (if slug != "" then [(slug, table[0].0)] else []) + SlugPairs(table[1..])
  }

  /** `getPokemonNameByDex(dex)` */
  function NameByDex(table: seq<(string, string)>, dex: string): string {
    match Lookup(table, PadStart(dex, 3, '0'))
    case Some(n) => n
    case None => ""
  }

  /** `getPokemonDexByName(name)` */
  function DexByName(table: seq<(string, string)>, name: string): string {
    match Lookup(NameToDex(table), Slugify(name))
    case Some(d) => d
    case None => ""
  }

  /** The data file decides; an override fills in only a dex it lacks. */
  lemma NameByDexSources(entries: seq<ShinyEntry>, dex: string)
    ensures var key := PadStart(dex, 3, '0');
      NameByDex(DexToName(entries), dex)
      == match Lookup(EntryPairs(entries), key)
         case Some(n) => n
         case None => match Lookup(Overrides, key) case Some(n) => n case None => ""
  {
    var key := PadStart(dex, 3, '0');
    FirstWinsLookup(EntryPairs(entries) + Overrides, key);
    LookupAppend(EntryPairs(entries), Overrides, key);
  }

  // ------------------------------------------------ canonicalizeExternalImageUrl

  /** `pathname.split('/').filter(Boolean)` */
  function PathParts(p: string): seq<string> {
    NonEmpty(Split(p, '/'))
  }

  /** `canonicalizeExternalImageUrl(url)`: the empty string and an
      unparseable URL come back as they are; otherwise query and fragment
      go, and a raw GitHub pogo_assets master URL becomes its jsDelivr
      form. `parsed` is the parse of `url`. */
  function Canonicalize(url: string, parsed: Option<Url>): (r: string)
    ensures url == "" || parsed.None? ==> r == url
    ensures url != "" && parsed.Some? ==>
      r == Href(parsed.value.(search := "", hash := "")) || StartsWith(r, "https://cdn.jsdelivr.net/gh/")
  {
    if url == "" || parsed.None? then url
    else
      var u := parsed.value.(search := "", hash := "");
      var parts := PathParts(u.pathname);
      if u.hostname == "raw.githubusercontent.com" && |parts| >= 5 && parts[1] == "pogo_assets" && parts[2] == "master" then
        var head := "https://cdn.jsdelivr.net/gh/";
        var r := head + parts[0] + "/" + parts[1] + "/" + Join(parts[3..], "/");
        assert r[..|head|] == head;
        r
      else Href(u)
  }

  /** The query and the fragment never survive. */
  lemma CanonicalizeDropsQuery(url: string, u: Url)
    requires url != "" && u.hostname != "raw.githubusercontent.com"
    ensures Canonicalize(url, Some(u)) == u.protocol + "//" + u.hostname + (if u.port == "" then "" else ":" + u.port) + u.pathname
  {
  }

  // ------------------------------------------------ externalUrlToBlobPathname

  /** The last non-empty segment of an already decoded path, sanitized. */
  function LastSegment(p: string): (r: string)
    ensures Clean(r, SegmentChar, '_')
  {
    var parts := PathParts(p);
    if |parts| > 0 then SanitizeSegment(parts[|parts| - 1]) else ""
  }

  /** `getFilename(pathname)`: the path is decoded (once more) before it is
      split; `None` when `decodeURIComponent`, the parameter `decode`,
      throws. */
  function Filename(pathname: string, decode: string -> Option<string>): (r: Option<string>)
    ensures r.Some? <==> decode(pathname).Some?
    ensures r.Some? ==> Clean(r.value, SegmentChar, '_')
    ensures r.Some? ==> r.value == LastSegment(decode(pathname).value)
  {
    match decode(pathname)
    case None => None
    case Some(p) => Some(LastSegment(p))
  }

  /** `/\/(\d{4})[-\/]/` matches at position `i`. */
  predicate YearAt(p: string, i: int) {
    0 <= i && i + 6 <= |p| && p[i] == '/' && AllDigits(p[i + 1..i + 5]) && (p[i + 5] == '-' || p[i + 5] == '/')
  }

  /** The year of the leftmost match at or after `i`. */
  function FirstYear(p: string, i: nat): (r: Option<string>)
    ensures r.Some? ==> |r.value| == 4 && AllDigits(r.value)
    ensures r.None? ==> forall j :: i <= j ==> !YearAt(p, j)
    decreases |p| - i
  {
    if i + 6 > |p| then None
    else if YearAt(p, i) then Some(p[i + 1..i + 5])
    else FirstYear(p, i + 1)
  }

  /** The parent folder as event slug, unless it is a bare year or the
      generic "article-images" folder. */
  function EventSlug(pathname: string): string {
    var parts := PathParts(pathname);
    if |parts| >= 2 then
      var parent := parts[|parts| - 2];
      if parent != "" && !(|parent| == 4 && AllDigits(parent)) && parent != "article-images" then SanitizeSegment(parent)
      else ""
    else ""
  }

  /** The position of the last '.', as `lastIndexOf('.')`. */
  function LastDot(f: string): (r: Option<nat>)
    ensures r.Some? ==> r.value < |f| && f[r.value] == '.' && forall j :: r.value < j < |f| ==> f[j] != '.'
    ensures r.None? ==> '.' !in f
  {
    if f == [] then None
    else if f[|f| - 1] == '.' then Some(|f| - 1)
    else
      var r := LastDot(f[..|f| - 1]);
      assert forall j :: 0 <= j < |f| - 1 ==> f[..|f| - 1][j] == f[j];
      r
  }

  /** `filename.slice(filename.lastIndexOf('.'))`, or "" without a dot. */
  function Extension(f: string): (r: string)
    ensures EndsWith(f, r)
    ensures r != "" ==> r[0] == '.' && '.' !in r[1..]
  {
    match LastDot(f)
    case Some(i) =>
      assert forall j :: 0 <= j < |f| - i - 1 ==> f[i..][1..][j] == f[i + 1 + j];
      f[i..]
    case None => ""
  }

  /** The file name of an event image, from the decoded path and its file
      name: slug plus extension, else year and file name, else the file
      name, else year and hash. */
  function EventFile(url: string, pathname: string, filename: string, hash: string -> string): string {
    var year := FirstYear(pathname, 0);
    var yearText := if year.Some? then year.value else "misc";
    var slug := EventSlug(pathname);
    var name :=
      if slug != "" then slug + Extension(filename)
      else if year.Some? && filename != "" then yearText + "-" + filename
      else filename;
    if name == "" then yearText + "-" + hash(url) + ".bin" else name
  }

  /** `filename.replace(/\.[^.]+$/, '')`: the last dot and what follows go
      when something follows. */
  function StripExtension(f: string): (r: string)
    ensures StartsWith(f, r)
  {
    match LastDot(f)
    case Some(i) => if i < |f| - 1 then f[..i] else f
    case None => f
  }

  /** `base.split(/[_-]/)[0]` */
  function FirstToken(b: string): (r: string)
    ensures StartsWith(b, r) && '_' !in r && '-' !in r
  {
    if b == [] || b[0] == '_' || b[0] == '-' then "" else [b[0]] + FirstToken(b[1..])
  }

  /** `parseDexFromNameFilename(filename)` */
  function DexFromNameFilename(table: seq<(string, string)>, filename: string): string {
    var token := FirstToken(StripExtension(filename));
    if token == "" then "" else DexByName(table, token)
  }

  /** `pokemon_icon_\d` somewhere in lower-case text. */
  predicate IconDigit(fl: string) {
    exists i :: 0 <= i < |fl| && MatchesAt(fl, i, "pokemon_icon_") && i + 13 < |fl| && IsDigit(fl[i + 13])
  }

  /** The file-name and path patterns of Pokémon icons. */
  predicate IsPokemonIcon(pathLower: string, fileLower: string) {
    PmMatch(fileLower) || IconDigit(fileLower)
    || Contains(pathLower, "/pokemon_icons") || Contains(pathLower, "/pokemon/pokemon_icon")
    || (Contains(pathLower, "/pokemon/") && !Contains(pathLower, "/events/"))
  }

  /** `dir + head + rest + "/" + file` */
  function Nest(dir: string, head: string, rest: string, file: string): (r: string)
    ensures StartsWith(r, dir) && StartsWith(r, dir + head) && EndsWith(r, "/" + file)
  {
    var p := dir + head;
    var r := p + rest + "/" + file;
    assert r[..|dir|] == dir && r[..|p|] == p;
    assert r[|r| - |file| - 1..] == "/" + file;
    r
  }

  /** The folder of a Pokémon icon: dex and name slug, dex alone, or misc;
      the file keeps its name. */
  function PokemonPath(table: seq<(string, string)>, filename: string): (r: string)
    ensures StartsWith(r, "pokemon/") && EndsWith(r, "/" + filename)
    ensures ParseDexNumber(filename).Some? ==> StartsWith(r, "pokemon/" + ParseDexNumber(filename).value)
  {
    var dex := ParseDexNumber(filename);
    var resolved := if dex.Some? then dex.value else DexFromNameFilename(table, filename);
    var slug := Slugify(NameByDex(table, resolved));
    if resolved == "" then Nest("pokemon/", "misc", "", filename)
    else Nest("pokemon/", resolved, if slug != "" then "-" + slug else "", filename)
  }

  /** `dir` followed by `name`. */
  function Under(dir: string, name: string): (r: string)
    ensures StartsWith(r, dir) && r[|dir|..] == name
  {
    var r := dir + name;
    assert r[..|dir|] == dir;
    r
  }

  /** The top-level folders of the blob store. */
  datatype Category = Types | Weather | Bonuses | Events | Pokemon | Eggs | Raids | Items | Stickers | Misc

  function Folder(c: Category): string {
    match c
    case Types => "types/"
    case Weather => "weather/"
    case Bonuses => "bonuses/"
    case Events => "events/"
    case Pokemon => "pokemon/"
    case Eggs => "eggs/"
    case Raids => "raids/"
    case Items => "items/"
    case Stickers => "stickers/"
    case Misc => "misc/"
  }

  /** The folder names that send a lower-case path to the first four
      folders. */
  predicate TypePath(pl: string) { Contains(pl, "/types/") || Contains(pl, "/type/") }
  predicate WeatherPath(pl: string) { Contains(pl, "/weather/") }
  predicate BonusPath(pl: string) { Contains(pl, "/bonuses/") || Contains(pl, "/bonus/") }
  predicate EventPath(pl: string) { Contains(pl, "/events/") || Contains(pl, "/event/") }

  /** The folder tests of `externalUrlToBlobPathname`, tried in a fixed
      order on the lower-case path and file name: the first that matches
      decides. */
  function CategoryOf(pathLower: string, fileLower: string): (c: Category)
    ensures Contains(pathLower, "/types/") ==> c == Types
    ensures c == Events ==> Contains(pathLower, "/events/") || Contains(pathLower, "/event/")
    ensures c == Pokemon ==> IsPokemonIcon(pathLower, fileLower)
    ensures c == Misc ==> !Contains(pathLower, "/events/") && !IsPokemonIcon(pathLower, fileLower)
  {
    var pl := pathLower;
    if TypePath(pl) then Types
    else if WeatherPath(pl) then Weather
    else if BonusPath(pl) then Bonuses
    else if EventPath(pl) then Events
    else if IsPokemonIcon(pl, fileLower) then Pokemon
    else if Contains(pl, "/egg") then Eggs
    else if Contains(pl, "/raid") then Raids
    else if Contains(pl, "/item") || Contains(pl, "/items/") then Items
    else if Contains(pl, "/sticker") then Stickers
    else Misc
  }

  /** The path starts with one of the ten folders. */
  predicate InCategory(r: string) {
    StartsWith(r, "types/") || StartsWith(r, "weather/") || StartsWith(r, "bonuses/")
    || StartsWith(r, "events/") || StartsWith(r, "pokemon/") || StartsWith(r, "eggs/")
    || StartsWith(r, "raids/") || StartsWith(r, "items/") || StartsWith(r, "stickers/")
    || StartsWith(r, "misc/")
  }

  /** The decoded path of a parsed URL and the file name `getFilename`
      takes from it. `decodeURIComponent` runs on the path, then once more
      inside `getFilename`; `None` when either throws. */
  function Decoded(u: Url, decode: string -> Option<string>): (r: Option<(string, string)>)
    ensures r.Some? <==> decode(u.pathname).Some? && decode(decode(u.pathname).value).Some?
    ensures r.Some? ==> r.value.0 == decode(u.pathname).value && r.value.1 == LastSegment(decode(r.value.0).value)
  {
    match decode(u.pathname)
    case None => None
    case Some(p) =>
      match Filename(p, decode)
      case None => None
      case Some(f) => Some((p, f))
  }

  /** The folder of a decoded path and its file name: the branches of
      `externalUrlToBlobPathname` after decoding. */
  function Place(url: string, pathname: string, filename: string, hash: string -> string, table: seq<(string, string)>): (r: string)
    ensures InCategory(r)
    ensures StartsWith(r, Folder(CategoryOf(Lower(pathname), Lower(filename))))
  {
    var c := CategoryOf(Lower(pathname), Lower(filename));
    match c
    case Events => Under("events/", EventFile(url, pathname, filename, hash))
    case Pokemon => PokemonPath(table, filename)
    case Misc => if filename == "" then Under("misc/", hash(url) + ".bin") else Under("misc/", filename)
    case _ => Under(Folder(c), filename)
  }

  /** `externalUrlToBlobPathname(url)`: `parsed` is the parse of `url`,
      `decode` stands for `decodeURIComponent` (`None` where it throws; the
      function does not catch that), `hash` for `shortHash` and `table` for
      the dex table. */
  function BlobPathname(url: string, parsed: Option<Url>, decode: string -> Option<string>,
                        hash: string -> string, table: seq<(string, string)>): (r: Option<string>)
    ensures parsed.None? ==> r == Some("misc/" + hash(url) + "/invalid.bin")
    ensures parsed.Some? ==> (r.Some? <==> Decoded(parsed.value, decode).Some?)
    ensures r.Some? ==> InCategory(r.value)
    ensures parsed.Some? && r.Some? ==>
      var d := Decoded(parsed.value, decode).value;
      StartsWith(r.value, Folder(CategoryOf(Lower(d.0), Lower(d.1))))
  {
    match parsed
    case None =>
      var r := "misc/" + hash(url) + "/invalid.bin";
      assert r[..5] == "misc/";
      Some(r)
    case Some(u) =>
      match Decoded(u, decode)
      case None => None
      case Some(d) => Some(Place(url, d.0, d.1, hash, table))
  }

  /** No path starts with two different folders. */
  lemma FolderUnique(r: string, c: Category, d: Category)
    requires StartsWith(r, Folder(c)) && StartsWith(r, Folder(d))
    ensures c == d
  {
    assert r[0] == Folder(c)[0] == Folder(d)[0] by {
      assert r[..|Folder(c)|][0] == r[0] == r[..|Folder(d)|][0];
    }
    assert r[1] == Folder(c)[1] == Folder(d)[1] by {
      assert r[..|Folder(c)|][1] == r[1] == r[..|Folder(d)|][1];
    }
  }

  /** The first four folder tests, in order, read off the decoded path
      alone: each folder is chosen exactly when its names occur in the
      lower-case path and no earlier folder's do. */
  lemma PlaceOrder(url: string, pathname: string, filename: string, hash: string -> string, table: seq<(string, string)>)
    ensures StartsWith(Place(url, pathname, filename, hash, table), "types/") <==> TypePath(Lower(pathname))
    ensures StartsWith(Place(url, pathname, filename, hash, table), "weather/") <==>
              !TypePath(Lower(pathname)) && WeatherPath(Lower(pathname))
    ensures StartsWith(Place(url, pathname, filename, hash, table), "bonuses/") <==>
              !TypePath(Lower(pathname)) && !WeatherPath(Lower(pathname)) && BonusPath(Lower(pathname))
    ensures StartsWith(Place(url, pathname, filename, hash, table), "events/") <==>
              !TypePath(Lower(pathname)) && !WeatherPath(Lower(pathname)) && !BonusPath(Lower(pathname))
              && EventPath(Lower(pathname))
  {
    var c := CategoryOf(Lower(pathname), Lower(filename));
    FolderOf(Place(url, pathname, filename, hash, table), c);
    CategoryOrder(Lower(pathname), Lower(filename));
  }

  /** A path under a category's folder is under none of the first four
      folders but its own. */
  lemma FolderOf(r: string, c: Category)
    requires StartsWith(r, Folder(c))
    ensures StartsWith(r, "types/") <==> c == Types
    ensures StartsWith(r, "weather/") <==> c == Weather
    ensures StartsWith(r, "bonuses/") <==> c == Bonuses
    ensures StartsWith(r, "events/") <==> c == Events
  {
    assert Folder(Types) == "types/" && Folder(Weather) == "weather/";
    assert Folder(Bonuses) == "bonuses/" && Folder(Events) == "events/";
    if StartsWith(r, "types/") { FolderUnique(r, Types, c); }
    if StartsWith(r, "weather/") { FolderUnique(r, Weather, c); }
    if StartsWith(r, "bonuses/") { FolderUnique(r, Bonuses, c); }
    if StartsWith(r, "events/") { FolderUnique(r, Events, c); }
  }

  /** The first four categories in the order they are tested. */
  lemma CategoryOrder(pl: string, fl: string)
    ensures CategoryOf(pl, fl) == Types <==> TypePath(pl)
    ensures CategoryOf(pl, fl) == Weather <==> !TypePath(pl) && WeatherPath(pl)
    ensures CategoryOf(pl, fl) == Bonuses <==> !TypePath(pl) && !WeatherPath(pl) && BonusPath(pl)
    ensures CategoryOf(pl, fl) == Events <==> !TypePath(pl) && !WeatherPath(pl) && !BonusPath(pl) && EventPath(pl)
  {
  }

  /** Type icons are recognised before everything else. */
  lemma TypesFirst(url: string, u: Url, decode: string -> Option<string>, hash: string -> string, table: seq<(string, string)>)
    requires Decoded(u, decode).Some? && Contains(Lower(Decoded(u, decode).value.0), "/types/")
    ensures BlobPathname(url, Some(u), decode, hash, table) == Some("types/" + Decoded(u, decode).value.1)
  {
  }

  /** An event image goes under "events/" whatever else its path holds,
      unless an earlier folder test matched. */
  lemma EventsFolder(url: string, u: Url, decode: string -> Option<string>, hash: string -> string, table: seq<(string, string)>)
    requires Decoded(u, decode).Some?
    requires CategoryOf(Lower(Decoded(u, decode).value.0), Lower(Decoded(u, decode).value.1)) == Events
    ensures BlobPathname(url, Some(u), decode, hash, table)
            == Some("events/" + EventFile(url, Decoded(u, decode).value.0, Decoded(u, decode).value.1, hash))
  {
  }

  /** A path that does not decode has no blob path: the error escapes. */
  lemma UndecodableFails(url: string, u: Url, decode: string -> Option<string>, hash: string -> string, table: seq<(string, string)>)
    requires decode(u.pathname).None?
    ensures BlobPathname(url, Some(u), decode, hash, table).None?
  {
  }

  /** The event file name: under a named folder that folder's slug with the
      file's extension; under a year folder the first year in the path and
      the file name; otherwise the file name, or, when that is empty, the
      year (or "misc") and the hash; never empty. */
  lemma EventFileForms(url: string, pathname: string, filename: string, hash: string -> string)
    ensures EventFile(url, pathname, filename, hash) != ""
    ensures EventSlug(pathname) != "" ==> EventFile(url, pathname, filename, hash) == EventSlug(pathname) + Extension(filename)
    ensures EventSlug(pathname) == "" && FirstYear(pathname, 0).Some? && filename != ""
      ==> EventFile(url, pathname, filename, hash) == FirstYear(pathname, 0).value + "-" + filename
    ensures EventSlug(pathname) == "" && FirstYear(pathname, 0).None? && filename != ""
      ==> EventFile(url, pathname, filename, hash) == filename
    ensures EventSlug(pathname) == "" && filename == "" && FirstYear(pathname, 0).None?
      ==> EventFile(url, pathname, filename, hash) == "misc-" + hash(url) + ".bin"
  {
  }

}
