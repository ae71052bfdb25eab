/** The unified data file's Pokémon index: name keys, dex numbers read from
    image URLs, and one index entry per key recording which sources mention
    the Pokémon. */
module CombineAll {
  import opened Wrappers
  import opened Strings
  import opened Sorting
  import ContextualData

  // ---------------------------------------------------------------- names

  /** The characters a name key may keep: `[a-z0-9\s-]`. */
  predicate NameChar(c: char) {
    IsLower(c) || IsDigit(c) || IsSpace(c) || c == '-'
  }

  function KeepNameChars(s: string): (r: string)
    ensures |r| <= |s|
    ensures forall i :: 0 <= i < |r| ==> NameChar(r[i])
  {
    if s == [] then []
    else (if NameChar(s[0]) then [s[0]] else []) + KeepNameChars(s[1..])
  }

  /** Filtering keeps a string made of allowed characters as it is. */
  lemma {:induction false} KeepNameCharsOfClean(s: string)
    requires forall i :: 0 <= i < |s| ==> NameChar(s[i])
    ensures KeepNameChars(s) == s
  {
    if s != [] {
      KeepNameCharsOfClean(s[1..]);
    }
  }

  /** `normalizeName`: lower case, apostrophes and every character outside
      `[a-z0-9\s-]` removed (the apostrophe pass is subsumed by the
      filter), then trimmed. A missing name is the empty string. */
  function NormalizeName(name: string): string {
    Trim(KeepNameChars(Lower(name)))
  }

  /** A key is trimmed and made of `[a-z0-9\s-]` only; a missing name has the
      empty key. */
  lemma NormalizeNameShape(name: string)
    ensures var r := NormalizeName(name);
      (forall i :: 0 <= i < |r| ==> NameChar(r[i])) && IsTrimmed(r) && (name == "" ==> r == "")
  {
    var k := KeepNameChars(Lower(name));
    var r := Trim(k);
    TrimKeeps(k);
    forall i | 0 <= i < |r| ensures NameChar(r[i]) {
      assert r[i] in r;
      var j :| 0 <= j < |k| && k[j] == r[i];
    }
  }

  /** Normalising a key again changes nothing. */
  lemma NormalizeNameIdempotent(name: string)
    ensures NormalizeName(NormalizeName(name)) == NormalizeName(name)
  {
    var r := NormalizeName(name);
    NormalizeNameShape(name);
    LowerOfNameChars(r);
    KeepNameCharsOfClean(r);
    TrimOfTrimmed(r);
  }

  /** A key has no upper-case letters to lower. */
  lemma LowerOfNameChars(r: string)
    requires forall i :: 0 <= i < |r| ==> NameChar(r[i])
    ensures Lower(r) == r
  {
    forall i | 0 <= i < |r| ensures Lower(r)[i] == r[i] {
      assert !IsUpper(r[i]);
    }
  }

  /** Case does not matter: a name and its lower-case form share a key. */
  lemma NormalizeNameIgnoresCase(name: string)
    ensures NormalizeName(Lower(name)) == NormalizeName(name)
  {
    LowerIdempotent(name);
  }

  // ----------------------------------------------------------- dex numbers

  /** "pm" followed by a digit starts at position `i`. */
  predicate DexMarkAt(s: string, i: int) {
    0 <= i && i + 2 < |s| && s[i] == 'p' && s[i + 1] == 'm' && IsDigit(s[i + 2])
  }

  /** `imageUrl.match(/pm(\d+)/)` read with `parseInt`: the number after the
      first "pm" that is followed by a digit; `None` when there is none
      (including the missing or empty URL). */
  function ExtractDexFromImage(image: string): (r: Option<nat>)
    ensures r.None? <==> forall i :: 0 <= i < |image| ==> !DexMarkAt(image, i)
    decreases |image|
  {
    if |image| < 3 then None
    else if DexMarkAt(image, 0) then Some(DigitsValue(DigitPrefix(image[2..])))
    else
      var r := ExtractDexFromImage(image[1..]);
      assert forall i :: 1 <= i < |image| ==> (DexMarkAt(image, i) ==> DexMarkAt(image[1..], i - 1));
      assert forall j :: 0 <= j < |image| - 1 ==> (DexMarkAt(image[1..], j) ==> DexMarkAt(image, j + 1));
      r
  }

  /** A position that is not a mark is skipped. */
  lemma ExtractDexSkip(s: string)
    requires s != [] && !DexMarkAt(s, 0)
    ensures ExtractDexFromImage(s) == ExtractDexFromImage(s[1..])
  {
  }

  /** A mark right at the start gives the number of the digits after it. */
  lemma ExtractDexHere(n: nat, y: string)
    requires y == [] || !IsDigit(y[0])
    ensures ExtractDexFromImage("pm" + NatText(n) + y) == Some(n)
  {
    var u := NatText(n) + y;
    var s := "pm" + u;
    assert "pm" + NatText(n) + y == s;
    assert DexMarkAt(s, 0) by {
      assert s[2] == u[0] == NatText(n)[0];
    }
    assert s[2..] == u;
    if y == [] {
      assert u == NatText(n);
      assert |DigitPrefix(u)| == |u|;
    } else {
      DigitPrefixOf(NatText(n), y);
    }
    NatTextValue(n);
  }

  /** A prefix without a mark can be dropped one character at a time. */
  lemma DropUnmarked(x: string, t: string)
    requires x != [] && ExtractDexFromImage(x).None?
    requires |t| >= 2 && t[0] == 'p'
    ensures ExtractDexFromImage(x + t) == ExtractDexFromImage(x[1..] + t)
    ensures ExtractDexFromImage(x[1..]).None?
  {
    var s := x + t;
    assert !DexMarkAt(s, 0) by {
      if |x| >= 3 {
        assert !DexMarkAt(x, 0);
      } else if |x| == 2 {
        assert s[2] == 'p';
      } else {
        assert s[1] == 'p';
      }
    }
    ExtractDexSkip(s);
    assert s[1..] == x[1..] + t;
    assert forall i :: 0 <= i < |x| - 1 ==> (DexMarkAt(x[1..], i) ==> DexMarkAt(x, i + 1));
  }

  /** A prefix without a mark does not change the number found after it. */
  lemma {:induction false} ExtractDexAfter(x: string, t: string)
    requires ExtractDexFromImage(x).None?
    requires |t| >= 2 && t[0] == 'p'
    ensures ExtractDexFromImage(x + t) == ExtractDexFromImage(t)
    decreases |x|
  {
    if x == [] {
      assert x + t == t;
    } else {
      DropUnmarked(x, t);
      ExtractDexAfter(x[1..], t);
    }
  }

  /** A URL whose first mark is followed by the digits of `n` gives `n`. */
  lemma ExtractDexOf(x: string, n: nat, y: string)
    requires ExtractDexFromImage(x).None?
    requires y == [] || !IsDigit(y[0])
    ensures ExtractDexFromImage(x + "pm" + NatText(n) + y) == Some(n)
  {
    var t := "pm" + NatText(n) + y;
    assert x + "pm" + NatText(n) + y == x + t;
    ExtractDexHere(n, y);
    ExtractDexAfter(x, t);
  }

  // -------------------------------------------------------- index records

  /** The sources in the order the index visits them. */
  datatype Source = Shinies | Raids | Eggs | Research | Rockets

  function Rank(s: Source): nat {
    match s
    case Shinies => 0
    case Raids => 1
    case Eggs => 2
    case Research => 3
    case Rockets => 4
  }

  /** How a record touches an entry's `types`: not at all, by replacing
      them (raids), or by setting them when absent (rocket slots). */
  datatype TypesUpdate = NoTypes | Overwrite(types: seq<string>) | IfAbsent(types: seq<string>)

  /** One mention of a Pokémon, reduced to what the index reads from it. */
  datatype Record = Record(
    source: Source, name: string, dex: Option<int>, family: Option<string>, typeCode: Option<string>,
    canBeShiny: bool, types: TypesUpdate)

  datatype Entry = Entry(
    name: string, dexNumber: Option<int>, family: Option<string>, typeCode: Option<string>,
    canBeShiny: bool, sources: seq<Source>, types: Option<seq<string>>)

  /** The index object: keys in creation order and the entries. */
  datatype Index = Index(order: seq<string>, entries: map<string, Entry>)

  /** Records are filed under `key` of their name. The index is built for
      any key function, so that its facts do not depend on how names are
      normalised; `BuildPokemonIndex` passes `NormalizeName`. */
  function Key(r: Record, key: string -> string): string {
    key(r.name)
  }

  /** Visit one record: create the entry on first sight from this record,
      then add the source once, turn `canBeShiny` on when the record says
      so, and update the types. */
  function Add(idx: Index, r: Record, key: string -> string): Index {
    var k := Key(r, key);
    var e := if k in idx.entries then idx.entries[k]
             else Entry(r.name, r.dex, r.family, r.typeCode, r.canBeShiny, [], None);
    var types := match r.types
      case NoTypes => e.types
      case Overwrite(t) => Some(t)
      case IfAbsent(t) => if e.types.None? then Some(t) else e.types;
    var e' := e.(sources := if r.source in e.sources then e.sources else e.sources + [r.source],
                 canBeShiny := e.canBeShiny || r.canBeShiny,
                 types := types);
    Index(if k in idx.entries then idx.order else idx.order + [k], idx.entries[k := e'])
  }

  function Build(rs: seq<Record>, key: string -> string): Index {
    if rs == [] then Index([], map[]) else Add(Build(rs[..|rs| - 1], key), rs[|rs| - 1], key)
  }

  /** The position of the first record with key `k`. */
  function FirstIndex(rs: seq<Record>, k: string, key: string -> string): (r: Option<nat>)
    ensures r.Some? ==> r.value < |rs| && Key(rs[r.value], key) == k && forall j :: 0 <= j < r.value ==> Key(rs[j], key) != k
    ensures r.None? ==> forall j :: 0 <= j < |rs| ==> Key(rs[j], key) != k
  {
    if rs == [] then None
    else
      var n := |rs| - 1;
      var f := FirstIndex(rs[..n], k, key);
      if f.Some? then f else if Key(rs[n], key) == k then Some(n) else None
  }

  /** Sources appear in visiting order. */
  predicate PassOrder(rs: seq<Record>) {
    forall i, j :: 0 <= i < j < |rs| ==> Rank(rs[i].source) <= Rank(rs[j].source)
  }

  predicate Ascending(s: seq<Source>) {
    forall i, j :: 0 <= i < j < |s| ==> Rank(s[i]) < Rank(s[j])
  }

  /** Some record with key `k` comes from `src`. */
  predicate Mentions(rs: seq<Record>, k: string, src: Source, key: string -> string) {
    exists j :: 0 <= j < |rs| && Key(rs[j], key) == k && rs[j].source == src
  }

  /** Some record with key `k` says the Pokémon can be shiny. */
  predicate ShinyMention(rs: seq<Record>, k: string, key: string -> string) {
    exists j :: 0 <= j < |rs| && Key(rs[j], key) == k && rs[j].canBeShiny
  }

  /** The index has an entry exactly for the keys of the records, listed once
      each in creation order. */
  lemma {:induction false} BuildKeys(rs: seq<Record>, key: string -> string)
    ensures forall k :: k in Build(rs, key).entries <==> FirstIndex(rs, k, key).Some?
    ensures forall k :: k in Build(rs, key).order <==> k in Build(rs, key).entries
    ensures Distinct(Build(rs, key).order)
  {
    if rs != [] {
      var n := |rs| - 1;
      BuildKeys(rs[..n], key);
      forall k ensures FirstIndex(rs, k, key).Some? <==> FirstIndex(rs[..n], k, key).Some? || Key(rs[n], key) == k {
      }
    }
  }

  /** Name, dex number, family and type code come from the first record with
      the key. */
  lemma {:induction false} BuildFirst(rs: seq<Record>, k: string, key: string -> string)
    requires k in Build(rs, key).entries
    ensures FirstIndex(rs, k, key).Some?
    ensures var e := Build(rs, key).entries[k]; var f := rs[FirstIndex(rs, k, key).value];
      e.name == f.name && e.dexNumber == f.dex && e.family == f.family && e.typeCode == f.typeCode
  {
    BuildKeys(rs, key);
    var n := |rs| - 1;
    BuildKeys(rs[..n], key);
    if k in Build(rs[..n], key).entries {
      BuildFirst(rs[..n], k, key);
    }
  }

  /** What visiting one record does to the entry under its own key. */
  lemma AddOwn(idx: Index, r: Record, key: string -> string)
    ensures var k := Key(r, key);
      var s := if k in idx.entries then idx.entries[k].sources else [];
      var b := if k in idx.entries then idx.entries[k].canBeShiny else r.canBeShiny;
      && k in Add(idx, r, key).entries
      && Add(idx, r, key).entries[k].sources == (if r.source in s then s else s + [r.source])
      && Add(idx, r, key).entries[k].canBeShiny == (b || r.canBeShiny)
  {
  }

  /** Visiting a record leaves the other keys' entries alone. */
  lemma AddOther(idx: Index, r: Record, key: string -> string, k: string)
    requires k != Key(r, key)
    ensures k in Add(idx, r, key).entries <==> k in idx.entries
    ensures k in idx.entries ==> Add(idx, r, key).entries[k] == idx.entries[k]
  {
  }

  lemma MentionsSnoc(rs: seq<Record>, k: string, src: Source, key: string -> string)
    requires rs != []
    ensures var n := |rs| - 1;
      Mentions(rs, k, src, key) <==> Mentions(rs[..n], k, src, key) || (Key(rs[n], key) == k && rs[n].source == src)
  {
    var n := |rs| - 1;
    if Mentions(rs, k, src, key) {
      var j :| 0 <= j < |rs| && Key(rs[j], key) == k && rs[j].source == src;
      if j < n {
        assert rs[..n][j] == rs[j];
      }
    }
    if Mentions(rs[..n], k, src, key) {
      var j :| 0 <= j < n && Key(rs[..n][j], key) == k && rs[..n][j].source == src;
      assert rs[j] == rs[..n][j];
    }
  }

  lemma ShinyMentionSnoc(rs: seq<Record>, k: string, key: string -> string)
    requires rs != []
    ensures var n := |rs| - 1;
      ShinyMention(rs, k, key) <==> ShinyMention(rs[..n], k, key) || (Key(rs[n], key) == k && rs[n].canBeShiny)
  {
    var n := |rs| - 1;
    if ShinyMention(rs, k, key) {
      var j :| 0 <= j < |rs| && Key(rs[j], key) == k && rs[j].canBeShiny;
      if j < n {
        assert rs[..n][j] == rs[j];
      }
    }
    if ShinyMention(rs[..n], k, key) {
      var j :| 0 <= j < n && Key(rs[..n][j], key) == k && rs[..n][j].canBeShiny;
      assert rs[j] == rs[..n][j];
    }
  }

  /** A key without an entry has no records. */
  lemma Unmentioned(rs: seq<Record>, k: string, key: string -> string)
    requires k !in Build(rs, key).entries
    ensures forall src :: !Mentions(rs, k, src, key)
    ensures !ShinyMention(rs, k, key)
  {
    BuildKeys(rs, key);
  }

  lemma AscendingAppend(s: seq<Source>, x: Source)
    requires Ascending(s) && forall i :: 0 <= i < |s| ==> Rank(s[i]) < Rank(x)
    ensures Ascending(s + [x])
  {
    forall i, j | 0 <= i < j < |s| + 1 ensures Rank((s + [x])[i]) < Rank((s + [x])[j]) {
      if j < |s| {
        assert (s + [x])[i] == s[i] && (s + [x])[j] == s[j];
      }
    }
  }

  /** An entry lists each source mentioning its key once, in visiting order. */
  lemma BuildSources(rs: seq<Record>, k: string, key: string -> string)
    requires PassOrder(rs)
    requires k in Build(rs, key).entries
    ensures forall src :: src in Build(rs, key).entries[k].sources <==> Mentions(rs, k, src, key)
    ensures Ascending(Build(rs, key).entries[k].sources)
  {
    SourcesMembers(rs, k, key);
    SourcesAscending(rs, k, key);
  }

  lemma {:induction false} SourcesMembers(rs: seq<Record>, k: string, key: string -> string)
    requires k in Build(rs, key).entries
    ensures forall src :: src in Build(rs, key).entries[k].sources <==> Mentions(rs, k, src, key)
  {
    var n := |rs| - 1;
    var p := rs[..n];
    var r := rs[n];
    var idx := Build(p, key);
    assert Build(rs, key) == Add(idx, r, key);
    forall src ensures Mentions(rs, k, src, key) <==> Mentions(p, k, src, key) || (Key(r, key) == k && r.source == src) {
      MentionsSnoc(rs, k, src, key);
    }
    if k in idx.entries {
      SourcesMembers(p, k, key);
    } else {
      Unmentioned(p, k, key);
    }
    if k == Key(r, key) {
      AddOwn(idx, r, key);
    } else {
      AddOther(idx, r, key, k);
    }
  }

  lemma {:induction false} SourcesAscending(rs: seq<Record>, k: string, key: string -> string)
    requires PassOrder(rs)
    requires k in Build(rs, key).entries
    ensures Ascending(Build(rs, key).entries[k].sources)
  {
    var n := |rs| - 1;
    var p := rs[..n];
    var r := rs[n];
    var idx := Build(p, key);
    assert Build(rs, key) == Add(idx, r, key);
    assert PassOrder(p);
    if k in idx.entries {
      SourcesAscending(p, k, key);
    }
    if k == Key(r, key) {
      AddOwn(idx, r, key);
      var s := if k in idx.entries then idx.entries[k].sources else [];
      if r.source !in s {
        if k in idx.entries {
          EarlierSourcesBelow(rs, k, key);
        }
        AscendingAppend(s, r.source);
      }
    } else {
      AddOther(idx, r, key, k);
    }
  }

  /** A source new to an entry ranks above every source already listed. */
  lemma EarlierSourcesBelow(rs: seq<Record>, k: string, key: string -> string)
    requires PassOrder(rs) && rs != []
    requires k in Build(rs[..|rs| - 1], key).entries
    requires rs[|rs| - 1].source !in Build(rs[..|rs| - 1], key).entries[k].sources
    ensures var s := Build(rs[..|rs| - 1], key).entries[k].sources;
      forall i :: 0 <= i < |s| ==> Rank(s[i]) < Rank(rs[|rs| - 1].source)
  {
    var n := |rs| - 1;
    var p := rs[..n];
    var s := Build(p, key).entries[k].sources;
    SourcesMembers(p, k, key);
    forall i | 0 <= i < |s| ensures Rank(s[i]) < Rank(rs[n].source) {
      assert s[i] in s;
      var j :| 0 <= j < |p| && Key(p[j], key) == k && p[j].source == s[i];
      assert rs[j] == p[j];
    }
  }

  /** An entry can be shiny exactly when some record with its key says so. */
  lemma {:induction false} BuildShiny(rs: seq<Record>, k: string, key: string -> string)
    requires k in Build(rs, key).entries
    ensures Build(rs, key).entries[k].canBeShiny <==> ShinyMention(rs, k, key)
  {
    var n := |rs| - 1;
    var p := rs[..n];
    var r := rs[n];
    var idx := Build(p, key);
    assert Build(rs, key) == Add(idx, r, key);
    ShinyMentionSnoc(rs, k, key);
    if k in idx.entries {
      BuildShiny(p, k, key);
    } else {
      Unmentioned(p, k, key);
    }
    if k == Key(r, key) {
      AddOwn(idx, r, key);
    } else {
      AddOther(idx, r, key, k);
    }
  }

  // ------------------------------------------------------ the five passes

  datatype ShinyRecord = ShinyRecord(name: string, dexNumber: Option<int>, family: Option<string>, typeCode: Option<string>)

  /** A raid boss, egg hatch or rocket slot Pokémon; `types` is the list of
      type names (empty when missing). */
  datatype Pokemon = Pokemon(name: string, image: string, canBeShiny: bool, types: seq<string>)

  /** A rocket lineup: its `type` and the Pokémon of its slots. */
  datatype RocketLineup = RocketLineup(kind: string, slots: seq<seq<Pokemon>>)

  function ShinyRecords(shinies: seq<ShinyRecord>): (r: seq<Record>)
    ensures |r| == |shinies|
    ensures forall i :: 0 <= i < |r| ==>
      r[i].source == Shinies && r[i].canBeShiny && r[i].name == shinies[i].name && r[i].dex == shinies[i].dexNumber
  {
    if shinies == [] then []
    else
      var s := shinies[0];
      [Record(Shinies, s.name, s.dexNumber, s.family, s.typeCode, true, NoTypes)] + ShinyRecords(shinies[1..])
  }

  function PokemonRecord(src: Source, p: Pokemon, types: TypesUpdate): Record {
    Record(src, p.name, OptionInt(ExtractDexFromImage(p.image)), None, None, p.canBeShiny, types)
  }

  function OptionInt(n: Option<nat>): Option<int> {
    match n case Some(v) => Some(v) case None => None
  }

  function RaidRecords(raids: seq<Pokemon>): (r: seq<Record>)
    ensures |r| == |raids|
    ensures forall i :: 0 <= i < |r| ==> r[i].source == Raids && r[i].name == raids[i].name
  {
    if raids == [] then []
    else
      var p := raids[0];
      [PokemonRecord(Raids, p, if p.types != [] then Overwrite(p.types) else NoTypes)] + RaidRecords(raids[1..])
  }

  function EggRecords(eggs: seq<Pokemon>): (r: seq<Record>)
    ensures |r| == |eggs|
    ensures forall i :: 0 <= i < |r| ==> r[i].source == Eggs && r[i].name == eggs[i].name
  {
    if eggs == [] then [] else [PokemonRecord(Eggs, eggs[0], NoTypes)] + EggRecords(eggs[1..])
  }

  /** Encounter rewards with a name, task by task. */
  function ResearchRecords(research: seq<ContextualData.Task>): (r: seq<Record>)
    ensures forall i :: 0 <= i < |r| ==> r[i].source == Research && r[i].name != ""
  {
    if research == [] then [] else RewardRecords(research[0].rewards.GetOr([])) + ResearchRecords(research[1..])
  }

  function RewardRecords(rewards: seq<ContextualData.Reward>): (r: seq<Record>)
    ensures forall i :: 0 <= i < |r| ==> r[i].source == Research && r[i].name != ""
    ensures forall w :: w in rewards && w.kind == "encounter" && w.name != "" ==>
      exists x :: x in r && x.name == w.name
  {
    if rewards == [] then []
    else
      var w := rewards[0];
      var rest := RewardRecords(rewards[1..]);
      assert forall x :: x in rewards <==> x == w || x in rewards[1..];
      if w.kind == "encounter" && w.name != "" then
        [Record(Research, w.name, OptionInt(ExtractDexFromImage(w.info.image)), None, None, w.info.canBeShiny, NoTypes)] + rest
      else rest
  }

  /** Every named slot Pokémon, whether or not it is an encounter. */
  function RocketRecords(lineups: seq<RocketLineup>): (r: seq<Record>)
    ensures forall i :: 0 <= i < |r| ==> r[i].source == Rockets && r[i].name != ""
  {
    if lineups == [] then [] else SlotRecords(Flatten(lineups[0].slots)) + RocketRecords(lineups[1..])
  }

  /** `.flat()` of the slots. */
  function Flatten<T(!new)>(xss: seq<seq<T>>): (r: seq<T>)
    ensures forall x :: x in r <==> exists i :: 0 <= i < |xss| && x in xss[i]
  {
    if xss == [] then []
    else
      var rest := Flatten(xss[1..]);
      assert forall i :: 0 <= i < |xss| - 1 ==> xss[1..][i] == xss[i + 1];
      xss[0] + rest
  }

  function SlotRecords(ps: seq<Pokemon>): (r: seq<Record>)
    ensures forall i :: 0 <= i < |r| ==> r[i].source == Rockets && r[i].name != ""
    ensures forall p :: p in ps && p.name != "" ==> exists x :: x in r && x.name == p.name
  {
    if ps == [] then []
    else
      var p := ps[0];
      var rest := SlotRecords(ps[1..]);
      assert forall x :: x in ps <==> x == p || x in ps[1..];
      if p.name != "" then
        [PokemonRecord(Rockets, p, if p.types != [] then IfAbsent(p.types) else NoTypes)] + rest
      else rest
  }

  /** The records of the five passes, in order. */
  function Contributions(shinies: seq<ShinyRecord>, raids: seq<Pokemon>, eggs: seq<Pokemon>,
                         research: seq<ContextualData.Task>, lineups: seq<RocketLineup>): (rs: seq<Record>)
    ensures PassOrder(rs)
  {
    var a, b, c, d, e := ShinyRecords(shinies), RaidRecords(raids), EggRecords(eggs),
                         ResearchRecords(research), RocketRecords(lineups);
    var rs := a + b + c + d + e;
    assert forall i :: 0 <= i < |rs| ==>
      Rank(rs[i].source) == (if i < |a| then 0 else if i < |a| + |b| then 1 else if i < |a| + |b| + |c| then 2
                             else if i < |a| + |b| + |c| + |d| then 3 else 4);
    rs
  }

  /** `buildPokemonIndex` */
  function BuildPokemonIndex(shinies: seq<ShinyRecord>, raids: seq<Pokemon>, eggs: seq<Pokemon>,
                             research: seq<ContextualData.Task>, lineups: seq<RocketLineup>): Index {
    Build(Contributions(shinies, raids, eggs, research, lineups), NormalizeName)
  }

  /** The index's facts together: one entry per key mentioned anywhere, its
      name and dex number from the first mention, its sources once each in
      visiting order, and `canBeShiny` exactly when it is a shiny or some
      mention says it can be shiny. */
  lemma PokemonIndexFacts(shinies: seq<ShinyRecord>, raids: seq<Pokemon>, eggs: seq<Pokemon>,
                          research: seq<ContextualData.Task>, lineups: seq<RocketLineup>, k: string)
    ensures var rs := Contributions(shinies, raids, eggs, research, lineups);
      var idx := BuildPokemonIndex(shinies, raids, eggs, research, lineups);
      && (k in idx.entries <==> exists j :: 0 <= j < |rs| && Key(rs[j], NormalizeName) == k)
      && Distinct(idx.order)
      && (k in idx.entries ==>
            var e := idx.entries[k];
            var f := rs[FirstIndex(rs, k, NormalizeName).value];
            && e.name == f.name && e.dexNumber == f.dex
            && Ascending(e.sources)
            && (forall src :: src in e.sources <==> Mentions(rs, k, src, NormalizeName))
            && (e.canBeShiny <==> Shinies in e.sources || ShinyMention(rs, k, NormalizeName)))
  {
    var rs := Contributions(shinies, raids, eggs, research, lineups);
    BuildKeys(rs, NormalizeName);
    if k in Build(rs, NormalizeName).entries {
      BuildFirst(rs, k, NormalizeName);
      BuildSources(rs, k, NormalizeName);
      BuildShiny(rs, k, NormalizeName);
      if Mentions(rs, k, Shinies, NormalizeName) {
        var j :| 0 <= j < |rs| && Key(rs[j], NormalizeName) == k && rs[j].source == Shinies;
        ShinyRecordShiny(shinies, raids, eggs, research, lineups, j);
      }
    }
  }

  /** Records from the shiny list always say the Pokémon can be shiny. */
  lemma ShinyRecordShiny(shinies: seq<ShinyRecord>, raids: seq<Pokemon>, eggs: seq<Pokemon>,
                         research: seq<ContextualData.Task>, lineups: seq<RocketLineup>, j: nat)
    requires j < |Contributions(shinies, raids, eggs, research, lineups)|
    requires Contributions(shinies, raids, eggs, research, lineups)[j].source == Shinies
    ensures Contributions(shinies, raids, eggs, research, lineups)[j].canBeShiny
  {
    var a := ShinyRecords(shinies);
    var rest := RaidRecords(raids) + EggRecords(eggs) + ResearchRecords(research) + RocketRecords(lineups);
    ContributionsSplit(shinies, raids, eggs, research, lineups);
    assert forall i :: |a| <= i < |a + rest| ==> (a + rest)[i] == rest[i - |a|];
    assert j < |a|;
    assert a[j].canBeShiny;
  }

  /** Only the shiny list contributes records of its source, and it comes first. */
  lemma ContributionsSplit(shinies: seq<ShinyRecord>, raids: seq<Pokemon>, eggs: seq<Pokemon>,
                           research: seq<ContextualData.Task>, lineups: seq<RocketLineup>)
    ensures var rest := RaidRecords(raids) + EggRecords(eggs) + ResearchRecords(research) + RocketRecords(lineups);
      && Contributions(shinies, raids, eggs, research, lineups) == ShinyRecords(shinies) + rest
      && NoneFrom(rest, Shinies)
  {
    var a, b, c, d, e := ShinyRecords(shinies), RaidRecords(raids), EggRecords(eggs),
                         ResearchRecords(research), RocketRecords(lineups);
    AppendAssoc(a, b + c + d, e);
    AppendAssoc(a, b + c, d);
    AppendAssoc(a, b, c);
    NoneFromAppend(b, c, Shinies);
    NoneFromAppend(b + c, d, Shinies);
    NoneFromAppend(b + c + d, e, Shinies);
  }

  /** No record of `rs` comes from `src`. */
  predicate NoneFrom(rs: seq<Record>, src: Source) {
    forall i :: 0 <= i < |rs| ==> rs[i].source != src
  }

  lemma NoneFromAppend(x: seq<Record>, y: seq<Record>, src: Source)
    requires NoneFrom(x, src) && NoneFrom(y, src)
    ensures NoneFrom(x + y, src)
  {
  }
}
