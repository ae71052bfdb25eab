/** The page-independent rules the detailed scrapers share: the temporary
    file each scraper writes, the fallback to the backup copy when a page
    fails, the ticket-price reader, and the classifiers that sort the
    Pokémon lists of a page into egg and raid tiers. Page nodes arrive
    already read: a section header with its id and text, a paragraph, or a
    Pokémon list with its entries. */
module ScraperUtils {
  import opened Wrappers
  import opened Strings
  import opened Json

  // ------------------------------------------------------- temp files

  /** A file as written: its path and the value `JSON.stringify` saw. */
  datatype TempFile = TempFile(path: string, content: Json)

  function TempPath(id: string, suffix: string): string {
    "data/temp/" + id + suffix + ".json"
  }

  /** `writeTempFile(id, type, data, suffix)`: the body is `{id, type,
      data}`; an undefined `data` is left out by the serializer. */
  function WriteTempFile(id: string, eventType: string, data: Option<Json>, suffix: string): (r: TempFile)
    ensures StartsWith(r.path, "data/temp/") && EndsWith(r.path, ".json")
    ensures r.content.JObj? && Get(r.content.fields, "id") == Some(JStr(id)) && Get(r.content.fields, "type") == Some(JStr(eventType))
    ensures Get(r.content.fields, "data") == data
  {
    var head := [Field("id", JStr(id)), Field("type", JStr(eventType))];
    var path := TempPath(id, suffix);
    assert path[..10] == "data/temp/";
    assert path[|path| - 5..] == ".json";
    TempFile(path, JObj(head + (if data.Some? then [Field("data", data.value)] else [])))
  }

  /** Different events never share a temporary file for the same suffix. */
  lemma TempPathInjective(a: string, b: string, suffix: string)
    requires TempPath(a, suffix) == TempPath(b, suffix)
    ensures a == b
  {
    var p := TempPath(a, suffix);
    assert |a| == |b|;
    assert a == p[10..10 + |a|];
    assert b == TempPath(b, suffix)[10..10 + |b|];
  }

  // ------------------------------------------------------- backup fallback

  /** What one backup entry does to the search for `id` and `key`. */
  datatype Step = Continue | Stop(outcome: Outcome)

  /** `handleScraperError`: a file written, nothing written, or a
      `TypeError` escaping the handler. */
  datatype Outcome = Nothing | Written(file: TempFile) | Throws

  /** `key in v`, `None` when the operator throws on a primitive. */
  function HasKey(v: Json, key: string): (r: Option<bool>)
    ensures r.None? <==> IsPrimitive(v)
  {
    match v
    case JObj(fs) => Some(key in Keys(fs))
    case JArr(items) => Some(key == "length" || ArrayIndex(key, |items|).Some?)
    case _ => None
  }

  /** The array index spelled by `key`, below `n`. */
  function ArrayIndex(key: string, n: nat): (r: Option<nat>)
    ensures r.Some? ==> r.value < n && NatText(r.value) == key
    ensures r.None? ==> forall i :: 0 <= i < n ==> NatText(i) != key
  {
    if n == 0 then None
    else if NatText(n - 1) == key then Some(n - 1)
    else ArrayIndex(key, n - 1)
  }

  /** `v[key]` once `key in v` holds. */
  function Member(v: Json, key: string): Option<Json> {
    match v
    case JObj(fs) => Get(fs, key)
    case JArr(items) =>
      if key == "length" then Some(JNum(|items|))
      else (match ArrayIndex(key, |items|)
        case Some(i) => Some(items[i])
        case None => None)
    case _ => None
  }

  /** `x != null` for a property that may be undefined. */
  predicate NonNull(v: Option<Json>) { v.Some? && !v.value.JNull? }

  /** The entry has the event's id and a non-null `extraData`. */
  predicate SameEvent(entry: Json, id: string) {
    Prop(entry, "eventID") == Some(JStr(id)) && NonNull(Prop(entry, "extraData"))
  }

  /** The body of the loop for one backup entry. */
  function EntryStep(entry: Json, id: string, eventType: string, key: string): (r: Step)
    ensures r == Continue <==> !entry.JNull? && (!SameEvent(entry, id) || HasKey(Prop(entry, "extraData").value, key) == Some(false))
    ensures r.Stop? && r.outcome.Written? ==> SameEvent(entry, id) && r.outcome.file.path == TempPath(id, "")
  {
    if entry.JNull? then Stop(Throws)
    else if !SameEvent(entry, id) then Continue
    else
      var extra := Prop(entry, "extraData").value;
      match HasKey(extra, key)
      case None => Stop(Throws)
      case Some(false) => Continue
      case Some(true) =>
        var m := Member(extra, key);
        if !NonNull(m) then Stop(Throws)
        else Stop(Written(WriteTempFile(id, eventType, Prop(m.value, "data"), "")))
  }

  /** `handleScraperError(err, id, type, bkp, key)`. */
  function HandleScraperError(id: string, eventType: string, bkp: seq<Json>, key: string): (r: Outcome)
    decreases |bkp|
  {
    if bkp == [] then Nothing
    else match EntryStep(bkp[0], id, eventType, key)
      case Continue => HandleScraperError(id, eventType, bkp[1..], key)
      case Stop(o) => o
  }

  /** Nothing is written exactly when every entry lets the search go on,
      and otherwise the outcome is that of the first entry that stops it. */
  lemma {:induction false} HandleScraperErrorFirst(id: string, eventType: string, bkp: seq<Json>, key: string)
    ensures HandleScraperError(id, eventType, bkp, key) == Nothing <==> forall i :: 0 <= i < |bkp| ==> EntryStep(bkp[i], id, eventType, key) == Continue
    ensures HandleScraperError(id, eventType, bkp, key) != Nothing ==>
      exists i :: 0 <= i < |bkp| && EntryStep(bkp[i], id, eventType, key) == Stop(HandleScraperError(id, eventType, bkp, key))
        && forall j :: 0 <= j < i ==> EntryStep(bkp[j], id, eventType, key) == Continue
    decreases |bkp|
  {
    if bkp != [] {
      HandleScraperErrorFirst(id, eventType, bkp[1..], key);
      assert forall i :: 1 <= i < |bkp| ==> bkp[i] == bkp[1..][i - 1];
      var r := HandleScraperError(id, eventType, bkp, key);
      if EntryStep(bkp[0], id, eventType, key) == Continue && r != Nothing {
        var i :| 0 <= i < |bkp[1..]| && EntryStep(bkp[1..][i], id, eventType, key) == Stop(r)
          && forall j :: 0 <= j < i ==> EntryStep(bkp[1..][j], id, eventType, key) == Continue;
        assert EntryStep(bkp[i + 1], id, eventType, key) == Stop(r);
      }
    }
  }

  /** A file is written only for an entry of the same event, and it is the
      event's own temporary file. */
  lemma WrittenFromSameEvent(id: string, eventType: string, bkp: seq<Json>, key: string)
    requires HandleScraperError(id, eventType, bkp, key).Written?
    ensures exists i :: 0 <= i < |bkp| && SameEvent(bkp[i], id)
    ensures HandleScraperError(id, eventType, bkp, key).file.path == TempPath(id, "")
  {
    HandleScraperErrorFirst(id, eventType, bkp, key);
  }

  // ------------------------------------------------------- prices

  /** `s` is `\d+\.?\d*`: a digit run, then possibly a point and more
      digits. */
  predicate NumberShape(s: string) {
    var n := |DigitPrefix(s)|;
    n >= 1 && (n == |s| || (s[n] == '.' && AllDigits(s[n + 1..])))
  }

  /** The greedy match of `\d+\.?\d*` at the start of `s`. */
  function NumberText(s: string): (r: string)
    requires s != [] && IsDigit(s[0])
    ensures StartsWith(s, r) && NumberShape(r)
    ensures |r| == |s| || (!IsDigit(s[|r|]) && (s[|r|] != '.' || '.' in r))
  {
    var d := DigitPrefix(s);
    var rest := s[|d|..];
    if rest != [] && rest[0] == '.' then
      var f := DigitPrefix(rest[1..]);
      assert s == d + "." + rest[1..] by {
        assert s == d + rest;
      }
      FractionPrefix(d, rest[1..], f);
      FractionShape(d, f, d + "." + f);
      d + "." + f
    else
      assert d[..|d|] == d;
      d
  }

  /** Digits, a point and a greedy prefix of what follows start the text
      they came from, and end where that prefix ends. */
  lemma FractionPrefix(d: string, t: string, f: string)
    requires StartsWith(t, f) && (|f| == |t| || !IsDigit(t[|f|]))
    ensures StartsWith(d + "." + t, d + "." + f)
    ensures |d + "." + f| == |d + "." + t| || !IsDigit((d + "." + t)[|d + "." + f|])
  {
    var s, r := d + "." + t, d + "." + f;
    assert s[..|r|] == r by {
      assert s[..|r|] == d + "." + t[..|f|];
    }
    if |r| < |s| {
      assert s[|r|] == t[|f|];
    }
  }

  /** Digits, a point and more digits have the shape of a number. */
  lemma FractionShape(d: string, f: string, r: string)
    requires AllDigits(d) && d != [] && AllDigits(f) && r == d + "." + f
    ensures NumberShape(r) && '.' in r
  {
    DigitPrefixOf(d, r[|d|..]);
    assert r[..|d|] == d;
    assert r[|d| + 1..] == f;
    assert r[|d|] == '.';
  }

  /** A number followed by a non-digit reads back exactly. */
  lemma NumberTextOf(a: string, b: string, x: string)
    requires a != [] && AllDigits(a) && AllDigits(b)
    requires x == [] || !IsDigit(x[0])
    ensures NumberText(a + "." + b + x) == a + "." + b
  {
    var s := a + "." + b + x;
    assert s == a + ("." + b + x);
    DigitPrefixOf(a, "." + b + x);
    assert s[|a|..] == "." + b + x;
    assert s[|a|..][1..] == b + x;
    if x == [] {
      assert b + x == b;
    } else {
      DigitPrefixOf(b, x);
    }
  }

  /** A number without a point reads back exactly when no point or digit
      follows. */
  lemma NumberTextPlain(a: string, x: string)
    requires a != [] && AllDigits(a)
    requires x == [] || (!IsDigit(x[0]) && x[0] != '.')
    ensures NumberText(a + x) == a
  {
    if x == [] {
      assert a + x == a;
    } else {
      DigitPrefixOf(a, x);
      assert (a + x)[|a|..] == x;
    }
  }

  /** The five price patterns of the source, in the order they are tried:
      `US$n`, `$n USD` (any case, spaces allowed), `€n`, `£n`, `$n`. */
  datatype Pattern = After(lead: string) | DollarThenUsd

  const Patterns: seq<Pattern> := [After("US$"), DollarThenUsd, After("€"), After("£"), After("$")]

  predicate At(s: string, k: nat, p: string) {
    k + |p| <= |s| && s[k..k + |p|] == p
  }

  /** The captured number when the pattern matches at position `k`. */
  function MatchAt(s: string, k: nat, p: Pattern): (r: Option<string>)
    ensures r.Some? ==> NumberShape(r.value)
  {
    match p
    case After(lead) =>
      var j := k + |lead|;
      if At(s, k, lead) && j < |s| && IsDigit(s[j]) then Some(NumberText(s[j..])) else None
    case DollarThenUsd =>
      if At(s, k, "$") && k + 1 < |s| && IsDigit(s[k + 1]) then
        var n := NumberText(s[k + 1..]);
        var j := k + 1 + |n|;
        if MatchesAt(s, j + LeadingSpaces(s[j..]), "usd") then Some(n) else None
      else None
  }

  /** `s.match(p)`: the leftmost match at or after `k`. */
  function FirstMatch(s: string, k: nat, p: Pattern): (r: Option<string>)
    ensures r.Some? ==> exists j :: k <= j < |s| && MatchAt(s, j, p) == r
    decreases |s| - k
  {
    if k >= |s| then None
    else if MatchAt(s, k, p).Some? then MatchAt(s, k, p)
    else FirstMatch(s, k + 1, p)
  }

  /** A match anywhere is found by the left-to-right search. */
  lemma {:induction false} FirstMatchFinds(s: string, k: nat, j: nat, p: Pattern)
    requires k <= j < |s| && MatchAt(s, j, p).Some?
    ensures FirstMatch(s, k, p).Some?
    decreases j - k
  {
    if MatchAt(s, k, p).None? {
      FirstMatchFinds(s, k + 1, j, p);
    }
  }

  /** The patterns tried in order; the first that matches decides. */
  function TryPatterns(s: string, ps: seq<Pattern>): (r: Option<string>)
    ensures r.Some? ==> exists i :: 0 <= i < |ps| && FirstMatch(s, 0, ps[i]) == r
    ensures r.None? ==> forall i :: 0 <= i < |ps| ==> FirstMatch(s, 0, ps[i]).None?
    decreases |ps|
  {
    if ps == [] then None
    else if FirstMatch(s, 0, ps[0]).Some? then FirstMatch(s, 0, ps[0])
    else
      var r := TryPatterns(s, ps[1..]);
      assert forall i :: 1 <= i < |ps| ==> ps[i] == ps[1..][i - 1];
      r
  }

  /** `GBP` when '£' occurs anywhere, else `EUR` when '€' does, else `USD`. */
  function Currency(text: string): (r: string)
    ensures r == "GBP" <==> '£' in text
    ensures r == "EUR" <==> '£' !in text && '€' in text
    ensures r == "USD" <==> '£' !in text && '€' !in text
  {
    if '£' in text then "GBP" else if '€' in text then "EUR" else "USD"
  }

  /** The price as the matched digits; `parseFloat` is not modelled. */
  datatype Price = Price(amount: string, currency: string)

  /** `extractPrice(text)`. The currency comes from the symbols present in
      the whole text, not from the pattern that matched. */
  function ExtractPrice(text: string): (r: Option<Price>)
    ensures r.Some? ==> NumberShape(r.value.amount) && r.value.currency == Currency(text)
    ensures r.Some? ==> exists i :: 0 <= i < |Patterns| && FirstMatch(text, 0, Patterns[i]) == Some(r.value.amount)
  {
    match TryPatterns(text, Patterns)
    case None => None
    case Some(n) =>
      Some(Price(n, Currency(text)))
  }

  /** A price symbol followed by a digit at position `k`. */
  predicate PriceSign(text: string, k: nat) {
    k + 1 < |text| && (text[k] == '$' || text[k] == '€' || text[k] == '£') && IsDigit(text[k + 1])
  }

  /** A price is found exactly when some '$', '€' or '£' is directly
      followed by a digit: "No price here" has none. */
  lemma ExtractPriceFound(text: string)
    ensures ExtractPrice(text).Some? <==> exists k: nat :: PriceSign(text, k)
  {
    if ExtractPrice(text).Some? {
      var i :| 0 <= i < |Patterns| && FirstMatch(text, 0, Patterns[i]).Some?;
      var j :| 0 <= j < |text| && MatchAt(text, j, Patterns[i]) == FirstMatch(text, 0, Patterns[i]);
      MatchSign(text, j, Patterns[i]);
    }
    if exists k: nat :: PriceSign(text, k) {
      var k: nat :| PriceSign(text, k);
      var p := SignPattern(text[k]);
      SignMatches(text, k);
      FirstMatchFinds(text, 0, k, p);
    }
  }

  /** The one-symbol pattern of a price symbol. */
  function SignPattern(c: char): Pattern {
    if c == '$' then After("$") else if c == '€' then After("€") else After("£")
  }

  /** A price symbol followed by a digit is a match of its own pattern. */
  lemma SignMatches(text: string, k: nat)
    requires PriceSign(text, k)
    ensures SignPattern(text[k]) in Patterns && MatchAt(text, k, SignPattern(text[k])).Some?
  {
    var lead := SignPattern(text[k]).lead;
    assert |lead| == 1 && lead[0] == text[k];
    assert text[k..k + 1] == lead;
  }

  /** A lead ending in a price symbol, then a digit, holds a price sign. */
  lemma LeadSign(text: string, j: nat, lead: string)
    requires |lead| > 0 && (lead[|lead| - 1] == '$' || lead[|lead| - 1] == '€' || lead[|lead| - 1] == '£')
    requires At(text, j, lead) && j + |lead| < |text| && IsDigit(text[j + |lead|])
    ensures PriceSign(text, j + |lead| - 1)
  {
    assert text[j + |lead| - 1] == text[j..j + |lead|][|lead| - 1];
  }

  /** Every lead of the patterns ends in a price symbol. */
  lemma LeadsEndInSign(lead: string)
    requires After(lead) in Patterns
    ensures |lead| > 0 && (lead[|lead| - 1] == '$' || lead[|lead| - 1] == '€' || lead[|lead| - 1] == '£')
  {
  }

  /** Every pattern match contains a price symbol followed by a digit. */
  lemma MatchSign(text: string, j: nat, p: Pattern)
    requires p in Patterns && MatchAt(text, j, p).Some?
    ensures exists k: nat :: PriceSign(text, k)
  {
    if p.DollarThenUsd? {
      LeadSign(text, j, "$");
    } else {
      LeadsEndInSign(p.lead);
      LeadSign(text, j, p.lead);
    }
  }

  /** The `US$` pattern is tried first: when it matches, its number is the
      price, whatever other prices the text holds. */
  lemma UsDollarFirst(text: string)
    requires FirstMatch(text, 0, After("US$")).Some?
    ensures ExtractPrice(text) == Some(Price(FirstMatch(text, 0, After("US$")).value, Currency(text)))
  {
  }

  // ------------------------------------------------------- egg tiers

  const EggKeys: set<string> := {"2km", "5km", "7km", "10km", "12km", "route", "adventure"}

  /** The tier a paragraph of the eggs section selects, as the source
      tests it; a paragraph naming no tier keeps the current one. Distances
      are looked for in the order 2, 5, 7, 10, 12, then Route or Mateo, then
      Adventure Sync. */
  function EggTierAsWritten(text: string, current: string): (r: string)
    ensures current in EggKeys ==> r in EggKeys
    ensures r != current ==> r in EggKeys
  {
    if Contains(text, "2 km") || Contains(text, "2km") then "2km"
    else if Contains(text, "5 km") || Contains(text, "5km") then "5km"
    else if Contains(text, "7 km") || Contains(text, "7km") then "7km"
    else if Contains(text, "10 km") || Contains(text, "10km") then "10km"
    else if Contains(text, "12 km") || Contains(text, "12km") then "12km"
    else if Contains(text, "Route") || Contains(text, "Mateo") then "route"
    else if Contains(text, "Adventure Sync") then "adventure"
    else current
  }

  /** An occurrence of `c p` contains one of `p`. */
  lemma ContainsTail(s: string, c: char, p: string)
    requires Contains(s, [c] + p)
    ensures Contains(s, p)
  {
    var i := ContainsWitness(s, [c] + p);
    assert s[i + 1..i + 1 + |p|] == ([c] + p)[1..];
    ContainsAt(s, p, i + 1);
  }

  /** Every 12 km paragraph also reads as 2 km, which is looked for first: the
      12 km pool is never selected by a paragraph. */
  lemma TwelveKmUnreachable(text: string, current: string)
    ensures EggTierAsWritten(text, current) == "12km" ==> current == "12km"
  {
    if Contains(text, "12 km") {
      assert "12 km" == ['1'] + "2 km";
      ContainsTail(text, '1', "2 km");
    }
    if Contains(text, "12km") {
      assert "12km" == ['1'] + "2km";
      ContainsTail(text, '1', "2km");
    }
  }

  /** The tier a paragraph selects with the 12 km test moved before the
      2 km one, so that a 12 km paragraph reaches its own pool; every other
      paragraph selects what the source's order selects. */
  function EggTier(text: string, current: string): (r: string)
    ensures current in EggKeys ==> r in EggKeys
    ensures r != current ==> r in EggKeys
    ensures (Contains(text, "12 km") || Contains(text, "12km")) <==> r == "12km" && r != EggTierAsWritten(text, current)
  {
    if Contains(text, "12 km") || Contains(text, "12km") then
      TwelveKmSelectsTwo(text, current);
      "12km"
    else
      EggTierAsWritten(text, current)
  }

  /** A 12 km paragraph reads as 2 km in the source's order. */
  lemma TwelveKmSelectsTwo(text: string, current: string)
    requires Contains(text, "12 km") || Contains(text, "12km")
    ensures EggTierAsWritten(text, current) == "2km"
  {
    if Contains(text, "12 km") {
      assert "12 km" == ['1'] + "2 km";
      ContainsTail(text, '1', "2 km");
    } else {
      assert "12km" == ['1'] + "2km";
      ContainsTail(text, '1', "2km");
    }
  }

  /** Every pool is reached by a paragraph naming it. */
  lemma EggTierExamples(current: string)
    ensures EggTier("2 km", current) == "2km"
    ensures EggTier("7 km", current) == "7km"
    ensures EggTier("10km", current) == "10km"
    ensures EggTier("12 km", current) == "12km"
  {
    EggTwo(current);
    EggSeven(current);
    EggTen(current);
    EggTwelve(current);
  }

  lemma EggTwo(current: string) ensures EggTier("2 km", current) == "2km" {
    NotContainsShort("2 km", "12 km");
    NotContainsShort("2 km", "12km");
    ContainsSelf("2 km");
  }

  lemma EggSeven(current: string) ensures EggTier("7 km", current) == "7km" {
    NotContainsShort("7 km", "12 km");
    NotContainsShort("7 km", "12km");
    NotContainsShort("7 km", "2 km");
    NotContainsHead("7 km", "2km");
    NotContainsShort("7 km", "5 km");
    NotContainsHead("7 km", "5km");
    ContainsSelf("7 km");
  }

  lemma EggTen(current: string) ensures EggTier("10km", current) == "10km" {
    NotContainsShort("10km", "12 km");
    NotContainsShort("10km", "12km");
    NotContainsShort("10km", "2 km");
    NotContainsHead("10km", "2km");
    NotContainsShort("10km", "5 km");
    NotContainsHead("10km", "5km");
    NotContainsShort("10km", "7 km");
    NotContainsHead("10km", "7km");
    NotContainsShort("10km", "10 km");
    ContainsSelf("10km");
  }

  lemma EggTwelve(current: string) ensures EggTier("12 km", current) == "12km" {
    ContainsSelf("12 km");
  }

  /** The two orders agree on every paragraph that does not mention 12 km. */
  lemma EggTierAgrees(text: string, current: string)
    requires !Contains(text, "12 km") && !Contains(text, "12km")
    ensures EggTier(text, current) == EggTierAsWritten(text, current)
  {
  }

  /** A paragraph naming no tier leaves the current tier in place. */
  lemma EggTierKeeps(text: string, current: string)
    requires !Contains(text, "km") && !Contains(text, "Route") && !Contains(text, "Mateo") && !Contains(text, "Adventure Sync")
    ensures EggTier(text, current) == current
  {
    KmFree(text, "2 km");
    KmFree(text, "2km");
    KmFree(text, "5 km");
    KmFree(text, "5km");
    KmFree(text, "7 km");
    KmFree(text, "7km");
    KmFree(text, "10 km");
    KmFree(text, "10km");
    KmFree(text, "12 km");
    KmFree(text, "12km");
  }

  /** A text without `km` contains nothing that ends in `km`. */
  lemma KmFree(text: string, p: string)
    requires !Contains(text, "km") && |p| >= 2 && p[|p| - 2] == 'k' && p[|p| - 1] == 'm'
    ensures !Contains(text, p)
  {
    if Contains(text, p) {
      var i := ContainsWitness(text, p);
      assert text[i + |p| - 2..i + |p|] == "km" by {
        assert text[i..i + |p|] == p;
        assert text[i + |p| - 2] == p[|p| - 2] && text[i + |p| - 1] == p[|p| - 1];
      }
      ContainsAt(text, "km", i + |p| - 2);
    }
  }

  /** The nodes of a page, as far as the classifiers look at them. */
  datatype Node = SectionHeader(id: string, text: string) | Paragraph(text: string) | PokemonList(pokemon: seq<Json>) | OtherNode

  /** The walk of `extractEggPools`: a section header opens or closes the
      eggs section, a paragraph inside it may switch the tier, and a list
      inside it goes to the current tier. */
  function EggWalk(nodes: seq<Node>, inSection: bool, tier: string, eggs: map<string, seq<Json>>): (r: map<string, seq<Json>>)
    requires tier in EggKeys && eggs.Keys == EggKeys
    ensures r.Keys == EggKeys
    decreases |nodes|
  {
    if nodes == [] then eggs
    else
      var n := nodes[0];
      var open := if n.SectionHeader? then n.id == "eggs" else inSection;
      if !open then EggWalk(nodes[1..], open, tier, eggs)
      else match n
        case Paragraph(text) => EggWalk(nodes[1..], open, EggTier(text, tier), eggs)
        case PokemonList(p) => EggWalk(nodes[1..], open, tier, eggs[tier := eggs[tier] + p])
        case _ => EggWalk(nodes[1..], open, tier, eggs)
  }

  function EmptyEggs(): (r: map<string, seq<Json>>)
    ensures r.Keys == EggKeys && forall k :: k in r ==> r[k] == []
  {
    map k | k in EggKeys :: []
  }

  /** `extractEggPools(doc)`: `None` is a page without its content block. */
  function ExtractEggPools(content: Option<seq<Node>>): (r: map<string, seq<Json>>)
    ensures r.Keys == EggKeys
    ensures content.None? ==> r == EmptyEggs()
  {
    match content
    case None => EmptyEggs()
    case Some(nodes) => EggWalk(nodes, false, "5km", EmptyEggs())
  }

  predicate NoEggsHeader(nodes: seq<Node>) {
    forall i :: 0 <= i < |nodes| ==> !(nodes[i].SectionHeader? && nodes[i].id == "eggs")
  }

  /** Outside an eggs section nothing is collected: a page without one has
      empty pools. */
  lemma {:induction false} NoEggsSection(nodes: seq<Node>, tier: string, eggs: map<string, seq<Json>>)
    requires tier in EggKeys && eggs.Keys == EggKeys
    requires NoEggsHeader(nodes)
    ensures EggWalk(nodes, false, tier, eggs) == eggs
    decreases |nodes|
  {
    if nodes != [] {
      assert forall i :: 0 <= i < |nodes[1..]| ==> nodes[1..][i] == nodes[i + 1];
      NoEggsSection(nodes[1..], tier, eggs);
    }
  }

  /** A list inside the section is appended to the pool of the current
      tier, the tier stays as it was for the nodes after it, and the other
      pools are untouched. */
  lemma ListStep(p: seq<Json>, rest: seq<Node>, tier: string, eggs: map<string, seq<Json>>)
    requires tier in EggKeys && eggs.Keys == EggKeys
    ensures EggWalk([PokemonList(p)] + rest, true, tier, eggs) == EggWalk(rest, true, tier, eggs[tier := eggs[tier] + p])
  {
    assert ([PokemonList(p)] + rest)[1..] == rest;
  }

  // ------------------------------------------------------- raid tiers

  datatype RaidTier = Mega | FiveStar | ThreeStar | OneStar | Bosses | Shinies

  /** The tier of the lists under a section header, judged on the lower-case
      header id and text in the order mega, five-star or legendary,
      three-star, one-star, raids or boss or "appearing in", shiny; `None`
      drops the list. */
  function Classify(id: string, text: string): (r: Option<RaidTier>)
    ensures r == Some(Mega) <==> Contains(Lower(id), "mega") || Contains(Lower(text), "mega")
  {
    var h := Lower(id);
    var t := Lower(text);
    if Contains(h, "mega") || Contains(t, "mega") then Some(Mega)
    else if Contains(h, "5-star") || Contains(h, "five-star") || Contains(t, "5-star") || Contains(t, "five-star")
      || Contains(h, "legendary") || Contains(t, "legendary") then Some(FiveStar)
    else if Contains(h, "3-star") || Contains(h, "three-star") || Contains(t, "3-star") || Contains(t, "three-star") then Some(ThreeStar)
    else if Contains(h, "1-star") || Contains(h, "one-star") || Contains(t, "1-star") || Contains(t, "one-star") then Some(OneStar)
    else if Contains(h, "raids") || Contains(h, "boss") || Contains(t, "raids") || Contains(t, "appearing in") then Some(Bosses)
    else if Contains(h, "shiny") || Contains(t, "shiny") then Some(Shinies)
    else None
  }

  /** The result of `extractRaidInfo`. */
  datatype RaidInfo = RaidInfo(mega: seq<Json>, fiveStar: seq<Json>, threeStar: seq<Json>, oneStar: seq<Json>, bosses: seq<Json>, shinies: seq<Json>)

  function Bucket(info: RaidInfo, tier: RaidTier): seq<Json> {
    match tier
    case Mega => info.mega
    case FiveStar => info.fiveStar
    case ThreeStar => info.threeStar
    case OneStar => info.oneStar
    case Bosses => info.bosses
    case Shinies => info.shinies
  }

  /** Append `p` to the bucket of `tier`. */
  function Push(info: RaidInfo, tier: RaidTier, p: seq<Json>): (r: RaidInfo)
    ensures Bucket(r, tier) == Bucket(info, tier) + p
    ensures forall t :: t != tier ==> Bucket(r, t) == Bucket(info, t)
  {
    match tier
    case Mega => info.(mega := info.mega + p)
    case FiveStar => info.(fiveStar := info.fiveStar + p)
    case ThreeStar => info.(threeStar := info.threeStar + p)
    case OneStar => info.(oneStar := info.oneStar + p)
    case Bosses => info.(bosses := info.bosses + p)
    case Shinies => info.(shinies := info.shinies + p)
  }

  /** The walk of `extractRaidInfo`: the latest section header governs
      every list after it. */
  function RaidWalk(nodes: seq<Node>, id: string, text: string, info: RaidInfo): (r: RaidInfo)
    decreases |nodes|
  {
    if nodes == [] then info
    else match nodes[0]
      case SectionHeader(i, t) => RaidWalk(nodes[1..], i, t, info)
      case PokemonList(p) =>
        RaidWalk(nodes[1..], id, text, if Classify(id, text).Some? then Push(info, Classify(id, text).value, p) else info)
      case _ => RaidWalk(nodes[1..], id, text, info)
  }

  /** The lists a walk adds to the bucket of `tier`, one after the other:
      those whose governing header classifies as `tier`. */
  function Governed(nodes: seq<Node>, id: string, text: string, tier: RaidTier): seq<Json>
    decreases |nodes|
  {
    if nodes == [] then []
    else match nodes[0]
      case SectionHeader(i, t) => Governed(nodes[1..], i, t, tier)
      case PokemonList(p) => (if Classify(id, text) == Some(tier) then p else []) + Governed(nodes[1..], id, text, tier)
      case _ => Governed(nodes[1..], id, text, tier)
  }

  /** Each bucket receives exactly the lists its tier governs, in page
      order, after what it held; a list under an unrecognised header lands
      in no bucket. */
  lemma {:induction false} RaidWalkBuckets(nodes: seq<Node>, id: string, text: string, info: RaidInfo, tier: RaidTier)
    ensures Bucket(RaidWalk(nodes, id, text, info), tier) == Bucket(info, tier) + Governed(nodes, id, text, tier)
    decreases |nodes|
  {
    if nodes != [] {
      match nodes[0]
      case SectionHeader(i, t) =>
        RaidWalkBuckets(nodes[1..], i, t, info, tier);
      case PokemonList(p) =>
        var next := if Classify(id, text).Some? then Push(info, Classify(id, text).value, p) else info;
        RaidWalkBuckets(nodes[1..], id, text, next, tier);
        assert Bucket(next, tier) == Bucket(info, tier) + (if Classify(id, text) == Some(tier) then p else []);
      case _ =>
        RaidWalkBuckets(nodes[1..], id, text, info, tier);
    }
  }

  const NoRaids := RaidInfo([], [], [], [], [], [])

  /** `extractRaidInfo(doc)`: `None` is a page without its content block. */
  function ExtractRaidInfo(content: Option<seq<Node>>): (r: RaidInfo)
    ensures content.None? ==> r == NoRaids
  {
    match content
    case None => NoRaids
    case Some(nodes) => RaidWalk(nodes, "", "", NoRaids)
  }

  /** Lists before the first section header are dropped: an empty header
      classifies as nothing. */
  lemma EmptyHeaderDrops()
    ensures Classify("", "") == None
  {
  }
}
