/** The post-fetch half of the shiny scraper: which records of the shiny
    data file are kept, how each becomes an entry (name, image file, date,
    region), and how entries are grouped per Pokémon and variant and
    sorted. The two data files are inputs; the English-name file is a
    lookup from dex number to name, "" when it has none. */
module Shinies {
  import opened Wrappers
  import opened Strings
  import opened Sorting
  import opened TextOrder
  import opened Grouping

  // ------------------------------------------------------- records

  /** One record of the shiny data file. String properties hold "" when
      absent or falsy; `family` is 0 when absent. */
  datatype Pms = Pms(
    dex: nat,
    shinyReleased: bool,
    releasedDate: string,
    aaFn: string,
    fn: string,
    isotope: string,
    typeCode: string,
    family: int,
    nameSuffix: string)

  /** `shiny_released === true`, or a release date on a base form: costume
      and form records carry `aa_fn` or `fn`, isotope records `isotope`. */
  predicate IsShiny(p: Pms) {
    p.shinyReleased || (p.releasedDate != "" && p.aaFn == "" && p.fn == "" && p.isotope == "")
  }

  /** `pokemonData.filter(...)`, order kept. */
  function Filter(ps: seq<Pms>): (r: seq<Pms>)
    ensures forall p :: p in r <==> p in ps && IsShiny(p)
    ensures |r| <= |ps|
  {
    if ps == [] then []
    else if IsShiny(ps[0]) then [ps[0]] + Filter(ps[1..])
    else Filter(ps[1..])
  }

  // ------------------------------------------------------- type codes

  /** `typeMap`: the four regional type codes. */
  function RegionWord(typeCode: string): (r: Option<string>)
    ensures r.Some? <==> typeCode in ["_61", "_31", "_51", "_52"]
  {
    if typeCode == "_61" then Some("Alolan")
    else if typeCode == "_31" then Some("Galarian")
    else if typeCode == "_51" then Some("Hisuian")
    else if typeCode == "_52" then Some("Paldean")
    else None
  }

  /** The `region` property: the regional word in lower case, or null. */
  function Region(typeCode: string): (r: Option<string>)
    ensures r.Some? <==> RegionWord(typeCode).Some?
    ensures r.Some? ==> r.value == Lower(RegionWord(typeCode).value)
  {
    match RegionWord(typeCode)
    case Some(w) => Some(Lower(w))
    case None => None
  }

  /** `isotopeMap`: readable suffixes for the isotope codes. */
  function IsotopeLabel(isotope: string): Option<string> {
    if isotope == "_Male" then Some(" (Male)")
    else if isotope == "_Female" then Some(" (Female)")
    else if isotope == "_WS" then Some(" (White Striped)")
    else if isotope == "_RS" then Some(" (Red Striped)")
    else if isotope == "_BS" then Some(" (Blue Striped)")
    else if isotope == "_M" then Some(" (M)")
    else if isotope == "_G" then Some(" (G)")
    else None
  }

  /** The entry name: the English name (or "Pokemon <dex>"), after the
      regional word when there is one, followed by the isotope label, else
      the record's name suffix, else the raw isotope code. */
  function FullName(p: Pms, english: string): (r: string)
    ensures RegionWord(p.typeCode).Some? ==> StartsWith(r, RegionWord(p.typeCode).value + " ")
    ensures p.isotope == "" && p.nameSuffix == "" ==> r == if RegionWord(p.typeCode).Some? then RegionWord(p.typeCode).value + " " + BaseName(p, english) else BaseName(p, english)
  {
    var base := BaseName(p, english);
    var named := match RegionWord(p.typeCode)
      case Some(w) => w + " " + base
      case None => base;
    var suffix :=
      if p.isotope != "" && IsotopeLabel(p.isotope).Some? then IsotopeLabel(p.isotope).value
      else if p.nameSuffix != "" then p.nameSuffix
      else p.isotope;
    assert (named + suffix)[..|named|] == named;
    named + suffix
  }

  /** `namesData[dex]?.en || 'Pokemon <dex>'` */
  function BaseName(p: Pms, english: string): string {
    if english != "" then english else "Pokemon " + NatText(p.dex)
  }

  // ------------------------------------------------------- image file

  /** The length of the leading run of characters satisfying `ok`. */
  function Span(s: string, ok: char -> bool): (n: nat)
    ensures n <= |s|
    ensures forall i :: 0 <= i < n ==> ok(s[i])
    ensures n < |s| ==> !ok(s[n])
  {
    if s != [] && ok(s[0]) then
      var n := Span(s[1..], ok);
      assert forall i :: 1 <= i < n + 1 ==> s[i] == s[1..][i - 1];
      1 + n
    else 0
  }

  predicate IsCodeChar(c: char) { IsUpper(c) || c == '_' }

  /** `/pm(\d+)\.f([A-Z_]+)/` matching at position 0 of `s`: the form code. */
  function AaCodeHere(s: string): (r: Option<string>)
    ensures r.Some? ==> r.value != [] && forall i :: 0 <= i < |r.value| ==> IsCodeChar(r.value[i])
  {
    if StartsWith(s, "pm") then AaAfterPm(s[2..]) else None
  }

  /** The pattern after "pm": digits, ".f" and the longest run of code
      characters. */
  function AaAfterPm(s: string): (r: Option<string>)
    ensures r.Some? ==> r.value != [] && forall i :: 0 <= i < |r.value| ==> IsCodeChar(r.value[i])
  {
    var d := |DigitPrefix(s)|;
    if d == 0 || !StartsWith(s[d..], ".f") then None
    else CodeRun(s[d + 2..])
  }

  function CodeRun(t: string): (r: Option<string>)
    ensures r.Some? ==> r.value != [] && forall i :: 0 <= i < |r.value| ==> IsCodeChar(r.value[i])
  {
    var n := Span(t, IsCodeChar);
    if n == 0 then None else Some(t[..n])
  }

  /** The first match of the form-code pattern anywhere in `s`. */
  function AaFormCode(s: string): (r: Option<string>)
    ensures r.Some? ==> r.value != [] && forall i :: 0 <= i < |r.value| ==> IsCodeChar(r.value[i])
    decreases |s|
  {
    if s == [] then None
    else match AaCodeHere(s)
      case Some(c) => Some(c)
      case None => AaFormCode(s[1..])
  }

  /** `formToTypeCode` */
  function FormTypeCode(code: string): Option<string> {
    if code == "MALE" then Some("11")
    else if code == "FEMALE" || code == "WHITE_STRIPED" then Some("12")
    else if code == "RED_STRIPED" then Some("01")
    else if code == "BLUE_STRIPED" then Some("02")
    else None
  }

  /** The type part of the default file name: the type code without its
      leading '_', "00" without a type code, and the gender or stripe code
      when `aa_fn` names one of those forms. */
  function TypeFileCode(p: Pms): (r: string)
    ensures p.aaFn == "" && p.typeCode == "" ==> r == "00"
    ensures p.aaFn == "" && p.typeCode != "" ==> r == if p.typeCode[0] == '_' then p.typeCode[1..] else p.typeCode
  {
    var base :=
      if p.typeCode != "" && p.typeCode[0] == '_' then p.typeCode[1..]
      else if p.typeCode != "" then p.typeCode
      else "00";
    if p.aaFn == "" then base
    else match AaFormCode(p.aaFn)
      case Some(code) => if FormTypeCode(code).Some? then FormTypeCode(code).value else base
      case None => base
  }

  /** The base form's file in the 256x256 folder. */
  function DefaultFile(p: Pms): (r: string)
    ensures StartsWith(r, "pokemon_icon_") && EndsWith(r, "_shiny.png")
  {
    var r := "pokemon_icon_" + PadStart(NatText(p.dex), 3, '0') + "_" + TypeFileCode(p) + "_shiny.png";
    assert r[..13] == "pokemon_icon_";
    assert r[|r| - 10..] == "_shiny.png";
    r
  }

  const BaseFolder := "Images/Pokemon%20-%20256x256"
  const AssetFolder := "Images/Pokemon%20-%20256x256/Addressable%20Assets"

  /** `fnMapping`: a costume suffix is mapped to an asset form name, marked
      as having no shiny asset (`null`), or not listed. */
  datatype Mapping = Mapped(name: string) | NoShiny | Unlisted

  function FnMapping(suffix: string): Mapping {
    if suffix == "fall2019" then Mapped("fFALL_2019")
    else if suffix == "movie2020" then Mapped("fCOSTUME_2020")
    else if suffix == "4thanniversary" || suffix == "5thanniversary" then Mapped("fFLYING_5TH_ANNIV")
    else if suffix == "winter2020" then Mapped("fWINTER_2020")
    else if suffix == "copy2019" then Mapped("fCOPY_2019")
    else if suffix == "adventurehat2020" then Mapped("fADVENTURE_HAT_2020")
    else if suffix == "2020" then Mapped("f2020")
    else if suffix == "2021" then Mapped("f2021")
    else if suffix == "2022" then Mapped("f2022")
    else if suffix == "fall2020" then NoShiny
    else Unlisted
  }

  /** `/^pm(\d+)_\d+_pgo_(.+)$/`: the dex digits and the costume suffix. */
  function ParseFn(fn: string): (r: Option<(string, string)>)
    ensures r.Some? ==> r.value.0 != [] && AllDigits(r.value.0) && r.value.1 != []
  {
    if StartsWith(fn, "pm") then FnAfterPm(fn[2..]) else None
  }

  /** The pattern after "pm": the dex digits and an '_'. */
  function FnAfterPm(s: string): (r: Option<(string, string)>)
    ensures r.Some? ==> r.value.0 != [] && AllDigits(r.value.0) && r.value.1 != []
  {
    var dex := DigitPrefix(s);
    if dex == [] || !StartsWith(s[|dex|..], "_") then None
    else FnAfterDex(dex, s[|dex| + 1..])
  }

  /** The pattern after the dex: more digits, "_pgo_" and a non-empty
      suffix without line breaks up to the end. */
  function FnAfterDex(dex: string, s: string): (r: Option<(string, string)>)
    requires dex != [] && AllDigits(dex)
    ensures r.Some? ==> r.value.0 == dex && r.value.1 != []
  {
    var d := DigitPrefix(s);
    if d == [] || !StartsWith(s[|d|..], "_pgo_") then None
    else
      var rest := s[|d| + 5..];
      if rest == [] || exists i :: 0 <= i < |rest| && IsLineBreak(rest[i]) then None
      else Some((dex, rest))
  }

  predicate IsLineBreak(c: char) {
    c == '\n' || c == '\r' || c == '\U{2028}' || c == '\U{2029}'
  }

  function UpperChar(c: char): (r: char)
    ensures !IsLower(r)
  {
    if IsLower(c) then (c as int - 32) as char else c
  }

  /** `toUpperCase` on ASCII letters. */
  function Upper(s: string): (r: string)
    ensures |r| == |s| && forall i :: 0 <= i < |s| ==> r[i] == UpperChar(s[i])
  {
    seq(|s|, i requires 0 <= i < |s| => UpperChar(s[i]))
  }

  /** `.replace(/(\d{4})$/, '_$1')`: an '_' before four trailing digits. */
  function YearUnderscore(s: string): (r: string)
    ensures |s| >= 4 && AllDigits(s[|s| - 4..]) ==> r == s[..|s| - 4] + "_" + s[|s| - 4..]
    ensures !(|s| >= 4 && AllDigits(s[|s| - 4..])) ==> r == s
  {
    if |s| >= 4 && AllDigits(s[|s| - 4..]) then s[..|s| - 4] + "_" + s[|s| - 4..] else s
  }

  /** The folder and file name of the shiny image. `aa_fn` is preferred to
      `fn`; forms known to have no shiny asset fall back to the base file. */
  function ImageFile(p: Pms): (r: (string, string))
    ensures r.0 == BaseFolder || r.0 == AssetFolder
    ensures p.aaFn == "" && p.fn == "" ==> r == (BaseFolder, DefaultFile(p))
  {
    if p.aaFn != "" then
      var parts := Split(p.aaFn, '.');
      var code := if |parts| > 1 then parts[1] else "";
      if code != "" && code in ["fGIGANTAMAX", "fFALL_2020"] then (BaseFolder, DefaultFile(p))
      else (AssetFolder, p.aaFn + ".s.icon.png")
    else if p.fn != "" then
      match ParseFn(p.fn)
      case None => (BaseFolder, p.fn + "_shiny.png")
      case Some((digits, rest)) =>
        var costume := Lower(rest);
        var dex := NatText(DigitsValue(digits));
        match FnMapping(costume)
        case Mapped(name) => (AssetFolder, "pm" + dex + "." + name + ".s.icon.png")
        case NoShiny => (BaseFolder, DefaultFile(p))
        case Unlisted => (AssetFolder, "pm" + dex + ".f" + YearUnderscore(Upper(costume)) + ".s.icon.png")
    else (BaseFolder, DefaultFile(p))
  }

  const AssetRoot := "https://raw.githubusercontent.com/PokeMiners/pogo_assets/master/"

  function ImageUrl(p: Pms): (r: string)
    ensures StartsWith(r, AssetRoot + ImageFile(p).0 + "/")
    ensures EndsWith(r, ImageFile(p).1)
  {
    var head := AssetRoot + ImageFile(p).0 + "/";
    var r := head + ImageFile(p).1;
    assert r[..|head|] == head;
    assert r[|head|..] == ImageFile(p).1;
    r
  }

  /** A file name built as the pattern reads gives its parts back. */
  lemma ParseFnRoundTrip(d1: string, d2: string, rest: string)
    requires d1 != [] && AllDigits(d1) && d2 != [] && AllDigits(d2)
    requires rest != [] && forall i :: 0 <= i < |rest| ==> !IsLineBreak(rest[i])
    ensures ParseFn("pm" + d1 + "_" + d2 + "_pgo_" + rest) == Some((d1, rest))
  {
    var u := "_pgo_" + rest;
    var t := "_" + d2 + u;
    AppendAssoc("pm" + d1 + "_" + d2, "_pgo_", rest);
    AppendAssoc("pm" + d1 + "_", d2, u);
    AppendAssoc("pm" + d1, "_", d2 + u);
    AppendAssoc("_", d2, u);
    AppendAssoc("pm", d1, t);
    PmPrefix(d1 + t);
    AfterPm(d1, d2, u);
    AfterDex(d1, d2, rest);
  }

  lemma PmPrefix(x: string)
    ensures ParseFn("pm" + x) == FnAfterPm(x)
  {
    assert ("pm" + x)[2..] == x;
  }

  lemma AfterPm(d1: string, d2: string, u: string)
    requires d1 != [] && AllDigits(d1)
    ensures FnAfterPm(d1 + ("_" + d2 + u)) == FnAfterDex(d1, d2 + u)
  {
    var t := "_" + d2 + u;
    DigitPrefixOf(d1, t);
    assert (d1 + t)[|d1|..] == t;
    assert (d1 + t)[|d1| + 1..] == d2 + u;
  }

  lemma AfterDex(d1: string, d2: string, rest: string)
    requires d1 != [] && AllDigits(d1) && d2 != [] && AllDigits(d2)
    requires rest != [] && forall i :: 0 <= i < |rest| ==> !IsLineBreak(rest[i])
    ensures FnAfterDex(d1, d2 + ("_pgo_" + rest)) == Some((d1, rest))
  {
    var u := "_pgo_" + rest;
    DigitPrefixOf(d2, u);
    assert (d2 + u)[|d2|..] == u;
    assert (d2 + u)[|d2| + 5..] == rest;
  }

  /** A form code after "pm<digits>.f" is found, whatever follows it that
      is not a code character. */
  lemma AaFormCodeRoundTrip(digits: string, code: string, tail: string)
    requires digits != [] && AllDigits(digits) && code != []
    requires forall i :: 0 <= i < |code| ==> IsCodeChar(code[i])
    requires tail == [] || !IsCodeChar(tail[0])
    ensures AaFormCode("pm" + digits + ".f" + code + tail) == Some(code)
  {
    var t := code + tail;
    var w := ".f" + t;
    AppendAssoc("pm" + digits + ".f", code, tail);
    AppendAssoc("pm" + digits, ".f", t);
    AppendAssoc("pm", digits, w);
    AaDigits(digits, t);
    CodeRunOf(code, tail);
    PmCode(digits + w);
  }

  /** A match right at the start is the first match. */
  lemma PmCode(x: string)
    requires AaAfterPm(x).Some?
    ensures AaFormCode("pm" + x) == AaAfterPm(x)
  {
    assert ("pm" + x)[2..] == x;
    assert StartsWith("pm" + x, "pm");
  }

  lemma AaDigits(digits: string, t: string)
    requires digits != [] && AllDigits(digits)
    ensures AaAfterPm(digits + (".f" + t)) == CodeRun(t)
  {
    var w := ".f" + t;
    DigitPrefixOf(digits, w);
    assert (digits + w)[|digits|..] == w;
    assert (digits + w)[|digits| + 2..] == t;
  }

  lemma CodeRunOf(code: string, tail: string)
    requires code != [] && forall i :: 0 <= i < |code| ==> IsCodeChar(code[i])
    requires tail == [] || !IsCodeChar(tail[0])
    ensures CodeRun(code + tail) == Some(code)
  {
    SpanOf(code, tail);
    assert (code + tail)[..|code|] == code;
  }

  lemma {:induction false} SpanOf(code: string, tail: string)
    requires forall i :: 0 <= i < |code| ==> IsCodeChar(code[i])
    requires tail == [] || !IsCodeChar(tail[0])
    ensures Span(code + tail, IsCodeChar) == |code|
    decreases |code|
  {
    if code != [] {
      assert (code + tail)[1..] == code[1..] + tail;
      SpanOf(code[1..], tail);
    } else {
      assert code + tail == tail;
    }
  }

  // ------------------------------------------------------- release date

  /** Every part after the first padded to two characters with '0'. */
  function PadParts(parts: seq<string>): (r: seq<string>)
    ensures |r| == |parts|
    ensures |parts| > 0 ==> r[0] == parts[0]
    ensures forall i :: 0 < i < |parts| ==> r[i] == PadStart(parts[i], 2, '0')
  {
    seq(|parts|, i requires 0 <= i < |parts| => if i == 0 then parts[0] else PadStart(parts[i], 2, '0'))
  }

  /** `released_date` "Y/M/D" as "Y-MM-DD"; null when absent. */
  function ReleasedDate(raw: string): (r: Option<string>)
    ensures r.None? <==> raw == ""
  {
    if raw == "" then None else Some(Join(PadParts(Split(raw, '/')), "-"))
  }

  /** A date "Y/M/D" keeps its year and pads month and day. */
  lemma ReleasedDateParts(y: string, m: string, d: string)
    requires '/' !in y && '/' !in m && '/' !in d
    ensures ReleasedDate(y + "/" + m + "/" + d) == Some(y + "-" + PadStart(m, 2, '0') + "-" + PadStart(d, 2, '0'))
  {
    var raw := y + "/" + m + "/" + d;
    JoinThreeParts(y, m, d, '/');
    JoinSplit([y, m, d], '/');
    var pm := PadStart(m, 2, '0');
    var pd := PadStart(d, 2, '0');
    assert PadParts([y, m, d]) == [y, pm, pd];
    JoinThreeParts(y, pm, pd, '-');
  }

  lemma JoinThreeParts(a: string, b: string, c: string, sep: char)
    ensures Join([a, b, c], [sep]) == a + [sep] + b + [sep] + c
  {
    assert [a, b, c][1..] == [b, c];
    assert [b, c][1..] == [c];
  }

  /** Read back, the ISO date has the same year, month and day numbers. */
  lemma ReleasedDateReadsBack(y: string, m: string, d: string)
    requires '/' !in y && '-' !in y && m != [] && d != [] && AllDigits(m) && AllDigits(d)
    ensures var parts := Split(ReleasedDate(y + "/" + m + "/" + d).value, '-');
      |parts| == 3 && parts[0] == y && |parts[1]| >= 2 && |parts[2]| >= 2
      && AllDigits(parts[1]) && DigitsValue(parts[1]) == DigitsValue(m)
      && AllDigits(parts[2]) && DigitsValue(parts[2]) == DigitsValue(d)
  {
    assert '/' !in m && '/' !in d by {
      assert forall i :: 0 <= i < |m| ==> IsDigit(m[i]);
      assert forall i :: 0 <= i < |d| ==> IsDigit(d[i]);
    }
    ReleasedDateParts(y, m, d);
    var pm := PadStart(m, 2, '0');
    var pd := PadStart(d, 2, '0');
    PadKeepsValue(m);
    PadKeepsValue(d);
    assert '-' !in pm && '-' !in pd by {
      assert forall i :: 0 <= i < |pm| ==> IsDigit(pm[i]);
      assert forall i :: 0 <= i < |pd| ==> IsDigit(pd[i]);
    }
    JoinThreeParts(y, pm, pd, '-');
    JoinSplit([y, pm, pd], '-');
  }

  /** Zero padding keeps digits and their value. */
  lemma PadKeepsValue(m: string)
    requires AllDigits(m)
    ensures AllDigits(PadStart(m, 2, '0')) && DigitsValue(PadStart(m, 2, '0')) == DigitsValue(m)
  {
    if |m| < 2 {
      ZerosValue(2 - |m|, m);
    }
  }

  // ------------------------------------------------------- entries

  /** One entry before grouping; every entry's image is 256x256. */
  datatype Entry = Entry(dex: nat, name: string, image: string, releasedDate: Option<string>, family: Option<int>, region: Option<string>)

  function MakeEntry(p: Pms, english: string): (e: Entry)
    ensures e.dex == p.dex && e.region == Region(p.typeCode)
    ensures e.releasedDate == ReleasedDate(p.releasedDate)
    ensures e.family.None? <==> p.family == 0
    ensures StartsWith(e.image, AssetRoot)
  {
    var url := ImageUrl(p);
    assert url[..|AssetRoot|] == (AssetRoot + ImageFile(p).0 + "/")[..|AssetRoot|];
    Entry(p.dex, FullName(p, english), url, ReleasedDate(p.releasedDate), if p.family == 0 then None else Some(p.family), Region(p.typeCode))
  }

  /** The loop over the kept records, in order. */
  function Entries(kept: seq<Pms>, english: nat -> string): (r: seq<Entry>)
    ensures |r| == |kept|
    ensures forall i :: 0 <= i < |kept| ==> r[i] == MakeEntry(kept[i], english(kept[i].dex))
  {
    seq(|kept|, i requires 0 <= i < |kept| => MakeEntry(kept[i], english(kept[i].dex)))
  }

  // ------------------------------------------------------- forms in names

  /** The end of the `([^)_]+)` group: before a closing ')' that ends the
      name, else the end of the name. */
  function GroupEnd(s: string): (n: nat)
    ensures n <= |s|
  {
    if s != [] && s[|s| - 1] == ')' then |s| - 1 else |s|
  }

  /** `/(.+?)[(_]([^)_]+)[)]?$/` with its `[(_]` at position `k`. */
  predicate FormTailAt(s: string, k: nat) {
    1 <= k && k + 1 < GroupEnd(s) && (s[k] == '(' || s[k] == '_')
    && forall j :: k < j < GroupEnd(s) ==> s[j] != ')' && s[j] != '_'
  }

  /** The lazy `(.+?)` takes the first position that lets the rest match. */
  function FormFrom(s: string, k: nat): (r: Option<nat>)
    ensures r.Some? ==> k <= r.value && FormTailAt(s, r.value)
    ensures r.None? ==> forall j :: k <= j < |s| ==> !FormTailAt(s, j)
    ensures r.Some? ==> forall j :: k <= j < r.value ==> !FormTailAt(s, j)
    decreases |s| - k
  {
    if k >= |s| then None
    else if FormTailAt(s, k) then Some(k)
    else FormFrom(s, k + 1)
  }

  function FormAt(s: string): (r: Option<nat>)
    ensures r.Some? ==> FormTailAt(s, r.value) && forall j :: 0 <= j < r.value ==> !FormTailAt(s, j)
    ensures r.None? <==> forall j :: 0 <= j < |s| ==> !FormTailAt(s, j)
  {
    FormFrom(s, 0)
  }

  /** The form name, the second group of the match. */
  function FormName(s: string, k: nat): (r: string)
    requires FormTailAt(s, k)
    ensures r != [] && ')' !in r && '_' !in r
  {
    var r := s[k + 1..GroupEnd(s)];
    assert forall i :: 0 <= i < |r| ==> r[i] == s[k + 1 + i];
    r
  }

  /** `[(_][^)_]*[)_]?$` matching at position `i`. */
  predicate SuffixAt(s: string, i: nat) {
    i < |s| && (s[i] == '(' || s[i] == '_')
    && forall j :: i < j < |s| - 1 ==> s[j] != ')' && s[j] != '_'
  }

  function SuffixFrom(s: string, i: nat): (r: Option<nat>)
    ensures r.Some? ==> i <= r.value && SuffixAt(s, r.value)
    ensures r.None? ==> forall j :: i <= j < |s| ==> !SuffixAt(s, j)
    ensures r.Some? ==> forall j :: i <= j < r.value ==> !SuffixAt(s, j)
    decreases |s| - i
  {
    if i >= |s| then None
    else if SuffixAt(s, i) then Some(i)
    else SuffixFrom(s, i + 1)
  }

  /** `name.replace(/[(_][^)_]*[)_]?$/, '').trim()`: the group's name. */
  function StripForm(s: string): (r: string)
    ensures IsTrimmed(r)
    ensures SuffixFrom(s, 0).None? ==> r == Trim(s)
    ensures SuffixFrom(s, 0).Some? ==> r == Trim(s[..SuffixFrom(s, 0).value])
  {
    match SuffixFrom(s, 0)
    case Some(i) => Trim(s[..i])
    case None => Trim(s)
  }

  /** The entry names a form variant: the pattern matches, and what comes
      before the form differs from the whole name once trimmed. */
  predicate IsFormVariant(name: string) {
    FormAt(name).Some? && Trim(name[..FormAt(name).value]) != Trim(name)
  }

  /** The trim test never fails when the pattern matches: the '(' or '_'
      it ends on survives trimming the whole name. */
  lemma FormMatchIsVariant(name: string)
    requires FormAt(name).Some?
    ensures IsFormVariant(name)
  {
    var k := FormAt(name).value;
    var t := Trim(name);
    var u := Trim(name[..k]);
    TrimCovers(name, k);
    TrimWithin(name, k);
  }

  /** Trimming keeps every character up to a non-space one. */
  lemma TrimCovers(s: string, k: nat)
    requires k < |s| && !IsSpace(s[k])
    ensures |Trim(s)| + |s| - |TrimStart(s)| >= k + 1
  {
    var a := TrimStart(s);
    var lead := |s| - |a|;
    assert lead <= k;
    var r := TrimEnd(a);
    assert a[k - lead] == s[k];
    assert |r| > k - lead;
  }

  /** Trimming a prefix `s[..k]` that ends before a non-space position drops
      the same leading run. */
  lemma TrimWithin(s: string, k: nat)
    requires k < |s| && !IsSpace(s[k])
    ensures |Trim(s[..k])| + |s| - |TrimStart(s)| <= k
  {
    var a := TrimStart(s);
    var lead := |s| - |a|;
    assert lead <= k;
    var p := s[..k];
    var b := TrimStart(p);
    var lead2 := |p| - |b|;
  }

  // ------------------------------------------------------- grouping

  /** A form of a grouped Pokémon: the form name and its image. */
  datatype Form = Form(name: string, image: string)

  /** One output record; `image` is absent until a base-form entry is seen. */
  datatype Shiny = Shiny(dex: nat, name: string, releasedDate: Option<string>, family: Option<int>, region: Option<string>, image: Option<string>, forms: seq<Form>)

  /** `region ? '<dex>_<region>' : '<dex>'` */
  function VariantKey(dex: nat, region: Option<string>): string {
    NatText(dex) + if region.Some? then "_" + region.value else ""
  }

  function GroupKey(e: Entry): string {
    VariantKey(e.dex, e.region)
  }

  /** Different variants never share a key: the dex digits end where the
      first '_' starts. */
  lemma VariantKeyInjective(d1: nat, r1: Option<string>, d2: nat, r2: Option<string>)
    requires VariantKey(d1, r1) == VariantKey(d2, r2)
    ensures d1 == d2 && r1 == r2
  {
    var x := NatText(d1);
    var y := NatText(d2);
    var k := VariantKey(d1, r1);
    assert r1.Some? ==> |x| < |k| && k[|x|] == '_';
    assert r2.Some? ==> |y| < |k| && k[|y|] == '_';
    assert AllDigits(x) && AllDigits(y);
    if r1.Some? && r2.Some? {
      assert k == x + ("_" + r1.value) == y + ("_" + r2.value);
      DigitPrefixOf(x, "_" + r1.value);
      DigitPrefixOf(y, "_" + r2.value);
      NatTextInjective(d1, d2);
      assert k[|x|..] == "_" + r1.value && k[|y|..] == "_" + r2.value;
      assert r1.value == ("_" + r1.value)[1..] && r2.value == ("_" + r2.value)[1..];
    } else if r1.None? && r2.None? {
      assert k == x == y;
      NatTextInjective(d1, d2);
    }
  }

  /** The record created for a new key, from the entry that created it. */
  function Start(e: Entry): (r: Shiny)
    ensures r.dex == e.dex && r.region == e.region && r.image.None? && r.forms == []
  {
    Shiny(e.dex, StripForm(e.name), e.releasedDate, e.family, e.region, None, [])
  }

  /** One step of the grouping loop on an existing record: a form variant
      adds a form, the first base entry supplies the image. */
  function Add(r: Shiny, e: Entry): Shiny {
    if IsFormVariant(e.name) then r.(forms := r.forms + [Form(FormName(e.name, FormAt(e.name).value), e.image)])
    else if r.image.None? then r.(image := Some(e.image))
    else r
  }

  function Fold(r: Shiny, es: seq<Entry>): Shiny
    decreases |es|
  {
    if es == [] then r else Fold(Add(r, es[0]), es[1..])
  }

  /** Reference definitions: the forms of the variant entries, in order,
      and the image of the first base entry. */
  function FormsOf(es: seq<Entry>): seq<Form> {
    if es == [] then []
    else if IsFormVariant(es[0].name) then [Form(FormName(es[0].name, FormAt(es[0].name).value), es[0].image)] + FormsOf(es[1..])
    else FormsOf(es[1..])
  }

  function FirstBase(es: seq<Entry>): (r: Option<string>) {
    FirstImage(es, IsBase)
  }

  predicate IsBase(e: Entry) { !IsFormVariant(e.name) }

  /** The image of the first entry `base` accepts. */
  function FirstImage(es: seq<Entry>, base: Entry -> bool): (r: Option<string>) {
    if es == [] then None
    else if base(es[0]) then Some(es[0].image)
    else FirstImage(es[1..], base)
  }

  /** The image of the first base entry is the image of a base entry, and
      there is none exactly when every entry is a form variant. */
  lemma FirstBaseSpec(es: seq<Entry>)
    ensures FirstBase(es).Some? ==> exists i :: 0 <= i < |es| && !IsFormVariant(es[i].name) && es[i].image == FirstBase(es).value
    ensures FirstBase(es).None? <==> forall i :: 0 <= i < |es| ==> IsFormVariant(es[i].name)
  {
    FirstImageSpec(es, IsBase);
    if FirstBase(es).Some? {
      var i :| 0 <= i < |es| && IsBase(es[i]) && es[i].image == FirstBase(es).value;
    }
  }

  lemma {:induction false} FirstImageSpec(es: seq<Entry>, base: Entry -> bool)
    ensures FirstImage(es, base).Some? ==> exists i :: 0 <= i < |es| && base(es[i]) && es[i].image == FirstImage(es, base).value
    ensures FirstImage(es, base).None? <==> forall i :: 0 <= i < |es| ==> !base(es[i])
  {
    if es != [] && !base(es[0]) {
      var tail := es[1..];
      FirstImageSpec(tail, base);
      if FirstImage(tail, base).Some? {
        var i :| 0 <= i < |tail| && base(tail[i]) && tail[i].image == FirstImage(tail, base).value;
        assert es[i + 1] == tail[i];
      } else {
        forall i | 0 <= i < |es| ensures !base(es[i]) {
          if i > 0 {
            assert es[i] == tail[i - 1];
          }
        }
      }
    }
  }

  /** The loop only appends forms and sets the image once; the identity
      fields stay as the first entry left them. */
  lemma {:induction false} FoldSpec(r: Shiny, es: seq<Entry>)
    ensures Fold(r, es).forms == r.forms + FormsOf(es)
    ensures Fold(r, es).image == if r.image.Some? then r.image else FirstBase(es)
    ensures Fold(r, es).(forms := r.forms, image := r.image) == r
    decreases |es|
  {
    if es != [] {
      FoldSpec(Add(r, es[0]), es[1..]);
    }
  }

  /** The record of one group. */
  function Combine(es: seq<Entry>): (r: Shiny)
    requires es != []
    ensures r.dex == es[0].dex && r.region == es[0].region
    ensures r.name == StripForm(es[0].name) && r.releasedDate == es[0].releasedDate && r.family == es[0].family
    ensures r.forms == FormsOf(es) && r.image == FirstBase(es)
  {
    FoldSpec(Start(es[0]), es);
    Fold(Start(es[0]), es)
  }

  function Keys(es: seq<Entry>): (r: seq<string>)
    ensures |r| == |es| && forall i :: 0 <= i < |es| ==> r[i] == GroupKey(es[i])
  {
    seq(|es|, i requires 0 <= i < |es| => GroupKey(es[i]))
  }

  /** One record per key, in order of first appearance, built from the
      entries filed under that key. */
  function Records(es: seq<Entry>, order: seq<string>): (r: seq<Shiny>)
    requires forall k :: k in order ==> k in Keys(es)
    ensures |r| == |order|
    ensures forall i :: 0 <= i < |order| ==> VariantKey(r[i].dex, r[i].region) == order[i]
    ensures forall i :: 0 <= i < |order| ==> Select(Keys(es), es, order[i]) != [] && r[i] == Combine(Select(Keys(es), es, order[i]))
  {
    if order == [] then []
    else
      GroupOf(es, order[0]);
      [Combine(Select(Keys(es), es, order[0]))] + Records(es, order[1..])
  }

  /** A key that occurs has a non-empty group, whose record is filed under
      that key. */
  lemma GroupOf(es: seq<Entry>, k: string)
    requires k in Keys(es)
    ensures Select(Keys(es), es, k) != []
    ensures var c := Combine(Select(Keys(es), es, k)); VariantKey(c.dex, c.region) == k
  {
    var keys := Keys(es);
    var group := Select(keys, es, k);
    var i :| 0 <= i < |keys| && keys[i] == k;
    assert es[i] in group;
    assert group[0] in group;
  }

  /** The output order: dex number, then no region before a region, then
      regions alphabetically. */
  function ShinyLe(): (Shiny, Shiny) -> bool {
    (a: Shiny, b: Shiny) =>
      a.dex < b.dex
      || (a.dex == b.dex && (a.region.None? || (b.region.Some? && TextLe(a.region.value, b.region.value))))
  }

  lemma ShinyOrderIsPreorder()
    ensures TotalPreorder(ShinyLe())
  {
    var le := ShinyLe();
    forall a, b ensures le(a, b) || le(b, a) {
      if a.region.Some? && b.region.Some? {
        TextLeTotal(a.region.value, b.region.value);
      }
    }
    forall a, b, c | le(a, b) && le(b, c) ensures le(a, c) {
      if a.dex == b.dex == c.dex && a.region.Some? && b.region.Some? && c.region.Some? {
        TextLeTrans(a.region.value, b.region.value, c.region.value);
      }
    }
  }

  /** No two records are the same variant. */
  predicate OneRecordPerVariant(r: seq<Shiny>) {
    forall i, j :: 0 <= i < j < |r| ==> (r[i].dex, r[i].region) != (r[j].dex, r[j].region)
  }

  /** Some record is the variant of the kept record `p`. */
  predicate HasVariantOf(r: seq<Shiny>, p: Pms) {
    exists i :: 0 <= i < |r| && r[i].dex == p.dex && r[i].region == Region(p.typeCode)
  }

  /** The record is the variant of some kept record. */
  predicate VariantOfKept(s: Shiny, ps: seq<Pms>) {
    exists p :: p in ps && IsShiny(p) && p.dex == s.dex && Region(p.typeCode) == s.region
  }

  /** The grouping loop: one record per variant, in order of first
      appearance. */
  function Grouped(kept: seq<Pms>, english: nat -> string): (r: seq<Shiny>)
    requires forall p :: p in kept ==> IsShiny(p)
    ensures OneRecordPerVariant(r)
    ensures forall p :: p in kept ==> HasVariantOf(r, p)
    ensures forall i :: 0 <= i < |r| ==> VariantOfKept(r[i], kept)
  {
    var es := Entries(kept, english);
    var g := GroupBy(Keys(es), es);
    var r := Records(es, g.order);
    RecordsDistinct(es, g.order);
    forall p | p in kept ensures HasVariantOf(r, p) {
      var j :| 0 <= j < |kept| && kept[j] == p;
      var q := KeyRecorded(es, g.order, j);
    }
    forall i | 0 <= i < |r| ensures VariantOfKept(r[i], kept) {
      var j := RecordSource(es, g.order, i);
      assert kept[j] in kept;
    }
    r
  }

  /** `scrapeShinies` after the two fetches. */
  function Scrape(pokemonData: seq<Pms>, english: nat -> string): (r: seq<Shiny>)
    ensures Filter(pokemonData) == [] ==> r == []
    ensures Sorted(r, ShinyLe())
    ensures OneRecordPerVariant(r)
    ensures forall p :: p in pokemonData && IsShiny(p) ==> HasVariantOf(r, p)
    ensures forall i :: 0 <= i < |r| ==> VariantOfKept(r[i], pokemonData)
  {
    var kept := Filter(pokemonData);
    if kept == [] then []
    else
      var recs := Grouped(kept, english);
      ShinyOrderIsPreorder();
      SortSorted(recs, ShinyLe());
      SortKeepsVariants(recs);
      SortCovers(recs, kept);
      Sort(recs, ShinyLe())
  }

  lemma SortCovers(recs: seq<Shiny>, kept: seq<Pms>)
    requires forall p :: p in kept ==> HasVariantOf(recs, p)
    requires forall i :: 0 <= i < |recs| ==> VariantOfKept(recs[i], kept)
    ensures forall p :: p in kept ==> HasVariantOf(Sort(recs, ShinyLe()), p)
    ensures forall i :: 0 <= i < |Sort(recs, ShinyLe())| ==> VariantOfKept(Sort(recs, ShinyLe())[i], kept)
  {
    SortSameElements(recs, ShinyLe());
    SameRecordsCover(recs, Sort(recs, ShinyLe()), kept);
  }

  /** Coverage depends only on which records there are. */
  lemma SameRecordsCover(recs: seq<Shiny>, r: seq<Shiny>, kept: seq<Pms>)
    requires forall x :: x in r <==> x in recs
    requires forall p :: p in kept ==> HasVariantOf(recs, p)
    requires forall i :: 0 <= i < |recs| ==> VariantOfKept(recs[i], kept)
    ensures forall p :: p in kept ==> HasVariantOf(r, p)
    ensures forall i :: 0 <= i < |r| ==> VariantOfKept(r[i], kept)
  {
    forall p | p in kept ensures HasVariantOf(r, p) {
      var q :| 0 <= q < |recs| && recs[q].dex == p.dex && recs[q].region == Region(p.typeCode);
      assert recs[q] in r;
    }
    forall i | 0 <= i < |r| ensures VariantOfKept(r[i], kept) {
      assert r[i] in recs;
    }
  }

  lemma RecordsDistinct(es: seq<Entry>, order: seq<string>)
    requires forall k :: k in order ==> k in Keys(es)
    requires Distinct(order)
    ensures OneRecordPerVariant(Records(es, order))
  {
  }

  /** Sorting is a permutation, so it keeps variants apart. */
  lemma SortKeepsVariants(s: seq<Shiny>)
    requires OneRecordPerVariant(s)
    ensures OneRecordPerVariant(Sort(s, ShinyLe()))
  {
    assert Distinct(s);
    SortKeepsDistinct(s, ShinyLe());
    SortSameElements(s, ShinyLe());
    var r := Sort(s, ShinyLe());
    forall i, j | 0 <= i < j < |r| ensures (r[i].dex, r[i].region) != (r[j].dex, r[j].region) {
      assert r[i] != r[j];
      assert r[i] in s && r[j] in s;
      var p :| 0 <= p < |s| && s[p] == r[i];
      var q :| 0 <= q < |s| && s[q] == r[j];
      assert p != q;
    }
  }

  /** Every entry's variant has a record. */
  lemma KeyRecorded(es: seq<Entry>, order: seq<string>, j: nat) returns (q: nat)
    requires forall k :: k in order <==> k in Keys(es)
    requires j < |es|
    ensures q < |order| && Records(es, order)[q].dex == es[j].dex && Records(es, order)[q].region == es[j].region
  {
    var r := Records(es, order);
    assert Keys(es)[j] in Keys(es);
    q :| 0 <= q < |order| && order[q] == GroupKey(es[j]);
    VariantKeyInjective(r[q].dex, r[q].region, es[j].dex, es[j].region);
  }

  /** Every record's variant is some entry's. */
  lemma RecordSource(es: seq<Entry>, order: seq<string>, q: nat) returns (j: nat)
    requires forall k :: k in order ==> k in Keys(es)
    requires q < |order|
    ensures j < |es| && Records(es, order)[q].dex == es[j].dex && Records(es, order)[q].region == es[j].region
  {
    var r := Records(es, order);
    assert order[q] in Keys(es);
    j :| 0 <= j < |es| && Keys(es)[j] == order[q];
    VariantKeyInjective(r[q].dex, r[q].region, es[j].dex, es[j].region);
  }
}
