/** Two helpers of the contextual aggregator's Pokémon index: the running
    CP range of an entry, and the base species a form name belongs to. */
module ContextualSpecies {
  import opened Wrappers
  import opened Strings

  // ------------------------------------------------------------- CP range

  /** A property where a CP number is expected: a number, `null`, or absent
      (`undefined`). */
  datatype CpValue = Null | Absent | Num(n: int)

  /** The number `null` converts to is 0; an absent value converts to NaN. */
  function Numeric(v: CpValue): int {
    if v.Num? then v.n else 0
  }

  /** JavaScript `a < b`: false whenever either side is `undefined`. */
  predicate Less(a: CpValue, b: CpValue) {
    a != Absent && b != Absent && Numeric(a) < Numeric(b)
  }

  predicate Truthy(v: CpValue) {
    v.Num? && v.n != 0
  }

  datatype CpPair = CpPair(min: CpValue, max: CpValue)

  /** Either `{normal: {min, max}, boosted: {max}}` or a flat `{min, max}`;
      an object property that is missing or `null` is `None`. */
  datatype CombatPower = CombatPower(normal: Option<CpPair>, boosted: Option<CpPair>, min: CpValue, max: CpValue)

  /** An index entry's range; a fresh entry has both ends `null`. */
  datatype CpRange = CpRange(min: CpValue, max: CpValue)

  /** The pair `updateCPRange` reads, or `None` where it returns early: a
      falsy argument, or neither `normal` nor a defined `min`. The maximum
      is the boosted one when that is truthy. */
  function CpReading(cp: Option<CombatPower>): (r: Option<CpPair>)
    ensures r.None? <==> cp.None? || (cp.value.normal.None? && cp.value.min == Absent)
    ensures r.Some? && cp.value.normal.Some? ==> r.value.min == cp.value.normal.value.min
    ensures r.Some? && cp.value.normal.Some? ==>
              r.value.max == if cp.value.boosted.Some? && Truthy(cp.value.boosted.value.max) then cp.value.boosted.value.max
                             else cp.value.normal.value.max
    ensures r.Some? && cp.value.normal.None? ==> r.value == CpPair(cp.value.min, cp.value.max)
  {
    if cp.None? then None
    else
      var c := cp.value;
      match c.normal
      case Some(n) =>
        var boosted := if c.boosted.Some? then c.boosted.value.max else Absent;
        Some(CpPair(n.min, if Truthy(boosted) then boosted else n.max))
      case None => if c.min != Absent then Some(CpPair(c.min, c.max)) else None
  }

  function Min(a: int, b: int): int { if a <= b then a else b }
  function Max(a: int, b: int): int { if a >= b then a else b }

  /** `updateCPRange`: widen the entry's range by the reading. On numbers
      the minimum never rises and the maximum never falls; a `null` end
      takes the reading; without a reading nothing changes. */
  function UpdateCpRange(range: CpRange, cp: Option<CombatPower>): (r: CpRange)
    ensures CpReading(cp).None? ==> r == range
    ensures CpReading(cp).Some? && range.min == Null ==> r.min == CpReading(cp).value.min
    ensures CpReading(cp).Some? && range.max == Null ==> r.max == CpReading(cp).value.max
    ensures CpReading(cp).Some? && range.min.Num? && CpReading(cp).value.min.Num? ==>
              r.min == Num(Min(range.min.n, CpReading(cp).value.min.n))
    ensures CpReading(cp).Some? && range.max.Num? && CpReading(cp).value.max.Num? ==>
              r.max == Num(Max(range.max.n, CpReading(cp).value.max.n))
  {
    match CpReading(cp)
    case None => range
    case Some(p) =>
      CpRange(if range.min == Null || Less(p.min, range.min) then p.min else range.min,
              if range.max == Null || Less(range.max, p.max) then p.max else range.max)
  }

  /** Once an end has become `undefined` (a reading without that end), no
      later reading changes it: every comparison with it is false. */
  lemma AbsentSticks(range: CpRange, cp: Option<CombatPower>)
    ensures range.min == Absent ==> UpdateCpRange(range, cp).min == Absent
    ensures range.max == Absent ==> UpdateCpRange(range, cp).max == Absent
  {
  }

  /** The readings of a sequence of CP records applied in order. */
  function CpFold(range: CpRange, cps: seq<Option<CombatPower>>): CpRange
    decreases |cps|
  {
    if cps == [] then range else CpFold(UpdateCpRange(range, cps[0]), cps[1..])
  }

  /** A record whose reading has two numbers. */
  predicate NumericCp(cp: Option<CombatPower>) {
    CpReading(cp).Some? && CpReading(cp).value.min.Num? && CpReading(cp).value.max.Num?
  }

  function LowOf(cp: Option<CombatPower>): int
    requires NumericCp(cp)
  {
    CpReading(cp).value.min.n
  }

  function HighOf(cp: Option<CombatPower>): int
    requires NumericCp(cp)
  {
    CpReading(cp).value.max.n
  }

  /** Starting from numbers, numeric readings fold into the least minimum
      and the greatest maximum of all of them. */
  lemma {:induction false} CpFoldNumbers(lo: int, hi: int, cps: seq<Option<CombatPower>>)
    requires forall i :: 0 <= i < |cps| ==> NumericCp(cps[i])
    ensures var r := CpFold(CpRange(Num(lo), Num(hi)), cps);
      && r.min.Num? && r.max.Num?
      && r.min.n <= lo && (r.min.n == lo || exists i :: 0 <= i < |cps| && r.min.n == LowOf(cps[i]))
      && r.max.n >= hi && (r.max.n == hi || exists i :: 0 <= i < |cps| && r.max.n == HighOf(cps[i]))
      && (forall i :: 0 <= i < |cps| ==> r.min.n <= LowOf(cps[i]) && HighOf(cps[i]) <= r.max.n)
    decreases |cps|
  {
    if cps != [] {
      var next := UpdateCpRange(CpRange(Num(lo), Num(hi)), cps[0]);
      assert NumericCp(cps[0]);
      CpFoldNumbers(next.min.n, next.max.n, cps[1..]);
      var r := CpFold(next, cps[1..]);
      assert r == CpFold(CpRange(Num(lo), Num(hi)), cps);
      if r.min.n != lo && r.min.n != next.min.n {
        var i :| 0 <= i < |cps[1..]| && r.min.n == LowOf(cps[1..][i]);
        assert cps[1..][i] == cps[i + 1];
      }
      if r.max.n != hi && r.max.n != next.max.n {
        var i :| 0 <= i < |cps[1..]| && r.max.n == HighOf(cps[1..][i]);
        assert cps[1..][i] == cps[i + 1];
      }
      forall i | 0 <= i < |cps| ensures r.min.n <= LowOf(cps[i]) && HighOf(cps[i]) <= r.max.n {
        if i > 0 {
          assert cps[i] == cps[1..][i - 1];
        }
      }
    }
  }

  /** From a fresh entry, numeric readings give exactly the least minimum
      and the greatest maximum that were read. */
  lemma CpRangeOfReadings(cps: seq<Option<CombatPower>>)
    requires cps != []
    requires forall i :: 0 <= i < |cps| ==> NumericCp(cps[i])
    ensures var r := CpFold(CpRange(Null, Null), cps);
      && r.min.Num? && r.max.Num?
      && (exists i :: 0 <= i < |cps| && r.min.n == LowOf(cps[i]))
      && (exists i :: 0 <= i < |cps| && r.max.n == HighOf(cps[i]))
      && (forall i :: 0 <= i < |cps| ==> r.min.n <= LowOf(cps[i]) && HighOf(cps[i]) <= r.max.n)
  {
    assert NumericCp(cps[0]);
    var first := UpdateCpRange(CpRange(Null, Null), cps[0]);
    assert first == CpRange(Num(LowOf(cps[0])), Num(HighOf(cps[0])));
    CpFoldNumbers(LowOf(cps[0]), HighOf(cps[0]), cps[1..]);
    var r := CpFold(first, cps[1..]);
    if r.min.n != LowOf(cps[0]) {
      var i :| 0 <= i < |cps[1..]| && r.min.n == LowOf(cps[1..][i]);
      assert cps[1..][i] == cps[i + 1];
    }
    if r.max.n != HighOf(cps[0]) {
      var i :| 0 <= i < |cps[1..]| && r.max.n == HighOf(cps[1..][i]);
      assert cps[1..][i] == cps[i + 1];
    }
    forall i | 0 <= i < |cps| ensures r.min.n <= LowOf(cps[i]) && HighOf(cps[i]) <= r.max.n {
      if i > 0 {
        assert cps[i] == cps[1..][i - 1];
      }
    }
  }

  // --------------------------------------------------------- base species

  /** The characters `.` in a regular expression does not match. */
  predicate IsLineBreak(c: char) {
    c == '\n' || c == '\r' || c == '\U{2028}' || c == '\U{2029}'
  }

  /** Where the lazy `.*?\)` ends: the offset of the first ')' of `t`,
      provided no line break comes before it. */
  function CloseAt(t: string): (r: Option<nat>)
    ensures r.Some? ==> r.value < |t| && t[r.value] == ')'
    ensures r.Some? ==> forall k :: 0 <= k < r.value ==> t[k] != ')' && !IsLineBreak(t[k])
    ensures r.None? && (forall k :: 0 <= k < |t| ==> !IsLineBreak(t[k])) ==> ')' !in t
  {
    if t == [] then None
    else if t[0] == ')' then Some(0)
    else if IsLineBreak(t[0]) then None
    else
      match CloseAt(t[1..])
      case Some(k) => Some(k + 1)
      case None => assert forall c :: c in t[1..] ==> c in t; None
  }

  /** Replacing `\s*\(.*?\)\s*` globally by nothing: every parenthesised
      group is removed together with the white space around it. */
  function StripGroups(s: string): string
    decreases |s|
  {
    if s == [] then []
    else
      match GroupEnd(s)
      case Some(e) => StripGroups(s[e..])
      case None => [s[0]] + StripGroups(s[1..])
  }

  /** Where a match of the group pattern that starts at the beginning of
      `s` ends: leading white space, '(', up to the first ')' on the same
      line, and the white space after it. */
  function GroupEnd(s: string): (r: Option<nat>)
    ensures r.Some? ==> 0 < r.value <= |s|
    ensures r.None? && s != [] && s[0] == '(' ==> CloseAt(s[1..]).None?
  {
    var w := LeadingSpaces(s);
    if w < |s| && s[w] == '(' then
      match CloseAt(s[w + 1..])
      case Some(k) =>
        var m := w + k + 2;
        Some(m + LeadingSpaces(s[m..]))
      case None => None
    else None
  }

  /** The prefixes removed after the groups, in this order; the regular
      expressions are case-insensitive. */
  const PrefixWords: seq<string> := ["shadow", "mega", "alolan", "galarian", "hisuian", "paldean"]

  /** `s` starts with the lower-case `word`, letters compared in any case. */
  predicate StartsWithWord(s: string, word: string) {
    word == [] || (s != [] && LowerChar(s[0]) == word[0] && StartsWithWord(s[1..], word[1..]))
  }

  /** `s` starts with `word` in any case followed by white space. */
  predicate HasPrefixWord(s: string, word: string) {
    |word| < |s| && StartsWithWord(s, word) && IsSpace(s[|word|])
  }

  lemma {:induction false} SpelledWord(p: string, x: string)
    ensures StartsWithWord(p + x, Lower(p))
    decreases |p|
  {
    if p != [] {
      assert (p + x)[1..] == p[1..] + x;
      assert Lower(p)[1..] == Lower(p[1..]);
      SpelledWord(p[1..], x);
    }
  }

  /** `s.replace(/^Word\s+/i, '').trim()` */
  function StripPrefix(s: string, word: string): string {
    if HasPrefixWord(s, word) then
      var rest := s[|word|..];
      Trim(rest[LeadingSpaces(rest)..])
    else Trim(s)
  }

  /** The prefixes from the `i`-th on, removed in turn. */
  function StripFrom(s: string, i: nat): string
    requires i <= 6
    decreases 6 - i
  {
    if i == 6 then s else StripFrom(StripPrefix(s, PrefixWords[i]), i + 1)
  }

  /** `extractBaseSpecies`: drop the groups, then each prefix in turn,
      trimming after every step; an empty result gives the name back. */
  function ExtractBaseSpecies(name: string): (r: string)
    ensures name != [] ==> r != []
  {
    var base := StripFrom(Trim(StripGroups(name)), 0);
    if base == [] then name else base
  }

  // ---------------------------------------------------- what is stripped

  /** No '(' is followed, anywhere later, by a ')'. */
  predicate NoGroup(s: string) {
    forall i, j :: 0 <= i < j < |s| && s[i] == '(' ==> s[j] != ')'
  }

  predicate SingleLine(s: string) {
    forall k :: 0 <= k < |s| ==> !IsLineBreak(s[k])
  }

  lemma SingleLineSuffix(s: string, a: nat)
    requires SingleLine(s) && a <= |s|
    ensures SingleLine(s[a..])
  {
    assert forall k :: 0 <= k < |s| - a ==> s[a..][k] == s[a + k];
  }

  lemma NoGroupCons(c: char, r: string)
    requires NoGroup(r) && (c == '(' ==> ')' !in r)
    ensures NoGroup([c] + r)
  {
    var x := [c] + r;
    forall i, j | 0 <= i < j < |x| && x[i] == '(' ensures x[j] != ')' {
      assert x[j] == r[j - 1];
      if i > 0 {
        assert x[i] == r[i - 1];
      }
    }
  }

  /** On one line, stripping leaves no complete group and adds no character. */
  lemma {:induction false} StripGroupsClears(s: string)
    requires SingleLine(s)
    ensures NoGroup(StripGroups(s))
    ensures forall c :: c in StripGroups(s) ==> c in s
    decreases |s|
  {
    if s != [] {
      match GroupEnd(s)
      case Some(e) =>
        var t := s[e..];
        SingleLineSuffix(s, e);
        StripGroupsClears(t);
        forall c | c in t ensures c in s {
          var k :| 0 <= k < |t| && t[k] == c;
          assert s[e + k] == c;
        }
      case None =>
        SingleLineSuffix(s, 1);
        StripGroupsClears(s[1..]);
        if s[0] == '(' {
          assert ')' !in s[1..];
        }
        NoGroupCons(s[0], StripGroups(s[1..]));
    }
  }

  lemma NoGroupContains(s: string, t: string)
    requires NoGroup(s) && Contains(s, t)
    ensures NoGroup(t)
  {
    var a := ContainsWitness(s, t);
    forall i, j | 0 <= i < j < |t| && t[i] == '(' ensures t[j] != ')' {
      assert t[i] == s[a + i] && t[j] == s[a + j];
    }
  }

  lemma NoGroupTrim(s: string)
    requires NoGroup(s)
    ensures NoGroup(Trim(s))
  {
    NoGroupContains(s, Trim(s));
  }

  /** Removing a prefix keeps a piece of the text. */
  lemma StripPrefixPiece(s: string, word: string)
    ensures Contains(s, StripPrefix(s, word))
  {
    if HasPrefixWord(s, word) {
      var rest := s[|word|..];
      var n := LeadingSpaces(rest);
      assert s[|word| + n..] == rest[n..];
      TailPiece(s, |word| + n, Trim(rest[n..]));
      assert StripPrefix(s, word) == Trim(rest[n..]);
    } else {
      assert StripPrefix(s, word) == Trim(s);
    }
  }

  /** What a suffix contains, the whole text contains. */
  lemma TailPiece(s: string, a: nat, v: string)
    requires a <= |s| && Contains(s[a..], v)
    ensures Contains(s, v)
  {
    assert s == s[..a] + s[a..];
    ContainsSuffix(s[..a], s[a..], v);
  }

  lemma {:induction false} NoGroupStripFrom(s: string, i: nat)
    requires NoGroup(s) && i <= 6
    ensures NoGroup(StripFrom(s, i))
    decreases 6 - i
  {
    if i < 6 {
      StripPrefixPiece(s, PrefixWords[i]);
      NoGroupContains(s, StripPrefix(s, PrefixWords[i]));
      NoGroupStripFrom(StripPrefix(s, PrefixWords[i]), i + 1);
    }
  }

  /** A one-line name comes back either whole or as a trimmed text without
      any parenthesised group. */
  lemma BaseSpeciesClean(name: string)
    requires SingleLine(name)
    ensures var r := ExtractBaseSpecies(name); r == name || (NoGroup(r) && IsTrimmed(r))
  {
    StripGroupsClears(name);
    NoGroupTrim(StripGroups(name));
    NoGroupStripFrom(Trim(StripGroups(name)), 0);
    StripFromTrimmed(Trim(StripGroups(name)), 0);
  }

  lemma {:induction false} StripFromTrimmed(s: string, i: nat)
    requires i < 6 || (i == 6 && IsTrimmed(s))
    ensures IsTrimmed(StripFrom(s, i))
    decreases 6 - i
  {
    if i < 6 {
      StripFromTrimmed(StripPrefix(s, PrefixWords[i]), i + 1);
    }
  }

  // ------------------------------------------------------- plain species

  /** A bare species name: non-empty, trimmed, without '(' and not starting
      with any of the stripped prefixes. */
  predicate Plain(b: string) {
    b != [] && IsTrimmed(b) && '(' !in b && forall k :: 0 <= k < 6 ==> !HasPrefixWord(b, PrefixWords[k])
  }

  lemma {:induction false} StripGroupsNoParen(s: string)
    requires '(' !in s
    ensures StripGroups(s) == s
    decreases |s|
  {
    if s != [] {
      assert s[LeadingSpaces(s)..] == [] || s[LeadingSpaces(s)] in s;
      assert s[1..] == s[1..] && forall c :: c in s[1..] ==> c in s;
      StripGroupsNoParen(s[1..]);
    }
  }

  lemma {:induction false} StripFromIdle(b: string, i: nat)
    requires i <= 6 && IsTrimmed(b) && forall k :: i <= k < 6 ==> !HasPrefixWord(b, PrefixWords[k])
    ensures StripFrom(b, i) == b
    decreases 6 - i
  {
    if i < 6 {
      TrimOfTrimmed(b);
      StripFromIdle(b, i + 1);
    }
  }

  /** A bare species name is its own base species. */
  lemma PlainUnchanged(b: string)
    requires Plain(b)
    ensures ExtractBaseSpecies(b) == b
  {
    StripGroupsNoParen(b);
    TrimOfTrimmed(b);
    StripFromIdle(b, 0);
  }

  /** The prefixes begin with six different letters. */
  lemma PrefixInitials()
    ensures |PrefixWords| == 6
    ensures forall k :: 0 <= k < 6 ==> |PrefixWords[k]| >= 4 && IsLower(PrefixWords[k][0])
    ensures forall j, k :: 0 <= j < k < 6 ==> PrefixWords[j][0] != PrefixWords[k][0]
  {
  }

  /** A prefix word spelled out in letters of any case. */
  lemma PrefixSpelling(p: string, k: nat)
    requires k < 6 && Lower(p) == PrefixWords[k]
    ensures p != [] && LowerChar(p[0]) == PrefixWords[k][0] && !IsSpace(p[0]) && '(' !in p
  {
    PrefixInitials();
    if '(' in p {
      var i :| 0 <= i < |p| && p[i] == '(';
      assert Lower(p)[i] == '(';
      PrefixLetters(k, i);
    }
  }

  lemma PrefixLetters(k: nat, i: nat)
    requires k < 6 && i < |PrefixWords[k]|
    ensures IsLower(PrefixWords[k][i])
  {
    WordLower(k);
    EveryIndex(PrefixWords[k], IsLower);
  }

  /** Every prefix word is spelled in lower-case letters. */
  lemma WordLower(k: nat)
    requires k < 6
    ensures Every(PrefixWords[k], IsLower)
  {
    if k == 0 { ShadowLower(); }
    else if k == 1 { MegaLower(); }
    else if k == 2 { AlolanLower(); }
    else if k == 3 { GalarianLower(); }
    else if k == 4 { HisuianLower(); }
    else { PaldeanLower(); }
  }

  lemma ShadowLower() ensures PrefixWords[0] == "shadow" && Every("shadow", IsLower) {}
  lemma MegaLower() ensures PrefixWords[1] == "mega" && Every("mega", IsLower) {}
  lemma AlolanLower() ensures PrefixWords[2] == "alolan" && Every("alolan", IsLower) {}
  lemma GalarianLower() ensures PrefixWords[3] == "galarian" && Every("galarian", IsLower) {}
  lemma HisuianLower() ensures PrefixWords[4] == "hisuian" && Every("hisuian", IsLower) {}
  lemma PaldeanLower() ensures PrefixWords[5] == "paldean" && Every("paldean", IsLower) {}

  /** A text starting with another word's initial has not that prefix. */
  lemma OtherInitial(s: string, j: nat)
    requires j < 6 && s != [] && LowerChar(s[0]) != PrefixWords[j][0]
    ensures !HasPrefixWord(s, PrefixWords[j])
  {
    PrefixInitials();
  }

  lemma StripPrefixMiss(s: string, word: string)
    requires IsTrimmed(s) && !HasPrefixWord(s, word)
    ensures StripPrefix(s, word) == s
  {
    TrimOfTrimmed(s);
  }

  lemma {:induction false} SkipFrom(s: string, i: nat, k: nat)
    requires i <= k <= 6 && IsTrimmed(s)
    requires forall j :: i <= j < k ==> !HasPrefixWord(s, PrefixWords[j])
    ensures StripFrom(s, i) == StripFrom(s, k)
    decreases k - i
  {
    if i < k {
      StripPrefixMiss(s, PrefixWords[i]);
      SkipFrom(s, i + 1, k);
    }
  }

  /** The prefixed text is trimmed and has no group to strip. */
  lemma PrefixedText(p: string, k: nat, b: string)
    requires k < 6 && Lower(p) == PrefixWords[k] && Plain(b)
    ensures IsTrimmed(p + " " + b)
    ensures Trim(StripGroups(p + " " + b)) == p + " " + b
    ensures forall j :: 0 <= j < k ==> !HasPrefixWord(p + " " + b, PrefixWords[j])
  {
    PrefixedShape(p, k, b);
    StripGroupsNoParen(p + " " + b);
    TrimOfTrimmed(p + " " + b);
    PrefixedOthers(p, k, b);
  }

  /** The prefixed text is trimmed and holds no '('. */
  lemma PrefixedShape(p: string, k: nat, b: string)
    requires k < 6 && Lower(p) == PrefixWords[k] && Plain(b)
    ensures IsTrimmed(p + " " + b) && '(' !in p + " " + b
  {
    PrefixSpelling(p, k);
  }

  /** The prefixed text starts with no earlier prefix word. */
  lemma PrefixedOthers(p: string, k: nat, b: string)
    requires k < 6 && Lower(p) == PrefixWords[k] && Plain(b)
    ensures forall j :: 0 <= j < k ==> !HasPrefixWord(p + " " + b, PrefixWords[j])
  {
    PrefixSpelling(p, k);
    PrefixInitials();
    forall j | 0 <= j < k ensures !HasPrefixWord(p + " " + b, PrefixWords[j]) {
      OtherInitial(p + " " + b, j);
    }
  }

  /** The prefix itself is removed with the space after it. */
  lemma PrefixRemoved(p: string, k: nat, b: string)
    requires k < 6 && Lower(p) == PrefixWords[k] && Plain(b)
    ensures StripPrefix(p + " " + b, PrefixWords[k]) == b
  {
    var s := p + " " + b;
    var w := PrefixWords[k];
    assert |w| == |p|;
    SpelledWord(p, " " + b);
    assert s == p + (" " + b);
    assert HasPrefixWord(s, w);
    var rest := s[|p|..];
    assert rest == " " + b;
    assert LeadingSpaces(rest) == 1;
    assert rest[1..] == b;
    TrimOfTrimmed(b);
  }

  /** The base species is the stripped text when that is not empty. */
  lemma BaseOf(name: string, base: string)
    requires base != [] && StripFrom(Trim(StripGroups(name)), 0) == base
    ensures ExtractBaseSpecies(name) == base
  {
  }

  lemma PrefixStep(s: string, k: nat, b: string)
    requires k < 6 && StripPrefix(s, PrefixWords[k]) == b
    ensures StripFrom(s, k) == StripFrom(b, k + 1)
  {
  }

  /** One prefix in any case, a space and a bare species name: the name. */
  lemma PrefixedName(p: string, k: nat, b: string)
    requires k < 6 && Lower(p) == PrefixWords[k] && Plain(b)
    ensures ExtractBaseSpecies(p + " " + b) == b
  {
    PrefixedText(p, k, b);
    PrefixedStrip(p, k, b);
    BaseOf(p + " " + b, b);
  }

  lemma PrefixedStrip(p: string, k: nat, b: string)
    requires k < 6 && Lower(p) == PrefixWords[k] && Plain(b)
    ensures StripFrom(p + " " + b, 0) == b
  {
    PrefixedSkip(p, k, b);
    PrefixedTail(p, k, b);
  }

  /** The prefixes before the one present are not there to strip. */
  lemma PrefixedSkip(p: string, k: nat, b: string)
    requires k < 6 && Lower(p) == PrefixWords[k] && Plain(b)
    ensures StripFrom(p + " " + b, 0) == StripFrom(p + " " + b, k)
  {
    PrefixedText(p, k, b);
    SkipFrom(p + " " + b, 0, k);
  }

  /** From the prefix present on, it goes and nothing else does. */
  lemma PrefixedTail(p: string, k: nat, b: string)
    requires k < 6 && Lower(p) == PrefixWords[k] && Plain(b)
    ensures StripFrom(p + " " + b, k) == b
  {
    PrefixRemoved(p, k, b);
    PrefixStep(p + " " + b, k, b);
    StripFromIdle(b, k + 1);
  }


  lemma GroupOnly(f: string)
    requires ')' !in f && SingleLine(f)
    ensures StripGroups(" (" + f + ")") == []
  {
    var s := " (" + f + ")";
    GroupWhole(f);
    assert s[|s|..] == [];
  }

  /** The group pattern matches the whole of ` (f)`. */
  lemma GroupWhole(f: string)
    requires ')' !in f && SingleLine(f)
    ensures GroupEnd(" (" + f + ")") == Some(|f| + 3)
  {
    var s := " (" + f + ")";
    CloseAfter(f);
    assert LeadingSpaces(s) == 1;
    assert s[2..] == f + ")";
    assert LeadingSpaces(s[|s|..]) == 0;
  }

  lemma KeepFirst(b: string, f: string)
    requires b != [] && '(' !in b && !IsSpace(b[|b| - 1])
    ensures GroupEnd(b + " (" + f + ")") == None
  {
    var s := b + " (" + f + ")";
    var w := LeadingSpaces(s);
    LeadingSpacesRun(s);
    assert s[|b| - 1] == b[|b| - 1];
    assert w < |b|;
    assert s[w] == b[w] && b[w] in b;
  }

  lemma {:induction false} StripGroupsSuffix(b: string, f: string)
    requires '(' !in b && (b == [] || !IsSpace(b[|b| - 1]))
    requires ')' !in f && SingleLine(f)
    ensures StripGroups(b + " (" + f + ")") == b
    decreases |b|
  {
    if b == [] {
      assert b + " (" + f + ")" == " (" + f + ")";
      GroupOnly(f);
    } else {
      var s := b + " (" + f + ")";
      KeepFirst(b, f);
      assert s[1..] == b[1..] + " (" + f + ")";
      StripGroupsSuffix(b[1..], f);
      assert s[0] == b[0];
    }
  }

  lemma {:induction false} CloseAfter(f: string)
    requires ')' !in f && SingleLine(f)
    ensures CloseAt(f + ")") == Some(|f|)
    decreases |f|
  {
    if f != [] {
      assert (f + ")")[1..] == f[1..] + ")";
      SingleLineSuffix(f, 1);
      CloseAfter(f[1..]);
    }
  }

  /** A bare species name followed by a parenthesised form: the name. */
  lemma FormSuffixedName(b: string, f: string)
    requires Plain(b) && ')' !in f && SingleLine(f)
    ensures ExtractBaseSpecies(b + " (" + f + ")") == b
  {
    StripGroupsSuffix(b, f);
    TrimOfTrimmed(b);
    StripFromIdle(b, 0);
  }

  lemma PlainNinetales()
    ensures Plain("Ninetales")
  {
    assert IsTrimmed("Ninetales");
    forall k | 0 <= k < 6 ensures !HasPrefixWord("Ninetales", PrefixWords[k]) {
      PrefixInitials();
      OtherInitial("Ninetales", k);
    }
  }

  lemma PlainGiratina()
    ensures Plain("Giratina")
  {
    assert IsTrimmed("Giratina");
    forall k | 0 <= k < 6 ensures !HasPrefixWord("Giratina", PrefixWords[k]) {
      PrefixInitials();
      if k == 3 {
        assert !StartsWithWord("iratina", "alarian");
      } else {
        OtherInitial("Giratina", k);
      }
    }
  }

  /** The first example given in the source. */
  lemma AlolanNinetales(name: string)
    requires name == "Alolan Ninetales"
    ensures ExtractBaseSpecies(name) == "Ninetales"
  {
    PlainNinetales();
    assert Lower("Alolan") == PrefixWords[2];
    assert name == "Alolan" + " " + "Ninetales";
    PrefixedName("Alolan", 2, "Ninetales");
  }

  /** The second example given in the source. */
  lemma GiratinaOrigin(name: string)
    requires name == "Giratina (Origin)"
    ensures ExtractBaseSpecies(name) == "Giratina"
  {
    PlainGiratina();
    assert SingleLine("Origin");
    assert name == "Giratina" + " (" + "Origin" + ")";
    FormSuffixedName("Giratina", "Origin");
  }
}
