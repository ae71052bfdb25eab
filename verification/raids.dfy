/** The text helpers of the raid-boss page: form, gender and clean name
    from a boss name, the CP range text, and the boss's event status
    looked up in the raid events. */
module RaidParsing {
  import opened Wrappers
  import opened Strings

  // ------------------------------------------------------- forms

  /** The offset of the first ')' in `t`. */
  function FirstClose(t: string): (r: Option<nat>)
    ensures r.None? <==> ')' !in t
    ensures r.Some? ==> r.value < |t| && t[r.value] == ')' && ')' !in t[..r.value]
  {
    if t == [] then None
    else if t[0] == ')' then Some(0)
    else
      match FirstClose(t[1..])
      case None => assert forall c :: c in t ==> c == t[0] || c in t[1..]; None
      case Some(k) => assert t[..k + 1] == [t[0]] + t[1..][..k]; Some(k + 1)
  }

  /** `\(([^)]+)\)` cannot match at position `i`: no '(' there, or its
      first ')' follows at once, or none follows at all. */
  predicate NoFormAt(s: string, i: nat)
    requires i < |s|
  {
    s[i] != '(' || ')' !in s[i + 1..] || (i + 1 < |s| && s[i + 1] == ')')
  }

  /** The form pattern matches nowhere in `s`. */
  predicate NoForm(s: string) {
    forall i :: 0 <= i < |s| ==> NoFormAt(s, i)
  }

  lemma NoFormCons(s: string)
    requires s != []
    ensures NoForm(s) <==> NoFormAt(s, 0) && NoForm(s[1..])
  {
    forall i | 0 <= i < |s| - 1 ensures NoFormAt(s[1..], i) <==> NoFormAt(s, i + 1) {
      assert s[1..][i + 1..] == s[i + 2..];
    }
    if NoFormAt(s, 0) && NoForm(s[1..]) {
      forall i | 1 <= i < |s| ensures NoFormAt(s, i) {
        assert NoFormAt(s[1..], i - 1);
      }
    }
  }

  /** The form pattern matches at 0 exactly when the first ')' after the
      '(' is not the next character. */
  lemma FormAtStart(s: string)
    requires s != [] && s[0] == '('
    ensures !NoFormAt(s, 0) <==> FirstClose(s[1..]).Some? && FirstClose(s[1..]).value > 0
  {
  }

  /** `parseForm(name)`: the text inside the first parenthesised group
      with at least one character, or `None`. */
  function ParseForm(name: string): (r: Option<string>)
    ensures r.None? <==> NoForm(name)
    ensures r.Some? ==> r.value != [] && ')' !in r.value && Contains(name, "(" + r.value + ")")
    decreases |name|
  {
    if name == [] then None
    else
      NoFormCons(name);
      if name[0] == '(' && FirstClose(name[1..]).Some? && FirstClose(name[1..]).value > 0 then
        var k := FirstClose(name[1..]).value;
        var form := name[1..][..k];
        assert name[0..k + 2] == "(" + form + ")";
        ContainsAt(name, "(" + form + ")", 0);
        Some(form)
      else
        match ParseForm(name[1..])
        case None => None
        case Some(f) => Some(f)
  }

  /** A word followed by a parenthesised form yields that form, as
      "Giratina (Origin Forme)" yields "Origin Forme". */
  lemma ParseFormAfterWord(a: string, f: string)
    requires '(' !in a && f != [] && ')' !in f
    ensures ParseForm(a + "(" + f + ")") == Some(f)
  {
    var g := "(" + f + ")";
    AppendAssoc(a, "(" + f, ")");
    AppendAssoc(a, "(", f);
    OpenFree(a, g);
    ParseFormSkip(a + g, |a|);
    ParseFormGroup(f);
  }

  /** A prefix without `(` can be skipped over. */
  lemma OpenFree(a: string, g: string)
    requires '(' !in a
    ensures forall j :: 0 <= j < |a| ==> (a + g)[j] != '('
    ensures (a + g)[|a|..] == g
  {
    assert forall j :: 0 <= j < |a| ==> (a + g)[j] == a[j];
  }

  /** A group on its own yields its text. */
  lemma ParseFormGroup(f: string)
    requires f != [] && ')' !in f
    ensures ParseForm("(" + f + ")") == Some(f)
  {
    var t := "(" + f + ")";
    assert t[1..] == f + ")";
    FirstCloseAfter(f);
    assert t[1..][..|f|] == f;
  }

  /** The first ')' of `f)` is the last character when `f` has none. */
  lemma FirstCloseAfter(f: string)
    requires ')' !in f
    ensures FirstClose(f + ")") == Some(|f|)
  {
    var t := f + ")";
    assert forall j :: 0 <= j < |f| ==> t[j] == f[j];
  }

  /** No group can start before the first '('. */
  lemma {:induction false} ParseFormSkip(s: string, k: nat)
    requires k <= |s| && forall j :: 0 <= j < k ==> s[j] != '('
    ensures ParseForm(s) == ParseForm(s[k..])
    decreases k
  {
    if k > 0 {
      assert s[1..][k - 1..] == s[k..];
      ParseFormSkip(s[1..], k - 1);
    }
  }

  // ------------------------------------------------------- gender

  predicate IsGenderSymbol(c: char) { c == '♂' || c == '♀' }

  datatype Gender = Male | Female

  /** `parseGender(name)`: '♂' is looked for first. */
  function ParseGender(name: string): (r: Option<Gender>)
    ensures r == Some(Male) <==> '♂' in name
    ensures r == Some(Female) <==> '♂' !in name && '♀' in name
    ensures r.None? <==> forall i :: 0 <= i < |name| ==> !IsGenderSymbol(name[i])
  {
    if '♂' in name then Some(Male) else if '♀' in name then Some(Female) else None
  }

  // ------------------------------------------------------- clean name

  /** The end of a match of `\s*\([^)]+\)\s*` at the start of `s`. */
  function FormMatch(s: string): (r: Option<nat>)
    ensures r.Some? ==> 0 < r.value <= |s|
  {
    var w := LeadingSpaces(s);
    if w < |s| && s[w] == '(' && FirstClose(s[w + 1..]).Some? && FirstClose(s[w + 1..]).value > 0 then
      var m := w + FirstClose(s[w + 1..]).value + 2;
      Some(m + LeadingSpaces(s[m..]))
    else None
  }

  /** The end of a match of `\s*[♂♀]\s*` at the start of `s`. */
  function GenderMatch(s: string): (r: Option<nat>)
    ensures r.Some? ==> 0 < r.value <= |s|
  {
    var w := LeadingSpaces(s);
    if w < |s| && IsGenderSymbol(s[w]) then Some(w + 1 + LeadingSpaces(s[w + 1..])) else None
  }

  /** A global replacement by nothing: matches are removed left to right,
      and the scan moves on by one character where none starts. */
  function RemoveAll(s: string, at: string -> Option<nat>): (r: string)
    requires forall t :: at(t).Some? ==> 0 < at(t).value <= |t|
    ensures forall c :: c in r ==> c in s
    decreases |s|
  {
    if s == [] then []
    else
      match at(s)
      case Some(e) =>
        var r := RemoveAll(s[e..], at);
        assert forall c :: c in s[e..] ==> c in s;
        r
      case None =>
        var r := RemoveAll(s[1..], at);
        assert forall c :: c in s[1..] ==> c in s;
        [s[0]] + r
  }

  /** `cleanName(name)`: forms, then gender symbols, each with the white
      space around them, then the ends trimmed. */
  function CleanName(name: string): (r: string)
    ensures NoForm(r)
    ensures forall i :: 0 <= i < |r| ==> !IsGenderSymbol(r[i])
    ensures IsTrimmed(r)
  {
    var a := RemoveAll(name, FormMatch);
    var b := RemoveAll(a, GenderMatch);
    FormsCleared(name);
    GendersKeepNoForm(a);
    GendersCleared(a);
    var r := Trim(b);
    TrimKeeps(b);
    NoFormTrim(b);
    r
  }

  /** No form survives the first step. */
  lemma {:induction false} FormsCleared(s: string)
    ensures NoForm(RemoveAll(s, FormMatch))
    decreases |s|
  {
    if s != [] {
      match FormMatch(s)
      case Some(e) => FormsCleared(s[e..]);
      case None =>
        var t := s[1..];
        FormsCleared(t);
        var r := RemoveAll(t, FormMatch);
        var x := [s[0]] + r;
        assert x[1..] == r;
        if s[0] == '(' {
          assert LeadingSpaces(s) == 0;
          if ')' in t {
            assert t[0] == ')';
            assert FormMatch(t) == None;
            assert r[0] == ')';
            assert x[1] == ')';
          } else {
            assert ')' !in r;
          }
        }
        assert NoFormAt(x, 0);
        NoFormCons(x);
    }
  }

  /** Removing gender symbols cannot create a form. */
  lemma {:induction false} GendersKeepNoForm(s: string)
    requires NoForm(s)
    ensures NoForm(RemoveAll(s, GenderMatch))
    decreases |s|
  {
    if s != [] {
      NoFormCons(s);
      match GenderMatch(s)
      case Some(e) =>
        NoFormSuffix(s, e);
        GendersKeepNoForm(s[e..]);
      case None =>
        var t := s[1..];
        GendersKeepNoForm(t);
        var r := RemoveAll(t, GenderMatch);
        var x := [s[0]] + r;
        assert x[1..] == r;
        if s[0] == '(' {
          if ')' in t {
            assert t[0] == ')';
            assert GenderMatch(t) == None;
            assert x[1] == ')';
          } else {
            assert ')' !in r;
          }
        }
        assert NoFormAt(x, 0);
        NoFormCons(x);
    }
  }

  lemma {:induction false} NoFormSuffix(s: string, e: nat)
    requires NoForm(s) && e <= |s|
    ensures NoForm(s[e..])
    decreases e
  {
    if e > 0 {
      NoFormCons(s);
      NoFormSuffix(s[1..], e - 1);
      assert s[1..][e - 1..] == s[e..];
    }
  }

  /** No gender symbol survives the second step. */
  lemma {:induction false} GendersCleared(s: string)
    ensures forall i :: 0 <= i < |RemoveAll(s, GenderMatch)| ==> !IsGenderSymbol(RemoveAll(s, GenderMatch)[i])
    decreases |s|
  {
    if s != [] {
      match GenderMatch(s)
      case Some(e) => GendersCleared(s[e..]);
      case None =>
        GendersCleared(s[1..]);
        NoGenderHead(s);
        ConsNoSymbol(s[0], RemoveAll(s[1..], GenderMatch));
    }
  }

  /** Where no gender match starts, the first character is no symbol. */
  lemma NoGenderHead(s: string)
    requires s != [] && GenderMatch(s).None?
    ensures !IsGenderSymbol(s[0])
  {
    if !IsSpace(s[0]) {
      assert LeadingSpaces(s) == 0;
    }
  }

  lemma ConsNoSymbol(c: char, r: string)
    requires !IsGenderSymbol(c) && forall i :: 0 <= i < |r| ==> !IsGenderSymbol(r[i])
    ensures forall i :: 0 <= i < |[c] + r| ==> !IsGenderSymbol(([c] + r)[i])
  {
    assert forall i :: 1 <= i < |r| + 1 ==> ([c] + r)[i] == r[i - 1];
  }

  /** A slice of a form-free string is form-free. */
  lemma NoFormSlice(s: string, a: nat, b: nat)
    requires NoForm(s) && a <= b <= |s|
    ensures NoForm(s[a..b])
  {
    var t := s[a..b];
    forall i | 0 <= i < |t| ensures NoFormAt(t, i) {
      if t[i] == '(' && ')' in t[i + 1..] {
        var j :| 0 <= j < |t[i + 1..]| && t[i + 1..][j] == ')';
        assert s[a + i + 1..][j] == ')';
        assert NoFormAt(s, a + i);
        assert t[i + 1] == s[a + i + 1];
      }
    }
  }

  /** Trimming takes a slice, which keeps the form-free property. */
  lemma NoFormTrim(s: string)
    requires NoForm(s)
    ensures NoForm(Trim(s))
  {
    var t := Trim(s);
    var a := ContainsWitness(s, t);
    NoFormSlice(s, a, a + |t|);
  }

  /** A form-free string has nothing for the first step to remove. */
  lemma {:induction false} FormFreeKept(s: string)
    requires NoForm(s)
    ensures RemoveAll(s, FormMatch) == s
    decreases |s|
  {
    if s != [] {
      NoFormCons(s);
      var w := LeadingSpaces(s);
      if w < |s| && s[w] == '(' {
        NoFormSuffix(s, w);
        NoFormCons(s[w..]);
        assert s[w..][1..] == s[w + 1..];
      }
      assert FormMatch(s) == None;
      FormFreeKept(s[1..]);
    }
  }

  /** A string without gender symbols has nothing for the second step to
      remove. */
  lemma {:induction false} GenderFreeKept(s: string)
    requires forall i :: 0 <= i < |s| ==> !IsGenderSymbol(s[i])
    ensures RemoveAll(s, GenderMatch) == s
    decreases |s|
  {
    if s != [] {
      NoGenderAt(s);
      assert s[0..] == s;
      RemoveAllHead(s, GenderMatch);
      assert forall i :: 0 <= i < |s| - 1 ==> s[1..][i] == s[i + 1];
      GenderFreeKept(s[1..]);
      assert [s[0]] + s[1..] == s;
    }
  }

  lemma NoGenderAt(s: string)
    requires forall i :: 0 <= i < |s| ==> !IsGenderSymbol(s[i])
    ensures GenderMatch(s) == None
  {
    var w := LeadingSpaces(s);
    assert w < |s| ==> !IsGenderSymbol(s[w]);
  }

  /** Cleaning twice is cleaning once. */
  lemma CleanNameIdempotent(name: string)
    ensures CleanName(CleanName(name)) == CleanName(name)
  {
    var y := CleanName(name);
    FormFreeKept(y);
    GenderFreeKept(y);
    TrimOfTrimmed(y);
  }

  /** A cleaned name has neither a form nor a gender left to parse. */
  lemma CleanNameParsesBare(name: string)
    ensures ParseForm(CleanName(name)) == None
    ensures ParseGender(CleanName(name)) == None
  {
  }

  /** A gender symbol after a word without spaces or symbols goes and the
      word stays, as "Nidoran♂" becomes "Nidoran". */
  lemma SymbolAfterWord(a: string, g: char)
    requires forall j :: 0 <= j < |a| ==> !IsSpace(a[j]) && !IsGenderSymbol(a[j])
    requires IsGenderSymbol(g)
    ensures RemoveAll(a + [g], GenderMatch) == a
  {
    var n := a + [g];
    GenderSkip(n, |a|);
    assert n[..|a|] == a && n[|a|..] == [g];
    GenderAlone(g);
    assert a + [] == a;
  }

  /** A lone gender symbol is removed. */
  lemma GenderAlone(g: char)
    requires IsGenderSymbol(g)
    ensures RemoveAll([g], GenderMatch) == []
  {
    assert GenderMatch([g]) == Some(1);
    assert [g][1..] == [];
  }

  /** Where no match starts in the first `k` positions, those characters
      are copied. */
  lemma {:induction false} RemoveAllSkip(s: string, at: string -> Option<nat>, k: nat)
    requires forall t :: at(t).Some? ==> 0 < at(t).value <= |t|
    requires k <= |s| && forall j :: 0 <= j < k ==> at(s[j..]).None?
    ensures RemoveAll(s, at) == s[..k] + RemoveAll(s[k..], at)
    decreases k
  {
    if k > 0 {
      var t := s[1..];
      RemoveAllHead(s, at);
      forall j | 0 <= j < k - 1 ensures at(t[j..]).None? {
        assert t[j..] == s[j + 1..];
      }
      RemoveAllSkip(t, at, k - 1);
      SliceCons(s, k);
      ConsAssoc(s[0], t[..k - 1], RemoveAll(s[k..], at));
    }
  }

  /** Where no match starts, the first character is copied. */
  lemma RemoveAllHead(s: string, at: string -> Option<nat>)
    requires forall t :: at(t).Some? ==> 0 < at(t).value <= |t|
    requires s != [] && at(s[0..]).None?
    ensures RemoveAll(s, at) == [s[0]] + RemoveAll(s[1..], at)
  {
    assert s[0..] == s;
  }

  lemma SliceCons(s: string, k: nat)
    requires 0 < k <= |s|
    ensures s[..k] == [s[0]] + s[1..][..k - 1] && s[1..][k - 1..] == s[k..]
  {
  }

  /** Characters that neither are white space nor gender symbols are
      copied. */
  lemma GenderSkip(s: string, k: nat)
    requires k <= |s| && forall j :: 0 <= j < k ==> !IsSpace(s[j]) && !IsGenderSymbol(s[j])
    ensures RemoveAll(s, GenderMatch) == s[..k] + RemoveAll(s[k..], GenderMatch)
  {
    forall j | 0 <= j < k ensures GenderMatch(s[j..]).None? {
      assert s[j..][0] == s[j];
      assert LeadingSpaces(s[j..]) == 0;
    }
    RemoveAllSkip(s, GenderMatch, k);
  }

  // ------------------------------------------------------- CP range

  /** `s.replace(p, r)` with a string pattern: the first occurrence only. */
  function ReplaceFirst(s: string, p: string, r: string): (t: string)
    requires p != []
    ensures !Contains(s, p) ==> t == s
    decreases |s|
  {
    if StartsWith(s, p) then r + s[|p|..]
    else if s == [] then s
    else [s[0]] + ReplaceFirst(s[1..], p, r)
  }

  /** `parseInt(s.trim()) || null`: zero and `NaN` become `null`. No radix
      is given, so a "0x" prefix reads hexadecimal. */
  function CpNumber(s: string): (r: Option<int>)
    ensures r.Some? ==> r.value != 0
    ensures '-' !in s && r.Some? ==> r.value > 0
  {
    TrimKeeps(s);
    ParseIntNoMinus(Trim(s));
    match ParseIntAuto(Trim(s))
    case Some(n) => if n == 0 then None else Some(n)
    case None => None
  }

  /** Without a minus sign the number read is not negative. */
  lemma ParseIntNoMinus(s: string)
    ensures '-' !in s && ParseIntAuto(s).Some? ==> ParseIntAuto(s).value >= 0
  {
    var t := TrimStart(s);
    if '-' !in s && t != [] {
      assert t[0] == s[|s| - |t|];
    }
  }

  /** The text of a CP cell, "CP" removed once and the rest trimmed, read
      as `min-max`; a missing half is `null`. */
  function CpRange(text: string): (r: (Option<int>, Option<int>))
    ensures r.0.Some? ==> r.0.value > 0
    ensures r.1.Some? ==> r.1.value > 0
  {
    var parts := Split(Trim(ReplaceFirst(text, "CP", "")), '-');
    (CpNumber(parts[0]), if |parts| > 1 then CpNumber(parts[1]) else None)
  }

  /** A positive number's decimal text reads back as that number. */
  lemma CpNumberOfNat(a: nat)
    requires a > 0
    ensures CpNumber(NatText(a)) == Some(a)
  {
    var x := NatText(a);
    assert !IsSpace(x[0]) && !IsSpace(x[|x| - 1]);
    TrimOfTrimmed(x);
    NatTextValue(a);
    ParseIntDigits(x);
    ParseIntAutoDecimal(x);
  }

  /** A hexadecimal bound reads as its value: "0x1F" is 31. */
  lemma CpNumberHex()
    ensures CpNumber("0x1F") == Some(31)
  {
    var x := "0x1F";
    assert !IsSpace(x[0]) && !IsSpace(x[|x| - 1]);
    TrimOfTrimmed(x);
    assert Trim(x) == x;
    HexExample();
    assert ParseIntAuto(Trim(x)) == Some(31);
  }

  /** Digits, a dash and digits: no "CP", no white space at the ends. */
  lemma RangeTextPlain(x: string, y: string)
    requires x != [] && y != [] && AllDigits(x) && AllDigits(y)
    ensures Trim(ReplaceFirst(x + "-" + y, "CP", "")) == x + "-" + y
  {
    var s := x + "-" + y;
    DigitsDash(x, y);
    NoLetterNoContains(s, "CP");
    TrimOfTrimmed(s);
  }

  /** Digits around a dash: no 'C', and digits at both ends. */
  lemma DigitsDash(x: string, y: string)
    requires x != [] && y != [] && AllDigits(x) && AllDigits(y)
    ensures 'C' !in x + "-" + y
    ensures !IsSpace((x + "-" + y)[0]) && !IsSpace((x + "-" + y)[|x + "-" + y| - 1])
  {
    var s := x + "-" + y;
    assert forall i :: 0 <= i < |s| ==> s[i] == '-' || IsDigit(s[i]);
    assert s[0] == x[0] && s[|s| - 1] == y[|y| - 1];
  }

  /** Two digit runs around a dash read as the range of their numbers. */
  lemma CpRangeOf(x: string, y: string)
    requires x != [] && y != [] && AllDigits(x) && AllDigits(y)
    ensures CpRange(x + "-" + y) == (CpNumber(x), CpNumber(y))
  {
    RangeTextPlain(x, y);
    SplitRange(x, y);
  }

  lemma SplitRange(x: string, y: string)
    requires AllDigits(x) && AllDigits(y)
    ensures Split(x + "-" + y, '-') == [x, y]
  {
    assert '-' !in x && '-' !in y by {
      assert forall i :: 0 <= i < |x| ==> IsDigit(x[i]);
      assert forall i :: 0 <= i < |y| ==> IsDigit(y[i]);
    }
    assert Join([x, y], "-") == x + "-" + y;
    JoinSplit([x, y], '-');
  }

  /** Two positive numbers around a dash read back as the range. */
  lemma CpRangeRoundTrip(a: nat, b: nat)
    requires a > 0 && b > 0
    ensures CpRange(NatText(a) + "-" + NatText(b)) == (Some(a), Some(b))
  {
    CpRangeOf(NatText(a), NatText(b));
    CpNumberOfNat(a);
    CpNumberOfNat(b);
  }

  /** A text without the pattern's first character does not contain it. */
  lemma {:induction false} NoLetterNoContains(s: string, p: string)
    requires p != [] && p[0] !in s
    ensures !Contains(s, p)
    decreases |s|
  {
    if s != [] {
      assert s[0] in s;
      assert !StartsWith(s, p) by {
        if |p| <= |s| {
          assert s[..|p|][0] == s[0];
        }
      }
      assert forall c :: c in s[1..] ==> c in s;
      NoLetterNoContains(s[1..], p);
    }
  }

  /** A zero bound is `null`. */
  lemma CpRangeZero(b: nat)
    requires b > 0
    ensures CpRange(NatText(0) + "-" + NatText(b)) == (None, Some(b))
  {
    CpRangeOf(NatText(0), NatText(b));
    CpNumberZero();
    CpNumberOfNat(b);
  }

  lemma CpNumberZero()
    ensures CpNumber(NatText(0)) == None
  {
    var z := NatText(0);
    assert !IsSpace(z[0]);
    TrimOfTrimmed(z);
    NatTextValue(0);
    ParseIntDigits(z);
    ParseIntAutoDecimal(z);
  }

  // ------------------------------------------------------- event status

  /** A date property: missing (falsy), an invalid `Date` (truthy, but every
      comparison with it is false), or a time in milliseconds. */
  datatype DateValue = Missing | Invalid | At(ms: int)

  /** A raid event; `name` is `None` when it is not a string, which makes
      `toLowerCase` throw. */
  datatype RaidEvent = RaidEvent(name: Option<string>, startDate: DateValue, endDate: DateValue)

  datatype Status = Ongoing | Upcoming | Inactive | Unknown

  /** The boss name up to its first '(', lower case and trimmed. */
  function BossBase(bossName: string): string {
    Trim(Split(Lower(bossName), '(')[0])
  }

  /** What a matching event with both dates set says; `None` when all three
      comparisons fail, which only invalid dates cause. */
  function Verdict(e: RaidEvent, now: int): (r: Option<Status>)
    ensures r == Some(Ongoing) <==> e.startDate.At? && e.endDate.At? && e.startDate.ms <= now <= e.endDate.ms
    ensures r == Some(Upcoming) <==> e.endDate != Missing && e.startDate.At? && now < e.startDate.ms
    ensures r != Some(Unknown)
    ensures e.startDate.At? && e.endDate.At? ==> r.Some?
  {
    if e.startDate == Missing || e.endDate == Missing then None
    else if e.startDate.At? && e.endDate.At? && e.startDate.ms <= now <= e.endDate.ms then Some(Ongoing)
    else if e.startDate.At? && now < e.startDate.ms then Some(Upcoming)
    else if e.endDate.At? && now > e.endDate.ms then Some(Inactive)
    else None
  }

  predicate Mentions(e: RaidEvent, base: string) {
    e.name.Some? && Contains(Lower(e.name.value), base)
  }

  /** The loop: the first event that mentions the boss and gives a verdict
      decides; an event without a string name ends the search. */
  function StatusFrom(events: seq<RaidEvent>, base: string, now: int): (r: Status)
    ensures r != Unknown ==> exists i :: 0 <= i < |events| && Mentions(events[i], base) && Verdict(events[i], now) == Some(r)
    ensures (forall i :: 0 <= i < |events| ==> events[i].name.Some? && !Mentions(events[i], base)) ==> r == Unknown
  {
    if events == [] then Unknown
    else if events[0].name.None? then Unknown
    else if Mentions(events[0], base) && Verdict(events[0], now).Some? then Verdict(events[0], now).value
    else
      assert forall i :: 1 <= i < |events| ==> events[1..][i - 1] == events[i];
      StatusFrom(events[1..], base, now)
  }

  /** `determineEventStatus(bossName, isShadowRaid, raidEvents, now)`;
      `None` is a value that is not an array. */
  function DetermineEventStatus(bossName: string, raidEvents: Option<seq<RaidEvent>>, now: int): (r: Status)
    ensures raidEvents.None? ==> r == Unknown
    ensures raidEvents.Some? ==> r == StatusFrom(raidEvents.value, BossBase(bossName), now)
  {
    if raidEvents.None? then Unknown else StatusFrom(raidEvents.value, BossBase(bossName), now)
  }

  /** The first mentioning event with both dates decides, whatever follows. */
  lemma FirstMentionDecides(e: RaidEvent, rest: seq<RaidEvent>, base: string, now: int)
    requires Mentions(e, base) && e.startDate.At? && e.endDate.At?
    ensures StatusFrom([e] + rest, base, now) == Verdict(e, now).value
    ensures e.startDate.ms <= now <= e.endDate.ms ==> StatusFrom([e] + rest, base, now) == Ongoing
    ensures now < e.startDate.ms ==> StatusFrom([e] + rest, base, now) == Upcoming
  {
  }
}
