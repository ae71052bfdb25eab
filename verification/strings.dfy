/** Character classes and string helpers shared by the whole model.
    Case mapping is ASCII only, and white space is the ASCII part of the
    JavaScript `\s` class plus NO-BREAK SPACE and the byte order mark. */
module Strings {
  import opened Wrappers

  predicate IsSpace(c: char) {
    c == ' ' || c == '\t' || c == '\n' || c == '\r' || c == '\U{B}' || c == '\U{C}'
    || c == '\U{A0}' || c == '\U{FEFF}'
  }

  predicate IsDigit(c: char) { '0' <= c <= '9' }
  predicate IsUpper(c: char) { 'A' <= c <= 'Z' }
  predicate IsLower(c: char) { 'a' <= c <= 'z' }

  /** `[a-z0-9]` */
  predicate IsLowerAlnum(c: char) { IsLower(c) || IsDigit(c) }

  /** `[a-z0-9-]` */
  predicate IsSlugChar(c: char) { IsLower(c) || IsDigit(c) || c == '-' }

  /** `[A-Za-z0-9]` */
  predicate IsAlnum(c: char) { IsLower(c) || IsUpper(c) || IsDigit(c) }

  predicate AllDigits(s: string) { forall i :: 0 <= i < |s| ==> IsDigit(s[i]) }

  function LowerChar(c: char): (r: char)
    ensures !IsUpper(r)
    ensures IsUpper(c) ==> IsLower(r)
    ensures !IsUpper(c) ==> r == c
  {
    if IsUpper(c) then (c as int + 32) as char else c
  }

  /** `String.prototype.toLowerCase`, restricted to ASCII letters. */
  function Lower(s: string): (r: string)
    ensures |r| == |s|
    ensures forall i :: 0 <= i < |s| ==> r[i] == LowerChar(s[i])
  {
    if s == [] then [] else [LowerChar(s[0])] + Lower(s[1..])
  }

  lemma {:induction false} LowerIdempotent(s: string)
    ensures Lower(Lower(s)) == Lower(s)
  {
    if s != [] {
      LowerIdempotent(s[1..]);
    }
  }

  /** Every character satisfies `f`, checked from the front. */
  predicate Every(s: string, f: char -> bool) {
    s == [] || (f(s[0]) && Every(s[1..], f))
  }

  lemma {:induction false} EveryIndex(s: string, f: char -> bool)
    requires Every(s, f)
    ensures forall i :: 0 <= i < |s| ==> f(s[i])
  {
    if s != [] {
      EveryIndex(s[1..], f);
      assert forall i :: 1 <= i < |s| ==> s[i] == s[1..][i - 1];
    }
  }

  predicate StartsWith(s: string, p: string) { |p| <= |s| && s[..|p|] == p }
  predicate EndsWith(s: string, p: string) { |p| <= |s| && s[|s| - |p|..] == p }

  /** The lower-case pattern `p` occurs at position `k` of `s`, ignoring
      the case of ASCII letters in `s` (a regular expression's `i` flag). */
  predicate MatchesAt(s: string, k: int, p: string) {
    0 <= k && k + |p| <= |s| && forall i :: 0 <= i < |p| ==> LowerChar(s[k + i]) == p[i]
  }

  /** `s.includes(p)`: some position of `s` starts an occurrence of `p`. */
  predicate Contains(s: string, p: string)
    decreases |s|
  {
    StartsWith(s, p) || (|s| > 0 && Contains(s[1..], p))
  }

  /** A text no longer than a different pattern does not contain it. */
  lemma {:induction false} NotContainsShort(s: string, p: string)
    requires |s| <= |p| && s != p
    ensures !Contains(s, p)
  {
    if |s| > 0 {
      assert !Contains(s[1..], p) by {
        if Contains(s[1..], p) {
          ContainsLength(s[1..], p);
        }
      }
    }
  }

  /** A text without the first character of a pattern does not contain it. */
  lemma {:induction false} NotContainsHead(s: string, p: string)
    requires p != [] && p[0] !in s
    ensures !Contains(s, p)
    decreases |s|
  {
    if |s| > 0 {
      assert s[1..] == s[1..] && forall c :: c in s[1..] ==> c in s;
      NotContainsHead(s[1..], p);
    }
  }

  lemma ContainsSelf(s: string)
    ensures Contains(s, s)
  {
    assert s[..|s|] == s;
  }

  /** A contained pattern is no longer than the text. */
  lemma {:induction false} ContainsLength(s: string, p: string)
    requires Contains(s, p)
    ensures |p| <= |s|
    decreases |s|
  {
    if !StartsWith(s, p) {
      ContainsLength(s[1..], p);
    }
  }

  lemma {:induction false} ContainsAt(s: string, p: string, i: nat)
    requires i + |p| <= |s| && s[i..i + |p|] == p
    ensures Contains(s, p)
    decreases i
  {
    if i > 0 {
      assert s[1..][i - 1..i - 1 + |p|] == s[i..i + |p|];
      ContainsAt(s[1..], p, i - 1);
    } else {
      assert s[..|p|] == s[0..|p|];
    }
  }

  lemma {:induction false} ContainsWitness(s: string, p: string) returns (i: nat)
    requires Contains(s, p)
    ensures i + |p| <= |s| && s[i..i + |p|] == p
    decreases |s|
  {
    if StartsWith(s, p) {
      i := 0;
    } else {
      var j := ContainsWitness(s[1..], p);
      assert s[1..][j..j + |p|] == s[j + 1..j + 1 + |p|];
      i := j + 1;
    }
  }

  lemma ContainsPrefix(s: string, t: string, p: string)
    requires Contains(s, p)
    ensures Contains(s + t, p)
  {
    var i := ContainsWitness(s, p);
    assert (s + t)[i..i + |p|] == s[i..i + |p|];
    ContainsAt(s + t, p, i);
  }

  lemma ContainsSuffix(s: string, t: string, p: string)
    requires Contains(t, p)
    ensures Contains(s + t, p)
  {
    var i := ContainsWitness(t, p);
    assert (s + t)[|s| + i..|s| + i + |p|] == t[i..i + |p|];
    ContainsAt(s + t, p, |s| + i);
  }

  /** A one-character pattern occurs exactly when the character does. */
  lemma ContainsChar(s: string, c: char)
    ensures Contains(s, [c]) <==> c in s
  {
    if Contains(s, [c]) {
      var i := ContainsWitness(s, [c]);
      assert s[i] == s[i..i + 1][0];
    }
    if c in s {
      var i :| 0 <= i < |s| && s[i] == c;
      assert s[i..i + 1] == [c];
      ContainsAt(s, [c], i);
    }
  }

  function TrimStart(s: string): (r: string)
    ensures |r| <= |s| && r == s[|s| - |r|..]
    ensures r == [] || !IsSpace(r[0])
    ensures forall i :: 0 <= i < |s| - |r| ==> IsSpace(s[i])
  {
    if s != [] && IsSpace(s[0]) then
      var r := TrimStart(s[1..]);
      assert s[1..][|s| - 1 - |r|..] == s[|s| - |r|..];
      assert forall i :: 1 <= i < |s| - |r| ==> s[i] == s[1..][i - 1];
      r
    else s
  }

  function TrimEnd(s: string): (r: string)
    ensures |r| <= |s| && r == s[..|r|]
    ensures r == [] || !IsSpace(r[|r| - 1])
    ensures forall i :: |r| <= i < |s| ==> IsSpace(s[i])
  {
    if s != [] && IsSpace(s[|s| - 1]) then
      var r := TrimEnd(s[..|s| - 1]);
      assert s[..|s| - 1][..|r|] == s[..|r|];
      r
    else s
  }

  /** `String.prototype.trim`. */
  function Trim(s: string): (r: string)
    ensures r == [] || (!IsSpace(r[0]) && !IsSpace(r[|r| - 1]))
    ensures Contains(s, r)
    ensures (forall i :: 0 <= i < |s| ==> !IsSpace(s[i])) ==> r == s
  {
    var a := TrimStart(s);
    var r := TrimEnd(a);
    assert r == s[|s| - |a|..|s| - |a| + |r|];
    ContainsAt(s, r, |s| - |a|);
    r
  }

  /** Trimming removes exactly the white space at both ends: the result
      is the slice of `s` between a white-space prefix and a white-space
      suffix, and starts and ends with something else. */
  lemma TrimExact(s: string) returns (i: nat, j: nat)
    ensures i <= j <= |s| && Trim(s) == s[i..j]
    ensures forall k :: 0 <= k < i ==> IsSpace(s[k])
    ensures forall k :: j <= k < |s| ==> IsSpace(s[k])
    ensures IsTrimmed(Trim(s))
  {
    i, j := EndsSlice(s);
    EndsSpaces(s);
    assert Trim(s) == TrimEnd(TrimStart(s));
  }

  /** The same slice, for the two passes `Trim` makes. */
  lemma EndsSlice(s: string) returns (i: nat, j: nat)
    ensures i == |s| - |TrimStart(s)| && j == i + |TrimEnd(TrimStart(s))|
    ensures i <= j <= |s| && TrimEnd(TrimStart(s)) == s[i..j]
  {
    i := |s| - |TrimStart(s)|;
    var a := TrimStart(s);
    var r := TrimEnd(a);
    assert a == s[i..];
    assert r == a[..|r|];
    j := i + |r|;
    assert a[..|r|] == s[i..j];
  }

  lemma EndsSpaces(s: string)
    ensures var i := |s| - |TrimStart(s)|; var j := i + |TrimEnd(TrimStart(s))|;
      (forall k :: 0 <= k < i ==> IsSpace(s[k])) && forall k :: j <= k < |s| ==> IsSpace(s[k])
  {
    var i := |s| - |TrimStart(s)|;
    assert TrimStart(s) == s[i..];
    TrimEndInside(s, i);
  }

  lemma TrimEndInside(s: string, i: nat)
    requires i <= |s|
    ensures var r := TrimEnd(s[i..]);
      i + |r| <= |s| && r == s[i..i + |r|] && forall k :: i + |r| <= k < |s| ==> IsSpace(s[k])
  {
    var a := s[i..];
    var r := TrimEnd(a);
    forall k | i + |r| <= k < |s| ensures IsSpace(s[k]) {
      assert s[k] == a[k - i];
    }
  }

  /** Trimming only drops characters. */
  lemma TrimKeeps(s: string)
    ensures forall c :: c in Trim(s) ==> c in s
  {
    var t := Trim(s);
    var j := ContainsWitness(s, t);
    forall c | c in t ensures c in s {
      var i :| 0 <= i < |t| && t[i] == c;
      assert s[j + i] == s[j..j + |t|][i];
    }
  }

  /** No white space at either end. */
  predicate IsTrimmed(t: string) {
    t == [] || (!IsSpace(t[0]) && !IsSpace(t[|t| - 1]))
  }

  /** Trimming leaves trimmed text alone. */
  lemma TrimOfTrimmed(t: string)
    requires IsTrimmed(t)
    ensures Trim(t) == t
  {
    if t != [] {
      assert TrimStart(t) == t;
      assert TrimEnd(t) == t;
    }
  }

  lemma TrimIdempotent(s: string)
    ensures Trim(Trim(s)) == Trim(s)
  {
    var t := Trim(s);
    if t != [] {
      assert TrimStart(t) == t;
      assert TrimEnd(t) == t;
    }
  }

  /** `parts.join(sep)` */
  function Join(parts: seq<string>, sep: string): (r: string)
    ensures |parts| == 1 ==> r == parts[0]
  {
    if |parts| == 0 then ""
    else if |parts| == 1 then parts[0]
    else parts[0] + sep + Join(parts[1..], sep)
  }

  /** `s.split(c)` for a one-character separator: always at least one part,
      and no part contains the separator. */
  function Split(s: string, c: char): (r: seq<string>)
    ensures |r| >= 1
    ensures forall i :: 0 <= i < |r| ==> c !in r[i]
  {
    if s == [] then [""]
    else
      var rest := Split(s[1..], c);
      if s[0] == c then [""] + rest
      else [[s[0]] + rest[0]] + rest[1..]
  }

  lemma {:induction false} SplitJoin(s: string, c: char)
    ensures Join(Split(s, c), [c]) == s
  {
    if s != [] {
      SplitJoin(s[1..], c);
      var rest := Split(s[1..], c);
      if s[0] != c && |rest| > 1 {
        assert Join(rest, [c]) == rest[0] + [c] + Join(rest[1..], [c]);
        assert Split(s, c)[1..] == rest[1..];
      }
    }
  }

  lemma {:induction false} JoinSplit(parts: seq<string>, c: char)
    requires |parts| >= 1
    requires forall i :: 0 <= i < |parts| ==> c !in parts[i]
    ensures Split(Join(parts, [c]), c) == parts
    decreases |parts|, |parts[0]|
  {
    if |parts| == 1 {
      JoinSplitOne(parts[0], c);
    } else if parts[0] == [] {
      JoinSplit(parts[1..], c);
      assert Join(parts, [c]) == [c] + Join(parts[1..], [c]);
    } else {
      var p := [parts[0][1..]] + parts[1..];
      JoinSplit(p, c);
      assert Join(parts, [c]) == [parts[0][0]] + Join(p, [c]);
      assert [parts[0][0]] + parts[0][1..] == parts[0];
    }
  }

  lemma {:induction false} JoinSplitOne(s: string, c: char)
    requires c !in s
    ensures Split(s, c) == [s]
  {
    if s != [] {
      JoinSplitOne(s[1..], c);
      assert [s[0]] + s[1..] == s;
    }
  }

  /** Drop the empty parts, as `.filter(Boolean)` does after a split. */
  function NonEmpty(parts: seq<string>): (r: seq<string>)
    ensures |r| <= |parts|
    ensures forall i :: 0 <= i < |r| ==> r[i] != []
    ensures forall x :: x in r <==> x in parts && x != []
  {
    if parts == [] then []
    else if parts[0] == [] then NonEmpty(parts[1..])
    else [parts[0]] + NonEmpty(parts[1..])
  }
  /** Nothing is dropped from a list without empty parts. */
  lemma {:induction false} NonEmptyKeepsAll(parts: seq<string>)
    requires forall i :: 0 <= i < |parts| ==> parts[i] != []
    ensures NonEmpty(parts) == parts
  {
    if parts != [] {
      NonEmptyKeepsAll(parts[1..]);
      assert [parts[0]] + parts[1..] == parts;
    }
  }


  function DigitChar(d: nat): (c: char)
    requires d < 10
    ensures IsDigit(c)
  {
    ('0' as int + d) as char
  }

  function DigitValue(c: char): (d: nat)
    requires IsDigit(c)
    ensures d < 10 && DigitChar(d) == c
  {
    c as int - '0' as int
  }

  /** Decimal text of a natural number, without leading zeros. */
  function NatText(n: nat): (r: string)
    ensures |r| >= 1 && AllDigits(r)
    ensures n >= 10 ==> |r| >= 2
  {
    if n < 10 then [DigitChar(n)] else NatText(n / 10) + [DigitChar(n % 10)]
  }

  /** Value of a string of decimal digits (leading zeros allowed). */
  function DigitsValue(s: string): (n: nat)
    requires AllDigits(s)
  {
    if s == [] then 0 else DigitsValue(s[..|s| - 1]) * 10 + DigitValue(s[|s| - 1])
  }

  lemma {:induction false} NatTextValue(n: nat)
    ensures DigitsValue(NatText(n)) == n
  {
    if n >= 10 {
      NatTextValue(n / 10);
      var t := NatText(n);
      assert t[..|t| - 1] == NatText(n / 10);
    }
  }

  /** Distinct numbers have distinct decimal text. */
  lemma NatTextInjective(a: nat, b: nat)
    requires NatText(a) == NatText(b)
    ensures a == b
  {
    NatTextValue(a);
    NatTextValue(b);
  }

  /** Decimal text of an integer as `String(n)` writes it. */
  function IntText(n: int): (r: string)
    ensures |r| >= 1
    ensures n >= 0 ==> AllDigits(r)
    ensures n < 0 ==> r[0] == '-'
  {
    if n < 0 then "-" + NatText(-n) else NatText(n)
  }

  lemma IntTextInjective(a: int, b: int)
    requires IntText(a) == IntText(b)
    ensures a == b
  {
    if a < 0 && b < 0 {
      assert NatText(-a) == IntText(a)[1..];
      NatTextInjective(-a, -b);
    } else if a >= 0 && b >= 0 {
      NatTextInjective(a, b);
    }
  }

  /** The longest prefix of decimal digits. */
  function DigitPrefix(s: string): (r: string)
    ensures AllDigits(r) && StartsWith(s, r)
    ensures |r| == |s| || !IsDigit(s[|r|])
  {
    if s != [] && IsDigit(s[0]) then [s[0]] + DigitPrefix(s[1..]) else ""
  }

  /** A digit run followed by a non-digit is exactly the digit prefix. */
  lemma {:induction false} DigitPrefixOf(t: string, x: string)
    requires AllDigits(t) && x != [] && !IsDigit(x[0])
    ensures DigitPrefix(t + x) == t
  {
    if t != [] {
      DigitPrefixOf(t[1..], x);
      assert (t + x)[1..] == t[1..] + x;
    }
  }

  /** `parseInt(s, 10)`: optional leading white space and sign, then the
      longest digit prefix; `None` stands for `NaN`. */
  function ParseInt(s: string): (r: Option<int>)
    ensures r.Some? <==> DigitPrefix(SignFree(TrimStart(s))) != []
    ensures r.Some? ==> r.value == Signed(TrimStart(s), DigitsValue(DigitPrefix(SignFree(TrimStart(s)))))
  {
    var t := TrimStart(s);
    var d := DigitPrefix(SignFree(t));
    if d == [] then None else Some(Signed(t, DigitsValue(d)))
  }

  /** `[0-9a-fA-F]` */
  predicate IsHexDigit(c: char) { IsDigit(c) || 'a' <= c <= 'f' || 'A' <= c <= 'F' }

  function HexDigitValue(c: char): (d: nat)
    requires IsHexDigit(c)
    ensures d < 16
    ensures IsDigit(c) ==> d == DigitValue(c)
  {
    if IsDigit(c) then DigitValue(c)
    else if 'a' <= c <= 'f' then c as int - 'a' as int + 10
    else c as int - 'A' as int + 10
  }

  /** The longest prefix of hexadecimal digits. */
  function HexPrefix(s: string): (r: string)
    ensures StartsWith(s, r) && forall i :: 0 <= i < |r| ==> IsHexDigit(r[i])
    ensures |r| == |s| || !IsHexDigit(s[|r|])
  {
    if s != [] && IsHexDigit(s[0]) then [s[0]] + HexPrefix(s[1..]) else ""
  }

  /** The value of a run of hexadecimal digits, most significant first. */
  function HexValue(s: string): (n: nat)
    requires forall i :: 0 <= i < |s| ==> IsHexDigit(s[i])
  {
    if s == [] then 0 else HexValue(s[..|s| - 1]) * 16 + HexDigitValue(s[|s| - 1])
  }

  /** The text after the sign starts with "0x" or "0X". */
  predicate HexMarked(u: string) {
    |u| >= 2 && u[0] == '0' && (u[1] == 'x' || u[1] == 'X')
  }

  /** `parseInt(s)` with no radix: as `parseInt(s, 10)`, except that a "0x"
      or "0X" after the optional sign selects base 16 and the longest run
      of hexadecimal digits after it; `None` stands for `NaN`. */
  function ParseIntAuto(s: string): (r: Option<int>)
    ensures !HexMarked(SignFree(TrimStart(s))) ==> r == ParseInt(s)
    ensures HexMarked(SignFree(TrimStart(s))) ==>
      (r.Some? <==> HexPrefix(SignFree(TrimStart(s))[2..]) != []) &&
      (r.Some? ==> r.value == Signed(TrimStart(s), HexValue(HexPrefix(SignFree(TrimStart(s))[2..]))))
  {
    var t := TrimStart(s);
    var u := SignFree(t);
    if HexMarked(u) then
      var h := HexPrefix(u[2..]);
      if h == [] then None else Some(Signed(t, HexValue(h)))
    else ParseInt(s)
  }

  /** Without an 'x' or 'X' in the text both readings agree. */
  lemma ParseIntAutoDecimal(s: string)
    requires 'x' !in s && 'X' !in s
    ensures ParseIntAuto(s) == ParseInt(s)
  {
    var t := TrimStart(s);
    var u := SignFree(t);
    if HexMarked(u) {
      assert false;
    }
  }

  /** "0x1F" reads as 31, where `parseInt(s, 10)` stops at the 'x' and
      gives 0. */
  lemma HexExample()
    ensures ParseIntAuto("0x1F") == Some(31)
    ensures ParseInt("0x1F") == Some(0)
  {
    HexReadsOneF("0x1F");
    DecimalStopsAtX("0x1F");
  }

  /** With no radix "0x1F" is the hexadecimal run "1F". */
  lemma HexReadsOneF(s: string)
    requires s == "0x1F"
    ensures ParseIntAuto(s) == Some(31)
  {
    assert TrimStart(s) == s;
    assert SignFree(s) == s;
    assert HexMarked(s);
    assert s[2..] == "1F";
    HexDigitsOneF();
  }

  /** The digits "1F" are one hexadecimal run worth 31. */
  lemma HexDigitsOneF()
    ensures HexPrefix("1F") == "1F" && HexValue("1F") == 31
  {
    assert HexPrefix("F") == "F";
    assert "1F"[..1] == "1";
    assert HexValue("1") == 1 by { assert "1"[..0] == ""; }
  }

  /** In base 10 "0x..." stops at the 'x' and reads 0. */
  lemma DecimalStopsAtX(s: string)
    requires s == "0x1F"
    ensures ParseInt(s) == Some(0)
  {
    assert TrimStart(s) == s;
    assert SignFree(s) == s;
    assert DigitPrefix(s) == "0";
    assert DigitsValue("0") == 0 by { assert "0"[..0] == ""; }
  }

  /** A run of digits parses to its value. */
  lemma ParseIntDigits(t: string)
    requires t != [] && AllDigits(t)
    ensures ParseInt(t) == Some(DigitsValue(t))
  {
    assert !IsSpace(t[0]);
    assert TrimStart(t) == t;
    assert SignFree(t) == t;
    assert DigitPrefix(t) == t;
  }

  /** Leading zeros do not change a digit run's value. */
  lemma {:induction false} ZerosValue(k: nat, t: string)
    requires AllDigits(t)
    ensures AllDigits(seq(k, _ => '0') + t)
    ensures DigitsValue(seq(k, _ => '0') + t) == DigitsValue(t)
    decreases |t|, k
  {
    var z := seq(k, _ => '0');
    if t == [] {
      if k > 0 {
        assert (z + t)[..k - 1] == seq(k - 1, _ => '0') + t;
        ZerosValue(k - 1, t);
      }
    } else {
      assert (z + t)[..|z + t| - 1] == z + t[..|t| - 1];
      ZerosValue(k, t[..|t| - 1]);
    }
  }

  /** `String(n).padStart(width, '0')` reads back as `n`. */
  lemma PaddedNatValue(n: nat, width: nat)
    ensures ParseInt(PadStart(NatText(n), width, '0')) == Some(n)
  {
    var t := NatText(n);
    NatTextValue(n);
    PaddedDigits(t, width);
    ParseIntDigits(PadStart(t, width, '0'));
  }

  /** Padding a digit run with zeros keeps its value. */
  lemma PaddedDigits(t: string, width: nat)
    requires AllDigits(t)
    ensures AllDigits(PadStart(t, width, '0')) && DigitsValue(PadStart(t, width, '0')) == DigitsValue(t)
  {
    if |t| < width {
      var k := width - |t|;
      ZerosValue(k, t);
      var r := PadStart(t, width, '0');
      assert r == seq(k, _ => '0') + t by {
        assert forall i :: 0 <= i < |r| ==> r[i] == (seq(k, _ => '0') + t)[i];
      }
    }
  }

  /** The text after an optional leading sign. */
  function SignFree(t: string): string {
    if t != [] && (t[0] == '-' || t[0] == '+') then t[1..] else t
  }

  /** The magnitude `n` with the sign that `t` starts with. */
  function Signed(t: string, n: nat): int {
    if t != [] && t[0] == '-' then -(n as int) else n
  }

  /** `s.padStart(width, '0')` */
  function PadStart(s: string, width: nat, fill: char): (r: string)
    ensures |r| == if |s| >= width then |s| else width
    ensures EndsWith(r, s)
    ensures forall i :: 0 <= i < |r| - |s| ==> r[i] == fill
  {
    if |s| >= width then s else seq(width - |s|, _ => fill) + s
  }

  /** `s.replace(/p/g, r)` for a literal pattern: occurrences are replaced left
      to right without overlapping. */
  function ReplaceAll(s: string, p: string, r: string): (t: string)
    requires p != []
    ensures !Contains(s, p) ==> t == s
    decreases |s|
  {
    if s == [] then []
    else if StartsWith(s, p) then r + ReplaceAll(s[|p|..], p, r)
    else [s[0]] + ReplaceAll(s[1..], p, r)
  }

  /** Text that holds no first character of the pattern is copied over
      unchanged. */
  lemma {:induction false} ReplaceSkip(a: string, b: string, p: string, r: string)
    requires p != [] && p[0] !in a
    ensures ReplaceAll(a + b, p, r) == a + ReplaceAll(b, p, r)
  {
    if a != [] {
      ReplaceSkip(a[1..], b, p, r);
      assert (a + b)[1..] == a[1..] + b;
      ReplaceHead(a + b, p, r);
      ConsAssoc(a[0], a[1..], ReplaceAll(b, p, r));
      assert a == [a[0]] + a[1..];
    } else {
      assert a + b == b;
    }
  }

  /** Where the pattern does not start, the first character is copied. */
  lemma ReplaceHead(s: string, p: string, r: string)
    requires p != [] && s != [] && s[0] != p[0]
    ensures ReplaceAll(s, p, r) == [s[0]] + ReplaceAll(s[1..], p, r)
  {
    assert !StartsWith(s, p) by {
      if |p| <= |s| {
        assert s[..|p|][0] == s[0];
      }
    }
  }

  lemma ThreeCons<T>(a: T, b: T, c: T, rest: seq<T>)
    ensures [a, b, c] + rest == [a] + ([b] + ([c] + rest))
  {
    assert [a, b, c] == [a] + ([b] + [c]);
  }

  /** Right-nested and left-nested joins of four segments with '/'. */
  lemma SlashAssoc(a: string, b: string, c: string, t: string)
    ensures a + "/" + (b + "/" + (c + "/" + t)) == a + "/" + b + "/" + c + "/" + t
  {
  }

  /** Regrouping of the pieces a URL text concatenates, with the pieces
      left abstract. */
  lemma Regroup(scheme: string, host: string, slash: string, a: string, b: string, c: string, t: string)
    ensures scheme + host + (slash + (a + slash + b + slash + c + slash + t))
            == (scheme + host + slash) + a + slash + b + slash + c + slash + t
  {
  }

  lemma AppendAssoc<T>(x: seq<T>, y: seq<T>, z: seq<T>)
    ensures x + (y + z) == (x + y) + z
  {
  }

  lemma ConsAssoc(c: char, a: string, b: string)
    ensures [c] + (a + b) == ([c] + a) + b
  {
  }

  /** One occurrence of the pattern between text holding none of its first
      character is replaced. */
  lemma ReplaceOnce(a: string, b: string, p: string, r: string)
    requires p != [] && p[0] !in a && p[0] !in b
    ensures ReplaceAll(a + p + b, p, r) == a + r + b
  {
    assert a + p + b == a + (p + b);
    ReplaceSkip(a, p + b, p, r);
    ReplaceAllHit(b, p, r);
    ReplaceSkip(b, [], p, r);
    assert b + [] == b;
    assert ReplaceAll([], p, r) == [];
  }

  /** Text wrapped in the pattern on both sides has both wrappers replaced. */
  lemma ReplaceWrapped(m: string, p: string, r: string)
    requires p != [] && p[0] !in m
    ensures ReplaceAll(p + m + p, p, r) == r + m + r
  {
    assert p + m + p == p + (m + p);
    ReplaceAllHit(m + p, p, r);
    ReplaceOnce(m, [], p, r);
    assert m + p + [] == m + p;
    assert m + r + [] == m + r;
  }

  /** Replacing a one-character pattern works character by character. */
  lemma ReplaceCharCons(c: char, s: string, p: char, r: string)
    ensures ReplaceAll([c] + s, [p], r) == (if c == p then r else [c]) + ReplaceAll(s, [p], r)
  {
    assert ([c] + s)[1..] == s;
  }

  /** Removing a character removes every occurrence of it. */
  lemma {:induction false} RemoveCharGone(s: string, p: char)
    ensures p !in ReplaceAll(s, [p], "")
    ensures forall c :: c in ReplaceAll(s, [p], "") ==> c in s
  {
    if s != [] {
      RemoveCharGone(s[1..], p);
      ReplaceCharCons(s[0], s[1..], p, "");
      assert s == [s[0]] + s[1..];
    }
  }

  lemma ReplaceAllHit(e: string, p: string, r: string)
    requires p != []
    ensures ReplaceAll(p + e, p, r) == r + ReplaceAll(e, p, r)
  {
    assert (p + e)[..|p|] == p;
    assert (p + e)[|p|..] == e;
  }

  lemma ReplaceAllMiss(c: char, e: string, p: string, r: string)
    requires p != [] && !StartsWith([c] + e, p)
    ensures ReplaceAll([c] + e, p, r) == [c] + ReplaceAll(e, p, r)
  {
    assert ([c] + e)[1..] == e;
  }

  lemma {:induction false} JoinAppend(parts: seq<string>, last: string, sep: string)
    requires parts != []
    ensures Join(parts + [last], sep) == Join(parts, sep) + sep + last
    decreases |parts|
  {
    if |parts| > 1 {
      JoinAppend(parts[1..], last, sep);
      assert (parts + [last])[1..] == parts[1..] + [last];
    }
  }

  lemma JoinHead(parts: seq<string>, sep: string)
    requires |parts| >= 2
    ensures Join(parts, sep) == parts[0] + sep + Join(parts[1..], sep)
  {
  }

  lemma JoinCons(x: string, xs: seq<string>, sep: string)
    requires xs != []
    ensures Join([x] + xs, sep) == x + sep + Join(xs, sep)
  {
    assert ([x] + xs)[1..] == xs;
  }

  /** Extending the last part extends the joined text. */
  lemma {:induction false} JoinExtendLast(parts: seq<string>, c: char, sep: string)
    requires parts != []
    ensures Join(parts[..|parts| - 1] + [parts[|parts| - 1] + [c]], sep) == Join(parts, sep) + [c]
    decreases |parts|
  {
    if |parts| > 1 {
      var init := parts[..|parts| - 1];
      JoinAppend(init, parts[|parts| - 1] + [c], sep);
      JoinAppend(init, parts[|parts| - 1], sep);
      assert parts == init + [parts[|parts| - 1]];
    }
  }

  /** `s.replace(/\s/g, '')` */
  function RemoveSpaces(s: string): (r: string)
    ensures forall i :: 0 <= i < |r| ==> !IsSpace(r[i])
    ensures |r| <= |s|
    ensures (forall i :: 0 <= i < |s| ==> !IsSpace(s[i])) ==> r == s
  {
    if s == [] then []
    else if IsSpace(s[0]) then RemoveSpaces(s[1..])
    else [s[0]] + RemoveSpaces(s[1..])
  }
  lemma {:induction false} RemoveSpacesAppend(a: string, b: string)
    ensures RemoveSpaces(a + b) == RemoveSpaces(a) + RemoveSpaces(b)
  {
    if a != [] {
      assert (a + b)[1..] == a[1..] + b;
      RemoveSpacesAppend(a[1..], b);
      ConsAssoc(a[0], RemoveSpaces(a[1..]), RemoveSpaces(b));
    } else {
      assert a + b == b;
    }
  }


  /** A character property shared by every part and the separator holds
      throughout the joined text. */
  lemma {:induction false} JoinAll(parts: seq<string>, sep: string, f: char -> bool)
    requires forall k, i :: 0 <= k < |parts| && 0 <= i < |parts[k]| ==> f(parts[k][i])
    requires forall i :: 0 <= i < |sep| ==> f(sep[i])
    ensures forall i :: 0 <= i < |Join(parts, sep)| ==> f(Join(parts, sep)[i])
  {
    if |parts| > 1 {
      JoinAll(parts[1..], sep, f);
      var rest := Join(parts[1..], sep);
      var all := parts[0] + sep + rest;
      forall i | 0 <= i < |all| ensures f(all[i]) {
        if i < |parts[0]| {
        } else if i < |parts[0]| + |sep| {
          assert all[i] == sep[i - |parts[0]|];
        } else {
          assert all[i] == rest[i - |parts[0]| - |sep|];
        }
      }
    }
  }

  /** Length of the leading run of `c`. */
  function LeadingCount(s: string, c: char): (n: nat)
    ensures n <= |s|
    ensures n < |s| ==> s[n] != c
  {
    if s != [] && s[0] == c then 1 + LeadingCount(s[1..], c) else 0
  }

  lemma {:induction false} LeadingCountRun(s: string, c: char)
    ensures forall i :: 0 <= i < LeadingCount(s, c) ==> s[i] == c
  {
    if s != [] && s[0] == c {
      LeadingCountRun(s[1..], c);
    }
  }

  /** Length of the leading run of white space. */
  function LeadingSpaces(s: string): (n: nat)
    ensures n <= |s|
    ensures n < |s| ==> !IsSpace(s[n])
  {
    if s != [] && IsSpace(s[0]) then 1 + LeadingSpaces(s[1..]) else 0
  }

  lemma {:induction false} LeadingSpacesRun(s: string)
    ensures forall i :: 0 <= i < LeadingSpaces(s) ==> IsSpace(s[i])
  {
    if s != [] && IsSpace(s[0]) {
      LeadingSpacesRun(s[1..]);
    }
  }

}
