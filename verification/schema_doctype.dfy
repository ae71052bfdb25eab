/** The documentation type cell parser: a Markdown cell such as
    `` `int\|null` `` or `array<string> or null` becomes a sorted,
    duplicate-free list of JSON Schema type names, or an error. */
module SchemaDocType {
  import opened Wrappers
  import opened Strings
  import opened Sorting
  import opened TextOrder
  import SchemaMarkdown

  datatype DocTypeError = EmptyCell | EmptyAfterNormalization | NoParseableTypes | UnrecognizedTokens

  /** The recognised spellings and the schema type each stands for, in
      declaration order. */
  const Recognized: seq<(string, string)> := [
    ("string", "string"), ("int", "integer"), ("integer", "integer"),
    ("number", "number"), ("float", "number"), ("double", "number"),
    ("decimal", "number"), ("bool", "boolean"), ("boolean", "boolean"),
    ("object", "object"), ("array", "array"), ("null", "null")
  ]

  /** Every type name a cell can produce. */
  const SchemaTypes: set<string> := {"string", "integer", "number", "boolean", "object", "array", "null"}

  lemma RecognizedTargets()
    ensures forall i :: 0 <= i < |Recognized| ==> Recognized[i].1 in SchemaTypes
  {
  }

  /** The schema type a lower-cased spelling stands for, looked up by key. */
  function Spelled(t: string): (r: Option<string>)
    ensures r.Some? ==> r.value in SchemaTypes
  {
    if t == "string" then Some("string")
    else if t == "int" || t == "integer" then Some("integer")
    else if t == "number" || t == "float" || t == "double" || t == "decimal" then Some("number")
    else if t == "bool" || t == "boolean" then Some("boolean")
    else if t == "object" then Some("object")
    else if t == "array" then Some("array")
    else if t == "null" then Some("null")
    else None
  }

  /** The lookup answers exactly the pairs of the table. */
  lemma SpelledTable(t: string, y: string)
    ensures Spelled(t) == Some(y) <==> (t, y) in Recognized
  {
  }

  /** Length of the first space-free word of `t`. */
  function WordLength(t: string): (n: nat)
    ensures n <= |t|
    ensures n < |t| ==> t[n] == ' '
  {
    if t == [] || t[0] == ' ' then 0 else 1 + WordLength(t[1..])
  }

  lemma {:induction false} WordLengthAt(t: string, m: nat)
    requires m < |t| && t[m] == ' '
    requires forall i :: 0 <= i < m ==> t[i] != ' '
    ensures WordLength(t) == m
  {
    if m > 0 {
      WordLengthAt(t[1..], m - 1);
    }
  }

  /** The type of the spelling that, followed by a space, starts `t`:
      `int (nullable)` reads as `int`. */
  function AliasOf(t: string): (r: Option<string>)
    ensures r.Some? ==> r.value in SchemaTypes
  {
    var n := WordLength(t);
    if n < |t| then Spelled(t[..n]) else None
  }

  lemma SpellingsHaveNoSpace()
    ensures forall k :: 0 <= k < |Recognized| ==> ' ' !in Recognized[k].0
  {
  }

  lemma AliasOfSound(t: string, y: string)
    requires AliasOf(t) == Some(y)
    ensures exists k :: 0 <= k < |Recognized| && StartsWith(t, Recognized[k].0 + " ") && Recognized[k].1 == y
  {
    var n := WordLength(t);
    var w := t[..n];
    SpelledTable(w, y);
    var k :| 0 <= k < |Recognized| && Recognized[k] == (w, y);
    assert t[..n + 1] == w + " ";
  }

  lemma AliasOfComplete(t: string, k: nat)
    requires k < |Recognized| && StartsWith(t, Recognized[k].0 + " ")
    ensures AliasOf(t) == Some(Recognized[k].1)
  {
    var w := Recognized[k].0;
    SpellingsHaveNoSpace();
    assert t[..|w| + 1] == w + " ";
    forall i | 0 <= i < |w| ensures t[i] != ' ' {
      assert t[i] == w[i];
    }
    WordLengthAt(t, |w|);
    assert t[..|w|] == w;
    SpelledTable(w, Recognized[k].1);
  }

  /** The prefix rule answers `y` iff some table spelling followed by a
      space starts `t` and stands for `y`; no two spellings can both match,
      so which one the search meets first does not matter. */
  lemma AliasOfTable(t: string, y: string)
    ensures AliasOf(t) == Some(y) <==>
      exists k :: 0 <= k < |Recognized| && StartsWith(t, Recognized[k].0 + " ") && Recognized[k].1 == y
  {
    if AliasOf(t) == Some(y) {
      AliasOfSound(t, y);
    }
    if exists k :: 0 <= k < |Recognized| && StartsWith(t, Recognized[k].0 + " ") && Recognized[k].1 == y {
      var k :| 0 <= k < |Recognized| && StartsWith(t, Recognized[k].0 + " ") && Recognized[k].1 == y;
      AliasOfComplete(t, k);
    }
  }

  // ------------------------------------------------------- normalisation

  /** Length of a case-insensitive `<br\s*\/?>` at the start of `s`, or 0. */
  function BrMatch(s: string): (m: nat)
    ensures m <= |s|
    ensures m > 0 ==> m >= 4 && s[0] == '<'
  {
    if |s| >= 3 && s[0] == '<' && LowerChar(s[1]) == 'b' && LowerChar(s[2]) == 'r' then
      var j := 3 + LeadingSpaces(s[3..]);
      var k := if j < |s| && s[j] == '/' then j + 1 else j;
      if k < |s| && s[k] == '>' then k + 1 else 0
    else 0
  }

  /** `.replace(/<br\s*\/?>/gi, ' ')` */
  function ReplaceBr(s: string): (r: string)
    ensures '<' !in s ==> r == s
    decreases |s|
  {
    if s == [] then []
    else
      var m := BrMatch(s);
      if m > 0 then " " + ReplaceBr(s[m..]) else [s[0]] + ReplaceBr(s[1..])
  }

  /** Length of a case-insensitive `\s+or\s+` at the start of `s`, or 0. */
  function OrMatch(s: string): (m: nat)
    ensures m <= |s|
    ensures m > 0 ==> m >= 4 && IsSpace(s[0])
  {
    var w := LeadingSpaces(s);
    if w > 0 && w + 2 < |s| && LowerChar(s[w]) == 'o' && LowerChar(s[w + 1]) == 'r' && IsSpace(s[w + 2]) then
      w + 2 + LeadingSpaces(s[w + 2..])
    else 0
  }

  /** `.replace(/\s+or\s+/gi, '|')` */
  function ReplaceOr(s: string): (r: string)
    ensures (forall i :: 0 <= i < |s| ==> !IsSpace(s[i])) ==> r == s
    decreases |s|
  {
    if s == [] then []
    else
      var m := OrMatch(s);
      if m > 0 then "|" + ReplaceOr(s[m..]) else [s[0]] + ReplaceOr(s[1..])
  }

  /** The cell after line breaks, code marks, bold marks and escaped pipes
      are rewritten and each spelled-out `or` becomes a pipe. */
  function NormalizeCell(raw: string): string {
    Trim(ReplaceOr(ReplaceAll(ReplaceAll(ReplaceAll(ReplaceBr(raw), "`", ""), "**", ""), "\\|", "|")))
  }

  /** The non-empty trimmed alternatives, or the whole text when there are none. */
  function UnionParts(normalized: string): (r: seq<string>)
    ensures r != []
  {
    var u := NonEmpty(SchemaMarkdown.TrimAll(Split(normalized, '|')));
    if u != [] then u else [normalized]
  }

  /** `(`, `)` and `,` become spaces. */
  function PunctuationToSpace(s: string): (r: string)
    ensures |r| == |s|
  {
    if s == [] then []
    else [if s[0] in "()," then ' ' else s[0]] + PunctuationToSpace(s[1..])
  }

  /** `.replace(/\s+/g, ' ')` */
  function CollapseSpaces(s: string): (r: string)
    ensures |r| <= |s|
    decreases |s|
  {
    if s == [] then []
    else if IsSpace(s[0]) then " " + CollapseSpaces(s[LeadingSpaces(s)..])
    else [s[0]] + CollapseSpaces(s[1..])
  }

  function Lowered(part: string): string {
    Trim(CollapseSpaces(PunctuationToSpace(Lower(part))))
  }

  /** `^array\s*<(.+)>$` */
  predicate IsArrayGeneric(t: string) {
    |t| >= 5 && t[..5] == "array"
    && var k := 5 + LeadingSpaces(t[5..]);
    k + 3 <= |t| && t[k] == '<' && t[|t| - 1] == '>'
  }

  /** What one alternative contributes. */
  datatype PartKind = Skip | Type(name: string) | Unknown

  function ClassifyPart(part: string): (k: PartKind)
    ensures k.Type? ==> k.name in SchemaTypes
  {
    var t := Lowered(part);
    if t == [] then Skip
    else if IsArrayGeneric(t) || SchemaMarkdown.EndsWithBrackets(t) then Type("array")
    else match Spelled(t)
      case Some(name) => Type(name)
      case None =>
        match AliasOf(t)
        case Some(name) => Type(name)
        case None => Unknown
  }

  function MapKinds(f: string -> PartKind, parts: seq<string>): (r: seq<PartKind>)
    ensures |r| == |parts|
    ensures forall i :: 0 <= i < |r| ==> r[i] == f(parts[i])
  {
    if parts == [] then [] else [f(parts[0])] + MapKinds(f, parts[1..])
  }

  function ClassifyAll(parts: seq<string>): seq<PartKind> {
    MapKinds(ClassifyPart, parts)
  }

  /** `Set.prototype.add` on an insertion-ordered list. */
  function AddType(types: seq<string>, t: string): (r: seq<string>)
    ensures Distinct(types) ==> Distinct(r)
    ensures forall x :: x in r <==> x in types || x == t
  {
    if t in types then types else types + [t]
  }

  /** The types named by `kinds`, first occurrence first. */
  function FoundTypes(kinds: seq<PartKind>, types: seq<string>): (r: seq<string>)
    ensures Distinct(types) ==> Distinct(r)
    ensures forall x :: x in r <==> x in types || Type(x) in kinds
  {
    if kinds == [] then types
    else
      var next := if kinds[0].Type? then AddType(types, kinds[0].name) else types;
      assert forall k :: k in kinds <==> k == kinds[0] || k in kinds[1..];
      FoundTypes(kinds[1..], next)
  }

  predicate AnyType(kinds: seq<PartKind>) {
    exists i :: 0 <= i < |kinds| && kinds[i].Type?
  }

  /** The alternatives a cell splits into. */
  function Parts(cell: string): seq<string> {
    UnionParts(NormalizeCell(Trim(cell)))
  }

  /** The verdict over the classified alternatives: no type at all is
      reported before an unrecognised alternative. */
  function ParseKinds(kinds: seq<PartKind>): (r: Result<seq<string>, DocTypeError>)
    ensures r.Failure? ==> r.error == NoParseableTypes || r.error == UnrecognizedTokens
    ensures r == Failure(NoParseableTypes) <==> !AnyType(kinds)
    ensures r.Success? <==> AnyType(kinds) && Unknown !in kinds
    ensures r.Success? ==> Sorted(r.value, StringLe()) && Distinct(r.value)
    ensures r.Success? ==> forall x :: x in r.value <==> Type(x) in kinds
  {
    var found := FoundTypes(kinds, []);
    if found == [] then
      assert forall i :: 0 <= i < |kinds| ==> kinds[i] in kinds;
      Failure(NoParseableTypes)
    else
      assert AnyType(kinds) by {
        assert Type(found[0]) in kinds;
      }
      if Unknown in kinds then Failure(UnrecognizedTokens)
      else
        StringOrderIsPreorder();
        SortSorted(found, StringLe());
        SortKeepsDistinct(found, StringLe());
        SortSameElements(found, StringLe());
        Success(Sort(found, StringLe()))
  }

  /** The trimmed cell after normalisation. */
  function Normalized(cell: string): string {
    NormalizeCell(Trim(cell))
  }

  /** `parseDocTypeCell` */
  function ParseDocTypeCell(cell: string): (r: Result<seq<string>, DocTypeError>)
    ensures r == Failure(EmptyCell) <==> Trim(cell) == []
    ensures r == Failure(EmptyAfterNormalization) <==> Trim(cell) != [] && Normalized(cell) == []
  {
    if Trim(cell) == [] then Failure(EmptyCell)
    else if Normalized(cell) == [] then Failure(EmptyAfterNormalization)
    else
      var k := ParseKinds(ClassifyAll(Parts(cell)));
      assert k.Failure? ==> k.error.NoParseableTypes? || k.error.UnrecognizedTokens?;
      k
  }

  /** A cell with text left after normalisation gets the verdict over its
      classified alternatives. */
  lemma ParseDocTypeCellKinds(cell: string)
    requires Trim(cell) != [] && NormalizeCell(Trim(cell)) != []
    ensures ParseDocTypeCell(cell) == ParseKinds(ClassifyAll(Parts(cell)))
  {
  }

  /** Kinds computed element-wise by `f` say of the parts what `f` says. */
  lemma KindsOf(kinds: seq<PartKind>, parts: seq<string>, f: string -> PartKind)
    requires |kinds| == |parts|
    requires forall i :: 0 <= i < |kinds| ==> kinds[i] == f(parts[i])
    ensures forall x :: Type(x) in kinds <==> exists i :: 0 <= i < |parts| && f(parts[i]) == Type(x)
    ensures Unknown in kinds <==> exists i :: 0 <= i < |parts| && f(parts[i]) == Unknown
    ensures AnyType(kinds) <==> exists i :: 0 <= i < |parts| && f(parts[i]).Type?
  {
    forall x ensures Type(x) in kinds <==> exists i :: 0 <= i < |parts| && f(parts[i]) == Type(x) {
      if Type(x) in kinds {
        var i :| 0 <= i < |kinds| && kinds[i] == Type(x);
      }
    }
    if Unknown in kinds {
      var i :| 0 <= i < |kinds| && kinds[i] == Unknown;
    }
  }

  lemma ClassifyAllKinds(parts: seq<string>)
    ensures forall x :: Type(x) in ClassifyAll(parts) <==> exists i :: 0 <= i < |parts| && ClassifyPart(parts[i]) == Type(x)
    ensures Unknown in ClassifyAll(parts) <==> exists i :: 0 <= i < |parts| && ClassifyPart(parts[i]) == Unknown
    ensures AnyType(ClassifyAll(parts)) <==> exists i :: 0 <= i < |parts| && ClassifyPart(parts[i]).Type?
  {
    KindsOf(MapKinds(ClassifyPart, parts), parts, ClassifyPart);
  }

  /** A cell parses iff it names at least one type and nothing unrecognised;
      the types then come sorted, without repeats, and are exactly the ones
      its alternatives name. */
  lemma ParseDocTypeCellSpec(cell: string)
    ensures ParseDocTypeCell(cell).Success? <==>
      Trim(cell) != [] && NormalizeCell(Trim(cell)) != []
      && (exists i :: 0 <= i < |Parts(cell)| && ClassifyPart(Parts(cell)[i]).Type?)
      && (forall i :: 0 <= i < |Parts(cell)| ==> ClassifyPart(Parts(cell)[i]) != Unknown)
    ensures ParseDocTypeCell(cell).Success? ==>
      var types := ParseDocTypeCell(cell).value;
      Sorted(types, StringLe()) && Distinct(types)
      && (forall x :: x in types ==> x in SchemaTypes)
      && forall x :: x in types <==> exists i :: 0 <= i < |Parts(cell)| && ClassifyPart(Parts(cell)[i]) == Type(x)
  {
    if Trim(cell) != [] && NormalizeCell(Trim(cell)) != [] {
      ParseDocTypeCellKinds(cell);
      ClassifyAllKinds(Parts(cell));
    }
  }

  /** A lower-case word passes the token clean-up unchanged. */
  lemma {:induction false} LowerWordLowered(w: string)
    requires Every(w, IsLower)
    ensures Lowered(w) == w
  {
    EveryIndex(w, IsLower);
    LowerOfLower(w);
    PunctuationToSpaceWord(w);
    CollapseSpacesWord(w);
    assert forall i :: 0 <= i < |w| ==> !IsSpace(w[i]);
  }

  lemma LowerOfLower(w: string)
    requires forall i :: 0 <= i < |w| ==> IsLower(w[i])
    ensures Lower(w) == w
  {
    assert forall i :: 0 <= i < |w| ==> Lower(w)[i] == w[i];
  }

  lemma {:induction false} PunctuationToSpaceWord(w: string)
    requires Every(w, IsLower)
    ensures PunctuationToSpace(w) == w
  {
    if w != [] {
      PunctuationToSpaceWord(w[1..]);
    }
  }

  lemma {:induction false} CollapseSpacesWord(w: string)
    requires Every(w, IsLower)
    ensures CollapseSpaces(w) == w
  {
    if w != [] {
      CollapseSpacesWord(w[1..]);
    }
  }

  /** A lower-case spelling of a type, without array marks, is that type. */
  lemma ClassifyWord(w: string)
    requires w != [] && Every(w, IsLower) && Spelled(w).Some?
    requires !IsArrayGeneric(w) && !SchemaMarkdown.EndsWithBrackets(w)
    ensures ClassifyPart(w) == Type(Spelled(w).value)
  {
    LowerWordLowered(w);
  }

  lemma ClassifyInt()
    ensures ClassifyPart("int") == Type("integer")
  {
    var w := "int";
    assert Spelled(w) == Some("integer");
    assert Every(w, IsLower) by { assert IsLower(w[0]) && IsLower(w[1]) && IsLower(w[2]); }
    ClassifyWord(w);
  }

  lemma ClassifyNull()
    ensures ClassifyPart("null") == Type("null")
  {
    var w := "null";
    SpelledNull();
    assert Every(w, IsLower) by { assert IsLower(w[0]) && IsLower(w[1]) && IsLower(w[2]) && IsLower(w[3]); }
    assert w[|w| - 1] == 'l';
    ClassifyWord(w);
  }

  lemma SpelledNull()
    ensures Spelled("null") == Some("null")
  {
    var w := "null";
    assert w[0] == 'n';
    assert w != "bool" && w != "string" && w != "int" && w != "integer" && w != "number";
  }

  lemma NullableIntBackticks()
    ensures ReplaceAll("`int\\|null`", "`", "") == "int\\|null"
  {
    var m := "int\\|null";
    assert "`int\\|null`" == "`" + m + "`";
    assert '`' !in m;
    ReplaceWrapped(m, "`", "");
    assert "" + m + "" == m;
  }

  lemma NullableIntBold()
    ensures ReplaceAll("int\\|null", "**", "") == "int\\|null"
  {
    ReplaceSkip("int\\|null", [], "**", "");
    assert "int\\|null" + [] == "int\\|null";
  }

  lemma NullableIntPipe()
    ensures ReplaceAll("int\\|null", "\\|", "|") == "int|null"
  {
    var a, b := "int", "null";
    assert "int\\|null" == a + "\\|" + b;
    assert '\\' !in a && '\\' !in b;
    ReplaceOnce(a, b, "\\|", "|");
    assert a + "|" + b == "int|null";
  }

  lemma NullableIntOr()
    ensures ReplaceOr("int|null") == "int|null"
    ensures Trim("int|null") == "int|null"
  {
    assert Every("int|null", (x: char) => !IsSpace(x));
    EveryIndex("int|null", (x: char) => !IsSpace(x));
  }

  lemma NullableIntNormalized()
    ensures NormalizeCell("`int\\|null`") == "int|null"
  {
    assert ReplaceBr("`int\\|null`") == "`int\\|null`";
    NullableIntBackticks();
    NullableIntBold();
    NullableIntPipe();
    NullableIntOr();
  }

  lemma NullableIntSplit()
    ensures UnionParts("int|null") == ["int", "null"]
  {
    var parts := ["int", "null"];
    assert Join(parts, "|") == "int|null";
    assert forall i :: 0 <= i < |parts| ==> parts[i] != [] && '|' !in parts[i];
    assert forall i, k :: 0 <= i < |parts| && 0 <= k < |parts[i]| ==> !IsSpace(parts[i][k]);
    UnionPartsOfJoin(parts);
  }

  /** Words free of pipes and spaces, joined by pipes, split back into the
      same words. */
  lemma UnionPartsOfJoin(parts: seq<string>)
    requires |parts| >= 1
    requires forall i :: 0 <= i < |parts| ==> parts[i] != [] && '|' !in parts[i]
    requires forall i, k :: 0 <= i < |parts| && 0 <= k < |parts[i]| ==> !IsSpace(parts[i][k])
    ensures UnionParts(Join(parts, "|")) == parts
  {
    JoinSplit(parts, '|');
    var trimmed := SchemaMarkdown.TrimAll(parts);
    assert trimmed == parts;
    NonEmptyKeepsAll(parts);
  }

  lemma NullableIntParts()
    ensures Trim("`int\\|null`") == "`int\\|null`"
    ensures Parts("`int\\|null`") == ["int", "null"]
  {
    var c := "`int\\|null`";
    assert c[0] == '`' && c[|c| - 1] == '`';
    TrimOfTrimmed(c);
    NullableIntNormalized();
    NullableIntSplit();
  }

  lemma NullableIntKinds()
    ensures ClassifyAll(["int", "null"]) == [Type("integer"), Type("null")]
  {
    ClassifyInt();
    ClassifyNull();
  }

  lemma NullableIntVerdict()
    ensures ParseKinds([Type("integer"), Type("null")]) == Success(["integer", "null"])
  {
    var kinds := [Type("integer"), Type("null")];
    NullableIntFound();
    IntegerBeforeNull();
    SortOfSorted(["integer", "null"], StringLe());
    assert Unknown !in kinds;
  }

  lemma NullableIntFound()
    ensures FoundTypes([Type("integer"), Type("null")], []) == ["integer", "null"]
  {
    var kinds := [Type("integer"), Type("null")];
    assert kinds[1..] == [Type("null")];
    assert AddType([], "integer") == ["integer"];
    assert "null" != "integer";
    assert AddType(["integer"], "null") == ["integer", "null"];
    assert FoundTypes([Type("null")], ["integer"]) == FoundTypes([], ["integer", "null"]);
  }

  lemma IntegerBeforeNull()
    ensures Sorted(["integer", "null"], StringLe())
  {
    var a, b := "integer", "null";
    assert a[0] == 'i' && b[0] == 'n';
    assert TextLe(a, b);
  }

  /** The nullable integer of the documentation table: `int\|null` in code
      marks reads as the two types `integer` and `null`. */
  lemma NullableIntCell()
    ensures ParseDocTypeCell("`int\\|null`") == Success(["integer", "null"])
  {
    NullableIntNormalized();
    NullableIntParts();
    NullableIntKinds();
    NullableIntVerdict();
  }
}
