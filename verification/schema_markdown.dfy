/** The Markdown side of the documentation checker: table rows split into
    cells, separator rows, ATX headings outside code fences, the heading
    context of a line, and dotted field paths with `[]` array suffixes. */
module SchemaMarkdown {
  import opened Wrappers
  import opened Strings

  // ---------------------------------------------------------------- cells

  /** A `|` that ends a cell: one not preceded by a backslash. */
  predicate IsSplitAt(body: string, i: int)
    requires 0 <= i < |body|
  {
    body[i] == '|' && (i == 0 || body[i - 1] != '\\')
  }

  /** Number of cell-ending pipes among the first `n` characters. */
  function SplitCount(body: string, n: nat): nat
    requires n <= |body|
  {
    if n == 0 then 0 else SplitCount(body, n - 1) + (if IsSplitAt(body, n - 1) then 1 else 0)
  }

  /** The character loop of the splitter, before the cells are trimmed. */
  function ScanCells(body: string, i: nat, cur: string, acc: seq<string>): (r: seq<string>)
    requires i <= |body|
    ensures |r| > |acc| && r[..|acc|] == acc
    ensures |r| == |acc| + 1 + SplitCount(body, |body|) - SplitCount(body, i)
    decreases |body| - i
  {
    SplitCountMono(body, i, |body|);
    if i == |body| then acc + [cur]
    else if IsSplitAt(body, i) then ScanCells(body, i + 1, [], acc + [cur])
    else ScanCells(body, i + 1, cur + [body[i]], acc)
  }

  lemma {:induction false} SplitCountMono(body: string, i: nat, j: nat)
    requires i <= j <= |body|
    ensures SplitCount(body, i) <= SplitCount(body, j)
    decreases j - i
  {
    if i < j {
      SplitCountMono(body, i, j - 1);
    }
  }

  function RawCells(body: string): seq<string> {
    ScanCells(body, 0, [], [])
  }

  /** The text between the outer pipes of a table row, or None when the
      trimmed line does not both start and end with `|`. */
  function RowBody(line: string): (r: Option<string>)
    ensures r.Some? <==> IsTableLine(line)
    ensures r.Some? ==> (Trim(line) == "|" && r.value == []) || Trim(line) == "|" + r.value + "|"
  {
    FramedBody(Trim(line))
  }

  /** The text between the first and the last `|` of a framed text. */
  function FramedBody(t: string): (r: Option<string>)
    ensures r.Some? <==> Framed(t)
    ensures r.Some? ==> (t == "|" && r.value == []) || t == "|" + r.value + "|"
  {
    if t == [] || t[0] != '|' || t[|t| - 1] != '|' then None
    else if |t| == 1 then Some([])
    else Some(t[1..|t| - 1])
  }

  /** Starts and ends with `|`. */
  predicate Framed(t: string) {
    t != [] && t[0] == '|' && t[|t| - 1] == '|'
  }

  predicate IsTableLine(line: string) {
    Framed(Trim(line))
  }

  function TrimAll(cells: seq<string>): (r: seq<string>)
    ensures |r| == |cells|
    ensures forall i :: 0 <= i < |r| ==> r[i] == Trim(cells[i])
  {
    if cells == [] then [] else [Trim(cells[0])] + TrimAll(cells[1..])
  }

  /** `splitTableCells`: the trimmed cells of a table row. There is one
      more cell than there are unescaped interior pipes. */
  function SplitTableCells(line: string): (r: Option<seq<string>>)
    ensures r.Some? <==> IsTableLine(line)
    ensures r.Some? ==> var body := RowBody(line).value;
      |r.value| == SplitCount(body, |body|) + 1
  {
    match RowBody(line)
    case None => None
    case Some(body) => Some(TrimAll(RawCells(body)))
  }

  /** Gluing the untrimmed cells back together with `|` gives the row body. */
  lemma RawCellsJoin(body: string)
    ensures Join(RawCells(body), "|") == body
  {
    ScanJoin(body, 0, [], []);
  }

  lemma {:induction false} ScanJoin(body: string, i: nat, cur: string, acc: seq<string>)
    requires i <= |body|
    requires Join(acc + [cur], "|") == body[..i]
    ensures Join(ScanCells(body, i, cur, acc), "|") == body
    decreases |body| - i
  {
    if i == |body| {
      assert body[..i] == body;
    } else if IsSplitAt(body, i) {
      JoinAppend(acc + [cur], [], "|");
      assert body[..i + 1] == body[..i] + "|";
      ScanJoin(body, i + 1, [], acc + [cur]);
    } else {
      var parts := acc + [cur];
      JoinExtendLast(parts, body[i], "|");
      assert parts[..|parts| - 1] + [parts[|parts| - 1] + [body[i]]] == acc + [cur + [body[i]]];
      assert body[..i + 1] == body[..i] + [body[i]];
      ScanJoin(body, i + 1, cur + [body[i]], acc);
    }
  }

  /** Every `|` left inside a cell is escaped by the backslash just before it. */
  predicate PipesEscaped(cell: string) {
    forall k :: 0 <= k < |cell| && cell[k] == '|' ==> k > 0 && cell[k - 1] == '\\'
  }

  lemma RawCellsEscaped(body: string)
    ensures forall k :: 0 <= k < |RawCells(body)| ==> PipesEscaped(RawCells(body)[k])
  {
    ScanEscaped(body, 0, [], []);
  }

  lemma {:induction false} ScanEscaped(body: string, i: nat, cur: string, acc: seq<string>)
    requires i <= |body|
    requires forall k :: 0 <= k < |acc| ==> PipesEscaped(acc[k])
    requires PipesEscaped(cur)
    requires cur != [] ==> i > 0 && cur[|cur| - 1] == body[i - 1]
    requires cur == [] && i > 0 ==> body[i - 1] == '|'
    ensures forall k :: 0 <= k < |ScanCells(body, i, cur, acc)| ==> PipesEscaped(ScanCells(body, i, cur, acc)[k])
    decreases |body| - i
  {
    if i == |body| {
      assert forall k :: 0 <= k < |acc + [cur]| ==> (acc + [cur])[k] == if k < |acc| then acc[k] else cur;
    } else if IsSplitAt(body, i) {
      assert forall k :: 0 <= k < |acc + [cur]| ==> (acc + [cur])[k] == if k < |acc| then acc[k] else cur;
      ScanEscaped(body, i + 1, [], acc + [cur]);
    } else {
      var next := cur + [body[i]];
      forall k | 0 <= k < |next| && next[k] == '|'
        ensures k > 0 && next[k - 1] == '\\'
      {
        if k == |cur| {
          assert body[i] == '|';
          assert i > 0 && body[i - 1] == '\\';
          assert cur != [];
        }
      }
      ScanEscaped(body, i + 1, next, acc);
    }
  }

  // ------------------------------------------------------ separator rows

  /** Drop one leading and one trailing colon, when present. */
  function StripColons(t: string): (b: string)
    ensures |b| <= |t|
  {
    var a := if t != [] && t[0] == ':' then t[1..] else t;
    if a != [] && a[|a| - 1] == ':' then a[..|a| - 1] else a
  }

  predicate AllDashes(b: string) {
    forall i :: 0 <= i < |b| ==> b[i] == '-'
  }

  /** `^:?-{3,}:?$` after all white space is removed. */
  predicate SeparatorCell(cell: string) {
    var b := StripColons(RemoveSpaces(cell));
    |b| >= 3 && AllDashes(b)
  }

  /** The regular expression read literally: an optional colon, a run of at
      least three dashes, an optional colon. */
  ghost predicate SeparatorShape(t: string) {
    exists p: nat, q: nat :: ShapeWith(t, p, q)
  }

  /** `t` is `p` colons, at least three dashes, then `q` colons. */
  predicate ShapeWith(t: string, p: nat, q: nat) {
    p <= 1 && q <= 1 && p + 3 + q <= |t|
    && (p == 1 ==> t[0] == ':') && (q == 1 ==> t[|t| - 1] == ':')
    && AllDashes(t[p..|t| - q])
  }

  /** Where `StripColons` cuts. */
  lemma StripColonsAt(t: string) returns (p: nat, q: nat)
    ensures p <= 1 && q <= 1 && p + q <= |t|
    ensures StripColons(t) == t[p..|t| - q]
    ensures p == 1 <==> t != [] && t[0] == ':'
    ensures q == 1 <==> |t| - p > 0 && t[|t| - 1] == ':'
  {
    p := if t != [] && t[0] == ':' then 1 else 0;
    var a := t[p..];
    q := if a != [] && a[|a| - 1] == ':' then 1 else 0;
    if a != [] {
      assert a[|a| - 1] == t[|t| - 1];
    }
    assert a[..|a| - q] == t[p..|t| - q];
  }

  lemma SeparatorCellShape(cell: string)
    ensures SeparatorCell(cell) <==> SeparatorShape(RemoveSpaces(cell))
  {
    var t := RemoveSpaces(cell);
    if SeparatorCell(cell) {
      StrippedShape(t);
    }
    if SeparatorShape(t) {
      ShapeStripped(t);
    }
  }

  lemma StrippedShape(t: string)
    requires |StripColons(t)| >= 3 && AllDashes(StripColons(t))
    ensures SeparatorShape(t)
  {
    var p, q := StripColonsAt(t);
    assert ShapeWith(t, p, q);
  }

  lemma ShapeStripped(t: string)
    requires SeparatorShape(t)
    ensures |StripColons(t)| >= 3 && AllDashes(StripColons(t))
  {
    var p': nat, q': nat :| ShapeWith(t, p', q');
    ShapeStrips(t, p', q');
  }

  /** The colons of a shape are exactly what `StripColons` cuts. */
  lemma ShapeStrips(t: string, p': nat, q': nat)
    requires ShapeWith(t, p', q')
    ensures StripColons(t) == t[p'..|t| - q']
  {
    var p, q := StripColonsAt(t);
    assert p == p' by {
      if p' == 0 {
        assert t[p'..|t| - q'][0] == t[0];
      }
    }
    assert q == q' by {
      if q' == 0 { assert t[p'..|t| - q'][|t| - q' - p' - 1] == '-'; }
    }
  }

  /** `isSeparatorRow`: a non-empty row every cell of which is a separator. */
  predicate IsSeparatorRow(cells: Option<seq<string>>) {
    cells.Some? && |cells.value| > 0
    && forall i :: 0 <= i < |cells.value| ==> SeparatorCell(cells.value[i])
  }

  lemma AlignedSeparator()
    ensures IsSeparatorRow(Some([":---:"]))
  {
    ColonsAround("---");
    assert ":" + "---" + ":" == ":---:";
  }

  /** A dash run between two colons is a separator cell. */
  lemma ColonsAround(d: string)
    requires |d| >= 3 && AllDashes(d)
    ensures SeparatorCell(":" + d + ":")
  {
    var t := ":" + d + ":";
    assert forall i :: 0 <= i < |t| ==> t[i] == ':' || t[i] == '-';
    assert RemoveSpaces(t) == t;
    assert t[1..] == d + ":";
    assert (d + ":")[..|d|] == d;
  }

  /** Two dashes are not enough. */
  lemma ShortSeparator()
    ensures !IsSeparatorRow(Some(["--"]))
  {
    assert RemoveSpaces("--") == "--";
    assert StripColons("--") == "--";
    assert !SeparatorCell(Some(["--"]).value[0]);
  }

  // ------------------------------------------------------------- headings

  datatype Heading = Heading(level: nat, text: string, line: nat)
  datatype HeadingMatch = HeadingMatch(level: nat, text: string)

  /** `^(#{1,6})\s+(.+?)\s*$` with the text trimmed. */
  function HeadingOf(line: string): (r: Option<HeadingMatch>)
    ensures r.Some? ==> 1 <= r.value.level <= 6 && r.value.level < |line|
    ensures r.Some? ==> forall i :: 0 <= i < r.value.level ==> line[i] == '#'
    ensures r.Some? ==> IsSpace(line[r.value.level]) && IsTrimmed(r.value.text)
  {
    var h := LeadingCount(line, '#');
    LeadingCountRun(line, '#');
    if h < 1 || h > 6 || h == |line| || !IsSpace(line[h]) then None
    else match HeadingText(line[h..])
      case None => None
      case Some(text) => Some(HeadingMatch(h, text))
  }

  /** The text after the hashes. The lazy group needs one character, so a
      single space after the hashes is no heading, while two spaces make a
      heading with empty text. */
  function HeadingText(rest: string): (r: Option<string>)
    ensures r.Some? ==> IsTrimmed(r.value)
  {
    var w := LeadingSpaces(rest);
    if w < |rest| then
      var text := TrimEnd(rest[w..]);
      assert text != [] && text[0] == rest[w];
      Some(text)
    else if w >= 2 then Some([])
    else None
  }

  function Hashes(n: nat): (r: string)
    ensures |r| == n && forall i :: 0 <= i < n ==> r[i] == '#'
  {
    if n == 0 then [] else "#" + Hashes(n - 1)
  }

  /** Writing a heading and reading it back gives the same level and text,
      for any text that is non-empty and has no surrounding white space. */
  lemma HeadingRoundTrip(level: nat, text: string)
    requires 1 <= level <= 6
    requires text != [] && !IsSpace(text[0]) && !IsSpace(text[|text| - 1])
    ensures HeadingOf(Hashes(level) + " " + text) == Some(HeadingMatch(level, text))
  {
    HeadingHashes(level, text);
    HeadingTextOf(text);
  }

  /** The hashes of a written heading are counted, and a space follows them. */
  lemma HeadingHashes(level: nat, text: string)
    ensures LeadingCount(Hashes(level) + " " + text, '#') == level
    ensures (Hashes(level) + " " + text)[level..] == " " + text
  {
    var line := Hashes(level) + " " + text;
    LeadingCountExact(line, '#', level);
  }

  /** A single space before a trimmed text leaves that text. */
  lemma HeadingTextOf(text: string)
    requires text != [] && !IsSpace(text[0]) && !IsSpace(text[|text| - 1])
    ensures HeadingText(" " + text) == Some(text)
  {
    var rest := " " + text;
    assert rest[1..] == text;
    assert LeadingSpaces(rest) == 1;
  }

  lemma {:induction false} LeadingCountExact(s: string, c: char, n: nat)
    requires n <= |s| && (forall i :: 0 <= i < n ==> s[i] == c) && (n < |s| ==> s[n] != c)
    ensures LeadingCount(s, c) == n
  {
    if n > 0 {
      LeadingCountExact(s[1..], c, n - 1);
    }
  }

  /** The single-space quirk: `#` and one space is not a heading. */
  lemma BareMarkerIsNoHeading()
    ensures HeadingOf("# ") == None
    ensures HeadingOf("#  ") == Some(HeadingMatch(1, ""))
  {
    assert LeadingCount("# ", '#') == 1 by { LeadingCountExact("# ", '#', 1); }
    assert "# "[1..] == " ";
    assert LeadingSpaces(" ") == 1;
    assert LeadingCount("#  ", '#') == 1 by { LeadingCountExact("#  ", '#', 1); }
    assert "#  "[1..] == "  ";
    assert LeadingSpaces("  ") == 2;
  }

  /** `^\s*```` opens or closes a code fence. */
  predicate IsFenceLine(line: string) {
    var w := LeadingSpaces(line);
    w + 3 <= |line| && line[w] == '`' && line[w + 1] == '`' && line[w + 2] == '`'
  }

  /** Line `idx` (0-based) lies inside a fenced code block: an odd number
      of fence lines precede it. */
  predicate InFence(lines: seq<string>, idx: nat)
    requires idx <= |lines|
  {
    idx > 0 && (InFence(lines, idx - 1) != IsFenceLine(lines[idx - 1]))
  }

  /** Line `idx` is a heading that the collector reports. */
  predicate IsHeadingLine(lines: seq<string>, idx: nat)
    requires idx < |lines|
  {
    !IsFenceLine(lines[idx]) && !InFence(lines, idx) && HeadingOf(lines[idx]).Some?
  }

  /** `h` is what the collector reads from its line. */
  predicate Reported(lines: seq<string>, h: Heading) {
    1 <= h.line <= |lines| && IsHeadingLine(lines, h.line - 1)
    && HeadingOf(lines[h.line - 1]) == Some(HeadingMatch(h.level, h.text))
  }

  function CollectFrom(lines: seq<string>, idx: nat, inFence: bool): (r: seq<Heading>)
    requires idx <= |lines|
    ensures forall k :: 0 <= k < |r| ==> idx < r[k].line <= |lines| && 1 <= r[k].level <= 6
    ensures forall i, j :: 0 <= i < j < |r| ==> r[i].line < r[j].line
    decreases |lines| - idx
  {
    if idx == |lines| then []
    else if IsFenceLine(lines[idx]) then CollectFrom(lines, idx + 1, !inFence)
    else if inFence then CollectFrom(lines, idx + 1, inFence)
    else match HeadingOf(lines[idx])
      case None => CollectFrom(lines, idx + 1, inFence)
      case Some(m) => [Heading(m.level, m.text, idx + 1)] + CollectFrom(lines, idx + 1, inFence)
  }

  /** `collectHeadings`: headings outside code fences, with 1-based line
      numbers, in document order. */
  function CollectHeadings(lines: seq<string>): (r: seq<Heading>)
    ensures forall k :: 0 <= k < |r| ==> 1 <= r[k].line <= |lines| && 1 <= r[k].level <= 6
    ensures forall i, j :: 0 <= i < j < |r| ==> r[i].line < r[j].line
  {
    CollectFrom(lines, 0, false)
  }

  /** Every reported heading is a heading line outside any fence, with the
      level and text the line reads as; every such line is reported. */
  lemma CollectHeadingsExact(lines: seq<string>)
    ensures forall h | h in CollectHeadings(lines) :: Reported(lines, h)
    ensures forall idx | 0 <= idx < |lines| && IsHeadingLine(lines, idx) ::
      exists h :: h in CollectHeadings(lines) && h.line == idx + 1
  {
    CollectFromSound(lines, 0, false);
    CollectFromComplete(lines, 0, false);
  }

  /** The fence state after line `idx`. */
  lemma FenceStep(lines: seq<string>, idx: nat)
    requires idx < |lines|
    ensures InFence(lines, idx + 1) == (if IsFenceLine(lines[idx]) then !InFence(lines, idx) else InFence(lines, idx))
  {
  }

  lemma {:induction false} CollectFromSound(lines: seq<string>, idx: nat, inFence: bool)
    requires idx <= |lines|
    requires inFence == InFence(lines, idx)
    ensures forall h | h in CollectFrom(lines, idx, inFence) :: Reported(lines, h)
    decreases |lines| - idx
  {
    if idx < |lines| {
      FenceStep(lines, idx);
      var next := if IsFenceLine(lines[idx]) then !inFence else inFence;
      CollectFromSound(lines, idx + 1, next);
    }
  }

  lemma {:induction false} CollectFromComplete(lines: seq<string>, idx: nat, inFence: bool)
    requires idx <= |lines|
    requires inFence == InFence(lines, idx)
    ensures forall j | idx <= j < |lines| && IsHeadingLine(lines, j) ::
      exists h :: h in CollectFrom(lines, idx, inFence) && h.line == j + 1
    decreases |lines| - idx
  {
    if idx < |lines| {
      FenceStep(lines, idx);
      var next := if IsFenceLine(lines[idx]) then !inFence else inFence;
      CollectFromComplete(lines, idx + 1, next);
      var r := CollectFrom(lines, idx, inFence);
      if IsHeadingLine(lines, idx) {
        var m := HeadingOf(lines[idx]).value;
        assert Heading(m.level, m.text, idx + 1) in r;
      }
    }
  }

  // ------------------------------------------------------ heading context

  /** Levels strictly increase from the outermost heading inwards. */
  predicate Nested(ctx: seq<Heading>) {
    forall i, j :: 0 <= i < j < |ctx| ==> ctx[i].level < ctx[j].level
  }

  /** Close every open heading at `level` or deeper. */
  function PopTo(ctx: seq<Heading>, level: nat): (r: seq<Heading>)
    ensures |r| <= |ctx| && r == ctx[..|r|]
    ensures r != [] ==> r[|r| - 1].level < level
  {
    if ctx != [] && ctx[|ctx| - 1].level >= level then PopTo(ctx[..|ctx| - 1], level) else ctx
  }

  function ContextFrom(hs: seq<Heading>, lineNumber: int, k: nat, ctx: seq<Heading>): (r: seq<Heading>)
    requires k <= |hs|
    requires Nested(ctx)
    ensures Nested(r)
    decreases |hs| - k
  {
    if k == |hs| || hs[k].line > lineNumber then ctx
    else
      var popped := PopTo(ctx, hs[k].level);
      assert Nested(popped) by {
        assert forall i :: 0 <= i < |popped| ==> popped[i] == ctx[i];
      }
      ContextFrom(hs, lineNumber, k + 1, popped + [hs[k]])
  }

  /** `getHeadingContextForLine`: the chain of open headings at a line. */
  function HeadingContext(hs: seq<Heading>, lineNumber: int): (r: seq<Heading>)
    ensures Nested(r)
  {
    ContextFrom(hs, lineNumber, 0, [])
  }

  /** Length of the run of headings at or before the line; the loop stops
      at the first heading past it. */
  function Reach(hs: seq<Heading>, lineNumber: int): (n: nat)
    ensures n <= |hs|
    ensures n < |hs| ==> hs[n].line > lineNumber
  {
    if hs == [] || hs[0].line > lineNumber then 0 else 1 + Reach(hs[1..], lineNumber)
  }

  lemma {:induction false} ReachBefore(hs: seq<Heading>, lineNumber: int)
    ensures forall i :: 0 <= i < Reach(hs, lineNumber) ==> hs[i].line <= lineNumber
  {
    if hs != [] && hs[0].line <= lineNumber {
      ReachBefore(hs[1..], lineNumber);
    }
  }

  /** Heading `i` is superseded by a later heading of the same or higher rank. */
  predicate Closed(hs: seq<Heading>, i: int)
    requires 0 <= i < |hs|
  {
    exists j :: i < j < |hs| && hs[j].level <= hs[i].level
  }

  /** The headings still open after reading `hs`, in order. */
  function OpenFrom(hs: seq<Heading>, i: nat): (r: seq<Heading>)
    requires i <= |hs|
    decreases |hs| - i
  {
    if i == |hs| then [] else (if Closed(hs, i) then [] else [hs[i]]) + OpenFrom(hs, i + 1)
  }

  function Open(hs: seq<Heading>): seq<Heading> {
    OpenFrom(hs, 0)
  }

  function Shallower(s: seq<Heading>, level: nat): (r: seq<Heading>)
    ensures |r| <= |s|
  {
    if s == [] then [] else (if s[0].level < level then [s[0]] else []) + Shallower(s[1..], level)
  }

  lemma {:induction false} ShallowerAppend(a: seq<Heading>, b: seq<Heading>, level: nat)
    ensures Shallower(a + b, level) == Shallower(a, level) + Shallower(b, level)
  {
    if a == [] {
      assert a + b == b;
    } else {
      ShallowerAppend(a[1..], b, level);
      ShallowerCons(a + b, level);
      assert (a + b)[1..] == a[1..] + b;
      AppendAssoc(if a[0].level < level then [a[0]] else [], Shallower(a[1..], level), Shallower(b, level));
    }
  }

  lemma ShallowerCons(s: seq<Heading>, level: nat)
    requires s != []
    ensures Shallower(s, level) == (if s[0].level < level then [s[0]] else []) + Shallower(s[1..], level)
  {
  }

  /** On a nested chain, popping is filtering by level. */
  lemma {:induction false} PopIsShallower(ctx: seq<Heading>, level: nat)
    requires Nested(ctx)
    ensures PopTo(ctx, level) == Shallower(ctx, level)
    decreases |ctx|
  {
    if ctx != [] {
      var init := ctx[..|ctx| - 1];
      var last := ctx[|ctx| - 1];
      assert ctx == init + [last];
      ShallowerAppend(init, [last], level);
      assert Shallower([last], level) == if last.level < level then [last] else [];
      if last.level >= level {
        PopIsShallower(init, level);
      } else {
        AllShallower(init, level);
      }
    }
  }

  lemma {:induction false} AllShallower(s: seq<Heading>, level: nat)
    requires forall i :: 0 <= i < |s| ==> s[i].level < level
    ensures Shallower(s, level) == s
  {
    if s != [] {
      AllShallower(s[1..], level);
    }
  }

  /** Appending a heading closes exactly the open headings at its level or
      deeper. */
  lemma {:induction false} OpenFromSnoc(hs: seq<Heading>, h: Heading, i: nat)
    requires i <= |hs|
    ensures OpenFrom(hs + [h], i) == Shallower(OpenFrom(hs, i), h.level) + [h]
    decreases |hs| - i
  {
    var q := hs + [h];
    if i == |hs| {
      assert !Closed(q, i);
    } else {
      OpenFromSnoc(hs, h, i + 1);
      var head := if Closed(hs, i) then [] else [hs[i]];
      ShallowerAppend(head, OpenFrom(hs, i + 1), h.level);
      ClosedSnoc(hs, h, i);
      assert q[i] == hs[i];
      assert Shallower(head, h.level) == if Closed(q, i) then [] else [q[i]];
      AppendAssoc(Shallower(head, h.level), Shallower(OpenFrom(hs, i + 1), h.level), [h]);
    }
  }

  /** A heading is closed after an appended one exactly when it was closed
      already or the new one is of the same or higher rank. */
  lemma ClosedSnoc(hs: seq<Heading>, h: Heading, i: nat)
    requires i < |hs|
    ensures Closed(hs + [h], i) <==> Closed(hs, i) || h.level <= hs[i].level
  {
    var q := hs + [h];
    if Closed(q, i) && !Closed(hs, i) {
      var j :| i < j < |q| && q[j].level <= q[i].level;
      assert j == |hs|;
    }
    if Closed(hs, i) {
      var j :| i < j < |hs| && hs[j].level <= hs[i].level;
      assert q[j] == hs[j];
    }
    if h.level <= hs[i].level {
      assert q[|hs|] == h;
    }
  }

  /** One iteration of the loop keeps the context equal to the open headings. */
  lemma OpenStep(hs: seq<Heading>, k: nat, ctx: seq<Heading>)
    requires k < |hs|
    requires Nested(ctx) && ctx == Open(hs[..k])
    ensures PopTo(ctx, hs[k].level) + [hs[k]] == Open(hs[..k + 1])
  {
    var p := hs[..k];
    var h := hs[k];
    assert hs[..k + 1] == p + [h];
    calc {
      Open(hs[..k + 1]);
      OpenFrom(p + [h], 0);
      { OpenFromSnoc(p, h, 0); }
      Shallower(OpenFrom(p, 0), h.level) + [h];
      Shallower(ctx, h.level) + [h];
      { PopIsShallower(ctx, h.level); }
      PopTo(ctx, h.level) + [h];
    }
  }

  lemma {:induction false} ContextFromOpen(hs: seq<Heading>, lineNumber: int, k: nat, ctx: seq<Heading>)
    requires k <= Reach(hs, lineNumber)
    requires Nested(ctx) && ctx == Open(hs[..k])
    ensures ContextFrom(hs, lineNumber, k, ctx) == Open(hs[..Reach(hs, lineNumber)])
    decreases |hs| - k
  {
    if k < Reach(hs, lineNumber) {
      ReachBefore(hs, lineNumber);
      ContextStep(hs, lineNumber, k, ctx);
      OpenStep(hs, k, ctx);
      ContextFromOpen(hs, lineNumber, k + 1, PopTo(ctx, hs[k].level) + [hs[k]]);
    }
  }

  /** Popping to a heading's level and pushing it keeps the chain nested. */
  lemma PushNested(ctx: seq<Heading>, h: Heading)
    requires Nested(ctx)
    ensures Nested(PopTo(ctx, h.level) + [h])
  {
    var popped := PopTo(ctx, h.level);
    assert forall i :: 0 <= i < |popped| ==> popped[i] == ctx[i];
  }

  /** One step of the loop over a heading at or before the line. */
  lemma ContextStep(hs: seq<Heading>, lineNumber: int, k: nat, ctx: seq<Heading>)
    requires k < |hs| && hs[k].line <= lineNumber && Nested(ctx)
    ensures Nested(PopTo(ctx, hs[k].level) + [hs[k]])
    ensures ContextFrom(hs, lineNumber, k, ctx) == ContextFrom(hs, lineNumber, k + 1, PopTo(ctx, hs[k].level) + [hs[k]])
  {
    PushNested(ctx, hs[k]);
  }

  /** The context of a line is exactly the headings at or before it that no
      later heading at or before it has closed, in document order. */
  lemma HeadingContextIsOpen(hs: seq<Heading>, lineNumber: int)
    ensures HeadingContext(hs, lineNumber) == Open(hs[..Reach(hs, lineNumber)])
  {
    assert Open(hs[..0]) == [];
    ContextFromOpen(hs, lineNumber, 0, []);
  }

  /** Only headings at or before the line appear, and the last one of them
      is the innermost entry of the context. */
  lemma HeadingContextMembers(hs: seq<Heading>, lineNumber: int)
    ensures forall h | h in HeadingContext(hs, lineNumber) :: h in hs && h.line <= lineNumber
    ensures Reach(hs, lineNumber) > 0 ==>
      var r := HeadingContext(hs, lineNumber);
      r != [] && r[|r| - 1] == hs[Reach(hs, lineNumber) - 1]
  {
    var n := Reach(hs, lineNumber);
    ReachBefore(hs, lineNumber);
    HeadingContextIsOpen(hs, lineNumber);
    OpenFromMembers(hs[..n], 0);
    if n > 0 {
      var p := hs[..n];
      assert p == p[..n - 1] + [p[n - 1]];
      OpenFromSnoc(p[..n - 1], p[n - 1], 0);
    }
  }

  lemma {:induction false} OpenFromMembers(hs: seq<Heading>, i: nat)
    requires i <= |hs|
    ensures forall h | h in OpenFrom(hs, i) :: h in hs
    decreases |hs| - i
  {
    if i < |hs| {
      OpenFromMembers(hs, i + 1);
      OpenFromStep(hs, i);
    }
  }

  lemma OpenFromStep(hs: seq<Heading>, i: nat)
    requires i < |hs|
    ensures forall h | h in OpenFrom(hs, i) :: h == hs[i] || h in OpenFrom(hs, i + 1)
  {
  }

  // ---------------------------------------------------------- field paths

  /** One dotted step of a documented field path: `key[][]` is key `key`
      with array depth 2. */
  datatype PathSegment = PathSegment(key: string, arrayDepth: nat)

  predicate EndsWithBrackets(s: string) {
    |s| >= 2 && s[|s| - 2] == '[' && s[|s| - 1] == ']'
  }

  function Brackets(n: nat): (r: string)
    ensures |r| == 2 * n
    ensures forall i :: 0 <= i < |r| ==> r[i] == '[' || r[i] == ']'
  {
    if n == 0 then [] else Brackets(n - 1) + "[]"
  }

  function RenderSegment(p: PathSegment): string {
    p.key + Brackets(p.arrayDepth)
  }

  /** Strip trailing `[]` pairs, counting them. */
  function StripArrays(segment: string): (p: PathSegment)
    ensures !EndsWithBrackets(p.key)
    ensures RenderSegment(p) == segment
    decreases |segment|
  {
    if EndsWithBrackets(segment) then
      var q := StripArrays(segment[..|segment| - 2]);
      assert segment == segment[..|segment| - 2] + "[]";
      PathSegment(q.key, q.arrayDepth + 1)
    else PathSegment(segment, 0)
  }

  function StripAll(segments: seq<string>): (r: seq<PathSegment>)
    ensures |r| == |segments|
    ensures forall i :: 0 <= i < |r| ==> r[i] == StripArrays(segments[i])
  {
    if segments == [] then [] else [StripArrays(segments[0])] + StripAll(segments[1..])
  }

  function RenderAll(path: seq<PathSegment>): (r: seq<string>)
    ensures |r| == |path|
    ensures forall i :: 0 <= i < |r| ==> r[i] == RenderSegment(path[i])
  {
    if path == [] then [] else [RenderSegment(path[0])] + RenderAll(path[1..])
  }

  /** The dotted text of a field path. */
  function RenderPath(path: seq<PathSegment>): string {
    Join(RenderAll(path), ".")
  }

  /** The token after trimming and deleting all white space. */
  function Compact(token: string): string {
    RemoveSpaces(Trim(token))
  }

  predicate NoEmptySegment(segments: seq<string>) {
    forall i :: 0 <= i < |segments| ==> segments[i] != []
  }

  /** `parseFieldPathToken`: None for a blank token or one with an empty
      dotted segment (a leading, trailing or doubled dot). */
  function ParseFieldPathToken(token: string): (r: Option<seq<PathSegment>>)
    ensures r.Some? <==> Compact(token) != [] && NoEmptySegment(Split(Compact(token), '.'))
    ensures r.Some? ==> |r.value| == |Split(Compact(token), '.')|
    ensures r.Some? ==> forall i :: 0 <= i < |r.value| ==> !EndsWithBrackets(r.value[i].key) && '.' !in r.value[i].key
  {
    var compact := Compact(token);
    if compact == [] then None
    else
      var raw := Split(compact, '.');
      if !NoEmptySegment(raw) then None
      else
        var r := StripAll(raw);
        assert forall i :: 0 <= i < |r| ==> '.' !in r[i].key by {
          forall i | 0 <= i < |r| ensures '.' !in r[i].key {
            assert RenderSegment(r[i]) == raw[i];
            assert r[i].key == raw[i][..|r[i].key|];
          }
        }
        Some(r)
  }

  /** Rendering a parsed path gives back the compacted token. */
  lemma ParseThenRender(token: string)
    requires ParseFieldPathToken(token).Some?
    ensures RenderPath(ParseFieldPathToken(token).value) == Compact(token)
  {
    var raw := Split(Compact(token), '.');
    var path := ParseFieldPathToken(token).value;
    assert RenderAll(path) == raw;
    SplitJoin(Compact(token), '.');
  }

  lemma {:induction false} StripBrackets(key: string, n: nat)
    requires !EndsWithBrackets(key)
    ensures StripArrays(key + Brackets(n)) == PathSegment(key, n)
  {
    if n > 0 {
      BracketsSnoc(key, n);
      StripBrackets(key, n - 1);
    }
  }

  /** One more pair of brackets is one more step of the strip. */
  lemma BracketsSnoc(key: string, n: nat)
    requires n > 0
    ensures EndsWithBrackets(key + Brackets(n))
    ensures var s := key + Brackets(n); s[..|s| - 2] == key + Brackets(n - 1)
  {
    AppendAssoc(key, Brackets(n - 1), "[]");
    var u := key + Brackets(n - 1);
    assert (u + "[]")[..|u|] == u;
  }

  /** A path whose keys carry no dot, no white space and no trailing `[]`,
      and whose segments are all non-empty, parses back from its text. */
  lemma RenderThenParse(path: seq<PathSegment>)
    requires path != []
    requires forall i :: 0 <= i < |path| ==> '.' !in path[i].key && !EndsWithBrackets(path[i].key)
    requires forall i :: 0 <= i < |path| ==> path[i].key != [] || path[i].arrayDepth > 0
    requires forall i, k :: 0 <= i < |path| && 0 <= k < |path[i].key| ==> !IsSpace(path[i].key[k])
    ensures ParseFieldPathToken(RenderPath(path)) == Some(path)
  {
    var parts := RenderAll(path);
    var text := RenderPath(path);
    RenderedIsCompact(path);
    assert forall i :: 0 <= i < |parts| ==> '.' !in parts[i];
    JoinSplit(parts, '.');
    assert text != [] by {
      assert |parts[0]| > 0;
      if |parts| > 1 { JoinHead(parts, "."); }
    }
    forall i | 0 <= i < |path| ensures StripArrays(parts[i]) == path[i] {
      StripBrackets(path[i].key, path[i].arrayDepth);
    }
    assert StripAll(parts) == path;
  }

  lemma RenderedIsCompact(path: seq<PathSegment>)
    requires forall i, k :: 0 <= i < |path| && 0 <= k < |path[i].key| ==> !IsSpace(path[i].key[k])
    ensures Compact(RenderPath(path)) == RenderPath(path)
  {
    var parts := RenderAll(path);
    PartsSpaceFree(path);
    JoinAll(parts, ".", c => !IsSpace(c));
    CompactOfSpaceFree(RenderPath(path));
  }

  /** Rendering adds only brackets, never white space. */
  lemma PartsSpaceFree(path: seq<PathSegment>)
    requires forall i, k :: 0 <= i < |path| && 0 <= k < |path[i].key| ==> !IsSpace(path[i].key[k])
    ensures var parts := RenderAll(path);
      forall i, k :: 0 <= i < |parts| && 0 <= k < |parts[i]| ==> !IsSpace(parts[i][k])
  {
    var parts := RenderAll(path);
    forall i, k | 0 <= i < |parts| && 0 <= k < |parts[i]| ensures !IsSpace(parts[i][k]) {
      if k >= |path[i].key| {
        assert parts[i][k] == Brackets(path[i].arrayDepth)[k - |path[i].key|];
      }
    }
  }

  lemma CompactOfSpaceFree(t: string)
    requires forall i :: 0 <= i < |t| ==> !IsSpace(t[i])
    ensures Compact(t) == t
  {
  }

}
