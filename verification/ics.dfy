/** The iCalendar export of the event list: one VCALENDAR object whose
    lines are joined with CRLF (sections 3.1 and 3.4 of RFC 5545), holding
    one VEVENT component per dated event (section 3.6.1). Reading and
    converting dates is the date library's work and is passed in: the
    parsers give the calendar fields of a date string in UTC or in the
    local zone, `None` for an invalid date. Lines are neither folded nor
    escaped, as in the source. */
module Ics {
  import opened Wrappers
  import opened Strings

  /** The fields `YYYYMMDDTHHmmss` prints. */
  datatype DateTime = DateTime(year: nat, month: nat, day: nat, hour: nat, minute: nat, second: nat)

  function Two(n: nat): (r: string)
    ensures |r| >= 2 && AllDigits(r)
  {
    PadStart(NatText(n), 2, '0')
  }

  /** `YYYY`: the year zero-filled to at least four digits, with no sign
      past 9999. */
  function Year(y: nat): (r: string)
    ensures r != [] && IsDigit(r[|r| - 1])
  {
    var r := PadStart(NatText(y), 4, '0');
    assert r[|r| - 1] == NatText(y)[|NatText(y)| - 1];
    r
  }

  /** The year prints as digits that read back as the year. */
  lemma YearValue(y: nat)
    ensures |Year(y)| >= 4 && AllDigits(Year(y)) && DigitsValue(Year(y)) == y
  {
    var t := NatText(y);
    NatTextValue(y);
    if |t| < 4 {
      ZerosValue(4 - |t|, t);
    }
  }

  /** `format('YYYYMMDDTHHmmss')`; an invalid date prints "Invalid date". */
  function Stamp(d: Option<DateTime>): (r: string)
    ensures r != [] && r[|r| - 1] != 'Z'
  {
    match d
    case None => "Invalid date"
    case Some(t) =>
      var r := Year(t.year) + Two(t.month) + Two(t.day) + "T" + Two(t.hour) + Two(t.minute) + Two(t.second);
      assert r[|r| - 1] == Two(t.second)[|Two(t.second)| - 1];
      r
  }

  /** `formatDateForIcs(dateStr)`: "" for an empty string, the UTC stamp
      with 'Z' for a string ending in 'Z', else the floating local stamp. */
  function FormatDate(dateStr: string, utc: string -> Option<DateTime>, local: string -> Option<DateTime>): (r: string)
    ensures r == "" <==> dateStr == ""
    ensures dateStr != "" ==> (EndsWith(r, "Z") <==> EndsWith(dateStr, "Z"))
  {
    if dateStr == "" then ""
    else if EndsWith(dateStr, "Z") then Stamp(utc(dateStr)) + "Z"
    else Stamp(local(dateStr))
  }

  /** A valid UTC date prints as fifteen characters and a 'Z' for years
      up to 9999. */
  lemma UtcStampShape(dateStr: string, utc: string -> Option<DateTime>, local: string -> Option<DateTime>)
    requires dateStr != "" && EndsWith(dateStr, "Z") && utc(dateStr).Some? && utc(dateStr).value.year <= 9999
    requires var t := utc(dateStr).value; t.month < 100 && t.day < 100 && t.hour < 100 && t.minute < 100 && t.second < 100
    ensures |FormatDate(dateStr, utc, local)| == 16 && FormatDate(dateStr, utc, local)[8] == 'T'
  {
    var t := utc(dateStr).value;
    TwoDigits(t.month);
    TwoDigits(t.day);
    TwoDigits(t.hour);
    TwoDigits(t.minute);
    TwoDigits(t.second);
    FourDigits(t.year);
  }

  lemma TwoDigits(n: nat)
    requires n < 100
    ensures |Two(n)| == 2
  {
    if n >= 10 {
      assert NatText(n) == NatText(n / 10) + [DigitChar(n % 10)];
    }
  }

  lemma FourDigits(y: nat)
    requires y <= 9999
    ensures |Year(y)| == 4
  {
    NatTextLength(y, 4);
  }

  /** A number below `10^k` has at most `k` digits. */
  lemma {:induction false} NatTextLength(n: nat, k: nat)
    requires n < Power10(k)
    ensures |NatText(n)| <= k || (k == 0 && |NatText(n)| == 1)
    decreases k
  {
    if k > 0 && n >= 10 {
      NatTextLength(n / 10, k - 1);
    }
  }

  function Power10(k: nat): nat {
    if k == 0 then 1 else 10 * Power10(k - 1)
  }

  // ------------------------------------------------------- calendar

  /** A bonus is a string or an object with a text. */
  datatype Bonus = Text(s: string) | Described(text: string)

  /** The event properties the export reads. The three printed
      unconditionally are `None` when absent; for the others "" is an
      absent or empty property, which the source tests for truthiness. */
  datatype Event = Event(eventID: Option<string>, name: Option<string>, heading: string, eventType: Option<string>,
                         start: string, end: string, bonuses: seq<Bonus>)

  /** What a template literal prints for a property: its text, or
      "undefined" when it is absent. */
  function Shown(p: Option<string>): (r: string)
    ensures p.Some? ==> r == p.value
    ensures p.None? ==> r == "undefined"
  {
    match p
    case Some(t) => t
    case None => "undefined"
  }

  const Header: seq<string> := [
    "BEGIN:VCALENDAR",
    "VERSION:2.0",
    "PRODID:-//PokemonGO Data Explorer//EN",
    "CALSCALE:GREGORIAN",
    "METHOD:PUBLISH",
    "X-WR-CALNAME:Pokémon GO Events"
  ]

  const Footer := "END:VCALENDAR"

  function EventPage(id: Option<string>): string {
    "https://leekduck.com/events/" + Shown(id) + "/"
  }

  /** `heading: name` when there is a heading, else the name. */
  function Summary(e: Event): (r: string)
    ensures e.heading == "" ==> r == Shown(e.name)
    ensures e.heading != "" ==> StartsWith(r, e.heading + ": ") && EndsWith(r, Shown(e.name))
  {
    var name := Shown(e.name);
    if e.heading != "" then
      var r := e.heading + ": " + name;
      assert r[..|e.heading + ": "|] == e.heading + ": ";
      assert r[|r| - |name|..] == name;
      r
    else name
  }

  function BonusText(b: Bonus): string {
    match b
    case Text(s) => s
    case Described(t) => t
  }

  function BonusTexts(bs: seq<Bonus>): (r: seq<string>)
    ensures |r| == |bs| && forall i :: 0 <= i < |bs| ==> r[i] == BonusText(bs[i])
  {
    seq(|bs|, i requires 0 <= i < |bs| => BonusText(bs[i]))
  }

  /** The description: the type, the bonuses when there are any, and the
      event page, separated by the two characters '\' 'n'. */
  function Description(e: Event): (r: string)
    ensures StartsWith(r, "Type: " + Shown(e.eventType) + Nl)
    ensures EndsWith(r, Nl + "More info: " + EventPage(e.eventID))
  {
    var head := "Type: " + Shown(e.eventType) + Nl;
    var bonuses := if |e.bonuses| > 0 then "Bonuses: " + Join(BonusTexts(e.bonuses), ", ") + Nl else "";
    var tail := Nl + "More info: " + EventPage(e.eventID);
    Around(head, bonuses, tail);
    head + bonuses + tail
  }

  /** The escaped line break the description uses. */
  const Nl := "\\n"

  lemma Around(a: string, b: string, c: string)
    ensures StartsWith(a + b + c, a) && EndsWith(a + b + c, c)
  {
    assert (a + b + c)[..|a|] == a;
    assert (a + b + c)[|a + b|..] == c;
  }

  /** The VEVENT lines of one event. */
  function Block(e: Event, stamp: string, utc: string -> Option<DateTime>, local: string -> Option<DateTime>): (r: seq<string>)
    ensures |r| == 9 && r[0] == "BEGIN:VEVENT" && r[8] == "END:VEVENT"
    ensures r[1] == "UID:" + Shown(e.eventID) + "@pokemn.quest"
    ensures r[5] == "SUMMARY:" + Summary(e)
    ensures r[7] == "URL:" + EventPage(e.eventID)
  {
    [ "BEGIN:VEVENT",
      "UID:" + Shown(e.eventID) + "@pokemn.quest",
      "DTSTAMP:" + stamp,
      "DTSTART:" + FormatDate(e.start, utc, local),
      "DTEND:" + FormatDate(e.end, utc, local),
      "SUMMARY:" + Summary(e),
      "DESCRIPTION:" + Description(e),
      "URL:" + EventPage(e.eventID),
      "END:VEVENT" ]
  }

  predicate Dated(e: Event) {
    e.start != "" && e.end != ""
  }

  /** The dated events, in input order. */
  function DatedOnly(events: seq<Event>): (r: seq<Event>)
    ensures forall e :: e in r <==> e in events && Dated(e)
  {
    if events == [] then []
    else if Dated(events[0]) then [events[0]] + DatedOnly(events[1..])
    else DatedOnly(events[1..])
  }

  /** The line groups of the events, one after the other. */
  function Concat(es: seq<Event>, group: Event -> seq<string>): (r: seq<string>)
    decreases |es|
  {
    if es == [] then [] else group(es[0]) + Concat(es[1..], group)
  }

  /** With groups of nine lines, group `i` sits at lines `9 * i` to
      `9 * i + 8`. */
  lemma {:induction false} ConcatAt(es: seq<Event>, group: Event -> seq<string>, i: nat)
    requires forall e :: |group(e)| == 9
    requires i < |es|
    ensures |Concat(es, group)| == 9 * |es|
    ensures Concat(es, group)[9 * i..9 * i + 9] == group(es[i])
    decreases |es|
  {
    ConcatLength(es, group);
    if i > 0 {
      ConcatAt(es[1..], group, i - 1);
    }
  }

  lemma {:induction false} ConcatLength(es: seq<Event>, group: Event -> seq<string>)
    requires forall e :: |group(e)| == 9
    ensures |Concat(es, group)| == 9 * |es|
    decreases |es|
  {
    if es != [] {
      ConcatLength(es[1..], group);
    }
  }

  function BlockOf(stamp: string, utc: string -> Option<DateTime>, local: string -> Option<DateTime>): Event -> seq<string> {
    e => Block(e, stamp, utc, local)
  }

  const Crlf := "\r\n"

  /** The calendar lines: header, the blocks, and the closing line. */
  function Lines(events: seq<Event>, stamp: string, utc: string -> Option<DateTime>, local: string -> Option<DateTime>): (r: seq<string>)
    ensures |r| == 7 + 9 * |DatedOnly(events)|
    ensures r[..6] == Header && r[|r| - 1] == Footer
  {
    ConcatLength(DatedOnly(events), BlockOf(stamp, utc, local));
    Header + Concat(DatedOnly(events), BlockOf(stamp, utc, local)) + [Footer]
  }

  /** `generateIcs(events)`: the lines joined with CRLF; `stamp` is the
      formatted time of the call. */
  function GenerateIcs(events: seq<Event>, stamp: string, utc: string -> Option<DateTime>, local: string -> Option<DateTime>): (r: string)
    ensures StartsWith(r, Header[0] + Crlf)
    ensures EndsWith(r, Crlf + Footer)
  {
    var ls := Lines(events, stamp, utc, local);
    Frame(ls, Crlf);
    Join(ls, Crlf)
  }

  lemma Frame(ls: seq<string>, sep: string)
    requires |ls| >= 2
    ensures StartsWith(Join(ls, sep), ls[0] + sep)
    ensures EndsWith(Join(ls, sep), sep + ls[|ls| - 1])
  {
    FrameHead(ls, sep);
    FrameTail(ls, sep);
  }

  lemma FrameHead(ls: seq<string>, sep: string)
    requires |ls| >= 2
    ensures StartsWith(Join(ls, sep), ls[0] + sep)
  {
    var rest := Join(ls[1..], sep);
    JoinHead(ls, sep);
    assert Join(ls, sep) == (ls[0] + sep) + rest;
    PrefixOfAppend(ls[0] + sep, rest);
  }

  lemma FrameTail(ls: seq<string>, sep: string)
    requires |ls| >= 2
    ensures EndsWith(Join(ls, sep), sep + ls[|ls| - 1])
  {
    var init, last := ls[..|ls| - 1], ls[|ls| - 1];
    assert ls == init + [last];
    JoinAppend(init, last, sep);
    AppendAssoc(Join(init, sep), sep, last);
    SuffixOfAppend(Join(init, sep), sep + last);
  }

  lemma PrefixOfAppend(a: string, b: string)
    ensures StartsWith(a + b, a)
  {
    assert (a + b)[..|a|] == a;
  }

  lemma SuffixOfAppend(a: string, b: string)
    ensures EndsWith(a + b, b)
  {
    assert (a + b)[|a|..] == b;
  }

  /** The `i`-th block of the calendar is the block of the `i`-th dated
      event: every dated event appears once, in input order, and nothing
      else does. */
  lemma BlockAt(events: seq<Event>, stamp: string, utc: string -> Option<DateTime>, local: string -> Option<DateTime>, i: nat)
    requires i < |DatedOnly(events)|
    ensures var ls := Lines(events, stamp, utc, local);
      ls[6 + 9 * i..15 + 9 * i] == Block(DatedOnly(events)[i], stamp, utc, local)
  {
    var dated, group := DatedOnly(events), BlockOf(stamp, utc, local);
    LinesFrame(events, stamp, utc, local);
    HeaderSize();
    GroupAt(Lines(events, stamp, utc, local), Header, dated, group, i);
  }

  lemma LinesFrame(events: seq<Event>, stamp: string, utc: string -> Option<DateTime>, local: string -> Option<DateTime>)
    ensures Lines(events, stamp, utc, local) == Header + Concat(DatedOnly(events), BlockOf(stamp, utc, local)) + [Footer]
  {
  }

  /** Group `i` of nine lines sits past the six header lines at lines
      `6 + 9 * i` on. */
  lemma GroupAt(ls: seq<string>, head: seq<string>, es: seq<Event>, group: Event -> seq<string>, i: nat)
    requires forall e :: |group(e)| == 9
    requires |head| == 6 && i < |es| && ls == head + Concat(es, group) + [Footer] && |ls| == 7 + 9 * |es|
    ensures ls[6 + 9 * i..15 + 9 * i] == group(es[i])
  {
    var body := Concat(es, group);
    ConcatAt(es, group, i);
    Middle(head, body, [Footer], 9 * i, 9 * i + 9);
  }

  lemma HeaderSize()
    ensures |Header| == 6
  {
  }

  lemma Middle<T>(a: seq<T>, b: seq<T>, c: seq<T>, x: nat, y: nat)
    requires x <= y <= |b|
    ensures (a + b + c)[|a| + x..|a| + y] == b[x..y]
  {
  }

  /** Counterpart of the line join: split on CR and drop the LF that starts
      every later piece. */
  function SplitCrlf(s: string): (r: seq<string>)
    ensures |r| >= 1
  {
    SplitPair(s, '\r', '\n')
  }

  function SplitPair(s: string, c: char, d: char): (r: seq<string>)
    ensures |r| >= 1
  {
    var parts := Split(s, c);
    [parts[0]] + seq(|parts| - 1, i requires 0 <= i < |parts| - 1 => DropLead(parts[i + 1], d))
  }

  function DropLead(p: string, d: char): string {
    if p != [] && p[0] == d then p[1..] else p
  }

  function Led(ls: seq<string>, d: char): (r: seq<string>)
    ensures |r| == |ls| && forall i :: 0 <= i < |ls| ==> r[i] == [d] + ls[i]
  {
    seq(|ls|, i requires 0 <= i < |ls| => [d] + ls[i])
  }

  lemma JoinPrefixFirst(pre: string, x: string, rest: seq<string>, sep: string)
    ensures Join([pre + x] + rest, sep) == pre + Join([x] + rest, sep)
  {
    if rest != [] {
      JoinHead([pre + x] + rest, sep);
      JoinHead([x] + rest, sep);
      assert ([pre + x] + rest)[1..] == rest == ([x] + rest)[1..];
    }
  }

  /** Joining with the pair `c d` is joining with `c` once every later line
      starts with `d`. */
  lemma {:induction false} PairAsSingle(head: string, ls: seq<string>, c: char, d: char)
    ensures Join([head] + ls, [c, d]) == Join([head] + Led(ls, d), [c])
    decreases |ls|
  {
    if ls != [] {
      PairAsSingle(ls[0], ls[1..], c, d);
      assert [ls[0]] + ls[1..] == ls;
      PairStep(head, ls[0], ls[1..], c, d);
    }
  }

  /** One more line in front keeps the two joins equal. */
  lemma PairStep(head: string, x: string, tail: seq<string>, c: char, d: char)
    requires Join([x] + tail, [c, d]) == Join([x] + Led(tail, d), [c])
    ensures Join([head] + ([x] + tail), [c, d]) == Join([head] + Led([x] + tail, d), [c])
  {
    var led := Led(tail, d);
    var j := Join([x] + led, [c]);
    JoinCons(head, [x] + tail, [c, d]);
    LedCons(x, tail, d);
    JoinCons(head, [[d] + x] + led, [c]);
    JoinPrefixFirst([d], x, led, [c]);
    assert head + [c, d] + j == head + [c] + ([d] + j);
  }

  lemma LedCons(x: string, tail: seq<string>, d: char)
    ensures Led([x] + tail, d) == [[d] + x] + Led(tail, d)
  {
  }

  /** Lines without `c` come back from their join with `c d` unchanged. */
  lemma PairRoundTrip(ls: seq<string>, c: char, d: char)
    requires ls != [] && forall i :: 0 <= i < |ls| ==> c !in ls[i]
    requires c != d
    ensures SplitPair(Join(ls, [c, d]), c, d) == ls
  {
    SplitMarked(ls, c, d);
    Unmark(Join(ls, [c, d]), ls[0], ls[1..], c, d);
  }

  /** Splitting the join at `c` leaves the later lines led by `d`. */
  lemma SplitMarked(ls: seq<string>, c: char, d: char)
    requires ls != [] && forall i :: 0 <= i < |ls| ==> c !in ls[i]
    requires c != d
    ensures Split(Join(ls, [c, d]), c) == [ls[0]] + Led(ls[1..], d)
  {
    var marked := [ls[0]] + Led(ls[1..], d);
    assert ls == [ls[0]] + ls[1..];
    PairAsSingle(ls[0], ls[1..], c, d);
    MarkedFree(ls, c, d);
    JoinSplit(marked, c);
  }

  lemma MarkedFree(ls: seq<string>, c: char, d: char)
    requires ls != [] && forall i :: 0 <= i < |ls| ==> c !in ls[i]
    requires c != d
    ensures var marked := [ls[0]] + Led(ls[1..], d);
      forall i :: 0 <= i < |marked| ==> c !in marked[i]
  {
  }

  lemma Unmark(s: string, head: string, rest: seq<string>, c: char, d: char)
    requires Split(s, c) == [head] + Led(rest, d)
    ensures SplitPair(s, c, d) == [head] + rest
  {
    var parts := Split(s, c);
    var r := SplitPair(s, c, d);
    forall i | 0 <= i < |rest|
      ensures r[i + 1] == rest[i]
    {
      assert parts[i + 1] == [d] + rest[i];
      assert DropLead([d] + rest[i], d) == rest[i];
    }
  }

  /** Lines without CR come back from the CRLF-joined text unchanged. */
  lemma CrlfRoundTrip(ls: seq<string>)
    requires ls != [] && forall i :: 0 <= i < |ls| ==> '\r' !in ls[i]
    ensures SplitCrlf(Join(ls, Crlf)) == ls
  {
    assert Crlf == ['\r', '\n'];
    PairRoundTrip(ls, '\r', '\n');
  }

  /** The calendar text splits back into its lines when no field holds a
      CR. */
  lemma CalendarLines(events: seq<Event>, stamp: string, utc: string -> Option<DateTime>, local: string -> Option<DateTime>)
    requires var ls := Lines(events, stamp, utc, local); forall i :: 0 <= i < |ls| ==> '\r' !in ls[i]
    ensures SplitCrlf(GenerateIcs(events, stamp, utc, local)) == Lines(events, stamp, utc, local)
  {
    CrlfRoundTrip(Lines(events, stamp, utc, local));
  }
}
