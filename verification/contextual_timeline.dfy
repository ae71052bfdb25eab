/** The timeline of the contextual aggregate: every event is either ending
    within a day, active for longer, starting within a week, or left out;
    each group is ordered for display. */
module ContextualTimeline {
  import opened Wrappers
  import opened Strings
  import opened Sorting
  import opened ContextualData

  const Hour: int := 60 * 60 * 1000
  const Day: int := 24 * Hour
  const Week: int := 7 * Day

  /** `date - now`; `None` is `NaN`. */
  function Until(t: Option<int>, now: int): (d: Option<int>)
    ensures d.Some? <==> t.Some?
    ensures d.Some? ==> d.value == t.value - now
  {
    if t.Some? then Some(t.value - now) else None
  }

  // ------------------------------------------------------------- priority

  /** The weight of an event type; unlisted types weigh 30. */
  function TypeWeight(eventType: string): (w: int)
    ensures 30 <= w <= 100
  {
    if eventType == "community-day" then 100
    else if eventType == "pokemon-go-tour" then 95
    else if eventType == "go-fest" then 95
    else if eventType == "raid-day" then 90
    else if eventType == "raid-hour" then 85
    else if eventType == "spotlight" then 80
    else if eventType == "team-go-rocket" then 75
    else if eventType == "go-rocket-takeover" then 75
    else if eventType == "event" then 70
    else if eventType == "raid-battles" then 60
    else if eventType == "season" then 50
    else if eventType == "research-breakthrough" then 45
    else if eventType == "go-battle-league" then 40
    else 30
  }

  /** Ends within a day from now, and has not ended. */
  predicate EndsSoon(untilEnd: Option<int>) {
    untilEnd.Some? && 0 < untilEnd.value <= Day
  }

  /** The priority score: type weight, 15 for shinies, 10 for bonuses and
      25 when the event ends within a day. */
  function Priority(e: Event, untilEnd: Option<int>): (p: int)
    ensures 30 <= p <= 150
  {
    TypeWeight(e.eventType)
    + (if e.hasShiny then 15 else 0)
    + (if e.hasBonuses then 10 else 0)
    + (if EndsSoon(untilEnd) then 25 else 0)
  }

  /** An event with no flags and no urgency scores exactly its type weight,
      and each flag and the urgency add a fixed bonus independently. */
  lemma PriorityBonuses(e: Event, untilEnd: Option<int>)
    ensures Priority(e.(hasShiny := false, hasBonuses := false), None) == TypeWeight(e.eventType)
    ensures Priority(e.(hasShiny := true), untilEnd) == Priority(e.(hasShiny := false), untilEnd) + 15
    ensures Priority(e.(hasBonuses := true), untilEnd) == Priority(e.(hasBonuses := false), untilEnd) + 10
    ensures Priority(e, untilEnd) == Priority(e, None) + (if EndsSoon(untilEnd) then 25 else 0)
  {
  }

  // -------------------------------------------------------------- buckets

  datatype Bucket = EndingSoon | Active | Upcoming | Dropped

  /** The group an event falls into at `now`. */
  function BucketOf(e: Event, now: int): (b: Bucket)
    ensures b == EndingSoon <==>
      e.start.Some? && e.end.Some? && e.start.value <= now < e.end.value && e.end.value - now <= Day
    ensures b == Active <==> e.start.Some? && e.end.Some? && e.start.value <= now && e.end.value - now > Day
    ensures b == Upcoming <==> e.start.Some? && now < e.start.value <= now + Week
  {
    var untilEnd, untilStart := Until(e.end, now), Until(e.start, now);
    if untilEnd.Some? && untilEnd.value > 0 && untilStart.Some? && untilStart.value <= 0 then
      if untilEnd.value <= Day then EndingSoon else Active
    else if untilStart.Some? && untilStart.value > 0 && untilStart.value <= Week then Upcoming
    else Dropped
  }

  /** An event placed on the timeline, with its score at `now`. */
  datatype Entry = Entry(event: Event, priority: int)

  datatype Timeline = Timeline(endingSoon: seq<Entry>, active: seq<Entry>, upcoming: seq<Entry>)

  function EntryOf(e: Event, now: int): Entry {
    Entry(e, Priority(e, Until(e.end, now)))
  }

  /** The entries of the events in bucket `b`, in input order. */
  function Collect(events: seq<Event>, now: int, b: Bucket): (r: seq<Entry>)
    ensures |r| <= |events|
    ensures forall x :: x in r <==> x.event in events && BucketOf(x.event, now) == b && x == EntryOf(x.event, now)
  {
    if events == [] then []
    else
      var rest := Collect(events[1..], now, b);
      assert forall e :: e in events <==> e == events[0] || e in events[1..];
      if BucketOf(events[0], now) == b then [EntryOf(events[0], now)] + rest else rest
  }

  /** Higher priority first (`b.priority - a.priority`). */
  function ByPriority(): (Entry, Entry) -> bool {
    (a: Entry, b: Entry) => a.priority >= b.priority
  }

  /** The start instant, for ordering upcoming events; every upcoming event
      has one. */
  function StartOf(x: Entry): int {
    x.event.start.GetOr(0)
  }

  /** Earlier start first (`new Date(a.start) - new Date(b.start)`). */
  function ByStart(): (Entry, Entry) -> bool {
    (a: Entry, b: Entry) => StartOf(a) <= StartOf(b)
  }

  lemma OrdersArePreorders()
    ensures TotalPreorder(ByPriority()) && TotalPreorder(ByStart())
  {
  }

  function BuildTimeline(events: seq<Event>, now: int): (t: Timeline)
    ensures multiset(t.endingSoon) == multiset(Collect(events, now, EndingSoon))
    ensures multiset(t.active) == multiset(Collect(events, now, Active))
    ensures multiset(t.upcoming) == multiset(Collect(events, now, Upcoming))
    ensures Sorted(t.endingSoon, ByPriority()) && Sorted(t.active, ByPriority())
    ensures Sorted(t.upcoming, ByStart())
  {
    OrdersArePreorders();
    SortSorted(Collect(events, now, EndingSoon), ByPriority());
    SortSorted(Collect(events, now, Active), ByPriority());
    SortSorted(Collect(events, now, Upcoming), ByStart());
    Timeline(Sort(Collect(events, now, EndingSoon), ByPriority()),
             Sort(Collect(events, now, Active), ByPriority()),
             Sort(Collect(events, now, Upcoming), ByStart()))
  }

  /** An event is listed in a group exactly when it falls into that group. */
  lemma TimelineMembership(events: seq<Event>, now: int, e: Event)
    requires e in events
    ensures var t := BuildTimeline(events, now);
      && (EntryOf(e, now) in t.endingSoon <==> BucketOf(e, now) == EndingSoon)
      && (EntryOf(e, now) in t.active <==> BucketOf(e, now) == Active)
      && (EntryOf(e, now) in t.upcoming <==> BucketOf(e, now) == Upcoming)
  {
    var t := BuildTimeline(events, now);
    var x := EntryOf(e, now);
    assert x in t.endingSoon <==> x in multiset(t.endingSoon);
    assert x in t.active <==> x in multiset(t.active);
    assert x in t.upcoming <==> x in multiset(t.upcoming);
    assert x in Collect(events, now, EndingSoon) <==> x in multiset(Collect(events, now, EndingSoon));
    assert x in Collect(events, now, Active) <==> x in multiset(Collect(events, now, Active));
    assert x in Collect(events, now, Upcoming) <==> x in multiset(Collect(events, now, Upcoming));
  }

  /** The groups and the dropped events together account for every event
      exactly once. */
  lemma {:induction false} CollectPartition(events: seq<Event>, now: int)
    ensures |Collect(events, now, EndingSoon)| + |Collect(events, now, Active)|
          + |Collect(events, now, Upcoming)| + |Collect(events, now, Dropped)| == |events|
  {
    if events != [] {
      CollectPartition(events[1..], now);
    }
  }

  lemma TimelineCount(events: seq<Event>, now: int)
    ensures var t := BuildTimeline(events, now);
      |t.endingSoon| + |t.active| + |t.upcoming| == |events| - |Collect(events, now, Dropped)|
  {
    CollectPartition(events, now);
  }

  /** The urgency bonus is earned exactly by the events ending soon. */
  lemma EntryUrgency(e: Event, now: int)
    ensures BucketOf(e, now) == EndingSoon ==> EntryOf(e, now).priority == Priority(e, None) + 25
    ensures BucketOf(e, now) == Active ==> EntryOf(e, now).priority == Priority(e, None)
  {
    PriorityBonuses(e, Until(e.end, now));
  }

  /** Every entry of the ending-soon group carries the urgency bonus and no
      entry of the active group does; an upcoming event that also ends within
      a day carries it too. */
  lemma UrgencyByGroup(events: seq<Event>, now: int)
    ensures var t := BuildTimeline(events, now);
      && (forall x :: x in t.endingSoon ==> x.priority == Priority(x.event, None) + 25)
      && (forall x :: x in t.active ==> x.priority == Priority(x.event, None))
  {
    var t := BuildTimeline(events, now);
    forall x | x in t.endingSoon ensures x.priority == Priority(x.event, None) + 25 {
      assert x in multiset(Collect(events, now, EndingSoon));
      EntryUrgency(x.event, now);
    }
    forall x | x in t.active ensures x.priority == Priority(x.event, None) {
      assert x in multiset(Collect(events, now, Active));
      EntryUrgency(x.event, now);
    }
  }

  // ------------------------------------------------------------- duration

  /** `formatDuration`: whole hours, as days and hours once a day is full. */
  function FormatDuration(ms: int): (r: string)
  {
    var hours := ms / Hour;
    var days := hours / 24;
    if days > 0 then NatText(days) + "d " + NatText(hours % 24) + "h" else IntText(hours) + "h"
  }

  /** The text names the duration's whole days and left-over hours, or its
      whole hours (possibly negative) when less than a day has passed. */
  lemma FormatDurationMeaning(ms: int)
    ensures ms >= Day ==> exists d: nat, h: nat ::
      h < 24 && d >= 1 && d * Day + h * Hour <= ms < d * Day + (h + 1) * Hour
      && FormatDuration(ms) == NatText(d) + "d " + NatText(h) + "h"
    ensures ms < Day ==> exists h: int ::
      h * Hour <= ms < (h + 1) * Hour && FormatDuration(ms) == IntText(h) + "h"
  {
    var hours := ms / Hour;
    HourBounds(ms);
    if ms >= Day {
      var d, h := hours / 24, hours % 24;
      DayHours(hours);
      assert d * Day + h * Hour == hours * Hour;
      assert FormatDuration(ms) == NatText(d) + "d " + NatText(h) + "h";
    } else {
      assert hours / 24 <= 0;
      assert FormatDuration(ms) == IntText(hours) + "h";
    }
  }

  /** The whole hours of a duration, rounded down. */
  lemma HourBounds(ms: int)
    ensures (ms / Hour) * Hour <= ms < (ms / Hour + 1) * Hour
    ensures ms >= Day ==> ms / Hour >= 24
    ensures ms < Day ==> ms / Hour < 24
  {
  }

  /** Whole days and left-over hours make up the whole hours. */
  lemma DayHours(hours: int)
    requires hours >= 24
    ensures hours / 24 >= 1 && 0 <= hours % 24 < 24
    ensures (hours / 24) * Day + (hours % 24) * Hour == hours * Hour
  {
    var d, h := hours / 24, hours % 24;
    assert hours == 24 * d + h;
    calc {
      d * Day + h * Hour;
      == d * (24 * Hour) + h * Hour;
      == (24 * d) * Hour + h * Hour;
      == (24 * d + h) * Hour;
    }
  }

  /** Two digit runs followed by a non-digit agree only when they are the
      same number. */
  lemma NatTextPrefix(a: nat, b: nat, x: string, y: string)
    requires x != [] && y != [] && !IsDigit(x[0]) && !IsDigit(y[0])
    requires NatText(a) + x == NatText(b) + y
    ensures a == b && x == y
  {
    var ta, tb := NatText(a), NatText(b);
    DigitPrefixOf(ta, x);
    DigitPrefixOf(tb, y);
    assert ta == (ta + x)[..|ta|] == (tb + y)[..|tb|] == tb;
    NatTextInjective(a, b);
    assert x == (ta + x)[|ta|..] == (tb + y)[|tb|..] == y;
  }

  /** The text determines the number of whole hours and nothing finer: two
      durations print alike exactly when they fall in the same hour. */
  lemma FormatDurationHours(a: int, b: int)
    ensures FormatDuration(a) == FormatDuration(b) <==> a / Hour == b / Hour
  {
    var ha, hb := a / Hour, b / Hour;
    if FormatDuration(a) == FormatDuration(b) {
      if ha / 24 > 0 && hb / 24 > 0 {
        DaysText(ha, hb);
      } else if ha / 24 > 0 {
        DayUnit(ha);
        OneUnitText(hb);
      } else if hb / 24 > 0 {
        DayUnit(hb);
        OneUnitText(ha);
      } else {
        HoursText(ha, hb);
      }
    }
  }

  lemma DaysText(ha: int, hb: int)
    requires ha / 24 > 0 && hb / 24 > 0
    requires NatText(ha / 24) + "d " + NatText(ha % 24) + "h" == NatText(hb / 24) + "d " + NatText(hb % 24) + "h"
    ensures ha == hb
  {
    DaysHoursText(ha / 24, hb / 24, ha % 24, hb % 24);
  }

  /** The days-and-hours text determines both numbers. */
  lemma DaysHoursText(a: nat, b: nat, x: nat, y: nat)
    requires NatText(a) + "d " + NatText(x) + "h" == NatText(b) + "d " + NatText(y) + "h"
    ensures a == b && x == y
  {
    UnitsText(a, b, NatText(x), NatText(y), "d ", "h");
    NatTextPrefix(x, y, "h", "h");
  }

  /** Two numbers each followed by the same unit and a tail agree only
      when the numbers and the tails agree. */
  lemma UnitsText(a: nat, b: nat, sa: string, sb: string, unit: string, h: string)
    requires unit != [] && !IsDigit(unit[0])
    requires NatText(a) + unit + sa + h == NatText(b) + unit + sb + h
    ensures a == b && sa + h == sb + h
  {
    var ta, tb := NatText(a), NatText(b);
    AppendAssoc(ta, unit, sa);
    AppendAssoc(ta, unit + sa, h);
    AppendAssoc(unit, sa, h);
    AppendAssoc(tb, unit, sb);
    AppendAssoc(tb, unit + sb, h);
    AppendAssoc(unit, sb, h);
    NatTextPrefix(a, b, unit + (sa + h), unit + (sb + h));
    assert (unit + (sa + h))[|unit|..] == sa + h;
    assert (unit + (sb + h))[|unit|..] == sb + h;
  }


  lemma HoursText(ha: int, hb: int)
    requires IntText(ha) + "h" == IntText(hb) + "h"
    ensures ha == hb
  {
    var r := IntText(ha) + "h";
    assert IntText(ha) == r[..|r| - 1] == IntText(hb);
    IntTextInjective(ha, hb);
  }

  /** From a full day on, the text has a `d`. */
  lemma DayUnit(h: int)
    requires h / 24 > 0
    ensures 'd' in NatText(h / 24) + "d " + NatText(h % 24) + "h"
  {
    var r := NatText(h / 24) + "d " + NatText(h % 24) + "h";
    assert r[|NatText(h / 24)|] == 'd';
  }

  /** Below a day the text is a number and an `h`, with no `d`. */
  lemma OneUnitText(h: int)
    ensures 'd' !in IntText(h) + "h"
  {
    var t := IntText(h);
    if h >= 0 {
      assert AllDigits(t);
    } else {
      assert t == "-" + NatText(-h);
      assert AllDigits(NatText(-h));
    }
  }
}
