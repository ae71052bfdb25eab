/** Shiny hunting opportunities: the shiny list cross-referenced with what can
    currently be encountered. An available shiny is a recent debut when its
    release date lies less than thirty days back, otherwise boosted when an
    active shiny event lists it, otherwise permanently available. */
module ContextualShiny {
  import opened Wrappers
  import opened Strings
  import opened Sorting
  import opened JsDate
  import opened ContextualData

  /** A release date read from its text: no date (`null`), an invalid date,
      or a time value. */
  datatype ShinyDate = NoDate | InvalidDate | At(time: int)

  /** `parseShinyDate`: "YYYY/MM/DD" read with `parseInt` (no radix) into a local
      `new Date(year, month - 1, day)`. Text that is missing, empty or not
      made of exactly three slash-separated parts is no date; a part that is
      not a number makes the date invalid. */
  function ParseShinyDate(text: Option<string>, offset: int): (r: ShinyDate)
    ensures text.None? || text == Some("") ==> r == NoDate
    ensures r.At? ==> text.Some? && |Split(text.value, '/')| == 3
  {
    if text.None? || text.value == "" then NoDate
    else
      var parts := Split(text.value, '/');
      if |parts| != 3 then NoDate
      else DateOfNumbers(ParseIntAuto(parts[0]), ParseIntAuto(parts[1]), ParseIntAuto(parts[2]), offset)
  }

  /** The local date of three read numbers, invalid when one is not a number. */
  function DateOfNumbers(y: Option<int>, m: Option<int>, d: Option<int>, offset: int): ShinyDate {
    if y.Some? && m.Some? && d.Some? then
      match LocalDate(y.value, m.value - 1, d.value, offset) case Some(t) => At(t) case None => InvalidDate
    else InvalidDate
  }

  /** The upstream release-date text of a calendar date, "2018/03/25". */
  function SlashDateText(c: Civil): string
    requires ValidCivil(c) && c.year >= 0
  {
    NatText(c.year) + "/" + PadStart(NatText(c.month), 2, '0') + "/" + PadStart(NatText(c.day), 2, '0')
  }

  /** Day counts of the years 100 to 9999 stay well inside the time range. */
  lemma DayNumberBounds(c: Civil)
    requires ValidCivil(c) && 100 <= c.year <= 9999
    ensures -700000 <= DayNumber(c) <= 3000000
  {
    DayNumberInYear(c);
  }

  lemma DigitsNoSlash(t: string)
    requires AllDigits(t)
    ensures '/' !in t
  {
  }

  lemma PaddedDigits(n: nat)
    ensures AllDigits(PadStart(NatText(n), 2, '0'))
  {
    var t := NatText(n);
    if |t| < 2 {
      ZerosValue(2 - |t|, t);
    }
  }

  /** Three slash-separated numbers make the local date they name. */
  lemma ParseParts(text: string, offset: int, a: string, b: string, c: string, y: int, m: int, d: int, t: int)
    requires text != "" && Split(text, '/') == [a, b, c]
    requires ParseIntAuto(a) == Some(y) && ParseIntAuto(b) == Some(m) && ParseIntAuto(c) == Some(d)
    requires LocalDate(y, m - 1, d, offset) == Some(t)
    ensures ParseShinyDate(Some(text), offset) == At(t)
  {
    ParseNumbers(text, offset, a, b, c, y, m, d);
    DateOfSome(y, m, d, offset, t);
  }

  lemma DateOfSome(y: int, m: int, d: int, offset: int, t: int)
    requires LocalDate(y, m - 1, d, offset) == Some(t)
    ensures DateOfNumbers(Some(y), Some(m), Some(d), offset) == At(t)
  {
  }

  /** Three slash-separated numbers reach `new Date` unchanged. */
  lemma ParseNumbers(text: string, offset: int, a: string, b: string, c: string, y: int, m: int, d: int)
    requires text != "" && Split(text, '/') == [a, b, c]
    requires ParseIntAuto(a) == Some(y) && ParseIntAuto(b) == Some(m) && ParseIntAuto(c) == Some(d)
    ensures ParseShinyDate(Some(text), offset) == DateOfNumbers(Some(y), Some(m), Some(d), offset)
  {
  }

  lemma DigitsValueParses(t: string, n: nat)
    requires t != [] && AllDigits(t) && DigitsValue(t) == n
    ensures ParseIntAuto(t) == Some(n)
  {
    ParseIntDigits(t);
    DigitsDecimal(t);
  }

  /** A run of digits has no hexadecimal marker. */
  lemma DigitsDecimal(t: string)
    requires AllDigits(t)
    ensures ParseIntAuto(t) == ParseInt(t)
  {
    assert 'x' !in t && 'X' !in t;
    ParseIntAutoDecimal(t);
  }

  /** Splitting the text of a date gives back its three parts. */
  lemma SlashDateParts(c: Civil)
    requires ValidCivil(c) && c.year >= 0
    ensures Split(SlashDateText(c), '/')
      == [NatText(c.year), PadStart(NatText(c.month), 2, '0'), PadStart(NatText(c.day), 2, '0')]
  {
    var y, m, d := NatText(c.year), PadStart(NatText(c.month), 2, '0'), PadStart(NatText(c.day), 2, '0');
    PaddedDigits(c.month);
    PaddedDigits(c.day);
    DigitsNoSlash(y);
    DigitsNoSlash(m);
    DigitsNoSlash(d);
    assert Join([y, m, d], "/") == y + "/" + m + "/" + d;
    JoinSplit([y, m, d], '/');
  }

  /** The date text of any day in the years 100 to 9999 parses to local
      midnight of that day. */
  lemma SlashDateRoundTrip(c: Civil, offset: int)
    requires ValidCivil(c) && 100 <= c.year <= 9999
    requires -MsPerDay <= offset <= MsPerDay
    ensures ParseShinyDate(Some(SlashDateText(c)), offset) == At(DayNumber(c) * MsPerDay - offset)
  {
    LocalDateOfValid(c, offset);
    ParseSlashDate(c, offset, DayNumber(c) * MsPerDay - offset);
  }

  /** The text of a date parses to whatever `new Date` makes of its numbers. */
  lemma ParseSlashDate(c: Civil, offset: int, t: int)
    requires ValidCivil(c) && c.year >= 0
    requires LocalDate(c.year, c.month - 1, c.day, offset) == Some(t)
    ensures ParseShinyDate(Some(SlashDateText(c)), offset) == At(t)
  {
    var y, m, d := NatText(c.year), PadStart(NatText(c.month), 2, '0'), PadStart(NatText(c.day), 2, '0');
    SlashDateParts(c);
    SlashDateNumbers(c);
    ParseParts(SlashDateText(c), offset, y, m, d, c.year, c.month, c.day, t);
  }

  lemma SlashDateNumbers(c: Civil)
    requires ValidCivil(c) && c.year >= 0
    ensures ParseIntAuto(NatText(c.year)) == Some(c.year)
    ensures ParseIntAuto(PadStart(NatText(c.month), 2, '0')) == Some(c.month)
    ensures ParseIntAuto(PadStart(NatText(c.day), 2, '0')) == Some(c.day)
  {
    NatTextValue(c.year);
    DigitsValueParses(NatText(c.year), c.year);
    PaddedNatValue(c.month, 2);
    PaddedNatValue(c.day, 2);
    PaddedDigits(c.month);
    PaddedDigits(c.day);
    DigitsDecimal(PadStart(NatText(c.month), 2, '0'));
    DigitsDecimal(PadStart(NatText(c.day), 2, '0'));
  }

  /** A valid date of the years 100 to 9999 is never clipped. */
  lemma LocalDateOfValid(c: Civil, offset: int)
    requires ValidCivil(c) && 100 <= c.year <= 9999
    requires -MsPerDay <= offset <= MsPerDay
    ensures LocalDate(c.year, c.month - 1, c.day, offset) == Some(DayNumber(c) * MsPerDay - offset)
  {
    DayNumberBounds(c);
  }

  /** Release dates order like the calendar: of two dates the earlier one
      parses to the smaller time, and different dates to different times. */
  lemma SlashDateOrder(a: Civil, b: Civil, offset: int)
    requires ValidCivil(a) && 100 <= a.year <= 9999
    requires ValidCivil(b) && 100 <= b.year <= 9999
    requires -MsPerDay <= offset <= MsPerDay
    ensures ParseShinyDate(Some(SlashDateText(a)), offset).At?
    ensures ParseShinyDate(Some(SlashDateText(b)), offset).At?
    ensures ParseShinyDate(Some(SlashDateText(a)), offset).time < ParseShinyDate(Some(SlashDateText(b)), offset).time
            <==> CivilBefore(a, b)
    ensures ParseShinyDate(Some(SlashDateText(a)), offset) == ParseShinyDate(Some(SlashDateText(b)), offset)
            <==> a == b
  {
    SlashDateRoundTrip(a, offset);
    SlashDateRoundTrip(b, offset);
    CivilOrder(a, b);
  }

  /** Text without a slash never holds a date. */
  lemma NoSlashNoDate(t: string, offset: int)
    requires '/' !in t
    ensures ParseShinyDate(Some(t), offset) == NoDate
  {
    JoinSplitOne(t, '/');
  }

  /** The shiny list writes release dates as "YYYY-MM-DD"; such text is
      never read as a date here. */
  lemma DashDateNoDate(c: Civil, offset: int)
    requires ValidCivil(c) && c.year >= 0
    ensures ParseShinyDate(Some(NatText(c.year) + "-" + PadStart(NatText(c.month), 2, '0') + "-"
                                + PadStart(NatText(c.day), 2, '0')), offset) == NoDate
  {
    var y, m, d := NatText(c.year), PadStart(NatText(c.month), 2, '0'), PadStart(NatText(c.day), 2, '0');
    PaddedDigits(c.month);
    PaddedDigits(c.day);
    DigitsNoSlash(y);
    DigitsNoSlash(m);
    DigitsNoSlash(d);
    NoSlashNoDate(y + "-" + m + "-" + d, offset);
  }

  // ------------------------------------------------------------ the entries

  /** The properties of a shiny copied into an opportunity unchanged. */
  datatype ShinyInfo = ShinyInfo(dexNumber: Option<int>, imageUrl: Option<string>, family: Option<int>)

  datatype Shiny = Shiny(name: string, releasedDate: Option<string>, info: ShinyInfo)

  /** Why an entry is listed: a recent debut, boosted by the listed events,
      or permanently available. */
  datatype Kind = Debut | Boosted(boostSource: seq<string>) | Permanent

  datatype Opportunity = Opportunity(name: string, releasedDate: Option<string>, info: ShinyInfo, kind: Kind)

  datatype Opportunities = Opportunities(
    recentDebuts: seq<Opportunity>, boostedRates: seq<Opportunity>, permanentlyAvailable: seq<Opportunity>)

  /** Thirty days in milliseconds. */
  const Month: int := 30 * MsPerDay

  /** The cap on permanently available entries. */
  const PermanentCap: nat := 100

  /** Names of the research rewards that are encounters. */
  function EncounterNames(research: seq<Task>): (r: seq<string>)
    ensures forall n :: n in r <==>
      exists i, j :: 0 <= i < |research| && 0 <= j < |research[i].rewards.GetOr([])|
        && research[i].rewards.GetOr([])[j].kind == "encounter" && research[i].rewards.GetOr([])[j].name == n
  {
    if research == [] then []
    else RewardEncounters(research[0].rewards.GetOr([])) + EncounterNames(research[1..])
  }

  function RewardEncounters(rewards: seq<Reward>): (r: seq<string>)
    ensures forall n :: n in r <==> exists j :: 0 <= j < |rewards| && rewards[j].kind == "encounter" && rewards[j].name == n
  {
    if rewards == [] then []
    else (if rewards[0].kind == "encounter" then [rewards[0].name] else []) + RewardEncounters(rewards[1..])
  }

  /** Names of the rocket slot Pokémon that can be encountered. */
  function RocketNames(lineups: seq<Lineup>): (r: seq<string>)
    ensures forall n :: n in r <==>
      exists i, k, j :: 0 <= i < |lineups| && 0 <= k < 3 && 0 <= j < |Slots(lineups[i])[k]|
        && Slots(lineups[i])[k][j].isEncounter && Slots(lineups[i])[k][j].name == n
  {
    if lineups == [] then []
    else
      var s := Slots(lineups[0]);
      SlotEncounters(s[0]) + SlotEncounters(s[1]) + SlotEncounters(s[2]) + RocketNames(lineups[1..])
  }

  function SlotEncounters(slot: seq<Mon>): (r: seq<string>)
    ensures forall n :: n in r <==> exists j :: 0 <= j < |slot| && slot[j].isEncounter && slot[j].name == n
  {
    if slot == [] then []
    else (if slot[0].isEncounter then [slot[0].name] else []) + SlotEncounters(slot[1..])
  }

  function NamesOf(mons: seq<Mon>): (r: seq<string>)
    ensures |r| == |mons| && forall i :: 0 <= i < |mons| ==> r[i] == mons[i].name
  {
    if mons == [] then [] else [mons[0].name] + NamesOf(mons[1..])
  }

  /** The keys of everything that can be encountered now. */
  function AvailableKeys(raids: seq<Mon>, eggs: seq<Mon>, research: seq<Task>, lineups: seq<Lineup>): set<string> {
    var names := NamesOf(raids) + NamesOf(eggs) + EncounterNames(research) + RocketNames(lineups);
    set n | n in names :: PokemonKey(n)
  }

  /** Events running at `now` that advertise shiny bonuses, in input order. */
  function ActiveShinyEvents(events: seq<Event>, now: int): (r: seq<Event>)
    ensures forall e :: e in r <==> e in events && IsActive(e, now) && e.hasShiny
  {
    if events == [] then []
    else
      var rest := ActiveShinyEvents(events[1..], now);
      assert forall e :: e in events <==> e == events[0] || e in events[1..];
      if IsActive(events[0], now) && events[0].hasShiny then [events[0]] + rest else rest
  }

  /** Every shiny of an event, and its featured Pokémon that can be shiny. */
  predicate BoostsShiny(e: Event, m: Mon) {
    m in e.shinies + e.featured && (m in e.shinies || m.canBeShiny)
  }

  function BoostedKeys(active: seq<Event>): set<string> {
    set e, m | e in active && m in e.shinies + e.featured && BoostsShiny(e, m) :: PokemonKey(m.name)
  }

  /** The event lists `key` among its shinies or featured Pokémon. */
  predicate Lists(e: Event, key: string) {
    exists m :: m in e.shinies + e.featured && PokemonKey(m.name) == key
  }

  /** `boostSource`: the IDs of the active events listing `key`, in order. */
  function BoostSource(active: seq<Event>, key: string): (r: seq<string>)
    ensures forall id :: id in r <==> exists e :: e in active && Lists(e, key) && e.eventID == id
  {
    if active == [] then []
    else
      var rest := BoostSource(active[1..], key);
      assert forall e :: e in active <==> e == active[0] || e in active[1..];
      if Lists(active[0], key) then [active[0].eventID] + rest else rest
  }

  /** What the classification of one shiny needs to know. */
  datatype Context = Context(available: set<string>, active: seq<Event>, boosted: set<string>, now: int, offset: int)

  predicate IsRecent(ctx: Context, s: Shiny) {
    var d := ParseShinyDate(s.releasedDate, ctx.offset);
    d.At? && ctx.now - d.time < Month
  }

  /** The entry for one shiny, `None` when it cannot be encountered now. */
  function Place(ctx: Context, s: Shiny): Option<Opportunity> {
    var key := PokemonKey(s.name);
    if key !in ctx.available then None
    else
      var kind :=
        if IsRecent(ctx, s) then Debut
        else if key in ctx.boosted then Boosted(BoostSource(ctx.active, key))
        else Permanent;
      Some(Opportunity(s.name, s.releasedDate, s.info, kind))
  }

  /** The three lists before sorting and capping, in input order. */
  function Categorize(ctx: Context, shinies: seq<Shiny>): (r: Opportunities)
    ensures forall x :: x in r.recentDebuts <==> x.kind.Debut? && exists s :: s in shinies && Place(ctx, s) == Some(x)
    ensures forall x :: x in r.boostedRates <==> x.kind.Boosted? && exists s :: s in shinies && Place(ctx, s) == Some(x)
    ensures forall x :: x in r.permanentlyAvailable <==> x.kind.Permanent? && exists s :: s in shinies && Place(ctx, s) == Some(x)
  {
    Bucket(shinies, Placer(ctx))
  }

  function Placer(ctx: Context): Shiny -> Option<Opportunity> {
    s => Place(ctx, s)
  }

  /** Each placed shiny goes to the list of its kind, in input order. */
  function Bucket(shinies: seq<Shiny>, place: Shiny -> Option<Opportunity>): (r: Opportunities)
    ensures forall x :: x in r.recentDebuts <==> x.kind.Debut? && exists s :: s in shinies && place(s) == Some(x)
    ensures forall x :: x in r.boostedRates <==> x.kind.Boosted? && exists s :: s in shinies && place(s) == Some(x)
    ensures forall x :: x in r.permanentlyAvailable <==> x.kind.Permanent? && exists s :: s in shinies && place(s) == Some(x)
  {
    if shinies == [] then Opportunities([], [], [])
    else
      var r := Bucket(shinies[1..], place);
      assert forall s :: s in shinies <==> s == shinies[0] || s in shinies[1..];
      match place(shinies[0])
      case None => r
      case Some(x) =>
        match x.kind
        case Debut => r.(recentDebuts := [x] + r.recentDebuts)
        case Boosted(_) => r.(boostedRates := [x] + r.boostedRates)
        case Permanent => r.(permanentlyAvailable := [x] + r.permanentlyAvailable)
  }

  /** The number of shinies that can be encountered now. */
  function AvailableCount(ctx: Context, shinies: seq<Shiny>): nat {
    if shinies == [] then 0
    else (if PokemonKey(shinies[0].name) in ctx.available then 1 else 0) + AvailableCount(ctx, shinies[1..])
  }

  /** Every available shiny is listed exactly once, in one of the lists. */
  lemma {:induction false} CategorizeCount(ctx: Context, shinies: seq<Shiny>)
    ensures var r := Categorize(ctx, shinies);
      |r.recentDebuts| + |r.boostedRates| + |r.permanentlyAvailable| == AvailableCount(ctx, shinies)
  {
    if shinies != [] {
      CategorizeCount(ctx, shinies[1..]);
      PlaceAvailable(ctx, shinies[0]);
      assert Placer(ctx)(shinies[0]) == Place(ctx, shinies[0]);
    }
  }

  /** Release time for ordering, with a missing or invalid date as 0. */
  function DebutTime(o: Opportunity, offset: int): int {
    match ParseShinyDate(o.releasedDate, offset)
    case At(t) => t
    case _ => 0
  }

  /** Newest first (`(dateB || 0) - (dateA || 0)`). */
  function NewestFirst(offset: int): (Opportunity, Opportunity) -> bool {
    (a: Opportunity, b: Opportunity) => DebutTime(a, offset) >= DebutTime(b, offset)
  }

  lemma NewestFirstIsPreorder(offset: int)
    ensures TotalPreorder(NewestFirst(offset))
  {
  }

  /** The availability and boost information for one run. */
  function ShinyContext(raids: seq<Mon>, eggs: seq<Mon>, research: seq<Task>, lineups: seq<Lineup>,
                        events: seq<Event>, now: int, offset: int): Context {
    var active := ActiveShinyEvents(events, now);
    Context(AvailableKeys(raids, eggs, research, lineups), active, BoostedKeys(active), now, offset)
  }

  /** `buildShinyOpportunities`; `None` stands for a shiny list that is
      missing or not an array. */
  function BuildShinyOpportunities(
    shinies: Option<seq<Shiny>>, raids: seq<Mon>, eggs: seq<Mon>, research: seq<Task>,
    lineups: seq<Lineup>, events: seq<Event>, now: int, offset: int): (r: Opportunities)
    ensures shinies.None? ==> r == Opportunities([], [], [])
    ensures Sorted(r.recentDebuts, NewestFirst(offset))
    ensures |r.permanentlyAvailable| <= PermanentCap
  {
    if shinies.None? then Opportunities([], [], [])
    else
      var c := Categorize(ShinyContext(raids, eggs, research, lineups, events, now, offset), shinies.value);
      NewestFirstIsPreorder(offset);
      SortSorted(c.recentDebuts, NewestFirst(offset));
      var p := c.permanentlyAvailable;
      Opportunities(Sort(c.recentDebuts, NewestFirst(offset)), c.boostedRates,
                    if |p| <= PermanentCap then p else p[..PermanentCap])
  }

  /** Each list holds exactly the available shinies of its kind (the first
      hundred of the permanent ones), recent debuts taking precedence over
      boosts. */
  lemma OpportunityMembers(
    shinies: seq<Shiny>, raids: seq<Mon>, eggs: seq<Mon>, research: seq<Task>,
    lineups: seq<Lineup>, events: seq<Event>, now: int, offset: int)
    ensures var ctx := ShinyContext(raids, eggs, research, lineups, events, now, offset);
      var r := BuildShinyOpportunities(Some(shinies), raids, eggs, research, lineups, events, now, offset);
      var c := Categorize(ctx, shinies);
      && (forall x :: x in r.recentDebuts <==> x.kind.Debut? && exists s :: s in shinies && Place(ctx, s) == Some(x))
      && (forall x :: x in r.boostedRates <==> x.kind.Boosted? && exists s :: s in shinies && Place(ctx, s) == Some(x))
      && r.permanentlyAvailable <= c.permanentlyAvailable
      && (|c.permanentlyAvailable| <= PermanentCap ==> r.permanentlyAvailable == c.permanentlyAvailable)
      && (forall s :: s in shinies && Place(ctx, s).Some? ==> PokemonKey(s.name) in ctx.available)
  {
    var ctx := ShinyContext(raids, eggs, research, lineups, events, now, offset);
    var c := Categorize(ctx, shinies);
    BuildParts(shinies, raids, eggs, research, lineups, events, now, offset);
    SortSameElements(c.recentDebuts, NewestFirst(offset));
    forall s | s in shinies && Place(ctx, s).Some? ensures PokemonKey(s.name) in ctx.available {
      PlaceAvailable(ctx, s);
    }
  }

  /** The built lists are the categorized ones: debuts sorted, boosts as
      they are, permanent ones capped. */
  lemma BuildParts(
    shinies: seq<Shiny>, raids: seq<Mon>, eggs: seq<Mon>, research: seq<Task>,
    lineups: seq<Lineup>, events: seq<Event>, now: int, offset: int)
    ensures var c := Categorize(ShinyContext(raids, eggs, research, lineups, events, now, offset), shinies);
      var r := BuildShinyOpportunities(Some(shinies), raids, eggs, research, lineups, events, now, offset);
      var p := c.permanentlyAvailable;
      && r.recentDebuts == Sort(c.recentDebuts, NewestFirst(offset))
      && r.boostedRates == c.boostedRates
      && r.permanentlyAvailable == if |p| <= PermanentCap then p else p[..PermanentCap]
  {
  }

  lemma PlaceAvailable(ctx: Context, s: Shiny)
    ensures Place(ctx, s).Some? <==> PokemonKey(s.name) in ctx.available
  {
  }

  /** A shiny is placed exactly when its key is available; it is a debut
      exactly when its date is recent, and boosted exactly when it is not
      recent and some active shiny event boosts it. */
  lemma PlacePrecedence(raids: seq<Mon>, eggs: seq<Mon>, research: seq<Task>,
                        lineups: seq<Lineup>, events: seq<Event>, now: int, offset: int, s: Shiny)
    ensures var ctx := ShinyContext(raids, eggs, research, lineups, events, now, offset);
      var p := Place(ctx, s);
      && (p.Some? <==> PokemonKey(s.name) in AvailableKeys(raids, eggs, research, lineups))
      && (p.Some? ==> (p.value.kind.Debut? <==> IsRecent(ctx, s)))
      && (p.Some? ==> (p.value.kind.Boosted? <==>
            !IsRecent(ctx, s)
            && (exists e, m :: e in events && IsActive(e, now) && e.hasShiny
                               && BoostsShiny(e, m) && PokemonKey(m.name) == PokemonKey(s.name))))
  {
    var ctx := ShinyContext(raids, eggs, research, lineups, events, now, offset);
    var key := PokemonKey(s.name);
    if Place(ctx, s).Some? && !IsRecent(ctx, s) {
      if key in ctx.boosted {
        var e, m :| e in ctx.active && m in e.shinies + e.featured && BoostsShiny(e, m) && PokemonKey(m.name) == key;
        assert e in events && IsActive(e, now) && e.hasShiny;
      } else {
        forall e, m | e in events && IsActive(e, now) && e.hasShiny && BoostsShiny(e, m)
          ensures PokemonKey(m.name) != key
        {
          assert e in ctx.active;
          assert PokemonKey(m.name) in ctx.boosted;
        }
      }
    }
  }

  /** Every boosted entry names the events boosting it: exactly the active
      shiny events that list it, and at least one. */
  lemma BoostedHasSource(
    shinies: seq<Shiny>, raids: seq<Mon>, eggs: seq<Mon>, research: seq<Task>,
    lineups: seq<Lineup>, events: seq<Event>, now: int, offset: int, x: Opportunity)
    requires x in BuildShinyOpportunities(Some(shinies), raids, eggs, research, lineups, events, now, offset).boostedRates
    ensures x.kind.Boosted? && x.kind.boostSource != []
    ensures forall id :: id in x.kind.boostSource <==>
      exists e :: e in events && IsActive(e, now) && e.hasShiny && Lists(e, PokemonKey(x.name)) && e.eventID == id
  {
    var ctx := ShinyContext(raids, eggs, research, lineups, events, now, offset);
    OpportunityMembers(shinies, raids, eggs, research, lineups, events, now, offset);
    var s :| s in shinies && Place(ctx, s) == Some(x);
    var key := PokemonKey(s.name);
    assert key in ctx.boosted;
    var e, m :| e in ctx.active && m in e.shinies + e.featured && BoostsShiny(e, m) && PokemonKey(m.name) == key;
    assert Lists(e, key);
    assert e.eventID in BoostSource(ctx.active, key);
  }

  /** A release date written without slashes is never recent. */
  lemma NoSlashNotRecent(ctx: Context, s: Shiny)
    requires s.releasedDate.None? || '/' !in s.releasedDate.value
    ensures !IsRecent(ctx, s)
  {
    if s.releasedDate.Some? {
      NoSlashNoDate(s.releasedDate.value, ctx.offset);
    }
  }

  lemma {:induction false} NoDebutsCategorized(ctx: Context, shinies: seq<Shiny>)
    requires forall s :: s in shinies ==> s.releasedDate.None? || '/' !in s.releasedDate.value
    ensures Categorize(ctx, shinies).recentDebuts == []
  {
    if shinies != [] {
      NoSlashNotRecent(ctx, shinies[0]);
      NoDebutsCategorized(ctx, shinies[1..]);
      assert Placer(ctx)(shinies[0]) == Place(ctx, shinies[0]);
    }
  }

  /** Release dates written without slashes (as the shiny list writes them)
      leave the recent debuts empty. */
  lemma NoSlashNoDebuts(
    shinies: seq<Shiny>, raids: seq<Mon>, eggs: seq<Mon>, research: seq<Task>,
    lineups: seq<Lineup>, events: seq<Event>, now: int, offset: int)
    requires forall s :: s in shinies ==> s.releasedDate.None? || '/' !in s.releasedDate.value
    ensures BuildShinyOpportunities(Some(shinies), raids, eggs, research, lineups, events, now, offset).recentDebuts == []
  {
    var ctx := ShinyContext(raids, eggs, research, lineups, events, now, offset);
    var c := Categorize(ctx, shinies);
    NoDebutsCategorized(ctx, shinies);
    assert |Sort(c.recentDebuts, NewestFirst(offset))| == 0;
  }
}
