/** The detailed-scrape orchestrator: flatten the event list and the backup
    copy fetched from the CDN, then start the generic scraper and at most
    one type-specific scraper for every event. The scrapers themselves are
    page readers and are represented only by the calls made to them. */
module DetailedScrape {
  import opened Wrappers
  import opened Strings
  import opened Json

  datatype Scraper =
    | Generic
    | Breakthrough
    | Spotlight
    | CommunityDay
    | RaidBattles
    | RaidHour
    | RaidDay
    | TeamGoRocket
    | GoBattleLeague
    | Season
    | GoTour
    | TimedResearch
    | MaxBattles
    | MaxMondays
    | GoPass
    | PokestopShowcase
    | Research
    | EventScraper

  /** `SCRAPER_MAP`, in its declaration order. */
  const ScraperMap: seq<(string, Scraper)> := [
    ("research-breakthrough", Breakthrough),
    ("pokemon-spotlight-hour", Spotlight),
    ("community-day", CommunityDay),
    ("raid-battles", RaidBattles),
    ("raid-hour", RaidHour),
    ("raid-day", RaidDay),
    ("team-go-rocket", TeamGoRocket),
    ("go-rocket-takeover", TeamGoRocket),
    ("go-battle-league", GoBattleLeague),
    ("season", Season),
    ("pokemon-go-tour", GoTour),
    ("timed-research", TimedResearch),
    ("special-research", TimedResearch),
    ("max-battles", MaxBattles),
    ("max-mondays", MaxMondays),
    ("go-pass", GoPass),
    ("pokestop-showcase", PokestopShowcase),
    ("research", Research),
    ("event", EventScraper)
  ]

  /** `SCRAPER_MAP[eventType]`: the type-specific scraper, never the
      generic one. */
  function ScraperFor(eventType: string): (r: Option<Scraper>)
    ensures r != Some(Generic)
  {
    if eventType == "research-breakthrough" then Some(Breakthrough)
    else if eventType == "pokemon-spotlight-hour" then Some(Spotlight)
    else if eventType == "community-day" then Some(CommunityDay)
    else if eventType == "raid-battles" then Some(RaidBattles)
    else if eventType == "raid-hour" then Some(RaidHour)
    else if eventType == "raid-day" then Some(RaidDay)
    else if eventType == "team-go-rocket" || eventType == "go-rocket-takeover" then Some(TeamGoRocket)
    else if eventType == "go-battle-league" then Some(GoBattleLeague)
    else if eventType == "season" then Some(Season)
    else if eventType == "pokemon-go-tour" then Some(GoTour)
    else if eventType == "timed-research" || eventType == "special-research" then Some(TimedResearch)
    else if eventType == "max-battles" then Some(MaxBattles)
    else if eventType == "max-mondays" then Some(MaxMondays)
    else if eventType == "go-pass" then Some(GoPass)
    else if eventType == "pokestop-showcase" then Some(PokestopShowcase)
    else if eventType == "research" then Some(Research)
    else if eventType == "event" then Some(EventScraper)
    else None
  }

  /** The lookup answers exactly the pairs of the map, and a type outside
      it gets no specific scraper. */
  lemma ScraperForTable(t: string, s: Scraper)
    ensures ScraperFor(t) == Some(s) <==> (t, s) in ScraperMap
  {
    if ScraperFor(t) == Some(s) {
      FoundInTable(t);
    }
    if (t, s) in ScraperMap {
      TableFound(t, s);
    }
  }

  lemma FoundInTable(t: string)
    requires ScraperFor(t).Some?
    ensures (t, ScraperFor(t).value) in ScraperMap
  {
  }

  lemma TableFound(t: string, s: Scraper)
    requires (t, s) in ScraperMap
    ensures ScraperFor(t) == Some(s)
  {
    var i :| 0 <= i < |ScraperMap| && ScraperMap[i] == (t, s);
    if i < 7 {
      TableRows(0, 7);
    } else if i < 13 {
      TableRows(7, 13);
    } else {
      TableRows(13, 19);
    }
  }

  lemma TableRows(lo: nat, hi: nat)
    requires lo <= hi <= |ScraperMap| && hi - lo <= 7
    ensures forall i :: lo <= i < hi ==> ScraperFor(ScraperMap[i].0) == Some(ScraperMap[i].1)
  {
  }

  /** The two aliases share their scraper with the main spelling. */
  lemma Aliases()
    ensures ScraperFor("go-rocket-takeover") == ScraperFor("team-go-rocket") == Some(TeamGoRocket)
    ensures ScraperFor("special-research") == ScraperFor("timed-research") == Some(TimedResearch)
  {
  }

  // ------------------------------------------------------- flattening

  /** The array-valued members of an object, concatenated in order. */
  function ArrayMembers(fields: seq<Field>): (r: seq<Json>)
    decreases |fields|
  {
    if fields == [] then []
    else
      var last := fields[|fields| - 1];
      ArrayMembers(fields[..|fields| - 1]) + (if last.val.JArr? then last.val.items else [])
  }

  /** The event list of a parsed events file: an array as it is, an object
      of per-type arrays concatenated, anything else empty. */
  function Flatten(data: Json): (r: seq<Json>)
    ensures data.JArr? ==> r == data.items
    ensures !data.JArr? && !data.JObj? ==> r == []
  {
    match data
    case JArr(items) => items
    case JObj(fields) => ArrayMembers(fields)
    case _ => []
  }

  /** Members that are not arrays contribute nothing; an array member adds
      its items after those of the members before it. */
  lemma FlattenAppend(fields: seq<Field>, key: string, v: Json)
    ensures Flatten(JObj(fields + [Field(key, v)])) == Flatten(JObj(fields)) + (if v.JArr? then v.items else [])
  {
    assert (fields + [Field(key, v)])[..|fields|] == fields;
  }

  /** Every flattened event comes from one of the object's arrays, and every
      item of those arrays is kept. */
  lemma {:induction false} FlattenMembers(fields: seq<Field>, x: Json)
    ensures x in ArrayMembers(fields) <==> exists i :: 0 <= i < |fields| && fields[i].val.JArr? && x in fields[i].val.items
    decreases |fields|
  {
    if fields != [] {
      var init := fields[..|fields| - 1];
      FlattenMembers(init, x);
      assert forall i :: 0 <= i < |init| ==> init[i] == fields[i];
    }
  }

  // ------------------------------------------------------- dispatch

  /** `${value}` for the property values an event can hold; an absent
      property prints "undefined". */
  function TemplateText(v: Option<Json>): string {
    match v
    case None => "undefined"
    case Some(JNull) => "null"
    case Some(JBool(b)) => if b then "true" else "false"
    case Some(JNum(n)) => IntText(n)
    case Some(JStr(s)) => s
    case Some(JArr(_)) => ""
    case Some(JObj(_)) => "[object Object]"
  }

  function EventLink(id: string): string {
    "https://www.leekduck.com/events/" + id + "/"
  }

  /** One `scraper.get(link, eventID, bkp)`. */
  datatype Call = Call(scraper: Scraper, link: string, eventID: string, backup: seq<Json>)

  /** The type-specific scraper an event selects. */
  function Selected(e: Json): (r: Option<Scraper>)
    ensures r != Some(Generic)
  {
    ScraperFor(TemplateText(Prop(e, "eventType")))
  }

  /** The calls made for one event: the generic scraper first, then the
      type-specific one chosen by `select`, if any. */
  function EventCalls(e: Json, bkp: seq<Json>, select: Json -> Option<Scraper>): (r: seq<Call>)
    ensures 1 <= |r| <= 2 && r[0].scraper == Generic
    ensures |r| == 2 <==> select(e).Some?
    ensures |r| == 2 ==> Some(r[1].scraper) == select(e)
    ensures forall c :: c in r ==> c.eventID == TemplateText(Prop(e, "eventID")) && c.link == EventLink(c.eventID) && c.backup == bkp
  {
    var id := TemplateText(Prop(e, "eventID"));
    var link := EventLink(id);
    var generic := Call(Generic, link, id, bkp);
    match select(e)
    case Some(s) => [generic, Call(s, link, id, bkp)]
    case None => [generic]
  }

  /** The calls for all events, in event order. */
  function Calls(events: seq<Json>, bkp: seq<Json>, select: Json -> Option<Scraper>): (r: seq<Call>)
    ensures forall c :: c in r ==> c.backup == bkp && c.link == EventLink(c.eventID)
    decreases |events|
  {
    if events == [] then []
    else Calls(events[..|events| - 1], bkp, select) + EventCalls(events[|events| - 1], bkp, select)
  }

  /** `main()` after the files are read: `backup` is the parsed CDN copy,
      `None` when the request or the parse failed, in which case nothing is
      scraped. */
  function DetailedScrape(eventsData: Json, backup: Option<Json>): (r: seq<Call>)
    ensures backup.None? ==> r == []
    ensures backup.Some? ==> forall c :: c in r ==> c.backup == Flatten(backup.value)
  {
    match backup
    case None => []
    case Some(b) => Calls(Flatten(eventsData), Flatten(b), Selected)
  }

  // ------------------------------------------------------- counting

  function CountScraper(cs: seq<Call>, s: Scraper): (n: nat)
    ensures n <= |cs|
    decreases |cs|
  {
    if cs == [] then 0
    else CountScraper(cs[..|cs| - 1], s) + (if cs[|cs| - 1].scraper == s then 1 else 0)
  }

  /** Number of events that select `s`. */
  function CountTyped(events: seq<Json>, select: Json -> Option<Scraper>, s: Scraper): (n: nat)
    decreases |events|
  {
    if events == [] then 0
    else CountTyped(events[..|events| - 1], select, s) + (if select(events[|events| - 1]) == Some(s) then 1 else 0)
  }

  lemma {:induction false} CountAppend(a: seq<Call>, b: seq<Call>, s: Scraper)
    ensures CountScraper(a + b, s) == CountScraper(a, s) + CountScraper(b, s)
    decreases |b|
  {
    if b != [] {
      var init := b[..|b| - 1];
      CountAppend(a, init, s);
      assert (a + b)[..|a + b| - 1] == a + init;
      assert (a + b)[|a + b| - 1] == b[|b| - 1];
      assert CountScraper(b, s) == CountScraper(init, s) + (if b[|b| - 1].scraper == s then 1 else 0);
    } else {
      assert a + b == a;
    }
  }

  /** The generic scraper runs exactly once per event, and every other
      scraper once per event that selects it. */
  lemma {:induction false} CallCounts(events: seq<Json>, bkp: seq<Json>, select: Json -> Option<Scraper>, s: Scraper)
    requires forall e :: select(e) != Some(Generic)
    ensures CountScraper(Calls(events, bkp, select), s) == if s == Generic then |events| else CountTyped(events, select, s)
    decreases |events|
  {
    if events != [] {
      var init := events[..|events| - 1];
      var e := events[|events| - 1];
      var before, last := Calls(init, bkp, select), EventCalls(e, bkp, select);
      assert Calls(events, bkp, select) == before + last;
      assert CountTyped(events, select, s) == CountTyped(init, select, s) + (if select(e) == Some(s) then 1 else 0);
      CallCounts(init, bkp, select, s);
      CountAppend(before, last, s);
      EventCount(e, bkp, select, s);
    }
  }

  lemma EventCount(e: Json, bkp: seq<Json>, select: Json -> Option<Scraper>, s: Scraper)
    requires select(e) != Some(Generic)
    ensures CountScraper(EventCalls(e, bkp, select), s) == if s == Generic || select(e) == Some(s) then 1 else 0
  {
    var ec := EventCalls(e, bkp, select);
    if |ec| == 2 {
      assert ec[..1] == [ec[0]];
      assert ec[..1][..0] == [];
    } else {
      assert ec[..0] == [];
    }
  }

  /** In the scrape of a backed-up run, the generic scraper is called once
      per flattened event and each specific scraper once per event whose
      type maps to it. */
  lemma DetailedScrapeCounts(eventsData: Json, b: Json, s: Scraper)
    ensures CountScraper(DetailedScrape(eventsData, Some(b)), s)
      == if s == Generic then |Flatten(eventsData)| else CountTyped(Flatten(eventsData), Selected, s)
  {
    CallCounts(Flatten(eventsData), Flatten(b), Selected, s);
  }

  /** The calls of event `k` follow those of the events before it. */
  lemma CallsOfEvent(events: seq<Json>, bkp: seq<Json>, select: Json -> Option<Scraper>, k: nat)
    requires k < |events|
    ensures Calls(events[..k + 1], bkp, select) == Calls(events[..k], bkp, select) + EventCalls(events[k], bkp, select)
  {
    assert events[..k + 1][..k] == events[..k];
  }
}
