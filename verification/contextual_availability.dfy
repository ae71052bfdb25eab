/** What can be obtained right now, by source: raid tiers and egg pools
    (their key normalisers), research encounters and item rewards, and the
    rocket leaders and grunts with their catchable Pokémon. */
module ContextualAvailability {
  import opened Wrappers
  import opened Strings
  import opened Sorting
  import opened ContextualData

  // ----------------------------------------------------------- raid tiers

  /** `normalizeTierKey`: the first of mega, 5, 3, 1 stars whose marker the
      lower-cased header mentions; `None` for an empty header. */
  function TierKey(tier: string): (r: Option<string>)
    ensures var l := Lower(tier);
      && (r == None <==> tier == "" || !(Contains(l, "mega") || Contains(l, "5") || Contains(l, "five")
                                      || Contains(l, "3") || Contains(l, "three") || Contains(l, "1") || Contains(l, "one")))
      && (r == Some("mega") <==> tier != "" && Contains(l, "mega"))
      && (r == Some("5-star") <==> tier != "" && !Contains(l, "mega") && (Contains(l, "5") || Contains(l, "five")))
      && (r == Some("3-star") <==> tier != "" && !Contains(l, "mega") && !(Contains(l, "5") || Contains(l, "five"))
                                   && (Contains(l, "3") || Contains(l, "three")))
      && (r == Some("1-star") <==> tier != "" && !Contains(l, "mega") && !(Contains(l, "5") || Contains(l, "five"))
                                   && !(Contains(l, "3") || Contains(l, "three")) && (Contains(l, "1") || Contains(l, "one")))
  {
    if tier == "" then None
    else
      var l := Lower(tier);
      if Contains(l, "mega") then Some("mega")
      else if Contains(l, "5") || Contains(l, "five") then Some("5-star")
      else if Contains(l, "3") || Contains(l, "three") then Some("3-star")
      else if Contains(l, "1") || Contains(l, "one") then Some("1-star")
      else None
  }

  /** Lower-casing the header first changes nothing. */
  lemma TierKeyIgnoresCase(tier: string)
    ensures TierKey(Lower(tier)) == TierKey(tier)
  {
    LowerIdempotent(tier);
  }

  // ------------------------------------------------------------ egg pools

  const EggPools: set<string> := {"2km", "5km", "7km", "10km", "12km", "adventureSync5km", "adventureSync10km"}

  /** The egg type without white space, lower-cased. */
  function EggDistance(eggType: string): string {
    Lower(RemoveSpaces(eggType))
  }

  /** `normalizeEggPool`: Adventure Sync eggs are tried against 5 and 10
      first; then 2 (or 1km), 5, 7, 10 and 12 are tried in that order. */
  function EggPool(eggType: string, adventureSync: bool): (r: Option<string>)
    ensures eggType == "" ==> r == None
    ensures r.Some? ==> r.value in EggPools
    ensures var d := EggDistance(eggType);
      && (r == Some("adventureSync5km") <==> eggType != "" && adventureSync && Contains(d, "5"))
      && (r == Some("adventureSync10km") <==> eggType != "" && adventureSync && !Contains(d, "5") && Contains(d, "10"))
      && (r == Some("2km") <==> eggType != "" && !(adventureSync && (Contains(d, "5") || Contains(d, "10")))
                                && (Contains(d, "2") || Contains(d, "1km")))
  {
    if eggType == "" then None
    else
      var d := EggDistance(eggType);
      if adventureSync && Contains(d, "5") then Some("adventureSync5km")
      else if adventureSync && Contains(d, "10") then Some("adventureSync10km")
      else if Contains(d, "2") || Contains(d, "1km") then Some("2km")
      else if Contains(d, "5") then Some("5km")
      else if Contains(d, "7") then Some("7km")
      else if Contains(d, "10") then Some("10km")
      else if Contains(d, "12") then Some("12km")
      else None
  }

  /** Every text mentioning 12 also mentions 2, which is looked for earlier: the
      12 km pool is never chosen. */
  lemma TwelveKmUnreachable(eggType: string, adventureSync: bool)
    ensures EggPool(eggType, adventureSync) != Some("12km")
  {
    var d := EggDistance(eggType);
    if Contains(d, "12") {
      var i := ContainsWitness(d, "12");
      assert d[i + 1..i + 2] == "2";
      ContainsAt(d, "2", i + 1);
    }
  }

  /** `normalizeEggPool` with the 12 test moved before the 2 test, so that
      a 12 km egg reaches its own pool; every other egg type lands where the
      source's order puts it. */
  function EggPoolCorrected(eggType: string, adventureSync: bool): (r: Option<string>)
    ensures r.Some? ==> r.value in EggPools
    ensures var d := EggDistance(eggType);
      r == Some("12km") <==> eggType != "" && !(adventureSync && (Contains(d, "5") || Contains(d, "10"))) && Contains(d, "12")
    ensures !Contains(EggDistance(eggType), "12") ==> r == EggPool(eggType, adventureSync)
  {
    var d := EggDistance(eggType);
    if eggType != "" && !(adventureSync && (Contains(d, "5") || Contains(d, "10"))) && Contains(d, "12") then Some("12km")
    else
      TwelveKmUnreachable(eggType, adventureSync);
      EggPool(eggType, adventureSync)
  }

  /** With the corrected order, a 12 km egg goes to the 12 km pool. */
  lemma TwelveKmCorrected()
    ensures EggPoolCorrected("12 km", false) == Some("12km")
    ensures EggPool("12 km", false) != EggPoolCorrected("12 km", false)
  {
    TwelveKmText();
    ContainsAt("12km", "12", 0);
  }

  /** An Adventure Sync egg that is neither a 5 nor a 10 lands in the pool
      of the plain egg of the same type. */
  lemma AdventureSyncFallsThrough(eggType: string)
    requires !Contains(EggDistance(eggType), "5") && !Contains(EggDistance(eggType), "10")
    ensures EggPool(eggType, true) == EggPool(eggType, false)
  {
  }

  lemma TwelveKmText()
    ensures EggDistance("12 km") == "12km"
  {
    SpacedDistance("12", "km");
    assert "12" + " " + "km" == "12 km";
    assert "12" + "km" == "12km";
  }

  /** A number and a lower-case unit with one space between them. */
  lemma SpacedDistance(n: string, u: string)
    requires forall i :: 0 <= i < |n| ==> !IsSpace(n[i]) && !IsUpper(n[i])
    requires forall i :: 0 <= i < |u| ==> !IsSpace(u[i]) && !IsUpper(u[i])
    ensures EggDistance(n + " " + u) == n + u
  {
    AppendAssoc(n, " ", u);
    RemoveSpacesAppend(n, " " + u);
    assert (" " + u)[1..] == u;
    var t := n + u;
    assert forall i :: 0 <= i < |t| ==> !IsUpper(t[i]);
  }

  /** The 12 km egg of the scraped pages goes to the 2 km pool. */
  lemma TwelveKmIsTwo()
    ensures EggPool("12 km", false) == Some("2km")
  {
    TwelveKmText();
    assert "12km"[1..2] == "2";
    ContainsAt("12km", "2", 1);
  }

  // ------------------------------------------------------------- research

  datatype TaskRef = TaskRef(text: string, kind: string)

  /** One encounter reward, with the task that gives it. */
  datatype Seen = Seen(pokemon: string, task: TaskRef, info: RewardInfo)

  datatype ItemReward = ItemReward(item: string, task: TaskRef, quantity: Option<int>, image: string)

  /** An encounter with every task that rewards it. */
  datatype Encounter = Encounter(pokemon: string, info: RewardInfo, tasks: seq<TaskRef>)

  datatype Research = Research(encounters: seq<Encounter>, itemRewards: seq<ItemReward>)

  const MaxItemRewards: nat := 50

  function TaskRewards(t: Task): seq<Reward> {
    t.rewards.GetOr([])
  }

  function SeenIn(t: Task, rs: seq<Reward>): (r: seq<Seen>)
    ensures |r| <= |rs|
  {
    if rs == [] then []
    else
      (if rs[0].kind == "encounter" then [Seen(rs[0].name, TaskRef(t.text, t.kind), rs[0].info)] else [])
      + SeenIn(t, rs[1..])
  }

  function ItemsIn(t: Task, rs: seq<Reward>): (r: seq<ItemReward>)
    ensures |r| <= |rs|
  {
    if rs == [] then []
    else
      (if rs[0].kind == "item" then [ItemReward(rs[0].name, TaskRef(t.text, t.kind), rs[0].quantity, rs[0].info.image)]
       else [])
      + ItemsIn(t, rs[1..])
  }

  /** Every encounter reward of every task, in task order. */
  function AllSeen(tasks: seq<Task>): seq<Seen> {
    if tasks == [] then [] else SeenIn(tasks[0], TaskRewards(tasks[0])) + AllSeen(tasks[1..])
  }

  function AllItems(tasks: seq<Task>): seq<ItemReward> {
    if tasks == [] then [] else ItemsIn(tasks[0], TaskRewards(tasks[0])) + AllItems(tasks[1..])
  }

  function SeenNames(es: seq<Seen>): (r: seq<string>)
    ensures |r| == |es|
    ensures forall i :: 0 <= i < |es| ==> r[i] == es[i].pokemon
  {
    if es == [] then [] else SeenNames(es[..|es| - 1]) + [es[|es| - 1].pokemon]
  }

  function Names(gs: seq<Encounter>): (r: seq<string>)
    ensures |r| == |gs|
    ensures forall i :: 0 <= i < |gs| ==> r[i] == gs[i].pokemon
  {
    if gs == [] then [] else Names(gs[..|gs| - 1]) + [gs[|gs| - 1].pokemon]
  }

  /** Reference: the tasks of every encounter with that name, in order. */
  function TasksOf(es: seq<Seen>, name: string): seq<TaskRef> {
    if es == [] then []
    else TasksOf(es[..|es| - 1], name) + (if es[|es| - 1].pokemon == name then [es[|es| - 1].task] else [])
  }

  /** Reference: the data of the first encounter with that name. */
  function FirstInfo(es: seq<Seen>, name: string): Option<RewardInfo> {
    if es == [] then None
    else
      var before := FirstInfo(es[..|es| - 1], name);
      if before.Some? then before
      else if es[|es| - 1].pokemon == name then Some(es[|es| - 1].info)
      else None
  }

  function Find(gs: seq<Encounter>, name: string): (r: Option<nat>)
    ensures r.Some? ==> r.value < |gs| && gs[r.value].pokemon == name
    ensures r.None? ==> name !in Names(gs)
  {
    if gs == [] then None
    else
      var last := |gs| - 1;
      var before := Find(gs[..last], name);
      if before.Some? then before
      else if gs[last].pokemon == name then Some(last)
      else None
  }

  /** Record one encounter: add its task to the group of that name, or open
      a group with its data. */
  function AddSeen(gs: seq<Encounter>, e: Seen): seq<Encounter> {
    match Find(gs, e.pokemon)
    case Some(i) => gs[i := gs[i].(tasks := gs[i].tasks + [e.task])]
    case None => gs + [Encounter(e.pokemon, e.info, [e.task])]
  }

  function Group(es: seq<Seen>): seq<Encounter> {
    if es == [] then [] else AddSeen(Group(es[..|es| - 1]), es[|es| - 1])
  }

  /** Sum of the group sizes. */
  function TaskTotal(gs: seq<Encounter>): nat {
    if gs == [] then 0 else TaskTotal(gs[..|gs| - 1]) + |gs[|gs| - 1].tasks|
  }

  /** Each group holds every task rewarding its Pokémon. */
  ghost predicate TasksOk(gs: seq<Encounter>, es: seq<Seen>) {
    forall i :: 0 <= i < |gs| ==> gs[i].tasks == TasksOf(es, gs[i].pokemon)
  }

  /** Each group carries the data of its Pokémon's first encounter. */
  ghost predicate InfoOk(gs: seq<Encounter>, es: seq<Seen>) {
    forall i :: 0 <= i < |gs| ==> FirstInfo(es, gs[i].pokemon) == Some(gs[i].info)
  }

  /** The groups of `es`: one per name in order of first appearance. */
  ghost predicate Grouped(gs: seq<Encounter>, es: seq<Seen>) {
    Names(gs) == Dedup(SeenNames(es)) && TasksOk(gs, es) && InfoOk(gs, es) && TaskTotal(gs) == |es|
  }

  lemma {:induction false} AbsentName(es: seq<Seen>, name: string)
    requires name !in SeenNames(es)
    ensures TasksOf(es, name) == [] && FirstInfo(es, name) == None
  {
    if es != [] {
      assert SeenNames(es[..|es| - 1]) == SeenNames(es)[..|es| - 1];
      AbsentName(es[..|es| - 1], name);
    }
  }

  lemma {:induction false} TaskTotalUpdate(gs: seq<Encounter>, i: nat, g: Encounter)
    requires i < |gs|
    ensures TaskTotal(gs[i := g]) == TaskTotal(gs) - |gs[i].tasks| + |g.tasks|
  {
    var last := |gs| - 1;
    assert gs[i := g][..last] == if i < last then gs[..last][i := g] else gs[..last];
    if i < last {
      TaskTotalUpdate(gs[..last], i, g);
    }
  }

  lemma TaskTotalAppend(gs: seq<Encounter>, g: Encounter)
    ensures TaskTotal(gs + [g]) == TaskTotal(gs) + |g.tasks|
  {
    assert (gs + [g])[..|gs|] == gs;
  }

  /** How the reference functions extend by one encounter. */
  lemma SeenAppend(es: seq<Seen>, e: Seen)
    ensures SeenNames(es + [e]) == SeenNames(es) + [e.pokemon]
    ensures forall n :: TasksOf(es + [e], n) == TasksOf(es, n) + (if e.pokemon == n then [e.task] else [])
    ensures forall n :: FirstInfo(es, n).Some? ==> FirstInfo(es + [e], n) == FirstInfo(es, n)
    ensures FirstInfo(es, e.pokemon).None? ==> FirstInfo(es + [e], e.pokemon) == Some(e.info)
  {
    assert (es + [e])[..|es|] == es;
  }

  lemma DedupAppend(xs: seq<string>, x: string)
    ensures Dedup(xs + [x]) == if x in xs then Dedup(xs) else Dedup(xs) + [x]
  {
    assert (xs + [x])[..|xs|] == xs;
  }

  lemma NamesFound(gs: seq<Encounter>, e: Seen, i: nat)
    requires Find(gs, e.pokemon) == Some(i)
    ensures Names(AddSeen(gs, e)) == Names(gs)
  {
    var gs' := AddSeen(gs, e);
    forall k | 0 <= k < |gs| ensures Names(gs')[k] == Names(gs)[k] { }
  }

  lemma TasksOfAppend(es: seq<Seen>, e: Seen, n: string)
    ensures TasksOf(es + [e], n) == TasksOf(es, n) + (if e.pokemon == n then [e.task] else [])
  {
    assert (es + [e])[..|es|] == es;
  }

  lemma TasksFound(gs: seq<Encounter>, es: seq<Seen>, e: Seen, i: nat)
    requires TasksOk(gs, es) && Find(gs, e.pokemon) == Some(i) && Distinct(Names(gs))
    ensures TasksOk(AddSeen(gs, e), es + [e])
  {
    var gs' := gs[i := gs[i].(tasks := gs[i].tasks + [e.task])];
    assert AddSeen(gs, e) == gs';
    forall k | 0 <= k < |gs'| ensures gs'[k].tasks == TasksOf(es + [e], gs'[k].pokemon) {
      TasksOfAppend(es, e, gs[k].pokemon);
      assert gs[k].tasks == TasksOf(es, gs[k].pokemon);
      if k != i {
        assert Names(gs)[k] != Names(gs)[i];
      }
    }
  }

  lemma InfoFound(gs: seq<Encounter>, es: seq<Seen>, e: Seen, i: nat)
    requires InfoOk(gs, es) && Find(gs, e.pokemon) == Some(i)
    ensures InfoOk(AddSeen(gs, e), es + [e])
  {
    var gs' := AddSeen(gs, e);
    SeenAppend(es, e);
    forall k | 0 <= k < |gs'| ensures FirstInfo(es + [e], gs'[k].pokemon) == Some(gs'[k].info) {
      assert FirstInfo(es, gs[k].pokemon) == Some(gs[k].info);
    }
  }

  lemma GroupedStepFound(gs: seq<Encounter>, es: seq<Seen>, e: Seen, i: nat)
    requires Grouped(gs, es) && Find(gs, e.pokemon) == Some(i)
    ensures Grouped(AddSeen(gs, e), es + [e])
  {
    SeenAppend(es, e);
    assert e.pokemon in Names(gs);
    DedupAppend(SeenNames(es), e.pokemon);
    NamesFound(gs, e, i);
    TasksFound(gs, es, e, i);
    InfoFound(gs, es, e, i);
    TaskTotalUpdate(gs, i, AddSeen(gs, e)[i]);
  }

  lemma TasksNew(gs: seq<Encounter>, es: seq<Seen>, e: Seen)
    requires TasksOk(gs, es) && Find(gs, e.pokemon).None? && e.pokemon !in SeenNames(es)
    ensures TasksOk(AddSeen(gs, e), es + [e])
  {
    var gs' := AddSeen(gs, e);
    SeenAppend(es, e);
    AbsentName(es, e.pokemon);
    forall k | 0 <= k < |gs'| ensures gs'[k].tasks == TasksOf(es + [e], gs'[k].pokemon) {
      if k < |gs| {
        assert gs'[k] == gs[k];
        assert gs[k].tasks == TasksOf(es, gs[k].pokemon);
        assert gs[k].pokemon in Names(gs);
      }
    }
  }

  lemma InfoNew(gs: seq<Encounter>, es: seq<Seen>, e: Seen)
    requires InfoOk(gs, es) && Find(gs, e.pokemon).None? && e.pokemon !in SeenNames(es)
    ensures InfoOk(AddSeen(gs, e), es + [e])
  {
    var gs' := AddSeen(gs, e);
    SeenAppend(es, e);
    AbsentName(es, e.pokemon);
    forall k | 0 <= k < |gs'| ensures FirstInfo(es + [e], gs'[k].pokemon) == Some(gs'[k].info) {
      if k < |gs| {
        assert gs'[k] == gs[k];
        assert FirstInfo(es, gs[k].pokemon) == Some(gs[k].info);
      }
    }
  }

  lemma GroupedStepNew(gs: seq<Encounter>, es: seq<Seen>, e: Seen)
    requires Grouped(gs, es) && Find(gs, e.pokemon).None?
    ensures Grouped(AddSeen(gs, e), es + [e])
  {
    var gs' := AddSeen(gs, e);
    SeenAppend(es, e);
    assert e.pokemon !in SeenNames(es);
    DedupAppend(SeenNames(es), e.pokemon);
    assert gs'[..|gs|] == gs;
    assert Names(gs') == Names(gs) + [e.pokemon];
    TasksNew(gs, es, e);
    InfoNew(gs, es, e);
    TaskTotalAppend(gs, gs'[|gs|]);
  }

  lemma GroupedStep(gs: seq<Encounter>, es: seq<Seen>, e: Seen)
    requires Grouped(gs, es)
    ensures Grouped(AddSeen(gs, e), es + [e])
  {
    match Find(gs, e.pokemon)
    case Some(i) => GroupedStepFound(gs, es, e, i);
    case None => GroupedStepNew(gs, es, e);
  }

  lemma {:induction false} GroupGrouped(es: seq<Seen>)
    ensures Grouped(Group(es), es)
  {
    if es != [] {
      var init, e := es[..|es| - 1], es[|es| - 1];
      assert init + [e] == es;
      GroupGrouped(init);
      GroupedStep(Group(init), init, e);
    }
  }

  /** `buildResearchAvailability`. */
  function BuildResearch(tasks: seq<Task>): (r: Research)
    ensures Grouped(r.encounters, AllSeen(tasks))
    ensures r.itemRewards == if |AllItems(tasks)| <= MaxItemRewards then AllItems(tasks)
                             else AllItems(tasks)[..MaxItemRewards]
  {
    GroupGrouped(AllSeen(tasks));
    var items := AllItems(tasks);
    Research(Group(AllSeen(tasks)), if |items| <= MaxItemRewards then items else items[..MaxItemRewards])
  }

  /** One group per encountered Pokémon, in order of first appearance, each
      with every task rewarding it; no encounter is lost; at most 50 items. */
  lemma ResearchAvailability(tasks: seq<Task>)
    ensures var r := BuildResearch(tasks);
      && Distinct(Names(r.encounters))
      && (forall n :: n in Names(r.encounters) <==> n in SeenNames(AllSeen(tasks)))
      && TaskTotal(r.encounters) == |AllSeen(tasks)|
      && |r.itemRewards| <= MaxItemRewards
  {
  }

  // --------------------------------------------------------------- rocket

  const LeaderNames: seq<string> := ["Giovanni", "Cliff", "Arlo", "Sierra"]

  datatype Catchable = Catchable(name: string, image: string, canBeShiny: bool, slot: nat)

  datatype RocketEntry = RocketEntry(name: string, title: string, kind: Option<string>,
                                     catchable: seq<Catchable>, first: seq<string>, second: seq<string>, third: seq<string>)

  datatype Rocket = Rocket(leaders: seq<RocketEntry>, grunts: seq<RocketEntry>)

  /** The encounter Pokémon of one slot, tagged with its 1-based number. */
  function SlotCatchable(slot: seq<Mon>, k: nat): (r: seq<Catchable>)
    ensures |r| <= |slot|
    ensures forall c :: c in r ==> c.slot == k
    ensures forall c :: c in r <==> exists m :: m in slot && m.isEncounter && c == Catchable(m.name, m.image, m.canBeShiny, k)
  {
    if slot == [] then []
    else
      var m := slot[0];
      assert forall x :: x in slot <==> x == m || x in slot[1..];
      (if m.isEncounter then [Catchable(m.name, m.image, m.canBeShiny, k)] else []) + SlotCatchable(slot[1..], k)
  }

  function MonNames(s: seq<Mon>): (r: seq<string>)
    ensures |r| == |s|
    ensures forall i :: 0 <= i < |s| ==> r[i] == s[i].name
  {
    if s == [] then [] else [s[0].name] + MonNames(s[1..])
  }

  function CatchableOf(l: Lineup): seq<Catchable> {
    SlotCatchable(l.first.GetOr([]), 1) + SlotCatchable(l.second.GetOr([]), 2) + SlotCatchable(l.third.GetOr([]), 3)
  }

  function RocketEntryOf(l: Lineup): RocketEntry {
    RocketEntry(l.name, l.title, if l.kind == Some("") then None else l.kind, CatchableOf(l),
                MonNames(l.first.GetOr([])), MonNames(l.second.GetOr([])), MonNames(l.third.GetOr([])))
  }

  /** `buildRocketAvailability`: the four named leaders apart from the
      grunts, each group in input order. */
  function BuildRocket(lineups: seq<Lineup>): (r: Rocket)
    ensures |r.leaders| + |r.grunts| == |lineups|
    ensures forall x :: x in r.leaders <==> exists l :: l in lineups && l.name in LeaderNames && x == RocketEntryOf(l)
    ensures forall x :: x in r.grunts <==> exists l :: l in lineups && l.name !in LeaderNames && x == RocketEntryOf(l)
  {
    if lineups == [] then Rocket([], [])
    else
      var l := lineups[0];
      var rest := BuildRocket(lineups[1..]);
      assert forall x :: x in lineups <==> x == l || x in lineups[1..];
      if l.name in LeaderNames then Rocket([RocketEntryOf(l)] + rest.leaders, rest.grunts)
      else Rocket(rest.leaders, [RocketEntryOf(l)] + rest.grunts)
  }

  /** The catchable list holds the encounter Pokémon of the three slots in
      slot order, each tagged with its slot. */
  lemma CatchableSlots(l: Lineup)
    ensures forall i, j :: 0 <= i < j < |CatchableOf(l)| ==> CatchableOf(l)[i].slot <= CatchableOf(l)[j].slot
    ensures forall c :: c in CatchableOf(l) ==> 1 <= c.slot <= 3 && exists m :: m in Slots(l)[c.slot - 1] && m.isEncounter && m.name == c.name
    ensures |CatchableOf(l)| <= |Slots(l)[0]| + |Slots(l)[1]| + |Slots(l)[2]|
  {
    var a, b, c := SlotCatchable(l.first.GetOr([]), 1), SlotCatchable(l.second.GetOr([]), 2), SlotCatchable(l.third.GetOr([]), 3);
    SlotTags(a, b, c);
  }

  /** Three runs tagged 1, 2 and 3, one after the other, are ordered by tag. */
  lemma SlotTags(a: seq<Catchable>, b: seq<Catchable>, c: seq<Catchable>)
    requires forall x :: x in a ==> x.slot == 1
    requires forall x :: x in b ==> x.slot == 2
    requires forall x :: x in c ==> x.slot == 3
    ensures var all := a + b + c; forall i, j :: 0 <= i < j < |all| ==> all[i].slot <= all[j].slot
  {
    var all := a + b + c;
    forall i | 0 <= i < |all|
      ensures all[i].slot == if i < |a| then 1 else if i < |a| + |b| then 2 else 3
    {
      if i < |a| { assert all[i] == a[i]; }
      else if i < |a| + |b| { assert all[i] == b[i - |a|]; }
      else { assert all[i] == c[i - |a| - |b|]; }
    }
  }

}
