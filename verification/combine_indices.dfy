/** The lookup tables and statistics of the unified data file: events by id
    and by type, raids by tier and by Pokémon, eggs by distance, research by
    type, shinies by dex number and by name, rocket lineups by type, and the
    counts computed from them. */
module CombineIndices {
  import opened Wrappers
  import opened Sorting
  import opened Grouping
  import ContextualData
  import CombineAll

  /** The fields of a raid boss the tables read. */
  datatype RaidRow = RaidRow(name: string, tier: string)

  /** The fields of a shiny record the tables read; a missing or zero dex
      number leaves the record out of `shiniesByDex`. */
  datatype ShinyRow = ShinyRow(name: string, dexNumber: Option<int>)

  /** The unified data the tables are built from. A missing string field is
      the empty string; `eventTypes` holds the per-type event arrays. */
  datatype Unified<V> = Unified(
    events: seq<ContextualData.Event>, eventTypes: map<string, seq<V>>,
    raids: seq<RaidRow>, eggTypes: seq<string>, researchTypes: seq<string>,
    shinies: seq<ShinyRow>, rocketTypes: seq<string>, pokemonIndex: CombineAll.Index)

  /** `s || fallback` on a string. */
  function OrElse(s: string, fallback: string): (r: string)
    ensures r != "" || fallback == ""
    ensures s != "" ==> r == s
  {
    if s == "" then fallback else s
  }

  // --------------------------------------------------------- key columns

  function EventTypeKeys(events: seq<ContextualData.Event>): (r: seq<string>)
    ensures |r| == |events| && forall i :: 0 <= i < |events| ==> r[i] == OrElse(events[i].eventType, "unknown")
  {
    seq(|events|, i requires 0 <= i < |events| => OrElse(events[i].eventType, "unknown"))
  }

  function EventIds(events: seq<ContextualData.Event>): (r: seq<string>)
    ensures |r| == |events| && forall i :: 0 <= i < |events| ==> r[i] == events[i].eventID
  {
    seq(|events|, i requires 0 <= i < |events| => events[i].eventID)
  }

  function TierKeys(raids: seq<RaidRow>): (r: seq<string>)
    ensures |r| == |raids| && forall i :: 0 <= i < |raids| ==> r[i] == OrElse(raids[i].tier, "unknown")
  {
    seq(|raids|, i requires 0 <= i < |raids| => OrElse(raids[i].tier, "unknown"))
  }

  function RaidNames(raids: seq<RaidRow>): (r: seq<string>)
    ensures |r| == |raids| && forall i :: 0 <= i < |raids| ==> r[i] == raids[i].name
  {
    seq(|raids|, i requires 0 <= i < |raids| => raids[i].name)
  }

  function RaidNameKeys(raids: seq<RaidRow>): (r: seq<string>)
    ensures |r| == |raids| && forall i :: 0 <= i < |raids| ==> r[i] == CombineAll.NormalizeName(raids[i].name)
  {
    seq(|raids|, i requires 0 <= i < |raids| => CombineAll.NormalizeName(raids[i].name))
  }

  /** Each value with `fallback` for the empty string. */
  function Fallback(values: seq<string>, fallback: string): (r: seq<string>)
    ensures |r| == |values| && forall i :: 0 <= i < |values| ==> r[i] == OrElse(values[i], fallback)
  {
    seq(|values|, i requires 0 <= i < |values| => OrElse(values[i], fallback))
  }

  /** `(dexNumber, position)` of each shiny with a truthy dex number, in
      input order. */
  function DexPairs(shinies: seq<ShinyRow>): (r: seq<(int, nat)>)
    ensures forall p :: p in r <==> p.1 < |shinies| && shinies[p.1].dexNumber == Some(p.0) && p.0 != 0
    decreases |shinies|
  {
    if shinies == [] then []
    else
      var n := |shinies| - 1;
      var rest := DexPairs(shinies[..n]);
      assert forall i :: 0 <= i < n ==> shinies[..n][i] == shinies[i];
      match shinies[n].dexNumber
      case Some(d) => if d != 0 then rest + [(d, n)] else rest
      case None => rest
  }

  function Firsts<A, B>(ps: seq<(A, B)>): (r: seq<A>)
    ensures |r| == |ps| && forall i :: 0 <= i < |ps| ==> r[i] == ps[i].0
  {
    seq(|ps|, i requires 0 <= i < |ps| => ps[i].0)
  }

  function Seconds<A, B>(ps: seq<(A, B)>): (r: seq<B>)
    ensures |r| == |ps| && forall i :: 0 <= i < |ps| ==> r[i] == ps[i].1
  {
    seq(|ps|, i requires 0 <= i < |ps| => ps[i].1)
  }

  // ------------------------------------------------------------- tables

  /** Positions grouped by key: `o[key].push(i)` for each `i`. */
  function Positions<K(==,!new)>(keys: seq<K>): (g: Groups<K, nat>)
    ensures Partitions(g, keys)
    ensures Total(g.order, g.groups) == |keys|
  {
    PositionGroups(keys);
    GroupByTotal(keys, Range(|keys|));
    GroupBy(keys, Range(|keys|))
  }

  /** `eventsById`: each non-empty id to the event that carries it. */
  function EventsById(events: seq<ContextualData.Event>): (m: map<string, ContextualData.Event>)
    ensures forall id :: id in m <==> id != "" && exists i :: 0 <= i < |events| && events[i].eventID == id
  {
    var pairs := seq(|events|, i requires 0 <= i < |events| => (events[i].eventID, events[i]));
    assert forall i :: 0 <= i < |events| ==> pairs[i].0 == events[i].eventID;
    LastBy(pairs) - {""}
  }

  function ShiniesByDex(shinies: seq<ShinyRow>): Groups<int, nat> {
    var ps := DexPairs(shinies);
    GroupBy(Firsts(ps), Seconds(ps))
  }

  function NamePairs(shinies: seq<ShinyRow>): (r: seq<(string, nat)>)
    ensures |r| == |shinies| && forall i :: 0 <= i < |shinies| ==> r[i] == (CombineAll.NormalizeName(shinies[i].name), i)
  {
    seq(|shinies|, i requires 0 <= i < |shinies| => (CombineAll.NormalizeName(shinies[i].name), i))
  }

  /** `shiniesByName`: each name key to a position; a later shiny with the
      same key overwrites an earlier one. */
  function ShiniesByName(shinies: seq<ShinyRow>): (m: map<string, nat>)
    ensures forall k :: k in m <==> exists i :: 0 <= i < |shinies| && CombineAll.NormalizeName(shinies[i].name) == k
  {
    var pairs := NamePairs(shinies);
    LastBy(pairs)
  }

  datatype Indices = Indices(
    eventsById: map<string, ContextualData.Event>,
    eventsByType: Groups<string, string>,
    raidsByTier: Groups<string, string>,
    raidsByPokemon: Groups<string, nat>,
    eggsByDistance: Groups<string, nat>,
    researchByType: Groups<string, nat>,
    shiniesByDex: Groups<int, nat>,
    shiniesByName: map<string, nat>,
    rocketsByType: Groups<string, nat>)

  /** `buildIndices`. The four position tables partition the positions of
      their arrays; a missing key is filed under "unknown" ("leader" for
      rocket lineups). */
  function BuildIndices<V>(u: Unified<V>): (r: Indices)
    ensures Partitions(r.raidsByPokemon, RaidNameKeys(u.raids))
    ensures Partitions(r.eggsByDistance, Fallback(u.eggTypes, "unknown"))
    ensures Partitions(r.researchByType, Fallback(u.researchTypes, "unknown"))
    ensures Partitions(r.rocketsByType, Fallback(u.rocketTypes, "leader"))
  {
    Indices(
      EventsById(u.events),
      GroupBy(EventTypeKeys(u.events), EventIds(u.events)),
      GroupBy(TierKeys(u.raids), RaidNames(u.raids)),
      Positions(RaidNameKeys(u.raids)),
      Positions(Fallback(u.eggTypes, "unknown")),
      Positions(Fallback(u.researchTypes, "unknown")),
      ShiniesByDex(u.shinies),
      ShiniesByName(u.shinies),
      Positions(Fallback(u.rocketTypes, "leader")))
  }

  // ------------------------------------------------------------- lemmas

  /** An id maps to the last event carrying it. */
  lemma EventsByIdLast(events: seq<ContextualData.Event>, id: string) returns (i: nat)
    requires id in EventsById(events)
    ensures i < |events| && events[i] == EventsById(events)[id] && events[i].eventID == id
    ensures forall j :: i < j < |events| ==> events[j].eventID != id
  {
    var pairs := seq(|events|, i requires 0 <= i < |events| => (events[i].eventID, events[i]));
    assert EventsById(events) == LastBy(pairs) - {""};
    i := LastByLatest(pairs, id);
    forall j | i < j < |events| ensures events[j].eventID != id {
      assert pairs[j].0 == events[j].eventID;
    }
  }

  /** Each type's array lists the ids of the events of that type, in input
      order; an event without a type is filed under "unknown". */
  lemma EventsByTypeExact(events: seq<ContextualData.Event>, t: string)
    ensures var g := GroupBy(EventTypeKeys(events), EventIds(events));
      && (t in g.groups <==> exists i :: 0 <= i < |events| && OrElse(events[i].eventType, "unknown") == t)
      && (t in g.groups ==> g.groups[t] == Select(EventTypeKeys(events), EventIds(events), t))
      && Total(g.order, g.groups) == |events|
  {
    GroupBySelect(EventTypeKeys(events), EventIds(events), t);
    GroupByTotal(EventTypeKeys(events), EventIds(events));
  }

  /** Each tier's array lists the names of that tier's raids, in input order. */
  lemma RaidsByTierExact(raids: seq<RaidRow>, t: string)
    ensures var g := GroupBy(TierKeys(raids), RaidNames(raids));
      && (t in g.groups <==> exists i :: 0 <= i < |raids| && OrElse(raids[i].tier, "unknown") == t)
      && (t in g.groups ==> g.groups[t] == Select(TierKeys(raids), RaidNames(raids), t))
      && Total(g.order, g.groups) == |raids|
  {
    GroupBySelect(TierKeys(raids), RaidNames(raids), t);
    GroupByTotal(TierKeys(raids), RaidNames(raids));
  }

  /** A position is filed under a dex number exactly when that shiny's dex
      number is that non-zero number. */
  lemma ShiniesByDexExact(shinies: seq<ShinyRow>, d: int, i: nat)
    ensures (d in ShiniesByDex(shinies).groups && i in ShiniesByDex(shinies).groups[d])
        <==> i < |shinies| && shinies[i].dexNumber == Some(d) && d != 0
  {
    var ps := DexPairs(shinies);
    var keys, vals := Firsts(ps), Seconds(ps);
    GroupBySelect(keys, vals, d);
    if i < |shinies| && shinies[i].dexNumber == Some(d) && d != 0 {
      assert (d, i) in ps;
      var j :| 0 <= j < |ps| && ps[j] == (d, i);
      assert keys[j] == d && vals[j] == i;
    }
    if d in ShiniesByDex(shinies).groups && i in ShiniesByDex(shinies).groups[d] {
      var j :| 0 <= j < |keys| && keys[j] == d && vals[j] == i;
      assert ps[j] == (d, i) && ps[j] in ps;
    }
  }

  /** A name key maps to the last shiny bearing it. */
  lemma ShiniesByNameLast(shinies: seq<ShinyRow>, k: string)
    requires k in ShiniesByName(shinies)
    ensures var i := ShiniesByName(shinies)[k];
      i < |shinies| && CombineAll.NormalizeName(shinies[i].name) == k
      && forall j :: i < j < |shinies| ==> CombineAll.NormalizeName(shinies[j].name) != k
  {
    var pairs := NamePairs(shinies);
    var i := LastByLatest(pairs, k);
    forall j | i < j < |shinies| ensures CombineAll.NormalizeName(shinies[j].name) != k {
      assert pairs[j].0 == CombineAll.NormalizeName(shinies[j].name);
    }
  }

  // ---------------------------------------------------------- statistics

  datatype Stats = Stats(
    totalEvents: nat, totalRaids: nat, totalEggs: nat, totalResearch: nat,
    totalShinies: nat, totalRocketLineups: nat, totalUniquePokemon: nat,
    eventTypesCounts: map<string, nat>, raidTierCounts: map<string, nat>,
    eggDistanceCounts: map<string, nat>)

  /** `Object.fromEntries(Object.entries(o).map(([k, v]) => [k, v.length]))`. */
  function Counts<K, V>(groups: map<K, seq<V>>): (m: map<K, nat>)
    ensures m.Keys == groups.Keys
    ensures forall k :: k in m ==> m[k] == |groups[k]|
  {
    map k | k in groups :: |groups[k]|
  }

  /** The sum of the counts listed in `order`. */
  function SumOver<K>(order: seq<K>, counts: map<K, nat>): nat {
    if order == [] then 0
    else
      var n := |order| - 1;
      SumOver(order[..n], counts) + if order[n] in counts then counts[order[n]] else 0
  }

  lemma {:induction false} SumOverCounts<K, V>(order: seq<K>, groups: map<K, seq<V>>)
    ensures SumOver(order, Counts(groups)) == Total(order, groups)
  {
    if order != [] {
      SumOverCounts(order[..|order| - 1], groups);
    }
  }

  /** `calculateStats`. */
  function CalculateStats<V>(u: Unified<V>, idx: Indices): Stats {
    Stats(|u.events|, |u.raids|, |u.eggTypes|, |u.researchTypes|, |u.shinies|, |u.rocketTypes|,
          |u.pokemonIndex.entries|,
          Counts(u.eventTypes), Counts(idx.raidsByTier.groups), Counts(idx.eggsByDistance.groups))
  }

  /** With the tables of the same data, the tier counts add up to the number
      of raids, the distance counts to the number of eggs, and the tier
      counts have a key for each tier in use. */
  lemma StatsOfIndices<V>(u: Unified<V>)
    ensures var idx := BuildIndices(u); var st := CalculateStats(u, idx);
      && SumOver(idx.raidsByTier.order, st.raidTierCounts) == st.totalRaids == |u.raids|
      && SumOver(idx.eggsByDistance.order, st.eggDistanceCounts) == st.totalEggs == |u.eggTypes|
      && (forall t :: t in st.raidTierCounts <==> exists i :: 0 <= i < |u.raids| && OrElse(u.raids[i].tier, "unknown") == t)
  {
    var idx := BuildIndices(u);
    var tiers := GroupBy(TierKeys(u.raids), RaidNames(u.raids));
    var eggs := Positions(Fallback(u.eggTypes, "unknown"));
    assert idx.raidsByTier == tiers && idx.eggsByDistance == eggs;
    TierSum(u.raids);
    SumOverCounts(eggs.order, eggs.groups);
    forall t ensures t in tiers.groups <==> exists i :: 0 <= i < |u.raids| && OrElse(u.raids[i].tier, "unknown") == t {
      RaidsByTierExact(u.raids, t);
    }
  }

  lemma TierSum(raids: seq<RaidRow>)
    ensures var g := GroupBy(TierKeys(raids), RaidNames(raids));
      SumOver(g.order, Counts(g.groups)) == |raids|
  {
    var g := GroupBy(TierKeys(raids), RaidNames(raids));
    GroupByTotal(TierKeys(raids), RaidNames(raids));
    SumOverCounts(g.order, g.groups);
  }

  /** The number of unique Pokémon is the number of keys in the index's
      creation order. */
  lemma UniquePokemonCount(rs: seq<CombineAll.Record>, key: string -> string)
    ensures |CombineAll.Build(rs, key).entries| == |CombineAll.Build(rs, key).order|
  {
    var idx := CombineAll.Build(rs, key);
    CombineAll.BuildKeys(rs, key);
    DistinctCardinality(idx.order);
    assert idx.entries.Keys == set k | k in idx.order;
  }
}
