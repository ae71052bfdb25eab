/** The event-details combiner: detail records scraped per event are merged
    into the events, each event is reshaped into named sections, and the
    events are grouped by type, one file per type. */
module CombineDetails {
  import opened Wrappers
  import opened Strings
  import opened Sorting
  import opened Grouping
  import opened Json
  import opened Segments

  // ------------------------------------------------------ sanitizeType

  /** `sanitizeType`: the event type as a safe file-name segment; a missing
      type is "unknown". */
  function SanitizeType(t: string): (r: string)
    ensures Clean(r, IsSlugChar, '-')
  {
    Sanitize(Lower(if t == "" then "unknown" else t), IsSlugChar, '-')
  }

  /** A non-empty safe segment is left as it is. */
  lemma SanitizeTypeClean(s: string)
    requires s != "" && Clean(s, IsSlugChar, '-')
    ensures SanitizeType(s) == s
  {
    assert Lower(s) == s by {
      forall i | 0 <= i < |s| ensures Lower(s)[i] == s[i] {
        assert IsSlugChar(s[i]);
      }
    }
    SanitizeClean(s, IsSlugChar, '-');
  }

  /** Sanitizing twice is sanitizing once, unless the first pass left
      nothing. */
  lemma SanitizeTypeIdempotent(t: string)
    requires SanitizeType(t) != ""
    ensures SanitizeType(SanitizeType(t)) == SanitizeType(t)
  {
    SanitizeTypeClean(SanitizeType(t));
  }

  /** A missing type is "unknown". */
  lemma SanitizeTypeMissing()
    ensures SanitizeType("") == "unknown"
  {
    var u := "unknown";
    assert Only(u, IsSlugChar) by {
      assert forall i :: 0 <= i < |u| ==> IsLower(u[i]);
    }
    assert NoRun(u, '-') && NoEdge(u, '-');
    SanitizeTypeClean(u);
  }

  /** A type made only of unsafe characters sanitizes to the empty string,
      which a second pass turns into "unknown". */
  lemma SanitizeTypeEmpty()
    ensures SanitizeType("!") == ""
    ensures SanitizeType(SanitizeType("!")) == "unknown"
  {
    assert Lower("!") == "!";
    var d := Substitute("!", IsSlugChar, '-');
    assert d == "-";
    assert Collapse(d, '-') == "-";
    assert StripEdge("-", '-') == "";
    SanitizeTypeMissing();
  }

  // -------------------------------------------------- segmentEventData

  /** `{[dst]: event[src]}` for each `(src, dst)` whose source is truthy, in
      table order. */
  function Renamed(event: Json, table: seq<(string, string)>): (r: seq<Field>)
    ensures |r| <= |table|
    ensures forall f :: f in r ==> RenamedFrom(event, table, f)
    ensures r == [] <==> forall i :: 0 <= i < |table| ==> !TruthyProp(event, table[i].0)
  {
    if table == [] then []
    else
      var rest := Renamed(event, table[1..]);
      assert forall i :: 1 <= i < |table| ==> table[1..][i - 1] == table[i];
      (if TruthyProp(event, table[0].0) then [Field(table[0].1, Prop(event, table[0].0).value)] else []) + rest
  }

  /** `f` is the copy of a truthy source property under its target name. */
  predicate RenamedFrom(event: Json, table: seq<(string, string)>, f: Field) {
    exists i :: 0 <= i < |table| && f.key == table[i].1 && TruthyProp(event, table[i].0) && Prop(event, table[i].0) == Some(f.val)
  }

  /** The renamed property holds the source's value when the source is
      truthy; no other entry may have the same target. */
  lemma {:induction false} RenamedGet(event: Json, table: seq<(string, string)>, i: nat)
    requires i < |table|
    requires forall j :: 0 <= j < |table| && j != i ==> table[j].1 != table[i].1
    ensures Get(Renamed(event, table), table[i].1) == if TruthyProp(event, table[i].0) then Prop(event, table[i].0) else None
    decreases i
  {
    var dst := table[i].1;
    var head := if TruthyProp(event, table[0].0) then [Field(table[0].1, Prop(event, table[0].0).value)] else [];
    var rest := table[1..];
    RenamedCons(event, table);
    GetAppend(head, Renamed(event, rest), dst);
    TargetsOfTail(table, i);
    if i == 0 {
      RenamedMissing(event, rest, dst);
    } else {
      RenamedGet(event, rest, i - 1);
    }
  }

  lemma RenamedCons(event: Json, table: seq<(string, string)>)
    requires table != []
    ensures Renamed(event, table)
      == (if TruthyProp(event, table[0].0) then [Field(table[0].1, Prop(event, table[0].0).value)] else []) + Renamed(event, table[1..])
  {
  }

  /** Uniqueness of a target carries over to the table's tail. */
  lemma TargetsOfTail(table: seq<(string, string)>, i: nat)
    requires i < |table|
    requires forall j :: 0 <= j < |table| && j != i ==> table[j].1 != table[i].1
    ensures i == 0 ==> forall j :: 0 <= j < |table| - 1 ==> table[1..][j].1 != table[i].1
    ensures i > 0 ==> forall j :: 0 <= j < |table| - 1 && j != i - 1 ==> table[1..][j].1 != table[1..][i - 1].1
  {
    assert forall j :: 0 <= j < |table| - 1 ==> table[1..][j] == table[j + 1];
  }

  /** A target that does not occur in the table is not a property of the
      section. */
  lemma {:induction false} RenamedMissing(event: Json, table: seq<(string, string)>, dst: string)
    requires forall j :: 0 <= j < |table| ==> table[j].1 != dst
    ensures Get(Renamed(event, table), dst) == None
  {
    if table != [] {
      var head := if TruthyProp(event, table[0].0) then [Field(table[0].1, Prop(event, table[0].0).value)] else [];
      assert Renamed(event, table) == head + Renamed(event, table[1..]);
      GetAppend(head, Renamed(event, table[1..]), dst);
      RenamedMissing(event, table[1..], dst);
    }
  }

  /** The properties every segmented event carries (`undefined` ones are
      dropped when the object is serialised). */
  const CoreKeys: seq<string> := ["eventID", "name", "eventType", "heading", "image", "start", "end"]

  const FlagKeys: seq<string> := ["hasSpawns", "hasFieldResearchTasks", "hasBonuses", "hasRaids", "hasEggs", "hasShiny"]

  const PokemonTable: seq<(string, string)> := [
    ("spawns", "spawns"), ("shinies", "shinies"), ("featured", "featured"), ("photobomb", "photobomb"),
    ("pokestopShowcases", "showcases"), ("incenseEncounters", "incense"), ("costumedPokemon", "costumed"),
    ("pokemonDebuts", "debuts"), ("maxPokemonDebuts", "maxDebuts"), ("shinyDebuts", "shinyDebuts")]

  const RewardsHead: seq<(string, string)> := [
    ("bonuses", "bonuses"), ("bonusDisclaimers", "bonusDisclaimers"), ("lureModuleBonus", "lureModuleBonus")]

  const ResearchTable: seq<(string, string)> := [
    ("fieldResearchTasks", "field"), ("specialresearch", "special"), ("timedResearch", "timed"),
    ("researchBreakthrough", "breakthrough"), ("masterworkResearch", "masterwork")]

  const RewardsTail: seq<(string, string)> := [
    ("ticketedResearch", "ticket"), ("ticketBonuses", "ticketBonuses"), ("ticketPrice", "ticketPrice"),
    ("exclusiveBonuses", "exclusiveBonuses"), ("ticketAddOns", "ticketAddOns")]

  const RaidsTable: seq<(string, string)> := [
    ("bosses", "bosses"), ("tiers", "tiers"), ("alternationPattern", "alternation"), ("featuredAttacks", "featuredAttacks")]

  const BattleTable: seq<(string, string)> := [("featuredAttack", "featuredAttack"), ("leagues", "leagues")]

  const RocketTable: seq<(string, string)> := [
    ("shadowPokemon", "shadows"), ("leaders", "leaders"), ("giovanni", "giovanni"), ("grunts", "grunts")]

  /** Season and GO Tour properties copied under their own names. */
  const ExtraTable: seq<(string, string)> := [
    ("eggs", "eggs"), ("communityDays", "communityDays"), ("features", "features"),
    ("goBattleLeague", "goBattleLeague"), ("goPass", "goPass"), ("eventInfo", "eventInfo"),
    ("habitats", "habitats"), ("whatsNew", "whatsNew"), ("sales", "sales")]

  /** The properties of `event` named in `keys` that are defined, in key
      order. */
  function Defined(event: Json, keys: seq<string>): seq<Field> {
    if keys == [] then []
    else (if Prop(event, keys[0]).Some? then [Field(keys[0], Prop(event, keys[0]).value)] else []) + Defined(event, keys[1..])
  }

  /** Each named property is copied as it is, defined or not; nothing else
      is. */
  lemma {:induction false} DefinedGet(event: Json, keys: seq<string>, k: string)
    ensures Get(Defined(event, keys), k) == if k in keys then Prop(event, k) else None
  {
    if keys != [] {
      var head := if Prop(event, keys[0]).Some? then [Field(keys[0], Prop(event, keys[0]).value)] else [];
      GetAppend(head, Defined(event, keys[1..]), k);
      DefinedGet(event, keys[1..], k);
      assert k in keys <==> k == keys[0] || k in keys[1..];
    }
  }

  /** `event[key] || false`. */
  function FlagValue(v: Option<Json>): (r: Json)
    ensures Truthy(r) <==> TruthyOpt(v)
    ensures TruthyOpt(v) ==> r == v.value
    ensures !TruthyOpt(v) ==> r == JBool(false)
  {
    if TruthyOpt(v) then v.value else JBool(false)
  }

  function Flags(event: Json): (r: seq<Field>)
    ensures |r| == |FlagKeys|
    ensures forall i :: 0 <= i < |FlagKeys| ==> r[i] == Field(FlagKeys[i], FlagValue(Prop(event, FlagKeys[i])))
  {
    seq(|FlagKeys|, i requires 0 <= i < |FlagKeys| => Field(FlagKeys[i], FlagValue(Prop(event, FlagKeys[i]))))
  }

  /** A section object, left out when it would be empty. */
  function Section(fields: seq<Field>): (r: Option<seq<Field>>)
    ensures r.Some? <==> fields != []
    ensures r.Some? ==> r.value == fields
  {
    if fields == [] then None else Some(fields)
  }

  function Rewards(event: Json): seq<Field> {
    var research := Renamed(event, ResearchTable);
    Renamed(event, RewardsHead)
      + (if research != [] then [Field("research", JObj(research))] else [])
      + Renamed(event, RewardsTail)
  }

  /** The reshaped event: core properties, flags, the five sections and the
      copied extras. */
  datatype Segmented = Segmented(
    core: seq<Field>, flags: seq<Field>,
    pokemon: Option<seq<Field>>, rewards: Option<seq<Field>>, raids: Option<seq<Field>>,
    battle: Option<seq<Field>>, rocket: Option<seq<Field>>, extras: seq<Field>)

  /** `segmentEventData`. */
  function SegmentEventData(event: Json): (r: Segmented)
    ensures r.core == Defined(event, CoreKeys)
    ensures |r.flags| == |FlagKeys| && forall i :: 0 <= i < |FlagKeys| ==>
      r.flags[i].key == FlagKeys[i] && (Truthy(r.flags[i].val) <==> TruthyProp(event, FlagKeys[i]))
    ensures r.pokemon.Some? <==> exists i :: 0 <= i < |PokemonTable| && TruthyProp(event, PokemonTable[i].0)
    ensures r.raids.Some? <==> exists i :: 0 <= i < |RaidsTable| && TruthyProp(event, RaidsTable[i].0)
    ensures r.battle.Some? <==> exists i :: 0 <= i < |BattleTable| && TruthyProp(event, BattleTable[i].0)
    ensures r.rocket.Some? <==> exists i :: 0 <= i < |RocketTable| && TruthyProp(event, RocketTable[i].0)
  {
    Segmented(
      Defined(event, CoreKeys), Flags(event),
      Section(Renamed(event, PokemonTable)), Section(Rewards(event)), Section(Renamed(event, RaidsTable)),
      Section(Renamed(event, BattleTable)), Section(Renamed(event, RocketTable)), Extras(event))
  }

  const TailTable: seq<(string, string)> := [("bonus", "bonus"), ("description", "description")]

  /** The season and tour properties, then `canBeShiny` whenever it is
      defined (even when false), then `bonus` and `description`. */
  function Extras(event: Json): seq<Field> {
    Renamed(event, ExtraTable)
      + (if Prop(event, "canBeShiny").Some? then [Field("canBeShiny", Prop(event, "canBeShiny").value)] else [])
      + Renamed(event, TailTable)
  }

  /** The serialised object. */
  function SegmentedJson(s: Segmented): Json {
    JObj(s.core + (Sections(s) + s.extras))
  }

  function Sections(s: Segmented): seq<Field> {
    [Field("flags", JObj(s.flags))]
      + OptField("pokemon", s.pokemon) + OptField("rewards", s.rewards) + OptField("raids", s.raids)
      + OptField("battle", s.battle) + OptField("rocket", s.rocket)
  }

  function OptField(key: string, section: Option<seq<Field>>): seq<Field> {
    if section.Some? then [Field(key, JObj(section.value))] else []
  }

  /** The core properties reach the serialised object unchanged: the event's
      value when it has one, absent when it has none. */
  lemma SegmentedCore(event: Json, k: string)
    requires k in CoreKeys
    ensures Prop(SegmentedJson(SegmentEventData(event)), k) == Prop(event, k)
  {
    var seg := SegmentEventData(event);
    DefinedGet(event, CoreKeys, k);
    ExtrasMissCore(event, k);
    SectionsMissCore(seg, k);
    GetAppend(Sections(seg), seg.extras, k);
    GetAppend(seg.core, Sections(seg) + seg.extras, k);
  }

  lemma ExtrasMissCore(event: Json, k: string)
    requires k in CoreKeys
    ensures Get(Extras(event), k) == None
  {
    ExtraTargetsNotCore();
    RenamedMissing(event, ExtraTable, k);
    RenamedMissing(event, TailTable, k);
    var canBeShiny := if Prop(event, "canBeShiny").Some? then [Field("canBeShiny", Prop(event, "canBeShiny").value)] else [];
    GetAppend(Renamed(event, ExtraTable), canBeShiny, k);
    GetAppend(Renamed(event, ExtraTable) + canBeShiny, Renamed(event, TailTable), k);
  }

  /** No copied extra shares a name with a core property. */
  lemma ExtraTargetsNotCore()
    ensures forall j :: 0 <= j < |ExtraTable| ==> ExtraTable[j].1 !in CoreKeys
    ensures forall j :: 0 <= j < |TailTable| ==> TailTable[j].1 !in CoreKeys
    ensures "canBeShiny" !in CoreKeys
  {
  }

  lemma SectionsMissCore(seg: Segmented, k: string)
    requires k in CoreKeys
    ensures Get(Sections(seg), k) == None
  {
    var f := [Field("flags", JObj(seg.flags))];
    var p, rw, ra := OptField("pokemon", seg.pokemon), OptField("rewards", seg.rewards), OptField("raids", seg.raids);
    var b, ro := OptField("battle", seg.battle), OptField("rocket", seg.rocket);
    assert k != "flags" && k != "pokemon" && k != "rewards" && k != "raids" && k != "battle" && k != "rocket";
    GetAppend(f, p, k);
    GetAppend(f + p, rw, k);
    GetAppend(f + p + rw, ra, k);
    GetAppend(f + p + rw + ra, b, k);
    GetAppend(f + p + rw + ra + b, ro, k);
  }

  /** Renamed properties land in their sections: `pokestopShowcases` as
      `pokemon.showcases`, `specialresearch` as `rewards.research.special`,
      `alternationPattern` as `raids.alternation`, `shadowPokemon` as
      `rocket.shadows`. */
  lemma SectionRenames(event: Json)
    ensures var r := SegmentEventData(event);
      && (TruthyProp(event, "pokestopShowcases") ==>
            r.pokemon.Some? && Get(r.pokemon.value, "showcases") == Prop(event, "pokestopShowcases"))
      && (TruthyProp(event, "alternationPattern") ==>
            r.raids.Some? && Get(r.raids.value, "alternation") == Prop(event, "alternationPattern"))
      && (TruthyProp(event, "shadowPokemon") ==>
            r.rocket.Some? && Get(r.rocket.value, "shadows") == Prop(event, "shadowPokemon"))
  {
    ShowcasesRenamed(event);
    AlternationRenamed(event);
    ShadowsRenamed(event);
  }

  lemma ShowcasesRenamed(event: Json)
    ensures var r := SegmentEventData(event);
      TruthyProp(event, "pokestopShowcases") ==>
        r.pokemon.Some? && Get(r.pokemon.value, "showcases") == Prop(event, "pokestopShowcases")
  {
    TargetsUnique();
    SectionTarget(event, PokemonTable, 4, "pokestopShowcases", "showcases");
  }

  lemma AlternationRenamed(event: Json)
    ensures var r := SegmentEventData(event);
      TruthyProp(event, "alternationPattern") ==>
        r.raids.Some? && Get(r.raids.value, "alternation") == Prop(event, "alternationPattern")
  {
    TargetsUnique();
    SectionTarget(event, RaidsTable, 2, "alternationPattern", "alternation");
  }

  lemma ShadowsRenamed(event: Json)
    ensures var r := SegmentEventData(event);
      TruthyProp(event, "shadowPokemon") ==>
        r.rocket.Some? && Get(r.rocket.value, "shadows") == Prop(event, "shadowPokemon")
  {
    TargetsUnique();
    SectionTarget(event, RocketTable, 0, "shadowPokemon", "shadows");
  }

  /** The renamed targets this module reads back are unique in their tables. */
  lemma TargetsUnique()
    ensures PokemonTable[4] == ("pokestopShowcases", "showcases")
    ensures RaidsTable[2] == ("alternationPattern", "alternation")
    ensures RocketTable[0] == ("shadowPokemon", "shadows")
    ensures forall j :: 0 <= j < |PokemonTable| && j != 4 ==> PokemonTable[j].1 != PokemonTable[4].1
    ensures forall j :: 0 <= j < |RaidsTable| && j != 2 ==> RaidsTable[j].1 != RaidsTable[2].1
    ensures forall j :: 0 <= j < |RocketTable| && j != 0 ==> RocketTable[j].1 != RocketTable[0].1
  {
  }

  /** A truthy source makes its section present and is found in it under
      its unique target name. */
  lemma SectionTarget(event: Json, table: seq<(string, string)>, i: nat, src: string, dst: string)
    requires i < |table| && table[i] == (src, dst)
    requires forall j :: 0 <= j < |table| && j != i ==> table[j].1 != table[i].1
    ensures TruthyProp(event, src) ==>
      Section(Renamed(event, table)).Some? && Get(Section(Renamed(event, table)).value, dst) == Prop(event, src)
  {
    RenamedGet(event, table, i);
  }

  /** A truthy source reaches its section under its unique target name. */
  lemma TargetRenamed(event: Json, table: seq<(string, string)>, i: nat)
    requires i < |table|
    requires forall j :: 0 <= j < |table| && j != i ==> table[j].1 != table[i].1
    ensures TruthyProp(event, table[i].0) ==>
      Renamed(event, table) != [] && Get(Renamed(event, table), table[i].1) == Prop(event, table[i].0)
  {
    RenamedGet(event, table, i);
  }

  /** `specialresearch` is copied to `rewards.research.special`. */
  lemma SpecialResearchRenamed(event: Json)
    requires TruthyProp(event, "specialresearch")
    ensures var r := SegmentEventData(event);
      && r.rewards.Some?
      && Get(r.rewards.value, "research") == Some(JObj(Renamed(event, ResearchTable)))
      && Get(Renamed(event, ResearchTable), "special") == Prop(event, "specialresearch")
  {
    ResearchInRewards(event);
  }

  /** `special` is a unique target of the research table and `research`
      is no target of the rewards' head. */
  lemma ResearchTargets()
    ensures ResearchTable[1] == ("specialresearch", "special")
    ensures forall j :: 0 <= j < |ResearchTable| && j != 1 ==> ResearchTable[j].1 != ResearchTable[1].1
    ensures forall j :: 0 <= j < |RewardsHead| ==> RewardsHead[j].1 != "research"
  {
  }

  /** `specialresearch` makes the research group non-empty, and the group
      is the `research` property of the rewards. */
  lemma ResearchInRewards(event: Json)
    requires TruthyProp(event, "specialresearch")
    ensures Rewards(event) != []
    ensures Get(Rewards(event), "research") == Some(JObj(Renamed(event, ResearchTable)))
    ensures Get(Renamed(event, ResearchTable), "special") == Prop(event, "specialresearch")
  {
    ResearchTargets();
    RenamedGet(event, ResearchTable, 1);
    var research := Renamed(event, ResearchTable);
    assert research != [];
    RenamedMissing(event, RewardsHead, "research");
    var head := Renamed(event, RewardsHead);
    var mid := [Field("research", JObj(research))];
    GetAppend(head, mid, "research");
    GetAppend(head + mid, Renamed(event, RewardsTail), "research");
  }

  // ------------------------------------------------------ merging details

  /** A detail record read from the temporary directory: `{id, type, data}`. */
  datatype TempRecord = TempRecord(id: Option<Json>, kind: Option<Json>, data: Option<Json>)

  /** The record types whose data is merged besides "generic". */
  const MergedTypes: seq<string> := [
    "research-breakthrough", "pokemon-spotlight-hour", "community-day", "raid-battles", "raid-hour",
    "raid-day", "team-go-rocket", "go-rocket-takeover", "go-battle-league", "season", "pokemon-go-tour",
    "timed-research", "special-research", "max-battles", "max-mondays", "go-pass", "pokestop-showcase",
    "event", "promo-codes"]

  /** `+b` of a boolean. */
  function BoolNumber(b: bool): int {
    if b then 1 else 0
  }

  /** `a == b` between two property values, the abstract equality of
      section 7.2.15 of ECMA-262 on primitives: `null` and `undefined` are
      equal to each other only, values of one type compare by value, and a
      number, string or boolean meeting a value of another of those types
      compare as numbers. `number` stands for `Number(s)` on a string:
      `Some(n)` when the string reads as the integer `n`. Objects and arrays
      read from different files are never the same object. */
  predicate LooseEquals(a: Option<Json>, b: Option<Json>, number: string -> Option<int>) {
    match (a, b)
    case (None, None) => true
    case (None, Some(JNull)) => true
    case (Some(JNull), None) => true
    case (Some(JNull), Some(JNull)) => true
    case (Some(JStr(x)), Some(JStr(y))) => x == y
    case (Some(JNum(x)), Some(JNum(y))) => x == y
    case (Some(JBool(x)), Some(JBool(y))) => x == y
    case (Some(JNum(x)), Some(JStr(y))) => number(y) == Some(x)
    case (Some(JStr(x)), Some(JNum(y))) => number(x) == Some(y)
    case (Some(JBool(x)), Some(JNum(y))) => BoolNumber(x) == y
    case (Some(JNum(x)), Some(JBool(y))) => x == BoolNumber(y)
    case (Some(JBool(x)), Some(JStr(y))) => number(y) == Some(BoolNumber(x))
    case (Some(JStr(x)), Some(JBool(y))) => number(x) == Some(BoolNumber(y))
    case _ => false
  }

  /** Loose equality does not depend on the order of its operands, and on
      two values of the same primitive type it is plain equality. */
  lemma LooseEqualsSymmetric(a: Option<Json>, b: Option<Json>, number: string -> Option<int>)
    ensures LooseEquals(a, b, number) <==> LooseEquals(b, a, number)
    ensures a.Some? && b.Some? && IsPrimitive(a.value) && IsPrimitive(b.value) && KindOf(a.value) == KindOf(b.value)
      ==> (LooseEquals(a, b, number) <==> a == b)
  {
  }

  /** The primitive type of a value: 0 null, 1 boolean, 2 number, 3 string,
      4 array or object. */
  function KindOf(v: Json): nat {
    match v
    case JNull => 0
    case JBool(_) => 1
    case JNum(_) => 2
    case JStr(_) => 3
    case _ => 4
  }

  /** A numeric id meets a record whose id is the same number written as
      text, "123" == 123. */
  lemma NumberMeetsText(number: string -> Option<int>)
    requires number("123") == Some(123)
    ensures LooseEquals(Some(JNum(123)), Some(JStr("123")), number)
    ensures !LooseEquals(Some(JNull), Some(JNum(0)), number)
  {
  }

  predicate IsGeneric(r: TempRecord) {
    r.kind == Some(JStr("generic"))
  }

  predicate IsMergedType(r: TempRecord) {
    r.kind.Some? && r.kind.value.JStr? && r.kind.value.s in MergedTypes
  }

  function AssignFields(target: seq<Field>, source: seq<Field>): seq<Field>
    decreases |source|
  {
    if source == [] then target else AssignFields(Put(target, source[0].key, source[0].val), source[1..])
  }

  /** The values at the indices "0", "1", ... */
  function Indexed(items: seq<Json>): (r: seq<Field>)
    ensures |r| == |items| && forall i :: 0 <= i < |items| ==> r[i] == Field(NatText(i), items[i])
  {
    seq(|items|, i requires 0 <= i < |items| => Field(NatText(i), items[i]))
  }

  /** The own enumerable properties `Object.assign` copies from a source:
      an object's properties, an array's items and a string's characters
      under their indices; nothing from `null`, `undefined`, a number or a
      boolean. */
  function SourceFields(data: Option<Json>): (r: seq<Field>)
    ensures data.Some? && data.value.JObj? ==> r == data.value.fields
    ensures data.Some? && data.value.JStr? ==> |r| == |data.value.s|
    ensures data.Some? && data.value.JStr? ==>
              forall i :: 0 <= i < |r| ==> r[i] == Field(NatText(i), JStr([data.value.s[i]]))
    ensures data.None? || (data.Some? && IsPrimitive(data.value) && !data.value.JStr?) ==> r == []
  {
    match data
    case Some(JObj(fields)) => fields
    case Some(JArr(items)) => Indexed(items)
    case Some(JStr(t)) => Indexed(seq(|t|, i requires 0 <= i < |t| => JStr([t[i]])))
    case _ => []
  }

  /** Index keys never repeat. */
  lemma IndexedDistinct(items: seq<Json>)
    ensures DistinctKeys(Indexed(items))
  {
    forall i, j | 0 <= i < j < |items| ensures Indexed(items)[i].key != Indexed(items)[j].key {
      if NatText(i) == NatText(j) {
        NatTextInjective(i, j);
      }
    }
  }

  /** `Object.assign(e, data)` on an event object; a target that is not an
      object is left as it is. */
  function Assign(e: Json, data: Option<Json>): (r: Json)
    ensures e.JObj? ==> r.JObj? && r.fields == AssignFields(e.fields, SourceFields(data))
    ensures !e.JObj? ==> r == e
  {
    if e.JObj? then JObj(AssignFields(e.fields, SourceFields(data))) else e
  }

  /** A string `data` spreads its characters over the event: "ab" adds
      "0": "a" and "1": "b". */
  lemma StringDataSpread()
    ensures Assign(JObj([]), Some(JStr("ab"))) == JObj([Field("0", JStr("a")), Field("1", JStr("b"))])
  {
    var src := SourceFields(Some(JStr("ab")));
    assert NatText(0) == "0" && NatText(1) == "1";
    assert src == [Field("0", JStr("a")), Field("1", JStr("b"))];
    assert Put([], "0", JStr("a")) == [Field("0", JStr("a"))];
    assert Put([Field("0", JStr("a"))], "1", JStr("b")) == [Field("0", JStr("a")), Field("1", JStr("b"))];
  }

  /** After the assignment each property of the source has the source's
      value and every other property is the target's. */
  lemma {:induction false} AssignFieldsGet(target: seq<Field>, source: seq<Field>, k: string)
    requires DistinctKeys(source)
    ensures Get(AssignFields(target, source), k) == if Get(source, k).Some? then Get(source, k) else Get(target, k)
    decreases |source|
  {
    if source != [] {
      var rest := source[1..];
      assert DistinctKeys(rest) by {
        forall i, j | 0 <= i < j < |rest| ensures rest[i].key != rest[j].key {
          assert rest[i] == source[i + 1] && rest[j] == source[j + 1];
        }
      }
      AssignFieldsGet(Put(target, source[0].key, source[0].val), rest, k);
      if source[0].key == k {
        assert Get(rest, k) == None by {
          forall i | 0 <= i < |rest| ensures rest[i].key != k {
            assert rest[i] == source[i + 1];
          }
        }
      }
    }
  }

  /** The detail record `r` applied to one event (the two `if`s of the
      loop body). */
  function MergeOne(e: Json, r: TempRecord, number: string -> Option<int>): Json {
    if LooseEquals(Prop(e, "eventID"), r.id, number) then
      var e1 := if IsGeneric(r) then Assign(e, r.data) else e;
      if IsMergedType(r) then Assign(e1, r.data) else e1
    else e
  }

  function MergeRecord(events: seq<Json>, r: TempRecord, number: string -> Option<int>): (out: seq<Json>)
    ensures |out| == |events|
    ensures forall i :: 0 <= i < |events| ==> out[i] == MergeOne(events[i], r, number)
  {
    seq(|events|, i requires 0 <= i < |events| => MergeOne(events[i], r, number))
  }

  /** Every detail record in directory order. */
  function MergeAll(events: seq<Json>, records: seq<TempRecord>, number: string -> Option<int>): (out: seq<Json>)
    ensures |out| == |events|
    decreases |records|
  {
    if records == [] then events else MergeAll(MergeRecord(events, records[0], number), records[1..], number)
  }

  /** A record whose type is neither "generic" nor listed changes nothing;
      in particular research records are never merged. */
  lemma UnlistedNotMerged(events: seq<Json>, r: TempRecord, number: string -> Option<int>)
    requires !IsGeneric(r) && !IsMergedType(r)
    ensures MergeRecord(events, r, number) == events
  {
  }

  lemma ResearchNotListed(r: TempRecord)
    requires r.kind == Some(JStr("research"))
    ensures !IsGeneric(r) && !IsMergedType(r)
  {
  }

  /** "generic" is merged by its own rule, not through the list. */
  lemma GenericNotListed()
    ensures "generic" !in MergedTypes
  {
  }

  /** A record reaches exactly the events whose id equals its id, and each
      of those then has the record's properties. */
  lemma MergeRecordEffect(events: seq<Json>, r: TempRecord, number: string -> Option<int>, i: nat, k: string)
    requires i < |events| && events[i].JObj?
    requires IsGeneric(r) || IsMergedType(r)
    requires DistinctKeys(SourceFields(r.data))
    ensures !LooseEquals(Prop(events[i], "eventID"), r.id, number) ==> MergeRecord(events, r, number)[i] == events[i]
    ensures LooseEquals(Prop(events[i], "eventID"), r.id, number) ==>
      var src := Get(SourceFields(r.data), k);
      Prop(MergeRecord(events, r, number)[i], k) == if src.Some? then src else Prop(events[i], k)
  {
    var e := events[i];
    AssignFieldsGet(e.fields, SourceFields(r.data), k);
    GenericNotListed();
  }

  /** Every source but an object with repeated keys qualifies: arrays and
      strings contribute distinct index keys. */
  lemma SourceFieldsDistinct(data: Option<Json>)
    requires data.Some? && data.value.JObj? ==> DistinctKeys(data.value.fields)
    ensures DistinctKeys(SourceFields(data))
  {
    match data
    case Some(JArr(items)) => IndexedDistinct(items);
    case Some(JStr(t)) => IndexedDistinct(seq(|t|, i requires 0 <= i < |t| => JStr([t[i]])));
    case _ =>
  }

  // --------------------------------------------------- grouping by type

  /** `String(value)` for a JSON value: numbers in decimal, an array as its
      items joined with commas (`null` items print as nothing), an object as
      `[object Object]`. */
  function JsText(v: Json): (r: string)
    ensures v.JStr? ==> r == v.s
    ensures v.JNum? ==> r == IntText(v.n)
    decreases v, 1
  {
    match v
    case JNull => "null"
    case JBool(b) => if b then "true" else "false"
    case JNum(n) => IntText(n)
    case JStr(s) => s
    case JArr(items) => Join(ItemTexts(items), ",")
    case JObj(_) => "[object Object]"
  }

  function ItemTexts(items: seq<Json>): (r: seq<string>)
    ensures |r| == |items|
    decreases items, 0
  {
    if items == [] then []
    else [if items[0].JNull? then "" else JsText(items[0])] + ItemTexts(items[1..])
  }

  /** `segmentedEvent.eventType || 'unknown'`: the type value itself when it
      is truthy, of whatever JSON kind, and the text `unknown` otherwise. */
  function TypeValue(e: Json): (r: Json)
    ensures Truthy(r)
    ensures TruthyProp(e, "eventType") ==> Prop(e, "eventType") == Some(r)
    ensures !TruthyProp(e, "eventType") ==> r == JStr("unknown")
  {
    if TruthyProp(e, "eventType") then Prop(e, "eventType").value else JStr("unknown")
  }

  /** The property name `eventsByType[type]` files an event under: the
      text of its type value. */
  function TypeKey(e: Json): (r: string)
    ensures forall t :: StrProp(e, "eventType") == Some(t) && t != "" ==> r == t
    ensures forall n :: Prop(e, "eventType") == Some(JNum(n)) && n != 0 ==> r == IntText(n)
    ensures Prop(e, "eventType") == Some(JBool(true)) ==> r == "true"
    ensures !TruthyProp(e, "eventType") ==> r == "unknown"
  {
    JsText(TypeValue(e))
  }

  /** A numeric type and the same digits as text are one entry of the
      events file, but two entries of the per-type `Map`. */
  lemma NumericTypeSharesKey(a: Json, b: Json)
    requires a == JObj([Field("eventType", JNum(2024))])
    requires b == JObj([Field("eventType", JStr("2024"))])
    ensures TypeKey(a) == "2024" && TypeKey(b) == "2024"
    ensures TypeIdAt([a, b], 0) == Prim(JNum(2024)) && TypeIdAt([a, b], 1) == Prim(JStr("2024"))
    ensures FileName(Prim(JNum(2024))) == FileName(Prim(JStr("2024")))
  {
    assert Prop(a, "eventType") == Some(JNum(2024));
    assert Prop(b, "eventType") == Some(JStr("2024"));
    IntText2024();
  }

  lemma IntText2024()
    ensures IntText(2024) == "2024"
  {
    assert NatText(2) == "2";
    assert NatText(20) == "20";
    assert NatText(202) == "202";
  }

  function TypeKeys(events: seq<Json>): (r: seq<string>)
    ensures |r| == |events| && forall i :: 0 <= i < |events| ==> r[i] == TypeKey(events[i])
  {
    seq(|events|, i requires 0 <= i < |events| => TypeKey(events[i]))
  }

  function SegmentAll(events: seq<Json>): (r: seq<Json>)
    ensures |r| == |events| && forall i :: 0 <= i < |events| ==> r[i] == SegmentedJson(SegmentEventData(events[i]))
  {
    seq(|events|, i requires 0 <= i < |events| => SegmentedJson(SegmentEventData(events[i])))
  }

  /** The events file: segmented events under their type. */
  function EventsByType(events: seq<Json>): Groups<string, Json> {
    GroupBy(TypeKeys(events), SegmentAll(events))
  }

  /** Grouping loses no event, and each type's array holds that type's
      events in input order. */
  lemma EventsByTypeExact(events: seq<Json>, t: string)
    ensures var g := EventsByType(events);
      && Total(g.order, g.groups) == |events|
      && (t in g.groups <==> exists i :: 0 <= i < |events| && TypeKey(events[i]) == t)
      && (t in g.groups ==> g.groups[t] == Select(TypeKeys(events), SegmentAll(events), t))
  {
    var keys, vals := TypeKeys(events), SegmentAll(events);
    GroupByExact(keys, vals, t);
    NameColumn(events, keys, t);
  }

  lemma NameColumn(events: seq<Json>, keys: seq<string>, t: string)
    requires keys == TypeKeys(events)
    ensures (exists i :: 0 <= i < |keys| && keys[i] == t) <==> (exists i :: 0 <= i < |events| && TypeKey(events[i]) == t)
  {
  }

  /** The segmented event keeps the type it is filed under. */
  lemma SegmentKeepsType(e: Json)
    ensures TypeValue(SegmentedJson(SegmentEventData(e))) == TypeValue(e)
    ensures TypeKey(SegmentedJson(SegmentEventData(e))) == TypeKey(e)
  {
    SegmentedCore(e, "eventType");
    TypeKeyOfProp(SegmentedJson(SegmentEventData(e)), e);
  }

  lemma TypeKeyOfProp(a: Json, b: Json)
    requires Prop(a, "eventType") == Prop(b, "eventType")
    ensures TypeValue(a) == TypeValue(b) && TypeKey(a) == TypeKey(b)
  {
  }

  /** A key of the per-type `Map`. A `Map` compares a primitive key by
      value and an array or object key by reference; every array and
      object of the parsed events is an object of its own, so such a key
      is told apart by the position `at` of the event it came from. */
  datatype TypeId = Prim(v: Json) | Ref(at: nat, v: Json)

  /** The `Map` key of the `i`-th event's type value. */
  function TypeIdAt(events: seq<Json>, i: nat): (t: TypeId)
    requires i < |events|
    ensures t.v == TypeValue(events[i])
    ensures t.Prim? <==> IsPrimitive(TypeValue(events[i]))
    ensures t.Ref? ==> t.at == i
  {
    var v := TypeValue(events[i]);
    if IsPrimitive(v) then Prim(v) else Ref(i, v)
  }

  function TypeIds(events: seq<Json>): (r: seq<TypeId>)
    ensures |r| == |events| && forall i :: 0 <= i < |events| ==> r[i] == TypeIdAt(events, i)
  {
    seq(|events|, i requires 0 <= i < |events| => TypeIdAt(events, i))
  }

  /** The `Map` behind the per-type files: segmented events under their type
      key, so that `2024` and `"2024"` are separate groups, and so is each
      array or object type. */
  function TypeGroups(events: seq<Json>): Groups<TypeId, Json> {
    GroupBy(TypeIds(events), SegmentAll(events))
  }

  /** The `Map` loses no event, and each key's array holds that key's
      events in input order. */
  lemma TypeGroupsExact(events: seq<Json>, t: TypeId)
    ensures var g := TypeGroups(events);
      && Total(g.order, g.groups) == |events|
      && (t in g.groups <==> exists i :: 0 <= i < |events| && TypeIdAt(events, i) == t)
      && (t in g.groups ==> g.groups[t] == Select(TypeIds(events), SegmentAll(events), t))
  {
    var keys, vals := TypeIds(events), SegmentAll(events);
    GroupByExact(keys, vals, t);
    KeyColumn(events, keys, t);
  }

  lemma KeyColumn(events: seq<Json>, keys: seq<TypeId>, t: TypeId)
    requires keys == TypeIds(events)
    ensures (exists i :: 0 <= i < |keys| && keys[i] == t) <==> (exists i :: 0 <= i < |events| && TypeIdAt(events, i) == t)
  {
  }

  /** A primitive type value has a group exactly when some event has it. */
  lemma PrimitiveTypeGroup(events: seq<Json>, v: Json)
    requires IsPrimitive(v)
    ensures Prim(v) in TypeGroups(events).groups <==> exists i :: 0 <= i < |events| && TypeValue(events[i]) == v
  {
    PrimitiveKeys(events, TypeIds(events), v);
  }

  lemma PrimitiveKeys(events: seq<Json>, keys: seq<TypeId>, v: Json)
    requires keys == TypeIds(events) && IsPrimitive(v)
    ensures Prim(v) in keys <==> exists i :: 0 <= i < |events| && TypeValue(events[i]) == v
  {
    if exists i :: 0 <= i < |events| && TypeValue(events[i]) == v {
      var i :| 0 <= i < |events| && TypeValue(events[i]) == v;
      assert keys[i] == Prim(v);
    }
  }

  /** Two events whose types are equal-looking arrays are two groups that
      write the same file, so the file ends up holding the second event
      alone. */
  lemma ArrayTypesKeptApart(a: Json)
    requires a == JObj([Field("eventType", JArr([JStr("x")]))])
    ensures var v := JArr([JStr("x")]);
      && TypeGroups([a, a]).order == [Ref(0, v), Ref(1, v)]
      && FileName(Ref(0, v)) == FileName(Ref(1, v))
  {
    var v := JArr([JStr("x")]);
    ArrayTypeIds(a, v);
    DedupPair(Ref(0, v), Ref(1, v));
  }

  lemma ArrayTypeIds(a: Json, v: Json)
    requires v == JArr([JStr("x")]) && a == JObj([Field("eventType", v)])
    ensures TypeIds([a, a]) == [Ref(0, v), Ref(1, v)]
  {
    assert Prop(a, "eventType") == Some(v);
  }

  /** An array or object type is a group of its own, holding only the
      event it came from. */
  lemma ReferenceTypeGroup(events: seq<Json>, i: nat)
    requires i < |events| && !IsPrimitive(TypeValue(events[i]))
    ensures var t := Ref(i, TypeValue(events[i]));
      t in TypeGroups(events).groups
      && TypeGroups(events).groups[t] == [SegmentedJson(SegmentEventData(events[i]))]
  {
    var t := Ref(i, TypeValue(events[i]));
    var keys, vals := TypeIds(events), SegmentAll(events);
    TypeGroupsExact(events, t);
    assert keys[i] == t;
    SelectOnly(keys, vals, t, i);
  }

  /** `sanitizeType(type)` on the type value: `String(type || 'unknown')`
      lower-cased and made safe; on text it is `SanitizeType`. */
  function SanitizeValue(v: Json): (r: string)
    ensures Clean(r, IsSlugChar, '-')
    ensures v.JStr? ==> r == SanitizeType(v.s)
  {
    Sanitize(Lower(JsText(if Truthy(v) then v else JStr("unknown"))), IsSlugChar, '-')
  }

  /** `<sanitizeType(type)>.min.json` for a `Map` key. */
  function FileName(t: TypeId): string {
    SanitizeValue(t.v) + ".min.json"
  }

  /** The writes in group order: each type's file name and its array. */
  function FileWrites(g: Groups<TypeId, Json>): (pairs: seq<(string, seq<Json>)>)
    ensures |pairs| == |g.order|
    ensures forall i :: 0 <= i < |g.order| ==>
      pairs[i] == (FileName(g.order[i]), if g.order[i] in g.groups then g.groups[g.order[i]] else [])
  {
    seq(|g.order|, i requires 0 <= i < |g.order| =>
      (FileName(g.order[i]), if g.order[i] in g.groups then g.groups[g.order[i]] else []))
  }

  /** The per-type files: `<sanitizeType(type)>.min.json`, written in group
      order, a later group overwriting an earlier one with the same name.
      There is a file exactly for the names of the types in use. */
  function EventTypeFiles(g: Groups<TypeId, Json>): (files: map<string, seq<Json>>)
    ensures forall t :: t in g.order ==> FileName(t) in files
    ensures forall f :: f in files ==> exists t :: t in g.order && FileName(t) == f
  {
    FilesOfTypes(g);
    LastBy(FileWrites(g))
  }

  lemma FilesOfTypes(g: Groups<TypeId, Json>)
    ensures forall t :: t in g.order ==> FileName(t) in LastBy(FileWrites(g))
    ensures forall f :: f in LastBy(FileWrites(g)) ==> exists t :: t in g.order && FileName(t) == f
  {
    var pairs := FileWrites(g);
    forall t | t in g.order ensures FileName(t) in LastBy(pairs) {
      var i :| 0 <= i < |g.order| && g.order[i] == t;
      assert pairs[i].0 == FileName(t);
    }
    forall f | f in LastBy(pairs) ensures exists t :: t in g.order && FileName(t) == f {
      var i :| 0 <= i < |pairs| && pairs[i].0 == f;
      assert g.order[i] in g.order;
    }
  }

  /** A file holds the array of the last type in group order whose name
      sanitises to it: a name clash is won by the later type. */
  lemma EventTypeFileContents(g: Groups<TypeId, Json>, f: string) returns (i: nat)
    requires f in EventTypeFiles(g)
    ensures i < |g.order| && FileName(g.order[i]) == f
    ensures EventTypeFiles(g)[f] == if g.order[i] in g.groups then g.groups[g.order[i]] else []
    ensures forall j :: i < j < |g.order| ==> FileName(g.order[j]) != f
  {
    var pairs := FileWrites(g);
    i := LastByLatest(pairs, f);
    forall j | i < j < |g.order| ensures FileName(g.order[j]) != f {
      assert pairs[j].0 == FileName(g.order[j]);
    }
  }
}
