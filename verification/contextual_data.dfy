/** The records the contextual aggregator reads from the scraped data files.
    Only the properties the aggregator looks at are kept; a property that
    may be missing is an `Option`, and a missing boolean flag is `false`
    (the aggregator only ever tests flags for truthiness). Instants are
    milliseconds since the epoch, `None` when the date text does not parse
    (`new Date(text)` is then an invalid date and every comparison with it
    is false). */
module ContextualData {
  import opened Wrappers
  import opened Strings

  /** A Pokémon mentioned by a source: a raid boss, an egg hatch, a rocket
      slot, a featured or shiny event Pokémon. */
  datatype Mon = Mon(name: string, image: string, canBeShiny: bool, isEncounter: bool)

  datatype Event = Event(
    eventID: string, name: string, eventType: string,
    start: Option<int>, end: Option<int>,
    hasShiny: bool, hasRaids: bool, hasEggs: bool, hasBonuses: bool,
    featured: seq<Mon>, shinies: seq<Mon>)

  /** One reward of a research task; `info` stands for the image, size,
      shiny and CP properties that are copied through unchanged. */
  datatype Reward = Reward(kind: string, name: string, quantity: Option<int>, info: RewardInfo)
  datatype RewardInfo = RewardInfo(image: string, canBeShiny: bool, combatPower: Option<int>)

  /** A research task; `rewards` is `None` when the property is missing. */
  datatype Task = Task(text: string, kind: string, rewards: Option<seq<Reward>>)

  /** A rocket lineup; a slot is `None` when it is missing or not an array. */
  datatype Lineup = Lineup(name: string, title: string, kind: Option<string>,
                           first: Option<seq<Mon>>, second: Option<seq<Mon>>, third: Option<seq<Mon>>)

  /** `start <= now && end > now` on dates: false when either is invalid. */
  predicate IsActive(e: Event, now: int) {
    e.start.Some? && e.end.Some? && e.start.value <= now < e.end.value
  }

  /** `name.toLowerCase().trim()`: the key under which Pokémon are matched. */
  function PokemonKey(name: string): (k: string)
    ensures IsTrimmed(k)
    ensures forall i :: 0 <= i < |k| ==> !IsUpper(k[i])
  {
    TrimKeeps(Lower(name));
    Trim(Lower(name))
  }

  /** Keys are stable: a key is its own key. */
  lemma PokemonKeyIdempotent(name: string)
    ensures PokemonKey(PokemonKey(name)) == PokemonKey(name)
  {
    var k := PokemonKey(name);
    assert Lower(k) == k by {
      forall i | 0 <= i < |k| ensures Lower(k)[i] == k[i] {
      }
    }
    TrimOfTrimmed(k);
  }

  /** The three slots of a lineup, absent ones as empty. */
  function Slots(l: Lineup): seq<seq<Mon>> {
    [l.first.GetOr([]), l.second.GetOr([]), l.third.GetOr([])]
  }
}
