/** The canonical manifest of the schema comparison: six top-level datasets
    followed by one entry per event type, each naming its schema, data file
    and documentation page, plus the documentation files deliberately left
    unmapped. */
module SchemaManifest {
  import opened Wrappers
  import opened TextOrder

  datatype EventType = EventType(slug: string, doc: string, dataOptional: Option<bool>)

  /** A manifest entry; `dataOptional` is absent on the top-level datasets. */
  datatype Entry = Entry(dataset: string, schema: string, data: string, doc: string, dataOptional: Option<bool>)

  const EventTypes: seq<EventType> := [
    EventType("community-day", "CommunityDay", None),
    EventType("event", "Event", None),
    EventType("go-battle-league", "GoBattleLeague", None),
    EventType("go-pass", "GoPass", None),
    EventType("go-rocket-takeover", "GoRocketTakeover", Some(true)),
    EventType("max-battles", "MaxBattles", None),
    EventType("max-mondays", "MaxMondays", None),
    EventType("pokemon-go-tour", "PokemonGoTour", None),
    EventType("pokemon-spotlight-hour", "PokemonSpotlightHour", None),
    EventType("pokestop-showcase", "PokestopShowcase", None),
    EventType("raid-battles", "RaidBattles", None),
    EventType("raid-day", "RaidDay", None),
    EventType("raid-hour", "RaidHour", None),
    EventType("research", "Research", None),
    EventType("research-breakthrough", "ResearchBreakthrough", Some(true)),
    EventType("research-day", "ResearchDay", None),
    EventType("season", "Season", None),
    EventType("special-research", "SpecialResearch", Some(true)),
    EventType("team-go-rocket", "TeamGoRocket", Some(true)),
    EventType("timed-research", "TimedResearch", Some(true))
  ]

  const CanonicalDatasets: seq<Entry> := [
    Entry("eggs", "schemas/eggs.schema.json", "data/eggs.min.json", "dataDocumentation/Eggs.md", None),
    Entry("events", "schemas/events.schema.json", "data/events.min.json", "dataDocumentation/Events.md", None),
    Entry("raids", "schemas/raids.schema.json", "data/raids.min.json", "dataDocumentation/Raids.md", None),
    Entry("research", "schemas/research.schema.json", "data/research.min.json", "dataDocumentation/Research.md", None),
    Entry("rocketLineups", "schemas/rocketLineups.schema.json", "data/rocketLineups.min.json",
          "dataDocumentation/RocketLineups.md", None),
    Entry("shinies", "schemas/shinies.schema.json", "data/shinies.min.json", "dataDocumentation/Shinies.md", None)
  ]

  const EventsPrefix := "events:"

  /** The entry derived from one event type; `et.dataOptional || false`. */
  function EventTypeEntry(et: EventType): Entry {
    Entry(EventsPrefix + et.slug, "schemas/events.schema.json",
          "data/eventTypes/" + et.slug + ".min.json",
          "dataDocumentation/eventTypes/" + et.doc + ".md",
          Some(et.dataOptional == Some(true)))
  }

  function EventTypeEntries(ets: seq<EventType>): (r: seq<Entry>)
    ensures |r| == |ets|
    ensures forall i :: 0 <= i < |ets| ==> r[i] == EventTypeEntry(ets[i])
  {
    if ets == [] then [] else [EventTypeEntry(ets[0])] + EventTypeEntries(ets[1..])
  }

  /** The exported array. */
  const Manifest: seq<Entry> := CanonicalDatasets + EventTypeEntries(EventTypes)

  /** Attached to the export as a property, not as array elements. */
  const AuxiliaryFiles: seq<string> := ["dataDocumentation/API.md", "dataDocumentation/Endpoints.md"]

  function Datasets(entries: seq<Entry>): (r: seq<string>)
    ensures |r| == |entries|
    ensures forall i :: 0 <= i < |entries| ==> r[i] == entries[i].dataset
  {
    if entries == [] then [] else [entries[0].dataset] + Datasets(entries[1..])
  }

  // ---------------------------------------------------------------- shape

  lemma ManifestSize()
    ensures |Manifest| == 26
  {
  }

  /** The six top-level datasets come first, in their declared order. */
  lemma ManifestCanonical()
    ensures Manifest[..6] == CanonicalDatasets
  {
  }

  /** Entry `i` past the top-level datasets is derived from event type `i - 6`. */
  lemma ManifestEventEntry(i: nat)
    requires 6 <= i < |Manifest|
    ensures Manifest[i] == EventTypeEntry(EventTypes[i - 6])
  {
  }

  /** Every event-type entry shares the events schema and names its slug's
      data file and documentation page. */
  lemma EventTypeEntryShape(i: nat)
    requires 6 <= i < |Manifest|
    ensures var e, et := Manifest[i], EventTypes[i - 6];
      e.dataset == "events:" + et.slug
      && e.schema == "schemas/events.schema.json"
      && e.data == "data/eventTypes/" + et.slug + ".min.json"
      && e.doc == "dataDocumentation/eventTypes/" + et.doc + ".md"
  {
    ManifestEventEntry(i);
  }

  /** A data file may be missing exactly for the event types that say so;
      the top-level datasets carry no flag at all. */
  lemma DataOptionalOnlyWhenSet(i: nat)
    requires i < |Manifest|
    ensures Manifest[i].dataOptional == Some(true) <==> i >= 6 && EventTypes[i - 6].dataOptional == Some(true)
    ensures Manifest[i].dataOptional.Some? <==> i >= 6
  {
    if i >= 6 {
      ManifestEventEntry(i);
    } else {
      ManifestCanonical();
      assert Manifest[i] == CanonicalDatasets[i];
      CanonicalUnflagged(i);
    }
  }

  lemma CanonicalUnflagged(i: nat)
    requires i < |CanonicalDatasets|
    ensures CanonicalDatasets[i].dataOptional == None
  {
  }

  // ----------------------------------------------------------- uniqueness

  /** A cheap fingerprint of a name: its length and its next-to-last
      character. It differs between any two names of the manifest. */
  function NameKey(s: string): int {
    if |s| < 2 then -1 else |s| * 128 + s[|s| - 2] as int
  }

  /** Inverts `NameKey` over the manifest's dataset names. */
  function DatasetIndex(k: int): int {
    if k == 615 then 0
    else if k == 884 then 1
    else if k == 740 then 2
    else if k == 1123 then 3
    else if k == 1776 then 4
    else if k == 997 then 5
    else if k == 2657 then 6
    else if k == 1646 then 7
    else if k == 3061 then 8
    else if k == 1907 then 9
    else if k == 3301 then 10
    else if k == 2405 then 11
    else if k == 2425 then 12
    else if k == 2933 then 13
    else if k == 3829 then 14
    else if k == 3187 then 15
    else if k == 2533 then 16
    else if k == 2017 then 17
    else if k == 2165 then 18
    else if k == 2019 then 19
    else if k == 3687 then 20
    else if k == 2529 then 21
    else if k == 1775 then 22
    else if k == 3043 then 23
    else if k == 2789 then 24
    else if k == 2787 then 25
    else -1
  }

  lemma PrefixedKey(slug: string)
    requires |slug| >= 2
    ensures NameKey(EventsPrefix + slug) == NameKey(slug) + 7 * 128
  {
    var n := EventsPrefix + slug;
    assert n[|n| - 2] == slug[|slug| - 2];
  }

  lemma CanonicalKeyAt(i: nat)
    requires i < |CanonicalDatasets|
    ensures DatasetIndex(NameKey(CanonicalDatasets[i].dataset)) == i
  {
    if i == 0 { }
    else if i == 1 { }
    else if i == 2 { }
    else if i == 3 { }
    else if i == 4 { }
    else if i == 5 { }
  }

  lemma SlugKeyAt(j: nat)
    requires j < |EventTypes|
    ensures |EventTypes[j].slug| >= 2
    ensures DatasetIndex(NameKey(EventTypes[j].slug) + 7 * 128) == j + 6
  {
    if j < 10 { SlugKeyLow(j); } else { SlugKeyHigh(j); }
  }

  lemma SlugKeyLow(j: nat)
    requires j < 10 && j < |EventTypes|
    ensures |EventTypes[j].slug| >= 2
    ensures DatasetIndex(NameKey(EventTypes[j].slug) + 7 * 128) == j + 6
  {
    if j == 0 { }
    else if j == 1 { }
    else if j == 2 { }
    else if j == 3 { }
    else if j == 4 { }
    else if j == 5 { }
    else if j == 6 { }
    else if j == 7 { }
    else if j == 8 { }
    else if j == 9 { }
  }

  lemma SlugKeyHigh(j: nat)
    requires 10 <= j < |EventTypes|
    ensures |EventTypes[j].slug| >= 2
    ensures DatasetIndex(NameKey(EventTypes[j].slug) + 7 * 128) == j + 6
  {
    if j == 10 { }
    else if j == 11 { }
    else if j == 12 { }
    else if j == 13 { }
    else if j == 14 { }
    else if j == 15 { }
    else if j == 16 { }
    else if j == 17 { }
    else if j == 18 { }
    else if j == 19 { }
  }

  lemma DatasetKeyAt(i: nat)
    requires i < |Manifest|
    ensures DatasetIndex(NameKey(Manifest[i].dataset)) == i
  {
    ManifestSize();
    if i < 6 {
      CanonicalDatasetKeyAt(i);
    } else {
      EventDatasetKeyAt(i);
    }
  }

  lemma CanonicalDatasetKeyAt(i: nat)
    requires i < 6
    ensures DatasetIndex(NameKey(Manifest[i].dataset)) == i
  {
    ManifestCanonical();
    assert Manifest[i] == CanonicalDatasets[i];
    CanonicalKeyAt(i);
  }

  lemma EventDatasetKeyAt(i: nat)
    requires 6 <= i < 26
    ensures DatasetIndex(NameKey(Manifest[i].dataset)) == i
  {
    ManifestSize();
    ManifestEventEntry(i);
    EventKeyAt(i - 6);
  }

  lemma EventKeyAt(j: nat)
    requires j < |EventTypes|
    ensures DatasetIndex(NameKey(EventTypeEntry(EventTypes[j]).dataset)) == j + 6
  {
    SlugKeyAt(j);
    PrefixedKey(EventTypes[j].slug);
  }

  /** Dataset names are pairwise distinct. */
  lemma DatasetsDistinct()
    ensures forall i, j :: 0 <= i < j < |Manifest| ==> Manifest[i].dataset != Manifest[j].dataset
  {
    forall i, j | 0 <= i < j < |Manifest| ensures Manifest[i].dataset != Manifest[j].dataset {
      DatasetKeyAt(i);
      DatasetKeyAt(j);
    }
  }

  lemma {:induction false} DistinctCardinality(s: seq<string>)
    requires forall i, j :: 0 <= i < j < |s| ==> s[i] != s[j]
    ensures |set x | x in s| == |s|
  {
    if s != [] {
      DistinctCardinality(s[1..]);
      var rest := set x | x in s[1..];
      assert (set x | x in s) == rest + {s[0]};
      assert s[0] !in rest by {
        forall k | 0 <= k < |s[1..]| ensures s[1..][k] != s[0] {
          assert s[1..][k] == s[k + 1];
        }
      }
    }
  }

  lemma {:induction false} DistinctDatasets(entries: seq<Entry>)
    requires forall i, j :: 0 <= i < j < |entries| ==> entries[i].dataset != entries[j].dataset
    ensures |set d | d in Datasets(entries)| == |entries|
  {
    var names := Datasets(entries);
    forall i, j | 0 <= i < j < |names| ensures names[i] != names[j] {
      assert names[i] == entries[i].dataset && names[j] == entries[j].dataset;
    }
    DistinctCardinality(names);
  }

  /** One name per entry: the per-dataset summary has 26 keys. */
  lemma DatasetNameCount()
    ensures |set d | d in Datasets(Manifest)| == |Manifest| == 26
  {
    ManifestSize();
    DatasetsDistinct();
    DistinctDatasets(Manifest);
  }

  /** The auxiliary pages are no entry's documentation page. */
  lemma AuxiliaryFilesUnmapped()
    ensures forall i, k :: 0 <= i < |Manifest| && 0 <= k < |AuxiliaryFiles| ==> Manifest[i].doc != AuxiliaryFiles[k]
  {
    ManifestSize();
    forall i, k | 0 <= i < 26 && 0 <= k < |AuxiliaryFiles| ensures Manifest[i].doc != AuxiliaryFiles[k] {
      if i >= 6 {
        EventDocNotAuxiliary(i, k);
      } else {
        CanonicalDocNotAuxiliary(i, k);
      }
    }
  }

  lemma EventDocNotAuxiliary(i: nat, k: nat)
    requires 6 <= i < 26 && k < |AuxiliaryFiles|
    ensures Manifest[i].doc != AuxiliaryFiles[k]
  {
    ManifestSize();
    ManifestEventEntry(i);
    EventDocInSubfolder(EventTypes[i - 6]);
    AuxiliaryShape(k);
  }

  lemma CanonicalDocNotAuxiliary(i: nat, k: nat)
    requires i < 6 && k < |AuxiliaryFiles|
    ensures Manifest[i].doc != AuxiliaryFiles[k]
  {
    ManifestCanonical();
    assert Manifest[i] == CanonicalDatasets[i];
    CanonicalDocLength(i);
    AuxiliaryShape(k);
  }

  lemma EventDocInSubfolder(et: EventType)
    ensures EventTypeEntry(et).doc[18] == 'e'
  {
  }

  lemma AuxiliaryShape(k: nat)
    requires k < |AuxiliaryFiles|
    ensures |AuxiliaryFiles[k]| in {24, 30} && AuxiliaryFiles[k][18] != 'e'
  {
  }

  lemma CanonicalDocLength(i: nat)
    requires i < |CanonicalDatasets|
    ensures |CanonicalDatasets[i].doc| !in {24, 30}
  {
  }
}
