/** Findings of the schema comparison: how one is recorded, the order the
    report lists them in, the per-severity, per-category and per-dataset
    summary, and the exit code of a run. */
module SchemaFindings {
  import opened Wrappers
  import opened Json
  import opened Sorting
  import opened TextOrder

  datatype Severity = Error | Warning | Info

  /** `SEVERITY_ORDER` */
  function Rank(s: Severity): nat {
    match s
    case Error => 0
    case Warning => 1
    case Info => 2
  }

  /** A recorded finding: absent or empty optional texts are stored as `null`. */
  datatype Finding = Finding(
    severity: Severity,
    category: string,
    dataset: Option<string>,
    file: Option<string>,
    path: Option<string>,
    message: string,
    details: Option<Json>)

  /** `x || null` for an optional text. */
  function OrNull(x: Option<string>): (r: Option<string>)
    ensures r.Some? <==> x.Some? && x.value != ""
    ensures r.Some? ==> r == x
  {
    if x.Some? && x.value != "" then x else None
  }

  /** `x || null` for an optional JSON value. */
  function JsonOrNull(x: Option<Json>): (r: Option<Json>)
    ensures r.Some? <==> TruthyOpt(x)
    ensures r.Some? ==> r == x
  {
    if TruthyOpt(x) then x else None
  }

  /** `addFinding`: the draft is appended, with empty optional parts as `null`. */
  function AddFinding(findings: seq<Finding>, severity: Severity, category: string,
                      dataset: Option<string>, file: Option<string>, path: Option<string>,
                      message: string, details: Option<Json>): (r: seq<Finding>)
    ensures |r| == |findings| + 1 && r[..|findings|] == findings
    ensures var f := r[|findings|];
      f.severity == severity && f.category == category && f.message == message
      && (f.dataset.Some? <==> dataset.Some? && dataset.value != "")
      && (f.dataset.Some? ==> f.dataset == dataset)
      && (f.file.Some? <==> file.Some? && file.value != "")
      && (f.path.Some? <==> path.Some? && path.value != "")
  {
    findings + [Finding(severity, category, OrNull(dataset), OrNull(file), OrNull(path), message, JsonOrNull(details))]
  }

  // ------------------------------------------------------------ ordering

  /** `String(x || '')` */
  function Text(x: Option<string>): string {
    if x.Some? then x.value else ""
  }

  /** The texts compared after the severity, in order. */
  function SortKeys(f: Finding): seq<string> {
    [f.category, Text(f.dataset), Text(f.file), Text(f.path)]
  }

  /** Severity rank first, then the texts lexicographically. */
  predicate FindingLe(l: Finding, r: Finding) {
    Rank(l.severity) < Rank(r.severity)
    || (Rank(l.severity) == Rank(r.severity) && TextsLe(SortKeys(l), SortKeys(r)))
  }

  function FindingOrder(): (Finding, Finding) -> bool {
    (l: Finding, r: Finding) => FindingLe(l, r)
  }

  lemma FindingOrderIsPreorder()
    ensures TotalPreorder(FindingOrder())
  {
    forall a: Finding, b: Finding ensures FindingLe(a, b) || FindingLe(b, a) {
      TextsLeTotal(SortKeys(a), SortKeys(b));
    }
    forall a: Finding, b: Finding, c: Finding | FindingLe(a, b) && FindingLe(b, c) ensures FindingLe(a, c) {
      if Rank(a.severity) == Rank(b.severity) == Rank(c.severity) {
        TextsLeTrans(SortKeys(a), SortKeys(b), SortKeys(c));
      }
    }
  }

  /** `String.prototype.localeCompare`, read as code-point order. */
  function LocaleCompare(a: string, b: string): int {
    if a == b then 0 else if TextLe(a, b) then -1 else 1
  }

  /** The comparator handed to `Array.prototype.sort`. */
  function CompareFindings(l: Finding, r: Finding): int {
    var severityDiff := Rank(l.severity) - Rank(r.severity);
    if severityDiff != 0 then severityDiff
    else
      var categoryDiff := LocaleCompare(l.category, r.category);
      if categoryDiff != 0 then categoryDiff
      else
        var datasetDiff := LocaleCompare(Text(l.dataset), Text(r.dataset));
        if datasetDiff != 0 then datasetDiff
        else
          var fileDiff := LocaleCompare(Text(l.file), Text(r.file));
          if fileDiff != 0 then fileDiff
          else LocaleCompare(Text(l.path), Text(r.path))
  }

  lemma LocaleCompareSign(a: string, b: string)
    ensures LocaleCompare(a, b) == 0 <==> a == b
    ensures LocaleCompare(a, b) < 0 <==> a != b && TextLe(a, b)
  {
  }

  /** One key of the fall-through comparison: a difference decides, a tie
      passes to the remaining keys. */
  lemma TextsLeStep(a: seq<string>, b: seq<string>)
    requires a != [] && b != []
    ensures TextsLe(a, b) <==> if a[0] == b[0] then TextsLe(a[1..], b[1..]) else LocaleCompare(a[0], b[0]) < 0
  {
  }

  /** A finding may precede another exactly when the comparator does not
      put it after it. */
  lemma FindingLeIsComparator(l: Finding, r: Finding)
    ensures FindingLe(l, r) <==> CompareFindings(l, r) <= 0
  {
    var kl, kr := SortKeys(l), SortKeys(r);
    assert kl[1..][1..][1..][1..] == [] && kr[1..][1..][1..][1..] == [];
    TextsLeStep(kl[1..][1..][1..], kr[1..][1..][1..]);
    TextsLeStep(kl[1..][1..], kr[1..][1..]);
    TextsLeStep(kl[1..], kr[1..]);
    TextsLeStep(kl, kr);
  }

  /** `sortFindings`: an ordered permutation of the findings. */
  function SortFindings(findings: seq<Finding>): (r: seq<Finding>)
    ensures multiset(r) == multiset(findings)
    ensures Sorted(r, FindingOrder())
  {
    FindingOrderIsPreorder();
    SortSorted(findings, FindingOrder());
    Sort(findings, FindingOrder())
  }

  // ------------------------------------------------------------- counting

  /** What one counter of the summary counts. */
  datatype Selector =
    | BySeverity(severity: Severity)
    | ByCategory(category: string, severity: Severity)
    | ByDataset(dataset: string, severity: Severity)

  /** `finding.dataset && byDataset[finding.dataset]` also needs the name to
      be non-empty. */
  predicate Selects(sel: Selector, f: Finding) {
    match sel
    case BySeverity(s) => f.severity == s
    case ByCategory(c, s) => f.category == c && f.severity == s
    case ByDataset(d, s) => f.dataset == Some(d) && d != "" && f.severity == s
  }

  function CountOf(findings: seq<Finding>, sel: Selector): (n: nat)
    ensures n <= |findings|
  {
    if findings == [] then 0
    else (if Selects(sel, findings[0]) then 1 else 0) + CountOf(findings[1..], sel)
  }

  lemma {:induction false} CountOfConcat(a: seq<Finding>, b: seq<Finding>, sel: Selector)
    ensures CountOf(a + b, sel) == CountOf(a, sel) + CountOf(b, sel)
  {
    if a == [] {
      assert a + b == b;
    } else {
      CountOfConcat(a[1..], b, sel);
      assert (a + b)[1..] == a[1..] + b;
    }
  }

  lemma CountOfSplit(b: seq<Finding>, k: nat, sel: Selector)
    requires k < |b|
    ensures CountOf(b, sel) == CountOf(b[..k] + b[k + 1..], sel) + if Selects(sel, b[k]) then 1 else 0
  {
    assert b == b[..k] + [b[k]] + b[k + 1..];
    CountOfConcat(b[..k] + [b[k]], b[k + 1..], sel);
    CountOfConcat(b[..k], [b[k]], sel);
    CountOfConcat(b[..k], b[k + 1..], sel);
  }

  lemma RemoveAt(b: seq<Finding>, k: nat)
    requires k < |b|
    ensures multiset(b[..k] + b[k + 1..]) == multiset(b) - multiset{b[k]}
  {
    assert b == b[..k] + [b[k]] + b[k + 1..];
  }

  /** Counts depend on the findings, not on their order. */
  lemma {:induction false} CountOfPermutation(a: seq<Finding>, b: seq<Finding>, sel: Selector)
    requires multiset(a) == multiset(b)
    ensures CountOf(a, sel) == CountOf(b, sel)
    decreases |a|
  {
    if a == [] {
      assert |b| == |multiset(b)| == 0;
    } else {
      var k := MatchOfHead(a, b);
      CountOfPermutation(a[1..], b[..k] + b[k + 1..], sel);
      CountOfSplit(b, k, sel);
    }
  }

  /** The first finding of `a` sits somewhere in its permutation `b`; the rests are permutations too. */
  lemma MatchOfHead(a: seq<Finding>, b: seq<Finding>) returns (k: nat)
    requires a != [] && multiset(a) == multiset(b)
    ensures k < |b| && b[k] == a[0]
    ensures multiset(a[1..]) == multiset(b[..k] + b[k + 1..])
  {
    assert a == [a[0]] + a[1..];
    assert a[0] in multiset(b);
    k :| 0 <= k < |b| && b[k] == a[0];
    RemoveAt(b, k);
    assert multiset(a[1..]) == multiset(a) - multiset{a[0]};
  }

  /** Every finding has exactly one severity. */
  lemma {:induction false} SeverityCountsSum(findings: seq<Finding>)
    ensures CountOf(findings, BySeverity(Error)) + CountOf(findings, BySeverity(Warning))
            + CountOf(findings, BySeverity(Info)) == |findings|
  {
    if findings != [] {
      SeverityCountsSum(findings[1..]);
    }
  }

  // -------------------------------------------------------------- summary

  datatype Counts = Counts(error: nat, warning: nat, info: nat)

  const NoCounts := Counts(0, 0, 0)

  function Bump(c: Counts, s: Severity): Counts {
    match s
    case Error => c.(error := c.error + 1)
    case Warning => c.(warning := c.warning + 1)
    case Info => c.(info := c.info + 1)
  }

  datatype Status = Pass | Fail

  datatype DatasetSummary = DatasetSummary(errors: nat, warnings: nat, status: Status)

  datatype Summary = Summary(totals: Counts, byCategory: map<string, Counts>, byDataset: map<string, DatasetSummary>)

  /** Every manifest dataset starts at zero errors and warnings. */
  function Seed(datasets: seq<string>): (m: map<string, DatasetSummary>)
    ensures m.Keys == set d | d in datasets
    ensures forall d | d in m :: m[d] == DatasetSummary(0, 0, Pass)
  {
    map d | d in datasets :: DatasetSummary(0, 0, Pass)
  }

  /** One turn of the counting loop. */
  function Tally(s: Summary, f: Finding): Summary {
    var c := if f.category in s.byCategory then s.byCategory[f.category] else NoCounts;
    var byDataset :=
      if f.dataset.Some? && f.dataset.value != "" && f.dataset.value in s.byDataset then
        var d := s.byDataset[f.dataset.value];
        s.byDataset[f.dataset.value := match f.severity
          case Error => d.(errors := d.errors + 1)
          case Warning => d.(warnings := d.warnings + 1)
          case Info => d]
      else s.byDataset;
    Summary(Bump(s.totals, f.severity), s.byCategory[f.category := Bump(c, f.severity)], byDataset)
  }

  function CategoryCounts(findings: seq<Finding>, c: string): Counts {
    Counts(CountOf(findings, ByCategory(c, Error)), CountOf(findings, ByCategory(c, Warning)),
           CountOf(findings, ByCategory(c, Info)))
  }

  function Categories(findings: seq<Finding>): set<string> {
    set f | f in findings :: f.category
  }

  /** The counters of `s` are those of the loop after `findings`. */
  ghost predicate Counted(s: Summary, findings: seq<Finding>, datasets: seq<string>) {
    s.totals == Counts(CountOf(findings, BySeverity(Error)), CountOf(findings, BySeverity(Warning)),
                       CountOf(findings, BySeverity(Info)))
    && s.byCategory.Keys == Categories(findings)
    && (forall c | c in s.byCategory :: s.byCategory[c] == CategoryCounts(findings, c))
    && s.byDataset.Keys == (set d | d in datasets)
    && forall d | d in s.byDataset ::
      s.byDataset[d] == DatasetSummary(CountOf(findings, ByDataset(d, Error)), CountOf(findings, ByDataset(d, Warning)), Pass)
  }

  lemma CountOfLast(init: seq<Finding>, f: Finding, sel: Selector)
    ensures CountOf(init + [f], sel) == CountOf(init, sel) + if Selects(sel, f) then 1 else 0
  {
    CountOfConcat(init, [f], sel);
  }

  lemma TallyTotals(s: Summary, init: seq<Finding>, f: Finding, datasets: seq<string>)
    requires Counted(s, init, datasets)
    ensures Tally(s, f).totals == Counts(CountOf(init + [f], BySeverity(Error)), CountOf(init + [f], BySeverity(Warning)),
                                          CountOf(init + [f], BySeverity(Info)))
  {
    CountOfLast(init, f, BySeverity(Error));
    CountOfLast(init, f, BySeverity(Warning));
    CountOfLast(init, f, BySeverity(Info));
  }

  lemma TallyCategories(s: Summary, init: seq<Finding>, f: Finding, datasets: seq<string>)
    requires Counted(s, init, datasets)
    ensures Tally(s, f).byCategory.Keys == Categories(init + [f])
    ensures forall c | c in Tally(s, f).byCategory :: Tally(s, f).byCategory[c] == CategoryCounts(init + [f], c)
  {
    var r := Tally(s, f);
    assert Categories(init + [f]) == Categories(init) + {f.category} by {
      assert forall g :: g in init + [f] <==> g in init || g == f;
    }
    forall c | c in r.byCategory ensures r.byCategory[c] == CategoryCounts(init + [f], c) {
      TallyCategory(s, init, f, datasets, c);
    }
  }

  /** One category's counters after a turn of the loop. */
  lemma TallyCategory(s: Summary, init: seq<Finding>, f: Finding, datasets: seq<string>, c: string)
    requires Counted(s, init, datasets)
    requires c in Tally(s, f).byCategory
    ensures Tally(s, f).byCategory[c] == CategoryCounts(init + [f], c)
  {
    var r := Tally(s, f);
    CountOfLast(init, f, ByCategory(c, Error));
    CountOfLast(init, f, ByCategory(c, Warning));
    CountOfLast(init, f, ByCategory(c, Info));
    if c != f.category {
      assert r.byCategory[c] == s.byCategory[c];
    } else if c !in s.byCategory {
      assert c !in Categories(init);
      assert CategoryCounts(init, c) == NoCounts by {
        NoneSelected(init, ByCategory(c, Error));
        NoneSelected(init, ByCategory(c, Warning));
        NoneSelected(init, ByCategory(c, Info));
      }
    }
  }

  /** A selector that picks no finding counts zero. */
  lemma {:induction false} NoneSelected(findings: seq<Finding>, sel: Selector)
    requires forall f | f in findings :: !Selects(sel, f)
    ensures CountOf(findings, sel) == 0
  {
    if findings != [] {
      assert findings[0] in findings;
      NoneSelected(findings[1..], sel);
    }
  }

  lemma TallyDatasets(s: Summary, init: seq<Finding>, f: Finding, datasets: seq<string>)
    requires Counted(s, init, datasets)
    ensures Tally(s, f).byDataset.Keys == set d | d in datasets
    ensures forall d | d in Tally(s, f).byDataset ::
      Tally(s, f).byDataset[d] == DatasetSummary(CountOf(init + [f], ByDataset(d, Error)), CountOf(init + [f], ByDataset(d, Warning)), Pass)
  {
    var r := Tally(s, f);
    forall d | d in r.byDataset
      ensures r.byDataset[d] == DatasetSummary(CountOf(init + [f], ByDataset(d, Error)), CountOf(init + [f], ByDataset(d, Warning)), Pass)
    {
      CountOfLast(init, f, ByDataset(d, Error));
      CountOfLast(init, f, ByDataset(d, Warning));
    }
  }

  /** The counting loop over the findings in order, from the seeded summary:
      every counter ends at the number of findings it selects. */
  function TallyAll(findings: seq<Finding>, datasets: seq<string>): (r: Summary)
    ensures Counted(r, findings, datasets)
  {
    if findings == [] then
      var r := Summary(NoCounts, map[], Seed(datasets));
      assert Categories(findings) == {};
      r
    else
      var n := |findings| - 1;
      var init, last := findings[..n], findings[n];
      assert findings == init + [last];
      var s := TallyAll(init, datasets);
      TallyTotals(s, init, last, datasets);
      TallyCategories(s, init, last, datasets);
      TallyDatasets(s, init, last, datasets);
      Tally(s, last)
  }

  /** A dataset fails exactly when it has an error. */
  function Finalize(s: Summary): (r: Summary)
    ensures r.totals == s.totals && r.byCategory == s.byCategory
    ensures r.byDataset.Keys == s.byDataset.Keys
    ensures forall d | d in r.byDataset ::
      r.byDataset[d].errors == s.byDataset[d].errors && r.byDataset[d].warnings == s.byDataset[d].warnings
      && (r.byDataset[d].status == Fail <==> s.byDataset[d].errors > 0)
  {
    s.(byDataset := map d | d in s.byDataset ::
      s.byDataset[d].(status := if s.byDataset[d].errors > 0 then Fail else Pass))
  }

  /** `buildSummary(findings, manifest)`, given the manifest's dataset names. */
  function BuildSummary(findings: seq<Finding>, datasets: seq<string>): (r: Summary)
    ensures r.totals.error + r.totals.warning + r.totals.info == |findings|
    ensures r.totals.error == CountOf(findings, BySeverity(Error))
    ensures r.totals.warning == CountOf(findings, BySeverity(Warning))
    ensures r.totals.info == CountOf(findings, BySeverity(Info))
    ensures r.byCategory.Keys == Categories(findings)
    ensures forall c | c in r.byCategory :: r.byCategory[c] == CategoryCounts(findings, c)
    ensures r.byDataset.Keys == set d | d in datasets
    ensures forall d | d in r.byDataset ::
      r.byDataset[d].errors == CountOf(findings, ByDataset(d, Error))
      && r.byDataset[d].warnings == CountOf(findings, ByDataset(d, Warning))
      && (r.byDataset[d].status == Fail <==> r.byDataset[d].errors > 0)
  {
    SeverityCountsSum(findings);
    Finalize(TallyAll(findings, datasets))
  }

  /** Counters that agree with one list agree with any reordering of it. */
  lemma CountedPermutation(s: Summary, a: seq<Finding>, b: seq<Finding>, datasets: seq<string>)
    requires multiset(a) == multiset(b)
    requires Counted(s, a, datasets)
    ensures Counted(s, b, datasets)
  {
    forall sel: Selector ensures CountOf(a, sel) == CountOf(b, sel) {
      CountOfPermutation(a, b, sel);
    }
    assert Categories(a) == Categories(b) by {
      forall f ensures f in a <==> f in b {
        assert f in a <==> f in multiset(a);
        assert f in b <==> f in multiset(b);
      }
    }
  }

  /** The counters pin the summary down. */
  lemma CountedUnique(s: Summary, t: Summary, findings: seq<Finding>, datasets: seq<string>)
    requires Counted(s, findings, datasets) && Counted(t, findings, datasets)
    ensures s == t
  {
    assert s.byCategory == t.byCategory;
    assert s.byDataset == t.byDataset;
  }

  /** The summary does not depend on the order of the findings, so counting
      the sorted list gives the same report as counting the recorded one. */
  lemma SummaryOrderFree(a: seq<Finding>, b: seq<Finding>, datasets: seq<string>)
    requires multiset(a) == multiset(b)
    ensures BuildSummary(a, datasets) == BuildSummary(b, datasets)
  {
    var ta, tb := TallyAll(a, datasets), TallyAll(b, datasets);
    CountedPermutation(ta, a, b, datasets);
    CountedUnique(ta, tb, b, datasets);
  }

  // ------------------------------------------------------------ exit code

  /** An error tied to a canonical dataset; coverage findings carry none. */
  predicate HasCanonicalError(findings: seq<Finding>) {
    exists i :: 0 <= i < |findings| && findings[i].severity == Error && findings[i].dataset.Some?
  }

  /** The exit code of a comparison run. */
  function ExitCode(mode: Option<string>, findings: seq<Finding>): (code: int)
    ensures code == 0 || code == 1
  {
    if mode == Some("strict") && HasCanonicalError(findings) then 1 else 0
  }

  lemma SameMembers(a: seq<Finding>, b: seq<Finding>)
    requires multiset(a) == multiset(b)
    ensures forall f :: f in a <==> f in b
  {
    forall f ensures f in a <==> f in b {
      assert f in a <==> f in multiset(a);
      assert f in b <==> f in multiset(b);
    }
  }

  /** Sorting the findings first does not change the exit code. */
  lemma ExitCodeOrderFree(mode: Option<string>, a: seq<Finding>, b: seq<Finding>)
    requires multiset(a) == multiset(b)
    ensures ExitCode(mode, a) == ExitCode(mode, b)
  {
    SameMembers(a, b);
    if HasCanonicalError(a) {
      var i :| 0 <= i < |a| && a[i].severity == Error && a[i].dataset.Some?;
      assert a[i] in b;
    }
    if HasCanonicalError(b) {
      var i :| 0 <= i < |b| && b[i].severity == Error && b[i].dataset.Some?;
      assert b[i] in a;
    }
  }

  /** Findings without a dataset, such as the coverage warnings for unmapped
      data and documentation files, never change the exit code. */
  lemma CoverageNeverFails(mode: Option<string>, findings: seq<Finding>, coverage: seq<Finding>)
    requires forall f | f in coverage :: f.dataset.None?
    ensures ExitCode(mode, findings + coverage) == ExitCode(mode, findings)
  {
    var all := findings + coverage;
    if HasCanonicalError(all) {
      var i :| 0 <= i < |all| && all[i].severity == Error && all[i].dataset.Some?;
      assert forall j :: |findings| <= j < |all| ==> all[j] in coverage;
      assert findings[i] == all[i];
    }
    if HasCanonicalError(findings) {
      var i :| 0 <= i < |findings| && findings[i].severity == Error && findings[i].dataset.Some?;
      assert all[i] == findings[i];
    }
  }

  lemma CountPositive(findings: seq<Finding>, i: nat, sel: Selector)
    requires i < |findings| && Selects(sel, findings[i])
    ensures CountOf(findings, sel) > 0
  {
    CountOfSplit(findings, i, sel);
  }

  /** A failing run reports at least one error in its totals, so a run
      whose totals hold no error exits with 0. */
  lemma FailureHasErrors(mode: Option<string>, findings: seq<Finding>, datasets: seq<string>)
    requires ExitCode(mode, findings) == 1
    ensures BuildSummary(findings, datasets).totals.error > 0
  {
    var i :| 0 <= i < |findings| && findings[i].severity == Error && findings[i].dataset.Some?;
    CountPositive(findings, i, BySeverity(Error));
  }

  /** When every finding's dataset is a manifest dataset, strict mode fails
      exactly when some dataset of the summary fails. */
  lemma StrictExitMatchesDatasets(findings: seq<Finding>, datasets: seq<string>)
    requires forall f | f in findings :: f.dataset.Some? ==> f.dataset.value in datasets && f.dataset.value != ""
    ensures ExitCode(Some("strict"), findings) == 1 <==>
      exists d | d in BuildSummary(findings, datasets).byDataset :: BuildSummary(findings, datasets).byDataset[d].status == Fail
  {
    var r := BuildSummary(findings, datasets);
    if HasCanonicalError(findings) {
      var i :| 0 <= i < |findings| && findings[i].severity == Error && findings[i].dataset.Some?;
      assert findings[i] in findings;
      var d := findings[i].dataset.value;
      CountPositive(findings, i, ByDataset(d, Error));
      assert d in r.byDataset && r.byDataset[d].status == Fail;
    }
    if exists d | d in r.byDataset :: r.byDataset[d].status == Fail {
      var d :| d in r.byDataset && r.byDataset[d].status == Fail;
      assert CountOf(findings, ByDataset(d, Error)) > 0;
      var i := Selected(findings, ByDataset(d, Error));
      assert findings[i].severity == Error && findings[i].dataset.Some?;
    }
  }

  /** A positive count has a witness. */
  lemma {:induction false} Selected(findings: seq<Finding>, sel: Selector) returns (i: nat)
    requires CountOf(findings, sel) > 0
    ensures i < |findings| && Selects(sel, findings[i])
  {
    if Selects(sel, findings[0]) {
      i := 0;
    } else {
      var j := Selected(findings[1..], sel);
      i := j + 1;
    }
  }

  datatype Outcome = Outcome(findings: seq<Finding>, summary: Summary, exitCode: int)

  /** The end of `runComparison`: the findings are sorted, summarised and
      judged; neither the summary nor the exit code depends on the order in
      which the checks recorded the findings. */
  function Conclude(mode: Option<string>, findings: seq<Finding>, datasets: seq<string>): (r: Outcome)
    ensures multiset(r.findings) == multiset(findings) && Sorted(r.findings, FindingOrder())
    ensures r.summary == BuildSummary(findings, datasets)
    ensures r.exitCode == ExitCode(mode, findings)
  {
    var sorted := SortFindings(findings);
    SummaryOrderFree(sorted, findings, datasets);
    ExitCodeOrderFree(mode, sorted, findings);
    Outcome(sorted, BuildSummary(sorted, datasets), ExitCode(mode, sorted))
  }
}
