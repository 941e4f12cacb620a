/**
 The scoped update of reviewed results (tools/test262-incremental.ts): select the changed paths,
 observe those only, and merge their records with the ones that are kept.
 */
module ScopedUpdate {
  import opened Basics
  import opened CodeUnits
  import opened PathLists
  import opened Sorting

  datatype Entry = Entry(path: string, expected: string, dependencies: seq<string>)

  /** `detail` stands for everything else a record holds. */
  datatype Record = Record(path: string, classification: string, dependencies: seq<string>, detail: string)

  datatype Subset = Subset(suiteRevision: string, features: seq<string>, tests: seq<Entry>)

  /** The classifications that no published manifest may hold. */
  const FAILURES: set<string> := {"semantic-failure", "harness-failure", "infrastructure-failure"}

  function PathsOf(records: seq<Record>): (r: seq<string>)
    ensures |r| == |records|
  {
    seq(|records|, i requires 0 <= i < |records| => records[i].path)
  }

  function EntryPaths(tests: seq<Entry>): (r: seq<string>)
    ensures |r| == |tests|
  {
    seq(|tests|, i requires 0 <= i < |tests| => tests[i].path)
  }

  ghost predicate WellFormed(s: Subset) {
    Distinct(EntryPaths(s.tests))
  }

  /** The last entry of a path, if it is reviewed: later entries replace earlier ones. */
  function FindEntry(tests: seq<Entry>, path: string): (i: nat)
    ensures i <= |tests| && (i < |tests| ==> tests[i].path == path)
    ensures forall k | i < k < |tests| :: tests[k].path != path
    ensures i == |tests| <==> path !in EntryPaths(tests)
  {
    if tests == [] then 0
    else
      var n := |tests| - 1;
      assert EntryPaths(tests) == EntryPaths(tests[..n]) + [tests[n].path];
      if tests[n].path == path then n
      else
        var i := FindEntry(tests[..n], path);
        if i == n then n + 1 else i
  }

  // ----- Selecting -----

  datatype Selection =
    Changed(paths: seq<string>) | RevisionChanged | FeaturesChanged | PathRemoved(path: string) | NothingChanged

  predicate SameAsBefore(baseline: Subset, e: Entry) {
    var i := FindEntry(baseline.tests, e.path);
    i < |baseline.tests| && baseline.tests[i] == e
  }

  /** Paths of new or changed entries, in the order of the current subset. */
  function ChangedPaths(baseline: Subset, tests: seq<Entry>): (r: seq<string>)
    ensures forall p | p in r :: p in EntryPaths(tests)
  {
    if tests == [] then []
    else
      var init, last := tests[..|tests| - 1], tests[|tests| - 1];
      assert EntryPaths(tests) == EntryPaths(init) + [last.path];
      ChangedPaths(baseline, init) + if SameAsBefore(baseline, last) then [] else [last.path]
  }

  /** The first path of the baseline that is not reviewed any more. */
  ghost predicate FirstRemoved(before: seq<Entry>, tests: seq<Entry>, path: string) {
    exists i | 0 <= i < |before| ::
      && before[i].path == path && path !in EntryPaths(tests)
      && forall k | 0 <= k < i :: before[k].path in EntryPaths(tests)
  }

  method SelectChangedReviewedPaths(baseline: Subset, current: Subset) returns (r: Selection)
    ensures r.Changed? <==>
      && baseline.suiteRevision == current.suiteRevision && baseline.features == current.features
      && (forall e | e in baseline.tests :: e.path in EntryPaths(current.tests))
      && ChangedPaths(baseline, current.tests) != []
    ensures r.Changed? ==> r.paths == ChangedPaths(baseline, current.tests)
    ensures r.RevisionChanged? <==> baseline.suiteRevision != current.suiteRevision
    ensures r.FeaturesChanged? <==>
      baseline.suiteRevision == current.suiteRevision && baseline.features != current.features
    ensures r.PathRemoved? ==> baseline.suiteRevision == current.suiteRevision && baseline.features == current.features
    ensures r.PathRemoved? ==> FirstRemoved(baseline.tests, current.tests, r.path)
    ensures r.NothingChanged? <==>
      && baseline.suiteRevision == current.suiteRevision && baseline.features == current.features
      && (forall e | e in baseline.tests :: e.path in EntryPaths(current.tests))
      && ChangedPaths(baseline, current.tests) == []
  {
    if baseline.suiteRevision != current.suiteRevision {
      return RevisionChanged;
    }
    if baseline.features != current.features {
      return FeaturesChanged;
    }
    for i := 0 to |baseline.tests|
      invariant forall k | 0 <= k < i :: baseline.tests[k].path in EntryPaths(current.tests)
    {
      var path := baseline.tests[i].path;
      if FindEntry(current.tests, path) == |current.tests| {
        assert baseline.tests[i] in baseline.tests;
        return PathRemoved(path);
      }
    }
    var changed: seq<string> := [];
    for i := 0 to |current.tests|
      invariant changed == ChangedPaths(baseline, current.tests[..i])
    {
      assert current.tests[..i + 1][..i] == current.tests[..i];
      if !SameAsBefore(baseline, current.tests[i]) {
        changed := changed + [current.tests[i].path];
      }
    }
    assert current.tests[..|current.tests|] == current.tests;
    r := if changed == [] then NothingChanged else Changed(changed);
  }

  // ----- Merging -----

  datatype Merged = Merged(records: seq<Record>) | NotSelected(path: string) | ObservedTwice(path: string)
                  | NotObserved(path: string) | Outside(path: string) | KeptTwice(path: string)
                  | Reclassified(path: string) | OtherDependencies(path: string) | NoRecord(path: string) | HasFailures

  function KeptOf(existing: seq<Record>, selected: set<string>): seq<Record> {
    if existing == [] then []
    else
      var last := existing[|existing| - 1];
      KeptOf(existing[..|existing| - 1], selected) + if last.path in selected then [] else [last]
  }

  predicate MatchesEntry(r: Record, tests: seq<Entry>) {
    var i := FindEntry(tests, r.path);
    i < |tests| && r.classification == tests[i].expected && r.dependencies == tests[i].dependencies
  }

  predicate ByPath(a: Record, b: Record) {
    Less(a.path, b.path)
  }

  /** What the merge checks of paths and entries: selected paths are observed, the others keep one matching record. */
  ghost predicate Composes(existing: seq<Record>, observed: seq<Record>, selected: set<string>, tests: seq<Entry>) {
    && Distinct(PathsOf(observed)) && (forall p :: p in PathsOf(observed) <==> p in selected)
    && Distinct(PathsOf(KeptOf(existing, selected)))
    && (forall r | r in KeptOf(existing, selected) :: MatchesEntry(r, tests))
    && (forall p | p in EntryPaths(tests) && p !in selected :: p in PathsOf(KeptOf(existing, selected)))
  }

  ghost predicate NoFailures(records: seq<Record>) {
    forall r | r in records :: r.classification !in FAILURES
  }

  /** What the merge checks, in one statement. */
  ghost predicate Mergeable(existing: seq<Record>, observed: seq<Record>, selected: set<string>, tests: seq<Entry>) {
    Composes(existing, observed, selected, tests) && NoFailures(KeptOf(existing, selected) + observed)
  }

  function Union(existing: seq<Record>, observed: seq<Record>, selected: set<string>): seq<Record> {
    Sort(ByPath, KeptOf(existing, selected) + observed)
  }

  lemma PathsAppend(records: seq<Record>, r: Record)
    ensures PathsOf(records + [r]) == PathsOf(records) + [r.path]
  {}

  lemma DistinctAppend(paths: seq<string>, p: string)
    ensures Distinct(paths + [p]) <==> Distinct(paths) && p !in paths
  {
    var all := paths + [p];
    if Distinct(all) {
      forall i | 0 <= i < |paths| ensures paths[i] != p {
        assert all[i] != all[|paths|];
      }
      forall i, j | 0 <= i < j < |paths| ensures paths[i] != paths[j] {
        assert all[i] != all[j];
      }
    }
  }

  /** Two records of one path. */
  ghost predicate Repeated(records: seq<Record>, path: string) {
    exists i, j | 0 <= i < j < |records| :: records[i].path == path && records[j].path == path
  }

  /** A kept record of this path whose entry differs from it in the named respect. */
  ghost predicate KeptDiffers(kept: seq<Record>, tests: seq<Entry>, path: string, dependencies: bool) {
    exists q | q in kept && q.path == path && path in EntryPaths(tests) ::
      var e := tests[FindEntry(tests, path)];
      if dependencies then q.classification == e.expected && q.dependencies != e.dependencies
      else q.classification != e.expected
  }

  /** What each refusal of the merge says is the case. */
  ghost predicate RefusedFor(existing: seq<Record>, observed: seq<Record>, selected: set<string>, tests: seq<Entry>,
                             r: Merged)
  {
    var kept := KeptOf(existing, selected);
    match r
    case Merged(_) => true
    case NotSelected(path) => path in PathsOf(observed) && path !in selected
    case ObservedTwice(path) => path in selected && Repeated(observed, path)
    case NotObserved(path) => path in selected && path !in PathsOf(observed)
    case Outside(path) => path in PathsOf(kept) && path !in EntryPaths(tests)
    case KeptTwice(path) => path in EntryPaths(tests) && Repeated(kept, path)
    case Reclassified(path) => KeptDiffers(kept, tests, path, false)
    case OtherDependencies(path) => KeptDiffers(kept, tests, path, true)
    case NoRecord(path) => path in EntryPaths(tests) && path !in selected && path !in PathsOf(kept)
    case HasFailures => Composes(existing, observed, selected, tests) && !NoFailures(kept + observed)
  }

  lemma RepeatedIsNotDistinct(records: seq<Record>, path: string)
    requires Repeated(records, path)
    ensures !Distinct(PathsOf(records))
  {
    var i, j :| 0 <= i < j < |records| && records[i].path == path && records[j].path == path;
    assert PathsOf(records)[i] == PathsOf(records)[j];
  }

  /** Every refusal names a real reason. */
  lemma RefusedIsNotMergeable(existing: seq<Record>, observed: seq<Record>, selected: set<string>, tests: seq<Entry>,
                              r: Merged)
    requires !r.Merged? && RefusedFor(existing, observed, selected, tests, r)
    ensures !Mergeable(existing, observed, selected, tests)
  {
    var kept := KeptOf(existing, selected);
    match r
    case ObservedTwice(path) => RepeatedIsNotDistinct(observed, path);
    case KeptTwice(path) => RepeatedIsNotDistinct(kept, path);
    case Outside(path) =>
      var i :| 0 <= i < |kept| && PathsOf(kept)[i] == path;
      assert kept[i] in kept && !MatchesEntry(kept[i], tests);
    case Reclassified(path) => DifferingIsNoMatch(kept, tests, path, false);
    case OtherDependencies(path) => DifferingIsNoMatch(kept, tests, path, true);
    case _ =>
  }

  lemma DifferingIsNoMatch(kept: seq<Record>, tests: seq<Entry>, path: string, dependencies: bool)
    requires KeptDiffers(kept, tests, path, dependencies)
    ensures exists q | q in kept :: !MatchesEntry(q, tests)
  {
    var q :| q in kept && q.path == path && path in EntryPaths(tests) &&
      var e := tests[FindEntry(tests, path)];
      if dependencies then q.classification == e.expected && q.dependencies != e.dependencies
      else q.classification != e.expected;
    assert !MatchesEntry(q, tests);
  }

  lemma PathRepeats(records: seq<Record>, n: nat)
    requires n < |records| && records[n].path in PathsOf(records[..n])
    ensures Repeated(records, records[n].path)
  {
    var i :| 0 <= i < n && PathsOf(records[..n])[i] == records[n].path;
    assert records[i].path == records[n].path;
  }

  method CheckObserved(ghost existing: seq<Record>, observed: seq<Record>, selected: set<string>,
                       ghost tests: seq<Entry>)
    returns (r: Merged)
    ensures r.Merged? <==> Distinct(PathsOf(observed)) && forall p :: p in PathsOf(observed) <==> p in selected
    ensures RefusedFor(existing, observed, selected, tests, r)
  {
    var seen: set<string> := {};
    for i := 0 to |observed|
      invariant seen == (set p | p in PathsOf(observed[..i])) && seen <= selected
      invariant Distinct(PathsOf(observed[..i]))
    {
      var path := observed[i].path;
      assert observed[..i + 1] == observed[..i] + [observed[i]];
      PathsAppend(observed[..i], observed[i]);
      DistinctAppend(PathsOf(observed[..i]), path);
      if path !in selected {
        assert PathsOf(observed)[i] == path;
        return NotSelected(path);
      }
      if path in seen {
        PathRepeats(observed, i);
        RepeatedIsNotDistinct(observed, path);
        return ObservedTwice(path);
      }
      seen := seen + {path};
    }
    assert observed[..|observed|] == observed;
    if seen != selected {
      var path := Missing(selected, seen);
      return NotObserved(path);
    }
    r := Merged([]);
  }

  method Missing(all: set<string>, part: set<string>) returns (p: string)
    requires part <= all && part != all
    ensures p in all && p !in part
  {
    if forall x | x in all :: x in part {
      SameSets(all, part);
      assert false;
    }
    p :| p in all && p !in part;
  }

  lemma SameSets(a: set<string>, b: set<string>)
    requires b <= a && forall x | x in a :: x in b
    ensures a == b
  {}

  /** The records that stay, as far as they have been read. */
  ghost predicate Keeps(existing: seq<Record>, selected: set<string>, tests: seq<Entry>, kept: seq<Record>, n: nat)
    requires n <= |existing|
  {
    && kept == KeptOf(existing[..n], selected) && Distinct(PathsOf(kept))
    && forall r | r in kept :: MatchesEntry(r, tests)
  }

  lemma {:induction false} KeptPrefix(existing: seq<Record>, selected: set<string>, n: nat)
    requires n <= |existing|
    ensures KeptOf(existing[..n], selected) <= KeptOf(existing, selected)
    decreases |existing|
  {
    if n < |existing| {
      assert existing[..|existing| - 1][..n] == existing[..n];
      KeptPrefix(existing[..|existing| - 1], selected, n);
    } else {
      assert existing[..n] == existing;
    }
  }

  lemma KeptNext(existing: seq<Record>, selected: set<string>, n: nat)
    requires n < |existing|
    ensures KeptOf(existing[..n + 1], selected) ==
      KeptOf(existing[..n], selected) + if existing[n].path in selected then [] else [existing[n]]
  {
    assert existing[..n + 1][..n] == existing[..n];
  }

  /** The checks of one kept record, the `n`th. */
  method CheckKept(ghost existing: seq<Record>, ghost observed: seq<Record>, ghost selected: set<string>,
                   tests: seq<Entry>, ghost kept: seq<Record>, keptPaths: set<string>, q: Record)
    returns (r: Merged)
    requires kept + [q] <= KeptOf(existing, selected) && keptPaths == set p | p in PathsOf(kept)
    ensures RefusedFor(existing, observed, selected, tests, r)
    ensures r.Merged? <==> MatchesEntry(q, tests) && q.path !in PathsOf(kept)
  {
    ghost var all := KeptOf(existing, selected);
    assert (kept + [q])[|kept|] == q && all[|kept|] == q && all[..|kept|] == kept;
    var at := FindEntry(tests, q.path);
    if at == |tests| {
      PathIn(all, q);
      return Outside(q.path);
    }
    if q.path in keptPaths {
      PathRepeats(all, |kept|);
      return KeptTwice(q.path);
    }
    if q.classification != tests[at].expected {
      return Reclassified(q.path);
    }
    if q.dependencies != tests[at].dependencies {
      return OtherDependencies(q.path);
    }
    r := Merged([]);
  }

  lemma RefusedKept(kept: seq<Record>, tests: seq<Entry>, n: nat)
    requires n < |kept| && (!MatchesEntry(kept[n], tests) || kept[n].path in PathsOf(kept[..n]))
    ensures !(Distinct(PathsOf(kept)) && forall q | q in kept :: MatchesEntry(q, tests))
  {
    if kept[n].path in PathsOf(kept[..n]) {
      PathRepeats(kept, n);
      RepeatedIsNotDistinct(kept, kept[n].path);
    } else {
      assert kept[n] in kept;
    }
  }

  lemma NextKept(existing: seq<Record>, selected: set<string>, n: nat)
    requires n < |existing| && existing[n].path !in selected
    ensures var kept, all := KeptOf(existing[..n], selected), KeptOf(existing, selected);
      && kept + [existing[n]] <= all && KeptOf(existing[..n + 1], selected) == kept + [existing[n]]
      && |kept| < |all| && all[|kept|] == existing[n] && all[..|kept|] == kept
  {
    KeptNext(existing, selected, n);
    KeptPrefix(existing, selected, n + 1);
    var kept, all := KeptOf(existing[..n], selected), KeptOf(existing, selected);
    assert (kept + [existing[n]])[|kept|] == all[|kept|];
  }

  lemma KeepsMore(existing: seq<Record>, selected: set<string>, tests: seq<Entry>, kept: seq<Record>, n: nat)
    requires n < |existing| && existing[n].path !in selected && Keeps(existing, selected, tests, kept, n)
    requires MatchesEntry(existing[n], tests) && existing[n].path !in PathsOf(kept)
    ensures Keeps(existing, selected, tests, kept + [existing[n]], n + 1)
  {
    NextKept(existing, selected, n);
    PathsAppend(kept, existing[n]);
    DistinctAppend(PathsOf(kept), existing[n].path);
  }

  method KeepRecords(existing: seq<Record>, ghost observed: seq<Record>, selected: set<string>, tests: seq<Entry>)
    returns (r: Merged)
    ensures RefusedFor(existing, observed, selected, tests, r)
    ensures r.Merged? <==>
      && Distinct(PathsOf(KeptOf(existing, selected)))
      && forall q | q in KeptOf(existing, selected) :: MatchesEntry(q, tests)
    ensures r.Merged? ==> r.records == KeptOf(existing, selected)
  {
    var kept: seq<Record> := [];
    var keptPaths: set<string> := {};
    for i := 0 to |existing|
      invariant Keeps(existing, selected, tests, kept, i) && keptPaths == set p | p in PathsOf(kept)
    {
      var q := existing[i];
      KeptNext(existing, selected, i);
      if q.path !in selected {
        NextKept(existing, selected, i);
        r := CheckKept(existing, observed, selected, tests, kept, keptPaths, q);
        if !r.Merged? {
          RefusedKept(KeptOf(existing, selected), tests, |kept|);
          return;
        }
        KeepsMore(existing, selected, tests, kept, i);
        PathsAppend(kept, q);
        kept, keptPaths := kept + [q], keptPaths + {q.path};
      }
    }
    assert existing[..|existing|] == existing;
    r := Merged(kept);
  }

  method CheckCoverage(tests: seq<Entry>, selected: set<string>, kept: seq<Record>) returns (r: Merged)
    ensures r.Merged? || r.NoRecord?
    ensures r.NoRecord? ==> r.path in EntryPaths(tests) && r.path !in selected && r.path !in PathsOf(kept)
    ensures r.Merged? <==> forall p | p in EntryPaths(tests) && p !in selected :: p in PathsOf(kept)
  {
    var keptPaths := set p | p in PathsOf(kept);
    for i := 0 to |tests|
      invariant forall k | 0 <= k < i :: tests[k].path in selected || tests[k].path in PathsOf(kept)
    {
      var path := tests[i].path;
      if path !in selected && path !in keptPaths {
        assert EntryPaths(tests)[i] == path;
        return NoRecord(path);
      }
    }
    r := Merged([]);
  }

  lemma SortingKeepsFailures(records: seq<Record>)
    ensures NoFailures(Sort(ByPath, records)) <==> NoFailures(records)
  {
    SameMembers(Sort(ByPath, records), records);
  }

  /** Merge kept and observed records; the merge succeeds exactly when its checks hold. */
  method MergeReviewedResults(existing: seq<Record>, observed: seq<Record>, selected: set<string>, tests: seq<Entry>)
    returns (r: Merged)
    ensures r.Merged? <==> Mergeable(existing, observed, selected, tests)
    ensures r.Merged? ==> r.records == Union(existing, observed, selected)
    ensures RefusedFor(existing, observed, selected, tests, r)
  {
    r := CheckObserved(existing, observed, selected, tests);
    if !r.Merged? {
      return;
    }
    r := KeepRecords(existing, observed, selected, tests);
    if !r.Merged? {
      return;
    }
    var kept := r.records;
    r := CheckCoverage(tests, selected, kept);
    if !r.Merged? {
      return;
    }
    var merged := Sort(ByPath, kept + observed);
    SortingKeepsFailures(kept + observed);
    if exists q | q in merged :: q.classification in FAILURES {
      return HasFailures;
    }
    r := Merged(merged);
  }

  // ----- A scoped update equals a full regeneration -----

  /** What observing a list of paths gives. */
  function ObserveAll(observe: string -> Record, paths: seq<string>): (r: seq<Record>)
    ensures |r| == |paths|
  {
    seq(|paths|, i requires 0 <= i < |paths| => observe(paths[i]))
  }

  /** Each record is the current observation of its path. */
  ghost predicate Current(observe: string -> Record, records: seq<Record>) {
    forall i | 0 <= i < |records| :: records[i] == observe(records[i].path)
  }

  /** A complete regeneration: one current observation of every reviewed path, in path order. */
  function Regenerated(observe: string -> Record, tests: seq<Entry>): seq<Record> {
    ObserveAll(observe, Sort(Less, EntryPaths(tests)))
  }

  lemma PathsCons(r: Record, records: seq<Record>)
    ensures PathsOf([r] + records) == [r.path] + PathsOf(records)
  {}

  lemma {:induction false} InsertPaths(r: Record, records: seq<Record>)
    ensures PathsOf(Insert(ByPath, r, records)) == Insert(Less, r.path, PathsOf(records))
  {
    if records != [] {
      var first, rest := records[0], records[1..];
      assert records == [first] + rest;
      PathsCons(first, rest);
      assert PathsOf(records)[1..] == PathsOf(rest);
      if Less(r.path, first.path) {
        PathsCons(r, records);
      } else {
        InsertPaths(r, rest);
        PathsCons(first, Insert(ByPath, r, rest));
      }
    }
  }

  /** Sorting records by path sorts their paths. */
  lemma {:induction false} SortedPaths(records: seq<Record>)
    ensures PathsOf(Sort(ByPath, records)) == Sort(Less, PathsOf(records))
  {
    if records != [] {
      var init, last := records[..|records| - 1], records[|records| - 1];
      SortedPaths(init);
      InsertPaths(last, Sort(ByPath, init));
      assert PathsOf(records)[..|records| - 1] == PathsOf(init);
    }
  }

  lemma CurrentIsObserved(observe: string -> Record, records: seq<Record>)
    requires Current(observe, records)
    ensures records == ObserveAll(observe, PathsOf(records))
  {}

  lemma UnionIsCurrent(observe: string -> Record, existing: seq<Record>, observed: seq<Record>, selected: set<string>)
    requires Current(observe, KeptOf(existing, selected)) && Current(observe, observed)
    ensures Current(observe, Union(existing, observed, selected))
  {
    var all := KeptOf(existing, selected) + observed;
    var sorted := Union(existing, observed, selected);
    SameMembers(sorted, all);
    forall i | 0 <= i < |sorted| ensures sorted[i] == observe(sorted[i].path) {
      assert sorted[i] in all;
    }
  }

  lemma MergedPaths(existing: seq<Record>, observed: seq<Record>, selected: set<string>, tests: seq<Entry>)
    requires Composes(existing, observed, selected, tests) && Distinct(EntryPaths(tests))
    requires forall p | p in selected :: p in EntryPaths(tests)
    ensures multiset(PathsOf(KeptOf(existing, selected) + observed)) == multiset(EntryPaths(tests))
  {
    var kept := KeptOf(existing, selected);
    var paths := PathsOf(kept + observed);
    assert paths == PathsOf(kept) + PathsOf(observed);
    KeptUnselected(existing, selected);
    forall i, j | 0 <= i < j < |paths| ensures paths[i] != paths[j] {
      if i < |kept| <= j {
        assert PathsOf(observed)[j - |kept|] in PathsOf(observed);
        assert kept[i] in kept;
      } else if j < |kept| {
        assert PathsOf(kept)[i] != PathsOf(kept)[j];
      } else {
        assert PathsOf(observed)[i - |kept|] != PathsOf(observed)[j - |kept|];
      }
    }
    forall p ensures p in paths <==> p in EntryPaths(tests) {
      if p in PathsOf(kept) {
        var i :| 0 <= i < |kept| && kept[i].path == p;
        assert MatchesEntry(kept[i], tests);
      }
    }
    SameMembersSameCounts(paths, EntryPaths(tests));
  }

  lemma {:induction false} KeptUnselected(existing: seq<Record>, selected: set<string>)
    ensures forall r | r in KeptOf(existing, selected) :: r.path !in selected && r in existing
  {
    if existing != [] {
      KeptUnselected(existing[..|existing| - 1], selected);
    }
  }

  /** If every kept record equals what observing its path gives now, the union observes every reviewed path. */
  lemma UnionIsRegeneration(observe: string -> Record, existing: seq<Record>, observed: seq<Record>,
                            selected: set<string>, tests: seq<Entry>)
    requires Composes(existing, observed, selected, tests) && Distinct(EntryPaths(tests))
    requires forall p | p in selected :: p in EntryPaths(tests)
    requires Current(observe, KeptOf(existing, selected)) && Current(observe, observed)
    ensures Union(existing, observed, selected) == Regenerated(observe, tests)
  {
    var all := KeptOf(existing, selected) + observed;
    var merged := Union(existing, observed, selected);
    UnionIsCurrent(observe, existing, observed, selected);
    CurrentIsObserved(observe, merged);
    SortedPaths(all);
    MergedPaths(existing, observed, selected, tests);
    LessIsTotal();
    SortIgnoresOrder(Less, PathsOf(all), EntryPaths(tests));
  }

  // ----- What selecting guarantees the merge -----

  /** One record for each entry, and each matches it. */
  ghost predicate Published(records: seq<Record>, tests: seq<Entry>) {
    && Distinct(PathsOf(records)) && (forall r | r in records :: MatchesEntry(r, tests))
    && forall p | p in EntryPaths(tests) :: p in PathsOf(records)
  }

  function AsSet(paths: seq<string>): set<string> {
    set p | p in paths
  }

  lemma {:induction false} UnselectedIsUnchanged(baseline: Subset, tests: seq<Entry>, k: nat)
    requires k < |tests| && tests[k].path !in ChangedPaths(baseline, tests)
    ensures SameAsBefore(baseline, tests[k])
  {
    if k < |tests| - 1 {
      UnselectedIsUnchanged(baseline, tests[..|tests| - 1], k);
    }
  }

  lemma {:induction false} ChangedAreDistinct(baseline: Subset, tests: seq<Entry>)
    requires Distinct(EntryPaths(tests))
    ensures Distinct(ChangedPaths(baseline, tests))
  {
    if tests != [] {
      var init, last := tests[..|tests| - 1], tests[|tests| - 1];
      assert EntryPaths(tests) == EntryPaths(init) + [last.path];
      DistinctAppend(EntryPaths(init), last.path);
      ChangedAreDistinct(baseline, init);
      DistinctAppend(ChangedPaths(baseline, init), last.path);
    }
  }

  lemma {:induction false} KeptStayDistinct(records: seq<Record>, selected: set<string>)
    requires Distinct(PathsOf(records))
    ensures Distinct(PathsOf(KeptOf(records, selected)))
  {
    if records != [] {
      var init, last := records[..|records| - 1], records[|records| - 1];
      assert records == init + [last];
      PathsAppend(init, last);
      DistinctAppend(PathsOf(init), last.path);
      KeptStayDistinct(init, selected);
      KeptUnselected(init, selected);
      var kept := KeptOf(init, selected);
      PathsAppend(kept, last);
      DistinctAppend(PathsOf(kept), last.path);
      forall p | p in PathsOf(kept) ensures p in PathsOf(init) {
        var i :| 0 <= i < |kept| && PathsOf(kept)[i] == p;
        PathIn(init, kept[i]);
      }
      assert KeptOf(records, selected) == if last.path in selected then kept else kept + [last];
    }
  }

  lemma PathIn(records: seq<Record>, r: Record)
    requires r in records
    ensures r.path in PathsOf(records)
  {
    var i :| 0 <= i < |records| && records[i] == r;
    assert PathsOf(records)[i] == r.path;
  }

  lemma {:induction false} KeptHolds(records: seq<Record>, selected: set<string>, r: Record)
    requires r in records && r.path !in selected
    ensures r in KeptOf(records, selected)
  {
    var init := records[..|records| - 1];
    if r != records[|records| - 1] {
      KeptHolds(init, selected, r);
    }
  }

  /** The entry of an unselected path is the baseline's. */
  lemma UnselectedEntry(baseline: Subset, tests: seq<Entry>, path: string)
    requires path in EntryPaths(tests) && path !in ChangedPaths(baseline, tests)
    ensures path in EntryPaths(baseline.tests)
    ensures FindEntry(tests, path) < |tests| && FindEntry(baseline.tests, path) < |baseline.tests|
    ensures tests[FindEntry(tests, path)] == baseline.tests[FindEntry(baseline.tests, path)]
  {
    UnselectedIsUnchanged(baseline, tests, FindEntry(tests, path));
  }

  lemma KeptMatch(baseline: Subset, existing: seq<Record>, tests: seq<Entry>)
    requires Published(existing, baseline.tests)
    requires forall e | e in baseline.tests :: e.path in EntryPaths(tests)
    ensures forall r | r in KeptOf(existing, AsSet(ChangedPaths(baseline, tests))) :: MatchesEntry(r, tests)
  {
    var selected := AsSet(ChangedPaths(baseline, tests));
    KeptUnselected(existing, selected);
    forall r | r in KeptOf(existing, selected) ensures MatchesEntry(r, tests) {
      assert MatchesEntry(r, baseline.tests);
      assert baseline.tests[FindEntry(baseline.tests, r.path)] in baseline.tests;
      UnselectedEntry(baseline, tests, r.path);
    }
  }

  lemma KeptCover(baseline: Subset, existing: seq<Record>, tests: seq<Entry>, path: string)
    requires Published(existing, baseline.tests) && path in EntryPaths(tests) && path !in ChangedPaths(baseline, tests)
    ensures path in PathsOf(KeptOf(existing, AsSet(ChangedPaths(baseline, tests))))
  {
    var selected := AsSet(ChangedPaths(baseline, tests));
    UnselectedEntry(baseline, tests, path);
    var i :| 0 <= i < |existing| && PathsOf(existing)[i] == path;
    KeptHolds(existing, selected, existing[i]);
    PathIn(KeptOf(existing, selected), existing[i]);
  }

  lemma ObservedPaths(observe: string -> Record, paths: seq<string>)
    requires forall p | p in paths :: observe(p).path == p
    ensures PathsOf(ObserveAll(observe, paths)) == paths && Current(observe, ObserveAll(observe, paths))
  {}

  /** What selection guarantees: all the checks of the merge on paths and entries. */
  lemma SelectionComposes(observe: string -> Record, baseline: Subset, tests: seq<Entry>, existing: seq<Record>)
    requires Distinct(EntryPaths(tests)) && Published(existing, baseline.tests)
    requires forall e | e in baseline.tests :: e.path in EntryPaths(tests)
    requires forall p | p in EntryPaths(tests) :: observe(p).path == p
    ensures var paths := ChangedPaths(baseline, tests);
      Composes(existing, ObserveAll(observe, paths), AsSet(paths), tests)
  {
    var paths := ChangedPaths(baseline, tests);
    ChangedAreDistinct(baseline, tests);
    ObservedPaths(observe, paths);
    KeptStayDistinct(existing, AsSet(paths));
    KeptMatch(baseline, existing, tests);
    forall p | p in EntryPaths(tests) && p !in AsSet(paths) ensures p in PathsOf(KeptOf(existing, AsSet(paths))) {
      KeptCover(baseline, existing, tests, p);
    }
  }

  /**
   Select, observe what was selected, merge: if every kept record equals what observing its path
   gives now, the merge succeeds exactly when a full regeneration holds no failing record, and
   it then publishes exactly that regeneration.
   */
  lemma ScopedUpdateIsRegeneration(observe: string -> Record, baseline: Subset, current: Subset,
                                   existing: seq<Record>)
    requires WellFormed(current) && Published(existing, baseline.tests)
    requires forall e | e in baseline.tests :: e.path in EntryPaths(current.tests)
    requires forall p | p in EntryPaths(current.tests) :: observe(p).path == p
    requires Current(observe, KeptOf(existing, AsSet(ChangedPaths(baseline, current.tests))))
    ensures var paths := ChangedPaths(baseline, current.tests);
      && (Mergeable(existing, ObserveAll(observe, paths), AsSet(paths), current.tests)
          <==> NoFailures(Regenerated(observe, current.tests)))
      && Union(existing, ObserveAll(observe, paths), AsSet(paths)) == Regenerated(observe, current.tests)
  {
    var paths := ChangedPaths(baseline, current.tests);
    var observed, selected := ObserveAll(observe, paths), AsSet(paths);
    SelectionComposes(observe, baseline, current.tests, existing);
    ObservedPaths(observe, paths);
    UnionIsRegeneration(observe, existing, observed, selected, current.tests);
    SameMembers(Union(existing, observed, selected), KeptOf(existing, selected) + observed);
  }

  // ----- What has changed -----

  function NotIn(entries: seq<Entry>): Entry -> bool {
    (e: Entry) => e !in entries
  }

  lemma SameAsBeforeIff(baseline: Subset, e: Entry)
    requires WellFormed(baseline)
    ensures SameAsBefore(baseline, e) <==> e in baseline.tests
  {
    if e in baseline.tests {
      var k :| 0 <= k < |baseline.tests| && baseline.tests[k] == e;
      assert EntryPaths(baseline.tests)[k] == e.path;
      var i := FindEntry(baseline.tests, e.path);
      assert EntryPaths(baseline.tests)[i] == e.path;
    }
  }

  /** The changed paths are, in order, those of the entries that the baseline does not hold. */
  lemma {:induction false} ChangedAreNew(baseline: Subset, tests: seq<Entry>)
    requires WellFormed(baseline)
    ensures ChangedPaths(baseline, tests) == EntryPaths(Chosen(NotIn(baseline.tests), tests))
  {
    if tests != [] {
      ChangedAreNew(baseline, tests[..|tests| - 1]);
      SameAsBeforeIff(baseline, tests[|tests| - 1]);
    }
  }
}
