/**
 The compatibility ratchet (tools/compatibility-ratchet.ts): what a newer snapshot lost against a
 baseline, matched one to one with newly added overrides. Reports list violations in no
 particular order here; the source sorts them for display.
 */
module Ratchet {
  import opened Basics

  datatype Domain = Domain(seeds: set<string>, caseBudget: int)

  datatype Snapshot = Snapshot(
    admittedFamilies: set<string>,
    inventoryPaths: set<string>,
    classifications: map<string, string>,
    subsetPaths: set<string>,
    resultPaths: set<string>,
    domains: map<string, Domain>)

  datatype Value = Text(text: string) | Number(number: int)

  datatype Invariant = PassCount | AdmittedFamily | InventoryPath | PassClassification | SubsetPath | ManifestPathSet
                     | PropertySeed | PropertyCaseBudget

  datatype Violation = Violation(invariant': Invariant, scope: string, from: Value, to: Value)

  datatype Override = Override(transition: Violation, reason: string)

  const PRESENT := Text("present")
  const ABSENT := Text("absent")
  const PASS := "pass"
  const RESULTS_PATH := "tests/conformance/test262/results.yaml"

  function Passing(s: Snapshot): set<string> {
    set p | p in s.classifications && s.classifications[p] == PASS
  }

  // ----- Violations, by what they say -----

  function PassCountViolations(a: Snapshot, b: Snapshot): set<Violation> {
    if |Passing(b)| < |Passing(a)| then
      {Violation(PassCount, RESULTS_PATH, Number(|Passing(a)|), Number(|Passing(b)|))}
    else {}
  }

  function Lost(invariant': Invariant, from: Value, to: Value, before: set<string>, now: set<string>): set<Violation> {
    set x | x in before && x !in now :: Violation(invariant', x, from, to)
  }

  function Reclassified(a: Snapshot, b: Snapshot): set<Violation> {
    set p | p in Passing(a) && p !in Passing(b) :: Reclassification(p, b)
  }

  function Reclassification(path: string, b: Snapshot): Violation {
    Violation(PassClassification, path, Text(PASS),
              if path in b.classifications then Text(b.classifications[path]) else ABSENT)
  }

  function ManifestViolations(b: Snapshot): set<Violation> {
    Lost(ManifestPathSet, PRESENT, Text("missing-from-results"), b.subsetPaths, b.resultPaths)
    + Lost(ManifestPathSet, PRESENT, Text("missing-from-subset"), b.resultPaths, b.subsetPaths)
  }

  /** What one property domain lost. */
  function DomainLosses(name: string, before: Domain, b: Snapshot): set<Violation> {
    LostSeeds(name, before.seeds, b) + LoweredBudget(name, before, b)
  }

  function LostSeeds(name: string, seeds: set<string>, b: Snapshot): set<Violation> {
    set s | s in seeds && !(name in b.domains && s in b.domains[name].seeds) ::
      Violation(PropertySeed, name, Text(s), ABSENT)
  }

  predicate BudgetKept(name: string, before: Domain, b: Snapshot) {
    name in b.domains && b.domains[name].caseBudget >= before.caseBudget
  }

  function LoweredBudget(name: string, before: Domain, b: Snapshot): set<Violation> {
    if BudgetKept(name, before, b) then {}
    else {Violation(PropertyCaseBudget, name, Number(before.caseBudget),
                    if name in b.domains then Number(b.domains[name].caseBudget) else ABSENT)}
  }

  function DomainViolations(domains: map<string, Domain>, names: set<string>, b: Snapshot): set<Violation> {
    set n, v | n in names && n in domains && v in DomainLosses(n, domains[n], b) :: v
  }

  function ResultViolations(a: Snapshot, b: Snapshot, found: set<Violation>): set<Violation> {
    found
    + Lost(AdmittedFamily, PRESENT, ABSENT, a.admittedFamilies, b.admittedFamilies)
    + Lost(InventoryPath, Text("included"), ABSENT, a.inventoryPaths, b.inventoryPaths)
    + Reclassified(a, b)
  }

  function Violations(a: Snapshot, b: Snapshot): set<Violation> {
    ResultViolations(a, b, PassCountViolations(a, b))
    + Lost(SubsetPath, PRESENT, ABSENT, a.subsetPaths, b.subsetPaths)
    + ManifestViolations(b)
    + DomainViolations(a.domains, a.domains.Keys, b)
  }

  // ----- No violations -----

  /** What a newer snapshot without violations preserves. */
  ghost predicate Keeps(a: Snapshot, b: Snapshot) {
    && a.admittedFamilies <= b.admittedFamilies
    && a.inventoryPaths <= b.inventoryPaths
    && a.subsetPaths <= b.subsetPaths
    && Passing(a) <= Passing(b)
    && (forall n | n in a.domains :: DomainKept(n, a.domains[n], b))
  }

  lemma LostIsEmpty(invariant': Invariant, from: Value, to: Value, before: set<string>, now: set<string>)
    ensures Lost(invariant', from, to, before, now) == {} <==> before <= now
  {
    if before <= now {
    } else {
      var x :| x in before && x !in now;
      assert Violation(invariant', x, from, to) in Lost(invariant', from, to, before, now);
    }
  }

  lemma ReclassifiedIsEmpty(a: Snapshot, b: Snapshot)
    ensures Reclassified(a, b) == {} <==> Passing(a) <= Passing(b)
  {
    if !(Passing(a) <= Passing(b)) {
      var p :| p in Passing(a) && p !in Passing(b);
      assert Reclassification(p, b) in Reclassified(a, b);
    }
  }

  ghost predicate DomainKept(name: string, before: Domain, b: Snapshot) {
    name in b.domains && before.seeds <= b.domains[name].seeds && before.caseBudget <= b.domains[name].caseBudget
  }

  lemma DomainIsKept(name: string, before: Domain, b: Snapshot)
    ensures DomainLosses(name, before, b) == {} <==> DomainKept(name, before, b)
  {
    if DomainLosses(name, before, b) == {} {
      assert LoweredBudget(name, before, b) == {};
      forall s | s in before.seeds ensures s in b.domains[name].seeds {
        assert Violation(PropertySeed, name, Text(s), ABSENT) !in LostSeeds(name, before.seeds, b);
      }
    }
  }

  lemma DomainsAreKept(a: Snapshot, b: Snapshot)
    ensures DomainViolations(a.domains, a.domains.Keys, b) == {} <==>
      forall n | n in a.domains :: DomainKept(n, a.domains[n], b)
  {
    forall n | n in a.domains ensures DomainLosses(n, a.domains[n], b) == {} <==> DomainKept(n, a.domains[n], b) {
      DomainIsKept(n, a.domains[n], b);
    }
    if DomainViolations(a.domains, a.domains.Keys, b) == {} {
      forall n | n in a.domains ensures DomainLosses(n, a.domains[n], b) == {} {
        forall v ensures v !in DomainLosses(n, a.domains[n], b) {
          assert v !in DomainViolations(a.domains, a.domains.Keys, b);
        }
      }
    }
  }

  // ----- What each violation says -----

  /** The paths that pass. */
  ghost predicate Passes(s: Snapshot, path: string) {
    path in s.classifications && s.classifications[path] == "pass"
  }

  /** A path, family, or seed that the older snapshot has and the newer one has not. */
  ghost predicate Gone(v: Violation, from: Value, to: Value, before: set<string>, now: set<string>) {
    v.from == from && v.to == to && v.scope in before && v.scope !in now
  }

  ghost predicate SeedGone(a: Snapshot, b: Snapshot, v: Violation) {
    && v.scope in a.domains && v.from.Text? && v.to == Text("absent")
    && v.from.text in a.domains[v.scope].seeds
    && (v.scope in b.domains ==> v.from.text !in b.domains[v.scope].seeds)
  }

  ghost predicate BudgetFell(a: Snapshot, b: Snapshot, v: Violation) {
    && v.scope in a.domains && v.from == Number(a.domains[v.scope].caseBudget)
    && (if v.scope in b.domains then
          v.to == Number(b.domains[v.scope].caseBudget) && v.to.number < a.domains[v.scope].caseBudget
        else v.to == Text("absent"))
  }

  /** What it means that a violation is reported, kind by kind. */
  ghost predicate Says(a: Snapshot, b: Snapshot, v: Violation) {
    match v.invariant'
    case PassCount =>
      && v.scope == RESULTS_PATH && v.from == Number(|Passing(a)|) && v.to == Number(|Passing(b)|)
      && |Passing(b)| < |Passing(a)|
    case AdmittedFamily => Gone(v, Text("present"), Text("absent"), a.admittedFamilies, b.admittedFamilies)
    case InventoryPath => Gone(v, Text("included"), Text("absent"), a.inventoryPaths, b.inventoryPaths)
    case PassClassification =>
      && Passes(a, v.scope) && !Passes(b, v.scope) && v.from == Text("pass")
      && v.to == (if v.scope in b.classifications then Text(b.classifications[v.scope]) else Text("absent"))
    case SubsetPath => Gone(v, Text("present"), Text("absent"), a.subsetPaths, b.subsetPaths)
    case ManifestPathSet =>
      || Gone(v, Text("present"), Text("missing-from-results"), b.subsetPaths, b.resultPaths)
      || Gone(v, Text("present"), Text("missing-from-subset"), b.resultPaths, b.subsetPaths)
    case PropertySeed => SeedGone(a, b, v)
    case PropertyCaseBudget => BudgetFell(a, b, v)
  }

  lemma LostSays(invariant': Invariant, from: Value, to: Value, before: set<string>, now: set<string>, v: Violation)
    ensures v in Lost(invariant', from, to, before, now) <==>
      v.invariant' == invariant' && Gone(v, from, to, before, now)
  {}

  lemma ReclassifiedSays(a: Snapshot, b: Snapshot, v: Violation)
    ensures v in Reclassified(a, b) <==> v.invariant' == PassClassification && Says(a, b, v)
  {
    assert forall p :: p in Passing(a) <==> Passes(a, p);
    assert forall p :: p in Passing(b) <==> Passes(b, p);
    if v.invariant' == PassClassification && Says(a, b, v) {
      assert v == Reclassification(v.scope, b);
    }
  }

  lemma ManifestSays(a: Snapshot, b: Snapshot, v: Violation)
    ensures v in ManifestViolations(b) <==> v.invariant' == ManifestPathSet && Says(a, b, v)
  {
    LostSays(ManifestPathSet, PRESENT, Text("missing-from-results"), b.subsetPaths, b.resultPaths, v);
    LostSays(ManifestPathSet, PRESENT, Text("missing-from-subset"), b.resultPaths, b.subsetPaths, v);
  }

  lemma DomainSays(a: Snapshot, b: Snapshot, v: Violation)
    ensures v in DomainViolations(a.domains, a.domains.Keys, b) <==>
      (v.invariant' == PropertySeed && SeedGone(a, b, v)) || (v.invariant' == PropertyCaseBudget && BudgetFell(a, b, v))
  {
    if v.scope in a.domains {
      assert v in DomainViolations(a.domains, a.domains.Keys, b) <==> v in DomainLosses(v.scope, a.domains[v.scope], b);
    }
  }

  lemma ResultSays(a: Snapshot, b: Snapshot, v: Violation)
    ensures v in ResultViolations(a, b, PassCountViolations(a, b)) <==>
      v.invariant' in {PassCount, AdmittedFamily, InventoryPath, PassClassification} && Says(a, b, v)
  {
    LostSays(AdmittedFamily, PRESENT, ABSENT, a.admittedFamilies, b.admittedFamilies, v);
    LostSays(InventoryPath, Text("included"), ABSENT, a.inventoryPaths, b.inventoryPaths, v);
    ReclassifiedSays(a, b, v);
  }

  /** A violation is reported if and only if what it says is the case. */
  lemma ViolationIff(a: Snapshot, b: Snapshot, v: Violation)
    ensures v in Violations(a, b) <==> Says(a, b, v)
  {
    ResultSays(a, b, v);
    LostSays(SubsetPath, PRESENT, ABSENT, a.subsetPaths, b.subsetPaths, v);
    ManifestSays(a, b, v);
    DomainSays(a, b, v);
  }

  /** A pass count can only fall with some path's classification. */
  lemma PassCountFollowsClassification(a: Snapshot, b: Snapshot)
    requires Reclassified(a, b) == {}
    ensures PassCountViolations(a, b) == {}
  {
    ReclassifiedIsEmpty(a, b);
    SubsetCardinality(Passing(a), Passing(b));
  }

  /** There are no violations exactly when nothing is lost and the manifest covers the subset. */
  lemma CleanIff(a: Snapshot, b: Snapshot)
    ensures Violations(a, b) == {} <==> Keeps(a, b) && b.subsetPaths == b.resultPaths
  {
    LostIsEmpty(AdmittedFamily, PRESENT, ABSENT, a.admittedFamilies, b.admittedFamilies);
    LostIsEmpty(InventoryPath, Text("included"), ABSENT, a.inventoryPaths, b.inventoryPaths);
    LostIsEmpty(SubsetPath, PRESENT, ABSENT, a.subsetPaths, b.subsetPaths);
    LostIsEmpty(ManifestPathSet, PRESENT, Text("missing-from-results"), b.subsetPaths, b.resultPaths);
    LostIsEmpty(ManifestPathSet, PRESENT, Text("missing-from-subset"), b.resultPaths, b.subsetPaths);
    ReclassifiedIsEmpty(a, b);
    DomainsAreKept(a, b);
    if Passing(a) <= Passing(b) {
      PassCountFollowsClassification(a, b);
    }
  }

  /** Every comparison of neighbours is clean. */
  ghost predicate CleanChain(chain: seq<Snapshot>) {
    forall i | 0 < i < |chain| :: Violations(chain[i - 1], chain[i]) == {}
  }

  ghost predicate NeighboursKept(chain: seq<Snapshot>) {
    forall i | 0 < i < |chain| :: Keeps(chain[i - 1], chain[i])
  }

  lemma {:induction false} KeptAlong(chain: seq<Snapshot>, i: nat, j: nat)
    requires NeighboursKept(chain) && i <= j < |chain|
    ensures Keeps(chain[i], chain[j])
    decreases j
  {
    if i < j {
      KeptAlong(chain, i, j - 1);
      KeepsTransitive(chain[i], chain[j - 1], chain[j]);
    } else {
      KeepsReflexive(chain[i]);
    }
  }

  /** Along any chain of clean comparisons nothing ever shrinks. */
  lemma ChainNeverShrinks(chain: seq<Snapshot>, i: nat, j: nat)
    requires CleanChain(chain) && i <= j < |chain|
    ensures Keeps(chain[i], chain[j])
  {
    forall k | 0 < k < |chain| ensures Keeps(chain[k - 1], chain[k]) {
      NeighboursKeep(chain, k);
    }
    KeptAlong(chain, i, j);
  }

  lemma NeighboursKeep(chain: seq<Snapshot>, j: nat)
    requires CleanChain(chain) && 0 < j < |chain|
    ensures Keeps(chain[j - 1], chain[j])
  {
    CleanIff(chain[j - 1], chain[j]);
  }

  lemma KeepsReflexive(a: Snapshot)
    ensures Keeps(a, a)
  {}

  lemma KeepsTransitive(a: Snapshot, b: Snapshot, c: Snapshot)
    requires Keeps(a, b) && Keeps(b, c)
    ensures Keeps(a, c)
  {}

  // ----- Collecting violations -----

  lemma DisjointUnion<T>(s: set<T>, t: set<T>)
    requires s !! t
    ensures multiset(s + t) == multiset(s) + multiset(t)
  {}

  lemma OneMore<T>(s: set<T>, x: T)
    requires x !in s
    ensures multiset(s + {x}) == multiset(s) + multiset{x}
  {}

  lemma LostNext(invariant': Invariant, from: Value, to: Value, done: set<string>, x: string, now: set<string>)
    requires x !in done
    ensures multiset(Lost(invariant', from, to, done + {x}, now)) ==
      multiset(Lost(invariant', from, to, done, now)) +
      if x in now then multiset{} else multiset{Violation(invariant', x, from, to)}
  {
    var found, v := Lost(invariant', from, to, done, now), Violation(invariant', x, from, to);
    if x in now {
      assert Lost(invariant', from, to, done + {x}, now) == found;
    } else {
      assert Lost(invariant', from, to, done + {x}, now) == found + {v};
      OneMore(found, v);
    }
  }

  /** One loop of the source: report what `before` holds and `now` does not. */
  method ListLost(invariant': Invariant, from: Value, to: Value, before: set<string>, now: set<string>,
                  violations: seq<Violation>)
    returns (r: seq<Violation>)
    ensures multiset(r) == multiset(violations) + multiset(Lost(invariant', from, to, before, now))
  {
    r := violations;
    var left := before;
    while left != {}
      invariant left <= before
      invariant multiset(r) == multiset(violations) + multiset(Lost(invariant', from, to, before - left, now))
      decreases |left|
    {
      ghost var some := HasMember(left);
      var x :| x in left;
      assert before - (left - {x}) == (before - left) + {x};
      LostNext(invariant', from, to, before - left, x, now);
      left := left - {x};
      if x !in now {
        r := r + [Violation(invariant', x, from, to)];
      }
    }
    assert before - {} == before;
  }

  function ReclassifiedAmong(paths: set<string>, a: Snapshot, b: Snapshot): set<Violation> {
    set p | p in paths && p in Passing(a) && p !in Passing(b) :: Reclassification(p, b)
  }

  lemma ReclassifiedNext(done: set<string>, p: string, a: Snapshot, b: Snapshot)
    requires p !in done
    ensures multiset(ReclassifiedAmong(done + {p}, a, b)) ==
      multiset(ReclassifiedAmong(done, a, b)) +
      if p in Passing(a) && p !in Passing(b) then multiset{Reclassification(p, b)} else multiset{}
  {
    var found := ReclassifiedAmong(done, a, b);
    if p in Passing(a) && p !in Passing(b) {
      assert ReclassifiedAmong(done + {p}, a, b) == found + {Reclassification(p, b)};
      OneMore(found, Reclassification(p, b));
    } else {
      assert ReclassifiedAmong(done + {p}, a, b) == found;
    }
  }

  method ListReclassified(a: Snapshot, b: Snapshot, violations: seq<Violation>) returns (r: seq<Violation>)
    ensures multiset(r) == multiset(violations) + multiset(Reclassified(a, b))
  {
    r := violations;
    var left := a.classifications.Keys;
    while left != {}
      invariant left <= a.classifications.Keys
      invariant multiset(r) == multiset(violations) + multiset(ReclassifiedAmong(a.classifications.Keys - left, a, b))
      decreases |left|
    {
      ghost var some := HasMember(left);
      var p :| p in left;
      assert a.classifications.Keys - (left - {p}) == (a.classifications.Keys - left) + {p};
      ReclassifiedNext(a.classifications.Keys - left, p, a, b);
      left := left - {p};
      if a.classifications[p] == PASS && !(p in b.classifications && b.classifications[p] == PASS) {
        r := r + [Reclassification(p, b)];
      }
    }
    assert ReclassifiedAmong(a.classifications.Keys - {}, a, b) == Reclassified(a, b);
  }

  method ListSeeds(name: string, seeds: set<string>, b: Snapshot, violations: seq<Violation>)
    returns (r: seq<Violation>)
    ensures multiset(r) == multiset(violations) + multiset(LostSeeds(name, seeds, b))
  {
    r := violations;
    var left := seeds;
    while left != {}
      invariant left <= seeds
      invariant multiset(r) == multiset(violations) + multiset(LostSeeds(name, seeds - left, b))
      decreases |left|
    {
      ghost var some := HasMember(left);
      var s :| s in left;
      ghost var found := LostSeeds(name, seeds - left, b);
      assert seeds - (left - {s}) == (seeds - left) + {s};
      left := left - {s};
      var v := Violation(PropertySeed, name, Text(s), ABSENT);
      if !(name in b.domains && s in b.domains[name].seeds) {
        OneMore(found, v);
        assert LostSeeds(name, seeds - left, b) == found + {v};
        r := r + [v];
      } else {
        assert LostSeeds(name, seeds - left, b) == found;
      }
    }
    assert seeds - {} == seeds;
  }

  method ListDomain(name: string, before: Domain, b: Snapshot, violations: seq<Violation>) returns (r: seq<Violation>)
    ensures multiset(r) == multiset(violations) + multiset(DomainLosses(name, before, b))
  {
    r := ListSeeds(name, before.seeds, b, violations);
    DisjointUnion(LostSeeds(name, before.seeds, b), LoweredBudget(name, before, b));
    if !BudgetKept(name, before, b) {
      r := r + [Violation(PropertyCaseBudget, name, Number(before.caseBudget),
                          if name in b.domains then Number(b.domains[name].caseBudget) else ABSENT)];
    }
  }

  lemma DomainsNext(domains: map<string, Domain>, done: set<string>, n: string, b: Snapshot)
    requires n in domains && n !in done
    ensures DomainViolations(domains, done + {n}, b) ==
      DomainViolations(domains, done, b) + DomainLosses(n, domains[n], b)
    ensures DomainViolations(domains, done, b) !! DomainLosses(n, domains[n], b)
  {
    forall v | v in DomainViolations(domains, done, b) ensures v.scope in done {
    }
  }

  method ListDomains(domains: map<string, Domain>, b: Snapshot, violations: seq<Violation>) returns (r: seq<Violation>)
    ensures multiset(r) == multiset(violations) + multiset(DomainViolations(domains, domains.Keys, b))
  {
    r := violations;
    var left := domains.Keys;
    while left != {}
      invariant left <= domains.Keys
      invariant multiset(r) == multiset(violations) + multiset(DomainViolations(domains, domains.Keys - left, b))
      decreases |left|
    {
      ghost var some := HasMember(left);
      var n :| n in left;
      ghost var done := domains.Keys - left;
      assert domains.Keys - (left - {n}) == done + {n};
      DomainsNext(domains, done, n, b);
      DisjointUnion(DomainViolations(domains, done, b), DomainLosses(n, domains[n], b));
      r := ListDomain(n, domains[n], b, r);
      left := left - {n};
    }
    assert domains.Keys - {} == domains.Keys;
  }

  /** The kinds of violations never coincide, so their lists add up. */
  lemma KindsAddUp(s: set<Violation>, t: set<Violation>, from: set<Invariant>, kind: set<Invariant>)
    requires (forall v | v in s :: v.invariant' in from) && (forall v | v in t :: v.invariant' in kind) && from !! kind
    ensures multiset(s + t) == multiset(s) + multiset(t)
  {
    DisjointUnion(s, t);
  }

  method DetectManifest(b: Snapshot, violations: seq<Violation>) returns (r: seq<Violation>)
    ensures multiset(r) == multiset(violations) + multiset(ManifestViolations(b))
  {
    r := ListLost(ManifestPathSet, PRESENT, Text("missing-from-results"), b.subsetPaths, b.resultPaths, violations);
    r := ListLost(ManifestPathSet, PRESENT, Text("missing-from-subset"), b.resultPaths, b.subsetPaths, r);
    DisjointUnion(Lost(ManifestPathSet, PRESENT, Text("missing-from-results"), b.subsetPaths, b.resultPaths),
                  Lost(ManifestPathSet, PRESENT, Text("missing-from-subset"), b.resultPaths, b.subsetPaths));
  }

  lemma LostKind(invariant': Invariant, from: Value, to: Value, before: set<string>, now: set<string>)
    ensures forall v | v in Lost(invariant', from, to, before, now) :: v.invariant' == invariant'
  {}

  lemma ResultKinds(a: Snapshot, b: Snapshot, found: set<Violation>)
    requires forall v | v in found :: v.invariant' == PassCount
    ensures forall v | v in ResultViolations(a, b, found) ::
      v.invariant' in {PassCount, AdmittedFamily, InventoryPath, PassClassification}
  {
    LostKind(AdmittedFamily, PRESENT, ABSENT, a.admittedFamilies, b.admittedFamilies);
    LostKind(InventoryPath, Text("included"), ABSENT, a.inventoryPaths, b.inventoryPaths);
    assert forall v | v in Reclassified(a, b) :: v.invariant' == PassClassification;
  }

  method DetectViolations(a: Snapshot, b: Snapshot) returns (violations: seq<Violation>)
    ensures multiset(violations) == multiset(Violations(a, b))
  {
    violations := [];
    if |Passing(b)| < |Passing(a)| {
      violations := [Violation(PassCount, RESULTS_PATH, Number(|Passing(a)|), Number(|Passing(b)|))];
    }
    violations := DetectResults(a, b, PassCountViolations(a, b), violations);
    ResultKinds(a, b, PassCountViolations(a, b));
    violations := DetectPaths(a, b, ResultViolations(a, b, PassCountViolations(a, b)), violations);
  }

  method DetectResults(a: Snapshot, b: Snapshot, ghost found: set<Violation>, violations: seq<Violation>)
    returns (r: seq<Violation>)
    requires multiset(violations) == multiset(found) && forall v | v in found :: v.invariant' == PassCount
    ensures multiset(r) == multiset(ResultViolations(a, b, found))
  {
    ghost var families := Lost(AdmittedFamily, PRESENT, ABSENT, a.admittedFamilies, b.admittedFamilies);
    ghost var inventory := Lost(InventoryPath, Text("included"), ABSENT, a.inventoryPaths, b.inventoryPaths);
    r := ListLost(AdmittedFamily, PRESENT, ABSENT, a.admittedFamilies, b.admittedFamilies, violations);
    KindsAddUp(found, families, {PassCount}, {AdmittedFamily});
    r := ListLost(InventoryPath, Text("included"), ABSENT, a.inventoryPaths, b.inventoryPaths, r);
    KindsAddUp(found + families, inventory, {PassCount, AdmittedFamily}, {InventoryPath});
    r := ListReclassified(a, b, r);
    KindsAddUp(found + families + inventory, Reclassified(a, b), {PassCount, AdmittedFamily, InventoryPath},
               {PassClassification});
  }

  method DetectPaths(a: Snapshot, b: Snapshot, ghost found: set<Violation>, violations: seq<Violation>)
    returns (r: seq<Violation>)
    requires multiset(violations) == multiset(found)
    requires forall v | v in found :: v.invariant' in {PassCount, AdmittedFamily, InventoryPath, PassClassification}
    ensures multiset(r) == multiset(found + Lost(SubsetPath, PRESENT, ABSENT, a.subsetPaths, b.subsetPaths)
                                    + ManifestViolations(b) + DomainViolations(a.domains, a.domains.Keys, b))
  {
    ghost var kinds := {PassCount, AdmittedFamily, InventoryPath, PassClassification};
    ghost var subset := Lost(SubsetPath, PRESENT, ABSENT, a.subsetPaths, b.subsetPaths);
    r := ListLost(SubsetPath, PRESENT, ABSENT, a.subsetPaths, b.subsetPaths, violations);
    KindsAddUp(found, subset, kinds, {SubsetPath});
    r := DetectManifest(b, r);
    KindsAddUp(found + subset, ManifestViolations(b), kinds + {SubsetPath}, {ManifestPathSet});
    r := ListDomains(a.domains, b, r);
    KindsAddUp(found + subset + ManifestViolations(b), DomainViolations(a.domains, a.domains.Keys, b),
               kinds + {SubsetPath, ManifestPathSet}, {PropertySeed, PropertyCaseBudget});
  }

  // ----- Matching overrides with violations -----

  /** The first index of an element, or the length. */
  function FindIndex<T(==)>(s: seq<T>, x: T): (i: nat)
    ensures i <= |s| && (i < |s| ==> s[i] == x) && (i == |s| <==> x !in s)
  {
    if s == [] || s[0] == x then 0
    else
      assert s == [s[0]] + s[1..];
      1 + FindIndex(s[1..], x)
  }

  function Splice<T>(s: seq<T>, i: nat): (r: seq<T>)
    requires i < |s|
    ensures multiset(s) == multiset(r) + multiset{s[i]}
  {
    assert s == s[..i] + [s[i]] + s[i + 1..];
    s[..i] + s[i + 1..]
  }

  function Transitions(overrides: seq<Override>): (r: seq<Violation>)
    ensures |r| == |overrides|
  {
    seq(|overrides|, i requires 0 <= i < |overrides| => overrides[i].transition)
  }

  lemma TransitionsAppend(overrides: seq<Override>, o: Override)
    ensures Transitions(overrides + [o]) == Transitions(overrides) + [o.transition]
  {}

  lemma DifferenceNext<T>(all: multiset<T>, done: multiset<T>, x: T)
    ensures x in all - done ==>
      all - (done + multiset{x}) == (all - done) - multiset{x} && (done + multiset{x}) - all == done - all
    ensures x !in all - done ==>
      all - (done + multiset{x}) == all - done && (done + multiset{x}) - all == (done - all) + multiset{x}
  {}

  lemma MatchNext(violations: seq<Violation>, overrides: seq<Override>, i: nat)
    requires i < |overrides|
    ensures var all, done, x := multiset(violations), multiset(Transitions(overrides[..i])), overrides[i].transition;
      && multiset(Transitions(overrides[..i + 1])) == done + multiset{x}
      && (x in all - done ==>
            all - (done + multiset{x}) == (all - done) - multiset{x} && (done + multiset{x}) - all == done - all)
      && (x !in all - done ==>
            all - (done + multiset{x}) == all - done && (done + multiset{x}) - all == (done - all) + multiset{x})
  {
    assert overrides[..i + 1] == overrides[..i] + [overrides[i]];
    TransitionsAppend(overrides[..i], overrides[i]);
    DifferenceNext(multiset(violations), multiset(Transitions(overrides[..i])), overrides[i].transition);
  }

  /**
   Take each override from the violations it names: what is left on either side are exactly the
   two multiset differences.
   */
  method MatchOverrides(violations: seq<Violation>, overrides: seq<Override>)
    returns (remaining: seq<Violation>, stale: seq<Override>)
    ensures multiset(remaining) == multiset(violations) - multiset(Transitions(overrides))
    ensures multiset(Transitions(stale)) == multiset(Transitions(overrides)) - multiset(violations)
  {
    remaining, stale := violations, [];
    for i := 0 to |overrides|
      invariant multiset(remaining) == multiset(violations) - multiset(Transitions(overrides[..i]))
      invariant multiset(Transitions(stale)) == multiset(Transitions(overrides[..i])) - multiset(violations)
    {
      var o := overrides[i];
      TransitionsAppend(stale, o);
      MatchNext(violations, overrides, i);
      var index := FindIndex(remaining, o.transition);
      if index == |remaining| {
        stale := stale + [o];
      } else {
        remaining := Splice(remaining, index);
      }
    }
    assert overrides[..|overrides|] == overrides;
  }

  /** The override entries that the baseline does not already list, occurrence by occurrence. */
  method FindAddedRatchetOverrides(baseline: seq<Override>, current: seq<Override>) returns (added: seq<Override>)
    ensures multiset(added) == multiset(current) - multiset(baseline)
  {
    added := [];
    var listed := baseline;
    for i := 0 to |current|
      invariant multiset(listed) == multiset(baseline) - multiset(current[..i])
      invariant multiset(added) == multiset(current[..i]) - multiset(baseline)
    {
      var o := current[i];
      assert current[..i + 1] == current[..i] + [o];
      DifferenceNext(multiset(baseline), multiset(current[..i]), o);
      var index := FindIndex(listed, o);
      if index == |listed| {
        added := added + [o];
      } else {
        listed := Splice(listed, index);
      }
    }
    assert current[..|current|] == current;
  }

  // ----- Which overrides may be written -----

  /** Only these violations may be overridden, and a pass count only as a whole. */
  predicate MayOverride(o: Override) {
    match o.transition.invariant'
    case PassCount => o.transition.scope == RESULTS_PATH
    case PassClassification => true
    case PropertyCaseBudget => true
    case PropertySeed => true
    case SubsetPath => true
    case _ => false
  }

  ghost predicate AllMayOverride(overrides: seq<Override>) {
    forall o | o in overrides :: MayOverride(o)
  }

  method ParseOverrides(entries: seq<Override>) returns (ok: bool)
    ensures ok <==> AllMayOverride(entries)
  {
    for i := 0 to |entries|
      invariant AllMayOverride(entries[..i])
    {
      if !MayOverride(entries[i]) {
        return false;
      }
      assert entries[..i + 1] == entries[..i] + [entries[i]];
    }
    assert entries[..|entries|] == entries;
    ok := true;
  }

  // ----- The report -----

  datatype Report = Report(violations: seq<Violation>, unoverridden: seq<Violation>, stale: seq<Override>)

  /** What no accepted report lets go: families, the inventory, and a manifest that covers the subset. */
  ghost predicate KeepsCore(a: Snapshot, b: Snapshot) {
    && a.admittedFamilies <= b.admittedFamilies && a.inventoryPaths <= b.inventoryPaths
    && b.subsetPaths == b.resultPaths
  }

  /** Every violation is taken by one of these overrides. */
  ghost predicate Overridden(a: Snapshot, b: Snapshot, added: seq<Override>) {
    multiset(Violations(a, b)) - multiset(Transitions(added)) == multiset{}
  }

  /**
   Compare two snapshots. Overrides of other kinds are refused; the report lists the two
   remainders of matching violations with the overrides that the baseline does not list.
   */
  method CompareCompatibility(a: Snapshot, b: Snapshot, currentOverrides: seq<Override>,
                              baselineOverrides: seq<Override>)
    returns (r: Option<Report>, ghost added: seq<Override>)
    ensures r.Some? <==> AllMayOverride(currentOverrides) && AllMayOverride(baselineOverrides)
    ensures r.Some? ==>
      && multiset(r.value.violations) == multiset(Violations(a, b))
      && multiset(added) == multiset(currentOverrides) - multiset(baselineOverrides)
      && multiset(r.value.unoverridden) == multiset(Violations(a, b)) - multiset(Transitions(added))
      && multiset(Transitions(r.value.stale)) == multiset(Transitions(added)) - multiset(Violations(a, b))
    ensures r.Some? && r.value.unoverridden == [] ==>
      AllMayOverride(added) && Overridden(a, b, added) && KeepsCore(a, b)
    ensures r.Some? && r.value.unoverridden == [] && added == [] ==> Keeps(a, b) && b.subsetPaths == b.resultPaths
    ensures r.Some? && r.value.unoverridden == [] && r.value.stale == [] ==>
      multiset(Transitions(added)) == multiset(Violations(a, b))
  {
    added := [];
    var violations := DetectViolations(a, b);
    var baselineOk := ParseOverrides(baselineOverrides);
    var currentOk := ParseOverrides(currentOverrides);
    if !baselineOk || !currentOk {
      return None, added;
    }
    var overrides := FindAddedRatchetOverrides(baselineOverrides, currentOverrides);
    var remaining, stale := MatchOverrides(violations, overrides);
    added := overrides;
    AddedMayOverride(baselineOverrides, currentOverrides, added);
    if remaining == [] {
      AcceptedKeepsCore(a, b, added);
      AcceptedKeepsAll(a, b, added);
      AcceptedReportPairsUp(multiset(Violations(a, b)), multiset(Transitions(added)), stale);
    }
    r := Some(Report(violations, remaining, stale));
  }

  lemma AddedMayOverride(baseline: seq<Override>, current: seq<Override>, added: seq<Override>)
    requires AllMayOverride(current) && multiset(added) == multiset(current) - multiset(baseline)
    ensures AllMayOverride(added)
  {
    forall o | o in added ensures MayOverride(o) {
      assert o in multiset(added);
      assert o in multiset(current);
    }
  }

  /** A report with nothing left on either side pairs every violation with one new override. */
  lemma AcceptedReportPairsUp(violations: multiset<Violation>, added: multiset<Violation>, stale: seq<Override>)
    requires violations - added == multiset{} && multiset(Transitions(stale)) == added - violations
    ensures stale == [] ==> violations == added
  {
    if stale == [] {
      forall v ensures violations[v] == added[v] {
        assert (violations - added)[v] == 0 && (added - violations)[v] == 0;
      }
    }
  }

  lemma NoMembers<T>(s: set<T>)
    requires multiset(s) == multiset{}
    ensures s == {}
  {
    assert forall x :: x in s ==> x in multiset(s);
  }

  lemma AcceptedKeepsAll(a: Snapshot, b: Snapshot, added: seq<Override>)
    requires Overridden(a, b, added)
    ensures added == [] ==> Keeps(a, b) && b.subsetPaths == b.resultPaths
  {
    if added == [] {
      assert multiset(Violations(a, b)) - multiset(Transitions(added)) == multiset(Violations(a, b));
      NoMembers(Violations(a, b));
      CleanIff(a, b);
    }
  }

  predicate Overridable(v: Violation) {
    v.invariant' !in {AdmittedFamily, InventoryPath, ManifestPathSet}
  }

  lemma TransitionIsOverridable(added: seq<Override>, v: Violation)
    requires AllMayOverride(added) && v in Transitions(added)
    ensures Overridable(v)
  {
    var i :| 0 <= i < |added| && Transitions(added)[i] == v;
    assert added[i] in added;
  }

  lemma TakenIsThere<T>(all: multiset<T>, taken: multiset<T>, x: T)
    requires all - taken == multiset{} && x in all
    ensures x in taken
  {
    assert (all - taken)[x] == 0;
  }

  /** A violation that no override may name stands against acceptance. */
  lemma AcceptedAreOverridable(found: set<Violation>, added: seq<Override>, v: Violation)
    requires multiset(found) - multiset(Transitions(added)) == multiset{} && AllMayOverride(added) && v in found
    ensures Overridable(v)
  {
    assert v in multiset(found);
    TakenIsThere(multiset(found), multiset(Transitions(added)), v);
    TransitionIsOverridable(added, v);
  }

  lemma NothingLost(a: Snapshot, b: Snapshot, added: seq<Override>, invariant': Invariant, from: Value, to: Value,
                    before: set<string>, now: set<string>)
    requires Overridden(a, b, added) && AllMayOverride(added)
    requires !Overridable(Violation(invariant', "", from, to))
    requires Lost(invariant', from, to, before, now) <= Violations(a, b)
    ensures before <= now
  {
    LostIsEmpty(invariant', from, to, before, now);
    forall v ensures v !in Lost(invariant', from, to, before, now) {
      if v in Lost(invariant', from, to, before, now) {
        AcceptedAreOverridable(Violations(a, b), added, v);
        assert false;
      }
    }
  }

  /** Whatever is overridden, families and inventory never shrink and the manifest covers the subset. */
  lemma AcceptedKeepsCore(a: Snapshot, b: Snapshot, added: seq<Override>)
    requires Overridden(a, b, added) && AllMayOverride(added)
    ensures KeepsCore(a, b)
  {
    NothingLost(a, b, added, AdmittedFamily, PRESENT, ABSENT, a.admittedFamilies, b.admittedFamilies);
    NothingLost(a, b, added, InventoryPath, Text("included"), ABSENT, a.inventoryPaths, b.inventoryPaths);
    NothingLost(a, b, added, ManifestPathSet, PRESENT, Text("missing-from-results"), b.subsetPaths, b.resultPaths);
    NothingLost(a, b, added, ManifestPathSet, PRESENT, Text("missing-from-subset"), b.resultPaths, b.subsetPaths);
  }

  /** Overrides that name each of some violations once. */
  lemma {:induction false} OverridesOf(found: set<Violation>) returns (added: seq<Override>)
    requires forall v | v in found :: MayOverride(Override(v, ""))
    ensures AllMayOverride(added) && multiset(Transitions(added)) == multiset(found)
    decreases |found|
  {
    if found == {} {
      added := [];
    } else {
      var v :| v in found;
      var rest := OverridesOf(found - {v});
      added := rest + [Override(v, "")];
      TransitionsAppend(rest, Override(v, ""));
      assert multiset(found) == multiset(found - {v}) + multiset{v};
      assert MayOverride(Override(v, ""));
    }
  }

  /** With the core kept, whatever else was lost may be overridden. */
  lemma CoreKeptMayOverride(a: Snapshot, b: Snapshot, v: Violation)
    requires KeepsCore(a, b) && v in Violations(a, b)
    ensures MayOverride(Override(v, ""))
  {
    ViolationIff(a, b, v);
  }

  /** Some overrides get a comparison accepted exactly if families, inventory, and manifest are kept. */
  lemma AcceptableIff(a: Snapshot, b: Snapshot)
    ensures (exists added :: AllMayOverride(added) && Overridden(a, b, added)) <==> KeepsCore(a, b)
  {
    if added :| AllMayOverride(added) && Overridden(a, b, added) {
      AcceptedKeepsCore(a, b, added);
    }
    if KeepsCore(a, b) {
      forall v | v in Violations(a, b) ensures MayOverride(Override(v, "")) {
        CoreKeptMayOverride(a, b, v);
      }
      var added := OverridesOf(Violations(a, b));
      assert Overridden(a, b, added);
    }
  }

  /** Each comparison of neighbours is accepted with the overrides added at that step. */
  ghost predicate AcceptedChain(chain: seq<Snapshot>, added: seq<seq<Override>>) {
    && |added| == |chain|
    && forall i | 0 < i < |chain| :: AllMayOverride(added[i]) && Overridden(chain[i - 1], chain[i], added[i])
  }

  /** Along any accepted chain, overrides included, the core never shrinks. */
  lemma {:induction false} OverriddenChainKeepsCore(chain: seq<Snapshot>, added: seq<seq<Override>>, i: nat, j: nat)
    requires AcceptedChain(chain, added) && i < j < |chain|
    ensures KeepsCore(chain[i], chain[j])
    decreases j
  {
    NeighbourKeepsCore(chain, added, j);
    if i < j - 1 {
      OverriddenChainKeepsCore(chain, added, i, j - 1);
      CoreTransitive(chain[i], chain[j - 1], chain[j]);
    }
  }

  lemma NeighbourKeepsCore(chain: seq<Snapshot>, added: seq<seq<Override>>, j: nat)
    requires AcceptedChain(chain, added) && 0 < j < |chain|
    ensures KeepsCore(chain[j - 1], chain[j])
  {
    AcceptedKeepsCore(chain[j - 1], chain[j], added[j]);
  }

  lemma CoreTransitive(a: Snapshot, b: Snapshot, c: Snapshot)
    requires KeepsCore(a, b) && KeepsCore(b, c)
    ensures KeepsCore(a, c)
  {}
}
