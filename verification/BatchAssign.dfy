/**
 Recovering the batches from the selectors alone: each path belongs to the batch that lists
 its prerequisite set and has the longest prefix the path starts with.
 */
module BatchAssign {
  import opened Basics
  import opened CodeUnits
  import opened BatchPlan
  import opened BatchIds

  const PATH_ROOT := "test/"

  datatype Selector = Selector(id: string, prefixes: seq<string>, prerequisiteSets: seq<string>)

  datatype Entry = Entry(index: nat, prefix: string)

  datatype AssignError =
    | BadId(index: nat)
    | NoPrefixes(index: nat)
    | NoSets(index: nat)
    | OutsideRoot(index: nat, prefix: string)
    | Repeats(prefix: string, prerequisiteSet: string)
    | Unselected(fact: Fact)
    | IdlePrefix(index: nat, prefix: string)
    | IdleSet(index: nat, prerequisiteSet: string)

  datatype Result<+T> = Ok(value: T) | Err(error: AssignError)

  // ----- Candidates and the longest match -----

  function EntriesOf(index: nat, prefixes: seq<string>): (r: seq<Entry>)
    ensures |r| == |prefixes| && forall k | 0 <= k < |r| :: r[k] == Entry(index, prefixes[k])
  {
    seq(|prefixes|, k requires 0 <= k < |prefixes| => Entry(index, prefixes[k]))
  }

  /** The prefixes of every selector that lists `set`, in selector order. */
  function Entries(selectors: seq<Selector>, set': string): seq<Entry> {
    if selectors == [] then []
    else
      var n := |selectors| - 1;
      Entries(selectors[..n], set') +
      (if set' in selectors[n].prerequisiteSets then EntriesOf(n, selectors[n].prefixes) else [])
  }

  /** The first entry of greatest length whose prefix the path starts with. */
  function Best(entries: seq<Entry>, path: string): Option<Entry> {
    if entries == [] then None
    else
      var best := Best(entries[..|entries| - 1], path);
      var last := entries[|entries| - 1];
      if last.prefix <= path && (best == None || |last.prefix| > |best.value.prefix|) then Some(last) else best
  }

  function Owner(selectors: seq<Selector>, f: Fact): Option<Entry> {
    Best(Entries(selectors, f.prerequisiteSet), f.path)
  }

  predicate OwnedBy(selectors: seq<Selector>, f: Fact, index: nat) {
    Owner(selectors, f).Some? && Owner(selectors, f).value.index == index
  }

  function Assigned(selectors: seq<Selector>, facts: seq<Fact>, index: nat): seq<Fact> {
    if facts == [] then []
    else
      var f := facts[|facts| - 1];
      Assigned(selectors, facts[..|facts| - 1], index) + if OwnedBy(selectors, f, index) then [f] else []
  }

  lemma {:induction false} BestIsLongest(entries: seq<Entry>, path: string)
    ensures Best(entries, path) == None ==> forall e | e in entries :: !(e.prefix <= path)
    ensures Best(entries, path).Some? ==>
      && Best(entries, path).value in entries
      && Best(entries, path).value.prefix <= path
      && forall e | e in entries && e.prefix <= path :: |e.prefix| <= |Best(entries, path).value.prefix|
  {
    if entries != [] {
      var init, last := entries[..|entries| - 1], entries[|entries| - 1];
      BestIsLongest(init, path);
      assert forall e | e in entries :: e in init || e == last;
    }
  }

  lemma {:induction false} EntriesMember(selectors: seq<Selector>, set': string, e: Entry)
    ensures e in Entries(selectors, set') <==>
      && e.index < |selectors| && set' in selectors[e.index].prerequisiteSets
      && e.prefix in selectors[e.index].prefixes
  {
    if selectors != [] {
      var n := |selectors| - 1;
      EntriesMember(selectors[..n], set', e);
      var own := EntriesOf(n, selectors[n].prefixes);
      if e.index == n && e.prefix in selectors[n].prefixes {
        var k :| 0 <= k < |own| && selectors[n].prefixes[k] == e.prefix;
        assert own[k] == e;
      }
    }
  }

  ghost predicate DistinctPrefixes(entries: seq<Entry>) {
    forall i, j | 0 <= i < j < |entries| :: entries[i].prefix != entries[j].prefix
  }

  /** With distinct prefixes the longest match is one entry, whatever the order of the candidates. */
  lemma BestIsUnique(entries: seq<Entry>, path: string, e: Entry)
    requires DistinctPrefixes(entries)
    requires e in entries && e.prefix <= path
    requires forall q | q in entries && q.prefix <= path :: |q.prefix| <= |e.prefix|
    ensures Best(entries, path) == Some(e)
  {
    BestIsLongest(entries, path);
    var b := Best(entries, path).value;
    PrefixesNest(b.prefix, e.prefix, path);
    PrefixesNest(e.prefix, b.prefix, path);
    assert b.prefix == e.prefix;
  }

  // ----- What the assignment accepts -----

  ghost predicate HeaderOk(selectors: seq<Selector>) {
    && (forall i | 0 <= i < |selectors| :: IsBatchId(selectors[i].id))
    && (forall i, j | 0 <= i < j < |selectors| :: selectors[i].id != selectors[j].id)
    && (forall i | 0 <= i < |selectors| :: SelectorOk(selectors[i]))
    && forall s :: DistinctPrefixes(Entries(selectors, s))
  }

  ghost predicate SelectorOk(selector: Selector) {
    && selector.prefixes != [] && selector.prerequisiteSets != []
    && Distinct(selector.prerequisiteSets)
    && forall p | p in selector.prefixes :: PATH_ROOT <= p
  }

  ghost predicate UsesPrefix(selectors: seq<Selector>, facts: seq<Fact>, e: Entry) {
    exists f :: f in facts && Owner(selectors, f) == Some(e)
  }

  ghost predicate UsesSet(selectors: seq<Selector>, facts: seq<Fact>, index: nat, set': string) {
    exists f :: f in facts && f.prerequisiteSet == set' && OwnedBy(selectors, f, index)
  }

  ghost predicate AllOwned(selectors: seq<Selector>, facts: seq<Fact>) {
    forall f | f in facts :: Owner(selectors, f).Some?
  }

  ghost predicate NothingIdle(selectors: seq<Selector>, facts: seq<Fact>) {
    forall i | 0 <= i < |selectors| ::
      && (forall p | p in selectors[i].prefixes :: UsesPrefix(selectors, facts, Entry(i, p)))
      && (forall s | s in selectors[i].prerequisiteSets :: UsesSet(selectors, facts, i, s))
  }

  ghost predicate Accepts(selectors: seq<Selector>, facts: seq<Fact>) {
    HeaderOk(selectors) && AllOwned(selectors, facts) && NothingIdle(selectors, facts)
  }

  /** Each error names a real defect of its input. */
  ghost predicate Explains(error: AssignError, selectors: seq<Selector>, facts: seq<Fact>) {
    match error
    case BadId(i) =>
      i < |selectors| && (!IsBatchId(selectors[i].id) || exists j :: 0 <= j < i && selectors[j].id == selectors[i].id)
    case NoPrefixes(i) => i < |selectors| && selectors[i].prefixes == []
    case NoSets(i) => i < |selectors| && selectors[i].prerequisiteSets == []
    case OutsideRoot(i, p) => i < |selectors| && p in selectors[i].prefixes && !(PATH_ROOT <= p)
    case Repeats(p, s) =>
      || !DistinctPrefixes(Entries(selectors, s))
      || exists i :: 0 <= i < |selectors| && !Distinct(selectors[i].prerequisiteSets)
    case Unselected(f) => f in facts && Owner(selectors, f) == None
    case IdlePrefix(i, p) =>
      i < |selectors| && p in selectors[i].prefixes && !UsesPrefix(selectors, facts, Entry(i, p))
    case IdleSet(i, s) =>
      i < |selectors| && s in selectors[i].prerequisiteSets && !UsesSet(selectors, facts, i, s)
  }

  lemma ExplainedIsRejected(error: AssignError, selectors: seq<Selector>, facts: seq<Fact>)
    requires Explains(error, selectors, facts)
    ensures !Accepts(selectors, facts)
  {}

  lemma EntriesPrefixStays(selectors: seq<Selector>, n: nat, set': string)
    requires n <= |selectors|
    ensures Entries(selectors[..n], set') <= Entries(selectors, set')
    decreases |selectors|
  {
    if n < |selectors| {
      var k := |selectors| - 1;
      EntriesPrefixStays(selectors[..k], n, set');
      assert selectors[..k][..n] == selectors[..n];
    } else {
      assert selectors[..n] == selectors;
    }
  }

  // ----- The header pass -----

  type Index = map<string, seq<Entry>>

  function At(bySet: Index, set': string): seq<Entry> {
    if set' in bySet then bySet[set'] else []
  }

  /** Register one selector's prefixes under one of its sets, refusing a repeated prefix. */
  method Register(bySet: Index, index: nat, selector: Selector, set': string)
    returns (r: Result<Index>)
    ensures r.Ok? ==>
      && At(r.value, set') == At(bySet, set') + EntriesOf(index, selector.prefixes)
      && (forall s | s != set' :: At(r.value, s) == At(bySet, s))
      && (DistinctPrefixes(At(bySet, set')) ==> DistinctPrefixes(At(r.value, set')))
      && (forall p | p in selector.prefixes :: PATH_ROOT <= p)
      && (selector.prefixes != [] ==> Entry(index, selector.prefixes[0]) !in At(bySet, set'))
    ensures r.Err? ==>
      || (r.error.OutsideRoot? && r.error.index == index && r.error.prefix in selector.prefixes
          && !(PATH_ROOT <= r.error.prefix))
      || (r.error.Repeats? && r.error.prerequisiteSet == set'
          && !DistinctPrefixes(At(bySet, set') + EntriesOf(index, selector.prefixes)))
  {
    var before := At(bySet, set');
    var entries := before;
    var own := EntriesOf(index, selector.prefixes);
    for k := 0 to |selector.prefixes|
      invariant entries == before + own[..k]
      invariant DistinctPrefixes(before) ==> DistinctPrefixes(entries)
      invariant forall i | 0 <= i < k :: PATH_ROOT <= selector.prefixes[i]
      invariant k > 0 ==> Entry(index, selector.prefixes[0]) !in before
    {
      var prefix := selector.prefixes[k];
      if !(PATH_ROOT <= prefix) {
        return Err(OutsideRoot(index, prefix));
      }
      if exists e | e in entries :: e.prefix == prefix {
        RepeatedEntry(before, own, k);
        return Err(Repeats(prefix, set'));
      }
      entries := entries + [Entry(index, prefix)];
      assert own[..k + 1] == own[..k] + [own[k]];
    }
    assert own[..|selector.prefixes|] == own;
    r := Ok(bySet[set' := entries]);
  }

  lemma RepeatedEntry(before: seq<Entry>, own: seq<Entry>, k: nat)
    requires k < |own| && exists e | e in before + own[..k] :: e.prefix == own[k].prefix
    ensures !DistinctPrefixes(before + own)
  {
    var part := before + own[..k];
    var e :| e in part && e.prefix == own[k].prefix;
    var i :| 0 <= i < |part| && part[i] == e;
    assert (before + own)[i] == e && (before + own)[|before| + k] == own[k];
  }

  /** The index after `n` selectors: every set maps to the prefixes of the selectors listing it. */
  ghost predicate Indexes(bySet: Index, selectors: seq<Selector>, n: nat)
    requires n <= |selectors|
  {
    forall s :: At(bySet, s) == Entries(selectors[..n], s) && DistinctPrefixes(At(bySet, s))
  }

  lemma EntriesNext(selectors: seq<Selector>, n: nat, set': string)
    requires n < |selectors|
    ensures Entries(selectors[..n + 1], set') == Entries(selectors[..n], set') +
      (if set' in selectors[n].prerequisiteSets then EntriesOf(n, selectors[n].prefixes) else [])
  {
    assert selectors[..n + 1][..n] == selectors[..n];
  }

  lemma NotDistinctStays(selectors: seq<Selector>, n: nat, set': string)
    requires n <= |selectors| && !DistinctPrefixes(Entries(selectors[..n], set'))
    ensures !DistinctPrefixes(Entries(selectors, set'))
  {
    EntriesPrefixStays(selectors, n, set');
    var part, whole := Entries(selectors[..n], set'), Entries(selectors, set');
    var i, j :| 0 <= i < j < |part| && part[i].prefix == part[j].prefix;
    assert whole[i] == part[i] && whole[j] == part[j];
  }

  /** What a set maps to once the sets in `done` have received the entries `own`. */
  function Extended(bySet: Index, done: seq<string>, own: seq<Entry>, s: string): seq<Entry> {
    if s in done then At(bySet, s) + own else At(bySet, s)
  }

  ghost predicate Extends(bySet: Index, before: Index, done: seq<string>, own: seq<Entry>) {
    forall s :: At(bySet, s) == Extended(before, done, own, s)
  }

  ghost predicate AllDistinct(bySet: Index) {
    forall s :: DistinctPrefixes(At(bySet, s))
  }

  lemma ExtendsNext(bySet: Index, next: Index, before: Index, done: seq<string>, s: string, own: seq<Entry>)
    requires Extends(bySet, before, done, own) && s !in done
    requires At(next, s) == At(bySet, s) + own
    requires forall t | t != s :: At(next, t) == At(bySet, t)
    ensures Extends(next, before, done + [s], own)
  {
    forall t ensures At(next, t) == Extended(before, done + [s], own, t) {
      assert t in done + [s] <==> t in done || t == s;
      assert At(bySet, t) == Extended(before, done, own, t);
    }
  }

  lemma DistinctNext(bySet: Index, next: Index, s: string)
    requires AllDistinct(bySet) && DistinctPrefixes(At(next, s))
    requires forall t | t != s :: At(next, t) == At(bySet, t)
    ensures AllDistinct(next)
  {
    forall t ensures DistinctPrefixes(At(next, t)) {
      assert DistinctPrefixes(At(bySet, t));
    }
  }

  lemma NewStaysDistinct(done: seq<string>, s: string)
    requires Distinct(done) && s !in done
    ensures Distinct(done + [s])
  {}

  lemma ExtendsDone(bySet: Index, before: Index, selectors: seq<Selector>, i: nat)
    requires i < |selectors| && Indexes(before, selectors, i) && AllDistinct(bySet)
    requires Extends(bySet, before, selectors[i].prerequisiteSets, EntriesOf(i, selectors[i].prefixes))
    ensures Indexes(bySet, selectors, i + 1)
  {
    forall s ensures At(bySet, s) == Entries(selectors[..i + 1], s) && DistinctPrefixes(At(bySet, s)) {
      EntriesNext(selectors, i, s);
      assert At(before, s) == Entries(selectors[..i], s);
      assert At(bySet, s) == Extended(before, selectors[i].prerequisiteSets, EntriesOf(i, selectors[i].prefixes), s);
    }
  }

  /** A repeated prefix is a clash among the selectors' candidates or a set that is listed twice. */
  lemma RepeatExplained(selectors: seq<Selector>, i: nat, k: nat, current: seq<Entry>, p: string)
    requires i < |selectors| && k < |selectors[i].prerequisiteSets|
    requires var sets := selectors[i].prerequisiteSets;
      sets[k] !in sets[..k] ==> current == Entries(selectors[..i], sets[k])
    requires !DistinctPrefixes(current + EntriesOf(i, selectors[i].prefixes))
    ensures Explains(Repeats(p, selectors[i].prerequisiteSets[k]), selectors, [])
  {
    var sets := selectors[i].prerequisiteSets;
    if sets[k] in sets[..k] {
      var j :| 0 <= j < k && sets[j] == sets[k];
      assert !Distinct(selectors[i].prerequisiteSets);
    } else {
      EntriesNext(selectors, i, sets[k]);
      NotDistinctStays(selectors, i + 1, sets[k]);
    }
  }

  lemma UnregisteredIsOld(bySet: Index, before: Index, selectors: seq<Selector>, i: nat, k: nat)
    requires i < |selectors| && Indexes(before, selectors, i) && k < |selectors[i].prerequisiteSets|
    requires var sets := selectors[i].prerequisiteSets;
      Extends(bySet, before, sets[..k], EntriesOf(i, selectors[i].prefixes))
    ensures var sets := selectors[i].prerequisiteSets;
      && (sets[k] !in sets[..k] ==> At(bySet, sets[k]) == Entries(selectors[..i], sets[k]))
      && (sets[k] in sets[..k] && selectors[i].prefixes != [] ==>
            Entry(i, selectors[i].prefixes[0]) in At(bySet, sets[k]))
  {
    var sets, own := selectors[i].prerequisiteSets, EntriesOf(i, selectors[i].prefixes);
    assert At(bySet, sets[k]) == Extended(before, sets[..k], own, sets[k]);
    assert At(before, sets[k]) == Entries(selectors[..i], sets[k]);
    if selectors[i].prefixes != [] {
      assert own[0] in own;
    }
  }

  /** The state of the index after `k` of the sets of selector `i`. */
  ghost predicate Registered(bySet: Index, before: Index, selectors: seq<Selector>, i: nat, k: nat)
    requires i < |selectors| && k <= |selectors[i].prerequisiteSets|
  {
    var sets := selectors[i].prerequisiteSets[..k];
    && Extends(bySet, before, sets, EntriesOf(i, selectors[i].prefixes))
    && AllDistinct(bySet)
    && Distinct(sets)
    && (k > 0 ==> forall p | p in selectors[i].prefixes :: PATH_ROOT <= p)
  }

  lemma RegisteredNext(bySet: Index, next: Index, before: Index, selectors: seq<Selector>, i: nat, k: nat)
    requires i < |selectors| && k < |selectors[i].prerequisiteSets|
    requires Registered(bySet, before, selectors, i, k)
    requires var s := selectors[i].prerequisiteSets[k];
      && s !in selectors[i].prerequisiteSets[..k]
      && At(next, s) == At(bySet, s) + EntriesOf(i, selectors[i].prefixes)
      && (forall t | t != s :: At(next, t) == At(bySet, t))
      && DistinctPrefixes(At(next, s))
    requires forall p | p in selectors[i].prefixes :: PATH_ROOT <= p
    ensures Registered(next, before, selectors, i, k + 1)
  {
    var sets := selectors[i].prerequisiteSets;
    assert sets[..k + 1] == sets[..k] + [sets[k]];
    ExtendsNext(bySet, next, before, sets[..k], sets[k], EntriesOf(i, selectors[i].prefixes));
    DistinctNext(bySet, next, sets[k]);
    NewStaysDistinct(sets[..k], sets[k]);
  }

  /** Register one selector under one more of its sets. */
  method RegisterSet(bySet: Index, ghost before: Index, selectors: seq<Selector>, i: nat, k: nat)
    returns (r: Result<Index>)
    requires i < |selectors| && Indexes(before, selectors, i) && selectors[i].prefixes != []
    requires k < |selectors[i].prerequisiteSets| && Registered(bySet, before, selectors, i, k)
    ensures r.Ok? ==> Registered(r.value, before, selectors, i, k + 1)
    ensures r.Err? ==> Explains(r.error, selectors, []) && (r.error.OutsideRoot? || r.error.Repeats?)
  {
    var set' := selectors[i].prerequisiteSets[k];
    UnregisteredIsOld(bySet, before, selectors, i, k);
    assert DistinctPrefixes(At(bySet, set'));
    r := Register(bySet, i, selectors[i], set');
    if r.Ok? {
      RegisteredNext(bySet, r.value, before, selectors, i, k);
    } else if r.error.Repeats? {
      RepeatExplained(selectors, i, k, At(bySet, set'), r.error.prefix);
    }
  }

  /** Register one selector under each set it lists. */
  method RegisterSelector(before: Index, selectors: seq<Selector>, i: nat) returns (r: Result<Index>)
    requires i < |selectors| && Indexes(before, selectors, i)
    requires selectors[i].prefixes != [] && selectors[i].prerequisiteSets != []
    ensures r.Ok? ==> Indexes(r.value, selectors, i + 1) && SelectorOk(selectors[i])
    ensures r.Err? ==> Explains(r.error, selectors, []) && (r.error.OutsideRoot? || r.error.Repeats?)
  {
    var sets := selectors[i].prerequisiteSets;
    var bySet := before;
    for k := 0 to |sets|
      invariant Registered(bySet, before, selectors, i, k)
    {
      var next := RegisterSet(bySet, before, selectors, i, k);
      if next.Err? {
        return next;
      }
      bySet := next.value;
    }
    assert sets[..|sets|] == sets;
    ExtendsDone(bySet, before, selectors, i);
    r := Ok(bySet);
  }

  /** The first selectors have been validated, and these are their identifiers. */
  ghost predicate Validated(selectors: seq<Selector>, ids: set<string>, n: nat)
    requires n <= |selectors|
  {
    && (forall k | 0 <= k < n :: selectors[k].id in ids)
    && (forall id | id in ids :: exists k :: 0 <= k < n && selectors[k].id == id)
    && (forall k | 0 <= k < n :: IsBatchId(selectors[k].id) && SelectorOk(selectors[k]))
    && (forall j, k | 0 <= j < k < n :: selectors[j].id != selectors[k].id)
  }

  lemma ValidatedNext(selectors: seq<Selector>, ids: set<string>, n: nat)
    requires n < |selectors| && Validated(selectors, ids, n)
    requires IsBatchId(selectors[n].id) && selectors[n].id !in ids && SelectorOk(selectors[n])
    ensures Validated(selectors, ids + {selectors[n].id}, n + 1)
  {
    forall id | id in ids + {selectors[n].id} ensures exists k :: 0 <= k < n + 1 && selectors[k].id == id {
      if id in ids {
        var k :| 0 <= k < n && selectors[k].id == id;
      }
    }
  }

  lemma ValidatedAll(selectors: seq<Selector>, ids: set<string>, bySet: Index)
    requires Validated(selectors, ids, |selectors|) && Indexes(bySet, selectors, |selectors|)
    ensures HeaderOk(selectors)
  {
    assert selectors[..|selectors|] == selectors;
  }

  lemma BadIdExplained(selectors: seq<Selector>, ids: set<string>, n: nat)
    requires n < |selectors| && Validated(selectors, ids, n)
    requires !IsBatchId(selectors[n].id) || selectors[n].id in ids
    ensures Explains(BadId(n), selectors, [])
  {}

  /** The first loop: validate every selector and index its prefixes by prerequisite set. */
  method CheckHeader(selectors: seq<Selector>) returns (r: Result<Index>)
    ensures r.Ok? ==> HeaderOk(selectors) && Indexes(r.value, selectors, |selectors|)
    ensures r.Err? ==> Explains(r.error, selectors, [])
    ensures r.Err? ==> !r.error.Unselected? && !r.error.IdlePrefix? && !r.error.IdleSet?
  {
    var bySet: Index := map[];
    var ids: set<string> := {};
    for i := 0 to |selectors|
      invariant Validated(selectors, ids, i) && Indexes(bySet, selectors, i)
    {
      var selector := selectors[i];
      if !IsBatchId(selector.id) || selector.id in ids {
        BadIdExplained(selectors, ids, i);
        return Err(BadId(i));
      }
      if |selector.prefixes| == 0 {
        return Err(NoPrefixes(i));
      }
      if |selector.prerequisiteSets| == 0 {
        return Err(NoSets(i));
      }
      var next := RegisterSelector(bySet, selectors, i);
      if next.Err? {
        return Err(next.error);
      }
      ValidatedNext(selectors, ids, i);
      ids := ids + {selector.id};
      bySet := next.value;
    }
    ValidatedAll(selectors, ids, bySet);
    r := Ok(bySet);
  }

  // ----- The assignment pass -----

  method Longest(entries: seq<Entry>, path: string) returns (best: Option<Entry>)
    ensures best == Best(entries, path)
  {
    best := None;
    for k := 0 to |entries|
      invariant best == Best(entries[..k], path)
    {
      assert entries[..k + 1][..k] == entries[..k];
      if entries[k].prefix <= path && (best == None || |entries[k].prefix| > |best.value.prefix|) {
        best := Some(entries[k]);
      }
    }
    assert entries[..|entries|] == entries;
  }

  /** What the second loop has recorded after some facts. */
  datatype Ledger = Ledger(batches: seq<seq<Fact>>, usedPrefixes: set<Entry>, usedSets: set<(nat, string)>)

  ghost predicate Records(ledger: Ledger, selectors: seq<Selector>, facts: seq<Fact>) {
    && |ledger.batches| == |selectors|
    && (forall i | 0 <= i < |selectors| :: ledger.batches[i] == Assigned(selectors, facts, i))
    && (forall e :: e in ledger.usedPrefixes <==> UsesPrefix(selectors, facts, e))
    && (forall i: nat, s :: (i, s) in ledger.usedSets <==> UsesSet(selectors, facts, i, s))
  }

  lemma RecordsNext(ledger: Ledger, selectors: seq<Selector>, facts: seq<Fact>, f: Fact, e: Entry)
    requires Records(ledger, selectors, facts)
    requires Owner(selectors, f) == Some(e) && e.index < |selectors|
    ensures Records(
      Ledger(ledger.batches[e.index := ledger.batches[e.index] + [f]],
             ledger.usedPrefixes + {e}, ledger.usedSets + {(e.index, f.prerequisiteSet)}),
      selectors, facts + [f])
  {
    var all := facts + [f];
    assert all[..|facts|] == facts;
    forall q ensures UsesPrefix(selectors, all, q) <==> UsesPrefix(selectors, facts, q) || q == e {
      if UsesPrefix(selectors, facts, q) {
        var g :| g in facts && Owner(selectors, g) == Some(q);
        assert g in all;
      }
      assert f in all;
    }
    forall i: nat, s
      ensures UsesSet(selectors, all, i, s) <==>
        UsesSet(selectors, facts, i, s) || (i == e.index && s == f.prerequisiteSet)
    {
      if UsesSet(selectors, facts, i, s) {
        var g :| g in facts && g.prerequisiteSet == s && OwnedBy(selectors, g, i);
        assert g in all;
      }
      assert f in all;
    }
  }

  /** The second loop: give each path to its longest match. */
  method Distribute(bySet: Index, selectors: seq<Selector>, facts: seq<Fact>) returns (r: Result<Ledger>)
    requires Indexes(bySet, selectors, |selectors|)
    ensures r.Ok? ==> Records(r.value, selectors, facts) && AllOwned(selectors, facts)
    ensures r.Err? ==> r.error.Unselected? && Explains(r.error, selectors, facts)
  {
    assert selectors[..|selectors|] == selectors;
    var batches := seq(|selectors|, _ => []);
    var usedPrefixes: set<Entry>, usedSets: set<(nat, string)> := {}, {};
    for k := 0 to |facts|
      invariant Records(Ledger(batches, usedPrefixes, usedSets), selectors, facts[..k])
      invariant AllOwned(selectors, facts[..k])
    {
      var entry := facts[k];
      assert facts[..k + 1] == facts[..k] + [entry];
      var best := Longest(At(bySet, entry.prerequisiteSet), entry.path);
      if best == None {
        return Err(Unselected(entry));
      }
      BestIsLongest(Entries(selectors, entry.prerequisiteSet), entry.path);
      EntriesMember(selectors, entry.prerequisiteSet, best.value);
      RecordsNext(Ledger(batches, usedPrefixes, usedSets), selectors, facts[..k], entry, best.value);
      usedPrefixes := usedPrefixes + {best.value};
      usedSets := usedSets + {(best.value.index, entry.prerequisiteSet)};
      batches := batches[best.value.index := batches[best.value.index] + [entry]];
    }
    assert facts[..|facts|] == facts;
    r := Ok(Ledger(batches, usedPrefixes, usedSets));
  }

  ghost predicate AllUsed(selectors: seq<Selector>, facts: seq<Fact>, i: nat)
    requires i < |selectors|
  {
    && (forall p | p in selectors[i].prefixes :: UsesPrefix(selectors, facts, Entry(i, p)))
    && (forall s | s in selectors[i].prerequisiteSets :: UsesSet(selectors, facts, i, s))
  }

  /** Every prefix and every set of a selector must have been used. */
  method CheckUsed(ledger: Ledger, selectors: seq<Selector>, facts: seq<Fact>, i: nat)
    returns (idle: Option<AssignError>)
    requires i < |selectors| && Records(ledger, selectors, facts)
    ensures idle == None ==> AllUsed(selectors, facts, i)
    ensures idle.Some? ==> Explains(idle.value, selectors, facts)
  {
    for k := 0 to |selectors[i].prefixes|
      invariant forall m | 0 <= m < k :: UsesPrefix(selectors, facts, Entry(i, selectors[i].prefixes[m]))
    {
      if Entry(i, selectors[i].prefixes[k]) !in ledger.usedPrefixes {
        return Some(IdlePrefix(i, selectors[i].prefixes[k]));
      }
    }
    for k := 0 to |selectors[i].prerequisiteSets|
      invariant forall m | 0 <= m < k :: UsesSet(selectors, facts, i, selectors[i].prerequisiteSets[m])
    {
      if (i, selectors[i].prerequisiteSets[k]) !in ledger.usedSets {
        return Some(IdleSet(i, selectors[i].prerequisiteSets[k]));
      }
    }
    idle := None;
  }

  /** Assign every path to exactly one selector, or report the first defect found. */
  method AssignObservationBatches(selectors: seq<Selector>, facts: seq<Fact>)
    returns (r: Result<seq<seq<Fact>>>)
    ensures r.Ok? <==> Accepts(selectors, facts)
    ensures r.Ok? ==>
      && |r.value| == |selectors|
      && forall i | 0 <= i < |selectors| :: r.value[i] == Assigned(selectors, facts, i)
    ensures r.Err? ==> Explains(r.error, selectors, facts)
  {
    var header := CheckHeader(selectors);
    if header.Err? {
      ExplainedIsRejected(header.error, selectors, facts);
      return Err(header.error);
    }
    var ledger := Distribute(header.value, selectors, facts);
    if ledger.Err? {
      ExplainedIsRejected(ledger.error, selectors, facts);
      return Err(ledger.error);
    }
    for i := 0 to |selectors|
      invariant forall j | 0 <= j < i :: AllUsed(selectors, facts, j)
    {
      var idle := CheckUsed(ledger.value, selectors, facts, i);
      if idle.Some? {
        ExplainedIsRejected(idle.value, selectors, facts);
        return Err(idle.value);
      }
    }
    AcceptedWhenUsed(selectors, facts);
    r := Ok(ledger.value.batches);
  }

  lemma AcceptedWhenUsed(selectors: seq<Selector>, facts: seq<Fact>)
    requires HeaderOk(selectors) && AllOwned(selectors, facts)
    requires forall i | 0 <= i < |selectors| :: AllUsed(selectors, facts, i)
    ensures Accepts(selectors, facts)
  {
    forall i | 0 <= i < |selectors|
      ensures forall p | p in selectors[i].prefixes :: UsesPrefix(selectors, facts, Entry(i, p))
      ensures forall s | s in selectors[i].prerequisiteSets :: UsesSet(selectors, facts, i, s)
    {
      assert AllUsed(selectors, facts, i);
    }
  }
}
