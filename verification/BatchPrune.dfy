/**
 Dropping what no longer selects an unreviewed path. Pruning never moves a path, whatever
 subset of the paths remains.
 */
module BatchPrune {
  import opened Basics
  import opened CodeUnits
  import opened BatchPlan
  import opened BatchIds
  import opened BatchAssign

  /** Batch identifiers paired with the prefixes, and with the sets, that still select a path. */
  function UsedPrefixes(selectors: seq<Selector>, facts: seq<Fact>): set<(string, string)> {
    set f | f in facts && Owner(selectors, f).Some? && Owner(selectors, f).value.index < |selectors|
      :: (selectors[Owner(selectors, f).value.index].id, Owner(selectors, f).value.prefix)
  }

  function UsedSets(selectors: seq<Selector>, facts: seq<Fact>): set<(string, string)> {
    set f | f in facts && Owner(selectors, f).Some? && Owner(selectors, f).value.index < |selectors|
      :: (selectors[Owner(selectors, f).value.index].id, f.prerequisiteSet)
  }

  function Keep(id: string, values: seq<string>, used: set<(string, string)>): seq<string> {
    if values == [] then []
    else
      var n := |values| - 1;
      Keep(id, values[..n], used) + if (id, values[n]) in used then [values[n]] else []
  }

  function Trim(selector: Selector, prefixes: set<(string, string)>, sets: set<(string, string)>): Selector {
    Selector(selector.id, Keep(selector.id, selector.prefixes, prefixes),
             Keep(selector.id, selector.prerequisiteSets, sets))
  }

  function Retain(selectors: seq<Selector>, prefixes: set<(string, string)>, sets: set<(string, string)>)
    : seq<Selector>
  {
    if selectors == [] then []
    else
      var n := |selectors| - 1;
      var trimmed := Trim(selectors[n], prefixes, sets);
      Retain(selectors[..n], prefixes, sets) + if trimmed.prefixes == [] then [] else [trimmed]
  }

  function Prune(selectors: seq<Selector>, facts: seq<Fact>): seq<Selector> {
    Retain(selectors, UsedPrefixes(selectors, facts), UsedSets(selectors, facts))
  }

  // ----- The source's loops -----

  method KeepUsed(id: string, values: seq<string>, used: set<(string, string)>) returns (kept: seq<string>)
    ensures kept == Keep(id, values, used)
  {
    kept := [];
    for k := 0 to |values|
      invariant kept == Keep(id, values[..k], used)
    {
      assert values[..k + 1][..k] == values[..k];
      if (id, values[k]) in used {
        kept := kept + [values[k]];
      }
    }
    assert values[..|values|] == values;
  }

  /** The best candidate over all selectors that list the fact's set. */
  method FindBest(selectors: seq<Selector>, f: Fact) returns (best: Option<Entry>)
    ensures best == Owner(selectors, f)
  {
    var candidates: seq<Entry> := [];
    best := None;
    for i := 0 to |selectors|
      invariant candidates == Entries(selectors[..i], f.prerequisiteSet)
      invariant best == Best(candidates, f.path)
    {
      EntriesNext(selectors, i, f.prerequisiteSet);
      if f.prerequisiteSet in selectors[i].prerequisiteSets {
        var own := EntriesOf(i, selectors[i].prefixes);
        var before := candidates;
        for k := 0 to |selectors[i].prefixes|
          invariant candidates == before + own[..k]
          invariant best == Best(candidates, f.path)
        {
          assert own[..k + 1] == own[..k] + [own[k]];
          assert (candidates + [own[k]])[..|candidates|] == candidates;
          if own[k].prefix <= f.path && (best == None || |own[k].prefix| > |best.value.prefix|) {
            best := Some(own[k]);
          }
          candidates := candidates + [own[k]];
        }
        assert own[..|selectors[i].prefixes|] == own;
      }
    }
    assert selectors[..|selectors|] == selectors;
  }

  method PruneObservationSelectors(selectors: seq<Selector>, facts: seq<Fact>) returns (pruned: seq<Selector>)
    ensures pruned == Prune(selectors, facts)
  {
    var prefixes: set<(string, string)>, sets: set<(string, string)> := {}, {};
    for k := 0 to |facts|
      invariant prefixes == UsedPrefixes(selectors, facts[..k])
      invariant sets == UsedSets(selectors, facts[..k])
    {
      var entry := facts[k];
      assert facts[..k + 1] == facts[..k] + [entry];
      var best := FindBest(selectors, entry);
      if best.Some? {
        BestIsLongest(Entries(selectors, entry.prerequisiteSet), entry.path);
        EntriesMember(selectors, entry.prerequisiteSet, best.value);
        var id := selectors[best.value.index].id;
        prefixes := prefixes + {(id, best.value.prefix)};
        sets := sets + {(id, entry.prerequisiteSet)};
      }
    }
    assert facts[..|facts|] == facts;
    pruned := [];
    for i := 0 to |selectors|
      invariant pruned == Retain(selectors[..i], prefixes, sets)
    {
      assert selectors[..i + 1][..i] == selectors[..i];
      var kept := KeepUsed(selectors[i].id, selectors[i].prefixes, prefixes);
      var keptSets := KeepUsed(selectors[i].id, selectors[i].prerequisiteSets, sets);
      if |kept| > 0 {
        pruned := pruned + [Selector(selectors[i].id, kept, keptSets)];
      }
    }
    assert selectors[..|selectors|] == selectors;
  }

  // ----- Pruning keeps a sublist -----

  lemma {:induction false} KeepMember(id: string, values: seq<string>, used: set<(string, string)>, v: string)
    ensures v in Keep(id, values, used) <==> v in values && (id, v) in used
  {
    if values != [] {
      KeepMember(id, values[..|values| - 1], used, v);
    }
  }

  lemma {:induction false} KeepDistinct(id: string, values: seq<string>, used: set<(string, string)>)
    requires Distinct(values)
    ensures Distinct(Keep(id, values, used))
  {
    if values != [] {
      var n := |values| - 1;
      KeepDistinct(id, values[..n], used);
      KeepMember(id, values[..n], used, values[n]);
    }
  }

  /** Where a surviving selector comes from. */
  lemma {:induction false} RetainOrigin(selectors: seq<Selector>, prefixes: set<(string, string)>,
                                        sets: set<(string, string)>, k: nat) returns (i: nat)
    requires k < |Retain(selectors, prefixes, sets)|
    ensures i < |selectors| && Retain(selectors, prefixes, sets)[k] == Trim(selectors[i], prefixes, sets)
    ensures Retain(selectors, prefixes, sets)[k].prefixes != []
  {
    var n := |selectors| - 1;
    if k < |Retain(selectors[..n], prefixes, sets)| {
      i := RetainOrigin(selectors[..n], prefixes, sets, k);
    } else {
      i := n;
    }
  }

  /** Where a selector with a used prefix survives. */
  lemma {:induction false} RetainSurvivor(selectors: seq<Selector>, prefixes: set<(string, string)>,
                                          sets: set<(string, string)>, i: nat) returns (k: nat)
    requires i < |selectors| && Trim(selectors[i], prefixes, sets).prefixes != []
    ensures k < |Retain(selectors, prefixes, sets)|
    ensures Retain(selectors, prefixes, sets)[k] == Trim(selectors[i], prefixes, sets)
  {
    var n := |selectors| - 1;
    if i < n {
      k := RetainSurvivor(selectors[..n], prefixes, sets, i);
    } else {
      k := |Retain(selectors[..n], prefixes, sets)|;
    }
  }

  ghost predicate DistinctIds(selectors: seq<Selector>) {
    forall i, j | 0 <= i < j < |selectors| :: selectors[i].id != selectors[j].id
  }

  lemma {:induction false} RetainDistinctIds(selectors: seq<Selector>, prefixes: set<(string, string)>,
                                             sets: set<(string, string)>)
    requires DistinctIds(selectors)
    ensures DistinctIds(Retain(selectors, prefixes, sets))
  {
    if selectors != [] {
      var n := |selectors| - 1;
      RetainDistinctIds(selectors[..n], prefixes, sets);
      var init := Retain(selectors[..n], prefixes, sets);
      forall k | 0 <= k < |init| ensures init[k].id != selectors[n].id {
        var i := RetainOrigin(selectors[..n], prefixes, sets, k);
      }
    }
  }

  /** A kept candidate was a candidate before, so distinct prefixes stay distinct. */
  lemma {:induction false} RetainEntries(selectors: seq<Selector>, prefixes: set<(string, string)>,
                                         sets: set<(string, string)>, set': string)
    requires DistinctPrefixes(Entries(selectors, set'))
    ensures var kept := Entries(Retain(selectors, prefixes, sets), set');
      && DistinctPrefixes(kept)
      && forall e | e in kept :: exists o :: o in Entries(selectors, set') && o.prefix == e.prefix
  {
    if selectors != [] {
      var n := |selectors| - 1;
      var before := Entries(selectors[..n], set');
      assert Entries(selectors, set') == before + Entries(selectors, set')[|before|..];
      PartDistinct(before, Entries(selectors, set')[|before|..]);
      RetainEntries(selectors[..n], prefixes, sets, set');
      var trimmed := Trim(selectors[n], prefixes, sets);
      if trimmed.prefixes != [] {
        RetainEntriesStep(selectors, prefixes, sets, set');
      } else {
        assert Retain(selectors, prefixes, sets) == Retain(selectors[..n], prefixes, sets);
      }
    }
  }

  lemma TrimmedCandidates(last: Selector, n: nat, k: nat, prefixes: set<(string, string)>)
    requires DistinctPrefixes(EntriesOf(n, last.prefixes))
    ensures var own := EntriesOf(k, Keep(last.id, last.prefixes, prefixes));
      && DistinctPrefixes(own)
      && forall e | e in own :: exists o :: o in EntriesOf(n, last.prefixes) && o.prefix == e.prefix
  {
    var listed := EntriesOf(n, last.prefixes);
    var kept := Keep(last.id, last.prefixes, prefixes);
    assert Distinct(last.prefixes) by {
      forall i, j | 0 <= i < j < |last.prefixes| ensures last.prefixes[i] != last.prefixes[j] {
        assert listed[i].prefix != listed[j].prefix;
      }
    }
    KeepDistinct(last.id, last.prefixes, prefixes);
    forall e | e in EntriesOf(k, kept) ensures exists o :: o in listed && o.prefix == e.prefix {
      KeepMember(last.id, last.prefixes, prefixes, e.prefix);
      var m :| 0 <= m < |last.prefixes| && last.prefixes[m] == e.prefix;
      assert listed[m] in listed;
    }
  }

  lemma RetainEntriesStep(selectors: seq<Selector>, prefixes: set<(string, string)>,
                          sets: set<(string, string)>, set': string)
    requires selectors != [] && DistinctPrefixes(Entries(selectors, set'))
    requires var init := selectors[..|selectors| - 1];
      var kept := Entries(Retain(init, prefixes, sets), set');
      && DistinctPrefixes(kept)
      && forall e | e in kept :: exists o :: o in Entries(init, set') && o.prefix == e.prefix
    requires Trim(selectors[|selectors| - 1], prefixes, sets).prefixes != []
    ensures var kept := Entries(Retain(selectors, prefixes, sets), set');
      && DistinctPrefixes(kept)
      && forall e | e in kept :: exists o :: o in Entries(selectors, set') && o.prefix == e.prefix
  {
    var n := |selectors| - 1;
    var last, trimmed := selectors[n], Trim(selectors[n], prefixes, sets);
    var before := Entries(selectors[..n], set');
    var init, all := Retain(selectors[..n], prefixes, sets), Retain(selectors, prefixes, sets);
    assert all == init + [trimmed] && all[..|init|] == init;
    KeepMember(last.id, last.prerequisiteSets, sets, set');
    if set' in trimmed.prerequisiteSets {
      var listed := EntriesOf(n, last.prefixes);
      PartDistinct(before, listed);
      TrimmedCandidates(last, n, |init|, prefixes);
      JoinDistinct(before, listed, Entries(init, set'), EntriesOf(|init|, trimmed.prefixes));
    } else {
      assert Entries(all, set') == Entries(init, set');
    }
  }

  lemma PartDistinct(a: seq<Entry>, b: seq<Entry>)
    requires DistinctPrefixes(a + b)
    ensures DistinctPrefixes(a) && DistinctPrefixes(b)
  {
    assert forall i | 0 <= i < |a| :: (a + b)[i] == a[i];
    assert forall i | 0 <= i < |b| :: (a + b)[|a| + i] == b[i];
  }

  /** Two distinct lists that take their prefixes from two disjoint parts join to a distinct list. */
  lemma JoinDistinct(before: seq<Entry>, listed: seq<Entry>, kept: seq<Entry>, own: seq<Entry>)
    requires DistinctPrefixes(before + listed) && DistinctPrefixes(kept) && DistinctPrefixes(own)
    requires forall e | e in kept :: exists o :: o in before && o.prefix == e.prefix
    requires forall e | e in own :: exists o :: o in listed && o.prefix == e.prefix
    ensures DistinctPrefixes(kept + own)
    ensures forall e | e in kept + own :: exists o :: o in before + listed && o.prefix == e.prefix
  {
    forall a, b | a in before && b in listed ensures a.prefix != b.prefix {
      var i :| 0 <= i < |before| && before[i] == a;
      var j :| 0 <= j < |listed| && listed[j] == b;
      assert (before + listed)[i] == a && (before + listed)[|before| + j] == b;
    }
    forall i, j | 0 <= i < j < |kept + own| ensures (kept + own)[i].prefix != (kept + own)[j].prefix {
      if i < |kept| <= j {
        assert kept[i] in kept && own[j - |kept|] in own;
      }
    }
    forall e | e in kept + own ensures exists o :: o in before + listed && o.prefix == e.prefix {
      if e in kept {
        var o :| o in before && o.prefix == e.prefix;
        assert o in before + listed;
      } else {
        var o :| o in listed && o.prefix == e.prefix;
        assert o in before + listed;
      }
    }
  }

  // ----- No path moves -----

  /** The batch of a path, by identifier, and the prefix that selects it. */
  ghost predicate InBatch(selectors: seq<Selector>, f: Fact, id: string, prefix: string) {
    && Owner(selectors, f).Some?
    && Owner(selectors, f).value.index < |selectors|
    && selectors[Owner(selectors, f).value.index].id == id
    && Owner(selectors, f).value.prefix == prefix
  }

  lemma OwnedInBatch(selectors: seq<Selector>, f: Fact)
    requires Owner(selectors, f).Some?
    ensures var e := Owner(selectors, f).value;
      && e.index < |selectors|
      && InBatch(selectors, f, selectors[e.index].id, e.prefix)
      && f.prerequisiteSet in selectors[e.index].prerequisiteSets
      && e.prefix in selectors[e.index].prefixes
  {
    BestIsLongest(Entries(selectors, f.prerequisiteSet), f.path);
    EntriesMember(selectors, f.prerequisiteSet, Owner(selectors, f).value);
  }

  /** A remaining path keeps its batch and its selecting prefix. */
  lemma PruneKeepsBatch(selectors: seq<Selector>, facts: seq<Fact>, f: Fact)
    requires HeaderOk(selectors) && f in facts && Owner(selectors, f).Some?
    ensures var e := Owner(selectors, f).value;
      e.index < |selectors| && InBatch(Prune(selectors, facts), f, selectors[e.index].id, e.prefix)
  {
    var e := Owner(selectors, f).value;
    var prefixes, sets := UsedPrefixes(selectors, facts), UsedSets(selectors, facts);
    OwnedInBatch(selectors, f);
    var selector := selectors[e.index];
    KeepMember(selector.id, selector.prefixes, prefixes, e.prefix);
    KeepMember(selector.id, selector.prerequisiteSets, sets, f.prerequisiteSet);
    var k := RetainSurvivor(selectors, prefixes, sets, e.index);
    var pruned := Prune(selectors, facts);
    var own := Entry(k, e.prefix);
    EntriesMember(pruned, f.prerequisiteSet, own);
    RetainEntries(selectors, prefixes, sets, f.prerequisiteSet);
    BestIsLongest(Entries(selectors, f.prerequisiteSet), f.path);
    forall q | q in Entries(pruned, f.prerequisiteSet) && q.prefix <= f.path ensures |q.prefix| <= |e.prefix| {
      var o :| o in Entries(selectors, f.prerequisiteSet) && o.prefix == q.prefix;
    }
    BestIsUnique(Entries(pruned, f.prerequisiteSet), f.path, own);
  }

  lemma UsedPrefixOrigin(selectors: seq<Selector>, facts: seq<Fact>, id: string, p: string) returns (f: Fact)
    requires (id, p) in UsedPrefixes(selectors, facts)
    ensures f in facts && InBatch(selectors, f, id, p)
  {
    f :| f in facts && Owner(selectors, f).Some? && Owner(selectors, f).value.index < |selectors|
      && (selectors[Owner(selectors, f).value.index].id, Owner(selectors, f).value.prefix) == (id, p);
  }

  lemma UsedSetOrigin(selectors: seq<Selector>, facts: seq<Fact>, id: string, s: string)
    returns (f: Fact, p: string)
    requires (id, s) in UsedSets(selectors, facts)
    ensures f in facts && f.prerequisiteSet == s && InBatch(selectors, f, id, p)
  {
    f :| f in facts && Owner(selectors, f).Some? && Owner(selectors, f).value.index < |selectors|
      && (selectors[Owner(selectors, f).value.index].id, f.prerequisiteSet) == (id, s);
    p := Owner(selectors, f).value.prefix;
  }

  /** A batch of distinct identifier is found at its own position. */
  lemma BatchPosition(selectors: seq<Selector>, f: Fact, k: nat, p: string)
    requires DistinctIds(selectors) && k < |selectors| && InBatch(selectors, f, selectors[k].id, p)
    ensures Owner(selectors, f) == Some(Entry(k, p))
  {
    var i := Owner(selectors, f).value.index;
    assert i == k;
  }

  /** A pruned selector, the selector it comes from, and what it kept. */
  lemma PrunedOrigin(selectors: seq<Selector>, facts: seq<Fact>, k: nat) returns (i: nat)
    requires HeaderOk(selectors) && k < |Prune(selectors, facts)|
    ensures i < |selectors| && Prune(selectors, facts)[k].id == selectors[i].id
    ensures Prune(selectors, facts)[k].prefixes != []
    ensures forall p :: p in Prune(selectors, facts)[k].prefixes <==>
      p in selectors[i].prefixes && (selectors[i].id, p) in UsedPrefixes(selectors, facts)
    ensures forall s :: s in Prune(selectors, facts)[k].prerequisiteSets <==>
      s in selectors[i].prerequisiteSets && (selectors[i].id, s) in UsedSets(selectors, facts)
    ensures Distinct(Prune(selectors, facts)[k].prerequisiteSets)
    ensures DistinctIds(Prune(selectors, facts))
  {
    var prefixes, sets := UsedPrefixes(selectors, facts), UsedSets(selectors, facts);
    i := RetainOrigin(selectors, prefixes, sets, k);
    RetainDistinctIds(selectors, prefixes, sets);
    var id := selectors[i].id;
    forall p ensures p in Keep(id, selectors[i].prefixes, prefixes) <==>
      p in selectors[i].prefixes && (id, p) in prefixes
    {
      KeepMember(id, selectors[i].prefixes, prefixes, p);
    }
    forall s ensures s in Keep(id, selectors[i].prerequisiteSets, sets) <==>
      s in selectors[i].prerequisiteSets && (id, s) in sets
    {
      KeepMember(id, selectors[i].prerequisiteSets, sets, s);
    }
    assert SelectorOk(selectors[i]);
    KeepDistinct(id, selectors[i].prerequisiteSets, sets);
  }

  /** What remains after pruning is used by some remaining path. */
  lemma PruneLeavesNothingIdle(selectors: seq<Selector>, facts: seq<Fact>, k: nat)
    requires HeaderOk(selectors) && AllOwned(selectors, facts)
    requires k < |Prune(selectors, facts)|
    ensures var pruned := Prune(selectors, facts);
      && (forall p | p in pruned[k].prefixes :: UsesPrefix(pruned, facts, Entry(k, p)))
      && (forall s | s in pruned[k].prerequisiteSets :: UsesSet(pruned, facts, k, s))
  {
    var pruned := Prune(selectors, facts);
    var i := PrunedOrigin(selectors, facts, k);
    var id := selectors[i].id;
    forall p | p in pruned[k].prefixes ensures UsesPrefix(pruned, facts, Entry(k, p)) {
      var f := UsedPrefixOrigin(selectors, facts, id, p);
      PruneKeepsBatch(selectors, facts, f);
      BatchPosition(pruned, f, k, p);
    }
    forall s | s in pruned[k].prerequisiteSets ensures UsesSet(pruned, facts, k, s) {
      var f, p := UsedSetOrigin(selectors, facts, id, s);
      PruneKeepsBatch(selectors, facts, f);
      BatchPosition(pruned, f, k, p);
      assert OwnedBy(pruned, f, k);
    }
  }

  lemma PrunedSelectorOk(selectors: seq<Selector>, facts: seq<Fact>, k: nat)
    requires HeaderOk(selectors) && AllOwned(selectors, facts)
    requires k < |Prune(selectors, facts)|
    ensures IsBatchId(Prune(selectors, facts)[k].id) && SelectorOk(Prune(selectors, facts)[k])
  {
    var pruned := Prune(selectors, facts);
    var i := PrunedOrigin(selectors, facts, k);
    assert SelectorOk(selectors[i]);
    PruneLeavesNothingIdle(selectors, facts, k);
    assert UsesPrefix(pruned, facts, Entry(k, pruned[k].prefixes[0]));
    var f :| f in facts && Owner(pruned, f) == Some(Entry(k, pruned[k].prefixes[0]));
    OwnedInBatch(pruned, f);
  }

  lemma PruneHeaderOk(selectors: seq<Selector>, facts: seq<Fact>)
    requires HeaderOk(selectors) && AllOwned(selectors, facts)
    ensures HeaderOk(Prune(selectors, facts))
  {
    var prefixes, sets := UsedPrefixes(selectors, facts), UsedSets(selectors, facts);
    var pruned := Prune(selectors, facts);
    RetainDistinctIds(selectors, prefixes, sets);
    forall s ensures DistinctPrefixes(Entries(pruned, s)) {
      RetainEntries(selectors, prefixes, sets, s);
    }
    forall k | 0 <= k < |pruned| ensures IsBatchId(pruned[k].id) && SelectorOk(pruned[k]) {
      PrunedSelectorOk(selectors, facts, k);
    }
  }

  /**
   Pruned to any list of still selected paths, the selectors are accepted again, and every
   path stays in the batch with the same identifier, selected by the same prefix.
   */
  lemma PruneMovesNoPath(selectors: seq<Selector>, facts: seq<Fact>)
    requires HeaderOk(selectors) && AllOwned(selectors, facts)
    ensures Accepts(Prune(selectors, facts), facts)
    ensures forall f | f in facts ::
      var e := Owner(selectors, f).value;
      e.index < |selectors| && InBatch(Prune(selectors, facts), f, selectors[e.index].id, e.prefix)
  {
    PruneHeaderOk(selectors, facts);
    forall f | f in facts
      ensures var e := Owner(selectors, f).value;
        e.index < |selectors| && InBatch(Prune(selectors, facts), f, selectors[e.index].id, e.prefix)
    {
      PruneKeepsBatch(selectors, facts, f);
    }
    forall k | 0 <= k < |Prune(selectors, facts)|
      ensures var pruned := Prune(selectors, facts);
        && (forall p | p in pruned[k].prefixes :: UsesPrefix(pruned, facts, Entry(k, p)))
        && (forall s | s in pruned[k].prerequisiteSets :: UsesSet(pruned, facts, k, s))
    {
      PruneLeavesNothingIdle(selectors, facts, k);
    }
  }
}
