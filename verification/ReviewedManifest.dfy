/**
 The reviewed result manifest (tools/test262-manifest.ts): records grouped into partitions by
 group and key, and read back. A serialized document is the tree it is written from; the group
 and the hash key of a path are parameters.
 */
module ReviewedManifest {
  import opened Basics
  import opened CodeUnits
  import opened Parts
  import opened PathLists
  import opened Sorting

  /** `valid` tells whether the record's own fields pass their checks; `detail` is all they hold. */
  datatype Record = Record(path: string, detail: string, valid: bool)

  datatype Place = Place(group: string, key: string)

  /** Where a path's record belongs, and the summary that an index must repeat. */
  datatype Scheme = Scheme(place: string -> Place, summarize: seq<Record> -> string)

  datatype Manifest = Manifest(results: seq<Record>, suiteRevision: string)

  datatype Partition = Partition(place: Place, suiteRevision: string, results: seq<Record>)

  datatype Index = Index(references: seq<(Place, string)>, suiteRevision: string, summary: string)

  datatype Serialized = Serialized(index: Index, partitions: seq<Partition>)

  // ----- Names of partitions -----

  predicate ValidSegment(s: string) {
    s != "" && s != "." && s != ".." && '\\' !in s && '/' !in s
  }

  /** Two segments with one slash between them. */
  predicate ValidGroup(group: string) {
    exists i | 0 <= i < |group| :: group[i] == '/' && ValidSegment(group[..i]) && ValidSegment(group[i + 1..])
  }

  predicate IsHex(c: char) {
    '0' <= c <= '9' || 'a' <= c <= 'f'
  }

  predicate ValidKey(key: string) {
    |key| == 2 && IsHex(key[0]) && IsHex(key[1])
  }

  function PartitionPath(p: Place): string {
    "results/" + p.group + ("/" + p.key + ".yaml")
  }

  /** Keys have one length, so a partition's path tells its group and its key. */
  lemma PathTellsPlace(p: Place, q: Place)
    requires |p.key| == |q.key| && PartitionPath(p) == PartitionPath(q)
    ensures p == q
  {
    var root := "results/";
    var a, b := "/" + p.key + ".yaml", "/" + q.key + ".yaml";
    SplitSame(root + p.group, a, root + q.group, b);
    assert (root + p.group)[|root|..] == p.group && (root + q.group)[|root|..] == q.group;
    SplitSame("/" + p.key, ".yaml", "/" + q.key, ".yaml");
    assert ("/" + p.key)[1..] == p.key && ("/" + q.key)[1..] == q.key;
  }

  lemma SplitSame(a: string, x: string, b: string, y: string)
    requires a + x == b + y && |x| == |y|
    ensures a == b && x == y
  {
    assert |a| == |b|;
    assert (a + x)[..|a|] == a && (b + y)[..|b|] == b;
    assert (a + x)[|a|..] == x && (b + y)[|b|..] == y;
  }

  /** A path, cut at its slashes. */
  function Segments(path: string): (r: seq<string>)
    ensures r != []
  {
    if path == [] then [""]
    else
      var r, c := Segments(path[..|path| - 1]), path[|path| - 1];
      if c == '/' then r + [""] else r[..|r| - 1] + [r[|r| - 1] + [c]]
  }

  /** A path is what is before its last slash, if there is one, and its last segment. */
  ghost predicate Cuts(path: string, r: seq<string>, rest: string) {
    && r != [] && '/' !in r[|r| - 1]
    && (if |r| == 1 then path == r[0] else path == rest + "/" + r[|r| - 1] && Segments(rest) == r[..|r| - 1])
  }

  lemma CutsLonger(init: string, c: char, r: seq<string>, rest: string)
    requires Cuts(init, r, rest) && c != '/'
    ensures Cuts(init + [c], r[..|r| - 1] + [r[|r| - 1] + [c]], rest)
  {
    var last := r[|r| - 1];
    assert rest + "/" + (last + [c]) == rest + "/" + last + [c];
  }

  lemma {:induction false} LastSegment(path: string) returns (rest: string)
    ensures Cuts(path, Segments(path), rest)
  {
    rest := "";
    if path != [] {
      var init, c := path[..|path| - 1], path[|path| - 1];
      assert path == init + [c];
      if c == '/' {
        rest := init;
      } else {
        rest := LastSegment(init);
        CutsLonger(init, c, Segments(init), rest);
      }
    }
  }

  lemma {:induction false} SegmentsAppend(rest: string, last: string)
    requires '/' !in last
    ensures Segments(rest + "/" + last) == Segments(rest) + [last]
  {
    var path := rest + "/" + last;
    if last == [] {
      assert path[..|path| - 1] == rest;
    } else {
      var init, c := last[..|last| - 1], last[|last| - 1];
      SegmentsAppend(rest, init);
      assert path[..|path| - 1] == rest + "/" + init;
      assert last == init + [c];
    }
  }

  lemma {:induction false} OneSegment(s: string)
    requires '/' !in s
    ensures Segments(s) == [s]
  {
    if s != [] {
      OneSegment(s[..|s| - 1]);
      assert s == s[..|s| - 1] + [s[|s| - 1]];
    }
  }

  lemma FourSegments(w: string, x: string, y: string, z: string)
    requires '/' !in w && '/' !in x && '/' !in y && '/' !in z
    ensures Segments(w + "/" + x + "/" + y + "/" + z) == [w, x, y, z]
  {
    OneSegment(w);
    SegmentsAppend(w, x);
    SegmentsAppend(w + "/" + x, y);
    SegmentsAppend(w + "/" + x + "/" + y, z);
  }

  lemma OnlyFourSegments(path: string)
    requires |Segments(path)| == 4
    ensures var r := Segments(path);
      && (forall i | 0 <= i < 4 :: '/' !in r[i])
      && path == r[0] + "/" + r[1] + "/" + r[2] + "/" + r[3]
  {
    var three := LastSegment(path);
    var two := LastSegment(three);
    var one := LastSegment(two);
    var zero := LastSegment(one);
  }

  /** A segment that names something below its directory. */
  ghost predicate NamesChild(segment: string) {
    segment !in {"", ".", ".."} && '\\' !in segment
  }

  ghost predicate NamesFile(segment: string) {
    && |segment| == 7 && segment[2..] == ".yaml"
    && segment[0] in "0123456789abcdef" && segment[1] in "0123456789abcdef"
  }

  /** Two directories below the results, and a file named by two hexadecimal digits. */
  ghost predicate BelowResults(path: string) {
    var r := Segments(path);
    |r| == 4 && r[0] == "results" && NamesChild(r[1]) && NamesChild(r[2]) && NamesFile(r[3])
  }

  lemma HexIff(c: char)
    ensures IsHex(c) <==> c in "0123456789abcdef"
  {
    assert IsHex(c) ==> c == "0123456789abcdef"[if c <= '9' then c as int - '0' as int else c as int - 'a' as int + 10];
  }

  lemma JoinsFour(root: string, w: string, x: string, y: string, key: string, ending: string)
    requires root == w + "/"
    ensures root + (x + "/" + y) + ("/" + key + ending) == w + "/" + x + "/" + y + "/" + (key + ending)
  {}

  lemma PathJoins(p: Place, x: string, y: string)
    requires p.group == x + "/" + y
    ensures PartitionPath(p) == "results" + "/" + x + "/" + y + "/" + (p.key + ".yaml")
  {
    JoinsFour("results/", "results", x, y, p.key, ".yaml");
  }

  lemma FileIsNamed(key: string)
    requires ValidKey(key)
    ensures NamesFile(key + ".yaml") && '/' !in key + ".yaml"
  {
    HexIff(key[0]);
    HexIff(key[1]);
  }

  lemma NoSlash()
    ensures '/' !in "results"
  {}

  lemma GroupSplits(group: string) returns (x: string, y: string)
    requires ValidGroup(group)
    ensures group == x + "/" + y && NamesChild(x) && NamesChild(y) && '/' !in x && '/' !in y
  {
    var i :| 0 <= i < |group| && group[i] == '/' && ValidSegment(group[..i]) && ValidSegment(group[i + 1..]);
    x, y := group[..i], group[i + 1..];
  }

  lemma ListedIsBelow(path: string, x: string, y: string, file: string)
    requires Segments(path) == ["results", x, y, file] && NamesChild(x) && NamesChild(y) && NamesFile(file)
    ensures BelowResults(path)
  {}

  lemma PlaceIsBelow(p: Place)
    requires ValidGroup(p.group) && ValidKey(p.key)
    ensures BelowResults(PartitionPath(p))
  {
    var x, y := GroupSplits(p.group);
    PathJoins(p, x, y);
    FileIsNamed(p.key);
    NoSlash();
    FourSegments("results", x, y, p.key + ".yaml");
    ListedIsBelow(PartitionPath(p), x, y, p.key + ".yaml");
  }

  lemma BelowIsPlace(path: string) returns (p: Place)
    requires BelowResults(path)
    ensures ValidGroup(p.group) && ValidKey(p.key) && PartitionPath(p) == path
  {
    var r := Segments(path);
    OnlyFourSegments(path);
    HexIff(r[3][0]);
    HexIff(r[3][1]);
    p := Place(r[1] + "/" + r[2], r[3][..2]);
    assert p.group[..|r[1]|] == r[1] && p.group[|r[1]| + 1..] == r[2] && p.group[|r[1]|] == '/';
    assert r[3] == p.key + ".yaml";
    PathJoins(p, r[1], r[2]);
  }

  /** The paths of partitions are exactly the paths of such files, none of which leads out of the results. */
  lemma PartitionPathIff(path: string)
    ensures (exists p: Place :: ValidGroup(p.group) && ValidKey(p.key) && PartitionPath(p) == path)
      <==> BelowResults(path)
  {
    if p: Place :| ValidGroup(p.group) && ValidKey(p.key) && PartitionPath(p) == path {
      PlaceIsBelow(p);
    }
    if BelowResults(path) {
      var p := BelowIsPlace(path);
    }
  }

  // ----- Order and uniqueness of records -----

  function PathsOf(records: seq<Record>): (r: seq<string>)
    ensures |r| == |records|
  {
    seq(|records|, i requires 0 <= i < |records| => records[i].path)
  }

  /** Sorted by path without repetition. */
  ghost predicate Ascending(records: seq<Record>) {
    forall i, j | 0 <= i < j < |records| :: Less(records[i].path, records[j].path)
  }

  predicate ByPath(a: Record, b: Record) {
    Less(a.path, b.path)
  }

  /** Among the same records only one list is strictly ascending, and sorting finds it. */
  lemma {:induction false} SortedIsAscending(sorted: seq<Record>, ascending: seq<Record>)
    requires Sorted(ByPath, sorted) && Ascending(ascending) && multiset(sorted) == multiset(ascending)
    ensures sorted == ascending
    decreases |sorted|
  {
    assert |multiset(sorted)| == |multiset(ascending)|;
    if sorted != [] {
      SameFirstRecord(sorted, ascending);
      SortedIsAscending(sorted[1..], ascending[1..]);
      assert sorted == [sorted[0]] + sorted[1..] && ascending == [ascending[0]] + ascending[1..];
    }
  }

  lemma SameFirstRecord(sorted: seq<Record>, ascending: seq<Record>)
    requires Sorted(ByPath, sorted) && Ascending(ascending) && multiset(sorted) == multiset(ascending)
    requires sorted != [] && ascending != []
    ensures sorted[0] == ascending[0] && multiset(sorted[1..]) == multiset(ascending[1..])
  {
    SameMembers(sorted, ascending);
    FirstIsLeast(sorted, ascending);
    assert sorted == [sorted[0]] + sorted[1..] && ascending == [ascending[0]] + ascending[1..];
    assert multiset(sorted[1..]) == multiset(sorted) - multiset{sorted[0]};
    assert multiset(ascending[1..]) == multiset(ascending) - multiset{ascending[0]};
  }

  lemma FirstIsLeast(sorted: seq<Record>, ascending: seq<Record>)
    requires Sorted(ByPath, sorted) && Ascending(ascending) && sorted != [] && ascending != []
    requires forall r :: r in sorted <==> r in ascending
    ensures sorted[0] == ascending[0]
  {
    assert sorted[0] in ascending && ascending[0] in sorted;
    var i :| 0 <= i < |ascending| && ascending[i] == sorted[0];
    var j :| 0 <= j < |sorted| && sorted[j] == ascending[0];
    if i > 0 {
      assert Less(ascending[0].path, ascending[i].path);
      assert ByPath(sorted[j], sorted[0]);
      if j == 0 {
        LessIrreflexive(sorted[0].path);
      }
      assert false;
    }
  }

  // ----- Grouping records into partitions -----

  function Lists(parts: seq<Partition>): (r: seq<seq<Record>>)
    ensures |r| == |parts|
  {
    seq(|parts|, i requires 0 <= i < |parts| => parts[i].results)
  }

  /** The partition of a place, or the number of partitions. */
  function Find(parts: seq<Partition>, place: Place): (i: nat)
    ensures i <= |parts| && (i < |parts| ==> parts[i].place == place)
    ensures i == |parts| ==> forall k | 0 <= k < |parts| :: parts[k].place != place
  {
    if parts == [] || parts[0].place == place then 0
    else
      assert forall k | 1 <= k < |parts| :: parts[k] == parts[1..][k - 1];
      1 + Find(parts[1..], place)
  }

  function AddRecord(parts: seq<Partition>, place: Place, revision: string, r: Record): seq<Partition> {
    var i := Find(parts, place);
    if i < |parts| then parts[i := parts[i].(results := parts[i].results + [r])]
    else parts + [Partition(place, revision, [r])]
  }

  function Grouped(scheme: Scheme, revision: string, results: seq<Record>): seq<Partition> {
    if results == [] then []
    else
      var r := results[|results| - 1];
      AddRecord(Grouped(scheme, revision, results[..|results| - 1]), scheme.place(r.path), revision, r)
  }

  ghost predicate HoldsPlaced(scheme: Scheme, revision: string, p: Partition) {
    && p.suiteRevision == revision && p.results != [] && Ascending(p.results)
    && forall r | r in p.results :: scheme.place(r.path) == p.place
  }

  /** One partition for each place, holding that place's records in order. */
  ghost predicate Groups(scheme: Scheme, revision: string, parts: seq<Partition>, results: seq<Record>) {
    && DistinctPlaces(parts)
    && (forall i | 0 <= i < |parts| :: HoldsPlaced(scheme, revision, parts[i]))
    && AllOf(Lists(parts)) == multiset(results)
  }

  lemma ListsPush(parts: seq<Partition>, i: nat, r: Record)
    requires i < |parts|
    ensures Lists(parts[i := parts[i].(results := parts[i].results + [r])]) == Push(Lists(parts), i, r)
  {}

  lemma ListsAppend(parts: seq<Partition>, p: Partition)
    ensures Lists(parts + [p]) == Lists(parts) + [p.results]
  {}

  lemma AddKeepsCounts(parts: seq<Partition>, place: Place, revision: string, r: Record)
    ensures AllOf(Lists(AddRecord(parts, place, revision, r))) == AllOf(Lists(parts)) + multiset{r}
  {
    var i := Find(parts, place);
    if i < |parts| {
      ListsPush(parts, i, r);
      PushAdds(Lists(parts), i, r);
    } else {
      var p := Partition(place, revision, [r]);
      ListsAppend(parts, p);
      var lists := Lists(parts + [p]);
      assert lists[..|lists| - 1] == Lists(parts);
    }
  }

  lemma AppendAscending(results: seq<Record>, r: Record)
    requires Ascending(results) && forall q | q in results :: Less(q.path, r.path)
    ensures Ascending(results + [r])
  {}

  lemma AddKeepsPlaced(scheme: Scheme, revision: string, parts: seq<Partition>, r: Record, i: nat)
    requires forall k | 0 <= k < |parts| :: HoldsPlaced(scheme, revision, parts[k])
    requires forall k, q | 0 <= k < |parts| && q in parts[k].results :: Less(q.path, r.path)
    requires i < |AddRecord(parts, scheme.place(r.path), revision, r)|
    ensures HoldsPlaced(scheme, revision, AddRecord(parts, scheme.place(r.path), revision, r)[i])
  {
    var at := Find(parts, scheme.place(r.path));
    if at < |parts| && i == at {
      AppendAscending(parts[i].results, r);
    }
  }

  ghost predicate DistinctPlaces(parts: seq<Partition>) {
    forall i, j | 0 <= i < j < |parts| :: parts[i].place != parts[j].place
  }

  lemma AddKeepsDistinct(parts: seq<Partition>, place: Place, revision: string, r: Record)
    requires DistinctPlaces(parts)
    ensures DistinctPlaces(AddRecord(parts, place, revision, r))
  {}

  lemma AddKeepsGroups(scheme: Scheme, revision: string, parts: seq<Partition>, init: seq<Record>, r: Record)
    requires Groups(scheme, revision, parts, init) && forall q | q in init :: Less(q.path, r.path)
    ensures Groups(scheme, revision, AddRecord(parts, scheme.place(r.path), revision, r), init + [r])
  {
    AddKeepsDistinct(parts, scheme.place(r.path), revision, r);
    AddKeepsCounts(parts, scheme.place(r.path), revision, r);
    forall k, q | 0 <= k < |parts| && q in parts[k].results ensures Less(q.path, r.path) {
      HeldInLists(parts, init, k, q);
    }
    var now := AddRecord(parts, scheme.place(r.path), revision, r);
    forall i | 0 <= i < |now| ensures HoldsPlaced(scheme, revision, now[i]) {
      AddKeepsPlaced(scheme, revision, parts, r, i);
    }
  }

  lemma {:induction false} GroupedGroups(scheme: Scheme, revision: string, results: seq<Record>)
    requires Ascending(results)
    ensures Groups(scheme, revision, Grouped(scheme, revision, results), results)
  {
    if results != [] {
      var init, r := results[..|results| - 1], results[|results| - 1];
      GroupedGroups(scheme, revision, init);
      assert results == init + [r];
      AddKeepsGroups(scheme, revision, Grouped(scheme, revision, init), init, r);
    }
  }

  lemma HeldInLists(parts: seq<Partition>, results: seq<Record>, k: nat, q: Record)
    requires AllOf(Lists(parts)) == multiset(results) && k < |parts| && q in parts[k].results
    ensures q in results
  {
    assert q in Lists(parts)[k];
    HeldSomewhere(Lists(parts), q);
    assert q in multiset(results);
  }

  // ----- Writing -----

  predicate InPathOrder(a: Partition, b: Partition) {
    Less(PartitionPath(a.place), PartitionPath(b.place))
  }

  function References(parts: seq<Partition>): (r: seq<(Place, string)>)
    ensures |r| == |parts|
  {
    seq(|parts|, i requires 0 <= i < |parts| => (parts[i].place, PartitionPath(parts[i].place)))
  }

  function Written(scheme: Scheme, m: Manifest): Serialized {
    var parts := Sort(InPathOrder, Grouped(scheme, m.suiteRevision, m.results));
    Serialized(Index(References(parts), m.suiteRevision, scheme.summarize(m.results)), parts)
  }

  predicate Locatable(scheme: Scheme, r: Record) {
    "test/" <= r.path && ValidGroup(scheme.place(r.path).group)
  }

  datatype Outcome<+T> = Done(value: T) | Unsorted | Repeated | Misplaced | BadReference | BadPartition | WrongSummary

  /** Group the records; refused unless they are sorted, unique, and have a group. */
  method SerializeManifest(scheme: Scheme, m: Manifest) returns (r: Outcome<Serialized>)
    ensures r.Done? <==> Ascending(m.results) && forall q | q in m.results :: Locatable(scheme, q)
    ensures r.Done? ==> r.value == Written(scheme, m)
    ensures r.Unsorted? <==> !Ascending(m.results)
    ensures r.Done? || r.Unsorted? || r.Misplaced?
  {
    var ascending := IsAscending(m.results);
    if !ascending {
      return Unsorted;
    }
    var parts: seq<Partition> := [];
    for i := 0 to |m.results|
      invariant parts == Grouped(scheme, m.suiteRevision, m.results[..i])
      invariant forall k | 0 <= k < i :: Locatable(scheme, m.results[k])
    {
      assert m.results[..i + 1][..i] == m.results[..i];
      var q := m.results[i];
      if !Locatable(scheme, q) {
        assert q in m.results;
        return Misplaced;
      }
      parts := AddRecord(parts, scheme.place(q.path), m.suiteRevision, q);
    }
    assert m.results[..|m.results|] == m.results;
    parts := Sort(InPathOrder, parts);
    r := Done(Serialized(Index(References(parts), m.suiteRevision, scheme.summarize(m.results)), parts));
  }

  /** Sorted and without repetition: each path precedes the next. */
  method IsAscending(records: seq<Record>) returns (b: bool)
    ensures b <==> Ascending(records)
  {
    for i := 0 to |records|
      invariant Ascending(records[..i])
    {
      if i > 0 && !Less(records[i - 1].path, records[i].path) {
        return false;
      }
      assert records[..i + 1] == records[..i] + [records[i]];
      forall q | q in records[..i] ensures Less(q.path, records[i].path) {
        var k :| 0 <= k < i && records[k] == q;
        if k < i - 1 {
          assert records[..i][k] == q && records[..i][i - 1] == records[i - 1];
          LessTransitive(q.path, records[i - 1].path, records[i].path);
        }
      }
      AppendAscending(records[..i], records[i]);
    }
    assert records[..|records|] == records;
    b := true;
  }

  // ----- Reading -----

  predicate ReferenceOk(reference: (Place, string)) {
    && ValidGroup(reference.0.group) && ValidKey(reference.0.key)
    && reference.1 == PartitionPath(reference.0)
  }

  ghost predicate PathsStrict(references: seq<(Place, string)>, n: nat)
    requires n <= |references|
  {
    forall j, k | 0 <= j < k < n :: Less(references[j].1, references[k].1)
  }

  /** References are well formed, sorted by path, and not repeated. */
  ghost predicate ReferencesOk(references: seq<(Place, string)>) {
    && (forall i | 0 <= i < |references| :: ReferenceOk(references[i]))
    && PathsStrict(references, |references|)
  }

  predicate RecordOk(scheme: Scheme, place: Place, r: Record) {
    "test/" <= r.path && scheme.place(r.path) == place && r.valid
  }

  ghost predicate PartitionOk(scheme: Scheme, index: Index, i: nat, files: map<string, Partition>)
    requires i < |index.references|
  {
    var reference := index.references[i];
    && reference.1 in files
    && var p := files[reference.1];
       && p.place == reference.0 && p.suiteRevision == index.suiteRevision
       && (forall r | r in p.results :: RecordOk(scheme, p.place, r)) && Ascending(p.results)
  }

  /** The records of the first `n` referenced files, in index order. */
  function Joined(references: seq<(Place, string)>, files: map<string, Partition>, n: nat): seq<Record>
    requires n <= |references|
  {
    if n == 0 then []
    else
      Joined(references, files, n - 1) +
      if references[n - 1].1 in files then files[references[n - 1].1].results else []
  }

  /** An index and its files describe a manifest. */
  ghost predicate Describes(scheme: Scheme, index: Index, files: map<string, Partition>, m: Manifest) {
    && ReferencesOk(index.references)
    && (forall i | 0 <= i < |index.references| :: PartitionOk(scheme, index, i, files))
    && m.results == Sort(ByPath, Joined(index.references, files, |index.references|))
    && Distinct(PathsOf(m.results))
    && m.suiteRevision == index.suiteRevision && index.summary == scheme.summarize(m.results)
  }

  method CheckEach(references: seq<(Place, string)>) returns (ok: bool)
    ensures ok <==> forall i | 0 <= i < |references| :: ReferenceOk(references[i])
  {
    for i := 0 to |references|
      invariant forall k | 0 <= k < i :: ReferenceOk(references[k])
    {
      if !ReferenceOk(references[i]) {
        return false;
      }
    }
    ok := true;
  }

  lemma StrictNext(references: seq<(Place, string)>, n: nat)
    requires n < |references| && PathsStrict(references, n)
    ensures PathsStrict(references, n + 1) <==> n == 0 || Less(references[n - 1].1, references[n].1)
  {
    if n > 0 && Less(references[n - 1].1, references[n].1) {
      forall j | 0 <= j < n - 1 ensures Less(references[j].1, references[n].1) {
        LessTransitive(references[j].1, references[n - 1].1, references[n].1);
      }
    }
  }

  method CheckStrict(references: seq<(Place, string)>) returns (ok: bool)
    ensures ok <==> PathsStrict(references, |references|)
  {
    for i := 0 to |references|
      invariant PathsStrict(references, i)
    {
      StrictNext(references, i);
      if i > 0 && !Less(references[i - 1].1, references[i].1) {
        return false;
      }
    }
    ok := true;
  }

  method CheckReferences(references: seq<(Place, string)>) returns (ok: bool)
    ensures ok <==> ReferencesOk(references)
  {
    ok := CheckEach(references);
    if ok {
      ok := CheckStrict(references);
    }
  }

  method CheckPartition(scheme: Scheme, index: Index, i: nat, files: map<string, Partition>) returns (ok: bool)
    requires i < |index.references|
    ensures ok <==> PartitionOk(scheme, index, i, files)
  {
    var reference := index.references[i];
    if reference.1 !in files {
      return false;
    }
    var p := files[reference.1];
    if p.place != reference.0 || p.suiteRevision != index.suiteRevision {
      return false;
    }
    var ascending := IsAscending(p.results);
    ok := ascending && forall r | r in p.results :: RecordOk(scheme, p.place, r);
  }

  method ReadPartitions(scheme: Scheme, index: Index, files: map<string, Partition>)
    returns (ok: bool, results: seq<Record>)
    ensures ok <==> forall i | 0 <= i < |index.references| :: PartitionOk(scheme, index, i, files)
    ensures ok ==> results == Joined(index.references, files, |index.references|)
  {
    results := [];
    for i := 0 to |index.references|
      invariant forall k | 0 <= k < i :: PartitionOk(scheme, index, k, files)
      invariant results == Joined(index.references, files, i)
    {
      ok := CheckPartition(scheme, index, i, files);
      if !ok {
        return;
      }
      results := results + files[index.references[i].1].results;
    }
    ok := true;
  }

  /** What each refusal says is the case, in the order of the checks. */
  ghost predicate RefusedFor(scheme: Scheme, index: Index, files: map<string, Partition>, r: Outcome<Manifest>) {
    var n := |index.references|;
    var partitionsOk := forall i | 0 <= i < n :: PartitionOk(scheme, index, i, files);
    var records := Sort(ByPath, Joined(index.references, files, n));
    match r
    case BadReference => !ReferencesOk(index.references)
    case BadPartition => ReferencesOk(index.references) && !partitionsOk
    case Repeated => ReferencesOk(index.references) && partitionsOk && !Distinct(PathsOf(records))
    case WrongSummary =>
      && ReferencesOk(index.references) && partitionsOk && Distinct(PathsOf(records))
      && index.summary != scheme.summarize(records)
    case Done(_) => true
    case _ => false
  }

  /** Read the index and all of its partitions; accepted exactly when they describe a manifest. */
  method ParseReviewedManifest(scheme: Scheme, index: Index, files: map<string, Partition>)
    returns (r: Outcome<Manifest>)
    ensures r.Done? ==> Describes(scheme, index, files, r.value)
    ensures !r.Done? ==> forall m :: !Describes(scheme, index, files, m)
    ensures RefusedFor(scheme, index, files, r)
  {
    var ok := CheckReferences(index.references);
    if !ok {
      return BadReference;
    }
    var results;
    ok, results := ReadPartitions(scheme, index, files);
    if !ok {
      return BadPartition;
    }
    results := Sort(ByPath, results);
    var repeated := HasRepeats(PathsOf(results));
    if repeated {
      return Repeated;
    }
    if index.summary != scheme.summarize(results) {
      return WrongSummary;
    }
    r := Done(Manifest(results, index.suiteRevision));
  }

  // ----- What is written reads back -----

  /** The files that hold the partitions, each under its path. */
  function FilesOf(parts: seq<Partition>): map<string, Partition> {
    if parts == [] then map[]
    else FilesOf(parts[..|parts| - 1])[PartitionPath(parts[|parts| - 1].place) := parts[|parts| - 1]]
  }

  ghost predicate PathsAscend(parts: seq<Partition>) {
    forall i, j | 0 <= i < j < |parts| :: InPathOrder(parts[i], parts[j])
  }

  lemma {:induction false} FileOfPart(parts: seq<Partition>, i: nat)
    requires PathsAscend(parts) && i < |parts|
    ensures PartitionPath(parts[i].place) in FilesOf(parts) && FilesOf(parts)[PartitionPath(parts[i].place)] == parts[i]
  {
    var n := |parts| - 1;
    if i < n {
      FileOfPart(parts[..n], i);
      assert InPathOrder(parts[i], parts[n]);
      LessIrreflexive(PartitionPath(parts[n].place));
    }
  }

  /** Every partition has a key of two digits. */
  ghost predicate Keyed(parts: seq<Partition>) {
    forall i | 0 <= i < |parts| :: ValidKey(parts[i].place.key)
  }

  /** Inserting into partitions of other places keeps their paths strictly ascending. */
  lemma {:induction false} InsertKeepsAscending(p: Partition, parts: seq<Partition>)
    requires PathsAscend(parts) && Keyed(parts) && ValidKey(p.place.key)
    requires forall i | 0 <= i < |parts| :: parts[i].place != p.place
    ensures PathsAscend(Insert(InPathOrder, p, parts))
  {
    var now := Insert(InPathOrder, p, parts);
    ByKeyIsWeakOrder((p: Partition) => PartitionPath(p.place), InPathOrder);
    forall i, j | 0 <= i < j < |parts| ensures !InPathOrder(parts[j], parts[i]) {
      assert InPathOrder(parts[i], parts[j]);
    }
    InsertSorted(InPathOrder, p, parts);
    var k := InsertSplits(InPathOrder, p, parts);
    forall i, j | 0 <= i < j < |now| ensures InPathOrder(now[i], now[j]) {
      StrictlyBefore(p, parts, now, k, i, j);
    }
  }

  lemma OtherPathDiffers(p: Partition, q: Partition)
    requires ValidKey(p.place.key) && ValidKey(q.place.key) && p.place != q.place
    ensures InPathOrder(p, q) || InPathOrder(q, p)
  {
    LessTotal(PartitionPath(p.place), PartitionPath(q.place));
    if PartitionPath(p.place) == PartitionPath(q.place) {
      PathTellsPlace(p.place, q.place);
      assert false;
    }
  }

  lemma StrictlyBefore(p: Partition, parts: seq<Partition>, now: seq<Partition>, k: nat, i: nat, j: nat)
    requires PathsAscend(parts) && Keyed(parts) && ValidKey(p.place.key) && k <= |parts|
    requires now == parts[..k] + [p] + parts[k..] && Sorted(InPathOrder, now) && i < j < |now|
    requires forall n | 0 <= n < |parts| :: parts[n].place != p.place
    ensures InPathOrder(now[i], now[j])
  {
    assert !InPathOrder(now[j], now[i]);
    if i == k {
      assert now[j] == parts[j - 1];
      OtherPathDiffers(p, parts[j - 1]);
    } else if j == k {
      assert now[i] == parts[i];
      OtherPathDiffers(p, parts[i]);
    } else {
      assert now[i] == parts[if i < k then i else i - 1] && now[j] == parts[if j < k then j else j - 1];
    }
  }

  lemma {:induction false} SortedPathsAscend(parts: seq<Partition>)
    requires DistinctPlaces(parts) && Keyed(parts)
    ensures PathsAscend(Sort(InPathOrder, parts))
  {
    if parts != [] {
      var init, last := parts[..|parts| - 1], parts[|parts| - 1];
      SortedPathsAscend(init);
      var sorted := Sort(InPathOrder, init);
      SameMembers(sorted, init);
      forall i | 0 <= i < |sorted| ensures sorted[i].place != last.place && ValidKey(sorted[i].place.key) {
        assert sorted[i] in init;
      }
      InsertKeepsAscending(last, sorted);
    }
  }

  /** Sorting partitions moves their records but keeps them. */
  lemma {:induction false} InsertCounts(p: Partition, parts: seq<Partition>)
    ensures AllOf(Lists(Insert(InPathOrder, p, parts))) == AllOf(Lists(parts)) + multiset(p.results)
  {
    var k := InsertSplits(InPathOrder, p, parts);
    var before, after := Lists(parts[..k]), Lists(parts[k..]);
    assert Lists(parts) == before + after by {
      assert parts == parts[..k] + parts[k..];
    }
    assert Lists(Insert(InPathOrder, p, parts)) == before + [p.results] + after;
    AllOfConcat(before, after);
    AllOfConcat(before, [p.results]);
    AllOfConcat(before + [p.results], after);
    assert [p.results][..0] == [];
  }

  lemma ListsLast(parts: seq<Partition>)
    requires parts != []
    ensures AllOf(Lists(parts)) == AllOf(Lists(parts[..|parts| - 1])) + multiset(parts[|parts| - 1].results)
  {
    assert Lists(parts)[..|parts| - 1] == Lists(parts[..|parts| - 1]);
  }

  lemma {:induction false} SortCounts(parts: seq<Partition>)
    ensures AllOf(Lists(Sort(InPathOrder, parts))) == AllOf(Lists(parts))
  {
    if parts != [] {
      var init, last := parts[..|parts| - 1], parts[|parts| - 1];
      SortCounts(init);
      InsertCounts(last, Sort(InPathOrder, init));
      ListsLast(parts);
    }
  }

  lemma {:induction false} JoinedCounts(parts: seq<Partition>, n: nat)
    requires PathsAscend(parts) && n <= |parts|
    ensures multiset(Joined(References(parts), FilesOf(parts), n)) == AllOf(Lists(parts)[..n])
  {
    if n > 0 {
      JoinedCounts(parts, n - 1);
      FileOfPart(parts, n - 1);
      assert Lists(parts)[..n][..n - 1] == Lists(parts)[..n - 1];
    }
  }

  /** What a caller must supply: valid records, sorted, with a group and a key of two digits. */
  ghost predicate Valid(scheme: Scheme, m: Manifest) {
    && Ascending(m.results)
    && forall r | r in m.results :: r.valid && Locatable(scheme, r) && ValidKey(scheme.place(r.path).key)
  }

  lemma GroupedPlaces(scheme: Scheme, m: Manifest, i: nat)
    requires Valid(scheme, m) && i < |Written(scheme, m).partitions|
    ensures var p := Written(scheme, m).partitions[i];
      && HoldsPlaced(scheme, m.suiteRevision, p) && (forall r | r in p.results :: r in m.results)
      && ValidGroup(p.place.group) && ValidKey(p.place.key)
  {
    var parts := Grouped(scheme, m.suiteRevision, m.results);
    GroupedGroups(scheme, m.suiteRevision, m.results);
    SameMembers(Written(scheme, m).partitions, parts);
    var p := Written(scheme, m).partitions[i];
    assert p in parts;
    var k :| 0 <= k < |parts| && parts[k] == p;
    forall r | r in p.results ensures r in m.results {
      HeldInLists(parts, m.results, k, r);
    }
    assert p.results[0] in p.results;
  }

  lemma GroupedKeyed(scheme: Scheme, m: Manifest)
    requires Valid(scheme, m)
    ensures DistinctPlaces(Grouped(scheme, m.suiteRevision, m.results))
    ensures Keyed(Grouped(scheme, m.suiteRevision, m.results))
  {
    var parts := Grouped(scheme, m.suiteRevision, m.results);
    GroupedGroups(scheme, m.suiteRevision, m.results);
    forall i | 0 <= i < |parts| ensures ValidKey(parts[i].place.key) {
      HeldInLists(parts, m.results, i, parts[i].results[0]);
    }
  }

  lemma WrittenReferences(scheme: Scheme, m: Manifest)
    requires Valid(scheme, m)
    ensures PathsAscend(Written(scheme, m).partitions) && ReferencesOk(Written(scheme, m).index.references)
  {
    var parts := Written(scheme, m).partitions;
    GroupedKeyed(scheme, m);
    SortedPathsAscend(Grouped(scheme, m.suiteRevision, m.results));
    forall i | 0 <= i < |parts| ensures ReferenceOk(References(parts)[i]) {
      GroupedPlaces(scheme, m, i);
    }
    forall i, j | 0 <= i < j < |parts| ensures Less(References(parts)[i].1, References(parts)[j].1) {
      assert InPathOrder(parts[i], parts[j]);
    }
  }

  lemma WrittenPartition(scheme: Scheme, m: Manifest, i: nat)
    requires Valid(scheme, m) && i < |Written(scheme, m).index.references|
    ensures PartitionOk(scheme, Written(scheme, m).index, i, FilesOf(Written(scheme, m).partitions))
  {
    WrittenReferences(scheme, m);
    GroupedPlaces(scheme, m, i);
    FileOfPart(Written(scheme, m).partitions, i);
  }

  lemma WrittenJoined(scheme: Scheme, m: Manifest)
    requires Valid(scheme, m)
    ensures var w := Written(scheme, m);
      Sort(ByPath, Joined(w.index.references, FilesOf(w.partitions), |w.index.references|)) == m.results
  {
    var w := Written(scheme, m);
    var parts := w.partitions;
    WrittenReferences(scheme, m);
    JoinedCounts(parts, |parts|);
    assert Lists(parts)[..|parts|] == Lists(parts);
    SortCounts(Grouped(scheme, m.suiteRevision, m.results));
    GroupedGroups(scheme, m.suiteRevision, m.results);
    var joined := Joined(References(parts), FilesOf(parts), |parts|);
    ByKeyIsWeakOrder((r: Record) => r.path, ByPath);
    SortSorts(ByPath, joined);
    SortedIsAscending(Sort(ByPath, joined), m.results);
  }

  lemma AscendingIsDistinctPaths(results: seq<Record>)
    requires Ascending(results)
    ensures Distinct(PathsOf(results))
  {
    forall i, j | 0 <= i < j < |results| ensures PathsOf(results)[i] != PathsOf(results)[j] {
      LessIrreflexive(results[i].path);
    }
  }

  /** Reading back what was written gives the same manifest. */
  lemma RoundTrip(scheme: Scheme, m: Manifest)
    requires Valid(scheme, m)
    ensures Describes(scheme, Written(scheme, m).index, FilesOf(Written(scheme, m).partitions), m)
  {
    WrittenReferences(scheme, m);
    WrittenJoined(scheme, m);
    AscendingIsDistinctPaths(m.results);
    forall i | 0 <= i < |Written(scheme, m).index.references|
      ensures PartitionOk(scheme, Written(scheme, m).index, i, FilesOf(Written(scheme, m).partitions))
    {
      WrittenPartition(scheme, m, i);
    }
  }

  lemma {:induction false} JoinedHolds(references: seq<(Place, string)>, files: map<string, Partition>, n: nat,
                                      r: Record)
    requires n <= |references|
    ensures r in Joined(references, files, n) <==>
      exists i :: 0 <= i < n && references[i].1 in files && r in files[references[i].1].results
  {
    if n > 0 {
      JoinedHolds(references, files, n - 1, r);
    }
  }

  lemma DistinctSortedAscends(records: seq<Record>)
    requires Sorted(ByPath, records) && Distinct(PathsOf(records))
    ensures Ascending(records)
  {
    forall i, j | 0 <= i < j < |records| ensures Less(records[i].path, records[j].path) {
      assert !ByPath(records[j], records[i]);
      assert PathsOf(records)[i] != PathsOf(records)[j];
      LessTotal(records[i].path, records[j].path);
    }
  }

  /** The record is valid, below the tests, and in the referenced file that its own place names. */
  ghost predicate SitsAtItsPlace(scheme: Scheme, index: Index, files: map<string, Partition>, r: Record) {
    && r.valid && "test/" <= r.path
    && exists reference :: reference in index.references &&
        reference.1 == PartitionPath(scheme.place(r.path)) && reference.1 in files && r in files[reference.1].results
  }

  /** A manifest that is read holds, in path order, each record of each file, and each sits at its place. */
  lemma DescribedRecords(scheme: Scheme, index: Index, files: map<string, Partition>, m: Manifest)
    requires Describes(scheme, index, files, m)
    ensures Ascending(m.results)
    ensures forall r | r in m.results :: SitsAtItsPlace(scheme, index, files, r)
    ensures forall reference, r |
      reference in index.references && reference.1 in files && r in files[reference.1].results :: r in m.results
  {
    var references := index.references;
    var joined := Joined(references, files, |references|);
    ByKeyIsWeakOrder((r: Record) => r.path, ByPath);
    SortSorts(ByPath, joined);
    SameMembers(m.results, joined);
    DistinctSortedAscends(m.results);
    forall r | r in m.results ensures SitsAtItsPlace(scheme, index, files, r) {
      JoinedHolds(references, files, |references|, r);
      var i :| 0 <= i < |references| && references[i].1 in files && r in files[references[i].1].results;
      assert PartitionOk(scheme, index, i, files) && ReferenceOk(references[i]);
      assert references[i] in index.references;
    }
    forall reference, r | reference in references && reference.1 in files && r in files[reference.1].results
      ensures r in m.results
    {
      JoinedHolds(references, files, |references|, r);
    }
  }

  /** An index and its files describe at most one manifest. */
  lemma DescribesOne(scheme: Scheme, index: Index, files: map<string, Partition>, m: Manifest, n: Manifest)
    requires Describes(scheme, index, files, m) && Describes(scheme, index, files, n)
    ensures m == n
  {}

  /** Writing a valid manifest and reading it back, end to end. */
  method WriteAndRead(scheme: Scheme, m: Manifest) returns (r: Outcome<Manifest>)
    requires Valid(scheme, m)
    ensures r == Done(m)
  {
    var written := SerializeManifest(scheme, m);
    RoundTrip(scheme, m);
    r := ParseReviewedManifest(scheme, written.value.index, FilesOf(written.value.partitions));
    DescribesOne(scheme, written.value.index, FilesOf(written.value.partitions), m, r.value);
  }
}
