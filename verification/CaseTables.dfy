/**
 The compact case tables of the C runtime (tools/unicode-tables.ts): four tables of slices into
 one shared array of values, built from simple mappings and the full mappings that differ.
 */
module CaseTables {
  import opened Basics
  import opened Sorting

  type Simple = map<int, int>
  type Full = map<int, seq<int>>

  /** The sequence a code point maps to without a table entry of its own. */
  function SimpleImage(simple: Simple, c: int): (image: seq<int>)
    ensures c in simple ==> image == [simple[c]]
    ensures c !in simple ==> image == [c]
  {
    [if c in simple then simple[c] else c]
  }

  /** What a code point maps to: the full mapping, else the simple one, else itself. */
  function Image(simple: Simple, full: Full, c: int): (image: seq<int>)
    ensures c in full ==> image == full[c]
    ensures c !in full && c in simple ==> image == [simple[c]]
    ensures c !in full && c !in simple ==> image == [c]
  {
    if c in full then full[c] else SimpleImage(simple, c)
  }

  /** Keep only the full mappings that differ from their simple mapping. */
  method DifferingSequences(entries: Full, simple: Simple) returns (result: Full)
    ensures forall c :: c in result <==> c in entries && entries[c] != SimpleImage(simple, c)
    ensures forall c | c in result :: result[c] == entries[c]
  {
    result := map[];
    var left := entries.Keys;
    while left != {}
      invariant left <= entries.Keys
      invariant forall c :: c in result <==> c in entries && c !in left && entries[c] != SimpleImage(simple, c)
      invariant forall c | c in result :: result[c] == entries[c]
      decreases |left|
    {
      ghost var some := HasMember(left);
      var c :| c in left;
      left := left - {c};
      var sequence := entries[c];
      var single := if c in simple then simple[c] else c;
      if !(|sequence| == 1 && sequence[0] == single) {
        result := result[c := sequence];
      }
    }
  }

  /** Dropping the mappings that agree with the simple ones changes no image. */
  lemma DroppingKeepsImages(entries: Full, simple: Simple, kept: Full, c: int)
    requires c in kept <==> c in entries && entries[c] != SimpleImage(simple, c)
    requires c in kept ==> kept[c] == entries[c]
    ensures Image(simple, kept, c) == Image(simple, entries, c)
  {}

  // ----- Slices of one shared array -----

  datatype Mapping = Mapping(codePoint: int, length: nat, offset: nat)

  /** The array that all tables share. */
  class Values {
    var items: seq<int>

    constructor ()
      ensures items == []
    {
      items := [];
    }

    method Push(sequence: seq<int>) returns (offset: nat)
      modifies this
      ensures offset == |old(items)| && items == old(items) + sequence
    {
      offset := |items|;
      items := items + sequence;
    }
  }

  predicate InBounds(items: seq<int>, m: Mapping) {
    m.offset + m.length <= |items|
  }

  function Slice(items: seq<int>, m: Mapping): seq<int>
    requires InBounds(items, m)
  {
    items[m.offset..m.offset + m.length]
  }

  /** Table entries in code-point order, one for each key, whose slices are the sequences of `images`. */
  ghost predicate Holds(items: seq<int>, table: seq<Mapping>, images: Full) {
    && (forall i, j | 0 <= i < j < |table| :: table[i].codePoint < table[j].codePoint)
    && (forall c :: c in images <==> Listed(table, c))
    && (forall i | 0 <= i < |table| ::
          InBounds(items, table[i]) && table[i].codePoint in images &&
          Slice(items, table[i]) == images[table[i].codePoint])
  }

  ghost predicate Listed(table: seq<Mapping>, c: int) {
    exists i | 0 <= i < |table| :: table[i].codePoint == c
  }

  /** Values appended later leave the slices of earlier tables alone. */
  lemma AppendingKeepsTable(items: seq<int>, more: seq<int>, table: seq<Mapping>, images: Full)
    requires Holds(items, table, images)
    ensures Holds(items + more, table, images)
  {
    forall i | 0 <= i < |table|
      ensures InBounds(items + more, table[i]) && Slice(items + more, table[i]) == Slice(items, table[i])
    {
    }
  }

  // ----- Sorted code points -----

  predicate Lower(a: int, b: int) {
    a < b
  }

  ghost predicate Ascending(s: seq<int>) {
    forall i, j | 0 <= i < j < |s| :: s[i] < s[j]
  }

  method KeysOf(keys: set<int>) returns (list: seq<int>)
    ensures forall c :: c in list <==> c in keys
    ensures Distinct(list)
  {
    list := [];
    var left := keys;
    while left != {}
      invariant left <= keys && forall c :: c in list <==> c in keys && c !in left
      invariant Distinct(list)
      decreases |left|
    {
      ghost var some := HasMember(left);
      var c :| c in left;
      list := list + [c];
      left := left - {c};
    }
  }

  lemma SortedKeysAscend(list: seq<int>)
    requires Distinct(list)
    ensures Ascending(Sort(Lower, list)) && forall c :: c in Sort(Lower, list) <==> c in list
  {
    var sorted := Sort(Lower, list);
    SortSorts(Lower, list);
    SameMembers(sorted, list);
    forall i, j | 0 <= i < j < |sorted| ensures sorted[i] < sorted[j] {
      assert !Lower(sorted[j], sorted[i]);
      if sorted[i] == sorted[j] {
        CountedTwice(sorted, i, j);
        CountedOnce(list, sorted[i]);
        assert false;
      }
    }
  }

  // ----- Building a table -----

  function Domain(simple: Simple, full: Full): set<int> {
    simple.Keys + full.Keys
  }

  /** The images a runtime table stores. */
  function Stored(simple: Simple, full: Full): Full {
    map c | c in Domain(simple, full) :: Image(simple, full, c)
  }

  function Restrict(images: Full, list: seq<int>): Full {
    map c | c in images && c in list :: images[c]
  }

  lemma RestrictAll(images: Full, list: seq<int>)
    requires forall c :: c in list <==> c in images
    ensures Restrict(images, list) == images
  {
    assert forall c :: c in Restrict(images, list) <==> c in images;
  }

  /** The table of the first `n` listed code points. */
  ghost predicate Appended(items: seq<int>, table: seq<Mapping>, images: Full, list: seq<int>, n: nat) {
    && n <= |list| && |table| == n && (forall k | 0 <= k < n :: table[k].codePoint == list[k])
    && Holds(items, table, Restrict(images, list[..n]))
  }

  lemma ListedNext(table: seq<Mapping>, m: Mapping, c: int)
    ensures Listed(table + [m], c) <==> Listed(table, c) || c == m.codePoint
  {
    if Listed(table, c) {
      var k :| 0 <= k < |table| && table[k].codePoint == c;
      assert (table + [m])[k].codePoint == c;
    }
    assert (table + [m])[|table|].codePoint == m.codePoint;
  }

  lemma HoldsNext(items: seq<int>, table: seq<Mapping>, images: Full, list: seq<int>, i: nat)
    requires i < |list| && Ascending(list) && list[i] in images && Appended(items, table, images, list, i)
    ensures var sequence := images[list[i]];
      Appended(items + sequence, table + [Mapping(list[i], |sequence|, |items|)], images, list, i + 1)
  {
    var sequence := images[list[i]];
    var m := Mapping(list[i], |sequence|, |items|);
    var now := Restrict(images, list[..i + 1]);
    AppendingKeepsTable(items, sequence, table, Restrict(images, list[..i]));
    assert list[..i + 1] == list[..i] + [list[i]];
    assert Slice(items + sequence, m) == sequence;
    forall c ensures c in now <==> Listed(table + [m], c) {
      ListedNext(table, m, c);
    }
  }

  lemma AppendedAll(items: seq<int>, table: seq<Mapping>, images: Full, list: seq<int>)
    requires Appended(items, table, images, list, |list|) && forall c :: c in list <==> c in images
    ensures Holds(items, table, images)
  {
    assert list[..|list|] == list;
    RestrictAll(images, list);
  }

  method AppendEntry(values: Values, codePoint: int, sequence: seq<int>) returns (m: Mapping)
    modifies values
    ensures m == Mapping(codePoint, |sequence|, |old(values.items)|) && values.items == old(values.items) + sequence
  {
    var offset := values.Push(sequence);
    m := Mapping(codePoint, |sequence|, offset);
  }

  /** Append the sequences of the listed code points to the shared values. */
  method AppendTable(values: Values, images: Full, list: seq<int>) returns (table: seq<Mapping>)
    requires Ascending(list) && forall c :: c in list <==> c in images
    modifies values
    ensures old(values.items) <= values.items
    ensures Holds(values.items, table, images)
  {
    table := [];
    for i := 0 to |list|
      invariant old(values.items) <= values.items
      invariant Appended(values.items, table, images, list, i)
    {
      assert list[i] in list;
      HoldsNext(values.items, table, images, list, i);
      var m := AppendEntry(values, list[i], images[list[i]]);
      table := table + [m];
    }
    AppendedAll(values.items, table, images, list);
  }

  /** One table entry for every code point with a simple or a full mapping. */
  method RuntimeMappings(values: Values, simple: Simple, full: Full) returns (table: seq<Mapping>)
    modifies values
    ensures old(values.items) <= values.items
    ensures Holds(values.items, table, Stored(simple, full))
  {
    var list := KeysOf(Domain(simple, full));
    SortedKeysAscend(list);
    table := AppendTable(values, Stored(simple, full), Sort(Lower, list));
  }

  method RuntimeSequences(values: Values, mappings: Full) returns (table: seq<Mapping>)
    modifies values
    ensures old(values.items) <= values.items
    ensures Holds(values.items, table, mappings)
  {
    var list := KeysOf(mappings.Keys);
    SortedKeysAscend(list);
    table := AppendTable(values, mappings, Sort(Lower, list));
  }

  // ----- Looking a code point up -----

  /** The slice of a code point's entry, or the code point itself. */
  method LookUp(items: seq<int>, table: seq<Mapping>, ghost images: Full, c: int) returns (r: seq<int>)
    requires Holds(items, table, images)
    ensures r == if c in images then images[c] else [c]
  {
    for i := 0 to |table|
      invariant forall k | 0 <= k < i :: table[k].codePoint != c
    {
      if table[i].codePoint == c {
        return Slice(items, table[i]);
      }
    }
    r := [c];
  }

  /** A stored table answers with the image of every code point. */
  lemma StoredIsLossless(simple: Simple, full: Full, c: int)
    ensures Image(simple, full, c) == if c in Stored(simple, full) then Stored(simple, full)[c] else [c]
  {}

  datatype Tables =
    Tables(lower: seq<Mapping>, upper: seq<Mapping>, canonical: seq<Mapping>, compatibility: seq<Mapping>)

  /** The pinned mappings of one case, before and after agreeing full mappings are dropped. */
  datatype CaseInput = CaseInput(simple: Simple, full: Full)

  /** A table whose lookups give exactly the full mapping, else the simple one, else the code point. */
  ghost predicate Lossless(items: seq<int>, table: seq<Mapping>, input: CaseInput) {
    exists kept: Full ::
      Holds(items, table, Stored(input.simple, kept)) &&
      forall c :: Image(input.simple, kept, c) == Image(input.simple, input.full, c)
  }

  /**
   Build all four tables over one shared array: every table stays lossless although agreeing
   mappings were dropped and later tables were appended to the same values.
   */
  method RenderRuntimeTables(lower: CaseInput, upper: CaseInput, canonical: Full, compatibility: Full)
    returns (values: Values, t: Tables)
    ensures fresh(values)
    ensures Lossless(values.items, t.lower, lower) && Lossless(values.items, t.upper, upper)
    ensures Holds(values.items, t.canonical, canonical) && Holds(values.items, t.compatibility, compatibility)
  {
    var keptLower := DifferingSequences(lower.full, lower.simple);
    var keptUpper := DifferingSequences(upper.full, upper.simple);
    values := new Values();
    var lowerTable := RuntimeMappings(values, lower.simple, keptLower);
    ghost var first := values.items;
    var upperTable := RuntimeMappings(values, upper.simple, keptUpper);
    ghost var second := values.items;
    var canonicalTable := RuntimeSequences(values, canonical);
    ghost var third := values.items;
    var compatibilityTable := RuntimeSequences(values, compatibility);
    t := Tables(lowerTable, upperTable, canonicalTable, compatibilityTable);
    Extended(first, values.items, lowerTable, Stored(lower.simple, keptLower));
    Extended(second, values.items, upperTable, Stored(upper.simple, keptUpper));
    Extended(third, values.items, canonicalTable, canonical);
    KeptIsLossless(values.items, lowerTable, lower, keptLower);
    KeptIsLossless(values.items, upperTable, upper, keptUpper);
  }

  lemma Extended(items: seq<int>, now: seq<int>, table: seq<Mapping>, images: Full)
    requires Holds(items, table, images) && items <= now
    ensures Holds(now, table, images)
  {
    AppendingKeepsTable(items, now[|items|..], table, images);
    assert now == items + now[|items|..];
  }

  lemma KeptIsLossless(items: seq<int>, table: seq<Mapping>, input: CaseInput, kept: Full)
    requires Holds(items, table, Stored(input.simple, kept))
    requires forall c :: c in kept <==> c in input.full && input.full[c] != SimpleImage(input.simple, c)
    requires forall c | c in kept :: kept[c] == input.full[c]
    ensures Lossless(items, table, input)
  {
    forall c ensures Image(input.simple, kept, c) == Image(input.simple, input.full, c) {
      DroppingKeepsImages(input.full, input.simple, kept, c);
    }
  }

  /** Looking up in a lossless table gives the original image, for every code point. */
  method LookUpCase(items: seq<int>, table: seq<Mapping>, ghost input: CaseInput, c: int) returns (r: seq<int>)
    requires Lossless(items, table, input)
    ensures r == Image(input.simple, input.full, c)
  {
    ghost var kept: Full :|
      Holds(items, table, Stored(input.simple, kept)) &&
      forall c :: Image(input.simple, kept, c) == Image(input.simple, input.full, c);
    StoredIsLossless(input.simple, kept, c);
    r := LookUp(items, table, Stored(input.simple, kept), c);
  }
}
