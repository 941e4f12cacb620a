/** Lists of paths: their order, and the check that no path is repeated. */
module PathLists {
  import opened Basics
  import opened CodeUnits
  import opened Sorting

  lemma LessIsTotal()
    ensures TotalOrder(Less)
  {
    forall a, b | Less(a, b) ensures !Less(b, a) {
      if Less(b, a) {
        LessTransitive(a, b, a);
        LessIrreflexive(a);
      }
    }
    forall a, b ensures a == b || Less(a, b) || Less(b, a) {
      LessTotal(a, b);
    }
    forall a, b, c | !Less(b, a) && !Less(c, b) ensures !Less(c, a) {
      LessTotal(a, b);
      LessTotal(b, c);
      if Less(c, a) && Less(a, b) {
        LessTransitive(c, a, b);
      }
    }
  }

  /** Comparing by the path of each element is a weak order. */
  lemma ByKeyIsWeakOrder<T(!new)>(path: T -> string, less: (T, T) -> bool)
    requires forall a, b :: less(a, b) <==> Less(path(a), path(b))
    ensures WeakOrder(less)
  {
    LessIsTotal();
    forall a, b | less(a, b) ensures !less(b, a) {
      assert Less(path(a), path(b)) ==> !Less(path(b), path(a));
    }
    forall a, b, c | !less(b, a) && !less(c, b) ensures !less(c, a) {
      assert !Less(path(b), path(a)) && !Less(path(c), path(b)) ==> !Less(path(c), path(a));
    }
  }

  function PathSet(paths: seq<string>): set<string> {
    set f | f in paths
  }

  /** Comparing the size of the set of paths with their number finds duplicates. */
  lemma {:induction false} SizeShowsDuplicates(paths: seq<string>)
    ensures |PathSet(paths)| <= |paths|
    ensures |PathSet(paths)| == |paths| <==> Distinct(paths)
  {
    if paths != [] {
      var init, last := paths[..|paths| - 1], paths[|paths| - 1];
      SizeShowsDuplicates(init);
      assert paths == init + [last];
      if last in init {
        assert PathSet(paths) == PathSet(init);
        var i :| 0 <= i < |init| && init[i] == last;
        assert paths[i] == paths[|paths| - 1];
      } else {
        assert PathSet(paths) == PathSet(init) + {last};
        assert Distinct(init) ==> Distinct(paths);
        assert Distinct(paths) ==> Distinct(init);
      }
    }
  }

  method HasRepeats(paths: seq<string>) returns (repeated: bool)
    ensures repeated <==> !Distinct(paths)
  {
    SizeShowsDuplicates(paths);
    repeated := |PathSet(paths)| != |paths|;
  }
}
