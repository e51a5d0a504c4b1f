/** Counting arguments on finite sets. */
module FiniteSets {

  lemma TheOnly<T>(s: set<T>) returns (x: T)
    requires |s| == 1
    ensures s == {x}
  {
    x :| x in s;
    assert |s - {x}| == 0;
    assert s == {x};
  }

  lemma TwoMembers<T>(s: set<T>) returns (x: T, y: T)
    requires |s| > 1
    ensures x in s && y in s && x != y
  {
    x :| x in s;
    assert |s - {x}| > 0;
    y :| y in s - {x};
  }

  lemma SubsetSize<T>(small: set<T>, large: set<T>)
    requires small <= large
    ensures |small| <= |large|
    ensures |small| == |large| ==> small == large
  {
    assert large == small + (large - small);
    if |small| == |large| {
      assert large - small == {};
    }
  }

  /** Two subsets that are together larger than the whole share an element. */
  lemma LargeSubsetsIntersect<T>(left: set<T>, right: set<T>, whole: set<T>)
    requires left <= whole && right <= whole
    requires |left| + |right| > |whole|
    ensures left * right != {}
  {
    if left * right == {} {
      assert |left + right| == |left| + |right|;
      SubsetSize(left + right, whole);
    }
  }

  function ToSet<T>(s: seq<T>): set<T> {
    set x | x in s
  }

  ghost predicate NoDuplicates<T>(s: seq<T>) {
    forall i, j | 0 <= i < j < |s| :: s[i] != s[j]
  }

  lemma ToSetAppend<T>(s: seq<T>, x: T)
    ensures ToSet(s + [x]) == ToSet(s) + {x}
  {
  }

  /** A sequence has as many elements as entries exactly when no entry is repeated. */
  lemma {:induction false} DistinctSize<T>(s: seq<T>)
    ensures |ToSet(s)| <= |s|
    ensures |ToSet(s)| == |s| <==> NoDuplicates(s)
  {
    if s != [] {
      var rest, last := s[..|s| - 1], s[|s| - 1];
      assert s == rest + [last];
      DistinctSize(rest);
      ToSetAppend(rest, last);
      if last in rest {
        assert ToSet(s) == ToSet(rest);
        var i :| 0 <= i < |rest| && rest[i] == last;
        assert s[i] == s[|s| - 1];
      } else {
        assert |ToSet(s)| == |ToSet(rest)| + 1;
        if NoDuplicates(rest) {
          assert NoDuplicates(s);
        }
      }
    }
  }

  /** The pigeonhole argument: distinct reports, all of them on a list no longer than the reports,
      leave neither a repeated nor an unreported entry on that list. */
  lemma DistinctReportsFillTheList<T>(reports: seq<T>, list: seq<T>)
    requires NoDuplicates(reports) && |list| == |reports|
    requires ToSet(reports) <= ToSet(list)
    ensures NoDuplicates(list) && ToSet(reports) == ToSet(list)
  {
    DistinctSize(reports);
    DistinctSize(list);
    SubsetSize(ToSet(reports), ToSet(list));
  }

  /** The integers 0..n-1. */
  function UpTo(n: nat): (range: set<int>)
    ensures forall i :: i in range <==> 0 <= i < n
  {
    if n == 0 then {} else UpTo(n - 1) + {n - 1}
  }

  lemma {:induction false} UpToSize(n: nat)
    ensures |UpTo(n)| == n
  {
    if n > 0 {
      UpToSize(n - 1);
    }
  }
}
