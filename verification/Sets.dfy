/** Facts about finite sets of any elements. */
module Sets {
  lemma SubsetIsSmaller<T>(a: set<T>, b: set<T>)
    requires a <= b
    ensures |a| <= |b|
  {
    assert b == a + (b - a);
  }

  lemma Pick<T>(s: set<T>) returns (x: T)
    requires |s| > 0
    ensures x in s
  {
    x :| x in s;
  }

  lemma SameSize<T>(a: set<T>, b: set<T>)
    requires a <= b && |a| == |b|
    ensures a == b
  {
    assert b == a + (b - a);
    assert |b - a| == 0;
  }

  lemma AddCounts<T>(s: set<T>, x: T)
    ensures |s + {x}| == if x in s then |s| else |s| + 1
  {
    if x in s { assert s + {x} == s; }
  }

  lemma RemoveCounts<T>(s: set<T>, x: T)
    ensures |s - {x}| == if x in s then |s| - 1 else |s|
  {
    if x !in s { assert s - {x} == s; }
  }

  ghost predicate Distinct<T(!new)>(s: seq<T>) { forall i, j :: 0 <= i < j < |s| ==> s[i] != s[j] }

  function Elements<T>(s: seq<T>): set<T> { set x | x in s }

  lemma DistinctFront<T(!new)>(front: seq<T>, last: T)
    ensures Distinct(front + [last]) <==> Distinct(front) && last !in front
  {
    var s := front + [last];
    assert forall i :: 0 <= i < |front| ==> s[i] == front[i];
    if Distinct(s) {
      forall i, j | 0 <= i < j < |front| ensures front[i] != front[j] { assert s[i] != s[j]; }
      forall x | x in front ensures x != last {
        var i :| 0 <= i < |front| && front[i] == x;
        assert s[i] != s[|front|];
      }
    } else {
      var i, j :| 0 <= i < j < |s| && s[i] == s[j];
      assert j < |front| ==> front[i] == front[j];
    }
  }

  /** A sequence has as many elements as its length exactly when it is distinct. */
  lemma {:induction false} ElementsCount<T(!new)>(s: seq<T>)
    ensures |Elements(s)| <= |s|
    ensures |Elements(s)| == |s| <==> Distinct(s)
  {
    if s != [] {
      var front, last := s[..|s| - 1], s[|s| - 1];
      assert s == front + [last];
      ElementsCount(front);
      DistinctFront(front, last);
      assert Elements(s) == Elements(front) + {last};
      AddCounts(Elements(front), last);
    }
  }

  ghost function Below(n: nat): (s: set<nat>)
    ensures |s| == n && forall u: nat :: u in s <==> u < n
  {
    if n == 0 then {} else Below(n - 1) + {n - 1}
  }

  lemma CoveringCounts(s: seq<nat>)
    requires (forall u <- s :: u < |s|) && forall u: nat :: u < |s| ==> u in s
    ensures |Elements(s)| == |s|
  {
    assert Elements(s) == Below(|s|);
  }

  /** As many numbers as there are below a bound name all of them exactly when they are distinct. */
  lemma DistinctCoversAll(s: seq<nat>)
    requires forall u <- s :: u < |s|
    ensures Distinct(s) <==> forall u: nat :: u < |s| ==> u in s
  {
    ElementsCount(s);
    assert Elements(s) <= Below(|s|);
    if Distinct(s) {
      SameSize(Elements(s), Below(|s|));
      forall u: nat | u < |s| ensures u in s { assert u in Below(|s|) && u in Elements(s); }
    } else if forall u: nat :: u < |s| ==> u in s {
      CoveringCounts(s);
    }
  }
}
