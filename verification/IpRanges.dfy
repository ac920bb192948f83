/** `IpPolicyMatcher.MergeRanges` and the binary search over the merged ranges. */
module IpRanges {
  import opened Bits

  datatype Range = Range(start: nat, end: nat)

  predicate InRange(r: Range, v: nat) {
    r.start <= v <= r.end
  }

  predicate ValidRange(r: Range) {
    r.start <= r.end <= MAX_WORD
  }

  /** Both ends are 32-bit words; a range may still end before it starts. */
  predicate WordRange(r: Range) {
    r.start <= MAX_WORD && r.end <= MAX_WORD
  }

  predicate Covers(rs: seq<Range>, v: nat) {
    exists r <- rs :: InRange(r, v)
  }

  // ---------------------------------------------------------------- sorting

  predicate SortedByStart(rs: seq<Range>) {
    forall i, j :: 0 <= i < j < |rs| ==> rs[i].start <= rs[j].start
  }

  function InsertByStart(rs: seq<Range>, r: Range): (s: seq<Range>)
    ensures multiset(s) == multiset(rs) + multiset{r}
  {
    if rs == [] || rs[|rs| - 1].start <= r.start then rs + [r]
    else
      var front, last := rs[..|rs| - 1], rs[|rs| - 1];
      assert rs == front + [last];
      InsertByStart(front, r) + [last]
  }

  lemma SortedAppend(rs: seq<Range>, r: Range)
    requires SortedByStart(rs) && forall x <- rs :: x.start <= r.start
    ensures SortedByStart(rs + [r])
  {
  }

  lemma {:induction false} InsertKeepsSorted(rs: seq<Range>, r: Range)
    requires SortedByStart(rs)
    ensures SortedByStart(InsertByStart(rs, r))
  {
    if rs == [] || rs[|rs| - 1].start <= r.start {
      SortedAppend(rs, r);
    } else {
      var front, last := rs[..|rs| - 1], rs[|rs| - 1];
      var inserted := InsertByStart(front, r);
      InsertKeepsSorted(front, r);
      forall x | x in inserted ensures x.start <= last.start {
        assert x in multiset(inserted);
        assert x in multiset(front) || x == r;
      }
      SortedAppend(inserted, last);
    }
  }

  /** `List.Sort` by start: some sorted permutation; nothing below depends on the order of equal starts. */
  method SortByStart(ranges: seq<Range>) returns (sorted: seq<Range>)
    ensures SortedByStart(sorted) && multiset(sorted) == multiset(ranges)
  {
    sorted := [];
    for i := 0 to |ranges|
      invariant SortedByStart(sorted) && multiset(sorted) == multiset(ranges[..i])
    {
      assert ranges[..i + 1] == ranges[..i] + [ranges[i]];
      InsertKeepsSorted(sorted, ranges[i]);
      sorted := InsertByStart(sorted, ranges[i]);
    }
    assert ranges[..|ranges|] == ranges;
  }

  // ---------------------------------------------------------------- merging

  /** Sorted, disjoint and not even adjacent. */
  predicate Normal(rs: seq<Range>) {
    && (forall i :: 0 <= i < |rs| ==> ValidRange(rs[i]))
    && (forall i, j :: 0 <= i < j < |rs| ==> rs[i].end + 1 < rs[j].start)
  }

  /** What the binary search needs: sorted, and each range lies below the start of every later one. */
  predicate Searchable(rs: seq<Range>) {
    forall i, j :: 0 <= i < j < |rs| ==> rs[i].start <= rs[j].start && rs[i].end + 1 < rs[j].start
  }

  predicate StartsAt(rs: seq<Range>, v: nat) {
    exists r <- rs :: r.start == v
  }

  /** What the search answers over merged ranges: it accepts a start before it looks at the end. */
  predicate Hit(rs: seq<Range>, v: nat) {
    Covers(rs, v) || StartsAt(rs, v)
  }

  /** A range that ends before it starts has its start here. */
  predicate BackwardAt(rs: seq<Range>, v: nat) {
    exists r <- rs :: r.end < r.start == v
  }

  /** The start of a backward range outside all ranges that no range reaches from below. */
  predicate Stray(rs: seq<Range>, v: nat) {
    BackwardAt(rs, v) && !Covers(rs, v) && (v > 0 ==> !Covers(rs, v - 1))
  }

  /** One pass of the merge loop. */
  function MergeStep(merged: seq<Range>, r: Range): seq<Range> {
    if merged != [] &&
       (var last := merged[|merged| - 1];
        r.start <= last.end || (last.end != MAX_WORD && r.start == last.end + 1))
    then
      var last := merged[|merged| - 1];
      if r.end > last.end then merged[|merged| - 1 := Range(last.start, r.end)] else merged
    else merged + [r]
  }

  /** What the loop knows after a part of the sorted ranges. */
  predicate Merged(merged: seq<Range>, part: seq<Range>) {
    && Searchable(merged) && (forall m <- merged :: WordRange(m))
    && (forall r <- part :: WordRange(r))
    && ((forall r <- part :: ValidRange(r)) ==> forall m <- merged :: ValidRange(m))
    && (part == [] <==> merged == [])
    && (part != [] ==> merged[|merged| - 1].start <= part[|part| - 1].start)
    && SortedByStart(part)
  }

  ghost predicate SameAnswer(merged: seq<Range>, part: seq<Range>, v: nat) {
    && (Covers(merged, v) <==> Covers(part, v))
    && (!Covers(part, v) ==> (StartsAt(merged, v) <==> Stray(part, v)))
  }

  ghost predicate SameAnswers(merged: seq<Range>, part: seq<Range>) {
    forall v: nat :: SameAnswer(merged, part, v)
  }

  lemma SearchableNext(merged: seq<Range>, r: Range)
    requires Searchable(merged) && (forall m <- merged :: WordRange(m)) && WordRange(r)
    requires merged != [] ==> merged[|merged| - 1].start <= r.start
    ensures Searchable(MergeStep(merged, r))
  {
    if merged != [] { assert merged[|merged| - 1] in merged; }
  }

  lemma MembersNext(merged: seq<Range>, r: Range, m: Range)
    requires m in MergeStep(merged, r)
    ensures m in merged || m == r ||
      (merged != [] && r.end > merged[|merged| - 1].end && m == Range(merged[|merged| - 1].start, r.end))
  {
  }

  lemma WordsNext(merged: seq<Range>, r: Range)
    requires (forall m <- merged :: WordRange(m)) && WordRange(r)
    ensures forall m <- MergeStep(merged, r) :: WordRange(m)
    ensures (forall m <- merged :: ValidRange(m)) && ValidRange(r) ==> forall m <- MergeStep(merged, r) :: ValidRange(m)
  {
    if merged != [] { assert merged[|merged| - 1] in merged; }
    forall m | m in MergeStep(merged, r)
      ensures WordRange(m) && ((forall x <- merged :: ValidRange(x)) && ValidRange(r) ==> ValidRange(m))
    {
      MembersNext(merged, r, m);
    }
  }

  lemma StartsBelow(merged: seq<Range>, part: seq<Range>, r: Range)
    requires Merged(merged, part) && SortedByStart(part + [r])
    ensures merged != [] ==> merged[|merged| - 1].start <= r.start
  {
    if part != [] { assert (part + [r])[|part| - 1].start <= (part + [r])[|part|].start; }
  }

  lemma LastStart(merged: seq<Range>, r: Range)
    requires merged != [] ==> merged[|merged| - 1].start <= r.start
    ensures var next := MergeStep(merged, r); next != [] && next[|next| - 1].start <= r.start
  {
  }

  lemma MergeStepKeeps(merged: seq<Range>, part: seq<Range>, r: Range)
    requires Merged(merged, part) && WordRange(r) && SortedByStart(part + [r])
    ensures Merged(MergeStep(merged, r), part + [r])
  {
    StartsBelow(merged, part, r);
    assert forall x :: x in part + [r] <==> x in part || x == r;
    SearchableNext(merged, r);
    WordsNext(merged, r);
    LastStart(merged, r);
  }

  lemma MergeStepCovers(merged: seq<Range>, part: seq<Range>, r: Range, v: nat)
    requires Merged(merged, part) && WordRange(r) && SortedByStart(part + [r])
    ensures Covers(MergeStep(merged, r), v) <==> Covers(merged, v) || InRange(r, v)
  {
    var next := MergeStep(merged, r);
    StartsBelow(merged, part, r);
    if |next| == |merged| {
      var k := |merged| - 1;
      assert merged == merged[..k] + [merged[k]] && next == merged[..k] + [next[k]];
      CoversAppend(merged[..k], merged[k], v);
      CoversAppend(merged[..k], next[k], v);
    } else {
      CoversAppend(merged, r, v);
    }
  }

  lemma CoversAppend(rs: seq<Range>, r: Range, v: nat)
    ensures Covers(rs + [r], v) <==> Covers(rs, v) || InRange(r, v)
  {
    var s := rs + [r];
    if Covers(rs, v) {
      var x :| x in rs && InRange(x, v);
      assert x in s;
    }
    assert r in s;
  }

  lemma BackwardAppend(rs: seq<Range>, r: Range, v: nat)
    ensures BackwardAt(rs + [r], v) <==> BackwardAt(rs, v) || r.end < r.start == v
  {
    assert forall x :: x in rs + [r] <==> x in rs || x == r;
  }

  lemma StartsAppend(rs: seq<Range>, r: Range, v: nat)
    ensures StartsAt(rs + [r], v) <==> StartsAt(rs, v) || r.start == v
  {
    assert forall x :: x in rs + [r] <==> x in rs || x == r;
  }

  /** Near its last start a searchable list is covered by its last range alone. */
  lemma OnlyTheLast(merged: seq<Range>, v: nat)
    requires Searchable(merged) && merged != [] && merged[|merged| - 1].start <= v + 1
    ensures Covers(merged, v) <==> InRange(merged[|merged| - 1], v)
  {
    assert merged[|merged| - 1] in merged;
    forall m | m in merged && InRange(m, v) ensures m == merged[|merged| - 1] {
      var i :| 0 <= i < |merged| && merged[i] == m;
      if i < |merged| - 1 { assert false; }
    }
  }

  lemma NoLaterStart(merged: seq<Range>, v: nat)
    requires Searchable(merged) && merged != [] && StartsAt(merged, v)
    ensures v <= merged[|merged| - 1].start
  {
    var m :| m in merged && m.start == v;
    var i :| 0 <= i < |merged| && merged[i] == m;
  }

  /** A backward range that starts at `v` outside all ranges becomes a start exactly when nothing ends just below. */
  lemma BackwardStep(merged: seq<Range>, part: seq<Range>, r: Range)
    requires Merged(merged, part) && WordRange(r) && SortedByStart(part + [r])
    requires r.end < r.start && !Covers(merged, r.start)
    ensures StartsAt(MergeStep(merged, r), r.start) <==> !Covers(merged, r.start - 1)
  {
    var v := r.start;
    StartsAppend(merged, r, v);
    if merged != [] {
      StartsBelow(merged, part, r);
      var last := merged[|merged| - 1];
      assert last in merged;
      OnlyTheLast(merged, v);
      OnlyTheLast(merged, v - 1);
      if StartsAt(merged, v) { NoLaterStart(merged, v); }
    }
  }

  lemma StartsStep(merged: seq<Range>, part: seq<Range>, r: Range, v: nat)
    requires Merged(merged, part) && WordRange(r) && SortedByStart(part + [r]) && v != r.start
    ensures StartsAt(MergeStep(merged, r), v) <==> StartsAt(merged, v)
  {
    var next := MergeStep(merged, r);
    if |next| == |merged| {
      var k := |merged| - 1;
      assert merged == merged[..k] + [merged[k]] && next == merged[..k] + [next[k]];
      StartsAppend(merged[..k], merged[k], v);
      StartsAppend(merged[..k], next[k], v);
    } else {
      StartsAppend(merged, r, v);
    }
  }

  /** A later range reaches no backward start from below. */
  lemma StrayAppend(part: seq<Range>, r: Range, v: nat)
    requires SortedByStart(part + [r])
    ensures !Covers(part + [r], v) ==> (Stray(part + [r], v) <==>
      (BackwardAt(part, v) || r.end < r.start == v) && (v > 0 ==> !Covers(part, v - 1)))
  {
    BackwardAppend(part, r, v);
    if v > 0 { CoversAppend(part, r, v - 1); }
    if BackwardAt(part, v) {
      var x :| x in part && x.end < x.start == v;
      var i :| 0 <= i < |part| && part[i] == x;
      assert (part + [r])[i].start <= (part + [r])[|part|].start;
    }
  }

  lemma SameAnswerNext(merged: seq<Range>, part: seq<Range>, r: Range, v: nat)
    requires Merged(merged, part) && WordRange(r) && SortedByStart(part + [r])
    requires SameAnswers(merged, part)
    ensures SameAnswer(MergeStep(merged, r), part + [r], v)
  {
    assert SameAnswer(merged, part, v);
    MergeStepCovers(merged, part, r, v);
    CoversAppend(part, r, v);
    StrayAppend(part, r, v);
    if v != r.start {
      StartsStep(merged, part, r, v);
    } else if r.end < r.start {
      assert SameAnswer(merged, part, v - 1);
      if !Covers(merged, v) { BackwardStep(merged, part, r); }
    }
  }

  lemma SameAnswersNext(merged: seq<Range>, part: seq<Range>, r: Range)
    requires Merged(merged, part) && WordRange(r) && SortedByStart(part + [r]) && SameAnswers(merged, part)
    ensures SameAnswers(MergeStep(merged, r), part + [r])
  {
    var merged', part' := MergeStep(merged, r), part + [r];
    forall v: nat ensures SameAnswer(merged', part', v) {
      SameAnswerNext(merged, part, r, v);
    }
  }

  lemma SortedPrefix(sorted: seq<Range>, i: nat)
    requires SortedByStart(sorted) && i < |sorted|
    ensures sorted[..i + 1] == sorted[..i] + [sorted[i]] && SortedByStart(sorted[..i] + [sorted[i]])
  {
  }

  /**
   The merged arrays can be searched, and the search will accept what some range covers and the stray
   starts. Without backward ranges the merged form is normal and covers exactly the union of the inputs.
   */
  method MergeRanges(ranges: seq<Range>) returns (starts: seq<nat>, ends: seq<nat>)
    requires forall r <- ranges :: WordRange(r)
    ensures |starts| == |ends| && Searchable(Zip(starts, ends))
    ensures forall v: nat :: Hit(Zip(starts, ends), v) <==> Covers(ranges, v) || Stray(ranges, v)
    ensures forall v: nat :: Covers(Zip(starts, ends), v) <==> Covers(ranges, v)
    ensures (forall r <- ranges :: ValidRange(r)) ==> Normal(Zip(starts, ends))
  {
    var sorted := SortByStart(ranges);
    assert forall r :: r in sorted <==> r in ranges by { SameMembers(sorted, ranges); }
    var merged: seq<Range> := [];
    for i := 0 to |sorted|
      invariant Merged(merged, sorted[..i])
      invariant SameAnswers(merged, sorted[..i])
    {
      SortedPrefix(sorted, i);
      MergeStepKeeps(merged, sorted[..i], sorted[i]);
      SameAnswersNext(merged, sorted[..i], sorted[i]);
      merged := MergeStep(merged, sorted[i]);
    }
    assert sorted[..|sorted|] == sorted;
    forall v: nat
      ensures Covers(merged, v) <==> Covers(ranges, v)
      ensures Hit(merged, v) <==> Covers(ranges, v) || Stray(ranges, v)
    {
      assert SameAnswer(merged, sorted, v);
      SameElements(sorted, ranges, v);
    }
    starts, ends := Unzip(merged);
  }

  method Unzip(merged: seq<Range>) returns (starts: seq<nat>, ends: seq<nat>)
    ensures |starts| == |ends| && Zip(starts, ends) == merged
  {
    starts, ends := [], [];
    for i := 0 to |merged|
      invariant |starts| == |ends| == i
      invariant forall k :: 0 <= k < i ==> starts[k] == merged[k].start && ends[k] == merged[k].end
    {
      starts, ends := starts + [merged[i].start], ends + [merged[i].end];
    }
    assert Zip(starts, ends) == merged;
  }

  lemma SameMembers(a: seq<Range>, b: seq<Range>)
    requires multiset(a) == multiset(b)
    ensures forall r :: r in a <==> r in b
  {
    assert forall r :: r in a <==> r in multiset(a);
    assert forall r :: r in b <==> r in multiset(b);
  }

  lemma SameElements(a: seq<Range>, b: seq<Range>, v: nat)
    requires forall r :: r in a <==> r in b
    ensures (Covers(a, v) <==> Covers(b, v)) && (Stray(a, v) <==> Stray(b, v))
  {
  }

  function Zip(starts: seq<nat>, ends: seq<nat>): (rs: seq<Range>)
    requires |starts| == |ends|
    ensures |rs| == |starts| && forall i :: 0 <= i < |rs| ==> rs[i] == Range(starts[i], ends[i])
  {
    seq(|starts|, i requires 0 <= i < |starts| => Range(starts[i], ends[i]))
  }

  /**
   The answer is right about every address if and only if each backward range starts at a covered address
   or just above one.
   */
  lemma RightIff(ranges: seq<Range>)
    ensures (forall v: nat :: Covers(ranges, v) || Stray(ranges, v) ==> Covers(ranges, v)) <==>
      (forall r <- ranges :: r.end < r.start ==> Covers(ranges, r.start) || Covers(ranges, r.start - 1))
  {
    forall r | r in ranges && r.end < r.start
      ensures Stray(ranges, r.start) <==> !(Covers(ranges, r.start) || Covers(ranges, r.start - 1))
    {
      assert BackwardAt(ranges, r.start);
    }
  }

  // ---------------------------------------------------------------- the merged form is canonical

  lemma FirstCovered(rs: seq<Range>, v: nat)
    requires Normal(rs) && rs != []
    ensures Covers(rs, rs[0].start)
    ensures Covers(rs, v) ==> rs[0].start <= v
    ensures v <= rs[0].end ==> (Covers(rs, v) <==> rs[0].start <= v)
    ensures !Covers(rs, rs[0].end + 1)
    ensures Covers(rs[1..], v) <==> Covers(rs, v) && rs[0].end < v
  {
    assert rs[0] in rs;
    forall r | r in rs[1..] ensures r in rs && rs[0].end + 1 < r.start {
      var i :| 0 <= i < |rs[1..]| && rs[1..][i] == r;
      assert rs[i + 1] == r;
    }
    forall r | r in rs && r != rs[0] ensures r in rs[1..] {
      var i :| 0 <= i < |rs| && rs[i] == r;
      assert rs[1..][i - 1] == r;
    }
    if Covers(rs[1..], v) {
      var r :| r in rs[1..] && InRange(r, v);
      assert r in rs;
    }
  }

  /** Two normal lists with the same coverage are equal: the order in which rules are given never matters. */
  lemma {:induction false} NormalFormIsUnique(a: seq<Range>, b: seq<Range>)
    requires Normal(a) && Normal(b) && forall v: nat :: Covers(a, v) <==> Covers(b, v)
    ensures a == b
  {
    if a == [] {
      if b != [] { FirstCovered(b, b[0].start); }
    } else if b == [] {
      FirstCovered(a, a[0].start);
    } else {
      FirstCovered(a, b[0].start);
      FirstCovered(b, a[0].start);
      FirstCovered(a, b[0].end + 1);
      FirstCovered(b, a[0].end + 1);
      assert a[0] == b[0];
      forall v: nat ensures Covers(a[1..], v) <==> Covers(b[1..], v) {
        FirstCovered(a, v);
        FirstCovered(b, v);
      }
      NormalFormIsUnique(a[1..], b[1..]);
      assert a == [a[0]] + a[1..] && b == [b[0]] + b[1..];
    }
  }

  // ---------------------------------------------------------------- binary search

  predicate Ascending(xs: seq<nat>) {
    forall i, j :: 0 <= i < j < |xs| ==> xs[i] <= xs[j]
  }

  /** `Array.BinarySearch`: the index of the value, or the complement of the index of the next larger one. */
  method BinarySearch(xs: seq<nat>, value: nat) returns (index: int)
    requires Ascending(xs)
    ensures index >= 0 ==> index < |xs| && xs[index] == value
    ensures index < 0 ==> 0 <= -index - 1 <= |xs|
    ensures index < 0 ==> forall i :: 0 <= i < |xs| ==> (i < -index - 1 <==> xs[i] < value) && xs[i] != value
  {
    var lo, hi := 0, |xs|;
    while lo < hi
      invariant 0 <= lo <= hi <= |xs|
      invariant forall i :: 0 <= i < lo ==> xs[i] < value
      invariant forall i :: hi <= i < |xs| ==> xs[i] > value
    {
      var mid := (lo + hi) / 2;
      if xs[mid] == value { return mid; }
      if xs[mid] < value { lo := mid + 1; } else { hi := mid; }
    }
    return -lo - 1;
  }

  method ContainsAddress(starts: seq<nat>, ends: seq<nat>, value: nat) returns (found: bool)
    requires |starts| == |ends| && Searchable(Zip(starts, ends))
    ensures found <==> Hit(Zip(starts, ends), value)
  {
    var rs := Zip(starts, ends);
    assert Ascending(starts) by {
      forall i, j | 0 <= i < j < |starts| ensures starts[i] <= starts[j] {
        assert rs[i].start <= rs[j].start;
      }
    }
    var index := BinarySearch(starts, value);
    if index >= 0 {
      assert rs[index] in rs;
      return true;
    }
    index := -index - 1 - 1;
    if index >= 0 && value <= ends[index] {
      assert rs[index] in rs && InRange(rs[index], value);
      return true;
    }
    forall r | r in rs ensures !InRange(r, value) && r.start != value {
      var i :| 0 <= i < |rs| && rs[i] == r;
      assert i < index ==> rs[i].end + 1 < rs[index].start;
    }
    return false;
  }
}
