/** Merging intervals of tile indices into the unique canonical list. */
module IndexIntervals {

  /** The indices from `start` to `end`, both included. */
  datatype Interval = Interval(start: int, end: int)

  predicate NonEmpty(intervals: seq<Interval>) {
    forall i | 0 <= i < |intervals| :: intervals[i].start <= intervals[i].end
  }

  ghost predicate Covers(intervals: seq<Interval>, k: int) {
    exists i | 0 <= i < |intervals| :: intervals[i].start <= k <= intervals[i].end
  }

  /** Sorted, and with at least one missing index between neighbours. */
  predicate Canonical(intervals: seq<Interval>) {
    NonEmpty(intervals)
    && forall i, j | 0 <= i < j < |intervals| :: intervals[i].end + 1 < intervals[j].start
  }

  predicate Before(a: Interval, b: Interval) { a.start < b.start || (a.start == b.start && a.end <= b.end) }

  ghost predicate InOrder(s: seq<Interval>) { forall i, j | 0 <= i < j < |s| && j == i + 1 :: Before(s[i], s[j]) }

  function Insert(x: Interval, s: seq<Interval>): (r: seq<Interval>)
    requires InOrder(s)
    ensures multiset(r) == multiset{x} + multiset(s)
    ensures r != [] && r[0] == if s == [] || Before(x, s[0]) then x else s[0]
    ensures InOrder(r)
  {
    if s == [] then [x]
    else if Before(x, s[0]) then [x] + s
    else
      assert s == [s[0]] + s[1..];
      [s[0]] + Insert(x, s[1..])
  }

  /** Python's `sorted` on (start, end). */
  function Sorted(s: seq<Interval>): (r: seq<Interval>)
    ensures InOrder(r) && multiset(r) == multiset(s)
  {
    if s == [] then []
    else
      assert s == [s[0]] + s[1..];
      Insert(s[0], Sorted(s[1..]))
  }

  lemma SameCover(s: seq<Interval>, r: seq<Interval>, k: int)
    requires multiset(r) == multiset(s)
    ensures Covers(r, k) <==> Covers(s, k)
  {
    if Covers(r, k) {
      var i :| 0 <= i < |r| && r[i].start <= k <= r[i].end;
      assert r[i] in multiset(r);
      assert r[i] in s;
    }
    if Covers(s, k) {
      var i :| 0 <= i < |s| && s[i].start <= k <= s[i].end;
      assert s[i] in multiset(s);
      assert s[i] in r;
    }
  }

  ghost predicate SameCoverage(a: seq<Interval>, b: seq<Interval>) {
    forall k :: Covers(a, k) <==> Covers(b, k)
  }

  /** `b` covers the indices of `a` and those of `next`. */
  ghost predicate Extends(a: seq<Interval>, next: Interval, b: seq<Interval>) {
    forall k :: Covers(b, k) <==> Covers(a, k) || next.start <= k <= next.end
  }

  lemma ExtendsBoth(a: seq<Interval>, b: seq<Interval>, next: Interval, b': seq<Interval>)
    requires SameCoverage(b, a) && Extends(b, next, b')
    ensures SameCoverage(b', a + [next])
  {
    forall k ensures Covers(b', k) <==> Covers(a + [next], k) { CoversAppend(a, next, k); }
  }

  lemma CoversAppend(s: seq<Interval>, x: Interval, k: int)
    ensures Covers(s + [x], k) <==> Covers(s, k) || x.start <= k <= x.end
  {
    if Covers(s, k) {
      var i :| 0 <= i < |s| && s[i].start <= k <= s[i].end;
      assert (s + [x])[i] == s[i];
    }
    assert (s + [x])[|s|] == x;
  }

  /** Joining the last interval with one that starts no earlier. */
  lemma JoinLast(front: seq<Interval>, last: Interval, next: Interval, joined: Interval)
    requires Canonical(front + [last]) && last.start <= next.start <= next.end && next.start <= last.end + 1
    requires joined == Interval(last.start, if last.end < next.end then next.end else last.end)
    ensures Canonical(front + [joined])
    ensures Extends(front + [last], next, front + [joined])
  {
    assert (front + [last])[|front|] == last;
    forall i | 0 <= i < |front| ensures front[i].start <= front[i].end && front[i].end + 1 < joined.start {
      assert (front + [last])[i] == front[i];
    }
    forall i, j | 0 <= i < j < |front| ensures front[i].end + 1 < front[j].start {
      assert (front + [last])[i] == front[i] && (front + [last])[j] == front[j];
    }
    forall k ensures Covers(front + [joined], k) <==> Covers(front + [last], k) || next.start <= k <= next.end {
      CoversAppend(front, last, k);
      CoversAppend(front, joined, k);
    }
  }

  lemma AppendNext(merged: seq<Interval>, next: Interval)
    requires Canonical(merged) && merged != [] && next.start <= next.end
    requires merged[|merged| - 1].end + 1 < next.start
    ensures Canonical(merged + [next])
    ensures Extends(merged, next, merged + [next])
  {
    forall i | 0 <= i < |merged| ensures merged[i].end + 1 < next.start {
      if i < |merged| - 1 { assert merged[i].end + 1 < merged[|merged| - 1].start; }
    }
    forall k ensures Covers(merged + [next], k) <==> Covers(merged, k) || next.start <= k <= next.end {
      CoversAppend(merged, next, k);
    }
  }

  /** The next interval joined to the last one, or put behind it. */
  function Absorb(merged: seq<Interval>, next: Interval): seq<Interval>
    requires merged != []
  {
    var last := merged[|merged| - 1];
    if next.start <= last.end + 1
    then merged[..|merged| - 1] + [Interval(last.start, if last.end < next.end then next.end else last.end)]
    else merged + [next]
  }

  lemma AbsorbStep(seen: seq<Interval>, merged: seq<Interval>, next: Interval)
    requires Canonical(merged) && merged != [] && SameCoverage(merged, seen)
    requires merged[|merged| - 1].start <= next.start <= next.end
    ensures Canonical(Absorb(merged, next)) && SameCoverage(Absorb(merged, next), seen + [next])
  {
    var front, last := merged[..|merged| - 1], merged[|merged| - 1];
    assert merged == front + [last];
    if next.start <= last.end + 1 {
      JoinLast(front, last, next, Interval(last.start, if last.end < next.end then next.end else last.end));
    } else {
      AppendNext(merged, next);
    }
    ExtendsBoth(seen, merged, next, Absorb(merged, next));
  }

  /** `merged` is the canonical form of the first `i` intervals. */
  ghost predicate MergedSoFar(merged: seq<Interval>, sorted: seq<Interval>, i: nat)
    requires 1 <= i <= |sorted|
  {
    Canonical(merged) && merged != [] && merged[|merged| - 1].start <= sorted[i - 1].start
    && SameCoverage(merged, sorted[..i])
  }

  lemma FirstInterval(sorted: seq<Interval>)
    requires NonEmpty(sorted) && sorted != []
    ensures MergedSoFar([sorted[0]], sorted, 1)
  {
    assert sorted[..1] == [sorted[0]];
  }

  lemma AllMerged(merged: seq<Interval>, sorted: seq<Interval>, intervals: seq<Interval>)
    requires sorted != [] && MergedSoFar(merged, sorted, |sorted|) && SameCoverage(sorted, intervals)
    ensures SameCoverage(merged, intervals)
  {
    assert sorted[..|sorted|] == sorted;
  }

  lemma NextInterval(merged: seq<Interval>, sorted: seq<Interval>, i: nat)
    requires 1 <= i < |sorted| && InOrder(sorted) && NonEmpty(sorted) && MergedSoFar(merged, sorted, i)
    ensures MergedSoFar(Absorb(merged, sorted[i]), sorted, i + 1)
  {
    assert sorted[..i + 1] == sorted[..i] + [sorted[i]];
    assert Before(sorted[i - 1], sorted[i]);
    AbsorbStep(sorted[..i], merged, sorted[i]);
  }

  lemma SortedSame(s: seq<Interval>, r: seq<Interval>)
    requires NonEmpty(s) && multiset(r) == multiset(s)
    ensures NonEmpty(r) && SameCoverage(r, s)
  {
    forall k ensures Covers(r, k) <==> Covers(s, k) { SameCover(s, r, k); }
    forall i | 0 <= i < |r| ensures r[i].start <= r[i].end {
      assert r[i] in multiset(r);
      assert r[i] in s;
    }
  }

  /** Sort the intervals and join those that overlap or are adjacent. */
  method MergeIndexIntervals(intervals: seq<Interval>) returns (merged: seq<Interval>)
    requires NonEmpty(intervals)
    ensures Canonical(merged)
    ensures SameCoverage(merged, intervals)
  {
    var sorted := Sorted(intervals);
    SortedSame(intervals, sorted);
    if sorted == [] {
      return [];
    }
    merged := [sorted[0]];
    var i := 1;
    FirstInterval(sorted);
    while i < |sorted|
      invariant 1 <= i <= |sorted|
      invariant MergedSoFar(merged, sorted, i)
    {
      var next, last := sorted[i], merged[|merged| - 1];
      ghost var absorbed := Absorb(merged, next);
      NextInterval(merged, sorted, i);
      if next.start <= last.end + 1 {
        merged := merged[..|merged| - 1] + [Interval(last.start, if last.end < next.end then next.end else last.end)];
      } else {
        merged := merged + [next];
      }
      assert merged == absorbed;
      i := i + 1;
    }
    AllMerged(merged, sorted, intervals);
  }

  lemma CoversTail(a: seq<Interval>, k: int)
    requires Canonical(a) && a != []
    ensures Covers(a[1..], k) <==> Covers(a, k) && k > a[0].end
    ensures Covers(a, k) ==> k >= a[0].start
    ensures !Covers(a, a[0].end + 1)
  {
    if Covers(a[1..], k) {
      var i :| 0 <= i < |a| - 1 && a[1..][i].start <= k <= a[1..][i].end;
      assert a[i + 1] == a[1..][i];
    }
    if Covers(a, k) && k > a[0].end {
      var i :| 0 <= i < |a| && a[i].start <= k <= a[i].end;
      assert a[1..][i - 1] == a[i];
    }
  }

  lemma FirstCovers(a: seq<Interval>, k: int)
    requires a != []
    ensures a[0].start <= k <= a[0].end ==> Covers(a, k)
  {
  }

  lemma SameFirst(a: seq<Interval>, b: seq<Interval>)
    requires Canonical(a) && Canonical(b) && SameCoverage(a, b) && a != []
    ensures b != [] && a[0] == b[0]
  {
    FirstCovers(a, a[0].start);
    assert Covers(b, a[0].start);
    CoversTail(a, b[0].start);
    CoversTail(b, a[0].start);
    FirstCovers(b, b[0].start);
    assert Covers(a, b[0].start);
    CoversTail(a, b[0].end);
    CoversTail(b, a[0].end);
    FirstCovers(a, b[0].end + 1);
    FirstCovers(b, a[0].end + 1);
  }

  lemma SameTail(a: seq<Interval>, b: seq<Interval>)
    requires Canonical(a) && Canonical(b) && SameCoverage(a, b) && a != []
    ensures b != [] && a[0] == b[0]
    ensures Canonical(a[1..]) && Canonical(b[1..]) && SameCoverage(a[1..], b[1..])
  {
    SameFirst(a, b);
    forall k ensures Covers(a[1..], k) <==> Covers(b[1..], k) {
      CoversTail(a, k);
      CoversTail(b, k);
    }
  }

  /** The canonical list is determined by the indices it covers. */
  lemma {:induction false} CanonicalUnique(a: seq<Interval>, b: seq<Interval>)
    requires Canonical(a) && Canonical(b) && SameCoverage(a, b)
    ensures a == b
  {
    if a != [] {
      SameTail(a, b);
      CanonicalUnique(a[1..], b[1..]);
      assert a == [a[0]] + a[1..] && b == [b[0]] + b[1..];
    } else if b != [] {
      SameFirst(b, a);
    }
  }
}
