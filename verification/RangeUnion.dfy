/** `cr_sort_and_remove_overlap`: the union of intervals given in any order. */
module RangeUnion {
  import opened RegexSyntax
  import opened CharRanges
  import opened Shuffle
  import opened Sorting
  import Quicksort

  /** The bounds of one interval, as `rqsort` moves them. */
  datatype Interval = Interval(start: nat, end: nat)

  /** `point_cmp` compares starts only. */
  function PointCmp(x: Interval, y: Interval): int {
    (if x.start > y.start then 1 else 0) - (if x.start < y.start then 1 else 0)
  }

  lemma PointCmpIsOrder()
    ensures IsOrder(PointCmp)
  {
  }

  predicate Covers(x: Interval, c: nat) { x.start <= c < x.end }

  ghost predicate Covered(xs: seq<Interval>, c: nat) {
    exists k :: 0 <= k < |xs| && Covers(xs[k], c)
  }

  predicate IsEmpty(x: Interval) { x.start == x.end }

  /** Position p lies in the closed interval. */
  predicate Touches(x: Interval, p: nat) { x.start <= p <= x.end }

  predicate Proper(xs: seq<Interval>) { forall k :: 0 <= k < |xs| ==> xs[k].start <= xs[k].end }

  /** An empty interval that no other interval absorbs. */
  ghost predicate Isolated(xs: seq<Interval>, p: nat) {
    && (exists k :: 0 <= k < |xs| && xs[k] == Interval(p, p))
    && forall k :: 0 <= k < |xs| && !IsEmpty(xs[k]) ==> !Touches(xs[k], p)
  }

  /** Intervals in order with gaps between them. */
  predicate Separated(xs: seq<Interval>) {
    Proper(xs) && forall k, l :: 0 <= k < l < |xs| ==> xs[k].end < xs[l].start
  }

  predicate Includes(x: Interval, y: Interval) { x.start <= y.start && y.end <= x.end }

  /** The same code points. */
  ghost predicate SameCover(xs: seq<Interval>, out: seq<Interval>) {
    forall c: nat :: Covered(out, c) <==> Covered(xs, c)
  }

  ghost predicate Held(out: seq<Interval>, x: Interval) { exists r :: 0 <= r < |out| && Includes(out[r], x) }

  /** Every interval of `xs` lies inside one of `out`. */
  ghost predicate AllHeld(xs: seq<Interval>, out: seq<Interval>) {
    forall k :: 0 <= k < |xs| ==> Held(out, xs[k])
  }

  ghost predicate StartIn(xs: seq<Interval>, p: nat) { exists k :: 0 <= k < |xs| && xs[k].start == p }

  /** Every start of `out` is one of `xs`. */
  ghost predicate StartsFrom(xs: seq<Interval>, out: seq<Interval>) {
    forall r :: 0 <= r < |out| ==> StartIn(xs, out[r].start)
  }

  /** `out` is the union of the intervals `xs`. */
  ghost predicate IsUnion(xs: seq<Interval>, out: seq<Interval>) {
    Separated(out) && SameCover(xs, out) && AllHeld(xs, out) && StartsFrom(xs, out)
  }

  lemma CoverIs(xs: seq<Interval>, out: seq<Interval>, c: nat)
    requires SameCover(xs, out)
    ensures Covered(out, c) <==> Covered(xs, c)
  {
    hide Covered;
  }

  lemma CoveredBy(xs: seq<Interval>, k: nat, c: nat)
    requires k < |xs| && Covers(xs[k], c)
    ensures Covered(xs, c)
  {
  }

  lemma CoverOf(xs: seq<Interval>, c: nat) returns (k: nat)
    requires Covered(xs, c)
    ensures k < |xs| && Covers(xs[k], c)
  {
    k :| 0 <= k < |xs| && Covers(xs[k], c);
  }

  lemma HeldBy(xs: seq<Interval>, out: seq<Interval>, k: nat) returns (r: nat)
    requires AllHeld(xs, out) && k < |xs|
    ensures r < |out| && Includes(out[r], xs[k])
  {
    assert Held(out, xs[k]);
    r :| 0 <= r < |out| && Includes(out[r], xs[k]);
  }

  lemma StartOf(xs: seq<Interval>, out: seq<Interval>, r: nat) returns (k: nat)
    requires StartsFrom(xs, out) && r < |out|
    ensures k < |xs| && xs[k].start == out[r].start
  {
    assert StartIn(xs, out[r].start);
    k :| 0 <= k < |xs| && xs[k].start == out[r].start;
  }

  ghost predicate HasEmpty(out: seq<Interval>) { exists r :: 0 <= r < |out| && IsEmpty(out[r]) }

  ghost predicate HasIsolated(xs: seq<Interval>) { exists p :: Isolated(xs, p) }

  /** The union has an empty interval exactly when some empty interval given touches no non-empty one. */
  lemma {:induction false} EmptyIffIsolated(xs: seq<Interval>, out: seq<Interval>)
    requires Proper(xs) && IsUnion(xs, out)
    ensures HasEmpty(out) <==> HasIsolated(xs)
  {
    hide Isolated, IsUnion, Proper;
    if HasEmpty(out) {
      var r :| 0 <= r < |out| && IsEmpty(out[r]);
      EmptyIsIsolated(xs, out, r);
    }
    if HasIsolated(xs) {
      var p :| Isolated(xs, p);
      IsolatedIsEmpty(xs, out, p);
    }
  }

  lemma {:induction false} EmptyIsIsolated(xs: seq<Interval>, out: seq<Interval>, r: nat)
    requires Proper(xs) && IsUnion(xs, out) && r < |out| && IsEmpty(out[r])
    ensures Isolated(xs, out[r].start)
  {
    hide SameCover, AllHeld, StartsFrom;
    var p := out[r].start;
    var k := StartOf(xs, out, r);
    var q := HeldBy(xs, out, k);
    assert q == r;
    assert xs[k] == Interval(p, p);
    forall l | 0 <= l < |xs| && !IsEmpty(xs[l]) ensures !Touches(xs[l], p) {
      var t := HeldBy(xs, out, l);
      assert t != r;
    }
  }

  lemma {:induction false} IsolatedIsEmpty(xs: seq<Interval>, out: seq<Interval>, p: nat)
    requires Proper(xs) && IsUnion(xs, out) && Isolated(xs, p)
    ensures HasEmpty(out)
  {
    hide SameCover, AllHeld, StartsFrom, Covered;
    var k :| 0 <= k < |xs| && xs[k] == Interval(p, p);
    var r := HeldBy(xs, out, k);
    var x := out[r];
    if !IsEmpty(x) {
      var c := if p < x.end then p else p - 1;
      CoveredBy(out, r, c);
      CoverIs(xs, out, c);
      var l := CoverOf(xs, c);
      var q := HeldBy(xs, out, l);
    }
  }

  /** The intervals as an array of bounds. */
  function Bounds(xs: seq<Interval>): (points: seq<nat>)
    ensures |points| == 2 * |xs|
  {
    seq(2 * |xs|, i requires 0 <= i < 2 * |xs| => if i % 2 == 0 then xs[i / 2].start else xs[i / 2].end)
  }

  lemma BoundsAt(xs: seq<Interval>, k: nat)
    requires k < |xs|
    ensures Bounds(xs)[2 * k] == xs[k].start && Bounds(xs)[2 * k + 1] == xs[k].end
  {
  }

  lemma {:induction false} BoundsAreRange(xs: seq<Interval>)
    requires Separated(xs)
    ensures IsRange(Bounds(xs)) && (IsCanonical(Bounds(xs)) <==> !HasEmpty(xs))
  {
    var p := Bounds(xs);
    forall i, j | 0 <= i < j < |p| ensures p[i] <= p[j] && (!HasEmpty(xs) ==> p[i] < p[j]) {
      var x, y := xs[i / 2], xs[j / 2];
      assert i / 2 < j / 2 || (i / 2 == j / 2 && i % 2 == 0 && j % 2 == 1);
      assert x.start <= x.end && y.start <= y.end;
    }
    if HasEmpty(xs) {
      var r :| 0 <= r < |xs| && IsEmpty(xs[r]);
      BoundsAt(xs, r);
      assert !(p[2 * r] < p[2 * r + 1]);
    }
  }

  /** Membership in the array of bounds is membership in one of the intervals. */
  lemma {:induction false} BoundsCover(xs: seq<Interval>, c: nat)
    requires Separated(xs)
    ensures Inside(Bounds(xs), c) <==> Covered(xs, c)
  {
    hide InIntervals, Covered, Separated, IsSorted, Bounds;
    BoundsAreRange(xs);
    InsideIsInIntervals(Bounds(xs), c);
    if InIntervals(Bounds(xs), c) {
      var k := IntervalAt(xs, c);
      CoveredBy(xs, k, c);
    }
    if Covered(xs, c) {
      var k := CoverOf(xs, c);
      BoundsAt(xs, k);
      InIntervalsBy(Bounds(xs), 2 * k, c);
    }
  }

  lemma IntervalAt(xs: seq<Interval>, c: nat) returns (k: nat)
    requires InIntervals(Bounds(xs), c)
    ensures k < |xs| && Covers(xs[k], c)
  {
    var i :| 0 <= i < |Bounds(xs)| - 1 && i % 2 == 0 && Bounds(xs)[i] <= c < Bounds(xs)[i + 1];
    k := i / 2;
    BoundsAt(xs, k);
  }

  lemma InIntervalsBy(p: seq<nat>, i: nat, c: nat)
    requires i + 1 < |p| && i % 2 == 0 && p[i] <= c < p[i + 1]
    ensures InIntervals(p, c)
  {
  }

  // ---- the merge loop ----

  /** The first i intervals of the sorted list have been merged into `out`. */
  ghost predicate MergedUpTo(xs: seq<Interval>, out: seq<Interval>, i: nat) {
    && i <= |xs| && |out| <= i && IsUnion(xs[..i], out)
    && forall k, r :: i <= k < |xs| && 0 <= r < |out| ==> out[r].end < xs[k].start
  }

  predicate Ordered(xs: seq<Interval>) { forall k, l :: 0 <= k < l < |xs| ==> xs[k].start <= xs[l].start }

  /** The intervals from i0 on have been merged into the interval x, up to i. */
  ghost predicate Group(xs: seq<Interval>, i0: nat, i: nat, x: Interval) {
    && i0 < i <= |xs| && x.start == xs[i0].start && x.start <= x.end
    && (forall k :: i0 <= k < i ==> Includes(x, xs[k]))
    && forall c: nat :: Covers(x, c) ==> exists k :: i0 <= k < i && Covers(xs[k], c)
  }

  lemma GroupStart(xs: seq<Interval>, i: nat)
    requires i < |xs| && Proper(xs)
    ensures Group(xs, i, i + 1, xs[i])
  {
  }

  lemma {:induction false} GroupMore(xs: seq<Interval>, i0: nat, i: nat, x: Interval)
    requires Proper(xs) && Ordered(xs) && Group(xs, i0, i, x) && i < |xs| && xs[i].start <= x.end
    ensures Group(xs, i0, i + 1, if xs[i].end <= x.end then x else Interval(x.start, xs[i].end))
  {
    var y := if xs[i].end <= x.end then x else Interval(x.start, xs[i].end);
    forall c: nat | Covers(y, c) ensures exists k :: i0 <= k < i + 1 && Covers(xs[k], c) {
      if Covers(x, c) {
        var k :| i0 <= k < i && Covers(xs[k], c);
      } else {
        assert Covers(xs[i], c);
      }
    }
  }

  lemma {:induction false} GroupDone(xs: seq<Interval>, out: seq<Interval>, i0: nat, i: nat, x: Interval)
    requires Proper(xs) && Ordered(xs) && MergedUpTo(xs, out, i0) && Group(xs, i0, i, x)
    requires i < |xs| ==> xs[i].start > x.end
    ensures MergedUpTo(xs, out + [x], i)
  {
    hide SameCover, AllHeld, StartsFrom, Covered;
    var o := out + [x];
    assert Separated(o);
    assert SameCover(xs[..i], o) by { GroupSameCover(xs, out, i0, i, x); }
    GroupHeld(xs, out, i0, i, x);
    GroupStarts(xs, out, i0, i, x);
  }

  lemma {:induction false} GroupHeld(xs: seq<Interval>, out: seq<Interval>, i0: nat, i: nat, x: Interval)
    requires i0 <= |xs| && AllHeld(xs[..i0], out) && Group(xs, i0, i, x)
    ensures AllHeld(xs[..i], out + [x])
  {
    hide AllHeld;
    var o := out + [x];
    assert AllHeld(xs[..i], o) by {
      forall k | 0 <= k < |xs[..i]| ensures Held(o, xs[..i][k]) {
        if k < i0 {
          var r := HeldBy(xs[..i0], out, k);
          assert Includes(o[r], xs[..i][k]);
        } else {
          assert Includes(o[|out|], xs[..i][k]);
        }
      }
      AllHeldIs(xs[..i], o);
    }
  }

  lemma AllHeldIs(xs: seq<Interval>, out: seq<Interval>)
    requires forall k :: 0 <= k < |xs| ==> Held(out, xs[k])
    ensures AllHeld(xs, out)
  {
  }

  lemma {:induction false} GroupStarts(xs: seq<Interval>, out: seq<Interval>, i0: nat, i: nat, x: Interval)
    requires i0 <= |xs| && StartsFrom(xs[..i0], out) && Group(xs, i0, i, x)
    ensures StartsFrom(xs[..i], out + [x])
  {
    var o := out + [x];
    forall r | 0 <= r < |o| ensures StartIn(xs[..i], o[r].start) {
      if r < |out| {
        var k := StartOf(xs[..i0], out, r);
        assert xs[..i][k].start == o[r].start;
      } else {
        assert xs[..i][i0].start == o[r].start;
      }
    }
  }

  lemma {:induction false} GroupSameCover(xs: seq<Interval>, out: seq<Interval>, i0: nat, i: nat, x: Interval)
    requires i0 <= |xs| && SameCover(xs[..i0], out) && Group(xs, i0, i, x)
    ensures SameCover(xs[..i], out + [x])
  {
    hide Covered;
    forall c: nat ensures Covered(out + [x], c) <==> Covered(xs[..i], c) { GroupCovers(xs, out, i0, i, x, c); }
  }

  lemma {:induction false} GroupCovers(xs: seq<Interval>, out: seq<Interval>, i0: nat, i: nat, x: Interval, c: nat)
    requires i0 <= |xs| && SameCover(xs[..i0], out) && Group(xs, i0, i, x)
    ensures Covered(out + [x], c) <==> Covered(xs[..i], c)
  {
    hide Covered, SameCover;
    var o := out + [x];
    CoverIs(xs[..i0], out, c);
    if Covered(o, c) {
      var r := CoverOf(o, c);
      if r < |out| {
        CoveredBy(out, r, c);
        var k := CoverOf(xs[..i0], c);
        CoveredBy(xs[..i], k, c);
      } else {
        var k :| i0 <= k < i && Covers(xs[k], c);
        CoveredBy(xs[..i], k, c);
      }
    }
    if Covered(xs[..i], c) {
      var k := CoverOf(xs[..i], c);
      if k < i0 {
        CoveredBy(xs[..i0], k, c);
        var r := CoverOf(out, c);
        CoveredBy(o, r, c);
      } else {
        assert Includes(x, xs[k]);
        CoveredBy(o, |out|, c);
      }
    }
  }

  lemma MergeStart(xs: seq<Interval>)
    ensures MergedUpTo(xs, [], 0)
  {
  }

  /** Sorting keeps the intervals proper and puts them in order. */
  lemma {:induction false} SortedGiven(given: seq<Interval>, xs: seq<Interval>)
    requires Proper(given) && Shuffled(given, xs, 0, |xs|) && SortedFrom(xs, PointCmp, 0, |xs|)
    ensures Proper(xs) && Ordered(xs)
  {
    hide Shuffled;
    Lengths(given, xs, 0, |xs|);
    forall k | 0 <= k < |xs| ensures xs[k].start <= xs[k].end {
      var k0 := ShuffledFrom(given, xs, 0, |xs|, k);
    }
    forall k, l | 0 <= k < l < |xs| ensures xs[k].start <= xs[l].start {
      assert PointCmp(xs[k], xs[l]) <= 0;
    }
  }

  /** The union of the sorted intervals is the union of the intervals given. */
  lemma {:induction false} MergeDone(given: seq<Interval>, xs: seq<Interval>, out: seq<Interval>)
    requires Shuffled(given, xs, 0, |xs|) && MergedUpTo(xs, out, |xs|)
    ensures IsUnion(given, out)
  {
    hide Shuffled, SameCover, AllHeld, StartsFrom;
    assert xs[..|xs|] == xs;
    Lengths(given, xs, 0, |xs|);
    Unshuffled(given, xs);
    assert SameCover(given, out) by { CoverShuffled(given, xs, out); }
    assert AllHeld(given, out) by {
      forall k | 0 <= k < |given| ensures Held(out, given[k]) {
        var k0 := ShuffledFrom(xs, given, 0, |xs|, k);
        var r := HeldBy(xs, out, k0);
      }
      AllHeldIs(given, out);
    }
    assert StartsFrom(given, out) by { StartsShuffled(given, xs, out); }
  }

  lemma {:induction false} StartsShuffled(given: seq<Interval>, xs: seq<Interval>, out: seq<Interval>)
    requires Shuffled(given, xs, 0, |xs|) && StartsFrom(xs, out)
    ensures StartsFrom(given, out)
  {
    hide Shuffled;
    Lengths(given, xs, 0, |xs|);
    forall r | 0 <= r < |out| ensures StartIn(given, out[r].start) {
      var k := StartOf(xs, out, r);
      var k0 := ShuffledFrom(given, xs, 0, |xs|, k);
      assert given[k0].start == out[r].start;
    }
  }

  lemma {:induction false} CoverShuffled(given: seq<Interval>, xs: seq<Interval>, out: seq<Interval>)
    requires Shuffled(given, xs, 0, |xs|) && Shuffled(xs, given, 0, |xs|) && SameCover(xs, out)
    ensures SameCover(given, out)
  {
    hide Shuffled, Covered;
    Lengths(given, xs, 0, |xs|);
    forall c: nat ensures Covered(out, c) <==> Covered(given, c) {
      CoverIs(xs, out, c);
      if Covered(xs, c) {
        var k := CoverOf(xs, c);
        var k0 := ShuffledFrom(given, xs, 0, |xs|, k);
        CoveredBy(given, k0, c);
      }
      if Covered(given, c) {
        var k := CoverOf(given, c);
        var k0 := ShuffledFrom(xs, given, 0, |xs|, k);
        CoveredBy(xs, k0, c);
      }
    }
  }

  lemma Unshuffled<T>(s: seq<T>, t: seq<T>)
    requires Shuffled(s, t, 0, |t|)
    ensures Shuffled(t, s, 0, |t|)
  {
  }

  /** Sort the intervals by start, then merge neighbours that overlap or touch, in place. */
  method SortAndRemoveOverlap(a: array<Interval>) returns (len: nat)
    requires Proper(a[..])
    modifies a
    ensures len <= a.Length && IsUnion(old(a[..]), a[..len])
    ensures IsRange(Bounds(a[..len])) && forall c: nat :: Inside(Bounds(a[..len]), c) <==> Covered(old(a[..]), c)
    ensures IsCanonical(Bounds(a[..len])) <==> !HasIsolated(old(a[..]))
  {
    hide *;
    ghost var given := a[..];
    PointCmpIsOrder();
    Quicksort.Rqsort(a, PointCmp);
    ghost var xs := a[..];
    SortedGiven(given, xs);
    len := 0;
    var i := 0;
    MergeStart(xs);
    while i < a.Length
      invariant i <= a.Length && len <= i && MergedUpTo(xs, a[..len], i) && a[i..] == xs[i..]
    {
      ghost var i0, now := i, a[..];
      assert now[i..] == xs[i..] && now[..len] == a[..len];
      var start, end := a[i].start, a[i].end;
      GroupStart(xs, i);
      assert a[i] == now[i..][0] == xs[i];
      i := i + 1;
      while i < a.Length && a[i].start <= end
        invariant i0 < i <= a.Length && start <= end && Group(xs, i0, i, Interval(start, end)) && a[..] == now
      {
        assert a[i] == now[i0..][i - i0] == xs[i];
        GroupMore(xs, i0, i, Interval(start, end));
        if a[i].end > end {
          end := a[i].end;
        }
        i := i + 1;
      }
      assert i < a.Length ==> a[i] == now[i0..][i - i0] == xs[i];
      ghost var out := a[..len];
      assert now[i0..] == xs[i0..];
      GroupDone(xs, out, i0, i, Interval(start, end));
      assert a[i..] == now[i0..][i - i0..] == xs[i..];
      a[len] := Interval(start, end);
      len := len + 1;
      assert a[..len] == out + [Interval(start, end)];
    }
    MergeDone(given, xs, a[..len]);
    EmptyIffIsolated(given, a[..len]);
    UnionBounds(given, a[..len]);
  }

  /** The array of bounds of a union. */
  lemma {:induction false} UnionBounds(xs: seq<Interval>, out: seq<Interval>)
    requires IsUnion(xs, out)
    ensures IsRange(Bounds(out)) && (IsCanonical(Bounds(out)) <==> !HasEmpty(out))
    ensures forall c: nat :: Inside(Bounds(out), c) <==> Covered(xs, c)
  {
    hide Inside, Bounds, Covered, Separated, IsSorted, AllHeld, StartsFrom, HasEmpty;
    BoundsAreRange(out);
    forall c: nat ensures Inside(Bounds(out), c) <==> Covered(xs, c) {
      BoundsCover(out, c);
      CoverIs(xs, out, c);
    }
  }
}
