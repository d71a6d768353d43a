/** Sets of code points as sorted arrays of interval bounds (`CharRange`): parity merge, compression in
    place, complement. */
module CharRanges {
  import opened RegexSyntax

  const UINT32_MAX: nat := 0xffff_ffff

  predicate IsSorted(points: seq<nat>) {
    forall i, j :: 0 <= i < j < |points| ==> points[i] <= points[j]
  }

  /** Bounds of half-open intervals, in order; empty and adjacent intervals may occur. */
  predicate IsRange(points: seq<nat>) {
    |points| % 2 == 0 && IsSorted(points)
  }

  /** The unique form: no empty interval, and no two intervals that touch. */
  predicate IsCanonical(points: seq<nat>) {
    |points| % 2 == 0 && forall i, j :: 0 <= i < j < |points| ==> points[i] < points[j]
  }

  // ---- membership by parity ----

  /** Number of bounds at or below `c`. */
  function Count(points: seq<nat>, c: nat): nat {
    if points == [] then 0 else Count(points[..|points| - 1], c) + if points[|points| - 1] <= c then 1 else 0
  }

  lemma {:induction false} CountAppend(a: seq<nat>, b: seq<nat>, c: nat)
    ensures Count(a + b, c) == Count(a, c) + Count(b, c)
    decreases |b|
  {
    if b == [] {
      assert a + b == a;
    } else {
      var m := |b| - 1;
      assert (a + b)[..|a + b| - 1] == a + b[..m];
      CountAppend(a, b[..m], c);
    }
  }

  lemma CountOne(v: nat, c: nat)
    ensures Count([v], c) == if v <= c then 1 else 0
  {
    assert [v][..0] == [];
  }

  lemma {:induction false} CountAll(points: seq<nat>, c: nat)
    requires forall i :: 0 <= i < |points| ==> points[i] <= c
    ensures Count(points, c) == |points|
  {
    if points != [] {
      CountAll(points[..|points| - 1], c);
    }
  }

  lemma {:induction false} CountNone(points: seq<nat>, c: nat)
    requires forall i :: 0 <= i < |points| ==> c < points[i]
    ensures Count(points, c) == 0
  {
    if points != [] {
      CountNone(points[..|points| - 1], c);
    }
  }

  /** `c` lies between the bounds k - 1 and k. */
  lemma {:induction false} CountBetween(points: seq<nat>, c: nat, k: nat)
    requires k <= |points|
    requires forall i :: 0 <= i < k ==> points[i] <= c
    requires forall i :: k <= i < |points| ==> c < points[i]
    ensures Count(points, c) == k
  {
    assert points == points[..k] + points[k..];
    CountAppend(points[..k], points[k..], c);
    CountAll(points[..k], c);
    CountNone(points[k..], c);
  }

  /** The number of bounds at or below `c` splits a sorted list. */
  lemma {:induction false} CountSplits(points: seq<nat>, c: nat)
    requires IsSorted(points)
    ensures Count(points, c) <= |points|
    ensures forall i :: 0 <= i < |points| ==> (points[i] <= c <==> i < Count(points, c))
  {
    var k := 0;
    while k < |points| && points[k] <= c
      invariant k <= |points| && forall i :: 0 <= i < k ==> points[i] <= c
    {
      k := k + 1;
    }
    CountBetween(points, c, k);
  }

  ghost predicate Inside(points: seq<nat>, c: nat) { Count(points, c) % 2 == 1 }

  /** The parity of the number of bounds decides membership in the intervals. */
  lemma {:induction false} InsideIsInIntervals(points: seq<nat>, c: nat)
    requires IsRange(points)
    ensures Inside(points, c) <==> InIntervals(points, c)
  {
    CountSplits(points, c);
    var k := Count(points, c);
    if Inside(points, c) {
      assert points[k - 1] <= c < points[k];
      assert (k - 1) % 2 == 0 && points[k - 1] <= c < points[(k - 1) + 1];
    }
    if InIntervals(points, c) {
      var i :| 0 <= i < |points| - 1 && i % 2 == 0 && points[i] <= c < points[i + 1];
      assert k == i + 1;
    }
  }

  lemma {:induction false} CountTail(points: seq<nat>, c: nat)
    requires points != []
    ensures Count(points, c) == Count(points[1..], c) + if points[0] <= c then 1 else 0
  {
    assert points == [points[0]] + points[1..];
    CountAppend([points[0]], points[1..], c);
    CountOne(points[0], c);
  }

  predicate StrictlyIncreasing(points: seq<nat>) {
    forall i, j :: 0 <= i < j < |points| ==> points[i] < points[j]
  }

  /** Strictly increasing bounds are determined by the set. */
  lemma {:induction false} CanonicalUnique(p: seq<nat>, q: seq<nat>)
    requires StrictlyIncreasing(p) && StrictlyIncreasing(q) && forall c: nat :: Inside(p, c) == Inside(q, c)
    ensures p == q
    decreases |p| + |q|
  {
    if p == [] && q == [] {
    } else if p == [] || (q != [] && q[0] < p[0]) {
      Earlier(q, p);
    } else if q == [] || p[0] < q[0] {
      Earlier(p, q);
    } else {
      hide *;
      forall c: nat ensures Inside(p[1..], c) == Inside(q[1..], c) {
        assert Inside(p, c) == Inside(q, c);
        InsideTail(p, c);
        InsideTail(q, c);
      }
      TailIncreasing(p);
      TailIncreasing(q);
      CanonicalUnique(p[1..], q[1..]);
      assert p == [p[0]] + p[1..] && q == [q[0]] + q[1..];
    }
  }

  lemma TailIncreasing(p: seq<nat>)
    requires StrictlyIncreasing(p) && p != []
    ensures StrictlyIncreasing(p[1..])
  {
  }

  lemma InsideTail(p: seq<nat>, c: nat)
    requires p != []
    ensures Inside(p, c) == (Inside(p[1..], c) != (p[0] <= c))
  {
    hide Count;
    CountTail(p, c);
  }

  /** The first bound of `p` tells the sets apart. */
  lemma {:induction false} Earlier(p: seq<nat>, q: seq<nat>)
    requires StrictlyIncreasing(p) && StrictlyIncreasing(q) && p != [] && (q != [] ==> p[0] < q[0])
    ensures Inside(p, p[0]) != Inside(q, p[0])
  {
    CountBetween(p, p[0], 1);
    CountNone(q, p[0]);
  }

  // ---- the operations ----

  datatype SetOp = Union | Inter | Xor | Sub

  ghost predicate Combine(op: SetOp, x: bool, y: bool) {
    match op
    case Union => x || y
    case Inter => x && y
    case Xor => x != y
    case Sub => x && !y
  }

  /** The same set. */
  ghost predicate SameSet(p: seq<nat>, q: seq<nat>) {
    forall c: nat :: Inside(p, c) == Inside(q, c)
  }

  /** The lists agree from i on. */
  predicate SameTail(s: seq<nat>, t: seq<nat>, i: nat) { i <= |s| == |t| && s[i..] == t[i..] }

  lemma SameTailAll(s: seq<nat>)
    ensures SameTail(s, s, 0)
  {
  }

  lemma SameAt(s: seq<nat>, t: seq<nat>, i: nat, j: nat)
    requires SameTail(s, t, i) && i <= j < |s|
    ensures j < |t| && s[j] == t[j]
  {
    assert s[j] == s[i..][j - i] && t[j] == t[i..][j - i];
  }

  lemma SameTailMore(s: seq<nat>, t: seq<nat>, i: nat, j: nat)
    requires SameTail(s, t, i) && i <= j <= |s|
    ensures SameTail(s, t, j)
  {
    assert s[j..] == s[i..][j - i..] && t[j..] == t[i..][j - i..];
  }

  lemma StorePair(s: seq<nat>, t: seq<nat>, k: nat, i: nat, x: nat, y: nat)
    requires k + 2 <= i && SameTail(s, t, i)
    ensures var r := s[k := x][k + 1 := y]; |r| == |s| && r[..k + 2] == s[..k] + [x, y] && SameTail(r, t, i)
  {
    var r := s[k := x][k + 1 := y];
    assert r[..k + 2] == s[..k] + [x, y];
    assert r[i..] == s[i..];
  }

  class CharRange {
    var points: seq<nat>

    constructor ()
      ensures points == []
    {
      points := [];
    }

    /** `cr_add_point`. */
    method AddPoint(v: nat)
      modifies this
      ensures points == old(points) + [v]
    {
      points := points + [v];
    }

    /** `cr_compress`: drop empty intervals and merge those that touch, in place. */
    method Compress()
      requires IsRange(points)
      modifies this
      ensures IsCanonical(points) && SameSet(points, old(points))
      ensures forall x :: x in points ==> x in old(points)
    {
      hide *;
      ghost var was := points;
      CompressStart(was);
      SameTailAll(was);
      var len := |points|;
      var i, k := 0, 0;
      while i + 1 < len
        invariant k % 2 == 0 && i % 2 == 0 && k <= i <= len == |points| == |was| && SameTail(points, was, i)
        invariant Compressed(was, points[..k], i)
      {
        SameAt(points, was, i, i);
        SameAt(points, was, i, i + 1);
        if points[i] == points[i + 1] {
          SkipEmpty(was, points[..k], i);
          SameTailMore(points, was, i, i + 2);
          i := i + 2;
        } else {
          var j := RunEnd(i, was);
          ghost var before := points[..k];
          SameAt(points, was, i, j + 1);
          MergeRun(was, before, i, j);
          SameTailMore(points, was, i, j + 2);
          StorePair(points, was, k, j + 2, was[i], was[j + 1]);
          points := points[k := points[i]][k + 1 := points[j + 1]];
          k := k + 2;
          i := j + 2;
        }
      }
      points := points[..k];
      CompressEnd(was, points, i);
    }

    /** The last of the intervals from bound i on of which each starts where the one before it ends. */
    method RunEnd(i: nat, ghost was: seq<nat>) returns (j: nat)
      requires SameTail(points, was, i) && i + 1 < |points| == |was| && i % 2 == 0
      ensures i <= j && j + 1 < |points| && j % 2 == 0 && Chained(was, i, j)
      ensures j + 3 < |points| ==> was[j + 1] != was[j + 2]
    {
      hide *;
      j := i;
      ChainOne(was, i);
      while j + 3 < |points| && points[j + 1] == points[j + 2]
        invariant i <= j && j + 1 < |points| && j % 2 == 0 && Chained(was, i, j)
      {
        SameAt(points, was, i, j + 1);
        SameAt(points, was, i, j + 2);
        ChainMore(was, i, j);
        j := j + 2;
      }
      if j + 3 < |points| {
        SameAt(points, was, i, j + 1);
        SameAt(points, was, i, j + 2);
      }
    }

    /** `cr_op`: merge the bounds of both sets in increasing order; a bound is kept when it changes
        whether the result contains the code points from there on. */
    method Op(a: seq<nat>, b: seq<nat>, op: SetOp)
      requires points == [] && IsRange(a) && IsRange(b)
      modifies this
      ensures IsCanonical(points)
      ensures forall c: nat ::
          Inside(points, c) <==>
          match op
          case Union => Inside(a, c) || Inside(b, c)
          case Inter => Inside(a, c) && Inside(b, c)
          case Xor => Inside(a, c) != Inside(b, c)
          case Sub => Inside(a, c) && !Inside(b, c)
      ensures forall x :: x in points ==> x in a || x in b
    {
      hide Merged, IsSorted, IsCanonical, Inside;
      var i, j := 0, 0;
      MergeStart(a, b, op);
      while i < |a| || j < |b|
        invariant i <= |a| && j <= |b| && Merged(a, b, op, points, i, j)
        decreases |a| - i + |b| - j
      {
        ghost var i0, j0 := i, j;
        var v;
        if i < |a| && j < |b| {
          if a[i] < b[j] {
            v, i := a[i], i + 1;
          } else if a[i] == b[j] {
            v, i, j := a[i], i + 1, j + 1;
          } else {
            v, j := b[j], j + 1;
          }
        } else if i < |a| {
          v, i := a[i], i + 1;
        } else {
          v, j := b[j], j + 1;
        }
        MergePoint(a, b, op, points, i0, j0, v, i, j);
        var isIn;
        match op {
          case Union => isIn := i % 2 == 1 || j % 2 == 1;
          case Inter => isIn := i % 2 == 1 && j % 2 == 1;
          case Xor => isIn := (i % 2 == 1) != (j % 2 == 1);
          case Sub => isIn := i % 2 == 1 && j % 2 == 0;
        }
        if isIn != (|points| % 2 == 1) {
          AddPoint(v);
        }
      }
      MergeEnd(a, b, op, points);
      ghost var merged := points;
      Compress();
      CombineSame(a, b, op, merged, points);
    }

    /** `cr_op1`: combine this set with another. */
    method Op1(b: seq<nat>, op: SetOp)
      requires IsRange(points) && IsRange(b)
      modifies this
      ensures IsCanonical(points)
      ensures forall c: nat ::
          Inside(points, c) <==>
          match op
          case Union => Inside(old(points), c) || Inside(b, c)
          case Inter => Inside(old(points), c) && Inside(b, c)
          case Xor => Inside(old(points), c) != Inside(b, c)
          case Sub => Inside(old(points), c) && !Inside(b, c)
      ensures forall x :: x in points ==> x in old(points) || x in b
    {
      hide Inside, IsCanonical, IsRange;
      var a := points;
      points := [];
      Op(a, b, op);
    }

    /** `cr_union_interval`: add the code points from c1 to c2. */
    method UnionInterval(c1: nat, c2: nat)
      requires IsRange(points) && c1 <= c2 < UINT32_MAX
      modifies this
      ensures IsCanonical(points) && forall c: nat :: Inside(points, c) <==> Inside(old(points), c) || c1 <= c <= c2
    {
      hide Inside, IsCanonical;
      var b := [c1, c2 + 1];
      Op1(b, Union);
      forall c: nat ensures Inside(b, c) <==> c1 <= c <= c2 { InsideInterval(c1, c2 + 1, c); }
    }

    /** `cr_invert`. */
    method Invert()
      requires IsRange(points) && Bounded(points)
      modifies this
      ensures IsComplement(old(points), points)
    {
      hide Inside;
      ghost var was := points;
      points := [0] + points + [UINT32_MAX];
      ghost var padded := points;
      Compress();
      Complemented(was, padded, points);
    }
  }

  predicate Bounded(points: seq<nat>) { forall i :: 0 <= i < |points| ==> points[i] <= UINT32_MAX }

  /** `b` is the canonical complement of `a` below UINT32_MAX. */
  ghost predicate IsComplement(a: seq<nat>, b: seq<nat>) {
    && IsCanonical(b) && Bounded(b)
    && forall c: nat :: c < UINT32_MAX ==> (Inside(b, c) <==> !Inside(a, c))
  }

  /** Nothing at or above the last bound is inside. */
  lemma {:induction false} BoundedSet(p: seq<nat>, c: nat)
    requires |p| % 2 == 0 && Bounded(p) && c >= UINT32_MAX
    ensures !Inside(p, c)
  {
    CountAll(p, c);
  }

  /** Inverting twice restores the array. */
  lemma {:induction false} InvertTwice(a: seq<nat>, b: seq<nat>, c: seq<nat>)
    requires IsCanonical(a) && Bounded(a) && IsComplement(a, b) && IsComplement(b, c)
    ensures c == a
  {
    forall x: nat ensures Inside(c, x) == Inside(a, x) {
      if x >= UINT32_MAX {
        BoundedSet(a, x);
        BoundedSet(c, x);
      }
    }
    CanonicalUnique(c, a);
  }

  lemma {:induction false} Complemented(was: seq<nat>, padded: seq<nat>, r: seq<nat>)
    requires IsRange(was) && Bounded(was) && padded == [0] + was + [UINT32_MAX]
    requires IsCanonical(r) && SameSet(r, padded) && forall x :: x in r ==> x in padded
    ensures IsComplement(was, r)
  {
    forall c: nat | c < UINT32_MAX ensures Inside(r, c) <==> !Inside(was, c) {
      assert Inside(r, c) == Inside(padded, c);
      CountAppend([0] + was, [UINT32_MAX], c);
      CountAppend([0], was, c);
      CountOne(0, c);
      CountOne(UINT32_MAX, c);
    }
    forall i | 0 <= i < |r| ensures r[i] <= UINT32_MAX {
      assert r[i] in padded;
    }
  }

  lemma {:induction false} InsideInterval(u: nat, v: nat, c: nat)
    requires u <= v
    ensures Inside([u, v], c) <==> u <= c < v
  {
    assert [u, v] == [] + [u, v];
    CountPair([], u, v, c);
  }

  // ---- the merge ----

  /** `out` is the combination of the first i bounds of `a` and the first j bounds of `b`, and no bound
      left over lies before any of these. */
  ghost predicate Merged(a: seq<nat>, b: seq<nat>, op: SetOp, out: seq<nat>, i: nat, j: nat)
    requires i <= |a| && j <= |b|
  {
    && IsSorted(out)
    && (|out| % 2 == 1) == Combine(op, i % 2 == 1, j % 2 == 1)
    && (forall c: nat :: Inside(out, c) == Combine(op, Inside(a[..i], c), Inside(b[..j], c)))
    && (forall x :: x in out ==> x in a[..i] || x in b[..j])
    && Before(a[..i], a[i..]) && Before(a[..i], b[j..]) && Before(b[..j], a[i..]) && Before(b[..j], b[j..])
  }

  predicate Before(x: seq<nat>, y: seq<nat>) {
    forall k, l :: 0 <= k < |x| && 0 <= l < |y| ==> x[k] <= y[l]
  }

  lemma MergeStart(a: seq<nat>, b: seq<nat>, op: SetOp)
    ensures Merged(a, b, op, [], 0, 0)
  {
    assert a[..0] == [] && b[..0] == [];
  }

  lemma MergeEnd(a: seq<nat>, b: seq<nat>, op: SetOp, out: seq<nat>)
    requires IsRange(a) && IsRange(b) && Merged(a, b, op, out, |a|, |b|)
    ensures IsRange(out) && forall c: nat :: Inside(out, c) == Combine(op, Inside(a, c), Inside(b, c))
    ensures forall x :: x in out ==> x in a || x in b
  {
    hide Inside;
    assert a[..|a|] == a && b[..|b|] == b;
  }

  lemma CombineSame(a: seq<nat>, b: seq<nat>, op: SetOp, p: seq<nat>, q: seq<nat>)
    requires SameSet(q, p) && forall c: nat :: Inside(p, c) == Combine(op, Inside(a, c), Inside(b, c))
    ensures forall c: nat :: Inside(q, c) == Combine(op, Inside(a, c), Inside(b, c))
  {
    hide Inside;
  }

  /** All bounds of `x` lie at or below `v`. */
  predicate AllAtMost(x: seq<nat>, v: nat) { forall k :: 0 <= k < |x| ==> x[k] <= v }

  /** Taking the least bound left, and keeping it when the membership changes. */
  lemma {:induction false} MergePoint(a: seq<nat>, b: seq<nat>, op: SetOp, out: seq<nat>, i: nat, j: nat, v: nat,
      i1: nat, j1: nat)
    requires IsSorted(a) && IsSorted(b) && i <= i1 <= |a| && j <= j1 <= |b| && Merged(a, b, op, out, i, j)
    requires i1 <= i + 1 && j1 <= j + 1 && i1 + j1 > i + j
    requires (i1 > i ==> a[i] == v) && (j1 > j ==> b[j] == v)
    requires (i1 == i && i < |a| ==> v < a[i]) && (j1 == j && j < |b| ==> v < b[j])
    ensures var change := Combine(op, i1 % 2 == 1, j1 % 2 == 1) != (|out| % 2 == 1);
            Merged(a, b, op, if change then out + [v] else out, i1, j1)
  {
    hide *;
    var change := Combine(op, i1 % 2 == 1, j1 % 2 == 1) != (|out| % 2 == 1);
    var out1 := if change then out + [v] else out;
    var x, y, x1, y1 := a[..i], b[..j], a[..i1], b[..j1];
    MergedParts(a, b, op, out, i, j);
    PrefixAtMost(a, b, i, j, v, i1, j1, out, op);
    assert x1 == if i1 > i then x + [v] else x;
    assert y1 == if j1 > j then y + [v] else y;
    OutAtMost(x, y, out, v);
    assert (|out1| % 2 == 1) == Combine(op, |x1| % 2 == 1, |y1| % 2 == 1);
    forall c: nat ensures Inside(out1, c) == Combine(op, Inside(x1, c), Inside(y1, c)) {
      assert Inside(out, c) == Combine(op, Inside(x, c), Inside(y, c));
      ParityStep(out, v, out1, c);
      ParityStep(x, v, x1, c);
      ParityStep(y, v, y1, c);
    }
    SortedPush(out, v);
    assert forall w :: w in out1 ==> w in x1 || w in y1;
    MergeBefore(a, b, i, j, v, i1, j1, op, out);
    MergedFrom(a, b, op, out1, i1, j1);
  }

  lemma MergedParts(a: seq<nat>, b: seq<nat>, op: SetOp, out: seq<nat>, i: nat, j: nat)
    requires i <= |a| && j <= |b| && Merged(a, b, op, out, i, j)
    ensures IsSorted(out) && (|out| % 2 == 1) == Combine(op, i % 2 == 1, j % 2 == 1)
    ensures forall c: nat :: Inside(out, c) == Combine(op, Inside(a[..i], c), Inside(b[..j], c))
    ensures forall x :: x in out ==> x in a[..i] || x in b[..j]
  {
    hide Inside, Combine, IsSorted;
  }

  lemma MergedFrom(a: seq<nat>, b: seq<nat>, op: SetOp, out: seq<nat>, i: nat, j: nat)
    requires i <= |a| && j <= |b|
    requires IsSorted(out) && (|out| % 2 == 1) == Combine(op, i % 2 == 1, j % 2 == 1)
    requires forall c: nat :: Inside(out, c) == Combine(op, Inside(a[..i], c), Inside(b[..j], c))
    requires forall x :: x in out ==> x in a[..i] || x in b[..j]
    requires Before(a[..i], a[i..]) && Before(a[..i], b[j..]) && Before(b[..j], a[i..]) && Before(b[..j], b[j..])
    ensures Merged(a, b, op, out, i, j)
  {
    hide Inside, Combine, IsSorted, Before;
  }

  lemma SortedPush(x: seq<nat>, v: nat)
    requires IsSorted(x) && AllAtMost(x, v)
    ensures IsSorted(x + [v])
  {
  }

  lemma OutAtMost(x: seq<nat>, y: seq<nat>, out: seq<nat>, v: nat)
    requires AllAtMost(x, v) && AllAtMost(y, v) && forall w :: w in out ==> w in x || w in y
    ensures AllAtMost(out, v)
  {
    forall k | 0 <= k < |out| ensures out[k] <= v {
      assert out[k] in out;
    }
  }

  lemma PrefixAtMost(a: seq<nat>, b: seq<nat>, i: nat, j: nat, v: nat, i1: nat, j1: nat, out: seq<nat>, op: SetOp)
    requires i <= i1 <= |a| && j <= j1 <= |b| && Merged(a, b, op, out, i, j)
    requires i1 + j1 > i + j && (i1 > i ==> a[i] == v) && (j1 > j ==> b[j] == v)
    ensures AllAtMost(a[..i], v) && AllAtMost(b[..j], v)
  {
    if i1 > i {
      assert a[i..][0] == v;
    } else {
      assert b[j..][0] == v;
    }
  }

  /** A list all at or below v, possibly with v added: below v nothing changes, from v on every bound counts. */
  lemma {:induction false} ParityStep(x: seq<nat>, v: nat, x1: seq<nat>, c: nat)
    requires AllAtMost(x, v) && (x1 == x || x1 == x + [v])
    ensures if c < v then Inside(x1, c) == Inside(x, c) else Inside(x1, c) == (|x1| % 2 == 1)
  {
    if c < v {
      CountAppend(x, [v], c);
      CountOne(v, c);
    } else {
      CountAll(x1, c);
    }
  }

  lemma {:induction false} MergeBefore(a: seq<nat>, b: seq<nat>, i: nat, j: nat, v: nat, i1: nat, j1: nat, op: SetOp,
      out: seq<nat>)
    requires IsSorted(a) && IsSorted(b) && i <= i1 <= |a| && j <= j1 <= |b| && Merged(a, b, op, out, i, j)
    requires i1 <= i + 1 && j1 <= j + 1 && i1 + j1 > i + j
    requires (i1 > i ==> a[i] == v) && (j1 > j ==> b[j] == v)
    requires (i1 == i && i < |a| ==> v < a[i]) && (j1 == j && j < |b| ==> v < b[j])
    ensures Before(a[..i1], a[i1..]) && Before(a[..i1], b[j1..]) && Before(b[..j1], a[i1..]) && Before(b[..j1], b[j1..])
  {
    hide Inside, Combine;
    PrefixAtMost(a, b, i, j, v, i1, j1, out, op);
    assert AllAtMost(a[..i1], v) && AllAtMost(b[..j1], v);
    assert forall k :: 0 <= k < |a[i1..]| ==> v <= a[i1..][k] == a[i1 + k];
    assert forall k :: 0 <= k < |b[j1..]| ==> v <= b[j1..][k] == b[j1 + k];
  }

  /** `out` is the compressed form of the first `i` bounds. */
  ghost predicate Compressed(was: seq<nat>, out: seq<nat>, i: nat)
    requires i <= |was|
  {
    && IsCanonical(out) && SameSet(out, was[..i])
    && (forall x :: x in out ==> x in was)
    && (out != [] && i < |was| ==> out[|out| - 1] < was[i])
  }

  lemma {:induction false} SkipEmpty(was: seq<nat>, out: seq<nat>, i: nat)
    requires IsRange(was) && i + 1 < |was| && i % 2 == 0 && Compressed(was, out, i) && was[i] == was[i + 1]
    ensures Compressed(was, out, i + 2)
  {
    forall c: nat ensures Inside(out, c) == Inside(was[..i + 2], c) {
      assert Inside(out, c) == Inside(was[..i], c);
      CountTwo(was, i, c);
    }
  }

  lemma {:induction false} CountTwo(was: seq<nat>, i: nat, c: nat)
    requires i + 1 < |was|
    ensures Count(was[..i + 2], c) == Count(was[..i], c) + (if was[i] <= c then 1 else 0)
        + (if was[i + 1] <= c then 1 else 0)
  {
    assert was[..i + 2] == was[..i] + ([was[i]] + [was[i + 1]]);
    CountAppend(was[..i], [was[i]] + [was[i + 1]], c);
    CountAppend([was[i]], [was[i + 1]], c);
    CountOne(was[i], c);
    CountOne(was[i + 1], c);
  }

  /** From the interval at i to the one at j, each interval ends where the next begins. */
  predicate Chained(was: seq<nat>, i: nat, j: nat) {
    && i <= j && j + 1 < |was| && i % 2 == 0 && j % 2 == 0
    && forall x :: i < x < j && x % 2 == 1 ==> was[x] == was[x + 1]
  }

  lemma ChainOne(was: seq<nat>, i: nat)
    requires i + 1 < |was| && i % 2 == 0
    ensures Chained(was, i, i)
  {
  }

  lemma ChainMore(was: seq<nat>, i: nat, j: nat)
    requires Chained(was, i, j) && j + 3 < |was| && was[j + 1] == was[j + 2]
    ensures Chained(was, i, j + 2)
  {
  }

  lemma CompressStart(was: seq<nat>)
    ensures Compressed(was, [], 0)
  {
    assert was[..0] == [];
  }

  lemma CompressEnd(was: seq<nat>, out: seq<nat>, i: nat)
    requires IsRange(was) && i % 2 == 0 && |was| - 1 <= i <= |was| && Compressed(was, out, i)
    ensures IsCanonical(out) && SameSet(out, was) && forall x :: x in out ==> x in was
  {
    assert was[..i] == was;
  }

  /** Intervals that touch count like one interval. */
  lemma {:induction false} CountRun(was: seq<nat>, i: nat, j: nat, c: nat)
    requires Chained(was, i, j)
    ensures (Count(was[..j + 2], c) - Count(was[..i], c) - AtMost(was[i], c) - AtMost(was[j + 1], c)) % 2 == 0
    decreases j
  {
    hide Count;
    if i == j {
      CountTwo(was, i, c);
    } else {
      CountRun(was, i, j - 2, c);
      assert was[j - 1] == was[j];
      CountTwo(was, j, c);
    }
  }

  function AtMost(v: nat, c: nat): nat { if v <= c then 1 else 0 }

  lemma {:induction false} CountPair(out: seq<nat>, u: nat, v: nat, c: nat)
    ensures Count(out + [u, v], c) == Count(out, c) + AtMost(u, c) + AtMost(v, c)
  {
    assert out + [u, v] == out + ([u] + [v]);
    CountAppend(out, [u] + [v], c);
    CountAppend([u], [v], c);
    CountOne(u, c);
    CountOne(v, c);
  }

  lemma {:induction false} MergeRun(was: seq<nat>, out: seq<nat>, i: nat, j: nat)
    requires IsRange(was) && Chained(was, i, j) && Compressed(was, out, i)
    requires was[i] != was[i + 1] && (j + 3 < |was| ==> was[j + 1] != was[j + 2])
    ensures Compressed(was, out + [was[i], was[j + 1]], j + 2)
  {
    hide Count, IsCanonical;
    var r := out + [was[i], was[j + 1]];
    assert SameSet(r, was[..j + 2]) by {
      hide IsCanonical, IsSorted, Count, Chained;
      forall c: nat ensures Inside(r, c) == Inside(was[..j + 2], c) {
        assert Inside(out, c) == Inside(was[..i], c);
        CountRun(was, i, j, c);
        CountPair(out, was[i], was[j + 1], c);
      }
    }
    assert was[i] < was[i + 1] <= was[j + 1];
    CanonicalPair(out, was[i], was[j + 1]);
    assert forall x :: x in r ==> x in was by {
      assert was[i] in was && was[j + 1] in was;
    }
  }

  lemma CanonicalPair(out: seq<nat>, u: nat, v: nat)
    requires IsCanonical(out) && u < v && (out != [] ==> out[|out| - 1] < u)
    ensures IsCanonical(out + [u, v])
  {
  }
}
