/** The partition and the segment stack of `rqsort`. */
module Quicksort {
  import opened Shuffle
  import opened Sorting

  const MAX_DEPTH: nat := 50

  // ---- partition ----

  /** `med3`: the position of the middle one of three elements. */
  method Med3<T(!new)>(a: array<T>, x: nat, y: nat, z: nat, cmp: (T, T) -> int) returns (m: nat)
    requires IsOrder(cmp) && x < a.Length && y < a.Length && z < a.Length
    ensures m == x || m == y || m == z
    ensures exists l, h :: multiset{l, m, h} == multiset{x, y, z} && IsMiddle(a[..], cmp, l, m, h)
  {
    if cmp(a[x], a[y]) < 0 {
      if cmp(a[y], a[z]) < 0 {
        m := y;
        assert IsMiddle(a[..], cmp, x, y, z);
      } else if cmp(a[x], a[z]) < 0 {
        m := z;
        OrderFlip(cmp, a[y], a[z]);
        assert IsMiddle(a[..], cmp, x, z, y) && multiset{x, z, y} == multiset{x, y, z};
      } else {
        m := x;
        OrderFlip(cmp, a[x], a[z]);
        assert IsMiddle(a[..], cmp, z, x, y) && multiset{z, x, y} == multiset{x, y, z};
      }
    } else {
      OrderFlip(cmp, a[x], a[y]);
      if cmp(a[y], a[z]) > 0 {
        m := y;
        OrderFlip(cmp, a[y], a[z]);
        assert IsMiddle(a[..], cmp, z, y, x) && multiset{z, y, x} == multiset{x, y, z};
      } else if cmp(a[x], a[z]) < 0 {
        m := x;
        assert IsMiddle(a[..], cmp, y, x, z) && multiset{y, x, z} == multiset{x, y, z};
      } else {
        m := z;
        OrderFlip(cmp, a[x], a[z]);
        assert IsMiddle(a[..], cmp, y, z, x) && multiset{y, z, x} == multiset{x, y, z};
      }
    }
  }

  ghost predicate IsMiddle<T>(s: seq<T>, cmp: (T, T) -> int, l: nat, m: nat, h: nat) {
    l < |s| && m < |s| && h < |s| && cmp(s[l], s[m]) <= 0 && cmp(s[m], s[h]) <= 0
  }

  /** With the pivot at p: equal up to lt, smaller up to i, unknown up to j, greater up to gt, equal up to e. */
  ghost predicate Parts<T>(was: seq<T>, s: seq<T>, cmp: (T, T) -> int, p: nat, lt: nat, i: nat, j: nat, gt: nat,
      e: nat) {
    && p < lt <= i <= j <= gt <= e <= |s| && Shuffled(was, s, p, e)
    && (forall k :: p < k < lt ==> cmp(s[p], s[k]) == 0)
    && (forall k :: lt <= k < i ==> cmp(s[p], s[k]) > 0)
    && (forall k :: j <= k < gt ==> cmp(s[p], s[k]) < 0)
    && (forall k :: gt <= k < e ==> cmp(s[p], s[k]) == 0)
  }

  lemma PartsStart<T>(was: seq<T>, s: seq<T>, cmp: (T, T) -> int, p: nat, e: nat)
    requires p < e <= |s| && Shuffled(was, s, p, e)
    ensures Parts(was, s, cmp, p, p + 1, p + 1, e, e, e)
  {
  }

  lemma {:induction false} PartsSwap<T>(was: seq<T>, s: seq<T>, p: nat, e: nat, x: nat, y: nat)
    requires Shuffled(was, s, p, e) && p <= x < e && p <= y < e
    ensures x < |s| && y < |s| && Shuffled(was, Swapped(s, x, y), p, e)
  {
    Lengths(was, s, p, e);
    SwapShuffles(s, x, y, p, e);
    ShuffledTrans(was, s, Swapped(s, x, y), p, e);
  }

  /** Element i is not greater than the pivot. */
  lemma {:induction false} FromLeft<T>(was: seq<T>, s: seq<T>, cmp: (T, T) -> int, p: nat, lt: nat, i: nat, j: nat,
      gt: nat, e: nat)
    requires Parts(was, s, cmp, p, lt, i, j, gt, e) && i < j && cmp(s[p], s[i]) >= 0
    ensures cmp(s[p], s[i]) > 0 ==> Parts(was, s, cmp, p, lt, i + 1, j, gt, e)
    ensures cmp(s[p], s[i]) == 0 ==> Parts(was, Swapped(s, lt, i), cmp, p, lt + 1, i + 1, j, gt, e)
  {
    hide Shuffled;
    PartsSwap(was, s, p, e, lt, i);
  }

  /** Element j is not smaller than the pivot; the unknown elements end before it. */
  lemma {:induction false} FromRight<T>(was: seq<T>, s: seq<T>, cmp: (T, T) -> int, p: nat, lt: nat, i: nat, j: nat,
      gt: nat, e: nat)
    requires Parts(was, s, cmp, p, lt, i, j + 1, gt, e) && i <= j && cmp(s[p], s[j]) <= 0
    ensures cmp(s[p], s[j]) < 0 ==> Parts(was, s, cmp, p, lt, i, j, gt, e)
    ensures cmp(s[p], s[j]) == 0 ==> Parts(was, Swapped(s, gt - 1, j), cmp, p, lt, i, j, gt - 1, e)
  {
    hide Shuffled;
    PartsSwap(was, s, p, e, gt - 1, j);
  }

  lemma {:induction false} Exchange<T>(was: seq<T>, s: seq<T>, cmp: (T, T) -> int, p: nat, lt: nat, i: nat, j: nat,
      gt: nat, e: nat)
    requires Parts(was, s, cmp, p, lt, i, j + 1, gt, e) && i < j && cmp(s[p], s[i]) < 0 && cmp(s[p], s[j]) > 0
    ensures Parts(was, Swapped(s, i, j), cmp, p, lt, i + 1, j, gt, e)
  {
    hide Shuffled;
    PartsSwap(was, s, p, e, i, j);
  }

  lemma PartsDone<T>(was: seq<T>, s: seq<T>, cmp: (T, T) -> int, p: nat, lt: nat, i: nat, j: nat, gt: nat, e: nat)
    requires Parts(was, s, cmp, p, lt, i, j, gt, e) && i <= j <= i + 1 && (j == i + 1 ==> cmp(s[p], s[i]) < 0)
    ensures Parts(was, s, cmp, p, lt, i, i, gt, e)
  {
    hide Shuffled;
  }

  /** The scanning loops: everything but the pivot ends up in one of four parts. */
  method Scan<T(!new)>(a: array<T>, p: nat, e: nat, cmp: (T, T) -> int) returns (lt: nat, i: nat, gt: nat)
    requires IsOrder(cmp) && p < e <= a.Length
    modifies a
    ensures Parts(old(a[..]), a[..], cmp, p, lt, i, i, gt, e)
  {
    hide *;
    ghost var was := a[..];
    ShuffledSelf(was, p, e);
    PartsStart(was, was, cmp, p, e);
    lt, i, gt := p + 1, p + 1, e;
    var j := e;
    while true
      invariant p < lt <= i <= j <= gt <= e && Parts(was, a[..], cmp, p, lt, i, j, gt, e)
      decreases j - i
    {
      ghost var i0 := i;
      while i < j && cmp(a[p], a[i]) >= 0
        invariant i0 <= i && p < lt <= i <= j <= gt <= e && Parts(was, a[..], cmp, p, lt, i, j, gt, e)
      {
        FromLeft(was, a[..], cmp, p, lt, i, j, gt, e);
        if cmp(a[p], a[i]) == 0 {
          Swap(a, lt, i);
          lt := lt + 1;
        }
        i := i + 1;
      }
      ghost var j0 := j;
      j := j - 1;
      while i < j && cmp(a[p], a[j]) <= 0
        invariant p < lt <= i <= j + 1 <= gt <= e && j + 1 <= j0 && Parts(was, a[..], cmp, p, lt, i, j + 1, gt, e)
        invariant i <= j ==> cmp(a[p], a[i]) < 0
      {
        FromRight(was, a[..], cmp, p, lt, i, j, gt, e);
        ghost var s := a[..];
        if cmp(a[p], a[j]) == 0 {
          gt := gt - 1;
          Swap(a, gt, j);
          SwappedElsewhere(s, gt, j, p);
          SwappedElsewhere(s, gt, j, i);
        }
        j := j - 1;
      }
      if i >= j {
        PartsDone(was, a[..], cmp, p, lt, i, j + 1, gt, e);
        break;
      }
      Exchange(was, a[..], cmp, p, lt, i, j, gt, e);
      Swap(a, i, j);
      i := i + 1;
    }
  }

  lemma SwappedElsewhere<T>(s: seq<T>, x: nat, y: nat, k: nat)
    requires x < |s| && y < |s| && k < |s| && k != x && k != y
    ensures Swapped(s, x, y)[k] == s[k]
  {
  }

  // ---- moving the elements equal to the pivot to the middle ----

  function BlockSwapped<T>(s: seq<T>, x: nat, y: nat, n: nat): (t: seq<T>)
    requires x + n <= y && y + n <= |s|
    ensures |t| == |s|
  {
    seq(|s|, k requires 0 <= k < |s| =>
      if x <= k < x + n then s[k + (y - x)] else if y <= k < y + n then s[k - (y - x)] else s[k])
  }

  /** `swap_block`: exchange two stretches that do not overlap. */
  method SwapBlock<T>(a: array<T>, x: nat, y: nat, n: nat)
    requires x + n <= y && y + n <= a.Length
    modifies a
    ensures a[..] == BlockSwapped(old(a[..]), x, y, n)
  {
    ghost var was := a[..];
    BlockStart(was, x, y);
    var k := 0;
    while k < n
      invariant k <= n && a[..] == BlockSwapped(was, x, y, k)
    {
      BlockStep(was, x, y, k);
      Swap(a, x + k, y + k);
      k := k + 1;
    }
  }

  lemma BlockStart<T>(s: seq<T>, x: nat, y: nat)
    requires x <= y <= |s|
    ensures BlockSwapped(s, x, y, 0) == s
  {
  }

  lemma BlockStep<T>(s: seq<T>, x: nat, y: nat, k: nat)
    requires x + k < y && y + k < |s|
    ensures BlockSwapped(s, x, y, k + 1) == Swapped(BlockSwapped(s, x, y, k), x + k, y + k)
  {
  }

  lemma {:induction false} BlockShuffles<T>(s: seq<T>, x: nat, y: nat, n: nat, lo: nat, hi: nat)
    requires lo <= x && x + n <= y && y + n <= hi <= |s|
    ensures Shuffled(s, BlockSwapped(s, x, y, n), lo, hi)
  {
    hide Shuffled, BlockSwapped, Swapped;
    if n == 0 {
      BlockStart(s, x, y);
      ShuffledSelf(s, lo, hi);
    } else {
      BlockShuffles(s, x, y, n - 1, lo, hi);
      BlockStep(s, x, y, n - 1);
      PartsSwap(s, BlockSwapped(s, x, y, n - 1), lo, hi, x + n - 1, y + n - 1);
    }
  }

  ghost predicate AllLess<T>(s: seq<T>, cmp: (T, T) -> int, v: T, x: nat, y: nat) {
    y <= |s| && forall k :: x <= k < y ==> cmp(v, s[k]) > 0
  }

  ghost predicate AllEqual<T>(s: seq<T>, cmp: (T, T) -> int, v: T, x: nat, y: nat) {
    y <= |s| && forall k :: x <= k < y ==> cmp(v, s[k]) == 0
  }

  ghost predicate AllGreater<T>(s: seq<T>, cmp: (T, T) -> int, v: T, x: nat, y: nat) {
    y <= |s| && forall k :: x <= k < y ==> cmp(v, s[k]) < 0
  }

  ghost predicate SameOn<T>(s: seq<T>, t: seq<T>, x: nat, y: nat) {
    |s| == |t| && y <= |s| && forall k :: x <= k < y ==> s[k] == t[k]
  }

  /** Smaller than v up to l, equal to v up to g, greater up to e. */
  ghost predicate ThreeWay<T>(s: seq<T>, cmp: (T, T) -> int, v: T, p: nat, l: nat, g: nat, e: nat) {
    p <= l < g <= e <= |s| && AllLess(s, cmp, v, p, l) && AllEqual(s, cmp, v, l, g) && AllGreater(s, cmp, v, g, e)
  }

  function Least(x: nat, y: nat): nat { if x > y then y else x }

  lemma {:induction false} MoveLeft<T>(s: seq<T>, cmp: (T, T) -> int, v: T, p: nat, lt: nat, i: nat, e: nat)
    requires p < lt <= i <= e <= |s| && AllEqual(s, cmp, v, p, lt) && AllLess(s, cmp, v, lt, i)
    ensures var n := Least(lt - p, i - lt);
            var t := BlockSwapped(s, p, i - n, n);
            AllLess(t, cmp, v, p, p + (i - lt)) && AllEqual(t, cmp, v, p + (i - lt), i) && SameOn(s, t, i, e)
  {
    var n := Least(lt - p, i - lt);
    var t := BlockSwapped(s, p, i - n, n);
    forall k | p <= k < i ensures if k < p + (i - lt) then cmp(v, t[k]) > 0 else cmp(v, t[k]) == 0 {
      if k < p + n {
        assert t[k] == s[k + (i - n - p)];
      } else if i - n <= k {
        assert t[k] == s[k - (i - n - p)];
      } else {
        assert t[k] == s[k];
      }
    }
  }

  lemma {:induction false} MoveRight<T>(s: seq<T>, cmp: (T, T) -> int, v: T, p: nat, i: nat, gt: nat, e: nat)
    requires p <= i <= gt <= e <= |s| && AllGreater(s, cmp, v, i, gt) && AllEqual(s, cmp, v, gt, e)
    ensures var n := Least(e - gt, gt - i);
            var t := BlockSwapped(s, i, e - n, n);
            SameOn(s, t, p, i) && AllEqual(t, cmp, v, i, e - (gt - i)) && AllGreater(t, cmp, v, e - (gt - i), e)
  {
    var n := Least(e - gt, gt - i);
    var t := BlockSwapped(s, i, e - n, n);
    forall k | i <= k < e ensures if k < e - (gt - i) then cmp(v, t[k]) == 0 else cmp(v, t[k]) < 0 {
      if k < i + n {
        assert t[k] == s[k + (e - n - i)];
      } else if e - n <= k {
        assert t[k] == s[k - (e - n - i)];
      } else {
        assert t[k] == s[k];
      }
    }
  }

  /** The middle one of three elements becomes the pivot, at the start of the segment. */
  method ChoosePivot<T(!new)>(a: array<T>, p: nat, n: nat, cmp: (T, T) -> int)
    requires IsOrder(cmp) && p + n <= a.Length && n > 6
    modifies a
    ensures Shuffled(old(a[..]), a[..], p, p + n)
  {
    hide *;
    ghost var was := a[..];
    ShuffledSelf(was, p, p + n);
    var m4 := n / 4;
    var m := Med3(a, p + m4, p + 2 * m4, p + 3 * m4, cmp);
    PartsSwap(was, was, p, p + n, p, m);
    Swap(a, p, m);
  }

  /** Move the elements equal to the pivot from both ends to the middle. */
  method Gather<T(!new)>(a: array<T>, ghost was: seq<T>, p: nat, lt: nat, i: nat, gt: nat, e: nat, cmp: (T, T) -> int)
    returns (l: nat, g: nat, ghost v: T)
    requires IsOrder(cmp) && e <= a.Length && Parts(was, a[..], cmp, p, lt, i, i, gt, e)
    modifies a
    ensures Shuffled(was, a[..], p, e) && ThreeWay(a[..], cmp, v, p, l, g, e)
  {
    hide *;
    ghost var s1 := a[..];
    ScanParts(was, s1, cmp, p, lt, i, gt, e);
    v := s1[p];
    var span := Least(lt - p, i - lt);
    LeastOf(lt - p, i - lt);
    MoveLeft(s1, cmp, v, p, lt, i, e);
    BlockShuffles(s1, p, i - span, span, p, e);
    SwapBlock(a, p, i - span, span);
    ghost var s2 := a[..];
    ShuffledTrans(was, s1, s2, p, e);
    l := p + (i - lt);
    span := Least(e - gt, gt - i);
    LeastOf(e - gt, gt - i);
    StillRight(s1, s2, cmp, v, i, gt, e);
    MoveRight(s2, cmp, v, p, i, gt, e);
    BlockShuffles(s2, i, e - span, span, p, e);
    SwapBlock(a, i, e - span, span);
    g := e - (gt - i);
    ShuffledTrans(was, s2, a[..], p, e);
    Gathered(s2, a[..], cmp, v, p, l, i, g, e);
  }

  /** One partitioning round of `rqsort`. */
  method Partition<T(!new)>(a: array<T>, p: nat, n: nat, cmp: (T, T) -> int) returns (l: nat, g: nat, ghost v: T)
    requires IsOrder(cmp) && p + n <= a.Length && n > 6
    modifies a
    ensures Shuffled(old(a[..]), a[..], p, p + n) && ThreeWay(a[..], cmp, v, p, l, g, p + n)
  {
    hide *;
    ghost var was := a[..];
    ChoosePivot(a, p, n, cmp);
    ghost var s0 := a[..];
    var lt, i, gt := Scan(a, p, p + n, cmp);
    l, g, v := Gather(a, s0, p, lt, i, gt, p + n, cmp);
    ShuffledTrans(was, s0, a[..], p, p + n);
  }

  lemma LeastOf(x: nat, y: nat)
    ensures Least(x, y) <= x && Least(x, y) <= y
  {
  }

  lemma ScanParts<T(!new)>(was: seq<T>, s: seq<T>, cmp: (T, T) -> int, p: nat, lt: nat, i: nat, gt: nat, e: nat)
    requires IsOrder(cmp) && Parts(was, s, cmp, p, lt, i, i, gt, e)
    ensures p < lt <= i <= gt <= e <= |s| && Shuffled(was, s, p, e)
    ensures AllEqual(s, cmp, s[p], p, lt) && AllLess(s, cmp, s[p], lt, i)
    ensures AllGreater(s, cmp, s[p], i, gt) && AllEqual(s, cmp, s[p], gt, e)
  {
    OrderFlip(cmp, s[p], s[p]);
  }

  lemma StillRight<T>(s: seq<T>, t: seq<T>, cmp: (T, T) -> int, v: T, i: nat, gt: nat, e: nat)
    requires i <= gt <= e && SameOn(s, t, i, e) && AllGreater(s, cmp, v, i, gt) && AllEqual(s, cmp, v, gt, e)
    ensures AllGreater(t, cmp, v, i, gt) && AllEqual(t, cmp, v, gt, e)
  {
  }

  lemma Gathered<T>(s: seq<T>, t: seq<T>, cmp: (T, T) -> int, v: T, p: nat, l: nat, i: nat, g: nat, e: nat)
    requires p <= l < i <= g <= e <= |s| && AllLess(s, cmp, v, p, l) && AllEqual(s, cmp, v, l, i) && SameOn(s, t, p, i)
    requires AllEqual(t, cmp, v, i, g) && AllGreater(t, cmp, v, g, e)
    ensures ThreeWay(t, cmp, v, p, l, g, e)
  {
  }

  // ---- the segments still to be sorted ----

  /** An entry of the stack of `rqsort`. */
  datatype Segment = Segment(base: nat, count: nat, depth: nat)

  predicate Within(x: Segment, k: int) { x.base <= k < x.base + x.count }

  ghost predicate Disjoint(segs: seq<Segment>) {
    forall x, y, k :: 0 <= x < y < |segs| && Within(segs[x], k) ==> !Within(segs[y], k)
  }

  ghost predicate SameSegment(segs: seq<Segment>, i: int, j: int) {
    exists x :: 0 <= x < |segs| && Within(segs[x], i) && Within(segs[x], j)
  }

  predicate Inside(segs: seq<Segment>, n: nat) {
    forall x :: 0 <= x < |segs| ==> segs[x].base + segs[x].count <= n
  }

  /** Everything is in order except inside the segments left. */
  ghost predicate Settled<T>(s: seq<T>, cmp: (T, T) -> int, segs: seq<Segment>) {
    forall i, j :: 0 <= i < j < |s| && !SameSegment(segs, i, j) ==> cmp(s[i], s[j]) <= 0
  }

  ghost predicate Work<T>(was: seq<T>, s: seq<T>, cmp: (T, T) -> int, segs: seq<Segment>) {
    Shuffled(was, s, 0, |was|) && Inside(segs, |s|) && Disjoint(segs) && Settled(s, cmp, segs)
  }

  lemma WorkStart<T>(s: seq<T>, cmp: (T, T) -> int)
    ensures Work(s, s, cmp, [Segment(0, |s|, 0)])
  {
    var segs := [Segment(0, |s|, 0)];
    forall i, j | 0 <= i < j < |s| ensures SameSegment(segs, i, j) {
      assert Within(segs[0], i) && Within(segs[0], j);
    }
  }

  lemma WorkEnd<T>(was: seq<T>, s: seq<T>, cmp: (T, T) -> int)
    requires Work(was, s, cmp, [])
    ensures Shuffled(was, s, 0, |s|) && SortedFrom(s, cmp, 0, |s|)
  {
  }

  lemma WorkInside<T>(was: seq<T>, s: seq<T>, cmp: (T, T) -> int, segs: seq<Segment>, x: Segment)
    requires Work(was, s, cmp, segs + [x])
    ensures x.base + x.count <= |s|
  {
    assert (segs + [x])[|segs|] == x;
  }

  /** A member of the last segment shares a segment only with other members of it. */
  lemma {:induction false} LastAlone(segs: seq<Segment>, x: Segment, i: int, j: int)
    requires Disjoint(segs + [x]) && Within(x, i) && !Within(x, j)
    ensures !SameSegment(segs + [x], i, j) && !SameSegment(segs + [x], j, i)
  {
    var all := segs + [x];
    assert Within(all[|segs|], i);
    assert forall y :: 0 <= y < |all| && Within(all[y], i) ==> y == |segs|;
  }

  /** Rearranging one segment disturbs nothing outside it. */
  lemma {:induction false} WorkShuffled<T>(was: seq<T>, s: seq<T>, t: seq<T>, cmp: (T, T) -> int, segs: seq<Segment>,
      x: Segment)
    requires Work(was, s, cmp, segs + [x]) && Shuffled(s, t, x.base, x.base + x.count)
    ensures Work(was, t, cmp, segs + [x])
  {
    hide Shuffled, Disjoint, SameSegment;
    var lo, hi := x.base, x.base + x.count;
    Lengths(s, t, lo, hi);
    Lengths(was, s, 0, |was|);
    ShuffledWiden(s, t, lo, hi, 0, |s|);
    ShuffledTrans(was, s, t, 0, |s|);
    forall i, j | 0 <= i < j < |t| && !SameSegment(segs + [x], i, j) ensures cmp(t[i], t[j]) <= 0 {
      LastShares(segs, x, i, j);
      var i0, j0 := i, j;
      if Within(x, i) {
        i0 := ShuffledFrom(s, t, lo, hi, i);
        LastAlone(segs, x, i0, j);
      } else {
        ShuffledOutside(s, t, lo, hi, i);
      }
      if Within(x, j) {
        j0 := ShuffledFrom(s, t, lo, hi, j);
        LastAlone(segs, x, j0, i);
      } else {
        ShuffledOutside(s, t, lo, hi, j);
      }
      assert cmp(s[i0], s[j0]) <= 0;
    }
  }

  lemma LastShares(segs: seq<Segment>, x: Segment, i: int, j: int)
    requires !SameSegment(segs + [x], i, j)
    ensures !(Within(x, i) && Within(x, j))
  {
    assert (segs + [x])[|segs|] == x;
  }

  /** A segment that is in order needs no more work. */
  lemma {:induction false} WorkSorted<T>(was: seq<T>, s: seq<T>, cmp: (T, T) -> int, segs: seq<Segment>, x: Segment)
    requires Work(was, s, cmp, segs + [x]) && SortedFrom(s, cmp, x.base, x.base + x.count)
    ensures Work(was, s, cmp, segs)
  {
    hide Shuffled;
    var all := segs + [x];
    assert forall y :: 0 <= y < |segs| ==> segs[y] == all[y];
    forall i, j | 0 <= i < j < |s| && !SameSegment(segs, i, j) ensures cmp(s[i], s[j]) <= 0 {
      if SameSegment(all, i, j) {
        var y :| 0 <= y < |all| && Within(all[y], i) && Within(all[y], j);
        assert y == |segs|;
        assert x.base + x.count <= |s|;
      }
    }
  }

  /** After partitioning, the two outer parts replace the segment, in either order. */
  lemma {:induction false} WorkSplit<T(!new)>(was: seq<T>, s: seq<T>, cmp: (T, T) -> int, segs: seq<Segment>,
      x: Segment, v: T, l: nat, g: nat,
                                              y: Segment, z: Segment)
    requires IsOrder(cmp) && Work(was, s, cmp, segs + [x]) && ThreeWay(s, cmp, v, x.base, l, g, x.base + x.count)
    requires y.base == x.base && y.base + y.count == l && z.base == g && z.base + z.count == x.base + x.count
    ensures Work(was, s, cmp, segs + [y] + [z]) && Work(was, s, cmp, segs + [z] + [y])
  {
    hide Shuffled, IsOrder;
    WorkSplitOrdered(was, s, cmp, segs, x, v, l, g, y, z);
    WorkSwap(was, s, cmp, segs, y, z);
  }

  lemma {:induction false} WorkSwap<T>(was: seq<T>, s: seq<T>, cmp: (T, T) -> int, segs: seq<Segment>, y: Segment,
      z: Segment)
    requires Work(was, s, cmp, segs + [y] + [z])
    ensures Work(was, s, cmp, segs + [z] + [y])
  {
    hide Shuffled;
    var a, b, n := segs + [y] + [z], segs + [z] + [y], |segs|;
    assert a[n] == y && a[n + 1] == z && b[n] == z && b[n + 1] == y;
    assert forall k :: 0 <= k < n ==> a[k] == b[k];
    forall i, j | SameSegment(a, i, j) ensures SameSegment(b, i, j) {
      var k :| 0 <= k < |a| && Within(a[k], i) && Within(a[k], j);
      var k1 := if k == n then n + 1 else if k == n + 1 then n else k;
      assert b[k1] == a[k];
    }
    assert Disjoint(b) by {
      forall p, q, k | 0 <= p < q < |b| && Within(b[p], k) ensures !Within(b[q], k) {
        assert Disjoint(a);
        var p1 := if p == n then n + 1 else if p == n + 1 then n else p;
        var q1 := if q == n then n + 1 else if q == n + 1 then n else q;
        assert b[p] == a[p1] && b[q] == a[q1];
      }
    }
  }

  /** Two members of the segment in different parts are in order. */
  lemma {:induction false} PartsOrdered<T(!new)>(s: seq<T>, cmp: (T, T) -> int, v: T, p: nat, l: nat, g: nat, e: nat,
      i: nat, j: nat)
    requires IsOrder(cmp) && ThreeWay(s, cmp, v, p, l, g, e) && p <= i < j < e && !(j < l) && !(g <= i)
    ensures cmp(s[i], s[j]) <= 0
  {
    hide IsOrder;
    OrderFlip(cmp, v, s[i]);
    assert cmp(v, s[i]) >= 0 && cmp(v, s[j]) <= 0;
    OrderTrans(cmp, s[i], v, s[j]);
  }

  lemma {:induction false} WorkSplitOrdered<T(!new)>(was: seq<T>, s: seq<T>, cmp: (T, T) -> int, segs: seq<Segment>,
      x: Segment, v: T, l: nat, g: nat,
                                                     y: Segment, z: Segment)
    requires IsOrder(cmp) && Work(was, s, cmp, segs + [x]) && ThreeWay(s, cmp, v, x.base, l, g, x.base + x.count)
    requires y.base == x.base && y.base + y.count == l && z.base == g && z.base + z.count == x.base + x.count
    ensures Work(was, s, cmp, segs + [y] + [z])
  {
    hide Shuffled, IsOrder;
    var a, b, n := segs + [x], segs + [y] + [z], |segs|;
    assert a[n] == x && b[n] == y && b[n + 1] == z;
    assert forall k :: 0 <= k < n ==> a[k] == b[k];
    forall i, j | 0 <= i < j < |s| && !SameSegment(b, i, j) ensures cmp(s[i], s[j]) <= 0 {
      NotShared(segs, y, z, i, j);
      if SameSegment(a, i, j) {
        var k :| 0 <= k < |a| && Within(a[k], i) && Within(a[k], j);
        PartsOrdered(s, cmp, v, x.base, l, g, x.base + x.count, i, j);
      }
    }
    SplitDisjoint(segs, x, y, z);
  }

  lemma NotShared(segs: seq<Segment>, y: Segment, z: Segment, i: int, j: int)
    requires !SameSegment(segs + [y] + [z], i, j)
    ensures !(Within(y, i) && Within(y, j)) && !(Within(z, i) && Within(z, j))
  {
    var b := segs + [y] + [z];
    assert b[|segs|] == y && b[|segs| + 1] == z;
  }

  lemma {:induction false} SplitDisjoint(segs: seq<Segment>, x: Segment, y: Segment, z: Segment)
    requires Disjoint(segs + [x]) && y.base == x.base && y.base + y.count <= z.base
        && z.base + z.count == x.base + x.count
    ensures Disjoint(segs + [y] + [z])
  {
    var a, b, n := segs + [x], segs + [y] + [z], |segs|;
    forall p, q, k | 0 <= p < q < |b| && Within(b[p], k) ensures !Within(b[q], k) {
      assert a[n] == x;
      if p < n {
        assert b[p] == a[p];
        assert q < n ==> b[q] == a[q];
      }
    }
  }

  // ---- the loop ----

  function Total(segs: seq<Segment>): nat {
    if segs == [] then 0 else Total(segs[..|segs| - 1]) + segs[|segs| - 1].count
  }

  lemma TotalPush(segs: seq<Segment>, x: Segment)
    ensures Total(segs + [x]) == Total(segs) + x.count
  {
    assert (segs + [x])[..|segs|] == segs;
  }

  /** Depths on the stack increase and start above 0, so the k-th is greater than k. */
  predicate Depths(stack: seq<Segment>, depth: nat) {
    && (forall k :: 0 <= k < |stack| ==> k < stack[k].depth <= depth)
    && forall k, l :: 0 <= k < l < |stack| ==> stack[k].depth < stack[l].depth
  }

  /** A segment of the next depth fits: at most 50 entries. */
  lemma DepthsPush(stack: seq<Segment>, depth: nat, x: Segment)
    requires Depths(stack, depth) && x.depth == depth + 1
    ensures |stack| <= depth && Depths(stack + [x], depth + 1)
  {
    assert stack != [] ==> |stack| - 1 < stack[|stack| - 1].depth;
  }

  lemma DepthsPop(stack: seq<Segment>, depth: nat)
    requires Depths(stack, depth) && stack != []
    ensures Depths(stack[..|stack| - 1], stack[|stack| - 1].depth) && stack[|stack| - 1].depth <= depth
  {
  }

  /** `rqsort`. */
  method Rqsort<T(!new)>(a: array<T>, cmp: (T, T) -> int)
    requires IsOrder(cmp)
    modifies a
    ensures Shuffled(old(a[..]), a[..], 0, a.Length) && SortedFrom(a[..], cmp, 0, a.Length)
  {
    hide *;
    ghost var was := a[..];
    if a.Length < 2 {
      ShuffledSelf(was, 0, a.Length);
      SortedShort(was, cmp, 0, a.Length);
      return;
    }
    WorkStart(was, cmp);
    MaxDepthIs();
    var stack := [Segment(0, a.Length, 0)];
    while stack != []
      invariant Work(was, a[..], cmp, stack) && |stack| <= MAX_DEPTH
      invariant stack == [Segment(0, a.Length, 0)] || Depths(stack, MAX_DEPTH)
      decreases Total(stack), |stack|
    {
      var x := stack[|stack| - 1];
      ghost var all := stack;
      PopSegment(stack, a.Length);
      stack := stack[..|stack| - 1];
      var p, n, depth: nat := x.base, x.count, x.depth;
      WorkDepth(was, a[..], cmp, stack, x, 0);
      ghost var total := Total(stack) + n;
      while n > 6
        invariant Work(was, a[..], cmp, stack + [Segment(p, n, 0)])
        invariant Depths(stack, depth) && depth <= MAX_DEPTH && |stack| <= MAX_DEPTH
        invariant Total(stack) + n <= total && (Total(stack) + n < total || |stack| < |all|)
        decreases Total(stack) + n
      {
        WorkInside(was, a[..], cmp, stack, Segment(p, n, 0));
        depth := depth + 1;
        ghost var s := a[..];
        if depth > MAX_DEPTH {
          HeapSort(a, p, n, cmp);
          WorkShuffled(was, s, a[..], cmp, stack, Segment(p, n, 0));
          WorkSorted(was, a[..], cmp, stack, Segment(p, n, 0));
          WorkEmpty(was, a[..], cmp, stack, p);
          n := 0;
          break;
        }
        ghost var v;
        var l, g;
        l, g, v := Partition(a, p, n, cmp);
        WorkShuffled(was, s, a[..], cmp, stack, Segment(p, n, 0));
        ThreeWayBounds(a[..], cmp, v, p, l, g, p + n);
        var left, right := Segment(p, l - p, depth), Segment(g, p + n - g, depth);
        DepthsPush(stack, depth - 1, left);
        DepthsPush(stack, depth - 1, right);
        TotalPush(stack, left);
        TotalPush(stack, right);
        if l - p > p + n - g {
          WorkSplit(was, a[..], cmp, stack, Segment(p, n, 0), v, l, g, left, Segment(g, p + n - g, 0));
          stack := stack + [left];
          p, n := g, p + n - g;
        } else {
          WorkSplit(was, a[..], cmp, stack, Segment(p, n, 0), v, l, g, Segment(p, l - p, 0), right);
          stack := stack + [right];
          n := l - p;
        }
      }
      WorkInside(was, a[..], cmp, stack, Segment(p, n, 0));
      ghost var s := a[..];
      InsertionSort(a, p, p + n, cmp);
      WorkShuffled(was, s, a[..], cmp, stack, Segment(p, n, 0));
      WorkSorted(was, a[..], cmp, stack, Segment(p, n, 0));
      DepthsMore(stack, depth);
    }
    WorkEnd(was, a[..], cmp);
  }

  lemma MaxDepthIs()
    ensures MAX_DEPTH == 50
  {
  }

  lemma PopSegment(stack: seq<Segment>, n: nat)
    requires stack != [] && (stack == [Segment(0, n, 0)] || Depths(stack, MAX_DEPTH))
    ensures var m := |stack| - 1;
            && stack == stack[..m] + [stack[m]] && Total(stack) == Total(stack[..m]) + stack[m].count
            && Depths(stack[..m], stack[m].depth) && stack[m].depth <= MAX_DEPTH
  {
    hide *;
    var m := |stack| - 1;
    PopTotal(stack);
    if stack == [Segment(0, n, 0)] {
      assert stack[..m] == [];
      DepthsEmpty(0);
      MaxDepthIs();
    } else {
      DepthsPop(stack, MAX_DEPTH);
    }
  }

  lemma PopTotal(stack: seq<Segment>)
    requires stack != []
    ensures Total(stack) == Total(stack[..|stack| - 1]) + stack[|stack| - 1].count
  {
  }

  lemma DepthsEmpty(depth: nat)
    ensures Depths([], depth)
  {
  }

  lemma DepthsMore(stack: seq<Segment>, depth: nat)
    requires Depths(stack, if depth > MAX_DEPTH then MAX_DEPTH else depth)
    ensures Depths(stack, MAX_DEPTH)
  {
  }

  lemma ThreeWayBounds<T>(s: seq<T>, cmp: (T, T) -> int, v: T, p: nat, l: nat, g: nat, e: nat)
    requires ThreeWay(s, cmp, v, p, l, g, e)
    ensures p <= l < g <= e
  {
  }

  lemma WorkDepth<T>(was: seq<T>, s: seq<T>, cmp: (T, T) -> int, segs: seq<Segment>, x: Segment, d: nat)
    requires Work(was, s, cmp, segs + [x])
    ensures Work(was, s, cmp, segs + [Segment(x.base, x.count, d)])
  {
    hide Shuffled;
    var a, b := segs + [x], segs + [Segment(x.base, x.count, d)];
    assert forall k :: 0 <= k < |a| ==> a[k].base == b[k].base && a[k].count == b[k].count;
    SameShape(a, b);
    assert Settled(s, cmp, b) by {
      forall i, j | 0 <= i < j < |s| && !SameSegment(b, i, j) ensures cmp(s[i], s[j]) <= 0 {
        assert !SameSegment(a, i, j);
      }
    }
  }

  /** Only the bases and the counts matter. */
  lemma SameShape(a: seq<Segment>, b: seq<Segment>)
    requires |a| == |b| && forall k :: 0 <= k < |a| ==> a[k].base == b[k].base && a[k].count == b[k].count
    ensures Disjoint(a) ==> Disjoint(b)
    ensures forall i, j :: SameSegment(a, i, j) ==> SameSegment(b, i, j)
  {
    assert forall k, i :: 0 <= k < |a| ==> Within(a[k], i) == Within(b[k], i);
    if Disjoint(a) {
      forall p, q, k | 0 <= p < q < |b| && Within(b[p], k) ensures !Within(b[q], k) {
        assert Within(a[p], k) && !Within(a[q], k);
      }
    }
    forall i, j | SameSegment(a, i, j) ensures SameSegment(b, i, j) {
      var k :| 0 <= k < |a| && Within(a[k], i) && Within(a[k], j);
      assert Within(b[k], i) && Within(b[k], j);
    }
  }

  lemma WorkEmpty<T>(was: seq<T>, s: seq<T>, cmp: (T, T) -> int, segs: seq<Segment>, p: nat)
    requires Work(was, s, cmp, segs) && p <= |s|
    ensures Work(was, s, cmp, segs + [Segment(p, 0, 0)])
  {
    hide Shuffled;
    var b := segs + [Segment(p, 0, 0)];
    assert forall k :: 0 <= k < |segs| ==> b[k] == segs[k];
    assert forall i, j :: SameSegment(segs, i, j) ==> SameSegment(b, i, j);
  }
}
