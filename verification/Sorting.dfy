/** `rqsort`: three-way quicksort with an explicit stack of at most 50 segments, insertion sort for
    short segments and `heapsortx` for segments nested too deeply. */
module Sorting {
  import opened Shuffle

  /** A comparison function that induces a total preorder. */
  ghost predicate IsOrder<T(!new)>(cmp: (T, T) -> int) {
    && (forall x, y :: cmp(x, y) < 0 <==> cmp(y, x) > 0)
    && (forall x, y, z :: cmp(x, y) <= 0 && cmp(y, z) <= 0 ==> cmp(x, z) <= 0)
  }

  lemma OrderTrans<T(!new)>(cmp: (T, T) -> int, x: T, y: T, z: T)
    requires IsOrder(cmp) && cmp(x, y) <= 0 && cmp(y, z) <= 0
    ensures cmp(x, z) <= 0
  {
  }

  lemma OrderFlip<T(!new)>(cmp: (T, T) -> int, x: T, y: T)
    requires IsOrder(cmp)
    ensures cmp(x, y) < 0 <==> cmp(y, x) > 0
    ensures cmp(x, y) > 0 <==> cmp(y, x) < 0
    ensures cmp(x, x) == 0
  {
    assert cmp(x, x) < 0 <==> cmp(x, x) > 0;
  }

  /** Elements lo .. hi - 1 are in order. */
  ghost predicate SortedFrom<T>(s: seq<T>, cmp: (T, T) -> int, lo: nat, hi: nat) {
    forall i, j :: lo <= i < j < hi <= |s| ==> cmp(s[i], s[j]) <= 0
  }

  /** `swap`. */
  method Swap<T>(a: array<T>, i: nat, j: nat)
    requires i < a.Length && j < a.Length
    modifies a
    ensures a[..] == Swapped(old(a[..]), i, j)
  {
    a[i], a[j] := a[j], a[i];
  }

  // ---- insertion sort ----

  method InsertionSort<T(!new)>(a: array<T>, lo: nat, hi: nat, cmp: (T, T) -> int)
    requires IsOrder(cmp) && lo <= hi <= a.Length
    modifies a
    ensures Shuffled(old(a[..]), a[..], lo, hi) && SortedFrom(a[..], cmp, lo, hi)
  {
    hide *;
    ghost var was := a[..];
    ShuffledSelf(was, lo, hi);
    SortedShort(was, cmp, lo, if lo < hi then lo + 1 else hi);
    var i := lo + 1;
    while i < hi
      invariant lo + 1 <= i && Shuffled(was, a[..], lo, hi) && SortedFrom(a[..], cmp, lo, if i < hi then i else hi)
      decreases hi - i
    {
      ghost var s := a[..];
      InsertAt(a, lo, i, hi, cmp);
      ShuffledTrans(was, s, a[..], lo, hi);
      i := i + 1;
    }
  }

  /** The inner loop: the element at i moves down to its place. */
  method InsertAt<T(!new)>(a: array<T>, lo: nat, i: nat, ghost hi: nat, cmp: (T, T) -> int)
    requires IsOrder(cmp) && lo <= i < hi <= a.Length && SortedFrom(a[..], cmp, lo, i)
    modifies a
    ensures Shuffled(old(a[..]), a[..], lo, hi) && SortedFrom(a[..], cmp, lo, i + 1)
  {
    hide *;
    ghost var was := a[..];
    ShuffledSelf(was, lo, hi);
    var j := i;
    InsertStart(a[..], cmp, lo, i);
    while j > lo && cmp(a[j - 1], a[j]) > 0
      invariant lo <= j <= i && Shuffled(was, a[..], lo, hi) && SortedBut(a[..], cmp, lo, i + 1, j)
    {
      ghost var s := a[..];
      SwapShuffles(s, j, j - 1, lo, hi);
      Swap(a, j, j - 1);
      ShuffledTrans(was, s, a[..], lo, hi);
      SiftLeft(s, cmp, lo, i + 1, j);
      j := j - 1;
    }
    Inserted(a[..], cmp, lo, i + 1, j);
  }

  lemma SortedShort<T>(s: seq<T>, cmp: (T, T) -> int, lo: nat, hi: nat)
    requires hi <= lo + 1
    ensures SortedFrom(s, cmp, lo, hi)
  {
  }

  lemma InsertStart<T>(s: seq<T>, cmp: (T, T) -> int, lo: nat, i: nat)
    requires lo <= i < |s| && SortedFrom(s, cmp, lo, i)
    ensures SortedBut(s, cmp, lo, i + 1, i)
  {
  }

  /** In order, except that element j may be too small for its place. */
  ghost predicate SortedBut<T>(s: seq<T>, cmp: (T, T) -> int, lo: nat, hi: nat, j: nat) {
    && lo <= j < hi <= |s|
    && (forall x, y :: lo <= x < y < hi && x != j && y != j ==> cmp(s[x], s[y]) <= 0)
    && (forall y :: j < y < hi ==> cmp(s[j], s[y]) <= 0)
  }

  lemma {:induction false} SiftLeft<T(!new)>(s: seq<T>, cmp: (T, T) -> int, lo: nat, hi: nat, j: nat)
    requires IsOrder(cmp) && SortedBut(s, cmp, lo, hi, j) && j > lo && cmp(s[j - 1], s[j]) > 0
    ensures SortedBut(Swapped(s, j, j - 1), cmp, lo, hi, j - 1)
  {
    OrderFlip(cmp, s[j - 1], s[j]);
  }

  lemma {:induction false} Inserted<T(!new)>(s: seq<T>, cmp: (T, T) -> int, lo: nat, hi: nat, j: nat)
    requires IsOrder(cmp) && SortedBut(s, cmp, lo, hi, j) && (j > lo ==> cmp(s[j - 1], s[j]) <= 0)
    ensures SortedFrom(s, cmp, lo, hi)
  {
    forall x | lo <= x < j ensures cmp(s[x], s[j]) <= 0 {
      if x < j - 1 {
        OrderTrans(cmp, s[x], s[j - 1], s[j]);
      }
    }
  }

  // ---- heap sort ----

  /** Within the n elements from b on, no child below a node from i on exceeds its parent. */
  ghost predicate Heap<T>(s: seq<T>, cmp: (T, T) -> int, b: nat, n: nat, i: nat) {
    && b + n <= |s|
    && forall q, c :: i <= q && IsChild(q, c) && c < n ==> cmp(s[b + c], s[b + q]) <= 0
  }

  predicate IsChild(q: int, c: int) { c == 2 * q + 1 || c == 2 * q + 2 }

  /** A heap except that node r may be smaller than its children; these do not exceed the parent of r. */
  ghost predicate HeapBut<T>(s: seq<T>, cmp: (T, T) -> int, b: nat, n: nat, i: nat, r: nat) {
    && b + n <= |s|
    && (forall q, c :: i <= q && q != r && IsChild(q, c) && c < n ==> cmp(s[b + c], s[b + q]) <= 0)
    && (forall q, c :: i <= q && IsChild(q, r) && IsChild(r, c) && c < n ==> cmp(s[b + c], s[b + q]) <= 0)
  }

  /** The sift-down loop of `heapsortx`. */
  method SiftDown<T(!new)>(a: array<T>, b: nat, n: nat, i: nat, cmp: (T, T) -> int)
    requires IsOrder(cmp) && b + n <= a.Length && i < n && Heap(a[..], cmp, b, n, i + 1)
    modifies a
    ensures Heap(a[..], cmp, b, n, i) && Shuffled(old(a[..]), a[..], b, b + n)
  {
    hide *;
    ghost var was := a[..];
    var r := i;
    SiftStart(was, cmp, b, n, i);
    while 2 * r + 1 < n
      invariant r < n && Sifting(was, a[..], cmp, b, n, i, r)
    {
      var c := 2 * r + 1;
      if c + 1 < n && cmp(a[b + c], a[b + c + 1]) <= 0 {
        c := c + 1;
      }
      ChooseChild(a[..], cmp, b, n, r);
      if cmp(a[b + r], a[b + c]) > 0 {
        SiftStop(was, a[..], cmp, b, n, i, r, c);
        return;
      }
      SiftStep(was, a[..], cmp, b, n, i, r, c);
      Swap(a, b + r, b + c);
      r := c;
    }
    SiftEnd(was, a[..], cmp, b, n, i, r);
  }

  /** The state of the loop: node r is on its way down. */
  ghost predicate Sifting<T>(was: seq<T>, s: seq<T>, cmp: (T, T) -> int, b: nat, n: nat, i: nat, r: nat) {
    i <= r && HeapBut(s, cmp, b, n, i, r) && Shuffled(was, s, b, b + n)
  }

  lemma SiftStart<T>(s: seq<T>, cmp: (T, T) -> int, b: nat, n: nat, i: nat)
    requires Heap(s, cmp, b, n, i + 1)
    ensures Sifting(s, s, cmp, b, n, i, i)
  {
  }

  lemma SiftEnd<T>(was: seq<T>, s: seq<T>, cmp: (T, T) -> int, b: nat, n: nat, i: nat, r: nat)
    requires Sifting(was, s, cmp, b, n, i, r) && 2 * r + 1 >= n
    ensures Heap(s, cmp, b, n, i) && Shuffled(was, s, b, b + n)
  {
    hide Shuffled;
  }

  /** c is the greatest child of r. */
  ghost predicate GreatestChild<T>(s: seq<T>, cmp: (T, T) -> int, b: nat, n: nat, r: nat, c: nat) {
    && b + n <= |s| && IsChild(r, c) && c < n
    && forall d :: IsChild(r, d) && d < n ==> cmp(s[b + d], s[b + c]) <= 0
  }

  lemma ChooseChild<T(!new)>(s: seq<T>, cmp: (T, T) -> int, b: nat, n: nat, r: nat)
    requires IsOrder(cmp) && b + n <= |s| && 2 * r + 1 < n
    ensures var c := 2 * r + 1;
            GreatestChild(s, cmp, b, n, r, if c + 1 < n && cmp(s[b + c], s[b + c + 1]) <= 0 then c + 1 else c)
  {
    var c := 2 * r + 1;
    OrderFlip(cmp, s[b + c], s[b + c]);
    if c + 1 < n {
      OrderFlip(cmp, s[b + c + 1], s[b + c + 1]);
      OrderFlip(cmp, s[b + c], s[b + c + 1]);
    }
  }

  lemma {:induction false} SiftStop<T(!new)>(was: seq<T>, s: seq<T>, cmp: (T, T) -> int, b: nat, n: nat, i: nat, r: nat,
      c: nat)
    requires IsOrder(cmp) && Sifting(was, s, cmp, b, n, i, r) && r < n && GreatestChild(s, cmp, b, n, r, c)
        && cmp(s[b + r], s[b + c]) > 0
    ensures Heap(s, cmp, b, n, i) && Shuffled(was, s, b, b + n)
  {
    hide Shuffled;
    OrderFlip(cmp, s[b + r], s[b + c]);
    forall q, d | i <= q && IsChild(q, d) && d < n ensures cmp(s[b + d], s[b + q]) <= 0 {
      if q == r {
        OrderTrans(cmp, s[b + d], s[b + c], s[b + r]);
      }
    }
  }

  lemma {:induction false} SiftStep<T(!new)>(was: seq<T>, s: seq<T>, cmp: (T, T) -> int, b: nat, n: nat, i: nat, r: nat,
      c: nat)
    requires IsOrder(cmp) && Sifting(was, s, cmp, b, n, i, r) && r < n && GreatestChild(s, cmp, b, n, r, c)
        && cmp(s[b + r], s[b + c]) <= 0
    ensures Sifting(was, Swapped(s, b + r, b + c), cmp, b, n, i, c)
  {
    hide Shuffled, HeapBut, IsOrder, Swapped;
    HeapStep(s, cmp, b, n, i, r, c);
    SwapShuffles(s, b + r, b + c, b, b + n);
    ShuffledTrans(was, s, Swapped(s, b + r, b + c), b, b + n);
  }

  lemma {:induction false} HeapStep<T(!new)>(s: seq<T>, cmp: (T, T) -> int, b: nat, n: nat, i: nat, r: nat, c: nat)
    requires IsOrder(cmp) && HeapBut(s, cmp, b, n, i, r) && i <= r < n && GreatestChild(s, cmp, b, n, r, c)
        && cmp(s[b + r], s[b + c]) <= 0
    ensures HeapBut(Swapped(s, b + r, b + c), cmp, b, n, i, c)
  {
    hide IsOrder;
    var t := Swapped(s, b + r, b + c);
    forall q, d | i <= q && q != c && IsChild(q, d) && d < n ensures cmp(t[b + d], t[b + q]) <= 0 {
      if q == r {
      } else if d == r {
        assert IsChild(q, r) && IsChild(r, c);
      } else {
        assert d != c;
      }
    }
    forall q, d | i <= q && IsChild(q, c) && IsChild(c, d) && d < n ensures cmp(t[b + d], t[b + q]) <= 0 {
      assert q == r;
      assert cmp(s[b + d], s[b + c]) <= 0;
    }
  }

  /** Elements x .. m - 1 do not exceed elements m .. y - 1. */
  ghost predicate Below<T>(s: seq<T>, cmp: (T, T) -> int, x: nat, m: nat, y: nat) {
    y <= |s| && forall i, j :: x <= i < m <= j < y ==> cmp(s[i], s[j]) <= 0
  }

  /** The heap of the first i elements, and the sorted rest above it. */
  ghost predicate HeapSorted<T>(was: seq<T>, s: seq<T>, cmp: (T, T) -> int, b: nat, n: nat, i: nat) {
    && i <= n && Shuffled(was, s, b, b + n) && Heap(s, cmp, b, i, 0)
    && SortedFrom(s, cmp, b + i, b + n) && Below(s, cmp, b, b + i, b + n)
  }

  /** `heapsortx`. */
  method HeapSort<T(!new)>(a: array<T>, b: nat, n: nat, cmp: (T, T) -> int)
    requires IsOrder(cmp) && b + n <= a.Length
    modifies a
    ensures Shuffled(old(a[..]), a[..], b, b + n) && SortedFrom(a[..], cmp, b, b + n)
  {
    hide *;
    ghost var was := a[..];
    ShuffledSelf(was, b, b + n);
    SortedShort(was, cmp, b, if n > 0 then b + 1 else b);
    if n > 1 {
      var i := n / 2;
      LeavesAreHeap(was, cmp, b, n, i);
      while i > 0
        invariant 0 <= i < n && Heap(a[..], cmp, b, n, i) && Shuffled(was, a[..], b, b + n)
      {
        i := i - 1;
        ghost var s := a[..];
        SiftDown(a, b, n, i, cmp);
        ShuffledTrans(was, s, a[..], b, b + n);
      }
      HeapBuilt(was, a[..], cmp, b, n);
      i := n - 1;
      while i > 0
        invariant 0 <= i < n && HeapSorted(was, a[..], cmp, b, n, i + 1)
      {
        MaxToEnd(was, a[..], cmp, b, n, i);
        Swap(a, b, b + i);
        ghost var s := a[..];
        SiftDown(a, b, i, 0, cmp);
        MaxInPlace(was, s, a[..], cmp, b, n, i);
        i := i - 1;
      }
      HeapDone(was, a[..], cmp, b, n);
    }
  }

  lemma LeavesAreHeap<T>(s: seq<T>, cmp: (T, T) -> int, b: nat, n: nat, i: nat)
    requires b + n <= |s| && i == n / 2
    ensures Heap(s, cmp, b, n, i)
  {
  }

  lemma HeapBuilt<T>(was: seq<T>, s: seq<T>, cmp: (T, T) -> int, b: nat, n: nat)
    requires Heap(s, cmp, b, n, 0) && Shuffled(was, s, b, b + n)
    ensures HeapSorted(was, s, cmp, b, n, n)
  {
    hide Heap;
  }

  /** The root of a heap is its maximum. */
  lemma {:induction false} RootIsMax<T(!new)>(s: seq<T>, cmp: (T, T) -> int, b: nat, n: nat, k: nat)
    requires IsOrder(cmp) && Heap(s, cmp, b, n, 0) && k < n
    ensures cmp(s[b + k], s[b]) <= 0
  {
    if k == 0 {
      OrderFlip(cmp, s[b], s[b]);
    } else {
      var q := (k - 1) / 2;
      assert IsChild(q, k);
      RootIsMax(s, cmp, b, n, q);
      OrderTrans(cmp, s[b + k], s[b + q], s[b]);
    }
  }

  /** With the maximum of the first i + 1 elements swapped to position i: the rest is a heap below its root. */
  ghost predicate MaxAtEnd<T>(was: seq<T>, s: seq<T>, cmp: (T, T) -> int, b: nat, n: nat, i: nat) {
    && i < n && Shuffled(was, s, b, b + n) && Heap(s, cmp, b, i, 1)
    && SortedFrom(s, cmp, b + i, b + n) && Below(s, cmp, b, b + i, b + n)
  }

  lemma {:induction false} MaxToEnd<T(!new)>(was: seq<T>, s: seq<T>, cmp: (T, T) -> int, b: nat, n: nat, i: nat)
    requires IsOrder(cmp) && 0 < i < n && HeapSorted(was, s, cmp, b, n, i + 1)
    ensures b + i < |s| && MaxAtEnd(was, Swapped(s, b, b + i), cmp, b, n, i) && Heap(Swapped(s, b, b + i), cmp, b, i, 1)
  {
    hide Shuffled, IsOrder, Heap, SortedFrom, Below, Swapped;
    Lengths(was, s, b, b + n);
    SwapShuffles(s, b, b + i, b, b + n);
    ShuffledTrans(was, s, Swapped(s, b, b + i), b, b + n);
    HeapTail(s, cmp, b, i);
    MaxSorted(s, cmp, b, n, i);
    MaxBelow(s, cmp, b, n, i);
  }

  lemma {:induction false} HeapTail<T>(s: seq<T>, cmp: (T, T) -> int, b: nat, i: nat)
    requires b + i < |s| && 0 < i && Heap(s, cmp, b, i + 1, 0)
    ensures Heap(Swapped(s, b, b + i), cmp, b, i, 1)
  {
    var t := Swapped(s, b, b + i);
    forall q, c | 1 <= q && IsChild(q, c) && c < i ensures cmp(t[b + c], t[b + q]) <= 0 {
      assert t[b + c] == s[b + c] && t[b + q] == s[b + q];
    }
  }

  lemma {:induction false} MaxSorted<T>(s: seq<T>, cmp: (T, T) -> int, b: nat, n: nat, i: nat)
    requires 0 < i < n && b + n <= |s| && SortedFrom(s, cmp, b + i + 1, b + n) && Below(s, cmp, b, b + i + 1, b + n)
    ensures SortedFrom(Swapped(s, b, b + i), cmp, b + i, b + n)
  {
    var t := Swapped(s, b, b + i);
    forall x, y | b + i <= x < y < b + n ensures cmp(t[x], t[y]) <= 0 {
      assert t[y] == s[y] && t[x] == if x == b + i then s[b] else s[x];
    }
  }

  lemma {:induction false} MaxBelow<T(!new)>(s: seq<T>, cmp: (T, T) -> int, b: nat, n: nat, i: nat)
    requires IsOrder(cmp) && 0 < i < n && b + n <= |s| && Heap(s, cmp, b, i + 1, 0)
        && Below(s, cmp, b, b + i + 1, b + n)
    ensures Below(Swapped(s, b, b + i), cmp, b, b + i, b + n)
  {
    hide IsOrder, Heap;
    var t := Swapped(s, b, b + i);
    forall x, y | b <= x < b + i <= y < b + n ensures cmp(t[x], t[y]) <= 0 {
      var x0 := if x == b then b + i else x;
      assert t[x] == s[x0];
      if y == b + i {
        RootIsMax(s, cmp, b, i + 1, x0 - b);
      }
    }
  }

  lemma {:induction false} MaxInPlace<T(!new)>(was: seq<T>, s: seq<T>, t: seq<T>, cmp: (T, T) -> int, b: nat, n: nat,
      i: nat)
    requires IsOrder(cmp) && 0 < i && MaxAtEnd(was, s, cmp, b, n, i) && Shuffled(s, t, b, b + i)
        && Heap(t, cmp, b, i, 0)
    ensures HeapSorted(was, t, cmp, b, n, i)
  {
    hide Shuffled, Heap, IsOrder, SortedFrom, Below;
    Lengths(s, t, b, b + i);
    Lengths(was, s, b, b + n);
    ShuffledWiden(s, t, b, b + i, b, b + n);
    ShuffledTrans(was, s, t, b, b + n);
    SameAbove(s, t, cmp, b, b + i, b + n);
    StillBelow(s, t, cmp, b, b + i, b + n);
  }

  lemma {:induction false} SameAbove<T>(s: seq<T>, t: seq<T>, cmp: (T, T) -> int, lo: nat, hi: nat, e: nat)
    requires Shuffled(s, t, lo, hi) && e <= |s| && SortedFrom(s, cmp, hi, e)
    ensures SortedFrom(t, cmp, hi, e)
  {
    hide Shuffled;
    Lengths(s, t, lo, hi);
    forall k | hi <= k < e ensures t[k] == s[k] { ShuffledOutside(s, t, lo, hi, k); }
  }

  lemma {:induction false} StillBelow<T>(s: seq<T>, t: seq<T>, cmp: (T, T) -> int, lo: nat, hi: nat, e: nat)
    requires Shuffled(s, t, lo, hi) && Below(s, cmp, lo, hi, e)
    ensures Below(t, cmp, lo, hi, e)
  {
    hide Shuffled;
    Lengths(s, t, lo, hi);
    forall x, y | lo <= x < hi <= y < e ensures cmp(t[x], t[y]) <= 0 {
      var x0 := ShuffledFrom(s, t, lo, hi, x);
      ShuffledOutside(s, t, lo, hi, y);
      assert cmp(s[x0], s[y]) <= 0;
    }
  }

  lemma Lengths<T>(s: seq<T>, t: seq<T>, lo: nat, hi: nat)
    requires Shuffled(s, t, lo, hi)
    ensures lo <= hi <= |s| == |t|
  {
  }

  lemma {:induction false} HeapDone<T(!new)>(was: seq<T>, s: seq<T>, cmp: (T, T) -> int, b: nat, n: nat)
    requires 0 < n && HeapSorted(was, s, cmp, b, n, 1)
    ensures Shuffled(was, s, b, b + n) && SortedFrom(s, cmp, b, b + n)
  {
    hide Shuffled, Heap;
  }
}
