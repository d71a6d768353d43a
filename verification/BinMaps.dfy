/** The bitmaps of non-empty bins, and the bit tricks that find the next bin (`dlmalloc.c`). */
module BinMaps {

  predicate BvBit(m: bv32, i: bv6)
    requires i < 32
  {
    (m >> i) & 1 == 1
  }

  function BvOne(i: bv6): bv32
    requires i < 32
  {
    1 << i
  }

  function Index(i: nat): (r: bv6)
    requires i < 32
    ensures r < 32
  {
    i as bv6
  }

  lemma IndexBack(i: nat)
    requires i < 32
    ensures Index(i) as nat == i
  {
  }

  lemma BvOrder(x: bv6, y: bv6)
    ensures x < y <==> (x as nat) < (y as nat)
  {
  }

  lemma IndexOrder(i: nat, j: nat)
    requires i < 32 && j < 32
    ensures Index(i) == Index(j) <==> i == j
    ensures Index(i) < Index(j) <==> i < j
  {
    hide Index;
    IndexBack(i);
    IndexBack(j);
    BvOrder(Index(i), Index(j));
  }

  /** Bin `i` is marked. */
  predicate Marked(m: bv32, i: nat)
    requires i < 32
  {
    BvBit(m, Index(i))
  }

  /** `idx2bit`. */
  function IndexBit(i: nat): bv32
    requires i < 32
  {
    BvOne(Index(i))
  }

  function With(m: bv32, x: bv32): bv32 { m | x }

  function Without(m: bv32, x: bv32): bv32 { m & !x }

  /** `mark_smallmap`, `mark_treemap`. */
  function Mark(m: bv32, i: nat): bv32
    requires i < 32
  {
    With(m, IndexBit(i))
  }

  /** `clear_smallmap`, `clear_treemap`. */
  function Clear(m: bv32, i: nat): bv32
    requires i < 32
  {
    Without(m, IndexBit(i))
  }

  /** `least_bit`. */
  function LeastBit(x: bv32): bv32 { x & (0 - x) }

  /** `left_bits`. */
  function LeftBits(x: bv32): bv32 { (x << 1) | (0 - (x << 1)) }

  lemma BvMark(m: bv32, i: bv6, j: bv6)
    requires i < 32 && j < 32
    ensures BvBit(With(m, BvOne(i)), j) <==> i == j || BvBit(m, j)
  {
  }

  lemma BvClear(m: bv32, i: bv6, j: bv6)
    requires i < 32 && j < 32
    ensures BvBit(Without(m, BvOne(i)), j) <==> i != j && BvBit(m, j)
  {
  }

  lemma BvLeft(i: bv6, j: bv6)
    requires i < 32 && j < 32
    ensures BvBit(LeftBits(BvOne(i)), j) <==> i < j
  {
  }

  function Half(m: bv32): bv32 { m >> 1 }

  lemma BitNext(m: bv32, j: bv6)
    requires 0 < j < 32
    ensures BvBit(m, j) <==> BvBit(Half(m), j - 1)
  {
  }

  lemma BothFirst(m: bv32, n: bv32)
    ensures BvBit(Both(m, n), 0) <==> BvBit(m, 0) && BvBit(n, 0)
  {
  }

  lemma HalfBoth(m: bv32, n: bv32)
    ensures Half(Both(m, n)) == Both(Half(m), Half(n))
  {
  }

  lemma {:induction false} BvAnd(m: bv32, n: bv32, j: bv6)
    requires j < 32
    ensures BvBit(Both(m, n), j) <==> BvBit(m, j) && BvBit(n, j)
    decreases j
  {
    hide *;
    if j == 0 {
      BothFirst(m, n);
    } else {
      BvAnd(Half(m), Half(n), j - 1);
      HalfBoth(m, n);
      BitNext(m, j);
      BitNext(n, j);
      BitNext(Both(m, n), j);
    }
  }

  lemma BvNone(j: bv6)
    requires j < 32
    ensures !BvBit(0, j)
  {
  }

  lemma BvLeast(x: bv32, i: bv6, j: bv6)
    requires i < 32 && j < 32 && BvBit(LeastBit(x), i)
    ensures BvBit(x, i) && (j < i ==> !BvBit(x, j))
  {
  }

  lemma MarkAt(m: bv32, i: nat, j: nat)
    requires i < 32 && j < 32
    ensures Marked(Mark(m, i), j) <==> i == j || Marked(m, j)
    ensures Marked(Clear(m, i), j) <==> i != j && Marked(m, j)
  {
    hide BvBit, BvOne, Index, With, Without, LeftBits;
    BvMark(m, Index(i), Index(j));
    BvClear(m, Index(i), Index(j));
    IndexOrder(i, j);
  }

  /** The first marked bin from `i` on; 32 if there is none. */
  function First(x: bv32, i: nat): (r: nat)
    requires i <= 32
    ensures i <= r <= 32 && (r < 32 ==> Marked(x, r))
    ensures forall k :: i <= k < r ==> !Marked(x, k)
    decreases 32 - i
  {
    if i == 32 || Marked(x, i) then i else First(x, i + 1)
  }

  /** A map is not zero if and only if a bin is marked. */
  lemma ZeroMap(x: bv32)
    ensures x == 0 <==> forall k :: 0 <= k < 32 ==> !Marked(x, k)
  {
    if x == 0 {
      forall k | 0 <= k < 32 ensures !Marked(x, k) {
        BvNone(Index(k));
      }
    } else {
      IndexEnds();
      BvEnds(x);
      var j := SomeBit(x, 0);
      assert Marked(x, j);
    }
  }

  function BvShift(x: bv32, i: bv6): bv32
    requires i < 32
  {
    x >> i
  }

  lemma BvNotLast(x: bv32, i: bv6)
    requires i < 31 && BvShift(x, i) != 0 && !BvBit(x, i)
    ensures BvShift(x, i + 1) != 0
  {
  }

  lemma BvEnds(x: bv32)
    ensures BvShift(x, 31) != 0 ==> BvBit(x, 31)
    ensures BvShift(x, 0) == x
  {
  }

  lemma IndexNext(j: nat)
    requires j < 31
    ensures Index(j + 1) == Index(j) + 1 && Index(j) < 31
  {
    hide Index;
    IndexBack(j);
    IndexOrder(j, 31);
    IndexEnds();
    BvNext(Index(j));
  }

  lemma BvNext(x: bv6)
    requires x < 31
    ensures (x + 1) as nat == x as nat + 1 < 32 && Index((x + 1) as nat) == x + 1
  {
  }

  lemma IndexEnds()
    ensures Index(0) == 0 && Index(31) == 31
  {
  }

  lemma {:induction false} SomeBit(x: bv32, i: nat) returns (j: nat)
    requires i < 32 && BvShift(x, Index(i)) != 0
    ensures j < 32 && Marked(x, j)
    decreases 32 - i
  {
    hide BvShift, BvBit, Index;
    if Marked(x, i) {
      j := i;
    } else {
      IndexEnds();
      BvEnds(x);
      IndexNext(i);
      BvNotLast(x, Index(i));
      j := SomeBit(x, i + 1);
    }
  }

  /** `compute_bit2idx` of `least_bit`: the first marked bin. */
  function LeastIndex(x: bv32): nat { First(LeastBit(x), 0) }

  lemma {:induction false} LeastIsFirst(x: bv32)
    requires x != 0
    ensures LeastIndex(x) < 32 && Marked(x, LeastIndex(x))
    ensures forall k :: 0 <= k < LeastIndex(x) ==> !Marked(x, k)
  {
    hide BvBit, Index, LeastBit;
    LeastNotZero(x);
    ZeroMap(LeastBit(x));
    var i := LeastIndex(x);
    BvLeast(x, Index(i), Index(i));
    forall k | 0 <= k < i ensures !Marked(x, k) {
      BvLeast(x, Index(i), Index(k));
      IndexOrder(k, i);
    }
  }

  lemma LeastNotZero(x: bv32)
    requires x != 0
    ensures LeastBit(x) != 0
  {
  }

  /** The bins above `i`. */
  function Above(m: bv32, i: nat): bv32
    requires i < 32
  {
    Both(LeftBits(IndexBit(i)), m)
  }

  function Both(m: bv32, n: bv32): bv32 { m & n }

  lemma {:induction false} AboveMarked(m: bv32, i: nat, j: nat)
    requires i < 32 && j < 32
    ensures Marked(Above(m, i), j) <==> i < j && Marked(m, j)
  {
    hide BvBit, Index, LeftBits, BvOne, Both, With, Without;
    BvAnd(LeftBits(IndexBit(i)), m, Index(j));
    BvLeft(Index(i), Index(j));
    IndexOrder(i, j);
  }

  // ---- the choice of a small bin ----

  /** `smallmap >> idx`. */
  function BinsFrom(m: bv32, i: nat): bv32
    requires i < 32
  {
    BvShift(m, Index(i))
  }

  /** One of the first two bins is marked (`smallbits & 0x3U`). */
  predicate Near(x: bv32) { x & 3 != 0 }

  /** `~smallbits & 1`: the second bin is meant if the first is empty. */
  function Skip(x: bv32): nat { if x & 1 == 1 then 0 else 1 }

  /** `(smallbits << idx) & left_bits(idx2bit(idx))`. */
  function LeftOf(x: bv32, i: nat): bv32
    requires i < 32
  {
    Both(BvBack(x, Index(i)), LeftBits(IndexBit(i)))
  }

  function BvBack(x: bv32, i: bv6): bv32
    requires i < 32
  {
    x << i
  }

  lemma BvNear(m: bv32, i: bv6)
    requires i < 31
    ensures Near(BvShift(m, i)) <==> BvBit(m, i) || BvBit(m, i + 1)
    ensures Skip(BvShift(m, i)) == 0 <==> BvBit(m, i)
  {
  }

  lemma NearMarked(m: bv32, i: nat)
    requires i < 31
    ensures Near(BinsFrom(m, i)) <==> Marked(m, i) || Marked(m, i + 1)
    ensures Skip(BinsFrom(m, i)) == if Marked(m, i) then 0 else 1
  {
    hide Near, BvShift, BvBit, Index, Skip;
    IndexNext(i);
    BvNear(m, Index(i));
    SkipBound(BinsFrom(m, i));
  }

  lemma SkipBound(x: bv32)
    ensures Skip(x) <= 1
  {
  }

  lemma BvShiftBack(m: bv32, i: bv6, j: bv6)
    requires i < 32 && j < 32
    ensures BvBit(BvBack(BvShift(m, i), i), j) <==> i <= j && BvBit(m, j)
  {
  }

  lemma BvShiftZero(m: bv32, i: bv6, j: bv6)
    requires i <= j < 32 && BvShift(m, i) == 0
    ensures !BvBit(m, j)
  {
  }

  /** The first non-empty bin above, when there is one at all. */
  lemma {:induction false} LeftOfFirst(m: bv32, i: nat)
    requires i < 32
    ensures BinsFrom(m, i) == 0 ==> forall k :: i <= k < 32 ==> !Marked(m, k)
    ensures BinsFrom(m, i) != 0 && !Marked(m, i) ==>
              var j := LeastIndex(LeftOf(BinsFrom(m, i), i));
                i < j < 32 && Marked(m, j) && forall k :: i <= k < j ==> !Marked(m, k)
  {
    hide BvBit, Index, LeftBits, BvOne, Both, BvShift, BvBack, LeastIndex;
    var y := LeftOf(BinsFrom(m, i), i);
    forall j | 0 <= j < 32 ensures Marked(y, j) <==> i < j && Marked(m, j) {
      BvAnd(BvBack(BvShift(m, Index(i)), Index(i)), LeftBits(IndexBit(i)), Index(j));
      BvShiftBack(m, Index(i), Index(j));
      BvLeft(Index(i), Index(j));
      IndexOrder(i, j);
    }
    if BinsFrom(m, i) == 0 {
      forall k | i <= k < 32 ensures !Marked(m, k) {
        IndexOrder(i, k);
        BvShiftZero(m, Index(i), Index(k));
      }
    } else if !Marked(m, i) {
      var j := SomeFrom(m, i);
      ZeroMap(y);
      LeastIsFirst(y);
    }
  }

  lemma {:induction false} SomeFrom(m: bv32, i: nat) returns (j: nat)
    requires i < 32 && BinsFrom(m, i) != 0
    ensures i <= j < 32 && Marked(m, j)
    decreases 32 - i
  {
    hide BvShift, BvBit, Index;
    if Marked(m, i) {
      j := i;
    } else {
      IndexEnds();
      BvEnds(m);
      IndexNext(i);
      BvNotLast(m, Index(i));
      j := SomeFrom(m, i + 1);
    }
  }
}
