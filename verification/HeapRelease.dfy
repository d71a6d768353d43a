/** A chunk of a space goes out of use and merges with its free neighbours (`mspace_free`, `dispose_chunk`). */
module HeapRelease {
  import opened HeapWords
  import opened HeapTiling
  import opened HeapState
  import opened HeapMoves
  import opened HeapEdits

  /** The chunk `p` in use, the free chunk `q` before it (or `p` itself), and whether the chunk after it is free. */
  predicate Releasable(c: Chunks, q: int, p: int, merge: bool) {
    && p in c && c[p].used && c[p].size > 0 && p + c[p].size in c && c[p + c[p].size].used == !merge
      && c[p + c[p].size].size > 0
    && (q == p || (q in c && !c[q].used && c[q].size > 0 && q + c[q].size == p))
  }

  function NextOf(c: Chunks, p: int): int
    requires p in c
  {
    p + c[p].size
  }

  /** Size of the merged chunk. */
  function Total(c: Chunks, q: int, p: int, merge: bool): (r: nat)
    requires Releasable(c, q, p, merge)
    ensures r > 0
  {
    (if q == p then 0 else c[q].size) + c[p].size + if merge then c[NextOf(c, p)].size else 0
  }

  function Released(c: Chunks, q: int, p: int, merge: bool): Chunks
    requires Releasable(c, q, p, merge) && Positive(c)
  {
    BackwardShape(c, q, p, merge);
    if merge then Join(Backward(c, q, p), q) else Backward(c, q, p)
  }

  /** The first two steps: out of use, and joined to the chunk before. */
  function Backward(c: Chunks, q: int, p: int): Chunks
    requires p in c && (q == p || (q in c && c[q].size > 0 && q + c[q].size == p))
  {
    var c1 := SetUsed(c, p, false);
    if q == p then c1 else Join(c1, q)
  }

  lemma {:induction false} BackwardShape(c: Chunks, q: int, p: int, merge: bool)
    requires Releasable(c, q, p, merge) && Positive(c)
    ensures var d, n := Backward(c, q, p), NextOf(c, p);
            && d.Keys == c.Keys - (if q == p then {} else {p})
            && d[q] == Chunk((if q == p then 0 else c[q].size) + c[p].size, false, c[q].pinuse)
            && d[n] == c[n].(pinuse := false) && n != q && n != p
            && forall s :: s in d && s != q && s != n ==> d[s] == c[s]
  {
    hide SetUsed, Join;
    var n, c1 := NextOf(c, p), SetUsed(c, p, false);
    SetUsedShape(c, p, false);
    assert Positive(c1);
    if q != p {
      JoinShape(c1, q);
    }
  }

  lemma {:induction false} ReleasedShape(c: Chunks, q: int, p: int, merge: bool)
    requires Releasable(c, q, p, merge) && Positive(c) && Flagged(c)
    ensures var d, n := Released(c, q, p, merge), NextOf(c, p);
            && d.Keys == c.Keys - (if q == p then {} else {p}) - (if merge then {n} else {})
            && d[q] == Chunk(Total(c, q, p, merge), false, c[q].pinuse) && q <= p < n
            && (!merge ==> d[n] == c[n].(pinuse := false))
            && forall s :: s in d && s != q && s != n ==> d[s] == c[s]
  {
    hide SetUsed, Join, Backward;
    BackwardShape(c, q, p, merge);
    var n, c2 := NextOf(c, p), Backward(c, q, p);
    if merge {
      var e := n + c[n].size;
      assert e in c ==> c[e].pinuse == false;
      assert Positive(c2) by { BackwardPositive(c, c2, q, p, n); }
      JoinShape(c2, q);
    }
  }

  lemma BackwardPositive(c: Chunks, d: Chunks, q: int, p: int, n: int)
    requires Positive(c) && q in d && d[q].size > 0 && n in c && (n in d ==> d[n].size == c[n].size)
    requires forall s :: s in d && s != q && s != n ==> s in c && d[s] == c[s]
    ensures Positive(d)
  {
  }

  lemma {:induction false} ReleasedTiled(c: Chunks, q: int, p: int, merge: bool, top: int, fences: set<int>,
      z: Zones)
    requires Tiled(c, top, fences, z) && Releasable(c, q, p, merge) && p != top && Positive(c)
    ensures Tiled(Released(c, q, p, merge), if merge && NextOf(c, p) == top then q else top, fences, z)
  {
    hide Sized, Separate, Chained, Flagged, Preceded, SetUsed, Join, FencesOutside;
    var n := NextOf(c, p);
    SizedPositive(c, top, z);
    SetUsedTiled(c, p, false, top, fences, z);
    SetUsedShape(c, p, false);
    var c1 := SetUsed(c, p, false);
    SizedPositive(c1, top, z);
    var c2 := if q == p then c1 else Join(c1, q);
    if q != p {
      assert End(c1, q) == p && End(c1, p) == n;
      JoinTiled(c1, q, top, fences, z);
      JoinShape(c1, q);
      SizedPositive(c2, top, z);
    }
    if merge {
      assert q in c2 && !c2[q].used && End(c2, q) == n && n in c2 && c2[n].size == c[n].size && !c2[n].used;
      FreeEnd(c2, n, top, fences);
      JoinTiled(c2, q, top, fences, z);
    }
  }

  /** A free chunk does not end at a fence. */
  lemma FreeEnd(c: Chunks, n: int, top: int, fences: set<int>)
    requires Chained(c, top, fences) && TopLast(c, top, fences) && n in c && !c[n].used
    ensures End(c, n) !in fences
  {
  }

  // ---- the tags ----

  /** `set_free_with_pinuse`: the chunk after is in use. */
  function FreedBefore(m: Mem, q: int, total: nat): Mem {
    var n := q + total;
    m[n + HEAD := WithPinuse(Get(m, n + HEAD), false)][q + HEAD := Tag(total, false, true)][n := total]
  }

  /** `set_size_and_pinuse_of_free_chunk`: the chunk after has been merged. */
  function FreedMerged(m: Mem, q: int, total: nat): Mem {
    m[q + HEAD := Tag(total, false, true)][q + total := total]
  }

  /** The head of a new top chunk. */
  function FreedTop(m: Mem, q: int, total: nat): Mem { m[q + HEAD := Tag(total, false, true)] }

  /** The chunks that make up the merged chunk. */
  function Merged(c: Chunks, q: int, p: int, merge: bool): set<int>
    requires p in c
  {
    if merge then {q, p, NextOf(c, p)} else {q, p}
  }

  lemma FreedWords(m: Mem, q: int, total: nat)
    requires total >= 16
    ensures var m1 := FreedBefore(m, q, total);
            && Get(m1, q + HEAD) == Tag(total, false, true) && Get(m1, q + total) == total
            && Get(m1, q + total + HEAD) == WithPinuse(Get(m, q + total + HEAD), false)
    ensures var m1 := FreedMerged(m, q, total);
        Get(m1, q + HEAD) == Tag(total, false, true) && Get(m1, q + total) == total
    ensures Get(FreedTop(m, q, total), q + HEAD) == Tag(total, false, true)
  {
  }

  lemma {:induction false} FreedChanges(m: Mem, c: Chunks, q: int, p: int, merge: bool)
    requires Releasable(c, q, p, merge) && Roomy(c)
    ensures var total := Total(c, q, p, merge);
            if merge then
              Changes(m, FreedMerged(m, q, total), c, Merged(c, q, p, merge), {})
              && Changes(m, FreedTop(m, q, total), c, Merged(c, q, p, merge), {})
            else Changes(m, FreedBefore(m, q, total), c, Merged(c, q, p, merge), {NextOf(c, p)})
  {
    var total, last := Total(c, q, p, merge), if merge then NextOf(c, p) else p;
    assert Owns(c, q, q + HEAD) && q in Merged(c, q, p, merge);
    assert q + total == last + c[last].size;
    assert Owns(c, last, q + total) && last in Merged(c, q, p, merge);
  }

  /** The chunks on either side are not in bins: they have been taken out, or one is the top chunk. */
  ghost predicate Ready(h: Heap, loose: set<int>, q: int, p: int, merge: bool) {
    && Releasable(h.chunks, q, p, merge) && (q != p ==> q in loose) && h.chunks[q].pinuse
    && (merge ==> NextOf(h.chunks, p) in loose || NextOf(h.chunks, p) == h.top)
  }

  function LooseAfter(h: Heap, loose: set<int>, q: int, p: int, merge: bool): set<int>
    requires p in h.chunks
  {
    var n := NextOf(h.chunks, p);
    if !merge then loose + {q} else if n == h.top then loose - {q} else loose - {n} + {q}
  }

  function FreedMem(h: Heap, q: int, p: int, merge: bool): Mem
    requires Releasable(h.chunks, q, p, merge)
  {
    var total := Total(h.chunks, q, p, merge);
    if !merge then FreedBefore(h.mem, q, total)
    else if NextOf(h.chunks, p) == h.top then FreedTop(h.mem, q, total)
    else FreedMerged(h.mem, q, total)
  }

  function FreedHeap(h: Heap, q: int, p: int, merge: bool): Heap
    requires Releasable(h.chunks, q, p, merge) && Positive(h.chunks)
  {
    h.(mem := FreedMem(h, q, p, merge), chunks := Released(h.chunks, q, p, merge),
       top := if merge && NextOf(h.chunks, p) == h.top then q else h.top)
  }

  lemma {:induction false} ReleaseKept(h: Heap, h1: Heap, loose: set<int>, q: int, p: int, merge: bool)
    requires Ready(h, loose, q, p, merge) && Positive(h.chunks) && Flagged(h.chunks)
    requires h1.chunks == Released(h.chunks, q, p, merge) && h1.dv == h.dv
    requires h1.top == if merge && NextOf(h.chunks, p) == h.top then q else h.top
    ensures Kept(h, h1, loose, LooseAfter(h, loose, q, p, merge), Merged(h.chunks, q, p, merge),
        if merge then {} else {NextOf(h.chunks, p)})
  {
    hide Released, Total, Flagged, Positive;
    ReleasedShape(h.chunks, q, p, merge);
  }

  lemma {:induction false} ReleaseSpecial(h: Heap, h1: Heap, loose: set<int>, q: int, p: int, merge: bool)
    requires Ready(h, loose, q, p, merge) && Special(h, loose) && Positive(h.chunks) && Flagged(h.chunks)
        && h.top in h.chunks && !h.chunks[h.top].used
    requires h1.chunks == Released(h.chunks, q, p, merge) && h1.dv == h.dv
    requires h1.top == if merge && NextOf(h.chunks, p) == h.top then q else h.top
    ensures Special(h1, LooseAfter(h, loose, q, p, merge))
  {
    hide Released, Total, Flagged, Positive;
    ReleasedShape(h.chunks, q, p, merge);
    var loose1 := LooseAfter(h, loose, q, p, merge);
    forall s | s in loose1 ensures s in h1.chunks && !h1.chunks[s].used && s != h1.top {
      if s != q {
        assert s in loose && s != p;
      }
    }
  }

  lemma {:induction false} ReleasePlaced(h: Heap, at: Place, loose: set<int>, q: int, p: int, merge: bool)
    requires Ok(h, at, loose) && Ready(h, loose, q, p, merge) && Positive(h.chunks)
    ensures var h1, loose1 := FreedHeap(h, q, p, merge), LooseAfter(h, loose, q, p, merge);
            q in h1.chunks && Placed(h1, loose1, q)
    ensures forall s ::
        s in FreedHeap(h, q, p, merge).chunks ==> s in h.chunks && (s in Merged(h.chunks, q, p, merge) ==> s == q)
  {
    hide Ok, Tag, WithPinuse, Released, FreedBefore, FreedMerged, FreedTop, Total, Flagged, Positive;
    OkFlagged(h, at, loose);
    ReleasedShape(h.chunks, q, p, merge);
    ChunkFacts(h, at, loose, p);
    TotalAtLeast(h.chunks, q, p, merge);
    FreedWords(h.mem, q, Total(h.chunks, q, p, merge));
  }

  lemma TotalAtLeast(c: Chunks, q: int, p: int, merge: bool)
    requires Releasable(c, q, p, merge)
    ensures Total(c, q, p, merge) >= c[p].size
    ensures !merge ==> q + Total(c, q, p, merge) == NextOf(c, p)
  {
  }

  lemma {:induction false} NextPlaced(h: Heap, at: Place, loose: set<int>, q: int, p: int)
    requires Ok(h, at, loose) && Ready(h, loose, q, p, false) && Positive(h.chunks)
    ensures var h1, loose1, n := FreedHeap(h, q, p, false), LooseAfter(h, loose, q, p, false), NextOf(h.chunks, p);
            n in h1.chunks && Placed(h1, loose1, n)
  {
    hide Ok, Tag, WithPinuse, Released, FreedBefore, FreedMerged, FreedTop, Total, Flagged, Positive;
    OkFlagged(h, at, loose);
    ReleasedShape(h.chunks, q, p, false);
    var n := NextOf(h.chunks, p);
    ChunkFacts(h, at, loose, p);
    ChunkFacts(h, at, loose, n);
    OkFlaggedAt(h, at, loose, p);
    TagBits(h.chunks[n].size, true, true);
    TotalAtLeast(h.chunks, q, p, false);
    FreedWords(h.mem, q, Total(h.chunks, q, p, false));
  }

  lemma OkFlagged(h: Heap, at: Place, loose: set<int>)
    requires Ok(h, at, loose)
    ensures Flagged(h.chunks) && Positive(h.chunks)
  {
    hide Separate, Preceded, Heads, Feet, SmallFilled, TreesFilled, Complete, Chained, TopLast;
  }

  lemma OkFlaggedAt(h: Heap, at: Place, loose: set<int>, p: int)
    requires Ok(h, at, loose) && p in h.chunks && p + h.chunks[p].size in h.chunks
    ensures h.chunks[p + h.chunks[p].size].pinuse == h.chunks[p].used
  {
    hide Separate, Preceded, Heads, Feet, SmallFilled, TreesFilled, Complete, Chained, TopLast, Sized;
  }

  lemma {:induction false} ReleaseEdit(h: Heap, at: Place, loose: set<int>, q: int, p: int, merge: bool)
    requires Ok(h, at, loose) && NoFreePair(h.chunks) && Ready(h, loose, q, p, merge) && Positive(h.chunks)
    ensures Edited(h, FreedHeap(h, q, p, merge), loose, LooseAfter(h, loose, q, p, merge),
        Merged(h.chunks, q, p, merge), if merge then {} else {NextOf(h.chunks, p)})
    ensures Special(FreedHeap(h, q, p, merge), LooseAfter(h, loose, q, p, merge))
  {
    hide Ok, Tiled, SmallFilled, TreesFilled, Complete, Heads, Feet, Separate, Released, FreedBefore, FreedMerged,
      FreedTop, Changes, Kept, Placed, Edited, LooseAfter, Special;
    OkParts(h, at, loose);
    OkFlagged(h, at, loose);
    var h1, loose1 := FreedHeap(h, q, p, merge), LooseAfter(h, loose, q, p, merge);
    FreedChanges(h.mem, h.chunks, q, p, merge);
    ReleaseKept(h, h1, loose, q, p, merge);
    TopFree(h, at, loose);
    ReleaseSpecial(h, h1, loose, q, p, merge);
    ReleasePlaced(h, at, loose, q, p, merge);
    if !merge { NextPlaced(h, at, loose, q, p); }
    NotWaiting(h, loose, q, p, merge);
    EditedIs(h, h1, loose, loose1, Merged(h.chunks, q, p, merge), if merge then {} else {NextOf(h.chunks, p)});
  }

  lemma TopFree(h: Heap, at: Place, loose: set<int>)
    requires Ok(h, at, loose)
    ensures h.top in h.chunks && !h.chunks[h.top].used
  {
    hide Separate, Preceded, Heads, Feet, SmallFilled, TreesFilled, Complete, Sized, Chained, Flagged;
  }

  lemma NotWaiting(h: Heap, loose: set<int>, q: int, p: int, merge: bool)
    requires Ready(h, loose, q, p, merge)
    ensures forall s :: s in Merged(h.chunks, q, p, merge) ==> s in h.chunks && !Waiting(h, loose, s)
    ensures !merge ==>
        NextOf(h.chunks, p) in h.chunks && h.chunks[NextOf(h.chunks, p)].used
        && NextOf(h.chunks, p) !in Merged(h.chunks, q, p, merge)
  {
  }

  lemma {:induction false} ReleaseOk(h: Heap, at: Place, loose: set<int>, q: int, p: int, merge: bool)
    requires Ok(h, at, loose) && NoFreePair(h.chunks) && Ready(h, loose, q, p, merge) && Positive(h.chunks)
    requires p != at.ms - 16 && p != h.top
    ensures var h1 := FreedHeap(h, q, p, merge);
            && Ok(h1, at, LooseAfter(h, loose, q, p, merge)) && NoFreePair(h1.chunks)
            && PayloadsKept(h.mem, h1.mem, h.chunks, Merged(h.chunks, q, p, merge))
  {
    hide *;
    OkParts(h, at, loose);
    ReadyParts(h, loose, q, p, merge);
    var h1, loose1, ts := FreedHeap(h, q, p, merge), LooseAfter(h, loose, q, p, merge), Merged(h.chunks, q, p, merge);
    StateStays(h, at, loose, q, p, merge);
    ReleaseEdit(h, at, loose, q, p, merge);
    ReleasedTiled(h.chunks, q, p, merge, h.top, h.fences, at.zone);
    FreedIs(h, q, p, merge);
    EditedOk(h, h1, at, loose, loose1, ts, if merge then {} else {NextOf(h.chunks, p)});
    EditedPayloads(h, h1, at, loose, loose1, ts, if merge then {} else {NextOf(h.chunks, p)});
    ReleasedNoPair(h, at, loose, q, p, merge);
  }

  lemma ReadyParts(h: Heap, loose: set<int>, q: int, p: int, merge: bool)
    requires Ready(h, loose, q, p, merge)
    ensures Releasable(h.chunks, q, p, merge) && p in h.chunks
  {
  }

  lemma StateStays(h: Heap, at: Place, loose: set<int>, q: int, p: int, merge: bool)
    requires Ok(h, at, loose) && Ready(h, loose, q, p, merge) && p != at.ms - 16
    ensures at.ms - 16 !in Merged(h.chunks, q, p, merge)
  {
    hide Tiled, SmallFilled, TreesFilled, Complete, Heads, Feet;
  }

  lemma FreedIs(h: Heap, q: int, p: int, merge: bool)
    requires Releasable(h.chunks, q, p, merge) && Positive(h.chunks)
    ensures var h1 := FreedHeap(h, q, p, merge);
            h1.chunks == Released(h.chunks, q, p, merge) && h1.fences == h.fences && h1.top == if merge
              && NextOf(h.chunks, p) == h.top then q else h.top
  {
    hide Released, FreedMem;
  }

  lemma {:induction false} ReleasedNoPair(h: Heap, at: Place, loose: set<int>, q: int, p: int, merge: bool)
    requires Ok(h, at, loose) && NoFreePair(h.chunks) && Ready(h, loose, q, p, merge) && Positive(h.chunks)
    ensures NoFreePair(Released(h.chunks, q, p, merge))
  {
    hide Ok, Released, Total;
    OkFlagged(h, at, loose);
    ReleasedShape(h.chunks, q, p, merge);
  }
}
