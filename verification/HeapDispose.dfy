/** A chunk of a space goes out of use: where the merged chunk ends up, and what the callers see of it
    (`mspace_free`, `dispose_chunk` of `dlmalloc.c`). */
module HeapDispose {
  import opened HeapWords
  import opened HeapTiling
  import opened HeapState
  import opened HeapEdits
  import opened HeapRelease
  import opened HeapResize
  import opened HeapUse

  /** The designated victim is the chunk before or the chunk after. */
  predicate TakesDv(h: Heap, q: int, p: int, merge: bool)
    requires p in h.chunks
  {
    h.dv != 0 && ((q != p && h.dv == q) || (merge && h.dv == NextOf(h.chunks, p)))
  }

  /** The neighbours that merge, but for the designated victim and the top chunk. */
  function Neighbours(h: Heap, q: int, p: int, merge: bool): set<int>
    requires p in h.chunks
  {
    var n := NextOf(h.chunks, p);
    (if q == p || q == h.dv then {} else {q}) + (if merge && n != h.top && n != h.dv then {n} else {})
  }

  /** The state in which the chunk is released: its neighbours are in no bin. */
  ghost predicate Disposable(h: Heap, at: Place, q: int, p: int, merge: bool) {
    && Releasable(h.chunks, q, p, merge) && Positive(h.chunks) && NoFreePair(h.chunks) && h.chunks[q].pinuse
      && p != at.ms - 16 && p != h.top
    && Ok(h, at, Neighbours(h, q, p, merge)) && h.top in h.chunks && !h.chunks[h.top].used && (q != p ==> q != h.top)
      && q != 0 && p + h.chunks[p].size != 0
  }

  lemma DisposableIs(h: Heap, at: Place, loose: set<int>, q: int, p: int, merge: bool)
    requires Releasable(h.chunks, q, p, merge) && Positive(h.chunks) && NoFreePair(h.chunks) && p in h.chunks
        && q in h.chunks
    requires h.chunks[q].pinuse && p != at.ms - 16 && p != h.top
    requires Ok(h, at, loose) && h.top in h.chunks && !h.chunks[h.top].used && (q != p ==> q != h.top) && q != 0
        && p + h.chunks[p].size != 0
    requires var n := p + h.chunks[p].size;
        loose == (if q == p || q == h.dv then {} else {q}) + (if merge && n != h.top && n != h.dv then {n} else {})
    ensures Disposable(h, at, q, p, merge)
  {
    hide Ok, Positive, NoFreePair;
  }

  function Disposed(h: Heap, q: int, p: int, merge: bool): Heap
    requires Releasable(h.chunks, q, p, merge) && Positive(h.chunks)
  {
    var h1 := FreedHeap(h, q, p, merge);
    if !TakesDv(h, q, p, merge) then h1
    else if merge && NextOf(h.chunks, p) == h.top then h1.(dv := 0)
    else h1.(dv := q)
  }

  /** The merged chunk still has to go into a bin, unless it has become the top chunk or the designated victim. */
  function LeftLoose(h: Heap, q: int, p: int, merge: bool): set<int>
    requires p in h.chunks
  {
    if TakesDv(h, q, p, merge) || (merge && NextOf(h.chunks, p) == h.top) then {} else {q}
  }

  lemma FreedApart(h: Heap, q: int, p: int, merge: bool)
    requires Releasable(h.chunks, q, p, merge) && Positive(h.chunks)
    ensures FreedHeap(h.(dv := 0), q, p, merge) == FreedHeap(h, q, p, merge).(dv := 0)
    ensures FreedHeap(h, q, p, merge).dv == h.dv
  {
    hide Released;
  }

  lemma {:induction false} DisposeOk(h: Heap, at: Place, q: int, p: int, merge: bool)
    requires Disposable(h, at, q, p, merge)
    ensures var h1 := Disposed(h, q, p, merge);
            && Ok(h1, at, LeftLoose(h, q, p, merge)) && NoFreePair(h1.chunks)
            && PayloadsKept(h.mem, h1.mem, h.chunks, Merged(h.chunks, q, p, merge))
  {
    hide Ok, NoFreePair, Released, FreedHeap, PayloadsKept, Total;
    var n, loose := NextOf(h.chunks, p), Neighbours(h, q, p, merge);
    FreedApart(h, q, p, merge);
    if !TakesDv(h, q, p, merge) {
      DisposeReady(h, loose, q, p, merge);
      ReleaseOk(h, at, loose, q, p, merge);
      assert LooseAfter(h, loose, q, p, merge) == LeftLoose(h, q, p, merge);
    } else {
      var h0, loose0 := h.(dv := 0), loose + {h.dv};
      TopFacts(h, at, loose);
      DvOut(h, at, loose);
      DisposeReady(h0, loose0, q, p, merge);
      ReleaseOk(h0, at, loose0, q, p, merge);
      var h1 := FreedHeap(h0, q, p, merge);
      if merge && n == h.top {
        assert LooseAfter(h0, loose0, q, p, merge) == {};
      } else {
        assert LooseAfter(h0, loose0, q, p, merge) == {q};
        DvIn(h1, at, {q}, q);
        assert {q} - {q} == {};
      }
    }
  }

  lemma DisposeReady(h: Heap, loose: set<int>, q: int, p: int, merge: bool)
    requires Releasable(h.chunks, q, p, merge) && h.chunks[q].pinuse && (q != p ==> q in loose)
    requires merge ==> NextOf(h.chunks, p) in loose || NextOf(h.chunks, p) == h.top
    ensures Ready(h, loose, q, p, merge)
  {
  }

  lemma DisposedFields(h: Heap, q: int, p: int, merge: bool, total: nat)
    requires Releasable(h.chunks, q, p, merge) && Positive(h.chunks) && total == Total(h.chunks, q, p, merge)
        && p in h.chunks
    ensures var toTop, takes := merge && NextOf(h.chunks, p) == h.top, TakesDv(h, q, p, merge);
            Disposed(h, q, p, merge) ==
            Heap(if !merge then FreedBefore(h.mem, q, total)
                 else if toTop then FreedTop(h.mem, q, total) else FreedMerged(h.mem, q, total),
                 Released(h.chunks, q, p, merge), if toTop then q else h.top, h.fences,
                 if !takes then h.dv else if toTop then 0 else q, h.smallmap, h.treemap, h.lists, h.trees)
  {
    hide Released, Positive, Releasable, FreedBefore, FreedMerged, FreedTop, Total;
  }

  // ---- for the callers ----

  lemma {:induction false} ReleasedCover(c: Chunks, q: int, p: int, merge: bool)
    requires Releasable(c, q, p, merge) && Positive(c)
    ensures SameCover(c, Released(c, q, p, merge))
  {
    hide SetUsed, Join, SameCover, Positive;
    ReleasedStep(c, q, p, merge);
    var c1, c2 := SetUsed(c, p, false), Backward(c, q, p);
    SetUsedCover(c, p, false);
    if q != p {
      JoinCover(c1, q);
      SameCoverThen(c, c1, c2);
    }
    if merge {
      JoinCover(c2, q);
      SameCoverThen(c, c2, Released(c, q, p, merge));
    }
  }

  lemma {:induction false} ReleasedStep(c: Chunks, q: int, p: int, merge: bool)
    requires Releasable(c, q, p, merge) && Positive(c)
    ensures var c1 := SetUsed(c, p, false);
            && Positive(c1) && q in c1 && (q != p ==> End(c1, q) == p && p in c1)
            && var c2 := Backward(c, q, p); Positive(c2) && q in c2 && (merge ==> End(c2, q) in c2)
  {
    hide SetUsed, Join;
    SetUsedShape(c, p, false);
    BackwardShape(c, q, p, merge);
    BackwardPositive(c, Backward(c, q, p), q, p, NextOf(c, p));
  }

  lemma {:induction false} ReleasedPasses(m: Mem, m1: Mem, c: Chunks, fences: set<int>, ms: int, q: int, p: int,
      merge: bool)
    requires Releasable(c, q, p, merge) && Positive(c) && Flagged(c) && PayloadsKept(m, m1, c, Merged(c, q, p, merge))
    ensures Passes(m, m1, c, Released(c, q, p, merge), fences, ms, {p}, {})
  {
    hide *;
    ReleasedKeeps(m, m1, c, ms, q, p, merge);
    ReleasedUse(c, q, p, merge);
    PassesIs(m, m1, c, Released(c, q, p, merge), fences, ms, p);
  }

  lemma PassesIs(m: Mem, m1: Mem, c: Chunks, c1: Chunks, fences: set<int>, ms: int, p: int)
    requires KeepsUse(m, m1, c, c1, ms, {p}) && NewUse(c, c1, {}) && !(p in c1 && c1[p].used)
    ensures Passes(m, m1, c, c1, fences, ms, {p}, {})
  {
    hide KeepsUse, NewUse;
  }

  lemma {:induction false} ReleasedUse(c: Chunks, q: int, p: int, merge: bool)
    requires Releasable(c, q, p, merge) && Positive(c) && Flagged(c)
    ensures var d := Released(c, q, p, merge); NewUse(c, d, {}) && !(p in d && d[p].used)
  {
    hide Released, Total, Flagged, Positive;
    ReleasedShape(c, q, p, merge);
  }

  lemma {:induction false} ReleasedKeeps(m: Mem, m1: Mem, c: Chunks, ms: int, q: int, p: int, merge: bool)
    requires Releasable(c, q, p, merge) && Positive(c) && Flagged(c) && PayloadsKept(m, m1, c, Merged(c, q, p, merge))
    ensures KeepsUse(m, m1, c, Released(c, q, p, merge), ms, {p})
  {
    hide Released, SameFrom, Total, Flagged, Positive;
    ReleasedShape(c, q, p, merge);
  }

  lemma {:induction false} ReleasedMeasures(c: Chunks, q: int, p: int, merge: bool)
    requires Releasable(c, q, p, merge) && Positive(c) && Flagged(c)
    ensures var d, n := Released(c, q, p, merge), NextOf(c, p);
            && q in d && d[q].size == Total(c, q, p, merge) && (!merge ==> n in d && d[n].size == c[n].size)
            && (forall s :: s in c && s != p && s != n ==> s in d && (s != q ==> d[s].size == c[s].size))
  {
    hide Released;
    ReleasedShape(c, q, p, merge);
  }

  lemma DisposableFlagged(h: Heap, at: Place, q: int, p: int, merge: bool)
    requires Disposable(h, at, q, p, merge)
    ensures Flagged(h.chunks) && Positive(h.chunks) && Releasable(h.chunks, q, p, merge) && p in h.chunks
  {
    hide Ok;
    OkFlagged(h, at, Neighbours(h, q, p, merge));
  }

  /** All of it: the state, the callers' view and the sizes. */
  lemma {:induction false} DisposeAll(h: Heap, h1: Heap, at: Place, q: int, p: int, merge: bool, total: nat)
    requires Releasable(h.chunks, q, p, merge) && Positive(h.chunks) && total == Total(h.chunks, q, p, merge)
        && p in h.chunks
    requires h1 == Disposed(h, q, p, merge) && Disposable(h, at, q, p, merge)
    ensures Ok(h1, at, LeftLoose(h, q, p, merge)) && NoFreePair(h1.chunks)
    ensures Passes(h.mem, h1.mem, h.chunks, h1.chunks, h.fences, at.ms, {p}, {}) && SameCover(h.chunks, h1.chunks)
    ensures q in h1.chunks && h1.chunks[q].size == total
    ensures var n := p + h.chunks[p].size;
            && (!merge && n in h.chunks ==> n in h1.chunks && h1.chunks[n].size == h.chunks[n].size)
            && forall s :: s in h.chunks && s != p && s != n && s != q ==>
                  s in h1.chunks && h1.chunks[s].size == h.chunks[s].size
  {
    hide *;
    DisposableFlagged(h, at, q, p, merge);
    DisposeOk(h, at, q, p, merge);
    DisposedFields(h, q, p, merge, total);
    ReleasedPasses(h.mem, h1.mem, h.chunks, h.fences, at.ms, q, p, merge);
    ReleasedCover(h.chunks, q, p, merge);
    ReleasedMeasures(h.chunks, q, p, merge);
    EndIs(h.chunks, p);
  }
}
