/** What the callers see of the steps of a resize in place (`try_realloc_chunk` of `dlmalloc.c`). */
module HeapPasses {
  import opened HeapWords
  import opened HeapTiling
  import opened HeapState
  import opened HeapMoves
  import opened HeapEdits
  import opened HeapRelease
  import opened HeapResize
  import opened HeapUse

  /** No fence stands where a chunk starts. */
  predicate NoFenceIn(c: Chunks, fences: set<int>) { forall f :: f in fences ==> f !in c }

  lemma NoFences(c: Chunks, top: int, fences: set<int>)
    requires TopLast(c, top, fences)
    ensures NoFenceIn(c, fences)
  {
  }

  lemma {:induction false} CutPasses(m: Mem, m1: Mem, c: Chunks, fences: set<int>, ms: int, p: int, nb: nat)
    requires p in c && c[p].used && 0 < nb < c[p].size && p + nb !in c && p + c[p].size in c
        && PayloadsKept(m, m1, c, {p})
    requires NoFenceIn(Split(c, p, nb), fences)
    ensures Passes(m, m1, c, Split(c, p, nb), fences, ms, {p}, {p, p + nb})
  {
    hide Split, SameFrom;
    SplitShape(c, p, nb);
  }

  lemma {:induction false} AbsorbPasses(m: Mem, m1: Mem, c: Chunks, fences: set<int>, ms: int, p: int)
    requires p in c && c[p].used && End(c, p) in c && !c[End(c, p)].used && Positive(c) && p + BothSizes(c, p) in c
    requires PayloadsKept(m, m1, c, {p, NextOf(c, p)}) && NoFenceIn(Join(c, p), fences)
    ensures Passes(m, m1, c, Join(c, p), fences, ms, {p}, {p})
    ensures p in Join(c, p) && Join(c, p)[p].size == BothSizes(c, p)
  {
    hide Join, SameFrom;
    JoinShape(c, p);
  }

  lemma {:induction false} GrowCutPasses(m: Mem, m1: Mem, c: Chunks, fences: set<int>, ms: int, p: int, nb: nat)
    requires p in c && c[p].used && End(c, p) in c && !c[End(c, p)].used && Positive(c) && p + BothSizes(c, p) in c
        && c[p].size <= nb < BothSizes(c, p)
    requires p + nb == NextOf(c, p) || p + nb !in c
    requires p in Join(c, p) && Join(c, p)[p].size == BothSizes(c, p)
    requires PayloadsKept(m, m1, c, {p, NextOf(c, p)}) && NoFenceIn(Split(Join(c, p), p, nb), fences)
    ensures Passes(m, m1, c, Split(Join(c, p), p, nb), fences, ms, {p}, {p, p + nb})
  {
    hide Join, Split, SameFrom;
    JoinShape(c, p);
    SplitShape(Join(c, p), p, nb);
  }

  lemma {:induction false} GrownPasses(m: Mem, m1: Mem, c: Chunks, fences: set<int>, ms: int, p: int, nb: nat)
    requires p in c && c[p].used && c[p].size > 0 && NextOf(c, p) in c && !c[NextOf(c, p)].used
        && c[p].size <= nb < BothSizes(c, p)
    requires p + nb == NextOf(c, p) || p + nb !in c
    requires PayloadsKept(m, m1, c, {p, NextOf(c, p)}) && NoFenceIn(Grown(c, p, nb), fences)
    ensures Passes(m, m1, c, Grown(c, p, nb), fences, ms, {p}, {p})
  {
    hide Grown, SameFrom;
    GrownShape(c, p, nb);
  }

  lemma {:induction false} GrownCover(c: Chunks, p: int, nb: nat)
    requires p in c && c[p].size > 0 && NextOf(c, p) in c && c[p].size <= nb < BothSizes(c, p)
        && (p + nb == NextOf(c, p) || p + nb !in c)
    ensures SameCover(c, Grown(c, p, nb))
  {
    hide Grown;
    GrownShape(c, p, nb);
    var d, q, r := Grown(c, p, nb), NextOf(c, p), p + nb;
    forall x ensures Covered(c, x) <==> Covered(d, x) {
      if Covered(c, x) {
        var s :| s in c && s <= x < s + c[s].size;
        if s == p || s == q {
          assert x < r ==> p in d && p <= x < p + d[p].size;
          assert x >= r ==> r in d && r <= x < r + d[r].size;
        } else {
          assert s in d && s <= x < s + d[s].size;
        }
      }
      if Covered(d, x) {
        var s :| s in d && s <= x < s + d[s].size;
        if s == p || s == r {
          assert x < q ==> p in c && p <= x < p + c[p].size;
          assert x >= q ==> q in c && q <= x < q + c[q].size;
        } else {
          assert s in c && s <= x < s + c[s].size;
        }
      }
    }
  }

  lemma {:induction false} GrowCutCover(c: Chunks, p: int, nb: nat)
    requires p in c && c[p].size > 0 && End(c, p) in c && Positive(c) && c[p].size <= nb < BothSizes(c, p)
    requires p + nb == NextOf(c, p) || p + nb !in c
    requires p in Join(c, p) && Join(c, p)[p].size == BothSizes(c, p)
    ensures SameCover(c, Join(c, p)) && SameCover(c, Split(Join(c, p), p, nb))
  {
    hide Join, Split, SameCover, Positive;
    JoinCover(c, p);
    JoinGap(c, p, nb);
    SplitCover(Join(c, p), p, nb);
    SameCoverThen(c, Join(c, p), Split(Join(c, p), p, nb));
  }

  lemma JoinGap(c: Chunks, p: int, nb: nat)
    requires p in c && c[p].size > 0 && End(c, p) in c && Positive(c) && c[p].size <= nb
        && (p + nb == NextOf(c, p) || p + nb !in c)
    ensures p + nb !in Join(c, p)
  {
    hide Join;
    JoinShape(c, p);
  }

  // ---- a block with another size ----

  /** The block at `p` has room for `nb` bytes with its head; what it held, as far as it fits, is still there. */
  ghost predicate Resized(m: Mem, m1: Mem, c: Chunks, c1: Chunks, fences: set<int>, ms: int, p: int, nb: nat) {
    && Passes(m, m1, c, c1, fences, ms, {p}, {p}) && SameCover(c, c1) && p in c && p in c1
    && nb <= c1[p].size < nb + 32
    && SameFrom(m, m1, p + 16, p + (if c[p].size < nb then c[p].size else nb) + 8)
  }

  lemma ResizedIs(m: Mem, m1: Mem, c: Chunks, c1: Chunks, fences: set<int>, ms: int, p: int, nb: nat)
    requires Passes(m, m1, c, c1, fences, ms, {p}, {p}) && SameCover(c, c1) && p in c && p in c1
        && nb <= c1[p].size < nb + 32
    requires SameFrom(m, m1, p + 16, p + (if c[p].size < nb then c[p].size else nb) + 8)
    ensures Resized(m, m1, c, c1, fences, ms, p, nb)
  {
    hide Passes, SameCover, SameFrom;
  }

  /** A cut, and the second part released. */
  lemma {:induction false} ResizedCut(m: Mem, m1: Mem, m2: Mem, c: Chunks, c1: Chunks, c2: Chunks, fences: set<int>,
      ms: int, p: int, nb: nat)
    requires Passes(m, m1, c, c1, fences, ms, {p}, {p, p + nb}) && Passes(m1, m2, c1, c2, fences, ms, {p + nb}, {})
        && nb > 0 && !(p + nb in c && c[p + nb].used)
    requires p in c && p in c1 && c1[p].size == nb && p != ms - 16
        && SameFrom(m, m1, p + 16, p + (if c[p].size < nb then c[p].size else nb) + 8)
    requires SameCover(c, c1) && SameCover(c1, c2)
    ensures Resized(m, m2, c, c2, fences, ms, p, nb)
  {
    hide Passes, SameCover, SameFrom;
    PassesCut(m, m1, m2, c, c1, c2, fences, ms, p, p + nb);
    SameCoverThen(c, c1, c2);
    var k := if c[p].size < nb then c[p].size else nb;
    SameSub(m1, m2, p + 16, p + nb + 8, p + 16, p + k + 8);
    SameTwice(m, m1, m2, p + 16, p + k + 8);
  }

  /** The next chunk was taken out of its bin first. */
  lemma {:induction false} ResizedAfter(m: Mem, m1: Mem, m2: Mem, c: Chunks, c1: Chunks, fences: set<int>, ms: int,
      p: int, nb: nat)
    requires UserKept(m, m1, c, ms) && Resized(m1, m2, c, c1, fences, ms, p, nb) && p in c && c[p].used && p != ms - 16
    ensures Resized(m, m2, c, c1, fences, ms, p, nb)
  {
    hide Passes, SameCover, SameFrom;
    NoChange(m2, c1, ms);
    PassesAround(m, m1, m2, m2, c, c1, fences, ms, {p}, {p});
    var k := if c[p].size < nb then c[p].size else nb;
    assert SameFrom(m, m1, p + 8, p + c[p].size + 8);
    SameSub(m, m1, p + 8, p + c[p].size + 8, p + 16, p + k + 8);
    SameTwice(m, m1, m2, p + 16, p + k + 8);
  }

  /** Nothing has to be done. */
  lemma ResizedSame(m: Mem, c: Chunks, fences: set<int>, ms: int, p: int, nb: nat)
    requires p in c && c[p].used && nb <= c[p].size < nb + 32 && p + c[p].size !in fences
    ensures Resized(m, m, c, c, fences, ms, p, nb)
  {
  }
}
