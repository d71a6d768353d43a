/** A chunk in use is cut, or grows into the free chunk after it (`try_realloc_chunk`). */
module HeapResize {
  import opened HeapWords
  import opened HeapTiling
  import opened HeapState
  import opened HeapMoves
  import opened HeapEdits
  import opened HeapRelease

  /** `set_inuse`: the chunk's own bit about the chunk before it stays, and the next chunk learns of it. */
  function InuseSet(m: Mem, p: int, s: nat): Mem {
    var m1 := m[p + HEAD := Tag(s, true, PinuseIn(Get(m, p + HEAD)))];
    m1[p + s + HEAD := WithPinuse(Get(m1, p + s + HEAD), true)]
  }

  lemma OddPinuse(x: int)
    ensures PinuseIn(WithPinuse(x, true)) && WithPinuse(WithPinuse(x, true), true) == WithPinuse(x, true)
  {
  }

  lemma TwiceInuse(m: Mem, p: int, nb: nat, rest: nat)
    requires nb >= 16 && rest >= 16
    ensures var m1 := InuseSet(InuseSet(m, p, nb), p + nb, rest);
            m1 == m[p + HEAD := Tag(nb, true, PinuseIn(Get(m, p + HEAD)))][p + nb + HEAD := Tag(rest, true, true)]
                   [p + nb + rest + HEAD := WithPinuse(Get(m, p + nb + rest + HEAD), true)]
  {
    hide PinuseIn, WithPinuse, Tag;
    var m0 := InuseSet(m, p, nb);
    OddPinuse(Get(m, p + nb + HEAD));
    var m1 := InuseSet(m0, p + nb, rest);
    var m2 := m[p + HEAD := Tag(nb, true, PinuseIn(Get(m, p + HEAD)))][p + nb + HEAD := Tag(rest, true, true)]
               [p + nb + rest + HEAD := WithPinuse(Get(m, p + nb + rest + HEAD), true)];
    assert m1.Keys == m2.Keys;
    forall a | a in m1 ensures m1[a] == m2[a] {
    }
  }

  // ---- cutting a chunk in use ----

  lemma {:induction false} CutEdit(h: Heap, at: Place, loose: set<int>, p: int, nb: nat)
    requires Ok(h, at, loose) && p in h.chunks && h.chunks[p].used && 32 <= nb && nb + 32 <= h.chunks[p].size
    requires p + h.chunks[p].size in h.chunks && p + nb !in h.chunks
    ensures var s := h.chunks[p].size;
            var m1 := InuseSet(InuseSet(h.mem, p, nb), p + nb, s - nb);
            && Edited(h, h.(mem := m1, chunks := Split(h.chunks, p, nb)), loose, loose, {p}, {})
            && SameFrom(h.mem, m1, p + 16, p + nb + 8)
  {
    hide *;
    var s := h.chunks[p].size;
    var m1 := InuseSet(InuseSet(h.mem, p, nb), p + nb, s - nb);
    var h1 := h.(mem := m1, chunks := Split(h.chunks, p, nb));
    CutMemory(h, at, loose, p, nb);
    SplitShape(h.chunks, p, nb);
    CutKept(h, h1, loose, p, nb);
    PlacedUsed(h1, loose, p);
    PlacedUsed(h1, loose, p + nb);
    UsedNotWaiting(h, loose, p);
    EditedIs(h, h1, loose, loose, {p}, {});
  }

  lemma UsedNotWaiting(h: Heap, loose: set<int>, q: int)
    requires q in h.chunks && h.chunks[q].used
    ensures !Waiting(h, loose, q)
  {
  }

  lemma {:induction false} CutMemory(h: Heap, at: Place, loose: set<int>, p: int, nb: nat)
    requires Ok(h, at, loose) && p in h.chunks && h.chunks[p].used && 32 <= nb && nb + 32 <= h.chunks[p].size
    requires p + h.chunks[p].size in h.chunks
    ensures var s := h.chunks[p].size;
            var m1 := InuseSet(InuseSet(h.mem, p, nb), p + nb, s - nb);
            && Changes(h.mem, m1, h.chunks, {p}, {}) && SameFrom(h.mem, m1, p + 16, p + nb + 8)
            && Get(m1, p + HEAD) == Tag(nb, true, h.chunks[p].pinuse)
              && Get(m1, p + nb + HEAD) == Tag(s - nb, true, true)
  {
    hide *;
    var s := h.chunks[p].size;
    var n, m1 := p + s, InuseSet(InuseSet(h.mem, p, nb), p + nb, s - nb);
    ChunkFacts(h, at, loose, p);
    ChunkFacts(h, at, loose, n);
    OkFlaggedAt(h, at, loose, p);
    TagBits(h.chunks[n].size, h.chunks[n].used, true);
    TwiceInuse(h.mem, p, nb, s - nb);
    CutChanges(h.mem, h.chunks, p, nb, m1, Tag(nb, true, h.chunks[p].pinuse), Tag(s - nb, true, true));
  }

  lemma CutChanges(m: Mem, c: Chunks, p: int, nb: nat, m1: Mem, x: nat, y: nat)
    requires p in c && 16 <= nb && nb + 16 <= c[p].size
    requires m1 == m[p + HEAD := x][p + nb + HEAD := y][p + c[p].size + HEAD := Get(m, p + c[p].size + HEAD)]
    ensures Changes(m, m1, c, {p}, {}) && SameFrom(m, m1, p + 16, p + nb + 8) && Get(m1, p + HEAD) == x
        && Get(m1, p + nb + HEAD) == y
  {
    assert Owns(c, p, p + HEAD) && Owns(c, p, p + nb + HEAD);
  }

  lemma CutKept(h: Heap, h1: Heap, loose: set<int>, p: int, nb: nat)
    requires p in h.chunks && 0 < nb < h.chunks[p].size && p + nb !in h.chunks && h1.chunks == Split(h.chunks, p, nb)
    requires h1.top == h.top && h1.dv == h.dv
    ensures Kept(h, h1, loose, loose, {p}, {})
  {
    hide Split;
    SplitShape(h.chunks, p, nb);
  }

  lemma UsedNotLoose(h: Heap, at: Place, loose: set<int>, p: int)
    requires Ok(h, at, loose) && p in h.chunks && h.chunks[p].used
    ensures p !in loose && p != h.top && (h.dv != 0 ==> p != h.dv)
  {
    hide Separate, Preceded, Heads, Feet, SmallFilled, TreesFilled, Complete, Sized, Chained, Flagged;
  }

  lemma {:induction false} Cut(h: Heap, at: Place, loose: set<int>, p: int, nb: nat)
    requires Ok(h, at, loose) && NoFreePair(h.chunks) && p in h.chunks && h.chunks[p].used && nb % 16 == 0 && 32 <= nb
        && nb + 32 <= h.chunks[p].size
    requires p + h.chunks[p].size in h.chunks && p != at.ms - 16
    ensures var s := h.chunks[p].size;
            var m1 := InuseSet(InuseSet(h.mem, p, nb), p + nb, s - nb);
            var h1 := h.(mem := m1, chunks := Split(h.chunks, p, nb));
            && p + nb !in h.chunks && Ok(h1, at, loose) && NoFreePair(h1.chunks)
              && PayloadsKept(h.mem, m1, h.chunks, {p})
            && SameFrom(h.mem, m1, p + 16, p + nb + 8)
  {
    hide *;
    Sixteen();
    OkParts(h, at, loose);
    UsedNotLoose(h, at, loose, p);
    NoFenceAfter(h, at, loose, p);
    SplitTiled(h.chunks, p, nb, h.top, h.fences, at.zone);
    CutEdit(h, at, loose, p, nb);
    var s := h.chunks[p].size;
    var m1 := InuseSet(InuseSet(h.mem, p, nb), p + nb, s - nb);
    var h1 := h.(mem := m1, chunks := Split(h.chunks, p, nb));
    CutSpecial(h, h1, loose, p, nb);
    EditedOk(h, h1, at, loose, loose, {p}, {});
    EditedPayloads(h, h1, at, loose, loose, {p}, {});
    CutNoPair(h.chunks, p, nb);
  }

  lemma CutSpecial(h: Heap, h1: Heap, loose: set<int>, p: int, nb: nat)
    requires Special(h, loose) && p in h.chunks && 0 < nb < h.chunks[p].size && h.chunks[p].used && p + nb !in h.chunks
    requires h1.chunks == Split(h.chunks, p, nb) && h1.top == h.top && h1.dv == h.dv
    ensures Special(h1, loose)
  {
    hide Split;
    SplitShape(h.chunks, p, nb);
  }

  lemma CutNoPair(c: Chunks, p: int, nb: nat)
    requires NoFreePair(c) && p in c && c[p].used && 0 < nb < c[p].size && p + nb !in c
    ensures NoFreePair(Split(c, p, nb))
  {
    hide Split;
    SplitShape(c, p, nb);
  }

  // ---- growing into the free chunk after ----

  /** A chunk in use with a free chunk after it that is in no bin. */
  ghost predicate Growable(h: Heap, loose: set<int>, p: int) {
    && p in h.chunks && h.chunks[p].used && h.chunks[p].size > 0
    && NextOf(h.chunks, p) in h.chunks && !h.chunks[NextOf(h.chunks, p)].used && h.chunks[NextOf(h.chunks, p)].size > 0
    && (NextOf(h.chunks, p) in loose || NextOf(h.chunks, p) == h.top)
  }

  function BothSizes(c: Chunks, p: int): nat
    requires p in c && NextOf(c, p) in c
  {
    c[p].size + c[NextOf(c, p)].size
  }

  lemma {:induction false} GrowFacts(h: Heap, at: Place, loose: set<int>, p: int)
    requires Ok(h, at, loose) && NoFreePair(h.chunks) && Growable(h, loose, p)
    ensures var q := NextOf(h.chunks, p);
            var n := p + BothSizes(h.chunks, p);
            && p in h.chunks && q in h.chunks && p != h.top && p !in loose && p != q && p < q < n
              && (h.dv != 0 ==> p != h.dv && q != h.dv) && q != at.ms - 16
            && h.chunks[p].used && !h.chunks[q].used && Positive(h.chunks) && Roomy(h.chunks) && Flagged(h.chunks)
              && h.chunks[q].pinuse
            && (q != h.top ==>
              q in loose && n in h.chunks && h.chunks[n].used && !h.chunks[n].pinuse && n != p && n != q)
            && (q == h.top ==> q !in loose)
  {
    hide *;
    OkParts(h, at, loose);
    OkFlagged(h, at, loose);
    GrowableParts(h, loose, p);
    var q := NextOf(h.chunks, p);
    UsedNotLoose(h, at, loose, p);
    ChunkFacts(h, at, loose, p);
    ChunkFacts(h, at, loose, q);
    if q != h.top {
      AfterFree(h, at, loose, q);
      UsedNextIs(h.chunks, q);
      LooseFacts(h, at, loose, q);
    } else {
      TopFacts(h, at, loose);
    }
    FreePinuse(h.chunks, q);
  }

  lemma FreePinuse(c: Chunks, q: int)
    requires NoFreePair(c) && q in c && !c[q].used
    ensures c[q].pinuse
  {
  }

  lemma GrowableParts(h: Heap, loose: set<int>, p: int)
    requires Growable(h, loose, p)
    ensures var q := NextOf(h.chunks, p);
            && p in h.chunks && h.chunks[p].used && h.chunks[p].size > 0 && q in h.chunks && !h.chunks[q].used
              && h.chunks[q].size > 0
            && (q in loose || q == h.top) && q == p + h.chunks[p].size
              && BothSizes(h.chunks, p) == h.chunks[p].size + h.chunks[q].size
  {
  }

  // -- all of it --

  lemma {:induction false} AbsorbMemory(m: Mem, c: Chunks, p: int, x: int)
    requires p in c && NextOf(c, p) in c && Roomy(c)
    requires Get(m, p + HEAD) == Tag(c[p].size, true, c[p].pinuse) && c[p].size % 16 == 0
    ensures var t := BothSizes(c, p);
            var m1 := InuseSet(m, p, t);
            && Changes(m, m1, c, {p, NextOf(c, p)}, {p + t}) && SameFrom(m, m1, p + 16, p + c[p].size + 8)
            && Get(m1, p + HEAD) == Tag(t, true, c[p].pinuse) && Get(m1, p + t + HEAD)
              == WithPinuse(Get(m, p + t + HEAD), true)
  {
    hide Tag, WithPinuse, PinuseIn;
    TagBits(c[p].size, true, c[p].pinuse);
    assert Owns(c, p, p + HEAD);
  }

  lemma {:induction false} AbsorbKept(h: Heap, h1: Heap, loose: set<int>, p: int)
    requires Growable(h, loose, p) && Positive(h.chunks) && NextOf(h.chunks, p) != h.top && Special(h, loose)
    requires h1.chunks == Join(h.chunks, p) && h1.top == h.top && h1.dv == h.dv
    ensures Kept(h, h1, loose, loose - {NextOf(h.chunks, p)}, {p, NextOf(h.chunks, p)}, {p + BothSizes(h.chunks, p)})
    ensures Special(h1, loose - {NextOf(h.chunks, p)})
  {
    hide Join;
    JoinShape(h.chunks, p);
  }

  lemma {:induction false} Absorb(h: Heap, at: Place, loose: set<int>, p: int)
    requires Growable(h, loose, p) && NextOf(h.chunks, p) != h.top && p != at.ms - 16
    requires Ok(h, at, loose) && NoFreePair(h.chunks)
    ensures Absorbed(h, at, loose, p)
  {
    hide *;
    OkParts(h, at, loose);
    GrowableParts(h, loose, p);
    GrowFacts(h, at, loose, p);
    var q, t := NextOf(h.chunks, p), BothSizes(h.chunks, p);
    var n := p + t;
    EndIs(h.chunks, p);
    var h1, loose1 := h.(mem := InuseSet(h.mem, p, t), chunks := Join(h.chunks, p)), loose - {q};
    ChunkFacts(h, at, loose, p);
    ChunkFacts(h, at, loose, n);
    AbsorbMemory(h.mem, h.chunks, p, 0);
    JoinShape(h.chunks, p);
    EndIs(h.chunks, q);
    TagBits(h.chunks[n].size, true, false);
    AbsorbKept(h, h1, loose, p);
    PlacedUsed(h1, loose1, p);
    PlacedUsed(h1, loose1, n);
    UsedNotWaiting(h, loose, p);
    LooseNotWaiting(h, loose, q);
    EditedIs(h, h1, loose, loose1, {p, q}, {n});
    JoinTiled(h.chunks, p, h.top, h.fences, at.zone);
    EditedOk(h, h1, at, loose, loose1, {p, q}, {n});
    EditedPayloads(h, h1, at, loose, loose1, {p, q}, {n});
    JoinNoPair(h.chunks, p);
    AbsorbedIs(h, at, loose, p);
  }

  /** After the chunk `p` has taken in the one after it, all is in order, and the payloads are kept. */
  ghost predicate Absorbed(h: Heap, at: Place, loose: set<int>, p: int) {
    && p in h.chunks && NextOf(h.chunks, p) in h.chunks
    && var q, t := NextOf(h.chunks, p), BothSizes(h.chunks, p);
       var h1 := h.(mem := InuseSet(h.mem, p, t), chunks := Join(h.chunks, p));
       && Ok(h1, at, loose - {q}) && NoFreePair(h1.chunks) && PayloadsKept(h.mem, h1.mem, h.chunks, {p, q})
       && SameFrom(h.mem, h1.mem, p + 16, p + h.chunks[p].size + 8)
  }

  lemma AbsorbedIs(h: Heap, at: Place, loose: set<int>, p: int)
    requires p in h.chunks && NextOf(h.chunks, p) in h.chunks
    ensures var q, t := NextOf(h.chunks, p), BothSizes(h.chunks, p);
            var h1 := h.(mem := InuseSet(h.mem, p, t), chunks := Join(h.chunks, p));
            Absorbed(h, at, loose, p) <==>
            && Ok(h1, at, loose - {q}) && NoFreePair(h1.chunks) && PayloadsKept(h.mem, h1.mem, h.chunks, {p, q})
            && SameFrom(h.mem, h1.mem, p + 16, p + h.chunks[p].size + 8)
  {
    hide Ok, NoFreePair, PayloadsKept, SameFrom, Join, InuseSet;
  }

  lemma EndIs(c: Chunks, p: int)
    requires p in c
    ensures End(c, p) == NextOf(c, p) == p + c[p].size
  {
  }

  lemma JoinNoPair(c: Chunks, p: int)
    requires NoFreePair(c) && p in c && End(c, p) in c && Positive(c) && c[p].used
    ensures NoFreePair(Join(c, p))
  {
    hide Join;
    JoinShape(c, p);
  }

  // -- a part of it, the rest in use --

  lemma {:induction false} GrowCutMemory(m: Mem, p: int, t: nat, nb: nat, size: nat, pinuse: bool)
    requires 16 <= nb && nb + 16 <= t && Get(m, p + HEAD) == Tag(size, true, pinuse) && size % 16 == 0 && t % 16 == 0
    ensures InuseSet(InuseSet(InuseSet(m, p, t), p, nb), p + nb, t - nb) == InuseSet(InuseSet(m, p, nb), p + nb, t - nb)
  {
    hide Tag, WithPinuse, PinuseIn;
    TagBits(size, true, pinuse);
    TagBits(t, true, pinuse);
    var m0 := InuseSet(m, p, t);
    hide InuseSet;
    InuseWords(m, p, t);
    TwiceInuse(m, p, nb, t - nb);
    TwiceInuse(m0, p, nb, t - nb);
    OddPinuse(Get(m, p + t + HEAD));
    var a, b := InuseSet(InuseSet(m0, p, nb), p + nb, t - nb), InuseSet(InuseSet(m, p, nb), p + nb, t - nb);
    assert a.Keys == b.Keys;
    forall x | x in a ensures a[x] == b[x] {
      if x != p + HEAD && x != p + nb + HEAD && x != p + t + HEAD {
        assert x in m && m0[x] == m[x];
      }
    }
  }

  lemma InuseWords(m: Mem, p: int, t: nat)
    requires t > 0
    ensures var m0 := InuseSet(m, p, t);
            && Get(m0, p + HEAD) == Tag(t, true, PinuseIn(Get(m, p + HEAD)))
              && Get(m0, p + t + HEAD) == WithPinuse(Get(m, p + t + HEAD), true)
            && m0.Keys == m.Keys + {p + HEAD, p + t + HEAD} && forall x ::
              x in m && x != p + HEAD && x != p + t + HEAD ==> m0[x] == m[x]
  {
  }

  lemma {:induction false} GrowCut(h: Heap, at: Place, loose: set<int>, p: int, nb: nat)
    requires Growable(h, loose, p) && NextOf(h.chunks, p) != h.top && p != at.ms - 16
    requires nb % 16 == 0 && h.chunks[p].size <= nb && nb + 32 <= BothSizes(h.chunks, p)
    requires Ok(h, at, loose) && NoFreePair(h.chunks)
    ensures GrownAndCut(h, at, loose, p, nb)
  {
    hide *;
    OkParts(h, at, loose);
    GrowableParts(h, loose, p);
    GrowFacts(h, at, loose, p);
    EndIs(h.chunks, p);
    var q, t := NextOf(h.chunks, p), BothSizes(h.chunks, p);
    EndIs(h.chunks, q);
    Absorb(h, at, loose, p);
    AbsorbedIs(h, at, loose, p);
    var h0, loose1 := h.(mem := InuseSet(h.mem, p, t), chunks := Join(h.chunks, p)), loose - {q};
    JoinShape(h.chunks, p);
    ChunkFacts(h, at, loose, p);
    ChunkFacts(h, at, loose, q);
    AlignedSum(h.chunks[p].size, h.chunks[q].size, 0);
    GrowCutMemory(h.mem, p, t, nb, h.chunks[p].size, h.chunks[p].pinuse);
    Cut(h0, at, loose1, p, nb);
    var m1 := InuseSet(InuseSet(h.mem, p, nb), p + nb, t - nb);
    SameSub(h0.mem, m1, p + 16, p + nb + 8, p + 16, p + h.chunks[p].size + 8);
    SameTwice(h.mem, h0.mem, m1, p + 16, p + h.chunks[p].size + 8);
    JoinPayloads(h.mem, h0.mem, m1, h.chunks, h0.chunks, p);
    GrownAndCutIs(h, at, loose, p, nb);
  }

  /** After the chunk `p` has taken in a part of the one after it, and the rest is in use, all is in order. */
  ghost predicate GrownAndCut(h: Heap, at: Place, loose: set<int>, p: int, nb: nat) {
    && p in h.chunks && NextOf(h.chunks, p) in h.chunks && nb <= BothSizes(h.chunks, p)
    && p in Join(h.chunks, p) && Join(h.chunks, p)[p].size == BothSizes(h.chunks, p)
    && var q, t := NextOf(h.chunks, p), BothSizes(h.chunks, p);
       var m1 := InuseSet(InuseSet(h.mem, p, nb), p + nb, t - nb);
       var h1 := h.(mem := m1, chunks := Split(Join(h.chunks, p), p, nb));
       && Ok(h1, at, loose - {q}) && NoFreePair(h1.chunks) && PayloadsKept(h.mem, m1, h.chunks, {p, q})
       && SameFrom(h.mem, m1, p + 16, p + h.chunks[p].size + 8)
  }

  lemma GrownAndCutIs(h: Heap, at: Place, loose: set<int>, p: int, nb: nat)
    requires p in h.chunks && NextOf(h.chunks, p) in h.chunks && nb <= BothSizes(h.chunks, p)
    requires p in Join(h.chunks, p) && Join(h.chunks, p)[p].size == BothSizes(h.chunks, p)
    ensures var q, t := NextOf(h.chunks, p), BothSizes(h.chunks, p);
            var m1 := InuseSet(InuseSet(h.mem, p, nb), p + nb, t - nb);
            var h1 := h.(mem := m1, chunks := Split(Join(h.chunks, p), p, nb));
            GrownAndCut(h, at, loose, p, nb) <==>
            && Ok(h1, at, loose - {q}) && NoFreePair(h1.chunks) && PayloadsKept(h.mem, m1, h.chunks, {p, q})
            && SameFrom(h.mem, m1, p + 16, p + h.chunks[p].size + 8)
  {
    hide Ok, NoFreePair, PayloadsKept, SameFrom, Join, InuseSet, Split;
  }

  lemma JoinedSize(c: Chunks, p: int)
    requires p in c && NextOf(c, p) in c && Positive(c)
    ensures p in Join(c, p) && Join(c, p)[p].size == BothSizes(c, p)
  {
    JoinShape(c, p);
  }

  lemma SameTwice(m: Mem, m1: Mem, m2: Mem, lo: int, hi: int)
    requires SameFrom(m, m1, lo, hi) && SameFrom(m1, m2, lo, hi)
    ensures SameFrom(m, m2, lo, hi)
  {
  }

  lemma JoinPayloads(m: Mem, m1: Mem, m2: Mem, c: Chunks, d: Chunks, p: int)
    requires p in c && End(c, p) in c && Positive(c) && d == Join(c, p)
    requires PayloadsKept(m, m1, c, {p, NextOf(c, p)}) && PayloadsKept(m1, m2, d, {p})
    ensures PayloadsKept(m, m2, c, {p, NextOf(c, p)})
  {
    hide Join;
    JoinShape(c, p);
    forall q | q in c && c[q].used && q !in {p, NextOf(c, p)} ensures SameFrom(m, m2, q + 16, q + c[q].size + 8) {
      assert q in d && d[q].used && d[q].size == c[q].size;
      SameTwice(m, m1, m2, q + 16, q + c[q].size + 8);
    }
  }

  // -- a part of it, the rest free --

  /** The tags when the rest stays free: both parts, the foot of the rest, and the bit of the chunk after. */
  function GrownTags(m: Mem, p: int, nb: nat, rest: nat): Mem {
    var m1 := InuseSet(m, p, nb)[p + nb + HEAD := Tag(rest, false, true)][p + nb + rest := rest];
    m1[p + nb + rest + HEAD := WithPinuse(Get(m1, p + nb + rest + HEAD), false)]
  }

  lemma {:induction false} GrownMemory(m: Mem, p: int, nb: nat, rest: nat)
    requires 16 <= nb && 16 <= rest && p % 16 == 0 && nb % 16 == 0 && rest % 16 == 0
    ensures FreedBefore(InuseSet(InuseSet(m, p, nb), p + nb, rest), p + nb, rest) == GrownTags(m, p, nb, rest)
  {
    hide Tag, WithPinuse, PinuseIn;
    var n := p + nb + rest;
    ClearAfterSet(Get(m, n + HEAD));
    var m0 := InuseSet(m, p, nb);
    var m1 := InuseSet(m0, p + nb, rest);
    TwiceInuse(m, p, nb, rest);
    var a, b := FreedBefore(m1, p + nb, rest), GrownTags(m, p, nb, rest);
    NotHead(p, n);
    assert a.Keys == b.Keys;
    forall x | x in a ensures a[x] == b[x] {
    }
  }

  lemma NotHead(p: int, n: int)
    requires p % 16 == 0
    ensures n % 16 == 0 ==> n != p + HEAD
  {
  }

  lemma ClearAfterSet(x: int)
    ensures WithPinuse(WithPinuse(x, true), false) == WithPinuse(x, false)
  {
  }

  /** The old chunk, larger, and what is left of the next as a free chunk. */
  function Grown(c: Chunks, p: int, nb: nat): Chunks
    requires p in c && NextOf(c, p) in c && nb <= BothSizes(c, p)
  {
    (c - {NextOf(c, p)})[p := c[p].(size := nb)][p + nb := Chunk(BothSizes(c, p) - nb, false, true)]
  }

  lemma {:induction false} GrownIs(c: Chunks, p: int, nb: nat)
    requires p in c && c[p].used && NextOf(c, p) in c && !c[NextOf(c, p)].used && Positive(c)
        && 0 < nb < BothSizes(c, p)
    requires c[p].size <= nb && (p + nb == NextOf(c, p) || p + nb !in c) && p + BothSizes(c, p) in c
        && !c[p + BothSizes(c, p)].pinuse
    ensures p in Join(c, p) && Join(c, p)[p].size == BothSizes(c, p) && p + nb in Split(Join(c, p), p, nb)
    ensures SetUsed(Split(Join(c, p), p, nb), p + nb, false) == Grown(c, p, nb)
  {
    hide Join, Split, SetUsed;
    JoinShape(c, p);
    var c1 := Join(c, p);
    SplitShape(c1, p, nb);
    var c2 := Split(c1, p, nb);
    SetUsedShape(c2, p + nb, false);
    var a, b := SetUsed(c2, p + nb, false), Grown(c, p, nb);
    assert a.Keys == b.Keys;
    forall x | x in a ensures a[x] == b[x] {
    }
  }

  lemma {:induction false} GrowFree(h: Heap, at: Place, loose: set<int>, p: int, nb: nat)
    requires Ok(h, at, loose) && NoFreePair(h.chunks) && Growable(h, loose, p) && NextOf(h.chunks, p) != h.top
        && p != at.ms - 16
    requires nb % 16 == 0 && h.chunks[p].size <= nb && nb + 32 <= BothSizes(h.chunks, p)
    ensures var q, t, r := NextOf(h.chunks, p), BothSizes(h.chunks, p), p + nb;
            var m1 := GrownTags(h.mem, p, nb, t - nb);
            var h1 := h.(mem := m1, chunks := Grown(h.chunks, p, nb));
            && Ok(h1, at, loose - {q} + {r}) && NoFreePair(h1.chunks) && PayloadsKept(h.mem, m1, h.chunks, {p, q})
            && SameFrom(h.mem, m1, p + 16, p + h.chunks[p].size + 8) && r != h.top && r > 0
  {
    hide *;
    OkParts(h, at, loose);
    GrowableParts(h, loose, p);
    GrowFacts(h, at, loose, p);
    EndIs(h.chunks, p);
    var q, t, r := NextOf(h.chunks, p), BothSizes(h.chunks, p), p + nb;
    ChunkFacts(h, at, loose, p);
    ChunkFacts(h, at, loose, q);
    AlignedSum(h.chunks[p].size, h.chunks[q].size, 0);
    AlignedSum(0, nb, t);
    InsideNext(h, at, loose, p, nb);
    StateOutside(h, at, loose, p, nb);
    GrowCut(h, at, loose, p, nb);
    JoinedSize(h.chunks, p);
    GrownAndCutIs(h, at, loose, p, nb);
    CutRest(h.chunks, p, nb);
    var c1, m0 := Split(Join(h.chunks, p), p, nb), InuseSet(InuseSet(h.mem, p, nb), r, t - nb);
    var h0, loose1 := h.(mem := m0, chunks := c1), loose - {q};
    OkFlagged(h0, at, loose1);
    RestReady(h0, loose1, r, p + t);
    RestRelease(h0, at, loose1, r);
    GrownIs(h.chunks, p, nb);
    GrownMemory(h.mem, p, nb, t - nb);
    GrownPayloads(h.mem, m0, GrownTags(h.mem, p, nb, t - nb), h.chunks, c1, p, nb);
  }

  /** What is cut off, and the chunk after it. */
  lemma {:induction false} CutRest(c: Chunks, p: int, nb: nat)
    requires p in c && c[p].used && NextOf(c, p) in c && Positive(c) && 0 < nb < BothSizes(c, p)
    requires p + BothSizes(c, p) in c && c[p + BothSizes(c, p)].used
    ensures p in Join(c, p) && Join(c, p)[p].size == BothSizes(c, p)
    ensures var d, r, n := Split(Join(c, p), p, nb), p + nb, p + BothSizes(c, p);
            r in d && d[r] == Chunk(BothSizes(c, p) - nb, true, true) && n in d && d[n].used && d[n].size == c[n].size
              && d[n].size > 0
  {
    hide Join, Split;
    JoinShape(c, p);
    SplitShape(Join(c, p), p, nb);
  }

  lemma {:induction false} RestRelease(h: Heap, at: Place, loose: set<int>, r: int)
    requires Ok(h, at, loose) && NoFreePair(h.chunks) && Ready(h, loose, r, r, false) && Positive(h.chunks)
        && r != at.ms - 16 && r != h.top
    ensures r in h.chunks
    ensures var h1 := h.(mem := FreedBefore(h.mem, r, h.chunks[r].size), chunks := SetUsed(h.chunks, r, false));
            Ok(h1, at, loose + {r}) && NoFreePair(h1.chunks) && PayloadsKept(h.mem, h1.mem, h.chunks, {r})
  {
    hide *;
    ReadyParts(h, loose, r, r, false);
    ReleaseOk(h, at, loose, r, r, false);
    RestFreed(h, loose, r);
  }

  /** The cut lies inside the chunk after, where no chunk starts. */
  lemma InsideNext(h: Heap, at: Place, loose: set<int>, p: int, nb: nat)
    requires Ok(h, at, loose) && Growable(h, loose, p) && h.chunks[p].size <= nb < BothSizes(h.chunks, p)
    ensures p + nb == NextOf(h.chunks, p) || p + nb !in h.chunks
  {
    hide Preceded, Heads, Feet, SmallFilled, TreesFilled, Complete, Sized, Chained, Flagged;
    var q := NextOf(h.chunks, p);
    if p + nb != q {
      Inside(h.chunks, q, p + nb);
    }
  }

  lemma RestReady(h: Heap, loose: set<int>, r: int, n: int)
    requires r in h.chunks && h.chunks[r].used && h.chunks[r].pinuse && h.chunks[r].size > 0
        && r + h.chunks[r].size == n && n in h.chunks && h.chunks[n].used && h.chunks[n].size > 0
    ensures Ready(h, loose, r, r, false)
  {
  }

  lemma StateOutside(h: Heap, at: Place, loose: set<int>, p: int, nb: nat)
    requires Ok(h, at, loose) && NoFreePair(h.chunks) && Growable(h, loose, p)
        && h.chunks[p].size <= nb < BothSizes(h.chunks, p)
    ensures (p + nb != at.ms - 16 && p + nb != h.top) || p + nb == NextOf(h.chunks, p)
    ensures NextOf(h.chunks, p) != at.ms - 16
  {
    hide *;
    GrowFacts(h, at, loose, p);
    InsideNext(h, at, loose, p, nb);
    OkParts(h, at, loose);
    StateIn(h, at.ms);
    TopIn(h, at, loose);
  }

  lemma StateIn(h: Heap, ms: int)
    requires StateChunk(h, ms)
    ensures ms - 16 in h.chunks && h.chunks[ms - 16].used
  {
  }

  lemma RestFreed(h: Heap, loose: set<int>, r: int)
    requires r in h.chunks && Releasable(h.chunks, r, r, false) && Positive(h.chunks)
    ensures FreedHeap(h, r, r, false) == h.(mem := FreedBefore(h.mem, r, h.chunks[r].size),
        chunks := SetUsed(h.chunks, r, false))
    ensures LooseAfter(h, loose, r, r, false) == loose + {r} && Merged(h.chunks, r, r, false) == {r}
  {
    hide SetUsed, FreedBefore;
  }

  lemma {:induction false} GrownPayloads(m: Mem, m0: Mem, m1: Mem, c: Chunks, d: Chunks, p: int, nb: nat)
    requires p in c && End(c, p) in c && Positive(c) && c[p].size <= nb < BothSizes(c, p)
        && (p + nb == NextOf(c, p) || p + nb !in c) && c[p].used
    requires p in Join(c, p) && Join(c, p)[p].size == BothSizes(c, p) && d == Split(Join(c, p), p, nb)
    requires PayloadsKept(m, m0, c, {p, NextOf(c, p)}) && PayloadsKept(m0, m1, d, {p + nb})
        && SameFrom(m, m0, p + 16, p + c[p].size + 8)
    ensures PayloadsKept(m, m1, c, {p, NextOf(c, p)}) && SameFrom(m, m1, p + 16, p + c[p].size + 8)
  {
    hide Join, Split;
    JoinShape(c, p);
    SplitShape(Join(c, p), p, nb);
    forall q | q in c && c[q].used && q !in {p, NextOf(c, p)} ensures SameFrom(m, m1, q + 16, q + c[q].size + 8) {
      assert q in d && d[q].used && d[q].size == c[q].size && q != p + nb;
      SameTwice(m, m0, m1, q + 16, q + c[q].size + 8);
    }
    SameSub(m0, m1, p + 16, p + nb + 8, p + 16, p + c[p].size + 8);
  }

  // -- growing into the top chunk --

  function TopTags(m: Mem, p: int, nb: nat, rest: nat): Mem { InuseSet(m, p,
      nb)[p + nb + HEAD := Tag(rest, false, true)] }

  lemma {:induction false} TopTagsMemory(m: Mem, c: Chunks, p: int, nb: nat)
    requires p in c && NextOf(c, p) in c && Roomy(c) && c[p].size <= nb && nb + 16 <= BothSizes(c, p)
    requires Get(m, p + HEAD) == Tag(c[p].size, true, c[p].pinuse) && c[p].size % 16 == 0
    ensures var rest := BothSizes(c, p) - nb;
            var m1 := TopTags(m, p, nb, rest);
            && Changes(m, m1, c, {p, NextOf(c, p)}, {}) && SameFrom(m, m1, p + 16, p + c[p].size + 8)
            && Get(m1, p + HEAD) == Tag(nb, true, c[p].pinuse) && Get(m1, p + nb + HEAD) == Tag(rest, false, true)
  {
    hide Tag, WithPinuse, PinuseIn;
    TagBits(c[p].size, true, c[p].pinuse);
    var q := NextOf(c, p);
    assert Owns(c, p, p + HEAD) && Owns(c, q, p + nb + HEAD);
  }

  lemma {:induction false} TopGrownIs(c: Chunks, p: int, nb: nat)
    requires p in c && c[p].used && NextOf(c, p) in c && !c[NextOf(c, p)].used && Positive(c)
        && 0 < nb < BothSizes(c, p)
    requires c[p].size <= nb && (p + nb == NextOf(c, p) || p + nb !in c) && p + BothSizes(c, p) !in c
    ensures var c1 := SetUsed(c, p, false);
            && p in c1 && End(c1, p) in c1 && p in Join(c1, p) && Join(c1, p)[p].size == BothSizes(c, p)
              && p in Split(Join(c1, p), p, nb)
            && SetUsed(Split(Join(c1, p), p, nb), p, true) == Grown(c, p, nb)
  {
    hide Join, Split, SetUsed, Positive;
    TopMergedShape(c, p);
    var c2 := Join(SetUsed(c, p, false), p);
    SplitShape(c2, p, nb);
    var c3 := Split(c2, p, nb);
    SetUsedShape(c3, p, true);
    var a, b := SetUsed(c3, p, true), Grown(c, p, nb);
    assert a.Keys == b.Keys;
    forall x | x in a ensures a[x] == b[x] {
    }
  }

  /** The chunk, out of use, together with the top chunk. */
  lemma {:induction false} TopMergedShape(c: Chunks, p: int)
    requires p in c && NextOf(c, p) in c && Positive(c) && p + BothSizes(c, p) !in c
    ensures var c1, q := SetUsed(c, p, false), NextOf(c, p);
            && p in c1 && End(c1, p) == q && q in c1 && p != q
            && var d := Join(c1, p);
            && d.Keys == c.Keys - {q} && d[p] == Chunk(BothSizes(c, p), false, c[p].pinuse) && forall x ::
              x in d && x != p ==> d[x] == c[x]
  {
    hide Join, SetUsed;
    SetUsedShape(c, p, false);
    var c1 := SetUsed(c, p, false);
    assert Positive(c1);
    JoinShape(c1, p);
  }

  lemma {:induction false} TopGrownTiled(h: Heap, at: Place, loose: set<int>, p: int, nb: nat)
    requires Ok(h, at, loose) && NoFreePair(h.chunks) && Growable(h, loose, p) && NextOf(h.chunks, p) == h.top
    requires nb % 16 == 0 && 32 <= nb && h.chunks[p].size <= nb && nb + 16 <= BothSizes(h.chunks, p)
    ensures Tiled(Grown(h.chunks, p, nb), p + nb, h.fences, at.zone)
  {
    hide *;
    Sixteen();
    OkParts(h, at, loose);
    GrowableParts(h, loose, p);
    GrowFacts(h, at, loose, p);
    InsideNext(h, at, loose, p, nb);
    TopFacts(h, at, loose);
    var c := h.chunks;
    EndIs(c, p);
    NoFenceAfter(h, at, loose, p);
    SetUsedTiled(c, p, false, h.top, h.fences, at.zone);
    SetUsedShape(c, p, false);
    var c1 := SetUsed(c, p, false);
    TopGrownIs(c, p, nb);
    EndIs(c1, p);
    EndIs(c1, h.top);
    JoinTiled(c1, p, h.top, h.fences, at.zone);
    var c2 := Join(c1, p);
    SplitTiled(c2, p, nb, p, h.fences, at.zone);
    var c3 := Split(c2, p, nb);
    SetUsedTiled(c3, p, true, p + nb, h.fences, at.zone);
  }

  lemma {:induction false} TopKept(h: Heap, h1: Heap, loose: set<int>, p: int, nb: nat)
    requires Growable(h, loose, p) && NextOf(h.chunks, p) == h.top && h.top !in loose && Special(h, loose)
        && h.chunks[p].size <= nb < BothSizes(h.chunks, p)
    requires h1.chunks == Grown(h.chunks, p, nb) && h1.top == p + nb && h1.dv == h.dv
        && (p + nb == h.top || p + nb !in h.chunks)
    ensures Kept(h, h1, loose, loose, {p, h.top}, {}) && Special(h1, loose)
  {
  }

  lemma {:induction false} TopGrownEdit(h: Heap, at: Place, loose: set<int>, p: int, nb: nat)
    requires Ok(h, at, loose) && NoFreePair(h.chunks) && Growable(h, loose, p) && NextOf(h.chunks, p) == h.top
    requires 32 <= nb && h.chunks[p].size <= nb && nb + 16 <= BothSizes(h.chunks, p)
    ensures var m1 := TopTags(h.mem, p, nb, BothSizes(h.chunks, p) - nb);
            var h1 := h.(mem := m1, chunks := Grown(h.chunks, p, nb), top := p + nb);
            Edited(h, h1, loose, loose, {p, h.top}, {}) && Special(h1, loose)
              && SameFrom(h.mem, m1, p + 16, p + h.chunks[p].size + 8)
  {
    hide *;
    OkParts(h, at, loose);
    GrowableParts(h, loose, p);
    GrowFacts(h, at, loose, p);
    InsideNext(h, at, loose, p, nb);
    ChunkFacts(h, at, loose, p);
    var m1 := TopTags(h.mem, p, nb, BothSizes(h.chunks, p) - nb);
    var h1 := h.(mem := m1, chunks := Grown(h.chunks, p, nb), top := p + nb);
    TopTagsMemory(h.mem, h.chunks, p, nb);
    TopKept(h, h1, loose, p, nb);
    GrownShape(h.chunks, p, nb);
    PlacedUsed(h1, loose, p);
    PlacedTop(h1, loose);
    UsedNotWaiting(h, loose, p);
    LooseNotWaiting(h, loose, h.top);
    EditedIs(h, h1, loose, loose, {p, h.top}, {});
  }

  lemma {:induction false} GrowTop(h: Heap, at: Place, loose: set<int>, p: int, nb: nat)
    requires Ok(h, at, loose) && NoFreePair(h.chunks) && Growable(h, loose, p) && NextOf(h.chunks, p) == h.top
        && p != at.ms - 16
    requires nb % 16 == 0 && 32 <= nb && h.chunks[p].size <= nb && nb < BothSizes(h.chunks, p)
    ensures var rest := BothSizes(h.chunks, p) - nb;
            var m1 := TopTags(h.mem, p, nb, rest);
            var h1 := h.(mem := m1, chunks := Grown(h.chunks, p, nb), top := p + nb);
            && Ok(h1, at, loose) && NoFreePair(h1.chunks) && PayloadsKept(h.mem, m1, h.chunks, {p, h.top})
            && SameFrom(h.mem, m1, p + 16, p + h.chunks[p].size + 8)
  {
    hide *;
    GrowableParts(h, loose, p);
    GrowFacts(h, at, loose, p);
    ChunkFacts(h, at, loose, p);
    ChunkFacts(h, at, loose, h.top);
    AlignedSum(h.chunks[p].size, h.chunks[h.top].size, 0);
    NextAligned(nb, BothSizes(h.chunks, p));
    TopGrownTiled(h, at, loose, p, nb);
    TopGrownEdit(h, at, loose, p, nb);
    var m1 := TopTags(h.mem, p, nb, BothSizes(h.chunks, p) - nb);
    var h1 := h.(mem := m1, chunks := Grown(h.chunks, p, nb), top := p + nb);
    EditedOk(h, h1, at, loose, loose, {p, h.top}, {});
    EditedPayloads(h, h1, at, loose, loose, {p, h.top}, {});
    GrownNoPair(h.chunks, p, nb);
  }

  lemma GrownShape(c: Chunks, p: int, nb: nat)
    requires p in c && NextOf(c, p) in c && 0 < nb <= BothSizes(c, p) && c[p].size > 0
    ensures var d := Grown(c, p, nb);
            && p in d && p + nb in d && d[p] == c[p].(size := nb) && d[p + nb]
              == Chunk(BothSizes(c, p) - nb, false, true)
            && d.Keys == c.Keys - {NextOf(c, p)} + {p + nb} && forall x ::
              x in d && x != p && x != p + nb ==> d[x] == c[x]
  {
  }

  lemma PlacedTop(h: Heap, loose: set<int>)
    requires h.top in h.chunks && Get(h.mem, h.top + HEAD) == Tag(h.chunks[h.top].size, h.chunks[h.top].used,
        h.chunks[h.top].pinuse)
    ensures Placed(h, loose, h.top)
  {
  }

  lemma GrownNoPair(c: Chunks, p: int, nb: nat)
    requires NoFreePair(c) && p in c && c[p].used && NextOf(c, p) in c && 0 < nb <= BothSizes(c, p)
    ensures NoFreePair(Grown(c, p, nb))
  {
  }
}
