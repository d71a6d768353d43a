/** Changes of the tiling of a space together with the boundary tags that `dlmalloc.c` writes for them. */
module HeapEdits {
  import opened BinIndex
  import opened BinMaps
  import opened SizeTrie
  import opened HeapWords
  import opened HeapTiling
  import opened TreeSearch
  import opened SmallBins
  import opened HeapState
  import opened HeapMoves

  /** Payloads of the chunks in use. */
  ghost predicate PayloadsKept(m: Mem, m1: Mem, c: Chunks, but: set<int>) {
    forall q :: q in c && c[q].used && q !in but ==> SameFrom(m, m1, q + 16, q + c[q].size + 8)
  }

  lemma {:induction false} EditedPayloads(h: Heap, h1: Heap, at: Place, loose: set<int>, loose1: set<int>, ts: set<int>,
      hs: set<int>)
    requires Ok(h, at, loose) && Edited(h, h1, loose, loose1, ts, hs)
    ensures PayloadsKept(h.mem, h1.mem, h.chunks, ts)
  {
    hide *;
    OkParts(h, at, loose);
    EditedChanges(h, h1, loose, loose1, ts, hs);
    forall q | q in h.chunks && h.chunks[q].used && q !in ts ensures SameFrom(h.mem, h1.mem, q + 16,
        q + h.chunks[q].size + 8) {
      ChangesKeep(h.mem, h1.mem, h.chunks, ts, hs, q);
    }
    PayloadsKeptIs(h.mem, h1.mem, h.chunks, ts);
  }

  lemma EditedChanges(h: Heap, h1: Heap, loose: set<int>, loose1: set<int>, ts: set<int>, hs: set<int>)
    requires Edited(h, h1, loose, loose1, ts, hs)
    ensures Changes(h.mem, h1.mem, h.chunks, ts, hs) && forall q :: q in hs ==> q in h.chunks
  {
    hide Changes, Kept, Placed, Waiting;
  }

  lemma PayloadsKeptIs(m: Mem, m1: Mem, c: Chunks, ts: set<int>)
    requires forall q :: q in c && c[q].used && q !in ts ==> SameFrom(m, m1, q + 16, q + c[q].size + 8)
    ensures PayloadsKept(m, m1, c, ts)
  {
    hide SameFrom;
  }

  /** The chunk after a free chunk, and the one before a chunk whose bit says so. */
  /** A free chunk comes after a used one, and a used one comes after it. */
  predicate UsedNext(c: Chunks, p: int) {
    p in c && var n := p + c[p].size; n in c && c[n].used && !c[n].pinuse && n != p && c[p].pinuse
  }

  lemma {:induction false} AfterFree(h: Heap, at: Place, loose: set<int>, p: int)
    requires Ok(h, at, loose) && NoFreePair(h.chunks) && p in h.chunks && !h.chunks[p].used && p != h.top
    ensures UsedNext(h.chunks, p)
  {
    hide Separate, Preceded, Heads, Feet, SmallFilled, TreesFilled, Complete, StateChunk, InZone;
  }

  lemma UsedNextIs(c: Chunks, p: int)
    requires UsedNext(c, p) && p in c
    ensures var n := p + c[p].size; n in c && c[n].used && !c[n].pinuse && n != p && c[p].pinuse
  {
  }

  // ---- a free chunk is used whole ----

  /** `set_inuse_and_pinuse` on a free chunk of size `s`. */
  function WholeUsed(m: Mem, p: int, s: nat): Mem {
    var m1 := m[p + HEAD := Tag(s, true, true)];
    m1[p + s + HEAD := WithPinuse(Get(m1, p + s + HEAD), true)]
  }

  lemma EditedIs(h: Heap, h1: Heap, loose: set<int>, loose1: set<int>, ts: set<int>, hs: set<int>)
    requires Changes(h.mem, h1.mem, h.chunks, ts, hs) && Kept(h, h1, loose, loose1, ts, hs)
    requires h1.lists == h.lists && h1.trees == h.trees && h1.smallmap == h.smallmap && h1.treemap == h.treemap
    requires forall q :: q in ts ==> q in h.chunks && !Waiting(h, loose, q)
    requires forall q :: q in hs ==> q in h.chunks && q !in ts && h.chunks[q].used
    requires forall q :: q in h1.chunks && (q !in h.chunks || q in ts || q in hs) ==> Placed(h1, loose1, q)
    ensures Edited(h, h1, loose, loose1, ts, hs)
  {
    hide Changes, Kept, Waiting, Placed;
  }

  lemma WholeChanges(m: Mem, c: Chunks, p: int, s: nat)
    requires p in c && c[p].size == s && s > 0
    ensures Changes(m, WholeUsed(m, p, s), c, {p}, {p + s})
  {
    assert Owns(c, p, p + HEAD);
  }

  lemma WholeWords(m: Mem, p: int, s: nat)
    requires s > 0
    ensures Get(WholeUsed(m, p, s), p + HEAD) == Tag(s, true, true)
    ensures Get(WholeUsed(m, p, s), p + s + HEAD) == WithPinuse(Get(m, p + s + HEAD), true)
  {
  }

  lemma {:induction false} TakeWholeEdit(h: Heap, at: Place, loose: set<int>, p: int)
    requires Ok(h, at, loose) && NoFreePair(h.chunks) && p in loose && p in h.chunks
    ensures var s := h.chunks[p].size;
            var h1 := h.(mem := WholeUsed(h.mem, p, s), chunks := SetUsed(h.chunks, p, true));
            Edited(h, h1, loose, loose - {p}, {p}, {p + s})
  {
    hide *;
    OkParts(h, at, loose);
    var s := h.chunks[p].size;
    var n := p + s;
    LooseIs(h, loose, p);
    AfterFree(h, at, loose, p);
    UsedNextIs(h.chunks, p);
    ChunkFacts(h, at, loose, p);
    ChunkFacts(h, at, loose, n);
    TagBits(h.chunks[n].size, true, false);
    var h1 := h.(mem := WholeUsed(h.mem, p, s), chunks := SetUsed(h.chunks, p, true));
    SetUsedKept(h, h1, loose, p);
    WholeChanges(h.mem, h.chunks, p, s);
    WholeWords(h.mem, p, s);
    PlacedUsed(h1, loose - {p}, p);
    PlacedUsed(h1, loose - {p}, n);
    LooseNotWaiting(h, loose, p);
    EditedIs(h, h1, loose, loose - {p}, {p}, {n});
  }

  lemma LooseIs(h: Heap, loose: set<int>, p: int)
    requires Special(h, loose) && p in loose
    ensures p in h.chunks && !h.chunks[p].used && p != h.top
  {
  }

  lemma SetUsedKept(h: Heap, h1: Heap, loose: set<int>, p: int)
    requires p in h.chunks && h.chunks[p].size > 0 && p + h.chunks[p].size in h.chunks
    requires h1 == h.(mem := h1.mem, chunks := SetUsed(h.chunks, p, true))
    ensures Kept(h, h1, loose, loose - {p}, {p}, {p + h.chunks[p].size})
    ensures h1.chunks.Keys == h.chunks.Keys && h1.chunks[p].used && h1.chunks[p + h.chunks[p].size].pinuse
    ensures forall q :: q in h.chunks ==>
        && h1.chunks[q].size == h.chunks[q].size && (q != p ==> h1.chunks[q].used == h.chunks[q].used)
        && (q != p + h.chunks[p].size ==> h1.chunks[q].pinuse == h.chunks[q].pinuse)
  {
    SetUsedShape(h.chunks, p, true);
    hide SetUsed;
  }

  lemma PlacedUsed(h: Heap, loose: set<int>, q: int)
    requires q in h.chunks && h.chunks[q].used && Get(h.mem, q + HEAD)
        == Tag(h.chunks[q].size, true, h.chunks[q].pinuse)
    ensures Placed(h, loose, q)
  {
  }

  lemma LooseNotWaiting(h: Heap, loose: set<int>, q: int)
    requires q in loose || q == h.top
    ensures !Waiting(h, loose, q)
  {
  }

  lemma TagBits(size: nat, used: bool, pinuse: bool)
    requires size % 16 == 0
    ensures var h := Tag(size, used, pinuse);
            && SizeIn(h) == size && UsedIn(h) == used && PinuseIn(h) == pinuse
            && WithPinuse(h, true) == Tag(size, used, true) && WithPinuse(h, false) == Tag(size, used, false)
  {
    hide Tag, SizeIn, UsedIn, PinuseIn, WithPinuse;
    InEight(size);
    TagFields(size, used, pinuse);
  }

  lemma InEight(s: nat)
    ensures s % 16 == 0 ==> s % 8 == 0
  {
    var k := s / 16;
    assert s % 16 == 0 ==> s == 8 * (2 * k);
  }

  lemma {:induction false} TakeWhole(h: Heap, at: Place, loose: set<int>, p: int)
    requires Ok(h, at, loose) && NoFreePair(h.chunks) && p in loose && p in h.chunks
    ensures var s := h.chunks[p].size;
            var h1 := h.(mem := WholeUsed(h.mem, p, s), chunks := SetUsed(h.chunks, p, true));
            Ok(h1, at, loose - {p}) && NoFreePair(h1.chunks) && PayloadsKept(h.mem, h1.mem, h.chunks, {p})
  {
    hide *;
    OkParts(h, at, loose);
    var s := h.chunks[p].size;
    var h1 := h.(mem := WholeUsed(h.mem, p, s), chunks := SetUsed(h.chunks, p, true));
    LooseFacts(h, at, loose, p);
    TakeWholeEdit(h, at, loose, p);
    SetUsedTiled(h.chunks, p, true, h.top, h.fences, at.zone);
    UsedSpecial(h, h1, loose, p);
    EditedOk(h, h1, at, loose, loose - {p}, {p}, {p + s});
    EditedPayloads(h, h1, at, loose, loose - {p}, {p}, {p + s});
    UsedNoPair(h.chunks, p);
  }

  lemma LooseFacts(h: Heap, at: Place, loose: set<int>, p: int)
    requires Ok(h, at, loose) && p in loose
    ensures p in h.chunks && !h.chunks[p].used && p != h.top && p != at.ms - 16 && (h.dv != 0 ==> p != h.dv)
  {
    hide Tiled, SmallFilled, TreesFilled, Complete, Heads, Feet;
  }

  lemma UsedSpecial(h: Heap, h1: Heap, loose: set<int>, p: int)
    requires Special(h, loose) && p in loose && p in h.chunks && h.chunks[p].size > 0
    requires h1.chunks == SetUsed(h.chunks, p, true) && h1.top == h.top && h1.dv == h.dv
    ensures Special(h1, loose - {p})
  {
  }

  lemma UsedNoPair(c: Chunks, p: int)
    requires NoFreePair(c) && p in c && c[p].size > 0
    ensures NoFreePair(SetUsed(c, p, true))
  {
  }

  // ---- the front of a free chunk is used ----

  /** `set_size_and_pinuse_of_inuse_chunk` and `set_size_and_pinuse_of_free_chunk` on the two parts. */
  function FrontUsed(m: Mem, p: int, s: nat, nb: nat): Mem
    requires nb <= s
  {
    m[p + HEAD := Tag(nb, true, true)][p + nb + HEAD := Tag(s - nb, false, true)][p + s := s - nb]
  }

  /** The same on the top chunk, which has no foot. */
  function TopUsed(m: Mem, p: int, s: nat, nb: nat): Mem
    requires nb <= s
  {
    m[p + nb + HEAD := Tag(s - nb, false, true)][p + HEAD := Tag(nb, true, true)]
  }

  function Fronted(c: Chunks, p: int, nb: nat): Chunks
    requires p in c && nb <= c[p].size
  {
    c[p := Chunk(nb, true, c[p].pinuse)][p + nb := Chunk(c[p].size - nb, false, true)]
  }

  lemma FrontedIs(c: Chunks, p: int, nb: nat)
    requires p in c && !c[p].used && 0 < nb < c[p].size && p + nb !in c
    ensures SetUsed(Split(c, p, nb), p, true) == Fronted(c, p, nb)
  {
  }

  lemma FrontWords(m: Mem, p: int, s: nat, nb: nat)
    requires 16 <= nb && nb + 16 <= s
    ensures var m1 := FrontUsed(m, p, s, nb);
            Get(m1, p + HEAD) == Tag(nb, true, true) && Get(m1, p + nb + HEAD) == Tag(s - nb, false, true)
              && Get(m1, p + s) == s - nb
    ensures var m1 := TopUsed(m, p, s, nb);
            Get(m1, p + HEAD) == Tag(nb, true, true) && Get(m1, p + nb + HEAD) == Tag(s - nb, false, true)
  {
  }

  lemma FrontChanges(m: Mem, c: Chunks, p: int, s: nat, nb: nat)
    requires p in c && c[p].size == s && 16 <= nb && nb + 16 <= s
    ensures Changes(m, FrontUsed(m, p, s, nb), c, {p}, {}) && Changes(m, TopUsed(m, p, s, nb), c, {p}, {})
  {
    assert Owns(c, p, p + HEAD) && Owns(c, p, p + nb + HEAD) && Owns(c, p, p + s);
  }

  lemma {:induction false} FrontKept(h: Heap, h1: Heap, loose: set<int>, p: int, nb: nat)
    requires p in h.chunks && nb <= h.chunks[p].size && h1.chunks == Fronted(h.chunks, p, nb) && p + nb !in h.chunks
    requires (h1.top == h.top || (p == h.top && h1.top == p + nb)) && (h1.dv == h.dv)
    ensures Kept(h, h1, loose, if p == h.top then loose else loose - {p} + {p + nb}, {p}, {})
  {
  }

  lemma {:induction false} TakeFrontEdit(h: Heap, at: Place, loose: set<int>, p: int, nb: nat)
    requires Ok(h, at, loose) && NoFreePair(h.chunks) && p in loose && p in h.chunks && 32 <= nb
        && nb + 32 <= h.chunks[p].size && p + nb !in h.chunks
    ensures var s := h.chunks[p].size;
            var h1 := h.(mem := FrontUsed(h.mem, p, s, nb), chunks := Fronted(h.chunks, p, nb));
            Edited(h, h1, loose, loose - {p} + {p + nb}, {p}, {})
  {
    hide Ok, Tag, Tiled, SmallFilled, TreesFilled, Complete, Heads, Feet, FrontUsed, Changes, Separate, Edited, Kept;
    OkParts(h, at, loose);
    var s, r := h.chunks[p].size, p + nb;
    AfterFree(h, at, loose, p);
    UsedNextIs(h.chunks, p);
    var h1, loose1 := h.(mem := FrontUsed(h.mem, p, s, nb), chunks := Fronted(h.chunks, p, nb)), loose - {p} + {r};
    FrontChanges(h.mem, h.chunks, p, s, nb);
    FrontWords(h.mem, p, s, nb);
    FrontKept(h, h1, loose, p, nb);
    assert Placed(h1, loose1, p) && Placed(h1, loose1, r);
    EditedIs(h, h1, loose, loose1, {p}, {});
  }

  lemma {:induction false} TakeFront(h: Heap, at: Place, loose: set<int>, p: int, nb: nat)
    requires Ok(h, at, loose) && NoFreePair(h.chunks) && p in loose && p in h.chunks && nb % 16 == 0 && 32 <= nb
        && nb + 32 <= h.chunks[p].size
    ensures var h1 := h.(mem := FrontUsed(h.mem, p, h.chunks[p].size, nb), chunks := Fronted(h.chunks, p, nb));
            && Ok(h1, at, loose - {p} + {p + nb}) && NoFreePair(h1.chunks) && PayloadsKept(h.mem, h1.mem, h.chunks, {p})
            && p + nb !in h.chunks && p + nb > 0
  {
    hide *;
    Sixteen();
    OkParts(h, at, loose);
    var s, r := h.chunks[p].size, p + nb;
    var h1, loose1 := h.(mem := FrontUsed(h.mem, p, s, nb), chunks := Fronted(h.chunks, p, nb)), loose - {p} + {r};
    LooseFacts(h, at, loose, p);
    ChunkFacts(h, at, loose, p);
    FrontTiled(h, at, loose, p, nb);
    TopIn(h, at, loose);
    TakeFrontEdit(h, at, loose, p, nb);
    FrontSpecial(h, h1, loose, p, nb);
    EditedOk(h, h1, at, loose, loose1, {p}, {});
    EditedPayloads(h, h1, at, loose, loose1, {p}, {});
    FrontNoPair(h.chunks, p, nb);
  }

  lemma {:induction false} FrontTiled(h: Heap, at: Place, loose: set<int>, p: int, nb: nat)
    requires Ok(h, at, loose) && NoFreePair(h.chunks) && p in h.chunks && p != h.top && !h.chunks[p].used
    requires nb % 16 == 0 && 32 <= nb && nb + 32 <= h.chunks[p].size
    ensures p + nb !in h.chunks && Tiled(Fronted(h.chunks, p, nb), h.top, h.fences, at.zone)
  {
    hide *;
    Sixteen();
    OkParts(h, at, loose);
    AfterFree(h, at, loose, p);
    UsedNextIs(h.chunks, p);
    NoFenceAfter(h, at, loose, p);
    SplitTiled(h.chunks, p, nb, h.top, h.fences, at.zone);
    FrontedIs(h.chunks, p, nb);
    EndOfFront(h.chunks, p, nb);
    SetUsedTiled(Split(h.chunks, p, nb), p, true, h.top, h.fences, at.zone);
  }

  lemma TopIn(h: Heap, at: Place, loose: set<int>)
    requires Ok(h, at, loose)
    ensures h.top in h.chunks
  {
    hide Separate, Preceded, Heads, Feet, SmallFilled, TreesFilled, Complete, Sized, Chained, Flagged;
  }

  lemma Sixteen()
    ensures ALIGNMENT == 16 && MIN_CHUNK == 32 && HEAD == 8
  {
  }

  lemma NoFenceAfter(h: Heap, at: Place, loose: set<int>, p: int)
    requires Ok(h, at, loose) && p in h.chunks && p + h.chunks[p].size in h.chunks
    ensures End(h.chunks, p) !in h.fences
  {
    hide Separate, Preceded, Heads, Feet, SmallFilled, TreesFilled, Complete, StateChunk, Sized, Chained, Flagged;
  }

  lemma EndOfFront(c: Chunks, p: int, nb: nat)
    requires p in c && 0 < nb < c[p].size && p + nb !in c
    ensures p in Split(c, p, nb) && End(Split(c, p, nb), p) == p + nb
  {
  }

  lemma FrontSpecial(h: Heap, h1: Heap, loose: set<int>, p: int, nb: nat)
    requires Special(h, loose) && p in loose && p in h.chunks && nb <= h.chunks[p].size && p + nb !in h.chunks
        && p != h.top && h.top in h.chunks
    requires h1.chunks == Fronted(h.chunks, p, nb) && h1.top == h.top && h1.dv == h.dv
    ensures Special(h1, loose - {p} + {p + nb})
  {
  }

  lemma FrontNoPair(c: Chunks, p: int, nb: nat)
    requires NoFreePair(c) && p in c && nb <= c[p].size && p + nb !in c
    ensures NoFreePair(Fronted(c, p, nb))
  {
  }

  // ---- the front of the top chunk is used ----

  lemma {:induction false} TakeTopEdit(h: Heap, at: Place, loose: set<int>, nb: nat)
    requires Ok(h, at, loose) && NoFreePair(h.chunks) && h.top in h.chunks && 32 <= nb
        && nb + 16 <= h.chunks[h.top].size && h.top + nb !in h.chunks
    ensures var p, s := h.top, h.chunks[h.top].size;
            var h1 := h.(mem := TopUsed(h.mem, p, s, nb), chunks := Fronted(h.chunks, p, nb), top := p + nb);
            Edited(h, h1, loose, loose, {p}, {})
  {
    hide Ok, Tag, Tiled, SmallFilled, TreesFilled, Complete, Heads, Feet, TopUsed, Changes, Separate, Edited, Kept;
    OkParts(h, at, loose);
    var p, s := h.top, h.chunks[h.top].size;
    var h1 := h.(mem := TopUsed(h.mem, p, s, nb), chunks := Fronted(h.chunks, p, nb), top := p + nb);
    TopFacts(h, at, loose);
    FrontChanges(h.mem, h.chunks, p, s, nb);
    FrontWords(h.mem, p, s, nb);
    FrontKept(h, h1, loose, p, nb);
    assert Placed(h1, loose, p) && Placed(h1, loose, p + nb);
    EditedIs(h, h1, loose, loose, {p}, {});
  }

  lemma TopFacts(h: Heap, at: Place, loose: set<int>)
    requires Ok(h, at, loose) && NoFreePair(h.chunks)
    ensures h.top in h.chunks && !h.chunks[h.top].used && h.chunks[h.top].pinuse && h.top !in loose
        && h.top != at.ms - 16 && (h.dv != 0 ==> h.top != h.dv)
    ensures h.top + h.chunks[h.top].size !in h.chunks && h.top + h.chunks[h.top].size !in h.fences
  {
    hide Separate, Preceded, Heads, Feet, SmallFilled, TreesFilled, Complete, Sized, Chained, Flagged;
  }

  lemma {:induction false} TakeTop(h: Heap, at: Place, loose: set<int>, nb: nat)
    requires Ok(h, at, loose) && NoFreePair(h.chunks) && h.top in h.chunks && nb % 16 == 0
        && 32 <= nb < h.chunks[h.top].size
    ensures var p, s := h.top, h.chunks[h.top].size;
            var h1 := h.(mem := TopUsed(h.mem, p, s, nb), chunks := Fronted(h.chunks, p, nb), top := p + nb);
            && Ok(h1, at, loose) && NoFreePair(h1.chunks) && PayloadsKept(h.mem, h1.mem, h.chunks, {p})
            && p + nb !in h.chunks
  {
    hide *;
    Sixteen();
    OkParts(h, at, loose);
    TopFacts(h, at, loose);
    var p, s := h.top, h.chunks[h.top].size;
    ChunkFacts(h, at, loose, p);
    NextAligned(nb, s);
    var h1 := h.(mem := TopUsed(h.mem, p, s, nb), chunks := Fronted(h.chunks, p, nb), top := p + nb);
    SplitTiled(h.chunks, p, nb, h.top, h.fences, at.zone);
    TakeTopEdit(h, at, loose, nb);
    FrontedIs(h.chunks, p, nb);
    SplitShape(h.chunks, p, nb);
    SetUsedTiled(Split(h.chunks, p, nb), p, true, p + nb, h.fences, at.zone);
    TopSpecial(h, h1, loose, nb);
    EditedOk(h, h1, at, loose, loose, {p}, {});
    EditedPayloads(h, h1, at, loose, loose, {p}, {});
    FrontNoPair(h.chunks, p, nb);
  }

  lemma NextAligned(x: nat, y: nat)
    requires x % 16 == 0 && y % 16 == 0 && x < y
    ensures x + 16 <= y
  {
    var i, j := x / 16, y / 16;
    assert x == 16 * i && y == 16 * j;
  }

  lemma TopSpecial(h: Heap, h1: Heap, loose: set<int>, nb: nat)
    requires Special(h, loose) && h.top in h.chunks && nb <= h.chunks[h.top].size && h.top + nb !in h.chunks
        && h.top !in loose
    requires h1.chunks == Fronted(h.chunks, h.top, nb) && h1.top == h.top + nb && h1.dv == h.dv
    ensures Special(h1, loose)
  {
  }

  // ---- the designated victim ----

  /** The chunk `dv` is taken out of its place, or a chunk is put there. */
  lemma {:induction false} DvOut(h: Heap, at: Place, loose: set<int>)
    requires Ok(h, at, loose) && h.dv != 0
    ensures Ok(h.(dv := 0), at, loose + {h.dv})
  {
    var h1, loose1 := h.(dv := 0), loose + {h.dv};
    DvWaiting(h, h1, at, loose, loose1);
    DvSame(h, h1, at, loose, loose1);
  }

  lemma {:induction false} DvIn(h: Heap, at: Place, loose: set<int>, p: int)
    requires Ok(h, at, loose) && h.dv == 0 && p in loose
    ensures Ok(h.(dv := p), at, loose - {p})
  {
    var h1, loose1 := h.(dv := p), loose - {p};
    DvWaiting(h, h1, at, loose, loose1);
    DvSame(h, h1, at, loose, loose1);
  }

  lemma DvWaiting(h: Heap, h1: Heap, at: Place, loose: set<int>, loose1: set<int>)
    requires Ok(h, at, loose) && h1 == h.(dv := h1.dv)
    requires (h1.dv == 0 && h.dv != 0 && loose1 == loose + {h.dv})
        || (h.dv == 0 && h1.dv in loose && loose1 == loose - {h1.dv})
    ensures (forall p :: Waiting(h1, loose1, p) <==> Waiting(h, loose, p)) && Special(h1, loose1)
  {
    hide SmallFilled, TreesFilled, Complete, Heads, Feet, Separate, Chained, Flagged, Preceded;
    assert 0 !in h.chunks;
  }

  lemma {:induction false} DvSame(h: Heap, h1: Heap, at: Place, loose: set<int>, loose1: set<int>)
    requires Ok(h, at, loose) && h1 == h.(dv := h1.dv) && Special(h1, loose1)
    requires forall p :: Waiting(h1, loose1, p) <==> Waiting(h, loose, p)
    ensures Ok(h1, at, loose1)
  {
    hide Heads, Feet, Separate, Chained, Flagged, Preceded, TopLast, Sized, TreeBins, SmallBinOk, Marked, Holds,
      TreeIndex, Special;
    forall p | Waiting(h1, loose1, p) ensures InBin(h1, p) {
      assert Waiting(h, loose, p) && InBin(h, p);
    }
  }
}
