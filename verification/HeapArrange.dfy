/** The part of the state of a space that its callers and its provider see: owners, segments and segment records. */
module HeapArrange {
  import opened HeapWords
  import opened HeapTiling
  import opened HeapState
  import opened HeapMoves
  import opened HeapEdits
  import opened HeapUse
  import opened HeapGrow
  import opened HeapSegments
  import opened HeapExtend

  /** Every chunk in use has an owner, the chunks tile the segments, and the older segments have their records. */
  ghost predicate Arranged(h: Heap, at: Place, segs: seq<Segment>, live: set<int>, system: set<int>) {
    && Owned(h.chunks, h.fences, at.ms, live, system) && Segmented(h.chunks, h.top, h.fences, segs)
    && Recorded(h.mem, h.chunks, system, at.ms, segs)
  }

  /** `struct malloc_segment`. */
  datatype Record = Record(base: int, size: nat, next: int, flags: nat)

  /** `m->seg` describes the newest segment. */
  predicate Listed(seg: Record, segs: seq<Segment>) {
    && |segs| > 0
    && var l := |segs| - 1;
       seg == Record(segs[l].base, segs[l].size, NextRecord(segs, l), segs[l].flags)
  }

  lemma ArrangedParts(h: Heap, at: Place, segs: seq<Segment>, live: set<int>, system: set<int>)
    requires Arranged(h, at, segs, live, system)
    ensures Owned(h.chunks, h.fences, at.ms, live, system) && Segmented(h.chunks, h.top, h.fences, segs)
    ensures Recorded(h.mem, h.chunks, system, at.ms, segs) && |segs| > 0
  {
    hide Owned, Recorded, Spread, Tiles, Fenced;
  }

  lemma ArrangedIs(h: Heap, at: Place, segs: seq<Segment>, live: set<int>, system: set<int>)
    requires Owned(h.chunks, h.fences, at.ms, live, system) && Segmented(h.chunks, h.top, h.fences, segs)
    requires Recorded(h.mem, h.chunks, system, at.ms, segs)
    ensures Arranged(h, at, segs, live, system)
  {
    hide Owned, Recorded, Segmented;
  }

  /** The newest segment ends behind the foot of the top chunk. */
  lemma LastEnd(h: Heap, at: Place, segs: seq<Segment>, live: set<int>, system: set<int>)
    requires Arranged(h, at, segs, live, system) && h.top in h.chunks
    ensures |segs| > 0
    ensures var s := segs[|segs| - 1]; s.base + s.size == h.top + h.chunks[h.top].size + TOP_FOOT
  {
    hide Owned, Recorded, Spread, Tiles, Fenced;
  }

  lemma {:induction false} ArrangedPasses(h: Heap, h1: Heap, at: Place, segs: seq<Segment>, live: set<int>,
      system: set<int>, out: set<int>, into: set<int>)
    requires Arranged(h, at, segs, live, system) && out <= live && into !! system && h1.fences == h.fences
    requires Passes(h.mem, h1.mem, h.chunks, h1.chunks, h.fences, at.ms, out, into) && SameCover(h.chunks, h1.chunks)
    requires h.top in h.chunks && h1.top in h1.chunks && h1.top + h1.chunks[h1.top].size == h.top + h.chunks[h.top].size
    ensures Arranged(h1, at, segs, live - out + into, system) && LiveKept(h.mem, h1.mem, h.chunks, h1.chunks,
        live - out)
  {
    hide *;
    ArrangedParts(h, at, segs, live, system);
    OwnedPasses(h.mem, h1.mem, h.chunks, h1.chunks, h.fences, at.ms, live, system, out, into);
    SegmentsKept(h.chunks, h1.chunks, h.top, h1.top, h.fences, segs);
    PassesKeeps(h.mem, h1.mem, h.chunks, h1.chunks, h.fences, at.ms, out, into);
    RecordedKeeps(h.mem, h1.mem, h.chunks, h1.chunks, h.fences, at.ms, live, system, out, segs);
    ArrangedIs(h1, at, segs, live - out + into, system);
  }

  lemma PassesKeeps(m: Mem, m1: Mem, c: Chunks, c1: Chunks, fences: set<int>, ms: int, out: set<int>, into: set<int>)
    requires Passes(m, m1, c, c1, fences, ms, out, into)
    ensures KeepsUse(m, m1, c, c1, ms, out)
  {
    hide KeepsUse;
  }

  /** No block lies in the chunks of the allocator. */
  lemma NotSystem(h: Heap, at: Place, segs: seq<Segment>, live: set<int>, system: set<int>, p: int)
    requires Arranged(h, at, segs, live, system) && !(p in h.chunks && h.chunks[p].used)
    ensures p !in system && p !in live
  {
    hide Recorded, Segmented;
  }

  lemma LiveFacts(h: Heap, at: Place, segs: seq<Segment>, live: set<int>, system: set<int>, p: int)
    requires Arranged(h, at, segs, live, system) && p in live
    ensures p in h.chunks && h.chunks[p].used && p !in system && p != at.ms - 16 && p + h.chunks[p].size !in h.fences
  {
    hide Recorded, Segmented;
  }

  // ---- a region behind the top chunk ----

  lemma {:induction false} ArrangedStretched(h: Heap, h1: Heap, at: Place, segs: seq<Segment>, live: set<int>,
      system: set<int>, tb: int, tn: nat)
    requires Arranged(h, at, segs, live, system) && AllBeyond(segs, tb, tn) && h.top in h.chunks
        && !h.chunks[h.top].used && h.chunks[h.top].size > 0
    requires |segs| > 0 && tb == segs[|segs| - 1].base + segs[|segs| - 1].size
    requires h1 == h.(mem := h1.mem, chunks := Stretched(h.chunks, h.top, tn))
        && KeepsUse(h.mem, h1.mem, h.chunks, h1.chunks, at.ms, {})
    ensures Arranged(h1, at, StretchedSegments(segs, tn), live, system)
        && LiveKept(h.mem, h1.mem, h.chunks, h1.chunks, live)
  {
    hide *;
    ArrangedParts(h, at, segs, live, system);
    StretchedOwned(h.chunks, h.top, h.fences, at.ms, live, system, tn);
    StretchedSegmented(h.chunks, h.top, h.fences, segs, tb, tn);
    KeepsLive(h.mem, h1.mem, h.chunks, h1.chunks, h.fences, at.ms, live, system);
    RecordedKeeps(h.mem, h1.mem, h.chunks, h1.chunks, h.fences, at.ms, live, system, {}, segs);
    StretchedRecorded(h1.mem, h1.chunks, system, at.ms, segs, tn);
    ArrangedIs(h1, at, StretchedSegments(segs, tn), live, system);
  }

  // ---- a separate region ----

  lemma {:induction false} ArrangedGrown(h: Heap, h1: Heap, at: Place, segs: seq<Segment>, live: set<int>,
      system: set<int>, tb: int, tn: nat, sp: int)
    requires Ok(h, at, {}) && NoFreePair(h.chunks) && Arranged(h, at, segs, live, system) && AllBeyond(segs, tb, tn)
        && Usable(tb, tn) && tn >= TOP_FOOT
    requires h.top in h.chunks && sp
        == (if h.chunks[h.top].size < MIN_CHUNK then h.top else h.top + h.chunks[h.top].size)
    requires h1.chunks == Extended(h.chunks, h.top, tb, tn) && h1.top == tb && h1.fences == h.fences + {sp + RECORD}
    requires KeepsUse(h.mem, h1.mem, h.chunks, h1.chunks, at.ms, {})
    requires |segs| > 0 && RecordWords(h1.mem, sp, segs)
    ensures sp + RECORD >= segs[|segs| - 1].base && Arranged(h1, at, GrownSegments(segs, sp, tb, tn), live,
        system + {sp})
    ensures LiveKept(h.mem, h1.mem, h.chunks, h1.chunks, live)
  {
    hide *;
    ArrangedParts(h, at, segs, live, system);
    GrowOwners(h, at, segs, live, system, tb, tn, sp);
    KeepsLive(h.mem, h1.mem, h.chunks, h1.chunks, h.fences, at.ms, live, system);
    RecordedKeeps(h.mem, h1.mem, h.chunks, h1.chunks, h.fences, at.ms, live, system, {}, segs);
    RecordChunk(h, at, segs, tb, tn, sp);
    RecordedNew(h1.mem, h1.chunks, system, at.ms, segs, sp, tb, tn);
    ArrangedIs(h1, at, GrownSegments(segs, sp, tb, tn), live, system + {sp});
  }

  /** The record of the segment that was the newest. */
  predicate RecordWords(m: Mem, sp: int, segs: seq<Segment>)
    requires |segs| > 0
  {
    var l := |segs| - 1;
    Get(m, sp + 16) == segs[l].base && Get(m, sp + 24) == segs[l].size && Get(m, sp + 32) == NextRecord(segs, l)
      && Get(m, sp + 40) == segs[l].flags
  }

  lemma RecordedNew(m: Mem, c: Chunks, system: set<int>, ms: int, segs: seq<Segment>, sp: int, tb: int, tn: nat)
    requires Recorded(m, c, system, ms, segs) && |segs| > 0 && sp + RECORD >= segs[|segs| - 1].base && tn >= TOP_FOOT
    requires sp in c && c[sp].size == RECORD && sp != ms - 16 && RecordWords(m, sp, segs)
    ensures Recorded(m, c, system + {sp}, ms, GrownSegments(segs, sp, tb, tn))
  {
    hide Recorded, GrownSegments;
    RecordedGrown(m, c, system, ms, segs, sp, tb, tn);
  }

  lemma {:induction false} RecordChunk(h: Heap, at: Place, segs: seq<Segment>, tb: int, tn: nat, sp: int)
    requires Ok(h, at, {}) && NoFreePair(h.chunks) && Segmented(h.chunks, h.top, h.fences, segs)
        && AllBeyond(segs, tb, tn) && Usable(tb, tn) && tn >= TOP_FOOT
    requires h.top in h.chunks && sp
        == (if h.chunks[h.top].size < MIN_CHUNK then h.top else h.top + h.chunks[h.top].size)
    ensures var d := Extended(h.chunks, h.top, tb, tn);
        sp in d && d[sp].used && d[sp].size == RECORD && sp != at.ms - 16
  {
    hide *;
    GrowReady(h, at, segs, tb, tn);
    ExtShape(h.chunks, h.top, h.fences, tb, tn);
    OkParts(h, at, {});
    TopFacts(h, at, {});
    StateNotRecord(h, at.ms, sp);
  }

  lemma StateNotRecord(h: Heap, ms: int, sp: int)
    requires StateChunk(h, ms) && (sp !in h.chunks || !h.chunks[sp].used)
    ensures sp != ms - 16
  {
  }

  // ---- a region in front of a segment ----

  ghost predicate CoversMore(c: Chunks, c1: Chunks, tb: int, tn: nat) { forall x ::
      Covered(c1, x) <==> Covered(c, x) || tb <= x < tb + tn }

  lemma {:induction false} ArrangedPrepended(h: Heap, h1: Heap, at: Place, segs: seq<Segment>, live: set<int>,
      system: set<int>, j: nat, tb: int, tn: nat)
    requires Owned(h.chunks, h.fences, at.ms, live, system) && Segmented(h.chunks, h.top, h.fences, segs)
        && AllBeyond(segs, tb, tn)
    requires j < |segs| && segs[j].base == tb + tn && Recorded(h.mem, h.chunks, system, at.ms,
        PrependedSegments(segs, j, tb, tn))
    requires tb !in system && h1.fences == h.fences && CoversMore(h.chunks, h1.chunks, tb, tn)
    requires Passes(h.mem, h1.mem, h.chunks, h1.chunks, h.fences, at.ms, {}, {tb})
    requires h.top in h.chunks && h1.top in h1.chunks && h1.top + h1.chunks[h1.top].size == h.top + h.chunks[h.top].size
    ensures Arranged(h1, at, PrependedSegments(segs, j, tb, tn), live + {tb}, system)
        && LiveKept(h.mem, h1.mem, h.chunks, h1.chunks, live)
  {
    hide *;
    OwnedPasses(h.mem, h1.mem, h.chunks, h1.chunks, h.fences, at.ms, live, system, {}, {tb});
    assert live - {} == live;
    CoversParts(h.chunks, h1.chunks, tb, tn);
    PrependedSegmented(h.chunks, h1.chunks, h.top, h1.top, h.fences, segs, j, tb, tn);
    PassesKeeps(h.mem, h1.mem, h.chunks, h1.chunks, h.fences, at.ms, {}, {tb});
    RecordedKeeps(h.mem, h1.mem, h.chunks, h1.chunks, h.fences, at.ms, live, system, {},
      PrependedSegments(segs, j, tb, tn));
    ArrangedIs(h1, at, PrependedSegments(segs, j, tb, tn), live + {tb}, system);
  }

  lemma CoversParts(c: Chunks, c1: Chunks, tb: int, tn: nat)
    requires CoversMore(c, c1, tb, tn)
    ensures forall x :: Covered(c1, x) <==> Covered(c, x) || tb <= x < tb + tn
  {
    hide Covered;
  }

  // ---- the list of the records ----

  /** The address of the record of a segment; that of the newest is in the state record. */
  function Pointer(segs: seq<Segment>, ms: int, i: nat): int
    requires i < |segs|
  {
    if i == |segs| - 1 then ms else RecordOf(segs[i])
  }

  lemma {:induction false} PointerWords(h: Heap, at: Place, segs: seq<Segment>, live: set<int>, system: set<int>,
      i: nat)
    requires Arranged(h, at, segs, live, system) && i < |segs| - 1
    ensures var r := Pointer(segs, at.ms, i);
            && r != at.ms && r - 16 in h.chunks && h.chunks[r - 16].used && h.chunks[r - 16].size == RECORD
              && r - 16 in system && r - 16 !in live
            && Get(h.mem, r) == segs[i].base && Get(h.mem, r + 8) == segs[i].size && Get(h.mem, r + 24) == segs[i].flags
            && Get(h.mem, r + 16) == if i == 0 then 0 else Pointer(segs, at.ms, i - 1)
  {
    hide Segmented;
    assert RecordOk(h.mem, h.chunks, system, at.ms, segs, i);
  }
}
