/** A further segment for a space (`add_segment` of `dlmalloc.c`): the old top chunk becomes an ordinary free
    chunk, a record of the old segment and fences close it, and the new region becomes the top chunk. */
module HeapGrow {
  import opened HeapWords
  import opened HeapTiling
  import opened HeapState
  import opened HeapMoves
  import opened HeapEdits

  /** Size of the chunk that holds a segment record. */
  const RECORD: nat := 48

  /** A region that can hold a top chunk and its foot. */
  predicate Usable(tb: int, tn: nat) { tb > 0 && tb % 16 == 0 && tn % 16 == 0 && tn > TOP_FOOT }

  /** The region from `tb` on overlaps no segment. */
  predicate Fresh(h: Heap, tb: int, tn: nat) {
    && Usable(tb, tn)
    && (forall q :: q in h.chunks ==> q + h.chunks[q].size + 8 <= tb || tb + tn <= q)
    && (forall f :: f in h.fences ==> f < tb || tb + tn <= f)
    && (h.top in h.chunks ==> h.top + h.chunks[h.top].size + TOP_FOOT <= tb || tb + tn <= h.top)
  }

  /** Where the record goes: behind the old top chunk, or in its place if it is too small for a chunk. */
  function RecordAt(h: Heap): int
    requires h.top in h.chunks
  {
    if h.chunks[h.top].size < MIN_CHUNK then h.top else h.top + h.chunks[h.top].size
  }

  function Extended(c: Chunks, top: int, tb: int, tn: nat): Chunks
    requires top in c && tn >= TOP_FOOT
  {
    if c[top].size < MIN_CHUNK then c[top := Chunk(RECORD, true, true)][tb := Chunk(tn - TOP_FOOT, false, true)]
    else c[top + c[top].size := Chunk(RECORD, true, false)][tb := Chunk(tn - TOP_FOOT, false, true)]
  }

  function GrownHeap(h: Heap, m1: Mem, tb: int, tn: nat): Heap
    requires h.top in h.chunks && tn >= TOP_FOOT
  {
    h.(mem := m1, chunks := Extended(h.chunks, h.top, tb, tn), top := tb, fences := h.fences + {RecordAt(h) + RECORD})
  }

  /** The facts about the old segment that matter. */
  predicate Extensible(c: Chunks, top: int, fences: set<int>, tb: int, tn: nat) {
    && top in c && !c[top].used && c[top].pinuse && c[top].size >= 16 && top % 16 == 0 && c[top].size % 16 == 0
      && top + c[top].size !in c
    && top > 0 && tb > 0 && tb % 16 == 0 && tn % 16 == 0 && tn >= TOP_FOOT + 16 && tb !in c
    && (forall q :: q in c ==> q + c[q].size + 8 <= tb || tb + tn <= q)
    && (forall f :: f in fences ==> f < tb || tb + tn <= f)
    && (top + c[top].size + TOP_FOOT <= tb || tb + tn <= top)
    && (forall q :: q in c && q > top ==> q >= top + c[top].size + TOP_FOOT)
    && (forall f :: f in fences && f > top ==> f >= top + c[top].size + TOP_FOOT)
  }

  lemma ExtShape(c: Chunks, top: int, fences: set<int>, tb: int, tn: nat)
    requires Extensible(c, top, fences, tb, tn)
    ensures var d, small := Extended(c, top, tb, tn), c[top].size < MIN_CHUNK;
            var sp := if small then top else top + c[top].size;
            && d.Keys == c.Keys + {sp, tb} && sp != tb && d[sp] == Chunk(RECORD, true, small)
              && d[tb] == Chunk(tn - TOP_FOOT, false, true)
            && (!small ==> sp !in c && d[top] == c[top]) && forall q :: q in c && q != sp ==> d[q] == c[q]
  {
  }

  lemma {:induction false} ExtSized(c: Chunks, top: int, fences: set<int>, tb: int, tn: nat, z: Zones)
    requires Extensible(c, top, fences, tb, tn) && Sized(c, top, z) && InZone(z, tb, tn)
    ensures Sized(Extended(c, top, tb, tn), tb, z)
  {
    hide Extended;
    ExtShape(c, top, fences, tb, tn);
    AlignedSum(top, c[top].size, tn);
    AlignedSum(tn, TOP_FOOT, tn);
  }

  lemma {:induction false} ExtSeparate(c: Chunks, top: int, fences: set<int>, tb: int, tn: nat)
    requires Extensible(c, top, fences, tb, tn) && Separate(c)
    ensures Separate(Extended(c, top, tb, tn))
  {
    hide Extended;
    ExtShape(c, top, fences, tb, tn);
    var d, small := Extended(c, top, tb, tn), c[top].size < MIN_CHUNK;
    var sp := if small then top else top + c[top].size;
    forall x, y | x in d && y in d && x < y ensures x + d[x].size <= y {
      if x == tb {
        assert y in c || y == sp;
      } else if x == sp {
        assert y == tb || y in c;
        assert y in c ==> y > top;
      } else if y == tb {
      } else if y == sp {
        assert x in c && x <= top;
        assert x < top ==> x + c[x].size <= top;
      } else {
        assert x in c && y in c && x + c[x].size <= y;
      }
    }
  }

  lemma {:induction false} ExtChained(c: Chunks, top: int, fences: set<int>, tb: int, tn: nat)
    requires Extensible(c, top, fences, tb, tn) && Chained(c, top, fences)
    ensures var sp := if c[top].size < MIN_CHUNK then top else top + c[top].size;
            Chained(Extended(c, top, tb, tn), tb, fences + {sp + RECORD})
  {
    hide Extended;
    ExtShape(c, top, fences, tb, tn);
    var d, small := Extended(c, top, tb, tn), c[top].size < MIN_CHUNK;
    var sp := if small then top else top + c[top].size;
    forall p | p in d && p != tb ensures p + d[p].size in d || (d[p].used && p + d[p].size in fences + {sp + RECORD}) {
      if p == sp {
      } else if p == top {
        assert top + d[top].size == sp;
      } else {
        assert p in c && p != top && d[p] == c[p];
      }
    }
  }

  /** No chunk starts where one of the new chunks ends, and none ends where the new region starts. */
  lemma {:induction false} ExtEnds(c: Chunks, top: int, fences: set<int>, tb: int, tn: nat, sp: int)
    requires Extensible(c, top, fences, tb, tn) && sp == (if c[top].size < MIN_CHUNK then top else top + c[top].size)
    ensures sp + RECORD !in c && sp + RECORD != tb && tb + tn - TOP_FOOT !in c && tb + tn - TOP_FOOT != sp
        && tb + tn - TOP_FOOT != tb
    ensures forall p :: p in c ==> p + c[p].size != tb
  {
  }

  lemma {:induction false} ExtFlagged(c: Chunks, top: int, fences: set<int>, tb: int, tn: nat)
    requires Extensible(c, top, fences, tb, tn) && Flagged(c) && Separate(c)
    ensures Flagged(Extended(c, top, tb, tn))
  {
    hide Extended;
    ExtShape(c, top, fences, tb, tn);
    var d, small := Extended(c, top, tb, tn), c[top].size < MIN_CHUNK;
    var sp := if small then top else top + c[top].size;
    ExtEnds(c, top, fences, tb, tn, sp);
    hide Extensible;
    forall p | p in d && p + d[p].size in d ensures d[p + d[p].size].pinuse == d[p].used {
      ExtOld(c, d, top, fences, tb, tn, sp, p);
    }
  }

  lemma {:induction false} ExtOld(c: Chunks, d: Chunks, top: int, fences: set<int>, tb: int, tn: nat, sp: int, p: int)
    requires Extensible(c, top, fences, tb, tn) && Flagged(c) && Separate(c)
        && sp == (if c[top].size < MIN_CHUNK then top else top + c[top].size)
    requires d.Keys == c.Keys + {sp, tb} && d[sp] == Chunk(RECORD, true, c[top].size < MIN_CHUNK)
        && d[tb].size == tn - TOP_FOOT
    requires forall q :: q in c && q != sp ==> d[q] == c[q]
    requires sp + RECORD !in c && sp + RECORD != tb && tb + tn - TOP_FOOT !in c && tb + tn - TOP_FOOT != sp
        && tb + tn - TOP_FOOT != tb
    requires forall p :: p in c ==> p + c[p].size != tb
    requires p in d && p + d[p].size in d
    ensures d[p + d[p].size].pinuse == d[p].used
  {
    var e := p + d[p].size;
    assert p != sp && p != tb;
    assert p in c && d[p] == c[p];
    if e == sp && sp != top {
      OnlyTopEnds(c, top, p);
    } else {
      assert e in c && c[e].pinuse == c[p].used;
    }
  }

  lemma OnlyTopEnds(c: Chunks, top: int, p: int)
    requires Separate(c) && top in c && p in c && c[top].size > 0 && p + c[p].size == top + c[top].size
    requires forall q :: q in c && q > top ==> q >= top + c[top].size + TOP_FOOT
    ensures p == top
  {
  }

  lemma {:induction false} ExtPreceded(c: Chunks, top: int, fences: set<int>, tb: int, tn: nat)
    requires Extensible(c, top, fences, tb, tn) && Preceded(c)
    ensures Preceded(Extended(c, top, tb, tn))
  {
    hide Extended;
    ExtShape(c, top, fences, tb, tn);
    var d, small := Extended(c, top, tb, tn), c[top].size < MIN_CHUNK;
    var sp := if small then top else top + c[top].size;
    forall q | q in d && !d[q].pinuse ensures HasPrevious(d, q) {
      if q == sp {
        assert top in d && top + d[top].size == q && !d[top].used;
      } else {
        assert HasPrevious(c, q);
        var r :| r in c && r + c[r].size == q && !c[r].used;
        assert r in d && r + d[r].size == q && !d[r].used;
      }
    }
  }

  lemma {:induction false} ExtFences(c: Chunks, d: Chunks, top: int, fences: set<int>, tb: int, tn: nat, sp: int)
    requires Extensible(c, top, fences, tb, tn) && Separate(c) && FencesOutside(c, fences)
        && sp == (if c[top].size < MIN_CHUNK then top else top + c[top].size)
    requires d.Keys == c.Keys + {sp, tb} && d[sp].size == RECORD && d[tb].size == tn - TOP_FOOT && forall q ::
        q in c && q != sp ==> d[q] == c[q]
    ensures FencesOutside(d, fences + {sp + RECORD})
  {
    assert forall p :: p in c && p < top ==> p + c[p].size <= top;
    var all := fences + {sp + RECORD};
    forall f, p | f in all && p in d ensures f <= p || p + d[p].size <= f {
      if p != tb && p != sp {
        assert p in c && d[p] == c[p];
      }
    }
  }

  lemma {:induction false} ExtRoom(c: Chunks, d: Chunks, top: int, fences: set<int>, tb: int, tn: nat, sp: int)
    requires Extensible(c, top, fences, tb, tn) && sp == (if c[top].size < MIN_CHUNK then top else top + c[top].size)
    requires d.Keys == c.Keys + {sp, tb} && d[sp].size == RECORD && d[tb].size == tn - TOP_FOOT && forall q ::
        q in c && q != sp ==> d[q] == c[q]
    ensures RoomAfter(d, tb, fences + {sp + RECORD})
  {
  }

  lemma {:induction false} ExtTop(c: Chunks, top: int, fences: set<int>, tb: int, tn: nat)
    requires Extensible(c, top, fences, tb, tn) && Separate(c) && TopLast(c, top, fences)
    ensures var sp := if c[top].size < MIN_CHUNK then top else top + c[top].size;
            TopLast(Extended(c, top, tb, tn), tb, fences + {sp + RECORD})
  {
    hide Extended, Separate, FencesOutside, RoomAfter;
    ExtShape(c, top, fences, tb, tn);
    var d, small := Extended(c, top, tb, tn), c[top].size < MIN_CHUNK;
    var sp := if small then top else top + c[top].size;
    ExtEnds(c, top, fences, tb, tn, sp);
    ExtFences(c, d, top, fences, tb, tn, sp);
    ExtRoom(c, d, top, fences, tb, tn, sp);
  }

  lemma {:induction false} ExtTiled(c: Chunks, top: int, fences: set<int>, tb: int, tn: nat, z: Zones)
    requires Tiled(c, top, fences, z) && Extensible(c, top, fences, tb, tn) && InZone(z, tb, tn)
    ensures var sp := if c[top].size < MIN_CHUNK then top else top + c[top].size;
            Tiled(Extended(c, top, tb, tn), tb, fences + {sp + RECORD}, z)
  {
    hide Extended, Separate, Sized, Chained, Flagged, Preceded, TopLast, Extensible;
    ExtSized(c, top, fences, tb, tn, z);
    ExtSeparate(c, top, fences, tb, tn);
    ExtChained(c, top, fences, tb, tn);
    ExtFlagged(c, top, fences, tb, tn);
    ExtPreceded(c, top, fences, tb, tn);
    ExtTop(c, top, fences, tb, tn);
  }

  // ---- the state after the stores ----

  /** What the stores leave. */
  ghost predicate GrowWords(h: Heap, m1: Mem, tb: int, tn: nat)
    requires h.top in h.chunks && tn >= TOP_FOOT
  {
    var ts, sp, small := h.chunks[h.top].size, RecordAt(h), h.chunks[h.top].size < MIN_CHUNK;
    && (forall a :: Get(m1, a) != Get(h.mem, a) ==> h.top + 8 <= a < h.top + ts + TOP_FOOT || tb <= a < tb + tn)
    && Get(m1, sp + HEAD) == Tag(RECORD, true, small) && Get(m1, tb + HEAD) == Tag(tn - TOP_FOOT, false, true)
    && (!small ==> Get(m1, h.top + HEAD) == Tag(ts, false, true) && Get(m1, h.top + ts) == ts)
  }

  lemma {:induction false} IsExtensible(h: Heap, at: Place, tb: int, tn: nat)
    requires Ok(h, at, {}) && NoFreePair(h.chunks) && h.top in h.chunks && Fresh(h, tb, tn)
    ensures Extensible(h.chunks, h.top, h.fences, tb, tn)
  {
    hide Heads, Feet, SmallFilled, TreesFilled, Complete, Separate, Chained, Flagged, Preceded, FencesOutside,
      StateChunk, Special;
    FreshAligned(tn);
    assert tb !in h.chunks;
  }

  lemma FreshSize(h: Heap, tb: int, tn: nat)
    requires Fresh(h, tb, tn)
    ensures tn >= TOP_FOOT && TOP_FOOT == 80
  {
  }

  lemma FreshAligned(tn: nat)
    requires tn % 16 == 0 && tn > TOP_FOOT
    ensures tn >= TOP_FOOT + 16
  {
    var k := tn / 16;
    assert tn == 16 * k && TOP_FOOT == 16 * 5;
  }

  lemma {:induction false} GrowChanges(h: Heap, m1: Mem, tb: int, tn: nat)
    requires Extensible(h.chunks, h.top, h.fences, tb, tn) && Separate(h.chunks) && GrowWords(h, m1, tb, tn)
    ensures Changes(h.mem, m1, h.chunks, {h.top}, {})
  {
    var c, top, ts := h.chunks, h.top, h.chunks[h.top].size;
    forall a | Get(m1, a) != Get(h.mem, a) ensures (exists p :: p in {top} && Owns(c, p, a)) || Unowned(c, a) {
      if top + 8 <= a < top + ts + 8 {
        assert Owns(c, top, a);
      } else {
        forall p | p in c ensures !Owns(c, p, a) {
          assert p < top ==> p + c[p].size <= top;
        }
      }
    }
  }

  function LooseGrown(h: Heap): set<int>
    requires h.top in h.chunks
  {
    if h.chunks[h.top].size < MIN_CHUNK then {} else {h.top}
  }

  lemma {:induction false} GrowKept(h: Heap, m1: Mem, tb: int, tn: nat)
    requires Extensible(h.chunks, h.top, h.fences, tb, tn) && Special(h, {})
    ensures var h1 := GrownHeap(h, m1, tb, tn);
        Kept(h, h1, {}, LooseGrown(h), {h.top}, {}) && Special(h1, LooseGrown(h))
  {
    hide Extended;
    ExtShape(h.chunks, h.top, h.fences, tb, tn);
  }

  lemma {:induction false} GrowPlaced(h: Heap, m1: Mem, tb: int, tn: nat)
    requires Extensible(h.chunks, h.top, h.fences, tb, tn) && GrowWords(h, m1, tb, tn)
    ensures var h1 := GrownHeap(h, m1, tb, tn);
        forall q :: q in h1.chunks && (q !in h.chunks || q == h.top) ==> Placed(h1, LooseGrown(h), q)
  {
    hide Extended, Tag;
    ExtShape(h.chunks, h.top, h.fences, tb, tn);
  }

  lemma {:induction false} GrowOk(h: Heap, at: Place, m1: Mem, tb: int, tn: nat)
    requires Ok(h, at, {}) && NoFreePair(h.chunks) && h.top in h.chunks && Fresh(h, tb, tn)
        && InZone(at.zone, tb, tn) && GrowWords(h, m1, tb, tn)
    ensures var h1 := GrownHeap(h, m1, tb, tn);
            Ok(h1, at, LooseGrown(h)) && NoFreePair(h1.chunks) && PayloadsKept(h.mem, m1, h.chunks, {h.top})
  {
    hide *;
    OkParts(h, at, {});
    TopFacts(h, at, {});
    IsExtensible(h, at, tb, tn);
    FreshSize(h, tb, tn);
    var h1, loose1 := GrownHeap(h, m1, tb, tn), LooseGrown(h);
    GrownIs(h, m1, tb, tn);
    GrowChanges(h, m1, tb, tn);
    GrowKept(h, m1, tb, tn);
    GrowPlaced(h, m1, tb, tn);
    LooseNotWaiting(h, {}, h.top);
    EditedIs(h, h1, {}, loose1, {h.top}, {});
    ExtTiled(h.chunks, h.top, h.fences, tb, tn, at.zone);
    EditedOk(h, h1, at, {}, loose1, {h.top}, {});
    EditedPayloads(h, h1, at, {}, loose1, {h.top}, {});
    ExtNoPair(h.chunks, h.top, h.fences, tb, tn);
  }

  lemma GrownIs(h: Heap, m1: Mem, tb: int, tn: nat)
    requires h.top in h.chunks && tn >= TOP_FOOT
    ensures var h1 := GrownHeap(h, m1, tb, tn);
            && h1.mem == m1 && h1.chunks == Extended(h.chunks, h.top, tb, tn) && h1.top == tb && h1.dv == h.dv
            && h1.lists == h.lists && h1.trees == h.trees && h1.smallmap == h.smallmap && h1.treemap == h.treemap
            && h1.fences == h.fences
              + {(if h.chunks[h.top].size < MIN_CHUNK then h.top else h.top + h.chunks[h.top].size) + RECORD}
  {
  }

  lemma ExtNoPair(c: Chunks, top: int, fences: set<int>, tb: int, tn: nat)
    requires Extensible(c, top, fences, tb, tn) && NoFreePair(c)
    ensures NoFreePair(Extended(c, top, tb, tn))
  {
    hide Extended;
    ExtShape(c, top, fences, tb, tn);
  }

  // ---- the memory taken up ----

  lemma {:induction false} ExtCover(c: Chunks, top: int, fences: set<int>, tb: int, tn: nat, x: int)
    requires Extensible(c, top, fences, tb, tn)
    ensures var sp := if c[top].size < MIN_CHUNK then top else top + c[top].size;
            Covered(Extended(c, top, tb, tn), x) <==>
              Covered(c, x) || sp <= x < sp + RECORD || tb <= x < tb + tn - TOP_FOOT
  {
    hide Extended;
    ExtShape(c, top, fences, tb, tn);
    var d, sp := Extended(c, top, tb, tn), if c[top].size < MIN_CHUNK then top else top + c[top].size;
    if Covered(d, x) {
      var q :| q in d && q <= x < q + d[q].size;
      if q != sp && q != tb {
        assert q in c && q <= x < q + c[q].size;
      }
    }
    if Covered(c, x) {
      var q :| q in c && q <= x < q + c[q].size;
      if q != sp {
        assert q in d && q <= x < q + d[q].size;
      } else {
        assert sp in d && sp <= x < sp + d[sp].size;
      }
    }
    if sp <= x < sp + RECORD { assert sp in d && sp <= x < sp + d[sp].size; }
    if tb <= x < tb + tn - TOP_FOOT { assert tb in d && tb <= x < tb + d[tb].size; }
  }
}
