/** A region that touches a segment of a space (`sys_alloc` of `dlmalloc.c`): behind the top chunk it lengthens that
    chunk, and in front of a segment it is used there (`prepend_alloc`). */
module HeapExtend {
  import opened HeapWords
  import opened HeapTiling
  import opened HeapState
  import opened HeapMoves
  import opened HeapEdits
  import opened HeapRelease
  import opened HeapResize
  import opened HeapUse
  import opened HeapGrow
  import opened HeapSegments
  import opened HeapDispose

  // ---- behind the top chunk ----

  function Stretched(c: Chunks, top: int, tn: nat): Chunks
    requires top in c
  {
    c[top := c[top].(size := c[top].size + tn)]
  }

  /** There is room for the longer chunk. */
  predicate Stretchable(c: Chunks, top: int, fences: set<int>, tn: nat) {
    && top in c && !c[top].used && c[top].pinuse && c[top].size >= 16 && tn % 16 == 0 && tn > 0
    && top + c[top].size !in c && top + c[top].size !in fences
    && (forall q :: q in c && q > top ==> q >= top + c[top].size + TOP_FOOT + tn)
    && (forall f :: f in fences && f > top ==> f >= top + c[top].size + TOP_FOOT + tn)
  }

  lemma {:induction false} IsStretchable(h: Heap, at: Place, tb: int, tn: nat)
    requires Ok(h, at, {}) && NoFreePair(h.chunks) && h.top in h.chunks && Fresh(h, tb, tn)
        && tb == h.top + h.chunks[h.top].size + TOP_FOOT
    ensures Stretchable(h.chunks, h.top, h.fences, tn)
  {
    hide Heads, Feet, SmallFilled, TreesFilled, Complete, Separate, Chained, Flagged, Preceded, FencesOutside,
      StateChunk, Special;
  }

  lemma {:induction false} StretchPlaces(c: Chunks, top: int, fences: set<int>, tn: nat, z: Zones)
    requires Stretchable(c, top, fences, tn) && Sized(c, top, z) && Separate(c) && FencesOutside(c, fences)
        && RoomAfter(c, top, fences)
    requires InZone(z, top + c[top].size + TOP_FOOT, tn)
    ensures var d := Stretched(c, top, tn);
        Sized(d, top, z) && Separate(d) && FencesOutside(d, fences) && RoomAfter(d, top, fences)
  {
    hide InZone;
    AlignedSum(c[top].size, tn, 0);
    var d := Stretched(c, top, tn);
    SizedAt(c, top, z, top);
    ZoneJoin(z, top, c[top].size + TOP_FOOT, tn);
    forall f, p | f in fences && p in d ensures f <= p || p + d[p].size <= f {
      assert p in c && (f <= p || p + c[p].size <= f);
    }
  }

  lemma {:induction false} StretchTiled(c: Chunks, top: int, fences: set<int>, tn: nat, z: Zones)
    requires Stretchable(c, top, fences, tn) && Tiled(c, top, fences, z)
        && InZone(z, top + c[top].size + TOP_FOOT, tn)
    ensures Tiled(Stretched(c, top, tn), top, fences, z)
  {
    hide Sized, Separate, FencesOutside, RoomAfter;
    StretchPlaces(c, top, fences, tn, z);
    var d := Stretched(c, top, tn);
    forall q | q in d && !d[q].pinuse ensures HasPrevious(d, q) {
      assert HasPrevious(c, q);
      var r :| r in c && r + c[r].size == q && !c[r].used;
      assert r in d && r + d[r].size == q && !d[r].used;
    }
  }

  /** The head of the longer chunk; the word behind it belongs to no chunk. */
  ghost predicate StretchWords(m: Mem, m1: Mem, top: int, ts: nat, tn: nat) {
    && Get(m1, top + HEAD) == Tag(ts + tn, false, true)
    && forall a :: Get(m1, a) != Get(m, a) ==> a == top + HEAD || a == top + ts + tn + HEAD
  }

  lemma {:induction false} StretchChanges(m: Mem, m1: Mem, c: Chunks, top: int, fences: set<int>, tn: nat)
    requires Stretchable(c, top, fences, tn) && Separate(c) && StretchWords(m, m1, top, c[top].size, tn)
    ensures Changes(m, m1, c, {top}, {})
  {
    assert Owns(c, top, top + HEAD);
    var a := top + c[top].size + tn + HEAD;
    forall p | p in c ensures !Owns(c, p, a) {
      assert p < top ==> p + c[p].size <= top;
    }
    assert Unowned(c, a);
  }

  lemma {:induction false} StretchEdit(h: Heap, h1: Heap, at: Place, tn: nat)
    requires Ok(h, at, {}) && Stretchable(h.chunks, h.top, h.fences, tn)
        && StretchWords(h.mem, h1.mem, h.top, h.chunks[h.top].size, tn)
    requires h1 == h.(mem := h1.mem, chunks := Stretched(h.chunks, h.top, tn))
    ensures Edited(h, h1, {}, {}, {h.top}, {}) && Special(h1, {})
  {
    hide Ok, Changes, Tag, Edited, Kept, Special, Tiled, SmallFilled, TreesFilled, Complete, Heads, Feet, Separate;
    OkParts(h, at, {});
    StretchChanges(h.mem, h1.mem, h.chunks, h.top, h.fences, tn);
    StretchKept(h, h1, tn);
    EditedIs(h, h1, {}, {}, {h.top}, {});
  }

  lemma StretchKept(h: Heap, h1: Heap, tn: nat)
    requires h.top in h.chunks && Special(h, {}) && h1 == h.(mem := h1.mem, chunks := Stretched(h.chunks, h.top, tn))
    ensures Kept(h, h1, {}, {}, {h.top}, {}) && Special(h1, {})
  {
  }

  lemma {:induction false} StretchOk(h: Heap, at: Place, m1: Mem, tn: nat)
    requires Ok(h, at, {}) && NoFreePair(h.chunks) && h.top in h.chunks && Stretchable(h.chunks, h.top, h.fences, tn)
    requires InZone(at.zone, h.top + h.chunks[h.top].size + TOP_FOOT, tn)
        && StretchWords(h.mem, m1, h.top, h.chunks[h.top].size, tn)
    ensures var h1 := h.(mem := m1, chunks := Stretched(h.chunks, h.top, tn));
            Ok(h1, at, {}) && NoFreePair(h1.chunks) && KeepsUse(h.mem, m1, h.chunks, h1.chunks, at.ms, {})
  {
    hide *;
    OkParts(h, at, {});
    TopFacts(h, at, {});
    var h1 := h.(mem := m1, chunks := Stretched(h.chunks, h.top, tn));
    StretchEdit(h, h1, at, tn);
    StretchTiled(h.chunks, h.top, h.fences, tn, at.zone);
    EditedOk(h, h1, at, {}, {}, {h.top}, {});
    EditedPayloads(h, h1, at, {}, {}, {h.top}, {});
    StretchKeeps(h.mem, m1, h.chunks, h.top, at.ms, tn);
  }

  lemma StretchKeeps(m: Mem, m1: Mem, c: Chunks, top: int, ms: int, tn: nat)
    requires top in c && !c[top].used && PayloadsKept(m, m1, c, {top})
    ensures KeepsUse(m, m1, c, Stretched(c, top, tn), ms, {})
    ensures NoFreePair(c) ==> NoFreePair(Stretched(c, top, tn))
  {
    hide SameFrom;
  }

  function StretchedSegments(segs: seq<Segment>, tn: nat): seq<Segment>
    requires |segs| > 0
  {
    var l := |segs| - 1;
    segs[l := segs[l].(tiled := segs[l].tiled + tn, size := segs[l].size + tn)]
  }

  lemma {:induction false} StretchedSpread(segs: seq<Segment>, tb: int, tn: nat)
    requires Spread(segs) && |segs| > 0 && AllBeyond(segs, tb, tn)
        && tb == segs[|segs| - 1].base + segs[|segs| - 1].size
    ensures Spread(StretchedSegments(segs, tn))
  {
    var l, segs1 := |segs| - 1, StretchedSegments(segs, tn);
    forall i, j | 0 <= i < j < |segs1| ensures Beyond(segs1[i], segs1[j].base, segs1[j].size) {
      assert Beyond(segs[i], segs[j].base, segs[j].size) && Beyond(segs[i], tb, tn);
    }
  }

  lemma {:induction false} StretchedTiles(c: Chunks, top: int, segs: seq<Segment>, tn: nat)
    requires Tiles(c, segs) && LastIsTop(c, top, segs) && c[top].size > 0
    ensures Tiles(Stretched(c, top, tn), StretchedSegments(segs, tn))
  {
    var d, segs1, l := Stretched(c, top, tn), StretchedSegments(segs, tn), |segs| - 1;
    var e := top + c[top].size;
    forall x ensures Covered(d, x) <==> InSegments(segs1, x) {
      assert Covered(c, x) <==> InSegments(segs, x);
      StretchedCover(c, top, tn, x);
      StretchedIn(segs, tn, x);
    }
  }

  lemma {:induction false} StretchedCover(c: Chunks, top: int, tn: nat, x: int)
    requires top in c && c[top].size > 0
    ensures Covered(Stretched(c, top, tn), x) <==> Covered(c, x) || top + c[top].size <= x < top + c[top].size + tn
  {
    var d := Stretched(c, top, tn);
    if Covered(c, x) {
      var q :| q in c && q <= x < q + c[q].size;
      assert q in d && q <= x < q + d[q].size;
    }
    if Covered(d, x) && !Covered(c, x) {
      var q :| q in d && q <= x < q + d[q].size;
      assert q in c && !(q <= x < q + c[q].size);
    }
    if top + c[top].size <= x < top + c[top].size + tn {
      assert top in d && top <= x < top + d[top].size;
    }
  }

  lemma {:induction false} StretchedIn(segs: seq<Segment>, tn: nat, x: int)
    requires |segs| > 0
    ensures var e := Limit(segs[|segs| - 1]);
        InSegments(StretchedSegments(segs, tn), x) <==> InSegments(segs, x) || e <= x < e + tn
  {
    var segs1, l := StretchedSegments(segs, tn), |segs| - 1;
    var e := Limit(segs[l]);
    if InSegments(segs, x) {
      var i :| 0 <= i < |segs| && segs[i].base <= x < segs[i].base + segs[i].tiled;
      assert segs1[i].base <= x < segs1[i].base + segs1[i].tiled;
    }
    if InSegments(segs1, x) && !InSegments(segs, x) {
      var i :| 0 <= i < |segs1| && segs1[i].base <= x < segs1[i].base + segs1[i].tiled;
      assert !(segs[i].base <= x < segs[i].base + segs[i].tiled);
    }
    if e <= x < e + tn {
      assert segs1[l].base <= x < segs1[l].base + segs1[l].tiled;
    }
  }

  lemma {:induction false} StretchedSegmented(c: Chunks, top: int, fences: set<int>, segs: seq<Segment>, tb: int,
      tn: nat)
    requires Segmented(c, top, fences, segs) && AllBeyond(segs, tb, tn) && top in c && c[top].size > 0
    requires tb == segs[|segs| - 1].base + segs[|segs| - 1].size
    ensures Segmented(Stretched(c, top, tn), top, fences, StretchedSegments(segs, tn))
  {
    hide Tiles, Spread, InSegments, AllBeyond;
    var segs1 := StretchedSegments(segs, tn);
    StretchedSpread(segs, tb, tn);
    StretchedTiles(c, top, segs, tn);
    forall f | f in fences ensures IsLimit(segs1, f) {
      assert IsLimit(segs, f);
      var i :| 0 <= i < |segs| - 1 && f == Limit(segs[i]);
      assert f == Limit(segs1[i]);
    }
    forall i | 0 <= i < |segs1| - 1 ensures Limit(segs1[i]) in fences {
      assert segs1[i] == segs[i] && Limit(segs[i]) in fences;
    }
  }

  lemma {:induction false} StretchedOwned(c: Chunks, top: int, fences: set<int>, ms: int, live: set<int>,
      system: set<int>, tn: nat)
    requires Owned(c, fences, ms, live, system) && top in c && !c[top].used
    ensures Owned(Stretched(c, top, tn), fences, ms, live, system)
  {
  }

  lemma {:induction false} StretchedRecorded(m: Mem, c1: Chunks, system: set<int>, ms: int, segs: seq<Segment>, tn: nat)
    requires Recorded(m, c1, system, ms, segs) && |segs| > 0
    ensures Recorded(m, c1, system, ms, StretchedSegments(segs, tn))
  {
    var segs1 := StretchedSegments(segs, tn);
    forall i | 0 <= i < |segs1| - 1 ensures RecordOk(m, c1, system, ms, segs1, i) {
      assert RecordOk(m, c1, system, ms, segs, i) && segs1[i] == segs[i];
      assert i > 0 ==> segs1[i - 1] == segs[i - 1];
    }
  }

  // ---- in front of a segment ----

  /** The region as one chunk in use. */
  function Preluded(c: Chunks, tb: int, tn: nat): Chunks { c[tb := Chunk(tn, true, true)] }

  predicate Preludable(c: Chunks, top: int, fences: set<int>, tb: int, tn: nat) {
    && top in c && tb > 0 && tb % 16 == 0 && tn % 16 == 0 && tn >= 32 && tb !in c && tb + tn in c && c[tb + tn].pinuse
    && (forall q :: q in c ==> q + c[q].size + 8 <= tb || tb + tn <= q)
    && (forall f :: f in fences ==> f < tb || tb + tn <= f)
    && (top + c[top].size + TOP_FOOT <= tb || tb + tn <= top)
  }

  lemma {:induction false} IsPreludable(h: Heap, tb: int, tn: nat)
    requires Fresh(h, tb, tn) && h.top in h.chunks && tb + tn in h.chunks && h.chunks[tb + tn].pinuse
    ensures Preludable(h.chunks, h.top, h.fences, tb, tn)
  {
  }

  lemma {:induction false} PreludePlaces(c: Chunks, top: int, fences: set<int>, tb: int, tn: nat, z: Zones)
    requires Preludable(c, top, fences, tb, tn) && Sized(c, top, z) && Separate(c) && InZone(z, tb, tn)
    ensures var d := Preluded(c, tb, tn); Sized(d, top, z) && Separate(d)
  {
    hide InZone;
  }

  lemma {:induction false} PreludeTop(c: Chunks, top: int, fences: set<int>, tb: int, tn: nat)
    requires Preludable(c, top, fences, tb, tn) && TopLast(c, top, fences)
    ensures TopLast(Preluded(c, tb, tn), top, fences)
  {
  }

  lemma {:induction false} PreludeChained(c: Chunks, top: int, fences: set<int>, tb: int, tn: nat)
    requires Preludable(c, top, fences, tb, tn) && Chained(c, top, fences)
    ensures Chained(Preluded(c, tb, tn), top, fences)
  {
  }

  lemma {:induction false} PreludeFlagged(c: Chunks, top: int, fences: set<int>, tb: int, tn: nat)
    requires Preludable(c, top, fences, tb, tn) && Flagged(c)
    ensures Flagged(Preluded(c, tb, tn))
  {
    NoneEnds(c, top, fences, tb, tn);
    hide Preludable;
    var d := Preluded(c, tb, tn);
    forall p | p in d && p + d[p].size in d ensures d[p + d[p].size].pinuse == d[p].used {
      assert p != tb ==> p in c && p + c[p].size != tb;
    }
  }

  lemma NoneEnds(c: Chunks, top: int, fences: set<int>, tb: int, tn: nat)
    requires Preludable(c, top, fences, tb, tn)
    ensures forall p :: p in c ==> p + c[p].size != tb
    ensures tn > 0 && tb !in c && tb + tn in c && c[tb + tn].pinuse
  {
  }

  lemma {:induction false} PreludePreceded(c: Chunks, tb: int, tn: nat)
    requires tb !in c && Preceded(c)
    ensures Preceded(Preluded(c, tb, tn))
  {
    var d := Preluded(c, tb, tn);
    forall q | q in d && !d[q].pinuse ensures HasPrevious(d, q) {
      assert HasPrevious(c, q);
      var r :| r in c && r + c[r].size == q && !c[r].used;
      assert r in d && r + d[r].size == q && !d[r].used;
    }
  }

  lemma {:induction false} PreludeTiled(c: Chunks, top: int, fences: set<int>, tb: int, tn: nat, z: Zones)
    requires Preludable(c, top, fences, tb, tn) && Tiled(c, top, fences, z) && InZone(z, tb, tn)
    ensures Tiled(Preluded(c, tb, tn), top, fences, z)
  {
    hide Sized, Separate, Chained, Flagged, Preceded, TopLast, Preludable, Preluded;
    PreludePlaces(c, top, fences, tb, tn, z);
    PreludeTop(c, top, fences, tb, tn);
    NoneEnds(c, top, fences, tb, tn);
    PreludeChained(c, top, fences, tb, tn);
    PreludeFlagged(c, top, fences, tb, tn);
    PreludePreceded(c, tb, tn);
  }

  lemma {:induction false} PreludeEdit(h: Heap, h1: Heap, loose: set<int>, tb: int, tn: nat)
    requires Preludable(h.chunks, h.top, h.fences, tb, tn) && Special(h, loose)
    requires h1 == h.(mem := h.mem[tb + HEAD := Tag(tn, true, true)], chunks := Preluded(h.chunks, tb, tn))
    ensures Edited(h, h1, loose, loose, {}, {}) && Special(h1, loose)
  {
    hide Tag;
    assert Unowned(h.chunks, tb + HEAD);
  }

  lemma {:induction false} PreludeOk(h: Heap, at: Place, loose: set<int>, tb: int, tn: nat)
    requires Ok(h, at, loose) && NoFreePair(h.chunks) && Preludable(h.chunks, h.top, h.fences, tb, tn)
        && InZone(at.zone, tb, tn)
    ensures var h1 := h.(mem := h.mem[tb + HEAD := Tag(tn, true, true)], chunks := Preluded(h.chunks, tb, tn));
            Ok(h1, at, loose) && NoFreePair(h1.chunks) && PayloadsKept(h.mem, h1.mem, h.chunks, {})
  {
    hide *;
    OkParts(h, at, loose);
    var h1 := h.(mem := h.mem[tb + HEAD := Tag(tn, true, true)], chunks := Preluded(h.chunks, tb, tn));
    PreludeEdit(h, h1, loose, tb, tn);
    PreludeTiled(h.chunks, h.top, h.fences, tb, tn, at.zone);
    EditedOk(h, h1, at, loose, loose, {}, {});
    EditedPayloads(h, h1, at, loose, loose, {}, {});
    PreludeNoPair(h.chunks, tb, tn);
  }

  lemma PreludeNoPair(c: Chunks, tb: int, tn: nat)
    requires NoFreePair(c)
    ensures NoFreePair(Preluded(c, tb, tn))
  {
  }

  /** The same words in another map. */
  ghost predicate SameWord(m: Mem, m1: Mem) { forall a :: Get(m1, a) == Get(m, a) }

  lemma {:induction false} OkSame(h: Heap, at: Place, loose: set<int>, m1: Mem)
    requires Ok(h, at, loose) && SameWord(h.mem, m1)
    ensures Ok(h.(mem := m1), at, loose)
  {
    hide Ok;
    OkParts(h, at, loose);
    var h1 := h.(mem := m1);
    SameEdit(h, h1, loose);
    EditedOk(h, h1, at, loose, loose, {}, {});
  }

  lemma SameEdit(h: Heap, h1: Heap, loose: set<int>)
    requires h1 == h.(mem := h1.mem) && SameWord(h.mem, h1.mem) && Special(h, loose)
    ensures Edited(h, h1, loose, loose, {}, {}) && Special(h1, loose)
  {
  }

  // -- the first part of the region in use, the rest still to be released --

  function CutPrelude(c: Chunks, tb: int, tn: nat, nb: nat): Chunks
    requires nb <= tn
  {
    Split(Preluded(c, tb, tn), tb, nb)
  }

  function CutPreludeHeap(h: Heap, tb: int, tn: nat, nb: nat): Heap
    requires nb <= tn
  {
    h.(mem := InuseSet(InuseSet(h.mem[tb + HEAD := Tag(tn, true, true)], tb, nb), tb + nb, tn - nb),
      chunks := CutPrelude(h.chunks, tb, tn, nb))
  }

  lemma {:induction false} CutPreludeShape(c: Chunks, tb: int, tn: nat, nb: nat)
    requires 0 < nb < tn && tb !in c && tb + nb !in c
    ensures var d, r := CutPrelude(c, tb, tn, nb), tb + nb;
            && d.Keys == c.Keys + {tb, r} && d[tb] == Chunk(nb, true, true) && d[r] == Chunk(tn - nb, true, true)
            && forall q :: q in c ==> d[q] == c[q]
  {
  }

  lemma {:induction false} PreludeCut(h: Heap, at: Place, loose: set<int>, tb: int, tn: nat, nb: nat)
    requires Ok(h, at, loose) && NoFreePair(h.chunks) && Preludable(h.chunks, h.top, h.fences, tb, tn)
        && InZone(at.zone, tb, tn)
    requires nb % 16 == 0 && 32 <= nb && nb + 32 <= tn
    ensures var h2 := CutPreludeHeap(h, tb, tn, nb);
            && tb !in h.chunks && tb + nb !in h.chunks && Ok(h2, at, loose) && NoFreePair(h2.chunks)
            && KeepsUse(h.mem, h2.mem, h.chunks, h2.chunks, at.ms, {})
  {
    hide *;
    OkParts(h, at, loose);
    StateIn(h, at.ms);
    NoneEnds(h.chunks, h.top, h.fences, tb, tn);
    InRegion(h.chunks, h.top, h.fences, tb, tn, nb);
    PreludeOk(h, at, loose, tb, tn);
    var h1 := h.(mem := h.mem[tb + HEAD := Tag(tn, true, true)], chunks := Preluded(h.chunks, tb, tn));
    PreludeIs(h.chunks, tb, tn);
    Cut(h1, at, loose, tb, nb);
    CutPreludeIs(h, tb, tn, nb);
    CutPreludeKeeps(h.mem, h1.mem, CutPreludeHeap(h, tb, tn, nb).mem, h.chunks, at.ms, tb, tn, nb);
  }

  lemma InRegion(c: Chunks, top: int, fences: set<int>, tb: int, tn: nat, nb: nat)
    requires Preludable(c, top, fences, tb, tn) && 0 < nb < tn
    ensures tb + nb !in c
  {
  }

  lemma PreludeIs(c: Chunks, tb: int, tn: nat)
    ensures var d := Preluded(c, tb, tn);
        tb in d && d[tb] == Chunk(tn, true, true) && (tb + tn in c && tn > 0 ==> tb + tn in d) && forall q ::
        q in c && q != tb ==> q in d && d[q] == c[q]
  {
  }

  lemma CutPreludeIs(h: Heap, tb: int, tn: nat, nb: nat)
    requires nb <= tn && tb in Preluded(h.chunks, tb, tn) && nb <= Preluded(h.chunks, tb, tn)[tb].size
    ensures CutPreludeHeap(h, tb, tn, nb) ==
            h.(mem := InuseSet(InuseSet(h.mem[tb + HEAD := Tag(tn, true, true)], tb, nb), tb + nb, tn - nb),
              chunks := Split(Preluded(h.chunks, tb, tn), tb, nb))
    ensures CutPreludeHeap(h, tb, tn, nb).chunks == CutPrelude(h.chunks, tb, tn, nb)
  {
    hide InuseSet, Split, Preluded;
  }

  lemma {:induction false} CutPreludeKeeps(m: Mem, m1: Mem, m2: Mem, c: Chunks, ms: int, tb: int, tn: nat, nb: nat)
    requires PayloadsKept(m, m1, c, {}) && PayloadsKept(m1, m2, Preluded(c, tb, tn), {tb}) && tb !in c && tb + nb !in c
        && 0 < nb < tn
    ensures KeepsUse(m, m2, c, CutPrelude(c, tb, tn, nb), ms, {})
  {
    hide CutPrelude;
    CutPreludeShape(c, tb, tn, nb);
    var d := CutPrelude(c, tb, tn, nb);
    forall q | q in c && c[q].used ensures q in d && d[q].used && d[q].size == c[q].size
        && SameFrom(m, m2, q + 16, q + c[q].size + 8) {
      assert q in Preluded(c, tb, tn) && Preluded(c, tb, tn)[q] == c[q];
      SameTwice(m, m1, m2, q + 16, q + c[q].size + 8);
    }
  }

  /** Memory in which only the head of the rest is missing. */
  lemma {:induction false} CutPreludeWords(m: Mem, tb: int, tn: nat, nb: nat, a: int)
    requires 32 <= nb && nb + 32 <= tn && tn % 16 == 0 && Get(m, tb + HEAD) == Tag(nb, true, true)
        && WithPinuse(Get(m, tb + tn + HEAD), true) == Get(m, tb + tn + HEAD)
    requires a != tb + nb + HEAD
    ensures Get(InuseSet(InuseSet(m[tb + HEAD := Tag(tn, true, true)], tb, nb), tb + nb, tn - nb), a) == Get(m, a)
  {
    hide Tag, WithPinuse, InuseSet, PinuseIn;
    TagBits(tn, true, true);
    TwiceInuse(m[tb + HEAD := Tag(tn, true, true)], tb, nb, tn - nb);
  }

  /** A memory that differs from another at the head of `r` only, and both with that chunk released. */
  lemma {:induction false} FreedSame(m: Mem, m2: Mem, r: int, total: nat)
    requires total >= 16 && forall a :: a != r + HEAD ==> Get(m2, a) == Get(m, a)
    ensures SameWord(FreedBefore(m2, r, total), FreedBefore(m, r, total))
    ensures SameWord(FreedMerged(m2, r, total), FreedMerged(m, r, total))
    ensures SameWord(FreedTop(m2, r, total), FreedTop(m, r, total))
  {
    hide Tag, WithPinuse;
    forall a ensures Get(FreedBefore(m2, r, total), a) == Get(FreedBefore(m, r, total), a)
      && Get(FreedMerged(m2, r, total), a) == Get(FreedMerged(m, r, total), a)
        && Get(FreedTop(m2, r, total), a) == Get(FreedTop(m, r, total), a)
    {
      assert a != r + HEAD ==> Get(m2, a) == Get(m, a);
      assert Get(m2, r + total + HEAD) == Get(m, r + total + HEAD);
    }
  }

  // -- the rest released --

  /** The state with the rest of the region as a chunk in use, but for its head. */
  function RestInUse(h: Heap, tb: int, tn: nat, nb: nat): Heap
    requires nb <= tn
  {
    h.(chunks := CutPrelude(h.chunks, tb, tn, nb))
  }

  lemma PreludableFacts(c: Chunks, top: int, fences: set<int>, tb: int, tn: nat)
    requires Preludable(c, top, fences, tb, tn)
    ensures tb > 0 && tn >= 32 && tn % 16 == 0 && tb !in c && tb + tn in c && top in c && c[tb + tn].pinuse
    ensures forall f :: f in fences ==> f < tb || tb + tn <= f
  {
  }

  lemma {:induction false} RestReleasable(c: Chunks, tb: int, tn: nat, nb: nat, merge: bool)
    requires 0 < nb < tn && tb !in c && tb + nb !in c && tb + tn in c && c[tb + tn].used == !merge && Positive(c)
    ensures var d := CutPrelude(c, tb, tn, nb); Releasable(d, tb + nb, tb + nb, merge) && Positive(d)
  {
    hide CutPrelude;
    CutPreludeShape(c, tb, tn, nb);
  }

  lemma {:induction false} RestDisposable(h: Heap, at: Place, loose: set<int>, tb: int, tn: nat, nb: nat, merge: bool)
    requires Ok(h, at, loose) && NoFreePair(h.chunks) && Preludable(h.chunks, h.top, h.fences, tb, tn)
        && InZone(at.zone, tb, tn)
    requires nb % 16 == 0 && 32 <= nb && nb + 32 <= tn && tb + tn in h.chunks && merge == !h.chunks[tb + tn].used
    requires loose == if merge && tb + tn != h.top && tb + tn != h.dv then {tb + tn} else {}
    ensures Disposable(CutPreludeHeap(h, tb, tn, nb), at, tb + nb, tb + nb, merge)
    ensures KeepsUse(h.mem, CutPreludeHeap(h, tb, tn, nb).mem, h.chunks, CutPreludeHeap(h, tb, tn, nb).chunks, at.ms,
        {})
  {
    hide *;
    PreludableFacts(h.chunks, h.top, h.fences, tb, tn);
    OkParts(h, at, loose);
    OkFlagged(h, at, loose);
    StateIn(h, at.ms);
    TopFacts(h, at, loose);
    PreludeCut(h, at, loose, tb, tn, nb);
    RestReleasable(h.chunks, tb, tn, nb, merge);
    CutPreludeShape(h.chunks, tb, tn, nb);
    RestIs(h, tb, tn, nb);
    var h2 := CutPreludeHeap(h, tb, tn, nb);
    DisposableIs(h2, at, loose, tb + nb, tb + nb, merge);
  }

  lemma RestIs(h: Heap, tb: int, tn: nat, nb: nat)
    requires nb <= tn
    ensures var h1, h2 := RestInUse(h, tb, tn, nb), CutPreludeHeap(h, tb, tn, nb);
            && h1.chunks == CutPrelude(h.chunks, tb, tn, nb) && h2.chunks == h1.chunks && h1 == h2.(mem := h.mem)
              && h1.mem == h.mem
            && h2.top == h.top && h2.dv == h.dv && h2.fences == h.fences && h1 == h.(chunks := h1.chunks)
  {
    hide CutPrelude, InuseSet;
  }

  lemma {:induction false} RestWords(h: Heap, at: Place, loose: set<int>, tb: int, tn: nat, nb: nat)
    requires Ok(h, at, loose) && tb + tn in h.chunks && h.chunks[tb + tn].pinuse && tn % 16 == 0 && 32 <= nb
        && nb + 32 <= tn
    requires Get(h.mem, tb + HEAD) == Tag(nb, true, true)
    ensures forall a :: a != tb + nb + HEAD ==> Get(CutPreludeHeap(h, tb, tn, nb).mem, a) == Get(h.mem, a)
  {
    hide Ok, CutPrelude, Tag, InuseSet, WithPinuse, PinuseIn, SizeIn, UsedIn;
    var o := tb + tn;
    ChunkFacts(h, at, loose, o);
    TagBits(h.chunks[o].size, h.chunks[o].used, true);
    forall a | a != tb + nb + HEAD ensures Get(CutPreludeHeap(h, tb, tn, nb).mem, a) == Get(h.mem, a) {
      CutPreludeWords(h.mem, tb, tn, nb, a);
    }
  }

  /** Two memories that differ at the head of the released chunk only. */
  lemma {:induction false} DisposeSame(h1: Heap, h2: Heap, at: Place, r: int, merge: bool)
    requires Disposable(h2, at, r, r, merge) && h1 == h2.(mem := h1.mem) && Releasable(h1.chunks, r, r, merge)
        && Positive(h1.chunks)
    requires forall a :: a != r + HEAD ==> Get(h2.mem, a) == Get(h1.mem, a)
    ensures var h3 := Disposed(h1, r, r, merge);
            && Ok(h3, at, LeftLoose(h1, r, r, merge)) && NoFreePair(h3.chunks)
            && Passes(h2.mem, h3.mem, h2.chunks, h3.chunks, h2.fences, at.ms, {r}, {})
  {
    hide *;
    DisposableFlagged(h2, at, r, r, merge);
    DisposeOk(h2, at, r, r, merge);
    DisposedIs(h1, h2, r, r, merge);
    DisposedFreed(h1, h2, at, r, merge);
    var h3, h4 := Disposed(h1, r, r, merge), Disposed(h2, r, r, merge);
    OkSame(h4, at, LeftLoose(h1, r, r, merge), h3.mem);
    ReleasedPasses(h2.mem, h4.mem, h2.chunks, h2.fences, at.ms, r, r, merge);
    PassesSame(h2.mem, h4.mem, h3.mem, h2.chunks, h3.chunks, h2.fences, at.ms, {r}, {});
  }

  lemma DisposedFreed(h1: Heap, h2: Heap, at: Place, r: int, merge: bool)
    requires Disposable(h2, at, r, r, merge) && h1 == h2.(mem := h1.mem) && Releasable(h1.chunks, r, r, merge)
    requires forall a :: a != r + HEAD ==> Get(h2.mem, a) == Get(h1.mem, a)
    ensures SameWord(FreedMem(h2, r, r, merge), FreedMem(h1, r, r, merge))
  {
    hide Ok, Get, FreedBefore, FreedMerged, FreedTop, SameWord, Positive, NoFreePair;
    var loose := Neighbours(h2, r, r, merge);
    ChunkFacts(h2, at, loose, r);
    TotalAtLeast(h1.chunks, r, r, merge);
    FreedSame(h1.mem, h2.mem, r, Total(h1.chunks, r, r, merge));
  }

  lemma DisposedIs(h1: Heap, h2: Heap, q: int, p: int, merge: bool)
    requires Releasable(h1.chunks, q, p, merge) && Positive(h1.chunks) && h1 == h2.(mem := h1.mem)
    ensures var d, d2 := Disposed(h1, q, p, merge), Disposed(h2, q, p, merge);
            && d == d2.(mem := d.mem) && d.mem == FreedMem(h1, q, p, merge) && d2.mem == FreedMem(h2, q, p, merge)
            && d.chunks == Released(h1.chunks, q, p, merge) && d2.chunks == d.chunks && d.fences == h1.fences
    ensures LeftLoose(h1, q, p, merge) == LeftLoose(h2, q, p, merge)
  {
    hide Released, FreedMem, Positive, Releasable, FreedHeap;
    FreedFields(h1, q, p, merge);
    FreedFields(h2, q, p, merge);
  }

  lemma FreedFields(h: Heap, q: int, p: int, merge: bool)
    requires Releasable(h.chunks, q, p, merge) && Positive(h.chunks)
    ensures FreedHeap(h, q, p, merge) ==
            Heap(FreedMem(h, q, p, merge), Released(h.chunks, q, p, merge), if merge
              && NextOf(h.chunks, p) == h.top then q else h.top,
                 h.fences, h.dv, h.smallmap, h.treemap, h.lists, h.trees)
  {
    hide Released, FreedMem;
  }

  lemma PassesSame(m: Mem, m3: Mem, m4: Mem, c: Chunks, c1: Chunks, fences: set<int>, ms: int, out: set<int>,
      into: set<int>)
    requires Passes(m, m3, c, c1, fences, ms, out, into) && SameWord(m3, m4)
    ensures Passes(m, m4, c, c1, fences, ms, out, into)
  {
    hide KeepsUse, SameWord;
    KeepsSame(m, m3, m4, c, c1, ms, out);
  }

  /** Seen from before the region was added. */
  lemma {:induction false} PassesRest(m: Mem, m2: Mem, m3: Mem, c: Chunks, c3: Chunks, fences: set<int>, ms: int,
      tb: int, tn: nat, nb: nat)
    requires 0 < nb < tn && tb !in c && tb + nb !in c && forall f :: f in fences ==> f < tb || tb + tn <= f
    requires var c2 := CutPrelude(c, tb, tn, nb);
        KeepsUse(m, m2, c, c2, ms, {}) && Passes(m2, m3, c2, c3, fences, ms, {tb + nb}, {})
    ensures Passes(m, m3, c, c3, fences, ms, {}, {tb}) && tb in c3 && c3[tb].size == nb
  {
    hide CutPrelude, SameFrom;
    CutPreludeShape(c, tb, tn, nb);
    KeepsThen(m, m2, m3, c, CutPrelude(c, tb, tn, nb), c3, ms, {}, {tb + nb});
  }

  lemma KeepsSame(m: Mem, m3: Mem, m4: Mem, c: Chunks, c1: Chunks, ms: int, but: set<int>)
    requires KeepsUse(m, m3, c, c1, ms, but) && SameWord(m3, m4)
    ensures KeepsUse(m, m4, c, c1, ms, but)
  {
    forall q | q in c && c[q].used && q !in but && q != ms - 16 ensures SameFrom(m, m4, q + 16, q + c[q].size + 8) {
    }
  }

  lemma {:induction false} PrependAll(h: Heap, h1: Heap, h3: Heap, at: Place, loose: set<int>, loose3: set<int>,
      tb: int, tn: nat, nb: nat, merge: bool)
    requires 32 <= nb && nb + 32 <= tn && h1 == RestInUse(h, tb, tn, nb)
        && Releasable(h1.chunks, tb + nb, tb + nb, merge) && Positive(h1.chunks)
    requires h3 == Disposed(h1, tb + nb, tb + nb, merge) && loose3 == LeftLoose(h1, tb + nb, tb + nb, merge)
    requires tb + tn in h.chunks && merge == !h.chunks[tb + tn].used && Get(h.mem, tb + HEAD) == Tag(nb, true, true)
    requires Preludable(h.chunks, h.top, h.fences, tb, tn) && InZone(at.zone, tb, tn) && nb % 16 == 0
    requires Ok(h, at, loose) && NoFreePair(h.chunks) && loose == if merge && tb + tn != h.top
        && tb + tn != h.dv then {tb + tn} else {}
    ensures Ok(h3, at, loose3) && NoFreePair(h3.chunks)
    ensures Passes(h.mem, h3.mem, h.chunks, h3.chunks, h.fences, at.ms, {}, {tb}) && tb in h3.chunks
        && h3.chunks[tb].size == nb
  {
    hide *;
    var h2, r := CutPreludeHeap(h, tb, tn, nb), tb + nb;
    PreludableFacts(h.chunks, h.top, h.fences, tb, tn);
    InRegion(h.chunks, h.top, h.fences, tb, tn, nb);
    RestDisposable(h, at, loose, tb, tn, nb, merge);
    RestIs(h, tb, tn, nb);
    RestWords(h, at, loose, tb, tn, nb);
    DisposeSame(h1, h2, at, r, merge);
    PassesRest(h.mem, h2.mem, h3.mem, h.chunks, h3.chunks, h.fences, at.ms, tb, tn, nb);
    PassesInto(h.mem, h3.mem, h.chunks, h3.chunks, h.fences, at.ms, {}, {tb}, tb);
  }

  lemma PassesInto(m: Mem, m1: Mem, c: Chunks, c1: Chunks, fences: set<int>, ms: int, out: set<int>, into: set<int>,
      p: int)
    requires Passes(m, m1, c, c1, fences, ms, out, into) && p in into
    ensures p in c1 && c1[p].used && p + c1[p].size !in fences
  {
    hide KeepsUse, NewUse;
  }

  // -- the segments --

  function PrependedSegments(segs: seq<Segment>, j: nat, tb: int, tn: nat): seq<Segment>
    requires j < |segs|
  {
    segs[j := Segment(tb, segs[j].tiled + tn, segs[j].size + tn, segs[j].flags)]
  }

  lemma {:induction false} PrependedCover(c: Chunks, tb: int, tn: nat, nb: nat, merge: bool, x: int)
    requires 0 < nb < tn && tb !in c && tb + nb !in c && Releasable(CutPrelude(c, tb, tn, nb), tb + nb, tb + nb, merge)
        && Positive(CutPrelude(c, tb, tn, nb))
    ensures Covered(Released(CutPrelude(c, tb, tn, nb), tb + nb, tb + nb, merge), x) <==>
        Covered(c, x) || tb <= x < tb + tn
  {
    hide Released, Split, Positive;
    var d := Preluded(c, tb, tn);
    SplitCover(d, tb, nb);
    ReleasedCover(CutPrelude(c, tb, tn, nb), tb + nb, tb + nb, merge);
    assert Covered(Released(CutPrelude(c, tb, tn, nb), tb + nb, tb + nb, merge), x) <==> Covered(d, x);
    if Covered(c, x) {
      var q :| q in c && q <= x < q + c[q].size;
      assert q in d && q <= x < q + d[q].size;
    }
    if tb <= x < tb + tn {
      assert tb in d && tb <= x < tb + d[tb].size;
    }
    if Covered(d, x) && !(tb <= x < tb + tn) {
      var q :| q in d && q <= x < q + d[q].size;
      assert q in c && q <= x < q + c[q].size;
    }
  }

  lemma {:induction false} PrependedIn(segs: seq<Segment>, j: nat, tb: int, tn: nat, x: int)
    requires j < |segs| && segs[j].base == tb + tn
    ensures InSegments(PrependedSegments(segs, j, tb, tn), x) <==> InSegments(segs, x) || tb <= x < tb + tn
  {
    var segs1 := PrependedSegments(segs, j, tb, tn);
    if InSegments(segs, x) {
      var i :| 0 <= i < |segs| && segs[i].base <= x < segs[i].base + segs[i].tiled;
      assert segs1[i].base <= x < segs1[i].base + segs1[i].tiled;
    }
    if tb <= x < tb + tn {
      assert segs1[j].base <= x < segs1[j].base + segs1[j].tiled;
    }
    if InSegments(segs1, x) && !(tb <= x < tb + tn) {
      var i :| 0 <= i < |segs1| && segs1[i].base <= x < segs1[i].base + segs1[i].tiled;
      assert segs[i].base <= x < segs[i].base + segs[i].tiled;
    }
  }

  lemma {:induction false} PrependedSpread(segs: seq<Segment>, j: nat, tb: int, tn: nat)
    requires Spread(segs) && AllBeyond(segs, tb, tn) && j < |segs| && segs[j].base == tb + tn
    ensures Spread(PrependedSegments(segs, j, tb, tn))
  {
    var segs1 := PrependedSegments(segs, j, tb, tn);
    forall i, k | 0 <= i < k < |segs1| ensures Beyond(segs1[i], segs1[k].base, segs1[k].size) {
      assert Beyond(segs[i], segs[k].base, segs[k].size) && Beyond(segs[i], tb, tn) && Beyond(segs[k], tb, tn);
    }
  }

  lemma {:induction false} PrependedFenced(fences: set<int>, segs: seq<Segment>, j: nat, tb: int, tn: nat)
    requires Fenced(fences, segs) && j < |segs| && segs[j].base == tb + tn
    ensures Fenced(fences, PrependedSegments(segs, j, tb, tn))
  {
    var segs1 := PrependedSegments(segs, j, tb, tn);
    assert forall i :: 0 <= i < |segs| ==> Limit(segs1[i]) == Limit(segs[i]);
    forall f | f in fences ensures IsLimit(segs1, f) {
      assert IsLimit(segs, f);
      var i :| 0 <= i < |segs| - 1 && f == Limit(segs[i]);
      assert f == Limit(segs1[i]);
    }
    forall i | 0 <= i < |segs1| - 1 ensures Limit(segs1[i]) in fences {
      assert Limit(segs[i]) in fences;
    }
  }

  lemma {:induction false} PrependedSegmented(c: Chunks, c3: Chunks, top: int, top3: int, fences: set<int>,
      segs: seq<Segment>, j: nat, tb: int, tn: nat)
    requires Segmented(c, top, fences, segs) && AllBeyond(segs, tb, tn) && j < |segs| && segs[j].base == tb + tn
    requires top in c && top3 in c3 && top3 + c3[top3].size == top + c[top].size
    requires forall x :: Covered(c3, x) <==> Covered(c, x) || tb <= x < tb + tn
    ensures Segmented(c3, top3, fences, PrependedSegments(segs, j, tb, tn))
  {
    hide Spread, InSegments, AllBeyond, Covered, Fenced;
    var segs1 := PrependedSegments(segs, j, tb, tn);
    PrependedSpread(segs, j, tb, tn);
    PrependedFenced(fences, segs, j, tb, tn);
    forall x ensures Covered(c3, x) <==> InSegments(segs1, x) {
      PrependedIn(segs, j, tb, tn, x);
    }
  }

  /** The first chunk of a segment says that the one before it is in use. */
  lemma {:induction false} FirstChunk(c: Chunks, segs: seq<Segment>, j: nat)
    requires Spread(segs) && Tiles(c, segs) && Positive(c) && Preceded(c) && j < |segs|
    ensures segs[j].base in c && c[segs[j].base].pinuse
  {
    var b := segs[j].base;
    assert segs[j].base <= b < segs[j].base + segs[j].tiled;
    assert InSegments(segs, b);
    assert Covered(c, b);
    var q :| q in c && q <= b < q + c[q].size;
    var i := WithinOne(c, segs, q);
    SegmentOf(segs, i, j, b);
    if !c[b].pinuse {
      assert HasPrevious(c, b);
      var p :| p in c && p + c[p].size == b && !c[p].used;
      var k := WithinOne(c, segs, p);
      SegmentBefore(segs, k, j, p);
    }
  }

  lemma ApartPair(segs: seq<Segment>, i: nat, j: nat)
    requires Spread(segs) && i < |segs| && j < |segs|
    ensures i != j ==> segs[i].base + segs[i].size <= segs[j].base || segs[j].base + segs[j].size <= segs[i].base
    ensures 0 < segs[i].tiled < segs[i].size && 0 < segs[j].tiled < segs[j].size
  {
    assert i < j ==> Beyond(segs[i], segs[j].base, segs[j].size);
    assert j < i ==> Beyond(segs[j], segs[i].base, segs[i].size);
  }

  lemma SegmentOf(segs: seq<Segment>, i: nat, j: nat, b: int)
    requires Spread(segs) && i < |segs| && j < |segs| && segs[i].base <= b < segs[i].base + segs[i].tiled
        && b == segs[j].base
    ensures i == j
  {
    ApartPair(segs, i, j);
  }

  lemma SegmentBefore(segs: seq<Segment>, k: nat, j: nat, p: int)
    requires Spread(segs) && k < |segs| && j < |segs| && segs[k].base <= p < segs[j].base
    ensures segs[k].base + segs[k].tiled < segs[j].base
  {
    assert k < j ==> Beyond(segs[k], segs[j].base, segs[j].size);
    assert j < k ==> Beyond(segs[j], segs[k].base, segs[k].size);
  }

  // -- the records --

  /** The words of a record with another base and size. */
  lemma {:induction false} RecordRewritten(m: Mem, m1: Mem, c: Chunks, system: set<int>, ms: int, segs: seq<Segment>,
      j: nat, tb: int, tn: nat)
    requires Recorded(m, c, system, ms, segs) && Spread(segs) && Separate(c) && j < |segs| - 1
        && segs[j].base == tb + tn
    requires var r := RecordOf(segs[j]);
        Get(m1, r) == tb && Get(m1, r + 8) == segs[j].size + tn && forall a ::
        a != r && a != r + 8 ==> Get(m1, a) == Get(m, a)
    ensures Recorded(m1, c, system, ms, PrependedSegments(segs, j, tb, tn))
  {
    var segs1, r := PrependedSegments(segs, j, tb, tn), RecordOf(segs[j]);
    assert RecordOk(m, c, system, ms, segs, j);
    assert forall i :: 0 <= i < |segs| ==> Limit(segs1[i]) == Limit(segs[i]);
    forall i | 0 <= i < |segs1| - 1 ensures RecordOk(m1, c, system, ms, segs1, i) {
      assert RecordOk(m, c, system, ms, segs, i);
      assert NextRecord(segs1, i) == NextRecord(segs, i);
      if i != j {
        RecordsApart(m, c, system, ms, segs, i, j);
      }
    }
  }

  lemma {:induction false} RecordsApart(m: Mem, c: Chunks, system: set<int>, ms: int, segs: seq<Segment>, i: nat,
      j: nat)
    requires Recorded(m, c, system, ms, segs) && Spread(segs) && Separate(c) && i < |segs| - 1 && j < |segs| - 1
        && i != j
    ensures var x, y := RecordOf(segs[i]), RecordOf(segs[j]); x + 48 <= y || y + 48 <= x
  {
    assert RecordOk(m, c, system, ms, segs, i) && RecordOk(m, c, system, ms, segs, j);
    assert i < j ==> Beyond(segs[i], segs[j].base, segs[j].size);
    assert j < i ==> Beyond(segs[j], segs[i].base, segs[i].size);
    var x, y := RecordOf(segs[i]) - 16, RecordOf(segs[j]) - 16;
    assert x != y;
    assert x < y ==> x + c[x].size <= y;
    assert y < x ==> y + c[y].size <= x;
  }

  /** The newest record is not in memory. */
  lemma {:induction false} RecordedNewest(m: Mem, c: Chunks, system: set<int>, ms: int, segs: seq<Segment>, tb: int,
      tn: nat)
    requires Recorded(m, c, system, ms, segs) && |segs| > 0 && segs[|segs| - 1].base == tb + tn
    ensures Recorded(m, c, system, ms, PrependedSegments(segs, |segs| - 1, tb, tn))
  {
    var segs1 := PrependedSegments(segs, |segs| - 1, tb, tn);
    forall i | 0 <= i < |segs1| - 1 ensures RecordOk(m, c, system, ms, segs1, i) {
      assert RecordOk(m, c, system, ms, segs, i) && segs1[i] == segs[i];
      assert i > 0 ==> segs1[i - 1] == segs[i - 1];
    }
  }
}
