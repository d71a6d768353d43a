/** The segments of a space of `dlmalloc.c`, each tiled by chunks without a gap, and who owns the chunks in use. */
module HeapSegments {
  import opened HeapWords
  import opened HeapTiling
  import opened HeapState
  import opened HeapMoves
  import opened HeapEdits
  import opened HeapResize
  import opened HeapUse
  import opened HeapGrow

  /** A region of `size` bytes, the first `tiled` of which are chunks; fences or the foot of the top chunk follow. */
  datatype Segment = Segment(base: int, tiled: nat, size: nat, flags: nat)

  ghost predicate InSegments(segs: seq<Segment>, x: int) {
    exists i :: 0 <= i < |segs| && segs[i].base <= x < segs[i].base + segs[i].tiled
  }

  /** The region from `tb` on does not overlap the segment; it may touch it. */
  predicate Beyond(s: Segment, tb: int, tn: nat) { s.base + s.size <= tb || tb + tn <= s.base }

  predicate Spread(segs: seq<Segment>) {
    && (forall i :: 0 <= i < |segs| ==> 0 < segs[i].tiled && segs[i].tiled + 32 <= segs[i].size)
    && (forall i, j :: 0 <= i < j < |segs| ==> Beyond(segs[i], segs[j].base, segs[j].size))
  }

  predicate LastIsTop(c: Chunks, top: int, segs: seq<Segment>) {
    && |segs| > 0 && top in c
    && var s := segs[|segs| - 1]; s.base + s.tiled == top + c[top].size && s.size == s.tiled + TOP_FOOT
  }

  /** There is a fence exactly where the chunks of an older segment end. */
  ghost predicate Fenced(fences: set<int>, segs: seq<Segment>) {
    && (forall f :: f in fences ==> IsLimit(segs, f))
    && (forall i :: 0 <= i < |segs| - 1 ==> Limit(segs[i]) in fences)
  }

  /** Where the chunks of a segment end. */
  function Limit(s: Segment): int { s.base + s.tiled }

  ghost predicate IsLimit(segs: seq<Segment>, f: int) { exists i :: 0 <= i < |segs| - 1 && f == Limit(segs[i]) }

  ghost predicate Tiles(c: Chunks, segs: seq<Segment>) { forall x :: Covered(c, x) <==> InSegments(segs, x) }

  ghost predicate Segmented(c: Chunks, top: int, fences: set<int>, segs: seq<Segment>) {
    Spread(segs) && Tiles(c, segs) && LastIsTop(c, top, segs) && Fenced(fences, segs)
  }

  lemma SegmentsKept(c: Chunks, c1: Chunks, top: int, top1: int, fences: set<int>, segs: seq<Segment>)
    requires Segmented(c, top, fences, segs) && SameCover(c, c1) && top1 in c1 && top in c
        && top1 + c1[top1].size == top + c[top].size
    ensures Segmented(c1, top1, fences, segs)
  {
    hide Covered, InSegments, Fenced, Spread;
  }

  lemma {:induction false} StartSegmented(c: Chunks, base: int, mid: int, capacity: nat, flags: nat)
    requires c.Keys == {base, mid} && c[base].size == mid - base && mid > base
        && mid + c[mid].size == base + capacity - TOP_FOOT && capacity > TOP_FOOT + (mid - base)
    ensures Segmented(c, mid, {}, [Segment(base, capacity - TOP_FOOT, capacity, flags)])
  {
    var segs := [Segment(base, capacity - TOP_FOOT, capacity, flags)];
    forall x ensures Covered(c, x) <==> InSegments(segs, x) {
      if InSegments(segs, x) {
        assert x < mid ==> base in c && base <= x < base + c[base].size;
        assert x >= mid ==> mid in c && mid <= x < mid + c[mid].size;
      }
      if Covered(c, x) {
        var q :| q in c && q <= x < q + c[q].size;
        assert segs[0].base <= x < segs[0].base + segs[0].tiled;
      }
    }
  }

  // ---- a new region ----

  /** A chunk lies within one segment. */
  lemma {:induction false} WithinOne(c: Chunks, segs: seq<Segment>, q: int) returns (i: nat)
    requires Spread(segs) && Tiles(c, segs) && q in c && c[q].size > 0
    ensures i < |segs| && segs[i].base <= q && q + c[q].size <= segs[i].base + segs[i].tiled
  {
    assert Covered(c, q) by { assert q in c && q <= q < q + c[q].size; }
    assert InSegments(segs, q);
    i :| 0 <= i < |segs| && segs[i].base <= q < segs[i].base + segs[i].tiled;
    var e := segs[i].base + segs[i].tiled;
    LimitOutside(segs, i);
    assert !Covered(c, e);
    assert !(q in c && q <= e < q + c[q].size);
  }

  lemma {:induction false} LimitOutside(segs: seq<Segment>, i: nat)
    requires Spread(segs) && i < |segs|
    ensures !InSegments(segs, segs[i].base + segs[i].tiled)
  {
    var e := segs[i].base + segs[i].tiled;
    forall j | 0 <= j < |segs| ensures !(segs[j].base <= e < segs[j].base + segs[j].tiled) {
      assert i < j ==> Beyond(segs[i], segs[j].base, segs[j].size);
      assert j < i ==> Beyond(segs[j], segs[i].base, segs[i].size);
    }
  }

  lemma {:induction false} TopInLast(c: Chunks, top: int, segs: seq<Segment>)
    requires Spread(segs) && Tiles(c, segs) && LastIsTop(c, top, segs) && c[top].size > 0
    ensures segs[|segs| - 1].base <= top
  {
    var i := WithinOne(c, segs, top);
    var l := |segs| - 1;
    if i < l {
      assert Beyond(segs[i], segs[l].base, segs[l].size);
    }
  }

  predicate AllBeyond(segs: seq<Segment>, tb: int, tn: nat) { forall i :: 0 <= i < |segs| ==> Beyond(segs[i], tb, tn) }

  lemma {:induction false} FreshRegion(h: Heap, segs: seq<Segment>, tb: int, tn: nat)
    requires Segmented(h.chunks, h.top, h.fences, segs) && AllBeyond(segs, tb, tn) && Positive(h.chunks)
    requires Usable(tb, tn)
    ensures Fresh(h, tb, tn)
  {
    hide Tiles, Fenced;
    forall q | q in h.chunks ensures q + h.chunks[q].size + 8 <= tb || tb + tn <= q {
      var i := WithinOne(h.chunks, segs, q);
      assert Beyond(segs[i], tb, tn);
    }
    forall f | f in h.fences ensures f < tb || tb + tn <= f {
      FenceBeyond(h.fences, segs, tb, tn, f);
    }
    TopInLast(h.chunks, h.top, segs);
    assert Beyond(segs[|segs| - 1], tb, tn);
  }

  lemma FenceBeyond(fences: set<int>, segs: seq<Segment>, tb: int, tn: nat, f: int)
    requires Fenced(fences, segs) && Spread(segs) && AllBeyond(segs, tb, tn) && f in fences
    ensures f < tb || tb + tn <= f
  {
    assert IsLimit(segs, f);
    var i :| 0 <= i < |segs| - 1 && f == Limit(segs[i]);
    assert Beyond(segs[i], tb, tn);
  }

  /** The segments after `add_segment`, with the record of the old one at `sp`. */
  function GrownSegments(segs: seq<Segment>, sp: int, tb: int, tn: nat): seq<Segment>
    requires |segs| > 0 && sp + RECORD >= segs[|segs| - 1].base && tn >= TOP_FOOT
  {
    var l := |segs| - 1;
    segs[l := segs[l].(tiled := sp + RECORD - segs[l].base)] + [Segment(tb, tn - TOP_FOOT, tn, 0)]
  }

  lemma {:induction false} GrownSpread(segs: seq<Segment>, sp: int, tb: int, tn: nat)
    requires Spread(segs) && AllBeyond(segs, tb, tn) && |segs| > 0 && tn >= TOP_FOOT + 16
    requires var l := segs[|segs| - 1]; l.base <= sp && sp + RECORD + 32 <= l.base + l.size
    ensures Spread(GrownSegments(segs, sp, tb, tn))
  {
    var l, segs1 := |segs| - 1, GrownSegments(segs, sp, tb, tn);
    forall i, j | 0 <= i < j < |segs1| ensures Beyond(segs1[i], segs1[j].base, segs1[j].size) {
      if j <= l {
        assert Beyond(segs[i], segs[j].base, segs[j].size);
      } else {
        assert Beyond(segs[i], tb, tn);
      }
    }
  }

  lemma {:induction false} GrownIn(segs: seq<Segment>, sp: int, tb: int, tn: nat, x: int)
    requires |segs| > 0 && tn >= TOP_FOOT
    requires var l := segs[|segs| - 1]; l.base <= sp <= l.base + l.tiled <= sp + RECORD
    ensures InSegments(GrownSegments(segs, sp, tb, tn), x) <==>
        InSegments(segs, x) || sp <= x < sp + RECORD || tb <= x < tb + tn - TOP_FOOT
  {
    var l, segs1 := |segs| - 1, GrownSegments(segs, sp, tb, tn);
    if InSegments(segs, x) {
      var i :| 0 <= i < |segs| && segs[i].base <= x < segs[i].base + segs[i].tiled;
      assert segs1[i].base <= x < segs1[i].base + segs1[i].tiled;
    }
    if InSegments(segs1, x) {
      var i :| 0 <= i < |segs1| && segs1[i].base <= x < segs1[i].base + segs1[i].tiled;
      if i < l {
        assert segs[i].base <= x < segs[i].base + segs[i].tiled;
      } else if i == l && x < sp {
        assert segs[l].base <= x < segs[l].base + segs[l].tiled;
      }
    }
    assert sp <= x < sp + RECORD ==> segs1[l].base <= x < segs1[l].base + segs1[l].tiled;
    assert tb <= x < tb + tn - TOP_FOOT ==> segs1[l + 1].base <= x < segs1[l + 1].base + segs1[l + 1].tiled;
  }

  lemma {:induction false} GrownFenced(fences: set<int>, segs: seq<Segment>, sp: int, tb: int, tn: nat)
    requires Fenced(fences, segs) && |segs| > 0 && sp + RECORD >= segs[|segs| - 1].base && tn >= TOP_FOOT
    ensures Fenced(fences + {sp + RECORD}, GrownSegments(segs, sp, tb, tn))
  {
    var l, segs1, all := |segs| - 1, GrownSegments(segs, sp, tb, tn), fences + {sp + RECORD};
    assert Limit(segs1[l]) == sp + RECORD;
    forall f | f in all ensures IsLimit(segs1, f) {
      if f in fences {
        assert IsLimit(segs, f);
        var i :| 0 <= i < |segs| - 1 && f == Limit(segs[i]);
        assert f == Limit(segs1[i]);
      }
    }
    forall i | 0 <= i < |segs1| - 1 ensures Limit(segs1[i]) in all {
      assert i < l ==> segs1[i] == segs[i] && Limit(segs[i]) in fences;
    }
  }

  lemma {:induction false} GrownSegmented(c: Chunks, top: int, fences: set<int>, segs: seq<Segment>, tb: int, tn: nat)
    requires Segmented(c, top, fences, segs) && Extensible(c, top, fences, tb, tn) && AllBeyond(segs, tb, tn)
    ensures var sp := if c[top].size < MIN_CHUNK then top else top + c[top].size;
            && sp + RECORD >= segs[|segs| - 1].base
            && Segmented(Extended(c, top, tb, tn), tb, fences + {sp + RECORD}, GrownSegments(segs, sp, tb, tn))
  {
    hide Extended, Spread, Fenced, Covered, InSegments, AllBeyond, Tiles;
    var sp := if c[top].size < MIN_CHUNK then top else top + c[top].size;
    TopInLast(c, top, segs);
    var segs1, d := GrownSegments(segs, sp, tb, tn), Extended(c, top, tb, tn);
    ExtShape(c, top, fences, tb, tn);
    GrownSpread(segs, sp, tb, tn);
    GrownFenced(fences, segs, sp, tb, tn);
    GrownTiles(c, top, fences, segs, tb, tn, sp);
  }

  lemma {:induction false} GrownTiles(c: Chunks, top: int, fences: set<int>, segs: seq<Segment>, tb: int, tn: nat,
      sp: int)
    requires Extensible(c, top, fences, tb, tn) && Tiles(c, segs) && |segs| > 0
        && sp == (if c[top].size < MIN_CHUNK then top else top + c[top].size)
    requires var l := segs[|segs| - 1]; l.base <= sp <= l.base + l.tiled <= sp + RECORD
    ensures Tiles(Extended(c, top, tb, tn), GrownSegments(segs, sp, tb, tn))
  {
    hide Extended, Covered, InSegments, GrownSegments;
    var segs1, d := GrownSegments(segs, sp, tb, tn), Extended(c, top, tb, tn);
    forall x ensures Covered(d, x) <==> InSegments(segs1, x) {
      ExtCover(c, top, fences, tb, tn, x);
      GrownIn(segs, sp, tb, tn, x);
    }
  }

  // ---- owners ----

  /** A chunk in use belongs to a caller or to the allocator itself; before a fence there is one of the latter. */
  ghost predicate Owned(c: Chunks, fences: set<int>, ms: int, live: set<int>, system: set<int>) {
    && (forall p :: p in c && c[p].used ==> p in live || p in system)
    && (forall p :: p in live ==> p in c && c[p].used && p !in system && p + c[p].size !in fences)
    && (forall p :: p in system ==> p in c && c[p].used)
    && ms - 16 in system
  }

  /** The blocks of the callers keep their size and contents. */
  ghost predicate LiveKept(m: Mem, m1: Mem, c: Chunks, c1: Chunks, live: set<int>) {
    forall q :: q in live ==>
      q in c && q in c1 && c1[q].used && c1[q].size == c[q].size && SameFrom(m, m1, q + 16, q + c[q].size + 8)
  }

  lemma {:induction false} OwnedPasses(m: Mem, m1: Mem, c: Chunks, c1: Chunks, fences: set<int>, ms: int,
      live: set<int>, system: set<int>, out: set<int>, into: set<int>)
    requires Owned(c, fences, ms, live, system) && Passes(m, m1, c, c1, fences, ms, out, into) && out <= live
        && into !! system
    ensures Owned(c1, fences, ms, live - out + into, system) && LiveKept(m, m1, c, c1, live - out)
  {
    hide SameFrom;
  }

  lemma KeepsLive(m: Mem, m1: Mem, c: Chunks, c1: Chunks, fences: set<int>, ms: int, live: set<int>, system: set<int>)
    requires Owned(c, fences, ms, live, system) && KeepsUse(m, m1, c, c1, ms, {})
    ensures LiveKept(m, m1, c, c1, live)
  {
    hide SameFrom;
  }

  // ---- the records of the older segments ----

  /** The record of an older segment is in the last chunk of the segment. */
  function RecordOf(s: Segment): int { Limit(s) - 32 }

  /** The list of the segments goes from the newest to the oldest. */
  function NextRecord(segs: seq<Segment>, i: nat): int
    requires i < |segs|
  {
    if i == 0 then 0 else RecordOf(segs[i - 1])
  }

  ghost predicate RecordOk(m: Mem, c: Chunks, system: set<int>, ms: int, segs: seq<Segment>, i: nat)
    requires i < |segs|
  {
    var s, r := segs[i], RecordOf(segs[i]);
    && r - 16 in system && r != ms && r - 16 in c && c[r - 16].size == RECORD
    && Get(m, r) == s.base && Get(m, r + 8) == s.size && Get(m, r + 16) == NextRecord(segs, i)
      && Get(m, r + 24) == s.flags
  }

  ghost predicate Recorded(m: Mem, c: Chunks, system: set<int>, ms: int, segs: seq<Segment>) {
    forall i :: 0 <= i < |segs| - 1 ==> RecordOk(m, c, system, ms, segs, i)
  }

  lemma {:induction false} RecordedKeeps(m: Mem, m1: Mem, c: Chunks, c1: Chunks, fences: set<int>, ms: int,
      live: set<int>, system: set<int>, out: set<int>, segs: seq<Segment>)
    requires Owned(c, fences, ms, live, system) && KeepsUse(m, m1, c, c1, ms, out) && out <= live
        && Recorded(m, c, system, ms, segs)
    ensures Recorded(m1, c1, system, ms, segs)
  {
    hide SameFrom, NextRecord, Limit;
    forall i | 0 <= i < |segs| - 1 ensures RecordOk(m1, c1, system, ms, segs, i) {
      assert RecordOk(m, c, system, ms, segs, i);
      var q := RecordOf(segs[i]) - 16;
      assert q in c && c[q].used && q !in out && q != ms - 16;
      SameWords(m, m1, q + 16);
    }
  }

  lemma SameWords(m: Mem, m1: Mem, r: int)
    requires SameFrom(m, m1, r, r + 40)
    ensures Get(m1, r) == Get(m, r) && Get(m1, r + 8) == Get(m, r + 8) && Get(m1, r + 16) == Get(m, r + 16)
        && Get(m1, r + 24) == Get(m, r + 24)
  {
  }

  /** A new record for the last of the segments. */
  lemma {:induction false} RecordedGrown(m: Mem, c: Chunks, system: set<int>, ms: int, segs: seq<Segment>, sp: int,
      tb: int, tn: nat)
    requires Recorded(m, c, system, ms, segs) && |segs| > 0 && sp + RECORD >= segs[|segs| - 1].base && tn >= TOP_FOOT
    requires sp in c && c[sp].size == RECORD && sp != ms - 16
    requires var s := segs[|segs| - 1];
             && Get(m, sp + 16) == s.base && Get(m, sp + 24) == s.size && Get(m, sp + 40) == s.flags
             && Get(m, sp + 32) == NextRecord(segs, |segs| - 1)
    ensures Recorded(m, c, system + {sp}, ms, GrownSegments(segs, sp, tb, tn))
  {
    var l, segs1 := |segs| - 1, GrownSegments(segs, sp, tb, tn);
    forall i | 0 <= i < |segs1| - 1 ensures RecordOk(m, c, system + {sp}, ms, segs1, i) {
      assert i < l ==> RecordOk(m, c, system, ms, segs, i) && segs1[i] == segs[i];
      assert i > 0 ==> segs1[i - 1] == segs[i - 1];
      assert i == l ==> RecordOf(segs1[i]) == sp + 16;
    }
  }

  lemma {:induction false} OwnedGrown(c: Chunks, top: int, fences: set<int>, ms: int, live: set<int>, system: set<int>,
      tb: int, tn: nat)
    requires Owned(c, fences, ms, live, system) && Extensible(c, top, fences, tb, tn) && Separate(c) && Positive(c)
    ensures var sp := if c[top].size < MIN_CHUNK then top else top + c[top].size;
            sp !in live && Owned(Extended(c, top, tb, tn), fences + {sp + RECORD}, ms, live, system + {sp})
  {
    hide Extended, Separate;
    ExtShape(c, top, fences, tb, tn);
    var d, sp := Extended(c, top, tb, tn), if c[top].size < MIN_CHUNK then top else top + c[top].size;
    var all := fences + {sp + RECORD};
    forall p | p in live ensures p in d && d[p].used && p !in system + {sp} && p + d[p].size !in all {
      assert p in c && c[p].used && p != top && p != sp;
      ApartAt(c, p, top);
    }
  }

  lemma {:induction false} GrowKeeps(m: Mem, m1: Mem, c: Chunks, top: int, fences: set<int>, ms: int, tb: int, tn: nat)
    requires Extensible(c, top, fences, tb, tn) && PayloadsKept(m, m1, c, {top})
    ensures KeepsUse(m, m1, c, Extended(c, top, tb, tn), ms, {})
  {
    hide Extended, SameFrom;
    ExtShape(c, top, fences, tb, tn);
  }

  lemma LiveThen(m: Mem, m1: Mem, m2: Mem, c: Chunks, c1: Chunks, c2: Chunks, live: set<int>, live1: set<int>)
    requires LiveKept(m, m1, c, c1, live) && LiveKept(m1, m2, c1, c2, live1) && live <= live1
    ensures LiveKept(m, m2, c, c2, live)
  {
    forall q | q in live ensures q in c && q in c2 && c2[q].used && c2[q].size == c[q].size
        && SameFrom(m, m2, q + 16, q + c[q].size + 8) {
      SameTwice(m, m1, m2, q + 16, q + c[q].size + 8);
    }
  }

  lemma LiveSame(m: Mem, c: Chunks, fences: set<int>, ms: int, live: set<int>, system: set<int>)
    requires Owned(c, fences, ms, live, system)
    ensures LiveKept(m, m, c, c, live)
  {
  }

  // ---- a further segment, all together ----

  lemma {:induction false} GrowReady(h: Heap, at: Place, segs: seq<Segment>, tb: int, tn: nat)
    requires Ok(h, at, {}) && NoFreePair(h.chunks) && Segmented(h.chunks, h.top, h.fences, segs)
        && AllBeyond(segs, tb, tn)
    requires Usable(tb, tn)
    ensures h.top in h.chunks && Fresh(h, tb, tn) && Extensible(h.chunks, h.top, h.fences, tb, tn) && Positive(h.chunks)
        && Separate(h.chunks)
    ensures (h.top + h.chunks[h.top].size) % 16 == 0
  {
    hide *;
    OkParts(h, at, {});
    TopIn(h, at, {});
    ChunkFacts(h, at, {}, h.top);
    SizedPositive(h.chunks, h.top, at.zone);
    FreshRegion(h, segs, tb, tn);
    IsExtensible(h, at, tb, tn);
    AlignedSum(h.top, h.chunks[h.top].size, 0);
  }

  lemma {:induction false} GrowHeap(h: Heap, at: Place, segs: seq<Segment>, m1: Mem, tb: int, tn: nat, sp: int)
    requires Ok(h, at, {}) && NoFreePair(h.chunks) && h.top in h.chunks && Segmented(h.chunks, h.top, h.fences, segs)
        && AllBeyond(segs, tb, tn)
    requires Usable(tb, tn) && InZone(at.zone, tb, tn) && GrowWords(h, m1, tb, tn)
    requires sp == (if h.chunks[h.top].size < MIN_CHUNK then h.top else h.top + h.chunks[h.top].size)
    ensures var d, fences1, loose1 := Extended(h.chunks, h.top, tb, tn), h.fences + {sp + RECORD},
        if sp == h.top then {} else {h.top};
            && Ok(Heap(m1, d, tb, fences1, h.dv, h.smallmap, h.treemap, h.lists, h.trees), at, loose1) && NoFreePair(d)
            && KeepsUse(h.mem, m1, h.chunks, d, at.ms, {})
  {
    hide *;
    GrowReady(h, at, segs, tb, tn);
    FreshSize(h, tb, tn);
    GrowOk(h, at, m1, tb, tn);
    HeapGrow.GrownIs(h, m1, tb, tn);
    RecordIs(h);
    GrowKeeps(h.mem, m1, h.chunks, h.top, h.fences, at.ms, tb, tn);
    PositiveTop(h.chunks, h.top);
  }

  lemma {:induction false} GrowOwners(h: Heap, at: Place, segs: seq<Segment>, live: set<int>, system: set<int>, tb: int,
      tn: nat, sp: int)
    requires Ok(h, at, {}) && NoFreePair(h.chunks) && h.top in h.chunks && Segmented(h.chunks, h.top, h.fences, segs)
        && AllBeyond(segs, tb, tn)
    requires Owned(h.chunks, h.fences, at.ms, live, system)
    requires Usable(tb, tn)
    requires sp == (if h.chunks[h.top].size < MIN_CHUNK then h.top else h.top + h.chunks[h.top].size)
    ensures var d, fences1 := Extended(h.chunks, h.top, tb, tn), h.fences + {sp + RECORD};
            && Owned(d, fences1, at.ms, live, system + {sp})
            && |segs| > 0 && sp + RECORD >= segs[|segs| - 1].base && Segmented(d, tb, fences1,
              GrownSegments(segs, sp, tb, tn))
  {
    hide *;
    GrowReady(h, at, segs, tb, tn);
    SegmentsSome(h.chunks, h.top, h.fences, segs);
    OwnedGrown(h.chunks, h.top, h.fences, at.ms, live, system, tb, tn);
    GrownSegmented(h.chunks, h.top, h.fences, segs, tb, tn);
  }

  lemma PositiveTop(c: Chunks, p: int)
    requires Positive(c) && p in c
    ensures c[p].size > 0
  {
  }

  lemma SegmentsSome(c: Chunks, top: int, fences: set<int>, segs: seq<Segment>)
    requires Segmented(c, top, fences, segs)
    ensures |segs| > 0
  {
  }

  lemma RecordIs(h: Heap)
    requires h.top in h.chunks
    ensures RecordAt(h) == (if h.chunks[h.top].size < MIN_CHUNK then h.top else h.top + h.chunks[h.top].size)
    ensures LooseGrown(h) == (if h.chunks[h.top].size < MIN_CHUNK then {} else {h.top})
  {
  }
}
