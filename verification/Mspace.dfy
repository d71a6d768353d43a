/** The space allocator of `dlmalloc.c`: `mspace_malloc`, `mspace_free` and `mspace_realloc` over one flat memory of
    words. Chunks, their tags, the links of free chunks, the bin headers and the callers' data all live in it. */
module Mspace {
  import opened BinIndex
  import opened BinMaps
  import opened SizeTrie
  import opened HeapWords
  import opened HeapTiling
  import opened TreeLinks
  import opened TreeInsert
  import opened TreeRemove
  import opened TreeSearch
  import opened SmallBins
  import opened HeapState
  import opened HeapStart
  import opened HeapMoves
  import opened HeapEdits
  import opened HeapRelease
  import opened HeapResize
  import opened HeapUse
  import opened HeapGrow
  import opened HeapSegments
  import opened HeapDispose
  import opened HeapPasses
  import opened HeapExtend
  import opened HeapArrange
  import opened HeapFacts
  import opened HeapStores

  /** `struct malloc_state`: the fields that are not words of the state record in memory. */
  class Space {
    const words: Words
    /** Address of the state record. */
    const ms: int
    ghost const zone: Zones
    var smallmap: bv32
    var treemap: bv32
    var dv: int
    var dvsize: nat
    var top: int
    var topsize: nat
    /** The newest segment record (`m->seg`); older ones are in memory. */
    var seg: Record
    ghost var chunks: Chunks
    ghost var fences: set<int>
    ghost var lists: seq<seq<int>>
    ghost var trees: seq<Tree>
    /** The chunks of the callers, those of the allocator itself, and all segments. */
    ghost var live: set<int>
    ghost var system: set<int>
    ghost var segments: seq<Segment>

    ghost function State(): Heap
      reads this`chunks, this`top, this`fences, this`dv, this`smallmap, this`treemap, this`lists, this`trees, words
    {
      Heap(words.mem, chunks, top, fences, dv, smallmap, treemap, lists, trees)
    }

    ghost function At(): Place
    {
      Place(ms, zone)
    }

    ghost predicate Measures()
      reads this`chunks, this`top, this`topsize, this`dv, this`dvsize
    {
      && top in chunks && topsize == chunks[top].size
      && (if dv == 0 then dvsize == 0 else dv in chunks && dvsize == chunks[dv].size)
    }

    /** All is in order, but for the free chunks `loose` that are on their way to a bin or out of one. */
    ghost predicate Steady(loose: set<int>)
      reads this`chunks, this`top, this`fences, this`dv, this`smallmap, this`treemap, this`lists, this`trees,
          this`topsize, this`dvsize, words
    {
      Ok(State(), At(), loose) && NoFreePair(chunks) && Measures()
    }

    lemma StateIs()
      ensures State() == Heap(words.mem, chunks, top, fences, dv, smallmap, treemap, lists, trees)
          && At() == Place(ms, zone)
    {
    }

    lemma SteadyParts(loose: set<int>)
      requires Steady(loose)
      ensures State() == Heap(words.mem, chunks, top, fences, dv, smallmap, treemap, lists, trees)
          && At() == Place(ms, zone)
      ensures Ok(State(), At(), loose) && NoFreePair(chunks)
      ensures top in chunks && topsize == chunks[top].size && (if dv
          == 0 then dvsize == 0 else dv in chunks && dvsize == chunks[dv].size)
    {
      hide Ok, NoFreePair;
    }

    lemma SteadyIs(loose: set<int>)
      requires Ok(Heap(words.mem, chunks, top, fences, dv, smallmap, treemap, lists, trees), Place(ms, zone), loose)
          && NoFreePair(chunks)
      requires top in chunks && topsize == chunks[top].size && (if dv
          == 0 then dvsize == 0 else dv in chunks && dvsize == chunks[dv].size)
      ensures Steady(loose)
    {
      hide Ok, NoFreePair;
    }

    /** What holds between calls. */
    ghost predicate Valid()
      reads this, words
    {
      && Steady({}) && Arranged(State(), At(), segments, live, system)
      && Listed(seg, segments)
    }

    lemma ValidParts()
      requires Valid()
      ensures Steady({}) && Arranged(State(), At(), segments, live, system) && Listed(seg, segments)
    {
      hide Steady, Arranged, Listed;
    }

    lemma ValidIs()
      requires Steady({}) && Arranged(State(), At(), segments, live, system) && Listed(seg, segments)
      ensures Valid()
    {
      hide Steady, Arranged, Listed;
    }

    /** `create_mspace_with_base` on a region that is large enough. */
    constructor (w: Words, base: int, capacity: nat, ghost zone: Zones)
      requires base > 0 && base % 16 == 0 && capacity % 16 == 0 && capacity > STATE_SIZE + TOP_FOOT
      requires InZone(zone, base, capacity)
      modifies w
      ensures words == w && ms == base + 16 && this.zone == zone
      ensures Valid() && live == {} && segments == [Segment(base, capacity - TOP_FOOT, capacity, EXTERN_BIT)]
          && fresh(this)
    {
      hide *;
      StartSize(capacity);
      words, ms, this.zone := w, base + 16, zone;
      smallmap, treemap, dv, dvsize := 0, 0, 0, 0;
      top, topsize := base + STATE_SIZE, capacity - STATE_SIZE - TOP_FOOT;
      seg := Record(base, capacity, 0, EXTERN_BIT);
      chunks, fences := StartChunks(base, capacity - STATE_SIZE - TOP_FOOT), {};
      lists, trees := EmptyLists(), EmptyTrees();
      live, system, segments := {}, {base}, [Segment(base, capacity - TOP_FOOT, capacity, EXTERN_BIT)];
      new;
      InitWords(words, base, topsize);
      StartOk(words.mem, base, topsize, zone);
      StartTiled(base, topsize, zone);
      StartKeys(base, topsize);
      StartArranged(words.mem, base, topsize, capacity, zone);
      SteadyIs({});
      SteadyParts({});
      ValidIs();
    }

    // ---- the bins ----

    /** `insert_small_chunk`. */
    method InsertSmallChunk(p: int, s: nat, ghost loose: set<int>)
      requires Steady(loose) && p in loose && p in chunks && chunks[p].size == s && IsSmall(s)
      modifies this`smallmap, this`lists, words
      ensures Steady(loose - {p}) && UserKept(old(words.mem), words.mem, chunks, ms)
    {
      hide *;
      BinCounts();
      SteadyParts(loose);
      ghost var h, at := State(), At();
      OkParts(h, at, loose);
      LooseFacts(h, at, loose, p);
      var i := s / 8;
      SmallIndex(s);
      ChunkFacts(h, at, loose, p);
      EightTimes(s);
      BinApart(h, at, loose, i);
      NotYetIn(h, at, loose, i, p);
      EnterApart(h, at, loose, i, p);
      var marked := Marked(smallmap, i);
      MapMarked(smallmap, i);
      ghost var map1 := if marked then smallmap else Mark(smallmap, i);
      InsertSmall(words, Header(ms, i), p, marked, lists[i]);
      SmallEntered(h, at, loose, i, p, words.mem, map1);
      if !marked {
        smallmap := Mark(smallmap, i);
      }
      lists := lists[i := [p] + lists[i]];
      SteadyIs(loose - {p});
    }

    /** `insert_large_chunk`. */
    method InsertLargeChunk(p: int, s: nat, ghost loose: set<int>)
      requires Steady(loose) && p in loose && p in chunks && chunks[p].size == s && !IsSmall(s)
      modifies this`treemap, this`trees, words
      ensures Steady(loose - {p}) && UserKept(old(words.mem), words.mem, chunks, ms)
    {
      hide *;
      BinCounts();
      SteadyParts(loose);
      ghost var h, at := State(), At();
      OkParts(h, at, loose);
      LooseFacts(h, at, loose, p);
      ChunkFacts(h, at, loose, p);
      NotSmall(s);
      IndexInTrie(s);
      var i := TreeIndex(s);
      LargeNodes(h, at, loose, i);
      TreeIsTrie(h, at, loose, i);
      LargeRoom(h, at, loose, i, p);
      BinParts(words.mem, TreeSlot(ms, i), Marked(treemap, i), trees[i], i);
      var marked := Marked(treemap, i);
      MapMarked(treemap, i);
      ghost var map1 := if marked then treemap else Mark(treemap, i);
      InsertLarge(words, TreeSlot(ms, i), p, s, i, marked, trees[i]);
      LargeEntered(h, at, loose, i, p, s, words.mem, map1);
      if !marked {
        treemap := Mark(treemap, i);
      }
      trees := trees[i := Insert(trees[i], s, p, TrieLow(i), TrieBits(i))];
      SteadyIs(loose - {p});
    }

    /** `insert_chunk`. */
    method InsertChunk(p: int, s: nat, ghost loose: set<int>)
      requires Steady(loose) && p in loose && p in chunks && chunks[p].size == s
      modifies this`smallmap, this`lists, this`treemap, this`trees, words
      ensures Steady(loose - {p}) && UserKept(old(words.mem), words.mem, chunks, ms)
    {
      if IsSmall(s) {
        InsertSmallChunk(p, s, loose);
      } else {
        InsertLargeChunk(p, s, loose);
      }
    }

    /** `unlink_small_chunk`. */
    method UnlinkSmallChunk(p: int, s: nat, ghost loose: set<int>)
      requires Steady(loose) && Waiting(State(), loose, p) && p in chunks && chunks[p].size == s && IsSmall(s)
      modifies this`smallmap, this`lists, words
      ensures Steady(loose + {p}) && UserKept(old(words.mem), words.mem, chunks, ms)
    {
      hide *;
      BinCounts();
      SteadyParts(loose);
      ghost var h, at := State(), At();
      OkParts(h, at, loose);
      var i := s / 8;
      SmallIndex(s);
      ChunkFacts(h, at, loose, p);
      EightTimes(s);
      BinApart(h, at, loose, i);
      IsMember(h, at, loose, i, p);
      ghost var k: nat :| k < |lists[i]| && lists[i][k] == p;
      BinMarked(words.mem, Header(ms, i), Marked(smallmap, i), lists[i]);
      var empty := UnlinkSmall(words, p, Header(ms, i), lists[i], k);
      SmallLeft(h, at, loose, i, k, words.mem, empty);
      if empty {
        smallmap := BinMaps.Clear(smallmap, i);
      }
      lists := lists[i := lists[i][..k] + lists[i][k + 1..]];
      SteadyIs(loose + {p});
    }

    /** `unlink_large_chunk`. */
    method UnlinkLargeChunk(p: int, ghost s: nat, ghost loose: set<int>)
      requires Steady(loose) && Waiting(State(), loose, p) && p in chunks && chunks[p].size == s && !IsSmall(s)
      modifies this`treemap, this`trees, words
      ensures Steady(loose + {p}) && UserKept(old(words.mem), words.mem, chunks, ms)
    {
      hide *;
      BinCounts();
      SteadyParts(loose);
      ghost var h, at := State(), At();
      OkParts(h, at, loose);
      ChunkFacts(h, at, loose, p);
      NotSmall(s);
      IndexInTrie(s);
      ghost var i0 := TreeIndex(s);
      LargeNodes(h, at, loose, i0);
      TreeIsTrie(h, at, loose, i0);
      BinParts(words.mem, TreeSlot(ms, i0), Marked(treemap, i0), trees[i0], i0);
      IndexWord(h, at, loose, i0, p);
      HoldsNode(trees[i0], p, s);
      // the bin number is kept in the chunk
      var i := Get(words.mem, p + INDEX);
      var empty := UnlinkLarge(words, TreeSlot(ms, i), p, s, trees[i], i);
      LargeLeft(h, at, loose, i, p, s, words.mem, empty);
      if empty {
        treemap := BinMaps.Clear(treemap, i);
      }
      trees := trees[i := Unlink(trees[i], s, p, TrieLow(i), TrieBits(i))];
      SteadyIs(loose + {p});
    }

    /** `unlink_chunk`. */
    method UnlinkChunk(p: int, s: nat, ghost loose: set<int>)
      requires Steady(loose) && Waiting(State(), loose, p) && p in chunks && chunks[p].size == s
      modifies this`smallmap, this`lists, this`treemap, this`trees, words
      ensures Steady(loose + {p}) && UserKept(old(words.mem), words.mem, chunks, ms)
    {
      if IsSmall(s) {
        UnlinkSmallChunk(p, s, loose);
      } else {
        UnlinkLargeChunk(p, s, loose);
      }
    }

    /** `unlink_first_small_chunk`. */
    method UnlinkFirstChunk(i: nat, ghost loose: set<int>) returns (p: int)
      requires Steady(loose) && i < SMALL_BINS && Marked(smallmap, i)
      modifies this`smallmap, this`lists, words
      ensures Steady(loose + {p}) && UserKept(old(words.mem), words.mem, chunks, ms)
      ensures p in chunks && !chunks[p].used && chunks[p].size == 8 * i
    {
      hide *;
      BinCounts();
      SteadyParts(loose);
      ghost var h, at := State(), At();
      OkParts(h, at, loose);
      BinApart(h, at, loose, i);
      var empty;
      p, empty := UnlinkFirst(words, Header(ms, i), lists[i]);
      assert lists[i][..0] + lists[i][1..] == lists[i][1..];
      SmallLeft(h, at, loose, i, 0, words.mem, empty);
      LeaveMembers(h, at, loose, i, 0);
      WaitingIs(h, loose, p);
      if empty {
        smallmap := BinMaps.Clear(smallmap, i);
      }
      lists := lists[i := lists[i][1..]];
      SteadyIs(loose + {p});
    }

    // ---- using free chunks ----

    /** `set_inuse_and_pinuse`. */
    method UseWhole(p: int, s: nat, ghost loose: set<int>)
      requires Steady(loose) && p in loose && p in chunks && chunks[p].size == s
      modifies this`chunks, words
      ensures Steady(loose - {p}) && chunks == SetUsed(old(chunks), p, true)
      ensures PayloadsKept(old(words.mem), words.mem, old(chunks), {p})
    {
      hide *;
      SteadyParts(loose);
      ghost var h, at := State(), At();
      LooseFacts(h, at, loose, p);
      ChunkFacts(h, at, loose, p);
      TakeWhole(h, at, loose, p);
      UsedMeasures(chunks, p);
      StoreWhole(words, p, s);
      chunks := SetUsed(chunks, p, true);
      SteadyIs(loose - {p});
    }

    /** `set_size_and_pinuse_of_inuse_chunk` on the front and `set_size_and_pinuse_of_free_chunk` on the rest. */
    method UseFront(p: int, s: nat, nb: nat, ghost loose: set<int>) returns (r: int)
      requires Steady(loose) && p in loose && p in chunks && chunks[p].size == s && nb % 16 == 0 && 32 <= nb
          && nb + 32 <= s
      modifies this`chunks, words
      ensures r == p + nb && r !in old(chunks) && r in chunks && chunks[r].size == s - nb && !chunks[r].used && r > 0
      ensures Steady(loose - {p} + {r}) && chunks == Fronted(old(chunks), p, nb)
      ensures PayloadsKept(old(words.mem), words.mem, old(chunks), {p})
    {
      hide *;
      SteadyParts(loose);
      ghost var h, at := State(), At();
      LooseFacts(h, at, loose, p);
      TakeFront(h, at, loose, p, nb);
      FrontMeasures(chunks, p, nb);
      r := p + nb;
      StoreFront(words, p, s, nb);
      chunks := Fronted(chunks, p, nb);
      SteadyIs(loose - {p} + {r});
    }

    /** Split the top chunk. */
    method UseTop(nb: nat, ghost loose: set<int>) returns (p: int)
      requires Steady(loose) && nb % 16 == 0 && 32 <= nb < topsize
      modifies this`chunks, this`top, this`topsize, words
      ensures p == old(top) && p in old(chunks) && !old(chunks)[p].used && nb < old(chunks)[p].size
          && p + nb !in old(chunks) && p > 0
      ensures top + topsize == old(top + topsize)
      ensures Steady(loose) && chunks == Fronted(old(chunks), p, nb)
      ensures PayloadsKept(old(words.mem), words.mem, old(chunks), {p})
    {
      hide *;
      SteadyParts(loose);
      ghost var h, at := State(), At();
      TakeTop(h, at, loose, nb);
      TopFacts(h, at, loose);
      ChunkFacts(h, at, loose, top);
      FrontMeasures(chunks, top, nb);
      p := top;
      var s := topsize;
      topsize := topsize - nb;
      top := p + nb;
      StoreTop(words, p, s, nb);
      chunks := Fronted(chunks, p, nb);
      SteadyIs(loose);
    }

    /** `replace_dv`: used only when the old victim is small. */
    method ReplaceDv(p: int, s: nat, ghost loose: set<int>)
      requires Steady(loose) && p in loose && p in chunks && chunks[p].size == s && p > 0 && IsSmall(dvsize)
      modifies this`smallmap, this`lists, this`dv, this`dvsize, words
      ensures Steady(loose - {p}) && UserKept(old(words.mem), words.mem, chunks, ms)
    {
      hide *;
      SteadyParts(loose);
      DvZero(State(), At(), loose);
      if dvsize != 0 {
        ghost var loose1 := loose + {dv};
        var d, ds := dv, dvsize;
        DvOut(State(), At(), loose);
        dv, dvsize := 0, 0;
        SteadyIs(loose1);
        InsertSmallChunk(d, ds, loose1);
        SteadyParts(loose1 - {d});
        DvNotLoose(loose, d, p);
        DvIn(State(), At(), loose, p);
      } else {
        DvIn(State(), At(), loose, p);
        NoChange(words.mem, chunks, ms);
      }
      dv, dvsize := p, s;
      SteadyIs(loose - {p});
    }

    // ---- malloc ----

    /** Take a chunk out of a tree and use its front; a rest that is large enough goes into a bin or becomes `dv`. */
    method UseLarge(v: int, rsize: nat, nb: nat, toDv: bool)
      requires Steady({}) && Waiting(State(), {}, v) && v in chunks && !chunks[v].used && chunks[v].size == rsize + nb
          && !IsSmall(rsize + nb)
      requires nb % 16 == 0 && 32 <= nb && (toDv ==> IsSmall(dvsize))
      modifies this`chunks, this`smallmap, this`treemap, this`lists, this`trees, this`dv, this`dvsize, words
      ensures Steady({}) && Served(old(words.mem), words.mem, old(chunks), chunks, ms, v, nb)
      ensures !toDv ==> dv == old(dv) && dvsize == old(dvsize)
    {
      hide *;
      MinChunk();
      ghost var m, c := words.mem, chunks;
      UnlinkLargeChunk(v, rsize + nb, {});
      ghost var m1 := words.mem;
      assert {} + {v} == {v};
      if rsize < MIN_CHUNK {
        SteadyParts({v});
        LooseFacts(State(), At(), {v}, v);
        AfterFree(State(), At(), {v}, v);
        UsedNextIs(chunks, v);
        UseWhole(v, rsize + nb, {v});
        assert {v} - {v} == {};
        ServedWhole(m, m1, words.mem, c, ms, v, nb);
      } else {
        var r := UseFront(v, rsize + nb, nb, {v});
        ghost var m2 := words.mem;
        assert {v} - {v} + {r} == {r} && {r} - {r} == {};
        if toDv {
          ReplaceDv(r, rsize, {r});
        } else {
          InsertChunk(r, rsize, {r});
        }
        ServedFront(m, m1, m2, words.mem, c, ms, v, nb);
      }
    }

    /** `tmalloc_large`: the best fit in the trees, unless `dv` fits as well. */
    method TmallocLarge(nb: nat) returns (p: int)
      requires Steady({}) && MIN_LARGE <= nb < WORD && nb % 16 == 0
      modifies this`chunks, this`smallmap, this`treemap, this`lists, this`trees, this`dv, this`dvsize, words
      ensures Steady({}) && dv == old(dv) && dvsize == old(dvsize)
      ensures p == 0 ==> State() == old(State()) && forall z: nat :: IsSize(trees, z) && nb <= z ==> nb <= dvsize <= z
      ensures p != 0 ==>
          p > 0 && p in old(chunks) && IsBestFit(old(trees), nb, p, old(chunks)[p].size)
          && !(nb <= dvsize <= old(chunks)[p].size)
      ensures p != 0 ==> Served(old(words.mem), words.mem, old(chunks), chunks, ms, p, nb)
    {
      hide *;
      Limits();
      SteadyParts({});
      ghost var h, at := State(), At();
      OkParts(h, at, {});
      var v, rsize := BestFit(words.mem, ms, treemap, nb, trees);
      DvBelowWord(h, at, dvsize);
      ExcessBetter(dvsize, nb, rsize);
      if v != 0 {
        BestIsWaiting(h, at, nb, v, rsize + nb);
        BestParts(trees, nb, v, rsize + nb);
      }
      if v != 0 && rsize < Excess(dvsize, nb) {
        p := v;
        UseLarge(v, rsize, nb, false);
      } else {
        p := 0;
      }
    }

    /** `tmalloc_small`: the smallest chunk in the trees, the rest of which becomes `dv`. */
    method TmallocSmall(nb: nat) returns (p: int)
      requires Steady({}) && 32 <= nb < MIN_LARGE && nb % 16 == 0 && treemap != 0 && IsSmall(dvsize)
      modifies this`chunks, this`smallmap, this`treemap, this`lists, this`trees, this`dv, this`dvsize, words
      ensures Steady({}) && p > 0 && p in old(chunks) && IsBestFit(old(trees), nb, p, old(chunks)[p].size)
      ensures Served(old(words.mem), words.mem, old(chunks), chunks, ms, p, nb)
    {
      hide *;
      SteadyParts({});
      ghost var h, at := State(), At();
      OkParts(h, at, {});
      var v, rsize := SmallestLarge(words.mem, ms, treemap, nb, trees);
      BestIsWaiting(h, at, nb, v, rsize + nb);
      p := v;
      UseLarge(v, rsize, nb, true);
    }

    /** The first chunk of a small bin, whole or in part. */
    method UseBin(i: nat, nb: nat) returns (p: int)
      requires Steady({}) && i < SMALL_BINS && Marked(smallmap, i) && nb % 16 == 0 && 32 <= nb <= 8 * i
          && (nb + 32 <= 8 * i ==> IsSmall(dvsize))
      modifies this`chunks, this`smallmap, this`lists, this`dv, this`dvsize, words
      ensures Steady({}) && p > 0 && Served(old(words.mem), words.mem, old(chunks), chunks, ms, p, nb)
    {
      hide *;
      MinChunk();
      ghost var m, c := words.mem, chunks;
      p := UnlinkFirstChunk(i, {});
      ghost var m1 := words.mem;
      assert {} + {p} == {p};
      SteadyParts({p});
      LooseFacts(State(), At(), {p}, p);
      ChunkFacts(State(), At(), {p}, p);
      AfterFree(State(), At(), {p}, p);
      UsedNextIs(chunks, p);
      var rsize := 8 * i - nb;
      if rsize < MIN_CHUNK {
        UseWhole(p, 8 * i, {p});
        assert {p} - {p} == {};
        ServedWhole(m, m1, words.mem, c, ms, p, nb);
      } else {
        var r := UseFront(p, 8 * i, nb, {p});
        ghost var m2 := words.mem;
        assert {p} - {p} + {r} == {r} && {r} - {r} == {};
        ReplaceDv(r, rsize, {r});
        ServedFront(m, m1, m2, words.mem, c, ms, p, nb);
      }
    }

    /** The first part of `mspace_malloc` for a small request: a bin that fits without a rest, or any chunk but `dv`
        when that is too small. */
    method SmallRequest(nb: nat) returns (p: int)
      requires Steady({}) && 32 <= nb <= 240 && nb % 16 == 0
      modifies this`chunks, this`smallmap, this`treemap, this`lists, this`trees, this`dv, this`dvsize, words
      ensures Steady({}) && (p != 0 ==> p > 0 && Served(old(words.mem), words.mem, old(chunks), chunks, ms, p, nb))
      ensures p == 0 ==> State() == old(State()) && dvsize == old(dvsize) && (nb <= dvsize || NothingFits(State(), nb))
    {
      hide *;
      BinCounts();
      Limits();
      SteadyParts({});
      var idx := nb / 8;
      EightTimes(nb);
      SmallEnough(dvsize);
      var smallbits := BinsFrom(smallmap, idx);
      NearMarked(smallmap, idx);
      LeftOfFirst(smallmap, idx);
      p := 0;
      if Near(smallbits) {
        p := UseBin(idx + Skip(smallbits), nb);
      } else if nb > dvsize {
        if smallbits != 0 {
          p := UseBin(LeastIndex(LeftOf(smallbits, idx)), nb);
        } else if treemap != 0 {
          p := TmallocSmall(nb);
        } else {
          SmallNone(State(), At(), dvsize, nb);
        }
      }
    }

    /** Split `dv`, or use all of it. */
    method UseDv(nb: nat) returns (p: int)
      requires Steady({}) && nb % 16 == 0 && 32 <= nb <= dvsize
      modifies this`chunks, this`dv, this`dvsize, words
      ensures Steady({}) && p > 0 && p == old(dv) && Served(old(words.mem), words.mem, old(chunks), chunks, ms, p, nb)
    {
      hide *;
      MinChunk();
      SteadyParts({});
      ghost var h, at := State(), At();
      DvZero(h, at, {});
      DvOut(h, at, {});
      p := dv;
      ghost var h0 := h.(dv := 0);
      assert {} + {p} == {p} && {p} - {p} == {};
      ChunkFacts(h, at, {}, p);
      AfterFree(h, at, {}, p);
      UsedNextIs(h.chunks, p);
      NoChange(words.mem, chunks, ms);
      ghost var m, c := words.mem, chunks;
      var rsize := dvsize - nb;
      if rsize >= MIN_CHUNK {
        var r := p + nb;
        TakeFront(h0, at, {p}, p, nb);
        assert {p} - {p} + {r} == {r} && {r} - {r} == {};
        DvIn(h0.(mem := FrontUsed(m, p, dvsize, nb), chunks := Fronted(c, p, nb)), at, {r}, r);
        FrontMeasures(chunks, p, nb);
        StoreFront(words, p, dvsize, nb);
        dv, dvsize := r, rsize;
        chunks := Fronted(chunks, p, nb);
        SteadyIs({});
        NoChange(words.mem, chunks, ms);
        ServedFront(m, m, words.mem, words.mem, c, ms, p, nb);
      } else {
        TakeWhole(h0, at, {p}, p);
        UsedMeasures(chunks, p);
        StoreWhole(words, p, dvsize);
        dv, dvsize := 0, 0;
        chunks := SetUsed(chunks, p, true);
        SteadyIs({});
        ServedWhole(m, m, words.mem, c, ms, p, nb);
      }
    }

    // ---- segments ----

    /** The record that a pointer into the list of segments stands for. */
    function SegmentBase(sp: int): int
      reads this`seg, words
    {
      if sp == ms then seg.base else Get(words.mem, sp)
    }

    function SegmentSize(sp: int): int
      reads this`seg, words
    {
      if sp == ms then seg.size else Get(words.mem, sp + 8)
    }

    function SegmentNext(sp: int): int
      reads this`seg, words
    {
      if sp == ms then seg.next else Get(words.mem, sp + 16)
    }

    function SegmentFlags(sp: int): int
      reads this`seg, words
    {
      if sp == ms then seg.flags else Get(words.mem, sp + 24)
    }

    lemma PointerReads(i: nat)
      requires Valid() && i < |segments|
      ensures var sp := Pointer(segments, ms, i);
              && sp != 0 && SegmentBase(sp) == segments[i].base && SegmentSize(sp) == segments[i].size
                && SegmentFlags(sp) == segments[i].flags
              && SegmentNext(sp) == (if i == 0 then 0 else Pointer(segments, ms, i - 1))
                && (sp == ms <==> i == |segments| - 1)
    {
      hide *;
      ValidParts();
      SteadyParts({});
      var sp := Pointer(segments, ms, i);
      ListedParts(seg, segments, ms);
      OkParts(State(), At(), {});
      StateIn(State(), ms);
      SegmentReads(sp);
      if i < |segments| - 1 {
        PointerWords(State(), At(), segments, live, system, i);
        ChunkFacts(State(), At(), {}, sp - 16);
      } else {
        ChunkFacts(State(), At(), {}, ms - 16);
      }
    }

    lemma SegmentReads(sp: int)
      ensures SegmentBase(sp) == (if sp == ms then seg.base else Get(words.mem, sp))
          && SegmentSize(sp) == (if sp == ms then seg.size else Get(words.mem, sp + 8))
      ensures SegmentNext(sp) == (if sp == ms then seg.next else Get(words.mem, sp + 16))
          && SegmentFlags(sp) == (if sp == ms then seg.flags else Get(words.mem, sp + 24))
    {
    }

    /** The segment that ends at `e`, searched from the newest on. */
    method SegmentEnding(e: int) returns (sp: int, ghost i: nat)
      requires Valid()
      ensures sp == 0 ==> forall k :: 0 <= k < |segments| ==> segments[k].base + segments[k].size != e
      ensures sp != 0 ==>
          && i < |segments| && sp == Pointer(segments, ms, i) && segments[i].base + segments[i].size == e
          && forall k :: i < k < |segments| ==> segments[k].base + segments[k].size != e
    {
      hide *;
      ValidParts();
      ListedParts(seg, segments, ms);
      sp, i := ms, |segments| - 1;
      PointerReads(i);
      while sp != 0 && e != SegmentBase(sp) + SegmentSize(sp)
        invariant sp != 0 ==>
            i < |segments| && sp == Pointer(segments, ms, i) && SegmentBase(sp) == segments[i].base
            && SegmentSize(sp) == segments[i].size
        invariant forall k ::
            (if sp == 0 then 0 else i + 1) <= k < |segments| ==> segments[k].base + segments[k].size != e
        decreases if sp == 0 then 0 else i + 1
      {
        PointerReads(i);
        if i > 0 {
          PointerReads(i - 1);
        }
        sp := SegmentNext(sp);
        if sp != 0 {
          i := i - 1;
          PointerReads(i);
        }
      }
    }

    /** The segment that starts at `e`. */
    method SegmentStarting(e: int) returns (sp: int, ghost i: nat)
      requires Valid()
      ensures sp == 0 ==> forall k :: 0 <= k < |segments| ==> segments[k].base != e
      ensures sp != 0 ==>
          && i < |segments| && sp == Pointer(segments, ms, i) && segments[i].base == e
          && forall k :: 0 <= k < |segments| && segments[k].base == e ==> k == i
    {
      hide *;
      ValidParts();
      ListedParts(seg, segments, ms);
      sp, i := ms, |segments| - 1;
      PointerReads(i);
      while sp != 0 && e != SegmentBase(sp)
        invariant sp != 0 ==> i < |segments| && sp == Pointer(segments, ms, i) && SegmentBase(sp) == segments[i].base
        invariant forall k :: (if sp == 0 then 0 else i + 1) <= k < |segments| ==> segments[k].base != e
        decreases if sp == 0 then 0 else i + 1
      {
        PointerReads(i);
        if i > 0 {
          PointerReads(i - 1);
        }
        sp := SegmentNext(sp);
        if sp != 0 {
          i := i - 1;
          PointerReads(i);
        }
      }
      if sp != 0 {
        SteadyParts({});
        SegmentsSpread(State(), At(), segments, live, system);
        forall k | 0 <= k < |segments| && segments[k].base == e ensures k == i {
          ApartPair(segments, k, i);
        }
      }
    }

    // -- a separate region --

    /** The place of the record of the old segment. */
    method RecordPlace() returns (sp: int)
      requires Valid()
      ensures top in chunks && chunks[top].size == topsize && sp == (if topsize < MIN_CHUNK then top else top + topsize)
    {
      hide *;
      MinChunk();
      RecordSize();
      ValidParts();
      SteadyParts({});
      LastEnd(State(), At(), segments, live, system);
      ListedParts(seg, segments, ms);
      ChunkFacts(State(), At(), {}, top);
      AlignedSum(top, topsize, 0);
      var oldEnd := seg.base + seg.size;
      var rawsp := oldEnd - (RECORD + 32 + 15);
      var asp := rawsp + AlignOffset(rawsp + 16);
      AlignBack(top + topsize);
      sp := if asp < top + MIN_CHUNK then top else asp;
    }

    /** The stores of `add_segment`, and the new tiling. */
    method CloseSegment(tb: int, tn: nat, sp: int)
      requires Valid() && AllBeyond(segments, tb, tn) && Usable(tb, tn) && tn >= TOP_FOOT && InZone(zone, tb, tn)
      requires sp == (if topsize < MIN_CHUNK then top else top + topsize)
      modifies this`chunks, this`fences, this`top, this`topsize, words
      ensures Steady(if sp == old(top) then {} else {old(top)}) && top == tb && topsize == tn - TOP_FOOT
      ensures old(top) in old(chunks) && old(chunks)[old(top)].size == old(topsize)
      ensures chunks == Extended(old(chunks), old(top), tb, tn) && fences == old(fences) + {sp + RECORD}
      ensures KeepsUse(old(words.mem), words.mem, old(chunks), chunks, ms, {})
      ensures sp != old(top) ==> old(top) in chunks && chunks[old(top)].size == sp - old(top)
      ensures |segments| > 0 && RecordWords(words.mem, sp, segments)
    {
      hide *;
      ValidParts();
      SteadyParts({});
      ghost var h, at := State(), At();
      ArrangedParts(h, at, segments, live, system);
      LastEnd(h, at, segments, live, system);
      ListedParts(seg, segments, ms);
      GrowReady(h, at, segments, tb, tn);
      ExtRanges(chunks, top, fences, tb, tn);
      StoreSegment(words, top, topsize, seg.base + seg.size, sp, tb, tn, [seg.base, seg.size, seg.next, seg.flags], h);
      RecordWordsIs(words.mem, sp, segments);
      GrowHeap(h, at, segments, words.mem, tb, tn, sp);
      GrowMeasures(chunks, top, fences, tb, tn, dv);
      DvZero(h, at, {});
      chunks, fences, top, topsize := Extended(chunks, top, tb, tn), fences + {sp + RECORD}, tb, tn - TOP_FOOT;
      SteadyIs(if sp == old(top) then {} else {old(top)});
    }

    /** The same, and the rest of the old top chunk in a bin. */
    method ReplaceTop(tb: int, tn: nat, sp: int)
      requires Valid() && AllBeyond(segments, tb, tn) && Usable(tb, tn) && tn >= TOP_FOOT && InZone(zone, tb, tn)
      requires sp == (if topsize < MIN_CHUNK then top else top + topsize)
      modifies this`chunks, this`fences, this`top, this`topsize, this`smallmap, this`lists, this`treemap, this`trees,
          words
      ensures Steady({}) && top == tb && topsize == tn - TOP_FOOT && old(top) in old(chunks)
          && old(chunks)[old(top)].size == old(topsize)
      ensures chunks == Extended(old(chunks), old(top), tb, tn) && fences == old(fences) + {sp + RECORD}
      ensures KeepsUse(old(words.mem), words.mem, old(chunks), chunks, ms, {}) && |segments| > 0
          && RecordWords(words.mem, sp, segments)
    {
      hide *;
      ValidParts();
      SteadyParts({});
      ghost var h, at := State(), At();
      ArrangedParts(h, at, segments, live, system);
      RecordChunk(h, at, segments, tb, tn, sp);
      var oldTop := top;
      CloseSegment(tb, tn, sp);
      ghost var m1 := words.mem;
      BinOldTop(oldTop, sp - oldTop);
      KeepsThen(h.mem, m1, words.mem, h.chunks, chunks, chunks, ms, {}, {});
      RecordKept(m1, words.mem, chunks, ms, sp, segments);
    }

    /** `add_segment`. */
    method AddSegment(tb: int, tn: nat)
      requires Valid() && AllBeyond(segments, tb, tn) && Usable(tb, tn) && tn >= TOP_FOOT && InZone(zone, tb, tn)
      modifies this`chunks, this`fences, this`top, this`topsize, this`smallmap, this`lists, this`treemap, this`trees,
          words
      modifies this`seg, this`system, this`segments
      ensures Valid() && top == tb && topsize == tn - TOP_FOOT
      ensures Spans(old(segments), segments, tb, tn) && OwnSegment(old(segments), segments, tb, tn)
      ensures LiveKept(old(words.mem), words.mem, old(chunks), chunks, live)
    {
      hide *;
      ValidParts();
      SteadyParts({});
      ghost var h := State();
      var sp := RecordPlace();
      ReplaceTop(tb, tn, sp);
      EnterSegment(h, sp, tb, tn);
    }

    /** The new segment, and the chunk of the record of the old one. */
    method EnterSegment(ghost h: Heap, sp: int, tb: int, tn: nat)
      requires Steady({}) && |segments| > 0 && RecordWords(words.mem, sp, segments)
      requires Ok(h, At(), {}) && NoFreePair(h.chunks) && Arranged(h, At(), segments, live, system)
          && AllBeyond(segments, tb, tn) && Usable(tb, tn) && tn >= TOP_FOOT
      requires h.top in h.chunks && sp
          == (if h.chunks[h.top].size < MIN_CHUNK then h.top else h.top + h.chunks[h.top].size)
      requires chunks == Extended(h.chunks, h.top, tb, tn) && top == tb && fences == h.fences + {sp + RECORD}
      requires KeepsUse(h.mem, words.mem, h.chunks, chunks, ms, {})
      modifies this`system, this`segments, this`seg
      ensures Valid() && Spans(old(segments), segments, tb, tn) && LiveKept(h.mem, words.mem, h.chunks, chunks, live)
      ensures OwnSegment(old(segments), segments, tb, tn)
    {
      hide *;
      SteadyParts({});
      ArrangedGrown(h, State(), At(), segments, live, system, tb, tn, sp);
      GrownSpans(segments, sp, tb, tn);
      GrownListed(segments, sp, tb, tn);
      GrownOwn(segments, sp, tb, tn);
      seg := Record(tb, tn, sp + 16, 0);
      system, segments := system + {sp}, GrownSegments(segments, sp, tb, tn);
      ValidIs();
    }

    /** What is left of the old top chunk goes into a bin. */
    method BinOldTop(p: int, s: nat)
      requires Steady(if s == 0 then {} else {p}) && (s != 0 ==> p in chunks && chunks[p].size == s)
      modifies this`smallmap, this`lists, this`treemap, this`trees, words
      ensures Steady({}) && KeepsUse(old(words.mem), words.mem, chunks, chunks, ms, {})
    {
      hide *;
      NoChange(words.mem, chunks, ms);
      if s != 0 {
        InsertChunk(p, s, {p});
        assert {p} - {p} == {};
      }
      UserKeeps(old(words.mem), words.mem, chunks, ms);
    }

    // -- a region behind the top chunk --

    /** The append branch of `sys_alloc`. */
    method Append(tb: int, tn: nat)
      requires Valid() && AllBeyond(segments, tb, tn) && Usable(tb, tn) && InZone(zone, tb, tn)
          && tb == seg.base + seg.size
      modifies this`chunks, this`topsize, this`seg, this`segments, words
      ensures Valid() && topsize == old(topsize) + tn
      ensures Spans(old(segments), segments, tb, tn) && |old(segments)| > 0
          && segments == StretchedSegments(old(segments), tn)
      ensures LiveKept(old(words.mem), words.mem, old(chunks), chunks, live)
    {
      hide *;
      ValidParts();
      SteadyParts({});
      ghost var h := State();
      LastEnd(h, At(), segments, live, system);
      ListedParts(seg, segments, ms);
      seg := seg.(size := seg.size + tn);
      LengthenTop(tb, tn);
      EnterAppended(h, tb, tn);
    }

    /** The longer top chunk. */
    method LengthenTop(tb: int, tn: nat)
      requires Steady({}) && Arranged(State(), At(), segments, live, system) && AllBeyond(segments, tb, tn)
          && Usable(tb, tn)
      requires InZone(zone, tb, tn) && tb == top + topsize + TOP_FOOT
      modifies this`chunks, this`topsize, words
      ensures Steady({}) && topsize == old(topsize) + tn && top in old(chunks) && !old(chunks)[top].used
          && old(chunks)[top].size > 0
      ensures chunks == Stretched(old(chunks), top, tn) && KeepsUse(old(words.mem), words.mem, old(chunks), chunks, ms,
          {})
    {
      hide *;
      SteadyParts({});
      ghost var h, at := State(), At();
      ArrangedParts(h, at, segments, live, system);
      GrowReady(h, at, segments, tb, tn);
      IsStretchable(h, at, tb, tn);
      TopFacts(h, at, {});
      ChunkFacts(h, at, {}, top);
      StretchMeasures(chunks, top, tn);
      DvZero(h, at, {});
      StoreInitTop(words, top, topsize + tn);
      StretchWordsIs(h.mem, words.mem, top, topsize, tn);
      StretchOk(h, at, words.mem, tn);
      topsize := topsize + tn;
      chunks := Stretched(chunks, top, tn);
      SteadyIs({});
    }

    ghost method EnterAppended(h: Heap, tb: int, tn: nat)
      requires Steady({}) && Arranged(h, At(), segments, live, system) && AllBeyond(segments, tb, tn) && h.top == top
          && h.fences == fences
      requires top in h.chunks && !h.chunks[top].used && h.chunks[top].size > 0
          && chunks == Stretched(h.chunks, top, tn)
      requires h.dv == dv && h.smallmap == smallmap && h.treemap == treemap && h.lists == lists && h.trees == trees
      requires KeepsUse(h.mem, words.mem, h.chunks, chunks, ms, {}) && |segments| > 0
      requires var s := segments[|segments| - 1];
               tb == s.base + s.size && seg == Record(s.base, s.size + tn, NextRecord(segments, |segments| - 1),
                 s.flags)
      modifies this`segments
      ensures Valid() && Spans(old(segments), segments, tb, tn) && LiveKept(h.mem, words.mem, h.chunks, chunks, live)
      ensures segments == StretchedSegments(old(segments), tn)
    {
      hide *;
      SteadyParts({});
      ArrangedStretched(h, State(), At(), segments, live, system, tb, tn);
      SegmentsSpread(h, At(), segments, live, system);
      StretchedSpans(segments, tb, tn);
      StretchedListed(segments, tn);
      segments := StretchedSegments(segments, tn);
      ValidIs();
    }

    // ---- the ends of calls ----

    /** The blocks `out` are no longer the callers', and the blocks `into` are. */
    ghost method Settle(h: Heap, out: set<int>, into: set<int>)
      requires Steady({}) && Passes(h.mem, words.mem, h.chunks, chunks, fences, ms, out, into)
          && SameCover(h.chunks, chunks)
      requires Arranged(h, At(), segments, live, system) && Listed(seg, segments) && h.fences == fences
      requires out <= live && into !! system && h.top in h.chunks && top + topsize == h.top + h.chunks[h.top].size
      modifies this`live
      ensures Valid() && live == old(live) - out + into && LiveKept(h.mem, words.mem, h.chunks, chunks, old(live) - out)
    {
      hide *;
      SteadyParts({});
      ArrangedPasses(h, State(), At(), segments, live, system, out, into);
      live := live - out + into;
      ValidIs();
    }

    /** Split the top chunk for a caller. */
    method ServeTop(nb: nat) returns (p: int)
      requires Valid() && nb % 16 == 0 && 32 <= nb < topsize
      modifies this`chunks, this`top, this`topsize, this`live, words
      ensures Valid() && p > 0 && p !in old(live) && live == old(live) + {p} && p in chunks
          && nb <= chunks[p].size < nb + 32
      ensures LiveKept(old(words.mem), words.mem, old(chunks), chunks, old(live))
    {
      hide *;
      ValidParts();
      SteadyParts({});
      ghost var h := State();
      NoChange(words.mem, chunks, ms);
      p := UseTop(nb, {});
      NoChange(words.mem, chunks, ms);
      ServedFront(h.mem, h.mem, words.mem, words.mem, h.chunks, ms, p, nb);
      Deliver(p, nb, h);
    }

    /** A chunk that has come into use becomes the caller's. */
    ghost method Deliver(p: int, nb: nat, h: Heap)
      requires Steady({}) && Served(h.mem, words.mem, h.chunks, chunks, ms, p, nb) && h.fences == fences
      requires Arranged(h, At(), segments, live, system) && Listed(seg, segments)
      requires h.top in h.chunks && top + topsize == h.top + h.chunks[h.top].size
      modifies this`live
      ensures Valid() && p !in old(live) && live == old(live) + {p} && p in chunks
          && nb <= chunks[p].size < nb + 32
      ensures LiveKept(h.mem, words.mem, h.chunks, chunks, old(live))
    {
      hide *;
      SteadyParts({});
      TopLastIs(State(), At(), {});
      ServedParts(h.mem, words.mem, h.chunks, chunks, ms, p, nb);
      PassesServed(h.mem, words.mem, h.chunks, chunks, top, fences, ms, p, nb);
      NotSystem(h, At(), segments, live, system, p);
      Settle(h, {}, {p});
      assert old(live) - {} == old(live);
    }

    // -- a region in front of a segment --

    /** `sp->base = tbase; sp->size += tsize`. */
    method RewriteRecord(sp: int, tb: int, tn: nat, ghost j: nat)
      requires Valid() && j < |segments| && sp == Pointer(segments, ms, j) && segments[j].base == tb + tn
      modifies this`seg, words
      ensures Steady({}) && Owned(chunks, fences, ms, live, system) && Segmented(chunks, top, fences, segments)
      ensures Recorded(words.mem, chunks, system, ms, PrependedSegments(segments, j, tb, tn))
      ensures Listed(seg, PrependedSegments(segments, j, tb, tn))
      ensures LiveKept(old(words.mem), words.mem, chunks, chunks, live)
    {
      hide *;
      ValidParts();
      SteadyParts({});
      ghost var h, at := State(), At();
      ArrangedParts(h, at, segments, live, system);
      PointerReads(j);
      PrependedListed(seg, segments, j, tb, tn);
      if sp == ms {
        seg := seg.(base := tb, size := seg.size + tn);
        RecordedNewest(words.mem, chunks, system, ms, segments, tb, tn);
        LiveSame(words.mem, chunks, fences, ms, live, system);
      } else {
        PointerWords(h, at, segments, live, system, j);
        StoreBaseAndSize(words, sp, tb, SegmentSize(sp) + tn);
        RecordSize();
        PayloadWrite(h, at, {}, sp - 16, words.mem);
        OkParts(h, at, {});
        SegmentsSpread(h, at, segments, live, system);
        PointerIsRecord(segments, ms, j);
        RecordRewritten(h.mem, words.mem, chunks, system, ms, segments, j, tb, tn);
        SteadyIs({});
        OthersLive(h.mem, words.mem, chunks, fences, ms, live, system, sp - 16);
      }
    }

    /** `prepend_alloc` when the segment starts with the top chunk. */
    method PrependTop(tb: int, tn: nat, nb: nat)
      requires Steady({}) && Preludable(chunks, top, fences, tb, tn) && InZone(zone, tb, tn) && nb % 16 == 0
          && 32 <= nb && nb + 32 <= tn
      requires Get(words.mem, tb + HEAD) == Tag(nb, true, true) && tb + tn == top
      modifies this`chunks, this`top, this`topsize, words
      ensures Steady({}) && Passes(old(words.mem), words.mem, old(chunks), chunks, fences, ms, {}, {tb}) && tb in chunks
          && chunks[tb].size == nb
      ensures CoversMore(old(chunks), chunks, tb, tn) && top + topsize == old(top + topsize)
    {
      hide *;
      SteadyParts({});
      ghost var h, at := State(), At();
      var q, qsize := tb + nb, tn - nb;
      TopFacts(h, at, {});
      DvZero(h, at, {});
      ghost var h3 := PrependJoined(h, at, tb, tn, nb, topsize + qsize);
      RestPlacedIs(chunks, h3.chunks, tb, tn, nb, true, topsize + qsize);
      topsize := topsize + qsize;
      top := q;
      StoreTopHead(words, q, topsize);
      chunks := h3.chunks;
      SteadyIs({});
    }

    /** `prepend_alloc` when the segment starts with the designated victim. */
    method PrependDv(tb: int, tn: nat, nb: nat)
      requires Steady({}) && Preludable(chunks, top, fences, tb, tn) && InZone(zone, tb, tn) && nb % 16 == 0
          && 32 <= nb && nb + 32 <= tn
      requires Get(words.mem, tb + HEAD) == Tag(nb, true, true) && tb + tn == dv
      modifies this`chunks, this`dv, this`dvsize, words
      ensures Steady({}) && Passes(old(words.mem), words.mem, old(chunks), chunks, fences, ms, {}, {tb}) && tb in chunks
          && chunks[tb].size == nb
      ensures CoversMore(old(chunks), chunks, tb, tn) && top + topsize == old(top + topsize)
    {
      hide *;
      SteadyParts({});
      ghost var h, at := State(), At();
      var q, qsize := tb + nb, tn - nb;
      PreludableFacts(chunks, top, fences, tb, tn);
      DvZero(h, at, {});
      TopFacts(h, at, {});
      ghost var h3 := PrependJoined(h, at, tb, tn, nb, dvsize + qsize);
      RestPlacedIs(chunks, h3.chunks, tb, tn, nb, true, dvsize + qsize);
      dvsize := dvsize + qsize;
      dv := q;
      StoreMerged(words, q, dvsize);
      chunks := h3.chunks;
      SteadyIs({});
    }

    /** `prepend_alloc` when the segment starts with another chunk, which has been taken out of its bin if it is free.
        */
    method PrependBin(tb: int, tn: nat, nb: nat, total: nat, ghost merge: bool)
      requires Steady(if merge then {tb + tn} else {}) && Preludable(chunks, top, fences, tb, tn)
          && InZone(zone, tb, tn)
      requires nb % 16 == 0 && 32 <= nb && nb + 32 <= tn && tb + tn in chunks && merge == !chunks[tb + tn].used
      requires Get(words.mem, tb + HEAD) == Tag(nb, true, true) && tb + tn != top && tb + tn != dv
          && total == tn - nb + (if merge then chunks[tb + tn].size else 0)
      modifies this`chunks, words
      ensures Steady({tb + nb}) && Passes(old(words.mem), words.mem, old(chunks), chunks, fences, ms, {}, {tb})
          && tb in chunks && chunks[tb].size == nb
      ensures CoversMore(old(chunks), chunks, tb, tn) && tb + nb in chunks && chunks[tb + nb].size == total
    {
      hide *;
      ghost var loose := if merge then {tb + tn} else {};
      SteadyParts(loose);
      ghost var h, at := State(), At();
      var q := tb + nb;
      ghost var h1 := RestInUse(h, tb, tn, nb);
      RestIs(h, tb, tn, nb);
      PreludableFacts(chunks, top, fences, tb, tn);
      DvZero(h, at, loose);
      RestPrepared(h, h1.chunks, at, loose, tb, tn, nb, merge, total);
      RestReadyParts(h1.chunks, tb, tn, nb, merge, total);
      RestFacts(chunks, h1.chunks, tb, tn, nb, merge, total);
      RestPlacedIs(chunks, Released(h1.chunks, q, q, merge), tb, tn, nb, merge, total);
      TakesDvIs(h1, q, q, merge);
      ghost var h3 := Disposed(h1, q, q, merge);
      PrependAll(h, h1, h3, at, loose, {q}, tb, tn, nb, merge);
      DisposedFields(h1, q, q, merge, total);
      StoreFreed(words, q, total);
      if merge {
        FreedAgain(h, at, loose, tb + tn, q, total);
        OkSame(h3, at, {q}, words.mem);
        PassesSame(h.mem, h3.mem, words.mem, h.chunks, h3.chunks, fences, ms, {}, {tb});
      }
      chunks := Released(h1.chunks, q, q, merge);
      SteadyIs({q});
    }

    /** The head of the chunk that is going to be used; it belongs to no chunk yet. */
    method PrependHead(tb: int, ghost tn: nat, nb: nat, ghost loose: set<int>)
      requires Steady(loose) && Preludable(chunks, top, fences, tb, tn)
      modifies words
      ensures Steady(loose) && Get(words.mem, tb + HEAD) == Tag(nb, true, true)
          && UserKept(old(words.mem), words.mem, chunks, ms)
    {
      hide *;
      SteadyParts(loose);
      HeadUnowned(State(), At(), loose, tb, tn, Tag(nb, true, true));
      StoreUsedHead(words, tb, nb);
      SteadyIs(loose);
    }

    /** `prepend_alloc`. The head of the new chunk and the links of the bins are different words, so it does not
        matter that a free first chunk leaves its bin before the head is written. */
    method PrependAlloc(tb: int, tn: nat, nb: nat)
      requires Steady({}) && Preludable(chunks, top, fences, tb, tn) && InZone(zone, tb, tn) && nb % 16 == 0
          && 32 <= nb && nb + 32 <= tn
      modifies this`chunks, this`top, this`topsize, this`dv, this`dvsize, this`smallmap, this`lists, this`treemap,
          this`trees, words
      ensures Steady({}) && Passes(old(words.mem), words.mem, old(chunks), chunks, fences, ms, {}, {tb}) && tb in chunks
          && chunks[tb].size == nb
      ensures CoversMore(old(chunks), chunks, tb, tn) && top + topsize == old(top + topsize)
    {
      hide *;
      SteadyParts({});
      ghost var m, c := words.mem, chunks;
      PreludableFacts(chunks, top, fences, tb, tn);
      var first := tb + tn;
      ChunkFacts(State(), At(), {}, first);
      NoChange(words.mem, chunks, ms);
      if first == top {
        PrependHead(tb, tn, nb, {});
        ghost var m1 := words.mem;
        PrependTop(tb, tn, nb);
        NoChange(words.mem, chunks, ms);
        PassesAround(m, m1, words.mem, words.mem, c, chunks, fences, ms, {}, {tb});
      } else if first == dv {
        PrependHead(tb, tn, nb, {});
        ghost var m1 := words.mem;
        PrependDv(tb, tn, nb);
        NoChange(words.mem, chunks, ms);
        PassesAround(m, m1, words.mem, words.mem, c, chunks, fences, ms, {}, {tb});
      } else {
        PrependRest(tb, tn, nb);
      }
    }

    method PrependRest(tb: int, tn: nat, nb: nat)
      requires Steady({}) && Preludable(chunks, top, fences, tb, tn) && InZone(zone, tb, tn) && nb % 16 == 0
          && 32 <= nb && nb + 32 <= tn
      requires tb + tn != top && tb + tn != dv
      modifies this`chunks, this`smallmap, this`lists, this`treemap, this`trees, words
      ensures Steady({}) && Passes(old(words.mem), words.mem, old(chunks), chunks, fences, ms, {}, {tb}) && tb in chunks
          && chunks[tb].size == nb
      ensures CoversMore(old(chunks), chunks, tb, tn) && top + topsize == old(top + topsize)
    {
      hide *;
      SteadyParts({});
      ghost var m, c := words.mem, chunks;
      PreludableFacts(chunks, top, fences, tb, tn);
      var first := tb + tn;
      ChunkFacts(State(), At(), {}, first);
      NoChange(words.mem, chunks, ms);
      var qsize := tn - nb;
      ghost var merge := !chunks[first].used;
      if !UsedIn(Get(words.mem, first + HEAD)) {
        var nsize := SizeIn(Get(words.mem, first + HEAD));
        WaitingFree(State(), first);
        UnlinkChunk(first, nsize, {});
        assert {} + {first} == {first};
        qsize := qsize + nsize;
      }
      ghost var m1 := words.mem;
      PrependHead(tb, tn, nb, if merge then {first} else {});
      ghost var m2 := words.mem;
      PrependBin(tb, tn, nb, qsize, merge);
      ghost var m3 := words.mem;
      InsertChunk(tb + nb, qsize, {tb + nb});
      assert {tb + nb} - {tb + nb} == {};
      UserTwice(m, m1, m2, c, ms);
      PassesAround(m, m2, m3, words.mem, c, chunks, fences, ms, {}, {tb});
    }

    /** The prepend branch of `sys_alloc`. */
    method Prepend(sp: int, tb: int, tn: nat, nb: nat, ghost j: nat)
      requires Valid() && AllBeyond(segments, tb, tn) && Usable(tb, tn) && InZone(zone, tb, tn)
      requires j < |segments| && sp == Pointer(segments, ms, j) && segments[j].base == tb + tn && nb % 16 == 0
          && 32 <= nb && nb + 32 <= tn
      modifies this`chunks, this`top, this`topsize, this`dv, this`dvsize, this`smallmap, this`lists, this`treemap,
          this`trees, words
      modifies this`seg, this`segments, this`live
      ensures Valid() && tb > 0 && tb !in old(live) && live == old(live) + {tb} && tb in chunks
          && nb <= chunks[tb].size < nb + 32
      ensures Spans(old(segments), segments, tb, tn) && segments == PrependedSegments(old(segments), j, tb, tn)
      ensures LiveKept(old(words.mem), words.mem, old(chunks), chunks, old(live))
    {
      hide *;
      PrependReady(tb, tn, j);
      ghost var m, c := words.mem, chunks;
      RewriteRecord(sp, tb, tn, j);
      SteadyParts({});
      ghost var h := State();
      PrependAlloc(tb, tn, nb);
      EnterPrepended(h, tb, tn, j);
      LiveThen(m, h.mem, words.mem, c, c, chunks, old(live), old(live));
    }

    ghost method EnterPrepended(h: Heap, tb: int, tn: nat, j: nat)
      requires Steady({}) && Owned(h.chunks, fences, ms, live, system) && Segmented(h.chunks, h.top, fences, segments)
          && AllBeyond(segments, tb, tn)
      requires j < |segments| && segments[j].base == tb + tn && Recorded(h.mem, h.chunks, system, ms,
          PrependedSegments(segments, j, tb, tn))
      requires tb !in system && CoversMore(h.chunks, chunks, tb, tn)
          && Passes(h.mem, words.mem, h.chunks, chunks, fences, ms, {}, {tb})
      requires h.fences == fences && h.top in h.chunks && top + topsize == h.top + h.chunks[h.top].size
      requires Listed(seg, PrependedSegments(segments, j, tb, tn))
      modifies this`segments, this`live
      ensures Valid() && live == old(live) + {tb} && segments == PrependedSegments(old(segments), j, tb, tn)
      ensures LiveKept(h.mem, words.mem, h.chunks, chunks, old(live))
    {
      hide *;
      SteadyParts({});
      ArrangedPrepended(h, State(), At(), segments, live, system, j, tb, tn);
      segments := PrependedSegments(segments, j, tb, tn);
      live := live + {tb};
      ValidIs();
    }

    lemma PrependReady(tb: int, tn: nat, j: nat)
      requires Valid() && AllBeyond(segments, tb, tn) && Usable(tb, tn) && j < |segments| && segments[j].base == tb + tn
      ensures Preludable(chunks, top, fences, tb, tn) && tb !in system && tb !in live && tb > 0
      ensures Spans(segments, PrependedSegments(segments, j, tb, tn), tb, tn)
    {
      hide *;
      ValidParts();
      SteadyParts({});
      var h, at := State(), At();
      ArrangedParts(h, at, segments, live, system);
      SegmentsSpread(h, at, segments, live, system);
      GrowReady(h, at, segments, tb, tn);
      OkPreceded(h, at, {});
      FirstChunk(chunks, segments, j);
      IsPreludable(h, tb, tn);
      PreludableFacts(chunks, top, fences, tb, tn);
      NotSystem(h, at, segments, live, system, tb);
      PrependedSpans(segments, j, tb, tn);
    }

    // -- asking the provider --

    /** Where a region goes: behind the top chunk, in front of a segment, or on its own. */
    method TakeRegion(tb: int, tn: nat, nb: nat) returns (p: int)
      requires Valid() && AllBeyond(segments, tb, tn) && Usable(tb, tn) && InZone(zone, tb, tn) && nb % 16 == 0
          && 32 <= nb && nb + TOP_FOOT < tn
      modifies this, words
      ensures Valid() && p > 0 && p !in old(live) && live == old(live) + {p} && p in chunks
          && nb <= chunks[p].size < nb + 32
      ensures Spans(old(segments), segments, tb, tn) && Taken(old(segments), segments, tb, tn)
      ensures LiveKept(old(words.mem), words.mem, old(chunks), chunks, old(live))
    {
      hide *;
      RecordSize();
      ghost var m, c := words.mem, chunks;
      NewestHoldsTop();
      var sp, i := SegmentEnding(tb);
      if sp != 0 {
        PointerReads(i);
        HoldsTop(i);
      }
      if sp != 0 && SegmentFlags(sp) != EXTERN_BIT && SegmentBase(sp) <= top < SegmentBase(sp) + SegmentSize(sp) {
        Append(tb, tn);
        TakenBehind(old(segments), tb, tn);
        ghost var m1, c1 := words.mem, chunks;
        p := ServeTop(nb);
        LiveThen(m, m1, words.mem, c, c1, chunks, old(live), old(live));
      } else {
        sp, i := SegmentStarting(tb + tn);
        if sp != 0 && SegmentFlags(sp) != EXTERN_BIT {
          p := tb;
          PointerReads(i);
          Prepend(sp, tb, tn, nb, i);
          TakenFront(old(segments), tb, tn, i);
        } else {
          if sp != 0 {
            PointerReads(i);
          }
          AddSegment(tb, tn);
          TakenOwn(old(segments), segments, tb, tn);
          ghost var m1, c1 := words.mem, chunks;
          p := ServeTop(nb);
          LiveThen(m, m1, words.mem, c, c1, chunks, old(live), old(live));
        }
      }
    }

    /** Only the newest segment holds the top chunk. */
    lemma HoldsTop(i: nat)
      requires Valid() && i < |segments|
      ensures segments[i].base <= top < segments[i].base + segments[i].size ==>
          i == |segments| - 1 && segments[i].base == seg.base && segments[i].size == seg.size
    {
      hide *;
      ValidParts();
      SteadyParts({});
      SegmentsSpread(State(), At(), segments, live, system);
      LastEnd(State(), At(), segments, live, system);
      ListedParts(seg, segments, ms);
      ChunkFacts(State(), At(), {}, top);
      LastHolds(State(), At(), segments, live, system);
      ApartPair(segments, i, |segments| - 1);
    }

    lemma NewestHoldsTop()
      requires Valid()
      ensures |segments| > 0 && segments[|segments| - 1].base <= top
          && top < segments[|segments| - 1].base + segments[|segments| - 1].size
    {
      hide *;
      ValidParts();
      SteadyParts({});
      LastEnd(State(), At(), segments, live, system);
      ChunkFacts(State(), At(), {}, top);
      LastHolds(State(), At(), segments, live, system);
    }

    /** `sys_alloc`: ask the provider, and serve the request from what it gives. */
    method SysAlloc(nb: nat, granularity: nat, region: Region) returns (p: int)
      requires Valid() && Offered(region, segments, zone) && granularity > 0
          && (nb == WORD - 1 || (nb % 16 == 0 && 32 <= nb < WORD))
      modifies this, words
      ensures Valid() && (p == 0 <==> nb == WORD - 1 || !Suits(region, nb, granularity))
      ensures p == 0 ==>
          live == old(live) && State() == old(State()) && topsize == old(topsize) && segments == old(segments)
      ensures p != 0 ==>
          p > 0 && p !in old(live) && live == old(live) + {p} && p in chunks && nb <= chunks[p].size < nb + 32
      ensures p != 0 ==>
          region.Granted? && Spans(old(segments), segments, region.base, region.size)
          && Taken(old(segments), segments, region.base, region.size)
      ensures LiveKept(old(words.mem), words.mem, old(chunks), chunks, old(live))
    {
      hide *;
      ValidParts();
      SteadyParts({});
      ArrangedParts(State(), At(), segments, live, system);
      LiveSame(words.mem, chunks, fences, ms, live, system);
      TooMuch(granularity);
      SuitsParts(region, nb, granularity);
      RecordSize();
      p := 0;
      var asize := Asked(nb, granularity);
      if asize <= nb {
        return;
      }
      if asize < HALF_MAX {
        if region.Granted? && region.size > nb + TOP_FOOT {
          OfferedParts(region, segments, zone);
          p := TakeRegion(region.base, region.size, nb);
        }
      }
    }

    /** `mspace_malloc` without the provider. */
    method Obtain(bytes: nat) returns (p: int)
      requires Steady({}) && bytes < WORD
      modifies this`chunks, this`smallmap, this`treemap, this`lists, this`trees, this`dv, this`dvsize, this`top,
          this`topsize, words
      ensures Steady({}) && top + topsize == old(top + topsize)
      ensures p == 0 ==> State() == old(State())
      ensures p == 0 <==> NoRoom(old(State()), RequestSize(bytes))
      ensures p != 0 ==>
          p > 0 && bytes < MAX_REQUEST && Served(old(words.mem), words.mem, old(chunks), chunks, ms, p,
          RequestSize(bytes))
    {
      hide *;
      Limits();
      RequestFacts(bytes);
      SteadyParts({});
      ghost var h := State();
      DvBelowWord(h, At(), dvsize);
      TopIn(h, At(), {});
      ChunkFacts(h, At(), {}, top);
      var nb := RequestSize(bytes);
      NoRoomIs(h, nb);
      p := 0;
      if bytes <= MAX_SMALL_REQUEST {
        p := SmallRequest(nb);
      } else if bytes < MAX_REQUEST {
        if treemap != 0 {
          p := TmallocLarge(nb);
        } else {
          NoTreesAtAll(State(), At());
        }
        if p == 0 {
          SteadyParts({});
          LargeNone(State(), At(), dvsize, nb);
        }
      } else {
        HugeNone(State(), At(), nb);
      }
      if p == 0 {
        SteadyParts({});
        if nb <= dvsize {
          p := UseDv(nb);
        } else if nb < topsize {
          ghost var m, c := words.mem, chunks;
          NoChange(words.mem, chunks, ms);
          p := UseTop(nb, {});
          NoChange(words.mem, chunks, ms);
          ServedFront(m, m, words.mem, words.mem, c, ms, p, nb);
          return;
        }
      }
      if p != 0 {
        ServedElsewhere(h, p, nb);
      }
    }

    /** A chunk that is used now, while the top chunk has stayed, was a free chunk other than that. */
    lemma ServedElsewhere(h: Heap, p: int, nb: nat)
      requires Steady({}) && h.top == top && Served(h.mem, words.mem, h.chunks, chunks, ms, p, nb)
      ensures !NothingFits(h, nb)
    {
      hide *;
      SteadyParts({});
      TopFacts(State(), At(), {});
      ServedParts(h.mem, words.mem, h.chunks, chunks, ms, p, nb);
      SomethingFits(h, nb, p);
    }

    /** `mspace_malloc`: the block is aligned, large enough and new, and no other block changes; it fails only if no
        free chunk fits and the provider gives nothing. */
    method Malloc(bytes: nat, granularity: nat, region: Region) returns (mem: int)
      requires Valid() && bytes < WORD && granularity > 0 && Offered(region, segments, zone)
      modifies this, words
      ensures Valid() && LiveKept(old(words.mem), words.mem, old(chunks), chunks, old(live))
      ensures mem != 0 ==>
          mem > 16 && mem % 16 == 0 && mem - 16 !in old(live) && live == old(live) + {mem - 16} && mem - 16 in chunks
          && bytes + 8 <= chunks[mem - 16].size < RequestSize(bytes) + 32
      ensures mem != 0 ==>
          forall q :: q in old(live) ==> q in chunks && (mem + bytes <= q + 16 || q + chunks[q].size + 8 <= mem)
      ensures mem == 0 ==> live == old(live) && State() == old(State())
      ensures mem == 0 <==> Exhausted(old(State()), bytes, granularity, region)
      ensures segments == old(segments) || (region.Granted? && Spans(old(segments), segments, region.base, region.size))
      ensures segments == old(segments)
          || (NoRoom(old(State()), RequestSize(bytes)) && Taken(old(segments), segments, region.base, region.size))
    {
      hide *;
      Limits();
      ValidParts();
      SteadyParts({});
      RequestFacts(bytes);
      ghost var h := State();
      ExhaustedIs(h, bytes, granularity, region);
      var p := Obtain(bytes);
      if p != 0 {
        Deliver(p, RequestSize(bytes), h);
      } else {
        SteadyParts({});
        ValidIs();
        p := SysAlloc(RequestSize(bytes), granularity, region);
      }
      if p == 0 {
        mem := 0;
      } else {
        mem := p + 16;
        NewBlock(p, bytes, old(live));
      }
    }

    lemma NewBlock(p: int, bytes: nat, others: set<int>)
      requires Valid() && p in live && p in chunks && bytes + 8 <= chunks[p].size && others <= live && p !in others
      ensures (p + 16) % 16 == 0 && p > 0
      ensures forall q :: q in others ==>
          q in chunks && (p + 16 + bytes <= q + 16 || q + chunks[q].size + 8 <= p + 16)
    {
      hide *;
      ValidParts();
      SteadyParts({});
      ChunkFacts(State(), At(), {}, p);
      AlignedSum(p, 16, 0);
      forall q | q in others
        ensures q in chunks && (p + 16 + bytes <= q + 16 || q + chunks[q].size + 8 <= p + 16)
      {
        BlocksApart(p, q);
      }
    }

    // ---- free ----

    /** The merged chunk becomes the top chunk. */
    method MergeIntoTop(q: int, total: nat, ghost p: int)
      requires p in chunks && p + chunks[p].size == top && q + total == top + topsize
      requires Steady(Neighbours(State(), q, p, true)) && Disposable(State(), At(), q, p, true)
      requires Releasable(chunks, q, p, true) && total == Total(chunks, q, p, true)
      modifies this`chunks, this`top, this`topsize, this`dv, this`dvsize, words
      ensures Steady({}) && top + topsize == old(top + topsize)
      ensures Passes(old(words.mem), words.mem, old(chunks), chunks, fences, ms, {p}, {})
          && SameCover(old(chunks), chunks)
    {
      hide *;
      StateIs();
      ghost var h, at := State(), At();
      SteadyParts(Neighbours(h, q, p, true));
      DisposableFlagged(h, at, q, p, true);
      ghost var h1 := Disposed(h, q, p, true);
      DisposeAll(h, h1, at, q, p, true, total);
      DisposedFields(h, q, p, true, total);
      TakesDvIs(h, q, p, true);
      EndIs(chunks, p);
      DisposableFacts(h, at, q, p, true);
      topsize := total;
      top := q;
      StoreTopHead(words, q, total);
      if q == dv {
        dv, dvsize := 0, 0;
      }
      chunks := Released(h.chunks, q, p, true);
      SteadyIs({});
    }

    /** The merged chunk becomes the designated victim. */
    method MergeIntoDv(q: int, total: nat, merge: bool, ghost p: int)
      requires p in chunks && !(merge && p + chunks[p].size == top)
      requires Steady(Neighbours(State(), q, p, merge)) && Disposable(State(), At(), q, p, merge)
      requires TakesDv(State(), q, p, merge) && Releasable(chunks, q, p, merge) && total == Total(chunks, q, p, merge)
      modifies this`chunks, this`dv, this`dvsize, words
      ensures Steady({}) && Passes(old(words.mem), words.mem, old(chunks), chunks, fences, ms, {p}, {})
          && SameCover(old(chunks), chunks)
    {
      hide *;
      StateIs();
      ghost var h, at := State(), At();
      SteadyParts(Neighbours(h, q, p, merge));
      DisposableFlagged(h, at, q, p, merge);
      ghost var h1 := Disposed(h, q, p, merge);
      DisposeAll(h, h1, at, q, p, merge, total);
      DisposedFields(h, q, p, merge, total);
      TakesDvIs(h, q, p, merge);
      EndIs(chunks, p);
      DisposableFacts(h, at, q, p, merge);
      dv, dvsize := q, total;
      if merge {
        StoreMerged(words, q, total);
      } else {
        StoreFreed(words, q, total);
      }
      chunks := Released(h.chunks, q, p, merge);
      SteadyIs({});
    }

    /** The merged chunk goes into a bin. */
    method MergeIntoBin(q: int, total: nat, merge: bool, ghost p: int)
      requires p in chunks && !(merge && p + chunks[p].size == top)
      requires Steady(Neighbours(State(), q, p, merge)) && Disposable(State(), At(), q, p, merge)
      requires !TakesDv(State(), q, p, merge) && Releasable(chunks, q, p, merge) && total == Total(chunks, q, p, merge)
      modifies this`chunks, this`smallmap, this`lists, this`treemap, this`trees, words
      ensures Steady({}) && Passes(old(words.mem), words.mem, old(chunks), chunks, fences, ms, {p}, {})
          && SameCover(old(chunks), chunks)
    {
      hide *;
      StateIs();
      ghost var h, at := State(), At();
      SteadyParts(Neighbours(h, q, p, merge));
      DisposableFlagged(h, at, q, p, merge);
      ghost var h1 := Disposed(h, q, p, merge);
      DisposeAll(h, h1, at, q, p, merge, total);
      DisposedFields(h, q, p, merge, total);
      TakesDvIs(h, q, p, merge);
      EndIs(chunks, p);
      DisposableFacts(h, at, q, p, merge);
      if merge {
        StoreMerged(words, q, total);
      } else {
        StoreFreed(words, q, total);
      }
      chunks := Released(h.chunks, q, p, merge);
      SteadyIs({q});
      ghost var m1 := words.mem;
      InsertChunk(q, total, {q});
      assert {q} - {q} == {};
      NoChange(h.mem, h.chunks, ms);
      PassesAround(h.mem, h.mem, m1, words.mem, h.chunks, chunks, fences, ms, {p}, {});
    }

    /** `dispose_chunk`, and the body of `mspace_free`: merge a chunk with its free neighbours, and put the result
        where it belongs. */
    method Consolidate(p: int, psize: nat)
      requires Steady({}) && p in chunks && chunks[p].used && chunks[p].size == psize && p + psize in chunks
          && p != ms - 16
      modifies this`chunks, this`top, this`topsize, this`dv, this`dvsize, this`smallmap, this`lists, this`treemap,
          this`trees, words
      ensures Steady({}) && top + topsize == old(top + topsize)
      ensures Passes(old(words.mem), words.mem, old(chunks), chunks, fences, ms, {p}, {})
          && SameCover(old(chunks), chunks)
    {
      hide *;
      SteadyParts({});
      ghost var h := State();
      NextFacts(h, At(), p);
      NoChange(words.mem, chunks, ms);
      var next := p + psize;
      if PinuseIn(Get(words.mem, p + HEAD)) {
        ConsolidateForward(p, psize, p, next);
        NoChange(words.mem, chunks, ms);
        PassesAround(h.mem, h.mem, words.mem, words.mem, h.chunks, chunks, fences, ms, {p}, {});
      } else {
        var prevsize := Get(words.mem, p);
        PreviousOf(h, At(), p);
        var q := p - prevsize;
        PreviousIs(h, ms, p, q);
        if q != dv {
          WaitingFree(h, q);
          UnlinkChunk(q, prevsize, {});
          assert {} + {q} == {q};
        }
        ghost var m1 := words.mem;
        ConsolidateForward(q, psize + prevsize, p, next);
        ghost var m2 := words.mem;
        NoChange(m2, chunks, ms);
        PassesAround(h.mem, m1, m2, m2, h.chunks, chunks, fences, ms, {p}, {});
      }
    }

    /** The second half: the chunk before, if it is free, is in no bin. */
    method ConsolidateForward(q: int, psize: nat, ghost p: int, next: int)
      requires p in chunks && chunks[p].used && next == p + chunks[p].size && next in chunks && p != ms - 16
      requires q == p || (q in chunks && !chunks[q].used && q + chunks[q].size == p && q != top)
      requires q in chunks && chunks[q].pinuse && psize == next - q && Steady(if q == p || q == dv then {} else {q})
      modifies this`chunks, this`top, this`topsize, this`dv, this`dvsize, this`smallmap, this`lists, this`treemap,
          this`trees, words
      ensures Steady({}) && top + topsize == old(top + topsize)
      ensures Passes(old(words.mem), words.mem, old(chunks), chunks, fences, ms, {p}, {})
          && SameCover(old(chunks), chunks)
    {
      hide *;
      ghost var loose := if q == p || q == dv then {} else {q};
      SteadyParts(loose);
      ghost var h, at := State(), At();
      ForwardFacts(h, at, loose, q, p);
      NoChange(words.mem, chunks, ms);
      if UsedIn(Get(words.mem, next + HEAD)) {
        IsDisposable(h, at, loose, q, p, false);
        TakesDvIs(h, q, p, false);
        if q == dv {
          MergeIntoDv(q, psize, false, p);
        } else {
          MergeIntoBin(q, psize, false, p);
        }
      } else if next == top {
        IsDisposable(h, at, loose, q, p, true);
        MergeIntoTop(q, psize + topsize, p);
      } else if next == dv {
        IsDisposable(h, at, loose, q, p, true);
        TakesDvIs(h, q, p, true);
        MergeIntoDv(q, psize + dvsize, true, p);
      } else {
        var nsize := SizeIn(Get(words.mem, next + HEAD));
        WaitingNext(h, loose, next, q);
        UnlinkChunk(next, nsize, loose);
        ghost var m1 := words.mem;
        SteadyParts(loose + {next});
        IsDisposable(State(), at, loose + {next}, q, p, true);
        TakesDvIs(State(), q, p, true);
        if q == dv {
          MergeIntoDv(q, psize + nsize, true, p);
        } else {
          MergeIntoBin(q, psize + nsize, true, p);
        }
        NoChange(words.mem, chunks, ms);
        PassesAround(h.mem, m1, words.mem, words.mem, h.chunks, chunks, fences, ms, {p}, {});
      }
    }

    /** `mspace_free`: the block is gone, and no other block changes. */
    method Free(mem: int)
      requires Valid() && (mem != 0 ==> mem - 16 in live)
      modifies this`chunks, this`top, this`topsize, this`dv, this`dvsize, this`smallmap, this`lists, this`treemap,
          this`trees, this`live, words
      ensures Valid() && live == old(live) - {mem - 16}
      ensures LiveKept(old(words.mem), words.mem, old(chunks), chunks, old(live) - {mem - 16})
    {
      hide *;
      ValidParts();
      SteadyParts({});
      ghost var h := State();
      if mem == 0 {
        NothingFreed(h, At(), segments, live, system);
        return;
      }
      var p := mem - 16;
      BlockFacts(h, At(), segments, live, system, p);
      ChunkFacts(h, At(), {}, p);
      Consolidate(p, SizeIn(Get(words.mem, p + HEAD)));
      SteadyParts({});
      Settle(h, {p}, {});
      assert old(live) - {p} + {} == old(live) - {p};
    }

    // ---- realloc ----

    /** Cut a block in two, both in use. */
    method CutBlock(p: int, ghost size: nat, nb: nat, rsize: nat)
      requires Steady({}) && p in chunks && chunks[p].used && chunks[p].size == size && p + size in chunks
          && p != ms - 16 && nb % 16 == 0 && 32 <= nb && 32 <= rsize && nb + rsize == size
      modifies this`chunks, words
      ensures Steady({}) && p + nb !in old(chunks) && p in chunks && chunks[p].size == nb
      ensures p + nb in chunks && chunks[p + nb].used && chunks[p + nb].size == rsize && p + nb + rsize in chunks
      ensures Passes(old(words.mem), words.mem, old(chunks), chunks, fences, ms, {p}, {p, p + nb})
          && SameCover(old(chunks), chunks)
      ensures SameFrom(old(words.mem), words.mem, p + 16, p + (if nb < size then nb else size) + 8)
    {
      hide *;
      SteadyParts({});
      ghost var h, at := State(), At();
      Cut(h, at, {}, p, nb);
      TopFacts(h, at, {});
      SplitMeasures(chunks, p, nb);
      SplitCover(chunks, p, nb);
      DvZero(h, at, {});
      StoreInuse(words, p, nb);
      StoreInuse(words, p + nb, rsize);
      chunks := Split(chunks, p, nb);
      SteadyIs({});
      NoFenceNow({});
      CutPasses(h.mem, words.mem, h.chunks, fences, ms, p, nb);
    }

    /** The block is already large enough: split off what is too much. */
    method Shrink(p: int, size: nat, nb: nat)
      requires Steady({}) && p in chunks && chunks[p].used && chunks[p].size == size && p + size in chunks
          && p != ms - 16 && nb % 16 == 0 && 32 <= nb && nb + 32 <= size
      modifies this`chunks, this`top, this`topsize, this`dv, this`dvsize, this`smallmap, this`lists, this`treemap,
          this`trees, words
      ensures Steady({}) && top + topsize == old(top + topsize)
          && Resized(old(words.mem), words.mem, old(chunks), chunks, fences, ms, p, nb)
    {
      hide *;
      ghost var m, c := words.mem, chunks;
      StateHere({});
      CutBlock(p, size, nb, size - nb);
      ghost var m1, c1 := words.mem, chunks;
      Consolidate(p + nb, size - nb);
      ResizedCut(m, m1, words.mem, c, c1, chunks, fences, ms, p, nb);
    }

    lemma StateHere(loose: set<int>)
      requires Steady(loose)
      ensures ms - 16 in chunks
    {
      hide *;
      SteadyParts(loose);
      OkParts(State(), At(), loose);
      StateIn(State(), ms);
    }

    lemma NoFenceNow(loose: set<int>)
      requires Steady(loose)
      ensures NoFenceIn(chunks, fences)
    {
      hide *;
      SteadyParts(loose);
      TopLastIs(State(), At(), loose);
      NoFences(chunks, top, fences);
    }

    /** Extend into the top chunk. */
    method GrowIntoTop(p: int, size: nat, nb: nat)
      requires Steady({}) && p in chunks && chunks[p].used && chunks[p].size == size && p + size in chunks
          && p != ms - 16 && nb % 16 == 0 && 32 <= nb && size < nb < size + topsize && p + size == top
      modifies this`chunks, this`top, this`topsize, words
      ensures Steady({}) && top + topsize == old(top + topsize)
          && Resized(old(words.mem), words.mem, old(chunks), chunks, fences, ms, p, nb)
    {
      hide *;
      SteadyParts({});
      ghost var h, at := State(), At();
      TopFacts(h, at, {});
      GrowthFacts(h, at, {}, p);
      NextPlacedIs(chunks, top, p);
      InsideNext(h, at, {}, p, nb);
      GrowTop(h, at, {}, p, nb);
      GrownShape(chunks, p, nb);
      GrownCover(chunks, p, nb);
      DvZero(h, at, {});
      var newtopsize := size + topsize - nb;
      StoreInuse(words, p, nb);
      StoreTopHead(words, p + nb, newtopsize);
      TopTagsIs(h.mem, p, nb, newtopsize);
      top, topsize := p + nb, newtopsize;
      chunks := Grown(chunks, p, nb);
      SteadyIs({});
      NoFenceNow({});
      GrownPasses(h.mem, words.mem, h.chunks, fences, ms, p, nb);
      ResizedIs(h.mem, words.mem, h.chunks, chunks, fences, ms, p, nb);
    }

    /** Extend into the designated victim, and leave a smaller one. */
    method ShareDv(p: int, size: nat, nb: nat)
      requires Steady({}) && p in chunks && chunks[p].used && chunks[p].size == size && p + size in chunks
          && p != ms - 16 && nb % 16 == 0 && size < nb && nb + 32 <= size + dvsize && p + size == dv
      modifies this`chunks, this`dv, this`dvsize, words
      ensures Steady({}) && top + topsize == old(top + topsize)
          && Resized(old(words.mem), words.mem, old(chunks), chunks, fences, ms, p, nb)
    {
      hide *;
      SteadyParts({});
      ghost var h, at := State(), At();
      DvZero(h, at, {});
      TopFacts(h, at, {});
      var dsize := size + dvsize - nb;
      DvShared(h, at, p, nb, dsize);
      NextIs(chunks, p);
      DvIsSharedIs(h, at, p, nb, dsize);
      GrownShape(chunks, p, nb);
      GrownCover(chunks, p, nb);
      StoreInuse(words, p, nb);
      StoreShared(words, p + nb, dsize);
      GrownTagsIs(h.mem, p, nb, dsize);
      dv, dvsize := p + nb, dsize;
      chunks := Grown(chunks, p, nb);
      SteadyIs({});
      NoFenceNow({});
      GrownPasses(h.mem, words.mem, h.chunks, fences, ms, p, nb);
      ResizedIs(h.mem, words.mem, h.chunks, chunks, fences, ms, p, nb);
    }

    /** Extend over the whole designated victim. */
    method ExhaustDv(p: int, size: nat, nb: nat)
      requires Steady({}) && p in chunks && chunks[p].used && chunks[p].size == size && p + size in chunks
          && p != ms - 16 && size < nb <= size + dvsize < nb + 32 && p + size == dv
      modifies this`chunks, this`dv, this`dvsize, words
      ensures Steady({}) && top + topsize == old(top + topsize)
          && Resized(old(words.mem), words.mem, old(chunks), chunks, fences, ms, p, nb)
    {
      hide *;
      SteadyParts({});
      ghost var h, at := State(), At();
      DvZero(h, at, {});
      DvOut(h, at, {});
      ghost var h0, q := h.(dv := 0), dv;
      ChunkFacts(h, at, {}, q);
      assert {} + {q} == {q} && {q} - {q} == {};
      GrowthFacts(h0, at, {q}, p);
      NextPlacedIs(chunks, top, p);
      Absorb(h0, at, {q}, p);
      AbsorbedIs(h0, at, {q}, p);
      JoinMeasures(chunks, p);
      JoinCover(chunks, p);
      TopFacts(h, at, {});
      StoreInuse(words, p, size + dvsize);
      dv, dvsize := 0, 0;
      chunks := Join(chunks, p);
      SteadyIs({});
      NoFenceNow({});
      AbsorbPasses(h.mem, words.mem, h.chunks, fences, ms, p);
      ResizedIs(h.mem, words.mem, h.chunks, chunks, fences, ms, p, nb);
    }

    /** Extend over the whole next chunk, which is in no bin. */
    method AbsorbNext(p: int, size: nat, nsize: nat, nb: nat)
      requires p + size in chunks && chunks[p + size].size == nsize && p + size != top && Steady({p + size})
      requires p in chunks && chunks[p].used && chunks[p].size == size && p + size in chunks && p != ms - 16
          && size < nb <= size + nsize < nb + 32
      modifies this`chunks, words
      ensures Steady({}) && top + topsize == old(top + topsize)
          && Resized(old(words.mem), words.mem, old(chunks), chunks, fences, ms, p, nb)
    {
      hide *;
      ghost var q := p + size;
      SteadyParts({q});
      ghost var h, at := State(), At();
      assert {q} - {q} == {};
      LooseFacts(h, at, {q}, q);
      GrowthFacts(h, at, {q}, p);
      NextPlacedIs(chunks, top, p);
      Absorb(h, at, {q}, p);
      AbsorbedIs(h, at, {q}, p);
      JoinMeasures(chunks, p);
      JoinCover(chunks, p);
      TopFacts(h, at, {q});
      DvZero(h, at, {q});
      StoreInuse(words, p, size + nsize);
      chunks := Join(chunks, p);
      SteadyIs({});
      NoFenceNow({});
      AbsorbPasses(h.mem, words.mem, h.chunks, fences, ms, p);
      ResizedIs(h.mem, words.mem, h.chunks, chunks, fences, ms, p, nb);
    }

    /** Extend over a part of the next chunk, which is in no bin; the rest is in use, too. */
    method SplitNext(p: int, ghost size: nat, ghost nsize: nat, nb: nat, rsize: nat)
      requires p + size in chunks && chunks[p + size].size == nsize && p + size != top && Steady({p + size})
      requires p in chunks && chunks[p].used && chunks[p].size == size && p + size in chunks && p != ms - 16
          && nb % 16 == 0 && 32 <= nb && size < nb && 32 <= rsize && nb + rsize == size + nsize
      modifies this`chunks, words
      ensures Steady({}) && p + nb !in old(chunks) && p in chunks && chunks[p].size == nb
      ensures p + nb in chunks && chunks[p + nb].used && chunks[p + nb].size == rsize && p + nb + rsize in chunks
      ensures Passes(old(words.mem), words.mem, old(chunks), chunks, fences, ms, {p}, {p, p + nb})
          && SameCover(old(chunks), chunks)
      ensures SameFrom(old(words.mem), words.mem, p + 16, p + (if nb < size then nb else size) + 8)
    {
      hide *;
      ghost var q := p + size;
      SteadyParts({q});
      ghost var h, at := State(), At();
      assert {q} - {q} == {};
      LooseFacts(h, at, {q}, q);
      GrowthFacts(h, at, {q}, p);
      NextPlacedIs(chunks, top, p);
      InsideNext(h, at, {q}, p, nb);
      GrowCut(h, at, {q}, p, nb);
      JoinedSize(chunks, p);
      GrownAndCutIs(h, at, {q}, p, nb);
      GrowCutMeasures(chunks, p, nb);
      TopFacts(h, at, {q});
      DvZero(h, at, {q});
      StoreInuse(words, p, nb);
      StoreInuse(words, p + nb, rsize);
      chunks := Split(Join(chunks, p), p, nb);
      SteadyIs({});
      NoFenceNow({});
      GrowCutPasses(h.mem, words.mem, h.chunks, fences, ms, p, nb);
    }

    /** The same, and the rest released. */
    method ShareNext(p: int, size: nat, nsize: nat, nb: nat)
      requires p + size in chunks && chunks[p + size].size == nsize && p + size != top && Steady({p + size})
      requires p in chunks && chunks[p].used && chunks[p].size == size && p + size in chunks && p != ms - 16
          && nb % 16 == 0 && 32 <= nb && size < nb && nb + 32 <= size + nsize
      modifies this`chunks, this`top, this`topsize, this`dv, this`dvsize, this`smallmap, this`lists, this`treemap,
          this`trees, words
      ensures Steady({}) && top + topsize == old(top + topsize)
          && Resized(old(words.mem), words.mem, old(chunks), chunks, fences, ms, p, nb)
    {
      hide *;
      ghost var m, c := words.mem, chunks;
      StateHere({p + size});
      SplitNext(p, size, nsize, nb, size + nsize - nb);
      ghost var m1, c1 := words.mem, chunks;
      Consolidate(p + nb, size + nsize - nb);
      ResizedCut(m, m1, words.mem, c, c1, chunks, fences, ms, p, nb);
    }

    /** `try_realloc_chunk`. */
    method TryRealloc(p: int, nb: nat) returns (done: bool)
      requires Steady({}) && p in chunks && chunks[p].used && p + chunks[p].size in chunks && p != ms - 16
          && nb % 16 == 0 && 32 <= nb
      modifies this`chunks, this`top, this`topsize, this`dv, this`dvsize, this`smallmap, this`lists, this`treemap,
          this`trees, words
      ensures Steady({}) && top + topsize == old(top + topsize)
      ensures done ==> Resized(old(words.mem), words.mem, old(chunks), chunks, fences, ms, p, nb)
      ensures !done ==> State() == old(State()) && dvsize == old(dvsize) && topsize == old(topsize)
      ensures done <==> Resizable(old(State()), p, nb)
    {
      hide *;
      MinChunk();
      SteadyParts({});
      ghost var h := State();
      NextFacts(h, At(), p);
      ResizableIs(h, p, nb);
      DvZero(h, At(), {});
      NoFenceNow({});
      var oldsize := SizeIn(Get(words.mem, p + HEAD));
      var next := p + oldsize;
      done := true;
      if oldsize >= nb {
        if oldsize - nb >= MIN_CHUNK {
          Shrink(p, oldsize, nb);
        } else {
          NotAtFence(chunks, fences, next);
          ResizedSame(words.mem, chunks, fences, ms, p, nb);
        }
      } else if next == top {
        if oldsize + topsize > nb {
          GrowIntoTop(p, oldsize, nb);
        } else {
          done := false;
        }
      } else if next == dv {
        if oldsize + dvsize >= nb {
          if oldsize + dvsize - nb >= MIN_CHUNK {
            ShareDv(p, oldsize, nb);
          } else {
            ExhaustDv(p, oldsize, nb);
          }
        } else {
          done := false;
        }
      } else if !UsedIn(Get(words.mem, next + HEAD)) {
        var nextsize := SizeIn(Get(words.mem, next + HEAD));
        if oldsize + nextsize >= nb {
          GrowIntoNext(p, oldsize, nextsize, nb);
        } else {
          done := false;
        }
      } else {
        done := false;
      }
    }

    /** Extend into the next chunk, which is in a bin. */
    method GrowIntoNext(p: int, size: nat, nsize: nat, nb: nat)
      requires p + size in chunks && chunks[p + size].size == nsize && !chunks[p + size].used && p + size != top
          && p + size != dv && Steady({})
      requires p in chunks && chunks[p].used && chunks[p].size == size && p + size in chunks && p != ms - 16
          && nb % 16 == 0 && 32 <= nb && size < nb <= size + nsize
      modifies this`chunks, this`top, this`topsize, this`dv, this`dvsize, this`smallmap, this`lists, this`treemap,
          this`trees, words
      ensures Steady({}) && top + topsize == old(top + topsize)
          && Resized(old(words.mem), words.mem, old(chunks), chunks, fences, ms, p, nb)
    {
      hide *;
      MinChunk();
      var next := p + size;
      SteadyParts({});
      ghost var m, c := words.mem, chunks;
      WaitingFree(State(), next);
      UnlinkChunk(next, nsize, {});
      assert {} + {next} == {next};
      ghost var m1 := words.mem;
      if size + nsize - nb < MIN_CHUNK {
        AbsorbNext(p, size, nsize, nb);
      } else {
        ShareNext(p, size, nsize, nb);
      }
      ResizedAfter(m, m1, words.mem, c, chunks, fences, ms, p, nb);
    }

    /** Words are written in the payload of a block. */
    lemma WriteKeeps(h: Heap, p: int)
      requires State() == h.(mem := words.mem) && p in live && p in h.chunks && Measures() && NoFreePair(h.chunks)
      requires Ok(h, At(), {}) && Arranged(h, At(), segments, live, system) && Listed(seg, segments)
      requires forall a :: Get(words.mem, a) != Get(h.mem, a) ==> p + 16 <= a < p + h.chunks[p].size + 8
      ensures Valid() && LiveKept(h.mem, words.mem, h.chunks, chunks, live - {p})
    {
      hide *;
      StateIs();
      LiveFacts(h, At(), segments, live, system, p);
      PayloadWrite(h, At(), {}, p, words.mem);
      WritePasses(h.mem, words.mem, chunks, fences, ms, p);
      TopIn(h, At(), {});
      ArrangedPasses(h, State(), At(), segments, live, system, {p}, {p});
      assert live - {p} + {p} == live;
      MeasuresAre();
      SteadyIs({});
      ValidIs();
    }

    lemma MeasuresAre()
      requires Measures()
      ensures top in chunks && topsize == chunks[top].size && (if dv
          == 0 then dvsize == 0 else dv in chunks && dvsize == chunks[dv].size)
    {
    }

    /** Different blocks do not overlap. */
    lemma BlocksApart(p: int, q: int)
      requires Valid() && p in live && q in live && p != q
      ensures p in chunks && q in chunks && (p + chunks[p].size + 8 <= q + 16 || q + chunks[q].size + 8 <= p + 16)
    {
      hide *;
      ValidParts();
      SteadyParts({});
      LiveFacts(State(), At(), segments, live, system, p);
      LiveFacts(State(), At(), segments, live, system, q);
      PayloadsApart(State(), At(), {}, p, q);
    }

    /** A caller writes a cell of its block. */
    method Write(mem: int, k: nat, v: int)
      requires Valid() && mem - 16 in live && mem - 16 in chunks && k + 8 < chunks[mem - 16].size
      modifies words
      ensures Valid() && Cell(words.mem, mem, k) == v && LiveKept(old(words.mem), words.mem, chunks, chunks,
          live - {mem - 16})
      ensures forall j :: j != k ==> Cell(words.mem, mem, j) == Cell(old(words.mem), mem, j)
    {
      hide *;
      ValidParts();
      SteadyParts({});
      StateIs();
      ghost var h := State();
      words.mem := words.mem[mem + k := v];
      WroteCell(h.mem, mem, k, v);
      StateIs();
      SameMeasures(h);
      WriteKeeps(h, mem - 16);
    }

    /** The last part of `mspace_realloc`: a new block, a copy, and the old block freed. */
    method Move(mem: int, bytes: nat, granularity: nat, region: Region) returns (r: int)
      requires Valid() && bytes < WORD && granularity > 0 && Offered(region, segments, zone) && mem - 16 in live
          && mem - 16 in chunks
      modifies this, words
      ensures Valid()
      ensures r == 0 ==> live == old(live) && State() == old(State())
      ensures r == 0 <==> Exhausted(old(State()), bytes, granularity, region)
      ensures r != 0 ==> r > 16 && r % 16 == 0 && r - 16 !in old(live) && live == old(live) - {mem - 16} + {r - 16}
      ensures r != 0 ==>
          r - 16 in chunks && bytes + 8 <= chunks[r - 16].size < RequestSize(bytes) + 32
          && LiveKept(old(words.mem), words.mem, old(chunks), chunks, old(live) - {mem - 16})
      ensures r != 0 ==> SameCells(old(words.mem), mem, words.mem, r, Smaller(old(chunks)[mem - 16].size - 8, bytes))
      ensures segments == old(segments) || (region.Granted? && Spans(old(segments), segments, region.base, region.size))
    {
      hide *;
      ghost var m0, c0, p := words.mem, chunks, mem - 16;
      r := Malloc(bytes, granularity, region);
      if r != 0 {
        ghost var m1 := words.mem;
        LiveAt(m0, m1, c0, chunks, old(live), p);
        CopyBlock(mem, r, bytes);
        ghost var m2, c2, q := words.mem, chunks, r - 16;
        Free(mem);
        MoveKeeps(m0, m1, m2, words.mem, c0, c2, chunks, old(live), p, q, bytes);
      }
    }

    /** `memcpy(mem, oldmem, (oc < bytes)? oc : bytes)`. */
    method CopyBlock(mem: int, r: int, bytes: nat)
      requires Valid() && mem - 16 in live && r - 16 in live && mem != r && mem - 16 in chunks && r - 16 in chunks
          && bytes + 8 <= chunks[r - 16].size
      modifies words
      ensures Valid() && LiveKept(old(words.mem), words.mem, chunks, chunks, live - {r - 16})
      ensures SameCells(old(words.mem), mem, words.mem, r, Smaller(chunks[mem - 16].size - 8, bytes))
    {
      hide *;
      ValidParts();
      SteadyParts({});
      StateIs();
      ghost var h := State();
      ChunkFacts(h, At(), {}, mem - 16);
      PayloadsApart(h, At(), {}, mem - 16, r - 16);
      var oc := SizeIn(Get(words.mem, mem - 16 + HEAD)) - 8;
      SmallerIs(oc, bytes);
      CopyWords(words, r, mem, if oc < bytes then oc else bytes);
      StateIs();
      SameMeasures(h);
      WriteKeeps(h, r - 16);
    }

    lemma SameMeasures(h: Heap)
      requires h.chunks == chunks && top in chunks && topsize == chunks[top].size
          && (if dv == 0 then dvsize == 0 else dv in chunks && dvsize == chunks[dv].size)
      ensures Measures()
    {
    }

    /** `mspace_realloc`: the block keeps its contents as far as both sizes allow, and no other block changes. */
    method Realloc(mem: int, bytes: nat, granularity: nat, region: Region) returns (r: int)
      requires Valid() && bytes < WORD && granularity > 0 && Offered(region, segments, zone)
          && (mem != 0 ==> mem - 16 in live)
      modifies this, words
      ensures Valid() && (mem != 0 ==> mem - 16 in old(chunks))
      ensures r == 0 ==> live == old(live) && State() == old(State())
      ensures r == 0 <==>
          (if mem == 0 then Exhausted(old(State()), bytes, granularity, region)
           else Stuck(old(State()), mem - 16, bytes, granularity, region))
      ensures mem != 0 ==> StaysPut(old(State()), mem, bytes, r)
      ensures r != 0 ==>
          r > 16 && r % 16 == 0 && r - 16 !in old(live) - {mem - 16} && live == old(live) - {mem - 16} + {r - 16}
      ensures r != 0 ==>
          r - 16 in chunks && bytes + 8 <= chunks[r - 16].size < RequestSize(bytes) + 32
          && LiveKept(old(words.mem), words.mem, old(chunks), chunks, old(live) - {mem - 16})
      ensures r != 0 && mem != 0 ==>
          SameCells(old(words.mem), mem, words.mem, r, Smaller(old(chunks)[mem - 16].size - 8, bytes))
      ensures segments == old(segments) || (region.Granted? && Spans(old(segments), segments, region.base, region.size))
    {
      hide *;
      ValidParts();
      SteadyParts({});
      ghost var h, at := State(), At();
      if mem == 0 {
        NothingFreed(h, at, segments, live, system);
        r := Malloc(bytes, granularity, region);
        return;
      }
      var p := mem - 16;
      BlockFacts(h, at, segments, live, system, p);
      StuckIs(h, p, bytes, granularity, region);
      if bytes >= MAX_REQUEST {
        r := 0;
        StaysPutIs(h, mem, bytes, r);
        return;
      }
      RequestFacts(bytes);
      ChunkFacts(h, at, {}, p);
      var done := TryRealloc(p, RequestSize(bytes));
      SteadyParts({});
      if done {
        SmallerIs(h.chunks[p].size - 8, bytes);
        ResizedParts(h.mem, words.mem, h.chunks, chunks, fences, ms, p, RequestSize(bytes),
          Smaller(h.chunks[p].size - 8, bytes));
        NotOfSystem(system, p);
        Settle(h, {p}, {p});
        r := mem;
      } else {
        ValidIs();
        r := Move(mem, bytes, granularity, region);
      }
      StaysPutIs(h, mem, bytes, r);
    }
  }

  /** `create_mspace_with_base`: a region that cannot hold the state record and the foot of a top chunk is refused. */
  method CreateSpace(w: Words, base: int, capacity: nat, ghost zone: Zones) returns (s: Space?)
    requires base > 0 && base % 16 == 0 && capacity % 16 == 0 && InZone(zone, base, capacity)
    modifies w
    ensures s == null <==> capacity <= STATE_SIZE + TOP_FOOT
    ensures s == null ==> w.mem == old(w.mem)
    ensures s != null ==> fresh(s) && s.words == w && s.zone == zone && s.Valid() && s.live == {}
    ensures s != null ==> s.segments == [Segment(base, capacity - TOP_FOOT, capacity, EXTERN_BIT)]
  {
    hide *;
    s := null;
    if capacity > STATE_SIZE + TOP_FOOT {
      s := new Space(w, base, capacity, zone);
    }
  }
}
