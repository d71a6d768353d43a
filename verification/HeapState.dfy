/** The whole state of a space of `dlmalloc.c`: the tiling, the boundary tags that record it in memory, and the
    bins that hold the free chunks. */
module HeapState {
  import opened BinIndex
  import opened BinMaps
  import opened SizeTrie
  import opened HeapWords
  import opened HeapTiling
  import opened TreeLinks
  import opened TreeSearch
  import opened SmallBins

  /** `lists` and `trees` are the contents of the small bins and of the tree bins. */
  datatype Heap = Heap(mem: Mem, chunks: Chunks, top: int, fences: set<int>, dv: int,
                       smallmap: bv32, treemap: bv32, lists: seq<seq<int>>, trees: seq<Tree>)

  /** The state record at `ms`, in a chunk that is always in use, and the addresses of all memory. */
  datatype Place = Place(ms: int, zone: Zones)

  const STATE_SIZE: nat := 944

  ghost predicate Heads(m: Mem, c: Chunks) {
    forall p :: p in c ==> Get(m, p + HEAD) == Tag(c[p].size, c[p].used, c[p].pinuse)
  }

  /** A free chunk other than the top one has its size behind it. */
  ghost predicate Feet(m: Mem, c: Chunks, top: int) {
    forall p :: p in c && !c[p].used && p != top ==> Get(m, p + c[p].size) == c[p].size
  }

  /** The free chunks that belong in a bin; `loose` ones are on their way. */
  predicate Waiting(h: Heap, loose: set<int>, p: int) {
    p in h.chunks && !h.chunks[p].used && p != h.top && p != h.dv && p !in loose
  }

  ghost predicate SmallFilled(h: Heap, ms: int, loose: set<int>) {
    && |h.lists| == SMALL_BINS
    && (forall i :: 0 <= i < SMALL_BINS ==> SmallBinOk(h.mem, Header(ms, i), Marked(h.smallmap, i), h.lists[i]))
    && (forall i, p :: 0 <= i < SMALL_BINS && p in h.lists[i] ==> Waiting(h, loose, p) && h.chunks[p].size == 8 * i)
  }

  ghost predicate TreesFilled(h: Heap, ms: int, loose: set<int>) {
    && TreeBins(h.mem, ms, h.treemap, h.trees)
    && (forall i, p, z ::
      0 <= i < |h.trees| && Holds(h.trees[i], p, z) ==> Waiting(h, loose, p) && h.chunks[p].size == z)
  }

  /** The bin that a chunk belongs in holds it. */
  ghost predicate InBin(h: Heap, p: int)
    requires p in h.chunks
  {
    var z := h.chunks[p].size;
    if IsSmall(z) then z / 8 < |h.lists| && p in h.lists[z / 8]
    else TreeIndex(z) < |h.trees| && Holds(h.trees[TreeIndex(z)], p, z)
  }

  ghost predicate Complete(h: Heap, loose: set<int>) {
    forall p :: Waiting(h, loose, p) ==> InBin(h, p)
  }

  predicate StateChunk(h: Heap, ms: int) {
    ms - 16 in h.chunks && h.chunks[ms - 16].used && h.chunks[ms - 16].size >= STATE_SIZE
  }

  predicate Special(h: Heap, loose: set<int>) {
    && (h.dv != 0 ==> h.dv in h.chunks && !h.chunks[h.dv].used && h.dv != h.top && h.dv !in loose)
    && forall p :: p in loose ==> p in h.chunks && !h.chunks[p].used && p != h.top
  }

  ghost predicate Ok(h: Heap, at: Place, loose: set<int>) {
    && Tiled(h.chunks, h.top, h.fences, at.zone) && StateChunk(h, at.ms)
    && Heads(h.mem, h.chunks) && Feet(h.mem, h.chunks, h.top)
    && SmallFilled(h, at.ms, loose) && TreesFilled(h, at.ms, loose) && Complete(h, loose) && Special(h, loose)
  }

  // ---- a change of some chunks ----

  /** The words that belong to a chunk: its head, and everything up to the head of the next chunk. */
  predicate Owns(c: Chunks, p: int, a: int) { p in c && p + 8 <= a < p + c[p].size + 8 }

  predicate Unowned(c: Chunks, a: int) { forall p :: p in c ==> !Owns(c, p, a) }

  /** Only words of the chunks `ts` change, heads of the chunks `hs`, and words of no chunk. */
  ghost predicate Changes(m: Mem, m1: Mem, c: Chunks, ts: set<int>, hs: set<int>) {
    forall a :: Get(m1, a) != Get(m, a) ==> (exists p :: p in ts && Owns(c, p, a)) || a - HEAD in hs || Unowned(c, a)
  }

  predicate SameFrom(m: Mem, m1: Mem, lo: int, hi: int) { forall a :: lo <= a < hi ==> Get(m1, a) == Get(m, a) }

  predicate Roomy(c: Chunks) { forall p :: p in c ==> c[p].size >= 16 }

  lemma SizedRoomy(c: Chunks, top: int, z: Zones)
    requires Sized(c, top, z)
    ensures Roomy(c)
  {
  }

  lemma {:induction false} ChangesKeep(m: Mem, m1: Mem, c: Chunks, ts: set<int>, hs: set<int>, q: int)
    requires Changes(m, m1, c, ts, hs) && Separate(c) && Roomy(c) && q in c && q !in ts
    requires forall p :: p in hs ==> p in c
    ensures SameFrom(m, m1, q + 16, q + c[q].size + 8)
    ensures q !in hs ==> SameFrom(m, m1, q + 8, q + c[q].size + 8) && Get(m1, q + HEAD) == Get(m, q + HEAD)
  {
    forall a | q + 8 <= a < q + c[q].size + 8 && (a == q + 8 ==> q !in hs) ensures Get(m1, a) == Get(m, a) {
      OwnerIsOne(c, ts, hs, q, a);
    }
  }

  lemma OwnerIsOne(c: Chunks, ts: set<int>, hs: set<int>, q: int, a: int)
    requires Separate(c) && q in c && q !in ts && q + 8 <= a < q + c[q].size + 8 && (a == q + 8 ==> q !in hs)
    requires forall p :: p in hs ==> p in c
    ensures !exists p :: p in ts && Owns(c, p, a)
    ensures a - HEAD !in hs && !Unowned(c, a)
  {
    assert Owns(c, q, a);
  }

  /** The chunks outside `ts` stay as they are, but for the bit about the chunk before in those of `hs`. */
  predicate Kept(h: Heap, h1: Heap, loose: set<int>, loose1: set<int>, ts: set<int>, hs: set<int>) {
    forall q :: q in h.chunks && q !in ts ==>
      && q in h1.chunks && h1.chunks[q].size == h.chunks[q].size && h1.chunks[q].used == h.chunks[q].used
      && (q !in hs ==> h1.chunks[q].pinuse == h.chunks[q].pinuse)
      && (q == h.top <==> q == h1.top) && (q == h.dv <==> q == h1.dv) && (q in loose <==> q in loose1)
  }

  /** A chunk has its tags in memory, and is not one that should be in a bin. */
  ghost predicate Placed(h: Heap, loose: set<int>, q: int)
    requires q in h.chunks
  {
    && Get(h.mem, q + HEAD) == Tag(h.chunks[q].size, h.chunks[q].used, h.chunks[q].pinuse)
    && (!h.chunks[q].used && q != h.top ==> Get(h.mem, q + h.chunks[q].size) == h.chunks[q].size)
    && !Waiting(h, loose, q)
  }

  ghost predicate Edited(h: Heap, h1: Heap, loose: set<int>, loose1: set<int>, ts: set<int>, hs: set<int>) {
    && Changes(h.mem, h1.mem, h.chunks, ts, hs) && Kept(h, h1, loose, loose1, ts, hs)
    && h1.lists == h.lists && h1.trees == h.trees && h1.smallmap == h.smallmap && h1.treemap == h.treemap
    && (forall q :: q in ts ==> q in h.chunks && !Waiting(h, loose, q))
    && (forall q :: q in hs ==> q in h.chunks && q !in ts && h.chunks[q].used)
    && (forall q :: q in h1.chunks && (q !in h.chunks || q in ts || q in hs) ==> Placed(h1, loose1, q))
  }

  /** A chunk after the change: its words are as they were, or they have been placed. */
  lemma {:induction false} ChunkEdited(h: Heap, h1: Heap, loose: set<int>, loose1: set<int>, ts: set<int>,
      hs: set<int>, q: int)
    requires Edited(h, h1, loose, loose1, ts, hs) && Separate(h.chunks) && Roomy(h.chunks)
    requires Heads(h.mem, h.chunks) && Feet(h.mem, h.chunks, h.top) && q in h1.chunks
    ensures Get(h1.mem, q + HEAD) == Tag(h1.chunks[q].size, h1.chunks[q].used, h1.chunks[q].pinuse)
    ensures !h1.chunks[q].used && q != h1.top ==> Get(h1.mem, q + h1.chunks[q].size) == h1.chunks[q].size
  {
    hide Changes, Separate, Tag;
    if q in h.chunks && q !in ts && q !in hs {
      ChangesKeep(h.mem, h1.mem, h.chunks, ts, hs, q);
    } else {
      assert Placed(h1, loose1, q);
    }
  }

  lemma {:induction false} HeadsEdited(h: Heap, h1: Heap, loose: set<int>, loose1: set<int>, ts: set<int>, hs: set<int>)
    requires Edited(h, h1, loose, loose1, ts, hs) && Separate(h.chunks) && Roomy(h.chunks)
    requires Heads(h.mem, h.chunks) && Feet(h.mem, h.chunks, h.top)
    ensures Heads(h1.mem, h1.chunks) && Feet(h1.mem, h1.chunks, h1.top)
  {
    hide Edited, Separate, Roomy, Tag;
    forall q | q in h1.chunks
      ensures Get(h1.mem, q + HEAD) == Tag(h1.chunks[q].size, h1.chunks[q].used, h1.chunks[q].pinuse)
      ensures !h1.chunks[q].used && q != h1.top ==> Get(h1.mem, q + h1.chunks[q].size) == h1.chunks[q].size
    {
      ChunkEdited(h, h1, loose, loose1, ts, hs, q);
    }
  }

  // ---- the bins after such a change ----

  lemma SameSub(m: Mem, m1: Mem, lo: int, hi: int, lo1: int, hi1: int)
    requires SameFrom(m, m1, lo, hi) && lo <= lo1 && hi1 <= hi
    ensures SameFrom(m, m1, lo1, hi1)
  {
  }

  /** Words of the members of a list, and of its header. */
  lemma SmallBinFrame(m: Mem, m1: Mem, h: int, marked: bool, list: seq<int>)
    requires SmallBinOk(m, h, marked, list) && SameFrom(m, m1, h + 16, h + 32)
    requires forall p :: p in list ==> SameFrom(m, m1, p + 16, p + 32)
    ensures SmallBinOk(m1, h, marked, list)
  {
    if list != [] {
      assert forall p :: p in [h] + list ==> p == h || p in list;
      RingFrame(m, m1, [h] + list);
    }
  }

  lemma TreeBinFrame(m: Mem, m1: Mem, slot: int, marked: bool, t: Tree, i: nat)
    requires TreeBinOk(m, slot, marked, t, i) && Get(m1, slot) == Get(m, slot)
    requires forall q :: q in Nodes(t) ==> SameFrom(m, m1, q + 8, q + 64)
    ensures TreeBinOk(m1, slot, marked, t, i)
  {
    hide Rep, IsTrie;
    forall q | q in Nodes(t) ensures SameNode(m, m1, q) {
    }
    RepFrame(m, m1, Get(m, slot), slot, t, i);
  }

  lemma StateWords(h: Heap, h1: Heap, ms: int, loose: set<int>, loose1: set<int>, ts: set<int>, hs: set<int>)
    requires Edited(h, h1, loose, loose1, ts, hs) && Separate(h.chunks) && Roomy(h.chunks) && StateChunk(h, ms)
        && ms - 16 !in ts
    ensures SameFrom(h.mem, h1.mem, ms, ms + 900) && StateChunk(h1, ms)
  {
    hide Changes, Separate;
    ChangesKeep(h.mem, h1.mem, h.chunks, ts, hs, ms - 16);
  }

  lemma {:induction false} SmallEdited(h: Heap, h1: Heap, ms: int, loose: set<int>, loose1: set<int>, ts: set<int>,
      hs: set<int>)
    requires Edited(h, h1, loose, loose1, ts, hs) && Separate(h.chunks) && Roomy(h.chunks) && StateChunk(h, ms)
        && ms - 16 !in ts
    requires forall p :: p in h.chunks && p != h.top ==> h.chunks[p].size >= MIN_CHUNK
    requires SmallFilled(h, ms, loose)
    ensures SmallFilled(h1, ms, loose1)
  {
    hide Changes, Separate, SmallBinOk, Placed;
    StateWords(h, h1, ms, loose, loose1, ts, hs);
    forall i, p | 0 <= i < SMALL_BINS && p in h.lists[i] ensures Waiting(h1, loose1, p) && h1.chunks[p].size == 8 * i {
      assert Waiting(h, loose, p);
    }
    forall i | 0 <= i < SMALL_BINS ensures SmallBinOk(h1.mem, Header(ms, i), Marked(h1.smallmap, i), h1.lists[i]) {
      SameSub(h.mem, h1.mem, ms, ms + 900, Header(ms, i) + 16, Header(ms, i) + 32);
      forall p | p in h.lists[i] ensures SameFrom(h.mem, h1.mem, p + 16, p + 32) {
        assert Waiting(h, loose, p);
        ChangesKeep(h.mem, h1.mem, h.chunks, ts, hs, p);
        SameSub(h.mem, h1.mem, p + 16, p + h.chunks[p].size + 8, p + 16, p + 32);
      }
      SmallBinFrame(h.mem, h1.mem, Header(ms, i), Marked(h.smallmap, i), h.lists[i]);
    }
  }

  lemma {:induction false} TreesEdited(h: Heap, h1: Heap, ms: int, loose: set<int>, loose1: set<int>, ts: set<int>,
      hs: set<int>)
    requires Edited(h, h1, loose, loose1, ts, hs) && Separate(h.chunks) && Roomy(h.chunks) && StateChunk(h, ms)
        && ms - 16 !in ts
    requires TreesFilled(h, ms, loose)
    ensures TreesFilled(h1, ms, loose1)
  {
    hide Changes, Separate, TreeBinOk, Placed, Holds, Nodes, TreeIndex;
    StateWords(h, h1, ms, loose, loose1, ts, hs);
    forall i, p, z | 0 <= i < TREE_BINS && Holds(h.trees[i], p, z) ensures Waiting(h1, loose1, p)
        && h1.chunks[p].size == z {
      assert Waiting(h, loose, p);
    }
    forall i | 0 <= i < TREE_BINS ensures TreeBinOk(h1.mem, TreeSlot(ms, i), Marked(h1.treemap, i), h1.trees[i], i) {
      var t := h.trees[i];
      forall q | q in Nodes(t) ensures SameFrom(h.mem, h1.mem, q + 8, q + 64) {
        var z := NodeHolds(t, q);
        assert Waiting(h, loose, q);
        HeldSize(h.mem, ms, h.treemap, h.trees, i, q, z);
        ChangesKeep(h.mem, h1.mem, h.chunks, ts, hs, q);
        SameSub(h.mem, h1.mem, q + 8, q + h.chunks[q].size + 8, q + 8, q + 64);
      }
      TreeBinFrame(h.mem, h1.mem, TreeSlot(ms, i), Marked(h.treemap, i), t, i);
    }
  }

  lemma HeldSize(m: Mem, ms: int, treemap: bv32, trees: seq<Tree>, i: nat, q: int, z: nat)
    requires TreeBins(m, ms, treemap, trees) && i < TREE_BINS && Holds(trees[i], q, z)
    ensures MIN_LARGE <= z < SIZE_LIMIT && TreeIndex(z) == i
  {
    hide TreeIndex;
    BinAt(m, ms, treemap, trees, i);
    BinParts(m, TreeSlot(ms, i), Marked(treemap, i), trees[i], i);
    HoldsSize(trees[i], q, z);
  }

  lemma {:induction false} CompleteEdited(h: Heap, h1: Heap, loose: set<int>, loose1: set<int>, ts: set<int>,
      hs: set<int>)
    requires Edited(h, h1, loose, loose1, ts, hs) && Complete(h, loose)
    ensures Complete(h1, loose1)
  {
    hide Changes, Holds, TreeIndex;
    forall p | Waiting(h1, loose1, p) ensures InBin(h1, p) {
      assert p in h.chunks && p !in ts;
      assert Waiting(h, loose, p);
    }
  }

  /** After a change of chunks that are not in bins the state is in order again. */
  lemma {:induction false} EditedOk(h: Heap, h1: Heap, at: Place, loose: set<int>, loose1: set<int>, ts: set<int>,
      hs: set<int>)
    requires Ok(h, at, loose) && Edited(h, h1, loose, loose1, ts, hs) && at.ms - 16 !in ts
    requires Tiled(h1.chunks, h1.top, h1.fences, at.zone) && Special(h1, loose1)
    ensures Ok(h1, at, loose1)
  {
    hide Edited, Separate, Heads, Feet, SmallFilled, TreesFilled, Complete, Special, Chained, Flagged, Preceded,
      TopLast, StateChunk;
    SizedRoomy(h.chunks, h.top, at.zone);
    HeadsEdited(h, h1, loose, loose1, ts, hs);
    StateWords(h, h1, at.ms, loose, loose1, ts, hs);
    SmallEdited(h, h1, at.ms, loose, loose1, ts, hs);
    TreesEdited(h, h1, at.ms, loose, loose1, ts, hs);
    CompleteEdited(h, h1, loose, loose1, ts, hs);
  }
}
