/** Free chunks entering and leaving the bins of a space: nothing but links and bin records changes. */
module HeapBins {
  import opened BinIndex
  import opened BinMaps
  import opened SizeTrie
  import opened HeapWords
  import opened HeapTiling
  import opened TreeSearch
  import opened SmallBins
  import opened HeapState

  /** Changed words are inside the chunks `s`, before their feet, or in a part of the state record. */
  ghost predicate LinksOnly(h: Heap, m1: Mem, s: set<int>, w0: int, w1: int) {
    forall a :: Get(m1, a) != Get(h.mem, a) ==>
      (exists q :: q in s && q in h.chunks && q + 16 <= a < q + h.chunks[q].size) || w0 <= a < w1
  }

  /** Part of the state record. */
  predicate InState(ms: int, w0: int, w1: int) { ms <= w0 <= w1 <= ms + 900 }

  lemma {:induction false} LinksKeep(h: Heap, m1: Mem, s: set<int>, ms: int, w0: int, w1: int, q: int)
    requires LinksOnly(h, m1, s, w0, w1) && Separate(h.chunks) && Roomy(h.chunks) && StateChunk(h, ms)
        && InState(ms, w0, w1)
    requires q in h.chunks && ms - 16 !in s
    ensures q !in s && q != ms - 16 ==> SameFrom(h.mem, m1, q + 8, q + h.chunks[q].size + 8)
    ensures Get(m1, q + HEAD) == Get(h.mem, q + HEAD)
    ensures q != ms - 16 ==> Get(m1, q + h.chunks[q].size) == Get(h.mem, q + h.chunks[q].size)
  {
    forall a | q + 8 <= a < q + h.chunks[q].size + 8 && (q in s || q == ms - 16 ==>
        a == q + 8 || (a == q + h.chunks[q].size && q != ms - 16))
      ensures Get(m1, a) == Get(h.mem, a)
    {
    }
  }

  lemma StateKeep(h: Heap, m1: Mem, s: set<int>, ms: int, w0: int, w1: int, lo: int, hi: int)
    requires LinksOnly(h, m1, s, w0, w1) && Separate(h.chunks) && StateChunk(h, ms) && ms - 16 !in s
    requires ms <= lo && hi <= ms + 900 && (hi <= w0 || w1 <= lo)
    ensures SameFrom(h.mem, m1, lo, hi)
  {
    forall a | lo <= a < hi ensures Get(m1, a) == Get(h.mem, a) {
    }
  }

  lemma {:induction false} TagsKept(h: Heap, m1: Mem, s: set<int>, ms: int, w0: int, w1: int)
    requires LinksOnly(h, m1, s, w0, w1) && Separate(h.chunks) && Roomy(h.chunks) && StateChunk(h, ms)
        && InState(ms, w0, w1) && ms - 16 !in s
    requires Heads(h.mem, h.chunks) && Feet(h.mem, h.chunks, h.top)
    ensures Heads(m1, h.chunks) && Feet(m1, h.chunks, h.top)
  {
    hide LinksOnly, Separate;
    forall q | q in h.chunks ensures Get(m1, q + HEAD) == Get(h.mem, q + HEAD)
        && (q != ms - 16 ==> Get(m1, q + h.chunks[q].size) == Get(h.mem, q + h.chunks[q].size)) {
      LinksKeep(h, m1, s, ms, w0, w1, q);
    }
  }

  // ---- what the bins hold ----

  lemma {:induction false} ListIff(h: Heap, ms: int, loose: set<int>, i: nat, p: int)
    requires SmallFilled(h, ms, loose) && Complete(h, loose) && i < SMALL_BINS
    ensures p in h.lists[i] <==> Waiting(h, loose, p) && h.chunks[p].size == 8 * i
  {
    if Waiting(h, loose, p) && h.chunks[p].size == 8 * i {
      assert InBin(h, p);
    }
  }

  lemma {:induction false} TreeIff(h: Heap, ms: int, loose: set<int>, i: nat, p: int, z: nat)
    requires TreesFilled(h, ms, loose) && Complete(h, loose) && i < TREE_BINS
    ensures Holds(h.trees[i], p, z) <==>
        Waiting(h, loose, p) && h.chunks[p].size == z && !IsSmall(z) && TreeIndex(z) == i
  {
    hide TreeIndex, Holds, TreeBinOk;
    if Holds(h.trees[i], p, z) {
      HeldSize(h.mem, ms, h.treemap, h.trees, i, p, z);
    }
    if Waiting(h, loose, p) && h.chunks[p].size == z && !IsSmall(z) && TreeIndex(z) == i {
      assert InBin(h, p);
    }
  }

  // ---- a small bin changes ----

  /** One bin's list is replaced; `p` enters or leaves it. */
  ghost predicate SmallChange(h: Heap, h1: Heap, ms: int, loose: set<int>, loose1: set<int>, i: nat, p: int,
      s: set<int>) {
    && i < SMALL_BINS && |h.lists| == SMALL_BINS && |h1.lists| == SMALL_BINS
    && h1.lists == h.lists[i := h1.lists[i]] && h1 == h.(mem := h1.mem, smallmap := h1.smallmap, lists := h1.lists)
    && SmallBinOk(h1.mem, Header(ms, i), Marked(h1.smallmap, i), h1.lists[i])
    && (forall j :: 0 <= j < SMALL_BINS && j != i ==> Marked(h1.smallmap, j) == Marked(h.smallmap, j))
    && LinksOnly(h, h1.mem, s, Header(ms, i) + 16, Header(ms, i) + 32)
    && (forall q :: q in h1.lists[i] <==> Waiting(h, loose1, q) && h.chunks[q].size == 8 * i)
    && (forall q :: q != p ==> (q in loose <==> q in loose1))
    && (forall q :: q in s ==>
          q in h.chunks && !h.chunks[q].used && h.chunks[q].size == 8 * i && (q == p || q in h.lists[i]))
    && p in h.chunks && !h.chunks[p].used && h.chunks[p].size == 8 * i && p != h.top && p != h.dv
  }

  lemma {:induction false} SmallSmall(h: Heap, h1: Heap, ms: int, loose: set<int>, loose1: set<int>, i: nat, p: int,
      s: set<int>)
    requires SmallChange(h, h1, ms, loose, loose1, i, p, s) && SmallFilled(h, ms, loose)
    requires Separate(h.chunks) && Roomy(h.chunks) && StateChunk(h, ms)
    requires forall q :: q in h.chunks && q != h.top ==> h.chunks[q].size >= MIN_CHUNK
    ensures SmallFilled(h1, ms, loose1)
  {
    hide LinksOnly, Separate, SmallBinOk, Marked;
    forall j, q | 0 <= j < SMALL_BINS && q in h1.lists[j] ensures Waiting(h1, loose1, q) && h1.chunks[q].size == 8 * j {
      if j != i {
        assert q in h.lists[j] && Waiting(h, loose, q) && q != p;
      }
    }
    forall j | 0 <= j < SMALL_BINS ensures SmallBinOk(h1.mem, Header(ms, j), Marked(h1.smallmap, j), h1.lists[j]) {
      if j != i {
        StateKeep(h, h1.mem, s, ms, Header(ms, i) + 16, Header(ms, i) + 32, Header(ms, j) + 16, Header(ms, j) + 32);
        forall q | q in h.lists[j] ensures SameFrom(h.mem, h1.mem, q + 16, q + 32) {
          assert Waiting(h, loose, q) && h.chunks[q].size == 8 * j;
          assert q !in s;
          LinksKeep(h, h1.mem, s, ms, Header(ms, i) + 16, Header(ms, i) + 32, q);
          SameSub(h.mem, h1.mem, q + 8, q + h.chunks[q].size + 8, q + 16, q + 32);
        }
        SmallBinFrame(h.mem, h1.mem, Header(ms, j), Marked(h.smallmap, j), h.lists[j]);
      }
    }
  }

  lemma {:induction false} SmallTrees(h: Heap, h1: Heap, ms: int, loose: set<int>, loose1: set<int>, i: nat, p: int,
      s: set<int>)
    requires SmallChange(h, h1, ms, loose, loose1, i, p, s) && TreesFilled(h, ms, loose)
    requires Separate(h.chunks) && Roomy(h.chunks) && StateChunk(h, ms)
    ensures TreesFilled(h1, ms, loose1)
  {
    hide LinksOnly, Separate, SmallBinOk, Marked, Holds, Nodes, TreeIndex, TreeBinOk;
    forall j, q, z | 0 <= j < TREE_BINS && Holds(h.trees[j], q, z) ensures Waiting(h1, loose1, q)
        && h1.chunks[q].size == z && q !in s {
      HeldSize(h.mem, ms, h.treemap, h.trees, j, q, z);
      assert Waiting(h, loose, q);
    }
    forall j | 0 <= j < TREE_BINS ensures TreeBinOk(h1.mem, TreeSlot(ms, j), Marked(h1.treemap, j), h1.trees[j], j) {
      var t := h.trees[j];
      StateKeep(h, h1.mem, s, ms, Header(ms, i) + 16, Header(ms, i) + 32, TreeSlot(ms, j), TreeSlot(ms, j) + 1);
      forall q | q in Nodes(t) ensures SameFrom(h.mem, h1.mem, q + 8, q + 64) {
        var z := NodeHolds(t, q);
        HeldSize(h.mem, ms, h.treemap, h.trees, j, q, z);
        assert Waiting(h, loose, q);
        LinksKeep(h, h1.mem, s, ms, Header(ms, i) + 16, Header(ms, i) + 32, q);
        SameSub(h.mem, h1.mem, q + 8, q + h.chunks[q].size + 8, q + 8, q + 64);
      }
      TreeBinFrame(h.mem, h1.mem, TreeSlot(ms, j), Marked(h.treemap, j), t, j);
    }
  }

  lemma {:induction false} SmallComplete(h: Heap, h1: Heap, ms: int, loose: set<int>, loose1: set<int>, i: nat, p: int,
      s: set<int>)
    requires SmallChange(h, h1, ms, loose, loose1, i, p, s) && Complete(h, loose) && InEights(h.chunks)
    ensures Complete(h1, loose1)
  {
    hide LinksOnly, SmallBinOk, Marked, Holds, TreeIndex;
    forall q | Waiting(h1, loose1, q) ensures InBin(h1, q) {
      var z := h.chunks[q].size;
      if z == 8 * i {
        assert q in h1.lists[i];
      } else {
        assert z / 8 != i by { assert z % 8 == 0; }
        assert Waiting(h, loose, q) && InBin(h, q);
      }
    }
  }

  predicate InEights(c: Chunks) { forall q :: q in c ==> c[q].size % 8 == 0 }

  lemma SizedInEights(c: Chunks, top: int, z: Zones)
    requires Sized(c, top, z)
    ensures InEights(c)
  {
    forall q | q in c ensures c[q].size % 8 == 0 {
      var k := c[q].size / 16;
      assert c[q].size == 8 * (2 * k);
    }
  }

  lemma {:induction false} SmallChangeOk(h: Heap, h1: Heap, at: Place, loose: set<int>, loose1: set<int>, i: nat,
      p: int, s: set<int>)
    requires Ok(h, at, loose) && SmallChange(h, h1, at.ms, loose, loose1, i, p, s) && Special(h1, loose1)
    ensures Ok(h1, at, loose1)
  {
    hide SmallChange, Separate, Heads, Feet, SmallFilled, TreesFilled, Complete, Special, Chained, Flagged, Preceded,
      TopLast;
    SizedRoomy(h.chunks, h.top, at.zone);
    SizedInEights(h.chunks, h.top, at.zone);
    SmallChangeShape(h, h1, at.ms, loose, loose1, i, p, s);
    StateNotIn(h, h1, at.ms, loose, loose1, i, p, s);
    TagsKept(h, h1.mem, s, at.ms, Header(at.ms, i) + 16, Header(at.ms, i) + 32);
    SmallSmall(h, h1, at.ms, loose, loose1, i, p, s);
    SmallTrees(h, h1, at.ms, loose, loose1, i, p, s);
    SmallComplete(h, h1, at.ms, loose, loose1, i, p, s);
  }

  lemma SmallChangeShape(h: Heap, h1: Heap, ms: int, loose: set<int>, loose1: set<int>, i: nat, p: int, s: set<int>)
    requires SmallChange(h, h1, ms, loose, loose1, i, p, s)
    ensures h1.chunks == h.chunks && h1.top == h.top && h1.dv == h.dv && h1.fences == h.fences && i < SMALL_BINS
    ensures LinksOnly(h, h1.mem, s, Header(ms, i) + 16, Header(ms, i) + 32)
  {
  }

  lemma StateNotIn(h: Heap, h1: Heap, ms: int, loose: set<int>, loose1: set<int>, i: nat, p: int, s: set<int>)
    requires SmallChange(h, h1, ms, loose, loose1, i, p, s) && StateChunk(h, ms)
    ensures ms - 16 !in s
  {
  }

  // ---- a tree bin changes ----

  /** One bin's tree is replaced; `p`, of size `z`, enters or leaves it. */
  ghost predicate TreeChange(h: Heap, h1: Heap, ms: int, loose: set<int>, loose1: set<int>, i: nat, p: int, z: nat,
      s: set<int>) {
    && i < TREE_BINS && |h.trees| == TREE_BINS && |h1.trees| == TREE_BINS
    && h1.trees == h.trees[i := h1.trees[i]] && h1 == h.(mem := h1.mem, treemap := h1.treemap, trees := h1.trees)
    && TreeBinOk(h1.mem, TreeSlot(ms, i), Marked(h1.treemap, i), h1.trees[i], i)
    && (forall j :: 0 <= j < TREE_BINS && j != i ==> Marked(h1.treemap, j) == Marked(h.treemap, j))
    && LinksOnly(h, h1.mem, s, TreeSlot(ms, i), TreeSlot(ms, i) + 8)
    && (forall q, y ::
      Holds(h1.trees[i], q, y) <==> Waiting(h, loose1, q) && h.chunks[q].size == y && !IsSmall(y) && TreeIndex(y) == i)
    && (forall q :: q != p ==> (q in loose <==> q in loose1))
    && (forall q :: q in s ==>
          q in h.chunks && !h.chunks[q].used && h.chunks[q].size >= MIN_LARGE
          && (q == p || TreeIndex(h.chunks[q].size) == i))
    && p in h.chunks && !h.chunks[p].used && h.chunks[p].size == z && z >= MIN_LARGE && TreeIndex(z) == i && p != h.top
      && p != h.dv
  }

  lemma {:induction false} TreeSmall(h: Heap, h1: Heap, ms: int, loose: set<int>, loose1: set<int>, i: nat, p: int,
      z: nat, s: set<int>)
    requires TreeChange(h, h1, ms, loose, loose1, i, p, z, s) && SmallFilled(h, ms, loose)
    requires Separate(h.chunks) && Roomy(h.chunks) && StateChunk(h, ms)
    requires forall q :: q in h.chunks && q != h.top ==> h.chunks[q].size >= MIN_CHUNK
    ensures SmallFilled(h1, ms, loose1)
  {
    hide LinksOnly, Separate, SmallBinOk, Marked, TreeIndex, TreeBinOk, Holds;
    forall j, q | 0 <= j < SMALL_BINS && q in h1.lists[j] ensures Waiting(h1, loose1, q) && h1.chunks[q].size == 8 * j {
      assert q in h.lists[j] && Waiting(h, loose, q) && q != p;
    }
    forall j | 0 <= j < SMALL_BINS ensures SmallBinOk(h1.mem, Header(ms, j), Marked(h1.smallmap, j), h1.lists[j]) {
      StateKeep(h, h1.mem, s, ms, TreeSlot(ms, i), TreeSlot(ms, i) + 8, Header(ms, j) + 16, Header(ms, j) + 32);
      forall q | q in h.lists[j] ensures SameFrom(h.mem, h1.mem, q + 16, q + 32) {
        assert Waiting(h, loose, q) && h.chunks[q].size == 8 * j;
        assert q !in s;
        LinksKeep(h, h1.mem, s, ms, TreeSlot(ms, i), TreeSlot(ms, i) + 8, q);
        SameSub(h.mem, h1.mem, q + 8, q + h.chunks[q].size + 8, q + 16, q + 32);
      }
      SmallBinFrame(h.mem, h1.mem, Header(ms, j), Marked(h.smallmap, j), h.lists[j]);
    }
  }

  lemma {:induction false} TreeTrees(h: Heap, h1: Heap, ms: int, loose: set<int>, loose1: set<int>, i: nat, p: int,
      z: nat, s: set<int>)
    requires TreeChange(h, h1, ms, loose, loose1, i, p, z, s) && TreesFilled(h, ms, loose)
    requires Separate(h.chunks) && Roomy(h.chunks) && StateChunk(h, ms)
    ensures TreesFilled(h1, ms, loose1)
  {
    hide LinksOnly, Separate, SmallBinOk, Marked, Holds, Nodes, TreeIndex, TreeBinOk;
    forall j, q, y | 0 <= j < TREE_BINS && Holds(h1.trees[j], q, y) ensures Waiting(h1, loose1, q)
        && h1.chunks[q].size == y {
      if j != i {
        HeldSize(h.mem, ms, h.treemap, h.trees, j, q, y);
        assert Waiting(h, loose, q) && q != p;
      }
    }
    forall j | 0 <= j < TREE_BINS ensures TreeBinOk(h1.mem, TreeSlot(ms, j), Marked(h1.treemap, j), h1.trees[j], j) {
      if j != i {
        var t := h.trees[j];
        StateKeep(h, h1.mem, s, ms, TreeSlot(ms, i), TreeSlot(ms, i) + 8, TreeSlot(ms, j), TreeSlot(ms, j) + 1);
        forall q | q in Nodes(t) ensures SameFrom(h.mem, h1.mem, q + 8, q + 64) {
          var y := NodeHolds(t, q);
          HeldSize(h.mem, ms, h.treemap, h.trees, j, q, y);
          assert Waiting(h, loose, q) && q !in s;
          LinksKeep(h, h1.mem, s, ms, TreeSlot(ms, i), TreeSlot(ms, i) + 8, q);
          SameSub(h.mem, h1.mem, q + 8, q + h.chunks[q].size + 8, q + 8, q + 64);
        }
        TreeBinFrame(h.mem, h1.mem, TreeSlot(ms, j), Marked(h.treemap, j), t, j);
      }
    }
  }

  lemma {:induction false} TreeComplete(h: Heap, h1: Heap, ms: int, loose: set<int>, loose1: set<int>, i: nat, p: int,
      z: nat, s: set<int>)
    requires TreeChange(h, h1, ms, loose, loose1, i, p, z, s) && Complete(h, loose)
    ensures Complete(h1, loose1)
  {
    hide LinksOnly, SmallBinOk, Marked, Holds, TreeIndex, TreeBinOk;
    forall q | Waiting(h1, loose1, q) ensures InBin(h1, q) {
      var y := h.chunks[q].size;
      if !IsSmall(y) && TreeIndex(y) == i {
        assert Holds(h1.trees[i], q, y);
      } else {
        assert q != p;
        assert Waiting(h, loose, q) && InBin(h, q);
      }
    }
  }

  lemma {:induction false} TreeChangeOk(h: Heap, h1: Heap, at: Place, loose: set<int>, loose1: set<int>, i: nat, p: int,
      z: nat, s: set<int>)
    requires Ok(h, at, loose) && TreeChange(h, h1, at.ms, loose, loose1, i, p, z, s) && Special(h1, loose1)
    ensures Ok(h1, at, loose1)
  {
    hide TreeChange, Separate, Heads, Feet, SmallFilled, TreesFilled, Complete, Special, Chained, Flagged, Preceded,
      TopLast;
    SizedRoomy(h.chunks, h.top, at.zone);
    TreeChangeShape(h, h1, at.ms, loose, loose1, i, p, z, s);
    TagsKept(h, h1.mem, s, at.ms, TreeSlot(at.ms, i), TreeSlot(at.ms, i) + 8);
    TreeSmall(h, h1, at.ms, loose, loose1, i, p, z, s);
    TreeTrees(h, h1, at.ms, loose, loose1, i, p, z, s);
    TreeComplete(h, h1, at.ms, loose, loose1, i, p, z, s);
  }

  lemma TreeChangeShape(h: Heap, h1: Heap, ms: int, loose: set<int>, loose1: set<int>, i: nat, p: int, z: nat,
      s: set<int>)
    requires TreeChange(h, h1, ms, loose, loose1, i, p, z, s) && StateChunk(h, ms)
    ensures h1.chunks == h.chunks && h1.top == h.top && h1.dv == h.dv && h1.fences == h.fences && i < TREE_BINS
    ensures LinksOnly(h, h1.mem, s, TreeSlot(ms, i), TreeSlot(ms, i) + 8) && ms - 16 !in s
  {
    hide TreeIndex, TreeBinOk, Holds;
  }
}
