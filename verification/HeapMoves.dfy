/** Lemmas that tie the bin operations of `dlmalloc.c` to the state of the space. */
module HeapMoves {
  import opened Rounding
  import opened BinIndex
  import opened BinMaps
  import opened SizeTrie
  import opened HeapWords
  import opened HeapTiling
  import opened TreeLinks
  import opened TreeInsert
  import opened TreeSearch
  import opened SmallBins
  import opened HeapState
  import opened HeapBins

  /** Payloads and heads of the chunks in use, but for the state record itself. */
  ghost predicate UserKept(m: Mem, m1: Mem, c: Chunks, ms: int) {
    forall q :: q in c && c[q].used && q != ms - 16 ==> SameFrom(m, m1, q + 8, q + c[q].size + 8)
  }

  lemma {:induction false} LinksUser(h: Heap, m1: Mem, s: set<int>, ms: int, w0: int, w1: int)
    requires LinksOnly(h, m1, s, w0, w1) && Separate(h.chunks) && Roomy(h.chunks) && StateChunk(h, ms)
        && InState(ms, w0, w1)
    requires forall q :: q in s ==> q in h.chunks && !h.chunks[q].used
    ensures UserKept(h.mem, m1, h.chunks, ms)
  {
    hide LinksOnly, Separate;
    forall q | q in h.chunks && h.chunks[q].used && q != ms - 16 ensures SameFrom(h.mem, m1, q + 8,
        q + h.chunks[q].size + 8) {
      LinksKeep(h, m1, s, ms, w0, w1, q);
    }
  }

  // ---- facts of a state in order ----

  lemma OkParts(h: Heap, at: Place, loose: set<int>)
    requires Ok(h, at, loose)
    ensures Tiled(h.chunks, h.top, h.fences, at.zone) && Separate(h.chunks) && Roomy(h.chunks)
        && StateChunk(h, at.ms) && Special(h, loose)
    ensures SmallFilled(h, at.ms, loose) && TreesFilled(h, at.ms, loose) && Complete(h, loose)
        && Sized(h.chunks, h.top, at.zone)
    ensures |h.lists| == SMALL_BINS && |h.trees| == TREE_BINS && TreeBins(h.mem, at.ms, h.treemap, h.trees)
    ensures Heads(h.mem, h.chunks) && Feet(h.mem, h.chunks, h.top)
  {
    SizedRoomy(h.chunks, h.top, at.zone);
  }

  lemma {:induction false} ChunkFacts(h: Heap, at: Place, loose: set<int>, p: int)
    requires Ok(h, at, loose) && p in h.chunks
    ensures 0 < p && p % 16 == 0 && h.chunks[p].size % 16 == 0 && h.chunks[p].size >= (if p == h.top then 16 else 32)
        && h.chunks[p].size < SIZE_LIMIT
    ensures Get(h.mem, p + HEAD) == Tag(h.chunks[p].size, h.chunks[p].used, h.chunks[p].pinuse)
    ensures SizeIn(Get(h.mem, p + HEAD)) == h.chunks[p].size && UsedIn(Get(h.mem, p + HEAD)) == h.chunks[p].used
    ensures PinuseIn(Get(h.mem, p + HEAD)) == h.chunks[p].pinuse
    ensures !h.chunks[p].used && p != h.top ==> Get(h.mem, p + h.chunks[p].size) == h.chunks[p].size
  {
    hide Separate, SmallFilled, TreesFilled, Complete, Special, Chained, Flagged, Preceded, TopLast, StateChunk, Tag,
      SizeIn, UsedIn, PinuseIn;
    var k := h.chunks[p].size / 16;
    assert h.chunks[p].size == 8 * (2 * k);
    TagFields(h.chunks[p].size, h.chunks[p].used, h.chunks[p].pinuse);
  }

  // ---- entering a small bin ----

  lemma {:induction false} HeaderApart(h: Heap, at: Place, loose: set<int>, i: nat, p: int)
    requires Ok(h, at, loose) && i < SMALL_BINS && p in h.chunks && !h.chunks[p].used
    ensures Apart(Header(at.ms, i), p)
  {
    OkParts(h, at, loose);
    hide Ok, SmallFilled, TreesFilled, Complete, Special;
    var b := at.ms - 16;
    assert p != b;
    if p < b {
      assert p + h.chunks[p].size <= b;
    } else {
      assert b + h.chunks[b].size <= p;
    }
  }

  lemma ChunksApart(c: Chunks, p: int, q: int)
    requires Separate(c) && Roomy(c) && p in c && q in c && p != q
    ensures Apart(p, q)
  {
    if p < q {
      assert p + c[p].size <= q;
    } else {
      assert q + c[q].size <= p;
    }
  }

  lemma BinMembers(h: Heap, ms: int, loose: set<int>, i: nat)
    requires SmallFilled(h, ms, loose) && i < SMALL_BINS
    ensures SmallBinOk(h.mem, Header(ms, i), Marked(h.smallmap, i), h.lists[i])
    ensures forall p :: p in h.lists[i] ==> Waiting(h, loose, p) && h.chunks[p].size == 8 * i
  {
    hide SmallBinOk, Marked;
  }

  lemma {:induction false} BinApart(h: Heap, at: Place, loose: set<int>, i: nat)
    requires Ok(h, at, loose) && i < SMALL_BINS
    ensures |h.lists| == SMALL_BINS && AllApart([Header(at.ms, i)] + h.lists[i])
    ensures SmallBinOk(h.mem, Header(at.ms, i), Marked(h.smallmap, i), h.lists[i])
    ensures forall p :: p in h.lists[i] ==> Waiting(h, loose, p) && h.chunks[p].size == 8 * i
  {
    hide Ok, TreesFilled, Complete, Special, Separate, Apart, SmallBinOk, Tiled;
    OkParts(h, at, loose);
    var ring := [Header(at.ms, i)] + h.lists[i];
    BinMembers(h, at.ms, loose, i);
    hide SmallFilled;
    forall p, q | p in ring && q in ring && p != q ensures Apart(p, q) {
      assert p == Header(at.ms, i) || p in h.lists[i];
      assert q == Header(at.ms, i) || q in h.lists[i];
      if p == Header(at.ms, i) {
        HeaderApart(h, at, loose, i, q);
      } else if q == Header(at.ms, i) {
        HeaderApart(h, at, loose, i, p);
        ApartSwap(p, q);
      } else {
        ChunksApart(h.chunks, p, q);
      }
    }
  }

  lemma {:induction false} EnterApart(h: Heap, at: Place, loose: set<int>, i: nat, p: int)
    requires Ok(h, at, loose) && i < SMALL_BINS && p in h.chunks && !h.chunks[p].used && |h.lists| == SMALL_BINS
        && p !in h.lists[i]
    ensures ListApart(Header(at.ms, i), h.lists[i], p)
  {
    hide Ok, TreesFilled, Complete, Special, Separate, Apart, SmallBinOk, Tiled;
    OkParts(h, at, loose);
    BinApart(h, at, loose, i);
    var ring := [Header(at.ms, i)] + h.lists[i];
    forall q | q in ring ensures Apart(q, p) {
      if q == Header(at.ms, i) {
        HeaderApart(h, at, loose, i, p);
      } else {
        ChunksApart(h.chunks, q, p);
      }
    }
  }

  lemma RingsAreLinks(h: Heap, m1: Mem, s: set<int>, hd: int)
    requires OnlyRings(h.mem, m1, s + {hd}) && forall q :: q in s ==> q in h.chunks && h.chunks[q].size >= 32
    ensures LinksOnly(h, m1, s, hd + 16, hd + 32)
  {
    forall a | Get(m1, a) != Get(h.mem, a) ensures (exists q ::
        q in s && q in h.chunks && q + 16 <= a < q + h.chunks[q].size) || hd + 16 <= a < hd + 32 {
      var q :| q in s + {hd} && q + 16 <= a < q + 32;
      if q != hd {
        assert q in s && q in h.chunks && q + 16 <= a < q + h.chunks[q].size;
      }
    }
  }

  /** After `insert_small_chunk`. */
  lemma {:induction false} SmallEntered(h: Heap, at: Place, loose: set<int>, i: nat, p: int, m1: Mem, smallmap1: bv32)
    requires Ok(h, at, loose) && p in loose && p != h.dv && p in h.chunks && i < SMALL_BINS && h.chunks[p].size == 8 * i
        && |h.lists| == SMALL_BINS
    requires Marked(smallmap1, i) && forall j ::
        0 <= j < SMALL_BINS && j != i ==> Marked(smallmap1, j) == Marked(h.smallmap, j)
    requires SmallBinOk(m1, Header(at.ms, i), true, [p] + h.lists[i])
    requires OnlyRings(h.mem, m1, (set q | q in h.lists[i]) + {Header(at.ms, i), p})
    ensures var h1 := h.(mem := m1, smallmap := smallmap1, lists := h.lists[i := [p] + h.lists[i]]);
            Ok(h1, at, loose - {p}) && UserKept(h.mem, m1, h.chunks, at.ms)
  {
    hide *;
    BinCounts();
    OkParts(h, at, loose);
    var hd, list, s := Header(at.ms, i), [p] + h.lists[i], (set q | q in h.lists[i]) + {p};
    var h1 := h.(mem := m1, smallmap := smallmap1, lists := h.lists[i := list]);
    assert (set q | q in h.lists[i]) + {hd, p} == s + {hd};
    EnterMembers(h, at, loose, i, p);
    RingsAreLinks(h, m1, s, hd);
    SmallChangeIs(h, h1, at.ms, loose, loose - {p}, i, p, s);
    SpecialLess(h, h1, loose, p);
    SmallChangeOk(h, h1, at, loose, loose - {p}, i, p, s);
    HeaderInState(at.ms, i);
    LinksUser(h, m1, s, at.ms, hd + 16, hd + 32);
  }

  lemma BinCounts()
    ensures SMALL_BINS == 32 && TREE_BINS == 32
  {
  }

  lemma HeaderInState(ms: int, i: nat)
    requires i < SMALL_BINS
    ensures InState(ms, Header(ms, i) + 16, Header(ms, i) + 32)
  {
  }

  lemma MapMarked(map0: bv32, i: nat)
    requires i < SMALL_BINS
    ensures Marked(Mark(map0, i), i) && !Marked(BinMaps.Clear(map0, i), i)
    ensures forall j :: 0 <= j < SMALL_BINS && j != i ==> Marked(Mark(map0, i), j) == Marked(map0, j)
    ensures forall j :: 0 <= j < SMALL_BINS && j != i ==> Marked(BinMaps.Clear(map0, i), j) == Marked(map0, j)
  {
    hide Marked, Mark, BinMaps.Clear;
    forall j | 0 <= j < SMALL_BINS ensures Marked(Mark(map0, i), j) == (j == i || Marked(map0, j))
        && Marked(BinMaps.Clear(map0, i), j) == (j != i && Marked(map0, j)) {
      MarkAt(map0, i, j);
    }
  }

  lemma SpecialLess(h: Heap, h1: Heap, loose: set<int>, p: int)
    requires Special(h, loose) && h1.chunks == h.chunks && h1.top == h.top && h1.dv == h.dv
    ensures Special(h1, loose - {p})
  {
  }

  lemma SpecialMore(h: Heap, h1: Heap, loose: set<int>, p: int)
    requires Special(h, loose) && h1.chunks == h.chunks && h1.top == h.top && h1.dv == h.dv && Waiting(h, loose, p)
    ensures Special(h1, loose + {p})
  {
  }

  /** The members of a bin with one more. */
  lemma {:induction false} EnterMembers(h: Heap, at: Place, loose: set<int>, i: nat, p: int)
    requires Ok(h, at, loose) && p in loose && p != h.dv && i < SMALL_BINS && p in h.chunks && h.chunks[p].size == 8 * i
        && |h.lists| == SMALL_BINS
    ensures forall q :: q in [p] + h.lists[i] <==> Waiting(h, loose - {p}, q) && h.chunks[q].size == 8 * i
    ensures forall q :: q in (set q | q in h.lists[i]) + {p} ==>
              q in h.chunks && !h.chunks[q].used && h.chunks[q].size == 8 * i && h.chunks[q].size >= 32
                && (q == p || q in h.lists[i])
    ensures !h.chunks[p].used && p != h.top
  {
    hide Ok, SmallFilled, TreesFilled, Complete, Tiled, Sized, Separate, Heads, Feet, TreeBins, StateChunk, Roomy;
    OkParts(h, at, loose);
    forall q ensures q in h.lists[i] <==> Waiting(h, loose, q) && h.chunks[q].size == 8 * i {
      ListIff(h, at.ms, loose, i, q);
    }
    ChunkFacts(h, at, loose, p);
    assert forall q :: q in [p] + h.lists[i] <==> q == p || q in h.lists[i];
  }

  lemma SmallChangeIs(h: Heap, h1: Heap, ms: int, loose: set<int>, loose1: set<int>, i: nat, p: int, s: set<int>)
    requires i < SMALL_BINS && |h.lists| == SMALL_BINS && |h1.lists| == SMALL_BINS
    requires h1.lists == h.lists[i := h1.lists[i]] && h1 == h.(mem := h1.mem, smallmap := h1.smallmap,
        lists := h1.lists)
    requires SmallBinOk(h1.mem, Header(ms, i), Marked(h1.smallmap, i), h1.lists[i])
    requires forall j :: 0 <= j < SMALL_BINS && j != i ==> Marked(h1.smallmap, j) == Marked(h.smallmap, j)
    requires LinksOnly(h, h1.mem, s, Header(ms, i) + 16, Header(ms, i) + 32)
    requires forall q :: q in h1.lists[i] <==> Waiting(h, loose1, q) && h.chunks[q].size == 8 * i
    requires loose1 == loose - {p} || loose1 == loose + {p}
    requires forall q :: q in s ==>
        q in h.chunks && !h.chunks[q].used && h.chunks[q].size == 8 * i && h.chunks[q].size >= 32
        && (q == p || q in h.lists[i])
    requires p in h.chunks && !h.chunks[p].used && h.chunks[p].size == 8 * i && p != h.top && p != h.dv
    ensures SmallChange(h, h1, ms, loose, loose1, i, p, s)
  {
    hide SmallBinOk, Marked, LinksOnly, Waiting;
  }

  /** After `unlink_small_chunk` or `unlink_first_small_chunk`. */
  lemma {:induction false} SmallLeft(h: Heap, at: Place, loose: set<int>, i: nat, k: nat, m1: Mem, empty: bool)
    requires Ok(h, at, loose) && i < SMALL_BINS && |h.lists| == SMALL_BINS && k < |h.lists[i]|
        && (empty <==> |h.lists[i]| == 1)
    requires Marked(h.smallmap, i)
    requires SmallBinOk(m1, Header(at.ms, i), !empty, h.lists[i][..k] + h.lists[i][k + 1..])
    requires OnlyRings(h.mem, m1, (set q | q in h.lists[i]) + {Header(at.ms, i)})
    ensures var p := h.lists[i][k];
            var h1 := h.(mem := m1, smallmap := if empty then BinMaps.Clear(h.smallmap, i) else h.smallmap,
                         lists := h.lists[i := h.lists[i][..k] + h.lists[i][k + 1..]]);
            Ok(h1, at, loose + {p}) && UserKept(h.mem, m1, h.chunks, at.ms)
  {
    hide *;
    BinCounts();
    OkParts(h, at, loose);
    var hd, p, s := Header(at.ms, i), h.lists[i][k], set q | q in h.lists[i];
    var list := h.lists[i][..k] + h.lists[i][k + 1..];
    var h1 := h.(mem := m1,
      smallmap := if empty then BinMaps.Clear(h.smallmap, i) else h.smallmap, lists := h.lists[i := list]);
    LeaveMembers(h, at, loose, i, k);
    RingsAreLinks(h, m1, s, hd);
    MapMarked(h.smallmap, i);
    SmallChangeIs(h, h1, at.ms, loose, loose + {p}, i, p, s);
    SpecialMore(h, h1, loose, p);
    SmallChangeOk(h, h1, at, loose, loose + {p}, i, p, s);
    HeaderInState(at.ms, i);
    LinksUser(h, m1, s, at.ms, hd + 16, hd + 32);
  }

  /** The members of a bin with one less. */
  lemma {:induction false} LeaveMembers(h: Heap, at: Place, loose: set<int>, i: nat, k: nat)
    requires Ok(h, at, loose) && i < SMALL_BINS && |h.lists| == SMALL_BINS && k < |h.lists[i]|
    ensures var p := h.lists[i][k];
            && Waiting(h, loose, p) && h.chunks[p].size == 8 * i && !h.chunks[p].used && p != h.top && p != h.dv
            && forall q :: q in h.lists[i][..k] + h.lists[i][k + 1..] <==>
                  Waiting(h, loose + {p}, q) && h.chunks[q].size == 8 * i
    ensures forall q ::
        q in (set q | q in h.lists[i]) ==>
        q in h.chunks && !h.chunks[q].used && h.chunks[q].size == 8 * i && h.chunks[q].size >= 32 && q in h.lists[i]
  {
    hide Ok, SmallFilled, Complete, NoDuplicates;
    OkParts(h, at, loose);
    forall q ensures q in h.lists[i] <==> Waiting(h, loose, q) && h.chunks[q].size == 8 * i {
      ListIff(h, at.ms, loose, i, q);
    }
    assert h.lists[i][k] in h.lists[i];
    ChunkFacts(h, at, loose, h.lists[i][k]);
    ListMembers(h, at, loose, i);
    LeftMembers(h.lists[i], k);
  }

  lemma ListMembers(h: Heap, at: Place, loose: set<int>, i: nat)
    requires Ok(h, at, loose) && i < SMALL_BINS && |h.lists| == SMALL_BINS
    ensures NoDuplicates(h.lists[i])
  {
    hide TreesFilled, Complete, Tiled, Special;
    assert SmallBinOk(h.mem, Header(at.ms, i), Marked(h.smallmap, i), h.lists[i]);
    if h.lists[i] != [] {
      var ring := [Header(at.ms, i)] + h.lists[i];
      forall x, y | 0 <= x < y < |h.lists[i]| ensures h.lists[i][x] != h.lists[i][y] {
        assert ring[x + 1] == h.lists[i][x] && ring[y + 1] == h.lists[i][y];
      }
    }
  }

  lemma LeftMembers(list: seq<int>, k: nat)
    requires NoDuplicates(list) && k < |list|
    ensures forall q :: q in list[..k] + list[k + 1..] <==> q in list && q != list[k]
  {
    var rest := list[..k] + list[k + 1..];
    forall q ensures q in rest <==> q in list && q != list[k] {
      if q in list && q != list[k] {
        var j :| 0 <= j < |list| && list[j] == q;
        assert if j < k then rest[j] == q else rest[j - 1] == q;
      }
      if q in rest {
        var j :| 0 <= j < |rest| && rest[j] == q;
        assert rest[j] == if j < k then list[j] else list[j + 1];
      }
    }
  }

  // ---- the tree bins ----

  lemma {:induction false} TreeMember(h: Heap, ms: int, loose: set<int>, i: nat, q: int)
    requires TreesFilled(h, ms, loose) && i < TREE_BINS && q in Nodes(h.trees[i])
    ensures Waiting(h, loose, q) && MIN_LARGE <= h.chunks[q].size < SIZE_LIMIT && TreeIndex(h.chunks[q].size) == i
    ensures Holds(h.trees[i], q, h.chunks[q].size)
  {
    hide TreeIndex, Holds, Nodes, TreeBinOk;
    var z := NodeHolds(h.trees[i], q);
    HeldSize(h.mem, ms, h.treemap, h.trees, i, q, z);
  }

  /** Fields of large chunks, and the bin's pointer, do not overlap. */
  lemma {:induction false} LargeApart(h: Heap, ms: int, s: set<int>, i: nat)
    requires Separate(h.chunks) && StateChunk(h, ms) && i < TREE_BINS
    requires forall q :: q in s ==> q in h.chunks && !h.chunks[q].used && h.chunks[q].size >= MIN_LARGE
    ensures Spaced(s) && TreeLinks.Clear(s, TreeSlot(ms, i))
  {
    forall p, q | p in s && q in s && p != q ensures Far(p, q) {
      assert p < q ==> p + h.chunks[p].size <= q;
      assert q < p ==> q + h.chunks[q].size <= p;
    }
    forall q | q in s ensures TreeSlot(ms, i) < q + 8 || q + 64 <= TreeSlot(ms, i) {
      var b := ms - 16;
      assert q != b;
      assert q < b ==> q + h.chunks[q].size <= b;
      assert b < q ==> b + h.chunks[b].size <= q;
    }
  }

  lemma {:induction false} LargeRoom(h: Heap, at: Place, loose: set<int>, i: nat, p: int)
    requires Ok(h, at, loose) && i < TREE_BINS && |h.trees| == TREE_BINS && p in loose && p in h.chunks
        && h.chunks[p].size >= MIN_LARGE
    ensures Room(h.trees[i], p, TreeSlot(at.ms, i)) && !h.chunks[p].used
  {
    hide Ok, TreesFilled, SmallFilled, Complete, Separate, TreeIndex, Holds, Nodes, Tiled;
    OkParts(h, at, loose);
    var s := Nodes(h.trees[i]) + {p};
    forall q | q in s ensures q in h.chunks && !h.chunks[q].used && h.chunks[q].size >= MIN_LARGE {
      if q in Nodes(h.trees[i]) { TreeMember(h, at.ms, loose, i, q); }
    }
    if p in Nodes(h.trees[i]) { TreeMember(h, at.ms, loose, i, p); }
    LargeApart(h, at.ms, s, i);
  }

  lemma {:induction false} LargeNodes(h: Heap, at: Place, loose: set<int>, i: nat)
    requires Ok(h, at, loose) && i < TREE_BINS && |h.trees| == TREE_BINS
    ensures Spaced(Nodes(h.trees[i])) && TreeLinks.Clear(Nodes(h.trees[i]), TreeSlot(at.ms, i))
        && TreeSlot(at.ms, i) != 0
    ensures TreeBinOk(h.mem, TreeSlot(at.ms, i), Marked(h.treemap, i), h.trees[i], i)
    ensures forall q ::
        q in Nodes(h.trees[i]) ==>
        q in h.chunks && !h.chunks[q].used && h.chunks[q].size >= MIN_LARGE && TreeIndex(h.chunks[q].size) == i
  {
    hide Ok, TreesFilled, SmallFilled, Complete, Separate, TreeIndex, Holds, Nodes, Tiled, TreeBinOk;
    OkParts(h, at, loose);
    forall q | q in Nodes(h.trees[i]) ensures q in h.chunks && !h.chunks[q].used && h.chunks[q].size >= MIN_LARGE
        && TreeIndex(h.chunks[q].size) == i {
      TreeMember(h, at.ms, loose, i, q);
    }
    LargeApart(h, at.ms, Nodes(h.trees[i]), i);
    ChunkFacts(h, at, loose, at.ms - 16);
    BinAt(h.mem, at.ms, h.treemap, h.trees, i);
  }

  lemma LinksFromTree(h: Heap, m1: Mem, s: set<int>, slot: int)
    requires OnlyLinks(h.mem, m1, s, slot) && forall q :: q in s ==> q in h.chunks && h.chunks[q].size >= MIN_LARGE
    ensures LinksOnly(h, m1, s, slot, slot + 8)
  {
    forall a | Get(m1, a) != Get(h.mem, a) ensures (exists q ::
        q in s && q in h.chunks && q + 16 <= a < q + h.chunks[q].size) || slot <= a < slot + 8 {
      if a != slot {
        var q :| q in s && q + 16 <= a < q + 64;
        assert q in s && q in h.chunks && q + 16 <= a < q + h.chunks[q].size;
      }
    }
  }

  lemma TreeChangeIs(h: Heap, h1: Heap, ms: int, loose: set<int>, loose1: set<int>, i: nat, p: int, z: nat, s: set<int>)
    requires i < TREE_BINS && |h.trees| == TREE_BINS && |h1.trees| == TREE_BINS
    requires h1.trees == h.trees[i := h1.trees[i]] && h1 == h.(mem := h1.mem, treemap := h1.treemap, trees := h1.trees)
    requires TreeBinOk(h1.mem, TreeSlot(ms, i), Marked(h1.treemap, i), h1.trees[i], i)
    requires forall j :: 0 <= j < TREE_BINS && j != i ==> Marked(h1.treemap, j) == Marked(h.treemap, j)
    requires LinksOnly(h, h1.mem, s, TreeSlot(ms, i), TreeSlot(ms, i) + 8)
    requires forall q, y ::
        Holds(h1.trees[i], q, y) <==> Waiting(h, loose1, q) && h.chunks[q].size == y && !IsSmall(y) && TreeIndex(y) == i
    requires loose1 == loose - {p} || loose1 == loose + {p}
    requires forall q :: q in s ==>
        q in h.chunks && !h.chunks[q].used && h.chunks[q].size >= MIN_LARGE
        && (q == p || TreeIndex(h.chunks[q].size) == i)
    requires p in h.chunks && !h.chunks[p].used && h.chunks[p].size == z && z >= MIN_LARGE && TreeIndex(z) == i
        && p != h.top && p != h.dv
    ensures TreeChange(h, h1, ms, loose, loose1, i, p, z, s)
  {
    hide TreeBinOk, Marked, LinksOnly, Waiting, Holds, TreeIndex;
  }

  lemma {:induction false} TreeIsTrie(h: Heap, at: Place, loose: set<int>, i: nat)
    requires Ok(h, at, loose) && i < TREE_BINS && |h.trees| == TREE_BINS
    ensures IsTrie(h.trees[i], TrieLow(i), TrieBits(i))
    ensures forall q, y ::
        Holds(h.trees[i], q, y) <==> Waiting(h, loose, q) && h.chunks[q].size == y && !IsSmall(y) && TreeIndex(y) == i
  {
    hide Ok, TreesFilled, SmallFilled, Complete, TreeIndex, Holds, Tiled, TreeBinOk;
    OkParts(h, at, loose);
    BinAt(h.mem, at.ms, h.treemap, h.trees, i);
    BinParts(h.mem, TreeSlot(at.ms, i), Marked(h.treemap, i), h.trees[i], i);
    forall q, y ensures Holds(h.trees[i], q, y) <==>
        Waiting(h, loose, q) && h.chunks[q].size == y && !IsSmall(y) && TreeIndex(y) == i {
      TreeIff(h, at.ms, loose, i, q, y);
    }
  }

  lemma TreeBinIs(m: Mem, slot: int, marked: bool, t: Tree, i: nat)
    requires Rep(m, Get(m, slot), slot, t, i) && IsTrie(t, TrieLow(i), TrieBits(i)) && (marked <==> t.Node?)
    requires forall z :: z in Sizes(t) ==> MIN_LARGE <= z < SIZE_LIMIT && TreeIndex(z) == i
    ensures TreeBinOk(m, slot, marked, t, i)
  {
    hide TreeIndex, Rep, IsTrie;
  }

  /** The tree with one more chunk. */
  lemma {:induction false} TreeEnter(h: Heap, at: Place, loose: set<int>, i: nat, p: int, z: nat, m1: Mem)
    requires Ok(h, at, loose) && p in loose && p != h.dv && p in h.chunks && h.chunks[p].size == z && MIN_LARGE <= z
    requires i < TREE_BINS && i == TreeIndex(z) && |h.trees| == TREE_BINS
    requires IsTrie(h.trees[i], TrieLow(i), TrieBits(i)) && TrieLow(i) <= z < TrieLow(i) + Pow2(TrieBits(i))
    requires var t1 := Insert(h.trees[i], z, p, TrieLow(i), TrieBits(i));
        Rep(m1, Get(m1, TreeSlot(at.ms, i)), TreeSlot(at.ms, i), t1, i)
    ensures var t1 := Insert(h.trees[i], z, p, TrieLow(i), TrieBits(i));
            && TreeBinOk(m1, TreeSlot(at.ms, i), true, t1, i)
            && (forall q, y ::
              Holds(t1, q, y) <==>
              Waiting(h, loose - {p}, q) && h.chunks[q].size == y && !IsSmall(y) && TreeIndex(y) == i)
    ensures !h.chunks[p].used && p != h.top
  {
    hide Ok, TreesFilled, SmallFilled, Complete, TreeIndex, Holds, Tiled, TreeBinOk, Pow2, Rep, IsTrie, Insert, Sizes,
      Nodes;
    OkParts(h, at, loose);
    var t, lo, b := h.trees[i], TrieLow(i), TrieBits(i);
    var t1 := Insert(t, z, p, lo, b);
    TreeIsTrie(h, at, loose, i);
    ChunkFacts(h, at, loose, p);
    InsertTrie(t, z, p, lo, b);
    InsertNode(t, z, p, lo, b);
    BinAt(h.mem, at.ms, h.treemap, h.trees, i);
    BinParts(h.mem, TreeSlot(at.ms, i), Marked(h.treemap, i), t, i);
    TreeBinIs(m1, TreeSlot(at.ms, i), true, t1, i);
  }

  lemma InsertNode(t: Tree, s: nat, x: int, lo: nat, b: nat)
    requires IsTrie(t, lo, b) && lo <= s < lo + Pow2(b)
    ensures Insert(t, s, x, lo, b).Node?
  {
  }

  /** After `insert_large_chunk`. */
  lemma {:induction false} LargeEntered(h: Heap, at: Place, loose: set<int>, i: nat, p: int, z: nat, m1: Mem,
      treemap1: bv32)
    requires Ok(h, at, loose) && p in loose && p != h.dv && p in h.chunks && h.chunks[p].size == z && MIN_LARGE <= z
    requires i < TREE_BINS && i == TreeIndex(z) && |h.trees| == TREE_BINS
    requires IsTrie(h.trees[i], TrieLow(i), TrieBits(i)) && TrieLow(i) <= z < TrieLow(i) + Pow2(TrieBits(i))
    requires var t1 := Insert(h.trees[i], z, p, TrieLow(i), TrieBits(i));
        Rep(m1, Get(m1, TreeSlot(at.ms, i)), TreeSlot(at.ms, i), t1, i)
    requires OnlyLinks(h.mem, m1, Nodes(h.trees[i]) + {p}, TreeSlot(at.ms, i))
    requires Marked(treemap1, i) && forall j ::
        0 <= j < TREE_BINS && j != i ==> Marked(treemap1, j) == Marked(h.treemap, j)
    ensures var t1 := Insert(h.trees[i], z, p, TrieLow(i), TrieBits(i));
            var h1 := h.(mem := m1, treemap := treemap1, trees := h.trees[i := t1]);
            Ok(h1, at, loose - {p}) && UserKept(h.mem, m1, h.chunks, at.ms)
  {
    hide *;
    BinCounts();
    OkParts(h, at, loose);
    var t1, slot, s := Insert(h.trees[i], z, p, TrieLow(i), TrieBits(i)), TreeSlot(at.ms, i), Nodes(h.trees[i]) + {p};
    var h1 := h.(mem := m1, treemap := treemap1, trees := h.trees[i := t1]);
    TreeEnter(h, at, loose, i, p, z, m1);
    LargeNodes(h, at, loose, i);
    LinksFromTree(h, m1, s, slot);
    TreeChangeIs(h, h1, at.ms, loose, loose - {p}, i, p, z, s);
    SpecialLess(h, h1, loose, p);
    TreeChangeOk(h, h1, at, loose, loose - {p}, i, p, z, s);
    SlotInState(at.ms, i);
    LinksUser(h, m1, s, at.ms, slot, slot + 8);
  }

  lemma SlotInState(ms: int, i: nat)
    requires i < TREE_BINS
    ensures InState(ms, TreeSlot(ms, i), TreeSlot(ms, i) + 8)
  {
  }

  lemma {:induction false} TreeLeave(h: Heap, at: Place, loose: set<int>, i: nat, p: int, z: nat, m1: Mem, empty: bool)
    requires Ok(h, at, loose) && Waiting(h, loose, p) && h.chunks[p].size == z && MIN_LARGE <= z
    requires i < TREE_BINS && i == TreeIndex(z) && |h.trees| == TREE_BINS && IsTrie(h.trees[i], TrieLow(i), TrieBits(i))
    requires var t1 := Unlink(h.trees[i], z, p, TrieLow(i), TrieBits(i));
             Rep(m1, Get(m1, TreeSlot(at.ms, i)), TreeSlot(at.ms, i), t1, i) && (empty <==> t1 == Leaf)
    ensures var t1 := Unlink(h.trees[i], z, p, TrieLow(i), TrieBits(i));
            && TreeBinOk(m1, TreeSlot(at.ms, i), !empty, t1, i)
            && (forall q, y ::
              Holds(t1, q, y) <==>
              Waiting(h, loose + {p}, q) && h.chunks[q].size == y && !IsSmall(y) && TreeIndex(y) == i)
  {
    hide Ok, TreesFilled, SmallFilled, Complete, TreeIndex, Holds, Tiled, TreeBinOk, Pow2, Rep, IsTrie, Unlink, Sizes;
    OkParts(h, at, loose);
    var t, lo, b := h.trees[i], TrieLow(i), TrieBits(i);
    var t1 := Unlink(t, z, p, lo, b);
    TreeIsTrie(h, at, loose, i);
    UnlinkTrie(t, z, p, lo, b);
    BinAt(h.mem, at.ms, h.treemap, h.trees, i);
    BinParts(h.mem, TreeSlot(at.ms, i), Marked(h.treemap, i), t, i);
    TreeBinIs(m1, TreeSlot(at.ms, i), !empty, t1, i);
  }

  /** After `unlink_large_chunk`. */
  lemma {:induction false} LargeLeft(h: Heap, at: Place, loose: set<int>, i: nat, p: int, z: nat, m1: Mem, empty: bool)
    requires Ok(h, at, loose) && Waiting(h, loose, p) && h.chunks[p].size == z && MIN_LARGE <= z
    requires i < TREE_BINS && i == TreeIndex(z) && |h.trees| == TREE_BINS && IsTrie(h.trees[i], TrieLow(i), TrieBits(i))
        && Marked(h.treemap, i)
    requires var t1 := Unlink(h.trees[i], z, p, TrieLow(i), TrieBits(i));
             Rep(m1, Get(m1, TreeSlot(at.ms, i)), TreeSlot(at.ms, i), t1, i) && (empty <==> t1 == Leaf)
    requires OnlyLinks(h.mem, m1, Nodes(h.trees[i]), TreeSlot(at.ms, i))
    ensures var t1 := Unlink(h.trees[i], z, p, TrieLow(i), TrieBits(i));
            var h1 := h.(mem := m1,
              treemap := if empty then BinMaps.Clear(h.treemap, i) else h.treemap, trees := h.trees[i := t1]);
            Ok(h1, at, loose + {p}) && UserKept(h.mem, m1, h.chunks, at.ms)
  {
    hide *;
    BinCounts();
    OkParts(h, at, loose);
    var t1, slot, s := Unlink(h.trees[i], z, p, TrieLow(i), TrieBits(i)), TreeSlot(at.ms, i), Nodes(h.trees[i]);
    var h1 := h.(mem := m1,
      treemap := if empty then BinMaps.Clear(h.treemap, i) else h.treemap, trees := h.trees[i := t1]);
    TreeLeave(h, at, loose, i, p, z, m1, empty);
    LargeNodes(h, at, loose, i);
    LinksFromTree(h, m1, s, slot);
    MapMarked(h.treemap, i);
    WaitingIs(h, loose, p);
    TreeChangeIs(h, h1, at.ms, loose, loose + {p}, i, p, z, s);
    SpecialMore(h, h1, loose, p);
    TreeChangeOk(h, h1, at, loose, loose + {p}, i, p, z, s);
    SlotInState(at.ms, i);
    LinksUser(h, m1, s, at.ms, slot, slot + 8);
  }

  lemma WaitingIs(h: Heap, loose: set<int>, p: int)
    requires Waiting(h, loose, p)
    ensures p in h.chunks && !h.chunks[p].used && p != h.top && p != h.dv
  {
  }
}
