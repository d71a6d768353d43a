/** Facts about the states of a space that its operations rely on, and the sizes of requests (`dlmalloc.c`). */
module HeapFacts {
  import opened BinIndex
  import opened BinMaps
  import opened SizeTrie
  import opened HeapWords
  import opened HeapTiling
  import opened TreeLinks
  import opened TreeSearch
  import opened SmallBins
  import opened HeapState
  import opened HeapBins
  import opened HeapStart
  import opened HeapMoves
  import opened HeapEdits
  import opened HeapRelease
  import opened HeapResize
  import opened HeapUse
  import opened HeapGrow
  import opened HeapSegments
  import opened HeapDispose
  import opened HeapExtend
  import opened HeapArrange
  import opened HeapPasses

  const EXTERN_BIT: nat := 8
  const MAX_SMALL_REQUEST: nat := 232
  const MIN_REQUEST: nat := 23
  const MAX_REQUEST: nat := 0x1_0000_0000_0000_0000 - 128
  const HALF_MAX: nat := 0x7fff_ffff_ffff_ffff
  const FENCEPOST_HEAD: nat := 11

  /** The answer of the provider of memory (`MORECORE`). */
  datatype Region = Refused | Granted(base: int, size: nat)

  /** A region that is given is aligned, lies in one zone of addresses, and overlaps no segment. */
  ghost predicate Offered(r: Region, segs: seq<Segment>, z: Zones) {
    r.Granted? ==>
      r.base > 0 && r.base % 16 == 0 && r.size % 16 == 0 && InZone(z, r.base, r.size)
      && AllBeyond(segs, r.base, r.size)
  }

  /** Rounding down to a multiple, which for a power of two is a mask. */
  function RoundDown(x: nat, g: nat): (r: nat)
    requires g > 0
    ensures r <= x
  {
    DivideBelow(x, g);
    x - x % g
  }

  /** The amount asked for: `granularity_align(nb + SYS_ALLOC_PADDING)` on 64 bits. */
  function Asked(nb: nat, granularity: nat): nat
    requires granularity > 0
  {
    RoundDown(((nb + TOP_FOOT + 16) % WORD + granularity - 1) % WORD, granularity)
  }

  predicate Suits(r: Region, nb: nat, granularity: nat)
    requires granularity > 0
  {
    nb < Asked(nb, granularity) < HALF_MAX && r.Granted? && r.size > nb + TOP_FOOT
  }

  lemma SuitsParts(r: Region, nb: nat, granularity: nat)
    requires granularity > 0
    ensures Suits(r, nb, granularity) <==>
        nb < Asked(nb, granularity) < HALF_MAX && r.Granted? && r.size > nb + TOP_FOOT
  {
  }

  lemma OfferedParts(r: Region, segs: seq<Segment>, z: Zones)
    requires Offered(r, segs, z) && r.Granted?
    ensures InZone(z, r.base, r.size) && AllBeyond(segs, r.base, r.size)
        && (r.size > TOP_FOOT ==> Usable(r.base, r.size))
  {
  }

  /** `pad_request`. */
  function Pad(bytes: nat): nat { (bytes + 8 + 15) / 16 * 16 }

  /** The chunk size for a request; more than any chunk for one that is too large. */
  function RequestSize(bytes: nat): nat {
    if bytes < MIN_REQUEST then MIN_CHUNK else if bytes >= MAX_REQUEST then WORD - 1 else Pad(bytes)
  }

  lemma RequestFacts(bytes: nat)
    requires bytes < WORD
    ensures var nb := RequestSize(bytes);
            && 32 <= nb < WORD
            && (bytes < MAX_REQUEST ==> nb % 16 == 0 && bytes + 8 <= nb && (nb > 32 ==> nb < bytes + 24))
              && (bytes >= MAX_REQUEST ==> nb == WORD - 1)
            && (bytes <= MAX_SMALL_REQUEST ==> nb <= 240) && (bytes > MAX_SMALL_REQUEST ==> nb >= MIN_LARGE)
    ensures MAX_SMALL_REQUEST < MAX_REQUEST
  {
    var k := (bytes + 8 + 15) / 16;
    assert Pad(bytes) == 16 * k;
  }

  /** The largest request wraps around and asks for too little. */
  lemma TooMuch(granularity: nat)
    requires granularity > 0
    ensures Asked(WORD - 1, granularity) <= WORD - 1
  {
  }

  lemma DivideBelow(x: nat, g: nat)
    requires g > 0
    ensures x % g <= x
  {
    var q := x / g;
    assert x == q * g + x % g;
    assert q * g >= 0 by { Product(q, g); }
  }

  lemma Product(x: nat, y: nat)
    ensures x * y >= 0
  {
  }

  function AlignOffset(a: int): nat { if a % 16 == 0 then 0 else 16 - a % 16 }

  lemma AlignBack(e: int)
    requires e % 16 == 0
    ensures e + TOP_FOOT - (RECORD + 32 + 15) + AlignOffset(e + TOP_FOOT - (RECORD + 32 + 15) + 16) == e
  {
  }

  lemma RecordSize()
    ensures RECORD == 48 && TOP_FOOT == 80
  {
  }

  /** No free chunk but perhaps the top one is large enough. */
  ghost predicate NothingFits(h: Heap, nb: nat) { forall q ::
      q in h.chunks && !h.chunks[q].used && q != h.top ==> h.chunks[q].size < nb }

  /** No free chunk is large enough; of the top chunk something must remain. */
  ghost predicate NoRoom(h: Heap, nb: nat) { NothingFits(h, nb) && (h.top in h.chunks ==> h.chunks[h.top].size <= nb) }

  /** There is no memory for a request, neither in the space nor from the provider. */
  ghost predicate Exhausted(h: Heap, bytes: nat, granularity: nat, r: Region)
    requires granularity > 0
  {
    NoRoom(h, RequestSize(bytes)) && (bytes >= MAX_REQUEST || !Suits(r, RequestSize(bytes), granularity))
  }

  lemma ExhaustedIs(h: Heap, bytes: nat, granularity: nat, r: Region)
    requires granularity > 0
    ensures Exhausted(h, bytes, granularity, r) <==>
        NoRoom(h, RequestSize(bytes)) && (bytes >= MAX_REQUEST || !Suits(r, RequestSize(bytes), granularity))
  {
  }

  lemma NoRoomIs(h: Heap, nb: nat)
    requires h.top in h.chunks
    ensures NoRoom(h, nb) <==> NothingFits(h, nb) && h.chunks[h.top].size <= nb
  {
  }

  lemma SomethingFits(h: Heap, nb: nat, q: int)
    requires q in h.chunks && !h.chunks[q].used && q != h.top && nb <= h.chunks[q].size
    ensures !NothingFits(h, nb)
  {
  }

  /** A block can keep its place: it is large enough, or the free chunk after it makes up for the rest. */
  ghost predicate Resizable(h: Heap, p: int, nb: nat)
    requires p in h.chunks
  {
    var s, n := h.chunks[p].size, p + h.chunks[p].size;
    || nb <= s
    || (n in h.chunks && !h.chunks[n].used && nb <= s + h.chunks[n].size - (if n == h.top then 1 else 0))
  }

  lemma ResizableIs(h: Heap, p: int, nb: nat)
    requires p in h.chunks && p + h.chunks[p].size in h.chunks
    ensures var s, n := h.chunks[p].size, p + h.chunks[p].size;
            Resizable(h, p, nb) <==>
            || nb <= s
            || (!h.chunks[n].used && nb <= s + h.chunks[n].size - (if n == h.top then 1 else 0))
  {
  }

  /** A resize has no place for its block. */
  ghost predicate Stuck(h: Heap, p: int, bytes: nat, granularity: nat, r: Region)
    requires granularity > 0 && p in h.chunks
  {
    bytes >= MAX_REQUEST || (!Resizable(h, p, RequestSize(bytes)) && Exhausted(h, bytes, granularity, r))
  }

  /** A block that can be resized in place stays where it is. */
  ghost predicate StaysPut(h: Heap, mem: int, bytes: nat, r: int) {
    mem - 16 in h.chunks && bytes < MAX_REQUEST && Resizable(h, mem - 16, RequestSize(bytes)) ==> r == mem
  }

  lemma StaysPutIs(h: Heap, mem: int, bytes: nat, r: int)
    requires mem - 16 in h.chunks
    ensures StaysPut(h, mem, bytes, r) <==>
        (bytes < MAX_REQUEST && Resizable(h, mem - 16, RequestSize(bytes)) ==> r == mem)
  {
  }

  lemma StuckIs(h: Heap, p: int, bytes: nat, granularity: nat, r: Region)
    requires granularity > 0 && p in h.chunks
    ensures Stuck(h, p, bytes, granularity, r) <==>
        bytes >= MAX_REQUEST || (!Resizable(h, p, RequestSize(bytes)) && Exhausted(h, bytes, granularity, r))
  {
  }

  lemma SmallEnough(s: nat)
    ensures s < 240 ==> IsSmall(s)
  {
  }

  lemma {:induction false} SmallNone(h: Heap, at: Place, dvsize: nat, nb: nat)
    requires Ok(h, at, {}) && (if h.dv == 0 then dvsize == 0 else h.dv in h.chunks && dvsize == h.chunks[h.dv].size)
    requires dvsize < nb && nb < MIN_LARGE && h.treemap == 0 && forall k ::
        nb / 8 <= k < SMALL_BINS ==> !Marked(h.smallmap, k)
    ensures NothingFits(h, nb)
  {
    hide *;
    BinCounts();
    OkParts(h, at, {});
    forall q | q in h.chunks && !h.chunks[q].used && q != h.top && q != h.dv ensures h.chunks[q].size < nb {
      ChunkFacts(h, at, {}, q);
      var z := h.chunks[q].size;
      EightTimes(z);
      WaitingFree(h, q);
      if IsSmall(z) {
        SmallIndex(z);
        IsMember(h, at, {}, z / 8, q);
        BinApart(h, at, {}, z / 8);
        BinMarked(h.mem, Header(at.ms, z / 8), Marked(h.smallmap, z / 8), h.lists[z / 8]);
        DivideOrder(nb, z);
      } else {
        NoTrees(h, at, q);
      }
    }
    NothingFitsIs(h, nb);
  }

  lemma DivideOrder(x: nat, y: nat)
    ensures x <= y ==> x / 8 <= y / 8
  {
  }

  lemma WaitingFree(h: Heap, q: int)
    requires q in h.chunks && !h.chunks[q].used && q != h.top && q != h.dv
    ensures Waiting(h, {}, q)
  {
  }

  lemma NothingFitsIs(h: Heap, nb: nat)
    requires forall q :: q in h.chunks && !h.chunks[q].used && q != h.top ==> h.chunks[q].size < nb
    ensures NothingFits(h, nb)
  {
  }

  /** An empty bitmap means empty trees. */
  lemma {:induction false} NoTrees(h: Heap, at: Place, q: int)
    requires Ok(h, at, {}) && q in h.chunks && Waiting(h, {}, q) && !IsSmall(h.chunks[q].size)
    ensures h.treemap != 0
  {
    hide *;
    OkParts(h, at, {});
    var z := h.chunks[q].size;
    ChunkFacts(h, at, {}, q);
    NotSmall(z);
    IndexInTrie(z);
    var i := TreeIndex(z);
    BinCounts();
    IndexWord(h, at, {}, i, q);
    LargeNodes(h, at, {}, i);
    HoldsNode(h.trees[i], q, z);
    BinParts(h.mem, TreeSlot(at.ms, i), Marked(h.treemap, i), h.trees[i], i);
    ZeroMap(h.treemap);
  }

  lemma MinChunk()
    ensures MIN_CHUNK == 32
  {
  }

  lemma DvBelowWord(h: Heap, at: Place, dvsize: nat)
    requires Ok(h, at, {}) && (if h.dv == 0 then dvsize == 0 else h.dv in h.chunks && dvsize == h.chunks[h.dv].size)
    ensures dvsize < SIZE_LIMIT < WORD
  {
    hide Ok;
    if h.dv != 0 {
      ChunkFacts(h, at, {}, h.dv);
    }
  }

  /** Comparison with `dv` as unsigned numbers. */
  lemma ExcessBetter(dvsize: nat, nb: nat, rsize: nat)
    requires dvsize < SIZE_LIMIT && 0 < nb < WORD
    ensures rsize + nb < SIZE_LIMIT ==> (rsize < Excess(dvsize, nb) <==> !(nb <= dvsize <= rsize + nb))
  {
  }

  lemma {:induction false} BestIsWaiting(h: Heap, at: Place, nb: nat, v: int, z: nat)
    requires Ok(h, at, {}) && |h.trees| == TREE_BINS && IsBestFit(h.trees, nb, v, z)
    ensures Waiting(h, {}, v) && v in h.chunks && !h.chunks[v].used && h.chunks[v].size == z && !IsSmall(z)
        && z < SIZE_LIMIT && v > 0
  {
    hide Ok, TreeIndex, Holds, IsTrie;
    TreeIsTrie(h, at, {}, TreeIndex(z));
    ChunkFacts(h, at, {}, v);
  }

  lemma BestParts(trees: seq<Tree>, nb: nat, v: int, z: nat)
    requires IsBestFit(trees, nb, v, z)
    ensures nb <= z && forall y :: IsSize(trees, y) && nb <= y ==> z <= y
  {
  }

  lemma DvNotLoose(loose: set<int>, d: int, p: int)
    requires p in loose
    ensures d !in loose ==> loose + {d} - {d} == loose
  {
  }

  lemma DvZero(h: Heap, at: Place, loose: set<int>)
    requires Ok(h, at, loose)
    ensures h.dv != 0 ==>
        h.dv in h.chunks && h.chunks[h.dv].size > 0 && h.dv !in loose && !h.chunks[h.dv].used && h.dv != h.top
  {
    hide Separate, Preceded, Heads, Feet, SmallFilled, TreesFilled, Complete, Chained, Flagged, TopLast;
  }

  lemma UsedMeasures(c: Chunks, p: int)
    requires p in c && c[p].size > 0
    ensures forall q :: q in c ==> q in SetUsed(c, p, true) && SetUsed(c, p, true)[q].size == c[q].size
  {
  }

  lemma FrontMeasures(c: Chunks, p: int, nb: nat)
    requires p in c && nb <= c[p].size && p + nb !in c && nb > 0
    ensures var d := Fronted(c, p, nb);
            && p in d && p + nb in d && d[p].size == nb && d[p].used && d[p + nb] == Chunk(c[p].size - nb, false, true)
            && forall q :: q in c && q != p ==> q in d && d[q] == c[q]
  {
  }

  lemma EightTimes(s: nat)
    requires s % 16 == 0
    ensures s == 8 * (s / 8)
  {
    var k := s / 16;
    assert s == 8 * (2 * k);
  }

  lemma NotSmall(s: nat)
    requires !IsSmall(s)
    ensures MIN_LARGE <= s
  {
  }

  lemma BinMarked(m: Mem, h: int, marked: bool, list: seq<int>)
    requires SmallBinOk(m, h, marked, list)
    ensures list != [] ==> marked && SmallBinOk(m, h, true, list)
  {
  }

  lemma IsMember(h: Heap, at: Place, loose: set<int>, i: nat, p: int)
    requires Ok(h, at, loose) && Waiting(h, loose, p) && i < SMALL_BINS && |h.lists| == SMALL_BINS
        && h.chunks[p].size == 8 * i
    ensures p in h.lists[i]
  {
    hide Ok;
    OkParts(h, at, loose);
    ListIff(h, at.ms, loose, i, p);
  }

  lemma HoldsNode(t: Tree, p: int, s: nat)
    requires Holds(t, p, s)
    ensures t.Node?
  {
  }

  lemma {:induction false} IndexWord(h: Heap, at: Place, loose: set<int>, i: nat, p: int)
    requires Ok(h, at, loose) && Waiting(h, loose, p) && i < TREE_BINS && |h.trees| == TREE_BINS
        && !IsSmall(h.chunks[p].size) && TreeIndex(h.chunks[p].size) == i
    ensures Get(h.mem, p + INDEX) == i && Holds(h.trees[i], p, h.chunks[p].size)
  {
    hide Ok, TreeIndex, Rep, TreesFilled, SmallFilled, Complete, Holds;
    OkParts(h, at, loose);
    TreeIff(h, at.ms, loose, i, p, h.chunks[p].size);
    BinAt(h.mem, at.ms, h.treemap, h.trees, i);
    BinParts(h.mem, TreeSlot(at.ms, i), Marked(h.treemap, i), h.trees[i], i);
    HoldsSize(h.trees[i], p, h.chunks[p].size);
    NodeIndex(h.mem, Get(h.mem, TreeSlot(at.ms, i)), TreeSlot(at.ms, i), h.trees[i], i, p);
  }

  lemma {:induction false} NodeIndex(m: Mem, p: int, parent: int, t: Tree, i: nat, q: int)
    requires Rep(m, p, parent, t, i) && q in Nodes(t)
    ensures Get(m, q + INDEX) == i
    decreases t
  {
    if q in t.ring {
    } else if q in Nodes(t.left) {
      NodeIndex(m, Get(m, p + CHILD0), p, t.left, i, q);
    } else {
      NodeIndex(m, Get(m, p + CHILD1), p, t.right, i, q);
    }
  }

  lemma StartSize(capacity: nat)
    requires capacity % 16 == 0 && capacity > STATE_SIZE + TOP_FOOT
    ensures (capacity - STATE_SIZE - TOP_FOOT) % 16 == 0 && capacity - STATE_SIZE - TOP_FOOT >= 16
  {
  }

  lemma SmallIndex(s: nat)
    requires IsSmall(s)
    ensures s / 8 < SMALL_BINS
  {
  }

  lemma NotYetIn(h: Heap, at: Place, loose: set<int>, i: nat, p: int)
    requires Ok(h, at, loose) && p in loose && i < SMALL_BINS && |h.lists| == SMALL_BINS
    ensures p !in h.lists[i]
  {
    hide Ok;
    OkParts(h, at, loose);
  }

  lemma GrowMeasures(c: Chunks, top: int, fences: set<int>, tb: int, tn: nat, dv: int)
    requires Extensible(c, top, fences, tb, tn)
    ensures var d := Extended(c, top, tb, tn);
            && tb in d && d[tb].size == tn - TOP_FOOT && (dv in c && dv != top ==> dv in d && d[dv].size == c[dv].size)
            && (c[top].size >= MIN_CHUNK ==> top in d && d[top].size == c[top].size)
  {
    hide Extended;
    ExtShape(c, top, fences, tb, tn);
  }

  lemma TopLastIs(h: Heap, at: Place, loose: set<int>)
    requires Ok(h, at, loose)
    ensures TopLast(h.chunks, h.top, h.fences)
  {
    hide Separate, Preceded, Heads, Feet, SmallFilled, TreesFilled, Complete, Sized, Chained, Flagged, TopLast;
  }

  lemma ServedParts(m: Mem, m1: Mem, c: Chunks, c1: Chunks, ms: int, p: int, nb: nat)
    requires Served(m, m1, c, c1, ms, p, nb)
    ensures p in c1 && c1[p].used && nb <= c1[p].size < nb + 32 && SameCover(c, c1)
        && p in c && !c[p].used && nb <= c[p].size
  {
    hide SameCover;
  }

  lemma HugeNone(h: Heap, at: Place, nb: nat)
    requires Ok(h, at, {}) && nb == WORD - 1
    ensures NothingFits(h, nb)
  {
    hide Ok;
    forall q | q in h.chunks ensures h.chunks[q].size < nb {
      ChunkFacts(h, at, {}, q);
    }
  }

  lemma {:induction false} NoTreesAtAll(h: Heap, at: Place)
    requires Ok(h, at, {}) && h.treemap == 0
    ensures forall q :: q in h.chunks && Waiting(h, {}, q) ==> IsSmall(h.chunks[q].size)
    ensures forall z: nat :: !IsSize(h.trees, z)
  {
    hide Ok, IsSmall, Waiting, Sizes;
    OkParts(h, at, {});
    BinCounts();
    forall q | q in h.chunks && Waiting(h, {}, q) ensures IsSmall(h.chunks[q].size) {
      if !IsSmall(h.chunks[q].size) {
        NoTrees(h, at, q);
      }
    }
    ZeroMap(h.treemap);
    forall i | 0 <= i < |h.trees| ensures Sizes(h.trees[i]) == {} {
      LargeNodes(h, at, {}, i);
      BinParts(h.mem, TreeSlot(at.ms, i), Marked(h.treemap, i), h.trees[i], i);
      NoSizes(h.trees[i]);
    }
  }

  lemma NoSizes(t: Tree)
    ensures !t.Node? ==> Sizes(t) == {}
  {
  }

  lemma {:induction false} LargeNone(h: Heap, at: Place, dvsize: nat, nb: nat)
    requires Ok(h, at, {}) && (if h.dv == 0 then dvsize == 0 else h.dv in h.chunks && dvsize == h.chunks[h.dv].size)
        && nb >= MIN_LARGE
    requires forall z: nat :: IsSize(h.trees, z) && nb <= z ==> nb <= dvsize <= z
    ensures nb <= dvsize || NothingFits(h, nb)
  {
    hide *;
    BinCounts();
    Limits();
    OkParts(h, at, {});
    if dvsize < nb {
      forall q | q in h.chunks && !h.chunks[q].used && q != h.top && q != h.dv ensures h.chunks[q].size < nb {
        var z := h.chunks[q].size;
        ChunkFacts(h, at, {}, q);
        WaitingFree(h, q);
        if IsSmall(z) {
          SmallBelow(z);
        } else {
          NotSmall(z);
          IndexInTrie(z);
          IndexWord(h, at, {}, TreeIndex(z), q);
          HeldIsSize(h.trees, TreeIndex(z), q, z);
        }
      }
      NothingFitsIs(h, nb);
    }
  }

  lemma SmallBelow(s: nat)
    requires IsSmall(s)
    ensures s < MIN_LARGE
  {
  }

  lemma HeldIsSize(trees: seq<Tree>, i: nat, q: int, z: nat)
    requires i < |trees| && Holds(trees[i], q, z)
    ensures IsSize(trees, z)
  {
    HoldsSize(trees[i], q, z);
  }

  lemma StartArranged(m: Mem, base: int, size: nat, capacity: nat, z: Zones)
    requires size == capacity - STATE_SIZE - TOP_FOOT && base > 0 && capacity > STATE_SIZE + TOP_FOOT
    ensures var h := Heap(m, StartChunks(base, size), base + STATE_SIZE, {}, 0, 0, 0, EmptyLists(), EmptyTrees());
            Arranged(h, Place(base + 16, z), [Segment(base, capacity - TOP_FOOT, capacity, EXTERN_BIT)], {},
              {base})
    ensures Listed(Record(base, capacity, 0, EXTERN_BIT), [Segment(base, capacity - TOP_FOOT, capacity, EXTERN_BIT)])
  {
    hide Segmented;
    StartSegmented(StartChunks(base, size), base, base + STATE_SIZE, capacity, EXTERN_BIT);
  }

  lemma ExtRanges(c: Chunks, top: int, fences: set<int>, tb: int, tn: nat)
    requires Extensible(c, top, fences, tb, tn)
    ensures top in c && c[top].size >= 16 && tn >= TOP_FOOT + 16
        && (top + c[top].size + TOP_FOOT <= tb || tb + tn <= top)
  {
  }

  lemma GrowWordsIs(h: Heap, m1: Mem, tb: int, tn: nat)
    requires h.top in h.chunks && tn >= TOP_FOOT
    requires forall a ::
        Get(m1, a) != Get(h.mem, a) ==> h.top + 8 <= a < h.top + h.chunks[h.top].size + TOP_FOOT || tb <= a < tb + tn
    requires var ts := h.chunks[h.top].size;
             var sp, small := if ts < MIN_CHUNK then h.top else h.top + ts, ts < MIN_CHUNK;
             && Get(m1, sp + HEAD) == Tag(RECORD, true, small) && Get(m1, tb + HEAD) == Tag(tn - TOP_FOOT, false, true)
             && (!small ==> Get(m1, h.top + HEAD) == Tag(ts, false, true) && Get(m1, h.top + ts) == ts)
    ensures GrowWords(h, m1, tb, tn)
  {
    hide Get, Tag;
  }

  // ---- segments ----

  lemma ListedParts(seg: Record, segs: seq<Segment>, ms: int)
    requires Listed(seg, segs)
    ensures |segs| > 0
    ensures var l := |segs| - 1;
            && seg == Record(segs[l].base, segs[l].size, NextRecord(segs, l), segs[l].flags)
            && seg.next == (if l == 0 then 0 else Pointer(segs, ms, l - 1)) && Pointer(segs, ms, l) == ms
  {
  }

  lemma RecordWordsIs(m: Mem, sp: int, segs: seq<Segment>)
    requires |segs| > 0
    requires var l := |segs| - 1;
             Get(m, sp + 16) == segs[l].base && Get(m, sp + 24) == segs[l].size
               && Get(m, sp + 32) == NextRecord(segs, l) && Get(m, sp + 40) == segs[l].flags
    ensures RecordWords(m, sp, segs)
  {
  }

  /** The record stays while the old top chunk goes into a bin. */
  lemma {:induction false} RecordKept(m: Mem, m1: Mem, c1: Chunks, ms: int, sp: int, segs: seq<Segment>)
    requires |segs| > 0 && RecordWords(m, sp, segs) && KeepsUse(m, m1, c1, c1, ms, {}) && sp in c1 && c1[sp].used
        && c1[sp].size == RECORD && sp != ms - 16
    ensures RecordWords(m1, sp, segs)
  {
    SameWords(m, m1, sp + 16);
  }

  /** A region right behind a segment, or right in front of it; the region that the space was made in is left alone. */
  predicate Behind(s: Segment, tb: int) { s.flags != EXTERN_BIT && s.base + s.size == tb }

  predicate InFront(s: Segment, tb: int, tn: nat) { s.flags != EXTERN_BIT && s.base == tb + tn }

  ghost predicate Joins(segs: seq<Segment>, segs1: seq<Segment>, tb: int, tn: nat, j: nat) {
    j < |segs| && InFront(segs[j], tb, tn) && segs1 == PrependedSegments(segs, j, tb, tn)
  }

  ghost predicate OwnSegment(segs: seq<Segment>, segs1: seq<Segment>, tb: int, tn: nat) {
    && |segs1| == |segs| + 1 && segs1[|segs|].base == tb && segs1[|segs|].size == tn
    && forall i :: 0 <= i < |segs| ==> segs1[i].base == segs[i].base && segs1[i].size == segs[i].size
  }

  /** Where a region goes: behind the newest segment, else in front of a segment, else it is a segment of its own. */
  ghost predicate Taken(segs: seq<Segment>, segs1: seq<Segment>, tb: int, tn: nat) {
    && |segs| > 0
    && if Behind(segs[|segs| - 1], tb) then segs1 == StretchedSegments(segs, tn)
       else if exists j :: 0 <= j < |segs| && InFront(segs[j], tb, tn) then exists j :: Joins(segs, segs1, tb, tn, j)
       else OwnSegment(segs, segs1, tb, tn)
  }

  lemma TakenBehind(segs: seq<Segment>, tb: int, tn: nat)
    requires |segs| > 0 && segs[|segs| - 1].flags != EXTERN_BIT
        && segs[|segs| - 1].base + segs[|segs| - 1].size == tb
    ensures Taken(segs, StretchedSegments(segs, tn), tb, tn)
  {
  }

  lemma TakenFront(segs: seq<Segment>, tb: int, tn: nat, j: nat)
    requires j < |segs| && segs[j].flags != EXTERN_BIT && segs[j].base == tb + tn
    requires segs[|segs| - 1].flags == EXTERN_BIT || segs[|segs| - 1].base + segs[|segs| - 1].size != tb
    ensures Taken(segs, PrependedSegments(segs, j, tb, tn), tb, tn)
  {
    assert InFront(segs[j], tb, tn) && Joins(segs, PrependedSegments(segs, j, tb, tn), tb, tn, j);
  }

  lemma GrownOwn(segs: seq<Segment>, sp: int, tb: int, tn: nat)
    requires |segs| > 0 && sp + RECORD >= segs[|segs| - 1].base && tn >= TOP_FOOT
    ensures OwnSegment(segs, GrownSegments(segs, sp, tb, tn), tb, tn)
  {
  }

  lemma TakenOwn(segs: seq<Segment>, segs1: seq<Segment>, tb: int, tn: nat)
    requires |segs| > 0 && OwnSegment(segs, segs1, tb, tn)
    requires segs[|segs| - 1].flags == EXTERN_BIT || segs[|segs| - 1].base + segs[|segs| - 1].size != tb
    requires forall k :: 0 <= k < |segs| ==> segs[k].flags == EXTERN_BIT || segs[k].base != tb + tn
    ensures Taken(segs, segs1, tb, tn)
  {
  }

  /** The segments take up the new region and what they took up before. */
  ghost predicate Spans(segs: seq<Segment>, segs1: seq<Segment>, tb: int, tn: nat) {
    forall x: int, n: nat :: n > 0 && AllBeyond(segs, x, n) && (tb + tn <= x || x + n <= tb) ==> AllBeyond(segs1, x, n)
  }

  lemma {:induction false} GrownSpans(segs: seq<Segment>, sp: int, tb: int, tn: nat)
    requires |segs| > 0 && sp + RECORD >= segs[|segs| - 1].base && tn >= TOP_FOOT
    ensures Spans(segs, GrownSegments(segs, sp, tb, tn), tb, tn)
  {
    var segs1 := GrownSegments(segs, sp, tb, tn);
    forall x: int, n: nat | n > 0 && AllBeyond(segs, x, n) && (tb + tn <= x
        || x + n <= tb) ensures AllBeyond(segs1, x, n) {
      forall i | 0 <= i < |segs1| ensures Beyond(segs1[i], x, n) {
        assert i < |segs| ==> Beyond(segs[i], x, n);
      }
    }
  }

  lemma {:induction false} StretchedSpans(segs: seq<Segment>, tb: int, tn: nat)
    requires |segs| > 0 && tb == segs[|segs| - 1].base + segs[|segs| - 1].size && Spread(segs)
    ensures Spans(segs, StretchedSegments(segs, tn), tb, tn)
  {
    var segs1 := StretchedSegments(segs, tn);
    forall x: int, n: nat | n > 0 && AllBeyond(segs, x, n) && (tb + tn <= x
        || x + n <= tb) ensures AllBeyond(segs1, x, n) {
      forall i | 0 <= i < |segs1| ensures Beyond(segs1[i], x, n) {
        assert Beyond(segs[i], x, n);
      }
    }
  }

  lemma GrownListed(segs: seq<Segment>, sp: int, tb: int, tn: nat)
    requires |segs| > 0 && sp + RECORD >= segs[|segs| - 1].base && tn >= TOP_FOOT
    ensures Listed(Record(tb, tn, sp + 16, 0), GrownSegments(segs, sp, tb, tn))
  {
  }

  lemma StretchedListed(segs: seq<Segment>, tn: nat)
    requires |segs| > 0
    ensures var s := segs[|segs| - 1];
        Listed(Record(s.base, s.size + tn, NextRecord(segs, |segs| - 1), s.flags), StretchedSegments(segs, tn))
  {
  }

  lemma StretchMeasures(c: Chunks, top: int, tn: nat)
    requires top in c
    ensures var d := Stretched(c, top, tn);
        top in d && d[top].size == c[top].size + tn && forall q :: q in c && q != top ==> q in d && d[q] == c[q]
  {
  }

  lemma StretchWordsIs(m: Mem, m1: Mem, top: int, ts: nat, tn: nat)
    requires Get(m1, top + HEAD) == Tag(ts + tn, false, true)
    requires forall a :: Get(m1, a) != Get(m, a) ==> a == top + HEAD || a == top + (ts + tn) + HEAD
    ensures StretchWords(m, m1, top, ts, tn)
  {
    hide Get, Tag;
  }

  lemma {:induction false} PrependedSpans(segs: seq<Segment>, j: nat, tb: int, tn: nat)
    requires j < |segs| && segs[j].base == tb + tn && Spread(segs)
    ensures Spans(segs, PrependedSegments(segs, j, tb, tn), tb, tn)
  {
    var segs1 := PrependedSegments(segs, j, tb, tn);
    forall x: int, n: nat | n > 0 && AllBeyond(segs, x, n) && (tb + tn <= x
        || x + n <= tb) ensures AllBeyond(segs1, x, n) {
      forall i | 0 <= i < |segs1| ensures Beyond(segs1[i], x, n) {
        assert Beyond(segs[i], x, n);
      }
    }
  }

  lemma PrependedListed(seg: Record, segs: seq<Segment>, j: nat, tb: int, tn: nat)
    requires Listed(seg, segs) && j < |segs| && segs[j].base == tb + tn
    ensures var segs1 := PrependedSegments(segs, j, tb, tn);
            if j == |segs| - 1 then Listed(seg.(base := tb, size := seg.size + tn), segs1) else Listed(seg, segs1)
  {
  }

  lemma SegmentsSpread(h: Heap, at: Place, segs: seq<Segment>, live: set<int>, system: set<int>)
    requires Arranged(h, at, segs, live, system)
    ensures Spread(segs) && Tiles(h.chunks, segs)
  {
    hide Owned, Recorded, Spread, Tiles, Fenced;
  }

  lemma PointerIsRecord(segs: seq<Segment>, ms: int, j: nat)
    requires j < |segs| && Pointer(segs, ms, j) != ms
    ensures j < |segs| - 1 && Pointer(segs, ms, j) == RecordOf(segs[j])
  {
  }

  /** A change of the payload of a chunk that is not a caller's. */
  lemma OthersLive(m: Mem, m1: Mem, c: Chunks, fences: set<int>, ms: int, live: set<int>, system: set<int>, p: int)
    requires Owned(c, fences, ms, live, system) && KeepsUse(m, m1, c, c, ms, {p}) && p !in live
    ensures LiveKept(m, m1, c, c, live)
  {
    hide SameFrom;
  }

  // ---- a region in front of a segment ----

  lemma {:induction false} RestTotal(c: Chunks, tb: int, tn: nat, nb: nat, merge: bool)
    requires 0 < nb < tn && tb !in c && tb + nb !in c && tb + tn in c && c[tb + tn].used == !merge && Positive(c)
    ensures var c1, q, o := CutPrelude(c, tb, tn, nb), tb + nb, tb + tn;
            && Releasable(c1, q, q, merge) && Positive(c1) && q in c1 && NextOf(c1, q) == o
            && Total(c1, q, q, merge) == tn - nb + (if merge then c[o].size else 0)
  {
    hide CutPrelude, Positive;
    RestReleasable(c, tb, tn, nb, merge);
    CutPreludeShape(c, tb, tn, nb);
  }

  lemma {:induction false} RestMeasures(c: Chunks, c1: Chunks, tb: int, tn: nat, nb: nat, merge: bool)
    requires 0 < nb < tn && tb !in c && tb + nb !in c && tb + tn in c && c1 == CutPrelude(c, tb, tn, nb)
    requires Releasable(c1, tb + nb, tb + nb, merge) && Positive(c1) && Flagged(c1)
    ensures var q, o, d := tb + nb, tb + tn, Released(c1, tb + nb, tb + nb, merge);
            && q in d && d[q].size == Total(c1, q, q, merge) && (!merge ==> o in d && d[o].size == c[o].size)
            && forall s :: s in c && s != o ==> s in d && d[s].size == c[s].size
  {
    hide CutPrelude, Released, Flagged, Positive;
    CutPreludeShape(c, tb, tn, nb);
    ReleasedMeasures(c1, tb + nb, tb + nb, merge);
  }

  lemma {:induction false} RestPrepared(h: Heap, c1: Chunks, at: Place, loose: set<int>, tb: int, tn: nat, nb: nat,
      merge: bool, total: nat)
    requires 0 < nb < tn && c1 == CutPrelude(h.chunks, tb, tn, nb) && tb + tn in h.chunks
        && merge == !h.chunks[tb + tn].used
    requires total == tn - nb + (if merge then h.chunks[tb + tn].size else 0)
    requires Ok(h, at, loose) && Preludable(h.chunks, h.top, h.fences, tb, tn)
    ensures RestIsReady(c1, tb, tn, nb, merge, total) && tb > 0 && tb !in h.chunks && tb + nb !in h.chunks
  {
    hide *;
    OkFlagged(h, at, loose);
    PreludableFacts(h.chunks, h.top, h.fences, tb, tn);
    InRegion(h.chunks, h.top, h.fences, tb, tn, nb);
    RestTotal(h.chunks, tb, tn, nb, merge);
    RestFlagged(h.chunks, h.top, h.fences, tb, tn, nb);
    RestReadyIs(c1, tb, tn, nb, merge, total);
  }

  /** The rest of the region can be released. */
  predicate RestIsReady(c1: Chunks, tb: int, tn: nat, nb: nat, merge: bool, total: nat) {
    && Releasable(c1, tb + nb, tb + nb, merge) && Positive(c1) && Flagged(c1) && tb + nb in c1
      && NextOf(c1, tb + nb) == tb + tn
    && Total(c1, tb + nb, tb + nb, merge) == total
  }

  lemma RestReadyIs(c1: Chunks, tb: int, tn: nat, nb: nat, merge: bool, total: nat)
    requires Releasable(c1, tb + nb, tb + nb, merge) && Positive(c1) && Flagged(c1) && tb + nb in c1
        && NextOf(c1, tb + nb) == tb + tn
    requires Total(c1, tb + nb, tb + nb, merge) == total
    ensures RestIsReady(c1, tb, tn, nb, merge, total)
  {
    hide Releasable, Positive, Flagged, Total, NextOf;
  }

  lemma RestReadyParts(c1: Chunks, tb: int, tn: nat, nb: nat, merge: bool, total: nat)
    requires RestIsReady(c1, tb, tn, nb, merge, total)
    ensures Releasable(c1, tb + nb, tb + nb, merge) && Positive(c1) && Flagged(c1) && tb + nb in c1
        && NextOf(c1, tb + nb) == tb + tn
    ensures Total(c1, tb + nb, tb + nb, merge) == total
  {
    hide Releasable, Positive, Flagged, Total, NextOf;
  }

  /** The tiling after that. */
  lemma {:induction false} RestFacts(c: Chunks, c1: Chunks, tb: int, tn: nat, nb: nat, merge: bool, total: nat)
    requires 0 < nb < tn && tb !in c && tb + nb !in c && tb + tn in c && c1 == CutPrelude(c, tb, tn, nb)
    requires Releasable(c1, tb + nb, tb + nb, merge) && Positive(c1) && Flagged(c1)
        && Total(c1, tb + nb, tb + nb, merge) == total
    ensures RestPlaced(c, Released(c1, tb + nb, tb + nb, merge), tb, tn, nb, merge, total)
  {
    hide *;
    RestMeasures(c, c1, tb, tn, nb, merge);
    RestCovers(c, c1, tb, tn, nb, merge);
    RestPlacedIs(c, Released(c1, tb + nb, tb + nb, merge), tb, tn, nb, merge, total);
  }

  /** The rest of a region has become a free chunk, alone or merged with the chunk after it. */
  ghost predicate RestPlaced(c: Chunks, d: Chunks, tb: int, tn: nat, nb: nat, merge: bool, total: nat) {
    && tb + nb in d && d[tb + nb].size == total
    && (!merge && tb + tn in c ==> tb + tn in d && d[tb + tn].size == c[tb + tn].size)
    && (forall s :: s in c && s != tb + tn ==> s in d && d[s].size == c[s].size)
    && CoversMore(c, d, tb, tn)
  }

  lemma RestPlacedIs(c: Chunks, d: Chunks, tb: int, tn: nat, nb: nat, merge: bool, total: nat)
    ensures RestPlaced(c, d, tb, tn, nb, merge, total) <==>
        && tb + nb in d && d[tb + nb].size == total
        && (!merge && tb + tn in c ==> tb + tn in d && d[tb + tn].size == c[tb + tn].size)
        && (forall s :: s in c && s != tb + tn ==> s in d && d[s].size == c[s].size)
        && CoversMore(c, d, tb, tn)
  {
    hide CoversMore;
  }

  lemma {:induction false} RestFlagged(c: Chunks, top: int, fences: set<int>, tb: int, tn: nat, nb: nat)
    requires Preludable(c, top, fences, tb, tn) && 0 < nb < tn && Flagged(c) && tb + nb !in c
    ensures Flagged(CutPrelude(c, tb, tn, nb))
  {
    hide CutPrelude;
    CutPreludeShape(c, tb, tn, nb);
    var d, r := CutPrelude(c, tb, tn, nb), tb + nb;
    forall p | p in d && p + d[p].size in d ensures d[p + d[p].size].pinuse == d[p].used {
      if p != tb && p != r {
        assert p in c && p + c[p].size != tb && p + c[p].size != r;
      }
    }
  }

  lemma {:induction false} RestCovers(c: Chunks, c1: Chunks, tb: int, tn: nat, nb: nat, merge: bool)
    requires 0 < nb < tn && tb !in c && tb + nb !in c && c1 == CutPrelude(c, tb, tn, nb)
    requires Releasable(c1, tb + nb, tb + nb, merge) && Positive(c1)
    ensures CoversMore(c, Released(c1, tb + nb, tb + nb, merge), tb, tn)
  {
    hide CutPrelude, Released, HeapTiling.Covered, Releasable, Positive;
    var d := Released(c1, tb + nb, tb + nb, merge);
    forall x ensures HeapTiling.Covered(d, x) <==> HeapTiling.Covered(c, x) || tb <= x < tb + tn {
      PrependedCover(c, tb, tn, nb, merge, x);
    }
  }

  /** The rest of a region has joined the top chunk or the designated victim after it. */
  lemma {:induction false} PrependJoined(h: Heap, at: Place, tb: int, tn: nat, nb: nat, total: nat) returns (h3: Heap)
    requires 32 <= nb && nb + 32 <= tn && nb % 16 == 0 && tb + tn in h.chunks && !h.chunks[tb + tn].used
    requires tb + tn == h.top || (tb + tn == h.dv && h.dv != 0)
    requires total == tn - nb + h.chunks[tb + tn].size && Get(h.mem, tb + HEAD) == Tag(nb, true, true)
    requires Preludable(h.chunks, h.top, h.fences, tb, tn) && InZone(at.zone, tb, tn)
    requires Ok(h, at, {}) && NoFreePair(h.chunks)
    ensures var q, toTop := tb + nb, tb + tn == h.top;
            h3 == Heap(if toTop then FreedTop(h.mem, q, total) else FreedMerged(h.mem, q, total),
                       h3.chunks, if toTop then q else h.top, h.fences, if toTop then h.dv else q, h.smallmap,
                       h.treemap, h.lists, h.trees)
    ensures Ok(h3, at, {}) && NoFreePair(h3.chunks) && RestPlaced(h.chunks, h3.chunks, tb, tn, nb, true, total)
    ensures Passes(h.mem, h3.mem, h.chunks, h3.chunks, h.fences, at.ms, {}, {tb}) && tb in h3.chunks
        && h3.chunks[tb].size == nb
  {
    hide *;
    var q, h1 := tb + nb, RestInUse(h, tb, tn, nb);
    TopFacts(h, at, {});
    RestIs(h, tb, tn, nb);
    RestPrepared(h, h1.chunks, at, {}, tb, tn, nb, true, total);
    RestReadyParts(h1.chunks, tb, tn, nb, true, total);
    RestFacts(h.chunks, h1.chunks, tb, tn, nb, true, total);
    TakesDvIs(h1, q, q, true);
    h3 := Disposed(h1, q, q, true);
    PrependAll(h, h1, h3, at, {}, {}, tb, tn, nb, true);
    DisposedFields(h1, q, q, true, total);
  }

  lemma TakesDvIs(h: Heap, q: int, p: int, merge: bool)
    requires p in h.chunks
    ensures TakesDv(h, q, p, merge) <==> h.dv != 0 && ((q != p && h.dv == q) || (merge && h.dv == NextOf(h.chunks, p)))
    ensures LeftLoose(h, q, p, merge) == if TakesDv(h, q, p, merge)
        || (merge && NextOf(h.chunks, p) == h.top) then {} else {q}
  {
  }

  /** The head of a chunk in a region that has no chunks yet. */
  lemma {:induction false} HeadUnowned(h: Heap, at: Place, loose: set<int>, tb: int, tn: nat, x: int)
    requires Ok(h, at, loose) && Preludable(h.chunks, h.top, h.fences, tb, tn)
    ensures Ok(h.(mem := h.mem[tb + HEAD := x]), at, loose) && UserKept(h.mem, h.mem[tb + HEAD := x], h.chunks, at.ms)
    ensures Get(h.mem[tb + HEAD := x], tb + HEAD) == x
  {
    hide Ok;
    assert Unowned(h.chunks, tb + HEAD);
    UnownedWrite(h, at, loose, h.mem[tb + HEAD := x]);
  }

  /** Clearing a bit that is clear. */
  lemma {:induction false} FreedAgain(h: Heap, at: Place, loose: set<int>, o: int, q: int, total: nat)
    requires Ok(h, at, loose) && NoFreePair(h.chunks) && o in h.chunks && !h.chunks[o].used && o != h.top
    requires q + total == o + h.chunks[o].size && total >= 16
    ensures SameWord(FreedMerged(h.mem, q, total), FreedBefore(h.mem, q, total))
  {
    hide Ok, Tag, WithPinuse, SizeIn, PinuseIn, UsedIn, NoFreePair;
    var n := q + total;
    AfterFree(h, at, loose, o);
    UsedNextIs(h.chunks, o);
    ChunkFacts(h, at, loose, n);
    TagBits(h.chunks[n].size, true, false);
  }

  lemma UserTwice(m: Mem, m1: Mem, m2: Mem, c: Chunks, ms: int)
    requires UserKept(m, m1, c, ms) && UserKept(m1, m2, c, ms)
    ensures UserKept(m, m2, c, ms)
  {
    forall q | q in c && c[q].used && q != ms - 16 ensures SameFrom(m, m2, q + 8, q + c[q].size + 8) {
      SameTwice(m, m1, m2, q + 8, q + c[q].size + 8);
    }
  }

  lemma OkPreceded(h: Heap, at: Place, loose: set<int>)
    requires Ok(h, at, loose)
    ensures Preceded(h.chunks)
  {
    hide Separate, Preceded, Heads, Feet, SmallFilled, TreesFilled, Complete, Sized, Chained, Flagged, TopLast;
  }

  lemma LastHolds(h: Heap, at: Place, segs: seq<Segment>, live: set<int>, system: set<int>)
    requires Arranged(h, at, segs, live, system) && h.top in h.chunks && h.chunks[h.top].size > 0
    ensures |segs| > 0 && segs[|segs| - 1].base <= h.top
  {
    hide Owned, Recorded, Spread, Tiles, Fenced;
    TopInLast(h.chunks, h.top, segs);
  }

  // ---- going out of use ----

  /** The free chunk before a chunk is found through its foot. */
  lemma {:induction false} PreviousOf(h: Heap, at: Place, p: int)
    requires Ok(h, at, {}) && NoFreePair(h.chunks) && p in h.chunks && !h.chunks[p].pinuse
    ensures IsPrevious(h, at.ms, p, p - Get(h.mem, p))
  {
    hide *;
    OkParts(h, at, {});
    OkPreceded(h, at, {});
    TopFacts(h, at, {});
    StateIn(h, at.ms);
    var q := PreviousWitness(h.chunks, p);
    ChunkFacts(h, at, {}, q);
    FreePinuse(h.chunks, q);
    PreviousIs(h, at.ms, p, q);
  }

  /** The free chunk `q` ends where `p` starts. */
  predicate IsPrevious(h: Heap, ms: int, p: int, q: int) {
    && q in h.chunks && !h.chunks[q].used && h.chunks[q].size == p - q && q != p && q != h.top && q > 0
    && h.chunks[q].pinuse && q != ms - 16
  }

  lemma PreviousIs(h: Heap, ms: int, p: int, q: int)
    ensures IsPrevious(h, ms, p, q) <==>
        && q in h.chunks && !h.chunks[q].used && h.chunks[q].size == p - q && q != p && q != h.top && q > 0
        && h.chunks[q].pinuse && q != ms - 16
  {
  }

  lemma PreviousWitness(c: Chunks, p: int) returns (q: int)
    requires Preceded(c) && p in c && !c[p].pinuse
    ensures q in c && q + c[q].size == p && !c[q].used
  {
    assert HasPrevious(c, p);
    q :| q in c && q + c[q].size == p && !c[q].used;
  }

  /** A chunk in use that is followed by a chunk. */
  lemma {:induction false} NextFacts(h: Heap, at: Place, p: int)
    requires Ok(h, at, {}) && NoFreePair(h.chunks) && p in h.chunks && h.chunks[p].used
        && p + h.chunks[p].size in h.chunks
    ensures var n := p + h.chunks[p].size;
            && n > 0 && n != p && h.chunks[n].size > 0 && UsedIn(Get(h.mem, n + HEAD)) == h.chunks[n].used
              && PinuseIn(Get(h.mem, n + HEAD))
            && SizeIn(Get(h.mem, n + HEAD)) == h.chunks[n].size && h.chunks[n].pinuse
    ensures p > 0 && h.chunks[p].size > 0 && p != h.top && (h.dv != 0 ==> p != h.dv)
        && PinuseIn(Get(h.mem, p + HEAD)) == h.chunks[p].pinuse
    ensures h.top in h.chunks && !h.chunks[h.top].used && SizeIn(Get(h.mem, p + HEAD)) == h.chunks[p].size
  {
    hide *;
    ChunkFacts(h, at, {}, p);
    ChunkFacts(h, at, {}, p + h.chunks[p].size);
    OkFlaggedAt(h, at, {}, p);
    UsedNotLoose(h, at, {}, p);
    TopFacts(h, at, {});
  }

  lemma TotalIs(c: Chunks, q: int, p: int, merge: bool)
    requires p in c && c[p].used && c[p].size > 0 && p + c[p].size in c && c[p + c[p].size].used == !merge
        && c[p + c[p].size].size > 0
    requires q == p || (q in c && !c[q].used && c[q].size > 0 && q + c[q].size == p)
    ensures Releasable(c, q, p, merge) && NextOf(c, p) == p + c[p].size
    ensures Total(c, q, p, merge) == (if q == p then 0 else c[q].size) + c[p].size
        + if merge then c[p + c[p].size].size else 0
  {
  }

  /** A block is followed by a chunk: the chunk before a fence is not a block. */
  lemma {:induction false} BlockFacts(h: Heap, at: Place, segs: seq<Segment>, live: set<int>, system: set<int>, p: int)
    requires Ok(h, at, {}) && Arranged(h, at, segs, live, system) && p in live
    ensures p in h.chunks && h.chunks[p].used && p + h.chunks[p].size in h.chunks && p != at.ms - 16 && p !in system
  {
    LiveFacts(h, at, segs, live, system, p);
    UsedNotLoose(h, at, {}, p);
    hide Arranged, Separate, Preceded, Heads, Feet, SmallFilled, TreesFilled, Complete, Sized, Flagged, TopLast;
  }

  lemma DisposableFacts(h: Heap, at: Place, q: int, p: int, merge: bool)
    requires Disposable(h, at, q, p, merge) && p in h.chunks
    ensures h.top in h.chunks && !h.chunks[h.top].used && q != 0 && p != h.top && (q != p ==> q != h.top)
        && h.chunks[p].used
    ensures h.dv != 0 ==> h.dv in h.chunks && h.dv != h.top && !h.chunks[h.dv].used
    ensures q == h.top ==> p == q
  {
    hide Ok, NoFreePair, Positive;
    DvZero(h, at, Neighbours(h, q, p, merge));
  }

  lemma {:induction false} ForwardFacts(h: Heap, at: Place, loose: set<int>, q: int, p: int)
    requires Ok(h, at, loose) && NoFreePair(h.chunks) && p in h.chunks && h.chunks[p].used
        && p + h.chunks[p].size in h.chunks && q in h.chunks
    ensures var n := p + h.chunks[p].size;
            && n > 0 && n != p && h.chunks[n].size > 0 && UsedIn(Get(h.mem, n + HEAD)) == h.chunks[n].used
              && SizeIn(Get(h.mem, n + HEAD)) == h.chunks[n].size
    ensures p > 0 && h.chunks[p].size > 0 && p != h.top && (h.dv != 0 ==> p != h.dv) && q > 0 && h.chunks[q].size > 0
    ensures h.top in h.chunks && !h.chunks[h.top].used
  {
    hide *;
    ChunkFacts(h, at, loose, p);
    ChunkFacts(h, at, loose, q);
    ChunkFacts(h, at, loose, p + h.chunks[p].size);
    UsedNotLoose(h, at, loose, p);
    TopFacts(h, at, loose);
  }

  lemma {:induction false} IsDisposable(h: Heap, at: Place, loose: set<int>, q: int, p: int, merge: bool)
    requires Ok(h, at, loose) && NoFreePair(h.chunks) && p in h.chunks && h.chunks[p].used
        && p + h.chunks[p].size in h.chunks && q in h.chunks
    requires q == p || (!h.chunks[q].used && q + h.chunks[q].size == p && q != h.top)
    requires h.chunks[q].pinuse && p != at.ms - 16 && merge == !h.chunks[p + h.chunks[p].size].used
    requires var n := p + h.chunks[p].size;
        loose == (if q == p || q == h.dv then {} else {q}) + (if merge && n != h.top && n != h.dv then {n} else {})
    ensures Disposable(h, at, q, p, merge) && loose == Neighbours(h, q, p, merge) && Releasable(h.chunks, q, p, merge)
    ensures Total(h.chunks, q, p, merge) == (if q == p then 0 else h.chunks[q].size) + h.chunks[p].size
        + if merge then h.chunks[p + h.chunks[p].size].size else 0
    ensures NextOf(h.chunks, p) == p + h.chunks[p].size
  {
    hide *;
    OkFlagged(h, at, loose);
    ForwardFacts(h, at, loose, q, p);
    TotalIs(h.chunks, q, p, merge);
    DisposableIs(h, at, loose, q, p, merge);
    NeighboursIs(h, q, p, merge);
  }

  lemma NeighboursIs(h: Heap, q: int, p: int, merge: bool)
    requires p in h.chunks
    ensures var n := p + h.chunks[p].size;
            Neighbours(h, q, p, merge) == (if q == p || q == h.dv then {} else {q})
              + (if merge && n != h.top && n != h.dv then {n} else {})
  {
  }

  lemma WaitingNext(h: Heap, loose: set<int>, n: int, q: int)
    requires n in h.chunks && !h.chunks[n].used && n != h.top && n != h.dv && loose <= {q} && n != q
    ensures Waiting(h, loose, n)
  {
  }

  lemma NothingFreed(h: Heap, at: Place, segs: seq<Segment>, live: set<int>, system: set<int>)
    requires Ok(h, at, {}) && Arranged(h, at, segs, live, system)
    ensures live - {-16} == live && LiveKept(h.mem, h.mem, h.chunks, h.chunks, live)
  {
    hide Ok;
    ArrangedParts(h, at, segs, live, system);
    LiveSame(h.mem, h.chunks, h.fences, at.ms, live, system);
    if -16 in live {
      LiveFacts(h, at, segs, live, system, -16);
      ChunkFacts(h, at, {}, -16);
    }
  }

  // ---- resizing in place ----

  lemma {:induction false} SplitMeasures(c: Chunks, p: int, nb: nat)
    requires p in c && 0 < nb < c[p].size && p + nb !in c
    ensures var d := Split(c, p, nb);
            && p in d && d[p].size == nb && p + nb in d && d[p + nb].size == c[p].size - nb
              && d[p + nb].used == c[p].used
            && forall q :: q in c && q != p ==> q in d && d[q].size == c[q].size && d[q].used == c[q].used
  {
    hide Split;
    SplitShape(c, p, nb);
  }

  lemma {:induction false} JoinMeasures(c: Chunks, p: int)
    requires p in c && End(c, p) in c && Positive(c)
    ensures var d := Join(c, p);
            && p in d && d[p].size == BothSizes(c, p) && d[p].used == c[p].used
            && forall q :: q in c && q != p && q != End(c, p) ==>
                  q in d && d[q].size == c[q].size && d[q].used == c[q].used
  {
    hide Join;
    JoinShape(c, p);
  }

  /** A block and the free chunk after it. */
  /** The chunk `p` and the one after it. */
  predicate NextPlaced(c: Chunks, top: int, p: int) {
    && Positive(c) && p in c && NextOf(c, p) in c
    && (NextOf(c, p) != top ==> p + BothSizes(c, p) in c)
  }

  lemma NextPlacedIs(c: Chunks, top: int, p: int)
    requires NextPlaced(c, top, p)
    ensures p in c && NextOf(c, p) == End(c, p) == p + c[p].size && Positive(c) && NextOf(c, p) in c
    ensures BothSizes(c, p) == c[p].size + c[p + c[p].size].size
    ensures p + c[p].size != top ==> p + BothSizes(c, p) in c
  {
  }

  lemma {:induction false} GrowthFacts(h: Heap, at: Place, loose: set<int>, p: int)
    requires Ok(h, at, loose) && NoFreePair(h.chunks) && p in h.chunks && h.chunks[p].used
        && p + h.chunks[p].size in h.chunks
    requires var q := p + h.chunks[p].size; !h.chunks[q].used && (q in loose || q == h.top)
    ensures Growable(h, loose, p) && NextPlaced(h.chunks, h.top, p)
  {
    hide Ok;
    OkFlagged(h, at, loose);
    ChunkFacts(h, at, loose, p);
    ChunkFacts(h, at, loose, p + h.chunks[p].size);
    GrowFacts(h, at, loose, p);
  }

  lemma NotAtFence(c: Chunks, fences: set<int>, n: int)
    requires NoFenceIn(c, fences) && n in c
    ensures n !in fences
  {
  }

  lemma TopTagsIs(m: Mem, p: int, nb: nat, rest: nat)
    ensures FreedTop(InuseSet(m, p, nb), p + nb, rest) == TopTags(m, p, nb, rest)
  {
  }

  /** A block that has grown into the designated victim, which has become smaller. */
  ghost predicate DvIsShared(h: Heap, at: Place, p: int, nb: nat, rest: nat) {
    && p in h.chunks && NextOf(h.chunks, p) in h.chunks && nb <= BothSizes(h.chunks, p)
    && var m1, d, r := GrownTags(h.mem, p, nb, rest), Grown(h.chunks, p, nb), p + nb;
       && Ok(Heap(m1, d, h.top, h.fences, r, h.smallmap, h.treemap, h.lists, h.trees), at, {}) && NoFreePair(d)
       && PayloadsKept(h.mem, m1, h.chunks, {p, NextOf(h.chunks, p)})
       && SameFrom(h.mem, m1, p + 16, p + h.chunks[p].size + 8) && r != h.top && r > 0
       && (r == NextOf(h.chunks, p) || r !in h.chunks)
  }

  lemma DvIsSharedIs(h: Heap, at: Place, p: int, nb: nat, rest: nat)
    requires p in h.chunks && NextOf(h.chunks, p) in h.chunks && nb <= BothSizes(h.chunks, p)
    ensures var m1, d, r := GrownTags(h.mem, p, nb, rest), Grown(h.chunks, p, nb), p + nb;
            DvIsShared(h, at, p, nb, rest) <==>
            && Ok(Heap(m1, d, h.top, h.fences, r, h.smallmap, h.treemap, h.lists, h.trees), at, {}) && NoFreePair(d)
            && PayloadsKept(h.mem, m1, h.chunks, {p, NextOf(h.chunks, p)})
            && SameFrom(h.mem, m1, p + 16, p + h.chunks[p].size + 8) && r != h.top && r > 0
            && (r == NextOf(h.chunks, p) || r !in h.chunks)
  {
    hide Ok, NoFreePair, PayloadsKept, SameFrom, Grown, GrownTags;
  }

  lemma NextIs(c: Chunks, p: int)
    requires p in c
    ensures NextOf(c, p) == p + c[p].size
    ensures NextOf(c, p) in c ==> BothSizes(c, p) == c[p].size + c[p + c[p].size].size
  {
  }

  lemma {:induction false} DvShared(h: Heap, at: Place, p: int, nb: nat, rest: nat)
    requires p in h.chunks && h.chunks[p].used && p + h.chunks[p].size == h.dv && h.dv in h.chunks && h.dv != 0
        && p != at.ms - 16
    requires nb % 16 == 0 && h.chunks[p].size < nb && 32 <= rest
        && nb + rest == h.chunks[p].size + h.chunks[h.dv].size
    requires Ok(h, at, {}) && NoFreePair(h.chunks)
    ensures DvIsShared(h, at, p, nb, rest)
  {
    hide *;
    DvZero(h, at, {});
    DvOut(h, at, {});
    var h0, q, r := h.(dv := 0), h.dv, p + nb;
    ChunkFacts(h, at, {}, q);
    assert {} + {q} == {q} && {q} - {q} + {r} == {r} && {r} - {r} == {};
    GrowthFacts(h0, at, {q}, p);
    NextPlacedIs(h.chunks, h.top, p);
    InsideNext(h0, at, {q}, p, nb);
    GrowFree(h0, at, {q}, p, nb);
    DvIn(h0.(mem := GrownTags(h.mem, p, nb, rest), chunks := Grown(h.chunks, p, nb)), at, {r}, r);
    DvIsSharedIs(h, at, p, nb, rest);
  }

  lemma GrownTagsIs(m: Mem, p: int, nb: nat, rest: nat)
    ensures var m1 := FreedMerged(InuseSet(m, p, nb), p + nb, rest);
            m1[p + nb + rest + HEAD := WithPinuse(Get(m1, p + nb + rest + HEAD), false)] == GrownTags(m, p, nb, rest)
  {
  }

  lemma {:induction false} GrowCutMeasures(c: Chunks, p: int, nb: nat)
    requires p in c && c[p].used && c[p].size > 0 && End(c, p) in c && Positive(c) && c[p].size <= nb < BothSizes(c, p)
        && p + BothSizes(c, p) in c
    requires p + nb == NextOf(c, p) || p + nb !in c
    requires p in Join(c, p) && Join(c, p)[p].size == BothSizes(c, p)
    ensures var d, r := Split(Join(c, p), p, nb), p + nb;
            && p in d && d[p].size == nb && r in d && d[r].used && d[r].size == BothSizes(c, p) - nb
              && p + BothSizes(c, p) in d
            && forall x :: x in c && x != p && x != End(c, p) ==> x in d && d[x].size == c[x].size
    ensures SameCover(c, Split(Join(c, p), p, nb))
  {
    hide *;
    EndIs(c, p);
    JoinMeasures(c, p);
    JoinGap(c, p, nb);
    GrowCutCover(c, p, nb);
    SplitMeasures(Join(c, p), p, nb);
    BothIs(c, p);
  }

  lemma BothIs(c: Chunks, p: int)
    requires p in c && NextOf(c, p) in c
    ensures BothSizes(c, p) == c[p].size + c[NextOf(c, p)].size && NextOf(c, p) == p + c[p].size
  {
  }

  // ---- the contents of blocks ----

  lemma WritePasses(m: Mem, m1: Mem, c: Chunks, fences: set<int>, ms: int, p: int)
    requires KeepsUse(m, m1, c, c, ms, {p}) && p in c && c[p].used && p + c[p].size !in fences
    ensures Passes(m, m1, c, c, fences, ms, {p}, {p}) && SameCover(c, c)
  {
    hide KeepsUse, HeapTiling.Covered;
  }

  /** The payloads of two chunks do not overlap. */
  lemma {:induction false} PayloadsApart(h: Heap, at: Place, loose: set<int>, p: int, q: int)
    requires Ok(h, at, loose) && p in h.chunks && q in h.chunks && p != q
    ensures p + h.chunks[p].size + 8 <= q + 16 || q + h.chunks[q].size + 8 <= p + 16
  {
    hide Ok;
    OkParts(h, at, loose);
  }

  lemma LiveAt(m: Mem, m1: Mem, c: Chunks, c1: Chunks, live: set<int>, q: int)
    requires LiveKept(m, m1, c, c1, live) && q in live
    ensures q in c && q in c1 && c1[q].used && c1[q].size == c[q].size
        && SameCells(m, q + 16, m1, q + 16, c[q].size - 8)
  {
    SameIsCells(m, m1, q + 16, q + c[q].size + 8);
  }

  lemma LiveFewer(m: Mem, m1: Mem, c: Chunks, c1: Chunks, live: set<int>, less: set<int>)
    requires LiveKept(m, m1, c, c1, live) && less <= live
    ensures LiveKept(m, m1, c, c1, less)
  {
    hide SameFrom;
  }

  lemma CellsFewer(m: Mem, x: int, m1: Mem, y: int, n: int, k: int)
    requires SameCells(m, x, m1, y, n) && k <= n
    ensures SameCells(m, x, m1, y, k)
  {
  }

  /** What a resize in place keeps. */
  lemma ResizedParts(m: Mem, m1: Mem, c: Chunks, c1: Chunks, fences: set<int>, ms: int, p: int, nb: nat, n: int)
    requires Resized(m, m1, c, c1, fences, ms, p, nb) && p in c && n <= (if c[p].size < nb then c[p].size else nb) - 8
    ensures Passes(m, m1, c, c1, fences, ms, {p}, {p}) && SameCover(c, c1) && p in c1 && nb <= c1[p].size < nb + 32
        && SameCells(m, p + 16, m1, p + 16, n)
  {
    hide Passes, SameCover;
    SameIsCells(m, m1, p + 16, p + (if c[p].size < nb then c[p].size else nb) + 8);
  }

  function Smaller(a: int, b: int): int { if a < b then a else b }

  lemma SmallerIs(a: int, b: int)
    ensures Smaller(a, b) == if a < b then a else b
  {
  }

  lemma NotOfSystem(system: set<int>, p: int)
    requires p !in system
    ensures {p} !! system
  {
  }

  lemma WroteCell(m: Mem, mem: int, k: nat, v: int)
    ensures var m1 := m[mem + k := v];
            && Cell(m1, mem, k) == v && (forall j :: j != k ==> Cell(m1, mem, j) == Cell(m, mem, j)) && forall a ::
              Get(m1, a) != Get(m, a) ==> a == mem + k
  {
  }

  /** Through a new block, a copy and the release of the old block. */
  lemma {:induction false} MoveKeeps(m0: Mem, m1: Mem, m2: Mem, m3: Mem, c0: Chunks, c2: Chunks, c3: Chunks,
      live: set<int>, p: int, q: int, bytes: nat)
    requires LiveKept(m0, m1, c0, c2, live) && LiveKept(m1, m2, c2, c2, live + {q} - {q})
        && LiveKept(m2, m3, c2, c3, live + {q} - {p})
    requires p in live && q !in live && p in c0 && p in c2 && c2[p].size == c0[p].size && q in c2
        && bytes + 8 <= c2[q].size
    requires SameCells(m1, p + 16, m2, q + 16, Smaller(c2[p].size - 8, bytes))
    ensures LiveKept(m0, m3, c0, c3, live - {p}) && q in c3 && c3[q].size == c2[q].size
    ensures SameCells(m0, p + 16, m3, q + 16, Smaller(c0[p].size - 8, bytes))
  {
    hide SameCells, LiveKept;
    assert live + {q} - {q} == live;
    LiveThen(m0, m1, m2, c0, c2, c2, live, live);
    LiveFewer(m0, m2, c0, c2, live, live - {p});
    LiveThen(m0, m2, m3, c0, c2, c3, live - {p}, live + {q} - {p});
    LiveAt(m0, m1, c0, c2, live, p);
    LiveAt(m2, m3, c2, c3, live + {q} - {p}, q);
    var n := Smaller(c0[p].size - 8, bytes);
    CellsFewer(m0, p + 16, m1, p + 16, c0[p].size - 8, n);
    CellsThen(m0, p + 16, m1, p + 16, m2, q + 16, n, n);
    CellsFewer(m2, q + 16, m3, q + 16, c2[q].size - 8, n);
    CellsThen(m0, p + 16, m2, q + 16, m3, q + 16, n, n);
  }

  // ---- where free chunks are ----

  /** A free chunk is the top chunk, the designated victim, or in the one bin for its size; a bit of a bitmap is set
      if and only if its bin holds a chunk. */
  lemma {:induction false} OnePlace(h: Heap, at: Place, p: int, i: nat)
    requires Ok(h, at, {}) && p in h.chunks && !h.chunks[p].used && i < SMALL_BINS
    ensures |h.lists| == SMALL_BINS && |h.trees| == TREE_BINS && SMALL_BINS == TREE_BINS
        && (h.dv != 0 ==> h.dv != h.top)
    ensures p in h.lists[i] <==> p != h.top && p != h.dv && h.chunks[p].size == 8 * i
    ensures forall z ::
        Holds(h.trees[i], p, z) <==>
        p != h.top && p != h.dv && z == h.chunks[p].size && !IsSmall(z) && TreeIndex(z) == i
    ensures (Marked(h.smallmap, i) <==> h.lists[i] != []) && (Marked(h.treemap, i) <==> h.trees[i].Node?)
    ensures IsSmall(h.chunks[p].size) ==>
        h.chunks[p].size / 8 < SMALL_BINS && h.chunks[p].size == 8 * (h.chunks[p].size / 8)
    ensures !IsSmall(h.chunks[p].size) ==> TreeIndex(h.chunks[p].size) < TREE_BINS
  {
    hide *;
    BinCounts();
    Limits();
    OkParts(h, at, {});
    DvZero(h, at, {});
    ChunkFacts(h, at, {}, p);
    EightTimes(h.chunks[p].size);
    ListIff(h, at.ms, {}, i, p);
    TreeIsTrie(h, at, {}, i);
    BinApart(h, at, {}, i);
    LargeNodes(h, at, {}, i);
    BinParts(h.mem, TreeSlot(at.ms, i), Marked(h.treemap, i), h.trees[i], i);
    ListMarked(h.mem, Header(at.ms, i), Marked(h.smallmap, i), h.lists[i]);
    WaitingIff(h, p);
    SizeBin(h.chunks[p].size);
  }

  lemma ListMarked(m: Mem, b: int, marked: bool, list: seq<int>)
    requires SmallBinOk(m, b, marked, list)
    ensures marked <==> list != []
  {
  }

  lemma WaitingIff(h: Heap, p: int)
    requires p in h.chunks && !h.chunks[p].used
    ensures Waiting(h, {}, p) <==> p != h.top && p != h.dv
  {
  }

  lemma SizeBin(z: nat)
    requires z < SIZE_LIMIT
    ensures IsSmall(z) ==> z / 8 < SMALL_BINS
    ensures !IsSmall(z) ==> TreeIndex(z) < TREE_BINS
  {
    hide TreeIndex;
    if !IsSmall(z) {
      NotSmall(z);
      IndexInTrie(z);
    }
  }
}
