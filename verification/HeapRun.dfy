/** Runs of a space of `dlmalloc.c`: any list of calls of `mspace_malloc`, `mspace_free` and `mspace_realloc`, and of
    writes of the callers into their blocks, behaves like a collection of independent blocks. */
module HeapRun {
  import opened BinIndex
  import opened HeapWords
  import opened HeapTiling
  import opened HeapState
  import opened HeapUse
  import opened HeapSegments
  import opened HeapFacts
  import opened Mspace

  // ---- the blocks as the callers think of them ----

  /** What the callers know of a block: its size and the cells they have written. */
  datatype Known = Gone | Held(bytes: nat, cells: map<nat, int>)

  /** Blocks are numbered in the order of their allocation. */
  datatype Call = Allocate(bytes: nat) | Release(b: nat) | Resize(b: nat, bytes: nat) | Put(b: nat, k: nat, v: int)

  /** Only blocks that are held are used, and only within their size. */
  predicate Legal(known: seq<Known>, call: Call) {
    match call
    case Allocate(bytes) => bytes < WORD
    case Release(b) => b < |known| && known[b].Held?
    case Resize(b, bytes) => b < |known| && known[b].Held? && bytes < WORD
    case Put(b, k, _) => b < |known| && known[b].Held? && k < known[b].bytes
  }

  function Below(cells: map<nat, int>, n: nat): map<nat, int> { map k | k in cells && k < n :: cells[k] }

  /** The blocks after a call; `ok` says that memory was found for it. */
  function Effect(known: seq<Known>, call: Call, ok: bool): seq<Known>
    requires Legal(known, call)
  {
    match call
    case Allocate(bytes) => known + [if ok then Held(bytes, map[]) else Gone]
    case Release(b) => known[b := Gone]
    case Resize(b, bytes) => if ok then known[b := Held(bytes, Below(known[b].cells, bytes))] else known
    case Put(b, k, v) => known[b := Held(known[b].bytes, known[b].cells[k := v])]
  }

  /** The blocks after a list of calls; the callers do not make calls that are not legal. */
  function Replay(calls: seq<Call>, oks: seq<bool>): seq<Known>
    requires |calls| == |oks|
  {
    if calls == [] then [] else
      var n := |calls| - 1;
      var known := Replay(calls[..n], oks[..n]);
      if Legal(known, calls[n]) then Effect(known, calls[n], oks[n]) else known
  }

  // ---- the blocks in memory ----

  ghost predicate BlockOk(m: Mem, c: Chunks, live: set<int>, mem: int, k: Known)
    requires k.Held?
  {
    && mem > 16 && mem % 16 == 0 && mem - 16 in live && mem - 16 in c && k.bytes + 8 <= c[mem - 16].size
    && c[mem - 16].size < RequestSize(k.bytes) + 32
    && forall j :: j in k.cells ==> j < k.bytes && Cell(m, mem, j) == k.cells[j]
  }

  /** The blocks that are held are the live chunks, each in its own place, and they have the contents that are known. */
  ghost predicate Agrees(m: Mem, c: Chunks, live: set<int>, mems: seq<int>, known: seq<Known>) {
    && |mems| == |known|
    && (forall i :: 0 <= i < |known| && known[i].Held? ==> BlockOk(m, c, live, mems[i], known[i]))
    && (forall i, j :: 0 <= i < j < |known| && known[i].Held? && known[j].Held? ==> mems[i] != mems[j])
    && (forall p :: p in live ==> IsHeld(mems, known, p))
  }

  ghost predicate IsHeld(mems: seq<int>, known: seq<Known>, p: int)
    requires |mems| == |known|
  {
    exists i :: 0 <= i < |known| && known[i].Held? && mems[i] - 16 == p
  }

  /** A block that a call keeps. */
  lemma {:induction false} BlockKept(m: Mem, m1: Mem, c: Chunks, c1: Chunks, kept: set<int>, live: set<int>,
      live1: set<int>, mem: int, k: Known)
    requires k.Held? && BlockOk(m, c, live, mem, k) && LiveKept(m, m1, c, c1, kept) && mem - 16 in kept
        && mem - 16 in live1
    ensures BlockOk(m1, c1, live1, mem, k)
  {
    LiveAt(m, m1, c, c1, kept, mem - 16);
  }

  lemma {:induction false} AgreesAllocate(m: Mem, m1: Mem, c: Chunks, c1: Chunks, live: set<int>, mems: seq<int>,
      known: seq<Known>, mem: int, bytes: nat)
    requires Agrees(m, c, live, mems, known) && LiveKept(m, m1, c, c1, live)
    requires mem > 16 && mem % 16 == 0 && mem - 16 !in live && mem - 16 in c1
        && bytes + 8 <= c1[mem - 16].size < RequestSize(bytes) + 32
    ensures Agrees(m1, c1, live + {mem - 16}, mems + [mem], known + [Held(bytes, map[])])
  {
    hide LiveKept, BlockOk;
    var mems1, known1, live1 := mems + [mem], known + [Held(bytes, map[])], live + {mem - 16};
    forall i | 0 <= i < |known1| && known1[i].Held? ensures BlockOk(m1, c1, live1, mems1[i], known1[i]) {
      if i < |known| {
        BlockLive(m, c, live, mems[i], known[i]);
        BlockKept(m, m1, c, c1, live, live, live1, mems[i], known[i]);
      } else {
        BlockNew(m1, c1, live1, mem, bytes);
      }
    }
    forall i, j | 0 <= i < j < |known1| && known1[i].Held? && known1[j].Held? ensures mems1[i] != mems1[j] {
      BlockLive(m, c, live, mems[i], known[i]);
    }
    forall p | p in live1 ensures IsHeld(mems1, known1, p) {
      if p in live {
        assert IsHeld(mems, known, p);
        var i :| 0 <= i < |known| && known[i].Held? && mems[i] - 16 == p;
        assert known1[i].Held? && mems1[i] - 16 == p;
      } else {
        assert known1[|known|].Held? && mems1[|known|] - 16 == p;
      }
    }
  }

  lemma BlockNew(m: Mem, c: Chunks, live: set<int>, mem: int, bytes: nat)
    requires mem > 16 && mem % 16 == 0 && mem - 16 in live && mem - 16 in c
        && bytes + 8 <= c[mem - 16].size < RequestSize(bytes) + 32
    ensures BlockOk(m, c, live, mem, Held(bytes, map[]))
  {
  }

  lemma BlockLive(m: Mem, c: Chunks, live: set<int>, mem: int, k: Known)
    requires k.Held? && BlockOk(m, c, live, mem, k)
    ensures mem - 16 in live && mem - 16 in c && mem > 16 && k.bytes + 8 <= c[mem - 16].size
  {
  }

  lemma {:induction false} AgreesFailed(m: Mem, c: Chunks, live: set<int>, mems: seq<int>, known: seq<Known>)
    requires Agrees(m, c, live, mems, known)
    ensures Agrees(m, c, live, mems + [0], known + [Gone])
  {
    hide BlockOk;
    var mems1, known1 := mems + [0], known + [Gone];
    forall p | p in live ensures IsHeld(mems1, known1, p) {
      assert IsHeld(mems, known, p);
      var i :| 0 <= i < |known| && known[i].Held? && mems[i] - 16 == p;
      assert known1[i].Held? && mems1[i] - 16 == p;
    }
  }

  lemma {:induction false} AgreesRelease(m: Mem, m1: Mem, c: Chunks, c1: Chunks, live: set<int>, mems: seq<int>,
      known: seq<Known>, b: nat)
    requires Agrees(m, c, live, mems, known) && b < |known| && known[b].Held?
        && LiveKept(m, m1, c, c1, live - {mems[b] - 16})
    ensures Agrees(m1, c1, live - {mems[b] - 16}, mems, known[b := Gone])
  {
    hide LiveKept, BlockOk;
    var known1, live1 := known[b := Gone], live - {mems[b] - 16};
    forall i | 0 <= i < |known1| && known1[i].Held? ensures BlockOk(m1, c1, live1, mems[i], known1[i]) {
      BlockLive(m, c, live, mems[i], known[i]);
      assert mems[i] != mems[b];
      BlockKept(m, m1, c, c1, live1, live, live1, mems[i], known[i]);
    }
    forall p | p in live1 ensures IsHeld(mems, known1, p) {
      assert IsHeld(mems, known, p);
      var i :| 0 <= i < |known| && known[i].Held? && mems[i] - 16 == p;
      assert known1[i].Held? && mems[i] - 16 == p;
    }
  }

  /** The block `b` is now at `r`, with the contents `k`. */
  lemma {:induction false} AgreesReplace(m: Mem, m1: Mem, c: Chunks, c1: Chunks, live: set<int>, mems: seq<int>,
      known: seq<Known>, b: nat, r: int, k: Known)
    requires Agrees(m, c, live, mems, known) && b < |known| && known[b].Held? && k.Held?
        && LiveKept(m, m1, c, c1, live - {mems[b] - 16})
    requires var live1 := live - {mems[b] - 16} + {r - 16};
        BlockOk(m1, c1, live1, r, k) && r - 16 !in live - {mems[b] - 16}
    ensures Agrees(m1, c1, live - {mems[b] - 16} + {r - 16}, mems[b := r], known[b := k])
  {
    hide LiveKept, BlockOk, IsHeld;
    var mems1, known1, less := mems[b := r], known[b := k], live - {mems[b] - 16};
    var live1 := less + {r - 16};
    forall i | 0 <= i < |known1| && known1[i].Held? ensures BlockOk(m1, c1, live1, mems1[i], known1[i])
        && (i != b ==> mems1[i] != r) {
      if i != b {
        OthersHeld(m, c, live, mems, known, b, i);
        BlockKept(m, m1, c, c1, less, live, live1, mems[i], known[i]);
      }
    }
    forall i, j | 0 <= i < j < |known1| && known1[i].Held? && known1[j].Held? ensures mems1[i] != mems1[j] {
      if i != b && j != b {
        assert mems[i] != mems[j];
      }
    }
    ReplaceHeld(live, live1, mems, known, b, r, k);
  }

  lemma OthersHeld(m: Mem, c: Chunks, live: set<int>, mems: seq<int>, known: seq<Known>, b: nat, i: nat)
    requires Agrees(m, c, live, mems, known) && b < |known| && i < |known| && i != b && known[b].Held? && known[i].Held?
    ensures |mems| == |known| && BlockOk(m, c, live, mems[i], known[i]) && mems[i] - 16 in live - {mems[b] - 16}
  {
    hide BlockOk, IsHeld;
    AgreesOther(m, c, live, mems, known, i, b);
    BlockLive(m, c, live, mems[i], known[i]);
  }

  lemma {:induction false} ReplaceHeld(live: set<int>, live1: set<int>, mems: seq<int>, known: seq<Known>, b: nat,
      r: int, k: Known)
    requires |mems| == |known| && b < |known| && k.Held? && forall p :: p in live ==> IsHeld(mems, known, p)
    requires live1 == live - {mems[b] - 16} + {r - 16}
    ensures forall p :: p in live1 ==> IsHeld(mems[b := r], known[b := k], p)
  {
    var mems1, known1 := mems[b := r], known[b := k];
    forall p | p in live1 ensures IsHeld(mems1, known1, p) {
      if p == r - 16 {
        assert known1[b].Held? && mems1[b] - 16 == p;
      } else {
        assert IsHeld(mems, known, p);
        var i :| 0 <= i < |known| && known[i].Held? && mems[i] - 16 == p;
        assert known1[i].Held? && mems1[i] - 16 == p;
      }
    }
  }

  lemma {:induction false} BlockResized(m: Mem, m1: Mem, c: Chunks, c1: Chunks, live: set<int>, live1: set<int>,
      mem: int, r: int, k: Known, bytes: nat)
    requires k.Held? && BlockOk(m, c, live, mem, k) && mem - 16 in c
    requires r > 16 && r % 16 == 0 && r - 16 in live1 && r - 16 in c1
        && bytes + 8 <= c1[r - 16].size < RequestSize(bytes) + 32
    requires SameCells(m, mem, m1, r, Smaller(c[mem - 16].size - 8, bytes))
    ensures BlockOk(m1, c1, live1, r, Held(bytes, Below(k.cells, bytes)))
  {
    forall j | j in Below(k.cells, bytes) ensures j < bytes && Cell(m1, r, j) == k.cells[j] {
      assert Cell(m1, r, j) == Cell(m, mem, j);
    }
  }

  lemma {:induction false} BlockPut(m: Mem, m1: Mem, c: Chunks, live: set<int>, mem: int, k: Known, x: nat, v: int)
    requires k.Held? && BlockOk(m, c, live, mem, k) && x < k.bytes && Cell(m1, mem, x) == v
    requires forall j :: j != x ==> Cell(m1, mem, j) == Cell(m, mem, j)
    ensures BlockOk(m1, c, live, mem, Held(k.bytes, k.cells[x := v]))
  {
  }

  // ---- the calls ----

  /** No memory is found for a call in the state h, where the blocks are at `mems`. */
  ghost predicate Fails(h: Heap, mems: seq<int>, call: Call, granularity: nat, region: Region)
    requires granularity > 0
  {
    match call
    case Allocate(bytes) => Exhausted(h, bytes, granularity, region)
    case Resize(b, bytes) =>
      b < |mems| && mems[b] - 16 in h.chunks && Stuck(h, mems[b] - 16, bytes, granularity, region)
    case _ => false
  }

  /** One legal call. */
  method Step(s: Space, mems: seq<int>, known: seq<Known>, call: Call, granularity: nat, region: Region)
      returns (mems1: seq<int>, ok: bool)
    requires s.Valid() && Legal(known, call) && granularity > 0 && Offered(region, s.segments, s.zone)
    requires Agrees(s.words.mem, s.chunks, s.live, mems, known)
    modifies s, s.words
    ensures s.Valid() && Agrees(s.words.mem, s.chunks, s.live, mems1, Effect(known, call, ok))
    ensures ok <==> !Fails(old(s.State()), mems, call, granularity, region)
    ensures s.segments == old(s.segments) || (region.Granted? && Spans(old(s.segments), s.segments, region.base,
        region.size))
  {
    hide *;
    ghost var h := s.State();
    s.StateIs();
    CallIs(known, call);
    AgreesSize(s.words.mem, s.chunks, s.live, mems, known);
    FailsIs(h, mems, call, granularity, region);
    match call
    case Allocate(bytes) => mems1, ok := StepAllocate(s, mems, known, bytes, granularity, region);
    case Release(b) =>
      mems1, ok := mems, true;
      StepRelease(s, mems, known, b);
    case Resize(b, bytes) => mems1, ok := StepResize(s, mems, known, b, bytes, granularity, region);
    case Put(b, k, v) =>
      mems1, ok := mems, true;
      StepPut(s, mems, known, b, k, v);
  }

  lemma CallIs(known: seq<Known>, call: Call)
    requires Legal(known, call)
    ensures call.Allocate? ==>
        && call.bytes < WORD && Effect(known, call, true) == known + [Held(call.bytes, map[])]
        && Effect(known, call, false) == known + [Gone]
    ensures call.Release? ==>
        call.b < |known| && known[call.b].Held? && Effect(known, call, true) == known[call.b := Gone]
    ensures call.Resize? ==>
        && call.b < |known| && known[call.b].Held? && call.bytes < WORD && Effect(known, call, false) == known
        && Effect(known, call, true) == known[call.b := Held(call.bytes, Below(known[call.b].cells, call.bytes))]
    ensures call.Put? ==>
        && call.b < |known| && known[call.b].Held? && call.k < known[call.b].bytes
        && Effect(known, call, true)
          == known[call.b := Held(known[call.b].bytes, known[call.b].cells[call.k := call.v])]
  {
  }

  lemma FailsIs(h: Heap, mems: seq<int>, call: Call, granularity: nat, region: Region)
    requires granularity > 0
    ensures call.Allocate? ==>
        (Fails(h, mems, call, granularity, region) <==> Exhausted(h, call.bytes, granularity, region))
    ensures call.Resize? && call.b < |mems| && mems[call.b] - 16 in h.chunks ==>
        (Fails(h, mems, call, granularity, region) <==>
        Stuck(h, mems[call.b] - 16, call.bytes, granularity, region))
    ensures call.Release? || call.Put? ==> !Fails(h, mems, call, granularity, region)
  {
    hide Exhausted, Stuck;
  }

  lemma AgreesSize(m: Mem, c: Chunks, live: set<int>, mems: seq<int>, known: seq<Known>)
    requires Agrees(m, c, live, mems, known)
    ensures |mems| == |known|
  {
  }

  method StepAllocate(s: Space, mems: seq<int>, ghost known: seq<Known>, bytes: nat, granularity: nat, region: Region)
      returns (mems1: seq<int>, ok: bool)
    requires s.Valid() && bytes < WORD && granularity > 0 && Offered(region, s.segments, s.zone)
    requires Agrees(s.words.mem, s.chunks, s.live, mems, known)
    modifies s, s.words
    ensures s.Valid() && Agrees(s.words.mem, s.chunks, s.live, mems1, known + [if ok then Held(bytes, map[]) else Gone])
    ensures ok <==> !Exhausted(old(s.State()), bytes, granularity, region)
    ensures s.segments == old(s.segments) || (region.Granted? && Spans(old(s.segments), s.segments, region.base,
        region.size))
  {
    hide *;
    ghost var m, c := s.words.mem, s.chunks;
    s.StateIs();
    var mem := s.Malloc(bytes, granularity, region);
    s.StateIs();
    mems1, ok := mems + [mem], mem != 0;
    if ok {
      AgreesAllocate(m, s.words.mem, c, s.chunks, old(s.live), mems, known, mem, bytes);
    } else {
      AgreesFailed(m, c, s.live, mems, known);
    }
  }

  method StepRelease(s: Space, mems: seq<int>, ghost known: seq<Known>, b: nat)
    requires s.Valid() && Agrees(s.words.mem, s.chunks, s.live, mems, known) && b < |known| && known[b].Held?
        && |mems| == |known|
    modifies s, s.words
    ensures s.Valid() && Agrees(s.words.mem, s.chunks, s.live, mems, known[b := Gone]) && s.segments == old(s.segments)
  {
    hide *;
    ghost var m, c := s.words.mem, s.chunks;
    AgreesAt(m, c, s.live, mems, known, b);
    s.Free(mems[b]);
    AgreesRelease(m, s.words.mem, c, s.chunks, old(s.live), mems, known, b);
  }

  lemma AgreesAt(m: Mem, c: Chunks, live: set<int>, mems: seq<int>, known: seq<Known>, b: nat)
    requires Agrees(m, c, live, mems, known) && b < |known| && known[b].Held?
    ensures |mems| == |known| && BlockOk(m, c, live, mems[b], known[b])
    ensures mems[b] - 16 in live && mems[b] > 16 && mems[b] - 16 in c && known[b].bytes + 8 <= c[mems[b] - 16].size
  {
  }

  method StepResize(s: Space, mems: seq<int>, ghost known: seq<Known>, b: nat, bytes: nat, granularity: nat,
      region: Region) returns (mems1: seq<int>, ok: bool)
    requires s.Valid() && bytes < WORD && granularity > 0 && Offered(region, s.segments, s.zone)
    requires Agrees(s.words.mem, s.chunks, s.live, mems, known) && b < |known| && known[b].Held? && |mems| == |known|
    modifies s, s.words
    ensures s.Valid() && Agrees(s.words.mem, s.chunks, s.live, mems1,
        if ok then known[b := Held(bytes, Below(known[b].cells, bytes))] else known)
    ensures mems[b] - 16 in old(s.chunks)
    ensures ok <==> !Stuck(old(s.State()), mems[b] - 16, bytes, granularity, region)
    ensures s.segments == old(s.segments) || (region.Granted? && Spans(old(s.segments), s.segments, region.base,
        region.size))
  {
    hide *;
    ghost var m, c, live := s.words.mem, s.chunks, s.live;
    AgreesAt(m, c, live, mems, known, b);
    s.StateIs();
    var r := s.Realloc(mems[b], bytes, granularity, region);
    s.StateIs();
    ok := r != 0;
    mems1 := if ok then mems[b := r] else mems;
    if ok {
      BlockResized(m, s.words.mem, c, s.chunks, live, s.live, mems[b], r, known[b], bytes);
      AgreesReplace(m, s.words.mem, c, s.chunks, live, mems, known, b, r, Held(bytes, Below(known[b].cells, bytes)));
    }
  }

  method StepPut(s: Space, mems: seq<int>, ghost known: seq<Known>, b: nat, k: nat, v: int)
    requires s.Valid() && Agrees(s.words.mem, s.chunks, s.live, mems, known) && b < |known| && known[b].Held?
        && k < known[b].bytes && |mems| == |known|
    modifies s, s.words
    ensures s.Valid() && Agrees(s.words.mem, s.chunks, s.live, mems,
        known[b := Held(known[b].bytes, known[b].cells[k := v])]) && s.segments == old(s.segments)
  {
    hide *;
    ghost var m, c, p := s.words.mem, s.chunks, mems[b] - 16;
    AgreesAt(m, c, s.live, mems, known, b);
    s.Write(mems[b], k, v);
    BlockPut(m, s.words.mem, c, s.live, mems[b], known[b], k, v);
    assert s.live - {p} + {p} == s.live;
    assert mems[b := mems[b]] == mems;
    AgreesReplace(m, s.words.mem, c, c, s.live, mems, known, b, mems[b], Held(known[b].bytes, known[b].cells[k := v]));
  }

  // ---- runs ----

  predicate Distinct(r: Region, t: Region) {
    r.Granted? && t.Granted? ==> r.base + r.size <= t.base || t.base + t.size <= r.base
  }

  /** The provider gives regions that overlap neither each other nor the region from `base` on. */
  ghost predicate Supply(regions: seq<Region>, base: int, capacity: nat, zone: Zones) {
    && (forall i :: 0 <= i < |regions| && regions[i].Granted? ==>
          && regions[i].size > 0 && regions[i].base > 0 && regions[i].base % 16 == 0 && regions[i].size % 16 == 0
          && InZone(zone, regions[i].base, regions[i].size)
          && (regions[i].base + regions[i].size <= base || base + capacity <= regions[i].base))
    && (forall i, j :: 0 <= i < j < |regions| ==> Distinct(regions[i], regions[j]))
  }

  /** The regions from number `n` on are still to come. */
  predicate Coming(regions: seq<Region>, n: nat, segs: seq<Segment>) {
    forall i :: n <= i < |regions| && regions[i].Granted? ==> AllBeyond(segs, regions[i].base, regions[i].size)
  }

  lemma {:induction false} ComingNext(regions: seq<Region>, n: nat, base: int, capacity: nat, zone: Zones,
      segs: seq<Segment>, segs1: seq<Segment>)
    requires Supply(regions, base, capacity, zone) && n < |regions| && Coming(regions, n, segs)
    requires segs1 == segs || (regions[n].Granted? && Spans(segs, segs1, regions[n].base, regions[n].size))
    ensures Coming(regions, n + 1, segs1) && Coming(regions, n + 1, segs)
  {
    hide AllBeyond;
    forall i | n + 1 <= i < |regions| && regions[i].Granted? ensures AllBeyond(segs1, regions[i].base,
        regions[i].size) {
      assert Distinct(regions[n], regions[i]);
      assert AllBeyond(segs, regions[i].base, regions[i].size);
    }
  }

  lemma ComingOffered(regions: seq<Region>, n: nat, base: int, capacity: nat, zone: Zones, segs: seq<Segment>)
    requires Supply(regions, base, capacity, zone) && n < |regions| && Coming(regions, n, segs)
    ensures Offered(regions[n], segs, zone)
  {
    hide AllBeyond;
  }

  lemma ComingFirst(regions: seq<Region>, base: int, capacity: nat, zone: Zones, s: Segment)
    requires Supply(regions, base, capacity, zone) && s.base == base && s.size == capacity
    ensures Coming(regions, 0, [s])
  {
  }

  /** A moment before a call: the state, the live chunks, and where the blocks are. */
  datatype Moment = Moment(h: Heap, live: set<int>, mems: seq<int>)

  /** The moment fits what the callers know, and the call succeeds exactly if it is legal and there is memory for it. */
  ghost predicate Explains(t: Moment, at: Place, known: seq<Known>, call: Call, granularity: nat, region: Region,
      ok: bool)
    requires granularity > 0
  {
    && Ok(t.h, at, {}) && Agrees(t.h.mem, t.h.chunks, t.live, t.mems, known)
    && (ok <==> Legal(known, call) && !Fails(t.h, t.mems, call, granularity, region))
  }

  /** Every result of a list of calls is explained by a moment of the run. */
  ghost predicate Explained(trace: seq<Moment>, at: Place, calls: seq<Call>, granularity: nat, regions: seq<Region>,
      oks: seq<bool>)
    requires granularity > 0
  {
    && |trace| == |oks| <= |calls| && |oks| <= |regions|
    && forall n :: 0 <= n < |trace| ==>
      Explains(trace[n], at, Replay(calls[..n], oks[..n]), calls[n], granularity, regions[n], oks[n])
  }

  lemma ExplainedMore(trace: seq<Moment>, at: Place, calls: seq<Call>, granularity: nat, regions: seq<Region>,
      oks: seq<bool>, t: Moment, ok: bool)
    requires granularity > 0 && Explained(trace, at, calls, granularity, regions, oks)
    requires |oks| < |calls| && |oks| < |regions|
    requires var n := |oks|; Explains(t, at, Replay(calls[..n], oks), calls[n], granularity, regions[n], ok)
    ensures Explained(trace + [t], at, calls, granularity, regions, oks + [ok])
  {
    hide Explains, Replay;
    var trace1, oks1 := trace + [t], oks + [ok];
    forall n | 0 <= n < |trace1|
      ensures Explains(trace1[n], at, Replay(calls[..n], oks1[..n]), calls[n], granularity, regions[n], oks1[n])
    {
      assert oks1[..n] == oks[..n];
      if n == |oks| {
        assert oks[..n] == oks;
      }
    }
  }

  lemma ExplainedNone(at: Place, calls: seq<Call>, granularity: nat, regions: seq<Region>)
    requires granularity > 0
    ensures Explained([], at, calls, granularity, regions, [])
  {
  }

  lemma ExplainsIs(t: Moment, at: Place, known: seq<Known>, call: Call, granularity: nat, region: Region, ok: bool)
    requires granularity > 0 && Ok(t.h, at, {}) && Agrees(t.h.mem, t.h.chunks, t.live, t.mems, known)
    requires ok <==> Legal(known, call) && !Fails(t.h, t.mems, call, granularity, region)
    ensures Explains(t, at, known, call, granularity, region, ok)
  {
    hide Ok, Agrees, Legal, Fails;
  }

  /** A space is created, and the calls are made one after the other; a region of the provider goes with each. Without
      a space no memory is found for any call. */
  method Run(w: Words, base: int, capacity: nat, calls: seq<Call>, granularity: nat, regions: seq<Region>,
      ghost zone: Zones)
      returns (s: Space?, mems: seq<int>, oks: seq<bool>, ghost trace: seq<Moment>)
    requires base > 0 && base % 16 == 0 && capacity % 16 == 0 && InZone(zone, base, capacity)
    requires granularity > 0 && |regions| == |calls| && Supply(regions, base, capacity, zone)
    modifies w
    ensures s == null <==> capacity <= STATE_SIZE + TOP_FOOT
    ensures s != null ==>
        s.Valid() && s.words == w && |oks| == |calls| && Agrees(w.mem, s.chunks, s.live, mems, Replay(calls, oks))
    ensures s != null ==> Explained(trace, s.At(), calls, granularity, regions, oks)
  {
    hide *;
    s := CreateSpace(w, base, capacity, zone);
    mems, oks, trace := [], [], [];
    if s != null {
      ComingFirst(regions, base, capacity, zone, s.segments[0]);
      mems, oks, trace := RunCalls(s, calls, granularity, regions, base, capacity);
    }
  }

  method RunCalls(s: Space, calls: seq<Call>, granularity: nat, regions: seq<Region>, ghost base: int,
      ghost capacity: nat) returns (mems: seq<int>, oks: seq<bool>, ghost trace: seq<Moment>)
    requires s.Valid() && s.live == {} && granularity > 0 && |regions| == |calls|
    requires Supply(regions, base, capacity, s.zone) && Coming(regions, 0, s.segments)
    modifies s, s.words
    ensures s.Valid() && |oks| == |calls| && Agrees(s.words.mem, s.chunks, s.live, mems, Replay(calls, oks))
    ensures Explained(trace, s.At(), calls, granularity, regions, oks)
  {
    hide *;
    mems, oks, trace := [], [], [];
    ExplainedNone(s.At(), calls, granularity, regions);
    var known: seq<Known> := [];
    NothingKnown(s.words.mem, s.chunks, s.live);
    var n := 0;
    while n < |calls|
      invariant n <= |calls| && |oks| == n && s.Valid()
      invariant known == Replay(calls[..n], oks) && Agrees(s.words.mem, s.chunks, s.live, mems, known)
      invariant Coming(regions, n, s.segments) && Explained(trace, s.At(), calls, granularity, regions, oks)
    {
      s.ValidParts();
      s.SteadyParts({});
      ghost var t, known0 := Moment(s.State(), s.live, mems), known;
      ghost var segs := s.segments;
      var ok := false;
      ComingOffered(regions, n, base, capacity, s.zone, segs);
      ghost var before := oks;
      if Legal(known, calls[n]) {
        mems, ok := Step(s, mems, known, calls[n], granularity, regions[n]);
        known := Effect(known, calls[n], ok);
      }
      ComingNext(regions, n, base, capacity, s.zone, segs, s.segments);
      ExplainsIs(t, s.At(), known0, calls[n], granularity, regions[n], ok);
      ExplainedMore(trace, s.At(), calls, granularity, regions, oks, t, ok);
      trace := trace + [t];
      oks := oks + [ok];
      ReplayNext(calls, before, ok, n);
      n := n + 1;
    }
    assert calls[..n] == calls;
  }

  lemma ReplayNext(calls: seq<Call>, oks: seq<bool>, ok: bool, n: nat)
    requires n < |calls| && |oks| == n
    ensures var known := Replay(calls[..n], oks);
            Replay(calls[..n + 1], oks + [ok]) == if Legal(known, calls[n]) then Effect(known, calls[n], ok) else known
  {
    hide Legal, Effect;
    assert calls[..n + 1][..n] == calls[..n] && (oks + [ok])[..n] == oks;
  }

  lemma NothingKnown(m: Mem, c: Chunks, live: set<int>)
    requires live == {}
    ensures Agrees(m, c, live, [], []) && Replay([], []) == []
  {
  }

  /** Different blocks that are held do not overlap. */
  lemma {:induction false} HeldApart(s: Space, mems: seq<int>, known: seq<Known>, i: nat, j: nat)
    requires s.Valid() && Agrees(s.words.mem, s.chunks, s.live, mems, known) && i < |known| && j < |known| && i != j
        && known[i].Held? && known[j].Held?
    ensures |mems| == |known| && (mems[i] + known[i].bytes <= mems[j] || mems[j] + known[j].bytes <= mems[i])
  {
    hide *;
    AgreesAt(s.words.mem, s.chunks, s.live, mems, known, i);
    AgreesAt(s.words.mem, s.chunks, s.live, mems, known, j);
    AgreesOther(s.words.mem, s.chunks, s.live, mems, known, i, j);
    s.BlocksApart(mems[i] - 16, mems[j] - 16);
  }

  lemma AgreesOther(m: Mem, c: Chunks, live: set<int>, mems: seq<int>, known: seq<Known>, i: nat, j: nat)
    requires Agrees(m, c, live, mems, known) && i < |known| && j < |known| && i != j && known[i].Held? && known[j].Held?
    ensures |mems| == |known| && mems[i] != mems[j]
  {
    hide BlockOk, IsHeld;
    if i < j {
      assert mems[i] != mems[j];
    } else {
      assert mems[j] != mems[i];
    }
  }
}
