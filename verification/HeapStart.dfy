/** A new space of `dlmalloc.c`: the state record in the first chunk, everything else in the top chunk. */
module HeapStart {
  import opened BinIndex
  import opened BinMaps
  import opened SizeTrie
  import opened HeapWords
  import opened HeapTiling
  import opened TreeSearch
  import opened SmallBins
  import opened HeapState

  function StartChunks(base: int, size: nat): Chunks {
    map[base := Chunk(STATE_SIZE, true, true), base + STATE_SIZE := Chunk(size, false, true)]
  }

  function EmptyLists(): seq<seq<int>> { seq(SMALL_BINS, _ => []) }

  function EmptyTrees(): seq<Tree> { seq(TREE_BINS, _ => Leaf) }

  lemma {:induction false} StartTiled(base: int, size: nat, z: Zones)
    requires base % 16 == 0 && base > 0 && size % 16 == 0 && size >= 16
        && InZone(z, base, STATE_SIZE + size + TOP_FOOT)
    ensures Tiled(StartChunks(base, size), base + STATE_SIZE, {}, z) && NoFreePair(StartChunks(base, size))
  {
    hide Sized, Separate, Chained, Flagged, Preceded, TopLast;
    StartPlaces(base, size, z);
    StartFlags(base, size);
  }

  lemma StartPlaces(base: int, size: nat, z: Zones)
    requires base % 16 == 0 && base > 0 && size % 16 == 0 && size >= 16
        && InZone(z, base, STATE_SIZE + size + TOP_FOOT)
    ensures Sized(StartChunks(base, size), base + STATE_SIZE, z) && Separate(StartChunks(base, size))
  {
    var c, top := StartChunks(base, size), base + STATE_SIZE;
    assert c.Keys == {base, top};
    AlignedSum(base, STATE_SIZE, 0);
    ZonePart(z, base, STATE_SIZE + size + TOP_FOOT, base, STATE_SIZE);
    ZonePart(z, base, STATE_SIZE + size + TOP_FOOT, top, size + TOP_FOOT);
    hide InZone;
  }

  lemma StartFlags(base: int, size: nat)
    requires size > 0
    ensures var c, top := StartChunks(base, size), base + STATE_SIZE;
        Chained(c, top, {}) && Flagged(c) && Preceded(c) && TopLast(c, top, {})
  {
    StartShape(base, size);
    hide StartChunks;
    var c, top := StartChunks(base, size), base + STATE_SIZE;
    assert base + c[base].size == top && top + c[top].size !in c;
  }

  lemma StartShape(base: int, size: nat)
    ensures var c, top := StartChunks(base, size), base + STATE_SIZE;
            c.Keys == {base, top} && top > base && c[base] == Chunk(STATE_SIZE, true, true)
              && c[top] == Chunk(size, false, true)
  {
  }

  predicate NoRoots(m: Mem, ms: int) { forall i :: 0 <= i < TREE_BINS ==> Get(m, TreeSlot(ms, i)) == 0 }

  lemma {:induction false} StartBins(m: Mem, ms: int)
    requires NoRoots(m, ms)
    ensures TreeBins(m, ms, 0, EmptyTrees())
    ensures forall i :: 0 <= i < SMALL_BINS ==> SmallBinOk(m, Header(ms, i), Marked(0, i), EmptyLists()[i])
  {
    hide Marked;
    ZeroMap(0);
    forall i | 0 <= i < TREE_BINS ensures TreeBinOk(m, TreeSlot(ms, i), Marked(0, i), EmptyTrees()[i], i) {
      assert Get(m, TreeSlot(ms, i)) == 0;
    }
  }

  function StartHeap(m: Mem, base: int, size: nat): Heap {
    Heap(m, StartChunks(base, size), base + STATE_SIZE, {}, 0, 0, 0, EmptyLists(), EmptyTrees())
  }

  lemma {:induction false} StartOk(m: Mem, base: int, size: nat, z: Zones)
    requires base % 16 == 0 && base > 0 && size % 16 == 0 && size >= 16
        && InZone(z, base, STATE_SIZE + size + TOP_FOOT)
    requires NoRoots(m, base + 16)
    requires Get(m, base + HEAD) == Tag(STATE_SIZE, true, true)
        && Get(m, base + STATE_SIZE + HEAD) == Tag(size, false, true)
    ensures Ok(Heap(m, StartChunks(base, size), base + STATE_SIZE, {}, 0, 0, 0, EmptyLists(), EmptyTrees()),
        Place(base + 16, z), {})
  {
    hide Tiled, TreeBins, SmallBinOk, Marked, Tag, StartChunks;
    StartTiled(base, size, z);
    StartBins(m, base + 16);
    var h := StartHeap(m, base, size);
    StartKeys(base, size);
    assert SmallFilled(h, base + 16, {}) && TreesFilled(h, base + 16, {});
    assert Complete(h, {});
  }

  lemma StartKeys(base: int, size: nat)
    ensures var c := StartChunks(base, size);
            c.Keys == {base, base + STATE_SIZE} && c[base] == Chunk(STATE_SIZE, true, true)
              && c[base + STATE_SIZE] == Chunk(size, false, true)
  {
  }

  /** The stores of `init_user_mstate`, `init_bins` and `init_top`. */
  method InitWords(w: Words, base: int, size: nat)
    requires size > 0
    modifies w
    ensures NoRoots(w.mem, base + 16)
    ensures Get(w.mem, base + HEAD) == Tag(STATE_SIZE, true, true)
        && Get(w.mem, base + STATE_SIZE + HEAD) == Tag(size, false, true)
  {
    hide Tag;
    var ms := base + 16;
    var k := 0;
    while k < STATE_SIZE / 8
      invariant 0 <= k <= STATE_SIZE / 8
      invariant forall j :: 75 <= j < k ==> Get(w.mem, ms + 8 * j) == 0
    {
      w.mem := w.mem[ms + 8 * k := 0];
      k := k + 1;
    }
    assert NoRoots(w.mem, ms) by {
      forall i | 0 <= i < TREE_BINS ensures Get(w.mem, TreeSlot(ms, i)) == 0 {
        assert TreeSlot(ms, i) == ms + 8 * (75 + i);
      }
    }
    w.mem := w.mem[base + HEAD := Tag(STATE_SIZE, true, true)];
    var i := 0;
    while i < SMALL_BINS
      invariant 0 <= i <= SMALL_BINS && NoRoots(w.mem, ms) && Get(w.mem, base + HEAD) == Tag(STATE_SIZE, true, true)
    {
      w.mem := w.mem[Header(ms, i) + BK := Header(ms, i)][Header(ms, i) + FD := Header(ms, i)];
      i := i + 1;
    }
    var top := base + STATE_SIZE;
    w.mem := w.mem[top + HEAD := Tag(size, false, true)];
    w.mem := w.mem[top + size + HEAD := TOP_FOOT];
  }
}
