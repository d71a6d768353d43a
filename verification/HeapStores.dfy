/** The stores of single steps of `dlmalloc.c`. */
module HeapStores {
  import opened HeapWords
  import opened HeapTiling
  import opened HeapState
  import opened HeapEdits
  import opened HeapRelease
  import opened HeapResize
  import opened HeapUse
  import opened HeapGrow
  import opened HeapFacts

  method StoreWhole(w: Words, p: int, s: nat)
    modifies w
    ensures w.mem == WholeUsed(old(w.mem), p, s)
  {
    w.mem := w.mem[p + HEAD := Tag(s, true, true)];
    w.mem := w.mem[p + s + HEAD := WithPinuse(Get(w.mem, p + s + HEAD), true)];
  }

  method StoreFront(w: Words, p: int, s: nat, nb: nat)
    requires nb <= s
    modifies w
    ensures w.mem == FrontUsed(old(w.mem), p, s, nb)
  {
    w.mem := w.mem[p + HEAD := Tag(nb, true, true)];
    w.mem := w.mem[p + nb + HEAD := Tag(s - nb, false, true)];
    w.mem := w.mem[p + s := s - nb];
  }

  method StoreTop(w: Words, p: int, s: nat, nb: nat)
    requires nb <= s
    modifies w
    ensures w.mem == TopUsed(old(w.mem), p, s, nb)
  {
    w.mem := w.mem[p + nb + HEAD := Tag(s - nb, false, true)];
    w.mem := w.mem[p + HEAD := Tag(nb, true, true)];
  }

  /** The stores of `add_segment`. */
  method StoreSegment(w: Words, top: int, ts: nat, oldEnd: int, sp: int, tb: int, tn: nat, record: seq<int>,
      ghost h: Heap)
    requires h.mem == w.mem && h.top == top && top in h.chunks && h.chunks[top].size == ts
        && Extensible(h.chunks, top, h.fences, tb, tn)
    requires oldEnd == top + ts + TOP_FOOT && sp == (if ts < MIN_CHUNK then top else top + ts) && |record| == 4
    modifies w
    ensures GrowWords(h, w.mem, tb, tn)
    ensures Get(w.mem, sp + 16) == record[0] && Get(w.mem, sp + 24) == record[1] && Get(w.mem, sp + 32) == record[2]
        && Get(w.mem, sp + 40) == record[3]
  {
    hide *;
    ExtRanges(h.chunks, top, h.fences, tb, tn);
    RecordSize();
    TagBits(RECORD, true, true);
    Sixteen();
    ghost var m0 := w.mem;
    StoreInitTop(w, tb, tn - TOP_FOOT);
    ghost var m1 := w.mem;
    StoreRecord(w, sp, record);
    ghost var m2 := w.mem;
    StoreFences(w, sp + RECORD, oldEnd);
    ghost var m3 := w.mem;
    if sp != top {
      StoreOldTop(w, top, ts);
    }
    forall a | Get(w.mem, a) != Get(m0, a) ensures top + 8 <= a < top + ts + TOP_FOOT || tb <= a < tb + tn {
      if Get(m1, a) == Get(m0, a) && Get(m2, a) == Get(m1, a) && Get(m3, a) == Get(m2, a) {
      }
    }
    GrowWordsIs(h, w.mem, tb, tn);
  }

  /** `init_top`. */
  method StoreInitTop(w: Words, p: int, psize: nat)
    requires psize > 0
    modifies w
    ensures Get(w.mem, p + HEAD) == Tag(psize, false, true)
    ensures forall a :: Get(w.mem, a) != Get(old(w.mem), a) ==> a == p + HEAD || a == p + psize + HEAD
  {
    w.mem := w.mem[p + HEAD := Tag(psize, false, true)][p + psize + HEAD := TOP_FOOT];
  }

  method StoreRecord(w: Words, sp: int, record: seq<int>)
    requires |record| == 4
    modifies w
    ensures Get(w.mem, sp + HEAD) == Tag(RECORD, true, true)
    ensures Get(w.mem, sp + 16) == record[0] && Get(w.mem, sp + 24) == record[1] && Get(w.mem, sp + 32) == record[2]
        && Get(w.mem, sp + 40) == record[3]
    ensures forall a :: Get(w.mem, a) != Get(old(w.mem), a) ==> sp + HEAD <= a < sp + RECORD
  {
    w.mem := w.mem[sp + HEAD := Tag(RECORD, true, true)];
    w.mem := w.mem[sp + 16 := record[0]][sp + 24 := record[1]][sp + 32 := record[2]][sp + 40 := record[3]];
  }

  /** `set_free_with_pinuse` on the old top chunk. */
  method StoreOldTop(w: Words, top: int, ts: nat)
    requires ts >= 32
    modifies w
    ensures Get(w.mem, top + ts + HEAD) == WithPinuse(Get(old(w.mem), top + ts + HEAD), false)
    ensures Get(w.mem, top + HEAD) == Tag(ts, false, true) && Get(w.mem, top + ts) == ts
    ensures forall a :: Get(w.mem, a) != Get(old(w.mem), a) ==> a == top + ts + HEAD || a == top + HEAD || a == top + ts
  {
    w.mem := w.mem[top + ts + HEAD := WithPinuse(Get(w.mem, top + ts + HEAD), false)];
    w.mem := w.mem[top + HEAD := Tag(ts, false, true)][top + ts := ts];
  }

  method StoreFences(w: Words, start: int, oldEnd: int)
    requires start + HEAD < oldEnd
    modifies w
    ensures forall a :: Get(w.mem, a) != Get(old(w.mem), a) ==> start + HEAD <= a < oldEnd
  {
    var p, more := start, true;
    while more
      invariant start <= p && p + HEAD < oldEnd
      invariant forall a :: Get(w.mem, a) != Get(old(w.mem), a) ==> start + HEAD <= a < oldEnd
      decreases oldEnd - p, more
    {
      w.mem := w.mem[p + HEAD := FENCEPOST_HEAD];
      if p + 8 + HEAD < oldEnd {
        p := p + 8;
      } else {
        more := false;
      }
    }
  }

  /** `set_free_with_pinuse`. */
  method StoreFreed(w: Words, q: int, total: nat)
    modifies w
    ensures w.mem == FreedBefore(old(w.mem), q, total)
  {
    var n := q + total;
    w.mem := w.mem[n + HEAD := WithPinuse(Get(w.mem, n + HEAD), false)];
    w.mem := w.mem[q + HEAD := Tag(total, false, true)][n := total];
  }

  /** `set_size_and_pinuse_of_free_chunk`. */
  method StoreMerged(w: Words, q: int, total: nat)
    modifies w
    ensures w.mem == FreedMerged(old(w.mem), q, total)
  {
    w.mem := w.mem[q + HEAD := Tag(total, false, true)][q + total := total];
  }

  /** The head of a new top chunk. */
  method StoreTopHead(w: Words, q: int, total: nat)
    modifies w
    ensures w.mem == FreedTop(old(w.mem), q, total)
  {
    w.mem := w.mem[q + HEAD := Tag(total, false, true)];
  }

  /** `set_inuse`. */
  method StoreInuse(w: Words, p: int, s: nat)
    modifies w
    ensures w.mem == InuseSet(old(w.mem), p, s)
  {
    w.mem := w.mem[p + HEAD := Tag(s, true, PinuseIn(Get(w.mem, p + HEAD)))];
    w.mem := w.mem[p + s + HEAD := WithPinuse(Get(w.mem, p + s + HEAD), true)];
  }

  /** `memcpy` from one block to another. */
  method CopyWords(w: Words, dst: int, src: int, n: nat)
    requires dst + n <= src || src + n <= dst
    modifies w
    ensures SameCells(old(w.mem), src, w.mem, dst, n)
    ensures forall a :: Get(w.mem, a) != Get(old(w.mem), a) ==> dst <= a < dst + n
  {
    var k := 0;
    while k < n
      invariant k <= n
      invariant SameCells(old(w.mem), src, w.mem, dst, k)
      invariant forall a :: Get(w.mem, a) != Get(old(w.mem), a) ==> dst <= a < dst + k
    {
      var m := w.mem;
      w.mem := m[dst + k := Get(m, src + k)];
      assert Get(m, src + k) == Get(old(w.mem), src + k);
      forall j | 0 <= j < k + 1 ensures Cell(w.mem, dst, j) == Cell(old(w.mem), src, j) {
        assert j < k ==> Cell(m, dst, j) == Cell(old(w.mem), src, j);
      }
      forall a | Get(w.mem, a) != Get(old(w.mem), a) ensures dst <= a < dst + k + 1 {
        assert a != dst + k ==> Get(w.mem, a) == Get(m, a);
      }
      k := k + 1;
    }
  }

  method StoreBaseAndSize(w: Words, r: int, base: int, size: int)
    modifies w
    ensures Get(w.mem, r) == base && Get(w.mem, r + 8) == size
    ensures forall a :: a != r && a != r + 8 ==> Get(w.mem, a) == Get(old(w.mem), a)
  {
    w.mem := w.mem[r := base][r + 8 := size];
  }

  /** `set_size_and_pinuse_of_inuse_chunk`. */
  method StoreUsedHead(w: Words, p: int, s: nat)
    modifies w
    ensures w.mem == old(w.mem)[p + HEAD := Tag(s, true, true)]
  {
    w.mem := w.mem[p + HEAD := Tag(s, true, true)];
  }

  /** `set_size_and_pinuse_of_free_chunk` and `clear_pinuse` on the chunk after it. */
  method StoreShared(w: Words, r: int, rest: nat)
    modifies w
    ensures var m1 := FreedMerged(old(w.mem), r, rest);
        w.mem == m1[r + rest + HEAD := WithPinuse(Get(m1, r + rest + HEAD), false)]
  {
    StoreMerged(w, r, rest);
    w.mem := w.mem[r + rest + HEAD := WithPinuse(Get(w.mem, r + rest + HEAD), false)];
  }
}
