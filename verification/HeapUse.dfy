/** What the callers of the allocator of `dlmalloc.c` see: which chunks are in use, and their payloads. */
module HeapUse {
  import opened HeapWords
  import opened HeapTiling
  import opened HeapState
  import opened HeapMoves
  import opened HeapEdits
  import opened HeapResize

  /** Chunks in use stay in use, with their size and payload; only the state record at `ms` may change. */
  ghost predicate KeepsUse(m: Mem, m1: Mem, c: Chunks, c1: Chunks, ms: int, but: set<int>) {
    forall q :: q in c && c[q].used && q !in but ==>
      q in c1 && c1[q].used && c1[q].size == c[q].size && (q != ms - 16 ==> SameFrom(m, m1, q + 16, q + c[q].size + 8))
  }

  /** No other chunks than `ps` come into use. */
  ghost predicate NewUse(c: Chunks, c1: Chunks, ps: set<int>) {
    forall q :: q in c1 && c1[q].used ==> q in ps || (q in c && c[q].used)
  }

  /** The chunk `p` has come into use for a request of `nb` bytes, and nothing else has changed for the callers. */
  ghost predicate Served(m: Mem, m1: Mem, c: Chunks, c1: Chunks, ms: int, p: int, nb: nat) {
    && p in c1 && c1[p].used && nb <= c1[p].size < nb + 32 && p in c && !c[p].used && nb <= c[p].size
    && p + c1[p].size in c1
    && KeepsUse(m, m1, c, c1, ms, {}) && NewUse(c, c1, {p}) && SameCover(c, c1)
  }

  lemma KeepsThen(m: Mem, m1: Mem, m2: Mem, c: Chunks, c1: Chunks, c2: Chunks, ms: int, but: set<int>, but1: set<int>)
    requires KeepsUse(m, m1, c, c1, ms, but) && KeepsUse(m1, m2, c1, c2, ms, but1) && forall q ::
        q in but1 && q in c && c[q].used ==> q in but
    ensures KeepsUse(m, m2, c, c2, ms, but)
  {
    forall q | q in c && c[q].used && q !in but
      ensures q in c2 && c2[q].used && c2[q].size == c[q].size && (q != ms - 16 ==>
          SameFrom(m, m2, q + 16, q + c[q].size + 8))
    {
      if q != ms - 16 {
        SameTwice(m, m1, m2, q + 16, q + c[q].size + 8);
      }
    }
  }

  lemma NoChange(m: Mem, c: Chunks, ms: int)
    ensures UserKept(m, m, c, ms)
  {
  }

  lemma UserKeeps(m: Mem, m1: Mem, c: Chunks, ms: int)
    requires UserKept(m, m1, c, ms)
    ensures KeepsUse(m, m1, c, c, ms, {})
  {
    forall q | q in c && c[q].used && q != ms - 16 ensures SameFrom(m, m1, q + 16, q + c[q].size + 8) {
      SameSub(m, m1, q + 8, q + c[q].size + 8, q + 16, q + c[q].size + 8);
    }
  }

  lemma WholeKeeps(m: Mem, m1: Mem, c: Chunks, ms: int, p: int)
    requires PayloadsKept(m, m1, c, {p}) && p in c && !c[p].used && c[p].size > 0
    ensures KeepsUse(m, m1, c, SetUsed(c, p, true), ms, {}) && NewUse(c, SetUsed(c, p, true), {p})
    ensures p in SetUsed(c, p, true) && SetUsed(c, p, true)[p].used && SetUsed(c, p, true)[p].size == c[p].size
    ensures SameCover(c, SetUsed(c, p, true)) && SetUsed(c, p, true).Keys == c.Keys
  {
    hide SetUsed, SameCover;
    SetUsedShape(c, p, true);
    SetUsedCover(c, p, true);
  }

  lemma FrontKeeps(m: Mem, m1: Mem, c: Chunks, ms: int, p: int, nb: nat)
    requires PayloadsKept(m, m1, c, {p}) && p in c && !c[p].used && 0 < nb < c[p].size && p + nb !in c
    ensures KeepsUse(m, m1, c, Fronted(c, p, nb), ms, {}) && NewUse(c, Fronted(c, p, nb), {p})
    ensures p in Fronted(c, p, nb) && Fronted(c, p, nb)[p].used && Fronted(c, p, nb)[p].size == nb
    ensures SameCover(c, Fronted(c, p, nb)) && p + nb in Fronted(c, p, nb)
  {
    hide SameCover;
    FrontCover(c, p, nb);
  }

  lemma FrontCover(c: Chunks, p: int, nb: nat)
    requires p in c && !c[p].used && 0 < nb < c[p].size && p + nb !in c
    ensures SameCover(c, Fronted(c, p, nb))
  {
    hide SetUsed, Split, SameCover, Fronted;
    SplitCover(c, p, nb);
    SplitShape(c, p, nb);
    FrontedIs(c, p, nb);
    SetUsedCover(Split(c, p, nb), p, true);
    SameCoverThen(c, Split(c, p, nb), Fronted(c, p, nb));
  }

  /** Out of a bin, and used whole. */
  lemma ServedWhole(m: Mem, m1: Mem, m2: Mem, c: Chunks, ms: int, p: int, nb: nat)
    requires UserKept(m, m1, c, ms) && PayloadsKept(m1, m2, c, {p}) && p in c && !c[p].used && nb <= c[p].size < nb + 32
        && c[p].size > 0
    requires p + c[p].size in c
    ensures Served(m, m2, c, SetUsed(c, p, true), ms, p, nb)
  {
    hide KeepsUse, UserKept, PayloadsKept, SetUsed, SameCover;
    UserKeeps(m, m1, c, ms);
    WholeKeeps(m1, m2, c, ms, p);
    KeepsThen(m, m1, m2, c, c, SetUsed(c, p, true), ms, {}, {});
  }

  /** Out of a bin, and the front of it used; the rest goes into a bin. */
  lemma ServedFront(m: Mem, m1: Mem, m2: Mem, m3: Mem, c: Chunks, ms: int, p: int, nb: nat)
    requires UserKept(m, m1, c, ms) && PayloadsKept(m1, m2, c, {p}) && p in c && !c[p].used && 0 < nb < c[p].size
        && p + nb !in c
    requires UserKept(m2, m3, Fronted(c, p, nb), ms)
    ensures Served(m, m3, c, Fronted(c, p, nb), ms, p, nb)
  {
    hide KeepsUse, UserKept, PayloadsKept, Fronted, SameCover;
    var c1 := Fronted(c, p, nb);
    UserKeeps(m, m1, c, ms);
    FrontKeeps(m1, m2, c, ms, p, nb);
    UserKeeps(m2, m3, c1, ms);
    KeepsThen(m, m1, m2, c, c, c1, ms, {}, {});
    KeepsThen(m, m2, m3, c, c1, c1, ms, {}, {});
  }

  // ---- the contents of blocks ----

  function Cell(m: Mem, mem: int, k: int): int { Get(m, mem + k) }

  /** The first `n` cells of the block at `mem` are those that the block at `mem1` has in `m1`. */
  ghost predicate SameCells(m: Mem, mem: int, m1: Mem, mem1: int, n: int) {
    forall k :: 0 <= k < n ==> Cell(m1, mem1, k) == Cell(m, mem, k)
  }

  lemma SameIsCells(m: Mem, m1: Mem, p: int, hi: int)
    requires SameFrom(m, m1, p, hi)
    ensures SameCells(m, p, m1, p, hi - p)
  {
  }

  lemma CellsThen(m: Mem, x: int, m1: Mem, y: int, m2: Mem, z: int, n: int, k: int)
    requires SameCells(m, x, m1, y, n) && SameCells(m1, y, m2, z, k)
    ensures SameCells(m, x, m2, z, if n < k then n else k)
  {
    forall j | 0 <= j < (if n < k then n else k) ensures Cell(m2, z, j) == Cell(m, x, j) {
      assert Cell(m1, y, j) == Cell(m, x, j) && Cell(m2, z, j) == Cell(m1, y, j);
    }
  }

  // ---- what a call does to the blocks ----

  /** The chunks `out` go out of use and the chunks `into` come into use; one that is in both stays, perhaps with
      another size. All other chunks in use keep their size and payload. */
  ghost predicate Passes(m: Mem, m1: Mem, c: Chunks, c1: Chunks, fences: set<int>, ms: int, out: set<int>,
      into: set<int>) {
    && KeepsUse(m, m1, c, c1, ms, out) && NewUse(c, c1, into)
    && (forall p :: p in into ==> p in c1 && c1[p].used && p + c1[p].size !in fences)
    && (forall p :: p in out && p !in into ==> !(p in c1 && c1[p].used))
  }

  lemma {:induction false} PassesServed(m: Mem, m1: Mem, c: Chunks, c1: Chunks, top1: int, fences: set<int>, ms: int,
      p: int, nb: nat)
    requires Served(m, m1, c, c1, ms, p, nb) && TopLast(c1, top1, fences)
    ensures Passes(m, m1, c, c1, fences, ms, {}, {p})
  {
    hide KeepsUse, SameCover, FencesOutside, RoomAfter;
  }

  /** Changes of the bins before and after. */
  lemma {:induction false} PassesAround(m: Mem, m1: Mem, m2: Mem, m3: Mem, c: Chunks, c1: Chunks, fences: set<int>,
      ms: int, out: set<int>, into: set<int>)
    requires UserKept(m, m1, c, ms) && Passes(m1, m2, c, c1, fences, ms, out, into) && UserKept(m2, m3, c1, ms)
    ensures Passes(m, m3, c, c1, fences, ms, out, into)
  {
    hide KeepsUse, UserKept;
    UserKeeps(m, m1, c, ms);
    KeepsLess(m, m1, c, c, ms, out);
    UserKeeps(m2, m3, c1, ms);
    KeepsThen(m, m1, m2, c, c, c1, ms, out, out);
    KeepsThen(m, m2, m3, c, c1, c1, ms, out, {});
  }

  lemma KeepsLess(m: Mem, m1: Mem, c: Chunks, c1: Chunks, ms: int, but: set<int>)
    requires KeepsUse(m, m1, c, c1, ms, {})
    ensures KeepsUse(m, m1, c, c1, ms, but)
  {
    hide SameFrom;
  }

  /** A chunk is cut in two, and the second part goes out of use. */
  lemma {:induction false} PassesCut(m: Mem, m1: Mem, m2: Mem, c: Chunks, c1: Chunks, c2: Chunks, fences: set<int>,
      ms: int, p: int, r: int)
    requires Passes(m, m1, c, c1, fences, ms, {p}, {p, r}) && Passes(m1, m2, c1, c2, fences, ms, {r}, {}) && p != r
        && !(r in c && c[r].used)
    ensures Passes(m, m2, c, c2, fences, ms, {p}, {p}) && p in c1 && p in c2 && c2[p].size == c1[p].size
    ensures p != ms - 16 ==> SameFrom(m1, m2, p + 16, p + c1[p].size + 8)
  {
    hide SameFrom;
    KeepsThen(m, m1, m2, c, c1, c2, ms, {p}, {r});
  }

  // ---- words that are written without a change of the tiling ----

  /** Words in the payload of a chunk in use. */
  lemma {:induction false} PayloadWrite(h: Heap, at: Place, loose: set<int>, p: int, m1: Mem)
    requires Ok(h, at, loose) && p in h.chunks && h.chunks[p].used && p != at.ms - 16
    requires forall a :: Get(m1, a) != Get(h.mem, a) ==> p + 16 <= a < p + h.chunks[p].size + 8
    ensures Ok(h.(mem := m1), at, loose) && KeepsUse(h.mem, m1, h.chunks, h.chunks, at.ms, {p})
  {
    hide Ok, Special, Heads;
    OkParts(h, at, loose);
    var h1 := h.(mem := m1);
    ChunkFacts(h, at, loose, p);
    PayloadEdit(h, h1, loose, p);
    SpecialSame(h, h1, loose);
    EditedOk(h, h1, at, loose, loose, {p}, {});
    EditedPayloads(h, h1, at, loose, loose, {p}, {});
  }

  lemma PayloadEdit(h: Heap, h1: Heap, loose: set<int>, p: int)
    requires p in h.chunks && h.chunks[p].used && h1 == h.(mem := h1.mem)
        && Get(h.mem, p + HEAD) == Tag(h.chunks[p].size, true, h.chunks[p].pinuse)
    requires forall a :: Get(h1.mem, a) != Get(h.mem, a) ==> p + 16 <= a < p + h.chunks[p].size + 8
    ensures Edited(h, h1, loose, loose, {p}, {})
  {
    hide Tag;
    forall a | Get(h1.mem, a) != Get(h.mem, a) ensures exists q :: q in {p} && Owns(h.chunks, q, a) {
      assert p in {p} && Owns(h.chunks, p, a);
    }
  }

  lemma SpecialSame(h: Heap, h1: Heap, loose: set<int>)
    requires Special(h, loose) && h1 == h.(mem := h1.mem)
    ensures Special(h1, loose)
  {
  }

  /** Words that belong to no chunk. */
  lemma {:induction false} UnownedWrite(h: Heap, at: Place, loose: set<int>, m1: Mem)
    requires Ok(h, at, loose) && forall a :: Get(m1, a) != Get(h.mem, a) ==> Unowned(h.chunks, a)
    ensures Ok(h.(mem := m1), at, loose) && UserKept(h.mem, m1, h.chunks, at.ms)
  {
    hide Ok, Special, Unowned;
    OkParts(h, at, loose);
    var h1 := h.(mem := m1);
    UnownedEdit(h, h1, loose);
    SpecialSame(h, h1, loose);
    EditedOk(h, h1, at, loose, loose, {}, {});
    UnownedKept(h.mem, m1, h.chunks, at.ms);
  }

  lemma UnownedEdit(h: Heap, h1: Heap, loose: set<int>)
    requires h1 == h.(mem := h1.mem) && forall a :: Get(h1.mem, a) != Get(h.mem, a) ==> Unowned(h.chunks, a)
    ensures Edited(h, h1, loose, loose, {}, {})
  {
    hide Unowned;
  }

  lemma UnownedKept(m: Mem, m1: Mem, c: Chunks, ms: int)
    requires forall a :: Get(m1, a) != Get(m, a) ==> Unowned(c, a)
    ensures UserKept(m, m1, c, ms)
  {
    forall q | q in c && c[q].used && q != ms - 16 ensures SameFrom(m, m1, q + 8, q + c[q].size + 8) {
      forall a | q + 8 <= a < q + c[q].size + 8 ensures Get(m1, a) == Get(m, a) {
        assert Owns(c, q, a);
      }
    }
  }
}
