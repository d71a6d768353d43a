/** The small bins of `dlmalloc.c`: circular lists of chunks of one size, with a header in the state. The
    links of a header mean nothing while its bin is not marked. */
module SmallBins {
  import opened HeapWords

  /** `smallbin_at`, in the state at `ms`. */
  function Header(ms: int, i: nat): int { ms + 72 + 16 * i }

  predicate SmallBinOk(m: Mem, h: int, marked: bool, list: seq<int>) {
    (marked <==> list != []) && (list != [] ==> Ring(m, [h] + list))
  }

  /** Only ring links of the chunks or headers `s` change. */
  ghost predicate OnlyRings(m: Mem, m1: Mem, s: set<int>) {
    forall a :: Get(m1, a) != Get(m, a) ==> exists q :: q in s && q + 16 <= a < q + 32
  }

  /** The header, the members and `p` do not overlap. */
  ghost predicate ListApart(h: int, list: seq<int>, p: int) {
    AllApart([h] + list) && ApartFrom([h] + list, p)
  }

  lemma {:induction false} InsertedFirst(m: Mem, h: int, marked: bool, list: seq<int>, p: int)
    requires SmallBinOk(m, h, marked, list) && ListApart(h, list, p)
    ensures var f := if marked then Get(m, h + FD) else h;
            SmallBinOk(Linked(m, h, f, p), h, true, [p] + list)
    ensures var f := if marked then Get(m, h + FD) else h;
            f == h || f in list
  {
    hide Linked;
    var ring := [h] + list;
    if marked {
      RingInsert(m, ring, p);
      assert [h, p] + ring[1..] == [h] + ([p] + list);
      assert Joined(m, ring[0], ring[1]);
    } else {
      assert h in ring && Apart(h, p);
      JoinedAfterLink(m, h, h, p, h, h);
      assert [h] + ([p] + list) == [h, p];
    }
  }

  /** `insert_small_chunk`: at the front. */
  method InsertSmall(w: Words, h: int, p: int, marked: bool, ghost list: seq<int>)
    requires SmallBinOk(w.mem, h, marked, list) && ListApart(h, list, p)
    modifies w
    ensures SmallBinOk(w.mem, h, true, [p] + list)
    ensures OnlyRings(old(w.mem), w.mem, (set q | q in list) + {h, p})
  {
    hide SmallBinOk, ListApart, Ring;
    InsertedFirst(w.mem, h, marked, list, p);
    var f := h;
    if marked {
      f := Get(w.mem, h + FD);
    }
    LinkedOnly(w.mem, h, f, p, (set q | q in list) + {h, p});
    w.mem := w.mem[h + FD := p];
    w.mem := w.mem[f + BK := p];
    w.mem := w.mem[p + FD := f];
    w.mem := w.mem[p + BK := h];
  }

  lemma LinkedOnly(m: Mem, b: int, f: int, x: int, s: set<int>)
    requires b in s && f in s && x in s
    ensures OnlyRings(m, Linked(m, b, f, x), s)
  {
  }

  lemma UnlinkedOnly(m: Mem, b: int, f: int, s: set<int>)
    requires b in s && f in s
    ensures OnlyRings(m, Unlinked(m, b, f), s)
  {
  }

  lemma OnlyNothing(m: Mem, s: set<int>)
    ensures OnlyRings(m, m, s)
  {
  }

  /** The links of a member, and the list without it. */
  lemma {:induction false} RemovedOne(m: Mem, h: int, list: seq<int>, k: nat)
    requires SmallBinOk(m, h, true, list) && AllApart([h] + list) && k < |list|
    ensures var b, f := Get(m, list[k] + BK), Get(m, list[k] + FD);
            var rest := list[..k] + list[k + 1..];
            && (b == f <==> |list| == 1) && (b == h || b in list) && (f == h || f in list)
            && Get(m, f + BK) == list[k] && Get(m, b + FD) == list[k]
            && (|list| == 1 ==> rest == [] && f == h && SmallBinOk(m, h, false, rest))
            && (|list| > 1 ==> SmallBinOk(Unlinked(m, b, f), h, true, rest))
            && b != list[k] && f != list[k]
  {
    hide Unlinked, Apart;
    var ring := [h] + list;
    assert ring[k + 1] == list[k];
    RingRemove(m, ring, k + 1);
    assert ring[..k + 1] + ring[k + 2..] == [h] + (list[..k] + list[k + 1..]);
    var b, f := ring[k], After(ring, k + 1);
    assert Joined(m, ring[k], ring[k + 1]) && Joined(m, ring[k + 1], f);
    assert k > 0 ==> b == list[k - 1];
    assert f == if k + 1 < |list| then list[k + 1] else h;
  }

  /** `unlink_small_chunk`; the result says whether the bin is now empty. */
  method UnlinkSmall(w: Words, p: int, ghost h: int, ghost list: seq<int>, ghost k: nat) returns (empty: bool)
    requires SmallBinOk(w.mem, h, true, list) && AllApart([h] + list) && k < |list| && list[k] == p
    modifies w
    ensures empty <==> |list| == 1
    ensures SmallBinOk(w.mem, h, !empty, list[..k] + list[k + 1..])
    ensures OnlyRings(old(w.mem), w.mem, (set q | q in list) + {h})
  {
    hide SmallBinOk, Ring, Unlinked;
    RemovedOne(w.mem, h, list, k);
    var f, b := Get(w.mem, p + FD), Get(w.mem, p + BK);
    // the checks of the links succeed
    assert Get(w.mem, f + BK) == p && Get(w.mem, b + FD) == p;
    ghost var all := (set q | q in list) + {h};
    if b == f {
      OnlyNothing(w.mem, all);
      empty := true;
    } else {
      UnlinkedOnly(w.mem, b, f, all);
      StoreUnlinked(w, b, f);
      empty := false;
    }
  }

  /** `unlink_first_small_chunk`: the chunk that the header points to. */
  method UnlinkFirst(w: Words, h: int, ghost list: seq<int>) returns (p: int, empty: bool)
    requires SmallBinOk(w.mem, h, true, list) && AllApart([h] + list)
    modifies w
    ensures list != [] && p == list[0] && (empty <==> |list| == 1)
    ensures SmallBinOk(w.mem, h, !empty, list[1..])
    ensures OnlyRings(old(w.mem), w.mem, (set q | q in list) + {h})
  {
    hide SmallBinOk, Ring, Unlinked;
    FirstMember(w.mem, h, list);
    RemovedOne(w.mem, h, list, 0);
    assert list[..0] + list[1..] == list[1..];
    p := Get(w.mem, h + FD);
    var f := Get(w.mem, p + FD);
    ghost var all := (set q | q in list) + {h};
    if h == f {
      OnlyNothing(w.mem, all);
      empty := true;
    } else {
      assert Get(w.mem, f + BK) == p;
      UnlinkedOnly(w.mem, h, f, all);
      StoreUnlinked(w, h, f);
      empty := false;
    }
  }

  lemma FirstMember(m: Mem, h: int, list: seq<int>)
    requires SmallBinOk(m, h, true, list)
    ensures list != [] && Get(m, h + FD) == list[0] && Get(m, list[0] + BK) == h
    ensures Get(m, list[0] + FD) == h <==> |list| == 1
  {
    var ring := [h] + list;
    assert Joined(m, ring[0], ring[1]);
    assert Joined(m, ring[1], After(ring, 1));
  }
}
