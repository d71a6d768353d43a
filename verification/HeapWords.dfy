/** The memory that `dlmalloc.c` manages: 64-bit words by address, the fields of a chunk as offsets, the head
    word, and the circular lists of free chunks. */
module HeapWords {
  import opened SizeTrie

  type Mem = map<int, int>

  function Get(m: Mem, a: int): int { if a in m then m[a] else 0 }

  class Words {
    var mem: Mem

    constructor (m: Mem)
      ensures mem == m
    {
      mem := m;
    }
  }

  // fields of a chunk; `prev_foot` is at offset 0
  const HEAD: int := 8
  const FD: int := 16
  const BK: int := 24
  const CHILD0: int := 32
  const CHILD1: int := 40
  const PARENT: int := 48
  const INDEX: int := 56

  // ---- the head word ----

  const PINUSE: nat := 1
  const CINUSE: nat := 2

  /** A head word with its three flag bits; sizes are multiples of 8. */
  function Tag(size: nat, used: bool, pinuse: bool): nat {
    size + (if used then CINUSE else 0) + if pinuse then PINUSE else 0
  }

  /** `chunksize`. */
  function SizeIn(head: int): int { head - head % 8 }

  /** `cinuse`. */
  predicate UsedIn(head: int) { head / 2 % 2 == 1 }

  /** `pinuse`. */
  predicate PinuseIn(head: int) { head % 2 == 1 }

  /** `clear_pinuse`, and setting the same bit. */
  function WithPinuse(head: int, pinuse: bool): int { head - head % 2 + if pinuse then PINUSE else 0 }

  lemma TagFields(size: nat, used: bool, pinuse: bool)
    requires size % 8 == 0
    ensures var h := Tag(size, used, pinuse);
            && SizeIn(h) == size && UsedIn(h) == used && PinuseIn(h) == pinuse
            && WithPinuse(h, true) == Tag(size, used, true) && WithPinuse(h, false) == Tag(size, used, false)
  {
    var k := size / 8;
    FlagParts(k, (if used then 2 else 0) + if pinuse then 1 else 0);
    FlagParts(k, if used then 2 else 0);
  }

  lemma FlagParts(k: int, flags: int)
    requires 0 <= flags < 4
    ensures var h := 8 * k + flags;
            h % 8 == flags && h / 2 % 2 == flags / 2 && h % 2 == flags % 2
  {
    Rest8(k, flags);
    Halve(4 * k + flags / 2, flags % 2);
    Halve(2 * k, flags / 2);
    assert 8 * k + flags == 2 * (4 * k + flags / 2) + flags % 2;
    assert 4 * k + flags / 2 == 2 * (2 * k) + flags / 2;
  }

  lemma Rest8(k: int, r: int)
    requires 0 <= r < 8
    ensures (8 * k + r) % 8 == r
  {
  }

  lemma Halve(j: int, r: int)
    requires 0 <= r < 2
    ensures (2 * j + r) / 2 == j && (2 * j + r) % 2 == r
  {
  }

  // ---- circular lists ----

  predicate Joined(m: Mem, p: int, q: int) { Get(m, p + FD) == q && Get(m, q + BK) == p }

  /** The members, in the order of their forward links. */
  predicate Ring(m: Mem, s: seq<int>) {
    && s != [] && NoDuplicates(s)
    && (forall k :: 0 <= k < |s| - 1 ==> Joined(m, s[k], s[k + 1]))
    && Joined(m, s[|s| - 1], s[0])
  }

  /** The links of different members are different words. */
  predicate Apart(p: int, q: int) { p + 16 <= q || q + 16 <= p }

  predicate AllApart(s: seq<int>) { forall p, q :: p in s && q in s && p != q ==> Apart(p, q) }

  predicate ApartFrom(s: seq<int>, x: int) { forall p :: p in s ==> Apart(p, x) }

  function After(s: seq<int>, k: nat): int
    requires k < |s|
  {
    if k + 1 < |s| then s[k + 1] else s[0]
  }

  /** Link `x` between `b` and the member `f` after it. */
  function Linked(m: Mem, b: int, f: int, x: int): Mem {
    m[b + FD := x][f + BK := x][x + FD := f][x + BK := b]
  }

  /** Take out the member between `b` and `f`. */
  function Unlinked(m: Mem, b: int, f: int): Mem {
    m[f + BK := b][b + FD := f]
  }

  method StoreUnlinked(w: Words, b: int, f: int)
    modifies w
    ensures w.mem == Unlinked(old(w.mem), b, f)
  {
    w.mem := w.mem[f + BK := b];
    w.mem := w.mem[b + FD := f];
  }

  lemma JoinedAfterLink(m: Mem, b: int, f: int, x: int, p: int, q: int)
    requires Apart(b, x) && Apart(f, x) && (b == f || Apart(b, f))
    ensures Joined(Linked(m, b, f, x), b, x) && Joined(Linked(m, b, f, x), x, f)
    ensures Joined(m, p, q) && Apart(p, b) && Apart(q, f) && Apart(p, x) && Apart(q, x) &&
            (p == f || Apart(p, f)) && (q == b || Apart(q, b)) ==>
              Joined(Linked(m, b, f, x), p, q)
  {
  }

  lemma JoinedAfterUnlink(m: Mem, b: int, f: int, p: int, q: int)
    requires b == f || Apart(b, f)
    ensures Joined(Unlinked(m, b, f), b, f)
    ensures Joined(m, p, q) && Apart(p, b) && Apart(q, f) && (p == f || Apart(p, f)) && (q == b || Apart(q, b)) ==>
        Joined(Unlinked(m, b, f), p, q)
  {
  }

  lemma {:induction false} RingInsert(m: Mem, s: seq<int>, x: int)
    requires Ring(m, s) && AllApart(s) && ApartFrom(s, x)
    ensures Ring(Linked(m, s[0], Get(m, s[0] + FD), x), [s[0], x] + s[1..])
  {
    hide Joined, Linked, Apart, AllApart, ApartFrom, NoDuplicates;
    var n := |s|;
    var b, f := s[0], After(s, 0);
    RingFacts(m, s, x);
    var m1, t := Linked(m, b, f, x), [s[0], x] + s[1..];
    InsertRing(s, x);
    InsertedLinks(m, s, x);
    forall k | 1 <= k < n ensures Joined(m1, s[k], After(s, k)) {
      InsertKeeps(m, s, x, k);
    }
    forall k | 0 <= k < |t| - 1 ensures Joined(m1, t[k], t[k + 1]) {
      assert k >= 2 ==> t[k] == s[k - 1] && t[k + 1] == s[k] == After(s, k - 1);
    }
    assert t[|t| - 1] == if n == 1 then x else s[n - 1];
  }

  lemma RingFacts(m: Mem, s: seq<int>, x: int)
    requires Ring(m, s) && ApartFrom(s, x)
    ensures Joined(m, s[0], After(s, 0)) && Get(m, s[0] + FD) == After(s, 0) && x !in s && NoDuplicates(s)
  {
    SelfApart(x);
  }

  /** The new member is linked to its neighbours. */
  lemma InsertedLinks(m: Mem, s: seq<int>, x: int)
    requires Ring(m, s) && AllApart(s) && ApartFrom(s, x)
    ensures var m1 := Linked(m, s[0], After(s, 0), x); Joined(m1, s[0], x) && Joined(m1, x, After(s, 0))
  {
    hide Joined, Linked, Apart;
    RingFacts(m, s, x);
    JoinedAfterLink(m, s[0], After(s, 0), x, s[0], After(s, 0));
  }

  /** The other links stay. */
  lemma {:induction false} InsertKeeps(m: Mem, s: seq<int>, x: int, k: nat)
    requires Ring(m, s) && AllApart(s) && ApartFrom(s, x) && 1 <= k < |s|
    ensures Joined(Linked(m, s[0], After(s, 0), x), s[k], After(s, k))
  {
    hide Joined, Linked, Apart;
    RingFacts(m, s, x);
    var b, f, p, q := s[0], After(s, 0), s[k], After(s, k);
    assert p in s && q in s && b in s && f in s && p != b && q != f;
    ApartSwap(b, p);
    ApartSwap(f, q);
    JoinedAfterLink(m, b, f, x, p, q);
  }

  lemma JoinedFd(m: Mem, p: int, q: int)
    ensures Joined(m, p, q) ==> Get(m, p + FD) == q && Get(m, q + BK) == p
  {
  }

  lemma SelfApart(x: int)
    ensures !Apart(x, x)
  {
  }

  lemma ApartSwap(p: int, q: int)
    ensures Apart(p, q) == Apart(q, p)
  {
  }

  lemma {:induction false} PairKept(m: Mem, s: seq<int>, k: nat, i: nat)
    requires Ring(m, s) && AllApart(s) && 0 < k < |s| && i < |s| && i != k && i != k - 1
    ensures Joined(Unlinked(m, s[k - 1], After(s, k)), s[i], After(s, i))
  {
    hide Joined, Unlinked, Apart;
    var b, f, p, q := s[k - 1], After(s, k), s[i], After(s, i);
    assert Joined(m, p, q);
    assert b in s && f in s && p in s && q in s && p != b && q != f;
    ApartSwap(b, p); ApartSwap(f, q);
    JoinedAfterUnlink(m, b, f, p, q);
  }

  lemma {:induction false} RingRemove(m: Mem, s: seq<int>, k: nat)
    requires Ring(m, s) && AllApart(s) && 0 < k < |s|
    ensures Get(m, s[k] + BK) == s[k - 1] && Get(m, s[k] + FD) == After(s, k)
    ensures Ring(Unlinked(m, s[k - 1], After(s, k)), s[..k] + s[k + 1..])
  {
    hide Joined, Unlinked, Apart, AllApart;
    var n, b, f := |s|, s[k - 1], After(s, k);
    assert Joined(m, b, s[k]) && Joined(m, s[k], f);
    JoinedFd(m, b, s[k]);
    JoinedFd(m, s[k], f);
    var m1, t := Unlinked(m, b, f), s[..k] + s[k + 1..];
    assert b in s && f in s;
    assert b == f || Apart(b, f) by { MembersApart(s, b, f); }
    JoinedAfterUnlink(m, b, f, b, f);
    forall i | 0 <= i < |t| - 1 ensures Joined(m1, t[i], t[i + 1]) {
      assert t[i] == if i < k then s[i] else s[i + 1];
      assert t[i + 1] == if i + 1 < k then s[i + 1] else s[i + 2];
      if i != k - 1 { PairKept(m, s, k, if i < k then i else i + 1); }
    }
    RemovedDistinct(s, k);
    assert t[0] == s[0] && t[|t| - 1] == if k == n - 1 then s[k - 1] else s[n - 1];
    if k != n - 1 { PairKept(m, s, k, n - 1); }
  }

  lemma MembersApart(s: seq<int>, p: int, q: int)
    requires AllApart(s) && p in s && q in s
    ensures p == q || Apart(p, q)
  {
  }

  lemma RemovedDistinct(s: seq<int>, k: nat)
    requires NoDuplicates(s) && k < |s|
    ensures NoDuplicates(s[..k] + s[k + 1..])
  {
  }

  /** Taking out the first member; the last one becomes the first. */
  lemma {:induction false} RingRemoveFirst(m: Mem, s: seq<int>)
    requires Ring(m, s) && AllApart(s) && |s| > 1
    ensures Get(m, s[0] + BK) == s[|s| - 1] && Get(m, s[0] + FD) == s[1]
    ensures Ring(Unlinked(m, s[|s| - 1], s[1]), [s[|s| - 1]] + s[1..|s| - 1])
  {
    hide Ring, Unlinked, Apart;
    var n := |s|;
    var t := [s[n - 1]] + s[..n - 1];
    RingRotate(m, s);
    assert forall p :: p in t ==> p in s;
    RingRemove(m, t, 1);
    assert t[..1] + t[2..] == [s[n - 1]] + s[1..n - 1];
    assert After(t, 1) == s[1];
  }

  /** A ring may start anywhere. */
  lemma {:induction false} RingRotate(m: Mem, s: seq<int>)
    requires Ring(m, s)
    ensures Ring(m, [s[|s| - 1]] + s[..|s| - 1])
  {
    hide Joined;
    var n := |s|;
    var t := [s[n - 1]] + s[..n - 1];
    forall k | 0 <= k < n - 1 ensures Joined(m, t[k], t[k + 1]) {
      assert t[k + 1] == s[k] && t[k] == if k == 0 then s[n - 1] else s[k - 1];
    }
    forall i, j | 0 <= i < j < n ensures t[i] != t[j] {
      assert t[j] == s[j - 1] && t[i] == if i == 0 then s[n - 1] else s[i - 1];
    }
  }

  lemma RingFrame(m: Mem, m1: Mem, s: seq<int>)
    requires Ring(m, s) && forall p :: p in s ==> Get(m, p + FD) == Get(m1, p + FD) && Get(m, p + BK) == Get(m1, p + BK)
    ensures Ring(m1, s)
  {
    forall k | 0 <= k < |s| - 1 ensures Joined(m1, s[k], s[k + 1]) {
      assert Joined(m, s[k], s[k + 1]) && s[k] in s && s[k + 1] in s;
    }
    assert s[0] in s && s[|s| - 1] in s;
  }
}
