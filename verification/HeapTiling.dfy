/** How chunks tile the memory of a space (`dlmalloc.c`): sizes, use bits, and the three changes of the tiling
    that every operation is made of. */
module HeapTiling {
  import opened BinIndex

  /** `used` is the chunk's own bit, `pinuse` says that the chunk before it is in use (or that it is first). */
  datatype Chunk = Chunk(size: nat, used: bool, pinuse: bool)

  type Chunks = map<int, Chunk>

  const ALIGNMENT: nat := 16
  const MIN_CHUNK: nat := 32

  function End(c: Chunks, p: int): int
    requires p in c
  {
    p + c[p].size
  }

  /** A division of the addresses into zones, each given by its first address. A segment never leaves its zone. */
  type Zones = int -> int

  /** The addresses from a to a + n are in one zone, and near enough to its start for the bins. */
  ghost predicate InZone(z: Zones, a: int, n: nat) {
    z(a) <= a && a + n < z(a) + SIZE_LIMIT && forall x :: a <= x <= a + n ==> z(x) == z(a)
  }

  lemma ZonePart(z: Zones, a: int, n: nat, b: int, k: nat)
    requires InZone(z, a, n) && a <= b && b + k <= a + n
    ensures InZone(z, b, k)
  {
    assert z(b) == z(a);
  }

  lemma ZoneJoin(z: Zones, a: int, n: nat, k: nat)
    requires InZone(z, a, n) && InZone(z, a + n, k)
    ensures InZone(z, a, n + k)
  {
    assert z(a + n) == z(a);
    forall x | a <= x <= a + n + k ensures z(x) == z(a) {
      assert x <= a + n || z(x) == z(a + n);
    }
  }

  /** What a chunk needs; the top chunk has a foot behind it. */
  function Span(c: Chunks, p: int, top: int): nat
    requires p in c
  {
    c[p].size + if p == top then TOP_FOOT else 0
  }

  ghost predicate Sized(c: Chunks, top: int, z: Zones) {
    forall p :: p in c ==>
      && 0 < p && p % ALIGNMENT == 0 && c[p].size % ALIGNMENT == 0
      && c[p].size >= (if p == top then ALIGNMENT else MIN_CHUNK)
      && InZone(z, p, Span(c, p, top))
  }

  predicate Separate(c: Chunks) {
    forall p, q :: p in c && q in c && p < q ==> p + c[p].size <= q
  }

  /** After every chunk but the top one comes a chunk, or the fence at the end of a segment. */
  predicate Chained(c: Chunks, top: int, fences: set<int>) {
    forall p :: p in c && p != top ==> p + c[p].size in c || (c[p].used && p + c[p].size in fences)
  }

  predicate Flagged(c: Chunks) {
    forall p :: p in c && p + c[p].size in c ==> c[p + c[p].size].pinuse == c[p].used
  }

  ghost predicate HasPrevious(c: Chunks, q: int) { exists p :: p in c && p + c[p].size == q && !c[p].used }

  ghost predicate Preceded(c: Chunks) {
    forall q :: q in c && !c[q].pinuse ==> HasPrevious(c, q)
  }

  predicate TopLast(c: Chunks, top: int, fences: set<int>) {
    && top in c && !c[top].used && top + c[top].size !in c && top + c[top].size !in fences
    && (forall f :: f in fences ==> f !in c)
    && FencesOutside(c, fences) && RoomAfter(c, top, fences)
  }

  /** The padding behind the top chunk (`TOP_FOOT_SIZE`), where a segment record and fences fit. */
  const TOP_FOOT: nat := 80

  predicate RoomAfter(c: Chunks, top: int, fences: set<int>)
    requires top in c
  {
    && (forall q :: q in c && q > top ==> q >= top + c[top].size + TOP_FOOT)
    && (forall f :: f in fences && f > top ==> f >= top + c[top].size + TOP_FOOT)
  }

  /** No fence stands inside a chunk. */
  predicate FencesOutside(c: Chunks, fences: set<int>) {
    forall f, p :: f in fences && p in c ==> f <= p || p + c[p].size <= f
  }

  ghost predicate Tiled(c: Chunks, top: int, fences: set<int>, z: Zones) {
    Sized(c, top, z) && Separate(c) && Chained(c, top, fences) && Flagged(c) && Preceded(c)
      && TopLast(c, top, fences)
  }

  /** No two free chunks are neighbours. */
  predicate NoFreePair(c: Chunks) { forall p :: p in c && !c[p].used ==> c[p].pinuse }

  // ---- the three changes ----

  function WithPrevious(c: Chunks, n: int, used: bool): Chunks {
    if n in c then c[n := c[n].(pinuse := used)] else c
  }

  /** A chunk comes into use, or goes out of use. */
  function SetUsed(c: Chunks, p: int, used: bool): Chunks
    requires p in c
  {
    WithPrevious(c[p := c[p].(used := used)], End(c, p), used)
  }

  /** A chunk is cut in two, both in the same state. */
  function Split(c: Chunks, p: int, nb: nat): Chunks
    requires p in c && nb <= c[p].size
  {
    var x := c[p];
    c[p := x.(size := nb)][p + nb := Chunk(x.size - nb, x.used, x.used)]
  }

  /** A chunk takes in the one after it. */
  function Join(c: Chunks, p: int): Chunks
    requires p in c && End(c, p) in c
  {
    var q := End(c, p);
    WithPrevious((c - {q})[p := c[p].(size := c[p].size + c[q].size)], End(c, q), c[p].used)
  }

  predicate Positive(c: Chunks) { forall p :: p in c ==> c[p].size > 0 }

  lemma SizedPositive(c: Chunks, top: int, z: Zones)
    requires Sized(c, top, z)
    ensures Positive(c)
  {
  }

  lemma SizedAt(c: Chunks, top: int, z: Zones, p: int)
    requires Sized(c, top, z) && p in c
    ensures 0 < p && p % ALIGNMENT == 0 && c[p].size % ALIGNMENT == 0
        && c[p].size >= (if p == top then ALIGNMENT else MIN_CHUNK)
    ensures InZone(z, p, Span(c, p, top))
  {
    hide InZone;
  }

  /** Only one chunk ends where another starts. */
  lemma OneBefore(c: Chunks, p: int, q: int)
    requires Separate(c) && Positive(c) && p in c && q in c && q + c[q].size == p + c[p].size
    ensures p == q
  {
  }

  lemma Inside(c: Chunks, p: int, a: int)
    requires Separate(c) && p in c && p < a < p + c[p].size
    ensures a !in c
  {
  }

  // ---- coming into use and going out of use ----

  lemma SetUsedShape(c: Chunks, p: int, used: bool)
    requires p in c && c[p].size > 0
    ensures var d := SetUsed(c, p, used);
            && d.Keys == c.Keys && d[p].used == used && (End(c, p) in c ==> d[End(c, p)].pinuse == used)
            && forall q :: q in c ==>
                  d[q].size == c[q].size && (q != p ==> d[q].used == c[q].used)
                  && (q != End(c, p) ==> d[q].pinuse == c[q].pinuse)
  {
  }

  lemma SetUsedPlaces(c: Chunks, d: Chunks, top: int, fences: set<int>, z: Zones)
    requires d.Keys == c.Keys && forall q :: q in c ==> d[q].size == c[q].size
    ensures Sized(c, top, z) ==> Sized(d, top, z)
    ensures Separate(c) ==> Separate(d)
    ensures FencesOutside(c, fences) ==> FencesOutside(d, fences)
    ensures top in c && RoomAfter(c, top, fences) ==> RoomAfter(d, top, fences)
  {
    hide InZone;
  }

  lemma SetUsedChained(c: Chunks, d: Chunks, p: int, top: int, fences: set<int>)
    requires p in c && d.Keys == c.Keys
        && (forall q :: q in c ==> d[q].size == c[q].size && (q != p ==> d[q].used == c[q].used))
    requires Chained(c, top, fences) && (!d[p].used ==> End(c, p) !in fences)
    ensures Chained(d, top, fences)
  {
  }

  lemma SetUsedFlagged(c: Chunks, p: int, used: bool)
    requires p in c && Positive(c) && Separate(c) && Flagged(c)
    ensures Flagged(SetUsed(c, p, used))
  {
    hide SetUsed;
    SetUsedShape(c, p, used);
    var d := SetUsed(c, p, used);
    forall q | q in d && q + d[q].size in d ensures d[q + d[q].size].pinuse == d[q].used {
      var n := q + c[q].size;
      if n == End(c, p) {
        OneBefore(c, p, q);
      }
    }
  }

  lemma SetUsedPreceded(c: Chunks, p: int, used: bool)
    requires p in c && Positive(c) && Preceded(c) && Separate(c)
    ensures Preceded(SetUsed(c, p, used))
  {
    hide SetUsed;
    SetUsedShape(c, p, used);
    var d := SetUsed(c, p, used);
    forall q | q in d && !d[q].pinuse ensures HasPrevious(d, q) {
      if q == End(c, p) {
        assert p in d && p + d[p].size == q && !d[p].used;
      } else {
        assert HasPrevious(c, q);
        var r :| r in c && r + c[r].size == q && !c[r].used;
        assert r in d && r + d[r].size == q && !d[r].used;
      }
    }
  }

  lemma {:induction false} SetUsedTiled(c: Chunks, p: int, used: bool, top: int, fences: set<int>, z: Zones)
    requires Tiled(c, top, fences, z) && p in c && p != top && (!used ==> End(c, p) !in fences)
    ensures Tiled(SetUsed(c, p, used), top, fences, z)
  {
    hide Sized, Separate, Chained, Flagged, Preceded, SetUsed, FencesOutside, RoomAfter;
    var d := SetUsed(c, p, used);
    SizedPositive(c, top, z);
    SetUsedShape(c, p, used);
    SetUsedPlaces(c, d, top, fences, z);
    SetUsedChained(c, d, p, top, fences);
    SetUsedFlagged(c, p, used);
    SetUsedPreceded(c, p, used);
  }

  // ---- cutting ----

  lemma SplitShape(c: Chunks, p: int, nb: nat)
    requires p in c && 0 < nb < c[p].size
    ensures var d, r := Split(c, p, nb), p + nb;
            && d.Keys == c.Keys + {r} && d[p] == c[p].(size := nb)
              && d[r] == Chunk(c[p].size - nb, c[p].used, c[p].used)
            && forall q :: q in c && q != p && q != r ==> d[q] == c[q]
  {
  }

  lemma SplitSized(c: Chunks, p: int, nb: nat, top: int, z: Zones)
    requires Sized(c, top, z) && p in c && top in c && nb % ALIGNMENT == 0 && MIN_CHUNK <= nb
    requires if p == top then nb + ALIGNMENT <= c[p].size else nb + MIN_CHUNK <= c[p].size
    requires p + nb !in c
    ensures Sized(Split(c, p, nb), if p == top then p + nb else top, z)
  {
    hide Split, InZone;
    SplitShape(c, p, nb);
    SizedAt(c, top, z, p);
    AlignedSum(p, nb, c[p].size);
    var d, r, top1 := Split(c, p, nb), p + nb, if p == top then p + nb else top;
    forall q | q in d
      ensures 0 < q && q % ALIGNMENT == 0 && d[q].size % ALIGNMENT == 0
        && d[q].size >= (if q == top1 then ALIGNMENT else MIN_CHUNK) && InZone(z, q, Span(d, q, top1))
    {
      if q == r {
        assert d[r].size == c[p].size - nb;
        ZonePart(z, p, Span(c, p, top), r, Span(d, r, top1));
      } else if q == p {
        ZonePart(z, p, Span(c, p, top), p, nb);
      } else {
        assert q in c && d[q] == c[q];
        SizedAt(c, top, z, q);
      }
    }
  }

  lemma AlignedSum(p: int, nb: int, size: int)
    requires p % 16 == 0 && nb % 16 == 0 && size % 16 == 0
    ensures (p + nb) % 16 == 0 && (size - nb) % 16 == 0 && (size + nb) % 16 == 0
  {
  }

  lemma SplitSeparate(c: Chunks, p: int, nb: nat)
    requires Separate(c) && p in c && 0 < nb < c[p].size
    ensures Separate(Split(c, p, nb))
  {
  }

  lemma SplitChained(c: Chunks, p: int, nb: nat, top: int, fences: set<int>)
    requires Chained(c, top, fences) && p in c && 0 < nb < c[p].size && p + nb !in c
        && (p != top ==> End(c, p) !in fences)
    ensures Chained(Split(c, p, nb), if p == top then p + nb else top, fences)
  {
    hide Split;
    SplitShape(c, p, nb);
    var d, r, top1 := Split(c, p, nb), p + nb, if p == top then p + nb else top;
    forall q | q in d && q != top1 ensures q + d[q].size in d || (d[q].used && q + d[q].size in fences) {
      if q == p {
        assert q + d[q].size == r;
      } else if q == r {
        assert q + d[q].size == p + c[p].size;
      } else {
        assert q in c && q != top;
      }
    }
  }

  lemma FlaggedAt(c: Chunks, p: int)
    requires Flagged(c) && p in c && End(c, p) in c
    ensures c[End(c, p)].pinuse == c[p].used
  {
  }

  lemma FlaggedIs(c: Chunks)
    requires forall p :: p in c && End(c, p) in c ==> c[End(c, p)].pinuse == c[p].used
    ensures Flagged(c)
  {
    assert forall p :: p in c ==> End(c, p) == p + c[p].size;
  }

  lemma SplitFlagged(c: Chunks, p: int, nb: nat)
    requires Separate(c) && Flagged(c) && Positive(c) && p in c && 0 < nb < c[p].size && p + nb !in c
    ensures Flagged(Split(c, p, nb))
  {
    hide *;
    SplitShape(c, p, nb);
    var d := Split(c, p, nb);
    forall q | q in d && End(d, q) in d ensures d[End(d, q)].pinuse == d[q].used {
      SplitFlaggedAt(c, p, nb, q);
    }
    FlaggedIs(d);
  }

  lemma SplitFlaggedAt(c: Chunks, p: int, nb: nat, q: int)
    requires Separate(c) && Flagged(c) && Positive(c) && p in c && 0 < nb < c[p].size && p + nb !in c
    requires q in Split(c, p, nb) && End(Split(c, p, nb), q) in Split(c, p, nb)
    ensures Split(c, p, nb)[End(Split(c, p, nb), q)].pinuse == Split(c, p, nb)[q].used
  {
    hide Split, Flagged, Separate, Positive;
    SplitShape(c, p, nb);
    if q == p + nb {
      PositiveAt(c, p);
      FlaggedAt(c, p);
    } else if q != p {
      ApartAt(c, p, q);
      PositiveAt(c, q);
      FlaggedAt(c, q);
    }
  }

  lemma PositiveAt(c: Chunks, p: int)
    requires Positive(c) && p in c
    ensures c[p].size > 0
  {
  }

  lemma ApartAt(c: Chunks, p: int, q: int)
    requires Separate(c) && p in c && q in c && p != q
    ensures p + c[p].size <= q || q + c[q].size <= p
  {
  }

  lemma SplitPreceded(c: Chunks, p: int, nb: nat)
    requires Preceded(c) && p in c && 0 < nb < c[p].size && p + nb !in c
    ensures Preceded(Split(c, p, nb))
  {
    hide Split;
    SplitShape(c, p, nb);
    var d, r := Split(c, p, nb), p + nb;
    forall q | q in d && !d[q].pinuse ensures HasPrevious(d, q) {
      if q == r {
        assert p in d && p + d[p].size == q && !d[p].used;
      } else {
        assert HasPrevious(c, q);
        var s :| s in c && s + c[s].size == q && !c[s].used;
        if s == p {
          assert r in d && r + d[r].size == q && !d[r].used;
        } else {
          assert s in d && s + d[s].size == q && !d[s].used;
        }
      }
    }
  }

  lemma SplitFences(c: Chunks, p: int, nb: nat, fences: set<int>)
    requires FencesOutside(c, fences) && p in c && 0 < nb < c[p].size
    ensures p + nb !in fences && FencesOutside(Split(c, p, nb), fences)
  {
  }

  lemma SplitRoom(c: Chunks, p: int, nb: nat, top: int, fences: set<int>)
    requires top in c && RoomAfter(c, top, fences) && Separate(c) && FencesOutside(c, fences) && p in c
        && 0 < nb < c[p].size && p + nb !in c
    ensures var d, top1 := Split(c, p, nb), if p == top then p + nb else top; top1 in d && RoomAfter(d, top1, fences)
  {
    hide Split;
    SplitShape(c, p, nb);
    var d, top1 := Split(c, p, nb), if p == top then p + nb else top;
    assert p < top ==> p + c[p].size <= top;
    forall q | q in d && q > top1 ensures q >= top1 + d[top1].size + TOP_FOOT {
    }
  }

  lemma {:induction false} SplitTiled(c: Chunks, p: int, nb: nat, top: int, fences: set<int>, z: Zones)
    requires Tiled(c, top, fences, z) && p in c && nb % ALIGNMENT == 0 && MIN_CHUNK <= nb
    requires if p == top then nb + ALIGNMENT <= c[p].size else nb + MIN_CHUNK <= c[p].size && End(c, p) !in fences
    ensures p + nb !in c && p + nb !in fences
    ensures Tiled(Split(c, p, nb), if p == top then p + nb else top, fences, z)
  {
    hide Sized, Separate, Chained, Flagged, Preceded, Split, FencesOutside, RoomAfter;
    SizedPositive(c, top, z);
    Inside(c, p, p + nb);
    SplitFences(c, p, nb, fences);
    SplitRoom(c, p, nb, top, fences);
    SplitShape(c, p, nb);
    SplitSized(c, p, nb, top, z);
    SplitSeparate(c, p, nb);
    SplitChained(c, p, nb, top, fences);
    SplitFlagged(c, p, nb);
    SplitPreceded(c, p, nb);
  }

  // ---- joining ----

  lemma JoinShape(c: Chunks, p: int)
    requires p in c && End(c, p) in c && Positive(c)
    ensures var q := End(c, p);
            var d, n := Join(c, p), End(c, q);
            && d.Keys == c.Keys - {q} && p != q && n != p && n != q
            && d[p] == c[p].(size := c[p].size + c[q].size) && (n in c ==> d[n] == c[n].(pinuse := c[p].used))
            && forall s :: s in c && s != p && s != q && s != n ==> d[s] == c[s]
  {
  }

  lemma JoinSized(c: Chunks, p: int, top: int, z: Zones)
    requires Sized(c, top, z) && p in c && End(c, p) in c && p != top
    ensures Sized(Join(c, p), if End(c, p) == top then p else top, z)
  {
    hide Join, InZone;
    SizedPositive(c, top, z);
    JoinShape(c, p);
    SizedAt(c, top, z, p);
    SizedAt(c, top, z, End(c, p));
    AlignedSum(p, c[End(c, p)].size, c[p].size);
    ZoneJoin(z, p, c[p].size, Span(c, End(c, p), top));
  }

  lemma JoinSeparate(c: Chunks, p: int)
    requires Separate(c) && p in c && End(c, p) in c && Positive(c)
    ensures Separate(Join(c, p))
  {
    hide Join;
    JoinShape(c, p);
    var d, q := Join(c, p), End(c, p);
    forall x, y | x in d && y in d && x < y ensures x + d[x].size <= y {
      if x == p {
        assert p + c[p].size <= y && q < y;
        assert q + c[q].size <= y;
      } else {
        assert x + c[x].size <= y;
      }
    }
  }

  lemma JoinChained(c: Chunks, p: int, top: int, fences: set<int>)
    requires Chained(c, top, fences) && Separate(c) && Positive(c) && p in c && End(c, p) in c && p != top
    requires !c[p].used ==> End(c, End(c, p)) !in fences
    requires End(c, p) == top ==> !c[p].used
    ensures Chained(Join(c, p), if End(c, p) == top then p else top, fences)
  {
    hide Join;
    JoinShape(c, p);
    var q := End(c, p);
    var d, top1 := Join(c, p), if q == top then p else top;
    forall s | s in d && s != top1 ensures s + d[s].size in d || (d[s].used && s + d[s].size in fences) {
      if s == p {
        assert s + d[s].size == q + c[q].size;
      } else {
        assert s + c[s].size == q ==> s == p by {
          if s + c[s].size == q { OneBefore(c, p, s); }
        }
      }
    }
  }

  lemma JoinFlagged(c: Chunks, p: int)
    requires Flagged(c) && Separate(c) && Positive(c) && p in c && End(c, p) in c
    ensures Flagged(Join(c, p))
  {
    hide *;
    JoinShape(c, p);
    var d := Join(c, p);
    forall s | s in d && End(d, s) in d ensures d[End(d, s)].pinuse == d[s].used {
      JoinFlaggedAt(c, p, s);
    }
    FlaggedIs(d);
  }

  lemma JoinFlaggedAt(c: Chunks, p: int, s: int)
    requires Flagged(c) && Separate(c) && Positive(c) && p in c && End(c, p) in c
    requires s in Join(c, p) && End(Join(c, p), s) in Join(c, p)
    ensures Join(c, p)[End(Join(c, p), s)].pinuse == Join(c, p)[s].used
  {
    hide Join, Flagged, Separate, Positive;
    JoinShape(c, p);
    if s != p {
      if End(c, s) == End(c, End(c, p)) {
        OneBefore(c, End(c, p), s);
      }
      FlaggedAt(c, s);
    }
  }

  lemma JoinPreceded(c: Chunks, p: int)
    requires Preceded(c) && Separate(c) && Positive(c) && p in c && End(c, p) in c
    ensures Preceded(Join(c, p))
  {
    hide Join, Separate, Positive;
    JoinShape(c, p);
    var q := End(c, p);
    var d, n := Join(c, p), End(c, q);
    forall s | s in d && !d[s].pinuse ensures HasPrevious(d, s) {
      if s == n {
        assert p in d && p + d[p].size == s && !d[p].used;
      } else {
        assert HasPrevious(c, s);
        var r :| r in c && r + c[r].size == s && !c[r].used;
        assert r != p && r != q;
        assert r in d && r + d[r].size == s && !d[r].used;
      }
    }
  }

  lemma JoinFences(c: Chunks, p: int, fences: set<int>)
    requires FencesOutside(c, fences) && p in c && End(c, p) in c && Positive(c) && End(c, p) !in fences
    ensures FencesOutside(Join(c, p), fences)
  {
    hide Join;
    JoinShape(c, p);
    var d, q := Join(c, p), End(c, p);
    forall f, x | f in fences && x in d ensures f <= x || x + d[x].size <= f {
      if x == p {
        assert f <= q || q + c[q].size <= f;
        assert f <= p || p + c[p].size <= f;
      }
    }
  }

  lemma JoinRoom(c: Chunks, p: int, top: int, fences: set<int>)
    requires top in c && RoomAfter(c, top, fences) && Separate(c) && Positive(c) && FencesOutside(c, fences) && p in c
        && End(c, p) in c && p != top
    requires End(c, p) !in fences
    ensures var d, top1 := Join(c, p), if End(c, p) == top then p else top; top1 in d && RoomAfter(d, top1, fences)
  {
    hide Join;
    JoinShape(c, p);
    var d, top1 := Join(c, p), if End(c, p) == top then p else top;
    forall q | q in d && q > top1 ensures q >= top1 + d[top1].size + TOP_FOOT {
      if top1 == p {
        assert p + c[p].size <= q;
      }
    }
    forall f | f in fences && f > top1 ensures f >= top1 + d[top1].size + TOP_FOOT {
      if top1 == p {
        assert f <= p || p + c[p].size <= f;
      }
    }
  }

  lemma {:induction false} JoinTiled(c: Chunks, p: int, top: int, fences: set<int>, z: Zones)
    requires Tiled(c, top, fences, z) && p in c && p != top && End(c, p) in c
    requires End(c, p) == top ==> !c[p].used
    requires !c[p].used ==> End(c, End(c, p)) !in fences
    ensures Tiled(Join(c, p), if End(c, p) == top then p else top, fences, z)
  {
    hide Sized, Separate, Chained, Flagged, Preceded, Join, FencesOutside, RoomAfter;
    SizedPositive(c, top, z);
    JoinFences(c, p, fences);
    JoinRoom(c, p, top, fences);
    JoinShape(c, p);
    JoinSized(c, p, top, z);
    JoinSeparate(c, p);
    JoinChained(c, p, top, fences);
    JoinFlagged(c, p);
    JoinPreceded(c, p);
    if End(c, p) != top && End(c, End(c, p)) == top + c[top].size {
      assert false by { NotTopEnd(c, p, top); }
    }
  }

  lemma NotTopEnd(c: Chunks, p: int, top: int)
    requires Separate(c) && Positive(c) && p in c && End(c, p) in c && top in c && End(c, p) != top
    ensures End(c, End(c, p)) != top + c[top].size
  {
    if End(c, End(c, p)) == top + c[top].size {
      OneBefore(c, top, End(c, p));
    }
  }

  // ---- the memory that the chunks take up ----

  ghost predicate Covered(c: Chunks, x: int) { exists p :: p in c && p <= x < p + c[p].size }

  /** The same addresses belong to chunks. */
  ghost predicate SameCover(c: Chunks, d: Chunks) { forall x :: Covered(c, x) <==> Covered(d, x) }

  lemma SameCoverThen(c: Chunks, d: Chunks, e: Chunks)
    requires SameCover(c, d) && SameCover(d, e)
    ensures SameCover(c, e)
  {
    hide Covered;
  }

  lemma SetUsedCover(c: Chunks, p: int, used: bool)
    requires p in c && c[p].size > 0
    ensures SameCover(c, SetUsed(c, p, used))
  {
    hide SetUsed;
    SetUsedShape(c, p, used);
    var d := SetUsed(c, p, used);
    forall x ensures Covered(c, x) <==> Covered(d, x) {
      if Covered(c, x) {
        var q :| q in c && q <= x < q + c[q].size;
        assert q in d && q <= x < q + d[q].size;
      }
      if Covered(d, x) {
        var q :| q in d && q <= x < q + d[q].size;
        assert q in c && q <= x < q + c[q].size;
      }
    }
  }

  lemma SplitCover(c: Chunks, p: int, nb: nat)
    requires p in c && 0 < nb < c[p].size && p + nb !in c
    ensures SameCover(c, Split(c, p, nb))
  {
    hide Split;
    SplitShape(c, p, nb);
    var d, r := Split(c, p, nb), p + nb;
    forall x ensures Covered(c, x) <==> Covered(d, x) {
      if Covered(c, x) {
        var q :| q in c && q <= x < q + c[q].size;
        if q != p {
          assert q in d && q <= x < q + d[q].size;
        } else if x < r {
          assert p in d && p <= x < p + d[p].size;
        } else {
          assert r in d && r <= x < r + d[r].size;
        }
      }
      if Covered(d, x) {
        var q :| q in d && q <= x < q + d[q].size;
        if q == p || q == r {
          assert p in c && p <= x < p + c[p].size;
        } else {
          assert q in c && q <= x < q + c[q].size;
        }
      }
    }
  }

  lemma JoinCover(c: Chunks, p: int)
    requires p in c && End(c, p) in c && Positive(c)
    ensures SameCover(c, Join(c, p))
  {
    hide Join;
    JoinShape(c, p);
    var d, q := Join(c, p), End(c, p);
    forall x ensures Covered(c, x) <==> Covered(d, x) {
      if Covered(c, x) {
        var s :| s in c && s <= x < s + c[s].size;
        if s == p || s == q {
          assert p in d && p <= x < p + d[p].size;
        } else {
          assert s in d && s <= x < s + d[s].size;
        }
      }
      if Covered(d, x) {
        var s :| s in d && s <= x < s + d[s].size;
        if s != p {
          assert s in c && s <= x < s + c[s].size;
        } else if x < q {
          assert p in c && p <= x < p + c[p].size;
        } else {
          assert q in c && q <= x < q + c[q].size;
        }
      }
    }
  }
}
