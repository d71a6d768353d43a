/** The trees of free chunks of `dlmalloc.c`: tries on the bits of the size. A node may hold any size of its
    range; its subtrees hold the lower and the upper half of the range. Chunks of one size form a ring, of
    which only the first is a tree node. */
module SizeTrie {
  import opened Rounding

  datatype Tree = Leaf | Node(size: nat, ring: seq<int>, left: Tree, right: Tree)

  function Sizes(t: Tree): set<nat> {
    match t
    case Leaf => {}
    case Node(z, _, l, r) => {z} + Sizes(l) + Sizes(r)
  }

  /** Addresses of all chunks. */
  function Nodes(t: Tree): set<int> {
    match t
    case Leaf => {}
    case Node(_, ring, l, r) => (set p | p in ring) + Nodes(l) + Nodes(r)
  }

  /** The chunk at `p`, of size `z`, is in the tree. */
  predicate Holds(t: Tree, p: int, z: nat) {
    match t
    case Leaf => false
    case Node(size, ring, l, r) => (z == size && p in ring) || Holds(l, p, z) || Holds(r, p, z)
  }

  predicate NoDuplicates(s: seq<int>) { forall i, j :: 0 <= i < j < |s| ==> s[i] != s[j] }

  /** All sizes lie in [lo, lo + 2^b), and each size has one node. */
  predicate IsTrie(t: Tree, lo: nat, b: nat)
    decreases t
  {
    match t
    case Leaf => true
    case Node(z, ring, l, r) =>
      && lo <= z < lo + Pow2(b) && ring != [] && NoDuplicates(ring)
      && z !in Sizes(l) && z !in Sizes(r)
      && if b == 0 then l == Leaf && r == Leaf
         else IsTrie(l, lo, b - 1) && IsTrie(r, lo + Pow2(b - 1), b - 1)
  }

  /** The upper half of the range. */
  predicate Upper(s: nat, lo: nat, b: nat)
    requires b > 0
  {
    s >= lo + Pow2(b - 1)
  }

  lemma HalfRange(b: nat)
    ensures if b == 0 then Pow2(b) == 1 else Pow2(b) == 2 * Pow2(b - 1)
  {
  }

  lemma {:induction false} SizesInRange(t: Tree, lo: nat, b: nat)
    requires IsTrie(t, lo, b)
    ensures forall z :: z in Sizes(t) ==> lo <= z < lo + Pow2(b)
    decreases t
  {
    hide Pow2;
    if t.Node? && b > 0 {
      SizesInRange(t.left, lo, b - 1);
      SizesInRange(t.right, lo + Pow2(b - 1), b - 1);
      HalfRange(b);
    }
  }

  lemma {:induction false} HoldsSize(t: Tree, p: int, z: nat)
    requires Holds(t, p, z)
    ensures z in Sizes(t) && p in Nodes(t)
  {
    match t
    case Node(size, ring, l, r) =>
      if Holds(l, p, z) {
        HoldsSize(l, p, z);
      } else if Holds(r, p, z) {
        HoldsSize(r, p, z);
      }
  }

  lemma {:induction false} NodeHolds(t: Tree, p: int) returns (z: nat)
    requires p in Nodes(t)
    ensures Holds(t, p, z)
  {
    match t
    case Node(size, ring, l, r) =>
      if p in ring {
        z := size;
      } else if p in Nodes(l) {
        z := NodeHolds(l, p);
      } else {
        z := NodeHolds(r, p);
      }
  }

  // ---- insertion ----

  /** `insert_large_chunk`. */
  function Insert(t: Tree, s: nat, x: int, lo: nat, b: nat): Tree
    requires IsTrie(t, lo, b) && lo <= s < lo + Pow2(b)
    decreases t
  {
    match t
    case Leaf => Node(s, [x], Leaf, Leaf)
    case Node(z, ring, l, r) =>
      if z == s then Node(z, [ring[0], x] + ring[1..], l, r)
      else if b == 0 then t
      else
        assert Pow2(b) == 2 * Pow2(b - 1);
        if Upper(s, lo, b) then Node(z, ring, l, Insert(r, s, x, lo + Pow2(b - 1), b - 1))
        else Node(z, ring, Insert(l, s, x, lo, b - 1), r)
  }

  lemma {:induction false} InsertTrie(t: Tree, s: nat, x: int, lo: nat, b: nat)
    requires IsTrie(t, lo, b) && lo <= s < lo + Pow2(b) && !Holds(t, x, s)
    ensures IsTrie(Insert(t, s, x, lo, b), lo, b)
    ensures Sizes(Insert(t, s, x, lo, b)) == Sizes(t) + {s}
    ensures Nodes(Insert(t, s, x, lo, b)) == Nodes(t) + {x}
    ensures forall p, z :: Holds(Insert(t, s, x, lo, b), p, z) <==> Holds(t, p, z) || (p == x && z == s)
    decreases t
  {
    hide Pow2;
    HalfRange(b);
    if t.Node? {
      if t.size == s {
        InsertRing(t.ring, x);
      } else if b == 0 {
      } else if Upper(s, lo, b) {
        InsertTrie(t.right, s, x, lo + Pow2(b - 1), b - 1);
      } else {
        InsertTrie(t.left, s, x, lo, b - 1);
      }
    }
  }

  lemma InsertRing(ring: seq<int>, x: int)
    requires ring != [] && NoDuplicates(ring) && x !in ring
    ensures NoDuplicates([ring[0], x] + ring[1..])
    ensures forall p :: p in [ring[0], x] + ring[1..] <==> p in ring || p == x
    ensures (set p | p in [ring[0], x] + ring[1..]) == (set p | p in ring) + {x}
  {
    var s := [ring[0], x] + ring[1..];
    forall p ensures p in s <==> p in ring || p == x {
      if p in ring {
        var k :| 0 <= k < |ring| && ring[k] == p;
        assert if k == 0 then s[0] == p else s[k + 1] == p;
      }
      if p in s {
        var k :| 0 <= k < |s| && s[k] == p;
        assert k >= 2 ==> s[k] == ring[k - 1];
      }
    }
    forall i, j | 0 <= i < j < |s| ensures s[i] != s[j] {
      assert j >= 2 ==> s[j] == ring[j - 1];
      assert i >= 2 ==> s[i] == ring[i - 1];
    }
  }

  // ---- removal ----

  function Without(s: seq<int>, x: int): seq<int> {
    if s == [] then [] else if s[0] == x then s[1..] else [s[0]] + Without(s[1..], x)
  }

  /** The ring without `x`; when `x` was the tree node the chunk before it in the ring takes its place. */
  function RingWithout(ring: seq<int>, x: int): seq<int>
    requires |ring| > 1
  {
    if ring[0] == x then [ring[|ring| - 1]] + ring[1..|ring| - 1] else Without(ring, x)
  }

  /** A tree without the leaf that is reached by going right where possible, and that leaf. */
  function TakeLeaf(t: Tree): (r: (Tree, Tree))
    requires t.Node?
    ensures r.1.Node? && r.1.left == Leaf && r.1.right == Leaf
  {
    if t.right.Node? then
      var (rest, leaf) := TakeLeaf(t.right);
      (t.(right := rest), leaf)
    else if t.left.Node? then
      var (rest, leaf) := TakeLeaf(t.left);
      (t.(left := rest), leaf)
    else (Leaf, t)
  }

  /** A node without its last chunk: a leaf below it takes its place. */
  function Drop(l: Tree, r: Tree): Tree {
    if r.Node? then
      var (rest, leaf) := TakeLeaf(r);
      Node(leaf.size, leaf.ring, l, rest)
    else if l.Node? then
      var (rest, leaf) := TakeLeaf(l);
      Node(leaf.size, leaf.ring, rest, r)
    else Leaf
  }

  /** `unlink_large_chunk` at the node that holds `x`. */
  function UnlinkHere(t: Tree, x: int): Tree
    requires t.Node?
  {
    if |t.ring| > 1 then t.(ring := RingWithout(t.ring, x)) else Drop(t.left, t.right)
  }

  /** `unlink_large_chunk`. */
  function Unlink(t: Tree, s: nat, x: int, lo: nat, b: nat): Tree
    requires IsTrie(t, lo, b)
    decreases t
  {
    match t
    case Leaf => Leaf
    case Node(z, ring, l, r) =>
      if z == s then UnlinkHere(t, x)
      else if b == 0 then t
      else if Upper(s, lo, b) then Node(z, ring, l, Unlink(r, s, x, lo + Pow2(b - 1), b - 1))
      else Node(z, ring, Unlink(l, s, x, lo, b - 1), r)
  }

  lemma {:induction false} TakeLeafTrie(t: Tree, lo: nat, b: nat)
    requires t.Node? && IsTrie(t, lo, b)
    ensures var (rest, leaf) := TakeLeaf(t);
            && IsTrie(rest, lo, b) && leaf.size in Sizes(t) && leaf.ring != [] && NoDuplicates(leaf.ring)
            && Sizes(rest) == Sizes(t) - {leaf.size}
            && (forall p, z :: Holds(rest, p, z) <==> Holds(t, p, z) && z != leaf.size)
            && (forall p :: Holds(t, p, leaf.size) <==> p in leaf.ring)
    decreases t
  {
    hide Pow2;
    HalfRange(b);
    if t.left.Node? || t.right.Node? {
      SizesInRange(t.left, lo, b - 1);
      SizesInRange(t.right, lo + Pow2(b - 1), b - 1);
      NoOther(t.left);
      NoOther(t.right);
      if t.right.Node? {
        TakeLeafTrie(t.right, lo + Pow2(b - 1), b - 1);
      } else {
        TakeLeafTrie(t.left, lo, b - 1);
      }
    }
  }

  lemma NoOther(t: Tree)
    ensures forall p, z :: Holds(t, p, z) ==> z in Sizes(t)
  {
    forall p, z | Holds(t, p, z) ensures z in Sizes(t) {
      HoldsSize(t, p, z);
    }
  }

  lemma {:induction false} DropTrie(z: nat, l: Tree, r: Tree, lo: nat, b: nat)
    requires z !in Sizes(l) && z !in Sizes(r)
    requires if b == 0 then l == Leaf && r == Leaf else IsTrie(l, lo, b - 1) && IsTrie(r, lo + Pow2(b - 1), b - 1)
    ensures IsTrie(Drop(l, r), lo, b) && Sizes(Drop(l, r)) == Sizes(l) + Sizes(r)
    ensures forall p, y :: Holds(Drop(l, r), p, y) <==> Holds(l, p, y) || Holds(r, p, y)
  {
    hide Pow2;
    HalfRange(b);
    if b > 0 {
      SizesInRange(l, lo, b - 1);
      SizesInRange(r, lo + Pow2(b - 1), b - 1);
      NoOther(l);
      NoOther(r);
      if r.Node? {
        TakeLeafTrie(r, lo + Pow2(b - 1), b - 1);
      } else if l.Node? {
        TakeLeafTrie(l, lo, b - 1);
      }
    }
  }

  lemma {:induction false} WithoutIs(s: seq<int>, x: int)
    requires NoDuplicates(s)
    ensures NoDuplicates(Without(s, x)) && forall p :: p in Without(s, x) <==> p in s && p != x
  {
    if s != [] {
      assert NoDuplicates(s[1..]);
      WithoutIs(s[1..], x);
      assert forall p :: p in s <==> p == s[0] || p in s[1..];
      assert s[0] !in s[1..];
    }
  }

  lemma {:induction false} RingWithoutIs(ring: seq<int>, x: int)
    requires |ring| > 1 && NoDuplicates(ring) && x in ring
    ensures RingWithout(ring, x) != [] && NoDuplicates(RingWithout(ring, x))
    ensures forall p :: p in RingWithout(ring, x) <==> p in ring && p != x
  {
    if ring[0] == x {
      var s, m := RingWithout(ring, x), |ring| - 1;
      forall p ensures p in s <==> p in ring && p != x {
        if p in ring && p != x {
          var k :| 0 <= k < |ring| && ring[k] == p;
          assert k == m ==> s[0] == p;
          assert k < m ==> s[k] == p;
        }
        if p in s {
          var k :| 0 <= k < |s| && s[k] == p;
          assert k > 0 ==> s[k] == ring[k];
        }
      }
    } else {
      WithoutIs(ring, x);
      assert ring[0] in Without(ring, x);
    }
  }

  /** The chunk leaves its ring, or its whole node goes. */
  lemma {:induction false} UnlinkHereTrie(t: Tree, x: int, lo: nat, b: nat)
    requires t.Node? && IsTrie(t, lo, b) && Holds(t, x, t.size)
    ensures IsTrie(UnlinkHere(t, x), lo, b) && Sizes(UnlinkHere(t, x)) <= Sizes(t)
    ensures forall p, z :: Holds(UnlinkHere(t, x), p, z) <==> Holds(t, p, z) && !(p == x && z == t.size)
  {
    hide Pow2, Drop;
    NoOther(t.left);
    NoOther(t.right);
    if |t.ring| > 1 {
      RingWithoutIs(t.ring, x);
    } else {
      DropTrie(t.size, t.left, t.right, lo, b);
      assert t.ring == [x];
    }
  }

  lemma {:induction false} UnlinkTrie(t: Tree, s: nat, x: int, lo: nat, b: nat)
    requires IsTrie(t, lo, b) && Holds(t, x, s)
    ensures IsTrie(Unlink(t, s, x, lo, b), lo, b) && Sizes(Unlink(t, s, x, lo, b)) <= Sizes(t)
    ensures forall p, z :: Holds(Unlink(t, s, x, lo, b), p, z) <==> Holds(t, p, z) && !(p == x && z == s)
    decreases t
  {
    hide Pow2, UnlinkHere;
    HalfRange(b);
    NoOther(t.left);
    NoOther(t.right);
    if t.size == s {
      UnlinkHereTrie(t, x, lo, b);
    } else if b > 0 {
      SizesInRange(t.left, lo, b - 1);
      SizesInRange(t.right, lo + Pow2(b - 1), b - 1);
      if Upper(s, lo, b) {
        UnlinkTrie(t.right, s, x, lo + Pow2(b - 1), b - 1);
      } else {
        UnlinkTrie(t.left, s, x, lo, b - 1);
      }
    }
  }
}
