/** `insert_large_chunk` of `dlmalloc.c`: the walk down the trie and the links of the new chunk. */
module TreeInsert {
  import opened Rounding
  import opened BinIndex
  import opened SizeTrie
  import opened HeapWords
  import opened TreeLinks

  /** The chunk at `x` is about to enter bin `i`. */
  predicate Entering(m: Mem, x: int, s: nat, i: nat) {
    && x > 0 && SizeIn(Get(m, x + HEAD)) == s && Get(m, x + INDEX) == i
    && Get(m, x + CHILD0) == 0 && Get(m, x + CHILD1) == 0
  }

  function Fresh(m: Mem, x: int, i: nat): Mem { m[x + INDEX := i][x + CHILD0 := 0][x + CHILD1 := 0] }

  /** The chunk becomes a leaf, with its pointer in the word `slot`. */
  function NewLeaf(m: Mem, slot: int, x: int, parent: int): Mem {
    m[slot := x][x + PARENT := parent][x + FD := x][x + BK := x]
  }

  /** The chunk joins the ring of `t`. */
  function Joining(m: Mem, t: int, x: int): Mem { Linked(m, t, Get(m, t + FD), x)[x + PARENT := 0] }

  /** A tree and a chunk outside it, none of whose fields overlap. */
  ghost predicate Room(t: Tree, x: int, slot: int) {
    && x !in Nodes(t) && Spaced(Nodes(t) + {x}) && Clear(Nodes(t) + {x}, slot)
  }

  lemma RoomAt(t: Tree, x: int, slot: int, q: int)
    requires Room(t, x, slot) && q in Nodes(t)
    ensures Far(q, x) && (slot < q + 8 || q + 64 <= slot) && (slot < x + 8 || x + 64 <= slot)
  {
    assert x in Nodes(t) + {x} && q in Nodes(t) + {x};
  }

  lemma FreshKeeps(m: Mem, x: int, i: nat, s: nat, q: int)
    requires x > 0 && SizeIn(Get(m, x + HEAD)) == s
    ensures Entering(Fresh(m, x, i), x, s, i)
    ensures Far(q, x) ==> SameNode(m, Fresh(m, x, i), q)
  {
  }

  lemma LeafRep(m: Mem, slot: int, x: int, parent: int, s: nat, i: nat)
    requires Entering(m, x, s, i) && (slot < x + 8 || x + 64 <= slot)
    ensures var m1 := NewLeaf(m, slot, x, parent);
            Get(m1, slot) == x && Rep(m1, x, parent, Node(s, [x], Leaf, Leaf), i)
  {
    var m1 := NewLeaf(m, slot, x, parent);
    assert Joined(m1, x, x);
    assert Ring(m1, [x]);
  }

  /** Words of a chunk that is neither `x` nor the owner of the slot. */
  lemma LeafKeeps(m: Mem, slot: int, x: int, parent: int, q: int)
    requires Far(q, x) && (slot < q + 8 || q + 64 <= slot)
    ensures SameNode(m, NewLeaf(m, slot, x, parent), q)
  {
  }

  lemma LeafKeepsOwner(m: Mem, t: int, right: bool, x: int, parent: int)
    requires Far(t, x)
    ensures SameBut(m, NewLeaf(m, t + ChildField(right), x, parent), t, ChildField(right))
  {
  }

  /** A new leaf below a node of the tree. */
  lemma {:induction false} InsertLeaf(m: Mem, slot: int, t: Tree, i: nat, path: seq<bool>, right: bool, x: int, s: nat)
    requires Rep(m, Get(m, slot), slot, t, i) && Disjoint(t) && Room(t, x, slot) && Entering(m, x, s, i)
    requires IsPath(t, path) && Subtree(t, path).Node? && Subtree(t, path).ring != []
        && Child(Subtree(t, path), right) == Leaf
    ensures var a := Subtree(t, path).ring[0];
            var m1, leaf := NewLeaf(m, a + ChildField(right), x, a), Node(s, [x], Leaf, Leaf);
            Rep(m1, Get(m1, slot), slot, Replace(t, path, WithChild(Subtree(t, path), right, leaf)), i)
  {
    hide NewLeaf, Rep, SameNode, SameBut, Room, Entering, Disjoint;
    var a, leaf := Subtree(t, path).ring[0], Node(s, [x], Leaf, Leaf);
    var c := a + ChildField(right);
    var m1, path1 := NewLeaf(m, c, x, a), path + [right];
    PathDown(t, path, right, leaf);
    AboveInTree(t, path1);
    RoomAt(t, x, slot, a);
    LeafRep(m, c, x, a, s, i);
    LeafKeepsOwner(m, a, right, x, a);
    forall q | q in Nodes(t) && q != a ensures SameNode(m, m1, q) {
      RoomAt(t, x, slot, q);
      assert Far(q, a) by { SpacedAt(t, x, slot, q, a); }
      LeafKeeps(m, c, x, a, q);
    }
    LeafKeepsSlot(m, c, x, a, slot);
    RepReplace(m, m1, Get(m, slot), slot, t, i, path1, leaf);
  }

  lemma SpacedAt(t: Tree, x: int, slot: int, p: int, q: int)
    requires Room(t, x, slot) && p in Nodes(t) && q in Nodes(t) && p != q
    ensures Far(p, q)
  {
    assert p in Nodes(t) + {x} && q in Nodes(t) + {x};
  }

  lemma LeafKeepsSlot(m: Mem, c: int, x: int, parent: int, slot: int)
    requires slot != c && (slot < x + 8 || x + 64 <= slot)
    ensures Get(NewLeaf(m, c, x, parent), slot) == Get(m, slot)
  {
  }

  // ---- a chunk of a size that is already there ----

  /** All words of the chunk but its ring links. */
  predicate SameFields(m: Mem, m1: Mem, q: int) {
    && Get(m1, q + HEAD) == Get(m, q + HEAD) && Get(m1, q + INDEX) == Get(m, q + INDEX)
      && Get(m1, q + PARENT) == Get(m, q + PARENT)
    && Get(m1, q + CHILD0) == Get(m, q + CHILD0) && Get(m1, q + CHILD1) == Get(m, q + CHILD1)
  }

  lemma JoiningKeeps(m: Mem, t: int, x: int, q: int)
    requires Far(q, x)
    ensures var m1, f := Joining(m, t, x), Get(m, t + FD);
            && (Far(q, t) && Far(q, f) ==> SameNode(m, m1, q))
            && ((q == t || Far(q, t)) && (q == f || Far(q, f)) ==> SameFields(m, m1, q))
  {
    var f := Get(m, t + FD);
    JoiningWords(m, t, x);
    hide Joining, Get;
    var m1 := Joining(m, t, x);
    if Far(q, t) && Far(q, f) {
      assert forall a :: q + 8 <= a < q + 64 ==> Get(m1, a) == Get(m, a);
    }
  }

  lemma JoiningWords(m: Mem, t: int, x: int)
    ensures var m1, f := Joining(m, t, x), Get(m, t + FD);
            forall a :: a != t + FD && a != f + BK && a != x + FD && a != x + BK && a != x + PARENT ==>
              Get(m1, a) == Get(m, a)
  {
  }

  lemma JoiningOwn(m: Mem, t: int, x: int, z: nat, i: nat)
    requires Far(t, x) && Far(Get(m, t + FD), x) && Entering(m, x, z, i)
    ensures Entering(Joining(m, t, x), x, z, i) && Get(Joining(m, t, x), x + PARENT) == 0
  {
  }

  lemma {:induction false} JoinedNode(m: Mem, ring: seq<int>, z: nat, parent: int, i: nat, x: int)
    requires NodeOk(m, ring, z, parent, i) && Entering(m, x, z, i)
    requires forall p :: p in ring ==> Far(p, x)
    requires forall p, q :: p in ring && q in ring && p != q ==> Far(p, q)
    ensures NodeOk(Joining(m, ring[0], x), [ring[0], x] + ring[1..], z, parent, i)
  {
    hide Joining, Ring, Followers, SameFields, Entering;
    RingMembers(m, ring);
    var p, f := ring[0], Get(m, ring[0] + FD);
    var m1, s := Joining(m, p, x), [p, x] + ring[1..];
    FirstLink(m, ring);
    assert p in ring && f in ring;
    forall q | q in ring ensures SameFields(m, m1, q) {
      JoiningKeeps(m, p, x, q);
    }
    JoiningOwn(m, p, x, z, i);
    assert x !in ring by { assert !Far(x, x); }
    InsertRing(ring, x);
    forall q | q in s ensures q > 0 && SizeIn(Get(m1, q + HEAD)) == z && Get(m1, q + INDEX) == i {
      if q == x { EnteringIs(m1, x, z, i); } else { FieldsAt(m, m1, q); }
    }
    FieldsAt(m, m1, p);
    FollowersJoin(m, m1, ring, x, z, i);
    JoinedRing(m, ring, x);
  }

  lemma EnteringIs(m: Mem, x: int, z: nat, i: nat)
    requires Entering(m, x, z, i)
    ensures x > 0 && SizeIn(Get(m, x + HEAD)) == z && Get(m, x + INDEX) == i
  {
  }

  lemma FieldsAt(m: Mem, m1: Mem, q: int)
    requires SameFields(m, m1, q)
    ensures Get(m1, q + HEAD) == Get(m, q + HEAD) && Get(m1, q + INDEX) == Get(m, q + INDEX)
        && Get(m1, q + PARENT) == Get(m, q + PARENT)
  {
  }

  lemma FollowersJoin(m: Mem, m1: Mem, ring: seq<int>, x: int, z: nat, i: nat)
    requires ring != [] && Followers(m, ring) && Entering(m1, x, z, i) && Get(m1, x + PARENT) == 0
    requires forall q :: q in ring ==> SameFields(m, m1, q)
    ensures Followers(m1, [ring[0], x] + ring[1..])
  {
    var s := [ring[0], x] + ring[1..];
    forall k | 0 < k < |s| ensures Get(m1, s[k] + PARENT) == 0 && Get(m1, s[k] + CHILD0) == 0
        && Get(m1, s[k] + CHILD1) == 0 {
      if k > 1 { assert s[k] == ring[k - 1] && ring[k - 1] in ring; }
    }
  }

  lemma FirstLink(m: Mem, ring: seq<int>)
    requires Ring(m, ring)
    ensures Get(m, ring[0] + FD) in ring
  {
    assert Joined(m, ring[0], After(ring, 0));
  }

  lemma {:induction false} JoinedRing(m: Mem, ring: seq<int>, x: int)
    requires Ring(m, ring)
    requires forall p :: p in ring ==> Far(p, x)
    requires forall p, q :: p in ring && q in ring && p != q ==> Far(p, q)
    ensures Ring(Joining(m, ring[0], x), [ring[0], x] + ring[1..])
  {
    hide Linked, Ring;
    RingMembers(m, ring);
    var p, f, s := ring[0], Get(m, ring[0] + FD), [ring[0], x] + ring[1..];
    assert AllApart(ring) && ApartFrom(ring, x);
    RingInsert(m, ring, x);
    var m1 := Linked(m, p, f, x);
    forall q | q in s ensures Get(m1, q + FD) == Get(m1[x + PARENT := 0], q + FD)
        && Get(m1, q + BK) == Get(m1[x + PARENT := 0], q + BK) {
      assert q == x || q in ring by { InsertRing(ring, x); }
    }
    RingFrame(m1, m1[x + PARENT := 0], s);
  }

  lemma RingMembers(m: Mem, ring: seq<int>)
    requires Ring(m, ring)
    ensures ring != [] && NoDuplicates(ring)
  {
  }

  lemma {:induction false} DisjointSub(t: Tree, path: seq<bool>)
    requires IsPath(t, path) && Disjoint(t)
    ensures Disjoint(Subtree(t, path))
  {
    if path != [] {
      DisjointSub(Child(t, path[0]), path[1..]);
    }
  }

  /** The subtree whose root holds chunks of the same size. */
  lemma {:induction false} JoinedTree(m: Mem, p: int, parent: int, t: Tree, i: nat, x: int)
    requires Rep(m, p, parent, t, i) && t.Node? && Disjoint(t) && Entering(m, x, t.size, i)
    requires x !in Nodes(t) && Spaced(Nodes(t) + {x})
    ensures Rep(Joining(m, p, x), p, parent, t.(ring := [t.ring[0], x] + t.ring[1..]), i)
  {
    hide Joining, NodeOk, Ring, SameFields, Entering, Far, SameNode;
    var m1, f := Joining(m, p, x), Get(m, p + FD);
    NodeRing(m, t.ring, t.size, parent, i);
    FirstLink(m, t.ring);
    assert forall q :: q in t.ring ==> q in Nodes(t) + {x};
    assert p in t.ring && f in t.ring;
    JoinedNode(m, t.ring, t.size, parent, i, x);
    forall q | q in Nodes(t.left) || q in Nodes(t.right) ensures SameNode(m, m1, q) {
      assert q in Nodes(t) + {x} && q !in t.ring;
      JoiningKeeps(m, p, x, q);
    }
    JoiningKeepsHead(m, p, x);
    RepFrame(m, m1, Get(m, p + CHILD0), p, t.left, i);
    RepFrame(m, m1, Get(m, p + CHILD1), p, t.right, i);
  }

  lemma NodeRing(m: Mem, ring: seq<int>, z: nat, parent: int, i: nat)
    requires NodeOk(m, ring, z, parent, i)
    ensures Ring(m, ring)
  {
  }

  lemma JoiningKeepsHead(m: Mem, p: int, x: int)
    requires Far(p, x) && (Get(m, p + FD) == p || Far(p, Get(m, p + FD)))
    ensures Get(Joining(m, p, x), p + CHILD0) == Get(m, p + CHILD0)
        && Get(Joining(m, p, x), p + CHILD1) == Get(m, p + CHILD1)
  {
  }

  predicate ClearOf(q: int, a: int) { a < q + 8 || q + 64 <= a }

  lemma JoiningKeepsSlot(m: Mem, p: int, x: int, slot: int)
    requires ClearOf(p, slot) && ClearOf(x, slot) && ClearOf(Get(m, p + FD), slot)
    ensures Get(Joining(m, p, x), slot) == Get(m, slot)
  {
  }

  /** A chunk of a size that has a node. */
  lemma {:induction false} InsertJoin(m: Mem, slot: int, t: Tree, i: nat, path: seq<bool>, x: int)
    requires Rep(m, Get(m, slot), slot, t, i) && Disjoint(t) && Room(t, x, slot)
    requires IsPath(t, path) && Subtree(t, path).Node? && Subtree(t, path).ring != []
        && Entering(m, x, Subtree(t, path).size, i)
    ensures var sub := Subtree(t, path);
            var m1 := Joining(m, sub.ring[0], x);
            Rep(m1, Get(m1, slot), slot, Replace(t, path, sub.(ring := [sub.ring[0], x] + sub.ring[1..])), i)
  {
    hide Joining, Rep, SameNode, SameBut, Entering, Ring, NodeOk;
    var sub := Subtree(t, path);
    var p := sub.ring[0];
    var m1, grown := Joining(m, p, x), sub.(ring := [p, x] + sub.ring[1..]);
    SubtreeNodes(t, path);
    DisjointSub(t, path);
    assert p in sub.ring && p in Nodes(sub);
    var parent := if path == [] then slot else NodeAbove(t, path);
    if path != [] { RepSubtree(m, Get(m, slot), slot, t, i, path); }
    var at := if path == [] then Get(m, slot) else Get(m, parent + ChildField(Last(path)));
    RepRoot(m, at, parent, sub, i);
    assert Spaced(Nodes(sub) + {x}) by { assert forall q :: q in Nodes(sub) + {x} ==> q in Nodes(t) + {x}; }
    JoinedTree(m, p, parent, sub, i, x);
    RepRing(m, p, parent, sub, i);
    var f := Get(m, p + FD);
    assert f in Nodes(sub);
    assert x in Nodes(t) + {x};
    JoiningKeepsSlot(m, p, x, slot);
    if path != [] {
      AboveOutside(t, path);
      AboveInTree(t, path);
      forall q | q in Nodes(t) && q !in Nodes(sub) ensures SameNode(m, m1, q) {
        assert q in Nodes(t) + {x};
        JoiningKeeps(m, p, x, q);
      }
      SameIsBut(m, m1, parent, Last(path));
      RepReplace(m, m1, Get(m, slot), slot, t, i, path, grown);
    }
  }

  lemma RepRoot(m: Mem, p: int, parent: int, t: Tree, i: nat)
    requires Rep(m, p, parent, t, i) && t.Node?
    ensures t.ring != [] && p == t.ring[0]
  {
  }

  lemma RepRing(m: Mem, p: int, parent: int, t: Tree, i: nat)
    requires Rep(m, p, parent, t, i) && t.Node?
    ensures Get(m, p + FD) in t.ring
  {
    FirstLink(m, t.ring);
  }

  // ---- the walk ----

  lemma FreshRep(m: Mem, slot: int, t: Tree, i: nat, x: int, s: nat)
    requires Rep(m, Get(m, slot), slot, t, i) && Room(t, x, slot) && x > 0 && SizeIn(Get(m, x + HEAD)) == s
    ensures var m1 := Fresh(m, x, i);
            Rep(m1, Get(m1, slot), slot, t, i) && Entering(m1, x, s, i) && Get(m1, slot) == Get(m, slot)
  {
    hide Rep, Room, SameNode, Entering;
    var m1 := Fresh(m, x, i);
    FreshKeeps(m, x, i, s, x);
    forall q | q in Nodes(t) ensures SameNode(m, m1, q) {
      RoomAt(t, x, slot, q);
      FreshKeeps(m, x, i, s, q);
    }
    RoomSlot(t, x, slot);
    RepFrame(m, m1, Get(m, slot), slot, t, i);
  }

  lemma RoomSlot(t: Tree, x: int, slot: int)
    requires Room(t, x, slot)
    ensures slot < x + 8 || x + 64 <= slot
  {
    assert x in Nodes(t) + {x};
  }

  lemma EmptyTree(m: Mem, slot: int, x: int, s: nat, i: nat)
    requires Entering(m, x, s, i) && (slot < x + 8 || x + 64 <= slot)
    ensures var m1 := NewLeaf(m, slot, x, slot); Rep(m1, Get(m1, slot), slot, Node(s, [x], Leaf, Leaf), i)
  {
    hide NewLeaf, Rep, Entering;
    LeafRep(m, slot, x, slot, s, i);
  }

  /** Where the walk is: the subtree `sub` at the end of `path` has the range [lo, lo + 2^b). */
  ghost predicate Walking(t: Tree, s: nat, x: int, i: nat, path: seq<bool>, lo: nat, b: nat, key: nat)
    requires i < TREE_BINS && IsTrie(t, TrieLow(i), TrieBits(i)) && TrieLow(i) <= s < TrieLow(i) + Pow2(TrieBits(i))
  {
    && IsPath(t, path) && b <= 64 && IsTrie(Subtree(t, path), lo, b) && lo <= s < lo + Pow2(b) && key == Key(s, lo, b)
    && Insert(t, s, x, TrieLow(i), TrieBits(i)) == Replace(t, path, Insert(Subtree(t, path), s, x, lo, b))
  }

  lemma {:induction false} WalkDown(t: Tree, s: nat, x: int, i: nat, path: seq<bool>, lo: nat, b: nat, key: nat)
    requires i < TREE_BINS && IsTrie(t, TrieLow(i), TrieBits(i)) && TrieLow(i) <= s < TrieLow(i) + Pow2(TrieBits(i))
    requires Walking(t, s, x, i, path, lo, b, key) && Subtree(t, path).Node? && Subtree(t, path).size != s
    ensures b > 0
    ensures var right := TopBit(key);
            Walking(t, s, x, i, path + [right], if right then lo + Pow2(b - 1) else lo, b - 1, Doubled(key))
  {
    hide Pow2, Key;
    HalfRange(b);
    NextKey(s, lo, b);
    var sub, right := Subtree(t, path), TopBit(key);
    PathDown(t, path, right, Insert(Child(sub, right), s, x, if right then lo + Pow2(b - 1) else lo, b - 1));
  }

  lemma WalkStart(t: Tree, s: nat, x: int, i: nat)
    requires i < TREE_BINS && IsTrie(t, TrieLow(i), TrieBits(i)) && TrieLow(i) <= s < TrieLow(i) + Pow2(TrieBits(i))
    ensures Walking(t, s, x, i, [], TrieLow(i), TrieBits(i), StartKey(s, i))
  {
    FirstKey(s, i);
  }

  /** `insert_large_chunk`, in a bin that is marked if and only if its tree is not empty. */
  method InsertLarge(w: Words, slot: int, x: int, s: nat, i: nat, marked: bool, ghost t: Tree)
    requires i < TREE_BINS && marked == t.Node? && Rep(w.mem, Get(w.mem, slot), slot, t, i)
        && IsTrie(t, TrieLow(i), TrieBits(i))
    requires TrieLow(i) <= s < TrieLow(i) + Pow2(TrieBits(i))
    requires Room(t, x, slot) && x > 0 && SizeIn(Get(w.mem, x + HEAD)) == s
    modifies w
    ensures Rep(w.mem, Get(w.mem, slot), slot, Insert(t, s, x, TrieLow(i), TrieBits(i)), i)
    ensures OnlyLinks(old(w.mem), w.mem, Nodes(t) + {x}, slot)
  {
    hide *;
    ghost var all := Nodes(t) + {x};
    assert x in all;
    FreshFrame(w.mem, x, i, all, slot);
    TreeDisjoint(w.mem, Get(w.mem, slot), slot, t, i, TrieLow(i), TrieBits(i));
    FreshRep(w.mem, slot, t, i, x, s);
    w.mem := Fresh(w.mem, x, i);
    RoomSlot(t, x, slot);
    if !marked {
      EmptyTree(w.mem, slot, x, s, i);
      InsertEmpty(t, s, x, TrieLow(i), TrieBits(i));
      LeafFrame(w.mem, slot, x, slot, all, slot, x);
      OnlyLinksThen(old(w.mem), w.mem, NewLeaf(w.mem, slot, x, slot), all, slot);
      StoreLeaf(w, slot, x, slot);
      return;
    }
    var at: int, key: nat := Get(w.mem, slot), StartKey(s, i);
    ghost var m, path := w.mem, [];
    ghost var lo: nat, b: nat := TrieLow(i), TrieBits(i);
    WalkStart(t, s, x, i);
    WalkRoot(m, slot, t, i);
    while true
      invariant Walking(t, s, x, i, path, lo, b, key) && AtNode(m, t, i, path, at) && w.mem == m
      decreases b
    {
      NodeFacts(m, slot, t, i, path, at);
      ghost var sub := Subtree(t, path);
      if SizeIn(Get(w.mem, at + HEAD)) != s {
        WalkDown(t, s, x, i, path, lo, b, key);
        var right := TopBit(key);
        var c := at + ChildField(right);
        WalkPath(t, path, right, Node(s, [x], Leaf, Leaf), i);
        path, lo, b := path + [right], if right then lo + Pow2(b - 1) else lo, b - 1;
        key := Doubled(key);
        if Get(w.mem, c) != 0 {
          at := Get(w.mem, c);
          NodeIs(m, t, i, path, at);
        } else {
          InsertLeaf(m, slot, t, i, path[..|path| - 1], right, x, s);
          WalkLeaf(t, s, x, i, path, lo, b, key);
          assert path[..|path| - 1] + [right] == path;
          assert at in all by { NodeInTree(m, t, i, path[..|path| - 1], at); }
          ChildOffset(right);
          LeafFrame(m, c, x, at, all, slot, at);
          OnlyLinksThen(old(w.mem), m, NewLeaf(m, c, x, at), all, slot);
          StoreLeaf(w, c, x, at);
          return;
        }
      } else {
        WalkSame(t, s, x, i, path, lo, b, key);
        InsertJoin(m, slot, t, i, path, x);
        NodeInTree(m, t, i, path, at);
        NextInTree(m, slot, t, i, path, at);
        JoiningFrame(m, at, x, all, slot);
        OnlyLinksThen(old(w.mem), m, Joining(m, at, x), all, slot);
        StoreJoining(w, at, x);
        return;
      }
    }
  }

  // ---- nothing else changes ----

  lemma ChildOffset(right: bool)
    ensures 16 <= ChildField(right) < 64
  {
  }

  lemma FreshFrame(m: Mem, x: int, i: nat, s: set<int>, slot: int)
    requires x in s
    ensures OnlyLinks(m, Fresh(m, x, i), s, slot)
  {
  }

  lemma LeafFrame(m: Mem, c: int, x: int, parent: int, s: set<int>, slot: int, q: int)
    requires x in s && q in s && (c == slot || q + 16 <= c < q + 64)
    ensures OnlyLinks(m, NewLeaf(m, c, x, parent), s, slot)
  {
  }

  lemma JoiningFrame(m: Mem, t: int, x: int, s: set<int>, slot: int)
    requires t in s && x in s && Get(m, t + FD) in s
    ensures OnlyLinks(m, Joining(m, t, x), s, slot)
  {
  }

  lemma OnlyLinksThen(m: Mem, m1: Mem, m2: Mem, s: set<int>, slot: int)
    requires OnlyLinks(m, m1, s, slot) && OnlyLinks(m1, m2, s, slot)
    ensures OnlyLinks(m, m2, s, slot)
  {
    forall a | a != slot && Get(m2, a) != Get(m, a) ensures exists q :: q in s && q + 16 <= a < q + 64 {
      assert Get(m1, a) != Get(m, a) || Get(m2, a) != Get(m1, a);
    }
  }

  lemma NodeInTree(m: Mem, t: Tree, i: nat, path: seq<bool>, at: int)
    requires IsPath(t, path) && Subtree(t, path).Node? && Subtree(t, path).ring != [] && at == Subtree(t, path).ring[0]
    ensures at in Nodes(t)
  {
    SubtreeNodes(t, path);
    assert at in Subtree(t, path).ring;
  }

  lemma NextInTree(m: Mem, slot: int, t: Tree, i: nat, path: seq<bool>, at: int)
    requires Rep(m, Get(m, slot), slot, t, i) && AtNode(m, t, i, path, at)
    ensures Get(m, at + FD) in Nodes(t)
  {
    var sub := Subtree(t, path);
    SubtreeNodes(t, path);
    var parent := if path == [] then slot else NodeAbove(t, path);
    if path != [] { RepSubtree(m, Get(m, slot), slot, t, i, path); }
    var p := if path == [] then Get(m, slot) else Get(m, parent + ChildField(Last(path)));
    RepRing(m, p, parent, sub, i);
  }

  method StoreLeaf(w: Words, slot: int, x: int, parent: int)
    modifies w
    ensures w.mem == NewLeaf(old(w.mem), slot, x, parent)
  {
    w.mem := w.mem[slot := x];
    w.mem := w.mem[x + PARENT := parent];
    w.mem := w.mem[x + FD := x][x + BK := x];
  }

  method StoreJoining(w: Words, t: int, x: int)
    modifies w
    ensures w.mem == Joining(old(w.mem), t, x)
  {
    var f := Get(w.mem, t + FD);
    w.mem := w.mem[t + FD := x][f + BK := x];
    w.mem := w.mem[x + FD := f];
    w.mem := w.mem[x + BK := t];
    w.mem := w.mem[x + PARENT := 0];
  }

  /** The pointer of the walk. */
  ghost predicate AtNode(m: Mem, t: Tree, i: nat, path: seq<bool>, at: int) {
    IsPath(t, path) && Subtree(t, path).Node? && Subtree(t, path).ring != [] && at == Subtree(t, path).ring[0]
  }

  lemma NodeIs(m: Mem, t: Tree, i: nat, path: seq<bool>, at: int)
    requires IsPath(t, path) && Subtree(t, path).Node? && Subtree(t, path).ring != [] && at == Subtree(t, path).ring[0]
    ensures AtNode(m, t, i, path, at)
  {
  }

  lemma WalkRoot(m: Mem, slot: int, t: Tree, i: nat)
    requires Rep(m, Get(m, slot), slot, t, i) && t.Node?
    ensures AtNode(m, t, i, [], Get(m, slot))
  {
  }

  lemma {:induction false} NodeFacts(m: Mem, slot: int, t: Tree, i: nat, path: seq<bool>, at: int)
    requires Rep(m, Get(m, slot), slot, t, i) && AtNode(m, t, i, path, at)
    ensures IsPath(t, path) && Subtree(t, path).Node? && Subtree(t, path).ring != [] && at == Subtree(t, path).ring[0]
    ensures SizeIn(Get(m, at + HEAD)) == Subtree(t, path).size
    ensures forall right :: var c, p := Child(Subtree(t, path), right), Get(m, at + ChildField(right));
                            if p == 0 then c == Leaf else c.Node? && c.ring != [] && p == c.ring[0]
  {
    hide NodeOk;
    var sub := Subtree(t, path);
    var parent := if path == [] then slot else NodeAbove(t, path);
    if path != [] { RepSubtree(m, Get(m, slot), slot, t, i, path); }
    var p := if path == [] then Get(m, slot) else Get(m, parent + ChildField(Last(path)));
    assert Rep(m, p, parent, sub, i);
    HeadNode(m, sub.ring, sub.size, parent, i);
    ChildPointer(m, p, parent, sub, i, false);
    ChildPointer(m, p, parent, sub, i, true);
  }

  lemma HeadNode(m: Mem, ring: seq<int>, z: nat, parent: int, i: nat)
    requires NodeOk(m, ring, z, parent, i)
    ensures ring != [] && SizeIn(Get(m, ring[0] + HEAD)) == z
  {
    assert ring[0] in ring;
  }

  lemma ChildPointer(m: Mem, p: int, parent: int, t: Tree, i: nat, right: bool)
    requires Rep(m, p, parent, t, i) && t.Node?
    ensures var c, q := Child(t, right), Get(m, p + ChildField(right));
            if q == 0 then c == Leaf else c.Node? && c.ring != [] && q == c.ring[0]
  {
    RepChildAt(m, p, parent, t, i, right);
    var c := Child(t, right);
    if c.Node? {
      assert c.ring[0] in c.ring;
    }
  }

  lemma WalkPath(t: Tree, path: seq<bool>, right: bool, s: Tree, i: nat)
    requires IsPath(t, path) && Subtree(t, path).Node? && Subtree(t, path).ring != []
    ensures (path + [right])[..|path|] == path && |path + [right]| == |path| + 1
    ensures IsPath(t, path + [right]) && Subtree(t, path + [right]) == Child(Subtree(t, path), right)
    ensures Replace(t, path + [right], s) == Replace(t, path, WithChild(Subtree(t, path), right, s))
  {
    PathDown(t, path, right, s);
  }

  lemma WalkLeaf(t: Tree, s: nat, x: int, i: nat, path: seq<bool>, lo: nat, b: nat, key: nat)
    requires i < TREE_BINS && IsTrie(t, TrieLow(i), TrieBits(i)) && TrieLow(i) <= s < TrieLow(i) + Pow2(TrieBits(i))
    requires Walking(t, s, x, i, path, lo, b, key) && Subtree(t, path) == Leaf
    ensures Insert(t, s, x, TrieLow(i), TrieBits(i)) == Replace(t, path, Node(s, [x], Leaf, Leaf))
  {
  }

  lemma WalkSame(t: Tree, s: nat, x: int, i: nat, path: seq<bool>, lo: nat, b: nat, key: nat)
    requires i < TREE_BINS && IsTrie(t, TrieLow(i), TrieBits(i)) && TrieLow(i) <= s < TrieLow(i) + Pow2(TrieBits(i))
    requires Walking(t, s, x, i, path, lo, b, key) && Subtree(t, path).Node? && Subtree(t, path).size == s
        && Subtree(t, path).ring != []
    ensures var sub := Subtree(t, path);
            Insert(t, s, x, TrieLow(i), TrieBits(i)) == Replace(t, path, sub.(ring := [sub.ring[0], x] + sub.ring[1..]))
  {
  }

  lemma InsertEmpty(t: Tree, s: nat, x: int, lo: nat, b: nat)
    requires !t.Node? && lo <= s < lo + Pow2(b)
    ensures IsTrie(t, lo, b) && Insert(t, s, x, lo, b) == Node(s, [x], Leaf, Leaf)
  {
  }
}
