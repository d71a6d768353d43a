/** `unlink_large_chunk` of `dlmalloc.c`: a chunk leaves its ring, or a leaf takes the place of its node. */
module TreeUnlink {
  import opened SizeTrie
  import opened HeapWords
  import opened TreeLinks
  import opened TreeInsert

  /** A ring that is not yet linked into the tree: the first chunk has no children. */
  predicate Loose(m: Mem, ring: seq<int>, z: nat, i: nat) {
    && Ring(m, ring) && Followers(m, ring) && Get(m, ring[0] + CHILD0) == 0 && Get(m, ring[0] + CHILD1) == 0
    && forall p :: p in ring ==> p > 0 && SizeIn(Get(m, p + HEAD)) == z && Get(m, p + INDEX) == i
  }

  lemma LooseFrame(m: Mem, m1: Mem, ring: seq<int>, z: nat, i: nat)
    requires Loose(m, ring, z, i) && forall q :: q in ring ==> SameNode(m, m1, q)
    ensures Loose(m1, ring, z, i)
  {
    RingFrame(m, m1, ring);
    assert ring[0] in ring;
    forall k | 0 < k < |ring| ensures Get(m1, ring[k] + PARENT) == 0 && Get(m1, ring[k] + CHILD0) == 0
        && Get(m1, ring[k] + CHILD1) == 0 {
      assert ring[k] in ring;
    }
  }

  lemma LooseLeaf(m: Mem, p: int, parent: int, t: Tree, i: nat)
    requires Rep(m, p, parent, t, i) && t.Node? && t.left == Leaf && t.right == Leaf
    ensures Loose(m, t.ring, t.size, i) && p == t.ring[0]
  {
  }

  // ---- moving a subtree below another node ----

  /** The child word of `r` gets `c`, and `c` its new parent. */
  function Adopt(m: Mem, c: int, r: int, right: bool): Mem {
    if c == 0 then m else m[r + ChildField(right) := c][c + PARENT := r]
  }

  lemma AdoptKeeps(m: Mem, c: int, r: int, right: bool, q: int)
    requires Far(q, r) && Far(q, c)
    ensures SameNode(m, Adopt(m, c, r, right), q)
  {
  }

  lemma AdoptParent(m: Mem, c: int, r: int, right: bool)
    requires Far(c, r) || c == 0
    ensures SameBut(m, Adopt(m, c, r, right), r, ChildField(right))
    ensures c != 0 ==> Get(Adopt(m, c, r, right), r + ChildField(right)) == c
    ensures c != 0 ==> SameBut(m, Adopt(m, c, r, right), c, PARENT) && Get(Adopt(m, c, r, right), c + PARENT) == r
  {
  }

  lemma Reparented(m: Mem, m1: Mem, ring: seq<int>, z: nat, parent: int, parent1: int, i: nat)
    requires NodeOk(m, ring, z, parent, i) && SameBut(m, m1, ring[0], PARENT) && Get(m1, ring[0] + PARENT) == parent1
    requires forall q :: q in ring && q != ring[0] ==> SameNode(m, m1, q)
    ensures NodeOk(m1, ring, z, parent1, i)
  {
    assert forall q :: q in ring ==> Get(m, q + FD) == Get(m1, q + FD) && Get(m, q + BK) == Get(m1, q + BK);
    RingFrame(m, m1, ring);
    forall k | 0 < k < |ring| ensures Get(m1, ring[k] + PARENT) == 0 && Get(m1, ring[k] + CHILD0) == 0
        && Get(m1, ring[k] + CHILD1) == 0 {
      assert ring[k] in ring && ring[k] != ring[0];
    }
  }

  lemma {:induction false} AdoptRep(m: Mem, c: int, x: int, t: Tree, i: nat, r: int, right: bool)
    requires Rep(m, c, x, t, i) && Disjoint(t) && r !in Nodes(t) && Spaced(Nodes(t) + {r})
        && Get(m, r + ChildField(right)) == 0
    ensures var m1 := Adopt(m, c, r, right); Rep(m1, Get(m1, r + ChildField(right)), r, t, i)
  {
    hide NodeOk, SameNode, SameBut, Far;
    var m1 := Adopt(m, c, r, right);
    if t.Node? {
      hide Adopt;
      assert c in t.ring && c in Nodes(t) + {r} && r in Nodes(t) + {r};
      assert c != 0 by { HeadPositive(m, t.ring, t.size, x, i); }
      AdoptParent(m, c, r, right);
      forall q | q in Nodes(t) && q != c ensures SameNode(m, m1, q) {
        assert q in Nodes(t) + {r};
        AdoptKeeps(m, c, r, right, q);
      }
      assert forall q :: q in t.ring ==> q in Nodes(t);
      Reparented(m, m1, t.ring, t.size, x, r, i);
      SameChildren(m, m1, c);
      RepFrame(m, m1, Get(m, c + CHILD0), c, t.left, i);
      RepFrame(m, m1, Get(m, c + CHILD1), c, t.right, i);
    }
  }

  lemma HeadPositive(m: Mem, ring: seq<int>, z: nat, parent: int, i: nat)
    requires NodeOk(m, ring, z, parent, i)
    ensures ring != [] && ring[0] > 0
  {
    assert ring[0] in ring;
  }

  lemma SameChildren(m: Mem, m1: Mem, c: int)
    requires SameBut(m, m1, c, PARENT)
    ensures Get(m, c + CHILD0) == Get(m1, c + CHILD0) && Get(m, c + CHILD1) == Get(m1, c + CHILD1)
  {
  }

  // ---- the replacement in the place of the chunk ----

  /** The words written when the ring led by `r` takes the place of `x` below `parent`. */
  function Relinked(m: Mem, x: int, parent: int, r: int): Mem {
    var m1 := m[r + PARENT := parent];
    var m2 := Adopt(m1, Get(m1, x + CHILD0), r, false);
    Adopt(m2, Get(m2, x + CHILD1), r, true)
  }

  /** The parts of the new subtree, and `x`, are different chunks. */
  ghost predicate PartsApart(x: int, ring: seq<int>, l: Tree, r: Tree) {
    && Disjoint(Node(0, ring, l, r)) && x !in ring && x !in Nodes(l) && x !in Nodes(r)
    && Spaced(Nodes(Node(0, ring, l, r)) + {x})
  }

  lemma PartsAt(x: int, ring: seq<int>, l: Tree, r: Tree, p: int, q: int)
    requires PartsApart(x, ring, l, r) && p != q
    requires p == x || p in ring || p in Nodes(l) || p in Nodes(r)
    requires q == x || q in ring || q in Nodes(l) || q in Nodes(r)
    ensures Far(p, q)
  {
    assert p in Nodes(Node(0, ring, l, r)) + {x} && q in Nodes(Node(0, ring, l, r)) + {x};
  }

  lemma PartsOf(x: int, ring: seq<int>, l: Tree, r: Tree)
    requires PartsApart(x, ring, l, r)
    ensures Disjoint(l) && Disjoint(r) && x !in ring && x !in Nodes(l) && x !in Nodes(r)
    ensures forall p :: p in ring ==> p !in Nodes(l) && p !in Nodes(r)
    ensures forall p :: p in Nodes(l) ==> p !in Nodes(r)
    ensures ring != [] ==> Spaced(Nodes(l) + {ring[0]}) && Spaced(Nodes(r) + {ring[0]})
  {
    if ring != [] {
      assert ring[0] in ring;
      assert forall q :: q in Nodes(l) + {ring[0]} ==> q in Nodes(Node(0, ring, l, r)) + {x};
      assert forall q :: q in Nodes(r) + {ring[0]} ==> q in Nodes(Node(0, ring, l, r)) + {x};
    }
  }

  lemma RootPointer(m: Mem, p: int, parent: int, t: Tree, i: nat)
    requires Rep(m, p, parent, t, i)
    ensures if p == 0 then t == Leaf else t.Node? && p in Nodes(t)
  {
    if t.Node? {
      assert t.ring[0] in t.ring;
    }
  }

  lemma WriteParent(m: Mem, r: int, parent: int, q: int)
    ensures Far(q, r) ==> SameNode(m, m[r + PARENT := parent], q)
    ensures SameBut(m, m[r + PARENT := parent], r, PARENT) && Get(m[r + PARENT := parent], r + PARENT) == parent
  {
  }

  lemma LooseHead(m: Mem, ring: seq<int>, z: nat, i: nat)
    requires Loose(m, ring, z, i)
    ensures ring != [] && ring[0] in ring && Get(m, ring[0] + CHILD0) == 0 && Get(m, ring[0] + CHILD1) == 0
        && ring[0] > 0
  {
    assert ring[0] in ring;
  }

  lemma NodeFromLoose(m: Mem, m1: Mem, ring: seq<int>, z: nat, i: nat, parent: int)
    requires Loose(m, ring, z, i) && forall q :: q in ring && q != ring[0] ==> SameNode(m, m1, q)
    requires Get(m1, ring[0] + PARENT) == parent && SameRest(m, m1, ring[0])
    ensures NodeOk(m1, ring, z, parent, i)
  {
    assert forall q :: q in ring ==> Get(m, q + FD) == Get(m1, q + FD) && Get(m, q + BK) == Get(m1, q + BK);
    RingFrame(m, m1, ring);
    forall k | 0 < k < |ring| ensures Get(m1, ring[k] + PARENT) == 0 && Get(m1, ring[k] + CHILD0) == 0
        && Get(m1, ring[k] + CHILD1) == 0 {
      assert ring[k] in ring && ring[k] != ring[0];
    }
  }

  predicate SameRest(m: Mem, m1: Mem, q: int) {
    && Get(m, q + HEAD) == Get(m1, q + HEAD) && Get(m, q + INDEX) == Get(m1, q + INDEX)
    && Get(m, q + FD) == Get(m1, q + FD) && Get(m, q + BK) == Get(m1, q + BK)
  }

  lemma SameRestThen(m: Mem, m1: Mem, m2: Mem, m3: Mem, q: int)
    requires SameBut(m, m1, q, PARENT) && SameBut(m1, m2, q, CHILD0) && SameBut(m2, m3, q, CHILD1)
    ensures SameRest(m, m3, q) && Get(m3, q + PARENT) == Get(m1, q + PARENT)
    ensures Get(m1, q + CHILD0) == Get(m, q + CHILD0) && Get(m2, q + CHILD1) == Get(m, q + CHILD1)
        && Get(m3, q + CHILD0) == Get(m2, q + CHILD0)
  {
  }

  lemma SameThen(m: Mem, m1: Mem, m2: Mem, q: int)
    requires SameNode(m, m1, q) && SameNode(m1, m2, q)
    ensures SameNode(m, m2, q)
  {
  }

  lemma SameChild(m: Mem, m1: Mem, q: int)
    requires SameNode(m, m1, q)
    ensures Get(m, q + CHILD0) == Get(m1, q + CHILD0) && Get(m, q + CHILD1) == Get(m1, q + CHILD1)
  {
  }

  lemma AdoptAway(m: Mem, c: int, r: int, right: bool, q: int)
    requires Far(q, r) && (c == 0 || Far(q, c))
    ensures SameNode(m, Adopt(m, c, r, right), q)
  {
  }

  lemma {:induction false} RelinkedRep(m: Mem, x: int, parent: int, ring: seq<int>, z: nat, l: Tree, r: Tree, i: nat)
    requires Loose(m, ring, z, i) && PartsApart(x, ring, l, r)
    requires Rep(m, Get(m, x + CHILD0), x, l, i) && Rep(m, Get(m, x + CHILD1), x, r, i)
    ensures Rep(Relinked(m, x, parent, ring[0]), ring[0], parent, Node(z, ring, l, r), i)
  {
    hide Loose, PartsApart, Rep, NodeOk, SameNode, SameBut, Far, Adopt, Ring, Spaced, Disjoint, Nodes;
    LooseHead(m, ring, z, i);
    PartsOf(x, ring, l, r);
    var h := ring[0];
    var m1 := m[h + PARENT := parent];
    var c0, c1 := Get(m, x + CHILD0), Get(m, x + CHILD1);
    RootPointer(m, c0, x, l, i);
    RootPointer(m, c1, x, r, i);
    // the parent word
    forall q | q == x || q in Nodes(l) || q in Nodes(r) || (q in ring && q != h) ensures SameNode(m, m1, q) {
      PartsAt(x, ring, l, r, q, h);
      WriteParent(m, h, parent, q);
    }
    WriteParent(m, h, parent, h);
    SameChild(m, m1, x);
    RepFrame(m, m1, c0, x, l, i);
    RepFrame(m, m1, c1, x, r, i);
    // the left subtree
    var m2 := Adopt(m1, c0, h, false);
    forall q | q == x || q in Nodes(r) || (q in ring && q != h) ensures SameNode(m1, m2, q) {
      PartsAt(x, ring, l, r, q, h);
      if c0 != 0 { PartsAt(x, ring, l, r, q, c0); }
      AdoptAway(m1, c0, h, false, q);
    }
    if c0 != 0 { PartsAt(x, ring, l, r, c0, h); }
    AdoptParent(m1, c0, h, false);
    SameButChild(m, m1, h);
    AdoptRep(m1, c0, x, l, i, h, false);
    SameChild(m1, m2, x);
    RepFrame(m1, m2, c1, x, r, i);
    // the right subtree
    var m3 := Adopt(m2, c1, h, true);
    forall q | q in Nodes(l) || (q in ring && q != h) ensures SameNode(m2, m3, q) {
      PartsAt(x, ring, l, r, q, h);
      if c1 != 0 { PartsAt(x, ring, l, r, q, c1); }
      AdoptAway(m2, c1, h, true, q);
    }
    if c1 != 0 { PartsAt(x, ring, l, r, c1, h); }
    AdoptParent(m2, c1, h, true);
    SameRestThen(m, m1, m2, m3, h);
    AdoptRep(m2, c1, x, r, i, h, true);
    RepFrame(m2, m3, Get(m2, h + CHILD0), h, l, i);
    forall q | q in ring && q != h ensures SameNode(m, m3, q) {
      SameThen(m, m1, m2, q);
      SameThen(m, m2, m3, q);
    }
    NodeFromLoose(m, m3, ring, z, i, parent);
    RepNode(m3, ring, z, parent, l, r, i);
  }

  lemma SameButChild(m: Mem, m1: Mem, q: int)
    requires SameBut(m, m1, q, PARENT)
    ensures Get(m, q + CHILD0) == Get(m1, q + CHILD0) && Get(m, q + CHILD1) == Get(m1, q + CHILD1)
  {
  }

  lemma RepNode(m: Mem, ring: seq<int>, z: nat, parent: int, l: Tree, r: Tree, i: nat)
    requires ring != [] && NodeOk(m, ring, z, parent, i)
    requires Rep(m, Get(m, ring[0] + CHILD0), ring[0], l, i) && Rep(m, Get(m, ring[0] + CHILD1), ring[0], r, i)
    ensures Rep(m, ring[0], parent, Node(z, ring, l, r), i)
  {
  }

  // ---- the place in the tree ----

  /** Only links of the chunks `s` change. */
  ghost predicate Within(m: Mem, m1: Mem, s: set<int>) {
    forall a :: Get(m1, a) != Get(m, a) ==> exists q :: q in s && q + 16 <= a < q + 64
  }

  lemma WithinWord(m: Mem, m1: Mem, s: set<int>, a: int)
    requires Within(m, m1, s) && Clear(s, a)
    ensures Get(m1, a) == Get(m, a)
  {
  }

  /** The pointer to the subtree at the end of a path. */
  function Holder(t: Tree, path: seq<bool>, slot: int): int
    requires IsPath(t, path)
  {
    if path == [] then slot else NodeAbove(t, path) + ChildField(Last(path))
  }

  function ParentOf(t: Tree, path: seq<bool>, parent: int): int
    requires IsPath(t, path)
  {
    if path == [] then parent else NodeAbove(t, path)
  }

  /** What takes the place of the subtree, after its own words have been changed. */
  ghost predicate Staged(m: Mem, m1: Mem, sub: Tree, x: int, ring: seq<int>, z: nat, l: Tree, r: Tree, i: nat) {
    && Within(m, m1, Nodes(sub)) && Loose(m1, ring, z, i) && PartsApart(x, ring, l, r)
    && Rep(m1, Get(m1, x + CHILD0), x, l, i) && Rep(m1, Get(m1, x + CHILD1), x, r, i)
    && x in Nodes(sub) && Nodes(Node(z, ring, l, r)) <= Nodes(sub)
  }

  /** The word `slot` holds the root of a tree below `parent`. */
  ghost predicate Bin(m: Mem, slot: int, parent: int, t: Tree, i: nat) {
    Rep(m, Get(m, slot), parent, t, i) && Disjoint(t) && Spaced(Nodes(t)) && Clear(Nodes(t), slot)
  }

  /** The word that holds the pointer is not a field of a chunk of the subtree. */
  lemma {:induction false} HolderClear(m: Mem, slot: int, parent: int, t: Tree, i: nat, path: seq<bool>)
    requires Bin(m, slot, parent, t, i) && IsPath(t, path)
    ensures Clear(Nodes(Subtree(t, path)), Holder(t, path, slot))
    ensures path != [] ==>
        ParentOf(t, path, parent) in Nodes(t) && ParentOf(t, path, parent) !in Nodes(Subtree(t, path))
    ensures path != [] ==>
        forall q :: q in Nodes(t) && q != ParentOf(t, path, parent) ==> ClearOf(q, Holder(t, path, slot))
  {
    hide Rep;
    SubtreeNodes(t, path);
    if path != [] {
      AboveInTree(t, path);
      AboveOutside(t, path);
    }
  }

  lemma {:induction false} HolderPoints(m: Mem, slot: int, parent: int, t: Tree, i: nat, path: seq<bool>)
    requires Bin(m, slot, parent, t, i) && IsPath(t, path)
    ensures Rep(m, Get(m, Holder(t, path, slot)), ParentOf(t, path, parent), Subtree(t, path), i)
  {
    hide Rep;
    if path != [] {
      RepSubtree(m, Get(m, slot), parent, t, i, path);
    }
  }

  lemma {:induction false} StagedAfterStore(m: Mem, m1: Mem, sub: Tree, x: int, ring: seq<int>, z: nat, l: Tree,
      r: Tree, i: nat, c: int, v: int)
    requires Staged(m, m1, sub, x, ring, z, l, r, i) && Clear(Nodes(sub), c)
    ensures var m2 := m1[c := v];
            && Loose(m2, ring, z, i) && Rep(m2, Get(m2, x + CHILD0), x, l, i) && Rep(m2, Get(m2, x + CHILD1), x, r, i)
            && Get(m2, x + CHILD0) == Get(m1, x + CHILD0) && Get(m2, x + CHILD1) == Get(m1, x + CHILD1)
  {
    hide Rep, Loose, SameNode, Within, PartsApart;
    var m2, all := m1[c := v], Nodes(Node(z, ring, l, r));
    forall q | q in Nodes(sub) ensures SameNode(m1, m2, q) {
      WriteClear(m1, c, v, q);
    }
    assert forall q :: q in ring || q in Nodes(l) || q in Nodes(r) ==> q in all;
    SameChild(m1, m2, x);
    LooseFrame(m1, m2, ring, z, i);
    RepFrame(m1, m2, Get(m1, x + CHILD0), x, l, i);
    RepFrame(m1, m2, Get(m1, x + CHILD1), x, r, i);
  }

  /** Relinking writes words of the subtree's chunks only. */
  lemma {:induction false} RelinkedWithin(m: Mem, x: int, parent: int, h: int, s: set<int>)
    requires h in s && x in s && x != h && Spaced(s)
    requires Get(m, x + CHILD0) == 0 || (Get(m, x + CHILD0) in s && Get(m, x + CHILD0) != x)
    requires Get(m, x + CHILD1) == 0 || Get(m, x + CHILD1) in s
    ensures Within(m, Relinked(m, x, parent, h), s)
  {
    hide SameNode, Adopt, Within;
    var m1 := m[h + PARENT := parent];
    WithinStore(m, h, PARENT, parent, s);
    WriteParent(m, h, parent, x);
    SameChild(m, m1, x);
    var c0 := Get(m1, x + CHILD0);
    var m2 := Adopt(m1, c0, h, false);
    AdoptWithin(m1, c0, h, false, s);
    AdoptAway(m1, c0, h, false, x);
    SameChild(m1, m2, x);
    AdoptWithin(m2, Get(m2, x + CHILD1), h, true, s);
    WithinThen(m, m1, m2, s);
    WithinThen(m, m2, Relinked(m, x, parent, h), s);
  }

  lemma WithinStore(m: Mem, p: int, off: int, v: int, s: set<int>)
    requires p in s && 16 <= off < 64
    ensures Within(m, m[p + off := v], s)
  {
  }

  lemma AdoptWithin(m: Mem, c: int, r: int, right: bool, s: set<int>)
    requires r in s && (c == 0 || c in s)
    ensures Within(m, Adopt(m, c, r, right), s)
  {
  }

  lemma WithinThen(m: Mem, m1: Mem, m2: Mem, s: set<int>)
    requires Within(m, m1, s) && Within(m1, m2, s)
    ensures Within(m, m2, s)
  {
    forall a | Get(m2, a) != Get(m, a) ensures exists q :: q in s && q + 16 <= a < q + 64 {
      assert Get(m1, a) != Get(m, a) || Get(m2, a) != Get(m1, a);
    }
  }

  /** Words of the subtree's chunks, and the pointer to it. */
  lemma WithinStoreWithin(m: Mem, m1: Mem, m2: Mem, s: set<int>, c: int, v: int)
    requires Within(m, m1, s) && Within(m1[c := v], m2, s)
    ensures OnlyLinks(m, m2, s, c)
  {
    forall a | a != c && Get(m2, a) != Get(m, a) ensures exists q :: q in s && q + 16 <= a < q + 64 {
      assert Get(m1, a) != Get(m, a) || Get(m2, a) != Get(m1[c := v], a);
    }
  }

  /** A subtree and the pointer to it are replaced. */
  lemma {:induction false} PutSubtree(m: Mem, m1: Mem, slot: int, parent: int, t: Tree, i: nat, path: seq<bool>,
      s: Tree)
    requires Bin(m, slot, parent, t, i) && IsPath(t, path) && OnlyLinks(m, m1, Nodes(Subtree(t, path)),
        Holder(t, path, slot))
    requires Rep(m1, Get(m1, Holder(t, path, slot)), ParentOf(t, path, parent), s, i)
    ensures Rep(m1, Get(m1, slot), parent, Replace(t, path, s), i)
  {
    hide Rep, SameNode, SameBut;
    if path != [] {
      var sub, c, above := Subtree(t, path), Holder(t, path, slot), ParentOf(t, path, parent);
      HolderClear(m, slot, parent, t, i, path);
      SubtreeNodes(t, path);
      forall q | q in Nodes(t) && q !in Nodes(sub) && q != above ensures SameNode(m, m1, q) {
        OnlyLinksFar(m, m1, Nodes(sub), c, q);
      }
      OnlyLinksParent(m, m1, Nodes(sub), above, Last(path));
      assert slot != c && Clear(Nodes(sub), slot);
      OnlyLinksWord(m, m1, Nodes(sub), c, slot);
      RepReplace(m, m1, Get(m, slot), parent, t, i, path, s);
    }
  }

  lemma OnlyLinksFar(m: Mem, m1: Mem, s: set<int>, c: int, q: int)
    requires OnlyLinks(m, m1, s, c) && ClearOf(q, c) && forall p :: p in s ==> Far(p, q)
    ensures SameNode(m, m1, q)
  {
  }

  lemma OnlyLinksParent(m: Mem, m1: Mem, s: set<int>, q: int, right: bool)
    requires OnlyLinks(m, m1, s, q + ChildField(right)) && forall p :: p in s ==> Far(p, q)
    ensures SameBut(m, m1, q, ChildField(right))
  {
  }

  lemma OnlyLinksWord(m: Mem, m1: Mem, s: set<int>, c: int, a: int)
    requires OnlyLinks(m, m1, s, c) && a != c && Clear(s, a)
    ensures Get(m1, a) == Get(m, a)
  {
  }

  /** The second half of the unlinking: the replacement is hung in the place of `x`. */
  lemma {:induction false} RelinkTree(m: Mem, m1: Mem, slot: int, parent: int, t: Tree, i: nat, path: seq<bool>, x: int,
      ring: seq<int>, z: nat, l: Tree, r: Tree)
    requires Bin(m, slot, parent, t, i) && IsPath(t, path) && ring != []
        && Staged(m, m1, Subtree(t, path), x, ring, z, l, r, i)
    ensures var m2 := Relinked(m1[Holder(t, path, slot) := ring[0]], x, ParentOf(t, path, parent), ring[0]);
            && Rep(m2, Get(m2, slot), parent, Replace(t, path, Node(z, ring, l, r)), i)
            && OnlyLinks(m, m2, Nodes(Subtree(t, path)), Holder(t, path, slot))
  {
    hide Rep, Loose, Within, Relinked, Holder, Bin, Clear, Spaced, Disjoint, OnlyLinks;
    var sub, h, c, above := Subtree(t, path), ring[0], Holder(t, path, slot), ParentOf(t, path, parent);
    var m2 := m1[c := h];
    var m3 := Relinked(m2, x, above, h);
    HolderClear(m, slot, parent, t, i, path);
    StagedAfterStore(m, m1, sub, x, ring, z, l, r, i, c, h);
    RelinkedRep(m2, x, above, ring, z, l, r, i);
    RootPointer(m2, Get(m2, x + CHILD0), x, l, i);
    RootPointer(m2, Get(m2, x + CHILD1), x, r, i);
    assert h in ring && h in Nodes(sub);
    SubSpaced(m, slot, parent, t, i, path);
    RelinkedWithin(m2, x, above, h, Nodes(sub));
    WithinWord(m2, m3, Nodes(sub), c);
    WithinStoreWithin(m, m1, m3, Nodes(sub), c, h);
    PutSubtree(m, m3, slot, parent, t, i, path, Node(z, ring, l, r));
  }

  lemma SubSpaced(m: Mem, slot: int, parent: int, t: Tree, i: nat, path: seq<bool>)
    requires Bin(m, slot, parent, t, i) && IsPath(t, path)
    ensures Spaced(Nodes(Subtree(t, path))) && Disjoint(Subtree(t, path))
  {
    SubtreeNodes(t, path);
    DisjointSub(t, path);
  }

  // ---- a chunk of a ring ----

  lemma {:induction false} WithoutAt(ring: seq<int>, k: nat)
    requires k < |ring| && NoDuplicates(ring)
    ensures Without(ring, ring[k]) == ring[..k] + ring[k + 1..]
  {
    if k > 0 {
      assert ring[1..][k - 1] == ring[k];
      WithoutAt(ring[1..], k - 1);
      assert ring[..k] == [ring[0]] + ring[1..][..k - 1];
    }
  }

  lemma UnlinkedKeeps(m: Mem, b: int, f: int, q: int)
    ensures Far(q, b) && Far(q, f) ==> SameNode(m, Unlinked(m, b, f), q)
    ensures (q == b || Far(q, b)) && (q == f || Far(q, f)) ==> SameFields(m, Unlinked(m, b, f), q)
  {
  }

  lemma UnlinkedWithin(m: Mem, b: int, f: int, s: set<int>)
    requires b in s && f in s
    ensures Within(m, Unlinked(m, b, f), s)
  {
  }

  lemma SpacedApart(ring: seq<int>, s: set<int>)
    requires Spaced(s) && forall p :: p in ring ==> p in s
    ensures AllApart(ring)
  {
  }

  /** The chunks of a ring after one has left it, seen from one of the others. */
  lemma {:induction false} RingShrinks(m: Mem, m1: Mem, ring: seq<int>, ring1: seq<int>, z: nat, parent: int, i: nat)
    requires NodeOk(m, ring, z, parent, i) && Ring(m1, ring1) && forall p :: p in ring ==> SameFields(m, m1, p)
    requires (forall k :: 0 < k < |ring1| ==> ring1[k] in ring && ring1[k] != ring[0]) && ring1[0] in ring
    ensures Followers(m1, ring1) && forall p ::
        p in ring1 ==> p > 0 && SizeIn(Get(m1, p + HEAD)) == z && Get(m1, p + INDEX) == i
    ensures ring1[0] == ring[0] ==> NodeOk(m1, ring1, z, parent, i)
    ensures ring1[0] != ring[0] ==> Loose(m1, ring1, z, i)
  {
    hide Ring;
    forall k | 0 <= k < |ring1| && ring1[k] != ring[0] ensures Get(m1, ring1[k] + PARENT) == 0
        && Get(m1, ring1[k] + CHILD0) == 0 && Get(m1, ring1[k] + CHILD1) == 0 {
      var j :| 0 <= j < |ring| && ring[j] == ring1[k];
    }
    forall p | p in ring1 ensures p in ring {
    }
    RingMembers(m1, ring1);
  }

  /** Words of the other members of the ring, and of the subtrees, when two members are joined. */
  lemma {:induction false} UnlinkedTree(m: Mem, p: int, parent: int, t: Tree, i: nat, b: int, f: int)
    requires Rep(m, p, parent, t, i) && t.Node? && Disjoint(t) && Spaced(Nodes(t)) && b in t.ring && f in t.ring
    ensures var m1 := Unlinked(m, b, f);
            && (forall q :: q in t.ring ==> SameFields(m, m1, q)) && Within(m, m1, Nodes(t))
            && Rep(m1, Get(m1, p + CHILD0), p, t.left, i) && Rep(m1, Get(m1, p + CHILD1), p, t.right, i)
  {
    hide NodeOk, SameNode, SameFields, Within, Unlinked, Disjoint, Far, Spaced;
    var m1, l, r := Unlinked(m, b, f), t.left, t.right;
    assert p in t.ring && forall q :: q in t.ring ==> q in Nodes(t);
    forall q | q in t.ring ensures SameFields(m, m1, q) {
      PairFar(Nodes(t), q, b); PairFar(Nodes(t), q, f);
      UnlinkedKeeps(m, b, f, q);
    }
    forall q | q in Nodes(l) || q in Nodes(r) ensures SameNode(m, m1, q) {
      ChildrenApart(t, q);
      PairFar(Nodes(t), q, b); PairFar(Nodes(t), q, f);
      UnlinkedKeeps(m, b, f, q);
    }
    FieldsChildren(m, m1, p);
    RepFrame(m, m1, Get(m, p + CHILD0), p, l, i);
    RepFrame(m, m1, Get(m, p + CHILD1), p, r, i);
    UnlinkedWithin(m, b, f, Nodes(t));
  }

  lemma RepParts(m: Mem, p: int, parent: int, t: Tree, i: nat)
    requires Rep(m, p, parent, t, i) && t.Node?
    ensures NodeOk(m, t.ring, t.size, parent, i) && Ring(m, t.ring) && NoDuplicates(t.ring) && t.ring != []
        && p == t.ring[0] > 0
    ensures Get(m, p + PARENT) == parent && forall q :: q in t.ring ==> q in Nodes(t)
  {
    assert p in t.ring;
  }

  lemma {:induction false} RingLeft(m: Mem, p: int, parent: int, t: Tree, i: nat, k: nat)
    requires Rep(m, p, parent, t, i) && t.Node? && Disjoint(t) && Spaced(Nodes(t)) && 0 < k < |t.ring|
    ensures var m1 := Unlinked(m, t.ring[k - 1], After(t.ring, k));
            && Get(m, t.ring[k] + BK) == t.ring[k - 1] && Get(m, t.ring[k] + FD) == After(t.ring, k)
              && Get(m, t.ring[k] + PARENT) == 0
            && Rep(m1, p, parent, UnlinkHere(t, t.ring[k]), i) && Within(m, m1, Nodes(t))
  {
    hide Rep, NodeOk, Ring, Nodes, SameFields, Within, Unlinked, Disjoint, Spaced;
    RepParts(m, p, parent, t, i);
    var ring := t.ring;
    var b, f, ring1 := ring[k - 1], After(ring, k), ring[..k] + ring[k + 1..];
    var m1 := Unlinked(m, b, f);
    assert b in ring && f in ring;
    SpacedApart(ring, Nodes(t));
    RingRemove(m, ring, k);
    UnlinkedTree(m, p, parent, t, i, b, f);
    forall j | 0 < j < |ring1| ensures ring1[j] in ring && ring1[j] != ring[0] {
      assert ring1[j] == if j < k then ring[j] else ring[j + 1];
    }
    RingShrinks(m, m1, ring, ring1, t.size, parent, i);
    WithoutAt(ring, k);
    RepNode(m1, ring1, t.size, parent, t.left, t.right, i);
    FollowerParent(m, ring, t.size, parent, i, k);
  }

  /** The chunk is not the tree node. */
  lemma {:induction false} LeaveRing(m: Mem, slot: int, parent: int, t: Tree, i: nat, path: seq<bool>, k: nat)
    requires Bin(m, slot, parent, t, i) && IsPath(t, path) && Subtree(t, path).Node? && 0 < k < |Subtree(t, path).ring|
    ensures var sub := Subtree(t, path);
            var m1 := Unlinked(m, sub.ring[k - 1], After(sub.ring, k));
            && Get(m, sub.ring[k] + BK) == sub.ring[k - 1] && Get(m, sub.ring[k] + FD) == After(sub.ring, k)
              && Get(m, sub.ring[k] + PARENT) == 0
            && Rep(m1, Get(m1, slot), parent, Replace(t, path, UnlinkHere(sub, sub.ring[k])), i)
            && OnlyLinks(m, m1, Nodes(sub), Holder(t, path, slot))
  {
    hide Rep, Bin, Nodes, Within, Unlinked, OnlyLinks, Disjoint, Spaced, UnlinkHere, Clear;
    var sub, c := Subtree(t, path), Holder(t, path, slot);
    HolderPoints(m, slot, parent, t, i, path);
    HolderClear(m, slot, parent, t, i, path);
    SubSpaced(m, slot, parent, t, i, path);
    RingLeft(m, Get(m, c), ParentOf(t, path, parent), sub, i, k);
    var m1 := Unlinked(m, sub.ring[k - 1], After(sub.ring, k));
    WithinWord(m, m1, Nodes(sub), c);
    WithinOnly(m, m1, Nodes(sub), c);
    PutSubtree(m, m1, slot, parent, t, i, path, UnlinkHere(sub, sub.ring[k]));
  }

  lemma FollowerParent(m: Mem, ring: seq<int>, z: nat, parent: int, i: nat, k: nat)
    requires NodeOk(m, ring, z, parent, i) && 0 < k < |ring|
    ensures Get(m, ring[k] + PARENT) == 0
  {
  }

  lemma PairFar(s: set<int>, p: int, q: int)
    requires Spaced(s) && p in s && q in s
    ensures p == q || Far(p, q)
  {
  }

  lemma ChildrenApart(t: Tree, q: int)
    requires t.Node? && Disjoint(t) && (q in Nodes(t.left) || q in Nodes(t.right))
    ensures q !in t.ring && q in Nodes(t)
  {
  }

  lemma FieldsChildren(m: Mem, m1: Mem, q: int)
    requires SameFields(m, m1, q)
    ensures Get(m1, q + CHILD0) == Get(m, q + CHILD0) && Get(m1, q + CHILD1) == Get(m, q + CHILD1)
  {
  }

  lemma WithinOnly(m: Mem, m1: Mem, s: set<int>, c: int)
    requires Within(m, m1, s)
    ensures OnlyLinks(m, m1, s, c)
  {
  }

  /** The chunk is the tree node, and its ring has others: the one before it in the ring replaces it. */
  lemma {:induction false} LeaveFirst(m: Mem, slot: int, parent: int, t: Tree, i: nat, path: seq<bool>)
    requires Bin(m, slot, parent, t, i) && IsPath(t, path) && Subtree(t, path).Node? && |Subtree(t, path).ring| > 1
    ensures var sub := Subtree(t, path);
            var ring, n := sub.ring, |sub.ring|;
            && Get(m, ring[0] + BK) == ring[n - 1] && Get(m, ring[0] + FD) == ring[1]
            && Staged(m, Unlinked(m, ring[n - 1], ring[1]), sub, ring[0], RingWithout(ring, ring[0]), sub.size,
              sub.left, sub.right, i)
  {
    hide Rep, Bin, NodeOk, Ring, SameFields, Within, Unlinked, Disjoint, Spaced, Loose, PartsApart, Nodes;
    var sub, above, c := Subtree(t, path), ParentOf(t, path, parent), Holder(t, path, slot);
    HolderPoints(m, slot, parent, t, i, path);
    SubSpaced(m, slot, parent, t, i, path);
    RepParts(m, Get(m, c), above, sub, i);
    var ring, n := sub.ring, |sub.ring|;
    var b, f, x := ring[n - 1], ring[1], ring[0];
    var m1, ring1 := Unlinked(m, b, f), RingWithout(ring, x);
    assert x in ring && b in ring && f in ring;
    SpacedApart(ring, Nodes(sub));
    RingRemoveFirst(m, ring);
    UnlinkedTree(m, x, above, sub, i, b, f);
    forall j | 0 < j < |ring1| ensures ring1[j] in ring && ring1[j] != ring[0] {
      assert ring1[j] == ring[j];
    }
    RingShrinks(m, m1, ring, ring1, sub.size, above, i);
    RingWithoutIs(ring, x);
    FewerParts(sub, x, ring1);
  }

  /** The same subtrees with a smaller ring. */
  lemma FewerParts(t: Tree, x: int, ring: seq<int>)
    requires t.Node? && Disjoint(t) && Spaced(Nodes(t)) && x in t.ring && x !in ring && forall p ::
        p in ring ==> p in t.ring
    ensures PartsApart(x, ring, t.left, t.right) && Nodes(Node(t.size, ring, t.left, t.right)) <= Nodes(t)
  {
    forall q | q in Nodes(Node(0, ring, t.left, t.right)) + {x} ensures q in Nodes(t) {
      assert q in ring ==> q in t.ring;
    }
    assert Nodes(Node(t.size, ring, t.left, t.right)) == Nodes(Node(0, ring, t.left, t.right));
  }

  // ---- a leaf takes the place of a node ----

  /** Right where possible, else left, down to a leaf. */
  function LeafPath(t: Tree): seq<bool>
    requires t.Node?
  {
    if t.right.Node? then [true] + LeafPath(t.right)
    else if t.left.Node? then [false] + LeafPath(t.left)
    else []
  }

  predicate Rings(t: Tree) { t.Node? ==> t.ring != [] && Rings(t.left) && Rings(t.right) }

  lemma {:induction false} RepRings(m: Mem, p: int, parent: int, t: Tree, i: nat)
    requires Rep(m, p, parent, t, i)
    ensures Rings(t)
    decreases t
  {
    if t.Node? {
      RepRings(m, Get(m, p + CHILD0), p, t.left, i);
      RepRings(m, Get(m, p + CHILD1), p, t.right, i);
    }
  }

  lemma {:induction false} LeafPathTakes(t: Tree)
    requires t.Node? && Rings(t)
    ensures IsPath(t, LeafPath(t)) && TakeLeaf(t) == (Replace(t, LeafPath(t), Leaf), Subtree(t, LeafPath(t)))
  {
    if t.right.Node? {
      LeafPathTakes(t.right);
      assert LeafPath(t)[1..] == LeafPath(t.right);
    } else if t.left.Node? {
      LeafPathTakes(t.left);
      assert LeafPath(t)[1..] == LeafPath(t.left);
    }
  }

  lemma {:induction false} CutNodes(t: Tree, path: seq<bool>)
    requires IsPath(t, path) && Disjoint(t)
    ensures Nodes(Replace(t, path, Leaf)) == Nodes(t) - Nodes(Subtree(t, path)) && Disjoint(Replace(t, path, Leaf))
  {
    if path != [] {
      var c, other, cut := Child(t, path[0]), Child(t, !path[0]), Replace(t, path, Leaf);
      CutNodes(c, path[1..]);
      SubtreeNodes(c, path[1..]);
      var sub := Subtree(c, path[1..]);
      assert cut.ring == t.ring && Child(cut, !path[0]) == other && Nodes(Child(cut, path[0])) == Nodes(c) - Nodes(sub);
      forall q ensures q in Nodes(cut) <==> q in Nodes(t) && q !in Nodes(sub) {
        if q in Nodes(sub) {
          assert q in Nodes(c);
        }
      }
    }
  }

  lemma {:induction false} CutParts(sub: Tree, x: int, right: bool, path: seq<bool>)
    requires sub.Node? && sub.ring == [x] && Disjoint(sub) && Spaced(Nodes(sub)) && IsPath(Child(sub, right), path)
    ensures var c := Child(sub, right);
            var leaf, u := Subtree(c, path), WithChild(sub, right, Replace(c, path, Leaf));
            leaf.Node? && leaf.left == Leaf && leaf.right == Leaf ==>
              PartsApart(x, leaf.ring, u.left, u.right) && Nodes(Node(leaf.size, leaf.ring, u.left,
                u.right)) <= Nodes(sub)
  {
    var c := Child(sub, right);
    var leaf, u := Subtree(c, path), WithChild(sub, right, Replace(c, path, Leaf));
    CutNodes(c, path);
    SubtreeNodes(c, path);
    if leaf.Node? && leaf.left == Leaf && leaf.right == Leaf {
      assert Nodes(leaf) == set p | p in leaf.ring;
      assert x in sub.ring;
      assert forall p :: p in leaf.ring ==> p in Nodes(leaf);
      forall q | q in Nodes(Node(0, leaf.ring, u.left, u.right)) + {x} ensures q in Nodes(sub) {
      }
      assert Nodes(Node(leaf.size, leaf.ring, u.left, u.right)) == Nodes(Node(0, leaf.ring, u.left, u.right));
    }
  }

  /** The child of a chunk as a tree of its own. */
  lemma ChildBin(m: Mem, p: int, parent: int, t: Tree, i: nat, right: bool)
    requires Rep(m, p, parent, t, i) && t.Node? && Disjoint(t) && Spaced(Nodes(t))
    ensures Bin(m, p + ChildField(right), p, Child(t, right), i)
    ensures p in Nodes(t) && p !in Nodes(Child(t, right)) && forall q ::
        q in Nodes(Child(t, right)) ==> q in Nodes(t) && Far(p, q)
  {
    hide Rep, Far, Spaced, Clear;
    RepParts(m, p, parent, t, i);
    RepChildAt(m, p, parent, t, i, right);
    ChildApart(p, t, right);
    ChildClear(p, Child(t, right), right);
  }

  lemma ChildClear(p: int, c: Tree, right: bool)
    requires forall q :: q in Nodes(c) ==> Far(p, q)
    ensures Clear(Nodes(c), p + ChildField(right))
  {
  }

  lemma ChildApart(p: int, t: Tree, right: bool)
    requires t.Node? && p in t.ring && Disjoint(t) && Spaced(Nodes(t))
    ensures p in Nodes(t) && p !in Nodes(Child(t, right)) && forall q ::
        q in Nodes(Child(t, right)) ==> q in Nodes(t) && Far(p, q)
    ensures Disjoint(Child(t, right)) && Spaced(Nodes(Child(t, right)))
  {
    hide Far;
  }

  /** The word that is cleared belongs to `x` or to a chunk of the subtree it leads to. */
  lemma HolderOwner(c: Tree, path: seq<bool>, x: int, right: bool) returns (q: int)
    requires IsPath(c, path)
    ensures q == x || q in Nodes(c)
    ensures var a := Holder(c, path, x + ChildField(right)); q + 32 <= a < q + 48
    ensures path == [] ==> q == x && Holder(c, path, x + ChildField(right)) == x + ChildField(right)
    ensures path != [] ==> q in Nodes(c)
  {
    if path == [] {
      q := x;
    } else {
      q := NodeAbove(c, path);
      AboveInTree(c, path);
    }
  }

  lemma {:induction false} LeafTaken(m: Mem, p: int, parent: int, sub: Tree, i: nat, right: bool, path: seq<bool>)
    requires Rep(m, p, parent, sub, i) && sub.Node? && sub.ring == [p] && Disjoint(sub) && Spaced(Nodes(sub))
    requires IsPath(Child(sub, right), path)
    requires var leaf := Subtree(Child(sub, right), path); leaf.Node? && leaf.left == Leaf && leaf.right == Leaf
    ensures var c := Child(sub, right);
            var leaf, u := Subtree(c, path), WithChild(sub, right, Replace(c, path, Leaf));
            var a := Holder(c, path, p + ChildField(right));
            leaf.ring != [] && Get(m, a) == leaf.ring[0] && Staged(m, m[a := 0], sub, p, leaf.ring, leaf.size, u.left,
              u.right, i)
  {
    hide Rep, NodeOk, Ring, SameNode, Within, Disjoint, Far, Spaced, Loose, PartsApart, Bin, Clear, OnlyLinks, Nodes,
      Holder;
    var c, other := Child(sub, right), Child(sub, !right);
    var leaf, cut := Subtree(c, path), Replace(c, path, Leaf);
    var f := p + ChildField(right);
    var a := Holder(c, path, f);
    var m1 := m[a := 0];
    ChildBin(m, p, parent, sub, i, right);
    ChildBin(m, p, parent, sub, i, !right);
    HolderPoints(m, f, p, c, i, path);
    HolderClear(m, f, p, c, i, path);
    LooseLeaf(m, Get(m, a), ParentOf(c, path, p), leaf, i);
    LooseHead(m, leaf.ring, leaf.size, i);
    // the leaf itself
    forall q | q in Nodes(leaf) ensures SameNode(m, m1, q) { WriteOutside(m, a, 0, Nodes(leaf), q); }
    LeafNodes(leaf);
    LooseFrame(m, m1, leaf.ring, leaf.size, i);
    // the subtree it is taken from
    StoreOnly(m, a, 0, Nodes(leaf));
    RepLeaf(m1, a, ParentOf(c, path, p), i);
    PutSubtree(m, m1, f, p, c, i, path, Leaf);
    // the other subtree
    var q0 := HolderOwner(c, path, p, right);
    forall q | q in Nodes(other) ensures SameNode(m, m1, q) {
      OthersApart(sub, right, q);
      if q0 != p { PairFar(Nodes(sub), q0, q); }
      OwnedFar(m, a, 0, q0, q);
    }
    RepChildAt(m, p, parent, sub, i, !right);
    RepFrame(m, m1, Get(m, p + ChildField(!right)), p, other, i);
    OtherField(m, a, p, right, q0);
    StoreWithin(m, a, 0, q0, Nodes(sub));
    CutParts(sub, p, right, path);
    BothChildren(m1, p, sub, right, cut, i);
  }

  lemma WriteOutside(m: Mem, a: int, v: int, s: set<int>, q: int)
    requires Clear(s, a) && q in s
    ensures SameNode(m, m[a := v], q)
  {
  }

  lemma LeafNodes(t: Tree)
    requires t.Node? && t.left == Leaf && t.right == Leaf
    ensures forall q :: q in t.ring ==> q in Nodes(t)
  {
  }

  lemma StoreOnly(m: Mem, a: int, v: int, s: set<int>)
    ensures OnlyLinks(m, m[a := v], s, a)
  {
  }

  lemma RepLeaf(m: Mem, a: int, parent: int, i: nat)
    ensures Get(m, a) == 0 ==> Rep(m, Get(m, a), parent, Leaf, i)
  {
  }

  lemma OthersApart(t: Tree, right: bool, q: int)
    requires t.Node? && Disjoint(t) && q in Nodes(Child(t, !right))
    ensures q !in Nodes(Child(t, right)) && q !in t.ring && q in Nodes(t)
  {
  }

  lemma OwnedFar(m: Mem, a: int, v: int, p: int, q: int)
    requires p + 32 <= a < p + 48 && Far(p, q)
    ensures SameNode(m, m[a := v], q)
  {
  }

  lemma OtherField(m: Mem, a: int, p: int, right: bool, q: int)
    requires q + 32 <= a < q + 48 && ((q == p && a == p + ChildField(right)) || Far(p, q))
    ensures Get(m[a := 0], p + ChildField(!right)) == Get(m, p + ChildField(!right))
  {
  }

  lemma StoreWithin(m: Mem, a: int, v: int, q: int, s: set<int>)
    requires q in s && q + 32 <= a < q + 48
    ensures Within(m, m[a := v], s)
  {
  }

  lemma BothChildren(m: Mem, p: int, t: Tree, right: bool, c: Tree, i: nat)
    requires t.Node? && Rep(m, Get(m, p + ChildField(right)), p, c, i)
        && Rep(m, Get(m, p + ChildField(!right)), p, Child(t, !right), i)
    ensures var u := WithChild(t, right, c);
            Rep(m, Get(m, p + CHILD0), p, u.left, i) && Rep(m, Get(m, p + CHILD1), p, u.right, i)
  {
  }
}
