/** The method form of `unlink_large_chunk` of `dlmalloc.c`. */
module TreeRemove {
  import opened Rounding
  import opened BinIndex
  import opened SizeTrie
  import opened HeapWords
  import opened TreeLinks
  import opened TreeInsert
  import opened TreeUnlink

  /** The way to the node of a size. */
  function PathTo(t: Tree, s: nat, lo: nat, b: nat): seq<bool>
    requires IsTrie(t, lo, b)
    decreases t
  {
    if t == Leaf || t.size == s || b == 0 then []
    else if Upper(s, lo, b) then [true] + PathTo(t.right, s, lo + Pow2(b - 1), b - 1)
    else [false] + PathTo(t.left, s, lo, b - 1)
  }

  lemma {:induction false} PathToNode(t: Tree, s: nat, x: int, lo: nat, b: nat)
    requires IsTrie(t, lo, b) && Holds(t, x, s)
    ensures var path := PathTo(t, s, lo, b);
            && IsPath(t, path) && Subtree(t, path).Node? && Subtree(t, path).size == s && x in Subtree(t, path).ring
            && Unlink(t, s, x, lo, b) == Replace(t, path, UnlinkHere(Subtree(t, path), x))
    decreases t
  {
    hide Pow2, UnlinkHere;
    NoOther(t.left);
    NoOther(t.right);
    if t.size == s {
    } else if b > 0 {
      SizesInRange(t.left, lo, b - 1);
      SizesInRange(t.right, lo + Pow2(b - 1), b - 1);
      var path := PathTo(t, s, lo, b);
      if Upper(s, lo, b) {
        PathToNode(t.right, s, x, lo + Pow2(b - 1), b - 1);
        assert path[1..] == PathTo(t.right, s, lo + Pow2(b - 1), b - 1);
      } else {
        PathToNode(t.left, s, x, lo, b - 1);
        assert path[1..] == PathTo(t.left, s, lo, b - 1);
      }
    }
  }

  // ---- the leaf ----

  /** Where the walk to the leaf is. */
  ghost predicate ToLeaf(c: Tree, path: seq<bool>, slot: int, rp: int, r: int) {
    && c.Node? && IsPath(c, path) && Subtree(c, path).Node? && Subtree(c, path).ring != []
      && r == Subtree(c, path).ring[0]
    && rp == Holder(c, path, slot) && LeafPath(c) == path + LeafPath(Subtree(c, path))
  }

  lemma ToLeafStart(m: Mem, slot: int, parent: int, c: Tree, i: nat)
    requires Bin(m, slot, parent, c, i) && c.Node?
    ensures ToLeaf(c, [], slot, slot, Get(m, slot))
  {
    RepParts(m, Get(m, slot), parent, c, i);
    assert [] + LeafPath(c) == LeafPath(c);
  }

  lemma {:induction false} ToLeafStep(m: Mem, slot: int, parent: int, c: Tree, i: nat, path: seq<bool>, rp: int, r: int)
    requires Bin(m, slot, parent, c, i) && ToLeaf(c, path, slot, rp, r)
    ensures var sub := Subtree(c, path);
            var right := sub.right.Node?;
            var rp1 := if Get(m, r + CHILD1) != 0 then r + CHILD1 else r + CHILD0;
            if Get(m, rp1) == 0 then path == LeafPath(c) && sub.left == Leaf && sub.right == Leaf
            else ToLeaf(c, path + [right], slot, rp1, Get(m, rp1)) && Subtree(c, path + [right]) < sub
  {
    hide Rep, Bin, Disjoint, Spaced, Clear;
    var sub := Subtree(c, path);
    HolderPoints(m, slot, parent, c, i, path);
    var above := ParentOf(c, path, parent);
    RepParts(m, Get(m, rp), above, sub, i);
    ChildPointer(m, r, above, sub, i, false);
    ChildPointer(m, r, above, sub, i, true);
    var right := sub.right.Node?;
    var rp1 := if Get(m, r + CHILD1) != 0 then r + CHILD1 else r + CHILD0;
    if Get(m, rp1) == 0 {
      assert path + [] == path;
    } else {
      PathDown(c, path, right, Leaf);
      assert path + LeafPath(sub) == (path + [right]) + LeafPath(Child(sub, right));
    }
  }

  /** The loop that finds the replacement. */
  method FindLeaf(m: Mem, slot: int, ghost parent: int, ghost c: Tree, ghost i: nat) returns (rp: int, r: int)
    requires Bin(m, slot, parent, c, i) && c.Node?
    ensures IsPath(c, LeafPath(c)) && ToLeaf(c, LeafPath(c), slot, rp, r)
    ensures Subtree(c, LeafPath(c)).left == Leaf && Subtree(c, LeafPath(c)).right == Leaf
  {
    hide *;
    rp, r := slot, Get(m, slot);
    ghost var path := [];
    ToLeafStart(m, slot, parent, c, i);
    ToLeafPath(c, path, slot, rp, r);
    while true
      invariant ToLeaf(c, path, slot, rp, r) && IsPath(c, path)
      decreases Subtree(c, path)
    {
      ToLeafStep(m, slot, parent, c, i, path, rp, r);
      ToLeafPath(c, path, slot, rp, r);
      var cp := if Get(m, r + CHILD1) != 0 then r + CHILD1 else r + CHILD0;
      if Get(m, cp) == 0 {
        return;
      }
      path := path + [Subtree(c, path).right.Node?];
      rp, r := cp, Get(m, cp);
      ToLeafPath(c, path, slot, rp, r);
    }
  }

  lemma ToLeafPath(c: Tree, path: seq<bool>, slot: int, rp: int, r: int)
    requires ToLeaf(c, path, slot, rp, r)
    ensures IsPath(c, path) && Subtree(c, path).Node?
  {
  }

  // ---- the first half: a replacement is found and freed from its place ----

  /** What the first half leaves: the replacement `r`, ready to be linked. */
  ghost predicate Detached(m: Mem, m1: Mem, sub: Tree, x: int, r: int, i: nat) {
    sub.Node? &&
    var u := UnlinkHere(sub, x);
    if u == Leaf then r == 0 && m1 == m
    else u.ring != [] && r == u.ring[0] && r > 0 && Staged(m, m1, sub, x, u.ring, u.size, u.left, u.right, i)
  }

  lemma {:induction false} DetachFirst(m: Mem, slot: int, t: Tree, i: nat, path: seq<bool>)
    requires Bin(m, slot, slot, t, i) && IsPath(t, path) && Subtree(t, path).Node? && |Subtree(t, path).ring| > 1
    ensures var sub := Subtree(t, path);
            var x := sub.ring[0];
            var b, f := Get(m, x + BK), Get(m, x + FD);
            b != x && Detached(m, Unlinked(m, b, f), sub, x, b, i)
  {
    hide Rep, Bin, Loose, Within, PartsApart, Unlinked, Ring;
    LeaveFirst(m, slot, slot, t, i, path);
    HolderPoints(m, slot, slot, t, i, path);
    var sub := Subtree(t, path);
    RepParts(m, Get(m, Holder(t, path, slot)), ParentOf(t, path, slot), sub, i);
    LooseHead(Unlinked(m, Get(m, sub.ring[0] + BK), Get(m, sub.ring[0] + FD)), RingWithout(sub.ring, sub.ring[0]),
      sub.size, i);
  }

  lemma SingleRing(m: Mem, p: int, parent: int, t: Tree, i: nat)
    requires Rep(m, p, parent, t, i) && t.Node? && |t.ring| == 1
    ensures t.ring == [p] && Get(m, p + BK) == p
  {
    assert Joined(m, t.ring[0], t.ring[0]);
  }

  lemma {:induction false} DetachLeaf(m: Mem, p: int, parent: int, sub: Tree, i: nat, right: bool, a: int, r: int)
    requires Rep(m, p, parent, sub, i) && sub.Node? && sub.ring == [p] && Disjoint(sub) && Spaced(Nodes(sub))
    requires right == sub.right.Node? && Child(sub, right).Node?
    requires ToLeaf(Child(sub, right), LeafPath(Child(sub, right)), p + ChildField(right), a, r)
    ensures Detached(m, m[a := 0], sub, p, r, i)
  {
    hide Rep, NodeOk, Ring, SameNode, Within, Disjoint, Far, Spaced, Loose, PartsApart, Bin, Clear, OnlyLinks, Nodes,
      Holder;
    var c := Child(sub, right);
    var path := LeafPath(c);
    RepChildAt(m, p, parent, sub, i, right);
    RepRings(m, Get(m, p + ChildField(right)), p, c, i);
    LeafPathTakes(c);
    LeafTaken(m, p, parent, sub, i, right, path);
    LooseHead(m[a := 0], Subtree(c, path).ring, Subtree(c, path).size, i);
  }

  /** The part of the method before the parent is looked at. */
  method Detach(w: Words, x: int, slot: int, ghost t: Tree, ghost i: nat, ghost path: seq<bool>, ghost k: nat)
      returns (r: int)
    requires Bin(w.mem, slot, slot, t, i) && IsPath(t, path) && Subtree(t, path).Node?
    requires k < |Subtree(t, path).ring| && Subtree(t, path).ring[k] == x
    modifies w
    ensures k == 0 ==> Detached(old(w.mem), w.mem, Subtree(t, path), x, r, i)
    ensures k > 0 ==> Rep(w.mem, Get(w.mem, slot), slot, Replace(t, path, UnlinkHere(Subtree(t, path), x)), i)
    ensures k > 0 ==> OnlyLinks(old(w.mem), w.mem, Nodes(Subtree(t, path)), Holder(t, path, slot))
  {
    hide *;
    ghost var m, sub := w.mem, Subtree(t, path);
    HolderPoints(m, slot, slot, t, i, path);
    ghost var at, above := Get(m, Holder(t, path, slot)), ParentOf(t, path, slot);
    RepParts(m, at, above, sub, i);
    SubSpaced(m, slot, slot, t, i, path);
    if k > 0 {
      LeaveRing(m, slot, slot, t, i, path, k);
      RingLinks(m, sub.ring, k);
    } else if |sub.ring| > 1 {
      DetachFirst(m, slot, t, i, path);
      RingLinks(m, sub.ring, k);
    } else {
      SingleRing(m, at, above, sub, i);
      ChildPointer(m, x, above, sub, i, false);
      ChildPointer(m, x, above, sub, i, true);
      DropEmpty(m, sub, x, i);
    }
    if Get(w.mem, x + BK) != x {
      var f := Get(w.mem, x + FD);
      r := Get(w.mem, x + BK);
      // the check of the links succeeds
      assert Get(w.mem, f + BK) == x && Get(w.mem, r + FD) == x;
      StoreUnlinked(w, r, f);
    } else {
      Fields(sub);
      var rp := x + CHILD1;
      r := Get(w.mem, rp);
      if r == 0 {
        rp := x + CHILD0;
        r := Get(w.mem, rp);
      }
      if r != 0 {
        ghost var right := sub.right.Node?;
        ChildBin(m, x, above, sub, i, right);
        rp, r := FindLeaf(w.mem, rp, x, Child(sub, right), i);
        DetachLeaf(m, x, above, sub, i, right, rp, r);
        w.mem := w.mem[rp := 0];
      }
    }
  }

  lemma DropEmpty(m: Mem, sub: Tree, x: int, i: nat)
    requires sub.Node? && sub.ring == [x]
    ensures sub.left == Leaf && sub.right == Leaf ==> Detached(m, m, sub, x, 0, i)
  {
  }

  lemma RingLinks(m: Mem, ring: seq<int>, k: nat)
    requires Ring(m, ring) && |ring| > 1 && k < |ring|
    ensures Get(m, Get(m, ring[k] + FD) + BK) == ring[k] && Get(m, Get(m, ring[k] + BK) + FD) == ring[k]
        && Get(m, ring[k] + BK) != ring[k]
  {
    assert Joined(m, ring[k], After(ring, k));
    var j := if k == 0 then |ring| - 1 else k - 1;
    assert Joined(m, ring[j], ring[k]);
  }

  // ---- the second half: the replacement is linked in the place of the chunk ----

  lemma {:induction false} LastStep(t: Tree, path: seq<bool>)
    requires IsPath(t, path) && path != []
    ensures var p0 := path[..|path| - 1];
            && IsPath(t, p0) && Subtree(t, p0).Node? && Subtree(t, p0).ring != []
            && Subtree(t, path) == Child(Subtree(t, p0), Last(path)) && NodeAbove(t, path) == Subtree(t, p0).ring[0]
  {
    var p0 := path[..|path| - 1];
    if |path| == 1 {
      assert p0 == [] && path[1..] == [];
    } else {
      LastStep(Child(t, path[0]), path[1..]);
      assert p0[0] == path[0] && p0[1..] == path[1..][..|path| - 2];
    }
  }

  lemma {:induction false} RootOutside(t: Tree, path: seq<bool>)
    requires IsPath(t, path) && path != [] && Disjoint(t)
    ensures t.ring[0] !in Nodes(Subtree(t, path))
  {
    var c := Child(t, path[0]);
    SubtreeNodes(c, path[1..]);
    assert t.ring[0] in t.ring;
    if t.ring[0] in Nodes(c) {
      ChildrenApart(t, t.ring[0]);
    }
    assert Subtree(t, path) == Subtree(c, path[1..]);
  }

  /** How the method recognises the word that holds the pointer to `x`. */
  lemma {:induction false} FindHolder(m: Mem, m1: Mem, slot: int, t: Tree, i: nat, path: seq<bool>, x: int)
    requires Bin(m, slot, slot, t, i) && IsPath(t, path) && Subtree(t, path).Node? && Subtree(t, path).ring != []
        && Subtree(t, path).ring[0] == x
    requires Within(m, m1, Nodes(Subtree(t, path)))
    ensures path == [] <==> Get(m1, slot) == x
    ensures path != [] ==> (Last(path) <==> Get(m1, NodeAbove(t, path) + CHILD0) != x)
  {
    hide Rep, Within, Disjoint, Spaced, NodeOk;
    var sub := Subtree(t, path);
    assert x in sub.ring && x in Nodes(sub);
    SubtreeNodes(t, path);
    HolderPoints(m, slot, slot, t, i, path);
    RepParts(m, Get(m, Holder(t, path, slot)), ParentOf(t, path, slot), sub, i);
    assert Clear(Nodes(sub), slot);
    WithinWord(m, m1, Nodes(sub), slot);
    if path != [] {
      RepParts(m, Get(m, slot), slot, t, i);
      RootOutside(t, path);
      var p0, a := path[..|path| - 1], NodeAbove(t, path);
      LastStep(t, path);
      AboveInTree(t, path);
      AboveOutside(t, path);
      AboveWord(m, m1, Nodes(sub), Nodes(t), a);
      HolderPoints(m, slot, slot, t, i, p0);
      var up := Subtree(t, p0);
      RepParts(m, Get(m, Holder(t, p0, slot)), ParentOf(t, p0, slot), up, i);
      ChildPointer(m, a, ParentOf(t, p0, slot), up, i, false);
      DisjointSub(t, p0);
      if Last(path) && Get(m, a + CHILD0) != 0 {
        assert up.left.ring[0] in up.left.ring;
        SiblingApart(up, up.left.ring[0]);
      }
    }
  }

  lemma AboveWord(m: Mem, m1: Mem, s: set<int>, all: set<int>, a: int)
    requires Within(m, m1, s) && Spaced(all) && s <= all && a in all && a !in s
    ensures Get(m1, a + CHILD0) == Get(m, a + CHILD0)
  {
    forall q | q in s ensures a + CHILD0 < q + 8 || q + 64 <= a + CHILD0 {
      assert Far(a, q);
    }
    WithinWord(m, m1, s, a + CHILD0);
  }

  lemma SiblingApart(t: Tree, q: int)
    requires t.Node? && Disjoint(t) && q in Nodes(t.left)
    ensures q !in Nodes(t.right)
  {
  }

  lemma {:induction false} AttachNone(m: Mem, slot: int, t: Tree, i: nat, path: seq<bool>)
    requires Bin(m, slot, slot, t, i) && IsPath(t, path)
    ensures var m1 := m[Holder(t, path, slot) := 0];
            Rep(m1, Get(m1, slot), slot, Replace(t, path, Leaf), i)
              && OnlyLinks(m, m1, Nodes(Subtree(t, path)), Holder(t, path, slot))
  {
    hide Bin, Nodes;
    var c := Holder(t, path, slot);
    StoreOnly(m, c, 0, Nodes(Subtree(t, path)));
    RepLeaf(m[c := 0], c, ParentOf(t, path, slot), i);
    PutSubtree(m, m[c := 0], slot, slot, t, i, path, Leaf);
  }

  lemma DetachedWithin(m: Mem, m1: Mem, sub: Tree, x: int, r: int, i: nat)
    requires Detached(m, m1, sub, x, r, i)
    ensures Within(m, m1, Nodes(sub))
    ensures UnlinkHere(sub, x) == Leaf ==> r == 0 && m1 == m
    ensures UnlinkHere(sub, x).Node? ==>
              var u := UnlinkHere(sub, x);
              u.ring != [] && r == u.ring[0] && r > 0 && Staged(m, m1, sub, x, u.ring, u.size, u.left, u.right, i)
  {
  }

  lemma HolderIs(t: Tree, path: seq<bool>, slot: int)
    requires IsPath(t, path)
    ensures path == [] ==> Holder(t, path, slot) == slot && ParentOf(t, path, slot) == slot
    ensures path != [] ==> ParentOf(t, path, slot) == NodeAbove(t, path)
    ensures path != [] ==> Holder(t, path, slot) == NodeAbove(t, path) + if Last(path) then CHILD1 else CHILD0
  {
  }

  lemma ReplaceEmpty(t: Tree, path: seq<bool>, s: Tree)
    requires IsPath(t, path)
    ensures Replace(t, path, s) == Leaf <==> path == [] && s == Leaf
  {
  }

  /** The part of the method for chunks that are tree nodes. */
  method Attach(w: Words, slot: int, x: int, xp: int, r: int, ghost m: Mem, ghost t: Tree, ghost i: nat,
      ghost path: seq<bool>) returns (empty: bool)
    requires Bin(m, slot, slot, t, i) && IsPath(t, path) && Subtree(t, path).Node? && Subtree(t, path).ring != []
        && Subtree(t, path).ring[0] == x
    requires Detached(m, w.mem, Subtree(t, path), x, r, i) && xp == ParentOf(t, path, slot)
    modifies w
    ensures Rep(w.mem, Get(w.mem, slot), slot, Replace(t, path, UnlinkHere(Subtree(t, path), x)), i)
    ensures OnlyLinks(m, w.mem, Nodes(Subtree(t, path)), Holder(t, path, slot))
    ensures empty <==> Replace(t, path, UnlinkHere(Subtree(t, path), x)) == Leaf
  {
    hide *;
    ghost var sub := Subtree(t, path);
    ghost var u := UnlinkHere(sub, x);
    DetachedWithin(m, w.mem, sub, x, r, i);
    FindHolder(m, w.mem, slot, t, i, path, x);
    HolderIs(t, path, slot);
    ReplaceEmpty(t, path, u);
    if u.Node? {
      RelinkTree(m, w.mem, slot, slot, t, i, path, x, u.ring, u.size, u.left, u.right);
    } else {
      AttachNone(m, slot, t, i, path);
    }
    empty := false;
    if x == Get(w.mem, slot) {
      w.mem := w.mem[slot := r];
      empty := r == 0;
    } else if Get(w.mem, xp + CHILD0) == x {
      w.mem := w.mem[xp + CHILD0 := r];
    } else {
      w.mem := w.mem[xp + CHILD1 := r];
    }
    if r != 0 {
      StoreRelinked(w, x, xp, r);
    }
  }

  method StoreRelinked(w: Words, x: int, xp: int, r: int)
    modifies w
    ensures w.mem == Relinked(old(w.mem), x, xp, r)
  {
    w.mem := w.mem[r + PARENT := xp];
    var c0 := Get(w.mem, x + CHILD0);
    if c0 != 0 {
      w.mem := w.mem[r + CHILD0 := c0];
      w.mem := w.mem[c0 + PARENT := r];
    }
    var c1 := Get(w.mem, x + CHILD1);
    if c1 != 0 {
      w.mem := w.mem[r + CHILD1 := c1];
      w.mem := w.mem[c1 + PARENT := r];
    }
  }

  /** `unlink_large_chunk`; the result says whether the bin is now empty. */
  method UnlinkLarge(w: Words, slot: int, x: int, ghost s: nat, ghost t: Tree, ghost i: nat) returns (empty: bool)
    requires i < TREE_BINS && Rep(w.mem, Get(w.mem, slot), slot, t, i) && IsTrie(t, TrieLow(i), TrieBits(i))
        && Holds(t, x, s)
    requires Spaced(Nodes(t)) && Clear(Nodes(t), slot) && slot != 0
    modifies w
    ensures Rep(w.mem, Get(w.mem, slot), slot, Unlink(t, s, x, TrieLow(i), TrieBits(i)), i)
    ensures empty <==> Unlink(t, s, x, TrieLow(i), TrieBits(i)) == Leaf
    ensures OnlyLinks(old(w.mem), w.mem, Nodes(t), slot)
  {
    hide *;
    ghost var m, path := w.mem, PathTo(t, s, TrieLow(i), TrieBits(i));
    TreeDisjoint(m, Get(m, slot), slot, t, i, TrieLow(i), TrieBits(i));
    BinIs(m, slot, slot, t, i);
    PathToNode(t, s, x, TrieLow(i), TrieBits(i));
    ghost var sub := Subtree(t, path);
    ghost var k: nat :| k < |sub.ring| && sub.ring[k] == x;
    HolderPoints(m, slot, slot, t, i, path);
    ghost var above := ParentOf(t, path, slot);
    RepParts(m, Get(m, Holder(t, path, slot)), above, sub, i);
    ParentPositive(m, slot, t, i, path);
    if k > 0 { FollowerParent(m, sub.ring, sub.size, above, i, k); }
    var xp := Get(w.mem, x + PARENT);
    var r := Detach(w, x, slot, t, i, path, k);
    empty := false;
    if xp != 0 {
      empty := Attach(w, slot, x, xp, r, m, t, i, path);
    } else {
      RingStays(t, path, sub, x);
    }
    HolderWidens(m, w.mem, slot, t, i, path);
  }

  lemma BinIs(m: Mem, slot: int, parent: int, t: Tree, i: nat)
    requires Rep(m, Get(m, slot), parent, t, i) && Disjoint(t) && Spaced(Nodes(t)) && Clear(Nodes(t), slot)
    ensures Bin(m, slot, parent, t, i)
  {
  }

  lemma ParentPositive(m: Mem, slot: int, t: Tree, i: nat, path: seq<bool>)
    requires Bin(m, slot, slot, t, i) && IsPath(t, path) && slot != 0
    ensures ParentOf(t, path, slot) != 0
  {
    hide Rep;
    if path != [] {
      AboveInTree(t, path);
      NodeSize(m, Get(m, slot), slot, t, i, NodeAbove(t, path));
    }
  }

  lemma RingStays(t: Tree, path: seq<bool>, sub: Tree, x: int)
    requires IsPath(t, path) && sub == Subtree(t, path) && sub.Node? && |sub.ring| > 1
    ensures Replace(t, path, UnlinkHere(sub, x)) != Leaf
  {
    ReplaceEmpty(t, path, UnlinkHere(sub, x));
  }

  /** Seen from the whole tree. */
  lemma HolderWidens(m: Mem, m1: Mem, slot: int, t: Tree, i: nat, path: seq<bool>)
    requires IsPath(t, path) && OnlyLinks(m, m1, Nodes(Subtree(t, path)), Holder(t, path, slot))
    ensures OnlyLinks(m, m1, Nodes(t), slot)
  {
    SubtreeNodes(t, path);
    if path != [] {
      AboveInTree(t, path);
    }
    forall a | a != slot && Get(m1, a) != Get(m, a) ensures exists q :: q in Nodes(t) && q + 16 <= a < q + 64 {
      if a == Holder(t, path, slot) {
        var q := NodeAbove(t, path);
        assert q in Nodes(t) && q + 16 <= a < q + 64;
      }
    }
  }
}
