/** The trees of free chunks in memory: child, parent, ring and index words of the chunks themselves. */
module TreeLinks {
  import opened Rounding
  import opened SizeTrie
  import opened HeapWords

  function ChildField(right: bool): int { if right then CHILD1 else CHILD0 }

  /** The chunks of one size: the first is a tree node, the others have neither parent nor children. */
  predicate NodeOk(m: Mem, ring: seq<int>, z: nat, parent: int, i: nat) {
    && Ring(m, ring) && Get(m, ring[0] + PARENT) == parent
    && (forall p :: p in ring ==> p > 0 && SizeIn(Get(m, p + HEAD)) == z && Get(m, p + INDEX) == i)
    && Followers(m, ring)
  }

  predicate Followers(m: Mem, ring: seq<int>) {
    forall k :: 0 < k < |ring| ==>
      Get(m, ring[k] + PARENT) == 0 && Get(m, ring[k] + CHILD0) == 0 && Get(m, ring[k] + CHILD1) == 0
  }

  /** The pointer `p`, below `parent`, is the root of the tree `t` of bin `i`. */
  predicate Rep(m: Mem, p: int, parent: int, t: Tree, i: nat)
    decreases t
  {
    match t
    case Leaf => p == 0
    case Node(z, ring, l, r) =>
      && ring != [] && p == ring[0] && NodeOk(m, ring, z, parent, i)
      && Rep(m, Get(m, p + CHILD0), p, l, i) && Rep(m, Get(m, p + CHILD1), p, r, i)
  }

  // ---- which words belong to which chunk ----

  predicate SameNode(m: Mem, m1: Mem, q: int) {
    SameBut(m, m1, q, -1) 
  }

  /** All words of the chunk but one. */
  predicate SameBut(m: Mem, m1: Mem, q: int, but: int) {
    && Get(m, q + HEAD) == Get(m1, q + HEAD) && Get(m, q + INDEX) == Get(m1, q + INDEX)
    && Get(m, q + FD) == Get(m1, q + FD) && Get(m, q + BK) == Get(m1, q + BK)
    && (but == CHILD0 || Get(m, q + CHILD0) == Get(m1, q + CHILD0))
    && (but == CHILD1 || Get(m, q + CHILD1) == Get(m1, q + CHILD1))
    && (but == PARENT || Get(m, q + PARENT) == Get(m1, q + PARENT))
  }

  predicate Far(p: int, q: int) { p + 64 <= q || q + 64 <= p }

  predicate Spaced(s: set<int>) { forall p, q :: p in s && q in s && p != q ==> Far(p, q) }

  /** The address is not a field of one of the chunks. */
  predicate Clear(s: set<int>, a: int) { forall q :: q in s ==> a < q + 8 || q + 64 <= a }

  /** Nothing changes but links of the chunks `s`, and the word `slot`. */
  ghost predicate OnlyLinks(m: Mem, m1: Mem, s: set<int>, slot: int) {
    forall a :: a != slot && Get(m1, a) != Get(m, a) ==> exists q :: q in s && q + 16 <= a < q + 64
  }

  lemma WriteClear(m: Mem, a: int, v: int, q: int)
    requires a < q + 8 || q + 64 <= a
    ensures SameNode(m, m[a := v], q)
  {
  }

  // ---- the chunks of a tree are all different ----

  predicate Disjoint(t: Tree) {
    match t
    case Leaf => true
    case Node(_, ring, l, r) =>
      && (forall p :: p in ring ==> p !in Nodes(l) && p !in Nodes(r))
      && (forall p :: p in Nodes(l) ==> p !in Nodes(r))
      && Disjoint(l) && Disjoint(r)
  }

  lemma {:induction false} NodeSize(m: Mem, p: int, parent: int, t: Tree, i: nat, q: int)
    requires Rep(m, p, parent, t, i) && q in Nodes(t)
    ensures Holds(t, q, if SizeIn(Get(m, q + HEAD)) >= 0 then SizeIn(Get(m, q + HEAD)) else 0)
    ensures SizeIn(Get(m, q + HEAD)) >= 0 && q > 0
    decreases t
  {
    if q in t.ring {
    } else if q in Nodes(t.left) {
      NodeSize(m, Get(m, p + CHILD0), p, t.left, i, q);
    } else {
      NodeSize(m, Get(m, p + CHILD1), p, t.right, i, q);
    }
  }

  lemma {:induction false} NodeSizes(m: Mem, p: int, parent: int, t: Tree, i: nat)
    requires Rep(m, p, parent, t, i)
    ensures forall q :: q in Nodes(t) ==> SizeIn(Get(m, q + HEAD)) in Sizes(t)
  {
    hide Rep, Nodes, Sizes, SizeIn;
    forall q | q in Nodes(t) ensures SizeIn(Get(m, q + HEAD)) in Sizes(t) {
      NodeSize(m, p, parent, t, i, q);
      HoldsSize(t, q, SizeIn(Get(m, q + HEAD)));
    }
  }

  lemma RingSizes(m: Mem, ring: seq<int>, z: nat, parent: int, i: nat)
    requires ring != [] && NodeOk(m, ring, z, parent, i)
    ensures forall q :: q in ring ==> SizeIn(Get(m, q + HEAD)) == z
  {
  }

  lemma {:induction false} TreeDisjoint(m: Mem, p: int, parent: int, t: Tree, i: nat, lo: nat, b: nat)
    requires Rep(m, p, parent, t, i) && IsTrie(t, lo, b)
    ensures Disjoint(t)
    decreases t
  {
    hide Pow2, NodeOk, Nodes, Sizes, SizeIn;
    if t.Node? {
      var l, r := t.left, t.right;
      RingSizes(m, t.ring, t.size, parent, i);
      NodeSizes(m, Get(m, p + CHILD0), p, l, i);
      NodeSizes(m, Get(m, p + CHILD1), p, r, i);
      if b > 0 {
        TreeDisjoint(m, Get(m, p + CHILD0), p, l, i, lo, b - 1);
        TreeDisjoint(m, Get(m, p + CHILD1), p, r, i, lo + Pow2(b - 1), b - 1);
        SizesInRange(l, lo, b - 1);
        SizesInRange(r, lo + Pow2(b - 1), b - 1);
      } else {
        NothingInLeaf();
      }
    }
  }

  lemma NothingInLeaf()
    ensures Nodes(Leaf) == {} && Sizes(Leaf) == {} && Disjoint(Leaf)
  {
  }

  // ---- what does not change ----

  lemma NodeFrame(m: Mem, m1: Mem, ring: seq<int>, z: nat, parent: int, i: nat)
    requires NodeOk(m, ring, z, parent, i)
    requires forall q :: q in ring && q != ring[0] ==> SameNode(m, m1, q)
    requires SameBut(m, m1, ring[0], CHILD0) || SameBut(m, m1, ring[0], CHILD1)
    ensures NodeOk(m1, ring, z, parent, i)
  {
    assert forall q :: q in ring ==> Get(m, q + FD) == Get(m1, q + FD) && Get(m, q + BK) == Get(m1, q + BK);
    RingFrame(m, m1, ring);
    forall k | 0 < k < |ring| ensures Get(m1, ring[k] + PARENT) == 0 && Get(m1, ring[k] + CHILD0) == 0
        && Get(m1, ring[k] + CHILD1) == 0 {
      assert ring[k] in ring && ring[k] != ring[0];
    }
    assert ring[0] in ring;
  }

  lemma {:induction false} RepFrame(m: Mem, m1: Mem, p: int, parent: int, t: Tree, i: nat)
    requires Rep(m, p, parent, t, i) && forall q :: q in Nodes(t) ==> SameNode(m, m1, q)
    ensures Rep(m1, p, parent, t, i)
    decreases t
  {
    hide NodeOk;
    if t.Node? {
      assert forall q :: q in t.ring ==> q in Nodes(t);
      assert t.ring[0] in t.ring;
      NodeFrame(m, m1, t.ring, t.size, parent, i);
      RepFrame(m, m1, Get(m, p + CHILD0), p, t.left, i);
      RepFrame(m, m1, Get(m, p + CHILD1), p, t.right, i);
    }
  }

  // ---- paths ----

  function Child(t: Tree, right: bool): Tree
    requires t.Node?
  {
    if right then t.right else t.left
  }

  lemma Fields(t: Tree)
    requires t.Node?
    ensures ChildField(false) == CHILD0 && ChildField(true) == CHILD1
    ensures Child(t, false) == t.left && Child(t, true) == t.right
    ensures t.left < t && t.right < t
  {
  }

  function WithChild(t: Tree, right: bool, c: Tree): Tree
    requires t.Node?
  {
    if right then t.(right := c) else t.(left := c)
  }

  predicate IsPath(t: Tree, path: seq<bool>) {
    path == [] || (t.Node? && t.ring != [] && IsPath(Child(t, path[0]), path[1..]))
  }

  function Subtree(t: Tree, path: seq<bool>): Tree
    requires IsPath(t, path)
  {
    if path == [] then t else Subtree(Child(t, path[0]), path[1..])
  }

  function Replace(t: Tree, path: seq<bool>, s: Tree): Tree
    requires IsPath(t, path)
  {
    if path == [] then s else WithChild(t, path[0], Replace(Child(t, path[0]), path[1..], s))
  }

  /** The tree node whose child is the subtree. */
  function NodeAbove(t: Tree, path: seq<bool>): int
    requires IsPath(t, path) && path != []
  {
    if |path| == 1 then t.ring[0] else NodeAbove(Child(t, path[0]), path[1..])
  }

  function Last(path: seq<bool>): bool
    requires path != []
  {
    path[|path| - 1]
  }

  lemma {:induction false} AboveInTree(t: Tree, path: seq<bool>)
    requires IsPath(t, path) && path != []
    ensures NodeAbove(t, path) in Nodes(t)
  {
    if |path| == 1 {
      assert t.ring[0] in t.ring;
    } else {
      AboveInTree(Child(t, path[0]), path[1..]);
    }
  }

  lemma {:induction false} SubtreeNodes(t: Tree, path: seq<bool>)
    requires IsPath(t, path)
    ensures Nodes(Subtree(t, path)) <= Nodes(t)
  {
    if path != [] {
      SubtreeNodes(Child(t, path[0]), path[1..]);
    }
  }

  /** The node above is not in the subtree. */
  lemma {:induction false} AboveOutside(t: Tree, path: seq<bool>)
    requires IsPath(t, path) && path != [] && Disjoint(t)
    ensures NodeAbove(t, path) !in Nodes(Subtree(t, path))
  {
    if |path| == 1 {
      assert t.ring[0] in t.ring;
      assert Subtree(t, path) == Child(t, path[0]);
    } else {
      AboveOutside(Child(t, path[0]), path[1..]);
    }
  }

  lemma {:induction false} RepSubtree(m: Mem, p: int, parent: int, t: Tree, i: nat, path: seq<bool>)
    requires Rep(m, p, parent, t, i) && IsPath(t, path) && path != []
    ensures var a := NodeAbove(t, path); Rep(m, Get(m, a + ChildField(Last(path))), a, Subtree(t, path), i)
    decreases path
  {
    if |path| == 1 {
      assert Subtree(t, path) == Child(t, path[0]);
    } else {
      RepSubtree(m, Get(m, p + ChildField(path[0])), p, Child(t, path[0]), i, path[1..]);
    }
  }

  /** A subtree is replaced in memory: only the child word above it and the words of its own chunks change. */
  lemma {:induction false} RepReplace(m: Mem, m1: Mem, p: int, parent: int, t: Tree, i: nat, path: seq<bool>, s: Tree)
    requires Rep(m, p, parent, t, i) && IsPath(t, path) && path != [] && Disjoint(t)
    requires var a, f := NodeAbove(t, path), ChildField(Last(path));
             SameBut(m, m1, a, f) && Rep(m1, Get(m1, a + f), a, s, i)
    requires forall q ::
        q in Nodes(t) && q !in Nodes(Subtree(t, path)) && q != NodeAbove(t, path) ==> SameNode(m, m1, q)
    ensures Rep(m1, p, parent, Replace(t, path, s), i)
    decreases path
  {
    hide NodeOk, SameBut, SameNode;
    var right := path[0];
    var c, other := Child(t, right), Child(t, !right);
    SubtreeNodes(c, path[1..]);
    assert t.ring[0] in t.ring && p == t.ring[0];
    if |path| == 1 {
      assert Subtree(t, path) == c && Replace(t, path, s) == WithChild(t, right, s);
      RepChild(m, m1, p, parent, t, i, right, s);
    } else {
      AboveInTree(c, path[1..]);
      assert SameNode(m, m1, p);
      SameIsBut(m, m1, p, right);
      RepChildAt(m, p, parent, t, i, right);
      RepReplace(m, m1, Get(m, p + ChildField(right)), p, c, i, path[1..], s);
      RepChild(m, m1, p, parent, t, i, right, Replace(c, path[1..], s));
    }
  }

  lemma SameIsBut(m: Mem, m1: Mem, q: int, right: bool)
    requires SameNode(m, m1, q)
    ensures SameBut(m, m1, q, ChildField(right)) && Get(m, q + ChildField(right)) == Get(m1, q + ChildField(right))
  {
  }

  lemma RepChildAt(m: Mem, p: int, parent: int, t: Tree, i: nat, right: bool)
    requires Rep(m, p, parent, t, i) && t.Node?
    ensures Rep(m, Get(m, p + ChildField(right)), p, Child(t, right), i)
  {
  }

  /** One child of a node is replaced. */
  lemma {:induction false} RepChild(m: Mem, m1: Mem, p: int, parent: int, t: Tree, i: nat, right: bool, s: Tree)
    requires Rep(m, p, parent, t, i) && t.Node? && SameBut(m, m1, p, ChildField(right))
    requires forall q :: q in t.ring && q != p ==> SameNode(m, m1, q)
    requires forall q :: q in Nodes(Child(t, !right)) ==> SameNode(m, m1, q)
    requires Rep(m1, Get(m1, p + ChildField(right)), p, s, i)
    ensures Rep(m1, p, parent, WithChild(t, right, s), i)
  {
    hide NodeOk;
    NodeFrame(m, m1, t.ring, t.size, parent, i);
    RepFrame(m, m1, Get(m, p + ChildField(!right)), p, Child(t, !right), i);
  }

  lemma {:induction false} PathDown(t: Tree, path: seq<bool>, right: bool, s: Tree)
    requires IsPath(t, path) && Subtree(t, path).Node? && Subtree(t, path).ring != []
    ensures IsPath(t, path + [right]) && Subtree(t, path + [right]) == Child(Subtree(t, path), right)
    ensures Replace(t, path + [right], s) == Replace(t, path, WithChild(Subtree(t, path), right, s))
    ensures NodeAbove(t, path + [right]) == Subtree(t, path).ring[0] && Last(path + [right]) == right
    decreases path
  {
    var path1 := path + [right];
    if path == [] {
      assert path1 == [right] && path1[1..] == [];
    } else {
      assert path1[0] == path[0] && path1[1..] == path[1..] + [right];
      PathDown(Child(t, path[0]), path[1..], right, s);
    }
  }
}
