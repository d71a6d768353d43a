/** The search of `tmalloc_large` and `tmalloc_small` of `dlmalloc.c` for the best fitting chunk. */
module TreeSearch {
  import opened Rounding
  import opened BinIndex
  import opened BinMaps
  import opened SizeTrie
  import opened HeapWords
  import opened TreeLinks
  import opened TreeInsert

  /** `treebin_at`, in the state at `ms`. */
  function TreeSlot(ms: int, i: nat): int { ms + 600 + 8 * i }

  ghost predicate TreeBinOk(m: Mem, slot: int, marked: bool, t: Tree, i: nat) {
    && Rep(m, Get(m, slot), slot, t, i) && IsTrie(t, TrieLow(i), TrieBits(i)) && (marked <==> t.Node?)
    && forall z :: z in Sizes(t) ==> MIN_LARGE <= z < SIZE_LIMIT && TreeIndex(z) == i
  }

  ghost predicate TreeBins(m: Mem, ms: int, treemap: bv32, trees: seq<Tree>) {
    |trees| == TREE_BINS && forall i ::
      0 <= i < TREE_BINS ==> TreeBinOk(m, TreeSlot(ms, i), Marked(treemap, i), trees[i], i)
  }

  /** Size difference as an unsigned 64-bit number. */
  function Excess(z: nat, nb: nat): (r: nat)
    requires z < WORD && nb < WORD
    ensures r < WORD
  {
    if z >= nb then z - nb else z + WORD - nb
  }

  // ---- the smallest chunk of a tree ----

  ghost predicate SomeAtMost(t: Tree, z: nat) { exists y :: y in Sizes(t) && y <= z }

  ghost predicate AllFit(t: Tree, nb: nat) { forall z :: z in Sizes(t) ==> nb <= z }

  ghost predicate NoneCloser(t: Tree, nb: nat, rsize: nat)
    requires nb < WORD
  {
    forall z :: z in Sizes(t) ==> z < WORD && Excess(z, nb) >= rsize
  }

  /** Every size of `t` is at least what has been found, or at least something left in `cur`. */
  ghost predicate Covered(t: Tree, cur: Tree, nb: nat, rsize: nat) {
    forall z :: z in Sizes(t) ==> rsize + nb <= z || SomeAtMost(cur, z)
  }

  /** All sizes fit, or none is closer than what has been found. */
  ghost predicate Comparable(t: Tree, nb: nat, rsize: nat)
    requires nb < WORD
  {
    AllFit(t, nb) || NoneCloser(t, nb, rsize)
  }

  /** What the walk along the left edge has established. */
  ghost predicate Leftmost(t: Tree, cur: Tree, nb: nat, v0: int, r0: nat, v: int, rsize: nat)
    requires nb < WORD
  {
    && rsize <= r0
    && ((v == v0 && rsize == r0) || (rsize < r0 && Holds(t, v, rsize + nb)))
    && (AllFit(t, nb) ==> Covered(t, cur, nb, rsize))
    && (NoneCloser(t, nb, r0) ==> rsize == r0)
  }

  lemma {:induction false} CoveredStep(t: Tree, cur: Tree, nb: nat, rsize: nat, rsize1: nat, lo: nat, b: nat)
    requires Covered(t, cur, nb, rsize) && cur.Node? && IsTrie(cur, lo, b) && nb <= cur.size
    requires rsize1 <= rsize && rsize1 + nb <= cur.size
    ensures Covered(t, if cur.left.Node? then cur.left else cur.right, nb, rsize1)
  {
    hide IsTrie;
    var next := if cur.left.Node? then cur.left else cur.right;
    forall z | z in Sizes(t) ensures rsize1 + nb <= z || SomeAtMost(next, z) {
      if rsize + nb > z {
        var y :| y in Sizes(cur) && y <= z;
        if y != cur.size {
          NextAtMost(cur, lo, b, y);
          var y1 :| y1 in Sizes(next) && y1 <= y;
        }
      }
    }
  }

  lemma {:induction false} LeftmostStep(t: Tree, cur: Tree, nb: nat, v0: int, r0: nat, v: int, rsize: nat, lo: nat,
      b: nat)
    requires nb < WORD && Comparable(t, nb, r0) && cur.Node? && cur.ring != [] && IsTrie(cur, lo, b)
        && Leftmost(t, cur, nb, v0, r0, v, rsize)
    requires cur.size < WORD && Holds(t, cur.ring[0], cur.size) && cur.size in Sizes(t)
    ensures var next := if cur.left.Node? then cur.left else cur.right;
            var e := Excess(cur.size, nb);
            if e < rsize then Leftmost(t, next, nb, v0, r0, cur.ring[0], e) else Leftmost(t, next, nb, v0, r0, v, rsize)
  {
    hide Covered, IsTrie, Sizes, Holds;
    var e := Excess(cur.size, nb);
    if AllFit(t, nb) {
      CoveredStep(t, cur, nb, rsize, if e < rsize then e else rsize, lo, b);
    }
  }

  lemma LeftBelow(t: Tree, lo: nat, b: nat)
    requires t.Node? && IsTrie(t, lo, b)
    ensures forall y, z :: y in Sizes(t.left) && z in Sizes(t.right) ==> y < z
  {
    hide Pow2;
    if b > 0 {
      SizesInRange(t.left, lo, b - 1);
      SizesInRange(t.right, lo + Pow2(b - 1), b - 1);
    }
  }

  /** Below a node there is always something as small on the side the walk takes. */
  lemma NextAtMost(t: Tree, lo: nat, b: nat, y: nat)
    requires t.Node? && IsTrie(t, lo, b) && y in Sizes(t) && y != t.size
    ensures SomeAtMost(if t.left.Node? then t.left else t.right, y)
  {
    LeftBelow(t, lo, b);
    if t.left.Node? && y !in Sizes(t.left) {
      assert t.left.size in Sizes(t.left);
    }
  }

  /** The range of a child. */
  function NextLow(lo: nat, b: nat, right: bool): nat { if b > 0 && right then lo + Pow2(b - 1) else lo }

  function NextBits(b: nat): nat { if b == 0 then 0 else b - 1 }

  /** A subtree in memory, and part of the tree `t`. */
  ghost predicate Inside(m: Mem, p: int, parent: int, cur: Tree, t: Tree, i: nat, lo: nat, b: nat) {
    && Rep(m, p, parent, cur, i) && IsTrie(cur, lo, b) && Sizes(cur) <= Sizes(t)
    && forall q, z :: Holds(cur, q, z) ==> Holds(t, q, z)
  }

  lemma {:induction false} InsideChild(m: Mem, p: int, parent: int, cur: Tree, t: Tree, i: nat, lo: nat, b: nat,
      right: bool)
    requires Inside(m, p, parent, cur, t, i, lo, b) && cur.Node?
    ensures cur.ring != [] && p == cur.ring[0] && SizeIn(Get(m, p + HEAD)) == cur.size && Holds(t, p, cur.size)
        && cur.size in Sizes(t) && p != 0
    ensures var c, q := Child(cur, right), Get(m, p + ChildField(right));
            && (q == 0 <==> c == Leaf) && (b == 0 ==> c == Leaf)
            && Inside(m, q, p, c, t, i, NextLow(lo, b, right), NextBits(b))
  {
    hide Pow2, NodeOk;
    assert cur.size in Sizes(cur);
    HeadNode(m, cur.ring, cur.size, parent, i);
    NodePositive(m, cur.ring, cur.size, parent, i);
    assert p in cur.ring && Holds(cur, p, cur.size);
    ChildPointer(m, p, parent, cur, i, right);
    RepChildAt(m, p, parent, cur, i, right);
  }

  lemma NodePositive(m: Mem, ring: seq<int>, z: nat, parent: int, i: nat)
    requires NodeOk(m, ring, z, parent, i)
    ensures ring != [] && ring[0] > 0
  {
    assert ring[0] in ring;
  }

  /** The last loop of `tmalloc_large`: the smallest chunk of a tree or subtree. */
  method Smallest(m: Mem, start: int, nb: nat, v0: int, r0: nat, ghost t: Tree, ghost parent: int, ghost i: nat,
      ghost lo0: nat, ghost b0: nat)
    returns (v: int, rsize: nat)
    requires nb < WORD && Rep(m, start, parent, t, i) && IsTrie(t, lo0, b0) && Comparable(t, nb, r0)
    requires forall z :: z in Sizes(t) ==> z < WORD
    ensures rsize <= r0 && ((v == v0 && rsize == r0) || (rsize < r0 && Holds(t, v, rsize + nb)))
    ensures forall z :: z in Sizes(t) && nb <= z ==> rsize + nb <= z
  {
    hide *;
    v, rsize := v0, r0;
    var at := start;
    ghost var cur, par := t, parent;
    ghost var lo: nat, b: nat := lo0, b0;
    LeftmostStart(m, start, parent, t, i, lo0, b0, nb, v0, r0);
    while at != 0
      invariant Inside(m, at, par, cur, t, i, lo, b) && Leftmost(t, cur, nb, v0, r0, v, rsize)
          && (at == 0 <==> cur == Leaf)
      decreases cur
    {
      InsideChild(m, at, par, cur, t, i, lo, b, false);
      InsideChild(m, at, par, cur, t, i, lo, b, true);
      InsideTrie(m, at, par, cur, t, i, lo, b);
      LeftmostStep(t, cur, nb, v0, r0, v, rsize, lo, b);
      Fields(cur);
      var trem := Excess(SizeIn(Get(m, at + HEAD)), nb);
      if trem < rsize {
        rsize := trem;
        v := at;
      }
      // leftmost_child
      par := at;
      if Get(m, at + CHILD0) != 0 {
        at := Get(m, at + CHILD0);
        cur := cur.left;
        lo, b := NextLow(lo, b, false), NextBits(b);
      } else {
        at := Get(m, at + CHILD1);
        cur := cur.right;
        lo, b := NextLow(lo, b, true), NextBits(b);
      }
    }
    LeftmostEnd(t, nb, v0, r0, v, rsize);
  }

  lemma InsideTrie(m: Mem, p: int, parent: int, cur: Tree, t: Tree, i: nat, lo: nat, b: nat)
    requires Inside(m, p, parent, cur, t, i, lo, b)
    ensures IsTrie(cur, lo, b)
  {
  }

  lemma LeftmostStart(m: Mem, p: int, parent: int, t: Tree, i: nat, lo: nat, b: nat, nb: nat, v0: int, r0: nat)
    requires nb < WORD && Rep(m, p, parent, t, i) && IsTrie(t, lo, b)
    ensures Inside(m, p, parent, t, t, i, lo, b) && Leftmost(t, t, nb, v0, r0, v0, r0) && (p == 0 <==> t == Leaf)
  {
    if t.Node? {
      NodePositive(m, t.ring, t.size, parent, i);
    }
    forall z | z in Sizes(t) ensures SomeAtMost(t, z) {
    }
  }

  lemma LeftmostEnd(t: Tree, nb: nat, v0: int, r0: nat, v: int, rsize: nat)
    requires nb < WORD && Leftmost(t, Leaf, nb, v0, r0, v, rsize) && Comparable(t, nb, r0)
    ensures rsize <= r0 && ((v == v0 && rsize == r0) || (rsize < r0 && Holds(t, v, rsize + nb)))
    ensures forall z :: z in Sizes(t) && nb <= z ==> rsize + nb <= z
  {
    forall z ensures !SomeAtMost(Leaf, z) {
    }
  }

  // ---- the walk down the bits of the request ----

  /** What the walk towards size `nb` has established. The chunks left that may fit are in `cur`, or above all
      of them in `rest`, the deepest right subtree passed by. */
  ghost predicate Descending(t: Tree, cur: Tree, rest: Tree, nb: nat, v: int, rsize: nat, lo: nat, b: nat, key: nat)
    requires nb < WORD
  {
    && ((v == 0 && rsize == WORD - nb) || (v != 0 && 0 < rsize && Holds(t, v, rsize + nb)))
    && (nb >= SIZE_LIMIT ==> v == 0)
    && (nb < SIZE_LIMIT ==>
          && b <= 64 && lo <= nb < lo + Pow2(b) && key == Key(nb, lo, b)
          && (forall z :: z in Sizes(rest) ==> lo + Pow2(b) <= z)
          && Candidates(t, cur, rest, nb, v, rsize))
  }

  ghost predicate Candidates(t: Tree, cur: Tree, rest: Tree, nb: nat, v: int, rsize: nat) {
    forall z :: z in Sizes(t) && nb <= z ==> (v != 0 && rsize + nb <= z) || z in Sizes(cur) || SomeAtMost(rest, z)
  }

  /** What the walk leaves: a tree in which to look for the smallest. */
  ghost predicate Descended(t: Tree, rest: Tree, nb: nat, v: int, rsize: nat)
    requires nb < WORD
  {
    && ((v == 0 && rsize == WORD - nb) || (v != 0 && Holds(t, v, rsize + nb)))
    && Candidates(t, Leaf, rest, nb, v, rsize)
    && if nb >= SIZE_LIMIT then v == 0 else AllFit(rest, nb) || (v != 0 && rsize == 0)
  }

  ghost predicate Bounded(t: Tree) { forall z :: z in Sizes(t) ==> z < SIZE_LIMIT }

  lemma {:induction false} DescendExact(t: Tree, cur: Tree, rest: Tree, nb: nat, v: int)
    requires nb < SIZE_LIMIT && Holds(t, v, nb) && v != 0
    ensures Descended(t, cur, nb, v, 0)
  {
  }

  /** At the end of the bits only the subtree passed by is left. */
  lemma {:induction false} DescendEnd(t: Tree, rest: Tree, nb: nat, v: int, rsize: nat, lo: nat, b: nat, key: nat)
    requires nb < WORD && Descending(t, Leaf, rest, nb, v, rsize, lo, b, key) && Bounded(t)
    ensures Descended(t, rest, nb, v, rsize)
  {
  }

  lemma {:induction false} CandidatesStep(t: Tree, cur: Tree, rest: Tree, nb: nat, v: int, rsize: nat, v1: int,
      rsize1: nat, lo: nat, b: nat)
    requires Candidates(t, cur, rest, nb, v, rsize) && cur.Node? && IsTrie(cur, lo, b) && b > 0
        && lo <= nb < lo + Pow2(b)
    requires forall z :: z in Sizes(rest) ==> lo + Pow2(b) <= z
    requires (v != 0 ==> v1 != 0) && rsize1 <= rsize && (nb <= cur.size ==> v1 != 0 && rsize1 + nb <= cur.size)
    ensures var right := nb >= lo + Pow2(b - 1);
            var rest1 := if !right && cur.right.Node? then cur.right else rest;
            && Candidates(t, Child(cur, right), rest1, nb, v1, rsize1)
            && (forall z :: z in Sizes(rest1) ==> NextLow(lo, b, right) + Pow2(b - 1) <= z)
  {
    hide Pow2;
    HalfRange(b);
    var right := nb >= lo + Pow2(b - 1);
    var rest1 := if !right && cur.right.Node? then cur.right else rest;
    SizesInRange(cur.left, lo, b - 1);
    SizesInRange(cur.right, lo + Pow2(b - 1), b - 1);
    forall z | z in Sizes(t) && nb <= z ensures (v1 != 0 && rsize1 + nb <= z) || z in Sizes(Child(cur, right))
        || SomeAtMost(rest1, z) {
      if !(v1 != 0 && rsize1 + nb <= z) && z !in Sizes(Child(cur, right)) {
        if z in Sizes(cur) {
          assert z in Sizes(cur.right) && !right;
        } else {
          var y :| y in Sizes(rest) && y <= z;
          if !right && cur.right.Node? {
            assert cur.right.size in Sizes(cur.right) && cur.right.size < lo + Pow2(b) <= y;
          }
        }
      }
    }
  }

  lemma {:induction false} DescendStep(t: Tree, cur: Tree, rest: Tree, nb: nat, v: int, rsize: nat, lo: nat, b: nat,
      key: nat, right: bool)
    requires 0 < nb < WORD && Descending(t, cur, rest, nb, v, rsize, lo, b, key) && Bounded(t)
    requires cur.Node? && cur.ring != [] && IsTrie(cur, lo, b) && cur.ring[0] != 0 && Holds(t, cur.ring[0], cur.size)
        && cur.size in Sizes(t)
    requires right == TopBit(key) && cur.size != nb
    ensures var e := Excess(cur.size, nb);
            var rest1 := if !right && cur.right.Node? then cur.right else rest;
            && Descending(t, Child(cur, right), rest1, nb,
              if e < rsize then cur.ring[0] else v, if e < rsize then e else rsize,
                          NextLow(lo, b, right), NextBits(b), Doubled(key))
  {
    hide Pow2, Key, Doubled, TopBit, Candidates, Holds, Sizes;
    var e := Excess(cur.size, nb);
    var v1, rsize1 := if e < rsize then cur.ring[0] else v, if e < rsize then e else rsize;
    if v != 0 {
      HoldsSize(t, v, rsize + nb);
    }
    if nb < SIZE_LIMIT {
      HalfRange(b);
      TrieSize(cur, lo, b);
      NextKey(nb, lo, b);
      CandidatesStep(t, cur, rest, nb, v, rsize, v1, rsize1, lo, b);
    }
  }

  lemma TrieSize(t: Tree, lo: nat, b: nat)
    requires t.Node? && IsTrie(t, lo, b)
    ensures lo <= t.size < lo + Pow2(b)
  {
  }

  lemma {:induction false} DescendStart(m: Mem, start: int, parent: int, t: Tree, i: nat, nb: nat)
    requires MIN_LARGE <= nb < WORD && i == TreeIndex(nb) && i < TREE_BINS && Rep(m, start, parent, t, i)
        && IsTrie(t, TrieLow(i), TrieBits(i))
    ensures Inside(m, start, parent, t, t, i, TrieLow(i), TrieBits(i)) && Inside(m, 0, 0, Leaf, t, i, 0, 0)
    ensures Descending(t, t, Leaf, nb, 0, WORD - nb, TrieLow(i), TrieBits(i), StartKey(nb, i))
  {
    if nb < SIZE_LIMIT {
      IndexInTrie(nb);
      FirstKey(nb, i);
    }
  }

  lemma DescendPositive(t: Tree, cur: Tree, rest: Tree, nb: nat, v: int, rsize: nat, lo: nat, b: nat, key: nat)
    requires nb < WORD && Descending(t, cur, rest, nb, v, rsize, lo, b, key)
    ensures rsize > 0
  {
  }

  /** The right child differs from the child taken exactly when the walk goes left past a right subtree. */
  lemma ChildrenDiffer(m: Mem, p: int, parent: int, cur: Tree, t: Tree, i: nat, lo: nat, b: nat, right: bool)
    requires Inside(m, p, parent, cur, t, i, lo, b) && cur.Node?
    ensures var rt, next := Get(m, p + CHILD1), Get(m, p + ChildField(right));
            rt != 0 && rt != next <==> !right && cur.right.Node?
  {
    hide Rep, IsTrie, Holds, Sizes;
    TreeDisjoint(m, p, parent, cur, i, lo, b);
    ChildPointer(m, p, parent, cur, i, false);
    ChildPointer(m, p, parent, cur, i, true);
    if cur.left.Node? && cur.right.Node? {
      assert cur.left.ring[0] in cur.left.ring && cur.right.ring[0] in cur.right.ring;
      assert cur.left.ring[0] in Nodes(cur.left) && cur.right.ring[0] in Nodes(cur.right);
    }
  }

  lemma BoundedPart(t: Tree, cur: Tree)
    requires Bounded(t) && Sizes(cur) <= Sizes(t)
    ensures Bounded(cur)
  {
  }

  lemma InsideSizes(m: Mem, p: int, parent: int, cur: Tree, t: Tree, i: nat, lo: nat, b: nat)
    requires Inside(m, p, parent, cur, t, i, lo, b)
    ensures Sizes(cur) <= Sizes(t) && Rep(m, p, parent, cur, i) && IsTrie(cur, lo, b)
  {
  }

  /** The first loop of `tmalloc_large`. */
  method Descend(m: Mem, start: int, nb: nat, i: nat, ghost t: Tree, ghost parent: int)
    returns (at: int, v: int, rsize: nat, ghost rest: Tree, ghost par: int, ghost lo: nat, ghost b: nat)
    requires MIN_LARGE <= nb < WORD && i == TreeIndex(nb) && i < TREE_BINS && t.Node? && Bounded(t)
    requires Rep(m, start, parent, t, i) && IsTrie(t, TrieLow(i), TrieBits(i))
    ensures Descended(t, rest, nb, v, rsize) && Inside(m, at, par, rest, t, i, lo, b)
  {
    hide *;
    Limits();
    at, v, rsize := start, 0, WORD - nb;
    var key: nat, rst := StartKey(nb, i), 0;
    ghost var cur := t;
    par, lo, b := parent, TrieLow(i), TrieBits(i);
    rest := Leaf;
    ghost var rpar := 0;
    ghost var rlo: nat, rb: nat := 0, 0;
    DescendStart(m, start, parent, t, i, nb);
    while true
      invariant Inside(m, at, par, cur, t, i, lo, b) && cur.Node? && Inside(m, rst, rpar, rest, t, i, rlo, rb)
      invariant Descending(t, cur, rest, nb, v, rsize, lo, b, key)
      decreases cur
    {
      var right := TopBit(key);
      InsideSizes(m, at, par, cur, t, i, lo, b);
      InsideChild(m, at, par, cur, t, i, lo, b, true);
      InsideChild(m, at, par, cur, t, i, lo, b, right);
      ChildrenDiffer(m, at, par, cur, t, i, lo, b, right);
      BoundedPart(t, cur);
      BoundedAt(t, cur.size);
      DescendPositive(t, cur, rest, nb, v, rsize, lo, b, key);
      Fields(cur);
      ChildSmaller(cur, right);
      ExcessZero(cur.size, nb);
      if cur.size != nb { DescendStep(t, cur, rest, nb, v, rsize, lo, b, key, right); }
      var trem := Excess(SizeIn(Get(m, at + HEAD)), nb);
      if trem < rsize {
        v, rsize := at, trem;
        if rsize == 0 {
          DescendExact(t, cur, rest, nb, v);
          rest := cur;
          return;
        }
      }
      var rt := Get(m, at + CHILD1);
      var next := Get(m, at + ChildField(right));
      if rt != 0 && rt != next {
        rst := rt;
        rest, rpar, rlo, rb := cur.right, at, NextLow(lo, b, true), NextBits(b);
      }
      par, lo, b := at, NextLow(lo, b, right), NextBits(b);
      cur, at, key := Child(cur, right), next, Doubled(key);
      if at == 0 {
        DescendEnd(t, rest, nb, v, rsize, lo, b, key);
        at, par, lo, b := rst, rpar, rlo, rb;
        return;
      }
    }
  }

  lemma Limits()
    ensures MIN_LARGE == 256 && SIZE_LIMIT == 0x100_0000_0000 && WORD == 0x1_0000_0000_0000_0000 && TREE_BINS == 32
  {
  }

  lemma BoundedAt(t: Tree, z: nat)
    requires Bounded(t)
    ensures z in Sizes(t) ==> z < SIZE_LIMIT
  {
  }

  lemma ChildSmaller(t: Tree, right: bool)
    requires t.Node?
    ensures Child(t, right) < t
  {
  }

  lemma ExcessZero(z: nat, nb: nat)
    requires z < WORD && nb < WORD
    ensures Excess(z, nb) == 0 <==> z == nb
  {
  }

  // ---- all bins ----

  ghost predicate IsSize(trees: seq<Tree>, z: nat) { exists i :: 0 <= i < |trees| && z in Sizes(trees[i]) }

  /** The chunk at `v` has the smallest size that fits. */
  ghost predicate IsBestFit(trees: seq<Tree>, nb: nat, v: int, z: nat) {
    && nb <= z && TreeIndex(z) < |trees| && Holds(trees[TreeIndex(z)], v, z)
    && forall y :: IsSize(trees, y) && nb <= y ==> z <= y
  }

  lemma BinAt(m: Mem, ms: int, treemap: bv32, trees: seq<Tree>, i: nat)
    requires TreeBins(m, ms, treemap, trees) && i < TREE_BINS
    ensures |trees| == TREE_BINS && TreeBinOk(m, TreeSlot(ms, i), Marked(treemap, i), trees[i], i)
  {
  }

  lemma BinParts(m: Mem, slot: int, marked: bool, t: Tree, i: nat)
    requires TreeBinOk(m, slot, marked, t, i)
    ensures Rep(m, Get(m, slot), slot, t, i) && IsTrie(t, TrieLow(i), TrieBits(i)) && Bounded(t)
        && (marked <==> t.Node?)
    ensures Get(m, slot) != 0 <==> t.Node?
    ensures forall z :: z in Sizes(t) ==> MIN_LARGE <= z < SIZE_LIMIT && TreeIndex(z) == i
  {
    if t.Node? {
      NodePositive(m, t.ring, t.size, slot, i);
    }
  }

  /** Nothing in a lower bin fits, and everything in a higher bin does. */
  lemma {:induction false} BinOrder(m: Mem, ms: int, treemap: bv32, trees: seq<Tree>, nb: nat, j: nat, z: nat)
    requires TreeBins(m, ms, treemap, trees) && j < TREE_BINS && z in Sizes(trees[j]) && MIN_LARGE <= nb
    ensures MIN_LARGE <= z < SIZE_LIMIT && TreeIndex(z) == j
    ensures nb < SIZE_LIMIT && j < TreeIndex(nb) ==> z < nb
    ensures nb < SIZE_LIMIT && j > TreeIndex(nb) ==> z > nb
  {
    hide TreeIndex;
    BinAt(m, ms, treemap, trees, j);
    BinParts(m, TreeSlot(ms, j), Marked(treemap, j), trees[j], j);
    if nb < SIZE_LIMIT {
      if nb <= z { IndexGrows(nb, z); }
      if z <= nb { IndexGrows(z, nb); }
    }
  }

  /** The smallest chunk of the first non-empty bin above is the smallest above. */
  lemma {:induction false} NextBin(m: Mem, ms: int, treemap: bv32, trees: seq<Tree>, i: int, j: nat, z: nat, y: nat)
    requires TreeBins(m, ms, treemap, trees) && i < j < TREE_BINS && z in Sizes(trees[j])
    requires forall k :: 0 <= k < j && i < k ==> !Marked(treemap, k)
    requires forall x :: x in Sizes(trees[j]) ==> z <= x
    requires IsSize(trees, y) && TreeIndex(y) > i
    ensures z <= y
  {
    hide TreeIndex, Marked;
    var k :| 0 <= k < |trees| && y in Sizes(trees[k]);
    BinAt(m, ms, treemap, trees, k);
    BinParts(m, TreeSlot(ms, k), Marked(treemap, k), trees[k], k);
    BinAt(m, ms, treemap, trees, j);
    BinParts(m, TreeSlot(ms, j), Marked(treemap, j), trees[j], j);
    if k > j && y < z {
      IndexGrows(y, z);
    }
  }

  lemma DescendedCompares(t: Tree, rest: Tree, nb: nat, v: int, rsize: nat)
    requires MIN_LARGE <= nb < WORD && Descended(t, rest, nb, v, rsize) && Bounded(rest)
    ensures Comparable(rest, nb, rsize)
  {
    if nb >= SIZE_LIMIT || (v != 0 && rsize == 0) {
      assert NoneCloser(rest, nb, rsize);
    }
  }

  /** Nothing in the bin of the request fits. */
  lemma NothingInBin(t: Tree, nb: nat, rsize: nat)
    requires nb < WORD && Descended(t, Leaf, nb, 0, rsize)
    ensures rsize == WORD - nb && forall z :: z in Sizes(t) ==> z < nb
  {
    forall z ensures !SomeAtMost(Leaf, z) {
    }
  }

  /** The best of the walk and the subtree passed by is the best of the bin. */
  lemma {:induction false} FitInBin(t: Tree, rest: Tree, nb: nat, v0: int, r0: nat, v: int, rsize: nat)
    requires MIN_LARGE <= nb < WORD && Descended(t, rest, nb, v0, r0) && Bounded(t) && (v0 != 0 || rest.Node?)
        && Sizes(rest) <= Sizes(t)
    requires forall q, z :: Holds(rest, q, z) ==> Holds(t, q, z) && q != 0
    requires rsize <= r0 && ((v == v0 && rsize == r0) || (rsize < r0 && Holds(rest, v, rsize + nb)))
    requires forall z :: z in Sizes(rest) && nb <= z ==> rsize + nb <= z
    ensures if nb >= SIZE_LIMIT then v == 0
            else v != 0 && Holds(t, v, rsize + nb) && rsize + nb in Sizes(t) &&
                 forall z :: z in Sizes(t) && nb <= z ==> rsize + nb <= z
  {
    hide Sizes, Holds;
    EmptySizes(Leaf);
    if Holds(rest, v, rsize + nb) {
      HoldsSize(t, v, rsize + nb);
    }
    if nb < SIZE_LIMIT {
      if v0 == 0 {
        RootSize(rest);
      } else {
        HoldsSize(t, v0, r0 + nb);
      }
      forall z | z in Sizes(t) && nb <= z ensures rsize + nb <= z {
        if SomeAtMost(rest, z) {
          var y :| y in Sizes(rest) && y <= z;
        }
      }
    }
  }

  lemma InsideHolds(m: Mem, p: int, parent: int, cur: Tree, t: Tree, i: nat, lo: nat, b: nat)
    requires Inside(m, p, parent, cur, t, i, lo, b)
    ensures forall q, z :: Holds(cur, q, z) ==> Holds(t, q, z) && q != 0
    ensures p == 0 <==> cur == Leaf
  {
    forall q, z | Holds(cur, q, z) ensures q != 0 {
      HoldsSize(cur, q, z);
      NodeSize(m, p, parent, cur, i, q);
    }
    if cur.Node? {
      NodePositive(m, cur.ring, cur.size, parent, i);
    }
  }

  lemma {:induction false} BestInBin(m: Mem, ms: int, treemap: bv32, trees: seq<Tree>, nb: nat, v: int, z: nat)
    requires TreeBins(m, ms, treemap, trees) && MIN_LARGE <= nb < SIZE_LIMIT && TreeIndex(nb) < TREE_BINS && nb <= z
    requires Holds(trees[TreeIndex(nb)], v, z) && z in Sizes(trees[TreeIndex(nb)])
    requires forall y :: y in Sizes(trees[TreeIndex(nb)]) && nb <= y ==> z <= y
    ensures IsBestFit(trees, nb, v, z)
  {
    hide TreeIndex, Marked;
    var i := TreeIndex(nb);
    BinOrder(m, ms, treemap, trees, nb, i, z);
    forall y | IsSize(trees, y) && nb <= y ensures z <= y {
      var k :| 0 <= k < |trees| && y in Sizes(trees[k]);
      BinOrder(m, ms, treemap, trees, nb, k, y);
      if k != i { BinOrder(m, ms, treemap, trees, z, k, y); }
    }
  }

  lemma {:induction false} BestAbove(m: Mem, ms: int, treemap: bv32, trees: seq<Tree>, nb: nat, j: nat, v: int, z: nat)
    requires TreeBins(m, ms, treemap, trees) && MIN_LARGE <= nb < SIZE_LIMIT && TreeIndex(nb) < j < TREE_BINS
    requires Holds(trees[j], v, z) && z in Sizes(trees[j]) && forall y :: y in Sizes(trees[j]) ==> z <= y
    requires forall k :: TreeIndex(nb) < k < j ==> !Marked(treemap, k)
    requires forall y :: y in Sizes(trees[TreeIndex(nb)]) ==> y < nb
    ensures IsBestFit(trees, nb, v, z)
  {
    hide TreeIndex, Marked;
    var i := TreeIndex(nb);
    BinOrder(m, ms, treemap, trees, nb, j, z);
    forall y | IsSize(trees, y) && nb <= y ensures z <= y {
      var k :| 0 <= k < |trees| && y in Sizes(trees[k]);
      BinOrder(m, ms, treemap, trees, nb, k, y);
      NextBin(m, ms, treemap, trees, i, j, z, y);
    }
  }

  lemma {:induction false} NoneFits(m: Mem, ms: int, treemap: bv32, trees: seq<Tree>, nb: nat, i: nat)
    requires TreeBins(m, ms, treemap, trees) && MIN_LARGE <= nb && i == TreeIndex(nb) && i < TREE_BINS
    requires nb < SIZE_LIMIT ==> forall y :: y in Sizes(trees[i]) ==> y < nb
    requires nb < SIZE_LIMIT ==> forall k :: i < k < TREE_BINS ==> !Marked(treemap, k)
    ensures forall y: nat :: IsSize(trees, y) ==> y < nb
  {
    hide TreeIndex, Marked;
    forall y: nat | IsSize(trees, y) ensures y < nb {
      var k :| 0 <= k < |trees| && y in Sizes(trees[k]);
      BinOrder(m, ms, treemap, trees, nb, k, y);
      BinAt(m, ms, treemap, trees, k);
      BinParts(m, TreeSlot(ms, k), Marked(treemap, k), trees[k], k);
    }
  }

  lemma IndexSmall(s: nat)
    ensures TreeIndex(s) < TREE_BINS
  {
    var x := s / 256 % 0x1_0000_0000;
    if 0 < x <= 0xffff {
      LogAtMost(x, Log2(x));
    }
  }

  lemma AboveMap(treemap: bv32, i: nat)
    requires i < 32
    ensures Above(treemap, i) == 0 ==> forall k :: i < k < 32 ==> !Marked(treemap, k)
    ensures Above(treemap, i) != 0 ==>
        var j := LeastIndex(Above(treemap, i));
        i < j < 32 && Marked(treemap, j) && forall k :: i < k < j ==> !Marked(treemap, k)
  {
    hide Above, Marked, LeastIndex;
    ZeroMap(Above(treemap, i));
    forall k | 0 <= k < 32 ensures Marked(Above(treemap, i), k) <==> i < k && Marked(treemap, k) {
      AboveMarked(treemap, i, k);
    }
    if Above(treemap, i) != 0 {
      LeastIsFirst(Above(treemap, i));
    }
  }

  /** A tree of which all or none fits. */
  lemma OneSided(m: Mem, ms: int, treemap: bv32, trees: seq<Tree>, nb: nat, j: nat)
    requires TreeBins(m, ms, treemap, trees) && MIN_LARGE <= nb < WORD && j < TREE_BINS
        && (nb < SIZE_LIMIT ==> j > TreeIndex(nb))
    ensures Comparable(trees[j], nb, WORD - nb) && (nb < SIZE_LIMIT ==> AllFit(trees[j], nb))
  {
    hide TreeIndex, Marked;
    forall z | z in Sizes(trees[j]) ensures z < SIZE_LIMIT && (nb < SIZE_LIMIT ==> nb <= z) {
      BinOrder(m, ms, treemap, trees, nb, j, z);
    }
    if nb >= SIZE_LIMIT {
      assert NoneCloser(trees[j], nb, WORD - nb);
    } else {
      assert AllFit(trees[j], nb);
    }
  }

  lemma BelowWord(t: Tree)
    requires Bounded(t)
    ensures forall z :: z in Sizes(t) ==> z < WORD
  {
  }

  /** The search of `tmalloc_large`: 0 if nothing fits. */
  method BestFit(m: Mem, ms: int, treemap: bv32, nb: nat, ghost trees: seq<Tree>) returns (v: int, rsize: nat)
    requires MIN_LARGE <= nb < WORD && TreeBins(m, ms, treemap, trees)
    ensures v == 0 ==> forall z: nat :: IsSize(trees, z) ==> z < nb
    ensures v != 0 ==> IsBestFit(trees, nb, v, rsize + nb)
  {
    hide *;
    Limits();
    IndexSmall(nb);
    var i := TreeIndex(nb);
    BinAt(m, ms, treemap, trees, i);
    BinParts(m, TreeSlot(ms, i), Marked(treemap, i), trees[i], i);
    var at := Get(m, TreeSlot(ms, i));
    v, rsize := 0, WORD - nb;
    if at != 0 {
      ghost var rest, par, lo, b;
      at, v, rsize, rest, par, lo, b := Descend(m, at, nb, i, trees[i], TreeSlot(ms, i));
      InsideSizes(m, at, par, rest, trees[i], i, lo, b);
      InsideHolds(m, at, par, rest, trees[i], i, lo, b);
      BoundedPart(trees[i], rest);
      if at != 0 || v != 0 {
        DescendedCompares(trees[i], rest, nb, v, rsize);
        BelowWord(rest);
        ghost var v0, r0 := v, rsize;
        v, rsize := Smallest(m, at, nb, v, rsize, rest, par, i, lo, b);
        FitInBin(trees[i], rest, nb, v0, r0, v, rsize);
        if nb < SIZE_LIMIT {
          BestInBin(m, ms, treemap, trees, nb, v, rsize + nb);
        } else {
          NoneFits(m, ms, treemap, trees, nb, i);
        }
        return;
      }
      NothingInBin(trees[i], nb, rsize);
    } else {
      EmptySizes(trees[i]);
    }
    AboveMap(treemap, i);
    var left := Above(treemap, i);
    if left == 0 {
      NoneFits(m, ms, treemap, trees, nb, i);
      return;
    }
    var j := LeastIndex(left);
    BinAt(m, ms, treemap, trees, j);
    BinParts(m, TreeSlot(ms, j), Marked(treemap, j), trees[j], j);
    at := Get(m, TreeSlot(ms, j));
    OneSided(m, ms, treemap, trees, nb, j);
    BelowWord(trees[j]);
    v, rsize := Smallest(m, at, nb, v, rsize, trees[j], TreeSlot(ms, j), j, TrieLow(j), TrieBits(j));
    TreePositive(m, at, TreeSlot(ms, j), trees[j], j);
    SmallestOf(trees[j], nb, v, rsize);
    if nb < SIZE_LIMIT {
      BestAbove(m, ms, treemap, trees, nb, j, v, rsize + nb);
    } else {
      NoneFits(m, ms, treemap, trees, nb, i);
    }
  }

  /** The smallest chunk of a whole tree. */
  lemma SmallestOf(t: Tree, nb: nat, v: int, rsize: nat)
    requires MIN_LARGE <= nb < WORD && t.Node? && Bounded(t) && (nb < SIZE_LIMIT ==> AllFit(t, nb))
    requires rsize <= WORD - nb && ((v == 0 && rsize == WORD - nb) || (rsize < WORD - nb && Holds(t, v, rsize + nb)))
    requires forall q, z :: Holds(t, q, z) ==> q != 0
    requires forall z :: z in Sizes(t) && nb <= z ==> rsize + nb <= z
    ensures if nb >= SIZE_LIMIT then v == 0
            else v != 0 && Holds(t, v, rsize + nb) && rsize + nb in Sizes(t) &&
                 forall z :: z in Sizes(t) ==> rsize + nb <= z
  {
    assert t.size in Sizes(t);
    if Holds(t, v, rsize + nb) {
      HoldsSize(t, v, rsize + nb);
    }
  }

  lemma TreePositive(m: Mem, p: int, parent: int, t: Tree, i: nat)
    requires Rep(m, p, parent, t, i)
    ensures forall q, z :: Holds(t, q, z) ==> q != 0
  {
    forall q, z | Holds(t, q, z) ensures q != 0 {
      HoldsSize(t, q, z);
      NodeSize(m, p, parent, t, i, q);
    }
  }

  lemma RootSize(t: Tree)
    requires t.Node?
    ensures t.size in Sizes(t)
  {
  }

  lemma EmptySizes(t: Tree)
    requires !t.Node?
    ensures Sizes(t) == {}
  {
  }

  /** The search of `tmalloc_small`: the smallest chunk of the first non-empty tree is the smallest of all. */
  method SmallestLarge(m: Mem, ms: int, treemap: bv32, nb: nat, ghost trees: seq<Tree>) returns (v: int, rsize: nat)
    requires nb < MIN_LARGE && treemap != 0 && TreeBins(m, ms, treemap, trees)
    ensures v != 0 && IsBestFit(trees, nb, v, rsize + nb)
  {
    hide *;
    Limits();
    var i := LeastIndex(treemap);
    LeastIsFirst(treemap);
    BinAt(m, ms, treemap, trees, i);
    BinParts(m, TreeSlot(ms, i), Marked(treemap, i), trees[i], i);
    var root := Get(m, TreeSlot(ms, i));
    ghost var t := trees[i];
    RootSize(t);
    BelowWord(t);
    RootHolds(m, root, TreeSlot(ms, i), t, i);
    AllLargeFit(t, nb, i);
    var size := SizeIn(Get(m, root + HEAD));
    ExcessFits(size, nb);
    v, rsize := Smallest(m, root, nb, root, Excess(size, nb), t, TreeSlot(ms, i), i, TrieLow(i), TrieBits(i));
    TreePositive(m, root, TreeSlot(ms, i), t, i);
    BestOfFirst(m, ms, treemap, trees, nb, i, v, rsize + nb);
  }

  lemma RootHolds(m: Mem, p: int, parent: int, t: Tree, i: nat)
    requires Rep(m, p, parent, t, i) && t.Node?
    ensures SizeIn(Get(m, p + HEAD)) == t.size && Holds(t, p, t.size)
  {
    HeadNode(m, t.ring, t.size, parent, i);
    assert p in t.ring;
  }

  lemma AllLargeFit(t: Tree, nb: nat, i: nat)
    requires nb < MIN_LARGE && forall z :: z in Sizes(t) ==> MIN_LARGE <= z < SIZE_LIMIT && TreeIndex(z) == i
    ensures forall r: nat :: Comparable(t, nb, r)
    ensures forall z :: z in Sizes(t) ==> nb <= z
  {
    hide TreeIndex;
    assert AllFit(t, nb);
  }

  lemma ExcessFits(z: nat, nb: nat)
    requires nb <= z < WORD
    ensures Excess(z, nb) == z - nb
  {
  }

  lemma {:induction false} BestOfFirst(m: Mem, ms: int, treemap: bv32, trees: seq<Tree>, nb: nat, j: nat, v: int,
      z: nat)
    requires TreeBins(m, ms, treemap, trees) && nb < MIN_LARGE && j < TREE_BINS && nb <= z
    requires Holds(trees[j], v, z) && forall y :: y in Sizes(trees[j]) && nb <= y ==> z <= y
    requires forall k :: 0 <= k < j ==> !Marked(treemap, k)
    ensures IsBestFit(trees, nb, v, z)
  {
    hide TreeIndex, Marked, Sizes, Holds, TreeBinOk;
    HoldsSize(trees[j], v, z);
    BinOrder(m, ms, treemap, trees, MIN_LARGE, j, z);
    forall x | x in Sizes(trees[j]) ensures z <= x {
      BinOrder(m, ms, treemap, trees, MIN_LARGE, j, x);
    }
    forall y: nat | IsSize(trees, y) && nb <= y ensures z <= y {
      NextBin(m, ms, treemap, trees, -1, j, z, y);
    }
  }
}
