/** Bin numbers of `dlmalloc.c`: the small bins by size, and the tree bins, each of which holds half of a
    power-of-two range of sizes and is a trie on the bits below. */
module BinIndex {
  import opened Rounding

  const SMALL_BINS: nat := 32
  const TREE_BINS: nat := 32
  const MIN_LARGE: nat := 256
  /** Sizes stay below this: `compute_tree_index` keeps only 32 bits of size / 256. */
  const SIZE_LIMIT: nat := 0x100_0000_0000

  /** `is_small`. */
  predicate IsSmall(s: nat) { s / 8 < SMALL_BINS }

  function Log2(x: nat): (k: nat)
    requires x > 0
    ensures Pow2(k) <= x < Pow2(k + 1)
  {
    if x == 1 then 0 else
      assert x / 2 * 2 <= x < (x / 2 + 1) * 2;
      1 + Log2(x / 2)
  }

  /** `compute_tree_index`, with the quotient narrowed to 32 bits. */
  function TreeIndex(s: nat): nat {
    var x := s / 256 % 0x1_0000_0000;
    if x == 0 then 0
    else if x > 0xffff then TREE_BINS - 1
    else 2 * Log2(x) + s / Pow2(Log2(x) + 7) % 2
  }

  /** `minsize_for_tree_index`. */
  function Low(i: nat): (r: nat)
    ensures r > 0
  {
    (2 + i % 2) * Pow2(i / 2 + 7)
  }

  /** Number of bits that tell the sizes of a bin apart, and the least number with the bits above them. */
  function TrieBits(i: nat): (b: nat)
    ensures i < TREE_BINS ==> b <= 64
  {
    if i == TREE_BINS - 1 then 64 else i / 2 + 7
  }

  function TrieLow(i: nat): nat { if i == TREE_BINS - 1 then 0 else Low(i) }

  /** `leftshift_for_tree_index`. */
  function LeftShift(i: nat): nat
    requires i < TREE_BINS
  {
    if i == TREE_BINS - 1 then 0 else 63 - (i / 2 + 6)
  }

  lemma Pow2Step(n: nat)
    ensures Pow2(n + 1) == 2 * Pow2(n)
  {
  }

  lemma LowNext(i: nat)
    ensures Low(i + 1) == Low(i) + Pow2(i / 2 + 7)
  {
    hide Pow2;
    Pow2Step(i / 2 + 7);
    if i % 2 == 0 {
      assert (i + 1) % 2 == 1 && (i + 1) / 2 == i / 2;
    } else {
      assert (i + 1) % 2 == 0 && (i + 1) / 2 == i / 2 + 1;
    }
  }

  lemma {:induction false} LowGrows(i: nat, j: nat)
    requires i <= j
    ensures Low(i) <= Low(j)
    decreases j - i
  {
    hide Low;
    if i < j {
      LowNext(j - 1);
      LowGrows(i, j - 1);
    }
  }

  lemma LowIs(k: nat, bit: nat)
    requires bit < 2
    ensures Low(2 * k + bit) == (2 + bit) * Pow2(k + 7)
  {
    hide Pow2;
    assert (2 * k + bit) / 2 == k && (2 * k + bit) % 2 == bit;
  }

  lemma IndexIs(s: nat)
    requires MIN_LARGE <= s < 0x100_0000
    ensures TreeIndex(s) == 2 * Log2(s / 256) + s / Pow2(Log2(s / 256) + 7) % 2
  {
    hide Log2, Pow2;
    assert s / 256 % 0x1_0000_0000 == s / 256;
  }

  /** The bin of a size below 2^24. */
  lemma {:induction false} IndexBounds(s: nat)
    requires MIN_LARGE <= s < 0x100_0000
    ensures TreeIndex(s) < TREE_BINS && Low(TreeIndex(s)) <= s < Low(TreeIndex(s) + 1)
  {
    hide Log2, Pow2, TreeIndex, Low;
    var x := s / 256;
    var k := Log2(x);
    LogAtMost(x, k);
    var p := Pow2(k + 7);
    ScaledBounds(s, x, k, p);
    IndexIs(s);
    QuotientTwoOrThree(s, p);
    var bit := if s < 3 * p then 0 else 1;
    LowIs(k, bit);
    LowNext(2 * k + bit);
    assert (2 * k + bit) / 2 == k;
  }

  lemma LogAtMost(x: nat, k: nat)
    requires Pow2(k) <= x <= 0xffff
    ensures k < 16
  {
    hide Pow2;
    if k >= 16 {
      Pow2Mono(16, k);
      SmallPowers();
    }
  }

  lemma SmallPowers()
    ensures Pow2(0) == 1 && Pow2(7) == 128 && Pow2(8) == 256 && Pow2(16) == 0x1_0000
  {
    PowZero();
    hide Pow2;
    Pow2Step(0); Pow2Step(1); Pow2Step(2); Pow2Step(3); Pow2Step(4); Pow2Step(5); Pow2Step(6); Pow2Step(7);
    Pow2Add(8, 8);
  }

  lemma ScaledBounds(s: nat, x: nat, k: nat, p: nat)
    requires x == s / 256 && Pow2(k) <= x < Pow2(k + 1) && p == Pow2(k + 7)
    ensures 2 * p <= s < 4 * p
  {
    hide Pow2;
    SmallPowers();
    Pow2Add(7, k);
    Pow2Step(k);
  }

  lemma QuotientTwoOrThree(s: nat, p: nat)
    requires 0 < p && 2 * p <= s < 4 * p
    ensures s / p % 2 == if s < 3 * p then 0 else 1
  {
    if s < 3 * p {
      DivIs(s, p, 2, s - 2 * p);
    } else {
      DivIs(s, p, 3, s - 3 * p);
    }
  }

  /** Every size lies in the range of its bin. */
  lemma {:induction false} IndexInTrie(s: nat)
    requires MIN_LARGE <= s < SIZE_LIMIT
    ensures var i := TreeIndex(s); i < TREE_BINS && TrieLow(i) <= s < TrieLow(i) + Pow2(TrieBits(i))
  {
    hide Low, Pow2, TreeIndex;
    var i := TreeIndex(s);
    if s < 0x100_0000 {
      IndexBounds(s);
      LowNext(i);
    } else {
      LastBin(s);
    }
    if i == TREE_BINS - 1 {
      Pow2Mono(40, 64);
      assert Pow2(40) == SIZE_LIMIT by { LimitIs(); }
    }
  }

  lemma LimitIs()
    ensures Pow2(40) == SIZE_LIMIT && Pow2(64) == 0x1_0000_0000_0000_0000 && Pow2(63) == 0x8000_0000_0000_0000
  {
    hide Pow2;
    SmallPowers();
    Pow2Add(16, 16);
    Pow2Add(8, 32);
    Pow2Add(32, 32);
    Pow2Step(63);
  }

  lemma LastBin(s: nat)
    requires 0x100_0000 <= s < SIZE_LIMIT
    ensures TreeIndex(s) == TREE_BINS - 1
  {
    assert s / 256 % 0x1_0000_0000 == s / 256;
  }

  /** Larger sizes are never in lower bins. */
  lemma {:induction false} IndexGrows(s: nat, z: nat)
    requires MIN_LARGE <= s <= z < SIZE_LIMIT
    ensures TreeIndex(s) <= TreeIndex(z)
  {
    hide Low, TreeIndex;
    if z < 0x100_0000 {
      IndexBounds(s);
      IndexBounds(z);
      if TreeIndex(z) < TreeIndex(s) {
        LowGrows(TreeIndex(z) + 1, TreeIndex(s));
      }
    } else {
      LastBin(z);
      if s < 0x100_0000 {
        IndexBounds(s);
      } else {
        LastBin(s);
      }
    }
  }

  // ---- the key of the walk through a trie ----

  const TOP_BIT: nat := 0x8000_0000_0000_0000
  const WORD: nat := 0x1_0000_0000_0000_0000

  /** Bits of `s` below the range [lo, lo + 2^b), shifted to the top of the word. */
  function Key(s: nat, lo: nat, b: nat): nat
    requires b <= 64 && lo <= s
  {
    (s - lo) * Pow2(64 - b)
  }

  predicate TopBit(key: nat) { key >= TOP_BIT }

  /** The size shifted left so that the first bit to look at is the top bit. */
  function StartKey(s: nat, i: nat): nat
    requires i < TREE_BINS
  {
    s * Pow2(LeftShift(i)) % WORD
  }

  function Doubled(key: nat): nat { key * 2 % WORD }

  /** The first key is the size shifted left, in 64 bits. */
  lemma {:induction false} FirstKey(s: nat, i: nat)
    requires i < TREE_BINS && TrieLow(i) <= s < TrieLow(i) + Pow2(TrieBits(i))
    ensures StartKey(s, i) == Key(s, TrieLow(i), TrieBits(i)) < WORD
  {
    hide Pow2;
    var lo, b := TrieLow(i), TrieBits(i);
    LimitIs();
    PowZero();
    Pow2Add(b, 64 - b);
    assert LeftShift(i) == 64 - b;
    ShiftedKey(s, lo, if i == TREE_BINS - 1 then 0 else 2 + i % 2, Pow2(b), Pow2(64 - b));
  }

  lemma {:induction false} ShiftedKey(s: nat, lo: nat, q: nat, p: nat, c: nat)
    requires lo == q * p && lo <= s < lo + p && c > 0 && p * c == WORD
    ensures s * c % WORD == (s - lo) * c < WORD
  {
    MulLess(s - lo, p, c);
    MulAssociates(q, p, c);
    MulSplit(s, lo, c);
    DivIs(s * c, WORD, q, (s - lo) * c);
  }

  lemma MulSplit(s: int, lo: int, c: int)
    ensures s * c == (s - lo) * c + lo * c
  {
  }

  lemma PowZero()
    ensures Pow2(0) == 1
  {
  }

  /** The top bit of the key is the half of the range; shifting gives the key for that half. */
  lemma {:induction false} NextKey(s: nat, lo: nat, b: nat)
    requires 0 < b <= 64 && lo <= s < lo + Pow2(b)
    ensures var k, h := Key(s, lo, b), Pow2(b - 1);
            && (TopBit(k) <==> s >= lo + h)
            && Doubled(k) == (if s >= lo + h then Key(s, lo + h, b - 1) else Key(s, lo, b - 1)) < WORD
            && Pow2(b) == 2 * h
  {
    hide Pow2;
    var c, h := Pow2(64 - b), Pow2(b - 1);
    LimitIs();
    Pow2Step(b - 1);
    Pow2Step(64 - b);
    Pow2Add(b - 1, 64 - b);
    var x := s - lo;
    assert h * c == TOP_BIT;
    MulCompare(x, h, c);
    KeyParts(x, h, c);
  }

  lemma {:induction false} KeyParts(x: nat, h: nat, c: nat)
    requires c > 0 && h * c == TOP_BIT && x < 2 * h
    ensures x * c * 2 % WORD == (if x >= h then (x - h) * (2 * c) else x * (2 * c)) < WORD
  {
    MulLess(x, 2 * h, c);
    assert (2 * h) * c == 2 * (h * c);
    assert x * c * 2 == x * (2 * c);
    if x >= h {
      assert (x - h) * (2 * c) == x * (2 * c) - h * (2 * c);
      assert h * (2 * c) == WORD;
      DivIs(x * c * 2, WORD, 1, (x - h) * (2 * c));
    } else {
      MulLess(x, h, 2 * c);
      DivIs(x * c * 2, WORD, 0, x * (2 * c));
    }
  }
}
