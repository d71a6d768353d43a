/** Operations on whole numbers: normal form, bits, shifting with rounding (`mpb_renorm`, `mpb_get_bit`,
    `mpb_floor_log2`, `mpb_shr_round`). */
module Bignum {
  import opened Rounding
  import opened Reciprocal
  import opened Limbs

  /** `mpb_renorm`. */
  method Renorm(x: Number)
    requires x.tab != []
    modifies x`tab
    ensures x.tab != [] && IsNormal(x.tab) && Value(x.tab) == Value(old(x.tab)) && |x.tab| <= |old(x.tab)|
  {
    hide Value;
    while |x.tab| > 1 && x.tab[|x.tab| - 1] == 0
      invariant 0 < |x.tab| <= |old(x.tab)| && Value(x.tab) == Value(old(x.tab))
      decreases |x.tab|
    {
      ghost var was := x.tab;
      x.tab := x.tab[..|x.tab| - 1];
      assert was == x.tab + [0];
      DropZero(x.tab);
    }
  }

  lemma DropZero(s: seq<Limb>)
    ensures Value(s + [0]) == Value(s)
  {
    ValueAppend(s, [0]);
    ValueOne(0);
  }

  lemma {:induction false} WeightIsPow2(l: nat)
    ensures Weight(l) == Pow2(32 * l)
  {
    Pow2Is32();
    PowPow(2, 32, l);
  }

  /** Splitting a number at a limb. */
  lemma {:induction false} SplitAt(s: seq<Limb>, l: nat)
    requires l <= |s|
    ensures Value(s) == Value(s[l..]) * Weight(l) + Value(s[..l]) && Value(s[..l]) < Weight(l)
  {
    assert s == s[..l] + s[l..];
    ValueAppend(s[..l], s[l..]);
    ValueBound(s[..l]);
  }

  /** n / 2^(32 l + k), for n split at limb l. */
  lemma {:induction false} SplitBits(n: nat, l: nat, k: nat, high: nat, low: nat)
    requires n == high * Weight(l) + low && low < Weight(l)
    ensures n / Pow2(32 * l + k) == high / Pow2(k)
    ensures n % Pow2(32 * l + k) == (high % Pow2(k)) * Weight(l) + low
  {
    hide Weight, Pow2;
    WeightIsPow2(l);
    Pow2Add(32 * l, k);
    var q, m := Rounding.Divide(high, Pow2(k));
    DivIs(high, Pow2(k), q, m);
    SplitProduct(n, q, m, Pow2(k), Weight(l), low);
    DivIs(n, Pow2(32 * l + k), q, m * Weight(l) + low);
  }

  lemma {:induction false} SplitProduct(n: nat, q: nat, m: nat, p: nat, w: nat, low: nat)
    requires n == (q * p + m) * w + low && m < p && low < w
    ensures n == q * (w * p) + (m * w + low) && m * w + low < w * p
  {
    assert (q * p + m) * w == (q * p) * w + m * w;
    assert (q * p) * w == q * (w * p);
    MulAtMost(m + 1, p, w);
    assert (m + 1) * w == m * w + w && p * w == w * p;
  }

  // ---- bits ----

  /** Bit k of n. */
  function Bit(n: nat, k: nat): nat { n / Pow2(k) % 2 }

  /** `mpb_get_bit`. */
  method GetBit(x: Number, k: nat) returns (b: nat)
    ensures b == Bit(Value(x.tab), k)
  {
    var l := k / 32;
    if l >= |x.tab| {
      b := 0;
      BitAbove(x.tab, k);
    } else {
      b := x.tab[l] / Pow2(k % 32) % 2;
      BitInLimb(x.tab, k);
    }
  }

  lemma {:induction false} BitAbove(s: seq<Limb>, k: nat)
    requires k / 32 >= |s|
    ensures Value(s) < Pow2(k) && Bit(Value(s), k) == 0
  {
    hide Weight, Value;
    ValueBound(s);
    WeightIsPow2(|s|);
    Pow2Mono(32 * |s|, k);
    DivIs(Value(s), Pow2(k), 0, Value(s));
  }

  lemma {:induction false} BitInLimb(s: seq<Limb>, k: nat)
    requires k / 32 < |s|
    ensures Bit(Value(s), k) == s[k / 32] / Pow2(k % 32) % 2
  {
    hide Weight, Value, Pow2;
    var l, j := k / 32, k % 32;
    SplitAt(s, l);
    SplitBits(Value(s), l, j, Value(s[l..]), Value(s[..l]));
    ValueHead(s, l);
    HeadBit(s[l], Value(s[l + 1..]), j);
  }

  /** The bits of the lowest limb are the bits of the number. */
  lemma {:induction false} HeadBit(a: Limb, v: nat, j: nat)
    requires j < 32
    ensures (a + BASE * v) / Pow2(j) % 2 == a / Pow2(j) % 2
    ensures (a + BASE * v) % Pow2(j) == a % Pow2(j)
  {
    hide *;
    Pow2Is32();
    Pow2Add(j + 1, 31 - j);
    Doubling(j);
    var p, w := Pow2(j), Pow2(31 - j);
    var q, m := Rounding.Divide(a, p);
    DivIs(a, p, q, m);
    HeadParts(a, v, p, w, q, m);
    DivIs(a + BASE * v, p, q + 2 * (w * v), m);
  }

  lemma {:induction false} HeadParts(a: nat, v: nat, p: nat, w: nat, q: nat, m: nat)
    requires (2 * p) * w == BASE && a == q * p + m
    ensures a + BASE * v == (q + 2 * (w * v)) * p + m && (q + 2 * (w * v)) % 2 == q % 2 && 0 <= w * v
  {
    assert BASE * v == 2 * ((p * w) * v);
    assert (p * w) * v == (w * v) * p;
    assert (q + 2 * (w * v)) * p == q * p + 2 * ((w * v) * p);
  }

  lemma Doubling(n: nat)
    ensures Pow2(n + 1) == 2 * Pow2(n)
  {
  }

  /** Whether any of the lowest k bits is set: the "or" of limbs and part of a limb. */
  method AnyBelow(x: Number, k: nat) returns (any: bool)
    ensures any == (Value(x.tab) % Pow2(k) != 0)
  {
    hide *;
    var l := k / 32;
    any := false;
    var i := 0;
    ghost var s := x.tab;
    assert s[..0] == [];
    NothingSet();
    while i < l && i < |x.tab|
      invariant i <= |x.tab| && i <= l && any == (Value(s[..i]) != 0)
    {
      NonzeroUpTo(s, i);
      any := any || x.tab[i] != 0;
      i := i + 1;
    }
    if l < |x.tab| {
      BelowInLimb(s, k);
      PowPositive(k % 32);
      any := any || LowBits(x.tab[l], k % 32) != 0;
    } else {
      assert s[..i] == s;
      BitAbove(s, k);
      LowBitsSame(Value(s), k);
      LowBitsIs(Value(s), k);
    }
  }

  lemma NothingSet()
    ensures Value([]) == 0
  {
  }

  lemma LowBitsIs(n: nat, k: nat)
    ensures LowBits(n, k) == n % Pow2(k)
  {
  }

  lemma NonzeroUpTo(s: seq<Limb>, i: nat)
    requires i < |s|
    ensures Value(s[..i + 1]) != 0 <==> Value(s[..i]) != 0 || s[i] != 0
  {
    ValueUpTo(s, i);
    if s[i] != 0 {
      MulAtMost(1, s[i], Weight(i));
    }
  }

  lemma {:induction false} BelowInLimb(s: seq<Limb>, k: nat)
    requires k / 32 < |s|
    ensures var l := k / 32; Value(s) % Pow2(k) != 0 <==> Value(s[..l]) != 0 || LowBits(s[l], k % 32) != 0
  {
    hide Weight, Value, Pow2;
    var l, j := k / 32, k % 32;
    SplitAt(s, l);
    SplitBits(Value(s), l, j, Value(s[l..]), Value(s[..l]));
    ValueHead(s, l);
    HeadBit(s[l], Value(s[l + 1..]), j);
    var m := s[l] % Pow2(j);
    assert Value(s) % Pow2(k) == m * Weight(l) + Value(s[..l]);
    assert m > 0 ==> m * Weight(l) > 0 by { if m > 0 { MulAtMost(1, m, Weight(l)); } }
  }

  // ---- rounding by bits ----

  /** The quotient by 2^(k + 1), the bit below it and the bits below that one decide the rounding. */
  lemma {:induction false} RoundByBits(n: nat, shift: nat, mode: Mode)
    requires shift > 0
    ensures var half, low, odd := Bit(n, shift - 1) == 1, n % Pow2(shift - 1) != 0, Bit(n, shift) == 1;
            RoundDiv(n, Pow2(shift), mode) == n / Pow2(shift) +
            if mode == TowardZero || !half then 0 else if mode == NearestAway || low || odd then 1 else 0
  {
    hide Pow2;
    var h := Pow2(shift - 1);
    Doubling(shift - 1);
    var u, v := Rounding.Divide(n, h);
    DivIs(n, h, u, v);
    DivIs(n, 2 * h, u / 2, (u % 2) * h + v);
  }

  /** `mpb_shr_round`: n / 2^shift rounded, or n 2^-shift. */
  function Shifted(n: nat, shift: int, mode: Mode): nat {
    if shift >= 0 then RoundDiv(n, Pow2(shift), mode) else n * Pow2(-shift)
  }

  method ShrRound(x: Number, shift: int, mode: Mode)
    requires x.tab != [] && IsNormal(x.tab) && |x.tab| <= x.peak
    modifies x
    ensures x.tab != [] && Value(x.tab) == Shifted(Value(old(x.tab)), shift, mode)
    ensures shift >= 0 || Value(old(x.tab)) != 0 ==> IsNormal(x.tab)
    ensures |x.tab| <= x.peak && (shift >= 0 ==> |x.tab| <= |old(x.tab)| && x.peak == old(x.peak))
    ensures shift < 0 ==> |x.tab| <= |old(x.tab)| + -shift / 32 + 1
    ensures shift < 0 ==> x.peak <= old(x.peak) || x.peak <= |old(x.tab)| + -shift / 32 + 1
  {
    hide *;
    ShiftedIs(Value(x.tab), shift, mode);
    if shift == 0 {
      return;
    }
    if shift < 0 {
      ShiftLeft(x, -shift);
    } else {
      ShiftRightRound(x, shift, mode);
    }
  }

  lemma ShiftedIs(n: nat, shift: int, mode: Mode)
    ensures shift == 0 ==> Shifted(n, shift, mode) == n
    ensures shift > 0 ==> Shifted(n, shift, mode) == RoundDiv(n, Pow2(shift), mode)
    ensures shift < 0 ==> Shifted(n, shift, mode) == n * Pow2(-shift)
  {
    if shift == 0 {
      assert Pow2(0) == 1;
    }
  }

  /** The left shift of `mpb_shr_round`: bits within limbs first, then whole limbs. */
  method ShiftLeft(x: Number, shift: nat)
    requires x.tab != [] && IsNormal(x.tab) && shift > 0 && |x.tab| <= x.peak
    modifies x
    ensures x.tab != [] && Value(x.tab) == Value(old(x.tab)) * Pow2(shift)
    ensures Value(old(x.tab)) != 0 ==> IsNormal(x.tab)
    ensures |x.tab| <= x.peak && |x.tab| <= |old(x.tab)| + shift / 32 + 1
    ensures x.peak <= old(x.peak) || x.peak <= |old(x.tab)| + shift / 32 + 1
  {
    hide *;
    ghost var n := Value(x.tab);
    var l, s := shift / 32, shift % 32;
    Pow2Add(s, 32 * l);
    WeightIsPow2(l);
    if s != 0 {
      ghost var was := x.tab;
      PowPositive(s);
      var top := x.Shl(s, 0);
      AppendTop(x.tab, top);
      x.Grow(x.tab + [top]);
      Renorm(x);
    } else {
      NoPower();
    }
    ghost var mid := x.tab;
    assert Value(mid) == n * Pow2(s);
    if l > 0 {
      x.Grow(seq(l, i => 0) + x.tab);
      ZerosBelow(l, mid);
      NormalShifted(n, Pow2(s), mid, l);
    } else {
      NoWeight();
    }
    MulAssociates(n, Pow2(s), Weight(l));
  }

  lemma NoPower()
    ensures Pow2(0) == 1
  {
  }

  lemma NoWeight()
    ensures Weight(0) == 1
  {
  }

  lemma AppendTop(s: seq<Limb>, top: Limb)
    ensures Value(s + [top]) == Value(s) + top * Weight(|s|)
  {
    ValueAppend(s, [top]);
    ValueOne(top);
  }

  lemma {:induction false} ZerosBelow(l: nat, s: seq<Limb>)
    ensures Value(seq<Limb>(l, i => 0) + s) == Value(s) * Weight(l)
  {
    var z := seq<Limb>(l, i => 0);
    ValueAppend(z, s);
    AllZero(z);
  }

  lemma {:induction false} AllZero(s: seq<Limb>)
    requires forall i :: 0 <= i < |s| ==> s[i] == 0
    ensures Value(s) == 0
  {
    if s != [] {
      AllZero(s[1..]);
    }
  }

  lemma NormalShifted(n: nat, p: nat, s: seq<Limb>, l: nat)
    requires p > 0 && IsNormal(s) && Value(s) == n * p
    ensures n != 0 ==> IsNormal(seq<Limb>(l, i => 0) + s)
  {
    if n != 0 && |s| == 1 {
      assert n * p > 0 by { MulAtMost(1, n, p); }
      ValueOne(s[0]);
      assert s == [s[0]];
    }
  }

  /** The right shift of `mpb_shr_round`. */
  method ShiftRightRound(x: Number, shift: nat, mode: Mode)
    requires x.tab != [] && IsNormal(x.tab) && shift > 0 && |x.tab| <= x.peak
    modifies x
    ensures x.tab != [] && Value(x.tab) == RoundDiv(Value(old(x.tab)), Pow2(shift), mode) && IsNormal(x.tab)
    ensures |x.tab| <= |old(x.tab)| && x.peak == old(x.peak)
  {
    hide *;
    Constants();
    ghost var n, was := Value(x.tab), x.tab;
    var addOne := RoundsUp(x, shift, mode);
    var l, s := shift / 32, shift % 32;
    if l >= |x.tab| {
      BitAbove(x.tab, shift);
      ShiftedOut(n, shift);
      x.tab := [if addOne then 1 else 0];
      OneLimb(if addOne then 1 else 0);
      return;
    }
    TopLimbs(x.tab, l, s);
    if l > 0 {
      x.tab := x.tab[l..];
    } else {
      assert x.tab[0..] == x.tab;
    }
    ghost var m := Value(x.tab);
    if s != 0 {
      PowPositive(s);
      ghost var r := x.Shr(s, 0);
      QuotientOf(m, s, Value(x.tab), r, Weight(|x.tab|));
      Renorm(x);
    } else {
      NoShiftRight(m);
    }
    if addOne {
      AddOne(x);
      NotLonger(was, x.tab, shift, mode);
    }
  }

  /** A quotient needs no more limbs than the dividend. */
  lemma {:induction false} NotLonger(was: seq<Limb>, s: seq<Limb>, shift: nat, mode: Mode)
    requires was != [] && s != [] && IsNormal(s) && shift > 0
        && Value(s) == RoundDiv(Value(was), Pow2(shift), mode)
    ensures |s| <= |was|
  {
    hide Value, Weight, Pow2;
    var n, p := Value(was), Pow2(shift);
    assert p >= 2 by { Doubling(shift - 1); PowPositive(shift - 1); }
    var q, r := Rounding.Divide(n, p);
    DivIs(n, p, q, r);
    assert Value(s) <= n by { MulAtMost(2, p, q); }
    if |s| > |was| {
      ValueTop(s);
      ValueBound(was);
      WeightGrows(|was|, |s| - 1);
    }
  }

  lemma {:induction false} WeightGrows(a: nat, b: nat)
    requires a <= b
    ensures Weight(a) <= Weight(b)
  {
    WeightIsPow2(a);
    WeightIsPow2(b);
    Pow2Mono(32 * a, 32 * b);
  }

  method AddOne(x: Number)
    requires x.tab != [] && IsNormal(x.tab)
    modifies x
    ensures x.tab != [] && IsNormal(x.tab) && Value(x.tab) == Value(old(x.tab)) + 1
    ensures x.peak == old(x.peak) || old(x.peak) < x.peak == |x.tab|
  {
    hide *;
    Constants();
    ghost var was := x.tab;
    var a := x.AddUi(1);
    CarryNormal(was, x.tab, a);
    AppendTop(x.tab, a);
    if a != 0 {
      x.Grow(x.tab + [a]);
    }
  }

  /** Whether the quotient is incremented, from single bits. */
  method RoundsUp(x: Number, shift: nat, mode: Mode) returns (up: bool)
    requires shift > 0
    ensures RoundDiv(Value(x.tab), Pow2(shift), mode) == Value(x.tab) / Pow2(shift) + if up then 1 else 0
  {
    hide *;
    RoundByBits(Value(x.tab), shift, mode);
    if mode == TowardZero {
      return false;
    }
    var bit1 := GetBit(x, shift - 1);
    if bit1 == 0 {
      return false;
    }
    BitIsBinary(Value(x.tab), shift - 1);
    if mode == NearestAway {
      return true;
    }
    var bit2 := false;
    if shift >= 2 {
      bit2 := AnyBelow(x, shift - 1);
    } else {
      NoBitsBelow(Value(x.tab));
    }
    if bit2 {
      return true;
    }
    // round to even
    var even := GetBit(x, shift);
    BitIsBinary(Value(x.tab), shift);
    return even == 1;
  }

  lemma BitIsBinary(n: nat, k: nat)
    ensures Bit(n, k) == 0 || Bit(n, k) == 1
  {
  }

  lemma NoBitsBelow(n: nat)
    ensures n % Pow2(0) == 0
  {
    assert Pow2(0) == 1;
  }

  lemma ShiftedOut(n: nat, shift: nat)
    requires n < Pow2(shift)
    ensures n / Pow2(shift) == 0
  {
    DivIs(n, Pow2(shift), 0, n);
  }

  lemma OneLimb(v: Limb)
    ensures Value([v]) == v && IsNormal([v])
  {
    ValueOne(v);
  }

  /** The limbs from l on hold the quotient by 2^(32 l). */
  lemma {:induction false} TopLimbs(s: seq<Limb>, l: nat, k: nat)
    requires l < |s| && IsNormal(s)
    ensures Value(s) / Pow2(32 * l + k) == Value(s[l..]) / Pow2(k) && s[l..] != [] && IsNormal(s[l..])
  {
    SplitAt(s, l);
    SplitBits(Value(s), l, k, Value(s[l..]), Value(s[..l]));
  }

  lemma NoShiftRight(m: nat)
    ensures m / Pow2(0) == m
  {
    assert Pow2(0) == 1;
  }

  lemma {:induction false} QuotientOf(m: nat, s: nat, q: nat, r: nat, w: nat)
    requires q * Pow2(s) + r == 0 * w + m && r < Pow2(s)
    ensures m / Pow2(s) == q
  {
    DivIs(m, Pow2(s), q, r);
  }

  /** After adding one, the top limb is zero only if a carry is appended. */
  lemma {:induction false} CarryNormal(was: seq<Limb>, s: seq<Limb>, a: Limb)
    requires IsNormal(was) && |s| == |was| && Value(s) + a * Weight(|s|) == Value(was) + 1
    ensures if a == 0 then IsNormal(s) else IsNormal(s + [a])
  {
    if a == 0 && |s| > 1 {
      ValueTop(was);
      TopIsZero(s);
    }
  }

  lemma {:induction false} TopIsZero(s: seq<Limb>)
    requires s != []
    ensures s[|s| - 1] == 0 ==> Value(s) < Weight(|s| - 1)
  {
    var n := |s| - 1;
    if s[n] == 0 {
      assert s == s[..n] + [0];
      DropZero(s[..n]);
      ValueBound(s[..n]);
    }
  }

  // ---- magnitude ----

  /** Number of significant bits (32 - `clz32`). */
  function BitLength(v: nat): nat {
    if v == 0 then 0 else 1 + BitLength(v / 2)
  }

  lemma {:induction false} BitLengthIs(v: nat)
    requires v > 0
    ensures BitLength(v) > 0 && Pow2(BitLength(v) - 1) <= v < Pow2(BitLength(v))
  {
    if v > 1 {
      BitLengthIs(v / 2);
      Doubling(BitLength(v / 2) - 1);
      Doubling(BitLength(v / 2));
    } else {
      assert BitLength(1) == 1 + BitLength(0);
      assert Pow2(0) == 1 && Pow2(1) == 2;
    }
  }

  lemma {:induction false} BitLengthOfLimb(v: Limb)
    ensures BitLength(v) <= 32
  {
    if v > 0 {
      BitLengthIs(v);
      Pow2Is32();
      if BitLength(v) > 32 {
        Pow2Mono(32, BitLength(v) - 1);
      }
    }
  }

  /** 2^k <= n < 2^(k + 1). */
  predicate IsLog2(n: nat, k: nat) { Pow2(k) <= n < Pow2(k + 1) }

  /** `mpb_floor_log2`. */
  method FloorLog2(x: Number) returns (k: int)
    requires x.tab != [] && IsNormal(x.tab)
    ensures if Value(x.tab) == 0 then k == -1 else k >= 0 && IsLog2(Value(x.tab), k)
  {
    hide *;
    var v := x.tab[|x.tab| - 1];
    if v == 0 {
      k := -1;
      ZeroTop(x.tab);
    } else {
      k := |x.tab| * 32 - 1 - (32 - BitLength(v));
      TopBits(x.tab);
    }
  }

  lemma ZeroTop(s: seq<Limb>)
    requires s != [] && IsNormal(s) && s[|s| - 1] == 0
    ensures Value(s) == 0
  {
    assert s == [0];
    ValueOne(0);
  }

  lemma {:induction false} TopBits(s: seq<Limb>)
    requires s != [] && s[|s| - 1] != 0
    ensures var k := |s| * 32 - 1 - (32 - BitLength(s[|s| - 1]));
            k >= 0 && IsLog2(Value(s), k) && Value(s) != 0
  {
    hide Value, Weight, Pow2, BitLength;
    var n := |s| - 1;
    var v := s[n];
    var b := BitLength(v);
    BitLengthIs(v);
    assert s == s[..n + 1];
    ValueUpTo(s, n);
    ValueBound(s[..n]);
    WeightIsPow2(n);
    Pow2Add(32 * n, b - 1);
    Pow2Add(32 * n, b);
    TopProduct(Weight(n), v, Pow2(b - 1), Pow2(b), Value(s[..n]));
    assert |s| * 32 - 1 - (32 - b) == 32 * n + (b - 1);
  }

  lemma TopProduct(w: nat, v: nat, p: nat, q: nat, low: nat)
    requires p <= v < q && low < w && p > 0
    ensures w * p <= low + w * v < w * q && w * p > 0
  {
    MulAtMost(p, v, w);
    MulAtMost(v + 1, q, w);
    MulAtMost(1, p, w);
    assert (v + 1) * w == v * w + w;
  }
}
