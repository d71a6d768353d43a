/** Numbers as arrays of 32-bit limbs, least significant first, and the single-limb operations on them
    (`mp_add_ui`, `mp_mul1`, `mp_div1`, `mp_shl`, `mp_shr`, `mp_div1norm`). */
module Limbs {
  import opened Rounding
  import opened Reciprocal

  function Value(tab: seq<Limb>): nat {
    if tab == [] then 0 else tab[0] + BASE * Value(tab[1..])
  }

  /** 2^(32 n). */
  function Weight(n: nat): (r: nat)
    ensures r > 0
  {
    Pow(BASE, n)
  }

  lemma WeightStep(n: nat)
    ensures Weight(0) == 1 && Weight(n + 1) == BASE * Weight(n)
  {
  }

  lemma {:induction false} ValueAppend(a: seq<Limb>, b: seq<Limb>)
    ensures Value(a + b) == Value(a) + Weight(|a|) * Value(b)
  {
    if a == [] {
      assert a + b == b;
    } else {
      assert (a + b)[1..] == a[1..] + b;
      ValueAppend(a[1..], b);
      Distribute(a[0], Value(a[1..]), Weight(|a| - 1), Value(b));
    }
  }

  lemma Distribute(x: int, v: int, w: int, y: int)
    ensures x + BASE * (v + w * y) == (x + BASE * v) + (BASE * w) * y
  {
    assert (BASE * w) * y == BASE * (w * y);
  }

  lemma ValueOne(x: Limb)
    ensures Value([x]) == x && Value([]) == 0
  {
    assert Value([x][1..]) == 0;
  }

  lemma ValueHead(s: seq<Limb>, i: nat)
    requires i < |s|
    ensures Value(s[i..]) == s[i] + BASE * Value(s[i + 1..])
  {
    assert s[i..][1..] == s[i + 1..];
  }

  lemma {:induction false} ValueUpTo(s: seq<Limb>, i: nat)
    requires i < |s|
    ensures Value(s[..i + 1]) == Value(s[..i]) + Weight(i) * s[i]
  {
    assert s[..i + 1] == s[..i] + [s[i]];
    ValueAppend(s[..i], [s[i]]);
    ValueOne(s[i]);
  }

  lemma {:induction false} ValueBound(s: seq<Limb>)
    ensures Value(s) < Weight(|s|)
  {
    if s != [] {
      ValueBound(s[1..]);
      assert BASE * (Value(s[1..]) + 1) <= BASE * Weight(|s| - 1) by { MulAtMost(Value(s[1..]) + 1, Weight(|s| - 1),
        BASE); }
    }
  }

  /** A nonzero top limb. */
  lemma {:induction false} ValueTop(s: seq<Limb>)
    requires s != [] && s[|s| - 1] != 0
    ensures Weight(|s| - 1) <= Value(s)
  {
    var n := |s| - 1;
    assert s == s[..n + 1];
    ValueUpTo(s, n);
    MulAtMost(1, s[n], Weight(n));
  }

  /** No superfluous zero limb at the top; zero is one zero limb. */
  predicate IsNormal(s: seq<Limb>) { |s| == 1 || (|s| > 1 && s[|s| - 1] != 0) }

  // ---- one step of each loop, on numbers ----

  /** v + c w == x b + l carries over to one more limb: t == a b + c, split into low and high part. */
  lemma {:induction false} MulStep(v: int, c: int, w: int, x: int, b: int, l: int, a: int, low: int, high: int)
    requires v + c * w == x * b + l && a * b + c == low + BASE * high
    ensures (v + w * low) + high * (BASE * w) == (x + w * a) * b + l
  {
    assert (x + w * a) * b == x * b + w * (a * b);
    assert w * (a * b) == w * (low + BASE * high - c);
    assert w * (low + BASE * high - c) == w * low + high * (BASE * w) - c * w;
  }

  /** q b + r == r0 w + x carries over to one more limb below: r BASE + a == t b + r1. */
  lemma {:induction false} DivStep(q: int, b: int, r: int, r0: int, w: int, x: int, a: int, t: int, r1: int)
    requires q * b + r == r0 * w + x && r * BASE + a == t * b + r1
    ensures (t + BASE * q) * b + r1 == r0 * (BASE * w) + (a + BASE * x)
  {
    assert (t + BASE * q) * b == t * b + BASE * (q * b);
    assert BASE * (q * b) == BASE * (r0 * w + x - r);
    assert BASE * (r0 * w) == r0 * (BASE * w);
  }

  /** An upward loop has turned the first i limbs of `was` into those of `tab`, with carry c: value times b plus l. */
  ghost predicate Rising(tab: seq<Limb>, was: seq<Limb>, i: nat, c: int, b: int, l: int) {
    i <= |tab| == |was| && tab[i..] == was[i..] && Value(tab[..i]) + c * Weight(i) == Value(was[..i]) * b + l
  }

  lemma RisingStart(was: seq<Limb>, b: int, l: int)
    ensures Rising(was, was, 0, l, b, l)
  {
    assert was[..0] == [];
  }

  lemma RisingAt(tab: seq<Limb>, was: seq<Limb>, i: nat, c: int, b: int, l: int)
    requires Rising(tab, was, i, c, b, l) && i < |tab|
    ensures tab[i] == was[i] && |tab| == |was|
  {
    assert tab[i] == tab[i..][0] == was[i..][0];
  }

  lemma {:induction false} RisingStep(tab: seq<Limb>, was: seq<Limb>, i: nat, c: int, b: int, l: int, low: Limb,
      high: int)
    requires Rising(tab, was, i, c, b, l) && i < |tab| && was[i] * b + c == low + BASE * high
    ensures Rising(tab[i := low], was, i + 1, high, b, l)
  {
    hide Value, Weight;
    var t := tab[i := low];
    assert t[..i] == tab[..i];
    assert t[i + 1..] == tab[i..][1..] && was[i + 1..] == was[i..][1..];
    ValueUpTo(t, i);
    ValueUpTo(was, i);
    WeightStep(i);
    MulStep(Value(tab[..i]), c, Weight(i), Value(was[..i]), b, l, was[i], low, high);
  }

  lemma {:induction false} RisingEnd(tab: seq<Limb>, was: seq<Limb>, i: nat, c: int, b: int, l: int)
    requires Rising(tab, was, i, c, b, l) && (i == |tab| || (c == 0 && b == 1))
    ensures |tab| == |was| && Value(tab) + c * Weight(|tab|) == Value(was) * b + l
  {
    hide Value, Weight;
    if i == |tab| {
      assert tab[..i] == tab && was[..i] == was;
    } else {
      assert tab == tab[..i] + tab[i..] && was == was[..i] + was[i..];
      ValueAppend(tab[..i], tab[i..]);
      ValueAppend(was[..i], was[i..]);
      FinishSum(Value(tab[..i]), Value(was[..i]), l, Weight(i), Weight(i) * Value(tab[i..]), Weight(|tab|));
    }
  }

  lemma FinishSum(x: int, y: int, l: int, w: int, z: int, v: int)
    requires x + 0 * w == y * 1 + l
    ensures x + z + 0 * v == (y + z) * 1 + l
  {
  }

  /** A downward loop has divided the limbs from i on by b, with remainder r and the limb `high` above the top. */
  ghost predicate Falling(tab: seq<Limb>, was: seq<Limb>, i: nat, b: int, r: int, high: int) {
    i <= |tab| == |was| && tab[..i] == was[..i] && Value(tab[i..]) * b + r == high * Weight(|was| - i) + Value(was[i..])
  }

  lemma FallingStart(was: seq<Limb>, b: int, high: int)
    ensures Falling(was, was, |was|, b, high, high)
  {
    assert was[|was|..] == [];
  }

  lemma FallingAt(tab: seq<Limb>, was: seq<Limb>, i: nat, b: int, r: int, high: int)
    requires Falling(tab, was, i + 1, b, r, high)
    ensures i < |tab| == |was| && tab[i] == was[i]
  {
    assert tab[..i + 1][i] == was[..i + 1][i];
  }

  lemma {:induction false} FallingStep(tab: seq<Limb>, was: seq<Limb>, i: nat, b: int, r: int, high: int, q: Limb,
      r1: int)
    requires Falling(tab, was, i + 1, b, r, high) && r * BASE + tab[i] == q * b + r1
    ensures Falling(tab[i := q], was, i, b, r1, high)
  {
    hide Value, Weight;
    FallingAt(tab, was, i, b, r, high);
    var t := tab[i := q];
    assert t[i + 1..] == tab[i + 1..];
    assert t[..i] == tab[..i + 1][..i] && was[..i] == was[..i + 1][..i];
    ValueHead(t, i);
    ValueHead(was, i);
    WeightStep(|was| - i - 1);
    DivStep(Value(tab[i + 1..]), b, r, high, Weight(|was| - i - 1), Value(was[i + 1..]), was[i], q, r1);
  }

  lemma FallingEnd(tab: seq<Limb>, was: seq<Limb>, b: int, r: int, high: int)
    requires Falling(tab, was, 0, b, r, high)
    ensures |tab| == |was| && Value(tab) * b + r == high * Weight(|was|) + Value(was)
  {
    assert tab[0..] == tab && was[0..] == was;
  }

  /** Limbs in the buffers of `js_dtoa` and `js_atod`. */
  const DBIGNUM_LEN_MAX: nat := 52

  lemma BufferSize()
    ensures DBIGNUM_LEN_MAX == 52
  {
  }

  /** A number in a buffer of limbs. `peak` is the largest number of limbs that it has ever used. */
  class Number {
    var tab: seq<Limb>
    ghost var peak: nat

    constructor (v: seq<Limb>)
      ensures tab == v && peak == |v|
    {
      tab := v;
      peak := |v|;
    }

    /** Store limbs, perhaps more than before. */
    method Grow(v: seq<Limb>)
      modifies this
      ensures tab == v && peak == if |v| > old(peak) then |v| else old(peak)
    {
      tab := v;
      if |v| > peak {
        peak := |v|;
      }
    }

    /** `mp_add_ui`: add one limb, return the carry. */
    method AddUi(b: Limb) returns (k: Limb)
      modifies this`tab
      ensures |tab| == |old(tab)| && Value(tab) + k * Weight(|tab|) == Value(old(tab)) + b
    {
      hide Value, Weight, Rising;
      ghost var was := tab;
      k := b;
      var i := 0;
      RisingStart(was, 1, b);
      while i < |tab|
        invariant i <= |tab| == |was| && Rising(tab, was, i, k, 1, b)
      {
        if k == 0 {
          break;
        }
        RisingAt(tab, was, i, k, 1, b);
        var a: Limb := (tab[i] + k) % BASE;
        var carry: Limb := if a < k then 1 else 0;
        RisingStep(tab, was, i, k, 1, b, a, carry);
        tab := tab[i := a];
        k := carry;
        i := i + 1;
      }
      RisingEnd(tab, was, i, k, 1, b);
    }

    /** `mp_mul1`: multiply by a limb and add one, return the high limb. */
    method Mul1(b: Limb, low: Limb) returns (l: Limb)
      modifies this`tab
      ensures |tab| == |old(tab)| && Value(tab) + l * Weight(|tab|) == Value(old(tab)) * b + low
    {
      hide *;
      ghost var was := tab;
      l := low;
      var i := 0;
      RisingStart(was, b, low);
      while i < |tab|
        invariant i <= |tab| == |was| && Rising(tab, was, i, l, b, low)
      {
        RisingAt(tab, was, i, l, b, low);
        var t := tab[i] * b + l;
        WideProduct(tab[i], b, l, t);
        RisingStep(tab, was, i, l, b, low, LowLimb(t), HighLimb(t));
        tab := tab[i := LowLimb(t)];
        l := HighLimb(t);
        i := i + 1;
      }
      RisingEnd(tab, was, i, l, b, low);
    }

    /** `mp_shl`: shift left by less than a limb, return the bits shifted out. */
    method Shl(shift: nat, low: nat) returns (l: Limb)
      requires 1 <= shift < 32 && low < Pow2(shift)
      modifies this`tab
      ensures |tab| == |old(tab)| && Value(tab) + l * Weight(|tab|) == Value(old(tab)) * Pow2(shift) + low
          && l < Pow2(shift)
    {
      hide *;
      ghost var was := tab;
      ShiftWidth(shift);
      l := low;
      var i := 0;
      RisingStart(was, Pow2(shift), low);
      while i < |tab|
        invariant i <= |tab| == |was| && l < Pow2(shift) && Rising(tab, was, i, l, Pow2(shift), low)
        decreases |tab| - i
      {
        RisingAt(tab, was, i, l, Pow2(shift), low);
        var a := tab[i];
        ShiftLimb(a, shift, l);
        RisingStep(tab, was, i, l, Pow2(shift), low, ShiftedIn(a, shift, l), HighBits(a, shift));
        tab := tab[i := ShiftedIn(a, shift, l)];
        l := HighBits(a, shift);
        i := i + 1;
      }
      RisingEnd(tab, was, i, l, Pow2(shift), low);
    }

    /** `mp_div1`: divide by a limb from the top down, return the remainder. */
    method Div1(b: Limb, high: Limb) returns (r: Limb)
      requires 0 < b && high < b
      modifies this`tab
      ensures |tab| == |old(tab)| && Value(tab) * b + r == high * Weight(|tab|) + Value(old(tab)) && r < b
    {
      hide *;
      ghost var was := tab;
      r := high;
      var i := |tab|;
      FallingStart(was, b, high);
      while i > 0
        invariant 0 <= i <= |tab| == |was| && r < b && Falling(tab, was, i, b, r, high)
      {
        i := i - 1;
        var a := r * BASE + tab[i];
        QuotientIsLimb(r, tab[i], b);
        FallingStep(tab, was, i, b, r, high, a / b, a % b);
        tab := tab[i := a / b];
        r := a % b;
      }
      FallingEnd(tab, was, b, r, high);
    }

    /** `mp_shr`: shift right by less than a limb, return the bits shifted out. */
    method Shr(shift: nat, high: nat) returns (r: Limb)
      requires 1 <= shift < 32 && high < Pow2(shift)
      modifies this`tab
      ensures |tab| == |old(tab)| && Value(tab) * Pow2(shift) + r == high * Weight(|tab|) + Value(old(tab))
          && r < Pow2(shift)
    {
      hide *;
      ghost var was := tab;
      ShiftWidth(shift);
      var l: Limb := high;
      var i := |tab|;
      FallingStart(was, Pow2(shift), high);
      LowBitsSame(high, shift);
      while i > 0
        invariant 0 <= i <= |tab| == |was| && Falling(tab, was, i, Pow2(shift), LowBits(l, shift), high)
      {
        i := i - 1;
        var a := tab[i];
        ShiftLimbRight(a, shift, l);
        FallingStep(tab, was, i, Pow2(shift), LowBits(l, shift), high, ShiftedDown(a, shift, l), LowBits(a, shift));
        tab := tab[i := ShiftedDown(a, shift, l)];
        l := a;
      }
      FallingEnd(tab, was, Pow2(shift), LowBits(l, shift), high);
      LowBitsBound(l, shift);
      r := LowBits(l, shift);
    }

    /** `mp_div1norm`: divide by b, given as b 2^shift with its reciprocal. */
    method Div1Norm(b: Limb, high: Limb, inverse: nat, shift: nat, ghost b0: nat) returns (r: Limb)
      requires b >= HALF && inverse == ReciprocalOf(b) && shift < 32 && b == b0 * Pow2(shift) && high < b0
      modifies this`tab
      ensures |tab| == |old(tab)| && Value(tab) * b0 + r == high * Weight(|tab|) + Value(old(tab)) && r < b0
    {
      hide *;
      ghost var was := tab;
      r := ScaleUp(b, high, shift, b0);
      ghost var scaled, high1 := tab, r;
      r := DivideLimbs(b, r, inverse);
      Unscale(Value(tab), Value(scaled), Value(was), Weight(|tab|), b, b0, r, high, high1, shift);
      r := ShiftRight(r, shift);
    }

    /** Dividend and divisor times 2^shift. */
    method ScaleUp(ghost b: Limb, high: Limb, shift: nat, ghost b0: nat) returns (r: Limb)
      requires shift < 32 && b == b0 * Pow2(shift) && high < b0
      modifies this`tab
      ensures |tab| == |old(tab)| && r < b && r * Weight(|tab|) + Value(tab)
          == (high * Weight(|tab|) + Value(old(tab))) * Pow2(shift)
    {
      hide *;
      ghost var was := tab;
      r := high;
      if shift != 0 {
        ShiftWidth(shift);
        PowPositive(shift);
        var top := Shl(shift, 0);
        ShiftedTop(high, top, b0, b, shift);
        Scaled(Value(tab), Value(was), Weight(|tab|), top, high, shift);
        r := ShiftedIn(high, shift, top);
      } else {
        NoShift(b0, b);
        NotScaled(Value(tab), Weight(|tab|), high);
      }
    }

    /** The loop of it: one limb after the other, from the top. */
    method DivideLimbs(b: Limb, high: Limb, inverse: nat) returns (r: Limb)
      requires b >= HALF && inverse == ReciprocalOf(b) && high < b
      modifies this`tab
      ensures |tab| == |old(tab)| && Value(tab) * b + r == high * Weight(|tab|) + Value(old(tab)) && r < b
    {
      hide *;
      ghost var was := tab;
      r := high;
      var i := |tab|;
      FallingStart(was, b, high);
      while i > 0
        invariant 0 <= i <= |tab| == |was| && r < b && Falling(tab, was, i, b, r, high)
      {
        i := i - 1;
        var q, r1 := Reciprocal.Divide(r, tab[i], b, inverse);
        FallingStep(tab, was, i, b, r, high, q, r1);
        tab := tab[i := q];
        r := r1;
      }
      FallingEnd(tab, was, b, r, high);
    }
  }

  function LowLimb(t: nat): Limb { t % BASE }

  function HighLimb(t: nat): Limb
    requires t < WIDE
  {
    t / BASE
  }

  lemma {:induction false} WideProduct(x: Limb, b: Limb, l: Limb, t: nat)
    requires t == x * b + l
    ensures t < WIDE && x * b + l == LowLimb(t) + BASE * HighLimb(t)
  {
    SmallProduct(x, b);
  }

  lemma PowPositive(shift: nat)
    ensures 0 < Pow2(shift)
  {
  }

  /** 2^shift 2^(32 - shift) = 2^32. */
  lemma {:induction false} ShiftWidth(shift: nat)
    requires 1 <= shift < 32
    ensures 1 < Pow2(shift) < BASE && 1 < Pow2(32 - shift) < BASE && Pow2(shift) * Pow2(32 - shift) == BASE
  {
    Pow2Add(shift, 32 - shift);
    Pow2Is32();
    assert Pow2(shift) == 2 * Pow2(shift - 1) && Pow2(32 - shift) == 2 * Pow2(31 - shift);
    var x, y := Pow2(shift), Pow2(32 - shift);
    MulAtMost(2, x, y);
    MulAtMost(2, y, x);
  }

  lemma Pow2Is32()
    ensures Pow2(32) == BASE && Pow2(16) == 0x1_0000
  {
    Pow2Add(16, 16);
    Pow2Add(8, 8);
    assert Pow2(8) == 256 by { Pow2Add(4, 4); assert Pow2(4) == 16 by { assert Pow2(2) == 4; Pow2Add(2, 2); } }
  }

  /** `(a << shift) | l`: the low bits of the shifted limb are zero, so that "or" is addition. */
  function ShiftedIn(a: Limb, shift: nat, l: nat): nat { a * Pow2(shift) % BASE + l }

  /** `a >> (32 - shift)`. */
  function HighBits(a: Limb, shift: nat): nat
    requires shift <= 32
  {
    a / Pow2(32 - shift)
  }

  /** `(a >> shift) | (l << (32 - shift))`: the bits of l above the limb are lost. */
  function ShiftedDown(a: Limb, shift: nat, l: Limb): int
    requires shift <= 32
  {
    a / Pow2(shift) + l * Pow2(32 - shift) % BASE
  }

  /** `a & ((1 << shift) - 1)`. */
  function LowBits(a: nat, shift: nat): nat { a % Pow2(shift) }

  function ShiftRight(a: nat, shift: nat): nat { a / Pow2(shift) }

  lemma LowBitsSame(a: nat, shift: nat)
    requires a < Pow2(shift)
    ensures LowBits(a, shift) == a
  {
  }

  lemma LowBitsBound(a: Limb, shift: nat)
    requires 1 <= shift < 32
    ensures LowBits(a, shift) < Pow2(shift) < BASE
  {
    ShiftWidth(shift);
  }

  lemma {:induction false} ShiftLimb(a: Limb, shift: nat, l: nat)
    requires 1 <= shift < 32 && l < Pow2(shift)
    ensures var x, h := ShiftedIn(a, shift, l), HighBits(a, shift);
            x < BASE && h < Pow2(shift) < BASE && a * Pow2(shift) + l == x + BASE * h
  {
    ShiftWidth(shift);
    var p, w := Pow2(shift), Pow2(32 - shift);
    var h, m := Rounding.Divide(a, w);
    DivIs(a, w, h, m);
    ShiftParts(a, p, w, h, m, l);
    DivIs(a * p, BASE, h, m * p);
  }

  lemma {:induction false} ShiftParts(a: nat, p: nat, w: nat, h: nat, m: nat, l: nat)
    requires p > 0 && p * w == BASE && a == h * w + m && m < w && a < BASE && l < p
    ensures a * p == h * BASE + m * p && m * p < BASE && m * p + l < BASE && h < p
  {
    assert a * p == (h * w) * p + m * p;
    assert (h * w) * p == h * (p * w);
    MulAtMost(m + 1, w, p);
    assert (m + 1) * p == m * p + p && w * p == BASE;
    assert h >= p ==> h * w >= p * w by { if h >= p { MulAtMost(p, h, w); } }
  }

  lemma {:induction false} ShiftLimbRight(a: Limb, shift: nat, l: Limb)
    requires 1 <= shift < 32
    ensures var x := ShiftedDown(a, shift, l);
            0 <= x < BASE && LowBits(l, shift) * BASE + a == x * Pow2(shift) + LowBits(a, shift)
  {
    ShiftWidth(shift);
    var p, w := Pow2(shift), Pow2(32 - shift);
    var h, m := Rounding.Divide(a, p);
    DivIs(a, p, h, m);
    var u, v := Rounding.Divide(l, p);
    DivIs(l, p, u, v);
    ShiftParts(l, w, p, u, v, 0);
    DivIs(l * w, BASE, u, v * w);
    RightParts(a, p, w, h, m, v);
  }

  lemma {:induction false} RightParts(a: nat, p: nat, w: nat, h: nat, m: nat, v: nat)
    requires p > 0 && w > 0 && p * w == BASE && a == h * p + m && m < p && a < BASE && v < p
    ensures v * BASE + a == (h + v * w) * p + m && 0 <= h + v * w < BASE
  {
    assert (v * w) * p == v * (p * w);
    assert (h + v * w) * p == h * p + (v * w) * p;
    assert h < w by { if h >= w { MulAtMost(w, h, p); } }
    MulAtMost(v + 1, p, w);
    assert (v + 1) * w == v * w + w;
  }

  lemma {:induction false} ShiftedTop(high: nat, top: nat, b0: nat, b: Limb, shift: nat)
    requires high < b0 && b == b0 * Pow2(shift) && top < Pow2(shift)
    ensures high < BASE && ShiftedIn(high, shift, top) == high * Pow2(shift) + top < b
  {
    MulAtMost(high + 1, b0, Pow2(shift));
    MulAtMost(1, Pow2(shift), b0);
    assert (high + 1) * Pow2(shift) == high * Pow2(shift) + Pow2(shift);
  }

  /** The shifted number with the shifted limb above it is the original with its limb above it, shifted. */
  lemma {:induction false} Scaled(scaled: nat, was: nat, w: nat, top: nat, high: nat, shift: nat)
    requires scaled + top * w == was * Pow2(shift) + 0
    ensures (high * Pow2(shift) + top) * w + scaled == (high * w + was) * Pow2(shift)
  {
    var p := Pow2(shift);
    assert (high * p + top) * w == (high * p) * w + top * w;
    assert (high * p) * w == (high * w) * p;
    assert (high * w + was) * p == (high * w) * p + was * p;
  }

  lemma NotScaled(was: nat, w: nat, high: nat)
    ensures high * w + was == (high * w + was) * Pow2(0)
  {
  }

  lemma NoShift(b0: nat, b: nat)
    requires b == b0 * Pow2(0)
    ensures b == b0
  {
  }

  lemma {:induction false} QuotientIsLimb(r: nat, x: Limb, b: Limb)
    requires r < b
    ensures var a := r * BASE + x; 0 <= a / b < BASE && a % b < b && a == (a / b) * b + a % b
  {
    var a := r * BASE + x;
    MulAtMost(r + 1, b, BASE);
    var q, m := Rounding.Divide(a, b);
    assert q * b < BASE * b;
    MulCompare(q, BASE, b);
    DivIs(a, b, q, m);
  }

  /** Dividing the scaled number by the scaled divisor: the quotient is the same, the remainder is scaled. */
  lemma {:induction false} Unscale(q: nat, scaled: nat, was: nat, w: nat, b: nat, b0: nat, r: nat, high: nat,
      high1: nat, shift: nat)
    requires b == b0 * Pow2(shift) && q * b + r == high1 * w + scaled && r < b
    requires high1 * w + scaled == (high * w + was) * Pow2(shift)
    ensures ShiftRight(r, shift) < b0 && q * b0 + ShiftRight(r, shift) == high * w + was
  {
    var p := Pow2(shift);
    var h, m := Rounding.Divide(r, p);
    DivIs(r, p, h, m);
    var n := high * w + was;
    assert q * (b0 * p) == (q * b0) * p;
    assert n * p == (q * b0 + h) * p + m;
    UnscaleExact(n, q * b0 + h, p, m);
    assert h >= b0 ==> h * p >= b0 * p by { if h >= b0 { MulAtMost(b0, h, p); } }
  }

  lemma UnscaleExact(n: int, x: int, p: int, m: int)
    requires n * p == x * p + m && 0 <= m < p
    ensures m == 0 && n == x
  {
    assert (n - x) * p == m;
    if n - x >= 1 {
      MulAtMost(1, n - x, p);
    } else if n - x <= -1 {
      MulAtMost(n - x, -1, p);
    }
  }
}
