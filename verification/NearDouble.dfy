/** A rational closer to a double than half a unit rounds to that double. */
module NearDouble {
  import opened Rounding
  import opened Bignum
  import opened IntegerRounding
  import opened Doubles
  import opened FloatConversion

  /** 2^-1128 is below half a unit of every double. */
  const SCALE: nat := 1128

  /** The double m 2^(e - 53) in multiples of 2^-1128. */
  function Exact(m: nat, e: int): nat
    requires e >= -1073
  {
    m * Pow2(e - 53 + SCALE)
  }

  /** n / d differs from m 2^(e - 53) by less than 2^k. */
  predicate CloserThan(n: nat, d: nat, m: nat, e: int, k: int)
    requires e >= -1073 && k >= -1128
  {
    Distance(n * Pow2(SCALE), Exact(m, e) * d) < d * Pow2(k + SCALE)
  }

  /** n 2^1128 = (n 2^-u) c and d 2^(u + 1128) = (d 2^u) c, whatever the sign of u. */
  lemma {:induction false} CommonScale(n: nat, d: nat, u: int, c: nat)
    requires u >= -1128 && c == Pow2(if u >= 0 then SCALE else u + SCALE)
    ensures n * Pow2(SCALE) == (n * Down(2, u)) * c && d * Pow2(u + SCALE) == (d * Up(2, u)) * c
  {
    hide Pow2, Up, Down;
    UpDown2(u);
    NoPower();
    if u >= 0 {
      Pow2Add(u, SCALE);
      MulAssociates(n, 1, c);
      MulAssociates(d, Pow2(u), c);
    } else {
      Pow2Add(-u, u + SCALE);
      MulAssociates(n, Pow2(-u), c);
      MulAssociates(d, 1, c);
    }
  }

  /** Within half a unit of q units the quotient rounds to q. */
  lemma {:induction false} RoundsToUnits(n: nat, d: nat, u: int, q: nat, m: nat, e: int)
    requires d > 0 && e >= -1073 && u >= -1127
    requires Exact(m, e) == q * Pow2(u + SCALE) && CloserThan(n, d, m, e, u - 1)
    ensures Units(n, d, u, NearestEven) == q
  {
    hide *;
    CloserIs(n, d, m, e, u - 1);
    var c := Pow2(if u >= 0 then SCALE else u + SCALE);
    CommonScale(n, d, u, c);
    var a, b := n * Down(2, u), d * Up(2, u);
    MulLess(0, d, Up(2, u));
    Doubling(u - 1 + SCALE);
    ScaledHalf(a, q, b, c, d, Pow2(u + SCALE), Pow2(u - 1 + SCALE));
    NearestFromHalf(a, b, q);
    UnitsIs(n, d, u);
  }

  lemma CloserIs(n: nat, d: nat, m: nat, e: int, k: int)
    requires e >= -1073 && k >= -1128 && CloserThan(n, d, m, e, k)
    ensures Distance(n * Pow2(SCALE), Exact(m, e) * d) < d * Pow2(k + SCALE)
    ensures SCALE == 1128
  {
  }

  lemma UnitsIs(n: nat, d: nat, u: int)
    requires d > 0 && d * Up(2, u) > 0
    ensures Units(n, d, u, NearestEven) == RoundDiv(n * Down(2, u), d * Up(2, u), NearestEven)
  {
  }

  lemma {:induction false} NearestFromHalf(a: nat, b: nat, q: nat)
    requires b > 0 && 2 * Distance(a, q * b) < b
    ensures RoundDiv(a, b, NearestEven) == q
  {
    hide RoundDiv;
    RoundIsNearest(a, b, NearestEven, q);
  }

  lemma Swapped(x: int, y: int)
    ensures x * y == y * x
  {
  }

  lemma Doubled(x: int, y: int)
    ensures x * (2 * y) == 2 * (x * y)
  {
  }

  lemma {:induction false} ScaledHalf(a: nat, q: nat, b: nat, c: nat, d: nat, w: nat, h: nat)
    requires d * w == b * c && w == 2 * h && Distance(a * c, (q * w) * d) < d * h && c > 0
    ensures 2 * Distance(a, q * b) < b
  {
    hide *;
    MulAssociates(q, w, d);
    MulAssociates(q, b, c);
    Swapped(d, w);
    DistanceTimes(a, q * b, c);
    Doubled(d, h);
    HalfUnit(Distance(a, q * b), b, c);
  }

  lemma HalfUnit(x: nat, b: nat, c: nat)
    requires 2 * (x * c) < b * c && c > 0
    ensures 2 * x < b
  {
    assert (2 * x) * c == 2 * (x * c);
    MulCompare(2 * x, b, c);
  }

  lemma PositiveFactor(m: nat, q: nat, p: nat)
    requires m == q * p && m > 0
    ensures q > 0
  {
  }

  /** Everything closer than half a unit to a double, or a quarter of a unit below a power of two, rounds to it. */
  lemma {:induction false} NearIsDouble(n: nat, d: nat, m: nat, e: int)
    requires d > 0 && IsFinite(m, e) && CloserThan(n, d, m, e, e - 54)
    requires m == HIDDEN_BIT && n * Pow2(SCALE) < Exact(m, e) * d ==> CloserThan(n, d, m, e, e - 55)
    ensures exists e0: int :: Rounded(n, d, e0, NearestEven, m, e)
  {
    hide Pow, Pow2, Up, Down, RoundDiv, Units, Rounded, BelowPower;
    AboveIsClose(n, d, m, e);
    if !BelowPower(n, d, e - 1) {
      SameBinade(n, d, m, e);
    } else {
      BelowBinade(n, d, m, e);
    }
  }

  /** n / d < 2^k in multiples of 2^-1128. */
  lemma {:induction false} BelowScaledPower(n: nat, d: nat, k: int)
    requires k >= -1128
    ensures BelowPower(n, d, k) <==> n * Pow2(SCALE) < d * Pow2(k + SCALE)
  {
    hide Pow2, Up, Down;
    var c := Pow2(if k >= 0 then SCALE else k + SCALE);
    CommonScale(n, d, k, c);
    MulCompare(n * Down(2, k), d * Up(2, k), c);
  }

  /** The largest double of a binade is a whole unit below its end. */
  lemma {:induction false} AboveIsClose(n: nat, d: nat, m: nat, e: int)
    requires d > 0 && HIDDEN_BIT <= m < 2 * HIDDEN_BIT && e >= -1073 && CloserThan(n, d, m, e, e - 54)
    ensures BelowPower(n, d, e)
  {
    hide Pow2, Exact, CloserThan, BelowPower;
    BelowScaledPower(n, d, e);
    var w, h, p, x := Pow2(e - 53 + SCALE), Pow2(e - 54 + SCALE), Pow2(e + SCALE), Exact(m, e);
    EndOfBinade(m, e);
    // n 2^1128 < (m + 1) w d <= 2^53 w d
    MulAtMost(x + w, p, d);
    MulAtMost(h, w, d);
    MulSum(x, w, d);
    CloserBelow(n, d, m, e);
    assert p * d == d * p && h * d == d * h;
  }

  lemma MulSum(x: int, w: int, d: int)
    ensures (x + w) * d == x * d + w * d
  {
  }

  lemma CloserBelow(n: nat, d: nat, m: nat, e: int)
    requires e >= -1073 && CloserThan(n, d, m, e, e - 54)
    ensures n * Pow2(SCALE) < Exact(m, e) * d + d * Pow2(e - 54 + SCALE)
  {
    hide Pow2, Exact;
  }

  lemma {:induction false} EndOfBinade(m: nat, e: int)
    requires HIDDEN_BIT <= m < 2 * HIDDEN_BIT && e >= -1073
    ensures Exact(m, e) + Pow2(e - 53 + SCALE) <= Pow2(e + SCALE) && Pow2(e - 54 + SCALE) <= Pow2(e - 53 + SCALE)
  {
    hide Pow2;
    var w := Pow2(e - 53 + SCALE);
    Pow2Is52();
    Pow2Add(53, e - 53 + SCALE);
    Pow2Mono(e - 54 + SCALE, e - 53 + SCALE);
    MulAtMost(m + 1, 2 * HIDDEN_BIT, w);
    assert (m + 1) * w == m * w + w;
  }

  lemma {:induction false} SameBinade(n: nat, d: nat, m: nat, e: int)
    requires d > 0 && IsFinite(m, e) && CloserThan(n, d, m, e, e - 54) && IsExponent(n, d, e)
    ensures exists e0: int :: Rounded(n, d, e0, NearestEven, m, e)
  {
    hide Pow, Pow2, RoundDiv, Units, BelowPower;
    var u := Unit(e);
    var s := u - (e - 53);
    var q := UnitsOf(m, e, u);
    CloserMono(n, d, m, e, e - 54, u - 1);
    RoundsToUnits(n, d, u, q, m, e);
    PositiveFactor(m, q, Pow2(s));
    assert Rounded(n, d, e, NearestEven, m, e);
  }

  /** A double is a whole number of units of its own binade, and of the one below when it is a power of two. */
  lemma {:induction false} UnitsOf(m: nat, e: int, u: int) returns (q: nat)
    requires IsFinite(m, e) && u == Unit(e)
    ensures u >= e - 53 && m == q * Pow2(u - (e - 53)) && Exact(m, e) == q * Pow2(u + SCALE)
  {
    hide Pow2;
    var s := u - (e - 53);
    if s == 0 {
      NoPower();
      q := m;
    } else {
      var r;
      q, r := Rounding.Divide(m, Pow2(s));
      DivIs(m, Pow2(s), q, r);
    }
    Pow2Add(s, e - 53 + SCALE);
    MulAssociates(q, Pow2(s), Pow2(e - 53 + SCALE));
  }

  lemma CloserMono(n: nat, d: nat, m: nat, e: int, k: int, l: int)
    requires d > 0 && e >= -1073 && -1128 <= k <= l && CloserThan(n, d, m, e, k)
    ensures CloserThan(n, d, m, e, l)
  {
    hide Pow2;
    Pow2Mono(k + SCALE, l + SCALE);
    MulAtMost(Pow2(k + SCALE), Pow2(l + SCALE), d);
  }

  /** The quotient lies in the binade below: the double is a power of two. */
  lemma {:induction false} BelowBinade(n: nat, d: nat, m: nat, e: int)
    requires d > 0 && IsFinite(m, e) && CloserThan(n, d, m, e, e - 54) && BelowPower(n, d, e - 1)
    requires m == HIDDEN_BIT && n * Pow2(SCALE) < Exact(m, e) * d ==> CloserThan(n, d, m, e, e - 55)
    ensures exists e0: int :: Rounded(n, d, e0, NearestEven, m, e)
  {
    hide Pow, Pow2, RoundDiv, Units, BelowPower;
    IsPowerOfTwo(n, d, m, e);
    NotTwoBelow(n, d, e);
    var u := Unit(e - 1);
    if e - 1 >= MIN_EXPONENT {
      assert u == e - 54;
      Pow2Is52();
      Doubling(e - 54 + SCALE);
      assert Exact(m, e) == (2 * HIDDEN_BIT) * Pow2(u + SCALE);
      RoundsToUnits(n, d, u, 2 * HIDDEN_BIT, m, e);
      NoPower();
      assert Rounded(n, d, e - 1, NearestEven, m, e);
    } else {
      assert u == Unit(e);
      var s := u - (e - 53);
      var q := UnitsOf(m, e, u);
      CloserMono(n, d, m, e, e - 55, u - 1);
      RoundsToUnits(n, d, u, q, m, e);
      Doubling(s);
      assert 2 * m == q * Pow2(s + 1);
      PositiveFactor(m, q, Pow2(s));
      assert Rounded(n, d, e - 1, NearestEven, m, e);
    }
  }

  lemma {:induction false} IsPowerOfTwo(n: nat, d: nat, m: nat, e: int)
    requires d > 0 && HIDDEN_BIT <= m && e >= -1073 && CloserThan(n, d, m, e, e - 54) && BelowPower(n, d, e - 1)
    ensures m == HIDDEN_BIT && n * Pow2(SCALE) < Exact(m, e) * d
  {
    hide Pow2, BelowPower;
    BelowScaledPower(n, d, e - 1);
    var w := Pow2(e - 53 + SCALE);
    Pow2Is52();
    Pow2Add(52, e - 53 + SCALE);
    Pow2Mono(e - 54 + SCALE, e - 53 + SCALE);
    MulAtMost(Pow2(e - 54 + SCALE), w, d);
    assert d * Pow2(e - 1 + SCALE) == (HIDDEN_BIT * w) * d;
    MulAtMost(HIDDEN_BIT, m, w);
    MulAtMost(HIDDEN_BIT * w, Exact(m, e), d);
    NextMantissa(m, w, d);
  }

  lemma NextMantissa(m: nat, w: nat, d: nat)
    ensures m >= HIDDEN_BIT + 1 ==> (m * w) * d >= (HIDDEN_BIT * w) * d + w * d
  {
    if m >= HIDDEN_BIT + 1 {
      MulAtMost(HIDDEN_BIT + 1, m, w);
      MulAtMost(HIDDEN_BIT * w + w, m * w, d);
      assert (HIDDEN_BIT * w + w) * d == (HIDDEN_BIT * w) * d + w * d;
    }
  }

  /** A quarter of a unit below 2^(e - 1) is still at least 2^(e - 2). */
  lemma {:induction false} NotTwoBelow(n: nat, d: nat, e: int)
    requires d > 0 && e >= -1073 && CloserThan(n, d, HIDDEN_BIT, e, e - 55)
    ensures !BelowPower(n, d, e - 2)
  {
    hide Pow2, BelowPower;
    BelowScaledPower(n, d, e - 2);
    var v := Pow2(e - 55 + SCALE);
    Pow2Is52();
    Pow2Add(2, e - 55 + SCALE);
    Pow2Add(53, e - 55 + SCALE);
    assert Pow2(2) == 4 by { Doubling(1); Doubling(0); NoPower(); }
    assert Exact(HIDDEN_BIT, e) == HIDDEN_BIT * (4 * v);
    assert Pow2(e - 2 + SCALE) == (2 * HIDDEN_BIT) * v;
    assert Exact(HIDDEN_BIT, e) * d == 2 * (((2 * HIDDEN_BIT) * v) * d);
    MulAtMost(1, 2 * HIDDEN_BIT, v);
    MulAtMost(v, (2 * HIDDEN_BIT) * v, d);
  }

  // ---- the order of the bits ----

  /** The double with the given bits in multiples of 2^-1128: the fraction, with the hidden bit unless the exponent
      field is zero, shifted by the exponent. */
  lemma {:induction false} ExactOfBits(bits: nat)
    requires 0 < bits < INFINITY_BITS
    ensures var (m, e) := Unpack(bits);
            var field, fraction := bits / HIDDEN_BIT, bits % HIDDEN_BIT;
            && e >= -1073
            && Exact(m, e) == if field == 0 then fraction * Pow2(54) else (fraction + HIDDEN_BIT) * Pow2(field + 53)
  {
    hide Pow2, BitLength;
    PackUnpack(bits);
    var field, fraction := bits / HIDDEN_BIT, bits % HIDDEN_BIT;
    if field == 0 {
      var l := 53 - BitLength(fraction);
      if l >= 0 {
        Pow2Add(l, 54 - l);
        MulAssociates(fraction, Pow2(l), Pow2(54 - l));
      }
    }
  }

  /** The order of the bits is the order of the doubles. */
  lemma {:induction false} BitsOrder(x: nat, y: nat)
    requires 0 < x < y < INFINITY_BITS
    ensures var ((m, e), (m1, e1)) := (Unpack(x), Unpack(y)); e >= -1073 && e1 >= -1073 && Exact(m, e) < Exact(m1, e1)
  {
    hide Pow2, Unpack, Exact;
    ExactOfBits(x);
    ExactOfBits(y);
    var i, j, f, g := x / HIDDEN_BIT, y / HIDDEN_BIT, x % HIDDEN_BIT, y % HIDDEN_BIT;
    assert x == i * HIDDEN_BIT + f && y == j * HIDDEN_BIT + g;
    assert i <= j;
    var a, b := if i == 0 then f else f + HIDDEN_BIT, if j == 0 then g else g + HIDDEN_BIT;
    var k, l := if i == 0 then 1 else i, if j == 0 then 1 else j;
    if k == l {
      assert a < b;
      MulLess(a, b, Pow2(k + 53));
    } else {
      NextBinade(k, l, a, b);
    }
  }

  lemma {:induction false} NextBinade(i: nat, j: nat, a: nat, b: nat)
    requires 0 < i < j && a < 2 * HIDDEN_BIT && HIDDEN_BIT <= b
    ensures a * Pow2(i + 53) < b * Pow2(j + 53)
  {
    hide Pow2;
    MulLess(a, 2 * HIDDEN_BIT, Pow2(i + 53));
    Doubling(i + 53);
    Pow2Mono(i + 54, j + 53);
    MulAtMost(HIDDEN_BIT, b, Pow2(j + 53));
    MulAtMost(Pow2(i + 54), Pow2(j + 53), HIDDEN_BIT);
  }
}
