/** Rounding of positive rationals to binary64, and the packing of the result into 64 bits. */
module Doubles {
  import opened Rounding
  import opened Limbs
  import opened Bignum
  import opened IntegerRounding

  const MIN_EXPONENT: int := -1021
  const LEAST_UNIT: int := -1074
  const HIDDEN_BIT: nat := 0x10_0000_0000_0000

  /** n / d < 2^k. */
  predicate BelowPower(n: nat, d: nat, k: int) { n * Down(2, k) < d * Up(2, k) }

  /** 2^(e - 1) <= n / d < 2^e. */
  predicate IsExponent(n: nat, d: nat, e: int) { BelowPower(n, d, e) && !BelowPower(n, d, e - 1) }

  /** Exponent of the unit in the last place of a number below 2^e. */
  function Unit(e: int): int { if e < MIN_EXPONENT then LEAST_UNIT else e - 53 }

  /** n / d in units of 2^u, rounded (section 4.3.1 of IEEE 754-2019). */
  function Units(n: nat, d: nat, u: int, mode: Mode): nat
    requires d > 0
  {
    MulLess(0, d, Up(2, u));
    RoundDiv(n * Down(2, u), d * Up(2, u), mode)
  }

  /** m 2^(e - 53) is n / d rounded to binary64, with unbounded exponent range above; zero is m = 0. */
  ghost predicate Rounded(n: nat, d: nat, e0: int, mode: Mode, m: nat, e: int)
    requires d > 0
  {
    && IsExponent(n, d, e0)
    && var u := Unit(e0);
    var q := Units(n, d, u, mode);
    if q == 0 then m == 0
    else
      && HIDDEN_BIT <= m < 2 * HIDDEN_BIT && 53 - (e0 - u) >= 0
      && ((e == e0 && m == q * Pow2(53 - (e0 - u))) || (e == e0 + 1 && 2 * m == q * Pow2(53 - (e0 - u))))
  }

  lemma Pow2Is52()
    ensures Pow2(52) == HIDDEN_BIT && Pow2(53) == 2 * HIDDEN_BIT
  {
    Pow2Is32();
    Pow2Add(32, 16);
    Pow2Add(48, 4);
    assert Pow2(4) == 16 by { assert Pow2(2) == 4; Pow2Add(2, 2); }
    Doubling(52);
  }

  // ---- the exponent ----

  /** Multiplying by a power of two. */
  lemma {:induction false} BelowShift(a: nat, s: int, k: int)
    ensures BelowPower(a * Down(2, s), Up(2, s), k) <==> BelowPower(a, 1, k + s)
  {
    hide Pow2, Up, Down;
    UpDown2(s);
    UpDown2(k);
    UpDown2(k + s);
    var sd, su := if s >= 0 then 0 else -s, if s >= 0 then s else 0;
    var kd, ku := if k >= 0 then 0 else -k, if k >= 0 then k else 0;
    var td, tu := if k + s >= 0 then 0 else -(k + s), if k + s >= 0 then k + s else 0;
    Pow2Add(sd, kd);
    Pow2Add(su, ku);
    // sd + kd - td = su + ku - tu
    var c := sd + kd - td;
    assert c == su + ku - tu && c >= 0;
    Pow2Add(td, c);
    Pow2Add(tu, c);
    BelowScaled(a, Pow2(sd), Pow2(kd), Pow2(su), Pow2(ku), Pow2(td), Pow2(tu), Pow2(c));
  }

  lemma {:induction false} BelowScaled(a: nat, sd: nat, kd: nat, su: nat, ku: nat, td: nat, tu: nat, c: nat)
    requires sd * kd == td * c && su * ku == tu * c && c > 0
    ensures (a * sd) * kd < su * ku <==> a * td < 1 * tu
  {
    assert (a * sd) * kd == a * (sd * kd);
    assert a * (td * c) == (a * td) * c;
    MulCompare(a * td, tu, c);
  }

  /** The exponent of a 2^-s is the number of bits of a, less s. */
  lemma {:induction false} ExponentOfShift(a: nat, log: nat, s: int)
    requires IsLog2(a, log)
    ensures IsExponent(a * Down(2, s), Up(2, s), log + 1 - s)
  {
    hide Pow, Pow2, Up, Down;
    BelowShift(a, s, log + 1 - s);
    BelowShift(a, s, log - s);
    UpDown2(log + 1);
    UpDown2(log);
    NoPower();
  }

  /** The exponent of a quotient is that of its integer part, when this is not zero. */
  lemma {:induction false} ExponentOfQuotient(n: nat, d: nat, z: nat, r: nat, k: nat)
    requires d > 0 && n == z * d + r && r < d
    ensures BelowPower(n, d, k) <==> BelowPower(z, 1, k)
  {
    hide Pow2;
    assert Down(2, k) == 1 && Up(2, k) == Pow2(k) by { UpDown2(k); assert Pow2(0) == 1; }
    var p := Pow2(k);
    if z < p {
      MulAtMost(z + 1, p, d);
      assert (z + 1) * d == z * d + d;
    } else {
      MulAtMost(p, z, d);
    }
    assert d * p == p * d;
  }

  // ---- nearest ----

  /** A double k 2^v: at most 53 bits, no unit below 2^-1074. */
  predicate IsDouble(k: nat, v: int) { k <= 2 * HIDDEN_BIT && v >= LEAST_UNIT }

  /** Multiples of 2^-1074. */
  function Scaled(k: nat, v: int): nat
    requires v >= LEAST_UNIT
  {
    k * Pow2(v - LEAST_UNIT)
  }

  function Distance(a: int, b: int): nat { if a < b then b - a else a - b }

  /** The rounded value is at least as near to n / d as every double. */
  lemma {:induction false} NearestDouble(n: nat, d: nat, e0: int, mode: Mode, k: nat, v: int)
    requires d > 0 && mode != TowardZero && IsExponent(n, d, e0) && IsDouble(k, v)
    ensures var u := Unit(e0);
            Distance(n * Pow2(1074), Scaled(Units(n, d, u, mode), u) * d) <= Distance(n * Pow2(1074), Scaled(k, v) * d)
  {
    hide Pow, Pow2, RoundDiv, Up, Down;
    var u := Unit(e0);
    var q := Units(n, d, u, mode);
    if v >= u {
      var j := k * Pow2(v - u);
      Pow2Add(v - u, u - LEAST_UNIT);
      MulAssociates(k, Pow2(v - u), Pow2(u - LEAST_UNIT));
      NearestMultiple(n, d, u, mode, j);
    } else {
      NearestMultiple(n, d, u, mode, HIDDEN_BIT);
      FinerIsSmaller(n, d, e0, k, v);
    }
  }

  /** Among the multiples of the unit the rounded value is the nearest. */
  lemma {:induction false} NearestMultiple(n: nat, d: nat, u: int, mode: Mode, j: nat)
    requires d > 0 && mode != TowardZero && u >= LEAST_UNIT
    ensures Distance(n * Pow2(1074), Scaled(Units(n, d, u, mode), u) * d) <= Distance(n * Pow2(1074), Scaled(j, u) * d)
  {
    hide Pow, Pow2, RoundDiv, Up, Down;
    var p := u - LEAST_UNIT;
    UpDown2(u);
    var a, b := n * Down(2, u), d * Up(2, u);
    MulLess(0, d, Up(2, u));
    var q := RoundDiv(a, b, mode);
    RoundIsNearest(a, b, mode, q);
    CloserMultiple(a, b, mode, q, j);
    // n 2^1074 = a c and d 2^p = b c, with c = 2^min(p, 1074)
    var c := Pow2(if u >= 0 then 1074 else p);
    assert n * Pow2(1074) == a * c && d * Pow2(p) == b * c by { CommonUnit(n, d, u, c); }
    ScaleDistance(a, q, j, b, c, d, Pow2(p));
  }

  lemma {:induction false} CommonUnit(n: nat, d: nat, u: int, c: nat)
    requires u >= LEAST_UNIT && c == Pow2(if u >= 0 then 1074 else u - LEAST_UNIT)
    ensures n * Pow2(1074) == (n * Down(2, u)) * c && d * Pow2(u - LEAST_UNIT) == (d * Up(2, u)) * c
  {
    hide Pow2, Up, Down;
    UpDown2(u);
    assert Pow2(0) == 1 by { NoPower(); }
    if u >= 0 {
      Pow2Add(u, 1074);
      MulAssociates(n, 1, c);
      MulAssociates(d, Pow2(u), c);
    } else {
      Pow2Add(-u, u - LEAST_UNIT);
      MulAssociates(n, Pow2(-u), c);
      MulAssociates(d, 1, c);
    }
  }

  lemma {:induction false} CloserMultiple(a: nat, b: nat, mode: Mode, q: nat, j: nat)
    requires b > 0 && IsNearest(a, b, mode, q)
    ensures Distance(a, q * b) <= Distance(a, j * b)
  {
    if j < q {
      MulAtMost(j, q - 1, b);
      assert (q - 1) * b == q * b - b;
    } else if j > q {
      MulAtMost(q + 1, j, b);
      assert (q + 1) * b == q * b + b;
    }
  }

  lemma {:induction false} ScaleDistance(a: nat, q: nat, j: nat, b: nat, c: nat, d: nat, p: nat)
    requires d * p == b * c && Distance(a, q * b) <= Distance(a, j * b)
    ensures Distance(a * c, (q * p) * d) <= Distance(a * c, (j * p) * d)
  {
    assert (q * p) * d == q * (d * p) && (j * p) * d == j * (d * p);
    assert q * (b * c) == (q * b) * c && j * (b * c) == (j * b) * c;
    DistanceTimes(a, q * b, c);
    DistanceTimes(a, j * b, c);
    MulAtMost(Distance(a, q * b), Distance(a, j * b), c);
  }

  lemma DistanceTimes(x: int, y: int, c: nat)
    ensures Distance(x * c, y * c) == Distance(x, y) * c
  {
    if x < y {
      assert y * c - x * c == (y - x) * c;
      MulAtMost(x, y, c);
    } else {
      assert x * c - y * c == (x - y) * c;
      MulAtMost(y, x, c);
    }
  }

  /** A double with a finer unit lies below 2^(e0 - 1), which is a multiple of the unit not above n / d. */
  lemma {:induction false} FinerIsSmaller(n: nat, d: nat, e0: int, k: nat, v: int)
    requires d > 0 && IsExponent(n, d, e0) && IsDouble(k, v) && v < Unit(e0)
    ensures Scaled(k, v) * d <= Scaled(HIDDEN_BIT, Unit(e0)) * d <= n * Pow2(1074)
  {
    hide Pow, Pow2, Up, Down;
    var u := Unit(e0);
    Pow2Is52();
    // 2^53 2^v <= 2^52 2^u
    Pow2Add(53, v - LEAST_UNIT);
    Pow2Add(52, u - LEAST_UNIT);
    Pow2Mono(53 + v - LEAST_UNIT, 52 + u - LEAST_UNIT);
    MulAtMost(k, 2 * HIDDEN_BIT, Pow2(v - LEAST_UNIT));
    MulAtMost(Scaled(k, v), Scaled(HIDDEN_BIT, u), d);
    AtLeastPower(n, d, e0 - 1);
  }

  lemma {:induction false} AtLeastPower(n: nat, d: nat, k: int)
    requires !BelowPower(n, d, k) && k >= LEAST_UNIT
    ensures Pow2(k - LEAST_UNIT) * d <= n * Pow2(1074)
  {
    hide Pow, Pow2, Up, Down;
    var c := Pow2(if k >= 0 then 1074 else k - LEAST_UNIT);
    CommonUnit(n, d, k, c);
    MulAtMost(d * Up(2, k), n * Down(2, k), c);
    assert Pow2(k - LEAST_UNIT) * d == d * Pow2(k - LEAST_UNIT);
  }
}
