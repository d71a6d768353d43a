/** Powers, and rounding of a quotient to an integer. */
module Rounding {

  function Pow(b: nat, n: nat): (r: nat)
    ensures b > 0 ==> r > 0
  {
    if n == 0 then 1 else b * Pow(b, n - 1)
  }

  function Pow2(n: nat): (r: nat)
    ensures r > 0
  {
    Pow(2, n)
  }

  lemma {:induction false} PowAdd(b: nat, m: nat, n: nat)
    ensures Pow(b, m + n) == Pow(b, m) * Pow(b, n)
  {
    if m > 0 {
      PowAdd(b, m - 1, n);
      MulAssociates(b, Pow(b, m - 1), Pow(b, n));
    }
  }

  lemma MulAssociates(a: int, b: int, c: int)
    ensures a * (b * c) == (a * b) * c
  {
  }

  lemma {:induction false} PowMul(a: nat, b: nat, n: nat)
    ensures Pow(a * b, n) == Pow(a, n) * Pow(b, n)
  {
    if n > 0 {
      PowMul(a, b, n - 1);
      MulRegroup(a, b, Pow(a, n - 1), Pow(b, n - 1));
    }
  }

  lemma MulRegroup(a: int, b: int, x: int, y: int)
    ensures (a * b) * (x * y) == (a * x) * (b * y)
  {
    assert (a * b) * (x * y) == a * (b * (x * y));
    assert b * (x * y) == x * (b * y);
    assert a * (x * (b * y)) == (a * x) * (b * y);
  }

  lemma {:induction false} PowPow(b: nat, m: nat, n: nat)
    ensures Pow(Pow(b, m), n) == Pow(b, m * n)
  {
    if n == 0 {
    } else {
      PowPow(b, m, n - 1);
      PowAdd(b, m, m * (n - 1));
      assert m + m * (n - 1) == m * n;
    }
  }

  lemma Pow2Add(m: nat, n: nat)
    ensures Pow2(m + n) == Pow2(m) * Pow2(n)
  {
    PowAdd(2, m, n);
  }

  lemma {:induction false} Pow2Mono(m: nat, n: nat)
    requires m <= n
    ensures Pow2(m) <= Pow2(n)
  {
    if m < n {
      Pow2Mono(m, n - 1);
    }
  }

  lemma {:induction false} PowMono(b: nat, m: nat, n: nat)
    requires b > 0 && m <= n
    ensures Pow(b, m) <= Pow(b, n)
  {
    if m < n {
      PowMono(b, m, n - 1);
      assert Pow(b, n) == b * Pow(b, n - 1);
    }
  }

  // ---- rounding ----

  datatype Mode = NearestEven | NearestAway | TowardZero

  /** n / d rounded to an integer. */
  function RoundDiv(n: nat, d: nat, mode: Mode): nat
    requires d > 0
  {
    var q, r := n / d, n % d;
    match mode
    case TowardZero => q
    case NearestAway => if 2 * r < d then q else q + 1
    case NearestEven => if 2 * r < d || (2 * r == d && q % 2 == 0) then q else q + 1
  }

  /** v is nearest to n / d, and in case of a tie the even one, or the greater one. */
  predicate IsNearest(n: nat, d: nat, mode: Mode, v: nat) {
    && -(d as int) <= 2 * (n - v * d) <= d
    && (2 * (n - v * d) == d || 2 * (n - v * d) == -(d as int) ==>
        match mode
        case NearestEven => v % 2 == 0
        case _ => n <= v * d)
  }

  lemma {:induction false} DivIs(n: nat, d: nat, q: nat, r: nat)
    requires d > 0 && n == q * d + r && r < d
    ensures n / d == q && n % d == r
  {
    var x := n / d;
    assert n == x * d + n % d;
    assert x < q ==> (x + 1) * d <= q * d by { if x < q { MulAtMost(x + 1, q, d); } }
    assert q < x ==> (q + 1) * d <= x * d by { if q < x { MulAtMost(q + 1, x, d); } }
    assert (x + 1) * d == x * d + d && (q + 1) * d == q * d + d;
  }

  lemma MulAtMost(a: int, b: int, c: int)
    requires a <= b && c >= 0
    ensures a * c <= b * c
  {
  }

  /** Rounding finds the nearest integer, and it is the only one. */
  lemma {:induction false} RoundIsNearest(n: nat, d: nat, mode: Mode, v: nat)
    requires d > 0 && mode != TowardZero
    ensures IsNearest(n, d, mode, v) <==> v == RoundDiv(n, d, mode)
  {
    var q, r := n / d, n % d;
    assert n == q * d + r;
    NearMultiples(q, v, d);
    NearestCases(n, d, mode, v, q, r, q * d, v * d);
  }

  lemma NearMultiples(q: int, v: int, d: int)
    requires d > 0
    ensures v <= q - 1 ==> v * d <= q * d - d
    ensures v == q + 1 ==> v * d == q * d + d
    ensures v >= q + 2 ==> v * d >= q * d + 2 * d
  {
    if v <= q - 1 {
      MulAtMost(v, q - 1, d);
    } else if v >= q + 2 {
      MulAtMost(q + 2, v, d);
    }
  }

  lemma {:induction false} NearestCases(n: nat, d: nat, mode: Mode, v: nat, q: nat, r: nat, x: int, y: int)
    requires d > 0 && mode != TowardZero && q == n / d && r == n % d && n == x + r && y == v * d
    requires v <= q - 1 ==> y <= x - d
    requires v == q ==> y == x
    requires v == q + 1 ==> y == x + d
    requires v >= q + 2 ==> y >= x + 2 * d
    ensures IsNearest(n, d, mode, v) <==> v == RoundDiv(n, d, mode)
  {
    assert n - v * d == x - y + r;
  }

  /** The result depends on the quotient only. */
  lemma {:induction false} RoundScale(n: nat, d: nat, c: nat, mode: Mode)
    requires d > 0 && c > 0
    ensures d * c > 0 && RoundDiv(n * c, d * c, mode) == RoundDiv(n, d, mode)
  {
    var q, r := n / d, n % d;
    assert n == q * d + r;
    ScaleParts(q, d, r, c);
    MulLess(r, d, c);
    MulLess(0, d, c);
    DivIs(n * c, d * c, q, r * c);
    MulCompare(2 * r, d, c);
    assert (2 * r) * c == 2 * (r * c);
  }

  lemma ScaleParts(q: int, d: int, r: int, c: int)
    ensures (q * d + r) * c == q * (d * c) + r * c
  {
    assert (q * d + r) * c == (q * d) * c + r * c;
    assert (q * d) * c == q * (d * c);
  }

  lemma MulLess(a: int, b: int, c: int)
    requires a < b && c > 0
    ensures a * c < b * c
  {
  }

  lemma MulCompare(a: int, b: int, c: int)
    requires c > 0
    ensures a * c < b * c <==> a < b
    ensures a * c == b * c <==> a == b
  {
    if a < b {
      MulLess(a, b, c);
    } else if b < a {
      MulLess(b, a, c);
    }
  }

  lemma {:induction false} RoundRatio(n1: nat, d1: nat, n2: nat, d2: nat, mode: Mode)
    requires d1 > 0 && d2 > 0 && n1 * d2 == n2 * d1
    ensures RoundDiv(n1, d1, mode) == RoundDiv(n2, d2, mode)
  {
    RoundScale(n1, d1, d2, mode);
    RoundScale(n2, d2, d1, mode);
    assert d1 * d2 == d2 * d1;
  }

  // ---- truncation with a sticky bit ----

  /** Set the lowest bit when something was cut off. */
  function Sticky(z: nat, inexact: bool): nat { if inexact && z % 2 == 0 then z + 1 else z }

  /** Truncating a quotient, with a sticky bit, and then rounding off at least two more bits rounds the quotient
      itself: there is no double rounding. */
  lemma {:induction false} StickyRounds(n: nat, d: nat, s: nat, mode: Mode)
    requires d > 0 && s >= 2
    ensures d * Pow2(s) > 0
    ensures RoundDiv(Sticky(n / d, n % d != 0), Pow2(s), mode) == RoundDiv(n, d * Pow2(s), mode)
  {
    DivMod(n, d);
    StickyQuotient(n, d, n / d, n % d, s, mode);
  }

  lemma {:induction false} StickyQuotient(n: nat, d: nat, z: nat, r: nat, s: nat, mode: Mode)
    requires n == z * d + r && r < d && s >= 2
    ensures d * Pow2(s) > 0
    ensures RoundDiv(Sticky(z, r != 0), Pow2(s), mode) == RoundDiv(n, d * Pow2(s), mode)
  {
    hide *;
    var h := Pow2(s - 2);
    FourTimes(s);
    var q, t := Divide(z, 4 * h);
    StickyParts(n, d, h, z, r, q, t, mode);
  }

  lemma Divide(n: nat, d: nat) returns (q: nat, r: nat)
    requires d > 0
    ensures n == q * d + r && r < d
  {
    q, r := n / d, n % d;
  }

  lemma FourTimes(s: nat)
    requires s >= 2
    ensures Pow2(s) == 4 * Pow2(s - 2)
  {
    assert Pow2(s) == 2 * Pow2(s - 1) == 2 * (2 * Pow2(s - 2));
  }

  lemma DivMod(n: nat, d: nat)
    requires d > 0
    ensures n == (n / d) * d + n % d && n % d < d
  {
  }

  lemma {:induction false} StickyParts(n: nat, d: nat, h: nat, z: nat, r: nat, q: nat, t: nat, mode: Mode)
    requires n == z * d + r && r < d && z == q * (4 * h) + t && t < 4 * h
    ensures d * (4 * h) > 0
    ensures RoundDiv(Sticky(z, r != 0), 4 * h, mode) == RoundDiv(n, d * (4 * h), mode)
  {
    hide RoundDiv;
    var t1 := if r != 0 && z % 2 == 0 then t + 1 else t;
    EvenMultiple(q, 4 * h, 2 * h, t);
    var dp, dt := d * (4 * h), d * t;
    assert n == q * dp + (dt + r) by { Regroup(q, 4 * h, t, d, r); }
    BelowMultiple(d, t, r, 4 * h);
    StickyHalf(d, t, r, h, z % 2 == 0);
    RoundSame(Sticky(z, r != 0), 4 * h, n, dp, q, t1, dt + r, mode);
  }

  lemma BelowMultiple(d: int, t: int, r: int, p: int)
    requires 0 <= r < d && 0 <= t < p
    ensures 0 < d * p && d * t + r < d * p
  {
    MulAtMost(t + 1, p, d);
    MulAtMost(1, p, d);
    assert (t + 1) * d == d * t + d && p * d == d * p;
  }

  /** Equal quotients, and remainders on the same side of one half. */
  lemma {:induction false} RoundSame(n1: nat, d1: nat, n2: nat, d2: nat, q: nat, r1: nat, r2: nat, mode: Mode)
    requires n1 == q * d1 + r1 && r1 < d1 && n2 == q * d2 + r2 && r2 < d2
    requires 2 * r1 < d1 <==> 2 * r2 < d2
    requires 2 * r1 == d1 <==> 2 * r2 == d2
    ensures RoundDiv(n1, d1, mode) == RoundDiv(n2, d2, mode)
  {
    DivIs(n1, d1, q, r1);
    DivIs(n2, d2, q, r2);
  }

  lemma EvenMultiple(q: nat, p: nat, h: nat, t: nat)
    requires p == 2 * h && t < p
    ensures (q * p + t) % 2 == t % 2
    ensures t % 2 == 0 ==> t + 1 < p
  {
    assert q * p == 2 * (q * h);
  }

  lemma Regroup(q: int, p: int, t: int, d: int, r: int)
    ensures (q * p + t) * d + r == q * (d * p) + (d * t + r)
  {
    assert (q * p + t) * d == (q * p) * d + t * d;
    assert (q * p) * d == q * (d * p);
  }

  /** Multiples of d on either side of another one. */
  lemma MultiplesApart(d: nat, t: nat, h: nat)
    ensures d * (2 * h) == 2 * (d * h)
    ensures t < h ==> d * t + d <= d * h
    ensures t > h ==> d * h + d <= d * t
  {
    if t < h {
      MulAtMost(t + 1, h, d);
      assert (t + 1) * d == d * t + d;
    } else if t > h {
      MulAtMost(h + 1, t, d);
      assert (h + 1) * d == d * h + d;
    }
  }

  /** Comparison with one half is not affected by the sticky bit. */
  lemma {:induction false} StickyHalf(d: nat, t: nat, r: nat, h: nat, even: bool)
    requires d > 0 && r < d && (t % 2 == 0) == even
    ensures var t1 := if r != 0 && even then t + 1 else t;
            && (2 * t1 < 4 * h <==> 2 * (d * t + r) < d * (4 * h))
            && (2 * t1 == 4 * h <==> 2 * (d * t + r) == d * (4 * h))
  {
    MultiplesApart(d, t, 2 * h);
    StickyLinear(d, t, r, h, even, d * t, d * (2 * h));
  }

  lemma StickyLinear(d: nat, t: nat, r: nat, h: nat, even: bool, dt: nat, dh: nat)
    requires r < d && (t % 2 == 0) == even
    requires (t < 2 * h ==> dt + d <= dh) && (t > 2 * h ==> dh + d <= dt) && (t == 2 * h ==> dt == dh)
    ensures var t1 := if r != 0 && even then t + 1 else t;
            (2 * t1 < 4 * h <==> dt + r < dh) && (2 * t1 == 4 * h <==> dt + r == dh)
  {
  }

  /** Truncating twice is truncating once, and it is exact if and only if both steps are. */
  lemma {:induction false} TruncateTwice(n: nat, a: nat, b: nat)
    requires a > 0 && b > 0
    ensures a * b > 0 && n / a / b == n / (a * b)
    ensures n % (a * b) == 0 <==> n % a == 0 && n / a % b == 0
  {
    var x, y := Divide(n, a);
    var u, v := Divide(x, b);
    DivIs(n, a, x, y);
    DivIs(x, b, u, v);
    Regroup(u, b, v, a, y);
    BelowMultiple(a, v, y, b);
    TruncateParts(n, a, b, u, a * v, y, v);
  }

  lemma TruncateParts(n: nat, a: nat, b: nat, u: nat, av: nat, y: nat, v: nat)
    requires a > 0 && b > 0 && a * b > 0 && av == a * v && n == u * (a * b) + (av + y) && av + y < a * b
    ensures n / (a * b) == u && (n % (a * b) == 0 <==> y == 0 && v == 0)
  {
    DivIs(n, a * b, u, av + y);
    if v > 0 {
      MulAtMost(1, v, a);
    }
  }
}
