/** When the digits that `js_dtoa` prints are as few as possible. */
module Shortest {
  import opened Rounding
  import opened Bignum
  import opened IntegerRounding
  import opened Doubles
  import opened FloatConversion
  import opened NearDouble
  import opened FreeFormat
  import opened Log10
  import opened DecimalText
  import opened Printing

  // ---- powers and quotients as real numbers ----

  /** b^k, whatever the sign of k. */
  ghost function Power(b: nat, k: int): (r: real)
    requires b > 0
    ensures r > 0.0
  {
    Up(b, k) as real / Down(b, k) as real
  }

  /** The double m 2^(e - 53). */
  ghost function Double(m: nat, e: int): real { m as real * Power(2, e - 53) }

  /** The value a b^f. */
  ghost function Decimal(a: nat, b: nat, f: int): real
    requires b > 0
  {
    a as real * Power(b, f)
  }

  lemma {:induction false} PowerStep(b: nat, k: int)
    requires b > 0
    ensures Power(b, k + 1) == b as real * Power(b, k)
  {
    hide Up, Down;
    NextPower(b, k);
    CrossRatio(Up(b, k + 1), Down(b, k + 1), Up(b, k), Down(b, k), b);
  }

  lemma CrossRatio(x: nat, y: nat, u: nat, v: nat, b: nat)
    requires y > 0 && v > 0 && x * v == b * (u * y)
    ensures x as real / y as real == b as real * (u as real / v as real)
  {
    var s, t := x as real / y as real, u as real / v as real;
    assert x as real == s * y as real && u as real == t * v as real;
    assert (x * v) as real == x as real * v as real;
    assert (b * (u * y)) as real == b as real * (u as real * y as real);
    SameFactor(s, b as real * t, y as real * v as real);
  }

  lemma SameFactor(s: real, t: real, y: real)
    requires y > 0.0 && s * y == t * y
    ensures s == t
  {
    if s < t {
      RealTimes(s, t, y);
    } else if t < s {
      RealTimes(t, s, y);
    }
  }

  lemma RealTimes(s: real, t: real, y: real)
    requires y > 0.0 && s < t
    ensures s * y < t * y
  {
  }

  lemma RealAtMost(s: real, t: real, y: real)
    requires y >= 0.0 && s <= t
    ensures s * y <= t * y
  {
  }

  lemma PowerZero(b: nat)
    requires b > 0
    ensures Power(b, 0) == 1.0
  {
  }

  lemma {:induction false} PowerSum(b: nat, g: int, h: int)
    requires b > 0
    ensures Power(b, g + h) == Power(b, g) * Power(b, h)
    decreases if h < 0 then -h else h
  {
    hide Power;
    if h == 0 {
      PowerZero(b);
    } else if h > 0 {
      PowerSum(b, g, h - 1);
      PowerStep(b, g + h - 1);
      PowerStep(b, h - 1);
      RealSwap(b as real, Power(b, g), Power(b, h - 1));
    } else {
      PowerSum(b, g, h + 1);
      PowerStep(b, g + h);
      PowerStep(b, h);
      RealSwap(b as real, Power(b, g), Power(b, h));
      SameFactor(Power(b, g + h), Power(b, g) * Power(b, h), b as real);
    }
  }

  lemma RealSwap(x: real, y: real, z: real)
    ensures x * (y * z) == y * (x * z) && x * (y * z) == (y * z) * x && (x * y) * z == x * (y * z)
  {
  }

  lemma PowerInverse(b: nat, k: int)
    requires b > 0
    ensures Power(b, k) * Power(b, 0 - k) == 1.0
  {
    hide Power;
    PowerSum(b, k, 0 - k);
    PowerZero(b);
  }

  lemma PowerOf(b: nat, k: nat)
    requires b > 0
    ensures Power(b, k) == Pow(b, k) as real
  {
    assert Down(b, k) == 1;
    assert Up(b, k) == Pow(b, k);
  }

  lemma PowerOfBinary(k: nat)
    ensures Power(2, k) == Pow2(k) as real
  {
    hide Power;
    PowerOf(2, k);
  }

  lemma {:induction false} PowerMono(b: nat, g: int, h: int)
    requires b > 0 && g <= h
    ensures Power(b, g) <= Power(b, h)
  {
    hide Power;
    PowerSum(b, g, h - g);
    PowerOf(b, h - g);
    assert Pow(b, h - g) >= 1;
    RealAtMost(1.0, Power(b, h - g), Power(b, g));
  }

  lemma QuotientProduct(x: nat, y: nat, u: nat, v: nat)
    requires u > 0 && v > 0
    ensures u * v > 0 && (x * y) as real / (u * v) as real == (x as real / u as real) * (y as real / v as real)
  {
    MulLess(0, u, v);
    var s, t := x as real / u as real, y as real / v as real;
    assert x as real == s * u as real && y as real == t * v as real;
    assert (x * y) as real == x as real * y as real && (u * v) as real == u as real * v as real;
    RealRegroup(s, u as real, t, v as real);
    var w := (x * y) as real / (u * v) as real;
    assert (x * y) as real == w * (u * v) as real;
    SameFactor(w, s * t, u as real * v as real);
  }

  lemma RealRegroup(a: real, b: real, x: real, y: real)
    ensures (a * b) * (x * y) == (a * x) * (b * y)
  {
    assert (a * b) * (x * y) == a * (b * (x * y));
    assert b * (x * y) == x * (b * y);
    assert a * (x * (b * y)) == (a * x) * (b * y);
  }

  /** The fractions of the other modules. */
  lemma {:induction false} NumQuotient(m: nat, t: int, b: nat, g: int)
    requires b > 0
    ensures Num(m, t, b, g) as real / Den(t, b, g) as real == (m as real * Power(2, t)) * Power(b, g)
  {
    hide Pow, Pow2, Up, Down;
    QuotientProduct(m, Up(2, t), 1, Down(2, t));
    assert m as real / 1.0 == m as real;
    QuotientProduct(m * Up(2, t), Up(b, g), Down(2, t), Down(b, g));
  }

  lemma {:induction false} DecimalQuotient(a: nat, b: nat, f: int)
    requires b > 0
    ensures Num(a, 0, b, f) as real / Den(0, b, f) as real == Decimal(a, b, f)
  {
    NumQuotient(a, 0, b, f);
    PowerZero(2);
  }

  // ---- rounding of a real number ----

  ghost function Gap(x: real, y: real): real { if x < y then y - x else x - y }

  /** q is the integer nearest to r, the even one in case of a tie. */
  predicate NearestTo(r: real, q: nat) {
    var z := 2.0 * (r - q as real);
    -1.0 <= z <= 1.0 && (z == 1.0 || z == -1.0 ==> q % 2 == 0)
  }

  /** The same with the distance. */
  lemma NearestGap(r: real, q: nat)
    ensures NearestTo(r, q) <==> 2.0 * Gap(r, q as real) <= 1.0 && (2.0 * Gap(r, q as real) == 1.0 ==> q % 2 == 0)
  {
  }

  lemma {:induction false} RoundReal(n: nat, d: nat, q: nat)
    requires d > 0
    ensures RoundDiv(n, d, NearestEven) == q <==> NearestTo(n as real / d as real, q)
  {
    hide *;
    RoundIsNearest(n, d, NearestEven, q);
    var r, y := n as real / d as real, d as real;
    assert n as real == r * y;
    RealProduct(q, d);
    NearestRatio(n, d, q, q * d, r, y);
  }

  lemma {:induction false} NearestRatio(n: nat, d: nat, q: nat, x: nat, r: real, y: real)
    requires d > 0 && y == d as real && n as real == r * y && x == q * d && x as real == q as real * y
    ensures IsNearest(n, d, NearestEven, q) <==> NearestTo(r, q)
  {
    var z, k := 2.0 * (r - q as real), 2 * (n - x);
    RealDifference(r, q as real, y);
    HalfCompare(k, d, z, y);
    assert IsNearest(n, d, NearestEven, q) <==>
      -(d as int) <= k <= d && (k == d || k == -(d as int) ==> q % 2 == 0);
  }

  lemma HalfCompare(k: int, d: nat, z: real, y: real)
    requires d > 0 && y == d as real && k as real == z * y
    ensures (k <= d <==> z <= 1.0) && (k == d <==> z == 1.0)
    ensures (-(d as int) <= k <==> -1.0 <= z) && (k == -(d as int) <==> z == -1.0)
  {
    UnitCompare(z, y, k as real);
    WholeCompare(k, d, k as real);
  }

  lemma UnitCompare(z: real, y: real, x: real)
    requires y > 0.0 && x == z * y
    ensures (x <= y <==> z <= 1.0) && (x == y <==> z == 1.0)
    ensures (0.0 - y <= x <==> -1.0 <= z) && (x == 0.0 - y <==> z == -1.0)
  {
    assert (z - 1.0) * y == x - y;
    SignProduct(z - 1.0, y, x - y);
    assert (z + 1.0) * y == x + y;
    SignProduct(z + 1.0, y, x + y);
  }

  lemma SignProduct(a: real, y: real, x: real)
    requires y > 0.0 && a * y == x
    ensures (x <= 0.0 <==> a <= 0.0) && (x == 0.0 <==> a == 0.0)
  {
  }

  lemma WholeCompare(k: int, d: nat, x: real)
    requires k as real == x
    ensures (k <= d <==> x <= d as real) && (k == d <==> x == d as real)
    ensures (-(d as int) <= k <==> 0.0 - d as real <= x) && (k == -(d as int) <==> x == 0.0 - d as real)
  {
  }

  lemma RealProduct(x: nat, y: nat)
    ensures (x * y) as real == x as real * y as real
  {
  }

  lemma RealDifference(r: real, q: real, y: real)
    ensures 2.0 * (r * y - q * y) == (2.0 * (r - q)) * y
  {
  }

  lemma RealCompare(s: real, t: real, y: real)
    requires y > 0.0
    ensures s * y <= t * y <==> s <= t
    ensures s * y == t * y <==> s == t
  {
    if s < t {
      RealTimes(s, t, y);
    } else if t < s {
      RealTimes(t, s, y);
    }
  }

  /** No integer is nearer. */
  lemma NearestBest(r: real, q: nat, k: nat)
    requires NearestTo(r, q)
    ensures Gap(r, q as real) <= Gap(r, k as real)
  {
    NearestGap(r, q);
    if k < q {
      assert k as real <= (q - 1) as real == q as real - 1.0;
    } else if k > q {
      assert k as real >= (q + 1) as real == q as real + 1.0;
    }
  }

  lemma GapTimes(x: real, y: real, c: real)
    requires c > 0.0
    ensures Gap(x * c, y * c) == Gap(x, y) * c
  {
    if x < y {
      RealTimes(x, y, c);
    } else if y < x {
      RealTimes(y, x, c);
    }
    assert (x - y) * c == x * c - y * c && (y - x) * c == y * c - x * c;
  }

  // ---- conversions as conditions on the value ----

  lemma {:induction false} BelowReal(a: nat, b: nat, f: int, k: int)
    requires b > 0
    ensures BelowPower(Num(a, 0, b, f), Den(0, b, f), k) <==> Decimal(a, b, f) < Power(2, k)
  {
    hide Pow, Pow2, Num, Den;
    DecimalQuotient(a, b, f);
    var n, d := Num(a, 0, b, f), Den(0, b, f);
    CrossCompare(n, d, Up(2, k), Down(2, k));
  }

  lemma CrossCompare(n: nat, d: nat, u: nat, v: nat)
    requires d > 0 && v > 0
    ensures n * v < d * u <==> n as real / d as real < u as real / v as real
  {
    var s, t := n as real / d as real, u as real / v as real;
    assert n as real == s * d as real && u as real == t * v as real;
    assert (n * v) as real == n as real * v as real && (d * u) as real == d as real * u as real;
    var y := d as real * v as real;
    assert (s * d as real) * v as real == s * y && d as real * (t * v as real) == t * y;
    RealCompare(t, s, y);
  }

  /** Rounding to a unit. */
  lemma {:induction false} UnitsReal(a: nat, b: nat, f: int, u: int, q: nat)
    requires b > 0
    ensures Units(Num(a, 0, b, f), Den(0, b, f), u, NearestEven) == q
        <==> NearestTo(Scaled(Decimal(a, b, f), u), q)
  {
    hide *;
    DecimalQuotient(a, b, f);
    var n, d := Num(a, 0, b, f), Den(0, b, f);
    ScaledQuotient(n, d, Decimal(a, b, f), u);
    UnitsIs(n, d, u);
    RoundReal(n * Down(2, u), d * Up(2, u), q);
  }

  lemma {:induction false} ScaledQuotient(n: nat, d: nat, x: real, u: int)
    requires d > 0 && n as real / d as real == x
    ensures d * Up(2, u) > 0 && (n * Down(2, u)) as real / (d * Up(2, u)) as real == Scaled(x, u)
  {
    hide Up, Down, Power;
    QuotientProduct(n, Down(2, u), d, Up(2, u));
    Inverted(u);
  }

  lemma Inverted(u: int)
    ensures Down(2, u) as real / Up(2, u) as real == Power(2, 0 - u)
  {
    assert Up(2, 0 - u) == Down(2, u) && Down(2, 0 - u) == Up(2, u);
  }

  /** A value in units of 2^u. */
  ghost function Scaled(x: real, u: int): real { x * Power(2, 0 - u) }

  /** A double in its own units. */
  lemma {:induction false} DoubleUnits(m: nat, e: int, u: int, q: nat)
    requires u >= e - 53 && m == q * Pow2(u - (e - 53))
    ensures Double(m, e) == q as real * Power(2, u)
  {
    hide Pow, Pow2, Power;
    var s := u - (e - 53);
    PowerSum(2, s, e - 53);
    PowerOfBinary(s);
    RealProduct(q, Pow2(s));
    assert m as real == q as real * Power(2, s);
    RealSwap(q as real, Power(2, s), Power(2, e - 53));
  }

  /** A value that is a number of units from the double. */
  lemma {:induction false} InUnits(x: real, v: real, u: int, q: nat)
    requires v == q as real * Power(2, u)
    ensures Gap(Scaled(x, u), q as real) == Gap(x, v) * Power(2, 0 - u)
    ensures x >= v <==> Scaled(x, u) >= q as real
  {
    hide Power;
    var c := Power(2, 0 - u);
    PowerInverse(2, u);
    assert v * c == q as real by { RealSwap(q as real, Power(2, u), c); }
    GapTimes(x, v, c);
    RealCompare(v, x, c);
  }

  /** Bounds of a binade, in units. */
  lemma {:induction false} BinadeUnits(m: nat, e: int, u: int, q: nat)
    requires HIDDEN_BIT <= m < 2 * HIDDEN_BIT && e - 53 <= u < e && m == q * Pow2(u - (e - 53))
    ensures 0 < q && q + 1 <= Pow2(e - u) && Pow2(e - 1 - u) <= q
    ensures m == HIDDEN_BIT <==> q == Pow2(e - 1 - u)
  {
    hide Pow2;
    var s := u - (e - 53);
    Pow2Is52();
    Pow2Add(s, e - u);
    Pow2Add(s, e - 1 - u);
    assert Pow2(s) * Pow2(e - u) == Pow2(e - u) * Pow2(s) && Pow2(s) * Pow2(e - 1 - u) == Pow2(e - 1 - u) * Pow2(s);
    MulCompare(q, Pow2(e - u), Pow2(s));
    MulCompare(q, Pow2(e - 1 - u), Pow2(s));
  }

  /** Comparison with a power of two, in units. */
  lemma {:induction false} PowerInUnits(x: real, u: int, k: nat)
    ensures x < Power(2, u + k) <==> Scaled(x, u) < Pow2(k) as real
  {
    hide Power, Pow2;
    var c := Power(2, 0 - u);
    PowerSum(2, u + k, 0 - u);
    PowerOfBinary(k);
    RealCompare(Power(2, u + k), x, c);
  }

  lemma WithinBounds(r: real, q: nat, upper: nat, lower: nat)
    requires NearestTo(r, q) && q + 1 <= upper && lower <= q
    ensures r < upper as real && (q != lower || r >= q as real ==> r >= lower as real)
  {
    assert (q + 1) as real == q as real + 1.0 <= upper as real;
    if q != lower {
      assert (lower + 1) as real == lower as real + 1.0 <= q as real;
    }
  }

  /** What rounds to the double in its own binade converts to it. */
  lemma {:induction false} OwnBinade(c: nat, b: nat, h: int, m: nat, e: int, q: nat)
    requires b > 0 && IsFinite(m, e) && m == q * Pow2(Unit(e) - (e - 53))
    requires NearestTo(Scaled(Decimal(c, b, h), Unit(e)), q)
    requires m == HIDDEN_BIT ==> Decimal(c, b, h) >= Double(m, e)
    ensures IsConversion(c, b, h, NearestEven, m, e)
  {
    hide Pow, Pow2, Num, Den, Decimal, Power, Units, BelowPower, NearestTo, Double, Gap, IsFinite;
    var u, y := Unit(e), Decimal(c, b, h);
    FiniteFacts(m, e);
    DoubleUnits(m, e, u, q);
    BinadeUnits(m, e, u, q);
    InUnits(y, Double(m, e), u, q);
    WithinBounds(Scaled(y, u), q, Pow2(e - u), Pow2(e - 1 - u));
    BelowReal(c, b, h, e);
    BelowReal(c, b, h, e - 1);
    PowerInUnits(y, u, e - u);
    PowerInUnits(y, u, e - 1 - u);
    UnitsReal(c, b, h, u, q);
    assert Rounded(Num(c, 0, b, h), Den(0, b, h), e, NearestEven, m, e);
  }

  lemma {:induction false} PowerOfTwo(e: int)
    ensures Double(HIDDEN_BIT, e) == Power(2, e - 1)
  {
    hide Power;
    Pow2Is52();
    PowerOf(2, 52);
    PowerSum(2, 52, e - 53);
  }

  /** A power of two in the units of the binade below. */
  lemma {:induction false} LowerUnits(e: int, u: int, q: nat)
    requires e - 54 <= u <= e - 1 && 2 * HIDDEN_BIT == q * Pow2(u - (e - 54))
    ensures q > 0 && Power(2, e - 1) == q as real * Power(2, u)
  {
    hide Power, Pow2;
    var s := u - (e - 54);
    Pow2Is52();
    PowerOfBinary(53);
    PowerOfBinary(s);
    RealProduct(q, Pow2(s));
    assert Power(2, 53) == q as real * Power(2, s);
    PowerSum(2, 53, e - 54);
    PowerSum(2, s, e - 54);
    RealSwap(q as real, Power(2, s), Power(2, e - 54));
  }

  /** Half a unit below a number of units is at least half that number. */
  lemma {:induction false} HalfOf(y: real, v: real, u: int, q: nat)
    requires v == q as real * Power(2, u) && q > 0 && NearestTo(Scaled(y, u), q)
    ensures 2.0 * y >= v
  {
    hide Power;
    InUnits(2.0 * y, v, u, q);
    assert Scaled(2.0 * y, u) == 2.0 * (Scaled(y, u));
  }

  /** What is below a power of two and rounds to it in the lower binade converts to it. */
  lemma {:induction false} LowerBinade(c: nat, b: nat, h: int, m: nat, e: int, q: nat)
    requires b > 0 && IsFinite(m, e) && m == HIDDEN_BIT && 2 * m == q * Pow2(Unit(e - 1) - (e - 54))
    requires NearestTo(Scaled(Decimal(c, b, h), Unit(e - 1)), q) && Decimal(c, b, h) < Double(m, e)
    ensures IsConversion(c, b, h, NearestEven, m, e)
  {
    hide Pow, Pow2, Num, Den, Decimal, Power, Units, BelowPower;
    var u, y := Unit(e - 1), Decimal(c, b, h);
    FiniteFacts(m, e);
    PowerOfTwo(e);
    LowerUnits(e, u, q);
    InUnits(y, Power(2, e - 1), u, q);
    BelowReal(c, b, h, e - 1);
    BelowReal(c, b, h, e - 2);
    PowerStep(2, e - 2);
    HalfOf(y, Power(2, e - 1), u, q);
    UnitsReal(c, b, h, u, q);
    assert Rounded(Num(c, 0, b, h), Den(0, b, h), e - 1, NearestEven, m, e);
  }

  /** The unit in which a conversion has been rounded. */
  lemma {:induction false} ConversionUnits(a: nat, b: nat, f: int, m: nat, e: int) returns (q: nat)
    requires b > 0 && IsFinite(m, e) && IsConversion(a, b, f, NearestEven, m, e)
    requires m != HIDDEN_BIT || Decimal(a, b, f) >= Double(m, e)
    ensures m == q * Pow2(Unit(e) - (e - 53)) && NearestTo(Scaled(Decimal(a, b, f), Unit(e)), q)
  {
    hide Pow, Pow2, Num, Den, Decimal, Power, Units, BelowPower;
    var n, d := Num(a, 0, b, f), Den(0, b, f);
    var e0: int :| Rounded(n, d, e0, NearestEven, m, e);
    q := Units(n, d, Unit(e0), NearestEven);
    FiniteFacts(m, e);
    UnitsReal(a, b, f, Unit(e0), q);
    if e0 != e {
      BelowReal(a, b, f, e - 1);
      AtLeastPower(m, e);
      RoundsUp(Decimal(a, b, f), e - 1, m, q);
      assert false;
    }
  }

  lemma {:induction false} AtLeastPower(m: nat, e: int)
    requires m >= HIDDEN_BIT
    ensures Double(m, e) >= Power(2, e - 1)
  {
    hide Power;
    PowerOfTwo(e);
    RealAtMost(HIDDEN_BIT as real, m as real, Power(2, e - 53));
  }

  /** Rounding up to the next binade leads to a power of two. */
  lemma {:induction false} RoundsUp(x: real, e0: int, m: nat, q: nat)
    requires Unit(e0) <= e0 && 53 - (e0 - Unit(e0)) >= 0 && 2 * m == q * Pow2(53 - (e0 - Unit(e0)))
    requires x < Power(2, e0) && NearestTo(Scaled(x, Unit(e0)), q)
    ensures m <= HIDDEN_BIT
  {
    hide Power, Pow2;
    var u := Unit(e0);
    PowerInUnits(x, u, e0 - u);
    assert q <= Pow2(e0 - u);
    MulAtMost(q, Pow2(e0 - u), Pow2(53 - (e0 - u)));
    Pow2Add(e0 - u, 53 - (e0 - u));
    Pow2Is52();
  }

  /** Below a power of two the unit is that of the lower binade. */
  lemma {:induction false} LowerConversion(a: nat, b: nat, f: int, m: nat, e: int) returns (q: nat)
    requires b > 0 && IsFinite(m, e) && m == HIDDEN_BIT && IsConversion(a, b, f, NearestEven, m, e)
    requires Decimal(a, b, f) < Double(m, e)
    ensures 2 * m == q * Pow2(Unit(e - 1) - (e - 54)) && NearestTo(Scaled(Decimal(a, b, f), Unit(e - 1)), q)
  {
    hide Pow, Pow2, Num, Den, Decimal, Power, Units, BelowPower;
    var n, d := Num(a, 0, b, f), Den(0, b, f);
    var e0: int :| Rounded(n, d, e0, NearestEven, m, e);
    q := Units(n, d, Unit(e0), NearestEven);
    FiniteFacts(m, e);
    UnitsReal(a, b, f, Unit(e0), q);
    PowerOfTwo(e);
    BelowReal(a, b, f, e - 1);
  }

  /** What is at least as near to q units as something that rounds to q rounds to q. */
  lemma {:induction false} NearerRounds(x: real, y: real, v: real, u: int, q: nat)
    requires v == q as real * Power(2, u) && NearestTo(Scaled(x, u), q) && Gap(y, v) <= Gap(x, v)
    ensures NearestTo(Scaled(y, u), q)
  {
    hide Power, NearestTo, Gap;
    InUnits(x, v, u, q);
    InUnits(y, v, u, q);
    NearestGap(Scaled(x, u), q);
    NearestGap(Scaled(y, u), q);
    RealCompare(Gap(y, v), Gap(x, v), Power(2, 0 - u));
    RealAtMost(Gap(y, v), Gap(x, v), Power(2, 0 - u));
  }

  /** Half a unit of the lower binade above a power of two is at most half a unit of its own binade. */
  lemma {:induction false} AboveRounds(y: real, m: nat, e: int, q: nat, q1: nat)
    requires IsFinite(m, e) && m == HIDDEN_BIT && y >= Double(m, e)
    requires 2 * m == q * Pow2(Unit(e - 1) - (e - 54)) && NearestTo(Scaled(y, Unit(e - 1)), q)
    requires m == q1 * Pow2(Unit(e) - (e - 53))
    ensures NearestTo(Scaled(y, Unit(e)), q1)
  {
    hide Pow, Pow2, Power;
    FiniteFacts(m, e);
    var u, u1, v := Unit(e - 1), Unit(e), Double(m, e);
    PowerOfTwo(e);
    LowerUnits(e, u, q);
    DoubleUnits(m, e, u1, q1);
    InUnits(y, v, u, q);
    InUnits(y, v, u1, q1);
    if u == u1 {
      RealCompare(q as real, q1 as real, Power(2, u));
    } else {
      PowerStep(2, 0 - u1);
      var g, c := Gap(y, v), Power(2, 0 - u1);
      assert Power(2, 0 - u) == 2.0 * c;
      assert g * (2.0 * c) == 2.0 * (g * c);
    }
  }

  /** A value at least as near to the double as one that converts to it does so too, except below a power of two. */
  lemma {:induction false} NearerConverts(a: nat, b: nat, f: int, c: nat, h: int, m: nat, e: int)
    requires b > 0 && IsFinite(m, e) && IsConversion(a, b, f, NearestEven, m, e)
    requires Gap(Decimal(c, b, h), Double(m, e)) <= Gap(Decimal(a, b, f), Double(m, e))
    requires m == HIDDEN_BIT && Decimal(c, b, h) < Double(m, e) ==> Decimal(a, b, f) < Double(m, e)
    ensures IsConversion(c, b, h, NearestEven, m, e)
  {
    hide Pow, Pow2, Decimal, Power, IsConversion, NearestTo, Double;
    FiniteFacts(m, e);
    var x, y, v := Decimal(a, b, f), Decimal(c, b, h), Double(m, e);
    if m != HIDDEN_BIT || x >= v {
      var q := ConversionUnits(a, b, f, m, e);
      DoubleUnits(m, e, Unit(e), q);
      NearerRounds(x, y, v, Unit(e), q);
      OwnBinade(c, b, h, m, e, q);
    } else {
      var q := LowerConversion(a, b, f, m, e);
      PowerOfTwo(e);
      LowerUnits(e, Unit(e - 1), q);
      NearerRounds(x, y, v, Unit(e - 1), q);
      if y < v {
        LowerBinade(c, b, h, m, e, q);
      } else {
        var q1 := UnitsOf(m, e, Unit(e));
        AboveRounds(y, m, e, q, q1);
        OwnBinade(c, b, h, m, e, q1);
      }
    }
  }

  // ---- the nearest value with p digits ----

  /** A value in units of b^-g. */
  ghost function Times(x: real, b: nat, g: int): real
    requires b > 0
  {
    x * Power(b, g)
  }

  lemma TimesStep(x: real, b: nat, g: int)
    requires b > 0
    ensures Times(x, b, g + 1) == b as real * Times(x, b, g)
  {
    hide Power;
    PowerStep(b, g);
    RealSwap(b as real, x, Power(b, g));
  }

  lemma TimesDecimal(a: nat, b: nat, f: int, g: int)
    requires b > 0
    ensures Times(Decimal(a, b, f), b, g) == Decimal(a, b, f + g)
  {
    hide Power;
    PowerSum(b, f, g);
    RealSwap(a as real, Power(b, f), Power(b, g));
  }

  lemma DecimalInteger(a: nat, b: nat, k: nat)
    requires b > 0
    ensures Decimal(a, b, k) == (a * Pow(b, k)) as real
  {
    hide Power, Pow;
    PowerOf(b, k);
    RealProduct(a, Pow(b, k));
  }

  lemma {:induction false} TimesLess(x: real, y: real, b: nat, g: int)
    requires b > 0
    ensures Times(x, b, g) < Times(y, b, g) <==> x < y
  {
    hide Power;
    RealCompare(y, x, Power(b, g));
  }

  lemma {:induction false} TimesNearer(x: real, y: real, v: real, b: nat, g: int)
    requires b > 0 && Gap(Times(x, b, g), Times(v, b, g)) <= Gap(Times(y, b, g), Times(v, b, g))
    ensures Gap(x, v) <= Gap(y, v)
  {
    hide Power, Gap, Times;
    TimesGap(x, v, b, g);
    TimesGap(y, v, b, g);
    RealCompare(Gap(x, v), Gap(y, v), Power(b, g));
  }

  lemma TimesGap(x: real, v: real, b: nat, g: int)
    requires b > 0
    ensures Gap(Times(x, b, g), Times(v, b, g)) == Gap(x, v) * Power(b, g)
  {
    hide Power;
    GapTimes(x, v, Power(b, g));
  }

  lemma {:induction false} ScaleReal(m: nat, e: int, b: nat, g: int, k: nat)
    requires b > 0
    ensures AtScale(m, e, b, g) == k <==> NearestTo(Times(Double(m, e), b, g), k)
  {
    hide Pow, Pow2, Num, Den, RoundDiv, NearestTo, Up, Down, Power;
    NumQuotient(m, e - 53, b, g);
    RoundReal(Num(m, e - 53, b, g), Den(e - 53, b, g), k);
  }

  /** A double rounded to p digits, as a condition on r = v b^(p - E). */
  lemma {:induction false} RoundedReal(m: nat, e: int, b: nat, p: nat, mant: nat, E: int)
    requires b >= 2 && p > 0 && RoundedTo(m, e, b, p, mant, E)
    ensures var r := Times(Double(m, e), b, p - E);
            NearestTo(r, mant) && 2.0 * (b as real * r) >= 2.0 * (b as real * Pow(b, p - 1) as real) - 1.0
  {
    hide Pow, AtScale, Double, NearestTo, Times;
    ScaleReal(m, e, b, p - E, mant);
    var k := AtScale(m, e, b, p - E + 1);
    ScaleReal(m, e, b, p - E + 1, k);
    TimesStep(Double(m, e), b, p - E);
    PowHead(b, p);
    RealProduct(b, Pow(b, p - 1));
    AtLeastHalf(Times(Double(m, e), b, p - E + 1), k, Pow(b, p));
  }

  lemma AtLeastHalf(r: real, k: nat, n: nat)
    requires NearestTo(r, k) && k >= n
    ensures 2.0 * r >= 2.0 * n as real - 1.0
  {
    assert k as real >= n as real;
  }

  /** Below the first digit of the rounded double: a value with p digits there is further away than b^(p - 1). */
  lemma {:induction false} FinerIsFar(r: real, b: nat, w: real, x: real)
    requires b >= 2 && 2.0 * (b as real * r) >= 2.0 * (b as real * w) - 1.0 && b as real * x <= b as real * w - 1.0
    ensures x < r && Gap(r, w) <= Gap(r, x)
  {
    var y := b as real;
    TimesOrder(y, x, w);
    TimesOrder(y, r, w);
    TimesOrder(y, x, r);
    TimesOrder(y, 2.0 * w, r + x);
    assert y * (r + x) == y * r + y * x && y * (2.0 * w) == 2.0 * (y * w);
  }

  lemma TimesOrder(y: real, s: real, t: real)
    requires y > 0.0
    ensures (y * s < y * t <==> s < t) && (y * s <= y * t <==> s <= t)
  {
    RealCompare(s, t, y);
    RealCompare(t, s, y);
    assert s * y == y * s && t * y == y * t;
  }

  /** A value a b^k with a below b^p and k negative. */
  lemma {:induction false} FewDigits(a: nat, b: nat, k: int, p: nat)
    requires b >= 2 && p > 0 && a < Pow(b, p) && k < 0
    ensures b as real * Decimal(a, b, k) <= b as real * Pow(b, p - 1) as real - 1.0
  {
    hide Pow, Power, Decimal;
    TimesDecimal(a, b, k, 1);
    TimesStep(Decimal(a, b, k), b, 0);
    TimesZero(Decimal(a, b, k), b);
    AtMostItself(a, b, k + 1);
    PowHead(b, p);
    RealProduct(b, Pow(b, p - 1));
    assert a as real <= (Pow(b, p) - 1) as real == Pow(b, p) as real - 1.0;
  }

  lemma TimesZero(x: real, b: nat)
    requires b > 0
    ensures Times(x, b, 0) == x
  {
    PowerZero(b);
  }

  lemma {:induction false} AtMostItself(a: nat, b: nat, k: int)
    requires b > 0 && k <= 0
    ensures Decimal(a, b, k) <= a as real
  {
    hide Power;
    PowerMono(b, k, 0);
    PowerZero(b);
    RealAtMost(Power(b, k), 1.0, a as real);
    assert Power(b, k) * a as real == a as real * Power(b, k);
  }

  /** The double rounded to p digits is nearest to it among all values with p digits. */
  lemma {:induction false} RoundedNearest(m: nat, e: int, b: nat, p: nat, mant: nat, E: int, a: nat, f: int)
    requires b >= 2 && p > 0 && RoundedTo(m, e, b, p, mant, E) && a < Pow(b, p)
    ensures var v := Double(m, e); Gap(Decimal(mant, b, E - p), v) <= Gap(Decimal(a, b, f), v)
  {
    hide Pow, Power, Double, NearestTo, Decimal, Gap, RoundedTo, Times;
    var g, v := p - E, Double(m, e);
    var r, x, w := Times(v, b, g), Decimal(a, b, f + g), Pow(b, p - 1);
    RoundedReal(m, e, b, p, mant, E);
    TimesDecimal(mant, b, E - p, g);
    TimesDecimal(a, b, f, g);
    DecimalWhole(mant, b);
    if f + g >= 0 {
      DecimalInteger(a, b, f + g);
      NearestBest(r, mant, a * Pow(b, f + g));
    } else {
      FewDigits(a, b, f + g, p);
      FinerIsFar(r, b, w as real, x);
      NearestBest(r, mant, w);
    }
    GapTwice(mant as real, r);
    GapTwice(x, r);
    TimesNearer(Decimal(mant, b, E - p), Decimal(a, b, f), v, b, g);
  }

  /** If a value with p digits is above the double and the rounded double below, then it is at least the next one. */
  lemma {:induction false} NextAbove(m: nat, e: int, b: nat, p: nat, mant: nat, E: int, a: nat, f: int)
    requires b >= 2 && p > 0 && RoundedTo(m, e, b, p, mant, E) && a < Pow(b, p)
    requires Decimal(mant, b, E - p) < Double(m, e) < Decimal(a, b, f)
    ensures Double(m, e) < Decimal(mant + 1, b, E - p) <= Decimal(a, b, f)
  {
    hide Pow, Power, Double, NearestTo, Decimal, Gap, RoundedTo, Times;
    var g, v := p - E, Double(m, e);
    var r, x, w := Times(v, b, g), Decimal(a, b, f + g), Pow(b, p - 1);
    RoundedReal(m, e, b, p, mant, E);
    TimesDecimal(mant, b, E - p, g);
    TimesDecimal(mant + 1, b, E - p, g);
    TimesDecimal(a, b, f, g);
    DecimalWhole(mant, b);
    DecimalWhole(mant + 1, b);
    TimesLess(Decimal(mant, b, E - p), v, b, g);
    TimesLess(v, Decimal(a, b, f), b, g);
    TimesLess(v, Decimal(mant + 1, b, E - p), b, g);
    TimesLess(Decimal(a, b, f), Decimal(mant + 1, b, E - p), b, g);
    if f + g >= 0 {
      DecimalInteger(a, b, f + g);
      IntegerAbove(r, mant, a * Pow(b, f + g));
    } else {
      FewDigits(a, b, f + g, p);
      FinerIsFar(r, b, w as real, x);
    }
  }

  lemma DecimalWhole(mant: nat, b: nat)
    requires b > 0
    ensures Decimal(mant, b, 0) == mant as real
  {
    PowerZero(b);
  }

  lemma GapTwice(x: real, y: real)
    ensures Gap(x, y) == Gap(y, x)
  {
  }

  lemma IntegerAbove(r: real, q: nat, k: nat)
    requires NearestTo(r, q)
    ensures q as real < r < k as real ==> r < (q + 1) as real <= k as real
  {
    if q as real < r < k as real {
      assert k > q;
    }
  }

  // ---- fewer digits ----

  /** Some value with at most p digits converts to the double. */
  ghost predicate Shorter(m: nat, e: int, b: nat, p: nat)
    requires b > 0
  {
    exists a: nat, f: int :: a < Pow(b, p) && IsConversion(a, b, f, NearestEven, m, e)
  }

  /** The double is a power of two, and the value with p digits next above it converts to it. */
  ghost predicate NextConverts(m: nat, e: int, b: nat, p: nat)
    requires b > 0
  {
    && m == HIDDEN_BIT
    && exists mant: nat, E: int :: RoundedTo(m, e, b, p, mant, E) && IsConversion(mant + 1, b, E - p, NearestEven, m, e)
  }

  /** If the double rounded to p digits does not convert back, then another value with p digits does so if and only if
      the double is a power of two and the next value above it does. */
  lemma {:induction false} ShorterIs(m: nat, e: int, b: nat, p: nat, mant: nat, E: int)
    requires b >= 2 && p > 0 && IsFinite(m, e) && RoundedTo(m, e, b, p, mant, E) && TooFew(m, e, b, p)
    ensures Shorter(m, e, b, p) <==> NextConverts(m, e, b, p)
  {
    hide Pow, RoundedTo, IsConversion, IsFinite;
    if Shorter(m, e, b, p) {
      var a: nat, f: int :| a < Pow(b, p) && IsConversion(a, b, f, NearestEven, m, e);
      OnlyNext(m, e, b, p, mant, E, a, f);
    }
    if NextConverts(m, e, b, p) {
      var mant1: nat, E1: int :| RoundedTo(m, e, b, p, mant1, E1)
        && IsConversion(mant1 + 1, b, E1 - p, NearestEven, m, e);
      RoundedBelow(m, e, b, p, mant1, E1);
      if mant1 + 1 == Pow(b, p) {
        OneAndZeros(b, p, E1 - p, m, e);
        OneIsShort(b, p);
      }
    }
  }

  lemma OneIsShort(b: nat, p: nat)
    requires b >= 2 && p > 0
    ensures 1 < Pow(b, p)
  {
    PowMono(b, 1, p);
    assert Pow(b, 1) == b * Pow(b, 0) == b;
  }

  lemma RoundedBelow(m: nat, e: int, b: nat, p: nat, mant: nat, E: int)
    requires b > 0 && RoundedTo(m, e, b, p, mant, E)
    ensures mant < Pow(b, p)
  {
  }

  lemma {:induction false} OneAndZeros(b: nat, p: nat, f: int, m: nat, e: int)
    requires b > 0 && IsConversion(Pow(b, p), b, f, NearestEven, m, e)
    ensures IsConversion(1, b, f + p, NearestEven, m, e)
    decreases p
  {
    hide IsConversion;
    if p > 0 {
      assert Pow(b, p) == Pow(b, p - 1) * b;
      DropDigit(Pow(b, p - 1), b, f, m, e);
      OneAndZeros(b, p - 1, f + 1, m, e);
    }
  }

  lemma {:induction false} OnlyNext(m: nat, e: int, b: nat, p: nat, mant: nat, E: int, a: nat, f: int)
    requires b >= 2 && p > 0 && IsFinite(m, e) && RoundedTo(m, e, b, p, mant, E) && TooFew(m, e, b, p)
    requires a < Pow(b, p) && IsConversion(a, b, f, NearestEven, m, e)
    ensures m == HIDDEN_BIT && IsConversion(mant + 1, b, E - p, NearestEven, m, e)
  {
    hide Pow, RoundedTo, IsConversion, IsFinite, Decimal, Double;
    assert !IsConversion(mant, b, E - p, NearestEven, m, e);
    RoundedNearest(m, e, b, p, mant, E, a, f);
    var x, y, v := Decimal(a, b, f), Decimal(mant, b, E - p), Double(m, e);
    if m != HIDDEN_BIT || y >= v || x < v {
      NearerConverts(a, b, f, mant, E - p, m, e);
      assert false;
    }
    NextAbove(m, e, b, p, mant, E, a, f);
    NearerConverts(a, b, f, mant + 1, E - p, m, e);
  }

  /** There is a double rounded to p digits. */
  lemma {:induction false} RoundedExists(m: nat, e: int, b: nat, lead: int, p: nat) returns (mant: nat, E: int)
    requires b > 2 && p > 0 && IsFinite(m, e) && Brackets(b, lead, e)
    ensures RoundedTo(m, e, b, p, mant, E)
  {
    hide Pow, Num, Den, RoundDiv, Brackets, IsFinite;
    FiniteFacts(m, e);
    EnoughDigits(m, e, b, lead, p);
    mant, E := AtScale(m, e, b, p - lead), lead;
    if mant >= Pow(b, p) {
      MantissaRange(m, e, b, lead, p);
      RoundIsNearest(Num(m, e - 53, b, p - lead), Den(e - 53, b, p - lead), NearestEven, mant);
      RangeAfterCarry(m, e - 53, b, p - lead, p, mant);
      E := lead + 1;
      mant := AtScale(m, e, b, p - E);
    }
  }

  /** Fewer digits than those printed denote the double, too, if and only if it is a power of two and the value with one
      digit less next above it converts to it. */
  lemma {:induction false} PrintsShortest(lit: Literal, bits: nat)
    requires 0 < bits < INFINITY_BITS && Shortened(lit, bits) && |Digits(lit)| > 1
    ensures var (m, e) := Unpack(bits);
            Shorter(m, e, 10, |Digits(lit)| - 1) <==> NextConverts(m, e, 10, |Digits(lit)| - 1)
  {
    hide Shorter, NextConverts, RoundedTo, Unpack, Digits, IsFinite, Brackets, TooFew;
    PackUnpack(bits);
    var (m, e) := Unpack(bits);
    FiniteFacts(m, e);
    EstimateBrackets(e);
    var p := |Digits(lit)| - 1;
    var mant, E := RoundedExists(m, e, 10, 1 + MulLog2Radix10(e - 1), p);
    ShorterIs(m, e, 10, p, mant, E);
  }

  // ---- for instance 2^-24 ----

  /** The bits of 2^-24 = 5.9604644775390625e-8. */
  const EXAMPLE: nat := 0x3E70_0000_0000_0000

  lemma ExampleUnpacked()
    ensures Unpack(EXAMPLE) == (HIDDEN_BIT, -23) && 0 < EXAMPLE < INFINITY_BITS
  {
  }

  lemma {:induction false} ExamplePowers()
    ensures Pow(10, 16) == 10_000_000_000_000_000 && Pow(10, 23) == 100_000_000_000_000_000_000_000
    ensures Pow2(24) == 0x100_0000 && Pow2(76) == 0x1000_0000_0000_0000_0000
  {
    assert Pow(10, 4) == 10_000 && Pow(10, 3) == 1000;
    PowAdd(10, 4, 4);
    PowAdd(10, 8, 8);
    PowAdd(10, 16, 4);
    PowAdd(10, 20, 3);
    assert Pow2(4) == 16;
    Pow2Add(4, 4);
    Pow2Add(8, 8);
    Pow2Add(8, 16);
    Pow2Is52();
    Pow2Add(52, 24);
  }

  /** 2^-24 10^23 = 5^23 / 2. */
  lemma {:induction false} ExampleScaled()
    ensures Times(Double(HIDDEN_BIT, -23), 10, 23) == 5960464477539062.5
    ensures Times(Double(HIDDEN_BIT, -23), 10, 24) == 59604644775390625.0
    ensures Power(10, 23) == 100_000_000_000_000_000_000_000.0 && Power(2, 76) == 75557863725914323419136.0
  {
    hide Pow, Pow2, Power;
    ExamplePowers();
    PowerOfTwo(-23);
    PowerOf(10, 23);
    PowerOfBinary(76);
    PowerOfBinary(24);
    PowerInverse(2, 24);
    TimesStep(Double(HIDDEN_BIT, -23), 10, 23);
    SolveExample(Power(2, -24));
  }

  lemma SolveExample(x: real)
    requires 16777216.0 * x == 1.0
    ensures x * 100_000_000_000_000_000_000_000.0 == 5960464477539062.5
  {
  }

  /** A conversion to 2^-24 is at most half a unit away. */
  lemma {:induction false} ExampleNear(a: nat, f: int)
    requires IsConversion(a, 10, f, NearestEven, HIDDEN_BIT, -23)
    ensures Gap(Decimal(a, 10, f), Double(HIDDEN_BIT, -23)) * (2.0 * Power(2, 76)) <= 1.0
    ensures Decimal(a, 10, f) < Double(HIDDEN_BIT, -23) ==>
        Gap(Decimal(a, 10, f), Double(HIDDEN_BIT, -23)) * (4.0 * Power(2, 76)) <= 1.0
  {
    hide Pow, Pow2, Power, Decimal, NearestTo, IsConversion, Double;
    var x, v, m, e := Decimal(a, 10, f), Double(HIDDEN_BIT, -23), HIDDEN_BIT, -23;
    ExampleFinite();
    PowerStep(2, 76);
    if x >= v {
      var q := ConversionUnits(a, 10, f, m, e);
      DoubleUnits(m, e, -76, q);
      InUnits(x, v, -76, q);
      NearestGap(Scaled(x, -76), q);
      assert Gap(x, v) * (2.0 * Power(2, 76)) == 2.0 * (Gap(x, v) * Power(2, 76));
    } else {
      var q := LowerConversion(a, 10, f, m, e);
      PowerOfTwo(-23);
      LowerUnits(-23, -77, q);
      InUnits(x, v, -77, q);
      NearestGap(Scaled(x, -77), q);
      assert Gap(x, v) * (4.0 * Power(2, 76)) == 2.0 * (Gap(x, v) * (2.0 * Power(2, 76)));
    }
  }

  lemma ExampleFinite()
    ensures IsFinite(HIDDEN_BIT, -23)
  {
  }

  /** The distance from 2^-24 in units of 10^-23. */
  lemma {:induction false} ExampleGap(a: nat, f: int)
    ensures Gap(Decimal(a, 10, f + 23), 5960464477539062.5)
        == Gap(Decimal(a, 10, f), Double(HIDDEN_BIT, -23)) * 100_000_000_000_000_000_000_000.0
    ensures Decimal(a, 10, f) < Double(HIDDEN_BIT, -23) <==> Decimal(a, 10, f + 23) < 5960464477539062.5
  {
    hide Power, Decimal, Double, Times, Gap;
    ExampleScaled();
    TimesDecimal(a, 10, f, 23);
    TimesGap(Decimal(a, 10, f), Double(HIDDEN_BIT, -23), 10, 23);
    TimesLess(Decimal(a, 10, f), Double(HIDDEN_BIT, -23), 10, 23);
  }

  lemma {:induction false} ExampleRounded()
    ensures RoundedTo(HIDDEN_BIT, -23, 10, 16, 5960464477539062, -7)
    ensures AtScale(HIDDEN_BIT, -23, 10, 24) >= Pow(10, 16)
  {
    hide Pow, Power, Double, Times, AtScale;
    ExampleScaled();
    ExamplePowers();
    ScaleReal(HIDDEN_BIT, -23, 10, 23, 5960464477539062);
    ScaleReal(HIDDEN_BIT, -23, 10, 24, 59604644775390625);
  }

  /** With 16 digits, the double rounded is half of 10^-23 below, too far; but the next value is as far above, where the
      unit is twice as large. */
  lemma {:induction false} ExampleConverts()
    ensures !IsConversion(5960464477539062, 10, -23, NearestEven, HIDDEN_BIT, -23)
    ensures IsConversion(5960464477539063, 10, -23, NearestEven, HIDDEN_BIT, -23)
  {
    hide Pow, Pow2, Power, Decimal, IsConversion, Double, NearestTo;
    ExampleScaled();
    var x, y, v := Decimal(5960464477539062, 10, -23), Decimal(5960464477539063, 10, -23), Double(HIDDEN_BIT, -23);
    ExampleGap(5960464477539062, -23);
    ExampleGap(5960464477539063, -23);
    DecimalWhole(5960464477539062, 10);
    DecimalWhole(5960464477539063, 10);
    if IsConversion(5960464477539062, 10, -23, NearestEven, HIDDEN_BIT, -23) {
      ExampleNear(5960464477539062, -23);
      assert false;
    }
    ExampleFinite();
    NoPower();
    DoubleUnits(HIDDEN_BIT, -23, -76, HIDDEN_BIT);
    InUnits(y, v, -76, HIDDEN_BIT);
    NearestGap(Scaled(y, -76), HIDDEN_BIT);
    OwnBinade(5960464477539063, 10, -23, HIDDEN_BIT, -23, HIDDEN_BIT);
  }

  /** 16 digits are enough for 2^-24, but the search does not find them. */
  lemma {:induction false} ExampleShorter()
    ensures var (m, e) := Unpack(EXAMPLE); TooFew(m, e, 10, 16) && NextConverts(m, e, 10, 16) && Shorter(m, e, 10, 16)
  {
    hide RoundedTo, IsConversion, Unpack, TooFew, IsFinite, Shorter;
    ExampleUnpacked();
    ExampleRounded();
    ExampleConverts();
    TooFewIs(HIDDEN_BIT, -23, 10, 16, 5960464477539062, -7);
    ExampleFinite();
    ShorterIs(HIDDEN_BIT, -23, 10, 16, 5960464477539062, -7);
  }

  lemma {:induction false} ExampleOrder(k: nat)
    requires 0 < k <= 16
    ensures AtScale(HIDDEN_BIT, -23, 10, k + 8) >= Pow(10, k)
    decreases 16 - k
  {
    hide AtScale, Pow;
    ExampleRounded();
    if k < 16 {
      ExampleOrder(k + 1);
      PowHead(10, k + 1);
      CoarserScale(HIDDEN_BIT, -23, 10, k + 8, Pow(10, k));
    }
  }

  /** Fewer than 16 digits are too coarse. */
  lemma {:induction false} ExampleCoarse(mant: nat, f: int)
    requires f >= -22
    ensures !IsConversion(mant, 10, f, NearestEven, HIDDEN_BIT, -23)
  {
    hide Pow, Pow2, Power, Decimal, IsConversion, Double, Gap;
    if IsConversion(mant, 10, f, NearestEven, HIDDEN_BIT, -23) {
      ExampleScaled();
      ExampleNear(mant, f);
      ExampleGap(mant, f);
      DecimalInteger(mant, 10, f + 23);
      PowHead(10, f + 23);
      TenTimes(mant, Pow(10, f + 22));
      NoMultiple(mant * Pow(10, f + 22), Gap(Decimal(mant, 10, f), Double(HIDDEN_BIT, -23)));
    }
  }

  lemma NoMultiple(z: nat, gap: real)
    ensures Gap((10 * z) as real, 5960464477539062.5) != gap * 100_000_000_000_000_000_000_000.0
        || gap * (2.0 * 75557863725914323419136.0) > 1.0
  {
    if z <= 596046447753906 {
      assert (10 * z) as real <= 5960464477539060.0;
    } else {
      assert (10 * z) as real >= 5960464477539070.0;
    }
  }

  /** So 17 digits are printed. */
  lemma {:induction false} ExamplePrinted(lit: Literal)
    requires Shortened(lit, EXAMPLE)
    ensures |Digits(lit)| > 16
  {
    hide RoundedTo, IsConversion, Unpack, TooFew, Digits, Number10, Order;
    ExampleUnpacked();
    var k, mant, E := |Digits(lit)|, Number10(Digits(lit)), Order(lit);
    if k <= 16 {
      ExampleOrder(k);
      NotBelow(HIDDEN_BIT, -23, k, mant, E);
      if k == 16 {
        ExampleRounded();
        ExampleConverts();
        RoundedToUnique(HIDDEN_BIT, -23, 10, 16, mant, E, 5960464477539062, -7);
      } else {
        ExampleCoarse(mant, E - k);
      }
    }
  }

  lemma {:induction false} NotBelow(m: nat, e: int, k: nat, mant: nat, E: int)
    requires RoundedTo(m, e, 10, k, mant, E) && AtScale(m, e, 10, k + 8) >= Pow(10, k)
    ensures E >= -7
  {
    hide AtScale, Pow;
    if E < -7 {
      ScaleMono(m, e, 10, k + 8, k - E);
    }
  }
}
