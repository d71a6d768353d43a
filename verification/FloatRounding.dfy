/** `round_to_d`, `mul_pow_round_to_d` and the end of `js_atod`: a number times a power of the radix,
    rounded to binary64 and packed into 64 bits. */
module FloatRounding {
  import opened Rounding
  import opened Reciprocal
  import opened Limbs
  import opened Bignum
  import opened RadixPower
  import opened IntegerRounding
  import opened Doubles

  /** Precision of a result below 2^e0: 53 bits, fewer for subnormal numbers. */
  function Precision(e0: int): int { e0 - Unit(e0) }

  /** The number m 2^(e - 53) is a 2^-eOffset rounded; 2^log <= a < 2^(log + 1). */
  ghost predicate Converted(a: nat, log: nat, eOffset: int, mode: Mode, m: nat, e: int) {
    var e0 := log + 1 - eOffset;
    var p := Precision(e0);
    var q := Shifted(a, log + 1 - p, mode);
    if q == 0 then m == 0
    else
      && HIDDEN_BIT <= m < 2 * HIDDEN_BIT && p <= 53
      && ((e == e0 && m == q * Pow2(53 - p)) || (e == e0 + 1 && 2 * m == q * Pow2(53 - p)))
  }

  // ---- size of the rounded mantissa ----

  lemma {:induction false} RoundUpperBound(a: nat, s: nat, mode: Mode, b: nat)
    requires a < b * Pow2(s)
    ensures RoundDiv(a, Pow2(s), mode) <= b
  {
    var q, r := Rounding.Divide(a, Pow2(s));
    DivIs(a, Pow2(s), q, r);
    if q >= b {
      MulAtMost(b, q, Pow2(s));
    }
  }

  lemma {:induction false} RoundLowerBound(a: nat, s: nat, mode: Mode, b: nat)
    requires b * Pow2(s) <= a
    ensures RoundDiv(a, Pow2(s), mode) >= b
  {
    var q, r := Rounding.Divide(a, Pow2(s));
    DivIs(a, Pow2(s), q, r);
    assert (q + 1) * Pow2(s) == q * Pow2(s) + Pow2(s);
    if q < b {
      MulAtMost(q + 1, b, Pow2(s));
    }
  }

  /** Less than one half of a unit rounds to zero. */
  lemma RoundToZero(a: nat, s: nat, mode: Mode)
    requires 2 * a < Pow2(s)
    ensures RoundDiv(a, Pow2(s), mode) == 0
  {
    DivIs(a, Pow2(s), 0, a);
  }

  /** The rounded mantissa has p bits, or is 2^p. */
  lemma {:induction false} MantissaBounds(a: nat, log: nat, p: int, mode: Mode)
    requires IsLog2(a, log)
    ensures var q := Shifted(a, log + 1 - p, mode);
            && (p >= 0 ==> q <= Pow2(p))
            && (p >= 1 ==> q >= Pow2(p - 1))
            && (p < 0 ==> q == 0)
  {
    hide Pow, Pow2, RoundDiv;
    var s := log + 1 - p;
    LogBounds(a, log);
    if p < 0 {
      Doubling(log + 1);
      Pow2Mono(log + 2, s);
      RoundToZero(a, s, mode);
    } else if s >= 0 {
      Pow2Add(p, s);
      RoundUpperBound(a, s, mode, Pow2(p));
      if p >= 1 {
        Pow2Add(p - 1, s);
        RoundLowerBound(a, s, mode, Pow2(p - 1));
      }
    } else {
      Pow2Add(log, -s);
      Pow2Add(log + 1, -s);
      MulAtMost(Pow2(log), a, Pow2(-s));
      MulAtMost(a, Pow2(log + 1), Pow2(-s));
    }
  }

  /** The mantissa scaled to 53 bits lies between 2^52 and 2^53. */
  lemma {:induction false} ScaledMantissa(q: nat, p: int)
    requires p <= 53 && q > 0 && p >= 0 && q <= Pow2(p) && (p >= 1 ==> q >= Pow2(p - 1))
    ensures HIDDEN_BIT <= q * Pow2(53 - p) <= 2 * HIDDEN_BIT
  {
    hide Pow, Pow2;
    Pow2Is52();
    Pow2Add(p, 53 - p);
    MulAtMost(q, Pow2(p), Pow2(53 - p));
    if p >= 1 {
      Pow2Add(p - 1, 53 - p);
      MulAtMost(Pow2(p - 1), q, Pow2(53 - p));
    } else {
      NoPower();
      MulAtMost(1, q, Pow2(53));
    }
  }

  /** `mpb_get_u64`. */
  method ToU64(x: Number) returns (m: nat)
    requires x.tab != [] && IsNormal(x.tab) && Value(x.tab) < WIDE
    ensures m == Value(x.tab)
  {
    SmallNumber(x.tab);
    if |x.tab| == 1 {
      m := x.tab[0];
    } else {
      m := x.tab[0] + BASE * x.tab[1];
    }
  }

  lemma {:induction false} SmallNumber(s: seq<Limb>)
    requires s != [] && IsNormal(s) && Value(s) < WIDE
    ensures |s| <= 2 && Value(s) == if |s| == 1 then s[0] else s[0] + BASE * s[1]
  {
    hide Value, Weight, Pow2;
    if |s| == 1 {
      assert s == [s[0]];
      ValueOne(s[0]);
    } else {
      ValueTop(s);
      assert |s| <= 2 by {
        if |s| >= 3 {
          WeightIsPow2(|s| - 1);
          Pow2Mono(64, 32 * (|s| - 1));
          Pow2Add(32, 32);
          Pow2Is32();
        }
      }
      assert s == [s[0], s[1]];
      TwoLimbs(s[0], s[1]);
    }
  }

  /** `round_to_d`. */
  method RoundToD(x: Number, eOffset: int, mode: Mode) returns (m: nat, e: int)
    requires x.tab != [] && IsNormal(x.tab) && |x.tab| <= x.peak
    modifies x
    ensures x.peak <= old(x.peak) || x.peak <= |old(x.tab)| + 2
    ensures Value(old(x.tab)) == 0 ==> m == 0
    ensures Value(old(x.tab)) != 0 ==>
        exists log: nat :: IsLog2(Value(old(x.tab)), log) && Converted(Value(old(x.tab)), log, eOffset, mode, m, e)
  {
    hide *;
    ghost var a := Value(x.tab);
    var log := FloorLog2(x);
    if log < 0 {
      return 0, 0;
    }
    e := log + 1 - eOffset;
    var prec := Precision(e);
    PrecisionIs(e);
    MantissaBounds(a, log, prec, mode);
    ShrRound(x, e + eOffset - prec, mode);
    ghost var q := Value(x.tab);
    ShiftedNormal(a, log, prec, mode);
    m := ToU64(x);
    if q > 0 {
      ScaledMantissa(q, prec);
    }
    m := Shifted64(m, 53 - prec);
    Shifted64Is(q, 53 - prec);
    if m >= 2 * HIDDEN_BIT {
      m := m / 2;
      e := e + 1;
    }
    ConvertedIs(a, log, eOffset, mode, q, m, e);
  }

  /** `m <<= k` on 64 bits. */
  function Shifted64(m: nat, k: int): nat { if k < 0 then m else m * Pow2(k) % WIDE }

  lemma Shifted64Is(q: nat, k: int)
    requires k >= 0 && (q > 0 ==> q * Pow2(k) <= 2 * HIDDEN_BIT)
    ensures Shifted64(q, k) == q * Pow2(k)
  {
  }

  lemma PrecisionIs(e: int)
    ensures Precision(e) == if e < -1021 then 53 - (-1021 - e) else 53
    ensures Precision(e) <= 53
  {
  }

  lemma ShiftedNormal(a: nat, log: nat, p: int, mode: Mode)
    requires IsLog2(a, log) && p <= 53
    ensures a != 0 && Shifted(a, log + 1 - p, mode) < WIDE
  {
    hide Pow, RoundDiv;
    MantissaBounds(a, log, p, mode);
    LogBounds(a, log);
    Pow2Is52();
    if p >= 0 {
      Pow2Mono(p, 53);
    }
  }

  lemma ConvertedIs(a: nat, log: nat, eOffset: int, mode: Mode, q: nat, m: nat, e: int)
    requires var e0 := log + 1 - eOffset;
             var p := Precision(e0);
             && q == Shifted(a, log + 1 - p, mode) && p <= 53
             && (q > 0 ==> HIDDEN_BIT <= q * Pow2(53 - p) <= 2 * HIDDEN_BIT)
             && m == (if q * Pow2(53 - p) >= 2 * HIDDEN_BIT then q * Pow2(53 - p) / 2 else q * Pow2(53 - p))
             && e == (if q * Pow2(53 - p) >= 2 * HIDDEN_BIT then e0 + 1 else e0)
    ensures Converted(a, log, eOffset, mode, m, e)
  {
  }

  // ---- what the conversion rounds ----

  /** Rounded depends on the quotient only. */
  lemma {:induction false} RoundedRatio(n1: nat, d1: nat, n2: nat, d2: nat, e0: int, mode: Mode, m: nat, e: int)
    requires d1 > 0 && d2 > 0 && n1 * d2 == n2 * d1 && Rounded(n1, d1, e0, mode, m, e)
    ensures Rounded(n2, d2, e0, mode, m, e)
  {
    hide Pow, Pow2, RoundDiv, BelowPower;
    BelowRatio(n1, d1, n2, d2, e0);
    BelowRatio(n1, d1, n2, d2, e0 - 1);
    UnitsRatio(n1, d1, n2, d2, Unit(e0), mode);
  }

  lemma {:induction false} BelowRatio(n1: nat, d1: nat, n2: nat, d2: nat, k: int)
    requires d1 > 0 && d2 > 0 && n1 * d2 == n2 * d1
    ensures BelowPower(n1, d1, k) <==> BelowPower(n2, d2, k)
  {
    hide Up, Down;
    var a, b := Down(2, k), Up(2, k);
    CrossCompare(n1, d1, n2, d2, a, b);
  }

  lemma {:induction false} CrossCompare(n1: nat, d1: nat, n2: nat, d2: nat, a: nat, b: nat)
    requires d1 > 0 && d2 > 0 && n1 * d2 == n2 * d1
    ensures n1 * a < d1 * b <==> n2 * a < d2 * b
  {
    MulCompare(n1 * a, d1 * b, d2);
    MulCompare(n2 * a, d2 * b, d1);
    assert (n1 * a) * d2 == (n1 * d2) * a && (n2 * a) * d1 == (n2 * d1) * a;
    assert (d1 * b) * d2 == (d1 * d2) * b && (d2 * b) * d1 == (d1 * d2) * b;
  }

  lemma {:induction false} UnitsRatio(n1: nat, d1: nat, n2: nat, d2: nat, u: int, mode: Mode)
    requires d1 > 0 && d2 > 0 && n1 * d2 == n2 * d1
    ensures Units(n1, d1, u, mode) == Units(n2, d2, u, mode)
  {
    hide Up, Down, RoundDiv;
    var a, b := Down(2, u), Up(2, u);
    MulLess(0, d1, b);
    MulLess(0, d2, b);
    MulRegroup(n1, a, d2, b);
    MulRegroup(n2, a, d1, b);
    RoundRatio(n1 * a, d1 * b, n2 * a, d2 * b, mode);
  }

  /** An exact number a 2^-s. */
  lemma {:induction false} ConvertedExact(a: nat, log: nat, s: int, mode: Mode, m: nat, e: int)
    requires IsLog2(a, log) && Converted(a, log, s, mode, m, e)
    ensures Rounded(a * Down(2, s), Up(2, s), log + 1 - s, mode, m, e)
  {
    hide Pow, Pow2, RoundDiv, Shifted, Units, IsExponent;
    ExponentOfShift(a, log, s);
    var e0 := log + 1 - s;
    var u := Unit(e0);
    assert log + 1 - Precision(e0) == u + s;
    UnitsOfShift(a, s, u, mode);
  }

  lemma {:induction false} UnitsOfShift(a: nat, s: int, u: int, mode: Mode)
    ensures Units(a * Down(2, s), Up(2, s), u, mode) == Shifted(a, u + s, mode)
  {
    hide Pow, Pow2, RoundDiv, Shifted, Up, Down;
    var t := u + s;
    var a1, b1, a2, b2 := Down(2, s), Up(2, s), Down(2, u), Up(2, u);
    MulLess(0, b1, b2);
    ShiftExponents(s, u);
    ShiftProduct(a, Down(2, t), Up(2, t), a1, b1, a2, b2);
    ShiftedRatio(a, t, (a * a1) * a2, b1 * b2, mode);
  }

  lemma {:induction false} ShiftExponents(s: int, u: int)
    ensures Down(2, u + s) * (Up(2, s) * Up(2, u)) == (Down(2, s) * Down(2, u)) * Up(2, u + s)
  {
    hide Pow2, Up, Down;
    var t := u + s;
    UpDown2(s);
    UpDown2(u);
    UpDown2(t);
    var sd, su := if s >= 0 then 0 else -s, if s >= 0 then s else 0;
    var ud, uu := if u >= 0 then 0 else -u, if u >= 0 then u else 0;
    var td, tu := if t >= 0 then 0 else -t, if t >= 0 then t else 0;
    Pow2Add(su, uu);
    Pow2Add(sd, ud);
    PowersAgree(td, su + uu, sd + ud, tu);
  }

  lemma {:induction false} ShiftProduct(a: int, td: int, tu: int, a1: int, b1: int, a2: int, b2: int)
    requires td * (b1 * b2) == (a1 * a2) * tu
    ensures (a * td) * (b1 * b2) == ((a * a1) * a2) * tu
  {
    assert (a * td) * (b1 * b2) == a * (td * (b1 * b2));
    assert a * ((a1 * a2) * tu) == ((a * a1) * a2) * tu by {
      assert (a * a1) * a2 == a * (a1 * a2);
      assert (a * (a1 * a2)) * tu == a * ((a1 * a2) * tu);
    }
  }

  /** A truncated quotient with a sticky bit and at least 56 bits, times 2^-s. */
  lemma {:induction false} ConvertedSticky(n: nat, d: nat, log: nat, s: nat, mode: Mode, m: nat, e: int)
    requires d > 0 && IsLog2(Truncated(n, d), log) && log >= 55 && Converted(Truncated(n, d), log, s, mode, m, e)
    ensures d * Pow2(s) > 0 && Rounded(n, d * Pow2(s), log + 1 - s, mode, m, e)
  {
    hide Pow, Pow2, RoundDiv, Shifted, Units, IsExponent, Truncated;
    MulLess(0, d, Pow2(s));
    var e0 := log + 1 - s;
    var u := Unit(e0);
    assert log + 1 - Precision(e0) == u + s;
    PrecisionIs(e0);
    ExponentSticky(n, d, log, s);
    UnitsSticky(n, d, s, u, mode);
  }

  lemma {:induction false} UnitsSticky(n: nat, d: nat, s: nat, u: int, mode: Mode)
    requires d > 0 && u + s >= 2
    ensures d * Pow2(s) > 0 && Units(n, d * Pow2(s), u, mode) == Shifted(Truncated(n, d), u + s, mode)
  {
    hide Pow, Pow2, RoundDiv, Up, Down;
    MulLess(0, d, Pow2(s));
    StickyRounds(n, d, u + s, mode);
    var a, b, p, t := Down(2, u), Up(2, u), Pow2(s), Pow2(u + s);
    assert p * b == a * t by { StickyShift(s, u); }
    MulLess(0, d * p, b);
    assert n * ((d * p) * b) == (n * a) * (d * t) by {
      assert (d * p) * b == d * (p * b);
      assert n * (d * (a * t)) == (n * a) * (d * t);
    }
    RoundRatio(n, d * t, n * a, (d * p) * b, mode);
  }

  lemma {:induction false} StickyShift(s: nat, u: int)
    requires u + s >= 0
    ensures Pow2(s) * Up(2, u) == Down(2, u) * Pow2(u + s)
  {
    hide Pow2, Up, Down;
    UpDown2(u);
    PowersAgree(s, if u >= 0 then u else 0, if u >= 0 then 0 else -u, u + s);
  }

  lemma {:induction false} ExponentSticky(n: nat, d: nat, log: nat, s: nat)
    requires d > 0 && log > 0 && IsLog2(Truncated(n, d), log)
    ensures d * Pow2(s) > 0 && IsExponent(n, d * Pow2(s), log + 1 - s)
  {
    hide Pow, Pow2, BelowPower;
    MulLess(0, d, Pow2(s));
    LogBounds(Truncated(n, d), log);
    QuotientBelow(n, d, log + 1);
    QuotientBelow(n, d, log);
    BelowDenominator(n, d, s, log + 1 - s);
    BelowDenominator(n, d, s, log - s);
  }

  /** The sticky bit does not reach a higher power of two. */
  lemma {:induction false} QuotientBelow(n: nat, d: nat, k: nat)
    requires d > 0 && k > 0
    ensures BelowPower(n, d, k) <==> Truncated(n, d) < Pow2(k)
  {
    hide Pow, Pow2, BelowPower;
    var z, r := Rounding.Divide(n, d);
    DivIs(n, d, z, r);
    ExponentOfQuotient(n, d, z, r, k);
    WholeBelow(z, k);
    Doubling(k - 1);
  }

  lemma WholeBelow(z: nat, k: nat)
    ensures BelowPower(z, 1, k) <==> z < Pow2(k)
  {
    UpDown2(k);
    NoPower();
  }

  lemma {:induction false} BelowDenominator(n: nat, d: nat, s: nat, k: int)
    requires d > 0
    ensures BelowPower(n, d * Pow2(s), k) <==> BelowPower(n, d, k + s)
  {
    hide Pow2, Up, Down;
    UpDown2(k);
    UpDown2(k + s);
    var kd, ku := if k >= 0 then 0 else -k, if k >= 0 then k else 0;
    var td, tu := if k + s >= 0 then 0 else -(k + s), if k + s >= 0 then k + s else 0;
    var c := kd - td;
    Pow2Add(td, c);
    Pow2Add(tu, c);
    Pow2Add(s, ku);
    DenominatorScaled(n, d, Pow2(s), Pow2(kd), Pow2(ku), Pow2(td), Pow2(tu), Pow2(c));
  }

  lemma {:induction false} DenominatorScaled(n: nat, d: nat, p: nat, kd: nat, ku: nat, td: nat, tu: nat, c: nat)
    requires kd == td * c && p * ku == tu * c && c > 0
    ensures n * kd < (d * p) * ku <==> n * td < d * tu
  {
    assert n * (td * c) == (n * td) * c;
    assert (d * p) * ku == d * (p * ku);
    assert d * (tu * c) == (d * tu) * c;
    MulCompare(n * td, d * tu, c);
  }
}
