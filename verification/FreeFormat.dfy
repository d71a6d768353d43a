/** The free format of `js_dtoa`: successive tries with fewer digits. Whatever mantissa and exponent it chooses, the
    conversion back to binary64 gives the double printed. */
module FreeFormat {
  import opened Rounding
  import opened Reciprocal
  import opened Bignum
  import opened RadixPower
  import opened IntegerRounding
  import opened Doubles
  import opened FloatRounding
  import opened FloatConversion
  import opened NearDouble

  // ---- powers of the radix with exponents of either sign ----

  /** b^(g + 1) = b b^g. */
  lemma {:induction false} NextPower(b: nat, g: int)
    requires b > 0
    ensures Up(b, g + 1) * Down(b, g) == b * (Up(b, g) * Down(b, g + 1))
  {
    if g >= 0 {
    } else if g == -1 {
      assert Pow(b, 0) == 1 && Pow(b, 1) == b * Pow(b, 0);
    } else {
      assert Pow(b, -g) == b * Pow(b, -g - 1);
    }
  }

  /** b^g b^h = b^(g + h). */
  lemma {:induction false} SumPower(b: nat, g: int, h: int)
    requires b > 0 && g + h >= 0
    ensures Up(b, g) * Up(b, h) == Pow(b, g + h) * (Down(b, g) * Down(b, h))
  {
    hide Pow;
    if g >= 0 && h >= 0 {
      PowAdd(b, g, h);
    } else if g >= 0 {
      PowAdd(b, g + h, -h);
    } else {
      PowAdd(b, g + h, -g);
    }
  }

  // ---- the error of a rounded mantissa ----

  /** b^-g < 2^t: a digit more than half as fine as the last bit, when doubled. */
  predicate FinerThan(b: nat, g: int, t: int, factor: nat) {
    factor * (Down(2, t) * Down(b, g)) < Up(2, t) * Up(b, g)
  }

  /** The mantissa rounded from m 2^t b^g differs from it by at most one half, which is less than half a unit of the
      double
      (a quarter of a unit, for factor 2). */
  lemma {:induction false} RoundingError(m: nat, e: int, b: nat, g: int, mant: nat, factor: nat)
    requires b > 0 && e >= -1073 && (factor == 1 || factor == 2)
    requires IsNearest(Num(m, e - 53, b, g), Den(e - 53, b, g), NearestEven, mant) && FinerThan(b, g, e - 53, factor)
    ensures CloserThan(Num(mant, 0, b, 0 - g), Den(0, b, 0 - g), m, e, e - 53 - factor)
  {
    hide Pow, Pow2, Up, Down;
    var t := e - 53;
    var ut, dt, ug, dg := Up(2, t), Down(2, t), Up(b, g), Down(b, g);
    NegatedPower(mant, b, g);
    var c := Pow2(if t >= 0 then SCALE else t + SCALE);
    CommonScale(1, 1, t, c);
    assert Pow2(SCALE) == dt * c && Pow2(t + SCALE) == ut * c;
    var x, y := (m * ut) * ug, mant * (dt * dg);
    assert 2 * Distance(x, y) <= dt * dg;
    ErrorScaled(m, mant, ut, dt, ug, dg, c);
    Doubling(t - 1 + SCALE);
    if factor == 2 {
      Doubling(t - 2 + SCALE);
    }
    ErrorBound(Distance(x, y), ut, dt, ug, dg, c, factor, Pow2(t - factor + SCALE));
  }

  lemma NegatedPower(mant: nat, b: nat, g: int)
    requires b > 0
    ensures Num(mant, 0, b, 0 - g) == mant * Down(b, g) && Den(0, b, 0 - g) == Up(b, g)
  {
    assert Pow(2, 0) == 1 && Pow(b, 0) == 1;
    assert mant * 1 == mant;
  }

  lemma {:induction false} ErrorScaled(m: nat, mant: nat, ut: nat, dt: nat, ug: nat, dg: nat, c: nat)
    ensures Distance((mant * dg) * (dt * c), (m * (ut * c)) * ug) == Distance((m * ut) * ug, mant * (dt * dg)) * c
  {
    assert (mant * dg) * (dt * c) == (mant * (dt * dg)) * c by {
      assert (mant * dg) * (dt * c) == ((mant * dg) * dt) * c;
      assert (mant * dg) * dt == mant * (dt * dg);
    }
    assert (m * (ut * c)) * ug == ((m * ut) * ug) * c by {
      assert m * (ut * c) == (m * ut) * c;
      assert ((m * ut) * c) * ug == ((m * ut) * ug) * c;
    }
    DistanceTimes((m * ut) * ug, mant * (dt * dg), c);
  }

  lemma {:induction false} ErrorBound(x: nat, ut: nat, dt: nat, ug: nat, dg: nat, c: nat, factor: nat, h: nat)
    requires 2 * x <= dt * dg && factor * (dt * dg) < ut * ug && c > 0 && (factor == 1 || factor == 2)
    requires ut * c == (2 * factor) * h
    ensures x * c < ug * h
  {
    // 2 factor x c <= factor dt dg c < ut ug c = 2 factor h ug
    MulAtMost(2 * x, dt * dg, c);
    MulLess(factor * (dt * dg), ut * ug, c);
    assert (2 * x) * c == 2 * (x * c);
    assert (ut * ug) * c == ug * (ut * c);
    if factor == 2 {
      assert (2 * (dt * dg)) * c == 2 * ((dt * dg) * c);
      assert ug * (4 * h) == 4 * (ug * h);
    } else {
      assert ug * (2 * h) == 2 * (ug * h);
    }
  }

  // ---- the first try is fine enough ----

  /** b^(lead - 1) <= 2^(e - 1) < b^lead: what `mul_log2_radix` computes. */
  predicate Brackets(b: nat, lead: int, e: int) {
    && Up(b, lead - 1) * Down(2, e - 1) <= Down(b, lead - 1) * Up(2, e - 1)
    && Down(b, lead) * Up(2, e - 1) < Up(b, lead) * Down(2, e - 1)
  }

  /** With E as estimated: b^(E - P) = b^(E - 1) / b^(P - 1) < 2^(e - 1) / 2^53. */
  lemma {:induction false} FineAtEstimate(b: nat, lead: int, e: int, digits: nat)
    requires b > 0 && digits > 0 && Brackets(b, lead, e) && Pow(b, digits - 1) > 2 * HIDDEN_BIT
    ensures FinerThan(b, digits - lead, e - 53, 2)
  {
    hide Pow, Pow2, Up, Down;
    var g, h, t := digits - lead, lead - 1, e - 53;
    SumPower(b, g, h);
    FineChain(Up(b, g), Down(b, g), Up(b, h), Down(b, h), Up(2, t), Down(2, t), Up(2, e - 1), Down(2, e - 1),
      Pow(b, digits - 1), t, e);
  }

  lemma {:induction false} FineChain(ug: nat, dg: nat, uh: nat, dh: nat, ut: nat, dt: nat, ue: nat, de: nat, p: nat,
      t: int, e: int)
    requires ug > 0 && dg > 0 && uh > 0 && dh > 0 && ut > 0 && dt > 0 && ue > 0 && de > 0
    requires t == e - 53 && ut == Up(2, t) && dt == Down(2, t) && ue == Up(2, e - 1) && de == Down(2, e - 1)
    requires ug * uh == p * (dg * dh) && uh * de <= dh * ue && p > 2 * HIDDEN_BIT
    ensures 2 * (dt * dg) < ut * ug
  {
    // 2^t 2^52 = 2^(e - 1)
    assert (ut * HIDDEN_BIT) * de == ue * dt by { BinaryStep(t, e); }
    // ut ug (52) uh de = ue dt p dg dh >= ... compare after multiplying by HIDDEN_BIT uh de
    var k := HIDDEN_BIT * (uh * de);
    assert (ut * ug) * k == (ue * dt) * (p * (dg * dh)) by {
      FineLeft(ut, ug, uh, de);
    }
    assert (2 * (dt * dg)) * k < (ue * dt) * (p * (dg * dh)) by {
      FineRight(dt, dg, dh, uh, de, ue, p);
    }
    MulLess(0, uh, de);
    MulCompare(2 * (dt * dg), ut * ug, k);
  }

  lemma {:induction false} BinaryStep(t: int, e: int)
    requires t == e - 53
    ensures (Up(2, t) * HIDDEN_BIT) * Down(2, e - 1) == Up(2, e - 1) * Down(2, t)
  {
    hide Pow2, Up, Down;
    UpDown2(t);
    UpDown2(e - 1);
    Pow2Is52();
    var tu, td := if t >= 0 then t else 0, if t >= 0 then 0 else -t;
    var eu, ed := if e - 1 >= 0 then e - 1 else 0, if e - 1 >= 0 then 0 else 1 - e;
    Pow2Add(tu, 52);
    PowersAgree(tu + 52, ed, eu, td);
  }

  lemma {:induction false} FineLeft(ut: int, ug: int, uh: int, de: int)
    ensures (ut * ug) * (HIDDEN_BIT * (uh * de)) == ((ut * HIDDEN_BIT) * de) * (ug * uh)
  {
    assert HIDDEN_BIT * (uh * de) == (HIDDEN_BIT * de) * uh;
    MulRegroup(ut, ug, HIDDEN_BIT * de, uh);
    assert ut * (HIDDEN_BIT * de) == (ut * HIDDEN_BIT) * de;
  }

  lemma {:induction false} FineRight(dt: nat, dg: nat, dh: nat, uh: nat, de: nat, ue: nat, p: nat)
    requires dt > 0 && dg > 0 && dh > 0 && ue > 0 && uh * de <= dh * ue && p > 2 * HIDDEN_BIT
    ensures (2 * (dt * dg)) * (HIDDEN_BIT * (uh * de)) < (ue * dt) * (p * (dg * dh))
  {
    var x, y := dt * dg, dh * ue;
    MulLess(0, dt, dg);
    MulLess(0, dh, ue);
    MulLess(0, x, y);
    assert (2 * x) * (HIDDEN_BIT * (uh * de)) == (2 * HIDDEN_BIT) * (x * (uh * de));
    assert (ue * dt) * (p * (dg * dh)) == p * (x * y) by {
      assert (ue * dt) * (p * (dg * dh)) == p * ((ue * dt) * (dg * dh));
      assert (ue * dt) * (dg * dh) == (dt * dg) * (dh * ue) by { MulRegroup(dt, ue, dg, dh);
        assert ue * dt == dt * ue && ue * dh == dh * ue; }
    }
    assert x * (uh * de) <= x * y by { MulAtMost(uh * de, y, x); }
    MulAtMost(x * (uh * de), x * y, 2 * HIDDEN_BIT);
    MulLess(2 * HIDDEN_BIT, p, x * y);
  }

  /** With E one more than estimated, because the mantissa rounded up to b^P or beyond. */
  lemma {:induction false} FineAfterCarry(b: nat, lead: int, e: int, digits: nat, m: nat, mant: nat)
    requires b > 0 && digits > 0 && Pow(b, digits - 1) > 2 * HIDDEN_BIT && m < 2 * HIDDEN_BIT
    requires var g := digits - lead;
             IsNearest(Num(m, e - 53, b, g), Den(e - 53, b, g), NearestEven, mant) && mant >= Pow(b, digits)
    ensures var g := digits - lead - 1;
            FinerThan(b, g, e - 53, 1) && (m == HIDDEN_BIT ==> FinerThan(b, g, e - 53, 2))
  {
    hide Pow, Pow2, Up, Down;
    var g0, t := digits - lead, e - 53;
    var g := g0 - 1;
    var u, v := Up(2, t) * Up(b, g0), Down(2, t) * Down(b, g0);
    NumIs(m, t, b, g0);
    MulLess(0, Down(2, t), Down(b, g0));
    // 2 m u >= (2 b^P - 1) v
    MulAtMost(Pow(b, digits), mant, v);
    assert 2 * (m * u) >= 2 * (Pow(b, digits) * v) - v;
    PowHead(b, digits);
    CarryGap(b, Pow(b, digits - 1), m, u, v);
    NextPower(b, g);
    CarryStep(b, Up(2, t), Down(2, t), Up(b, g0), Down(b, g0), Up(b, g), Down(b, g), 1);
    if m == HIDDEN_BIT {
      CarryStep(b, Up(2, t), Down(2, t), Up(b, g0), Down(b, g0), Up(b, g), Down(b, g), 2);
    }
  }

  lemma PowHead(b: nat, n: nat)
    requires n > 0
    ensures Pow(b, n) == b * Pow(b, n - 1)
  {
  }

  lemma NumIs(m: nat, t: int, b: nat, g: int)
    requires b > 0
    ensures Num(m, t, b, g) == m * (Up(2, t) * Up(b, g)) && Den(t, b, g) == Down(2, t) * Down(b, g)
  {
    assert (m * Up(2, t)) * Up(b, g) == m * (Up(2, t) * Up(b, g));
  }

  /** m u / v >= b^P - 1/2 with m below 2^53 leaves u / v above b; with m = 2^52, above 2 b. */
  lemma {:induction false} CarryGap(b: nat, p: nat, m: nat, u: nat, v: nat)
    requires b > 0 && v > 0 && p > 2 * HIDDEN_BIT && m < 2 * HIDDEN_BIT
    requires 2 * (m * u) >= 2 * ((b * p) * v) - v
    ensures b * v < u && (m == HIDDEN_BIT ==> 2 * (b * v) < u)
  {
    var w := b * v;
    assert (b * p) * v == p * w;
    MulAtMost(1, b, v);
    MulAtMost(2 * HIDDEN_BIT + 1, p, w);
    assert 2 * (m * u) >= 2 * ((2 * HIDDEN_BIT + 1) * w) - v;
    assert (2 * HIDDEN_BIT + 1) * w == 2 * HIDDEN_BIT * w + w;
    assert m * u == u * m && w * m == m * w;
    if u <= w {
      MulAtMost(u, w, m);
      MulAtMost(m, 2 * HIDDEN_BIT, w);
    }
    if m == HIDDEN_BIT && u <= 2 * w {
      MulAtMost(u, 2 * w, HIDDEN_BIT);
    }
  }

  lemma {:induction false} CarryStep(b: nat, ut: nat, dt: nat, ug0: nat, dg0: nat, ug: nat, dg: nat, factor: nat)
    requires b > 0 && dg > 0 && dg0 > 0 && ug0 * dg == b * (ug * dg0) && factor * (b * (dt * dg0)) < ut * ug0
    ensures factor * (dt * dg) < ut * ug
  {
    // multiply by dg, then cancel b dg0
    MulLess(factor * (b * (dt * dg0)), ut * ug0, dg);
    MulLess(0, b, dg0);
    assert (ut * ug0) * dg == (ut * ug) * (b * dg0) by {
      assert (ut * ug0) * dg == ut * (ug0 * dg);
      assert ut * (b * (ug * dg0)) == (ut * ug) * (b * dg0);
    }
    assert (factor * (b * (dt * dg0))) * dg == (factor * (dt * dg)) * (b * dg0) by {
      assert (b * (dt * dg0)) * dg == (dt * dg) * (b * dg0);
      MulAssociates(factor, b * (dt * dg0), dg);
      MulAssociates(factor, dt * dg, b * dg0);
    }
    MulCompare(factor * (dt * dg), ut * ug, b * dg0);
  }

  /** The mantissa of the first try converts back to the double, unchecked. */
  lemma {:induction false} FirstTryWorks(m: nat, e: int, b: nat, g: int, mant: nat)
    requires b > 0 && IsFinite(m, e) && mant == RoundDiv(Num(m, e - 53, b, g), Den(e - 53, b, g), NearestEven)
    requires FinerThan(b, g, e - 53, 1) && (m == HIDDEN_BIT ==> FinerThan(b, g, e - 53, 2))
    ensures IsConversion(mant, b, 0 - g, NearestEven, m, e)
  {
    hide Pow, Pow2, Up, Down, Num, Den, RoundDiv, FinerThan, CloserThan, Rounded;
    RoundIsNearest(Num(m, e - 53, b, g), Den(e - 53, b, g), NearestEven, mant);
    RoundingError(m, e, b, g, mant, 1);
    if m == HIDDEN_BIT {
      RoundingError(m, e, b, g, mant, 2);
    }
    NearIsDouble(Num(mant, 0, b, 0 - g), Den(0, b, 0 - g), m, e);
  }

  // ---- the size of the mantissa ----

  /** 2^52 2^t b^g compared with b^(g + h), from 2^(e - 1) compared with b^h. */
  lemma {:induction false} PowerGap(b: nat, g: int, h: int, e: int)
    requires b > 0 && g + h >= 0
    ensures var x, y := (Up(2, e - 53) * Up(b, g)) * HIDDEN_BIT, Pow(b, g + h) * (Down(2, e - 53) * Down(b, g));
            && (Up(b, h) * Down(2, e - 1) <= Down(b, h) * Up(2, e - 1) ==> y <= x)
            && (Down(b, h) * Up(2, e - 1) < Up(b, h) * Down(2, e - 1) ==> x < y)
  {
    hide Pow, Pow2, Up, Down;
    SumPower(b, g, h);
    BinaryStep(e - 53, e);
    GapProducts(Up(b, g), Down(b, g), Up(b, h), Down(b, h), Up(2, e - 53), Down(2, e - 53), Up(2, e - 1),
      Down(2, e - 1), Pow(b, g + h));
  }

  lemma {:induction false} GapProducts(ug: nat, dg: nat, uh: nat, dh: nat, ut: nat, dt: nat, ue: nat, de: nat, p: nat)
    requires ug > 0 && dg > 0 && uh > 0 && dh > 0 && ut > 0 && dt > 0 && ue > 0 && de > 0 && p > 0
    requires (ut * HIDDEN_BIT) * de == ue * dt && ug * uh == p * (dg * dh)
    ensures uh * de <= dh * ue ==> p * (dt * dg) <= (ut * ug) * HIDDEN_BIT
    ensures dh * ue < uh * de ==> (ut * ug) * HIDDEN_BIT < p * (dt * dg)
  {
    var x, y, k := (ut * ug) * HIDDEN_BIT, p * (dt * dg), uh * de;
    MulLess(0, uh, de);
    MulLess(0, dt, dg);
    MulLess(0, p, dt * dg);
    // x k = (ue dt)(p dg dh) = y (dh ue)
    assert x * k == y * (dh * ue) by {
      FineLeft(ut, ug, uh, de);
      assert (ut * ug) * (HIDDEN_BIT * (uh * de)) == x * k;
      assert (ue * dt) * (p * (dg * dh)) == p * ((ue * dt) * (dg * dh));
      MulRegroup(ue, dt, dh, dg);
      assert dh * dg == dg * dh;
      assert p * ((dt * dg) * (dh * ue)) == y * (dh * ue);
      assert (ue * dh) * (dt * dg) == (dt * dg) * (dh * ue);
    }
    if k <= dh * ue {
      MulAtMost(k, dh * ue, y);
      MulCompare(x, y, k);
      assert y * k <= y * (dh * ue);
    }
    if dh * ue < k {
      MulLess(dh * ue, k, y);
      MulCompare(x, y, k);
    }
  }

  /** m 2^t b^g as numerator and denominator: between b^(P - 1) and 2 b^P. */
  lemma {:induction false} MantissaRange(m: nat, e: int, b: nat, lead: int, digits: nat)
    requires b > 0 && digits > 0 && HIDDEN_BIT <= m < 2 * HIDDEN_BIT && Brackets(b, lead, e)
    ensures var g := digits - lead;
            var n, d := Num(m, e - 53, b, g), Den(e - 53, b, g);
            Pow(b, digits - 1) * d <= n < (2 * Pow(b, digits)) * d
  {
    hide Pow, Pow2, Up, Down;
    var g := digits - lead;
    PowerGap(b, g, lead - 1, e);
    PowerGap(b, g, lead, e);
    NumIs(m, e - 53, b, g);
    var u := Up(2, e - 53) * Up(b, g);
    MulAtMost(HIDDEN_BIT, m, u);
    MulAtMost(m, 2 * HIDDEN_BIT, u);
    assert (2 * Pow(b, digits)) * Den(e - 53, b, g) == 2 * (Pow(b, digits) * Den(e - 53, b, g));
    assert m * u == u * m && HIDDEN_BIT * u == u * HIDDEN_BIT;
  }

  lemma {:induction false} RoundAtMost(n: nat, d: nat, k: nat)
    requires d > 0 && n <= k * d
    ensures RoundDiv(n, d, NearestEven) <= k
  {
    var q, r := Rounding.Divide(n, d);
    DivIs(n, d, q, r);
    if q >= k {
      MulAtMost(k, q, d);
    }
  }

  lemma {:induction false} RoundAtLeast(n: nat, d: nat, k: nat)
    requires d > 0 && k * d <= n
    ensures RoundDiv(n, d, NearestEven) >= k
  {
    var q, r := Rounding.Divide(n, d);
    DivIs(n, d, q, r);
    assert (q + 1) * d == q * d + d;
    if q < k {
      MulAtMost(q + 1, k, d);
    }
  }

  lemma RoundPositive(n: nat, d: nat)
    requires d > 0 && 2 * n > d
    ensures RoundDiv(n, d, NearestEven) >= 1
  {
    var q, r := Rounding.Divide(n, d);
    DivIs(n, d, q, r);
    if q > 0 {
      MulAtMost(1, q, d);
    }
  }

  /** After a carry the next exponent gives a mantissa of at most P digits, and not zero. */
  lemma {:induction false} RangeAfterCarry(m: nat, t: int, b: nat, g: int, digits: nat, mant: nat)
    requires b >= 2 && digits > 0
    requires Num(m, t, b, g) < (2 * Pow(b, digits)) * Den(t, b, g)
        && (b == 2 ==> Num(m, t, b, g) < Pow(b, digits) * Den(t, b, g))
    requires IsNearest(Num(m, t, b, g), Den(t, b, g), NearestEven, mant) && mant >= Pow(b, digits)
    ensures 0 < RoundDiv(Num(m, t, b, g - 1), Den(t, b, g - 1), NearestEven) < Pow(b, digits)
  {
    hide *;
    var g1, p1 := g - 1, Pow(b, digits - 1);
    PowHead(b, digits);
    PowNonzero(b, digits - 1);
    var n, v, x, w := Num(m, t, b, g), Den(t, b, g), Num(m, t, b, g1), Den(t, b, g1);
    CarryRelation(m, t, b, g);
    NearestAtLeast(n, v, mant, b * p1);
    LowerAfterCarry(b, p1, n, v, Down(b, g), Down(b, g1), w, x);
    RoundPositive(x, w);
    if b == 2 {
      assert p1 + p1 == 2 * p1;
      UpperBinary(p1, n, v, Down(b, g), Down(b, g1), w, x);
      RoundAtMost(x, w, p1);
    } else {
      UpperAfterCarry(b, p1, n, v, Down(b, g), Down(b, g1), w, x);
      RoundAtMost(x, w, 2 * p1);
      MulLess(2, b, p1);
    }
  }

  lemma {:induction false} UpperBinary(p1: nat, n: nat, v: nat, dg: nat, dg1: nat, w: nat, x: nat)
    requires dg > 0 && dg1 > 0 && v * dg1 == w * dg && n * dg1 == x * (2 * dg) && n < (2 * p1) * v
    ensures x <= p1 * w
  {
    MulLess(n, (2 * p1) * v, dg1);
    MulAssociates(2 * p1, v, dg1);
    assert (2 * p1) * (w * dg) == (p1 * w) * (2 * dg) by { MulRegroup(p1, 2, w, dg); }
    MulCompare(x, p1 * w, 2 * dg);
  }

  lemma NearestAtLeast(n: nat, v: nat, mant: nat, p: nat)
    requires IsNearest(n, v, NearestEven, mant) && mant >= p
    ensures 2 * n >= 2 * (p * v) - v
  {
    MulAtMost(p, mant, v);
  }

  lemma {:induction false} CarryRelation(m: nat, t: int, b: nat, g: int)
    requires b > 0
    ensures var n, v, x, w := Num(m, t, b, g), Den(t, b, g), Num(m, t, b, g - 1), Den(t, b, g - 1);
            && Down(b, g) > 0 && Down(b, g - 1) > 0
            && v * Down(b, g - 1) == w * Down(b, g) && n * Down(b, g - 1) == x * (b * Down(b, g))
  {
    hide Pow, Pow2, Up, Down;
    NumIs(m, t, b, g);
    NumIs(m, t, b, g - 1);
    NextPower(b, g - 1);
    CarryProducts(b, m, Up(2, t), Down(2, t), Up(b, g), Down(b, g), Up(b, g - 1), Down(b, g - 1));
  }

  lemma {:induction false} CarryProducts(b: nat, m: nat, ut: nat, dt: nat, ug: nat, dg: nat, ug1: nat, dg1: nat)
    requires ug * dg1 == b * (ug1 * dg)
    ensures (m * (ut * ug)) * dg1 == (m * (ut * ug1)) * (b * dg) && (dt * dg) * dg1 == (dt * dg1) * dg
  {
    assert (ut * ug) * dg1 == ut * (ug * dg1);
    assert ut * (b * (ug1 * dg)) == (ut * ug1) * (b * dg);
    MulAssociates(m, ut * ug, dg1);
    MulAssociates(m, ut * ug1, b * dg);
  }

  lemma {:induction false} UpperAfterCarry(b: nat, p1: nat, n: nat, v: nat, dg: nat, dg1: nat, w: nat, x: nat)
    requires b > 0 && dg > 0 && dg1 > 0 && v * dg1 == w * dg && n * dg1 == x * (b * dg) && n < (2 * (b * p1)) * v
    ensures x <= (2 * p1) * w
  {
    var k := b * dg;
    MulLess(0, b, dg);
    MulLess(n, (2 * (b * p1)) * v, dg1);
    MulAssociates(2 * (b * p1), v, dg1);
    assert (2 * (b * p1)) * (w * dg) == ((2 * p1) * w) * k by {
      assert 2 * (b * p1) == (2 * p1) * b;
      MulRegroup(2 * p1, b, w, dg);
    }
    MulCompare(x, (2 * p1) * w, k);
  }

  lemma {:induction false} LowerAfterCarry(b: nat, p1: nat, n: nat, v: nat, dg: nat, dg1: nat, w: nat, x: nat)
    requires b >= 2 && p1 > 0 && dg > 0 && dg1 > 0 && w > 0 && v * dg1 == w * dg && n * dg1 == x * (b * dg)
    requires 2 * n >= 2 * ((b * p1) * v) - v && v > 0
    ensures 2 * x > w
  {
    LowerGap(b, p1, n, v);
    MulLess(b * v, 2 * n, dg1);
    MulAssociates(b, v, dg1);
    MulAssociates(2, n, dg1);
    LowerCancel(b, n * dg1, dg, w, x);
  }

  /** 2 n >= (2 b p1 - 1) v > b v. */
  lemma {:induction false} LowerGap(b: nat, p1: nat, n: nat, v: nat)
    requires b >= 2 && p1 > 0 && v > 0 && 2 * n >= 2 * ((b * p1) * v) - v
    ensures 2 * n > b * v
  {
    MulAtMost(1, p1, b);
    MulAtMost(b, b * p1, v);
    MulAtMost(2, b, v);
  }

  lemma {:induction false} LowerCancel(b: nat, y: nat, dg: nat, w: nat, x: nat)
    requires b > 0 && dg > 0 && y == x * (b * dg) && b * (w * dg) < 2 * y
    ensures 2 * x > w
  {
    MulLess(0, b, dg);
    MulAssociates(2, x, b * dg);
    assert b * (w * dg) == w * (b * dg);
    MulCompare(w, 2 * x, b * dg);
  }

  // ---- a double rounded to a number of digits ----

  /** The double m 2^(e - 53) times b^g, rounded to an integer. */
  ghost function AtScale(m: nat, e: int, b: nat, g: int): nat
    requires b > 0
  {
    RoundDiv(Num(m, e - 53, b, g), Den(e - 53, b, g), NearestEven)
  }

  /** mant b^(E - p) is the double rounded to p digits: E is the least exponent for which p digits are enough. */
  ghost predicate RoundedTo(m: nat, e: int, b: nat, p: nat, mant: nat, E: int)
    requires b > 0
  {
    mant == AtScale(m, e, b, p - E) && mant < Pow(b, p) && AtScale(m, e, b, p - E + 1) >= Pow(b, p)
  }

  /** The double, rounded to p digits, is not the double any more. */
  ghost predicate TooFew(m: nat, e: int, b: nat, p: nat)
    requires b > 0
  {
    forall mant: nat, E: int :: RoundedTo(m, e, b, p, mant, E) ==> !IsConversion(mant, b, E - p, NearestEven, m, e)
  }

  /** n / v = b x / w. */
  lemma {:induction false} ScaleRatio(m: nat, t: int, b: nat, g: int)
    requires b > 0
    ensures Num(m, t, b, g + 1) * Den(t, b, g) == b * (Num(m, t, b, g) * Den(t, b, g + 1))
  {
    hide *;
    CarryRelation(m, t, b, g + 1);
    var n, v, x, w := Num(m, t, b, g + 1), Den(t, b, g + 1), Num(m, t, b, g), Den(t, b, g);
    var dg, dg1 := Down(b, g + 1), Down(b, g);
    assert (n * w) * dg1 == (b * (x * v)) * dg1 by { RatioProducts(b, n, v, x, w, dg, dg1); }
    MulCompare(n * w, b * (x * v), dg1);
    MulCompare(b * (x * v), n * w, dg1);
  }

  lemma RatioProducts(b: nat, n: nat, v: nat, x: nat, w: nat, dg: nat, dg1: nat)
    requires v * dg1 == w * dg && n * dg1 == x * (b * dg)
    ensures (n * w) * dg1 == (b * (x * v)) * dg1
  {
    assert (n * w) * dg1 == w * (n * dg1);
    assert w * (x * (b * dg)) == (b * x) * (w * dg);
    assert (b * (x * v)) * dg1 == (b * x) * (v * dg1);
  }

  /** If n / v = b x / w rounds to at least, or at most, k b, then x / w rounds to at least, or at most, k. */
  lemma {:induction false} RoundedQuotient(b: nat, k: nat, n: nat, v: nat, x: nat, w: nat)
    requires b >= 2 && v > 0 && w > 0 && n * w == b * (x * v)
    ensures RoundDiv(n, v, NearestEven) >= k * b ==> RoundDiv(x, w, NearestEven) >= k
    ensures RoundDiv(n, v, NearestEven) <= k * b ==> RoundDiv(x, w, NearestEven) <= k
  {
    hide RoundDiv, IsNearest;
    var a, q := RoundDiv(n, v, NearestEven), RoundDiv(x, w, NearestEven);
    RoundIsNearest(n, v, NearestEven, a);
    RoundIsNearest(x, w, NearestEven, q);
    assert (2 * n) * w == (2 * (b * x)) * v;
    if a >= k * b {
      NearestAtLeast(n, v, a, k * b);
      HalfBelow(b, k, n, v, x, w);
      AtLeastNearest(x, w, q, k);
    }
    if a <= k * b {
      NearestAtMost(n, v, a, k * b);
      HalfAbove(b, k, n, v, x, w);
      AtMostNearest(x, w, q, k);
    }
  }

  lemma NearestAtMost(n: nat, v: nat, mant: nat, p: nat)
    requires IsNearest(n, v, NearestEven, mant) && mant <= p
    ensures 2 * n <= 2 * (p * v) + v
  {
    MulAtMost(mant, p, v);
  }

  lemma AtLeastNearest(n: nat, v: nat, mant: nat, p: nat)
    requires IsNearest(n, v, NearestEven, mant) && 2 * n > 2 * (p * v) - v
    ensures mant >= p
  {
    if mant < p {
      MulAtMost(mant + 1, p, v);
    }
  }

  lemma AtMostNearest(n: nat, v: nat, mant: nat, p: nat)
    requires IsNearest(n, v, NearestEven, mant) && 2 * n < 2 * (p * v) + v
    ensures mant <= p
  {
    if mant > p {
      MulAtMost(p + 1, mant, v);
    }
  }

  lemma {:induction false} HalfBelow(b: nat, k: nat, n: nat, v: nat, x: nat, w: nat)
    requires b >= 2 && v > 0 && w > 0 && (2 * n) * w == (2 * (b * x)) * v && 2 * n >= 2 * ((k * b) * v) - v
    ensures 2 * x > 2 * (k * w) - w
  {
    var kb := k * b;
    MulAtMost(2 * (kb * v) - v, 2 * n, w);
    HalfProduct(kb, v, w);
    MulCompare(2 * (b * x), 2 * (kb * w) - w, v);
    assert (2 * x) * b == 2 * (b * x);
    assert (2 * (k * w) - w) * b == 2 * (kb * w) - b * w;
    MulLess(1, b, w);
    MulCompare(2 * (k * w) - w, 2 * x, b);
  }

  lemma {:induction false} HalfAbove(b: nat, k: nat, n: nat, v: nat, x: nat, w: nat)
    requires b >= 2 && v > 0 && w > 0 && (2 * n) * w == (2 * (b * x)) * v && 2 * n <= 2 * ((k * b) * v) + v
    ensures 2 * x < 2 * (k * w) + w
  {
    var kb := k * b;
    MulAtMost(2 * n, 2 * (kb * v) + v, w);
    HalfProduct(kb, v, w);
    MulCompare(2 * (kb * w) + w, 2 * (b * x), v);
    assert (2 * x) * b == 2 * (b * x);
    assert (2 * (k * w) + w) * b == 2 * (kb * w) + b * w;
    MulLess(1, b, w);
    MulCompare(2 * x, 2 * (k * w) + w, b);
  }

  lemma HalfProduct(k: int, v: int, w: int)
    ensures (2 * (k * v) - v) * w == (2 * (k * w) - w) * v && (2 * (k * v) + v) * w == (2 * (k * w) + w) * v
  {
    assert (k * v) * w == (k * w) * v;
  }

  lemma {:induction false} CoarserScale(m: nat, e: int, b: nat, g: int, k: nat)
    requires b >= 2
    ensures AtScale(m, e, b, g + 1) >= k * b ==> AtScale(m, e, b, g) >= k
    ensures AtScale(m, e, b, g + 1) <= k * b ==> AtScale(m, e, b, g) <= k
  {
    hide Num, Den, RoundDiv;
    ScaleRatio(m, e - 53, b, g);
    RoundedQuotient(b, k, Num(m, e - 53, b, g + 1), Den(e - 53, b, g + 1), Num(m, e - 53, b, g), Den(e - 53, b, g));
  }

  lemma {:induction false} ScaleMono(m: nat, e: int, b: nat, g: int, h: int)
    requires b >= 2 && g <= h
    ensures AtScale(m, e, b, g) <= AtScale(m, e, b, h)
    decreases h - g
  {
    hide AtScale;
    if g < h {
      ScaleMono(m, e, b, g + 1, h);
      var k := AtScale(m, e, b, g + 1);
      CoarserScale(m, e, b, g, k);
      MulAtMost(1, b, k);
    }
  }

  /** Only one mantissa and one exponent are the double rounded to p digits. */
  lemma {:induction false} RoundedToUnique(m: nat, e: int, b: nat, p: nat, mant: nat, E: int, mant1: nat, E1: int)
    requires b >= 2 && RoundedTo(m, e, b, p, mant, E) && RoundedTo(m, e, b, p, mant1, E1)
    ensures mant1 == mant && E1 == E
  {
    hide AtScale, Pow;
    if E < E1 {
      ScaleMono(m, e, b, p - E1 + 1, p - E);
    } else if E1 < E {
      ScaleMono(m, e, b, p - E + 1, p - E1);
    }
  }

  /** It has p digits. */
  lemma {:induction false} RoundedToSize(m: nat, e: int, b: nat, p: nat, mant: nat, E: int)
    requires b >= 2 && p > 0 && RoundedTo(m, e, b, p, mant, E)
    ensures Pow(b, p - 1) <= mant
  {
    hide AtScale;
    PowHead(b, p);
    assert b * Pow(b, p - 1) == Pow(b, p - 1) * b;
    CoarserScale(m, e, b, p - E, Pow(b, p - 1));
  }

  /** A zero at the end may go: what is left is the double rounded to one digit less. */
  lemma {:induction false} RoundedToShorter(m: nat, e: int, b: nat, p: nat, q: nat, E: int)
    requires b >= 2 && p > 1 && RoundedTo(m, e, b, p, q * b, E)
    ensures RoundedTo(m, e, b, p - 1, q, E)
  {
    hide AtScale, Pow;
    RoundedToSize(m, e, b, p, q * b, E);
    CoarserScale(m, e, b, p - 1 - E, q);
    PowHead(b, p);
    MulCompare(q, Pow(b, p - 1), b);
    assert b * Pow(b, p - 1) == Pow(b, p - 1) * b;
  }

  /** The one candidate with p digits decides. */
  lemma {:induction false} TooFewIs(m: nat, e: int, b: nat, p: nat, mant: nat, E: int)
    requires b >= 2 && RoundedTo(m, e, b, p, mant, E) && !IsConversion(mant, b, E - p, NearestEven, m, e)
    ensures TooFew(m, e, b, p)
  {
    hide RoundedTo, IsConversion;
    forall mant1: nat, E1: int | RoundedTo(m, e, b, p, mant1, E1)
      ensures !IsConversion(mant1, b, E1 - p, NearestEven, m, e)
    {
      RoundedToUnique(m, e, b, p, mant, E, mant1, E1);
    }
  }

  // ---- the search ----

  /** The radix, and what the tables of `dtoa.c` provide for it. */
  predicate RadixOk(radix1: nat, rs: nat, d: nat, maxDigits: nat) {
    var b := radix1 * Pow2(rs);
    && FitsLimb(radix1, d) && 2 <= b < BASE && maxDigits > 0 && 2 * Pow(b, maxDigits) < WIDE
    && (if b == 2 then maxDigits == BINARY_DIGITS else Pow(b, maxDigits - 1) > 2 * HIDDEN_BIT)
  }

  /** The number of digits for radix 2; one less would give every double exactly. */
  const BINARY_DIGITS: nat := 54

  lemma RadixFacts(radix1: nat, rs: nat, d: nat, maxDigits: nat)
    requires RadixOk(radix1, rs, d, maxDigits)
    ensures FitsLimb(radix1, d) && 2 <= radix1 * Pow2(rs) < BASE && maxDigits > 0
  {
  }

  lemma SmallerPower(b: nat, digits: nat, maxDigits: nat)
    requires b >= 2 && digits <= maxDigits && 2 * Pow(b, maxDigits) < WIDE
    ensures 2 * Pow(b, digits) < WIDE
  {
    PowMono(b, digits, maxDigits);
  }

  /** Mantissa of the given number of digits, and the exponent for which it has no more. */
  method Mantissa(m: nat, e: int, radix1: nat, rs: nat, lead: int, digits: nat, d: nat, ghost maxDigits: nat,
      ghost room: nat)
      returns (mant: nat, E: int, ghost peak: nat)
    requires IsFinite(m, e) && RadixOk(radix1, rs, d, maxDigits) && Brackets(radix1 * Pow2(rs), lead, e)
        && 0 < digits <= maxDigits
    ensures var b := radix1 * Pow2(rs);
            && b > 0 && 0 < mant < Pow(b, digits) && RoundedTo(m, e, b, digits, mant, E)
            && (digits == maxDigits ==> IsConversion(mant, b, E - digits, NearestEven, m, e))
            && lead <= E <= lead + 1
    ensures Roomy(e, radix1, rs, lead, maxDigits, d, room) ==> peak <= room
  {
    hide *;
    RadixFacts(radix1, rs, d, maxDigits);
    FiniteFacts(m, e);
    var b := radix1 * Pow2(rs);
    MantissaStart(m, e, radix1, rs, lead, digits, d, maxDigits);
    EnoughDigits(m, e, b, lead, digits);
    var limit := PowUi(b, digits);
    E := lead;
    var x := MulPowRound(m, e - 53, radix1, rs, digits - E, NearestEven, d);
    mant := ToU64(x);
    RoomyRound(e, radix1, rs, lead, maxDigits, d, room, digits - E);
    peak := x.peak;
    while mant >= limit
      invariant E == lead || (E == lead + 1 && mant < limit)
      invariant AtScale(m, e, b, digits - E + 1) >= limit
      invariant Roomy(e, radix1, rs, lead, maxDigits, d, room) ==> peak <= room
      invariant 0 < mant && mant == RoundDiv(Num(m, e - 53, b, digits - E), Den(e - 53, b, digits - E), NearestEven)
      invariant digits == maxDigits ==> IsConversion(mant, b, E - digits, NearestEven, m, e)
      decreases lead + 1 - E
    {
      MantissaCarry(m, e, radix1, rs, lead, digits, d, maxDigits, mant);
      RoundedToIs(m, e, b, digits, mant, E);
      E := E + 1;
      x := MulPowRound(m, e - 53, radix1, rs, digits - E, NearestEven, d);
      mant := ToU64(x);
      RoomyRound(e, radix1, rs, lead, maxDigits, d, room, digits - E);
      peak := if x.peak > peak then x.peak else peak;
    }
    RoundedToIs(m, e, b, digits, mant, E);
  }

  lemma RoundedToIs(m: nat, e: int, b: nat, p: nat, mant: nat, E: int)
    requires b > 0 && mant == RoundDiv(Num(m, e - 53, b, p - E), Den(e - 53, b, p - E), NearestEven)
    ensures mant == AtScale(m, e, b, p - E)
    ensures mant < Pow(b, p) && AtScale(m, e, b, p - E + 1) >= Pow(b, p) ==> RoundedTo(m, e, b, p, mant, E)
  {
  }

  /** With an exponent below the estimate there is one digit too much. */
  lemma {:induction false} EnoughDigits(m: nat, e: int, b: nat, lead: int, digits: nat)
    requires b > 0 && digits > 0 && HIDDEN_BIT <= m < 2 * HIDDEN_BIT && Brackets(b, lead, e)
    ensures AtScale(m, e, b, digits - lead + 1) >= Pow(b, digits)
  {
    hide Pow, Num, Den, RoundDiv, Brackets;
    MantissaRange(m, e, b, lead, digits + 1);
    RoundAtLeast(Num(m, e - 53, b, digits + 1 - lead), Den(e - 53, b, digits + 1 - lead), Pow(b, digits));
  }

  predicate RoundFits(e: int, radix1: nat, rs: nat, f: int, d: nat, room: nat)
    requires d > 0
  {
    RoundRoom(e - 53, radix1, rs, f, d) <= room
  }

  /** `room` limbs are enough for every try of the search. */
  ghost predicate Roomy(e: int, radix1: nat, rs: nat, lead: int, maxDigits: nat, d: nat, room: nat) {
    && d > 0
    && (forall f: int :: -lead <= f <= maxDigits - lead ==> RoundFits(e, radix1, rs, f, d, room))
    && (forall f: int :: lead - maxDigits <= f <= lead ==> 2 + ConversionRoom(radix1, f, d) <= room)
  }

  lemma RoomyRound(e: int, radix1: nat, rs: nat, lead: int, maxDigits: nat, d: nat, room: nat, f: int)
    requires d > 0 && -lead <= f <= maxDigits - lead
    ensures Roomy(e, radix1, rs, lead, maxDigits, d, room) ==> RoundRoom(e - 53, radix1, rs, f, d) <= room
  {
    if Roomy(e, radix1, rs, lead, maxDigits, d, room) {
      assert RoundFits(e, radix1, rs, f, d, room);
    }
  }

  lemma RoomyConversion(e: int, radix1: nat, rs: nat, lead: int, maxDigits: nat, d: nat, room: nat, f: int)
    requires d > 0 && lead - maxDigits <= f <= lead
    ensures Roomy(e, radix1, rs, lead, maxDigits, d, room) ==> 2 + ConversionRoom(radix1, f, d) <= room
  {
  }

  lemma FiniteFacts(m: nat, e: int)
    requires IsFinite(m, e)
    ensures HIDDEN_BIT <= m < 2 * HIDDEN_BIT && m < WIDE && -1073 <= e <= 1024
  {
  }

  lemma {:induction false} MantissaStart(m: nat, e: int, radix1: nat, rs: nat, lead: int, digits: nat, d: nat,
      maxDigits: nat)
    requires IsFinite(m, e) && RadixOk(radix1, rs, d, maxDigits) && Brackets(radix1 * Pow2(rs), lead, e)
        && 0 < digits <= maxDigits
    ensures var b := radix1 * Pow2(rs);
            var mant := RoundDiv(Num(m, e - 53, b, digits - lead), Den(e - 53, b, digits - lead), NearestEven);
            && 0 < mant < WIDE && Pow(b, digits) < WIDE
            && (digits == maxDigits ==> IsConversion(mant, b, lead - digits, NearestEven, m, e))
  {
    hide Pow, Pow2, RoundDiv, Num, Den, FinerThan, Brackets, IsConversion;
    var b := radix1 * Pow2(rs);
    SmallerPower(b, digits, maxDigits);
    MantissaRange(m, e, b, lead, digits);
    var n, dd := Num(m, e - 53, b, digits - lead), Den(e - 53, b, digits - lead);
    RoundAtMost(n, dd, 2 * Pow(b, digits));
    RoundAtLeast(n, dd, Pow(b, digits - 1));
    PowNonzero(b, digits - 1);
    if digits == maxDigits {
      if b == 2 {
        BinaryFirstTry(m, e, lead);
      } else {
        FineAtEstimate(b, lead, e, digits);
        FinerMono(b, digits - lead, e - 53);
        FirstTryWorks(m, e, b, digits - lead, RoundDiv(n, dd, NearestEven));
      }
    }
  }

  lemma FinerMono(b: nat, g: int, t: int)
    requires FinerThan(b, g, t, 2)
    ensures FinerThan(b, g, t, 1)
  {
  }

  lemma {:induction false} MantissaCarry(m: nat, e: int, radix1: nat, rs: nat, lead: int, digits: nat, d: nat,
      maxDigits: nat, mant: nat)
    requires IsFinite(m, e) && RadixOk(radix1, rs, d, maxDigits) && Brackets(radix1 * Pow2(rs), lead, e)
        && 0 < digits <= maxDigits
    requires var b := radix1 * Pow2(rs);
             && mant == RoundDiv(Num(m, e - 53, b, digits - lead), Den(e - 53, b, digits - lead), NearestEven)
               && mant >= Pow(b, digits)
    ensures var b, g := radix1 * Pow2(rs), digits - (lead + 1);
            && 0 < RoundDiv(Num(m, e - 53, b, g), Den(e - 53, b, g), NearestEven) < Pow(b, digits)
              && Pow(b, digits) < WIDE
            && (digits == maxDigits ==>
              IsConversion(RoundDiv(Num(m, e - 53, b, g), Den(e - 53, b, g), NearestEven), b, 0 - g, NearestEven, m, e))
  {
    hide Pow, Pow2, RoundDiv, Num, Den, FinerThan, Brackets, IsNearest, IsConversion;
    var b, g := radix1 * Pow2(rs), digits - lead;
    SmallerPower(b, digits, maxDigits);
    MantissaRange(m, e, b, lead, digits);
    RoundIsNearest(Num(m, e - 53, b, g), Den(e - 53, b, g), NearestEven, mant);
    if b == 2 {
      BinaryLead(lead, e);
      BinaryRange(m, e, digits);
    }
    RangeAfterCarry(m, e - 53, b, g, digits, mant);
    if digits == maxDigits {
      if b == 2 {
        BinaryFirstTry(m, e, lead);
      } else {
        FineAfterCarry(b, lead, e, digits, m, mant);
        FirstTryWorks(m, e, b, g - 1, RoundDiv(Num(m, e - 53, b, g - 1), Den(e - 53, b, g - 1), NearestEven));
      }
    }
  }

  // -- radix 2 --

  lemma {:induction false} BinaryLead(lead: int, e: int)
    requires Brackets(2, lead, e)
    ensures lead == e
  {
    hide Pow, Pow2;
    UpDown2(lead - 1);
    UpDown2(lead);
    UpDown2(e - 1);
    BinaryCompare(lead - 1, e - 1);
    BinaryCompare(e - 1, lead);
  }

  /** 2^x <= 2^y as a comparison of fractions. */
  lemma {:induction false} BinaryCompare(x: int, y: int)
    ensures Up(2, x) * Down(2, y) <= Down(2, x) * Up(2, y) ==> x <= y
    ensures Up(2, x) * Down(2, y) < Down(2, x) * Up(2, y) ==> x < y
  {
    hide Pow, Pow2;
    UpDown2(x);
    UpDown2(y);
    var a, b := (if x >= 0 then x else 0) + (if y >= 0 then 0 else -y),
      (if x >= 0 then 0 else -x) + (if y >= 0 then y else 0);
    Pow2Add(if x >= 0 then x else 0, if y >= 0 then 0 else -y);
    Pow2Add(if x >= 0 then 0 else -x, if y >= 0 then y else 0);
    if a > b {
      Pow2Less(b, a);
    }
    if a >= b {
      Pow2Mono(b, a);
    }
  }

  lemma Pow2Less(a: nat, b: nat)
    requires a < b
    ensures Pow2(a) < Pow2(b)
  {
    Pow2Mono(a + 1, b);
    Doubling(a);
  }

  /** In radix 2 the mantissa with the given number of digits is m 2^(digits - 53). */
  lemma {:induction false} BinaryScale(e: int, digits: nat)
    ensures (Up(2, e - 53) * Up(2, digits - e)) * Pow2(53) == Pow2(digits) * (Down(2, e - 53) * Down(2, digits - e))
  {
    hide Pow, Pow2;
    UpDown2(e - 53);
    UpDown2(digits - e);
    var a, b := if e >= 53 then e - 53 else 0, if digits >= e then digits - e else 0;
    var c, d := if e >= 53 then 0 else 53 - e, if digits >= e then 0 else e - digits;
    Pow2Add(a, b);
    Pow2Add(a + b, 53);
    Pow2Add(c, d);
    Pow2Add(digits, c + d);
    assert a + b + 53 == digits + (c + d);
  }

  lemma {:induction false} BinaryRange(m: nat, e: int, digits: nat)
    requires m < 2 * HIDDEN_BIT
    ensures Num(m, e - 53, 2, digits - e) < Pow(2, digits) * Den(e - 53, 2, digits - e)
  {
    hide Pow, Pow2, Up, Down;
    NumIs(m, e - 53, 2, digits - e);
    BinaryScale(e, digits);
    Pow2Is52();
    var u := Up(2, e - 53) * Up(2, digits - e);
    MulLess(0, Up(2, e - 53), Up(2, digits - e));
    MulLess(m, Pow2(53), u);
    assert u * Pow2(53) == Pow2(53) * u;
    BinaryPower(digits);
  }

  lemma BinaryPower(n: nat)
    ensures Pow2(n) == Pow(2, n)
  {
  }

  /** With 54 digits the mantissa is 2 m, without rounding, and it converts back. */
  lemma {:induction false} BinaryFirstTry(m: nat, e: int, lead: int)
    requires IsFinite(m, e) && Brackets(2, lead, e)
    ensures var mant := RoundDiv(Num(m, e - 53, 2, BINARY_DIGITS - lead), Den(e - 53, 2, BINARY_DIGITS - lead),
        NearestEven);
            mant == 2 * m && mant < Pow(2, BINARY_DIGITS) && IsConversion(mant, 2, lead - BINARY_DIGITS, NearestEven, m,
              e)
  {
    hide Pow, Pow2, Up, Down, RoundDiv, Brackets, IsConversion;
    BinaryLead(lead, e);
    NumIs(m, e - 53, 2, 54 - e);
    BinaryScale(e, 54);
    FiniteFacts(m, e);
    Pow2Is52();
    Doubling(53);
    BinaryPower(54);
    var u, d := Up(2, e - 53) * Up(2, 54 - e), Down(2, e - 53) * Down(2, 54 - e);
    MulLess(0, Down(2, e - 53), Down(2, 54 - e));
    assert u == 2 * d by { CancelPower(u, d); }
    assert m * u == (2 * m) * d;
    ExactQuotientRounds(2 * m, d);
    BinaryConverts(m, e);
  }

  lemma CancelPower(u: int, d: int)
    requires u * Pow2(53) == Pow2(54) * d
    ensures u == 2 * d
  {
    hide Pow2;
    Doubling(53);
    assert Pow2(54) * d == (2 * d) * Pow2(53);
    MulCompare(u, 2 * d, Pow2(53));
    MulCompare(2 * d, u, Pow2(53));
  }

  lemma ExactQuotientRounds(q: nat, d: nat)
    requires d > 0
    ensures RoundDiv(q * d, d, NearestEven) == q
  {
    DivIs(q * d, d, q, 0);
  }

  /** m 2^(e - 53), written with the mantissa 2 m, is the double itself. */
  lemma {:induction false} BinaryConverts(m: nat, e: int)
    requires IsFinite(m, e)
    ensures IsConversion(2 * m, 2, e - 54, NearestEven, m, e)
  {
    hide Pow, Pow2, RoundDiv, Rounded, Units;
    FiniteFacts(m, e);
    var n, d := Num(2 * m, 0, 2, e - 54), Den(0, 2, e - 54);
    UpDown2(0);
    UpDown2(e - 54);
    NoPower();
    var a, b := if e >= 54 then e - 54 else 0, if e >= 54 then 0 else 54 - e;
    assert n == (2 * m) * Pow2(a) && d == Pow2(b);
    Pow2Add(a, SCALE);
    Pow2Add(e - 53 + SCALE, b);
    Doubling(a + SCALE);
    assert a + SCALE + 1 == e - 53 + SCALE + b;
    assert n * Pow2(SCALE) == (2 * m) * (Pow2(a) * Pow2(SCALE)) by { MulAssociates(2 * m, Pow2(a), Pow2(SCALE)); }
    assert (2 * m) * Pow2(a + SCALE) == m * (2 * Pow2(a + SCALE));
    assert Exact(m, e) * d == m * (Pow2(e - 53 + SCALE) * d) by { MulAssociates(m, Pow2(e - 53 + SCALE), d); }
    assert n * Pow2(SCALE) == Exact(m, e) * d;
    MulLess(0, d, Pow2(e - 54 + SCALE));
    NearIsDouble(n, d, m, e);
  }

  /** Dropping a zero digit does not change the value. */
  lemma {:induction false} DropDigit(mant: nat, b: nat, f: int, m: nat, e: int)
    requires b > 0 && IsConversion(mant * b, b, f, NearestEven, m, e)
    ensures IsConversion(mant, b, f + 1, NearestEven, m, e)
  {
    hide Pow, Pow2, Up, Down, Rounded;
    var e0: int :| Rounded(Num(mant * b, 0, b, f), Den(0, b, f), e0, NearestEven, m, e);
    NumIs(mant * b, 0, b, f);
    NumIs(mant, 0, b, f + 1);
    NextPower(b, f);
    DigitProduct(mant, b, Up(2, 0), Down(2, 0), Up(b, f), Down(b, f), Up(b, f + 1), Down(b, f + 1));
    RoundedRatio(Num(mant * b, 0, b, f), Den(0, b, f), Num(mant, 0, b, f + 1), Den(0, b, f + 1), e0, NearestEven, m, e);
  }

  lemma {:induction false} DigitProduct(mant: int, b: int, u: int, v: int, uf: int, df: int, ug: int, dg: int)
    requires ug * df == b * (uf * dg)
    ensures ((mant * b) * (u * uf)) * (v * dg) == (mant * (u * ug)) * (v * df)
  {
    assert ((mant * b) * (u * uf)) * (v * dg) == ((mant * u) * v) * (b * (uf * dg)) by {
      MulRegroup(mant * b, u * uf, v, dg);
      assert (mant * b) * (u * uf) == (mant * u) * (b * uf) by { MulRegroup(mant, b, u, uf); }
      assert ((mant * u) * (b * uf)) * (v * dg) == ((mant * u) * v) * ((b * uf) * dg) by { MulRegroup(mant * u, b * uf,
        v, dg); }
      assert (b * uf) * dg == b * (uf * dg);
    }
    assert (mant * (u * ug)) * (v * df) == ((mant * u) * v) * (ug * df) by {
      assert mant * (u * ug) == (mant * u) * ug;
      MulRegroup(mant * u, ug, v, df);
    }
  }

  /** Remove trailing zero digits. */
  method StripZeros(mant0: nat, digits0: nat, b: nat, E: int, ghost m: nat, ghost e: int)
      returns (mant: nat, digits: nat)
    requires b >= 2 && 0 < mant0 < Pow(b, digits0)
    ensures 0 < mant < Pow(b, digits) && mant % b != 0 && 0 < digits <= digits0
    ensures RoundedTo(m, e, b, digits0, mant0, E) ==> RoundedTo(m, e, b, digits, mant, E)
    ensures IsConversion(mant0, b, E - digits0, NearestEven, m, e) ==>
        IsConversion(mant, b, E - digits, NearestEven, m, e)
  {
    hide *;
    mant, digits := mant0, digits0;
    OneDigit(mant, b, digits);
    while mant % b == 0
      invariant 0 < mant < Pow(b, digits) && 0 < digits <= digits0
      invariant RoundedTo(m, e, b, digits0, mant0, E) ==> RoundedTo(m, e, b, digits, mant, E)
      invariant IsConversion(mant0, b, E - digits0, NearestEven, m, e) ==>
          IsConversion(mant, b, E - digits, NearestEven, m, e)
      decreases digits
    {
      var q := mant / b;
      assert mant == q * b by { ExactQuotient(mant, b); }
      ShorterMantissa(q, b, digits);
      OneDigit(q, b, digits - 1);
      if RoundedTo(m, e, b, digits0, mant0, E) {
        RoundedToShorter(m, e, b, digits, q, E);
      }
      if IsConversion(mant0, b, E - digits0, NearestEven, m, e) {
        DropDigit(q, b, E - digits, m, e);
      }
      mant, digits := q, digits - 1;
      OneDigit(mant, b, digits);
    }
  }

  lemma ExactQuotient(n: nat, b: nat)
    requires b > 0 && n % b == 0
    ensures n == (n / b) * b
  {
  }

  lemma OneDigit(mant: nat, b: nat, digits: nat)
    requires 0 < mant < Pow(b, digits)
    ensures digits > 0
  {
  }

  lemma {:induction false} ShorterMantissa(q: nat, b: nat, digits: nat)
    requires b > 0 && digits > 0 && 0 < q * b < Pow(b, digits)
    ensures 0 < q < Pow(b, digits - 1)
  {
    PowHead(b, digits);
    assert b * Pow(b, digits - 1) == Pow(b, digits - 1) * b;
    MulCompare(q, Pow(b, digits - 1), b);
    MulCompare(0, q, b);
  }

  /** The search for the shortest mantissa: what is found is the double rounded to some number of digits, it converts
      back to the double, and with one digit less it would not. */
  method Search(m: nat, e: int, radix1: nat, rs: nat, lead: int, maxDigits: nat, d: nat, ghost room: nat)
      returns (mant: nat, digits: nat, E: int, ghost peak: nat)
    requires IsFinite(m, e) && RadixOk(radix1, rs, d, maxDigits) && Brackets(radix1 * Pow2(rs), lead, e)
    ensures var b := radix1 * Pow2(rs);
            && b > 0 && 0 < mant < Pow(b, digits) && mant % b != 0 && 0 < digits <= maxDigits
            && IsConversion(mant, b, E - digits, NearestEven, m, e) && lead <= E <= lead + 1
            && RoundedTo(m, e, b, digits, mant, E) && (digits > 1 ==> TooFew(m, e, b, digits - 1))
    ensures Roomy(e, radix1, rs, lead, maxDigits, d, room) ==> peak <= room
  {
    hide *;
    RadixFacts(radix1, rs, d, maxDigits);
    FiniteFacts(m, e);
    var b := radix1 * Pow2(rs);
    var p := maxDigits;
    var found := false;
    peak := 0;
    mant, digits, E := 1, 1, 0;
    while true
      invariant 0 < p <= maxDigits && (if found then p == digits - 1 else p == maxDigits)
      invariant found ==> 0 < mant < Pow(b, digits) && mant % b != 0 && 0 < digits <= maxDigits
      invariant found ==> IsConversion(mant, b, E - digits, NearestEven, m, e) && lead <= E <= lead + 1
      invariant found ==> RoundedTo(m, e, b, digits, mant, E)
      invariant Roomy(e, radix1, rs, lead, maxDigits, d, room) ==> peak <= room
      decreases p
    {
      var mant0, E0;
      ghost var used;
      mant0, E0, used := Mantissa(m, e, radix1, rs, lead, p, d, maxDigits, room);
      peak := if used > peak then used else peak;
      var mant1, p1 := StripZeros(mant0, p, b, E0, m, e);
      if found {
        MantissaFits(mant1, b, p1, maxDigits, radix1, rs, d);
        var x := FromU64(mant1);
        RoomyConversion(e, radix1, rs, lead, maxDigits, d, room, E0 - p1);
        var m1, e1 := MulPowRoundToD(x, radix1, rs, E0 - p1, NearestEven, d);
        peak := if x.peak > peak then x.peak else peak;
        if m1 != m || e1 != e {
          if IsConversion(mant0, b, E0 - p, NearestEven, m, e) {
            ConversionUnique(mant1, b, E0 - p1, m, e, m1, e1);
          }
          TooFewIs(m, e, b, p, mant0, E0);
          break;
        }
      }
      found, mant, digits, E := true, mant1, p1, E0;
      if p1 == 1 {
        break;
      }
      p := p1 - 1;
    }
  }

  lemma MantissaFits(mant: nat, b: nat, digits: nat, maxDigits: nat, radix1: nat, rs: nat, d: nat)
    requires RadixOk(radix1, rs, d, maxDigits) && b == radix1 * Pow2(rs) && mant < Pow(b, digits) && digits <= maxDigits
    ensures mant < WIDE
  {
    PowMono(b, digits, maxDigits);
  }

  /** Radix 2 = 1 2: the search applies, and the exponent of a double is the estimate. */
  lemma {:induction false} RadixTwo(e: int)
    ensures RadixOk(1, 1, 1, BINARY_DIGITS) && 1 * Pow2(1) == 2 && Brackets(2, e, e)
  {
    Pow2Is52();
    Doubling(53);
    BinaryPower(54);
    assert Pow(1, 1) == 1 && Pow2(1) == 2;
    hide Pow, Pow2;
    UpDown2(e - 1);
    UpDown2(e);
    BinaryNext(e);
  }

  lemma BinaryNext(e: int)
    ensures Down(2, e) * Up(2, e - 1) < Up(2, e) * Down(2, e - 1)
  {
    hide Pow, Pow2;
    UpDown2(e - 1);
    UpDown2(e);
    NoPower();
    if e > 0 {
      Pow2Less(e - 1, e);
    } else {
      Pow2Less(-e, 1 - e);
    }
  }
}
