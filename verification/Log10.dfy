/** `mul_log2_radix` for radix 10: a fixed-point multiplication finds floor(a log10 2) for all exponents of doubles. The
    fractions 643/2136 and 146/485 enclose both log10 2 and the multiplier, and no fraction with a denominator below
    2621 lies between them. */
module Log10 {
  import opened Rounding
  import opened Bignum
  import opened RadixPower
  import opened IntegerRounding
  import opened FreeFormat

  const MULTIPLIER: int := 0x4d104d
  const BASE_LOG2: int := 0x100_0000

  /** `mul_log2_radix(a, 10)`: an arithmetic shift, which rounds down. */
  function MulLog2Radix10(a: int): int { a * MULTIPLIER / BASE_LOG2 }

  // ---- 10^643 < 2^2136 and 2^485 < 10^146 ----

  /** 5^n <= m 2^s. */
  predicate AtMost5(n: nat, m: nat, s: nat) { Pow(5, n) <= m * Pow2(s) }

  /** 5^n >= m 2^s. */
  predicate AtLeast5(n: nat, m: nat, s: nat) { Pow(5, n) >= m * Pow2(s) }

  lemma {:induction false} SquareUp(n: nat, m: nat, s: nat, m1: nat, r: nat)
    requires AtMost5(n, m, s) && m * m <= m1 * Pow2(r)
    ensures AtMost5(2 * n, m1, 2 * s + r)
  {
    hide Pow, Pow2;
    var x, y := Pow(5, n), Pow2(s);
    PowAdd(5, n, n);
    Pow2Add(s, s);
    Pow2Add(r, 2 * s);
    MulAtMost(x, m * y, x);
    MulAtMost(x, m * y, m * y);
    MulRegroup(m, y, m, y);
    MulAtMost(m * m, m1 * Pow2(r), y * y);
    MulAssociates(m1, Pow2(r), y * y);
  }

  lemma {:induction false} SquareDown(n: nat, m: nat, s: nat, m1: nat, r: nat)
    requires AtLeast5(n, m, s) && m * m >= m1 * Pow2(r)
    ensures AtLeast5(2 * n, m1, 2 * s + r)
  {
    hide Pow, Pow2;
    var x, y := Pow(5, n), Pow2(s);
    PowAdd(5, n, n);
    Pow2Add(s, s);
    Pow2Add(r, 2 * s);
    MulAtMost(m * y, x, x);
    MulAtMost(m * y, x, m * y);
    MulRegroup(m, y, m, y);
    MulAtMost(m1 * Pow2(r), m * m, y * y);
    MulAssociates(m1, Pow2(r), y * y);
  }

  lemma TimesFive(n: nat, m: nat, s: nat)
    ensures AtMost5(n, m, s) ==> AtMost5(n + 1, 5 * m, s)
    ensures AtLeast5(n, m, s) ==> AtLeast5(n + 1, 5 * m, s)
  {
    assert (5 * m) * Pow2(s) == 5 * (m * Pow2(s));
  }

  /** The powers of two that the mantissas are shifted by. */
  lemma SmallShifts()
    ensures Pow2(0) == 1 && Pow2(2) == 4 && Pow2(7) == 0x80
    ensures Pow2(39) == 0x80_0000_0000 && Pow2(40) == 0x100_0000_0000 && Pow2(43) == 0x800_0000_0000
        && Pow2(44) == 0x1000_0000_0000
  {
    assert Pow2(2) == 4;
    Pow2Add(2, 2);
    assert Pow2(3) == 8 && Pow2(4) == 16;
    Pow2Add(4, 3);
    Limbs.Pow2Is32();
    Pow2Add(32, 7);
    Doubling(39);
    Pow2Add(40, 3);
    Pow2Add(40, 4);
  }

  lemma {:induction false} FiveTo643()
    ensures AtMost5(643, 4397330211955, 1451)
  {
    hide AtMost5, AtLeast5, Pow2;
    SmallShifts();
    assert AtMost5(1, 5, 0) by { FiveItself(); }
    SquareUp(1, 5, 0, 25, 0);
    SquareUp(2, 25, 0, 625, 0);
    TimesFive(4, 625, 0);
    SquareUp(5, 3125, 0, 9765625, 0);
    SquareUp(10, 9765625, 0, 745058059693, 7);
    SquareUp(20, 745058059693, 7, 1009741958685, 39);
    SquareUp(40, 1009741958685, 53, 927301537676, 40);
    SquareUp(80, 927301537676, 146, 782063709063, 40);
    SquareUp(160, 782063709063, 332, 556268464637, 40);
    TimesFive(320, 556268464637, 704);
    SquareUp(321, 2781342323185, 704, 879466042391, 43);
    TimesFive(642, 879466042391, 1451);
  }

  lemma {:induction false} FiveTo146()
    ensures AtLeast5(146, 550328410728, 300)
  {
    hide AtMost5, AtLeast5, Pow2;
    SmallShifts();
    assert AtLeast5(1, 5, 0) by { FiveItself(); }
    SquareDown(1, 5, 0, 25, 0);
    SquareDown(2, 25, 0, 625, 0);
    SquareDown(4, 625, 0, 390625, 0);
    TimesFive(8, 390625, 0);
    SquareDown(9, 1953125, 0, 953674316406, 2);
    SquareDown(18, 953674316406, 2, 827180612552, 40);
    SquareDown(36, 827180612552, 44, 622301527784, 40);
    TimesFive(72, 622301527784, 128);
    SquareDown(73, 3111507638920, 128, 550328410728, 44);
  }

  lemma FiveItself()
    ensures AtMost5(1, 5, 0) && AtLeast5(1, 5, 0)
  {
    assert Pow(5, 1) == 5 * Pow(5, 0) && Pow(5, 0) == 1 && Pow2(0) == 1;
  }

  lemma {:induction false} LowerFraction()
    ensures Pow(10, 643) < Pow2(2136)
  {
    hide Pow, Pow2;
    FiveTo643();
    SmallShifts();
    PowMul(2, 5, 643);
    Pow2Add(643, 1493);
    Pow2Add(42, 1451);
    assert Pow2(42) == 0x400_0000_0000 by { Doubling(42); }
    assert AtMost5(643, 4397330211955, 1451);
    MulLess(4397330211955, 0x400_0000_0000, Pow2(1451));
    assert Pow(5, 643) < Pow2(1493);
    assert Pow(2, 643) == Pow2(643) by { PowIsPow2(643); }
    MulLess(Pow(5, 643), Pow2(1493), Pow2(643));
    assert Pow2(643) * Pow(5, 643) == Pow(5, 643) * Pow2(643) && Pow2(643) * Pow2(1493) == Pow2(1493) * Pow2(643);
  }

  lemma PowIsPow2(n: nat)
    ensures Pow(2, n) == Pow2(n)
  {
  }

  lemma {:induction false} UpperFraction()
    ensures Pow2(485) < Pow(10, 146)
  {
    hide Pow, Pow2;
    FiveTo146();
    SmallShifts();
    PowMul(2, 5, 146);
    Pow2Add(146, 339);
    Pow2Add(39, 300);
    assert AtLeast5(146, 550328410728, 300);
    MulLess(0x80_0000_0000, 550328410728, Pow2(300));
    assert Pow2(339) < Pow(5, 146);
    assert Pow(2, 146) == Pow2(146) by { PowIsPow2(146); }
    MulLess(Pow2(339), Pow(5, 146), Pow2(146));
    assert Pow2(146) * Pow(5, 146) == Pow(5, 146) * Pow2(146) && Pow2(146) * Pow2(339) == Pow2(339) * Pow2(146);
  }

  // ---- from the fractions to all exponents ----

  lemma {:induction false} PowLess(x: nat, y: nat, n: nat)
    requires x < y && n > 0
    ensures Pow(x, n) < Pow(y, n)
  {
    if n > 1 {
      PowLess(x, y, n - 1);
      MulAtMost(x, y, Pow(x, n - 1));
      MulLess(Pow(x, n - 1), Pow(y, n - 1), y);
    } else {
      PowSmall(x);
      PowSmall(y);
    }
  }

  /** k / a <= 643 / 2136. */
  lemma {:induction false} BelowLog(k: nat, a: nat)
    requires a > 0 && k * 2136 <= 643 * a
    ensures Pow(10, k) < Pow2(a)
  {
    hide Pow, Pow2;
    LowerFraction();
    PowMono(10, k * 2136, 643 * a);
    PowPow(10, k, 2136);
    PowPow(10, 643, a);
    PowLess(Pow(10, 643), Pow2(2136), a);
    PowIsPow2(2136);
    PowIsPow2(a);
    PowPow(2, 2136, a);
    PowPow(2, a, 2136);
    assert Pow(Pow(10, k), 2136) < Pow(Pow2(a), 2136) by { assert 2136 * a == a * 2136; }
    if Pow(10, k) >= Pow2(a) {
      PowBase(Pow2(a), Pow(10, k), 2136);
    }
  }

  /** j / a >= 146 / 485. */
  lemma {:induction false} AboveLog(j: nat, a: nat)
    requires a > 0 && j * 485 >= 146 * a
    ensures Pow2(a) < Pow(10, j)
  {
    hide Pow, Pow2;
    UpperFraction();
    PowMono(10, 146 * a, j * 485);
    PowPow(10, j, 485);
    PowPow(10, 146, a);
    PowLess(Pow2(485), Pow(10, 146), a);
    PowIsPow2(485);
    PowIsPow2(a);
    PowPow(2, 485, a);
    PowPow(2, a, 485);
    assert Pow(Pow2(a), 485) < Pow(Pow(10, j), 485) by { assert 485 * a == a * 485; }
    if Pow2(a) >= Pow(10, j) {
      PowBase(Pow(10, j), Pow2(a), 485);
    }
  }

  /** No fraction with a small denominator lies between the two. */
  lemma NothingBetween(k: int, a: int)
    requires 0 < a < 2621
    ensures k * 2136 <= 643 * a || k * 485 >= 146 * a
  {
    assert 485 * (k * 2136 - 643 * a) + 2136 * (146 * a - k * 485) == a;
  }

  /** 10^k <= 2^a < 10^(k + 1), for exponents of either sign. */
  lemma {:induction false} Log10Floor(a: int)
    requires -2048 <= a <= 2047
    ensures var k := MulLog2Radix10(a);
            Up(10, k) * Down(2, a) <= Down(10, k) * Up(2, a) && Down(10, k + 1) * Up(2, a) < Up(10, k + 1) * Down(2, a)
  {
    var k := MulLog2Radix10(a);
    assert k * BASE_LOG2 <= a * MULTIPLIER < (k + 1) * BASE_LOG2;
    if a > 0 {
      PositiveExponent(a, k);
    } else if a == 0 {
      assert k == 0;
      ZeroExponent();
    } else {
      NegativeExponent(-a, -k);
    }
  }

  lemma ZeroExponent()
    ensures Up(10, 0) * Down(2, 0) <= Down(10, 0) * Up(2, 0) && Down(10, 1) * Up(2, 0) < Up(10, 1) * Down(2, 0)
  {
    assert Pow(10, 0) == 1 && Pow(2, 0) == 1 && Pow(10, 1) == 10 * Pow(10, 0);
  }

  lemma {:induction false} PositiveExponent(a: nat, k: int)
    requires 0 < a <= 2047 && k * BASE_LOG2 <= a * MULTIPLIER < (k + 1) * BASE_LOG2
    ensures Up(10, k) * Down(2, a) <= Down(10, k) * Up(2, a) && Down(10, k + 1) * Up(2, a) < Up(10, k + 1) * Down(2, a)
  {
    hide Pow, Pow2;
    assert k >= 0;
    NothingBetween(k, a);
    NothingBetween(k + 1, a);
    BelowLog(k, a);
    AboveLog(k + 1, a);
    assert Up(2, a) == Pow2(a) by { PowIsPow2(a); }
  }

  lemma {:induction false} NegativeExponent(a: nat, j: int)
    requires 0 < a <= 2048 && (j - 1) * BASE_LOG2 < a * MULTIPLIER <= j * BASE_LOG2
    ensures Up(10, -j) * Down(2, 0 - a) <= Down(10, -j) * Up(2, 0 - a)
    ensures Down(10, -j + 1) * Up(2, 0 - a) < Up(10, -j + 1) * Down(2, 0 - a)
  {
    hide Pow, Pow2;
    assert j >= 1;
    NothingBetween(j, a);
    NothingBetween(j - 1, a);
    BelowLog(j - 1, a);
    AboveLog(j, a);
    assert Down(2, 0 - a) == Pow2(a) by { PowIsPow2(a); }
    if j == 1 {
      PowSmall(10);
    }
  }

  /** The estimate of the decimal exponent brackets every double. */
  lemma {:induction false} EstimateBrackets(e: int)
    requires -1073 <= e <= 1024
    ensures Brackets(10, 1 + MulLog2Radix10(e - 1), e)
  {
    hide Up, Down, MulLog2Radix10;
    Log10Floor(e - 1);
  }
}
