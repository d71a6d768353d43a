/** Multiplication of a number by a power of the radix, exactly or truncated with a sticky bit, and the
    rounding of the result to an integer (`pow_ui`, `pow_ui_inv`, `mul_pow`, `mul_pow_round`). */
module RadixPower {
  import opened Rounding
  import opened Reciprocal
  import opened Limbs
  import opened Bignum

  // ---- small powers ----

  lemma {:induction false} HalfBits(b: nat, i: nat)
    ensures ShiftRight(b, i) == 2 * ShiftRight(b, i + 1) + Bit(b, i)
  {
    hide Pow2;
    Doubling(i);
    var p := Pow2(i);
    var q, r := Rounding.Divide(b, p);
    DivIs(b, p, q, r);
    DivIs(b, 2 * p, q / 2, (q % 2) * p + r);
  }

  /** `pow_ui`, without the table of powers of 5: square and multiply on the bits of the exponent. */
  method PowUi(a: Limb, b: nat) returns (r: nat)
    requires a > 0 && Pow(a, b) < WIDE
    ensures r == Pow(a, b)
  {
    hide *;
    PowSmall(a);
    if b == 0 {
      return 1;
    }
    if b == 1 {
      return a;
    }
    TopQuotient(b);
    r := a;
    var i := BitLength(b) - 2;
    while i >= 0
      invariant -1 <= i && r == Pow(a, ShiftRight(b, i + 1))
    {
      HalfBits(b, i);
      BitIsBinary(b, i);
      PowSquare(a, ShiftRight(b, i + 1));
      PowQuotient(a, b, i);
      r := Wrapped(r * r);
      if Bit(b, i) == 1 {
        r := Wrapped(r * a);
      }
      i := i - 1;
    }
    NoQuotient(b);
  }

  /** 64-bit arithmetic. */
  function Wrapped(x: nat): nat { x % WIDE }

  lemma PowSmall(a: nat)
    ensures Pow(a, 0) == 1 && Pow(a, 1) == a
  {
  }

  lemma NoQuotient(b: nat)
    ensures ShiftRight(b, 0) == b
  {
    NoShiftRight(b);
  }

  lemma TopQuotient(b: nat)
    requires b > 1
    ensures BitLength(b) >= 2 && ShiftRight(b, BitLength(b) - 1) == 1
  {
    BitLengthIs(b);
    var k := BitLength(b) - 1;
    Doubling(k);
    DivIs(b, Pow2(k), 1, b - Pow2(k));
    assert BitLength(b) == 1 + BitLength(b / 2) && BitLength(b / 2) >= 1;
  }

  lemma PowSquare(a: nat, k: nat)
    ensures Pow(a, k) * Pow(a, k) == Pow(a, 2 * k) && Pow(a, 2 * k) * a == Pow(a, 2 * k + 1)
  {
    PowAdd(a, k, k);
  }

  /** No intermediate power exceeds the result. */
  lemma {:induction false} PowQuotient(a: nat, b: nat, i: nat)
    requires a > 0 && Pow(a, b) < WIDE
    ensures Wrapped(Pow(a, 2 * ShiftRight(b, i + 1))) == Pow(a, 2 * ShiftRight(b, i + 1))
    ensures Wrapped(Pow(a, ShiftRight(b, i))) == Pow(a, ShiftRight(b, i))
  {
    hide Pow2, Bit, Pow, ShiftRight;
    HalfBits(b, i);
    BitIsBinary(b, i);
    assert ShiftRight(b, i) <= b by { QuotientAtMost(b, i); }
    PowMono(a, ShiftRight(b, i), b);
    PowMono(a, 2 * ShiftRight(b, i + 1), b);
  }

  lemma QuotientAtMost(b: nat, i: nat)
    ensures ShiftRight(b, i) <= b
  {
    var q, r := Rounding.Divide(b, Pow2(i));
    DivIs(b, Pow2(i), q, r);
    MulAtMost(1, Pow2(i), q);
  }

  /** `pow_ui_inv`: a power shifted up to a full limb, with its reciprocal. */
  method PowUiInv(a: Limb, b: nat) returns (r: Limb, inverse: nat, shift: nat)
    requires a > 0 && Pow(a, b) < BASE
    ensures shift < 32 && r == Pow(a, b) * Pow2(shift) && r >= HALF && inverse == ReciprocalOf(r)
  {
    hide *;
    Constants();
    var p := PowUi(a, b);
    PowNonzero(a, b);
    Normalized(p);
    shift := 32 - BitLength(p);
    r := p * Pow2(shift);
    inverse := ReciprocalOf(r);
  }

  lemma PowNonzero(a: nat, b: nat)
    requires a > 0
    ensures Pow(a, b) > 0
  {
  }

  lemma {:induction false} Normalized(p: Limb)
    requires p > 0
    ensures BitLength(p) <= 32 && 32 - BitLength(p) < 32 && HALF <= p * Pow2(32 - BitLength(p)) < BASE
  {
    hide Pow2, BitLength;
    BitLengthIs(p);
    BitLengthOfLimb(p);
    var n := BitLength(p);
    Pow2Add(n, 32 - n);
    Pow2Add(n - 1, 32 - n);
    Pow2Is32();
    Doubling(31);
    MulAtMost(Pow2(n - 1), p, Pow2(32 - n));
    MulLess(p, Pow2(n), Pow2(32 - n));
  }

  function Min(a: int, b: int): int { if a < b then a else b }

  function Max(a: int, b: int): int { if a < b then b else a }

  // ---- mul_pow ----

  /** Digits that one limb holds: `digits_per_limb_table`. */
  predicate FitsLimb(radix1: nat, d: nat) { 0 < radix1 < BASE && d > 0 && Pow(radix1, d) < BASE }

  /** Number of limb-sized factors in a power: `(f + d - 1) / d`. */
  function Chunks(f: nat, d: nat): nat
    requires d > 0
  {
    (f + d - 1) / d
  }

  /** Limbs that a multiplication by a power of the radix may add. */
  function PowerRoom(radix1: nat, radixShift: nat, f: int, isInt: bool, e: int, d: nat): nat
    requires d > 0
  {
    if radix1 == 1 then 0
    else if f >= 0 then Chunks(f, d)
    else DivisionRoom(-f, isInt, e, -f * radixShift, d)
  }

  function DivisionRoom(power: nat, isInt: bool, e: int, offset: int, d: nat): nat
    requires d > 0
  {
    Chunks(power, d) + ExtraBits(isInt, e, offset + 32 * Chunks(power, d)) / 32 + 1
  }

  /** Extra bits of a division: at most e + 1 for a float, two beyond the point for an integer. */
  function ExtraBits(isInt: bool, e: int, offset: int): nat {
    if isInt then Max(2 + e - offset, 0) else Max(e + 1, 0)
  }

  /** The exponent offset that a multiplication by a negative power adds: whole limbs, and extra bits so that enough
      of the quotient remains to be rounded. */
  method MulPow(x: Number, radix1: nat, radixShift: nat, f: int, isInt: bool, e: int, d: nat)
      returns (eOffset: int, ghost k: nat)
    requires x.tab != [] && IsNormal(x.tab) && FitsLimb(radix1, d) && |x.tab| <= x.peak
    modifies x
    ensures x.tab != []
    ensures f >= 0 || radix1 == 1 ==> k == 0 && eOffset == -f * radixShift && IsNormal(x.tab)
    ensures f >= 0 ==> Value(x.tab) == Value(old(x.tab)) * Pow(radix1, f)
    ensures f < 0 ==> eOffset == -f * radixShift + k
    ensures f < 0 ==> Value(x.tab) == Truncated(Value(old(x.tab)) * Pow2(k), Pow(radix1, -f))
    ensures f < 0 && radix1 != 1 && isInt ==> eOffset - e >= 2
    ensures f < 0 && radix1 != 1 && !isInt && Value(old(x.tab)) != 0 && e >= 0 ==> Value(x.tab) >= Pow2(e)
    ensures f < 0 && radix1 != 1 ==> IsNormal(x.tab)
    ensures |x.tab| <= x.peak && |x.tab| <= |old(x.tab)| + PowerRoom(radix1, radixShift, f, isInt, e, d)
    ensures x.peak <= old(x.peak) || x.peak <= |old(x.tab)| + PowerRoom(radix1, radixShift, f, isInt, e, d)
  {
    hide *;
    ghost var n := Value(x.tab);
    eOffset, k := -f * radixShift, 0;
    NoPower();
    DigitsPositive(radix1, d);
    RoomIs(radix1, radixShift, f, isInt, e, d);
    if radix1 == 1 {
      PowOfOne(f);
      if f < 0 {
        ExactlyOne(n * Pow2(0));
      }
    } else if f >= 0 {
      MulUp(x, radix1, f, d);
    } else {
      eOffset, k := DivDown(x, radix1, -f, isInt, e, eOffset, d);
    }
  }

  lemma RoomIs(radix1: nat, radixShift: nat, f: int, isInt: bool, e: int, d: nat)
    requires d > 0
    ensures f >= 0 && radix1 != 1 ==> PowerRoom(radix1, radixShift, f, isInt, e, d) == Chunks(f, d)
    ensures f < 0 && radix1 != 1 ==>
        PowerRoom(radix1, radixShift, f, isInt, e, d) == DivisionRoom(-f, isInt, e, -f * radixShift, d)
  {
  }

  /** n / d truncated, with the sticky bit. */
  function Truncated(n: nat, d: nat): nat
    requires d > 0
  {
    Sticky(n / d, n % d != 0)
  }

  lemma PowOfOne(f: int)
    ensures f >= 0 ==> Pow(1, f) == 1
    ensures f < 0 ==> Pow(1, -f) == 1
  {
    OnePower(if f >= 0 then f else -f);
  }

  lemma {:induction false} OnePower(n: nat)
    ensures Pow(1, n) == 1
  {
    if n > 0 {
      OnePower(n - 1);
    }
  }

  lemma ExactlyOne(n: nat)
    ensures Truncated(n, 1) == n
  {
  }

  /** Multiply by the power, as many digits at a time as fit a limb. */
  method MulUp(x: Number, radix1: nat, power: nat, d: nat)
    requires x.tab != [] && IsNormal(x.tab) && FitsLimb(radix1, d) && |x.tab| <= x.peak
    modifies x
    ensures x.tab != [] && IsNormal(x.tab) && Value(x.tab) == Value(old(x.tab)) * Pow(radix1, power)
    ensures |x.tab| <= x.peak && |x.tab| <= |old(x.tab)| + Chunks(power, d)
    ensures x.peak <= old(x.peak) || x.peak <= |old(x.tab)| + Chunks(power, d)
  {
    hide *;
    DigitsPositive(radix1, d);
    ghost var n, room := Value(x.tab), |x.tab| + Chunks(power, d);
    var f := power;
    while f != 0
      invariant 0 <= f <= power && x.tab != [] && IsNormal(x.tab)
      invariant |x.tab| <= x.peak && |x.tab| + Chunks(f, d) <= room && (x.peak <= old(x.peak) || x.peak <= room)
      invariant Value(x.tab) * Pow(radix1, f) == n * Pow(radix1, power)
      decreases f
    {
      var m := Min(f, d);
      SmallPower(radix1, d, m, f);
      var b := PowUi(radix1, m);
      ghost var was := x.tab;
      var h := x.Mul1(b, 0);
      MulNormal(was, x.tab, h, b);
      AppendTop(x.tab, h);
      ChunkLess(f, d, m);
      if h != 0 {
        x.Grow(x.tab + [h]);
      }
      MulChunk(Value(was), Value(x.tab), radix1, m, f);
      f := f - m;
    }
    AnyPowerZero(radix1, Value(x.tab));
  }

  lemma ChunkLess(f: nat, d: nat, m: int)
    requires f > 0 && d > 0 && m == Min(f, d)
    ensures 0 <= m <= f && Chunks(f - m, d) + 1 == Chunks(f, d)
  {
    var q, r := Rounding.Divide(f + d - 1, d);
    DivIs(f + d - 1, d, q, r);
    if f <= d {
      DivIs(f + d - 1, d, 1, f - 1);
      DivIs(d - 1, d, 0, d - 1);
    } else {
      assert (q - 1) * d == q * d - d;
      assert q >= 1 by { if q < 1 { MulAtMost(q, 0, d); } }
      DivIs(f - d + d - 1, d, q - 1, r);
    }
  }

  lemma AnyPowerZero(b: nat, v: nat)
    ensures v * Pow(b, 0) == v
  {
  }

  lemma {:induction false} SmallPower(radix1: nat, d: nat, m: int, f: nat)
    requires FitsLimb(radix1, d) && m == Min(f, d) && f > 0
    ensures 0 < m <= f && m <= d && 0 < radix1 < BASE && 0 < Pow(radix1, m) < BASE < WIDE
  {
    PowMono(radix1, m, d);
  }

  lemma {:induction false} MulChunk(was: nat, now: nat, radix1: nat, m: nat, f: nat)
    requires m <= f && now == was * Pow(radix1, m)
    ensures now * Pow(radix1, f - m) == was * Pow(radix1, f)
  {
    hide Pow;
    PowAdd(radix1, m, f - m);
    MulAssociates(was, Pow(radix1, m), Pow(radix1, f - m));
  }

  /** The product of a number in normal form by a positive limb. */
  lemma {:induction false} MulNormal(was: seq<Limb>, s: seq<Limb>, h: Limb, b: Limb)
    requires was != [] && IsNormal(was) && |s| == |was| && Value(s) + h * Weight(|s|) == Value(was) * b + 0 && b > 0
    ensures if h == 0 then IsNormal(s) else IsNormal(s + [h])
  {
    hide Value, Weight;
    if h == 0 && |s| > 1 {
      ValueTop(was);
      TopIsZero(s);
      MulAtMost(1, b, Value(was));
    }
  }

  /** Shift up, then divide by the power, as many digits at a time as fit a limb; the remainders are collected in a
      sticky bit. */
  method DivDown(x: Number, radix1: nat, power: nat, isInt: bool, e: int, offset: int, d: nat)
      returns (eOffset: int, ghost k: nat)
    requires x.tab != [] && IsNormal(x.tab) && FitsLimb(radix1, d) && power > 0 && |x.tab| <= x.peak
    modifies x
    ensures x.tab != [] && IsNormal(x.tab) && eOffset == offset + k
    ensures |x.tab| <= x.peak && |x.tab| <= |old(x.tab)| + DivisionRoom(power, isInt, e, offset, d)
    ensures x.peak <= old(x.peak) || x.peak <= |old(x.tab)| + DivisionRoom(power, isInt, e, offset, d)
    ensures Value(x.tab) == Truncated(Value(old(x.tab)) * Pow2(k), Pow(radix1, power))
    ensures isInt ==> eOffset - e >= 2
    ensures !isInt && Value(old(x.tab)) != 0 && e >= 0 ==> Value(x.tab) >= Pow2(e)
  {
    hide *;
    ghost var n := Value(x.tab);
    DigitsPositive(radix1, d);
    var l := Chunks(power, d);
    LimbsNeeded(power, d);
    eOffset := offset + 32 * l;
    var extra;
    if !isInt {
      var log := FloorLog2(x);
      extra := Max(e - log, 0);
      MaxIs(e - log, 0);
      MaxIs(e + 1, 0);
      if n != 0 && e >= 0 {
        EnoughBits(n, log, e, extra, l, radix1, power, d);
      }
    } else {
      extra := Max(2 + e - eOffset, 0);
      MaxIs(2 + e - eOffset, 0);
    }
    ExtraIs(isInt, e, eOffset);
    DivisionRoomIs(power, isInt, e, offset, d);
    WholeLimbs(l, extra, ExtraBits(isInt, e, eOffset));
    eOffset := eOffset + extra;
    k := 32 * l + extra;
    ShiftedIs(n, -(32 * l + extra), TowardZero);
    ShrRound(x, -(32 * l + extra), TowardZero);
    DivideBy(x, radix1, power, d);
    if !isInt && n != 0 && e >= 0 {
      TruncatedAtLeast(n * Pow2(k), Pow(radix1, power), Pow2(e));
    }
  }

  lemma DigitsPositive(radix1: nat, d: nat)
    requires FitsLimb(radix1, d)
    ensures d > 0 && radix1 > 0
  {
  }

  lemma MaxIs(a: int, b: int)
    ensures Max(a, b) >= a && Max(a, b) >= b && (Max(a, b) == a || Max(a, b) == b)
  {
  }

  lemma ExtraIs(isInt: bool, e: int, offset: int)
    ensures ExtraBits(isInt, e, offset) == if isInt then Max(2 + e - offset, 0) else Max(e + 1, 0)
  {
  }

  lemma DivisionRoomIs(power: nat, isInt: bool, e: int, offset: int, d: nat)
    requires d > 0
    ensures DivisionRoom(power, isInt, e, offset, d)
        == Chunks(power, d) + ExtraBits(isInt, e, offset + 32 * Chunks(power, d)) / 32 + 1
  {
  }

  lemma WholeLimbs(l: nat, extra: nat, most: nat)
    requires extra <= most
    ensures (32 * l + extra) / 32 <= l + most / 32
  {
  }

  lemma LimbsNeeded(power: nat, d: nat)
    requires d > 0
    ensures power <= d * Chunks(power, d)
  {
    var q, r := Rounding.Divide(power + d - 1, d);
    DivIs(power + d - 1, d, q, r);
  }

  /** The shifted number is at least 2^e times the divisor. */
  lemma {:induction false} EnoughBits(n: nat, log: nat, e: nat, extra: nat, l: nat, radix1: nat, power: nat, d: nat)
    requires IsLog2(n, log) && extra >= e - log && FitsLimb(radix1, d) && power <= d * l
    ensures Pow(radix1, power) > 0 && n * Pow2(32 * l + extra) >= Pow2(e) * Pow(radix1, power)
  {
    hide Pow, Pow2;
    assert Pow2(log) <= n && 0 < radix1 by { LogBounds(n, log); FitsLimbIs(radix1, d); }
    PowNonzero(radix1, power);
    PowerBelow(radix1, power, d, l);
    Pow2Add(log, 32 * l + extra);
    Pow2Add(log + extra, 32 * l);
    Pow2Mono(e, log + extra);
    var a, b := Pow2(log + extra), Pow2(32 * l);
    MulAtMost(Pow2(log), n, Pow2(32 * l + extra));
    MulAtMost(Pow2(e), a, b);
    MulAtMost(Pow(radix1, power), b, Pow2(e));
    assert log + extra + 32 * l == log + (32 * l + extra);
  }

  lemma LogBounds(n: nat, log: nat)
    requires IsLog2(n, log)
    ensures Pow2(log) <= n < Pow2(log + 1)
  {
  }

  lemma FitsLimbIs(radix1: nat, d: nat)
    requires FitsLimb(radix1, d)
    ensures 0 < radix1 && d > 0 && Pow(radix1, d) < BASE
  {
  }

  lemma {:induction false} PowerBelow(radix1: nat, power: nat, d: nat, l: nat)
    requires FitsLimb(radix1, d) && power <= d * l
    ensures Pow(radix1, power) <= Pow2(32 * l)
  {
    hide Pow, Pow2;
    FitsLimbIs(radix1, d);
    PowMono(radix1, power, d * l);
    PowPow(radix1, d, l);
    WeightIsPow2(l);
    PowBase(Pow(radix1, d), BASE, l);
    assert Weight(l) == Pow(BASE, l) by { WeightIs(l); }
  }

  lemma WeightIs(l: nat)
    ensures Weight(l) == Pow(BASE, l)
  {
  }

  lemma {:induction false} PowBase(a: nat, b: nat, n: nat)
    requires a <= b
    ensures Pow(a, n) <= Pow(b, n)
  {
    if n > 0 {
      PowBase(a, b, n - 1);
      MulAtMost(a, b, Pow(a, n - 1));
      MulAtMost(Pow(a, n - 1), Pow(b, n - 1), b);
    }
  }

  lemma {:induction false} TruncatedAtLeast(n: nat, d: nat, p: nat)
    requires d > 0 && n >= p * d
    ensures Truncated(n, d) >= p
  {
    var q, r := Rounding.Divide(n, d);
    DivIs(n, d, q, r);
    if q < p {
      MulAtMost(q + 1, p, d);
    }
  }

  /** Divide by radix1^power; the low bit of the quotient is set when any remainder is left. */
  method DivideBy(x: Number, radix1: nat, power: nat, d: nat)
    requires x.tab != [] && FitsLimb(radix1, d) && power > 0
    modifies x`tab
    ensures x.tab != [] && IsNormal(x.tab) && Pow(radix1, power) > 0
    ensures Value(x.tab) == Truncated(Value(old(x.tab)), Pow(radix1, power)) && |x.tab| <= |old(x.tab)|
  {
    hide *;
    ghost var n := Value(x.tab);
    FitsLimbIs(radix1, d);
    PowNonzero(radix1, power);
    var f, inexact := power, false;
    DividedStart(n, radix1);
    while f != 0
      invariant 0 <= f <= power && x.tab != [] && (f < power ==> IsNormal(x.tab)) && |x.tab| <= |old(x.tab)|
      invariant Divided(n, radix1, power - f, Value(x.tab), inexact)
      decreases f
    {
      var m := Min(f, d);
      SmallPower(radix1, d, m, f);
      var b, inverse, shift := PowUiInv(radix1, m);
      ghost var was := Value(x.tab);
      var r := x.Div1Norm(b, 0, inverse, shift, Pow(radix1, m));
      DividedStep(n, radix1, power - f, was, inexact, m, Value(x.tab), r, Weight(|x.tab|));
      inexact := inexact || r != 0;
      Renorm(x);
      f := f - m;
    }
    DividedEnd(n, radix1, power, Value(x.tab), inexact);
    SetLowBit(x, inexact);
  }

  /** q is n / radix1^g truncated, and `inexact` says whether something was cut off. */
  ghost predicate Divided(n: nat, radix1: nat, g: nat, q: nat, inexact: bool) {
    Pow(radix1, g) > 0 && q == n / Pow(radix1, g) && inexact == (n % Pow(radix1, g) != 0)
  }

  lemma DividedStart(n: nat, radix1: nat)
    ensures Divided(n, radix1, 0, n, false)
  {
    assert Pow(radix1, 0) == 1;
  }

  lemma {:induction false} DividedStep(n: nat, radix1: nat, g: nat, q: nat, inexact: bool, m: nat, q1: nat, r: nat,
      w: nat)
    requires Divided(n, radix1, g, q, inexact) && q1 * Pow(radix1, m) + r == 0 * w + q && r < Pow(radix1, m)
    ensures Divided(n, radix1, g + m, q1, inexact || r != 0)
  {
    hide Pow;
    PowAdd(radix1, g, m);
    DivIs(q, Pow(radix1, m), q1, r);
    TruncateTwice(n, Pow(radix1, g), Pow(radix1, m));
  }

  lemma DividedEnd(n: nat, radix1: nat, power: nat, q: nat, inexact: bool)
    requires Divided(n, radix1, power, q, inexact)
    ensures Pow(radix1, power) > 0 && Truncated(n, Pow(radix1, power)) == Sticky(q, inexact)
  {
  }

  /** `a->tab[0] |= (rem != 0)`. */
  method SetLowBit(x: Number, inexact: bool)
    requires x.tab != [] && IsNormal(x.tab)
    modifies x`tab
    ensures x.tab != [] && IsNormal(x.tab) && Value(x.tab) == Sticky(Value(old(x.tab)), inexact)
        && |x.tab| == |old(x.tab)|
  {
    hide Value;
    LowBitSet(x.tab);
    if inexact && x.tab[0] % 2 == 0 {
      x.tab := x.tab[0 := x.tab[0] + 1];
    }
  }

  lemma LowBitSet(s: seq<Limb>)
    requires s != []
    ensures s[0] % 2 == 0 ==> s[0] + 1 < BASE
    ensures Value(s) % 2 == s[0] % 2
    ensures s[0] % 2 == 0 ==> Value(s[0 := s[0] + 1]) == Value(s) + 1
  {
    hide Value;
    assert s[0..] == s;
    ValueHead(s, 0);
    assert BASE * Value(s[1..]) == 2 * (HALF * Value(s[1..]));
    if s[0] % 2 == 0 {
      var t := s[0 := s[0] + 1];
      assert t[0..] == t && t[1..] == s[1..];
      ValueHead(t, 0);
    }
  }
}
