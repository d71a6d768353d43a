/** `mul_pow_round_to_d` and the packing of its result: the conversion of mantissa and radix exponent to binary64. */
module FloatConversion {
  import opened Rounding
  import opened Reciprocal
  import opened Limbs
  import opened Bignum
  import opened RadixPower
  import opened IntegerRounding
  import opened Doubles
  import opened FloatRounding

  /** (m, e) is the double nearest to the value a radix^f. */
  ghost predicate IsConversion(a: nat, radix: nat, f: int, mode: Mode, m: nat, e: int)
    requires radix > 0
  {
    exists e0: int :: Rounded(Num(a, 0, radix, f), Den(0, radix, f), e0, mode, m, e)
  }

  /** Limbs that a conversion may add: those of the power, and two for the left shift to 53 bits. */
  function ConversionRoom(radix1: nat, f: int, d: nat): nat
    requires d > 0
  {
    PowerRoom(radix1, 0, f, false, 55, d) + 2
  }

  lemma ConversionRoomIs(radix1: nat, radixShift: nat, f: int, d: nat)
    requires d > 0
    ensures ConversionRoom(radix1, f, d) == PowerRoom(radix1, radixShift, f, false, 55, d) + 2
  {
  }

  /** `mul_pow_round_to_d`. */
  method MulPowRoundToD(x: Number, radix1: nat, radixShift: nat, f: int, mode: Mode, d: nat) returns (m: nat, e: int)
    requires x.tab != [] && IsNormal(x.tab) && FitsLimb(radix1, d) && |x.tab| <= x.peak
    modifies x
    ensures Value(old(x.tab)) == 0 ==> m == 0
    ensures radix1 * Pow2(radixShift) > 0
    ensures Value(old(x.tab)) != 0 ==> IsConversion(Value(old(x.tab)), radix1 * Pow2(radixShift), f, mode, m, e)
    ensures x.peak <= old(x.peak) || x.peak <= |old(x.tab)| + ConversionRoom(radix1, f, d)
  {
    hide *;
    ghost var a := Value(x.tab);
    var eOffset;
    ghost var k;
    eOffset, k := MulPow(x, radix1, radixShift, f, false, 55, d);
    DigitsPositive(radix1, d);
    RadixPositive(radix1, radixShift);
    ConversionRoomIs(radix1, radixShift, f, d);
    NonzeroProduct(a, radix1, f, k, Value(x.tab));
    ghost var z := Value(x.tab);
    m, e := RoundToD(x, eOffset, mode);
    if a != 0 {
      ghost var log: nat :| IsLog2(z, log) && Converted(z, log, eOffset, mode, m, e);
      if f >= 0 {
        ConvertedUp(a, radix1, radixShift, f, log, mode, m, e);
      } else if radix1 == 1 {
        ConvertedBinary(a, radixShift, -f, k, log, mode, m, e);
      } else {
        EnoughLog(z, log);
        ConvertedDown(a, radix1, radixShift, -f, k, log, mode, m, e);
      }
    }
  }

  lemma RadixPositive(radix1: nat, rs: nat)
    requires radix1 > 0
    ensures radix1 * Pow2(rs) > 0
  {
    MulLess(0, radix1, Pow2(rs));
  }

  lemma EnoughLog(z: nat, log: nat)
    requires IsLog2(z, log) && z >= Pow2(55)
    ensures log >= 55
  {
    LogBounds(z, log);
    if log < 55 {
      Pow2Mono(log + 1, 55);
    }
  }

  lemma {:induction false} ConvertedUp(a: nat, radix1: nat, rs: nat, f: nat, log: nat, mode: Mode, m: nat, e: int)
    requires radix1 > 0
    requires var z := a * Pow(radix1, f); IsLog2(z, log) && Converted(z, log, 0 - f * rs, mode, m, e)
    ensures radix1 * Pow2(rs) > 0 && IsConversion(a, radix1 * Pow2(rs), f, mode, m, e)
  {
    hide Pow, Pow2, Rounded, Converted, Num, Den, Up, Down;
    var z, s, radix := a * Pow(radix1, f), 0 - f * rs, radix1 * Pow2(rs);
    RadixPositive(radix1, rs);
    ConvertedExact(z, log, s, mode, m, e);
    UpRatio(a, radix1, rs, f);
    RoundedRatio(z * Down(2, s), Up(2, s), Num(a, 0, radix, f), Den(0, radix, f), log + 1 - s, mode, m, e);
  }

  lemma {:induction false} UpRatio(a: nat, radix1: nat, rs: nat, f: nat)
    requires radix1 > 0 && radix1 * Pow2(rs) > 0
    ensures var radix, s := radix1 * Pow2(rs), 0 - f * rs;
            ((a * Pow(radix1, f)) * Down(2, s)) * Den(0, radix, f) == Num(a, 0, radix, f) * Up(2, s)
  {
    hide Pow, Pow2;
    var radix, s, r := radix1 * Pow2(rs), 0 - f * rs, Pow(radix1, f);
    PowOfRadix(radix1, rs, f);
    NoPower();
    PowSmall(2);
    assert Num(a, 0, radix, f) == (a * 1) * (r * Pow2(rs * f)) && Den(0, radix, f) == 1 * 1;
    assert Down(2, s) == Pow2(rs * f) && Up(2, s) == 1 by { UpDown2(s); }
    assert (a * r) * Pow2(rs * f) == a * (r * Pow2(rs * f));
  }

  lemma {:induction false} ConvertedBinary(a: nat, rs: nat, f: nat, k: nat, log: nat, mode: Mode, m: nat, e: int)
    requires k == 0 && f > 0 && Pow(1, f) > 0
    requires var z := Truncated(a * Pow2(k), Pow(1, f)); IsLog2(z, log) && Converted(z, log, f * rs + k, mode, m, e)
    ensures IsConversion(a, 1 * Pow2(rs), 0 - f, mode, m, e)
  {
    hide Pow, Pow2, Rounded, Converted, Num, Den, Up, Down;
    OnePower(f);
    NoPower();
    ExactlyOne(a * 1);
    var s, radix := f * rs, 1 * Pow2(rs);
    ConvertedExact(a, log, s, mode, m, e);
    BinaryRatio(a, rs, f);
    RoundedRatio(a * Down(2, s), Up(2, s), Num(a, 0, radix, 0 - f), Den(0, radix, 0 - f), log + 1 - s, mode, m, e);
  }

  lemma {:induction false} BinaryRatio(a: nat, rs: nat, f: nat)
    ensures var radix, s := 1 * Pow2(rs), f * rs;
            (a * Down(2, s)) * Den(0, radix, 0 - f) == Num(a, 0, radix, 0 - f) * Up(2, s)
  {
    hide Pow, Pow2;
    var radix, s := 1 * Pow2(rs), f * rs;
    PowOfRadix(1, rs, f);
    OnePower(f);
    PowSmall(2);
    NumDown(a, 0, radix, f);
    DenDown(0, radix, f);
    assert Down(2, s) == 1 && Up(2, s) == Pow2(rs * f) by { UpDown2(s); NoPower(); }
  }

  lemma {:induction false} ConvertedDown(a: nat, radix1: nat, rs: nat, f: nat, k: nat, log: nat, mode: Mode, m: nat,
      e: int)
    requires radix1 > 0 && Pow(radix1, f) > 0 && log >= 55
    requires var z := Truncated(a * Pow2(k), Pow(radix1, f));
        IsLog2(z, log) && Converted(z, log, f * rs + k, mode, m, e)
    ensures radix1 * Pow2(rs) > 0 && IsConversion(a, radix1 * Pow2(rs), 0 - f, mode, m, e)
  {
    hide Pow, Pow2, Rounded, Converted, Num, Den, Truncated, IsLog2;
    var s, radix, r := f * rs + k, radix1 * Pow2(rs), Pow(radix1, f);
    RadixPositive(radix1, rs);
    ConvertedSticky(a * Pow2(k), r, log, s, mode, m, e);
    DownRatio(a, radix1, rs, f, k);
    RoundedRatio(a * Pow2(k), r * Pow2(s), Num(a, 0, radix, 0 - f), Den(0, radix, 0 - f), log + 1 - s, mode, m, e);
  }

  lemma {:induction false} DownRatio(a: nat, radix1: nat, rs: nat, f: nat, k: nat)
    requires radix1 > 0 && radix1 * Pow2(rs) > 0
    ensures var radix, s := radix1 * Pow2(rs), f * rs + k;
            (a * Pow2(k)) * Den(0, radix, 0 - f) == Num(a, 0, radix, 0 - f) * (Pow(radix1, f) * Pow2(s))
  {
    hide Pow, Pow2;
    var radix, s, r := radix1 * Pow2(rs), f * rs + k, Pow(radix1, f);
    PowOfRadix(radix1, rs, f);
    PowSmall(2);
    NumDown(a, 0, radix, f);
    DenDown(0, radix, f);
    Pow2Add(rs * f, k);
    assert (a * Pow2(k)) * (1 * (r * Pow2(rs * f))) == ((a * 1) * 1) * (r * (Pow2(rs * f) * Pow2(k))) by {
      DownProduct(a, Pow2(k), r, Pow2(rs * f));
    }
  }

  lemma {:induction false} DownProduct(a: int, k: int, r: int, p: int)
    ensures (a * k) * (1 * (r * p)) == ((a * 1) * 1) * (r * (p * k))
  {
    assert (a * k) * (r * p) == a * (k * (r * p));
    assert k * (r * p) == r * (p * k);
  }

  // ---- the conversion is unique ----

  lemma {:induction false} BelowMono(n: nat, d: nat, k: int, l: int)
    requires d > 0 && BelowPower(n, d, k) && k <= l
    ensures BelowPower(n, d, l)
  {
    hide Pow2, Up, Down;
    UpDown2(k);
    UpDown2(l);
    var kd, ku := if k >= 0 then 0 else -k, if k >= 0 then k else 0;
    var ld, lu := if l >= 0 then 0 else -l, if l >= 0 then l else 0;
    Pow2Mono(ld, kd);
    Pow2Mono(ku, lu);
    MulAtMost(Pow2(ld), Pow2(kd), n);
    MulAtMost(Pow2(ku), Pow2(lu), d);
  }

  lemma {:induction false} ConversionUnique(a: nat, radix: nat, f: int, m: nat, e: int, m1: nat, e1: int)
    requires radix > 0 && m != 0
    requires IsConversion(a, radix, f, NearestEven, m, e) && IsConversion(a, radix, f, NearestEven, m1, e1)
    ensures m1 == m && e1 == e
  {
    hide Pow, Pow2, Num, Den, RoundDiv, BelowPower, Units;
    var n, d := Num(a, 0, radix, f), Den(0, radix, f);
    var x: int :| Rounded(n, d, x, NearestEven, m, e);
    var y: int :| Rounded(n, d, y, NearestEven, m1, e1);
    if x < y {
      BelowMono(n, d, x, y - 1);
    } else if y < x {
      BelowMono(n, d, y, x - 1);
    }
    assert x == y;
    MantissaUnique(Units(n, d, Unit(x), NearestEven) * Pow2(53 - (x - Unit(x))), x, m, e, m1, e1);
  }

  lemma MantissaUnique(v: nat, x: int, m: nat, e: int, m1: nat, e1: int)
    requires HIDDEN_BIT <= m < 2 * HIDDEN_BIT && HIDDEN_BIT <= m1 < 2 * HIDDEN_BIT
    requires (e == x && m == v) || (e == x + 1 && 2 * m == v)
    requires (e1 == x && m1 == v) || (e1 == x + 1 && 2 * m1 == v)
    ensures m == m1 && e == e1
  {
  }

  // ---- the bits of a double ----

  const INFINITY_BITS: nat := 0x7ff * HIDDEN_BIT

  /** A finite nonzero double m 2^(e - 53) as the conversion leaves it: normalized, with the low bits that a subnormal
      number does not have equal to zero. */
  predicate IsFinite(m: nat, e: int) {
    && HIDDEN_BIT <= m < 2 * HIDDEN_BIT && -1073 <= e <= 1024
    && (e < MIN_EXPONENT ==> m % Pow2(MIN_EXPONENT - e) == 0)
  }

  /** The end of `js_atod`: exponent and mantissa packed, without the sign. */
  function Pack(m: nat, e: int): nat {
    if m == 0 then 0
    else if e > 1024 then INFINITY_BITS
    else if e < -1073 then 0
    else if e < MIN_EXPONENT then m / Pow2(MIN_EXPONENT - e)
    else (e + 1022) * HIDDEN_BIT + m % HIDDEN_BIT
  }

  /** The start of `js_dtoa`: the normalized mantissa and the exponent of finite nonzero bits. */
  function Unpack(bits: nat): (nat, int) {
    var e, m := bits / HIDDEN_BIT, bits % HIDDEN_BIT;
    if e == 0 then
      // shift the highest bit to position 52
      var l := 53 - BitLength(m);
      if l < 0 then (m, 0) else (m * Pow2(l), 1 - l - 1022)
    else (m + HIDDEN_BIT, e - 1022)
  }

  /** Unpacking undoes packing. */
  lemma {:induction false} UnpackPack(m: nat, e: int)
    requires IsFinite(m, e)
    ensures 0 < Pack(m, e) < INFINITY_BITS && Unpack(Pack(m, e)) == (m, e)
  {
    hide Pow2, BitLength;
    if e < MIN_EXPONENT {
      var s := MIN_EXPONENT - e;
      var q := m / Pow2(s);
      Subnormal(m, s);
    } else {
      DivIs(Pack(m, e), HIDDEN_BIT, e + 1022, m - HIDDEN_BIT);
    }
  }

  lemma {:induction false} Subnormal(m: nat, s: nat)
    requires HIDDEN_BIT <= m < 2 * HIDDEN_BIT && 0 < s <= 52 && m % Pow2(s) == 0
    ensures var q := m / Pow2(s); 0 < q < HIDDEN_BIT && BitLength(q) == 53 - s && q * Pow2(s) == m
  {
    hide Pow2, BitLength;
    var q, r := Rounding.Divide(m, Pow2(s));
    DivIs(m, Pow2(s), q, r);
    Pow2Is52();
    Pow2Add(52 - s, s);
    Pow2Add(53 - s, s);
    MulCompare(Pow2(52 - s), q, Pow2(s));
    MulCompare(q, Pow2(53 - s), Pow2(s));
    assert Pow2(52 - s) <= q < Pow2(53 - s);
    Pow2Mono(53 - s, 52);
    BitLengthIs(q);
    LogUnique(q, BitLength(q) - 1, 52 - s);
  }

  lemma {:induction false} LogUnique(n: nat, a: nat, b: nat)
    requires IsLog2(n, a) && IsLog2(n, b)
    ensures a == b
  {
    if a < b {
      Pow2Mono(a + 1, b);
    } else if b < a {
      Pow2Mono(b + 1, a);
    }
  }

  /** Packing undoes unpacking. */
  lemma {:induction false} PackUnpack(bits: nat)
    requires 0 < bits < INFINITY_BITS
    ensures var (m, e) := Unpack(bits); IsFinite(m, e) && Pack(m, e) == bits
  {
    hide Pow2, BitLength;
    var e, m := bits / HIDDEN_BIT, bits % HIDDEN_BIT;
    assert bits == e * HIDDEN_BIT + m;
    if e == 0 {
      BitLengthIs(m);
      Pow2Is52();
      var b := BitLength(m);
      if b > 52 {
        Pow2Mono(52, b - 1);
      }
      var l := 53 - b;
      Pow2Add(b - 1, l);
      Pow2Add(b, l);
      MulAtMost(Pow2(b - 1), m, Pow2(l));
      MulLess(m, Pow2(b), Pow2(l));
      DivIs(m * Pow2(l), Pow2(l), m, 0);
    }
  }

  /** Rounding leaves the low bits of a subnormal result zero, and a result below the least subnormal number is zero. */
  lemma {:induction false} RoundedIsFinite(n: nat, d: nat, e0: int, mode: Mode, m: nat, e: int)
    requires d > 0 && Rounded(n, d, e0, mode, m, e) && m != 0
    ensures e >= -1073 && (e <= 1024 ==> IsFinite(m, e))
  {
    hide Pow, Pow2, RoundDiv, IsExponent;
    var u := Unit(e0);
    var q := Units(n, d, u, mode);
    assert q > 0;
    if e0 < MIN_EXPONENT {
      var k := MIN_EXPONENT - e0;
      assert 53 - (e0 - u) == k;
      SubnormalBits(q, k, m, e0, e);
    }
  }

  lemma {:induction false} SubnormalBits(q: nat, k: nat, m: nat, e0: int, e: int)
    requires q > 0 && k > 0 && e0 == MIN_EXPONENT - k && HIDDEN_BIT <= m < 2 * HIDDEN_BIT
    requires (e == e0 && m == q * Pow2(k)) || (e == e0 + 1 && 2 * m == q * Pow2(k))
    ensures e >= -1073 && (e < MIN_EXPONENT ==> m % Pow2(MIN_EXPONENT - e) == 0)
  {
    hide Pow2;
    Pow2Is52();
    Doubling(k - 1);
    if e == e0 {
      assert k <= 52 by {
        if k > 52 {
          Pow2Mono(53, k);
          MulAtMost(1, q, Pow2(k));
        }
      }
      DivIs(m, Pow2(k), q, 0);
    } else {
      assert m == q * Pow2(k - 1);
      assert k - 1 <= 52 by {
        if k - 1 > 52 {
          Pow2Mono(53, k - 1);
          MulAtMost(1, q, Pow2(k - 1));
        }
      }
      DivIs(m, Pow2(k - 1), q, 0);
    }
  }
}
