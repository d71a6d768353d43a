/** `mul_pow_round`: the integer nearest to m 2^e radix^f, for exponents of either sign. */
module IntegerRounding {
  import opened Rounding
  import opened Reciprocal
  import opened Limbs
  import opened Bignum
  import opened RadixPower

  /** b^k for k >= 0, else 1. */
  function Up(b: nat, k: int): (r: nat)
    ensures b > 0 ==> r > 0
  {
    if k >= 0 then Pow(b, k) else 1
  }

  /** b^-k for k < 0, else 1: Up(b, k) / Down(b, k) = b^k. */
  function Down(b: nat, k: int): (r: nat)
    ensures b > 0 ==> r > 0
  {
    if k >= 0 then 1 else Pow(b, -k)
  }

  lemma UpDown2(k: int)
    ensures Up(2, k) == Pow2(if k >= 0 then k else 0) && Down(2, k) == Pow2(if k >= 0 then 0 else -k)
  {
    assert Pow2(0) == 1;
  }

  /** m 2^e radix^f as a fraction. */
  function Num(m: nat, e: int, radix: nat, f: int): nat { m * Up(2, e) * Up(radix, f) }

  function Den(e: int, radix: nat, f: int): (r: nat)
    requires radix > 0
    ensures r > 0
  {
    MulLess(0, Down(2, e), Down(radix, f));
    Down(2, e) * Down(radix, f)
  }

  lemma {:induction false} PowersAgree(a: nat, b: nat, c: nat, d: nat)
    requires a + b == c + d
    ensures Pow2(a) * Pow2(b) == Pow2(c) * Pow2(d)
  {
    Pow2Add(a, b);
    Pow2Add(c, d);
  }

  /** radix^n = radix1^n 2^(radixShift n). */
  lemma {:induction false} PowOfRadix(radix1: nat, radixShift: nat, n: nat)
    ensures Pow(radix1 * Pow2(radixShift), n) == Pow(radix1, n) * Pow2(radixShift * n)
  {
    PowMul(radix1, Pow2(radixShift), n);
    PowPow(2, radixShift, n);
  }

  /** Shifting with rounding is rounding of any fraction of the same value. */
  lemma {:induction false} ShiftedRatio(n: nat, shift: int, num: nat, den: nat, mode: Mode)
    requires den > 0 && (n * Down(2, shift)) * den == num * Up(2, shift)
    ensures Shifted(n, shift, mode) == RoundDiv(num, den, mode)
  {
    hide Pow, RoundDiv;
    if shift >= 0 {
      assert Down(2, shift) == 1 && Up(2, shift) == Pow2(shift) && n * 1 == n;
      RoundRatio(n, Pow2(shift), num, den, mode);
    } else {
      assert Down(2, shift) == Pow2(-shift) && num * Up(2, shift) == num * 1;
      RoundRatio(n * Pow2(-shift), 1, num, den, mode);
      RoundByOne(n * Pow2(-shift), mode);
    }
  }

  lemma RoundByOne(n: nat, mode: Mode)
    ensures RoundDiv(n, 1, mode) == n
  {
  }

  // ---- the three cases of mul_pow ----

  /** No division: n = m radix1^f. */
  lemma {:induction false} ExactCase(m: nat, e: int, radix1: nat, rs: nat, f: nat, mode: Mode)
    requires radix1 > 0
    ensures var radix := radix1 * Pow2(rs);
            radix > 0 && Shifted(m * Pow(radix1, f), -e - f * rs, mode)
              == RoundDiv(Num(m, e, radix, f), Den(e, radix, f), mode)
  {
    hide Pow, Pow2, RoundDiv, Shifted;
    var radix, s, r := radix1 * Pow2(rs), -e - f * rs, Pow(radix1, f);
    assert radix > 0 by { MulLess(0, radix1, Pow2(rs)); }
    PowOfRadix(radix1, rs, f);
    var a, b, c, d := Down(2, s), Down(2, e), Up(2, e), Up(2, s);
    assert a * b == (c * Pow2(rs * f)) * d by { ExactExponents(e, rs, f, s); }
    assert Num(m, e, radix, f) == (m * c) * (r * Pow2(rs * f)) && Den(e, radix, f) == b * 1;
    ExactProduct(m, r, a, b, c, Pow2(rs * f), d);
    ShiftedRatio(m * r, s, Num(m, e, radix, f), Den(e, radix, f), mode);
  }

  lemma {:induction false} ExactExponents(e: int, rs: nat, f: nat, s: int)
    requires s == -e - f * rs
    ensures Down(2, s) * Down(2, e) == (Up(2, e) * Pow2(rs * f)) * Up(2, s)
  {
    hide Pow2, Up, Down;
    UpDown2(e);
    UpDown2(s);
    var up, sp := if e >= 0 then e else 0, if s >= 0 then s else 0;
    Pow2Add(up, rs * f);
    PowersAgree(if s >= 0 then 0 else -s, if e >= 0 then 0 else -e, up + rs * f, sp);
  }

  lemma {:induction false} ExactProduct(m: int, r: int, a: int, b: int, c: int, p: int, d: int)
    requires a * b == (c * p) * d
    ensures ((m * r) * a) * (b * 1) == ((m * c) * (r * p)) * d
  {
    assert ((m * r) * a) * b == (m * r) * (a * b);
    assert (m * r) * ((c * p) * d) == ((m * r) * (c * p)) * d;
    assert (m * r) * (c * p) == (m * c) * (r * p) by { MulRegroup(m, r, c, p); }
  }

  /** Division with a sticky bit and at least two bits to round off. */
  lemma {:induction false} StickyCase(m: nat, e: int, radix1: nat, rs: nat, f: nat, k: nat, mode: Mode)
    requires radix1 > 0 && f * rs + k - e >= 2
    ensures var radix := radix1 * Pow2(rs);
            radix > 0 && Pow(radix1, f) > 0 &&
            Shifted(Truncated(m * Pow2(k), Pow(radix1, f)), f * rs + k - e, mode)
              == RoundDiv(Num(m, e, radix, 0 - f), Den(e, radix, 0 - f), mode)
  {
    hide Pow, Pow2, RoundDiv;
    var radix, s, r := radix1 * Pow2(rs), f * rs + k - e, Pow(radix1, f);
    assert radix > 0 by { MulLess(0, radix1, Pow2(rs)); }
    PowOfRadix(radix1, rs, f);
    StickyRounds(m * Pow2(k), r, s, mode);
    assert Num(m, e, radix, 0 - f) == (m * Up(2, e)) * 1 by { NumDown(m, e, radix, f); }
    assert Den(e, radix, 0 - f) == Down(2, e) * (r * Pow2(rs * f)) by { DenDown(e, radix, f); }
    StickyExponents(e, rs, f, k, s);
    StickyProduct(m, r, Pow2(k), Down(2, e), Pow2(rs * f), Up(2, e), Pow2(s));
    RoundRatio(m * Pow2(k), r * Pow2(s), Num(m, e, radix, 0 - f), Den(e, radix, 0 - f), mode);
  }

  lemma NumDown(m: nat, e: int, radix: nat, f: nat)
    ensures Num(m, e, radix, 0 - f) == (m * Up(2, e)) * 1
  {
    if f == 0 {
      assert Pow(radix, 0) == 1;
    }
  }

  lemma DenDown(e: int, radix: nat, f: nat)
    requires radix > 0
    ensures Den(e, radix, 0 - f) == Down(2, e) * Pow(radix, f)
  {
    if f == 0 {
      assert Pow(radix, 0) == 1;
    }
  }

  lemma {:induction false} StickyExponents(e: int, rs: nat, f: nat, k: nat, s: nat)
    requires s == f * rs + k - e
    ensures Pow2(k) * (Down(2, e) * Pow2(rs * f)) == Up(2, e) * Pow2(s)
  {
    hide Pow2, Up, Down;
    UpDown2(e);
    var up, down := if e >= 0 then e else 0, if e >= 0 then 0 else -e;
    Pow2Add(down, rs * f);
    PowersAgree(k, down + rs * f, up, s);
  }

  lemma {:induction false} StickyProduct(m: int, r: int, k: int, b: int, p: int, c: int, d: int)
    requires k * (b * p) == c * d
    ensures (m * k) * (b * (r * p)) == ((m * c) * 1) * (r * d)
  {
    assert b * (r * p) == r * (b * p);
    assert (m * k) * (r * (b * p)) == (m * r) * (k * (b * p));
    assert (m * r) * (c * d) == (m * c) * (r * d) by { MulRegroup(m, r, c, d); }
  }

  /** The radix is a power of two: nothing but the exponent changes. */
  lemma {:induction false} BinaryCase(m: nat, e: int, rs: nat, f: nat, mode: Mode)
    ensures var radix := 1 * Pow2(rs);
            Shifted(m, f * rs - e, mode) == RoundDiv(Num(m, e, radix, 0 - f), Den(e, radix, 0 - f), mode)
  {
    hide Pow, Pow2, RoundDiv, Shifted, Up, Down;
    var radix, s := 1 * Pow2(rs), f * rs - e;
    PowOfRadix(1, rs, f);
    OnePower(f);
    assert Num(m, e, radix, 0 - f) == (m * Up(2, e)) * 1 by { NumDown(m, e, radix, f); }
    assert Den(e, radix, 0 - f) == Down(2, e) * (1 * Pow2(rs * f)) by { DenDown(e, radix, f); }
    BinaryExponents(e, rs, f, s);
    BinaryProduct(m, Down(2, s), Down(2, e), Pow2(rs * f), Up(2, e), Up(2, s));
    ShiftedRatio(m, s, Num(m, e, radix, 0 - f), Den(e, radix, 0 - f), mode);
  }

  lemma {:induction false} BinaryExponents(e: int, rs: nat, f: nat, s: int)
    requires s == f * rs - e
    ensures Down(2, s) * (Down(2, e) * Pow2(rs * f)) == Up(2, e) * Up(2, s)
  {
    hide Pow2, Up, Down;
    UpDown2(e);
    UpDown2(s);
    var down := if e >= 0 then 0 else -e;
    Pow2Add(down, rs * f);
    PowersAgree(if s >= 0 then 0 else -s, down + rs * f, if e >= 0 then e else 0, if s >= 0 then s else 0);
  }

  lemma {:induction false} BinaryProduct(m: int, a: int, b: int, p: int, c: int, d: int)
    requires a * (b * p) == c * d
    ensures (m * a) * (b * (1 * p)) == ((m * c) * 1) * d
  {
    assert (m * a) * (b * p) == m * (a * (b * p));
    assert m * (c * d) == (m * c) * d;
  }

  // ---- the method ----

  /** `mpb_set_u64`. */
  method FromU64(m: nat) returns (x: Number)
    requires m < WIDE
    ensures fresh(x) && x.tab != [] && IsNormal(x.tab) && Value(x.tab) == m && |x.tab| <= x.peak == 2
  {
    var low: Limb, high: Limb := m % BASE, m / BASE;
    x := new Number([low, high]);
    if high == 0 {
      x.tab := [low];
    }
    TwoLimbs(low, high);
  }

  lemma TwoLimbs(low: Limb, high: Limb)
    ensures Value([low]) == low && Value([low, high]) == low + BASE * high
  {
    ValueOne(low);
    assert [low, high][1..] == [high];
    ValueOne(high);
  }

  /** Zero stays zero, and nothing else becomes zero. */
  lemma {:induction false} NonzeroProduct(a: nat, radix1: nat, f: int, k: nat, z: nat)
    requires radix1 > 0
    requires f >= 0 ==> z == a * Pow(radix1, f)
    requires f < 0 ==> Pow(radix1, -f) > 0 && z == Truncated(a * Pow2(k), Pow(radix1, -f))
    ensures a == 0 <==> z == 0
  {
    if f >= 0 {
      if a > 0 {
        MulLess(0, a, Pow(radix1, f));
      }
    } else if a > 0 {
      MulLess(0, a, Pow2(k));
      NonzeroTruncated(a * Pow2(k), Pow(radix1, -f));
    }
  }

  lemma NonzeroTruncated(n: nat, d: nat)
    requires n > 0 && d > 0
    ensures Truncated(n, d) > 0
  {
    var q, r := Rounding.Divide(n, d);
    DivIs(n, d, q, r);
  }

  /** Limbs that `mul_pow_round` uses at most: a left shift follows only when nothing was divided. */
  function RoundRoom(e: int, radix1: nat, radixShift: nat, f: int, d: nat): nat
    requires d > 0
  {
    2 + PowerRoom(radix1, radixShift, f, true, e, d)
      + if f >= 0 || radix1 == 1 then Max(e + f * radixShift, 0) / 32 + 1 else 0
  }

  lemma RoundRoomIs(e: int, radix1: nat, radixShift: nat, f: int, d: nat)
    requires d > 0
    ensures RoundRoom(e, radix1, radixShift, f, d) >= 2 + PowerRoom(radix1, radixShift, f, true, e, d)
    ensures (f >= 0 || radix1 == 1) && e + f * radixShift > 0 ==>
        RoundRoom(e, radix1, radixShift, f, d)
          == 2 + PowerRoom(radix1, radixShift, f, true, e, d) + (e + f * radixShift) / 32 + 1
  {
  }

  /** `mul_pow_round`: the correctly rounded integer of m 2^e radix^f. */
  method MulPowRound(m: nat, e: int, radix1: nat, radixShift: nat, f: int, mode: Mode, d: nat) returns (x: Number)
    requires m < WIDE && FitsLimb(radix1, d)
    ensures var radix := radix1 * Pow2(radixShift);
            radix > 0 && fresh(x) && x.tab != [] && (m > 0 ==> IsNormal(x.tab))
              && Value(x.tab) == RoundDiv(Num(m, e, radix, f), Den(e, radix, f), mode)
    ensures x.peak <= RoundRoom(e, radix1, radixShift, f, d)
  {
    hide *;
    x := FromU64(m);
    ghost var k;
    var eOffset;
    eOffset, k := MulPow(x, radix1, radixShift, f, true, e, d);
    DigitsPositive(radix1, d);
    NonzeroProduct(m, radix1, f, k, Value(x.tab));
    RoundRoomIs(e, radix1, radixShift, f, d);
    ShrRound(x, -e + eOffset, mode);
    if f >= 0 {
      ExactCase(m, e, radix1, radixShift, f, mode);
    } else if radix1 == 1 {
      PowOfOne(f);
      NoPower();
      ExactlyOne(m * Pow2(0));
      BinaryCase(m, e, radixShift, -f, mode);
      BinaryRadix(radixShift);
    } else {
      StickyCase(m, e, radix1, radixShift, -f, k, mode);
    }
  }

  lemma BinaryRadix(rs: nat)
    ensures 1 * Pow2(rs) > 0
  {
  }
}
