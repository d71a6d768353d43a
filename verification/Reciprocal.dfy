/** Division of two words by one with a precomputed reciprocal (`udiv1norm_init`, `udiv1norm`), in
    32-bit and 64-bit arithmetic that wraps around. */
module Reciprocal {
  import opened Rounding

  const BASE: nat := 0x1_0000_0000
  const HALF: nat := 0x8000_0000
  const WIDE: nat := 0x1_0000_0000_0000_0000

  type Limb = x: nat | x < BASE

  /** `udiv1norm_init`. */
  function ReciprocalOf(d: Limb): (r: nat)
    requires d >= HALF
  {
    ((BASE - 1 - d) * BASE + (BASE - 1)) / d
  }

  /** With m = 2^32 + r: m is the largest number with m d < 2^64. */
  lemma {:induction false} ReciprocalIs(d: Limb)
    requires d >= HALF
    ensures var r := ReciprocalOf(d);
            r < BASE && 0 < WIDE - (BASE + r) * d <= d
  {
    var n := (BASE - 1 - d) * BASE + (BASE - 1);
    assert n == WIDE - 1 - d * BASE;
    DivMod(n, d);
    ReciprocalBounds(n, d, ReciprocalOf(d), n % d);
  }

  lemma {:induction false} ReciprocalBounds(n: nat, d: nat, q: nat, r: nat)
    requires HALF <= d < BASE && n == WIDE - 1 - d * BASE && n == q * d + r && r < d
    ensures q < BASE && 0 < WIDE - (BASE + q) * d <= d
  {
    assert (BASE + q) * d == BASE * d + q * d;
    assert q >= BASE ==> q * d >= BASE * d by { if q >= BASE { MulAtMost(BASE, q, d); } }
    assert BASE * d >= BASE * HALF;
  }

  /** `x & y` where x is all zeros or all ones. */
  function Masked(x: nat, y: nat): nat
    requires x == 0 || x == BASE - 1
  {
    if x == 0 then 0 else y
  }

  /** `udiv1norm`: the exact quotient and remainder of a1 2^32 + a0 by d. */
  method Divide(a1: Limb, a0: Limb, d: Limb, inverse: nat) returns (q: Limb, r: Limb)
    requires d >= HALF && a1 < d && inverse == ReciprocalOf(d)
    ensures q * d + r == a1 * BASE + a0 && r < d
  {
    hide *;
    Constants();
    ReciprocalIs(d);
    // all ones when the high bit of a0 is set
    var n1m := if a0 >= HALF then BASE - 1 else 0;
    var nAdj := (a0 + Masked(n1m, d)) % BASE;
    var a := (inverse * ((a1 - n1m) % BASE) + nAdj) % WIDE;
    var estimate := (a / BASE + a1) % BASE;
    Estimate(a1, a0, d, inverse, n1m, nAdj, a);
    // a1 2^32 + a0 - (estimate + 1) d, modulo 2^64
    a := (a1 * BASE + a0 - estimate * d - d) % WIDE;
    var ah := a / BASE;
    Correct(a1, a0, d, estimate, a);
    q := (estimate + 1 + ah) % BASE;
    r := (a % BASE + Masked(ah, d)) % BASE;
  }

  lemma Constants()
    ensures BASE == 0x1_0000_0000 && HALF == 0x8000_0000 && WIDE == 0x1_0000_0000_0000_0000
  {
  }

  /** The estimate is the quotient or one less. */
  lemma {:induction false} Estimate(a1: Limb, a0: Limb, d: Limb, inverse: nat, n1m: nat, nAdj: nat, a: nat)
    requires d >= HALF && a1 < d && inverse < BASE && 0 < WIDE - (BASE + inverse) * d <= d
    requires n1m == if a0 >= HALF then BASE - 1 else 0
    requires nAdj == (a0 + Masked(n1m, d)) % BASE
    requires a == (inverse * ((a1 - n1m) % BASE) + nAdj) % WIDE
    ensures var q := (a / BASE + a1) % BASE;
            0 <= a1 * BASE + a0 - q * d < 2 * d
  {
    hide Masked;
    if a0 < HALF {
      assert nAdj == a0 by { MaskedIs(d); }
      EstimateLow(a1, a0, d, inverse, a);
    } else {
      assert nAdj == a0 + d - BASE by { MaskedIs(d); }
      EstimateHigh(a1, a0, d, inverse, a);
    }
  }

  lemma MaskedIs(d: nat)
    ensures Masked(0, d) == 0 && Masked(BASE - 1, d) == d
  {
  }

  lemma {:induction false} EstimateLow(a1: Limb, a0: Limb, d: Limb, inverse: nat, a: nat)
    requires d >= HALF && a1 < d && inverse < BASE && 0 < WIDE - (BASE + inverse) * d <= d && a0 < HALF
    requires a == (inverse * (a1 % BASE) + a0) % WIDE
    ensures var q := (a / BASE + a1) % BASE;
            0 <= a1 * BASE + a0 - q * d < 2 * d
  {
    assert a1 % BASE == a1;
    var x := inverse * a1 + a0;
    assert 0 <= x < WIDE by { SmallProduct(inverse, a1); }
    assert a == x by { assert inverse * (a1 % BASE) == inverse * a1; }
    var h, s := x / BASE, x % BASE;
    assert x == h * BASE + s;
    LowBounds(a1, a0, d, inverse, h, s);
  }

  lemma SmallProduct(x: nat, y: nat)
    requires x < BASE && y < BASE
    ensures 0 <= x * y <= (BASE - 1) * (BASE - 1)
  {
    hide *;
    MulAtMost(0, x, y);
    MulAtMost(x, BASE - 1, y);
    MulAtMost(y, BASE - 1, BASE - 1);
    assert (BASE - 1) * y == y * (BASE - 1);
  }

  /** Case a0 < 2^31. */
  lemma {:induction false} LowBounds(a1: nat, a0: nat, d: nat, inverse: nat, h: nat, s: nat)
    requires HALF <= d < BASE && a1 < d && 0 < WIDE - (BASE + inverse) * d <= d && a0 < HALF
    requires inverse * a1 + a0 == h * BASE + s && s < BASE
    ensures 0 <= a1 * BASE + a0 - (h + a1) * d < 2 * d && h + a1 < BASE
  {
    var k := WIDE - (BASE + inverse) * d;
    var rest := a1 * BASE + a0 - (h + a1) * d;
    assert rest * BASE == a1 * k + a0 * (BASE - d) + d * s by { LowIdentity(a1, a0, d, inverse, h, s); }
    assert 0 <= a1 * k <= (d - 1) * d by { MulAtMost(a1, d - 1, k); MulAtMost(k, d, d - 1); MulAtMost(0, a1, k); }
    assert 0 <= a0 * (BASE - d) <= d * (BASE - d) by { MulAtMost(a0, d, BASE - d); MulAtMost(0, a0, BASE - d); }
    assert 0 <= d * s <= d * (BASE - 1) by { MulAtMost(s, BASE - 1, d); MulAtMost(0, s, d); }
    assert (d - 1) * d + d * (BASE - d) + d * (BASE - 1) == 2 * d * BASE - 2 * d;
    FromScaled(rest, d);
    QuotientSmall(a1, a0, d, h + a1, rest);
  }

  lemma FromScaled(rest: int, d: nat)
    requires d > 0 && 0 <= rest * BASE < 2 * d * BASE
    ensures 0 <= rest < 2 * d
  {
  }

  lemma {:induction false} QuotientSmall(a1: nat, a0: nat, d: nat, q: nat, rest: int)
    requires 0 < d && a1 < d && a0 < BASE && rest == a1 * BASE + a0 - q * d && 0 <= rest
    ensures q < BASE
  {
    assert q >= BASE ==> q * d >= BASE * d by { if q >= BASE { MulAtMost(BASE, q, d); } }
    MulAtMost(a1 + 1, d, BASE);
  }

  lemma {:induction false} LowIdentity(a1: int, a0: int, d: int, inverse: int, h: int, s: int)
    requires inverse * a1 + a0 == h * BASE + s
    ensures var k := WIDE - (BASE + inverse) * d;
            (a1 * BASE + a0 - (h + a1) * d) * BASE == a1 * k + a0 * (BASE - d) + d * s
  {
    assert (h * BASE) * d == (inverse * a1 + a0 - s) * d;
    assert (inverse * a1 + a0 - s) * d == (inverse * a1) * d + a0 * d - s * d;
    assert ((h + a1) * d) * BASE == (h * BASE) * d + (a1 * d) * BASE;
    assert a1 * ((BASE + inverse) * d) == (a1 * d) * BASE + (inverse * a1) * d;
    assert a1 * (WIDE - (BASE + inverse) * d) == a1 * WIDE - a1 * ((BASE + inverse) * d);
    assert a1 * BASE * BASE == a1 * WIDE;
  }

  lemma NextLimb(a: Limb)
    requires a < BASE - 1
    ensures (a - (BASE - 1)) % BASE == a + 1
  {
  }

  lemma WordParts(x: nat)
    requires x < WIDE
    ensures x % WIDE == x && x == (x / BASE) * BASE + x % BASE && x % BASE < BASE
  {
  }

  lemma {:induction false} EstimateHigh(a1: Limb, a0: Limb, d: Limb, inverse: nat, a: nat)
    requires d >= HALF && a1 < d && inverse < BASE && 0 < WIDE - (BASE + inverse) * d <= d && a0 >= HALF
    requires a == (inverse * ((a1 - (BASE - 1)) % BASE) + (a0 + d - BASE)) % WIDE
    ensures var q := (a / BASE + a1) % BASE;
            0 <= a1 * BASE + a0 - q * d < 2 * d
  {
    hide *;
    Constants();
    NextLimb(a1);
    var y := a1 + 1;
    SmallProduct(inverse, y);
    var z := inverse * y;
    var x := z + (a0 + d - BASE);
    WordParts(x);
    var h, s := x / BASE, x % BASE;
    HighBounds(a1, a0, d, inverse, h, s);
    WordRest(h + a1);
  }

  /** Case a0 >= 2^31. */
  lemma {:induction false} HighBounds(a1: nat, a0: nat, d: nat, inverse: nat, h: nat, s: nat)
    requires HALF <= d < BASE && a1 < d && 0 < WIDE - (BASE + inverse) * d <= d && HALF <= a0 < BASE
    requires inverse * (a1 + 1) + (a0 + d - BASE) == h * BASE + s && s < BASE
    ensures 0 <= a1 * BASE + a0 - (h + a1) * d < 2 * d && h + a1 < BASE
  {
    var k, c := WIDE - (BASE + inverse) * d, BASE - d;
    var rest := a1 * BASE + a0 - (h + a1) * d;
    assert rest * BASE == (a1 + 1) * k + (a0 - c) * c + d * s by { HighIdentity(a1, a0, d, inverse, h, s); }
    assert 0 <= (a1 + 1) * k <= d * d by { MulAtMost(a1 + 1, d, k); MulAtMost(k, d, d); MulAtMost(0, a1 + 1, k); }
    assert 0 <= (a0 - c) * c <= (d - 1) * c by { MulAtMost(a0 - c, d - 1, c); MulAtMost(0, a0 - c, c); }
    assert 0 <= d * s <= d * (BASE - 1) by { MulAtMost(s, BASE - 1, d); MulAtMost(0, s, d); }
    assert d * d + (d - 1) * c + d * (BASE - 1) == 2 * d * BASE - BASE by {
      assert (d - 1) * (BASE - d) == d * BASE - d * d - BASE + d;
    }
    FromScaled(rest, d);
    QuotientSmall(a1, a0, d, h + a1, rest);
  }

  lemma {:induction false} HighIdentity(a1: int, a0: int, d: int, inverse: int, h: int, s: int)
    requires inverse * (a1 + 1) + (a0 + d - BASE) == h * BASE + s
    ensures var k, c := WIDE - (BASE + inverse) * d, BASE - d;
            (a1 * BASE + a0 - (h + a1) * d) * BASE == (a1 + 1) * k + (a0 - c) * c + d * s
  {
    var b := a1 + 1;
    assert (h * BASE) * d == (inverse * b + a0 + d - BASE - s) * d;
    assert (inverse * b + a0 + d - BASE - s) * d == (inverse * b) * d + a0 * d + d * d - BASE * d - s * d;
    assert ((h + a1) * d) * BASE == (h * BASE) * d + (a1 * d) * BASE;
    assert b * ((BASE + inverse) * d) == (b * d) * BASE + (inverse * b) * d;
    assert b * (WIDE - (BASE + inverse) * d) == b * WIDE - b * ((BASE + inverse) * d);
    assert (a0 - (BASE - d)) * (BASE - d) == a0 * BASE - a0 * d - WIDE + 2 * (d * BASE) - d * d;
    assert a1 * BASE * BASE == a1 * WIDE && (b * d) * BASE == (a1 * d) * BASE + d * BASE;
  }

  /** The high word of the remainder tells whether the estimate was the quotient or one less. */
  lemma {:induction false} Correct(a1: Limb, a0: Limb, d: Limb, estimate: nat, a: nat)
    requires HALF <= d && a1 < d && estimate < BASE
    requires var rest := a1 * BASE + a0 - estimate * d; 0 <= rest < 2 * d && a == (rest - d) % WIDE
    ensures var ah := a / BASE;
            && (ah == 0 || ah == BASE - 1)
            && var q := (estimate + 1 + ah) % BASE; var r := (a % BASE + Masked(ah, d)) % BASE;
            q * d + r == a1 * BASE + a0 && r < d
  {
    var rest := a1 * BASE + a0 - estimate * d;
    assert (estimate + 1) * d == estimate * d + d;
    hide Masked;
    if rest >= d {
      QuotientSmall(a1, a0, d, estimate + 1, rest - d);
      HighWordZero(a, rest - d, d);
      WordRest(estimate + 1);
    } else {
      HighWordOnes(a, rest - d, d);
      WordRest(estimate);
    }
  }

  lemma WordRest(x: nat)
    requires x < BASE
    ensures (x + 0) % BASE == x && (x + 1 + (BASE - 1)) % BASE == x
  {
  }

  lemma HighWordZero(a: nat, x: int, d: nat)
    requires 0 <= x < d < BASE && a == x % WIDE
    ensures a == x && a / BASE == 0 && (a % BASE + Masked(0, d)) % BASE == x
  {
  }

  lemma HighWordOnes(a: nat, x: int, d: nat)
    requires 0 - d <= x < 0 && d < BASE && a == x % WIDE
    ensures a / BASE == BASE - 1 && (a % BASE + Masked(BASE - 1, d)) % BASE == x + d
  {
    assert a == WIDE + x;
    assert a == (BASE - 1) * BASE + (BASE + x);
  }
}
