/** The decimal output of `js_dtoa` in free format: digits of a number, and the choice between plain and
    exponential notation (`limb_to_a`, `u32toa`, `u64toa`, `output_digits`, `js_dtoa`). */
module Printing {
  import opened Rounding
  import opened Reciprocal
  import opened Limbs
  import opened Bignum
  import opened RadixPower
  import opened IntegerRounding
  import opened Doubles
  import opened FloatConversion
  import opened FloatRounding
  import opened NearDouble
  import opened FreeFormat
  import opened Log10
  import opened DecimalText

  const CHUNK: nat := 1_000_000_000

  // ---- digits ----

  /** `limb_to_a`, `u32toa_len`: the last `len` digits of n, written from the end. */
  method LimbDigits(n: nat, len: nat) returns (ds: seq<Digit>)
    ensures |ds| == len && Number10(ds) == n % Pow(10, len)
  {
    hide *;
    ds := [];
    var rest := n;
    var i := len;
    DigitsStart(n);
    while i > 0
      invariant 0 <= i <= len && |ds| == len - i && Suffix(n, len - i, rest, ds)
    {
      i := i - 1;
      DigitsStep(n, len - i - 1, rest, ds);
      ds := [rest % 10] + ds;
      rest := rest / 10;
    }
    SuffixEnd(n, len, rest, ds);
  }

  /** `ds` are the last k digits of n, and `rest` is what stands before them. */
  ghost predicate Suffix(n: nat, k: nat, rest: nat, ds: seq<Digit>) {
    |ds| == k && n == rest * Pow(10, k) + Number10(ds)
  }

  lemma DigitsStart(n: nat)
    ensures Suffix(n, 0, n, [])
  {
    assert Pow(10, 0) == 1;
  }

  lemma {:induction false} DigitsStep(n: nat, k: nat, rest: nat, ds: seq<Digit>)
    requires Suffix(n, k, rest, ds)
    ensures rest % 10 < 10 && Suffix(n, k + 1, rest / 10, [rest % 10] + ds)
  {
    hide Pow, Number10;
    var q, d := rest / 10, rest % 10;
    NumberAppend([d], ds);
    NumberOne(d);
    PowHead(10, k + 1);
    DigitShift(q, d, Pow(10, k));
  }

  lemma DigitShift(q: nat, d: nat, p: nat)
    ensures (10 * q + d) * p == q * (10 * p) + d * p
  {
  }

  lemma {:induction false} SuffixEnd(n: nat, k: nat, rest: nat, ds: seq<Digit>)
    requires Suffix(n, k, rest, ds)
    ensures Number10(ds) == n % Pow(10, k) && rest == n / Pow(10, k)
  {
    NumberBound(ds);
    DivIs(n, Pow(10, k), rest, Number10(ds));
  }

  /** `u32toa`: all digits, without leading zeros. */
  method AllDigitsOf(n: nat) returns (ds: seq<Digit>)
    ensures ds != [] && Number10(ds) == n && (n > 0 ==> ds[0] != 0)
  {
    hide *;
    DigitsStart(n);
    DigitsStep(n, 0, n, []);
    ds := [n % 10] + [];
    FirstDigit(n);
    var rest: nat := n / 10;
    while rest != 0
      invariant ds != [] && Suffix(n, |ds|, rest, ds) && (rest == 0 && n > 0 ==> ds[0] != 0)
      decreases rest
    {
      DigitsStep(n, |ds|, rest, ds);
      FirstDigit(rest);
      ds := [rest % 10] + ds;
      rest := rest / 10;
    }
    WholeNumber(n, |ds|, ds);
  }

  lemma FirstDigit(n: nat)
    ensures n / 10 == 0 && n > 0 ==> n % 10 != 0
    ensures n > 0 ==> n / 10 < n
  {
  }

  lemma WholeNumber(n: nat, k: nat, ds: seq<Digit>)
    requires Suffix(n, k, 0, ds)
    ensures Number10(ds) == n
  {
  }

  /** `u64toa`: in chunks of nine digits. */
  method U64Digits(n: nat) returns (ds: seq<Digit>)
    requires n < WIDE
    ensures ds != [] && Number10(ds) == n && (n > 0 ==> ds[0] != 0)
  {
    hide *;
    Constants();
    ChunkIs();
    if n < BASE {
      ds := AllDigitsOf(n);
    } else {
      var n1, low := n / CHUNK, n % CHUNK;
      var high;
      if n1 >= BASE {
        var n2 := n1 / CHUNK;
        high := AllDigitsOf(n2);
        var mid := LimbDigits(n1 % CHUNK, 9);
        AppendChunk(n1, high, mid);
        high := high + mid;
      } else {
        high := AllDigitsOf(n1);
      }
      var tail := LimbDigits(low, 9);
      AppendChunk(n, high, tail);
      ds := high + tail;
    }
  }

  lemma ChunkIs()
    ensures CHUNK == 1_000_000_000 == Pow(10, 9)
  {
    assert Pow(10, 3) == 1000;
    PowAdd(10, 3, 3);
    PowAdd(10, 6, 3);
  }

  lemma {:induction false} AppendChunk(n: nat, high: seq<Digit>, low: seq<Digit>)
    requires |low| == 9 && Number10(high) == n / CHUNK && Number10(low) == (n % CHUNK) % Pow(10, 9)
    ensures Number10(high + low) == n
  {
    ChunkIs();
    NumberAppend(high, low);
  }

  /** `output_digits`: the last `count` digits of a number, nine at a time from the end. */
  method OutputDigits(x: Number, count: nat) returns (ds: seq<Digit>)
    requires x.tab != []
    modifies x`tab
    ensures |ds| == count && Number10(ds) == Value(old(x.tab)) % Pow(10, count)
  {
    hide *;
    Constants();
    ChunkIs();
    ghost var a := Value(x.tab);
    var left := count;
    ds := [];
    OutputStart(a, left != 0);
    while left != 0
      invariant 0 <= left <= count && |ds| == count - left && x.tab != []
      invariant Output(a, count - left, Value(x.tab), ds, left != 0)
      decreases left
    {
      var n := Min(left, 9);
      MinIs(left, 9);
      ghost var was := Value(x.tab);
      var r := x.Div1(CHUNK, 0);
      Renorm(x);
      var chunk := LimbDigits(r, n);
      OutputStep(a, count - left, was, Value(x.tab), r, ds, chunk, Weight(|x.tab|), n, left - n != 0);
      left := left - n;
      ds := chunk + ds;
    }
    OutputEnd(a, count, Value(x.tab), ds, false);
  }

  lemma MinIs(a: nat, b: nat)
    ensures Min(a, b) <= a && Min(a, b) <= b && (Min(a, b) == a || Min(a, b) == b)
  {
  }

  /** `ds` are the last k digits of a; while more are to come, `rest` is what stands before them. */
  ghost predicate Output(a: nat, k: nat, rest: nat, ds: seq<Digit>, more: bool) {
    |ds| == k && Number10(ds) == a % Pow(10, k) && (more ==> rest == a / Pow(10, k))
  }

  lemma OutputStart(a: nat, more: bool)
    ensures Output(a, 0, a, [], more)
  {
    assert Pow(10, 0) == 1;
  }

  lemma OutputEnd(a: nat, k: nat, rest: nat, ds: seq<Digit>, more: bool)
    requires Output(a, k, rest, ds, more)
    ensures Number10(ds) == a % Pow(10, k)
  {
  }

  lemma {:induction false} OutputStep(a: nat, k: nat, rest: nat, q: nat, r: nat, ds: seq<Digit>, chunk: seq<Digit>,
      w: nat, n: nat, more: bool)
    requires Output(a, k, rest, ds, true) && q * CHUNK + r == 0 * w + rest && r < CHUNK
    requires n <= 9 && |chunk| == n && Number10(chunk) == r % Pow(10, n) && (more ==> n == 9)
    ensures Output(a, k + n, q, chunk + ds, more)
  {
    hide Pow, Number10;
    var wk, p := Pow(10, k), Pow(10, n);
    ChunkIs();
    PowAdd(10, k, n);
    PowAdd(10, n, 9 - n);
    var low := Number10(ds);
    DivMod(a, wk);
    var u, v := Rounding.Divide(rest, p);
    DivIs(rest, p, u, v);
    SplitProduct(a, u, v, p, wk, low);
    DivIs(a, wk * p, u, v * wk + low);
    assert v == r % p by { ModChunk(q, r, rest, p, Pow(10, 9 - n), u, v); }
    NumberAppend(chunk, ds);
    if more {
      PowSmall(10);
      NoDigits();
      DivIs(rest, CHUNK, q, r);
    }
  }

  lemma NoDigits()
    ensures Pow(10, 0) == 1
  {
  }

  lemma {:induction false} ModChunk(q: nat, r: nat, rest: nat, p: nat, s: nat, u: nat, v: nat)
    requires p > 0 && rest == q * (p * s) + r && rest == u * p + v && v < p
    ensures v == r % p
  {
    var x, y := Rounding.Divide(r, p);
    DivIs(r, p, x, y);
    assert q * (p * s) == (q * s) * p;
    assert rest == (q * s + x) * p + y;
    DivIs(rest, p, q * s + x, y);
    DivIs(rest, p, u, v);
  }

  // ---- the text ----

  const MAX_DIGITS: nat := 17

  /** `js_dtoa_max_len` in radix 10: the digits, a sign, a dot and an exponent of up to six characters. */
  const MAX_LEN: nat := MAX_DIGITS + 1 + 1 + 6
  const SIGN_BIT: nat := 0x8000_0000_0000_0000

  /** The value of a literal is Number10(Significant(lit)) 10^Scale(lit). */
  function Scale(lit: Literal): int { ExponentValue(lit.exponent) - |lit.frac| }

  /** The literal denotes a value that rounds to the finite nonzero double with these bits. */
  ghost predicate RoundsTo(lit: Literal, bits: nat) {
    var (m, e) := Unpack(bits);
    IsConversion(Number10(Significant(lit)), 10, Scale(lit), NearestEven, m, e)
  }

  /** The value of a literal other than zero lies between 10^(order - 1) and 10^order. */
  function Order(lit: Literal): int { ExponentValue(lit.exponent) - LeadingZeros(AllDigits(lit)) + |lit.whole| }

  function WithoutZeros(ds: seq<Digit>): seq<Digit> {
    if ds != [] && ds[|ds| - 1] == 0 then WithoutZeros(ds[..|ds| - 1]) else ds
  }

  /** The digits of a literal without the zeros in front and behind. */
  function Digits(lit: Literal): seq<Digit> { WithoutZeros(Significant(lit)) }

  /** The digits are those of the double rounded to that number of digits, and they convert back; with one digit less
      they would not. */
  ghost predicate Shortened(lit: Literal, bits: nat) {
    var (m, e) := Unpack(bits);
    var ds := Digits(lit);
    && ds != [] && RoundedTo(m, e, 10, |ds|, Number10(ds), Order(lit))
    && IsConversion(Number10(ds), 10, Order(lit) - |ds|, NearestEven, m, e)
    && (|ds| > 1 ==> TooFew(m, e, 10, |ds| - 1))
  }

  /** The notation of Number::toString, section 6.1.6.1.20 of ECMA-262. */
  predicate Usual(lit: Literal) {
    && lit.sign != Plus && lit.whole != [] && (|lit.whole| > 1 ==> lit.whole[0] != 0)
    && (lit.dot <==> lit.frac != []) && (lit.frac != [] ==> lit.frac[|lit.frac| - 1] != 0)
    && (lit.exponent.Exponent? <==> Order(lit) <= -6 || Order(lit) > 21)
    && (lit.exponent.Exponent? ==>
        && |lit.whole| == 1 && lit.whole[0] != 0 && !lit.exponent.upper && lit.exponent.sign != Unsigned
        && lit.exponent.digits != [] && lit.exponent.digits[0] != 0)
  }

  /** `output_digits`, end: a point after the first k digits, unless k digits are all. */
  function WithDot(s: string, k: nat): string
    requires k <= |s|
  {
    if k == |s| then s else s[..k] + "." + s[k..]
  }

  lemma DotText(ds: seq<Digit>, k: nat)
    requires k <= |ds|
    ensures WithDot(Chars(ds), k) == Chars(ds[..k]) + (if k == |ds| then "" else ".") + Chars(ds[k..])
  {
    assert Chars(ds)[..k] == Chars(ds[..k]) && Chars(ds)[k..] == Chars(ds[k..]);
    if k == |ds| {
      assert ds[..k] == ds && Chars(ds[k..]) == "";
    }
  }

  /** The facts about radix 10 = 5 2 that the search needs. */
  lemma RadixTen()
    ensures RadixOk(5, 1, 13, MAX_DIGITS) && 5 * Pow2(1) == 10
  {
    assert Pow2(1) == 2 * Pow2(0) == 2;
    assert Pow(5, 3) == 125 && Pow(10, 4) == 10000;
    PowAdd(5, 3, 3);
    PowAdd(5, 6, 6);
    assert Pow(5, 13) == 5 * Pow(5, 12);
    PowAdd(10, 4, 4);
    PowAdd(10, 8, 8);
    assert Pow(10, 17) == 10 * Pow(10, 16);
  }

  /** The double is an integer below 2^53. */
  predicate IsSmallInteger(m: nat, e: int) { 1 <= e <= 53 && m % Pow2(53 - e) == 0 }

  function SignOf(negative: bool): Sign { if negative then Minus else Unsigned }

  /** `js_dtoa` in radix 10 and free format, with automatic choice of the notation. */
  method Dtoa(bits: nat, minusZero: bool) returns (s: string, ghost lit: Literal, ghost peak: nat)
    requires bits < 2 * SIGN_BIT
    ensures peak <= DBIGNUM_LEN_MAX && |s| <= MAX_LEN
    ensures bits % SIGN_BIT > INFINITY_BITS ==> s == "NaN"
    ensures bits % SIGN_BIT == INFINITY_BITS ==> s == if bits >= SIGN_BIT then "-Infinity" else "Infinity"
    ensures bits % SIGN_BIT < INFINITY_BITS ==> s == Text(lit) && IsLiteral(lit) && |Significant(lit)| <= 38
    ensures bits % SIGN_BIT == 0 ==> Significant(lit) == [] && s == if bits >= SIGN_BIT && minusZero then "-0" else "0"
    ensures 0 < bits % SIGN_BIT < INFINITY_BITS ==>
        RoundsTo(lit, bits % SIGN_BIT) && Shortened(lit, bits % SIGN_BIT) && Usual(lit)
    ensures bits % SIGN_BIT < INFINITY_BITS ==>
        lit.sign == SignOf(bits >= SIGN_BIT && (bits % SIGN_BIT > 0 || minusZero))
    ensures lit.exponent.Exponent? ==> Number10(lit.exponent.digits) < 400
  {
    hide *;
    BitConstants();
    var negative, mag := bits >= SIGN_BIT, bits % SIGN_BIT;
    lit := Literal(Unsigned, [], false, [], NoExponent);
    peak := 0;
    if mag > INFINITY_BITS {
      s := "NaN";
    } else if mag == INFINITY_BITS {
      s := if negative then "-Infinity" else "Infinity";
    } else if mag == 0 {
      lit := Literal(SignOf(negative && minusZero), [0], false, [], NoExponent);
      ZeroText(lit, negative && minusZero);
      s := (if negative && minusZero then "-" else "") + "0";
    } else {
      var (m, e) := Unpack(mag);
      PackUnpack(mag);
      SignTexts(negative);
      if IsSmallInteger(m, e) {
        IntegerBounds(m, e);
        var ds := U64Digits(m / Pow2(53 - e));
        lit := Literal(SignOf(negative), ds, false, [], NoExponent);
        s := (if negative then "-" else "") + Chars(ds);
        IntegerText(lit, m, e, mag);
        IntegerShortened(lit, m, e, mag);
      } else {
        FiniteFacts(m, e);
        EstimateBrackets(e);
        EstimateRange(e);
        RadixTen();
        SearchFits(e);
        var mant, digits, E;
        mant, digits, E, peak := Search(m, e, 5, 1, 1 + MulLog2Radix10(e - 1), MAX_DIGITS, 13, DBIGNUM_LEN_MAX);
        BufferSize();
        // `Format` needs two limbs for the mantissa
        peak := if peak > 2 then peak else 2;
        s, lit := Format(negative, mant, digits, E, mag);
      }
    }
  }

  lemma SignTexts(negative: bool)
    ensures SignText(SignOf(negative)) == (if negative then "-" else "") && SignOf(negative) != Plus
    ensures SignOf(negative) == if negative then Minus else Unsigned
  {
  }

  /** The buffer of the source holds every number that the search computes. */
  lemma {:induction false} SearchFits(e: int)
    requires -1073 <= e <= 1024
    ensures Roomy(e, 5, 1, 1 + MulLog2Radix10(e - 1), MAX_DIGITS, 13, DBIGNUM_LEN_MAX)
  {
    var lead := 1 + MulLog2Radix10(e - 1);
    EstimateSlope(e);
    forall f: int | -lead <= f <= MAX_DIGITS - lead
      ensures RoundFits(e, 5, 1, f, 13, DBIGNUM_LEN_MAX)
    {
      TryFits(e, lead, f);
    }
    forall f: int | lead - MAX_DIGITS <= f <= lead
      ensures 2 + ConversionRoom(5, f, 13) <= DBIGNUM_LEN_MAX
    {
      ConversionFits(f);
    }
  }

  /** The estimate lies just above the line e log10 2. */
  predicate OnSlope(e: int, lead: int) { (lead - 1) * BASE_LOG2 <= (e - 1) * MULTIPLIER < lead * BASE_LOG2 }

  lemma EstimateSlope(e: int)
    requires -1073 <= e <= 1024
    ensures OnSlope(e, 1 + MulLog2Radix10(e - 1)) && -323 <= 1 + MulLog2Radix10(e - 1) <= 309
  {
  }

  lemma TryFits(e: int, lead: int, f: int)
    requires -1073 <= e <= 1024 && OnSlope(e, lead) && -323 <= lead <= 309
    requires -lead <= f <= 17 - lead
    ensures RoundFits(e, 5, 1, f, 13, DBIGNUM_LEN_MAX)
  {
  }

  lemma ConversionFits(f: int)
    requires -361 <= f <= 309
    ensures ConversionRoom(5, f, 13) <= DBIGNUM_LEN_MAX - 6
  {
  }

  lemma EstimateRange(e: int)
    requires -1073 <= e <= 1024
    ensures -330 <= MulLog2Radix10(e - 1) <= 330
  {
  }

  lemma BitConstants()
    ensures SIGN_BIT == 0x8000_0000_0000_0000 && INFINITY_BITS == 0x7ff0_0000_0000_0000
    ensures MAX_DIGITS == 17 && MAX_LEN == 25
  {
  }

  lemma ZeroText(lit: Literal, negative: bool)
    requires lit == Literal(SignOf(negative), [0], false, [], NoExponent)
    ensures Text(lit) == (if negative then "-" else "") + "0" == (if negative then "-0" else "0")
    ensures IsLiteral(lit) && Significant(lit) == [] && SignOf(negative) == if negative then Minus else Unsigned
  {
    assert AllDigits(lit) == [0];
    assert LeadingZeros([0]) == 1 + LeadingZeros([]);
    assert Chars([0]) == "0";
  }

  lemma {:induction false} IntegerBounds(m: nat, e: int)
    requires IsFinite(m, e) && IsSmallInteger(m, e)
    ensures 1 <= e <= 53 && 0 < m / Pow2(53 - e) < 2 * HIDDEN_BIT < WIDE && m == (m / Pow2(53 - e)) * Pow2(53 - e)
  {
    hide Pow2;
    var p := Pow2(53 - e);
    var q, r := Rounding.Divide(m, p);
    DivIs(m, p, q, r);
    MulAtMost(1, p, q);
  }

  /** A small integer is printed exactly. */
  lemma {:induction false} IntegerText(lit: Literal, m: nat, e: int, bits: nat)
    requires IsFinite(m, e) && IsSmallInteger(m, e) && Unpack(bits) == (m, e)
    requires lit.whole != [] && Number10(lit.whole) == m / Pow2(53 - e) && !lit.dot && lit.frac == []
        && lit.exponent == NoExponent
    requires lit.whole[0] != 0
    ensures Text(lit) == SignText(lit.sign) + Chars(lit.whole) && IsLiteral(lit)
    ensures |Significant(lit)| <= 38 && RoundsTo(lit, bits) && |lit.whole| <= 16
  {
    hide Pow, Pow2, Number10, IsConversion;
    var n := m / Pow2(53 - e);
    IntegerBounds(m, e);
    assert AllDigits(lit) == lit.whole;
    assert LeadingZeros(lit.whole) == 0;
    assert Significant(lit) == lit.whole;
    assert |lit.whole| <= 16 by {
      NonzeroDigits(lit.whole);
      TooManyDigits(|lit.whole|, n);
    }
    IntegerConverts(n, m, e);
    assert Chars([]) == "";
  }

  lemma TooManyDigits(k: nat, n: nat)
    requires k > 0 && Pow(10, k - 1) <= n < 2 * HIDDEN_BIT
    ensures k <= 16
  {
    assert Pow(10, 4) == 10000;
    PowAdd(10, 4, 4);
    PowAdd(10, 8, 8);
    if k > 16 {
      PowMono(10, 16, k - 1);
    }
  }

  /** An integer with at most 53 bits is its own conversion. */
  lemma {:induction false} IntegerConverts(n: nat, m: nat, e: int)
    requires IsFinite(m, e) && 1 <= e <= 53 && m == n * Pow2(53 - e)
    ensures IsConversion(n, 10, 0, NearestEven, m, e)
  {
    hide Pow, Pow2, Rounded, CloserThan;
    assert Num(n, 0, 10, 0) == n && Den(0, 10, 0) == 1 by { PowSmall(10); PowSmall(2); assert n * 1 == n; }
    ExactIsClose(n, m, e);
    NearIsDouble(n, 1, m, e);
  }

  lemma {:induction false} ExactIsClose(n: nat, m: nat, e: int)
    requires 1 <= e <= 53 && m == n * Pow2(53 - e)
    ensures CloserThan(n, 1, m, e, e - 54) && CloserThan(n, 1, m, e, e - 55)
  {
    hide Pow2;
    Pow2Add(53 - e, e - 53 + SCALE);
    MulAssociates(n, Pow2(53 - e), Pow2(e - 53 + SCALE));
  }

  // -- a small integer is shortened too --

  lemma {:induction false} IntegerShortened(lit: Literal, m: nat, e: int, bits: nat)
    requires IsFinite(m, e) && IsSmallInteger(m, e) && Unpack(bits) == (m, e)
    requires lit.sign != Plus && lit.whole != [] && Number10(lit.whole) == m / Pow2(53 - e) && !lit.dot
        && lit.frac == [] && lit.exponent == NoExponent
    requires lit.whole[0] != 0 && |lit.whole| <= 16
    ensures Shortened(lit, bits) && Usual(lit)
  {
    hide Pow, Pow2, Number10, Unpack, RoundedTo, TooFew, IsFinite, IsSmallInteger, WithoutZeros, IsConversion;
    assert AllDigits(lit) == lit.whole;
    assert LeadingZeros(lit.whole) == 0;
    assert Significant(lit) == lit.whole;
    IntegerBounds(m, e);
    var zeros := TrimmedNumber(lit.whole);
    var ds := WithoutZeros(lit.whole);
    IntegerRounded(m, e, m / Pow2(53 - e), ds, zeros);
    IntegerConverts(m / Pow2(53 - e), m, e);
    FewerZeros(Number10(ds), 0, zeros, m, e);
    if |ds| > 1 {
      IntegerNeeds(m, e, m / Pow2(53 - e), ds, zeros);
    }
  }

  lemma {:induction false} TrimmedNumber(ds: seq<Digit>) returns (zeros: nat)
    requires ds != [] && ds[0] != 0
    ensures var t := WithoutZeros(ds);
            && t != [] && t[0] == ds[0] && t[|t| - 1] != 0 && |ds| == |t| + zeros
            && Number10(ds) == Number10(t) * Pow(10, zeros)
  {
    if ds[|ds| - 1] == 0 {
      var n := TrimmedNumber(ds[..|ds| - 1]);
      zeros := n + 1;
      TenTimes(Number10(WithoutZeros(ds)), Pow(10, n));
    } else {
      zeros := 0;
      NoDigits();
    }
  }

  /** An integer of |ds| digits and some zeros, rounded to |ds| digits. */
  lemma {:induction false} IntegerRounded(m: nat, e: int, n: nat, ds: seq<Digit>, zeros: nat)
    requires 1 <= e <= 53 && m == n * Pow2(53 - e) && n == Number10(ds) * Pow(10, zeros) && ds != [] && ds[0] != 0
    ensures RoundedTo(m, e, 10, |ds|, Number10(ds), |ds| + zeros)
  {
    hide Pow2, Number10, AtScale, Pow;
    var k, a := |ds|, Number10(ds);
    NumberBound(ds);
    NonzeroDigits(ds);
    PowHead(10, k);
    if zeros > 0 {
      PowHead(10, zeros);
      IntegerScaled(m, e, n, a, zeros);
      assert n == (10 * a) * Pow(10, zeros - 1);
      IntegerScaled(m, e, n, 10 * a, zeros - 1);
    } else {
      NoDigits();
      IntegerScaled(m, e, n, a, 0);
      IntegerTimesTen(m, e, n);
    }
  }

  lemma {:induction false} IntegerScaled(m: nat, e: int, n: nat, a: nat, zeros: nat)
    requires 1 <= e <= 53 && m == n * Pow2(53 - e) && n == a * Pow(10, zeros)
    ensures AtScale(m, e, 10, 0 - zeros) == a
  {
    hide Pow2, Pow, RoundDiv;
    NumIs(m, e - 53, 10, 0 - zeros);
    UpDown2(e - 53);
    NoPower();
    NoDigits();
    assert Up(10, 0 - zeros) == 1 && Down(10, 0 - zeros) == Pow(10, zeros);
    var d := Den(e - 53, 10, 0 - zeros);
    assert Num(m, e - 53, 10, 0 - zeros) == m && d == Pow2(53 - e) * Pow(10, zeros);
    assert m == a * d by { MulAssociates(a, Pow(10, zeros), Pow2(53 - e)); }
    ExactQuotientRounds(a, d);
  }

  lemma {:induction false} IntegerTimesTen(m: nat, e: int, n: nat)
    requires 1 <= e <= 53 && m == n * Pow2(53 - e)
    ensures AtScale(m, e, 10, 1) == 10 * n
  {
    hide Pow2, Pow, RoundDiv;
    NumIs(m, e - 53, 10, 1);
    UpDown2(e - 53);
    NoPower();
    PowSmall(10);
    assert Up(10, 1) == 10 && Down(10, 1) == 1;
    var d := Den(e - 53, 10, 1);
    assert Num(m, e - 53, 10, 1) == m * 10 && d == Pow2(53 - e);
    assert m * 10 == (10 * n) * d;
    ExactQuotientRounds(10 * n, d);
  }

  /** With fewer digits the integer becomes another one, and the conversion does not lead back. */
  lemma {:induction false} IntegerNeeds(m: nat, e: int, n: nat, ds: seq<Digit>, zeros: nat)
    requires IsFinite(m, e) && 1 <= e <= 53 && m == n * Pow2(53 - e) && n == Number10(ds) * Pow(10, zeros)
    requires |ds| > 1 && ds[0] != 0 && ds[|ds| - 1] != 0
    ensures TooFew(m, e, 10, |ds| - 1)
  {
    hide Pow2, Number10, AtScale, Pow, IsConversion, RoundedTo, IsFinite;
    IntegerRounded(m, e, n, ds, zeros);
    var p := |ds| - 1;
    forall mant: nat, E: int | RoundedTo(m, e, 10, p, mant, E)
      ensures !IsConversion(mant, 10, E - p, NearestEven, m, e)
    {
      CoarserExponent(m, e, ds, zeros, mant, E);
      var f := E - p;
      if IsConversion(mant, 10, f, NearestEven, m, e) {
        MoreZeros(mant, f, f, m, e);
        IntegerUnique(mant * Pow(10, f), n, m, e);
        PowAdd(10, f - zeros, zeros);
        DigitLost(mant, ds, Pow(10, f - zeros), Pow(10, zeros), f - zeros);
      }
    }
  }

  lemma {:induction false} CoarserExponent(m: nat, e: int, ds: seq<Digit>, zeros: nat, mant: nat, E: int)
    requires |ds| > 1 && RoundedTo(m, e, 10, |ds|, Number10(ds), |ds| + zeros) && ds[0] != 0
    requires RoundedTo(m, e, 10, |ds| - 1, mant, E)
    ensures E - (|ds| - 1) >= zeros + 1
  {
    hide AtScale, Number10, Pow;
    NonzeroDigits(ds);
    if E < |ds| + zeros {
      ScaleMono(m, e, 10, 0 - zeros, |ds| - 1 - E);
    }
  }

  /** mant 10^(z + k) = a 10^z with k > 0 makes the last digit of a zero. */
  lemma {:induction false} DigitLost(mant: nat, ds: seq<Digit>, x: nat, z: nat, k: nat)
    requires z > 0 && k > 0 && x == Pow(10, k) && mant * (x * z) == Number10(ds) * z && ds != []
    ensures ds[|ds| - 1] == 0
  {
    hide Number10, Pow;
    MulAssociates(mant, x, z);
    MulCompare(mant * x, Number10(ds), z);
    PowHead(10, k);
    TenTimes(mant, Pow(10, k - 1));
    LastDigit(ds);
  }

  lemma LastDigit(ds: seq<Digit>)
    requires ds != []
    ensures Number10(ds) % 10 == ds[|ds| - 1]
  {
  }

  /** An integer that converts to another one below 2^53 is that integer. */
  lemma {:induction false} IntegerUnique(y: nat, n: nat, m: nat, e: int)
    requires IsFinite(m, e) && 1 <= e <= 53 && m == n * Pow2(53 - e) && IsConversion(y, 10, 0, NearestEven, m, e)
    ensures y == n
  {
    hide Pow, Pow2, RoundDiv, IsFinite, Rounded, Num, Den;
    FiniteFacts(m, e);
    PlainInteger(y);
    var e0: int :| Rounded(y, 1, e0, NearestEven, m, e);
    UnitsOfInteger(y, e0, m, e);
    if e0 == e {
      MulCompare(y, n, Pow2(53 - e));
    } else {
      Doubling(53 - e);
      SameHalf(y, n, Pow2(53 - e));
    }
  }

  lemma PlainInteger(y: nat)
    ensures Num(y, 0, 10, 0) == y && Den(0, 10, 0) == 1
  {
    PowSmall(10);
    PowSmall(2);
    assert y * 1 == y;
  }

  lemma SameHalf(y: nat, n: nat, p: nat)
    requires p > 0 && 2 * (n * p) == y * (2 * p)
    ensures y == n
  {
    assert y * (2 * p) == n * (2 * p);
    MulCompare(y, n, 2 * p);
  }

  /** Above 2^-1022 and below 2^53 an integer is rounded to itself. */
  lemma {:induction false} UnitsOfInteger(y: nat, e0: int, m: nat, e: int)
    requires Rounded(y, 1, e0, NearestEven, m, e) && 1 <= e <= 53 && m >= HIDDEN_BIT
    ensures e0 <= e && 53 - e0 >= 0
    ensures (e == e0 && m == y * Pow2(53 - e0)) || (e == e0 + 1 && 2 * m == y * Pow2(53 - e0))
  {
    hide Pow, Pow2, RoundDiv;
    var u := Unit(e0);
    assert e0 >= 0 && u == e0 - 53;
    UpDown2(u);
    NoPower();
    ExactQuotientRounds(y * Pow2(53 - e0), 1);
    assert (y * Pow2(53 - e0)) * 1 == y * Pow2(53 - e0);
    assert Units(y, 1, u, NearestEven) == y * Pow2(53 - e0);
    assert (y * Pow2(53 - e0)) * Pow2(0) == y * Pow2(53 - e0);
  }

  /** Plain or exponential notation. */
  method Format(negative: bool, mant: nat, digits: nat, E: int, ghost bits: nat) returns (s: string, ghost lit: Literal)
    requires 0 < mant < Pow(10, digits) && 0 < digits <= MAX_DIGITS && -390 <= E <= 390 && mant % 10 != 0
    requires var (m, e) := Unpack(bits);
             && IsConversion(mant, 10, E - digits, NearestEven, m, e) && RoundedTo(m, e, 10, digits, mant, E)
             && (digits > 1 ==> TooFew(m, e, 10, digits - 1))
    ensures s == Text(lit) && IsLiteral(lit) && |Significant(lit)| <= 38 && lit.sign == SignOf(negative)
        && RoundsTo(lit, bits) && Shortened(lit, bits) && Usual(lit)
    ensures lit.exponent.Exponent? ==> Number10(lit.exponent.digits) < 400
    ensures |s| <= MAX_LEN
  {
    hide *;
    BitConstants();
    MantissaBelow(mant, digits);
    var x := FromU64(mant);
    var ds := OutputDigits(x, digits);
    WholeMantissa(mant, digits);
    EndDigits(ds, bits, E);
    SignTexts(negative);
    s := if negative then "-" else "";
    if E <= -6 || E > MAX_DIGITS + 4 {
      var power := AllDigitsOf(if E - 1 < 0 then 1 - E else E - 1);
      lit := Literal(SignOf(negative), ds[..1], digits > 1, ds[1..],
        Exponent(false, if E - 1 < 0 then Minus else Plus, power));
      DotText(ds, 1);
      ThreeDigits(power);
      s := s + WithDot(Chars(ds), 1) + "e" + (if E - 1 < 0 then "-" else "+") + Chars(power);
      ExponentialText(lit, ds, E, power);
      ExponentialShows(lit, ds, E, power);
      ShowsRounds(lit, ds, E, 0, 0, bits);
    } else if E <= 0 {
      lit := Literal(SignOf(negative), [0], true, Zeros(-E) + ds, NoExponent);
      s := s + "0." + Chars(Zeros(-E)) + Chars(ds);
      FractionText(lit, ds, E);
      FractionShows(lit, ds, E);
      ShowsRounds(lit, ds, E, 1 - E, 0, bits);
    } else if digits > E {
      lit := Literal(SignOf(negative), ds[..E], true, ds[E..], NoExponent);
      DotText(ds, E);
      s := s + WithDot(Chars(ds), E);
      PointText(lit, ds, E);
      PointShows(lit, ds, E);
      ShowsRounds(lit, ds, E, 0, 0, bits);
    } else {
      lit := Literal(SignOf(negative), ds + Zeros(E - digits), false, [], NoExponent);
      DotText(ds, digits);
      s := s + WithDot(Chars(ds), digits) + Chars(Zeros(E - digits));
      WholeText(lit, ds, E);
      WholeShows(lit, ds, E);
      ShowsRounds(lit, ds, E, 0, E - digits, bits);
    }
  }

  /** Neither the first nor the last digit of the mantissa is zero. */
  lemma {:induction false} EndDigits(ds: seq<Digit>, bits: nat, E: int)
    requires ds != [] && Number10(ds) % 10 != 0
    requires var (m, e) := Unpack(bits); RoundedTo(m, e, 10, |ds|, Number10(ds), E)
    ensures ds[0] != 0 && ds[|ds| - 1] != 0
  {
    hide Number10, Pow, RoundedTo, Unpack;
    LastDigit(ds);
    var (m, e) := Unpack(bits);
    RoundedToSize(m, e, 10, |ds|, Number10(ds), E);
    assert ds == [ds[0]] + ds[1..];
    NumberAppend([ds[0]], ds[1..]);
    NumberOne(ds[0]);
    NumberBound(ds[1..]);
  }

  lemma {:induction false} ThreeDigits(ds: seq<Digit>)
    requires ds != [] && ds[0] != 0 && Number10(ds) < 400
    ensures |ds| <= 3
  {
    NonzeroDigits(ds);
    assert Pow(10, 3) == 1000;
    if |ds| > 3 {
      PowMono(10, 3, |ds| - 1);
    }
  }

  lemma {:induction false} MantissaBelow(mant: nat, digits: nat)
    requires mant < Pow(10, digits) && digits <= MAX_DIGITS
    ensures mant < WIDE
  {
    RadixTen();
    PowMono(10, digits, MAX_DIGITS);
  }

  lemma WholeMantissa(mant: nat, digits: nat)
    requires mant < Pow(10, digits)
    ensures mant % Pow(10, digits) == mant
  {
    DivIs(mant, Pow(10, digits), 0, mant);
  }

  /** What a notation must show: the digits of the mantissa, possibly between zeros, and the scale. */
  ghost predicate Shows(lit: Literal, ds: seq<Digit>, E: int, lead: nat, zeros: nat) {
    && IsLiteral(lit) && lit.sign != Plus && |AllDigits(lit)| <= 38
    && AllDigits(lit) == Zeros(lead) + ds + Zeros(zeros) && Scale(lit) == E - |ds| - zeros
    && (Order(lit) == E ==> Usual(lit))
  }

  lemma {:induction false} ExponentialText(lit: Literal, ds: seq<Digit>, E: int, power: seq<Digit>)
    requires |ds| > 0 && lit.whole == ds[..1] && lit.dot == (|ds| > 1) && lit.frac == ds[1..]
    requires lit.exponent == Exponent(false, if E - 1 < 0 then Minus else Plus, power)
    ensures Text(lit) == SignText(lit.sign) + (Chars(ds[..1]) + (if 1 == |ds| then "" else ".") + Chars(ds[1..]))
        + "e" + (if E - 1 < 0 then "-" else "+") + Chars(power)
  {
    hide Chars;
  }

  lemma {:induction false} ExponentialShows(lit: Literal, ds: seq<Digit>, E: int, power: seq<Digit>)
    requires 0 < |ds| <= MAX_DIGITS && power != [] && Number10(power) == (if E - 1 < 0 then 1 - E else E - 1)
    requires ds[0] != 0 && ds[|ds| - 1] != 0 && power[0] != 0 && (E <= -6 || E > 21) && lit.sign != Plus
    requires lit.whole == ds[..1] && lit.dot == (|ds| > 1) && lit.frac == ds[1..]
    requires lit.exponent == Exponent(false, if E - 1 < 0 then Minus else Plus, power)
    ensures Shows(lit, ds, E, 0, 0)
  {
    hide Number10, LeadingZeros, Order, Zeros, AllDigits;
    NoZeroDigits(ds);
    JoinedDigits(lit, ds, 1);
    assert lit.whole[0] == ds[0];
    assert |ds| > 1 ==> lit.frac[|lit.frac| - 1] == ds[|ds| - 1];
  }

  lemma NoZeroDigits(ds: seq<Digit>)
    ensures Zeros(0) + ds + Zeros(0) == ds
  {
  }

  lemma {:induction false} FractionText(lit: Literal, ds: seq<Digit>, E: int)
    requires E <= 0 && lit.whole == [0] && lit.dot && lit.frac == Zeros(-E) + ds && lit.exponent == NoExponent
    ensures Text(lit) == SignText(lit.sign) + "0." + Chars(Zeros(-E)) + Chars(ds)
  {
    hide Zeros;
    var z := Zeros(-E);
    assert Chars([0]) == "0" && Chars(z + ds) == Chars(z) + Chars(ds);
  }

  lemma {:induction false} FractionShows(lit: Literal, ds: seq<Digit>, E: int)
    requires 0 < |ds| <= MAX_DIGITS && -6 < E <= 0 && ds[|ds| - 1] != 0 && lit.sign != Plus
    requires lit.whole == [0] && lit.dot && lit.frac == Zeros(-E) + ds && lit.exponent == NoExponent
    ensures Shows(lit, ds, E, 1 - E, 0)
  {
    hide Number10, LeadingZeros, Order;
    assert AllDigits(lit) == Zeros(1 - E) + ds + Zeros(0);
  }

  lemma {:induction false} PointText(lit: Literal, ds: seq<Digit>, E: int)
    requires 0 < E < |ds| && lit.whole == ds[..E] && lit.dot && lit.frac == ds[E..] && lit.exponent == NoExponent
    ensures Text(lit) == SignText(lit.sign) + (Chars(ds[..E]) + (if E == |ds| then "" else ".") + Chars(ds[E..]))
  {
    hide Chars;
  }

  lemma {:induction false} PointShows(lit: Literal, ds: seq<Digit>, E: int)
    requires 0 < E < |ds| <= MAX_DIGITS && ds[0] != 0 && ds[|ds| - 1] != 0 && lit.sign != Plus
    requires lit.whole == ds[..E] && lit.dot && lit.frac == ds[E..] && lit.exponent == NoExponent
    ensures Shows(lit, ds, E, 0, 0)
  {
    hide Number10, LeadingZeros, Order, Zeros, AllDigits, Usual;
    NoZeroDigits(ds);
    JoinedDigits(lit, ds, E);
    assert lit.whole[0] == ds[0];
    assert lit.frac[|lit.frac| - 1] == ds[|ds| - 1];
    PlainIsUsual(lit);
  }

  lemma PlainIsUsual(lit: Literal)
    requires lit.sign != Plus && lit.whole != [] && lit.whole[0] != 0 && lit.dot && lit.exponent == NoExponent
    requires lit.frac != [] && lit.frac[|lit.frac| - 1] != 0
    ensures -6 < Order(lit) <= 21 ==> Usual(lit)
  {
    hide Order;
  }

  lemma JoinedDigits(lit: Literal, ds: seq<Digit>, k: nat)
    requires k <= |ds| && lit.whole == ds[..k] && lit.frac == ds[k..]
    ensures AllDigits(lit) == ds
  {
  }

  lemma {:induction false} WholeText(lit: Literal, ds: seq<Digit>, E: int)
    requires 0 < |ds| <= E
    requires lit.whole == ds + Zeros(E - |ds|) && !lit.dot && lit.frac == [] && lit.exponent == NoExponent
    ensures Text(lit) == SignText(lit.sign) + (Chars(ds[..|ds|]) + (if |ds| == |ds| then "" else ".")
        + Chars(ds[|ds|..])) + Chars(Zeros(E - |ds|))
  {
    hide Zeros;
    var z := Zeros(E - |ds|);
    assert ds[..|ds|] == ds && Chars(ds[|ds|..]) == "" && Chars([]) == "";
    assert Chars(ds + z) == Chars(ds) + Chars(z);
  }

  lemma {:induction false} WholeShows(lit: Literal, ds: seq<Digit>, E: int)
    requires 0 < |ds| <= E <= MAX_DIGITS + 4 && ds[0] != 0 && lit.sign != Plus
    requires lit.whole == ds + Zeros(E - |ds|) && !lit.dot && lit.frac == [] && lit.exponent == NoExponent
    ensures Shows(lit, ds, E, 0, E - |ds|)
  {
    hide Number10, LeadingZeros, Order;
    assert AllDigits(lit) == Zeros(0) + ds + Zeros(E - |ds|);
  }

  /** Digits between zeros. */
  lemma {:induction false} SurroundedDigits(all: seq<Digit>, ds: seq<Digit>, lead: nat, zeros: nat)
    requires all == Zeros(lead) + ds + Zeros(zeros) && ds != [] && ds[0] != 0 && ds[|ds| - 1] != 0
    ensures LeadingZeros(all) == lead && all[lead..] == ds + Zeros(zeros) && WithoutZeros(all[lead..]) == ds
  {
    hide LeadingZeros, WithoutZeros;
    assert all[lead] == ds[0];
    FirstNonzero(all, lead);
    TrailingZeros(ds, zeros);
  }

  lemma FirstNonzero(ds: seq<Digit>, n: nat)
    requires n < |ds| && ds[n] != 0 && forall i :: 0 <= i < n ==> ds[i] == 0
    ensures LeadingZeros(ds) == n
  {
    hide LeadingZeros;
    var k := LeadingZeros(ds);
    assert k < |ds| ==> ds[k] != 0;
  }

  lemma {:induction false} TrailingZeros(ds: seq<Digit>, zeros: nat)
    requires ds != [] && ds[|ds| - 1] != 0
    ensures WithoutZeros(ds + Zeros(zeros)) == ds
  {
    if zeros == 0 {
      assert ds + Zeros(0) == ds;
    } else {
      var s := ds + Zeros(zeros);
      assert s[|s| - 1] == 0 && s[..|s| - 1] == ds + Zeros(zeros - 1);
      TrailingZeros(ds, zeros - 1);
    }
  }

  /** The literal denotes the value of mantissa and exponent. */
  lemma {:induction false} ShowsRounds(lit: Literal, ds: seq<Digit>, E: int, lead: nat, zeros: nat, bits: nat)
    requires Shows(lit, ds, E, lead, zeros) && ds != [] && ds[0] != 0 && ds[|ds| - 1] != 0
    requires var (m, e) := Unpack(bits);
             && IsConversion(Number10(ds), 10, E - |ds|, NearestEven, m, e)
             && RoundedTo(m, e, 10, |ds|, Number10(ds), E) && (|ds| > 1 ==> TooFew(m, e, 10, |ds| - 1))
    ensures IsLiteral(lit) && |Significant(lit)| <= 38 && RoundsTo(lit, bits) && Shortened(lit, bits) && Usual(lit)
  {
    hide Pow, Number10, IsConversion, Unpack, RoundedTo, TooFew, LeadingZeros, WithoutZeros, Usual;
    SurroundedDigits(AllDigits(lit), ds, lead, zeros);
    assert Significant(lit) == ds + Zeros(zeros);
    NumberAppend(ds, Zeros(zeros));
    NumberZeros(zeros);
    var (m, e) := Unpack(bits);
    MoreZeros(Number10(ds), E - |ds|, zeros, m, e);
    assert Order(lit) == E;
  }

  /** Appending zeros to the mantissa. */
  lemma {:induction false} MoreZeros(a: nat, f: int, zeros: nat, m: nat, e: int)
    requires IsConversion(a, 10, f, NearestEven, m, e)
    ensures IsConversion(a * Pow(10, zeros), 10, f - zeros, NearestEven, m, e)
    decreases zeros
  {
    hide IsConversion;
    if zeros == 0 {
      assert a * 1 == a;
    } else {
      MoreZeros(a, f, zeros - 1, m, e);
      AddDigit(a * Pow(10, zeros - 1), f - (zeros - 1), m, e);
      assert (a * Pow(10, zeros - 1)) * 10 == a * Pow(10, zeros);
    }
  }

  /** Removing them. */
  lemma {:induction false} FewerZeros(a: nat, f: int, zeros: nat, m: nat, e: int)
    requires IsConversion(a * Pow(10, zeros), 10, f, NearestEven, m, e)
    ensures IsConversion(a, 10, f + zeros, NearestEven, m, e)
    decreases zeros
  {
    hide IsConversion;
    if zeros == 0 {
      assert a * 1 == a;
    } else {
      assert a * Pow(10, zeros) == (a * Pow(10, zeros - 1)) * 10;
      DropDigit(a * Pow(10, zeros - 1), 10, f, m, e);
      FewerZeros(a, f + 1, zeros - 1, m, e);
    }
  }

  lemma {:induction false} AddDigit(a: nat, f: int, m: nat, e: int)
    requires IsConversion(a, 10, f, NearestEven, m, e)
    ensures IsConversion(a * 10, 10, f - 1, NearestEven, m, e)
  {
    hide Pow, Pow2, Up, Down, Rounded;
    var e0: int :| Rounded(Num(a, 0, 10, f), Den(0, 10, f), e0, NearestEven, m, e);
    NumIs(a * 10, 0, 10, f - 1);
    NumIs(a, 0, 10, f);
    NextPower(10, f - 1);
    DigitProduct(a, 10, Up(2, 0), Down(2, 0), Up(10, f - 1), Down(10, f - 1), Up(10, f), Down(10, f));
    RoundedRatio(Num(a, 0, 10, f), Den(0, 10, f), Num(a * 10, 0, 10, f - 1), Den(0, 10, f - 1), e0, NearestEven, m, e);
  }
}
