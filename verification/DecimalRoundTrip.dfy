/** Printing a double in radix 10 and parsing the text gives the double back. */
module DecimalRoundTrip {
  import opened Rounding
  import opened IntegerRounding
  import opened Doubles
  import opened FloatConversion
  import opened DecimalText
  import opened Printing
  import opened Parsing

  /** A value that rounds to a finite double is neither taken for an overflow nor for an underflow. */
  lemma {:induction false} FiniteConversion(a: nat, f: int, bits: nat, m: nat, e: int)
    requires IsFinite(m, e) && IsConversion(a, 10, f, NearestEven, m, e) && ConvertsTo(a, f, bits)
    ensures bits == Pack(m, e)
  {
    hide Pow, Pow2, Num, Den, RoundDiv, BelowPower, Units, Pack;
    var n, d := Num(a, 0, 10, f), Den(0, 10, f);
    var e0: int :| Rounded(n, d, e0, NearestEven, m, e);
    assert e0 <= 1024;
    BelowMono(n, d, e0, 1024);
    if BelowPower(n, d, -1075) {
      TinyIsZero(n, d);
      if e0 > -1075 {
        BelowMono(n, d, -1075, e0 - 1);
      }
    } else if m1: nat, e1: int :| IsConversion(a, 10, f, NearestEven, m1, e1) && bits == Pack(m1, e1) {
      ConversionUnique(a, 10, f, m, e, m1, e1);
    }
  }

  /** For at most 38 significant digits the parser keeps the value of the literal. */
  lemma {:induction false} NothingDropped(lit: Literal)
    requires |Significant(lit)| <= KEPT_DIGITS
    ensures Kept(lit) == Significant(lit) && KeptScale(lit) == Scale(lit)
  {
  }

  /** The bits that the parser finds in the text of a double are the bits of the double. */
  lemma {:induction false} PrintedConverts(lit: Literal, mag: nat, bits: nat)
    requires 0 < mag < INFINITY_BITS && RoundsTo(lit, mag) && |Significant(lit)| <= 38 && Converts(lit, bits)
    ensures bits == mag
  {
    hide Pow, Pow2, IsConversion, ConvertsTo, Unpack, Pack, Significant, Kept, Number10, Scale, KeptScale;
    PackUnpack(mag);
    NothingDropped(lit);
    var (m, e) := Unpack(mag);
    SignificantNonzero(lit, m, e);
    FiniteConversion(Number10(Significant(lit)), Scale(lit), bits, m, e);
  }

  /** The order of the text of a double is small. */
  lemma {:induction false} PrintedOrder(lit: Literal, mag: nat)
    requires 0 < mag < INFINITY_BITS && RoundsTo(lit, mag) && |Significant(lit)| <= 38
    ensures IsInt(Order(lit))
  {
    hide Pow, Pow2, IsConversion, ConvertsTo, Unpack, Pack, Significant, Kept, Number10, Scale, KeptScale, Order;
    PackUnpack(mag);
    NothingDropped(lit);
    var (m, e) := Unpack(mag);
    SignificantNonzero(lit, m, e);
    KeptFacts(lit);
    var far := if Order(lit) > 0 then INFINITY_BITS else 0;
    if !IsInt(Order(lit)) {
      FarConverts(lit, far);
      FiniteConversion(Number10(Significant(lit)), Scale(lit), far, m, e);
    }
  }

  /** Zero converts to zero. */
  lemma {:induction false} SignificantNonzero(lit: Literal, m: nat, e: int)
    requires m != 0 && IsConversion(Number10(Significant(lit)), 10, Scale(lit), NearestEven, m, e)
    ensures Significant(lit) != []
  {
    hide Pow, Pow2;
    if Significant(lit) == [] {
      var n, d := Num(0, 0, 10, Scale(lit)), Den(0, 10, Scale(lit));
      assert n == 0;
      var e0: int :| Rounded(n, d, e0, NearestEven, m, e);
      assert 0 * Down(2, e0 - 1) == 0;
      MulLess(0, d, Up(2, e0 - 1));
    }
  }

  /** `js_atod` of what `js_dtoa` prints. */
  method PrintAndParse(bits: nat, minusZero: bool) returns (s: string, r: Parsed)
    requires bits < 2 * SIGN_BIT && bits % SIGN_BIT < INFINITY_BITS
    ensures r.Parsed? && r.next == |s|
    ensures bits % SIGN_BIT > 0 || minusZero ==> r.bits == bits
    ensures bits % SIGN_BIT == 0 && !minusZero ==> r.bits == 0
  {
    hide *;
    BitConstants();
    ghost var lit, printPeak, parsePeak;
    s, lit, printPeak := Dtoa(bits, minusZero);
    PrintedIsLongest(s, lit);
    ShortText();
    ghost var found;
    r, found, parsePeak := Atod(s);
    if r.Parsed? {
      LongestFacts(s, r.next, found, |s|, lit);
      SameLiteral(s, r.next, found, lit);
    }
    ghost var mag := bits % SIGN_BIT;
    if mag > 0 {
      ModestExponent(lit);
      PrintedOrder(lit, mag);
      PrintedConverts(lit, mag, r.bits - SignBit(lit.sign));
    } else {
      ZeroConverts(lit, r.bits - SignBit(lit.sign));
    }
    SplitSign(bits);
    SignBits(bits >= SIGN_BIT && (mag > 0 || minusZero));
  }

  /** A text that is a literal starts with no longer one, and it is not `Infinity`. */
  lemma {:induction false} PrintedIsLongest(s: string, lit: Literal)
    requires s == Text(lit) && IsLiteral(lit)
    ensures StartsWith(s, |s|, lit) && Longest(s, |s|, lit) && !Dangling(s, |s|, lit) && !IsInfinity(s)
  {
    hide Text, Body, ExponentText, Chars, ToDigit;
    assert s[..|s|] == s;
    Parts(s, |s|, lit);
    var k := SignLength(lit.sign);
    assert s[k] == s[k..k + |Body(lit)|][0];
    if IsInfinity(s) {
      assert s[k] == s[k..k + 8][0];
      LetterI();
      BodyChar(lit, 0);
    }
  }

  lemma LetterI()
    ensures ToDigit('I') == 18
  {
  }

  lemma SameLiteral(s: string, n: nat, a: Literal, b: Literal)
    requires StartsWith(s, n, a) && s == Text(b) && IsLiteral(b) && n == |s|
    ensures a == b
  {
    hide Text;
    assert s[..n] == s;
    TextInjective(a, b);
  }

  lemma SignBits(negative: bool)
    ensures SignBit(SignOf(negative)) == if negative then SIGN_BIT else 0
  {
  }

  lemma ShortText()
    ensures MAX_LEN < INT_LIMIT
  {
  }

  lemma ModestExponent(lit: Literal)
    requires lit.exponent.Exponent? ==> Number10(lit.exponent.digits) < 400
    ensures !HugeExponent(lit)
  {
  }

  lemma ZeroConverts(lit: Literal, bits: nat)
    requires Significant(lit) == [] && Converts(lit, bits)
    ensures bits == 0
  {
  }

  lemma SplitSign(bits: nat)
    requires bits < 2 * SIGN_BIT
    ensures bits == bits % SIGN_BIT + if bits >= SIGN_BIT then SIGN_BIT else 0
  {
  }
}
