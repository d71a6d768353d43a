/** Decimal literals as text. */
module DecimalText {
  import opened Rounding

  type Digit = d: nat | d < 10

  function DigitChar(d: Digit): char { ('0' as int + d) as char }

  /** `to_digit`: 36 for what is not a digit in any radix. */
  function ToDigit(c: char): nat {
    if '0' <= c <= '9' then c as int - '0' as int
    else if 'A' <= c <= 'Z' then c as int - 'A' as int + 10
    else if 'a' <= c <= 'z' then c as int - 'a' as int + 10
    else 36
  }

  function Chars(ds: seq<Digit>): (s: string)
    ensures |s| == |ds|
  {
    seq(|ds|, i requires 0 <= i < |ds| => DigitChar(ds[i]))
  }

  lemma DigitChars()
    ensures Chars([0, 1, 2, 3, 4, 5, 6, 7, 8, 9]) == "0123456789"
  {
    var ds: seq<Digit> := [0, 1, 2, 3, 4, 5, 6, 7, 8, 9];
    assert forall i :: 0 <= i < 10 ==> Chars(ds)[i] == DigitChar(ds[i]);
  }

  /** The number that the digits denote, most significant first. */
  function Number10(ds: seq<Digit>): nat {
    if ds == [] then 0 else 10 * Number10(ds[..|ds| - 1]) + ds[|ds| - 1]
  }

  lemma {:induction false} NumberAppend(a: seq<Digit>, b: seq<Digit>)
    ensures Number10(a + b) == Number10(a) * Pow(10, |b|) + Number10(b)
    decreases |b|
  {
    if b == [] {
      assert a + b == a;
    } else {
      var m := |b| - 1;
      assert (a + b)[..|a + b| - 1] == a + b[..m] && (a + b)[|a + b| - 1] == b[m];
      NumberAppend(a, b[..m]);
      TenTimes(Number10(a), Pow(10, m));
    }
  }

  lemma TenTimes(x: int, p: int)
    ensures 10 * (x * p) == x * (10 * p)
  {
  }

  lemma {:induction false} NumberBound(ds: seq<Digit>)
    ensures Number10(ds) < Pow(10, |ds|)
  {
    if ds != [] {
      NumberBound(ds[..|ds| - 1]);
    }
  }

  lemma NumberOne(d: Digit)
    ensures Number10([d]) == d && Number10([]) == 0
  {
    assert [d][..0] == [];
  }

  function Zeros(n: nat): (z: seq<Digit>)
    ensures |z| == n
  {
    seq(n, i => 0)
  }

  lemma {:induction false} NumberZeros(n: nat)
    ensures Number10(Zeros(n)) == 0
  {
    if n > 0 {
      assert Zeros(n)[..n - 1] == Zeros(n - 1);
      NumberZeros(n - 1);
    }
  }

  lemma {:induction false} AllZeroDigits(ds: seq<Digit>)
    requires forall i :: 0 <= i < |ds| ==> ds[i] == 0
    ensures Number10(ds) == 0
  {
    assert ds == Zeros(|ds|);
    NumberZeros(|ds|);
  }

  lemma {:induction false} NonzeroDigits(ds: seq<Digit>)
    requires ds != [] && ds[0] != 0
    ensures Number10(ds) >= Pow(10, |ds| - 1)
  {
    assert ds == [ds[0]] + ds[1..];
    NumberAppend([ds[0]], ds[1..]);
    NumberOne(ds[0]);
    MulAtMost(1, ds[0], Pow(10, |ds| - 1));
  }

  // ---- literals ----

  datatype Sign = Unsigned | Plus | Minus

  /** The letter may be an `e` or an `E`. */
  datatype Exponent = NoExponent | Exponent(upper: bool, sign: Sign, digits: seq<Digit>)

  /** [+-] whole [. frac] [e [+-] digits] */
  datatype Literal = Literal(sign: Sign, whole: seq<Digit>, dot: bool, frac: seq<Digit>, exponent: Exponent)

  predicate IsLiteral(lit: Literal) {
    && |lit.whole| + |lit.frac| > 0 && (!lit.dot ==> lit.frac == [])
    && (lit.exponent.Exponent? ==> lit.exponent.digits != [])
  }

  function SignText(s: Sign): string {
    match s
    case Unsigned => ""
    case Plus => "+"
    case Minus => "-"
  }

  function ExponentText(e: Exponent): string {
    match e
    case NoExponent => ""
    case Exponent(upper, sign, digits) => (if upper then "E" else "e") + SignText(sign) + Chars(digits)
  }

  function Body(lit: Literal): string {
    Chars(lit.whole) + (if lit.dot then "." else "") + Chars(lit.frac)
  }

  function Text(lit: Literal): string {
    SignText(lit.sign) + Body(lit) + ExponentText(lit.exponent)
  }

  function AllDigits(lit: Literal): seq<Digit> { lit.whole + lit.frac }

  /** Number of leading zeros. */
  function LeadingZeros(ds: seq<Digit>): (n: nat)
    ensures n <= |ds| && (forall i :: 0 <= i < n ==> ds[i] == 0) && (n < |ds| ==> ds[n] != 0)
  {
    if ds == [] || ds[0] != 0 then 0 else 1 + LeadingZeros(ds[1..])
  }

  function Significant(lit: Literal): seq<Digit> { AllDigits(lit)[LeadingZeros(AllDigits(lit))..] }

  function ExponentValue(e: Exponent): int {
    match e
    case NoExponent => 0
    case Exponent(_, sign, digits) => if sign == Minus then 0 - Number10(digits) else Number10(digits)
  }

  // ---- a text is the text of one literal only ----

  /** A character, or the end of the string. */
  function At(s: string, i: nat): char { if i < |s| then s[i] else '\0' }

  predicate IsMark(c: char) { c == 'e' || c == 'E' }

  predicate IsSign(c: char) { c == '+' || c == '-' }

  lemma DigitOfText(ds: seq<Digit>, i: nat)
    requires i < |ds|
    ensures Chars(ds)[i] == DigitChar(ds[i]) && ToDigit(Chars(ds)[i]) == ds[i]
    ensures Chars(ds)[i] != '.' && !IsSign(Chars(ds)[i]) && !IsMark(Chars(ds)[i])
  {
  }

  lemma CharsInjective(a: seq<Digit>, b: seq<Digit>)
    requires Chars(a) == Chars(b)
    ensures a == b
  {
    assert |a| == |b|;
    forall i | 0 <= i < |a| ensures a[i] == b[i] {
      DigitOfText(a, i);
      DigitOfText(b, i);
    }
  }

  /** The characters of a body are digits, and one of them may be a point. */
  lemma {:induction false} BodyChar(lit: Literal, i: nat)
    requires i < |Body(lit)| && (!lit.dot ==> lit.frac == [])
    ensures var c := Body(lit)[i];
            && (c == '.' <==> lit.dot && i == |lit.whole|)
            && (c == '.' || (ToDigit(c) < 10 && !IsSign(c))) && !IsMark(c)
  {
    hide Chars, ToDigit;
    var n := |lit.whole|;
    if i < n {
      DigitOfText(lit.whole, i);
      assert Body(lit)[i] == Chars(lit.whole)[i];
    } else if i > n {
      DigitOfText(lit.frac, i - n - 1);
      assert Body(lit)[i] == Chars(lit.frac)[i - n - 1];
    }
  }

  lemma BodyLength(lit: Literal)
    ensures |Body(lit)| == |lit.whole| + (if lit.dot then 1 else 0) + |lit.frac|
  {
  }

  lemma {:induction false} BodyInjective(a: Literal, b: Literal)
    requires Body(a) == Body(b) && (!a.dot ==> a.frac == []) && (!b.dot ==> b.frac == [])
    ensures a.whole == b.whole && a.dot == b.dot && a.frac == b.frac
  {
    hide Chars, ToDigit;
    var s := Body(a);
    assert |a.whole| == |b.whole| && a.dot == b.dot by {
      BodyLength(a);
      BodyLength(b);
      if a.dot {
        BodyChar(a, |a.whole|);
        BodyChar(b, |a.whole|);
      }
      if b.dot {
        BodyChar(a, |b.whole|);
        BodyChar(b, |b.whole|);
      }
    }
    var n, k := |a.whole|, |a.whole| + if a.dot then 1 else 0;
    assert s[..n] == Chars(a.whole) == Chars(b.whole);
    assert s[k..] == Chars(a.frac) == Chars(b.frac);
    CharsInjective(a.whole, b.whole);
    CharsInjective(a.frac, b.frac);
  }

  lemma {:induction false} ExponentInjective(a: Exponent, b: Exponent)
    requires ExponentText(a) == ExponentText(b)
    requires (a.Exponent? ==> a.digits != []) && (b.Exponent? ==> b.digits != [])
    ensures a == b
  {
    hide Chars, ToDigit;
    if a.Exponent? && b.Exponent? {
      var s := ExponentText(a);
      assert s[0] == (if a.upper then 'E' else 'e') == (if b.upper then 'E' else 'e');
      SecondChar(a);
      SecondChar(b);
      var k := 1 + |SignText(a.sign)|;
      assert s[k..] == Chars(a.digits) == Chars(b.digits);
      CharsInjective(a.digits, b.digits);
    }
  }

  lemma {:induction false} SecondChar(e: Exponent)
    requires e.Exponent? && e.digits != []
    ensures |ExponentText(e)| > 1 && IsMark(ExponentText(e)[0])
    ensures match e.sign
            case Unsigned => !IsSign(ExponentText(e)[1]) && ToDigit(ExponentText(e)[1]) < 10
            case Plus => ExponentText(e)[1] == '+'
            case Minus => ExponentText(e)[1] == '-'
  {
    hide Chars, ToDigit;
    DigitOfText(e.digits, 0);
    if e.sign == Unsigned {
      assert ExponentText(e)[1] == Chars(e.digits)[0];
    }
  }

  /** The sign that a text starts with. */
  function SignAt(s: string): Sign {
    if At(s, 0) == '+' then Plus else if At(s, 0) == '-' then Minus else Unsigned
  }

  function SignLength(sign: Sign): nat { if sign == Unsigned then 0 else 1 }

  /** The first n characters are a literal. */
  ghost predicate StartsWith(s: string, n: nat, lit: Literal) { n <= |s| && s[..n] == Text(lit) && IsLiteral(lit) }

  /** Where the parts of a literal are in a text that starts with it. */
  lemma {:induction false} Parts(s: string, n: nat, lit: Literal)
    requires StartsWith(s, n, lit)
    ensures var k := SignLength(lit.sign);
            var q := k + |Body(lit)|;
            && lit.sign == SignAt(s) && k < q <= n && s[k..q] == Body(lit) && s[q..n] == ExponentText(lit.exponent)
  {
    hide Chars, ToDigit;
    BodyLength(lit);
    BodyChar(lit, 0);
    var k := SignLength(lit.sign);
    var q := k + |Body(lit)|;
    var t := s[..n];
    assert t[k..q] == Body(lit) && t[q..] == ExponentText(lit.exponent);
    assert s[k..q] == t[k..q] && s[q..n] == t[q..];
    if lit.sign == Unsigned {
      assert s[0] == t[0] == Body(lit)[0];
    } else {
      assert s[0] == t[0] == SignText(lit.sign)[0];
    }
  }

  /** No text is the text of two literals. */
  lemma {:induction false} TextInjective(a: Literal, b: Literal)
    requires IsLiteral(a) && IsLiteral(b) && Text(a) == Text(b)
    ensures a == b
  {
    hide Body, ExponentText, Text, Chars, ToDigit;
    var s := Text(a);
    assert s[..|s|] == s;
    Parts(s, |s|, a);
    Parts(s, |s|, b);
    SameBodyLength(s, |s|, a, b);
    BodyInjective(a, b);
    ExponentInjective(a.exponent, b.exponent);
  }

  lemma {:induction false} SameBodyLength(s: string, n: nat, a: Literal, b: Literal)
    requires StartsWith(s, n, a) && StartsWith(s, n, b)
    ensures |Body(a)| == |Body(b)|
  {
    hide Body, ExponentText, Text, Chars, ToDigit;
    Parts(s, n, a);
    Parts(s, n, b);
    if |Body(a)| < |Body(b)| {
      NoMarkInBody(s, n, a, b);
    } else if |Body(b)| < |Body(a)| {
      NoMarkInBody(s, n, b, a);
    }
  }

  lemma {:induction false} NoMarkInBody(s: string, n: nat, a: Literal, b: Literal)
    requires StartsWith(s, n, a) && StartsWith(s, n, b)
    ensures |Body(a)| >= |Body(b)|
  {
    hide Body, ExponentText, Text, Chars, ToDigit;
    Parts(s, n, a);
    Parts(s, n, b);
    var k := SignLength(a.sign);
    var q := k + |Body(a)|;
    if |Body(a)| < |Body(b)| {
      assert s[q] == s[k..k + |Body(b)|][|Body(a)|];
      BodyChar(b, |Body(a)|);
      assert s[q] == s[q..n][0];
      NonemptyExponent(a.exponent);
      SecondChar(a.exponent);
    }
  }

  lemma NonemptyExponent(e: Exponent)
    ensures |ExponentText(e)| > 0 <==> e.Exponent?
  {
  }
}
