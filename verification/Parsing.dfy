/** `js_atod` in radix 10: the parser of decimal literals and the conversion of what it has read. */
module Parsing {
  import opened Rounding
  import opened Reciprocal
  import opened Limbs
  import opened Bignum
  import opened RadixPower
  import opened IntegerRounding
  import opened Doubles
  import opened FloatConversion
  import opened FreeFormat
  import opened Log10
  import opened DecimalText
  import opened Printing

  /** `atod_max_digits_table`: further digits are dropped. */
  const KEPT_DIGITS: nat := 38
  const MAX_EXPONENT: int := 309
  const UNDERFLOW_EXPONENT: int := -324
  /** To an exponent beyond this no digit is added any more. */
  const EXPONENT_LIMIT: nat := 214748363
  /** The largest exponent that is accumulated. */
  const EXPONENT_MAX: int := 2147483639
  /** The type `int` of the exponents has 32 bits. */
  const INT_LIMIT: int := 0x8000_0000
  /** Strings are shorter than this (`JS_STRING_LEN_MAX`). */
  const TEXT_LIMIT: int := 0x4000_0000

  /** What is left of the sum or difference `x` of two 32-bit numbers, with wrap-around. */
  function Wrap32(x: int): int {
    (x + INT_LIMIT) % (2 * INT_LIMIT) - INT_LIMIT
  }

  datatype Parsed = NotANumber | Parsed(bits: nat, next: nat)

  // ---- what a text starts with ----

  /** The longest literal at the start. */
  ghost predicate Longest(s: string, n: nat, lit: Literal) {
    StartsWith(s, n, lit) && forall k: nat, l: Literal :: StartsWith(s, k, l) ==> k <= n
  }

  /** Behind the literal stands the letter of an exponent, but no exponent. */
  predicate Dangling(s: string, n: nat, lit: Literal) { lit.exponent.NoExponent? && IsMark(At(s, n)) }

  predicate IsInfinity(s: string) {
    var k := SignLength(SignAt(s));
    k + 8 <= |s| && s[k..k + 8] == "Infinity"
  }

  function SignBit(sign: Sign): nat { if sign == Minus then SIGN_BIT else 0 }

  // ---- accumulation of digits ----

  /** `mpb_mul1_base`: x b + a. */
  method MulBase(x: Number, b: Limb, a: Limb)
    requires x.tab != [] && IsNormal(x.tab) && b > 0 && |x.tab| <= x.peak
    modifies x
    ensures x.tab != [] && IsNormal(x.tab) && Value(x.tab) == Value(old(x.tab)) * b + a
    ensures |x.tab| <= x.peak && |x.tab| <= |old(x.tab)| + 1
    ensures x.peak <= old(x.peak) || x.peak <= |old(x.tab)| + 1
  {
    hide *;
    ghost var was := x.tab;
    if |x.tab| == 1 && x.tab[0] == 0 {
      x.tab := [a];
      OneLimb(a);
      ZeroLimb(was);
    } else {
      var l := x.Mul1(b, a);
      AppendTop(x.tab, l);
      x.Grow(x.tab + [l]);
      Renorm(x);
    }
  }

  lemma ZeroLimb(s: seq<Limb>)
    requires |s| == 1 && s[0] == 0
    ensures Value(s) == 0
  {
    assert s == [0];
    ValueOne(0);
  }

  /** The kept digits: whole chunks of nine in the number, the last k of them in `cur`. */
  ghost predicate Gathered(taken: seq<Digit>, value: nat, cur: nat, k: nat) {
    k < 9 && cur < Pow(10, k) && value * Pow(10, k) + cur == Number10(taken)
  }

  lemma GatheredStart()
    ensures Gathered([], 0, 0, 0)
  {
    assert Pow(10, 0) == 1;
  }

  lemma {:induction false} GatherDigit(taken: seq<Digit>, value: nat, cur: nat, k: nat, c: Digit)
    requires Gathered(taken, value, cur, k)
    ensures cur * 10 + c < Pow(10, k + 1) <= CHUNK
    ensures value * Pow(10, k + 1) + (cur * 10 + c) == Number10(taken + [c])
    ensures k + 1 < 9 ==> Gathered(taken + [c], value, cur * 10 + c, k + 1)
    ensures k + 1 == 9 ==> Gathered(taken + [c], value * CHUNK + (cur * 10 + c), 0, 0)
  {
    hide Number10;
    NumberAppend(taken, [c]);
    NumberOne(c);
    PowSmall(10);
    ChunkIs();
    PowMono(10, k + 1, 9);
    assert Pow(10, k + 1) == 10 * Pow(10, k);
    TenTimes(value, Pow(10, k));
    assert (value * Pow(10, k) + cur) * 10 == 10 * (value * Pow(10, k)) + cur * 10;
  }

  // ---- the digit loops ----

  /** A point is accepted after something, or before a digit. */
  predicate DotHere(s: string, start: nat, p: nat) { At(s, p) == '.' && (p > start || ToDigit(At(s, p + 1)) < 10) }

  /** The digits `ds` have been read, the point after the first `dotPos` of them; `dotPos` is -1 before the point. A
      point that nothing precedes has a digit behind it. */
  ghost predicate Read(s: string, start: nat, p: nat, ds: seq<Digit>, dotPos: int) {
    && start <= p <= |s| && -1 <= dotPos <= |ds|
    && s[start..p] == (if dotPos == -1 then Chars(ds) else Chars(ds[..dotPos]) + "." + Chars(ds[dotPos..]))
    && (ds == [] && dotPos != -1 ==> ToDigit(At(s, p)) < 10)
  }

  lemma ReadStart(s: string, start: nat)
    requires start <= |s|
    ensures Read(s, start, start, [], -1)
  {
  }

  lemma ReadIs(s: string, start: nat, p: nat, ds: seq<Digit>, dotPos: int)
    requires Read(s, start, p, ds, dotPos)
    ensures start <= p <= |s| && -1 <= dotPos <= |ds|
  {
  }

  lemma {:induction false} ReadDot(s: string, start: nat, p: nat, ds: seq<Digit>)
    requires Read(s, start, p, ds, -1) && DotHere(s, start, p)
    ensures p < |s| && Read(s, start, p + 1, ds, |ds|)
  {
    assert s[start..p + 1] == s[start..p] + [s[p]];
    assert ds[..|ds|] == ds && Chars(ds[|ds|..]) == "";
    assert p == start + |ds|;
  }

  lemma {:induction false} ReadDigit(s: string, start: nat, p: nat, ds: seq<Digit>, dotPos: int)
    requires Read(s, start, p, ds, dotPos) && ToDigit(At(s, p)) < 10
    ensures p < |s| && Read(s, start, p + 1, ds + [ToDigit(At(s, p))], dotPos)
  {
    hide Chars, ToDigit, DigitChar;
    var c := ToDigit(At(s, p));
    var ds1 := ds + [c];
    CharOfDigit(At(s, p));
    assert s[start..p + 1] == s[start..p] + [s[p]];
    if dotPos == -1 {
      CharsAppend(ds, c);
    } else {
      assert ds1[..dotPos] == ds[..dotPos] && ds1[dotPos..] == ds[dotPos..] + [c];
      CharsAppend(ds[dotPos..], c);
    }
  }

  /** No zero and no point follows. */
  predicate ZerosEnd(s: string, start: nat, p: nat, dotPos: int) {
    At(s, p) != '0' && (dotPos != -1 || !DotHere(s, start, p))
  }

  /** Skip leading zeros, and the point if it is among them. */
  method SkipZeros(s: string, start: nat) returns (p: nat, pos: nat, dotPos: int)
    requires start <= |s|
    ensures Read(s, start, p, Zeros(pos), dotPos) && ZerosEnd(s, start, p, dotPos)
  {
    hide *;
    p, pos, dotPos := start, 0, -1;
    ReadStart(s, start);
    NoZeros();
    while true
      invariant Read(s, start, p, Zeros(pos), dotPos)
      decreases |s| - p
    {
      ReadIs(s, start, p, Zeros(pos), dotPos);
      if DotHere(s, start, p) {
        DotIs(s, start, p);
        if dotPos >= 0 {
          ZerosEndIs(s, start, p, dotPos);
          break;
        }
        ReadDot(s, start, p, Zeros(pos));
        dotPos := pos;
        p := p + 1;
        ReadIs(s, start, p, Zeros(pos), dotPos);
      }
      Inside(s, p);
      if At(s, p) != '0' {
        ZerosEndIs(s, start, p, dotPos);
        break;
      }
      ZeroDigit();
      ReadDigit(s, start, p, Zeros(pos), dotPos);
      OneMoreZero(pos);
      p := p + 1;
      pos := pos + 1;
    }
  }

  lemma NoZeros()
    ensures Zeros(0) == []
  {
  }

  lemma OneMoreZero(n: nat)
    ensures Zeros(n) + [0] == Zeros(n + 1)
  {
  }

  lemma ZerosEndIs(s: string, start: nat, p: nat, dotPos: int)
    ensures ZerosEnd(s, start, p, dotPos) <==> At(s, p) != '0' && (dotPos != -1 || !DotHere(s, start, p))
  {
  }

  lemma Inside(s: string, p: nat)
    requires p <= |s|
    ensures p < |s| || At(s, p) == '\0'
    ensures DotHere(s, 0, p) ==> p < |s|
    ensures forall start: nat :: DotHere(s, start, p) ==> p < |s|
  {
  }

  lemma DotIs(s: string, start: nat, p: nat)
    requires DotHere(s, start, p)
    ensures At(s, p) == '.' && ToDigit('.') == 36
  {
  }

  lemma ZeroDigit()
    ensures ToDigit('0') == 0
  {
  }

  /** The digits kept, out of the significant ones. */
  function Kept(lit: Literal): seq<Digit> {
    var sig := Significant(lit);
    if |sig| <= KEPT_DIGITS then sig else sig[..KEPT_DIGITS]
  }

  /** Zeros, then significant digits; the first 38 of these are kept. */
  ghost predicate Split(s: string, start: nat, p: nat, ds: seq<Digit>, dotPos: int, sig: nat, taken: seq<Digit>) {
    && sig <= |ds| && (forall i :: 0 <= i < sig ==> ds[i] == 0)
    && (if sig < |ds| then ds[sig] != 0 else ZerosEnd(s, start, p, dotPos))
    && |taken| == (if |ds| - sig <= KEPT_DIGITS then |ds| - sig else KEPT_DIGITS) && taken == ds[sig..sig + |taken|]
  }

  lemma SplitStart(s: string, start: nat, p: nat, pos: nat, dotPos: int)
    requires ZerosEnd(s, start, p, dotPos)
    ensures Split(s, start, p, Zeros(pos), dotPos, pos, [])
  {
  }

  lemma SplitDot(s: string, start: nat, p: nat, ds: seq<Digit>, sig: nat, taken: seq<Digit>)
    requires Split(s, start, p, ds, -1, sig, taken) && DotHere(s, start, p)
    ensures Split(s, start, p + 1, ds, |ds|, sig, taken)
  {
  }

  lemma {:induction false} SplitDigit(s: string, start: nat, p: nat, ds: seq<Digit>, dotPos: int, sig: nat,
      taken: seq<Digit>)
    requires Split(s, start, p, ds, dotPos, sig, taken) && ToDigit(At(s, p)) < 10
    ensures |taken| <= KEPT_DIGITS
    ensures var c := ToDigit(At(s, p));
            Split(s, start, p + 1, ds + [c], dotPos, sig, if |taken| < KEPT_DIGITS then taken + [c] else taken)
  {
    hide DotHere;
    var c := ToDigit(At(s, p));
    var ds1 := ds + [c];
    assert forall i :: 0 <= i < |ds| ==> ds1[i] == ds[i];
    if |taken| < KEPT_DIGITS {
      assert ds1[sig..sig + |taken| + 1] == taken + [c];
    } else {
      assert ds1[sig..sig + |taken|] == taken;
    }
  }

  /** The literal that has been read so far. */
  ghost function Scanned(sign: Sign, ds: seq<Digit>, dotPos: int): Literal
    requires dotPos <= |ds|
  {
    if dotPos < 0 then Literal(sign, ds, false, [], NoExponent)
    else Literal(sign, ds[..dotPos], true, ds[dotPos..], NoExponent)
  }

  /** `body` stands between `start` and `p`, and it cannot be continued. */
  ghost predicate Scan(s: string, start: nat, p: nat, body: Literal) {
    && start <= p <= |s| && s[start..p] == Body(body) && (!body.dot ==> body.frac == [])
    && body.exponent == NoExponent && (p > start <==> |body.whole| + |body.frac| > 0)
    && ToDigit(At(s, p)) >= 10 && (body.dot || !DotHere(s, start, p))
  }

  lemma {:induction false} ScanEnd(s: string, start: nat, p: nat, ds: seq<Digit>, dotPos: int, sig: nat,
      taken: seq<Digit>, sign: Sign)
    requires Read(s, start, p, ds, dotPos) && Split(s, start, p, ds, dotPos, sig, taken)
    requires ToDigit(At(s, p)) >= 10 && (dotPos != -1 || !DotHere(s, start, p))
    ensures var body := Scanned(sign, ds, dotPos);
            && Scan(s, start, p, body) && body.sign == sign && taken == Kept(body)
            && sig == LeadingZeros(AllDigits(body)) && |body.whole| == if dotPos < 0 then |ds| else dotPos
  {
    hide Chars, ToDigit, DotHere, LeadingZeros;
    var body := Scanned(sign, ds, dotPos);
    assert AllDigits(body) == ds;
    ZeroCount(ds, sig);
    assert ds[sig..][..|taken|] == ds[sig..sig + |taken|];
    assert ds[sig..][..|ds| - sig] == ds[sig..];
    assert |Chars(body.whole)| == |body.whole| && |Chars(body.frac)| == |body.frac|;
    assert |s[start..p]| == p - start;
    assert dotPos < 0 ==> Chars([]) == "" by { NoChars(); }
  }

  lemma NoChars()
    ensures Chars([]) == ""
  {
  }

  lemma ZeroCount(ds: seq<Digit>, n: nat)
    requires n <= |ds| && (forall i :: 0 <= i < n ==> ds[i] == 0) && (n < |ds| ==> ds[n] != 0)
    ensures LeadingZeros(ds) == n
  {
    hide LeadingZeros;
    var k := LeadingZeros(ds);
    assert k < |ds| ==> ds[k] != 0;
  }

  /** Read the significant digits into a number. */
  method ReadNumber(s: string, start: nat, ghost sign: Sign)
      returns (x: Number, p: nat, sig: nat, dotPos: int, count: nat, ghost body: Literal)
    requires start <= |s|
    ensures fresh(x) && x.tab != [] && IsNormal(x.tab) && |x.tab| <= x.peak <= 6
    ensures Scan(s, start, p, body) && body.sign == sign
    ensures Value(x.tab) == Number10(Kept(body)) && count == |Kept(body)| <= KEPT_DIGITS
    ensures sig == LeadingZeros(AllDigits(body)) && dotPos == |body.whole|
  {
    hide *;
    Constants();
    ChunkIs();
    KeptIs();
    var pos;
    p, pos, dotPos := SkipZeros(s, start);
    x := new Number([0]);
    OneLimb(0);
    GatheredStart();
    sig, count := pos, 0;
    ghost var ds: seq<Digit>, taken: seq<Digit> := Zeros(pos), [];
    SplitStart(s, start, p, pos, dotPos);
    var cur, k := 0, 0;
    ghost var chunks := 0;
    while true
      invariant fresh(x) && x.tab != [] && IsNormal(x.tab) && pos == |ds|
      invariant |x.tab| <= x.peak <= 1 + chunks && count == 9 * chunks + k
      invariant Read(s, start, p, ds, dotPos) && Split(s, start, p, ds, dotPos, sig, taken)
      invariant count == |taken| <= KEPT_DIGITS
      invariant 0 <= k < 9 && 0 <= cur < CHUNK && Gathered(taken, Value(x.tab), cur, k)
      decreases |s| - p
    {
      ReadIs(s, start, p, ds, dotPos);
      if DotHere(s, start, p) {
        DotIs(s, start, p);
        if dotPos >= 0 {
          break;
        }
        ReadDot(s, start, p, ds);
        SplitDot(s, start, p, ds, sig, taken);
        dotPos := pos;
        p := p + 1;
        ReadIs(s, start, p, ds, dotPos);
      }
      Inside(s, p);
      var c := ToDigit(At(s, p));
      NulIsNoDigit();
      if c >= 10 {
        break;
      }
      ReadDigit(s, start, p, ds, dotPos);
      SplitDigit(s, start, p, ds, dotPos, sig, taken);
      ds := ds + [c];
      if count < KEPT_DIGITS {
        GatherDigit(taken, Value(x.tab), cur, k, c);
        taken := taken + [c];
        count := count + 1;
        cur := cur * 10 + c;
        k := k + 1;
        if k == 9 {
          MulBase(x, CHUNK, cur);
          cur, k := 0, 0;
          chunks := chunks + 1;
        }
      }
      p := p + 1;
      pos := pos + 1;
    }
    ReadIs(s, start, p, ds, dotPos);
    ScanEnd(s, start, p, ds, dotPos, sig, taken, sign);
    body := Scanned(sign, ds, dotPos);
    if dotPos < 0 {
      dotPos := pos;
    }
    if k != 0 {
      LastChunk(taken, Value(x.tab), cur, k);
      var b := PowUi(10, k);
      MulBase(x, b, cur);
    } else {
      NoChunk(taken, Value(x.tab), cur);
    }
  }

  lemma KeptIs()
    ensures KEPT_DIGITS == 38
  {
  }

  lemma NulIsNoDigit()
    ensures ToDigit('\0') == 36
  {
  }

  lemma LastChunk(taken: seq<Digit>, value: nat, cur: nat, k: nat)
    requires Gathered(taken, value, cur, k)
    ensures 0 < Pow(10, k) < BASE < WIDE && value * Pow(10, k) + cur == Number10(taken)
  {
    PowMono(10, k, 9);
    ChunkIs();
  }

  lemma NoChunk(taken: seq<Digit>, value: nat, cur: nat)
    requires Gathered(taken, value, cur, 0)
    ensures value == Number10(taken)
  {
    assert Pow(10, 0) == 1;
  }

  // ---- the exponent ----

  /** What has been accumulated of the exponent. */
  ghost predicate Accumulated(digits: seq<Digit>, expn: nat, overflow: bool) {
    if overflow then Number10(digits) > EXPONENT_MAX else expn == Number10(digits) <= EXPONENT_MAX
  }

  /** The exponent has been read up to `p`. */
  ghost predicate ExponentPrefix(s: string, p0: nat, p: nat, e: Exponent) {
    p0 <= p <= |s| && e.Exponent? && s[p0..p] == ExponentText(e)
  }

  lemma {:induction false} ExponentStep(s: string, p0: nat, p: nat, e: Exponent, expn: nat, overflow: bool)
    requires ExponentPrefix(s, p0, p, e) && Accumulated(e.digits, expn, overflow) && ToDigit(At(s, p)) < 10
    ensures var c := ToDigit(At(s, p));
            var ds := e.digits + [c];
            && p < |s| && ExponentPrefix(s, p0, p + 1, e.(digits := ds))
            && (overflow || expn > EXPONENT_LIMIT ==> Accumulated(ds, expn, true))
            && (!overflow && expn <= EXPONENT_LIMIT ==> Accumulated(ds, expn * 10 + c, false))
  {
    hide Number10, ToDigit, ExponentText;
    var c := ToDigit(At(s, p));
    CharOfDigit(At(s, p));
    assert s[p0..p + 1] == s[p0..p] + [s[p]];
    ExponentGrows(e, c);
    NumberAppend(e.digits, [c]);
    NumberOne(c);
    PowSmall(10);
  }

  lemma CharsAppend(ds: seq<Digit>, c: Digit)
    ensures Chars(ds + [c]) == Chars(ds) + [DigitChar(c)]
  {
  }

  lemma CharOfDigit(c: char)
    requires ToDigit(c) < 10
    ensures c == DigitChar(ToDigit(c)) && c != '\0'
  {
  }

  lemma ExponentGrows(e: Exponent, c: Digit)
    requires e.Exponent?
    ensures ExponentText(e.(digits := e.digits + [c])) == ExponentText(e) + [DigitChar(c)]
  {
    CharsAppend(e.digits, c);
  }

  /** The letter and the sign. */
  lemma {:induction false} ExponentBegins(s: string, p0: nat)
    requires IsMark(At(s, p0))
    ensures p0 < |s|
    ensures var q := p0 + 1;
            var p := if IsSign(At(s, q)) then q + 1 else q;
            var sign := if At(s, q) == '+' then Plus else if At(s, q) == '-' then Minus else Unsigned;
            ExponentPrefix(s, p0, p, Exponent(At(s, p0) == 'E', sign, [])) && Accumulated([], 0, false)
  {
    assert Chars([]) == "";
    if IsSign(At(s, p0 + 1)) {
      assert s[p0..p0 + 2] == [s[p0]] + [s[p0 + 1]];
    } else {
      assert s[p0..p0 + 1] == [s[p0]];
    }
  }

  lemma MarkIs(c: char)
    ensures IsMark(c) <==> c == 'e' || c == 'E'
    ensures IsSign(c) <==> c == '+' || c == '-'
    ensures !IsMark('\0')
  {
  }

  /** Outcome of reading the exponent. */
  datatype ExponentResult = BadExponent | ExponentResult(p: nat, expn: int, overflow: bool, negative: bool)

  /** No exponent begins at `p0`: neither letter, or no digit behind letter and sign. */
  predicate NoDigitsAt(s: string, p0: nat) {
    var p := if IsSign(At(s, p0 + 1)) then p0 + 2 else p0 + 1;
    IsMark(At(s, p0)) && ToDigit(At(s, p)) >= 10
  }

  /** What `r` says about the exponent that has been read. */
  ghost predicate ExponentDone(s: string, start: nat, p0: nat, e: Exponent, r: ExponentResult) {
    match r
    case BadExponent => NoDigitsAt(s, p0) && p0 > start
    case ExponentResult(p, expn, overflow, negative) =>
      && p0 <= p <= |s| && s[p0..p] == ExponentText(e) && (e.Exponent? ==> e.digits != [] && p0 > start)
      && (if e.Exponent? then ToDigit(At(s, p)) >= 10 else p0 == start || !IsMark(At(s, p0)))
      && (overflow <==> IsHuge(e)) && (overflow ==> negative == (e.sign == Minus))
      && (!overflow ==> expn == ExponentValue(e) && -EXPONENT_MAX <= expn <= EXPONENT_MAX)
  }

  method ReadExponent(s: string, start: nat, p0: nat) returns (r: ExponentResult, ghost e: Exponent)
    requires start <= p0 <= |s|
    ensures ExponentDone(s, start, p0, e, r)
  {
    hide *;
    e := NoExponent;
    MarkIs(At(s, p0));
    if !((At(s, p0) == 'e' || At(s, p0) == 'E') && p0 > start) {
      NothingRead(s, start, p0);
      return ExponentResult(p0, 0, false, false), e;
    }
    ExponentBegins(s, p0);
    MarkIs(At(s, p0 + 1));
    var p := p0 + 1;
    var negative := false;
    e := Exponent(At(s, p0) == 'E', Unsigned, []);
    Inside(s, p);
    if At(s, p) == '+' {
      p := p + 1;
      e := e.(sign := Plus);
    } else if At(s, p) == '-' {
      negative := true;
      p := p + 1;
      e := e.(sign := Minus);
    }
    var c := ToDigit(At(s, p));
    if c >= 10 {
      BadDone(s, start, p0, p, e);
      return BadExponent, e;
    }
    LimitIs();
    // the first digit, then the others
    ExponentStep(s, p0, p, e, 0, false);
    e := e.(digits := e.digits + [c]);
    ghost var sign := e.sign;
    FirstValue(c);
    var expn, overflow := c, false;
    p := p + 1;
    while true
      invariant 0 <= expn && p0 <= p <= |s| && e.Exponent? && e.sign == sign && e.digits != []
      invariant ExponentPrefix(s, p0, p, e) && Accumulated(e.digits, expn, overflow)
      decreases |s| - p
    {
      c := ToDigit(At(s, p));
      if c >= 10 {
        break;
      }
      ExponentStep(s, p0, p, e, expn, overflow);
      e := e.(digits := e.digits + [c]);
      if !overflow {
        if expn > EXPONENT_LIMIT {
          overflow := true;
        } else {
          expn := expn * 10 + c;
        }
      }
      p := p + 1;
    }
    r := ExponentResult(p, if negative then 0 - expn else expn, overflow, negative);
    ExponentEnd(s, start, p0, p, e, expn, overflow, negative);
  }

  lemma FirstValue(c: nat)
    ensures 0 * 10 + c == c
  {
  }

  lemma NothingRead(s: string, start: nat, p0: nat)
    requires start <= p0 <= |s| && (p0 == start || !IsMark(At(s, p0)))
    ensures ExponentDone(s, start, p0, NoExponent, ExponentResult(p0, 0, false, false))
  {
  }

  lemma BadDone(s: string, start: nat, p0: nat, p: nat, e: Exponent)
    requires start < p0 && IsMark(At(s, p0)) && p == (if IsSign(At(s, p0 + 1)) then p0 + 2 else p0 + 1)
        && ToDigit(At(s, p)) >= 10
    ensures ExponentDone(s, start, p0, e, BadExponent)
  {
  }

  lemma ExponentEnd(s: string, start: nat, p0: nat, p: nat, e: Exponent, expn: nat, overflow: bool, negative: bool)
    requires ExponentPrefix(s, p0, p, e) && Accumulated(e.digits, expn, overflow) && ToDigit(At(s, p)) >= 10
    requires e.digits != [] && negative == (e.sign == Minus) && p0 > start
    ensures ExponentDone(s, start, p0, e, ExponentResult(p, if negative then 0 - expn else expn, overflow, negative))
  {
    hide Chars, ToDigit, Number10;
  }

  lemma LimitIs()
    ensures EXPONENT_LIMIT == 214748363 && EXPONENT_MAX == 2147483639
  {
  }

  // ---- the longest literal ----

  /** Any literal at the start has its body within what the digit loops read; an exponent follows all of it. */
  lemma {:induction false} BodyWithin(s: string, start: nat, p: nat, body: Literal, n: nat, l: Literal)
    requires Scan(s, start, p, body) && StartsWith(s, n, l) && start == SignLength(SignAt(s))
    ensures start + |Body(l)| <= p && (l.exponent.Exponent? ==> start + |Body(l)| == p && IsMark(At(s, p)))
    ensures l.exponent.NoExponent? ==> n == start + |Body(l)|
  {
    hide Body, ExponentText, Text, Chars, ToDigit, DotHere;
    Parts(s, n, l);
    NonemptyExponent(l.exponent);
    var q := start + |Body(l)|;
    if q > p {
      BeyondScan(s, start, p, body, n, l);
    }
    if l.exponent.Exponent? {
      SecondChar(l.exponent);
      assert s[q] == s[q..n][0];
      if q < p {
        assert s[q] == s[start..p][q - start];
        BodyChar(body, q - start);
      }
    }
  }

  /** The digit loops do not stop before a digit, nor before a point that belongs to a literal. */
  lemma {:induction false} BeyondScan(s: string, start: nat, p: nat, body: Literal, n: nat, l: Literal)
    requires Scan(s, start, p, body) && StartsWith(s, n, l) && start == SignLength(SignAt(s))
    ensures start + |Body(l)| <= p
  {
    hide Body, ExponentText, Text, Chars, ToDigit;
    Parts(s, n, l);
    var q, k := start + |Body(l)|, p - start;
    if q > p {
      assert s[p] == s[start..q][k];
      BodyChar(l, k);
      assert l.dot && k == |l.whole|;
      if body.dot {
        BodyLength(body);
        var d := |body.whole|;
        assert s[start + d] == s[start..p][d] == s[start..q][d];
        BodyChar(body, d);
        BodyChar(l, d);
      } else {
        BodyLength(l);
        assert s[p + 1] == s[start..q][k + 1];
        BodyChar(l, k + 1);
      }
    }
  }

  /** An exponent of a literal at the start is not longer than what the loop reads. */
  lemma {:induction false} ExponentWithin(s: string, start: nat, p: nat, body: Literal, e: Exponent, r: ExponentResult,
      n: nat, l: Literal)
    requires Scan(s, start, p, body) && StartsWith(s, n, l) && start == SignLength(SignAt(s))
    requires ExponentDone(s, start, p, e, r) && l.exponent.Exponent?
    ensures r.ExponentResult? && e.Exponent? && n <= r.p
  {
    hide Body, ExponentText, Text, Chars, ToDigit, DotHere, Number10;
    BodyWithin(s, start, p, body, n, l);
    Parts(s, n, l);
    SecondChar(l.exponent);
    assert s[p] == s[p..n][0] && s[p + 1] == s[p..n][1];
    DigitsOfExponent(s, p, n, l.exponent, 0);
    assert r.ExponentResult? && e.Exponent?;
    SecondChar(e);
    assert s[p + 1] == s[p..r.p][1];
    assert e.sign == l.exponent.sign;
    ExponentLength(e);
    if n > r.p {
      DigitsOfExponent(s, p, n, l.exponent, |e.digits|);
    }
  }

  lemma ExponentLength(e: Exponent)
    requires e.Exponent?
    ensures |ExponentText(e)| == 1 + SignLength(e.sign) + |e.digits|
  {
  }

  /** The digits of an exponent in the text, and where they are. */
  lemma {:induction false} DigitsOfExponent(s: string, p: nat, n: nat, e: Exponent, i: nat)
    requires e.Exponent? && p <= n <= |s| && s[p..n] == ExponentText(e)
    ensures n == p + 1 + SignLength(e.sign) + |e.digits|
    ensures i < |e.digits| ==> ToDigit(At(s, p + 1 + SignLength(e.sign) + i)) < 10
  {
    hide Chars, ToDigit;
    ExponentLength(e);
    if i < |e.digits| {
      var q := 1 + SignLength(e.sign) + i;
      assert s[p + q] == s[p..n][q] == Chars(e.digits)[i];
      DigitOfText(e.digits, i);
    }
  }

  /** What has been read is the longest literal, unless there is none or an exponent without digits follows it. */
  lemma {:induction false} ReadsLongest(s: string, start: nat, p: nat, body: Literal, e: Exponent, r: ExponentResult)
    requires Scan(s, start, p, body) && body.sign == SignAt(s) && start == SignLength(body.sign)
    requires ExponentDone(s, start, p, e, r)
    ensures r.ExponentResult? && r.p != start ==>
        Longest(s, r.p, body.(exponent := e)) && !Dangling(s, r.p, body.(exponent := e))
    ensures r.BadExponent? || r.p == start ==> forall n: nat, l: Literal :: Longest(s, n, l) ==> Dangling(s, n, l)
  {
    hide Body, ExponentText, Text, Chars, ToDigit, DotHere, Number10, Longest;
    NonemptyExponent(e);
    if r.ExponentResult? && r.p != start {
      PartsTogether(s, start, p, body, e, r.p);
      forall k: nat, l: Literal | StartsWith(s, k, l) ensures k <= r.p {
        BodyWithin(s, start, p, body, k, l);
        if l.exponent.Exponent? {
          ExponentWithin(s, start, p, body, e, r, k, l);
        }
      }
      LongestIs(s, r.p, body.(exponent := e));
    } else {
      forall n: nat, l: Literal | Longest(s, n, l) ensures Dangling(s, n, l) {
        NothingLonger(s, start, p, body, e, r, n, l);
      }
    }
  }

  lemma LongestIs(s: string, n: nat, lit: Literal)
    requires StartsWith(s, n, lit) && forall k: nat, l: Literal :: StartsWith(s, k, l) ==> k <= n
    ensures Longest(s, n, lit)
  {
  }

  /** A text that starts with a literal starts with a longest one. */
  lemma {:induction false} LongestExists(s: string, n: nat, l: Literal) returns (k: nat, lit: Literal)
    requires StartsWith(s, n, l)
    ensures Longest(s, k, lit) && k >= n
    decreases |s| - n
  {
    hide StartsWith, Longest;
    if k1: nat, l1: Literal :| StartsWith(s, k1, l1) && k1 > n {
      StartsWithin(s, k1, l1);
      k, lit := LongestExists(s, k1, l1);
    } else {
      LongestIs(s, n, l);
      k, lit := n, l;
    }
  }

  lemma StartsWithin(s: string, n: nat, l: Literal)
    requires StartsWith(s, n, l)
    ensures n <= |s|
  {
  }

  /** `1e` starts with the literal `1`, but an exponent without digits follows it. */
  lemma {:induction false} DanglingLetter()
    ensures var lit := Literal(Unsigned, [1], false, [], NoExponent);
            Longest("1e", 1, lit) && Dangling("1e", 1, lit)
  {
    hide ToDigit;
    var s, lit := "1e", Literal(Unsigned, [1], false, [], NoExponent);
    assert Chars([1]) == "1" && Chars([]) == "" && s[..1] == "1";
    forall k: nat, l: Literal | StartsWith(s, k, l) ensures k <= 1 {
      hide Text, Body, ExponentText;
      if k > 1 {
        LetterEnds(k, l);
      }
    }
  }

  lemma {:induction false} LetterEnds(k: nat, l: Literal)
    requires StartsWith("1e", k, l)
    ensures k <= 1
  {
    hide Text, Body, ExponentText, Chars, ToDigit;
    var s := "1e";
    Parts(s, k, l);
    var q := |Body(l)|;
    if q == 2 {
      assert s[1] == s[0..2][1];
      BodyChar(l, 1);
    } else if l.exponent.Exponent? {
      SecondChar(l.exponent);
    } else {
      NonemptyExponent(l.exponent);
    }
  }

  lemma LongestFacts(s: string, n: nat, lit: Literal, k: nat, l: Literal)
    requires Longest(s, n, lit)
    ensures StartsWith(s, n, lit) && (StartsWith(s, k, l) ==> k <= n)
  {
  }

  lemma {:induction false} NothingLonger(s: string, start: nat, p: nat, body: Literal, e: Exponent, r: ExponentResult,
      n: nat, l: Literal)
    requires Scan(s, start, p, body) && body.sign == SignAt(s) && start == SignLength(body.sign)
    requires ExponentDone(s, start, p, e, r) && (r.BadExponent? || r.p == start) && Longest(s, n, l)
    ensures Dangling(s, n, l)
  {
    hide Body, ExponentText, Text, Chars, ToDigit, DotHere, Number10, Longest;
    LongestFacts(s, n, l, n, l);
    Parts(s, n, l);
    BodyWithin(s, start, p, body, n, l);
    assert p > start;
    assert r.BadExponent?;
    if l.exponent.Exponent? {
      ExponentWithin(s, start, p, body, e, r, n, l);
    }
    PartsTogether(s, start, p, body, NoExponent, p);
    LongestFacts(s, n, l, p, body);
  }

  lemma {:induction false} PartsTogether(s: string, start: nat, p: nat, body: Literal, e: Exponent, n: nat)
    requires Scan(s, start, p, body) && body.sign == SignAt(s) && start == SignLength(body.sign) && p > start
    requires p <= n <= |s| && s[p..n] == ExponentText(e) && (e.Exponent? ==> e.digits != [])
    ensures StartsWith(s, n, body.(exponent := e))
  {
    hide ExponentText, Chars, ToDigit, DotHere;
    var lit := body.(exponent := e);
    assert Body(lit) == Body(body);
    assert s[..n] == s[..start] + s[start..p] + s[p..n];
    assert s[..start] == SignText(body.sign);
  }

  // ---- the conversion ----

  /** Decimal exponent of the last kept digit. */
  function KeptScale(lit: Literal): int {
    ExponentValue(lit.exponent) - (LeadingZeros(AllDigits(lit)) + |Kept(lit)| - |lit.whole|)
  }

  /** RoundMVResult, section 7.1.4.1.3 of ECMA-262, lets an implementation replace digits after the 20th by zeros. Here
      those after the 38th are: the kept digits are the value cut off. */
  lemma {:induction false} DroppedDigits(lit: Literal) returns (dropped: nat, rest: nat)
    ensures KeptScale(lit) == Scale(lit) + dropped && rest < Pow(10, dropped)
    ensures Number10(Significant(lit)) == Number10(Kept(lit)) * Pow(10, dropped) + rest
    ensures |Significant(lit)| <= KEPT_DIGITS ==> dropped == 0
  {
    hide Number10, Pow, LeadingZeros;
    var sig, k := Significant(lit), |Kept(lit)|;
    dropped, rest := |sig| - k, Number10(sig[k..]);
    assert sig == sig[..k] + sig[k..] && sig[..|sig|] == sig;
    NumberAppend(sig[..k], sig[k..]);
    NumberBound(sig[k..]);
  }

  /** Bits of n / d rounded: infinity from 2^1024 on, zero below half the least subnormal number. */
  ghost predicate ConvertsTo(a: nat, f: int, bits: nat) {
    || (bits == INFINITY_BITS && !BelowPower(Num(a, 0, 10, f), Den(0, 10, f), 1024))
    || (bits == 0 && BelowPower(Num(a, 0, 10, f), Den(0, 10, f), -1075))
    || exists m: nat, e: int :: IsConversion(a, 10, f, NearestEven, m, e) && bits == Pack(m, e)
  }

  /** A value of at least 10^309 is above the largest double. */
  lemma {:induction false} AboveAll(a: nat, f: int, count: nat)
    requires count > 0 && a >= Pow(10, count - 1) && f + count > MAX_EXPONENT
    ensures !BelowPower(Num(a, 0, 10, f), Den(0, 10, f), 1024)
  {
    hide Pow, Pow2, Up, Down;
    NumIs(a, 0, 10, f);
    UpDown2(0);
    UpDown2(1024);
    NoPower();
    SumPower(10, f, count - 1);
    UpIs(count - 1);
    PowMono(10, 309, f + count - 1);
    AboveLog(309, 1024);
    var u, d := Up(10, f), Down(10, f);
    MulAtMost(Pow(10, count - 1), a, u);
    MulAtMost(Pow2(1024), Pow(10, f + count - 1), d);
    assert Pow(10, count - 1) * u == u * Pow(10, count - 1);
    assert Num(a, 0, 10, f) == a * u && Den(0, 10, f) == d;
  }

  lemma UpIs(k: nat)
    ensures Up(10, k) == Pow(10, k) && Down(10, k) == 1
  {
  }

  /** A value below 10^-324 is below half the least subnormal number. */
  lemma {:induction false} BelowAll(a: nat, f: int, count: nat)
    requires a < Pow(10, count) && f + count <= UNDERFLOW_EXPONENT
    ensures BelowPower(Num(a, 0, 10, f), Den(0, 10, f), -1075)
  {
    hide Pow, Pow2, Up, Down;
    NumIs(a, 0, 10, f);
    UpDown2(0);
    UpDown2(-1075);
    NoPower();
    DownIs(f);
    AboveLog(324, 1075);
    PowMono(10, count + 324, -f);
    PowAdd(10, count, 324);
    MulLess(a, Pow(10, count), Pow2(1075));
    MulAtMost(Pow2(1075), Pow(10, 324), Pow(10, count));
    assert Pow2(1075) * Pow(10, count) == Pow(10, count) * Pow2(1075)
      && Pow(10, 324) * Pow(10, count) == Pow(10, count) * Pow(10, 324);
    assert Num(a, 0, 10, f) == a && Den(0, 10, f) == Pow(10, -f);
  }

  lemma DownIs(f: int)
    requires f < 0
    ensures Up(10, f) == 1 && Down(10, f) == Pow(10, -f)
  {
  }

  /** The exponent is too large to be accumulated. */
  predicate HugeExponent(lit: Literal) { IsHuge(lit.exponent) }

  predicate IsHuge(e: Exponent) { e.Exponent? && Number10(e.digits) > EXPONENT_MAX }

  predicate IsInt(x: int) { -INT_LIMIT <= x < INT_LIMIT }

  /** What the literal denotes, from the digits that are kept. */
  ghost predicate Converts(lit: Literal, bits: nat) {
    if Significant(lit) == [] then bits == 0 else ConvertsTo(Number10(Kept(lit)), KeptScale(lit), bits)
  }

  /** The arithmetic of the exponents does not leave the type `int`. */
  predicate ExponentFits(lit: Literal) { Significant(lit) == [] || HugeExponent(lit) || IsInt(Order(lit)) }

  /** `js_atod` in radix 10, without flags: the value of the longest literal at the start of the text. There is none, or
      an exponent without digits follows it, if and only if the result is not a number. The literal is converted as it
      should be if and only if the arithmetic of the exponents fits. */
  method Atod(s: string) returns (r: Parsed, ghost lit: Literal, ghost peak: nat)
    ensures peak <= DBIGNUM_LEN_MAX
    ensures IsInfinity(s) ==> r == Parsed(INFINITY_BITS + SignBit(SignAt(s)), SignLength(SignAt(s)) + 8)
    ensures !IsInfinity(s) && r.Parsed? ==>
        Longest(s, r.next, lit) && !Dangling(s, r.next, lit) && r.bits >= SignBit(lit.sign)
    ensures !IsInfinity(s) && r.NotANumber? ==> forall n: nat, l: Literal :: Longest(s, n, l) ==> Dangling(s, n, l)
    ensures !IsInfinity(s) && r.Parsed? && |s| < INT_LIMIT && !HugeExponent(lit) && IsInt(Order(lit)) ==>
        Converts(lit, r.bits - SignBit(lit.sign))
    ensures !IsInfinity(s) && r.Parsed? && |s| < TEXT_LIMIT ==>
        (Converts(lit, r.bits - SignBit(lit.sign)) <==> ExponentFits(lit))
    ensures !IsInfinity(s) && r.Parsed? && |s| < INT_LIMIT && Significant(lit) == [] ==>
        Converts(lit, r.bits - SignBit(lit.sign))
  {
    hide *;
    SignIs(s);
    InfinityIs(s);
    var start, negative := 0, false;
    peak := 0;
    lit := Literal(SignAt(s), [], false, [], NoExponent);
    if At(s, 0) == '+' {
      start := 1;
    } else if At(s, 0) == '-' {
      start, negative := 1, true;
    }
    Inside(s, 0);
    if At(s, start) != '0' && start + 8 <= |s| && s[start..start + 8] == "Infinity" {
      return Parsed(INFINITY_BITS + (if negative then SIGN_BIT else 0), start + 8), lit, peak;
    }
    var x, p, sig, dotPos, count;
    x, p, sig, dotPos, count, lit := ReadNumber(s, start, SignAt(s));
    ScanIs(s, start, p, lit);
    BufferSize();
    peak := x.peak;
    var exp;
    ghost var e;
    exp, e := ReadExponent(s, start, p);
    ReadsLongest(s, start, p, lit, e, exp);
    if exp.BadExponent? || exp.p == start {
      return NotANumber, lit, peak;
    }
    SameDigits(lit, e);
    lit := lit.(exponent := e);
    var bits := 0;
    if count != 0 {
      if exp.overflow {
        bits := if exp.negative then 0 else INFINITY_BITS;
      } else {
        var offset := sig + count - dotPos;
        bits := ConvertDigits(x, Wrap32(exp.expn - offset), count, Kept(lit), exp.expn - sig + dotPos);
        peak := x.peak;
      }
    }
    AtodDone(s, start, p, lit, sig, count, dotPos, exp, bits);
    r := Parsed(bits + (if negative then SIGN_BIT else 0), exp.p);
  }

  lemma SignIs(s: string)
    ensures SignAt(s) == if At(s, 0) == '+' then Plus else if At(s, 0) == '-' then Minus else Unsigned
    ensures SignLength(SignAt(s)) == if At(s, 0) == '+' || At(s, 0) == '-' then 1 else 0
    ensures SignBit(SignAt(s)) == if At(s, 0) == '-' then SIGN_BIT else 0
  {
  }

  lemma InfinityIs(s: string)
    ensures var k := SignLength(SignAt(s));
            IsInfinity(s) <==> At(s, k) != '0' && k + 8 <= |s| && s[k..k + 8] == "Infinity"
  {
    if IsInfinity(s) {
      var k := SignLength(SignAt(s));
      assert s[k] == s[k..k + 8][0];
    }
  }

  lemma ScanIs(s: string, start: nat, p: nat, body: Literal)
    requires Scan(s, start, p, body)
    ensures start <= p <= |s|
  {
  }

  /** The exponent does not matter for the digits. */
  lemma SameDigits(body: Literal, e: Exponent)
    ensures var lit := body.(exponent := e);
            && Kept(lit) == Kept(body) && Significant(lit) == Significant(body) && AllDigits(lit) == AllDigits(body)
            && lit.whole == body.whole && lit.sign == body.sign && lit.exponent == e
  {
  }

  /** The checks of the exponent range, the conversion and the packing. */
  method ConvertDigits(x: Number, expn: int, count: nat, ghost taken: seq<Digit>, ghost order: int) returns (bits: nat)
    requires x.tab != [] && IsNormal(x.tab) && Value(x.tab) == Number10(taken) && count == |taken| > 0
        && count <= KEPT_DIGITS && |x.tab| <= x.peak <= 6
    requires expn == Wrap32(order - count)
    modifies x
    ensures x.peak <= DBIGNUM_LEN_MAX
    ensures taken[0] != 0 && IsInt(order) ==> ConvertsTo(Number10(taken), order - count, bits)
    ensures !IsInt(order) && NearInt(order) ==> bits == if order > 0 then 0 else INFINITY_BITS
  {
    hide *;
    ghost var a := Number10(taken);
    ghost var significant := taken[0] != 0;
    NumberBound(taken);
    LeadingDigit(taken);
    ExponentBounds();
    WrapTwice(order, count);
    BufferSize();
    if Wrap32(expn + count) >= MAX_EXPONENT + 1 {
      if significant && IsInt(order) {
        AboveAll(a, order - count, count);
      }
      bits := INFINITY_BITS;
      InfiniteConversion(a, order - count);
    } else if Wrap32(expn + count) <= UNDERFLOW_EXPONENT {
      if IsInt(order) {
        BelowAll(a, order - count, count);
        ZeroConversion(a, order - count);
      }
      bits := 0;
    } else {
      RadixTen();
      RadixFacts(5, 1, 13, MAX_DIGITS);
      WrappedIsInt(order - count);
      ExponentInRange(expn, count);
      ConversionFits(expn);
      var m, e := MulPowRoundToD(x, 5, 1, expn, NearestEven, 13);
      bits := Pack(m, e);
      PackedConversion(a, expn, m, e);
    }
  }

  /** Not so far out that a wrap-around could go unnoticed. */
  predicate NearInt(order: int) { -EXPONENT_MAX - TEXT_LIMIT <= order <= EXPONENT_MAX + TEXT_LIMIT }

  lemma WrapTwice(order: int, count: nat)
    requires count <= KEPT_DIGITS
    ensures var expn := Wrap32(order - count);
            && (IsInt(order) ==> Wrap32(expn + count) == order)
            && (IsInt(order) && -324 < order <= 309 ==> expn == order - count)
            && (!IsInt(order) && NearInt(order) ==>
              if order > 0 then Wrap32(expn + count) <= -324 else Wrap32(expn + count) > 309)
  {
  }

  /** A wrapped exponent that passes both checks did not wrap. */
  lemma ExponentInRange(expn: int, count: nat)
    requires count <= KEPT_DIGITS && IsInt(expn) && -324 < Wrap32(expn + count) <= 309
    ensures -361 <= expn <= 309
  {
  }

  lemma WrappedIsInt(x: int)
    ensures IsInt(Wrap32(x))
  {
  }

  lemma ExponentBounds()
    ensures MAX_EXPONENT == 309 && UNDERFLOW_EXPONENT == -324
  {
  }

  lemma LeadingDigit(taken: seq<Digit>)
    requires taken != []
    ensures taken[0] != 0 ==> Number10(taken) >= Pow(10, |taken| - 1) > 0
  {
    if taken[0] != 0 {
      NonzeroDigits(taken);
    }
  }

  lemma InfiniteConversion(a: nat, f: int)
    ensures !BelowPower(Num(a, 0, 10, f), Den(0, 10, f), 1024) ==> ConvertsTo(a, f, INFINITY_BITS)
  {
  }

  lemma ZeroConversion(a: nat, f: int)
    requires BelowPower(Num(a, 0, 10, f), Den(0, 10, f), -1075)
    ensures ConvertsTo(a, f, 0)
  {
  }

  lemma PackedConversion(a: nat, f: int, m: nat, e: int)
    ensures IsConversion(a, 10, f, NearestEven, m, e) ==> ConvertsTo(a, f, Pack(m, e))
  {
  }

  lemma {:induction false} AtodDone(s: string, start: nat, p: nat, lit: Literal, sig: nat, count: nat, dotPos: int,
      exp: ExponentResult, bits: nat)
    requires exp.ExponentResult? && ExponentDone(s, start, p, lit.exponent, exp) && Longest(s, exp.p, lit)
    requires count == |Kept(lit)| && sig == LeadingZeros(AllDigits(lit)) && dotPos == |lit.whole|
    requires count == 0 ==> bits == 0
    requires count > 0 && exp.overflow ==> bits == if exp.negative then 0 else INFINITY_BITS
    requires var order := exp.expn - sig + dotPos;
             && (count > 0 && !exp.overflow && Kept(lit)[0] != 0 && IsInt(order) ==>
               ConvertsTo(Number10(Kept(lit)), order - count, bits))
             && (count > 0 && !exp.overflow && !IsInt(order) && NearInt(order) ==>
               bits == if order > 0 then 0 else INFINITY_BITS)
    ensures !HugeExponent(lit) && IsInt(Order(lit)) ==> Converts(lit, bits)
    ensures |s| < TEXT_LIMIT ==> (Converts(lit, bits) <==> ExponentFits(lit))
    ensures Significant(lit) == [] ==> Converts(lit, bits)
  {
    hide Text, Body, ConvertsTo, Number10, Longest, Chars, ToDigit, ExponentText, Kept, Significant, AllDigits;
    KeptFacts(lit);
    LongestFacts(s, exp.p, lit, exp.p, lit);
    if count > 0 && |s| < TEXT_LIMIT {
      OrderNear(s, exp.p, lit);
      if HugeExponent(lit) {
        HugeConverts(lit, bits);
      } else if !IsInt(Order(lit)) {
        FarMisses(lit, bits);
      }
    }
  }

  /** The digits that are kept start with the first significant digit. */
  lemma KeptFacts(lit: Literal)
    ensures Kept(lit) == [] <==> Significant(lit) == []
    ensures Kept(lit) != [] ==> Kept(lit)[0] != 0
    ensures KeptScale(lit) == Order(lit) - |Kept(lit)|
  {
    var ds := AllDigits(lit);
    var z := LeadingZeros(ds);
    if z < |ds| {
      assert ds[z..][0] == ds[z];
    }
  }

  /** The digits of a text are bounded by its length. */
  lemma {:induction false} OrderNear(s: string, n: nat, lit: Literal)
    requires StartsWith(s, n, lit) && |s| < TEXT_LIMIT
    ensures var e := ExponentValue(lit.exponent); e - TEXT_LIMIT <= Order(lit) <= e + TEXT_LIMIT
    ensures !HugeExponent(lit) ==> NearInt(Order(lit))
  {
    hide Number10, Chars, Body, Text, ExponentText, ToDigit;
    Parts(s, n, lit);
    BodyLength(lit);
  }

  /** A value far above or below all doubles, and the only bits that it converts to. */
  lemma {:induction false} FarConverts(lit: Literal, bits: nat)
    requires Kept(lit) != [] && (Order(lit) > MAX_EXPONENT || Order(lit) <= UNDERFLOW_EXPONENT)
    ensures ConvertsTo(Number10(Kept(lit)), KeptScale(lit), bits) <==>
        bits == if Order(lit) > 0 then INFINITY_BITS else 0
  {
    hide ConvertsTo, Number10, Pow, Pow2;
    KeptFacts(lit);
    ExponentBounds();
    var a, f, count := Number10(Kept(lit)), KeptScale(lit), |Kept(lit)|;
    NumberBound(Kept(lit));
    LeadingDigit(Kept(lit));
    if Order(lit) > 0 {
      AboveAll(a, f, count);
      InfiniteConversion(a, f);
      if ConvertsTo(a, f, bits) {
        OnlyInfinity(a, f, bits);
      }
    } else {
      BelowAll(a, f, count);
      ZeroConversion(a, f);
      if ConvertsTo(a, f, bits) {
        OnlyZero(a, f, bits);
      }
    }
  }

  lemma {:induction false} OnlyInfinity(a: nat, f: int, bits: nat)
    requires !BelowPower(Num(a, 0, 10, f), Den(0, 10, f), 1024) && ConvertsTo(a, f, bits)
    ensures bits == INFINITY_BITS
  {
    hide Pow, Pow2, Num, Den, RoundDiv, BelowPower, Units;
    var n, d := Num(a, 0, 10, f), Den(0, 10, f);
    if BelowPower(n, d, -1075) {
      BelowMono(n, d, -1075, 1024);
    }
    if m: nat, e: int :| IsConversion(a, 10, f, NearestEven, m, e) && bits == Pack(m, e) {
      var e0: int :| Rounded(n, d, e0, NearestEven, m, e);
      if e0 <= 1024 {
        BelowMono(n, d, e0, 1024);
      }
      LargeNotZero(n, d, e0);
    }
  }

  /** A large value is not rounded to zero. */
  lemma {:induction false} LargeNotZero(n: nat, d: nat, e0: int)
    requires d > 0 && !BelowPower(n, d, e0 - 1) && e0 > 1024
    ensures Units(n, d, Unit(e0), NearestEven) != 0
  {
    hide Pow, Pow2, RoundDiv;
    var u := Unit(e0);
    UpDown2(e0 - 1);
    UpDown2(u);
    NoPower();
    Pow2Grows(u, e0 - 1);
    MulAtMost(Pow2(u), Pow2(e0 - 1), d);
    assert n * 1 == n && d * Pow2(e0 - 1) == Pow2(e0 - 1) * d && d * Pow2(u) == Pow2(u) * d;
    MulLess(0, d, Pow2(u));
    AtLeastOne(n, d * Pow2(u));
  }

  lemma Pow2Grows(a: nat, b: nat)
    requires a <= b
    ensures 0 < Pow2(a) <= Pow2(b)
  {
    Pow2Mono(a, b);
  }

  lemma AtLeastOne(n: nat, d: nat)
    requires d > 0 && n >= d
    ensures RoundDiv(n, d, NearestEven) != 0
  {
    var q, r := n / d, n % d;
    assert n == q * d + r;
    assert q * d > 0;
  }

  lemma {:induction false} OnlyZero(a: nat, f: int, bits: nat)
    requires BelowPower(Num(a, 0, 10, f), Den(0, 10, f), -1075) && ConvertsTo(a, f, bits)
    ensures bits == 0
  {
    hide Pow, Pow2, Num, Den, RoundDiv, BelowPower, Units;
    var n, d := Num(a, 0, 10, f), Den(0, 10, f);
    BelowMono(n, d, -1075, 1024);
    if m: nat, e: int :| IsConversion(a, 10, f, NearestEven, m, e) && bits == Pack(m, e) {
      var e0: int :| Rounded(n, d, e0, NearestEven, m, e);
      TinyRounds(n, d, e0, m, e);
    }
  }

  lemma {:induction false} TinyRounds(n: nat, d: nat, e0: int, m: nat, e: int)
    requires d > 0 && BelowPower(n, d, -1075) && Rounded(n, d, e0, NearestEven, m, e)
    ensures m == 0
  {
    hide Pow, Pow2, RoundDiv, BelowPower, Units;
    TinyIsZero(n, d);
    ExponentBelow(n, d, e0);
  }

  lemma ExponentBelow(n: nat, d: nat, e0: int)
    requires d > 0 && BelowPower(n, d, -1075) && IsExponent(n, d, e0)
    ensures e0 <= -1075
  {
    hide BelowPower;
    if e0 > -1075 {
      BelowMono(n, d, -1075, e0 - 1);
    }
  }

  /** An exponent that is not accumulated decides the conversion alone. */
  lemma {:induction false} HugeConverts(lit: Literal, bits: nat)
    requires Kept(lit) != [] && HugeExponent(lit) && bits == (if lit.exponent.sign == Minus then 0 else INFINITY_BITS)
    requires var e := ExponentValue(lit.exponent); e - TEXT_LIMIT <= Order(lit) <= e + TEXT_LIMIT
    ensures Converts(lit, bits)
  {
    hide ConvertsTo, Number10, Kept, KeptScale, Order;
    KeptFacts(lit);
    FarConverts(lit, bits);
  }

  /** An order that has wrapped around leads to zero for infinity, and to infinity for zero. */
  lemma {:induction false} FarMisses(lit: Literal, bits: nat)
    requires Kept(lit) != [] && !IsInt(Order(lit)) && bits == if Order(lit) > 0 then 0 else INFINITY_BITS
    ensures !Converts(lit, bits)
  {
    hide ConvertsTo, Number10, Kept, KeptScale, Order;
    KeptFacts(lit);
    FarConverts(lit, bits);
  }

  /** For instance `1000000000e2147483639`. */
  lemma {:induction false} WrappedLiteral()
    ensures var lit := Literal(Unsigned, [1, 0, 0, 0, 0, 0, 0, 0, 0, 0], false, [],
        Exponent(false, Unsigned, [2, 1, 4, 7, 4, 8, 3, 6, 3, 9]));
            IsLiteral(lit) && Significant(lit) != [] && !ExponentFits(lit)
  {
    var ds: seq<Digit> := [2, 1, 4, 7, 4, 8, 3, 6, 3, 9];
    var lit := Literal(Unsigned, [1, 0, 0, 0, 0, 0, 0, 0, 0, 0], false, [], Exponent(false, Unsigned, ds));
    assert AllDigits(lit)[0] == 1;
    FiveDigits(2, 1, 4, 7, 4);
    FiveDigits(8, 3, 6, 3, 9);
    var a, b: seq<Digit> := [2, 1, 4, 7, 4], [8, 3, 6, 3, 9];
    assert ds == a + b;
    NumberAppend(a, b);
    PowSmall(10);
    assert Pow(10, 5) == 100000 by { FivePower(); }
  }

  lemma FivePower()
    ensures Pow(10, 5) == 100000
  {
    assert Pow(10, 1) == 10 && Pow(10, 2) == 100 && Pow(10, 3) == 1000 && Pow(10, 4) == 10000;
  }

  lemma FiveDigits(a: Digit, b: Digit, c: Digit, d: Digit, e: Digit)
    ensures Number10([a, b, c, d, e]) == 10000 * a + 1000 * b + 100 * c + 10 * d + e
  {
    assert [a, b, c, d, e][..4] == [a, b, c, d] && [a, b, c, d][..3] == [a, b, c] && [a, b, c][..2] == [a, b]
      && [a, b][..1] == [a];
    assert Number10([a]) == a by { NumberOne(a); }
    assert Number10([a, b]) == 10 * a + b;
    assert Number10([a, b, c]) == 100 * a + 10 * b + c;
    assert Number10([a, b, c, d]) == 1000 * a + 100 * b + 10 * c + d;
  }

  lemma {:induction false} TinyIsZero(n: nat, d: nat)
    requires d > 0 && BelowPower(n, d, -1075)
    ensures Units(n, d, LEAST_UNIT, NearestEven) == 0
  {
    hide Pow, Pow2;
    UpDown2(-1075);
    UpDown2(LEAST_UNIT);
    NoPower();
    Doubling(1074);
    assert n * Pow2(1075) == 2 * (n * Pow2(1074));
    DivIs(n * Pow2(1074), d, 0, n * Pow2(1074));
  }
}
