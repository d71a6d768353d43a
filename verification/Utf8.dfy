/** UTF-8 as the engine reads and writes it (section 3 of RFC 3629, extended to surrogates), and the buffer converters
    between UTF-8 and arrays of 8-bit or 16-bit units. */
module Utf8 {
  import opened ByteType

  type Unit = u: int | 0 <= u < 0x1_0000

  const REPLACEMENT: nat := 0xfffd

  predicate IsTail(b: Byte) { 0x80 <= b <= 0xbf }

  /** The six bits of a byte after the first. */
  function Tail(b: Byte): (r: nat)
    requires IsTail(b)
    ensures r < 0x40
  {
    (b as int) - 0x80
  }

  predicate IsHigh(u: int) { 0xd800 <= u < 0xdc00 }

  predicate IsLow(u: int) { 0xdc00 <= u < 0xe000 }

  function FromSurrogates(hi: int, lo: int): (c: nat)
    requires IsHigh(hi) && IsLow(lo)
    ensures 0x1_0000 <= c <= 0x10_ffff
  {
    0x1_0000 + 0x400 * (hi - 0xd800) + (lo - 0xdc00)
  }

  function HighSurrogate(c: nat): Unit
    requires 0x1_0000 <= c <= 0x10_ffff
  {
    0xd800 + (c - 0x1_0000) / 0x400
  }

  function LowSurrogate(c: nat): Unit
    requires 0x1_0000 <= c <= 0x10_ffff
  {
    0xdc00 + (c - 0x1_0000) % 0x400
  }

  // ---- one code point ----

  /** `utf8_encode_len`. */
  function EncodeLen(c: nat): nat {
    if c < 0x80 then 1 else if c < 0x800 then 2 else if c < 0x1_0000 then 3 else if c < 0x11_0000 then 4 else 3
  }

  /** `utf8_encode`. */
  function Encode(c: nat): (r: seq<Byte>)
    ensures |r| == EncodeLen(c)
  {
    if c < 0x80 then [c]
    else if c < 0x800 then [0xc0 + c / 0x40, 0x80 + c % 0x40]
    else if c < 0x1_0000 then [0xe0 + c / 0x1000, 0x80 + c / 0x40 % 0x40, 0x80 + c % 0x40]
    else if c < 0x11_0000 then [0xf0 + c / 0x4_0000, 0x80 + c / 0x1000 % 0x40, 0x80 + c / 0x40 % 0x40, 0x80 + c % 0x40]
    else [0xef, 0xbf, 0xbd]
  }

  /** A code point and the number of bytes it takes. */
  datatype Decoded = Decoded(c: nat, size: nat)

  const ERROR := Decoded(REPLACEMENT, 1)

  /** `utf8_decode`, given that no byte beyond the end is needed: overlong forms and values above 0x10ffff are errors.
      */
  function Decode(b: seq<Byte>): (r: Decoded)
    requires b != [] && (b[0] < 0x80 || |b| >= 4 || (|b| == 2 && b[0] < 0xe0) || (|b| == 3 && b[0] < 0xf0))
    ensures 0 < r.size <= |b| && r.c <= 0x10_ffff
  {
    var c := b[0] as int;
    if c < 0x80 then Decoded(c, 1)
    else if 0xc2 <= c <= 0xdf then
      if IsTail(b[1]) then Decoded((c - 0xc0) * 0x40 + Tail(b[1]), 2) else ERROR
    else if 0xe0 <= c <= 0xef then
      var lower := if c == 0xe0 then 0xa0 else 0x80;
      if lower <= b[1] <= 0xbf
        && IsTail(b[2]) then Decoded((c - 0xe0) * 0x1000 + Tail(b[1]) * 0x40 + Tail(b[2]), 3) else ERROR
    else if 0xf0 <= c <= 0xf4 then
      var lower, upper := if c == 0xf0 then 0x90 else 0x80, if c == 0xf4 then 0x8f else 0xbf;
      if lower <= b[1] <= upper && IsTail(b[2]) && IsTail(b[3]) then
        Decoded((c - 0xf0) * 0x4_0000 + Tail(b[1]) * 0x1000 + Tail(b[2]) * 0x40 + Tail(b[3]), 4)
      else ERROR
    else ERROR
  }

  /** `utf8_decode_len`: never looks beyond the end of the bytes. */
  function DecodeLen(b: seq<Byte>): (r: Decoded)
    ensures r.c <= 0x10_ffff && (b != [] ==> 0 < r.size <= |b|)
  {
    if |b| == 0 then Decoded(REPLACEMENT, 0)
    else if (|b| == 1 && b[0] >= 0x80) || (|b| == 2 && b[0] >= 0xe0) || (|b| == 3 && b[0] >= 0xf0) then ERROR
    else Decode(b)
  }

  /** Decoding undoes encoding, for every code point and whatever follows. */
  lemma DecodeEncode(c: nat, rest: seq<Byte>)
    requires c <= 0x10_ffff
    ensures DecodeLen(Encode(c) + rest) == Decoded(c, EncodeLen(c))
  {
    if c < 0x80 {
      assert (Encode(c) + rest)[0] == c;
    } else if c < 0x800 {
      DecodeTwo(c, rest);
    } else if c < 0x1_0000 {
      DecodeThree(c, rest);
    } else {
      DecodeFour(c, rest);
    }
  }

  lemma {:induction false} DecodeTwo(c: nat, rest: seq<Byte>)
    requires 0x80 <= c < 0x800
    ensures DecodeLen(Encode(c) + rest) == Decoded(c, 2)
  {
    var b := Encode(c) + rest;
    assert b[0] == 0xc0 + c / 0x40 && b[1] == 0x80 + c % 0x40;
  }

  lemma {:induction false} DecodeThree(c: nat, rest: seq<Byte>)
    requires 0x800 <= c < 0x1_0000
    ensures DecodeLen(Encode(c) + rest) == Decoded(c, 3)
  {
    var b := Encode(c) + rest;
    var x, y, z := c / 0x1000, c / 0x40 % 0x40, c % 0x40;
    assert c == x * 0x1000 + y * 0x40 + z;
    assert b[0] == 0xe0 + x && b[1] == 0x80 + y && b[2] == 0x80 + z;
    assert x == 0 ==> y >= 0x20;
    ThreeDecode(b, x, y, z);
  }

  lemma {:induction false} ThreeDecode(b: seq<Byte>, x: nat, y: nat, z: nat)
    requires |b| >= 3 && x < 0x10 && y < 0x40 && z < 0x40 && (x == 0 ==> y >= 0x20)
    requires b[0] == 0xe0 + x && b[1] == 0x80 + y && b[2] == 0x80 + z
    ensures DecodeLen(b) == Decoded(x * 0x1000 + y * 0x40 + z, 3)
  {
  }

  lemma {:induction false} DecodeFour(c: nat, rest: seq<Byte>)
    requires 0x1_0000 <= c < 0x11_0000
    ensures DecodeLen(Encode(c) + rest) == Decoded(c, 4)
  {
    hide *;
    var x, y, z, w := FourParts(c);
    FourDecode(Encode(c) + rest, x, y, z, w);
  }

  lemma {:induction false} FourParts(c: nat) returns (x: nat, y: nat, z: nat, w: nat)
    requires 0x1_0000 <= c < 0x11_0000
    ensures x <= 4 && y < 0x40 && z < 0x40 && w < 0x40 && (x == 0 ==> y >= 0x10) && (x == 4 ==> y < 0x10)
    ensures c == x * 0x4_0000 + y * 0x1000 + z * 0x40 + w
    ensures |Encode(c)| == 4 && Encode(c)[0] == 0xf0 + x && Encode(c)[1] == 0x80 + y && Encode(c)[2] == 0x80 + z
        && Encode(c)[3] == 0x80 + w
  {
    var a := c / 0x40;
    var b := a / 0x40;
    x, y, z, w := b / 0x40, b % 0x40, a % 0x40, c % 0x40;
    assert c == 0x40 * a + w && a == 0x40 * b + z && b == 0x40 * x + y;
    assert b == c / 0x1000 && x == c / 0x4_0000;
  }

  lemma {:induction false} FourDecode(b: seq<Byte>, x: nat, y: nat, z: nat, w: nat)
    requires |b| >= 4 && x <= 4 && y < 0x40 && z < 0x40 && w < 0x40 && (x == 0 ==> y >= 0x10) && (x == 4 ==> y < 0x10)
    requires b[0] == 0xf0 + x && b[1] == 0x80 + y && b[2] == 0x80 + z && b[3] == 0x80 + w
    ensures DecodeLen(b) == Decoded(x * 0x4_0000 + y * 0x1000 + z * 0x40 + w, 4)
  {
  }

  /** Encoding undoes decoding: the bytes of a valid sequence are the only ones that decode to its code point. */
  lemma EncodeDecode(b: seq<Byte>)
    requires b != []
    ensures var r := DecodeLen(b); r != ERROR ==> Encode(r.c) == b[..r.size]
  {
    var r := DecodeLen(b);
    if r != ERROR {
      var c := b[0] as int;
      if c < 0x80 {
      } else if c <= 0xdf {
        assert r.c / 0x40 == c - 0xc0 && r.c % 0x40 == Tail(b[1]);
      } else if c <= 0xef {
        ThreeBytes(c - 0xe0, Tail(b[1]), Tail(b[2]), r.c);
      } else {
        FourBytes(c - 0xf0, Tail(b[1]), Tail(b[2]), Tail(b[3]), r.c);
      }
    }
  }

  lemma ThreeBytes(x: nat, y: nat, z: nat, c: nat)
    requires x < 0x10 && y < 0x40 && z < 0x40 && c == x * 0x1000 + y * 0x40 + z
    ensures c / 0x1000 == x && c / 0x40 % 0x40 == y && c % 0x40 == z
  {
    assert c / 0x40 == x * 0x40 + y;
  }

  lemma FourBytes(x: nat, y: nat, z: nat, w: nat, c: nat)
    requires x < 0x8 && y < 0x40 && z < 0x40 && w < 0x40 && c == x * 0x4_0000 + y * 0x1000 + z * 0x40 + w
    ensures c / 0x4_0000 == x && c / 0x1000 % 0x40 == y && c / 0x40 % 0x40 == z && c % 0x40 == w
  {
    assert c / 0x40 == x * 0x1000 + y * 0x40 + z;
    assert c / 0x1000 == x * 0x40 + y;
  }

  /** What stands for an error is U+FFFD: its bytes are those that the encoder writes for a value that is not a code
      point. */
  lemma Replacement(c: nat)
    requires c > 0x10_ffff
    ensures Encode(c) == Encode(REPLACEMENT) == [0xef, 0xbf, 0xbd]
  {
  }

  /** Bytes that start with the form of no code point are an error, and one byte is consumed. */
  lemma {:induction false} Malformed(b: seq<Byte>)
    requires b != [] && forall c: nat :: c <= 0x10_ffff ==> !(Encode(c) <= b)
    ensures DecodeLen(b) == Decoded(0xfffd, 1)
  {
    hide Encode, Decode;
    EncodeDecode(b);
    assert b[..DecodeLen(b).size] <= b;
  }

  /** a comes before b in the order of bytes. */
  ghost predicate Before(a: seq<Byte>, b: seq<Byte>) {
    exists k :: 0 <= k < |a| && k < |b| && a[..k] == b[..k] && a[k] < b[k]
  }

  lemma BeforeAt(a: seq<Byte>, b: seq<Byte>, k: nat)
    requires k < |a| && k < |b| && (forall i :: 0 <= i < k ==> a[i] == b[i]) && a[k] < b[k]
    ensures Before(a, b)
  {
    assert a[..k] == b[..k];
  }

  /** The order of the encodings is the order of the code points. */
  lemma {:induction false} EncodeOrder(c: nat, d: nat)
    requires c < d <= 0x10_ffff
    ensures Before(Encode(c), Encode(d))
  {
    hide Before;
    if EncodeLen(c) != EncodeLen(d) || c < 0x80 {
      BeforeAt(Encode(c), Encode(d), 0);
    } else if c < 0x800 {
      BeforeAt(Encode(c), Encode(d), if c / 0x40 < d / 0x40 then 0 else 1);
    } else if c < 0x1_0000 {
      ThreeInOrder(c, d);
    } else {
      FourInOrder(c, d);
    }
  }

  /** Division by 0x1000 and by 0x40000 in steps. */
  lemma SixBitSteps(c: nat)
    ensures c / 0x1000 == c / 0x40 / 0x40 && c / 0x4_0000 == c / 0x1000 / 0x40
  {
  }

  lemma SixBitOrder(c: nat, d: nat)
    requires c < d
    ensures c / 0x40 < d / 0x40 || (c / 0x40 == d / 0x40 && c % 0x40 < d % 0x40)
  {
  }

  lemma {:induction false} ThreeInOrder(c: nat, d: nat)
    requires 0x800 <= c < d < 0x1_0000
    ensures Before(Encode(c), Encode(d))
  {
    hide Before;
    SixBitSteps(c);
    SixBitSteps(d);
    SixBitOrder(c, d);
    var k := 2;
    if c / 0x40 < d / 0x40 {
      SixBitOrder(c / 0x40, d / 0x40);
      k := if c / 0x1000 < d / 0x1000 then 0 else 1;
    }
    BeforeAt(Encode(c), Encode(d), k);
  }

  lemma {:induction false} FourInOrder(c: nat, d: nat)
    requires 0x1_0000 <= c < d <= 0x10_ffff
    ensures Before(Encode(c), Encode(d))
  {
    hide Before;
    SixBitSteps(c);
    SixBitSteps(d);
    SixBitOrder(c, d);
    var k := 3;
    if c / 0x40 < d / 0x40 {
      SixBitOrder(c / 0x40, d / 0x40);
      k := 2;
      if c / 0x1000 < d / 0x1000 {
        SixBitOrder(c / 0x1000, d / 0x1000);
        k := if c / 0x4_0000 < d / 0x4_0000 then 0 else 1;
      }
    }
    BeforeAt(Encode(c), Encode(d), k);
  }

  /** The order of surrogate pairs is the order of the code points, and the first pair is U+10000. */
  lemma SurrogateOrder(hi: int, lo: int, hi1: int, lo1: int)
    requires IsHigh(hi) && IsLow(lo) && IsHigh(hi1) && IsLow(lo1)
    ensures FromSurrogates(hi, lo) < FromSurrogates(hi1, lo1) <==> hi < hi1 || (hi == hi1 && lo < lo1)
    ensures FromSurrogates(0xd800, 0xdc00) == 0x1_0000 && FromSurrogates(0xdbff, 0xdfff) == 0x10_ffff
  {
  }

  // ---- strings ----

  /** The units of a code point. */
  function UnitsOf(c: nat): seq<Unit>
    requires c <= 0x10_ffff
  {
    if c > 0xffff then [HighSurrogate(c), LowSurrogate(c)] else [c]
  }

  /** The 16-bit units that a byte string decodes to; an invalid byte becomes U+FFFD. */
  function Units(b: seq<Byte>): (r: seq<Unit>)
  {
    if b == [] then [] else var r := DecodeLen(b); UnitsOf(r.c) + Units(b[r.size..])
  }

  /** The next code point of a 16-bit string: a surrogate pair counts as one, a lone surrogate as itself. */
  function NextPoint(s: seq<Unit>): (r: Decoded)
    requires s != []
    ensures 0 < r.size <= |s| && r.c <= 0x10_ffff
  {
    if IsHigh(s[0]) && |s| > 1 && IsLow(s[1]) then Decoded(FromSurrogates(s[0], s[1]), 2) else Decoded(s[0], 1)
  }

  /** The UTF-8 form of a 16-bit string. */
  function Utf8Of(s: seq<Unit>): seq<Byte> {
    if s == [] then [] else var r := NextPoint(s); Encode(r.c) + Utf8Of(s[r.size..])
  }

  lemma SurrogatesOf(s: seq<Unit>)
    requires s != []
    ensures var r := NextPoint(s); UnitsOf(r.c) == s[..r.size]
  {
  }

  lemma Utf8Step(s: seq<Unit>)
    ensures s == [] ==> Units(Utf8Of(s)) == []
    ensures s != [] ==> Utf8Of(s) == Encode(NextPoint(s).c) + Utf8Of(s[NextPoint(s).size..]) != []
  {
    hide NextPoint;
  }

  /** Every 16-bit string survives the conversion to UTF-8 and back, lone surrogates included. */
  lemma {:induction false} UnitsUtf8(s: seq<Unit>)
    ensures Units(Utf8Of(s)) == s
  {
    hide *;
    Utf8Step(s);
    if s != [] {
      var r := NextPoint(s);
      var rest := Utf8Of(s[r.size..]);
      var b := Encode(r.c) + rest;
      DecodeEncode(r.c, rest);
      UnitsStep(b, 0);
      assert b[0..] == b && b[EncodeLen(r.c)..] == rest;
      UnitsUtf8(s[r.size..]);
      SurrogatesOf(s);
      assert s == s[..r.size] + s[r.size..];
    }
  }

  // ---- the buffer converters ----

  /** `utf8_decode_buf16`: all units are counted, those that fit are stored. */
  method DecodeBuf16(dest: array<Unit>, src: seq<Byte>) returns (i: nat)
    modifies dest
    ensures i == |Units(src)|
    ensures forall k :: 0 <= k < dest.Length && k < i ==> dest[k] == Units(src)[k]
    ensures forall k :: i <= k < dest.Length ==> dest[k] == old(dest[k])
  {
    hide DecodeLen, UnitsOf, Units, HighSurrogate, LowSurrogate;
    i := 0;
    var p := 0;
    ghost var done := [];
    assert src[0..] == src;
    while p < |src|
      invariant p <= |src| && i == |done| && Units(src) == done + Units(src[p..])
      invariant forall k :: 0 <= k < dest.Length && k < i ==> dest[k] == done[k]
      invariant forall k :: i <= k < dest.Length ==> dest[k] == old(dest[k])
      decreases |src| - p
    {
      ghost var r := DecodeLen(src[p..]);
      UnitsStep(src, p);
      var c: nat := src[p] as nat;
      if c >= 0x80 {
        var d := DecodeLen(src[p..]);
        c := d.c;
        p := p + d.size;
        if c > 0xffff {
          if i < dest.Length {
            dest[i] := HighSurrogate(c);
          }
          i := i + 1;
          c := LowSurrogate(c);
        }
      } else {
        AsciiByte(src, p);
        p := p + 1;
      }
      if i < dest.Length {
        dest[i] := c;
      }
      i := i + 1;
      UnitsAre(r.c);
      done := done + UnitsOf(r.c);
    }
    assert src[p..] == [];
    NoUnits();
  }

  lemma NoUnits()
    ensures Units([]) == []
  {
  }

  lemma UnitsAre(c: nat)
    requires c <= 0x10_ffff
    ensures UnitsOf(c) == if c > 0xffff then [HighSurrogate(c), LowSurrogate(c)] else [c]
  {
  }

  lemma AsciiByte(src: seq<Byte>, p: nat)
    requires p < |src| && src[p] < 0x80
    ensures DecodeLen(src[p..]) == Decoded(src[p] as nat, 1)
  {
  }

  lemma {:induction false} UnitsStep(src: seq<Byte>, p: nat)
    requires p < |src|
    ensures var r := DecodeLen(src[p..]);
            0 < r.size <= |src| - p && Units(src[p..]) == UnitsOf(r.c) + Units(src[p + r.size..])
  {
    var r := DecodeLen(src[p..]);
    assert src[p..][r.size..] == src[p + r.size..];
  }

  /** What `utf8_scan` reports: more than ASCII, code points above 0xff, above 0xffff, errors. */
  datatype Kind = Kind(nonAscii: bool, has16Bit: bool, hasNonBmp: bool, hasErrors: bool)

  /** Code points of a byte string. */
  function Points(b: seq<Byte>): seq<Decoded> {
    if b == [] then [] else [DecodeLen(b)] + Points(b[DecodeLen(b).size..])
  }

  /** The flags say which kinds of code points occur. */
  ghost predicate Describes(kind: Kind, points: seq<Decoded>) {
    && (kind.has16Bit <==> exists k :: 0 <= k < |points| && points[k].c > 0xff)
    && (kind.hasNonBmp <==> exists k :: 0 <= k < |points| && points[k].c > 0xffff)
    && (kind.hasErrors <==> exists k :: 0 <= k < |points| && points[k] == ERROR)
  }

  /** `utf8_scan`: the number of units that decoding yields, and the kinds of code points. */
  method Scan(b: seq<Byte>) returns (kind: Kind, len: nat)
    ensures len == |Units(b)| && Describes(kind, Points(b))
    ensures kind.nonAscii <==> exists k :: 0 <= k < |b| && b[k] >= 0x80
  {
    var ascii := true;
    for i := 0 to |b|
      invariant ascii <==> forall k :: 0 <= k < i ==> b[k] < 0x80
    {
      ascii := ascii && b[i] < 0x80;
    }
    if ascii {
      AllAscii(b);
      return Kind(false, false, false, false), |b|;
    }
    kind, len := ScanPoints(b);
  }

  /** ASCII bytes are their own units. */
  lemma {:induction false} AllAscii(b: seq<Byte>)
    requires forall k :: 0 <= k < |b| ==> b[k] < 0x80
    ensures |Units(b)| == |b| && forall k :: 0 <= k < |Points(b)| ==> Points(b)[k].c < 0x80
  {
    if b != [] {
      assert DecodeLen(b) == Decoded(b[0] as nat, 1);
      AllAscii(b[1..]);
    }
  }

  method ScanPoints(b: seq<Byte>) returns (kind: Kind, len: nat)
    ensures len == |Units(b)| && kind.nonAscii && Describes(kind, Points(b))
  {
    hide *;
    kind, len := Kind(true, false, false, false), 0;
    var p := 0;
    ghost var done := [];
    ScanStart(b);
    while p < |b|
      invariant p <= |b| && Scanned(b, p, done, len) && kind.nonAscii && Describes(kind, done)
      decreases |b| - p
    {
      ghost var r := DecodeLen(b[p..]);
      ScanStep(b, p, done, len);
      AppendPoint(kind, done, r);
      len := len + 1;
      if b[p] >= 0x80 {
        var d := DecodeLen(b[p..]);
        LongerUnlessError(b, p);
        kind := kind.(hasErrors := kind.hasErrors || d.size == 1);
        p := p + d.size;
        if d.c > 0xff {
          kind := kind.(has16Bit := true);
          if d.c > 0xffff {
            len := len + 1;
            kind := kind.(hasNonBmp := true);
          }
        }
      } else {
        AsciiByte(b, p);
        AsciiIsPlain(b, p);
        p := p + 1;
      }
      done := done + [r];
    }
    ScanEnd(b, done, len);
  }

  /** The code points before position p, and the number of their units. */
  ghost predicate Scanned(b: seq<Byte>, p: nat, done: seq<Decoded>, len: nat) {
    p <= |b| && Points(b) == done + Points(b[p..]) && |Units(b)| == len + |Units(b[p..])|
  }

  lemma ScanStart(b: seq<Byte>)
    ensures Scanned(b, 0, [], 0) && Describes(Kind(true, false, false, false), [])
  {
    assert b[0..] == b;
  }

  lemma ScanEnd(b: seq<Byte>, done: seq<Decoded>, len: nat)
    requires Scanned(b, |b|, done, len)
    ensures Points(b) == done && |Units(b)| == len
  {
    assert b[|b|..] == [];
  }

  lemma {:induction false} ScanStep(b: seq<Byte>, p: nat, done: seq<Decoded>, len: nat)
    requires p < |b| && Scanned(b, p, done, len)
    ensures var r := DecodeLen(b[p..]);
            0 < r.size <= |b| - p && Scanned(b, p + r.size, done + [r], len + if r.c > 0xffff then 2 else 1)
  {
    hide DecodeLen, Units, Points;
    var r := DecodeLen(b[p..]);
    UnitsStep(b, p);
    PointsStep(b, p);
    assert done + ([r] + Points(b[p + r.size..])) == done + [r] + Points(b[p + r.size..]);
  }

  lemma AsciiIsPlain(b: seq<Byte>, p: nat)
    requires p < |b| && b[p] < 0x80
    ensures DecodeLen(b[p..]) != ERROR && DecodeLen(b[p..]).c < 0x80
  {
  }

  lemma {:induction false} PointsStep(b: seq<Byte>, p: nat)
    requires p < |b|
    ensures var r := DecodeLen(b[p..]); r.size <= |b| - p && Points(b[p..]) == [r] + Points(b[p + r.size..])
  {
    var r := DecodeLen(b[p..]);
    assert b[p..][r.size..] == b[p + r.size..];
  }

  /** A byte from 0x80 on is consumed alone exactly when it is an error. */
  lemma LongerUnlessError(b: seq<Byte>, p: nat)
    requires p < |b| && b[p] >= 0x80
    ensures DecodeLen(b[p..]).size == 1 <==> DecodeLen(b[p..]) == ERROR
  {
  }

  lemma AppendPoint(kind: Kind, done: seq<Decoded>, r: Decoded)
    requires Describes(kind, done)
    ensures Describes(Kind(true, kind.has16Bit || r.c > 0xff, kind.hasNonBmp || r.c > 0xffff, kind.hasErrors
        || r == ERROR), done + [r])
  {
    var t := done + [r];
    assert t[|done|] == r;
    assert forall k :: 0 <= k < |done| ==> t[k] == done[k];
  }

  /** `utf8_decode_buf8`: one byte per code point below 0x800, its low eight bits. */
  method DecodeBuf8(dest: array<Byte>, src: seq<Byte>) returns (i: nat)
    requires forall k :: 0 <= k < |Points(src)| ==> Points(src)[k].c < 0x800
    modifies dest
    ensures i == |Units(src)|
    ensures forall k :: 0 <= k < dest.Length - 1 && k < i ==> dest[k] as int == Units(src)[k] % 0x100
    ensures dest.Length > 0 ==> dest[if i < dest.Length then i else dest.Length - 1] == 0
  {
    hide DecodeLen, UnitsOf, Points;
    i := 0;
    var p := 0;
    ghost var done := [];
    assert src[0..] == src;
    while p < |src|
      invariant p <= |src| && i == |done| && Units(src) == done + Units(src[p..])
      invariant AllSmall(src[p..])
      invariant forall k :: 0 <= k < dest.Length && k < i ==> dest[k] as int == done[k] % 0x100
      decreases |src| - p
    {
      ghost var r := DecodeLen(src[p..]);
      UnitsStep(src, p);
      SmallPoint(src, p);
      UnitsAre(r.c);
      var c: int := src[p] as int;
      p := p + 1;
      if c >= 0xc0 {
        c := c * 0x40 + src[p] as int - (0xc0 * 0x40 + 0x80);
        p := p + 1;
      }
      if i < dest.Length {
        dest[i] := c % 0x100;
      }
      i := i + 1;
      done := done + UnitsOf(r.c);
    }
    assert src[p..] == [];
    if i < dest.Length {
      dest[i] := 0;
    } else if dest.Length > 0 {
      dest[dest.Length - 1] := 0;
    }
  }

  /** All code points are below 0x800. */
  ghost predicate AllSmall(b: seq<Byte>) { forall k :: 0 <= k < |Points(b)| ==> Points(b)[k].c < 0x800 }

  /** A code point below 0x800 takes one byte, or two bytes of which the first is at least 0xc2. */
  lemma {:induction false} SmallPoint(src: seq<Byte>, p: nat)
    requires p < |src| && AllSmall(src[p..])
    ensures var r := DecodeLen(src[p..]);
            && r.c < 0x800 && AllSmall(src[p + r.size..])
            && (if src[p] >= 0xc0 then
                p + 1 < |src| && r.size == 2 && r.c == (src[p] as int) * 0x40 + src[p + 1] as int - (0xc0 * 0x40 + 0x80)
                else r == Decoded(src[p] as nat, 1))
  {
    hide Points;
    var b := src[p..];
    var r := DecodeLen(b);
    PointsStep(src, p);
    var rest := Points(src[p + r.size..]);
    assert Points(b)[0] == r;
    assert forall k :: 0 <= k < |rest| ==> rest[k] == Points(b)[k + 1];
    assert b[0] == src[p] && (|b| > 1 ==> b[1] == src[p + 1]);
  }


  // ---- encoding ----

  /** The bytes of the first i units. */
  ghost predicate Encoded(src: seq<Unit>, i: nat, done: seq<Byte>) {
    i <= |src| && Utf8Of(src) == done + Utf8Of(src[i..])
  }

  lemma EncodeStart(src: seq<Unit>)
    ensures Encoded(src, 0, [])
  {
    assert src[0..] == src;
  }

  lemma EncodeEnd(src: seq<Unit>, done: seq<Byte>)
    requires Encoded(src, |src|, done)
    ensures Utf8Of(src) == done
  {
    assert src[|src|..] == [];
  }

  lemma {:induction false} EncodeStep(src: seq<Unit>, i: nat, done: seq<Byte>)
    requires i < |src| && Encoded(src, i, done)
    ensures var r := NextPoint(src[i..]);
            0 < r.size <= |src| - i && Encoded(src, i + r.size, done + Encode(r.c))
              && |Encode(r.c)| == EncodeLen(r.c) > 0
  {
    hide Encode, NextPoint;
    var r := NextPoint(src[i..]);
    assert src[i..][r.size..] == src[i + r.size..];
    assert done + (Encode(r.c) + Utf8Of(src[i + r.size..])) == done + Encode(r.c) + Utf8Of(src[i + r.size..]);
  }

  lemma EncodedPrefix(src: seq<Unit>, i: nat, done: seq<Byte>)
    requires Encoded(src, i, done)
    ensures done <= Utf8Of(src)
  {
  }

  /** Count the bytes of the units from i on. */
  method CountRest(src: seq<Unit>, i0: nat, ghost done0: seq<Byte>) returns (n: nat)
    requires i0 <= |src| && Encoded(src, i0, done0)
    ensures |done0| + n == |Utf8Of(src)|
  {
    hide *;
    var i := i0;
    n := 0;
    ghost var done := done0;
    while i < |src|
      invariant i <= |src| && Encoded(src, i, done) && |done| == |done0| + n
      decreases |src| - i
    {
      EncodeStep(src, i, done);
      var r := NextPoint(src[i..]);
      n := n + EncodeLen(r.c);
      i := i + r.size;
      done := done + Encode(r.c);
    }
    EncodeEnd(src, done);
  }

  /** `utf8_encode_buf16`: the bytes needed are counted; those stored are whole code points, followed by a zero. */
  method EncodeBuf16(dest: array<Byte>, src: seq<Unit>) returns (j: nat, ghost stored: nat, ghost whole: nat)
    modifies dest
    ensures j == |Utf8Of(src)| && stored <= j && stored <= dest.Length && Encoded(src, whole, dest[..stored])
    ensures whole < |src| ==> stored + EncodeLen(NextPoint(src[whole..]).c) >= dest.Length
    ensures dest.Length > 0 ==> stored < dest.Length && dest[stored] == 0
    ensures j < dest.Length ==> stored == j && whole == |src|
  {
    hide *;
    j := 0;
    var i := 0;
    ghost var done := [];
    EncodeStart(src);
    while i < |src|
      invariant i <= |src| && Encoded(src, i, done) && j == |done| && (j < dest.Length || j == 0)
      invariant j <= dest.Length && dest[..j] == done
      decreases |src| - i
    {
      EncodedPrefix(src, i, done);
      EncodeStep(src, i, done);
      var r := NextPoint(src[i..]);
      var bytes := Encode(r.c);
      if j + |bytes| >= dest.Length {
        stored, whole := j, i;
        EncodedPrefix(src, i + r.size, done + bytes);
        if j < dest.Length {
          dest[j] := 0;
        }
        assert dest[..stored] == done;
        var n := CountRest(src, i, done);
        j := j + n;
        return;
      }
      StoreBytes(dest, j, bytes);
      j := j + |bytes|;
      i := i + r.size;
      done := done + bytes;
    }
    EncodeEnd(src, done);
    stored, whole := j, i;
    if j < dest.Length {
      dest[j] := 0;
    }
    assert dest[..stored] == done;
  }

  method StoreBytes(dest: array<Byte>, j: nat, bytes: seq<Byte>)
    requires j + |bytes| <= dest.Length
    modifies dest
    ensures dest[..j + |bytes|] == old(dest[..j]) + bytes
  {
    for k := 0 to |bytes|
      invariant dest[..j + k] == old(dest[..j]) + bytes[..k]
    {
      dest[j + k] := bytes[k];
    }
  }

  /** Encoding into a large enough buffer and decoding what was stored gives the string back. */
  method EncodeThenDecode(src: seq<Unit>) returns (back: array<Unit>)
    ensures back[..] == src
  {
    hide *;
    ghost var stored, whole;
    var n;
    var bytes := new Byte[0];
    n, stored, whole := EncodeBuf16(bytes, src);
    bytes := new Byte[n + 1];
    n, stored, whole := EncodeBuf16(bytes, src);
    var text := bytes[..n];
    EncodeEnd(src, text);
    UnitsUtf8(src);
    var _, len := Scan(text);
    back := new Unit[len];
    var count := DecodeBuf16(back, text);
    assert back[..] == src;
  }
}
