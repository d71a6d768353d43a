/** Instructions as bytes, in the layout of libregexp-opcode.h: an opcode, then little-endian operands. */
module Encoding {
  import opened ByteType
  import opened RegexSyntax
  import opened Bytecode
  import opened SnapshotMachine

  // Opcodes, in the order of libregexp-opcode.h.
  const OP_CHAR: Byte := 1
  const OP_CHAR32: Byte := 3
  const OP_DOT: Byte := 5
  const OP_ANY: Byte := 6
  const OP_SPACE: Byte := 7
  const OP_LINE_START: Byte := 9
  const OP_LINE_END: Byte := 11
  const OP_GOTO: Byte := 13
  const OP_SPLIT_GOTO_FIRST: Byte := 14
  const OP_MATCH: Byte := 16
  const OP_LOOKAHEAD_MATCH: Byte := 17
  const OP_SAVE_START: Byte := 19
  const OP_SAVE_RESET: Byte := 21
  const OP_LOOP: Byte := 22
  const OP_LOOP_SPLIT_GOTO_FIRST: Byte := 23
  const OP_LOOP_CHECK_ADV_SPLIT_GOTO_FIRST: Byte := 25
  const OP_SET_I32: Byte := 27
  const OP_WORD_BOUNDARY: Byte := 28
  const OP_BACK_REFERENCE: Byte := 32
  const OP_RANGE: Byte := 36
  const OP_RANGE32: Byte := 38
  const OP_LOOKAHEAD: Byte := 40
  const OP_SET_CHAR_POS: Byte := 42
  const OP_CHECK_ADVANCE: Byte := 43
  const OP_PREV: Byte := 44

  function Le16(v: nat): (r: seq<Byte>)
    ensures |r| == 2
  {
    [v % 256, v / 256 % 256]
  }

  function Le32(v: nat): (r: seq<Byte>)
    ensures |r| == 4
  {
    [v % 256, v / 256 % 256, v / 0x1_0000 % 256, v / 0x100_0000 % 256]
  }

  function Get16(b: seq<Byte>, i: nat): (r: nat)
    requires i + 2 <= |b|
    ensures r < 0x1_0000
  {
    (b[i] as int) + 256 * (b[i + 1] as int)
  }

  function Get32(b: seq<Byte>, i: nat): (r: nat)
    requires i + 4 <= |b|
    ensures r < 0x1_0000_0000
  {
    (b[i] as int) + 256 * (b[i + 1] as int) + 0x1_0000 * (b[i + 2] as int) + 0x100_0000 * (b[i + 3] as int)
  }

  /** A 32-bit word read as a signed offset. */
  function Signed(v: nat): int { if v < 0x8000_0000 then v else v - 0x1_0000_0000 }

  function Unsigned(v: int): nat { v % 0x1_0000_0000 }

  predicate IsOffset(v: int) { -0x8000_0000 <= v < 0x8000_0000 }

  lemma Get16Put(x: seq<Byte>, v: nat, y: seq<Byte>)
    requires v < 0x1_0000
    ensures Get16(x + Le16(v) + y, |x|) == v
  {
    var b := x + Le16(v) + y;
    assert b[|x|] == v % 256 && b[|x| + 1] == v / 256 % 256;
  }

  lemma Get32Put(x: seq<Byte>, v: nat, y: seq<Byte>)
    requires v < 0x1_0000_0000
    ensures Get32(x + Le32(v) + y, |x|) == v
  {
    var b := x + Le32(v) + y;
    assert b[|x|] == Le32(v)[0] && b[|x| + 1] == Le32(v)[1] && b[|x| + 2] == Le32(v)[2] && b[|x| + 3] == Le32(v)[3];
    FourDigits(v);
  }

  /** A 32-bit number from its digits in base 256. */
  lemma FourDigits(v: nat)
    requires v < 0x1_0000_0000
    ensures v % 256 + 256 * (v / 256 % 256) + 0x1_0000 * (v / 0x1_0000 % 256) + 0x100_0000 * (v / 0x100_0000 % 256) == v
  {
    var a := v / 256;
    var b := a / 256;
    assert v == 256 * a + v % 256 && a == 256 * b + a % 256 && b == 256 * (b / 256) + b % 256;
    assert b == v / 0x1_0000 && b / 256 == v / 0x100_0000;
  }

  lemma SignedUnsigned(v: int)
    requires IsOffset(v)
    ensures Signed(Unsigned(v)) == v
  {
  }

  // ---- encoding ----

  /** Upper bound of an interval in a 16-bit table: 0xffff stands for infinity. */
  function High16(point: nat): nat { if point == 0xffff_ffff then 0xffff else if point > 0 then point - 1 else 0 }

  function Table16(points: seq<nat>): seq<Byte> {
    if |points| < 2 then [] else Le16(points[0]) + Le16(High16(points[1])) + Table16(points[2..])
  }

  function Table32(points: seq<nat>): seq<Byte> {
    if |points| < 2 then []
    else Le32(points[0]) + Le32(if points[1] > 0 then points[1] - 1 else 0) + Table32(points[2..])
  }

  function EncodeTest(t: CharTest): seq<Byte> {
    match t
    case Literal(c, ic) => if c <= 0xffff then [OP_CHAR + B(ic)] + Le16(c) else [OP_CHAR32 + B(ic)] + Le32(c)
    case Dot => [OP_DOT]
    case Any => [OP_ANY]
    case Space(negated) => [OP_SPACE + B(negated)]
    case InSet(points, ic) =>
      var n := |points| / 2;
      if n == 0 then [OP_CHAR32] + Le32(0xffff_ffff)
      else if Fits16(points) then [OP_RANGE + B(ic)] + Le16(n) + Table16(points)
      else [OP_RANGE32 + B(ic)] + Le16(n) + Table32(points)
  }

  function EncodeCheck(a: Assertion): seq<Byte> {
    match a
    case LineStart(m) => [OP_LINE_START + B(m)]
    case LineEnd(m) => [OP_LINE_END + B(m)]
    case WordBoundary(negated, ic) => [OP_WORD_BOUNDARY + 2 * B(negated) + B(ic)]
  }

  function ToByte(v: int): Byte { v % 256 }

  function Bytes(v: seq<nat>): (r: seq<Byte>)
    ensures |r| == |v|
  {
    seq(|v|, i requires 0 <= i < |v| => ToByte(v[i]))
  }

  function Encode(i: Instr): seq<Byte> {
    match i
    case Test(t) => EncodeTest(t)
    case Check(a) => EncodeCheck(a)
    case Goto(offset) => [OP_GOTO] + Le32(Unsigned(offset))
    case Split(gotoFirst, offset) => [OP_SPLIT_GOTO_FIRST + B(!gotoFirst)] + Le32(Unsigned(offset))
    case Match => [OP_MATCH]
    case LookMatch(negative) => [OP_LOOKAHEAD_MATCH + B(negative)]
    case Save(end, group) => [OP_SAVE_START + B(end), ToByte(group)]
    case Reset(lo, hi) => [OP_SAVE_RESET, ToByte(lo), ToByte(hi)]
    case Loop(reg, offset) => [OP_LOOP, ToByte(reg)] + Le32(Unsigned(offset))
    case LoopSplit(gotoFirst, checkAdvance, reg, limit, offset) =>
      [(if checkAdvance then OP_LOOP_CHECK_ADV_SPLIT_GOTO_FIRST else OP_LOOP_SPLIT_GOTO_FIRST) + B(!gotoFirst),
        ToByte(reg)] +
      Le32(Unsigned(limit)) + Le32(Unsigned(offset))
    case SetI32(reg, value) => [OP_SET_I32, ToByte(reg)] + Le32(value)
    case Ref(backward, ic, groups) => [OP_BACK_REFERENCE + 2 * B(backward) + B(ic), ToByte(|groups|)] + Bytes(groups)
    case LookStart(negative, offset) => [OP_LOOKAHEAD + B(negative)] + Le32(Unsigned(offset))
    case SetCharPos(reg) => [OP_SET_CHAR_POS, ToByte(reg)]
    case CheckAdvance(reg) => [OP_CHECK_ADVANCE, ToByte(reg)]
    case Prev => [OP_PREV]
  }

  function EncodeAll(code: seq<Instr>): seq<Byte> {
    if code == [] then [] else Encode(code[0]) + EncodeAll(code[1..])
  }

  // ---- decoding ----

  function Points16(b: seq<Byte>, i: nat, n: nat): seq<nat>
    requires i + 4 * n <= |b|
    decreases n
  {
    if n == 0 then []
    else
      var high := Get16(b, i + 2);
      [Get16(b, i), if high == 0xffff then 0xffff_ffff else high + 1] + Points16(b, i + 4, n - 1)
  }

  function Points32(b: seq<Byte>, i: nat, n: nat): seq<nat>
    requires i + 8 * n <= |b|
    decreases n
  {
    if n == 0 then [] else [Get32(b, i), Get32(b, i + 4) + 1] + Points32(b, i + 8, n - 1)
  }

  /** Operands of the fixed-size instructions, from the byte after the opcode. */
  function DecodeFixed(op: Byte, b: seq<Byte>): Option<Instr> {
    if op == OP_GOTO then if |b| < 4 then None else Some(Goto(Signed(Get32(b, 0))))
    else if OP_SPLIT_GOTO_FIRST <= op <= OP_SPLIT_GOTO_FIRST + 1 then
      if |b| < 4 then None else Some(Split(op == OP_SPLIT_GOTO_FIRST, Signed(Get32(b, 0))))
    else if op == OP_MATCH then Some(Match)
    else if OP_LOOKAHEAD_MATCH <= op <= OP_LOOKAHEAD_MATCH + 1 then Some(LookMatch(op != OP_LOOKAHEAD_MATCH))
    else if OP_SAVE_START <= op <= OP_SAVE_START + 1 then
      if |b| < 1 then None else Some(Save(op != OP_SAVE_START, b[0]))
    else if op == OP_SAVE_RESET then if |b| < 2 then None else Some(Reset(b[0], b[1]))
    else if op == OP_LOOP then if |b| < 5 then None else Some(Loop(b[0], Signed(Get32(b, 1))))
    else if OP_LOOP_SPLIT_GOTO_FIRST <= op <= OP_LOOP_SPLIT_GOTO_FIRST + 3 then
      if |b| < 9 then None
      else Some(LoopSplit(op == OP_LOOP_SPLIT_GOTO_FIRST || op == OP_LOOP_CHECK_ADV_SPLIT_GOTO_FIRST,
                          op >= OP_LOOP_CHECK_ADV_SPLIT_GOTO_FIRST, b[0], Get32(b, 1), Signed(Get32(b, 5))))
    else if op == OP_SET_I32 then if |b| < 5 then None else Some(SetI32(b[0], Get32(b, 1)))
    else if OP_LOOKAHEAD <= op <= OP_LOOKAHEAD + 1 then
      if |b| < 4 then None else Some(LookStart(op != OP_LOOKAHEAD, Signed(Get32(b, 0))))
    else if op == OP_SET_CHAR_POS then if |b| < 1 then None else Some(SetCharPos(b[0]))
    else if op == OP_CHECK_ADVANCE then if |b| < 1 then None else Some(CheckAdvance(b[0]))
    else if op == OP_PREV then Some(Prev)
    else None
  }

  function Naturals(b: seq<Byte>): (r: seq<nat>)
    ensures |r| == |b|
  {
    seq(|b|, i requires 0 <= i < |b| => b[i] as nat)
  }

  /** Tests, assertions and back references. */
  function DecodeTest(op: Byte, b: seq<Byte>): Option<Instr> {
    if OP_CHAR <= op <= OP_CHAR + 1 then
      if |b| < 2 then None else Some(Test(Literal(Get16(b, 0), op != OP_CHAR)))
    else if OP_CHAR32 <= op <= OP_CHAR32 + 1 then
      if |b| < 4 then None else Some(Test(Literal(Get32(b, 0), op != OP_CHAR32)))
    else if op == OP_DOT then Some(Test(Dot))
    else if op == OP_ANY then Some(Test(Any))
    else if OP_SPACE <= op <= OP_SPACE + 1 then Some(Test(Space(op != OP_SPACE)))
    else if OP_LINE_START <= op <= OP_LINE_START + 1 then Some(Check(LineStart(op != OP_LINE_START)))
    else if OP_LINE_END <= op <= OP_LINE_END + 1 then Some(Check(LineEnd(op != OP_LINE_END)))
    else if OP_WORD_BOUNDARY <= op <= OP_WORD_BOUNDARY + 3 then
      Some(Check(WordBoundary(op >= OP_WORD_BOUNDARY + 2, op % 2 == 1)))
    else if OP_BACK_REFERENCE <= op <= OP_BACK_REFERENCE + 3 then
      if |b| < 1 || |b| < 1 + b[0] as int then None
      else Some(Ref(op >= OP_BACK_REFERENCE + 2, op % 2 == 1, Naturals(b[1..1 + b[0] as int])))
    else if OP_RANGE <= op <= OP_RANGE + 1 then
      if |b| < 2 || |b| < 2 + 4 * Get16(b, 0) then None
      else Some(Test(InSet(Points16(b, 2, Get16(b, 0)), op != OP_RANGE)))
    else if OP_RANGE32 <= op <= OP_RANGE32 + 1 then
      if |b| < 2 || |b| < 2 + 8 * Get16(b, 0) then None
      else Some(Test(InSet(Points32(b, 2, Get16(b, 0)), op != OP_RANGE32)))
    else None
  }

  /** The instruction that the executor reads at the start of `b`. */
  function Decode(b: seq<Byte>): Option<Instr> {
    if b == [] then None
    else
      var r := DecodeTest(b[0], b[1..]);
      if r.Some? then r else DecodeFixed(b[0], b[1..])
  }

  // ---- round trip ----

  /** A canonical set of code points with bounds below 2^32. */
  predicate IsPointList(points: seq<nat>) {
    |points| % 2 == 0 && (forall i :: 0 <= i < |points| ==> points[i] < 0x1_0000_0000) &&
    forall i, j :: 0 <= i < j < |points| ==> points[i] < points[j]
  }

  /** What fits the operand fields. An empty set is emitted as a literal that no character equals. */
  predicate Encodable(i: Instr) {
    match i
    case Test(Literal(c, _)) => c < 0x1_0000_0000
    case Test(InSet(points, _)) => IsPointList(points) && 0 < |points| / 2 < 65535
    case Goto(offset) => IsOffset(offset)
    case Split(_, offset) => IsOffset(offset)
    case Save(_, group) => group < 256
    case Reset(lo, hi) => lo < 256 && hi < 256
    case Loop(reg, offset) => reg < 256 && IsOffset(offset)
    case LoopSplit(_, _, reg, limit, offset) => reg < 256 && 0 <= limit < 0x1_0000_0000 && IsOffset(offset)
    case SetI32(reg, value) => reg < 256 && value < 0x1_0000_0000
    case Ref(_, _, groups) => |groups| < 256 && forall k :: 0 <= k < |groups| ==> groups[k] < 256
    case LookStart(_, offset) => IsOffset(offset)
    case SetCharPos(reg) => reg < 256
    case CheckAdvance(reg) => reg < 256
    case _ => true
  }

  /** A 32-bit operand at offset k of the operand bytes. */
  lemma Operand32(b: seq<Byte>, x: seq<Byte>, v: nat, y: seq<Byte>)
    requires v < 0x1_0000_0000 && b == x + Le32(v) + y
    ensures |b| >= |x| + 4 && Get32(b, |x|) == v
  {
    Get32Put(x, v, y);
  }

  lemma Operand16(b: seq<Byte>, x: seq<Byte>, v: nat, y: seq<Byte>)
    requires v < 0x1_0000 && b == x + Le16(v) + y
    ensures |b| >= |x| + 2 && Get16(b, |x|) == v
  {
    Get16Put(x, v, y);
  }

  lemma {:induction false} TableSize(points: seq<nat>)
    ensures |Table16(points)| == 4 * (|points| / 2) && |Table32(points)| == 8 * (|points| / 2)
  {
    if |points| >= 2 {
      TableSize(points[2..]);
    }
  }

  /** The sizes of the opcode table are the sizes of the emitted bytes. */
  lemma {:induction false} EncodeSize(i: Instr)
    ensures |Encode(i)| == Size(i)
  {
    if i.Test? && i.t.InSet? {
      TableSize(i.t.points);
    }
  }

  lemma Tail(op: Byte, x: seq<Byte>, y: seq<Byte>)
    ensures ([op] + x + y)[1..] == x + y && ([op] + x + y)[0] == op
  {
  }

  lemma DecodeNoTest(op: Byte, b: seq<Byte>)
    requires (13 <= op <= 27 || 40 <= op)
    ensures DecodeTest(op, b) == None
  {
  }

  lemma {:induction false} Table16Head(points: seq<nat>, x: seq<Byte>, y: seq<Byte>)
    requires |points| >= 2 && points[0] < 0x1_0000 && High16(points[1]) < 0x1_0000
    ensures var b, w := x + Table16(points) + y, x + Le16(points[0]) + Le16(High16(points[1]));
            && b == w + Table16(points[2..]) + y && |w| == |x| + 4 <= |b|
            && Get16(b, |x|) == points[0] && Get16(b, |x| + 2) == High16(points[1])
  {
    var lo, hi, rest := Le16(points[0]), Le16(High16(points[1])), Table16(points[2..]);
    assert Table16(points) == lo + hi + rest;
    hide Table16, Le16, Get16;
    var b := x + Table16(points) + y;
    assert b == x + lo + (hi + rest + y);
    Operand16(b, x, points[0], hi + rest + y);
    assert b == (x + lo) + hi + (rest + y);
    Operand16(b, x + lo, High16(points[1]), rest + y);
  }

  lemma {:induction false} FitsHead(points: seq<nat>)
    requires IsPointList(points) && |points| >= 2 && Fits16(points)
    ensures points[0] < 0x1_0000 && High16(points[1]) < 0x1_0000
    ensures points[1] == if High16(points[1]) == 0xffff then 0xffff_ffff else High16(points[1]) + 1
    ensures |points| > 2 ==> Fits16(points[2..])
  {
    var n := |points|;
    assert points[0] < points[1];
    if n > 2 {
      assert points[1] < points[n - 2] && points[n - 2] < points[n - 1];
      assert points[2..][n - 3] == points[n - 1] && points[2..][n - 4] == points[n - 2];
    }
  }

  lemma {:induction false} PointsOfTable16(points: seq<nat>, x: seq<Byte>, y: seq<Byte>)
    requires IsPointList(points) && |points| >= 2 && Fits16(points)
    ensures |x + Table16(points) + y| >= |x| + 4 * (|points| / 2)
    ensures Points16(x + Table16(points) + y, |x|, |points| / 2) == points
    decreases |points|
  {
    hide *;
    TableSize(points);
    FitsHead(points);
    Table16Head(points, x, y);
    PointListTail(points);
    PointListEven(points);
    var b, w := x + Table16(points) + y, x + Le16(points[0]) + Le16(High16(points[1]));
    if |points| > 2 {
      PointsOfTable16(points[2..], w, y);
      assert |points[2..]| / 2 == |points| / 2 - 1;
    }
    assert points == [points[0], points[1]] + points[2..];
    PointsHead(b, |x|, |points| / 2, points);
  }

  lemma PointListEven(points: seq<nat>)
    requires IsPointList(points)
    ensures |points| % 2 == 0
  {
  }

  /** The first interval of a 16-bit table, and the rest. */
  lemma PointsHead(b: seq<Byte>, at: nat, n: nat, points: seq<nat>)
    requires n > 0 && at + 4 * n <= |b| && |points| == 2 * n
    requires Get16(b, at) == points[0] && points[1] == (if Get16(b, at + 2)
        == 0xffff then 0xffff_ffff else Get16(b, at + 2) + 1)
    requires n > 1 ==> Points16(b, at + 4, n - 1) == points[2..]
    ensures Points16(b, at, n) == points
  {
    hide Get16;
    assert points == [points[0], points[1]] + points[2..];
  }

  lemma PointListTail(points: seq<nat>)
    requires IsPointList(points) && |points| >= 2
    ensures IsPointList(points[2..])
  {
  }

  lemma {:induction false} Table32Head(points: seq<nat>, x: seq<Byte>, y: seq<Byte>)
    requires |points| >= 2 && points[0] < points[1] < 0x1_0000_0000
    ensures var b, w := x + Table32(points) + y, x + Le32(points[0]) + Le32(points[1] - 1);
            && b == w + Table32(points[2..]) + y && |w| == |x| + 8 <= |b|
            && Get32(b, |x|) == points[0] && Get32(b, |x| + 4) == points[1] - 1
  {
    var lo, hi, rest := Le32(points[0]), Le32(points[1] - 1), Table32(points[2..]);
    assert Table32(points) == lo + hi + rest;
    hide Table32, Le32, Get32;
    var b := x + Table32(points) + y;
    assert b == x + lo + (hi + rest + y);
    Operand32(b, x, points[0], hi + rest + y);
    assert b == (x + lo) + hi + (rest + y);
    Operand32(b, x + lo, points[1] - 1, rest + y);
  }

  lemma {:induction false} PointsOfTable32(points: seq<nat>, x: seq<Byte>, y: seq<Byte>)
    requires IsPointList(points)
    ensures |x + Table32(points) + y| >= |x| + 8 * (|points| / 2)
    ensures Points32(x + Table32(points) + y, |x|, |points| / 2) == points
    decreases |points|
  {
    TableSize(points);
    if |points| >= 2 {
      assert points[0] < points[1] < 0x1_0000_0000;
      Table32Head(points, x, y);
      PointListTail(points);
      hide Table32, Le32, Get32, IsPointList;
      var w := x + Le32(points[0]) + Le32(points[1] - 1);
      PointsOfTable32(points[2..], w, y);
      assert points == [points[0], points[1]] + points[2..];
    }
  }

  lemma DecodeVia(op: Byte, b: seq<Byte>)
    requires DecodeTest(op, b).Some?
    ensures Decode([op] + b) == DecodeTest(op, b)
  {
    hide DecodeTest, DecodeFixed;
    assert ([op] + b)[1..] == b;
  }

  lemma {:induction false} EncodeSet(points: seq<nat>, ic: bool)
    requires |points| >= 2
    ensures EncodeTest(InSet(points, ic)) ==
            if Fits16(points) then [OP_RANGE + B(ic)] + Le16(|points| / 2) + Table16(points)
            else [OP_RANGE32 + B(ic)] + Le16(|points| / 2) + Table32(points)
  {
    hide Table16, Table32, Fits16, Le16, Le32;
  }

  lemma RangeCodes(ic: bool)
    ensures OP_RANGE + B(ic) < 256 && OP_RANGE32 + B(ic) < 256
  {
  }

  lemma {:induction false} DecodeSet(points: seq<nat>, ic: bool, y: seq<Byte>)
    requires IsPointList(points) && 0 < |points| / 2 < 65535
    ensures Decode(EncodeTest(InSet(points, ic)) + y) == Some(Test(InSet(points, ic)))
  {
    hide *;
    EncodeSet(points, ic);
    TableSize(points);
    PointListEven(points);
    var n := |points| / 2;
    var table := if Fits16(points) then Table16(points) else Table32(points);
    RangeCodes(ic);
    var op: Byte := if Fits16(points) then OP_RANGE + B(ic) else OP_RANGE32 + B(ic);
    var b := Le16(n) + table + y;
    assert EncodeTest(InSet(points, ic)) + y == [op] + b;
    assert b == [] + Le16(n) + (table + y);
    Operand16(b, [], n, table + y);
    if Fits16(points) {
      PointsOfTable16(points, Le16(n), y);
      DecodeRange16(op, ic, b, points);
    } else {
      PointsOfTable32(points, Le16(n), y);
      DecodeRange32(op, ic, b, points);
    }
    DecodeVia(op, b);
  }

  lemma DecodeRange16(op: Byte, ic: bool, b: seq<Byte>, points: seq<nat>)
    requires op == OP_RANGE + B(ic) && |b| >= 2 && Get16(b, 0) == |points| / 2 && |b| >= 2 + 4 * (|points| / 2)
    requires Points16(b, 2, |points| / 2) == points
    ensures DecodeTest(op, b) == Some(Test(InSet(points, ic)))
  {
    hide Points16, Get16;
  }

  lemma DecodeRange32(op: Byte, ic: bool, b: seq<Byte>, points: seq<nat>)
    requires op == OP_RANGE32 + B(ic) && |b| >= 2 && Get16(b, 0) == |points| / 2 && |b| >= 2 + 8 * (|points| / 2)
    requires Points32(b, 2, |points| / 2) == points
    ensures DecodeTest(op, b) == Some(Test(InSet(points, ic)))
  {
    hide Points32, Get16;
  }

  lemma {:induction false} DecodeLiteral(i: Instr, y: seq<Byte>)
    requires i.Test? && i.t.Literal? && Encodable(i)
    ensures Decode(Encode(i) + y) == Some(i)
  {
    hide Le16, Le32, Get16, Get32;
    var c := i.t.c;
    if c <= 0xffff {
      Tail(OP_CHAR + B(i.t.ignoreCase), Le16(c), y);
      Operand16(Le16(c) + y, [], c, y);
    } else {
      Tail(OP_CHAR32 + B(i.t.ignoreCase), Le32(c), y);
      Operand32(Le32(c) + y, [], c, y);
    }
  }

  lemma {:induction false} DecodeSimpleTest(i: Instr, y: seq<Byte>)
    requires (i.Test? && !i.t.InSet?) || i.Check?
    requires Encodable(i)
    ensures Decode(Encode(i) + y) == Some(i)
  {
    if i.Test? && i.t.Literal? {
      DecodeLiteral(i, y);
    } else {
      Tail(Encode(i)[0], [], y);
    }
  }

  lemma {:induction false} DecodeRef(i: Instr, y: seq<Byte>)
    requires i.Ref? && Encodable(i)
    ensures Decode(Encode(i) + y) == Some(i)
  {
    var op, n, gs := OP_BACK_REFERENCE + 2 * B(i.backward) + B(i.ignoreCase), ToByte(|i.groups|), Bytes(i.groups);
    assert Encode(i) == [op] + ([n] + gs);
    Tail(op, [n] + gs, y);
    var b := [n] + gs + y;
    assert n as int == |gs| && b[1..1 + |gs|] == gs;
    assert Naturals(gs) == i.groups;
  }

  lemma {:induction false} DecodeJump(i: Instr, y: seq<Byte>)
    requires i.Goto? || i.Split? || i.LookStart?
    requires Encodable(i)
    ensures Decode(Encode(i) + y) == Some(i)
  {
    var op, v := Encode(i)[0], Unsigned(i.offset);
    SignedUnsigned(i.offset);
    assert Encode(i) == [op] + Le32(v);
    Tail(op, Le32(v), y);
    DecodeNoTest(op, Le32(v) + y);
    Operand32(Le32(v) + y, [], v, y);
  }

  lemma {:induction false} DecodeLoop(i: Instr, y: seq<Byte>)
    requires i.Loop? || i.SetI32?
    requires Encodable(i)
    ensures Decode(Encode(i) + y) == Some(i)
  {
    var op, r := Encode(i)[0], ToByte(i.reg);
    var v := if i.Loop? then Unsigned(i.offset) else i.value;
    if i.Loop? { SignedUnsigned(i.offset); }
    assert Encode(i) == [op] + ([r] + Le32(v));
    Tail(op, [r] + Le32(v), y);
    DecodeNoTest(op, [r] + Le32(v) + y);
    Operand32([r] + Le32(v) + y, [r], v, y);
  }

  lemma {:induction false} DecodeLoopSplit(i: Instr, y: seq<Byte>)
    requires i.LoopSplit? && Encodable(i)
    ensures Decode(Encode(i) + y) == Some(i)
  {
    var op, r, u, v := Encode(i)[0], ToByte(i.reg), Unsigned(i.limit), Unsigned(i.offset);
    SignedUnsigned(i.offset);
    var rest := [r] + Le32(u) + Le32(v);
    assert Encode(i) == [op] + rest;
    Tail(op, rest, y);
    DecodeNoTest(op, rest + y);
    assert rest + y == [r] + Le32(u) + (Le32(v) + y);
    Operand32(rest + y, [r], u, Le32(v) + y);
    assert rest + y == ([r] + Le32(u)) + Le32(v) + y;
    Operand32(rest + y, [r] + Le32(u), v, y);
  }

  lemma {:induction false} DecodeShort(i: Instr, y: seq<Byte>)
    requires i.Match? || i.LookMatch? || i.Save? || i.Reset? || i.SetCharPos? || i.CheckAdvance? || i.Prev?
    requires Encodable(i)
    ensures Decode(Encode(i) + y) == Some(i)
  {
    var e := Encode(i);
    Tail(e[0], e[1..], y);
    assert e == [e[0]] + e[1..];
    DecodeNoTest(e[0], e[1..] + y);
  }

  /** Decoding undoes encoding. */
  lemma {:induction false} DecodeEncode(i: Instr, y: seq<Byte>)
    requires Encodable(i)
    ensures Decode(Encode(i) + y) == Some(i)
  {
    hide Decode;
    match i
    case Test(t) => if t.InSet? { DecodeSet(t.points, t.ignoreCase, y); } else { DecodeSimpleTest(i, y); }
    case Check(_) => DecodeSimpleTest(i, y);
    case Goto(_) => DecodeJump(i, y);
    case Split(_, _) => DecodeJump(i, y);
    case LookStart(_, _) => DecodeJump(i, y);
    case Loop(_, _) => DecodeLoop(i, y);
    case SetI32(_, _) => DecodeLoop(i, y);
    case LoopSplit(_, _, _, _, _) => DecodeLoopSplit(i, y);
    case Ref(_, _, _) => DecodeRef(i, y);
    case _ => DecodeShort(i, y);
  }

  predicate AllEncodable(code: seq<Instr>) {
    forall k :: 0 <= k < |code| ==> Encodable(code[k])
  }

  lemma {:induction false} EncodeAllSize(code: seq<Instr>)
    ensures |EncodeAll(code)| == Len(code)
  {
    if code != [] {
      EncodeSize(code[0]);
      EncodeAllSize(code[1..]);
    }
  }

  lemma {:induction false} EncodeAllAppend(a: seq<Instr>, b: seq<Instr>)
    ensures EncodeAll(a + b) == EncodeAll(a) + EncodeAll(b)
  {
    if a == [] {
      assert a + b == b;
    } else {
      assert (a + b)[1..] == a[1..] + b;
      EncodeAllAppend(a[1..], b);
    }
  }

  /** Reading the bytes at an instruction boundary yields the instruction there. */
  lemma {:induction false} DecodeFetches(code: seq<Instr>, pc: int)
    requires AllEncodable(code) && Fetch(code, pc).Some?
    ensures 0 <= pc < |EncodeAll(code)| && Decode(EncodeAll(code)[pc..]) == Fetch(code, pc)
    decreases |code|
  {
    hide Decode, Encode, Encodable;
    var e, rest := Encode(code[0]), EncodeAll(code[1..]);
    EncodeSize(code[0]);
    EncodeAllSize(code);
    if pc == 0 {
      DecodeEncode(code[0], rest);
      assert EncodeAll(code)[0..] == EncodeAll(code);
    } else {
      DecodeFetches(code[1..], pc - Size(code[0]));
      assert (e + rest)[pc..] == rest[pc - |e|..];
    }
  }
}
