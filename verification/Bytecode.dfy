/** Instructions of the regexp machine, the code templates of the compiler, and the two
    linear analyses the compiler runs on emitted code. */
module Bytecode {
  import opened RegexSyntax

  /** One instruction. Jump offsets are in bytes, relative to the end of the instruction.
      Register operands are numbered from 0. */
  datatype Instr =
    | Test(t: CharTest)
    | Check(a: Assertion)
    | Goto(offset: int)
    | Split(gotoFirst: bool, offset: int)
    | Match
    | LookMatch(negative: bool)
    | Save(end: bool, group: nat)
    | Reset(lo: nat, hi: nat)
    | Loop(reg: nat, offset: int)
    | LoopSplit(gotoFirst: bool, checkAdvance: bool, reg: nat, limit: int, offset: int)
    | SetI32(reg: nat, value: nat)
    | Ref(backward: bool, ignoreCase: bool, groups: seq<nat>)
    | LookStart(negative: bool, offset: int)
    | SetCharPos(reg: nat)
    | CheckAdvance(reg: nat)
    | Prev

  /** A set whose last bound fits 16 bits, with "to infinity" encoded as 0xffff. */
  predicate Fits16(points: seq<nat>)
    requires |points| >= 2
  {
    var last := points[|points| - 1];
    (if last == 0xffff_ffff then points[|points| - 2] else last) <= 0xffff
  }

  /** Size in bytes of a test as emitted. */
  function TestSize(t: CharTest): (r: nat)
    ensures r > 0
  {
    match t
    case Literal(c, _) => if c <= 0xffff then 3 else 5
    case InSet(points, _) =>
      var n := |points| / 2;
      if n == 0 then 5 else if Fits16(points) then 3 + 4 * n else 3 + 8 * n
    case _ => 1
  }

  function Size(i: Instr): (r: nat)
    ensures r > 0
  {
    match i
    case Test(t) => TestSize(t)
    case Check(_) => 1
    case Goto(_) => 5
    case Split(_, _) => 5
    case Match => 1
    case LookMatch(_) => 1
    case Save(_, _) => 2
    case Reset(_, _) => 3
    case Loop(_, _) => 6
    case LoopSplit(_, _, _, _, _) => 10
    case SetI32(_, _) => 6
    case Ref(_, _, gs) => 2 + |gs|
    case LookStart(_, _) => 5
    case SetCharPos(_) => 2
    case CheckAdvance(_) => 2
    case Prev => 1
  }

  /** Size in bytes of a block of code. */
  function Len(code: seq<Instr>): nat {
    if code == [] then 0 else Size(code[0]) + Len(code[1..])
  }

  lemma {:induction false} LenAppend(a: seq<Instr>, b: seq<Instr>)
    ensures Len(a + b) == Len(a) + Len(b)
  {
    if a == [] {
      assert a + b == b;
    } else {
      assert (a + b)[1..] == a[1..] + b;
      LenAppend(a[1..], b);
    }
  }

  /** The effect of one instruction on the two flags of the static scan, or the end of the scan. */
  datatype ScanEffect = Moves | Neutral | ReadsCaptures | Unpredictable

  function EffectOf(i: Instr): ScanEffect {
    match i
    case Test(_) => Moves
    case Check(_) => Neutral
    case SetI32(_, _) => Neutral
    case SetCharPos(_) => Neutral
    case Prev => Neutral
    case Save(_, _) => Neutral
    case Reset(_, _) => Neutral
    case Ref(_, _, _) => ReadsCaptures
    case _ => Unpredictable
  }

  /** `re_need_check_adv_and_capture_init`, first result: no instruction of the straight-line
      prefix is sure to move the position. */
  function NeedsAdvanceCheck(code: seq<Instr>): bool {
    if code == [] then true
    else match EffectOf(code[0])
      case Moves => false
      case Unpredictable => true
      case _ => NeedsAdvanceCheck(code[1..])
  }

  /** `re_need_check_adv_and_capture_init`, second result: the code is not a straight line
      without back references. */
  function NeedsCaptureInit(code: seq<Instr>): bool {
    if code == [] then false
    else match EffectOf(code[0])
      case Moves => NeedsCaptureInit(code[1..])
      case Neutral => NeedsCaptureInit(code[1..])
      case _ => true
  }

  /** Register operand `d + k`; code is first emitted with depth -1 and operand 0. */
  function Reg(d: int, k: nat): nat
    requires d >= -1
  {
    if d == -1 then 0 else d + k
  }

  function Deeper(d: int, k: nat): (r: int)
    requires d >= -1
    ensures r >= -1
  {
    if d == -1 then -1 else d + k
  }

  /** An empty set is emitted as a 32-bit literal that no character equals (`re_emit_range`). */
  function Emitted(t: CharTest): CharTest {
    if t.InSet? && |t.points| < 2 then Literal(0xffff_ffff, false) else t
  }

  function B(b: bool): nat { if b then 1 else 0 }

  /** Which of the quantifier templates of `re_parse_term` applies. */
  datatype Template = Dropped | Optional | Star | Range0 | Plus | Exactly | Counted

  function TemplateOf(min: nat, max: nat, check: bool): Template {
    if min == 0 then
      if max == 0 then Dropped
      else if max == 1 then Optional
      else if max == INFINITE then Star
      else Range0
    else if min == 1 && max == INFINITE && !check then Plus
    else if min == max then Exactly
    else Counted
  }

  /** Registers the template holds live around the body. */
  function TemplateRegs(t: Template, check: bool): nat {
    match t
    case Dropped => 0
    case Optional => B(check)
    case Star => B(check)
    case Range0 => 1 + B(check)
    case Plus => 0
    case Exactly => 1
    case Counted => 1 + B(check)
  }

  function If(b: bool, code: seq<Instr>): seq<Instr> { if b then code else [] }

  /** Reset of the groups of a quantified body, when it has any. */
  function ResetCode(lo: nat, n: nat): seq<Instr> { if n == 0 then [] else [Reset(lo, lo + n - 1)] }

  /** The quantifier templates around a body `a` with groups lo .. lo + n - 1 (`re_parse_term`). */
  function QuantCode(a: seq<Instr>, needInit: bool, check: bool, lo: nat, n: nat,
                     min: nat, max: nat, greedy: bool, d: int): seq<Instr>
    requires d >= -1
  {
    var body := If(needInit, ResetCode(lo, n)) + a;
    var len := Len(body);
    var pre := If(!needInit, ResetCode(lo, n));
    match TemplateOf(min, max, check)
    case Dropped => pre
    case Optional =>
      pre + [Split(!greedy, len + 4 * B(check))] + If(check, [SetCharPos(Reg(d, 0))]) + body +
      If(check, [CheckAdvance(Reg(d, 0))])
    case Star =>
      pre + [Split(!greedy, len + 5 + 4 * B(check))] + If(check, [SetCharPos(Reg(d, 0))]) + body +
      If(check, [CheckAdvance(Reg(d, 0))]) + [Goto(-(10 + len + 4 * B(check)))]
    case Range0 =>
      pre + [Split(!greedy, 6 + 2 * B(check) + len + 10), SetI32(Reg(d, 0), max)] +
      If(check, [SetCharPos(Reg(d, 1))]) + body +
      [LoopSplit(greedy, check, Reg(d, 0), max, -(2 * B(check) + len + 10))]
    case Plus => body + [Split(greedy, -(len + 5))]
    case Exactly => [SetI32(Reg(d, 0), max)] + body + [Loop(Reg(d, 0), -(len + 6))]
    case Counted =>
      [SetI32(Reg(d, 0), max)] + If(check, [SetCharPos(Reg(d, 1))]) + body +
      [LoopSplit(greedy, check, Reg(d, 0), max - min, -(2 * B(check) + len + 10))]
  }

  /** Code of a pattern whose first group has number `lo`, matched in direction `back`, with
      registers from `d` on free (`re_parse_term`, `re_parse_alternative`, `re_parse_disjunction`). */
  function Code(n: Node, lo: nat, back: bool, d: int): seq<Instr>
    requires d >= -1
  {
    match n
    case Empty => []
    case Char(t) => if back then [Prev, Test(Emitted(t)), Prev] else [Test(Emitted(t))]
    case Assert(a) => [Check(a)]
    case Seq(l, r) =>
      if back then Code(r, lo + GroupCount(l), back, d) + Code(l, lo, back, d)
      else Code(l, lo, back, d) + Code(r, lo + GroupCount(l), back, d)
    case Alt(l, r) =>
      var a, b := Code(l, lo, back, d), Code(r, lo + GroupCount(l), back, d);
      [Split(false, Len(a) + 5)] + a + [Goto(Len(b))] + b
    case Quant(b, min, max, greedy) =>
      var check, needInit := BodyNeedsCheck(b, lo, back), BodyNeedsInit(b, lo, back);
      var k := TemplateRegs(TemplateOf(min, max, check), check);
      QuantCode(Code(b, lo, back, Deeper(d, k)), needInit, check, lo, GroupCount(b), min, max, greedy, d)
    case Group(b) => [Save(back, lo)] + Code(b, lo + 1, back, d) + [Save(!back, lo)]
    case Look(negative, behind, b) =>
      var a := Code(b, lo, behind, d);
      [LookStart(negative, Len(a) + 1)] + a + [LookMatch(negative)]
    case BackRef(gs, ic) => [Ref(back, ic, gs)]
  }

  function BodyNeedsCheck(b: Node, lo: nat, back: bool): bool { NeedsAdvanceCheck(Code(b, lo, back, -1)) }

  function BodyNeedsInit(b: Node, lo: nat, back: bool): bool { NeedsCaptureInit(Code(b, lo, back, -1)) }

  /** Registers a pattern uses beyond those already live. */
  function RegCount(n: Node, lo: nat, back: bool): nat {
    match n
    case Seq(l, r) => Max(RegCount(l, lo, back), RegCount(r, lo + GroupCount(l), back))
    case Alt(l, r) => Max(RegCount(l, lo, back), RegCount(r, lo + GroupCount(l), back))
    case Quant(b, min, max, _) =>
      var check := BodyNeedsCheck(b, lo, back);
      var t := TemplateOf(min, max, check);
      if t == Dropped then 0 else TemplateRegs(t, check) + RegCount(b, lo, back)
    case Group(b) => RegCount(b, lo + 1, back)
    case Look(_, behind, b) => RegCount(b, lo, behind)
    case _ => 0
  }

  /** Iterate over all start positions, unless the expression is sticky (`lre_compile`). */
  function Prologue(sticky: bool): seq<Instr> {
    if sticky then [] else [Split(true, 6), Test(Any), Goto(-11)]
  }

  /** The whole program, around the code `a` of the pattern. */
  function ProgramAround(a: seq<Instr>, sticky: bool): seq<Instr> {
    Prologue(sticky) + [Save(false, 0)] + a + [Save(true, 0)] + [Match]
  }

  function Program(n: Node, sticky: bool): seq<Instr> { ProgramAround(Code(n, 1, false, 0), sticky) }

  function Groups(n: Node): nat { 1 + GroupCount(n) }

  function Max(a: nat, b: nat): nat { if a < b then b else a }

  // ---- the shape of the code of each kind of node ----

  lemma {:induction false} SeqShape(n: Node, lo: nat, back: bool, d: int)
    requires d >= -1 && n.Seq?
    ensures var o := Ordered(n, lo, back); Code(n, lo, back, d) == Code(o.0, o.1, back, d) + Code(o.2, o.3, back, d)
  {
    hide QuantCode, Len, GroupCount, Emitted, BodyNeedsCheck, BodyNeedsInit;
    if back {
      assert Code(n, lo, back, d) == Code(n.right, lo + GroupCount(n.left), back, d) + Code(n.left, lo, back, d);
    } else {
      assert Code(n, lo, back, d) == Code(n.left, lo, back, d) + Code(n.right, lo + GroupCount(n.left), back, d);
    }
  }

  lemma {:induction false} AltShape(n: Node, lo: nat, back: bool, d: int)
    requires d >= -1 && n.Alt?
    ensures var a, b := Code(n.first, lo, back, d), Code(n.second, lo + GroupCount(n.first), back, d);
            Code(n, lo, back, d) == [Split(false, Len(a) + 5)] + a + [Goto(Len(b))] + b
  {
    hide QuantCode, Len, GroupCount, Emitted, BodyNeedsCheck, BodyNeedsInit;
  }

  lemma {:induction false} GroupShape(n: Node, lo: nat, back: bool, d: int)
    requires d >= -1 && n.Group?
    ensures Code(n, lo, back, d) == [Save(back, lo)] + Code(n.body, lo + 1, back, d) + [Save(!back, lo)]
  {
    hide QuantCode, Len, GroupCount, Emitted, BodyNeedsCheck, BodyNeedsInit;
  }

  lemma {:induction false} LookShape(n: Node, lo: nat, back: bool, d: int)
    requires d >= -1 && n.Look?
    ensures var a := Code(n.body, lo, n.behind, d);
            Code(n, lo, back, d) == [LookStart(n.negative, Len(a) + 1)] + a + [LookMatch(n.negative)]
  {
    hide QuantCode, Len, GroupCount, Emitted, BodyNeedsCheck, BodyNeedsInit;
  }

  lemma {:induction false} QuantShape(n: Node, lo: nat, back: bool, d: int)
    requires d >= -1 && n.Quant?
    ensures var check := BodyNeedsCheck(n.body, lo, back);
            Code(n, lo, back, d) ==
            QuantCode(Code(n.body, lo, back, Deeper(d, TemplateRegs(TemplateOf(n.min, n.max, check), check))),
                      BodyNeedsInit(n.body, lo, back), check, lo, GroupCount(n.body), n.min, n.max, n.greedy, d)
  {
    hide QuantCode, Len, GroupCount, Emitted;
  }
}
