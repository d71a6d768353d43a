/** Register allocation of `compute_register_count`: one linear pass that treats the registers as a
    stack. On the code of a pattern it is balanced, never pops an empty stack, and gives every
    instruction the register that its nesting depth calls for. */
module Registers {
  import opened RegexSyntax
  import opened Bytecode

  /** The code with register operands filled in, the stack size at its end, the largest stack size,
      and whether every pop found what it pops. */
  datatype Allocation = Allocation(code: seq<Instr>, size: int, top: int, sound: bool)

  /** Registers pushed (positive) or popped (negative) by an instruction. */
  function Pushes(i: Instr): int {
    match i
    case SetI32(_, _) => 1
    case SetCharPos(_) => 1
    case CheckAdvance(_) => -1
    case Loop(_, _) => -1
    case LoopSplit(_, check, _, _, _) => if check then -2 else -1
    case _ => 0
  }

  function WithRegister(i: Instr, reg: nat): (r: Instr)
    ensures Size(r) == Size(i) && EffectOf(r) == EffectOf(i) && Pushes(r) == Pushes(i)
  {
    match i
    case SetI32(_, value) => SetI32(reg, value)
    case SetCharPos(_) => SetCharPos(reg)
    case CheckAdvance(_) => CheckAdvance(reg)
    case Loop(_, offset) => Loop(reg, offset)
    case LoopSplit(g, check, _, limit, offset) => LoopSplit(g, check, reg, limit, offset)
    case _ => i
  }

  /** A push writes the old stack size, a pop the new one. */
  function Allocated(i: Instr, size: int): (r: Instr)
    ensures Size(r) == Size(i) && EffectOf(r) == EffectOf(i)
  {
    var reg := if Pushes(i) > 0 then size else size + Pushes(i);
    if reg < 0 then i else WithRegister(i, reg)
  }

  function Highest(a: int, b: int): int { if a < b then b else a }

  function Allocate(code: seq<Instr>, size: int, top: int): Allocation
    decreases |code|
  {
    if code == [] then Allocation([], size, top, true)
    else
      var size1 := size + Pushes(code[0]);
      var rest := Allocate(code[1..], size1, Highest(top, size1));
      Allocation([Allocated(code[0], size)] + rest.code, rest.size, rest.top, size1 >= 0 && rest.sound)
  }

  lemma AllocateNone(size: int, top: int)
    ensures Allocate([], size, top) == Allocation([], size, top, true)
  {
  }

  lemma AllocateFirst(code: seq<Instr>, size: int, top: int)
    requires code != []
    ensures var size1 := size + Pushes(code[0]);
            var rest := Allocate(code[1..], size1, Highest(top, size1));
            Allocate(code, size, top)
              == Allocation([Allocated(code[0], size)] + rest.code, rest.size, rest.top, size1 >= 0 && rest.sound)
  {
    hide Allocated, Pushes, Highest;
  }

  lemma {:induction false} AllocateAppend(a: seq<Instr>, b: seq<Instr>, size: int, top: int)
    ensures var x := Allocate(a, size, top);
            var y := Allocate(b, x.size, x.top);
            Allocate(a + b, size, top) == Allocation(x.code + y.code, y.size, y.top, x.sound && y.sound)
    decreases |a|
  {
    hide *;
    if a == [] {
      assert a + b == b;
      AllocateNone(size, top);
      assert [] + Allocate(b, size, top).code == Allocate(b, size, top).code;
    } else {
      var size1 := size + Pushes(a[0]);
      var top1 := Highest(top, size1);
      assert (a + b)[1..] == a[1..] + b;
      AllocateFirst(a, size, top);
      AllocateFirst(a + b, size, top);
      AllocateAppend(a[1..], b, size1, top1);
      var x := Allocate(a[1..], size1, top1);
      var y := Allocate(b, x.size, x.top);
      assert [Allocated(a[0], size)] + (x.code + y.code) == [Allocated(a[0], size)] + x.code + y.code;
    }
  }

  lemma AllocateOne(i: Instr, size: int, top: int)
    ensures Allocate([i], size, top) ==
            Allocation([Allocated(i, size)], size + Pushes(i), Highest(top, size + Pushes(i)), size + Pushes(i) >= 0)
  {
    var rest := Allocate([], size + Pushes(i), Highest(top, size + Pushes(i)));
    assert [i][1..] == [];
    assert [Allocated(i, size)] + rest.code == [Allocated(i, size)];
  }

  /** Allocation changes no sizes, so no jump. */
  lemma {:induction false} AllocateKeepsLen(code: seq<Instr>, size: int, top: int)
    ensures Len(Allocate(code, size, top).code) == Len(code)
    decreases |code|
  {
    if code != [] {
      var size1 := size + Pushes(code[0]);
      AllocateKeepsLen(code[1..], size1, Highest(top, size1));
      var rest := Allocate(code[1..], size1, Highest(top, size1)).code;
      assert ([Allocated(code[0], size)] + rest)[1..] == rest;
    }
  }

  /** Allocating `a` from depth d gives `r`, balanced, with highest register `high` - 1. */
  ghost predicate Allocates(a: seq<Instr>, r: seq<Instr>, d: nat, high: int) {
    forall top :: top >= d ==> Allocate(a, d, top) == Allocation(r, d, Highest(top, high), true)
  }

  lemma {:induction false} AllocatesAppend(a: seq<Instr>, ra: seq<Instr>, ha: int, b: seq<Instr>, rb: seq<Instr>,
      hb: int, d: nat)
    requires Allocates(a, ra, d, ha) && Allocates(b, rb, d, hb)
    ensures Allocates(a + b, ra + rb, d, Highest(ha, hb))
  {
    hide Allocate;
    forall top | top >= d ensures Allocate(a + b, d, top) == Allocation(ra + rb, d, Highest(top, Highest(ha, hb)),
        true) {
      AllocateAppend(a, b, d, top);
    }
  }

  /** Instructions without registers. */
  lemma AllocatesPlain(a: seq<Instr>, d: nat)
    requires forall k :: 0 <= k < |a| ==> Pushes(a[k]) == 0 && Allocated(a[k], d) == a[k]
    ensures Allocates(a, a, d, d)
    decreases |a|
  {
    if a == [] {
    } else {
      AllocatesPlain(a[1..], d);
      assert [a[0]] + a[1..] == a;
    }
  }

  /** A push, a balanced body one deeper, and the pop. */
  lemma {:induction false} AllocatesBracket(i: Instr, a: seq<Instr>, r: seq<Instr>, j: Instr, d: nat, high: int)
    requires Allocates(a, r, d + 1, high) && Pushes(i) == 1 && Pushes(j) == -1
    ensures Allocates([i] + a + [j], [WithRegister(i, d)] + r + [WithRegister(j, d)], d, Highest(d + 1, high))
  {
    hide Allocate;
    forall top | top >= d
      ensures Allocate([i] + a + [j], d, top) ==
              Allocation([WithRegister(i, d)] + r + [WithRegister(j, d)], d, Highest(top, Highest(d + 1, high)), true)
    {
      AllocateAppend([i] + a, [j], d, top);
      AllocateAppend([i], a, d, top);
      AllocateOne(i, d, top);
      var top1 := Highest(top, d + 1);
      AllocateOne(j, d + 1, Highest(top1, high));
    }
  }

  /** Two pushes, a balanced body two deeper, and the pop of both. */
  lemma {:induction false} AllocatesBracket2(i: Instr, i1: Instr, a: seq<Instr>, r: seq<Instr>, j: Instr, d: nat,
      high: int)
    requires Allocates(a, r, d + 2, high) && Pushes(i) == 1 && Pushes(i1) == 1 && Pushes(j) == -2
    ensures Allocates([i] + [i1] + a + [j], [WithRegister(i, d)] + [WithRegister(i1, d + 1)] + r + [WithRegister(j, d)],
        d, Highest(d + 2, high))
  {
    hide Allocate;
    forall top | top >= d
      ensures Allocate([i] + [i1] + a + [j], d, top) ==
              Allocation([WithRegister(i, d)] + [WithRegister(i1, d + 1)] + r + [WithRegister(j, d)], d,
                Highest(top, Highest(d + 2, high)), true)
    {
      AllocateAppend([i] + [i1] + a, [j], d, top);
      AllocateAppend([i] + [i1], a, d, top);
      AllocateAppend([i], [i1], d, top);
      AllocateOne(i, d, top);
      AllocateOne(i1, d + 1, Highest(top, d + 1));
      var top1 := Highest(top, d + 2);
      AllocateOne(j, d + 2, Highest(top1, high));
    }
  }

  /** The pass gives the code of every pattern its registers: depth-indexed, as many as the deepest nesting
      of quantifiers needs, with the stack back at its old size. */
  lemma {:induction false} AllocatesCode(n: Node, lo: nat, back: bool, d: nat)
    ensures Allocates(Code(n, lo, back, -1), Code(n, lo, back, d), d, d + RegCount(n, lo, back))
    decreases n
  {
    hide Allocates, QuantCode, Code, Len, RegCount, BodyNeedsCheck, BodyNeedsInit, TemplateOf, TemplateRegs;
    match n
    case Seq(l, r) =>
      var o := Ordered(n, lo, back);
      AllocatesCode(o.0, o.1, back, d);
      AllocatesCode(o.2, o.3, back, d);
      AllocatesSeq(n, lo, back, d);
    case Alt(l, r) =>
      AllocatesCode(l, lo, back, d);
      AllocatesCode(r, lo + GroupCount(l), back, d);
      AllocatesAlt(n, lo, back, d);
    case Quant(b, min, max, greedy) =>
      var check := BodyNeedsCheck(b, lo, back);
      AllocatesCode(b, lo, back, d + TemplateRegs(TemplateOf(min, max, check), check));
      AllocatesQuant(n, lo, back, d);
    case Group(b) =>
      AllocatesCode(b, lo + 1, back, d);
      AllocatesGroup(n, lo, back, d);
    case Look(negative, behind, b) =>
      AllocatesCode(b, lo, behind, d);
      AllocatesLook(n, lo, back, d);
    case _ => AllocatesLeaf(n, lo, back, d);
  }

  lemma {:induction false} AllocatesLeaf(n: Node, lo: nat, back: bool, d: nat)
    requires n.Empty? || n.Char? || n.Assert? || n.BackRef?
    ensures Allocates(Code(n, lo, back, -1), Code(n, lo, back, d), d, d + RegCount(n, lo, back))
  {
    hide Allocates, QuantCode, Len, BodyNeedsCheck, BodyNeedsInit;
    AllocatesPlain(Code(n, lo, back, -1), d);
  }

  lemma {:induction false} AllocatesSeq(n: Node, lo: nat, back: bool, d: nat)
    requires n.Seq?
    requires var o := Ordered(n, lo, back);
             && Allocates(Code(o.0, o.1, back, -1), Code(o.0, o.1, back, d), d, d + RegCount(o.0, o.1, back))
             && Allocates(Code(o.2, o.3, back, -1), Code(o.2, o.3, back, d), d, d + RegCount(o.2, o.3, back))
    ensures Allocates(Code(n, lo, back, -1), Code(n, lo, back, d), d, d + RegCount(n, lo, back))
  {
    hide Allocates, Code, Len, BodyNeedsCheck, BodyNeedsInit;
    var o := Ordered(n, lo, back);
    SeqShape(n, lo, back, -1); SeqShape(n, lo, back, d);
    AllocatesAppend(Code(o.0, o.1, back, -1), Code(o.0, o.1, back, d), d + RegCount(o.0, o.1, back),
                    Code(o.2, o.3, back, -1), Code(o.2, o.3, back, d), d + RegCount(o.2, o.3, back), d);
  }

  lemma {:induction false} AllocatesGroup(n: Node, lo: nat, back: bool, d: nat)
    requires n.Group? && Allocates(Code(n.body, lo + 1, back, -1), Code(n.body, lo + 1, back, d), d,
        d + RegCount(n.body, lo + 1, back))
    ensures Allocates(Code(n, lo, back, -1), Code(n, lo, back, d), d, d + RegCount(n, lo, back))
  {
    hide Allocates, Code, Len, BodyNeedsCheck, BodyNeedsInit;
    GroupShape(n, lo, back, -1); GroupShape(n, lo, back, d);
    AllocatesAround([Save(back, lo)], Code(n.body, lo + 1, back, -1), Code(n.body, lo + 1, back, d), [Save(!back, lo)],
      d, d + RegCount(n.body, lo + 1, back));
  }

  lemma {:induction false} AllocatesLook(n: Node, lo: nat, back: bool, d: nat)
    requires n.Look? && Allocates(Code(n.body, lo, n.behind, -1), Code(n.body, lo, n.behind, d), d,
        d + RegCount(n.body, lo, n.behind))
    ensures Allocates(Code(n, lo, back, -1), Code(n, lo, back, d), d, d + RegCount(n, lo, back))
  {
    hide Allocates, Code, Len, BodyNeedsCheck, BodyNeedsInit;
    var a, r, high := Code(n.body, lo, n.behind, -1), Code(n.body, lo, n.behind, d), d + RegCount(n.body, lo, n.behind);
    AllocatesLen(a, r, d, high);
    LookShape(n, lo, back, -1); LookShape(n, lo, back, d);
    AllocatesAround([LookStart(n.negative, Len(a) + 1)], a, r, [LookMatch(n.negative)], d, high);
  }

  lemma AllocatesLen(a: seq<Instr>, r: seq<Instr>, d: nat, high: int)
    requires Allocates(a, r, d, high)
    ensures Len(a) == Len(r)
  {
    assert Allocate(a, d, d).code == r;
    AllocateKeepsLen(a, d, d);
  }

  /** Instructions without registers before and after a block. */
  lemma {:induction false} AllocatesAround(x: seq<Instr>, a: seq<Instr>, r: seq<Instr>, y: seq<Instr>, d: nat,
      high: int)
    requires Allocates(a, r, d, high) && high >= d
    requires forall k :: 0 <= k < |x| ==> Pushes(x[k]) == 0 && Allocated(x[k], d) == x[k]
    requires forall k :: 0 <= k < |y| ==> Pushes(y[k]) == 0 && Allocated(y[k], d) == y[k]
    ensures Allocates(x + a + y, x + r + y, d, high)
  {
    hide Allocates;
    AllocatesPlain(x, d);
    AllocatesPlain(y, d);
    AllocatesAppend(x, x, d, a, r, high, d);
    AllocatesAppend(x + a, x + r, high, y, y, d, d);
  }

  lemma AltRegisters(n: Node, lo: nat, back: bool, d: nat)
    requires n.Alt?
    ensures var ha, hb := d + RegCount(n.first, lo, back), d + RegCount(n.second, lo + GroupCount(n.first), back);
            d + RegCount(n, lo, back) == Highest(ha, hb)
  {
    hide GroupCount, TemplateRegs, BodyNeedsCheck, TemplateOf;
  }

  lemma PlainJump(d: nat)
    ensures forall g, o :: Pushes(Split(g, o)) == 0 && Allocated(Split(g, o), d) == Split(g, o)
    ensures forall o :: Pushes(Goto(o)) == 0 && Allocated(Goto(o), d) == Goto(o)
  {
  }

  lemma {:induction false} AllocatesAlt(n: Node, lo: nat, back: bool, d: nat)
    requires n.Alt?
    requires Allocates(Code(n.first, lo, back, -1), Code(n.first, lo, back, d), d, d + RegCount(n.first, lo, back))
    requires var lo1 := lo + GroupCount(n.first);
             Allocates(Code(n.second, lo1, back, -1), Code(n.second, lo1, back, d), d,
               d + RegCount(n.second, lo1, back))
    ensures Allocates(Code(n, lo, back, -1), Code(n, lo, back, d), d, d + RegCount(n, lo, back))
  {
    hide *;
    AltRegisters(n, lo, back, d);
    var lo1 := lo + GroupCount(n.first);
    PlainJump(d);
    var a, ra, b, rb := Code(n.first, lo, back, -1), Code(n.first, lo, back, d), Code(n.second, lo1, back, -1),
      Code(n.second, lo1, back, d);
    var ha, hb := d + RegCount(n.first, lo, back), d + RegCount(n.second, lo1, back);
    AltShape(n, lo, back, -1); AltShape(n, lo, back, d);
    AllocatesLen(a, ra, d, ha);
    AllocatesLen(b, rb, d, hb);
    AllocatesAround([Split(false, Len(a) + 5)], a, ra, [Goto(Len(b))], d, ha);
    AllocatesAppend([Split(false, Len(a) + 5)] + a + [Goto(Len(b))], [Split(false, Len(a) + 5)] + ra + [Goto(Len(b))],
      ha, b, rb, hb, d);
  }

  lemma {:induction false} AllocatesQuant(n: Node, lo: nat, back: bool, d: nat)
    requires n.Quant?
    requires var check := BodyNeedsCheck(n.body, lo, back);
             var d1 := d + TemplateRegs(TemplateOf(n.min, n.max, check), check);
             Allocates(Code(n.body, lo, back, -1), Code(n.body, lo, back, d1), d1, d1 + RegCount(n.body, lo, back))
    ensures Allocates(Code(n, lo, back, -1), Code(n, lo, back, d), d, d + RegCount(n, lo, back))
  {
    hide Allocates, QuantCode, Code, Len, BodyNeedsCheck, BodyNeedsInit;
    var check, needInit := BodyNeedsCheck(n.body, lo, back), BodyNeedsInit(n.body, lo, back);
    var t := TemplateOf(n.min, n.max, check);
    var d1, g := d + TemplateRegs(t, check), GroupCount(n.body);
    QuantShape(n, lo, back, -1);
    QuantShape(n, lo, back, d);
    var a, r := Code(n.body, lo, back, -1), Code(n.body, lo, back, d1);
    AllocatesLen(a, r, d1, d1 + RegCount(n.body, lo, back));
    var pre := If(needInit, ResetCode(lo, g));
    AllocatesAround(pre, a, r, [], d1, d1 + RegCount(n.body, lo, back));
    assert pre + a + [] == pre + a && pre + r + [] == pre + r;
    LenAppend(pre, a); LenAppend(pre, r);
    AllocatesTemplate(a, r, needInit, check, lo, g, n.min, n.max, n.greedy, d, d1 + RegCount(n.body, lo, back));
  }

  lemma {:induction false} AllocatesTemplate(a: seq<Instr>, r: seq<Instr>, needInit: bool, check: bool, lo: nat, g: nat,
                                             min: nat, max: nat, greedy: bool, d: nat, high: int)
    requires var t := TemplateOf(min, max, check);
             var pre, d1 := If(needInit, ResetCode(lo, g)), d + TemplateRegs(t, check);
             Allocates(pre + a, pre + r, d1, high) && high >= d1 && Len(pre + a) == Len(pre + r)
    ensures var t := TemplateOf(min, max, check);
            Allocates(QuantCode(a, needInit, check, lo, g, min, max, greedy, -1),
                      QuantCode(r, needInit, check, lo, g, min, max, greedy, d), d, if t == Dropped then d else high)
  {
    hide Allocates, Len;
    var body, rbody := If(needInit, ResetCode(lo, g)) + a, If(needInit, ResetCode(lo, g)) + r;
    var pre := If(!needInit, ResetCode(lo, g));
    var len := Len(body);
    match TemplateOf(min, max, check)
    case Dropped => AllocatesPlain(pre, d);
    case Optional => AllocatesSplit(pre, Split(!greedy, len + 4 * B(check)), body, rbody, [], check, d, high);
      SplitShape(pre, Split(!greedy, len + 4 * B(check)), body, check, 0);
      SplitShape(pre, Split(!greedy, len + 4 * B(check)), rbody, check, d);
    case Star => AllocatesSplit(pre, Split(!greedy, len + 5 + 4 * B(check)), body, rbody,
      [Goto(-(10 + len + 4 * B(check)))], check, d, high);
    case Range0 => AllocatesRange(pre, Split(!greedy, 6 + 2 * B(check) + len + 10), SetI32(0, max), body, rbody,
                                  LoopSplit(greedy, check, 0, max, -(2 * B(check) + len + 10)), check, d, high);
    case Plus =>
      AllocatesAround([], body, rbody, [Split(greedy, -(len + 5))], d, high);
      assert [] + body == body && [] + rbody == rbody;
    case Exactly => AllocatesBracket(SetI32(0, max), body, rbody, Loop(0, -(len + 6)), d, high);
    case Counted =>
      AllocatesLoop(SetI32(0, max), body, rbody, LoopSplit(greedy, check, 0, max - min, -(2 * B(check) + len + 10)),
        check, d, high);
  }

  /** The templates of `?` and `*`. */
  lemma {:induction false} AllocatesSplit(pre: seq<Instr>, split: Instr, body: seq<Instr>, rbody: seq<Instr>,
      y: seq<Instr>, check: bool, d: nat, high: int)
    requires Allocates(body, rbody, d + B(check), high) && high >= d + B(check) && split.Split?
    requires forall k :: 0 <= k < |pre| ==> pre[k].Reset?
    requires forall k :: 0 <= k < |y| ==> y[k].Goto?
    ensures Allocates(pre + [split] + If(check, [SetCharPos(0)]) + body + If(check, [CheckAdvance(0)]) + y,
                      pre + [split] + If(check, [SetCharPos(d)]) + rbody + If(check, [CheckAdvance(d)]) + y, d, high)
  {
    hide Allocates;
    var x := pre + [split];
    if check {
      AllocatesBracket(SetCharPos(0), body, rbody, CheckAdvance(0), d, high);
      AllocatesAround(x, [SetCharPos(0)] + body + [CheckAdvance(0)], [SetCharPos(d)] + rbody + [CheckAdvance(d)], y, d,
        high);
      assert x + ([SetCharPos(0)] + body + [CheckAdvance(0)]) + y == x + [SetCharPos(0)] + body + [CheckAdvance(0)] + y;
      assert x + ([SetCharPos(d)] + rbody + [CheckAdvance(d)]) + y == x + [SetCharPos(d)] + rbody + [CheckAdvance(d)]
        + y;
    } else {
      AllocatesAround(x, body, rbody, y, d, high);
      assert x + [] + body + [] + y == x + body + y && x + [] + rbody + [] + y == x + rbody + y;
    }
  }

  lemma SplitShape(pre: seq<Instr>, split: Instr, body: seq<Instr>, check: bool, reg: nat)
    ensures pre + [split] + If(check, [SetCharPos(reg)]) + body + If(check, [CheckAdvance(reg)]) + [] ==
            pre + [split] + If(check, [SetCharPos(reg)]) + body + If(check, [CheckAdvance(reg)])
  {
  }

  /** The template of `{0,max}`. */
  lemma {:induction false} AllocatesRange(pre: seq<Instr>, split: Instr, init: Instr, body: seq<Instr>,
      rbody: seq<Instr>, loop: Instr, check: bool, d: nat, high: int)
    requires Allocates(body, rbody, d + 1 + B(check), high) && high >= d + 1 + B(check) && split.Split?
    requires Pushes(init) == 1 && Pushes(loop) == -(1 + B(check))
    requires forall k :: 0 <= k < |pre| ==> pre[k].Reset?
    ensures Allocates(pre + [split, init] + If(check, [SetCharPos(0)]) + body + [loop],
                      pre + [split, WithRegister(init, d)] + If(check, [SetCharPos(d + 1)]) + rbody
                        + [WithRegister(loop, d)], d, high)
  {
    hide Allocates;
    var rinit, rloop := WithRegister(init, d), WithRegister(loop, d);
    AllocatesLoop(init, body, rbody, loop, check, d, high);
    AllocatesAround(pre + [split], [init] + If(check, [SetCharPos(0)]) + body + [loop],
      [rinit] + If(check, [SetCharPos(d + 1)]) + rbody + [rloop], [], d, high);
    Regroup(pre, split, init, If(check, [SetCharPos(0)]), body, [loop]);
    Regroup(pre, split, rinit, If(check, [SetCharPos(d + 1)]), rbody, [rloop]);
  }

  lemma Regroup(pre: seq<Instr>, split: Instr, init: Instr, c: seq<Instr>, body: seq<Instr>, y: seq<Instr>)
    ensures pre + [split] + ([init] + c + body + y) + [] == pre + [split, init] + c + body + y
  {
    assert pre + [split] + [init] == pre + [split, init];
    assert pre + [split] + ([init] + c + body + y) + [] == pre + [split] + [init] + c + body + y;
  }

  lemma {:induction false} AllocatesLoop(init: Instr, body: seq<Instr>, rbody: seq<Instr>, loop: Instr, check: bool,
      d: nat, high: int)
    requires Allocates(body, rbody, d + 1 + B(check), high) && high >= d + 1 + B(check)
    requires Pushes(init) == 1 && Pushes(loop) == -(1 + B(check))
    ensures Allocates([init] + If(check, [SetCharPos(0)]) + body + [loop],
                      [WithRegister(init, d)] + If(check, [SetCharPos(d + 1)]) + rbody + [WithRegister(loop, d)], d,
                        high)
  {
    hide Allocates;
    if check {
      AllocatesBracket2(init, SetCharPos(0), body, rbody, loop, d, high);
    } else {
      AllocatesBracket(init, body, rbody, loop, d, high);
      assert [init] + [] == [init] && [WithRegister(init, d)] + [] == [WithRegister(init, d)];
    }
  }

  /** Register operands within the register file; a loop with advance check uses two registers. */
  predicate RegisterFits(i: Instr, regs: nat) {
    match i
    case Loop(reg, _) => reg < regs
    case LoopSplit(_, check, reg, _, _) => reg + B(check) < regs
    case SetI32(reg, _) => reg < regs
    case SetCharPos(reg) => reg < regs
    case CheckAdvance(reg) => reg < regs
    case _ => true
  }

  predicate RegistersFit(code: seq<Instr>, regs: nat) {
    forall k :: 0 <= k < |code| ==> RegisterFits(code[k], regs)
  }

  /** Registers that the pass hands out lie below the count it returns. */
  lemma {:induction false} AllocationFits(code: seq<Instr>, size: int, top: int)
    requires Allocate(code, size, top).sound && 0 <= size <= top
    ensures top <= Allocate(code, size, top).top
    ensures RegistersFit(Allocate(code, size, top).code, Allocate(code, size, top).top)
    decreases |code|
  {
    if code != [] {
      var size1 := size + Pushes(code[0]);
      AllocationFits(code[1..], size1, Highest(top, size1));
      assert RegisterFits(Allocated(code[0], size), Highest(top, size1));
    }
  }
}
