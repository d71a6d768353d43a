/** The backtracking machine with saved states that hold a copy of the whole memory (captures and
    registers). The executor of `lre_exec_backtrack`, which keeps an undo log instead, refines it. */
module SnapshotMachine {
  import opened RegexSyntax
  import opened Bytecode

  /** A program, the subject it runs on, and the sizes of the capture and register files. */
  datatype Machine = Machine(code: seq<Instr>, subject: Subject, groups: nat, regs: nat)

  datatype FrameKind = SplitFrame | LookFrame | NegLookFrame

  datatype Frame = Frame(pc: int, pos: int, kind: FrameKind, mem: seq<int>)

  datatype State =
    | Run(pc: int, pos: int, mem: seq<int>, stack: seq<Frame>)
    | Matched(end: int, final: seq<int>)
    | NoMatch
    | Stuck

  /** The instruction that starts at byte `pc`. */
  function Fetch(code: seq<Instr>, pc: int): Option<Instr> {
    if code == [] || pc < 0 then None
    else if pc == 0 then Some(code[0])
    else Fetch(code[1..], pc - Size(code[0]))
  }

  /** `block` lies in `code` from byte `pc` on. */
  predicate At(code: seq<Instr>, pc: int, block: seq<Instr>)
    decreases |block|
  {
    block == [] || (Fetch(code, pc) == Some(block[0]) && At(code, pc + Size(block[0]), block[1..]))
  }

  lemma {:induction false} AtAppend(code: seq<Instr>, pc: int, a: seq<Instr>, b: seq<Instr>)
    ensures At(code, pc, a + b) <==> At(code, pc, a) && At(code, pc + Len(a), b)
    decreases |a|
  {
    if a == [] {
      assert a + b == b;
    } else {
      assert (a + b)[1..] == a[1..] + b;
      AtAppend(code, pc + Size(a[0]), a[1..], b);
    }
  }

  lemma {:induction false} AtCons(code: seq<Instr>, pc: int, i: Instr, b: seq<Instr>)
    ensures At(code, pc, [i] + b) <==> Fetch(code, pc) == Some(i) && At(code, pc + Size(i), b)
  {
    assert ([i] + b)[1..] == b;
  }

  lemma {:induction false} FetchAppend(x: seq<Instr>, code: seq<Instr>, pc: int)
    requires pc >= 0
    ensures Fetch(x + code, Len(x) + pc) == Fetch(code, pc)
  {
    if x == [] {
      assert x + code == code;
    } else {
      assert (x + code)[1..] == x[1..] + code;
      FetchAppend(x[1..], code, pc);
    }
  }

  lemma {:induction false} AtWithin(x: seq<Instr>, block: seq<Instr>, y: seq<Instr>)
    ensures At(x + block + y, Len(x), block)
    decreases |block|
  {
    if block != [] {
      FetchAppend(x, block + y, 0);
      assert x + block + y == x + (block + y);
      AtWithin(x + [block[0]], block[1..], y);
      assert x + [block[0]] + block[1..] + y == x + block + y by { assert [block[0]] + block[1..] == block; }
      LenAppend(x, [block[0]]);
      assert Len([block[0]]) == Size(block[0]) by { assert Len([block[0]][1..]) == 0; }
    }
  }

  /** Moving a block leaves its instructions in place relative to each other: a block found whole at
      one address is found whole in any code that contains it. */
  lemma {:induction false} AtSelf(code: seq<Instr>)
    ensures At(code, 0, code)
  {
    AtWithin([], code, []);
    assert [] + code + [] == code;
  }

  function Read(mem: seq<int>, i: nat): int { if i < |mem| then mem[i] else 0 }

  function Write(mem: seq<int>, i: nat, v: int): (r: seq<int>)
    ensures |r| == |mem|
  {
    if i < |mem| then mem[i := v] else mem
  }

  /** Memory index of a register. */
  function RegSlot(m: Machine, r: nat): nat { 2 * m.groups + r }

  /** Decrement of a counter as a 32-bit unsigned value. */
  function Decrement(v: int): nat { (v - 1) % 0x1_0000_0000 }

  function ClearSlots(mem: seq<int>, lo: nat, hi: nat): (r: seq<int>)
    ensures |r| == |mem|
  {
    seq(|mem|, i requires 0 <= i < |mem| => if 2 * lo <= i < 2 * hi + 2 then UNSET else mem[i])
  }

  /** Outcome of a back reference: the first group of the list with both ends set is compared. */
  function RefTarget(m: Machine, back: bool, ic: bool, groups: seq<nat>, pos: int, mem: seq<int>): Option<int> {
    if groups == [] then Some(pos)
    else if groups[0] >= m.groups then None
    else
      var a, b := Read(mem, 2 * groups[0]), Read(mem, 2 * groups[0] + 1);
      if a != UNSET && b != UNSET then BackRefEnd(m.subject, back, ic, a, b, pos)
      else RefTarget(m, back, ic, groups[1..], pos, mem)
  }

  function Top(k: seq<Frame>): Frame requires k != [] { k[|k| - 1] }

  function Pop(k: seq<Frame>): seq<Frame> requires k != [] { k[..|k| - 1] }

  /** `no_match`: resume the most recent saved state that is not the start of a lookahead. */
  function Backtrack(k: seq<Frame>): State
    decreases |k|
  {
    if k == [] then NoMatch
    else if Top(k).kind == LookFrame then Backtrack(Pop(k))
    else Run(Top(k).pc, Top(k).pos, Top(k).mem, Pop(k))
  }

  /** The stack up to and including the most recent frame of a kind. */
  function FindFrame(k: seq<Frame>, kind: FrameKind): (r: seq<Frame>)
    ensures r <= k && (r != [] ==> Top(r).kind == kind)
    decreases |k|
  {
    if k == [] || Top(k).kind == kind then k else FindFrame(Pop(k), kind)
  }

  /** One instruction of `lre_exec_backtrack`. */
  ghost function Step(m: Machine, s: State): State
    requires s.Run?
  {
    match Fetch(m.code, s.pc)
    case None => Stuck
    case Some(i) => Execute(m, s, i, s.pc + Size(i))
  }

  ghost function Execute(m: Machine, s: State, i: Instr, next: int): State
    requires s.Run?
  {
    var Run(pc, pos, mem, k) := s;
    match i
    case Test(t) =>
      if 0 <= pos < |m.subject.input| && TestAccepts(m.subject, t, m.subject.input[pos])
      then Run(next, pos + 1, mem, k) else Backtrack(k)
    case Check(a) => if AssertionHolds(m.subject, a, pos) then Run(next, pos, mem, k) else Backtrack(k)
    case Goto(offset) => Run(next + offset, pos, mem, k)
    case Split(gotoFirst, offset) => Branch(next, next + offset, gotoFirst, pos, mem, k)
    case Match => Matched(pos, mem)
    case LookMatch(negative) =>
      var f := FindFrame(k, if negative then NegLookFrame else LookFrame);
      if f == [] then Stuck
      else if negative then Backtrack(Pop(f))
      else Run(Top(f).pc, Top(f).pos, mem, Pop(f))
    case Save(end, group) =>
      if group >= m.groups then Stuck else Run(next, pos, Write(mem, 2 * group + B(end), pos), k)
    case Reset(lo, hi) =>
      if hi >= m.groups then Stuck else Run(next, pos, ClearSlots(mem, lo, hi), k)
    case Loop(reg, offset) =>
      var v := Decrement(Read(mem, RegSlot(m, reg)));
      Run(if v != 0 then next + offset else next, pos, Write(mem, RegSlot(m, reg), v), k)
    case LoopSplit(gotoFirst, checkAdvance, reg, limit, offset) =>
      var v := Decrement(Read(mem, RegSlot(m, reg)));
      var mem1 := Write(mem, RegSlot(m, reg), v);
      if v > limit then Run(next + offset, pos, mem1, k)
      else if checkAdvance && Read(mem1, RegSlot(m, reg) + 1) == pos && v != limit then Backtrack(k)
      else if v != 0 then Branch(next, next + offset, gotoFirst, pos, mem1, k)
      else Run(next, pos, mem1, k)
    case SetI32(reg, value) => Run(next, pos, Write(mem, RegSlot(m, reg), value), k)
    case Ref(backward, ic, groups) =>
      (match RefTarget(m, backward, ic, groups, pos, mem)
       case None => Backtrack(k)
       case Some(p) => Run(next, p, mem, k))
    case LookStart(negative, offset) =>
      Run(next, pos, mem, k + [Frame(next + offset, pos, if negative then NegLookFrame else LookFrame, mem)])
    case SetCharPos(reg) => Run(next, pos, Write(mem, RegSlot(m, reg), pos), k)
    case CheckAdvance(reg) => if Read(mem, RegSlot(m, reg)) == pos then Backtrack(k) else Run(next, pos, mem, k)
    case Prev => if pos == 0 then Backtrack(k) else Run(next, pos - 1, mem, k)
  }

  /** A split: continue with one target and save the other. */
  function Branch(next: int, target: int, gotoFirst: bool, pos: int, mem: seq<int>, k: seq<Frame>): State {
    if gotoFirst then Run(target, pos, mem, k + [Frame(next, pos, SplitFrame, mem)])
    else Run(next, pos, mem, k + [Frame(target, pos, SplitFrame, mem)])
  }

  ghost function StepN(m: Machine, s: State, n: nat): State
    decreases n
  {
    if n == 0 || !s.Run? then s else StepN(m, Step(m, s), n - 1)
  }

  ghost predicate Reaches(m: Machine, s: State, t: State) {
    exists n :: StepN(m, s, n) == t
  }

  lemma {:induction false} StepNPlus(m: Machine, s: State, a: nat, b: nat)
    ensures StepN(m, StepN(m, s, a), b) == StepN(m, s, a + b)
    decreases a
  {
    if a != 0 && s.Run? {
      StepNPlus(m, Step(m, s), a - 1, b);
    }
  }

  lemma {:induction false} ReachesSelf(m: Machine, s: State)
    ensures Reaches(m, s, s)
  {
    assert StepN(m, s, 0) == s;
  }

  lemma {:induction false} ReachesTrans(m: Machine, s: State, t: State, u: State)
    requires Reaches(m, s, t) && Reaches(m, t, u)
    ensures Reaches(m, s, u)
  {
    var a :| StepN(m, s, a) == t;
    var b :| StepN(m, t, b) == u;
    StepNPlus(m, s, a, b);
  }

  lemma {:induction false} ReachesStep(m: Machine, s: State, t: State)
    requires s.Run? && Step(m, s) == t
    ensures Reaches(m, s, t)
  {
    assert StepN(m, t, 0) == t;
    assert StepN(m, s, 1) == t;
  }

  // ---- positions stay inside the subject ----

  predicate InSubject(m: Machine, pos: int) { 0 <= pos <= |m.subject.input| }

  /** Captures are unset or positions of the subject. */
  predicate CapturesOk(m: Machine, mem: seq<int>) {
    |mem| == 2 * m.groups + m.regs && forall i :: 0 <= i < 2 * m.groups ==> mem[i] == UNSET || InSubject(m, mem[i])
  }

  predicate FramesOk(m: Machine, k: seq<Frame>) {
    forall i :: 0 <= i < |k| ==> InSubject(m, k[i].pos) && CapturesOk(m, k[i].mem)
  }

  predicate StateOk(m: Machine, s: State) {
    s.Run? ==> InSubject(m, s.pos) && CapturesOk(m, s.mem) && FramesOk(m, s.stack)
  }

  lemma {:induction false} BacktrackOk(m: Machine, k: seq<Frame>)
    requires FramesOk(m, k)
    ensures StateOk(m, Backtrack(k))
    decreases |k|
  {
    if k != [] {
      assert FramesOk(m, Pop(k));
      if Top(k).kind == LookFrame { BacktrackOk(m, Pop(k)); }
    }
  }

  lemma PushOk(m: Machine, k: seq<Frame>, f: Frame)
    requires FramesOk(m, k) && InSubject(m, f.pos) && CapturesOk(m, f.mem)
    ensures FramesOk(m, k + [f])
  {
  }

  lemma {:induction false} RefOk(m: Machine, back: bool, ic: bool, groups: seq<nat>, pos: int, mem: seq<int>)
    requires InSubject(m, pos)
    ensures var p := RefTarget(m, back, ic, groups, pos, mem); p.Some? ==> InSubject(m, p.value)
    decreases |groups|
  {
    if groups != [] {
      RefOk(m, back, ic, groups[1..], pos, mem);
    }
  }

  /** Every step keeps all positions, captures and saved states inside the subject. */
  lemma {:induction false} StepOk(m: Machine, s: State)
    requires s.Run? && StateOk(m, s)
    ensures StateOk(m, Step(m, s))
  {
    var i := Fetch(m.code, s.pc);
    if i.Some? {
      BacktrackOk(m, s.stack);
      hide Backtrack, Fetch, FindFrame;
      ExecuteOk(m, s, i.value, s.pc + Size(i.value));
    }
  }

  lemma {:induction false} ExecuteOk(m: Machine, s: State, i: Instr, next: int)
    requires s.Run? && StateOk(m, s)
    ensures StateOk(m, Execute(m, s, i, next))
  {
    hide Backtrack, FindFrame, CapturesOk, TestAccepts, AssertionHolds, RefTarget, FramesOk;
    BacktrackOk(m, s.stack);
    match i
    case LookMatch(negative) =>
      var f := FindFrame(s.stack, if negative then NegLookFrame else LookFrame);
      if f != [] {
        FoundOk(m, s.stack, f);
        BacktrackOk(m, Pop(f));
      }
    case LookStart(negative, offset) =>
      PushOk(m, s.stack, Frame(next + offset, s.pos, if negative then NegLookFrame else LookFrame, s.mem));
    case Split(gotoFirst, offset) => BranchOk(m, next, next + offset, gotoFirst, s.pos, s.mem, s.stack);
    case LoopSplit(gotoFirst, checkAdvance, reg, limit, offset) =>
      var v := Decrement(Read(s.mem, RegSlot(m, reg)));
      WriteOk(m, s.mem, RegSlot(m, reg), v);
      BranchOk(m, next, next + offset, gotoFirst, s.pos, Write(s.mem, RegSlot(m, reg), v), s.stack);
    case Loop(reg, _) => WriteOk(m, s.mem, RegSlot(m, reg), Decrement(Read(s.mem, RegSlot(m, reg))));
    case SetI32(reg, v) => WriteOk(m, s.mem, RegSlot(m, reg), v);
    case SetCharPos(reg) => WriteOk(m, s.mem, RegSlot(m, reg), s.pos);
    case Save(end, group) => WriteOk(m, s.mem, 2 * group + B(end), s.pos);
    case Reset(lo, hi) => ClearOk(m, s.mem, lo, hi);
    case Ref(backward, ic, groups) => RefOk(m, backward, ic, groups, s.pos, s.mem);
    case _ =>
  }

  lemma FoundOk(m: Machine, k: seq<Frame>, f: seq<Frame>)
    requires FramesOk(m, k) && f <= k && f != []
    ensures FramesOk(m, Pop(f)) && InSubject(m, Top(f).pos)
  {
  }

  lemma BranchOk(m: Machine, next: int, target: int, gotoFirst: bool, pos: int, mem: seq<int>, k: seq<Frame>)
    requires InSubject(m, pos) && CapturesOk(m, mem) && FramesOk(m, k)
    ensures StateOk(m, Branch(next, target, gotoFirst, pos, mem, k))
  {
    hide CapturesOk, FramesOk;
    PushOk(m, k, Frame(next, pos, SplitFrame, mem));
    PushOk(m, k, Frame(target, pos, SplitFrame, mem));
  }

  lemma WriteOk(m: Machine, mem: seq<int>, i: nat, v: int)
    requires CapturesOk(m, mem) && (i < 2 * m.groups ==> InSubject(m, v))
    ensures CapturesOk(m, Write(mem, i, v))
  {
  }

  lemma ClearOk(m: Machine, mem: seq<int>, lo: nat, hi: nat)
    requires CapturesOk(m, mem)
    ensures CapturesOk(m, ClearSlots(mem, lo, hi))
  {
  }
}
