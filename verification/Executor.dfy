/** The executor of `lre_exec_backtrack`: one loop over bytecode that updates the captures and
    registers in place and keeps an undo log between the saved states on its stack. Every iteration is
    one step of the machine with snapshots. */
module Executor {
  import opened RegexSyntax
  import opened Bytecode
  import opened SnapshotMachine
  import opened ByteType
  import opened Encoding
  import opened UndoLog
  import opened RangeTest
  import opened Registers

  /** How an instruction leaves the loop. */
  datatype Status = Running | Success | Failure

  class Exec {
    const bytes: seq<Byte>
    const subject: Subject
    const groups: nat
    /** Captures, then registers (`capture[]`). */
    const capture: array<int>
    /** The instructions that `bytes` encodes. */
    ghost const machine: Machine
    var pc: int
    var pos: int
    /** The stack buffer; words from `sp` on are free. */
    var buf: seq<Slot>
    var sp: nat
    var bp: nat

    constructor (ghost code: seq<Instr>, text: seq<Byte>, s: Subject, captures: array<int>, groupCount: nat, index: int,
        ghost regs: nat)
      requires text == EncodeAll(code) && AllEncodable(code) && RegistersFit(code, regs)
      requires captures.Length == 2 * groupCount + regs
      ensures Valid() && machine == Machine(code, s, groupCount, regs) && capture == captures
      ensures Abs() == Run(0, index, captures[..], [])
    {
      bytes, subject, groups, capture := text, s, groupCount, captures;
      machine := Machine(code, s, groupCount, regs);
      pc, pos, sp, bp := 0, index, 0, 0;
      buf := seq(32, i => Val(0));
    }

    ghost predicate Valid()
      reads this, capture
    {
      && bytes == EncodeAll(machine.code) && AllEncodable(machine.code)
      && subject == machine.subject && groups == machine.groups
      && capture.Length == 2 * machine.groups + machine.regs
      && RegistersFit(machine.code, machine.regs)
      && sp <= |buf| && ValidStack(buf[..sp], bp, capture.Length)
    }

    /** The saved states, with the memory each of them restores. */
    ghost function Stack(): seq<Frame>
      reads this, capture
      requires Valid()
    {
      Frames(buf[..sp], bp, capture[..])
    }

    /** The state of the machine with snapshots that this object represents. */
    ghost function Abs(): State
      reads this, capture
      requires Valid()
    {
      Run(pc, pos, capture[..], Stack())
    }

    /** `CHECK_STACK_SPACE`. */
    method CheckStackSpace(n: nat)
      requires Valid()
      modifies this`buf
      ensures Valid() && |buf| >= sp + n && buf[..sp] == old(buf)[..sp] && Abs() == old(Abs())
    {
      if |buf| - sp < n {
        var size := if |buf| * 3 / 2 < sp + n then sp + n else |buf| * 3 / 2;
        buf := buf + seq(size - |buf|, i => Val(0));
        assert buf[..sp] == old(buf)[..sp];
      }
    }

    /** `SAVE_CAPTURE`: record the old value, then overwrite it. */
    method SaveCapture(idx: nat, value: int)
      requires Valid() && idx < capture.Length
      modifies this`buf, this`sp, capture
      ensures Valid() && capture[..] == old(capture[..])[idx := value] && Stack() == old(Stack())
    {
      hide EncodeAll, AllEncodable, RegistersFit, ValidStack, Frames;
      CheckStackSpace(2);
      ghost var st, mem := buf[..sp], capture[..];
      RecordFrames(st, bp, mem, idx, value);
      buf := buf[sp := Val(idx)][sp + 1 := Val(capture[idx])];
      assert buf[..sp + 2] == st + [Val(idx), Val(mem[idx])];
      sp := sp + 2;
      capture[idx] := value;
      assert capture[..] == mem[idx := value];
    }

    /** The newest entry of the log for a slot, or `bp`. */
    method FindSaved(idx: nat) returns (sp1: int)
      requires 0 <= bp <= sp <= |buf| && (sp - bp) % 2 == 0
      ensures bp <= sp1 <= sp && (sp1 - bp) % 2 == 0 && (sp1 > bp ==> buf[sp1 - 2] == Val(idx))
    {
      sp1 := sp;
      while sp1 > bp && buf[sp1 - 2] != Val(idx)
        invariant bp <= sp1 <= sp && (sp1 - bp) % 2 == 0
        decreases sp1
      {
        sp1 := sp1 - 2;
      }
    }

    /** `SAVE_CAPTURE_CHECK`: record the old value unless the log above the last saved state already does. */
    method SaveCaptureCheck(idx: nat, value: int)
      requires Valid() && idx < capture.Length
      modifies this`buf, this`sp, capture
      ensures Valid() && capture[..] == old(capture[..])[idx := value] && Stack() == old(Stack())
    {
      hide EncodeAll, AllEncodable, RegistersFit, ValidStack, Frames;
      ghost var st, mem := buf[..sp], capture[..];
      LogEven(st, bp, capture.Length);
      var sp1 := FindSaved(idx);
      if sp1 > bp {
        assert st[sp1 - 2] == buf[sp1 - 2];
        OverwriteFrames(st, bp, mem, idx, value, sp1 - 2);
        capture[idx] := value;
        assert capture[..] == mem[idx := value];
      } else {
        SaveCapture(idx, value);
      }
    }

    /** Push a saved state. */
    method PushState(target: int, at: int, kind: FrameKind)
      requires Valid()
      modifies this`buf, this`sp, this`bp
      ensures Valid() && Stack() == old(Stack()) + [Frame(target, at, kind, capture[..])]
    {
      hide EncodeAll, AllEncodable, RegistersFit, ValidStack, Frames;
      CheckStackSpace(3);
      ghost var st := buf[..sp];
      PushFrame(st, bp, capture[..], target, at, kind);
      buf := buf[sp := Val(target)][sp + 1 := Val(at)][sp + 2 := Base(bp, kind)];
      assert buf[..sp + 3] == st + [Val(target), Val(at), Base(bp, kind)];
      sp := sp + 3;
      bp := sp;
    }

    /** Undo the last write of the log. */
    method UndoOne()
      requires 0 <= bp < sp <= |buf| && IsLog(buf[bp..sp], capture.Length)
      modifies this`sp, capture
      ensures bp <= sp == old(sp) - 2 && IsLog(buf[bp..sp], capture.Length)
      ensures Undo(buf[bp..sp], capture[..]) == old(Undo(buf[bp..sp], capture[..]))
    {
      ghost var rest, before := buf[bp..sp], capture[..];
      ghost var k := |rest| - 2;
      LogPrefix(rest, k, capture.Length);
      assert buf[bp..sp - 2] == rest[..k];
      assert rest[k] == buf[sp - 2] && rest[k + 1] == buf[sp - 1];
      capture[buf[sp - 2].v] := buf[sp - 1].v;
      sp := sp - 2;
      assert capture[..] == before[rest[k].v := rest[k + 1].v];
    }

    /** Undo the log above the last saved state. */
    method UndoTop()
      requires Valid()
      modifies this`sp, capture
      ensures Valid() && sp == bp && capture[..] == Undo(old(buf[bp..sp]), old(capture[..]))
    {
      ghost var log, mem := buf[bp..sp], capture[..];
      assert buf[..sp][bp..] == log;
      assert IsLog(log, |mem|);
      hide EncodeAll, AllEncodable, RegistersFit, ValidStack, Frames;
      while sp > bp
        invariant bp <= sp <= old(sp) && IsLog(buf[bp..sp], capture.Length) && IsLog(log, |mem|)
            && |mem| == capture.Length
        invariant Undo(buf[bp..sp], capture[..]) == Undo(log, mem)
        decreases sp
      {
        UndoOne();
      }
      assert buf[bp..sp] == [];
      StackAtBase(old(buf[..sp]), buf[..sp], bp, capture.Length);
    }

    /** Restore and pop the last saved state. */
    method PopState() returns (kind: FrameKind)
      requires Valid() && bp != 0
      modifies this`pc, this`pos, this`sp, this`bp, capture
      ensures Valid() && old(Stack()) != [] && bp < old(bp)
      ensures var f := Top(old(Stack())); pc == f.pc && pos == f.pos && kind == f.kind && capture[..] == f.mem
      ensures Stack() == Pop(old(Stack()))
    {
      hide EncodeAll, AllEncodable, RegistersFit, ValidStack, Frames, Undo, Top, Pop;
      ghost var st, mem := buf[..sp], capture[..];
      PopFrame(st, bp, mem);
      PopWords(st, bp, |mem|);
      assert st[bp..] == buf[bp..sp];
      assert st[bp - 3] == buf[bp - 3] && st[bp - 2] == buf[bp - 2] && st[bp - 1] == buf[bp - 1];
      UndoTop();
      pc := buf[sp - 3].v;
      pos := buf[sp - 2].v;
      kind := buf[sp - 1].kind;
      bp := buf[sp - 1].bp;
      sp := sp - 3;
      assert buf[..sp] == st[..sp];
    }

    /** `no_match`: restore the most recent saved state that is not the start of a lookahead. */
    method NoMatchFound() returns (alive: bool)
      requires Valid()
      modifies this`pc, this`pos, this`sp, this`bp, capture
      ensures Valid()
      ensures if alive then Abs() == Backtrack(old(Stack())) else Backtrack(old(Stack())) == NoMatch
    {
      while true
        invariant Valid() && Backtrack(Stack()) == Backtrack(old(Stack()))
        decreases bp
      {
        if bp == 0 {
          return false;
        }
        var kind := PopState();
        if kind != LookFrame {
          return true;
        }
      }
    }

    /** `negative_lookahead_match`: drop the states up to the start of the negative lookahead, restoring
        the memory of that moment, and fail. */
    method NegativeLookaheadMatch() returns (alive: bool)
      requires Valid() && FindFrame(Stack(), NegLookFrame) != []
      modifies this`pc, this`pos, this`sp, this`bp, capture
      ensures Valid()
      ensures var outer := Backtrack(Pop(FindFrame(old(Stack()), NegLookFrame)));
              if alive then Abs() == outer else outer == NoMatch
    {
      while true
        invariant Valid() && FindFrame(Stack(), NegLookFrame) == FindFrame(old(Stack()), NegLookFrame) != []
        decreases bp
      {
        var kind := PopState();
        if kind == NegLookFrame {
          break;
        }
      }
      alive := NoMatchFound();
    }

    /** `lookahead_match`: drop the states up to the start of the lookahead, but keep the captures and
        the log of the dropped states below it. */
    method LookaheadMatch()
      requires Valid() && FindFrame(Stack(), LookFrame) != []
      modifies this`pc, this`pos, this`buf, this`sp, this`bp
      ensures Valid()
      ensures var f := FindFrame(old(Stack()), LookFrame); Abs() == Run(Top(f).pc, Top(f).pos, capture[..], Pop(f))
    {
      hide EncodeAll, AllEncodable, RegistersFit, FindFrame, LookLogs, Chain, Linked, ValidStack, HasLook, Frames;
      ghost var st, bp0, n := buf[..sp], bp, capture.Length;
      FoundLook(st, bp, capture[..]);
      LookCompaction(st, bp, capture[..]);
      LookWords(st, bp, n);
      var top := sp;
      LinkStates(top);
      if sp != 0 {
        CompactLogs(top);
        assert buf[..sp] == st[..LookBase(st, bp0, n)] + LookLogs(st, bp0, n);
      } else {
        EmptyStack(st[..0] + LookLogs(st, bp0, n), capture[..]);
        assert buf[..sp] == [];
      }
    }

    /** The first loop of the compaction: walk down to the lookahead state and leave in each dropped
        state the end of the log above it. */
    method LinkStates(top: nat)
      requires sp == top <= |buf| && ValidStack(buf[..sp], bp, capture.Length) && HasLook(buf[..sp], bp, capture.Length)
      modifies this`pc, this`pos, this`buf, this`sp, this`bp
      ensures |buf| == old(|buf|) && sp == LookBase(old(buf[..sp]), old(bp), capture.Length) && sp + 3 <= top
      ensures buf[..sp] == old(buf)[..sp]
      ensures old(buf)[sp] == Val(pc) && old(buf)[sp + 1] == Val(pos) && old(buf)[sp + 2] == Base(bp, LookFrame)
      ensures Chain(buf, sp, top) && Linked(buf, sp, top) == LookLogs(old(buf[..top]), old(bp), capture.Length)
    {
      hide ValidStack, HasLook, LookLogs, Chain, Linked;
      ghost var st, bp0, n := buf[..sp], bp, capture.Length;
      WalkStart(st, bp0, n, buf);
      while true
        invariant |buf| == old(|buf|) && Walked(st, bp0, n, buf, sp, bp, top)
        decreases sp
      {
        WalkStep(st, bp0, n, buf, sp, bp, top);
        ghost var words := buf[..sp];
        var sp1 := sp;
        sp := bp;
        pc := buf[sp - 3].v;
        pos := buf[sp - 2].v;
        var kind := buf[sp - 1].kind;
        bp := buf[sp - 1].bp;
        buf := buf[sp - 1 := Link(sp1)];
        sp := sp - 3;
        if kind == LookFrame {
          assert words == old(buf)[..sp1];
          assert words[sp] == Val(pc) && words[sp + 1] == Val(pos) && words[sp + 2] == Base(bp, LookFrame);
          break;
        }
      }
    }

    /** The second loop of the compaction: copy the linked logs down. */
    method CompactLogs(top: nat)
      requires sp + 3 <= top <= |buf| && Chain(buf, sp, top)
      modifies this`buf, this`sp
      ensures |buf| == old(|buf|) && old(sp) <= sp <= top
      ensures buf[..sp] == old(buf)[..old(sp)] + Linked(old(buf), old(sp), top)
    {
      hide Chain, Linked;
      ghost var all := buf[..sp] + Linked(buf, sp, top);
      var sp1 := sp;
      while sp1 < top
        invariant |buf| == old(|buf|) && old(sp) <= sp <= sp1 <= top
        invariant Chain(buf, sp1, top) && buf[..sp] + Linked(buf, sp1, top) == all
        decreases top - sp1
      {
        CopyNext(buf, sp, sp1, top, all);
        var next := buf[sp1 + 2].next;
        ghost var rest := Linked(buf, next, top);
        sp1 := sp1 + 3;
        while sp1 < next
          invariant |buf| == old(|buf|) && old(sp) <= sp < sp1 <= next <= top
          invariant Chain(buf, next, top) && Linked(buf, next, top) == rest
          invariant buf[..sp] + (buf[sp1..next] + rest) == all
          decreases next - sp1
        {
          CopyStep(buf, sp, sp1, next, top, rest, all);
          buf := buf[sp := buf[sp1]];
          sp := sp + 1;
          sp1 := sp1 + 1;
        }
        assert buf[sp1..next] + rest == rest;
      }
      NothingLinked(buf, top);
    }

    // ---- instructions ----

    /** The status and the new state that an instruction leads to. */
    ghost predicate Leads(r: Status, t: State)
      reads this, capture
      requires Valid()
    {
      match r
      case Running => t == Abs()
      case Success => t == Matched(pos, capture[..])
      case Failure => t == NoMatch
    }

    method Fail() returns (r: Status)
      requires Valid()
      modifies this`pc, this`pos, this`sp, this`bp, capture
      ensures Valid() && Leads(r, Backtrack(old(Stack())))
    {
      var alive := NoMatchFound();
      r := if alive then Running else Failure;
    }

    /** The character tests; sets are searched in the table that follows the opcode. */
    method Accepts(t: CharTest, c: nat) returns (ok: bool)
      requires 0 <= pc < |bytes| && Decode(bytes[pc..]) == Some(Test(t)) && Encodable(Test(t))
      requires ValidSubject(subject) && c <= 0x10ffff
      ensures ok == TestAccepts(subject, t, c)
    {
      match t
      case Literal(v, ic) => ok := Canonical(subject, ic, c) == v;
      case Dot => ok := !IsLineTerminator(c);
      case Any => ok := true;
      case Space(negated) => ok := subject.isSpace(c) != negated;
      case InSet(points, ic) =>
        SetTable(bytes[pc..], points, ic);
        var table := bytes[pc + 1..];
        assert bytes[pc..][1..] == table;
        var n := Get16(table, 0);
        if bytes[pc] < OP_RANGE32 {
          ok := InRange16(table, 2, n, Canonical(subject, ic, c));
        } else {
          ok := InRange32(table, 2, n, Canonical(subject, ic, c));
        }
    }

    /** One character test: move on if the next character passes. */
    method StepTest(t: CharTest) returns (r: Status)
      requires Valid() && ValidSubject(subject) && 0 <= pc < |bytes|
      requires Decode(bytes[pc..]) == Some(Test(t)) && Encodable(Test(t))
      modifies this`pc, this`pos, this`sp, this`bp, capture
      ensures Valid() && Leads(r, Execute(machine, old(Abs()), Test(t), old(pc) + TestSize(t)))
    {
      hide EncodeAll, AllEncodable, RegistersFit, ValidStack, Frames, Decode, Encodable, Backtrack, TestAccepts;
      if 0 <= pos < |subject.input| {
        var ok := Accepts(t, subject.input[pos]);
        if ok {
          pc, pos := pc + TestSize(t), pos + 1;
          return Running;
        }
      }
      r := Fail();
    }

    /** The tests of a position, on the character before it and the character at it. */
    method Holds(a: Assertion) returns (ok: bool)
      requires 0 <= pos <= |subject.input|
      ensures ok == AssertionHolds(subject, a, pos)
    {
      match a
      case LineStart(multiline) =>
        ok := pos == 0;
        if !ok && multiline {
          ok := IsLineTerminator(subject.input[pos - 1]);
        }
      case LineEnd(multiline) =>
        ok := pos == |subject.input|;
        if !ok && multiline {
          ok := IsLineTerminator(subject.input[pos]);
        }
      case WordBoundary(negated, ic) =>
        var v1, v2 := false, false;
        if pos != 0 {
          v1 := IsWordChar(subject.input[pos - 1], ic);
        }
        if pos < |subject.input| {
          v2 := IsWordChar(subject.input[pos], ic);
        }
        ok := (v1 != v2) == !negated;
    }

    method StepCheck(a: Assertion) returns (r: Status)
      requires Valid() && InSubject(machine, pos)
      modifies this`pc, this`pos, this`sp, this`bp, capture
      ensures Valid() && Leads(r, Execute(machine, old(Abs()), Check(a), old(pc) + 1))
    {
      hide EncodeAll, AllEncodable, RegistersFit, ValidStack, Frames, Backtrack, AssertionHolds;
      var ok := Holds(a);
      if ok {
        pc := pc + 1;
        return Running;
      }
      r := Fail();
    }

    /** A split: continue with one target and save the other. */
    method StepBranch(next: int, target: int, gotoFirst: bool)
      requires Valid()
      modifies this`pc, this`buf, this`sp, this`bp
      ensures Valid() && Abs() == Branch(next, target, gotoFirst, pos, capture[..], old(Stack()))
    {
      hide EncodeAll, AllEncodable, RegistersFit, ValidStack, Frames;
      if gotoFirst {
        PushState(next, pos, SplitFrame);
        pc := target;
      } else {
        PushState(target, pos, SplitFrame);
        pc := next;
      }
    }

    method StepLook(negative: bool, offset: int)
      requires Valid()
      modifies this`pc, this`buf, this`sp, this`bp
      ensures Valid() && Abs() == Execute(machine, old(Abs()), LookStart(negative, offset), old(pc) + 5)
    {
      hide EncodeAll, AllEncodable, RegistersFit, ValidStack, Frames;
      PushState(pc + 5 + offset, pos, if negative then NegLookFrame else LookFrame);
      pc := pc + 5;
    }

    method StepLookMatch(negative: bool) returns (r: Status)
      requires Valid() && Execute(machine, Abs(), LookMatch(negative), pc + 1) != Stuck
      modifies this`pc, this`pos, this`buf, this`sp, this`bp, capture
      ensures Valid() && Leads(r, Execute(machine, old(Abs()), LookMatch(negative), old(pc) + 1))
    {
      hide EncodeAll, AllEncodable, RegistersFit, ValidStack, Frames, Backtrack;
      if negative {
        var alive := NegativeLookaheadMatch();
        r := if alive then Running else Failure;
      } else {
        LookaheadMatch();
        r := Running;
      }
    }

    method StepSave(end: bool, group: nat)
      requires Valid() && group < groups
      modifies this`pc, this`buf, this`sp, capture
      ensures Valid() && Abs() == Execute(machine, old(Abs()), Save(end, group), old(pc) + 2)
    {
      hide EncodeAll, AllEncodable, RegistersFit, ValidStack, Frames;
      SaveCapture(2 * group + B(end), pos);
      pc := pc + 2;
    }

    /** `save_reset`: unset the groups one by one. */
    method StepReset(lo: nat, hi: nat)
      requires Valid() && hi < groups
      modifies this`pc, this`buf, this`sp, capture
      ensures Valid() && Abs() == Execute(machine, old(Abs()), Reset(lo, hi), old(pc) + 3)
    {
      hide EncodeAll, AllEncodable, RegistersFit, ValidStack, Frames;
      ghost var mem := capture[..];
      var g := lo;
      while g <= hi
        invariant Valid() && Stack() == old(Stack()) && pc == old(pc) && |mem| == capture.Length
            && (g <= hi + 1 || g == lo)
        invariant forall i :: 0 <= i < |mem| ==> capture[i] == if 2 * lo <= i < 2 * g then UNSET else mem[i]
        decreases hi + 1 - g
      {
        ghost var before := capture[..];
        SaveCapture(2 * g, UNSET);
        SaveCapture(2 * g + 1, UNSET);
        assert capture[..] == before[2 * g := UNSET][2 * g + 1 := UNSET];
        assert forall i ::
          0 <= i < |mem| ==> capture[..][i] == capture[i] && before[i] == if 2 * lo <= i < 2 * g then UNSET else mem[i];
        g := g + 1;
      }
      assert capture[..] == ClearSlots(mem, lo, hi);
      pc := pc + 3;
    }

    method StepSet(reg: nat, value: int, size: nat)
      requires Valid() && RegSlot(machine, reg) < capture.Length
      modifies this`pc, this`buf, this`sp, capture
      ensures Valid() && Abs() == Run(old(pc) + size, pos, Write(old(capture[..]), RegSlot(machine, reg), value),
          old(Stack()))
    {
      hide EncodeAll, AllEncodable, RegistersFit, ValidStack, Frames;
      SaveCaptureCheck(2 * groups + reg, value);
      pc := pc + size;
    }

    /** `loop`: decrement the counter and go back unless it is zero. */
    method StepLoop(reg: nat, offset: int)
      requires Valid() && RegSlot(machine, reg) < capture.Length
      modifies this`pc, this`buf, this`sp, capture
      ensures Valid() && Abs() == Execute(machine, old(Abs()), Loop(reg, offset), old(pc) + 6)
    {
      hide EncodeAll, AllEncodable, RegistersFit, ValidStack, Frames;
      var idx := 2 * groups + reg;
      var v := Decrement(capture[idx]);
      SaveCaptureCheck(idx, v);
      pc := pc + 6;
      if v != 0 {
        pc := pc + offset;
      }
    }

    method StepLoopSplit(gotoFirst: bool, checkAdvance: bool, reg: nat, limit: int, offset: int) returns (r: Status)
      requires Valid() && RegSlot(machine, reg) < capture.Length
      requires checkAdvance ==> RegSlot(machine, reg) + 1 < capture.Length
      modifies this`pc, this`pos, this`buf, this`sp, this`bp, capture
      ensures Valid()
      ensures Leads(r, Execute(machine, old(Abs()), LoopSplit(gotoFirst, checkAdvance, reg, limit, offset),
          old(pc) + 10))
    {
      hide EncodeAll, AllEncodable, RegistersFit, ValidStack, Frames, Backtrack;
      var idx := 2 * groups + reg;
      var v := Decrement(capture[idx]);
      SaveCaptureCheck(idx, v);
      var next := pc + 10;
      if v > limit {
        pc := next + offset;
        return Running;
      }
      if checkAdvance && capture[idx + 1] == pos && v != limit {
        r := Fail();
        return;
      }
      if v != 0 {
        StepBranch(next, next + offset, gotoFirst);
      } else {
        pc := next;
      }
      r := Running;
    }

    method StepCheckAdvance(reg: nat) returns (r: Status)
      requires Valid() && RegSlot(machine, reg) < capture.Length
      modifies this`pc, this`pos, this`sp, this`bp, capture
      ensures Valid() && Leads(r, Execute(machine, old(Abs()), CheckAdvance(reg), old(pc) + 2))
    {
      hide EncodeAll, AllEncodable, RegistersFit, ValidStack, Frames, Backtrack;
      if capture[2 * groups + reg] == pos {
        r := Fail();
      } else {
        pc := pc + 2;
        r := Running;
      }
    }

    method StepPrev() returns (r: Status)
      requires Valid()
      modifies this`pc, this`pos, this`sp, this`bp, capture
      ensures Valid() && Leads(r, Execute(machine, old(Abs()), Prev, old(pc) + 1))
    {
      hide EncodeAll, AllEncodable, RegistersFit, ValidStack, Frames, Backtrack;
      if pos == 0 {
        r := Fail();
      } else {
        pc, pos := pc + 1, pos - 1;
        r := Running;
      }
    }

    // ---- back references ----

    /** Compare the captured text with the text at `at`, character by character. */
    method CompareForward(start: int, end: int, at: int, ic: bool) returns (r: Option<int>)
      requires 0 <= start <= end <= |subject.input| && 0 <= at <= |subject.input|
      ensures r == BackRefEnd(subject, false, ic, start, end, at)
    {
      hide SameText, Canonical;
      SameNone(subject, ic, start, at);
      var p1, p := start, at;
      while p1 < end
        invariant start <= p1 <= end && p - at == p1 - start && p <= |subject.input|
        invariant SameText(subject, ic, start, at, p1 - start)
      {
        if p >= |subject.input| {
          return None;
        }
        if Canonical(subject, ic, subject.input[p1]) != Canonical(subject, ic, subject.input[p]) {
          if at + (end - start) <= |subject.input| { DifferAt(subject, ic, start, at, end - start, p1 - start); }
          return None;
        }
        SameOneMore(subject, ic, start, at, p1 - start);
        p1, p := p1 + 1, p + 1;
      }
      return Some(p);
    }

    /** The same from the end of both texts, for lookbehind. */
    method CompareBackward(start: int, end: int, at: int, ic: bool) returns (r: Option<int>)
      requires 0 <= start <= end <= |subject.input| && 0 <= at <= |subject.input|
      ensures r == BackRefEnd(subject, true, ic, start, end, at)
    {
      hide SameText, Canonical;
      SameNone(subject, ic, end, at);
      var p1, p := end, at;
      while p1 > start
        invariant start <= p1 <= end && at - p == end - p1 && p >= 0
        invariant SameText(subject, ic, p1, p, end - p1)
      {
        if p == 0 {
          return None;
        }
        p1, p := p1 - 1, p - 1;
        if Canonical(subject, ic, subject.input[p1]) != Canonical(subject, ic, subject.input[p]) {
          if at - (end - start) >= 0 { DifferAt(subject, ic, start, at - (end - start), end - start, p1 - start); }
          return None;
        }
        SameOneLess(subject, ic, p1, p, end - p1);
      }
      return Some(p);
    }

    method StepRef(backward: bool, ic: bool, gs: seq<nat>) returns (r: Status)
      requires Valid() && InSubject(machine, pos) && CapturesOk(machine, capture[..])
      modifies this`pc, this`pos, this`sp, this`bp, capture
      ensures Valid() && Leads(r, Execute(machine, old(Abs()), Ref(backward, ic, gs), old(pc) + 2 + |gs|))
    {
      hide EncodeAll, AllEncodable, RegistersFit, ValidStack, Frames, Backtrack, BackRefEnd, Execute, RefTarget;
      RefExecutes(machine, Abs(), backward, ic, gs, pc + 2 + |gs|);
      var i := 0;
      while i < |gs|
        invariant 0 <= i <= |gs| && Valid() && Abs() == old(Abs())
        invariant RefTarget(machine, backward, ic, gs, pos, capture[..])
            == RefTarget(machine, backward, ic, gs[i..], pos, capture[..])
      {
        var g := gs[i];
        assert gs[i..][0] == g && gs[i..][1..] == gs[i + 1..];
        RefNext(machine, backward, ic, gs[i..], pos, capture[..]);
        if g >= groups {
          r := Fail();
          return;
        }
        var start, end := capture[2 * g], capture[2 * g + 1];
        if start != UNSET && end != UNSET {
          var target := CompareTo(backward, ic, start, end);
          if target.None? {
            r := Fail();
          } else {
            pc, pos := pc + 2 + |gs|, target.value;
            r := Running;
          }
          return;
        }
        i := i + 1;
      }
      RefNext(machine, backward, ic, gs[i..], pos, capture[..]);
      pc := pc + 2 + |gs|;
      r := Running;
    }

    /** The comparison loops of a back reference. */
    method CompareTo(backward: bool, ic: bool, start: int, end: int) returns (r: Option<int>)
      requires 0 <= pos <= |subject.input| && 0 <= start <= |subject.input| && 0 <= end <= |subject.input|
      ensures r == BackRefEnd(subject, backward, ic, start, end, pos)
    {
      if end <= start {
        return Some(pos);
      }
      if backward {
        r := CompareBackward(start, end, pos, ic);
      } else {
        r := CompareForward(start, end, pos, ic);
      }
    }

    // ---- the loop ----

    /** One turn of the loop: fetch the instruction at `pc` and execute it. */
    method StepOnce() returns (r: Status)
      requires Valid() && ValidSubject(subject) && StateOk(machine, Abs()) && Step(machine, Abs()) != Stuck
      modifies this, capture
      ensures Valid() && Leads(r, Step(machine, old(Abs())))
    {
      hide *;
      BytesAre();
      Fetched(machine, Abs());
      var i := Decode(bytes[pc..]).value;
      if i.Test? {
        assert pc + Size(i) == pc + TestSize(i.t) by { TestSizeIs(i); }
        r := StepTest(i.t);
      } else if i.LookMatch? || i.LookStart? || i.Split? || i.Goto? || i.Match? || i.Prev? || i.Check? {
        r := StepControl(i);
      } else {
        r := StepMemory(i);
      }
    }

    lemma BytesAre()
      requires Valid()
      ensures bytes == EncodeAll(machine.code) && AllEncodable(machine.code) && subject == machine.subject
      ensures RegistersFit(machine.code, machine.regs) && Abs().Run? && Abs().pc == pc
    {
    }

    method StepControl(i: Instr) returns (r: Status)
      requires Valid() && (i.LookMatch? || i.LookStart? || i.Split? || i.Goto? || i.Match? || i.Prev? || i.Check?)
      requires Execute(machine, Abs(), i, pc + Size(i)) != Stuck && StateOk(machine, Abs())
      modifies this`pc, this`pos, this`buf, this`sp, this`bp, capture
      ensures Valid() && Leads(r, Execute(machine, old(Abs()), i, old(pc) + Size(i)))
    {
      hide EncodeAll, AllEncodable, RegistersFit, ValidStack, Frames, Backtrack, FindFrame, FramesOk;
      match i
      case LookMatch(negative) => r := StepLookMatch(negative);
      case LookStart(negative, offset) => StepLook(negative, offset); r := Running;
      case Split(gotoFirst, offset) => StepBranch(pc + 5, pc + 5 + offset, gotoFirst); r := Running;
      case Goto(offset) => pc := pc + 5 + offset; r := Running;
      case Match => r := Success;
      case Prev => r := StepPrev();
      case Check(a) => r := StepCheck(a);
    }

    method StepMemory(i: Instr) returns (r: Status)
      requires Valid() && StateOk(machine, Abs()) && RegisterFits(i, machine.regs)
      requires i.Save? || i.Reset? || i.Loop? || i.LoopSplit? || i.SetI32? || i.Ref? || i.SetCharPos? || i.CheckAdvance?
      requires Execute(machine, Abs(), i, pc + Size(i)) != Stuck
      modifies this`pc, this`pos, this`buf, this`sp, this`bp, capture
      ensures Valid() && Leads(r, Execute(machine, old(Abs()), i, old(pc) + Size(i)))
    {
      hide EncodeAll, AllEncodable, RegistersFit, ValidStack, Frames, Backtrack, FramesOk;
      match i
      case Save(end, group) => StepSave(end, group); r := Running;
      case Reset(lo, hi) => StepReset(lo, hi); r := Running;
      case Loop(reg, offset) => StepLoop(reg, offset); r := Running;
      case LoopSplit(gotoFirst, checkAdvance, reg, limit, offset) =>
        r := StepLoopSplit(gotoFirst, checkAdvance, reg, limit, offset);
      case SetI32(reg, value) => StepSet(reg, value, 6); r := Running;
      case Ref(backward, ic, gs) => r := StepRef(backward, ic, gs);
      case SetCharPos(reg) => StepSet(reg, pos, 2); r := Running;
      case CheckAdvance(reg) => r := StepCheckAdvance(reg);
    }

    /** `lre_exec_backtrack`: run until a match or until no saved state is left. The run ends because the
        machine with snapshots ends, `n` steps from here, in the state `final`. */
    method Backtracking(ghost n: nat, ghost final: State) returns (matched: bool)
      requires Valid() && ValidSubject(subject) && StateOk(machine, Abs())
      requires StepN(machine, Abs(), n) == final && (final.Matched? || final.NoMatch?)
      modifies this, capture
      ensures Valid()
      ensures if matched then final == Matched(pos, capture[..]) else final == NoMatch
    {
      hide *;
      ghost var left := n;
      while true
        invariant Valid() && StateOk(machine, Abs()) && StepN(machine, Abs(), left) == final
        decreases left
      {
        ghost var s := Abs();
        BytesAre();
        StepOk(machine, s);
        StuckStays(machine, s, left);
        var r := StepOnce();
        left := left - 1;
        LeadsTo(r, Step(machine, s), left, final);
        if r.Success? {
          return true;
        }
        if r.Failure? {
          return false;
        }
      }
    }

    /** What the outcome of a step says about the state it leads to. */
    lemma LeadsTo(r: Status, t: State, left: nat, final: State)
      requires Valid() && Leads(r, t) && StepN(machine, t, left) == final
      ensures r.Success? ==> final == Matched(pos, capture[..])
      ensures r.Failure? ==> final == NoMatch
      ensures r.Running? ==> t == Abs()
    {
    }
  }

  /** A run that ends well does not get stuck on the way. */
  lemma StuckStays(m: Machine, s: State, n: nat)
    requires s.Run? && !StepN(m, s, n).Stuck? && !StepN(m, s, n).Run?
    ensures n > 0 && Step(m, s) != Stuck && StepN(m, Step(m, s), n - 1) == StepN(m, s, n)
  {
    hide Step;
  }

  /** Decoding the bytes at `pc` finds the instruction that the machine executes. */
  lemma Fetched(m: Machine, s: State)
    requires s.Run? && Step(m, s) != Stuck && AllEncodable(m.code) && RegistersFit(m.code, m.regs)
    ensures 0 <= s.pc < |EncodeAll(m.code)| && Decode(EncodeAll(m.code)[s.pc..]).Some?
    ensures var i := Decode(EncodeAll(m.code)[s.pc..]).value;
            Encodable(i) && RegisterFits(i, m.regs) && Step(m, s) == Execute(m, s, i, s.pc + Size(i))
  {
    hide Decode, EncodeAll, Encodable, RegisterFits, Execute;
    DecodeFetches(m.code, s.pc);
    assert FetchIndex(m.code, s.pc) < |m.code|;
  }

  lemma TestSizeIs(i: Instr)
    requires i.Test?
    ensures Size(i) == TestSize(i.t)
  {
  }

  /** Position of the instruction that starts at byte `pc`. */
  ghost function FetchIndex(code: seq<Instr>, pc: int): (k: nat)
    requires Fetch(code, pc).Some?
    ensures k < |code| && code[k] == Fetch(code, pc).value
    decreases |code|
  {
    if pc == 0 then 0 else 1 + FetchIndex(code[1..], pc - Size(code[0]))
  }

  lemma RefExecutes(m: Machine, s: State, back: bool, ic: bool, gs: seq<nat>, next: int)
    requires s.Run?
    ensures Execute(m, s, Ref(back, ic, gs), next)
         == match RefTarget(m, back, ic, gs, s.pos, s.mem) case None => Backtrack(s.stack) case Some(p) => Run(next, p,
           s.mem, s.stack)
  {
    hide RefTarget, Backtrack;
  }

  lemma RefNext(m: Machine, back: bool, ic: bool, gs: seq<nat>, pos: int, mem: seq<int>)
    requires |mem| >= 2 * m.groups
    ensures RefTarget(m, back, ic, gs, pos, mem)
         == if gs == [] then Some(pos) else if gs[0] >= m.groups then None
            else if mem[2 * gs[0]] != UNSET && mem[2 * gs[0] + 1] != UNSET
            then BackRefEnd(m.subject, back, ic, mem[2 * gs[0]], mem[2 * gs[0] + 1], pos)
            else RefTarget(m, back, ic, gs[1..], pos, mem)
  {
    hide BackRefEnd;
  }

  lemma SameNone(s: Subject, ic: bool, a: int, b: int)
    requires 0 <= a <= |s.input| && 0 <= b <= |s.input|
    ensures SameText(s, ic, a, b, 0)
  {
  }

  lemma SameOneMore(s: Subject, ic: bool, a: int, b: int, len: nat)
    requires 0 <= a && a + len < |s.input| && 0 <= b && b + len < |s.input|
    requires SameText(s, ic, a, b, len) && Canonical(s, ic, s.input[a + len]) == Canonical(s, ic, s.input[b + len])
    ensures SameText(s, ic, a, b, len + 1)
  {
    var x, y := s.input[a..a + len + 1], s.input[b..b + len + 1];
    forall i | 0 <= i < len + 1 ensures Canonical(s, ic, x[i]) == Canonical(s, ic, y[i]) {
      if i < len {
        assert s.input[a..a + len][i] == x[i] && s.input[b..b + len][i] == y[i];
      }
    }
  }

  lemma SameOneLess(s: Subject, ic: bool, a: int, b: int, len: nat)
    requires len > 0 && 0 <= a && a + len <= |s.input| && 0 <= b && b + len <= |s.input|
    requires SameText(s, ic, a + 1, b + 1, len - 1) && Canonical(s, ic, s.input[a]) == Canonical(s, ic, s.input[b])
    ensures SameText(s, ic, a, b, len)
  {
    var x, y := s.input[a..a + len], s.input[b..b + len];
    forall i | 0 <= i < len ensures Canonical(s, ic, x[i]) == Canonical(s, ic, y[i]) {
      if i > 0 {
        assert s.input[a + 1..a + len][i - 1] == x[i] && s.input[b + 1..b + len][i - 1] == y[i];
      }
    }
  }

  lemma DifferAt(s: Subject, ic: bool, a: int, b: int, len: nat, k: nat)
    requires 0 <= a && a + len <= |s.input| && 0 <= b && b + len <= |s.input| && k < len
    requires Canonical(s, ic, s.input[a + k]) != Canonical(s, ic, s.input[b + k])
    ensures !SameText(s, ic, a, b, len)
  {
    assert s.input[a..a + len][k] == s.input[a + k] && s.input[b..b + len][k] == s.input[b + k];
  }
}
