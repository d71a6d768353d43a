/** Whole programs: the search prologue and the capture of the match around the code of a pattern.
    Running one decides the match, and its result, that ECMA-262 prescribes. */
module RegexProgram {
  import opened RegexSyntax
  import opened Ecma
  import opened MatchLists
  import opened Bytecode
  import opened RawMatch
  import opened RawMatchFacts
  import opened SnapshotMachine
  import opened Exploration
  import opened BlockBasics
  import opened BlockCode
  import opened Agreement

  function MachineFor(n: Node, sticky: bool, s: Subject): Machine {
    Machine(Program(n, sticky), s, Groups(n), RegCount(n, 1, false))
  }

  /** Captures unset, registers arbitrary. */
  predicate InitialMemory(m: Machine, mem: seq<int>) {
    |mem| == 2 * m.groups + m.regs && forall i :: 0 <= i < 2 * m.groups ==> mem[i] == UNSET
  }

  function Start(sticky: bool): int { if sticky then 0 else 11 }

  lemma {:induction false} ProgramLayout(n: Node, sticky: bool)
    ensures var code, p, q := Program(n, sticky), Start(sticky), Start(sticky) + 2 + Len(Code(n, 1, false, 0));
            && (!sticky ==>
                 Fetch(code, 0) == Some(Split(true, 6)) && Fetch(code, 5) == Some(Test(Any))
                 && Fetch(code, 6) == Some(Goto(-11)))
            && Fetch(code, p) == Some(Save(false, 0)) && At(code, p + 2, Code(n, 1, false, 0))
            && Fetch(code, q) == Some(Save(true, 0)) && Fetch(code, q + 2) == Some(Match)
  {
    hide Code, Len, At, Fetch;
    var code, a := Program(n, sticky), Code(n, 1, false, 0);
    var pre, i, j := Prologue(sticky), Save(false, 0), Save(true, 0);
    AtSelf(code);
    var p1, p2, p3 := pre + [i], pre + [i] + a, pre + [i] + a + [j];
    AtAppend(code, 0, p3, [Match]);
    AtAppend(code, 0, p2, [j]);
    AtAppend(code, 0, p1, a);
    AtAppend(code, 0, pre, [i]);
    LenAppend(p2, [j]); LenAppend(p1, a); LenAppend(pre, [i]);
    PrologueLayout(sticky, code);
    One(i); One(j);
    AtSingle(code, Len(p3), Match);
    AtSingle(code, Len(p2), j);
    AtSingle(code, Len(pre), i);
  }

  lemma AtSingle(code: seq<Instr>, pc: int, i: Instr)
    ensures At(code, pc, [i]) <==> Fetch(code, pc) == Some(i)
  {
    assert [i] == [i] + [];
    AtCons(code, pc, i, []);
  }

  lemma {:induction false} PrologueLayout(sticky: bool, code: seq<Instr>)
    ensures Len(Prologue(sticky)) == Start(sticky)
    ensures !sticky && At(code, 0, Prologue(sticky)) ==>
            Fetch(code, 0) == Some(Split(true, 6)) && Fetch(code, 5) == Some(Test(Any))
              && Fetch(code, 6) == Some(Goto(-11))
  {
    hide At, Fetch;
    if !sticky {
      var a, b, c := Split(true, 6), Test(Any), Goto(-11);
      assert Prologue(sticky) == [a] + ([b] + ([c] + []));
      AtCons(code, 0, a, [b] + ([c] + []));
      AtCons(code, 5, b, [c] + []);
      AtCons(code, 6, c, []);
      LenAppend([a], [b] + ([c] + [])); LenAppend([b], [c] + []); LenAppend([c], []);
      One(a); One(b); One(c);
    }
  }

  /** What a run decides. */
  ghost predicate Decides(m: Machine, s: State, t: State) {
    Reaches(m, s, t) && !t.Run? && !t.Stuck?
  }

  /** One attempt at a position: the first match ends the run, no match backtracks. */
  lemma {:induction false} Attempt(n: Node, sticky: bool, subject: Subject, s: State, caps: seq<int>)
    requires ValidSubject(subject) && WellFormed(n, Groups(n))
    requires var m := MachineFor(n, sticky, subject);
             s.Run? && s.pc == Start(sticky) && InText(subject, s.pos) && MemIs(m, s.mem, caps, [])
    ensures var m := MachineFor(n, sticky, subject);
            var rs := Results(subject, n, 1, false, s.pos, SetSlot(caps, 0, s.pos));
            if rs == [] then Reaches(m, s, Backtrack(s.stack))
            else exists mem ::
              Reaches(m, s, Matched(rs[0].pos, mem)) && MemIs(m, mem, SetSlot(rs[0].caps, 1, rs[0].pos), [])
  {
    hide Code, Len, At, Fetch, Explores, Results, Backtrack, Program, MemIs, SetSlot, Write, Step;
    var m := MachineFor(n, sticky, subject);
    ProgramLayout(n, sticky);
    StepSave(m, s, false, 0, caps, []);
    var s1 := Step(m, s);
    ReachesStep(m, s, s1);
    var caps1 := SetSlot(caps, 0, s.pos);
    FitsProgram(n, sticky, subject);
    BlockExplores(m, n, 1, false, s1, caps1, []);
    var rs := Results(subject, n, 1, false, s.pos, caps1);
    var q := s1.pc + Len(Code(n, 1, false, 0));
    if rs == [] {
      ExploresEnd(m, s1, q, s1.stack, []);
      ReachesTrans(m, s, s1, Backtrack(s.stack));
    } else {
      var t := ExploresFirst(m, s1, q, rs, s1.stack, []);
      FinishMatch(m, t, rs[0]);
      var mem := Write(t.mem, 1, rs[0].pos);
      ReachesTrans(m, s, s1, t);
      ReachesTrans(m, s, t, Matched(rs[0].pos, mem));
    }
  }

  lemma FitsProgram(n: Node, sticky: bool, subject: Subject)
    requires ValidSubject(subject) && WellFormed(n, Groups(n))
    ensures Fits(MachineFor(n, sticky, subject), n, 1, false, 0)
  {
  }

  lemma {:induction false} FinishMatch(m: Machine, t: State, r: Res)
    requires t.Run? && t.pos == r.pos && MemIs(m, t.mem, r.caps, []) && m.groups > 0
    requires Fetch(m.code, t.pc) == Some(Save(true, 0)) && Fetch(m.code, t.pc + 2) == Some(Match)
    ensures Reaches(m, t, Matched(r.pos, Write(t.mem, 1, r.pos)))
    ensures MemIs(m, Write(t.mem, 1, r.pos), SetSlot(r.caps, 1, r.pos), [])
  {
    hide Fetch, Write, SetSlot, MemIs;
    StepSave(m, t, true, 0, r.caps, []);
    var t1 := Step(m, t);
    ReachesStep(m, t, t1);
    StepIs(m, t1, Match);
    ReachesStep(m, t1, Matched(r.pos, Write(t.mem, 1, r.pos)));
    ReachesTrans(m, t, t1, Matched(r.pos, Write(t.mem, 1, r.pos)));
  }

  /** The outcome of a run is the one ECMA-262 prescribes: no match, or the match that starts at
      capture 0 with every group as the standard has it. */
  ghost predicate Outcome(m: Machine, t: State, r: Option<(int, MatchState)>) {
    match r
    case None => t == NoMatch
    case Some((start, y)) =>
      && t.Matched? && t.end == y.end && |t.final| == 2 * m.groups + m.regs && |y.captures| == m.groups && m.groups > 0
      && t.final[0] == start && t.final[1] == y.end
      && forall k: nat :: 0 < k < m.groups ==> Strong(t.final, y.captures, k)
  }

  /** The list of matches at one position decides the match that ECMA-262 prescribes there. */
  lemma {:induction false} AttemptAgrees(s: Subject, n: Node, pos: int, caps: seq<int>)
    requires WellFormed(n, Groups(n)) && InText(s, pos) && CountersSuffice(n, 1, false, |s.input| - pos, |s.input|)
    requires |caps| == 2 * Groups(n) && forall i :: 0 <= i < |caps| ==> caps[i] == UNSET
    ensures var rs := Results(s, n, 1, false, pos, SetSlot(caps, 0, pos));
            var r := MatchAt(s, n, pos);
            if rs == [] then r == None
            else r.Some? && rs[0].pos == r.value.end &&
                 |rs[0].caps| == 2 * Groups(n) && |r.value.captures| == Groups(n) &&
                 rs[0].caps[0] == pos &&
                 forall k: nat :: 0 < k < Groups(n) ==> Strong(rs[0].caps, r.value.captures, k)
  {
    hide Results, All, Matcher;
    var g := GroupCount(n);
    var caps1, ec := SetSlot(caps, 0, pos), Undefined(Groups(n));
    var x := MatchState(pos, ec);
    assert Before(caps1, ec, Groups(n), 1, g);
    Agree(s, n, Groups(n), 1, false, |s.input| - pos, pos, caps1, ec);
    var accept := (y: MatchState) => Some(y);
    MatcherTakesFirst(s, n, 1, false, x, accept);
    var rs, ys := Results(s, n, 1, false, pos, caps1), All(s, n, 1, false, x);
    assert FirstSome(ys, accept) == if ys == [] then None else Some(ys[0]);
    if rs != [] {
      assert Pair(caps1, ec, Groups(n), 1, g, rs[0], ys[0]);
      assert !Inside(1, g, 0) && Kept(caps1, ec, rs[0].caps, ys[0].captures, 0);
      forall k: nat | 0 < k < Groups(n) ensures Strong(rs[0].caps, ys[0].captures, k) {
        assert Inside(1, g, k);
      }
    }
  }

  lemma {:induction false} AttemptOutcome(m: Machine, n: Node, pos: int, r: Res, y: MatchState, mem: seq<int>)
    requires m.groups == Groups(n) && MemIs(m, mem, SetSlot(r.caps, 1, r.pos), [])
    requires r.pos == y.end && |r.caps| == 2 * Groups(n) && |y.captures| == Groups(n) && r.caps[0] == pos
    requires forall k: nat :: 0 < k < Groups(n) ==> Strong(r.caps, y.captures, k)
    ensures Outcome(m, Matched(r.pos, mem), Some((pos, y)))
  {
    var c := SetSlot(r.caps, 1, r.pos);
    assert forall i :: 0 <= i < |c| ==> mem[i] == c[i];
    forall k: nat | 0 < k < m.groups ensures Strong(mem, y.captures, k) {
      assert Strong(r.caps, y.captures, k);
      assert mem[2 * k] == r.caps[2 * k] && mem[2 * k + 1] == r.caps[2 * k + 1];
    }
  }

  /** Running the program of a pattern halts, with the outcome that ECMA-262 prescribes. */
  lemma {:induction false} ProgramDecides(n: Node, sticky: bool, subject: Subject, index: int, mem: seq<int>)
      returns (t: State)
    requires ValidSubject(subject) && WellFormed(n, Groups(n)) && InText(subject, index)
        && CountersSuffice(n, 1, false, |subject.input| - index, |subject.input|)
    requires InitialMemory(MachineFor(n, sticky, subject), mem)
    ensures Decides(MachineFor(n, sticky, subject), Run(0, index, mem, []), t)
    ensures Outcome(MachineFor(n, sticky, subject), t, Search(subject, n, sticky, index))
    decreases |subject.input| - index
  {
    hide Code, Len, At, Fetch, Results, Program, SetSlot, Outcome, Reaches, Strong, MatchAt, Step;
    var m := MachineFor(n, sticky, subject);
    var caps := mem[..2 * m.groups];
    var k := if sticky then [] else [Frame(5, index, SplitFrame, mem)];
    var s0, s1 := Run(0, index, mem, []), Run(Start(sticky), index, mem, k);
    Enter(n, sticky, subject, index, mem);
    Attempt(n, sticky, subject, s1, caps);
    AttemptAgrees(subject, n, index, caps);
    var rs := Results(subject, n, 1, false, index, SetSlot(caps, 0, index));
    if rs != [] {
      var mem1 :| Reaches(m, s1, Matched(rs[0].pos, mem1)) && MemIs(m, mem1, SetSlot(rs[0].caps, 1, rs[0].pos), []);
      t := Matched(rs[0].pos, mem1);
      AttemptOutcome(m, n, index, rs[0], MatchAt(subject, n, index).value, mem1);
      ReachesTrans(m, s0, s1, t);
    } else if sticky {
      t := NoMatch;
      OutcomeNone(m);
      ReachesTrans(m, s0, s1, t);
    } else {
      BacktrackSplit([], Frame(5, index, SplitFrame, mem));
      assert [] + k == k;
      var s2 := Run(5, index, mem, []);
      ReachesTrans(m, s0, s1, s2);
      if index == |subject.input| {
        t := NoMatch;
        OutcomeNone(m);
        LastPosition(n, subject, index, mem);
      } else {
        NextPosition(n, subject, index, mem);
        SufficeLess(n, 1, false, |subject.input| - index, |subject.input| - index - 1, |subject.input|);
        t := ProgramDecides(n, sticky, subject, index + 1, mem);
        ReachesTrans(m, s2, Run(0, index + 1, mem, []), t);
      }
      ReachesTrans(m, s0, s2, t);
    }
  }

  /** Fewer characters need less of the counters. */
  lemma {:induction false} SufficeLess(n: Node, lo: nat, back: bool, left: nat, less: nat, whole: nat)
    requires CountersSuffice(n, lo, back, left, whole) && less <= left
    ensures CountersSuffice(n, lo, back, less, whole)
    decreases n
  {
    hide BodyNeedsCheck, CountsDown;
    match n
    case Seq(l, r) =>
      SufficeLess(l, lo, back, left, less, whole);
      SufficeLess(r, lo + GroupCount(l), back, left, less, whole);
    case Alt(l, r) =>
      SufficeLess(l, lo, back, left, less, whole);
      SufficeLess(r, lo + GroupCount(l), back, left, less, whole);
    case Quant(b, _, _, _) => SufficeLess(b, lo, back, left, less, whole);
    case Group(b) => SufficeLess(b, lo + 1, back, left, less, whole);
    case Look(_, behind, b) =>
      if behind == back {
        SufficeLess(b, lo, behind, left, less, whole);
      }
    case _ =>
  }

  lemma OutcomeNone(m: Machine)
    ensures Outcome(m, NoMatch, None)
  {
  }

  /** The prologue saves the next position and enters the pattern. */
  lemma {:induction false} Enter(n: Node, sticky: bool, subject: Subject, index: int, mem: seq<int>)
    ensures var k := if sticky then [] else [Frame(5, index, SplitFrame, mem)];
            Reaches(MachineFor(n, sticky, subject), Run(0, index, mem, []), Run(Start(sticky), index, mem, k))
  {
    hide Code, Program, Fetch, Step, Reaches;
    var m, s := MachineFor(n, sticky, subject), Run(0, index, mem, []);
    ProgramLayout(n, sticky);
    if sticky {
      ReachesSelf(m, s);
    } else {
      StepSplit(m, s, true, 6);
      assert [] + [Frame(5, index, SplitFrame, mem)] == [Frame(5, index, SplitFrame, mem)];
      ReachesStep(m, s, Step(m, s));
    }
  }

  lemma {:induction false} NextPosition(n: Node, subject: Subject, index: int, mem: seq<int>)
    requires 0 <= index < |subject.input|
    ensures Reaches(MachineFor(n, false, subject), Run(5, index, mem, []), Run(0, index + 1, mem, []))
  {
    hide Code, Program, Fetch, Reaches;
    var m, s, s1 := MachineFor(n, false, subject), Run(5, index, mem, []), Run(6, index + 1, mem, []);
    ProgramLayout(n, false);
    StepIs(m, s, Test(Any));
    ReachesStep(m, s, s1);
    StepIs(m, s1, Goto(-11));
    ReachesStep(m, s1, Run(0, index + 1, mem, []));
    ReachesTrans(m, s, s1, Run(0, index + 1, mem, []));
  }

  lemma {:induction false} LastPosition(n: Node, subject: Subject, index: int, mem: seq<int>)
    requires index == |subject.input|
    ensures Reaches(MachineFor(n, false, subject), Run(5, index, mem, []), NoMatch)
  {
    hide Code, Program, Fetch, Reaches;
    var m, s := MachineFor(n, false, subject), Run(5, index, mem, []);
    ProgramLayout(n, false);
    StepIs(m, s, Test(Any));
    ReachesStep(m, s, NoMatch);
  }
}
