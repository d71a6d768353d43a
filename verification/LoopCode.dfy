/** The quantifier templates: a loop around a body whose code explores the matches of the body
    explores the matches of the quantified pattern. */
module LoopCode {
  import opened RegexSyntax
  import opened Ecma
  import opened MatchLists
  import opened Bytecode
  import opened RawMatch
  import opened RawMatchFacts
  import opened SnapshotMachine
  import opened Exploration
  import opened BlockBasics

  // ---- quantifiers ----

  /** The body of a loop: an optional reset of its groups, then its code. */
  function BodyCode(b: Node, lo: nat, back: bool, needInit: bool, d: nat): seq<Instr> {
    If(needInit, ResetCode(lo, GroupCount(b))) + Code(b, lo, back, d)
  }

  /** The registers live in the body: one more when the start position is kept. */
  function WithStart(check: bool, live: seq<int>, pos: int): (r: seq<int>)
    ensures |r| == |live| + B(check) && live <= r
  {
    if check then live + [pos] else live
  }

  /** A loop body at byte `pc`, after an optional `set_char_pos`. */
  predicate BodyAt(m: Machine, pc: int, b: Node, lo: nat, back: bool, needInit: bool, check: bool, d: nat) {
    && (check ==> Fetch(m.code, pc) == Some(SetCharPos(d)))
    && At(m.code, pc + 2 * B(check), BodyCode(b, lo, back, needInit, d + B(check)))
  }

  function BodyEnd(pc: int, b: Node, lo: nat, back: bool, needInit: bool, check: bool, d: nat): int {
    pc + 2 * B(check) + Len(BodyCode(b, lo, back, needInit, d + B(check)))
  }

  ghost predicate FitsBody(m: Machine, b: Node, lo: nat, back: bool, check: bool, d: nat) {
    d + B(check) <= m.regs && Fits(m, b, lo, back, d + B(check))
  }

  lemma {:induction false} StepReset(m: Machine, s: State, lo: nat, n: nat, caps: seq<int>, live: seq<int>)
    requires n > 0 && lo + n <= m.groups
    requires s.Run? && Fetch(m.code, s.pc) == Some(Reset(lo, lo + n - 1)) && MemIs(m, s.mem, caps, live)
    ensures Step(m, s) == Run(s.pc + 3, s.pos, ClearSlots(s.mem, lo, lo + n - 1), s.stack)
    ensures MemIs(m, ClearSlots(s.mem, lo, lo + n - 1), ResetCaps(caps, lo, n), live)
  {
    ClearCaptures(m, s.mem, caps, live, lo, n);
  }

  /** An optional reset block clears the groups and falls through. */
  lemma {:induction false} ResetRuns(m: Machine, s: State, on: bool, lo: nat, n: nat, caps: seq<int>, live: seq<int>)
      returns (s1: State)
    requires Ready(m, s, If(on, ResetCode(lo, n)), caps, live) && lo + n <= m.groups
    ensures Reaches(m, s, s1) && s1.Run? && s1.pc == s.pc + Len(If(on, ResetCode(lo, n))) && s1.pos == s.pos
        && s1.stack == s.stack
    ensures MemIs(m, s1.mem, if on then ResetCaps(caps, lo, n) else caps, live)
  {
    if on && n > 0 {
      var i := Reset(lo, lo + n - 1);
      assert ResetCode(lo, n) == [i] == [i] + [];
      One(i);
      AtCons(m.code, s.pc, i, []);
      StepReset(m, s, lo, n, caps, live);
      s1 := Step(m, s);
      ReachesStep(m, s, s1);
    } else {
      s1 := s;
      ReachesSelf(m, s);
      assert ResetCaps(caps, lo, 0) == caps;
    }
  }

  lemma FitsGroups(m: Machine, b: Node, lo: nat, back: bool, d: nat)
    requires Fits(m, b, lo, back, d)
    ensures lo + GroupCount(b) <= m.groups
  {
  }

  lemma {:induction false} UseBlock(m: Machine, b: Node, lo: nat, back: bool, s: State, caps: seq<int>, live: seq<int>)
    requires BlockWorks(m, b, lo, back) && Fits(m, b, lo, back, |live|)
        && Ready(m, s, Code(b, lo, back, |live|), caps, live)
    ensures Explores(m, s, s.pc + Len(Code(b, lo, back, |live|)), Results(m.subject, b, lo, back, s.pos, caps), s.stack,
        live)
  {
    hide Code, Results, Explores, Len, Fits, Ready;
  }

  lemma {:induction false} BodyExplores(m: Machine, b: Node, lo: nat, back: bool, needInit: bool, s: State,
      caps: seq<int>, live: seq<int>)
    requires BlockWorks(m, b, lo, back)
    requires Fits(m, b, lo, back, |live|) && Ready(m, s, BodyCode(b, lo, back, needInit, |live|), caps, live)
    ensures Explores(m, s, s.pc + Len(BodyCode(b, lo, back, needInit, |live|)),
                     Results(m.subject, b, lo, back, s.pos, IterationCaps(b, lo, needInit, caps)), s.stack, live)
  {
    hide At, Len, Code, Results, Explores, MemIs, Fits, ResetCaps, ResetCode, BlockWorks, GroupCount;
    FitsGroups(m, b, lo, back, |live|);
    var c1, c2 := If(needInit, ResetCode(lo, GroupCount(b))), Code(b, lo, back, |live|);
    AtAppend(m.code, s.pc, c1, c2);
    LenAppend(c1, c2);
    var s1 := ResetRuns(m, s, needInit, lo, GroupCount(b), caps, live);
    var caps1 := IterationCaps(b, lo, needInit, caps);
    UseBlock(m, b, lo, back, s1, caps1, live);
    ExploresAfter(m, s, s1, s1.pc + Len(c2), Results(m.subject, b, lo, back, s.pos, caps1), s.stack, live);
  }

  lemma {:induction false} StepSetPos(m: Machine, s: State, caps: seq<int>, live: seq<int>)
    requires s.Run? && Fetch(m.code, s.pc) == Some(SetCharPos(|live|)) && MemIs(m, s.mem, caps, live) && |live| < m.regs
    ensures Step(m, s) == Run(s.pc + 2, s.pos, Write(s.mem, RegSlot(m, |live|), s.pos), s.stack)
    ensures MemIs(m, Write(s.mem, RegSlot(m, |live|), s.pos), caps, live + [s.pos])
  {
    WriteNewRegister(m, s.mem, caps, live, s.pos);
  }

  /** The body, entered through an optional `set_char_pos`. */
  lemma {:induction false} CheckedBody(m: Machine, b: Node, lo: nat, back: bool, needInit: bool, check: bool, s: State,
                                       caps: seq<int>, live: seq<int>)
    requires s.Run? && InText(m.subject, s.pos) && MemIs(m, s.mem, caps, live)
    requires BlockWorks(m, b, lo, back) && FitsBody(m, b, lo, back, check, |live|)
        && BodyAt(m, s.pc, b, lo, back, needInit, check, |live|)
    ensures Explores(m, s, BodyEnd(s.pc, b, lo, back, needInit, check, |live|),
                     Results(m.subject, b, lo, back, s.pos, IterationCaps(b, lo, needInit, caps)), s.stack,
                     WithStart(check, live, s.pos))
  {
    hide At, Len, Results, Explores, MemIs, Fits, ResetCaps, BodyCode, Step, Write, Fetch;
    if check {
      StepSetPos(m, s, caps, live);
      BodyExplores(m, b, lo, back, needInit, Step(m, s), caps, live + [s.pos]);
      StepThen(m, s, BodyEnd(s.pc, b, lo, back, needInit, check, |live|),
               Results(m.subject, b, lo, back, s.pos, IterationCaps(b, lo, needInit, caps)), s.stack, live + [s.pos]);
    } else {
      BodyExplores(m, b, lo, back, needInit, s, caps, live);
    }
  }

  /** What is known of a match `r` of a loop body entered at `pos`: it does not go back, and it moves
      when the compiler found the advance check unnecessary. */
  predicate BodyMatch(m: Machine, back: bool, check: bool, pos: int, r: Res) {
    InText(m.subject, r.pos) && NotBehind(m.subject, back, pos, r.pos)
      && (!check ==> Advances(m.subject, back, pos, r.pos))
  }

  lemma {:induction false} BodyMatches(m: Machine, b: Node, lo: nat, back: bool, check: bool, d: nat, pos: int,
      caps: seq<int>)
    requires InText(m.subject, pos) && FitsBody(m, b, lo, back, check, d)
    ensures forall r ::
        r in Results(m.subject, b, lo, back, pos, caps) ==> BodyMatch(m, back, BodyNeedsCheck(b, lo, back), pos, r)
  {
    hide Results, BodyNeedsCheck, GroupCount, RegCount;
    ResultsInText(m.subject, b, lo, back, pos, caps);
    AdvanceScanSound(m.subject, b, lo, back, pos, caps, m.groups);
  }

  lemma {:induction false} StepCheck(m: Machine, t: State, d: nat, live: seq<int>, r: Res, pos: int)
    requires t.Run? && Fetch(m.code, t.pc) == Some(CheckAdvance(|live|)) && d == |live|
    requires MemIs(m, t.mem, r.caps, live + [pos])
    ensures Step(m, t) == if t.pos == pos then Backtrack(t.stack) else Run(t.pc + 2, t.pos, t.mem, t.stack)
    ensures MemIs(m, t.mem, r.caps, live)
  {
    WriteRegister(m, t.mem, r.caps, live + [pos], |live|, 0);
    ForgetRegisters(m, t.mem, r.caps, live, live + [pos]);
  }

  /** An optional `check_advance` after a loop body drops the matches that did not move. */
  lemma {:induction false} CheckResumes(m: Machine, back: bool, check: bool, pos: int, q1: int, r: Res, live: seq<int>,
                                        q: int, out: seq<Res>)
    requires BodyMatch(m, back, check, pos, r)
    requires check ==> Fetch(m.code, q1) == Some(CheckAdvance(|live|))
    requires Advances(m.subject, back, pos, r.pos) ==> Resumes(m, q1 + 2 * B(check), r, live, q, out, live)
    ensures Resumes(m, q1, r, WithStart(check, live, pos), q, if Advances(m.subject, back, pos,
        r.pos) then out else [], live)
  {
    hide Explores, MemIs, Fetch, Step, Backtrack, OnlySplits;
    var result := if Advances(m.subject, back, pos, r.pos) then out else [];
    forall t: State | t.Run? && Offers(m, t, q1, r, t.stack, WithStart(check, live, pos))
      ensures Explores(m, t, q, result, t.stack, live)
    {
      if check {
        StepCheck(m, t, |live|, live, r, pos);
        if r.pos == pos {
          StepFails(m, t, q, live);
        } else {
          assert Offers(m, Step(m, t), q1 + 2, r, Step(m, t).stack, live);
          StepThen(m, t, q, out, t.stack, live);
        }
      } else {
        assert Offers(m, t, q1, r, t.stack, live);
      }
    }
  }

  // ---- x? and x* ----

  /** `x*` from its split on. */
  predicate StarAt(m: Machine, pc: int, b: Node, lo: nat, back: bool, needInit: bool, check: bool, greedy: bool,
      d: nat) {
    var q1 := BodyEnd(pc + 5, b, lo, back, needInit, check, d);
    var q := q1 + 2 * B(check) + 5;
    && Fetch(m.code, pc) == Some(Split(!greedy, q - (pc + 5)))
    && BodyAt(m, pc + 5, b, lo, back, needInit, check, d)
    && (check ==> Fetch(m.code, q1) == Some(CheckAdvance(d)))
    && Fetch(m.code, q1 + 2 * B(check)) == Some(Goto(pc - q))
  }

  /** One round of a loop: the body, and what the code after it makes of each match. */
  lemma {:induction false} RoundExplores(m: Machine, b: Node, lo: nat, back: bool, needInit: bool, check: bool,
      min: nat, max: Bound,
                                         greedy: bool, s: State, caps: seq<int>, live1: seq<int>, q: int,
                                           live: seq<int>)
    requires s.Run? && InText(m.subject, s.pos) && MemIs(m, s.mem, caps, live1) && !BoundIsZero(max)
    requires BlockWorks(m, b, lo, back) && FitsBody(m, b, lo, back, check, |live1|)
        && BodyAt(m, s.pc, b, lo, back, needInit, check, |live1|)
    requires forall r :: r in Results(m.subject, b, lo, back, s.pos, IterationCaps(b, lo, needInit, caps)) ==>
               Resumes(m, BodyEnd(s.pc, b, lo, back, needInit, check, |live1|), r, WithStart(check, live1, s.pos), q,
                       NextRound(m.subject, b, lo, back, needInit, min, max, greedy, s.pos)(r), live)
    ensures Explores(m, s, q, FlatMap(Results(m.subject, b, lo, back, s.pos, IterationCaps(b, lo, needInit, caps)),
                                      NextRound(m.subject, b, lo, back, needInit, min, max, greedy, s.pos)), s.stack,
                                        live)
  {
    hide *;
    var rs := Results(m.subject, b, lo, back, s.pos, IterationCaps(b, lo, needInit, caps));
    CheckedBody(m, b, lo, back, needInit, check, s, caps, live1);
    ExploresThen(m, s, BodyEnd(s.pc, b, lo, back, needInit, check, |live1|), rs, s.stack,
      WithStart(check, live1, s.pos), q,
                 NextRound(m.subject, b, lo, back, needInit, min, max, greedy, s.pos), live);
  }

  lemma {:induction false} StarExplores(m: Machine, b: Node, lo: nat, back: bool, needInit: bool, check: bool,
      greedy: bool,
                                        s: State, caps: seq<int>, live: seq<int>)
    requires s.Run? && InText(m.subject, s.pos) && MemIs(m, s.mem, caps, live)
    requires BlockWorks(m, b, lo, back) && FitsBody(m, b, lo, back, check, |live|)
        && check == BodyNeedsCheck(b, lo, back)
    requires StarAt(m, s.pc, b, lo, back, needInit, check, greedy, |live|)
    ensures Explores(m, s, BodyEnd(s.pc + 5, b, lo, back, needInit, check, |live|) + 2 * B(check) + 5,
                     Repeats(m.subject, b, lo, back, needInit, 0, Inf, greedy, s.pos, caps), s.stack, live)
    decreases Remaining(m.subject, back, s.pos), 3
  {
    hide At, Results, Explores, MemIs, Fits, BodyCode, Step, Fetch, Repeats, BodyNeedsCheck, BodyEnd, BodyAt, FlatMap,
      IterationCaps;
    hide Offers, OnlySplits, Resumes, NextRound, AfterBody, Backtrack, FitsBody;
    var q := BodyEnd(s.pc + 5, b, lo, back, needInit, check, |live|) + 2 * B(check) + 5;
    var k := if greedy then s.stack + [Frame(q, s.pos, SplitFrame, s.mem)] else s.stack;
    var s1 := Run(s.pc + 5, s.pos, s.mem, k);
    StarResumes(m, b, lo, back, needInit, check, greedy, s.pc, s.pos, caps, live);
    RoundExplores(m, b, lo, back, needInit, check, 0, Inf, greedy, s1, caps, live, q, live);
    RepeatsShape(m.subject, b, lo, back, needInit, 0, Inf, greedy, s.pos, caps);
    var iter := FlatMap(Results(m.subject, b, lo, back, s.pos, IterationCaps(b, lo, needInit, caps)),
                        NextRound(m.subject, b, lo, back, needInit, 0, Inf, greedy, s.pos));
    Choice(m, s.pc + 5, q, greedy, s.pos, s.mem, s.stack, iter, caps, live);
    StepSplit(m, s, !greedy, q - (s.pc + 5));
    StepThen(m, s, q, Repeats(m.subject, b, lo, back, needInit, 0, Inf, greedy, s.pos, caps), s.stack, live);
  }

  lemma {:induction false} StarResumes(m: Machine, b: Node, lo: nat, back: bool, needInit: bool, check: bool,
      greedy: bool,
                                       pc: int, pos: int, caps: seq<int>, live: seq<int>)
    requires InText(m.subject, pos)
    requires BlockWorks(m, b, lo, back) && FitsBody(m, b, lo, back, check, |live|)
        && check == BodyNeedsCheck(b, lo, back)
    requires StarAt(m, pc, b, lo, back, needInit, check, greedy, |live|)
    ensures var q1 := BodyEnd(pc + 5, b, lo, back, needInit, check, |live|);
            forall r :: r in Results(m.subject, b, lo, back, pos, IterationCaps(b, lo, needInit, caps)) ==>
              Resumes(m, q1, r, WithStart(check, live, pos), q1 + 2 * B(check) + 5,
                      NextRound(m.subject, b, lo, back, needInit, 0, Inf, greedy, pos)(r), live)
    decreases Remaining(m.subject, back, pos), 2
  {
    hide *;
    var q1 := BodyEnd(pc + 5, b, lo, back, needInit, check, |live|);
    var caps1 := IterationCaps(b, lo, needInit, caps);
    BodyMatches(m, b, lo, back, check, |live|, pos, caps1);
    InfiniteBound();
    forall r | r in Results(m.subject, b, lo, back, pos, caps1)
      ensures Resumes(m, q1, r, WithStart(check, live, pos), q1 + 2 * B(check) + 5,
                      NextRound(m.subject, b, lo, back, needInit, 0, Inf, greedy, pos)(r), live)
    {
      StarNext(m, b, lo, back, needInit, check, greedy, pc, pos, r, live);
    }
  }

  lemma {:induction false} StarNext(m: Machine, b: Node, lo: nat, back: bool, needInit: bool, check: bool, greedy: bool,
                                    pc: int, pos: int, r: Res, live: seq<int>)
    requires BodyMatch(m, back, check, pos, r)
    requires BlockWorks(m, b, lo, back) && FitsBody(m, b, lo, back, check, |live|)
        && check == BodyNeedsCheck(b, lo, back)
    requires StarAt(m, pc, b, lo, back, needInit, check, greedy, |live|)
    ensures var q1 := BodyEnd(pc + 5, b, lo, back, needInit, check, |live|);
            Resumes(m, q1, r, WithStart(check, live, pos), q1 + 2 * B(check) + 5,
                    NextRound(m.subject, b, lo, back, needInit, 0, Inf, greedy, pos)(r), live)
    decreases Remaining(m.subject, back, pos), 1
  {
    InfiniteBound();
    hide Fetch, Repeats, BodyNeedsCheck, BodyEnd, Resumes, FitsBody, NextRound, StarAt, BlockWorks, WithStart, Advances,
      NotBehind, InText;
    if check { StarCheck(m, pc, b, lo, back, needInit, check, greedy, |live|); }
    NextRoundIs(m.subject, b, lo, back, needInit, 0, Inf, greedy, pos, r);
    var q1 := BodyEnd(pc + 5, b, lo, back, needInit, check, |live|);
    var out := Repeats(m.subject, b, lo, back, needInit, 0, Inf, greedy, r.pos, r.caps);
    if Advances(m.subject, back, pos, r.pos) {
      StarAgain(m, b, lo, back, needInit, check, greedy, pc, pos, r, live);
    }
    CheckResumes(m, back, check, pos, q1, r, live, q1 + 2 * B(check) + 5, out);
  }

  lemma StarCheck(m: Machine, pc: int, b: Node, lo: nat, back: bool, needInit: bool, check: bool, greedy: bool, d: nat)
    requires StarAt(m, pc, b, lo, back, needInit, check, greedy, d) && check
    ensures Fetch(m.code, BodyEnd(pc + 5, b, lo, back, needInit, check, d)) == Some(CheckAdvance(d))
  {
    hide BodyEnd, BodyAt, Fetch;
  }

  lemma {:induction false} StarAgain(m: Machine, b: Node, lo: nat, back: bool, needInit: bool, check: bool,
      greedy: bool,
                                     pc: int, pos: int, r: Res, live: seq<int>)
    requires InText(m.subject, r.pos) && Advances(m.subject, back, pos, r.pos)
    requires BlockWorks(m, b, lo, back) && FitsBody(m, b, lo, back, check, |live|)
        && check == BodyNeedsCheck(b, lo, back)
    requires StarAt(m, pc, b, lo, back, needInit, check, greedy, |live|)
    ensures var q := BodyEnd(pc + 5, b, lo, back, needInit, check, |live|) + 2 * B(check) + 5;
            Resumes(m, q - 5, r, live, q, Repeats(m.subject, b, lo, back, needInit, 0, Inf, greedy, r.pos, r.caps),
              live)
    decreases Remaining(m.subject, back, pos), 0
  {
    hide At, Explores, MemIs, Fits, BodyCode, Fetch, Repeats, BodyNeedsCheck, BodyEnd, BodyAt, OnlySplits, Backtrack;
    var q := BodyEnd(pc + 5, b, lo, back, needInit, check, |live|) + 2 * B(check) + 5;
    var out := Repeats(m.subject, b, lo, back, needInit, 0, Inf, greedy, r.pos, r.caps);
    forall t: State | t.Run? && Offers(m, t, q - 5, r, t.stack, live)
      ensures Explores(m, t, q, out, t.stack, live)
    {
      var t1 := Run(pc, r.pos, t.mem, t.stack);
      StepIs(m, t, Goto(pc - q));
      StarExplores(m, b, lo, back, needInit, check, greedy, t1, r.caps, live);
      StepThen(m, t, q, out, t.stack, live);
    }
  }

  /** `x?` from its split on. */
  predicate OptionalAt(m: Machine, pc: int, b: Node, lo: nat, back: bool, needInit: bool, check: bool, greedy: bool,
      d: nat) {
    var q1 := BodyEnd(pc + 5, b, lo, back, needInit, check, d);
    && Fetch(m.code, pc) == Some(Split(!greedy, q1 + 2 * B(check) - (pc + 5)))
    && BodyAt(m, pc + 5, b, lo, back, needInit, check, d)
    && (check ==> Fetch(m.code, q1) == Some(CheckAdvance(d)))
  }

  lemma {:induction false} OptionalExplores(m: Machine, b: Node, lo: nat, back: bool, needInit: bool, check: bool,
      greedy: bool,
                                            s: State, caps: seq<int>, live: seq<int>)
    requires s.Run? && InText(m.subject, s.pos) && MemIs(m, s.mem, caps, live)
    requires BlockWorks(m, b, lo, back) && FitsBody(m, b, lo, back, check, |live|)
        && check == BodyNeedsCheck(b, lo, back)
    requires OptionalAt(m, s.pc, b, lo, back, needInit, check, greedy, |live|)
    ensures Explores(m, s, BodyEnd(s.pc + 5, b, lo, back, needInit, check, |live|) + 2 * B(check),
                     Repeats(m.subject, b, lo, back, needInit, 0, Fin(1), greedy, s.pos, caps), s.stack, live)
  {
    hide *;
    var q1 := BodyEnd(s.pc + 5, b, lo, back, needInit, check, |live|);
    var q := q1 + 2 * B(check);
    var caps1 := IterationCaps(b, lo, needInit, caps);
    BodyMatches(m, b, lo, back, check, |live|, s.pos, caps1);
    PositiveBound(1);
    forall r | r in Results(m.subject, b, lo, back, s.pos, caps1)
      ensures Resumes(m, q1, r, WithStart(check, live, s.pos), q,
                      NextRound(m.subject, b, lo, back, needInit, 0, Fin(1), greedy, s.pos)(r), live)
    {
      OptionalNext(m, b, lo, back, needInit, check, greedy, s.pc, s.pos, r, live);
    }
    OptionalChoice(m, b, lo, back, needInit, check, greedy, s, caps, live, q);
  }

  /** A split whose first or second target runs the body. */
  lemma {:induction false} OptionalChoice(m: Machine, b: Node, lo: nat, back: bool, needInit: bool, check: bool,
      greedy: bool,
                                          s: State, caps: seq<int>, live: seq<int>, q: int)
    requires s.Run? && InText(m.subject, s.pos) && MemIs(m, s.mem, caps, live)
    requires BlockWorks(m, b, lo, back) && FitsBody(m, b, lo, back, check, |live|)
    requires q == BodyEnd(s.pc + 5, b, lo, back, needInit, check, |live|) + 2 * B(check)
    requires OptionalAt(m, s.pc, b, lo, back, needInit, check, greedy, |live|)
    requires forall r :: r in Results(m.subject, b, lo, back, s.pos, IterationCaps(b, lo, needInit, caps)) ==>
               Resumes(m, BodyEnd(s.pc + 5, b, lo, back, needInit, check, |live|), r, WithStart(check, live, s.pos), q,
                       NextRound(m.subject, b, lo, back, needInit, 0, Fin(1), greedy, s.pos)(r), live)
    ensures Explores(m, s, q, Repeats(m.subject, b, lo, back, needInit, 0, Fin(1), greedy, s.pos, caps), s.stack, live)
  {
    hide At, Results, Explores, MemIs, Fits, BodyCode, Step, Fetch, Repeats, BodyNeedsCheck, BodyEnd, BodyAt, FlatMap,
      IterationCaps;
    hide Offers, OnlySplits, Resumes, NextRound, AfterBody, Backtrack, FitsBody, BlockWorks;
    var k := if greedy then s.stack + [Frame(q, s.pos, SplitFrame, s.mem)] else s.stack;
    var s1 := Run(s.pc + 5, s.pos, s.mem, k);
    RoundExplores(m, b, lo, back, needInit, check, 0, Fin(1), greedy, s1, caps, live, q, live);
    RepeatsShape(m.subject, b, lo, back, needInit, 0, Fin(1), greedy, s.pos, caps);
    var iter := FlatMap(Results(m.subject, b, lo, back, s.pos, IterationCaps(b, lo, needInit, caps)),
                        NextRound(m.subject, b, lo, back, needInit, 0, Fin(1), greedy, s.pos));
    Choice(m, s.pc + 5, q, greedy, s.pos, s.mem, s.stack, iter, caps, live);
    StepSplit(m, s, !greedy, q - (s.pc + 5));
    StepThen(m, s, q, Repeats(m.subject, b, lo, back, needInit, 0, Fin(1), greedy, s.pos, caps), s.stack, live);
  }

  /** A state that offers `r` at `q` explores just `r` there. */
  lemma {:induction false} ResumesHere(m: Machine, q: int, r: Res, live: seq<int>)
    ensures Resumes(m, q, r, live, q, [r], live)
  {
    hide Explores, MemIs;
    forall t: State | t.Run? && Offers(m, t, q, r, t.stack, live)
      ensures Explores(m, t, q, [r], t.stack, live)
    {
      ExploresOne(m, t, q, r, t.stack, live);
    }
  }

  lemma {:induction false} RepeatsDone(s: Subject, b: Node, lo: nat, back: bool, needInit: bool, min: nat, greedy: bool,
      r: Res)
    ensures Repeats(s, b, lo, back, needInit, min, Fin(0), greedy, r.pos, r.caps) == [r]
  {
  }

  lemma {:induction false} OptionalNext(m: Machine, b: Node, lo: nat, back: bool, needInit: bool, check: bool,
      greedy: bool,
                                        pc: int, pos: int, r: Res, live: seq<int>)
    requires BodyMatch(m, back, check, pos, r)
    requires OptionalAt(m, pc, b, lo, back, needInit, check, greedy, |live|)
    ensures var q1 := BodyEnd(pc + 5, b, lo, back, needInit, check, |live|);
            Resumes(m, q1, r, WithStart(check, live, pos), q1 + 2 * B(check),
                    NextRound(m.subject, b, lo, back, needInit, 0, Fin(1), greedy, pos)(r), live)
  {
    NextRoundIs(m.subject, b, lo, back, needInit, 0, Fin(1), greedy, pos, r);
    hide Fetch, Repeats, BodyNeedsCheck, BodyEnd, BodyAt, Resumes, FitsBody, NextRound, AfterBody;
    var q1 := BodyEnd(pc + 5, b, lo, back, needInit, check, |live|);
    RepeatsDone(m.subject, b, lo, back, needInit, 0, greedy, r);
    ResumesHere(m, q1 + 2 * B(check), r, live);
    CheckResumes(m, back, check, pos, q1, r, live, q1 + 2 * B(check), [r]);
  }

  // ---- x+ without an advance check ----

  /** The body and the split back to it. */
  predicate PlusAt(m: Machine, pc: int, b: Node, lo: nat, back: bool, needInit: bool, greedy: bool, d: nat) {
    var q1 := BodyEnd(pc, b, lo, back, needInit, false, d);
    && BodyAt(m, pc, b, lo, back, needInit, false, d)
    && Fetch(m.code, q1) == Some(Split(greedy, pc - (q1 + 5)))
  }

  ghost function Rounds(s: Subject, b: Node, lo: nat, back: bool, needInit: bool, min: nat, max: Bound, greedy: bool,
                        pos: int, caps: seq<int>): seq<Res>
    requires !BoundIsZero(max)
  {
    FlatMap(Results(s, b, lo, back, pos, IterationCaps(b, lo, needInit, caps)),
            NextRound(s, b, lo, back, needInit, min, max, greedy, pos))
  }

  lemma {:induction false} RoundsShape(s: Subject, b: Node, lo: nat, back: bool, needInit: bool, min: nat, max: Bound,
      greedy: bool,
                                       pos: int, caps: seq<int>)
    requires !BoundIsZero(max)
    ensures Rounds(s, b, lo, back, needInit, min, max, greedy, pos, caps) ==
            FlatMap(Results(s, b, lo, back, pos, IterationCaps(b, lo, needInit, caps)),
                    NextRound(s, b, lo, back, needInit, min, max, greedy, pos))
  {
    hide FlatMap, Results, NextRound, IterationCaps;
  }

  lemma NoStart(live: seq<int>, pos: int)
    ensures WithStart(false, live, pos) == live
  {
  }

  lemma PositiveBound(c: nat)
    requires c > 0
    ensures !BoundIsZero(Fin(c))
  {
  }

  lemma InfiniteBound()
    ensures !BoundIsZero(Inf)
  {
  }

  lemma {:induction false} ResumesIntro(m: Machine, q1: int, r: Res, live1: seq<int>, q: int, out: seq<Res>,
      live: seq<int>)
    requires forall t: State {:trigger Offers(m, t, q1, r, t.stack, live1)} ::
               t.Run? && Offers(m, t, q1, r, t.stack, live1) ==> Explores(m, t, q, out, t.stack, live)
    ensures Resumes(m, q1, r, live1, q, out, live)
  {
    hide Offers, Explores;
  }

  lemma PlusBody(m: Machine, pc: int, b: Node, lo: nat, back: bool, needInit: bool, greedy: bool, d: nat)
    requires PlusAt(m, pc, b, lo, back, needInit, greedy, d)
    ensures BodyAt(m, pc, b, lo, back, needInit, false, d)
  {
    hide BodyAt, BodyEnd;
  }

  lemma {:induction false} PlusExplores(m: Machine, b: Node, lo: nat, back: bool, needInit: bool, min: nat,
      greedy: bool,
                                        s: State, caps: seq<int>, live: seq<int>)
    requires s.Run? && InText(m.subject, s.pos) && MemIs(m, s.mem, caps, live) && min <= 1
    requires BlockWorks(m, b, lo, back) && FitsBody(m, b, lo, back, false, |live|) && !BodyNeedsCheck(b, lo, back)
    requires PlusAt(m, s.pc, b, lo, back, needInit, greedy, |live|)
    ensures Explores(m, s, BodyEnd(s.pc, b, lo, back, needInit, false, |live|) + 5,
                     Rounds(m.subject, b, lo, back, needInit, min, Inf, greedy, s.pos, caps), s.stack, live)
    decreases Remaining(m.subject, back, s.pos), 1
  {
    hide *;
    var q := BodyEnd(s.pc, b, lo, back, needInit, false, |live|) + 5;
    var caps1 := IterationCaps(b, lo, needInit, caps);
    PlusBody(m, s.pc, b, lo, back, needInit, greedy, |live|);
    NoStart(live, s.pos);
    InfiniteBound();
    RoundsShape(m.subject, b, lo, back, needInit, min, Inf, greedy, s.pos, caps);
    BodyMatches(m, b, lo, back, false, |live|, s.pos, caps1);
    forall r | r in Results(m.subject, b, lo, back, s.pos, caps1)
      ensures Resumes(m, q - 5, r, live, q, NextRound(m.subject, b, lo, back, needInit, min, Inf, greedy, s.pos)(r),
          live)
    {
      PlusNext(m, b, lo, back, needInit, min, greedy, s.pc, s.pos, r, live);
    }
    RoundExplores(m, b, lo, back, needInit, false, min, Inf, greedy, s, caps, live, q, live);
  }

  lemma {:induction false} PlusNext(m: Machine, b: Node, lo: nat, back: bool, needInit: bool, min: nat, greedy: bool,
                                    pc: int, pos: int, r: Res, live: seq<int>)
    requires BodyMatch(m, back, false, pos, r) && min <= 1
    requires BlockWorks(m, b, lo, back) && FitsBody(m, b, lo, back, false, |live|) && !BodyNeedsCheck(b, lo, back)
    requires PlusAt(m, pc, b, lo, back, needInit, greedy, |live|)
    ensures var q := BodyEnd(pc, b, lo, back, needInit, false, |live|) + 5;
            Resumes(m, q - 5, r, live, q, NextRound(m.subject, b, lo, back, needInit, min, Inf, greedy, pos)(r), live)
    decreases Remaining(m.subject, back, pos), 0
  {
    hide *;
    var q := BodyEnd(pc, b, lo, back, needInit, false, |live|) + 5;
    InfiniteBound();
    var out := NextRound(m.subject, b, lo, back, needInit, min, Inf, greedy, pos)(r);
    forall t: State | t.Run? && Offers(m, t, q - 5, r, t.stack, live)
      ensures Explores(m, t, q, out, t.stack, live)
    {
      PlusTurn(m, b, lo, back, needInit, min, greedy, pc, pos, r, live, t);
    }
    ResumesIntro(m, q - 5, r, live, q, out, live);
  }

  lemma {:induction false} PlusTurn(m: Machine, b: Node, lo: nat, back: bool, needInit: bool, min: nat, greedy: bool,
                                    pc: int, pos: int, r: Res, live: seq<int>, t: State)
    requires BodyMatch(m, back, false, pos, r) && min <= 1
    requires BlockWorks(m, b, lo, back) && FitsBody(m, b, lo, back, false, |live|) && !BodyNeedsCheck(b, lo, back)
    requires PlusAt(m, pc, b, lo, back, needInit, greedy, |live|)
    requires t.Run? && Offers(m, t, BodyEnd(pc, b, lo, back, needInit, false, |live|), r, t.stack, live)
    ensures Explores(m, t, BodyEnd(pc, b, lo, back, needInit, false, |live|) + 5,
                     NextRound(m.subject, b, lo, back, needInit, min, Inf, greedy, pos)(r), t.stack, live)
    decreases Remaining(m.subject, back, pos), 0, 0
  {
    hide At, Explores, MemIs, Fits, BodyCode, Fetch, Repeats, BodyNeedsCheck, BodyEnd, BodyAt, Backtrack, OnlySplits,
      Step, FlatMap;
    hide NextRound, BlockWorks, Results, FitsBody, Rounds, AfterBody;
    NextRoundIs(m.subject, b, lo, back, needInit, min, Inf, greedy, pos, r);
    var q := BodyEnd(pc, b, lo, back, needInit, false, |live|) + 5;
    var out := Repeats(m.subject, b, lo, back, needInit, 0, Inf, greedy, r.pos, r.caps);
    RepeatsShape(m.subject, b, lo, back, needInit, 0, Inf, greedy, r.pos, r.caps);
    RoundsShape(m.subject, b, lo, back, needInit, 0, Inf, greedy, r.pos, r.caps);
    var k := if greedy then t.stack + [Frame(q, r.pos, SplitFrame, t.mem)] else t.stack;
    PlusExplores(m, b, lo, back, needInit, 0, greedy, Run(pc, r.pos, t.mem, k), r.caps, live);
    Choice(m, pc, q, greedy, r.pos, t.mem, t.stack,
           Rounds(m.subject, b, lo, back, needInit, 0, Inf, greedy, r.pos, r.caps), r.caps, live);
    StepSplit(m, t, greedy, pc - q);
    StepThen(m, t, q, out, t.stack, live);
  }

  // ---- x{n} ----

  /** The body with a counter in register `d`, and the `loop` back to it. */
  predicate ExactlyAt(m: Machine, pc: int, b: Node, lo: nat, back: bool, needInit: bool, d: nat) {
    var q1 := BodyEnd(pc, b, lo, back, needInit, false, d + 1);
    && BodyAt(m, pc, b, lo, back, needInit, false, d + 1)
    && Fetch(m.code, q1) == Some(Loop(d, pc - (q1 + 6)))
  }

  lemma {:induction false} StepLoop(m: Machine, t: State, offset: int, c: nat, caps: seq<int>, live: seq<int>)
    requires t.Run? && Fetch(m.code, t.pc) == Some(Loop(|live|, offset)) && MemIs(m, t.mem, caps, live + [c])
        && 0 < c <= INFINITE
    ensures var mem1 := Write(t.mem, RegSlot(m, |live|), c - 1);
            && Step(m, t) == Run(if c != 1 then t.pc + 6 + offset else t.pc + 6, t.pos, mem1, t.stack)
            && MemIs(m, mem1, caps, live + [c - 1]) && MemIs(m, mem1, caps, live)
  {
    WriteRegister(m, t.mem, caps, live + [c], |live|, c - 1);
    assert (live + [c])[|live| := c - 1] == live + [c - 1];
    ForgetRegisters(m, Write(t.mem, RegSlot(m, |live|), c - 1), caps, live, live + [c - 1]);
    assert Decrement(c) == c - 1;
  }

  lemma ExactlyBody(m: Machine, pc: int, b: Node, lo: nat, back: bool, needInit: bool, d: nat)
    requires ExactlyAt(m, pc, b, lo, back, needInit, d)
    ensures BodyAt(m, pc, b, lo, back, needInit, false, d + 1)
  {
    hide BodyAt, BodyEnd;
  }

  lemma {:induction false} ExactlyExplores(m: Machine, b: Node, lo: nat, back: bool, needInit: bool, greedy: bool,
      c: nat,
                                           s: State, caps: seq<int>, live: seq<int>)
    requires s.Run? && InText(m.subject, s.pos) && 0 < c <= INFINITE && MemIs(m, s.mem, caps, live + [c])
    requires BlockWorks(m, b, lo, back) && FitsBody(m, b, lo, back, false, |live| + 1)
    requires ExactlyAt(m, s.pc, b, lo, back, needInit, |live|)
    ensures Explores(m, s, BodyEnd(s.pc, b, lo, back, needInit, false, |live| + 1) + 6,
                     Rounds(m.subject, b, lo, back, needInit, c, Fin(c), greedy, s.pos, caps), s.stack, live)
    decreases c, 1
  {
    hide *;
    var q := BodyEnd(s.pc, b, lo, back, needInit, false, |live| + 1) + 6;
    var caps1 := IterationCaps(b, lo, needInit, caps);
    ResultsInText(m.subject, b, lo, back, s.pos, caps1);
    ExactlyBody(m, s.pc, b, lo, back, needInit, |live|);
    NoStart(live + [c], s.pos);
    PositiveBound(c);
    RoundsShape(m.subject, b, lo, back, needInit, c, Fin(c), greedy, s.pos, caps);
    forall r | r in Results(m.subject, b, lo, back, s.pos, caps1)
      ensures Resumes(m, q - 6, r, live + [c], q, NextRound(m.subject, b, lo, back, needInit, c, Fin(c), greedy,
          s.pos)(r), live)
    {
      ExactlyNext(m, b, lo, back, needInit, greedy, c, s.pc, s.pos, r, live);
    }
    RoundExplores(m, b, lo, back, needInit, false, c, Fin(c), greedy, s, caps, live + [c], q, live);
  }

  lemma {:induction false} ExactlyNext(m: Machine, b: Node, lo: nat, back: bool, needInit: bool, greedy: bool, c: nat,
                                       pc: int, pos: int, r: Res, live: seq<int>)
    requires InText(m.subject, r.pos) && 0 < c <= INFINITE
    requires BlockWorks(m, b, lo, back) && FitsBody(m, b, lo, back, false, |live| + 1)
    requires ExactlyAt(m, pc, b, lo, back, needInit, |live|)
    ensures var q := BodyEnd(pc, b, lo, back, needInit, false, |live| + 1) + 6;
            Resumes(m, q - 6, r, live + [c], q, NextRound(m.subject, b, lo, back, needInit, c, Fin(c), greedy, pos)(r),
              live)
    decreases c, 0
  {
    hide *;
    var q := BodyEnd(pc, b, lo, back, needInit, false, |live| + 1) + 6;
    PositiveBound(c);
    var out := NextRound(m.subject, b, lo, back, needInit, c, Fin(c), greedy, pos)(r);
    forall t: State | t.Run? && Offers(m, t, q - 6, r, t.stack, live + [c])
      ensures Explores(m, t, q, out, t.stack, live)
    {
      ExactlyTurn(m, b, lo, back, needInit, greedy, c, pc, pos, r, live, t);
    }
    ResumesIntro(m, q - 6, r, live + [c], q, out, live);
  }

  lemma {:induction false} ExactlyTurn(m: Machine, b: Node, lo: nat, back: bool, needInit: bool, greedy: bool, c: nat,
                                       pc: int, pos: int, r: Res, live: seq<int>, t: State)
    requires InText(m.subject, r.pos) && 0 < c <= INFINITE
    requires BlockWorks(m, b, lo, back) && FitsBody(m, b, lo, back, false, |live| + 1)
    requires ExactlyAt(m, pc, b, lo, back, needInit, |live|)
    requires t.Run? && Offers(m, t, BodyEnd(pc, b, lo, back, needInit, false, |live| + 1), r, t.stack, live + [c])
    ensures Explores(m, t, BodyEnd(pc, b, lo, back, needInit, false, |live| + 1) + 6,
                     NextRound(m.subject, b, lo, back, needInit, c, Fin(c), greedy, pos)(r), t.stack, live)
    decreases c, 0, 0
  {
    hide At, Explores, MemIs, Fits, BodyCode, Fetch, Repeats, BodyEnd, BodyAt, Backtrack, OnlySplits, Step, FlatMap,
      Write;
    hide NextRound, BlockWorks, Results, FitsBody;
    NextRoundIs(m.subject, b, lo, back, needInit, c, Fin(c), greedy, pos, r);
    var q := BodyEnd(pc, b, lo, back, needInit, false, |live| + 1) + 6;
    var out := Repeats(m.subject, b, lo, back, needInit, c - 1, Fin(c - 1), greedy, r.pos, r.caps);
    StepLoop(m, t, pc - q, c, r.caps, live);
    if c == 1 {
      RepeatsDone(m.subject, b, lo, back, needInit, 0, greedy, r);
      BacktrackSplit(t.stack, Frame(0, 0, SplitFrame, []));
      ExploresOne(m, Step(m, t), q, r, t.stack, live);
    } else {
      RepeatsShape(m.subject, b, lo, back, needInit, c - 1, Fin(c - 1), greedy, r.pos, r.caps);
      ExactlyExplores(m, b, lo, back, needInit, greedy, c - 1, Step(m, t), r.caps, live);
    }
    StepThen(m, t, q, out, t.stack, live);
  }

  // ---- x{n,m} ----

  /** The body with a counter in register `d`, and the `loop_split` back to it. */
  predicate CountedAt(m: Machine, pc: int, b: Node, lo: nat, back: bool, needInit: bool, check: bool, greedy: bool,
      limit: nat, d: nat) {
    var q1 := BodyEnd(pc, b, lo, back, needInit, check, d + 1);
    && BodyAt(m, pc, b, lo, back, needInit, check, d + 1)
    && Fetch(m.code, q1) == Some(LoopSplit(greedy, check, d, limit, pc - (q1 + 10)))
  }

  lemma {:induction false} StepLoopSplit(m: Machine, t: State, greedy: bool, check: bool, limit: nat, offset: int,
      c: nat, pos: int,
                                         caps: seq<int>, live: seq<int>)
    requires t.Run? && Fetch(m.code, t.pc) == Some(LoopSplit(greedy, check, |live|, limit, offset))
    requires MemIs(m, t.mem, caps, WithStart(check, live + [c], pos)) && 0 < c <= INFINITE
    ensures var next, mem1 := t.pc + 10, Write(t.mem, RegSlot(m, |live|), c - 1);
            && Step(m, t) ==
               (if c - 1 > limit then Run(next + offset, t.pos, mem1, t.stack)
                else if check && t.pos == pos && c - 1 != limit then Backtrack(t.stack)
                else if c != 1 then Branch(next, next + offset, greedy, t.pos, mem1, t.stack)
                else Run(next, t.pos, mem1, t.stack))
            && MemIs(m, mem1, caps, live + [c - 1]) && MemIs(m, mem1, caps, live)
  {
    hide MemIs, Write, Fetch, Backtrack;
    CounterWrite(m, t.mem, check, c, pos, caps, live);
    assert Decrement(c) == c - 1;
  }

  /** Reading and decrementing the counter leaves the start position and the captures alone. */
  lemma {:induction false} CounterWrite(m: Machine, mem: seq<int>, check: bool, c: nat, pos: int, caps: seq<int>,
      live: seq<int>)
    requires MemIs(m, mem, caps, WithStart(check, live + [c], pos)) && c > 0
    ensures Read(mem, RegSlot(m, |live|)) == c
    ensures var mem1 := Write(mem, RegSlot(m, |live|), c - 1);
            && (check ==> Read(mem1, RegSlot(m, |live|) + 1) == pos)
            && MemIs(m, mem1, caps, live + [c - 1]) && MemIs(m, mem1, caps, live)
  {
    hide MemIs, Write;
    var live1 := WithStart(check, live + [c], pos);
    var live2 := live1[|live| := c - 1];
    var mem1 := Write(mem, RegSlot(m, |live|), c - 1);
    WriteRegister(m, mem, caps, live1, |live|, c - 1);
    if check { WriteRegister(m, mem1, caps, live2, |live| + 1, 0); }
    assert live + [c - 1] <= live2;
    ForgetRegisters(m, mem1, caps, live + [c - 1], live2);
    ForgetRegisters(m, mem1, caps, live, live + [c - 1]);
  }

  /** Mandatory rounds left when the counter stands at `c`. */
  function MinLeft(c: nat, limit: nat): nat { if c > limit then c - limit else 0 }

  lemma CountedBody(m: Machine, pc: int, b: Node, lo: nat, back: bool, needInit: bool, check: bool, greedy: bool,
      limit: nat, d: nat)
    requires CountedAt(m, pc, b, lo, back, needInit, check, greedy, limit, d)
    ensures BodyAt(m, pc, b, lo, back, needInit, check, d + 1)
  {
    hide BodyAt, BodyEnd;
  }

  lemma {:induction false} CountedExplores(m: Machine, b: Node, lo: nat, back: bool, needInit: bool, check: bool,
      greedy: bool,
                                           limit: nat, c: nat, s: State, caps: seq<int>, live: seq<int>)
    requires s.Run? && InText(m.subject, s.pos) && 0 < c <= INFINITE && MemIs(m, s.mem, caps, live + [c])
    requires BlockWorks(m, b, lo, back) && FitsBody(m, b, lo, back, check, |live| + 1)
        && check == BodyNeedsCheck(b, lo, back)
    requires CountedAt(m, s.pc, b, lo, back, needInit, check, greedy, limit, |live|)
    ensures Explores(m, s, BodyEnd(s.pc, b, lo, back, needInit, check, |live| + 1) + 10,
                     Rounds(m.subject, b, lo, back, needInit, MinLeft(c, limit), Fin(c), greedy, s.pos, caps), s.stack,
                       live)
    decreases c, 1
  {
    hide *;
    var q := BodyEnd(s.pc, b, lo, back, needInit, check, |live| + 1) + 10;
    var caps1, mn := IterationCaps(b, lo, needInit, caps), MinLeft(c, limit);
    CountedBody(m, s.pc, b, lo, back, needInit, check, greedy, limit, |live|);
    PositiveBound(c);
    RoundsShape(m.subject, b, lo, back, needInit, mn, Fin(c), greedy, s.pos, caps);
    BodyMatches(m, b, lo, back, check, |live| + 1, s.pos, caps1);
    forall r | r in Results(m.subject, b, lo, back, s.pos, caps1)
      ensures Resumes(m, q - 10, r, WithStart(check, live + [c], s.pos), q,
                      NextRound(m.subject, b, lo, back, needInit, mn, Fin(c), greedy, s.pos)(r), live)
    {
      CountedNext(m, b, lo, back, needInit, check, greedy, limit, c, s.pc, s.pos, r, live);
    }
    RoundExplores(m, b, lo, back, needInit, check, mn, Fin(c), greedy, s, caps, live + [c], q, live);
  }

  lemma {:induction false} CountedNext(m: Machine, b: Node, lo: nat, back: bool, needInit: bool, check: bool,
      greedy: bool,
                                       limit: nat, c: nat, pc: int, pos: int, r: Res, live: seq<int>)
    requires BodyMatch(m, back, check, pos, r) && 0 < c <= INFINITE
    requires BlockWorks(m, b, lo, back) && FitsBody(m, b, lo, back, check, |live| + 1)
        && check == BodyNeedsCheck(b, lo, back)
    requires CountedAt(m, pc, b, lo, back, needInit, check, greedy, limit, |live|)
    ensures var q := BodyEnd(pc, b, lo, back, needInit, check, |live| + 1) + 10;
            Resumes(m, q - 10, r, WithStart(check, live + [c], pos), q,
                    NextRound(m.subject, b, lo, back, needInit, MinLeft(c, limit), Fin(c), greedy, pos)(r), live)
    decreases c, 0
  {
    hide *;
    var q := BodyEnd(pc, b, lo, back, needInit, check, |live| + 1) + 10;
    PositiveBound(c);
    var out := NextRound(m.subject, b, lo, back, needInit, MinLeft(c, limit), Fin(c), greedy, pos)(r);
    forall t: State | t.Run? && Offers(m, t, q - 10, r, t.stack, WithStart(check, live + [c], pos))
      ensures Explores(m, t, q, out, t.stack, live)
    {
      CountedTurn(m, b, lo, back, needInit, check, greedy, limit, c, pc, pos, r, live, t);
    }
    ResumesIntro(m, q - 10, r, WithStart(check, live + [c], pos), q, out, live);
  }

  lemma {:induction false} CountedTurn(m: Machine, b: Node, lo: nat, back: bool, needInit: bool, check: bool,
      greedy: bool,
                                       limit: nat, c: nat, pc: int, pos: int, r: Res, live: seq<int>, t: State)
    requires BodyMatch(m, back, check, pos, r) && 0 < c <= INFINITE
    requires BlockWorks(m, b, lo, back) && FitsBody(m, b, lo, back, check, |live| + 1)
        && check == BodyNeedsCheck(b, lo, back)
    requires CountedAt(m, pc, b, lo, back, needInit, check, greedy, limit, |live|)
    requires t.Run? && Offers(m, t, BodyEnd(pc, b, lo, back, needInit, check, |live| + 1), r, t.stack,
        WithStart(check, live + [c], pos))
    ensures Explores(m, t, BodyEnd(pc, b, lo, back, needInit, check, |live| + 1) + 10,
                     NextRound(m.subject, b, lo, back, needInit, MinLeft(c, limit), Fin(c), greedy, pos)(r), t.stack,
                       live)
    decreases c, 0, 1
  {
    hide At, Explores, MemIs, Fits, BodyCode, Fetch, Repeats, BodyEnd, BodyAt, Backtrack, OnlySplits, Step, FlatMap,
      Write;
    hide NextRound, BlockWorks, Results, BodyNeedsCheck, FitsBody, Branch;
    var mn := MinLeft(c, limit);
    NextRoundIs(m.subject, b, lo, back, needInit, mn, Fin(c), greedy, pos, r);
    var q := BodyEnd(pc, b, lo, back, needInit, check, |live| + 1) + 10;
    var out := NextRound(m.subject, b, lo, back, needInit, mn, Fin(c), greedy, pos)(r);
    StepLoopSplit(m, t, greedy, check, limit, pc - q, c, pos, r.caps, live);
    if c - 1 > limit {
      RepeatsShape(m.subject, b, lo, back, needInit, mn - 1, Fin(c - 1), greedy, r.pos, r.caps);
      CountedExplores(m, b, lo, back, needInit, check, greedy, limit, c - 1, Step(m, t), r.caps, live);
      StepThen(m, t, q, out, t.stack, live);
    } else if check && r.pos == pos && c - 1 != limit {
      StepFails(m, t, q, live);
    } else {
      CountedSplit(m, b, lo, back, needInit, check, greedy, limit, c, pc, r, live, t);
      StepThen(m, t, q, out, t.stack, live);
    }
  }

  /** The end of a round in which the loop may go on or stop. */
  lemma {:induction false} CountedSplit(m: Machine, b: Node, lo: nat, back: bool, needInit: bool, check: bool,
      greedy: bool,
                                        limit: nat, c: nat, pc: int, r: Res, live: seq<int>, t: State)
    requires InText(m.subject, r.pos) && 0 < c <= INFINITE && c - 1 <= limit && t.Run?
    requires BlockWorks(m, b, lo, back) && FitsBody(m, b, lo, back, check, |live| + 1)
        && check == BodyNeedsCheck(b, lo, back)
    requires CountedAt(m, pc, b, lo, back, needInit, check, greedy, limit, |live|)
    requires var q, mem1 := BodyEnd(pc, b, lo, back, needInit, check, |live| + 1) + 10,
        Write(t.mem, RegSlot(m, |live|), c - 1);
             && MemIs(m, mem1, r.caps, live + [c - 1]) && MemIs(m, mem1, r.caps, live)
             && Step(m, t) ==
                  if c != 1 then Branch(q, pc, greedy, r.pos, mem1, t.stack) else Run(q, r.pos, mem1, t.stack)
    ensures Explores(m, Step(m, t), BodyEnd(pc, b, lo, back, needInit, check, |live| + 1) + 10,
                     Repeats(m.subject, b, lo, back, needInit, 0, Fin(c - 1), greedy, r.pos, r.caps), t.stack, live)
    decreases c, 0, 0
  {
    hide At, Explores, MemIs, Fits, BodyCode, Fetch, Repeats, BodyEnd, BodyAt, Backtrack, OnlySplits, Step, FlatMap,
      Write;
    hide NextRound, BlockWorks, Results, BodyNeedsCheck, CountedAt, FitsBody;
    var q, mem1 := BodyEnd(pc, b, lo, back, needInit, check, |live| + 1) + 10, Write(t.mem, RegSlot(m, |live|), c - 1);
    if c == 1 {
      RepeatsDone(m.subject, b, lo, back, needInit, 0, greedy, r);
      BacktrackSplit(t.stack, Frame(0, 0, SplitFrame, []));
      ExploresOne(m, Step(m, t), q, r, t.stack, live);
    } else {
      RepeatsShape(m.subject, b, lo, back, needInit, 0, Fin(c - 1), greedy, r.pos, r.caps);
      var k := if greedy then t.stack + [Frame(q, r.pos, SplitFrame, mem1)] else t.stack;
      CountedExplores(m, b, lo, back, needInit, check, greedy, limit, c - 1, Run(pc, r.pos, mem1, k), r.caps, live);
      Choice(m, pc, q, greedy, r.pos, mem1, t.stack,
             Rounds(m.subject, b, lo, back, needInit, 0, Fin(c - 1), greedy, r.pos, r.caps), r.caps, live);
    }
  }

  // ---- layout of the templates ----

  lemma {:induction false} AtOne(code: seq<Instr>, pc: int, i: Instr)
    ensures At(code, pc, [i]) <==> Fetch(code, pc) == Some(i)
    ensures Len([i]) == Size(i)
  {
    assert [i] == [i] + [];
    AtCons(code, pc, i, []);
    One(i);
  }

  lemma {:induction false} AtIf(code: seq<Instr>, pc: int, c: bool, i: Instr)
    ensures At(code, pc, If(c, [i])) <==> (c ==> Fetch(code, pc) == Some(i))
    ensures Len(If(c, [i])) == if c then Size(i) else 0
  {
    AtOne(code, pc, i);
  }

  /** Where the parts of a block lie: part k starts at the address `ak`. */
  lemma {:induction false} Layout4(code: seq<Instr>, a0: int, p0: seq<Instr>, a1: int, p1: seq<Instr>, a2: int,
      p2: seq<Instr>,
                                   a3: int, p3: seq<Instr>)
    requires a1 == a0 + Len(p0) && a2 == a1 + Len(p1) && a3 == a2 + Len(p2)
    requires At(code, a0, p0 + p1 + p2 + p3)
    ensures At(code, a0, p0) && At(code, a1, p1) && At(code, a2, p2) && At(code, a3, p3)
    ensures a0 + Len(p0 + p1 + p2 + p3) == a3 + Len(p3)
  {
    hide At, Len;
    LenAppend(p0, p1); LenAppend(p0 + p1, p2); LenAppend(p0 + p1 + p2, p3);
    AtAppend(code, a0, p0, p1);
    AtAppend(code, a0, p0 + p1, p2);
    AtAppend(code, a0, p0 + p1 + p2, p3);
  }

  lemma {:induction false} Layout5(code: seq<Instr>, a0: int, p0: seq<Instr>, a1: int, p1: seq<Instr>, a2: int,
      p2: seq<Instr>,
                                   a3: int, p3: seq<Instr>, a4: int, p4: seq<Instr>)
    requires a1 == a0 + Len(p0) && a2 == a1 + Len(p1) && a3 == a2 + Len(p2) && a4 == a3 + Len(p3)
    requires At(code, a0, p0 + p1 + p2 + p3 + p4)
    ensures At(code, a0, p0) && At(code, a1, p1) && At(code, a2, p2) && At(code, a3, p3) && At(code, a4, p4)
    ensures a0 + Len(p0 + p1 + p2 + p3 + p4) == a4 + Len(p4)
  {
    hide At, Len;
    var front := p0 + p1 + p2 + p3;
    AtAppend(code, a0, front, p4);
    LenAppend(front, p4);
    Layout4(code, a0, p0, a1, p1, a2, p2, a3, p3);
  }

  /** The code of a quantifier, with its body at depth `d` plus the registers of the template. */
  function Quantified(b: Node, lo: nat, back: bool, needInit: bool, check: bool, min: nat, max: nat, greedy: bool,
      d: nat): seq<Instr> {
    QuantCode(Code(b, lo, back, d + TemplateRegs(TemplateOf(min, max, check), check)), needInit, check, lo,
      GroupCount(b),
              min, max, greedy, d)
  }

  function PreReset(b: Node, lo: nat, needInit: bool): seq<Instr> { If(!needInit, ResetCode(lo, GroupCount(b))) }

  lemma {:induction false} OptionalShape(b: Node, lo: nat, back: bool, needInit: bool, check: bool, greedy: bool,
      d: nat)
    ensures var body := BodyCode(b, lo, back, needInit, d + B(check));
            Quantified(b, lo, back, needInit, check, 0, 1, greedy, d) ==
            PreReset(b, lo, needInit) + [Split(!greedy, Len(body) + 4 * B(check))] + If(check, [SetCharPos(d)]) + body +
            If(check, [CheckAdvance(d)])
  {
    hide Len, Code, GroupCount, ResetCode;
  }

  lemma {:induction false} StarShape(b: Node, lo: nat, back: bool, needInit: bool, check: bool, greedy: bool, d: nat)
    ensures var body := BodyCode(b, lo, back, needInit, d + B(check));
            Quantified(b, lo, back, needInit, check, 0, INFINITE, greedy, d) ==
            PreReset(b, lo, needInit) + [Split(!greedy, Len(body) + 5 + 4 * B(check))] + If(check, [SetCharPos(d)])
              + body +
            If(check, [CheckAdvance(d)]) + [Goto(-(10 + Len(body) + 4 * B(check)))]
  {
    hide Len, Code, GroupCount, ResetCode;
  }

  lemma {:induction false} Range0Shape(b: Node, lo: nat, back: bool, needInit: bool, check: bool, max: nat,
      greedy: bool, d: nat)
    requires 1 < max < INFINITE
    ensures var body := BodyCode(b, lo, back, needInit, d + 1 + B(check));
            Quantified(b, lo, back, needInit, check, 0, max, greedy, d) ==
            PreReset(b, lo, needInit) + [Split(!greedy, 6 + 2 * B(check) + Len(body) + 10), SetI32(d, max)] +
            If(check, [SetCharPos(d + 1)]) + body + [LoopSplit(greedy, check, d, max, -(2 * B(check) + Len(body) + 10))]
  {
    hide Len, Code, GroupCount, ResetCode;
  }

  lemma {:induction false} CountedShape(b: Node, lo: nat, back: bool, needInit: bool, check: bool, min: nat, max: nat,
      greedy: bool, d: nat)
    requires TemplateOf(min, max, check) == Counted
    ensures var body := BodyCode(b, lo, back, needInit, d + 1 + B(check));
            Quantified(b, lo, back, needInit, check, min, max, greedy, d) ==
            [SetI32(d, max)] + If(check, [SetCharPos(d + 1)]) + body +
            [LoopSplit(greedy, check, d, max - min, -(2 * B(check) + Len(body) + 10))]
  {
    hide Len, Code, GroupCount, ResetCode;
  }

  lemma {:induction false} ExactlyShape(b: Node, lo: nat, back: bool, needInit: bool, check: bool, max: nat,
      greedy: bool, d: nat)
    requires TemplateOf(max, max, check) == Exactly
    ensures var body := BodyCode(b, lo, back, needInit, d + 1);
            Quantified(b, lo, back, needInit, check, max, max, greedy, d) == [SetI32(d, max)] + body
              + [Loop(d, -(Len(body) + 6))]
  {
    hide Len, Code, GroupCount, ResetCode;
  }

  lemma {:induction false} OptionalLayout(m: Machine, pc: int, b: Node, lo: nat, back: bool, needInit: bool,
      check: bool, greedy: bool, d: nat)
    requires At(m.code, pc, Quantified(b, lo, back, needInit, check, 0, 1, greedy, d))
    ensures var pre := PreReset(b, lo, needInit);
            && At(m.code, pc, pre) && OptionalAt(m, pc + Len(pre), b, lo, back, needInit, check, greedy, d)
            && pc + Len(Quantified(b, lo, back, needInit, check, 0, 1, greedy, d)) ==
               BodyEnd(pc + Len(pre) + 5, b, lo, back, needInit, check, d) + 2 * B(check)
  {
    hide At, Len, Fetch, Quantified, BodyCode, PreReset, If;
    OptionalShape(b, lo, back, needInit, check, greedy, d);
    var pre, body := PreReset(b, lo, needInit), BodyCode(b, lo, back, needInit, d + B(check));
    var split, set0, check0 := Split(!greedy, Len(body) + 4 * B(check)), SetCharPos(d), CheckAdvance(d);
    var p := pc + Len(pre);
    var q1 := BodyEnd(p + 5, b, lo, back, needInit, check, d);
    AtOne(m.code, p, split);
    AtIf(m.code, p + 5, check, set0);
    AtIf(m.code, q1, check, check0);
    Layout5(m.code, pc, pre, p, [split], p + 5, If(check, [set0]), p + 5 + 2 * B(check), body, q1, If(check, [check0]));
  }

  lemma {:induction false} StarLayout(m: Machine, pc: int, b: Node, lo: nat, back: bool, needInit: bool, check: bool,
      greedy: bool, d: nat)
    requires At(m.code, pc, Quantified(b, lo, back, needInit, check, 0, INFINITE, greedy, d))
    ensures var pre := PreReset(b, lo, needInit);
            && At(m.code, pc, pre) && StarAt(m, pc + Len(pre), b, lo, back, needInit, check, greedy, d)
            && pc + Len(Quantified(b, lo, back, needInit, check, 0, INFINITE, greedy, d)) ==
               BodyEnd(pc + Len(pre) + 5, b, lo, back, needInit, check, d) + 2 * B(check) + 5
  {
    hide At, Len, Fetch, Quantified, BodyCode, PreReset, If;
    StarShape(b, lo, back, needInit, check, greedy, d);
    var pre, body := PreReset(b, lo, needInit), BodyCode(b, lo, back, needInit, d + B(check));
    var split, go := Split(!greedy, Len(body) + 5 + 4 * B(check)), Goto(-(10 + Len(body) + 4 * B(check)));
    var set0, check0 := SetCharPos(d), CheckAdvance(d);
    var front := pre + [split] + If(check, [set0]) + body + If(check, [check0]);
    var p := pc + Len(pre);
    var q1 := BodyEnd(p + 5, b, lo, back, needInit, check, d);
    AtOne(m.code, p, split);
    AtIf(m.code, p + 5, check, set0);
    AtIf(m.code, q1, check, check0);
    AtOne(m.code, q1 + 2 * B(check), go);
    AtAppend(m.code, pc, front, [go]);
    LenAppend(front, [go]);
    Layout5(m.code, pc, pre, p, [split], p + 5, If(check, [set0]), p + 5 + 2 * B(check), body, q1, If(check, [check0]));
  }

  lemma {:induction false} Range0Layout(m: Machine, pc: int, b: Node, lo: nat, back: bool, needInit: bool, check: bool,
      max: nat, greedy: bool, d: nat)
    requires 1 < max < INFINITE
    requires At(m.code, pc, Quantified(b, lo, back, needInit, check, 0, max, greedy, d))
    ensures var pre := PreReset(b, lo, needInit);
            var q := pc + Len(Quantified(b, lo, back, needInit, check, 0, max, greedy, d));
            var p := pc + Len(pre);
            && At(m.code, pc, pre)
            && Fetch(m.code, p) == Some(Split(!greedy, q - (p + 5))) && Fetch(m.code, p + 5) == Some(SetI32(d, max))
            && CountedAt(m, p + 11, b, lo, back, needInit, check, greedy, max, d)
            && q == BodyEnd(p + 11, b, lo, back, needInit, check, d + 1) + 10
  {
    hide At, Len, Fetch, Quantified, BodyCode, PreReset, If;
    Range0Shape(b, lo, back, needInit, check, max, greedy, d);
    var pre, body := PreReset(b, lo, needInit), BodyCode(b, lo, back, needInit, d + 1 + B(check));
    var split, set0, pos0 := Split(!greedy, 6 + 2 * B(check) + Len(body) + 10), SetI32(d, max), SetCharPos(d + 1);
    var loop := LoopSplit(greedy, check, d, max, -(2 * B(check) + Len(body) + 10));
    var p := pc + Len(pre);
    var q1 := BodyEnd(p + 11, b, lo, back, needInit, check, d + 1);
    assert [split, set0] == [split] + [set0];
    LenAppend([split], [set0]);
    AtOne(m.code, p, split);
    AtOne(m.code, p + 5, set0);
    AtAppend(m.code, p, [split], [set0]);
    AtIf(m.code, p + 11, check, pos0);
    AtOne(m.code, q1, loop);
    Layout5(m.code, pc, pre, p, [split, set0], p + 11, If(check, [pos0]), p + 11 + 2 * B(check), body, q1, [loop]);
  }

  lemma {:induction false} PlusLayout(m: Machine, pc: int, b: Node, lo: nat, back: bool, needInit: bool, greedy: bool,
      d: nat)
    requires At(m.code, pc, Quantified(b, lo, back, needInit, false, 1, INFINITE, greedy, d))
    ensures PlusAt(m, pc, b, lo, back, needInit, greedy, d)
    ensures pc + Len(Quantified(b, lo, back, needInit, false, 1, INFINITE, greedy, d))
        == BodyEnd(pc, b, lo, back, needInit, false, d) + 5
  {
    hide At, Len, Fetch, Code, GroupCount;
    var body := BodyCode(b, lo, back, needInit, d);
    var split := Split(greedy, -(Len(body) + 5));
    AtAppend(m.code, pc, body, [split]);
    LenAppend(body, [split]);
    AtOne(m.code, pc + Len(body), split);
  }

  lemma {:induction false} ExactlyLayout(m: Machine, pc: int, b: Node, lo: nat, back: bool, needInit: bool, check: bool,
      max: nat, greedy: bool, d: nat)
    requires TemplateOf(max, max, check) == Exactly
    requires At(m.code, pc, Quantified(b, lo, back, needInit, check, max, max, greedy, d))
    ensures Fetch(m.code, pc) == Some(SetI32(d, max)) && ExactlyAt(m, pc + 6, b, lo, back, needInit, d)
    ensures pc + Len(Quantified(b, lo, back, needInit, check, max, max, greedy, d))
        == BodyEnd(pc + 6, b, lo, back, needInit, false, d + 1) + 6
  {
    hide At, Len, Fetch, Quantified, BodyCode;
    ExactlyShape(b, lo, back, needInit, check, max, greedy, d);
    var body := BodyCode(b, lo, back, needInit, d + 1);
    Enclosed(m.code, pc, SetI32(d, max), body, Loop(d, -(Len(body) + 6)));
  }

  lemma {:induction false} CountedLayout(m: Machine, pc: int, b: Node, lo: nat, back: bool, needInit: bool, check: bool,
      min: nat, max: nat, greedy: bool, d: nat)
    requires TemplateOf(min, max, check) == Counted && min <= max
    requires At(m.code, pc, Quantified(b, lo, back, needInit, check, min, max, greedy, d))
    ensures Fetch(m.code, pc) == Some(SetI32(d, max)) && CountedAt(m, pc + 6, b, lo, back, needInit, check, greedy,
        max - min, d)
    ensures pc + Len(Quantified(b, lo, back, needInit, check, min, max, greedy, d))
        == BodyEnd(pc + 6, b, lo, back, needInit, check, d + 1) + 10
  {
    hide At, Len, Fetch, Quantified, BodyCode, If;
    CountedShape(b, lo, back, needInit, check, min, max, greedy, d);
    var body := BodyCode(b, lo, back, needInit, d + 1 + B(check));
    var set0, pos0 := SetI32(d, max), SetCharPos(d + 1);
    var loop := LoopSplit(greedy, check, d, max - min, -(2 * B(check) + Len(body) + 10));
    var q1 := BodyEnd(pc + 6, b, lo, back, needInit, check, d + 1);
    AtOne(m.code, pc, set0);
    AtIf(m.code, pc + 6, check, pos0);
    AtOne(m.code, q1, loop);
    Layout4(m.code, pc, [set0], pc + 6, If(check, [pos0]), pc + 6 + 2 * B(check), body, q1, [loop]);
  }

  // ---- the quantifier theorem ----

  lemma {:induction false} StepSet(m: Machine, s: State, v: nat, caps: seq<int>, live: seq<int>)
    requires s.Run? && Fetch(m.code, s.pc) == Some(SetI32(|live|, v)) && MemIs(m, s.mem, caps, live) && |live| < m.regs
    ensures Step(m, s) == Run(s.pc + 6, s.pos, Write(s.mem, RegSlot(m, |live|), v), s.stack)
    ensures MemIs(m, Write(s.mem, RegSlot(m, |live|), v), caps, live + [v])
  {
    WriteNewRegister(m, s.mem, caps, live, v);
  }

  /** What a quantified block needs: its body fits at the depth the template runs it. */
  ghost predicate FitsLoop(m: Machine, b: Node, lo: nat, back: bool, check: bool, min: nat, max: nat, d: nat) {
    && min <= max <= INFINITE && lo + GroupCount(b) <= m.groups && d <= m.regs
    && var t := TemplateOf(min, max, check);
       (t != Dropped ==> Fits(m, b, lo, back, d + TemplateRegs(t, check)))
  }

  lemma {:induction false} FitsQuant(m: Machine, n: Node, lo: nat, back: bool, d: nat)
    requires n.Quant? && Fits(m, n, lo, back, d)
    ensures FitsLoop(m, n.body, lo, back, BodyNeedsCheck(n.body, lo, back), n.min, n.max, d)
  {
    hide BodyNeedsCheck;
  }

  ghost function LoopResults(s: Subject, b: Node, lo: nat, back: bool, needInit: bool, check: bool, min: nat, max: nat,
      greedy: bool,
                             pos: int, caps: seq<int>): seq<Res>
  {
    Repeats(s, b, lo, back, needInit, min, CodedBound(min, max, check), greedy, pos,
            if min == 0 && !needInit then ResetCaps(caps, lo, GroupCount(b)) else caps)
  }

  lemma {:induction false} LoopExplores(m: Machine, b: Node, lo: nat, back: bool, needInit: bool, check: bool, min: nat,
      max: nat,
                                        greedy: bool, s: State, caps: seq<int>, live: seq<int>)
    requires BlockWorks(m, b, lo, back) && check == BodyNeedsCheck(b, lo, back)
    requires FitsLoop(m, b, lo, back, check, min, max, |live|)
    requires Ready(m, s, Quantified(b, lo, back, needInit, check, min, max, greedy, |live|), caps, live)
    ensures Explores(m, s, s.pc + Len(Quantified(b, lo, back, needInit, check, min, max, greedy, |live|)),
                     LoopResults(m.subject, b, lo, back, needInit, check, min, max, greedy, s.pos, caps), s.stack, live)
  {
    if min == 0 {
      SkippableExplores(m, b, lo, back, needInit, check, max, greedy, s, caps, live);
    } else {
      MandatoryExplores(m, b, lo, back, needInit, check, min, max, greedy, s, caps, live);
    }
  }

  lemma {:induction false} MandatoryExplores(m: Machine, b: Node, lo: nat, back: bool, needInit: bool, check: bool,
      min: nat, max: nat,
                                             greedy: bool, s: State, caps: seq<int>, live: seq<int>)
    requires BlockWorks(m, b, lo, back) && check == BodyNeedsCheck(b, lo, back) && min > 0
    requires FitsLoop(m, b, lo, back, check, min, max, |live|)
    requires Ready(m, s, Quantified(b, lo, back, needInit, check, min, max, greedy, |live|), caps, live)
    ensures Explores(m, s, s.pc + Len(Quantified(b, lo, back, needInit, check, min, max, greedy, |live|)),
                     LoopResults(m.subject, b, lo, back, needInit, check, min, max, greedy, s.pos, caps), s.stack, live)
  {
    hide At, Len, Fetch, Quantified, Explores, MemIs, Fits, BodyEnd, Repeats, BodyNeedsCheck, BlockWorks, Step, Write;
    hide Results, FlatMap, Rounds, PlusAt, ExactlyAt, CountedAt, GroupCount, ResetCaps, NextRound;
    var bound := CodedBound(min, max, check);
    RepeatsShape(m.subject, b, lo, back, needInit, min, bound, greedy, s.pos, caps);
    RoundsShape(m.subject, b, lo, back, needInit, min, bound, greedy, s.pos, caps);
    var out := Rounds(m.subject, b, lo, back, needInit, min, bound, greedy, s.pos, caps);
    var q := s.pc + Len(Quantified(b, lo, back, needInit, check, min, max, greedy, |live|));
    match TemplateOf(min, max, check)
    case Plus =>
      PlusLayout(m, s.pc, b, lo, back, needInit, greedy, |live|);
      PlusExplores(m, b, lo, back, needInit, 1, greedy, s, caps, live);
    case Exactly =>
      ExactlyLayout(m, s.pc, b, lo, back, needInit, check, max, greedy, |live|);
      FitsRegs(m, b, lo, back, |live| + 1);
      StepSet(m, s, max, caps, live);
      ExactlyExplores(m, b, lo, back, needInit, greedy, max, Step(m, s), caps, live);
      StepThen(m, s, q, out, s.stack, live);
    case Counted =>
      CountedLayout(m, s.pc, b, lo, back, needInit, check, min, max, greedy, |live|);
      FitsRegs(m, b, lo, back, |live| + 1 + B(check));
      StepSet(m, s, max, caps, live);
      CountedExplores(m, b, lo, back, needInit, check, greedy, max - min, max, Step(m, s), caps, live);
      StepThen(m, s, q, out, s.stack, live);
  }

  lemma FitsRegs(m: Machine, b: Node, lo: nat, back: bool, d: nat)
    requires Fits(m, b, lo, back, d)
    ensures d <= m.regs
  {
  }

  lemma {:induction false} SkippableExplores(m: Machine, b: Node, lo: nat, back: bool, needInit: bool, check: bool,
      max: nat,
                                             greedy: bool, s: State, caps: seq<int>, live: seq<int>)
    requires BlockWorks(m, b, lo, back) && check == BodyNeedsCheck(b, lo, back)
    requires FitsLoop(m, b, lo, back, check, 0, max, |live|)
    requires Ready(m, s, Quantified(b, lo, back, needInit, check, 0, max, greedy, |live|), caps, live)
    ensures Explores(m, s, s.pc + Len(Quantified(b, lo, back, needInit, check, 0, max, greedy, |live|)),
                     LoopResults(m.subject, b, lo, back, needInit, check, 0, max, greedy, s.pos, caps), s.stack, live)
  {
    hide At, Len, Explores, MemIs, Fits, Repeats, BodyNeedsCheck, BlockWorks, GroupCount, ResetCaps, QuantCode, Code,
      Quantified;
    var q := s.pc + Len(Quantified(b, lo, back, needInit, check, 0, max, greedy, |live|));
    PreResetAt(m, s.pc, b, lo, back, needInit, check, max, greedy, |live|);
    var s1 := ResetRuns(m, s, !needInit, lo, GroupCount(b), caps, live);
    var caps1 := if needInit then caps else ResetCaps(caps, lo, GroupCount(b));
    AfterPreReset(m, b, lo, back, needInit, check, max, greedy, s.pc, s1, caps1, live);
    ExploresAfter(m, s, s1, q, LoopResults(m.subject, b, lo, back, needInit, check, 0, max, greedy, s.pos, caps),
      s.stack, live);
  }

  lemma {:induction false} AfterPreReset(m: Machine, b: Node, lo: nat, back: bool, needInit: bool, check: bool,
      max: nat,
                                         greedy: bool, pc: int, s: State, caps: seq<int>, live: seq<int>)
    requires BlockWorks(m, b, lo, back) && check == BodyNeedsCheck(b, lo, back)
    requires FitsLoop(m, b, lo, back, check, 0, max, |live|)
    requires At(m.code, pc, Quantified(b, lo, back, needInit, check, 0, max, greedy, |live|))
    requires s.Run? && s.pc == pc + Len(PreReset(b, lo, needInit)) && InText(m.subject, s.pos)
        && MemIs(m, s.mem, caps, live)
    ensures Explores(m, s, pc + Len(Quantified(b, lo, back, needInit, check, 0, max, greedy, |live|)),
                     Repeats(m.subject, b, lo, back, needInit, 0, CodedBound(0, max, check), greedy, s.pos, caps),
                       s.stack, live)
  {
    hide At, Len, Fetch, Explores, MemIs, Fits, BodyEnd, Repeats, BodyNeedsCheck, BlockWorks, Step, Write, Quantified,
      PreReset;
    hide StarAt, OptionalAt, CountedAt, GroupCount, ResetCaps, QuantCode, Code;
    match TemplateOf(0, max, check)
    case Dropped =>
      RepeatsDone(m.subject, b, lo, back, needInit, 0, greedy, Res(s.pos, caps));
      DroppedExplores(m, s, caps, live);
      DroppedLen(b, lo, back, needInit, check, greedy, |live|);
    case Optional =>
      OptionalLayout(m, pc, b, lo, back, needInit, check, greedy, |live|);
      FitsRegs(m, b, lo, back, |live| + B(check));
      OptionalExplores(m, b, lo, back, needInit, check, greedy, s, caps, live);
    case Star =>
      StarLayout(m, pc, b, lo, back, needInit, check, greedy, |live|);
      FitsRegs(m, b, lo, back, |live| + B(check));
      StarExplores(m, b, lo, back, needInit, check, greedy, s, caps, live);
    case Range0 =>
      Range0Layout(m, pc, b, lo, back, needInit, check, max, greedy, |live|);
      FitsRegs(m, b, lo, back, |live| + 1 + B(check));
      Range0Explores(m, b, lo, back, needInit, check, max, greedy, s, caps, live);
  }

  lemma {:induction false} DroppedLen(b: Node, lo: nat, back: bool, needInit: bool, check: bool, greedy: bool, d: nat)
    ensures Quantified(b, lo, back, needInit, check, 0, 0, greedy, d) == PreReset(b, lo, needInit)
  {
  }

  lemma {:induction false} DroppedExplores(m: Machine, s: State, caps: seq<int>, live: seq<int>)
    requires s.Run? && MemIs(m, s.mem, caps, live)
    ensures Explores(m, s, s.pc, [Res(s.pos, caps)], s.stack, live)
  {
    hide Explores, MemIs;
    ExploresOne(m, s, s.pc, Res(s.pos, caps), s.stack, live);
  }

  lemma {:induction false} PreResetAt(m: Machine, pc: int, b: Node, lo: nat, back: bool, needInit: bool, check: bool,
      max: nat, greedy: bool, d: nat)
    requires max <= INFINITE && At(m.code, pc, Quantified(b, lo, back, needInit, check, 0, max, greedy, d))
    ensures At(m.code, pc, PreReset(b, lo, needInit))
  {
    hide At, Len, Fetch, StarAt, OptionalAt, CountedAt, BodyEnd, QuantCode, Code;
    match TemplateOf(0, max, check)
    case Dropped => DroppedLen(b, lo, back, needInit, check, greedy, d);
    case Optional => OptionalLayout(m, pc, b, lo, back, needInit, check, greedy, d);
    case Star => StarLayout(m, pc, b, lo, back, needInit, check, greedy, d);
    case Range0 => Range0Layout(m, pc, b, lo, back, needInit, check, max, greedy, d);
  }

  /** `x{0,max}` from its split on. */
  lemma {:induction false} Range0Explores(m: Machine, b: Node, lo: nat, back: bool, needInit: bool, check: bool,
      max: nat, greedy: bool,
                                          s: State, caps: seq<int>, live: seq<int>)
    requires s.Run? && InText(m.subject, s.pos) && MemIs(m, s.mem, caps, live) && 0 < max <= INFINITE
    requires BlockWorks(m, b, lo, back) && FitsBody(m, b, lo, back, check, |live| + 1)
        && check == BodyNeedsCheck(b, lo, back)
    requires Fetch(m.code, s.pc + 5) == Some(SetI32(|live|, max))
    requires CountedAt(m, s.pc + 11, b, lo, back, needInit, check, greedy, max, |live|)
    requires Fetch(m.code, s.pc) ==
             Some(Split(!greedy, BodyEnd(s.pc + 11, b, lo, back, needInit, check, |live| + 1) + 10 - (s.pc + 5)))
    ensures Explores(m, s, BodyEnd(s.pc + 11, b, lo, back, needInit, check, |live| + 1) + 10,
                     Repeats(m.subject, b, lo, back, needInit, 0, Fin(max), greedy, s.pos, caps), s.stack, live)
  {
    hide At, Fetch, Explores, MemIs, Fits, BodyEnd, Repeats, BodyNeedsCheck, BlockWorks, Step, Write;
    hide CountedAt, GroupCount, FlatMap, Results, NextRound, Rounds;
    var q := BodyEnd(s.pc + 11, b, lo, back, needInit, check, |live| + 1) + 10;
    var k := if greedy then s.stack + [Frame(q, s.pos, SplitFrame, s.mem)] else s.stack;
    var s1 := Run(s.pc + 5, s.pos, s.mem, k);
    StepSet(m, s1, max, caps, live);
    CountedExplores(m, b, lo, back, needInit, check, greedy, max, max, Step(m, s1), caps, live);
    var iter := Rounds(m.subject, b, lo, back, needInit, 0, Fin(max), greedy, s.pos, caps);
    StepThen(m, s1, q, iter, k, live);
    RepeatsShape(m.subject, b, lo, back, needInit, 0, Fin(max), greedy, s.pos, caps);
    RoundsShape(m.subject, b, lo, back, needInit, 0, Fin(max), greedy, s.pos, caps);
    Choice(m, s.pc + 5, q, greedy, s.pos, s.mem, s.stack, iter, caps, live);
    StepSplit(m, s, !greedy, q - (s.pc + 5));
    StepThen(m, s, q, Repeats(m.subject, b, lo, back, needInit, 0, Fin(max), greedy, s.pos, caps), s.stack, live);
  }
}
