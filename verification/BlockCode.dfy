/** Running the code of a pattern explores exactly the matches of the pattern. */
module BlockCode {
  import opened RegexSyntax
  import opened MatchLists
  import opened Bytecode
  import opened RawMatch
  import opened RawMatchFacts
  import opened SnapshotMachine
  import opened Exploration
  import opened BlockBasics
  import opened LoopCode

  // ---- the block theorem ----

  /** Running the code of `n` explores the matches of `n`, in order, and then fails. */
  lemma {:induction false} BlockExplores(m: Machine, n: Node, lo: nat, back: bool, s: State, caps: seq<int>,
      live: seq<int>)
    requires Fits(m, n, lo, back, |live|)
    requires Ready(m, s, Code(n, lo, back, |live|), caps, live)
    ensures Explores(m, s, s.pc + Len(Code(n, lo, back, |live|)), Results(m.subject, n, lo, back, s.pos, caps), s.stack,
        live)
    decreases n, 0, 0, 0
  {
    hide Explores, At, Fetch, Len, Code, Results;
    match n
    case Empty => EmptyExplores(m, n, lo, back, s, caps, live);
    case Char(t) => CharExplores(m, n, lo, back, s, caps, live);
    case Assert(_) => SimpleExplores(m, n, lo, back, s, caps, live);
    case BackRef(_, _) => SimpleExplores(m, n, lo, back, s, caps, live);
    case Seq(_, _) => SeqExplores(m, n, lo, back, s, caps, live);
    case Alt(_, _) => AltExplores(m, n, lo, back, s, caps, live);
    case Group(_) => GroupExplores(m, n, lo, back, s, caps, live);
    case Look(_, _, _) => LookExplores(m, n, lo, back, s, caps, live);
    case Quant(_, _, _, _) => QuantExplores(m, n, lo, back, s, caps, live);
  }

  lemma {:induction false} EmptyExplores(m: Machine, n: Node, lo: nat, back: bool, s: State, caps: seq<int>,
      live: seq<int>)
    requires n.Empty? && Ready(m, s, Code(n, lo, back, |live|), caps, live)
    ensures Explores(m, s, s.pc + Len(Code(n, lo, back, |live|)), Results(m.subject, n, lo, back, s.pos, caps), s.stack,
        live)
  {
    hide Explores;
    ExploresOne(m, s, s.pc, Res(s.pos, caps), s.stack, live);
  }

  lemma {:induction false} SimpleExplores(m: Machine, n: Node, lo: nat, back: bool, s: State, caps: seq<int>,
      live: seq<int>)
    requires n.Assert? || n.BackRef?
    requires Ready(m, s, Code(n, lo, back, |live|), caps, live)
    ensures Explores(m, s, s.pc + Len(Code(n, lo, back, |live|)), Results(m.subject, n, lo, back, s.pos, caps), s.stack,
        live)
  {
    hide Explores, Fetch, At, RefEnd, RefTarget, AssertionHolds;
    var i := if n.Assert? then Check(n.assertion) else Ref(back, n.ignoreCase, n.groups);
    assert Code(n, lo, back, |live|) == [i] == [i] + [];
    AtCons(m.code, s.pc, i, []);
    One(i);
    if n.Assert? {
      if AssertionHolds(m.subject, n.assertion, s.pos) {
        StepOffers(m, s, s.pc + 1, Res(s.pos, caps), live);
      } else {
        StepFails(m, s, s.pc + 1, live);
      }
    } else {
      RefAgrees(m, back, n.ignoreCase, n.groups, s.pos, s.mem, caps, live);
      var e := RefEnd(m.subject, back, n.ignoreCase, n.groups, s.pos, caps);
      if e.Some? {
        StepOffers(m, s, s.pc + Size(i), Res(e.value, caps), live);
      } else {
        StepFails(m, s, s.pc + Size(i), live);
      }
    }
  }

  lemma {:induction false} CharShape(n: Node, lo: nat, back: bool, d: nat, code: seq<Instr>, pc: int)
    requires n.Char? && At(code, pc, Code(n, lo, back, d))
    ensures if back then
              && Len(Code(n, lo, back, d)) == 2 + TestSize(Emitted(n.test))
              && Fetch(code, pc) == Some(Prev) && Fetch(code, pc + 1) == Some(Test(Emitted(n.test)))
              && Fetch(code, pc + 1 + TestSize(Emitted(n.test))) == Some(Prev)
            else
              && Len(Code(n, lo, back, d)) == TestSize(Emitted(n.test))
                && Fetch(code, pc) == Some(Test(Emitted(n.test)))
  {
    var i := Test(Emitted(n.test));
    var block := if back then [Prev, i, Prev] else [i];
    assert Code(n, lo, back, d) == block;
    hide At, Code, Fetch;
    if back {
      Sandwich(code, pc, Prev, [i], Prev, []);
      AtCons(code, pc + 1, i, []);
      assert [i] + [] == [i] && block == [Prev] + [i] + [Prev] + [];
      One(i);
    } else {
      assert [i] == [i] + [];
      LenAppend([i], []);
      One(i);
      AtCons(code, pc, i, []);
    }
  }

  lemma EmittedAccepts(s: Subject, t: CharTest, c: nat)
    requires c <= 0x10ffff
    ensures TestAccepts(s, Emitted(t), c) == TestAccepts(s, t, c)
  {
  }

  lemma {:induction false} CharExplores(m: Machine, n: Node, lo: nat, back: bool, s: State, caps: seq<int>,
      live: seq<int>)
    requires n.Char? && ValidSubject(m.subject) && Ready(m, s, Code(n, lo, back, |live|), caps, live)
    ensures Explores(m, s, s.pc + Len(Code(n, lo, back, |live|)), Results(m.subject, n, lo, back, s.pos, caps), s.stack,
        live)
  {
    hide At, Explores, Fetch, TestAccepts, Code, Len, MemIs;
    CharShape(n, lo, back, |live|, m.code, s.pc);
    var t := Emitted(n.test);
    forall i | 0 <= i < |m.subject.input|
      ensures TestAccepts(m.subject, t, m.subject.input[i]) == TestAccepts(m.subject, n.test, m.subject.input[i])
    {
      EmittedAccepts(m.subject, n.test, m.subject.input[i]);
    }
    if back {
      BackwardChar(m, t, s, caps, live);
    } else {
      ForwardChar(m, t, s, caps, live);
    }
  }

  lemma {:induction false} ForwardChar(m: Machine, t: CharTest, s: State, caps: seq<int>, live: seq<int>)
    requires s.Run? && InText(m.subject, s.pos) && MemIs(m, s.mem, caps, live)
    requires Fetch(m.code, s.pc) == Some(Test(t))
    ensures Explores(m, s, s.pc + TestSize(t),
                     if s.pos < |m.subject.input| && TestAccepts(m.subject, t,
                       m.subject.input[s.pos]) then [Res(s.pos + 1, caps)] else [],
                     s.stack, live)
  {
    if s.pos < |m.subject.input| && TestAccepts(m.subject, t, m.subject.input[s.pos]) {
      StepOffers(m, s, s.pc + TestSize(t), Res(s.pos + 1, caps), live);
    } else {
      StepFails(m, s, s.pc + TestSize(t), live);
    }
  }

  /** `prev`, the test, `prev`: a test of the character before the position. */
  lemma {:induction false} BackwardChar(m: Machine, t: CharTest, s: State, caps: seq<int>, live: seq<int>)
    requires s.Run? && InText(m.subject, s.pos) && MemIs(m, s.mem, caps, live)
    requires Fetch(m.code, s.pc) == Some(Prev) && Fetch(m.code, s.pc + 1) == Some(Test(t))
    requires Fetch(m.code, s.pc + 1 + TestSize(t)) == Some(Prev)
    ensures Explores(m, s, s.pc + 2 + TestSize(t),
                     if s.pos > 0 && TestAccepts(m.subject, t,
                       m.subject.input[s.pos - 1]) then [Res(s.pos - 1, caps)] else [],
                     s.stack, live)
  {
    var q := s.pc + 2 + TestSize(t);
    if s.pos == 0 {
      StepFails(m, s, q, live);
    } else {
      var s1 := Run(s.pc + 1, s.pos - 1, s.mem, s.stack);
      assert Step(m, s) == s1;
      if TestAccepts(m.subject, t, m.subject.input[s.pos - 1]) {
        var s2 := Run(s.pc + 1 + TestSize(t), s.pos, s.mem, s.stack);
        assert Step(m, s1) == s2;
        StepOffers(m, s2, q, Res(s.pos - 1, caps), live);
        StepThen(m, s1, q, [Res(s.pos - 1, caps)], s.stack, live);
        StepThen(m, s, q, [Res(s.pos - 1, caps)], s.stack, live);
      } else {
        StepFails(m, s1, q, live);
        StepThen(m, s, q, [], s.stack, live);
      }
    }
  }

  /** The code of a block takes any match offered at its start to the matches of the block. */
  lemma {:induction false} BlockContinues(m: Machine, n: Node, lo: nat, back: bool, q1: int, r: Res, live: seq<int>)
    requires Fits(m, n, lo, back, |live|) && At(m.code, q1, Code(n, lo, back, |live|)) && InText(m.subject, r.pos)
    ensures Resumes(m, q1, r, live, q1 + Len(Code(n, lo, back, |live|)), Then(m.subject, n, lo, back)(r), live)
    decreases n, 1, 0, 0
  {
    hide Explores, At, Code, Results, Len, MemIs, OnlySplits;
    var q, f := q1 + Len(Code(n, lo, back, |live|)), Then(m.subject, n, lo, back);
    forall t: State | t.Run? && Offers(m, t, q1, r, t.stack, live)
      ensures Explores(m, t, q, f(r), t.stack, live)
    {
      BlockExplores(m, n, lo, back, t, r.caps, live);
    }
  }

  lemma {:induction false} SeqExplores(m: Machine, n: Node, lo: nat, back: bool, s: State, caps: seq<int>,
      live: seq<int>)
    requires n.Seq? && Fits(m, n, lo, back, |live|) && Ready(m, s, Code(n, lo, back, |live|), caps, live)
    ensures Explores(m, s, s.pc + Len(Code(n, lo, back, |live|)), Results(m.subject, n, lo, back, s.pos, caps), s.stack,
        live)
    decreases n, 0, 0, 0, 0
  {
    hide Code, Results, At, Explores, Len, MemIs, InText, FlatMap, Then;
    var o := Ordered(n, lo, back);
    var c1, c2 := Code(o.0, o.1, back, |live|), Code(o.2, o.3, back, |live|);
    SeqShape(n, lo, back, |live|);
    AtAppend(m.code, s.pc, c1, c2);
    LenAppend(c1, c2);
    SeqResults(m.subject, n, lo, back, s.pos, caps);
    ThenExplores(m, n, o.0, o.1, o.2, o.3, back, s, caps, live);
  }

  /** Two blocks one after the other. */
  lemma {:induction false} ThenExplores(m: Machine, n: Node, n1: Node, p1: nat, n2: Node, p2: nat, back: bool, s: State,
      caps: seq<int>, live: seq<int>)
    requires n.Seq? && (n1 == n.left || n1 == n.right) && (n2 == n.left || n2 == n.right)
    requires Fits(m, n1, p1, back, |live|) && Ready(m, s, Code(n1, p1, back, |live|), caps, live)
    requires Fits(m, n2, p2, back, |live|)
    requires At(m.code, s.pc + Len(Code(n1, p1, back, |live|)), Code(n2, p2, back, |live|))
    ensures Explores(m, s, s.pc + Len(Code(n1, p1, back, |live|)) + Len(Code(n2, p2, back, |live|)),
                     FlatMap(Results(m.subject, n1, p1, back, s.pos, caps), Then(m.subject, n2, p2, back)), s.stack,
                       live)
    decreases n, 0, 0, 0, 0, 0
  {
    hide Code, Results, Explores, FlatMap, Fits, At, Len, MemIs, Then, Resumes, InText;
    ResultsInText(m.subject, n1, p1, back, s.pos, caps);
    var q1 := s.pc + Len(Code(n1, p1, back, |live|));
    var q := q1 + Len(Code(n2, p2, back, |live|));
    BlockExplores(m, n1, p1, back, s, caps, live);
    var rs := Results(m.subject, n1, p1, back, s.pos, caps);
    forall r | r in rs ensures Resumes(m, q1, r, live, q, Then(m.subject, n2, p2, back)(r), live) {
      BlockContinues(m, n2, p2, back, q1, r, live);
    }
    ExploresThen(m, s, q1, rs, s.stack, live, q, Then(m.subject, n2, p2, back), live);
  }

  // ---- alternatives, groups, lookarounds ----

  lemma {:induction false} AltCode(n: Node, lo: nat, back: bool, d: nat, code: seq<Instr>, pc: int)
    requires n.Alt?
    ensures var a, b := Len(Code(n.first, lo, back, d)), Len(Code(n.second, lo + GroupCount(n.first), back, d));
            && Len(Code(n, lo, back, d)) == 5 + a + 5 + b
            && (At(code, pc, Code(n, lo, back, d)) ==>
                && Fetch(code, pc) == Some(Split(false, a + 5)) && At(code, pc + 5, Code(n.first, lo, back, d))
                && Fetch(code, pc + 5 + a) == Some(Goto(b))
                && At(code, pc + 10 + a, Code(n.second, lo + GroupCount(n.first), back, d)))
  {
    hide Code, At, Len, Fetch, GroupCount;
    AltShape(n, lo, back, d);
    var a, b := Code(n.first, lo, back, d), Code(n.second, lo + GroupCount(n.first), back, d);
    Sandwich(code, pc, Split(false, Len(a) + 5), a, Goto(Len(b)), b);
  }

  lemma {:induction false} FitsAlt(m: Machine, n: Node, lo: nat, back: bool, d: nat)
    requires n.Alt? && Fits(m, n, lo, back, d)
    ensures Fits(m, n.first, lo, back, d) && Fits(m, n.second, lo + GroupCount(n.first), back, d)
  {
  }

  lemma {:induction false} AltExplores(m: Machine, n: Node, lo: nat, back: bool, s: State, caps: seq<int>,
      live: seq<int>)
    requires n.Alt? && Fits(m, n, lo, back, |live|) && Ready(m, s, Code(n, lo, back, |live|), caps, live)
    ensures Explores(m, s, s.pc + Len(Code(n, lo, back, |live|)), Results(m.subject, n, lo, back, s.pos, caps), s.stack,
        live)
    decreases n, 0, 0, 0, 0
  {
    hide Code, At, Explores, Fetch, Results, Fits, MemIs, Step, Len, Backtrack, OnlySplits, GroupCount;
    AltResults(m.subject, n, lo, back, s.pos, caps);
    FitsAlt(m, n, lo, back, |live|);
    AltCode(n, lo, back, |live|, m.code, s.pc);
    var lo2 := lo + GroupCount(n.first);
    var a, b := Len(Code(n.first, lo, back, |live|)), Len(Code(n.second, lo2, back, |live|));
    var k, q := s.stack, s.pc + 10 + a + b;
    var f := Frame(s.pc + 10 + a, s.pos, SplitFrame, s.mem);
    var s1 := Run(s.pc + 5, s.pos, s.mem, k + [f]);
    StepSplit(m, s, false, a + 5);
    BlockExplores(m, n.first, lo, back, s1, caps, live);
    var ra, rb := Results(m.subject, n.first, lo, back, s.pos, caps),
      Results(m.subject, n.second, lo2, back, s.pos, caps);
    GotoAfter(m, s1, s.pc + 5 + a, ra, k + [f], live, b);
    BacktrackSplit(k, f);
    BlockExplores(m, n.second, lo2, back, Run(f.pc, f.pos, f.mem, k), caps, live);
    ExploresAppend(m, s1, q, ra, k + [f], rb, k, live);
    StepThen(m, s, q, ra + rb, k, live);
  }

  lemma {:induction false} GroupCode(n: Node, lo: nat, back: bool, d: nat, code: seq<Instr>, pc: int)
    requires n.Group?
    ensures var a := Code(n.body, lo + 1, back, d);
            && Len(Code(n, lo, back, d)) == 2 + Len(a) + 2
            && (At(code, pc, Code(n, lo, back, d)) ==>
                && Fetch(code, pc) == Some(Save(back, lo)) && At(code, pc + 2, a)
                && Fetch(code, pc + 2 + Len(a)) == Some(Save(!back, lo)))
  {
    hide Code, At, Len, Fetch;
    GroupShape(n, lo, back, d);
    Enclosed(code, pc, Save(back, lo), Code(n.body, lo + 1, back, d), Save(!back, lo));
  }

  lemma {:induction false} FitsGroup(m: Machine, n: Node, lo: nat, back: bool, d: nat)
    requires n.Group? && Fits(m, n, lo, back, d)
    ensures lo < m.groups && Fits(m, n.body, lo + 1, back, d)
  {
  }

  lemma {:induction false} GroupExplores(m: Machine, n: Node, lo: nat, back: bool, s: State, caps: seq<int>,
      live: seq<int>)
    requires n.Group? && Fits(m, n, lo, back, |live|) && Ready(m, s, Code(n, lo, back, |live|), caps, live)
    ensures Explores(m, s, s.pc + Len(Code(n, lo, back, |live|)), Results(m.subject, n, lo, back, s.pos, caps), s.stack,
        live)
    decreases n, 0, 0, 0, 0
  {
    hide Code, At, Explores, Fetch, Results, FlatMap, Fits, MemIs, Step, Write, SetSlot, Len, Closed;
    GroupResults(m.subject, n, lo, back, s.pos, caps);
    FitsGroup(m, n, lo, back, |live|);
    GroupCode(n, lo, back, |live|, m.code, s.pc);
    var i, j := 2 * lo + B(back), 2 * lo + B(!back);
    var caps1 := SetSlot(caps, i, s.pos);
    StepSave(m, s, back, lo, caps, live);
    var s1 := Step(m, s);
    BlockExplores(m, n.body, lo + 1, back, s1, caps1, live);
    var rs := Results(m.subject, n.body, lo + 1, back, s.pos, caps1);
    var f := Closed(j);
    var q1 := s.pc + 2 + Len(Code(n.body, lo + 1, back, |live|));
    forall r | r in rs ensures Resumes(m, q1, r, live, q1 + 2, f(r), live) {
      SaveContinues(m, !back, lo, q1, r, live);
    }
    ExploresThen(m, s1, q1, rs, s.stack, live, q1 + 2, f, live);
    StepThen(m, s, q1 + 2, FlatMap(rs, f), s.stack, live);
  }

  lemma {:induction false} SaveContinues(m: Machine, end: bool, lo: nat, q1: int, r: Res, live: seq<int>)
    requires lo < m.groups && Fetch(m.code, q1) == Some(Save(end, lo))
    ensures Resumes(m, q1, r, live, q1 + 2, Closed(2 * lo + B(end))(r), live)
  {
    hide Explores, Fetch, MemIs, Step, Write, SetSlot;
    forall t: State | t.Run? && Offers(m, t, q1, r, t.stack, live)
      ensures Explores(m, t, q1 + 2, Closed(2 * lo + B(end))(r), t.stack, live)
    {
      StepSave(m, t, end, lo, r.caps, live);
      StepOffers(m, t, q1 + 2, Res(r.pos, SetSlot(r.caps, 2 * lo + B(end), r.pos)), live);
    }
  }

  lemma {:induction false} LookCode(n: Node, lo: nat, back: bool, d: nat, code: seq<Instr>, pc: int)
    requires n.Look?
    ensures var a := Len(Code(n.body, lo, n.behind, d));
            && Len(Code(n, lo, back, d)) == 5 + a + 1
            && (At(code, pc, Code(n, lo, back, d)) ==>
                && Fetch(code, pc) == Some(LookStart(n.negative, a + 1))
                  && At(code, pc + 5, Code(n.body, lo, n.behind, d))
                && Fetch(code, pc + 5 + a) == Some(LookMatch(n.negative)))
  {
    hide Code, At, Len, Fetch;
    LookShape(n, lo, back, d);
    var a := Code(n.body, lo, n.behind, d);
    Enclosed(code, pc, LookStart(n.negative, Len(a) + 1), a, LookMatch(n.negative));
  }

  /** Only split frames lie above the frame of a lookaround when its body has matched. */
  lemma {:induction false} FindUnderSplits(k1: seq<Frame>, k: seq<Frame>, kind: FrameKind)
    requires k1 != [] && Top(k1).kind == kind && kind != SplitFrame && OnlySplits(k1, k)
    ensures FindFrame(k, kind) == k1
    decreases |k|
  {
    if |k| == |k1| {
      assert k == k1;
    } else {
      FindUnderSplits(k1, Pop(k), kind);
    }
  }

  lemma {:induction false} LookExplores(m: Machine, n: Node, lo: nat, back: bool, s: State, caps: seq<int>,
      live: seq<int>)
    requires n.Look? && Fits(m, n, lo, back, |live|) && Ready(m, s, Code(n, lo, back, |live|), caps, live)
    ensures Explores(m, s, s.pc + Len(Code(n, lo, back, |live|)), Results(m.subject, n, lo, back, s.pos, caps), s.stack,
        live)
    decreases n, 0, 0, 0, 0
  {
    hide Code, At, Explores, Fetch;
    LookCode(n, lo, back, |live|, m.code, s.pc);
    var a := Code(n.body, lo, n.behind, |live|);
    var q1, q := s.pc + 5 + Len(a), s.pc + 5 + Len(a) + 1;
    var k := s.stack;
    var kind := if n.negative then NegLookFrame else LookFrame;
    var k1 := k + [Frame(q, s.pos, kind, s.mem)];
    var s1 := Run(s.pc + 5, s.pos, s.mem, k1);
    assert Step(m, s) == s1;
    BlockExplores(m, n.body, lo, n.behind, s1, caps, live);
    var rs := Results(m.subject, n.body, lo, n.behind, s.pos, caps);
    if n.negative {
      NegativeLook(m, s1, q1, q, rs, k, s.pos, s.mem, caps, live);
    } else {
      PositiveLook(m, s1, q1, q, rs, k, s.pos, s.mem, live);
    }
    StepThen(m, s, q, Results(m.subject, n, lo, back, s.pos, caps), k, live);
  }

  lemma {:induction false} PositiveLook(m: Machine, s1: State, q1: int, q: int, rs: seq<Res>, k: seq<Frame>, pos: int,
      mem: seq<int>, live: seq<int>)
    requires Fetch(m.code, q1) == Some(LookMatch(false))
    requires Explores(m, s1, q1, rs, k + [Frame(q, pos, LookFrame, mem)], live)
    ensures Explores(m, s1, q, if rs == [] then [] else [Res(pos, rs[0].caps)], k, live)
  {
    hide Explores, Fetch;
    var k1 := k + [Frame(q, pos, LookFrame, mem)];
    assert Pop(k1) == k && Backtrack(k1) == Backtrack(k);
    if rs == [] {
      ExploresEnd(m, s1, q1, k1, live);
      ExploresEnd(m, s1, q, k, live);
    } else {
      var t := ExploresFirst(m, s1, q1, rs, k1, live);
      FindUnderSplits(k1, t.stack, LookFrame);
      var u := Run(q, pos, t.mem, k);
      assert Step(m, t) == u;
      ExploresOne(m, u, q, Res(pos, rs[0].caps), k, live);
      StepThen(m, t, q, [Res(pos, rs[0].caps)], k, live);
      ExploresAfter(m, s1, t, q, [Res(pos, rs[0].caps)], k, live);
    }
  }

  lemma {:induction false} NegativeLook(m: Machine, s1: State, q1: int, q: int, rs: seq<Res>, k: seq<Frame>, pos: int,
      mem: seq<int>,
                     caps: seq<int>, live: seq<int>)
    requires Fetch(m.code, q1) == Some(LookMatch(true)) && MemIs(m, mem, caps, live)
    requires Explores(m, s1, q1, rs, k + [Frame(q, pos, NegLookFrame, mem)], live)
    ensures Explores(m, s1, q, if rs == [] then [Res(pos, caps)] else [], k, live)
  {
    hide Explores, Fetch;
    var k1 := k + [Frame(q, pos, NegLookFrame, mem)];
    assert Pop(k1) == k && Backtrack(k1) == Run(q, pos, mem, k);
    if rs == [] {
      ExploresEnd(m, s1, q1, k1, live);
      ExploresOne(m, Backtrack(k1), q, Res(pos, caps), k, live);
      ExploresAfter(m, s1, Backtrack(k1), q, [Res(pos, caps)], k, live);
    } else {
      var t := ExploresFirst(m, s1, q1, rs, k1, live);
      FindUnderSplits(k1, t.stack, NegLookFrame);
      assert Step(m, t) == Backtrack(k);
      ReachesStep(m, t, Backtrack(k));
      ReachesTrans(m, s1, t, Backtrack(k));
      ExploresEnd(m, s1, q, k, live);
    }
  }

  // ---- quantifiers ----

  lemma {:induction false} BlockWorksHere(m: Machine, n: Node, lo: nat, back: bool)
    ensures BlockWorks(m, n, lo, back)
    decreases n, 1, 0, 0
  {
    hide Code, Results, Explores, Len, Fits;
    forall s: State, caps: seq<int>, live: seq<int> | Fits(m, n, lo, back, |live|)
        && Ready(m, s, Code(n, lo, back, |live|), caps, live)
      ensures Explores(m, s, s.pc + Len(Code(n, lo, back, |live|)), Results(m.subject, n, lo, back, s.pos, caps),
          s.stack, live)
    {
      BlockExplores(m, n, lo, back, s, caps, live);
    }
  }

  lemma {:induction false} QuantExplores(m: Machine, n: Node, lo: nat, back: bool, s: State, caps: seq<int>,
      live: seq<int>)
    requires n.Quant? && Fits(m, n, lo, back, |live|) && Ready(m, s, Code(n, lo, back, |live|), caps, live)
    ensures Explores(m, s, s.pc + Len(Code(n, lo, back, |live|)), Results(m.subject, n, lo, back, s.pos, caps), s.stack,
        live)
    decreases n, 0, 0, 0, 0
  {
    hide Code, Results, Explores, Len, Fits, FitsLoop, BodyNeedsCheck, BodyNeedsInit, BlockWorks, At, MemIs, Quantified,
      LoopResults;
    var check, needInit := BodyNeedsCheck(n.body, lo, back), BodyNeedsInit(n.body, lo, back);
    QuantifiedCode(n, lo, back, |live|);
    QuantifiedResults(m.subject, n, lo, back, s.pos, caps);
    FitsQuant(m, n, lo, back, |live|);
    BlockWorksHere(m, n.body, lo, back);
    LoopExplores(m, n.body, lo, back, needInit, check, n.min, n.max, n.greedy, s, caps, live);
  }

  lemma {:induction false} QuantifiedCode(n: Node, lo: nat, back: bool, d: nat)
    requires n.Quant?
    ensures Code(n, lo, back, d) == Quantified(n.body, lo, back, BodyNeedsInit(n.body, lo, back),
        BodyNeedsCheck(n.body, lo, back),
                                               n.min, n.max, n.greedy, d)
  {
    hide Code, QuantCode, BodyNeedsInit, BodyNeedsCheck;
    QuantShape(n, lo, back, d);
  }

  lemma {:induction false} QuantifiedResults(s: Subject, n: Node, lo: nat, back: bool, pos: int, caps: seq<int>)
    requires n.Quant?
    ensures Results(s, n, lo, back, pos, caps) ==
            LoopResults(s, n.body, lo, back, BodyNeedsInit(n.body, lo, back), BodyNeedsCheck(n.body, lo, back),
                        n.min, n.max, n.greedy, pos, caps)
  {
    hide Results, Repeats, BodyNeedsInit, BodyNeedsCheck, ResetCaps, GroupCount;
    QuantResults(s, n, lo, back, pos, caps);
  }
}
