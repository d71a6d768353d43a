/** Single steps, memory effects and code layout: the building blocks of the proof that emitted code
    explores the matches of its pattern. */
module BlockBasics {
  import opened RegexSyntax
  import opened MatchLists
  import opened Bytecode
  import opened RawMatch
  import opened RawMatchFacts
  import opened SnapshotMachine
  import opened Exploration

  // ---- effects of the memory instructions ----

  lemma {:induction false} WriteCapture(m: Machine, mem: seq<int>, caps: seq<int>, live: seq<int>, i: nat, v: int)
    requires MemIs(m, mem, caps, live) && i < 2 * m.groups
    ensures MemIs(m, Write(mem, i, v), SetSlot(caps, i, v), live)
  {
  }

  lemma {:induction false} WriteNewRegister(m: Machine, mem: seq<int>, caps: seq<int>, live: seq<int>, v: int)
    requires MemIs(m, mem, caps, live) && |live| < m.regs
    ensures MemIs(m, Write(mem, RegSlot(m, |live|), v), caps, live + [v])
  {
  }

  lemma {:induction false} WriteRegister(m: Machine, mem: seq<int>, caps: seq<int>, live: seq<int>, r: nat, v: int)
    requires MemIs(m, mem, caps, live) && r < |live|
    ensures MemIs(m, Write(mem, RegSlot(m, r), v), caps, live[r := v])
    ensures Read(mem, RegSlot(m, r)) == live[r]
  {
  }

  lemma {:induction false} ForgetRegisters(m: Machine, mem: seq<int>, caps: seq<int>, live: seq<int>, live1: seq<int>)
    requires MemIs(m, mem, caps, live1) && live <= live1
    ensures MemIs(m, mem, caps, live)
  {
  }

  lemma {:induction false} ClearCaptures(m: Machine, mem: seq<int>, caps: seq<int>, live: seq<int>, lo: nat, n: nat)
    requires MemIs(m, mem, caps, live) && n > 0 && lo + n <= m.groups
    ensures MemIs(m, ClearSlots(mem, lo, lo + n - 1), ResetCaps(caps, lo, n), live)
  {
  }

  lemma {:induction false} RefAgrees(m: Machine, back: bool, ic: bool, groups: seq<nat>, pos: int, mem: seq<int>,
      caps: seq<int>, live: seq<int>)
    requires MemIs(m, mem, caps, live)
    ensures RefTarget(m, back, ic, groups, pos, mem) == RefEnd(m.subject, back, ic, groups, pos, caps)
    decreases |groups|
  {
    if groups != [] {
      if groups[0] < m.groups {
        assert caps[2 * groups[0]] == mem[2 * groups[0]] && caps[2 * groups[0] + 1] == mem[2 * groups[0] + 1];
      }
      RefAgrees(m, back, ic, groups[1..], pos, mem, caps, live);
    }
  }

  // ---- single steps ----

  lemma {:induction false} StepIs(m: Machine, s: State, i: Instr)
    requires s.Run? && Fetch(m.code, s.pc) == Some(i)
    ensures Step(m, s) == Execute(m, s, i, s.pc + Size(i))
  {
  }

  lemma {:induction false} StepSave(m: Machine, s: State, end: bool, g: nat, caps: seq<int>, live: seq<int>)
    requires s.Run? && Fetch(m.code, s.pc) == Some(Save(end, g)) && g < m.groups && MemIs(m, s.mem, caps, live)
    ensures Step(m, s) == Run(s.pc + 2, s.pos, Write(s.mem, 2 * g + B(end), s.pos), s.stack)
    ensures MemIs(m, Write(s.mem, 2 * g + B(end), s.pos), SetSlot(caps, 2 * g + B(end), s.pos), live)
  {
    WriteCapture(m, s.mem, caps, live, 2 * g + B(end), s.pos);
  }

  lemma {:induction false} StepSplit(m: Machine, s: State, gotoFirst: bool, offset: int)
    requires s.Run? && Fetch(m.code, s.pc) == Some(Split(gotoFirst, offset))
    ensures Step(m, s) == Branch(s.pc + 5, s.pc + 5 + offset, gotoFirst, s.pos, s.mem, s.stack)
  {
  }

  lemma {:induction false} BacktrackSplit(k: seq<Frame>, f: Frame)
    requires f.kind != LookFrame
    ensures Backtrack(k + [f]) == Run(f.pc, f.pos, f.mem, k)
    ensures OnlySplits(k, k)
    ensures f.kind == SplitFrame ==> OnlySplits(k, k + [f])
  {
    assert Pop(k + [f]) == k;
  }

  /** One instruction that ends the block with a match. */
  lemma {:induction false} StepOffers(m: Machine, s: State, q: int, r: Res, live: seq<int>)
    requires s.Run?
    requires Offers(m, Step(m, s), q, r, s.stack, live) && Step(m, s).stack == s.stack
    ensures Explores(m, s, q, [r], s.stack, live)
  {
    ExploresOne(m, Step(m, s), q, r, s.stack, live);
    StepThen(m, s, q, [r], s.stack, live);
  }

  /** One instruction that fails. */
  lemma {:induction false} StepFails(m: Machine, s: State, q: int, live: seq<int>)
    requires s.Run? && Step(m, s) == Backtrack(s.stack)
    ensures Explores(m, s, q, [], s.stack, live)
  {
    ExploresNone(m, s.stack, q, live);
    StepThen(m, s, q, [], s.stack, live);
  }

  lemma {:induction false} FlatMapUnit(xs: seq<Res>)
    ensures FlatMap(xs, (x: Res) => [x]) == xs
  {
    if xs != [] {
      FlatMapUnit(xs[1..]);
    }
  }

  /** Two ways out of a split: run on to explore `iter`, or take the exit `q` with `r0`. */
  lemma {:induction false} Choice(m: Machine, next: int, q: int, greedy: bool, pos: int, mem: seq<int>, k: seq<Frame>,
               iter: seq<Res>, caps: seq<int>, live: seq<int>)
    requires MemIs(m, mem, caps, live)
    requires var k1 := if greedy then k + [Frame(q, pos, SplitFrame, mem)] else k;
             Explores(m, Run(next, pos, mem, k1), q, iter, k1, live)
    ensures Explores(m, Branch(next, q, !greedy, pos, mem, k), q,
                     if greedy then iter + [Res(pos, caps)] else [Res(pos, caps)] + iter, k, live)
  {
    var r0 := Res(pos, caps);
    if greedy {
      var k1 := k + [Frame(q, pos, SplitFrame, mem)];
      assert Pop(k1) == k && Top(k1) == Frame(q, pos, SplitFrame, mem);
      assert Backtrack(k1) == Run(q, pos, mem, k);
      ExploresOne(m, Backtrack(k1), q, r0, k, live);
      ExploresAppend(m, Run(next, pos, mem, k1), q, iter, k1, [r0], k, live);
    } else {
      var k1 := k + [Frame(next, pos, SplitFrame, mem)];
      assert Pop(k1) == k && Top(k1) == Frame(next, pos, SplitFrame, mem);
      assert Backtrack(k1) == Run(next, pos, mem, k);
      var t := Run(q, pos, mem, k1);
      ReachesSelf(m, t);
      ExploresCons(m, t, t, q, r0, iter, k, live);
    }
  }

  /** What a block needs of the machine it runs on. */
  ghost predicate Fits(m: Machine, n: Node, lo: nat, back: bool, d: nat) {
    && ValidSubject(m.subject) && WellFormed(n, m.groups)
    && lo + GroupCount(n) <= m.groups
    && d + RegCount(n, lo, back) <= m.regs
  }

  predicate Ready(m: Machine, s: State, code: seq<Instr>, caps: seq<int>, live: seq<int>) {
    s.Run? && At(m.code, s.pc, code) && InText(m.subject, s.pos) && MemIs(m, s.mem, caps, live)
  }

  lemma {:induction false} One(i: Instr)
    ensures Len([i]) == Size(i)
  {
    assert Len([i][1..]) == 0;
  }

  /** Where the parts of a block `[i] + a + [j] + b` lie. */
  lemma {:induction false} Sandwich(code: seq<Instr>, pc: int, i: Instr, a: seq<Instr>, j: Instr, b: seq<Instr>)
    ensures var block := [i] + a + [j] + b;
            && Len(block) == Size(i) + Len(a) + Size(j) + Len(b)
            && (At(code, pc, block) ==>
                && Fetch(code, pc) == Some(i) && At(code, pc + Size(i), a)
                && Fetch(code, pc + Size(i) + Len(a)) == Some(j) && At(code, pc + Size(i) + Len(a) + Size(j), b))
  {
    hide At, Size;
    assert [i] + a + [j] + b == [i] + (a + ([j] + b));
    LenAppend([i], a + ([j] + b)); LenAppend(a, [j] + b); LenAppend([j], b); One(i); One(j);
    AtCons(code, pc, i, a + ([j] + b));
    AtAppend(code, pc + Size(i), a, [j] + b);
    AtCons(code, pc + Size(i) + Len(a), j, b);
  }

  lemma {:induction false} Enclosed(code: seq<Instr>, pc: int, i: Instr, a: seq<Instr>, j: Instr)
    ensures var block := [i] + a + [j];
            && Len(block) == Size(i) + Len(a) + Size(j)
            && (At(code, pc, block) ==>
                Fetch(code, pc) == Some(i) && At(code, pc + Size(i), a)
                  && Fetch(code, pc + Size(i) + Len(a)) == Some(j))
  {
    assert Len([]) == 0;
    hide At, Size, Len, Fetch;
    assert [i] + a + [j] == [i] + a + [j] + [];
    Sandwich(code, pc, i, a, j, []);
  }

  /** A `goto` after a block moves every match to its target. */
  lemma {:induction false} GotoAfter(m: Machine, s: State, q1: int, rs: seq<Res>, k: seq<Frame>, live: seq<int>,
      offset: int)
    requires Explores(m, s, q1, rs, k, live)
    requires Fetch(m.code, q1) == Some(Goto(offset))
    ensures Explores(m, s, q1 + 5 + offset, rs, k, live)
  {
    hide Explores, Fetch;
    var q, f := q1 + 5 + offset, (x: Res) => [x];
    forall r | r in rs ensures Resumes(m, q1, r, live, q, f(r), live) {
      forall t: State | t.Run? && Offers(m, t, q1, r, t.stack, live)
        ensures Explores(m, t, q, f(r), t.stack, live)
      {
        StepOffers(m, t, q, r, live);
      }
    }
    ExploresThen(m, s, q1, rs, k, live, q, f, live);
    FlatMapUnit(rs);
  }

  /** The code of `n`, wherever it lies and whatever the state it starts in, explores the matches of `n`. */
  ghost predicate BlockWorks(m: Machine, n: Node, lo: nat, back: bool) {
    forall s: State, caps: seq<int>, live: seq<int> {:trigger Ready(m, s, Code(n, lo, back, |live|), caps, live)} ::
      Fits(m, n, lo, back, |live|) && Ready(m, s, Code(n, lo, back, |live|), caps, live) ==>
        Explores(m, s, s.pc + Len(Code(n, lo, back, |live|)), Results(m.subject, n, lo, back, s.pos, caps), s.stack,
          live)
  }
}
