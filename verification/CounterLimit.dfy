/** The counted loop of `{min,}` counts down from INT32_MAX, so it stops after that many iterations although the
    quantifier is unbounded. The pattern `(?:|[^]){min,}` shows it: its match ends too early exactly when more than
    INT32_MAX - min characters are left. */
module CounterLimit {
  import opened RegexSyntax
  import opened Ecma
  import opened MatchLists
  import opened Bytecode
  import opened RawMatch
  import opened SnapshotMachine
  import opened Exploration
  import opened Agreement
  import opened RegexProgram

  /** `(?:|[^])`. */
  const BODY := Alt(Empty, Char(Any))

  /** `(?:|[^]){min,}`. */
  function Pattern(min: nat): Node { Quant(BODY, min, INFINITE, true) }

  function Least(a: int, b: int): int { if a < b then a else b }

  // ---- the standard ----

  /** The body matches the empty string first, then one character. */
  lemma BodyAll(s: Subject, x: MatchState)
    ensures All(s, BODY, 1, false, x) ==
            if 0 <= x.end < |s.input| then [x, MatchState(x.end + 1, x.captures)] else [x]
  {
    var a, b := All(s, Empty, 1, false, x), All(s, Char(Any), 1, false, x);
    assert All(s, BODY, 1, false, x) == a + b;
  }

  lemma {:induction false} StandardEnds(s: Subject, min: nat, x: MatchState)
    requires 0 <= x.end <= |s.input|
    ensures AllRepeat(s, BODY, 1, false, min, Inf, true, x) != []
    ensures AllRepeat(s, BODY, 1, false, min, Inf, true, x)[0].end == |s.input|
    decreases min, |s.input| - x.end
  {
    hide All, FlatMap;
    var xr := MatchState(x.end, ClearGroups(x.captures, 1, GroupCount(BODY)));
    var f := (y: MatchState) =>
      if min == 0 && !Advances(s, false, x.end, y.end) then []
      else AllRepeat(s, BODY, 1, false, Pred(min), BoundPred(Inf), true, y);
    PatternFacts(min);
    BodyAll(s, xr);
    var ys := All(s, BODY, 1, false, xr);
    assert AllRepeat(s, BODY, 1, false, min, Inf, true, x) ==
           if min != 0 then FlatMap(ys, f) else FlatMap(ys, f) + [x];
    if min > 0 {
      StandardEnds(s, min - 1, xr);
      assert f(xr) == AllRepeat(s, BODY, 1, false, Pred(min), Inf, true, xr);
      FlatMapFirst(ys, f);
    } else if x.end < |s.input| {
      var x1 := MatchState(x.end + 1, xr.captures);
      StandardEnds(s, 0, x1);
      FlatMapSecond(ys, f);
    } else {
      assert ys == [ys[0]];
      FlatMapOne(ys[0], f);
    }
  }

  lemma FlatMapFirst<A, B>(xs: seq<A>, f: A -> seq<B>)
    requires xs != [] && f(xs[0]) != []
    ensures FlatMap(xs, f) != [] && FlatMap(xs, f)[0] == f(xs[0])[0]
  {
  }

  lemma FlatMapSecond<A, B>(xs: seq<A>, f: A -> seq<B>)
    requires |xs| == 2 && f(xs[0]) == [] && f(xs[1]) != []
    ensures FlatMap(xs, f) != [] && FlatMap(xs, f)[0] == f(xs[1])[0]
  {
    assert FlatMap(xs, f) == FlatMap(xs[1..], f);
    assert xs[1..][0] == xs[1];
    FlatMapFirst(xs[1..], f);
  }

  lemma PatternFacts(min: nat)
    ensures GroupCount(BODY) == 0 && GroupCount(Pattern(min)) == 0 && Groups(Pattern(min)) == 1
    ensures min <= INFINITE ==> WellFormed(Pattern(min), 1)
    ensures min > 0 ==>
        forall left: nat, whole: nat :: CountersSuffice(Pattern(min), 1, false, left, whole) <==> min + left <= INFINITE
  {
    assert GroupCount(Empty) == 0 && GroupCount(Char(Any)) == 0;
    assert WellFormed(Empty, 1) && WellFormed(Char(Any), 1) && WellFormed(BODY, 1);
    BodyScan();
    hide BodyNeedsCheck;
    forall left: nat, whole: nat ensures min > 0 ==>
        (CountersSuffice(Pattern(min), 1, false, left, whole) <==> min + left <= INFINITE) {
      assert CountersSuffice(Empty, 1, false, left, whole) && CountersSuffice(Char(Any), 1, false, left, whole);
      assert CountersSuffice(BODY, 1, false, left, whole);
    }
  }

  /** The standard matches all the rest of the subject. */
  lemma {:induction false} StandardMatch(s: Subject, min: nat, index: nat)
    requires index <= |s.input|
    ensures MatchAt(s, Pattern(min), index).Some? && MatchAt(s, Pattern(min), index).value.end == |s.input|
  {
    hide All, Matcher, AllRepeat;
    var x := MatchState(index, Undefined(1));
    StandardEnds(s, min, x);
    PatternFacts(min);
    var accept := (y: MatchState) => Some(y);
    MatcherTakesFirst(s, Pattern(min), 1, false, x, accept);
    var ys := All(s, Pattern(min), 1, false, x);
    assert ys != [] ==> FirstSome(ys, accept) == Some(ys[0]);
    assert All(s, Pattern(min), 1, false, x) == AllRepeat(s, BODY, 1, false, min, Inf, true,
      x) by { PatternAll(s, min, x); }
  }

  lemma PatternAll(s: Subject, min: nat, x: MatchState)
    ensures All(s, Pattern(min), 1, false, x) == AllRepeat(s, BODY, 1, false, min, Inf, true, x)
  {
  }

  // ---- the emitted code ----

  lemma BodyResults(s: Subject, pos: int, caps: seq<int>)
    ensures Results(s, BODY, 1, false, pos, caps) ==
            if 0 <= pos < |s.input| then [Res(pos, caps), Res(pos + 1, caps)] else [Res(pos, caps)]
  {
    AltResults(s, BODY, 1, false, pos, caps);
    assert Results(s, Empty, 1, false, pos, caps) == [Res(pos, caps)];
  }

  /** The scan cannot tell that the body advances, so `{min,}` becomes a counted loop. */
  lemma BodyScan()
    ensures BodyNeedsCheck(BODY, 1, false) && BodyNeedsInit(BODY, 1, false)
  {
    AltShape(BODY, 1, false, -1);
    var c := Code(BODY, 1, false, -1);
    assert c != [] && c[0].Split?;
  }

  /** `count` iterations are left, `min` of which may be empty. */
  lemma {:induction false} LoopEnds(s: Subject, min: nat, count: nat, pos: int, caps: seq<int>)
    requires 0 <= pos <= |s.input| && min <= count
    ensures Repeats(s, BODY, 1, false, true, min, Fin(count), true, pos, caps) != []
    ensures Repeats(s, BODY, 1, false, true, min, Fin(count), true, pos, caps)[0].pos
        == Least(|s.input|, pos + count - min)
    decreases count
  {
    hide Results, FlatMap, Repeats;
    if count == 0 {
      NoneLeft(s, min, pos, caps);
    } else {
      var caps1 := IterationCaps(BODY, 1, true, caps);
      BodyResults(s, pos, caps1);
      RepeatsShape(s, BODY, 1, false, true, min, Fin(count), true, pos, caps);
      var ys, f := Results(s, BODY, 1, false, pos, caps1), NextRound(s, BODY, 1, false, true, min, Fin(count), true,
        pos);
      NextRoundIs(s, BODY, 1, false, true, min, Fin(count), true, pos, Res(pos, caps1));
      NextRoundIs(s, BODY, 1, false, true, min, Fin(count), true, pos, Res(pos + 1, caps1));
      if min > 0 {
        LoopEnds(s, min - 1, count - 1, pos, caps1);
        FlatMapFirst(ys, f);
      } else if pos < |s.input| {
        LoopEnds(s, 0, count - 1, pos + 1, caps1);
        FlatMapSecond(ys, f);
      } else {
        assert ys == [ys[0]];
        FlatMapOne(ys[0], f);
      }
    }
  }

  lemma NoneLeft(s: Subject, min: nat, pos: int, caps: seq<int>)
    ensures Repeats(s, BODY, 1, false, true, min, Fin(0), true, pos, caps) == [Res(pos, caps)]
  {
  }

  lemma {:induction false} EmittedEnds(s: Subject, min: nat, index: nat, caps: seq<int>)
    requires 0 < min <= INFINITE && index <= |s.input|
    ensures Results(s, Pattern(min), 1, false, index, caps) != []
    ensures Results(s, Pattern(min), 1, false, index, caps)[0].pos == Least(|s.input|, index + INFINITE - min)
  {
    hide Results, Repeats, BodyNeedsCheck, BodyNeedsInit;
    BodyScan();
    QuantResults(s, Pattern(min), 1, false, index, caps);
    LoopEnds(s, min, INFINITE, index, caps);
  }

  /** The emitted program ends its match `INT32_MAX - min` characters on or at the end of the subject, whichever
      comes first. */
  lemma {:induction false} ProgramEnds(s: Subject, min: nat, sticky: bool, index: nat, mem: seq<int>) returns (t: State)
    requires ValidSubject(s) && 0 < min <= INFINITE && index <= |s.input|
        && InitialMemory(MachineFor(Pattern(min), sticky, s), mem)
    ensures Decides(MachineFor(Pattern(min), sticky, s), Run(0, index, mem, []), t)
    ensures t.Matched? && t.end == Least(|s.input|, index + INFINITE - min)
  {
    hide Results, Program, Reaches, Step, SetSlot, MemIs;
    var n := Pattern(min);
    var m := MachineFor(n, sticky, s);
    var caps := mem[..2 * m.groups];
    var k := if sticky then [] else [Frame(5, index, SplitFrame, mem)];
    var s0, s1 := Run(0, index, mem, []), Run(Start(sticky), index, mem, k);
    PatternFacts(min);
    MemStart(m, mem);
    Enter(n, sticky, s, index, mem);
    Attempt(n, sticky, s, s1, caps);
    EmittedEnds(s, min, index, SetSlot(caps, 0, index));
    var rs := Results(s, n, 1, false, index, SetSlot(caps, 0, index));
    var mem1 :| Reaches(m, s1, Matched(rs[0].pos, mem1));
    t := Matched(rs[0].pos, mem1);
    ReachesTrans(m, s0, s1, t);
  }

  lemma MemStart(m: Machine, mem: seq<int>)
    requires InitialMemory(m, mem)
    ensures MemIs(m, mem, mem[..2 * m.groups], [])
  {
  }

  /** For this pattern the outcome is the one of the standard exactly when the counter suffices. */
  lemma {:induction false} CountersExact(s: Subject, min: nat, sticky: bool, index: nat, mem: seq<int>)
      returns (t: State)
    requires ValidSubject(s) && 0 < min <= INFINITE && index <= |s.input|
        && InitialMemory(MachineFor(Pattern(min), sticky, s), mem)
    ensures Decides(MachineFor(Pattern(min), sticky, s), Run(0, index, mem, []), t)
    ensures Outcome(MachineFor(Pattern(min), sticky, s), t, Search(s, Pattern(min), sticky, index)) <==>
            CountersSuffice(Pattern(min), 1, false, |s.input| - index, |s.input|)
    ensures CountersSuffice(Pattern(min), 1, false, |s.input| - index, |s.input|) <==>
        min + |s.input| - index <= INFINITE
  {
    hide Decides, Results, MatchAt, Program, Strong, CountersSuffice;
    var n := Pattern(min);
    StandardMatch(s, min, index);
    PatternFacts(min);
    if min + |s.input| - index <= INFINITE {
      t := ProgramDecides(n, sticky, s, index, mem);
    } else {
      t := ProgramEnds(s, min, sticky, index, mem);
      assert t.end < |s.input|;
    }
  }

  // ---- a body that always advances ----

  /** `[^]{min,}`, a counted loop for `min` of at least 2. */
  function Advancing(min: nat): Node { Quant(Char(Any), min, INFINITE, true) }

  lemma RunFacts(min: nat)
    ensures GroupCount(Advancing(min)) == 0 && Groups(Advancing(min)) == 1
        && (min <= INFINITE ==> WellFormed(Advancing(min), 1))
    ensures !BodyNeedsCheck(Char(Any), 1, false)
    ensures min >= 2 ==>
        forall left: nat, whole: nat :: CountersSuffice(Advancing(min), 1, false, left, whole) <==> left <= INFINITE
  {
    assert GroupCount(Char(Any)) == 0 && WellFormed(Char(Any), 1);
    var c := Code(Char(Any), 1, false, -1);
    assert |c| == 1;
    hide BodyNeedsCheck;
    forall left: nat, whole: nat ensures min >= 2 ==>
        (CountersSuffice(Advancing(min), 1, false, left, whole) <==> left <= INFINITE) {
      assert CountersSuffice(Char(Any), 1, false, left, whole);
    }
  }

  lemma {:induction false} StandardRun(s: Subject, min: nat, x: MatchState)
    requires 0 <= x.end <= |s.input|
    ensures var ys := AllRepeat(s, Char(Any), 1, false, min, Inf, true, x);
            if |s.input| - x.end < min then ys == [] else ys != [] && ys[0].end == |s.input|
    decreases |s.input| - x.end
  {
    hide FlatMap;
    var xr := MatchState(x.end, ClearGroups(x.captures, 1, GroupCount(Char(Any))));
    var f := (y: MatchState) =>
      if min == 0 && !Advances(s, false, x.end, y.end) then []
      else AllRepeat(s, Char(Any), 1, false, Pred(min), BoundPred(Inf), true, y);
    var ys := All(s, Char(Any), 1, false, xr);
    assert ys == if x.end < |s.input| then [MatchState(x.end + 1, xr.captures)] else [];
    assert AllRepeat(s, Char(Any), 1, false, min, Inf, true, x) ==
           if min != 0 then FlatMap(ys, f) else FlatMap(ys, f) + [x];
    if x.end < |s.input| {
      var x1 := MatchState(x.end + 1, xr.captures);
      StandardRun(s, Pred(min), x1);
      assert f(x1) == AllRepeat(s, Char(Any), 1, false, Pred(min), Inf, true, x1);
      FlatMapSingle(x1, f);
    } else {
      FlatMapNone(f);
    }
  }

  lemma FlatMapSingle<A, B>(x: A, f: A -> seq<B>)
    ensures FlatMap([x], f) == f(x)
  {
    assert [x][1..] == [];
  }

  lemma FlatMapNone<A, B>(f: A -> seq<B>)
    ensures FlatMap([], f) == []
  {
  }

  lemma {:induction false} StandardRunMatch(s: Subject, min: nat, index: nat)
    requires index <= |s.input|
    ensures min + index <= |s.input| ==>
        MatchAt(s, Advancing(min), index).Some? && MatchAt(s, Advancing(min), index).value.end == |s.input|
  {
    hide All, Matcher, AllRepeat;
    var x := MatchState(index, Undefined(1));
    StandardRun(s, min, x);
    RunFacts(min);
    var accept := (y: MatchState) => Some(y);
    MatcherTakesFirst(s, Advancing(min), 1, false, x, accept);
    var ys := All(s, Advancing(min), 1, false, x);
    assert ys != [] ==> FirstSome(ys, accept) == Some(ys[0]);
    assert ys == AllRepeat(s, Char(Any), 1, false, min, Inf, true, x) by { RunAll(s, min, x); }
  }

  lemma RunAll(s: Subject, min: nat, x: MatchState)
    ensures All(s, Advancing(min), 1, false, x) == AllRepeat(s, Char(Any), 1, false, min, Inf, true, x)
  {
  }

  lemma {:induction false} EmittedRun(s: Subject, needInit: bool, min: nat, count: nat, pos: int, caps: seq<int>)
    requires 0 <= pos <= |s.input| && min <= count && min + pos <= |s.input|
    ensures var rs := Repeats(s, Char(Any), 1, false, needInit, min, Fin(count), true, pos, caps);
            rs != [] && rs[0].pos == Least(|s.input|, pos + count)
    decreases count
  {
    hide FlatMap, Repeats;
    if count == 0 {
      assert Repeats(s, Char(Any), 1, false, needInit, min, Fin(0), true, pos, caps)
        == [Res(pos, caps)] by { NoRunLeft(s, needInit, min, pos, caps); }
    } else {
      var caps1 := IterationCaps(Char(Any), 1, needInit, caps);
      RepeatsShape(s, Char(Any), 1, false, needInit, min, Fin(count), true, pos, caps);
      var ys, f := Results(s, Char(Any), 1, false, pos, caps1),
        NextRound(s, Char(Any), 1, false, needInit, min, Fin(count), true, pos);
      assert ys == if pos < |s.input| then [Res(pos + 1, caps1)] else [];
      if pos < |s.input| {
        NextRoundIs(s, Char(Any), 1, false, needInit, min, Fin(count), true, pos, Res(pos + 1, caps1));
        EmittedRun(s, needInit, Pred(min), count - 1, pos + 1, caps1);
        FlatMapSingle(Res(pos + 1, caps1), f);
      } else {
        FlatMapNone(f);
      }
    }
  }

  lemma NoRunLeft(s: Subject, needInit: bool, min: nat, pos: int, caps: seq<int>)
    ensures Repeats(s, Char(Any), 1, false, needInit, min, Fin(0), true, pos, caps) == [Res(pos, caps)]
  {
  }

  lemma {:induction false} EmittedRunEnds(s: Subject, min: nat, index: nat, caps: seq<int>)
    requires 2 <= min <= INFINITE && min + index <= |s.input|
    ensures Results(s, Advancing(min), 1, false, index, caps) != []
    ensures Results(s, Advancing(min), 1, false, index, caps)[0].pos == Least(|s.input|, index + INFINITE)
  {
    hide Results, Repeats, BodyNeedsCheck, BodyNeedsInit;
    RunFacts(min);
    QuantResults(s, Advancing(min), 1, false, index, caps);
    EmittedRun(s, BodyNeedsInit(Char(Any), 1, false), min, INFINITE, index, caps);
  }

  lemma {:induction false} RunEnds(s: Subject, min: nat, sticky: bool, index: nat, mem: seq<int>) returns (t: State)
    requires ValidSubject(s) && 2 <= min <= INFINITE && min + index <= |s.input|
        && InitialMemory(MachineFor(Advancing(min), sticky, s), mem)
    ensures Decides(MachineFor(Advancing(min), sticky, s), Run(0, index, mem, []), t)
    ensures t.Matched? && t.end == Least(|s.input|, index + INFINITE)
  {
    hide Results, Program, Reaches, Step, SetSlot, MemIs;
    var n := Advancing(min);
    var m := MachineFor(n, sticky, s);
    var caps := mem[..2 * m.groups];
    var k := if sticky then [] else [Frame(5, index, SplitFrame, mem)];
    var s0, s1 := Run(0, index, mem, []), Run(Start(sticky), index, mem, k);
    RunFacts(min);
    MemStart(m, mem);
    Enter(n, sticky, s, index, mem);
    Attempt(n, sticky, s, s1, caps);
    EmittedRunEnds(s, min, index, SetSlot(caps, 0, index));
    var rs := Results(s, n, 1, false, index, SetSlot(caps, 0, index));
    var mem1 :| Reaches(m, s1, Matched(rs[0].pos, mem1));
    t := Matched(rs[0].pos, mem1);
    ReachesTrans(m, s0, s1, t);
  }

  /** For a body that always advances the condition is exact, too: `[^]{min,}` ends too early exactly when more than
      INT32_MAX characters are left. */
  lemma {:induction false} AdvancingExact(s: Subject, min: nat, sticky: bool, index: nat, mem: seq<int>)
      returns (t: State)
    requires ValidSubject(s) && 2 <= min <= INFINITE && index <= |s.input|
        && InitialMemory(MachineFor(Advancing(min), sticky, s), mem)
    ensures Decides(MachineFor(Advancing(min), sticky, s), Run(0, index, mem, []), t)
    ensures Outcome(MachineFor(Advancing(min), sticky, s), t, Search(s, Advancing(min), sticky, index)) <==>
            CountersSuffice(Advancing(min), 1, false, |s.input| - index, |s.input|)
    ensures CountersSuffice(Advancing(min), 1, false, |s.input| - index, |s.input|) <==> |s.input| - index <= INFINITE
  {
    hide Decides, Results, MatchAt, Program, Strong, CountersSuffice;
    var n := Advancing(min);
    StandardRunMatch(s, min, index);
    RunFacts(min);
    if |s.input| - index <= INFINITE {
      t := ProgramDecides(n, sticky, s, index, mem);
    } else {
      t := RunEnds(s, min, sticky, index, mem);
      assert t.end < |s.input|;
    }
  }
}
