/** Facts about raw matches: they never move against the direction, and what the static scan of
    the compiler concludes about a loop body is true of all its matches. */
module RawMatchFacts {
  import opened RegexSyntax
  import opened Ecma
  import opened MatchLists
  import opened Bytecode
  import opened RawMatch

  /** Every match lies at or beyond `pos` and keeps the number of capture slots. */
  ghost predicate Forward(s: Subject, back: bool, pos: int, k: nat, rs: seq<Res>) {
    forall y :: y in rs ==> NotBehind(s, back, pos, y.pos) && |y.caps| == k
  }

  predicate InText(s: Subject, pos: int) { 0 <= pos <= |s.input| }

  lemma {:induction false} FlatMapForward(s: Subject, back: bool, pos: int, k: nat, xs: seq<Res>, f: Res -> seq<Res>)
    requires InText(s, pos) && Forward(s, back, pos, k, xs)
    requires forall x :: x in xs ==> Forward(s, back, x.pos, k, f(x))
    ensures Forward(s, back, pos, k, FlatMap(xs, f))
  {
    forall y | y in FlatMap(xs, f) ensures NotBehind(s, back, pos, y.pos) && |y.caps| == k {
      FlatMapMember(xs, f, y);
      var i :| 0 <= i < |xs| && y in f(xs[i]);
      assert xs[i] in xs;
    }
  }

  /** Matching never moves against its direction. */
  lemma {:induction false} ResultsForward(s: Subject, n: Node, lo: nat, back: bool, pos: int, caps: seq<int>)
    requires InText(s, pos)
    ensures Forward(s, back, pos, |caps|, Results(s, n, lo, back, pos, caps))
    decreases n, 0, 0, 0
  {
    hide Results, FlatMap, Repeats, Forward;
    match n
    case Seq(_, _) => SeqForward(s, n, lo, back, pos, caps);
    case Alt(_, _) => AltForward(s, n, lo, back, pos, caps);
    case Quant(b, min, max, greedy) =>
      var check, needInit := BodyNeedsCheck(b, lo, back), BodyNeedsInit(b, lo, back);
      RepeatsForward(s, b, lo, back, needInit, min, CodedBound(min, max, check), greedy, pos,
                     if min == 0 && !needInit then ResetCaps(caps, lo, GroupCount(b)) else caps);
      QuantResults(s, n, lo, back, pos, caps);
    case Group(_) => GroupForward(s, n, lo, back, pos, caps);
    case Look(_, _, _) => LookForward(s, n, lo, back, pos, caps);
    case Empty => LeafForward(s, n, lo, back, pos, caps);
    case Char(_) => LeafForward(s, n, lo, back, pos, caps);
    case Assert(_) => LeafForward(s, n, lo, back, pos, caps);
    case BackRef(_, _) => LeafForward(s, n, lo, back, pos, caps);
  }

  lemma {:induction false} LeafForward(s: Subject, n: Node, lo: nat, back: bool, pos: int, caps: seq<int>)
    requires InText(s, pos) && (n.Empty? || n.Char? || n.Assert? || n.BackRef?)
    ensures Forward(s, back, pos, |caps|, Results(s, n, lo, back, pos, caps))
  {
    hide RefEnd, TestAccepts, AssertionHolds;
  }

  lemma {:induction false} AltForward(s: Subject, n: Node, lo: nat, back: bool, pos: int, caps: seq<int>)
    requires InText(s, pos) && n.Alt?
    ensures Forward(s, back, pos, |caps|, Results(s, n, lo, back, pos, caps))
    decreases n, 0, 0, 0, 0
  {
    hide Results;
    AltResults(s, n, lo, back, pos, caps);
    ResultsForward(s, n.first, lo, back, pos, caps);
    ResultsForward(s, n.second, lo + GroupCount(n.first), back, pos, caps);
  }

  lemma {:induction false} GroupForward(s: Subject, n: Node, lo: nat, back: bool, pos: int, caps: seq<int>)
    requires InText(s, pos) && n.Group?
    ensures Forward(s, back, pos, |caps|, Results(s, n, lo, back, pos, caps))
    decreases n, 0, 0, 0, 0
  {
    hide Results, FlatMap;
    GroupResults(s, n, lo, back, pos, caps);
    var caps1 := SetSlot(caps, 2 * lo + B(back), pos);
    ResultsForward(s, n.body, lo + 1, back, pos, caps1);
    FlatMapForward(s, back, pos, |caps|, Results(s, n.body, lo + 1, back, pos, caps1), Closed(2 * lo + B(!back)));
  }

  lemma {:induction false} LookForward(s: Subject, n: Node, lo: nat, back: bool, pos: int, caps: seq<int>)
    requires InText(s, pos) && n.Look?
    ensures Forward(s, back, pos, |caps|, Results(s, n, lo, back, pos, caps))
    decreases n, 0, 0, 0, 0
  {
    ResultsForward(s, n.body, lo, n.behind, pos, caps);
    var r := Results(s, n.body, lo, n.behind, pos, caps);
    assert r != [] ==> r[0] in r;
  }

  lemma {:induction false} SeqForward(s: Subject, n: Node, lo: nat, back: bool, pos: int, caps: seq<int>)
    requires InText(s, pos) && n.Seq?
    ensures Forward(s, back, pos, |caps|, Results(s, n, lo, back, pos, caps))
    decreases n, 0, 0, 0, 0
  {
    hide Results, FlatMap;
    var (n1, p1, n2, p2) := Ordered(n, lo, back);
    ResultsForward(s, n1, p1, back, pos, caps);
    var xs := Results(s, n1, p1, back, pos, caps);
    var f := Then(s, n2, p2, back);
    forall x | x in xs ensures Forward(s, back, x.pos, |caps|, f(x)) {
      ResultsForward(s, n2, p2, back, x.pos, x.caps);
    }
    FlatMapForward(s, back, pos, |caps|, xs, f);
    SeqResults(s, n, lo, back, pos, caps);
  }

  lemma {:induction false} RepeatsForward(s: Subject, b: Node, lo: nat, back: bool, needInit: bool, min: nat,
      max: Bound, greedy: bool,
                       pos: int, caps: seq<int>)
    requires InText(s, pos)
    ensures Forward(s, back, pos, |caps|, Repeats(s, b, lo, back, needInit, min, max, greedy, pos, caps))
    decreases b, 1, min, Remaining(s, back, pos)
  {
    if !BoundIsZero(max) {
      var caps1 := IterationCaps(b, lo, needInit, caps);
      ResultsForward(s, b, lo, back, pos, caps1);
      var xs := Results(s, b, lo, back, pos, caps1);
      var f := (y: Res) => AfterBody(s, b, lo, back, needInit, min, max, greedy, pos, y);
      forall x | x in xs ensures Forward(s, back, x.pos, |caps|, f(x)) {
        if !(min == 0 && !Advances(s, back, pos, x.pos)) {
          RepeatsForward(s, b, lo, back, needInit, Pred(min), BoundPred(max), greedy, x.pos, x.caps);
        }
      }
      FlatMapForward(s, back, pos, |caps|, xs, f);
    }
  }

  lemma {:induction false} ResultsInText(s: Subject, n: Node, lo: nat, back: bool, pos: int, caps: seq<int>)
    requires InText(s, pos)
    ensures forall r :: r in Results(s, n, lo, back, pos, caps) ==> InText(s, r.pos) && NotBehind(s, back, pos, r.pos)
  {
    ResultsForward(s, n, lo, back, pos, caps);
  }

  /** Every match lies strictly beyond `pos`. */
  ghost predicate AllAdvance(s: Subject, back: bool, pos: int, rs: seq<Res>) {
    forall y :: y in rs ==> Advances(s, back, pos, y.pos)
  }

  /** A straight-line block without a character test: the scan goes through it to what follows. */
  predicate ScannedThrough(code: seq<Instr>) {
    forall i :: 0 <= i < |code| ==> EffectOf(code[i]) in {Neutral, ReadsCaptures}
  }

  lemma {:induction false} ScanAppend(a: seq<Instr>, b: seq<Instr>)
    ensures NeedsAdvanceCheck(a + b)
        == if !NeedsAdvanceCheck(a) then false else if ScannedThrough(a) then NeedsAdvanceCheck(b) else true
  {
    if a == [] {
      assert a + b == b;
    } else {
      assert (a + b)[1..] == a[1..] + b;
      ScanAppend(a[1..], b);
      assert a == [a[0]] + a[1..];
      assert EffectOf(a[0]) in {Neutral, ReadsCaptures} ==> (ScannedThrough(a) <==> ScannedThrough(a[1..]));
    }
  }

  lemma {:induction false} ScanCons(i: Instr, b: seq<Instr>)
    ensures NeedsAdvanceCheck([i] + b)
        == match EffectOf(i) { case Moves => false case Unpredictable => true case _ => NeedsAdvanceCheck(b) }
  {
    assert ([i] + b)[1..] == b;
  }

  lemma {:induction false} FlatMapAdvance(s: Subject, back: bool, pos: int, k: nat, xs: seq<Res>, f: Res -> seq<Res>)
    requires InText(s, pos) && Forward(s, back, pos, k, xs)
    requires forall x :: x in xs ==> Forward(s, back, x.pos, k, f(x))
    requires AllAdvance(s, back, pos, xs) || forall x :: x in xs ==> AllAdvance(s, back, x.pos, f(x))
    ensures AllAdvance(s, back, pos, FlatMap(xs, f))
  {
    forall y | y in FlatMap(xs, f) ensures Advances(s, back, pos, y.pos) {
      FlatMapMember(xs, f, y);
      var i :| 0 <= i < |xs| && y in f(xs[i]);
      assert xs[i] in xs;
    }
  }

  /** Soundness of the scan for the advance check: when it finds the check unnecessary, every match
      of the block moves the position. */
  lemma {:induction false} AdvanceScanSound(s: Subject, n: Node, lo: nat, back: bool, pos: int, caps: seq<int>, g: nat)
    requires InText(s, pos) && WellFormed(n, g)
    ensures !BodyNeedsCheck(n, lo, back) ==> AllAdvance(s, back, pos, Results(s, n, lo, back, pos, caps))
    decreases n
  {
    if !BodyNeedsCheck(n, lo, back) && !n.Char? {
      match n
      case Seq(l, r) => SeqScanSound(s, n, lo, back, pos, caps, g);
      case Group(b) => GroupScanSound(s, n, lo, back, pos, caps, g);
      case Quant(b, min, max, greedy) => QuantScanSound(s, n, lo, back, pos, caps, g);
      case _ => ScanStops(n, lo, back);
    }
  }

  /** The scan of an assertion, a back reference, an alternative or a lookaround proves no advance. */
  lemma {:induction false} ScanStops(n: Node, lo: nat, back: bool)
    requires n.Empty? || n.Assert? || n.BackRef? || n.Alt? || n.Look?
    ensures BodyNeedsCheck(n, lo, back)
  {
    if n.Alt? || n.Look? {
      BranchScanStops(n, lo, back);
    } else if !n.Empty? {
      var i := if n.Assert? then Check(n.assertion) else Ref(back, n.ignoreCase, n.groups);
      ScanCons(i, []);
      assert [i] + [] == [i] == Code(n, lo, back, -1);
    }
  }

  lemma {:induction false} BranchScanStops(n: Node, lo: nat, back: bool)
    requires n.Alt? || n.Look?
    ensures BodyNeedsCheck(n, lo, back)
  {
    hide Code, NeedsAdvanceCheck, Len, GroupCount;
    if n.Alt? {
      AltShape(n, lo, back, -1);
      var a, b := Code(n.first, lo, back, -1), Code(n.second, lo + GroupCount(n.first), back, -1);
      assert Code(n, lo, back, -1) == [Split(false, Len(a) + 5)] + (a + [Goto(Len(b))] + b);
      ScanCons(Split(false, Len(a) + 5), a + [Goto(Len(b))] + b);
    } else {
      LookShape(n, lo, back, -1);
      var a := Code(n.body, lo, n.behind, -1);
      assert Code(n, lo, back, -1) == [LookStart(n.negative, Len(a) + 1)] + (a + [LookMatch(n.negative)]);
      ScanCons(LookStart(n.negative, Len(a) + 1), a + [LookMatch(n.negative)]);
    }
  }

  lemma {:induction false} SeqScanSound(s: Subject, n: Node, lo: nat, back: bool, pos: int, caps: seq<int>, g: nat)
    requires InText(s, pos) && WellFormed(n, g) && n.Seq?
    requires !BodyNeedsCheck(n, lo, back)
    ensures AllAdvance(s, back, pos, Results(s, n, lo, back, pos, caps))
    decreases n, 0
  {
    hide Code, Results, FlatMap;
    SeqShape(n, lo, back, -1);
    var (n1, p1, n2, p2) := Ordered(n, lo, back);
    ScanAppend(Code(n1, p1, back, -1), Code(n2, p2, back, -1));
    ResultsForward(s, n1, p1, back, pos, caps);
    var xs := Results(s, n1, p1, back, pos, caps);
    var f := Then(s, n2, p2, back);
    forall x | x in xs ensures Forward(s, back, x.pos, |caps|, f(x)) {
      ResultsForward(s, n2, p2, back, x.pos, x.caps);
    }
    if !BodyNeedsCheck(n1, p1, back) {
      AdvanceScanSound(s, n1, p1, back, pos, caps, g);
    } else {
      forall x | x in xs ensures AllAdvance(s, back, x.pos, f(x)) {
        AdvanceScanSound(s, n2, p2, back, x.pos, x.caps, g);
      }
    }
    FlatMapAdvance(s, back, pos, |caps|, xs, f);
    SeqResults(s, n, lo, back, pos, caps);
  }

  lemma {:induction false} GroupScanSound(s: Subject, n: Node, lo: nat, back: bool, pos: int, caps: seq<int>, g: nat)
    requires InText(s, pos) && WellFormed(n, g) && n.Group?
    requires !BodyNeedsCheck(n, lo, back)
    ensures AllAdvance(s, back, pos, Results(s, n, lo, back, pos, caps))
    decreases n, 0
  {
    hide Code, Results, FlatMap;
    GroupShape(n, lo, back, -1);
    GroupResults(s, n, lo, back, pos, caps);
    var b := n.body;
    var a := Code(b, lo + 1, back, -1);
    assert Code(n, lo, back, -1) == [Save(back, lo)] + (a + [Save(!back, lo)]);
    ScanCons(Save(back, lo), a + [Save(!back, lo)]);
    ScanAppend(a, [Save(!back, lo)]);
    ScanCons(Save(!back, lo), []);
    var caps1 := SetSlot(caps, 2 * lo + B(back), pos);
    ResultsForward(s, b, lo + 1, back, pos, caps1);
    AdvanceScanSound(s, b, lo + 1, back, pos, caps1, g);
    FlatMapAdvance(s, back, pos, |caps|, Results(s, b, lo + 1, back, pos, caps1),
                   Closed(2 * lo + B(!back)));
  }

  /** The scan of a quantified block reaches its body only through the templates that run the body
      at least once. */
  lemma {:induction false} QuantScan(n: Node, lo: nat, back: bool)
    requires n.Quant? && !BodyNeedsCheck(n, lo, back)
    ensures n.min >= 1 && !BodyNeedsCheck(n.body, lo, back)
  {
    var Quant(b, min, max, greedy) := n;
    var check, needInit := BodyNeedsCheck(b, lo, back), BodyNeedsInit(b, lo, back);
    QuantCodeScan(Code(b, lo, back, -1), needInit, check, lo, GroupCount(b), min, max, greedy);
  }

  lemma {:induction false} QuantCodeScan(a: seq<Instr>, needInit: bool, check: bool, lo: nat, k: nat, min: nat,
      max: nat, greedy: bool)
    ensures var code := QuantCode(a, needInit, check, lo, k, min, max, greedy, -1);
            NeedsAdvanceCheck(code) == (min == 0 || NeedsAdvanceCheck(a))
  {
    if min == 0 {
      SkippableScan(a, needInit, check, lo, k, max, greedy);
    } else {
      hide Len, NeedsAdvanceCheck, ScannedThrough;
      var reset := If(needInit, ResetCode(lo, k));
      var body := reset + a;
      var code := QuantCode(a, needInit, check, lo, k, min, max, greedy, -1);
      ScanNeutral(reset);
      ScanAppend(reset, a);
      match TemplateOf(min, max, check)
      case Plus =>
        LoopLast(code, [], body, Split(greedy, -(Len(body) + 5)));
      case Exactly =>
        LoopLast(code, [SetI32(0, max)], body, Loop(0, -(Len(body) + 6)));
      case Counted =>
        LoopLast(code, [SetI32(0, max)] + If(check, [SetCharPos(0)]), body,
                 LoopSplit(greedy, check, 0, max - min, -(2 * B(check) + Len(body) + 10)));
    }
  }

  lemma {:induction false} SkippableScan(a: seq<Instr>, needInit: bool, check: bool, lo: nat, k: nat, max: nat,
      greedy: bool)
    ensures NeedsAdvanceCheck(QuantCode(a, needInit, check, lo, k, 0, max, greedy, -1))
  {
    hide Len, NeedsAdvanceCheck;
    var pre := If(!needInit, ResetCode(lo, k));
    var code := QuantCode(a, needInit, check, lo, k, 0, max, greedy, -1);
    if TemplateOf(0, max, check) == Dropped {
      ScanNeutral(pre);
    } else {
      ScanStopsAt(code, |pre|);
    }
  }

  lemma {:induction false} ScanStopsAt(code: seq<Instr>, k: nat)
    requires k < |code| && EffectOf(code[k]) == Unpredictable
    requires forall i :: 0 <= i < k ==> EffectOf(code[i]) == Neutral
    ensures NeedsAdvanceCheck(code)
    decreases k
  {
    if k > 0 {
      assert EffectOf(code[0]) == Neutral;
      ScanStopsAt(code[1..], k - 1);
    }
  }

  lemma {:induction false} ScanNeutral(code: seq<Instr>)
    requires forall i :: 0 <= i < |code| ==> EffectOf(code[i]) == Neutral
    ensures ScannedThrough(code) && NeedsAdvanceCheck(code)
    decreases |code|
  {
    if code != [] { ScanNeutral(code[1..]); }
  }

  lemma {:induction false} LoopLast(code: seq<Instr>, pre: seq<Instr>, body: seq<Instr>, loop: Instr)
    requires forall i :: 0 <= i < |pre| ==> EffectOf(pre[i]) == Neutral
    requires EffectOf(loop) == Unpredictable
    requires code == pre + body + [loop]
    ensures NeedsAdvanceCheck(code) == NeedsAdvanceCheck(body)
  {
    ScanNeutral(pre);
    assert code == pre + (body + [loop]);
    ScanAppend(pre, body + [loop]);
    ScanAppend(body, [loop]);
    ScanCons(loop, []);
  }

  lemma {:induction false} QuantScanSound(s: Subject, n: Node, lo: nat, back: bool, pos: int, caps: seq<int>, g: nat)
    requires InText(s, pos) && WellFormed(n, g) && n.Quant?
    requires !BodyNeedsCheck(n, lo, back)
    ensures AllAdvance(s, back, pos, Results(s, n, lo, back, pos, caps))
    decreases n, 0
  {
    QuantScan(n, lo, back);
    QuantResults(s, n, lo, back, pos, caps);
    hide Code, Results, FlatMap;
    var Quant(b, min, max, greedy) := n;
    var needInit, bound := BodyNeedsInit(b, lo, back), CodedBound(min, max, false);
    var caps1 := IterationCaps(b, lo, needInit, caps);
    ResultsForward(s, b, lo, back, pos, caps1);
    AdvanceScanSound(s, b, lo, back, pos, caps1, g);
    var xs := Results(s, b, lo, back, pos, caps1);
    var f := (y: Res) => AfterBody(s, b, lo, back, needInit, min, bound, greedy, pos, y);
    forall x | x in xs ensures Forward(s, back, x.pos, |caps|, f(x)) {
      RepeatsForward(s, b, lo, back, needInit, Pred(min), BoundPred(bound), greedy, x.pos, x.caps);
    }
    FlatMapAdvance(s, back, pos, |caps|, xs, f);
    assert Iterated(s, b, lo, back, needInit, min, bound, greedy, pos, caps) == FlatMap(xs, f);
  }
}
