/** Patterns whose code is a straight line without back references: the compiler drops the reset of
    their groups between the rounds of a loop. Their match does not depend on stale captures. */
module StraightCode {
  import opened RegexSyntax
  import opened MatchLists
  import opened Bytecode
  import opened RawMatch

  lemma {:induction false} InitAppend(a: seq<Instr>, b: seq<Instr>)
    ensures NeedsCaptureInit(a + b) == (NeedsCaptureInit(a) || NeedsCaptureInit(b))
  {
    if a == [] {
      assert a + b == b;
    } else {
      assert (a + b)[1..] == a[1..] + b;
      InitAppend(a[1..], b);
    }
  }

  lemma InitOne(i: Instr)
    ensures NeedsCaptureInit([i]) == (EffectOf(i) in {ReadsCaptures, Unpredictable})
  {
    assert !NeedsCaptureInit([i][1..]);
  }

  lemma {:induction false} InitHas(code: seq<Instr>, k: nat)
    requires k < |code| && EffectOf(code[k]) == Unpredictable
    ensures NeedsCaptureInit(code)
    decreases k
  {
    if k > 0 {
      InitHas(code[1..], k - 1);
    }
  }

  /** The patterns the scan finds straight. */
  predicate Straight(n: Node, lo: nat, back: bool) {
    match n
    case Empty => true
    case Char(_) => true
    case Assert(_) => true
    case Seq(l, r) => Straight(l, lo, back) && Straight(r, lo + GroupCount(l), back)
    case Group(b) => Straight(b, lo + 1, back)
    case Quant(_, min, max, _) => min == 0 && max == 0
    case _ => false
  }

  /** The scan for captures recognises straight patterns only. */
  lemma {:induction false} InitScanSound(n: Node, lo: nat, back: bool)
    ensures !BodyNeedsInit(n, lo, back) ==> Straight(n, lo, back)
    decreases n
  {
    hide Code;
    match n
    case Seq(l, r) =>
      SeqShape(n, lo, back, -1);
      var o := Ordered(n, lo, back);
      InitAppend(Code(o.0, o.1, back, -1), Code(o.2, o.3, back, -1));
      InitScanSound(l, lo, back);
      InitScanSound(r, lo + GroupCount(l), back);
    case Group(b) =>
      GroupShape(n, lo, back, -1);
      var a := Code(b, lo + 1, back, -1);
      InitAppend([Save(back, lo)], a);
      InitAppend([Save(back, lo)] + a, [Save(!back, lo)]);
      InitScanSound(b, lo + 1, back);
    case Alt(l, r) =>
      AltShape(n, lo, back, -1);
      InitHas(Code(n, lo, back, -1), 0);
    case Look(_, _, _) =>
      LookShape(n, lo, back, -1);
      InitHas(Code(n, lo, back, -1), 0);
    case BackRef(gs, ic) => RefNeedsInit(n, lo, back);
    case Quant(b, min, max, greedy) =>
      QuantShape(n, lo, back, -1);
      var check, needInit := BodyNeedsCheck(b, lo, back), BodyNeedsInit(b, lo, back);
      if !(min == 0 && max == 0) {
        QuantNeedsInit(Code(b, lo, back, -1), needInit, check, lo, GroupCount(b), min, max, greedy);
      }
    case Empty =>
    case Char(_) =>
    case Assert(_) =>
  }

  lemma RefNeedsInit(n: Node, lo: nat, back: bool)
    requires n.BackRef?
    ensures BodyNeedsInit(n, lo, back)
  {
    InitOne(Ref(back, n.ignoreCase, n.groups));
  }

  lemma {:induction false} QuantNeedsInit(a: seq<Instr>, needInit: bool, check: bool, lo: nat, k: nat, min: nat,
      max: nat, greedy: bool)
    requires !(min == 0 && max == 0)
    ensures NeedsCaptureInit(QuantCode(a, needInit, check, lo, k, min, max, greedy, -1))
  {
    hide Len, NeedsCaptureInit;
    var code := QuantCode(a, needInit, check, lo, k, min, max, greedy, -1);
    var pre := If(!needInit, ResetCode(lo, k));
    match TemplateOf(min, max, check)
    case Optional => InitHas(code, |pre|);
    case Star => InitHas(code, |pre|);
    case Range0 => InitHas(code, |pre|);
    case Plus => InitHas(code, |code| - 1);
    case Exactly => InitHas(code, |code| - 1);
    case Counted => InitHas(code, |code| - 1);
  }

  /** The slots of groups lo .. lo + n - 1. */
  function SlotsOf(lo: nat, n: nat): (r: set<int>)
    ensures forall i :: i in r <==> 2 * lo <= i < 2 * (lo + n)
  {
    if n == 0 then {} else SlotsOf(lo, n - 1) + {2 * (lo + n - 1), 2 * (lo + n - 1) + 1}
  }

  /** Capture slots that a successful match of a straight pattern writes. */
  function Written(n: Node, lo: nat, back: bool): set<int> {
    match n
    case Seq(l, r) => Written(l, lo, back) + Written(r, lo + GroupCount(l), back)
    case Group(b) => {2 * lo, 2 * lo + 1} + Written(b, lo + 1, back)
    case Quant(b, _, _, _) => if BodyNeedsInit(b, lo, back) then {} else SlotsOf(lo, GroupCount(b))
    case _ => {}
  }

  /** Captures that agree on all slots but those of `d`. */
  predicate SameExcept(a: seq<int>, b: seq<int>, d: set<int>) {
    |a| == |b| && forall i :: 0 <= i < |a| && i !in d ==> a[i] == b[i]
  }

  /** At most one match each, at the same place, with captures that agree but for `d`. */
  predicate Parallel(a: seq<Res>, b: seq<Res>, d: set<int>) {
    |a| == |b| <= 1 && (|a| == 1 ==> a[0].pos == b[0].pos && SameExcept(a[0].caps, b[0].caps, d))
  }

  /** The match of a straight pattern depends on stale captures only in the groups it does not write. */
  lemma {:induction false} StraightParallel(s: Subject, n: Node, lo: nat, back: bool, pos: int, a: seq<int>,
      b: seq<int>, d: set<int>)
    requires Straight(n, lo, back) && SameExcept(a, b, d)
    ensures Parallel(Results(s, n, lo, back, pos, a), Results(s, n, lo, back, pos, b), d - Written(n, lo, back))
    decreases n
  {
    match n
    case Seq(_, _) => SeqParallel(s, n, lo, back, pos, a, b, d);
    case Group(_) => GroupParallel(s, n, lo, back, pos, a, b, d);
    case Quant(_, _, _, _) => DroppedParallel(s, n, lo, back, pos, a, b, d);
    case Empty =>
    case Char(_) =>
    case Assert(_) =>
  }

  lemma {:induction false} SeqParallel(s: Subject, n: Node, lo: nat, back: bool, pos: int, a: seq<int>, b: seq<int>,
      d: set<int>)
    requires n.Seq? && Straight(n, lo, back) && SameExcept(a, b, d)
    ensures Parallel(Results(s, n, lo, back, pos, a), Results(s, n, lo, back, pos, b), d - Written(n, lo, back))
    decreases n, 0
  {
    hide Results, FlatMap;
    var o := Ordered(n, lo, back);
    SeqResults(s, n, lo, back, pos, a);
    SeqResults(s, n, lo, back, pos, b);
    var ra, rb, f := Results(s, o.0, o.1, back, pos, a), Results(s, o.0, o.1, back, pos, b), Then(s, o.2, o.3, back);
    StraightParallel(s, o.0, o.1, back, pos, a, b, d);
    var d1 := d - Written(o.0, o.1, back);
    if ra == [] {
      FlatMapNone(f);
    } else {
      assert ra == [ra[0]] && rb == [rb[0]];
      FlatMapOne(ra[0], f);
      FlatMapOne(rb[0], f);
      StraightParallel(s, o.2, o.3, back, ra[0].pos, ra[0].caps, rb[0].caps, d1);
      assert d - Written(n, lo, back) == d1 - Written(o.2, o.3, back);
    }
  }

  lemma FlatMapNone(f: Res -> seq<Res>)
    ensures FlatMap([], f) == []
  {
  }

  lemma {:induction false} GroupParallel(s: Subject, n: Node, lo: nat, back: bool, pos: int, a: seq<int>, b: seq<int>,
      d: set<int>)
    requires n.Group? && Straight(n, lo, back) && SameExcept(a, b, d)
    ensures Parallel(Results(s, n, lo, back, pos, a), Results(s, n, lo, back, pos, b), d - Written(n, lo, back))
    decreases n, 0
  {
    hide Results, FlatMap;
    GroupResults(s, n, lo, back, pos, a);
    GroupResults(s, n, lo, back, pos, b);
    var i, j := 2 * lo + B(back), 2 * lo + B(!back);
    var a1, b1 := SetSlot(a, i, pos), SetSlot(b, i, pos);
    StraightParallel(s, n.body, lo + 1, back, pos, a1, b1, d - {i});
    var ra, rb, f := Results(s, n.body, lo + 1, back, pos, a1), Results(s, n.body, lo + 1, back, pos, b1), Closed(j);
    if ra == [] {
      FlatMapNone(f);
    } else {
      assert ra == [ra[0]] && rb == [rb[0]];
      FlatMapOne(ra[0], f);
      FlatMapOne(rb[0], f);
      assert d - Written(n, lo, back) == d - {i} - Written(n.body, lo + 1, back) - {j};
    }
  }

  lemma {:induction false} DroppedParallel(s: Subject, n: Node, lo: nat, back: bool, pos: int, a: seq<int>, b: seq<int>,
      d: set<int>)
    requires n.Quant? && Straight(n, lo, back) && SameExcept(a, b, d)
    ensures Parallel(Results(s, n, lo, back, pos, a), Results(s, n, lo, back, pos, b), d - Written(n, lo, back))
  {
    hide Results, BodyNeedsInit, BodyNeedsCheck;
    QuantResults(s, n, lo, back, pos, a);
    QuantResults(s, n, lo, back, pos, b);
  }

  /** A straight pattern leaves all other slots as they are. */
  lemma {:induction false} StraightKeeps(s: Subject, n: Node, lo: nat, back: bool, pos: int, caps: seq<int>)
    requires Straight(n, lo, back)
    ensures forall r :: r in Results(s, n, lo, back, pos, caps) ==> SameExcept(caps, r.caps, Written(n, lo, back))
    decreases n
  {
    match n
    case Seq(_, _) => SeqKeeps(s, n, lo, back, pos, caps);
    case Group(_) => GroupKeeps(s, n, lo, back, pos, caps);
    case Quant(_, _, _, _) => DroppedKeeps(s, n, lo, back, pos, caps);
    case Empty =>
    case Char(_) =>
    case Assert(_) =>
  }

  lemma {:induction false} SeqKeeps(s: Subject, n: Node, lo: nat, back: bool, pos: int, caps: seq<int>)
    requires n.Seq? && Straight(n, lo, back)
    ensures forall r :: r in Results(s, n, lo, back, pos, caps) ==> SameExcept(caps, r.caps, Written(n, lo, back))
    decreases n, 0
  {
    hide Results, FlatMap;
    var o := Ordered(n, lo, back);
    SeqResults(s, n, lo, back, pos, caps);
    StraightKeeps(s, o.0, o.1, back, pos, caps);
    var xs, f := Results(s, o.0, o.1, back, pos, caps), Then(s, o.2, o.3, back);
    forall r: Res | r in FlatMap(xs, f) ensures SameExcept(caps, r.caps, Written(n, lo, back)) {
      FlatMapMember(xs, f, r);
      var i :| 0 <= i < |xs| && r in f(xs[i]);
      assert xs[i] in xs;
      StraightKeeps(s, o.2, o.3, back, xs[i].pos, xs[i].caps);
    }
  }

  lemma {:induction false} GroupKeeps(s: Subject, n: Node, lo: nat, back: bool, pos: int, caps: seq<int>)
    requires n.Group? && Straight(n, lo, back)
    ensures forall r :: r in Results(s, n, lo, back, pos, caps) ==> SameExcept(caps, r.caps, Written(n, lo, back))
    decreases n, 0
  {
    hide Results, FlatMap;
    GroupResults(s, n, lo, back, pos, caps);
    var caps1 := SetSlot(caps, 2 * lo + B(back), pos);
    StraightKeeps(s, n.body, lo + 1, back, pos, caps1);
    var xs, f := Results(s, n.body, lo + 1, back, pos, caps1), Closed(2 * lo + B(!back));
    forall r: Res | r in FlatMap(xs, f) ensures SameExcept(caps, r.caps, Written(n, lo, back)) {
      FlatMapMember(xs, f, r);
      var i :| 0 <= i < |xs| && r in f(xs[i]);
      assert xs[i] in xs;
    }
  }

  lemma {:induction false} DroppedKeeps(s: Subject, n: Node, lo: nat, back: bool, pos: int, caps: seq<int>)
    requires n.Quant? && Straight(n, lo, back)
    ensures forall r :: r in Results(s, n, lo, back, pos, caps) ==> SameExcept(caps, r.caps, Written(n, lo, back))
  {
    hide Results, BodyNeedsInit, BodyNeedsCheck;
    QuantResults(s, n, lo, back, pos, caps);
  }

  /** For a body that needs no reset, stale captures in the slots it writes make no difference. */
  lemma {:induction false} StaleIrrelevant(s: Subject, b: Node, lo: nat, back: bool, pos: int, caps: seq<int>)
    requires !BodyNeedsInit(b, lo, back)
    requires SameExcept(caps, ResetCaps(caps, lo, GroupCount(b)), Written(b, lo, back))
    ensures Results(s, b, lo, back, pos, caps) == Results(s, b, lo, back, pos, ResetCaps(caps, lo, GroupCount(b)))
  {
    hide Results, BodyNeedsInit;
    InitScanSound(b, lo, back);
    var w := Written(b, lo, back);
    StraightParallel(s, b, lo, back, pos, caps, ResetCaps(caps, lo, GroupCount(b)), w);
    assert w - w == {};
    var x, y := Results(s, b, lo, back, pos, caps), Results(s, b, lo, back, pos, ResetCaps(caps, lo, GroupCount(b)));
    if x != [] {
      assert x[0].caps == y[0].caps;
      assert x == [x[0]] && y == [y[0]];
    }
  }
}
