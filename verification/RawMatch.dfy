/** Matches in priority order over the machine's own capture slots: slot 2k and 2k+1 hold the start
    and the end of group k, written when the group is entered and left, and cleared where the emitted
    code clears them. */
module RawMatch {
  import opened RegexSyntax
  import opened Ecma
  import opened MatchLists
  import opened Bytecode

  /** A position together with the capture slots. */
  datatype Res = Res(pos: int, caps: seq<int>)

  function ResetCaps(caps: seq<int>, lo: nat, n: nat): (r: seq<int>)
    ensures |r| == |caps|
  {
    seq(|caps|, i requires 0 <= i < |caps| => if 2 * lo <= i < 2 * (lo + n) then UNSET else caps[i])
  }

  function SetSlot(caps: seq<int>, i: nat, v: int): (r: seq<int>)
    ensures |r| == |caps|
  {
    if i < |caps| then caps[i := v] else caps
  }

  predicate GroupSet(caps: seq<int>, g: nat) {
    2 * g + 1 < |caps| && caps[2 * g] != UNSET && caps[2 * g + 1] != UNSET
  }

  /** Outcome of a back reference: the first group of the list with both slots set is compared. */
  function RefEnd(s: Subject, back: bool, ic: bool, groups: seq<nat>, pos: int, caps: seq<int>): (r: Option<int>)
    ensures r.Some? ==> NotBehind(s, back, pos, r.value)
  {
    if groups == [] then Some(pos)
    else if 2 * groups[0] + 1 >= |caps| then None
    else if GroupSet(caps, groups[0]) then
      BackRefEnd(s, back, ic, caps[2 * groups[0]], caps[2 * groups[0] + 1], pos)
    else RefEnd(s, back, ic, groups[1..], pos, caps)
  }

  ghost function Results(s: Subject, n: Node, lo: nat, back: bool, pos: int, caps: seq<int>): seq<Res>
    decreases n, 0, 0, 0
  {
    match n
    case Empty => [Res(pos, caps)]
    case Char(t) =>
      var index := if back then pos - 1 else pos;
      if 0 <= index < |s.input| && TestAccepts(s, t, s.input[index])
      then [Res(if back then pos - 1 else pos + 1, caps)] else []
    case Assert(a) => if AssertionHolds(s, a, pos) then [Res(pos, caps)] else []
    case Seq(l, r) =>
      if back then
        FlatMap(Results(s, r, lo + GroupCount(l), back, pos, caps), (y: Res) => Results(s, l, lo, back, y.pos, y.caps))
      else
        FlatMap(Results(s, l, lo, back, pos, caps), (y: Res) => Results(s, r, lo + GroupCount(l), back, y.pos, y.caps))
    case Alt(a, b) => Results(s, a, lo, back, pos, caps) + Results(s, b, lo + GroupCount(a), back, pos, caps)
    case Quant(b, min, max, greedy) =>
      var check, needInit := BodyNeedsCheck(b, lo, back), BodyNeedsInit(b, lo, back);
      Repeats(s, b, lo, back, needInit, min, CodedBound(min, max, check), greedy, pos,
              if min == 0 && !needInit then ResetCaps(caps, lo, GroupCount(b)) else caps)
    case Group(b) =>
      FlatMap(Results(s, b, lo + 1, back, pos, SetSlot(caps, 2 * lo + B(back), pos)),
              (y: Res) => [Res(y.pos, SetSlot(y.caps, 2 * lo + B(!back), y.pos))])
    case Look(negative, behind, b) =>
      var r := Results(s, b, lo, behind, pos, caps);
      if negative then (if r == [] then [Res(pos, caps)] else [])
      else (if r == [] then [] else [Res(pos, r[0].caps)])
    case BackRef(groups, ic) =>
      match RefEnd(s, back, ic, groups, pos, caps)
      case None => []
      case Some(f) => [Res(f, caps)]
  }

  /** Only the templates for `*` and for a `+` without advance check are unbounded; a counted loop
      counts down from INT32_MAX. */
  function CodedBound(min: nat, max: nat, check: bool): Bound {
    var t := TemplateOf(min, max, check);
    if t.Star? || t.Plus? then Inf else Fin(max)
  }

  ghost function Repeats(s: Subject, b: Node, lo: nat, back: bool, needInit: bool, min: nat, max: Bound, greedy: bool,
                         pos: int, caps: seq<int>): seq<Res>
    decreases b, 1, min, Remaining(s, back, pos)
  {
    if BoundIsZero(max) then [Res(pos, caps)] else
    var iterated := Iterated(s, b, lo, back, needInit, min, max, greedy, pos, caps);
    if min != 0 then iterated
    else if greedy then iterated + [Res(pos, caps)] else [Res(pos, caps)] + iterated
  }

  /** The matches that run the body at least once more. */
  ghost function Iterated(s: Subject, b: Node, lo: nat, back: bool, needInit: bool, min: nat, max: Bound, greedy: bool,
                          pos: int, caps: seq<int>): seq<Res>
    requires !BoundIsZero(max)
    decreases b, 1, min, Remaining(s, back, pos), 1
  {
    FlatMap(Results(s, b, lo, back, pos, IterationCaps(b, lo, needInit, caps)),
            (y: Res) => AfterBody(s, b, lo, back, needInit, min, max, greedy, pos, y))
  }

  function IterationCaps(b: Node, lo: nat, needInit: bool, caps: seq<int>): (r: seq<int>)
    ensures |r| == |caps|
  {
    if needInit then ResetCaps(caps, lo, GroupCount(b)) else caps
  }

  /** What follows one match `y` of a loop body entered at `pos`. */
  ghost function AfterBody(s: Subject, b: Node, lo: nat, back: bool, needInit: bool, min: nat, max: Bound, greedy: bool,
                           pos: int, y: Res): seq<Res>
    requires !BoundIsZero(max)
    decreases b, 1, min, Remaining(s, back, pos), 0
  {
    if min == 0 && !Advances(s, back, pos, y.pos) then []
    else Repeats(s, b, lo, back, needInit, Pred(min), BoundPred(max), greedy, y.pos, y.caps)
  }

  ghost function Then(s: Subject, n: Node, lo: nat, back: bool): Res -> seq<Res> {
    (y: Res) => Results(s, n, lo, back, y.pos, y.caps)
  }

  /** A concatenation matches its parts one after the other. */
  lemma {:induction false} SeqResults(s: Subject, n: Node, lo: nat, back: bool, pos: int, caps: seq<int>)
    requires n.Seq?
    ensures var o := Ordered(n, lo, back);
            Results(s, n, lo, back, pos, caps) == FlatMap(Results(s, o.0, o.1, back, pos, caps),
              Then(s, o.2, o.3, back))
  {
    hide Repeats, GroupCount, BodyNeedsCheck, BodyNeedsInit, CodedBound, RefEnd, TestAccepts, AssertionHolds, FlatMap;
    var l, r, k := n.left, n.right, lo + GroupCount(n.left);
    if back {
      var f := (y: Res) => Results(s, l, lo, back, y.pos, y.caps);
      assert Results(s, n, lo, back, pos, caps) == FlatMap(Results(s, r, k, back, pos, caps), f);
      assert f == Then(s, l, lo, back);
    } else {
      var f := (y: Res) => Results(s, r, k, back, y.pos, y.caps);
      assert Results(s, n, lo, back, pos, caps) == FlatMap(Results(s, l, lo, back, pos, caps), f);
      assert f == Then(s, r, k, back);
    }
  }

  lemma {:induction false} AltResults(s: Subject, n: Node, lo: nat, back: bool, pos: int, caps: seq<int>)
    requires n.Alt?
    ensures Results(s, n, lo, back, pos, caps) ==
            Results(s, n.first, lo, back, pos, caps) + Results(s, n.second, lo + GroupCount(n.first), back, pos, caps)
  {
    hide FlatMap, Repeats, GroupCount, BodyNeedsCheck, BodyNeedsInit, CodedBound, RefEnd, TestAccepts, AssertionHolds;
  }

  ghost function Closed(j: nat): Res -> seq<Res> {
    (y: Res) => [Res(y.pos, SetSlot(y.caps, j, y.pos))]
  }

  lemma {:induction false} GroupResults(s: Subject, n: Node, lo: nat, back: bool, pos: int, caps: seq<int>)
    requires n.Group?
    ensures Results(s, n, lo, back, pos, caps) ==
            FlatMap(Results(s, n.body, lo + 1, back, pos, SetSlot(caps, 2 * lo + B(back), pos)),
              Closed(2 * lo + B(!back)))
  {
    var j := 2 * lo + B(!back);
    var f := (y: Res) => [Res(y.pos, SetSlot(y.caps, j, y.pos))];
    assert Results(s, n, lo, back, pos, caps) ==
           FlatMap(Results(s, n.body, lo + 1, back, pos, SetSlot(caps, 2 * lo + B(back), pos)), f);
    assert f == Closed(j);
  }

  lemma {:induction false} QuantResults(s: Subject, n: Node, lo: nat, back: bool, pos: int, caps: seq<int>)
    requires n.Quant?
    ensures var check, needInit := BodyNeedsCheck(n.body, lo, back), BodyNeedsInit(n.body, lo, back);
            Results(s, n, lo, back, pos, caps) ==
            Repeats(s, n.body, lo, back, needInit, n.min, CodedBound(n.min, n.max, check), n.greedy, pos,
                    if n.min == 0 && !needInit then ResetCaps(caps, lo, GroupCount(n.body)) else caps)
  {
  }

  ghost function NextRound(s: Subject, b: Node, lo: nat, back: bool, needInit: bool, min: nat, max: Bound, greedy: bool,
                           pos: int): Res -> seq<Res>
    requires !BoundIsZero(max)
  {
    (y: Res) => AfterBody(s, b, lo, back, needInit, min, max, greedy, pos, y)
  }

  lemma {:induction false} RepeatsShape(s: Subject, b: Node, lo: nat, back: bool, needInit: bool, min: nat, max: Bound,
      greedy: bool,
                                        pos: int, caps: seq<int>)
    requires !BoundIsZero(max)
    ensures var iterated := FlatMap(Results(s, b, lo, back, pos, IterationCaps(b, lo, needInit, caps)),
                                    NextRound(s, b, lo, back, needInit, min, max, greedy, pos));
            Repeats(s, b, lo, back, needInit, min, max, greedy, pos, caps) ==
            if min != 0 then iterated
            else if greedy then iterated + [Res(pos, caps)] else [Res(pos, caps)] + iterated
  {
    var f := (y: Res) => AfterBody(s, b, lo, back, needInit, min, max, greedy, pos, y);
    assert f == NextRound(s, b, lo, back, needInit, min, max, greedy, pos);
    assert Iterated(s, b, lo, back, needInit, min, max, greedy, pos, caps) ==
           FlatMap(Results(s, b, lo, back, pos, IterationCaps(b, lo, needInit, caps)), f);
  }

  lemma {:induction false} NextRoundIs(s: Subject, b: Node, lo: nat, back: bool, needInit: bool, min: nat, max: Bound,
      greedy: bool,
                                       pos: int, y: Res)
    requires !BoundIsZero(max)
    ensures NextRound(s, b, lo, back, needInit, min, max, greedy, pos)(y) ==
            if min == 0 && !Advances(s, back, pos, y.pos) then []
            else Repeats(s, b, lo, back, needInit, Pred(min), BoundPred(max), greedy, y.pos, y.caps)
  {
  }
}
