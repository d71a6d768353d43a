/** The matches over capture slots, as the emitted code computes them, are the matches of ECMA-262:
    the same list, with the same captures. */
module Agreement {
  import opened RegexSyntax
  import opened Ecma
  import opened MatchLists
  import opened Bytecode
  import opened RawMatch
  import opened RawMatchFacts
  import opened StraightCode

  predicate Shapes(caps: seq<int>, ec: seq<Option<Range>>, groups: nat) {
    |caps| == 2 * groups && |ec| == groups
  }

  /** Group k is undefined on both sides. */
  predicate Clean(caps: seq<int>, ec: seq<Option<Range>>, k: nat)
    requires 2 * k + 1 < |caps| && k < |ec|
  {
    caps[2 * k] == UNSET && caps[2 * k + 1] == UNSET && ec[k] == None
  }

  predicate SameRange(caps: seq<int>, ec: seq<Option<Range>>, k: nat)
    requires 2 * k + 1 < |caps| && k < |ec| && ec[k].Some?
  {
    caps[2 * k] == ec[k].value.start >= 0 && caps[2 * k + 1] == ec[k].value.end >= 0
  }

  /** Group k has the same value on both sides. */
  predicate Strong(caps: seq<int>, ec: seq<Option<Range>>, k: nat)
    requires 2 * k + 1 < |caps| && k < |ec|
  {
    if ec[k].None? then Clean(caps, ec, k) else SameRange(caps, ec, k)
  }

  /** Group k is the same for a back reference: while the group is open one of its slots is set. */
  predicate Weak(caps: seq<int>, ec: seq<Option<Range>>, k: nat)
    requires 2 * k + 1 < |caps| && k < |ec|
  {
    if ec[k].None? then caps[2 * k] == UNSET || caps[2 * k + 1] == UNSET else SameRange(caps, ec, k)
  }

  predicate Kept(caps0: seq<int>, ec0: seq<Option<Range>>, caps: seq<int>, ec: seq<Option<Range>>, k: nat)
    requires 2 * k + 1 < |caps0| && k < |ec0| && 2 * k + 1 < |caps| && k < |ec|
  {
    caps[2 * k] == caps0[2 * k] && caps[2 * k + 1] == caps0[2 * k + 1] && ec[k] == ec0[k]
  }

  predicate Inside(lo: nat, g: nat, k: nat) { lo <= k < lo + g }

  /** On arrival at a pattern with groups lo .. lo+g-1 those groups are undefined. */
  ghost predicate Before(caps: seq<int>, ec: seq<Option<Range>>, groups: nat, lo: nat, g: nat) {
    Shapes(caps, ec, groups) &&
    forall k: nat :: k < groups ==> if Inside(lo, g, k) then Clean(caps, ec, k) else Weak(caps, ec, k)
  }

  /** After a match its groups agree and all others are as before. */
  ghost predicate After(caps0: seq<int>, ec0: seq<Option<Range>>, caps: seq<int>, ec: seq<Option<Range>>, groups: nat,
      lo: nat, g: nat) {
    Shapes(caps0, ec0, groups) && Shapes(caps, ec, groups) &&
    forall k: nat :: k < groups ==> if Inside(lo, g, k) then Strong(caps, ec, k) else Kept(caps0, ec0, caps, ec, k)
  }

  ghost predicate Pair(caps0: seq<int>, ec0: seq<Option<Range>>, groups: nat, lo: nat, g: nat, r: Res, y: MatchState) {
    r.pos == y.end && After(caps0, ec0, r.caps, y.captures, groups, lo, g)
  }

  ghost predicate Lists(caps0: seq<int>, ec0: seq<Option<Range>>, groups: nat, lo: nat, g: nat, rs: seq<Res>,
      ys: seq<MatchState>) {
    |rs| == |ys| && forall i :: 0 <= i < |rs| ==> Pair(caps0, ec0, groups, lo, g, rs[i], ys[i])
  }

  lemma {:induction false} FlatMapLists(caps0: seq<int>, ec0: seq<Option<Range>>, groups: nat, lo: nat, g: nat,
                                        xs: seq<Res>, ys: seq<MatchState>, f: Res -> seq<Res>,
                                          h: MatchState -> seq<MatchState>)
    requires |xs| == |ys|
    requires forall i :: 0 <= i < |xs| ==> Lists(caps0, ec0, groups, lo, g, f(xs[i]), h(ys[i]))
    ensures Lists(caps0, ec0, groups, lo, g, FlatMap(xs, f), FlatMap(ys, h))
    decreases |xs|
  {
    hide Pair;
    if xs != [] {
      assert forall i :: 0 <= i < |xs[1..]| ==> xs[1..][i] == xs[i + 1] && ys[1..][i] == ys[i + 1];
      FlatMapLists(caps0, ec0, groups, lo, g, xs[1..], ys[1..], f, h);
    }
  }

  lemma AfterSelf(caps: seq<int>, ec: seq<Option<Range>>, groups: nat, lo: nat, g: nat)
    requires Before(caps, ec, groups, lo, g)
    ensures After(caps, ec, caps, ec, groups, lo, g)
  {
  }

  /** One match after another, over adjacent ranges of groups. */
  lemma AfterThen(c0: seq<int>, e0: seq<Option<Range>>, c1: seq<int>, e1: seq<Option<Range>>, c2: seq<int>,
      e2: seq<Option<Range>>,
                  groups: nat, lo1: nat, g1: nat, lo2: nat, g2: nat, lo: nat, g: nat)
    requires After(c0, e0, c1, e1, groups, lo1, g1) && After(c1, e1, c2, e2, groups, lo2, g2)
    requires forall k: nat :: Inside(lo, g, k) <==> Inside(lo1, g1, k) || Inside(lo2, g2, k)
    requires forall k: nat :: !(Inside(lo1, g1, k) && Inside(lo2, g2, k))
    ensures After(c0, e0, c2, e2, groups, lo, g)
  {
    forall k: nat | k < groups
      ensures if Inside(lo, g, k) then Strong(c2, e2, k) else Kept(c0, e0, c2, e2, k)
    {
    }
  }

  lemma BeforeNext(c0: seq<int>, e0: seq<Option<Range>>, c1: seq<int>, e1: seq<Option<Range>>,
                   groups: nat, lo1: nat, g1: nat, lo2: nat, g2: nat, lo: nat, g: nat)
    requires Before(c0, e0, groups, lo, g) && After(c0, e0, c1, e1, groups, lo1, g1)
    requires forall k: nat :: Inside(lo, g, k) <==> Inside(lo1, g1, k) || Inside(lo2, g2, k)
    requires forall k: nat :: !(Inside(lo1, g1, k) && Inside(lo2, g2, k))
    ensures Before(c1, e1, groups, lo2, g2)
  {
    forall k: nat | k < groups
      ensures if Inside(lo2, g2, k) then Clean(c1, e1, k) else Weak(c1, e1, k)
    {
    }
  }

  lemma BeforePart(caps: seq<int>, ec: seq<Option<Range>>, groups: nat, lo1: nat, g1: nat, lo: nat, g: nat)
    requires Before(caps, ec, groups, lo, g)
    requires lo <= lo1 && lo1 + g1 <= lo + g
    ensures Before(caps, ec, groups, lo1, g1)
  {
    forall k: nat | k < groups
      ensures if Inside(lo1, g1, k) then Clean(caps, ec, k) else Weak(caps, ec, k)
    {
    }
  }

  /** Widening: groups of the wider range that were not matched are still undefined. */
  lemma AfterWiden(c0: seq<int>, e0: seq<Option<Range>>, c1: seq<int>, e1: seq<Option<Range>>,
                   groups: nat, lo1: nat, g1: nat, lo: nat, g: nat)
    requires Before(c0, e0, groups, lo, g) && After(c0, e0, c1, e1, groups, lo1, g1)
    requires lo <= lo1 && lo1 + g1 <= lo + g
    ensures After(c0, e0, c1, e1, groups, lo, g)
  {
    forall k: nat | k < groups
      ensures if Inside(lo, g, k) then Strong(c1, e1, k) else Kept(c0, e0, c1, e1, k)
    {
    }
  }

  /** An unbounded quantifier that becomes a counted loop leaves enough of the 31-bit counter. At most `left` characters
      are left in the matching direction, and the subject has `whole` of them. A body that always advances needs the
      counter for these only; another body may spend `min` rounds without advancing first. */
  predicate CountersSuffice(n: Node, lo: nat, back: bool, left: nat, whole: nat) {
    match n
    case Seq(l, r) => CountersSuffice(l, lo, back, left, whole)
      && CountersSuffice(r, lo + GroupCount(l), back, left, whole)
    case Alt(l, r) => CountersSuffice(l, lo, back, left, whole)
      && CountersSuffice(r, lo + GroupCount(l), back, left, whole)
    case Quant(b, min, max, _) =>
      && (CountsDown(min, max, BodyNeedsCheck(b, lo, back)) ==>
            (if BodyNeedsCheck(b, lo, back) then min + left <= INFINITE else left <= INFINITE))
      && CountersSuffice(b, lo, back, left, whole)
    case Group(b) => CountersSuffice(b, lo + 1, back, left, whole)
    case Look(_, behind, b) => CountersSuffice(b, lo, behind, if behind == back then left else whole, whole)
    case _ => true
  }

  /** An unbounded quantifier whose template has a counter. */
  predicate CountsDown(min: nat, max: nat, check: bool) {
    max == INFINITE && CodedBound(min, max, check).Fin?
  }

  predicate Fine(s: Subject, n: Node, groups: nat, lo: nat, back: bool, left: nat, pos: int) {
    && WellFormed(n, groups) && lo + GroupCount(n) <= groups && InText(s, pos)
    && Remaining(s, back, pos) <= left && CountersSuffice(n, lo, back, left, |s.input|)
  }

  /** The main agreement: from agreeing states the two matchers produce the same matches in the same order. */
  lemma {:induction false} Agree(s: Subject, n: Node, groups: nat, lo: nat, back: bool, left: nat, pos: int,
      caps: seq<int>, ec: seq<Option<Range>>)
    requires Fine(s, n, groups, lo, back, left, pos) && Before(caps, ec, groups, lo, GroupCount(n))
    ensures Lists(caps, ec, groups, lo, GroupCount(n), Results(s, n, lo, back, pos, caps),
        All(s, n, lo, back, MatchState(pos, ec)))
    decreases n, 0, 0, 0
  {
    hide Results, All, Before, Lists;
    match n
    case Seq(_, _) => SeqAgree(s, n, groups, lo, back, left, pos, caps, ec);
    case Alt(_, _) => AltAgree(s, n, groups, lo, back, left, pos, caps, ec);
    case Group(_) => GroupAgree(s, n, groups, lo, back, left, pos, caps, ec);
    case Look(_, _, _) => LookAgree(s, n, groups, lo, back, left, pos, caps, ec);
    case BackRef(_, _) => RefAgree(s, n, groups, lo, back, left, pos, caps, ec);
    case Quant(_, _, _, _) => QuantAgree(s, n, groups, lo, back, left, pos, caps, ec);
    case Empty => LeafAgree(s, n, groups, lo, back, pos, caps, ec);
    case Char(_) => LeafAgree(s, n, groups, lo, back, pos, caps, ec);
    case Assert(_) => LeafAgree(s, n, groups, lo, back, pos, caps, ec);
  }

  /** The engine's test of a position is the one of the standard. */
  lemma SameAssertion(s: Subject, a: Assertion, e: int)
    ensures AssertionHolds(s, a, e) == AssertionMatches(s, a, e)
  {
  }

  /** The engine's test of a character is the one of the standard. */
  lemma SameTest(s: Subject, t: CharTest, c: nat)
    ensures TestAccepts(s, t, c) == CharacterMatches(s, t, c)
  {
    if t.InSet? {
      var d := Canonical(s, t.ignoreCase, c);
      if InIntervals(t.points, d) {
        var i :| 0 <= i < |t.points| - 1 && i % 2 == 0 && t.points[i] <= d < t.points[i + 1];
        assert i == 2 * (i / 2);
      }
      if k :| 0 <= k < |t.points| / 2 && t.points[2 * k] <= d < t.points[2 * k + 1] {
        assert 2 * k % 2 == 0;
      }
    }
  }

  /** The engine's back reference is the one of the standard. */
  lemma SameReference(s: Subject, ic: bool, back: bool, r: Range, e: int)
    ensures BackRefEnd(s, back, ic, r.start, r.end, e) == ReferenceEnd(s, ic, back, r, e)
  {
  }

  lemma {:induction false} LeafAgree(s: Subject, n: Node, groups: nat, lo: nat, back: bool, pos: int, caps: seq<int>,
      ec: seq<Option<Range>>)
    requires n.Empty? || n.Char? || n.Assert?
    requires Before(caps, ec, groups, lo, GroupCount(n))
    ensures Lists(caps, ec, groups, lo, GroupCount(n), Results(s, n, lo, back, pos, caps),
        All(s, n, lo, back, MatchState(pos, ec)))
  {
    AfterSelf(caps, ec, groups, lo, GroupCount(n));
    hide Before, After, TestAccepts, AssertionHolds, CharacterMatches, AssertionMatches;
    if n.Assert? {
      SameAssertion(s, n.assertion, pos);
    }
    if n.Char? {
      var index := if back then pos - 1 else pos;
      if 0 <= index < |s.input| {
        SameTest(s, n.test, s.input[index]);
      }
    }
  }

  lemma {:induction false} SeqAgree(s: Subject, n: Node, groups: nat, lo: nat, back: bool, left: nat, pos: int,
      caps: seq<int>, ec: seq<Option<Range>>)
    requires n.Seq? && Fine(s, n, groups, lo, back, left, pos) && Before(caps, ec, groups, lo, GroupCount(n))
    ensures Lists(caps, ec, groups, lo, GroupCount(n), Results(s, n, lo, back, pos, caps),
        All(s, n, lo, back, MatchState(pos, ec)))
    decreases n, 0, 0, 0, 0
  {
    hide Results, All, FlatMap, Before, After;
    var o := Ordered(n, lo, back);
    var g1, g2, g := GroupCount(o.0), GroupCount(o.2), GroupCount(n);
    var x := MatchState(pos, ec);
    SeqResults(s, n, lo, back, pos, caps);
    SeqAll(s, n, lo, back, x);
    var rs, ys := Results(s, o.0, o.1, back, pos, caps), All(s, o.0, o.1, back, x);
    BeforePart(caps, ec, groups, o.1, g1, lo, g);
    Agree(s, o.0, groups, o.1, back, left, pos, caps, ec);
    ResultsInText(s, o.0, o.1, back, pos, caps);
    var f, h := Then(s, o.2, o.3, back), ThenAll(s, o.2, o.3, back);
    forall i | 0 <= i < |rs| ensures Lists(caps, ec, groups, lo, g, f(rs[i]), h(ys[i])) {
      assert rs[i] in rs;
      assert Pair(caps, ec, groups, o.1, g1, rs[i], ys[i]);
      RemainingShrinks(s, back, pos, rs[i].pos);
      SecondAgree(s, n, groups, lo, back, left, caps, ec, rs[i], ys[i]);
    }
    FlatMapLists(caps, ec, groups, lo, g, rs, ys, f, h);
  }

  /** The second part of a concatenation, after a match of the first. */
  lemma {:induction false} SecondAgree(s: Subject, n: Node, groups: nat, lo: nat, back: bool, left: nat, caps: seq<int>,
      ec: seq<Option<Range>>,
                                       r: Res, y: MatchState)
    requires n.Seq? && Fine(s, n, groups, lo, back, left, r.pos) && Before(caps, ec, groups, lo, GroupCount(n))
    requires var o := Ordered(n, lo, back); Pair(caps, ec, groups, o.1, GroupCount(o.0), r, y)
    ensures var o := Ordered(n, lo, back);
            Lists(caps, ec, groups, lo, GroupCount(n), Results(s, o.2, o.3, back, r.pos, r.caps),
              All(s, o.2, o.3, back, y))
    decreases n, 0, 0, 0, 0, 0
  {
    hide Results, All, Before, After;
    var o := Ordered(n, lo, back);
    var g1, g2, g := GroupCount(o.0), GroupCount(o.2), GroupCount(n);
    BeforeNext(caps, ec, r.caps, y.captures, groups, o.1, g1, o.3, g2, lo, g);
    assert y == MatchState(r.pos, y.captures);
    Agree(s, o.2, groups, o.3, back, left, r.pos, r.caps, y.captures);
    var rs, ys := Results(s, o.2, o.3, back, r.pos, r.caps), All(s, o.2, o.3, back, y);
    forall i | 0 <= i < |rs| ensures Pair(caps, ec, groups, lo, g, rs[i], ys[i]) {
      assert Pair(r.caps, y.captures, groups, o.3, g2, rs[i], ys[i]);
      AfterThen(caps, ec, r.caps, y.captures, rs[i].caps, ys[i].captures, groups, o.1, g1, o.3, g2, lo, g);
    }
  }

  lemma {:induction false} WidenLists(caps: seq<int>, ec: seq<Option<Range>>, groups: nat, lo1: nat, g1: nat, lo: nat,
      g: nat,
                                      rs: seq<Res>, ys: seq<MatchState>)
    requires Before(caps, ec, groups, lo, g) && Lists(caps, ec, groups, lo1, g1, rs, ys)
    requires lo <= lo1 && lo1 + g1 <= lo + g
    ensures Lists(caps, ec, groups, lo, g, rs, ys)
  {
    hide Before, After;
    forall i | 0 <= i < |rs| ensures Pair(caps, ec, groups, lo, g, rs[i], ys[i]) {
      assert Pair(caps, ec, groups, lo1, g1, rs[i], ys[i]);
      AfterWiden(caps, ec, rs[i].caps, ys[i].captures, groups, lo1, g1, lo, g);
    }
  }

  lemma ListsAppend(caps: seq<int>, ec: seq<Option<Range>>, groups: nat, lo: nat, g: nat,
                    rs: seq<Res>, ys: seq<MatchState>, rs2: seq<Res>, ys2: seq<MatchState>)
    requires Lists(caps, ec, groups, lo, g, rs, ys) && Lists(caps, ec, groups, lo, g, rs2, ys2)
    ensures Lists(caps, ec, groups, lo, g, rs + rs2, ys + ys2)
  {
    hide Pair;
  }

  lemma {:induction false} AltAgree(s: Subject, n: Node, groups: nat, lo: nat, back: bool, left: nat, pos: int,
      caps: seq<int>, ec: seq<Option<Range>>)
    requires n.Alt? && Fine(s, n, groups, lo, back, left, pos) && Before(caps, ec, groups, lo, GroupCount(n))
    ensures Lists(caps, ec, groups, lo, GroupCount(n), Results(s, n, lo, back, pos, caps),
        All(s, n, lo, back, MatchState(pos, ec)))
    decreases n, 0, 0, 0, 0
  {
    hide Results, All, Before, Lists;
    var a, b, x := n.first, n.second, MatchState(pos, ec);
    var g1, g2, g := GroupCount(a), GroupCount(b), GroupCount(n);
    AltResults(s, n, lo, back, pos, caps);
    AltAll(s, n, lo, back, x);
    BeforePart(caps, ec, groups, lo, g1, lo, g);
    BeforePart(caps, ec, groups, lo + g1, g2, lo, g);
    Agree(s, a, groups, lo, back, left, pos, caps, ec);
    Agree(s, b, groups, lo + g1, back, left, pos, caps, ec);
    WidenLists(caps, ec, groups, lo, g1, lo, g, Results(s, a, lo, back, pos, caps), All(s, a, lo, back, x));
    WidenLists(caps, ec, groups, lo + g1, g2, lo, g, Results(s, b, lo + g1, back, pos, caps),
      All(s, b, lo + g1, back, x));
    ListsAppend(caps, ec, groups, lo, g, Results(s, a, lo, back, pos, caps), All(s, a, lo, back, x),
                Results(s, b, lo + g1, back, pos, caps), All(s, b, lo + g1, back, x));
  }

  ghost function CloseAll(paren: nat, back: bool, x: MatchState): MatchState -> seq<MatchState> {
    (y: MatchState) => CloseGroup(paren, back, x, y)
  }

  lemma {:induction false} GroupAll(s: Subject, n: Node, paren: nat, back: bool, x: MatchState)
    requires n.Group?
    ensures All(s, n, paren, back, x) == FlatMap(All(s, n.body, paren + 1, back, x), CloseAll(paren, back, x))
  {
    var f := (y: MatchState) => CloseGroup(paren, back, x, y);
    assert All(s, n, paren, back, x) == FlatMap(All(s, n.body, paren + 1, back, x), f);
    assert f == CloseAll(paren, back, x);
  }

  /** Entering a group sets one of its slots; the group stays undefined for ECMA-262. */
  lemma OpenGroup(caps: seq<int>, ec: seq<Option<Range>>, groups: nat, lo: nat, g: nat, back: bool, pos: int)
    requires g > 0 && lo < groups && Before(caps, ec, groups, lo, g)
    ensures Before(SetSlot(caps, 2 * lo + B(back), pos), ec, groups, lo + 1, g - 1)
  {
    var caps1 := SetSlot(caps, 2 * lo + B(back), pos);
    forall k: nat | k < groups
      ensures if Inside(lo + 1, g - 1, k) then Clean(caps1, ec, k) else Weak(caps1, ec, k)
    {
      assert Inside(lo, g, k) ==> Clean(caps, ec, k);
    }
  }

  lemma ShutGroup(caps: seq<int>, ec: seq<Option<Range>>, groups: nat, lo: nat, g: nat, back: bool, pos: int, r: Res,
      y: MatchState)
    requires g > 0 && lo < groups && Before(caps, ec, groups, lo, g) && pos >= 0 && r.pos >= 0
    requires Pair(SetSlot(caps, 2 * lo + B(back), pos), ec, groups, lo + 1, g - 1, r, y)
    ensures Lists(caps, ec, groups, lo, g, Closed(2 * lo + B(!back))(r), CloseGroup(lo, back, MatchState(pos, ec), y))
  {
    var caps1 := SetSlot(caps, 2 * lo + B(back), pos);
    var caps2 := SetSlot(r.caps, 2 * lo + B(!back), r.pos);
    var range := if back then Range(y.end, pos) else Range(pos, y.end);
    var ec2 := y.captures[lo := Some(range)];
    assert Kept(caps1, ec, r.caps, y.captures, lo);
    forall k: nat | k < groups
      ensures if Inside(lo, g, k) then Strong(caps2, ec2, k) else Kept(caps, ec, caps2, ec2, k)
    {
      assert k != lo ==>
        if Inside(lo + 1, g - 1, k) then Strong(r.caps, y.captures, k) else Kept(caps1, ec, r.caps, y.captures, k);
    }
    assert Pair(caps, ec, groups, lo, g, Res(r.pos, caps2), MatchState(y.end, ec2));
  }

  lemma {:induction false} GroupAgree(s: Subject, n: Node, groups: nat, lo: nat, back: bool, left: nat, pos: int,
      caps: seq<int>, ec: seq<Option<Range>>)
    requires n.Group? && Fine(s, n, groups, lo, back, left, pos) && Before(caps, ec, groups, lo, GroupCount(n))
    ensures Lists(caps, ec, groups, lo, GroupCount(n), Results(s, n, lo, back, pos, caps),
        All(s, n, lo, back, MatchState(pos, ec)))
    decreases n, 0, 0, 0, 0
  {
    hide Results, All, FlatMap, Before, Pair, SetSlot, Closed, CloseGroup;
    var b, g, x := n.body, GroupCount(n), MatchState(pos, ec);
    GroupResults(s, n, lo, back, pos, caps);
    GroupAll(s, n, lo, back, x);
    OpenGroup(caps, ec, groups, lo, g, back, pos);
    var caps1 := SetSlot(caps, 2 * lo + B(back), pos);
    Agree(s, b, groups, lo + 1, back, left, pos, caps1, ec);
    ResultsInText(s, b, lo + 1, back, pos, caps1);
    var rs, ys := Results(s, b, lo + 1, back, pos, caps1), All(s, b, lo + 1, back, x);
    var f, h := Closed(2 * lo + B(!back)), CloseAll(lo, back, x);
    forall i | 0 <= i < |rs| ensures Lists(caps, ec, groups, lo, g, f(rs[i]), h(ys[i])) {
      assert rs[i] in rs;
      ShutGroup(caps, ec, groups, lo, g, back, pos, rs[i], ys[i]);
    }
    FlatMapLists(caps, ec, groups, lo, g, rs, ys, f, h);
  }

  lemma {:induction false} LookAgree(s: Subject, n: Node, groups: nat, lo: nat, back: bool, left: nat, pos: int,
      caps: seq<int>, ec: seq<Option<Range>>)
    requires n.Look? && Fine(s, n, groups, lo, back, left, pos) && Before(caps, ec, groups, lo, GroupCount(n))
    ensures Lists(caps, ec, groups, lo, GroupCount(n), Results(s, n, lo, back, pos, caps),
        All(s, n, lo, back, MatchState(pos, ec)))
    decreases n, 0, 0, 0, 0
  {
    hide Before, After;
    AfterSelf(caps, ec, groups, lo, GroupCount(n));
    Agree(s, n.body, groups, lo, n.behind, if n.behind == back then left else |s.input|, pos, caps, ec);
    var rs, ys := Results(s, n.body, lo, n.behind, pos, caps), All(s, n.body, lo, n.behind, MatchState(pos, ec));
    assert rs != [] ==> Pair(caps, ec, groups, lo, GroupCount(n), rs[0], ys[0]);
  }

  lemma {:induction false} RefEndAgrees(s: Subject, back: bool, ic: bool, gs: seq<nat>, pos: int, caps: seq<int>,
      ec: seq<Option<Range>>,
                                        groups: nat, lo: nat)
    requires Before(caps, ec, groups, lo, 0) && forall i :: 0 <= i < |gs| ==> gs[i] < groups
    ensures RefEnd(s, back, ic, gs, pos, caps) ==
            match FirstDefined(ec, gs) { case None => Some(pos) case Some(r) => ReferenceEnd(s, ic, back, r, pos) }
    decreases |gs|
  {
    hide BackRefEnd, ReferenceEnd;
    if gs != [] {
      assert !Inside(lo, 0, gs[0]) && Weak(caps, ec, gs[0]);
      if ec[gs[0]].Some? {
        SameReference(s, ic, back, ec[gs[0]].value, pos);
      }
      RefEndAgrees(s, back, ic, gs[1..], pos, caps, ec, groups, lo);
    }
  }

  lemma {:induction false} RefAgree(s: Subject, n: Node, groups: nat, lo: nat, back: bool, left: nat, pos: int,
      caps: seq<int>, ec: seq<Option<Range>>)
    requires n.BackRef? && Fine(s, n, groups, lo, back, left, pos) && Before(caps, ec, groups, lo, GroupCount(n))
    ensures Lists(caps, ec, groups, lo, GroupCount(n), Results(s, n, lo, back, pos, caps),
        All(s, n, lo, back, MatchState(pos, ec)))
  {
    AfterSelf(caps, ec, groups, lo, 0);
    RefEndAgrees(s, back, n.ignoreCase, n.groups, pos, caps, ec, groups, lo);
    hide Before, After, RefEnd, ReferenceEnd, FirstDefined;
  }

  // ---- quantifiers ----

  /** A counter that cannot run out stands for infinity; `advances` says that the body always advances. */
  predicate BoundsMatch(coded: Bound, max: Bound, min: nat, remaining: nat, advances: bool) {
    coded == max || (coded.Fin? && max.Inf? && (coded.n >= min + remaining
      || (advances && coded.n >= min && coded.n >= remaining)))
  }

  /** At a loop head: groups agree with the last round, and in a loop without resets the slots that
      the body never writes are still unset. */
  ghost predicate LoopHead(caps0: seq<int>, ec0: seq<Option<Range>>, caps: seq<int>, ec: seq<Option<Range>>,
      groups: nat,
                           b: Node, lo: nat, back: bool, needInit: bool) {
    && After(caps0, ec0, caps, ec, groups, lo, GroupCount(b))
    && (!needInit ==> SameExcept(caps, ResetCaps(caps, lo, GroupCount(b)), Written(b, lo, back)))
  }

  ghost predicate OutsideWeak(caps0: seq<int>, ec0: seq<Option<Range>>, groups: nat, lo: nat, g: nat) {
    Shapes(caps0, ec0, groups) && forall k: nat :: k < groups && !Inside(lo, g, k) ==> Weak(caps0, ec0, k)
  }

  /** Both sides clear the groups of the body before a round. */
  lemma RoundStart(caps0: seq<int>, ec0: seq<Option<Range>>, caps: seq<int>, ec: seq<Option<Range>>, groups: nat,
      lo: nat, g: nat)
    requires OutsideWeak(caps0, ec0, groups, lo, g) && After(caps0, ec0, caps, ec, groups, lo, g) && lo + g <= groups
    ensures Before(ResetCaps(caps, lo, g), ClearGroups(ec, lo, g), groups, lo, g)
  {
    var c, e := ResetCaps(caps, lo, g), ClearGroups(ec, lo, g);
    forall k: nat | k < groups ensures if Inside(lo, g, k) then Clean(c, e, k) else Weak(c, e, k) {
      assert !Inside(lo, g, k) ==> Weak(caps0, ec0, k) && Kept(caps0, ec0, caps, ec, k);
    }
  }

  lemma RoundEnd(caps0: seq<int>, ec0: seq<Option<Range>>, caps: seq<int>, ec: seq<Option<Range>>, groups: nat, lo: nat,
      g: nat,
                 r: Res, y: MatchState)
    requires After(caps0, ec0, caps, ec, groups, lo, g) && lo + g <= groups
    requires Pair(ResetCaps(caps, lo, g), ClearGroups(ec, lo, g), groups, lo, g, r, y)
    ensures After(caps0, ec0, r.caps, y.captures, groups, lo, g)
  {
    forall k: nat | k < groups
      ensures if Inside(lo, g, k) then Strong(r.caps, y.captures, k) else Kept(caps0, ec0, r.caps, y.captures, k)
    {
      assert !Inside(lo, g, k) ==> Kept(caps0, ec0, caps, ec, k);
    }
  }

  ghost function NextAll(s: Subject, b: Node, paren: nat, back: bool, min: nat, max: Bound, greedy: bool,
      x: MatchState): MatchState -> seq<MatchState>
  {
    (y: MatchState) =>
      if min == 0 && !Advances(s, back, x.end, y.end) then []
      else AllRepeat(s, b, paren, back, Pred(min), BoundPred(max), greedy, y)
  }

  lemma {:induction false} RepeatAll(s: Subject, b: Node, paren: nat, back: bool, min: nat, max: Bound, greedy: bool,
      x: MatchState)
    requires !BoundIsZero(max)
    ensures var xr := MatchState(x.end, ClearGroups(x.captures, paren, GroupCount(b)));
            var iterated := FlatMap(All(s, b, paren, back, xr), NextAll(s, b, paren, back, min, max, greedy, x));
            AllRepeat(s, b, paren, back, min, max, greedy, x) ==
            if min != 0 then iterated else if greedy then iterated + [x] else [x] + iterated
  {
    var f := (y: MatchState) =>
      if min == 0 && !Advances(s, back, x.end, y.end) then []
      else AllRepeat(s, b, paren, back, Pred(min), BoundPred(max), greedy, y);
    assert f == NextAll(s, b, paren, back, min, max, greedy, x);
  }

  lemma {:induction false} FlatMapEmpty<X, Y>(xs: seq<X>, f: X -> seq<Y>)
    requires forall i :: 0 <= i < |xs| ==> f(xs[i]) == []
    ensures FlatMap(xs, f) == []
    decreases |xs|
  {
    if xs != [] {
      assert forall i :: 0 <= i < |xs[1..]| ==> xs[1..][i] == xs[i + 1];
      FlatMapEmpty(xs[1..], f);
    }
  }

  /** At the end of the subject a further optional round cannot advance. */
  lemma {:induction false} NoRoundLeft(s: Subject, b: Node, paren: nat, back: bool, greedy: bool, x: MatchState)
    requires InText(s, x.end) && Remaining(s, back, x.end) == 0
    ensures AllRepeat(s, b, paren, back, 0, Inf, greedy, x) == [x]
  {
    RepeatAll(s, b, paren, back, 0, Inf, greedy, x);
    hide All, AllRepeat;
    var xr := MatchState(x.end, ClearGroups(x.captures, paren, GroupCount(b)));
    var ys, f := All(s, b, paren, back, xr), NextAll(s, b, paren, back, 0, Inf, greedy, x);
    forall i | 0 <= i < |ys| ensures f(ys[i]) == [] {
      assert !Advances(s, back, x.end, ys[i].end);
    }
    FlatMapEmpty(ys, f);
  }

  lemma {:induction false} RepeatsAgree(s: Subject, b: Node, groups: nat, lo: nat, back: bool, left: nat,
      needInit: bool, min: nat, coded: Bound,
                                        max: Bound, greedy: bool, pos: int, caps: seq<int>, ec: seq<Option<Range>>,
                                        caps0: seq<int>, ec0: seq<Option<Range>>)
    requires Fine(s, b, groups, lo, back, left, pos) && needInit == BodyNeedsInit(b, lo, back)
    requires OutsideWeak(caps0, ec0, groups, lo, GroupCount(b))
        && LoopHead(caps0, ec0, caps, ec, groups, b, lo, back, needInit)
    requires BoundsMatch(coded, max, min, Remaining(s, back, pos), !BodyNeedsCheck(b, lo, back))
    ensures Lists(caps0, ec0, groups, lo, GroupCount(b), Repeats(s, b, lo, back, needInit, min, coded, greedy, pos,
        caps),
                  AllRepeat(s, b, lo, back, min, max, greedy, MatchState(pos, ec)))
    decreases b, 1, min, Remaining(s, back, pos)
  {
    var x := MatchState(pos, ec);
    if BoundIsZero(coded) {
      if max == Inf { NoRoundLeft(s, b, lo, back, greedy, x); }
      hide After, AllRepeat;
      assert Pair(caps0, ec0, groups, lo, GroupCount(b), Res(pos, caps), x);
    } else {
      RoundAgree(s, b, groups, lo, back, left, needInit, min, coded, max, greedy, pos, caps, ec, caps0, ec0);
    }
  }

  lemma {:induction false} RoundAgree(s: Subject, b: Node, groups: nat, lo: nat, back: bool, left: nat, needInit: bool,
      min: nat, coded: Bound,
                                      max: Bound, greedy: bool, pos: int, caps: seq<int>, ec: seq<Option<Range>>,
                                      caps0: seq<int>, ec0: seq<Option<Range>>)
    requires Fine(s, b, groups, lo, back, left, pos) && needInit == BodyNeedsInit(b, lo, back)
    requires OutsideWeak(caps0, ec0, groups, lo, GroupCount(b))
        && LoopHead(caps0, ec0, caps, ec, groups, b, lo, back, needInit)
    requires BoundsMatch(coded, max, min, Remaining(s, back, pos), !BodyNeedsCheck(b, lo, back)) && !BoundIsZero(coded)
    ensures Lists(caps0, ec0, groups, lo, GroupCount(b), Repeats(s, b, lo, back, needInit, min, coded, greedy, pos,
        caps),
                  AllRepeat(s, b, lo, back, min, max, greedy, MatchState(pos, ec)))
    decreases b, 1, min, Remaining(s, back, pos), 1
  {
    hide Results, All, FlatMap, Repeats, AllRepeat, After, Before, Pair, OutsideWeak, BodyNeedsInit, LoopHead,
      ResetCaps, ClearGroups;
    hide NextRound, NextAll;
    var g, x := GroupCount(b), MatchState(pos, ec);
    var rc, re := ResetCaps(caps, lo, g), ClearGroups(ec, lo, g);
    RepeatsShape(s, b, lo, back, needInit, min, coded, greedy, pos, caps);
    RepeatAll(s, b, lo, back, min, max, greedy, x);
    HeadFacts(caps0, ec0, caps, ec, groups, b, lo, back, needInit);
    if !needInit { StaleIrrelevant(s, b, lo, back, pos, caps); }
    RoundStart(caps0, ec0, caps, ec, groups, lo, g);
    Agree(s, b, groups, lo, back, left, pos, rc, re);
    var rs, ys := Results(s, b, lo, back, pos, rc), All(s, b, lo, back, MatchState(pos, re));
    var f, h := NextRound(s, b, lo, back, needInit, min, coded, greedy, pos),
      NextAll(s, b, lo, back, min, max, greedy, x);
    forall i | 0 <= i < |rs| ensures Lists(caps0, ec0, groups, lo, g, f(rs[i]), h(ys[i])) {
      assert rs[i] in rs;
      NextAgree(s, b, groups, lo, back, left, needInit, min, coded, max, greedy, pos, caps, ec, caps0, ec0, rs[i],
        ys[i]);
    }
    FlatMapLists(caps0, ec0, groups, lo, g, rs, ys, f, h);
    StopPair(caps0, ec0, caps, ec, groups, lo, g, pos);
    ListsAppend(caps0, ec0, groups, lo, g, FlatMap(rs, f), FlatMap(ys, h), [Res(pos, caps)], [x]);
    ListsAppend(caps0, ec0, groups, lo, g, [Res(pos, caps)], [x], FlatMap(rs, f), FlatMap(ys, h));
  }

  lemma HeadFacts(caps0: seq<int>, ec0: seq<Option<Range>>, caps: seq<int>, ec: seq<Option<Range>>, groups: nat,
                  b: Node, lo: nat, back: bool, needInit: bool)
    requires LoopHead(caps0, ec0, caps, ec, groups, b, lo, back, needInit)
    ensures After(caps0, ec0, caps, ec, groups, lo, GroupCount(b))
    ensures !needInit ==> SameExcept(caps, ResetCaps(caps, lo, GroupCount(b)), Written(b, lo, back))
  {
    hide After, SameExcept;
  }

  lemma StopPair(caps0: seq<int>, ec0: seq<Option<Range>>, caps: seq<int>, ec: seq<Option<Range>>, groups: nat, lo: nat,
      g: nat, pos: int)
    requires After(caps0, ec0, caps, ec, groups, lo, g)
    ensures Lists(caps0, ec0, groups, lo, g, [Res(pos, caps)], [MatchState(pos, ec)])
  {
    hide After;
  }

  /** What follows one match of the body agrees. */
  lemma {:induction false} NextAgree(s: Subject, b: Node, groups: nat, lo: nat, back: bool, left: nat, needInit: bool,
      min: nat, coded: Bound,
                                     max: Bound, greedy: bool, pos: int, caps: seq<int>, ec: seq<Option<Range>>,
                                     caps0: seq<int>, ec0: seq<Option<Range>>, r: Res, y: MatchState)
    requires Fine(s, b, groups, lo, back, left, pos) && needInit == BodyNeedsInit(b, lo, back)
    requires OutsideWeak(caps0, ec0, groups, lo, GroupCount(b))
        && After(caps0, ec0, caps, ec, groups, lo, GroupCount(b))
    requires BoundsMatch(coded, max, min, Remaining(s, back, pos), !BodyNeedsCheck(b, lo, back)) && !BoundIsZero(coded)
    requires r in Results(s, b, lo, back, pos, ResetCaps(caps, lo, GroupCount(b)))
    requires Pair(ResetCaps(caps, lo, GroupCount(b)), ClearGroups(ec, lo, GroupCount(b)), groups, lo, GroupCount(b), r,
        y)
    ensures Lists(caps0, ec0, groups, lo, GroupCount(b), NextRound(s, b, lo, back, needInit, min, coded, greedy,
        pos)(r),
                  NextAll(s, b, lo, back, min, max, greedy, MatchState(pos, ec))(y))
    decreases b, 1, min, Remaining(s, back, pos), 0
  {
    hide Results, Repeats, AllRepeat, After, OutsideWeak, BodyNeedsInit, BodyNeedsCheck, NextRound, ResetCaps,
      ClearGroups, LoopHead, CountersSuffice, BoundsMatch, Weak;
    var g := GroupCount(b);
    assert r.pos == y.end;
    NextRoundIs(s, b, lo, back, needInit, min, coded, greedy, pos, r);
    ResultsInText(s, b, lo, back, pos, ResetCaps(caps, lo, g));
    if min == 0 && !Advances(s, back, pos, r.pos) {
    } else {
      RoundEnd(caps0, ec0, caps, ec, groups, lo, g, r, y);
      UnwrittenStay(s, b, lo, back, needInit, pos, caps, r);
      HeadIntro(caps0, ec0, r.caps, y.captures, groups, b, lo, back, needInit);
      assert y == MatchState(r.pos, y.captures);
      RemainingShrinks(s, back, pos, r.pos);
      AdvanceScanSound(s, b, lo, back, pos, ResetCaps(caps, lo, g), groups);
      BoundsNext(coded, max, min, Remaining(s, back, pos), Remaining(s, back, r.pos), !BodyNeedsCheck(b, lo, back));
      RepeatsAgree(s, b, groups, lo, back, left, needInit, Pred(min), BoundPred(coded), BoundPred(max), greedy, r.pos,
        r.caps, y.captures, caps0, ec0);
    }
  }

  lemma BoundsNext(coded: Bound, max: Bound, min: nat, remaining: nat, next: nat, advances: bool)
    requires BoundsMatch(coded, max, min, remaining, advances) && !BoundIsZero(coded) && next <= remaining
    requires min == 0 || advances ==> next < remaining
    ensures BoundsMatch(BoundPred(coded), BoundPred(max), Pred(min), next, advances)
  {
  }

  lemma HeadIntro(caps0: seq<int>, ec0: seq<Option<Range>>, caps: seq<int>, ec: seq<Option<Range>>, groups: nat,
                  b: Node, lo: nat, back: bool, needInit: bool)
    requires After(caps0, ec0, caps, ec, groups, lo, GroupCount(b))
    requires !needInit ==> SameExcept(caps, ResetCaps(caps, lo, GroupCount(b)), Written(b, lo, back))
    ensures LoopHead(caps0, ec0, caps, ec, groups, b, lo, back, needInit)
  {
    hide After, SameExcept;
  }

  lemma RemainingShrinks(s: Subject, back: bool, pos: int, to: int)
    requires InText(s, pos) && NotBehind(s, back, pos, to)
    ensures Remaining(s, back, to) <= Remaining(s, back, pos)
    ensures Advances(s, back, pos, to) ==> Remaining(s, back, to) < Remaining(s, back, pos)
  {
  }

  /** A round without reset leaves the slots that the body does not write unset. */
  lemma {:induction false} UnwrittenStay(s: Subject, b: Node, lo: nat, back: bool, needInit: bool, pos: int,
      caps: seq<int>, r: Res)
    requires needInit == BodyNeedsInit(b, lo, back)
    requires r in Results(s, b, lo, back, pos, ResetCaps(caps, lo, GroupCount(b)))
    ensures !needInit ==> SameExcept(r.caps, ResetCaps(r.caps, lo, GroupCount(b)), Written(b, lo, back))
  {
    hide Results, BodyNeedsInit;
    if !needInit {
      InitScanSound(b, lo, back);
      StraightKeeps(s, b, lo, back, pos, ResetCaps(caps, lo, GroupCount(b)));
    }
  }

  lemma {:induction false} QuantAgree(s: Subject, n: Node, groups: nat, lo: nat, back: bool, left: nat, pos: int,
      caps: seq<int>, ec: seq<Option<Range>>)
    requires n.Quant? && Fine(s, n, groups, lo, back, left, pos) && Before(caps, ec, groups, lo, GroupCount(n))
    ensures Lists(caps, ec, groups, lo, GroupCount(n), Results(s, n, lo, back, pos, caps),
        All(s, n, lo, back, MatchState(pos, ec)))
    decreases n, 0, 0, 0, 0
  {
    hide Results, All, Repeats, AllRepeat, BodyNeedsInit, BodyNeedsCheck, Lists;
    var Quant(b, min, max, greedy) := n;
    var g := GroupCount(b);
    var check, needInit := BodyNeedsCheck(b, lo, back), BodyNeedsInit(b, lo, back);
    QuantResults(s, n, lo, back, pos, caps);
    QuantAll(s, n, lo, back, MatchState(pos, ec));
    CleanReset(caps, ec, groups, lo, g);
    AfterSelf(caps, ec, groups, lo, g);
    RepeatsAgree(s, b, groups, lo, back, left, needInit, min, CodedBound(min, max, check), BoundOf(max), greedy, pos,
      caps, ec, caps, ec);
  }

  lemma CleanReset(caps: seq<int>, ec: seq<Option<Range>>, groups: nat, lo: nat, g: nat)
    requires Before(caps, ec, groups, lo, g) && lo + g <= groups
    ensures ResetCaps(caps, lo, g) == caps
    ensures OutsideWeak(caps, ec, groups, lo, g)
  {
    forall i | 0 <= i < |caps| ensures ResetCaps(caps, lo, g)[i] == caps[i] {
      var k: nat := i / 2;
      assert Inside(lo, g, k) ==> Clean(caps, ec, k);
    }
  }
}
