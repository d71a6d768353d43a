/** Matches as a list in priority order: what a continuation-passing matcher offers to its
    continuation, first choice first. */
module MatchLists {
  import opened RegexSyntax
  import opened Ecma

  ghost function FlatMap<A, B>(xs: seq<A>, f: A -> seq<B>): seq<B> {
    if xs == [] then [] else f(xs[0]) + FlatMap(xs[1..], f)
  }

  ghost function FirstSome<A, B>(xs: seq<A>, c: A -> Option<B>): Option<B> {
    if xs == [] then None
    else var r := c(xs[0]); if r.Some? then r else FirstSome(xs[1..], c)
  }

  lemma {:induction false} FirstSomeAppend<A, B>(xs: seq<A>, ys: seq<A>, c: A -> Option<B>)
    ensures FirstSome(xs + ys, c) == if FirstSome(xs, c).Some? then FirstSome(xs, c) else FirstSome(ys, c)
  {
    if xs == [] {
      assert xs + ys == ys;
    } else {
      assert (xs + ys)[1..] == xs[1..] + ys;
      FirstSomeAppend(xs[1..], ys, c);
    }
  }

  lemma {:induction false} FirstSomeFlatMap<A, B, C>(xs: seq<A>, f: A -> seq<B>, c: B -> Option<C>, d: A -> Option<C>)
    requires forall i :: 0 <= i < |xs| ==> d(xs[i]) == FirstSome(f(xs[i]), c)
    ensures FirstSome(FlatMap(xs, f), c) == FirstSome(xs, d)
  {
    if xs != [] {
      FirstSomeAppend(f(xs[0]), FlatMap(xs[1..], f), c);
      assert forall i :: 0 <= i < |xs[1..]| ==> xs[1..][i] == xs[i + 1];
      FirstSomeFlatMap(xs[1..], f, c, d);
    }
  }

  lemma {:induction false} FirstSomeNone<A, B>(c: A -> Option<B>)
    ensures FirstSome([], c) == None
  {
  }

  lemma {:induction false} FirstSomeSingleton<A, B>(x: A, c: A -> Option<B>)
    ensures FirstSome([x], c) == c(x)
  {
    assert FirstSome([x][1..], c) == None;
  }

  lemma {:induction false} FlatMapOne<A, B>(x: A, f: A -> seq<B>)
    ensures FlatMap([x], f) == f(x)
  {
    assert [x][1..] == [];
    assert FlatMap([x][1..], f) == [];
  }

  /** Every element of a flat map comes from one element of the source list. */
  lemma {:induction false} FlatMapMember<A, B>(xs: seq<A>, f: A -> seq<B>, y: B)
    requires y in FlatMap(xs, f)
    ensures exists i :: 0 <= i < |xs| && y in f(xs[i])
  {
    if y in f(xs[0]) {
    } else {
      FlatMapMember(xs[1..], f, y);
      var j :| 0 <= j < |xs[1..]| && y in f(xs[1..][j]);
      assert xs[1..][j] == xs[j + 1];
    }
  }

  /** All matches of a node from a state, in the order in which the matcher tries them. */
  ghost function All(s: Subject, n: Node, paren: nat, back: bool, x: MatchState): seq<MatchState>
    decreases n, 0, 0, 0
  {
    match n
    case Empty => [x]
    case Char(t) =>
      var index := if back then x.end - 1 else x.end;
      if 0 <= index < |s.input| && CharacterMatches(s, t, s.input[index])
      then [MatchState(if back then x.end - 1 else x.end + 1, x.captures)] else []
    case Assert(a) => if AssertionMatches(s, a, x.end) then [x] else []
    case Seq(l, r) =>
      if back then
        FlatMap(All(s, r, paren + GroupCount(l), back, x), y => All(s, l, paren, back, y))
      else
        FlatMap(All(s, l, paren, back, x), y => All(s, r, paren + GroupCount(l), back, y))
    case Alt(a, b) => All(s, a, paren, back, x) + All(s, b, paren + GroupCount(a), back, x)
    case Quant(b, min, max, greedy) => AllRepeat(s, b, paren, back, min, BoundOf(max), greedy, x)
    case Group(b) => FlatMap(All(s, b, paren + 1, back, x), y => CloseGroup(paren, back, x, y))
    case Look(negative, behind, b) =>
      var r := All(s, b, paren, behind, x);
      if negative then (if r == [] then [x] else [])
      else (if r == [] then [] else [MatchState(x.end, r[0].captures)])
    case BackRef(groups, ic) =>
      match FirstDefined(x.captures, groups)
      case None => [x]
      case Some(range) =>
        match ReferenceEnd(s, ic, back, range, x.end)
        case None => []
        case Some(f) => [MatchState(f, x.captures)]
  }

  ghost function CloseGroup(paren: nat, back: bool, x: MatchState, y: MatchState): seq<MatchState> {
    var r := if back then Range(y.end, x.end) else Range(x.end, y.end);
    if paren < |y.captures| then [MatchState(y.end, y.captures[paren := Some(r)])] else []
  }

  ghost function AllRepeat(s: Subject, b: Node, paren: nat, back: bool, min: nat, max: Bound, greedy: bool,
                           x: MatchState): seq<MatchState>
    decreases b, 1, min, Remaining(s, back, x.end)
  {
    if BoundIsZero(max) then [x] else
    var xr := MatchState(x.end, ClearGroups(x.captures, paren, GroupCount(b)));
    var iterated := FlatMap(All(s, b, paren, back, xr), (y: MatchState) =>
      if min == 0 && !Advances(s, back, x.end, y.end) then []
      else AllRepeat(s, b, paren, back, Pred(min), BoundPred(max), greedy, y));
    if min != 0 then iterated else if greedy then iterated + [x] else [x] + iterated
  }

  /** The continuation-passing matcher of ECMA-262 takes the first match of the list that its
      continuation accepts. */
  lemma {:induction false} MatcherTakesFirst(s: Subject, n: Node, paren: nat, back: bool, x: MatchState,
      c: Continuation)
    ensures Matcher(s, n, paren, back, x, c) == FirstSome(All(s, n, paren, back, x), c)
    decreases n, 0, 0, 0
  {
    hide FirstSome, FlatMap, Matcher, All;
    match n
    case Empty => LeafTakesFirst(s, n, paren, back, x, c);
    case Char(_) => LeafTakesFirst(s, n, paren, back, x, c);
    case Assert(_) => LeafTakesFirst(s, n, paren, back, x, c);
    case Seq(_, _) => SeqTakesFirst(s, n, paren, back, x, c);
    case Alt(_, _) => AltTakesFirst(s, n, paren, back, x, c);
    case Quant(b, min, max, greedy) =>
      RepeatTakesFirst(s, b, paren, back, min, BoundOf(max), greedy, x, c);
      QuantIsRepeat(s, n, paren, back, x, c);
      QuantAll(s, n, paren, back, x);
    case Group(_) => GroupTakesFirst(s, n, paren, back, x, c);
    case Look(_, _, _) => LookTakesFirst(s, n, paren, back, x, c);
    case BackRef(_, _) => RefTakesFirst(s, n, paren, back, x, c);
  }

  lemma {:induction false} LeafTakesFirst(s: Subject, n: Node, paren: nat, back: bool, x: MatchState, c: Continuation)
    requires n.Empty? || n.Char? || n.Assert?
    ensures Matcher(s, n, paren, back, x, c) == FirstSome(All(s, n, paren, back, x), c)
  {
    hide FirstSome, FlatMap, CharacterMatches, AssertionMatches;
    FirstSomeNone(c);
    FirstSomeSingleton(x, c);
    FirstSomeSingleton(MatchState(if back then x.end - 1 else x.end + 1, x.captures), c);
  }

  lemma {:induction false} QuantIsRepeat(s: Subject, n: Node, paren: nat, back: bool, x: MatchState, c: Continuation)
    requires n.Quant?
    ensures Matcher(s, n, paren, back, x, c) == Repeat(s, n.body, paren, back, n.min, BoundOf(n.max), n.greedy, x, c)
  {
    hide Repeat;
  }

  lemma {:induction false} AltAll(s: Subject, n: Node, paren: nat, back: bool, x: MatchState)
    requires n.Alt?
    ensures All(s, n, paren, back, x) == All(s, n.first, paren, back, x)
        + All(s, n.second, paren + GroupCount(n.first), back, x)
  {
    hide AllRepeat, CharacterMatches, AssertionMatches, ReferenceEnd, FirstDefined, CloseGroup;
  }

  lemma {:induction false} AltMatcher(s: Subject, n: Node, paren: nat, back: bool, x: MatchState, c: Continuation)
    requires n.Alt?
    ensures var r := Matcher(s, n.first, paren, back, x, c);
            Matcher(s, n, paren, back, x, c) ==
            if r.Some? then r else Matcher(s, n.second, paren + GroupCount(n.first), back, x, c)
  {
    hide Repeat, CharacterMatches, AssertionMatches, ReferenceEnd, FirstDefined, CloseGroup;
  }

  lemma {:induction false} AltTakesFirst(s: Subject, n: Node, paren: nat, back: bool, x: MatchState, c: Continuation)
    requires n.Alt?
    ensures Matcher(s, n, paren, back, x, c) == FirstSome(All(s, n, paren, back, x), c)
    decreases n, 0, 0, 0, 0
  {
    hide FirstSome, All, Matcher;
    var a, b, k := n.first, n.second, paren + GroupCount(n.first);
    AltAll(s, n, paren, back, x);
    AltMatcher(s, n, paren, back, x, c);
    MatcherTakesFirst(s, a, paren, back, x, c);
    MatcherTakesFirst(s, b, k, back, x, c);
    FirstSomeAppend(All(s, a, paren, back, x), All(s, b, k, back, x), c);
  }

  lemma {:induction false} RefTakesFirst(s: Subject, n: Node, paren: nat, back: bool, x: MatchState, c: Continuation)
    requires n.BackRef?
    ensures Matcher(s, n, paren, back, x, c) == FirstSome(All(s, n, paren, back, x), c)
  {
    FirstSomeSingleton(x, c);
    var d := FirstDefined(x.captures, n.groups);
    if d.Some? {
      var e := ReferenceEnd(s, n.ignoreCase, back, d.value, x.end);
      if e.Some? {
        FirstSomeSingleton(MatchState(e.value, x.captures), c);
      }
    }
  }

  ghost function ThenAll(s: Subject, n: Node, paren: nat, back: bool): MatchState -> seq<MatchState> {
    (y: MatchState) => All(s, n, paren, back, y)
  }

  ghost function ThenMatch(s: Subject, n: Node, paren: nat, back: bool, c: Continuation): Continuation {
    (y: MatchState) => Matcher(s, n, paren, back, y, c)
  }

  /** The matches of a concatenation: each match of the part that comes first, then the other part from there. */
  lemma {:induction false} SeqAll(s: Subject, n: Node, paren: nat, back: bool, x: MatchState)
    requires n.Seq?
    ensures var o := Ordered(n, paren, back);
            All(s, n, paren, back, x) == FlatMap(All(s, o.0, o.1, back, x), ThenAll(s, o.2, o.3, back))
  {
    hide AllRepeat, CharacterMatches, AssertionMatches, ReferenceEnd, FirstDefined, CloseGroup, GroupCount;
    var l, r, k := n.left, n.right, paren + GroupCount(n.left);
    if back {
      var f := (y: MatchState) => All(s, l, paren, back, y);
      assert All(s, n, paren, back, x) == FlatMap(All(s, r, k, back, x), f);
      assert f == ThenAll(s, l, paren, back);
    } else {
      var f := (y: MatchState) => All(s, r, k, back, y);
      assert All(s, n, paren, back, x) == FlatMap(All(s, l, paren, back, x), f);
      assert f == ThenAll(s, r, k, back);
    }
  }

  lemma {:induction false} SeqMatch(s: Subject, n: Node, paren: nat, back: bool, x: MatchState, c: Continuation)
    requires n.Seq?
    ensures var o := Ordered(n, paren, back);
            Matcher(s, n, paren, back, x, c) == Matcher(s, o.0, o.1, back, x, ThenMatch(s, o.2, o.3, back, c))
  {
    hide Repeat, CharacterMatches, AssertionMatches, ReferenceEnd, FirstDefined, CloseGroup, GroupCount;
    var l, r, k := n.left, n.right, paren + GroupCount(n.left);
    if back {
      var f := (y: MatchState) => Matcher(s, l, paren, back, y, c);
      assert Matcher(s, n, paren, back, x, c) == Matcher(s, r, k, back, x, f);
      assert f == ThenMatch(s, l, paren, back, c);
    } else {
      var f := (y: MatchState) => Matcher(s, r, k, back, y, c);
      assert Matcher(s, n, paren, back, x, c) == Matcher(s, l, paren, back, x, f);
      assert f == ThenMatch(s, r, k, back, c);
    }
  }

  lemma {:induction false} SeqTakesFirst(s: Subject, n: Node, paren: nat, back: bool, x: MatchState, c: Continuation)
    requires n.Seq?
    ensures Matcher(s, n, paren, back, x, c) == FirstSome(All(s, n, paren, back, x), c)
    decreases n, 0, 0, 0, 0
  {
    hide All, Matcher, FlatMap, FirstSome;
    var o := Ordered(n, paren, back);
    var d, f := ThenMatch(s, o.2, o.3, back, c), ThenAll(s, o.2, o.3, back);
    var ys := All(s, o.0, o.1, back, x);
    forall i | 0 <= i < |ys| ensures d(ys[i]) == FirstSome(f(ys[i]), c) {
      MatcherTakesFirst(s, o.2, o.3, back, ys[i], c);
    }
    MatcherTakesFirst(s, o.0, o.1, back, x, d);
    FirstSomeFlatMap(ys, f, c, d);
    SeqMatch(s, n, paren, back, x, c);
    SeqAll(s, n, paren, back, x);
  }

  lemma {:induction false} GroupTakesFirst(s: Subject, n: Node, paren: nat, back: bool, x: MatchState, c: Continuation)
    requires n.Group?
    ensures Matcher(s, n, paren, back, x, c) == FirstSome(All(s, n, paren, back, x), c)
    decreases n, 0, 0, 0, 0
  {
    hide AllRepeat, Repeat, GroupCount, CharacterMatches, AssertionMatches, FirstDefined, ReferenceEnd, FlatMap;
    var b := n.body;
    var d := (y: MatchState) =>
      (var r := if back then Range(y.end, x.end) else Range(x.end, y.end);
       if paren < |y.captures| then c(MatchState(y.end, y.captures[paren := Some(r)])) else None);
    var f := (y: MatchState) => CloseGroup(paren, back, x, y);
    var ys := All(s, b, paren + 1, back, x);
    forall i | 0 <= i < |ys| ensures d(ys[i]) == FirstSome(f(ys[i]), c) {
      var y := ys[i];
      var r := if back then Range(y.end, x.end) else Range(x.end, y.end);
      if paren < |y.captures| {
        FirstSomeSingleton(MatchState(y.end, y.captures[paren := Some(r)]), c);
      }
    }
    MatcherTakesFirst(s, b, paren + 1, back, x, d);
    FirstSomeFlatMap(ys, f, c, d);
    assert Matcher(s, n, paren, back, x, c) == Matcher(s, b, paren + 1, back, x, d);
    assert All(s, n, paren, back, x) == FlatMap(ys, f);
  }

  lemma {:induction false} LookTakesFirst(s: Subject, n: Node, paren: nat, back: bool, x: MatchState, c: Continuation)
    requires n.Look?
    ensures Matcher(s, n, paren, back, x, c) == FirstSome(All(s, n, paren, back, x), c)
    decreases n, 0, 0, 0, 0
  {
    var accept := (y: MatchState) => Some(y);
    var r := All(s, n.body, paren, n.behind, x);
    MatcherTakesFirst(s, n.body, paren, n.behind, x, accept);
    assert FirstSome(r, accept) == if r == [] then None else Some(r[0]);
    FirstSomeSingleton(x, c);
    if r != [] {
      FirstSomeSingleton(MatchState(x.end, r[0].captures), c);
    }
    assert Matcher(s, n.body, paren, n.behind, x, accept) == if r == [] then None else Some(r[0]);
  }

  lemma {:induction false} RepeatTakesFirst(s: Subject, b: Node, paren: nat, back: bool, min: nat, max: Bound,
      greedy: bool,
                         x: MatchState, c: Continuation)
    ensures Repeat(s, b, paren, back, min, max, greedy, x, c) ==
            FirstSome(AllRepeat(s, b, paren, back, min, max, greedy, x), c)
    decreases b, 1, min, Remaining(s, back, x.end)
  {
    hide All, Matcher, FlatMap, FirstSome;
    FirstSomeNone(c);
    FirstSomeSingleton(x, c);
    if !BoundIsZero(max) {
      var xr := MatchState(x.end, ClearGroups(x.captures, paren, GroupCount(b)));
      var d := (y: MatchState) =>
        if min == 0 && !Advances(s, back, x.end, y.end) then None
        else Repeat(s, b, paren, back, Pred(min), BoundPred(max), greedy, y, c);
      var f := (y: MatchState) =>
        if min == 0 && !Advances(s, back, x.end, y.end) then []
        else AllRepeat(s, b, paren, back, Pred(min), BoundPred(max), greedy, y);
      var ys := All(s, b, paren, back, xr);
      forall i | 0 <= i < |ys| ensures d(ys[i]) == FirstSome(f(ys[i]), c) {
        if !(min == 0 && !Advances(s, back, x.end, ys[i].end)) {
          RepeatTakesFirst(s, b, paren, back, Pred(min), BoundPred(max), greedy, ys[i], c);
        }
      }
      MatcherTakesFirst(s, b, paren, back, xr, d);
      FirstSomeFlatMap(ys, f, c, d);
      FirstSomeAppend(FlatMap(ys, f), [x], c);
      FirstSomeAppend([x], FlatMap(ys, f), c);
    }
  }

  /** A quantifier matches what its repetitions match. */
  lemma QuantAll(s: Subject, n: Node, paren: nat, back: bool, x: MatchState)
    requires n.Quant?
    ensures All(s, n, paren, back, x) == AllRepeat(s, n.body, paren, back, n.min, BoundOf(n.max), n.greedy, x)
  {
    hide AllRepeat, CharacterMatches, AssertionMatches, ReferenceEnd, FirstDefined, CloseGroup;
  }
}
