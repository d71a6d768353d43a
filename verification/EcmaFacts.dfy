/** The matcher of the standard never moves against its direction. So its test "the end index did not
    change" (step 2.b of RepeatMatcher) is the test "did not advance" of the model. */
module EcmaFacts {
  import opened RegexSyntax
  import opened Ecma
  import opened MatchLists

  /** Every match lies at or beyond `end`. */
  ghost predicate Onward(s: Subject, back: bool, end: int, ys: seq<MatchState>) {
    forall y :: y in ys ==> NotBehind(s, back, end, y.end)
  }

  lemma {:induction false} FlatMapOnward(s: Subject, back: bool, end: int, xs: seq<MatchState>,
      f: MatchState -> seq<MatchState>)
    requires Onward(s, back, end, xs)
    requires forall x :: x in xs ==> Onward(s, back, x.end, f(x))
    ensures Onward(s, back, end, FlatMap(xs, f))
  {
    forall y | y in FlatMap(xs, f) ensures NotBehind(s, back, end, y.end) {
      FlatMapMember(xs, f, y);
      var i :| 0 <= i < |xs| && y in f(xs[i]);
      assert xs[i] in xs;
    }
  }

  lemma {:induction false} AllOnward(s: Subject, n: Node, paren: nat, back: bool, x: MatchState)
    ensures Onward(s, back, x.end, All(s, n, paren, back, x))
    decreases n, 0, 0, 0
  {
    hide FlatMap, Onward, All;
    match n
    case Seq(_, _) => SeqOnward(s, n, paren, back, x);
    case Alt(a, b) =>
      AllOnward(s, a, paren, back, x);
      AllOnward(s, b, paren + GroupCount(a), back, x);
      AltOnward(s, n, paren, back, x);
    case Quant(b, min, max, greedy) =>
      RepeatOnward(s, b, paren, back, min, BoundOf(max), greedy, x);
      assert All(s, n, paren, back, x) == AllRepeat(s, b, paren, back, min, BoundOf(max), greedy,
        x) by { QuantAll(s, n, paren, back, x); }
    case Group(_) => GroupOnward(s, n, paren, back, x);
    case _ => LeafOnward(s, n, paren, back, x);
  }

  lemma {:induction false} LeafOnward(s: Subject, n: Node, paren: nat, back: bool, x: MatchState)
    requires n.Empty? || n.Char? || n.Assert? || n.BackRef? || n.Look?
    ensures Onward(s, back, x.end, All(s, n, paren, back, x))
  {
    hide CharacterMatches, AssertionMatches, FirstDefined, AllRepeat;
  }

  lemma {:induction false} AltOnward(s: Subject, n: Node, paren: nat, back: bool, x: MatchState)
    requires n.Alt? && Onward(s, back, x.end, All(s, n.first, paren, back, x))
    requires Onward(s, back, x.end, All(s, n.second, paren + GroupCount(n.first), back, x))
    ensures Onward(s, back, x.end, All(s, n, paren, back, x))
  {
    var a, b := All(s, n.first, paren, back, x), All(s, n.second, paren + GroupCount(n.first), back, x);
    assert All(s, n, paren, back, x) == a + b;
  }

  lemma {:induction false} SeqOnward(s: Subject, n: Node, paren: nat, back: bool, x: MatchState)
    requires n.Seq?
    ensures Onward(s, back, x.end, All(s, n, paren, back, x))
    decreases n, 0, 0, 0, 0
  {
    hide FlatMap, AllRepeat, GroupCount, CharacterMatches, AssertionMatches, Onward;
    var l, r, k := n.left, n.right, paren + GroupCount(n.left);
    if back {
      var f := (y: MatchState) => All(s, l, paren, back, y);
      var xs := All(s, r, k, back, x);
      AllOnward(s, r, k, back, x);
      forall y | y in xs ensures Onward(s, back, y.end, f(y)) { AllOnward(s, l, paren, back, y); }
      FlatMapOnward(s, back, x.end, xs, f);
      assert All(s, n, paren, back, x) == FlatMap(xs, f);
    } else {
      var f := (y: MatchState) => All(s, r, k, back, y);
      var xs := All(s, l, paren, back, x);
      AllOnward(s, l, paren, back, x);
      forall y | y in xs ensures Onward(s, back, y.end, f(y)) { AllOnward(s, r, k, back, y); }
      FlatMapOnward(s, back, x.end, xs, f);
      assert All(s, n, paren, back, x) == FlatMap(xs, f);
    }
  }

  lemma {:induction false} GroupOnward(s: Subject, n: Node, paren: nat, back: bool, x: MatchState)
    requires n.Group?
    ensures Onward(s, back, x.end, All(s, n, paren, back, x))
    decreases n, 0, 0, 0, 0
  {
    hide FlatMap;
    var b := n.body;
    var f := (y: MatchState) => CloseGroup(paren, back, x, y);
    var xs := All(s, b, paren + 1, back, x);
    AllOnward(s, b, paren + 1, back, x);
    FlatMapOnward(s, back, x.end, xs, f);
    assert All(s, n, paren, back, x) == FlatMap(xs, f);
  }

  lemma {:induction false} RepeatOnward(s: Subject, b: Node, paren: nat, back: bool, min: nat, max: Bound, greedy: bool,
      x: MatchState)
    ensures Onward(s, back, x.end, AllRepeat(s, b, paren, back, min, max, greedy, x))
    decreases b, 1, min, Remaining(s, back, x.end)
  {
    hide FlatMap, All;
    if !BoundIsZero(max) {
      var xr := MatchState(x.end, ClearGroups(x.captures, paren, GroupCount(b)));
      var f := (y: MatchState) =>
        if min == 0 && !Advances(s, back, x.end, y.end) then []
        else AllRepeat(s, b, paren, back, Pred(min), BoundPred(max), greedy, y);
      var xs := All(s, b, paren, back, xr);
      AllOnward(s, b, paren, back, xr);
      forall y | y in xs ensures Onward(s, back, y.end, f(y)) {
        if !(min == 0 && !Advances(s, back, x.end, y.end)) {
          RepeatOnward(s, b, paren, back, Pred(min), BoundPred(max), greedy, y);
        }
      }
      FlatMapOnward(s, back, x.end, xs, f);
    }
  }

  /** A match of a loop body has not advanced exactly when it ends where it began. */
  lemma {:induction false} NotAdvancedIsSameEnd(s: Subject, n: Node, paren: nat, back: bool, x: MatchState,
      y: MatchState)
    requires y in All(s, n, paren, back, x)
    ensures !Advances(s, back, x.end, y.end) <==> y.end == x.end
  {
    AllOnward(s, n, paren, back, x);
  }
}
