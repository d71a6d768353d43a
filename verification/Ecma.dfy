/** The matcher of ECMA-262, section 22.2.2, in its own continuation-passing form. */
module Ecma {
  import opened RegexSyntax

  /** A captured range of the subject string. */
  datatype Range = Range(start: int, end: int)

  /** MatchState of section 22.2.1.5: an end index and one optional range per capture group. */
  datatype MatchState = MatchState(end: int, captures: seq<Option<Range>>)

  type Continuation = MatchState -> Option<MatchState>

  /** Upper bound of a quantifier: finite, or +infinity. */
  datatype Bound = Fin(n: nat) | Inf

  predicate BoundIsZero(b: Bound) { b == Fin(0) }

  function Pred(n: nat): nat { if n == 0 then 0 else n - 1 }

  function BoundPred(b: Bound): Bound { if b.Inf? then Inf else Fin(Pred(b.n)) }

  function BoundOf(max: nat): Bound { if max == INFINITE then Inf else Fin(max) }

  /** Groups numbered lo .. lo + n - 1 made undefined (step 4 of RepeatMatcher). */
  function ClearGroups(captures: seq<Option<Range>>, lo: nat, n: nat): (r: seq<Option<Range>>)
    ensures |r| == |captures|
  {
    seq(|captures|, i requires 0 <= i < |captures| => if lo <= i < lo + n then None else captures[i])
  }

  /** The first group of the list that took part in the match (BackreferenceMatcher, section 22.2.2.7.2). */
  function FirstDefined(captures: seq<Option<Range>>, groups: seq<nat>): Option<Range> {
    if groups == [] then None
    else if groups[0] < |captures| && captures[groups[0]].Some? then captures[groups[0]]
    else FirstDefined(captures, groups[1..])
  }

  /** The code points of LineTerminator, section 12.3. */
  predicate LineTerminator(c: nat) { c in {0x000a, 0x000d, 0x2028, 0x2029} }

  /** WordCharacters, section 22.2.2.9.3: letters, digits and the underscore, and with ignore-case the two other
      characters that fold to a letter. */
  predicate WordCharacter(c: nat, ignoreCase: bool) {
    || (c < 128 && var ch := c as char; 'a' <= ch <= 'z' || 'A' <= ch <= 'Z' || '0' <= ch <= '9' || ch == '_')
    || (ignoreCase && c in {0x017f, 0x212a})
  }

  /** IsWordChar, section 22.2.2.4.1: there is no character before the start or at the end. */
  predicate WordCharacterAt(s: Subject, ignoreCase: bool, e: int) {
    0 <= e < |s.input| && WordCharacter(s.input[e], ignoreCase)
  }

  /** The assertions `^`, `$`, `\b` and `\B` of section 22.2.2.4. */
  predicate AssertionMatches(s: Subject, a: Assertion, e: int) {
    match a
    case LineStart(multiline) =>
      if e == 0 then true else multiline && 0 <= e - 1 < |s.input| && LineTerminator(s.input[e - 1])
    case LineEnd(multiline) =>
      if e == |s.input| then true else multiline && 0 <= e < |s.input| && LineTerminator(s.input[e])
    case WordBoundary(negated, ic) =>
      var a, b := WordCharacterAt(s, ic, e - 1), WordCharacterAt(s, ic, e);
      if negated then a == b else (a && !b) || (!a && b)
  }

  /** Canonicalize, section 22.2.2.7.3. */
  function Canonicalize(s: Subject, ignoreCase: bool, c: nat): nat {
    if ignoreCase then s.canonicalize(c) else c
  }

  /** CharacterSetMatcher, section 22.2.2.7.1, for one character; a class is a list of ranges. */
  ghost predicate CharacterMatches(s: Subject, t: CharTest, c: nat) {
    match t
    case Literal(v, ic) => v == Canonicalize(s, ic, c)
    case Dot => !LineTerminator(c)
    case Any => true
    case Space(negated) => if negated then !s.isSpace(c) else s.isSpace(c)
    case InSet(points, ic) =>
      exists k :: 0 <= k < |points| / 2 && points[2 * k] <= Canonicalize(s, ic, c) < points[2 * k + 1]
  }

  predicate Differ(s: Subject, ignoreCase: bool, x: seq<nat>, y: seq<nat>)
    requires |x| == |y|
  {
    exists i :: 0 <= i < |x| && Canonicalize(s, ignoreCase, x[i]) != Canonicalize(s, ignoreCase, y[i])
  }

  /** BackreferenceMatcher, section 22.2.2.7.2, after a group has been found: where the match ends, if the text of the
      group is found again before or after `e`. */
  function ReferenceEnd(s: Subject, ignoreCase: bool, back: bool, r: Range, e: int): (f: Option<int>) {
    var len := r.end - r.start;
    if len <= 0 then Some(e) else
    var f := if back then e - len else e + len;
    var g := if e < f then e else f;
    if f < 0 || f > |s.input| || e < 0 || e > |s.input| || r.start < 0 || r.end > |s.input| then None
    else if Differ(s, ignoreCase, s.input[r.start..r.end], s.input[g..g + len]) then None
    else Some(f)
  }

  /** CompileSubpattern applied to a state and a continuation. `paren` is the number of the first
      group of the node and `back` the matching direction. */
  ghost function Matcher(s: Subject, n: Node, paren: nat, back: bool, x: MatchState,
      c: Continuation): Option<MatchState>
    decreases n, 0, 0, 0
  {
    match n
    case Empty => c(x)
    case Char(t) =>
      var f := if back then x.end - 1 else x.end + 1;
      var index := if back then x.end - 1 else x.end;
      if !(0 <= index < |s.input|) || !CharacterMatches(s, t, s.input[index]) then None
      else c(MatchState(f, x.captures))
    case Assert(a) => if AssertionMatches(s, a, x.end) then c(x) else None
    case Seq(l, r) =>
      if back then
        Matcher(s, r, paren + GroupCount(l), back, x, y => Matcher(s, l, paren, back, y, c))
      else
        Matcher(s, l, paren, back, x, y => Matcher(s, r, paren + GroupCount(l), back, y, c))
    case Alt(a, b) =>
      var r := Matcher(s, a, paren, back, x, c);
      if r.Some? then r else Matcher(s, b, paren + GroupCount(a), back, x, c)
    case Quant(b, min, max, greedy) => Repeat(s, b, paren, back, min, BoundOf(max), greedy, x, c)
    case Group(b) =>
      Matcher(s, b, paren + 1, back, x, (y: MatchState) =>
        var r := if back then Range(y.end, x.end) else Range(x.end, y.end);
        if paren < |y.captures| then c(MatchState(y.end, y.captures[paren := Some(r)])) else None)
    case Look(negative, behind, b) =>
      var r := Matcher(s, b, paren, behind, x, y => Some(y));
      if negative then
        if r.Some? then None else c(x)
      else
        if r.None? then None else c(MatchState(x.end, r.value.captures))
    case BackRef(groups, ic) =>
      match FirstDefined(x.captures, groups)
      case None => c(x)
      case Some(range) =>
        match ReferenceEnd(s, ic, back, range, x.end)
        case None => None
        case Some(f) => c(MatchState(f, x.captures))
  }

  /** RepeatMatcher, section 22.2.2.3.1. A match of the body never moves against the direction, so
      "did not advance" is the standard's "same end index". */
  ghost function Repeat(s: Subject, b: Node, paren: nat, back: bool, min: nat, max: Bound, greedy: bool,
                        x: MatchState, c: Continuation): Option<MatchState>
    decreases b, 1, min, Remaining(s, back, x.end)
  {
    if BoundIsZero(max) then c(x) else
    var d := (y: MatchState) =>
      if min == 0 && !Advances(s, back, x.end, y.end) then None
      else Repeat(s, b, paren, back, Pred(min), BoundPred(max), greedy, y, c);
    var xr := MatchState(x.end, ClearGroups(x.captures, paren, GroupCount(b)));
    if min != 0 then Matcher(s, b, paren, back, xr, d)
    else if !greedy then
      var z := c(x);
      if z.Some? then z else Matcher(s, b, paren, back, xr, d)
    else
      var z := Matcher(s, b, paren, back, xr, d);
      if z.Some? then z else c(x)
  }

  function Undefined(n: nat): seq<Option<Range>> {
    seq(n, i => None)
  }

  /** A match of the whole pattern at one index. */
  ghost function MatchAt(s: Subject, n: Node, index: int): Option<MatchState> {
    Matcher(s, n, 1, false, MatchState(index, Undefined(1 + GroupCount(n))), y => Some(y))
  }

  /** The search loop of RegExpBuiltinExec (section 22.2.7.2): the leftmost index at or after `index`
      that matches; a sticky expression only tries `index` itself. */
  ghost function Search(s: Subject, n: Node, sticky: bool, index: int): Option<(int, MatchState)>
    decreases |s.input| - index
  {
    var r := MatchAt(s, n, index);
    if r.Some? then Some((index, r.value))
    else if sticky || index >= |s.input| then None
    else Search(s, n, sticky, index + 1)
  }

  // ---- where the assertions hold ----

  /** [i, j) is a word: word characters that no other word character precedes or follows. */
  ghost predicate Word(s: Subject, ic: bool, i: int, j: int) {
    && 0 <= i < j <= |s.input|
    && (forall k :: i <= k < j ==> WordCharacter(s.input[k], ic))
    && (i > 0 ==> !WordCharacter(s.input[i - 1], ic))
    && (j < |s.input| ==> !WordCharacter(s.input[j], ic))
  }

  /** The first character of the word that `e` is in. */
  lemma {:induction false} WordStart(s: Subject, ic: bool, e: int) returns (i: int)
    requires 0 <= e < |s.input| && WordCharacter(s.input[e], ic)
    ensures 0 <= i <= e && (forall k :: i <= k <= e ==> WordCharacter(s.input[k], ic))
    ensures i > 0 ==> !WordCharacter(s.input[i - 1], ic)
    decreases e
  {
    if e == 0 || !WordCharacter(s.input[e - 1], ic) {
      i := e;
    } else {
      i := WordStart(s, ic, e - 1);
    }
  }

  /** The end of the word that `e` is in. */
  lemma {:induction false} WordEnd(s: Subject, ic: bool, e: int) returns (j: int)
    requires 0 <= e < |s.input| && WordCharacter(s.input[e], ic)
    ensures e < j <= |s.input| && (forall k :: e <= k < j ==> WordCharacter(s.input[k], ic))
    ensures j < |s.input| ==> !WordCharacter(s.input[j], ic)
    decreases |s.input| - e
  {
    if e + 1 == |s.input| || !WordCharacter(s.input[e + 1], ic) {
      j := e + 1;
    } else {
      j := WordEnd(s, ic, e + 1);
    }
  }

  /** `\b` matches exactly at the start and at the end of every word, and `\B` exactly elsewhere. */
  lemma {:induction false} BoundaryOfWord(s: Subject, ic: bool, e: int)
    requires 0 <= e <= |s.input|
    ensures AssertionMatches(s, WordBoundary(false, ic), e) <==> exists i, j :: Word(s, ic, i, j) && (e == i || e == j)
    ensures AssertionMatches(s, WordBoundary(true, ic), e) <==> forall i, j :: Word(s, ic, i, j) ==> e != i && e != j
  {
    hide WordCharacter;
    var before, after := WordCharacterAt(s, ic, e - 1), WordCharacterAt(s, ic, e);
    if before && !after {
      var i := WordStart(s, ic, e - 1);
      assert Word(s, ic, i, e);
    }
    if after && !before {
      var j := WordEnd(s, ic, e);
      assert Word(s, ic, e, j);
    }
    forall i, j | Word(s, ic, i, j) && (e == i || e == j) ensures before != after {
      assert WordCharacter(s.input[i], ic) && WordCharacter(s.input[j - 1], ic);
    }
  }

  /** [i, j) is a line without its terminator. */
  ghost predicate Line(s: Subject, i: int, j: int) {
    && 0 <= i <= j <= |s.input|
    && (forall k :: i <= k < j ==> !LineTerminator(s.input[k]))
    && (i > 0 ==> LineTerminator(s.input[i - 1]))
    && (j < |s.input| ==> LineTerminator(s.input[j]))
  }

  lemma {:induction false} LineFrom(s: Subject, i: int) returns (j: int)
    requires 0 <= i <= |s.input|
    ensures i <= j <= |s.input| && (forall k :: i <= k < j ==> !LineTerminator(s.input[k]))
    ensures j < |s.input| ==> LineTerminator(s.input[j])
    decreases |s.input| - i
  {
    if i == |s.input| || LineTerminator(s.input[i]) {
      j := i;
    } else {
      j := LineFrom(s, i + 1);
    }
  }

  lemma {:induction false} LineTo(s: Subject, j: int) returns (i: int)
    requires 0 <= j <= |s.input|
    ensures 0 <= i <= j && (forall k :: i <= k < j ==> !LineTerminator(s.input[k]))
    ensures i > 0 ==> LineTerminator(s.input[i - 1])
    decreases j
  {
    if j == 0 || LineTerminator(s.input[j - 1]) {
      i := j;
    } else {
      i := LineTo(s, j - 1);
    }
  }

  /** A multiline `^` matches exactly where a line starts and `$` exactly where one ends; otherwise they match at the
      ends of the string only. */
  lemma {:induction false} EdgesOfLines(s: Subject, e: int)
    requires 0 <= e <= |s.input|
    ensures AssertionMatches(s, LineStart(true), e) <==> exists j :: Line(s, e, j)
    ensures AssertionMatches(s, LineEnd(true), e) <==> exists i :: Line(s, i, e)
    ensures AssertionMatches(s, LineStart(false), e) <==> s.input[..e] == []
    ensures AssertionMatches(s, LineEnd(false), e) <==> s.input[e..] == []
  {
    hide LineTerminator;
    if AssertionMatches(s, LineStart(true), e) {
      var j := LineFrom(s, e);
      assert Line(s, e, j);
    }
    if AssertionMatches(s, LineEnd(true), e) {
      var i := LineTo(s, e);
      assert Line(s, i, e);
    }
  }
}
