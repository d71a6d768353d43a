/** Regular expressions as trees, and the primitive tests on one character or position
    that the matcher specification and the bytecode machine have in common. */
module RegexSyntax {

  /** `quant_max` of an unbounded quantifier (INT32_MAX in the source). */
  const INFINITE: nat := 0x7fffffff

  /** What the machine holds in `capture[i]` for NULL. */
  const UNSET: int := -1

  /** One-character tests: a literal, `.`, any character, white space, or a set of code points.
      Literals and sets of an ignore-case expression are already canonicalized. */
  datatype CharTest =
    | Literal(c: nat, ignoreCase: bool)
    | Dot
    | Any
    | Space(negated: bool)
    | InSet(points: seq<nat>, ignoreCase: bool)

  /** Zero-width assertions on the position. */
  datatype Assertion =
    | LineStart(multiline: bool)
    | LineEnd(multiline: bool)
    | WordBoundary(negated: bool, ignoreCase: bool)

  /** A parsed pattern. Capture groups are numbered from left to right. */
  datatype Node =
    | Empty
    | Char(test: CharTest)
    | Assert(assertion: Assertion)
    | Seq(left: Node, right: Node)
    | Alt(first: Node, second: Node)
    | Quant(body: Node, min: nat, max: nat, greedy: bool)
    | Group(body: Node)
    | Look(negative: bool, behind: bool, body: Node)
    | BackRef(groups: seq<nat>, ignoreCase: bool)

  /** Number of capture groups in a pattern. */
  function GroupCount(n: Node): nat {
    match n
    case Seq(l, r) => GroupCount(l) + GroupCount(r)
    case Alt(l, r) => GroupCount(l) + GroupCount(r)
    case Quant(b, _, _, _) => GroupCount(b)
    case Group(b) => 1 + GroupCount(b)
    case Look(_, _, b) => GroupCount(b)
    case _ => 0
  }

  /** The groups of a pattern in the order of their opening parentheses. */
  function OpenGroups(n: Node): seq<Node> {
    match n
    case Seq(l, r) => OpenGroups(l) + OpenGroups(r)
    case Alt(l, r) => OpenGroups(l) + OpenGroups(r)
    case Quant(b, _, _, _) => OpenGroups(b)
    case Group(b) => [n] + OpenGroups(b)
    case Look(_, _, b) => OpenGroups(b)
    case _ => []
  }

  lemma {:induction false} OpenGroupsCounted(n: Node)
    ensures |OpenGroups(n)| == GroupCount(n) && forall i :: 0 <= i < |OpenGroups(n)| ==> OpenGroups(n)[i].Group?
  {
    match n
    case Seq(l, r) => OpenGroupsCounted(l); OpenGroupsCounted(r);
    case Alt(l, r) => OpenGroupsCounted(l); OpenGroupsCounted(r);
    case Quant(b, _, _, _) => OpenGroupsCounted(b);
    case Group(b) => OpenGroupsCounted(b);
    case Look(_, _, b) => OpenGroupsCounted(b);
    case _ =>
  }

  /** The two parts of a concatenation in the order in which they are matched. */
  function Ordered(n: Node, lo: nat, back: bool): (r: (Node, nat, Node, nat))
    requires n.Seq?
    ensures r.0 == n.left || r.0 == n.right
    ensures r.2 == n.left || r.2 == n.right
  {
    if back then (n.right, lo + GroupCount(n.left), n.left, lo) else (n.left, lo, n.right, lo + GroupCount(n.left))
  }

  /** What the parser guarantees: ordered quantifier bounds and back references to existing groups. */
  predicate WellFormed(n: Node, groupLimit: nat) {
    match n
    case Seq(l, r) => WellFormed(l, groupLimit) && WellFormed(r, groupLimit)
    case Alt(l, r) => WellFormed(l, groupLimit) && WellFormed(r, groupLimit)
    case Quant(b, min, max, _) => min <= max <= INFINITE && WellFormed(b, groupLimit)
    case Group(b) => WellFormed(b, groupLimit)
    case Look(_, _, b) => WellFormed(b, groupLimit)
    case BackRef(gs, _) => forall i :: 0 <= i < |gs| ==> gs[i] < groupLimit
    case _ => true
  }

  /** The subject string with the character tables the engine consults:
      case canonicalization and white space are left uninterpreted. */
  datatype Subject = Subject(input: seq<nat>, canonicalize: nat -> nat, isSpace: nat -> bool)

  /** Characters are code points, and case canonicalization maps code points to code points. */
  ghost predicate ValidSubject(s: Subject) {
    && (forall i :: 0 <= i < |s.input| ==> s.input[i] <= 0x10ffff)
    && forall c: nat :: c <= 0x10ffff ==> s.canonicalize(c) <= 0x10ffff
  }

  predicate IsLineTerminator(c: nat) {
    c == 0x0a || c == 0x0d || c == 0x2028 || c == 0x2029
  }

  predicate IsWordByte(c: nat) {
    0x30 <= c <= 0x39 || 0x41 <= c <= 0x5a || c == 0x5f || 0x61 <= c <= 0x7a
  }

  predicate IsWordChar(c: nat, ignoreCase: bool) {
    if c < 256 then IsWordByte(c) else ignoreCase && (c == 0x017f || c == 0x212a)
  }

  /** `c` lies in one of the half-open intervals [points[0], points[1]), [points[2], points[3]), ... */
  ghost predicate InIntervals(points: seq<nat>, c: nat) {
    exists i :: 0 <= i < |points| - 1 && i % 2 == 0 && points[i] <= c < points[i + 1]
  }

  function Canonical(s: Subject, ignoreCase: bool, c: nat): nat {
    if ignoreCase then s.canonicalize(c) else c
  }

  ghost predicate TestAccepts(s: Subject, t: CharTest, c: nat) {
    match t
    case Literal(v, ic) => Canonical(s, ic, c) == v
    case Dot => !IsLineTerminator(c)
    case Any => true
    case Space(negated) => s.isSpace(c) != negated
    case InSet(points, ic) => InIntervals(points, Canonical(s, ic, c))
  }

  predicate AssertionHolds(s: Subject, a: Assertion, pos: int) {
    var n := |s.input|;
    match a
    case LineStart(m) => pos == 0 || (m && 0 < pos <= n && IsLineTerminator(s.input[pos - 1]))
    case LineEnd(m) => pos == n || (m && 0 <= pos < n && IsLineTerminator(s.input[pos]))
    case WordBoundary(negated, ic) =>
      var before := 0 < pos <= n && IsWordChar(s.input[pos - 1], ic);
      var after := 0 <= pos < n && IsWordChar(s.input[pos], ic);
      (before != after) != negated
  }

  /** Characters left to the end of the subject in the matching direction. */
  function Remaining(s: Subject, back: bool, pos: int): nat {
    if back then (if pos > 0 then pos else 0) else (if pos < |s.input| then |s.input| - pos else 0)
  }

  /** `to` lies strictly beyond `from` in the matching direction. */
  predicate Advances(s: Subject, back: bool, from: int, to: int) {
    if back then 0 <= to < from else from < to <= |s.input|
  }

  /** `to` does not lie before `from` in the matching direction. */
  predicate NotBehind(s: Subject, back: bool, from: int, to: int) {
    to == from || Advances(s, back, from, to)
  }

  /** The input ranges [a, a+len) and [b, b+len) hold the same characters up to case folding. */
  predicate SameText(s: Subject, ignoreCase: bool, a: int, b: int, len: int)
    requires 0 <= a && a + len <= |s.input|
    requires 0 <= b && b + len <= |s.input|
  {
    len <= 0 ||
    (var x, y := s.input[a..a + len], s.input[b..b + len];
     forall i :: 0 <= i < len ==> Canonical(s, ignoreCase, x[i]) == Canonical(s, ignoreCase, y[i]))
  }

  datatype Option<+T> = None | Some(value: T)

  /** Where a back reference to the text [start, end) leaves the position, if that text is found. */
  function BackRefEnd(s: Subject, back: bool, ignoreCase: bool, start: int, end: int, pos: int): (r: Option<int>)
    ensures r.Some? ==> NotBehind(s, back, pos, r.value)
  {
    var len := end - start;
    if len <= 0 then Some(pos)
    else if start < 0 || end > |s.input| then None
    else if back then
      if 0 <= pos - len && pos <= |s.input| && SameText(s, ignoreCase, start, pos - len, len)
      then Some(pos - len) else None
    else
      if 0 <= pos && pos + len <= |s.input| && SameText(s, ignoreCase, start, pos, len)
      then Some(pos + len) else None
  }
}
