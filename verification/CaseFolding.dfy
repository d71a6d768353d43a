/** `cr_regexp_canonicalize`: the image of a character set under case folding. The folding of single characters, which
    the source reads from tables, is a parameter. */
module CaseFolding {
  import opened RegexSyntax
  import opened CharRanges
  import opened RangeUnion

  /** The intervals that are complete, and the one that still grows unless `start` is -1. */
  function Gathered(out: seq<Interval>, start: int, end: nat): seq<Interval> {
    if start < 0 then out else out + [Interval(start, end)]
  }

  predicate NoneEmpty(xs: seq<Interval>) { forall k :: 0 <= k < |xs| ==> xs[k].start < xs[k].end }

  /** The intervals hold exactly the given values. */
  ghost predicate Gathers(xs: seq<Interval>, values: seq<nat>) {
    NoneEmpty(xs) && forall v: nat :: Covered(xs, v) <==> v in values
  }

  lemma CoveredMore(xs: seq<Interval>, x: Interval, v: nat)
    ensures Covered(xs + [x], v) <==> Covered(xs, v) || Covers(x, v)
  {
    var ys := xs + [x];
    assert ys[|xs|] == x;
    if Covered(xs, v) {
      var k := CoverOf(xs, v);
      assert ys[k] == xs[k];
      CoveredBy(ys, k, v);
    }
    if Covers(x, v) {
      CoveredBy(ys, |xs|, v);
    }
    if Covered(ys, v) {
      var k := CoverOf(ys, v);
      if k < |xs| {
        CoveredBy(xs, k, v);
      }
    }
  }

  /** A value that starts an interval. */
  lemma {:induction false} GathersNew(xs: seq<Interval>, values: seq<nat>, d: nat)
    requires Gathers(xs, values)
    ensures Gathers(xs + [Interval(d, d + 1)], values + [d])
  {
    hide Covered;
    forall v: nat ensures Covered(xs + [Interval(d, d + 1)], v) <==> v in values + [d] {
      CoveredMore(xs, Interval(d, d + 1), v);
    }
  }

  /** A value that lengthens the last interval. */
  lemma {:induction false} GathersNext(out: seq<Interval>, x: Interval, values: seq<nat>)
    requires Gathers(out + [x], values)
    ensures Gathers(out + [Interval(x.start, x.end + 1)], values + [x.end])
  {
    hide Covered;
    var y := Interval(x.start, x.end + 1);
    assert x.start < x.end by { assert (out + [x])[|out|] == x; }
    forall k | 0 <= k < |out + [y]| ensures (out + [y])[k].start < (out + [y])[k].end {
      if k < |out| {
        assert (out + [x])[k] == out[k];
      }
    }
    forall v: nat ensures Covered(out + [y], v) <==> v in values + [x.end] {
      CoveredMore(out, x, v);
      CoveredMore(out, y, v);
    }
  }

  /** The images of the code points in the intervals, gathered into intervals as long as each follows the last. */
  method FoldedRanges(points: seq<nat>, fold: nat -> nat) returns (xs: seq<Interval>)
    requires IsRange(points)
    ensures NoneEmpty(xs)
    ensures forall v: nat :: Covered(xs, v) <==> exists d: nat :: Inside(points, d) && fold(d) == v
  {
    hide *;
    var out: seq<Interval>, start: int, end: nat := [], -1, 0;
    ghost var values: seq<nat> := [];
    GathersNothing();
    ImagesNothing(points, fold);
    var i := 0;
    while i < |points|
      invariant i <= |points| && i % 2 == 0 && start >= -1
      invariant Gathers(Gathered(out, start, end), values)
      invariant Images(points, i, 0, fold, values)
    {
      RangeHere(points, i);
      var c := points[i];
      ImagesEnter(points, i, fold, values);
      while c < points[i + 1]
        invariant points[i] <= c <= points[i + 1] && start >= -1
        invariant Gathers(Gathered(out, start, end), values)
        invariant Images(points, i, c, fold, values)
      {
        var d := fold(c);
        GatheredIs(out, start, end);
        ImagesMore(points, i, c, fold, values);
        values := values + [d];
        if start == -1 {
          GathersNew(out, values[..|values| - 1], d);
          start, end := d, d + 1;
        } else if end == d {
          GathersNext(out, Interval(start, end), values[..|values| - 1]);
          end := end + 1;
        } else {
          GathersNew(out + [Interval(start, end)], values[..|values| - 1], d);
          out := out + [Interval(start, end)];
          start, end := d, d + 1;
        }
        assert values == values[..|values| - 1] + [d];
        GatheredIs(out, start, end);
        c := c + 1;
      }
      ImagesLeave(points, i, fold, values);
      i := i + 2;
    }
    GatheredIs(out, start, end);
    xs := if start != -1 then out + [Interval(start, end)] else out;
    ImagesAll(points, fold, values);
    GathersParts(xs, values);
    ImageIs(points, fold, values);
  }

  lemma GatheredIs(out: seq<Interval>, start: int, end: nat)
    ensures Gathered(out, start, end) == if start < 0 then out else out + [Interval(start, end)]
  {
  }

  lemma GathersNothing()
    ensures Gathers(Gathered([], -1, 0), [])
  {
  }

  lemma RangeHere(points: seq<nat>, i: nat)
    requires IsRange(points) && i < |points| && i % 2 == 0
    ensures i + 1 < |points| && points[i] <= points[i + 1]
  {
  }

  // ---- the code points that have been folded ----

  /** The code point d lies in an interval before the bound i, or in the interval there and below c. */
  ghost predicate Visited(points: seq<nat>, i: nat, c: nat, d: nat)
    requires i <= |points|
  {
    InIntervals(points[..i], d) || (i < |points| && points[i] <= d < c)
  }

  /** The values are the images of the code points visited. */
  ghost predicate Images(points: seq<nat>, i: nat, c: nat, fold: nat -> nat, values: seq<nat>) {
    i <= |points| && forall v: nat :: v in values <==> exists d: nat :: Visited(points, i, c, d) && fold(d) == v
  }

  /** The values are the images of the code points in the set. */
  ghost predicate IsImage(points: seq<nat>, fold: nat -> nat, values: seq<nat>) {
    forall v: nat :: v in values <==> exists d: nat :: Inside(points, d) && fold(d) == v
  }

  lemma ImagesNothing(points: seq<nat>, fold: nat -> nat)
    ensures Images(points, 0, 0, fold, [])
  {
  }

  lemma SameVisited(points: seq<nat>, i: nat, c: nat, i1: nat, c1: nat, fold: nat -> nat, values: seq<nat>)
    requires Images(points, i, c, fold, values) && i1 <= |points|
    requires forall d: nat :: Visited(points, i1, c1, d) <==> Visited(points, i, c, d)
    ensures Images(points, i1, c1, fold, values)
  {
    hide Visited;
    forall v: nat
      ensures v in values <==> exists d: nat :: Visited(points, i1, c1, d) && fold(d) == v
    {
    }
  }

  lemma ImagesEnter(points: seq<nat>, i: nat, fold: nat -> nat, values: seq<nat>)
    requires Images(points, i, 0, fold, values) && i < |points|
    ensures Images(points, i, points[i], fold, values)
  {
    SameVisited(points, i, 0, i, points[i], fold, values);
  }

  lemma {:induction false} ImagesMore(points: seq<nat>, i: nat, c: nat, fold: nat -> nat, values: seq<nat>)
    requires Images(points, i, c, fold, values) && i < |points| && points[i] <= c
    ensures Images(points, i, c + 1, fold, values + [fold(c)])
  {
    var c1, more := c + 1, values + [fold(c)];
    assert forall d: nat :: Visited(points, i, c1, d) <==> Visited(points, i, c, d) || d == c;
    hide Visited;
    forall v: nat ensures v in more <==> exists d: nat :: Visited(points, i, c1, d) && fold(d) == v {
      if v in values {
        var d: nat :| Visited(points, i, c, d) && fold(d) == v;
        assert Visited(points, i, c1, d);
      } else if v == fold(c) {
        assert Visited(points, i, c1, c);
      }
    }
  }

  lemma {:induction false} ImagesLeave(points: seq<nat>, i: nat, fold: nat -> nat, values: seq<nat>)
    requires IsRange(points) && i + 1 < |points| && i % 2 == 0 && Images(points, i, points[i + 1], fold, values)
    ensures Images(points, i + 2, 0, fold, values)
  {
    var i1, end := i + 2, points[i + 1];
    forall d: nat ensures Visited(points, i1, 0, d) <==> Visited(points, i, end, d) {
      OneMoreInterval(points, i, d);
    }
    SameVisited(points, i, end, i1, 0, fold, values);
  }

  lemma {:induction false} OneMoreInterval(points: seq<nat>, i: nat, d: nat)
    requires i + 1 < |points| && i % 2 == 0
    ensures InIntervals(points[..i + 2], d) <==> InIntervals(points[..i], d) || points[i] <= d < points[i + 1]
  {
    var p, q := points[..i + 2], points[..i];
    if InIntervals(q, d) {
      var k :| 0 <= k < |q| - 1 && k % 2 == 0 && q[k] <= d < q[k + 1];
      assert p[k] == q[k] && p[k + 1] == q[k + 1];
      InIntervalsBy(p, k, d);
    }
    if points[i] <= d < points[i + 1] {
      InIntervalsBy(p, i, d);
    }
    if InIntervals(p, d) {
      var k :| 0 <= k < |p| - 1 && k % 2 == 0 && p[k] <= d < p[k + 1];
      if k < i {
        InIntervalsBy(q, k, d);
      }
    }
  }

  lemma {:induction false} ImagesAll(points: seq<nat>, fold: nat -> nat, values: seq<nat>)
    requires IsRange(points) && Images(points, |points|, 0, fold, values)
    ensures IsImage(points, fold, values)
  {
    hide InIntervals, Inside;
    assert points[..|points|] == points;
    forall d: nat ensures Visited(points, |points|, 0, d) <==> Inside(points, d) {
      InsideIsInIntervals(points, d);
    }
    forall v: nat ensures v in values <==> exists d: nat :: Inside(points, d) && fold(d) == v {
      if v in values {
        var d: nat :| Visited(points, |points|, 0, d) && fold(d) == v;
        assert Inside(points, d);
      }
      if d: nat :| Inside(points, d) && fold(d) == v {
        assert Visited(points, |points|, 0, d);
      }
    }
  }

  // ---- the whole operation ----

  lemma NoneIsolated(xs: seq<Interval>)
    requires NoneEmpty(xs)
    ensures Proper(xs) && !HasIsolated(xs)
  {
  }

  /** Without empty intervals the merge of `cr_sort_and_remove_overlap` is in normal form. */
  lemma {:induction false} NoneEmptyCanonical(xs: seq<Interval>, out: seq<Interval>)
    requires NoneEmpty(xs) && IsUnion(xs, out)
    ensures IsCanonical(Bounds(out))
  {
    hide *;
    NoneIsolated(xs);
    EmptyIffIsolated(xs, out);
    UnionBounds(xs, out);
  }

  /** An empty interval alone stays, so the result is not in normal form. */
  lemma {:induction false} EmptyStays(out: seq<Interval>)
    requires IsUnion([Interval(5, 5)], out)
    ensures HasIsolated([Interval(5, 5)]) && !IsCanonical(Bounds(out))
  {
    var xs := [Interval(5, 5)];
    assert Isolated(xs, 5) by { assert xs[0] == Interval(5, 5); }
    EmptyIffIsolated(xs, out);
    UnionBounds(xs, out);
  }

  /** The images of a set, as a set in normal form. */
  method FoldedSet(points: seq<nat>, fold: nat -> nat) returns (r: seq<nat>)
    requires IsRange(points)
    ensures IsCanonical(r) && forall v: nat :: Inside(r, v) <==> exists d: nat :: Inside(points, d) && fold(d) == v
  {
    hide *;
    var xs := FoldedRanges(points, fold);
    NoneIsolated(xs);
    var a := new Interval[|xs|](i requires 0 <= i < |xs| => xs[i]);
    assert a[..] == xs;
    var len := SortAndRemoveOverlap(a);
    r := Bounds(a[..len]);
  }

  lemma GathersParts(xs: seq<Interval>, values: seq<nat>)
    requires Gathers(xs, values)
    ensures NoneEmpty(xs) && forall v: nat :: Covered(xs, v) <==> v in values
  {
  }

  lemma ImageIs(points: seq<nat>, fold: nat -> nat, values: seq<nat>)
    requires IsImage(points, fold, values)
    ensures forall v: nat :: v in values <==> exists d: nat :: Inside(points, d) && fold(d) == v
  {
  }

  /** Only characters of the mask are folded. */
  ghost function Canonical(mask: seq<nat>, fold: nat -> nat, d: nat): nat { if Inside(mask, d) then fold(d) else d }

  /** `cr_regexp_canonicalize`: characters of the mask are replaced by their images, the others stay. */
  method RegexpCanonicalize(cr: CharRange, mask: CharRange, fold: nat -> nat)
    requires cr != mask && IsRange(cr.points) && Bounded(cr.points) && IsRange(mask.points) && Bounded(mask.points)
    modifies cr, mask
    ensures IsCanonical(cr.points)
    ensures forall v: nat :: Inside(cr.points, v) <==>
        exists d: nat :: Inside(old(cr.points), d) && Canonical(old(mask.points), fold, d) == v
  {
    hide *;
    ghost var given, folding := cr.points, mask.points;
    var inter := new CharRange();
    inter.Op(mask.points, cr.points, Inter);
    CanonicalIsRange(inter.points);
    mask.Invert();
    ComplementParts(folding, mask.points);
    var rest := new CharRange();
    rest.Op(mask.points, cr.points, Inter);
    CanonicalIsRange(rest.points);
    var folded := FoldedSet(inter.points, fold);
    CanonicalIsRange(folded);
    cr.points := [];
    cr.Op(folded, rest.points, Union);
    forall v: nat
      ensures Inside(cr.points, v) <==> exists d: nat :: Inside(given, d) && Canonical(folding, fold, d) == v
    {
      Replaced(given, folding, mask.points, inter.points, rest.points, folded, cr.points, fold, v);
    }
  }

  lemma CanonicalIsRange(p: seq<nat>)
    requires IsCanonical(p)
    ensures IsRange(p)
  {
  }

  lemma ComplementParts(a: seq<nat>, b: seq<nat>)
    requires IsComplement(a, b)
    ensures IsRange(b) && forall c: nat :: c < UINT32_MAX ==> (Inside(b, c) <==> !Inside(a, c))
  {
  }

  /** A member of the union is the image of a character that is folded, or a character that is not. */
  lemma {:induction false} Replaced(given: seq<nat>, folding: seq<nat>, other: seq<nat>, inter: seq<nat>,
      rest: seq<nat>, folded: seq<nat>, r: seq<nat>, fold: nat -> nat, v: nat)
    requires IsRange(given) && Bounded(given)
    requires forall c: nat :: c < UINT32_MAX ==> (Inside(other, c) <==> !Inside(folding, c))
    requires forall c: nat :: Inside(inter, c) <==> Inside(folding, c) && Inside(given, c)
    requires forall c: nat :: Inside(rest, c) <==> Inside(other, c) && Inside(given, c)
    requires Inside(folded, v) <==> exists d: nat :: Inside(inter, d) && fold(d) == v
    requires Inside(r, v) <==> Inside(folded, v) || Inside(rest, v)
    ensures Inside(r, v) <==> exists d: nat :: Inside(given, d) && Canonical(folding, fold, d) == v
  {
    hide Inside, Bounded, IsRange;
    forall d: nat | Inside(given, d) ensures d < UINT32_MAX { BelowBound(given, d); }
    if Inside(folded, v) {
      var d: nat :| Inside(inter, d) && fold(d) == v;
      assert Inside(given, d) && Canonical(folding, fold, d) == v;
    } else if Inside(rest, v) {
      assert Inside(given, v) && Canonical(folding, fold, v) == v;
    }
    if d: nat :| Inside(given, d) && Canonical(folding, fold, d) == v {
      if Inside(folding, d) {
        assert Inside(inter, d);
      } else {
        assert Inside(rest, d);
      }
    }
  }

  lemma BelowBound(p: seq<nat>, c: nat)
    requires IsRange(p) && Bounded(p) && Inside(p, c)
    ensures c < UINT32_MAX
  {
    if c >= UINT32_MAX {
      BoundedSet(p, c);
    }
  }
}
