/** The `range` and `range32` instructions: a binary search in the table of a character set. */
module RangeTest {
  import opened RegexSyntax
  import opened Bytecode
  import opened ByteType
  import opened Encoding

  /** Bounds of interval i of a point list. */
  function Lo(points: seq<nat>, i: nat): nat
    requires 2 * i + 1 < |points|
  {
    points[2 * i]
  }

  function Hi(points: seq<nat>, i: nat): nat
    requires 2 * i + 1 < |points|
  {
    points[2 * i + 1]
  }

  lemma IntervalAt(points: seq<nat>, c: nat, i: nat)
    requires 2 * i + 1 < |points| && Lo(points, i) <= c < Hi(points, i)
    ensures InIntervals(points, c)
  {
    assert (2 * i) % 2 == 0;
  }

  lemma IntervalOf(points: seq<nat>, c: nat) returns (i: nat)
    requires InIntervals(points, c)
    ensures 2 * i + 1 < |points| && Lo(points, i) <= c < Hi(points, i)
  {
    var j :| 0 <= j < |points| - 1 && j % 2 == 0 && points[j] <= c < points[j + 1];
    i := j / 2;
    assert 2 * i == j;
  }

  /** Where an interval lies in a 16-bit table. */
  lemma {:induction false} Point16At(b: seq<Byte>, at: nat, n: nat, i: nat)
    requires at + 4 * n <= |b| && i < n
    ensures |Points16(b, at, n)| == 2 * n
    ensures var high := Get16(b, at + 4 * i + 2);
            && Points16(b, at, n)[2 * i] == Get16(b, at + 4 * i)
            && Points16(b, at, n)[2 * i + 1] == if high == 0xffff then 0xffff_ffff else high + 1
    decreases n
  {
    if i > 0 {
      Point16At(b, at + 4, n - 1, i - 1);
    } else if n > 1 {
      Point16At(b, at + 4, n - 1, 0);
    }
  }

  lemma {:induction false} Point32At(b: seq<Byte>, at: nat, n: nat, i: nat)
    requires at + 8 * n <= |b| && i < n
    ensures |Points32(b, at, n)| == 2 * n
    ensures Points32(b, at, n)[2 * i] == Get32(b, at + 8 * i) && Points32(b, at, n)[2 * i + 1]
        == Get32(b, at + 8 * i + 4) + 1
    decreases n
  {
    if i > 0 {
      Point32At(b, at + 8, n - 1, i - 1);
    } else if n > 1 {
      Point32At(b, at + 8, n - 1, 0);
    }
  }

  /** All intervals before `lo` end at or before `c`, all from `hi` on start after `c`. */
  ghost predicate Narrowed(points: seq<nat>, c: nat, lo: nat, hi: nat) {
    && (forall i: nat :: i < lo && 2 * i + 1 < |points| ==> Hi(points, i) <= c)
    && (forall i: nat :: hi <= i && 2 * i + 1 < |points| ==> c < Lo(points, i))
  }

  lemma Outside(points: seq<nat>, c: nat, n: nat)
    requires Narrowed(points, c, n, n)
    ensures !InIntervals(points, c)
  {
    if InIntervals(points, c) {
      var i := IntervalOf(points, c);
      assert false;
    }
  }

  /** A comparison with interval i narrows the search. */
  lemma Narrow(points: seq<nat>, c: nat, lo: nat, hi: nat, i: nat)
    requires IsPointList(points) && Narrowed(points, c, lo, hi) && 2 * i + 1 < |points|
    ensures c < Lo(points, i) ==> Narrowed(points, c, lo, i)
    ensures Hi(points, i) <= c ==> Narrowed(points, c, i + 1, hi)
  {
    forall j: nat | i < j && 2 * j + 1 < |points| ensures Lo(points, i) < Lo(points, j) {
      assert points[2 * i] < points[2 * j];
    }
    forall j: nat | j < i && 2 * j + 1 < |points| ensures Hi(points, j) < Hi(points, i) {
      assert points[2 * j + 1] < points[2 * i + 1];
    }
  }

  /** Only the last interval can extend to infinity. */
  lemma HighBelow(points: seq<nat>, n: nat, i: nat)
    requires IsPointList(points) && i < n && |points| == 2 * n
    ensures i < n - 1 ==> Hi(points, i) < 0xffff_ffff
  {
    assert i < n - 1 ==> points[2 * i + 1] < points[2 * n - 1];
  }

  /** The comparisons with the ends of the table. */
  lemma Ends(points: seq<nat>, c: nat, n: nat)
    requires IsPointList(points) && |points| == 2 * n > 0
    ensures c < Lo(points, 0) ==> !InIntervals(points, c)
    ensures Hi(points, n - 1) <= c ==> !InIntervals(points, c)
    ensures !(c < Lo(points, 0)) ==> Narrowed(points, c, 0, n)
  {
    assert Narrowed(points, c, 0, n);
    Narrow(points, c, 0, n, 0);
    Narrow(points, c, 0, n, n - 1);
    if c < Lo(points, 0) { Outside(points, c, 0); }
    if Hi(points, n - 1) <= c { Outside(points, c, n); }
  }

  /** `range`: the test accepts exactly the characters of the compiled set, with 0xffff as the upper
      bound "infinity". The comparison with the first low bound keeps `idx - 1` from wrapping. */
  method InRange16(b: seq<Byte>, at: nat, n: nat, c: nat) returns (ok: bool)
    requires 1 <= n && at + 4 * n <= |b| && IsPointList(Points16(b, at, n)) && c <= 0x10ffff
    ensures ok <==> InIntervals(Points16(b, at, n), c)
  {
    hide IsPointList, Points16, Get16, InIntervals, Narrowed;
    ghost var points := Points16(b, at, n);
    Point16At(b, at, n, 0);
    Point16At(b, at, n, n - 1);
    Ends(points, c, n);
    var idxMin := 0;
    var low := Get16(b, at);
    if c < low {
      return false;
    }
    var idxMax := n - 1;
    var high := Get16(b, at + 4 * idxMax + 2);
    if c >= 0xffff && high == 0xffff {
      IntervalAt(points, c, n - 1);
      return true;
    }
    if c > high {
      return false;
    }
    while idxMin <= idxMax
      invariant 0 <= idxMin <= idxMax + 1 <= n && Narrowed(points, c, idxMin, idxMax + 1)
      decreases idxMax - idxMin
    {
      var idx := (idxMin + idxMax) / 2;
      Point16At(b, at, n, idx);
      HighBelow(points, n, idx);
      Narrow(points, c, idxMin, idxMax + 1, idx);
      low := Get16(b, at + 4 * idx);
      high := Get16(b, at + 4 * idx + 2);
      if c < low {
        assert idx > 0;
        idxMax := idx - 1;
      } else if c > high {
        idxMin := idx + 1;
      } else {
        IntervalAt(points, c, idx);
        return true;
      }
    }
    Outside(points, c, idxMin);
    return false;
  }

  /** `range32`. */
  method InRange32(b: seq<Byte>, at: nat, n: nat, c: nat) returns (ok: bool)
    requires 1 <= n && at + 8 * n <= |b| && IsPointList(Points32(b, at, n))
    ensures ok <==> InIntervals(Points32(b, at, n), c)
  {
    hide IsPointList, Points32, Get32, InIntervals, Narrowed;
    ghost var points := Points32(b, at, n);
    Point32At(b, at, n, 0);
    Point32At(b, at, n, n - 1);
    Ends(points, c, n);
    var idxMin := 0;
    var low := Get32(b, at);
    if c < low {
      return false;
    }
    var idxMax := n - 1;
    var high := Get32(b, at + 8 * idxMax + 4);
    if c > high {
      return false;
    }
    while idxMin <= idxMax
      invariant 0 <= idxMin <= idxMax + 1 <= n && Narrowed(points, c, idxMin, idxMax + 1)
      decreases idxMax - idxMin
    {
      var idx := (idxMin + idxMax) / 2;
      Point32At(b, at, n, idx);
      Narrow(points, c, idxMin, idxMax + 1, idx);
      low := Get32(b, at + 8 * idx);
      high := Get32(b, at + 8 * idx + 4);
      if c < low {
        assert idx > 0;
        idxMax := idx - 1;
      } else if c > high {
        idxMin := idx + 1;
      } else {
        IntervalAt(points, c, idx);
        return true;
      }
    }
    Outside(points, c, idxMin);
    return false;
  }

  /** The table that a decoded set instruction refers to. */
  lemma {:induction false} SetTable(b: seq<Byte>, points: seq<nat>, ic: bool)
    requires Decode(b) == Some(Test(InSet(points, ic))) && IsPointList(points) && |points| >= 2
    ensures |b| >= 3
    ensures var t := b[1..];
            var n := Get16(t, 0);
            && n >= 1
            && (b[0] < OP_RANGE32 ==> |t| >= 2 + 4 * n && Points16(t, 2, n) == points)
            && (b[0] >= OP_RANGE32 ==> |t| >= 2 + 8 * n && Points32(t, 2, n) == points)
  {
    hide Points16, Points32, IsPointList, Get16;
    var t := b[1..];
    assert DecodeTest(b[0], t) == Some(Test(InSet(points, ic)));
    var n := Get16(t, 0);
    if n == 0 { NoPoints(t); }
  }

  lemma NoPoints(t: seq<Byte>)
    requires |t| >= 2
    ensures Points16(t, 2, 0) == [] && Points32(t, 2, 0) == []
  {
  }
}
