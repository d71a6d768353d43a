/** Rearrangements of one stretch of a sequence. */
module Shuffle {

  /** `t` is `s` with the elements from lo up to hi in another order. */
  ghost predicate Shuffled<T>(s: seq<T>, t: seq<T>, lo: nat, hi: nat) {
    && lo <= hi <= |s| == |t| && s[..lo] == t[..lo] && s[hi..] == t[hi..]
    && multiset(s[lo..hi]) == multiset(t[lo..hi])
  }

  lemma ShuffledSelf<T>(s: seq<T>, lo: nat, hi: nat)
    requires lo <= hi <= |s|
    ensures Shuffled(s, s, lo, hi)
  {
  }

  lemma ShuffledTrans<T>(s: seq<T>, t: seq<T>, u: seq<T>, lo: nat, hi: nat)
    requires Shuffled(s, t, lo, hi) && Shuffled(t, u, lo, hi)
    ensures Shuffled(s, u, lo, hi)
  {
  }

  /** A shuffle of a stretch is a shuffle of any stretch around it. */
  lemma {:induction false} ShuffledWiden<T>(s: seq<T>, t: seq<T>, lo: nat, hi: nat, lo1: nat, hi1: nat)
    requires Shuffled(s, t, lo, hi) && lo1 <= lo && hi <= hi1 <= |s|
    ensures Shuffled(s, t, lo1, hi1)
  {
    assert s[lo1..hi1] == s[..lo][lo1..] + s[lo..hi] + s[hi..][..hi1 - hi];
    assert t[lo1..hi1] == t[..lo][lo1..] + t[lo..hi] + t[hi..][..hi1 - hi];
    assert s[..lo1] == s[..lo][..lo1] && t[..lo1] == t[..lo][..lo1];
    assert s[hi1..] == s[hi..][hi1 - hi..] && t[hi1..] == t[hi..][hi1 - hi..];
  }

  function Swapped<T>(s: seq<T>, i: nat, j: nat): (t: seq<T>)
    requires i < |s| && j < |s|
    ensures |t| == |s|
  {
    s[i := s[j]][j := s[i]]
  }

  lemma {:induction false} SwapShuffles<T>(s: seq<T>, i: nat, j: nat, lo: nat, hi: nat)
    requires lo <= i < hi <= |s| && lo <= j < hi
    ensures Shuffled(s, Swapped(s, i, j), lo, hi)
  {
    var t := Swapped(s, i, j);
    var x, y := s[lo..hi], t[lo..hi];
    assert y == x[i - lo := x[j - lo]][j - lo := x[i - lo]];
  }

  /** Outside the stretch nothing changes. */
  lemma ShuffledOutside<T>(s: seq<T>, t: seq<T>, lo: nat, hi: nat, k: nat)
    requires Shuffled(s, t, lo, hi) && k < |s| && !(lo <= k < hi)
    ensures t[k] == s[k]
  {
    if k < lo {
      assert s[..lo][k] == t[..lo][k];
    } else {
      assert s[hi..][k - hi] == t[hi..][k - hi];
    }
  }

  /** Every element of the stretch was in it before. */
  lemma {:induction false} ShuffledFrom<T>(s: seq<T>, t: seq<T>, lo: nat, hi: nat, k: nat) returns (k0: nat)
    requires Shuffled(s, t, lo, hi) && lo <= k < hi
    ensures lo <= k0 < hi && t[k] == s[k0]
  {
    assert t[lo..hi][k - lo] in multiset(t[lo..hi]);
    assert t[k] in multiset(s[lo..hi]);
    assert t[k] in s[lo..hi];
    var j :| 0 <= j < hi - lo && s[lo..hi][j] == t[k];
    k0 := lo + j;
  }
}
