/** When a run of the machine explores a list of matches: it reaches the end of a block with the first
    match, and every time the continuation fails back into the block, with the next one. */
module Exploration {
  import opened MatchLists
  import opened RawMatch
  import opened SnapshotMachine

  /** Memory with the given captures, and with the given contents in the registers that are live. */
  predicate MemIs(m: Machine, mem: seq<int>, caps: seq<int>, live: seq<int>) {
    && |live| <= m.regs
    && |mem| == 2 * m.groups + m.regs
    && caps == mem[..2 * m.groups]
    && live == mem[2 * m.groups..2 * m.groups + |live|]
  }

  /** `k1` is `k` with only split frames on top. */
  predicate OnlySplits(k: seq<Frame>, k1: seq<Frame>) {
    k <= k1 && forall i :: |k| <= i < |k1| ==> k1[i].kind == SplitFrame
  }

  /** `t` stands at byte `q` with the position and captures of `r`. */
  predicate Offers(m: Machine, t: State, q: int, r: Res, k: seq<Frame>, live: seq<int>) {
    t.Run? && t.pc == q && t.pos == r.pos && MemIs(m, t.mem, r.caps, live) && OnlySplits(k, t.stack)
  }

  /** From `s` the machine offers the matches `rs` at `q` in the states `ts`, one after the other, each
      time the run after `q` fails; when they are exhausted it backtracks into the stack `k`. */
  ghost predicate IsTour(m: Machine, s: State, q: int, rs: seq<Res>, k: seq<Frame>, live: seq<int>, ts: seq<State>)
    decreases |rs|
  {
    if rs == [] then ts == [] && Reaches(m, s, Backtrack(k))
    else ts != [] && Reaches(m, s, ts[0]) && Offers(m, ts[0], q, rs[0], k, live) &&
         IsTour(m, Backtrack(ts[0].stack), q, rs[1..], k, live, ts[1..])
  }

  ghost predicate Explores(m: Machine, s: State, q: int, rs: seq<Res>, k: seq<Frame>, live: seq<int>) {
    exists ts :: IsTour(m, s, q, rs, k, live, ts)
  }

  lemma {:induction false} ExploresCons(m: Machine, s: State, t: State, q: int, r: Res, rs: seq<Res>, k: seq<Frame>,
      live: seq<int>)
    requires Reaches(m, s, t) && Offers(m, t, q, r, k, live)
    requires Explores(m, Backtrack(t.stack), q, rs, k, live)
    ensures Explores(m, s, q, [r] + rs, k, live)
  {
    var ts :| IsTour(m, Backtrack(t.stack), q, rs, k, live, ts);
    assert ([r] + rs)[1..] == rs && ([t] + ts)[1..] == ts;
    assert IsTour(m, s, q, [r] + rs, k, live, [t] + ts);
  }

  lemma {:induction false} ExploresFirst(m: Machine, s: State, q: int, rs: seq<Res>, k: seq<Frame>, live: seq<int>)
      returns (t: State)
    requires rs != [] && Explores(m, s, q, rs, k, live)
    ensures Reaches(m, s, t) && Offers(m, t, q, rs[0], k, live) && t.Run?
    ensures Explores(m, Backtrack(t.stack), q, rs[1..], k, live)
  {
    var ts :| IsTour(m, s, q, rs, k, live, ts);
    t := ts[0];
    assert IsTour(m, Backtrack(t.stack), q, rs[1..], k, live, ts[1..]);
  }

  lemma {:induction false} ExploresEnd(m: Machine, s: State, q: int, k: seq<Frame>, live: seq<int>)
    ensures Explores(m, s, q, [], k, live) <==> Reaches(m, s, Backtrack(k))
  {
    if Reaches(m, s, Backtrack(k)) {
      assert IsTour(m, s, q, [], k, live, []);
    }
  }

  lemma {:induction false} OffersOnTop(m: Machine, t: State, q: int, r: Res, k1: seq<Frame>, k: seq<Frame>,
      live: seq<int>)
    requires Offers(m, t, q, r, k1, live) && OnlySplits(k, k1)
    ensures Offers(m, t, q, r, k, live)
  {
  }

  lemma {:induction false} ExploresAfter(m: Machine, s: State, s1: State, q: int, rs: seq<Res>, k: seq<Frame>,
      live: seq<int>)
    requires Reaches(m, s, s1) && Explores(m, s1, q, rs, k, live)
    ensures Explores(m, s, q, rs, k, live)
  {
    var ts :| IsTour(m, s1, q, rs, k, live, ts);
    ReachesTrans(m, s, s1, if rs == [] then Backtrack(k) else ts[0]);
    assert IsTour(m, s, q, rs, k, live, ts);
  }

  /** A failing state explores nothing. */
  lemma {:induction false} ExploresNone(m: Machine, k: seq<Frame>, q: int, live: seq<int>)
    ensures Explores(m, Backtrack(k), q, [], k, live)
  {
    ReachesSelf(m, Backtrack(k));
    ExploresEnd(m, Backtrack(k), q, k, live);
  }

  /** A state at the end of the block explores just itself. */
  lemma {:induction false} ExploresOne(m: Machine, s: State, q: int, r: Res, k: seq<Frame>, live: seq<int>)
    requires Offers(m, s, q, r, k, live) && s.stack == k
    ensures Explores(m, s, q, [r], k, live)
  {
    ReachesSelf(m, s);
    ExploresNone(m, k, q, live);
    ExploresCons(m, s, s, q, r, [], k, live);
    assert [r] + [] == [r];
  }

  /** Exhausting `a` on a stack with extra split frames, then exploring `b` from those frames. */
  lemma {:induction false} ExploresAppend(m: Machine, s: State, q: int, a: seq<Res>, k1: seq<Frame>,
                                          b: seq<Res>, k: seq<Frame>, live: seq<int>)
    requires Explores(m, s, q, a, k1, live) && OnlySplits(k, k1)
    requires Explores(m, Backtrack(k1), q, b, k, live)
    ensures Explores(m, s, q, a + b, k, live)
    decreases |a|
  {
    hide *;
    if a == [] {
      assert a + b == b;
      ExploresEnd(m, s, q, k1, live);
      ExploresAfter(m, s, Backtrack(k1), q, b, k, live);
    } else {
      var t := ExploresFirst(m, s, q, a, k1, live);
      ExploresAppend(m, Backtrack(t.stack), q, a[1..], k1, b, k, live);
      OffersOnTop(m, t, q, a[0], k1, k, live);
      assert a + b == [a[0]] + (a[1..] + b);
      ExploresCons(m, s, t, q, a[0], a[1..] + b, k, live);
    }
  }

  /** What the code from byte `q1` on makes of a match `r`: it explores `out` from any state that offers `r`. */
  ghost predicate Resumes(m: Machine, q1: int, r: Res, live1: seq<int>, q: int, out: seq<Res>, live: seq<int>) {
    forall t: State {:trigger Offers(m, t, q1, r, t.stack, live1)} ::
      t.Run? && Offers(m, t, q1, r, t.stack, live1) ==> Explores(m, t, q, out, t.stack, live)
  }

  /** Sequential composition of explorations. */
  lemma {:induction false} ExploresThen(m: Machine, s: State, q1: int, rs: seq<Res>, k: seq<Frame>, live1: seq<int>,
                                        q: int, f: Res -> seq<Res>, live: seq<int>)
    requires Explores(m, s, q1, rs, k, live1)
    requires forall r :: r in rs ==> Resumes(m, q1, r, live1, q, f(r), live)
    ensures Explores(m, s, q, FlatMap(rs, f), k, live)
    decreases |rs|
  {
    if rs == [] {
      ExploresEnd(m, s, q1, k, live1);
      ExploresEnd(m, s, q, k, live);
    } else {
      var t := ExploresFirst(m, s, q1, rs, k, live1);
      ExploresThen(m, Backtrack(t.stack), q1, rs[1..], k, live1, q, f, live);
      assert rs[0] in rs;
      assert Offers(m, t, q1, rs[0], t.stack, live1);
      ExploresAppend(m, t, q, f(rs[0]), t.stack, FlatMap(rs[1..], f), k, live);
      ExploresAfter(m, s, t, q, FlatMap(rs, f), k, live);
    }
  }

  /** One step before the exploration. */
  lemma {:induction false} StepThen(m: Machine, s: State, q: int, rs: seq<Res>, k: seq<Frame>, live: seq<int>)
    requires s.Run? && Explores(m, Step(m, s), q, rs, k, live)
    ensures Explores(m, s, q, rs, k, live)
  {
    ReachesStep(m, s, Step(m, s));
    ExploresAfter(m, s, Step(m, s), q, rs, k, live);
  }
}
