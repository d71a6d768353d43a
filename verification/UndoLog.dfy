/** The stack of `lre_exec_backtrack`: saved states of three words with a log of overwritten captures
    and registers between them. Replaying the log above a saved state gives back the memory as it was
    when the state was saved. */
module UndoLog {
  import opened SnapshotMachine

  /** One word of the stack (`StackElem`): a value, a base-pointer word with the kind of the saved
      state, or the link that the compaction of a lookahead writes over it. */
  datatype Slot = Val(v: int) | Base(bp: nat, kind: FrameKind) | Link(next: nat)

  /** A log holds pairs of a memory index and the value to restore there. */
  predicate IsLog(log: seq<Slot>, n: nat) {
    |log| % 2 == 0 && (forall i :: 0 <= i < |log| ==> log[i].Val?) &&
    forall i :: 0 <= i < |log| && i % 2 == 0 ==> 0 <= log[i].v < n
  }

  /** Undo the writes recorded in a log, the last one first. */
  function Undo(log: seq<Slot>, mem: seq<int>): (r: seq<int>)
    requires IsLog(log, |mem|)
    ensures |r| == |mem|
    decreases |log|
  {
    if log == [] then mem
    else
      var k := |log| - 2;
      assert log[k].Val? && log[k + 1].Val?;
      Undo(log[..k], mem[log[k].v := log[k + 1].v])
  }

  predicate Saves(log: seq<Slot>, idx: int) {
    exists i :: 0 <= i < |log| && i % 2 == 0 && log[i] == Val(idx)
  }

  /** A stack with its base pointer: saved states and logs, down to an empty base. */
  predicate ValidStack(st: seq<Slot>, bp: nat, n: nat)
    decreases |st|
  {
    && bp <= |st| && IsLog(st[bp..], n)
    && (bp == 0 ||
        (&& 3 <= bp && st[bp - 3].Val? && st[bp - 2].Val? && st[bp - 1].Base?
         && ValidStack(st[..bp - 3], st[bp - 1].bp, n)))
  }

  /** The saved states that a stack represents, each with the memory at the time it was saved. */
  function Frames(st: seq<Slot>, bp: nat, mem: seq<int>): seq<Frame>
    requires ValidStack(st, bp, |mem|)
    decreases |st|
  {
    if bp == 0 then []
    else
      var snapshot := Undo(st[bp..], mem);
      Frames(st[..bp - 3], st[bp - 1].bp, snapshot) +
      [Frame(st[bp - 3].v, st[bp - 2].v, st[bp - 1].kind, snapshot)]
  }

  lemma LogAppend(a: seq<Slot>, b: seq<Slot>, n: nat)
    requires IsLog(a, n) && IsLog(b, n)
    ensures IsLog(a + b, n)
  {
  }

  lemma LogPrefix(b: seq<Slot>, k: nat, n: nat)
    requires IsLog(b, n) && |b| >= 2 && k == |b| - 2
    ensures IsLog(b[..k], n) && b[k].Val? && b[k + 1].Val? && 0 <= b[k].v < n
  {
  }

  lemma {:induction false} UndoAppend(a: seq<Slot>, b: seq<Slot>, mem: seq<int>)
    requires IsLog(a, |mem|) && IsLog(b, |mem|)
    ensures IsLog(a + b, |mem|) && Undo(a + b, mem) == Undo(a, Undo(b, mem))
    decreases |b|
  {
    if b == [] {
      assert a + b == a;
    } else {
      var k := |b| - 2;
      LogAppend(a, b, |mem|);
      LogPrefix(b, k, |mem|);
      hide IsLog;
      assert (a + b)[..|a| + k] == a + b[..k];
      assert (a + b)[|a| + k] == b[k] && (a + b)[|a| + k + 1] == b[k + 1];
      UndoAppend(a, b[..k], mem[b[k].v := b[k + 1].v]);
    }
  }

  /** Recording the old value of a slot before overwriting it leaves the undone memory as it was. */
  lemma {:induction false} UndoSaved(log: seq<Slot>, mem: seq<int>, idx: nat, v: int)
    requires IsLog(log, |mem|) && idx < |mem|
    ensures var log1 := log + [Val(idx), Val(mem[idx])];
            IsLog(log1, |mem|) && Undo(log1, mem[idx := v]) == Undo(log, mem)
  {
    var log1 := log + [Val(idx), Val(mem[idx])];
    assert log1[..|log|] == log;
    assert mem[idx := v][idx := mem[idx]] == mem;
  }

  /** A slot already recorded in the log may be overwritten without recording it again. */
  lemma {:induction false} UndoIgnores(log: seq<Slot>, mem: seq<int>, idx: nat, v: int)
    requires IsLog(log, |mem|) && idx < |mem| && Saves(log, idx)
    ensures Undo(log, mem[idx := v]) == Undo(log, mem)
    decreases |log|
  {
    var k := |log| - 2;
    var i, w := log[k].v, log[k + 1].v;
    if i == idx {
      assert mem[idx := v][i := w] == mem[i := w];
    } else {
      assert mem[idx := v][i := w] == mem[i := w][idx := v];
      var j :| 0 <= j < |log| && j % 2 == 0 && log[j] == Val(idx);
      assert j < k && log[..k][j] == Val(idx);
      UndoIgnores(log[..k], mem[i := w], idx, v);
    }
  }

  /** The saved states depend on the memory only through what the top log restores. */
  lemma {:induction false} SameFrames(st: seq<Slot>, log: seq<Slot>, bp: nat, mem: seq<int>, mem1: seq<int>)
    requires ValidStack(st, bp, |mem|) && |mem1| == |mem| && IsLog(log, |mem|)
    requires bp == 0 || Undo(log, mem1) == Undo(st[bp..], mem)
    ensures ValidStack(st[..bp] + log, bp, |mem1|) && Frames(st[..bp] + log, bp, mem1) == Frames(st, bp, mem)
  {
    var st1 := st[..bp] + log;
    assert st1[bp..] == log;
    if bp != 0 {
      assert st1[..bp - 3] == st[..bp - 3];
    }
  }

  /** Recording a slot and overwriting it keeps every saved state. */
  lemma {:induction false} RecordFrames(st: seq<Slot>, bp: nat, mem: seq<int>, idx: nat, v: int)
    requires ValidStack(st, bp, |mem|) && idx < |mem|
    ensures var st1, mem1 := st + [Val(idx), Val(mem[idx])], mem[idx := v];
            ValidStack(st1, bp, |mem1|) && Frames(st1, bp, mem1) == Frames(st, bp, mem)
  {
    var log := st[bp..] + [Val(idx), Val(mem[idx])];
    UndoSaved(st[bp..], mem, idx, v);
    hide Undo, Frames, IsLog;
    SameFrames(st, log, bp, mem, mem[idx := v]);
    assert st + [Val(idx), Val(mem[idx])] == st[..bp] + log;
  }

  /** Overwriting a slot that the top log already records keeps every saved state. */
  lemma {:induction false} OverwriteFrames(st: seq<Slot>, bp: nat, mem: seq<int>, idx: nat, v: int, i: nat)
    requires ValidStack(st, bp, |mem|) && idx < |mem| && bp <= i < |st| && (i - bp) % 2 == 0 && st[i] == Val(idx)
    ensures var mem1 := mem[idx := v]; ValidStack(st, bp, |mem1|) && Frames(st, bp, mem1) == Frames(st, bp, mem)
  {
    assert st[bp..][i - bp] == Val(idx);
    UndoIgnores(st[bp..], mem, idx, v);
    hide Undo, Frames, IsLog;
    SameFrames(st, st[bp..], bp, mem, mem[idx := v]);
    assert st == st[..bp] + st[bp..];
  }

  lemma PopWords(st: seq<Slot>, bp: nat, n: nat)
    requires ValidStack(st, bp, n) && bp != 0
    ensures 3 <= bp <= |st| && st[bp - 3].Val? && st[bp - 2].Val? && st[bp - 1].Base? && st[bp - 1].bp <= bp - 3
  {
  }

  lemma LogEven(st: seq<Slot>, bp: nat, n: nat)
    requires ValidStack(st, bp, n)
    ensures bp <= |st| && (|st| - bp) % 2 == 0
  {
  }

  /** Saving a state on top of the stack. */
  lemma {:induction false} PushFrame(st: seq<Slot>, bp: nat, mem: seq<int>, pc: int, pos: int, kind: FrameKind)
    requires ValidStack(st, bp, |mem|)
    ensures var st1 := st + [Val(pc), Val(pos), Base(bp, kind)];
            && ValidStack(st1, |st1|, |mem|)
            && Frames(st1, |st1|, mem) == Frames(st, bp, mem) + [Frame(pc, pos, kind, mem)]
  {
    var st1 := st + [Val(pc), Val(pos), Base(bp, kind)];
    assert st1[|st1|..] == [] && st1[..|st1| - 3] == st;
  }

  /** Popping the top saved state. */
  lemma {:induction false} PopFrame(st: seq<Slot>, bp: nat, mem: seq<int>)
    requires ValidStack(st, bp, |mem|) && bp != 0
    ensures var snapshot := Undo(st[bp..], mem);
            && ValidStack(st[..bp - 3], st[bp - 1].bp, |mem|)
            && Frames(st, bp, mem) != []
            && Top(Frames(st, bp, mem)) == Frame(st[bp - 3].v, st[bp - 2].v, st[bp - 1].kind, snapshot)
            && Pop(Frames(st, bp, mem)) == Frames(st[..bp - 3], st[bp - 1].bp, snapshot)
  {
  }

  // ---- a successful lookahead ----

  /** There is a lookahead state on the stack. */
  predicate HasLook(st: seq<Slot>, bp: nat, n: nat)
    requires ValidStack(st, bp, n)
    decreases |st|
  {
    bp != 0 && (st[bp - 1].kind == LookFrame || HasLook(st[..bp - 3], st[bp - 1].bp, n))
  }

  /** Height of the stack below the most recent lookahead state. */
  function LookBase(st: seq<Slot>, bp: nat, n: nat): (r: nat)
    requires ValidStack(st, bp, n) && HasLook(st, bp, n)
    ensures r + 3 <= bp
    decreases |st|
  {
    if st[bp - 1].kind == LookFrame then bp - 3 else LookBase(st[..bp - 3], st[bp - 1].bp, n)
  }

  /** The logs above the most recent lookahead state, without the states between them. */
  function LookLogs(st: seq<Slot>, bp: nat, n: nat): (r: seq<Slot>)
    requires ValidStack(st, bp, n) && HasLook(st, bp, n)
    ensures IsLog(r, n)
    decreases |st|
  {
    if st[bp - 1].kind == LookFrame then st[bp..]
    else
      var below := LookLogs(st[..bp - 3], st[bp - 1].bp, n);
      below + st[bp..]
  }

  /** The words of the most recent lookahead state. */
  lemma {:induction false} LookWords(st: seq<Slot>, bp: nat, n: nat)
    requires ValidStack(st, bp, n) && HasLook(st, bp, n)
    ensures var h := LookBase(st, bp, n);
            && h + 2 < |st| && st[h].Val? && st[h + 1].Val? && st[h + 2].Base? && st[h + 2].kind == LookFrame
            && st[h + 2].bp <= h
    decreases |st|
  {
    if st[bp - 1].kind != LookFrame {
      LookWords(st[..bp - 3], st[bp - 1].bp, n);
    }
  }

  /** Dropping the states saved inside a successful lookahead while keeping their logs keeps every
      older saved state: its memory is still restored in full. */
  lemma {:induction false} LookCompaction(st: seq<Slot>, bp: nat, mem: seq<int>)
    requires ValidStack(st, bp, |mem|) && HasLook(st, bp, |mem|)
    ensures var h := LookBase(st, bp, |mem|);
            var f := FindFrame(Frames(st, bp, mem), LookFrame);
            var st1 := st[..h] + LookLogs(st, bp, |mem|);
            && h + 2 < |st| && st[h].Val? && st[h + 1].Val? && st[h + 2].Base?
            && f != [] && Top(f).pc == st[h].v && Top(f).pos == st[h + 1].v
            && ValidStack(st1, st[h + 2].bp, |mem|)
            && Frames(st1, st[h + 2].bp, mem) == Pop(f)
    decreases |st|
  {
    var n := |mem|;
    PopFrame(st, bp, mem);
    LookWords(st, bp, n);
    if st[bp - 1].kind == LookFrame {
      hide Undo, IsLog, Frames, HasLook, ValidStack;
      KeepLog(st[..bp - 3], st[bp - 1].bp, st[bp..], mem);
    } else {
      BelowCompaction(st, bp, mem);
    }
  }

  lemma {:induction false} BelowCompaction(st: seq<Slot>, bp: nat, mem: seq<int>)
    requires ValidStack(st, bp, |mem|) && HasLook(st, bp, |mem|) && st[bp - 1].kind != LookFrame
    ensures var h := LookBase(st, bp, |mem|);
            var f := FindFrame(Frames(st, bp, mem), LookFrame);
            var st1 := st[..h] + LookLogs(st, bp, |mem|);
            && h + 2 < |st| && st[h].Val? && st[h + 1].Val? && st[h + 2].Base?
            && f != [] && Top(f).pc == st[h].v && Top(f).pos == st[h + 1].v
            && ValidStack(st1, st[h + 2].bp, |mem|)
            && Frames(st1, st[h + 2].bp, mem) == Pop(f)
    decreases |st|, 0
  {
    hide *;
    LookUnfold(st, bp, |mem|);
    var below, bp1, logs := st[..bp - 3], st[bp - 1].bp, st[bp..];
    LookWords(st, bp, |mem|);
    PopFrame(st, bp, mem);
    FindPop(Frames(st, bp, mem), LookFrame);
    LookCompaction(below, bp1, Undo(logs, mem));
    var h := LookBase(below, bp1, |mem|);
    var lower := LookLogs(below, bp1, |mem|);
    KeepLog(below[..h] + lower, below[h + 2].bp, logs, mem);
    assert below[..h] + lower + logs == st[..h] + (lower + logs);
  }

  lemma {:induction false} LookUnfold(st: seq<Slot>, bp: nat, n: nat)
    requires ValidStack(st, bp, n) && HasLook(st, bp, n)
    ensures 3 <= bp <= |st| && st[bp - 1].Base? && IsLog(st[bp..], n) && ValidStack(st[..bp - 3], st[bp - 1].bp, n)
    ensures st[bp - 1].kind != LookFrame ==>
              && HasLook(st[..bp - 3], st[bp - 1].bp, n)
              && LookBase(st, bp, n) == LookBase(st[..bp - 3], st[bp - 1].bp, n)
              && LookLogs(st, bp, n) == LookLogs(st[..bp - 3], st[bp - 1].bp, n) + st[bp..]
  {
  }

  lemma FindPop(k: seq<Frame>, kind: FrameKind)
    requires k != [] && Top(k).kind != kind
    ensures FindFrame(k, kind) == FindFrame(Pop(k), kind)
  {
  }

  /** Appending a log and the memory it leads to. */
  lemma {:induction false} KeepLog(st: seq<Slot>, bp: nat, log: seq<Slot>, mem: seq<int>)
    requires IsLog(log, |mem|) && ValidStack(st, bp, |mem|)
    ensures ValidStack(st + log, bp, |mem|) && Frames(st + log, bp, mem) == Frames(st, bp, Undo(log, mem))
  {
    var st1 := st + log;
    assert st1[bp..] == st[bp..] + log;
    UndoAppend(st[bp..], log, mem);
    if bp != 0 {
      assert st1[..bp - 3] == st[..bp - 3];
    }
  }

  // ---- the links of the compaction ----

  /** From a saved state at `p` up to `top`: each state links to the end of the log above it, where the
      next state starts. */
  predicate Chain(buf: seq<Slot>, p: nat, top: nat)
    decreases top - p
  {
    p == top ||
    (p + 3 <= top <= |buf| && buf[p + 2].Link? && p + 3 <= buf[p + 2].next <= top && Chain(buf, buf[p + 2].next, top))
  }

  /** The logs between the linked states. */
  function Linked(buf: seq<Slot>, p: nat, top: nat): seq<Slot>
    requires Chain(buf, p, top)
    decreases top - p
  {
    if p == top then [] else buf[p + 3..buf[p + 2].next] + Linked(buf, buf[p + 2].next, top)
  }

  lemma SameWords(buf: seq<Slot>, buf1: seq<Slot>, p: nat, i: nat, j: nat)
    requires |buf| == |buf1| && p <= i <= j <= |buf| && buf[p..] == buf1[p..]
    ensures buf[i..j] == buf1[i..j] && buf[j..] == buf1[j..]
    ensures i < j ==> buf[i] == buf1[i]
  {
    forall k | p <= k < |buf| ensures buf[k] == buf1[k] {
      assert buf[k] == buf[p..][k - p] && buf1[k] == buf1[p..][k - p];
    }
  }

  /** The links and logs from `p` on do not depend on the words below. */
  lemma {:induction false} ChainFrom(buf: seq<Slot>, buf1: seq<Slot>, p: nat, top: nat)
    requires Chain(buf, p, top) && |buf| == |buf1| && p <= |buf| && buf[p..] == buf1[p..]
    ensures Chain(buf1, p, top) && Linked(buf1, p, top) == Linked(buf, p, top)
    decreases top - p
  {
    if p != top {
      var next := buf[p + 2].next;
      assert buf1[p + 2] == buf[p + 2] && buf[p + 3..next] == buf1[p + 3..next] && buf[next..] == buf1[next..] by {
        SameWords(buf, buf1, p, p + 2, p + 3);
        SameWords(buf, buf1, p, p + 3, next);
      }
      ChainFrom(buf, buf1, next, top);
    }
  }

  /** Linking one more state below the chain. */
  lemma {:induction false} ChainPrepend(buf: seq<Slot>, p: nat, next: nat, top: nat)
    requires Chain(buf, next, top) && p + 3 <= next <= top <= |buf|
    ensures var buf1 := buf[p + 2 := Link(next)];
            Chain(buf1, p, top) && Linked(buf1, p, top) == buf[p + 3..next] + Linked(buf, next, top)
  {
    var buf1 := buf[p + 2 := Link(next)];
    assert buf1[next..] == buf[next..];
    ChainFrom(buf, buf1, next, top);
    assert buf1[p + 3..next] == buf[p + 3..next];
  }

  /** A lookahead frame among the saved states comes from a lookahead state on the stack. */
  lemma {:induction false} FoundLook(st: seq<Slot>, bp: nat, mem: seq<int>)
    requires ValidStack(st, bp, |mem|) && FindFrame(Frames(st, bp, mem), LookFrame) != []
    ensures HasLook(st, bp, |mem|)
    decreases |st|
  {
    if bp != 0 {
      PopFrame(st, bp, mem);
      if st[bp - 1].kind != LookFrame {
        FindPop(Frames(st, bp, mem), LookFrame);
        FoundLook(st[..bp - 3], st[bp - 1].bp, Undo(st[bp..], mem));
      }
    }
  }

  lemma {:induction false} StackAtBase(st: seq<Slot>, st1: seq<Slot>, bp: nat, n: nat)
    requires ValidStack(st, bp, n) && st1 == st[..bp]
    ensures ValidStack(st1, bp, n)
  {
    assert st1[bp..] == [];
    if bp != 0 {
      assert st1[..bp - 3] == st[..bp - 3];
    }
  }

  /** One turn of the loop that copies the logs down. */
  lemma {:induction false} CopyStep(buf: seq<Slot>, sp: nat, sp1: nat, next: nat, top: nat, rest: seq<Slot>,
      all: seq<Slot>)
    requires sp < sp1 < next <= top <= |buf| && Chain(buf, next, top) && Linked(buf, next, top) == rest
    requires buf[..sp] + (buf[sp1..next] + rest) == all
    ensures var buf1 := buf[sp := buf[sp1]];
            && Chain(buf1, next, top) && Linked(buf1, next, top) == rest
            && buf1[..sp + 1] + (buf1[sp1 + 1..next] + rest) == all
  {
    hide Chain, Linked;
    var buf1 := buf[sp := buf[sp1]];
    assert buf1[next..] == buf[next..];
    ChainFrom(buf, buf1, next, top);
    assert buf1[..sp + 1] == buf[..sp] + [buf[sp1]];
    assert buf[sp1..next] == [buf[sp1]] + buf[sp1 + 1..next];
    assert buf1[sp1 + 1..next] == buf[sp1 + 1..next];
    var tail := buf[sp1 + 1..next];
    assert buf[..sp] + (([buf[sp1]] + tail) + rest) == (buf[..sp] + [buf[sp1]]) + (tail + rest);
  }

  /** The next linked log of the chain. */
  lemma {:induction false} CopyNext(buf: seq<Slot>, sp: nat, sp1: nat, top: nat, all: seq<Slot>)
    requires sp <= sp1 < top <= |buf| && Chain(buf, sp1, top) && buf[..sp] + Linked(buf, sp1, top) == all
    ensures buf[sp1 + 2].Link?
    ensures var next := buf[sp1 + 2].next;
            && sp1 + 3 <= next <= top && Chain(buf, next, top)
            && buf[..sp] + (buf[sp1 + 3..next] + Linked(buf, next, top)) == all
  {
  }

  /** What the walk down to the lookahead state has established at height `sp`. */
  ghost predicate Walked(st: seq<Slot>, bp0: nat, n: nat, buf: seq<Slot>, sp: nat, bp: nat, top: nat) {
    && sp <= top == |st| <= |buf| && buf[..sp] == st[..sp]
    && ValidStack(st, bp0, n) && HasLook(st, bp0, n) && ValidStack(st[..sp], bp, n) && HasLook(st[..sp], bp, n)
    && LookBase(st[..sp], bp, n) == LookBase(st, bp0, n)
    && Chain(buf, sp, top) && LookLogs(st, bp0, n) == LookLogs(st[..sp], bp, n) + Linked(buf, sp, top)
  }

  lemma {:induction false} WalkStart(st: seq<Slot>, bp0: nat, n: nat, buf: seq<Slot>)
    requires ValidStack(st, bp0, n) && HasLook(st, bp0, n) && st <= buf
    ensures Walked(st, bp0, n, buf, |st|, bp0, |st|)
  {
    hide ValidStack, HasLook;
    assert st[..|st|] == st && buf[..|st|] == st;
  }

  /** One turn of the walk: the top state gets the link to the end of the log above it. */
  lemma {:induction false} WalkStep(st: seq<Slot>, bp0: nat, n: nat, buf: seq<Slot>, sp: nat, bp: nat, top: nat)
    requires Walked(st, bp0, n, buf, sp, bp, top)
    ensures 3 <= bp <= sp && buf[bp - 3].Val? && buf[bp - 2].Val? && buf[bp - 1].Base?
    ensures var buf1 := buf[bp - 1 := Link(sp)];
            if buf[bp - 1].kind == LookFrame then
              && bp - 3 == LookBase(st, bp0, n) && buf1[..bp - 3] == st[..bp - 3]
              && Chain(buf1, bp - 3, top) && Linked(buf1, bp - 3, top) == LookLogs(st, bp0, n)
            else Walked(st, bp0, n, buf1, bp - 3, buf[bp - 1].bp, top)
  {
    var st1 := st[..sp];
    StackWords(st1, bp, n);
    LookUnfold(st1, bp, n);
    assert forall i :: 0 <= i < sp ==> buf[..sp][i] == st[..sp][i];
    WalkLogs(st, bp0, n, buf, sp, bp, top);
  }

  lemma StackWords(st: seq<Slot>, bp: nat, n: nat)
    requires ValidStack(st, bp, n) && HasLook(st, bp, n)
    ensures 3 <= bp <= |st| && st[bp - 3].Val? && st[bp - 2].Val? && st[bp - 1].Base?
  {
  }

  lemma {:induction false} WalkLogs(st: seq<Slot>, bp0: nat, n: nat, buf: seq<Slot>, sp: nat, bp: nat, top: nat)
    requires Walked(st, bp0, n, buf, sp, bp, top) && 3 <= bp <= sp && buf[bp - 1].Base? && buf[bp - 1] == st[bp - 1]
    ensures var buf1 := buf[bp - 1 := Link(sp)];
            if buf[bp - 1].kind == LookFrame then
              && bp - 3 == LookBase(st, bp0, n) && buf1[..bp - 3] == st[..bp - 3]
              && Chain(buf1, bp - 3, top) && Linked(buf1, bp - 3, top) == LookLogs(st, bp0, n)
            else Walked(st, bp0, n, buf1, bp - 3, buf[bp - 1].bp, top)
  {
    hide ValidStack, HasLook, LookLogs, LookBase, Chain, Linked, IsLog;
    var st1, buf1, h := st[..sp], buf[bp - 1 := Link(sp)], bp - 3;
    LookUnfold(st1, bp, n);
    LookTop(st1, bp, n);
    ChainPrepend(buf, h, sp, top);
    assert st1[..h] == st[..h] && st1[bp..] == st[bp..sp];
    assert buf1[..h] == buf[..sp][..h] == st[..h];
    var log, links := buf[bp..sp], Linked(buf, sp, top);
    assert log == buf[..sp][bp..] == st1[bp..];
    if buf[bp - 1].kind != LookFrame {
      var lower := LookLogs(st1[..h], st1[bp - 1].bp, n);
      assert (lower + log) + links == lower + (log + links);
    }
  }

  lemma LookTop(st: seq<Slot>, bp: nat, n: nat)
    requires ValidStack(st, bp, n) && HasLook(st, bp, n)
    ensures st[bp - 1].kind == LookFrame ==> LookBase(st, bp, n) == bp - 3 && LookLogs(st, bp, n) == st[bp..]
  {
  }

  lemma NothingLinked(buf: seq<Slot>, top: nat)
    requires Chain(buf, top, top)
    ensures Linked(buf, top, top) == []
  {
  }

  lemma EmptyStack(st: seq<Slot>, mem: seq<int>)
    requires ValidStack(st, 0, |mem|)
    ensures ValidStack([], 0, |mem|) && Frames([], 0, mem) == Frames(st, 0, mem)
  {
  }
}
