/** Compiled expressions run on a subject: `lre_exec` on the bytes that `lre_compile` produced finds
    the match that ECMA-262 prescribes for the pattern. */
module RegexEngine {
  import opened RegexSyntax
  import opened Ecma
  import opened Bytecode
  import opened SnapshotMachine
  import opened ByteType
  import opened Encoding
  import opened Registers
  import opened Agreement
  import opened RegexProgram
  import opened Executor
  import opened CodeGenerator
  import opened RawMatchFacts

  const HEADER_CAPTURE_COUNT: nat := 2
  const HEADER_REGISTER_COUNT: nat := 3

  /** The captures hold the result that the standard prescribes. */
  ghost predicate Reports(matched: bool, capture: seq<int>, groups: nat, r: Option<(int, MatchState)>) {
    match r
    case None => !matched
    case Some((start, y)) =>
      && matched && |capture| >= 2 * groups > 0 && |y.captures| == groups
      && capture[0] == start && capture[1] == y.end
      && forall k: nat :: 0 < k < groups ==> Strong(capture, y.captures, k)
  }

  /** A pattern that has been compiled. */
  ghost predicate Compiled(bytes: seq<Byte>, n: Node, sticky: bool, flags: nat) {
    && bytes == Image(n, sticky, flags) && AllEncodable(Program(n, sticky))
    && Groups(n) <= CAPTURE_COUNT_MAX && RegCount(n, 1, false) <= REGISTER_COUNT_MAX
  }

  /** `lre_exec`. */
  method LreExec(bytes: seq<Byte>, capture: array<int>, subject: Subject, index: int,
                 ghost n: Node, ghost sticky: bool, ghost flags: nat) returns (matched: bool)
    requires Compiled(bytes, n, sticky, flags) && capture.Length == 2 * Groups(n) + RegCount(n, 1, false)
    requires WellFormed(n, Groups(n)) && ValidSubject(subject) && 0 <= index <= |subject.input|
    requires CountersSuffice(n, 1, false, |subject.input| - index, |subject.input|)
    modifies capture
    ensures Reports(matched, capture[..], Groups(n), Search(subject, n, sticky, index))
  {
    hide *;
    ImageFields(bytes, n, sticky, flags);
    var groups := bytes[HEADER_CAPTURE_COUNT] as nat;
    var i := 0;
    while i < 2 * groups
      invariant 0 <= i <= 2 * groups && forall k :: 0 <= k < i ==> capture[k] == UNSET
    {
      capture[i] := UNSET;
      i := i + 1;
    }
    ghost var m := MachineFor(n, sticky, subject);
    MachineIs(n, sticky, subject);
    Clear(m, capture[..], index);
    ghost var final := ProgramDecides(n, sticky, subject, index, capture[..]);
    var exec := new Exec(Program(n, sticky), bytes[HEADER_LEN..], subject, capture, groups, index,
      RegCount(n, 1, false));
    ghost var steps := Halts(m, exec.Abs(), final);
    StartOk(m, index, capture[..]);
    matched := exec.Backtracking(steps, final);
    OutcomeReports(m, final, Search(subject, n, sticky, index), matched, exec.pos, capture[..]);
  }

  lemma ImageFields(bytes: seq<Byte>, n: Node, sticky: bool, flags: nat)
    requires Compiled(bytes, n, sticky, flags)
    ensures HEADER_CAPTURE_COUNT < |bytes| && HEADER_LEN <= |bytes| && bytes[HEADER_CAPTURE_COUNT] == Groups(n)
    ensures bytes[HEADER_LEN..] == EncodeAll(Program(n, sticky)) && AllEncodable(Program(n, sticky))
    ensures RegistersFit(Program(n, sticky), RegCount(n, 1, false))
  {
    hide *;
    ProgramAllocates(n, sticky);
    AllocationFits(ProgramAround(Code(n, 1, false, -1), sticky), 0, 0);
    ImageCode(bytes, n, sticky, flags);
  }

  lemma ImageCode(bytes: seq<Byte>, n: Node, sticky: bool, flags: nat)
    requires Compiled(bytes, n, sticky, flags)
    ensures HEADER_CAPTURE_COUNT < |bytes| && HEADER_LEN <= |bytes| && bytes[HEADER_CAPTURE_COUNT] == Groups(n)
    ensures bytes[HEADER_LEN..] == EncodeAll(Program(n, sticky)) && AllEncodable(Program(n, sticky))
  {
    hide EncodeAll, Program, RegCount, AllEncodable, Len;
  }

  lemma MachineIs(n: Node, sticky: bool, subject: Subject)
    ensures MachineFor(n, sticky, subject) == Machine(Program(n, sticky), subject, Groups(n), RegCount(n, 1, false))
  {
    hide Program;
  }

  lemma Clear(m: Machine, mem: seq<int>, index: int)
    requires 0 <= index <= |m.subject.input|
    requires |mem| == 2 * m.groups + m.regs && forall k :: 0 <= k < 2 * m.groups ==> mem[k] == UNSET
    ensures InitialMemory(m, mem) && InText(m.subject, index)
  {
  }

  lemma Halts(m: Machine, s: State, t: State) returns (n: nat)
    requires Decides(m, s, t)
    ensures StepN(m, s, n) == t && (t.Matched? || t.NoMatch?)
  {
    n :| StepN(m, s, n) == t;
  }

  lemma StartOk(m: Machine, index: int, mem: seq<int>)
    requires InitialMemory(m, mem) && 0 <= index <= |m.subject.input|
    ensures StateOk(m, Run(0, index, mem, []))
  {
  }

  lemma OutcomeReports(m: Machine, t: State, r: Option<(int, MatchState)>, matched: bool, pos: int, mem: seq<int>)
    requires Outcome(m, t, r) && if matched then t == Matched(pos, mem) else t == NoMatch
    ensures Reports(matched, mem, m.groups, r)
  {
  }

  /** Compile, then execute. */
  method CompileAndExec(n: Node, sticky: bool, flags: nat, subject: Subject, index: int)
      returns (r: Result, matched: bool, capture: array<int>)
    requires Emittable(n) && flags < 0x1_0000
    requires WellFormed(n, Groups(n)) && ValidSubject(subject) && 0 <= index <= |subject.input|
    requires CountersSuffice(n, 1, false, |subject.input| - index, |subject.input|)
    ensures r.Ok? ==> Reports(matched, capture[..], Groups(n), Search(subject, n, sticky, index))
    ensures r.Ok? ==> Groups(n) <= CAPTURE_COUNT_MAX && RegCount(n, 1, false) <= REGISTER_COUNT_MAX && SetsFit(n)
    ensures r == Err(TooManyCaptures) ==> Groups(n) > CAPTURE_COUNT_MAX
    ensures r == Err(TooManyRanges) ==> !SetsFit(n)
    ensures r == Err(TooManyRegisters) ==> RegCount(n, 1, false) > REGISTER_COUNT_MAX
    ensures r == Err(OutOfMemory) ==> Room(n) + 24 > MAX_SIZE
  {
    hide *;
    var c := new Compiler();
    r := c.Compile(n, sticky, flags);
    matched, capture := false, new int[0];
    if r.Ok? {
      CompiledIs(c.code, n, sticky, flags);
      ImageCounts(c.code, n, sticky, flags);
      capture := new int[2 * (c.code[HEADER_CAPTURE_COUNT] as nat) + c.code[HEADER_REGISTER_COUNT] as nat];
      matched := LreExec(c.code, capture, subject, index, n, sticky, flags);
    }
  }

  lemma CompiledIs(bytes: seq<Byte>, n: Node, sticky: bool, flags: nat)
    requires bytes == Image(n, sticky, flags) && AllEncodable(Program(n, sticky))
    requires Groups(n) <= CAPTURE_COUNT_MAX && RegCount(n, 1, false) <= REGISTER_COUNT_MAX
    ensures Compiled(bytes, n, sticky, flags)
  {
  }

  lemma ImageCounts(bytes: seq<Byte>, n: Node, sticky: bool, flags: nat)
    requires Compiled(bytes, n, sticky, flags)
    ensures HEADER_CAPTURE_COUNT < HEADER_REGISTER_COUNT < |bytes|
    ensures bytes[HEADER_CAPTURE_COUNT] == Groups(n) && bytes[HEADER_REGISTER_COUNT] == RegCount(n, 1, false)
  {
    hide EncodeAll, Program, RegCount;
  }
}
