/** The code generator of `re_parse_term`, `re_parse_alternative`, `re_parse_disjunction` and `lre_compile`:
    one growing buffer of bytes, with instructions inserted before code already emitted, forward jumps
    patched once their target is known, and the terms of a look-behind moved into reverse order. What is
    left in the buffer is the encoding of the code templates. */
module CodeGenerator {
  import opened RegexSyntax
  import opened Bytecode
  import opened ByteType
  import opened Encoding
  import opened Registers

  /** Largest buffer (`lre_bytecode_realloc`). */
  const MAX_SIZE: nat := 0x3fffffff
  const CAPTURE_COUNT_MAX: nat := 255
  const REGISTER_COUNT_MAX: nat := 255
  const HEADER_LEN: nat := 8

  datatype Error = TooManyCaptures | TooManyRanges | TooManyRegisters | OutOfMemory
  datatype Result = Ok | Err(error: Error)

  /** What the parser guarantees of the leaves: code points, canonical sets, captures that fit a byte. */
  predicate Emittable(n: Node) {
    match n
    case Char(Literal(c, _)) => c < 0x1_0000_0000
    case Char(InSet(points, _)) => IsPointList(points)
    case Seq(l, r) => Emittable(l) && Emittable(r)
    case Alt(l, r) => Emittable(l) && Emittable(r)
    case Quant(b, min, max, _) => min <= max <= INFINITE && Emittable(b)
    case Group(b) => Emittable(b)
    case Look(_, _, b) => Emittable(b)
    case BackRef(gs, _) => |gs| < 256 && forall i :: 0 <= i < |gs| ==> gs[i] < 256
    case _ => true
  }

  /** Every set has few enough intervals for the 16-bit count. */
  predicate SetsFit(n: Node) {
    match n
    case Char(InSet(points, _)) => |points| / 2 < 65535
    case Seq(l, r) => SetsFit(l) && SetsFit(r)
    case Alt(l, r) => SetsFit(l) && SetsFit(r)
    case Quant(b, _, _, _) => SetsFit(b)
    case Group(b) => SetsFit(b)
    case Look(_, _, b) => SetsFit(b)
    case _ => true
  }

  /** Room that the code of a pattern may need while it is emitted. */
  function Room(n: Node): nat {
    match n
    case Empty => 0
    case Char(t) => TestSize(Emitted(t)) + 2
    case Assert(_) => 1
    case BackRef(gs, _) => 2 + |gs|
    case Seq(l, r) => Room(l) + 2 * Room(r)
    case Alt(l, r) => 10 + Room(l) + Room(r)
    case Quant(b, _, _, _) => 29 + Room(b)
    case Group(b) => 4 + Room(b)
    case Look(_, _, b) => 6 + Room(b)
  }

  lemma EncodeOne(i: Instr)
    ensures EncodeAll([i]) == Encode(i)
  {
    assert EncodeAll([i][1..]) == [];
  }

  /** The bytes of two adjacent blocks, after a fixed prefix. */
  lemma EncodeAfter(pre: seq<Byte>, a: seq<Instr>, b: seq<Instr>)
    ensures pre + EncodeAll(a) + EncodeAll(b) == pre + EncodeAll(a + b)
  {
    hide EncodeAll;
    EncodeAllAppend(a, b);
  }

  /** `re_need_check_adv_and_capture_init`: one pass over emitted bytes. */
  method Scan(bytes: seq<Byte>, ghost code: seq<Instr>) returns (check: bool, init: bool)
    requires bytes == EncodeAll(code) && AllEncodable(code)
    ensures check == NeedsAdvanceCheck(code) && init == NeedsCaptureInit(code)
  {
    hide Decode, Encode, Encodable, Size;
    check, init := true, false;
    var pos := 0;
    ghost var rest := code;
    while pos < |bytes|
      decreases |bytes| - pos
      invariant pos <= |bytes| && bytes[pos..] == EncodeAll(rest) && AllEncodable(rest)
      invariant NeedsAdvanceCheck(code) == (check && NeedsAdvanceCheck(rest))
      invariant NeedsCaptureInit(code) == (init || NeedsCaptureInit(rest))
    {
      ScanHead(rest);
      var i := Decode(bytes[pos..]).value;
      match EffectOf(i) {
        case Moves => check := false;
        case Neutral =>
        case ReadsCaptures => init := true;
        case Unpredictable => init := true; return;
      }
      assert bytes[pos + Size(i)..] == bytes[pos..][Size(i)..];
      pos := pos + Size(i);
      rest := rest[1..];
    }
    ScanEnd(rest);
  }

  lemma ScanHead(rest: seq<Instr>)
    requires EncodeAll(rest) != [] && AllEncodable(rest)
    ensures rest != [] && Decode(EncodeAll(rest)) == Some(rest[0]) && Size(rest[0]) <= |EncodeAll(rest)|
    ensures EncodeAll(rest) == Encode(rest[0]) + EncodeAll(rest[1..])
    ensures Size(rest[0]) > 0 && EncodeAll(rest)[Size(rest[0])..] == EncodeAll(rest[1..]) && AllEncodable(rest[1..])
  {
    hide Decode, Encode, Encodable, Size;
    DecodeEncode(rest[0], EncodeAll(rest[1..]));
    EncodeSize(rest[0]);
  }

  lemma ScanEnd(rest: seq<Instr>)
    requires EncodeAll(rest) == []
    ensures rest == []
  {
    EncodeAllSize(rest);
  }

  lemma StoreOne(was: seq<Byte>, code: seq<Byte>, at: nat, k: nat, bytes: seq<Byte>)
    requires at + |bytes| <= |was| && k < |bytes| && code == was[..at] + bytes[..k] + was[at + k..]
    ensures |code| == |was| && code[at + k := bytes[k]] == was[..at] + bytes[..k + 1] + was[at + k + 1..]
  {
    var c1 := code[at + k := bytes[k]];
    var c2 := was[..at] + bytes[..k + 1] + was[at + k + 1..];
    assert |c1| == |c2|;
    forall i | 0 <= i < |c1| ensures c1[i] == c2[i] {
      if i < at {
      } else if i < at + k {
      } else if i == at + k {
      } else {
        assert was[at + k..][i - (at + k)] == was[i] == was[at + k + 1..][i - (at + k + 1)];
      }
    }
  }

  class Compiler {
    /** `byte_code`. */
    var code: seq<Byte>
    /** `capture_count`. */
    var captures: nat

    constructor ()
      ensures code == [] && captures == 1
    {
      code, captures := [], 1;
    }

    /** `dbuf_put`. */
    method Put(bytes: seq<Byte>) returns (ok: bool)
      modifies this`code
      ensures ok ==> code == old(code) + bytes && |code| <= MAX_SIZE
      ensures !ok ==> |old(code)| + |bytes| > MAX_SIZE
    {
      ok := |code| + |bytes| <= MAX_SIZE;
      if ok {
        code := code + bytes;
      }
    }

    /** `dbuf_insert`, then the stores into the gap. */
    method Insert(at: nat, bytes: seq<Byte>) returns (ok: bool)
      requires at <= |code|
      modifies this`code
      ensures ok ==> code == old(code)[..at] + bytes + old(code)[at..] && |code| <= MAX_SIZE
      ensures !ok ==> |old(code)| + |bytes| > MAX_SIZE
    {
      ok := |code| + |bytes| <= MAX_SIZE;
      if ok {
        code := code[..at] + seq(|bytes|, i => 0) + code[at..];
        Store(at, bytes);
      }
    }

    /** Overwrite bytes in place, from the lowest on. */
    method Store(at: nat, bytes: seq<Byte>)
      requires at + |bytes| <= |code|
      modifies this`code
      ensures code == old(code)[..at] + bytes + old(code)[at + |bytes|..]
    {
      var k := 0;
      while k < |bytes|
        invariant k <= |bytes| && code == old(code)[..at] + bytes[..k] + old(code)[at + k..]
      {
        StoreOne(old(code), code, at, k, bytes);
        code := code[at + k := bytes[k]];
        k := k + 1;
      }
    }

    /** Append instructions. */
    method PutInstrs(more: seq<Instr>, ghost pre: seq<Byte>, ghost c: seq<Instr>) returns (ok: bool)
      requires code == pre + EncodeAll(c)
      modifies this`code
      ensures ok ==> code == pre + EncodeAll(c + more) && |code| == |old(code)| + Len(more) <= MAX_SIZE
      ensures !ok ==> |old(code)| + Len(more) > MAX_SIZE
    {
      EncodeAllSize(more);
      EncodeAfter(pre, c, more);
      ok := Put(EncodeAll(more));
    }

    /** Insert instructions before the block `c`, which is the end of the buffer. */
    method InsertInstrs(at: nat, more: seq<Instr>, ghost pre: seq<Byte>, ghost x: seq<Instr>, ghost c: seq<Instr>)
        returns (ok: bool)
      requires code == pre + EncodeAll(x + c) && at == |pre| + Len(x)
      modifies this`code
      ensures ok ==> code == pre + EncodeAll(x + more + c) && |code| == |old(code)| + Len(more) <= MAX_SIZE
      ensures !ok ==> |old(code)| + Len(more) > MAX_SIZE
    {
      EncodeAllSize(more);
      EncodeAllSize(x);
      EncodeAfter(pre, x, c);
      EncodeAfter(pre, x, more);
      EncodeAfter(pre, x + more, c);
      ok := Insert(at, EncodeAll(more));
    }

    /** Fill in the offset of a jump emitted earlier. */
    method PatchJump(at: nat, offset: int, ghost pre: seq<Byte>, ghost x: seq<Instr>, ghost i: Instr, ghost j: Instr,
        ghost y: seq<Instr>)
      requires code == pre + EncodeAll(x + [i] + y) && at == |pre| + Len(x) + 1
      requires Size(i) == 5 && Encode(j) == [Encode(i)[0]] + Le32(Unsigned(offset))
      modifies this`code
      ensures code == pre + EncodeAll(x + [j] + y) && |code| == |old(code)|
    {
      hide Encode, EncodeAll;
      EncodeSize(i);
      EncodeAllSize(x);
      Around(pre, x, i, y);
      Around(pre, x, j, y);
      ghost var p, q := pre + EncodeAll(x) + [Encode(i)[0]], EncodeAll(y);
      assert code == p + Encode(i)[1..] + q;
      Store(at, Le32(Unsigned(offset)));
      assert code == p + Le32(Unsigned(offset)) + q;
    }

    /** What emitting the pattern `n` promises. */
    static ghost predicate Emits(r: Result, before: seq<Byte>, lo: nat, after: seq<Byte>, count: nat, n: Node,
        back: bool) {
      match r
      case Ok =>
        && Appended(before, after, n, lo, back) && |after| <= |before| + Room(n)
        && count == lo + GroupCount(n) <= CAPTURE_COUNT_MAX && SetsFit(n)
      case Err(TooManyCaptures) => lo + GroupCount(n) > CAPTURE_COUNT_MAX
      case Err(TooManyRanges) => !SetsFit(n)
      case Err(TooManyRegisters) => false
      case Err(OutOfMemory) => |before| + Room(n) > MAX_SIZE
    }

    /** The bytes appended are the code of the pattern. */
    static ghost predicate Appended(before: seq<Byte>, after: seq<Byte>, n: Node, lo: nat, back: bool) {
      var c := Code(n, lo, back, -1);
      after == before + EncodeAll(c) && AllEncodable(c) && |after| <= MAX_SIZE
    }

    /** `lre_compile`, from the parsed pattern on. */
    method Compile(n: Node, sticky: bool, flags: nat) returns (r: Result)
      requires Emittable(n) && flags < 0x1_0000
      modifies this
      ensures r.Ok? ==> code == Image(n, sticky, flags) && AllEncodable(Program(n, sticky))
      ensures r.Ok? ==> Groups(n) <= CAPTURE_COUNT_MAX && RegCount(n, 1, false) <= REGISTER_COUNT_MAX && SetsFit(n)
      ensures r == Err(TooManyCaptures) ==> Groups(n) > CAPTURE_COUNT_MAX
      ensures r == Err(TooManyRanges) ==> !SetsFit(n)
      ensures r == Err(TooManyRegisters) ==> RegCount(n, 1, false) > REGISTER_COUNT_MAX
      ensures r == Err(OutOfMemory) ==> Room(n) + 24 > MAX_SIZE
    {
      hide EncodeAll, Code, Allocate, AllEncodable, Encode, RegCount, Le16, Le32, Image, ProgramAround, SetsFit, Room;
      captures := 1;
      code := Le16(flags) + [0, 0] + Le32(0);
      ghost var head := code;
      r := EmitProgram(n, sticky);
      if r.Err? {
        return;
      }
      ghost var c := ProgramAround(Code(n, 1, false, -1), sticky);
      ProgramAllocates(n, sticky);
      var count := ComputeRegisters(head, c);
      if count < 0 {
        return Err(TooManyRegisters);
      }
      FillHeader(head[..2], count, EncodeAll(Program(n, sticky)));
      ImageParts(n, sticky, flags);
    }

    /** Complete the header once the numbers are known. */
    method FillHeader(ghost start: seq<Byte>, count: nat, ghost body: seq<Byte>)
      requires |code| >= HEADER_LEN && |start| == 2 && code[..2] == start && code[HEADER_LEN..] == body
      requires captures <= CAPTURE_COUNT_MAX && count <= REGISTER_COUNT_MAX
      modifies this`code
      ensures code == start + [captures, count] + Le32(|body|) + body
    {
      hide Le32;
      code := code[2 := captures][3 := count];
      Store(4, Le32(|code| - HEADER_LEN));
      assert code[..4] == start + [captures, count];
    }

    /** The program before register allocation, after the header. */
    method EmitProgram(n: Node, sticky: bool) returns (r: Result)
      requires Emittable(n) && captures == 1 && |code| == HEADER_LEN
      modifies this
      ensures r.Ok? ==> captures == Groups(n) <= CAPTURE_COUNT_MAX && SetsFit(n) && |code| <= MAX_SIZE
      ensures r.Ok? ==>
          var c := ProgramAround(Code(n, 1, false, -1), sticky); code == old(code) + EncodeAll(c) && AllEncodable(c)
      ensures r == Err(TooManyCaptures) ==> Groups(n) > CAPTURE_COUNT_MAX
      ensures r == Err(TooManyRanges) ==> !SetsFit(n)
      ensures r != Err(TooManyRegisters)
      ensures r == Err(OutOfMemory) ==> Room(n) + 24 > MAX_SIZE
    {
      hide EncodeAll, Code, AllEncodable, Encode, Len;
      ghost var head := code;
      NoCode(head);
      ProgramParts(sticky);
      var x := Prologue(sticky) + [Save(false, 0)];
      assert [] + x == x;
      var ok := PutInstrs(x, head, []);
      if !ok {
        return Err(OutOfMemory);
      }
      r := Emit(n, false);
      if r.Err? {
        return;
      }
      ghost var a := Code(n, 1, false, -1);
      EncodeAfter(head, x, a);
      ok := PutInstrs([Save(true, 0)], head, x + a);
      if !ok {
        return Err(OutOfMemory);
      }
      ok := PutInstrs([Match], head, x + a + [Save(true, 0)]);
      if !ok {
        return Err(OutOfMemory);
      }
      AllEncodableAppend(x, a);
        AllEncodableAppend(x + a, [Save(true, 0)]); AllEncodableAppend(x + a + [Save(true, 0)], [Match]);
    }

    /** `compute_register_count`: fill in the register operands in place. */
    method ComputeRegisters(ghost head: seq<Byte>, ghost c: seq<Instr>) returns (count: int)
      requires code == head + EncodeAll(c) && |head| == HEADER_LEN && AllEncodable(c) && Allocate(c, 0, 0).sound
      modifies this`code
      ensures var all := Allocate(c, 0, 0);
              if count < 0 then all.top > REGISTER_COUNT_MAX
              else
                && count == all.top <= REGISTER_COUNT_MAX
                && code == head + EncodeAll(all.code) && AllEncodable(all.code)
    {
      hide EncodeAll, Allocate, AllEncodable, Encode, Encodable, Decode, Size, Pushes, WithRegister, Allocated;
      var pos, size, top := HEADER_LEN, 0, 0;
      ghost var done, rest := [], c;
      RemainingStart(c);
      NothingEncodable();
      NoCode(head);
      while pos < |code|
        invariant 0 <= size <= top <= REGISTER_COUNT_MAX
        invariant HEADER_LEN <= pos <= |code| && head + EncodeAll(done) == code[..pos] && code[pos..] == EncodeAll(rest)
        invariant AllEncodable(done) && AllEncodable(rest) && Remaining(c, done, rest, size, top)
        decreases |rest|
      {
        ScanHead(rest);
        var i := Decode(code[pos..]).value;
        RemainingHead(c, done, rest, size, top);
        HeadEncodable(rest);
        ghost var before, j := code[..pos], Allocated(i, size);
        var p := Pushes(i);
        PatchRegister(code, pos, i, rest, size);
        if p > 0 {
          code := code[pos + 1 := size];
          size := size + 1;
          if size > top {
            if size > REGISTER_COUNT_MAX {
              return -1;
            }
            top := size;
          }
        } else if p < 0 {
          // nothing is popped that was not pushed
          assert size + p >= 0;
          size := size + p;
          code := code[pos + 1 := size];
        }
        EncodeOne(j);
        EncodeAfter(head, done, [j]);
        EncodableOne(j);
        AllEncodableAppend(done, [j]);
        pos := pos + Size(i);
        done, rest := done + [j], rest[1..];
      }
      ScanEnd(rest);
      RemainingEnd(c, done, size, top);
      return top;
    }

    /** What is left to allocate continues what is done. */
    static ghost predicate Remaining(c: seq<Instr>, done: seq<Instr>, rest: seq<Instr>, size: int, top: int) {
      var r := Allocate(rest, size, top);
      Allocate(c, 0, 0) == Allocation(done + r.code, r.size, r.top, r.sound)
    }

    /** Emit the code of a pattern at the end of the buffer. */
    method Emit(n: Node, back: bool) returns (r: Result)
      requires Emittable(n) && 0 < captures <= CAPTURE_COUNT_MAX && |code| <= MAX_SIZE
      modifies this
      ensures Emits(r, old(code), old(captures), code, captures, n, back)
      decreases n
    {
      hide Emits;
      match n
      case Seq(left, right) => r := EmitSeq(n, back);
      case Alt(first, second) => r := EmitAlt(n, back);
      case Quant(body, min, max, greedy) => r := EmitQuant(n, back);
      case Group(body) => r := EmitGroup(n, back);
      case Look(negative, behind, body) => r := EmitLook(n, back);
      case _ => r := EmitLeaf(n, back);
    }

    method EmitLeaf(n: Node, back: bool) returns (r: Result)
      requires Emittable(n) && (n.Empty? || n.Char? || n.Assert? || n.BackRef?)
      requires 0 < captures <= CAPTURE_COUNT_MAX && |code| <= MAX_SIZE
      modifies this
      ensures Emits(r, old(code), old(captures), code, captures, n, back)
    {
      hide EncodeAll, Encodable, Code;
      if n.Char? && n.test.InSet? && |n.test.points| / 2 >= 65535 {
        return Err(TooManyRanges);
      }
      LeafEncodable(n, captures, back);
      EncodeAllSize(Code(n, captures, back, -1));
      var ok := Put(EncodeAll(Code(n, captures, back, -1)));
      r := if ok then Ok else Err(OutOfMemory);
    }

    method EmitSeq(n: Node, back: bool) returns (r: Result)
      requires n.Seq? && Emittable(n) && 0 < captures <= CAPTURE_COUNT_MAX && |code| <= MAX_SIZE
      modifies this
      ensures Emits(r, old(code), old(captures), code, captures, n, back)
      decreases n, 0
    {
      hide EncodeAll, AllEncodable, Code;
      var start := |code|;
      r := Emit(n.left, back);
      if r.Err? {
        return;
      }
      var termStart := |code|;
      r := Emit(n.right, back);
      if r.Err? {
        return;
      }
      ghost var lo := old(captures);
      ghost var a, b := Code(n.left, lo, back, -1), Code(n.right, lo + GroupCount(n.left), back, -1);
      if back {
        // reverse the order of the terms
        var end := |code|;
        var termSize := end - termStart;
        if end + termSize > MAX_SIZE {
          return Err(OutOfMemory);
        }
        Rotated(old(code), EncodeAll(a), EncodeAll(b));
        Rotate(start, end, termSize);
      }
      SeqEmitted(old(code), code, n, lo, back);
    }

    /** Move the last `size` bytes to `start`: copy everything up by `size` into claimed space, then
        copy the term, which lies above `end` now, down. */
    method Rotate(start: nat, end: nat, size: nat)
      requires start + size <= end == |code|
      modifies this`code
      ensures code == old(code)[..start] + old(code)[end - size..] + old(code)[start..end - size]
    {
      var claimed := code[..start + size] + code[start..end];
      RotateIs(code, claimed, start, end, size);
      claimed := claimed[..start] + claimed[end..end + size] + claimed[start + size..];
      code := claimed[..end];
    }

    static lemma RotateIs(s: seq<Byte>, claimed: seq<Byte>, start: nat, end: nat, size: nat)
      requires start + size <= end == |s| && claimed == s[..start + size] + s[start..end]
      ensures var t := claimed[..start] + claimed[end..end + size] + claimed[start + size..];
              |t| >= end && t[..end] == s[..start] + s[end - size..] + s[start..end - size]
    {
      var t := claimed[..start] + claimed[end..end + size] + claimed[start + size..];
      var r := s[..start] + s[end - size..] + s[start..end - size];
      assert claimed[start + size..] == s[start..end];
      forall k | 0 <= k < end ensures t[k] == r[k] {
        if start <= k < start + size {
          assert t[k] == claimed[end + k - start] && r[k] == s[end - size + k - start];
        } else if start + size <= k {
          assert t[k] == s[start..end][k - start - size];
        }
      }
      assert t[..end] == r;
    }

    /** A split before the first alternative, and a jump behind it that is patched later. */
    method AltFrame(start: nat, ghost pre: seq<Byte>, ghost a: seq<Instr>) returns (ok: bool)
      requires code == pre + EncodeAll(a) && start == |pre|
      modifies this`code
      ensures ok ==>
          code == pre + EncodeAll([] + [Split(false, Len(a) + 5)] + a + [Goto(0)])
          && |code| == |old(code)| + 10 <= MAX_SIZE
      ensures !ok ==> |old(code)| + 10 > MAX_SIZE
    {
      hide EncodeAll, AllEncodable, Encode, Len, Unsigned, Le32, Encodable;
      EncodeAllSize(a);
      var split := Split(false, |code| - start + 5);
      assert [] + a == a;
      LenOne(split);
      LenOne(Goto(0));
      ok := InsertInstrs(start, [split], pre, [], a);
      if ok {
        ok := PutInstrs([Goto(0)], pre, [] + [split] + a);
      }
    }

    method EmitAlt(n: Node, back: bool) returns (r: Result)
      requires n.Alt? && Emittable(n) && 0 < captures <= CAPTURE_COUNT_MAX && |code| <= MAX_SIZE
      modifies this
      ensures Emits(r, old(code), old(captures), code, captures, n, back)
      decreases n, 0
    {
      hide EncodeAll, AllEncodable, Code, Encode, Len, Unsigned, Le32, Encodable, Emittable, GroupCount, Room, SetsFit;
      LenNil();
      AltParts(n);
      var start := |code|;
      r := Emit(n.first, back);
      if r.Err? {
        return;
      }
      ghost var pre, lo := old(code), old(captures);
      ghost var a, b := Code(n.first, lo, back, -1), Code(n.second, lo + GroupCount(n.first), back, -1);
      var ok := AltFrame(start, pre, a);
      if !ok {
        return Err(OutOfMemory);
      }
      ghost var x := [] + [Split(false, Len(a) + 5)] + a;
      var pos := |code| - 4;
      r := Emit(n.second, back);
      if r.Err? {
        return;
      }
      EncodeAfter(pre, x + [Goto(0)], b);
      SizeAfter(pre, x, Goto(0), b);
      // patch the goto
      JumpBytes(|code| - (pos + 4));
      PatchJump(pos, |code| - (pos + 4), pre, x, Goto(0), Goto(|code| - (pos + 4)), b);
      AltEmitted(pre, code, n, lo, back);
    }

    method EmitGroup(n: Node, back: bool) returns (r: Result)
      requires n.Group? && Emittable(n) && 0 < captures <= CAPTURE_COUNT_MAX && |code| <= MAX_SIZE
      modifies this
      ensures Emits(r, old(code), old(captures), code, captures, n, back)
      decreases n, 0
    {
      hide EncodeAll, AllEncodable, Code, Encode;
      if captures >= CAPTURE_COUNT_MAX {
        return Err(TooManyCaptures);
      }
      var index := captures;
      captures := captures + 1;
      ghost var pre, a := code, Code(n.body, index + 1, back, -1);
      NoCode(pre);
      LenOne(Save(back, index)); LenOne(Save(!back, index));
      var ok := PutInstrs([Save(back, index)], pre, []);
      if !ok {
        return Err(OutOfMemory);
      }
      r := Emit(n.body, back);
      if r.Err? {
        return;
      }
      EncodeAfter(pre, [] + [Save(back, index)], a);
      ok := PutInstrs([Save(!back, index)], pre, [] + [Save(back, index)] + a);
      if !ok {
        return Err(OutOfMemory);
      }
      GroupShape(n, index, back, -1);
      assert [] + [Save(back, index)] == [Save(back, index)];
      BracketEncodable(Save(back, index), a, Save(!back, index));
    }

    method EmitLook(n: Node, back: bool) returns (r: Result)
      requires n.Look? && Emittable(n) && 0 < captures <= CAPTURE_COUNT_MAX && |code| <= MAX_SIZE
      modifies this
      ensures Emits(r, old(code), old(captures), code, captures, n, back)
      decreases n, 0
    {
      hide EncodeAll, AllEncodable, Code, Encode, Len, Unsigned, Le32;
      LenNil();
      ghost var pre, a := code, Code(n.body, captures, n.behind, -1);
      ghost var i := LookStart(n.negative, 0);
      NoCode(pre);
      LenOne(i); LenOne(LookMatch(n.negative));
      var ok := PutInstrs([LookStart(n.negative, 0)], pre, []);
      if !ok {
        return Err(OutOfMemory);
      }
      var pos := |code| - 4;
      r := Emit(n.body, n.behind);
      if r.Err? {
        return;
      }
      EncodeAfter(pre, [] + [i], a);
      ok := PutInstrs([LookMatch(n.negative)], pre, [] + [i] + a);
      if !ok {
        return Err(OutOfMemory);
      }
      // jump behind the match once the assertion has succeeded
      LookBytes(n.negative, |code| - (pos + 4));
      ghost var j, y := LookStart(n.negative, |code| - (pos + 4)), a + [LookMatch(n.negative)];
      assert [] + [i] + a + [LookMatch(n.negative)] == [] + [i] + y;
      SizeAfter(pre, [], i, []);
      SizeAfter(pre, [], i, y);
      PatchJump(pos, |code| - (pos + 4), pre, [], i, j, y);
      LenAppend(a, [LookMatch(n.negative)]);
      LookShape(n, old(captures), back, -1);
      assert [] + [j] + y == [j] + a + [LookMatch(n.negative)];
      BracketEncodable(j, a, LookMatch(n.negative));
    }

    /** Emit a quantified pattern: the body first, then the template around it. */
    method EmitQuant(n: Node, back: bool) returns (r: Result)
      requires n.Quant? && Emittable(n) && 0 < captures <= CAPTURE_COUNT_MAX && |code| <= MAX_SIZE
      modifies this
      ensures Emits(r, old(code), old(captures), code, captures, n, back)
      decreases n, 0
    {
      hide EncodeAll, AllEncodable, Code, Encode, QuantCode, NeedsAdvanceCheck, NeedsCaptureInit;
      var atomStart, firstCapture := |code|, captures;
      ghost var pre := code;
      r := Emit(n.body, back);
      if r.Err? {
        return;
      }
      ghost var a := Code(n.body, firstCapture, back, -1);
      var check, init := Scan(code[atomStart..], a);
      var reset := ResetCode(firstCapture, captures - firstCapture);
      var body := If(init, reset);
      assert [] + a == a;
      ResetSize(init, firstCapture, captures - firstCapture);
      var ok := InsertInstrs(atomStart, body, pre, [], a);
      if !ok {
        return Err(OutOfMemory);
      }
      assert [] + body + a == body + a;
      if n.min == 0 {
        r := EmitFromZero(pre, atomStart, a, init, check, firstCapture, n.max, n.greedy);
      } else {
        r := EmitFromOne(pre, atomStart, a, init, check, firstCapture, n.min, n.max, n.greedy);
      }
      QuantShape(n, firstCapture, back, -1);
    }

    /** Templates with min = 0. */
    method EmitFromZero(ghost pre: seq<Byte>, start: nat, ghost a: seq<Instr>, init: bool, check: bool, lo: nat,
        max: nat, greedy: bool)
      returns (r: Result)
      requires 0 < lo <= captures <= CAPTURE_COUNT_MAX && max <= INFINITE && AllEncodable(a)
      requires Framed(pre, start, code, If(init, ResetCode(lo, captures - lo)) + a)
      modifies this`code
      ensures r.Ok? ==>
          Wrapped(pre, code, QuantCode(a, init, check, lo, captures - lo, 0, max, greedy, -1))
          && |code| <= |old(code)| + 26
      ensures r.Err? ==> r.error == OutOfMemory && |old(code)| + 26 > MAX_SIZE
    {
      hide EncodeAll, AllEncodable, Encode, Len, Size, Decode;
      LenNil();
      var len := |code| - start;
      ghost var g := captures - lo;
      ghost var body := If(init, ResetCode(lo, g)) + a;
      BodySize(pre, body);
      // the captures are unset when the atom is not executed
      var x := If(!init, ResetCode(lo, captures - lo));
      assert [] + body == body;
      ResetSize(!init, lo, g);
      var ok := InsertInstrs(start, x, pre, [], body);
      if !ok {
        return Err(OutOfMemory);
      }
      assert [] + x + body == x + body;
      var atomStart := if !init && captures != lo then start + 3 else start;
      if max == 0 {
        EncodeAllSize(x);
        EncodeAfter(pre, x, body);
        ResetEncodable(!init, lo, g);
        code := code[..atomStart];
        return Ok;
      }
      if max == 1 || max == INFINITE {
        r := EmitSplit(pre, atomStart, x, a, init, check, lo, max, greedy);
      } else {
        r := EmitRange(pre, atomStart, x, a, init, check, lo, max, greedy);
      }
    }

    /** The templates of `?` and `*`, after the reset `x`. */
    method EmitSplit(ghost pre: seq<Byte>, start: nat, ghost x: seq<Instr>, ghost a: seq<Instr>, init: bool,
        check: bool, lo: nat, max: nat, greedy: bool)
      returns (r: Result)
      requires 0 < lo <= captures <= CAPTURE_COUNT_MAX && (max == 1 || max == INFINITE) && AllEncodable(a)
      requires x == If(!init, ResetCode(lo, captures - lo)) && start == |pre| + Len(x)
      requires code == pre + EncodeAll(x + (If(init, ResetCode(lo, captures - lo)) + a)) && |code| <= MAX_SIZE
      modifies this`code
      ensures r.Ok? ==>
          Wrapped(pre, code, QuantCode(a, init, check, lo, captures - lo, 0, max, greedy, -1))
          && |code| <= |old(code)| + 23
      ensures r.Err? ==> r.error == OutOfMemory && |old(code)| + 23 > MAX_SIZE
    {
      hide EncodeAll, AllEncodable, Encode, Len, Size, Decode;
      ghost var body := If(init, ResetCode(lo, captures - lo)) + a;
      BodySize(pre, x + body);
      LenAppend(x, body);
      var len := |code| - start;
      var loop := max == INFINITE;
      var y := [Split(!greedy, len + 5 * B(loop) + 4 * B(check))] + If(check, [SetCharPos(0)]);
      SplitSizes(y[0], check);
      var ok := InsertInstrs(start, y, pre, x, body);
      if !ok {
        return Err(OutOfMemory);
      }
      ok := PutInstrs(If(check, [CheckAdvance(0)]), pre, x + y + body);
      if !ok {
        return Err(OutOfMemory);
      }
      var z := if loop then [Goto(start - (|code| + 5))] else [];
      GotoSize(z);
      ok := PutInstrs(z, pre, x + y + body + If(check, [CheckAdvance(0)]));
      if !ok {
        return Err(OutOfMemory);
      }
      SplitTemplate(pre, x, a, init, check, lo, captures - lo, max, greedy);
      return Ok;
    }

    /** The template of `{0,max}`, after the reset `x`. */
    method EmitRange(ghost pre: seq<Byte>, start: nat, ghost x: seq<Instr>, ghost a: seq<Instr>, init: bool,
        check: bool, lo: nat, max: nat, greedy: bool)
      returns (r: Result)
      requires 0 < lo <= captures <= CAPTURE_COUNT_MAX && 1 < max < INFINITE && AllEncodable(a)
      requires x == If(!init, ResetCode(lo, captures - lo)) && start == |pre| + Len(x)
      requires code == pre + EncodeAll(x + (If(init, ResetCode(lo, captures - lo)) + a)) && |code| <= MAX_SIZE
      modifies this`code
      ensures r.Ok? ==>
          Wrapped(pre, code, QuantCode(a, init, check, lo, captures - lo, 0, max, greedy, -1))
          && |code| <= |old(code)| + 23
      ensures r.Err? ==> r.error == OutOfMemory && |old(code)| + 23 > MAX_SIZE
    {
      hide EncodeAll, AllEncodable, Encode, Len, Size, Decode;
      ghost var body := If(init, ResetCode(lo, captures - lo)) + a;
      BodySize(pre, x + body);
      LenAppend(x, body);
      var len := |code| - start;
      var y := [Split(!greedy, 6 + 2 * B(check) + len + 10), SetI32(0, max)] + If(check, [SetCharPos(0)]);
      RangeSizes(len, check, max, greedy);
      var ok := InsertInstrs(start, y, pre, x, body);
      if !ok {
        return Err(OutOfMemory);
      }
      var last := LoopSplit(greedy, check, 0, max, start + 11 - (|code| + 10));
      LastSize(last);
      ok := PutInstrs([last], pre, x + y + body);
      if !ok {
        return Err(OutOfMemory);
      }
      RangeTemplate(pre, x, a, init, check, lo, captures - lo, max, greedy);
      return Ok;
    }

    /** Templates with min > 0. */
    method EmitFromOne(ghost pre: seq<Byte>, start: nat, ghost a: seq<Instr>, init: bool, check: bool, lo: nat,
        min: nat, max: nat, greedy: bool)
      returns (r: Result)
      requires 0 < lo <= captures <= CAPTURE_COUNT_MAX && 0 < min <= max <= INFINITE && AllEncodable(a)
      requires Framed(pre, start, code, If(init, ResetCode(lo, captures - lo)) + a)
      modifies this`code
      ensures r.Ok? ==>
          Wrapped(pre, code, QuantCode(a, init, check, lo, captures - lo, min, max, greedy, -1))
          && |code| <= |old(code)| + 23
      ensures r.Err? ==> r.error == OutOfMemory && |old(code)| + 23 > MAX_SIZE
    {
      hide *;
      ghost var g := captures - lo;
      ghost var body := If(init, ResetCode(lo, g)) + a;
      FramedSize(pre, start, code, body);
      ResetEncodable(init, lo, g);
      AllEncodableAppend(If(init, ResetCode(lo, g)), a);
      if min == 1 && max == INFINITE && !check {
        var split := Split(greedy, start - (|code| + 5));
        LastSize(split);
        var ok := PutInstrs([split], pre, body);
        if !ok {
          return Err(OutOfMemory);
        }
        PlusTemplate(a, init, lo, g, greedy);
        WrappedIs(pre, code, body + [split]);
        return Ok;
      }
      r := EmitCounted(pre, start, body, check && min != max, min, max, greedy);
      CountedTemplate(a, init, check, lo, g, min, max, greedy);
    }

    /** The templates that count, around `body`. */
    method EmitCounted(ghost pre: seq<Byte>, start: nat, ghost body: seq<Instr>, checks: bool, min: nat, max: nat,
        greedy: bool)
      returns (r: Result)
      requires 0 < min <= max <= INFINITE && AllEncodable(body) && (checks ==> min != max)
      requires Framed(pre, start, code, body)
      modifies this`code
      ensures r.Ok? ==> Wrapped(pre, code, CountedCode(body, checks, min, max, greedy)) && |code| <= |old(code)| + 18
      ensures r.Err? ==> r.error == OutOfMemory && |old(code)| + 18 > MAX_SIZE
    {
      hide *;
      FramedSize(pre, start, code, body);
      var y := [SetI32(0, max)] + If(checks, [SetCharPos(0)]);
      LenNil();
      assert [] + body == body;
      CountedStart(max, checks);
      OneOrNone(checks);
      var ok := InsertInstrs(start, y, pre, [], body);
      if !ok {
        return Err(OutOfMemory);
      }
      assert [] + y + body == y + body;
      var atomStart := start + 6;
      CountedSize(pre, max, checks, body);
      var last := if min == max then Loop(0, atomStart - (|code| + 6))
                  else LoopSplit(greedy, checks, 0, max - min, atomStart - (|code| + 10));
      LastSize(last);
      ok := PutInstrs([last], pre, y + body);
      if !ok {
        return Err(OutOfMemory);
      }
      CountedLast(body, checks, min, max, greedy);
      WrappedIs(pre, code, y + body + [last]);
      return Ok;
    }

    /** The buffer is `pre`, up to `start`, and the bytes of `c`. */
    static ghost predicate Framed(pre: seq<Byte>, start: nat, bytes: seq<Byte>, c: seq<Instr>) {
      bytes == pre + EncodeAll(c) && start == |pre| && |bytes| <= MAX_SIZE
    }

    static ghost predicate Wrapped(pre: seq<Byte>, bytes: seq<Byte>, c: seq<Instr>) {
      bytes == pre + EncodeAll(c) && AllEncodable(c) && |bytes| <= MAX_SIZE
    }
  }

  /** The compiled form: flags, number of captures, number of registers, length, code. */
  function Image(n: Node, sticky: bool, flags: nat): seq<Byte> {
    Le16(flags) + [ToByte(Groups(n)), ToByte(RegCount(n, 1, false))] + Le32(Len(Program(n, sticky)))
      + EncodeAll(Program(n, sticky))
  }

  lemma ImageParts(n: Node, sticky: bool, flags: nat)
    requires Groups(n) < 256 && RegCount(n, 1, false) < 256
    ensures var p := EncodeAll(Program(n, sticky));
            Image(n, sticky, flags) == Le16(flags) + [Groups(n), RegCount(n, 1, false)] + Le32(|p|) + p
  {
    hide EncodeAll, Program, Le32, Le16, RegCount;
    EncodeAllSize(Program(n, sticky));
  }

  lemma NothingEncodable()
    ensures AllEncodable([])
  {
  }

  lemma HeadEncodable(rest: seq<Instr>)
    requires rest != [] && AllEncodable(rest)
    ensures Encodable(rest[0])
  {
  }

  lemma RemainingStart(c: seq<Instr>)
    ensures Compiler.Remaining(c, [], c, 0, 0)
  {
    assert [] + Allocate(c, 0, 0).code == Allocate(c, 0, 0).code;
  }

  lemma RemainingEnd(c: seq<Instr>, done: seq<Instr>, size: int, top: int)
    requires Compiler.Remaining(c, done, [], size, top)
    ensures Allocate(c, 0, 0).code == done && Allocate(c, 0, 0).top == top
  {
    assert done + [] == done;
  }

  /** One step of the pass. */
  lemma {:induction false} RemainingHead(c: seq<Instr>, done: seq<Instr>, rest: seq<Instr>, size: int, top: int)
    requires Compiler.Remaining(c, done, rest, size, top) && rest != [] && Allocate(c, 0, 0).sound && 0 <= size <= top
    ensures var i := rest[0];
            var size1 := size + Pushes(i);
            && size1 >= 0 && Compiler.Remaining(c, done + [Allocated(i, size)], rest[1..], size1, Highest(top, size1))
            && size1 <= Allocate(c, 0, 0).top
  {
    hide Pushes, Allocated;
    var i := rest[0];
    var size1 := size + Pushes(i);
    var r := Allocate(rest[1..], size1, Highest(top, size1));
    assert done + ([Allocated(i, size)] + r.code) == done + [Allocated(i, size)] + r.code;
    AllocationFits(rest[1..], size1, Highest(top, size1));
  }

  /** Writing the byte after the opcode sets the register. */
  lemma {:induction false} RegisterByte(i: Instr, size: int)
    requires Encodable(i) && 0 <= size < 256 && size + Pushes(i) >= 0
    ensures var reg := if Pushes(i) > 0 then size else size + Pushes(i);
            var j := Allocated(i, size);
            && Encodable(j) && Size(j) == Size(i) == |Encode(i)| == |Encode(j)| > 0 && Pushes(i) <= 1
            && (Pushes(i) == 0 ==> j == i)
            && (Pushes(i) != 0 ==> |Encode(i)| >= 2 && Encode(i)[1 := reg] == Encode(j))
  {
    EncodeSize(i);
    EncodeSize(Allocated(i, size));
  }

  /** Writing the register of the instruction at `pos` leaves the rest of the buffer as it is. */
  lemma {:induction false} PatchRegister(code: seq<Byte>, pos: nat, i: Instr, rest: seq<Instr>, size: int)
    requires pos <= |code| && rest != [] && i == rest[0] && code[pos..] == EncodeAll(rest)
    requires Encodable(i) && 0 <= size < 256 && size + Pushes(i) >= 0
    ensures var j := Allocated(i, size);
            var reg := if Pushes(i) > 0 then size else size + Pushes(i);
            && Encodable(j) && pos + Size(i) <= |code| && Size(i) > 0 && Pushes(i) <= 1
            && (Pushes(i) != 0 ==> pos + 1 < |code|)
            && var code1 := if Pushes(i) == 0 then code else code[pos + 1 := reg];
            code1[..pos + Size(i)] == code[..pos] + Encode(j) && code1[pos + Size(i)..] == EncodeAll(rest[1..])
  {
    hide Encode, Encodable, Size, Pushes, Allocated;
    RegisterByte(i, size);
    var reg := if Pushes(i) > 0 then size else size + Pushes(i);
    var code1 := if Pushes(i) == 0 then code else code[pos + 1 := reg];
    var before, tail := code[..pos], EncodeAll(rest[1..]);
    assert code == before + (Encode(i) + tail);
    if Pushes(i) != 0 {
      assert code1 == before + (Encode(i)[1 := reg] + tail);
    }
    assert code1 == before + Encode(Allocated(i, size)) + tail;
  }

  lemma {:induction false} ProgramParts(sticky: bool)
    ensures AllEncodable(Prologue(sticky) + [Save(false, 0)]) && Len(Prologue(sticky) + [Save(false, 0)]) <= 13
    ensures AllEncodable([Save(true, 0)]) && AllEncodable([Match]) && Len([Save(true, 0)]) == 2 && Len([Match]) == 1
  {
    LenOne(Save(true, 0)); LenOne(Match); LenOne(Save(false, 0));
    LenAppend(Prologue(sticky), [Save(false, 0)]);
    if !sticky {
      var a, b, c := Split(true, 6), Test(Any), Goto(-11);
      assert Prologue(sticky) == [a] + ([b] + [c]);
      LenAppend([a], [b] + [c]); LenAppend([b], [c]);
      LenOne(a); LenOne(b); LenOne(c);
    }
  }

  /** Register allocation turns the emitted program into the one with registers at depth 0. */
  lemma {:induction false} ProgramAllocates(n: Node, sticky: bool)
    ensures var all := Allocate(ProgramAround(Code(n, 1, false, -1), sticky), 0, 0);
            all.code == Program(n, sticky) && all.sound && all.top == RegCount(n, 1, false)
  {
    hide Allocates, Code, RegCount, Allocate;
    var a, r, x, y := Code(n, 1, false, -1), Code(n, 1, false, 0), Prologue(sticky) + [Save(false, 0)],
      [Save(true, 0)] + [Match];
    AllocatesCode(n, 1, false, 0);
    AllocatesAround(x, a, r, y, 0, RegCount(n, 1, false));
    assert x + a + y == ProgramAround(a, sticky) && x + r + y == ProgramAround(r, sticky);
    AllocatesMeans(ProgramAround(a, sticky), ProgramAround(r, sticky), RegCount(n, 1, false));
  }

  lemma AllocatesMeans(a: seq<Instr>, r: seq<Instr>, high: nat)
    requires Allocates(a, r, 0, high)
    ensures Allocate(a, 0, 0) == Allocation(r, 0, high, true)
  {
  }

  lemma Rotated(pre: seq<Byte>, x: seq<Byte>, y: seq<Byte>)
    ensures var s := pre + x + y; var mid := |s| - |y|;
            s[..|pre|] + s[mid..] + s[|pre|..mid] == pre + y + x
  {
    var s := pre + x + y;
    var mid := |s| - |y|;
    assert s[..|pre|] == pre && s[mid..] == y && s[|pre|..mid] == x;
  }

  lemma {:induction false} SeqEmitted(before: seq<Byte>, after: seq<Byte>, n: Node, lo: nat, back: bool)
    requires n.Seq? && |after| <= MAX_SIZE
    requires var a, b := Code(n.left, lo, back, -1), Code(n.right, lo + GroupCount(n.left), back, -1);
             && after == (if back then before + EncodeAll(b) + EncodeAll(a) else before + EncodeAll(a) + EncodeAll(b))
             && AllEncodable(a) && AllEncodable(b)
    ensures Compiler.Appended(before, after, n, lo, back)
  {
    hide Code, EncodeAll, AllEncodable;
    var a, b := Code(n.left, lo, back, -1), Code(n.right, lo + GroupCount(n.left), back, -1);
    SeqShape(n, lo, back, -1);
    EncodeAfter(before, a, b);
    EncodeAfter(before, b, a);
    AllEncodableAppend(a, b);
    AllEncodableAppend(b, a);
  }

  lemma NoCode(pre: seq<Byte>)
    ensures pre == pre + EncodeAll([])
  {
  }

  lemma Around(pre: seq<Byte>, x: seq<Instr>, i: Instr, y: seq<Instr>)
    ensures pre + EncodeAll(x + [i] + y) == pre + EncodeAll(x) + Encode(i) + EncodeAll(y)
  {
    hide Encode, EncodeAll;
    EncodeAllAppend(x + [i], y);
    EncodeAllAppend(x, [i]);
    EncodeOne(i);
  }

  lemma SizeAfter(pre: seq<Byte>, x: seq<Instr>, i: Instr, y: seq<Instr>)
    ensures |pre + EncodeAll(x + [i])| == |pre| + Len(x) + Size(i)
    ensures |pre + EncodeAll(x + [i] + y)| == |pre| + Len(x) + Size(i) + Len(y)
  {
    EncodeAllSize(x + [i] + y);
    EncodeAllSize(x + [i]);
    LenAppend(x + [i], y);
    LenAppend(x, [i]);
    assert Len([i]) == Size(i) by { assert [i][1..] == []; }
  }

  lemma JumpBytes(offset: int)
    ensures Encode(Goto(offset)) == [Encode(Goto(0))[0]] + Le32(Unsigned(offset)) && Size(Goto(0)) == 5
  {
  }

  lemma LookBytes(negative: bool, offset: int)
    ensures Encode(LookStart(negative, offset)) == [Encode(LookStart(negative, 0))[0]] + Le32(Unsigned(offset))
    ensures Size(LookStart(negative, 0)) == 5
  {
  }

  lemma EncodableOne(i: Instr)
    requires Encodable(i)
    ensures AllEncodable([i])
  {
  }

  lemma BracketEncodable(i: Instr, a: seq<Instr>, j: Instr)
    requires Encodable(i) && AllEncodable(a) && Encodable(j)
    ensures AllEncodable([i] + a + [j])
  {
    AllEncodableAppend([i] + a, [j]);
    AllEncodableAppend([i], a);
  }

  lemma BodySize(pre: seq<Byte>, body: seq<Instr>)
    ensures |pre + EncodeAll(body)| == |pre| + Len(body)
  {
    EncodeAllSize(body);
  }

  lemma ResetSize(b: bool, lo: nat, g: nat)
    ensures Len(If(b, ResetCode(lo, g))) == if b && g != 0 then 3 else 0
  {
    if g != 0 {
      assert Len([Reset(lo, lo + g - 1)]) == 3 by { assert [Reset(lo, lo + g - 1)][1..] == []; }
    }
  }

  lemma ResetEncodable(b: bool, lo: nat, g: nat)
    requires lo + g <= CAPTURE_COUNT_MAX
    ensures AllEncodable(If(b, ResetCode(lo, g)))
  {
  }

  lemma {:induction false} CountedSize(pre: seq<Byte>, max: nat, check: bool, body: seq<Instr>)
    ensures |pre + EncodeAll([SetI32(0, max)] + If(check, [SetCharPos(0)]) + body)| == |pre| + 6 + 2 * B(check)
        + Len(body)
  {
    hide EncodeAll;
    var y := If(check, [SetCharPos(0)]);
    EncodeAllSize([SetI32(0, max)] + y + body);
    LenAppend([SetI32(0, max)] + y, body);
    LenAppend([SetI32(0, max)], y);
    LenOne(SetI32(0, max));
    LenOne(SetCharPos(0));
  }

  /** The bytes of a framed block. */
  lemma FramedSize(pre: seq<Byte>, start: nat, bytes: seq<Byte>, body: seq<Instr>)
    requires Compiler.Framed(pre, start, bytes, body)
    ensures bytes == pre + EncodeAll(body) && start == |pre| && |bytes| == |pre| + Len(body) <= MAX_SIZE
  {
    hide EncodeAll, Len;
    EncodeAllSize(body);
  }

  lemma WrappedIs(pre: seq<Byte>, bytes: seq<Byte>, c: seq<Instr>)
    requires bytes == pre + EncodeAll(c) && AllEncodable(c) && |bytes| <= MAX_SIZE
    ensures Compiler.Wrapped(pre, bytes, c)
  {
  }

  lemma OneOrNone(b: bool)
    ensures B(b) == if b then 1 else 0
  {
  }

  /** The template of `+`. */
  lemma {:induction false} PlusTemplate(a: seq<Instr>, init: bool, lo: nat, g: nat, greedy: bool)
    requires lo + g <= CAPTURE_COUNT_MAX && Len(If(init, ResetCode(lo, g)) + a) <= MAX_SIZE
    requires AllEncodable(If(init, ResetCode(lo, g)) + a)
    ensures var body := If(init, ResetCode(lo, g)) + a;
            var c := body + [Split(greedy, 0 - (Len(body) + 5))];
            c == QuantCode(a, init, false, lo, g, 1, INFINITE, greedy, -1) && AllEncodable(c)
  {
    hide EncodeAll, AllEncodable, Len;
    var body := If(init, ResetCode(lo, g)) + a;
    EncodableOne(Split(greedy, 0 - (Len(body) + 5)));
    AllEncodableAppend(body, [Split(greedy, 0 - (Len(body) + 5))]);
  }

  function CountedCode(body: seq<Instr>, checks: bool, min: nat, max: nat, greedy: bool): seq<Instr>
    requires min <= max
  {
    [SetI32(0, max)] + If(checks, [SetCharPos(0)]) + body +
    [if min == max then Loop(0, 0 - (Len(body) + 6))
     else LoopSplit(greedy, checks, 0, max - min, 0 - (2 * B(checks) + Len(body) + 10))]
  }

  lemma {:induction false} CountedLast(body: seq<Instr>, checks: bool, min: nat, max: nat, greedy: bool)
    requires min <= max <= INFINITE && AllEncodable(body) && (checks ==> min != max) && Len(body) <= MAX_SIZE
    ensures var last := if min == max then Loop(0, 0 - (Len(body) + 6))
                        else LoopSplit(greedy, checks, 0, max - min, 0 - (2 * B(checks) + Len(body) + 10));
            CountedCode(body, checks, min, max, greedy) == [SetI32(0, max)] + If(checks, [SetCharPos(0)]) + body
              + [last]
    ensures AllEncodable(CountedCode(body, checks, min, max, greedy))
  {
    hide EncodeAll, AllEncodable, Len;
    var last := if min == max then Loop(0, 0 - (Len(body) + 6))
                  else LoopSplit(greedy, checks, 0, max - min, 0 - (2 * B(checks) + Len(body) + 10));
    LoopEncodable(max, checks, body, last);
  }

  /** The counting templates of `{n}`, `{n,m}` and `{n,}`. */
  lemma CountedTemplate(a: seq<Instr>, init: bool, check: bool, lo: nat, g: nat, min: nat, max: nat, greedy: bool)
    requires 0 < min <= max <= INFINITE && !(min == 1 && max == INFINITE && !check)
    ensures QuantCode(a, init, check, lo, g, min, max, greedy, -1)
         == CountedCode(If(init, ResetCode(lo, g)) + a, check && min != max, min, max, greedy)
  {
    hide Len;
    assert [SetI32(0, max)] + [] == [SetI32(0, max)];
  }

  lemma SplitSizes(split: Instr, check: bool)
    requires split.Split?
    ensures Len([split] + If(check, [SetCharPos(0)])) == 5 + 2 * B(check)
        && Len(If(check, [CheckAdvance(0)])) == 2 * B(check)
  {
    LenAppend([split], If(check, [SetCharPos(0)]));
    LenOne(split); LenOne(SetCharPos(0)); LenOne(CheckAdvance(0));
  }

  lemma GotoSize(z: seq<Instr>)
    requires z == [] || (|z| == 1 && z[0].Goto?)
    ensures Len(z) == 5 * |z|
  {
    if z != [] {
      LenOne(z[0]);
    }
  }

  lemma RangeSizes(len: int, check: bool, max: nat, greedy: bool)
    ensures Len([Split(!greedy, 6 + 2 * B(check) + len + 10), SetI32(0, max)] + If(check, [SetCharPos(0)])) == 11
        + 2 * B(check)
  {
    var i, j, u := Split(!greedy, 6 + 2 * B(check) + len + 10), SetI32(0, max), If(check, [SetCharPos(0)]);
    assert [i, j] == [i] + [j];
    LenAppend([i, j], u); LenAppend([i], [j]);
    LenOne(i); LenOne(j); LenOne(SetCharPos(0));
  }

  lemma CountedStart(max: nat, check: bool)
    ensures Len([SetI32(0, max)] + If(check, [SetCharPos(0)])) == 6 + 2 * B(check)
  {
    LenAppend([SetI32(0, max)], If(check, [SetCharPos(0)]));
    LenOne(SetI32(0, max)); LenOne(SetCharPos(0));
  }

  lemma LastSize(i: Instr)
    requires i.Split? || i.Loop? || i.LoopSplit?
    ensures Len([i]) == Size(i) <= 10
  {
    LenOne(i);
  }

  lemma LenNil()
    ensures Len([]) == 0
  {
  }

  lemma LenOne(i: Instr)
    ensures Len([i]) == Size(i) && Len([]) == 0
  {
    assert [i][1..] == [];
  }

  lemma LoopEncodable(max: nat, check: bool, body: seq<Instr>, last: Instr)
    requires max <= INFINITE && AllEncodable(body) && Encodable(last)
    ensures AllEncodable([SetI32(0, max)] + If(check, [SetCharPos(0)]) + body + [last])
  {
    var y := If(check, [SetCharPos(0)]);
    AllEncodableAppend([SetI32(0, max)] + y + body, [last]);
    AllEncodableAppend([SetI32(0, max)] + y, body);
  }

  /** The pieces of the templates of `?` and `*` in the buffer make up the template. */
  lemma {:induction false} SplitTemplate(pre: seq<Byte>, x: seq<Instr>, a: seq<Instr>, init: bool, check: bool, lo: nat,
      g: nat, max: nat, greedy: bool)
    requires max == 1 || max == INFINITE
    requires AllEncodable(a) && lo + g <= CAPTURE_COUNT_MAX && x == If(!init, ResetCode(lo, g))
    ensures var body := If(init, ResetCode(lo, g)) + a;
            var len, loop := Len(body), max == INFINITE;
            var y := [Split(!greedy, len + 5 * B(loop) + 4 * B(check))] + If(check, [SetCharPos(0)]);
            var c := x + y + body + If(check, [CheckAdvance(0)]);
            && |pre + EncodeAll(c)| == |pre| + Len(x) + 5 + 4 * B(check) + len
            && (|pre + EncodeAll(c)| <= MAX_SIZE ==>
                var t := c + if loop then [Goto(-(10 + len + 4 * B(check)))] else [];
                t == QuantCode(a, init, check, lo, g, 0, max, greedy, -1) && AllEncodable(t))
  {
    hide EncodeAll, AllEncodable, Len;
    var body := If(init, ResetCode(lo, g)) + a;
    var len, loop := Len(body), max == INFINITE;
    var split, u, v := Split(!greedy, len + 5 * B(loop) + 4 * B(check)), If(check, [SetCharPos(0)]),
      If(check, [CheckAdvance(0)]);
    var c := x + ([split] + u) + body + v;
    EncodeAllSize(c);
    LenAppend(x + ([split] + u) + body, v);
      LenAppend(x + ([split] + u), body); LenAppend(x, [split] + u); LenAppend([split], u);
    LenOne(split); LenOne(SetCharPos(0)); LenOne(CheckAdvance(0));
    if |pre + EncodeAll(c)| <= MAX_SIZE {
      var z := if loop then [Goto(-(10 + len + 4 * B(check)))] else [];
      assert x + ([split] + u) == x + [split] + u;
      assert c + [] == c;
      ResetEncodable(init, lo, g); ResetEncodable(!init, lo, g);
      SmallEncodable(split, u, v, z);
      AllEncodableAppend(If(init, ResetCode(lo, g)), a);
      AllEncodableAppend(x, [split] + u); AllEncodableAppend(x + ([split] + u), body);
      AllEncodableAppend(x + ([split] + u) + body, v); AllEncodableAppend(c, z);
    }
  }

  lemma SmallEncodable(split: Instr, u: seq<Instr>, v: seq<Instr>, z: seq<Instr>)
    requires Encodable(split)
    requires u == [] || u == [SetCharPos(0)]
    requires v == [] || v == [CheckAdvance(0)]
    requires |z| <= 1 && (|z| == 1 ==> Encodable(z[0]))
    ensures AllEncodable([split] + u) && AllEncodable(v) && AllEncodable(z)
  {
  }

  /** The pieces of the template of `{0,max}` in the buffer make up the template. */
  lemma {:induction false} RangeTemplate(pre: seq<Byte>, x: seq<Instr>, a: seq<Instr>, init: bool, check: bool, lo: nat,
      g: nat, max: nat, greedy: bool)
    requires 1 < max < INFINITE
    requires AllEncodable(a) && lo + g <= CAPTURE_COUNT_MAX && x == If(!init, ResetCode(lo, g))
    ensures var body := If(init, ResetCode(lo, g)) + a;
            var len := Len(body);
            var y := [Split(!greedy, 6 + 2 * B(check) + len + 10), SetI32(0, max)] + If(check, [SetCharPos(0)]);
            var c := x + y + body;
            && |pre + EncodeAll(c)| == |pre| + Len(x) + 11 + 2 * B(check) + len
            && (|pre + EncodeAll(c)| <= MAX_SIZE ==>
                var t := c + [LoopSplit(greedy, check, 0, max, -(2 * B(check) + len + 10))];
                t == QuantCode(a, init, check, lo, g, 0, max, greedy, -1) && AllEncodable(t))
  {
    hide EncodeAll, AllEncodable, Len;
    var body := If(init, ResetCode(lo, g)) + a;
    var len := Len(body);
    var split, init32, u := Split(!greedy, 6 + 2 * B(check) + len + 10), SetI32(0, max), If(check, [SetCharPos(0)]);
    var c := x + ([split, init32] + u) + body;
    EncodeAllSize(c);
    LenAppend(x + ([split, init32] + u), body);
      LenAppend(x, [split, init32] + u); LenAppend([split, init32], u); LenAppend([split], [init32]);
    assert [split] + [init32] == [split, init32];
    LenOne(split); LenOne(init32); LenOne(SetCharPos(0));
    if |pre + EncodeAll(c)| <= MAX_SIZE {
      var last := LoopSplit(greedy, check, 0, max, -(2 * B(check) + len + 10));
      assert x + ([split, init32] + u) == x + [split, init32] + u;
      ResetEncodable(init, lo, g); ResetEncodable(!init, lo, g);
      SmallEncodable(split, [], [], [init32]);
      SmallEncodable(split, u, [], [last]);
      assert [split] + [] == [split];
      AllEncodableAppend([split], u);
      AllEncodableAppend([split], [init32]);
      AllEncodableAppend([split, init32], u);
      AllEncodableAppend(If(init, ResetCode(lo, g)), a);
      AllEncodableAppend(x, [split, init32] + u); AllEncodableAppend(x + ([split, init32] + u), body);
      AllEncodableAppend(c, [last]);
    }
  }

  lemma LeafEncodable(n: Node, lo: nat, back: bool)
    requires Emittable(n) && SetsFit(n) && (n.Empty? || n.Char? || n.Assert? || n.BackRef?)
    ensures AllEncodable(Code(n, lo, back, -1)) && Len(Code(n, lo, back, -1)) <= Room(n)
  {
    if n.Char? && back {
      var i := Test(Bytecode.Emitted(n.test));
      assert [Prev, i, Prev] == [Prev] + ([i] + [Prev]);
      LenAppend([Prev], [i] + [Prev]); LenAppend([i], [Prev]);
      LenOne(Prev); LenOne(i);
    } else if n != Empty {
      LenOne(Code(n, lo, back, -1)[0]);
    }
  }

  lemma AltParts(n: Node)
    requires n.Alt?
    ensures Emittable(n) <==> Emittable(n.first) && Emittable(n.second)
    ensures GroupCount(n) == GroupCount(n.first) + GroupCount(n.second)
    ensures Room(n) == 10 + Room(n.first) + Room(n.second)
    ensures SetsFit(n) <==> SetsFit(n.first) && SetsFit(n.second)
  {
  }

  lemma {:induction false} AltEmitted(before: seq<Byte>, after: seq<Byte>, n: Node, lo: nat, back: bool)
    requires n.Alt? && |after| <= MAX_SIZE
    requires var a, b := Code(n.first, lo, back, -1), Code(n.second, lo + GroupCount(n.first), back, -1);
             && after == before + EncodeAll([] + [Split(false, Len(a) + 5)] + a + [Goto(Len(b))] + b)
             && AllEncodable(a) && AllEncodable(b)
    ensures Compiler.Appended(before, after, n, lo, back)
  {
    hide Code, EncodeAll;
    var a, b := Code(n.first, lo, back, -1), Code(n.second, lo + GroupCount(n.first), back, -1);
    var i, j := Split(false, Len(a) + 5), Goto(Len(b));
    AltShape(n, lo, back, -1);
    assert [] + [i] == [i];
    EncodeAllSize([i] + a + [j] + b);
    LenAppend([i] + a + [j], b); LenAppend([i] + a, [j]); LenAppend([i], a);
    AllEncodableAppend([i] + a + [j], b);
    BracketEncodable(i, a, j);
  }

  lemma AllEncodableAppend(a: seq<Instr>, b: seq<Instr>)
    ensures AllEncodable(a + b) <==> AllEncodable(a) && AllEncodable(b)
  {
    assert AllEncodable(a + b) ==> AllEncodable(a) by {
      assert forall k :: 0 <= k < |a| ==> (a + b)[k] == a[k];
    }
    assert AllEncodable(a + b) ==> AllEncodable(b) by {
      assert forall k :: 0 <= k < |b| ==> (a + b)[|a| + k] == b[k];
    }
  }
}
