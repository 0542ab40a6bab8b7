/** The one-pass code generator: it appends to a byte buffer, inserts into code it has already
    emitted, patches jumps and copies atoms. It leaves the assembled code of the expression. */
module RegexEmit {
  import opened Bytes
  import opened RegexSyntax
  import opened RegexCode
  import opened RegexRange
  import opened RegexVM
  import opened RegexCompile
  import opened RegexShape
  import opened RegexMain
  import opened DynBufs
  import Lists

  // ---- what one look at the bytes of an instruction tells the scans

  /** Size of the instruction at pc, as the scans compute it. */
  function ScanSize(code: seq<u8>, pc: nat): nat
    requires pc < |code|
  {
    var op := code[pc];
    if op == 21 || op == 22 then
      if pc + 3 > |code| then 0 else 3 + (if op == 21 then 4 else 8) * GetU16(code, pc + 1)
    else if op == 1 || op == 13 then 3
    else if op == 11 || op == 12 then 2
    else if op == 2 || 7 <= op <= 9 || op == 14 || op == 15 || op == 23 || op == 24 || op == 26 then 5
    else if op == 28 then 17
    else 1
  }

  predicate CharOp(op: u8) { 1 <= op <= 4 || op == 21 || op == 22 }

  predicate AssertOp(op: u8) { op == 5 || op == 6 || op == 17 || op == 18 }

  predicate NeutralOp(op: u8) {
    AssertOp(op) || 11 <= op <= 13 || op == 15 || op == 16 || op == 25 || op == 27
  }

  function DeltaOp(op: u8): int {
    if op == 15 || op == 25 then 1 else if op == 16 || op == 26 then -1 else 0
  }

  lemma OpcodeClass(i: Insn)
    ensures CharOp(Opcode(i)) <==> IsCharInsn(i)
    ensures AssertOp(Opcode(i)) <==> IsAssertInsn(i)
    ensures (NeutralOp(Opcode(i)) <==> Neutral(i)) && DeltaOp(Opcode(i)) == Delta(i)
  {
  }

  lemma RangeCount(code: seq<u8>, pc: nat, op: u8, n: nat, ps: seq<u8>)
    requires n < 65535 && BytesAt(code, pc, [op] + (PutU16(n) + ps))
    ensures pc + 3 <= |code| && code[pc] == op && GetU16(code, pc + 1) == n
  {
    BytesAtSplit(code, pc, [op], PutU16(n) + ps);
    BytesAtSplit(code, pc + 1, PutU16(n), ps);
    U16RoundTrip(n, code, pc + 1);
    assert code[pc] == code[pc..pc + 1][0];
  }

  lemma ScanInsn(code: seq<u8>, pc: nat, i: Insn)
    requires Encodable(i) && BytesAt(code, pc, Enc(i))
    ensures pc < |code| && code[pc] == Opcode(i) && ScanSize(code, pc) == ISize(i)
    ensures CharOp(code[pc]) <==> IsCharInsn(i)
    ensures AssertOp(code[pc]) <==> IsAssertInsn(i)
    ensures (NeutralOp(code[pc]) <==> Neutral(i)) && DeltaOp(code[pc]) == Delta(i)
  {
    hide CharOp, AssertOp, NeutralOp, DeltaOp, Neutral, Delta, IsCharInsn, IsAssertInsn;
    assert code[pc] == code[pc..pc + |Enc(i)|][0];
    OpcodeClass(i);
    match i
    case Range(rs) => RangeCount(code, pc, 21, |rs|, Pairs16(rs));
    case Range32(rs) => RangeCount(code, pc, 22, |rs|, Pairs32(rs));
    case _ =>
  }

  /** The next instruction of assembled code that stands at pc. */
  lemma ScanNext(code: seq<u8>, pc: nat, prog: seq<Insn>)
    requires prog != [] && AllEncodable(prog) && BytesAt(code, pc, Asm(prog))
    ensures pc < |code| && ScanSize(code, pc) == ISize(prog[0]) && code[pc] == Opcode(prog[0])
    ensures CharOp(code[pc]) <==> IsCharInsn(prog[0])
    ensures AssertOp(code[pc]) <==> IsAssertInsn(prog[0])
    ensures (NeutralOp(code[pc]) <==> Neutral(prog[0])) && DeltaOp(code[pc]) == Delta(prog[0])
    ensures AllEncodable(prog[1..]) && BytesAt(code, pc + ISize(prog[0]), Asm(prog[1..]))
  {
    hide ScanSize, Enc, Encodable, BytesAt, Opcode, NeutralOp, DeltaOp, Neutral, Delta;
    assert prog[0] in prog;
    BytesAtSplit(code, pc, Enc(prog[0]), Asm(prog[1..]));
    ScanInsn(code, pc, prog[0]);
  }

  /** re_is_simple_quantifier. */
  method IsSimpleQuantifier(code: seq<u8>, lo: nat, ghost A: seq<Insn>) returns (count: int)
    requires lo <= |code| && code[lo..] == Asm(A) && AllEncodable(A)
    ensures count == SimpleCount(A)
  {
    count := 0;
    var pos := lo;
    ghost var rest := A;
    while pos < |code|
      invariant lo <= pos <= |code| && count >= 0
      invariant AllEncodable(rest) && code[pos..] == Asm(rest)
      invariant SimpleCount(A) == if SimpleCount(rest) < 0 then -1 else count + SimpleCount(rest)
    {
      hide ScanSize, Asm, AllEncodable, Encodable, CharOp, AssertOp;
      AsmEmpty(rest);
      ScanNext(code, pos, rest);
      AsmTail(code, pos, rest);
      if CharOp(code[pos]) {
        count := count + 1;
      } else if !AssertOp(code[pos]) {
        return -1;
      }
      pos := pos + ScanSize(code, pos);
      rest := rest[1..];
    }
    AsmEmpty(rest);
  }

  lemma AsmEmpty(prog: seq<Insn>)
    ensures Asm(prog) == [] <==> prog == []
    ensures |Asm(prog)| == Size(prog)
  {
  }

  lemma AsmTail(code: seq<u8>, pos: nat, prog: seq<Insn>)
    requires prog != [] && pos <= |code| && code[pos..] == Asm(prog)
    ensures pos + ISize(prog[0]) <= |code| && code[pos + ISize(prog[0])..] == Asm(prog[1..])
  {
    hide Enc;
    var e, t := Enc(prog[0]), Asm(prog[1..]);
    Lists.Cut(e, t);
    Lists.Sub(code, pos, |code|, |e|, |code| - pos);
  }

  /** re_check_advance on code without back references: 1 when the code always consumes a
      character, 0 when it may not. */
  method CheckAdvance(code: seq<u8>, lo: nat, ghost A: seq<Insn>) returns (ret: int)
    requires lo <= |code| && code[lo..] == Asm(A) && AllEncodable(A)
    ensures ret == if ChecksAdvance(A) then 1 else 0
  {
    ret := -2;
    var pos := lo;
    ghost var rest := A;
    while pos < |code|
      invariant lo <= pos <= |code| && -2 <= ret <= 1 && ret != -1
      invariant AllEncodable(rest) && code[pos..] == Asm(rest)
      invariant if ret == -2 then ChecksAdvance(A) == ChecksAdvance(rest) else ChecksAdvance(A) == (ret == 1)
    {
      hide ScanSize, Asm, AllEncodable, Encodable, CharOp, NeutralOp, Neutral;
      AsmEmpty(rest);
      ScanNext(code, pos, rest);
      AsmTail(code, pos, rest);
      if CharOp(code[pos]) {
        if ret == -2 { ret := 1; }
      } else if !NeutralOp(code[pos]) {
        if ret == -2 { ret := 0; }
      }
      pos := pos + ScanSize(code, pos);
      rest := rest[1..];
    }
    AsmEmpty(rest);
    if ret == -2 { ret := 0; }
  }

  lemma MaxHeightEmpty(h: int)
    ensures MaxHeight([], h) == h
  {
  }

  lemma MaxHeightStep(prog: seq<Insn>, h: int)
    requires prog != []
    ensures var up := MaxHeight(prog[1..], h + Delta(prog[0]));
      up >= h + Delta(prog[0]) && MaxHeight(prog, h) == if up < h then h else up
  {
  }

  /** compute_stack_size: the greatest operand-stack height of a linear scan, -1 above 255. */
  method ComputeStackSize(code: seq<u8>, lo: nat, ghost prog: seq<Insn>) returns (max: int)
    requires lo <= |code| && code[lo..] == Asm(prog) && AllEncodable(prog)
    ensures max == if MaxHeight(prog, 0) > 255 then -1 else MaxHeight(prog, 0)
  {
    hide ScanSize, Asm, AllEncodable, Encodable, DeltaOp, Delta, MaxHeight, Size;
    var size := 0;
    max := 0;
    var pos := lo;
    ghost var rest := prog;
    while pos < |code|
      invariant lo <= pos <= |code| && size <= max <= 255
      invariant AllEncodable(rest) && code[pos..] == Asm(rest)
      invariant MaxHeight(prog, 0) == if MaxHeight(rest, size) >= max then MaxHeight(rest, size) else max
    {
      AsmEmpty(rest);
      ScanNext(code, pos, rest);
      AsmTail(code, pos, rest);
      var d := DeltaOp(code[pos]);
      MaxHeightStep(rest, size);
      size := size + d;
      if size > max {
        if size > 255 { return -1; }
        max := size;
      }
      pos := pos + ScanSize(code, pos);
      rest := rest[1..];
    }
    AsmEmpty(rest);
    assert MaxHeight(rest, size) == size by { MaxHeightEmpty(size); }
  }

  // ---- byte images of composed code

  lemma AsmOne(i: Insn)
    ensures Asm([i]) == Enc(i)
  {
    assert [i][1..] == [] && Enc(i) + [] == Enc(i);
  }

  lemma AsmHead(i: Insn, A: seq<Insn>)
    ensures Asm([i] + A) == Enc(i) + Asm(A) && Size([i] + A) == ISize(i) + Size(A)
  {
    hide Enc;
    AsmOne(i);
    AsmConcat([i], A);
  }

  lemma AsmLast(A: seq<Insn>, j: Insn)
    ensures Asm(A + [j]) == Asm(A) + Enc(j) && Size(A + [j]) == Size(A) + ISize(j)
  {
    hide Enc;
    AsmOne(j);
    AsmConcat(A, [j]);
  }

  lemma AsmAround(i: Insn, A: seq<Insn>, j: Insn)
    ensures Asm([i] + (A + [j])) == Enc(i) + Asm(A) + Enc(j)
  {
    hide Enc, Asm;
    AsmHead(i, A + [j]);
    AsmLast(A, j);
    Lists.Assoc(Enc(i), Asm(A), Enc(j));
  }

  lemma AsmDirected(i: Insn, back: bool)
    ensures Asm(Directed(i, back)) == if back then Enc(Prev) + Enc(i) + Enc(Prev) else Enc(i)
  {
    hide Enc, Asm;
    AsmOne(i);
    if back {
      AsmAround(Prev, [i], Prev);
      assert [Prev, i, Prev] == [Prev] + ([i] + [Prev]);
    }
  }

  lemma AsmTwo(A: seq<Insn>, i: Insn, j: Insn)
    ensures Asm(A + [i, j]) == Asm(A) + Enc(i) + Enc(j)
  {
    hide Enc, Asm;
    AsmLast(A, i);
    AsmLast(A + [i], j);
    assert A + [i] + [j] == A + [i, j];
  }

  /** Where an emitted jump operand stands. */
  function Target(size: nat, dest: int): int { dest - (size + 5) }

  class Generator {
    const env: Env
    const code: DynBuf
    var captureCount: nat

    ghost predicate Valid()
      reads this, code
    {
      code.Valid() && captureCount <= 255
    }

    constructor (env: Env)
      ensures Valid() && fresh(code) && fresh(code.buf) && this.env == env && captureCount == 1 && code.Contents() == []
    {
      this.env := env;
      code := new DynBuf();
      captureCount := 1;
    }

    /** re_emit_op and its variants with operands. */
    method Emit(i: Insn)
      requires Valid()
      modifies code, code.buf
      ensures Valid() && (code.buf == old(code.buf) || fresh(code.buf))
      ensures code.Contents() == old(code.Contents()) + Enc(i)
    {
      code.Put(Enc(i));
    }

    /** re_emit_range. */
    method EmitRange(pts: seq<int>) returns (r: Outcome)
      requires Valid() && |pts| % 2 == 0
      modifies code, code.buf
      ensures Valid() && (code.buf == old(code.buf) || fresh(code.buf))
      ensures r == if |pts| / 2 >= 65535 then Fault(TooManyRanges) else Pass
      ensures r.Pass? ==> code.Contents() == old(code.Contents()) + Enc(ClassInsn(pts))
    {
      hide Enc, PairBytes, Bounds, ClassInsn;
      var len := |pts| / 2;
      if len >= 65535 { return Fault(TooManyRanges); }
      if len == 0 {
        Emit(Char32(UINT32_MAX));
        assert ClassInsn(pts) == Char32(UINT32_MAX) by { EmptyClass(pts); }
      } else {
        var high := pts[|pts| - 1];
        if high == UINT32_MAX { high := pts[|pts| - 2]; }
        var wide := high > 0xffff;
        code.Put([if wide then 22 else 21]);
        code.Put(PutU16(len));
        EmitBounds(pts, wide);
        ClassBytes(pts, wide);
        Lists.Four(old(code.Contents()), [if wide then 22 else 21], PutU16(len), PairBytes(pts, wide));
      }
      return Pass;
    }

    method EmitPair(low: int, point: int, wide: bool)
      requires Valid()
      modifies code, code.buf
      ensures Valid() && (code.buf == old(code.buf) || fresh(code.buf))
      ensures code.Contents() == old(code.Contents()) + PairHead(low, point, wide)
    {
      if wide {
        code.Put(PutU32(low));
        code.Put(PutU32(point - 1));
        Lists.Assoc(old(code.Contents()), PutU32(low), PutU32(point - 1));
      } else {
        var high := point - 1;
        if high == UINT32_MAX - 1 { high := 0xffff; }
        code.Put(PutU16(low));
        code.Put(PutU16(high));
        Lists.Assoc(old(code.Contents()), PutU16(low), PutU16(high));
      }
    }

    method EmitBounds(pts: seq<int>, wide: bool)
      requires Valid() && |pts| % 2 == 0
      modifies code, code.buf
      ensures Valid() && (code.buf == old(code.buf) || fresh(code.buf))
      ensures code.Contents() == old(code.Contents()) + PairBytes(pts, wide)
    {
      hide PairHead, PairBytes;
      ghost var total := code.Contents() + PairBytes(pts, wide);
      var i := 0;
      assert pts[0..] == pts;
      while i < |pts|
        invariant 0 <= i <= |pts| && i % 2 == 0
        invariant Valid() && (code.buf == old(code.buf) || fresh(code.buf))
        invariant code.Contents() + PairBytes(pts[i..], wide) == total
      {
        ghost var now := code.Contents();
        PairBytesStep(pts, i, wide);
        EmitPair(pts[i], pts[i + 1], wide);
        Lists.Assoc(now, PairHead(pts[i], pts[i + 1], wide), PairBytes(pts[i + 2..], wide));
        i := i + 2;
      }
      assert pts[i..] == [];
      assert PairBytes([], wide) == [] by { NoPairs(wide); }
      assert code.Contents() + [] == code.Contents();
    }

    // ---- quantifiers

    /** Insert bytes in front of the code appended last. */
    method Front(at: nat, data: seq<u8>, ghost pre: seq<u8>, ghost body: seq<u8>)
      requires Valid() && code.Contents() == pre + body && |pre| == at
      modifies code, code.buf
      ensures Valid() && (code.buf == old(code.buf) || fresh(code.buf))
      ensures code.Contents() == pre + (data + body)
    {
      Lists.Cut(pre, body);
      code.Insert(at, data);
      Lists.Assoc(pre, data, body);
    }

    /** re_emit_goto and its like after other code. */
    method Back(i: Insn, ghost pre: seq<u8>, ghost body: seq<u8>)
      requires Valid() && code.Contents() == pre + body
      modifies code, code.buf
      ensures Valid() && (code.buf == old(code.buf) || fresh(code.buf))
      ensures code.Contents() == pre + (body + Enc(i))
    {
      Emit(i);
      Lists.Assoc(pre, body, Enc(i));
    }

    method WrapSimple(at: nat, min: int, max: int, count: int, ghost A: seq<Insn>, ghost pre: seq<u8>)
      requires Valid() && code.Contents() == pre + Asm(A) && |pre| == at && count == SimpleCount(A)
      modifies code, code.buf
      ensures Valid() && (code.buf == old(code.buf) || fresh(code.buf))
      ensures code.Contents() == pre + Asm([GreedyInsn(A, min, max)] + (A + [Match]))
    {
      hide Enc, Asm, Size;
      AsmEmpty(A);
      var i := Greedy(code.size + 1 - at, min, max, count);
      Back(Match, pre, Asm(A));
      Front(at, Enc(i), pre, Asm(A) + Enc(Match));
      AsmAround(i, A, Match);
      Lists.Assoc(Enc(i), Asm(A), Enc(Match));
    }

    method WrapStar(at: nat, greedy: bool, check: bool, ghost A: seq<Insn>, ghost pre: seq<u8>)
      requires Valid() && code.Contents() == pre + Asm(A) && |pre| == at
      modifies code, code.buf
      ensures Valid() && (code.buf == old(code.buf) || fresh(code.buf))
      ensures code.Contents() == pre + Asm(StarCode(A, greedy, check))
    {
      hide Enc, Asm, Size, StarCode;
      AsmEmpty(A);
      var len := code.size - at;
      var head := StarHead(greedy, check, len);
      Front(at, head, pre, Asm(A));
      var dest := Target(code.size, at);
      StarBytes(A, greedy, check);
      Back(if check then BneCharPos(dest) else Goto(dest), pre, head + Asm(A));
    }

    /** The loop instruction back to dest, and the drop of its counter. */
    method UpToTail(dest: nat, ghost pre: seq<u8>, ghost body: seq<u8>)
      requires Valid() && code.Contents() == pre + body
      modifies code, code.buf
      ensures Valid() && (code.buf == old(code.buf) || fresh(code.buf))
      ensures code.Contents() == pre + (body + Enc(Loop(Target(|pre + body|, dest))) + Enc(Drop))
    {
      hide Enc;
      var last := Loop(Target(code.size, dest));
      Back(last, pre, body);
      Back(Drop, pre, body + Enc(last));
    }

    method WrapUpTo(at: nat, greedy: bool, n: int, ghost A: seq<Insn>, ghost pre: seq<u8>)
      requires Valid() && code.Contents() == pre + Asm(A) && |pre| == at
      modifies code, code.buf
      ensures Valid() && (code.buf == old(code.buf) || fresh(code.buf))
      ensures code.Contents() == pre + Asm(UpToCode(A, greedy, n))
    {
      hide Enc, Asm, Size, UpToCode;
      AsmEmpty(A);
      var len := code.size - at;
      var head := Enc(PushI32(n)) + Enc(SplitBody(greedy, len + 5));
      Front(at, head, pre, Asm(A));
      UpToTail(at + 5, pre, head + Asm(A));
      UpToBytes(A, greedy, n);
    }

    method WrapTimes(at: nat, n: int, ghost A: seq<Insn>, ghost pre: seq<u8>)
      requires Valid() && code.Contents() == pre + Asm(A) && |pre| == at
      modifies code, code.buf
      ensures Valid() && (code.buf == old(code.buf) || fresh(code.buf))
      ensures code.Contents() == pre + Asm(TimesCode(A, n))
    {
      hide Enc, Asm, Size, TimesCode;
      AsmEmpty(A);
      Front(at, Enc(PushI32(n)), pre, Asm(A));
      UpToTail(at + 5, pre, Enc(PushI32(n)) + Asm(A));
      TimesBytes(A, n);
    }

    /** dbuf_put_self of the atom. */
    method CopyAtom(at: nat, len: nat, ghost atom: seq<u8>, ghost pre: seq<u8>, ghost head: seq<u8>)
      requires Valid() && code.Contents() == pre + head && at + len <= |pre| && pre[at..at + len] == atom
      modifies code, code.buf
      ensures Valid() && (code.buf == old(code.buf) || fresh(code.buf))
      ensures code.Contents() == pre + (head + atom)
    {
      Lists.Sub(pre + head, 0, |pre|, at, at + len);
      Lists.Cut(pre, head);
      code.PutSelf(at, len);
      Lists.Assoc(pre, head, atom);
    }

    /** A second copy of the atom at `at`, as an unbounded loop. */
    method AppendStar(at: nat, len: nat, greedy: bool, check: bool, ghost A: seq<Insn>, ghost pre: seq<u8>)
      requires Valid() && code.Contents() == pre && at + len <= |pre| && pre[at..at + len] == Asm(A)
      modifies code, code.buf
      ensures Valid() && (code.buf == old(code.buf) || fresh(code.buf))
      ensures code.Contents() == pre + Asm(StarCode(A, greedy, check))
    {
      hide Enc, Asm, Size, StarCode;
      AsmEmpty(A);
      var pos := code.size;
      var head := StarHead(greedy, check, len);
      code.Put(head);
      CopyAtom(at, len, Asm(A), pre, head);
      var dest := Target(code.size, pos);
      StarBytes(A, greedy, check);
      Back(if check then BneCharPos(dest) else Goto(dest), pre, head + Asm(A));
    }

    method AppendUpTo(at: nat, len: nat, greedy: bool, n: int, ghost A: seq<Insn>, ghost pre: seq<u8>)
      requires Valid() && code.Contents() == pre && at + len <= |pre| && pre[at..at + len] == Asm(A)
      modifies code, code.buf
      ensures Valid() && (code.buf == old(code.buf) || fresh(code.buf))
      ensures code.Contents() == pre + Asm(UpToCode(A, greedy, n))
    {
      hide Enc, Asm, Size, UpToCode;
      AsmEmpty(A);
      var pos := code.size + 5;
      var head := Enc(PushI32(n)) + Enc(SplitBody(greedy, len + 5));
      code.Put(head);
      CopyAtom(at, len, Asm(A), pre, head);
      UpToTail(pos, pre, head + Asm(A));
      UpToBytes(A, greedy, n);
    }

    /** The quantifier part of re_parse_term: rewrites the code A of the atom, emitted from
        `start` on, into the code of the quantified atom. */
    method Quantify(start: nat, lastCapture: nat, min: int, max: int, greedy: bool, ghost A: seq<Insn>,
                    ghost pre: seq<u8>)
      requires Valid() && code.Contents() == pre + Asm(A) && |pre| == start && AllEncodable(A)
      requires 0 <= min <= max && lastCapture <= captureCount
      modifies code, code.buf
      ensures Valid() && (code.buf == old(code.buf) || fresh(code.buf))
      ensures code.Contents() == pre + Asm(QuantCode(A, lastCapture, captureCount - lastCapture, min, max, greedy))
    {
      hide Enc, Asm, Size, AllEncodable, SimpleCount, ChecksAdvance, ZeroCode, RestCode, MinCode, ResetCode;
      Lists.Cut(pre, Asm(A));
      AsmEmpty(A);
      if greedy && max > 0 {
        var count := IsSimpleQuantifier(code.buf[..code.size], start, A);
        if count > 0 {
          WrapSimple(start, min, max, count, A, pre);
          return;
        }
      }
      var check := false;
      if greedy {
        var advance := CheckAdvance(code.buf[..code.size], start, A);
        check := advance == 0;
      }
      var len := code.size - start;
      if min == 0 {
        QuantifyZero(start, lastCapture, max, greedy, check, len, A, pre);
      } else if min == 1 && max == INT32_MAX && !check {
        var j := SplitBack(greedy, Target(code.size, start));
        AsmLast(A, j);
        Back(j, pre, Asm(A));
      } else {
        QuantifyMin(start, min, max, greedy, check, len, A, pre);
      }
    }

    method QuantifyZero(start: nat, lastCapture: nat, max: int, greedy: bool, check: bool, len: nat, ghost A: seq<Insn>,
                        ghost pre: seq<u8>)
      requires Valid() && code.Contents() == pre + Asm(A) && |pre| == start && len == Size(A)
      requires 0 <= max && lastCapture <= captureCount
      modifies code, code.buf
      ensures Valid() && (code.buf == old(code.buf) || fresh(code.buf))
      ensures code.Contents() == pre
          + Asm(ResetCode(lastCapture, captureCount - lastCapture) + ZeroCode(A, max, greedy, check))
    {
      hide Enc, Asm, Size, StarCode, UpToCode;
      var at := start;
      ghost var pre1 := pre;
      ghost var R := ResetCode(lastCapture, captureCount - lastCapture);
      if lastCapture != captureCount {
        var i := SaveReset(lastCapture, captureCount - 1);
        Front(at, Enc(i), pre, Asm(A));
        Lists.Assoc(pre, Enc(i), Asm(A));
        at := at + 3;
        pre1 := pre + Enc(i);
        AsmOne(i);
      } else {
        assert R == [] && Asm(R) == [] by { AsmEmpty([]); }
        assert pre + [] == pre;
      }
      assert pre1 == pre + Asm(R);
      ghost var Z := ZeroCode(A, max, greedy, check);
      if max == 0 {
        Lists.Cut(pre1, Asm(A));
        code.Truncate(at);
        assert Asm([]) == [] by { AsmEmpty([]); }
        assert pre1 + [] == pre1;
      } else if max == 1 {
        AsmHead(SplitBody(greedy, len), A);
        Front(at, Enc(SplitBody(greedy, len)), pre1, Asm(A));
      } else if max == INT32_MAX {
        WrapStar(at, greedy, check, A, pre1);
      } else {
        WrapUpTo(at, greedy, max, A, pre1);
      }
      AsmConcat(R, Z);
      Lists.Assoc(pre, Asm(R), Asm(Z));
    }

    method QuantifyMin(start: nat, min: int, max: int, greedy: bool, check: bool, len: nat, ghost A: seq<Insn>,
                       ghost pre: seq<u8>)
      requires Valid() && code.Contents() == pre + Asm(A) && |pre| == start && len == Size(A)
      requires 0 < min <= max
      modifies code, code.buf
      ensures Valid() && (code.buf == old(code.buf) || fresh(code.buf))
      ensures code.Contents() == pre + Asm(MinCode(A, min) + RestCode(A, min, max, greedy, check))
    {
      hide Enc, Asm, Size, StarCode, UpToCode, TimesCode;
      AsmEmpty(A);
      var at := start;
      ghost var M := MinCode(A, min);
      ghost var R := RestCode(A, min, max, greedy, check);
      if min != 1 {
        WrapTimes(at, min, A, pre);
        at := at + 5;
      }
      ghost var pre1 := pre + Asm(M);
      AtomStays(A, min, pre);
      if max == INT32_MAX {
        AppendStar(at, len, greedy, check, A, pre1);
      } else if max > min {
        AppendUpTo(at, len, greedy, max - min, A, pre1);
      } else {
        assert Asm([]) == [] by { AsmEmpty([]); }
        assert pre1 + [] == pre1;
      }
      AsmConcat(M, R);
      Lists.Assoc(pre, Asm(M), Asm(R));
    }

    // ---- expressions

    /** Generates the code of re; the errors are those of Check, the code that of Compile. */
    method Gen(re: Re, back: bool) returns (r: Outcome)
      requires Valid() && Wf(re) && Fits(env, re, captureCount, back)
      modifies this`captureCount, code, code.buf
      ensures Valid() && (code.buf == old(code.buf) || fresh(code.buf))
      ensures r == Check(re, old(captureCount))
      ensures r.Pass? ==> captureCount == old(captureCount) + NCap(re)
      ensures r.Pass? ==> code.Contents() == old(code.Contents()) + Asm(Compile(env, re, old(captureCount), back))
      decreases re, 1
    {
      hide Asm, Compile, Check, Wf, Fits, NCap;
      match re
      case Cat(_, _) => r := GenAlternative(re, back);
      case Alt(_, _) => r := GenDisjunction(re, back);
      case Capture(_) => r := GenCapture(re, back);
      case Look(_, _, _) => r := GenLook(re, back);
      case Quant(_, _, _, _) => r := GenQuant(re, back);
      case _ => r := GenLeaf(re, back);
    }

    method GenLeaf(re: Re, back: bool) returns (r: Outcome)
      requires Valid() && Wf(re) && IsLeaf(re)
      modifies code, code.buf
      ensures Valid() && (code.buf == old(code.buf) || fresh(code.buf))
      ensures r == Check(re, captureCount) && NCap(re) == 0
      ensures r.Pass? ==> code.Contents() == old(code.Contents()) + Asm(Compile(env, re, captureCount, back))
    {
      hide Asm, Enc, ClassInsn, CharInsn;
      r := Pass;
      match re
      case Empty =>
        assert Asm([]) == [] by { AsmEmpty([]); }
      case Class(pts) =>
        ghost var was := code.Contents();
        if back { Emit(Prev); }
        r := EmitRange(pts);
        if back && r.Pass? { Emit(Prev); }
        AsmDirected(ClassInsn(pts), back);
        Lists.Four(was, Enc(Prev), Enc(ClassInsn(pts)), Enc(Prev));
        Lists.FourLeft(was, Enc(Prev), Enc(ClassInsn(pts)), Enc(Prev));
      case Bol => Emit(LineStart); AsmOne(LineStart);
      case Eol => Emit(LineEnd); AsmOne(LineEnd);
      case WordB(neg) =>
        var i := if neg then NotWordBoundary else WordBoundary;
        Emit(i);
        AsmOne(i);
      case Chr(c) => EmitDirected(CharInsn(env, c), back);
      case AnyChar => EmitDirected(Any, back);
      case DotChar => EmitDirected(if env.dotAll then Any else Dot, back);
    }

    method EmitDirected(i: Insn, back: bool)
      requires Valid()
      modifies code, code.buf
      ensures Valid() && (code.buf == old(code.buf) || fresh(code.buf))
      ensures code.Contents() == old(code.Contents()) + Asm(Directed(i, back))
    {
      hide Asm, Enc;
      ghost var was := code.Contents();
      if back { Emit(Prev); }
      Emit(i);
      if back { Emit(Prev); }
      AsmDirected(i, back);
      Lists.FourLeft(was, Enc(Prev), Enc(i), Enc(Prev));
    }

    /** re_parse_alternative: in reverse order each new term is moved in front of the earlier
        ones. */
    method GenAlternative(re: Re, back: bool) returns (r: Outcome)
      requires re.Cat? && Valid() && Wf(re) && Fits(env, re, captureCount, back)
      modifies this`captureCount, code, code.buf
      ensures Valid() && (code.buf == old(code.buf) || fresh(code.buf))
      ensures r == Check(re, old(captureCount))
      ensures r.Pass? ==> captureCount == old(captureCount) + NCap(re)
      ensures r.Pass? ==> code.Contents() == old(code.Contents()) + Asm(Compile(env, re, old(captureCount), back))
      decreases re, 0
    {
      hide Asm, Wf, NCap, Compile, Check, Fits;
      CatParts(env, re, captureCount, back);
      ghost var was, cc := code.Contents(), captureCount;
      var start := code.size;
      r := Gen(re.l, back);
      if r.Fault? { return; }
      var term := code.size;
      r := Gen(re.r, back);
      if r.Fault? { return; }
      ghost var A, B := Compile(env, re.l, cc, back), Compile(env, re.r, cc + NCap(re.l), back);
      if back {
        code.Rotate(start, term);
        Lists.Swap(was, Asm(A), Asm(B));
        AsmConcat(B, A);
        Lists.Assoc(was, Asm(B), Asm(A));
      } else {
        AsmConcat(A, B);
        Lists.Assoc(was, Asm(A), Asm(B));
      }
    }

    /** re_parse_disjunction: a split is inserted in front of the first alternative, the goto
        after it is patched when the second is complete. */
    method GenDisjunction(re: Re, back: bool) returns (r: Outcome)
      requires re.Alt? && Valid() && Wf(re) && Fits(env, re, captureCount, back)
      modifies this`captureCount, code, code.buf
      ensures Valid() && (code.buf == old(code.buf) || fresh(code.buf))
      ensures r == Check(re, old(captureCount))
      ensures r.Pass? ==> captureCount == old(captureCount) + NCap(re)
      ensures r.Pass? ==> code.Contents() == old(code.Contents()) + Asm(Compile(env, re, old(captureCount), back))
      decreases re, 0
    {
      hide Asm, Wf, NCap, Enc, Compile, Check, Fits, Size;
      AltParts(env, re, captureCount, back);
      ghost var was, cc := code.Contents(), captureCount;
      var start := code.size;
      r := Gen(re.l, back);
      if r.Fault? { return; }
      ghost var A, B := Compile(env, re.l, cc, back), Compile(env, re.r, cc + NCap(re.l), back);
      AsmEmpty(A);
      AsmEmpty(B);
      var len := code.size - start;
      var split := SplitNextFirst(len + 5);
      Front(start, Enc(split), was, Asm(A));
      Emit(Goto(0));
      var pos := code.size - 4;
      ghost var pre := was + (Enc(split) + Asm(A));
      r := Gen(re.r, back);
      if r.Fault? { return; }
      GotoBytes(|Asm(B)|);
      Patch(pos, code.size - (pos + 4), Goto(0), Goto(|Asm(B)|), pre, Asm(B));
      AltBytes(was, A, B);
    }

    /** put_u32 into the operand of an instruction emitted earlier. */
    method Patch(pos: nat, x: int, ghost before: Insn, ghost after: Insn, ghost pre: seq<u8>, ghost tail: seq<u8>)
      requires Valid() && code.Contents() == pre + Enc(before) + tail && pos == |pre| + 1
      requires Enc(before) == [Opcode(before)] + PutU32(0) && Enc(after) == [Opcode(before)] + PutU32(x)
      modifies code.buf
      ensures Valid() && code.Contents() == pre + (Enc(after) + tail)
    {
      hide Enc, PutU32, Opcode;
      Lists.Overwrite(pre, [Opcode(before)], PutU32(0), PutU32(x), tail);
      code.Poke(pos, x);
    }

    method GenCapture(re: Re, back: bool) returns (r: Outcome)
      requires re.Capture? && Valid() && Wf(re) && Fits(env, re, captureCount, back)
      modifies this`captureCount, code, code.buf
      ensures Valid() && (code.buf == old(code.buf) || fresh(code.buf))
      ensures r == Check(re, old(captureCount))
      ensures r.Pass? ==> captureCount == old(captureCount) + NCap(re)
      ensures r.Pass? ==> code.Contents() == old(code.Contents()) + Asm(Compile(env, re, old(captureCount), back))
      decreases re, 0
    {
      hide Asm, Enc, Size;
      if captureCount >= 255 { return Fault(TooManyCaptures); }
      ghost var was, cc := code.Contents(), captureCount;
      var index := captureCount;
      captureCount := captureCount + 1;
      var first := if back then SaveEnd(index) else SaveStart(index);
      var last := if back then SaveStart(index) else SaveEnd(index);
      Emit(first);
      r := Gen(re.body, back);
      if r.Fault? { return; }
      Emit(last);
      ghost var A := Compile(env, re.body, cc + 1, back);
      AsmAround(first, A, last);
      Lists.FourLeft(was, Enc(first), Asm(A), Enc(last));
    }

    method GenLook(re: Re, back: bool) returns (r: Outcome)
      requires re.Look? && Valid() && Wf(re) && Fits(env, re, captureCount, back)
      modifies this`captureCount, code, code.buf
      ensures Valid() && (code.buf == old(code.buf) || fresh(code.buf))
      ensures r == Check(re, old(captureCount))
      ensures r.Pass? ==> captureCount == old(captureCount) + NCap(re)
      ensures r.Pass? ==> code.Contents() == old(code.Contents()) + Asm(Compile(env, re, old(captureCount), back))
      decreases re, 0
    {
      hide Asm, Enc, Wf, NCap, Compile, Check, Fits, Size;
      LookParts(env, re, captureCount, back);
      ghost var was, cc := code.Contents(), captureCount;
      var open := if re.neg then NegativeLookahead(0) else Lookahead(0);
      Emit(open);
      var pos := code.size - 4;
      r := Gen(re.body, re.behind);
      if r.Fault? { return; }
      ghost var A := Compile(env, re.body, cc, re.behind);
      ghost var i := if re.neg then NegativeLookahead(Size(A) + 1) else Lookahead(Size(A) + 1);
      AsmEmpty(A);
      Emit(Match);
      Lists.Assoc(was + Enc(open), Asm(A), Enc(Match));
      LookBytes(re.neg, Size(A) + 1);
      Patch(pos, code.size - (pos + 4), open, i, was, Asm(A) + Enc(Match));
      AsmHead(i, A + [Match]);
      AsmLast(A, Match);
    }

    method GenQuant(re: Re, back: bool) returns (r: Outcome)
      requires re.Quant? && Valid() && Wf(re) && Fits(env, re, captureCount, back)
      modifies this`captureCount, code, code.buf
      ensures Valid() && (code.buf == old(code.buf) || fresh(code.buf))
      ensures r == Check(re, old(captureCount))
      ensures r.Pass? ==> captureCount == old(captureCount) + NCap(re)
      ensures r.Pass? ==> code.Contents() == old(code.Contents()) + Asm(Compile(env, re, old(captureCount), back))
      decreases re, 0
    {
      hide Asm, AllEncodable, QuantCode;
      ghost var was := code.Contents();
      var start, lastCapture := code.size, captureCount;
      r := Gen(re.atom, back);
      if r.Fault? { return; }
      ghost var A := Compile(env, re.atom, lastCapture, back);
      CompileEncodable(env, re.atom, lastCapture, back);
      Quantify(start, lastCapture, re.min, re.max, re.greedy, A, was);
    }
  }

  lemma CatParts(env: Env, re: Re, cc: nat, back: bool)
    requires re.Cat? && Fits(env, re, cc, back)
    ensures NCap(re) == NCap(re.l) + NCap(re.r) && (Wf(re) <==> Wf(re.l) && Wf(re.r))
    ensures Fits(env, re.l, cc, back) && Fits(env, re.r, cc + NCap(re.l), back)
    ensures Check(re, cc) == match Check(re.l, cc) case Pass => Check(re.r, cc + NCap(re.l)) case e => e
    ensures var A, B := Compile(env, re.l, cc, back), Compile(env, re.r, cc + NCap(re.l), back);
      Compile(env, re, cc, back) == if back then B + A else A + B
  {
    hide Size;
  }

  lemma AltParts(env: Env, re: Re, cc: nat, back: bool)
    requires re.Alt? && Fits(env, re, cc, back)
    ensures NCap(re) == NCap(re.l) + NCap(re.r) && (Wf(re) <==> Wf(re.l) && Wf(re.r))
    ensures Fits(env, re.l, cc, back) && Fits(env, re.r, cc + NCap(re.l), back)
    ensures Check(re, cc) == match Check(re.l, cc) case Pass => Check(re.r, cc + NCap(re.l)) case e => e
    ensures var A, B := Compile(env, re.l, cc, back), Compile(env, re.r, cc + NCap(re.l), back);
      Compile(env, re, cc, back) == [SplitNextFirst(Size(A) + 5)] + (A + ([Goto(Size(B))] + B))
  {
    hide Size;
  }

  lemma LookParts(env: Env, re: Re, cc: nat, back: bool)
    requires re.Look? && Fits(env, re, cc, back)
    ensures NCap(re) == NCap(re.body) && (Wf(re) <==> Wf(re.body)) && Check(re, cc) == Check(re.body, cc)
    ensures Fits(env, re.body, cc, re.behind)
    ensures var A := Compile(env, re.body, cc, re.behind);
      Compile(env, re, cc, back) ==
      [if re.neg then NegativeLookahead(Size(A) + 1) else Lookahead(Size(A) + 1)] + (A + [Match])
  {
    hide Size;
  }

  lemma AltBytes(was: seq<u8>, A: seq<Insn>, B: seq<Insn>)
    ensures var s, g := SplitNextFirst(Size(A) + 5), Goto(Size(B));
      was + Asm([s] + (A + ([g] + B))) == was + (Enc(s) + Asm(A)) + (Enc(g) + Asm(B))
  {
    hide Enc, Asm;
    var s, g := SplitNextFirst(Size(A) + 5), Goto(Size(B));
    AsmHead(g, B);
    AsmConcat(A, [g] + B);
    AsmHead(s, A + ([g] + B));
    Lists.Assoc(Enc(s), Asm(A), Enc(g) + Asm(B));
    Lists.Assoc(was, Enc(s) + Asm(A), Enc(g) + Asm(B));
  }

  lemma GotoBytes(off: int)
    ensures Enc(Goto(0)) == [Opcode(Goto(0))] + PutU32(0) && Enc(Goto(off)) == [Opcode(Goto(0))] + PutU32(off)
  {
  }

  lemma LookBytes(neg: bool, off: int)
    ensures var i, j := if neg then NegativeLookahead(0) else Lookahead(0), if neg then NegativeLookahead(off)
        else Lookahead(off);
      Enc(i) == [Opcode(i)] + PutU32(0) && Enc(j) == [Opcode(i)] + PutU32(off)
  {
  }

  /** The atom stands unchanged inside the code of its first turns. */
  lemma AtomStays(A: seq<Insn>, min: int, pre: seq<u8>)
    requires min > 0
    ensures var at := |pre| + (if min == 1 then 0 else 5);
      at + Size(A) <= |pre + Asm(MinCode(A, min))| && (pre + Asm(MinCode(A, min)))[at..at + Size(A)] == Asm(A)
  {
    hide Enc, Asm, Size, TimesCode;
    AsmEmpty(A);
    if min == 1 {
      Lists.Cut(pre, Asm(A));
    } else {
      TimesBytes(A, min);
      var p, t := Enc(PushI32(min)), Enc(Loop(-(Size(A) as int + 5))) + Enc(Drop);
      var b := Asm(TimesCode(A, min));
      assert b == p + Asm(A) + t by { Lists.Assoc(p + Asm(A), Enc(Loop(-(Size(A) as int + 5))), Enc(Drop)); }
      Lists.Middle(pre, p, Asm(A), t);
    }
  }

  function StarHead(greedy: bool, check: bool, len: nat): seq<u8> {
    if check then Enc(SplitBody(greedy, len + 6)) + Enc(PushCharPos) else Enc(SplitBody(greedy, len + 5))
  }

  lemma StarHeadSize(greedy: bool, check: bool, len: nat)
    ensures |StarHead(greedy, check, len)| == if check then 6 else 5
  {
    hide Enc;
  }

  lemma StarBytes(A: seq<Insn>, greedy: bool, check: bool)
    ensures var len: int := Size(A);
      Asm(StarCode(A, greedy, check)) ==
      StarHead(greedy, check, Size(A)) + Asm(A) + Enc(if check then BneCharPos(-(len + 11)) else Goto(-(len + 10)))
    ensures |StarHead(greedy, check, Size(A))| == if check then 6 else 5
  {
    hide Enc, Asm, Size;
    StarHeadSize(greedy, check, Size(A));
    var len: int := Size(A);
    var last := if check then BneCharPos(-(len + 11)) else Goto(-(len + 10));
    if check {
      var i := SplitBody(greedy, len + 6);
      AsmAround(PushCharPos, A, last);
      AsmHead(i, [PushCharPos] + (A + [last]));
      Lists.Assoc(Enc(i), Enc(PushCharPos) + Asm(A), Enc(last));
      Lists.Assoc(Enc(i), Enc(PushCharPos), Asm(A));
    } else {
      AsmAround(SplitBody(greedy, len + 5), A, last);
      assert [] + (A + [last]) == A + [last];
    }
  }

  lemma AsmCounted(i: Insn, A: seq<Insn>, l: Insn)
    ensures Asm([i] + (A + [l, Drop])) == Enc(i) + Asm(A) + Enc(l) + Enc(Drop)
  {
    hide Enc, Asm;
    AsmTwo(A, l, Drop);
    AsmHead(i, A + [l, Drop]);
    Lists.FourLeft(Enc(i), Asm(A), Enc(l), Enc(Drop));
  }

  lemma UpToBytes(A: seq<Insn>, greedy: bool, n: int)
    ensures var len: int := Size(A);
      Asm(UpToCode(A, greedy, n)) ==
      Enc(PushI32(n)) + Enc(SplitBody(greedy, len + 5)) + Asm(A) + Enc(Loop(-(len + 10))) + Enc(Drop)
  {
    hide Enc, Asm, Size;
    var len: int := Size(A);
    var p, i, l := PushI32(n), SplitBody(greedy, len + 5), Loop(-(len + 10));
    AsmCounted(i, A, l);
    AsmHead(p, LoopCode(A, greedy));
    Lists.FiveLeft(Enc(p), Enc(i), Asm(A), Enc(l), Enc(Drop));
  }

  lemma TimesBytes(A: seq<Insn>, n: int)
    ensures var len: int := Size(A);
      Asm(TimesCode(A, n)) == Enc(PushI32(n)) + Asm(A) + Enc(Loop(-(len + 5))) + Enc(Drop)
  {
    hide Enc, Asm, Size;
    AsmCounted(PushI32(n), A, Loop(-(Size(A) as int + 5)));
  }

  lemma NoPairs(wide: bool)
    ensures PairBytes([], wide) == []
  {
  }

  lemma EmptyClass(pts: seq<int>)
    requires |pts| < 2
    ensures ClassInsn(pts) == Char32(UINT32_MAX)
  {
  }

  lemma ClassBytes(pts: seq<int>, wide: bool)
    requires |pts| >= 2 && |pts| % 2 == 0
    requires wide == ((if pts[|pts| - 1] == UINT32_MAX then pts[|pts| - 2] else pts[|pts| - 1]) > 0xffff)
    ensures Enc(ClassInsn(pts)) == [if wide then 22 else 21] + (PutU16(|pts| / 2) + PairBytes(pts, wide))
  {
    hide Pairs16, Pairs32, PutU16;
  }

  function PairHead(low: int, point: int, wide: bool): seq<u8> {
    if wide then PutU32(low) + PutU32(point - 1)
    else PutU16(low) + PutU16(if point - 1 == UINT32_MAX - 1 then 0xffff else point - 1)
  }

  function PairBytes(pts: seq<int>, wide: bool): seq<u8> {
    if wide then Pairs32(Bounds(pts, true)) else Pairs16(Bounds(pts, false))
  }

  lemma PairBytesStep(pts: seq<int>, i: nat, wide: bool)
    requires i + 2 <= |pts|
    ensures PairBytes(pts[i..], wide) == PairHead(pts[i], pts[i + 1], wide) + PairBytes(pts[i + 2..], wide)
  {
    var s := pts[i..];
    assert s[2..] == pts[i + 2..];
    assert Bounds(s, wide)[1..] == Bounds(pts[i + 2..], wide);
  }
}
