/** The instruction set of the regular-expression bytecode: opcodes and operand layout,
    the encoder, and the decoder that the interpreter applies at the program counter. */
module RegexCode {
  import opened Options
  import opened Bytes
  import Lists

  /** One instruction. Jump offsets are relative to the end of the offset field, except in
      Greedy, where `next` is the length of the inlined atom. */
  datatype Insn =
    | Char(c: int)
    | Char32(c: int)
    | Dot
    | Any
    | LineStart
    | LineEnd
    | Goto(off: int)
    | SplitGotoFirst(off: int)
    | SplitNextFirst(off: int)
    | Match
    | SaveStart(idx: int)
    | SaveEnd(idx: int)
    | SaveReset(lo: int, hi: int)
    | Loop(off: int)
    | PushI32(v: int)
    | Drop
    | WordBoundary
    | NotWordBoundary
    | Range(rs: seq<(int, int)>)
    | Range32(rs: seq<(int, int)>)
    | Lookahead(off: int)
    | NegativeLookahead(off: int)
    | PushCharPos
    | BneCharPos(off: int)
    | Prev
    | Greedy(next: int, min: int, max: int, count: int)

  /** Size in bytes: the opcode table, plus the ranges of the two variable-length opcodes. */
  function ISize(i: Insn): (n: nat)
    ensures n > 0
  {
    match i
    case Dot | Any | LineStart | LineEnd | Match | Drop | WordBoundary | NotWordBoundary | PushCharPos | Prev => 1
    case SaveStart(_) | SaveEnd(_) => 2
    case Char(_) => 3
    case SaveReset(_, _) => 3
    case Char32(_) | Goto(_) | SplitGotoFirst(_) | SplitNextFirst(_) | Loop(_) | PushI32(_) => 5
    case Lookahead(_) | NegativeLookahead(_) | BneCharPos(_) => 5
    case Range(rs) => 3 + 4 * |rs|
    case Range32(rs) => 3 + 8 * |rs|
    case Greedy(_, _, _, _) => 17
  }

  /** The operands fit their fields. */
  predicate Encodable(i: Insn) {
    match i
    case Char(c) => IsU16(c)
    case Char32(c) => IsU32(c)
    case Goto(off) => IsI32(off)
    case SplitGotoFirst(off) => IsI32(off)
    case SplitNextFirst(off) => IsI32(off)
    case Loop(off) => IsI32(off)
    case BneCharPos(off) => IsI32(off)
    case Lookahead(off) => IsI32(off)
    case NegativeLookahead(off) => IsI32(off)
    case PushI32(v) => IsU32(v)
    case SaveStart(idx) => IsU8(idx)
    case SaveEnd(idx) => IsU8(idx)
    case SaveReset(lo, hi) => IsU8(lo) && IsU8(hi)
    case Range(rs) => 0 < |rs| < 65535 && forall k | 0 <= k < |rs| :: IsU16(rs[k].0) && IsU16(rs[k].1)
    case Range32(rs) => 0 < |rs| < 65535 && forall k | 0 <= k < |rs| :: IsU32(rs[k].0) && IsU32(rs[k].1)
    case Greedy(next, min, max, count) => IsI32(next) && IsU32(min) && IsU32(max) && IsU32(count)
    case _ => true
  }

  function Pairs16(rs: seq<(int, int)>): (b: seq<u8>)
    ensures |b| == 4 * |rs|
  {
    if rs == [] then [] else PutU16(rs[0].0) + PutU16(rs[0].1) + Pairs16(rs[1..])
  }

  function Pairs32(rs: seq<(int, int)>): (b: seq<u8>)
    ensures |b| == 8 * |rs|
  {
    if rs == [] then [] else PutU32(rs[0].0) + PutU32(rs[0].1) + Pairs32(rs[1..])
  }

  function Opcode(i: Insn): u8 {
    match i
    case Char(_) => 1
    case Char32(_) => 2
    case Dot => 3
    case Any => 4
    case LineStart => 5
    case LineEnd => 6
    case Goto(_) => 7
    case SplitGotoFirst(_) => 8
    case SplitNextFirst(_) => 9
    case Match => 10
    case SaveStart(_) => 11
    case SaveEnd(_) => 12
    case SaveReset(_, _) => 13
    case Loop(_) => 14
    case PushI32(_) => 15
    case Drop => 16
    case WordBoundary => 17
    case NotWordBoundary => 18
    case Range(_) => 21
    case Range32(_) => 22
    case Lookahead(_) => 23
    case NegativeLookahead(_) => 24
    case PushCharPos => 25
    case BneCharPos(_) => 26
    case Prev => 27
    case Greedy(_, _, _, _) => 28
  }

  function Operands(i: Insn): seq<u8> {
    match i
    case Char(c) => PutU16(c)
    case Char32(c) => PutU32(c)
    case Goto(off) => PutU32(off)
    case SplitGotoFirst(off) => PutU32(off)
    case SplitNextFirst(off) => PutU32(off)
    case SaveStart(idx) => [idx % 0x100]
    case SaveEnd(idx) => [idx % 0x100]
    case SaveReset(lo, hi) => [lo % 0x100, hi % 0x100]
    case Loop(off) => PutU32(off)
    case PushI32(v) => PutU32(v)
    case Range(rs) => PutU16(|rs|) + Pairs16(rs)
    case Range32(rs) => PutU16(|rs|) + Pairs32(rs)
    case Lookahead(off) => PutU32(off)
    case NegativeLookahead(off) => PutU32(off)
    case BneCharPos(off) => PutU32(off)
    case Greedy(next, min, max, count) => PutU32(next) + PutU32(min) + PutU32(max) + PutU32(count)
    case _ => []
  }

  /** The byte image of an instruction. */
  function Enc(i: Insn): (b: seq<u8>)
    ensures |b| == ISize(i)
  {
    [Opcode(i)] + Operands(i)
  }

  function GetPairs16(code: seq<u8>, p: nat, n: nat): (rs: seq<(int, int)>)
    requires p + 4 * n <= |code|
    ensures |rs| == n
    decreases n
  {
    if n == 0 then [] else [(GetU16(code, p), GetU16(code, p + 2))] + GetPairs16(code, p + 4, n - 1)
  }

  function GetPairs32(code: seq<u8>, p: nat, n: nat): (rs: seq<(int, int)>)
    requires p + 8 * n <= |code|
    ensures |rs| == n
    decreases n
  {
    if n == 0 then [] else [(GetU32(code, p), GetU32(code, p + 4))] + GetPairs32(code, p + 8, n - 1)
  }

  /** The signed 32-bit operand at p. */
  function GetI32(code: seq<u8>, p: nat): int
    requires p + 4 <= |code|
  {
    ToI32(GetU32(code, p))
  }

  /** The instruction at pc: None outside the program, for a class without ranges and for an
      opcode this model has no instruction for (invalid, the two back references). */
  function Decode(code: seq<u8>, pc: int): Option<Insn>
  {
    if !(0 <= pc < |code|) then None
    else
      var op := code[pc];
      var avail := |code| - pc;
      if op == 1 then if avail < 3 then None else Some(Char(GetU16(code, pc + 1)))
      else if op == 2 then if avail < 5 then None else Some(Char32(GetU32(code, pc + 1)))
      else if op == 3 then Some(Dot)
      else if op == 4 then Some(Any)
      else if op == 5 then Some(LineStart)
      else if op == 6 then Some(LineEnd)
      else if op == 7 then if avail < 5 then None else Some(Goto(GetI32(code, pc + 1)))
      else if op == 8 then if avail < 5 then None else Some(SplitGotoFirst(GetI32(code, pc + 1)))
      else if op == 9 then if avail < 5 then None else Some(SplitNextFirst(GetI32(code, pc + 1)))
      else if op == 10 then Some(Match)
      else if op == 11 then if avail < 2 then None else Some(SaveStart(code[pc + 1]))
      else if op == 12 then if avail < 2 then None else Some(SaveEnd(code[pc + 1]))
      else if op == 13 then if avail < 3 then None else Some(SaveReset(code[pc + 1], code[pc + 2]))
      else if op == 14 then if avail < 5 then None else Some(Loop(GetI32(code, pc + 1)))
      else if op == 15 then if avail < 5 then None else Some(PushI32(GetU32(code, pc + 1)))
      else if op == 16 then Some(Drop)
      else if op == 17 then Some(WordBoundary)
      else if op == 18 then Some(NotWordBoundary)
      else if op == 21 || op == 22 then
        if avail < 3 then None
        else
          var n := GetU16(code, pc + 1);
          if n == 0 || avail < 3 + (if op == 21 then 4 else 8) * n then None
          else if op == 21 then Some(Range(GetPairs16(code, pc + 3, n)))
          else Some(Range32(GetPairs32(code, pc + 3, n)))
      else if op == 23 then if avail < 5 then None else Some(Lookahead(GetI32(code, pc + 1)))
      else if op == 24 then if avail < 5 then None else Some(NegativeLookahead(GetI32(code, pc + 1)))
      else if op == 25 then Some(PushCharPos)
      else if op == 26 then if avail < 5 then None else Some(BneCharPos(GetI32(code, pc + 1)))
      else if op == 27 then Some(Prev)
      else if op == 28 then
        if avail < 17 then None
        else Some(Greedy(GetI32(code, pc + 1), GetU32(code, pc + 5), GetU32(code, pc + 9), GetU32(code, pc + 13)))
      else None
  }

  lemma DecodedRange(code: seq<u8>, pc: int)
    ensures Decode(code, pc).Some? && (Decode(code, pc).value.Range? || Decode(code, pc).value.Range32?) ==>
              Decode(code, pc).value.rs != []
  {
    hide GetU32, GetI32;
  }

  /** The code bytes at pc begin with b. */
  predicate BytesAt(code: seq<u8>, pc: nat, b: seq<u8>) {
    pc + |b| <= |code| && code[pc..pc + |b|] == b
  }

  lemma BytesAtSplit(code: seq<u8>, pc: nat, a: seq<u8>, b: seq<u8>)
    requires BytesAt(code, pc, a + b)
    ensures BytesAt(code, pc, a) && BytesAt(code, pc + |a|, b)
  {
    var s := code[pc..pc + |a + b|];
    assert code[pc..pc + |a|] == s[..|a|] == a;
    assert code[pc + |a|..pc + |a| + |b|] == s[|a|..] == b;
  }

  lemma {:induction false} Pairs16RoundTrip(rs: seq<(int, int)>, code: seq<u8>, p: nat)
    requires forall k | 0 <= k < |rs| :: IsU16(rs[k].0) && IsU16(rs[k].1)
    requires BytesAt(code, p, Pairs16(rs))
    ensures GetPairs16(code, p, |rs|) == rs
  {
    if rs != [] {
      var lo, hi, rest := PutU16(rs[0].0), PutU16(rs[0].1), Pairs16(rs[1..]);
      assert Pairs16(rs) == lo + (hi + rest);
      BytesAtSplit(code, p, lo, hi + rest);
      BytesAtSplit(code, p + 2, hi, rest);
      U16RoundTrip(rs[0].0, code, p);
      U16RoundTrip(rs[0].1, code, p + 2);
      Pairs16RoundTrip(rs[1..], code, p + 4);
    }
  }

  lemma {:induction false} Pairs32RoundTrip(rs: seq<(int, int)>, code: seq<u8>, p: nat)
    requires forall k | 0 <= k < |rs| :: IsU32(rs[k].0) && IsU32(rs[k].1)
    requires BytesAt(code, p, Pairs32(rs))
    ensures GetPairs32(code, p, |rs|) == rs
  {
    if rs != [] {
      var lo, hi, rest := PutU32(rs[0].0), PutU32(rs[0].1), Pairs32(rs[1..]);
      assert Pairs32(rs) == lo + (hi + rest);
      BytesAtSplit(code, p, lo, hi + rest);
      BytesAtSplit(code, p + 4, hi, rest);
      U32RoundTrip(rs[0].0, code, p);
      U32RoundTrip(rs[0].1, code, p + 4);
      Pairs32RoundTrip(rs[1..], code, p + 8);
    }
  }

  lemma OperandAt(code: seq<u8>, pc: nat, op: u8, x: int)
    requires BytesAt(code, pc, [op] + PutU32(x))
    ensures code[pc] == op && GetU32(code, pc + 1) == ToU32(x)
    ensures IsU32(x) ==> GetU32(code, pc + 1) == x
    ensures IsI32(x) ==> GetI32(code, pc + 1) == x
  {
    BytesAtSplit(code, pc, [op], PutU32(x));
    U32RoundTrip(x, code, pc + 1);
  }

  lemma DecodeGreedy(i: Insn, code: seq<u8>, pc: nat)
    requires i.Greedy? && Encodable(i) && BytesAt(code, pc, Enc(i))
    ensures Decode(code, pc) == Some(i)
  {
    var n, lo, hi, ct := PutU32(i.next), PutU32(i.min), PutU32(i.max), PutU32(i.count);
    Lists.Assoc(n + lo, hi, ct);
    Lists.Assoc(n, lo, hi + ct);
    assert Enc(i) == ([28] + n) + (lo + (hi + ct));
    BytesAtSplit(code, pc, [28] + n, lo + (hi + ct));
    BytesAtSplit(code, pc + 5, lo, hi + ct);
    BytesAtSplit(code, pc + 9, hi, ct);
    OperandAt(code, pc, 28, i.next);
    U32RoundTrip(i.min, code, pc + 5);
    U32RoundTrip(i.max, code, pc + 9);
    U32RoundTrip(i.count, code, pc + 13);
  }

  lemma DecodeRangeAt(code: seq<u8>, pc: nat, n: nat)
    requires n > 0 && pc + 3 + 4 * n <= |code| && code[pc] == 21 && GetU16(code, pc + 1) == n
    ensures Decode(code, pc) == Some(Range(GetPairs16(code, pc + 3, n)))
  {
    hide GetPairs16, GetPairs32, GetU32;
  }

  lemma DecodeRange(rs: seq<(int, int)>, code: seq<u8>, pc: nat)
    requires Encodable(Range(rs)) && BytesAt(code, pc, Enc(Range(rs)))
    ensures Decode(code, pc) == Some(Range(rs))
  {
    hide Decode, GetU16, GetPairs16, Pairs16;
    var n, ps := PutU16(|rs|), Pairs16(rs);
    BytesAtSplit(code, pc, [21], n + ps);
    BytesAtSplit(code, pc + 1, n, ps);
    assert code[pc] == code[pc..pc + 1][0] == 21;
    U16RoundTrip(|rs|, code, pc + 1);
    Pairs16RoundTrip(rs, code, pc + 3);
    DecodeRangeAt(code, pc, |rs|);
  }

  lemma DecodeRange32At(code: seq<u8>, pc: nat, n: nat)
    requires n > 0 && pc + 3 + 8 * n <= |code| && code[pc] == 22 && GetU16(code, pc + 1) == n
    ensures Decode(code, pc) == Some(Range32(GetPairs32(code, pc + 3, n)))
  {
    hide GetPairs16, GetPairs32, GetU32;
  }

  lemma DecodeRange32(rs: seq<(int, int)>, code: seq<u8>, pc: nat)
    requires Encodable(Range32(rs)) && BytesAt(code, pc, Enc(Range32(rs)))
    ensures Decode(code, pc) == Some(Range32(rs))
  {
    hide Decode, GetU16, GetPairs32, Pairs32;
    var n, ps := PutU16(|rs|), Pairs32(rs);
    BytesAtSplit(code, pc, [22], n + ps);
    BytesAtSplit(code, pc + 1, n, ps);
    assert code[pc] == code[pc..pc + 1][0] == 22;
    U16RoundTrip(|rs|, code, pc + 1);
    Pairs32RoundTrip(rs, code, pc + 3);
    DecodeRange32At(code, pc, |rs|);
  }

  /** Instructions of one, two or three bytes. */
  lemma DecodeSmall(i: Insn, code: seq<u8>, pc: nat)
    requires Encodable(i) && BytesAt(code, pc, Enc(i)) && ISize(i) <= 3 && !i.Range? && !i.Range32? && !i.Char?
    ensures Decode(code, pc) == Some(i)
  {
    var b := Enc(i);
    assert code[pc] == code[pc..pc + |b|][0] == b[0];
    if |b| > 1 { assert code[pc + 1] == code[pc..pc + |b|][1] == b[1]; }
    if |b| > 2 { assert code[pc + 2] == code[pc..pc + |b|][2] == b[2]; }
  }

  lemma DecodeChar(c: int, code: seq<u8>, pc: nat)
    requires IsU16(c) && BytesAt(code, pc, Enc(Char(c)))
    ensures Decode(code, pc) == Some(Char(c))
  {
    BytesAtSplit(code, pc, [1], PutU16(c));
    assert code[pc] == 1;
    U16RoundTrip(c, code, pc + 1);
  }

  /** Instructions with one 32-bit operand. */
  lemma DecodeWord(i: Insn, op: u8, x: int, code: seq<u8>, pc: nat)
    requires Encodable(i) && Enc(i) == [op] + PutU32(x) && BytesAt(code, pc, Enc(i))
    requires (i == Char32(x) && op == 2) || (i == Goto(x) && op == 7) || (i == SplitGotoFirst(x) && op == 8)
          || (i == SplitNextFirst(x) && op == 9) || (i == Loop(x) && op == 14) || (i == PushI32(x) && op == 15)
          || (i == Lookahead(x) && op == 23) || (i == NegativeLookahead(x) && op == 24)
              || (i == BneCharPos(x) && op == 26)
    ensures Decode(code, pc) == Some(i)
  {
    OperandAt(code, pc, op, x);
  }

  /** Decoding an encoded instruction gives it back, wherever it stands in the program. */
  lemma DecodeEnc(i: Insn, code: seq<u8>, pc: nat)
    requires Encodable(i) && BytesAt(code, pc, Enc(i))
    ensures Decode(code, pc) == Some(i)
  {
    hide Decode, BytesAt, GetI32;
    match i
    case Range(rs) => DecodeRange(rs, code, pc);
    case Range32(rs) => DecodeRange32(rs, code, pc);
    case Greedy(_, _, _, _) => DecodeGreedy(i, code, pc);
    case Char(c) => DecodeChar(c, code, pc);
    case Char32(c) => DecodeWord(i, 2, c, code, pc);
    case Goto(off) => DecodeWord(i, 7, off, code, pc);
    case SplitGotoFirst(off) => DecodeWord(i, 8, off, code, pc);
    case SplitNextFirst(off) => DecodeWord(i, 9, off, code, pc);
    case Loop(off) => DecodeWord(i, 14, off, code, pc);
    case PushI32(v) => DecodeWord(i, 15, v, code, pc);
    case Lookahead(off) => DecodeWord(i, 23, off, code, pc);
    case NegativeLookahead(off) => DecodeWord(i, 24, off, code, pc);
    case BneCharPos(off) => DecodeWord(i, 26, off, code, pc);
    case _ => DecodeSmall(i, code, pc);
  }

  /** Size and byte image of an instruction list. */
  function Size(prog: seq<Insn>): nat {
    if prog == [] then 0 else ISize(prog[0]) + Size(prog[1..])
  }

  function Asm(prog: seq<Insn>): (b: seq<u8>)
    ensures |b| == Size(prog)
  {
    if prog == [] then [] else Enc(prog[0]) + Asm(prog[1..])
  }

  predicate AllEncodable(prog: seq<Insn>) {
    forall i | i in prog :: Encodable(i)
  }

  lemma {:induction false} AsmConcat(a: seq<Insn>, b: seq<Insn>)
    ensures Size(a + b) == Size(a) + Size(b)
    ensures Asm(a + b) == Asm(a) + Asm(b)
  {
    if a == [] {
      assert a + b == b;
    } else {
      assert (a + b)[1..] == a[1..] + b;
      AsmConcat(a[1..], b);
    }
  }

  /** Decoding from pc onwards meets exactly the instructions of prog. */
  ghost predicate Has(code: seq<u8>, pc: int, prog: seq<Insn>)
    decreases |prog|
  {
    prog == [] ||
    (Decode(code, pc) == Some(prog[0]) && Has(code, pc + ISize(prog[0]), prog[1..]))
  }

  lemma {:induction false} HasSplit(code: seq<u8>, pc: int, a: seq<Insn>, b: seq<Insn>)
    requires Has(code, pc, a + b)
    ensures Has(code, pc, a) && Has(code, pc + Size(a), b)
    decreases |a|
  {
    hide Decode, ISize;
    if a == [] {
      assert a + b == b;
    } else {
      assert (a + b)[1..] == a[1..] + b;
      HasSplit(code, pc + ISize(a[0]), a[1..], b);
    }
  }

  /** An assembled program decodes to the instructions it was assembled from. */
  lemma {:induction false} AsmHas(code: seq<u8>, pc: nat, prog: seq<Insn>)
    requires AllEncodable(prog) && BytesAt(code, pc, Asm(prog))
    ensures Has(code, pc, prog)
    decreases |prog|
  {
    hide Decode, Enc, Encodable, BytesAt;
    if prog != [] {
      BytesAtSplit(code, pc, Enc(prog[0]), Asm(prog[1..]));
      DecodeEnc(prog[0], code, pc);
      AsmHas(code, pc + ISize(prog[0]), prog[1..]);
    }
  }
}
