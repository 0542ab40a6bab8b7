/** The instructions generated for a regular expression, term by term, and the linear scans
    the generator makes over generated code. */
module RegexCompile {
  import opened Bytes
  import opened RegexSyntax
  import opened RegexCode
  import opened RegexRange
  import opened RegexVM

  /** re_is_simple_quantifier: the number of character instructions in code made of character
      and assertion instructions only, -1 for any other code. */
  function SimpleCount(prog: seq<Insn>): int {
    if prog == [] then 0
    else
      var rest := SimpleCount(prog[1..]);
      if rest < 0 then -1
      else if IsCharInsn(prog[0]) then 1 + rest
      else if IsAssertInsn(prog[0]) then rest
      else -1
  }

  /** re_check_advance looks for the first instruction that settles whether the code always
      consumes a character; these do not settle it. */
  predicate Neutral(i: Insn) {
    IsAssertInsn(i) || i.PushI32? || i.PushCharPos? || i.Drop? || i.Prev? || i.SaveStart? || i.SaveEnd? || i.SaveReset?
  }

  /** re_check_advance on code without back references. */
  predicate ChecksAdvance(prog: seq<Insn>) {
    prog != [] && (IsCharInsn(prog[0]) || (Neutral(prog[0]) && ChecksAdvance(prog[1..])))
  }

  /** Effect of an instruction on the height of the operand stack. */
  function Delta(i: Insn): int {
    if i.PushI32? || i.PushCharPos? then 1 else if i.Drop? || i.BneCharPos? then -1 else 0
  }

  /** compute_stack_size: the height and the greatest height after a linear scan. */
  function Height(prog: seq<Insn>, h: int): int {
    if prog == [] then h
    else Height(prog[1..], h + Delta(prog[0]))
  }

  function MaxHeight(prog: seq<Insn>, h: int): (top: int)
    ensures top >= h
  {
    if prog == [] then h
    else
      var top := MaxHeight(prog[1..], h + Delta(prog[0]));
      if top < h then h else top
  }

  /** The split that tries the loop body first when greedy, the exit first when lazy: the body
      follows the split. */
  function SplitBody(greedy: bool, off: int): Insn {
    if greedy then SplitNextFirst(off) else SplitGotoFirst(off)
  }

  /** The split at the end of a body that jumps back to it. */
  function SplitBack(greedy: bool, off: int): Insn {
    if greedy then SplitGotoFirst(off) else SplitNextFirst(off)
  }

  /** A single character, with the steps back that reverse matching adds. */
  function Directed(i: Insn, back: bool): seq<Insn> {
    if back then [Prev, i, Prev] else [i]
  }

  function CharInsn(env: Env, c: int): Insn {
    var k := if 0 <= c <= 0x10_ffff then Canon(env, c) else 0;
    if k <= 0xffff then Char(k) else Char32(k)
  }

  /** The unbounded loop around code A: split, body, jump back; with the check that ends the
      loop after an empty turn. */
  function StarCode(A: seq<Insn>, greedy: bool, check: bool): seq<Insn> {
    var len, k := Size(A), if check then 1 else 0;
    [SplitBody(greedy, len + 5 + k)] +
    ((if check then [PushCharPos] else []) +
     (A + [if check then BneCharPos(-(len + 10 + k)) else Goto(-(len + 10))]))
  }

  /** At most n turns of A. */
  function UpToCode(A: seq<Insn>, greedy: bool, n: int): seq<Insn> {
    [PushI32(n)] + LoopCode(A, greedy)
  }

  function LoopCode(A: seq<Insn>, greedy: bool): seq<Insn> {
    [SplitBody(greedy, Size(A) + 5)] + (A + [Loop(-(Size(A) + 10)), Drop])
  }

  /** Exactly n > 1 turns of A. */
  function TimesCode(A: seq<Insn>, n: int): seq<Insn> {
    [PushI32(n)] + (A + [Loop(-(Size(A) + 5)), Drop])
  }

  /** The registers of the atom are unset in case it is not executed. */
  function ResetCode(cc: nat, n: nat): seq<Insn> {
    if n > 0 then [SaveReset(cc, cc + n - 1)] else []
  }

  /** At most max turns, for a quantifier that starts at zero. */
  function ZeroCode(A: seq<Insn>, max: int, greedy: bool, check: bool): seq<Insn> {
    if max == 0 then []
    else if max == 1 then [SplitBody(greedy, Size(A))] + A
    else if max == INT32_MAX then StarCode(A, greedy, check)
    else UpToCode(A, greedy, max)
  }

  /** The first min > 0 turns. */
  function MinCode(A: seq<Insn>, min: int): seq<Insn> {
    if min == 1 then A else TimesCode(A, min)
  }

  /** The turns beyond the first min > 0. */
  function RestCode(A: seq<Insn>, min: int, max: int, greedy: bool, check: bool): seq<Insn> {
    if max == INT32_MAX then StarCode(A, greedy, check)
    else if max > min then UpToCode(A, greedy, max - min)
    else []
  }

  predicate IsSimple(A: seq<Insn>, max: int, greedy: bool) {
    greedy && max > 0 && SimpleCount(A) > 0
  }

  function GreedyInsn(A: seq<Insn>, min: int, max: int): Insn {
    Greedy(Size(A) + 1, min, max, SimpleCount(A))
  }

  /** Code for a quantified atom whose code is A; cc and n are the first capture of the atom and
      the number of its captures. */
  function QuantCode(A: seq<Insn>, cc: nat, n: nat, min: int, max: int, greedy: bool): seq<Insn> {
    var check := greedy && !ChecksAdvance(A);
    if IsSimple(A, max, greedy) then [GreedyInsn(A, min, max)] + (A + [Match])
    else if min == 0 then ResetCode(cc, n) + ZeroCode(A, max, greedy, check)
    else if min == 1 && max == INT32_MAX && !check then A + [SplitBack(greedy, -(Size(A) + 5))]
    else MinCode(A, min) + RestCode(A, min, max, greedy, check)
  }

  /** The code of a regular expression whose first capture has number cc. */
  function Compile(env: Env, re: Re, cc: nat, back: bool): seq<Insn> {
    match re
    case Empty => []
    case Chr(c) => Directed(CharInsn(env, c), back)
    case AnyChar => Directed(Any, back)
    case DotChar => Directed(if env.dotAll then Any else Dot, back)
    case Class(pts) => Directed(ClassInsn(pts), back)
    case Bol => [LineStart]
    case Eol => [LineEnd]
    case WordB(neg) => [if neg then NotWordBoundary else WordBoundary]
    case Cat(l, r) =>
      if back then Compile(env, r, cc + NCap(l), back) + Compile(env, l, cc, back)
      else Compile(env, l, cc, back) + Compile(env, r, cc + NCap(l), back)
    case Alt(l, r) =>
      var A, B := Compile(env, l, cc, back), Compile(env, r, cc + NCap(l), back);
      [SplitNextFirst(Size(A) + 5)] + (A + ([Goto(Size(B))] + B))
    case Capture(b) =>
      var A := Compile(env, b, cc + 1, back);
      if back then [SaveEnd(cc)] + (A + [SaveStart(cc)]) else [SaveStart(cc)] + (A + [SaveEnd(cc)])
    case Look(neg, behind, b) =>
      var A := Compile(env, b, cc, behind);
      [if neg then NegativeLookahead(Size(A) + 1) else Lookahead(Size(A) + 1)] + (A + [Match])
    case Quant(a, min, max, greedy) =>
      QuantCode(Compile(env, a, cc, back), cc, NCap(a), min, max, greedy)
  }

  /** The whole program: unless sticky, a lazy loop over all starting positions around
      capture 0, then Match. */
  function Whole(env: Env, re: Re): Re {
    if env.sticky then Capture(re) else Cat(Quant(AnyChar, 0, INT32_MAX, false), Capture(re))
  }

  function Program(env: Env, re: Re): seq<Insn> {
    Compile(env, Whole(env, re), 0, false) + [Match]
  }
}
