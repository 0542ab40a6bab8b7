/** lre_compile and lre_exec: the bytecode image with its header, and its execution. */
module RegexApi {
  import opened Bytes
  import opened RegexSyntax
  import opened RegexText
  import opened RegexCode
  import opened RegexMatch
  import opened RegexVM
  import opened RegexCompile
  import opened RegexShape
  import opened RegexMain
  import opened RegexEmit
  import opened RegexExec
  import opened RegexTrace
  import Lists

  /** Flag bits: 1 ignore case, 2 multi-line, 3 dot-all, 4 UTF-16, 5 sticky. */
  function EnvOf(flags: u8, conv: cp -> cp): Env {
    Env(flags / 2 % 2 == 1, flags / 8 % 2 == 1, flags / 4 % 2 == 1, flags / 16 % 2 == 1, flags / 32 % 2 == 1, conv)
  }

  /** A flag's bit. */
  function Bit(on: bool, value: nat): nat { if on then value else 0 }

  /** LRE_FLAG_GLOBAL is 1, IGNORECASE 2, MULTILINE 4, DOTALL 8, UTF16 16, STICKY 32, NAMED_GROUPS 128; the first
      and the last change nothing here. */
  lemma FlagBits(global: bool, icase: bool, multi: bool, dot: bool, utf16: bool, sticky: bool, named: bool,
                 conv: cp -> cp)
    ensures var flags := Bit(global, 1) + Bit(icase, 2) + Bit(multi, 4) + Bit(dot, 8) + Bit(utf16, 16) + Bit(sticky, 32)
        + Bit(named, 128);
      flags < 0x100 && EnvOf(flags, conv) == Env(icase, dot, multi, utf16, sticky, conv)
  {
  }

  datatype Compiled = Bytecode(code: seq<u8>) | Failure(error: Error)

  const HEADER_LEN := 7

  /** flags, number of captures, operand-stack size, code length. */
  function Header(flags: u8, captures: u8, stackSize: u8, len: int): (h: seq<u8>)
    ensures |h| == HEADER_LEN
  {
    [flags, captures, stackSize] + PutU32(len)
  }

  /** What compiling re must produce. */
  function Image(re: Re, flags: u8, conv: cp -> cp): Compiled {
    var env := EnvOf(flags, conv);
    var prog := Program(env, re);
    match Check(re, 1)
    case Fault(e) => Failure(e)
    case Pass =>
      if MaxHeight(prog, 0) > 255 then Failure(TooManyImbricatedQuantifiers)
      else CheckCaptures(re, 1); Bytecode(Header(flags, 1 + NCap(re), MaxHeight(prog, 0), Size(prog)) + Asm(prog))
  }

  /** The loop over all starting positions, as it is emitted. */
  const Search: seq<Insn> := [SplitGotoFirst(6), Any, Goto(-11)]

  lemma SearchCode(env: Env)
    ensures Compile(env, Quant(AnyChar, 0, INT32_MAX, false), 0, false) == Search
  {
    hide Size;
    assert Size([Any]) == 1 by { OneSize(); }
    var A := Compile(env, AnyChar, 0, false);
    assert A == [Any];
    var star := StarCode(A, false, false);
    assert star == Search;
    assert QuantCode(A, 0, 0, 0, INT32_MAX, false) == [] + star;
  }

  lemma ProgramCode(env: Env, re: Re)
    ensures var A := Compile(env, re, 1, false);
      Program(env, re) == (if env.sticky then [] else Search) + ([SaveStart(0)] + (A + [SaveEnd(0)])) + [Match]
  {
    hide Size, QuantCode;
    SearchCode(env);
    var B := [SaveStart(0)] + (Compile(env, re, 1, false) + [SaveEnd(0)]);
    assert Compile(env, Capture(re), 0, false) == B;
    if env.sticky { assert [] + B == B; }
  }

  lemma OneSize()
    ensures Size([Any]) == 1
  {
    assert [Any][1..] == [];
  }

  lemma ProgramEncodable(env: Env, re: Re)
    requires Wf(re) && Check(re, 1).Pass? && Fits(env, Whole(env, re), 0, false)
    ensures AllEncodable(Program(env, re))
  {
    hide AllEncodable, Compile;
    CompileEncodable(env, Whole(env, re), 0, false);
    EncodableConcat(Compile(env, Whole(env, re), 0, false), [Match]);
    assert AllEncodable([Match]) by { OneEncodable(Match); }
  }

  lemma SearchBytes()
    ensures Asm(Search) == Enc(SplitGotoFirst(6)) + Enc(Any) + Enc(Goto(-11))
  {
    hide Enc, Asm;
    AsmOne(SplitGotoFirst(6));
    AsmLast([SplitGotoFirst(6)], Any);
    AsmLast([SplitGotoFirst(6)] + [Any], Goto(-11));
    assert Search == [SplitGotoFirst(6)] + [Any] + [Goto(-11)];
  }

  /** The bytes emitted before, by and after the expression make up the program. */
  lemma ProgramBytes(env: Env, re: Re)
    ensures var pre := if env.sticky then [] else Enc(SplitGotoFirst(6)) + Enc(Any) + Enc(Goto(-11));
      Asm(Program(env, re)) ==
      pre + Enc(SaveStart(0)) + Asm(Compile(env, re, 1, false)) + Enc(SaveEnd(0)) + Enc(Match)
  {
    hide Enc, Asm, Compile, Size;
    var A := Compile(env, re, 1, false);
    var S := if env.sticky then [] else Search;
    var B := [SaveStart(0)] + (A + [SaveEnd(0)]);
    ProgramCode(env, re);
    AsmLast(S + B, Match);
    AsmConcat(S, B);
    AsmAround(SaveStart(0), A, SaveEnd(0));
    SearchBytes();
    AsmEmpty([]);
    Lists.FourLeft(Asm(S), Enc(SaveStart(0)), Asm(A), Enc(SaveEnd(0)));
  }

  lemma WholeFits(env: Env, re: Re)
    requires Fits(env, Whole(env, re), 0, false)
    ensures Fits(env, re, 1, false)
  {
    hide Compile, Size;
  }

  /** The code behind the header. */
  method EmitProgram(gen: Generator, re: Re) returns (r: Outcome)
    requires gen.Valid() && gen.captureCount == 1 && Wf(re) && Fits(gen.env, re, 1, false)
    modifies gen`captureCount, gen.code, gen.code.buf
    ensures gen.Valid() && (gen.code.buf == old(gen.code.buf) || fresh(gen.code.buf))
    ensures r == Check(re, 1)
    ensures r.Pass? ==>
        gen.captureCount == 1 + NCap(re) && gen.code.Contents() == old(gen.code.Contents())
        + Asm(Program(gen.env, re))
  {
    hide Enc, Asm, Compile, Check, Wf, Fits, NCap, Program;
    ghost var h0 := gen.code.Contents();
    ghost var pre := EmitSearch(gen);
    gen.Emit(SaveStart(0));
    r := gen.Gen(re, false);
    if r.Fault? { return; }
    gen.Emit(SaveEnd(0));
    gen.Emit(Match);
    ProgramBytes(gen.env, re);
    Lists.SixLeft(h0, pre, Enc(SaveStart(0)), Asm(Compile(gen.env, re, 1, false)), Enc(SaveEnd(0)), Enc(Match));
  }

  /** Unless sticky, try all starting positions. */
  method EmitSearch(gen: Generator) returns (ghost pre: seq<u8>)
    requires gen.Valid()
    modifies gen.code, gen.code.buf
    ensures gen.Valid() && (gen.code.buf == old(gen.code.buf) || fresh(gen.code.buf))
    ensures pre == if gen.env.sticky then [] else Enc(SplitGotoFirst(6)) + Enc(Any) + Enc(Goto(-11))
    ensures gen.code.Contents() == old(gen.code.Contents()) + pre
  {
    hide Enc;
    pre := [];
    ghost var h0 := gen.code.Contents();
    if !gen.env.sticky {
      gen.Emit(SplitGotoFirst(6));
      gen.Emit(Any);
      gen.Emit(Goto(-11));
      pre := Enc(SplitGotoFirst(6)) + Enc(Any) + Enc(Goto(-11));
      Lists.FourLeft(h0, Enc(SplitGotoFirst(6)), Enc(Any), Enc(Goto(-11)));
    }
  }

  /** lre_compile. Errors and bytecode are those of Image. */
  method LreCompile(re: Re, flags: u8, conv: cp -> cp) returns (r: Compiled)
    requires Wf(re) && Fits(EnvOf(flags, conv), Whole(EnvOf(flags, conv), re), 0, false)
    ensures r == Image(re, flags, conv)
  {
    hide Asm, Compile, Check, Wf, Fits, NCap, MaxHeight, Size, Program, AllEncodable, Whole;
    var env := EnvOf(flags, conv);
    WholeFits(env, re);
    var gen := new Generator(env);
    gen.code.Put(Header(flags, 0, 0, 0));
    assert gen.code.Contents() == Header(flags, 0, 0, 0);
    var ok := EmitProgram(gen, re);
    if ok.Fault? { return Failure(ok.error); }
    ghost var prog := Program(env, re);
    ProgramEncodable(env, re);
    Lists.Cut(Header(flags, 0, 0, 0), Asm(prog));
    var stackSize := ComputeStackSize(gen.code.buf[..gen.code.size], HEADER_LEN, prog);
    if stackSize < 0 { return Failure(TooManyImbricatedQuantifiers); }
    CheckCaptures(re, 1);
    AsmEmpty(prog);
    SetHeader(gen, flags, gen.captureCount, stackSize, Asm(prog));
    return Bytecode(gen.code.buf[..gen.code.size]);
  }

  /** The header fields known only at the end. */
  method SetHeader(gen: Generator, flags: u8, captures: u8, stackSize: u8, ghost body: seq<u8>)
    requires gen.Valid() && gen.code.Contents() == Header(flags, 0, 0, 0) + body
    modifies gen.code.buf
    ensures gen.Valid() && gen.code.Contents() == Header(flags, captures, stackSize, |body|) + body
  {
    var len := gen.code.size - HEADER_LEN;
    gen.code.PokeByte(1, captures);
    gen.code.PokeByte(2, stackSize);
    gen.code.Poke(3, len);
    assert gen.code.Contents() == Header(flags, captures, stackSize, len) + body;
  }

  /** The captures before the first match attempt. */
  function Unset(n: nat): (c: seq<int>)
    ensures |c| == n && forall i | 0 <= i < n :: c[i] == -1
  {
    seq(n, _ => -1)
  }

  /** The subject as the interpreter reads it. */
  function SubjectOf(env: Env, units: seq<u16>, wide: bool): Subject {
    Subject(env, Text(units, if !wide then Latin1 else if env.utf16 then Utf16 else Ucs2))
  }

  /** Subjects of 8-bit units are read unit by unit, those of 16-bit units in pairs if the flag for UTF-16 is
      set. */
  lemma SubjectWidth(env: Env, units: seq<u16>, wide: bool)
    ensures var x := SubjectOf(env, units, wide);
      x.env == env && x.text.units == units && (x.text.width == Utf16 <==> wide && env.utf16)
  {
  }

  /** lre_exec on bytecode compiled from re: a match is reported exactly when the expression has
      an outcome from cindex on, and the captures are those of the first one. */
  method LreExec(code: seq<u8>, units: seq<u16>, cindex: nat, wide: bool, conv: cp -> cp, capture: array<int>,
                 ghost re: Re)
    returns (ret: bool)
    requires |code| >= HEADER_LEN && Wf(re) && Image(re, code[0], conv) == Bytecode(code)
    requires Fits(EnvOf(code[0], conv), Whole(EnvOf(code[0], conv), re), 0, false)
    requires capture.Length == 2 * (code[1] as int)
    requires Boundary(SubjectOf(EnvOf(code[0], conv), units, wide).text, cindex)
    modifies capture
    ensures var env := EnvOf(code[0], conv);
      var outs := Outcomes(SubjectOf(env, units, wide), Whole(env, re), 0, false, St(cindex, Unset(capture.Length)));
      ret == (outs != []) && (ret ==> capture[..] == outs[0].caps)
  {
    hide Enc, Asm, Compile, Check, Wf, Fits, NCap, MaxHeight, Size, Program, AllEncodable, Outcomes, Steps, Whole,
        Image;
    var env := EnvOf(code[0], conv);
    var x := SubjectOf(env, units, wide);
    var m := Machine(x, code, code[1], code[2]);
    ImageLoaded(m, re, conv);
    for i := 0 to capture.Length
      invariant forall k | 0 <= k < i :: capture[k] == -1
    {
      capture[i] := -1;
    }
    assert capture[..] == Unset(capture.Length);
    ghost var s := St(cindex, Unset(capture.Length));
    CompiledProgramCorrect(m, re, HEADER_LEN, s);
    var ctx := new Context(m, capture, HEADER_LEN, cindex);
    assert ctx.State() == Run(At(HEADER_LEN, [], s), []);
    ghost var n: nat :| Steps(m, n, Run(At(HEADER_LEN, [], s), [])) == Expected(x, re, s);
    ret := ctx.Backtrack(n, Expected(x, re, s));
  }

  /** A compiled image loads into a machine with the header's parameters. */
  lemma ImageLoaded(m: Machine, re: Re, conv: cp -> cp)
    requires |m.code| >= HEADER_LEN && Wf(re) && Image(re, m.code[0], conv) == Bytecode(m.code)
    requires Fits(m.x.env, Whole(m.x.env, re), 0, false)
    requires m.x.env == EnvOf(m.code[0], conv) && m.ncap == m.code[1] && m.stackMax == m.code[2]
    ensures Loaded(m, re, HEADER_LEN)
  {
    hide Enc, Asm, Compile, Check, Wf, Fits, NCap, MaxHeight, Size, Program, AllEncodable, Whole;
    var env := m.x.env;
    var prog := Program(env, re);
    CheckCaptures(re, 1);
    var h := Header(m.code[0], 1 + NCap(re), MaxHeight(prog, 0), Size(prog));
    assert m.code == h + Asm(prog);
    assert m.code[0] == h[0] && m.code[1] == h[1] && m.code[2] == h[2];
    Lists.Cut(h, Asm(prog));
    ProgramEncodable(env, re);
    assert BytesAt(m.code, HEADER_LEN, Asm(prog));
  }
}
