/** Execution of whole compiled programs. */
module RegexMain {
  import opened Options
  import opened Bytes
  import opened RegexSyntax
  import opened RegexCode
  import opened RegexMatch
  import opened RegexVM
  import opened RegexCompile
  import opened RegexShape
  import opened RegexTrace
  import opened RegexSim
  import opened RegexGreedy
  import opened RegexCorrect

  /** Code sizes are ints in the generator: the code of every sub-expression stays below 2^31. */
  predicate Fits(env: Env, re: Re, cc: nat, back: bool) {
    Size(Compile(env, re, cc, back)) < 0x7fff_fff0 &&
    match re
    case Cat(l, r) => Fits(env, l, cc, back) && Fits(env, r, cc + NCap(l), back)
    case Alt(l, r) => Fits(env, l, cc, back) && Fits(env, r, cc + NCap(l), back)
    case Capture(b) => Fits(env, b, cc + 1, back)
    case Look(_, behind, b) => Fits(env, b, cc, behind)
    case Quant(a, _, _, _) => Fits(env, a, cc, back)
    case _ => true
  }

  lemma OneEncodable(i: Insn)
    requires Encodable(i)
    ensures AllEncodable([i])
  {
  }

  lemma StarEncodable(A: seq<Insn>, greedy: bool, check: bool)
    requires AllEncodable(A) && Size(A) < 0x7fff_fff0
    ensures AllEncodable(StarCode(A, greedy, check))
  {
    hide Size;
    var len: int, k: int := Size(A), if check then 1 else 0;
    var mid: seq<Insn> := if check then [PushCharPos] else [];
    var last := if check then BneCharPos(-(len + 10 + k)) else Goto(-(len + 10));
    EncodableConcat(A, [last]);
    EncodableConcat(mid, A + [last]);
    EncodableConcat([SplitBody(greedy, len + 5 + k)], mid + (A + [last]));
  }

  lemma CountedEncodable(A: seq<Insn>, greedy: bool, n: int)
    requires AllEncodable(A) && Size(A) < 0x7fff_fff0 && IsU32(n)
    ensures AllEncodable(UpToCode(A, greedy, n)) && AllEncodable(TimesCode(A, n))
  {
    var t1, t2 := [Loop(-(Size(A) as int + 10)), Drop], [Loop(-(Size(A) as int + 5)), Drop];
    assert AllEncodable(t1) && AllEncodable(t2);
    EncodableConcat(A, t1);
    EncodableConcat(A, t2);
    EncodableConcat([SplitBody(greedy, Size(A) + 5)], A + t1);
    EncodableConcat([PushI32(n)], LoopCode(A, greedy));
    EncodableConcat([PushI32(n)], A + t2);
  }

  lemma {:induction false} SimpleBound(A: seq<Insn>)
    ensures SimpleCount(A) <= Size(A)
  {
    if A != [] { SimpleBound(A[1..]); }
  }

  lemma QuantEncodable(A: seq<Insn>, cc: nat, n: nat, min: int, max: int, greedy: bool)
    requires AllEncodable(A) && Size(A) < 0x7fff_fff0 && cc + n <= 255 && 0 <= min <= max <= INT32_MAX
    ensures AllEncodable(QuantCode(A, cc, n, min, max, greedy))
  {
    hide Size, ChecksAdvance, SimpleCount, StarCode, UpToCode, TimesCode;
    var check := greedy && !ChecksAdvance(A);
    StarEncodable(A, greedy, check);
    if IsSimple(A, max, greedy) {
      SimpleBound(A);
      EncodableConcat(A, [Match]);
      EncodableConcat([GreedyInsn(A, min, max)], A + [Match]);
    } else if min == 0 {
      CountedEncodable(A, greedy, max);
      EncodableConcat([SplitBody(greedy, Size(A))], A);
      EncodableConcat(ResetCode(cc, n), ZeroCode(A, max, greedy, check));
    } else if min == 1 && max == INT32_MAX && !check {
      EncodableConcat(A, [SplitBack(greedy, -(Size(A) + 5))]);
    } else {
      CountedEncodable(A, greedy, min);
      CountedEncodable(A, greedy, max - min);
      EncodableConcat(MinCode(A, min), RestCode(A, min, max, greedy, check));
    }
  }

  lemma AltEncodable(A: seq<Insn>, B: seq<Insn>)
    requires AllEncodable(A) && AllEncodable(B) && Size(A) < 0x7fff_fff0 && Size(B) < 0x7fff_fff0
    ensures AllEncodable([SplitNextFirst(Size(A) + 5)] + (A + ([Goto(Size(B))] + B)))
  {
    EncodableConcat([Goto(Size(B))], B);
    EncodableConcat(A, [Goto(Size(B))] + B);
    EncodableConcat([SplitNextFirst(Size(A) + 5)], A + ([Goto(Size(B))] + B));
  }

  lemma AroundEncodable(i: Insn, A: seq<Insn>, j: Insn)
    requires Encodable(i) && Encodable(j) && AllEncodable(A)
    ensures AllEncodable([i] + (A + [j]))
  {
    EncodableConcat(A, [j]);
    EncodableConcat([i], A + [j]);
  }

  /** Every operand of generated code fits its field. */
  lemma {:induction false} CompileEncodable(env: Env, re: Re, cc: nat, back: bool)
    requires Wf(re) && cc <= 255 && Check(re, cc).Pass? && Fits(env, re, cc, back)
    ensures AllEncodable(Compile(env, re, cc, back))
  {
    hide Size, Compile, AllEncodable, Fits;
    CheckCaptures(re, cc);
    FitsParts(env, re, cc, back);
    if IsLeaf(re) {
      CharEncodable(env, re, cc, back);
    } else {
      match re
      case Cat(l, r) =>
        CheckCaptures(l, cc);
        CompileEncodable(env, l, cc, back);
        CompileEncodable(env, r, cc + NCap(l), back);
        PairEncodable(env, re, cc, back);
      case Alt(l, r) =>
        CheckCaptures(l, cc);
        CompileEncodable(env, l, cc, back);
        CompileEncodable(env, r, cc + NCap(l), back);
        PairEncodable(env, re, cc, back);
      case Capture(b) =>
        CompileEncodable(env, b, cc + 1, back);
        GroupEncodable(env, re, cc, back);
      case Look(_, behind, b) =>
        CompileEncodable(env, b, cc, behind);
        GroupEncodable(env, re, cc, back);
      case Quant(a, min, max, greedy) =>
        CompileEncodable(env, a, cc, back);
        QuantEncodable(Compile(env, a, cc, back), cc, NCap(a), min, max, greedy);
        QuantIs(env, re, cc, back);
    }
  }

  lemma FitsParts(env: Env, re: Re, cc: nat, back: bool)
    requires Fits(env, re, cc, back)
    ensures Size(Compile(env, re, cc, back)) < 0x7fff_fff0
    ensures re.Cat? || re.Alt? ==> Fits(env, re.l, cc, back) && Fits(env, re.r, cc + NCap(re.l), back)
    ensures re.Cat? || re.Alt? ==> Size(Compile(env, re.l, cc, back)) < 0x7fff_fff0
    ensures re.Cat? || re.Alt? ==> Size(Compile(env, re.r, cc + NCap(re.l), back)) < 0x7fff_fff0
    ensures re.Capture? ==> Fits(env, re.body, cc + 1, back)
    ensures re.Look? ==> Fits(env, re.body, cc, re.behind) && Size(Compile(env, re.body, cc, re.behind)) < 0x7fff_fff0
    ensures re.Quant? ==> Fits(env, re.atom, cc, back) && Size(Compile(env, re.atom, cc, back)) < 0x7fff_fff0
  {
    hide Size, Compile;
  }

  lemma QuantIs(env: Env, re: Re, cc: nat, back: bool)
    requires re.Quant?
    ensures Compile(env, re, cc, back) ==
      QuantCode(Compile(env, re.atom, cc, back), cc, NCap(re.atom), re.min, re.max, re.greedy)
  {
    hide QuantCode;
  }

  lemma PairEncodable(env: Env, re: Re, cc: nat, back: bool)
    requires re.Cat? || re.Alt?
    requires var (A, B) := (Compile(env, re.l, cc, back), Compile(env, re.r, cc + NCap(re.l), back));
      AllEncodable(A) && AllEncodable(B) && Size(A) < 0x7fff_fff0 && Size(B) < 0x7fff_fff0
    ensures AllEncodable(Compile(env, re, cc, back))
  {
    hide Size, AllEncodable;
    var (A, B) := (Compile(env, re.l, cc, back), Compile(env, re.r, cc + NCap(re.l), back));
    EncodableConcat(A, B);
    EncodableConcat(B, A);
    AltEncodable(A, B);
  }

  lemma GroupEncodable(env: Env, re: Re, cc: nat, back: bool)
    requires (re.Capture? && cc <= 254) || re.Look?
    requires var A := if re.Look? then Compile(env, re.body, cc, re.behind) else Compile(env, re.body, cc + 1, back);
      AllEncodable(A) && (re.Look? ==> Size(A) < 0x7fff_fff0)
    ensures AllEncodable(Compile(env, re, cc, back))
  {
    hide Size, AllEncodable;
    if re.Capture? {
      AroundEncodable(SaveStart(cc), Compile(env, re.body, cc + 1, back), SaveEnd(cc));
      AroundEncodable(SaveEnd(cc), Compile(env, re.body, cc + 1, back), SaveStart(cc));
    } else {
      var A := Compile(env, re.body, cc, re.behind);
      AroundEncodable(if re.neg then NegativeLookahead(Size(A) + 1) else Lookahead(Size(A) + 1), A, Match);
    }
  }

  // ---- execution

  /** A run that ends has one end. */
  lemma {:induction false} DoneStays(m: Machine, n: nat, c: Config)
    requires c.Done? || c.Crash?
    ensures Steps(m, n, c) == c
    decreases n
  {
    if n > 0 { DoneStays(m, n - 1, c); }
  }

  /** A run that ends in a result never crashes on the way. */
  lemma NeverCrashes(m: Machine, c: Config, d: Config, n: nat)
    requires Reaches(m, c, d) && d.Done?
    ensures Steps(m, n, c) != Crash
  {
    var k: nat :| Steps(m, k, c) == d;
    if n <= k {
      StepsAdd(m, n, k - n, c);
      if Steps(m, n, c) == Crash { DoneStays(m, k - n, Crash); }
    } else {
      StepsAdd(m, k, n - k, c);
      DoneStays(m, n - k, d);
    }
  }

  /** A run that yields outs in front of a match instruction ends with the first of them. */
  lemma YieldsResult(m: Machine, c: Config, pc: int, stk: seq<int>, outs: seq<St>)
    requires Yields(m, c, pc, stk, outs, []) && Decode(m.code, pc) == Some(Match)
    requires forall s | s in outs :: StOk(m.x, s)
    ensures Reaches(m, c, if outs == [] then Done(false, []) else Done(true, outs[0].caps))
  {
    hide Decode, Yields, StOk;
    var none: seq<Entry> := [];
    if outs == [] {
      YieldsNil(m, c, pc, stk, none);
      ReachesRefl(m, Done(false, []));
      ReachesStep(m, Fail(none), Done(false, []));
      ReachesTrans(m, c, Fail(none), Done(false, []));
    } else {
      var es := YieldsHead(m, c, pc, stk, outs, none);
      var d := Done(true, outs[0].caps);
      assert outs[0] in outs;
      StOkRange(m.x, outs[0]);
      StepExec(m, Match, At(pc, stk, outs[0]), none + es);
      UnwindSuccess(m, outs[0].caps, none, es);
      ReachesRefl(m, d);
      ReachesStep(m, Unwind(true, outs[0].caps, none), d);
      ReachesTrans(m, Unwind(true, outs[0].caps, none + es), Unwind(true, outs[0].caps, none), d);
      ReachesStep(m, Run(At(pc, stk, outs[0]), none + es), d);
      ReachesTrans(m, c, Run(At(pc, stk, outs[0]), none + es), d);
    }
  }

  /** A machine loaded with the program of re, from offset pc of its code on. */
  ghost predicate Loaded(m: Machine, re: Re, pc: nat) {
    && Wf(re) && m.ncap == 1 + NCap(re)
    && AllEncodable(Program(m.x.env, re))
    && BytesAt(m.code, pc, Asm(Program(m.x.env, re)))
    && m.stackMax >= MaxHeight(Program(m.x.env, re), 0)
  }

  /** What executing re from s must return. */
  function Expected(x: Subject, re: Re, s: St): Config {
    var outs := Outcomes(x, Whole(x.env, re), 0, false, s);
    if outs == [] then Done(false, []) else Done(true, outs[0].caps)
  }

  lemma WholeWf(env: Env, re: Re)
    requires Wf(re)
    ensures Wf(Whole(env, re)) && NCap(Whole(env, re)) == 1 + NCap(re)
  {
  }

  /** Executing the compiled program returns the first outcome of the expression, or no match
      when it has none. */
  lemma CompiledProgramCorrect(m: Machine, re: Re, pc: nat, s: St)
    requires Loaded(m, re, pc) && StOk(m.x, s)
    ensures Reaches(m, Run(At(pc, [], s), []), Expected(m.x, re, s))
  {
    hide Seg, Yields, Decode, Outcomes, Compile, Wf, Reaches, Level, MaxHeight;
    var w := Whole(m.x.env, re);
    var W := Compile(m.x.env, w, 0, false);
    var outs := Outcomes(m.x, w, 0, false, s);
    WholeWf(m.x.env, re);
    AsmHas(m.code, pc, W + [Match]);
    Balanced(m.x.env, w, 0, false);
    PlacedBody(m, pc, W, [Match], 0);
    PlacedOne(m, pc + Size(W), Match, 0);
    SimRe(m, w, 0, false, s, pc, []);
    SegAt(m, pc, [], pc + Size(W), [], s, outs, []);
    OutcomesOk(m.x, w, 0, false, s);
    AllOkElim(m.x, outs);
    YieldsResult(m, Run(At(pc, [], s), []), pc + Size(W), [], outs);
  }

  lemma SegAt(m: Machine, p: int, stk: seq<int>, q: int, stk': seq<int>, s: St, outs: seq<St>, bt: seq<Entry>)
    requires Seg(m, p, stk, q, stk', s, outs)
    ensures Yields(m, Run(At(p, stk, s), bt), q, stk', outs, bt)
  {
  }

  /** In every run of a compiled program the interpreter stays inside the program, the operand
      stack announced in its header and the capture registers: no number of steps crashes. */
  lemma CompiledProgramSafe(m: Machine, re: Re, pc: nat, s: St, n: nat)
    requires Loaded(m, re, pc) && StOk(m.x, s)
    ensures Steps(m, n, Run(At(pc, [], s), [])) != Crash
  {
    hide Outcomes, Compile, Wf, Reaches, MaxHeight, Size, Steps;
    CompiledProgramCorrect(m, re, pc, s);
    NeverCrashes(m, Run(At(pc, [], s), []), Expected(m.x, re, s), n);
  }
}
