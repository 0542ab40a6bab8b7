/** What the bytes of a compiled program look like to the interpreter, whatever the input: every
    jump leads to the start of an instruction of the program, and the operand stack is as high
    there as the generator's linear scan says, so that each instruction has one height. */
module RegexStatic {
  import opened Options
  import opened Bytes
  import opened RegexSyntax
  import opened RegexCode
  import opened RegexRange
  import opened RegexMatch
  import opened RegexVM
  import opened RegexCompile
  import opened RegexShape
  import opened RegexTrace
  import opened RegexMain
  import Lists

  /** The distance an instruction may jump, from its end. */
  function JumpOff(i: Insn): Option<int> {
    match i
    case Goto(off) => Some(off)
    case SplitGotoFirst(off) => Some(off)
    case SplitNextFirst(off) => Some(off)
    case Loop(off) => Some(off)
    case BneCharPos(off) => Some(off)
    case Lookahead(off) => Some(off)
    case NegativeLookahead(off) => Some(off)
    case Greedy(next, _, _, _) => Some(next)
    case _ => None
  }

  /** Where instruction k begins, and how high the operand stack is there by the linear scan. */
  function Place(P: seq<Insn>, k: nat): nat
    requires k <= |P|
  {
    Size(P[..k])
  }

  function Scan(P: seq<Insn>, k: nat): int
    requires k <= |P|
  {
    Height(P[..k], 0)
  }

  /** The jump of instruction i leads to the start of instruction k, at the same height as going
      on behind i. */
  ghost predicate Lands(P: seq<Insn>, i: nat, k: nat) {
    && i < |P| && k <= |P| && JumpOff(P[i]).Some?
    && Place(P, k) == Place(P, i + 1) + JumpOff(P[i]).value && Scan(P, k) == Scan(P, i + 1)
  }

  ghost predicate JumpsLand(P: seq<Insn>) {
    forall i: nat | i < |P| && JumpOff(P[i]).Some? :: exists k: nat :: Lands(P, i, k)
  }

  // ---- pieces of code

  lemma {:induction false} HeightAdd(s: seq<Insn>, h: int)
    ensures Height(s, h) == h + Height(s, 0)
    decreases |s|
  {
    if s != [] {
      HeightAdd(s[1..], h + Delta(s[0]));
      HeightAdd(s[1..], Delta(s[0]));
    }
  }

  lemma Prefix(a: seq<Insn>, P: seq<Insn>, b: seq<Insn>, k: nat)
    requires k <= |P|
    ensures Place(a + (P + b), |a| + k) == Size(a) + Place(P, k)
    ensures Scan(a + (P + b), |a| + k) == Height(a, 0) + Scan(P, k)
  {
    assert (a + (P + b))[..|a| + k] == a + P[..k];
    hide Size, Height;
    AsmConcat(a, P[..k]);
    HeightConcat(a, P[..k], 0);
    HeightAdd(P[..k], Height(a, 0));
  }

  lemma LandsShift(a: seq<Insn>, P: seq<Insn>, b: seq<Insn>, i: nat, k: nat)
    requires Lands(P, i, k)
    ensures Lands(a + (P + b), |a| + i, |a| + k)
  {
    hide Place, Scan, JumpOff;
    Prefix(a, P, b, k);
    Prefix(a, P, b, i + 1);
  }

  lemma PartLands(a: seq<Insn>, P: seq<Insn>, b: seq<Insn>, i: nat)
    requires JumpsLand(P) && |a| <= i < |a| + |P| && JumpOff((a + (P + b))[i]).Some?
    ensures exists k: nat :: Lands(a + (P + b), i, k)
  {
    hide Lands, JumpOff;
    assert (a + (P + b))[i] == P[i - |a|];
    var k: nat :| Lands(P, i - |a|, k);
    LandsShift(a, P, b, i - |a|, k);
    assert Lands(a + (P + b), i, |a| + k);
  }

  lemma JumpsConcat(a: seq<Insn>, b: seq<Insn>)
    requires JumpsLand(a) && JumpsLand(b)
    ensures JumpsLand(a + b)
  {
    hide Lands, JumpOff;
    forall i: nat | i < |a + b| && JumpOff((a + b)[i]).Some? ensures exists k: nat :: Lands(a + b, i, k) {
      if i < |a| {
        assert a + b == [] + (a + b);
        PartLands([], a, b, i);
      } else {
        assert a + b == a + (b + []);
        PartLands(a, b, [], i);
      }
    }
  }

  /** One more jump, between two pieces. */
  lemma JumpsInsert(a: seq<Insn>, x: Insn, b: seq<Insn>, k: nat)
    requires JumpsLand(a) && JumpsLand(b) && Lands(a + ([x] + b), |a|, k)
    ensures JumpsLand(a + ([x] + b))
  {
    hide Lands, JumpOff;
    var P := a + ([x] + b);
    forall i: nat | i < |P| && JumpOff(P[i]).Some? ensures exists j: nat :: Lands(P, i, j) {
      if i < |a| {
        assert P == [] + (a + ([x] + b));
        PartLands([], a, [x] + b, i);
      } else if i > |a| {
        assert P == (a + [x]) + (b + []);
        PartLands(a + [x], b, [], i);
      } else {
        assert Lands(P, i, k);
      }
    }
  }

  /** Two more jumps. */
  lemma JumpsTwo(a: seq<Insn>, x: Insn, b: seq<Insn>, y: Insn, c: seq<Insn>, k: nat, l: nat)
    requires JumpsLand(a) && JumpsLand(b) && JumpsLand(c)
    requires var P := a + ([x] + (b + ([y] + c))); Lands(P, |a|, k) && Lands(P, |a| + 1 + |b|, l)
    ensures JumpsLand(a + ([x] + (b + ([y] + c))))
  {
    hide Lands, JumpOff;
    var P := a + ([x] + (b + ([y] + c)));
    forall i: nat | i < |P| && JumpOff(P[i]).Some? ensures exists j: nat :: Lands(P, i, j) {
      if i < |a| {
        assert P == [] + (a + ([x] + (b + ([y] + c))));
        PartLands([], a, [x] + (b + ([y] + c)), i);
      } else if i == |a| {
        assert Lands(P, i, k);
      } else if i < |a| + 1 + |b| {
        assert P == (a + [x]) + (b + ([y] + c));
        PartLands(a + [x], b, [y] + c, i);
      } else if i == |a| + 1 + |b| {
        assert Lands(P, i, l);
      } else {
        assert P == (a + [x] + b + [y]) + (c + []);
        PartLands(a + [x] + b + [y], c, [], i);
      }
    }
  }

  ghost predicate NoJumps(P: seq<Insn>) { forall i | 0 <= i < |P| :: JumpOff(P[i]).None? }

  lemma StraightLands(P: seq<Insn>)
    requires NoJumps(P)
    ensures JumpsLand(P)
  {
  }

  /** Jump x behind a leads to where u ends. */
  lemma LandsAt(a: seq<Insn>, x: Insn, b: seq<Insn>, u: seq<Insn>, v: seq<Insn>)
    requires a + ([x] + b) == u + v && JumpOff(x).Some?
    requires Size(u) == Size(a) + ISize(x) + JumpOff(x).value && Height(u, 0) == Height(a, 0) + Delta(x)
    ensures Lands(a + ([x] + b), |a|, |u|)
  {
    hide Size, Height, JumpOff;
    Ends(a, x, b);
    assert (u + v)[..|u|] == u;
    AsmConcat(a, [x]);
    OneSize(x);
    HeightConcat(a, [x], 0);
    OneHeight(x, Height(a, 0));
  }

  lemma Ends(a: seq<Insn>, x: Insn, b: seq<Insn>)
    ensures var P := a + ([x] + b);
      |a| < |P| && P[|a|] == x && P[..|a| + 1] == a + [x]
  {
  }

  lemma OneSize(x: Insn)
    ensures Size([x]) == ISize(x)
  {
    assert [x][1..] == [];
  }

  lemma NoCode()
    ensures Size([]) == 0 && Height([], 0) == 0 && JumpsLand([])
  {
  }

  lemma LevelZero(A: seq<Insn>)
    requires Level(A)
    ensures Height(A, 0) == 0
  {
  }

  // ---- generated code

  lemma DirectedLands(i: Insn, back: bool)
    requires JumpOff(i).None?
    ensures JumpsLand(Directed(i, back))
  {
    StraightLands(Directed(i, back));
  }

  lemma LeafLands(env: Env, re: Re, cc: nat, back: bool)
    requires IsLeaf(re)
    ensures JumpsLand(Compile(env, re, cc, back))
  {
    match re
    case Empty => NoCode();
    case Chr(c) => DirectedLands(CharInsn(env, c), back);
    case AnyChar => DirectedLands(Any, back);
    case DotChar => DirectedLands(if env.dotAll then Any else Dot, back);
    case Class(pts) => DirectedLands(ClassInsn(pts), back);
    case Bol => StraightLands([LineStart]);
    case Eol => StraightLands([LineEnd]);
    case WordB(neg) => StraightLands([if neg then NotWordBoundary else WordBoundary]);
  }

  /** A jump in front that leads behind the code. */
  lemma SkipLands(x: Insn, A: seq<Insn>)
    requires JumpsLand(A) && JumpOff(x) == Some(Size(A)) && Height(A, 0) == 0 && Delta(x) == 0
    ensures JumpsLand([x] + A)
  {
    hide Size, Height, JumpOff, Lands, JumpsLand;
    NoCode();
    SizeHead(x, A);
    HeightConcat([x], A, 0);
    OneHeight(x, 0);
    assert [] + ([x] + A) == [x] + A && ([x] + A) + [] == [x] + A;
    LandsAt([], x, A, [x] + A, []);
    JumpsInsert([], x, A, |[x] + A|);
  }

  /** A jump behind that leads back to where the code begins, some code before it. */
  lemma BackLands(pre: seq<Insn>, A: seq<Insn>, x: Insn, post: seq<Insn>)
    requires JumpsLand(A) && NoJumps(pre) && NoJumps(post) && Height(A, 0) == 0 && Delta(x) == 0
    requires JumpOff(x) == Some(-(Size(A) + ISize(x)))
    ensures JumpsLand(pre + (A + ([x] + post)))
  {
    hide Size, Height, JumpOff, Lands, JumpsLand;
    StraightLands(pre);
    StraightLands(post);
    JumpsConcat(pre, A);
    BackTarget(pre, A, x, post);
    JumpsInsert(pre + A, x, post, |pre|);
    Lists.Assoc(pre, A, [x] + post);
  }

  lemma BackTarget(pre: seq<Insn>, A: seq<Insn>, x: Insn, post: seq<Insn>)
    requires Height(A, 0) == 0 && Delta(x) == 0 && JumpOff(x) == Some(-(Size(A) + ISize(x)))
    ensures Lands((pre + A) + ([x] + post), |pre + A|, |pre|)
  {
    hide Size, Height, JumpOff, Lands;
    AsmConcat(pre, A);
    HeightConcat(pre, A, 0);
    HeightAdd(A, Height(pre, 0));
    Lists.Assoc(pre, A, [x] + post);
    LandsAt(pre + A, x, post, pre, A + ([x] + post));
  }

  /** A loop: x in front leads behind y, and y back to x. */
  lemma LoopLands(pre: seq<Insn>, x: Insn, A: seq<Insn>, y: Insn, post: seq<Insn>)
    requires NoJumps(pre) && JumpsLand(A) && NoJumps(post) && Delta(x) == 0
    requires Height(A, 0) + Delta(y) == 0
    requires JumpOff(x) == Some(Size(A) + ISize(y)) && JumpOff(y) == Some(-(ISize(x) + Size(A) + ISize(y)))
    ensures JumpsLand(pre + ([x] + (A + ([y] + post))))
  {
    hide Size, Height, JumpOff, Lands, JumpsLand;
    StraightLands(pre);
    StraightLands(post);
    LoopForward(pre, x, A, y, post);
    LoopBack(pre, x, A, y, post);
    JumpsTwo(pre, x, A, y, post, |pre| + 1 + |A| + 1, |pre|);
  }

  lemma LoopForward(pre: seq<Insn>, x: Insn, A: seq<Insn>, y: Insn, post: seq<Insn>)
    requires Delta(x) == 0 && Height(A, 0) + Delta(y) == 0 && JumpOff(x) == Some(Size(A) + ISize(y))
    ensures Lands(pre + ([x] + (A + ([y] + post))), |pre|, |pre| + 1 + |A| + 1)
  {
    hide Size, Height, JumpOff, Lands;
    var body := [x] + (A + [y]);
    BodyMeasures(pre, x, A, y);
    assert pre + ([x] + (A + ([y] + post))) == (pre + body) + post;
    LandsAt(pre, x, A + ([y] + post), pre + body, post);
  }

  lemma BodyMeasures(pre: seq<Insn>, x: Insn, A: seq<Insn>, y: Insn)
    ensures Size(pre + ([x] + (A + [y]))) == Size(pre) + ISize(x) + Size(A) + ISize(y)
    ensures Height(pre + ([x] + (A + [y])), 0) == Height(pre, 0) + Delta(x) + Height(A, 0) + Delta(y)
    ensures Size(pre + ([x] + A)) == Size(pre) + ISize(x) + Size(A)
    ensures Height(pre + ([x] + A), 0) == Height(pre, 0) + Delta(x) + Height(A, 0)
  {
    hide Size, Height;
    SizeAround(x, A, y);
    SizeHead(x, A);
    AsmConcat(pre, [x] + (A + [y]));
    AsmConcat(pre, [x] + A);
    HeightThree(pre, x, A);
    HeightThree(pre, x, A + [y]);
    HeightConcat(A, [y], 0);
    OneHeight(y, Height(A, 0));
  }

  lemma HeightThree(pre: seq<Insn>, x: Insn, A: seq<Insn>)
    ensures Height(pre + ([x] + A), 0) == Height(pre, 0) + Delta(x) + Height(A, 0)
  {
    hide Height;
    var h := Height(pre, 0);
    HeightConcat(pre, [x] + A, 0);
    HeightConcat([x], A, h);
    OneHeight(x, h);
    HeightAdd(A, h + Delta(x));
  }

  lemma LoopBack(pre: seq<Insn>, x: Insn, A: seq<Insn>, y: Insn, post: seq<Insn>)
    requires Delta(x) == 0 && Height(A, 0) + Delta(y) == 0 && JumpOff(y) == Some(-(ISize(x) + Size(A) + ISize(y)))
    ensures Lands(pre + ([x] + (A + ([y] + post))), |pre| + 1 + |A|, |pre|)
  {
    hide Size, Height, JumpOff, Lands;
    var front := pre + ([x] + A);
    BodyMeasures(pre, x, A, y);
    assert pre + ([x] + (A + ([y] + post))) == front + ([y] + post);
    assert front + ([y] + post) == pre + ([x] + (A + ([y] + post)));
    LandsAt(front, y, post, pre, [x] + (A + ([y] + post)));
  }

  lemma StarLands(A: seq<Insn>, greedy: bool, check: bool)
    requires JumpsLand(A) && Level(A)
    ensures JumpsLand(StarCode(A, greedy, check))
  {
    hide Size, JumpsLand, Height;
    LevelZero(A);
    var len: int, k: int := Size(A), if check then 1 else 0;
    var x := SplitBody(greedy, len + 5 + k);
    if check {
      var (body, y) := ([PushCharPos] + A, BneCharPos(-(len + 11)));
      StraightLands([PushCharPos]);
      JumpsConcat([PushCharPos], A);
      SizeHead(PushCharPos, A);
      HeightConcat([PushCharPos], A, 0);
      OneHeight(PushCharPos, 0);
      HeightAdd(A, 1);
      LoopLands([], x, body, y, []);
      assert StarCode(A, greedy, check) == [] + ([x] + (body + ([y] + [])));
    } else {
      var y := Goto(-(len + 10));
      LoopLands([], x, A, y, []);
      assert StarCode(A, greedy, check) == [] + ([x] + (A + ([y] + [])));
    }
  }

  lemma CountedLands(A: seq<Insn>, greedy: bool, n: int)
    requires JumpsLand(A) && Level(A)
    ensures JumpsLand(UpToCode(A, greedy, n)) && JumpsLand(TimesCode(A, n))
  {
    hide Size, JumpsLand, Height;
    LevelZero(A);
    var len: int := Size(A);
    var (x, y, z) := (SplitBody(greedy, len + 5), Loop(-(len + 10)), Loop(-(len + 5)));
    LoopLands([PushI32(n)], x, A, y, [Drop]);
    assert UpToCode(A, greedy, n) == [PushI32(n)] + ([x] + (A + ([y] + [Drop])));
    BackLands([PushI32(n)], A, z, [Drop]);
    assert TimesCode(A, n) == [PushI32(n)] + (A + ([z] + [Drop]));
  }

  lemma QuantLands(A: seq<Insn>, cc: nat, n: nat, min: int, max: int, greedy: bool)
    requires JumpsLand(A) && Level(A)
    ensures JumpsLand(QuantCode(A, cc, n, min, max, greedy))
  {
    hide Size, JumpsLand, Height, ChecksAdvance, SimpleCount, StarCode, UpToCode, TimesCode;
    LevelZero(A);
    var check := greedy && !ChecksAdvance(A);
    StarLands(A, greedy, check);
    NoCode();
    if IsSimple(A, max, greedy) {
      InlineLands(GreedyInsn(A, min, max), A);
    } else if min == 0 {
      CountedLands(A, greedy, max);
      SkipLands(SplitBody(greedy, Size(A)), A);
      StraightLands(ResetCode(cc, n));
      JumpsConcat(ResetCode(cc, n), ZeroCode(A, max, greedy, check));
    } else if min == 1 && max == INT32_MAX && !check {
      BackLands([], A, SplitBack(greedy, -(Size(A) + 5)), []);
      assert A + [SplitBack(greedy, -(Size(A) + 5))] == [] + (A + ([SplitBack(greedy, -(Size(A) + 5))] + []));
    } else {
      CountedLands(A, greedy, min);
      CountedLands(A, greedy, max - min);
      JumpsConcat(MinCode(A, min), RestCode(A, min, max, greedy, check));
    }
  }

  /** Code ended by its own match instruction, with a jump in front that leads behind it. */
  lemma InlineLands(x: Insn, A: seq<Insn>)
    requires JumpsLand(A) && Height(A, 0) == 0 && JumpOff(x) == Some(Size(A) + 1) && Delta(x) == 0
    ensures JumpsLand([x] + (A + [Match]))
  {
    hide Size, JumpsLand, Height;
    StraightLands([Match]);
    JumpsConcat(A, [Match]);
    AsmConcat(A, [Match]);
    OneSize(Match);
    HeightConcat(A, [Match], 0);
    OneHeight(Match, 0);
    SkipLands(x, A + [Match]);
  }

  lemma AltLands(A: seq<Insn>, B: seq<Insn>)
    requires JumpsLand(A) && JumpsLand(B) && Level(A) && Level(B)
    ensures JumpsLand([SplitNextFirst(Size(A) + 5)] + (A + ([Goto(Size(B))] + B)))
  {
    hide Size, JumpsLand, Height, Lands;
    LevelZero(A);
    LevelZero(B);
    NoCode();
    var (x, y) := (SplitNextFirst(Size(A) + 5), Goto(Size(B)));
    var P := [] + ([x] + (A + ([y] + B)));
    AltForward(A, x, y, B);
    AltOver(A, x, y, B);
    JumpsTwo([], x, A, y, B, 1 + |A| + 1, |P|);
    assert P == [x] + (A + ([y] + B));
  }

  lemma AltForward(A: seq<Insn>, x: Insn, y: Insn, B: seq<Insn>)
    requires Height(A, 0) == 0 && Delta(x) == 0 && Delta(y) == 0 && JumpOff(x) == Some(Size(A) + ISize(y))
    ensures Lands([] + ([x] + (A + ([y] + B))), 0, 1 + |A| + 1)
  {
    hide Size, Height, Lands, JumpOff;
    LoopForward([], x, A, y, B);
  }

  lemma AltOver(A: seq<Insn>, x: Insn, y: Insn, B: seq<Insn>)
    requires Height(A, 0) == 0 && Height(B, 0) == 0 && Delta(x) == 0 && Delta(y) == 0 && JumpOff(y) == Some(Size(B))
    ensures Lands([] + ([x] + (A + ([y] + B))), 1 + |A|, |[] + ([x] + (A + ([y] + B)))|)
  {
    hide Size, Height, Lands, JumpOff;
    var (P, front) := ([] + ([x] + (A + ([y] + B))), [] + ([x] + A));
    BodyMeasures([], x, A, y);
    NoCode();
    assert P == front + ([y] + B) && P == P + [];
    SizeHead(y, B);
    AsmConcat(front, [y] + B);
    HeightConcat(front, [y] + B, 0);
    HeightConcat([y], B, Height(front, 0));
    OneHeight(y, Height(front, 0));
    LandsAt(front, y, B, P, []);
  }

  /** Every jump of generated code leads to an instruction of it, or to its end. */
  lemma {:induction false} CompiledJumps(env: Env, re: Re, cc: nat, back: bool)
    ensures JumpsLand(Compile(env, re, cc, back))
  {
    hide JumpsLand, Level, Size, QuantCode;
    if IsLeaf(re) {
      LeafLands(env, re, cc, back);
    } else {
      match re
      case Cat(l, r) =>
        var (A, B) := (Compile(env, l, cc, back), Compile(env, r, cc + NCap(l), back));
        CompiledJumps(env, l, cc, back);
        CompiledJumps(env, r, cc + NCap(l), back);
        if back { JumpsConcat(B, A); } else { JumpsConcat(A, B); }
      case Alt(l, r) =>
        var (A, B) := (Compile(env, l, cc, back), Compile(env, r, cc + NCap(l), back));
        CompiledJumps(env, l, cc, back);
        CompiledJumps(env, r, cc + NCap(l), back);
        Balanced(env, l, cc, back);
        Balanced(env, r, cc + NCap(l), back);
        AltLands(A, B);
      case Capture(b) =>
        var A := Compile(env, b, cc + 1, back);
        CompiledJumps(env, b, cc + 1, back);
        CaptureLands(A, cc);
      case Look(neg, behind, b) =>
        var A := Compile(env, b, cc, behind);
        CompiledJumps(env, b, cc, behind);
        Balanced(env, b, cc, behind);
        LevelZero(A);
        InlineLands(if neg then NegativeLookahead(Size(A) + 1) else Lookahead(Size(A) + 1), A);
      case Quant(a, min, max, greedy) =>
        CompiledJumps(env, a, cc, back);
        Balanced(env, a, cc, back);
        QuantLands(Compile(env, a, cc, back), cc, NCap(a), min, max, greedy);
    }
  }

  lemma CaptureLands(A: seq<Insn>, cc: nat)
    requires JumpsLand(A)
    ensures JumpsLand([SaveStart(cc)] + (A + [SaveEnd(cc)])) && JumpsLand([SaveEnd(cc)] + (A + [SaveStart(cc)]))
  {
    hide JumpsLand;
    StraightLands([SaveStart(cc)]);
    StraightLands([SaveEnd(cc)]);
    JumpsConcat(A, [SaveEnd(cc)]);
    JumpsConcat(A, [SaveStart(cc)]);
    JumpsConcat([SaveStart(cc)], A + [SaveEnd(cc)]);
    JumpsConcat([SaveEnd(cc)], A + [SaveStart(cc)]);
  }

  // ---- the whole program

  /** Every jump leads to an instruction of the program. */
  ghost predicate JumpsInto(P: seq<Insn>) {
    forall i: nat | i < |P| && JumpOff(P[i]).Some? :: exists k: nat :: k < |P| && Lands(P, i, k)
  }

  /** Each jump, split and lookahead of a compiled program, and the inlined greedy quantifier,
      leads to the start of an instruction of the program, at the height of the linear scan. */
  lemma ProgramJumps(env: Env, re: Re)
    ensures var P := Program(env, re); P != [] && P[|P| - 1] == Match && JumpsInto(P)
  {
    var W := Compile(env, Whole(env, re), 0, false);
    CompiledJumps(env, Whole(env, re), 0, false);
    EndedJumps(W);
  }

  lemma EndedJumps(W: seq<Insn>)
    requires JumpsLand(W)
    ensures JumpsInto(W + [Match])
  {
    hide Lands;
    var P := W + [Match];
    forall i: nat | i < |P| && JumpOff(P[i]).Some? ensures exists k: nat :: k < |P| && Lands(P, i, k) {
      var k: nat :| Lands(W, i, k);
      LandsInside(W, i, k);
      LandsShift([], W, [Match], i, k);
      assert [] + (W + [Match]) == P;
    }
  }

  lemma LandsInside(W: seq<Insn>, i: nat, k: nat)
    requires Lands(W, i, k)
    ensures k <= |W|
  {
  }

  // ---- every run

  /** The byte offset at is the start of an instruction, and h is the height scanned there. */
  ghost predicate Spot(P: seq<Insn>, pc: int, at: int, h: int) {
    exists k: nat :: k < |P| && IsSpot(P, pc, at, h, k)
  }

  ghost predicate IsSpot(P: seq<Insn>, pc: int, at: int, h: int, k: nat) {
    k < |P| && at == pc + Place(P, k) && h == Scan(P, k)
  }

  /** The same for the start of a greedy quantifier instruction. */
  ghost predicate GreedySpot(P: seq<Insn>, pc: int, at: int, h: int) {
    exists k: nat :: k < |P| && P[k].Greedy? && IsSpot(P, pc, at, h, k)
  }

  /** An entry of the backtrack stack resumes at an instruction with the height scanned there; a
      retry entry stands one byte into its quantifier instruction. */
  ghost predicate EntryTracked(P: seq<Insn>, pc: int, e: Entry) {
    match e
    case Split(t) => Spot(P, pc, t.pc, |t.stk|)
    case Ahead(_, t) => Spot(P, pc, t.pc, |t.stk|)
    case Retry(t, _) => GreedySpot(P, pc, t.pc - 1, |t.stk|)
  }

  ghost predicate AllTracked(P: seq<Insn>, pc: int, bt: seq<Entry>) {
    forall e | e in bt :: EntryTracked(P, pc, e)
  }

  ghost predicate Tracked(P: seq<Insn>, pc: int, c: Config) {
    match c
    case Run(t, bt) => Spot(P, pc, t.pc, |t.stk|) && AllTracked(P, pc, bt)
    case Unwind(_, _, bt) => AllTracked(P, pc, bt)
    case _ => true
  }

  lemma {:induction false} HasAt(code: seq<u8>, pc: int, P: seq<Insn>, k: nat)
    requires Has(code, pc, P) && k < |P|
    ensures Decode(code, pc + Place(P, k)) == Some(P[k])
  {
    hide Decode, Size;
    assert P == P[..k] + P[k..];
    HasSplit(code, pc, P[..k], P[k..]);
    assert P[k..][0] == P[k];
  }

  /** Where execution may go on from instruction k. */
  lemma NextSpots(P: seq<Insn>, pc: int, k: nat)
    requires k < |P| && P[|P| - 1] == Match && JumpsInto(P)
    ensures !P[k].Match? ==> Spot(P, pc, pc + Place(P, k) + ISize(P[k]), Scan(P, k) + Delta(P[k]))
    ensures JumpOff(P[k]).Some? ==>
              Spot(P, pc, pc + Place(P, k) + ISize(P[k]) + JumpOff(P[k]).value, Scan(P, k) + Delta(P[k]))
  {
    hide Size, Height, JumpOff, ISize, Delta;
    Onward(P, k);
    if !P[k].Match? {
      assert IsSpot(P, pc, pc + Place(P, k) + ISize(P[k]), Scan(P, k) + Delta(P[k]), k + 1);
    }
    if JumpOff(P[k]).Some? {
      var j: nat :| j < |P| && Lands(P, k, j);
      assert IsSpot(P, pc, pc + Place(P, k) + ISize(P[k]) + JumpOff(P[k]).value, Scan(P, k) + Delta(P[k]), j);
    }
  }

  lemma Onward(P: seq<Insn>, k: nat)
    requires k < |P|
    ensures Place(P, k + 1) == Place(P, k) + ISize(P[k]) && Scan(P, k + 1) == Scan(P, k) + Delta(P[k])
  {
    hide Size, Height;
    assert P[..k + 1] == P[..k] + [P[k]];
    AsmConcat(P[..k], [P[k]]);
    OneSize(P[k]);
    HeightConcat(P[..k], [P[k]], 0);
    OneHeight(P[k], Scan(P, k));
  }

  lemma TrackedPush(P: seq<Insn>, pc: int, bt: seq<Entry>, e: Entry)
    requires AllTracked(P, pc, bt) && EntryTracked(P, pc, e)
    ensures AllTracked(P, pc, bt + [e])
  {
    hide EntryTracked;
  }

  /** One instruction. */
  lemma ExecTracked(m: Machine, P: seq<Insn>, pc: int, k: nat, t: Thread, bt: seq<Entry>)
    requires P != [] && P[|P| - 1] == Match && JumpsInto(P) && AllTracked(P, pc, bt)
    requires IsSpot(P, pc, t.pc, |t.stk|, k)
    ensures Tracked(P, pc, Exec(m, P[k], t.(pc := t.pc + ISize(P[k])), bt))
  {
    hide Spot, AllTracked, GreedySpot, Place, Scan, JumpsInto, Advance, Repeat;
    NextSpots(P, pc, k);
    var i := P[k];
    var u := t.(pc := t.pc + ISize(i));
    match i
    case SplitGotoFirst(off) => TrackedPush(P, pc, bt, Split(u));
    case SplitNextFirst(off) => TrackedPush(P, pc, bt, Split(u.(pc := u.pc + off)));
    case Lookahead(off) => TrackedPush(P, pc, bt, Ahead(false, u.(pc := u.pc + off)));
    case NegativeLookahead(off) => TrackedPush(P, pc, bt, Ahead(true, u.(pc := u.pc + off)));
    case Greedy(next, min, max, chars) =>
      GreedyAt(P, pc, t, k);
      if 0 <= t.pos <= |m.x.text.units| {
        match Repeat(m, u.pc, u.pos, 0, max)
        case None =>
        case Some(end) => TrackedPush(P, pc, bt, Retry(u.(pc := u.pc - 16, pos := end.1), end.0 - min));
      }
    case _ =>
  }

  lemma GreedyAt(P: seq<Insn>, pc: int, t: Thread, k: nat)
    requires IsSpot(P, pc, t.pc, |t.stk|, k) && P[k].Greedy?
    ensures GreedySpot(P, pc, t.pc, |t.stk|)
  {
    hide Place, Scan;
  }

  /** Going back. */
  lemma ResumeTracked(m: Machine, P: seq<Insn>, pc: int, ok: bool, caps: seq<int>, bt: seq<Entry>)
    requires P != [] && P[|P| - 1] == Match && JumpsInto(P) && Has(m.code, pc, P) && AllTracked(P, pc, bt)
    ensures Tracked(P, pc, Resume(m, ok, caps, bt))
  {
    hide Spot, GreedySpot, Place, Scan, JumpsInto, Has, Decode, BackN;
    if bt != [] {
      var (e, rest) := (bt[|bt| - 1], bt[..|bt| - 1]);
      assert EntryTracked(P, pc, e) && AllTracked(P, pc, rest);
      hide AllTracked;
      if e.Retry? && !ok { RetryTracked(m, P, pc, e.t, e.count, rest); }
    }
  }

  lemma RetryTracked(m: Machine, P: seq<Insn>, pc: int, t: Thread, count: int, rest: seq<Entry>)
    requires P != [] && P[|P| - 1] == Match && JumpsInto(P) && Has(m.code, pc, P) && AllTracked(P, pc, rest)
    requires GreedySpot(P, pc, t.pc - 1, |t.stk|)
    ensures Tracked(P, pc, Resume(m, false, [], rest + [Retry(t, count)]))
  {
    hide Spot, Place, Scan, JumpsInto, Has, Decode, BackN, AllTracked;
    var k: nat :| k < |P| && P[k].Greedy? && IsSpot(P, pc, t.pc - 1, |t.stk|, k);
    HasAt(m.code, pc, P, k);
    NextSpots(P, pc, k);
    var bt := rest + [Retry(t, count)];
    assert bt[..|bt| - 1] == rest;
    if P[k].count >= 0 {
      match BackN(m.x.text, t.pos, P[k].count)
      case None =>
      case Some(p) =>
        hide GreedySpot;
        TrackedPush(P, pc, rest, Retry(t.(pos := p), count - 1));
    }
  }

  lemma StepTracked(m: Machine, P: seq<Insn>, pc: int, c: Config)
    requires P != [] && P[|P| - 1] == Match && JumpsInto(P) && Has(m.code, pc, P) && Tracked(P, pc, c)
    ensures Tracked(P, pc, Step(m, c))
  {
    hide AllTracked, GreedySpot, Place, Scan, JumpsInto, Has, Decode, Exec, Resume;
    match c
    case Run(t, bt) =>
      var k: nat :| k < |P| && IsSpot(P, pc, t.pc, |t.stk|, k);
      HasAt(m.code, pc, P, k);
      ExecTracked(m, P, pc, k, t, bt);
    case Unwind(ok, caps, bt) => ResumeTracked(m, P, pc, ok, caps, bt);
    case _ =>
  }

  lemma {:induction false} StepsTracked(m: Machine, P: seq<Insn>, pc: int, n: nat, c: Config)
    requires P != [] && P[|P| - 1] == Match && JumpsInto(P) && Has(m.code, pc, P) && Tracked(P, pc, c)
    ensures Tracked(P, pc, Steps(m, n, c))
    decreases n
  {
    hide Tracked, JumpsInto, Has, Step;
    if n > 0 {
      StepTracked(m, P, pc, c);
      StepsTracked(m, P, pc, n - 1, Step(m, c));
    }
  }

  /** Whatever the input and however long it has run, the interpreter stands at the start of an
      instruction of the compiled program, with the operand stack the linear scan has there, and
      so will it when it takes any entry off the backtrack stack. */
  lemma CompiledProgramTracked(m: Machine, re: Re, pc: nat, s: St, n: nat)
    requires Loaded(m, re, pc)
    ensures Tracked(Program(m.x.env, re), pc, Steps(m, n, Run(At(pc, [], s), [])))
  {
    hide Program, Wf, MaxHeight, AllEncodable, JumpsInto, Has, Place, Scan;
    var P := Program(m.x.env, re);
    AsmHas(m.code, pc, P);
    ProgramJumps(m.x.env, re);
    Beginning(P, pc);
    StepsTracked(m, P, pc, n, Run(At(pc, [], s), []));
  }

  lemma Beginning(P: seq<Insn>, pc: int)
    requires P != []
    ensures Spot(P, pc, pc, 0)
  {
    assert P[..0] == [];
    assert IsSpot(P, pc, pc, 0, 0);
  }

  // ---- one height for each instruction

  lemma {:induction false} PlacesDiffer(P: seq<Insn>, i: nat, k: nat)
    requires i < k <= |P|
    ensures Place(P, i) < Place(P, k)
    decreases k
  {
    hide Place, Scan, ISize;
    Onward(P, k - 1);
    if i < k - 1 { PlacesDiffer(P, i, k - 1); }
  }

  lemma ScanBelow(P: seq<Insn>, k: nat)
    requires k <= |P|
    ensures Scan(P, k) <= MaxHeight(P, 0)
  {
    assert P == P[..k] + P[k..];
    hide Height, MaxHeight;
    HeightConcat(P[..k], P[k..], 0);
  }

  /** Two ways to the same instruction have the same operand-stack height there, and it is at most
      the one compute_stack_size announces. */
  lemma OneHeightEach(P: seq<Insn>, pc: int, at: int, h: int, h': int)
    requires Spot(P, pc, at, h) && Spot(P, pc, at, h')
    ensures h == h' <= MaxHeight(P, 0)
  {
    hide Place, Scan, MaxHeight;
    var i: nat :| i < |P| && IsSpot(P, pc, at, h, i);
    var k: nat :| k < |P| && IsSpot(P, pc, at, h', k);
    if i < k { PlacesDiffer(P, i, k); } else if k < i { PlacesDiffer(P, k, i); }
    ScanBelow(P, i);
  }
}
