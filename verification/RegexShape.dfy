/** Facts about generated code: operand-stack balance, the two scans, operand ranges. */
module RegexShape {
  import opened Bytes
  import opened RegexSyntax
  import opened RegexCode
  import opened RegexRange
  import opened RegexVM
  import opened RegexCompile
  import Lists

  lemma {:induction false} HeightConcat(a: seq<Insn>, b: seq<Insn>, h: int)
    ensures Height(a + b, h) == Height(b, Height(a, h))
    ensures MaxHeight(a + b, h) ==
            if MaxHeight(a, h) >= MaxHeight(b, Height(a, h)) then MaxHeight(a, h) else MaxHeight(b, Height(a, h))
  {
    if a == [] {
      assert a + b == b;
    } else {
      Lists.TailAppend(a, b);
      HeightConcat(a[1..], b, h + Delta(a[0]));
    }
  }

  lemma OneHeight(i: Insn, h: int)
    ensures Height([i], h) == h + Delta(i)
    ensures MaxHeight([i], h) == if Delta(i) > 0 then h + 1 else h
  {
    assert [i][1..] == [];
  }

  ghost predicate Level(prog: seq<Insn>) {
    forall k :: Height(prog, k) == k
  }

  lemma LevelOne(i: Insn)
    requires Delta(i) == 0
    ensures Level([i])
  {
    forall k ensures Height([i], k) == k { OneHeight(i, k); }
  }

  lemma LevelConcat(a: seq<Insn>, b: seq<Insn>)
    requires Level(a) && Level(b)
    ensures Level(a + b)
  {
    forall k ensures Height(a + b, k) == k { HeightConcat(a, b, k); }
  }

  /** One instruction of no effect in front of and behind level code. */
  lemma LevelAround(i: Insn, A: seq<Insn>, j: Insn)
    requires Delta(i) == 0 && Delta(j) == 0 && Level(A)
    ensures Level([i] + (A + [j]))
  {
    LevelOne(i);
    LevelOne(j);
    LevelConcat(A, [j]);
    LevelConcat([i], A + [j]);
  }

  lemma DirectedLevel(i: Insn, back: bool)
    requires Delta(i) == 0
    ensures Level(Directed(i, back))
  {
    LevelOne(i);
    LevelAround(Prev, [i], Prev);
    assert [Prev, i, Prev] == [Prev] + ([i] + [Prev]);
  }

  lemma StarLevel(A: seq<Insn>, greedy: bool, check: bool)
    requires Level(A)
    ensures Level(StarCode(A, greedy, check))
  {
    hide Size;
    var len: int, k: int := Size(A), if check then 1 else 0;
    var j := SplitBody(greedy, len + 5 + k);
    if check {
      var last := BneCharPos(-(len + 11));
      forall h ensures Height([PushCharPos] + (A + [last]), h) == h {
        HeightConcat([PushCharPos], A + [last], h);
        HeightConcat(A, [last], h + 1);
        OneHeight(PushCharPos, h);
        OneHeight(last, h + 1);
        assert Height(A, h + 1) == h + 1;
      }
      LevelOne(j);
      LevelConcat([j], [PushCharPos] + (A + [last]));
    } else {
      var last := Goto(-(len + 10));
      LevelAround(j, A, last);
      assert [] + (A + [last]) == A + [last];
    }
  }

  lemma CountedLevel(pre: seq<Insn>, A: seq<Insn>, n: int, off: int)
    requires Level(A) && Level(pre)
    ensures Level([PushI32(n)] + (pre + (A + [Loop(off), Drop])))
  {
    var tail := [Loop(off), Drop];
    forall h ensures Height([PushI32(n)] + (pre + (A + tail)), h) == h {
      HeightConcat([PushI32(n)], pre + (A + tail), h);
      HeightConcat(pre, A + tail, h + 1);
      HeightConcat(A, tail, h + 1);
      assert Height(A, h + 1) == h + 1 && Height(pre, h + 1) == h + 1;
      assert tail[1..] == [Drop] && Height([Drop], h + 1) == h;
    }
  }

  lemma PartsLevel(A: seq<Insn>, greedy: bool, n: int)
    requires Level(A)
    ensures Level(TimesCode(A, n)) && Level(UpToCode(A, greedy, n))
  {
    CountedLevel([], A, n, -(Size(A) + 5));
    assert [] + (A + [Loop(-(Size(A) + 5)), Drop]) == A + [Loop(-(Size(A) + 5)), Drop];
    CountedLevel([SplitBody(greedy, Size(A) + 5)], A, n, -(Size(A) + 10));
  }

  lemma QuantLevel(A: seq<Insn>, cc: nat, n: nat, min: int, max: int, greedy: bool)
    requires Level(A)
    ensures Level(QuantCode(A, cc, n, min, max, greedy))
  {
    var check := greedy && !ChecksAdvance(A);
    if IsSimple(A, max, greedy) {
      LevelAround(GreedyInsn(A, min, max), A, Match);
    } else if min == 0 {
      LevelOne(SaveReset(cc, cc + n - 1));
      ZeroLevel(A, max, greedy, check);
      LevelConcat(ResetCode(cc, n), ZeroCode(A, max, greedy, check));
    } else if min == 1 && max == INT32_MAX && !check {
      LevelOne(SplitBack(greedy, -(Size(A) + 5)));
      LevelConcat(A, [SplitBack(greedy, -(Size(A) + 5))]);
    } else {
      PartsLevel(A, greedy, min);
      PartsLevel(A, greedy, max - min);
      StarLevel(A, greedy, check);
      LevelConcat(MinCode(A, min), RestCode(A, min, max, greedy, check));
    }
  }

  lemma ZeroLevel(A: seq<Insn>, max: int, greedy: bool, check: bool)
    requires Level(A)
    ensures Level(ZeroCode(A, max, greedy, check))
  {
    LevelOne(SplitBody(greedy, Size(A)));
    LevelConcat([SplitBody(greedy, Size(A))], A);
    PartsLevel(A, greedy, max);
    StarLevel(A, greedy, check);
  }

  lemma AltLevel(A: seq<Insn>, B: seq<Insn>)
    requires Level(A) && Level(B)
    ensures Level([SplitNextFirst(Size(A) + 5)] + (A + ([Goto(Size(B))] + B)))
  {
    LevelOne(Goto(Size(B)));
    LevelOne(SplitNextFirst(Size(A) + 5));
    LevelConcat([Goto(Size(B))], B);
    LevelConcat(A, [Goto(Size(B))] + B);
    LevelConcat([SplitNextFirst(Size(A) + 5)], A + ([Goto(Size(B))] + B));
  }

  /** A node without sub-expressions. */
  predicate IsLeaf(re: Re) {
    re.Empty? || re.Chr? || re.AnyChar? || re.DotChar? || re.Class? || re.Bol? || re.Eol? || re.WordB?
  }

  lemma LeafLevel(env: Env, re: Re, cc: nat, back: bool)
    requires IsLeaf(re)
    ensures Level(Compile(env, re, cc, back))
  {
    match re
    case Empty =>
    case Chr(c) => DirectedLevel(CharInsn(env, c), back);
    case AnyChar => DirectedLevel(Any, back);
    case DotChar => DirectedLevel(if env.dotAll then Any else Dot, back);
    case Class(pts) => DirectedLevel(ClassInsn(pts), back);
    case Bol => LevelOne(LineStart);
    case Eol => LevelOne(LineEnd);
    case WordB(neg) => LevelOne(if neg then NotWordBoundary else WordBoundary);
  }

  /** Every generated piece of code leaves the operand stack as high as it found it. */
  lemma {:induction false} Balanced(env: Env, re: Re, cc: nat, back: bool)
    ensures Level(Compile(env, re, cc, back))
  {
    hide Level, QuantCode, Size;
    if IsLeaf(re) {
      LeafLevel(env, re, cc, back);
    } else {
      match re
      case Cat(l, r) =>
        var A, B := Compile(env, l, cc, back), Compile(env, r, cc + NCap(l), back);
        Balanced(env, l, cc, back);
        Balanced(env, r, cc + NCap(l), back);
        if back { LevelConcat(B, A); } else { LevelConcat(A, B); }
      case Alt(l, r) =>
        Balanced(env, l, cc, back);
        Balanced(env, r, cc + NCap(l), back);
        AltLevel(Compile(env, l, cc, back), Compile(env, r, cc + NCap(l), back));
      case Capture(b) =>
        Balanced(env, b, cc + 1, back);
        var A := Compile(env, b, cc + 1, back);
        if back { LevelAround(SaveEnd(cc), A, SaveStart(cc)); } else { LevelAround(SaveStart(cc), A, SaveEnd(cc)); }
      case Look(neg, behind, b) =>
        Balanced(env, b, cc, behind);
        var A := Compile(env, b, cc, behind);
        LevelAround(if neg then NegativeLookahead(Size(A) + 1) else Lookahead(Size(A) + 1), A, Match);
      case Quant(a, min, max, greedy) =>
        Balanced(env, a, cc, back);
        QuantLevel(Compile(env, a, cc, back), cc, NCap(a), min, max, greedy);
    }
  }

  // ---- re_check_advance

  predicate AllNeutral(prog: seq<Insn>) {
    forall i | i in prog :: Neutral(i)
  }

  lemma {:induction false} AdvanceConcat(a: seq<Insn>, b: seq<Insn>)
    ensures ChecksAdvance(a + b) <==> ChecksAdvance(a) || (AllNeutral(a) && ChecksAdvance(b))
  {
    if a == [] {
      assert a + b == b;
    } else {
      Lists.TailAppend(a, b);
      Lists.HeadTail(a);
      AdvanceConcat(a[1..], b);
    }
  }

  lemma AdvanceAround(i: Insn, A: seq<Insn>, rest: seq<Insn>)
    requires !IsCharInsn(i) && (!AllNeutral(A) || !ChecksAdvance(rest))
    ensures ChecksAdvance([i] + (A + rest)) ==> ChecksAdvance(A)
  {
    AdvanceConcat([i], A + rest);
    AdvanceConcat(A, rest);
  }

  lemma LoopsDontAdvance(A: seq<Insn>, greedy: bool, check: bool, n: int)
    ensures !ChecksAdvance(StarCode(A, greedy, check))
    ensures !ChecksAdvance(UpToCode(A, greedy, n))
  {
    AdvanceConcat([PushI32(n)], LoopCode(A, greedy));
  }

  lemma MinAdvance(A: seq<Insn>, min: int)
    ensures ChecksAdvance(MinCode(A, min)) ==> ChecksAdvance(A)
  {
    AdvanceAround(PushI32(min), A, [Loop(-(Size(A) + 5)), Drop]);
  }

  lemma QuantAdvance(A: seq<Insn>, cc: nat, n: nat, min: int, max: int, greedy: bool)
    requires 0 <= min <= max
    ensures ChecksAdvance(QuantCode(A, cc, n, min, max, greedy)) ==> min > 0 && ChecksAdvance(A)
  {
    hide Size, SimpleCount, StarCode, UpToCode, TimesCode;
    var check := greedy && !ChecksAdvance(A);
    if IsSimple(A, max, greedy) {
    } else if min == 0 {
      LoopsDontAdvance(A, greedy, check, max);
      AdvanceConcat(ResetCode(cc, n), ZeroCode(A, max, greedy, check));
    } else if min == 1 && max == INT32_MAX && !check {
      AdvanceConcat(A, [SplitBack(greedy, -(Size(A) + 5))]);
    } else {
      LoopsDontAdvance(A, greedy, check, max - min);
      MinAdvance(A, min);
      AdvanceConcat(MinCode(A, min), RestCode(A, min, max, greedy, check));
    }
  }

  lemma QuantAdvanceSound(env: Env, re: Re, cc: nat, back: bool)
    requires re.Quant? && Wf(re) && ChecksAdvance(Compile(env, re, cc, back))
    ensures re.min > 0 && ChecksAdvance(Compile(env, re.atom, cc, back))
  {
    hide QuantCode;
    QuantAdvance(Compile(env, re.atom, cc, back), cc, NCap(re.atom), re.min, re.max, re.greedy);
  }

  lemma CaptureAdvance(env: Env, re: Re, cc: nat, back: bool)
    requires re.Capture? && ChecksAdvance(Compile(env, re, cc, back))
    ensures ChecksAdvance(Compile(env, re.body, cc + 1, back))
  {
    var A := Compile(env, re.body, cc + 1, back);
    AdvanceAround(SaveStart(cc), A, [SaveEnd(cc)]);
    AdvanceAround(SaveEnd(cc), A, [SaveStart(cc)]);
  }

  /** When the scan says code always consumes a character, the expression always does. */
  lemma {:induction false} AdvanceSound(env: Env, re: Re, cc: nat, back: bool)
    requires Wf(re) && ChecksAdvance(Compile(env, re, cc, back))
    ensures NonNull(re)
  {
    hide QuantCode, Size;
    match re
    case Cat(l, r) =>
      var A, B := Compile(env, l, cc, back), Compile(env, r, cc + NCap(l), back);
      AdvanceConcat(A, B);
      AdvanceConcat(B, A);
      if ChecksAdvance(A) { AdvanceSound(env, l, cc, back); } else { AdvanceSound(env, r, cc + NCap(l), back); }
    case Capture(b) =>
      CaptureAdvance(env, re, cc, back);
      AdvanceSound(env, b, cc + 1, back);
    case Quant(a, min, max, greedy) =>
      QuantAdvanceSound(env, re, cc, back);
      AdvanceSound(env, a, cc, back);
    case _ =>
  }

  // ---- operand ranges

  lemma EncodableConcat(a: seq<Insn>, b: seq<Insn>)
    ensures AllEncodable(a + b) <==> AllEncodable(a) && AllEncodable(b)
  {
    if AllEncodable(a + b) {
      assert forall i | i in a :: i in a + b;
      assert forall i | i in b :: i in a + b;
    }
  }

  lemma CharEncodable(env: Env, re: Re, cc: nat, back: bool)
    requires Wf(re) && IsLeaf(re) && Check(re, cc).Pass?
    ensures AllEncodable(Compile(env, re, cc, back))
  {
    if re.Class? { ClassEncodable(re.points); }
  }

  lemma SizeAround(i: Insn, A: seq<Insn>, j: Insn)
    ensures Size([i]) == ISize(i) && Size([i] + (A + [j])) == ISize(i) + Size(A) + ISize(j)
  {
    AsmConcat([i], A + [j]);
    AsmConcat(A, [j]);
    assert [i][1..] == [] && [j][1..] == [];
  }

  lemma SizeStar(A: seq<Insn>, greedy: bool, check: bool)
    ensures Size(StarCode(A, greedy, check)) == Size(A) + 10 + (if check then 1 else 0)
  {
    hide Size;
    var len: int := Size(A);
    if check {
      var last := BneCharPos(-(len + 11));
      SizeAround(PushCharPos, A, last);
      SizeHead(SplitBody(greedy, len + 6), [PushCharPos] + (A + [last]));
    } else {
      var last := Goto(-(len + 10));
      SizeAround(SplitBody(greedy, len + 5), A, last);
      assert [] + (A + [last]) == A + [last];
    }
  }

  lemma SizeTwo(A: seq<Insn>, i: Insn, j: Insn)
    ensures Size(A + [i, j]) == Size(A) + ISize(i) + ISize(j)
  {
    AsmConcat(A, [i, j]);
    assert [i, j][1..] == [j] && [j][1..] == [];
  }

  lemma SizeCounted(A: seq<Insn>, greedy: bool, n: int)
    ensures Size(LoopCode(A, greedy)) == Size(A) + 11
    ensures Size(UpToCode(A, greedy, n)) == Size(A) + 16
    ensures Size(TimesCode(A, n)) == Size(A) + 11
  {
    SizeTwo(A, Loop(-(Size(A) as int + 10)), Drop);
    SizeTwo(A, Loop(-(Size(A) as int + 5)), Drop);
    SizeHead(SplitBody(greedy, Size(A) + 5), A + [Loop(-(Size(A) as int + 10)), Drop]);
    SizeHead(PushI32(n), LoopCode(A, greedy));
    SizeHead(PushI32(n), A + [Loop(-(Size(A) as int + 5)), Drop]);
  }

  lemma SizeHead(i: Insn, rest: seq<Insn>)
    ensures Size([i] + rest) == ISize(i) + Size(rest)
  {
    assert ([i] + rest)[1..] == rest;
  }
}
