/** Compilation preserves meaning: code placed anywhere in a program yields the outcomes of its
    expression, in order; hence executing a compiled program returns the first outcome. */
module RegexCorrect {
  import opened Options
  import opened Bytes
  import opened RegexSyntax
  import opened RegexCode
  import opened RegexMatch
  import opened RegexVM
  import opened RegexCompile
  import opened RegexShape
  import opened RegexProgress
  import opened RegexTrace
  import opened RegexSim
  import opened RegexLoops
  import opened RegexGreedy

  /** The code of re stands at pc, its captures exist, and it fits the operand stack above h
      entries. */
  ghost predicate Ready(m: Machine, re: Re, cc: nat, back: bool, pc: int, h: nat) {
    Wf(re) && cc + NCap(re) <= m.ncap && Placed(m, pc, Compile(m.x.env, re, cc, back), h)
  }

  function CodeSize(m: Machine, re: Re, cc: nat, back: bool): nat {
    Size(Compile(m.x.env, re, cc, back))
  }

  ghost predicate AllOk(x: Subject, sts: seq<St>) {
    forall s | s in sts :: StOk(x, s)
  }

  lemma OutcomesOk(x: Subject, re: Re, cc: nat, back: bool, s: St)
    requires StOk(x, s)
    ensures AllOk(x, Outcomes(x, re, cc, back, s))
  {
    hide Outcomes;
    OutcomesLeft(x, re, cc, back, s);
  }

  /** Code generation is correct for every expression, at every state. */
  lemma {:induction false} SimRe(m: Machine, re: Re, cc: nat, back: bool, s: St, pc: int, stk: seq<int>)
    requires Ready(m, re, cc, back, pc, |stk|) && StOk(m.x, s)
    ensures Seg(m, pc, stk, pc + CodeSize(m, re, cc, back), stk, s, Outcomes(m.x, re, cc, back, s))
    decreases re, 0, 1, 0, 0
  {
    hide Seg, Placed, StOk, Compile, Outcomes;
    if IsLeaf(re) {
      SimLeaf(m, re, cc, back, s, pc, stk);
    } else {
      match re
      case Cat(_, _) => SimCat(m, re, cc, back, s, pc, stk);
      case Alt(_, _) => SimAlt(m, re, cc, back, s, pc, stk);
      case Capture(_) => SimCapture(m, re, cc, back, s, pc, stk);
      case Look(_, _, _) => SimLook(m, re, cc, back, s, pc, stk);
      case Quant(_, _, _, _) => SimQuant(m, re, cc, back, s, pc, stk);
    }
  }

  lemma {:induction false} SimAll(m: Machine, re: Re, cc: nat, back: bool, sts: seq<St>, pc: int, stk: seq<int>)
    requires Ready(m, re, cc, back, pc, |stk|) && AllOk(m.x, sts)
    ensures SegAll(m, pc, stk, pc + CodeSize(m, re, cc, back), stk, sts, OutcomesAll(m.x, re, cc, back, sts))
    decreases re, 1, 0, 0, |sts|
  {
    hide Seg, SegAll, Placed, StOk, Outcomes, Compile;
    var q := pc + CodeSize(m, re, cc, back);
    if sts == [] {
      SegAllNil(m, pc, stk, q, stk);
    } else {
      assert sts[0] in sts;
      SimRe(m, re, cc, back, sts[0], pc, stk);
      SimAll(m, re, cc, back, sts[1..], pc, stk);
      SegAllCons(m, pc, stk, q, stk, sts, Outcomes(m.x, re, cc, back, sts[0]),
          OutcomesAll(m.x, re, cc, back, sts[1..]));
    }
  }

  /** One expression after another. */
  lemma {:induction false} SimPair(m: Machine, whole: Re, f: Re, fc: nat, g: Re, gc: nat, back: bool, s: St, pc: int,
                                   stk: seq<int>)
    requires f < whole && g < whole && Wf(f) && Wf(g) && fc + NCap(f) <= m.ncap && gc + NCap(g) <= m.ncap
    requires Placed(m, pc, Compile(m.x.env, f, fc, back) + Compile(m.x.env, g, gc, back), |stk|) && StOk(m.x, s)
    ensures Seg(m, pc, stk, pc + Size(Compile(m.x.env, f, fc, back) + Compile(m.x.env, g, gc, back)), stk, s,
                OutcomesAll(m.x, g, gc, back, Outcomes(m.x, f, fc, back, s)))
    decreases whole, 0, 0, 0, 0
  {
    hide Seg, SegAll, Placed, StOk, Outcomes, Compile, Level, AllOk;
    var A, B := Compile(m.x.env, f, fc, back), Compile(m.x.env, g, gc, back);
    var mid := pc + Size(A);
    var o := Outcomes(m.x, f, fc, back, s);
    Balanced(m.x.env, f, fc, back);
    PlacedBody(m, pc, A, B, |stk|);
    SimRe(m, f, fc, back, s, pc, stk);
    OutcomesOk(m.x, f, fc, back, s);
    SimAll(m, g, gc, back, o, mid, stk);
    SegThen(m, pc, stk, mid, stk, mid + Size(B), stk, s, o, OutcomesAll(m.x, g, gc, back, o));
  }

  lemma UnfoldCat(x: Subject, re: Re, cc: nat, back: bool, s: St)
    requires re.Cat?
    ensures NCap(re) == NCap(re.l) + NCap(re.r) && (Wf(re) <==> Wf(re.l) && Wf(re.r))
    ensures Compile(x.env, re, cc, back) ==
            if back then Compile(x.env, re.r, cc + NCap(re.l), back) + Compile(x.env, re.l, cc, back)
            else Compile(x.env, re.l, cc, back) + Compile(x.env, re.r, cc + NCap(re.l), back)
    ensures Outcomes(x, re, cc, back, s) ==
            if back then OutcomesAll(x, re.l, cc, back, Outcomes(x, re.r, cc + NCap(re.l), back, s))
            else OutcomesAll(x, re.r, cc + NCap(re.l), back, Outcomes(x, re.l, cc, back, s))
  {
    hide Outcomes, OutcomesAll, Compile, Wf, NCap;
    CatCode(x.env, re, cc, back);
    OutcomesCat(x, re.l, re.r, cc, back, s);
  }

  lemma CatCode(env: Env, re: Re, cc: nat, back: bool)
    requires re.Cat?
    ensures NCap(re) == NCap(re.l) + NCap(re.r) && (Wf(re) <==> Wf(re.l) && Wf(re.r))
    ensures Compile(env, re, cc, back) ==
            if back then Compile(env, re.r, cc + NCap(re.l), back) + Compile(env, re.l, cc, back)
            else Compile(env, re.l, cc, back) + Compile(env, re.r, cc + NCap(re.l), back)
  {
  }

  lemma AltParts(re: Re)
    requires re.Alt?
    ensures NCap(re) == NCap(re.l) + NCap(re.r) && (Wf(re) <==> Wf(re.l) && Wf(re.r))
  {
  }

  lemma AltOutcomes(x: Subject, re: Re, cc: nat, back: bool, s: St)
    requires re.Alt?
    ensures Outcomes(x, re, cc, back, s) == Outcomes(x, re.l, cc, back, s) + Outcomes(x, re.r, cc + NCap(re.l), back, s)
  {
    hide NCap, OutcomesAll, Times, TimesAll, UpToAll, StarAll, MatchChar, Holds, SetAll;
  }

  lemma AltCode(env: Env, re: Re, cc: nat, back: bool)
    requires re.Alt?
    ensures var A, B := Compile(env, re.l, cc, back), Compile(env, re.r, cc + NCap(re.l), back);
      Compile(env, re, cc, back) == [SplitNextFirst(Size(A) + 5)] + (A + ([Goto(Size(B))] + B))
  {
    hide Size;
  }

  lemma {:induction false} SimCat(m: Machine, re: Re, cc: nat, back: bool, s: St, pc: int, stk: seq<int>)
    requires re.Cat? && Ready(m, re, cc, back, pc, |stk|) && StOk(m.x, s)
    ensures Seg(m, pc, stk, pc + CodeSize(m, re, cc, back), stk, s, Outcomes(m.x, re, cc, back, s))
    decreases re, 0, 0, 1, 0
  {
    hide Seg, Placed, StOk, Compile, Outcomes, Wf;
    UnfoldCat(m.x, re, cc, back, s);
    var lc, rc := cc, cc + NCap(re.l);
    if back {
      SimPair(m, re, re.r, rc, re.l, lc, back, s, pc, stk);
    } else {
      SimPair(m, re, re.l, lc, re.r, rc, back, s, pc, stk);
    }
  }

  lemma {:induction false} SimAlt(m: Machine, re: Re, cc: nat, back: bool, s: St, pc: int, stk: seq<int>)
    requires re.Alt? && Ready(m, re, cc, back, pc, |stk|) && StOk(m.x, s)
    ensures Seg(m, pc, stk, pc + CodeSize(m, re, cc, back), stk, s, Outcomes(m.x, re, cc, back, s))
    decreases re, 0, 0, 0, 0
  {
    hide Seg, SegAll, Placed, StOk, Decode, Level, AllOk, Compile, Outcomes, Wf, Size;
    AltParts(re);
    AltOutcomes(m.x, re, cc, back, s);
    AltCode(m.x.env, re, cc, back);
    var rc := cc + NCap(re.l);
    var A, B := Compile(m.x.env, re.l, cc, back), Compile(m.x.env, re.r, rc, back);
    var oa, ob := Outcomes(m.x, re.l, cc, back, s), Outcomes(m.x, re.r, rc, back, s);
    var h := |stk|;
    var j := pc + 5 + Size(A);
    var exit := j + 5 + Size(B);
    Balanced(m.x.env, re.l, cc, back);
    PlacedHead(m, pc, SplitNextFirst(Size(A) + 5), A + ([Goto(Size(B))] + B), h);
    PlacedBody(m, pc + 5, A, [Goto(Size(B))] + B, h);
    PlacedHead(m, j, Goto(Size(B)), B, h);
    SimRe(m, re.l, cc, back, s, pc + 5, stk);
    SimRe(m, re.r, rc, back, s, j + 5, stk);
    OutcomesOk(m.x, re.l, cc, back, s);
    assert forall r | r in oa :: StOk(m.x, r) by { AllOkElim(m.x, oa); }
    SegAllGoto(m, j, Size(B), stk, oa);
    SegThen(m, pc + 5, stk, j, stk, exit, stk, s, oa, oa);
    StOkRange(m.x, s);
    SegFork(m, pc, SplitNextFirst(Size(A) + 5), stk, exit, stk, s, oa, ob);
  }

  lemma AllOkElim(x: Subject, sts: seq<St>)
    requires AllOk(x, sts)
    ensures forall s | s in sts :: StOk(x, s)
  {
  }

  lemma UnfoldCapture(x: Subject, re: Re, cc: nat, back: bool, s: St)
    requires re.Capture?
    ensures NCap(re) == 1 + NCap(re.body) && (Wf(re) <==> Wf(re.body))
    ensures var A := Compile(x.env, re.body, cc + 1, back);
      Compile(x.env, re, cc, back) ==
      if back then [SaveEnd(cc)] + (A + [SaveStart(cc)]) else [SaveStart(cc)] + (A + [SaveEnd(cc)])
    ensures var (k1, k2) := if back then (2 * cc + 1, 2 * cc) else (2 * cc, 2 * cc + 1);
      Outcomes(x, re, cc, back, s) == SetAll(Outcomes(x, re.body, cc + 1, back, s.(caps := SetCap(s.caps, k1, s.pos))),
          k2)
  {
    hide Outcomes, SetCap, SetAll;
    OutcomesCapture(x, re.body, cc, back, s);
  }

  lemma UnfoldLook(x: Subject, re: Re, cc: nat, back: bool, s: St)
    requires re.Look?
    ensures NCap(re) == NCap(re.body) && (Wf(re) <==> Wf(re.body))
    ensures var A := Compile(x.env, re.body, cc, re.behind);
      Compile(x.env, re, cc, back) ==
      [if re.neg then NegativeLookahead(Size(A) + 1) else Lookahead(Size(A) + 1)] + (A + [Match])
    ensures var o := Outcomes(x, re.body, cc, re.behind, s);
      Outcomes(x, re, cc, back, s) ==
      if re.neg then (if o == [] then [s] else []) else if o == [] then [] else [s.(caps := o[0].caps)]
  {
    hide Outcomes;
    OutcomesLook(x, re.neg, re.behind, re.body, cc, back, s);
  }

  lemma {:induction false} SimCapture(m: Machine, re: Re, cc: nat, back: bool, s: St, pc: int, stk: seq<int>)
    requires re.Capture? && Ready(m, re, cc, back, pc, |stk|) && StOk(m.x, s)
    ensures Seg(m, pc, stk, pc + CodeSize(m, re, cc, back), stk, s, Outcomes(m.x, re, cc, back, s))
    decreases re, 0, 0, 0, 0
  {
    hide Seg, SegAll, Placed, Decode, Level, AllOk, SetCap, Compile, Outcomes, Wf, Size, SetAll;
    UnfoldCapture(m.x, re, cc, back, s);
    var A := Compile(m.x.env, re.body, cc + 1, back);
    var h := |stk|;
    var first := if back then SaveEnd(cc) else SaveStart(cc);
    var last := if back then SaveStart(cc) else SaveEnd(cc);
    var k1, k2 := if back then 2 * cc + 1 else 2 * cc, if back then 2 * cc else 2 * cc + 1;
    var s1 := s.(caps := SetCap(s.caps, k1, s.pos));
    var o := Outcomes(m.x, re.body, cc + 1, back, s1);
    Balanced(m.x.env, re.body, cc + 1, back);
    PlacedHead(m, pc, first, A + [last], h);
    PlacedBody(m, pc + 2, A, [last], h);
    PlacedOne(m, pc + 2 + Size(A), last, h);
    SimRe(m, re.body, cc + 1, back, s1, pc + 2, stk);
    OutcomesOk(m.x, re.body, cc + 1, back, s1);
    AllOkElim(m.x, o);
    SegAllSave(m, pc + 2 + Size(A), last, k2, stk, o);
    SegThen(m, pc + 2, stk, pc + 2 + Size(A), stk, pc + 4 + Size(A), stk, s1, o, SetAll(o, k2));
    SegSave(m, pc, first, k1, stk, pc + 4 + Size(A), stk, s, SetAll(o, k2));
  }

  lemma {:induction false} SimLook(m: Machine, re: Re, cc: nat, back: bool, s: St, pc: int, stk: seq<int>)
    requires re.Look? && Ready(m, re, cc, back, pc, |stk|) && StOk(m.x, s)
    ensures Seg(m, pc, stk, pc + CodeSize(m, re, cc, back), stk, s, Outcomes(m.x, re, cc, back, s))
    decreases re, 0, 0, 0, 0
  {
    hide Seg, Placed, StOk, Decode, Level, AllOk, Compile, Outcomes, Wf;
    UnfoldLook(m.x, re, cc, back, s);
    var A := Compile(m.x.env, re.body, cc, re.behind);
    var i := if re.neg then NegativeLookahead(Size(A) + 1) else Lookahead(Size(A) + 1);
    var o := Outcomes(m.x, re.body, cc, re.behind, s);
    Balanced(m.x.env, re.body, cc, re.behind);
    PlacedHead(m, pc, i, A + [Match], |stk|);
    PlacedBody(m, pc + 5, A, [Match], |stk|);
    PlacedOne(m, pc + 5 + Size(A), Match, |stk|);
    SimRe(m, re.body, cc, re.behind, s, pc + 5, stk);
    OutcomesOk(m.x, re.body, cc, re.behind, s);
    AllOkElim(m.x, o);
    SegLook(m, pc, re.neg, Size(A), stk, s, o);
  }

  // ---- counted loops

  lemma TimesOk(x: Subject, a: Re, cc: nat, back: bool, n: nat, s: St)
    requires StOk(x, s)
    ensures Left(x, back, Rem(x, back, s), Times(x, a, cc, back, n, s)) && AllOk(x, Times(x, a, cc, back, n, s))
  {
    hide Times;
    TimesLeft(x, a, cc, back, n, s);
  }

  /** The loop at pc of atom a, counter on the stack, followed by the loop and drop instructions. */
  ghost predicate Counted(m: Machine, a: Re, cc: nat, back: bool, pc: int, off: int, h: nat) {
    var end := pc + CodeSize(m, a, cc, back);
    Ready(m, a, cc, back, pc, h) && Decode(m.code, end) == Some(Loop(off)) && Decode(m.code, end + 5) == Some(Drop)
  }

  lemma CountedPlaced(m: Machine, a: Re, cc: nat, back: bool, pc: int, off: int, h: nat)
    requires Wf(a) && cc + NCap(a) <= m.ncap && h > 0
    requires Placed(m, pc, Compile(m.x.env, a, cc, back) + [Loop(off), Drop], h)
    ensures Counted(m, a, cc, back, pc, off, h)
    ensures Size(Compile(m.x.env, a, cc, back) + [Loop(off), Drop]) == CodeSize(m, a, cc, back) + 6
  {
    hide Placed, Level, Compile, Decode, Size, Wf, NCap;
    var A := Compile(m.x.env, a, cc, back);
    Balanced(m.x.env, a, cc, back);
    PlacedBody(m, pc, A, [Loop(off), Drop], h);
    assert [Loop(off), Drop] == [Loop(off)] + [Drop];
    PlacedHead(m, pc + Size(A), Loop(off), [Drop], h);
    PlacedOne(m, pc + Size(A) + 5, Drop, h);
  }

  lemma {:induction false} SimTimes(m: Machine, a: Re, cc: nat, back: bool, n: nat, s: St, pc: int, stk: seq<int>)
    requires n > 0 && Counted(m, a, cc, back, pc, -(CodeSize(m, a, cc, back) + 5), |stk| + 1) && StOk(m.x, s)
    ensures Seg(m, pc, stk + [n], pc + CodeSize(m, a, cc, back) + 6, stk, s, Times(m.x, a, cc, back, n, s))
    decreases a, 2, n, 0, 0
  {
    hide Seg, SegAll, Placed, StOk, Outcomes, Compile, Decode, AllOk;
    var len := CodeSize(m, a, cc, back);
    var o := Outcomes(m.x, a, cc, back, s);
    SimRe(m, a, cc, back, s, pc, stk + [n]);
    OutcomesOk(m.x, a, cc, back, s);
    SimTimesAll(m, a, cc, back, n - 1, o, pc, stk);
    SegThen(m, pc, stk + [n], pc + len, stk + [n], pc + len + 6, stk, s, o, TimesAll(m.x, a, cc, back, n - 1, o));
  }

  lemma {:induction false} SimTimesAll(m: Machine, a: Re, cc: nat, back: bool, n: nat, sts: seq<St>, pc: int,
                                       stk: seq<int>)
    requires Counted(m, a, cc, back, pc, -(CodeSize(m, a, cc, back) + 5), |stk| + 1) && AllOk(m.x, sts)
    ensures SegAll(m, pc + CodeSize(m, a, cc, back), stk + [n + 1], pc + CodeSize(m, a, cc, back) + 6, stk, sts,
                   TimesAll(m.x, a, cc, back, n, sts))
    decreases a, 2, n, 1, |sts|
  {
    hide Seg, SegAll, Placed, StOk, Outcomes, Compile, Decode;
    var end := pc + CodeSize(m, a, cc, back);
    if sts == [] {
      SegAllNil(m, end, stk + [n + 1], end + 6, stk);
    } else {
      assert sts[0] in sts;
      var o := Times(m.x, a, cc, back, n, sts[0]);
      if n > 0 { SimTimes(m, a, cc, back, n, sts[0], pc, stk); } else { SegDrop(m, end + 5, 0, stk, sts[0]); }
      SegLoop(m, end, -(CodeSize(m, a, cc, back) + 5), n + 1, stk, end + 6, stk, sts[0], o);
      SimTimesAll(m, a, cc, back, n, sts[1..], pc, stk);
      SegAllCons(m, end, stk + [n + 1], end + 6, stk, sts, o, TimesAll(m.x, a, cc, back, n, sts[1..]));
    }
  }

  /** The bounded loop at pc: split, atom, loop, drop. */
  ghost predicate LoopAt(m: Machine, a: Re, cc: nat, back: bool, greedy: bool, pc: int, h: nat) {
    Decode(m.code, pc) == Some(SplitBody(greedy, CodeSize(m, a, cc, back) + 5)) &&
    Counted(m, a, cc, back, pc + 5, -(CodeSize(m, a, cc, back) + 10), h)
  }

  lemma {:induction false} SimUpTo(m: Machine, a: Re, cc: nat, back: bool, greedy: bool, n: nat, s: St, pc: int,
                                   stk: seq<int>)
    requires n > 0 && LoopAt(m, a, cc, back, greedy, pc, |stk| + 1) && StOk(m.x, s)
    ensures Seg(m, pc, stk + [n], pc + CodeSize(m, a, cc, back) + 11, stk, s, UpTo(m.x, a, cc, back, greedy, n, s))
    decreases a, 2, n, 0, 0
  {
    hide Seg, SegAll, Placed, StOk, Outcomes, Compile, Decode, AllOk;
    var len := CodeSize(m, a, cc, back);
    var exit := pc + len + 11;
    var o := Outcomes(m.x, a, cc, back, s);
    var more := UpToAll(m.x, a, cc, back, greedy, n - 1, o);
    SimRe(m, a, cc, back, s, pc + 5, stk + [n]);
    OutcomesOk(m.x, a, cc, back, s);
    SimUpToAll(m, a, cc, back, greedy, n - 1, o, pc, stk);
    SegThen(m, pc + 5, stk + [n], pc + 5 + len, stk + [n], exit, stk, s, o, more);
    SegDrop(m, pc + len + 10, n, stk, s);
    SegSplitBody(m, pc, greedy, len + 5, stk + [n], exit, stk, s, more, [s]);
  }

  lemma {:induction false} SimUpToAll(m: Machine, a: Re, cc: nat, back: bool, greedy: bool, n: nat, sts: seq<St>,
                                      pc: int, stk: seq<int>)
    requires LoopAt(m, a, cc, back, greedy, pc, |stk| + 1) && AllOk(m.x, sts)
    ensures SegAll(m, pc + 5 + CodeSize(m, a, cc, back), stk + [n + 1], pc + CodeSize(m, a, cc, back) + 11, stk, sts,
                   UpToAll(m.x, a, cc, back, greedy, n, sts))
    decreases a, 2, n, 1, |sts|
  {
    hide Seg, SegAll, Placed, StOk, Outcomes, Compile, Decode;
    var end := pc + 5 + CodeSize(m, a, cc, back);
    if sts == [] {
      SegAllNil(m, end, stk + [n + 1], end + 6, stk);
    } else {
      assert sts[0] in sts;
      var o := UpTo(m.x, a, cc, back, greedy, n, sts[0]);
      if n > 0 { SimUpTo(m, a, cc, back, greedy, n, sts[0], pc, stk); } else { SegDrop(m, end + 5, 0, stk, sts[0]); }
      SegLoop(m, end, -(CodeSize(m, a, cc, back) + 10), n + 1, stk, end + 6, stk, sts[0], o);
      SimUpToAll(m, a, cc, back, greedy, n, sts[1..], pc, stk);
      SegAllCons(m, end, stk + [n + 1], end + 6, stk, sts, o, UpToAll(m.x, a, cc, back, greedy, n, sts[1..]));
    }
  }

  // ---- unbounded loops

  function CheckSize(check: bool): nat { if check then 1 else 0 }

  /** The unbounded loop at pc: split, position pushed when checked, atom, jump back. */
  ghost predicate StarAt(m: Machine, a: Re, cc: nat, back: bool, greedy: bool, check: bool, pc: int, h: nat) {
    var len: int, k := CodeSize(m, a, cc, back), CheckSize(check);
    && Decode(m.code, pc) == Some(SplitBody(greedy, len + 5 + k))
    && (check ==> Decode(m.code, pc + 5) == Some(PushCharPos) && h < m.stackMax)
    && Ready(m, a, cc, back, pc + 5 + k, h + k)
    && Decode(m.code, pc + 5 + k + len) == Some(if check then BneCharPos(-(len + 11)) else Goto(-(len + 10)))
    && (check || NonNull(a))
  }

  lemma {:induction false} SimStar(m: Machine, a: Re, cc: nat, back: bool, greedy: bool, check: bool, s: St, pc: int,
                                   stk: seq<int>)
    requires StarAt(m, a, cc, back, greedy, check, pc, |stk|) && StOk(m.x, s)
    ensures Seg(m, pc, stk, pc + CodeSize(m, a, cc, back) + 10 + CheckSize(check), stk, s,
        Star(m.x, a, cc, back, greedy, s))
    decreases a, 2, Rem(m.x, back, s), 1, 0
  {
    hide Seg, SegAll, Placed, StOk, Outcomes, Compile, Decode, Left;
    var len, k := CodeSize(m, a, cc, back), CheckSize(check);
    var exit := pc + len + 10 + k;
    var o := Outcomes(m.x, a, cc, back, s);
    var more := StarAll(m.x, a, cc, back, greedy, Rem(m.x, back, s), o);
    var stk1 := if check then stk + [s.pos] else stk;
    SimRe(m, a, cc, back, s, pc + 5 + k, stk1);
    OutcomesLeft(m.x, a, cc, back, s);
    SimStarAll(m, a, cc, back, greedy, check, s, o, pc, stk);
    SegThen(m, pc + 5 + k, stk1, pc + 5 + k + len, stk1, exit, stk, s, o, more);
    if check { SegPushPos(m, pc + 5, stk, exit, stk, s, more); }
    SegDone(m, exit, stk, s);
    SegSplitBody(m, pc, greedy, len + 5 + k, stk, exit, stk, s, more, [s]);
  }

  lemma SameRem(x: Subject, back: bool, s: St, r: St)
    requires StOk(x, s) && StOk(x, r) && Rem(x, back, r) <= Rem(x, back, s)
    ensures r.pos == s.pos <==> !(Rem(x, back, r) < Rem(x, back, s))
  {
  }

  /** At the end of the loop body: on from every state that has advanced, out at the others. */
  lemma {:induction false} SimStarAll(m: Machine, a: Re, cc: nat, back: bool, greedy: bool, check: bool, s: St,
                                      sts: seq<St>,
                                      pc: int, stk: seq<int>)
    requires StarAt(m, a, cc, back, greedy, check, pc, |stk|)
    requires StOk(m.x, s) && Left(m.x, back, After(m.x, a, back, s), sts)
    ensures SegAll(m, pc + 5 + CheckSize(check) + CodeSize(m, a, cc, back), if check then stk + [s.pos] else stk,
                   pc + CodeSize(m, a, cc, back) + 10 + CheckSize(check), stk, sts,
                   StarAll(m.x, a, cc, back, greedy, Rem(m.x, back, s), sts))
    decreases a, 2, Rem(m.x, back, s), 0, |sts|
  {
    hide Seg, SegAll, Placed, StOk, Outcomes, Compile, Decode;
    var len: int, k := CodeSize(m, a, cc, back), CheckSize(check);
    var end, exit := pc + 5 + k + len, pc + len + 10 + k;
    var stk1 := if check then stk + [s.pos] else stk;
    if sts == [] {
      SegAllNil(m, end, stk1, exit, stk);
    } else {
      var r := sts[0];
      assert r in sts;
      SameRem(m.x, back, s, r);
      var on := Rem(m.x, back, r) < Rem(m.x, back, s);
      var o := if on then Star(m.x, a, cc, back, greedy, r) else [r];
      if on { SimStar(m, a, cc, back, greedy, check, r, pc, stk); } else { SegDone(m, exit, stk, r); }
      if check { SegCheck(m, end, -(len + 11), s.pos, stk, exit, stk, r, o); }
      else { SegGoto(m, end, -(len + 10), stk, exit, stk, r, o); }
      SimStarAll(m, a, cc, back, greedy, check, s, sts[1..], pc, stk);
      SegAllCons(m, end, stk1, exit, stk, sts, o, StarAll(m.x, a, cc, back, greedy, Rem(m.x, back, s), sts[1..]));
    }
  }

  /** The form of `+` with the split at the end of the body: at the split, with the body before it. */
  ghost predicate PlusAt(m: Machine, a: Re, cc: nat, back: bool, greedy: bool, pc: int, h: nat) {
    var len: int := CodeSize(m, a, cc, back);
    Ready(m, a, cc, back, pc, h) && NonNull(a) &&
    Decode(m.code, pc + len) == Some(SplitBack(greedy, -(len + 5)))
  }

  lemma {:induction false} SimPlus(m: Machine, a: Re, cc: nat, back: bool, greedy: bool, s: St, pc: int, stk: seq<int>)
    requires PlusAt(m, a, cc, back, greedy, pc, |stk|) && StOk(m.x, s)
    ensures Seg(m, pc + CodeSize(m, a, cc, back), stk, pc + CodeSize(m, a, cc, back) + 5, stk, s,
        Star(m.x, a, cc, back, greedy, s))
    decreases a, 2, Rem(m.x, back, s), 1, 0
  {
    hide Seg, SegAll, Placed, StOk, Outcomes, Compile, Decode, Left;
    var len: int := CodeSize(m, a, cc, back);
    var end := pc + len;
    var o := Outcomes(m.x, a, cc, back, s);
    var more := StarAll(m.x, a, cc, back, greedy, Rem(m.x, back, s), o);
    SimRe(m, a, cc, back, s, pc, stk);
    OutcomesLeft(m.x, a, cc, back, s);
    SimPlusAll(m, a, cc, back, greedy, Rem(m.x, back, s), o, pc, stk);
    SegThen(m, pc, stk, end, stk, end + 5, stk, s, o, more);
    SegDone(m, end + 5, stk, s);
    SegSplitBack(m, end, greedy, -(len + 5), stk, end + 5, stk, s, more, [s]);
  }

  lemma {:induction false} SimPlusAll(m: Machine, a: Re, cc: nat, back: bool, greedy: bool, bound: nat, sts: seq<St>,
                                      pc: int, stk: seq<int>)
    requires PlusAt(m, a, cc, back, greedy, pc, |stk|) && Left(m.x, back, bound - 1, sts)
    ensures SegAll(m, pc + CodeSize(m, a, cc, back), stk, pc + CodeSize(m, a, cc, back) + 5, stk, sts,
                   StarAll(m.x, a, cc, back, greedy, bound, sts))
    decreases a, 2, bound, 0, |sts|
  {
    hide Seg, SegAll, Placed, StOk, Outcomes, Compile, Decode;
    var end := pc + CodeSize(m, a, cc, back);
    if sts == [] {
      SegAllNil(m, end, stk, end + 5, stk);
    } else {
      assert sts[0] in sts;
      SimPlus(m, a, cc, back, greedy, sts[0], pc, stk);
      SimPlusAll(m, a, cc, back, greedy, bound, sts[1..], pc, stk);
      SegAllCons(m, end, stk, end + 5, stk, sts, Star(m.x, a, cc, back, greedy, sts[0]),
                 StarAll(m.x, a, cc, back, greedy, bound, sts[1..]));
    }
  }

  // ---- quantifiers

  lemma CheckedPlaced(m: Machine, A: seq<Insn>, greedy: bool, pc: int, h: nat)
    requires Level(A) && Placed(m, pc, StarCode(A, greedy, true), h)
    ensures Decode(m.code, pc) == Some(SplitBody(greedy, Size(A) + 6))
    ensures Decode(m.code, pc + 5) == Some(PushCharPos) && h < m.stackMax
    ensures Placed(m, pc + 6, A, h + 1)
    ensures Decode(m.code, pc + 6 + Size(A)) == Some(BneCharPos(-(Size(A) as int + 11)))
  {
    hide Placed, Decode, Level, Size;
    var len: int := Size(A);
    var last := BneCharPos(-(len + 11));
    PlacedHead(m, pc, SplitBody(greedy, len + 6), [PushCharPos] + (A + [last]), h);
    PlacedHead(m, pc + 5, PushCharPos, A + [last], h);
    PlacedBody(m, pc + 6, A, [last], h + 1);
    PlacedOne(m, pc + 6 + len, last, h + 1);
  }

  lemma UncheckedPlaced(m: Machine, A: seq<Insn>, greedy: bool, pc: int, h: nat)
    requires Level(A) && Placed(m, pc, StarCode(A, greedy, false), h)
    ensures Decode(m.code, pc) == Some(SplitBody(greedy, Size(A) + 5))
    ensures Placed(m, pc + 5, A, h)
    ensures Decode(m.code, pc + 5 + Size(A)) == Some(Goto(-(Size(A) as int + 10)))
  {
    hide Placed, Decode, Level, Size;
    var len: int := Size(A);
    var last := Goto(-(len + 10));
    assert [] + (A + [last]) == A + [last];
    PlacedHead(m, pc, SplitBody(greedy, len + 5), A + [last], h);
    PlacedBody(m, pc + 5, A, [last], h);
    PlacedOne(m, pc + 5 + len, last, h);
  }

  lemma StarPlaced(m: Machine, a: Re, cc: nat, back: bool, greedy: bool, check: bool, pc: int, h: nat)
    requires Wf(a) && cc + NCap(a) <= m.ncap && (check || NonNull(a))
    requires Placed(m, pc, StarCode(Compile(m.x.env, a, cc, back), greedy, check), h)
    ensures StarAt(m, a, cc, back, greedy, check, pc, h)
    ensures Size(StarCode(Compile(m.x.env, a, cc, back), greedy, check)) == CodeSize(m, a, cc, back) + 10
        + CheckSize(check)
  {
    hide Placed, Compile, Decode, Level, Size, StarCode, Wf, NonNull, NCap, StarAt;
    var A := Compile(m.x.env, a, cc, back);
    SizeStar(A, greedy, check);
    if check {
      StarPlacedChecked(m, a, cc, back, greedy, pc, h);
    } else {
      StarPlacedUnchecked(m, a, cc, back, greedy, pc, h);
    }
  }

  lemma StarPlacedChecked(m: Machine, a: Re, cc: nat, back: bool, greedy: bool, pc: int, h: nat)
    requires Wf(a) && cc + NCap(a) <= m.ncap
    requires Placed(m, pc, StarCode(Compile(m.x.env, a, cc, back), greedy, true), h)
    ensures StarAt(m, a, cc, back, greedy, true, pc, h)
  {
    hide Placed, Compile, Decode, Level, Size, StarCode, Wf, NonNull, NCap;
    Balanced(m.x.env, a, cc, back);
    CheckedPlaced(m, Compile(m.x.env, a, cc, back), greedy, pc, h);
  }

  lemma StarPlacedUnchecked(m: Machine, a: Re, cc: nat, back: bool, greedy: bool, pc: int, h: nat)
    requires Wf(a) && cc + NCap(a) <= m.ncap && NonNull(a)
    requires Placed(m, pc, StarCode(Compile(m.x.env, a, cc, back), greedy, false), h)
    ensures StarAt(m, a, cc, back, greedy, false, pc, h)
  {
    hide Placed, Compile, Decode, Level, Size, StarCode, Wf, NonNull, NCap;
    Balanced(m.x.env, a, cc, back);
    UncheckedPlaced(m, Compile(m.x.env, a, cc, back), greedy, pc, h);
  }

  lemma LoopPlaced(m: Machine, a: Re, cc: nat, back: bool, greedy: bool, n: int, pc: int, h: nat)
    requires Wf(a) && cc + NCap(a) <= m.ncap
    requires Placed(m, pc, UpToCode(Compile(m.x.env, a, cc, back), greedy, n), h)
    ensures Decode(m.code, pc) == Some(PushI32(n)) && h < m.stackMax
    ensures LoopAt(m, a, cc, back, greedy, pc + 5, h + 1)
    ensures Size(UpToCode(Compile(m.x.env, a, cc, back), greedy, n)) == CodeSize(m, a, cc, back) + 16
  {
    hide Placed, Compile, Decode, Level;
    var A := Compile(m.x.env, a, cc, back);
    SizeCounted(A, greedy, n);
    PlacedHead(m, pc, PushI32(n), LoopCode(A, greedy), h);
    PlacedHead(m, pc + 5, SplitBody(greedy, Size(A) + 5), A + [Loop(-(Size(A) as int + 10)), Drop], h + 1);
    CountedPlaced(m, a, cc, back, pc + 10, -(Size(A) as int + 10), h + 1);
  }

  /** The unbounded loop entered from every state of a list. */
  lemma {:induction false} SimStarList(m: Machine, a: Re, cc: nat, back: bool, greedy: bool, check: bool, bound: nat,
                                       sts: seq<St>,
                                       pc: int, stk: seq<int>)
    requires StarAt(m, a, cc, back, greedy, check, pc, |stk|) && Left(m.x, back, bound - 1, sts)
    ensures SegAll(m, pc, stk, pc + CodeSize(m, a, cc, back) + 10 + CheckSize(check), stk, sts,
                   StarAll(m.x, a, cc, back, greedy, bound, sts))
    decreases a, 3, 0, 0, |sts|
  {
    hide Seg, SegAll, StOk, Outcomes, Compile, StarAt;
    var exit := pc + CodeSize(m, a, cc, back) + 10 + CheckSize(check);
    if sts == [] {
      SegAllNil(m, pc, stk, exit, stk);
    } else {
      assert sts[0] in sts;
      SimStar(m, a, cc, back, greedy, check, sts[0], pc, stk);
      SimStarList(m, a, cc, back, greedy, check, bound, sts[1..], pc, stk);
      SegAllCons(m, pc, stk, exit, stk, sts, Star(m.x, a, cc, back, greedy, sts[0]),
                 StarAll(m.x, a, cc, back, greedy, bound, sts[1..]));
    }
  }

  /** The bounded loop entered from every state of a list. */
  lemma {:induction false} SimUpToList(m: Machine, a: Re, cc: nat, back: bool, greedy: bool, n: nat, sts: seq<St>,
                                       pc: int, stk: seq<int>)
    requires n > 0 && Decode(m.code, pc) == Some(PushI32(n)) && |stk| < m.stackMax
    requires LoopAt(m, a, cc, back, greedy, pc + 5, |stk| + 1) && AllOk(m.x, sts)
    ensures SegAll(m, pc, stk, pc + CodeSize(m, a, cc, back) + 16, stk, sts, UpToAll(m.x, a, cc, back, greedy, n, sts))
    decreases a, 3, 0, 0, |sts|
  {
    hide Seg, SegAll, StOk, Outcomes, Compile, Decode, LoopAt;
    var exit := pc + CodeSize(m, a, cc, back) + 16;
    if sts == [] {
      SegAllNil(m, pc, stk, exit, stk);
    } else {
      assert sts[0] in sts;
      var o := UpTo(m.x, a, cc, back, greedy, n, sts[0]);
      SimUpTo(m, a, cc, back, greedy, n, sts[0], pc + 5, stk);
      SegPush(m, pc, n, stk, exit, stk, sts[0], o);
      SimUpToList(m, a, cc, back, greedy, n, sts[1..], pc, stk);
      SegAllCons(m, pc, stk, exit, stk, sts, o, UpToAll(m.x, a, cc, back, greedy, n, sts[1..]));
    }
  }

  /** The outcomes of the optional turns, from a list of states. */
  function RestAll(x: Subject, a: Re, cc: nat, back: bool, min: nat, max: int, greedy: bool, bound: nat,
                   sts: seq<St>): seq<St>
    requires min <= max
  {
    if max == INT32_MAX then StarAll(x, a, cc, back, greedy, bound, sts)
    else UpToAll(x, a, cc, back, greedy, max - min, sts)
  }

  lemma {:induction false} SimRest(m: Machine, a: Re, cc: nat, back: bool, min: nat, max: int, greedy: bool,
                                   check: bool,
                                   bound: nat, sts: seq<St>, pc: int, stk: seq<int>)
    requires Wf(a) && cc + NCap(a) <= m.ncap && min <= max && (check || max != INT32_MAX || NonNull(a))
    requires Placed(m, pc, RestCode(Compile(m.x.env, a, cc, back), min, max, greedy, check), |stk|)
    requires AllOk(m.x, sts) && Left(m.x, back, bound - 1, sts)
    ensures SegAll(m, pc, stk, pc + Size(RestCode(Compile(m.x.env, a, cc, back), min, max, greedy, check)), stk, sts,
                   RestAll(m.x, a, cc, back, min, max, greedy, bound, sts))
    decreases a, 4, 0, 0, 0
  {
    hide Seg, SegAll, StOk, Outcomes, Compile, Decode, LoopAt, StarAt, Placed, Left, AllOk, StarCode, UpToCode;
    if max == INT32_MAX {
      StarPlaced(m, a, cc, back, greedy, check, pc, |stk|);
      SimStarList(m, a, cc, back, greedy, check, bound, sts, pc, stk);
    } else if max > min {
      LoopPlaced(m, a, cc, back, greedy, max - min, pc, |stk|);
      SimUpToList(m, a, cc, back, greedy, max - min, sts, pc, stk);
    } else {
      UpToZero(m.x, a, cc, back, greedy, sts);
      SegAllId(m, pc, stk, sts);
    }
  }

  lemma UpToOnce(x: Subject, a: Re, cc: nat, back: bool, greedy: bool, s: St)
    ensures var o := Outcomes(x, a, cc, back, s);
      UpToAll(x, a, cc, back, greedy, 1, [s]) == if greedy then o + [s] else [s] + o
  {
    hide Outcomes;
    UpToZero(x, a, cc, back, greedy, Outcomes(x, a, cc, back, s));
    var u := UpTo(x, a, cc, back, greedy, 1, s);
    assert [s][1..] == [] && u + [] == u;
  }

  /** A quantifier that starts at zero is its optional turns from one state. */
  lemma {:induction false} SimZero(m: Machine, a: Re, cc: nat, back: bool, max: int, greedy: bool, check: bool, s: St,
                                   pc: int, stk: seq<int>)
    requires Wf(a) && cc + NCap(a) <= m.ncap && max >= 0 && (check || max != INT32_MAX || NonNull(a)) && StOk(m.x, s)
    requires Placed(m, pc, ZeroCode(Compile(m.x.env, a, cc, back), max, greedy, check), |stk|)
    ensures Seg(m, pc, stk, pc + Size(ZeroCode(Compile(m.x.env, a, cc, back), max, greedy, check)), stk, s,
                if max == 0 then [s] else RestAll(m.x, a, cc, back, 0, max, greedy, Rem(m.x, back, s) + 1, [s]))
    decreases a, 5, 0, 0, 0
  {
    hide Seg, SegAll, Outcomes, Compile, Decode, LoopAt, StarAt, Placed, StarCode, UpToCode;
    var A := Compile(m.x.env, a, cc, back);
    if max == 0 {
      SegDone(m, pc, stk, s);
    } else if max == 1 {
      var o := Outcomes(m.x, a, cc, back, s);
      PlacedHead(m, pc, SplitBody(greedy, Size(A)), A, |stk|);
      SimRe(m, a, cc, back, s, pc + 5, stk);
      SegDone(m, pc + 5 + Size(A), stk, s);
      SegSplitBody(m, pc, greedy, Size(A), stk, pc + 5 + Size(A), stk, s, o, [s]);
      UpToOnce(m.x, a, cc, back, greedy, s);
    } else {
      var outs := RestAll(m.x, a, cc, back, 0, max, greedy, Rem(m.x, back, s) + 1, [s]);
      SimRest(m, a, cc, back, 0, max, greedy, check, Rem(m.x, back, s) + 1, [s], pc, stk);
      SegDone(m, pc, stk, s);
      SegThen(m, pc, stk, pc, stk, pc + Size(ZeroCode(A, max, greedy, check)), stk, s, [s], outs);
    }
  }

  /** The first min turns. */
  lemma {:induction false} SimMin(m: Machine, a: Re, cc: nat, back: bool, min: nat, s: St, pc: int, stk: seq<int>)
    requires min > 0 && Wf(a) && cc + NCap(a) <= m.ncap && StOk(m.x, s)
    requires Placed(m, pc, MinCode(Compile(m.x.env, a, cc, back), min), |stk|)
    ensures Seg(m, pc, stk, pc + Size(MinCode(Compile(m.x.env, a, cc, back), min)), stk, s,
        Times(m.x, a, cc, back, min, s))
    decreases a, 5, 0, 0, 0
  {
    hide Seg, StOk, Outcomes, Compile, Decode, Placed, Counted;
    var A := Compile(m.x.env, a, cc, back);
    if min == 1 {
      SimRe(m, a, cc, back, s, pc, stk);
      TimesZero(m.x, a, cc, back, Outcomes(m.x, a, cc, back, s));
    } else {
      var off := -(Size(A) as int + 5);
      SizeCounted(A, true, min);
      PlacedHead(m, pc, PushI32(min), A + [Loop(off), Drop], |stk|);
      CountedPlaced(m, a, cc, back, pc + 5, off, |stk| + 1);
      SimTimes(m, a, cc, back, min, s, pc + 5, stk);
      SegPush(m, pc, min, stk, pc + Size(A) + 11, stk, s, Times(m.x, a, cc, back, min, s));
    }
  }

  /** What a quantifier means, by the parts of its code. */
  lemma UnfoldQuant(x: Subject, re: Re, cc: nat, back: bool, s: St)
    requires re.Quant? && Wf(re)
    ensures Wf(re.atom) && NCap(re) == NCap(re.atom) && 0 <= re.min <= re.max
    ensures !re.greedy && re.max == INT32_MAX ==> NonNull(re.atom)
    ensures Compile(x.env, re, cc, back) == QuantCode(Compile(x.env, re.atom, cc, back), cc, NCap(re.atom), re.min,
        re.max, re.greedy)
    ensures var s0 := EnterQuant(re.atom, cc, re.min, s);
      Outcomes(x, re, cc, back, s) ==
      if re.max == 0 then [s0]
      else RestAll(x, re.atom, cc, back, re.min, re.max, re.greedy, Rem(x, back, s0) + 1,
          Times(x, re.atom, cc, back, re.min, s0))
  {
    hide Outcomes, StarAll, UpToAll, Times, EnterQuant, QuantCode;
    OutcomesQuant(x, re.atom, re.min, re.max, re.greedy, cc, back, s);
  }

  lemma {:induction false} SimQuant(m: Machine, re: Re, cc: nat, back: bool, s: St, pc: int, stk: seq<int>)
    requires re.Quant? && Ready(m, re, cc, back, pc, |stk|) && StOk(m.x, s)
    ensures Seg(m, pc, stk, pc + CodeSize(m, re, cc, back), stk, s, Outcomes(m.x, re, cc, back, s))
    decreases re, 0, 0, 0, 0
  {
    hide Seg, Outcomes, Compile, Placed, Wf, ZeroCode, RestCode, MinCode, SimpleCount, ChecksAdvance, RestAll, StOk;
    UnfoldQuant(m.x, re, cc, back, s);
    var a, min, max, greedy := re.atom, re.min, re.max, re.greedy;
    var A := Compile(m.x.env, a, cc, back);
    var check := greedy && !ChecksAdvance(A);
    if !check && max == INT32_MAX && greedy { AdvanceSound(m.x.env, a, cc, back); }
    if IsSimple(A, max, greedy) {
      SimSimple(m, re, cc, back, s, pc, stk);
    } else if min == 0 {
      SimFromZero(m, re, cc, back, s, pc, stk);
    } else if min == 1 && max == INT32_MAX && !check {
      SimFromOne(m, re, cc, back, s, pc, stk);
    } else {
      SimFromMin(m, re, cc, back, s, pc, stk);
    }
  }

  /** The optimised greedy repeat. */
  lemma SimSimple(m: Machine, re: Re, cc: nat, back: bool, s: St, pc: int, stk: seq<int>)
    requires re.Quant? && Ready(m, re, cc, back, pc, |stk|) && StOk(m.x, s)
    requires IsSimple(Compile(m.x.env, re.atom, cc, back), re.max, re.greedy)
    ensures Seg(m, pc, stk, pc + CodeSize(m, re, cc, back), stk, s, Outcomes(m.x, re, cc, back, s))
  {
    hide Seg, Outcomes, Compile, Wf, SimpleCount, RestAll, MaxHeight, Has, Size, Climb, Down, Stops, Decode;
    UnfoldQuant(m.x, re, cc, back, s);
    if back { BackNotSimple(m.x.env, re.atom, cc); }
    var A := Compile(m.x.env, re.atom, cc, false);
    PlacedHead(m, pc, GreedyInsn(A, re.min, re.max), A + [Match], |stk|);
    SizeAround(GreedyInsn(A, re.min, re.max), A, Match);
    SegGreedy(m, pc, A, re.min, re.max, stk, s);
    QuantDown(m.x, re.atom, cc, s, re.min, re.max);
  }

  lemma ZeroIs(A: seq<Insn>, cc: nat, n: nat, max: int, greedy: bool)
    requires !IsSimple(A, max, greedy)
    ensures var Z := ZeroCode(A, max, greedy, greedy && !ChecksAdvance(A));
      QuantCode(A, cc, n, 0, max, greedy) == if n > 0 then [SaveReset(cc, cc + n - 1)] + Z else Z
  {
    hide ZeroCode, ChecksAdvance, SimpleCount;
    var Z := ZeroCode(A, max, greedy, greedy && !ChecksAdvance(A));
    assert [] + Z == Z;
  }

  lemma {:induction false} SimFromZero(m: Machine, re: Re, cc: nat, back: bool, s: St, pc: int, stk: seq<int>)
    requires re.Quant? && Ready(m, re, cc, back, pc, |stk|) && StOk(m.x, s) && re.min == 0
    requires !IsSimple(Compile(m.x.env, re.atom, cc, back), re.max, re.greedy)
    ensures Seg(m, pc, stk, pc + CodeSize(m, re, cc, back), stk, s, Outcomes(m.x, re, cc, back, s))
    decreases re.atom, 6, 0, 0, 0
  {
    hide Seg, Outcomes, Compile, Placed, Wf, ZeroCode, SimpleCount, ChecksAdvance, RestAll, Decode, ResetCaps,
        QuantCode;
    UnfoldQuant(m.x, re, cc, back, s);
    var a := re.atom;
    var A := Compile(m.x.env, a, cc, back);
    var check := re.greedy && !ChecksAdvance(A);
    var Z := ZeroCode(A, re.max, re.greedy, check);
    ZeroIs(A, cc, NCap(a), re.max, re.greedy);
    if re.max == INT32_MAX && !check && re.greedy { AdvanceSound(m.x.env, a, cc, back); }
    var s0 := EnterQuant(a, cc, 0, s);
    if NCap(a) > 0 {
      PlacedHead(m, pc, SaveReset(cc, cc + NCap(a) - 1), Z, |stk|);
      SimZero(m, a, cc, back, re.max, re.greedy, check, s0, pc + 3, stk);
      SegReset(m, pc, cc, cc + NCap(a) - 1, stk, pc + 3 + Size(Z), stk, s, Outcomes(m.x, re, cc, back, s));
    } else {
      SimZero(m, a, cc, back, re.max, re.greedy, check, s0, pc, stk);
    }
    TimesNone(m.x, a, cc, back, s0);
  }

  lemma TimesNone(x: Subject, a: Re, cc: nat, back: bool, s: St)
    ensures Times(x, a, cc, back, 0, s) == [s]
  {
  }

  lemma TimesOnce(x: Subject, a: Re, cc: nat, back: bool, s: St)
    ensures Times(x, a, cc, back, 1, s) == Outcomes(x, a, cc, back, s)
  {
    hide Outcomes;
    TimesZero(x, a, cc, back, Outcomes(x, a, cc, back, s));
  }

  lemma {:induction false} SimFromOne(m: Machine, re: Re, cc: nat, back: bool, s: St, pc: int, stk: seq<int>)
    requires re.Quant? && Ready(m, re, cc, back, pc, |stk|) && StOk(m.x, s) && re.min == 1 && re.max == INT32_MAX
    requires !IsSimple(Compile(m.x.env, re.atom, cc, back), re.max, re.greedy)
    requires re.greedy ==> ChecksAdvance(Compile(m.x.env, re.atom, cc, back))
    ensures Seg(m, pc, stk, pc + CodeSize(m, re, cc, back), stk, s, Outcomes(m.x, re, cc, back, s))
    decreases re.atom, 6, 0, 0, 0
  {
    hide Seg, SegAll, Outcomes, Compile, Placed, Wf, SimpleCount, ChecksAdvance, Decode, Level, Size, NonNull, Star,
        StarAll;
    UnfoldQuant(m.x, re, cc, back, s);
    var a, greedy := re.atom, re.greedy;
    var A := Compile(m.x.env, a, cc, back);
    if greedy { AdvanceSound(m.x.env, a, cc, back); }
    var o := Outcomes(m.x, a, cc, back, s);
    var j := SplitBack(greedy, -(Size(A) as int + 5));
    var bound := Rem(m.x, back, s) + 1;
    Balanced(m.x.env, a, cc, back);
    PlacedBody(m, pc, A, [j], |stk|);
    PlacedOne(m, pc + Size(A), j, |stk|);
    SimRe(m, a, cc, back, s, pc, stk);
    OutcomesLeft(m.x, a, cc, back, s);
    SimPlusAll(m, a, cc, back, greedy, bound, o, pc, stk);
    SegThen(m, pc, stk, pc + Size(A), stk, pc + Size(A) + 5, stk, s, o, StarAll(m.x, a, cc, back, greedy, bound, o));
    TimesOnce(m.x, a, cc, back, s);
  }

  lemma {:induction false} SimFromMin(m: Machine, re: Re, cc: nat, back: bool, s: St, pc: int, stk: seq<int>)
    requires re.Quant? && Ready(m, re, cc, back, pc, |stk|) && StOk(m.x, s) && re.min > 0
    requires !IsSimple(Compile(m.x.env, re.atom, cc, back), re.max, re.greedy)
    requires !(re.min == 1 && re.max == INT32_MAX && (re.greedy ==> ChecksAdvance(Compile(m.x.env, re.atom, cc, back))))
    ensures Seg(m, pc, stk, pc + CodeSize(m, re, cc, back), stk, s, Outcomes(m.x, re, cc, back, s))
    decreases re.atom, 6, 0, 0, 0
  {
    hide Seg, SegAll, Outcomes, Compile, Placed, Wf, RestCode, MinCode, SimpleCount, ChecksAdvance, RestAll, Decode,
        Level, AllOk, Left;
    UnfoldQuant(m.x, re, cc, back, s);
    var a, min, max, greedy := re.atom, re.min, re.max, re.greedy;
    var A := Compile(m.x.env, a, cc, back);
    var check := greedy && !ChecksAdvance(A);
    if max == INT32_MAX && !check && greedy { AdvanceSound(m.x.env, a, cc, back); }
    var M, R := MinCode(A, min), RestCode(A, min, max, greedy, check);
    var o := Times(m.x, a, cc, back, min, s);
    var bound := Rem(m.x, back, s) + 1;
    Balanced(m.x.env, a, cc, back);
    MinLevel(A, min);
    PlacedBody(m, pc, M, R, |stk|);
    SimMin(m, a, cc, back, min, s, pc, stk);
    TimesOk(m.x, a, cc, back, min, s);
    SimRest(m, a, cc, back, min, max, greedy, check, bound, o, pc + Size(M), stk);
    SegThen(m, pc, stk, pc + Size(M), stk, pc + Size(M) + Size(R), stk, s, o,
        RestAll(m.x, a, cc, back, min, max, greedy, bound, o));
  }

  lemma MinLevel(A: seq<Insn>, min: int)
    requires Level(A)
    ensures Level(MinCode(A, min))
  {
    PartsLevel(A, true, min);
  }
}
