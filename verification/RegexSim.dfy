/** Generated code yields exactly the outcomes of the expression it was generated from, in
    the same order. */
module RegexSim {
  import opened Options
  import opened Bytes
  import opened RegexSyntax
  import opened RegexText
  import opened RegexCode
  import opened RegexRange
  import opened RegexMatch
  import opened RegexVM
  import opened RegexCompile
  import opened RegexShape
  import opened RegexTrace
  import Lists

  /** The instructions prog stand at pc, and running them with h operands already on the stack
      stays within the announced stack size. */
  ghost predicate Placed(m: Machine, pc: int, prog: seq<Insn>, h: nat) {
    Has(m.code, pc, prog) && MaxHeight(prog, h) <= m.stackMax
  }

  lemma PlacedSplit(m: Machine, pc: int, a: seq<Insn>, b: seq<Insn>, h: nat)
    requires Placed(m, pc, a + b, h) && Height(a, h) >= 0
    ensures Placed(m, pc, a, h) && Placed(m, pc + Size(a), b, Height(a, h))
    ensures Size(a + b) == Size(a) + Size(b)
  {
    HasSplit(m.code, pc, a, b);
    HeightConcat(a, b, h);
    AsmConcat(a, b);
  }

  lemma PlacedHead(m: Machine, pc: int, i: Insn, rest: seq<Insn>, h: nat)
    requires Placed(m, pc, [i] + rest, h) && h + Delta(i) >= 0
    ensures Decode(m.code, pc) == Some(i) && Placed(m, pc + ISize(i), rest, h + Delta(i))
    ensures Size([i] + rest) == ISize(i) + Size(rest)
    ensures Delta(i) > 0 ==> h < m.stackMax
  {
    var all := [i] + rest;
    assert all[0] == i && all[1..] == rest;
    assert MaxHeight(rest, h + Delta(i)) <= m.stackMax && (Delta(i) > 0 ==> h < m.stackMax) by {
      hide Has;
      OneHeight(i, h);
      HeightConcat([i], rest, h);
    }
    hide MaxHeight, Decode;
  }

  /** Level code A followed by b. */
  lemma PlacedBody(m: Machine, pc: int, a: seq<Insn>, b: seq<Insn>, h: nat)
    requires Placed(m, pc, a + b, h) && Level(a)
    ensures Placed(m, pc, a, h) && Placed(m, pc + Size(a), b, h)
    ensures Size(a + b) == Size(a) + Size(b)
  {
    assert Height(a, h) == h;
    PlacedSplit(m, pc, a, b, h);
  }

  lemma PlacedOne(m: Machine, pc: int, i: Insn, h: nat)
    requires Placed(m, pc, [i], h) && h + Delta(i) >= 0
    ensures Decode(m.code, pc) == Some(i) && Size([i]) == ISize(i)
    ensures Delta(i) > 0 ==> h < m.stackMax
  {
    assert [i] + [] == [i];
    PlacedHead(m, pc, i, [], h);
  }

  // ---- single characters and assertions

  lemma StepExec(m: Machine, i: Insn, t: Thread, bt: seq<Entry>)
    requires Decode(m.code, t.pc) == Some(i)
    ensures Step(m, Run(t, bt)) == Exec(m, i, t.(pc := t.pc + ISize(i)), bt)
  {
    hide Decode, Exec;
  }

  lemma ExecMove(m: Machine, i: Insn, t: Thread, bt: seq<Entry>)
    requires (IsCharInsn(i) || IsAssertInsn(i)) && 0 <= t.pos <= |m.x.text.units|
    ensures Exec(m, i, t, bt) == match Advance(m.x, i, t.pos) case None => Fail(bt) case Some(q) => Run(t.(pos := q),
        bt)
  {
    hide Advance;
  }

  /** An instruction that only moves the position, or fails. */
  lemma SegMove(m: Machine, pc: int, i: Insn, stk: seq<int>, s: St, outs: seq<St>)
    requires Decode(m.code, pc) == Some(i) && 0 <= s.pos <= |m.x.text.units|
    requires IsCharInsn(i) || IsAssertInsn(i)
    requires outs == match Advance(m.x, i, s.pos) case None => [] case Some(q) => [s.(pos := q)]
    ensures Seg(m, pc, stk, pc + ISize(i), stk, s, outs)
  {
    hide Decode, Step, Exec, Advance, Seg;
    forall bt: seq<Entry>
      ensures Step(m, Run(At(pc, stk, s), bt)) ==
              match Advance(m.x, i, s.pos) case None => Fail(bt)
              case Some(q) => Run(At(pc + ISize(i), stk, s.(pos := q)), bt)
    {
      StepExec(m, i, At(pc, stk, s), bt);
      ExecMove(m, i, At(pc + ISize(i), stk, s), bt);
    }
    match Advance(m.x, i, s.pos)
    case None => SegFail(m, pc, stk, pc + ISize(i), stk, s);
    case Some(q) =>
      SegDone(m, pc + ISize(i), stk, s.(pos := q));
      SegStep(m, pc, stk, pc + ISize(i), stk, pc + ISize(i), stk, s, s.(pos := q), outs);
  }

  /** A deterministic instruction: the rest follows from where it leads. */
  lemma SegExec(m: Machine, pc: int, i: Insn, stk: seq<int>, pc1: int, stk1: seq<int>, q: int, stk': seq<int>,
                s: St, s1: St, outs: seq<St>)
    requires Decode(m.code, pc) == Some(i)
    requires forall bt: seq<Entry> :: Exec(m, i, At(pc + ISize(i), stk, s), bt) == Run(At(pc1, stk1, s1), bt)
    requires Seg(m, pc1, stk1, q, stk', s1, outs)
    ensures Seg(m, pc, stk, q, stk', s, outs)
  {
    hide Decode, Step, Exec, Seg;
    forall bt: seq<Entry> ensures Step(m, Run(At(pc, stk, s), bt)) == Run(At(pc1, stk1, s1), bt) {
      StepExec(m, i, At(pc, stk, s), bt);
    }
    SegStep(m, pc, stk, pc1, stk1, q, stk', s, s1, outs);
  }

  lemma SegExecFail(m: Machine, pc: int, i: Insn, stk: seq<int>, q: int, stk': seq<int>, s: St)
    requires Decode(m.code, pc) == Some(i)
    requires forall bt: seq<Entry> :: Exec(m, i, At(pc + ISize(i), stk, s), bt) == Fail(bt)
    ensures Seg(m, pc, stk, q, stk', s, [])
  {
    hide Decode, Step, Exec, Seg;
    forall bt: seq<Entry> ensures Step(m, Run(At(pc, stk, s), bt)) == Fail(bt) {
      StepExec(m, i, At(pc, stk, s), bt);
    }
    SegFail(m, pc, stk, q, stk', s);
  }

  /** A split instruction: body first or target first. */
  lemma SegFork(m: Machine, pc: int, i: Insn, stk: seq<int>, q: int, stk': seq<int>, s: St, next: seq<St>,
                target: seq<St>)
    requires Decode(m.code, pc) == Some(i) && (i.SplitGotoFirst? || i.SplitNextFirst?)
    requires 0 <= s.pos <= |m.x.text.units|
    requires Seg(m, pc + 5, stk, q, stk', s, next) && Seg(m, pc + 5 + i.off, stk, q, stk', s, target)
    ensures Seg(m, pc, stk, q, stk', s, if i.SplitNextFirst? then next + target else target + next)
  {
    hide Decode, Step, Seg;
    forall bt: seq<Entry>
      ensures Step(m, Run(At(pc, stk, s), bt)) ==
              if i.SplitNextFirst? then Run(At(pc + 5, stk, s), bt + [Split(At(pc + 5 + i.off, stk, s))])
              else Run(At(pc + 5 + i.off, stk, s), bt + [Split(At(pc + 5, stk, s))])
    {
      StepExec(m, i, At(pc, stk, s), bt);
    }
    if i.SplitNextFirst? {
      SegSplit(m, pc, pc + 5, pc + 5 + i.off, q, stk, stk', s, next, target);
    } else {
      SegSplit(m, pc, pc + 5 + i.off, pc + 5, q, stk, stk', s, target, next);
    }
  }

  lemma SegPrev(m: Machine, pc: int, stk: seq<int>, q: int, stk': seq<int>, s: St, outs: seq<St>)
    requires Decode(m.code, pc) == Some(Prev) && 0 <= s.pos <= |m.x.text.units|
    requires if s.pos == 0 then outs == []
             else Seg(m, pc + 1, stk, q, stk', s.(pos := Back(m.x.text, s.pos)), outs)
    ensures Seg(m, pc, stk, q, stk', s, outs)
  {
    hide Decode, Step, Seg, Back;
    if s.pos == 0 {
      SegExecFail(m, pc, Prev, stk, q, stk', s);
    } else {
      SegExec(m, pc, Prev, stk, pc + 1, stk, q, stk', s, s.(pos := Back(m.x.text, s.pos)), outs);
    }
  }

  /** The instruction emitted for a character node accepts the characters of the node. */
  lemma CharInsnExact(x: Subject, re: Re, i: Insn, c: cp)
    requires Wf(re) && IsCharNode(re)
    requires Compile(x.env, re, 0, false) == [i]
    ensures IsCharInsn(i) && (Accepts(x, i, c) <==> CharMatches(x, re, c))
  {
    if re.Class? { ClassTestExact(re.points, Canon(x.env, c)); }
  }

  /** One character forward. */
  lemma SimForward(m: Machine, re: Re, i: Insn, s: St, pc: int, stk: seq<int>)
    requires Wf(re) && IsCharNode(re) && StOk(m.x, s)
    requires Compile(m.x.env, re, 0, false) == [i] && Placed(m, pc, [i], |stk|)
    ensures Seg(m, pc, stk, pc + ISize(i), stk, s, MatchChar(m.x, re, false, s))
  {
    hide Decode, Placed, Seg, Accepts, CharMatches, Compile;
    CharInsnExact(m.x, re, i, if s.pos < |m.x.text.units| then CharAt(m.x.text, s.pos) else 0);
    PlacedOne(m, pc, i, |stk|);
    SegMove(m, pc, i, stk, s, MatchChar(m.x, re, false, s));
  }

  lemma PlacedThree(m: Machine, pc: int, i: Insn, h: nat)
    requires Placed(m, pc, [Prev, i, Prev], h) && Delta(i) == 0
    ensures Decode(m.code, pc) == Some(Prev) && Decode(m.code, pc + 1) == Some(i)
    ensures Decode(m.code, pc + 1 + ISize(i)) == Some(Prev)
  {
    hide Decode, Placed;
    assert [Prev, i, Prev] == [Prev] + ([i] + [Prev]);
    PlacedHead(m, pc, Prev, [i] + [Prev], h);
    PlacedHead(m, pc + 1, i, [Prev], h);
    PlacedOne(m, pc + 1 + ISize(i), Prev, h);
  }

  lemma SegAllOne(m: Machine, p: int, stk: seq<int>, q: int, stk': seq<int>, s: St, outs: seq<St>)
    requires Seg(m, p, stk, q, stk', s, outs)
    ensures SegAll(m, p, stk, q, stk', [s], outs)
  {
    hide Seg, SegAll;
    assert outs + [] == outs && [s][1..] == [];
    SegAllNil(m, p, stk, q, stk');
    SegAllCons(m, p, stk, q, stk', [s], outs, []);
  }

  /** One character backward: step back, read forward, step back. */
  lemma SimBackward(m: Machine, re: Re, i: Insn, s: St, pc: int, stk: seq<int>)
    requires Wf(re) && IsCharNode(re) && StOk(m.x, s)
    requires Compile(m.x.env, re, 0, false) == [i] && Placed(m, pc, [Prev, i, Prev], |stk|)
    ensures Seg(m, pc, stk, pc + 2 + ISize(i), stk, s, MatchChar(m.x, re, true, s))
  {
    hide Decode, Placed, Seg, SegAll, Accepts, CharMatches, Compile;
    var t := m.x.text;
    var outs := MatchChar(m.x, re, true, s);
    var p2, q := pc + 1 + ISize(i), pc + 2 + ISize(i);
    CharInsnExact(m.x, re, i, 0);
    PlacedThree(m, pc, i, |stk|);
    if s.pos > 0 {
      BackInvertsNext(t, s.pos);
      var s1 := s.(pos := Back(t, s.pos));
      CharInsnExact(m.x, re, i, CharAt(t, s1.pos));
      SegMove(m, pc + 1, i, stk, s1, if outs == [] then [] else [s]);
      SegDone(m, q, stk, s1);
      SegPrev(m, p2, stk, q, stk, s, [s1]);
      SegAllOne(m, p2, stk, q, stk, s, [s1]);
      SegAllNil(m, p2, stk, q, stk);
      SegThen(m, pc + 1, stk, p2, stk, q, stk, s1, if outs == [] then [] else [s], outs);
    }
    SegPrev(m, pc, stk, q, stk, s, outs);
  }

  lemma SimLeaf(m: Machine, re: Re, cc: nat, back: bool, s: St, pc: int, stk: seq<int>)
    requires Wf(re) && IsLeaf(re) && StOk(m.x, s)
    requires Placed(m, pc, Compile(m.x.env, re, cc, back), |stk|)
    ensures Seg(m, pc, stk, pc + Size(Compile(m.x.env, re, cc, back)), stk, s, Outcomes(m.x, re, cc, back, s))
  {
    hide Decode, Placed, Seg, MatchChar, Wf, ClassInsn, CharInsn, Holds, AssertHolds, Accepts;
    if re.Empty? {
      SegDone(m, pc, stk, s);
    } else if IsCharNode(re) {
      var i := Compile(m.x.env, re, 0, false)[0];
      assert Size([i]) == ISize(i) by { assert [i][1..] == []; }
      if back {
        SizeAround(Prev, [i], Prev);
        assert [Prev, i, Prev] == [Prev] + ([i] + [Prev]);
        SimBackward(m, re, i, s, pc, stk);
      } else {
        SimForward(m, re, i, s, pc, stk);
      }
    } else {
      SimAssert(m, re, Compile(m.x.env, re, cc, back)[0], cc, back, s, pc, stk);
    }
  }

  lemma SimAssert(m: Machine, re: Re, i: Insn, cc: nat, back: bool, s: St, pc: int, stk: seq<int>)
    requires (re.Bol? || re.Eol? || re.WordB?) && StOk(m.x, s)
    requires Compile(m.x.env, re, cc, back) == [i] && Placed(m, pc, [i], |stk|)
    ensures Seg(m, pc, stk, pc + Size([i]), stk, s, Outcomes(m.x, re, cc, back, s))
  {
    hide Decode, Placed, Seg;
    PlacedOne(m, pc, i, |stk|);
    SegMove(m, pc, i, stk, s, Outcomes(m.x, re, cc, back, s));
  }

  // ---- single instructions after a list of states

  /** A jump from every state of a list. */
  lemma {:induction false} SegAllGoto(m: Machine, pc: int, off: int, stk: seq<int>, sts: seq<St>)
    requires Decode(m.code, pc) == Some(Goto(off))
    requires forall s | s in sts :: StOk(m.x, s)
    ensures SegAll(m, pc, stk, pc + 5 + off, stk, sts, sts)
    decreases |sts|
  {
    hide Decode, Seg, SegAll;
    if sts == [] {
      SegAllNil(m, pc, stk, pc + 5 + off, stk);
    } else {
      assert sts[0] in sts;
      SegDone(m, pc + 5 + off, stk, sts[0]);
      SegExec(m, pc, Goto(off), stk, pc + 5 + off, stk, pc + 5 + off, stk, sts[0], sts[0], [sts[0]]);
      SegAllGoto(m, pc, off, stk, sts[1..]);
      SegAllCons(m, pc, stk, pc + 5 + off, stk, sts, [sts[0]], sts[1..]);
      Lists.HeadTail(sts);
    }
  }

  /** A save instruction at every state of a list. */
  lemma {:induction false} SegAllSave(m: Machine, pc: int, i: Insn, k: int, stk: seq<int>, sts: seq<St>)
    requires Decode(m.code, pc) == Some(i) && 0 <= k
    requires (i == SaveStart(k / 2) && k % 2 == 0) || (i == SaveEnd(k / 2) && k % 2 == 1)
    requires k / 2 < m.ncap && forall s | s in sts :: StOk(m.x, s)
    ensures SegAll(m, pc, stk, pc + 2, stk, sts, SetAll(sts, k))
    decreases |sts|
  {
    hide Decode, Seg, SegAll;
    if sts == [] {
      SegAllNil(m, pc, stk, pc + 2, stk);
    } else {
      assert sts[0] in sts;
      var s1 := sts[0].(caps := SetCap(sts[0].caps, k, sts[0].pos));
      SegDone(m, pc + 2, stk, s1);
      SegExec(m, pc, i, stk, pc + 2, stk, pc + 2, stk, sts[0], s1, [s1]);
      SegAllSave(m, pc, i, k, stk, sts[1..]);
      SegAllCons(m, pc, stk, pc + 2, stk, sts, [s1], SetAll(sts[1..], k));
    }
  }

  lemma SegAllId(m: Machine, p: int, stk: seq<int>, sts: seq<St>)
    ensures SegAll(m, p, stk, p, stk, sts, sts)
  {
  }

  // ---- lookaround

  /** A lookaround whose body yields o behaves as the assertion on o. */
  lemma SegLook(m: Machine, pc: int, neg: bool, len: nat, stk: seq<int>, s: St, o: seq<St>)
    requires Decode(m.code, pc) == Some(if neg then NegativeLookahead(len + 1) else Lookahead(len + 1))
    requires Decode(m.code, pc + 5 + len) == Some(Match)
    requires StOk(m.x, s) && forall r | r in o :: StOk(m.x, r)
    requires Seg(m, pc + 5, stk, pc + 5 + len, stk, s, o)
    ensures Seg(m, pc, stk, pc + 6 + len, stk, s,
                if neg then (if o == [] then [s] else []) else if o == [] then [] else [s.(caps := o[0].caps)])
  {
    hide Decode, Step, Seg;
    var outs := if neg then (if o == [] then [s] else []) else if o == [] then [] else [s.(caps := o[0].caps)];
    forall bt: seq<Entry> ensures Yields(m, Run(At(pc, stk, s), bt), pc + 6 + len, stk, outs, bt) {
      LookRuns(m, pc, neg, len, stk, s, o, bt);
      if outs == [] {
      } else {
        YieldsOne(m, pc + 6 + len, stk, outs[0], bt);
        YieldsFrom(m, Run(At(pc, stk, s), bt), Run(At(pc + 6 + len, stk, outs[0]), bt), pc + 6 + len, stk, outs, bt);
      }
    }
    assert Seg(m, pc, stk, pc + 6 + len, stk, s, outs) by { SegIntro(m, pc, stk, pc + 6 + len, stk, s, outs); }
  }

  lemma SegIntro(m: Machine, p: int, stk: seq<int>, q: int, stk': seq<int>, s: St, outs: seq<St>)
    requires forall bt: seq<Entry> :: Yields(m, Run(At(p, stk, s), bt), q, stk', outs, bt)
    ensures Seg(m, p, stk, q, stk', s, outs)
  {
  }

  /** How a lookaround entry receives the outcome of its body. */
  lemma ResumeAhead(m: Machine, ok: bool, caps: seq<int>, neg: bool, t: Thread, bt: seq<Entry>)
    ensures Step(m, Unwind(ok, caps, bt + [Ahead(neg, t)])) ==
            if ok == neg then Fail(bt) else Run(if neg then t else t.(caps := caps), bt)
  {
    Lists.LastAppend(bt, Ahead(neg, t));
  }

  /** What one lookaround leads to over a given backtrack stack. */
  lemma LookRuns(m: Machine, pc: int, neg: bool, len: nat, stk: seq<int>, s: St, o: seq<St>, bt: seq<Entry>)
    requires Decode(m.code, pc) == Some(if neg then NegativeLookahead(len + 1) else Lookahead(len + 1))
    requires Decode(m.code, pc + 5 + len) == Some(Match)
    requires StOk(m.x, s) && forall r | r in o :: StOk(m.x, r)
    requires Seg(m, pc + 5, stk, pc + 5 + len, stk, s, o)
    ensures Reaches(m, Run(At(pc, stk, s), bt),
                    if (o == []) == neg then Run(At(pc + 6 + len, stk, if neg then s else s.(caps := o[0].caps)), bt)
                    else Fail(bt))
  {
    hide Decode, Yields, Resume;
    var e := Ahead(neg, At(pc + 6 + len, stk, s));
    var bt1 := bt + [e];
    var c := Run(At(pc + 5, stk, s), bt1);
    var d := if (o == []) == neg then Run(At(pc + 6 + len, stk, if neg then s else s.(caps := o[0].caps)), bt)
        else Fail(bt);
    Lists.LastAppend(bt, e);
    assert Step(m, Run(At(pc, stk, s), bt)) == c by {
      StepExec(m, if neg then NegativeLookahead(len + 1) else Lookahead(len + 1), At(pc, stk, s), bt);
    }
    assert Yields(m, c, pc + 5 + len, stk, o, bt1);
    if o == [] {
      YieldsNil(m, c, pc + 5 + len, stk, bt1);
      ResumeAhead(m, false, [], neg, At(pc + 6 + len, stk, s), bt);
      ReachesRefl(m, d);
      ReachesStep(m, Fail(bt1), d);
      ReachesTrans(m, c, Fail(bt1), d);
    } else {
      assert o[0] in o;
      ResumeAhead(m, true, o[0].caps, neg, At(pc + 6 + len, stk, s), bt);
      BodyMatches(m, c, pc + 5 + len, stk, o, bt1, d);
    }
    ReachesStep(m, Run(At(pc, stk, s), bt), d);
  }

  /** The body of a lookahead reaches its match instruction, which reports success. */
  lemma BodyMatches(m: Machine, c: Config, q: int, stk: seq<int>, o: seq<St>, bt: seq<Entry>, d: Config)
    requires Decode(m.code, q) == Some(Match) && o != [] && StOk(m.x, o[0]) && Yields(m, c, q, stk, o, bt)
    requires Resume(m, true, o[0].caps, bt) == d
    ensures Reaches(m, c, d)
  {
    hide Decode, Yields, Resume;
    var es := YieldsHead(m, c, q, stk, o, bt);
    var c1 := Run(At(q, stk, o[0]), bt + es);
    assert Step(m, c1) == Unwind(true, o[0].caps, bt + es) by { StepExec(m, Match, At(q, stk, o[0]), bt + es); }
    UnwindSuccess(m, o[0].caps, bt, es);
    ReachesRefl(m, d);
    ReachesStep(m, Unwind(true, o[0].caps, bt), d);
    ReachesTrans(m, Unwind(true, o[0].caps, bt + es), Unwind(true, o[0].caps, bt), d);
    ReachesStep(m, c1, d);
    ReachesTrans(m, c, c1, d);
  }
}
