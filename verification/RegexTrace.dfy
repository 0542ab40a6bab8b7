/** How runs of the interpreter relate to outcome lists: a piece of code yields a list of
    states at an exit when it reaches them one after the other, each further one after the
    failure of what follows the exit. */
module RegexTrace {
  import opened RegexMatch
  import opened RegexVM
  import Lists

  ghost predicate NoAhead(es: seq<Entry>) {
    forall e | e in es :: !e.Ahead?
  }

  function At(pc: int, stk: seq<int>, s: St): Thread {
    Thread(pc, s.pos, s.caps, stk)
  }

  /** From c the run reaches the states rs in turn at exit pc with operand stack stk, and then
      fails into the backtrack stack bt. Only split and retry entries are left above bt. */
  ghost predicate Yields(m: Machine, c: Config, pc: int, stk: seq<int>, rs: seq<St>, bt: seq<Entry>)
    decreases |rs|
  {
    if rs == [] then Reaches(m, c, Fail(bt))
    else
      exists es: seq<Entry> :: NoAhead(es) && Reaches(m, c, Run(At(pc, stk, rs[0]), bt + es)) &&
                               Yields(m, Fail(bt + es), pc, stk, rs[1..], bt)
  }

  /** Started at p in state s, over any backtrack stack, the code yields outs at q. */
  ghost predicate Seg(m: Machine, p: int, stk: seq<int>, q: int, stk': seq<int>, s: St, outs: seq<St>) {
    forall bt: seq<Entry> :: Yields(m, Run(At(p, stk, s), bt), q, stk', outs, bt)
  }

  /** Whatever yields sts at p yields outs at q. */
  ghost predicate SegAll(m: Machine, p: int, stk: seq<int>, q: int, stk': seq<int>, sts: seq<St>, outs: seq<St>) {
    forall c: Config, bt: seq<Entry> :: Yields(m, c, p, stk, sts, bt) ==> Yields(m, c, q, stk', outs, bt)
  }

  lemma YieldsFrom(m: Machine, c: Config, d: Config, pc: int, stk: seq<int>, rs: seq<St>, bt: seq<Entry>)
    requires Reaches(m, c, d) && Yields(m, d, pc, stk, rs, bt)
    ensures Yields(m, c, pc, stk, rs, bt)
  {
    if rs == [] {
      ReachesTrans(m, c, d, Fail(bt));
    } else {
      var es :| NoAhead(es) && Reaches(m, d, Run(At(pc, stk, rs[0]), bt + es)) &&
                Yields(m, Fail(bt + es), pc, stk, rs[1..], bt);
      ReachesTrans(m, c, d, Run(At(pc, stk, rs[0]), bt + es));
    }
  }

  lemma YieldsStep(m: Machine, c: Config, pc: int, stk: seq<int>, rs: seq<St>, bt: seq<Entry>)
    requires Yields(m, Step(m, c), pc, stk, rs, bt)
    ensures Yields(m, c, pc, stk, rs, bt)
  {
    ReachesRefl(m, Step(m, c));
    ReachesStep(m, c, Step(m, c));
    YieldsFrom(m, c, Step(m, c), pc, stk, rs, bt);
  }

  lemma YieldsOne(m: Machine, pc: int, stk: seq<int>, s: St, bt: seq<Entry>)
    ensures Yields(m, Run(At(pc, stk, s), bt), pc, stk, [s], bt)
  {
    var none: seq<Entry> := [];
    assert bt + none == bt && NoAhead(none);
    ReachesRefl(m, Run(At(pc, stk, s), bt));
    ReachesRefl(m, Fail(bt));
    assert [s][1..] == [];
    assert Yields(m, Fail(bt + none), pc, stk, [s][1..], bt);
  }

  lemma YieldsCons(m: Machine, c: Config, pc: int, stk: seq<int>, s: St, rest: seq<St>, bt: seq<Entry>, es: seq<Entry>)
    requires NoAhead(es) && Reaches(m, c, Run(At(pc, stk, s), bt + es))
    requires Yields(m, Fail(bt + es), pc, stk, rest, bt)
    ensures Yields(m, c, pc, stk, [s] + rest, bt)
  {
    assert ([s] + rest)[1..] == rest;
  }

  lemma YieldsNil(m: Machine, c: Config, pc: int, stk: seq<int>, bt: seq<Entry>)
    requires Yields(m, c, pc, stk, [], bt)
    ensures Reaches(m, c, Fail(bt))
  {
  }

  lemma YieldsHead(m: Machine, c: Config, pc: int, stk: seq<int>, rs: seq<St>, bt: seq<Entry>) returns (es: seq<Entry>)
    requires rs != [] && Yields(m, c, pc, stk, rs, bt)
    ensures NoAhead(es) && Reaches(m, c, Run(At(pc, stk, rs[0]), bt + es))
    ensures Yields(m, Fail(bt + es), pc, stk, rs[1..], bt)
  {
    es :| NoAhead(es) && Reaches(m, c, Run(At(pc, stk, rs[0]), bt + es)) &&
          Yields(m, Fail(bt + es), pc, stk, rs[1..], bt);
  }

  /** First rs, then, once those have failed into bt + es, more. */
  lemma {:induction false} YieldsAppend(m: Machine, c: Config, pc: int, stk: seq<int>, rs: seq<St>, more: seq<St>,
                                        bt: seq<Entry>, es: seq<Entry>)
    requires NoAhead(es) && Yields(m, c, pc, stk, rs, bt + es) && Yields(m, Fail(bt + es), pc, stk, more, bt)
    ensures Yields(m, c, pc, stk, rs + more, bt)
    decreases |rs|
  {
    if rs == [] {
      assert rs + more == more;
      YieldsFrom(m, c, Fail(bt + es), pc, stk, more, bt);
    } else {
      var up :| NoAhead(up) && Reaches(m, c, Run(At(pc, stk, rs[0]), bt + es + up)) &&
                Yields(m, Fail(bt + es + up), pc, stk, rs[1..], bt + es);
      YieldsAppend(m, Fail(bt + es + up), pc, stk, rs[1..], more, bt, es);
      Lists.Assoc(bt, es, up);
      YieldsCons(m, c, pc, stk, rs[0], rs[1..] + more, bt, es + up);
      Lists.HeadTail(rs);
      Lists.Assoc([rs[0]], rs[1..], more);
    }
  }

  lemma SegAllNil(m: Machine, p: int, stk: seq<int>, q: int, stk': seq<int>)
    ensures SegAll(m, p, stk, q, stk', [], [])
  {
  }

  lemma SegAllCons(m: Machine, p: int, stk: seq<int>, q: int, stk': seq<int>, sts: seq<St>, a: seq<St>, b: seq<St>)
    requires sts != [] && Seg(m, p, stk, q, stk', sts[0], a) && SegAll(m, p, stk, q, stk', sts[1..], b)
    ensures SegAll(m, p, stk, q, stk', sts, a + b)
  {
    forall c: Config, bt: seq<Entry> | Yields(m, c, p, stk, sts, bt)
      ensures Yields(m, c, q, stk', a + b, bt)
    {
      var es :| NoAhead(es) && Reaches(m, c, Run(At(p, stk, sts[0]), bt + es)) &&
                Yields(m, Fail(bt + es), p, stk, sts[1..], bt);
      YieldsFrom(m, c, Run(At(p, stk, sts[0]), bt + es), q, stk', a, bt + es);
      YieldsAppend(m, c, q, stk', a, b, bt, es);
    }
  }

  lemma SegThen(m: Machine, p: int, stk: seq<int>, q: int, stk1: seq<int>, r: int, stk2: seq<int>,
                s: St, mid: seq<St>, outs: seq<St>)
    requires Seg(m, p, stk, q, stk1, s, mid) && SegAll(m, q, stk1, r, stk2, mid, outs)
    ensures Seg(m, p, stk, r, stk2, s, outs)
  {
  }

  lemma SegDone(m: Machine, p: int, stk: seq<int>, s: St)
    ensures Seg(m, p, stk, p, stk, s, [s])
  {
    forall bt: seq<Entry> ensures Yields(m, Run(At(p, stk, s), bt), p, stk, [s], bt) {
      YieldsOne(m, p, stk, s, bt);
    }
  }

  /** One deterministic instruction, then the rest. */
  lemma SegStep(m: Machine, p: int, stk: seq<int>, p1: int, stk1: seq<int>, q: int, stk': seq<int>,
                s: St, s1: St, outs: seq<St>)
    requires forall bt: seq<Entry> :: Step(m, Run(At(p, stk, s), bt)) == Run(At(p1, stk1, s1), bt)
    requires Seg(m, p1, stk1, q, stk', s1, outs)
    ensures Seg(m, p, stk, q, stk', s, outs)
  {
    forall bt: seq<Entry> ensures Yields(m, Run(At(p, stk, s), bt), q, stk', outs, bt) {
      assert Yields(m, Run(At(p1, stk1, s1), bt), q, stk', outs, bt);
      YieldsStep(m, Run(At(p, stk, s), bt), q, stk', outs, bt);
    }
  }

  /** One instruction that fails. */
  lemma SegFail(m: Machine, p: int, stk: seq<int>, q: int, stk': seq<int>, s: St)
    requires forall bt: seq<Entry> :: Step(m, Run(At(p, stk, s), bt)) == Fail(bt)
    ensures Seg(m, p, stk, q, stk', s, [])
  {
    forall bt: seq<Entry> ensures Yields(m, Run(At(p, stk, s), bt), q, stk', [], bt) {
      ReachesRefl(m, Fail(bt));
      YieldsStep(m, Run(At(p, stk, s), bt), q, stk', [], bt);
    }
  }

  /** A split: the outcomes of the first branch, then those of the second. */
  lemma SegSplit(m: Machine, p: int, p1: int, p2: int, q: int, stk: seq<int>, stk': seq<int>, s: St, a: seq<St>,
                 b: seq<St>)
    requires forall bt: seq<Entry> ::
        Step(m, Run(At(p, stk, s), bt)) == Run(At(p1, stk, s), bt + [Split(At(p2, stk, s))])
    requires Seg(m, p1, stk, q, stk', s, a) && Seg(m, p2, stk, q, stk', s, b)
    ensures Seg(m, p, stk, q, stk', s, a + b)
  {
    forall bt: seq<Entry> ensures Yields(m, Run(At(p, stk, s), bt), q, stk', a + b, bt) {
      var es := [Split(At(p2, stk, s))];
      assert Yields(m, Run(At(p1, stk, s), bt + es), q, stk', a, bt + es);
      assert (bt + es)[|bt + es| - 1] == es[0] && (bt + es)[..|bt + es| - 1] == bt;
      assert Step(m, Fail(bt + es)) == Run(At(p2, stk, s), bt);
      assert Yields(m, Run(At(p2, stk, s), bt), q, stk', b, bt);
      YieldsStep(m, Fail(bt + es), q, stk', b, bt);
      YieldsAppend(m, Run(At(p1, stk, s), bt + es), q, stk', a, b, bt, es);
      YieldsStep(m, Run(At(p, stk, s), bt), q, stk', a + b, bt);
    }
  }

  /** A success unwinds split and retry entries without resuming them. */
  lemma {:induction false} UnwindSuccess(m: Machine, caps: seq<int>, bt: seq<Entry>, es: seq<Entry>)
    requires NoAhead(es)
    ensures Reaches(m, Unwind(true, caps, bt + es), Unwind(true, caps, bt))
    decreases |es|
  {
    if es == [] {
      assert bt + es == bt;
      ReachesRefl(m, Unwind(true, caps, bt));
    } else {
      var up := es[..|es| - 1];
      assert (bt + es)[|bt + es| - 1] == es[|es| - 1] && (bt + es)[..|bt + es| - 1] == bt + up;
      assert es[|es| - 1] in es;
      UnwindSuccess(m, caps, bt, up);
      ReachesStep(m, Unwind(true, caps, bt + es), Unwind(true, caps, bt));
    }
  }
}
