/** The loop instructions: counters on the operand stack and the empty-turn check. */
module RegexLoops {
  import opened Options
  import opened RegexCode
  import opened RegexMatch
  import opened RegexVM
  import opened RegexCompile
  import opened RegexTrace
  import opened RegexSim
  import Lists

  lemma PushTop(stk: seq<int>, v: int)
    ensures Top(stk + [v]) == v && Pop(stk + [v]) == stk
  {
    Lists.LastAppend(stk, v);
  }

  lemma SegDrop(m: Machine, pc: int, v: int, stk: seq<int>, s: St)
    requires Decode(m.code, pc) == Some(Drop) && StOk(m.x, s)
    ensures Seg(m, pc, stk + [v], pc + 1, stk, s, [s])
  {
    hide Decode, Seg;
    PushTop(stk, v);
    SegDone(m, pc + 1, stk, s);
    SegExec(m, pc, Drop, stk + [v], pc + 1, stk, pc + 1, stk, s, s, [s]);
  }

  lemma SegPush(m: Machine, pc: int, v: int, stk: seq<int>, q: int, stk': seq<int>, s: St, outs: seq<St>)
    requires Decode(m.code, pc) == Some(PushI32(v)) && StOk(m.x, s) && |stk| < m.stackMax
    requires Seg(m, pc + 5, stk + [v], q, stk', s, outs)
    ensures Seg(m, pc, stk, q, stk', s, outs)
  {
    hide Decode, Seg;
    SegExec(m, pc, PushI32(v), stk, pc + 5, stk + [v], q, stk', s, s, outs);
  }

  lemma SegPushPos(m: Machine, pc: int, stk: seq<int>, q: int, stk': seq<int>, s: St, outs: seq<St>)
    requires Decode(m.code, pc) == Some(PushCharPos) && StOk(m.x, s) && |stk| < m.stackMax
    requires Seg(m, pc + 1, stk + [s.pos], q, stk', s, outs)
    ensures Seg(m, pc, stk, q, stk', s, outs)
  {
    hide Decode, Seg;
    SegExec(m, pc, PushCharPos, stk, pc + 1, stk + [s.pos], q, stk', s, s, outs);
  }

  /** The loop instruction: back to the body while the counter, once decremented, is not 0. */
  lemma SegLoop(m: Machine, pc: int, off: int, n: int, stk: seq<int>, q: int, stk': seq<int>, s: St, outs: seq<St>)
    requires Decode(m.code, pc) == Some(Loop(off)) && StOk(m.x, s)
    requires Seg(m, if n - 1 != 0 then pc + 5 + off else pc + 5, stk + [n - 1], q, stk', s, outs)
    ensures Seg(m, pc, stk + [n], q, stk', s, outs)
  {
    hide Decode, Seg;
    PushTop(stk, n);
    SegExec(m, pc, Loop(off), stk + [n], if n - 1 != 0 then pc + 5 + off else pc + 5, stk + [n - 1], q, stk', s, s,
        outs);
  }

  /** The empty-turn check: back to the loop head when the position has changed. */
  lemma SegCheck(m: Machine, pc: int, off: int, p: int, stk: seq<int>, q: int, stk': seq<int>, s: St, outs: seq<St>)
    requires Decode(m.code, pc) == Some(BneCharPos(off)) && StOk(m.x, s)
    requires Seg(m, if p != s.pos then pc + 5 + off else pc + 5, stk, q, stk', s, outs)
    ensures Seg(m, pc, stk + [p], q, stk', s, outs)
  {
    hide Decode, Seg;
    PushTop(stk, p);
    SegExec(m, pc, BneCharPos(off), stk + [p], if p != s.pos then pc + 5 + off else pc + 5, stk, q, stk', s, s, outs);
  }

  lemma SegGoto(m: Machine, pc: int, off: int, stk: seq<int>, q: int, stk': seq<int>, s: St, outs: seq<St>)
    requires Decode(m.code, pc) == Some(Goto(off)) && StOk(m.x, s)
    requires Seg(m, pc + 5 + off, stk, q, stk', s, outs)
    ensures Seg(m, pc, stk, q, stk', s, outs)
  {
    hide Decode, Seg;
    SegExec(m, pc, Goto(off), stk, pc + 5 + off, stk, q, stk', s, s, outs);
  }

  lemma SegReset(m: Machine, pc: int, lo: int, hi: int, stk: seq<int>, q: int, stk': seq<int>, s: St, outs: seq<St>)
    requires Decode(m.code, pc) == Some(SaveReset(lo, hi)) && StOk(m.x, s) && hi < m.ncap
    requires Seg(m, pc + 3, stk, q, stk', s.(caps := ResetCaps(s.caps, lo, hi)), outs)
    ensures Seg(m, pc, stk, q, stk', s, outs)
  {
    hide Decode, Seg, ResetCaps;
    SegExec(m, pc, SaveReset(lo, hi), stk, pc + 3, stk, q, stk', s, s.(caps := ResetCaps(s.caps, lo, hi)), outs);
  }

  lemma SegSave(m: Machine, pc: int, i: Insn, k: int, stk: seq<int>, q: int, stk': seq<int>, s: St, outs: seq<St>)
    requires Decode(m.code, pc) == Some(i) && StOk(m.x, s) && 0 <= k && k / 2 < m.ncap
    requires (i == SaveStart(k / 2) && k % 2 == 0) || (i == SaveEnd(k / 2) && k % 2 == 1)
    requires Seg(m, pc + 2, stk, q, stk', s.(caps := SetCap(s.caps, k, s.pos)), outs)
    ensures Seg(m, pc, stk, q, stk', s, outs)
  {
    hide Decode, Seg;
    SegExec(m, pc, i, stk, pc + 2, stk, q, stk', s, s.(caps := SetCap(s.caps, k, s.pos)), outs);
  }

  /** A split whose next instruction starts the loop body and whose target is the exit. */
  lemma SegSplitBody(m: Machine, pc: int, greedy: bool, off: int, stk: seq<int>, q: int, stk': seq<int>,
                     s: St, body: seq<St>, exit: seq<St>)
    requires Decode(m.code, pc) == Some(SplitBody(greedy, off)) && StOk(m.x, s)
    requires Seg(m, pc + 5, stk, q, stk', s, body) && Seg(m, pc + 5 + off, stk, q, stk', s, exit)
    ensures Seg(m, pc, stk, q, stk', s, if greedy then body + exit else exit + body)
  {
    hide Decode, Seg;
    SegFork(m, pc, SplitBody(greedy, off), stk, q, stk', s, body, exit);
  }

  /** A split at the end of the body, whose target is the body. */
  lemma SegSplitBack(m: Machine, pc: int, greedy: bool, off: int, stk: seq<int>, q: int, stk': seq<int>,
                     s: St, body: seq<St>, exit: seq<St>)
    requires Decode(m.code, pc) == Some(SplitBack(greedy, off)) && StOk(m.x, s)
    requires Seg(m, pc + 5 + off, stk, q, stk', s, body) && Seg(m, pc + 5, stk, q, stk', s, exit)
    ensures Seg(m, pc, stk, q, stk', s, if greedy then body + exit else exit + body)
  {
    hide Decode, Seg;
    SegFork(m, pc, SplitBack(greedy, off), stk, q, stk', s, exit, body);
  }
}
