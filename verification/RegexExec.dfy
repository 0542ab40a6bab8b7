/** lre_exec: the interpreter with its registers, capture array, operand stack and backtrack
    stack, executing as the transition system says. */
module RegexExec {
  import opened Options
  import opened Bytes
  import opened RegexSyntax
  import opened RegexText
  import opened RegexCode
  import opened RegexRange
  import opened RegexMatch
  import opened RegexVM
  import opened RegexMain
  import Lists

  /** The range test of the interpreter: binary search with unsigned indexes. */
  method TestRange(rs: seq<(int, int)>, wide: bool, c: int) returns (found: bool)
    requires rs != []
    ensures found == RangeTest(rs, wide, c)
  {
    var idxMin: nat := 0;
    if c < rs[0].0 { return false; }
    var idxMax: nat := |rs| - 1;
    var high := rs[idxMax].1;
    if !wide && c >= 0xffff && high == 0xffff { return true; }
    if c > high { return false; }
    while idxMin <= idxMax
      invariant idxMax < |rs| && c >= rs[0].0
      invariant RangeTest(rs, wide, c) == Search(rs, c, idxMin, idxMax)
      decreases idxMax + 1 - idxMin
    {
      var idx := (idxMin + idxMax) / 2;
      if c < rs[idx].0 {
        idxMax := idx - 1;
      } else if c > rs[idx].1 {
        idxMin := idx + 1;
      } else {
        return true;
      }
    }
    return false;
  }

  method Accept(x: Subject, i: Insn, c: cp) returns (b: bool)
    requires i.Range? || i.Range32? ==> i.rs != []
    ensures b == Accepts(x, i, c)
  {
    match i
    case Char(k) => b := Canon(x.env, c) == k;
    case Char32(k) => b := Canon(x.env, c) == k;
    case Dot => b := !IsLineTerminator(c);
    case Any => b := true;
    case Range(rs) => b := TestRange(rs, false, Canon(x.env, c));
    case Range32(rs) => b := TestRange(rs, true, Canon(x.env, c));
    case _ => b := false;
  }

  datatype Verdict = Continue | Matched | Failed

  class Context {
    const m: Machine
    const capture: array<int>
    const stack: array<int>
    var pc: int
    var cptr: int
    var stackLen: nat
    var states: seq<Entry>

    ghost predicate Valid()
      reads this
    {
      && capture != stack
      && stack.Length == m.stackMax
      && stackLen <= stack.Length
      && forall e | e in states :: |e.t.stk| <= stack.Length && |e.t.caps| == capture.Length
    }

    /** The registers as one value. */
    function Current(): Thread
      requires stackLen <= stack.Length
      reads this, stack, capture
    {
      Thread(pc, cptr, capture[..], stack[..stackLen])
    }

    ghost function State(): Config
      requires Valid()
      reads this, stack, capture
    {
      Run(Current(), states)
    }

    constructor (m: Machine, capture: array<int>, pc: int, cptr: int)
      ensures Valid() && this.m == m && this.capture == capture && fresh(stack)
      ensures Current() == Thread(pc, cptr, capture[..], []) && states == []
    {
      this.m := m;
      this.capture := capture;
      this.stack := new int[m.stackMax];
      this.pc := pc;
      this.cptr := cptr;
      this.stackLen := 0;
      this.states := [];
    }

    /** push_state: an entry with the registers as they are, to continue at target. */
    method PushState(target: int, kind: Entry)
      requires Valid()
      modifies this`states
      ensures Valid()
      ensures var t := Current().(pc := target);
        states == old(states)
            + [match kind case Split(_) => Split(t) case Ahead(neg, _) => Ahead(neg, t) case Retry(_, n) => Retry(t, n)]
    {
      var t := Current().(pc := target);
      var e := match kind case Split(_) => Split(t) case Ahead(neg, _) => Ahead(neg, t) case Retry(_, n) => Retry(t, n);
      states := states + [e];
    }

    /** Restore the registers saved in an entry. */
    method Restore(t: Thread)
      requires Valid() && |t.stk| <= stack.Length && |t.caps| == capture.Length
      modifies this`pc, this`cptr, this`stackLen, stack, capture
      ensures Valid() && Current() == t
    {
      RestoreCaptures(t.caps);
      RestoreRest(t);
    }

    method RestoreCaptures(caps: seq<int>)
      requires |caps| == capture.Length
      modifies capture
      ensures capture[..] == caps
    {
      for i := 0 to capture.Length
        invariant capture[..i] == caps[..i]
      {
        capture[i] := caps[i];
        assert capture[..i + 1] == capture[..i] + [caps[i]];
      }
    }

    /** Everything but the captures. */
    method RestoreRest(t: Thread)
      requires Valid() && |t.stk| <= stack.Length
      modifies this`pc, this`cptr, this`stackLen, stack
      ensures Valid() && Current() == t.(caps := capture[..])
    {
      pc := t.pc;
      cptr := t.pos;
      stackLen := |t.stk|;
      for i := 0 to |t.stk|
        invariant pc == t.pc && cptr == t.pos && stackLen == |t.stk| <= stack.Length
        invariant stack[..i] == t.stk[..i]
        invariant capture[..] == old(capture[..])
      {
        stack[i] := t.stk[i];
        assert stack[..i + 1] == stack[..i] + [t.stk[i]];
      }
    }

    /** n characters back. */
    method StepBack(n: nat)
      requires BackN(m.x.text, cptr, n).Some?
      modifies this`cptr
      ensures cptr == BackN(m.x.text, old(cptr), n).value
    {
      for i := 0 to n
        invariant BackN(m.x.text, cptr, n - i) == BackN(m.x.text, old(cptr), n)
      {
        cptr := Back(m.x.text, cptr);
      }
    }

    /** A retry entry: give back one turn of its atom and go on behind the repeat. */
    method GiveBack(t: Thread, count: int, rest: seq<Entry>)
      requires Valid() && states == rest + [Retry(t, count)] && Resume(m, false, [], states) != Crash
      modifies this, stack, capture
      ensures Valid() && Run(Current(), states) == old(Resume(m, false, [], states))
    {
      hide Resume, Decode, BackN;
      assert Retry(t, count) in states && forall x | x in rest :: x in states;
      ResumeRetryIs(m, t, count, rest);
      Restore(t);
      var i := Decode(m.code, pc - 1).value;
      StepBack(i.count);
      pc := pc + 16 + i.next;
      states := if count - 1 == 0 then rest else rest + [Retry(t.(pos := cptr), count - 1)];
    }

    /** The unwinding part of the interpreter: one entry of the backtrack stack after another,
        until one of them resumes the run (more) or none is left. k bounds the steps. */
    method UnwindStates(ok: bool, ghost k: nat, ghost final: Config) returns (more: bool, ret: bool, ghost j: nat)
      requires Valid() && final.Done?
      requires Steps(m, k, Unwind(ok, if ok then capture[..] else [], states)) == final
      modifies this, stack, capture
      ensures Valid()
      ensures more ==> j <= k && Steps(m, j, State()) == final
      ensures !more ==> final == Done(ret, if ret then capture[..] else [])
    {
      hide Step, Resume, Decode, BackN;
      ret := ok;
      j := k;
      while states != []
        invariant Valid()
        invariant j <= k && Steps(m, j, Unwind(ret, if ret then capture[..] else [], states)) == final
        decreases |states|
      {
        ghost var caps := if ret then capture[..] else [];
        ghost var c := Unwind(ret, caps, states);
        StepsOnce(m, j, c, final);
        j := j - 1;
        StepUnwind(m, ret, caps, states);
        var e, rest := states[|states| - 1], states[..|states| - 1];
        assert e in states && forall x | x in rest :: x in states;
        match e
        case Split(t) =>
          states := rest;
          if !ret {
            Restore(t);
            return true, ret, j;
          }
        case Ahead(neg, t) =>
          states := rest;
          if ret == neg {
            ret := false;
          } else {
            if neg { Restore(t); } else { RestoreRest(t); }
            return true, ret, j;
          }
        case Retry(t, count) =>
          if ret {
            states := rest;
          } else {
            assert states == rest + [Retry(t, count)];
            StepsCrash(m, j, final);
            GiveBack(t, count, rest);
            return true, ret, j;
          }
      }
      StepsDone(m, j, ret, if ret then capture[..] else [], final);
      return false, ret, j;
    }

    // ---- instructions; pc is already past the instruction

    /** The transition reported by a verdict. */
    ghost function After(v: Verdict): Config
      requires Valid()
      reads this, stack, capture
    {
      match v
      case Continue => Run(Current(), states)
      case Matched => Unwind(true, capture[..], states)
      case Failed => Fail(states)
    }

    method ExecMove(i: Insn) returns (v: Verdict)
      requires Valid() && (IsCharInsn(i) || IsAssertInsn(i)) && 0 <= cptr <= |m.x.text.units|
      requires i.Range? || i.Range32? ==> i.rs != []
      modifies this`cptr
      ensures Valid() && After(v) == old(Exec(m, i, Current(), states))
    {
      hide Accepts, AssertHolds, CharAt, Next;
      if IsCharInsn(i) {
        if cptr >= |m.x.text.units| { return Failed; }
        var c := CharAt(m.x.text, cptr);
        var ok := Accept(m.x, i, c);
        if !ok { return Failed; }
        cptr := Next(m.x.text, cptr);
      } else if !AssertHolds(m.x, i, cptr) {
        return Failed;
      }
      return Continue;
    }

    method ExecSplit(i: Insn)
      requires Valid() && 0 <= cptr <= |m.x.text.units| && (i.SplitGotoFirst? || i.SplitNextFirst?)
      modifies this`pc, this`states
      ensures Valid() && Run(Current(), states) == old(Exec(m, i, Current(), states))
    {
      if i.SplitGotoFirst? {
        PushState(pc, Split(Current()));
        pc := pc + i.off;
      } else {
        PushState(pc + i.off, Split(Current()));
      }
    }

    method ExecLook(i: Insn)
      requires Valid() && 0 <= cptr <= |m.x.text.units| && (i.Lookahead? || i.NegativeLookahead?)
      modifies this`states
      ensures Valid() && Run(Current(), states) == old(Exec(m, i, Current(), states))
    {
      PushState(pc + i.off, Ahead(i.NegativeLookahead?, Current()));
    }

    method SetCapture(k: int, v: int)
      modifies capture
      ensures capture[..] == SetCap(old(capture[..]), k, v)
    {
      if 0 <= k < capture.Length { capture[k] := v; }
    }

    method ResetCaptures(lo: int, hi: int)
      modifies capture
      ensures capture[..] == ResetCaps(old(capture[..]), lo, hi)
    {
      var val := lo;
      while val <= hi
        invariant ResetCaps(capture[..], val, hi) == ResetCaps(old(capture[..]), lo, hi)
        decreases hi + 1 - val
      {
        SetCapture(2 * val, -1);
        SetCapture(2 * val + 1, -1);
        val := val + 1;
      }
    }

    method ExecSave(i: Insn)
      requires Valid() && 0 <= cptr <= |m.x.text.units|
      requires (i.SaveStart? && i.idx < m.ncap) || (i.SaveEnd? && i.idx < m.ncap) || (i.SaveReset? && i.hi < m.ncap)
      modifies capture
      ensures Valid() && Run(Current(), states) == old(Exec(m, i, Current(), states))
    {
      hide SetCap, ResetCaps;
      ghost var s := stack[..stackLen];
      match i
      case SaveStart(k) => SetCapture(2 * k, cptr);
      case SaveEnd(k) => SetCapture(2 * k + 1, cptr);
      case SaveReset(lo, hi) => ResetCaptures(lo, hi);
      assert stack[..stackLen] == s;
    }

    method Push(v: int)
      requires Valid() && stackLen < stack.Length
      modifies this`stackLen, stack
      ensures Valid() && stack[..stackLen] == old(stack[..stackLen]) + [v]
    {
      stack[stackLen] := v;
      stackLen := stackLen + 1;
    }

    /** The instructions on the operand stack. */
    method ExecStack(i: Insn)
      requires Valid() && 0 <= cptr <= |m.x.text.units| && Exec(m, i, Current(), states) != Crash
      requires i.PushI32? || i.PushCharPos? || i.Drop? || i.Loop? || i.BneCharPos?
      modifies this`pc, this`stackLen, stack
      ensures Valid() && Run(Current(), states) == old(Exec(m, i, Current(), states))
    {
      ghost var s, caps := stack[..stackLen], capture[..];
      match i
      case PushI32(v) => Push(v); assert capture[..] == caps;
      case PushCharPos => Push(cptr); assert capture[..] == caps;
      case Drop =>
        stackLen := stackLen - 1;
        assert stack[..stackLen] == Pop(s);
      case Loop(off) =>
        stack[stackLen - 1] := stack[stackLen - 1] - 1;
        assert stack[..stackLen] == Pop(s) + [Top(s) - 1] && capture[..] == caps;
        if stack[stackLen - 1] != 0 { pc := pc + off; }
      case BneCharPos(off) =>
        stackLen := stackLen - 1;
        assert stack[..stackLen] == Pop(s) && stack[stackLen] == Top(s);
        if stack[stackLen] != cptr { pc := pc + off; }
    }

    /** The nested run of a simple atom. */
    method SimpleRun(start: int, from: int) returns (r: Simple)
      requires 0 <= from <= |m.x.text.units|
      ensures r == RunSimple(m, start, from)
    {
      hide Decode, Accepts, AssertHolds, CharAt, Next;
      var p, at := start, from;
      while true
        invariant 0 <= at <= |m.x.text.units|
        invariant RunSimple(m, p, at) == RunSimple(m, start, from)
        decreases |m.code| - p
      {
        var d := Decode(m.code, p);
        if d.None? { return Bad; }
        DecodedInside(m.code, p);
        DecodedRange(m.code, p);
        var i := d.value;
        if i.Match? { return End(at); }
        if IsCharInsn(i) {
          if at >= |m.x.text.units| { return NoMatch; }
          var c := CharAt(m.x.text, at);
          var ok := Accept(m.x, i, c);
          if !ok { return NoMatch; }
          at := Next(m.x.text, at);
        } else if IsAssertInsn(i) {
          if !AssertHolds(m.x, i, at) { return NoMatch; }
        } else {
          return Bad;
        }
        p := p + ISize(i);
      }
    }

    /** The forward phase of the greedy repeat: turns made and position reached. */
    method RepeatRun(start: int, from: int, max: int) returns (q: nat, at: int)
      requires 0 <= from <= |m.x.text.units| && Repeat(m, start, from, 0, max).Some?
      ensures Repeat(m, start, from, 0, max) == Some((q, at))
    {
      hide RunSimple;
      q, at := 0, from;
      while true
        invariant 0 <= at <= |m.x.text.units|
        invariant Repeat(m, start, at, q, max) == Repeat(m, start, from, 0, max)
        decreases |m.x.text.units| - at
      {
        var r := SimpleRun(start, at);
        RunSimpleRange(m, start, at);
        if !r.End? { return; }
        at := r.pos;
        q := q + 1;
        if q >= max && max != INT32_MAX { return; }
      }
    }

    method ExecGreedy(i: Insn) returns (v: Verdict)
      requires Valid() && i.Greedy? && 0 <= cptr <= |m.x.text.units| && Exec(m, i, Current(), states) != Crash
      modifies this`pc, this`cptr, this`states
      ensures Valid() && After(v) == old(Exec(m, i, Current(), states))
    {
      hide Repeat;
      var q, p := RepeatRun(pc, cptr, i.max);
      if q < i.min { return Failed; }
      cptr := p;
      if q > i.min { PushState(pc - 16, Retry(Current(), q - i.min)); }
      pc := pc + i.next;
      return Continue;
    }

    method ExecInsn(i: Insn) returns (v: Verdict)
      requires Valid() && Exec(m, i, Current(), states) != Crash
      requires i.Range? || i.Range32? ==> i.rs != []
      modifies this, stack, capture
      ensures Valid() && After(v) == old(Exec(m, i, Current(), states))
    {
      hide Repeat, Advance, SetCap, ResetCaps, Back;
      v := Continue;
      match i
      case Match => return Matched;
      case Goto(off) => pc := pc + off;
      case Prev =>
        if cptr == 0 { return Failed; }
        cptr := Back(m.x.text, cptr);
      case Greedy(_, _, _, _) => v := ExecGreedy(i);
      case SplitGotoFirst(_) => ExecSplit(i);
      case SplitNextFirst(_) => ExecSplit(i);
      case Lookahead(_) => ExecLook(i);
      case NegativeLookahead(_) => ExecLook(i);
      case SaveStart(_) => ExecSave(i);
      case SaveEnd(_) => ExecSave(i);
      case SaveReset(_, _) => ExecSave(i);
      case PushI32(_) => ExecStack(i);
      case PushCharPos => ExecStack(i);
      case Drop => ExecStack(i);
      case Loop(_) => ExecStack(i);
      case BneCharPos(_) => ExecStack(i);
      case _ => v := ExecMove(i);
    }

    /** lre_exec_backtrack: run to the end. k is the number of steps left. */
    method Backtrack(ghost k0: nat, ghost final: Config) returns (ret: bool)
      requires Valid() && final.Done? && Steps(m, k0, State()) == final
      modifies this, stack, capture
      ensures final == Done(ret, if ret then capture[..] else [])
    {
      hide Exec, Decode;
      ghost var k := k0;
      while true
        invariant Valid() && Steps(m, k, State()) == final
        decreases k
      {
        ghost var c := State();
        StepsOnce(m, k, c, final);
        k := k - 1;
        StepsCrash(m, k, final);
        var i := Decode(m.code, pc).value;
        DecodedRange(m.code, pc);
        pc := pc + ISize(i);
        var v := ExecInsn(i);
        assert After(v) == Step(m, c);
        if !v.Continue? {
          ghost var j;
          var more;
          more, ret, j := UnwindStates(v.Matched?, k, final);
          if !more { return; }
          k := j;
        }
      }
    }
  }

  lemma DecodedInside(code: seq<u8>, pc: int)
    ensures Decode(code, pc).Some? ==> 0 <= pc < |code|
  {
    hide GetU16, GetU32, GetI32, GetPairs16, GetPairs32;
  }

  lemma RunSimpleRange(m: Machine, pc: int, p: int)
    requires 0 <= p <= |m.x.text.units|
    ensures RunSimple(m, pc, p).End? ==> p <= RunSimple(m, pc, p).pos <= |m.x.text.units|
  {
  }

  /** A run that has not ended makes a step. */
  lemma StepsOnce(m: Machine, k: nat, c: Config, d: Config)
    requires Steps(m, k, c) == d && d.Done? && !c.Done?
    ensures k > 0 && Steps(m, k - 1, Step(m, c)) == d
  {
  }

  lemma StepUnwind(m: Machine, ok: bool, caps: seq<int>, bt: seq<Entry>)
    ensures Step(m, Unwind(ok, caps, bt)) == Resume(m, ok, caps, bt)
    ensures bt != [] ==>
              var e, rest := bt[|bt| - 1], bt[..|bt| - 1];
              match e
              case Split(t) => Resume(m, ok, caps, bt) == if ok then Unwind(true, caps, rest) else Run(t, rest)
              case Ahead(neg, t) =>
                Resume(m, ok, caps, bt) == if ok == neg then Fail(rest)
                    else Run(if neg then t else t.(caps := caps), rest)
              case Retry(_, _) => ok ==> Resume(m, ok, caps, bt) == Unwind(true, caps, rest)
  {
    hide Decode, BackN;
  }

  /** A run that ends in a result has not crashed. */
  lemma StepsCrash(m: Machine, k: nat, d: Config)
    requires d.Done?
    ensures Steps(m, k, Crash) != d
  {
    DoneStays(m, k, Crash);
  }

  lemma StepsDone(m: Machine, k: nat, ok: bool, caps: seq<int>, d: Config)
    requires Steps(m, k, Unwind(ok, caps, [])) == d && d.Done?
    ensures d == Done(ok, caps)
  {
    StepsOnce(m, k, Unwind(ok, caps, []), d);
    DoneStays(m, k - 1, Done(ok, caps));
  }

  lemma ResumeRetryIs(m: Machine, t: Thread, count: int, rest: seq<Entry>)
    requires Resume(m, false, [], rest + [Retry(t, count)]) != Crash
    ensures Decode(m.code, t.pc - 1).Some? && Decode(m.code, t.pc - 1).value.Greedy?
    ensures var i := Decode(m.code, t.pc - 1).value;
      && i.count >= 0 && BackN(m.x.text, t.pos, i.count).Some?
      && var p := BackN(m.x.text, t.pos, i.count).value;
         Resume(m, false, [], rest + [Retry(t, count)]) ==
         Run(t.(pc := t.pc + 16 + i.next, pos := p), if count - 1 == 0 then rest
             else rest + [Retry(t.(pos := p), count - 1)])
  {
    hide Decode, BackN;
    Lists.LastAppend(rest, Retry(t, count));
  }
}
