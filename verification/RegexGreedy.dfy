/** The optimised greedy repeat of a simple atom: run forward as often as possible, then give
    back one turn at a time by stepping back over its characters. */
module RegexGreedy {
  import opened Options
  import opened Bytes
  import opened RegexSyntax
  import opened RegexText
  import opened RegexCode
  import opened RegexRange
  import opened RegexMatch
  import opened RegexVM
  import opened RegexCompile
  import opened RegexShape
  import opened RegexProgress
  import opened RegexTrace
  import opened RegexSim
  import Lists

  /** Straight-line execution of character and assertion instructions. */
  function RunProg(x: Subject, prog: seq<Insn>, p: int): Option<int> {
    if prog == [] then Some(p)
    else if !(IsCharInsn(prog[0]) || IsAssertInsn(prog[0])) || !(0 <= p <= |x.text.units|) then None
    else
      match Advance(x, prog[0], p)
      case None => None
      case Some(q) => RunProg(x, prog[1..], q)
  }

  lemma {:induction false} SimpleConcat(a: seq<Insn>, b: seq<Insn>)
    ensures SimpleCount(a + b) ==
            if SimpleCount(a) < 0 || SimpleCount(b) < 0 then -1 else SimpleCount(a) + SimpleCount(b)
  {
    if a == [] {
      assert a + b == b;
    } else {
      Lists.TailAppend(a, b);
      SimpleConcat(a[1..], b);
    }
  }

  lemma {:induction false} RunConcat(x: Subject, a: seq<Insn>, b: seq<Insn>, p: int)
    ensures RunProg(x, a + b, p) ==
            match RunProg(x, a, p) case None => None case Some(q) => RunProg(x, b, q)
    decreases |a|
  {
    if a == [] {
      assert a + b == b;
    } else {
      Lists.TailAppend(a, b);
      if (IsCharInsn(a[0]) || IsAssertInsn(a[0])) && 0 <= p <= |x.text.units| && Advance(x, a[0], p).Some? {
        RunConcat(x, a[1..], b, Advance(x, a[0], p).value);
      }
    }
  }

  /** The one outcome of straight-line code at s, if any. */
  function Single(x: Subject, prog: seq<Insn>, s: St): seq<St> {
    match RunProg(x, prog, s.pos)
    case None => []
    case Some(q) => [s.(pos := q)]
  }

  lemma NotSimple(i: Insn, rest: seq<Insn>)
    requires !IsCharInsn(i) && !IsAssertInsn(i)
    ensures SimpleCount([i] + rest) < 0
  {
    SimpleConcat([i], rest);
    assert SimpleCount([i]) < 0 by { assert [i][1..] == []; }
  }

  lemma FirstNotSimple(prog: seq<Insn>)
    requires prog != [] ==> !IsCharInsn(prog[0]) && !IsAssertInsn(prog[0])
    ensures prog == [] || SimpleCount(prog) < 0
  {
    if prog != [] {
      Lists.HeadTail(prog);
      NotSimple(prog[0], prog[1..]);
    }
  }

  lemma OneInsn(x: Subject, i: Insn, p: int)
    requires (IsCharInsn(i) || IsAssertInsn(i)) && 0 <= p <= |x.text.units|
    ensures RunProg(x, [i], p) == Advance(x, i, p)
  {
    hide Advance;
    assert [i][1..] == [];
  }

  lemma SimpleLeaf(x: Subject, re: Re, cc: nat, back: bool, s: St)
    requires Wf(re) && StOk(x, s) && IsLeaf(re)
    requires SimpleCount(Compile(x.env, re, cc, back)) >= 0
    ensures Outcomes(x, re, cc, back, s) == Single(x, Compile(x.env, re, cc, back), s)
  {
    if IsCharNode(re) {
      var i := Compile(x.env, re, 0, false)[0];
      hide Accepts, CharMatches, ClassInsn, CharInsn;
      assert !back by {
        assert [Prev, i, Prev] == [Prev] + ([i] + [Prev]);
        NotSimple(Prev, [i] + [Prev]);
      }
      CharInsnExact(x, re, i, if s.pos < |x.text.units| then CharAt(x.text, s.pos) else 0);
      OneInsn(x, i, s.pos);
    } else if !re.Empty? {
      OneInsn(x, Compile(x.env, re, cc, back)[0], s.pos);
    }
  }

  lemma ZeroNotSimple(A: seq<Insn>, max: int, greedy: bool, check: bool)
    ensures max == 0 || SimpleCount(ZeroCode(A, max, greedy, check)) < 0
  {
    FirstNotSimple(ZeroCode(A, max, greedy, check));
  }

  lemma RestNotSimple(A: seq<Insn>, min: int, max: int, greedy: bool, check: bool)
    ensures RestCode(A, min, max, greedy, check) == [] || SimpleCount(RestCode(A, min, max, greedy, check)) < 0
    ensures RestCode(A, min, max, greedy, check) == [] ==> max != INT32_MAX && max <= min
  {
    FirstNotSimple(RestCode(A, min, max, greedy, check));
  }

  lemma MinSimple(A: seq<Insn>, min: int)
    requires min > 1
    ensures SimpleCount(MinCode(A, min)) < 0
  {
    FirstNotSimple(MinCode(A, min));
  }

  lemma QuantSimple(A: seq<Insn>, cc: nat, n: nat, min: int, max: int, greedy: bool)
    requires 0 <= min <= max && SimpleCount(QuantCode(A, cc, n, min, max, greedy)) >= 0
    ensures QuantCode(A, cc, n, min, max, greedy) == (if max == 0 then [] else A)
    ensures (max == 0 && n == 0) || (min == 1 && max == 1)
  {
    hide Size, ChecksAdvance, ZeroCode, RestCode, TimesCode, SimpleCount;
    var check := greedy && !ChecksAdvance(A);
    if IsSimple(A, max, greedy) {
      NotSimple(GreedyInsn(A, min, max), A + [Match]);
    } else if min == 0 {
      var Z := ZeroCode(A, max, greedy, check);
      SimpleConcat(ResetCode(cc, n), Z);
      FirstNotSimple(ResetCode(cc, n));
      ZeroNotSimple(A, max, greedy, check);
      assert max == 0 && Z == [] by { ZeroEmpty(A, greedy, check); }
    } else if min == 1 && max == INT32_MAX && !check {
      var j := SplitBack(greedy, -(Size(A) + 5));
      SimpleConcat(A, [j]);
      assert [j] + [] == [j];
      NotSimple(j, []);
    } else {
      var M, R := MinCode(A, min), RestCode(A, min, max, greedy, check);
      SimpleConcat(M, R);
      if min > 1 { MinSimple(A, min); }
      RestNotSimple(A, min, max, greedy, check);
      assert M + [] == M;
    }
  }

  lemma ZeroEmpty(A: seq<Insn>, greedy: bool, check: bool)
    ensures ZeroCode(A, 0, greedy, check) == []
  {
  }

  lemma {:induction false} UpToZero(x: Subject, a: Re, cc: nat, back: bool, greedy: bool, sts: seq<St>)
    ensures UpToAll(x, a, cc, back, greedy, 0, sts) == sts
    decreases |sts|
  {
    if sts != [] {
      UpToZero(x, a, cc, back, greedy, sts[1..]);
      Lists.HeadTail(sts);
    }
  }

  lemma {:induction false} TimesZero(x: Subject, a: Re, cc: nat, back: bool, sts: seq<St>)
    ensures TimesAll(x, a, cc, back, 0, sts) == sts
    decreases |sts|
  {
    if sts != [] {
      TimesZero(x, a, cc, back, sts[1..]);
      Lists.HeadTail(sts);
    }
  }

  lemma BranchNotSimple(env: Env, re: Re, cc: nat, back: bool)
    requires re.Alt? || re.Capture? || re.Look?
    ensures SimpleCount(Compile(env, re, cc, back)) < 0
  {
    var code := Compile(env, re, cc, back);
    NotSimple(code[0], code[1..]);
    Lists.HeadTail(code);
  }

  lemma SimpleQuant(x: Subject, a: Re, min: int, max: int, greedy: bool, cc: nat, back: bool, s: St)
    requires 0 <= min <= max
    requires SimpleCount(Compile(x.env, Quant(a, min, max, greedy), cc, back)) >= 0
    ensures if max == 0 then Outcomes(x, Quant(a, min, max, greedy), cc, back, s) == [s] == Single(x, [], s)
            else Outcomes(x, Quant(a, min, max, greedy), cc, back, s) == Outcomes(x, a, cc, back, s)
    ensures Compile(x.env, Quant(a, min, max, greedy), cc, back) ==
            if max == 0 then [] else Compile(x.env, a, cc, back)
  {
    hide QuantCode, Outcomes, UpToAll;
    QuantSimple(Compile(x.env, a, cc, back), cc, NCap(a), min, max, greedy);
    hide SimpleCount, Compile;
    OutcomesQuant(x, a, min, max, greedy, cc, back, s);
    if max > 0 {
      TimesZero(x, a, cc, back, Outcomes(x, a, cc, back, s));
      UpToZero(x, a, cc, back, greedy, Outcomes(x, a, cc, back, s));
    }
  }

  /** Simple code has at most one outcome, the one its straight-line run computes. */
  lemma {:induction false} SimpleOutcome(x: Subject, re: Re, cc: nat, back: bool, s: St)
    requires Wf(re) && StOk(x, s) && SimpleCount(Compile(x.env, re, cc, back)) >= 0
    ensures Outcomes(x, re, cc, back, s) == Single(x, Compile(x.env, re, cc, back), s)
    decreases re, 1
  {
    hide QuantCode, SimpleCount, RunProg, Single, StOk;
    if IsLeaf(re) {
      SimpleLeaf(x, re, cc, back, s);
    } else {
      match re
      case Cat(l, r) =>
        if back {
          SimpleCat(x, re, r, cc + NCap(l), l, cc, back, s);
        } else {
          SimpleCat(x, re, l, cc, r, cc + NCap(l), back, s);
        }
      case Quant(a, min, max, greedy) =>
        SimpleQuant(x, a, min, max, greedy, cc, back, s);
        if max > 0 { SimpleOutcome(x, a, cc, back, s); }
      case _ => BranchNotSimple(x.env, re, cc, back);
    }
  }

  /** One simple expression after another, in the order of their code. */
  lemma {:induction false} SimpleCat(x: Subject, whole: Re, f: Re, fc: nat, g: Re, gc: nat, back: bool, s: St)
    requires f < whole && g < whole && Wf(f) && Wf(g) && StOk(x, s)
    requires SimpleCount(Compile(x.env, f, fc, back) + Compile(x.env, g, gc, back)) >= 0
    ensures OutcomesAll(x, g, gc, back, Outcomes(x, f, fc, back, s)) ==
            Single(x, Compile(x.env, f, fc, back) + Compile(x.env, g, gc, back), s)
    decreases whole, 0
  {
    var A, B := Compile(x.env, f, fc, back), Compile(x.env, g, gc, back);
    SimpleConcat(A, B);
    RunConcat(x, A, B, s.pos);
    SimpleOutcome(x, f, fc, back, s);
    OutcomesLeft(x, f, fc, back, s);
    var o := Outcomes(x, f, fc, back, s);
    if o != [] {
      assert o[0] in o;
      SimpleOutcome(x, g, gc, back, o[0]);
      assert o[1..] == [];
      assert OutcomesAll(x, g, gc, back, o) == Outcomes(x, g, gc, back, o[0]) + [];
    }
  }

  /** The nested run of the interpreter over simple code is its straight-line run. */
  lemma {:induction false} RunSimpleIs(m: Machine, pc: int, prog: seq<Insn>, p: int)
    requires Has(m.code, pc, prog + [Match]) && SimpleCount(prog) >= 0 && 0 <= p <= |m.x.text.units|
    ensures RunSimple(m, pc, p) == match RunProg(m.x, prog, p) case None => NoMatch case Some(q) => End(q)
    decreases |prog|
  {
    hide Decode, Advance;
    if prog == [] {
      assert prog + [Match] == [Match];
    } else {
      Lists.TailAppend(prog, [Match]);
      if Advance(m.x, prog[0], p).Some? {
        AdvanceRange(m.x, prog[0], p);
        RunSimpleIs(m, pc + ISize(prog[0]), prog[1..], Advance(m.x, prog[0], p).value);
      }
    }
  }

  lemma AdvanceRange(x: Subject, i: Insn, p: int)
    requires (IsCharInsn(i) || IsAssertInsn(i)) && 0 <= p <= |x.text.units|
    ensures Advance(x, i, p).Some? ==> p <= Advance(x, i, p).value <= |x.text.units|
  {
  }

  lemma {:induction false} BackNAdd(t: Text, p: int, a: nat, b: nat)
    requires BackN(t, p, a).Some?
    ensures BackN(t, p, a + b) == BackN(t, BackN(t, p, a).value, b)
    decreases a
  {
    hide Back;
    if a > 0 { BackNAdd(t, Back(t, p), a - 1, b); }
  }

  /** From a code-point boundary, stepping back over the characters consumed by simple code
      returns to where it started. */
  lemma {:induction false} BackUndoes(x: Subject, prog: seq<Insn>, p: int)
    requires Boundary(x.text, p) && SimpleCount(prog) >= 0 && RunProg(x, prog, p).Some?
    ensures var q := RunProg(x, prog, p).value;
      && Boundary(x.text, q) && p <= q && (SimpleCount(prog) > 0 ==> p < q)
      && BackN(x.text, q, SimpleCount(prog)) == Some(p)
    decreases |prog|
  {
    if prog != [] {
      hide Accepts, AssertHolds, CharAt;
      var p1 := Advance(x, prog[0], p).value;
      if IsCharInsn(prog[0]) {
        NextBoundary(x.text, p);
        BackInvertsNext(x.text, p);
      }
      BackUndoes(x, prog[1..], p1);
      var q := RunProg(x, prog, p).value;
      BackNAdd(x.text, q, SimpleCount(prog[1..]), SimpleCount(prog) - SimpleCount(prog[1..]));
      if IsCharInsn(prog[0]) { assert BackN(x.text, p1, 1) == BackN(x.text, p, 0); }
    }
  }

  /** Positions after 0, 1, 2, ... turns of simple code, at most n of them. */
  function Climb(x: Subject, prog: seq<Insn>, p: int, n: nat): seq<int>
    decreases n
  {
    if n == 0 then [p]
    else
      match RunProg(x, prog, p)
      case None => [p]
      case Some(q) => [p] + Climb(x, prog, q, n - 1)
  }

  /** States at the given positions, the last first. */
  function Down(s: St, ps: seq<int>): seq<St>
    decreases |ps|
  {
    if ps == [] then [] else Down(s, ps[1..]) + [s.(pos := ps[0])]
  }

  lemma {:induction false} DownConcat(s: St, a: seq<int>, b: seq<int>)
    ensures Down(s, a + b) == Down(s, b) + Down(s, a)
    decreases |a|
  {
    if a == [] {
      assert a + b == b;
    } else {
      Lists.TailAppend(a, b);
      DownConcat(s, a[1..], b);
    }
  }

  // ---- the repeat in the reference meaning

  lemma {:induction false} BackNotSimple(env: Env, re: Re, cc: nat)
    requires Wf(re)
    ensures SimpleCount(Compile(env, re, cc, true)) <= 0
    decreases re
  {
    hide QuantCode, ClassInsn, CharInsn;
    if IsLeaf(re) {
      FirstNotSimple(if re.Bol? || re.Eol? || re.WordB? then [] else Compile(env, re, cc, true));
      if re.Bol? || re.Eol? || re.WordB? { assert Compile(env, re, cc, true)[1..] == []; }
    } else {
      match re
      case Cat(l, r) =>
        BackNotSimple(env, l, cc);
        BackNotSimple(env, r, cc + NCap(l));
        SimpleConcat(Compile(env, r, cc + NCap(l), true), Compile(env, l, cc, true));
      case Quant(a, min, max, greedy) =>
        BackNotSimple(env, a, cc);
        if SimpleCount(Compile(env, re, cc, true)) > 0 {
          QuantSimple(Compile(env, a, cc, true), cc, NCap(a), min, max, greedy);
        }
      case _ => BranchNotSimple(env, re, cc, true);
    }
  }

  lemma {:induction false} DownSame(s: St, p: int, ps: seq<int>)
    ensures Down(s.(pos := p), ps) == Down(s, ps)
    decreases |ps|
  {
    if ps != [] { DownSame(s, p, ps[1..]); }
  }

  /** One turn of a simple atom going forward. */
  ghost predicate SimpleAtom(x: Subject, a: Re, cc: nat) {
    Wf(a) && SimpleCount(Compile(x.env, a, cc, false)) > 0
  }

  lemma OneTurn(x: Subject, a: Re, cc: nat, s: St)
    requires SimpleAtom(x, a, cc) && StOk(x, s)
    ensures var A := Compile(x.env, a, cc, false);
      && Outcomes(x, a, cc, false, s) == Single(x, A, s)
      && (RunProg(x, A, s.pos).Some? ==>
            var s1 := s.(pos := RunProg(x, A, s.pos).value); StOk(x, s1) && s.pos < s1.pos)
  {
    hide Outcomes, SimpleCount, RunProg, Compile;
    var A := Compile(x.env, a, cc, false);
    SimpleOutcome(x, a, cc, false, s);
    if RunProg(x, A, s.pos).Some? { BackUndoes(x, A, s.pos); }
  }

  lemma {:induction false} StarDown(x: Subject, a: Re, cc: nat, s: St, k: nat)
    requires SimpleAtom(x, a, cc) && StOk(x, s) && k > |x.text.units| - s.pos
    ensures Star(x, a, cc, false, true, s) == Down(s, Climb(x, Compile(x.env, a, cc, false), s.pos, k))
    decreases k
  {
    hide Outcomes, SimpleCount, RunProg, Compile;
    var A := Compile(x.env, a, cc, false);
    OneTurn(x, a, cc, s);
    match RunProg(x, A, s.pos)
    case None =>
    case Some(q) =>
      var s1 := s.(pos := q);
      StarDown(x, a, cc, s1, k - 1);
      DownSame(s, q, Climb(x, A, q, k - 1));
      assert [s1][1..] == [];
      assert StarAll(x, a, cc, false, true, Rem(x, false, s), [s1]) == Star(x, a, cc, false, true, s1) + [];
      Lists.TailAppend([s.pos], Climb(x, A, q, k - 1));
  }

  lemma {:induction false} UpToDown(x: Subject, a: Re, cc: nat, s: St, n: nat)
    requires SimpleAtom(x, a, cc) && StOk(x, s)
    ensures UpTo(x, a, cc, false, true, n, s) == Down(s, Climb(x, Compile(x.env, a, cc, false), s.pos, n))
    decreases n
  {
    hide Outcomes, SimpleCount, RunProg, Compile;
    var A := Compile(x.env, a, cc, false);
    if n > 0 {
      OneTurn(x, a, cc, s);
      match RunProg(x, A, s.pos)
      case None =>
      case Some(q) =>
        var s1 := s.(pos := q);
        UpToDown(x, a, cc, s1, n - 1);
        DownSame(s, q, Climb(x, A, q, n - 1));
        assert [s1][1..] == [];
        assert UpToAll(x, a, cc, false, true, n - 1, [s1]) == UpTo(x, a, cc, false, true, n - 1, s1) + [];
        Lists.TailAppend([s.pos], Climb(x, A, q, n - 1));
    }
  }

  /** Positions of a quantified simple atom: all turns possible, without the first min. */
  function Stops(ps: seq<int>, min: nat): seq<int> {
    if |ps| > min then ps[min..] else []
  }

  lemma {:induction false} StarTimes(x: Subject, a: Re, cc: nat, s: St, j: nat, k: nat, bound: nat)
    requires SimpleAtom(x, a, cc) && StOk(x, s) && k > |x.text.units| - s.pos && bound > Rem(x, false, s)
    ensures StarAll(x, a, cc, false, true, bound, Times(x, a, cc, false, j, s)) ==
            Down(s, Stops(Climb(x, Compile(x.env, a, cc, false), s.pos, k), j))
    decreases j
  {
    hide Outcomes, SimpleCount, RunProg, Compile;
    var A := Compile(x.env, a, cc, false);
    var ps := Climb(x, A, s.pos, k);
    if j == 0 {
      StarDown(x, a, cc, s, k);
      assert [s][1..] == [] && ps[0..] == ps;
      assert StarAll(x, a, cc, false, true, bound, [s]) == Star(x, a, cc, false, true, s) + [];
    } else {
      OneTurn(x, a, cc, s);
      match RunProg(x, A, s.pos)
      case None =>
      case Some(q) =>
        var s1 := s.(pos := q);
        var qs := Climb(x, A, q, k - 1);
        StarTimes(x, a, cc, s1, j - 1, k - 1, bound);
        DownSame(s, q, Stops(qs, j - 1));
        assert [s1][1..] == [];
        var ts := Times(x, a, cc, false, j - 1, s1);
        assert TimesAll(x, a, cc, false, j - 1, [s1]) == ts + [] == ts;
        assert Stops([s.pos] + qs, j) == Stops(qs, j - 1);
    }
  }

  lemma UpToAt(x: Subject, a: Re, cc: nat, s: St, n: nat)
    requires SimpleAtom(x, a, cc) && StOk(x, s)
    ensures UpToAll(x, a, cc, false, true, n, Times(x, a, cc, false, 0, s)) ==
            Down(s, Stops(Climb(x, Compile(x.env, a, cc, false), s.pos, n), 0))
  {
    hide Outcomes, SimpleCount, RunProg, Compile, UpTo, Climb, Down;
    var ps := Climb(x, Compile(x.env, a, cc, false), s.pos, n);
    UpToDown(x, a, cc, s, n);
    assert Times(x, a, cc, false, 0, s) == [s] && [s][1..] == [] && ps[0..] == ps;
    assert UpToAll(x, a, cc, false, true, n, [s]) == UpTo(x, a, cc, false, true, n, s) + [];
  }

  lemma {:induction false} UpToTimes(x: Subject, a: Re, cc: nat, s: St, j: nat, n: nat)
    requires SimpleAtom(x, a, cc) && StOk(x, s)
    ensures UpToAll(x, a, cc, false, true, n, Times(x, a, cc, false, j, s)) ==
            Down(s, Stops(Climb(x, Compile(x.env, a, cc, false), s.pos, n + j), j))
    decreases j
  {
    hide Outcomes, SimpleCount, RunProg, Compile, UpTo, UpToAll, Down, Stops;
    var A := Compile(x.env, a, cc, false);
    if j == 0 {
      UpToAt(x, a, cc, s, n);
    } else {
      OneTurn(x, a, cc, s);
      match RunProg(x, A, s.pos)
      case None => NoMore(x, a, cc, s, j, n);
      case Some(q) =>
        var s1 := s.(pos := q);
        UpToTimes(x, a, cc, s1, j - 1, n);
        DownSame(s, q, Stops(Climb(x, A, q, n + j - 1), j - 1));
        OneMore(x, a, cc, s, j, s1);
        StopsNext(s.pos, Climb(x, A, q, n + j - 1), j);
    }
  }

  /** A required turn that ends in s1 alone. */
  lemma OneMore(x: Subject, a: Re, cc: nat, s: St, j: nat, s1: St)
    requires j > 0 && Outcomes(x, a, cc, false, s) == [s1]
    ensures Times(x, a, cc, false, j, s) == Times(x, a, cc, false, j - 1, s1)
  {
    hide Outcomes;
    var ts := Times(x, a, cc, false, j - 1, s1);
    assert [s1][1..] == [];
    assert TimesAll(x, a, cc, false, j - 1, [s1]) == ts + [] == ts;
  }

  lemma NoMore(x: Subject, a: Re, cc: nat, s: St, j: nat, n: nat)
    requires j > 0 && Outcomes(x, a, cc, false, s) == []
    ensures UpToAll(x, a, cc, false, true, n, Times(x, a, cc, false, j, s)) == [] == Down(s, Stops([s.pos], j))
  {
    hide Outcomes;
  }

  lemma StopsNext(p: int, qs: seq<int>, j: nat)
    requires j > 0
    ensures Stops([p] + qs, j) == Stops(qs, j - 1)
  {
  }

  /** Turns after which a repeat bounded by max gives up at the latest, from position p. */
  function Limit(x: Subject, p: int, max: int): nat
    requires p <= |x.text.units| && max >= 0
  {
    if max == INT32_MAX then |x.text.units| - p + 1 else max
  }

  lemma CatSimple(env: Env, l: Re, r: Re, cc: nat, back: bool)
    requires SimpleCount(Compile(env, Cat(l, r), cc, back)) >= 0
    ensures SimpleCount(Compile(env, l, cc, back)) >= 0 && SimpleCount(Compile(env, r, cc + NCap(l), back)) >= 0
  {
    hide SimpleCount;
    SimpleConcat(Compile(env, l, cc, back), Compile(env, r, cc + NCap(l), back));
    SimpleConcat(Compile(env, r, cc + NCap(l), back), Compile(env, l, cc, back));
  }

  lemma {:induction false} SimpleNoCap(env: Env, a: Re, cc: nat, back: bool)
    requires Wf(a) && SimpleCount(Compile(env, a, cc, back)) >= 0
    ensures NCap(a) == 0
    decreases a
  {
    hide QuantCode, ClassInsn, CharInsn, SimpleCount;
    if !IsLeaf(a) {
      match a
      case Cat(l, r) =>
        CatSimple(env, l, r, cc, back);
        SimpleNoCap(env, l, cc, back);
        SimpleNoCap(env, r, cc + NCap(l), back);
      case Quant(b, min, max, greedy) =>
        QuantSimple(Compile(env, b, cc, back), cc, NCap(b), min, max, greedy);
        if max > 0 { SimpleNoCap(env, b, cc, back); }
      case _ => BranchNotSimple(env, a, cc, back);
    }
  }

  /** The optimised repeat has the outcomes of the generic one: the positions after max, ...,
      min turns, longest first. */
  lemma QuantDown(x: Subject, a: Re, cc: nat, s: St, min: int, max: int)
    requires SimpleAtom(x, a, cc) && StOk(x, s) && 0 <= min <= max && max > 0
    ensures Outcomes(x, Quant(a, min, max, true), cc, false, s) ==
            Down(s, Stops(Climb(x, Compile(x.env, a, cc, false), s.pos, Limit(x, s.pos, max)), min))
  {
    hide SimpleCount, RunProg, Compile, Outcomes, Times, StarAll, UpToAll, Climb, Stops, Down;
    SimpleNoCap(x.env, a, cc, false);
    OutcomesQuant(x, a, min, max, true, cc, false, s);
    if max == INT32_MAX {
      StarTimes(x, a, cc, s, min, Limit(x, s.pos, max), Rem(x, false, s) + 1);
    } else {
      UpToTimes(x, a, cc, s, min, max - min);
    }
  }

  // ---- the repeat instruction

  /** The positions of a climb follow each other by one turn each, on code-point boundaries. */
  ghost predicate IsClimb(x: Subject, prog: seq<Insn>, ps: seq<int>) {
    ps != [] && SimpleCount(prog) >= 0 &&
    (forall i | 0 <= i < |ps| :: Boundary(x.text, ps[i])) &&
    (forall i | 0 <= i < |ps| - 1 :: BackN(x.text, ps[i + 1], SimpleCount(prog)) == Some(ps[i]))
  }

  lemma {:induction false} ClimbIsClimb(x: Subject, prog: seq<Insn>, p: int, n: nat)
    requires Boundary(x.text, p) && SimpleCount(prog) > 0
    ensures var ps := Climb(x, prog, p, n); IsClimb(x, prog, ps) && ps[0] == p && |ps| <= n + 1
    decreases n
  {
    hide SimpleCount, RunProg, BackN;
    if n > 0 && RunProg(x, prog, p).Some? {
      var q := RunProg(x, prog, p).value;
      BackUndoes(x, prog, p);
      ClimbIsClimb(x, prog, q, n - 1);
      var qs := Climb(x, prog, q, n - 1);
      assert Climb(x, prog, p, n) == [p] + qs;
      assert ([p] + qs)[1] == q;
    }
  }

  /** The forward phase makes as many turns as the climb has. */
  lemma {:induction false} RepeatIs(m: Machine, pc: int, prog: seq<Insn>, p: int, q: nat, max: int, k: nat)
    requires Has(m.code, pc, prog + [Match]) && SimpleCount(prog) > 0 && Boundary(m.x.text, p)
    requires if max == INT32_MAX then k > |m.x.text.units| - p else k == max - q > 0
    ensures var ps := Climb(m.x, prog, p, k);
      Repeat(m, pc, p, q, max) == Some((q + |ps| - 1, ps[|ps| - 1]))
    decreases k
  {
    hide SimpleCount, RunProg, Has, RunSimple;
    RunSimpleIs(m, pc, prog, p);
    match RunProg(m.x, prog, p)
    case None =>
    case Some(p1) =>
      BackUndoes(m.x, prog, p);
      if q + 1 >= max && max != INT32_MAX {
      } else {
        RepeatIs(m, pc, prog, p1, q + 1, max, k - 1);
        var qs := Climb(m.x, prog, p1, k - 1);
        assert Climb(m.x, prog, p, k) == [p] + qs;
      }
  }

  lemma DownOne(s: St, p: int)
    ensures Down(s, [p]) == [s.(pos := p)]
  {
    assert [p][1..] == [];
  }

  lemma DownLast(s: St, ps: seq<int>)
    requires ps != []
    ensures Down(s, ps) == [s.(pos := ps[|ps| - 1])] + Down(s, ps[..|ps| - 1])
  {
    var init, last := Lists.Unsnoc(ps);
    DownConcat(s, init, [last]);
    DownOne(s, last);
  }

  lemma ResumeRetry(m: Machine, i: Insn, t: Thread, p: int, k: nat, bt: seq<Entry>)
    requires k > 0 && i.Greedy? && Decode(m.code, t.pc - 1) == Some(i) && i.count >= 0
    requires BackN(m.x.text, t.pos, i.count) == Some(p)
    ensures Step(m, Fail(bt + [Retry(t, k)])) ==
            Run(t.(pc := t.pc + 16 + i.next, pos := p), if k == 1 then bt else bt + [Retry(t.(pos := p), k - 1)])
  {
    hide Decode, BackN;
    Lists.LastAppend(bt, Retry(t, k));
  }

  /** A retry entry gives back one turn at a time. */
  lemma {:induction false} RetryDown(m: Machine, pc: int, prog: seq<Insn>, i: Insn, stk: seq<int>, s: St, ps: seq<int>,
                                     bt: seq<Entry>)
    requires i.Greedy? && Decode(m.code, pc) == Some(i) && i.count == SimpleCount(prog) > 0
    requires IsClimb(m.x, prog, ps) && |ps| >= 2
    ensures Yields(m, Fail(bt + [Retry(Thread(pc + 1, ps[|ps| - 1], s.caps, stk), |ps| - 1)]),
                   pc + 17 + i.next, stk, Down(s, ps[..|ps| - 1]), bt)
    decreases |ps|
  {
    hide Decode, SimpleCount, BackN, Boundary, Step, Yields;
    var k := |ps| - 1;
    var t := Thread(pc + 1, ps[k], s.caps, stk);
    var c := Fail(bt + [Retry(t, k)]);
    var p := ps[k - 1];
    var exit := pc + 17 + i.next;
    var qs := ps[..k];
    ResumeRetry(m, i, t, p, k, bt);
    DownLast(s, qs);
    var s1 := s.(pos := p);
    assert Step(m, c) == Run(At(exit, stk, s1), if k == 1 then bt else bt + [Retry(t.(pos := p), k - 1)]);
    if k == 1 {
      assert qs[..0] == [] && [s1] + [] == [s1];
      YieldsOne(m, exit, stk, s1, bt);
    } else {
      assert IsClimb(m.x, prog, qs) by { assert forall j | 0 <= j < |qs| :: qs[j] == ps[j]; }
      RetryDown(m, pc, prog, i, stk, s, qs, bt);
      var es := [Retry(t.(pos := p), k - 1)];
      ReachesRefl(m, Run(At(exit, stk, s1), bt + es));
      assert NoAhead(es);
      YieldsCons(m, Run(At(exit, stk, s1), bt + es), exit, stk, s1, Down(s, qs[..k - 1]), bt, es);
    }
    YieldsStep(m, c, exit, stk, Down(s, qs), bt);
  }

  lemma ExecGreedy(m: Machine, i: Insn, t: Thread, bt: seq<Entry>, q: nat, p: int)
    requires i.Greedy? && 0 <= t.pos <= |m.x.text.units| && Repeat(m, t.pc, t.pos, 0, i.max) == Some((q, p))
    ensures Exec(m, i, t, bt) ==
            if q < i.min then Fail(bt)
            else Run(t.(pc := t.pc + i.next, pos := p),
                if q > i.min then bt + [Retry(t.(pc := t.pc - 16, pos := p), q - i.min)] else bt)
  {
    hide Repeat;
  }

  /** The repeat instruction yields its climb from the top down to the minimum. */
  lemma SegGreedy(m: Machine, pc: int, A: seq<Insn>, min: nat, max: int, stk: seq<int>, s: St)
    requires Decode(m.code, pc) == Some(GreedyInsn(A, min, max)) && Has(m.code, pc + 17, A + [Match])
    requires SimpleCount(A) > 0 && StOk(m.x, s) && max > 0
    ensures Seg(m, pc, stk, pc + 18 + Size(A), stk, s,
        Down(s, Stops(Climb(m.x, A, s.pos, Limit(m.x, s.pos, max)), min)))
  {
    hide Decode, Has, Repeat, SimpleCount, Step, Exec, IsClimb, Yields, Climb;
    var ps := Climb(m.x, A, s.pos, Limit(m.x, s.pos, max));
    ClimbIsClimb(m.x, A, s.pos, Limit(m.x, s.pos, max));
    RepeatIs(m, pc + 17, A, s.pos, 0, max, Limit(m.x, s.pos, max));
    var outs := Down(s, Stops(ps, min));
    forall bt: seq<Entry> ensures Yields(m, Run(At(pc, stk, s), bt), pc + 18 + Size(A), stk, outs, bt) {
      GreedyRuns(m, pc, A, min, max, stk, s, ps, bt);
    }
    SegIntro(m, pc, stk, pc + 18 + Size(A), stk, s, outs);
  }

  lemma GreedyRuns(m: Machine, pc: int, A: seq<Insn>, min: nat, max: int, stk: seq<int>, s: St, ps: seq<int>,
                   bt: seq<Entry>)
    requires Decode(m.code, pc) == Some(GreedyInsn(A, min, max))
    requires SimpleCount(A) > 0 && StOk(m.x, s) && max > 0 && IsClimb(m.x, A, ps)
    requires Repeat(m, pc + 17, s.pos, 0, max) == Some((|ps| - 1, ps[|ps| - 1]))
    ensures Yields(m, Run(At(pc, stk, s), bt), pc + 18 + Size(A), stk, Down(s, Stops(ps, min)), bt)
  {
    hide Decode, Repeat, SimpleCount, Step, Exec, Yields, Boundary, BackN;
    var i := GreedyInsn(A, min, max);
    var l := |ps| - 1;
    var exit := pc + 18 + Size(A);
    var c := Run(At(pc, stk, s), bt);
    var outs := Down(s, Stops(ps, min));
    StepExec(m, i, At(pc, stk, s), bt);
    assert At(pc, stk, s).(pc := pc + ISize(i)) == At(pc + 17, stk, s);
    assert 0 <= s.pos <= |m.x.text.units| by { StOkRange(m.x, s); }
    ExecGreedy(m, i, At(pc + 17, stk, s), bt, l, ps[l]);
    if l < min {
      FailYields(m, exit, stk, bt);
    } else {
      var s1 := s.(pos := ps[l]);
      var qs := ps[min..];
      DownLast(s, qs);
      if l == min {
        assert qs[..|qs| - 1] == [] && [s1] + [] == [s1];
        YieldsOne(m, exit, stk, s1, bt);
      } else {
        assert IsClimb(m.x, A, qs) by { assert forall j | 0 <= j < |qs| :: qs[j] == ps[j + min]; }
        RetryDown(m, pc, A, i, stk, s, qs, bt);
        var es := [Retry(Thread(pc + 1, ps[l], s.caps, stk), l - min)];
        ReachesRefl(m, Run(At(exit, stk, s1), bt + es));
        assert NoAhead(es);
        YieldsCons(m, Run(At(exit, stk, s1), bt + es), exit, stk, s1, Down(s, qs[..|qs| - 1]), bt, es);
      }
    }
    YieldsStep(m, c, exit, stk, outs, bt);
  }

  lemma StOkRange(x: Subject, s: St)
    requires StOk(x, s)
    ensures 0 <= s.pos <= |x.text.units|
  {
  }

  lemma FailYields(m: Machine, pc: int, stk: seq<int>, bt: seq<Entry>)
    ensures Yields(m, Fail(bt), pc, stk, [], bt)
  {
    ReachesRefl(m, Fail(bt));
  }
}
