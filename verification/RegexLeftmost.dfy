/** What a whole program finds: the leftmost starting position with a match, in registers that
    only their own groups write. */
module RegexLeftmost {
  import opened Options
  import opened Bytes
  import opened RegexSyntax
  import opened RegexText
  import opened RegexMatch
  import opened RegexCompile
  import opened RegexVM
  import opened RegexTrace
  import opened RegexMain
  import opened RegexEcma
  import opened RegexOrder
  import opened RegexAgree
  import RegexPlaces
  import RegexReach

  // ---- registers

  /** s agrees with base on the registers of every group outside lo..hi. */
  ghost predicate Keeps(base: seq<int>, lo: nat, hi: nat, s: St) {
    |s.caps| == |base| && forall k | 0 <= k < |base| && !(2 * lo <= k < 2 * hi) :: s.caps[k] == base[k]
  }

  ghost predicate KeepsAll(base: seq<int>, lo: nat, hi: nat, rs: seq<St>) {
    forall r | r in rs :: Keeps(base, lo, hi, r)
  }

  lemma KeepsSet(base: seq<int>, lo: nat, hi: nat, s: St, k: int, v: int)
    requires Keeps(base, lo, hi, s) && 2 * lo <= k < 2 * hi
    ensures Keeps(base, lo, hi, s.(caps := SetCap(s.caps, k, v)))
  {
  }

  lemma KeepsSetAll(base: seq<int>, lo: nat, hi: nat, rs: seq<St>, k: int)
    requires KeepsAll(base, lo, hi, rs) && 2 * lo <= k < 2 * hi
    ensures KeepsAll(base, lo, hi, SetAll(rs, k))
  {
    forall r | r in SetAll(rs, k) ensures Keeps(base, lo, hi, r) {
      var i :| 0 <= i < |rs| && SetAll(rs, k)[i] == r;
      assert rs[i] in rs;
      KeepsSet(base, lo, hi, rs[i], k, rs[i].pos);
    }
  }

  lemma {:induction false} KeepsReset(base: seq<int>, lo: nat, hi: nat, s: St, a: nat, b: int)
    requires Keeps(base, lo, hi, s) && lo <= a && b < hi
    ensures Keeps(base, lo, hi, s.(caps := ResetCaps(s.caps, a, b)))
    decreases b + 1 - a
  {
    if a <= b {
      KeepsSet(base, lo, hi, s, 2 * a, -1);
      var s1 := s.(caps := SetCap(s.caps, 2 * a, -1));
      KeepsSet(base, lo, hi, s1, 2 * a + 1, -1);
      KeepsReset(base, lo, hi, s1.(caps := SetCap(s1.caps, 2 * a + 1, -1)), a + 1, b);
    }
  }

  /** Matching writes the registers of the groups inside the expression only. */
  lemma {:induction false} OutcomesKeep(x: Subject, re: Re, cc: nat, back: bool, s: St, base: seq<int>, lo: nat,
                                        hi: nat)
    requires Keeps(base, lo, hi, s) && lo <= cc && cc + NCap(re) <= hi
    ensures KeepsAll(base, lo, hi, Outcomes(x, re, cc, back, s))
    decreases re, 3, 0, 0, 0
  {
    hide Keeps, KeepsAll, Outcomes, MatchChar;
    match re
    case Cat(l, r) =>
      OutcomesCat(x, l, r, cc, back, s);
      if back {
        OutcomesKeep(x, r, cc + NCap(l), back, s, base, lo, hi);
        AllKeep(x, l, cc, back, Outcomes(x, r, cc + NCap(l), back, s), base, lo, hi);
      } else {
        OutcomesKeep(x, l, cc, back, s, base, lo, hi);
        AllKeep(x, r, cc + NCap(l), back, Outcomes(x, l, cc, back, s), base, lo, hi);
      }
    case Alt(l, r) =>
      OutcomesKeep(x, l, cc, back, s, base, lo, hi);
      OutcomesKeep(x, r, cc + NCap(l), back, s, base, lo, hi);
      AltKeeps(x, re, cc, back, s, base, lo, hi);
    case Capture(b) =>
      var (first, last) := if back then (2 * cc + 1, 2 * cc) else (2 * cc, 2 * cc + 1);
      var s1 := s.(caps := SetCap(s.caps, first, s.pos));
      OutcomesCapture(x, b, cc, back, s);
      KeepsSet(base, lo, hi, s, first, s.pos);
      OutcomesKeep(x, b, cc + 1, back, s1, base, lo, hi);
      KeepsSetAll(base, lo, hi, Outcomes(x, b, cc + 1, back, s1), last);
    case Look(neg, behind, b) =>
      OutcomesKeep(x, b, cc, behind, s, base, lo, hi);
      LookKeeps(x, re, cc, back, s, base, lo, hi);
    case Quant(a, min, max, greedy) =>
      QuantKeep(x, a, cc, back, min, max, greedy, s, base, lo, hi);
    case _ => LeafKeeps(x, re, cc, back, s, base, lo, hi);
  }

  lemma LeafKeeps(x: Subject, re: Re, cc: nat, back: bool, s: St, base: seq<int>, lo: nat, hi: nat)
    requires Keeps(base, lo, hi, s) && (re.Empty? || IsCharNode(re) || re.Bol? || re.Eol? || re.WordB?)
    ensures KeepsAll(base, lo, hi, Outcomes(x, re, cc, back, s))
  {
    hide Holds, CharMatches;
  }

  lemma AltKeeps(x: Subject, re: Re, cc: nat, back: bool, s: St, base: seq<int>, lo: nat, hi: nat)
    requires re.Alt? && KeepsAll(base, lo, hi, Outcomes(x, re.l, cc, back, s))
    requires KeepsAll(base, lo, hi, Outcomes(x, re.r, cc + NCap(re.l), back, s))
    ensures KeepsAll(base, lo, hi, Outcomes(x, re, cc, back, s))
  {
    hide Outcomes, KeepsAll;
    OutcomesAlt(x, re.l, re.r, cc, back, s);
    KeepsAppend(base, lo, hi, Outcomes(x, re.l, cc, back, s), Outcomes(x, re.r, cc + NCap(re.l), back, s));
  }

  lemma KeepsAppend(base: seq<int>, lo: nat, hi: nat, p: seq<St>, q: seq<St>)
    requires KeepsAll(base, lo, hi, p) && KeepsAll(base, lo, hi, q)
    ensures KeepsAll(base, lo, hi, p + q)
  {
    hide Keeps;
  }

  lemma LookKeeps(x: Subject, re: Re, cc: nat, back: bool, s: St, base: seq<int>, lo: nat, hi: nat)
    requires re.Look? && Keeps(base, lo, hi, s) && KeepsAll(base, lo, hi, Outcomes(x, re.body, cc, re.behind, s))
    ensures KeepsAll(base, lo, hi, Outcomes(x, re, cc, back, s))
  {
    hide Outcomes;
    OutcomesLook(x, re.neg, re.behind, re.body, cc, back, s);
    var o := Outcomes(x, re.body, cc, re.behind, s);
    if o != [] { assert o[0] in o; }
  }

  lemma {:induction false} QuantKeep(x: Subject, a: Re, cc: nat, back: bool, min: int, max: int, greedy: bool, s: St,
                                     base: seq<int>, lo: nat, hi: nat)
    requires Keeps(base, lo, hi, s) && lo <= cc && cc + NCap(a) <= hi
    ensures KeepsAll(base, lo, hi, Outcomes(x, Quant(a, min, max, greedy), cc, back, s))
    decreases a, 6, 0, 0, 0
  {
    hide Keeps, EnterQuant, Outcomes, Times, StarAll, UpToAll, Rem, NCap;
    if 0 <= min <= max {
      OutcomesQuant(x, a, min, max, greedy, cc, back, s);
    } else {
      NoTurns(x, a, min, max, greedy, cc, back, s);
    }
    var s0 := EnterQuant(a, cc, min, s);
    EnterKeeps(a, cc, min, s, base, lo, hi);
    if 0 <= min <= max && max > 0 {
      var rs := Times(x, a, cc, back, min, s0);
      TimesKeep(x, a, cc, back, min, s0, base, lo, hi);
      if max == INT32_MAX {
        StarAllKeep(x, a, cc, back, greedy, Rem(x, back, s0) + 1, rs, base, lo, hi);
      } else {
        UpToAllKeep(x, a, cc, back, greedy, max - min, rs, base, lo, hi);
      }
    }
  }

  lemma NoTurns(x: Subject, a: Re, min: int, max: int, greedy: bool, cc: nat, back: bool, s: St)
    requires !(0 <= min <= max)
    ensures Outcomes(x, Quant(a, min, max, greedy), cc, back, s) == []
  {
  }

  lemma EnterKeeps(a: Re, cc: nat, min: int, s: St, base: seq<int>, lo: nat, hi: nat)
    requires Keeps(base, lo, hi, s) && lo <= cc && cc + NCap(a) <= hi
    ensures Keeps(base, lo, hi, EnterQuant(a, cc, min, s))
  {
    KeepsReset(base, lo, hi, s, cc, cc + NCap(a) - 1);
  }

  lemma {:induction false} AllKeep(x: Subject, re: Re, cc: nat, back: bool, rs: seq<St>, base: seq<int>, lo: nat,
                                   hi: nat)
    requires KeepsAll(base, lo, hi, rs) && lo <= cc && cc + NCap(re) <= hi
    ensures KeepsAll(base, lo, hi, OutcomesAll(x, re, cc, back, rs))
    decreases re, 4, 0, 0, |rs|
  {
    hide Keeps, Outcomes;
    if rs != [] {
      OutcomesKeep(x, re, cc, back, rs[0], base, lo, hi);
      AllKeep(x, re, cc, back, rs[1..], base, lo, hi);
    }
  }

  lemma {:induction false} TimesKeep(x: Subject, a: Re, cc: nat, back: bool, n: nat, s: St, base: seq<int>, lo: nat,
                                     hi: nat)
    requires Keeps(base, lo, hi, s) && lo <= cc && cc + NCap(a) <= hi
    ensures KeepsAll(base, lo, hi, Times(x, a, cc, back, n, s))
    decreases a, 5, n, 0, 0
  {
    hide Keeps, Outcomes;
    if n > 0 {
      OutcomesKeep(x, a, cc, back, s, base, lo, hi);
      TimesAllKeep(x, a, cc, back, n - 1, Outcomes(x, a, cc, back, s), base, lo, hi);
    }
  }

  lemma {:induction false} TimesAllKeep(x: Subject, a: Re, cc: nat, back: bool, n: nat, rs: seq<St>, base: seq<int>,
                                        lo: nat, hi: nat)
    requires KeepsAll(base, lo, hi, rs) && lo <= cc && cc + NCap(a) <= hi
    ensures KeepsAll(base, lo, hi, TimesAll(x, a, cc, back, n, rs))
    decreases a, 5, n, 1, |rs|
  {
    hide Keeps, Outcomes;
    if rs != [] {
      TimesKeep(x, a, cc, back, n, rs[0], base, lo, hi);
      TimesAllKeep(x, a, cc, back, n, rs[1..], base, lo, hi);
    }
  }

  lemma {:induction false} UpToAllKeep(x: Subject, a: Re, cc: nat, back: bool, greedy: bool, n: nat, rs: seq<St>,
                                       base: seq<int>, lo: nat, hi: nat)
    requires KeepsAll(base, lo, hi, rs) && lo <= cc && cc + NCap(a) <= hi
    ensures KeepsAll(base, lo, hi, UpToAll(x, a, cc, back, greedy, n, rs))
    decreases a, 5, n, 1, |rs|
  {
    hide Keeps, Outcomes;
    if rs != [] {
      var s := rs[0];
      if n > 0 {
        OutcomesKeep(x, a, cc, back, s, base, lo, hi);
        UpToAllKeep(x, a, cc, back, greedy, n - 1, Outcomes(x, a, cc, back, s), base, lo, hi);
      }
      UpToAllKeep(x, a, cc, back, greedy, n, rs[1..], base, lo, hi);
    }
  }

  lemma {:induction false} StarKeep(x: Subject, a: Re, cc: nat, back: bool, greedy: bool, s: St, base: seq<int>,
                                    lo: nat, hi: nat)
    requires Keeps(base, lo, hi, s) && lo <= cc && cc + NCap(a) <= hi
    ensures KeepsAll(base, lo, hi, Star(x, a, cc, back, greedy, s))
    decreases a, 5, Rem(x, back, s), 1, 0
  {
    hide Keeps, Outcomes;
    OutcomesKeep(x, a, cc, back, s, base, lo, hi);
    StarAllKeep(x, a, cc, back, greedy, Rem(x, back, s), Outcomes(x, a, cc, back, s), base, lo, hi);
  }

  lemma {:induction false} StarAllKeep(x: Subject, a: Re, cc: nat, back: bool, greedy: bool, m: nat, rs: seq<St>,
                                       base: seq<int>, lo: nat, hi: nat)
    requires KeepsAll(base, lo, hi, rs) && lo <= cc && cc + NCap(a) <= hi
    ensures KeepsAll(base, lo, hi, StarAll(x, a, cc, back, greedy, m, rs))
    decreases a, 5, m, 0, |rs|
  {
    hide Keeps, Outcomes, Star;
    if rs != [] {
      if Rem(x, back, rs[0]) < m { StarKeep(x, a, cc, back, greedy, rs[0], base, lo, hi); }
      StarAllKeep(x, a, cc, back, greedy, m, rs[1..], base, lo, hi);
    }
  }

  // ---- leftmost match

  /** Starting positions at or after p: the next one is one character further. */
  function Starts(t: Text, p: int): (r: seq<int>)
    requires 0 <= p <= |t.units|
    ensures forall q | q in r :: p <= q <= |t.units| && (Boundary(t, p) ==> Boundary(t, q))
    decreases |t.units| - p
  {
    [p] + if p == |t.units| then [] else Starts(t, Next(t, p))
  }

  /** The first starting position with a match of re, when the unset registers are caps. */
  function FirstStart(x: Subject, re: Re, ps: seq<int>, caps: seq<int>): (r: Option<St>)
  {
    if ps == [] then None
    else
      var o := Outcomes(x, Capture(re), 0, false, St(ps[0], caps));
      if o != [] then Some(o[0]) else FirstStart(x, re, ps[1..], caps)
  }

  ghost function Head(rs: seq<St>): Option<St> { if rs == [] then None else Some(rs[0]) }

  /** The lazy loop in front of the expression visits the starting positions in order. */
  lemma {:induction false} SearchStates(x: Subject, s: St)
    requires 0 <= s.pos <= |x.text.units|
    ensures var ps := Starts(x.text, s.pos);
      Star(x, AnyChar, 0, false, false, s) == seq(|ps|, i requires 0 <= i < |ps| => St(ps[i], s.caps))
    decreases |x.text.units| - s.pos
  {
    hide Outcomes, Star;
    AnyState(x, s);
    if s.pos < |x.text.units| {
      SearchStates(x, s.(pos := Next(x.text, s.pos)));
      hide Next;
      assert Starts(x.text, s.pos) == [s.pos] + Starts(x.text, Next(x.text, s.pos));
    }
  }

  /** One turn of that loop. */
  lemma AnyState(x: Subject, s: St)
    requires 0 <= s.pos <= |x.text.units|
    ensures Star(x, AnyChar, 0, false, false, s) == [s] +
            if s.pos == |x.text.units| then [] else Star(x, AnyChar, 0, false, false, s.(pos := Next(x.text, s.pos)))
  {
    var o := Outcomes(x, AnyChar, 0, false, s);
    if s.pos < |x.text.units| {
      var s1 := s.(pos := Next(x.text, s.pos));
      assert o == [s1] && o[1..] == [];
      hide Outcomes, Next;
      assert StarAll(x, AnyChar, 0, false, false, Rem(x, false, s), o) == Star(x, AnyChar, 0, false, false, s1) + [];
    } else {
      assert o == [];
    }
  }

  lemma {:induction false} FirstStartHead(x: Subject, re: Re, ps: seq<int>, caps: seq<int>)
    ensures Head(OutcomesAll(x, Capture(re), 0, false, seq(|ps|, i requires 0 <= i < |ps| => St(ps[i], caps)))) ==
            FirstStart(x, re, ps, caps)
    decreases |ps|
  {
    hide Outcomes;
    var rs := seq(|ps|, i requires 0 <= i < |ps| => St(ps[i], caps));
    if ps != [] {
      FirstStartHead(x, re, ps[1..], caps);
      assert rs[1..] == seq(|ps| - 1, i requires 0 <= i < |ps| - 1 => St(ps[1..][i], caps));
    }
  }

  lemma LoopOutcomes(x: Subject, s: St)
    ensures Outcomes(x, Quant(AnyChar, 0, INT32_MAX, false), 0, false, s) == Star(x, AnyChar, 0, false, false, s)
  {
    hide Star;
    assert Times(x, AnyChar, 0, false, 0, s) == [s] && [s][1..] == [];
    var m := Rem(x, false, s) + 1;
    assert StarAll(x, AnyChar, 0, false, false, m, [s]) == Star(x, AnyChar, 0, false, false, s) + [];
  }

  /** The starting positions a program tries from p on: all of them unless it is sticky. */
  function Tried(x: Subject, p: int): seq<int>
    requires 0 <= p <= |x.text.units|
  {
    if x.env.sticky then [p] else Starts(x.text, p)
  }

  /** The program finds what the first starting position with a match gives. */
  lemma LeftmostMatch(x: Subject, re: Re, s: St)
    requires StOk(x, s)
    ensures Head(Outcomes(x, Whole(x.env, re), 0, false, s)) == FirstStart(x, re, Tried(x, s.pos), s.caps)
  {
    var all := Outcomes(x, Whole(x.env, re), 0, false, s);
    if x.env.sticky {
      hide Outcomes;
      var o := Outcomes(x, Capture(re), 0, false, St(s.pos, s.caps));
      assert [s.pos][1..] == [] && all == o;
      assert FirstStart(x, re, [s.pos][1..], s.caps) == None;
    } else {
      var o := Outcomes(x, Quant(AnyChar, 0, INT32_MAX, false), 0, false, s);
      assert all == OutcomesAll(x, Capture(re), 0, false, o);
      hide Outcomes, Star;
      LoopOutcomes(x, s);
      SearchStates(x, s);
      FirstStartHead(x, re, Starts(x.text, s.pos), s.caps);
    }
  }

  // ---- the result of a search, as ECMA-262 specifies it

  /** The outermost continuation of section 22.2.2.1: success. */
  const Ident: Cont := q => Some(q)

  /** RegExpBuiltinExec of section 22.2.7.2, positions only: the first starting position whose
      matcher succeeds, and the end of its match. */
  ghost function EcmaExec(x: Subject, re: Re, ps: seq<int>): Option<(int, int)> {
    if ps == [] then None
    else
      match Matcher(x, re, false, ps[0], Ident)
      case Some(q) => Some((ps[0], q))
      case None => EcmaExec(x, re, ps[1..])
  }

  lemma FirstIdent(rs: seq<St>)
    ensures First(rs, Ident) == if rs == [] then None else Some(rs[0].pos)
  {
  }

  /** The registers of the first outcome: 0 and 1 delimit it. */
  lemma FirstRegisters(x: Subject, re: Re, caps: seq<int>, p: int)
    requires |caps| == 2 * (1 + NCap(re))
    ensures var s0 := St(p, caps);
      var r := Outcomes(x, re, 1, false, s0.(caps := SetCap(caps, 0, p)));
      Outcomes(x, Capture(re), 0, false, s0) == SetAll(r, 1) && |SetAll(r, 1)| == |r| &&
      (r != [] ==>
         var t := SetAll(r, 1)[0]; |t.caps| == |caps| && t.caps[0] == p && t.pos == t.caps[1] == r[0].pos)
  {
    hide Outcomes, NCap, Keeps, SetAll, SetCap;
    var s0 := St(p, caps);
    var s1 := s0.(caps := SetCap(caps, 0, p));
    var r := Outcomes(x, re, 1, false, s1);
    OutcomesCapture(x, re, 0, false, s0);
    KeepsSelf(s1, 1, 1 + NCap(re));
    OutcomesKeep(x, re, 1, false, s1, s1.caps, 1, 1 + NCap(re));
    if r != [] {
      assert Keeps(s1.caps, 1, 1 + NCap(re), r[0]) by { assert r[0] in r; }
      SetFirst(caps, p, 1 + NCap(re), r[0]);
    }
  }

  lemma KeepsSelf(s: St, lo: nat, hi: nat)
    ensures Keeps(s.caps, lo, hi, s)
  {
  }

  lemma SetFirst(caps: seq<int>, p: int, hi: nat, t: St)
    requires |caps| >= 2 && Keeps(SetCap(caps, 0, p), 1, hi, t)
    ensures var u := SetCap(t.caps, 1, t.pos);
      |u| == |caps| && u[0] == p && u[1] == t.pos
  {
  }

  /** One starting position: registers 0 and 1 delimit the match that the matcher finds. */
  lemma EcmaStart(x: Subject, re: Re, p: int, caps: seq<int>)
    requires Orderly(x, re, false) && Boundary(x.text, p) && |caps| == 2 * (1 + NCap(re))
    ensures var o := Outcomes(x, Capture(re), 0, false, St(p, caps));
      match Matcher(x, re, false, p, Ident)
      case None => o == []
      case Some(q) => o != [] && o[0].pos == q && |o[0].caps| == |caps| && o[0].caps[0] == p && o[0].caps[1] == q
  {
    hide Outcomes, Matcher, Orderly, SetCap, SetAll, NCap;
    var s1 := St(p, caps).(caps := SetCap(caps, 0, p));
    var r := Outcomes(x, re, 1, false, s1);
    FirstRegisters(x, re, caps, p);
    EcmaAgrees(x, re, 1, false, s1);
    assert Matcher(x, re, false, p, Ident) == First(r, Ident);
    FirstIdent(r);
  }

  lemma {:induction false} EcmaSearch(x: Subject, re: Re, ps: seq<int>, caps: seq<int>)
    requires Orderly(x, re, false) && |caps| == 2 * (1 + NCap(re)) && forall p | p in ps :: Boundary(x.text, p)
    ensures match FirstStart(x, re, ps, caps)
      case None => EcmaExec(x, re, ps) == None
      case Some(r) => |r.caps| == |caps| && EcmaExec(x, re, ps) == Some((r.caps[0], r.caps[1]))
    decreases |ps|
  {
    hide Outcomes, Matcher, Boundary, Orderly, NCap;
    if ps != [] {
      assert ps[0] in ps;
      EcmaStart(x, re, ps[0], caps);
      EcmaSearch(x, re, ps[1..], caps);
    }
  }

  /** For expressions whose optional turns lead nowhere new behind an empty one, running the compiled
      program reports a match exactly when the specification's search finds one, and registers 0
      and 1 hold its start and end. */
  lemma ProgramMeetsEcma(m: Machine, re: Re, pc: nat, s: St)
    requires Loaded(m, re, pc) && StOk(m.x, s) && Orderly(m.x, re, false) && |s.caps| == 2 * (1 + NCap(re))
    ensures match EcmaExec(m.x, re, Tried(m.x, s.pos))
      case None => Reaches(m, Run(At(pc, [], s), []), Done(false, []))
      case Some((p, q)) =>
        exists caps: seq<int> :: |caps| == |s.caps| && caps[0] == p && caps[1] == q &&
          Reaches(m, Run(At(pc, [], s), []), Done(true, caps))
  {
    hide Outcomes, Reaches, Loaded, Orderly, Whole, EcmaExec;
    LeftmostMatch(m.x, re, s);
    EcmaSearch(m.x, re, Tried(m.x, s.pos), s.caps);
    CompiledProgramCorrect(m, re, pc, s);
  }

  /** Without any condition on the expression: running the compiled program reports a match exactly
      when the specification's search finds one, register 0 holds the start that search finds, and
      register 1 one of the ends it might find there. */
  lemma ProgramFindsEcma(m: Machine, re: Re, pc: nat, s: St)
    requires Loaded(m, re, pc) && StOk(m.x, s) && |s.caps| == 2 * (1 + NCap(re))
    ensures match EcmaExec(m.x, re, Tried(m.x, s.pos))
      case None => Reaches(m, Run(At(pc, [], s), []), Done(false, []))
      case Some(found) =>
        var ends := RegexPlaces.EcmaPlaces(m.x, re, false, found.0);
        exists caps: seq<int> :: |caps| == |s.caps| && caps[0] == found.0 && caps[1] in ends &&
          Reaches(m, Run(At(pc, [], s), []), Done(true, caps))
  {
    assert RegexReach.Counted(re) by { WfCounted(re); }
    hide Outcomes, Reaches, Loaded, Whole, EcmaExec, RegexPlaces.EcmaPlaces, RegexReach.Counted;
    LeftmostMatch(m.x, re, s);
    FindsSearch(m.x, re, Tried(m.x, s.pos), s.caps);
    CompiledProgramCorrect(m, re, pc, s);
  }

  lemma {:induction false} WfCounted(re: Re)
    requires Wf(re)
    ensures RegexReach.Counted(re)
  {
    match re
    case Cat(l, r) => WfCounted(l); WfCounted(r);
    case Alt(l, r) => WfCounted(l); WfCounted(r);
    case Capture(b) => WfCounted(b);
    case Look(_, _, b) => WfCounted(b);
    case Quant(a, _, _, _) => WfCounted(a);
    case _ =>
  }

  /** One starting position: a match ends where the specification might end one. */
  lemma FindsStart(x: Subject, re: Re, p: int, caps: seq<int>)
    requires RegexReach.Counted(re) && Boundary(x.text, p) && |caps| == 2 * (1 + NCap(re))
    ensures var o := Outcomes(x, Capture(re), 0, false, St(p, caps));
      && (o == [] <==> Matcher(x, re, false, p, Ident) == None)
      && (o != [] ==> |o[0].caps| == |caps| && o[0].caps[0] == p)
      && (o != [] ==> o[0].caps[1] in RegexPlaces.EcmaPlaces(x, re, false, p))
  {
    hide Outcomes, Matcher, SetCap, SetAll, NCap, RegexPlaces.EcmaPlaces, RegexReach.Counted;
    var s1 := St(p, caps).(caps := SetCap(caps, 0, p));
    var (r, ps) := (Outcomes(x, re, 1, false, s1), RegexPlaces.EcmaPlaces(x, re, false, p));
    FirstRegisters(x, re, caps, p);
    RegexReach.SamePlaces(x, re, 1, false, s1);
    RegexReach.SameNone(ps, r);
    RegexPlaces.MatcherPlaces(x, re, false);
    assert Matcher(x, re, false, p, Ident) == RegexPlaces.FirstPlace(ps, Ident);
  }

  lemma {:induction false} FindsSearch(x: Subject, re: Re, ps: seq<int>, caps: seq<int>)
    requires RegexReach.Counted(re) && |caps| == 2 * (1 + NCap(re)) && forall p | p in ps :: Boundary(x.text, p)
    ensures match FirstStart(x, re, ps, caps)
      case None => EcmaExec(x, re, ps) == None
      case Some(r) =>
        && |r.caps| == |caps| && EcmaExec(x, re, ps).Some? && EcmaExec(x, re, ps).value.0 == r.caps[0]
        && r.caps[1] in RegexPlaces.EcmaPlaces(x, re, false, r.caps[0])
    decreases |ps|
  {
    hide Outcomes, Matcher, Boundary, RegexReach.Counted, RegexPlaces.EcmaPlaces, NCap;
    if ps != [] {
      assert ps[0] in ps;
      FindsStart(x, re, ps[0], caps);
      FindsSearch(x, re, ps[1..], caps);
    }
  }

  /** An empty turn that comes too early, with any bound from one on or none: for (?:|a)* as for
      (?:|a)? on "a" the specification's matcher goes on to position 1, while the emitted code
      stops after the empty turn. */
  lemma EmptyTurnDiffers(x: Subject, n: nat, s: St)
    requires x.text == Text([97], Latin1) && x.env.sticky && !x.env.ignoreCase && s == St(0, [-1, -1])
    requires 0 < n <= INT32_MAX
    ensures var re := Quant(Alt(Empty, Chr(97)), 0, n, true);
      Wf(re) && !Orderly(x, re, false) && EcmaExec(x, re, [0]) == Some((0, 1)) &&
      Expected(x, re, s) == Done(true, [0, 0])
  {
    var a := Alt(Empty, Chr(97));
    var re := Quant(a, 0, n, true);
    hide Outcomes, Matcher, EcmaExec;
    SpecResult(x, n);
    CodeResult(x, n, s);
    EarlyTurn(x, n, s);
  }

  lemma SpecResult(x: Subject, n: nat)
    requires x.text == Text([97], Latin1) && !x.env.ignoreCase && 0 < n <= INT32_MAX
    ensures EcmaExec(x, Quant(Alt(Empty, Chr(97)), 0, n, true), [0]) == Some((0, 1))
  {
    var a := Alt(Empty, Chr(97));
    TurnAt(x, 0, Optional(x, a, false, LessOne(n), true, 0, Ident));
    TurnAt(x, 1, Optional(x, a, false, LessOne(LessOne(n)), true, 1, Ident));
    assert RepeatMatcher(x, a, false, 0, LessOne(n), true, 1, Ident) == Some(1);
    assert Matcher(x, Quant(a, 0, n, true), false, 0, Ident) == Some(1);
    assert [0][1..] == [];
  }

  /** The empty turn of (?:|a) comes before the one that consumes. */
  lemma EarlyTurn(x: Subject, n: nat, s: St)
    requires x.text == Text([97], Latin1) && !x.env.ignoreCase && s.pos == 0 && n > 0
    ensures !TurnsOk(x, Alt(Empty, Chr(97)), 0, false, n, true)
  {
    var a := Alt(Empty, Chr(97));
    var t := s.(pos := 1);
    assert Outcomes(x, a, 0, false, s) == [s, t];
    assert StOk(x, s) && FrontTurns(x, a, 0, false, s) == [] && BehindTurns(x, a, 0, false, s) == [s, t];
    hide Outcomes;
    assert t in [s, t] && Rem(x, false, t) < Rem(x, false, s) && LeadsTo(x, a, 0, false, n, t, 1);
    assert !NothingNew(x, a, 0, false, n, s);
  }

  lemma CodeResult(x: Subject, n: nat, s: St)
    requires x.text == Text([97], Latin1) && x.env.sticky && s == St(0, [-1, -1]) && 0 < n <= INT32_MAX
    ensures Expected(x, Quant(Alt(Empty, Chr(97)), 0, n, true), s) == Done(true, [0, 0])
  {
    var re := Quant(Alt(Empty, Chr(97)), 0, n, true);
    var s1 := St(0, [0, -1]);
    assert SetCap(s.caps, 0, 0) == s1.caps;
    hide Rest;
    CodeTurn(x, n, s1);
    QuantRest(x, re.atom, 1, false, n, true, s1, Ident);
    var o := Outcomes(x, re, 1, false, s1);
    assert Outcomes(x, Capture(re), 0, false, s) == SetAll(o, 1);
  }

  /** One turn of (?:|a) on "a", in the specification. */
  lemma TurnAt(x: Subject, p: int, d: Cont)
    requires x.text == Text([97], Latin1) && !x.env.ignoreCase && 0 <= p <= 1
    ensures Matcher(x, Alt(Empty, Chr(97)), false, p, d) ==
            if d(p).Some? then d(p) else if p == 0 then d(1) else None
  {
  }

  lemma CodeTurn(x: Subject, n: nat, s: St)
    requires x.text == Text([97], Latin1) && s.pos == 0 && n <= INT32_MAX
    ensures var o := Rest(x, Alt(Empty, Chr(97)), 1, false, n, true, s);
      o != [] && o[0] == s
    decreases n
  {
    var a := Alt(Empty, Chr(97));
    var o := Outcomes(x, a, 1, false, s);
    assert o[0] == s;
    if n == INT32_MAX {
      assert Star(x, a, 1, false, true, s) == StarAll(x, a, 1, false, true, 1, o) + [s];
      assert StarAll(x, a, 1, false, true, 1, o) == [s] + StarAll(x, a, 1, false, true, 1, o[1..]);
    } else if n > 0 {
      CodeTurn(x, n - 1, s);
      var u := UpTo(x, a, 1, false, true, n - 1, s);
      assert u != [] && u[0] == s;
      assert UpTo(x, a, 1, false, true, n, s) == UpToAll(x, a, 1, false, true, n - 1, o) + [s];
      assert UpToAll(x, a, 1, false, true, n - 1, o) ==
             u + UpToAll(x, a, 1, false, true, n - 1, o[1..]);
    } else {
      assert UpTo(x, a, 1, false, true, 0, s) == [s];
    }
  }
}
