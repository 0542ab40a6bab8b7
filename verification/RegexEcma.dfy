/** The matchers of section 22.2.2 of ECMA-262 (positions only, captures ignored), in
    continuation form, and when the outcomes of generated code agree with them. */
module RegexEcma {
  import opened Options
  import opened Bytes
  import opened RegexSyntax
  import opened RegexMatch
  import opened RegexProgress
  import Lists

  type Opt = Option<int>
  type Cont = int -> Opt

  /** Position after one character in the direction of travel, if it is accepted. */
  function CharStep(x: Subject, re: Re, back: bool, p: int): Opt
    requires IsCharNode(re)
  {
    var o := MatchChar(x, re, back, St(p, []));
    if o == [] then None else Some(o[0].pos)
  }

  /** Characters left in the direction of travel. */
  function Ahead(x: Subject, back: bool, p: int): nat { Rem(x, back, St(p, [])) }

  /** The matcher of re applied to position p and continuation c. */
  ghost function Matcher(x: Subject, re: Re, back: bool, p: int, c: Cont): Opt
    decreases re, 0, 0, 0, 0, 0
  {
    match re
    case Empty => c(p)
    case Chr(_) | AnyChar | DotChar | Class(_) =>
      (match CharStep(x, re, back, p) case None => None case Some(q) => c(q))
    case Bol | Eol | WordB(_) => if Holds(x, re, p) then c(p) else None
    case Cat(l, r) =>
      if back then Matcher(x, r, back, p, Then(x, l, back, c)) else Matcher(x, l, back, p, Then(x, r, back, c))
    case Alt(l, r) =>
      var first := Matcher(x, l, back, p, c);
      if first.Some? then first else Matcher(x, r, back, p, c)
    case Capture(b) => Matcher(x, b, back, p, c)
    case Look(neg, behind, b) =>
      var found := Matcher(x, b, behind, p, q => Some(q));
      if found.Some? != neg then c(p) else None
    case Quant(a, min, max, greedy) =>
      if min < 0 || max < min then None else RepeatMatcher(x, a, back, min, max, greedy, p, c)
  }

  /** Continue with re, then with c. */
  ghost function Then(x: Subject, re: Re, back: bool, c: Cont): Cont
    decreases re, 2, 0, 0, 0, 0
  {
    q => Matcher(x, re, back, q, c)
  }

  function LessOne(max: nat): nat { if max == INT32_MAX || max == 0 then max else max - 1 }

  /** RepeatMatcher of section 22.2.2.3.1. */
  ghost function RepeatMatcher(x: Subject, a: Re, back: bool, min: nat, max: nat, greedy: bool, p: int, c: Cont): Opt
    decreases a, 1, min, 0, Ahead(x, back, p), 1
  {
    if max == 0 then c(p)
    else if min > 0 then Matcher(x, a, back, p, NextTurn(x, a, back, min - 1, LessOne(max), greedy, c))
    else
      var d := Optional(x, a, back, LessOne(max), greedy, p, c);
      if greedy then
        var z := Matcher(x, a, back, p, d);
        if z.Some? then z else c(p)
      else
        var z := c(p);
        if z.Some? then z else Matcher(x, a, back, p, d)
  }

  /** Continue after a required turn. */
  ghost function NextTurn(x: Subject, a: Re, back: bool, min: nat, max: nat, greedy: bool, c: Cont): Cont
    decreases a, 1, min, 1, 0, 0
  {
    q => RepeatMatcher(x, a, back, min, max, greedy, q, c)
  }

  /** Continue after an optional turn that started at p: one that consumed nothing fails. */
  ghost function Optional(x: Subject, a: Re, back: bool, max: nat, greedy: bool, p: int, c: Cont): Cont
    decreases a, 1, 0, 0, Ahead(x, back, p), 0
  {
    q => if Ahead(x, back, q) < Ahead(x, back, p) then RepeatMatcher(x, a, back, 0, max, greedy, q, c) else None
  }

  /** The result of the first state from which the continuation succeeds. */
  ghost function First(rs: seq<St>, c: Cont): Opt {
    if rs == [] then None
    else if c(rs[0].pos).Some? then c(rs[0].pos) else First(rs[1..], c)
  }

  lemma {:induction false} FirstAppend(a: seq<St>, b: seq<St>, c: Cont)
    ensures First(a + b, c) == if First(a, c).Some? then First(a, c) else First(b, c)
    decreases |a|
  {
    if a == [] {
      assert a + b == b;
    } else {
      Lists.TailAppend(a, b);
      FirstAppend(a[1..], b, c);
    }
  }

  lemma FirstOne(s: St, c: Cont)
    ensures First([s], c) == c(s.pos)
  {
    assert [s][1..] == [];
  }

  lemma {:induction false} FirstSetAll(rs: seq<St>, k: int, c: Cont)
    ensures First(SetAll(rs, k), c) == First(rs, c)
    decreases |rs|
  {
    if rs != [] { FirstSetAll(rs[1..], k, c); }
  }

  /** A continuation that fails at every outcome. */
  lemma {:induction false} FirstNone(rs: seq<St>, c: Cont)
    ensures First(rs, c) == None <==> forall r | r in rs :: c(r.pos) == None
    decreases |rs|
  {
    if rs != [] {
      assert rs[0] in rs;
      FirstNone(rs[1..], c);
      if c(rs[0].pos) == None && First(rs, c) == None {
        forall r | r in rs ensures c(r.pos) == None { assert r == rs[0] || r in rs[1..]; }
      }
    }
  }

  /** The matcher answers for every continuation as the outcomes do. */
  ghost predicate Agree(x: Subject, re: Re, cc: nat, back: bool, s: St) {
    forall c: Cont :: Matcher(x, re, back, s.pos, c) == First(Outcomes(x, re, cc, back, s), c)
  }

  /** It does so at every well placed state. */
  ghost predicate Agrees(x: Subject, re: Re, cc: nat, back: bool) {
    forall s | StOk(x, s) :: Agree(x, re, cc, back, s)
  }

  lemma OkPos(x: Subject, s: St, r: St)
    requires StOk(x, s) && r.pos == s.pos
    ensures StOk(x, r)
  {
  }

  lemma EcmaLeaf(x: Subject, re: Re, cc: nat, back: bool, s: St)
    requires re.Empty? || IsCharNode(re) || re.Bol? || re.Eol? || re.WordB?
    ensures Agree(x, re, cc, back, s)
  {
    forall c: Cont ensures Matcher(x, re, back, s.pos, c) == First(Outcomes(x, re, cc, back, s), c) {
      hide Holds, CharMatches;
      FirstOne(s, c);
      if IsCharNode(re) {
        var o := MatchChar(x, re, back, s);
        if o != [] { FirstOne(o[0], c); assert o == [o[0]]; }
      }
    }
  }

  lemma EcmaAlt(x: Subject, re: Re, cc: nat, back: bool, s: St)
    requires re.Alt? && Agree(x, re.l, cc, back, s) && Agree(x, re.r, cc + NCap(re.l), back, s)
    ensures Agree(x, re, cc, back, s)
  {
    hide Outcomes;
    OutcomesAlt(x, re.l, re.r, cc, back, s);
    forall c: Cont ensures Matcher(x, re, back, s.pos, c) == First(Outcomes(x, re, cc, back, s), c) {
      FirstAppend(Outcomes(x, re.l, cc, back, s), Outcomes(x, re.r, cc + NCap(re.l), back, s), c);
    }
  }

  lemma EcmaCapture(x: Subject, re: Re, cc: nat, back: bool, s: St, s1: St)
    requires re.Capture? && s1 == s.(caps := SetCap(s.caps, if back then 2 * cc + 1 else 2 * cc, s.pos))
    requires Agree(x, re.body, cc + 1, back, s1)
    ensures Agree(x, re, cc, back, s)
  {
    var o := Outcomes(x, re.body, cc + 1, back, s1);
    var last := if back then 2 * cc else 2 * cc + 1;
    OutcomesCapture(x, re.body, cc, back, s);
    hide Outcomes;
    forall c: Cont ensures Matcher(x, re, back, s.pos, c) == First(Outcomes(x, re, cc, back, s), c) {
      hide SetCap, SetAll, First;
      FirstSetAll(o, last, c);
      assert Matcher(x, re.body, back, s.pos, c) == First(o, c);
      assert Outcomes(x, re, cc, back, s) == SetAll(o, last);
    }
  }

  lemma EcmaLook(x: Subject, re: Re, cc: nat, back: bool, s: St)
    requires re.Look? && Agree(x, re.body, cc, re.behind, s)
    ensures Agree(x, re, cc, back, s)
  {
    hide Outcomes;
    OutcomesLook(x, re.neg, re.behind, re.body, cc, back, s);
    var o := Outcomes(x, re.body, cc, re.behind, s);
    forall c: Cont ensures Matcher(x, re, back, s.pos, c) == First(Outcomes(x, re, cc, back, s), c) {
      FirstOne(s, c);
      if o != [] { FirstOne(s.(caps := o[0].caps), c); }
    }
  }

  /** A continuation k that runs re and then c, applied to a list of states. */
  lemma {:induction false} EcmaAll(x: Subject, re: Re, cc: nat, back: bool, rs: seq<St>, c: Cont)
    requires Agrees(x, re, cc, back) && forall r | r in rs :: StOk(x, r)
    ensures First(rs, Then(x, re, back, c)) == First(OutcomesAll(x, re, cc, back, rs), c)
    decreases |rs|
  {
    hide Outcomes, Matcher, StOk;
    if rs != [] {
      assert rs[0] in rs;
      assert Agree(x, re, cc, back, rs[0]);
      EcmaAll(x, re, cc, back, rs[1..], c);
      FirstAppend(Outcomes(x, re, cc, back, rs[0]), OutcomesAll(x, re, cc, back, rs[1..]), c);
    }
  }

  /** f is the factor that is matched first, g the other one. */
  lemma EcmaCat(x: Subject, re: Re, f: Re, fc: nat, g: Re, gc: nat, back: bool, cc: nat, s: St)
    requires re.Cat? && StOk(x, s) && Agree(x, f, fc, back, s) && Agrees(x, g, gc, back)
    requires (f, fc, g, gc) == if back then (re.r, cc + NCap(re.l), re.l, cc) else (re.l, cc, re.r, cc + NCap(re.l))
    ensures Agree(x, re, cc, back, s)
  {
    hide StOk, Agrees;
    var o := Outcomes(x, f, fc, back, s);
    assert Left(x, back, After(x, f, back, s), o) by { OutcomesLeft(x, f, fc, back, s); }
    forall c: Cont ensures Matcher(x, re, back, s.pos, c) == First(Outcomes(x, re, cc, back, s), c) {
      EcmaAll(x, g, gc, back, o, c);
      CatUnfold(x, re, f, fc, g, gc, back, cc, s, c);
    }
  }

  lemma CatUnfold(x: Subject, re: Re, f: Re, fc: nat, g: Re, gc: nat, back: bool, cc: nat, s: St, c: Cont)
    requires re.Cat?
    requires (f, fc, g, gc) == if back then (re.r, cc + NCap(re.l), re.l, cc) else (re.l, cc, re.r, cc + NCap(re.l))
    ensures Matcher(x, re, back, s.pos, c) == Matcher(x, f, back, s.pos, Then(x, g, back, c))
    ensures Outcomes(x, re, cc, back, s) == OutcomesAll(x, g, gc, back, Outcomes(x, f, fc, back, s))
  {
    hide Then, Outcomes, OutcomesAll;
    OutcomesCat(x, re.l, re.r, cc, back, s);
  }
}
