/** Which expressions agree with the matchers of ECMA-262: those whose optional turns and loops lead
    nowhere new behind an empty turn. A condition on the expression alone suffices. */
module RegexAgree {
  import opened Bytes
  import opened RegexSyntax
  import opened RegexMatch
  import opened RegexProgress
  import opened RegexEcma
  import opened RegexOrder

  ghost predicate AlwaysOk(x: Subject, a: Re, back: bool, n: nat, greedy: bool) {
    forall cc: nat :: TurnsOk(x, a, cc, back, n, greedy)
  }

  /** Behind an empty turn, no repeated atom leads anywhere new. */
  ghost predicate Orderly(x: Subject, re: Re, back: bool) {
    match re
    case Cat(l, r) => Orderly(x, l, back) && Orderly(x, r, back)
    case Alt(l, r) => Orderly(x, l, back) && Orderly(x, r, back)
    case Capture(b) => Orderly(x, b, back)
    case Look(_, behind, b) => Orderly(x, b, behind)
    case Quant(a, min, max, greedy) =>
      && Orderly(x, a, back) && max <= INT32_MAX
      && (0 <= min <= max ==> AlwaysOk(x, a, back, if max == INT32_MAX then max else max - min, greedy))
    case _ => true
  }

  /** For such expressions the ECMAScript matcher returns what the continuation returns for the
      first outcome it accepts. */
  lemma {:induction false} EcmaAgrees(x: Subject, re: Re, cc: nat, back: bool, s: St)
    requires Orderly(x, re, back) && StOk(x, s)
    ensures Agree(x, re, cc, back, s)
    decreases re, 0
  {
    hide Agree, StOk, TurnsOk;
    match re
    case Cat(l, r) =>
      if back {
        EcmaAgrees(x, r, cc + NCap(l), back, s);
        EcmaEverywhere(x, l, cc, back);
        EcmaCat(x, re, r, cc + NCap(l), l, cc, back, cc, s);
      } else {
        EcmaAgrees(x, l, cc, back, s);
        EcmaEverywhere(x, r, cc + NCap(l), back);
        EcmaCat(x, re, l, cc, r, cc + NCap(l), back, cc, s);
      }
    case Alt(l, r) =>
      EcmaAgrees(x, l, cc, back, s);
      EcmaAgrees(x, r, cc + NCap(l), back, s);
      EcmaAlt(x, re, cc, back, s);
    case Capture(b) =>
      var s1 := s.(caps := SetCap(s.caps, if back then 2 * cc + 1 else 2 * cc, s.pos));
      OkPos(x, s, s1);
      EcmaAgrees(x, b, cc + 1, back, s1);
      EcmaCapture(x, re, cc, back, s, s1);
    case Look(_, behind, b) =>
      EcmaAgrees(x, b, cc, behind, s);
      EcmaLook(x, re, cc, back, s);
    case Quant(a, min, max, greedy) =>
      EcmaEverywhere(x, a, cc, back);
      if 0 <= min <= max {
        assert TurnsOk(x, a, cc, back, if max == INT32_MAX then max else max - min, greedy);
      }
      EcmaQuant(x, re, cc, back, s);
    case _ => EcmaLeaf(x, re, cc, back, s);
  }

  lemma {:induction false} EcmaEverywhere(x: Subject, re: Re, cc: nat, back: bool)
    requires Orderly(x, re, back)
    ensures Agrees(x, re, cc, back)
    decreases re, 1
  {
    hide Agree, StOk, Orderly;
    forall s | StOk(x, s) ensures Agree(x, re, cc, back, s) { EcmaAgrees(x, re, cc, back, s); }
  }

  // ---- a condition on the expression

  /** No outcome consumes anything. */
  predicate Still(re: Re) {
    match re
    case Empty | Bol | Eol | WordB(_) | Look(_, _, _) => true
    case Cat(l, r) => Still(l) && Still(r)
    case Alt(l, r) => Still(l) && Still(r)
    case Capture(b) => Still(b)
    case _ => false
  }

  /** Outcomes that consume nothing come last. */
  predicate EmptyLast(re: Re, back: bool) {
    NonNull(re) || Still(re) ||
    match re
    case Cat(l, r) => if back then EmptyLast(r, back) && Still(l) else EmptyLast(l, back) && Still(r)
    case Alt(l, r) => (NonNull(l) && EmptyLast(r, back)) || (EmptyLast(l, back) && Still(r))
    case Capture(b) => EmptyLast(b, back)
    case Quant(a, min, max, greedy) => greedy && min == 0 && EmptyLast(a, back)
        && (max == INT32_MAX || max <= 1 || NonNull(a))
    case _ => false
  }

  /** Every atom that may be repeated beyond its minimum has its empty turns last: the loops with
      no such atom are those of consuming atoms, of optional ones as in (?:a?)*, and the like. */
  predicate Tidy(re: Re, back: bool) {
    match re
    case Cat(l, r) => Tidy(l, back) && Tidy(r, back)
    case Alt(l, r) => Tidy(l, back) && Tidy(r, back)
    case Capture(b) => Tidy(b, back)
    case Look(_, behind, b) => Tidy(b, behind)
    case Quant(a, min, max, _) => Tidy(a, back) && max <= INT32_MAX
        && (max > min || max == INT32_MAX ==> EmptyLast(a, back))
    case _ => true
  }

  /** The outcomes that consume something, starting with m characters left, come first. */
  predicate Late(x: Subject, back: bool, m: nat, o: seq<St>) {
    if o == [] then true
    else if Rem(x, back, o[0]) < m then Late(x, back, m, o[1..])
    else forall r | r in o :: Rem(x, back, r) >= m
  }

  /** All outcomes consume; none does. */
  ghost predicate AllBelow(x: Subject, back: bool, m: int, o: seq<St>) { forall r | r in o :: Rem(x, back, r) < m }

  ghost predicate NoneBelow(x: Subject, back: bool, m: int, o: seq<St>) { forall r | r in o :: Rem(x, back, r) >= m }

  lemma {:induction false} LateBelow(x: Subject, back: bool, m: nat, a: seq<St>, b: seq<St>)
    requires AllBelow(x, back, m, a) && Late(x, back, m, b)
    ensures Late(x, back, m, a + b)
    decreases |a|
  {
    if a == [] {
      assert a + b == b;
    } else {
      assert a[0] in a && (a + b)[1..] == a[1..] + b;
      LateBelow(x, back, m, a[1..], b);
    }
  }

  lemma {:induction false} LateRest(x: Subject, back: bool, m: nat, a: seq<St>, b: seq<St>)
    requires Late(x, back, m, a) && NoneBelow(x, back, m, b)
    ensures Late(x, back, m, a + b)
    decreases |a|
  {
    if a == [] {
      assert a + b == b;
    } else if Rem(x, back, a[0]) < m {
      assert (a + b)[1..] == a[1..] + b;
      LateRest(x, back, m, a[1..], b);
    }
  }

  lemma LateExtremes(x: Subject, back: bool, m: nat, o: seq<St>)
    requires AllBelow(x, back, m, o) || NoneBelow(x, back, m, o)
    ensures Late(x, back, m, o)
  {
    if AllBelow(x, back, m, o) {
      LateBelow(x, back, m, o, []);
      assert o + [] == o;
    } else if o != [] {
      assert o[0] in o;
    }
  }

  lemma {:induction false} StillOutcomes(x: Subject, re: Re, cc: nat, back: bool, s: St)
    requires Still(re)
    ensures forall r | r in Outcomes(x, re, cc, back, s) :: r.pos == s.pos
    decreases re, 1, 0
  {
    hide Outcomes;
    match re
    case Cat(l, r) =>
      OutcomesCat(x, l, r, cc, back, s);
      if back {
        StillOutcomes(x, r, cc + NCap(l), back, s);
        StillAll(x, l, cc, back, s.pos, Outcomes(x, r, cc + NCap(l), back, s));
      } else {
        StillOutcomes(x, l, cc, back, s);
        StillAll(x, r, cc + NCap(l), back, s.pos, Outcomes(x, l, cc, back, s));
      }
    case Alt(l, r) =>
      OutcomesAlt(x, l, r, cc, back, s);
      StillOutcomes(x, l, cc, back, s);
      StillOutcomes(x, r, cc + NCap(l), back, s);
    case Capture(b) =>
      var s1 := s.(caps := SetCap(s.caps, if back then 2 * cc + 1 else 2 * cc, s.pos));
      OutcomesCapture(x, b, cc, back, s);
      StillOutcomes(x, b, cc + 1, back, s1);
      SetAllPlaces(Outcomes(x, b, cc + 1, back, s1), if back then 2 * cc else 2 * cc + 1, s.pos);
    case _ => StillLeaf(x, re, cc, back, s);
  }

  lemma SetAllPlaces(o: seq<St>, k: int, p: int)
    requires forall r | r in o :: r.pos == p
    ensures forall r | r in SetAll(o, k) :: r.pos == p
  {
    forall r | r in SetAll(o, k) ensures r.pos == p {
      var i :| 0 <= i < |o| && SetAll(o, k)[i] == r;
      assert o[i] in o;
    }
  }

  lemma StillLeaf(x: Subject, re: Re, cc: nat, back: bool, s: St)
    requires re.Empty? || re.Bol? || re.Eol? || re.WordB? || re.Look?
    ensures forall r | r in Outcomes(x, re, cc, back, s) :: r.pos == s.pos
  {
  }

  lemma {:induction false} StillAll(x: Subject, re: Re, cc: nat, back: bool, p: int, rs: seq<St>)
    requires Still(re) && forall r | r in rs :: r.pos == p
    ensures forall r | r in OutcomesAll(x, re, cc, back, rs) :: r.pos == p
    decreases re, 2, |rs|
  {
    hide Outcomes;
    if rs != [] {
      assert rs[0] in rs;
      StillOutcomes(x, re, cc, back, rs[0]);
      StillAll(x, re, cc, back, p, rs[1..]);
    }
  }

  /** Such an expression has its empty outcomes last at every state. */
  lemma {:induction false} EmptyLastLate(x: Subject, re: Re, cc: nat, back: bool, s: St)
    requires EmptyLast(re, back) && StOk(x, s)
    ensures Late(x, back, Rem(x, back, s), Outcomes(x, re, cc, back, s))
    decreases re, 1
  {
    hide Outcomes, StOk, Late, SetAll, SetCap, OutcomesAll;
    var m := Rem(x, back, s);
    if NonNull(re) {
      OutcomesLeft(x, re, cc, back, s);
      LateExtremes(x, back, m, Outcomes(x, re, cc, back, s));
    } else if Still(re) {
      StillOutcomes(x, re, cc, back, s);
      LateExtremes(x, back, m, Outcomes(x, re, cc, back, s));
    } else {
      match re
      case Cat(l, r) =>
        OutcomesCat(x, l, r, cc, back, s);
        if back {
          EmptyLastLate(x, r, cc + NCap(l), back, s);
          StillAfter(x, l, cc, back, m, Outcomes(x, r, cc + NCap(l), back, s));
        } else {
          EmptyLastLate(x, l, cc, back, s);
          StillAfter(x, r, cc + NCap(l), back, m, Outcomes(x, l, cc, back, s));
        }
      case Alt(l, r) => AltLate(x, l, r, cc, back, s);
      case Capture(b) =>
        var s1 := s.(caps := SetCap(s.caps, if back then 2 * cc + 1 else 2 * cc, s.pos));
        OutcomesCapture(x, b, cc, back, s);
        OkPos(x, s, s1);
        EmptyLastLate(x, b, cc + 1, back, s1);
        SetAllLate(x, back, m, Outcomes(x, b, cc + 1, back, s1), if back then 2 * cc else 2 * cc + 1);
      case Quant(a, min, max, greedy) =>
        var s0 := EnterQuant(a, cc, min, s);
        OkPos(x, s, s0);
        EmptyLastLate(x, a, cc, back, s0);
        QuantLate(x, a, cc, back, max, s);
    }
  }

  lemma AltLate(x: Subject, l: Re, r: Re, cc: nat, back: bool, s: St)
    requires StOk(x, s) && ((NonNull(l) && EmptyLast(r, back)) || (EmptyLast(l, back) && Still(r)))
    ensures Late(x, back, Rem(x, back, s), Outcomes(x, Alt(l, r), cc, back, s))
    decreases Alt(l, r), 0
  {
    hide Outcomes, StOk, Late;
    var (m, o, u) := (Rem(x, back, s), Outcomes(x, l, cc, back, s), Outcomes(x, r, cc + NCap(l), back, s));
    OutcomesAlt(x, l, r, cc, back, s);
    if NonNull(l) && EmptyLast(r, back) {
      OutcomesLeft(x, l, cc, back, s);
      EmptyLastLate(x, r, cc + NCap(l), back, s);
      LateBelow(x, back, m, o, u);
    } else {
      EmptyLastLate(x, l, cc, back, s);
      StillOutcomes(x, r, cc + NCap(l), back, s);
      LateRest(x, back, m, o, u);
    }
  }

  lemma {:induction false} SetAllLate(x: Subject, back: bool, m: nat, o: seq<St>, k: int)
    requires Late(x, back, m, o)
    ensures Late(x, back, m, SetAll(o, k))
    decreases |o|
  {
    if o != [] {
      var u := SetAll(o, k);
      assert u[1..] == SetAll(o[1..], k);
      if Rem(x, back, o[0]) < m {
        SetAllLate(x, back, m, o[1..], k);
      } else {
        forall r | r in u ensures Rem(x, back, r) >= m {
          var i :| 0 <= i < |u| && u[i] == r;
          assert o[i] in o;
        }
      }
    }
  }

  /** Going on with what does not consume keeps the order. */
  lemma {:induction false} StillAfter(x: Subject, re: Re, cc: nat, back: bool, m: nat, rs: seq<St>)
    requires Still(re) && Late(x, back, m, rs)
    ensures Late(x, back, m, OutcomesAll(x, re, cc, back, rs))
    decreases |rs|
  {
    hide Outcomes;
    if rs != [] {
      StillOutcomes(x, re, cc, back, rs[0]);
      var (head, more) := (Outcomes(x, re, cc, back, rs[0]), OutcomesAll(x, re, cc, back, rs[1..]));
      if Rem(x, back, rs[0]) < m {
        StillAfter(x, re, cc, back, m, rs[1..]);
        LateBelow(x, back, m, head, more);
      } else {
        StillNone(x, re, cc, back, m, rs);
        LateExtremes(x, back, m, OutcomesAll(x, re, cc, back, rs));
      }
    }
  }

  lemma {:induction false} StillNone(x: Subject, re: Re, cc: nat, back: bool, m: nat, rs: seq<St>)
    requires Still(re) && NoneBelow(x, back, m, rs)
    ensures NoneBelow(x, back, m, OutcomesAll(x, re, cc, back, rs))
    decreases |rs|
  {
    hide Outcomes;
    if rs != [] {
      assert rs[0] in rs;
      StillOutcomes(x, re, cc, back, rs[0]);
      StillNone(x, re, cc, back, m, rs[1..]);
    }
  }

  /** A greedy loop from zero. */
  lemma QuantLate(x: Subject, a: Re, cc: nat, back: bool, max: int, s: St)
    requires StOk(x, s) && (max == INT32_MAX || max <= 1 || NonNull(a))
    requires var s0 := EnterQuant(a, cc, 0, s); Late(x, back, Rem(x, back, s), Outcomes(x, a, cc, back, s0))
    ensures Late(x, back, Rem(x, back, s), Outcomes(x, Quant(a, 0, max, true), cc, back, s))
  {
    hide Outcomes, Late, Star, UpTo, EnterQuant;
    var (m, s0) := (Rem(x, back, s), EnterQuant(a, cc, 0, s));
    assert s0.pos == s.pos by { SamePlace(a, cc, s); }
    OkPos(x, s, s0);
    if max < 0 {
      NoOutcome(x, a, cc, back, max, s);
      LateExtremes(x, back, m, []);
    } else {
      OutcomesQuant(x, a, 0, max, true, cc, back, s);
      if max == 0 {
        LateExtremes(x, back, m, [s0]);
      } else {
        assert Times(x, a, cc, back, 0, s0) == [s0] && [s0][1..] == [];
        BeyondOne(x, a, cc, back, max, true, m + 1, s0);
        LoopLate(x, a, cc, back, max, s0);
      }
    }
  }

  lemma SamePlace(a: Re, cc: nat, s: St)
    ensures EnterQuant(a, cc, 0, s).pos == s.pos
  {
  }

  lemma NoOutcome(x: Subject, a: Re, cc: nat, back: bool, max: int, s: St)
    requires max < 0
    ensures Outcomes(x, Quant(a, 0, max, true), cc, back, s) == []
  {
  }

  lemma LoopLate(x: Subject, a: Re, cc: nat, back: bool, max: nat, s: St)
    requires StOk(x, s) && (max == INT32_MAX || max == 1 || NonNull(a)) && max > 0
    requires Late(x, back, Rem(x, back, s), Outcomes(x, a, cc, back, s))
    ensures Late(x, back, Rem(x, back, s), if max == INT32_MAX then Star(x, a, cc, back, true, s)
        else UpTo(x, a, cc, back, true, max, s))
  {
    hide Outcomes, Late, StOk;
    var (m, o) := (Rem(x, back, s), Outcomes(x, a, cc, back, s));
    OutcomesLeft(x, a, cc, back, s);
    if max == INT32_MAX {
      TurnsLate(x, a, cc, back, m, o);
      LateRest(x, back, m, StarAll(x, a, cc, back, true, m, o), [s]);
    } else if max == 1 {
      ZeroMore(x, a, cc, back, o);
      LateRest(x, back, m, o, [s]);
    } else {
      UpToAllLeft(x, a, cc, back, true, max - 1, After(x, a, back, s), o);
      LateExtremes(x, back, m, UpToAll(x, a, cc, back, true, max - 1, o));
      LateRest(x, back, m, UpToAll(x, a, cc, back, true, max - 1, o), [s]);
    }
  }

  lemma {:induction false} ZeroMore(x: Subject, a: Re, cc: nat, back: bool, rs: seq<St>)
    ensures UpToAll(x, a, cc, back, true, 0, rs) == rs
    decreases |rs|
  {
    if rs != [] { ZeroMore(x, a, cc, back, rs[1..]); }
  }

  lemma {:induction false} TurnsLate(x: Subject, a: Re, cc: nat, back: bool, m: nat, rs: seq<St>)
    requires Late(x, back, m, rs) && Left(x, back, m, rs)
    ensures Late(x, back, m, StarAll(x, a, cc, back, true, m, rs))
    decreases |rs|
  {
    hide Star, StOk;
    if rs != [] {
      assert rs[0] in rs;
      if Rem(x, back, rs[0]) < m {
        TurnsLate(x, a, cc, back, m, rs[1..]);
        StarLeft(x, a, cc, back, true, rs[0]);
        LateBelow(x, back, m, Star(x, a, cc, back, true, rs[0]), StarAll(x, a, cc, back, true, m, rs[1..]));
      } else {
        StopsAll(x, a, cc, back, m, rs);
      }
    }
  }

  lemma {:induction false} StopsAll(x: Subject, a: Re, cc: nat, back: bool, m: nat, rs: seq<St>)
    requires NoneBelow(x, back, m, rs)
    ensures StarAll(x, a, cc, back, true, m, rs) == rs
    decreases |rs|
  {
    hide Star;
    if rs != [] {
      assert rs[0] in rs;
      StopsAll(x, a, cc, back, m, rs[1..]);
    }
  }

  /** The condition on the expression is enough on every subject. */
  lemma {:induction false} TidyOrderly(x: Subject, re: Re, back: bool)
    requires Tidy(re, back)
    ensures Orderly(x, re, back)
    decreases re
  {
    hide AlwaysOk, EmptyLast;
    match re
    case Cat(l, r) => TidyOrderly(x, l, back); TidyOrderly(x, r, back);
    case Alt(l, r) => TidyOrderly(x, l, back); TidyOrderly(x, r, back);
    case Capture(b) => TidyOrderly(x, b, back);
    case Look(_, behind, b) => TidyOrderly(x, b, behind);
    case Quant(a, min, max, _) =>
      TidyOrderly(x, a, back);
      if EmptyLast(a, back) {
        forall n: nat, greedy ensures AlwaysOk(x, a, back, n, greedy) { TidyTurns(x, a, back, n, greedy); }
      } else {
        NoTurns(x, a, back);
      }
    case _ =>
  }

  lemma NoTurns(x: Subject, a: Re, back: bool)
    ensures forall greedy :: AlwaysOk(x, a, back, 0, greedy)
  {
  }

  lemma TidyTurns(x: Subject, a: Re, back: bool, n: nat, greedy: bool)
    requires EmptyLast(a, back)
    ensures AlwaysOk(x, a, back, n, greedy)
  {
    hide Outcomes, StOk, LeadsTo;
    forall cc: nat, s | StOk(x, s) ensures NothingNew(x, a, cc, back, n, s) {
      EmptyLastLate(x, a, cc, back, s);
      LateBehind(x, back, Rem(x, back, s), Outcomes(x, a, cc, back, s));
    }
  }

  /** With the empty outcomes last, none behind the first of them consumes. */
  lemma {:induction false} LateBehind(x: Subject, back: bool, m: nat, o: seq<St>)
    requires Late(x, back, m, o)
    ensures forall r | r in Behind(x, back, m, o) :: Rem(x, back, r) >= m
    decreases |o|
  {
    if o != [] && Rem(x, back, o[0]) < m { LateBehind(x, back, m, o[1..]); }
  }

  /** Empty turns that come last do no harm: (?:a?)* agrees with the specification. */
  lemma EmptyTurnAgrees(x: Subject, cc: nat, s: St)
    requires StOk(x, s)
    ensures Agree(x, Quant(Quant(Chr(97), 0, 1, true), 0, INT32_MAX, true), cc, false, s)
  {
    hide Agree, Orderly, StOk;
    var re := Quant(Quant(Chr(97), 0, 1, true), 0, INT32_MAX, true);
    TidyOrderly(x, re, false);
    EcmaAgrees(x, re, cc, false, s);
  }
}
