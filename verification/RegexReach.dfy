/** Generated code and ECMA-262 reach the same places, in whatever order: they agree on which
    expressions match where. */
module RegexReach {
  import opened Options
  import opened Bytes
  import opened RegexSyntax
  import opened RegexMatch
  import opened RegexProgress
  import opened RegexEcma
  import opened RegexOrder
  import opened RegexPlaces

  /** Repetition counts the generator accepts; INT32_MAX stands for no bound. */
  predicate Counted(re: Re) {
    match re
    case Cat(l, r) => Counted(l) && Counted(r)
    case Alt(l, r) => Counted(l) && Counted(r)
    case Capture(b) => Counted(b)
    case Look(_, _, b) => Counted(b)
    case Quant(a, _, max, _) => Counted(a) && max <= INT32_MAX
    case _ => true
  }

  /** One of the states is at q. */
  ghost predicate At(rs: seq<St>, q: int) { exists r :: r in rs && r.pos == q }

  ghost predicate SameAt(x: Subject, re: Re, cc: nat, back: bool, s: St) {
    forall q :: q in EcmaPlaces(x, re, back, s.pos) <==> At(Outcomes(x, re, cc, back, s), q)
  }

  ghost predicate SameAll(x: Subject, re: Re, cc: nat, back: bool) {
    forall s | StOk(x, s) :: SameAt(x, re, cc, back, s)
  }

  lemma AtAppend(a: seq<St>, b: seq<St>, q: int)
    ensures At(a + b, q) <==> At(a, q) || At(b, q)
  {
    assert forall r :: r in a + b <==> r in a || r in b;
  }

  lemma AtOne(s: St, q: int)
    ensures At([s], q) <==> s.pos == q
  {
    assert s in [s];
  }

  // ---- what lists of places and states contain

  lemma {:induction false} ThenIn(x: Subject, re: Re, back: bool, ps: seq<int>, q: int)
    ensures q in ThenPlaces(x, re, back, ps) <==> exists p :: p in ps && q in EcmaPlaces(x, re, back, p)
    decreases |ps|
  {
    hide EcmaPlaces;
    if ps != [] {
      ThenIn(x, re, back, ps[1..], q);
      assert ps[0] in ps && forall p :: p in ps <==> p == ps[0] || p in ps[1..];
    }
  }

  lemma {:induction false} RequiredIn(x: Subject, a: Re, back: bool, min: nat, max: nat, greedy: bool, ps: seq<int>,
                                      q: int)
    ensures q in RequiredPlaces(x, a, back, min, max, greedy, ps) <==>
            exists p :: p in ps && q in RepeatPlaces(x, a, back, min, max, greedy, p)
    decreases |ps|
  {
    hide RepeatPlaces;
    if ps != [] {
      RequiredIn(x, a, back, min, max, greedy, ps[1..], q);
      assert ps[0] in ps && forall p :: p in ps <==> p == ps[0] || p in ps[1..];
    }
  }

  lemma {:induction false} OptionalIn(x: Subject, a: Re, back: bool, max: nat, greedy: bool, m: nat, ps: seq<int>,
                                      q: int)
    ensures q in OptionalPlaces(x, a, back, max, greedy, m, ps) <==>
            exists p :: p in ps && Ahead(x, back, p) < m && q in RepeatPlaces(x, a, back, 0, max, greedy, p)
    decreases |ps|
  {
    hide RepeatPlaces;
    if ps != [] {
      OptionalIn(x, a, back, max, greedy, m, ps[1..], q);
      assert ps[0] in ps && forall p :: p in ps <==> p == ps[0] || p in ps[1..];
    }
  }

  lemma {:induction false} AllAt(x: Subject, re: Re, cc: nat, back: bool, rs: seq<St>, q: int)
    ensures At(OutcomesAll(x, re, cc, back, rs), q) <==> exists r :: r in rs && At(Outcomes(x, re, cc, back, r), q)
    decreases |rs|
  {
    hide Outcomes;
    if rs != [] {
      hide At;
      AllAt(x, re, cc, back, rs[1..], q);
      AtAppend(Outcomes(x, re, cc, back, rs[0]), OutcomesAll(x, re, cc, back, rs[1..]), q);
      assert rs[0] in rs && forall r :: r in rs <==> r == rs[0] || r in rs[1..];
    }
  }

  lemma {:induction false} BeyondAt(x: Subject, a: Re, cc: nat, back: bool, n: nat, greedy: bool, m: nat, rs: seq<St>,
                                    q: int)
    ensures At(Beyond(x, a, cc, back, n, greedy, m, rs), q) <==>
            exists r :: r in rs && At(Beyond(x, a, cc, back, n, greedy, m, [r]), q)
    decreases |rs|
  {
    if rs != [] {
      hide Beyond, At;
      BeyondAt(x, a, cc, back, n, greedy, m, rs[1..], q);
      assert rs == [rs[0]] + rs[1..];
      BeyondAppend(x, a, cc, back, n, greedy, m, [rs[0]], rs[1..]);
      AtAppend(Beyond(x, a, cc, back, n, greedy, m, [rs[0]]), Beyond(x, a, cc, back, n, greedy, m, rs[1..]), q);
      assert rs[0] in rs && forall r :: r in rs <==> r == rs[0] || r in rs[1..];
    }
  }

  lemma {:induction false} TimesAt(x: Subject, a: Re, cc: nat, back: bool, n: nat, greedy: bool, m: nat, k: nat,
                                   rs: seq<St>, q: int)
    ensures At(Beyond(x, a, cc, back, n, greedy, m, TimesAll(x, a, cc, back, k, rs)), q) <==>
            exists r :: r in rs && At(Beyond(x, a, cc, back, n, greedy, m, Times(x, a, cc, back, k, r)), q)
    decreases |rs|
  {
    hide Times;
    if rs != [] {
      hide Beyond, At;
      TimesAt(x, a, cc, back, n, greedy, m, k, rs[1..], q);
      var (t, ts) := (Times(x, a, cc, back, k, rs[0]), TimesAll(x, a, cc, back, k, rs[1..]));
      BeyondAppend(x, a, cc, back, n, greedy, m, t, ts);
      AtAppend(Beyond(x, a, cc, back, n, greedy, m, t), Beyond(x, a, cc, back, n, greedy, m, ts), q);
      assert rs[0] in rs && forall r :: r in rs <==> r == rs[0] || r in rs[1..];
    }
  }

  // ---- repetition

  /** A consuming turn from p, and at most n - 1 more, lead to q. */
  ghost predicate TurnIn(x: Subject, a: Re, back: bool, n: nat, greedy: bool, p: int, q: int) {
    exists t :: t in EcmaPlaces(x, a, back, p) && Ahead(x, back, t) < Ahead(x, back, p)
      && q in RepeatPlaces(x, a, back, 0, LessOne(n), greedy, t)
  }

  lemma RepeatZero(x: Subject, a: Re, back: bool, n: nat, greedy: bool, p: int)
    requires n > 0
    ensures var turns := OptionalPlaces(x, a, back, LessOne(n), greedy, Ahead(x, back, p), EcmaPlaces(x, a, back, p));
      RepeatPlaces(x, a, back, 0, n, greedy, p) == if greedy then turns + [p] else [p] + turns
  {
    hide EcmaPlaces, OptionalPlaces;
  }

  /** One turn of the specification, from zero. */
  lemma RepeatIn(x: Subject, a: Re, back: bool, n: nat, greedy: bool, p: int, q: int)
    requires n > 0
    ensures q in RepeatPlaces(x, a, back, 0, n, greedy, p) <==> q == p || TurnIn(x, a, back, n, greedy, p, q)
  {
    RepeatZero(x, a, back, n, greedy, p);
    hide RepeatPlaces, EcmaPlaces, OptionalPlaces, Ahead, LessOne;
    var turns := OptionalPlaces(x, a, back, LessOne(n), greedy, Ahead(x, back, p), EcmaPlaces(x, a, back, p));
    OptionalIn(x, a, back, LessOne(n), greedy, Ahead(x, back, p), EcmaPlaces(x, a, back, p), q);
    assert q in turns <==> TurnIn(x, a, back, n, greedy, p, q);
    hide TurnIn;
  }

  /** One more turn reaches no less. */
  lemma {:induction false} MoreTurns(x: Subject, a: Re, back: bool, n: nat, greedy: bool, p: int, q: int)
    requires n + 1 < INT32_MAX && q in RepeatPlaces(x, a, back, 0, n, greedy, p)
    ensures q in RepeatPlaces(x, a, back, 0, n + 1, greedy, p)
    decreases n
  {
    hide RepeatPlaces, EcmaPlaces;
    RepeatIn(x, a, back, n + 1, greedy, p, q);
    if n == 0 {
      None0(x, a, back, greedy, p);
    } else {
      RepeatIn(x, a, back, n, greedy, p, q);
      if q != p {
        var t :| t in EcmaPlaces(x, a, back, p) && Ahead(x, back, t) < Ahead(x, back, p)
          && q in RepeatPlaces(x, a, back, 0, n - 1, greedy, t);
        MoreTurns(x, a, back, n - 1, greedy, t, q);
      }
    }
  }

  lemma None0(x: Subject, a: Re, back: bool, greedy: bool, p: int)
    ensures RepeatPlaces(x, a, back, 0, 0, greedy, p) == [p]
  {
  }

  /** The same in the code, where an empty turn ends an unbounded loop. */
  ghost predicate TurnAt(x: Subject, a: Re, cc: nat, back: bool, n: nat, greedy: bool, s: St, q: int) {
    exists r :: r in Outcomes(x, a, cc, back, s) && At(Onward(x, a, cc, back, n, greedy, Rem(x, back, s), r), q)
  }

  function Onward(x: Subject, a: Re, cc: nat, back: bool, n: nat, greedy: bool, m: nat, r: St): seq<St> {
    if n == INT32_MAX && Rem(x, back, r) >= m then [r] else Rest(x, a, cc, back, LessOne(n), greedy, r)
  }

  /** One turn of the code. */
  lemma RestAt(x: Subject, a: Re, cc: nat, back: bool, n: nat, greedy: bool, s: St, q: int)
    requires 0 < n <= INT32_MAX
    ensures At(Rest(x, a, cc, back, n, greedy, s), q) <==> q == s.pos || TurnAt(x, a, cc, back, n, greedy, s, q)
  {
    var (o, m) := (Outcomes(x, a, cc, back, s), Rem(x, back, s));
    var more := Beyond(x, a, cc, back, LessOne(n), greedy, m, o);
    assert Rest(x, a, cc, back, n, greedy, s) == if greedy then more + [s] else [s] + more;
    hide Outcomes, At, Beyond, Rest;
    BeyondAt(x, a, cc, back, LessOne(n), greedy, m, o, q);
    AtAppend(more, [s], q);
    AtAppend([s], more, q);
    AtOne(s, q);
    forall r | r in o
      ensures Beyond(x, a, cc, back, LessOne(n), greedy, m, [r]) == Onward(x, a, cc, back, n, greedy, m, r)
    {
      BeyondState(x, a, cc, back, n, greedy, m, r);
    }
  }

  /** n optional turns reach the same places. */
  lemma {:induction false} SameTurns(x: Subject, a: Re, cc: nat, back: bool, n: nat, greedy: bool, s: St, q: int)
    requires SameAll(x, a, cc, back) && StOk(x, s) && n <= INT32_MAX
    ensures q in RepeatPlaces(x, a, back, 0, n, greedy, s.pos) <==> At(Rest(x, a, cc, back, n, greedy, s), q)
    decreases if n == INT32_MAX then Rem(x, back, s) else n
  {
    hide Outcomes, EcmaPlaces, StOk, RepeatPlaces;
    if n == 0 {
      None0(x, a, back, greedy, s.pos);
      AtOne(s, q);
    } else {
      hide Rest;
      TurnPlaces(x, a, cc, back, s);
      assert SameAt(x, a, cc, back, s);
      forall r | r in Outcomes(x, a, cc, back, s) && (n < INT32_MAX || Rem(x, back, r) < Rem(x, back, s))
        ensures q in RepeatPlaces(x, a, back, 0, LessOne(n), greedy, r.pos) <==>
                At(Rest(x, a, cc, back, LessOne(n), greedy, r), q)
      {
        SameTurns(x, a, cc, back, LessOne(n), greedy, r, q);
      }
      hide SameAll, At, SameAt;
      SameTurn(x, a, cc, back, n, greedy, s, q);
    }
  }

  /** What follows a turn from s reaches the same. */
  ghost predicate LaterSame(x: Subject, a: Re, cc: nat, back: bool, n: nat, greedy: bool, s: St, q: int) {
    forall r | r in Outcomes(x, a, cc, back, s) && (n < INT32_MAX || Rem(x, back, r) < Rem(x, back, s)) ::
      q in RepeatPlaces(x, a, back, 0, LessOne(n), greedy, r.pos) <==>
      At(Rest(x, a, cc, back, LessOne(n), greedy, r), q)
  }

  lemma SameTurn(x: Subject, a: Re, cc: nat, back: bool, n: nat, greedy: bool, s: St, q: int)
    requires SameAt(x, a, cc, back, s) && StOk(x, s) && 0 < n <= INT32_MAX
    requires LaterSame(x, a, cc, back, n, greedy, s, q)
    ensures q in RepeatPlaces(x, a, back, 0, n, greedy, s.pos) <==> At(Rest(x, a, cc, back, n, greedy, s), q)
  {
    hide Outcomes, EcmaPlaces, StOk, RepeatPlaces, Rest, At, TurnIn, TurnAt, SameAt, LaterSame;
    RepeatIn(x, a, back, n, greedy, s.pos, q);
    RestAt(x, a, cc, back, n, greedy, s, q);
    if TurnIn(x, a, back, n, greedy, s.pos, q) { InAt(x, a, cc, back, n, greedy, s, q); }
    if TurnAt(x, a, cc, back, n, greedy, s, q) { AtIn(x, a, cc, back, n, greedy, s, q); }
  }

  lemma InAt(x: Subject, a: Re, cc: nat, back: bool, n: nat, greedy: bool, s: St, q: int)
    requires SameAt(x, a, cc, back, s) && LaterSame(x, a, cc, back, n, greedy, s, q)
    requires TurnIn(x, a, back, n, greedy, s.pos, q)
    ensures TurnAt(x, a, cc, back, n, greedy, s, q)
  {
    hide Outcomes, EcmaPlaces, RepeatPlaces, Rest;
    var t :| t in EcmaPlaces(x, a, back, s.pos) && Ahead(x, back, t) < Ahead(x, back, s.pos)
      && q in RepeatPlaces(x, a, back, 0, LessOne(n), greedy, t);
    var r :| r in Outcomes(x, a, cc, back, s) && r.pos == t;
    hide At;
    assert At(Onward(x, a, cc, back, n, greedy, Rem(x, back, s), r), q);
  }

  lemma AtIn(x: Subject, a: Re, cc: nat, back: bool, n: nat, greedy: bool, s: St, q: int)
    requires SameAt(x, a, cc, back, s) && StOk(x, s) && 0 < n <= INT32_MAX
    requires LaterSame(x, a, cc, back, n, greedy, s, q) && TurnAt(x, a, cc, back, n, greedy, s, q)
    ensures q in RepeatPlaces(x, a, back, 0, n, greedy, s.pos)
  {
    hide Outcomes, EcmaPlaces, StOk, RepeatPlaces, Rest, TurnIn;
    var (o, m) := (Outcomes(x, a, cc, back, s), Rem(x, back, s));
    var r :| r in o && At(Onward(x, a, cc, back, n, greedy, m, r), q);
    TurnPlaces(x, a, cc, back, s);
    assert r.pos in EcmaPlaces(x, a, back, s.pos) by { assert At(o, r.pos); }
    hide At, SameAt;
    RepeatIn(x, a, back, n, greedy, s.pos, q);
    if Rem(x, back, r) < m {
      assert q in RepeatPlaces(x, a, back, 0, LessOne(n), greedy, r.pos);
      assert TurnIn(x, a, back, n, greedy, s.pos, q) by { InTurn(x, a, back, n, greedy, s.pos, r.pos, q); }
    } else if n < INT32_MAX {
      MoreTurns(x, a, back, n - 1, greedy, s.pos, q);
    } else {
      AtOne(r, q);
    }
  }

  lemma InTurn(x: Subject, a: Re, back: bool, n: nat, greedy: bool, p: int, t: int, q: int)
    requires t in EcmaPlaces(x, a, back, p) && Ahead(x, back, t) < Ahead(x, back, p)
    requires q in RepeatPlaces(x, a, back, 0, LessOne(n), greedy, t)
    ensures TurnIn(x, a, back, n, greedy, p, q)
  {
    hide EcmaPlaces, RepeatPlaces;
  }

  /** min required turns, then the optional ones. */
  lemma {:induction false} SameCount(x: Subject, a: Re, cc: nat, back: bool, min: nat, max: nat, greedy: bool, m: nat,
                                     s: St, q: int)
    requires SameAll(x, a, cc, back) && StOk(x, s) && Rem(x, back, s) < m && min <= max <= INT32_MAX
    ensures q in RepeatPlaces(x, a, back, min, max, greedy, s.pos) <==>
            At(Beyond(x, a, cc, back, if max == INT32_MAX then max else max - min, greedy, m,
                Times(x, a, cc, back, min, s)), q)
    decreases min
  {
    hide Outcomes, EcmaPlaces, StOk, At, Beyond;
    var (o, rest) := (Outcomes(x, a, cc, back, s), if max == INT32_MAX then max else max - min);
    if min == 0 {
      BeyondOne(x, a, cc, back, rest, greedy, m, s);
      SameTurns(x, a, cc, back, max, greedy, s, q);
    } else {
      hide RequiredPlaces, TimesAll;
      var ps := EcmaPlaces(x, a, back, s.pos);
      assert RepeatPlaces(x, a, back, min, max, greedy, s.pos) ==
             RequiredPlaces(x, a, back, min - 1, LessOne(max), greedy, ps);
      assert Times(x, a, cc, back, min, s) == TimesAll(x, a, cc, back, min - 1, o);
      hide RepeatPlaces, Times;
      RequiredIn(x, a, back, min - 1, LessOne(max), greedy, ps, q);
      TimesAt(x, a, cc, back, rest, greedy, m, min - 1, o, q);
      OutcomesLeft(x, a, cc, back, s);
      forall r | r in o
        ensures q in RepeatPlaces(x, a, back, min - 1, LessOne(max), greedy, r.pos) <==>
          At(Beyond(x, a, cc, back, rest, greedy, m, Times(x, a, cc, back, min - 1, r)), q)
      {
        SameCount(x, a, cc, back, min - 1, LessOne(max), greedy, m, r, q);
      }
      assert SameAt(x, a, cc, back, s);
      hide SameAll;
      SameMembers(ps, o);
      forall p | p in ps && q in RepeatPlaces(x, a, back, min - 1, LessOne(max), greedy, p)
        ensures exists r :: r in o && r.pos == p
      {
      }
    }
  }

  lemma SameMembers(ps: seq<int>, o: seq<St>)
    requires forall q :: q in ps <==> At(o, q)
    ensures (forall p | p in ps :: exists r :: r in o && r.pos == p) && forall r | r in o :: r.pos in ps
  {
    forall r | r in o ensures r.pos in ps { assert At(o, r.pos); }
  }

  // ---- all expressions

  /** The places where generated code may end a match are those where the specification may. */
  lemma {:induction false} SamePlaces(x: Subject, re: Re, cc: nat, back: bool, s: St)
    requires Counted(re) && StOk(x, s)
    ensures SameAt(x, re, cc, back, s)
    decreases re, 0
  {
    hide SameAt, StOk;
    match re
    case Cat(l, r) =>
      if back {
        SamePlaces(x, r, cc + NCap(l), back, s);
        SameEverywhere(x, l, cc, back);
        SameCat(x, re, r, cc + NCap(l), l, cc, back, cc, s);
      } else {
        SamePlaces(x, l, cc, back, s);
        SameEverywhere(x, r, cc + NCap(l), back);
        SameCat(x, re, l, cc, r, cc + NCap(l), back, cc, s);
      }
    case Alt(l, r) =>
      SamePlaces(x, l, cc, back, s);
      SamePlaces(x, r, cc + NCap(l), back, s);
      SameAlt(x, re, cc, back, s);
    case Capture(b) =>
      var s1 := s.(caps := SetCap(s.caps, if back then 2 * cc + 1 else 2 * cc, s.pos));
      OkPos(x, s, s1);
      SamePlaces(x, b, cc + 1, back, s1);
      SameCapture(x, re, cc, back, s, s1);
    case Look(_, behind, b) =>
      SamePlaces(x, b, cc, behind, s);
      SameLook(x, re, cc, back, s);
    case Quant(a, _, _, _) =>
      SameEverywhere(x, a, cc, back);
      SameQuant(x, re, cc, back, s);
    case _ => SameLeaf(x, re, cc, back, s);
  }

  lemma {:induction false} SameEverywhere(x: Subject, re: Re, cc: nat, back: bool)
    requires Counted(re)
    ensures SameAll(x, re, cc, back)
    decreases re, 1
  {
    hide SameAt, StOk, Counted;
    forall s | StOk(x, s) ensures SameAt(x, re, cc, back, s) { SamePlaces(x, re, cc, back, s); }
  }

  lemma SameLeaf(x: Subject, re: Re, cc: nat, back: bool, s: St)
    requires re.Empty? || IsCharNode(re) || re.Bol? || re.Eol? || re.WordB?
    ensures SameAt(x, re, cc, back, s)
  {
    hide Holds, CharMatches;
    forall q ensures q in EcmaPlaces(x, re, back, s.pos) <==> At(Outcomes(x, re, cc, back, s), q) {
      AtOne(s, q);
      if IsCharNode(re) {
        var o := MatchChar(x, re, back, s);
        if o != [] { assert o == [o[0]]; AtOne(o[0], q); }
      }
    }
  }

  lemma PairPlaces(x: Subject, re: Re, back: bool, p: int)
    ensures re.Alt? ==> EcmaPlaces(x, re, back, p) == EcmaPlaces(x, re.l, back, p) + EcmaPlaces(x, re.r, back, p)
    ensures re.Capture? ==> EcmaPlaces(x, re, back, p) == EcmaPlaces(x, re.body, back, p)
  {
  }

  lemma SameAlt(x: Subject, re: Re, cc: nat, back: bool, s: St)
    requires re.Alt? && SameAt(x, re.l, cc, back, s) && SameAt(x, re.r, cc + NCap(re.l), back, s)
    ensures SameAt(x, re, cc, back, s)
  {
    hide Outcomes, EcmaPlaces, NCap, At;
    OutcomesAlt(x, re.l, re.r, cc, back, s);
    PairPlaces(x, re, back, s.pos);
    SameJoin(EcmaPlaces(x, re.l, back, s.pos), EcmaPlaces(x, re.r, back, s.pos), Outcomes(x, re.l, cc, back, s),
        Outcomes(x, re.r, cc + NCap(re.l), back, s));
  }

  lemma SameJoin(ps: seq<int>, qs: seq<int>, o: seq<St>, u: seq<St>)
    requires (forall q :: q in ps <==> At(o, q)) && forall q :: q in qs <==> At(u, q)
    ensures forall q :: q in ps + qs <==> At(o + u, q)
  {
    hide At;
    forall q ensures q in ps + qs <==> At(o + u, q) { AtAppend(o, u, q); }
  }

  lemma SameCapture(x: Subject, re: Re, cc: nat, back: bool, s: St, s1: St)
    requires re.Capture? && s1 == s.(caps := SetCap(s.caps, if back then 2 * cc + 1 else 2 * cc, s.pos))
    requires SameAt(x, re.body, cc + 1, back, s1)
    ensures SameAt(x, re, cc, back, s)
  {
    hide EcmaPlaces, SetAll, SetCap, At, Outcomes;
    var o := Outcomes(x, re.body, cc + 1, back, s1);
    OutcomesCapture(x, re.body, cc, back, s);
    PairPlaces(x, re, back, s.pos);
    forall q ensures At(SetAll(o, if back then 2 * cc else 2 * cc + 1), q) <==> At(o, q) {
      AtSetAll(o, if back then 2 * cc else 2 * cc + 1, q);
    }
  }

  lemma AtSetAll(o: seq<St>, k: int, q: int)
    ensures At(SetAll(o, k), q) <==> At(o, q)
  {
    var u := SetAll(o, k);
    hide SetAll, SetCap;
    assert At(o, q) <==> exists i :: 0 <= i < |o| && o[i].pos == q;
    assert At(u, q) <==> exists i :: 0 <= i < |u| && u[i].pos == q;
  }

  lemma SameNone(ps: seq<int>, o: seq<St>)
    requires forall q :: q in ps <==> At(o, q)
    ensures ps == [] <==> o == []
    ensures o != [] ==> o[0].pos in ps
  {
    if o != [] {
      assert o[0] in o;
      assert At(o, o[0].pos);
    }
    if ps != [] { assert ps[0] in ps && At(o, ps[0]); }
  }

  lemma SameLook(x: Subject, re: Re, cc: nat, back: bool, s: St)
    requires re.Look? && SameAt(x, re.body, cc, re.behind, s)
    ensures SameAt(x, re, cc, back, s)
  {
    var (o, ps) := (Outcomes(x, re.body, cc, re.behind, s), EcmaPlaces(x, re.body, re.behind, s.pos));
    SameNone(ps, o);
    OutcomesLook(x, re.neg, re.behind, re.body, cc, back, s);
    hide Outcomes;
    forall q ensures q in EcmaPlaces(x, re, back, s.pos) <==> At(Outcomes(x, re, cc, back, s), q) {
      AtOne(s, q);
      if o != [] { AtOne(s.(caps := o[0].caps), q); }
    }
  }

  lemma SameThen(x: Subject, g: Re, gc: nat, back: bool, ps: seq<int>, o: seq<St>, q: int)
    requires (forall p | p in ps :: exists r :: r in o && r.pos == p) && forall r | r in o :: r.pos in ps
    requires forall r | r in o :: SameAt(x, g, gc, back, r)
    ensures q in ThenPlaces(x, g, back, ps) <==> At(OutcomesAll(x, g, gc, back, o), q)
  {
    hide Outcomes, OutcomesAll, EcmaPlaces, ThenPlaces, At;
    ThenIn(x, g, back, ps, q);
    AllAt(x, g, gc, back, o, q);
    if q in ThenPlaces(x, g, back, ps) {
      var p :| p in ps && q in EcmaPlaces(x, g, back, p);
      var r :| r in o && r.pos == p;
      assert SameAt(x, g, gc, back, r);
    }
  }

  lemma CatParts(x: Subject, re: Re, f: Re, fc: nat, g: Re, gc: nat, back: bool, cc: nat, s: St)
    requires re.Cat?
    requires (f, fc, g, gc) == if back then (re.r, cc + NCap(re.l), re.l, cc) else (re.l, cc, re.r, cc + NCap(re.l))
    ensures Outcomes(x, re, cc, back, s) == OutcomesAll(x, g, gc, back, Outcomes(x, f, fc, back, s))
    ensures EcmaPlaces(x, re, back, s.pos) == ThenPlaces(x, g, back, EcmaPlaces(x, f, back, s.pos))
  {
    hide Outcomes, OutcomesAll, ThenPlaces;
    OutcomesCat(x, re.l, re.r, cc, back, s);
  }

  lemma SameCat(x: Subject, re: Re, f: Re, fc: nat, g: Re, gc: nat, back: bool, cc: nat, s: St)
    requires re.Cat? && StOk(x, s) && SameAt(x, f, fc, back, s) && SameAll(x, g, gc, back)
    requires (f, fc, g, gc) == if back then (re.r, cc + NCap(re.l), re.l, cc) else (re.l, cc, re.r, cc + NCap(re.l))
    ensures SameAt(x, re, cc, back, s)
  {
    hide Outcomes, OutcomesAll, EcmaPlaces, ThenPlaces, StOk, At;
    var (o, ps) := (Outcomes(x, f, fc, back, s), EcmaPlaces(x, f, back, s.pos));
    CatParts(x, re, f, fc, g, gc, back, cc, s);
    OutcomesLeft(x, f, fc, back, s);
    SameMembers(ps, o);
    assert forall r | r in o :: SameAt(x, g, gc, back, r);
    hide SameAll;
    forall q ensures q in EcmaPlaces(x, re, back, s.pos) <==> At(Outcomes(x, re, cc, back, s), q) {
      SameThen(x, g, gc, back, ps, o, q);
    }
  }

  lemma SameQuant(x: Subject, re: Re, cc: nat, back: bool, s: St)
    requires re.Quant? && re.max <= INT32_MAX && StOk(x, s) && SameAll(x, re.atom, cc, back)
    ensures SameAt(x, re, cc, back, s)
  {
    var (a, min, max, greedy) := (re.atom, re.min, re.max, re.greedy);
    var s0 := EnterQuant(a, cc, min, s);
    OkPos(x, s, s0);
    forall q ensures q in EcmaPlaces(x, re, back, s.pos) <==> At(Outcomes(x, re, cc, back, s), q) {
      AtOne(s0, q);
      if 0 <= min <= max && max > 0 {
        var c: Cont := q => None;
        QuantUnfold(x, re, cc, back, s, c);
        hide Outcomes, At, Beyond, SameAll, StOk, RepeatPlaces;
        SameCount(x, a, cc, back, min, max, greedy, Rem(x, back, s0) + 1, s0, q);
      }
    }
  }
}
