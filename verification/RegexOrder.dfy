/** Repetition in generated code and in section 22.2.2.3.1 of ECMA-262. Both try the turns of the
    atom in order, but the specification rejects an optional turn that consumes nothing, where the
    code goes on behind it. The two agree exactly when that brings nothing forward. */
module RegexOrder {
  import opened Options
  import opened Bytes
  import opened RegexSyntax
  import opened RegexMatch
  import opened RegexProgress
  import opened RegexEcma
  import Lists

  // ---- the outcomes of a turn around the first empty one

  /** The outcomes before the first that consumes nothing, with m characters left at the start. */
  function Front(x: Subject, back: bool, m: nat, o: seq<St>): (r: seq<St>)
    ensures forall t | t in r :: t in o && Rem(x, back, t) < m
  {
    if o == [] || Rem(x, back, o[0]) >= m then [] else [o[0]] + Front(x, back, m, o[1..])
  }

  /** The others. */
  function Behind(x: Subject, back: bool, m: nat, o: seq<St>): (r: seq<St>)
    ensures Front(x, back, m, o) + r == o
    ensures r != [] ==> Rem(x, back, r[0]) >= m
  {
    if o == [] || Rem(x, back, o[0]) >= m then o else Behind(x, back, m, o[1..])
  }

  function FrontTurns(x: Subject, a: Re, cc: nat, back: bool, s: St): seq<St> {
    Front(x, back, Rem(x, back, s), Outcomes(x, a, cc, back, s))
  }

  function BehindTurns(x: Subject, a: Re, cc: nat, back: bool, s: St): seq<St> {
    Behind(x, back, Rem(x, back, s), Outcomes(x, a, cc, back, s))
  }

  /** Turns that each consume something lead from s to q. */
  ghost predicate Visits(x: Subject, a: Re, cc: nat, back: bool, s: St, q: int)
    decreases Rem(x, back, s)
  {
    q == s.pos ||
    exists r :: r in Outcomes(x, a, cc, back, s) && Rem(x, back, r) < Rem(x, back, s) && Visits(x, a, cc, back, r, q)
  }

  /** Where a turn that ends in r leads: with a bound on the turns its own end counts, without
      one all that further turns visit. */
  ghost predicate LeadsTo(x: Subject, a: Re, cc: nat, back: bool, n: nat, r: St, q: int) {
    if n == INT32_MAX then Visits(x, a, cc, back, r, q) else q == r.pos
  }

  /** The consuming turns behind an empty one lead nowhere that those in front of it do not. */
  ghost predicate NothingNew(x: Subject, a: Re, cc: nat, back: bool, n: nat, s: St) {
    forall r, q | r in BehindTurns(x, a, cc, back, s) && Rem(x, back, r) < Rem(x, back, s)
        && LeadsTo(x, a, cc, back, n, r, q) ::
      exists f :: f in FrontTurns(x, a, cc, back, s) && LeadsTo(x, a, cc, back, n, f, q)
  }

  /** The condition on the atom of n optional turns. A lazy loop without bound needs none, nor
      does a single lazy turn. */
  ghost predicate TurnsOk(x: Subject, a: Re, cc: nat, back: bool, n: nat, greedy: bool) {
    n == 0 || (!greedy && (n == 1 || n == INT32_MAX)) || forall s | StOk(x, s) :: NothingNew(x, a, cc, back, n, s)
  }

  // ---- one turn

  /** What is found first, when the turns and the state itself give these. */
  function Choose(greedy: bool, turns: Opt, here: Opt): Opt {
    if greedy then (if turns.Some? then turns else here) else if here.Some? then here else turns
  }

  /** At most n turns; INT32_MAX stands for any number. */
  function Rest(x: Subject, a: Re, cc: nat, back: bool, n: nat, greedy: bool, s: St): seq<St> {
    if n == INT32_MAX then Star(x, a, cc, back, greedy, s) else UpTo(x, a, cc, back, greedy, n, s)
  }

  /** The turns beyond the first required ones. */
  ghost function Beyond(x: Subject, a: Re, cc: nat, back: bool, max: nat, greedy: bool, m: nat, rs: seq<St>): seq<St> {
    if max == INT32_MAX then StarAll(x, a, cc, back, greedy, m, rs) else UpToAll(x, a, cc, back, greedy, max, rs)
  }

  lemma {:induction false} StarAllAppend(x: Subject, a: Re, cc: nat, back: bool, greedy: bool, m: nat, r: seq<St>,
                                         s: seq<St>)
    ensures StarAll(x, a, cc, back, greedy, m, r + s) ==
            StarAll(x, a, cc, back, greedy, m, r) + StarAll(x, a, cc, back, greedy, m, s)
    decreases |r|
  {
    hide Star;
    if r == [] {
      assert r + s == s;
    } else {
      Lists.TailAppend(r, s);
      StarAllAppend(x, a, cc, back, greedy, m, r[1..], s);
    }
  }

  lemma {:induction false} UpToAllAppend(x: Subject, a: Re, cc: nat, back: bool, greedy: bool, n: nat, r: seq<St>,
                                         s: seq<St>)
    ensures UpToAll(x, a, cc, back, greedy, n, r + s) ==
            UpToAll(x, a, cc, back, greedy, n, r) + UpToAll(x, a, cc, back, greedy, n, s)
    decreases |r|
  {
    hide UpTo;
    if r == [] {
      assert r + s == s;
    } else {
      Lists.TailAppend(r, s);
      UpToAllAppend(x, a, cc, back, greedy, n, r[1..], s);
      Lists.Assoc(UpTo(x, a, cc, back, greedy, n, r[0]), UpToAll(x, a, cc, back, greedy, n, r[1..]),
          UpToAll(x, a, cc, back, greedy, n, s));
    }
  }

  lemma BeyondAppend(x: Subject, a: Re, cc: nat, back: bool, max: nat, greedy: bool, m: nat, r: seq<St>, s: seq<St>)
    ensures Beyond(x, a, cc, back, max, greedy, m, r + s) ==
            Beyond(x, a, cc, back, max, greedy, m, r) + Beyond(x, a, cc, back, max, greedy, m, s)
  {
    hide StarAll, UpToAll;
    if max == INT32_MAX {
      StarAllAppend(x, a, cc, back, greedy, m, r, s);
    } else {
      UpToAllAppend(x, a, cc, back, greedy, max, r, s);
    }
  }


  /** The states after one turn from a state with m characters left, and what follows each. */
  lemma {:induction false} CodeTurns(x: Subject, a: Re, cc: nat, back: bool, n: nat, greedy: bool, m: nat, rs: seq<St>,
                                     c: Cont, e: Cont)
    requires forall r | r in rs :: e(r.pos) == First(Beyond(x, a, cc, back, n, greedy, m, [r]), c)
    ensures First(Beyond(x, a, cc, back, n, greedy, m, rs), c) == First(rs, e)
    decreases |rs|
  {
    if rs != [] {
      hide Beyond;
      assert rs[0] in rs && rs == [rs[0]] + rs[1..];
      CodeTurns(x, a, cc, back, n, greedy, m, rs[1..], c, e);
      BeyondAppend(x, a, cc, back, n, greedy, m, [rs[0]], rs[1..]);
      FirstAppend(Beyond(x, a, cc, back, n, greedy, m, [rs[0]]), Beyond(x, a, cc, back, n, greedy, m, rs[1..]), c);
    }
  }

  /** The code: when e is what it finds behind each turn. */
  lemma CodeTurn(x: Subject, a: Re, cc: nat, back: bool, n: nat, greedy: bool, s: St, c: Cont, e: Cont)
    requires 0 < n <= INT32_MAX
    requires forall r | r in Outcomes(x, a, cc, back, s) ::
      e(r.pos) == First(Beyond(x, a, cc, back, LessOne(n), greedy, Rem(x, back, s), [r]), c)
    ensures First(Rest(x, a, cc, back, n, greedy, s), c) ==
            Choose(greedy, First(Outcomes(x, a, cc, back, s), e), c(s.pos))
  {
    hide Outcomes, First;
    var (o, m) := (Outcomes(x, a, cc, back, s), Rem(x, back, s));
    var more := Beyond(x, a, cc, back, LessOne(n), greedy, m, o);
    CodeTurns(x, a, cc, back, LessOne(n), greedy, m, o, c, e);
    FirstAppend(more, [s], c);
    FirstAppend([s], more, c);
    FirstOne(s, c);
  }

  /** The specification. */
  lemma SpecTurn(x: Subject, a: Re, cc: nat, back: bool, n: nat, greedy: bool, s: St, c: Cont)
    requires 0 < n <= INT32_MAX && Agree(x, a, cc, back, s)
    ensures RepeatMatcher(x, a, back, 0, n, greedy, s.pos, c) ==
            Choose(greedy, First(Outcomes(x, a, cc, back, s), Optional(x, a, back, LessOne(n), greedy, s.pos, c)),
                c(s.pos))
  {
    hide Outcomes, Matcher, First;
    var (o, d) := (Outcomes(x, a, cc, back, s), Optional(x, a, back, LessOne(n), greedy, s.pos, c));
    assert Matcher(x, a, back, s.pos, d) == First(o, d);
  }

  /** Outcomes stay in place or consume. */
  lemma TurnPlaces(x: Subject, a: Re, cc: nat, back: bool, s: St)
    requires StOk(x, s)
    ensures forall r | r in Outcomes(x, a, cc, back, s) ::
      StOk(x, r) && (Rem(x, back, r) < Rem(x, back, s) || r.pos == s.pos)
  {
    hide Outcomes;
    OutcomesLeft(x, a, cc, back, s);
  }

  lemma {:induction false} FirstSame(rs: seq<St>, d: Cont, e: Cont)
    requires forall r | r in rs :: d(r.pos) == e(r.pos)
    ensures First(rs, d) == First(rs, e)
    decreases |rs|
  {
    if rs != [] {
      assert rs[0] in rs;
      FirstSame(rs[1..], d, e);
    }
  }

  /** What is found first was accepted somewhere. */
  lemma {:induction false} FirstFrom(rs: seq<St>, c: Cont)
    ensures First(rs, c).Some? ==> exists r :: r in rs && c(r.pos) == First(rs, c)
    decreases |rs|
  {
    if rs != [] {
      assert rs[0] in rs;
      FirstFrom(rs[1..], c);
    }
  }

  /** What the code finds behind a turn from p that ends in q, when later turns agree. */
  ghost function Followed(x: Subject, a: Re, back: bool, n: nat, greedy: bool, p: int, c: Cont): Cont {
    q => if n == INT32_MAX && Ahead(x, back, q) >= Ahead(x, back, p) then c(q)
         else RepeatMatcher(x, a, back, 0, LessOne(n), greedy, q, c)
  }

  /** The turns that follow one from s agree. */
  ghost predicate LaterAgree(x: Subject, a: Re, cc: nat, back: bool, n: nat, greedy: bool, s: St, c: Cont) {
    forall r | r in Outcomes(x, a, cc, back, s) && (n < INT32_MAX || Rem(x, back, r) < Rem(x, back, s)) ::
      RepeatMatcher(x, a, back, 0, LessOne(n), greedy, r.pos, c) ==
      First(Rest(x, a, cc, back, LessOne(n), greedy, r), c)
  }

  lemma FollowedTurn(x: Subject, a: Re, cc: nat, back: bool, n: nat, greedy: bool, s: St, c: Cont)
    requires 0 < n <= INT32_MAX && LaterAgree(x, a, cc, back, n, greedy, s, c)
    ensures First(Rest(x, a, cc, back, n, greedy, s), c) ==
            Choose(greedy, First(Outcomes(x, a, cc, back, s), Followed(x, a, back, n, greedy, s.pos, c)), c(s.pos))
  {
    var (o, e, m) := (Outcomes(x, a, cc, back, s), Followed(x, a, back, n, greedy, s.pos, c), Rem(x, back, s));
    forall r | r in o ensures e(r.pos) == First(Beyond(x, a, cc, back, LessOne(n), greedy, m, [r]), c) {
      hide Outcomes, RepeatMatcher, First, Star, UpTo;
      BeyondState(x, a, cc, back, n, greedy, m, r);
      FirstOne(r, c);
    }
    hide Outcomes, RepeatMatcher, First, Star, UpTo, Followed, Beyond;
    CodeTurn(x, a, cc, back, n, greedy, s, c, e);
  }

  lemma BeyondState(x: Subject, a: Re, cc: nat, back: bool, n: nat, greedy: bool, m: nat, r: St)
    requires 0 < n <= INT32_MAX
    ensures Beyond(x, a, cc, back, LessOne(n), greedy, m, [r]) ==
            if n == INT32_MAX && Rem(x, back, r) >= m then [r] else Rest(x, a, cc, back, LessOne(n), greedy, r)
  {
    hide Star, UpTo;
    assert [r][1..] == [];
    if n == INT32_MAX {
      assert StarAll(x, a, cc, back, greedy, m, [r]) ==
        (if Rem(x, back, r) < m then Star(x, a, cc, back, greedy, r) else [r]) + [];
    } else {
      assert UpToAll(x, a, cc, back, greedy, n - 1, [r]) == UpTo(x, a, cc, back, greedy, n - 1, r) + [];
    }
  }

  // ---- what a loop visits

  /** The loop of generated code reaches exactly the places visited. */
  lemma {:induction false} StarVisits(x: Subject, a: Re, cc: nat, back: bool, greedy: bool, s: St, q: int)
    requires StOk(x, s)
    ensures (exists t :: t in Star(x, a, cc, back, greedy, s) && t.pos == q) <==> Visits(x, a, cc, back, s, q)
    decreases Rem(x, back, s), 1, 0
  {
    hide Outcomes, StarAll, Star, StOk;
    var (o, m) := (Outcomes(x, a, cc, back, s), Rem(x, back, s));
    var (all, more) := (Star(x, a, cc, back, greedy, s), StarAll(x, a, cc, back, greedy, m, o));
    TurnPlaces(x, a, cc, back, s);
    StarAllVisits(x, a, cc, back, greedy, s, o, q);
    StarHolds(x, a, cc, back, greedy, s);
    if exists t :: t in all && t.pos == q && q != s.pos {
      var t :| t in all && t.pos == q;
      assert t in more;
    }
  }

  lemma StarHolds(x: Subject, a: Re, cc: nat, back: bool, greedy: bool, s: St)
    ensures var more := StarAll(x, a, cc, back, greedy, Rem(x, back, s), Outcomes(x, a, cc, back, s));
      forall t :: t in Star(x, a, cc, back, greedy, s) <==> t in more || t == s
  {
    hide Outcomes, StarAll;
  }

  lemma {:induction false} StarAllVisits(x: Subject, a: Re, cc: nat, back: bool, greedy: bool, s: St, rs: seq<St>,
                                         q: int)
    requires forall r | r in rs :: StOk(x, r) && (Rem(x, back, r) < Rem(x, back, s) || r.pos == s.pos)
    ensures q != s.pos ==> ((exists t :: t in StarAll(x, a, cc, back, greedy, Rem(x, back, s), rs) && t.pos == q) <==>
        exists r :: r in rs && Rem(x, back, r) < Rem(x, back, s) && Visits(x, a, cc, back, r, q))
    decreases Rem(x, back, s), 0, |rs|
  {
    if rs != [] && q != s.pos {
      hide Outcomes, StOk, Star, Visits;
      assert rs[0] in rs;
      var (m, r) := (Rem(x, back, s), rs[0]);
      StarAllVisits(x, a, cc, back, greedy, s, rs[1..], q);
      if Rem(x, back, r) < m { StarVisits(x, a, cc, back, greedy, r, q); }
      var (head, more) := (if Rem(x, back, r) < m then Star(x, a, cc, back, greedy, r) else [r],
          StarAll(x, a, cc, back, greedy, m, rs[1..]));
      assert StarAll(x, a, cc, back, greedy, m, rs) == head + more;
      assert forall t :: t in head + more <==> t in head || t in more;
      assert forall t :: t in rs <==> t == r || t in rs[1..];
    }
  }

  /** A loop is accepted exactly when a place it visits is. */
  lemma StarAccepts(x: Subject, a: Re, cc: nat, back: bool, greedy: bool, s: St, c: Cont)
    requires StOk(x, s)
    ensures First(Star(x, a, cc, back, greedy, s), c).Some? <==>
            exists q :: Visits(x, a, cc, back, s, q) && c(q).Some?
    ensures First(Star(x, a, cc, back, greedy, s), c).Some? ==>
            exists q :: Visits(x, a, cc, back, s, q) && c(q) == First(Star(x, a, cc, back, greedy, s), c)
  {
    hide Star, Visits, StOk, First;
    var all := Star(x, a, cc, back, greedy, s);
    FirstNone(all, c);
    FirstFrom(all, c);
    if First(all, c).Some? {
      var t :| t in all && c(t.pos) == First(all, c);
      StarVisits(x, a, cc, back, greedy, s, t.pos);
    }
    forall q | Visits(x, a, cc, back, s, q) && c(q).Some? ensures First(all, c).Some? {
      StarVisits(x, a, cc, back, greedy, s, q);
    }
  }

  /** No place visited is behind. */
  lemma {:induction false} VisitsAhead(x: Subject, a: Re, cc: nat, back: bool, s: St, q: int)
    requires Visits(x, a, cc, back, s, q)
    ensures Ahead(x, back, q) <= Rem(x, back, s)
    decreases Rem(x, back, s)
  {
    if q != s.pos {
      var r :| r in Outcomes(x, a, cc, back, s) && Rem(x, back, r) < Rem(x, back, s) && Visits(x, a, cc, back, r, q);
      VisitsAhead(x, a, cc, back, r, q);
    }
  }

  // ---- the condition is enough

  lemma LessTurns(x: Subject, a: Re, cc: nat, back: bool, n: nat, greedy: bool, s: St, c: Cont)
    requires Agrees(x, a, cc, back) && StOk(x, s) && 0 < n < INT32_MAX
    requires RepeatMatcher(x, a, back, 0, n, greedy, s.pos, c) == None
    ensures RepeatMatcher(x, a, back, 0, n - 1, greedy, s.pos, c) == None
    decreases n
  {
    hide Matcher, Outcomes, StOk;
    SpecTurn(x, a, cc, back, n, greedy, s, c);
    if n == 1 {
      assert c(s.pos) == None;
    } else {
      Settled(x, a, cc, back, n, greedy, s, c);
    }
  }

  /** Once n turns and what follows them have failed, one turn less finds the state itself. */
  lemma Settled(x: Subject, a: Re, cc: nat, back: bool, n: nat, greedy: bool, s: St, c: Cont)
    requires Agrees(x, a, cc, back) && StOk(x, s) && 0 < n < INT32_MAX
    requires First(Outcomes(x, a, cc, back, s), Optional(x, a, back, n - 1, greedy, s.pos, c)) == None
    ensures RepeatMatcher(x, a, back, 0, n - 1, greedy, s.pos, c) == c(s.pos)
    decreases n, 0
  {
    hide Matcher, Outcomes, StOk, First;
    if n > 1 {
      var o := Outcomes(x, a, cc, back, s);
      var (d, e) := (Optional(x, a, back, n - 1, greedy, s.pos, c), Optional(x, a, back, n - 2, greedy, s.pos, c));
      assert Agree(x, a, cc, back, s);
      SpecTurn(x, a, cc, back, n - 1, greedy, s, c);
      TurnPlaces(x, a, cc, back, s);
      FirstNone(o, d);
      forall r | r in o ensures e(r.pos) == None {
        assert d(r.pos) == None;
        hide RepeatMatcher;
        if Ahead(x, back, r.pos) < Ahead(x, back, s.pos) { LessTurns(x, a, cc, back, n - 1, greedy, r, c); }
      }
      FirstNone(o, e);
    }
  }

  /** When nothing new is behind, the turns in front decide whether one is accepted. */
  lemma FrontDecides(x: Subject, a: Re, cc: nat, back: bool, n: nat, s: St, d: Cont, g: Cont)
    requires StOk(x, s) && NothingNew(x, a, cc, back, n, s) && d(s.pos) == None
    requires forall r | r in Outcomes(x, a, cc, back, s) && Rem(x, back, r) < Rem(x, back, s) ::
      d(r.pos).Some? <==> exists q :: LeadsTo(x, a, cc, back, n, r, q) && g(q).Some?
    requires First(FrontTurns(x, a, cc, back, s), d) == None
    ensures forall r | r in BehindTurns(x, a, cc, back, s) :: d(r.pos) == None
  {
    hide Outcomes, LeadsTo, StOk, First;
    var (o, front, behind) := (Outcomes(x, a, cc, back, s), FrontTurns(x, a, cc, back, s),
        BehindTurns(x, a, cc, back, s));
    TurnPlaces(x, a, cc, back, s);
    FirstNone(front, d);
    assert front + behind == o;
    forall r | r in behind ensures d(r.pos) == None {
      assert r in o;
    }
  }

  /** The two orders of trying, when the turns in front decide. */
  lemma SameChoice(x: Subject, a: Re, cc: nat, back: bool, greedy: bool, s: St, d: Cont, e: Cont, c: Cont)
    requires StOk(x, s) && d(s.pos) == None
    requires forall r | r in Outcomes(x, a, cc, back, s) && Rem(x, back, r) < Rem(x, back, s) :: d(r.pos) == e(r.pos)
    requires First(FrontTurns(x, a, cc, back, s), d) == None ==>
      forall r | r in BehindTurns(x, a, cc, back, s) :: d(r.pos) == None
    requires First(Outcomes(x, a, cc, back, s), d) == None ==> e(s.pos) == c(s.pos)
    ensures var o := Outcomes(x, a, cc, back, s);
      Choose(greedy, First(o, d), c(s.pos)) == Choose(greedy, First(o, e), c(s.pos))
  {
    hide Outcomes, First, StOk;
    var (o, front, behind) := (Outcomes(x, a, cc, back, s), FrontTurns(x, a, cc, back, s),
        BehindTurns(x, a, cc, back, s));
    TurnPlaces(x, a, cc, back, s);
    assert front + behind == o;
    FirstSame(front, d, e);
    FirstAppend(front, behind, d);
    FirstAppend(front, behind, e);
    FirstNone(behind, d);
    FirstFrom(behind, e);
    if First(front, d) == None && First(behind, e).Some? {
      var r :| r in behind && e(r.pos) == First(behind, e);
      assert r in o;
    }
  }

  /** n optional turns agree with the specification. */
  lemma {:induction false} AgreeTurns(x: Subject, a: Re, cc: nat, back: bool, n: nat, greedy: bool, s: St, c: Cont)
    requires Agrees(x, a, cc, back) && TurnsOk(x, a, cc, back, n, greedy) && StOk(x, s) && n <= INT32_MAX
    ensures RepeatMatcher(x, a, back, 0, n, greedy, s.pos, c) == First(Rest(x, a, cc, back, n, greedy, s), c)
    decreases if n == INT32_MAX then Rem(x, back, s) else n
  {
    hide Outcomes, StOk, Matcher, Star, First, NothingNew;
    if n == 0 {
      FirstOne(s, c);
    } else {
      TurnPlaces(x, a, cc, back, s);
      assert LaterAgree(x, a, cc, back, n, greedy, s, c) by {
        hide RepeatMatcher, UpTo, Rest;
        forall r | r in Outcomes(x, a, cc, back, s) && (n < INT32_MAX || Rem(x, back, r) < Rem(x, back, s))
          ensures RepeatMatcher(x, a, back, 0, LessOne(n), greedy, r.pos, c) ==
                  First(Rest(x, a, cc, back, LessOne(n), greedy, r), c)
        {
          assert TurnsOk(x, a, cc, back, LessOne(n), greedy) by { FewerOk(x, a, cc, back, n, greedy); }
          AgreeTurns(x, a, cc, back, LessOne(n), greedy, r, c);
        }
      }
      hide RepeatMatcher, UpTo, Rest;
      AgreeTurn(x, a, cc, back, n, greedy, s, c);
    }
  }

  lemma FewerOk(x: Subject, a: Re, cc: nat, back: bool, n: nat, greedy: bool)
    requires TurnsOk(x, a, cc, back, n, greedy) && 0 < n <= INT32_MAX
    ensures TurnsOk(x, a, cc, back, LessOne(n), greedy)
  {
    hide Outcomes, StOk;
    if 1 < n < INT32_MAX {
      forall s | StOk(x, s) ensures NothingNew(x, a, cc, back, n - 1, s) {
        assert NothingNew(x, a, cc, back, n, s);
        SameLead(x, a, cc, back, n, n - 1, s);
      }
    }
  }

  /** With a bound, the condition does not depend on it. */
  lemma SameLead(x: Subject, a: Re, cc: nat, back: bool, n: nat, k: nat, s: St)
    requires NothingNew(x, a, cc, back, n, s) && n != INT32_MAX && k != INT32_MAX
    ensures NothingNew(x, a, cc, back, k, s)
  {
    hide Outcomes;
    forall r, q | r in BehindTurns(x, a, cc, back, s) && Rem(x, back, r) < Rem(x, back, s)
        && LeadsTo(x, a, cc, back, k, r, q)
      ensures exists f :: f in FrontTurns(x, a, cc, back, s) && LeadsTo(x, a, cc, back, k, f, q)
    {
      hide FrontTurns, BehindTurns;
      assert LeadsTo(x, a, cc, back, n, r, q);
      var f :| f in FrontTurns(x, a, cc, back, s) && LeadsTo(x, a, cc, back, n, f, q);
      assert LeadsTo(x, a, cc, back, k, f, q);
    }
  }

  lemma AgreeTurn(x: Subject, a: Re, cc: nat, back: bool, n: nat, greedy: bool, s: St, c: Cont)
    requires Agrees(x, a, cc, back) && TurnsOk(x, a, cc, back, n, greedy) && StOk(x, s) && 0 < n <= INT32_MAX
    requires LaterAgree(x, a, cc, back, n, greedy, s, c)
    ensures RepeatMatcher(x, a, back, 0, n, greedy, s.pos, c) == First(Rest(x, a, cc, back, n, greedy, s), c)
  {
    hide Outcomes, StOk, Rest, NothingNew, LaterAgree, First, RepeatMatcher, Optional, Followed;
    assert Agree(x, a, cc, back, s);
    hide Agrees, Agree, Matcher;
    var o := Outcomes(x, a, cc, back, s);
    var (d, e) := (Optional(x, a, back, LessOne(n), greedy, s.pos, c), Followed(x, a, back, n, greedy, s.pos, c));
    SpecTurn(x, a, cc, back, n, greedy, s, c);
    FollowedTurn(x, a, cc, back, n, greedy, s, c);
    TurnEnds(x, a, back, n, greedy, s, c);
    if (n == INT32_MAX || n == 1) && c(s.pos) == None {
      TurnPlaces(x, a, cc, back, s);
      FirstSame(o, d, e);
    } else if greedy || c(s.pos) == None {
      ByFront(x, a, cc, back, n, greedy, s, c);
    }
  }

  /** Where a turn ends decides how it goes on. */
  lemma TurnEnds(x: Subject, a: Re, back: bool, n: nat, greedy: bool, s: St, c: Cont)
    requires 0 < n <= INT32_MAX
    ensures var (d, e) := (Optional(x, a, back, LessOne(n), greedy, s.pos, c),
            Followed(x, a, back, n, greedy, s.pos, c));
      && d(s.pos) == None && (n == INT32_MAX || n == 1 ==> e(s.pos) == c(s.pos))
      && forall r: St | Rem(x, back, r) < Rem(x, back, s) :: d(r.pos) == e(r.pos)
  {
    var (d, e) := (Optional(x, a, back, LessOne(n), greedy, s.pos, c), Followed(x, a, back, n, greedy, s.pos, c));
    assert n == 1 ==> e(s.pos) == c(s.pos);
    hide RepeatMatcher;
  }

  lemma ByFront(x: Subject, a: Re, cc: nat, back: bool, n: nat, greedy: bool, s: St, c: Cont)
    requires Agrees(x, a, cc, back) && NothingNew(x, a, cc, back, n, s) && StOk(x, s) && 0 < n <= INT32_MAX
    requires LaterAgree(x, a, cc, back, n, greedy, s, c)
    ensures var o := Outcomes(x, a, cc, back, s);
      Choose(greedy, First(o, Optional(x, a, back, LessOne(n), greedy, s.pos, c)), c(s.pos)) ==
      Choose(greedy, First(o, Followed(x, a, back, n, greedy, s.pos, c)), c(s.pos))
  {
    hide Outcomes, StOk, NothingNew, LaterAgree, First, RepeatMatcher, FrontTurns, BehindTurns;
    var o := Outcomes(x, a, cc, back, s);
    var (d, e) := (Optional(x, a, back, LessOne(n), greedy, s.pos, c), Followed(x, a, back, n, greedy, s.pos, c));
    TurnEnds(x, a, back, n, greedy, s, c);
    if First(o, d) == None && n < INT32_MAX { Settled(x, a, cc, back, n, greedy, s, c); }
    hide Agrees;
    if First(FrontTurns(x, a, cc, back, s), d) == None {
      var g := if n == INT32_MAX then c else d;
      Lead(x, a, cc, back, n, greedy, s, c, d, g);
      FrontDecides(x, a, cc, back, n, s, d, g);
    }
    SameChoice(x, a, cc, back, greedy, s, d, e, c);
  }

  /** What an optional turn leads to decides whether it is accepted. */
  lemma Lead(x: Subject, a: Re, cc: nat, back: bool, n: nat, greedy: bool, s: St, c: Cont, d: Cont, g: Cont)
    requires StOk(x, s) && 0 < n <= INT32_MAX && LaterAgree(x, a, cc, back, n, greedy, s, c)
    requires d == Optional(x, a, back, LessOne(n), greedy, s.pos, c) && g == (if n == INT32_MAX then c else d)
    ensures forall r | r in Outcomes(x, a, cc, back, s) && Rem(x, back, r) < Rem(x, back, s) ::
      d(r.pos).Some? <==> exists q :: LeadsTo(x, a, cc, back, n, r, q) && g(q).Some?
  {
    hide Outcomes, StOk, RepeatMatcher, Star, UpTo, First, Visits;
    TurnPlaces(x, a, cc, back, s);
    forall r | r in Outcomes(x, a, cc, back, s) && Rem(x, back, r) < Rem(x, back, s)
      ensures d(r.pos).Some? <==> exists q :: LeadsTo(x, a, cc, back, n, r, q) && g(q).Some?
    {
      if n == INT32_MAX {
        assert d(r.pos) == First(Star(x, a, cc, back, greedy, r), c);
        StarAccepts(x, a, cc, back, greedy, r, c);
        if d(r.pos).Some? {
          var q :| Visits(x, a, cc, back, r, q) && c(q).Some?;
          assert LeadsTo(x, a, cc, back, n, r, q);
        }
      } else {
        assert d(r.pos).Some? ==> LeadsTo(x, a, cc, back, n, r, r.pos);
      }
    }
  }

  // ---- required turns

  /** min required turns, then the others: max counts the turns that remain, m bounds what is
      left of the subject. */
  lemma {:induction false} EcmaTimes(x: Subject, a: Re, cc: nat, back: bool, min: nat, max: nat, greedy: bool, m: nat,
                                     s: St, c: Cont)
    requires Agrees(x, a, cc, back) && StOk(x, s) && Rem(x, back, s) < m && min <= max <= INT32_MAX
    requires TurnsOk(x, a, cc, back, if max == INT32_MAX then max else max - min, greedy)
    ensures RepeatMatcher(x, a, back, min, max, greedy, s.pos, c) ==
            First(Beyond(x, a, cc, back, if max == INT32_MAX then max else max - min, greedy, m,
                Times(x, a, cc, back, min, s)), c)
    decreases min, 0
  {
    hide Matcher, Outcomes, StOk, TurnsOk, Star, UpTo, Beyond;
    var rest := if max == INT32_MAX then max else max - min;
    if min == 0 {
      hide RepeatMatcher;
      BeyondOne(x, a, cc, back, rest, greedy, m, s);
      AgreeTurns(x, a, cc, back, max, greedy, s, c);
    } else {
      hide First;
      OutcomesLeft(x, a, cc, back, s);
      assert Agree(x, a, cc, back, s);
      EcmaTimesAll(x, a, cc, back, min - 1, LessOne(max), greedy, m, Outcomes(x, a, cc, back, s), c);
    }
  }

  lemma BeyondOne(x: Subject, a: Re, cc: nat, back: bool, max: nat, greedy: bool, m: nat, s: St)
    requires Rem(x, back, s) < m
    ensures Beyond(x, a, cc, back, max, greedy, m, [s]) ==
            if max == INT32_MAX then Star(x, a, cc, back, greedy, s) else UpTo(x, a, cc, back, greedy, max, s)
  {
    hide Star, UpTo;
    assert [s][1..] == [];
    assert StarAll(x, a, cc, back, greedy, m, [s]) == Star(x, a, cc, back, greedy, s) + [];
    assert UpToAll(x, a, cc, back, greedy, max, [s]) == UpTo(x, a, cc, back, greedy, max, s) + [];
  }

  lemma {:induction false} EcmaTimesAll(x: Subject, a: Re, cc: nat, back: bool, min: nat, max: nat, greedy: bool,
                                        m: nat, rs: seq<St>, c: Cont)
    requires Agrees(x, a, cc, back) && Left(x, back, m - 1, rs) && min <= max <= INT32_MAX
    requires TurnsOk(x, a, cc, back, if max == INT32_MAX then max else max - min, greedy)
    ensures First(rs, NextTurn(x, a, back, min, max, greedy, c)) ==
            First(Beyond(x, a, cc, back, if max == INT32_MAX then max else max - min, greedy, m,
                TimesAll(x, a, cc, back, min, rs)), c)
    decreases min, 1 + |rs|
  {
    hide Matcher, Outcomes, StOk, RepeatMatcher, Agrees, TurnsOk, Times;
    if rs != [] {
      hide Beyond;
      var rest := if max == INT32_MAX then max else max - min;
      assert rs[0] in rs;
      var t, ts := Times(x, a, cc, back, min, rs[0]), TimesAll(x, a, cc, back, min, rs[1..]);
      EcmaTimes(x, a, cc, back, min, max, greedy, m, rs[0], c);
      EcmaTimesAll(x, a, cc, back, min, max, greedy, m, rs[1..], c);
      BeyondAppend(x, a, cc, back, rest, greedy, m, t, ts);
      FirstAppend(Beyond(x, a, cc, back, rest, greedy, m, t), Beyond(x, a, cc, back, rest, greedy, m, ts), c);
    }
  }

  lemma QuantUnfold(x: Subject, re: Re, cc: nat, back: bool, s: St, c: Cont)
    requires re.Quant? && 0 <= re.min <= re.max <= INT32_MAX && 0 < re.max
    ensures var s0 := EnterQuant(re.atom, cc, re.min, s);
      Outcomes(x, re, cc, back, s) ==
      Beyond(x, re.atom, cc, back, if re.max == INT32_MAX then re.max else re.max - re.min, re.greedy,
          Rem(x, back, s0) + 1,
             Times(x, re.atom, cc, back, re.min, s0))
    ensures Matcher(x, re, back, s.pos, c) == RepeatMatcher(x, re.atom, back, re.min, re.max, re.greedy, s.pos, c)
  {
    hide EnterQuant, Outcomes, StarAll, UpToAll, Times, Rem;
    OutcomesQuant(x, re.atom, re.min, re.max, re.greedy, cc, back, s);
  }

  lemma EcmaQuant(x: Subject, re: Re, cc: nat, back: bool, s: St)
    requires re.Quant? && re.max <= INT32_MAX && StOk(x, s) && Agrees(x, re.atom, cc, back)
    requires 0 <= re.min <= re.max ==>
      TurnsOk(x, re.atom, cc, back, if re.max == INT32_MAX then re.max else re.max - re.min, re.greedy)
    ensures Agree(x, re, cc, back, s)
  {
    var (a, min, max, greedy) := (re.atom, re.min, re.max, re.greedy);
    var s0 := EnterQuant(a, cc, min, s);
    forall c: Cont ensures Matcher(x, re, back, s.pos, c) == First(Outcomes(x, re, cc, back, s), c) {
      if 0 <= min <= max && max > 0 {
        QuantUnfold(x, re, cc, back, s, c);
        EcmaTimes(x, a, cc, back, min, max, greedy, Rem(x, back, s0) + 1, s0, c);
      } else {
        FirstOne(s0, c);
      }
    }
  }

  // ---- the condition is needed

  /** Where a loop or a single turn gets to depends on the position alone. */
  lemma {:induction false} SameRest(x: Subject, a: Re, cc: nat, back: bool, n: nat, greedy: bool, s: St, t: St, c: Cont)
    requires Agrees(x, a, cc, back) && StOk(x, s) && StOk(x, t) && s.pos == t.pos && n <= INT32_MAX
    ensures First(Rest(x, a, cc, back, n, greedy, s), c) == First(Rest(x, a, cc, back, n, greedy, t), c)
    decreases if n == INT32_MAX then Rem(x, back, s) else n
  {
    hide Outcomes, Matcher, First, Star;
    if n == 0 {
      FirstOne(s, c);
      FirstOne(t, c);
    } else {
      hide UpTo;
      var m := Rem(x, back, s);
      var e: Cont := q => First(Beyond(x, a, cc, back, LessOne(n), greedy, m, [St(q, [])]), c);
      forall u | u == s || u == t
        ensures First(Rest(x, a, cc, back, n, greedy, u), c) ==
                Choose(greedy, First(Outcomes(x, a, cc, back, u), e), c(u.pos))
      {
        TurnPlaces(x, a, cc, back, u);
        forall r | r in Outcomes(x, a, cc, back, u)
          ensures e(r.pos) == First(Beyond(x, a, cc, back, LessOne(n), greedy, m, [r]), c)
        {
          var r0 := St(r.pos, []);
          OkPos(x, r, r0);
          hide StOk, Agrees, Beyond, Rest;
          BeyondState(x, a, cc, back, n, greedy, m, r);
          BeyondState(x, a, cc, back, n, greedy, m, r0);
          if n < INT32_MAX || Rem(x, back, r) < m {
            SameRest(x, a, cc, back, LessOne(n), greedy, r, r0, c);
          } else {
            FirstOne(r, c);
            FirstOne(r0, c);
          }
        }
        hide Beyond, Rest;
        CodeTurn(x, a, cc, back, n, greedy, u, c, e);
      }
      assert Agree(x, a, cc, back, s) && Agree(x, a, cc, back, t);
      assert Matcher(x, a, back, s.pos, e) == First(Outcomes(x, a, cc, back, s), e);
      assert Matcher(x, a, back, t.pos, e) == First(Outcomes(x, a, cc, back, t), e);
    }
  }

  /** What a loop or a single turn finds is what it leads to. */
  lemma LeadValue(x: Subject, a: Re, cc: nat, back: bool, n: nat, s: St, c: Cont, r: St)
    requires StOk(x, s) && (n == 1 || n == INT32_MAX) && LaterAgree(x, a, cc, back, n, true, s, c)
    requires r in Outcomes(x, a, cc, back, s) && Rem(x, back, r) < Rem(x, back, s)
    ensures var v := Optional(x, a, back, LessOne(n), true, s.pos, c)(r.pos);
      && (v.Some? ==> exists q :: LeadsTo(x, a, cc, back, n, r, q) && c(q) == v)
      && forall q | LeadsTo(x, a, cc, back, n, r, q) && c(q).Some? :: v.Some?
    ensures forall q | LeadsTo(x, a, cc, back, n, r, q) :: q != s.pos
  {
    hide Outcomes, StOk, Star, UpTo, First, Visits;
    var v := Optional(x, a, back, LessOne(n), true, s.pos, c)(r.pos);
    TurnPlaces(x, a, cc, back, s);
    if n == INT32_MAX {
      hide RepeatMatcher;
      assert v == First(Star(x, a, cc, back, true, r), c);
      StarAccepts(x, a, cc, back, true, r, c);
      if v.Some? {
        var q :| Visits(x, a, cc, back, r, q) && c(q) == v;
        assert LeadsTo(x, a, cc, back, n, r, q);
      }
      forall q | LeadsTo(x, a, cc, back, n, r, q) ensures q != s.pos { VisitsAhead(x, a, cc, back, r, q); }
    } else {
      assert v == c(r.pos) && LeadsTo(x, a, cc, back, n, r, r.pos);
    }
  }

  /** A new place behind an empty turn: accepted with the state itself, it is what the
      specification finds, and the code finds the state. */
  lemma Overtaken(x: Subject, a: Re, cc: nat, back: bool, n: nat, s: St, r: St, q: int, c: Cont)
    requires StOk(x, s) && Agree(x, a, cc, back, s) && (n == 1 || n == INT32_MAX)
    requires r in BehindTurns(x, a, cc, back, s) && Rem(x, back, r) < Rem(x, back, s)
    requires LeadsTo(x, a, cc, back, n, r, q) && LaterAgree(x, a, cc, back, n, true, s, c)
    requires forall f | f in FrontTurns(x, a, cc, back, s) :: !LeadsTo(x, a, cc, back, n, f, q)
    requires c == (t => if t == q then Some(1) else if t == s.pos then Some(0) else None)
    ensures RepeatMatcher(x, a, back, 0, n, true, s.pos, c) == Some(1)
    ensures First(Rest(x, a, cc, back, n, true, s), c) == Some(0)
  {
    hide Outcomes, StOk, Rest, LaterAgree, RepeatMatcher, Optional, Followed, LeadsTo, Agree, First;
    var (o, front, behind) := (Outcomes(x, a, cc, back, s), FrontTurns(x, a, cc, back, s),
        BehindTurns(x, a, cc, back, s));
    var (d, e) := (Optional(x, a, back, LessOne(n), true, s.pos, c), Followed(x, a, back, n, true, s.pos, c));
    SpecTurn(x, a, cc, back, n, true, s, c);
    FollowedTurn(x, a, cc, back, n, true, s, c);
    TurnEnds(x, a, back, n, true, s, c);
    TurnPlaces(x, a, cc, back, s);
    assert front + behind == o;
    forall t | t in o && Rem(x, back, t) < Rem(x, back, s)
      ensures (d(t.pos).Some? ==> d(t.pos) == Some(1)) && (t in front ==> d(t.pos) == None)
        && (t == r ==> d(t.pos).Some?)
    {
      LeadValue(x, a, cc, back, n, s, c, t);
    }
    LeadValue(x, a, cc, back, n, s, c, r);
    assert behind[0] in o && behind[0].pos == s.pos;
    hide FrontTurns, BehindTurns;
    FirstNone(front, d);
    FirstSame(front, d, e);
    FirstAppend(front, behind, e);
    FirstHead(behind, e);
    FirstNone(o, d);
    FirstFrom(o, d);
  }

  lemma FirstHead(rs: seq<St>, c: Cont)
    requires rs != [] && c(rs[0].pos).Some?
    ensures First(rs, c) == c(rs[0].pos)
  {
  }

  /** The loop or the single turn agrees at s and after each turn. */
  ghost predicate RestAgrees(x: Subject, a: Re, cc: nat, back: bool, n: nat, s: St) {
    forall c: Cont ::
      && RepeatMatcher(x, a, back, 0, n, true, s.pos, c) == First(Rest(x, a, cc, back, n, true, s), c)
      && LaterAgree(x, a, cc, back, n, true, s, c)
  }

  lemma NothingNewNeeded(x: Subject, a: Re, cc: nat, back: bool, n: nat, s: St)
    requires StOk(x, s) && Agree(x, a, cc, back, s) && (n == 1 || n == INT32_MAX)
    requires RestAgrees(x, a, cc, back, n, s)
    ensures NothingNew(x, a, cc, back, n, s)
  {
    hide Outcomes, StOk, LeadsTo, Agree, RepeatMatcher, First, Rest, LaterAgree, FrontTurns, BehindTurns;
    forall r, q | r in BehindTurns(x, a, cc, back, s) && Rem(x, back, r) < Rem(x, back, s)
        && LeadsTo(x, a, cc, back, n, r, q)
      ensures exists f :: f in FrontTurns(x, a, cc, back, s) && LeadsTo(x, a, cc, back, n, f, q)
    {
      if forall f | f in FrontTurns(x, a, cc, back, s) :: !LeadsTo(x, a, cc, back, n, f, q) {
        var c: Cont := t => if t == q then Some(1) else if t == s.pos then Some(0) else None;
        assert LaterAgree(x, a, cc, back, n, true, s, c);
        Overtaken(x, a, cc, back, n, s, r, q, c);
      }
    }
  }

  lemma QuantRest(x: Subject, a: Re, cc: nat, back: bool, n: nat, greedy: bool, s: St, c: Cont)
    requires 0 < n <= INT32_MAX
    ensures var re := Quant(a, 0, n, greedy);
      && Matcher(x, re, back, s.pos, c) == RepeatMatcher(x, a, back, 0, n, greedy, s.pos, c)
      && Outcomes(x, re, cc, back, s) == Rest(x, a, cc, back, n, greedy, EnterQuant(a, cc, 0, s))
      && EnterQuant(a, cc, 0, s).pos == s.pos
  {
    var s0 := EnterQuant(a, cc, 0, s);
    assert s0.pos == s.pos;
    hide EnterQuant, Star, UpTo, RepeatMatcher;
    QuantUnfold(x, Quant(a, 0, n, greedy), cc, back, s, c);
    assert Times(x, a, cc, back, 0, s0) == [s0];
    hide Outcomes, Matcher, Beyond;
    BeyondOne(x, a, cc, back, n, greedy, Rem(x, back, s0) + 1, s0);
  }

  lemma QuantAgreesAt(x: Subject, a: Re, cc: nat, back: bool, n: nat, s: St)
    requires Agrees(x, a, cc, back) && (n == 1 || n == INT32_MAX) && StOk(x, s)
    requires Agrees(x, Quant(a, 0, n, true), cc, back)
    ensures RestAgrees(x, a, cc, back, n, s)
  {
    TurnPlaces(x, a, cc, back, s);
    hide Outcomes, StOk, Star, Matcher, First;
    forall c: Cont
      ensures RepeatMatcher(x, a, back, 0, n, true, s.pos, c) == First(Rest(x, a, cc, back, n, true, s), c)
      ensures LaterAgree(x, a, cc, back, n, true, s, c)
    {
      QuantAgreesHere(x, a, cc, back, n, s, c);
      forall r | r in Outcomes(x, a, cc, back, s) && (n < INT32_MAX || Rem(x, back, r) < Rem(x, back, s))
        ensures RepeatMatcher(x, a, back, 0, LessOne(n), true, r.pos, c) ==
                First(Rest(x, a, cc, back, LessOne(n), true, r), c)
      {
        if n == 1 { FirstOne(r, c); } else { QuantAgreesHere(x, a, cc, back, n, r, c); }
      }
    }
  }

  lemma QuantAgreesHere(x: Subject, a: Re, cc: nat, back: bool, n: nat, s: St, c: Cont)
    requires Agrees(x, a, cc, back) && (n == 1 || n == INT32_MAX) && StOk(x, s)
    requires Agrees(x, Quant(a, 0, n, true), cc, back)
    ensures RepeatMatcher(x, a, back, 0, n, true, s.pos, c) == First(Rest(x, a, cc, back, n, true, s), c)
  {
    hide Outcomes, StOk, Matcher, First, Rest, RepeatMatcher, EnterQuant;
    var s0 := EnterQuant(a, cc, 0, s);
    QuantRest(x, a, cc, back, n, true, s, c);
    OkPos(x, s, s0);
    SameRest(x, a, cc, back, n, true, s, s0, c);
    assert Agree(x, Quant(a, 0, n, true), cc, back, s);
  }

  /** An unbounded loop and a single optional turn agree with the specification, at every place
      and whatever follows, exactly when no turn behind an empty one leads anywhere new. */
  lemma QuantAgreesIff(x: Subject, a: Re, cc: nat, back: bool, n: nat, greedy: bool)
    requires Agrees(x, a, cc, back) && (n == 1 || n == INT32_MAX)
    ensures Agrees(x, Quant(a, 0, n, greedy), cc, back) <==> TurnsOk(x, a, cc, back, n, greedy)
  {
    hide Outcomes, StOk, Matcher, First, Rest, RepeatMatcher, NothingNew, RestAgrees;
    if TurnsOk(x, a, cc, back, n, greedy) { CountAgrees(x, a, cc, back, n, greedy); }
    if greedy && Agrees(x, Quant(a, 0, n, true), cc, back) {
      forall s | StOk(x, s) ensures NothingNew(x, a, cc, back, n, s) {
        QuantAgreesAt(x, a, cc, back, n, s);
        assert Agree(x, a, cc, back, s);
        hide Agree, Agrees;
        NothingNewNeeded(x, a, cc, back, n, s);
      }
    }
  }

  lemma CountAgrees(x: Subject, a: Re, cc: nat, back: bool, n: nat, greedy: bool)
    requires Agrees(x, a, cc, back) && TurnsOk(x, a, cc, back, n, greedy) && 0 < n <= INT32_MAX
    ensures Agrees(x, Quant(a, 0, n, greedy), cc, back)
  {
    hide Outcomes, StOk, Matcher, First, Rest, RepeatMatcher, TurnsOk, EnterQuant;
    forall s, c: Cont | StOk(x, s)
      ensures Matcher(x, Quant(a, 0, n, greedy), back, s.pos, c) ==
              First(Outcomes(x, Quant(a, 0, n, greedy), cc, back, s), c)
    {
      QuantRest(x, a, cc, back, n, greedy, s, c);
      var s0 := EnterQuant(a, cc, 0, s);
      OkPos(x, s, s0);
      AgreeTurns(x, a, cc, back, n, greedy, s0, c);
    }
  }

  /** All bounded greedy counts agree exactly when every turn behind an empty one ends where one
      in front of it does. */
  lemma AllCountsIff(x: Subject, a: Re, cc: nat, back: bool)
    requires Agrees(x, a, cc, back)
    ensures (forall n: nat | 0 < n < INT32_MAX :: Agrees(x, Quant(a, 0, n, true), cc, back)) <==>
            TurnsOk(x, a, cc, back, 1, true)
  {
    hide Agrees, NothingNew, StOk;
    if TurnsOk(x, a, cc, back, 1, true) {
      forall n: nat | 0 < n < INT32_MAX ensures Agrees(x, Quant(a, 0, n, true), cc, back) {
        forall s | StOk(x, s) ensures NothingNew(x, a, cc, back, n, s) { SameLead(x, a, cc, back, 1, n, s); }
        CountAgrees(x, a, cc, back, n, true);
      }
    } else {
      QuantAgreesIff(x, a, cc, back, 1, true);
      assert 1 < INT32_MAX;
    }
  }
}
