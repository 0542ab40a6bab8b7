/** The matchers of ECMA-262 without continuations, as the list of places they try in order. Generated
    code reaches the same places for every expression; the two agree exactly when they reach each
    place for the first time in the same order. */
module RegexPlaces {
  import opened Options
  import opened RegexSyntax
  import opened RegexMatch
  import opened RegexEcma
  import Lists

  // ---- the places the specification tries

  /** Where a match of re from p may end, first choice first. */
  function EcmaPlaces(x: Subject, re: Re, back: bool, p: int): seq<int>
    decreases re, 0, 0, 0, 0, 0
  {
    match re
    case Empty => [p]
    case Chr(_) | AnyChar | DotChar | Class(_) =>
      (match CharStep(x, re, back, p) case None => [] case Some(q) => [q])
    case Bol | Eol | WordB(_) => if Holds(x, re, p) then [p] else []
    case Cat(l, r) =>
      if back then ThenPlaces(x, l, back, EcmaPlaces(x, r, back, p))
      else ThenPlaces(x, r, back, EcmaPlaces(x, l, back, p))
    case Alt(l, r) => EcmaPlaces(x, l, back, p) + EcmaPlaces(x, r, back, p)
    case Capture(b) => EcmaPlaces(x, b, back, p)
    case Look(neg, behind, b) => if (EcmaPlaces(x, b, behind, p) != []) != neg then [p] else []
    case Quant(a, min, max, greedy) =>
      if min < 0 || max < min then [] else RepeatPlaces(x, a, back, min, max, greedy, p)
  }

  function ThenPlaces(x: Subject, re: Re, back: bool, ps: seq<int>): seq<int>
    decreases re, 1, 0, 0, 0, |ps|
  {
    if ps == [] then [] else EcmaPlaces(x, re, back, ps[0]) + ThenPlaces(x, re, back, ps[1..])
  }

  function RepeatPlaces(x: Subject, a: Re, back: bool, min: nat, max: nat, greedy: bool, p: int): seq<int>
    decreases a, 2, 2 * min, Ahead(x, back, p), 1, 0
  {
    if max == 0 then [p]
    else if min > 0 then RequiredPlaces(x, a, back, min - 1, LessOne(max), greedy, EcmaPlaces(x, a, back, p))
    else
      var turns := OptionalPlaces(x, a, back, LessOne(max), greedy, Ahead(x, back, p), EcmaPlaces(x, a, back, p));
      if greedy then turns + [p] else [p] + turns
  }

  function RequiredPlaces(x: Subject, a: Re, back: bool, min: nat, max: nat, greedy: bool, ps: seq<int>): seq<int>
    decreases a, 2, 2 * min + 1, 0, 0, |ps|
  {
    if ps == [] then []
    else RepeatPlaces(x, a, back, min, max, greedy, ps[0]) + RequiredPlaces(x, a, back, min, max, greedy, ps[1..])
  }

  /** Go on from the places with less than m characters ahead. */
  function OptionalPlaces(x: Subject, a: Re, back: bool, max: nat, greedy: bool, m: nat, ps: seq<int>): seq<int>
    decreases a, 2, 0, m, 0, |ps|
  {
    if ps == [] then []
    else
      (if Ahead(x, back, ps[0]) < m then RepeatPlaces(x, a, back, 0, max, greedy, ps[0]) else []) +
      OptionalPlaces(x, a, back, max, greedy, m, ps[1..])
  }

  /** The result of the first place from which the continuation succeeds. */
  ghost function FirstPlace(ps: seq<int>, c: Cont): Opt {
    if ps == [] then None else if c(ps[0]).Some? then c(ps[0]) else FirstPlace(ps[1..], c)
  }

  lemma {:induction false} PlaceAppend(a: seq<int>, b: seq<int>, c: Cont)
    ensures FirstPlace(a + b, c) == if FirstPlace(a, c).Some? then FirstPlace(a, c) else FirstPlace(b, c)
    decreases |a|
  {
    if a == [] {
      assert a + b == b;
    } else {
      Lists.TailAppend(a, b);
      PlaceAppend(a[1..], b, c);
    }
  }

  lemma PlaceOne(p: int, c: Cont)
    ensures FirstPlace([p], c) == c(p)
  {
    assert [p][1..] == [];
  }

  // ---- they are what the matchers try

  ghost predicate Listed(x: Subject, re: Re, back: bool) {
    forall p, c: Cont :: Matcher(x, re, back, p, c) == FirstPlace(EcmaPlaces(x, re, back, p), c)
  }

  /** The specification's matcher returns what the continuation returns for the first place in
      the list that it accepts. */
  lemma {:induction false} MatcherPlaces(x: Subject, re: Re, back: bool)
    ensures Listed(x, re, back)
    decreases re
  {
    match re
    case Cat(l, r) =>
      MatcherPlaces(x, l, back);
      MatcherPlaces(x, r, back);
      if back { CatPlaces(x, re, r, l, back); } else { CatPlaces(x, re, l, r, back); }
    case Alt(l, r) =>
      MatcherPlaces(x, l, back);
      MatcherPlaces(x, r, back);
      AltPlaces(x, re, back);
    case Capture(b) => MatcherPlaces(x, b, back);
    case Look(_, behind, b) =>
      MatcherPlaces(x, b, behind);
      LookPlaces(x, re, back);
    case Quant(a, min, max, greedy) =>
      MatcherPlaces(x, a, back);
      QuantPlaces(x, re, back);
    case _ => LeafPlaces(x, re, back);
  }

  lemma LeafPlaces(x: Subject, re: Re, back: bool)
    requires re.Empty? || IsCharNode(re) || re.Bol? || re.Eol? || re.WordB?
    ensures Listed(x, re, back)
  {
    hide Holds, CharStep;
    forall p, c: Cont ensures Matcher(x, re, back, p, c) == FirstPlace(EcmaPlaces(x, re, back, p), c) {
      PlaceOne(p, c);
      if IsCharNode(re) && CharStep(x, re, back, p).Some? { PlaceOne(CharStep(x, re, back, p).value, c); }
    }
  }

  lemma AltPlaces(x: Subject, re: Re, back: bool)
    requires re.Alt? && Listed(x, re.l, back) && Listed(x, re.r, back)
    ensures Listed(x, re, back)
  {
    forall p, c: Cont ensures Matcher(x, re, back, p, c) == FirstPlace(EcmaPlaces(x, re, back, p), c) {
      PlaceAppend(EcmaPlaces(x, re.l, back, p), EcmaPlaces(x, re.r, back, p), c);
    }
  }

  lemma LookPlaces(x: Subject, re: Re, back: bool)
    requires re.Look? && Listed(x, re.body, re.behind)
    ensures Listed(x, re, back)
  {
    forall p, c: Cont ensures Matcher(x, re, back, p, c) == FirstPlace(EcmaPlaces(x, re, back, p), c) {
      PlaceOne(p, c);
    }
  }

  lemma {:induction false} ThenListed(x: Subject, re: Re, back: bool, ps: seq<int>, c: Cont)
    requires Listed(x, re, back)
    ensures FirstPlace(ps, Then(x, re, back, c)) == FirstPlace(ThenPlaces(x, re, back, ps), c)
    decreases |ps|
  {
    hide Matcher, EcmaPlaces;
    if ps != [] {
      ThenListed(x, re, back, ps[1..], c);
      PlaceAppend(EcmaPlaces(x, re, back, ps[0]), ThenPlaces(x, re, back, ps[1..]), c);
    }
  }

  lemma CatPlaces(x: Subject, re: Re, f: Re, g: Re, back: bool)
    requires re.Cat? && (f, g) == (if back then (re.r, re.l) else (re.l, re.r))
    requires Listed(x, f, back) && Listed(x, g, back)
    ensures Listed(x, re, back)
  {
    forall p, c: Cont ensures Matcher(x, re, back, p, c) == FirstPlace(EcmaPlaces(x, re, back, p), c) {
      ThenListed(x, g, back, EcmaPlaces(x, f, back, p), c);
    }
  }

  lemma {:induction false} RepeatListed(x: Subject, a: Re, back: bool, min: nat, max: nat, greedy: bool, p: int,
                                        c: Cont)
    requires Listed(x, a, back)
    ensures RepeatMatcher(x, a, back, min, max, greedy, p, c) ==
            FirstPlace(RepeatPlaces(x, a, back, min, max, greedy, p), c)
    decreases 2 * min, Ahead(x, back, p), 1, 0
  {
    hide Matcher, EcmaPlaces;
    var ps := EcmaPlaces(x, a, back, p);
    PlaceOne(p, c);
    if max > 0 && min > 0 {
      RequiredListed(x, a, back, min - 1, LessOne(max), greedy, ps, c);
    } else if max > 0 {
      hide OptionalPlaces, Optional, FirstPlace;
      var turns := OptionalPlaces(x, a, back, LessOne(max), greedy, Ahead(x, back, p), ps);
      OptionalListed(x, a, back, LessOne(max), greedy, p, ps, c);
      PlaceAppend(turns, [p], c);
      PlaceAppend([p], turns, c);
    }
  }

  lemma {:induction false} RequiredListed(x: Subject, a: Re, back: bool, min: nat, max: nat, greedy: bool, ps: seq<int>,
                                          c: Cont)
    requires Listed(x, a, back)
    ensures FirstPlace(ps, NextTurn(x, a, back, min, max, greedy, c)) ==
            FirstPlace(RequiredPlaces(x, a, back, min, max, greedy, ps), c)
    decreases 2 * min + 1, 0, 0, |ps|
  {
    hide RepeatMatcher, RepeatPlaces, Listed;
    if ps != [] {
      RepeatListed(x, a, back, min, max, greedy, ps[0], c);
      RequiredListed(x, a, back, min, max, greedy, ps[1..], c);
      PlaceAppend(RepeatPlaces(x, a, back, min, max, greedy, ps[0]),
          RequiredPlaces(x, a, back, min, max, greedy, ps[1..]), c);
    }
  }

  lemma {:induction false} OptionalListed(x: Subject, a: Re, back: bool, max: nat, greedy: bool, p: int, ps: seq<int>,
                                          c: Cont)
    requires Listed(x, a, back)
    ensures FirstPlace(ps, Optional(x, a, back, max, greedy, p, c)) ==
            FirstPlace(OptionalPlaces(x, a, back, max, greedy, Ahead(x, back, p), ps), c)
    decreases 0, Ahead(x, back, p), 0, |ps|
  {
    hide RepeatMatcher, RepeatPlaces, Listed;
    if ps != [] {
      var m := Ahead(x, back, p);
      OptionalListed(x, a, back, max, greedy, p, ps[1..], c);
      if Ahead(x, back, ps[0]) < m { RepeatListed(x, a, back, 0, max, greedy, ps[0], c); }
      PlaceAppend(if Ahead(x, back, ps[0]) < m then RepeatPlaces(x, a, back, 0, max, greedy, ps[0]) else [],
          OptionalPlaces(x, a, back, max, greedy, m, ps[1..]), c);
    }
  }

  lemma QuantPlaces(x: Subject, re: Re, back: bool)
    requires re.Quant? && Listed(x, re.atom, back)
    ensures Listed(x, re, back)
  {
    forall p, c: Cont ensures Matcher(x, re, back, p, c) == FirstPlace(EcmaPlaces(x, re, back, p), c) {
      if 0 <= re.min <= re.max { RepeatListed(x, re.atom, back, re.min, re.max, re.greedy, p, c); }
    }
  }

  // ---- agreement is the order in which places are first reached

  function Places(rs: seq<St>): (r: seq<int>)
    ensures |r| == |rs| && forall i | 0 <= i < |rs| :: r[i] == rs[i].pos
  {
    if rs == [] then [] else [rs[0].pos] + Places(rs[1..])
  }

  lemma {:induction false} FirstPlaces(rs: seq<St>, c: Cont)
    ensures First(rs, c) == FirstPlace(Places(rs), c)
    decreases |rs|
  {
    if rs != [] { FirstPlaces(rs[1..], c); }
  }

  ghost predicate Distinct(ps: seq<int>) { forall i, j | 0 <= i < j < |ps| :: ps[i] != ps[j] }

  /** Each place where it first occurs. */
  function Fresh(ps: seq<int>): (r: seq<int>)
    ensures Distinct(r) && forall q :: q in r <==> q in ps
  {
    if ps == [] then []
    else
      var n := |ps| - 1;
      var r := Fresh(ps[..n]);
      assert ps == ps[..n] + [ps[n]];
      if ps[n] in r then r else r + [ps[n]]
  }

  lemma {:induction false} PlaceNone(ps: seq<int>, c: Cont)
    ensures FirstPlace(ps, c) == None <==> forall q | q in ps :: c(q) == None
    decreases |ps|
  {
    if ps != [] {
      PlaceNone(ps[1..], c);
      assert forall q :: q in ps <==> q == ps[0] || q in ps[1..];
    }
  }

  lemma {:induction false} FreshFirst(ps: seq<int>, c: Cont)
    ensures FirstPlace(ps, c) == FirstPlace(Fresh(ps), c)
    decreases |ps|
  {
    if ps != [] {
      var n := |ps| - 1;
      var r := Fresh(ps[..n]);
      FreshFirst(ps[..n], c);
      assert ps == ps[..n] + [ps[n]];
      PlaceAppend(ps[..n], [ps[n]], c);
      PlaceAppend(r, [ps[n]], c);
      PlaceOne(ps[n], c);
      PlaceNone(r, c);
    }
  }

  ghost predicate SameFirst(a: seq<int>, b: seq<int>) { forall c: Cont :: FirstPlace(a, c) == FirstPlace(b, c) }

  /** Lists without repetition that no continuation tells apart. */
  lemma {:induction false} DistinctSame(a: seq<int>, b: seq<int>)
    requires Distinct(a) && Distinct(b) && SameFirst(a, b)
    ensures a == b
    decreases |a|
  {
    var here: Cont := q => Some(q);
    assert FirstPlace(a, here) == FirstPlace(b, here);
    if a != [] && b != [] {
      var p := a[0];
      assert b[0] == p;
      forall c: Cont ensures FirstPlace(a[1..], c) == FirstPlace(b[1..], c) {
        var c': Cont := q => if q == p then None else c(q);
        assert FirstPlace(a, c') == FirstPlace(b, c');
        SameBut(a[1..], c, c', p);
        SameBut(b[1..], c, c', p);
      }
      DistinctSame(a[1..], b[1..]);
      assert a == [p] + a[1..] && b == [p] + b[1..];
    }
  }

  lemma {:induction false} SameBut(ps: seq<int>, c: Cont, d: Cont, p: int)
    requires p !in ps && forall q | q != p :: c(q) == d(q)
    ensures FirstPlace(ps, c) == FirstPlace(ps, d)
    decreases |ps|
  {
    if ps != [] { SameBut(ps[1..], c, d, p); }
  }

  /** For every expression: generated code and specification agree from s on, whatever follows,
      exactly when their lists reach the same places first in the same order. */
  lemma AgreeIff(x: Subject, re: Re, cc: nat, back: bool, s: St)
    ensures Agree(x, re, cc, back, s) <==>
            Fresh(EcmaPlaces(x, re, back, s.pos)) == Fresh(Places(Outcomes(x, re, cc, back, s)))
  {
    hide Outcomes, Matcher, EcmaPlaces;
    var (a, b) := (EcmaPlaces(x, re, back, s.pos), Places(Outcomes(x, re, cc, back, s)));
    MatcherPlaces(x, re, back);
    forall c: Cont
      ensures Matcher(x, re, back, s.pos, c) == FirstPlace(Fresh(a), c)
      ensures First(Outcomes(x, re, cc, back, s), c) == FirstPlace(Fresh(b), c)
    {
      FirstPlaces(Outcomes(x, re, cc, back, s), c);
      FreshFirst(a, c);
      FreshFirst(b, c);
    }
    if Agree(x, re, cc, back, s) {
      forall c: Cont ensures FirstPlace(Fresh(a), c) == FirstPlace(Fresh(b), c) {
        assert Matcher(x, re, back, s.pos, c) == First(Outcomes(x, re, cc, back, s), c);
      }
      DistinctSame(Fresh(a), Fresh(b));
    }
  }
}
