/** Outcomes stay inside the subject on code-point boundaries, never move against the
    direction of travel, and move strictly when the expression always consumes. */
module RegexProgress {
  import opened Bytes
  import opened RegexSyntax
  import opened RegexText
  import opened RegexMatch

  /** Every state is well placed and has at most m characters left. */
  ghost predicate Left(x: Subject, back: bool, m: int, rs: seq<St>) {
    forall r | r in rs :: StOk(x, r) && Rem(x, back, r) <= m
  }

  /** Bound on what is left after re has matched. */
  function After(x: Subject, re: Re, back: bool, s: St): int {
    if NonNull(re) then Rem(x, back, s) - 1 else Rem(x, back, s)
  }

  lemma CharLeft(x: Subject, re: Re, back: bool, s: St)
    requires IsCharNode(re) && StOk(x, s)
    ensures Left(x, back, Rem(x, back, s) - 1, MatchChar(x, re, back, s))
  {
    if back {
      if s.pos > 0 { BackBoundary(x.text, s.pos); }
    } else if s.pos < |x.text.units| {
      NextBoundary(x.text, s.pos);
    }
  }

  lemma SetAllLeft(x: Subject, back: bool, m: int, sts: seq<St>, k: int)
    requires Left(x, back, m, sts)
    ensures Left(x, back, m, SetAll(sts, k))
  {
    forall r | r in SetAll(sts, k) ensures StOk(x, r) && Rem(x, back, r) <= m {
      var i :| 0 <= i < |sts| && SetAll(sts, k)[i] == r;
      assert sts[i] in sts;
    }
  }

  lemma {:induction false} OutcomesLeft(x: Subject, re: Re, cc: nat, back: bool, s: St)
    requires StOk(x, s)
    ensures Left(x, back, After(x, re, back, s), Outcomes(x, re, cc, back, s))
    decreases re, 0, 1, 0, 0
  {
    hide Outcomes;
    match re
    case Cat(_, _) => PairLeft(x, re, cc, back, s);
    case Alt(_, _) => PairLeft(x, re, cc, back, s);
    case Capture(b) =>
      var s1 := s.(caps := SetCap(s.caps, if back then 2 * cc + 1 else 2 * cc, s.pos));
      OutcomesLeft(x, b, cc + 1, back, s1);
      OutcomesCapture(x, b, cc, back, s);
      SetAllLeft(x, back, After(x, b, back, s), Outcomes(x, b, cc + 1, back, s1), if back then 2 * cc else 2 * cc + 1);
    case Quant(a, min, max, greedy) => QuantLeft(x, a, cc, back, min, max, greedy, s);
    case _ => LeafLeft(x, re, cc, back, s);
  }

  lemma LeafLeft(x: Subject, re: Re, cc: nat, back: bool, s: St)
    requires StOk(x, s) && !re.Cat? && !re.Alt? && !re.Capture? && !re.Quant?
    ensures Left(x, back, After(x, re, back, s), Outcomes(x, re, cc, back, s))
  {
    hide MatchChar, Holds;
    if IsCharNode(re) { CharLeft(x, re, back, s); }
  }

  lemma {:induction false} PairLeft(x: Subject, re: Re, cc: nat, back: bool, s: St)
    requires StOk(x, s) && (re.Cat? || re.Alt?)
    ensures Left(x, back, After(x, re, back, s), Outcomes(x, re, cc, back, s))
    decreases re, 0, 0, 0, 0
  {
    hide Outcomes, OutcomesAll;
    match re
    case Cat(l, r) =>
      OutcomesCat(x, l, r, cc, back, s);
      if back {
        OutcomesLeft(x, r, cc + NCap(l), back, s);
        AllLeft(x, l, cc, back, After(x, r, back, s), Outcomes(x, r, cc + NCap(l), back, s));
      } else {
        OutcomesLeft(x, l, cc, back, s);
        AllLeft(x, r, cc + NCap(l), back, After(x, l, back, s), Outcomes(x, l, cc, back, s));
      }
    case Alt(l, r) =>
      OutcomesAlt(x, l, r, cc, back, s);
      OutcomesLeft(x, l, cc, back, s);
      OutcomesLeft(x, r, cc + NCap(l), back, s);
  }

  lemma {:induction false} QuantLeft(x: Subject, a: Re, cc: nat, back: bool, min: int, max: int, greedy: bool, s: St)
    requires StOk(x, s)
    ensures Left(x, back, After(x, Quant(a, min, max, greedy), back, s),
        Outcomes(x, Quant(a, min, max, greedy), cc, back, s))
    decreases a, 3, 0, 0, 0
  {
    var s0 := EnterQuant(a, cc, min, s);
    if 0 <= min <= max && max > 0 {
      var rs := Times(x, a, cc, back, min, s0);
      TimesLeft(x, a, cc, back, min, s0);
      var m := if min > 0 then After(x, a, back, s0) else Rem(x, back, s0);
      if max == INT32_MAX {
        StarAllLeft(x, a, cc, back, greedy, Rem(x, back, s0) + 1, m, rs);
      } else {
        UpToAllLeft(x, a, cc, back, greedy, max - min, m, rs);
      }
    }
  }

  lemma {:induction false} AllLeft(x: Subject, re: Re, cc: nat, back: bool, m: int, sts: seq<St>)
    requires Left(x, back, m, sts)
    ensures Left(x, back, if NonNull(re) then m - 1 else m, OutcomesAll(x, re, cc, back, sts))
    decreases re, 1, 0, 0, |sts|
  {
    if sts != [] {
      OutcomesLeft(x, re, cc, back, sts[0]);
      AllLeft(x, re, cc, back, m, sts[1..]);
    }
  }

  lemma {:induction false} TimesLeft(x: Subject, a: Re, cc: nat, back: bool, n: nat, s: St)
    requires StOk(x, s)
    ensures Left(x, back, if n > 0 then After(x, a, back, s) else Rem(x, back, s), Times(x, a, cc, back, n, s))
    decreases a, 2, n, 0, 0
  {
    if n > 0 {
      OutcomesLeft(x, a, cc, back, s);
      TimesAllLeft(x, a, cc, back, n - 1, After(x, a, back, s), Outcomes(x, a, cc, back, s));
    }
  }

  lemma {:induction false} TimesAllLeft(x: Subject, a: Re, cc: nat, back: bool, n: nat, m: int, sts: seq<St>)
    requires Left(x, back, m, sts)
    ensures Left(x, back, m, TimesAll(x, a, cc, back, n, sts))
    decreases a, 2, n, 1, |sts|
  {
    if sts != [] {
      TimesLeft(x, a, cc, back, n, sts[0]);
      TimesAllLeft(x, a, cc, back, n, m, sts[1..]);
    }
  }

  lemma {:induction false} UpToLeft(x: Subject, a: Re, cc: nat, back: bool, greedy: bool, n: nat, s: St)
    requires StOk(x, s)
    ensures Left(x, back, Rem(x, back, s), UpTo(x, a, cc, back, greedy, n, s))
    decreases a, 2, n, 0, 0
  {
    if n > 0 {
      OutcomesLeft(x, a, cc, back, s);
      UpToAllLeft(x, a, cc, back, greedy, n - 1, After(x, a, back, s), Outcomes(x, a, cc, back, s));
    }
  }

  lemma {:induction false} UpToAllLeft(x: Subject, a: Re, cc: nat, back: bool, greedy: bool, n: nat, m: int,
                                       sts: seq<St>)
    requires Left(x, back, m, sts)
    ensures Left(x, back, m, UpToAll(x, a, cc, back, greedy, n, sts))
    decreases a, 2, n, 1, |sts|
  {
    if sts != [] {
      UpToLeft(x, a, cc, back, greedy, n, sts[0]);
      UpToAllLeft(x, a, cc, back, greedy, n, m, sts[1..]);
    }
  }

  lemma {:induction false} StarLeft(x: Subject, a: Re, cc: nat, back: bool, greedy: bool, s: St)
    requires StOk(x, s)
    ensures Left(x, back, Rem(x, back, s), Star(x, a, cc, back, greedy, s))
    decreases a, 2, Rem(x, back, s), 1, 0
  {
    OutcomesLeft(x, a, cc, back, s);
    StarAllLeft(x, a, cc, back, greedy, Rem(x, back, s), After(x, a, back, s), Outcomes(x, a, cc, back, s));
  }

  lemma {:induction false} StarAllLeft(x: Subject, a: Re, cc: nat, back: bool, greedy: bool, bound: nat, m: int,
                                       sts: seq<St>)
    requires Left(x, back, m, sts)
    ensures Left(x, back, m, StarAll(x, a, cc, back, greedy, bound, sts))
    decreases a, 2, bound, 0, |sts|
  {
    if sts != [] {
      if Rem(x, back, sts[0]) < bound { StarLeft(x, a, cc, back, greedy, sts[0]); }
      StarAllLeft(x, a, cc, back, greedy, bound, m, sts[1..]);
    }
  }
}
