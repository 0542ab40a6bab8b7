/** What the capture registers hold behind a match: the two ends of each group, and nothing for the groups of
    an expression that was skipped. */
module RegexCaptures {
  import opened RegexSyntax
  import opened RegexMatch
  import opened RegexLeftmost

  /** Unsetting captures lo..hi unsets their two registers each, and no other. */
  lemma {:induction false} ResetIs(caps: seq<int>, lo: nat, hi: int)
    ensures |ResetCaps(caps, lo, hi)| == |caps|
    ensures forall k | 0 <= k < |caps| ::
      ResetCaps(caps, lo, hi)[k] == if 2 * lo <= k <= 2 * hi + 1 then -1 else caps[k]
    decreases hi + 1 - lo
  {
    if lo <= hi { ResetIs(SetCap(SetCap(caps, 2 * lo, -1), 2 * lo + 1, -1), lo + 1, hi); }
  }

  /** Registers 2 cc and 2 cc + 1 hold where group cc began and ended, the smaller position first in both
      directions of travel. */
  lemma CaptureEnds(x: Subject, b: Re, cc: nat, back: bool, s: St, r: St)
    requires r in Outcomes(x, Capture(b), cc, back, s) && 2 * cc + 1 < |s.caps|
    ensures |r.caps| == |s.caps|
    ensures if back then r.caps[2 * cc] == r.pos && r.caps[2 * cc + 1] == s.pos
            else r.caps[2 * cc] == s.pos && r.caps[2 * cc + 1] == r.pos
  {
    hide Outcomes, NCap;
    var (first, last) := if back then (2 * cc + 1, 2 * cc) else (2 * cc, 2 * cc + 1);
    var s1 := s.(caps := SetCap(s.caps, first, s.pos));
    OutcomesCapture(x, b, cc, back, s);
    OutcomesKeep(x, b, cc + 1, back, s1, s1.caps, cc + 1, cc + 1 + NCap(b));
    var rs := Outcomes(x, b, cc + 1, back, s1);
    var i :| 0 <= i < |rs| && SetAll(rs, last)[i] == r;
    assert rs[i] in rs;
  }

  /** The state of an optional expression that is skipped: the last outcome of a greedy one, the first of a
      lazy one. */
  function Skipped(greedy: bool, rs: seq<St>): St
    requires rs != []
  {
    if greedy then rs[|rs| - 1] else rs[0]
  }

  /** It stands where it was, and its groups are unset. */
  lemma SkippedUnset(x: Subject, a: Re, cc: nat, back: bool, max: nat, greedy: bool, s: St)
    ensures var rs := Outcomes(x, Quant(a, 0, max, greedy), cc, back, s);
      rs != [] && var r := Skipped(greedy, rs);
      && r.pos == s.pos && |r.caps| == |s.caps|
      && forall k | 0 <= k < |s.caps| :: r.caps[k] == if 2 * cc <= k < 2 * (cc + NCap(a)) then -1 else s.caps[k]
  {
    hide Outcomes, NCap, ResetCaps, StarAll, UpToAll;
    var s0 := EnterQuant(a, cc, 0, s);
    OutcomesQuant(x, a, 0, max, greedy, cc, back, s);
    ResetIs(s.caps, cc, cc + NCap(a) - 1);
    NoTurn(x, a, cc, back, s0);
    LoopSkips(x, a, cc, back, max, greedy, s0);
  }

  lemma NoTurn(x: Subject, a: Re, cc: nat, back: bool, s: St)
    ensures Times(x, a, cc, back, 0, s) == [s]
  {
  }

  lemma LoopSkips(x: Subject, a: Re, cc: nat, back: bool, n: nat, greedy: bool, s: St)
    ensures var rs := StarAll(x, a, cc, back, greedy, Rem(x, back, s) + 1, [s]);
      rs != [] && Skipped(greedy, rs) == s
    ensures var rs := UpToAll(x, a, cc, back, greedy, n, [s]);
      rs != [] && Skipped(greedy, rs) == s
  {
    hide Outcomes, NCap, Rem;
    var none: seq<St> := [s][1..];
    assert none == [];
    var m := Rem(x, back, s);
    var star := Star(x, a, cc, back, greedy, s);
    assert StarAll(x, a, cc, back, greedy, m + 1, none) == [] && UpToAll(x, a, cc, back, greedy, n, none) == [];
    assert StarAll(x, a, cc, back, greedy, m + 1, [s]) == star + [];
    var upTo := UpTo(x, a, cc, back, greedy, n, s);
    assert UpToAll(x, a, cc, back, greedy, n, [s]) == upTo + [];
  }
}
