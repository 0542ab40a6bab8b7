/** Reference meaning of a regular expression: the list of all outcomes of matching at a
    state, in the order in which a backtracking matcher tries them. */
module RegexMatch {
  import opened Bytes
  import opened CharSet
  import opened RegexSyntax
  import opened RegexText

  /** A match in progress: the position and the capture registers (-1 when unset). */
  datatype St = St(pos: int, caps: seq<int>)

  datatype Subject = Subject(env: Env, text: Text)

  ghost predicate StOk(x: Subject, s: St) {
    Boundary(x.text, s.pos)
  }

  function SetCap(caps: seq<int>, k: int, v: int): (r: seq<int>)
    ensures |r| == |caps|
  {
    if 0 <= k < |caps| then caps[k := v] else caps
  }

  /** Unset the registers of the captures lo..hi. */
  function ResetCaps(caps: seq<int>, lo: int, hi: int): (r: seq<int>)
    ensures |r| == |caps|
    decreases hi + 1 - lo
  {
    if lo > hi then caps else ResetCaps(SetCap(SetCap(caps, 2 * lo, -1), 2 * lo + 1, -1), lo + 1, hi)
  }

  /** The single-character nodes. */
  predicate IsCharNode(re: Re) {
    re.Chr? || re.AnyChar? || re.DotChar? || re.Class?
  }

  predicate CharMatches(x: Subject, re: Re, c: cp)
    requires IsCharNode(re)
  {
    match re
    case Chr(k) => 0 <= k <= 0x10_ffff && Canon(x.env, c) == Canon(x.env, k)
    case AnyChar => true
    case DotChar => x.env.dotAll || !IsLineTerminator(c)
    case Class(pts) => InPoints(pts, Canon(x.env, c))
  }

  /** Consume one character in the given direction. */
  function MatchChar(x: Subject, re: Re, back: bool, s: St): seq<St>
    requires IsCharNode(re)
  {
    var t := x.text;
    if back then
      if 0 < s.pos <= |t.units| && CharMatches(x, re, CharBefore(t, s.pos)) then [s.(pos := Back(t, s.pos))] else []
    else
      if 0 <= s.pos < |t.units| && CharMatches(x, re, CharAt(t, s.pos)) then [s.(pos := Next(t, s.pos))] else []
  }

  predicate Holds(x: Subject, re: Re, p: int)
    requires re.Bol? || re.Eol? || re.WordB?
  {
    0 <= p <= |x.text.units| &&
    match re
    case Bol => AtLineStart(x.text, x.env.multiLine, p)
    case Eol => AtLineEnd(x.text, x.env.multiLine, p)
    case WordB(neg) => AtWordBoundary(x.text, p) != neg
  }

  function SetAll(sts: seq<St>, k: int): (r: seq<St>)
    ensures |r| == |sts|
    ensures forall i | 0 <= i < |sts| :: r[i] == St(sts[i].pos, SetCap(sts[i].caps, k, sts[i].pos))
  {
    if sts == [] then [] else [sts[0].(caps := SetCap(sts[0].caps, k, sts[0].pos))] + SetAll(sts[1..], k)
  }

  /** Characters left in the direction of travel. */
  function Rem(x: Subject, back: bool, s: St): nat {
    var r := if back then s.pos else |x.text.units| - s.pos;
    if r < 0 then 0 else r
  }

  /** Registers of a quantified atom are unset once before its loop when it may be skipped. */
  function EnterQuant(a: Re, cc: nat, min: int, s: St): St {
    if min == 0 && NCap(a) > 0 then s.(caps := ResetCaps(s.caps, cc, cc + NCap(a) - 1)) else s
  }

  /** All outcomes of re at s, first choice first. cc is the number of the first capture in
      re; back is the direction of travel. */
  function Outcomes(x: Subject, re: Re, cc: nat, back: bool, s: St): seq<St>
    decreases re, 0, 0, 0, 0
  {
    match re
    case Empty => [s]
    case Chr(_) | AnyChar | DotChar | Class(_) => MatchChar(x, re, back, s)
    case Bol | Eol | WordB(_) => if Holds(x, re, s.pos) then [s] else []
    case Cat(l, r) =>
      if back then OutcomesAll(x, l, cc, back, Outcomes(x, r, cc + NCap(l), back, s))
      else OutcomesAll(x, r, cc + NCap(l), back, Outcomes(x, l, cc, back, s))
    case Alt(l, r) => Outcomes(x, l, cc, back, s) + Outcomes(x, r, cc + NCap(l), back, s)
    case Capture(b) =>
      var (first, last) := if back then (2 * cc + 1, 2 * cc) else (2 * cc, 2 * cc + 1);
      SetAll(Outcomes(x, b, cc + 1, back, s.(caps := SetCap(s.caps, first, s.pos))), last)
    case Look(neg, behind, b) =>
      var o := Outcomes(x, b, cc, behind, s);
      if neg then (if o == [] then [s] else [])
      else if o == [] then [] else [s.(caps := o[0].caps)]
    case Quant(a, min, max, greedy) =>
      var s0 := EnterQuant(a, cc, min, s);
      if min < 0 || max < min then []
      else if max == 0 then [s0]
      else if max == INT32_MAX then StarAll(x, a, cc, back, greedy, Rem(x, back, s0) + 1,
          Times(x, a, cc, back, min, s0))
      else UpToAll(x, a, cc, back, greedy, max - min, Times(x, a, cc, back, min, s0))
  }

  function OutcomesAll(x: Subject, re: Re, cc: nat, back: bool, sts: seq<St>): seq<St>
    decreases re, 1, 0, 0, |sts|
  {
    if sts == [] then [] else Outcomes(x, re, cc, back, sts[0]) + OutcomesAll(x, re, cc, back, sts[1..])
  }

  /** Exactly n turns. */
  function Times(x: Subject, a: Re, cc: nat, back: bool, n: nat, s: St): seq<St>
    decreases a, 2, n, 0, 0
  {
    if n == 0 then [s] else TimesAll(x, a, cc, back, n - 1, Outcomes(x, a, cc, back, s))
  }

  function TimesAll(x: Subject, a: Re, cc: nat, back: bool, n: nat, sts: seq<St>): seq<St>
    decreases a, 2, n, 1, |sts|
  {
    if sts == [] then [] else Times(x, a, cc, back, n, sts[0]) + TimesAll(x, a, cc, back, n, sts[1..])
  }

  /** At most n turns, as many as possible first when greedy, as few as possible when lazy. */
  function UpTo(x: Subject, a: Re, cc: nat, back: bool, greedy: bool, n: nat, s: St): seq<St>
    decreases a, 2, n, 0, 0
  {
    if n == 0 then [s]
    else
      var more := UpToAll(x, a, cc, back, greedy, n - 1, Outcomes(x, a, cc, back, s));
      if greedy then more + [s] else [s] + more
  }

  function UpToAll(x: Subject, a: Re, cc: nat, back: bool, greedy: bool, n: nat, sts: seq<St>): seq<St>
    decreases a, 2, n, 1, |sts|
  {
    if sts == [] then []
    else UpTo(x, a, cc, back, greedy, n, sts[0]) + UpToAll(x, a, cc, back, greedy, n, sts[1..])
  }

  /** Any number of turns; a turn that consumes nothing ends the loop. */
  function Star(x: Subject, a: Re, cc: nat, back: bool, greedy: bool, s: St): seq<St>
    decreases a, 2, Rem(x, back, s), 1, 0
  {
    var more := StarAll(x, a, cc, back, greedy, Rem(x, back, s), Outcomes(x, a, cc, back, s));
    if greedy then more + [s] else [s] + more
  }

  /** Go on looping from the states with less than m characters left, stop at the others. */
  function StarAll(x: Subject, a: Re, cc: nat, back: bool, greedy: bool, m: nat, sts: seq<St>): seq<St>
    decreases a, 2, m, 0, |sts|
  {
    if sts == [] then []
    else
      (if Rem(x, back, sts[0]) < m then Star(x, a, cc, back, greedy, sts[0]) else [sts[0]]) +
      StarAll(x, a, cc, back, greedy, m, sts[1..])
  }

  // The composite nodes, one equation each.

  lemma OutcomesCat(x: Subject, l: Re, r: Re, cc: nat, back: bool, s: St)
    ensures Outcomes(x, Cat(l, r), cc, back, s) ==
            if back then OutcomesAll(x, l, cc, back, Outcomes(x, r, cc + NCap(l), back, s))
            else OutcomesAll(x, r, cc + NCap(l), back, Outcomes(x, l, cc, back, s))
  {
    hide OutcomesAll, NCap;
  }

  lemma OutcomesAlt(x: Subject, l: Re, r: Re, cc: nat, back: bool, s: St)
    ensures Outcomes(x, Alt(l, r), cc, back, s) == Outcomes(x, l, cc, back, s) + Outcomes(x, r, cc + NCap(l), back, s)
  {
    hide NCap, OutcomesAll, Times, StarAll, UpToAll, MatchChar, Holds, SetAll, SetCap, EnterQuant, Rem;
  }

  lemma OutcomesCapture(x: Subject, b: Re, cc: nat, back: bool, s: St)
    ensures var (first, last) := if back then (2 * cc + 1, 2 * cc) else (2 * cc, 2 * cc + 1);
      Outcomes(x, Capture(b), cc, back, s) ==
      SetAll(Outcomes(x, b, cc + 1, back, s.(caps := SetCap(s.caps, first, s.pos))), last)
  {
    hide SetAll, SetCap;
  }

  lemma OutcomesLook(x: Subject, neg: bool, behind: bool, b: Re, cc: nat, back: bool, s: St)
    ensures var o := Outcomes(x, b, cc, behind, s);
      Outcomes(x, Look(neg, behind, b), cc, back, s) ==
      if neg then (if o == [] then [s] else []) else if o == [] then [] else [s.(caps := o[0].caps)]
  {
  }

  lemma OutcomesQuant(x: Subject, a: Re, min: int, max: int, greedy: bool, cc: nat, back: bool, s: St)
    requires 0 <= min <= max
    ensures var s0 := EnterQuant(a, cc, min, s);
      Outcomes(x, Quant(a, min, max, greedy), cc, back, s) ==
      if max == 0 then [s0]
      else if max == INT32_MAX then StarAll(x, a, cc, back, greedy, Rem(x, back, s0) + 1,
          Times(x, a, cc, back, min, s0))
      else UpToAll(x, a, cc, back, greedy, max - min, Times(x, a, cc, back, min, s0))
  {
    hide EnterQuant, StarAll, UpToAll, Times, Rem;
  }
}
