/** What a whole program for a literal finds in a UTF-16 text: the first occurrence. */
module RegexLiterals {
  import opened Options
  import opened RegexSyntax
  import opened RegexText
  import opened RegexMatch
  import opened RegexCompile
  import opened RegexVM
  import opened RegexMain
  import opened RegexLeftmost
  import opened RegexPoints

  /** ds stands at code point j. */
  predicate OccursAt(cs: seq<int>, ds: seq<int>, j: nat) { j + |ds| <= |cs| && cs[j..j + |ds|] == ds }

  /** j is the first such place from k on. */
  ghost predicate FirstAt(cs: seq<int>, ds: seq<int>, k: nat, j: nat) {
    k <= j && OccursAt(cs, ds, j) && forall i: nat | k <= i < j :: !OccursAt(cs, ds, i)
  }

  /** The places of the code points from k on. */
  function PlacesFrom(cs: seq<int>, k: nat): seq<int>
    requires Points(cs) && k <= |cs|
    decreases |cs| - k
  {
    [Place(cs, k)] + if k == |cs| then [] else PlacesFrom(cs, k + 1)
  }

  /** Searches start at code points. */
  lemma {:induction false} StartsAre(t: Text, cs: seq<int>, k: nat)
    requires Holding(t, cs) && k <= |cs|
    ensures Place(cs, k) <= |t.units| && Starts(t, Place(cs, k)) == PlacesFrom(cs, k)
    decreases |cs| - k
  {
    hide Utf16Of, Next, Place, Starts, PlacesFrom, NoSplitPair, Holding, Points, Boundary;
    HoldingPoints(t, cs);
    PlaceEnds(cs);
    PrefixUnits(cs, k);
    PlacesStep(cs, k);
    StartsStep(t, Place(cs, k));
    if k < |cs| {
      ReadsPoint(t, cs, k);
      StartsAre(t, cs, k + 1);
    }
  }

  lemma HoldingPoints(t: Text, cs: seq<int>)
    requires Holding(t, cs)
    ensures Points(cs) && |t.units| == |Utf16Of(cs)|
  {
  }

  lemma PlacesStep(cs: seq<int>, k: nat)
    requires Points(cs) && k <= |cs|
    ensures PlacesFrom(cs, k) == [Place(cs, k)] + if k == |cs| then [] else PlacesFrom(cs, k + 1)
  {
  }

  lemma StartsStep(t: Text, p: nat)
    requires p <= |t.units|
    ensures Starts(t, p) == [p] + if p < |t.units| then Starts(t, Next(t, p)) else []
  {
  }

  /** The registers of a match of ds at code point j. */
  function Delimited(cs: seq<int>, ds: seq<int>, j: nat): seq<int>
    requires Points(cs)
  {
    if OccursAt(cs, ds, j) then [Place(cs, j), Place(cs, j + |ds|)] else []
  }

  /** The whole match, with its registers. */
  lemma LiteralOutcome(x: Subject, ds: seq<int>, cs: seq<int>, k: nat, caps: seq<int>)
    requires !x.env.ignoreCase && Points(ds) && Holding(x.text, cs) && k <= |cs| && |caps| == 2
    ensures Outcomes(x, Capture(Literal(ds)), 0, false, St(Place(cs, k), caps)) ==
      if OccursAt(cs, ds, k) then [St(Place(cs, k + |ds|), Delimited(cs, ds, k))] else []
  {
    hide Outcomes, Utf16Of, Place, SetCap, SetAll, Literal;
    var s := St(Place(cs, k), caps);
    var s1 := s.(caps := SetCap(caps, 0, s.pos));
    OutcomesCapture(x, Literal(ds), 0, false, s);
    LiteralAt(x, ds, 1, s1, cs, k);
    if OccursAt(cs, ds, k) { SetOne(s1.(pos := Place(cs, k + |ds|)), caps, s.pos); } else { SetNone(); }
  }

  lemma SetOne(t: St, caps: seq<int>, p: int)
    requires |caps| == 2 && t.caps == SetCap(caps, 0, p)
    ensures SetAll([t], 1) == [St(t.pos, [p, t.pos])]
  {
    assert t.caps == [p, caps[1]] && SetCap(t.caps, 1, t.pos) == [p, t.pos];
    assert SetAll([t], 1)[0] == t.(caps := SetCap(t.caps, 1, t.pos));
  }

  lemma SetNone()
    ensures SetAll([], 1) == []
  {
  }

  /** caps delimit the first occurrence from k on. */
  ghost predicate Delimits(cs: seq<int>, ds: seq<int>, k: nat, caps: seq<int>)
    requires Points(cs)
  {
    exists j: nat :: FirstAt(cs, ds, k, j) && caps == Delimited(cs, ds, j)
  }

  lemma {:induction false} SearchLiteral(x: Subject, ds: seq<int>, cs: seq<int>, k: nat, caps: seq<int>)
    requires !x.env.ignoreCase && Points(ds) && Holding(x.text, cs) && k <= |cs| && |caps| == 2
    ensures match FirstStart(x, Literal(ds), PlacesFrom(cs, k), caps)
      case None => forall j: nat | k <= j :: !OccursAt(cs, ds, j)
      case Some(r) => Delimits(cs, ds, k, r.caps)
    decreases |cs| - k
  {
    hide Outcomes, Utf16Of, Place, Literal, Delimited;
    LiteralOutcome(x, ds, cs, k, caps);
    var ps := PlacesFrom(cs, k);
    assert ps[0] == Place(cs, k) && ps[1..] == if k == |cs| then [] else PlacesFrom(cs, k + 1);
    if OccursAt(cs, ds, k) {
      assert FirstAt(cs, ds, k, k);
    } else if k < |cs| {
      SearchLiteral(x, ds, cs, k + 1, caps);
      match FirstStart(x, Literal(ds), PlacesFrom(cs, k + 1), caps)
      case None =>
      case Some(r) => Sooner(cs, ds, k, r.caps);
    }
  }

  lemma Sooner(cs: seq<int>, ds: seq<int>, k: nat, caps: seq<int>)
    requires Points(cs) && !OccursAt(cs, ds, k) && Delimits(cs, ds, k + 1, caps)
    ensures Delimits(cs, ds, k, caps)
  {
    hide Delimited, OccursAt;
    var j: nat :| FirstAt(cs, ds, k + 1, j) && caps == Delimited(cs, ds, j);
    assert FirstAt(cs, ds, k, j);
  }

  /** The program for a literal, run from code point k on, finds its first occurrence from there on,
      or when sticky the one at k, and registers 0 and 1 delimit it. */
  lemma LiteralFound(x: Subject, ds: seq<int>, cs: seq<int>, k: nat, s: St)
    requires !x.env.ignoreCase && Points(ds) && Holding(x.text, cs) && k <= |cs|
    requires s.pos == Place(cs, k) && |s.caps| == 2
    ensures var e := Expected(x, Literal(ds), s);
      && e.Done? && (!e.matched ==> e.captures == [])
      && (if x.env.sticky then e.matched == OccursAt(cs, ds, k) && (e.matched ==> e.captures == Delimited(cs, ds, k))
          else if e.matched then Delimits(cs, ds, k, e.captures) else forall j: nat | k <= j :: !OccursAt(cs, ds, j))
  {
    hide Outcomes, Utf16Of, Place, Literal, Whole, Delimited;
    Joints(x.text, cs, k);
    LeftmostMatch(x, Literal(ds), s);
    if x.env.sticky {
      LiteralOutcome(x, ds, cs, k, s.caps);
      assert [s.pos][1..] == [];
    } else {
      StartsAre(x.text, cs, k);
      SearchLiteral(x, ds, cs, k, s.caps);
    }
  }
}
