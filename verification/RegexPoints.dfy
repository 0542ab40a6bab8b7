/** Subjects as lists of code points: how UTF-16 writes them, that the character macros read them back
    in both directions, and what characters and assertions match in their terms. */
module RegexPoints {
  import opened Bytes
  import opened CharSet
  import opened CodePoints
  import opened RegexSyntax
  import opened RegexText
  import opened RegexMatch

  predicate Points(cs: seq<int>) { forall i | 0 <= i < |cs| :: IsPoint(cs[i]) }

  /** No two surrogates that would be read as a pair. Scalar values always are such a list. */
  predicate NoSplitPair(cs: seq<int>) {
    Points(cs) && forall i | 0 < i < |cs| :: !(0xd800 <= cs[i - 1] <= 0xdbff && 0xdc00 <= cs[i] <= 0xdfff)
  }

  function Utf16Of(cs: seq<int>): seq<u16>
    requires Points(cs)
  {
    if cs == [] then [] else Utf16Of(cs[..|cs| - 1]) + Units(cs[|cs| - 1])
  }

  /** The place of code point k. */
  function Place(cs: seq<int>, k: nat): nat
    requires Points(cs) && k <= |cs|
  {
    |Utf16Of(cs[..k])|
  }

  /** t holds the code points cs. */
  ghost predicate Holding(t: Text, cs: seq<int>) {
    NoSplitPair(cs) && t == Text(Utf16Of(cs), Utf16)
  }

  lemma PlaceNext(cs: seq<int>, k: nat)
    requires Points(cs) && k < |cs|
    ensures Place(cs, k + 1) == Place(cs, k) + |Units(cs[k])|
    ensures Utf16Of(cs[..k + 1]) == Utf16Of(cs[..k]) + Units(cs[k])
  {
    assert cs[..k + 1][..k] == cs[..k];
  }

  /** The units of a prefix stand in front. */
  lemma {:induction false} PrefixUnits(cs: seq<int>, k: nat)
    requires Points(cs) && k <= |cs|
    ensures Place(cs, k) <= |Utf16Of(cs)| && Utf16Of(cs)[..Place(cs, k)] == Utf16Of(cs[..k])
    decreases |cs| - k
  {
    hide Utf16Of, Units;
    if k == |cs| {
      assert cs[..k] == cs;
    } else {
      PrefixUnits(cs, k + 1);
      PlaceNext(cs, k);
      var (all, more) := (Utf16Of(cs), Utf16Of(cs[..k + 1]));
      assert all[..Place(cs, k)] == all[..Place(cs, k + 1)][..Place(cs, k)];
    }
  }

  /** The units of code point k. */
  lemma UnitsAt(cs: seq<int>, k: nat)
    requires Points(cs) && k < |cs|
    ensures var (s, p) := (Utf16Of(cs), Place(cs, k));
      && p + |Units(cs[k])| == Place(cs, k + 1) <= |s|
      && s[p] == Units(cs[k])[0] && (|Units(cs[k])| == 2 ==> s[p + 1] == Units(cs[k])[1])
  {
    hide Utf16Of, Units;
    PrefixUnits(cs, k + 1);
    PlaceNext(cs, k);
    var (s, u, p) := (Utf16Of(cs), Units(cs[k]), Place(cs, k));
    assert s[..p + |u|][p] == u[0] && (|u| == 2 ==> s[..p + |u|][p + 1] == u[1]);
  }

  lemma PlaceEnds(cs: seq<int>)
    requires Points(cs)
    ensures Place(cs, 0) == 0 && Place(cs, |cs|) == |Utf16Of(cs)|
  {
    assert cs[..0] == [] && cs[..|cs|] == cs;
  }

  /** At code point k the macros read it, forward from its place and backward from the next, and both
      are boundaries. */
  lemma ReadsPoint(t: Text, cs: seq<int>, k: nat)
    requires Holding(t, cs) && k < |cs|
    ensures var (p, q) := (Place(cs, k), Place(cs, k + 1));
      && p < q <= |t.units| && CharAt(t, p) == cs[k] == CharBefore(t, q) && Next(t, p) == q && Back(t, q) == p
      && Boundary(t, p) && Boundary(t, q)
  {
    hide Utf16Of, Place, Units;
    UnitsAt(cs, k);
    Joints(t, cs, k);
    Joints(t, cs, k + 1);
    Surrogates(cs[k]);
    ReadsUnits(t, cs[k], Place(cs, k));
  }

  /** Reading the units of one code point. */
  lemma ReadsUnits(t: Text, c: int, p: nat)
    requires IsPoint(c) && t.width == Utf16 && p + |Units(c)| <= |t.units|
    requires t.units[p] == Units(c)[0] && (|Units(c)| == 2 ==> t.units[p + 1] == Units(c)[1])
    requires !PairAt(t, p - 1) && !PairAt(t, p + |Units(c)| - 1)
    ensures var q := p + |Units(c)|;
      CharAt(t, p) == c == CharBefore(t, q) && Next(t, p) == q && Back(t, q) == p
  {
    Surrogates(c);
    hide Units;
    if c >= 0x1_0000 { PairCode(t.units[p], t.units[p + 1]); }
  }

  lemma PairCode(u: u16, v: u16)
    requires 0xd800 <= u <= 0xdbff && 0xdc00 <= v <= 0xdfff
    ensures u % 0x400 == u - 0xd800 && v % 0x400 == v - 0xdc00
  {
  }

  /** No pair joins two code points. */
  lemma Joints(t: Text, cs: seq<int>, k: nat)
    requires Holding(t, cs) && k <= |cs|
    ensures Place(cs, k) <= |t.units| && !PairAt(t, Place(cs, k) - 1)
  {
    hide Utf16Of, Place, Units;
    PlaceEnds(cs);
    if 0 < k < |cs| {
      UnitsAt(cs, k - 1);
      UnitsAt(cs, k);
      Surrogates(cs[k - 1]);
      Surrogates(cs[k]);
    }
  }

  /** Leading and trailing units. */
  lemma Surrogates(c: int)
    requires IsPoint(c)
    ensures var u := Units(c);
      && (c < 0x1_0000 ==> u == [c])
      && (c >= 0x1_0000 ==> |u| == 2 && 0xd800 <= u[0] <= 0xdbff && 0xdc00 <= u[1] <= 0xdfff)
      && (c >= 0x1_0000 ==> c == (u[0] as int - 0xd800) * 0x400 + (u[1] as int - 0xdc00) + 0x1_0000)
  {
  }

  // ---- the whole text

  /** All characters from p on, as GET_CHAR reads them. */
  function ReadForward(t: Text, p: nat): seq<int>
    requires p <= |t.units|
    decreases |t.units| - p
  {
    if p == |t.units| then [] else [CharAt(t, p)] + ReadForward(t, Next(t, p))
  }

  /** All characters before p, as PEEK_PREV_CHAR and PREV_CHAR read them. */
  function ReadBackward(t: Text, p: nat): seq<int>
    requires p <= |t.units|
    decreases p
  {
    if p == 0 then [] else ReadBackward(t, Back(t, p)) + [CharBefore(t, p)]
  }

  lemma {:induction false} ReadsFrom(t: Text, cs: seq<int>, k: nat)
    requires Holding(t, cs) && k <= |cs|
    ensures Place(cs, k) <= |t.units| && ReadForward(t, Place(cs, k)) == cs[k..]
    decreases |cs| - k
  {
    hide Utf16Of, CharAt, Next;
    PlaceEnds(cs);
    if k < |cs| {
      ReadsPoint(t, cs, k);
      ReadsFrom(t, cs, k + 1);
      assert cs[k..] == [cs[k]] + cs[k + 1..];
    }
  }

  lemma {:induction false} ReadsUpTo(t: Text, cs: seq<int>, k: nat)
    requires Holding(t, cs) && k <= |cs|
    ensures Place(cs, k) <= |t.units| && ReadBackward(t, Place(cs, k)) == cs[..k]
    decreases k
  {
    hide Utf16Of, CharBefore, Back;
    PlaceEnds(cs);
    if k > 0 {
      ReadsPoint(t, cs, k - 1);
      ReadsUpTo(t, cs, k - 1);
      assert cs[..k] == cs[..k - 1] + [cs[k - 1]];
    }
  }

  /** Reading the UTF-16 text of a list of code points gives the list, forward and backward. */
  lemma Utf16RoundTrip(t: Text, cs: seq<int>)
    requires Holding(t, cs)
    ensures ReadForward(t, 0) == cs == ReadBackward(t, |t.units|)
  {
    PlaceEnds(cs);
    ReadsFrom(t, cs, 0);
    ReadsUpTo(t, cs, |cs|);
    assert cs[0..] == cs && cs[..|cs|] == cs;
  }

  /** Elsewhere each unit is a character. */
  lemma OneUnitEach(t: Text, p: nat)
    requires t.width != Utf16 && p < |t.units|
    ensures CharAt(t, p) == t.units[p] == CharBefore(t, p + 1) && Next(t, p) == p + 1 && Back(t, p + 1) == p
    ensures Boundary(t, p) && Boundary(t, p + 1)
  {
  }

  // ---- characters and assertions

  const LineEnds: seq<int> := [0x0a, 0x0d, 0x2028, 0x2029]
  const Others := "0123456789_"

  /** c is a letter, a digit or the underscore. */
  predicate WordPoint(c: int) { IsIn(Capitals, c) || IsIn(Smalls, c) || IsIn(Others, c) }

  lemma OthersAre(c: int)
    ensures IsIn(Others, c) <==> 48 <= c <= 57 || c == 95
  {
    if 48 <= c <= 57 { assert Others[c - 48] as int == c; }
    if c == 95 { assert Others[10] as int == c; }
  }

  lemma WordIs(c: int)
    ensures IsWordChar(c) <==> WordPoint(c)
  {
    hide IsIn;
    CapitalsAre(c);
    SmallsAre(c);
    OthersAre(c);
  }

  /** The assertions at code point k, in terms of the code points around. */
  lemma AssertionsAt(x: Subject, cs: seq<int>, k: nat)
    requires Holding(x.text, cs) && k <= |cs|
    ensures var p := Place(cs, k);
      && (Holds(x, Bol, p) <==> k == 0 || (x.env.multiLine && cs[k - 1] in LineEnds))
      && (Holds(x, Eol, p) <==> k == |cs| || (x.env.multiLine && cs[k] in LineEnds))
      && forall neg :: Holds(x, WordB(neg), p) <==>
           ((k > 0 && WordPoint(cs[k - 1])) != (k < |cs| && WordPoint(cs[k]))) != neg
  {
    hide WordPoint, Utf16Of, CharAt, CharBefore, IsWordChar, Place;
    PlaceEnds(cs);
    if k > 0 {
      ReadsPoint(x.text, cs, k - 1);
      WordIs(cs[k - 1]);
    }
    if k < |cs| {
      ReadsPoint(x.text, cs, k);
      WordIs(cs[k]);
    }
    if 0 < k < |cs| { PlaceOrder(cs, k); }
  }

  lemma PlaceOrder(cs: seq<int>, k: nat)
    requires Points(cs) && 0 < k < |cs|
    ensures 0 < Place(cs, k) < |Utf16Of(cs)|
  {
    UnitsAt(cs, k - 1);
    UnitsAt(cs, k);
  }

  /** A character node consumes code point k, or the one before it, if it accepts it. */
  lemma CharacterAt(x: Subject, re: Re, cc: nat, back: bool, s: St, cs: seq<int>, k: nat)
    requires Holding(x.text, cs) && k <= |cs| && s.pos == Place(cs, k) && IsCharNode(re)
    ensures Outcomes(x, re, cc, back, s) ==
      if back then (if k > 0 && CharMatches(x, re, cs[k - 1]) then [s.(pos := Place(cs, k - 1))] else [])
      else if k < |cs| && CharMatches(x, re, cs[k]) then [s.(pos := Place(cs, k + 1))] else []
  {
    hide Utf16Of, CharMatches, CharAt, CharBefore, Next, Back, Place;
    PlaceEnds(cs);
    if back && k > 0 { ReadsPoint(x.text, cs, k - 1); }
    if !back && k < |cs| { ReadsPoint(x.text, cs, k); }
  }

  /** Which code points the nodes accept: itself; any; any but the line ends. */
  lemma Accepted(x: Subject, c: cp, d: int)
    ensures !x.env.ignoreCase && 0 <= d ==> (CharMatches(x, Chr(d), c) <==> c == d)
    ensures CharMatches(x, AnyChar, c)
    ensures CharMatches(x, DotChar, c) <==> x.env.dotAll || c !in LineEnds
  {
  }

  /** Without case, ASCII letters match their counterparts, and other ASCII characters themselves. */
  lemma AcceptedFolded(x: Subject, i: nat, j: nat)
    requires x.env.ignoreCase && i < 26 && j < 26
    ensures CharMatches(x, Chr(Capitals[i] as int), Smalls[j] as cp) <==> i == j
    ensures CharMatches(x, Chr(Smalls[i] as int), Capitals[j] as cp) <==> i == j
    ensures CharMatches(x, Chr(Smalls[i] as int), Smalls[j] as cp) <==> i == j
    ensures CharMatches(x, Chr(Capitals[i] as int), Capitals[j] as cp) <==> i == j
  {
    Letters(i);
    Letters(j);
  }

  lemma AcceptedPlain(x: Subject, c: cp, d: cp)
    requires x.env.ignoreCase && c < 128 && d < 128
    requires c as char !in Capitals && c as char !in Smalls
    ensures CharMatches(x, Chr(d), c) <==> c == d
  {
    if 65 <= c <= 90 { Letters(c - 65); }
    if 97 <= c <= 122 { Letters(c - 97); }
  }

  /** A class is asked for the lower-case letter under the UTF-16 flag, for the upper-case one otherwise. */
  lemma ClassFolded(x: Subject, pts: seq<int>, i: nat, c: cp)
    requires x.env.ignoreCase && i < 26 && (c == Capitals[i] as int || c == Smalls[i] as int)
    ensures CharMatches(x, Class(pts), c) <==> InPoints(pts, (if x.env.utf16 then Smalls else Capitals)[i] as int)
  {
    Letters(i);
    hide InPoints;
  }

  // ---- literals

  /** The expression that matches the code points ds one after the other. */
  function Literal(ds: seq<int>): Re {
    if ds == [] then Empty else Cat(Literal(ds[..|ds| - 1]), Chr(ds[|ds| - 1]))
  }

  /** It matches at code point k exactly when ds stands there, and ends behind it. */
  lemma {:induction false} LiteralAt(x: Subject, ds: seq<int>, cc: nat, s: St, cs: seq<int>, k: nat)
    requires !x.env.ignoreCase && Points(ds) && Holding(x.text, cs) && k <= |cs| && s.pos == Place(cs, k)
    ensures Outcomes(x, Literal(ds), cc, false, s) ==
      if k + |ds| <= |cs| && cs[k..k + |ds|] == ds then [s.(pos := Place(cs, k + |ds|))] else []
    decreases |ds|
  {
    hide Utf16Of, Outcomes, CharMatches, Place;
    if ds == [] {
      EmptyAt(x, cc, s);
    } else {
      var (n, init, d) := (|ds| - 1, ds[..|ds| - 1], ds[|ds| - 1]);
      LiteralAt(x, init, cc, s, cs, k);
      OutcomesCat(x, Literal(init), Chr(d), cc, false, s);
      NoCaptures(init);
      if k + n <= |cs| && cs[k..k + n] == init {
        var s1 := s.(pos := Place(cs, k + n));
        CharacterAt(x, Chr(d), cc, false, s1, cs, k + n);
        OneState(x, Chr(d), cc, s1);
        if k + n < |cs| { Accepted(x, cs[k + n], d); }
      } else {
        assert OutcomesAll(x, Chr(d), cc, false, []) == [];
      }
      Extends(cs, ds, k);
    }
  }

  lemma Extends(cs: seq<int>, ds: seq<int>, k: nat)
    requires ds != [] && k <= |cs|
    ensures var n := |ds| - 1;
      k + n + 1 <= |cs| && cs[k..k + n + 1] == ds <==> k + n < |cs| && cs[k..k + n] == ds[..n] && cs[k + n] == ds[n]
  {
    var n := |ds| - 1;
    if k + n < |cs| {
      assert cs[k..k + n + 1] == cs[k..k + n] + [cs[k + n]];
      assert ds == ds[..n] + [ds[n]];
      assert cs[k..k + n + 1][..n] == cs[k..k + n];
    }
  }

  lemma EmptyAt(x: Subject, cc: nat, s: St)
    ensures Outcomes(x, Empty, cc, false, s) == [s]
  {
  }

  lemma OneState(x: Subject, re: Re, cc: nat, s: St)
    ensures OutcomesAll(x, re, cc, false, [s]) == Outcomes(x, re, cc, false, s)
  {
    hide Outcomes;
    assert [s][1..] == [];
  }

  lemma {:induction false} NoCaptures(ds: seq<int>)
    ensures NCap(Literal(ds)) == 0
    decreases |ds|
  {
    if ds != [] { NoCaptures(ds[..|ds| - 1]); }
  }
}
