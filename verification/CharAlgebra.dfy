/** Interval endpoints counted by parity, the canonical form of a set, and what the set
    operations mean. */
module CharAlgebra {
  import opened Bytes
  import opened CharSet

  /** An odd number of points is at most c. */
  function Odd(pts: seq<int>, c: int): bool {
    if pts == [] then false else Odd(pts[..|pts| - 1], c) != (pts[|pts| - 1] <= c)
  }

  /** Endpoint lists the operations accept: whole intervals, possibly empty or adjacent. */
  predicate Sorted(pts: seq<int>) {
    |pts| % 2 == 0 && NonDecreasing(pts)
  }

  lemma OddStep(pts: seq<int>, v: int, c: int)
    ensures Odd(pts + [v], c) == (Odd(pts, c) != (v <= c))
  {
    assert (pts + [v])[..|pts|] == pts;
  }

  lemma {:induction false} OddAppend(a: seq<int>, b: seq<int>, c: int)
    ensures Odd(a + b, c) == (Odd(a, c) != Odd(b, c))
    decreases |b|
  {
    if b == [] {
      assert a + b == a;
    } else {
      var n := |b| - 1;
      OddAppend(a, b[..n], c);
      OddStep(a + b[..n], b[n], c);
      assert a + b == a + b[..n] + [b[n]];
    }
  }

  /** Two points that are both passed or both not passed cancel. */
  lemma OddPair(v: int, w: int, c: int)
    ensures Odd([v, w], c) == ((v <= c) != (w <= c))
  {
    assert [v, w][..1] == [v];
    OddStep([], v, c);
    OddStep([v], w, c);
    assert [] + [v] == [v] && [v] + [w] == [v, w];
  }

  /** Past all points the parity is that of the length. */
  lemma {:induction false} OddAll(pts: seq<int>, c: int)
    requires forall i | 0 <= i < |pts| :: pts[i] <= c
    ensures Odd(pts, c) == (|pts| % 2 == 1)
  {
    if pts != [] { OddAll(pts[..|pts| - 1], c); }
  }

  lemma {:induction false} OddNone(pts: seq<int>, c: int)
    requires forall i | 0 <= i < |pts| :: c < pts[i]
    ensures !Odd(pts, c)
  {
    if pts != [] { OddNone(pts[..|pts| - 1], c); }
  }

  /** Membership is parity. */
  lemma {:induction false} InPointsOdd(pts: seq<int>, c: int)
    requires Sorted(pts)
    ensures InPoints(pts, c) == Odd(pts, c)
    decreases |pts|
  {
    if pts != [] {
      var rest := pts[2..];
      assert pts == [pts[0], pts[1]] + rest;
      InPointsOdd(rest, c);
      OddAppend([pts[0], pts[1]], rest, c);
      OddPair(pts[0], pts[1], c);
      if c < pts[1] { OddNone(rest, c); }
    }
  }

  /** The canonical list of a set is unique. */
  lemma {:induction false} CanonicalUnique(p: seq<int>, q: seq<int>)
    requires Canonical(p) && Canonical(q) && forall c :: InPoints(p, c) == InPoints(q, c)
    ensures p == q
    decreases |p|
  {
    FirstIn(p);
    FirstIn(q);
    if p != [] && q != [] {
      SameHead(p, q);
      SameHead(q, p);
      var p1, q1 := p[2..], q[2..];
      forall c ensures InPoints(p1, c) == InPoints(q1, c) {
        assert InPoints(p, c) == InPoints(q, c);
        if c <= p[1] { OnlyAfter(p1, c); OnlyAfter(q1, c); }
      }
      CanonicalUnique(p1, q1);
      assert p == [p[0], p[1]] + p1 && q == [q[0], q[1]] + q1;
    }
  }

  lemma FirstIn(p: seq<int>)
    requires Canonical(p)
    ensures p != [] ==> InPoints(p, p[0])
  {
  }

  lemma OnlyAfter(p: seq<int>, c: int)
    requires Sorted(p) && (p != [] ==> c < p[0])
    ensures !InPoints(p, c)
  {
    InPointsOdd(p, c);
    OddNone(p, c);
  }

  lemma SameHead(p: seq<int>, q: seq<int>)
    requires Canonical(p) && Canonical(q) && p != [] && q != [] && forall c :: InPoints(p, c) == InPoints(q, c)
    ensures q[0] <= p[0] && p[1] <= q[1]
  {
    assert InPoints(p, p[0]) == InPoints(q, p[0]);
    if p[0] < q[0] { OnlyAfter(q, p[0]); }
    assert InPoints(p, q[0]) == InPoints(q, q[0]);
    if q[0] < p[0] { OnlyAfter(p, q[0]); }
    if q[1] < p[1] {
      assert InPoints(p, q[1]) == InPoints(q, q[1]);
      OnlyAfter(q[2..], q[1]);
    }
  }

  // ---- set operations

  datatype SetOp = Union | Inter | Xor

  /** Membership in the result of an operation. */
  predicate Combine(op: SetOp, a: bool, b: bool) {
    match op
    case Union => a || b
    case Inter => a && b
    case Xor => a != b
  }

  /** r is the canonical list of the combination of a and b. */
  ghost predicate IsOp(op: SetOp, a: seq<int>, b: seq<int>, r: seq<int>) {
    Canonical(r) && forall c :: InPoints(r, c) == Combine(op, InPoints(a, c), InPoints(b, c))
  }

  /** r is the canonical list of the code points below UINT32_MAX that are not in a. */
  ghost predicate IsComplement(a: seq<int>, r: seq<int>) {
    Canonical(r) && forall c :: InPoints(r, c) == (0 <= c < UINT32_MAX && !InPoints(a, c))
  }

  /** The set a list stands for. */
  ghost function Members(a: seq<int>): iset<int> { iset c | InPoints(a, c) }

  /** The operations are union, intersection and symmetric difference. */
  lemma OpIs(op: SetOp, a: seq<int>, b: seq<int>, r: seq<int>)
    requires IsOp(op, a, b, r)
    ensures op == Union ==> Members(r) == Members(a) + Members(b)
    ensures op == Inter ==> Members(r) == Members(a) * Members(b)
    ensures op == Xor ==> Members(r) == (Members(a) - Members(b)) + (Members(b) - Members(a))
  {
    hide InPoints, Canonical;
  }

  lemma InRange(a: seq<int>, c: int)
    requires Sorted(a) && AllU32(a) && InPoints(a, c)
    ensures 0 <= c < UINT32_MAX
  {
    InPointsOdd(a, c);
    if c < 0 { OddNone(a, c); }
    if c >= UINT32_MAX { OddAll(a, c); }
  }

  /** Complementing twice gives back a canonical list. */
  lemma ComplementInvolution(a: seq<int>, b: seq<int>, r: seq<int>)
    requires Canonical(a) && IsComplement(a, b) && IsComplement(b, r)
    ensures r == a
  {
    forall c ensures InPoints(r, c) == InPoints(a, c) {
      if InPoints(a, c) { InRange(a, c); }
    }
    CanonicalUnique(r, a);
  }
}
