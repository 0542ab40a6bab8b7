/** CharRange: growable lists of interval endpoints and the set operations on them. */
module CharRanges {
  import opened Bytes
  import opened CharSet
  import opened CharAlgebra

  class CharRange {
    var points: array<u32>
    var len: nat

    ghost predicate Valid()
      reads this
    {
      len <= points.Length
    }

    function Contents(): (s: seq<u32>)
      requires Valid()
      reads this, points
    {
      points[..len]
    }

    constructor ()
      ensures Valid() && fresh(points) && Contents() == []
    {
      points := new u32[0];
      len := 0;
    }

    /** cr_realloc */
    method Realloc(size: nat)
      requires Valid()
      modifies this`points
      ensures Valid() && points.Length >= size && (points == old(points) || fresh(points))
      ensures Contents() == old(Contents())
    {
      if size > points.Length {
        var want := size;
        var grown := points.Length * 3 / 2;
        if grown > size { want := grown; }
        var b := new u32[want];
        for i := 0 to len
          invariant points == old(points) && b[..i] == points[..i]
        {
          b[i] := points[i];
          assert b[..i + 1] == b[..i] + [points[i]] && points[..i + 1] == points[..i] + [points[i]];
        }
        points := b;
      }
    }

    /** cr_add_point */
    method AddPoint(v: u32)
      requires Valid()
      modifies this, points
      ensures Valid() && (points == old(points) || fresh(points))
      ensures Contents() == old(Contents()) + [v]
    {
      if len >= points.Length { Realloc(len + 1); }
      points[len] := v;
      len := len + 1;
    }

    /** cr_add_interval */
    method AddInterval(c1: u32, c2: u32)
      requires Valid()
      modifies this, points
      ensures Valid() && (points == old(points) || fresh(points))
      ensures Contents() == old(Contents()) + [c1, c2]
    {
      if len + 2 > points.Length { Realloc(len + 2); }
      points[len] := c1;
      points[len + 1] := c2;
      len := len + 2;
    }

    /** cr_copy */
    method Copy(other: CharRange)
      requires Valid() && other.Valid() && other.points != points && other != this
      modifies this, points
      ensures Valid() && (points == old(points) || fresh(points))
      ensures Contents() == other.Contents()
    {
      Realloc(other.len);
      ghost var dst := points;
      for i := 0 to other.len
        invariant points == dst && points.Length >= other.len && other.points != points
        invariant other.points == old(other.points) && other.points[..] == old(other.points[..])
        invariant points[..i] == other.points[..i]
      {
        points[i] := other.points[i];
        assert points[..i + 1] == points[..i] + [points[i]] && other.points[..i + 1] == other.points[..i] + [points[i]];
      }
      len := other.len;
    }

    /** cr_compress: merge adjacent intervals and drop empty ones, in place. */
    method Compress()
      requires Valid() && Sorted(Contents())
      modifies this`len, points
      ensures Valid() && Canonical(Contents())
      ensures forall c :: InPoints(Contents(), c) == InPoints(old(Contents()), c)
    {
      hide SameOdd, RunOdd, Sorted, Increasing, Canonical, InPoints, Odd;
      ghost var was, out := Contents(), [];
      EvenLength(was);
      var pt, n := points, len;
      var i, j, k := 0, 0, 0;
      Nothing();
      while i + 1 < n
        invariant k % 2 == 0 && i % 2 == 0 && k <= i <= n == |was|
        invariant (forall x | i <= x < n :: pt[x] == was[x]) && pt[..k] == out
        invariant Increasing(out) && (0 < k && i < n ==> out[k - 1] < was[i])
        invariant SameOdd(out, was[..i])
      {
        SortedPair(was, i);
        if pt[i] == pt[i + 1] {
          SkipEmpty(was, i, out);
          i := i + 2;
        } else {
          j, out := CopyRun(pt, n, i, k, was, out);
          k := k + 2;
          i := j + 2;
        }
      }
      len := k;
      Finish(out, was, i);
    }

    /** cr_op: merge the endpoints of a and b in increasing order, keep those where membership in
        the result changes. */
    method Op(a: array<u32>, aLen: nat, b: array<u32>, bLen: nat, op: SetOp)
      requires Valid() && len == 0 && aLen <= a.Length && bLen <= b.Length
      requires Sorted(a[..aLen]) && Sorted(b[..bLen])
      requires a != points && b != points
      modifies this, points
      ensures Valid() && (points == old(points) || fresh(points))
      ensures IsOp(op, a[..aLen], b[..bLen], Contents())
    {
      hide Merged, NonDecreasing, Canonical, InPoints, Odd;
      ghost var A, B := a[..aLen], b[..bLen];
      var aIdx, bIdx := 0, 0;
      var v: u32 := 0;
      MergedStart(op, A, B);
      assert Contents() == [];
      while aIdx < aLen || bIdx < bLen
        invariant aIdx <= aLen && bIdx <= bLen
        invariant Valid() && a != points && b != points && (points == old(points) || fresh(points))
        invariant a[..aLen] == A && b[..bLen] == B
        invariant Merged(op, A, aIdx, B, bIdx, Contents(), v)
        decreases aLen - aIdx + bLen - bIdx
      {
        ghost var ai, bi, out, last := aIdx, bIdx, Contents(), v;
        assert (aIdx < aLen ==> a[aIdx] == A[aIdx]) && (bIdx < bLen ==> b[bIdx] == B[bIdx]);
        if aIdx < aLen && (bIdx >= bLen || a[aIdx] < b[bIdx]) {
          v := a[aIdx];
          aIdx := aIdx + 1;
        } else if aIdx < aLen && a[aIdx] == b[bIdx] {
          v := a[aIdx];
          aIdx := aIdx + 1;
          bIdx := bIdx + 1;
        } else {
          v := b[bIdx];
          bIdx := bIdx + 1;
        }
        var isIn := Combine(op, aIdx % 2 == 1, bIdx % 2 == 1);
        MergedNext(op, A, ai, aIdx, B, bi, bIdx, out, last, v);
        if isIn != (len % 2 == 1) { AddPoint(v); }
      }
      MergedEnd(op, A, B, Contents(), v);
      Compress();
    }

    /** cr_union1 */
    method Union1(b: array<u32>, bLen: nat)
      requires Valid() && Sorted(Contents()) && bLen <= b.Length && Sorted(b[..bLen])
      modifies this
      ensures Valid() && fresh(points)
      ensures IsOp(Union, old(Contents()), b[..bLen], Contents())
    {
      var a, n := points, len;
      len := 0;
      points := new u32[0];
      Op(a, n, b, bLen, Union);
    }

    /** cr_union_interval */
    method UnionInterval(c1: u32, c2: u32)
      requires Valid() && Sorted(Contents()) && c1 <= c2 < UINT32_MAX
      modifies this
      ensures Valid() && fresh(points) && Canonical(Contents())
      ensures forall c :: InPoints(Contents(), c) == (InPoints(old(Contents()), c) || c1 <= c <= c2)
    {
      var b := new u32[2];
      b[0] := c1;
      b[1] := ToU32(c2 + 1);
      ghost var one := b[..2];
      assert one == [c1, ToU32(c2 + 1)] && one[2..] == [];
      Union1(b, 2);
      assert forall c :: InPoints(one, c) == (c1 <= c < ToU32(c2 + 1));
    }

    /** cr_invert */
    method Invert()
      requires Valid() && Sorted(Contents())
      modifies this, points
      ensures Valid() && (points == old(points) || fresh(points))
      ensures IsComplement(old(Contents()), Contents())
    {
      hide Sorted, Canonical, InPoints;
      ghost var was := Contents();
      var n := len;
      Realloc(n + 2);
      var i := n;
      ghost var pts := points;
      while i > 0
        invariant 0 <= i <= n && points == pts && len == n && points[..i] == was[..i]
        invariant forall k | i < k <= n :: points[k] == was[k - 1]
      {
        points[i] := points[i - 1];
        i := i - 1;
      }
      points[0] := 0;
      points[n + 1] := UINT32_MAX;
      len := n + 2;
      assert Contents() == [0] + was + [UINT32_MAX];
      Wrapped(was);
      Compress();
      Complemented(was, Contents());
    }
  }

  /** p has no point after v before position i and none before v from i on. */
  ghost predicate Cut(p: seq<int>, i: nat, v: int) {
    i <= |p| && (forall k | 0 <= k < i :: p[k] <= v) && (forall k | i <= k < |p| :: v <= p[k])
  }

  /** out holds the changes of membership among the points of A before i and of B before j;
      v is the last of these points. */
  ghost predicate Merged(op: SetOp, A: seq<int>, i: nat, B: seq<int>, j: nat, out: seq<int>, v: int) {
    && Cut(A, i, v) && Cut(B, j, v) && Cut(out, |out|, v) && NonDecreasing(out)
    && (|out| % 2 == 1) == Combine(op, i % 2 == 1, j % 2 == 1)
    && OddMerged(op, A[..i], B[..j], out)
  }

  ghost predicate OddMerged(op: SetOp, p: seq<int>, q: seq<int>, out: seq<int>) {
    forall c :: Odd(out, c) == Combine(op, Odd(p, c), Odd(q, c))
  }

  lemma MergedStart(op: SetOp, A: seq<u32>, B: seq<u32>)
    ensures Merged(op, A, 0, B, 0, [], 0)
  {
    assert A[..0] == [] && B[..0] == [];
  }

  /** The points consumed: none, or one that equals v. */
  lemma CutNext(p: seq<int>, i: nat, i': nat, last: int, v: int)
    requires Cut(p, i, last) && NonDecreasing(p) && i <= i' <= i + 1 && i' <= |p| && last <= v
    requires (i < i' ==> p[i] == v) && (i == i' < |p| ==> v <= p[i])
    ensures Cut(p, i', v)
  {
  }

  lemma OddNext(p: seq<int>, i: nat, i': nat, v: int, c: int)
    requires Cut(p, i', v) && i <= i' <= i + 1 && (i < i' ==> p[i] == v)
    ensures Odd(p[..i'], c) == if v <= c then i' % 2 == 1 else Odd(p[..i], c)
  {
    if v <= c { OddAll(p[..i'], c); }
    if i < i' {
      assert p[..i'] == p[..i] + [v];
      OddStep(p[..i], v, c);
    }
  }

  /** v is the next point: A[i], B[j] or both. */
  lemma MergedNext(op: SetOp, A: seq<int>, i: nat, i': nat, B: seq<int>, j: nat, j': nat, out: seq<int>, last: int,
                   v: int)
    requires Merged(op, A, i, B, j, out, last) && NonDecreasing(A) && NonDecreasing(B)
    requires i <= i' <= i + 1 && j <= j' <= j + 1 && i + j < i' + j' && i' <= |A| && j' <= |B|
    requires (i < i' ==> A[i] == v) && (j < j' ==> B[j] == v)
    requires (i == i' < |A| ==> v <= A[i]) && (j == j' < |B| ==> v <= B[j])
    ensures Merged(op, A, i', B, j', if Combine(op, i' % 2 == 1, j' % 2 == 1) != (|out| % 2 == 1) then out + [v]
        else out, v)
  {
    var out' := if Combine(op, i' % 2 == 1, j' % 2 == 1) != (|out| % 2 == 1) then out + [v] else out;
    assert last <= v;
    CutNext(A, i, i', last, v);
    CutNext(B, j, j', last, v);
    assert Cut(out', |out'|, v) && NonDecreasing(out');
    hide NonDecreasing, Cut;
    OddMergedNext(op, A, i, i', B, j, j', out, v, out');
  }

  lemma OddMergedNext(op: SetOp, A: seq<int>, i: nat, i': nat, B: seq<int>, j: nat, j': nat, out: seq<int>, v: int,
                      out': seq<int>)
    requires i <= i' <= |A| && j <= j' <= |B| && i' <= i + 1 && j' <= j + 1
    requires OddMerged(op, A[..i], B[..j], out) && Cut(A, i', v) && Cut(B, j', v) && Cut(out', |out'|, v)
    requires (i < i' ==> A[i] == v) && (j < j' ==> B[j] == v)
    requires out' == out || out' == out + [v]
    requires (|out'| % 2 == 1) == Combine(op, i' % 2 == 1, j' % 2 == 1)
    ensures OddMerged(op, A[..i'], B[..j'], out')
  {
    hide Cut;
    var p, q := A[..i'], B[..j'];
    forall c: int ensures Odd(out', c) == Combine(op, Odd(p, c), Odd(q, c)) {
      OddNext(A, i, i', v, c);
      OddNext(B, j, j', v, c);
      if v <= c {
        AllPassed(out', v, c);
      } else {
        assert Odd(out, c) == Combine(op, Odd(A[..i], c), Odd(B[..j], c));
        OddStep(out, v, c);
      }
    }
  }

  lemma AllPassed(p: seq<int>, v: int, c: int)
    requires Cut(p, |p|, v) && v <= c
    ensures Odd(p, c) == (|p| % 2 == 1)
  {
    OddAll(p, c);
  }

  lemma MergedEnd(op: SetOp, A: seq<int>, B: seq<int>, out: seq<int>, v: int)
    requires Merged(op, A, |A|, B, |B|, out, v) && Sorted(A) && Sorted(B)
    ensures Sorted(out)
    ensures forall c :: InPoints(out, c) == Combine(op, InPoints(A, c), InPoints(B, c))
  {
    assert A[..|A|] == A && B[..|B|] == B;
    forall c: int ensures InPoints(out, c) == Combine(op, InPoints(A, c), InPoints(B, c)) {
      InPointsOdd(out, c);
      InPointsOdd(A, c);
      InPointsOdd(B, c);
      assert Odd(out, c) == Combine(op, Odd(A[..|A|], c), Odd(B[..|B|], c));
    }
  }

  lemma Wrapped(s: seq<u32>)
    requires Sorted(s)
    ensures Sorted([0] + s + [UINT32_MAX])
    ensures forall c :: InPoints([0] + s + [UINT32_MAX], c) == (0 <= c < UINT32_MAX && !InPoints(s, c))
  {
    var t := [0] + s + [UINT32_MAX];
    forall c: int ensures InPoints(t, c) == (0 <= c < UINT32_MAX && !InPoints(s, c)) {
      InPointsOdd(t, c);
      InPointsOdd(s, c);
      OddAppend([0] + s, [UINT32_MAX], c);
      OddAppend([0], s, c);
      OddStep([], 0, c);
      OddStep([], UINT32_MAX, c);
      assert [] + [0] == [0] && [] + [UINT32_MAX] == [UINT32_MAX];
      if c < 0 { OddNone(s, c); }
      if c >= UINT32_MAX { OddAll(s, c); }
    }
  }

  lemma Complemented(s: seq<u32>, r: seq<u32>)
    requires Canonical(r) && forall c :: InPoints(r, c) == InPoints([0] + s + [UINT32_MAX], c)
    requires forall c :: InPoints([0] + s + [UINT32_MAX], c) == (0 <= c < UINT32_MAX && !InPoints(s, c))
    ensures IsComplement(s, r)
  {
  }

  /** The last interval of the run of adjacent intervals that starts at i. */
  method LastAdjacent(pt: array<u32>, len: nat, i: nat, ghost was: seq<u32>) returns (j: nat)
    requires Sorted(was) && |was| == len <= pt.Length && i + 1 < len && i % 2 == 0
    requires (forall x | i <= x < len :: pt[x] == was[x]) && was[i] < was[i + 1]
    ensures i <= j && j + 1 < len && j % 2 == 0 && was[i] < was[j + 1]
    ensures j + 2 < len ==> was[j + 1] < was[j + 2]
    ensures RunOdd(was, i, j)
  {
    hide RunOdd, Sorted;
    j := i;
    EvenLength(was);
    SortedPair(was, i);
    RunStart(was, i);
    while j + 3 < len && pt[j + 1] == pt[j + 2]
      invariant i <= j && j + 1 < len && j % 2 == 0 && was[i] < was[j + 1]
      invariant j + 2 < len ==> was[j + 1] <= was[j + 2]
      invariant RunOdd(was, i, j)
    {
      RunNext(was, i, j);
      SortedPair(was, j + 2);
      j := j + 2;
    }
  }

  /** Merge the run of adjacent intervals that starts at i into one, stored at k. */
  method CopyRun(pt: array<u32>, n: nat, i: nat, k: nat, ghost was: seq<u32>, ghost out: seq<u32>)
    returns (j: nat, ghost out': seq<u32>)
    requires Sorted(was) && |was| == n <= pt.Length && i + 1 < n && i % 2 == 0 && k <= i
    requires (forall x | i <= x < n :: pt[x] == was[x]) && was[i] < was[i + 1]
    requires pt[..k] == out && Increasing(out) && (0 < k ==> out[k - 1] < was[i]) && SameOdd(out, was[..i])
    modifies pt
    ensures i <= j && j + 1 < n && j % 2 == 0
    ensures pt[..k + 2] == out' && Increasing(out') && SameOdd(out', was[..j + 2])
    ensures j + 2 < n ==> out'[k + 1] < was[j + 2]
    ensures forall x | j + 2 <= x < n :: pt[x] == was[x]
  {
    hide SameOdd, RunOdd, Sorted, Increasing;
    j := LastAdjacent(pt, n, i, was);
    out' := out + [was[i], was[j + 1]];
    RunEnd(was, i, j, out);
    Grow(out, was[i], was[j + 1]);
    pt[k] := pt[i];
    pt[k + 1] := pt[j + 1];
    assert pt[..k + 2] == pt[..k] + [pt[k], pt[k + 1]];
  }

  lemma Nothing()
    ensures Increasing([]) && forall s: seq<int> :: SameOdd([], s[..0])
  {
    forall s: seq<int>, c: int ensures Odd([], c) == Odd(s[..0], c) { assert s[..0] == []; }
  }

  lemma EvenLength(s: seq<int>)
    requires Sorted(s)
    ensures |s| % 2 == 0
  {
  }

  lemma SortedPair(s: seq<int>, i: nat)
    requires Sorted(s) && i + 2 <= |s|
    ensures s[i] <= s[i + 1] && (i + 2 < |s| ==> s[i + 1] <= s[i + 2])
  {
  }

  lemma Grow(out: seq<int>, v: int, w: int)
    requires Increasing(out) && v < w && (out != [] ==> out[|out| - 1] < v)
    ensures Increasing(out + [v, w])
  {
  }

  lemma Finish(out: seq<u32>, was: seq<u32>, i: nat)
    requires Sorted(was) && Increasing(out) && |out| % 2 == 0 && i % 2 == 0 && |was| - 1 <= i <= |was|
        && SameOdd(out, was[..i])
    ensures Canonical(out) && forall c :: InPoints(out, c) == InPoints(was, c)
  {
    assert was[..i] == was;
    SameMembers(out, was);
  }

  /** The same code points are in. */
  ghost predicate SameOdd(p: seq<int>, q: seq<int>) {
    forall c :: Odd(p, c) == Odd(q, c)
  }

  lemma SameMembers(p: seq<int>, q: seq<int>)
    requires Sorted(p) && Sorted(q) && SameOdd(p, q)
    ensures forall c :: InPoints(p, c) == InPoints(q, c)
  {
    forall c ensures InPoints(p, c) == InPoints(q, c) {
      InPointsOdd(p, c);
      InPointsOdd(q, c);
    }
  }

  lemma PairStep(s: seq<int>, i: nat, c: int)
    requires i + 2 <= |s|
    ensures Odd(s[..i + 2], c) == (Odd(s[..i], c) != ((s[i] <= c) != (s[i + 1] <= c)))
  {
    assert s[..i + 2] == s[..i] + [s[i], s[i + 1]];
    OddAppend(s[..i], [s[i], s[i + 1]], c);
    OddPair(s[i], s[i + 1], c);
  }

  lemma SkipEmpty(s: seq<int>, i: nat, out: seq<int>)
    requires i + 2 <= |s| && s[i] == s[i + 1] && SameOdd(out, s[..i])
    ensures SameOdd(out, s[..i + 2])
  {
    forall c: int ensures Odd(out, c) == Odd(s[..i + 2], c) {
      PairStep(s, i, c);
      assert Odd(out, c) == Odd(s[..i], c);
    }
  }

  /** q counts like p followed by v and w. */
  ghost predicate OddLike(q: seq<int>, p: seq<int>, v: int, w: int) {
    forall c :: Odd(q, c) == (Odd(p, c) != ((v <= c) != (w <= c)))
  }

  /** The points i..j + 1 count like the first and the last of them. */
  ghost predicate RunOdd(s: seq<int>, i: nat, j: nat)
    requires i <= j && j + 2 <= |s|
  {
    OddLike(s[..j + 2], s[..i], s[i], s[j + 1])
  }

  lemma RunStart(s: seq<int>, i: nat)
    requires i + 2 <= |s|
    ensures RunOdd(s, i, i)
  {
    var q := s[..i + 2];
    forall c: int ensures Odd(q, c) == (Odd(s[..i], c) != ((s[i] <= c) != (s[i + 1] <= c))) { PairStep(s, i, c); }
  }

  lemma RunNext(s: seq<int>, i: nat, j: nat)
    requires i <= j && j + 4 <= |s| && s[j + 1] == s[j + 2] && RunOdd(s, i, j)
    ensures RunOdd(s, i, j + 2)
  {
    var p, m, q := s[..i], s[..j + 2], s[..j + 4];
    forall c: int ensures Odd(q, c) == (Odd(p, c) != ((s[i] <= c) != (s[j + 3] <= c))) {
      PairStep(s, j + 2, c);
      assert Odd(m, c) == (Odd(p, c) != ((s[i] <= c) != (s[j + 1] <= c)));
    }
  }

  lemma RunEnd(s: seq<int>, i: nat, j: nat, out: seq<int>)
    requires i <= j && j + 2 <= |s| && RunOdd(s, i, j) && SameOdd(out, s[..i])
    ensures SameOdd(out + [s[i], s[j + 1]], s[..j + 2])
  {
    var p, q := out + [s[i], s[j + 1]], s[..j + 2];
    forall c: int ensures Odd(p, c) == Odd(q, c) {
      assert Odd(out, c) == Odd(s[..i], c);
      OddAppend(out, [s[i], s[j + 1]], c);
      OddPair(s[i], s[j + 1], c);
    }
  }
}
