/** Orders given by a comparison function, segments of a sequence, and what sorting a segment
    leaves unchanged. */
module SortSpec {

  type Cmp<!T> = (T, T) -> int

  /** The comparison is a total preorder. */
  ghost predicate Order<T(!new)>(cmp: Cmp<T>) {
    && (forall x, y :: cmp(x, y) < 0 <==> cmp(y, x) > 0)
    && (forall x, y, z :: cmp(x, y) <= 0 && cmp(y, z) <= 0 ==> cmp(x, z) <= 0)
  }

  lemma Opposite<T(!new)>(cmp: Cmp<T>, x: T, y: T)
    requires Order(cmp)
    ensures (cmp(x, y) < 0 <==> cmp(y, x) > 0) && (cmp(x, y) == 0 <==> cmp(y, x) == 0)
  {
  }

  lemma Trans<T(!new)>(cmp: Cmp<T>, x: T, y: T, z: T)
    requires Order(cmp) && cmp(x, y) <= 0 && cmp(y, z) <= 0
    ensures cmp(x, z) <= 0
  {
  }

  /** t is s with the elements of lo..hi rearranged. */
  ghost predicate Shuffled<T>(s: seq<T>, t: seq<T>, lo: int, hi: int) {
    && 0 <= lo <= hi <= |s| == |t|
    && s[..lo] == t[..lo] && s[hi..] == t[hi..] && multiset(s[lo..hi]) == multiset(t[lo..hi])
  }

  lemma ShuffledRefl<T>(s: seq<T>, lo: int, hi: int)
    requires 0 <= lo <= hi <= |s|
    ensures Shuffled(s, s, lo, hi)
  {
  }

  lemma ShuffledTrans<T>(s: seq<T>, t: seq<T>, u: seq<T>, lo: int, hi: int)
    requires Shuffled(s, t, lo, hi) && Shuffled(t, u, lo, hi)
    ensures Shuffled(s, u, lo, hi)
  {
  }

  /** A rearrangement of a part is one of the whole. */
  lemma ShuffledWiden<T>(s: seq<T>, t: seq<T>, lo: int, hi: int, lo': int, hi': int)
    requires Shuffled(s, t, lo, hi) && 0 <= lo' <= lo && hi <= hi' <= |s|
    ensures Shuffled(s, t, lo', hi')
  {
    assert s[lo'..hi'] == s[..lo][lo'..] + s[lo..hi] + s[hi..][..hi' - hi];
    assert t[lo'..hi'] == t[..lo][lo'..] + t[lo..hi] + t[hi..][..hi' - hi];
    assert t[..lo'] == t[..lo][..lo'] && s[..lo'] == s[..lo][..lo'];
    assert t[hi'..] == t[hi..][hi' - hi..] && s[hi'..] == s[hi..][hi' - hi..];
  }

  /** s with two elements exchanged. */
  function Swapped<T>(s: seq<T>, i: int, j: int): (t: seq<T>)
    requires 0 <= i < |s| && 0 <= j < |s|
    ensures |t| == |s|
  {
    s[i := s[j]][j := s[i]]
  }

  lemma ShuffledSwap<T>(s: seq<T>, i: int, j: int, lo: int, hi: int)
    requires 0 <= lo <= i < hi <= |s| && lo <= j < hi
    ensures Shuffled(s, Swapped(s, i, j), lo, hi)
    decreases if j < i then 1 else 0
  {
    hide Shuffled;
    if j < i {
      assert Swapped(s, i, j) == Swapped(s, j, i);
      ShuffledSwap(s, j, i, lo, hi);
    } else {
      ShuffledEnds(s, i, j);
      ShuffledWiden(s, Swapped(s, i, j), i, j + 1, lo, hi);
    }
  }

  lemma ShuffledEnds<T>(s: seq<T>, i: int, j: int)
    requires 0 <= i <= j < |s|
    ensures Shuffled(s, Swapped(s, i, j), i, j + 1)
  {
    var t := Swapped(s, i, j);
    if i == j {
      assert t == s;
    } else {
      var mid := s[i + 1..j];
      assert s[i..j + 1] == [s[i]] + mid + [s[j]];
      assert t[i..j + 1] == [s[j]] + mid + [s[i]];
    }
  }

  /** One exchange more. */
  lemma ShuffledNext<T>(s: seq<T>, t: seq<T>, i: int, j: int, lo: int, hi: int)
    requires Shuffled(s, t, lo, hi) && lo <= i < hi && lo <= j < hi
    ensures |s| == |t| && 0 <= lo && hi <= |t| && Shuffled(s, Swapped(t, i, j), lo, hi)
  {
    ShuffledSwap(t, i, j, lo, hi);
    ShuffledTrans(s, t, Swapped(t, i, j), lo, hi);
  }

  lemma ShuffledOutside<T>(s: seq<T>, t: seq<T>, lo: int, hi: int, k: int)
    requires Shuffled(s, t, lo, hi) && 0 <= k < |s| && !(lo <= k < hi)
    ensures s[k] == t[k]
  {
    if k < lo { assert s[k] == s[..lo][k] == t[..lo][k]; } else { assert s[k] == s[hi..][k - hi] == t[hi..][k - hi]; }
  }

  /** Every element of the rearranged part was there before. */
  lemma ShuffledMember<T>(s: seq<T>, t: seq<T>, lo: int, hi: int, k: int) returns (j: int)
    requires Shuffled(s, t, lo, hi) && lo <= k < hi
    ensures lo <= j < hi && s[j] == t[k]
  {
    assert t[k] == t[lo..hi][k - lo];
    assert t[k] in multiset(t[lo..hi]);
    assert t[k] in s[lo..hi];
    var i :| 0 <= i < hi - lo && s[lo..hi][i] == t[k];
    j := lo + i;
  }

  /** No element before p is greater than one from p on. */
  ghost predicate SepAt<T(!new)>(cmp: Cmp<T>, s: seq<T>, p: int) {
    forall i, j | 0 <= i < p <= j < |s| :: cmp(s[i], s[j]) <= 0
  }

  /** The same within a segment. */
  ghost predicate SepWithin<T(!new)>(cmp: Cmp<T>, s: seq<T>, lo: int, p: int, hi: int) {
    forall i, j | 0 <= lo <= i < p <= j < hi <= |s| :: cmp(s[i], s[j]) <= 0
  }

  ghost predicate Sorted<T(!new)>(cmp: Cmp<T>, s: seq<T>, lo: int, hi: int) {
    forall i, j | 0 <= lo <= i < j < hi <= |s| :: cmp(s[i], s[j]) <= 0
  }

  /** Rearranging a segment keeps the separations outside it. */
  lemma SepKeep<T(!new)>(cmp: Cmp<T>, s: seq<T>, t: seq<T>, lo: int, hi: int, p: int)
    requires Shuffled(s, t, lo, hi) && SepAt(cmp, s, p) && (p <= lo || p >= hi)
    ensures SepAt(cmp, t, p)
  {
    forall i, j | 0 <= i < p <= j < |t| ensures cmp(t[i], t[j]) <= 0 {
      var i', j' := i, j;
      if lo <= i < hi { i' := ShuffledMember(s, t, lo, hi, i); } else { ShuffledOutside(s, t, lo, hi, i); }
      if lo <= j < hi { j' := ShuffledMember(s, t, lo, hi, j); } else { ShuffledOutside(s, t, lo, hi, j); }
      assert cmp(s[i'], s[j']) <= 0;
    }
  }

  lemma SepInside<T(!new)>(cmp: Cmp<T>, s: seq<T>, lo: int, p: int, hi: int)
    requires 0 <= lo <= p <= hi <= |s| && SepAt(cmp, s, lo) && SepAt(cmp, s, hi) && SepWithin(cmp, s, lo, p, hi)
    ensures SepAt(cmp, s, p)
  {
  }

  /** Rearranging the part before p keeps the separation at p. */
  lemma SepWithinKeep<T(!new)>(cmp: Cmp<T>, s: seq<T>, t: seq<T>, lo: int, p: int, hi: int)
    requires Shuffled(s, t, lo, p) && SepWithin(cmp, s, lo, p, hi) && p <= hi <= |s|
    ensures SepWithin(cmp, t, lo, p, hi)
  {
    forall i, j | 0 <= lo <= i < p <= j < hi <= |t| ensures cmp(t[i], t[j]) <= 0 {
      var i' := ShuffledMember(s, t, lo, p, i);
      ShuffledOutside(s, t, lo, p, j);
      assert cmp(s[i'], s[j]) <= 0;
    }
  }

  lemma SortedKeep<T(!new)>(cmp: Cmp<T>, s: seq<T>, t: seq<T>, lo: int, p: int, hi: int)
    requires Shuffled(s, t, lo, p) && Sorted(cmp, s, p, hi) && p <= hi <= |s|
    ensures Sorted(cmp, t, p, hi)
  {
    forall i, j | 0 <= p <= i < j < hi <= |t| ensures cmp(t[i], t[j]) <= 0 {
      ShuffledOutside(s, t, lo, p, i);
      ShuffledOutside(s, t, lo, p, j);
    }
  }
}
