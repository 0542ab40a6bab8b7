/** Character classes in bytecode: re_emit_range turns a point list into a range instruction,
    the interpreter finds a character in it by binary search. */
module RegexRange {
  import opened Bytes
  import opened CharSet
  import opened RegexCode

  /** The inclusive bounds stored for the intervals from index k on. */
  function Bounds(pts: seq<int>, wide: bool): (rs: seq<(int, int)>)
    ensures |rs| == |pts| / 2
  {
    if |pts| < 2 then []
    else
      var high := pts[1] - 1;
      [(pts[0], if !wide && high == UINT32_MAX - 1 then 0xffff else high)] + Bounds(pts[2..], wide)
  }

  /** The instruction emitted for a class of fewer than 65535 intervals. */
  function ClassInsn(pts: seq<int>): Insn {
    if |pts| < 2 then Char32(UINT32_MAX)
    else
      var last := pts[|pts| - 1];
      var high := if last == UINT32_MAX then pts[|pts| - 2] else last;
      if high <= 0xffff then Range(Bounds(pts, false)) else Range32(Bounds(pts, true))
  }

  /** The binary search between two indexes. The upper index is unsigned in the program. */
  predicate Search(rs: seq<(int, int)>, c: int, lo: nat, hi: int)
    requires hi < |rs|
    decreases hi + 1 - lo
  {
    if lo > hi then false
    else
      var idx := (lo + hi) / 2;
      if c < rs[idx].0 then Search(rs, c, lo, idx - 1)
      else if c > rs[idx].1 then Search(rs, c, idx + 1, hi)
      else true
  }

  /** The test made by the range instructions (`wide` for the 32-bit form). */
  predicate RangeTest(rs: seq<(int, int)>, wide: bool, c: int) {
    |rs| > 0 && c >= rs[0].0 &&
    var high := rs[|rs| - 1].1;
    if !wide && c >= 0xffff && high == 0xffff then true
    else c <= high && Search(rs, c, 0, |rs| - 1)
  }

  /** Ranges in increasing order, as a canonical class produces them. */
  predicate Sorted(rs: seq<(int, int)>) {
    (forall k | 0 <= k < |rs| :: rs[k].0 <= rs[k].1) &&
    (forall j, k | 0 <= j < k < |rs| :: rs[j].1 < rs[k].0)
  }

  predicate Within(rs: seq<(int, int)>, c: int, lo: nat, hi: int)
    requires hi < |rs|
  {
    exists k | lo <= k <= hi :: rs[k].0 <= c <= rs[k].1
  }

  lemma {:induction false} SearchFinds(rs: seq<(int, int)>, c: int, lo: nat, hi: int)
    requires Sorted(rs) && hi < |rs|
    ensures Search(rs, c, lo, hi) <==> Within(rs, c, lo, hi)
    decreases hi + 1 - lo
  {
    if lo <= hi {
      var idx := (lo + hi) / 2;
      if c < rs[idx].0 {
        SearchFinds(rs, c, lo, idx - 1);
        assert forall k | idx <= k <= hi :: c < rs[k].0;
      } else if c > rs[idx].1 {
        SearchFinds(rs, c, idx + 1, hi);
        assert forall k | lo <= k <= idx :: c > rs[k].1;
      }
    }
  }

  /** Membership in a list of inclusive ranges. */
  predicate InPairs(rs: seq<(int, int)>, c: int) {
    rs != [] && (rs[0].0 <= c <= rs[0].1 || InPairs(rs[1..], c))
  }

  lemma {:induction false} InPairsAt(rs: seq<(int, int)>, c: int)
    ensures InPairs(rs, c) <==> exists k | 0 <= k < |rs| :: rs[k].0 <= c <= rs[k].1
  {
    if rs != [] {
      InPairsAt(rs[1..], c);
      if k :| 0 <= k < |rs| && rs[k].0 <= c <= rs[k].1 {
        if k > 0 { assert rs[1..][k - 1] == rs[k]; }
      }
    }
  }

  /** The 32-bit bounds denote the class. */
  lemma {:induction false} WideMembers(pts: seq<int>, c: int)
    ensures InPairs(Bounds(pts, true), c) <==> InPoints(pts, c)
  {
    if |pts| >= 2 { WideMembers(pts[2..], c); }
  }

  lemma {:induction false} WideBounds(pts: seq<int>)
    requires Canonical(pts)
    ensures var rs := Bounds(pts, true);
      Sorted(rs) && forall k | 0 <= k < |rs| :: IsU32(rs[k].0) && IsU32(rs[k].1)
  {
    if |pts| >= 2 {
      var rest := pts[2..];
      var tail := Bounds(rest, true);
      assert Canonical(rest) by { assert forall i | 0 <= i < |rest| :: rest[i] == pts[i + 2]; }
      WideBounds(rest);
      var rs := Bounds(pts, true);
      assert rs[1..] == tail && rs[0] == (pts[0], pts[1] - 1);
      if tail != [] { assert tail[0].0 == pts[2]; }
      assert forall k | 0 <= k < |tail| :: rs[0].1 < tail[k].0;
      assert forall k | 1 <= k < |rs| :: rs[k] == tail[k - 1];
    }
  }

  /** All points fit 16 bits, except that the last may be the upper end of the code space. */
  predicate NarrowPoints(pts: seq<int>) {
    (forall i | 0 <= i < |pts| - 1 :: pts[i] <= 0xffff) &&
    (|pts| > 0 ==> pts[|pts| - 1] <= 0xffff || pts[|pts| - 1] == UINT32_MAX)
  }

  /** The 16-bit bounds are the 32-bit ones, with 0xffff standing for an unbounded last range. */
  lemma {:induction false} NarrowBounds(pts: seq<int>)
    requires Canonical(pts) && |pts| >= 2 && NarrowPoints(pts)
    ensures var rs, ws := Bounds(pts, false), Bounds(pts, true);
      && (forall k | 0 <= k < |rs| :: IsU16(rs[k].0) && IsU16(rs[k].1))
      && rs[|rs| - 1].0 == ws[|rs| - 1].0
      && (if pts[|pts| - 1] == UINT32_MAX
          then rs[|rs| - 1].1 == 0xffff && ws[|rs| - 1].1 == UINT32_MAX - 1 && rs[..|rs| - 1] == ws[..|rs| - 1]
          else rs[|rs| - 1].1 < 0xffff && rs == ws)
  {
    var rest := pts[2..];
    if |rest| >= 2 {
      assert forall i | 0 <= i < |rest| :: rest[i] == pts[i + 2];
      NarrowBounds(rest);
      var rs, ws := Bounds(pts, false), Bounds(pts, true);
      assert rs[0] == ws[0];
      assert rs[1..] == Bounds(rest, false) && ws[1..] == Bounds(rest, true);
      assert rs == [rs[0]] + rs[1..] && ws == [ws[0]] + ws[1..];
    }
  }

  lemma ClassIsNarrow(pts: seq<int>)
    requires Canonical(pts) && |pts| >= 2 && ClassInsn(pts).Range?
    ensures NarrowPoints(pts)
  {
    assert forall i | 0 <= i < |pts| - 1 :: pts[i] < pts[|pts| - 1];
    assert forall i | 0 <= i < |pts| - 2 :: pts[i] < pts[|pts| - 2];
  }

  lemma ClassEncodable(pts: seq<int>)
    requires Canonical(pts) && |pts| < 2 * 65535
    ensures Encodable(ClassInsn(pts))
  {
    if |pts| >= 2 {
      if ClassInsn(pts).Range? { ClassIsNarrow(pts); NarrowBounds(pts); } else { WideBounds(pts); }
    }
  }

  /** The test an emitted class instruction makes on a character. */
  predicate ClassTest(i: Insn, c: int) {
    match i
    case Range(rs) => RangeTest(rs, false, c)
    case Range32(rs) => RangeTest(rs, true, c)
    case Char32(k) => c == k
    case _ => false
  }

  /** The emitted instruction accepts exactly the class, for every character below 2^32 - 1. */
  lemma ClassTestExact(pts: seq<int>, c: int)
    requires Canonical(pts) && 0 <= c < UINT32_MAX
    ensures ClassTest(ClassInsn(pts), c) <==> InPoints(pts, c)
  {
    if |pts| >= 2 {
      if ClassInsn(pts).Range? { NarrowTest(pts, c); } else { WideTest(pts, c); }
    }
  }

  /** On sorted ranges the search over the whole list decides membership. */
  lemma SearchMembers(rs: seq<(int, int)>, c: int)
    requires Sorted(rs) && rs != []
    ensures Search(rs, c, 0, |rs| - 1) <==> InPairs(rs, c)
  {
    SearchFinds(rs, c, 0, |rs| - 1);
    InPairsAt(rs, c);
  }

  lemma SortedSpan(rs: seq<(int, int)>, c: int)
    requires Sorted(rs) && InPairs(rs, c)
    ensures rs[0].0 <= c <= rs[|rs| - 1].1
  {
    InPairsAt(rs, c);
    var k :| 0 <= k < |rs| && rs[k].0 <= c <= rs[k].1;
    assert k == 0 || rs[0].1 < rs[k].0;
    assert k == |rs| - 1 || rs[k].1 < rs[|rs| - 1].0;
  }

  /** Where no infinity mark is involved, the test decides membership. */
  lemma RangeTestMembers(rs: seq<(int, int)>, wide: bool, c: int)
    requires Sorted(rs) && rs != []
    requires wide || c < 0xffff || rs[|rs| - 1].1 < 0xffff
    ensures RangeTest(rs, wide, c) <==> InPairs(rs, c)
  {
    SearchMembers(rs, c);
    if InPairs(rs, c) { SortedSpan(rs, c); }
  }

  lemma WideTest(pts: seq<int>, c: int)
    requires Canonical(pts) && |pts| >= 2
    ensures RangeTest(Bounds(pts, true), true, c) <==> InPoints(pts, c)
  {
    WideBounds(pts);
    WideMembers(pts, c);
    RangeTestMembers(Bounds(pts, true), true, c);
  }

  lemma SameMembers(rs: seq<(int, int)>, ws: seq<(int, int)>, c: int)
    requires |rs| == |ws| > 0 && rs[..|rs| - 1] == ws[..|rs| - 1]
    requires rs[|rs| - 1].0 == ws[|rs| - 1].0 && c <= rs[|rs| - 1].1 && c <= ws[|rs| - 1].1
    ensures InPairs(rs, c) <==> InPairs(ws, c)
  {
    var last := |rs| - 1;
    forall k | 0 <= k < last ensures rs[k] == ws[k] { assert rs[..last][k] == ws[..last][k]; }
    assert rs[last].0 <= c <= rs[last].1 <==> ws[last].0 <= c <= ws[last].1;
    assert (exists k | 0 <= k < |rs| :: rs[k].0 <= c <= rs[k].1) <==> (exists k | 0 <= k < |ws| ::
        ws[k].0 <= c <= ws[k].1);
    InPairsAt(rs, c);
    InPairsAt(ws, c);
  }

  lemma SortedReplaceLast(ws: seq<(int, int)>, high: int)
    requires Sorted(ws) && ws != [] && ws[|ws| - 1].0 <= high
    ensures Sorted(ws[..|ws| - 1] + [(ws[|ws| - 1].0, high)])
  {
  }

  lemma NarrowTest(pts: seq<int>, c: int)
    requires Canonical(pts) && |pts| >= 2 && ClassInsn(pts).Range? && 0 <= c < UINT32_MAX
    ensures RangeTest(Bounds(pts, false), false, c) <==> InPoints(pts, c)
  {
    var rs, ws := Bounds(pts, false), Bounds(pts, true);
    var last := |rs| - 1;
    ClassIsNarrow(pts);
    NarrowBounds(pts);
    WideBounds(pts);
    WideMembers(pts, c);
    if pts[|pts| - 1] != UINT32_MAX {
      RangeTestMembers(rs, false, c);
    } else if c < 0xffff {
      assert rs[last].0 <= 0xffff;
      SameMembers(rs, ws, c);
      SortedReplaceLast(ws, rs[last].1);
      assert rs == ws[..last] + [rs[last]];
      RangeTestMembers(rs, false, c);
    } else {
      assert rs[0].0 <= c by { if last > 0 { assert rs[0] == rs[..last][0] == ws[0]; } }
      assert ws[last].0 <= c <= ws[last].1;
      InPairsAt(ws, c);
    }
  }
}
