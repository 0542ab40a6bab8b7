/** Sets of code points as lists of interval endpoints: points[0] <= c < points[1],
    points[2] <= c < points[3], and so on. */
module CharSet {
  import opened Bytes

  /** c lies in one of the intervals. */
  predicate InPoints(pts: seq<int>, c: int) {
    |pts| >= 2 && (pts[0] <= c < pts[1] || InPoints(pts[2..], c))
  }

  predicate NonDecreasing(pts: seq<int>) {
    forall i, j | 0 <= i < j < |pts| :: pts[i] <= pts[j]
  }

  predicate Increasing(pts: seq<int>) {
    forall i, j | 0 <= i < j < |pts| :: pts[i] < pts[j]
  }

  predicate AllU32(pts: seq<int>) {
    forall i | 0 <= i < |pts| :: IsU32(pts[i])
  }

  /** What the set operations leave behind: non-empty, disjoint, non-adjacent intervals. */
  predicate Canonical(pts: seq<int>) {
    |pts| % 2 == 0 && Increasing(pts) && AllU32(pts)
  }
}
