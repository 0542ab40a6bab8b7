/** rqsort: three-way quicksort with an explicit stack of 50 segments, heapsort below depth 50 and
    insertion sort for short segments, in place. */
module RqSort {
  import opened SortSpec

  /** swap */
  method Swap<T(!new)>(a: array<T>, i: nat, j: nat)
    requires i < a.Length && j < a.Length
    modifies a
    ensures a[..] == Swapped(old(a[..]), i, j)
  {
    ghost var s := a[..];
    a[i], a[j] := a[j], a[i];
    assert a[..] == s[i := s[j]][j := s[i]];
  }

  /** Exchange two blocks of k elements. */
  method SwapBlock<T(!new)>(a: array<T>, x: nat, y: nat, k: nat)
    requires x + k <= y && y + k <= a.Length
    modifies a
    ensures Shuffled(old(a[..]), a[..], x, y + k) && Exchanged(old(a[..]), a[..], x, y, k)
  {
    hide Shuffled, Exchanged, Swapped;
    ghost var s := a[..];
    ShuffledRefl(s, x, y + k);
    ExchangedNone(s, x, y);
    for i := 0 to k
      invariant Shuffled(s, a[..], x, y + k) && Exchanged(s, a[..], x, y, i)
    {
      ghost var t := a[..];
      Swap(a, x + i, y + i);
      ShuffledNext(s, t, x + i, y + i, x, y + k);
      ExchangedNext(s, t, x, y, i);
    }
  }

  /** t is s with the blocks of k elements at x and y exchanged. */
  ghost predicate Exchanged<T>(s: seq<T>, t: seq<T>, x: int, y: int, k: int) {
    && 0 <= x && 0 <= k && x + k <= y && y + k <= |s| == |t|
    && (forall p | x <= p < x + k :: t[p] == s[y + (p - x)])
    && (forall p | y <= p < y + k :: t[p] == s[x + (p - y)])
    && (forall p | 0 <= p < |s| && !(x <= p < x + k) && !(y <= p < y + k) :: t[p] == s[p])
  }

  lemma ExchangedNone<T>(s: seq<T>, x: int, y: int)
    requires 0 <= x <= y <= |s|
    ensures Exchanged(s, s, x, y, 0)
  {
  }

  lemma ExchangedNext<T>(s: seq<T>, t: seq<T>, x: int, y: int, k: int)
    requires Exchanged(s, t, x, y, k) && x + k < y && y + k < |s|
    ensures |t| == |s| && Exchanged(s, Swapped(t, x + k, y + k), x, y, k + 1)
  {
  }

  /** Insertion sort of a[lo..lo + n]. */
  method InsertionSort<T(!new)>(a: array<T>, lo: nat, n: nat, cmp: Cmp<T>)
    requires lo + n <= a.Length && Order(cmp)
    modifies a
    ensures Shuffled(old(a[..]), a[..], lo, lo + n) && Sorted(cmp, a[..], lo, lo + n)
  {
    hide Order, Shuffled;
    ghost var s := a[..];
    ShuffledRefl(s, lo, lo + n);
    var pi, top := lo + 1, lo + n;
    while pi < top
      invariant lo < pi && Shuffled(s, a[..], lo, top) && Sorted(cmp, a[..], lo, if pi < top then pi else top)
    {
      Insert(a, lo, pi, cmp, s, top);
      pi := pi + 1;
    }
  }

  /** Move a[pi] down to its place in the sorted a[lo..pi]. */
  method Insert<T(!new)>(a: array<T>, lo: nat, pi: nat, cmp: Cmp<T>, ghost s: seq<T>, top: nat)
    requires lo < pi < top <= a.Length && Order(cmp)
    requires Shuffled(s, a[..], lo, top) && Sorted(cmp, a[..], lo, pi)
    modifies a
    ensures Shuffled(s, a[..], lo, top) && Sorted(cmp, a[..], lo, pi + 1)
  {
    SortedBut(cmp, a[..], lo, pi);
    hide Order, Shuffled, Sorted, But, Swapped;
    var pj := pi;
    while pj > lo && cmp(a[pj - 1], a[pj]) > 0
      invariant lo <= pj <= pi && Shuffled(s, a[..], lo, top) && But(cmp, a[..], lo, pi, pj)
    {
      InsertStep(a, lo, pi, pj, cmp, s, top);
      pj := pj - 1;
    }
    ButDone(cmp, a[..], lo, pi, pj);
  }

  method InsertStep<T(!new)>(a: array<T>, ghost lo: nat, ghost pi: nat, pj: nat, cmp: Cmp<T>, ghost s: seq<T>,
                             ghost top: nat)
    requires lo < pj <= pi < top <= a.Length && Order(cmp) && cmp(a[pj - 1], a[pj]) > 0
    requires Shuffled(s, a[..], lo, top) && But(cmp, a[..], lo, pi, pj)
    modifies a
    ensures Shuffled(s, a[..], lo, top) && But(cmp, a[..], lo, pi, pj - 1)
  {
    hide Order, Shuffled, But, Swapped;
    ButStep(cmp, a[..], lo, pi, pj);
    ShuffledNext(s, a[..], pj, pj - 1, lo, top);
    Swap(a, pj, pj - 1);
  }

  /** lo..pi is sorted, but for what lies before element q. */
  ghost predicate But<T(!new)>(cmp: Cmp<T>, s: seq<T>, lo: int, pi: int, q: int) {
    0 <= lo <= pi < |s| && forall i, j | lo <= i < j <= pi && j != q :: cmp(s[i], s[j]) <= 0
  }

  lemma SortedBut<T(!new)>(cmp: Cmp<T>, s: seq<T>, lo: int, pi: int)
    requires 0 <= lo <= pi < |s| && Sorted(cmp, s, lo, pi)
    ensures But(cmp, s, lo, pi, pi)
  {
  }

  lemma ButStep<T(!new)>(cmp: Cmp<T>, s: seq<T>, lo: int, pi: int, q: int)
    requires But(cmp, s, lo, pi, q) && lo < q <= pi && cmp(s[q - 1], s[q]) > 0 && Order(cmp)
    ensures But(cmp, Swapped(s, q, q - 1), lo, pi, q - 1)
  {
    var t := Swapped(s, q, q - 1);
    Opposite(cmp, s[q - 1], s[q]);
    hide Order;
    forall i, j | lo <= i < j <= pi && j != q - 1 ensures cmp(t[i], t[j]) <= 0 {
      if j == q {
        if i == q - 1 { } else { assert cmp(s[i], s[q - 1]) <= 0; }
      } else if i == q {
        assert cmp(s[q - 1], s[j]) <= 0;
      } else if i == q - 1 {
        assert cmp(s[q], s[j]) <= 0;
      } else {
        assert cmp(s[i], s[j]) <= 0;
      }
    }
  }

  lemma ButDone<T(!new)>(cmp: Cmp<T>, s: seq<T>, lo: int, pi: int, q: int)
    requires But(cmp, s, lo, pi, q) && lo <= q <= pi && (q > lo ==> cmp(s[q - 1], s[q]) <= 0) && Order(cmp)
    ensures Sorted(cmp, s, lo, pi + 1)
  {
    hide Order;
    forall i | lo <= i < q ensures cmp(s[i], s[q]) <= 0 {
      if i < q - 1 {
        assert cmp(s[i], s[q - 1]) <= 0;
        Trans(cmp, s[i], s[q - 1], s[q]);
      }
    }
  }

  // ---- heapsort

  function Par(c: int): int { (c - 1) / 2 }

  /** Node c of the binary heap at lo does not exceed node p. */
  ghost predicate Below<T(!new)>(cmp: Cmp<T>, s: seq<T>, lo: int, c: int, p: int) {
    0 <= lo + c < |s| && 0 <= lo + p < |s| && cmp(s[lo + c], s[lo + p]) <= 0
  }

  /** In the heap of n nodes no child of the nodes from `from` on exceeds its parent, except the
      children of r. */
  ghost predicate Heap<T(!new)>(cmp: Cmp<T>, s: seq<T>, lo: int, n: int, from: int, r: int) {
    && 0 <= lo && 0 <= n && lo + n <= |s|
    && forall c | 0 < c < n && Par(c) >= from && Par(c) != r :: Below(cmp, s, lo, c, Par(c))
  }

  /** The children of r do not exceed the parent of r. */
  ghost predicate Grand<T(!new)>(cmp: Cmp<T>, s: seq<T>, lo: int, n: int, from: int, r: int) {
    r > 0 && Par(r) >= from ==> forall c | 0 < c < n && Par(c) == r :: Below(cmp, s, lo, c, Par(r))
  }

  /** c is the greatest child of r. */
  ghost predicate Greatest<T(!new)>(cmp: Cmp<T>, s: seq<T>, lo: int, n: int, r: int, c: int) {
    && 0 < c < n && Par(c) == r
    && forall d | 0 < d < n && Par(d) == r :: Below(cmp, s, lo, d, c)
  }

  /** Let a[lo + i] sink to its place in the heap of n nodes. */
  method Sift<T(!new)>(a: array<T>, lo: nat, i: nat, n: nat, cmp: Cmp<T>)
    requires lo + n <= a.Length && i < n && Order(cmp) && Heap(cmp, a[..], lo, n, i + 1, -1)
    modifies a
    ensures Shuffled(old(a[..]), a[..], lo, lo + n) && Heap(cmp, a[..], lo, n, i, -1)
  {
    ghost var s := a[..];
    ShuffledRefl(s, lo, lo + n);
    SiftStart(cmp, s, lo, n, i);
    hide Order, Shuffled, Heap, Grand, Greatest, Swapped;
    var r := i;
    while r * 2 + 1 < n
      invariant i <= r < n && Shuffled(s, a[..], lo, lo + n)
      invariant Heap(cmp, a[..], lo, n, i, r) && Grand(cmp, a[..], lo, n, i, r)
    {
      var c := GreatestChild(a, lo, n, r, cmp);
      if cmp(a[lo + r], a[lo + c]) > 0 {
        SiftDone(cmp, a[..], lo, n, i, r, c);
        return;
      }
      SiftOnce(a, lo, i, n, r, c, cmp, s);
      r := c;
    }
    SiftLeaf(cmp, a[..], lo, n, i, r);
  }

  method SiftOnce<T(!new)>(a: array<T>, lo: nat, ghost i: nat, ghost n: nat, r: nat, c: nat, cmp: Cmp<T>,
                           ghost s: seq<T>)
    requires i <= r < c < n && lo + n <= a.Length && Shuffled(s, a[..], lo, lo + n)
    requires Heap(cmp, a[..], lo, n, i, r) && Grand(cmp, a[..], lo, n, i, r) && Greatest(cmp, a[..], lo, n, r, c)
    requires cmp(a[lo + r], a[lo + c]) <= 0
    modifies a
    ensures Shuffled(s, a[..], lo, lo + n) && Heap(cmp, a[..], lo, n, i, c) && Grand(cmp, a[..], lo, n, i, c)
  {
    hide Shuffled, Heap, Grand, Greatest, Swapped;
    SiftStep(cmp, a[..], lo, n, i, r, c);
    ShuffledNext(s, a[..], lo + r, lo + c, lo, lo + n);
    Swap(a, lo + r, lo + c);
  }

  method GreatestChild<T(!new)>(a: array<T>, lo: nat, n: nat, r: nat, cmp: Cmp<T>) returns (c: nat)
    requires lo + n <= a.Length && r * 2 + 1 < n && Order(cmp)
    ensures r < c < n && Greatest(cmp, a[..], lo, n, r, c)
  {
    c := r * 2 + 1;
    Opposite(cmp, a[lo + c], a[lo + c]);
    if c < n - 1 {
      Opposite(cmp, a[lo + c], a[lo + c + 1]);
      Opposite(cmp, a[lo + c + 1], a[lo + c + 1]);
      if cmp(a[lo + c], a[lo + c + 1]) <= 0 { c := c + 1; }
    }
    hide Order;
    forall d | 0 < d < n && Par(d) == r ensures Below(cmp, a[..], lo, d, c) {
      assert d == 2 * r + 1 || d == 2 * r + 2;
    }
  }

  lemma SiftStart<T(!new)>(cmp: Cmp<T>, s: seq<T>, lo: int, n: int, i: int)
    requires 0 <= i && Heap(cmp, s, lo, n, i + 1, -1)
    ensures Heap(cmp, s, lo, n, i, i) && Grand(cmp, s, lo, n, i, i)
  {
  }

  lemma SiftLeaf<T(!new)>(cmp: Cmp<T>, s: seq<T>, lo: int, n: int, i: int, r: int)
    requires Heap(cmp, s, lo, n, i, r) && r * 2 + 1 >= n
    ensures Heap(cmp, s, lo, n, i, -1)
  {
  }

  lemma SiftDone<T(!new)>(cmp: Cmp<T>, s: seq<T>, lo: int, n: int, i: int, r: int, c: int)
    requires Order(cmp) && Heap(cmp, s, lo, n, i, r) && Greatest(cmp, s, lo, n, r, c) && 0 <= r < n
        && cmp(s[lo + r], s[lo + c]) > 0
    ensures Heap(cmp, s, lo, n, i, -1)
  {
    Opposite(cmp, s[lo + r], s[lo + c]);
    hide Order;
    forall d | 0 < d < n && Par(d) == r ensures Below(cmp, s, lo, d, r) {
      assert Below(cmp, s, lo, d, c);
      Trans(cmp, s[lo + d], s[lo + c], s[lo + r]);
    }
  }

  lemma SiftStep<T(!new)>(cmp: Cmp<T>, s: seq<T>, lo: int, n: int, i: int, r: int, c: int)
    requires 0 <= i <= r < n && Heap(cmp, s, lo, n, i, r) && Grand(cmp, s, lo, n, i, r) && Greatest(cmp, s, lo, n, r, c)
    requires cmp(s[lo + r], s[lo + c]) <= 0
    ensures var t := Swapped(s, lo + r, lo + c); Heap(cmp, t, lo, n, i, c) && Grand(cmp, t, lo, n, i, c)
  {
    var t := Swapped(s, lo + r, lo + c);
    forall d | 0 < d < n && Par(d) >= i && Par(d) != c ensures Below(cmp, t, lo, d, Par(d)) {
      if Par(d) == r {
        assert Below(cmp, s, lo, d, c);
      } else {
        assert Below(cmp, s, lo, d, Par(d));
        if d == r { assert Below(cmp, s, lo, c, Par(r)); }
      }
    }
    forall d | 0 < d < n && Par(d) == c ensures Below(cmp, t, lo, d, Par(c)) {
      assert Below(cmp, s, lo, d, c);
    }
  }

  /** heapsortx */
  method Heapsort<T(!new)>(a: array<T>, lo: nat, n: nat, cmp: Cmp<T>)
    requires lo + n <= a.Length && Order(cmp)
    modifies a
    ensures Shuffled(old(a[..]), a[..], lo, lo + n) && Sorted(cmp, a[..], lo, lo + n)
  {
    ghost var s := a[..];
    ShuffledRefl(s, lo, lo + n);
    if n <= 1 { return; }
    hide Order, Shuffled, Heap, Sorted, SepWithin;
    var i := n / 2;
    HeapLeaves(cmp, s, lo, n);
    while i > 0
      invariant i < n && Shuffled(s, a[..], lo, lo + n) && Heap(cmp, a[..], lo, n, i, -1)
    {
      i := i - 1;
      ghost var t := a[..];
      Sift(a, lo, i, n, cmp);
      ShuffledTrans(s, t, a[..], lo, lo + n);
    }
    i := n - 1;
    Nothing(cmp, a[..], lo, lo + n);
    while i > 0
      invariant i < n && Shuffled(s, a[..], lo, lo + n) && Heap(cmp, a[..], lo, i + 1, 0, -1)
      invariant Sorted(cmp, a[..], lo + i + 1, lo + n) && SepWithin(cmp, a[..], lo, lo + i + 1, lo + n)
    {
      Extract(a, lo, i, n, cmp, s);
      i := i - 1;
    }
    SortedAll(cmp, a[..], lo, lo + n);
  }

  /** The greatest element of the heap of i + 1 nodes goes to its end, which leaves the heap. */
  method Extract<T(!new)>(a: array<T>, lo: nat, i: nat, ghost n: nat, cmp: Cmp<T>, ghost s: seq<T>)
    requires 0 < i < n && lo + n <= a.Length && Order(cmp) && Shuffled(s, a[..], lo, lo + n)
        && Heap(cmp, a[..], lo, i + 1, 0, -1)
    requires Sorted(cmp, a[..], lo + i + 1, lo + n) && SepWithin(cmp, a[..], lo, lo + i + 1, lo + n)
    modifies a
    ensures Shuffled(s, a[..], lo, lo + n) && Heap(cmp, a[..], lo, i, 0, -1)
    ensures Sorted(cmp, a[..], lo + i, lo + n) && SepWithin(cmp, a[..], lo, lo + i, lo + n)
  {
    hide Order, Shuffled, Heap, Sorted, SepWithin, Swapped;
    ExtractSwap(cmp, a[..], lo, i, n);
    ShuffledNext(s, a[..], lo, lo + i, lo, lo + n);
    Swap(a, lo, lo + i);
    ghost var t := a[..];
    Sift(a, lo, 0, i, cmp);
    SortedKeep(cmp, t, a[..], lo, lo + i, lo + n);
    SepWithinKeep(cmp, t, a[..], lo, lo + i, lo + n);
    ShuffledWiden(t, a[..], lo, lo + i, lo, lo + n);
    ShuffledTrans(s, t, a[..], lo, lo + n);
  }

  lemma HeapLeaves<T(!new)>(cmp: Cmp<T>, s: seq<T>, lo: int, n: int)
    requires 0 <= lo && 0 <= n && lo + n <= |s|
    ensures Heap(cmp, s, lo, n, n / 2, -1)
  {
  }

  lemma Nothing<T(!new)>(cmp: Cmp<T>, s: seq<T>, lo: int, hi: int)
    ensures Sorted(cmp, s, hi, hi) && SepWithin(cmp, s, lo, hi, hi)
  {
  }

  lemma SortedAll<T(!new)>(cmp: Cmp<T>, s: seq<T>, lo: int, hi: int)
    requires Sorted(cmp, s, lo + 1, hi) && SepWithin(cmp, s, lo, lo + 1, hi)
    ensures Sorted(cmp, s, lo, hi)
  {
  }

  /** The root of a heap is its greatest node. */
  lemma {:induction false} HeapMax<T(!new)>(cmp: Cmp<T>, s: seq<T>, lo: int, n: int, c: int)
    requires Order(cmp) && Heap(cmp, s, lo, n, 0, -1) && 0 <= c < n
    ensures cmp(s[lo + c], s[lo]) <= 0
    decreases c
  {
    if c == 0 {
      Opposite(cmp, s[lo], s[lo]);
    } else {
      hide Order;
      assert Below(cmp, s, lo, c, Par(c));
      HeapMax(cmp, s, lo, n, Par(c));
      Trans(cmp, s[lo + c], s[lo + Par(c)], s[lo]);
    }
  }

  lemma ExtractSwap<T(!new)>(cmp: Cmp<T>, s: seq<T>, lo: int, i: int, n: int)
    requires Order(cmp) && 0 < i < n && 0 <= lo && lo + n <= |s| && Heap(cmp, s, lo, i + 1, 0, -1)
    requires Sorted(cmp, s, lo + i + 1, lo + n) && SepWithin(cmp, s, lo, lo + i + 1, lo + n)
    ensures var t := Swapped(s, lo, lo + i);
      Heap(cmp, t, lo, i, 1, -1) && Sorted(cmp, t, lo + i, lo + n) && SepWithin(cmp, t, lo, lo + i, lo + n)
  {
    hide Order;
    var t := Swapped(s, lo, lo + i);
    forall c | 0 <= c <= i ensures Below(cmp, s, lo, c, 0) { HeapMax(cmp, s, lo, i + 1, c); }
    forall c | 0 < c < i && Par(c) >= 1 ensures Below(cmp, t, lo, c, Par(c)) { assert Below(cmp, s, lo, c, Par(c)); }
    forall x, y | lo <= x < lo + i <= y < lo + n ensures cmp(t[x], t[y]) <= 0 {
      if y == lo + i {
        var c := if x == lo then i else x - lo;
        assert Below(cmp, s, lo, c, 0);
      } else {
        assert t[y] == s[y];
      }
    }
    forall x, y | lo + i <= x < y < lo + n ensures cmp(t[x], t[y]) <= 0 {
      assert t[y] == s[y];
    }
  }

  // ---- partition

  /** med3 */
  method Med3<T(!new)>(a: array<T>, x: nat, y: nat, z: nat, cmp: Cmp<T>) returns (m: nat)
    requires x < a.Length && y < a.Length && z < a.Length && Order(cmp)
    ensures m == x || m == y || m == z
    ensures m == x ==> Between(cmp, a[y], a[x], a[z])
    ensures m == y ==> Between(cmp, a[x], a[y], a[z])
    ensures m == z ==> Between(cmp, a[x], a[z], a[y])
  {
    Opposite(cmp, a[x], a[y]);
    Opposite(cmp, a[y], a[z]);
    Opposite(cmp, a[x], a[z]);
    Opposite(cmp, a[x], a[x]);
    m := if cmp(a[x], a[y]) < 0 then (if cmp(a[y], a[z]) < 0 then y else if cmp(a[x], a[z]) < 0 then z else x)
         else (if cmp(a[y], a[z]) > 0 then y else if cmp(a[x], a[z]) < 0 then x else z);
  }

  ghost predicate Between<T(!new)>(cmp: Cmp<T>, x: T, m: T, y: T) {
    (cmp(x, m) <= 0 && cmp(m, y) <= 0) || (cmp(y, m) <= 0 && cmp(m, x) <= 0)
  }

  /** The pivot is s[lo]. From lo: elements equal to it, smaller ones, unknown ones from pi to pj,
      greater ones, and from pgt on again equal ones. */
  ghost predicate Parts<T(!new)>(cmp: Cmp<T>, s: seq<T>, lo: int, plt: int, pi: int, pj: int, pgt: int, top: int) {
    && 0 <= lo < plt <= pi <= pj <= pgt <= top <= |s|
    && (forall k | lo <= k < plt :: cmp(s[lo], s[k]) == 0)
    && (forall k | plt <= k < pi :: cmp(s[lo], s[k]) > 0)
    && (forall k | pj <= k < pgt :: cmp(s[lo], s[k]) < 0)
    && (forall k | pgt <= k < top :: cmp(s[lo], s[k]) == 0)
  }

  lemma PartsEqualLow<T(!new)>(cmp: Cmp<T>, s: seq<T>, lo: int, plt: int, pi: int, pj: int, pgt: int, top: int)
    requires Parts(cmp, s, lo, plt, pi, pj, pgt, top) && pi < pj && cmp(s[lo], s[pi]) == 0
    ensures Parts(cmp, Swapped(s, plt, pi), lo, plt + 1, pi + 1, pj, pgt, top)
  {
  }

  lemma PartsSmaller<T(!new)>(cmp: Cmp<T>, s: seq<T>, lo: int, plt: int, pi: int, pj: int, pgt: int, top: int)
    requires Parts(cmp, s, lo, plt, pi, pj, pgt, top) && pi < pj && cmp(s[lo], s[pi]) > 0
    ensures Parts(cmp, s, lo, plt, pi + 1, pj, pgt, top)
  {
  }

  lemma PartsEqualHigh<T(!new)>(cmp: Cmp<T>, s: seq<T>, lo: int, plt: int, pi: int, pj: int, pgt: int, top: int)
    requires Parts(cmp, s, lo, plt, pi, pj + 1, pgt, top) && pi <= pj && cmp(s[lo], s[pj]) == 0
    ensures Parts(cmp, Swapped(s, pgt - 1, pj), lo, plt, pi, pj, pgt - 1, top)
    ensures pi < pj ==> Swapped(s, pgt - 1, pj)[pi] == s[pi]
  {
  }

  lemma PartsGreater<T(!new)>(cmp: Cmp<T>, s: seq<T>, lo: int, plt: int, pi: int, pj: int, pgt: int, top: int)
    requires Parts(cmp, s, lo, plt, pi, pj + 1, pgt, top) && pi <= pj && cmp(s[lo], s[pj]) < 0
    ensures Parts(cmp, s, lo, plt, pi, pj, pgt, top)
  {
  }

  lemma PartsCross<T(!new)>(cmp: Cmp<T>, s: seq<T>, lo: int, plt: int, pi: int, pj: int, pgt: int, top: int)
    requires Parts(cmp, s, lo, plt, pi, pj + 1, pgt, top) && pi < pj && cmp(s[lo], s[pi]) < 0 && cmp(s[lo], s[pj]) > 0
    ensures Parts(cmp, Swapped(s, pi, pj), lo, plt, pi + 1, pj, pgt, top)
  {
  }

  /** The first inner loop: pass smaller elements, collect equal ones at the front. */
  method ScanUp<T(!new)>(a: array<T>, lo: nat, plt0: nat, pi0: nat, pj: nat, ghost pgt: nat, ghost top: nat,
                         cmp: Cmp<T>, ghost s: seq<T>)
    returns (plt: nat, pi: nat)
    requires top <= a.Length && Shuffled(s, a[..], lo, top) && Parts(cmp, a[..], lo, plt0, pi0, pj, pgt, top)
    modifies a
    ensures pi <= pj && Shuffled(s, a[..], lo, top) && Parts(cmp, a[..], lo, plt, pi, pj, pgt, top)
    ensures pi < pj ==> cmp(a[lo], a[pi]) < 0
  {
    PartsRange(cmp, a[..], lo, plt0, pi0, pj, pgt, top);
    hide Shuffled, Parts, Swapped;
    plt, pi := plt0, pi0;
    while pi < pj && cmp(a[lo], a[pi]) >= 0
      invariant lo < plt <= pi <= pj <= top && Shuffled(s, a[..], lo, top)
          && Parts(cmp, a[..], lo, plt, pi, pj, pgt, top)
    {
      if cmp(a[lo], a[pi]) == 0 {
        PartsEqualLow(cmp, a[..], lo, plt, pi, pj, pgt, top);
        ShuffledNext(s, a[..], plt, pi, lo, top);
        Swap(a, plt, pi);
        plt := plt + 1;
      } else {
        PartsSmaller(cmp, a[..], lo, plt, pi, pj, pgt, top);
      }
      pi := pi + 1;
    }
  }

  lemma PartsRange<T(!new)>(cmp: Cmp<T>, s: seq<T>, lo: int, plt: int, pi: int, pj: int, pgt: int, top: int)
    requires Parts(cmp, s, lo, plt, pi, pj, pgt, top)
    ensures 0 <= lo < plt <= pi <= pj <= pgt <= top <= |s|
  {
  }

  /** The second inner loop, from the top: pass greater elements, collect equal ones at the end. */
  method ScanDown<T(!new)>(a: array<T>, lo: nat, ghost plt: nat, pi: nat, pj0: nat, pgt0: nat, ghost top: nat,
                           cmp: Cmp<T>, ghost s: seq<T>)
    returns (pj: nat, pgt: nat)
    requires top <= a.Length && Shuffled(s, a[..], lo, top) && Parts(cmp, a[..], lo, plt, pi, pj0, pgt0, top)
    requires pi < pj0 ==> cmp(a[lo], a[pi]) < 0
    modifies a
    ensures pj < pj0 && pi <= pj + 1 && Shuffled(s, a[..], lo, top) && Parts(cmp, a[..], lo, plt, pi, pj + 1, pgt, top)
    ensures pi <= pj ==> cmp(a[lo], a[pi]) < 0
    ensures pi < pj ==> cmp(a[lo], a[pj]) > 0
  {
    PartsRange(cmp, a[..], lo, plt, pi, pj0, pgt0, top);
    hide Shuffled, Parts, Swapped;
    pj, pgt := pj0 - 1, pgt0;
    while pi < pj && cmp(a[lo], a[pj]) <= 0
      invariant lo < pi <= pj + 1 <= pj0 && pj + 1 <= pgt <= top && Shuffled(s, a[..], lo, top)
      invariant Parts(cmp, a[..], lo, plt, pi, pj + 1, pgt, top) && (pi <= pj ==> cmp(a[lo], a[pi]) < 0)
    {
      if cmp(a[lo], a[pj]) == 0 {
        pgt := pgt - 1;
        EqualHigh(a, lo, plt, pi, pj, pgt, top, cmp, s);
      } else {
        PartsGreater(cmp, a[..], lo, plt, pi, pj, pgt, top);
      }
      PartsRange(cmp, a[..], lo, plt, pi, pj, pgt, top);
      pj := pj - 1;
    }
  }

  method EqualHigh<T(!new)>(a: array<T>, ghost lo: nat, ghost plt: nat, ghost pi: nat, pj: nat, pgt: nat,
                            ghost top: nat, cmp: Cmp<T>, ghost s: seq<T>)
    requires top <= a.Length && Shuffled(s, a[..], lo, top) && Parts(cmp, a[..], lo, plt, pi, pj + 1, pgt + 1, top)
    requires pi < pj <= pgt < top && lo < pi && cmp(a[lo], a[pj]) == 0 && cmp(a[lo], a[pi]) < 0
    modifies a
    ensures Shuffled(s, a[..], lo, top) && Parts(cmp, a[..], lo, plt, pi, pj, pgt, top) && cmp(a[lo], a[pi]) < 0
  {
    hide Shuffled, Parts, Swapped;
    PartsEqualHigh(cmp, a[..], lo, plt, pi, pj, pgt + 1, top);
    ShuffledNext(s, a[..], pgt, pj, lo, top);
    PivotStays(a[..], lo, pgt, pj);
    Swap(a, pgt, pj);
  }

  lemma PivotStays<T>(s: seq<T>, lo: int, i: int, j: int)
    requires 0 <= lo < i < |s| && lo < j < |s|
    ensures Swapped(s, i, j)[lo] == s[lo]
  {
  }

  /** The loop around the two scans. */
  method Split<T(!new)>(a: array<T>, lo: nat, n: nat, cmp: Cmp<T>, ghost s: seq<T>)
      returns (plt: nat, pi: nat, pgt: nat)
    requires n > 0 && lo + n <= a.Length && Order(cmp) && Shuffled(s, a[..], lo, lo + n)
    modifies a
    ensures Shuffled(s, a[..], lo, lo + n) && Parts(cmp, a[..], lo, plt, pi, pi, pgt, lo + n)
  {
    Opposite(cmp, a[lo], a[lo]);
    var top := lo + n;
    PartsStart(cmp, a[..], lo, top);
    hide Shuffled, Parts, Swapped, Order;
    plt, pi, pgt := lo + 1, lo + 1, top;
    var pj := top;
    while true
      invariant Shuffled(s, a[..], lo, top) && Parts(cmp, a[..], lo, plt, pi, pj, pgt, top)
      decreases pj
    {
      var done;
      done, plt, pi, pj, pgt := SplitRound(a, lo, plt, pi, pj, pgt, top, cmp, s);
      if done { return; }
    }
  }

  /** Both scans, and the exchange of the elements at which they stop. */
  method SplitRound<T(!new)>(a: array<T>, lo: nat, plt0: nat, pi0: nat, pj0: nat, pgt0: nat, top: nat, cmp: Cmp<T>,
                             ghost s: seq<T>)
    returns (done: bool, plt: nat, pi: nat, pj: nat, pgt: nat)
    requires top <= a.Length && Shuffled(s, a[..], lo, top) && Parts(cmp, a[..], lo, plt0, pi0, pj0, pgt0, top)
    modifies a
    ensures pj < pj0 && Shuffled(s, a[..], lo, top) && Parts(cmp, a[..], lo, plt, pi, if done then pi else pj, pgt, top)
  {
    hide Shuffled, Parts;
    plt, pi := ScanUp(a, lo, plt0, pi0, pj0, pgt0, top, cmp, s);
    pj, pgt := ScanDown(a, lo, plt, pi, pj0, pgt0, top, cmp, s);
    PartsRange(cmp, a[..], lo, plt, pi, pj + 1, pgt, top);
    if pi >= pj {
      if pi == pj { PartsGreater(cmp, a[..], lo, plt, pi, pj, pgt, top); }
      return true, plt, pi, pj, pgt;
    }
    Cross(a, lo, plt, pi, pj, pgt, top, cmp, s);
    return false, plt, pi + 1, pj, pgt;
  }

  method Cross<T(!new)>(a: array<T>, ghost lo: nat, ghost plt: nat, pi: nat, pj: nat, ghost pgt: nat, ghost top: nat,
                        cmp: Cmp<T>, ghost s: seq<T>)
    requires top <= a.Length && Shuffled(s, a[..], lo, top) && Parts(cmp, a[..], lo, plt, pi, pj + 1, pgt, top)
    requires lo < pi < pj < top && cmp(a[lo], a[pi]) < 0 && cmp(a[lo], a[pj]) > 0
    modifies a
    ensures Shuffled(s, a[..], lo, top) && Parts(cmp, a[..], lo, plt, pi + 1, pj, pgt, top)
  {
    hide Shuffled, Parts, Swapped;
    PartsCross(cmp, a[..], lo, plt, pi, pj, pgt, top);
    ShuffledNext(s, a[..], pi, pj, lo, top);
    Swap(a, pi, pj);
  }

  lemma PartsStart<T(!new)>(cmp: Cmp<T>, s: seq<T>, lo: int, top: int)
    requires 0 <= lo < top <= |s| && cmp(s[lo], s[lo]) == 0
    ensures Parts(cmp, s, lo, lo + 1, lo + 1, top, top, top)
  {
  }

  /** From lo: smaller elements than v, then equal ones, then greater ones. */
  ghost predicate Three<T(!new)>(cmp: Cmp<T>, s: seq<T>, v: T, lo: int, lt: int, gt: int, top: int) {
    && 0 <= lo <= lt < gt <= top <= |s|
    && (forall k | lo <= k < lt :: cmp(v, s[k]) > 0)
    && (forall k | lt <= k < gt :: cmp(v, s[k]) == 0)
    && (forall k | gt <= k < top :: cmp(v, s[k]) < 0)
  }

  /** After the first block exchange the smaller elements come first. */
  lemma FirstExchange<T(!new)>(cmp: Cmp<T>, s: seq<T>, t: seq<T>, lo: int, plt: int, pi: int, pgt: int, top: int,
                               span: int)
    requires Parts(cmp, s, lo, plt, pi, pi, pgt, top) && span == (if plt - lo > pi - plt then pi - plt else plt - lo)
    requires Exchanged(s, t, lo, pi - span, span)
    ensures forall k | lo <= k < lo + (pi - plt) :: cmp(s[lo], t[k]) > 0
    ensures forall k | lo + (pi - plt) <= k < pi :: cmp(s[lo], t[k]) == 0
    ensures forall k | pi <= k < pgt :: cmp(s[lo], t[k]) < 0
    ensures forall k | pgt <= k < top :: cmp(s[lo], t[k]) == 0
  {
  }

  /** After the second one the greater elements come last. */
  lemma SecondExchange<T(!new)>(cmp: Cmp<T>, v: T, t: seq<T>, u: seq<T>, lo: int, lt: int, pi: int, pgt: int, top: int,
                                span: int)
    requires 0 <= lo <= lt < pi <= pgt <= top <= |t| && span == (if top - pgt > pgt - pi then pgt - pi else top - pgt)
    requires Exchanged(t, u, pi, top - span, span)
    requires forall k | lo <= k < lt :: cmp(v, t[k]) > 0
    requires forall k | lt <= k < pi :: cmp(v, t[k]) == 0
    requires forall k | pi <= k < pgt :: cmp(v, t[k]) < 0
    requires forall k | pgt <= k < top :: cmp(v, t[k]) == 0
    ensures Three(cmp, u, v, lo, lt, top - (pgt - pi), top)
  {
  }

  /** A three-way partition separates at every point of the middle part. */
  lemma ThreeSep<T(!new)>(cmp: Cmp<T>, s: seq<T>, v: T, lo: int, lt: int, gt: int, top: int, p: int)
    requires Order(cmp) && Three(cmp, s, v, lo, lt, gt, top) && lt <= p <= gt
    ensures SepWithin(cmp, s, lo, p, top)
  {
    forall i, j | lo <= i < p <= j < top ensures cmp(s[i], s[j]) <= 0 {
      Opposite(cmp, v, s[i]);
      Opposite(cmp, v, s[j]);
      Trans(cmp, s[i], v, s[j]);
    }
  }

  /** One partition of rqsort; the results count from lo. */
  method Partition<T(!new)>(a: array<T>, lo: nat, n: nat, cmp: Cmp<T>) returns (lt: nat, gt: nat, ghost v: T)
    requires n > 6 && lo + n <= a.Length && Order(cmp)
    modifies a
    ensures Shuffled(old(a[..]), a[..], lo, lo + n) && Three(cmp, a[..], v, lo, lo + lt, lo + gt, lo + n)
  {
    hide Shuffled, Parts, Swapped, Order, Exchanged;
    ghost var s := a[..];
    ShuffledRefl(s, lo, lo + n);
    var m4 := n / 4;
    var m := Med3(a, lo + m4, lo + 2 * m4, lo + 3 * m4, cmp);
    ShuffledNext(s, a[..], lo, m, lo, lo + n);
    Swap(a, lo, m);
    var plt, pi, pgt := Split(a, lo, n, cmp, s);
    PartsRange(cmp, a[..], lo, plt, pi, pi, pgt, lo + n);
    lt, gt, v := Gather(a, lo, n, plt, pi, pgt, cmp, s);
  }

  /** Move the elements equal to the pivot from both ends to the middle. */
  method Gather<T(!new)>(a: array<T>, lo: nat, n: nat, plt: nat, pi: nat, pgt: nat, cmp: Cmp<T>, ghost s: seq<T>)
    returns (lt: nat, gt: nat, ghost v: T)
    requires lo + n <= a.Length && Shuffled(s, a[..], lo, lo + n) && Parts(cmp, a[..], lo, plt, pi, pi, pgt, lo + n)
    requires lo < plt <= pi <= pgt <= lo + n
    modifies a
    ensures Shuffled(s, a[..], lo, lo + n) && Three(cmp, a[..], v, lo, lo + lt, lo + gt, lo + n)
  {
    hide Shuffled, Parts, Exchanged;
    ghost var t := a[..];
    v := a[lo];
    var top := lo + n;
    var span := if plt - lo > pi - plt then pi - plt else plt - lo;
    Exchange(a, lo, pi - span, span, s, lo, top);
    FirstExchange(cmp, t, a[..], lo, plt, pi, pgt, top, span);
    lt := pi - plt;
    t := a[..];
    span := if top - pgt > pgt - pi then pgt - pi else top - pgt;
    Exchange(a, pi, top - span, span, s, lo, top);
    SecondExchange(cmp, v, t, a[..], lo, lo + lt, pi, pgt, top, span);
    gt := n - (pgt - pi);
  }

  /** swap_block inside a segment. */
  method Exchange<T(!new)>(a: array<T>, x: nat, y: nat, k: nat, ghost s: seq<T>, ghost lo: nat, ghost hi: nat)
    requires lo <= x && x + k <= y && y + k <= hi <= a.Length && Shuffled(s, a[..], lo, hi)
    modifies a
    ensures Shuffled(s, a[..], lo, hi) && Exchanged(old(a[..]), a[..], x, y, k)
  {
    hide Shuffled, Exchanged;
    ghost var t := a[..];
    SwapBlock(a, x, y, k);
    ShuffledWiden(t, a[..], x, y + k, lo, hi);
    ShuffledTrans(s, t, a[..], lo, hi);
  }

  // ---- the stack of segments

  datatype Segment = Segment(base: nat, count: nat, depth: nat)

  const STACK_SIZE := 50

  function End(g: Segment): nat { g.base + g.count }

  predicate Inside(p: int, g: Segment) { g.base < p < End(g) }

  predicate Apart(g: Segment, h: Segment) { End(g) <= h.base || End(h) <= g.base }

  /** Only inside the pending segments may elements still be in the wrong order. */
  ghost predicate Cover<T(!new)>(cmp: Cmp<T>, s: seq<T>, pend: seq<Segment>) {
    && (forall k | 0 <= k < |pend| :: End(pend[k]) <= |s| && SepAt(cmp, s, pend[k].base) && SepAt(cmp, s, End(pend[k])))
    && (forall j, k | 0 <= j < k < |pend| :: Apart(pend[j], pend[k]))
    && (forall p | 0 <= p <= |s| :: SepAt(cmp, s, p) || exists k :: 0 <= k < |pend| && Inside(p, pend[k]))
  }

  /** Within g only the parts are still in the wrong order. */
  ghost predicate Divided<T(!new)>(cmp: Cmp<T>, t: seq<T>, g: Segment, parts: seq<Segment>) {
    && (forall k | 0 <= k < |parts| :: g.base <= parts[k].base && End(parts[k]) <= End(g) &&
          SepWithin(cmp, t, g.base, parts[k].base, End(g)) && SepWithin(cmp, t, g.base, End(parts[k]), End(g)))
    && (forall j, k | 0 <= j < k < |parts| :: Apart(parts[j], parts[k]))
    && (forall p | Inside(p, g) ::
          SepWithin(cmp, t, g.base, p, End(g)) || exists k :: 0 <= k < |parts| && Inside(p, parts[k]))
  }

  lemma CoverStart<T(!new)>(cmp: Cmp<T>, s: seq<T>)
    ensures Cover(cmp, s, [Segment(0, |s|, 0)])
  {
    assert Inside(1, Segment(0, 2, 0));
    forall p | 0 <= p <= |s| ensures SepAt(cmp, s, p) || Inside(p, [Segment(0, |s|, 0)][0]) { }
  }

  lemma CoverEnd<T(!new)>(cmp: Cmp<T>, s: seq<T>)
    requires Cover(cmp, s, [])
    ensures Sorted(cmp, s, 0, |s|)
  {
    forall i, j | 0 <= i < j < |s| ensures cmp(s[i], s[j]) <= 0 { assert SepAt(cmp, s, j); }
  }

  /** A pending segment is rearranged into parts. */
  lemma CoverStep<T(!new)>(cmp: Cmp<T>, s: seq<T>, t: seq<T>, rest: seq<Segment>, g: Segment, parts: seq<Segment>)
    requires Cover(cmp, s, rest + [g]) && Shuffled(s, t, g.base, End(g)) && Divided(cmp, t, g, parts)
    ensures Cover(cmp, t, rest + parts)
  {
    hide Shuffled;
    ghost var pend, pend' := rest + [g], rest + parts;
    assert pend[|rest|] == g && |s| == |t| by { ShuffledLength(s, t, g); }
    SepKeep(cmp, s, t, g.base, End(g), g.base);
    SepKeep(cmp, s, t, g.base, End(g), End(g));
    forall k | 0 <= k < |pend'|
      ensures End(pend'[k]) <= |t| && SepAt(cmp, t, pend'[k].base) && SepAt(cmp, t, End(pend'[k]))
    {
      if k < |rest| {
        assert pend[k] == rest[k] && Apart(pend[k], pend[|rest|]);
        SepKeep(cmp, s, t, g.base, End(g), rest[k].base);
        SepKeep(cmp, s, t, g.base, End(g), End(rest[k]));
      } else {
        var q := parts[k - |rest|];
        SepInside(cmp, t, g.base, q.base, End(g));
        SepInside(cmp, t, g.base, End(q), End(g));
      }
    }
    forall j, k | 0 <= j < k < |pend'| ensures Apart(pend'[j], pend'[k]) {
      if k < |rest| { assert pend[j] == rest[j] && pend[k] == rest[k]; }
      else if j < |rest| { assert pend[j] == rest[j] && Apart(pend[j], pend[|rest|]); }
    }
    forall p | 0 <= p <= |t| ensures SepAt(cmp, t, p) || exists k :: 0 <= k < |pend'| && Inside(p, pend'[k]) {
      CoverPoint(cmp, s, t, rest, g, parts, p);
    }
  }

  /** The same, with the rearrangement of the whole since s0. */
  lemma CoverDone<T(!new)>(cmp: Cmp<T>, s0: seq<T>, s: seq<T>, t: seq<T>, rest: seq<Segment>, g: Segment,
                           parts: seq<Segment>)
    requires Cover(cmp, s, rest + [g]) && Shuffled(s, t, g.base, End(g)) && Divided(cmp, t, g, parts)
        && Shuffled(s0, s, 0, |s|)
    ensures Cover(cmp, t, rest + parts) && Shuffled(s0, t, 0, |t|)
  {
    ShuffledLength(s, t, g);
    hide Shuffled, Cover, Divided;
    CoverStep(cmp, s, t, rest, g, parts);
    ShuffledWiden(s, t, g.base, End(g), 0, |s|);
    ShuffledTrans(s0, s, t, 0, |s|);
  }

  lemma ShuffledLength<T>(s: seq<T>, t: seq<T>, g: Segment)
    requires Shuffled(s, t, g.base, End(g))
    ensures |s| == |t| && End(g) <= |s|
  {
  }

  lemma CoverPoint<T(!new)>(cmp: Cmp<T>, s: seq<T>, t: seq<T>, rest: seq<Segment>, g: Segment, parts: seq<Segment>,
                            p: int)
    requires Cover(cmp, s, rest + [g]) && Shuffled(s, t, g.base, End(g)) && Divided(cmp, t, g, parts) && 0 <= p <= |s|
    requires SepAt(cmp, t, g.base) && SepAt(cmp, t, End(g)) && |t| == |s|
    ensures SepAt(cmp, t, p) || exists k :: 0 <= k < |rest + parts| && Inside(p, (rest + parts)[k])
  {
    ShuffledLength(s, t, g);
    hide Shuffled;
    ghost var pend, pend' := rest + [g], rest + parts;
    if Inside(p, g) {
      if SepWithin(cmp, t, g.base, p, End(g)) {
        SepInside(cmp, t, g.base, p, End(g));
      } else {
        var k :| 0 <= k < |parts| && Inside(p, parts[k]);
        assert pend'[|rest| + k] == parts[k];
      }
    } else if SepAt(cmp, s, p) {
      SepKeep(cmp, s, t, g.base, End(g), p);
    } else {
      var k :| 0 <= k < |pend| && Inside(p, pend[k]);
      assert pend'[k] == pend[k];
    }
  }

  lemma SortedDivides<T(!new)>(cmp: Cmp<T>, t: seq<T>, g: Segment)
    requires Sorted(cmp, t, g.base, End(g))
    ensures Divided(cmp, t, g, []) && Divided(cmp, t, g, [Segment(g.base, 0, g.depth)])
  {
  }

  lemma ThreeDivides<T(!new)>(cmp: Cmp<T>, t: seq<T>, v: T, g: Segment, lt: nat, gt: nat, d: nat, d': nat)
    requires Order(cmp) && Three(cmp, t, v, g.base, g.base + lt, g.base + gt, End(g))
    ensures gt <= g.count && lt < gt
    ensures var (low, high) := (Segment(g.base, lt, d), Segment(g.base + gt, g.count - gt, d'));
      Divided(cmp, t, g, [low, high]) && Divided(cmp, t, g, [high, low])
  {
    var (low, high) := (Segment(g.base, lt, d), Segment(g.base + gt, g.count - gt, d'));
    ThreeInside(cmp, t, v, g, lt, gt);
    hide Order, Three, SepWithin;
    forall p | Inside(p, g) && !Inside(p, low) && !Inside(p, high) ensures SepWithin(cmp, t, g.base, p, End(g)) {
      assert g.base + lt <= p <= g.base + gt;
    }
    PairDivides(cmp, t, g, low, high);
    PairDivides(cmp, t, g, high, low);
  }

  lemma ThreeInside<T(!new)>(cmp: Cmp<T>, t: seq<T>, v: T, g: Segment, lt: nat, gt: nat)
    requires Order(cmp) && Three(cmp, t, v, g.base, g.base + lt, g.base + gt, End(g))
    ensures forall p | g.base + lt <= p <= g.base + gt :: SepWithin(cmp, t, g.base, p, End(g))
    ensures SepWithin(cmp, t, g.base, g.base, End(g)) && SepWithin(cmp, t, g.base, End(g), End(g))
  {
    hide Order;
    forall p | g.base + lt <= p <= g.base + gt ensures SepWithin(cmp, t, g.base, p, End(g)) {
      ThreeSep(cmp, t, v, g.base, g.base + lt, g.base + gt, End(g), p);
    }
  }

  lemma PairDivides<T(!new)>(cmp: Cmp<T>, t: seq<T>, g: Segment, x: Segment, y: Segment)
    requires g.base <= x.base && End(x) <= End(g) && g.base <= y.base && End(y) <= End(g) && Apart(x, y)
    requires SepWithin(cmp, t, g.base, x.base, End(g)) && SepWithin(cmp, t, g.base, End(x), End(g))
    requires SepWithin(cmp, t, g.base, y.base, End(g)) && SepWithin(cmp, t, g.base, End(y), End(g))
    requires forall p | Inside(p, g) && !Inside(p, x) && !Inside(p, y) :: SepWithin(cmp, t, g.base, p, End(g))
    ensures Divided(cmp, t, g, [x, y])
  {
    hide SepWithin;
    var parts := [x, y];
    assert parts[0] == x && parts[1] == y;
    forall p | Inside(p, g)
      ensures SepWithin(cmp, t, g.base, p, End(g)) || exists k :: 0 <= k < |parts| && Inside(p, parts[k])
    {
      if Inside(p, x) { assert Inside(p, parts[0]); } else if Inside(p, y) { assert Inside(p, parts[1]); }
    }
  }

  // ---- rqsort

  /** The stacked depths grow from bottom to top, up to d: with depths of at most 50 the stack
      never overflows. */
  ghost predicate Depths(stack: seq<Segment>, d: nat) {
    && (forall k | 0 <= k < |stack| :: k + 1 <= stack[k].depth <= d)
    && (forall j, k | 0 <= j < k < |stack| :: stack[j].depth < stack[k].depth)
  }

  /** Bounds the segments still to come. */
  function Work(stack: seq<Segment>): nat {
    if stack == [] then 0 else Work(stack[..|stack| - 1]) + stack[|stack| - 1].count + 1
  }

  lemma WorkPush(stack: seq<Segment>, g: Segment)
    ensures Work(stack + [g]) == Work(stack) + g.count + 1
  {
    assert (stack + [g])[..|stack|] == stack;
  }

  lemma DepthsPush(stack: seq<Segment>, d: nat, g: Segment)
    requires Depths(stack, d) && g.depth == d + 1
    ensures Depths(stack + [g], d + 1)
  {
    DepthsRoom(stack, d);
  }

  lemma DepthsRoom(stack: seq<Segment>, d: nat)
    requires Depths(stack, d)
    ensures |stack| <= d
  {
    if stack != [] { assert stack[|stack| - 1].depth >= |stack|; }
  }

  lemma DepthsPop(stack: seq<Segment>, g: Segment, d: nat)
    requires Depths(stack + [g], d)
    ensures Depths(stack, g.depth) && g.depth <= d
  {
    assert (stack + [g])[|stack|] == g;
    assert forall k | 0 <= k < |stack| :: (stack + [g])[k] == stack[k];
  }

  /** The inner loop: partition, stack the larger part and go on with the smaller one. */
  method Reduce<T(!new)>(a: array<T>, stack: array<Segment>, sp0: nat, base: nat, count: nat, depth0: nat, cmp: Cmp<T>,
                         ghost s: seq<T>)
    returns (sp: nat, ptr: nat, nmemb: nat)
    requires (stack as object) != a && stack.Length == STACK_SIZE && sp0 < STACK_SIZE && depth0 <= STACK_SIZE
        && Order(cmp)
    requires Cover(cmp, a[..], stack[..sp0] + [Segment(base, count, depth0)]) && Shuffled(s, a[..], 0, a.Length)
    requires Depths(stack[..sp0], depth0)
    modifies a, stack
    ensures sp <= STACK_SIZE && Depths(stack[..sp], STACK_SIZE) && nmemb <= 6
    ensures Cover(cmp, a[..], stack[..sp] + [Segment(ptr, nmemb, 0)]) && Shuffled(s, a[..], 0, a.Length)
    ensures Work(stack[..sp]) + nmemb <= Work(old(stack[..sp0])) + count
  {
    hide Order, Cover, Shuffled, Depths, Work;
    sp, ptr, nmemb := sp0, base, count;
    var depth: nat := depth0;
    while nmemb > 6
      invariant sp <= STACK_SIZE && depth <= STACK_SIZE && Depths(stack[..sp], depth)
      invariant Cover(cmp, a[..], stack[..sp] + [Segment(ptr, nmemb, depth)]) && Shuffled(s, a[..], 0, a.Length)
      invariant Work(stack[..sp]) + nmemb <= Work(old(stack[..sp0])) + count
      decreases nmemb
    {
      DepthsRoom(stack[..sp], depth);
      if depth + 1 > STACK_SIZE {
        FallBack(a, stack[..sp], ptr, nmemb, depth, cmp, s);
        nmemb := 0;
        break;
      }
      sp, ptr, nmemb := Step(a, stack, sp, ptr, nmemb, depth, cmp, s);
      depth := depth + 1;
    }
    DepthsMore(stack[..sp], depth, STACK_SIZE);
    CoverDepth(cmp, a[..], stack[..sp], ptr, nmemb, depth);
  }

  lemma DepthsMore(stack: seq<Segment>, d: nat, d': nat)
    requires Depths(stack, d) && d <= d'
    ensures Depths(stack, d')
  {
  }

  lemma CoverDepth<T(!new)>(cmp: Cmp<T>, s: seq<T>, rest: seq<Segment>, base: nat, count: nat, d: nat)
    requires Cover(cmp, s, rest + [Segment(base, count, d)])
    ensures forall d' :: Cover(cmp, s, rest + [Segment(base, count, d')])
  {
    forall d': nat ensures Cover(cmp, s, rest + [Segment(base, count, d')]) {
      var p, q := rest + [Segment(base, count, d)], rest + [Segment(base, count, d')];
      assert forall k | 0 <= k < |p| :: p[k].base == q[k].base && End(p[k]) == End(q[k]);
      forall x | 0 <= x <= |s| ensures SepAt(cmp, s, x) || exists k :: 0 <= k < |q| && Inside(x, q[k]) {
        if !SepAt(cmp, s, x) {
          var k :| 0 <= k < |p| && Inside(x, p[k]);
          assert Inside(x, q[k]);
        }
      }
      forall j, k | 0 <= j < k < |q| ensures Apart(q[j], q[k]) { assert Apart(p[j], p[k]); }
    }
  }

  method FallBack<T(!new)>(a: array<T>, ghost rest: seq<Segment>, ptr: nat, nmemb: nat, ghost depth: nat, cmp: Cmp<T>,
                           ghost s: seq<T>)
    requires Order(cmp) && Cover(cmp, a[..], rest + [Segment(ptr, nmemb, depth)]) && Shuffled(s, a[..], 0, a.Length)
    modifies a
    ensures Cover(cmp, a[..], rest + [Segment(ptr, 0, depth)]) && Shuffled(s, a[..], 0, a.Length)
  {
    hide Order, Cover, Shuffled, Sorted;
    CoverInside(cmp, a[..], rest, Segment(ptr, nmemb, depth));
    ghost var t := a[..];
    Heapsort(a, ptr, nmemb, cmp);
    CoverSorted(cmp, s, t, a[..], rest, ptr, nmemb, depth);
  }

  /** A pending segment has been sorted. */
  lemma CoverSorted<T(!new)>(cmp: Cmp<T>, s0: seq<T>, s: seq<T>, t: seq<T>, rest: seq<Segment>, base: nat, count: nat,
                             d: nat)
    requires Cover(cmp, s, rest + [Segment(base, count, d)]) && Shuffled(s, t, base, base + count)
        && Shuffled(s0, s, 0, |s|)
    requires Sorted(cmp, t, base, base + count)
    ensures Cover(cmp, t, rest) && Cover(cmp, t, rest + [Segment(base, 0, d)]) && Shuffled(s0, t, 0, |t|)
  {
    hide Cover, Shuffled, Sorted, Divided;
    var g := Segment(base, count, d);
    SortedDivides(cmp, t, g);
    CoverDone(cmp, s0, s, t, rest, g, []);
    CoverDone(cmp, s0, s, t, rest, g, [Segment(base, 0, d)]);
    assert rest + [] == rest;
  }

  lemma CoverInside<T(!new)>(cmp: Cmp<T>, s: seq<T>, rest: seq<Segment>, g: Segment)
    requires Cover(cmp, s, rest + [g])
    ensures End(g) <= |s|
  {
    assert (rest + [g])[|rest|] == g;
  }

  /** One round of the inner loop. */
  method Step<T(!new)>(a: array<T>, stack: array<Segment>, sp0: nat, base: nat, count: nat, depth0: nat, cmp: Cmp<T>,
                       ghost s: seq<T>)
    returns (sp: nat, ptr: nat, nmemb: nat)
    requires (stack as object) != a && stack.Length == STACK_SIZE && sp0 < STACK_SIZE && count > 6 && Order(cmp)
    requires Cover(cmp, a[..], stack[..sp0] + [Segment(base, count, depth0)]) && Shuffled(s, a[..], 0, a.Length)
    requires Depths(stack[..sp0], depth0)
    modifies a, stack
    ensures sp == sp0 + 1 && Depths(stack[..sp], depth0 + 1) && nmemb < count
    ensures Cover(cmp, a[..], stack[..sp] + [Segment(ptr, nmemb, depth0 + 1)]) && Shuffled(s, a[..], 0, a.Length)
    ensures Work(stack[..sp]) + nmemb <= Work(old(stack[..sp0])) + count
  {
    hide Order, Cover, Shuffled, Depths, Work, Divided;
    ghost var rest, d := stack[..sp0], depth0 + 1;
    var lt, gt := Divide(a, rest, base, count, depth0, cmp, s);
    ghost var low, high := Segment(base, lt, d), Segment(base + gt, count - gt, d);
    if lt > count - gt {
      Two(rest, low, high);
      StackPush(stack, sp0, Segment(base, lt, depth0 + 1), depth0);
      return sp0 + 1, base + gt, count - gt;
    } else {
      Two(rest, high, low);
      StackPush(stack, sp0, Segment(base + gt, count - gt, depth0 + 1), depth0);
      return sp0 + 1, base, lt;
    }
  }

  method StackPush(stack: array<Segment>, sp: nat, g: Segment, ghost d: nat)
    requires sp < stack.Length && g.depth == d + 1 && Depths(stack[..sp], d)
    modifies stack
    ensures stack[..sp + 1] == old(stack[..sp]) + [g] && Depths(stack[..sp + 1], d + 1)
    ensures Work(stack[..sp + 1]) == Work(old(stack[..sp])) + g.count + 1
  {
    hide Depths, Work;
    ghost var rest := stack[..sp];
    DepthsPush(rest, d, g);
    WorkPush(rest, g);
    stack[sp] := g;
    assert stack[..sp + 1] == rest + [g];
  }

  /** Partition a pending segment into two. */
  method Divide<T(!new)>(a: array<T>, ghost rest: seq<Segment>, base: nat, count: nat, ghost depth0: nat, cmp: Cmp<T>,
                         ghost s: seq<T>)
    returns (lt: nat, gt: nat)
    requires count > 6 && Order(cmp)
    requires Cover(cmp, a[..], rest + [Segment(base, count, depth0)]) && Shuffled(s, a[..], 0, a.Length)
    modifies a
    ensures lt < gt <= count && Shuffled(s, a[..], 0, a.Length)
    ensures var (low, high) := (Segment(base, lt, depth0 + 1), Segment(base + gt, count - gt, depth0 + 1));
      Cover(cmp, a[..], rest + [low, high]) && Cover(cmp, a[..], rest + [high, low])
  {
    hide Order, Cover, Shuffled, Three;
    CoverInside(cmp, a[..], rest, Segment(base, count, depth0));
    ghost var t := a[..];
    ghost var v;
    lt, gt, v := Partition(a, base, count, cmp);
    CoverThree(cmp, s, t, a[..], v, rest, base, count, depth0, lt, gt);
  }

  /** A pending segment has been partitioned. */
  lemma CoverThree<T(!new)>(cmp: Cmp<T>, s0: seq<T>, s: seq<T>, t: seq<T>, v: T, rest: seq<Segment>, base: nat,
                            count: nat, d: nat, lt: nat, gt: nat)
    requires Cover(cmp, s, rest + [Segment(base, count, d)]) && Shuffled(s, t, base, base + count)
        && Shuffled(s0, s, 0, |s|)
    requires Order(cmp) && Three(cmp, t, v, base, base + lt, base + gt, base + count)
    ensures lt < gt <= count && Shuffled(s0, t, 0, |t|)
    ensures var (low, high) := (Segment(base, lt, d + 1), Segment(base + gt, count - gt, d + 1));
      Cover(cmp, t, rest + [low, high]) && Cover(cmp, t, rest + [high, low])
  {
    hide Order, Cover, Shuffled, Divided, Three;
    var g := Segment(base, count, d);
    ThreeDivides(cmp, t, v, g, lt, gt, d + 1, d + 1);
    var low, high := Segment(base, lt, d + 1), Segment(base + gt, count - gt, d + 1);
    CoverDone(cmp, s0, s, t, rest, g, [low, high]);
    CoverDone(cmp, s0, s, t, rest, g, [high, low]);
  }

  lemma Two<A>(s: seq<A>, x: A, y: A)
    ensures s + [x, y] == s + [x] + [y]
  {
  }

  /** Sorts a for every total preorder: a sorted rearrangement of the elements results. */
  method Sort<T(!new)>(a: array<T>, cmp: Cmp<T>)
    requires Order(cmp)
    modifies a
    ensures multiset(a[..]) == multiset(old(a[..])) && Sorted(cmp, a[..], 0, a.Length)
  {
    ghost var s := a[..];
    ShuffledRefl(s, 0, |s|);
    if a.Length < 2 { return; }
    hide Order, Cover, Shuffled, Work, Depths, Sorted;
    var stack := new Segment[STACK_SIZE](_ => Segment(0, 0, 0));
    stack[0] := Segment(0, a.Length, 0);
    var sp: nat := 1;
    CoverStart(cmp, s);
    assert stack[..1] == [Segment(0, a.Length, 0)];
    ghost var first := true;
    while sp > 0
      invariant sp <= STACK_SIZE && Cover(cmp, a[..], stack[..sp]) && Shuffled(s, a[..], 0, a.Length)
      invariant if first then sp == 1 && stack[0].depth == 0 else Depths(stack[..sp], STACK_SIZE)
      decreases Work(stack[..sp])
    {
      sp := sp - 1;
      var g := stack[sp];
      ghost var below := stack[..sp];
      assert stack[..sp + 1] == below + [g];
      WorkPush(below, g);
      if first { NoDepths(0); assert below == []; } else { DepthsPop(below, g, STACK_SIZE); }
      first := false;
      var ptr, nmemb;
      sp, ptr, nmemb := Reduce(a, stack, sp, g.base, g.count, g.depth, cmp, s);
      Small(a, stack[..sp], ptr, nmemb, cmp, s);
    }
    assert stack[..0] == [];
    CoverEnd(cmp, a[..]);
    ShuffledWhole(s, a[..]);
  }

  lemma NoDepths(d: nat)
    ensures Depths([], d)
  {
  }

  lemma ShuffledWhole<T>(s: seq<T>, t: seq<T>)
    requires Shuffled(s, t, 0, |s|)
    ensures multiset(t) == multiset(s)
  {
    assert s[0..|s|] == s && t[0..|s|] == t;
  }

  /** Insertion sort for a short segment. */
  method Small<T(!new)>(a: array<T>, ghost rest: seq<Segment>, ptr: nat, nmemb: nat, cmp: Cmp<T>, ghost s: seq<T>)
    requires Order(cmp) && Cover(cmp, a[..], rest + [Segment(ptr, nmemb, 0)]) && Shuffled(s, a[..], 0, a.Length)
    modifies a
    ensures Cover(cmp, a[..], rest) && Shuffled(s, a[..], 0, a.Length)
  {
    hide Order, Cover, Shuffled, Sorted;
    CoverInside(cmp, a[..], rest, Segment(ptr, nmemb, 0));
    ghost var t := a[..];
    InsertionSort(a, ptr, nmemb, cmp);
    CoverSorted(cmp, s, t, a[..], rest, ptr, nmemb, 0);
  }
}
