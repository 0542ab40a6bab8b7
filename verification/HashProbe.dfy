/** Linear probing: tables of slots, the probing invariant, and what keeps it. */
module HashProbe {

  datatype Slot<K, V> = Free | Used(key: K, data: V)

  /** Positions counted from the slot after c, so that c comes last. */
  function From(c: int, i: int, n: int): (x: int)
    requires n > 0
    ensures 0 <= x < n
  {
    (i - c - 1) % n
  }

  /** The slot at a position. */
  function To(c: int, x: int, n: int): (i: int)
    requires n > 0
    ensures 0 <= i < n
  {
    (c + 1 + x) % n
  }

  /** HASHMAP_PROBE_NEXT */
  function Next(i: int, n: int): (j: int)
    requires n > 0
    ensures 0 <= j < n
  {
    (i + 1) % n
  }

  /** hashmap_calc_index */
  function Index<K>(hash: K -> nat, k: K, n: int): (i: int)
    requires n > 0
    ensures 0 <= i < n
  {
    hash(k) % n
  }

  lemma ModUnique(a: int, n: int, q: int, r: int)
    requires n > 0 && a == q * n + r && 0 <= r < n
    ensures a % n == r
  {
    var k, m := a / n, a % n;
    Distribute(k, q, n);
    if k > q { AtLeast(k - q, n); } else if k < q { Distribute(q, k, n); AtLeast(q - k, n); }
  }

  lemma AtLeast(d: int, n: int)
    requires d >= 1 && n > 0
    ensures d * n >= n
  {
    Distribute(d, 1, n);
    NonNegative(d - 1, n);
  }

  lemma NonNegative(d: int, n: int)
    requires d >= 0 && n > 0
    ensures d * n >= 0
  {
  }

  lemma FromTo(c: int, x: int, n: int)
    requires 0 <= x < n
    ensures From(c, To(c, x, n), n) == x
  {
    var q := (c + 1 + x) / n;
    assert To(c, x, n) == c + 1 + x - q * n;
    assert To(c, x, n) - c - 1 == (-q) * n + x;
    ModUnique(To(c, x, n) - c - 1, n, -q, x);
  }

  lemma ToFrom(c: int, i: int, n: int)
    requires 0 <= i < n
    ensures To(c, From(c, i, n), n) == i
  {
    var q := (i - c - 1) / n;
    assert From(c, i, n) == i - c - 1 - q * n;
    assert c + 1 + From(c, i, n) == (-q) * n + i;
    ModUnique(c + 1 + From(c, i, n), n, -q, i);
  }

  /** HASHMAP_PROBE_NEXT is the next position. */
  lemma NextPosition(c: int, x: int, n: int)
    requires 0 <= x < n
    ensures Next(To(c, x, n), n) == To(c, if x + 1 < n then x + 1 else 0, n)
  {
    var q := (c + 1 + x) / n;
    var i := To(c, x, n);
    assert i == c + 1 + x - q * n;
    if x + 1 < n {
      var q' := (c + 2 + x) / n;
      assert To(c, x + 1, n) == c + 2 + x - q' * n;
      assert i + 1 == (q' - q) * n + To(c, x + 1, n) by { Distribute(q', q, n); }
      ModUnique(i + 1, n, q' - q, To(c, x + 1, n));
    } else {
      var q' := (c + 1) / n;
      assert To(c, 0, n) == c + 1 - q' * n;
      assert i + 1 == c + 1 + n - q * n;
      assert i + 1 == (q' - q + 1) * n + To(c, 0, n) by { Distribute(q' + 1, q, n); Distribute(q', -1, n); }
      ModUnique(i + 1, n, q' - q + 1, To(c, 0, n));
    }
  }

  lemma Distribute(a: int, b: int, n: int)
    ensures (a - b) * n == a * n - b * n
  {
  }

  /** The cyclic distance from slot h to slot i. */
  function Ahead(i: int, h: int, n: int): int
    requires n > 0
  {
    (i - h) % n
  }

  /** The cyclic distance by positions. */
  lemma Distance(c: int, h: int, i: int, n: int)
    requires 0 <= h < n && 0 <= i < n
    ensures Ahead(i, h, n) == var d := From(c, i, n) - From(c, h, n); if d >= 0 then d else d + n
  {
    var x, y := From(c, i, n), From(c, h, n);
    var p, q := (i - c - 1) / n, (h - c - 1) / n;
    assert x == i - c - 1 - p * n && y == h - c - 1 - q * n;
    if x >= y {
      assert i - h == (p - q) * n + (x - y) by { Distribute(p, q, n); }
      ModUnique(i - h, n, p - q, x - y);
    } else {
      assert i - h == (p - q - 1) * n + (x - y + n) by { Distribute(p, q, n); Distribute(p - q, 1, n); }
      ModUnique(i - h, n, p - q - 1, x - y + n);
    }
  }

  /** Moving the origin from c to the slot at position z. */
  lemma Reorigin(c: int, z: int, i: int, n: int)
    requires 0 <= z < n && 0 <= i < n
    ensures From(To(c, z, n), i, n) == var x := From(c, i, n); if x > z then x - z - 1 else x - z - 1 + n
  {
    var x, c' := From(c, i, n), To(c, z, n);
    var p, q := (i - c - 1) / n, (c + 1 + z) / n;
    assert x == i - c - 1 - p * n && c' == c + 1 + z - q * n;
    if x > z {
      assert i - c' - 1 == (p + q) * n + (x - z - 1) by { Distribute(p, -q, n); }
      ModUnique(i - c' - 1, n, p + q, x - z - 1);
    } else {
      assert i - c' - 1 == (p + q - 1) * n + (x - z - 1 + n) by { Distribute(p, -q, n); Distribute(p + q, 1, n); }
      ModUnique(i - c' - 1, n, p + q - 1, x - z - 1 + n);
    }
  }

  // ---- the invariant

  /** Every stored key is found by probing from its home slot: no free slot lies between, and no
      path passes the slot c, where probing may be cut open. */
  ghost predicate Probing<K(!new), V>(t: seq<Slot<K, V>>, hash: K -> nat, c: int) {
    |t| > 0 && 0 <= c < |t| && forall i | 0 <= i < |t| && t[i].Used? :: PathOk(t, hash, c, i)
  }

  function Home<K, V>(t: seq<Slot<K, V>>, hash: K -> nat, c: int, k: K): int
    requires |t| > 0
  {
    From(c, Index(hash, k, |t|), |t|)
  }

  /** The slots from the home of the key in slot i up to i are in use. */
  ghost predicate PathOk<K(!new), V>(t: seq<Slot<K, V>>, hash: K -> nat, c: int, i: int)
    requires 0 <= i < |t| && t[i].Used?
  {
    var (h, x) := (Home(t, hash, c, t[i].key), From(c, i, |t|));
    h <= x && forall y | h <= y < x :: t[To(c, y, |t|)].Used?
  }

  predicate Distinct<K(==), V>(t: seq<Slot<K, V>>) {
    forall i, j | 0 <= i < j < |t| && t[i].Used? && t[j].Used? :: t[i].key != t[j].key
  }

  /** The entries of t are those of the map m. */
  ghost predicate Represents<K, V>(t: seq<Slot<K, V>>, m: map<K, V>) {
    && Distinct(t)
    && (forall i | 0 <= i < |t| && t[i].Used? :: t[i].key in m && m[t[i].key] == t[i].data)
    && (forall k | k in m :: Present(t, k))
  }

  ghost predicate Present<K, V>(t: seq<Slot<K, V>>, k: K) {
    exists i :: 0 <= i < |t| && t[i].Used? && t[i].key == k
  }

  /** Any free slot can serve as the cut. */
  lemma Recut<K(!new), V>(t: seq<Slot<K, V>>, hash: K -> nat, c: int, c': int)
    requires Probing(t, hash, c) && 0 <= c' < |t| && t[c'].Free?
    ensures Probing(t, hash, c')
  {
    var n := |t|;
    var z := From(c, c', n);
    ToFrom(c, c', n);
    forall i | 0 <= i < n && t[i].Used? ensures PathOk(t, hash, c', i) {
      assert PathOk(t, hash, c, i);
      var (h, x) := (Home(t, hash, c, t[i].key), From(c, i, n));
      var (h', x') := (Home(t, hash, c', t[i].key), From(c', i, n));
      ToFrom(c, i, n);
      Reorigin(c, z, i, n);
      Reorigin(c, z, Index(hash, t[i].key, n), n);
      assert !(h <= z <= x);
      forall y' | h' <= y' < x' ensures t[To(c', y', n)].Used? {
        var y := y' - h' + h;
        assert t[To(c, y, n)].Used?;
        Reorigin(c, z, To(c, y, n), n);
        FromTo(c, y, n);
        ToFrom(c', To(c, y, n), n);
      }
    }
  }

  /** A key that probing does not meet before a free slot, or in the whole table, is absent. */
  lemma Absent<K(!new), V>(t: seq<Slot<K, V>>, hash: K -> nat, c: int, k: K, x: int)
    requires Probing(t, hash, c) && Home(t, hash, c, k) <= x <= |t|
    requires forall y | Home(t, hash, c, k) <= y < x :: t[To(c, y, |t|)].Used? && t[To(c, y, |t|)].key != k
    requires x < |t| ==> t[To(c, x, |t|)].Free?
    ensures !Present(t, k)
  {
    forall i | 0 <= i < |t| && t[i].Used? ensures t[i].key != k {
      assert PathOk(t, hash, c, i);
      ToFrom(c, i, |t|);
    }
  }

  /** Storing a new key in the first free slot from its home on. */
  lemma Insert<K(!new), V>(t: seq<Slot<K, V>>, hash: K -> nat, c: int, k: K, v: V, x: int, m: map<K, V>)
    requires Probing(t, hash, c) && Represents(t, m) && k !in m && Home(t, hash, c, k) <= x < |t|
    requires forall y | Home(t, hash, c, k) <= y < x :: t[To(c, y, |t|)].Used?
    requires t[To(c, x, |t|)].Free?
    ensures var t' := t[To(c, x, |t|) := Used(k, v)]; Probing(t', hash, c) && Represents(t', m[k := v])
  {
    var n, s := |t|, To(c, x, |t|);
    var t' := t[s := Used(k, v)];
    FromTo(c, x, n);
    forall i | 0 <= i < n && t'[i].Used? ensures PathOk(t', hash, c, i) {
      if i != s { assert PathOk(t, hash, c, i); }
    }
    forall q | q in m[k := v] ensures Present(t', q) {
      if q == k { assert t'[s].key == q; } else {
        assert Present(t, q);
        var i :| 0 <= i < n && t[i].Used? && t[i].key == q;
        assert t'[i] == t[i];
      }
    }
  }

  // ---- removal by shifting back

  /** The table while slot To(c, ho) is to be refilled: paths may run through it. */
  ghost predicate Holed<K(!new), V>(t: seq<Slot<K, V>>, hash: K -> nat, c: int, ho: int) {
    && 0 <= ho < |t|
    && forall i | 0 <= i < |t| && t[i].Used? && i != To(c, ho, |t|) :: HoledPath(t, hash, c, ho, i)
  }

  ghost predicate HoledPath<K(!new), V>(t: seq<Slot<K, V>>, hash: K -> nat, c: int, ho: int, i: int)
    requires 0 <= i < |t| && t[i].Used?
  {
    var (h, x) := (Home(t, hash, c, t[i].key), From(c, i, |t|));
    h <= x && forall y | h <= y < x :: y == ho || t[To(c, y, |t|)].Used?
  }

  /** Between the hole and k there are entries only, none of which looks across the hole. */
  ghost predicate Scanned<K(!new), V>(t: seq<Slot<K, V>>, hash: K -> nat, c: int, ho: int, k: int) {
    forall y | ho < y < k && 0 <= y < |t| :: t[To(c, y, |t|)].Used? && Home(t, hash, c, t[To(c, y, |t|)].key) > ho
  }

  /** The entries outside the hole are those of m. */
  ghost predicate Others<K, V>(t: seq<Slot<K, V>>, hole: int, m: map<K, V>) {
    && (forall i, j | 0 <= i < j < |t| && i != hole && j != hole && t[i].Used? && t[j].Used? :: t[i].key != t[j].key)
    && (forall i | 0 <= i < |t| && i != hole && t[i].Used? :: t[i].key in m && m[t[i].key] == t[i].data)
    && (forall k | k in m :: PresentOutside(t, hole, k))
  }

  ghost predicate PresentOutside<K, V>(t: seq<Slot<K, V>>, hole: int, k: K) {
    exists i :: 0 <= i < |t| && i != hole && t[i].Used? && t[i].key == k
  }

  lemma StartHole<K(!new), V>(t: seq<Slot<K, V>>, hash: K -> nat, c: int, r: int, m: map<K, V>)
    requires Probing(t, hash, c) && Represents(t, m) && 0 <= r < |t| && t[r].Used?
    ensures var ho := From(c, r, |t|);
      To(c, ho, |t|) == r && Holed(t, hash, c, ho) && Scanned(t, hash, c, ho, ho + 1) && Others(t, r, m - {t[r].key})
  {
    ToFrom(c, r, |t|);
    forall i | 0 <= i < |t| && t[i].Used? && i != r ensures HoledPath(t, hash, c, From(c, r, |t|), i) {
      assert PathOk(t, hash, c, i);
    }
    forall k | k in m && k != t[r].key ensures PresentOutside(t, r, k) {
      assert Present(t, k);
      var i :| 0 <= i < |t| && t[i].Used? && t[i].key == k;
    }
  }

  /** The entry at k looks across the hole: it moves into the hole and leaves a new one. */
  lemma ShiftBack<K(!new), V>(t: seq<Slot<K, V>>, hash: K -> nat, c: int, ho: int, k: int, m: map<K, V>)
    requires Holed(t, hash, c, ho) && Scanned(t, hash, c, ho, k) && ho < k < |t| && t[To(c, k, |t|)].Used?
    requires Home(t, hash, c, t[To(c, k, |t|)].key) <= ho && Others(t, To(c, ho, |t|), m)
    ensures var t' := t[To(c, ho, |t|) := t[To(c, k, |t|)]];
      Holed(t', hash, c, k) && Scanned(t', hash, c, k, k + 1) && Others(t', To(c, k, |t|), m)
  {
    var n := |t|;
    var s, r := To(c, ho, n), To(c, k, n);
    FromTo(c, ho, n);
    FromTo(c, k, n);
    var t' := t[s := t[r]];
    assert HoledPath(t, hash, c, ho, r);
    forall i | 0 <= i < n && t'[i].Used? && i != r ensures HoledPath(t', hash, c, k, i) {
      if i != s { assert HoledPath(t, hash, c, ho, i); }
      var (h, x) := (Home(t', hash, c, t'[i].key), From(c, i, n));
      forall y | h <= y < x && y != k ensures t'[To(c, y, n)].Used? { FromTo(c, y, n); }
    }
    forall q | q in m ensures PresentOutside(t', r, q) {
      assert PresentOutside(t, s, q);
      var i :| 0 <= i < n && i != s && t[i].Used? && t[i].key == q;
      if i == r { assert t'[s].key == q; } else { assert t'[i].key == q; }
    }
  }

  /** The test of hashmap_entry_remove, by positions. */
  lemma ShiftTest<K, V>(t: seq<Slot<K, V>>, hash: K -> nat, c: int, ho: int, x: int, key: K)
    requires 0 <= ho < |t| && 0 <= x < |t| && x != ho && Home(t, hash, c, key) <= x
    ensures var (n, e) := (|t|, Index(hash, key, |t|));
      Ahead(To(c, x, n), e, n) > Ahead(To(c, ho, n), e, n) <==> (ho < x && Home(t, hash, c, key) <= ho)
  {
    var n, e := |t|, Index(hash, key, |t|);
    FromTo(c, x, n);
    FromTo(c, ho, n);
    Distance(c, e, To(c, x, n), n);
    Distance(c, e, To(c, ho, n), n);
  }

  /** Nothing from k on looks across the hole, which can be freed. */
  lemma FreeHole<K(!new), V>(t: seq<Slot<K, V>>, hash: K -> nat, c: int, ho: int, k: int, m: map<K, V>)
    requires Holed(t, hash, c, ho) && Scanned(t, hash, c, ho, k) && ho < k <= |t| && 0 <= c < |t|
        && Others(t, To(c, ho, |t|), m)
    requires k < |t| ==> t[To(c, k, |t|)].Free? || forall y | k <= y < |t| :: t[To(c, y, |t|)].Free?
    ensures var t' := t[To(c, ho, |t|) := Free]; Probing(t', hash, c) && Represents(t', m)
  {
    var n := |t|;
    var s := To(c, ho, n);
    var t' := t[s := Free];
    FromTo(c, ho, n);
    forall i | 0 <= i < n && t'[i].Used? ensures PathOk(t', hash, c, i) {
      assert HoledPath(t, hash, c, ho, i);
      var (h, x) := (Home(t, hash, c, t[i].key), From(c, i, n));
      ToFrom(c, i, n);
      assert !(h <= ho < x);
      forall y | h <= y < x ensures t'[To(c, y, n)].Used? { FromTo(c, y, n); }
    }
    forall q | q in m ensures Present(t', q) {
      assert PresentOutside(t, s, q);
      var i :| 0 <= i < n && i != s && t[i].Used? && t[i].key == q;
      assert t'[i].key == q;
    }
  }

  // ---- counting

  /** The keys of the first j slots. */
  ghost function Keys<K, V>(t: seq<Slot<K, V>>, j: nat): set<K>
    requires j <= |t|
  {
    if j == 0 then {} else if t[j - 1].Used? then Keys(t, j - 1) + {t[j - 1].key} else Keys(t, j - 1)
  }

  lemma {:induction false} KeysIn<K, V>(t: seq<Slot<K, V>>, j: nat, q: K)
    requires j <= |t|
    ensures q in Keys(t, j) <==> exists i :: 0 <= i < j && t[i].Used? && t[i].key == q
  {
    if j > 0 { KeysIn(t, j - 1, q); }
  }

  lemma {:induction false} KeysCount<K, V>(t: seq<Slot<K, V>>, j: nat)
    requires j <= |t| && Distinct(t) && forall i | 0 <= i < j :: t[i].Used?
    ensures |Keys(t, j)| == j
  {
    if j > 0 {
      KeysCount(t, j - 1);
      KeysIn(t, j - 1, t[j - 1].key);
    }
  }

  lemma SubsetCard<T>(a: set<T>, b: set<T>)
    requires a <= b
    ensures |a| <= |b| && (|a| == |b| ==> a == b)
  {
    var rest := b - a;
    assert b == a + rest && |b| == |a| + |rest|;
  }

  /** A table with fewer entries than slots has a free slot. */
  lemma HasFree<K, V>(t: seq<Slot<K, V>>, m: map<K, V>) returns (i: int)
    requires Represents(t, m) && |m| < |t|
    ensures 0 <= i < |t| && t[i].Free?
  {
    if forall i | 0 <= i < |t| :: t[i].Used? {
      KeysCount(t, |t|);
      forall q | q in Keys(t, |t|) ensures q in m.Keys { KeysIn(t, |t|, q); }
      SubsetCard(Keys(t, |t|), m.Keys);
      assert false;
    }
    i :| 0 <= i < |t| && t[i].Free?;
  }

  lemma {:induction false} KeysUpper<K, V>(t: seq<Slot<K, V>>, j: nat, free: int)
    requires j <= |t|
    ensures |Keys(t, j)| <= j
    ensures 0 <= free < j && t[free].Free? ==> |Keys(t, j)| < j
  {
    if j > 0 { KeysUpper(t, j - 1, free); }
  }

  /** There are at most as many entries as slots, and fewer if a slot is free. */
  lemma SizeBound<K, V>(t: seq<Slot<K, V>>, m: map<K, V>, free: int)
    requires Represents(t, m)
    ensures |m| <= |t|
    ensures 0 <= free < |t| && t[free].Free? ==> |m| < |t|
  {
    KeysUpper(t, |t|, free);
    forall q | q in m.Keys ensures q in Keys(t, |t|) {
      assert Present(t, q);
      KeysIn(t, |t|, q);
    }
    SubsetCard(m.Keys, Keys(t, |t|));
  }

  /** A table without free slots has as many entries as slots. */
  lemma AllUsed<K, V>(t: seq<Slot<K, V>>, m: map<K, V>)
    requires Represents(t, m) && forall i | 0 <= i < |t| :: t[i].Used?
    ensures |m| == |t|
  {
    SizeBound(t, m, -1);
    if |m| < |t| { var i := HasFree(t, m); }
  }

  // ---- the state of a removal

  /** Slot To(c, ho) is to be refilled; the positions after it up to k have been examined. */
  ghost predicate Removing<K(!new),
                             V>(t: seq<Slot<K, V>>, hash: K -> nat, c: int, r0: int, ho: int, k: int, m: map<K, V>) {
    && 0 <= c < |t| && 0 <= r0 <= ho < k <= |t|
    && Holed(t, hash, c, ho) && Scanned(t, hash, c, ho, k) && Others(t, To(c, ho, |t|), m)
  }

  /** The keys in seen lie between r0 and k. */
  ghost predicate Seen<K(!new), V>(t: seq<Slot<K, V>>, c: int, r0: int, ho: int, k: int, seen: set<K>) {
    |t| > 0 && forall q | q in seen :: SeenAt(t, c, r0, ho, k, q)
  }

  ghost predicate SeenAt<K, V>(t: seq<Slot<K, V>>, c: int, r0: int, ho: int, k: int, q: K)
    requires |t| > 0
  {
    exists y :: r0 <= y < k && y != ho && t[To(c, y, |t|)].Used? && t[To(c, y, |t|)].key == q
  }

  lemma RemoveStart<K(!new), V>(t: seq<Slot<K, V>>, hash: K -> nat, c: int, r: int, m: map<K, V>)
    requires Probing(t, hash, c) && Represents(t, m) && 0 <= r < |t| && t[r].Used?
    ensures var (n, ho) := (|t|, From(c, r, |t|));
      && Removing(t, hash, c, ho, ho, ho + 1, m - {t[r].key}) && Seen(t, c, ho, ho, ho + 1, {})
      && To(c, ho, n) == r && Next(r, n) == To(c, if ho + 1 < n then ho + 1 else ho + 1 - n, n)
      && t[r].key in m
  {
    StartHole(t, hash, c, r, m);
    NextPosition(c, From(c, r, |t|), |t|);
  }

  /** The entry at k moves into the hole. */
  lemma RemoveShift<K(!new),
                      V>(t: seq<Slot<K, V>>, hash: K -> nat, c: int, r0: int, ho: int, k: int, m: map<K, V>,
                      seen: set<K>)
    requires Removing(t, hash, c, r0, ho, k, m) && k < |t| && t[To(c, k, |t|)].Used? && Seen(t, c, r0, ho, k, seen)
    requires Home(t, hash, c, t[To(c, k, |t|)].key) <= ho
    ensures var (e, t') := (t[To(c, k, |t|)], t[To(c, ho, |t|) := t[To(c, k, |t|)]]);
      && Removing(t', hash, c, r0, k, k + 1, m) && e.key in m && e.key !in seen
          && Seen(t', c, r0, k, k + 1, seen + {e.key})
  {
    var n := |t|;
    var e := t[To(c, k, n)];
    var t' := t[To(c, ho, n) := e];
    ShiftBack(t, hash, c, ho, k, m);
    FromTo(c, ho, n);
    FromTo(c, k, n);
    forall q | q in seen ensures q != e.key && SeenAt(t', c, r0, k, k + 1, q) {
      assert SeenAt(t, c, r0, ho, k, q);
      var y :| r0 <= y < k && y != ho && t[To(c, y, n)].Used? && t[To(c, y, n)].key == q;
      FromTo(c, y, n);
      assert t'[To(c, y, n)].key == q;
    }
    assert t'[To(c, ho, n)].key == e.key;
  }

  /** The entry at k stays. */
  lemma RemoveKeep<K(!new),
                     V>(t: seq<Slot<K, V>>, hash: K -> nat, c: int, r0: int, ho: int, k: int, m: map<K, V>,
                     seen: set<K>)
    requires Removing(t, hash, c, r0, ho, k, m) && k < |t| && t[To(c, k, |t|)].Used? && Seen(t, c, r0, ho, k, seen)
    requires Home(t, hash, c, t[To(c, k, |t|)].key) > ho
    ensures var e := t[To(c, k, |t|)];
      Removing(t, hash, c, r0, ho, k + 1, m) && e.key in m && e.key !in seen
          && Seen(t, c, r0, ho, k + 1, seen + {e.key})
  {
    var n := |t|;
    var e := t[To(c, k, n)];
    FromTo(c, ho, n);
    FromTo(c, k, n);
    forall q | q in seen ensures q != e.key && SeenAt(t, c, r0, ho, k + 1, q) {
      assert SeenAt(t, c, r0, ho, k, q);
      var y :| r0 <= y < k && y != ho && t[To(c, y, n)].Used? && t[To(c, y, n)].key == q;
      FromTo(c, y, n);
      assert t[To(c, y, n)].key == q;
    }
    assert t[To(c, k, n)].key == e.key;
  }

  /** Every other entry has been seen: nothing lies at k or later. */
  lemma RemoveAll<K(!new),
                    V>(t: seq<Slot<K, V>>, hash: K -> nat, c: int, r0: int, ho: int, k: int, m: map<K, V>, seen: set<K>)
    requires Removing(t, hash, c, r0, ho, k, m) && Seen(t, c, r0, ho, k, seen) && seen <= m.Keys && |seen| == |m|
    ensures forall y | k <= y < |t| :: t[To(c, y, |t|)].Free?
  {
    var n := |t|;
    SubsetCard(seen, m.Keys);
    forall y | k <= y < n ensures t[To(c, y, n)].Free? {
      var e := t[To(c, y, n)];
      FromTo(c, y, n);
      FromTo(c, ho, n);
      if e.Used? {
        assert e.key in m.Keys;
        assert SeenAt(t, c, r0, ho, k, e.key);
        var z :| r0 <= z < k && z != ho && t[To(c, z, n)].Used? && t[To(c, z, n)].key == e.key;
        FromTo(c, z, n);
      }
    }
  }

  lemma RemoveEnd<K(!new), V>(t: seq<Slot<K, V>>, hash: K -> nat, c: int, r0: int, ho: int, k: int, m: map<K, V>)
    requires Removing(t, hash, c, r0, ho, k, m)
    requires k < |t| ==> t[To(c, k, |t|)].Free? || forall y | k <= y < |t| :: t[To(c, y, |t|)].Free?
    ensures var t' := t[To(c, ho, |t|) := Free]; Probing(t', hash, c) && Represents(t', m)
  {
    FreeHole(t, hash, c, ho, k, m);
  }

  /** An entry before r0 in the order of positions, met after wrapping around, stays. */
  lemma RemoveWrapped<K(!new),
                        V>(t: seq<Slot<K, V>>, hash: K -> nat, c: int, r0: int, ho: int, k: int, m: map<K, V>, x: int)
    requires Removing(t, hash, c, r0, ho, k, m) && 0 <= x < r0 && t[To(c, x, |t|)].Used?
    ensures var (n, e) := (|t|, Index(hash, t[To(c, x, |t|)].key, |t|));
      !(Ahead(To(c, x, n), e, n) > Ahead(To(c, ho, n), e, n))
  {
    FromTo(c, x, |t|);
    FromTo(c, ho, |t|);
    assert HoledPath(t, hash, c, ho, To(c, x, |t|));
    ShiftTest(t, hash, c, ho, x, t[To(c, x, |t|)].key);
  }

  lemma RemoveTest<K(!new), V>(t: seq<Slot<K, V>>, hash: K -> nat, c: int, r0: int, ho: int, k: int, m: map<K, V>)
    requires Removing(t, hash, c, r0, ho, k, m) && k < |t| && t[To(c, k, |t|)].Used?
    ensures var (n, e) := (|t|, Index(hash, t[To(c, k, |t|)].key, |t|));
      Ahead(To(c, k, n), e, n) > Ahead(To(c, ho, n), e, n) <==> Home(t, hash, c, t[To(c, k, |t|)].key) <= ho
  {
    FromTo(c, k, |t|);
    FromTo(c, ho, |t|);
    assert HoledPath(t, hash, c, ho, To(c, k, |t|));
    ShiftTest(t, hash, c, ho, k, t[To(c, k, |t|)].key);
  }

  function Wrap(x: int, n: int): int { if x < n then x else x - n }

  lemma NextWrap(x: int, n: int)
    requires 0 <= x < 2 * n - 1
    ensures Next(Wrap(x, n), n) == Wrap(x + 1, n) || (x + 1 == 2 * n)
  {
    var y := Wrap(x, n);
    if y + 1 < n { ModUnique(y + 1, n, 0, y + 1); } else { ModUnique(y + 1, n, 1, 0); }
  }

  /** i entries after the removed one have been examined; the last examined position is cut off
      at the end of the order of positions. */
  ghost predicate RemoveLoop<K(!new),
                               V>(t: seq<Slot<K, V>>, hash: K -> nat, c: int, r0: int, ho: int, i: int, m: map<K, V>,
                               seen: set<K>) {
    var (n, k) := (|t|, r0 + 1 + i);
    && 0 <= i <= |m| < n && Removing(t, hash, c, r0, ho, if k < n then k else n, m)
    && (k <= n ==> Seen(t, c, r0, ho, k, seen) && seen <= m.Keys && |seen| == i)
  }

  lemma LoopNext(c: int, r0: int, i: int, n: int)
    requires 0 <= r0 && 0 <= i && r0 + 1 + i < 2 * n
    ensures Next(To(c, Wrap(r0 + 1 + i, n), n), n) == To(c, Wrap(r0 + 2 + i, n), n)
  {
    NextPosition(c, Wrap(r0 + 1 + i, n), n);
    ToCycle(c, n);
  }

  /** One round before the end of the order of positions. */
  lemma LoopStep<K(!new),
                   V>(t: seq<Slot<K, V>>, hash: K -> nat, c: int, r0: int, ho: int, i: int, m: map<K, V>, seen: set<K>)
    returns (ho': int, seen': set<K>)
    requires RemoveLoop(t, hash, c, r0, ho, i, m, seen) && i < |m| && r0 + 1 + i < |t|
    requires t[To(c, r0 + 1 + i, |t|)].Used?
    ensures var (n, k) := (|t|, r0 + 1 + i);
      var (x, s) := (To(c, k, n), To(c, ho, n));
      var e := Index(hash, t[x].key, n);
      if Ahead(x, e, n) > Ahead(s, e, n) then To(c, ho', n) == x
          && RemoveLoop(t[s := t[x]], hash, c, r0, ho', i + 1, m, seen')
      else ho' == ho && RemoveLoop(t, hash, c, r0, ho, i + 1, m, seen')
  {
    var n, k := |t|, r0 + 1 + i;
    hide Removing, Seen, To, From, Index, Ahead, Home;
    RemoveTest(t, hash, c, r0, ho, k, m);
    var q := t[To(c, k, n)].key;
    seen' := seen + {q};
    if Home(t, hash, c, q) <= ho {
      ho' := k;
      RemoveShift(t, hash, c, r0, ho, k, m, seen);
    } else {
      ho' := ho;
      RemoveKeep(t, hash, c, r0, ho, k, m, seen);
    }
  }

  /** One round after wrapping around: nothing moves. */
  lemma LoopWrapped<K(!new),
                      V>(t: seq<Slot<K, V>>, hash: K -> nat, c: int, r0: int, ho: int, i: int, m: map<K, V>,
                      seen: set<K>)
    requires RemoveLoop(t, hash, c, r0, ho, i, m, seen) && i < |m| && r0 + 1 + i >= |t|
    requires t[To(c, r0 + 1 + i - |t|, |t|)].Used?
    ensures var n := |t|;
      var (x, s) := (To(c, r0 + 1 + i - n, n), To(c, ho, n));
      var e := Index(hash, t[x].key, n);
      !(Ahead(x, e, n) > Ahead(s, e, n)) && RemoveLoop(t, hash, c, r0, ho, i + 1, m, seen)
  {
    var n := |t|;
    RemoveWrapped(t, hash, c, r0, ho, n, m, r0 + 1 + i - n);
    hide Removing, Seen, To, From, Index, Ahead, Home;
  }

  lemma LoopEnd<K(!new),
                  V>(t: seq<Slot<K, V>>, hash: K -> nat, c: int, r0: int, ho: int, i: int, m: map<K, V>, seen: set<K>)
    requires RemoveLoop(t, hash, c, r0, ho, i, m, seen)
    requires i == |m| || t[To(c, Wrap(r0 + 1 + i, |t|), |t|)].Free?
    ensures var t' := t[To(c, ho, |t|) := Free]; Probing(t', hash, c) && Represents(t', m)
  {
    var n, k := |t|, r0 + 1 + i;
    hide Removing, Seen, To;
    if k < n && i == |m| { RemoveAll(t, hash, c, r0, ho, k, m, seen); }
    RemoveEnd(t, hash, c, r0, ho, if k < n then k else n, m);
  }

  lemma ToCycle(c: int, n: int)
    requires n > 0
    ensures To(c, n, n) == To(c, 0, n)
  {
    var q := (c + 1) / n;
    assert c + 1 + n == (q + 1) * n + To(c, 0, n) by { Distribute(q, -1, n); }
    ModUnique(c + 1 + n, n, q + 1, To(c, 0, n));
  }

  // ---- removal during iteration

  /** The entries after slot p in t0 are at p or later in t, outside the hole. */
  ghost predicate Kept<K, V>(t0: seq<Slot<K, V>>, p: int, t: seq<Slot<K, V>>, hole: int) {
    |t| == |t0| && forall i | p < i < |t0| && 0 <= i && t0[i].Used? :: KeptAt(t, p, hole, t0[i].key)
  }

  ghost predicate KeptAt<K, V>(t: seq<Slot<K, V>>, p: int, hole: int, q: K) {
    exists j :: p <= j < |t| && 0 <= j && j != hole && t[j].Used? && t[j].key == q
  }

  lemma KeptStart<K, V>(t: seq<Slot<K, V>>, p: int)
    requires 0 <= p < |t|
    ensures Kept(t, p, t, p)
  {
  }

  lemma KeptShift<K, V>(t0: seq<Slot<K, V>>, p: int, t: seq<Slot<K, V>>, hole: int, x: int)
    requires Kept(t0, p, t, hole) && 0 <= p && 0 <= hole < |t| && 0 <= x < |t| && x != hole && t[x].Used?
        && (x >= p ==> hole >= p)
    ensures Kept(t0, p, t[hole := t[x]], x)
  {
    var t' := t[hole := t[x]];
    forall i | p < i < |t0| && 0 <= i && t0[i].Used? ensures KeptAt(t', p, x, t0[i].key) {
      assert KeptAt(t, p, hole, t0[i].key);
      var j :| p <= j < |t| && 0 <= j && j != hole && t[j].Used? && t[j].key == t0[i].key;
      if j == x { assert t'[hole].key == t0[i].key; } else { assert t'[j].key == t0[i].key; }
    }
  }

  lemma KeptFree<K, V>(t0: seq<Slot<K, V>>, p: int, t: seq<Slot<K, V>>, hole: int)
    requires Kept(t0, p, t, hole) && 0 <= hole < |t|
    ensures Kept(t0, p, t[hole := Free], hole)
  {
    var t' := t[hole := Free];
    forall i | p < i < |t0| && 0 <= i && t0[i].Used? ensures KeptAt(t', p, hole, t0[i].key) {
      assert KeptAt(t, p, hole, t0[i].key);
      var j :| p <= j < |t| && 0 <= j && j != hole && t[j].Used? && t[j].key == t0[i].key;
      assert t'[j].key == t0[i].key;
    }
  }

  /** The keys at slot p and later. */
  ghost function KeysFrom<K, V>(t: seq<Slot<K, V>>, p: int): set<K> {
    set i | 0 <= i < |t| && p <= i && t[i].Used? :: t[i].key
  }

  lemma KeptKeys<K, V>(t0: seq<Slot<K, V>>, p: int, t: seq<Slot<K, V>>, hole: int)
    requires Kept(t0, p, t, hole)
    ensures KeysFrom(t0, p + 1) <= KeysFrom(t, p)
  {
    forall q | q in KeysFrom(t0, p + 1) ensures q in KeysFrom(t, p) {
      var i :| 0 <= i < |t0| && p + 1 <= i && t0[i].Used? && t0[i].key == q;
      assert KeptAt(t, p, hole, q);
    }
  }

  /** Slots without entries can be passed over. */
  lemma KeysSkip<K, V>(t: seq<Slot<K, V>>, p: int, i: int)
    requires 0 <= p <= i && forall j | p <= j < i && j < |t| :: t[j].Free?
    ensures KeysFrom(t, p) == KeysFrom(t, i)
    ensures i >= |t| ==> KeysFrom(t, i) == {}
    ensures i < |t| && t[i].Used? ==> KeysFrom(t, i) == KeysFrom(t, i + 1) + {t[i].key}
  {
  }

  // ---- rebuilding a table

  /** The part of m stored in the first j slots of t. */
  ghost function Restrict<K, V>(t: seq<Slot<K, V>>, j: nat, m: map<K, V>): map<K, V>
    requires j <= |t|
  {
    map k | k in m && k in Keys(t, j) :: m[k]
  }

  lemma RestrictNext<K, V>(t: seq<Slot<K, V>>, j: nat, m: map<K, V>)
    requires j < |t| && Represents(t, m)
    ensures t[j].Free? ==> Restrict(t, j + 1, m) == Restrict(t, j, m)
    ensures t[j].Used? ==>
        t[j].key !in Restrict(t, j, m)
        && Restrict(t, j + 1, m) == Restrict(t, j, m)[t[j].key := t[j].data]
    ensures t[j].Used? ==> |Restrict(t, j, m)| < |m|
  {
    if t[j].Used? {
      KeysIn(t, j, t[j].key);
      var r := Restrict(t, j, m);
      assert t[j].key in m && t[j].key !in r;
      assert r.Keys <= m.Keys - {t[j].key};
      SubsetCard(r.Keys, m.Keys - {t[j].key});
    }
  }

  lemma RestrictAll<K, V>(t: seq<Slot<K, V>>, m: map<K, V>)
    requires Represents(t, m)
    ensures Restrict(t, |t|, m) == m && Restrict(t, 0, m) == map[]
  {
    forall k | k in m ensures k in Keys(t, |t|) {
      assert Present(t, k);
      KeysIn(t, |t|, k);
    }
  }

  lemma EmptyTable<K(!new), V>(t: seq<Slot<K, V>>, hash: K -> nat, c: int)
    requires forall i | 0 <= i < |t| :: t[i].Free?
    ensures Represents(t, map[]) && (0 <= c < |t| ==> Probing(t, hash, c))
  {
  }

  lemma RemoveBegin<K(!new), V>(t: seq<Slot<K, V>>, hash: K -> nat, c: int, r: int, m: map<K, V>)
    requires Probing(t, hash, c) && Represents(t, m) && 0 <= r < |t| && t[r].Used?
    ensures var (n, ho) := (|t|, From(c, r, |t|));
      && t[r].key in m && |m - {t[r].key}| == |m| - 1
      && RemoveLoop(t, hash, c, ho, ho, 0, m - {t[r].key}, {})
      && To(c, ho, n) == r && Next(r, n) == To(c, Wrap(ho + 1, n), n) && Next(r, n) == Wrap(r + 1, n)
  {
    hide Removing, Seen, To, Next, Represents, Probing, From;
    RemoveStart(t, hash, c, r, m);
    SizeBound(t, m, -1);
    NextWrap(r, |t|);
    Smaller(m, t[r].key);
  }

  lemma Smaller<K, V>(m: map<K, V>, k: K)
    requires k in m
    ensures |m - {k}| == |m| - 1
  {
    assert m.Keys == (m - {k}).Keys + {k};
  }
}
