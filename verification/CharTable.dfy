/** Property tables: run lengths of code points alternately out of and in a set, read in full
    by unicode_prop1 and through an index by lre_is_in_table. */
module CharTable {
  import opened Bytes
  import opened CharSet
  import opened CharAlgebra
  import opened CharRanges
  import opened CharRuns
  import Lists

  /** Bytes of the item at p: one byte holds two short runs or one run, or starts a run of two
      or three bytes. */
  function Width(b: u8): nat {
    if b < 64 || b >= 0x80 then 1 else if b < 0x60 then 2 else 3
  }

  /** Every item from p on is complete. */
  predicate Complete(table: seq<u8>, p: nat)
    decreases |table| - p
  {
    p == |table| || (p < |table| && p + Width(table[p]) <= |table| && Complete(table, p + Width(table[p])))
  }

  /** Length of the run of an item that holds one run. */
  function Run(table: seq<u8>, p: nat): (n: int)
    requires p < |table| && p + Width(table[p]) <= |table| && table[p] >= 64
    ensures n >= 1
  {
    var b: int := table[p];
    if b >= 0x80 then b - 0x80 + 1
    else if b < 0x60 then
      var b1: int := table[p + 1];
      (b - 0x40) * 256 + b1 + 1
    else
      var b1: int, b2: int := table[p + 1], table[p + 2];
      (b - 0x60) * 65536 + b1 * 256 + b2 + 1
  }

  /** Ends of the runs of the item at p, when it starts at code point c. */
  function ItemEnds(table: seq<u8>, p: nat, c: int): (r: seq<int>)
    requires p < |table| && p + Width(table[p]) <= |table|
    ensures 1 <= |r| <= 2 && c < r[0] && (|r| == 2 ==> r[0] < r[1])
  {
    var b: int := table[p];
    if b < 64 then [c + b / 8 + 1, c + b / 8 + 1 + b % 8 + 1] else [c + Run(table, p)]
  }

  /** Ends of all runs from p on. */
  function Ends(table: seq<u8>, p: nat, c: int): (r: seq<int>)
    requires Complete(table, p)
    ensures Increasing(r) && forall i | 0 <= i < |r| :: c < r[i]
    decreases |table| - p
  {
    if p == |table| then []
    else
      var item := ItemEnds(table, p, c);
      item + Ends(table, p + Width(table[p]), item[|item| - 1])
  }

  /** The endpoints of the set: the in-runs lie between an odd end and the next. A last run
      that is out is dropped. */
  function Members(ends: seq<int>): seq<int> { ends[..|ends| - |ends| % 2] }

  /** The code point reached after the runs that end at done. */
  function Reached(done: seq<int>): int { if done == [] then 0 else done[|done| - 1] }

  /** An item starts at p, after the runs that end at done. */
  ghost predicate Boundary(table: seq<u8>, p: nat, done: seq<int>) {
    && Complete(table, 0) && Complete(table, p)
    && Ends(table, 0, 0) == done + Ends(table, p, Reached(done))
  }

  predicate TableOk(table: seq<u8>) {
    Complete(table, 0) && AllU32(Ends(table, 0, 0))
  }

  /** The item at a boundary: its ends are the next ones, and a boundary follows it. */
  lemma BoundaryItem(table: seq<u8>, p: nat, done: seq<int>)
    requires TableOk(table) && Boundary(table, p, done) && p < |table|
    ensures p + Width(table[p]) <= |table|
    ensures var item, all := ItemEnds(table, p, Reached(done)), Ends(table, 0, 0);
      && Boundary(table, p + Width(table[p]), done + item)
      && |done| + |item| <= |all|
      && IsU32(item[0]) && all[|done|] == item[0]
      && (|item| == 2 ==> IsU32(item[1]) && all[|done| + 1] == item[1])
  {
    var item, all := ItemEnds(table, p, Reached(done)), Ends(table, 0, 0);
    var rest := Ends(table, p + Width(table[p]), item[|item| - 1]);
    assert all == done + item + rest;
    hide ItemEnds, Complete, Width;
    assert all[|done|] == item[0];
    assert |item| == 2 ==> all[|done| + 1] == item[1];
  }

  lemma MembersStep(done: seq<int>, e: int)
    ensures Members(done + [e]) == if |done| % 2 == 1 then Members(done) + [done[|done| - 1], e] else Members(done)
  {
    if |done| % 2 == 1 { assert done[..|done| - 1] + [done[|done| - 1], e] == done + [e]; }
  }

  // ---- what a table encodes

  /** The item at p. */
  lemma ItemIs(table: seq<u8>, p: nat, c: int, i: Item)
    requires Fits(i) && p + |ItemBytes(i)| <= |table| && table[p..p + |ItemBytes(i)|] == ItemBytes(i)
    ensures Width(table[p]) == |ItemBytes(i)| && ItemEnds(table, p, c) == Sums(Lengths(i), c)
  {
    var b := ItemBytes(i);
    SumsFew(Lengths(i), c);
    assert table[p] == table[p..p + |b|][0];
    if |b| > 1 { assert table[p + 1] == table[p..p + |b|][1]; }
    if |b| > 2 { assert table[p + 2] == table[p..p + |b|][2]; }
  }

  lemma SumsFew(runs: seq<nat>, c: int)
    requires 1 <= |runs| <= 2
    ensures Sums(runs, c) == if |runs| == 1 then [c + runs[0]] else [c + runs[0], c + runs[0] + runs[1]]
  {
    assert runs[1..] == if |runs| == 1 then [] else [runs[1]];
    if |runs| == 2 { assert runs[1..][1..] == []; }
  }

  /** The ends of an encoded list of runs are its partial sums. */
  lemma {:induction false} EndsAreSums(table: seq<u8>, p: nat, c: int, items: seq<Item>)
    requires AllFit(items) && p <= |table| && table[p..] == Encoded(items)
    ensures Complete(table, p) && Ends(table, p, c) == Sums(Runs(items), c)
    decreases |items|
  {
    hide Width, ItemEnds, ItemBytes, Fits, Run;
    if items != [] {
      var (b, l) := (ItemBytes(items[0]), Lengths(items[0]));
      assert Fits(items[0]);
      Lists.Cut(b, Encoded(items[1..]));
      assert table[p..][..|b|] == table[p..p + |b|] && table[p..][|b|..] == table[p + |b|..];
      ItemIs(table, p, c, items[0]);
      EndsAreSums(table, p + |b|, c + Total(l), items[1..]);
      SumsAppend(l, Runs(items[1..]), c);
      SumsLast(l, c);
    }
  }

  /** Every table with whole items is such an encoding. */
  lemma {:induction false} EveryTable(table: seq<u8>, p: nat) returns (items: seq<Item>)
    requires Complete(table, p)
    ensures AllFit(items) && p <= |table| && table[p..] == Encoded(items)
    decreases |table| - p
  {
    if p == |table| {
      items := [];
    } else {
      var i := SomeItem(table, p);
      var rest := EveryTable(table, p + Width(table[p]));
      items := [i] + rest;
      hide Width, Complete;
      assert items[0] == i && items[1..] == rest;
      assert table[p..] == table[p..p + |ItemBytes(i)|] + table[p + |ItemBytes(i)|..];
    }
  }

  lemma SomeItem(table: seq<u8>, p: nat) returns (i: Item)
    requires p < |table| && p + Width(table[p]) <= |table|
    ensures Fits(i) && |ItemBytes(i)| == Width(table[p]) && table[p..p + |ItemBytes(i)|] == ItemBytes(i)
  {
    var b := table[p];
    i := ItemOf(b, if p + 1 < |table| then table[p + 1] else 0, if p + 2 < |table| then table[p + 2] else 0);
    ItemOfBytes(b, if p + 1 < |table| then table[p + 1] else 0, if p + 2 < |table| then table[p + 2] else 0);
    hide ItemBytes, ItemOf, Fits;
  }

  function ItemOf(b: u8, b1: u8, b2: u8): Item {
    if b < 64 then Pair(b / 8 + 1, b % 8 + 1)
    else if b >= 0x80 then Short(b as int - 0x80 + 1)
    else if b < 0x60 then Medium((b as int - 0x40) * 0x100 + b1 + 1)
    else Long((b as int - 0x60) * 0x1_0000 + b1 as int * 0x100 + b2 + 1)
  }

  lemma ItemOfBytes(b: u8, b1: u8, b2: u8)
    ensures Fits(ItemOf(b, b1, b2)) && ItemBytes(ItemOf(b, b1, b2)) == [b, b1, b2][..Width(b)]
  {
    var x := b as int - 0x60;
    if b < 64 {
      assert ItemBytes(ItemOf(b, b1, b2)) == [b];
    } else if b >= 0x80 {
      assert ItemBytes(ItemOf(b, b1, b2)) == [b];
    } else if b < 0x60 {
      Digits256(0, b as int - 0x40, b1);
    } else {
      Digits256(x, b1, b2);
      assert 0 <= x * 0x1_0000 + b1 as int * 0x100 + b2 < 0x20_0000;
    }
  }

  lemma Digits256(x: int, y: int, z: int)
    requires 0 <= y < 256 && 0 <= z < 256
    ensures var n := x * 0x1_0000 + y * 0x100 + z;
      n / 0x1_0000 == x && n / 0x100 == x * 0x100 + y && n / 0x100 % 0x100 == y && n % 0x100 == z
  {
  }

  lemma {:induction false} MembersOdd(runs: seq<nat>, c: int)
    ensures Members(Sums(runs, c)) == OddRuns(runs, c)
    decreases |runs|
  {
    SumsLast(runs, c);
    if |runs| >= 2 {
      var d := c + runs[0] + runs[1];
      SumsTwo(runs, c);
      MembersOdd(runs[2..], d);
      SumsLast(runs[2..], d);
      hide Sums, OddRuns;
      MembersTwo(c + runs[0], d, Sums(runs[2..], d));
      assert OddRuns(runs, c) == [c + runs[0], d] + OddRuns(runs[2..], d) by { OddTwo(runs, c); }
    }
  }

  lemma OddTwo(runs: seq<nat>, c: int)
    requires |runs| >= 2
    ensures OddRuns(runs, c) == [c + runs[0], c + runs[0] + runs[1]] + OddRuns(runs[2..], c + runs[0] + runs[1])
  {
  }

  lemma SumsTwo(runs: seq<nat>, c: int)
    requires |runs| >= 2
    ensures Sums(runs, c) == [c + runs[0], c + runs[0] + runs[1]] + Sums(runs[2..], c + runs[0] + runs[1])
  {
    var d := c + runs[0];
    assert runs[1..][1..] == runs[2..];
    assert Sums(runs[1..], d) == [d + runs[1]] + Sums(runs[2..], d + runs[1]);
  }

  lemma MembersTwo(a: int, b: int, rest: seq<int>)
    ensures Members([a, b] + rest) == [a, b] + Members(rest)
  {
  }

  /** Those endpoints contain what falls into an odd run. */
  lemma {:induction false} OddRunsAre(runs: seq<nat>, from: nat, c: int)
    requires from <= |runs| && from % 2 == 0
    ensures InPoints(OddRuns(runs[from..], Total(runs[..from])), c) <==>
            exists k: nat :: k % 2 == 1 && k >= from && FallsIn(runs, k, c)
    decreases |runs| - from
  {
    var rest := runs[from..];
    if |rest| >= 2 {
      assert runs[from..][2..] == runs[from + 2..];
      TotalNext(runs, from);
      TotalNext(runs, from + 1);
      OddRunsAre(runs, from + 2, c);
      assert FallsIn(runs, from + 1, c) <==> Total(runs[..from + 1]) <= c < Total(runs[..from + 2]);
    }
  }

  lemma TotalNext(runs: seq<nat>, k: nat)
    requires k < |runs|
    ensures Total(runs[..k + 1]) == Total(runs[..k]) + runs[k]
  {
    assert runs[..k + 1] == runs[..k] + [runs[k]];
    TotalAppend(runs[..k], [runs[k]]);
    assert [runs[k]][1..] == [];
  }

  /** The set of an encoded list of runs: the runs with odd numbers. */
  lemma EncodedSet(table: seq<u8>, items: seq<Item>)
    requires AllFit(items) && table == Encoded(items)
    ensures Complete(table, 0) && Members(Ends(table, 0, 0)) == OddRuns(Runs(items), 0)
    ensures forall c :: InPoints(Members(Ends(table, 0, 0)), c) <==> InRuns(Runs(items), c)
  {
    hide Ends, Complete, Members, InPoints, OddRuns;
    var runs := Runs(items);
    assert table[0..] == table && runs[0..] == runs && Total(runs[..0]) == 0;
    EndsAreSums(table, 0, 0, items);
    MembersOdd(runs, 0);
    forall c ensures InPoints(OddRuns(runs, 0), c) <==> InRuns(runs, c) { OddRunsAre(runs, 0, c); }
  }

  /** unicode_prop1 adds the members of the table. */
  method Prop1(cr: CharRange, table: seq<u8>)
    requires cr.Valid() && TableOk(table)
    modifies cr, cr.points
    ensures cr.Valid() && (cr.points == old(cr.points) || fresh(cr.points))
    ensures cr.Contents() == old(cr.Contents()) + Members(Ends(table, 0, 0))
    ensures forall items | AllFit(items) && table == Encoded(items) ::
      cr.Contents() == old(cr.Contents()) + OddRuns(Runs(items), 0)
  {
    hide Boundary, Complete, Ends, Members, TableOk, Run, OddRuns, AllFit, Encoded;
    var p, c, bit := 0, 0, false;
    ghost var done: seq<int> := [];
    ghost var was := cr.Contents();
    BoundaryStart(table);
    assert was + Members([]) == was by { NoMembers(); }
    while p < |table|
      invariant cr.Valid() && (cr.points == old(cr.points) || fresh(cr.points))
      invariant p <= |table| && Boundary(table, p, done) && c == Reached(done) && bit == (|done| % 2 == 1)
      invariant IsU32(c) && cr.Contents() == was + Members(done)
    {
      BoundaryItem(table, p, done);
      bit, c, done := AddItem(cr, table, p, bit, c, was, done);
      p := p + Width(table[p]);
    }
    BoundaryEnd(table, p, done);
    forall items | AllFit(items) && table == Encoded(items)
      ensures Members(Ends(table, 0, 0)) == OddRuns(Runs(items), 0)
    {
      EncodedSet(table, items);
    }
  }

  /** Add the runs of the item at p. */
  method AddItem(cr: CharRange, table: seq<u8>, p: nat, bit: bool, c: int, ghost was: seq<u32>, ghost done: seq<int>)
    returns (bit': bool, c': int, ghost done': seq<int>)
    requires p < |table| && p + Width(table[p]) <= |table|
    requires cr.Valid() && bit == (|done| % 2 == 1) && IsU32(c) && c == Reached(done)
    requires var item := ItemEnds(table, p, c); IsU32(item[0]) && (|item| == 2 ==> IsU32(item[1]))
    requires cr.Contents() == was + Members(done)
    modifies cr, cr.points
    ensures cr.Valid() && (cr.points == old(cr.points) || fresh(cr.points))
    ensures done' == done + ItemEnds(table, p, c) && bit' == (|done'| % 2 == 1) && c' == Reached(done') && IsU32(c')
    ensures cr.Contents() == was + Members(done')
  {
    hide Members, Run;
    bit', c', done' := bit, c, done;
    var b: int := table[p];
    if b < 64 {
      AddRun(cr, bit', c', c' + b / 8 + 1, was, done');
      c' := c' + b / 8 + 1;
      done' := done' + [c'];
      bit' := !bit';
      AddRun(cr, bit', c', c' + b % 8 + 1, was, done');
      c' := c' + b % 8 + 1;
    } else {
      var n := Run(table, p);
      AddRun(cr, bit', c', c' + n, was, done');
      c' := c' + n;
    }
    done' := done' + [c'];
    bit' := !bit';
    assert done' == done + ItemEnds(table, p, c);
  }

  /** Add the run from c0 to c if it is in the set. */
  method AddRun(cr: CharRange, bit: bool, c0: int, c: int, ghost was: seq<u32>, ghost done: seq<int>)
    requires cr.Valid() && bit == (|done| % 2 == 1) && IsU32(c0) && IsU32(c) && c0 == Reached(done)
    requires cr.Contents() == was + Members(done)
    modifies cr, cr.points
    ensures cr.Valid() && (cr.points == old(cr.points) || fresh(cr.points))
    ensures cr.Contents() == was + Members(done + [c])
  {
    MembersStep(done, c);
    hide Members;
    if bit { cr.AddInterval(c0, c); }
  }

  lemma NoMembers()
    ensures Members([]) == []
  {
  }

  lemma BoundaryStart(table: seq<u8>)
    requires TableOk(table)
    ensures Boundary(table, 0, [])
  {
    assert [] + Ends(table, 0, 0) == Ends(table, 0, 0);
  }

  lemma BoundaryEnd(table: seq<u8>, p: nat, done: seq<int>)
    requires Boundary(table, p, done) && p >= |table|
    ensures Complete(table, 0) && done == Ends(table, 0, 0)
  {
    assert done + [] == done;
  }

  // ---- lookup through an index

  /** get_le24 */
  function Le24(s: seq<u8>, p: nat): nat
    requires p + 3 <= |s|
  {
    var b0: int, b1: int, b2: int := s[p], s[p + 1], s[p + 2];
    b0 + b1 * 256 + b2 * 65536
  }

  const CODE_MASK := 0x20_0000
  const BLOCK_LEN := 32

  function Code(index: seq<u8>, k: nat): nat
    requires 3 * k + 3 <= |index|
  {
    Le24(index, 3 * k) % CODE_MASK
  }

  function Pos(index: seq<u8>, k: nat): nat
    requires 3 * k + 3 <= |index|
  {
    (k + 1) * BLOCK_LEN + Le24(index, 3 * k) / CODE_MASK
  }

  /** Every index entry but the last gives an item boundary at which an out-run starts, and the
      code point there, in increasing order; the last entry gives the end of the last run. */
  ghost predicate IndexOk(table: seq<u8>, index: seq<u8>, n: nat) {
    && TableOk(table) && n >= 1 && |index| == 3 * n
    && (forall k | 0 <= k < n - 1 :: exists done: seq<int> ::
          |done| % 2 == 0 && Boundary(table, Pos(index, k), done) && Reached(done) == Code(index, k))
    && (forall j, k | 0 <= j < k < n :: Code(index, j) <= Code(index, k))
    && Le24(index, 3 * (n - 1)) == Reached(Ends(table, 0, 0)) < CODE_MASK
  }

  /** Three bytes in little-endian order. */
  function PutLe24(v: nat): (r: seq<u8>)
    requires v < 0x100_0000
    ensures |r| == 3
  {
    [v % 0x100, v / 0x100 % 0x100, v / 0x1_0000]
  }

  /** The index of an encoded list: for each mark, a number of items, the code point reached there and
      how far behind the end of its block of 32 bytes the next item begins; then the end of all runs. */
  predicate MarksOk(items: seq<Item>, marks: seq<nat>)
    requires AllFit(items)
  {
    && Total(Runs(items)) < CODE_MASK
    && (forall k | 0 <= k < |marks| :: marks[k] <= |items| && |Runs(items[..marks[k]])| % 2 == 0
          && 0 <= |Encoded(items[..marks[k]])| - (k + 1) * BLOCK_LEN < 8)
    && (forall j, k | 0 <= j < k < |marks| :: marks[j] <= marks[k])
  }

  function IndexOf(items: seq<Item>, marks: seq<nat>, k: nat): (r: seq<u8>)
    requires AllFit(items) && MarksOk(items, marks) && k <= |marks|
    ensures |r| == 3 * (|marks| + 1 - k)
    decreases |marks| - k
  {
    PutLe24(Entry(items, marks, k)) + if k == |marks| then [] else IndexOf(items, marks, k + 1)
  }

  function Entry(items: seq<Item>, marks: seq<nat>, k: nat): (v: nat)
    requires AllFit(items) && MarksOk(items, marks) && k <= |marks|
    ensures v < 0x100_0000
  {
    if k == |marks| then Total(Runs(items))
    else
      var before := items[..marks[k]];
      PrefixTotal(items, marks[k]);
      (|Encoded(before)| - (k + 1) * BLOCK_LEN) * CODE_MASK + Total(Runs(before))
  }

  lemma PrefixTotal(items: seq<Item>, m: nat)
    requires m <= |items|
    ensures Total(Runs(items[..m])) <= Total(Runs(items))
    ensures Total(Runs(items)) == Total(Runs(items[..m])) + Total(Runs(items[m..]))
  {
    assert items == items[..m] + items[m..];
    RunsAppend(items[..m], items[m..]);
    TotalAppend(Runs(items[..m]), Runs(items[m..]));
  }

  lemma Le24Is(s: seq<u8>, p: nat, v: nat)
    requires p + 3 <= |s| && v < 0x100_0000 && s[p..p + 3] == PutLe24(v)
    ensures Le24(s, p) == v
  {
    assert s[p] == s[p..p + 3][0] && s[p + 1] == s[p..p + 3][1] && s[p + 2] == s[p..p + 3][2];
  }

  /** Its entries. */
  lemma {:induction false} IndexEntry(items: seq<Item>, marks: seq<nat>, from: nat, k: nat)
    requires AllFit(items) && MarksOk(items, marks) && from <= k <= |marks|
    ensures Le24(IndexOf(items, marks, from), 3 * (k - from)) == Entry(items, marks, k)
    decreases |marks| - from
  {
    hide MarksOk, Entry, Le24, PutLe24, AllFit;
    var (s, head) := (IndexOf(items, marks, from), PutLe24(Entry(items, marks, from)));
    if k == from {
      assert s[0..3] == head;
      Le24Is(s, 0, Entry(items, marks, k));
    } else {
      IndexEntry(items, marks, from + 1, k);
      Later24(s, IndexOf(items, marks, from + 1), 3 * (k - from - 1));
    }
  }

  lemma Later24(s: seq<u8>, rest: seq<u8>, p: nat)
    requires |s| == 3 + |rest| && s[3..] == rest && p + 3 <= |rest|
    ensures Le24(s, p + 3) == Le24(rest, p)
  {
    assert s[p + 3] == rest[p] && s[p + 4] == rest[p + 1] && s[p + 5] == rest[p + 2];
  }

  /** Such an index is one lre_is_in_table accepts. */
  lemma IndexFits(items: seq<Item>, marks: seq<nat>)
    requires AllFit(items) && MarksOk(items, marks)
    ensures IndexOk(Encoded(items), IndexOf(items, marks, 0), |marks| + 1)
  {
    hide Encoded, Runs, Total, Le24, Complete, Ends, IndexOf, Fits, Code, Pos, Boundary, TableOk, Reached;
    var (table, index, n) := (Encoded(items), IndexOf(items, marks, 0), |marks| + 1);
    AllEnds(items);
    EntryIs(items, marks, |marks|);
    forall k | 0 <= k < n - 1
      ensures exists done: seq<int> ::
        |done| % 2 == 0 && Boundary(table, Pos(index, k), done) && Reached(done) == Code(index, k)
    {
      EntryIs(items, marks, k);
      MarkBoundary(items, marks[k]);
      SumsLast(Runs(items[..marks[k]]), 0);
    }
    forall j, k | 0 <= j < k < n ensures Code(index, j) <= Code(index, k) {
      EntryIs(items, marks, j);
      EntryIs(items, marks, k);
      if k < n - 1 { PrefixOrder(items, marks[j], marks[k]); } else { PrefixTotal(items, marks[j]); }
    }
  }

  lemma EntryIs(items: seq<Item>, marks: seq<nat>, k: nat)
    requires AllFit(items) && MarksOk(items, marks) && k <= |marks|
    ensures var index := IndexOf(items, marks, 0);
      && Code(index, k) == (if k == |marks| then Total(Runs(items)) else Total(Runs(items[..marks[k]])))
      && (k < |marks| ==> Pos(index, k) == |Encoded(items[..marks[k]])|)
      && (k == |marks| ==> Le24(index, 3 * k) == Total(Runs(items)))
  {
    hide Encoded, Runs, Total, Le24, IndexOf, Fits;
    IndexEntry(items, marks, 0, k);
    if k < |marks| { PrefixTotal(items, marks[k]); }
  }

  lemma PrefixOrder(items: seq<Item>, a: nat, b: nat)
    requires a <= b <= |items|
    ensures Total(Runs(items[..a])) <= Total(Runs(items[..b]))
  {
    assert items[..b][..a] == items[..a];
    PrefixTotal(items[..b], a);
  }

  lemma AllEnds(items: seq<Item>)
    requires AllFit(items) && Total(Runs(items)) < CODE_MASK
    ensures TableOk(Encoded(items)) && Reached(Ends(Encoded(items), 0, 0)) == Total(Runs(items))
  {
    var (table, runs) := (Encoded(items), Runs(items));
    assert table[0..] == table;
    EndsAreSums(table, 0, 0, items);
    SumsLast(runs, 0);
    hide Encoded, Ends, Complete;
    SumsRange(runs, 0);
  }

  lemma {:induction false} SumsRange(runs: seq<nat>, at: nat)
    ensures forall i | 0 <= i < |Sums(runs, at)| :: at <= Sums(runs, at)[i] <= at + Total(runs)
    decreases |runs|
  {
    if runs != [] { SumsRange(runs[1..], at + runs[0]); }
  }

  /** Between two items there is a boundary. */
  lemma MarkBoundary(items: seq<Item>, m: nat)
    requires AllFit(items) && m <= |items|
    ensures var done := Sums(Runs(items[..m]), 0);
      Boundary(Encoded(items), |Encoded(items[..m])|, done) && Reached(done) == Total(Runs(items[..m]))
  {
    hide Encoded, Runs, Total, Complete, Ends, Sums, AllFit;
    var (a, b, table) := (items[..m], items[m..], Encoded(items));
    Split(items, m);
    assert table[0..] == table;
    EndsAreSums(table, 0, 0, items);
    EndsAreSums(table, |Encoded(a)|, Total(Runs(a)), b);
    SumsAppend(Runs(a), Runs(b), 0);
    LastReached(Runs(a));
  }

  lemma Split(items: seq<Item>, m: nat)
    requires AllFit(items) && m <= |items|
    ensures var (a, b, table) := (items[..m], items[m..], Encoded(items));
      && AllFit(a) && AllFit(b) && table == Encoded(a) + Encoded(b) && table[|Encoded(a)|..] == Encoded(b)
      && Runs(items) == Runs(a) + Runs(b)
  {
    hide Encoded, Runs, Fits;
    var (a, b) := (items[..m], items[m..]);
    assert items == a + b && AllFit(a) && AllFit(b);
    hide AllFit;
    Joined(a, b);
  }

  lemma Joined(a: seq<Item>, b: seq<Item>)
    requires AllFit(a) && AllFit(b)
    ensures AllFit(a + b) && Encoded(a + b) == Encoded(a) + Encoded(b) && Runs(a + b) == Runs(a) + Runs(b)
    ensures Encoded(a + b)[|Encoded(a)|..] == Encoded(b)
  {
    hide Encoded, Runs, AllFit;
    EncodedAppend(a, b);
    RunsAppend(a, b);
    Lists.Cut(Encoded(a), Encoded(b));
  }

  lemma LastReached(runs: seq<nat>)
    ensures Reached(Sums(runs, 0)) == Total(runs)
  {
    SumsLast(runs, 0);
  }

  /** get_index_pos */
  method GetIndexPos(c: u32, index: seq<u8>, n: nat, ghost table: seq<u8>)
      returns (pos: int, code: u32, ghost done: seq<int>)
    requires IndexOk(table, index, n)
    ensures pos < 0 <==> c >= Reached(Ends(table, 0, 0))
    ensures pos >= 0 ==> Boundary(table, pos, done) && |done| % 2 == 0 && code == Reached(done) <= c
  {
    hide Boundary, Ends, Complete;
    done := [];
    BoundaryStart(table);
    if c < Code(index, 0) {
      LastCode(table, index, n);
      return 0, 0, [];
    }
    var idxMin, idxMax := 0, n - 1;
    if c >= Le24(index, 3 * idxMax) { return -1, 0, []; }
    LastCode(table, index, n);
    while idxMax - idxMin > 1
      invariant 0 <= idxMin < idxMax < n && Code(index, idxMin) <= c < Code(index, idxMax)
    {
      var idx := (idxMax + idxMin) / 2;
      if c < Code(index, idx) { idxMax := idx; } else { idxMin := idx; }
    }
    ghost var d: seq<int> :| |d| % 2 == 0 && Boundary(table, Pos(index, idxMin), d)
        && Reached(d) == Code(index, idxMin);
    return Pos(index, idxMin), Code(index, idxMin), d;
  }

  lemma LastCode(table: seq<u8>, index: seq<u8>, n: nat)
    requires IndexOk(table, index, n)
    ensures Code(index, n - 1) == Reached(Ends(table, 0, 0)) && Code(index, 0) <= Code(index, n - 1)
  {
    hide Boundary, TableOk, Ends, Pos, Le24;
    assert 0 < n - 1 || n - 1 == 0;
  }

  /** Between two ends the parity is that of the ends passed. */
  lemma EndsParity(ends: seq<int>, k: nat, c: int)
    requires Increasing(ends) && k < |ends| && c < ends[k] && (k > 0 ==> ends[k - 1] <= c)
    ensures InPoints(Members(ends), c) == (k % 2 == 1)
  {
    var m := Members(ends);
    assert |m| == |ends| - |ends| % 2 && |m| % 2 == 0 && m == ends[..|m|];
    hide Members, InPoints;
    var n := if k <= |m| then k else |m|;
    assert n % 2 == k % 2;
    Around(ends, m, n, c);
    PartsParity(m[..n], m[n..], c);
  }

  lemma Around(ends: seq<int>, m: seq<int>, n: nat, c: int)
    requires Increasing(ends) && n <= |m| <= |ends| && m == ends[..|m|] && |m| % 2 == 0
    requires (n > 0 ==> ends[n - 1] <= c) && (n < |m| ==> c < ends[n])
    ensures m == m[..n] + m[n..] && Sorted(m)
    ensures (forall i | 0 <= i < |m[..n]| :: m[..n][i] <= c) && forall i | 0 <= i < |m[n..]| :: c < m[n..][i]
  {
  }

  lemma PartsParity(a: seq<int>, b: seq<int>, c: int)
    requires Sorted(a + b) && (forall i | 0 <= i < |a| :: a[i] <= c) && (forall i | 0 <= i < |b| :: c < b[i])
    ensures InPoints(a + b, c) == (|a| % 2 == 1)
  {
    InPointsOdd(a + b, c);
    hide Sorted, InPoints;
    OddAppend(a, b, c);
    OddAll(a, c);
    OddNone(b, c);
  }

  lemma PastEnds(ends: seq<int>, c: int)
    requires Increasing(ends) && c >= Reached(ends)
    ensures !InPoints(Members(ends), c)
  {
    InPointsOdd(Members(ends), c);
    OddAll(Members(ends), c);
  }

  /** lre_is_in_table answers by the same set that unicode_prop1 lists. */
  method IsInTable(c: u32, table: seq<u8>, index: seq<u8>, n: nat) returns (r: bool)
    requires IndexOk(table, index, n)
    ensures r == InPoints(Members(Ends(table, 0, 0)), c)
    ensures forall items | AllFit(items) && table == Encoded(items) :: r == InRuns(Runs(items), c)
  {
    r := Search(c, table, index, n);
    forall items | AllFit(items) && table == Encoded(items)
      ensures InPoints(Members(Ends(table, 0, 0)), c) == InRuns(Runs(items), c)
    {
      EncodedSet(table, items);
    }
  }

  method Search(c: u32, table: seq<u8>, index: seq<u8>, n: nat) returns (r: bool)
    requires IndexOk(table, index, n)
    ensures r == InPoints(Members(Ends(table, 0, 0)), c)
  {
    hide Boundary, Complete, Ends, Members, InPoints, IndexOk, Run, Increasing, TableOk;
    ghost var ends := TableEnds(table, index, n);
    var pos, code: int, done := GetIndexPos(c, index, n, table);
    if pos < 0 {
      PastEnds(ends, c);
      return false;
    }
    var p: nat, bit := pos, false;
    while true
      invariant Boundary(table, p, done) && code == Reached(done) <= c < Reached(ends) && bit == (|done| % 2 == 1)
      decreases |table| - p
    {
      BoundaryPassed(table, p, done);
      if p >= |table| { BoundaryEnd(table, p, done); assert false; }
      BoundaryItem(table, p, done);
      ghost var item := ItemEnds(table, p, code);
      var b: int := table[p];
      if b < 64 {
        code := code + b / 8 + 1;
        if c < code { EndsParity(ends, |done|, c); return bit; }
        bit := !bit;
        done := done + [code];
        code := code + b % 8 + 1;
        assert done[..|done| - 1] + item == done + [code];
      } else {
        code := code + Run(table, p);
      }
      if c < code { EndsParity(ends, |done|, c); return bit; }
      bit := !bit;
      done := done + [code];
      p := p + Width(b);
    }
  }

  lemma TableEnds(table: seq<u8>, index: seq<u8>, n: nat) returns (ends: seq<int>)
    requires IndexOk(table, index, n)
    ensures TableOk(table) && Increasing(ends) && ends == Ends(table, 0, 0)
  {
    ends := Ends(table, 0, 0);
  }

  lemma BoundaryPassed(table: seq<u8>, p: nat, done: seq<int>)
    requires Boundary(table, p, done)
    ensures |done| <= |Ends(table, 0, 0)| && (done != [] ==> Ends(table, 0, 0)[|done| - 1] == Reached(done))
  {
  }
}
