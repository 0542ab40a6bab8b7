/** The arena of the pool allocator as a row of blocks, counted in units of the chunk header. A
    block starts with its header: its size, and for a free block the next free one. */
module PoolSpec {

  datatype Block = Block(pos: nat, size: nat, free: bool)

  const NULL := -1

  /** Header words of the block at unit p. */
  function SizeOf(mem: seq<int>, p: int): int { if 0 <= 2 * p < |mem| then mem[2 * p] else 0 }
  function NextOf(mem: seq<int>, p: int): int { if 0 <= 2 * p + 1 < |mem| then mem[2 * p + 1] else 0 }

  /** The first free block, or tail. */
  function First(bs: seq<Block>, tail: int): int {
    if bs == [] then tail else if bs[0].free then bs[0].pos else First(bs[1..], tail)
  }

  /** The last free block, or NULL. */
  function Last(bs: seq<Block>): int {
    if bs == [] then NULL else if bs[|bs| - 1].free then bs[|bs| - 1].pos else Last(bs[..|bs| - 1])
  }

  function Total(bs: seq<Block>): nat {
    if bs == [] then 0 else bs[0].size + Total(bs[1..])
  }

  /** The blocks fill the units from..to without gap or overlap, their headers hold their sizes,
      and the free ones are linked in order of address, the last of them to tail. */
  ghost predicate Held(mem: seq<int>, bs: seq<Block>, from: nat, tail: int) {
    bs == [] ||
    (&& bs[0].pos == from && bs[0].size >= 2 && 2 * (from + bs[0].size) <= |mem| && SizeOf(mem, from) == bs[0].size
     && (bs[0].free ==> NextOf(mem, from) == First(bs[1..], tail))
     && Held(mem, bs[1..], from + bs[0].size, tail))
  }

  /** No two neighbours are both free. */
  predicate Coalesced(bs: seq<Block>) {
    forall k | 0 <= k < |bs| - 1 :: !(bs[k].free && bs[k + 1].free)
  }

  lemma {:induction false} HeldAppend(mem: seq<int>, a: seq<Block>, b: seq<Block>, from: nat, tail: int)
    ensures Held(mem, a + b, from, tail) <==> Held(mem, a, from, First(b, tail)) && Held(mem, b, from + Total(a), tail)
    ensures First(a + b, tail) == First(a, First(b, tail)) && Total(a + b) == Total(a) + Total(b)
    decreases |a|
  {
    if a == [] {
      assert a + b == b;
    } else {
      assert (a + b)[0] == a[0] && (a + b)[1..] == a[1..] + b;
      HeldAppend(mem, a[1..], b, from + a[0].size, tail);
    }
  }

  /** Words outside the blocks do not matter. */
  lemma {:induction false} HeldFrame(mem: seq<int>, mem': seq<int>, bs: seq<Block>, from: nat, tail: int)
    requires Held(mem, bs, from, tail) && |mem'| == |mem| && 2 * (from + Total(bs)) <= |mem|
    requires forall i | 2 * from <= i < 2 * (from + Total(bs)) :: mem'[i] == mem[i]
    ensures Held(mem', bs, from, tail)
    decreases |bs|
  {
    if bs != [] { HeldFrame(mem, mem', bs[1..], from + bs[0].size, tail); }
  }

  lemma {:induction false} NoFree(mem: seq<int>, bs: seq<Block>, from: nat, tail: int, tail': int)
    requires Held(mem, bs, from, tail) && Last(bs) == NULL
    ensures Held(mem, bs, from, tail') && First(bs, tail') == tail'
    decreases |bs|
  {
    if bs != [] {
      LastTail(bs);
      NoFree(mem, bs[1..], from + bs[0].size, tail, tail');
    }
  }

  lemma {:induction false} LastTail(bs: seq<Block>)
    requires bs != []
    ensures Last(bs) == if Last(bs[1..]) != NULL then Last(bs[1..]) else if bs[0].free then bs[0].pos else NULL
    decreases |bs|
  {
    var n := |bs| - 1;
    if bs[n].free {
      if n > 0 { assert bs[1..][n - 1] == bs[n]; }
    } else {
      if n > 0 {
        LastTail(bs[..n]);
        assert bs[..n][1..] == bs[1..][..n - 1];
      }
    }
  }

  lemma {:induction false} LastInside(mem: seq<int>, bs: seq<Block>, from: nat, tail: int)
    requires Held(mem, bs, from, tail)
    ensures Last(bs) != NULL ==> from <= Last(bs) < from + Total(bs) - 1
    decreases |bs|
  {
    if bs != [] {
      LastTail(bs);
      LastInside(mem, bs[1..], from + bs[0].size, tail);
    }
  }

  /** Relinking the last free block changes the tail. */
  lemma {:induction false} Relink(mem: seq<int>, bs: seq<Block>, from: nat, tail: int, tail': int)
    requires Held(mem, bs, from, tail) && Last(bs) != NULL && 2 * (from + Total(bs)) <= |mem|
    ensures 0 <= 2 * Last(bs) + 1 < |mem|
    ensures Held(mem[2 * Last(bs) + 1 := tail'], bs, from, tail') && First(bs, tail') == First(bs, tail)
    decreases |bs|
  {
    LastTail(bs);
    LastInside(mem, bs, from, tail);
    var (b, rest) := (bs[0], bs[1..]);
    var mem' := mem[2 * Last(bs) + 1 := tail'];
    if Last(rest) != NULL {
      LastInside(mem, rest, from + b.size, tail);
      Relink(mem, rest, from + b.size, tail, tail');
    } else {
      NoFree(mem, rest, from + b.size, tail, tail');
      HeldFrame(mem, mem', rest, from + b.size, tail');
    }
  }

  // ---- where blocks lie

  lemma {:induction false} BlockAt(mem: seq<int>, bs: seq<Block>, from: nat, tail: int, k: nat)
    requires Held(mem, bs, from, tail) && k < |bs|
    ensures bs[k].pos == from + Total(bs[..k]) && bs[k].size >= 2 && SizeOf(mem, bs[k].pos) == bs[k].size
    ensures 2 * (bs[k].pos + bs[k].size) <= |mem| && bs[k].pos + bs[k].size <= from + Total(bs)
    decreases k
  {
    if k == 0 {
      assert bs[..0] == [];
    } else {
      BlockAt(mem, bs[1..], from + bs[0].size, tail, k - 1);
      assert bs[..k][1..] == bs[1..][..k - 1];
    }
  }

  // ---- replacing some blocks by others

  /** The words of memory outside the units from..to. */
  ghost predicate SameOutside(mem: seq<int>, mem': seq<int>, from: nat, to: nat) {
    |mem'| == |mem| && forall i | 0 <= i < |mem| && !(2 * from <= i < 2 * to) :: mem'[i] == mem[i]
  }

  /** The link to the first free block from some point on: it is in the last free block of a, or
      it is the head of the list. */
  function Linked(mem: seq<int>, a: seq<Block>, next: int): seq<int> {
    if Last(a) == NULL || !(0 <= 2 * Last(a) + 1 < |mem|) then mem else mem[2 * Last(a) + 1 := next]
  }

  lemma Split(mem: seq<int>, a: seq<Block>, r: seq<Block>, b: seq<Block>)
    requires Held(mem, a + (r + b), 0, NULL) && 2 * Total(a + (r + b)) == |mem|
    ensures Held(mem, a, 0, First(r + b, NULL)) && Held(mem, r, Total(a), First(b, NULL))
        && Held(mem, b, Total(a) + Total(r), NULL)
    ensures Total(a + (r + b)) == Total(a) + Total(r) + Total(b)
    ensures First(a + (r + b), NULL) == First(a, First(r + b, NULL)) && First(r + b, NULL) == First(r, First(b, NULL))
  {
    hide Held, First, Total;
    HeldAppend(mem, a, r + b, 0, NULL);
    HeldAppend(mem, r, b, Total(a), NULL);
  }

  lemma Join(mem: seq<int>, a: seq<Block>, m: seq<Block>, b: seq<Block>)
    requires Held(mem, a, 0, First(m + b, NULL)) && Held(mem, m, Total(a), First(b, NULL))
        && Held(mem, b, Total(a) + Total(m), NULL)
    ensures Held(mem, a + (m + b), 0, NULL) && Total(a + (m + b)) == Total(a) + Total(m) + Total(b)
    ensures First(a + (m + b), NULL) == First(a, First(m + b, NULL)) && First(m + b, NULL) == First(m, First(b, NULL))
  {
    hide Held, First, Total;
    HeldAppend(mem, m, b, Total(a), NULL);
    HeldAppend(mem, a, m + b, 0, NULL);
  }

  lemma Around(mem: seq<int>, mem1: seq<int>, a: seq<Block>, r: seq<Block>, b: seq<Block>)
    requires Held(mem, a + (r + b), 0, NULL) && 2 * Total(a + (r + b)) == |mem|
    requires SameOutside(mem, mem1, Total(a), Total(a) + Total(r))
    ensures Held(mem1, a, 0, First(r + b, NULL)) && Held(mem1, b, Total(a) + Total(r), NULL) && |mem1| == |mem|
  {
    hide Held, First, Total;
    Split(mem, a, r, b);
    HeldFrame(mem, mem1, a, 0, First(r + b, NULL));
    HeldFrame(mem, mem1, b, Total(a) + Total(r), NULL);
  }

  /** Putting blocks m between a and b, once the last free block of a leads to them. */
  lemma JoinLinked(mem1: seq<int>, a: seq<Block>, m: seq<Block>, b: seq<Block>, was: int)
    requires Held(mem1, a, 0, was) && Held(mem1, m, Total(a), First(b, NULL))
        && Held(mem1, b, Total(a) + Total(m), NULL)
    requires 2 * (Total(a) + Total(m) + Total(b)) == |mem1|
    ensures var mem2 := Linked(mem1, a, First(m + b, NULL));
      && |mem2| == |mem1| && Held(mem2, a + (m + b), 0, NULL) && Total(a + (m + b)) == Total(a) + Total(m) + Total(b)
    ensures First(a + (m + b), NULL) == if Last(a) == NULL then First(m + b, NULL) else First(a, was)
  {
    hide Held, First, Total, Last, Linked;
    Shifted(mem1, a, m, b, was, First(m + b, NULL));
    Join(Linked(mem1, a, First(m + b, NULL)), a, m, b);
  }

  lemma Shifted(mem1: seq<int>, a: seq<Block>, m: seq<Block>, b: seq<Block>, was: int, next: int)
    requires Held(mem1, a, 0, was) && Held(mem1, m, Total(a), First(b, NULL))
        && Held(mem1, b, Total(a) + Total(m), NULL)
    requires 2 * (Total(a) + Total(m) + Total(b)) == |mem1|
    ensures var mem2 := Linked(mem1, a, next);
      && |mem2| == |mem1| && Held(mem2, a, 0, next)
      && Held(mem2, m, Total(a), First(b, NULL)) && Held(mem2, b, Total(a) + Total(m), NULL)
    ensures First(a, next) == if Last(a) == NULL then next else First(a, was)
  {
    hide Held, First, Total, Last, Linked;
    Leading(mem1, a, was, next);
    Beyond(mem1, a, was, next, m, Total(a), First(b, NULL));
    Beyond(mem1, a, was, next, b, Total(a) + Total(m), NULL);
  }

  lemma Leading(mem1: seq<int>, a: seq<Block>, was: int, next: int)
    requires Held(mem1, a, 0, was) && 2 * Total(a) <= |mem1|
    ensures |Linked(mem1, a, next)| == |mem1| && Held(Linked(mem1, a, next), a, 0, next)
    ensures First(a, next) == if Last(a) == NULL then next else First(a, was)
  {
    hide Held, First, Total, Last;
    if Last(a) == NULL {
      NoFree(mem1, a, 0, was, next);
    } else {
      LastInside(mem1, a, 0, was);
      Relink(mem1, a, 0, was, next);
    }
  }

  lemma Beyond(mem1: seq<int>, a: seq<Block>, was: int, next: int, b: seq<Block>, from: nat, tail: int)
    requires Held(mem1, a, 0, was) && Held(mem1, b, from, tail) && Total(a) <= from && 2 * (from + Total(b)) <= |mem1|
    ensures Held(Linked(mem1, a, next), b, from, tail)
  {
    hide Held, First, Total, Last;
    LastInside(mem1, a, 0, was);
    HeldFrame(mem1, Linked(mem1, a, next), b, from, tail);
  }

  /** Blocks r are laid out anew as m, and the link before them is updated. */
  lemma Replace(mem: seq<int>, mem1: seq<int>, a: seq<Block>, r: seq<Block>, m: seq<Block>, b: seq<Block>)
    requires Held(mem, a + (r + b), 0, NULL) && 2 * Total(a + (r + b)) == |mem|
    requires SameOutside(mem, mem1, Total(a), Total(a) + Total(r)) && Total(m) == Total(r)
    requires Held(mem1, m, Total(a), First(b, NULL))
    ensures var mem2 := Linked(mem1, a, First(m + b, NULL));
      && |mem2| == |mem| && Held(mem2, a + (m + b), 0, NULL) && Total(a + (m + b)) == Total(a + (r + b))
    ensures First(a + (m + b), NULL) == if Last(a) == NULL then First(m + b, NULL) else First(a + (r + b), NULL)
  {
    hide Held, First, Total, Last, SameOutside, Linked;
    Split(mem, a, r, b);
    Around(mem, mem1, a, r, b);
    JoinLinked(mem1, a, m, b, First(r + b, NULL));
  }

  /** The payload of block x. */
  ghost predicate SameData(mem: seq<int>, mem': seq<int>, x: Block) {
    |mem| == |mem'| && forall i | 2 * (x.pos + 1) <= i < 2 * (x.pos + x.size) && i < |mem| :: mem'[i] == mem[i]
  }

  /** Writing to the units from..to and to the last free block of a leaves x alone. */
  lemma Aside(mem: seq<int>, mem1: seq<int>, a: seq<Block>, next: int, from: nat, to: nat, x: Block)
    requires SameOutside(mem, mem1, from, to) && x.size >= 1 && (x.pos + x.size <= from || to <= x.pos)
    requires Last(a) == NULL || Last(a) < x.pos || x.pos + x.size <= Last(a)
    ensures SameData(mem, Linked(mem1, a, next), x)
  {
    hide Last;
  }

  /** The payload of a block in use outside the replaced ones stays as it is. */
  lemma ReplaceKeeps(mem: seq<int>, mem1: seq<int>, a: seq<Block>, r: seq<Block>, b: seq<Block>, next: int, x: Block)
    requires Held(mem, a + (r + b), 0, NULL) && 2 * Total(a + (r + b)) == |mem|
    requires SameOutside(mem, mem1, Total(a), Total(a) + Total(r)) && !x.free && (x in a || x in b)
    ensures SameData(mem, Linked(mem1, a, next), x)
  {
    hide Held, First, Total, Last, SameOutside, SameData, Linked;
    Split(mem, a, r, b);
    LastInside(mem, a, 0, First(r + b, NULL));
    if x in b {
      var k :| 0 <= k < |b| && b[k] == x;
      BlockAt(mem, b, Total(a) + Total(r), NULL, k);
    } else {
      var k :| 0 <= k < |a| && a[k] == x;
      BlockAt(mem, a, 0, First(r + b, NULL), k);
      LastOutside(mem, a, First(r + b, NULL), k);
    }
    Aside(mem, mem1, a, next, Total(a), Total(a) + Total(r), x);
  }

  /** The last free block lies outside every block in use. */
  lemma LastOutside(mem: seq<int>, a: seq<Block>, tail: int, k: nat)
    requires Held(mem, a, 0, tail) && k < |a| && !a[k].free
    ensures Last(a) < a[k].pos || Last(a) >= a[k].pos + a[k].size
  {
    hide Held, First, Total, Last;
    var (p, q) := (a[..k], a[k + 1..]);
    assert a == p + ([a[k]] + q);
    HeldAppend(mem, p, [a[k]] + q, 0, tail);
    HeldAppend(mem, [a[k]], q, Total(p), tail);
    LastConcat(p, [a[k]] + q);
    LastConcat([a[k]], q);
    LastInside(mem, p, 0, First([a[k]] + q, tail));
    LastInside(mem, q, Total(p) + Total([a[k]]), tail);
    BlockAt(mem, a, 0, tail, k);
    Single(a[k]);
  }

  lemma Single(b: Block)
    ensures Total([b]) == b.size && Last([b]) == (if b.free then b.pos else NULL)
  {
    assert [b][1..] == [] && [b][..0] == [];
  }

  lemma {:induction false} LastConcat(a: seq<Block>, b: seq<Block>)
    ensures Last(a + b) == if Last(b) != NULL then Last(b) else Last(a)
    decreases |b|
  {
    if b == [] {
      assert a + b == a;
    } else {
      var n := |b| - 1;
      assert (a + b)[..|a + b| - 1] == a + b[..n];
      LastConcat(a, b[..n]);
    }
  }
}
