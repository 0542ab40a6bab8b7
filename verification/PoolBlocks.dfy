/** What the pool allocator does to the row of blocks, and that the words written for it lay the
    new row out. */
module PoolBlocks {
  import opened PoolSpec

  /** Blocks i..j give way to m. */
  function Relaid(bs: seq<Block>, i: nat, j: nat, m: seq<Block>): seq<Block>
    requires i <= j <= |bs|
  {
    bs[..i] + (m + bs[j..])
  }

  function Lives(bs: seq<Block>): set<Block> { set x | x in bs && !x.free }

  /** The block at unit p, or |bs|. */
  function Index(bs: seq<Block>, p: int): (k: nat)
    ensures k <= |bs| && (k < |bs| ==> bs[k].pos == p)
  {
    if bs == [] || bs[0].pos == p then 0 else 1 + Index(bs[1..], p)
  }

  predicate Live(bs: seq<Block>, p: int) {
    var k := Index(bs, p);
    k < |bs| && !bs[k].free
  }

  /** First fit. */
  function Fit(bs: seq<Block>, need: nat): (k: nat)
    ensures k <= |bs| && (k < |bs| ==> bs[k].free && bs[k].size >= need)
    ensures forall i | 0 <= i < k :: !(bs[i].free && bs[i].size >= need)
  {
    if bs == [] || (bs[0].free && bs[0].size >= need) then 0 else
      var k := 1 + Fit(bs[1..], need);
      assert forall i | 1 <= i < k :: bs[i] == bs[1..][i - 1];
      k
  }

  /** Units for a request of so many bytes: the payload rounded up, and a header. */
  function Need(bytes: nat): (n: nat)
    ensures 16 * (n - 2) < bytes <= 16 * (n - 1) || bytes == 0
  {
    (bytes + 15) / 16 + 1
  }

  // ---- the operations on rows of blocks

  function Taken(bs: seq<Block>, k: nat, need: nat): seq<Block>
    requires k < |bs|
  {
    var x := bs[k];
    if x.size >= need + 2 then
        Relaid(bs, k, k + 1, [Block(x.pos, need, false), Block(x.pos + need, x.size - need, true)])
    else Relaid(bs, k, k + 1, [Block(x.pos, x.size, false)])
  }

  function Merged(bs: seq<Block>, k: nat): seq<Block>
    requires k + 1 < |bs|
  {
    Relaid(bs, k, k + 2, [Block(bs[k].pos, bs[k].size + bs[k + 1].size, true)])
  }

  function Unused(bs: seq<Block>, k: nat): seq<Block>
    requires k < |bs|
  {
    Relaid(bs, k, k + 1, [Block(bs[k].pos, bs[k].size, true)])
  }

  function MergedNext(bs: seq<Block>, k: nat): seq<Block>
    requires k < |bs|
  {
    if k + 1 < |bs| && bs[k + 1].free then Merged(Unused(bs, k), k) else Unused(bs, k)
  }

  function Freed(bs: seq<Block>, k: nat): seq<Block>
    requires k < |bs|
  {
    if k > 0 && bs[k - 1].free then Merged(MergedNext(bs, k), k - 1) else MergedNext(bs, k)
  }

  /** The block k in use cut after need units, the rest in use as well. */
  function Cut(bs: seq<Block>, k: nat, need: nat): seq<Block>
    requires k < |bs| && need < bs[k].size
  {
    Relaid(bs, k, k + 1, [Block(bs[k].pos, need, false), Block(bs[k].pos + need, bs[k].size - need, false)])
  }

  predicate CanGrow(bs: seq<Block>, k: nat, need: nat)
    requires k < |bs|
  {
    k + 1 < |bs| && bs[k + 1].free && bs[k].size + bs[k + 1].size >= need
  }

  function Grown(bs: seq<Block>, k: nat, need: nat): seq<Block>
    requires k < |bs| && CanGrow(bs, k, need)
  {
    var (x, total) := (bs[k], bs[k].size + bs[k + 1].size);
    if total > need + 2 then Relaid(bs, k, k + 2, [Block(x.pos, need, false), Block(x.pos + need, total - need, true)])
    else Relaid(bs, k, k + 2, [Block(x.pos, total, false)])
  }

  // ---- memory

  /** The words are those of row bs and head starts its free list. */
  ghost predicate State(mem: seq<int>, bs: seq<Block>, head: int) {
    Held(mem, bs, 0, NULL) && 2 * Total(bs) == |mem| && head == First(bs, NULL)
  }

  /** The payloads of the blocks in use, but block k, are the same. */
  ghost predicate OthersKept(mem: seq<int>, mem': seq<int>, bs: seq<Block>, k: nat) {
    |mem| == |mem'| && forall i | 0 <= i < |bs| && i != k && !bs[i].free :: SameData(mem, mem', bs[i])
  }

  lemma Cat(bs: seq<Block>, i: nat, j: nat)
    requires i <= j <= |bs|
    ensures bs == bs[..i] + (bs[i..j] + bs[j..])
  {
  }

  lemma TwoBlocks(x: Block, y: Block)
    ensures [x, y][1..] == [y] && [x][1..] == [] && Total([x]) == x.size && Total([x, y]) == x.size + y.size
  {
    assert [y][1..] == [];
  }

  lemma HeldOne(mem: seq<int>, x: Block, tail: int)
    requires x.size >= 2 && 2 * (x.pos + x.size) <= |mem| && SizeOf(mem, x.pos) == x.size
        && (x.free ==> NextOf(mem, x.pos) == tail)
    ensures Held(mem, [x], x.pos, tail) && First([x], tail) == if x.free then x.pos else tail
  {
  }

  lemma HeldTwo(mem: seq<int>, x: Block, y: Block, tail: int)
    requires x.size >= 2 && y.size >= 2 && y.pos == x.pos + x.size && 2 * (y.pos + y.size) <= |mem| && !x.free
    requires SizeOf(mem, x.pos) == x.size && SizeOf(mem, y.pos) == y.size && (y.free ==> NextOf(mem, y.pos) == tail)
    ensures Held(mem, [x, y], x.pos, tail) && First([x, y], tail) == if y.free then y.pos else tail
  {
    TwoBlocks(x, y);
    HeldOne(mem, y, tail);
  }

  /** What is known of block k. */
  lemma At(mem: seq<int>, bs: seq<Block>, k: nat)
    requires Held(mem, bs, 0, NULL) && 2 * Total(bs) == |mem| && k < |bs|
    ensures bs[k].pos == Total(bs[..k]) && bs[k].size >= 2 && SizeOf(mem, bs[k].pos) == bs[k].size
    ensures bs[k].free ==> NextOf(mem, bs[k].pos) == First(bs[k + 1..], NULL)
    ensures 2 * (bs[k].pos + bs[k].size) <= |mem| && (k + 1 < |bs| ==> bs[k + 1].pos == bs[k].pos + bs[k].size)
    ensures Total(bs[k..k + 1]) == bs[k].size
  {
    hide Held, First, Total;
    BlockAt(mem, bs, 0, NULL, k);
    assert bs == bs[..k] + bs[k..] && bs[k..k + 1] == [bs[k]];
    HeldAppend(mem, bs[..k], bs[k..], 0, NULL);
    HeldHead(mem, bs[k..], bs[k].pos);
    assert bs[k..][1..] == bs[k + 1..];
    TwoBlocks(bs[k], bs[k]);
  }

  lemma HeldHead(mem: seq<int>, bs: seq<Block>, from: nat)
    requires Held(mem, bs, from, NULL) && bs != []
    ensures bs[0].free ==> NextOf(mem, bs[0].pos) == First(bs[1..], NULL)
    ensures |bs| > 1 ==> bs[1].pos == bs[0].pos + bs[0].size
  {
    if |bs| > 1 { assert bs[1..][0] == bs[1]; }
  }

  /** Laying blocks i..j out as m. */
  lemma Relay(mem: seq<int>, mem1: seq<int>, bs: seq<Block>, i: nat, j: nat, m: seq<Block>, head: int)
    requires State(mem, bs, head) && i <= j <= |bs|
    requires SameOutside(mem, mem1, Total(bs[..i]), Total(bs[..i]) + Total(bs[i..j])) && Total(m) == Total(bs[i..j])
    requires Held(mem1, m, Total(bs[..i]), First(bs[j..], NULL))
    ensures var next := First(m, First(bs[j..], NULL));
      State(Linked(mem1, bs[..i], next), Relaid(bs, i, j, m), if Last(bs[..i]) == NULL then next else head)
  {
    hide Held, First, Total, Last, SameOutside, Linked;
    Cat(bs, i, j);
    Replace(mem, mem1, bs[..i], bs[i..j], m, bs[j..]);
    HeldAppend(mem, m, bs[j..], 0, NULL);
  }

  lemma RelayKeeps(mem: seq<int>, mem1: seq<int>, bs: seq<Block>, i: nat, j: nat, next: int, head: int, x: nat)
    requires State(mem, bs, head) && i <= j <= |bs|
    requires SameOutside(mem, mem1, Total(bs[..i]), Total(bs[..i]) + Total(bs[i..j]))
    requires x < |bs| && !(i <= x < j) && !bs[x].free
    ensures SameData(mem, Linked(mem1, bs[..i], next), bs[x])
  {
    hide Held, First, Total, Last, SameOutside, SameData, Linked;
    Cat(bs, i, j);
    if x < i { assert bs[..i][x] == bs[x]; } else { assert bs[j..][x - j] == bs[x]; }
    ReplaceKeeps(mem, mem1, bs[..i], bs[i..j], bs[j..], next, bs[x]);
  }

  lemma RelayOthers(mem: seq<int>, mem1: seq<int>, bs: seq<Block>, i: nat, j: nat, next: int, head: int, k: nat)
    requires State(mem, bs, head) && i <= j <= |bs| && forall x | i <= x < j :: bs[x].free || x == k
    requires SameOutside(mem, mem1, Total(bs[..i]), Total(bs[..i]) + Total(bs[i..j]))
    ensures OthersKept(mem, Linked(mem1, bs[..i], next), bs, k)
  {
    hide Held, First, Total, Last, SameOutside, SameData, Linked, State;
    assert |Linked(mem1, bs[..i],
        next)| == |mem| by { LinkedLength(mem, mem1, bs[..i], next, Total(bs[..i]), Total(bs[..i]) + Total(bs[i..j])); }
    forall x | 0 <= x < |bs| && x != k && !bs[x].free ensures SameData(mem, Linked(mem1, bs[..i], next), bs[x]) {
      RelayKeeps(mem, mem1, bs, i, j, next, head, x);
    }
  }

  lemma LinkedLength(mem: seq<int>, mem1: seq<int>, a: seq<Block>, next: int, from: nat, to: nat)
    requires SameOutside(mem, mem1, from, to)
    ensures |Linked(mem1, a, next)| == |mem|
  {
  }

  /** Two blocks in a row. */
  lemma Pair(bs: seq<Block>, k: nat)
    requires k + 1 < |bs|
    ensures bs[k..k + 2] == [bs[k], bs[k + 1]] && Total(bs[k..k + 2]) == bs[k].size + bs[k + 1].size
  {
    TwoBlocks(bs[k], bs[k + 1]);
  }

  // ---- each change of memory

  function SetSize(mem: seq<int>, p: nat, size: int): seq<int>
    requires 2 * p < |mem|
  {
    mem[2 * p := size]
  }

  function SetNext(mem: seq<int>, p: nat, next: int): seq<int>
    requires 2 * p + 1 < |mem|
  {
    mem[2 * p + 1 := next]
  }

  function NewHead(bs: seq<Block>, k: nat, next: int, head: int): int
    requires k <= |bs|
  {
    if Last(bs[..k]) == NULL then next else head
  }

  /** The words of a header at q and of the size of the block at p before it. */
  function SplitWords(mem: seq<int>, p: nat, need: nat, size: int, next: int): seq<int>
    requires 2 * (p + need) + 1 < |mem|
  {
    SetSize(SetSize(SetNext(mem, p + need, next), p + need, size), p, need)
  }

  lemma SplitWordsAre(mem: seq<int>, p: nat, need: nat, size: int, next: int, to: nat)
    requires 2 * (p + need) + 1 < |mem| && p + need < to && need > 0
    ensures var mem1 := SplitWords(mem, p, need, size, next);
      && |mem1| == |mem| && SizeOf(mem1, p) == need && SizeOf(mem1, p + need) == size && NextOf(mem1, p + need) == next
      && SameOutside(mem, mem1, p, to)
      && mem1 == SetSize(SetNext(SetSize(mem, p + need, size), p + need, next), p, need)
      && SameData(mem, mem1, Block(p, need, true))
  {
  }

  lemma TakeSplit(mem: seq<int>, bs: seq<Block>, k: nat, need: nat, head: int)
    requires State(mem, bs, head) && k < |bs| && bs[k].free && need >= 2 && bs[k].size >= need + 2
    requires 2 * (bs[k].pos + bs[k].size) <= |mem|
    ensures var p := bs[k].pos;
      var mem1 := SplitWords(mem, p, need, bs[k].size - need, NextOf(mem, p));
      && State(Linked(mem1, bs[..k], p + need), Taken(bs, k, need), NewHead(bs, k, p + need, head))
      && OthersKept(mem, Linked(mem1, bs[..k], p + need), bs, k)
  {
    hide Held, First, Total, Last, Linked;
    At(mem, bs, k);
    var p := bs[k].pos;
    var mem1 := SplitWords(mem, p, need, bs[k].size - need, NextOf(mem, p));
    SplitWordsAre(mem, p, need, bs[k].size - need, NextOf(mem, p), p + bs[k].size);
    hide SplitWords, SetSize, SetNext, SameOutside;
    var (x, y) := (Block(p, need, false), Block(p + need, bs[k].size - need, true));
    HeldTwo(mem1, x, y, First(bs[k + 1..], NULL));
    TwoBlocks(x, y);
    Relay(mem, mem1, bs, k, k + 1, [x, y], head);
    RelayOthers(mem, mem1, bs, k, k + 1, p + need, head, k);
  }

  lemma TakeWhole(mem: seq<int>, bs: seq<Block>, k: nat, need: nat, head: int)
    requires State(mem, bs, head) && k < |bs| && bs[k].free && bs[k].size < need + 2
    ensures var next := NextOf(mem, bs[k].pos);
      && State(Linked(mem, bs[..k], next), Taken(bs, k, need), NewHead(bs, k, next, head))
      && OthersKept(mem, Linked(mem, bs[..k], next), bs, k)
  {
    hide Held, First, Total, Last, Linked;
    At(mem, bs, k);
    var x := Block(bs[k].pos, bs[k].size, false);
    HeldOne(mem, x, First(bs[k + 1..], NULL));
    TwoBlocks(x, x);
    Relay(mem, mem, bs, k, k + 1, [x], head);
    RelayOthers(mem, mem, bs, k, k + 1, NextOf(mem, bs[k].pos), head, k);
  }

  lemma Unlink(mem: seq<int>, bs: seq<Block>, k: nat, head: int)
    requires State(mem, bs, head) && k < |bs| && !bs[k].free && 2 * bs[k].pos + 1 < |mem|
    ensures var p := bs[k].pos;
      var mem1 := SetNext(mem, p, First(bs[k + 1..], NULL));
      && State(Linked(mem1, bs[..k], p), Unused(bs, k), NewHead(bs, k, p, head))
      && OthersKept(mem, Linked(mem1, bs[..k], p), bs, k)
  {
    hide Held, First, Total, Last, Linked;
    At(mem, bs, k);
    var p := bs[k].pos;
    var mem1 := SetNext(mem, p, First(bs[k + 1..], NULL));
    var x := Block(p, bs[k].size, true);
    HeldOne(mem1, x, First(bs[k + 1..], NULL));
    TwoBlocks(x, x);
    Relay(mem, mem1, bs, k, k + 1, [x], head);
    RelayOthers(mem, mem1, bs, k, k + 1, p, head, k);
  }

  /** The link before block i is right already. */
  lemma LinkedSame(mem: seq<int>, mem1: seq<int>, bs: seq<Block>, i: nat, j: nat, head: int)
    requires State(mem, bs, head) && i <= j <= |bs|
    requires SameOutside(mem, mem1, Total(bs[..i]), Total(bs[..i]) + Total(bs[i..j]))
    ensures Linked(mem1, bs[..i], First(bs[i..], NULL)) == mem1 && NewHead(bs, i, First(bs[i..], NULL), head) == head
  {
    hide First, Total, Held;
    var (a, b) := (bs[..i], bs[i..]);
    assert bs == a + b;
    HeldAppend(mem, a, b, 0, NULL);
    LastInside(mem, a, 0, First(b, NULL));
    if Last(a) == NULL {
      NoFree(mem, a, 0, First(b, NULL), First(b, NULL));
    } else {
      NextOfLast(mem, a, 0, First(b, NULL));
    }
  }

  lemma {:induction false} NextOfLast(mem: seq<int>, a: seq<Block>, from: nat, tail: int)
    requires Held(mem, a, from, tail) && Last(a) != NULL
    ensures NextOf(mem, Last(a)) == tail
    decreases |a|
  {
    LastTail(a);
    if Last(a[1..]) != NULL {
      NextOfLast(mem, a[1..], from + a[0].size, tail);
    } else {
      NoFree(mem, a[1..], from + a[0].size, tail, tail);
    }
  }

  lemma Merge(mem: seq<int>, bs: seq<Block>, k: nat, head: int)
    requires State(mem, bs, head) && k + 1 < |bs| && bs[k].free && bs[k + 1].free && 2 * bs[k].pos + 1 < |mem|
    ensures var (p, q) := (bs[k].pos, bs[k + 1].pos);
      var mem1 := SetNext(SetSize(mem, p, SizeOf(mem, p) + SizeOf(mem, q)), p, NextOf(mem, q));
      && State(mem1, Merged(bs, k), head)
      && OthersKept(mem, mem1, bs, k)
  {
    hide Held, First, Total, Last, Linked;
    At(mem, bs, k);
    At(mem, bs, k + 1);
    Pair(bs, k);
    var (p, q) := (bs[k].pos, bs[k + 1].pos);
    var mem1 := SetNext(SetSize(mem, p, SizeOf(mem, p) + SizeOf(mem, q)), p, NextOf(mem, q));
    var x := Block(p, bs[k].size + bs[k + 1].size, true);
    HeldOne(mem1, x, First(bs[k + 2..], NULL));
    TwoBlocks(x, x);
    assert SameOutside(mem, mem1, Total(bs[..k]), Total(bs[..k]) + Total(bs[k..k + 2]));
    Relay(mem, mem1, bs, k, k + 2, [x], head);
    RelayOthers(mem, mem1, bs, k, k + 2, p, head, k);
    LinkedSame(mem, mem1, bs, k, k + 2, head);
    FirstAt(bs, k);
  }

  lemma FirstAt(bs: seq<Block>, k: nat)
    requires k < |bs|
    ensures First(bs[k..], NULL) == if bs[k].free then bs[k].pos else First(bs[k + 1..], NULL)
  {
    assert bs[k..][0] == bs[k] && bs[k..][1..] == bs[k + 1..];
  }

  lemma CutWords(mem: seq<int>, bs: seq<Block>, k: nat, need: nat, head: int)
    requires State(mem, bs, head) && k < |bs| && !bs[k].free && need >= 2 && bs[k].size >= need + 2
    requires 2 * (bs[k].pos + bs[k].size) <= |mem|
    ensures var p := bs[k].pos;
      var mem1 := SetSize(SetSize(mem, p + need, bs[k].size - need), p, need);
      && State(mem1, Cut(bs, k, need), head)
      && OthersKept(mem, mem1, bs, k)
  {
    hide Held, First, Total, Last, Linked;
    At(mem, bs, k);
    var p := bs[k].pos;
    var mem1 := SetSize(SetSize(mem, p + need, bs[k].size - need), p, need);
    var (x, y) := (Block(p, need, false), Block(p + need, bs[k].size - need, false));
    var next := First(bs[k + 1..], NULL);
    HeldTwo(mem1, x, y, next);
    TwoBlocks(x, y);
    assert SameOutside(mem, mem1, Total(bs[..k]), Total(bs[..k]) + Total(bs[k..k + 1]));
    Relay(mem, mem1, bs, k, k + 1, [x, y], head);
    RelayOthers(mem, mem1, bs, k, k + 1, next, head, k);
    LinkedSame(mem, mem1, bs, k, k + 1, head);
    FirstAt(bs, k);
  }

  lemma GrowSplit(mem: seq<int>, bs: seq<Block>, k: nat, need: nat, head: int)
    requires State(mem, bs, head) && k < |bs| && !bs[k].free && CanGrow(bs, k, need) && need > bs[k].size
    requires bs[k].size + bs[k + 1].size > need + 2 && 2 * (bs[k + 1].pos + bs[k + 1].size) <= |mem|
        && bs[k + 1].pos == bs[k].pos + bs[k].size
    ensures var (p, free) := (bs[k].pos, bs[k].size + bs[k + 1].size - need);
      var mem1 := SplitWords(mem, p, need, free, NextOf(mem, bs[k + 1].pos));
      && State(Linked(mem1, bs[..k], p + need), Grown(bs, k, need), NewHead(bs, k, p + need, head))
      && OthersKept(mem, Linked(mem1, bs[..k], p + need), bs, k)
          && SameData(mem, Linked(mem1, bs[..k], p + need), bs[k])
  {
    hide Held, First, Total, Last, Linked, OthersKept, SameOutside, SameData;
    GrowWords(mem, bs, k, need, head);
    var (p, free) := (bs[k].pos, bs[k].size + bs[k + 1].size - need);
    var mem1 := SplitWords(mem, p, need, free, NextOf(mem, bs[k + 1].pos));
    GrowLaid(mem, mem1, bs, k, need, head);
    RelayOthers(mem, mem1, bs, k, k + 2, p + need, head, k);
    OwnKept(mem, mem1, bs, k, p + need, head);
  }

  lemma GrowWords(mem: seq<int>, bs: seq<Block>, k: nat, need: nat, head: int)
    requires State(mem, bs, head) && k < |bs| && CanGrow(bs, k, need) && need > bs[k].size
    requires bs[k].size + bs[k + 1].size > need + 2 && 2 * (bs[k + 1].pos + bs[k + 1].size) <= |mem|
        && bs[k + 1].pos == bs[k].pos + bs[k].size
    ensures var (p, free) := (bs[k].pos, bs[k].size + bs[k + 1].size - need);
      var mem1 := SplitWords(mem, p, need, free, NextOf(mem, bs[k + 1].pos));
      && SizeOf(mem1, p) == need && SizeOf(mem1, p + need) == free && NextOf(mem1, p + need) == First(bs[k + 2..], NULL)
      && SameOutside(mem, mem1, Total(bs[..k]), Total(bs[..k]) + Total(bs[k..k + 2])) && SameData(mem, mem1, bs[k])
  {
    hide Held, First, Total, SplitWords, SameOutside;
    At(mem, bs, k);
    At(mem, bs, k + 1);
    Pair(bs, k);
    SplitWordsAre(mem, bs[k].pos, need, bs[k].size + bs[k + 1].size - need, NextOf(mem, bs[k + 1].pos),
        bs[k].pos + bs[k].size + bs[k + 1].size);
  }

  lemma GrowLaid(mem: seq<int>, mem1: seq<int>, bs: seq<Block>, k: nat, need: nat, head: int)
    requires State(mem, bs, head) && k < |bs| && !bs[k].free && CanGrow(bs, k, need) && need > bs[k].size
    requires bs[k].size + bs[k + 1].size > need + 2 && 2 * (bs[k + 1].pos + bs[k + 1].size) <= |mem|
        && bs[k + 1].pos == bs[k].pos + bs[k].size
    requires var (p, free) := (bs[k].pos, bs[k].size + bs[k + 1].size - need);
      && SizeOf(mem1, p) == need && SizeOf(mem1, p + need) == free && NextOf(mem1, p + need) == First(bs[k + 2..], NULL)
    requires SameOutside(mem, mem1, Total(bs[..k]), Total(bs[..k]) + Total(bs[k..k + 2])) && |mem1| == |mem|
    ensures var next := bs[k].pos + need;
      State(Linked(mem1, bs[..k], next), Grown(bs, k, need), NewHead(bs, k, next, head))
  {
    hide Held, First, Total, Last, Linked, SameOutside;
    At(mem, bs, k);
    Pair(bs, k);
    var (x, y) := (Block(bs[k].pos, need, false), Block(bs[k].pos + need, bs[k].size + bs[k + 1].size - need, true));
    HeldTwo(mem1, x, y, First(bs[k + 2..], NULL));
    TwoBlocks(x, y);
    Relay(mem, mem1, bs, k, k + 2, [x, y], head);
  }

  lemma GrowWhole(mem: seq<int>, bs: seq<Block>, k: nat, need: nat, head: int)
    requires State(mem, bs, head) && k < |bs| && !bs[k].free && CanGrow(bs, k, need) && 2 * bs[k].pos < |mem|
    requires bs[k].size + bs[k + 1].size <= need + 2
    ensures var (p, next) := (bs[k].pos, NextOf(mem, bs[k + 1].pos));
      var mem1 := SetSize(mem, p, bs[k].size + bs[k + 1].size);
      && State(Linked(mem1, bs[..k], next), Grown(bs, k, need), NewHead(bs, k, next, head))
      && OthersKept(mem, Linked(mem1, bs[..k], next), bs, k) && SameData(mem, Linked(mem1, bs[..k], next), bs[k])
  {
    hide Held, First, Total, Last, Linked;
    At(mem, bs, k);
    At(mem, bs, k + 1);
    Pair(bs, k);
    var (p, next) := (bs[k].pos, NextOf(mem, bs[k + 1].pos));
    var mem1 := SetSize(mem, p, bs[k].size + bs[k + 1].size);
    var x := Block(p, bs[k].size + bs[k + 1].size, false);
    HeldOne(mem1, x, First(bs[k + 2..], NULL));
    TwoBlocks(x, x);
    assert SameOutside(mem, mem1, Total(bs[..k]), Total(bs[..k]) + Total(bs[k..k + 2]));
    Relay(mem, mem1, bs, k, k + 2, [x], head);
    RelayOthers(mem, mem1, bs, k, k + 2, next, head, k);
    assert SameData(mem, mem1, bs[k]);
    OwnKept(mem, mem1, bs, k, next, head);
  }

  /** Relinking the block before block k leaves the payload of k alone. */
  lemma OwnKept(mem: seq<int>, mem1: seq<int>, bs: seq<Block>, k: nat, next: int, head: int)
    requires State(mem, bs, head) && k < |bs| && SameData(mem, mem1, bs[k])
    ensures SameData(mem, Linked(mem1, bs[..k], next), bs[k])
  {
    hide Held, First, Total, Last;
    At(mem, bs, k);
    assert bs == bs[..k] + bs[k..];
    HeldAppend(mem, bs[..k], bs[k..], 0, NULL);
    LastInside(mem, bs[..k], 0, First(bs[k..], NULL));
  }

  /** Writing to the payload of a block in use. */
  lemma Fill(mem: seq<int>, mem1: seq<int>, bs: seq<Block>, k: nat, head: int)
    requires State(mem, bs, head) && k < |bs| && !bs[k].free
    requires SameOutside(mem, mem1, bs[k].pos + 1, bs[k].pos + bs[k].size)
    ensures State(mem1, bs, head) && OthersKept(mem, mem1, bs, k)
  {
    hide Held, First, Total, Last, Linked;
    At(mem, bs, k);
    var next := First(bs[k + 1..], NULL);
    HeldOne(mem1, bs[k], next);
    TwoBlocks(bs[k], bs[k]);
    assert bs[k..k + 1] == [bs[k]];
    Relay(mem, mem1, bs, k, k + 1, [bs[k]], head);
    RelayOthers(mem, mem1, bs, k, k + 1, next, head, k);
    LinkedSame(mem, mem1, bs, k, k + 1, head);
    FirstAt(bs, k);
    Cat(bs, k, k + 1);
  }

  // ---- blocks in use

  /** The payloads of these blocks are the same. */
  ghost predicate Kept(mem: seq<int>, mem': seq<int>, live: set<Block>) {
    forall x | x in live :: SameData(mem, mem', x)
  }

  lemma KeptTrans(mem: seq<int>, mem': seq<int>, mem'': seq<int>, live: set<Block>, live': set<Block>)
    requires Kept(mem, mem', live) && Kept(mem', mem'', live')
    ensures Kept(mem, mem'', live * live')
  {
  }

  lemma KeptOthers(mem: seq<int>, mem': seq<int>, bs: seq<Block>, k: nat)
    requires OthersKept(mem, mem', bs, k) && k < |bs|
    ensures Kept(mem, mem', Lives(bs) - {bs[k]}) && (bs[k].free ==> Kept(mem, mem', Lives(bs)))
  {
    hide SameData;
  }

  ghost predicate Distinct(bs: seq<Block>) {
    forall i, j | 0 <= i < j < |bs| :: bs[i].pos != bs[j].pos
  }

  lemma {:induction false} Positions(mem: seq<int>, bs: seq<Block>, from: nat, tail: int)
    requires Held(mem, bs, from, tail)
    ensures Distinct(bs) && forall i | 0 <= i < |bs| :: bs[i].pos >= from
    decreases |bs|
  {
    if bs != [] {
      Positions(mem, bs[1..], from + bs[0].size, tail);
      forall i | 0 < i < |bs| ensures bs[i].pos >= from + bs[0].size { assert bs[i] == bs[1..][i - 1]; }
      forall i, j | 0 <= i < j < |bs| ensures bs[i].pos != bs[j].pos {
        if i > 0 { assert bs[i] == bs[1..][i - 1] && bs[j] == bs[1..][j - 1]; }
      }
    }
  }

  lemma {:induction false} IndexIs(bs: seq<Block>, k: nat)
    requires Distinct(bs) && k < |bs|
    ensures Index(bs, bs[k].pos) == k
  {
    if k > 0 {
      assert bs[1..][k - 1] == bs[k] && bs[0].pos != bs[k].pos;
      IndexIs(bs[1..], k - 1);
    }
  }

  lemma LivesRelaid(bs: seq<Block>, i: nat, j: nat, m: seq<Block>)
    requires i <= j <= |bs| && Distinct(bs)
    ensures Lives(Relaid(bs, i, j, m)) == Lives(bs) - Lives(bs[i..j]) + Lives(m)
    ensures Lives(bs[i..j]) <= Lives(bs)
  {
    assert bs == bs[..i] + bs[i..j] + bs[j..];
    forall x, y | (x in bs[..i] || x in bs[j..]) && y in bs[i..j] ensures x != y {
      var k :| 0 <= k < |bs| && !(i <= k < j) && bs[k] == x;
      var l :| i <= l < j && bs[l] == y;
    }
  }

  lemma LivesOne(x: Block)
    ensures Lives([x]) == if x.free then {} else {x}
  {
  }

  lemma LivesTwo(x: Block, y: Block)
    ensures Lives([x, y]) == Lives([x]) + Lives([y])
  {
  }

  // ---- no two free neighbours

  lemma CoalescedRelaid(bs: seq<Block>, i: nat, j: nat, m: seq<Block>)
    requires Coalesced(bs) && i <= j <= |bs| && m != [] && Coalesced(m)
    requires i > 0 ==> !(bs[i - 1].free && m[0].free)
    requires j < |bs| ==> !(m[|m| - 1].free && bs[j].free)
    ensures Coalesced(Relaid(bs, i, j, m))
  {
    var bs' := Relaid(bs, i, j, m);
    forall k | 0 <= k < |bs'| - 1 ensures !(bs'[k].free && bs'[k + 1].free) {
      if k + 1 < i {
        assert bs'[k] == bs[k] && bs'[k + 1] == bs[k + 1];
      } else if k >= i + |m| {
        var d := j - i - |m|;
        assert bs'[k] == bs[k + d] && bs'[k + 1] == bs[k + d + 1];
      } else if k >= i && k + 1 < i + |m| {
        assert bs'[k] == m[k - i] && bs'[k + 1] == m[k - i + 1];
      }
    }
  }

  /** Freeing block k makes one free block of it and its free neighbours. */
  lemma FreedIs(bs: seq<Block>, k: nat)
    requires Coalesced(bs) && k < |bs| && !bs[k].free
    ensures var i := if k > 0 && bs[k - 1].free then k - 1 else k;
      var j := if k + 1 < |bs| && bs[k + 1].free then k + 2 else k + 1;
      && Freed(bs, k) == Relaid(bs, i, j, [Block(bs[i].pos, Total(bs[i..j]), true)])
      && Coalesced(Freed(bs, k))
  {
    var i := if k > 0 && bs[k - 1].free then k - 1 else k;
    var j := if k + 1 < |bs| && bs[k + 1].free then k + 2 else k + 1;
    hide Coalesced, Total, Unused;
    MergedNextIs(bs, k);
    if i < k { MergedPrevIs(bs, k, j); }
    FreedCoalesced(bs, i, j, k);
  }

  lemma FreedCoalesced(bs: seq<Block>, i: nat, j: nat, k: nat)
    requires Coalesced(bs) && i <= k < j <= |bs| && !bs[k].free
    requires i == if k > 0 && bs[k - 1].free then k - 1 else k
    requires j == if k + 1 < |bs| && bs[k + 1].free then k + 2 else k + 1
    ensures Coalesced(Relaid(bs, i, j, [Block(bs[i].pos, Total(bs[i..j]), true)]))
  {
    CoalescedRelaid(bs, i, j, [Block(bs[i].pos, Total(bs[i..j]), true)]);
  }

  lemma MergedPrevIs(bs: seq<Block>, k: nat, j: nat)
    requires 0 < k < j <= |bs|
    ensures Merged(Relaid(bs, k, j, [Block(bs[k].pos, Total(bs[k..j]), true)]), k - 1)
      == Relaid(bs, k - 1, j, [Block(bs[k - 1].pos, Total(bs[k - 1..j]), true)])
  {
    var bs' := Relaid(bs, k, j, [Block(bs[k].pos, Total(bs[k..j]), true)]);
    assert bs'[k + 1..] == bs[j..] && bs'[..k - 1] == bs[..k - 1];
    assert bs[k - 1..j][1..] == bs[k..j] && bs[k - 1..j][0] == bs[k - 1];
  }

  lemma MergedNextIs(bs: seq<Block>, k: nat)
    requires k < |bs|
    ensures var j := if k + 1 < |bs| && bs[k + 1].free then k + 2 else k + 1;
      MergedNext(bs, k) == Relaid(bs, k, j, [Block(bs[k].pos, Total(bs[k..j]), true)])
  {
    TwoBlocks(bs[k], bs[k]);
    assert bs[k..k + 1] == [bs[k]];
    if k + 1 < |bs| && bs[k + 1].free {
      Pair(bs, k);
      assert Unused(bs, k)[..k] == bs[..k] && Unused(bs, k)[k + 2..] == bs[k + 2..];
    }
  }

  lemma FreedLives(bs: seq<Block>, k: nat)
    requires Coalesced(bs) && k < |bs| && !bs[k].free && Distinct(bs)
    ensures Lives(Freed(bs, k)) == Lives(bs) - {bs[k]}
  {
    FreedIs(bs, k);
    var i := if k > 0 && bs[k - 1].free then k - 1 else k;
    var j := if k + 1 < |bs| && bs[k + 1].free then k + 2 else k + 1;
    hide Coalesced, Freed, Total, Lives, Distinct;
    LivesRelaid(bs, i, j, [Block(bs[i].pos, Total(bs[i..j]), true)]);
    LivesOne(Block(bs[i].pos, Total(bs[i..j]), true));
    OneLive(bs, i, j, k);
  }

  lemma OneLive(bs: seq<Block>, i: nat, j: nat, k: nat)
    requires i <= k < j <= |bs| && !bs[k].free && forall l | i <= l < j && l != k :: bs[l].free
    ensures Lives(bs[i..j]) == {bs[k]}
  {
    assert bs[i..j][k - i] == bs[k];
  }

  lemma TakenIs(bs: seq<Block>, k: nat, need: nat)
    requires Coalesced(bs) && k < |bs| && bs[k].free && Distinct(bs)
    ensures Coalesced(Taken(bs, k, need)) && k < |Taken(bs, k, need)|
    ensures var x := Taken(bs, k, need)[k];
      !x.free && x.pos == bs[k].pos && x.size <= bs[k].size && Lives(Taken(bs, k, need)) == Lives(bs) + {x}
          && x !in Lives(bs)
  {
    assert bs[k..k + 1] == [bs[k]];
    LivesOne(bs[k]);
    if bs[k].size >= need + 2 {
      var (x, y) := (Block(bs[k].pos, need, false), Block(bs[k].pos + need, bs[k].size - need, true));
      LivesTwo(x, y);
      LivesOne(x);
      LivesOne(y);
      LivesRelaid(bs, k, k + 1, [x, y]);
      CoalescedRelaid(bs, k, k + 1, [x, y]);
    } else {
      var z := Block(bs[k].pos, bs[k].size, false);
      LivesOne(z);
      LivesRelaid(bs, k, k + 1, [z]);
      CoalescedRelaid(bs, k, k + 1, [z]);
    }
    hide Coalesced;
    NewPlace(bs, k, Taken(bs, k, need)[k]);
  }

  lemma NewPlace(bs: seq<Block>, k: nat, x: Block)
    requires Distinct(bs) && k < |bs| && x.pos == bs[k].pos && x != bs[k]
    ensures x !in bs
  {
  }

  lemma CutIs(bs: seq<Block>, k: nat, need: nat)
    requires Coalesced(bs) && k < |bs| && !bs[k].free && Distinct(bs) && need < bs[k].size
    ensures var (x, y) := (Block(bs[k].pos, need, false), Block(bs[k].pos + need, bs[k].size - need, false));
      && Coalesced(Cut(bs, k, need)) && k + 1 < |Cut(bs, k, need)| && Cut(bs, k, need)[k + 1] == y
      && Lives(Cut(bs, k, need)) == Lives(bs) - {bs[k]} + {x, y}
  {
    var (x, y) := (Block(bs[k].pos, need, false), Block(bs[k].pos + need, bs[k].size - need, false));
    assert bs[k..k + 1] == [bs[k]];
    LivesOne(bs[k]);
    LivesTwo(x, y);
    LivesOne(x);
    LivesOne(y);
    LivesRelaid(bs, k, k + 1, [x, y]);
    CoalescedRelaid(bs, k, k + 1, [x, y]);
  }

  lemma GrownIs(bs: seq<Block>, k: nat, need: nat)
    requires Coalesced(bs) && k < |bs| && !bs[k].free && Distinct(bs) && CanGrow(bs, k, need)
    ensures Coalesced(Grown(bs, k, need)) && k < |Grown(bs, k, need)|
    ensures var x := Grown(bs, k, need)[k];
      !x.free && x.pos == bs[k].pos && x.size >= need && Lives(Grown(bs, k, need)) == Lives(bs) - {bs[k]} + {x}
  {
    GrownLives(bs, k, need);
    GrownCoalesced(bs, k, need);
    hide Lives, Coalesced, Distinct;
    assert Grown(bs, k, need)[k].pos == bs[k].pos;
  }

  lemma GrownCoalesced(bs: seq<Block>, k: nat, need: nat)
    requires Coalesced(bs) && k < |bs| && CanGrow(bs, k, need)
    ensures Coalesced(Grown(bs, k, need))
  {
    var total := bs[k].size + bs[k + 1].size;
    if total > need + 2 {
      CoalescedRelaid(bs, k, k + 2, [Block(bs[k].pos, need, false), Block(bs[k].pos + need, total - need, true)]);
    } else {
      CoalescedRelaid(bs, k, k + 2, [Block(bs[k].pos, total, false)]);
    }
  }

  lemma GrownLives(bs: seq<Block>, k: nat, need: nat)
    requires k < |bs| && !bs[k].free && Distinct(bs) && CanGrow(bs, k, need)
    ensures var total := bs[k].size + bs[k + 1].size;
      Lives(Grown(bs, k, need)) == Lives(bs) - {bs[k]}
          + {Block(bs[k].pos, if total > need + 2 then need else total, false)}
  {
    var total := bs[k].size + bs[k + 1].size;
    assert bs[k..k + 2] == [bs[k], bs[k + 1]];
    LivesTwo(bs[k], bs[k + 1]);
    LivesOne(bs[k]);
    LivesOne(bs[k + 1]);
    var (x, y) := (Block(bs[k].pos, need, false), Block(bs[k].pos + need, total - need, true));
    var z := Block(bs[k].pos, total, false);
    LivesTwo(x, y);
    LivesOne(x);
    LivesOne(y);
    LivesOne(z);
    hide Lives;
    LivesRelaid(bs, k, k + 2, [x, y]);
    LivesRelaid(bs, k, k + 2, [z]);
  }

  /** Once nothing is in use, the pool is the one block it began with. */
  lemma AllFree(mem: seq<int>, bs: seq<Block>, head: int)
    requires State(mem, bs, head) && Coalesced(bs) && Lives(bs) == {} && |mem| > 0
    ensures bs == [Block(0, |mem| / 2, true)] && head == 0
  {
    hide Lives, Coalesced;
    forall k | 0 <= k < |bs| ensures bs[k].free {
      if !bs[k].free { SomeLive(bs, k); }
    }
    if |bs| > 1 { FirstTwo(bs); }
    assert bs == [bs[0]];
    TwoBlocks(bs[0], bs[0]);
  }

  lemma SomeLive(bs: seq<Block>, k: nat)
    requires k < |bs| && !bs[k].free
    ensures Lives(bs) != {}
  {
    assert bs[k] in Lives(bs);
  }

  lemma FirstTwo(bs: seq<Block>)
    requires Coalesced(bs) && |bs| > 1
    ensures !bs[0].free || !bs[1].free
  {
    assert 0 + 1 < |bs|;
  }

  /** Blocks in use do not overlap, and none reaches outside the arena. */
  lemma {:induction false} Disjoint(mem: seq<int>, bs: seq<Block>, head: int, i: nat, j: nat)
    requires State(mem, bs, head) && i < j < |bs|
    ensures bs[i].pos + bs[i].size <= bs[j].pos && 2 * (bs[j].pos + bs[j].size) <= |mem|
    decreases j
  {
    hide Held, First, Total;
    At(mem, bs, j);
    At(mem, bs, j - 1);
    if i < j - 1 { Disjoint(mem, bs, head, i, j - 1); }
  }

  // ---- walking the free list

  /** The first free block from block j on. */
  lemma {:induction false} Skip(mem: seq<int>, bs: seq<Block>, j: nat, head: int) returns (k: nat)
    requires State(mem, bs, head) && j <= |bs| && First(bs[j..], NULL) != NULL
    ensures j <= k < |bs| && bs[k].free && bs[k].pos == First(bs[j..], NULL)
    ensures forall i | j <= i < k :: !bs[i].free
    decreases |bs| - j
  {
    hide Held, First, Last, Total;
    if j == |bs| {
      NoBlocks(bs);
    } else {
      FirstAt(bs, j);
      if bs[j].free { k := j; } else { k := Skip(mem, bs, j + 1, head); }
    }
  }

  lemma NoBlocks(bs: seq<Block>)
    ensures First(bs[|bs|..], NULL) == NULL
  {
  }

  /** Blocks in use are passed over. */
  lemma {:induction false} SkipUsed(bs: seq<Block>, j: nat, k: nat)
    requires j <= k <= |bs| && forall i | j <= i < k :: !bs[i].free
    ensures Last(bs[..k]) == Last(bs[..j]) && First(bs[j..], NULL) == First(bs[k..], NULL)
    decreases k - j
  {
    if j < k {
      SkipUsed(bs, j, k - 1);
      FirstAt(bs, k - 1);
      assert bs[..k][..k - 1] == bs[..k - 1];
    }
  }

  lemma LastAt(bs: seq<Block>, k: nat)
    requires k < |bs| && bs[k].free
    ensures Last(bs[..k + 1]) == bs[k].pos
  {
  }

  /** The last free block before block j lies before it. */
  lemma {:induction false} LastBefore(mem: seq<int>, bs: seq<Block>, head: int, j: nat) returns (k: nat)
    requires State(mem, bs, head) && j <= |bs| && Last(bs[..j]) != NULL
    ensures k < j && bs[k].free && Last(bs[..j]) == bs[k].pos && forall i | k < i < j :: !bs[i].free
    decreases j
  {
    hide Held, First, Total;
    assert j > 0;
    if bs[j - 1].free {
      k := j - 1;
    } else {
      assert bs[..j][..j - 1] == bs[..j - 1];
      k := LastBefore(mem, bs, head, j - 1);
    }
  }

  /** Whether the next free block touches block k. */
  lemma NextTouches(mem: seq<int>, bs: seq<Block>, k: nat, head: int)
    requires State(mem, bs, head) && k < |bs|
    ensures var next := First(bs[k + 1..], NULL);
      next == bs[k].pos + bs[k].size <==> k + 1 < |bs| && bs[k + 1].free
  {
    hide Held, First, Total, Last;
    At(mem, bs, k);
    if First(bs[k + 1..], NULL) != NULL {
      var n := Skip(mem, bs, k + 1, head);
      At(mem, bs, n);
      if n > k + 1 {
        Disjoint(mem, bs, head, k + 1, n);
        At(mem, bs, k + 1);
      }
    } else if k + 1 < |bs| {
      FirstAt(bs, k + 1);
    }
  }

  /** Whether the free block before touches block k. */
  lemma PrevTouches(mem: seq<int>, bs: seq<Block>, k: nat, head: int)
    requires State(mem, bs, head) && k < |bs|
    ensures var prev := Last(bs[..k]);
      && (prev != NULL ==> 0 <= prev < bs[k].pos)
      && (prev != NULL && prev + SizeOf(mem, prev) == bs[k].pos <==> k > 0 && bs[k - 1].free)
      && (k > 0 && bs[k - 1].free ==> prev == bs[k - 1].pos)
  {
    hide Held, First, Total, Last;
    At(mem, bs, k);
    if Last(bs[..k]) != NULL {
      var n := LastBefore(mem, bs, head, k);
      At(mem, bs, n);
      Disjoint(mem, bs, head, n, k);
      if n < k - 1 {
        Disjoint(mem, bs, head, n, k - 1);
        At(mem, bs, k - 1);
      }
    }
    if k > 0 && bs[k - 1].free { LastAt(bs, k - 1); }
  }

  /** The free list ends after the last free block. */
  lemma {:induction false} NoneLeft(bs: seq<Block>, j: nat)
    requires j <= |bs| && First(bs[j..], NULL) == NULL
    ensures forall i | j <= i < |bs| :: !bs[i].free
    decreases |bs| - j
  {
    if j < |bs| {
      FirstAt(bs, j);
      NoneLeft(bs, j + 1);
    }
  }

  /** The blocks of memory where one more step of the walk stands. */
  lemma Step(mem: seq<int>, bs: seq<Block>, j: nat, head: int) returns (k: nat)
    requires State(mem, bs, head) && j <= |bs| && First(bs[j..], NULL) != NULL
    ensures j <= k < |bs| && bs[k].free && bs[k].pos == First(bs[j..], NULL) && forall i | j <= i < k :: !bs[i].free
    ensures Last(bs[..k]) == Last(bs[..j]) && Last(bs[..k + 1]) == bs[k].pos
    ensures 2 * (bs[k].pos + bs[k].size) <= |mem| && bs[k].size >= 2
    ensures mem[2 * bs[k].pos] == bs[k].size && mem[2 * bs[k].pos + 1] == First(bs[k + 1..], NULL)
  {
    hide Held, First, Total, Last;
    k := Skip(mem, bs, j, head);
    SkipUsed(bs, j, k);
    LastAt(bs, k);
    At(mem, bs, k);
  }

  lemma FitIs(bs: seq<Block>, k: nat, need: nat)
    requires k <= |bs| && forall i | 0 <= i < k :: !(bs[i].free && bs[i].size >= need)
    requires k < |bs| ==> bs[k].free && bs[k].size >= need
    ensures Fit(bs, need) == k
  {
  }
}
