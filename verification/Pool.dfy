/** The pool allocator: first fit from a free list in order of address, with splitting and merging
    of blocks. Addresses are units of sixteen bytes from the first block on; a block's payload
    begins one unit after its header. */
module Pools {
  import opened PoolSpec
  import opened PoolBlocks

  /** The blocks after asking block k to hold need units; the same blocks when there is no room. */
  function Resized(bs: seq<Block>, k: nat, need: nat): seq<Block>
    requires k < |bs|
  {
    if need <= bs[k].size then
      if bs[k].size >= need + 2 then Freed(Cut(bs, k, need), k + 1) else bs
    else if CanGrow(bs, k, need) then Grown(bs, k, need)
    else Moved(bs, k, need)
  }

  /** The block moves to the first that fits. */
  function Moved(bs: seq<Block>, k: nat, need: nat): seq<Block>
    requires k < |bs|
  {
    var f := Fit(bs, need);
    if f == |bs| then bs else
      var taken := Taken(bs, f, need);
      var i := Index(taken, bs[k].pos);
      if i < |taken| then Freed(taken, i) else taken
  }

  /** There is room for need units in place of block k. */
  predicate Room(bs: seq<Block>, k: nat, need: nat)
    requires k < |bs|
  {
    need <= bs[k].size || CanGrow(bs, k, need) || Fit(bs, need) < |bs|
  }

  /** Malloc's answer: the block of the first fit, at least the bytes asked for, unused before. */
  ghost predicate Handed(bs: seq<Block>, bs': seq<Block>, k: nat, bytes: nat, ptr: int) {
    && k < |bs| && bs' == Taken(bs, k, Need(bytes)) && Live(bs', ptr - 1)
    && var x := bs'[Index(bs', ptr - 1)];
      x !in Lives(bs) && Lives(bs') == Lives(bs) + {x} && 16 * (x.size - 1) >= bytes
  }

  lemma TakenHands(mem: seq<int>, bs: seq<Block>, k: nat, need: nat, bytes: nat, head: int)
    requires State(mem, bs, head) && Coalesced(bs) && k < |bs| && bs[k].free && bs[k].size >= need == Need(bytes)
        && bytes > 0
    ensures Handed(bs, Taken(bs, k, need), k, bytes, bs[k].pos + 1)
  {
    hide Held, First, Total, Lives, Coalesced, Distinct;
    Positions(mem, bs, 0, NULL);
    TakenIs(bs, k, need);
    TakenPlaces(mem, bs, k, need, head);
    IndexIs(Taken(bs, k, need), k);
  }

  /** Taking keeps positions apart. */
  lemma TakenPlaces(mem: seq<int>, bs: seq<Block>, k: nat, need: nat, head: int)
    requires State(mem, bs, head) && k < |bs| && bs[k].free && bs[k].size >= need >= 2
    ensures Distinct(Taken(bs, k, need))
  {
    hide Held, First, Total, Taken;
    At(mem, bs, k);
    if bs[k].size >= need + 2 {
      TakeSplit(mem, bs, k, need, head);
      Positions(Linked(SplitWords(mem, bs[k].pos, need, bs[k].size - need, NextOf(mem, bs[k].pos)), bs[..k],
          bs[k].pos + need), Taken(bs, k, need), 0, NULL);
    } else {
      TakeWhole(mem, bs, k, need, head);
      Positions(Linked(mem, bs[..k], NextOf(mem, bs[k].pos)), Taken(bs, k, need), 0, NULL);
    }
  }

  lemma Places(mem: seq<int>, bs: seq<Block>, head: int)
    requires State(mem, bs, head)
    ensures Distinct(bs)
  {
    Positions(mem, bs, 0, NULL);
  }

  /** The header of block k. */
  lemma Chunk(mem: seq<int>, bs: seq<Block>, k: nat, head: int)
    requires State(mem, bs, head) && k < |bs|
    ensures bs[k].size >= 2 && 2 * (bs[k].pos + bs[k].size) <= |mem| && mem[2 * bs[k].pos] == bs[k].size
    ensures bs[k].free ==> mem[2 * bs[k].pos + 1] == First(bs[k + 1..], NULL)
  {
    hide Held, First, Total;
    At(mem, bs, k);
  }

  /** The free block before block k, if any, lies before it. */
  lemma PrevWord(mem: seq<int>, bs: seq<Block>, k: nat, head: int)
    requires State(mem, bs, head) && k < |bs|
    ensures Last(bs[..k]) != NULL ==> 0 <= 2 * Last(bs[..k]) + 1 < 2 * bs[k].pos < |mem|
  {
    hide Held, First, Total, Last;
    PrevTouches(mem, bs, k, head);
    At(mem, bs, k);
  }

  lemma FromStart(mem: seq<int>, bs: seq<Block>, head: int)
    requires State(mem, bs, head)
    ensures Last(bs[..0]) == NULL && head == First(bs[0..], NULL)
  {
    assert bs[0..] == bs;
  }

  lemma Order(mem: seq<int>, bs: seq<Block>, n: nat, k: nat, head: int)
    requires State(mem, bs, head) && n < |bs| && k < |bs|
    ensures bs[n].pos < bs[k].pos <==> n < k
  {
    hide Held, First, Total, Last;
    At(mem, bs, n);
    At(mem, bs, k);
    if n < k { Disjoint(mem, bs, head, n, k); } else if k < n { Disjoint(mem, bs, head, k, n); }
  }

  /** The walk has passed every free block before block k, and no other. */
  lemma Between(mem: seq<int>, bs: seq<Block>, j: nat, k: nat, head: int)
    requires State(mem, bs, head) && j <= k < |bs| && !bs[k].free
    requires First(bs[j..], NULL) == NULL || First(bs[j..], NULL) >= bs[k].pos
    ensures Last(bs[..k]) == Last(bs[..j]) && First(bs[j..], NULL) == First(bs[k + 1..], NULL)
  {
    hide Held, First, Total, Last, State;
    if First(bs[j..], NULL) == NULL {
      NoneLeft(bs, j);
    } else {
      var n := Skip(mem, bs, j, head);
      Order(mem, bs, n, k, head);
    }
    SkipUsed(bs, j, k);
    FirstAt(bs, k);
  }

  /** How the tests for neighbours come out. */
  lemma Neighbours(mem: seq<int>, bs: seq<Block>, k: nat, head: int)
    requires State(mem, bs, head) && k < |bs| && !bs[k].free
    ensures First(bs[k + 1..], NULL) == bs[k].pos + bs[k].size <==> k + 1 < |bs| && bs[k + 1].free
    ensures k + 1 < |bs| && bs[k + 1].free ==> First(bs[k + 1..], NULL) == bs[k + 1].pos
    ensures var prev := Last(bs[..k]);
      && (prev != NULL ==> 0 <= 2 * prev < |mem| && (prev + mem[2 * prev] == bs[k].pos <==> k > 0 && bs[k - 1].free))
      && (k > 0 && bs[k - 1].free ==> prev == bs[k - 1].pos)
  {
    hide Held, First, Total, Last;
    NextTouches(mem, bs, k, head);
    PrevTouches(mem, bs, k, head);
    At(mem, bs, k);
    if k + 1 < |bs| { FirstAt(bs, k + 1); }
  }

  /** The rows of blocks that freeing goes through. */
  lemma Stages(bs: seq<Block>, k: nat)
    requires k < |bs|
    ensures var one := Unused(bs, k);
      && |one| == |bs| && one[k] == Block(bs[k].pos, bs[k].size, true)
      && (k + 1 < |bs| ==> one[k + 1] == bs[k + 1]) && (k > 0 ==> one[k - 1] == bs[k - 1])
      && (k + 1 < |bs| && bs[k + 1].free ==> MergedNext(bs, k) == Merged(one, k))
      && (!(k + 1 < |bs| && bs[k + 1].free) ==> MergedNext(bs, k) == one)
    ensures var two := MergedNext(bs, k);
      && k < |two| && two[k].pos == bs[k].pos && two[k].free && (k > 0 ==> two[k - 1] == bs[k - 1])
      && (k > 0 && bs[k - 1].free ==> Freed(bs, k) == Merged(two, k - 1))
      && (!(k > 0 && bs[k - 1].free) ==> Freed(bs, k) == two)
  {
  }

  lemma UnusedLives(bs: seq<Block>, k: nat)
    requires k < |bs| && !bs[k].free && Distinct(bs)
    ensures Lives(Unused(bs, k)) == Lives(bs) - {bs[k]}
  {
    var x := Block(bs[k].pos, bs[k].size, true);
    assert bs[k..k + 1] == [bs[k]];
    LivesOne(bs[k]);
    LivesOne(x);
    LivesRelaid(bs, k, k + 1, [x]);
  }

  lemma MergedLives(bs: seq<Block>, k: nat)
    requires k + 1 < |bs| && bs[k].free && bs[k + 1].free && Distinct(bs)
    ensures Lives(Merged(bs, k)) == Lives(bs)
  {
    var x := Block(bs[k].pos, bs[k].size + bs[k + 1].size, true);
    assert bs[k..k + 2] == [bs[k], bs[k + 1]];
    LivesTwo(bs[k], bs[k + 1]);
    LivesOne(bs[k]);
    LivesOne(bs[k + 1]);
    LivesOne(x);
    LivesRelaid(bs, k, k + 2, [x]);
  }

  // ---- a resized block

  /** Block k is now the one at ptr: at least need units, with the old contents as far as they go,
      and the other blocks in use as they were. */
  ghost predicate Fits(mem: seq<int>, mem': seq<int>, bs: seq<Block>, bs': seq<Block>, k: nat, need: nat, ptr: int) {
    && k < |bs| && |mem'| == |mem| && Live(bs', ptr - 1)
    && var (x, y) := (bs[k], bs'[Index(bs', ptr - 1)]);
      && y.size >= need && Lives(bs') == Lives(bs) - {x} + {y}
      && Kept(mem, mem', Lives(bs) - {x})
      && SameWords(mem, mem', x, y)
  }

  /** Word i of the payload of a block at unit p. */
  function Word(mem: seq<int>, p: nat, i: nat): int {
    if 2 * (p + 1) + i < |mem| then mem[2 * (p + 1) + i] else 0
  }

  /** What both payloads have room for. */
  ghost predicate SameWords(mem: seq<int>, mem': seq<int>, x: Block, y: Block) {
    forall i: nat | i < 2 * (x.size - 1) && i < 2 * (y.size - 1) :: Word(mem', y.pos, i) == Word(mem, x.pos, i)
  }

  lemma {:induction false} LiveAt(bs: seq<Block>, y: Block)
    requires Distinct(bs) && y in Lives(bs)
    ensures Live(bs, y.pos) && bs[Index(bs, y.pos)] == y
  {
    var i :| 0 <= i < |bs| && bs[i] == y;
    IndexIs(bs, i);
  }

  lemma SameFits(mem: seq<int>, bs: seq<Block>, k: nat, need: nat)
    requires Distinct(bs) && k < |bs| && !bs[k].free && bs[k].size >= need
    ensures Fits(mem, mem, bs, bs, k, need, bs[k].pos + 1)
  {
    LiveAt(bs, bs[k]);
  }

  lemma Beside(mem: seq<int>, bs: seq<Block>, k: nat, head: int)
    requires State(mem, bs, head) && k + 1 < |bs|
    ensures bs[k + 1].pos == bs[k].pos + bs[k].size
  {
    hide Held, First, Total;
    At(mem, bs, k);
  }

  lemma GrownFits(mem: seq<int>, mem': seq<int>, bs: seq<Block>, k: nat, need: nat)
    requires k < |bs| && !bs[k].free && need > bs[k].size && CanGrow(bs, k, need) && Distinct(Grown(bs, k, need))
    requires k < |Grown(bs, k, need)| && var x := Grown(bs, k, need)[k];
      !x.free && x.pos == bs[k].pos && x.size >= need && Lives(Grown(bs, k, need)) == Lives(bs) - {bs[k]} + {x}
    requires Kept(mem, mem', Lives(bs) - {bs[k]}) && SameData(mem, mem', bs[k])
    ensures Fits(mem, mem', bs, Grown(bs, k, need), k, need, bs[k].pos + 1)
  {
    hide Grown, Kept, Lives;
    LiveAt(Grown(bs, k, need), Grown(bs, k, need)[k]);
  }

  /** A place inside block k is no block's. */
  lemma NotThere(mem: seq<int>, bs: seq<Block>, k: nat, t: Block, head: int)
    requires State(mem, bs, head) && k < |bs| && bs[k].pos < t.pos < bs[k].pos + bs[k].size
    ensures t !in bs
  {
    hide Held, First, Total;
    forall n | 0 <= n < |bs| ensures bs[n].pos != t.pos {
      if n < k { Disjoint(mem, bs, head, n, k); } else if k < n { Disjoint(mem, bs, head, k, n); }
    }
  }

  lemma CutStep(mem: seq<int>, bs: seq<Block>, k: nat, need: nat, head: int)
    requires State(mem, bs, head) && k < |bs| && !bs[k].free && need >= 2 && bs[k].size >= need + 2
    requires 2 * (bs[k].pos + bs[k].size) <= |mem|
    ensures var mem1 := SetSize(SetSize(mem, bs[k].pos + need, bs[k].size - need), bs[k].pos, need);
      && State(mem1, Cut(bs, k, need), head) && Kept(mem, mem1, Lives(bs) - {bs[k]})
      && SameData(mem, mem1, Block(bs[k].pos, need, false))
    ensures Distinct(Cut(bs, k, need))
  {
    hide Held, First, Total, Cut, Lives;
    var mem1 := SetSize(SetSize(mem, bs[k].pos + need, bs[k].size - need), bs[k].pos, need);
    CutWords(mem, bs, k, need, head);
    KeptOthers(mem, mem1, bs, k);
    Places(mem1, Cut(bs, k, need), head);
    Places(mem, bs, head);
  }

  lemma ShrunkFits(was: seq<int>, mid: seq<int>, mem': seq<int>, bs: seq<Block>, bs': seq<Block>, k: nat, need: nat,
                   head: int)
    requires State(was, bs, head) && k < |bs| && !bs[k].free && need >= 2 && bs[k].size >= need + 2 && Distinct(bs')
    requires var (y, t) := (Block(bs[k].pos, need, false), Block(bs[k].pos + need, bs[k].size - need, false));
      && SameData(was, mid, y) && Lives(bs') == Lives(bs) - {bs[k]} + {y, t} - {t}
      && Kept(was, mid, Lives(bs) - {bs[k]}) && Kept(mid, mem', Lives(bs) - {bs[k]} + {y, t} - {t})
    ensures Fits(was, mem', bs, bs', k, need, bs[k].pos + 1)
  {
    hide Held, First, Total, Distinct, SameData;
    var (y, t) := (Block(bs[k].pos, need, false), Block(bs[k].pos + need, bs[k].size - need, false));
    NotThere(was, bs, k, t, head);
    var live := Lives(bs) - {bs[k]};
    assert t !in Lives(bs) && Lives(bs') == live + {y};
    LiveAt(bs', y);
    KeptTrans(was, mid, mem', live, live + {y});
    assert live * (live + {y}) == live;
    assert SameData(mid, mem', y);
    WordsKept(was, mid, mem', bs[k], y);
  }

  lemma WordsKept(was: seq<int>, mid: seq<int>, mem': seq<int>, x: Block, y: Block)
    requires x.pos == y.pos && SameData(was, mid, y) && SameData(mid, mem', y)
    ensures SameWords(was, mem', x, y) && |mem'| == |was|
  {
    forall i: nat | i < 2 * (y.size - 1) ensures Word(mem', y.pos, i) == Word(was, y.pos, i) {
      SameWord(was, mid, y, i);
      SameWord(mid, mem', y, i);
    }
  }

  lemma NeedBack(mem: seq<int>, bs: seq<Block>, need: nat, head: int)
    requires State(mem, bs, head) && need >= 2
    ensures Need(16 * (need - 1)) == need
    ensures 16 * (need - 1) >= 8 * |mem| + 16 ==> Fit(bs, need) == |bs|
  {
    hide Held, First, Total;
    if Fit(bs, need) < |bs| { At(mem, bs, Fit(bs, need)); }
  }

  lemma NewBlock(bs: seq<Block>, taken: seq<Block>, f: nat, bytes: nat, ptr: int, x: Block) returns (y: Block)
    requires Handed(bs, taken, f, bytes, ptr) && x in bs && !x.free
    ensures y.pos + 1 == ptr && y !in Lives(bs) && Lives(taken) == Lives(bs) + {y} && 16 * (y.size - 1) >= bytes
    ensures x in Lives(taken) && y in Lives(taken) && x != y
    ensures f < |bs| && taken == Taken(bs, f, Need(bytes))
  {
    y := taken[Index(taken, ptr - 1)];
  }

  /** Two blocks in use, where they are. */
  lemma Apart(mem: seq<int>, bs: seq<Block>, head: int, x: Block, y: Block) returns (ix: nat, iy: nat)
    requires State(mem, bs, head) && x in Lives(bs) && y in Lives(bs) && x != y
    ensures ix < |bs| && iy < |bs| && bs[ix] == x && bs[iy] == y && !y.free && Index(bs, x.pos) == ix && Live(bs, x.pos)
    ensures x.pos + x.size <= y.pos || y.pos + y.size <= x.pos
    ensures 2 * (x.pos + x.size) <= |mem| && 2 * (y.pos + y.size) <= |mem| && x.size >= 2 && mem[2 * x.pos] == x.size
  {
    hide Held, First, Total;
    ix :| 0 <= ix < |bs| && bs[ix] == x;
    iy :| 0 <= iy < |bs| && bs[iy] == y;
    Places(mem, bs, head);
    IndexIs(bs, ix);
    Chunk(mem, bs, ix, head);
    Chunk(mem, bs, iy, head);
    if ix < iy { Disjoint(mem, bs, head, ix, iy); } else { Disjoint(mem, bs, head, iy, ix); }
  }

  lemma CopiedOutside(one: seq<int>, two: seq<int>, x: Block, y: Block)
    requires |one| == |two| && 2 <= x.size <= y.size && 2 * (x.pos + x.size) <= |one| && 2 * (y.pos + y.size) <= |one|
    requires Copied(one, two, 2 * (y.pos + 1), 2 * (x.pos + 1), 2 * (x.size - 1))
    ensures SameOutside(one, two, y.pos + 1, y.pos + y.size) && SameWords(one, two, x, y)
  {
    var at := 2 * (y.pos + 1);
    forall i: nat | i < 2 * (x.size - 1) && i < 2 * (y.size - 1) ensures Word(two, y.pos, i) == Word(one, x.pos, i) {
      assert two[at + i] == one[2 * (x.pos + 1) + i];
    }
  }

  /** Memory two is one with n words from src copied to dst. */
  ghost predicate Copied(one: seq<int>, two: seq<int>, dst: nat, src: nat, n: nat) {
    && |two| == |one| && dst + n <= |one| && src + n <= |one|
    && (forall i | 0 <= i < dst || dst + n <= i < |one| :: two[i] == one[i])
    && (forall i | dst <= i < dst + n :: two[i] == one[src + (i - dst)])
  }

  lemma MovedFits(was: seq<int>, one: seq<int>, two: seq<int>, mem': seq<int>, bs: seq<Block>, taken: seq<Block>,
                  bs': seq<Block>, k: nat, y: Block, need: nat)
    requires k < |bs| && !bs[k].free && y.size >= need && y !in Lives(bs) && Distinct(bs')
    requires Lives(taken) == Lives(bs) + {y} && Lives(bs') == Lives(taken) - {bs[k]}
    requires Kept(was, one, Lives(bs)) && Kept(one, two, Lives(taken) - {y}) && Kept(two, mem', Lives(bs'))
    requires SameWords(one, two, bs[k], y) && |one| == |two|
    ensures Fits(was, mem', bs, bs', k, need, y.pos + 1)
  {
    hide Distinct, SameData, SameWords;
    var x := bs[k];
    var live := Lives(bs) - {x};
    assert x in Lives(bs) && y in Lives(bs');
    LiveAt(bs', y);
    KeptTrans(was, one, two, Lives(bs), Lives(taken) - {y});
    KeptTrans(was, two, mem', Lives(bs), Lives(bs'));
    assert Lives(bs) * (Lives(taken) - {y}) == Lives(bs) && Lives(bs) * Lives(bs') == live;
    assert Lives(bs') == live + {y};
    assert SameData(was, one, x) && SameData(two, mem', y);
    WordsMoved(was, one, two, mem', x, y);
  }

  lemma WordsMoved(was: seq<int>, one: seq<int>, two: seq<int>, mem': seq<int>, x: Block, y: Block)
    requires SameData(was, one, x) && SameWords(one, two, x, y) && SameData(two, mem', y) && |one| == |two|
    ensures SameWords(was, mem', x, y) && |mem'| == |was|
  {
    forall i: nat | i < 2 * (x.size - 1) && i < 2 * (y.size - 1) ensures Word(mem', y.pos, i) == Word(was, x.pos, i) {
      SameWord(was, one, x, i);
      SameWord(two, mem', y, i);
      assert Word(two, y.pos, i) == Word(one, x.pos, i);
    }
  }

  lemma SameWord(mem: seq<int>, mem': seq<int>, x: Block, i: nat)
    requires SameData(mem, mem', x) && i < 2 * (x.size - 1)
    ensures Word(mem', x.pos, i) == Word(mem, x.pos, i)
  {
  }

  class Pool {
    const size: nat
    const mem: array<int>
    var freeList: int
    ghost var blocks: seq<Block>

    ghost predicate Laid()
      reads this, mem
    {
      State(mem[..], blocks, freeList)
    }

    /** The blocks cover the arena, the free list visits the free ones in order, and no two free
        blocks touch. */
    ghost predicate Valid()
      reads this, mem
    {
      Laid() && Coalesced(blocks) && mem.Length > 0 && size == 8 * mem.Length + 16
    }

    /** The payload at ptr belongs to a block in use. */
    ghost predicate Allocated(ptr: int)
      reads this
    {
      Live(blocks, ptr - 1)
    }

    ghost function BlockOf(ptr: int): Block
      reads this
      requires Allocated(ptr)
    {
      blocks[Index(blocks, ptr - 1)]
    }

    constructor (units: nat)
      requires units >= 3
      ensures Valid() && fresh(mem) && size == 16 * units && blocks == [Block(0, units - 1, true)]
    {
      size := 16 * units;
      mem := new int[2 * (units - 1)];
      freeList := 0;
      blocks := [Block(0, units - 1, true)];
      new;
      mem[0], mem[1] := units - 1, NULL;
      HeldOne(mem[..], blocks[0], NULL);
      TwoBlocks(blocks[0], blocks[0]);
    }

    /** Reads next of the chunk at p. */
    method Link(prev: int, next: int, ghost a: seq<Block>)
      requires prev == Last(a) && (prev != NULL ==> 0 <= 2 * prev + 1 < mem.Length)
      modifies mem, this`freeList
      ensures mem[..] == Linked(old(mem[..]), a, next) && freeList == if prev == NULL then next else old(freeList)
    {
      if prev != NULL { mem[2 * prev + 1] := next; } else { freeList := next; }
    }

    /** Takes need units off the free block at cur. */
    method TakeChunk(prev: int, cur: nat, need: nat, ghost k: nat)
      requires Valid() && k < |blocks| && blocks[k].free && blocks[k].pos == cur && blocks[k].size >= need >= 2
      requires prev == Last(blocks[..k])
      modifies this, mem
      ensures Valid() && blocks == Taken(old(blocks), k, need)
      ensures Kept(old(mem[..]), mem[..], Lives(old(blocks)))
    {
      hide Held, First, Total, Last, Linked, SplitWords, Taken, OthersKept, Kept, Lives, Coalesced, State, Distinct;
      ghost var (was, bs, head) := (mem[..], blocks, freeList);
      Chunk(was, bs, k, head);
      PrevWord(was, bs, k, head);
      var next: int;
      if mem[2 * cur] >= need + 2 {
        next := cur + need;
        mem[2 * next] := mem[2 * cur] - need;
        mem[2 * next + 1] := mem[2 * cur + 1];
        mem[2 * cur] := need;
        SplitWordsAre(was, cur, need, bs[k].size - need, was[2 * cur + 1], cur + bs[k].size);
        assert mem[..] == SplitWords(was, cur, need, bs[k].size - need, was[2 * cur + 1]);
        TakeSplit(was, bs, k, need, head);
      } else {
        next := mem[2 * cur + 1];
        TakeWhole(was, bs, k, need, head);
      }
      Link(prev, next, bs[..k]);
      blocks := Taken(bs, k, need);
      KeptOthers(was, mem[..], bs, k);
      Places(was, bs, head);
      TakenIs(bs, k, need);
    }

    /** First fit. */
    method Malloc(bytes: nat) returns (ptr: int)
      requires Valid()
      modifies this, mem
      ensures Valid()
      ensures ptr == NULL <==> bytes == 0 || bytes >= size || Fit(old(blocks), Need(bytes)) == |old(blocks)|
      ensures ptr == NULL ==> mem[..] == old(mem[..]) && blocks == old(blocks)
      ensures ptr != NULL ==> Handed(old(blocks), blocks, Fit(old(blocks), Need(bytes)), bytes, ptr)
      ensures ptr != NULL ==> Kept(old(mem[..]), mem[..], Lives(old(blocks)))
    {
      hide Held, First, Total, Last, Taken, Kept, Lives, Coalesced, State;
      if bytes == 0 || bytes >= size { return NULL; }
      var need := (bytes + 15) / 16 + 1;
      var prev, cur := NULL, freeList;
      ghost var j := 0;
      FromStart(mem[..], blocks, freeList);
      while cur != NULL
        invariant Valid() && mem[..] == old(mem[..]) && blocks == old(blocks)
        invariant j <= |blocks| && cur == First(blocks[j..], NULL) && prev == Last(blocks[..j])
        invariant forall i | 0 <= i < j :: !(blocks[i].free && blocks[i].size >= need)
        decreases |blocks| - j
      {
        ghost var k := Step(mem[..], blocks, j, freeList);
        if mem[2 * cur] < need {
          prev, cur := cur, mem[2 * cur + 1];
          j := k + 1;
          continue;
        }
        FitIs(blocks, k, need);
        ghost var bs := blocks;
        TakenHands(mem[..], bs, k, need, bytes, freeList);
        TakeChunk(prev, cur, need, k);
        return cur + 1;
      }
      NoneLeft(blocks, j);
      FitIs(blocks, |blocks|, need);
      return NULL;
    }
 
    /** The free blocks on either side of the block at cur. */
    method Around(cur: nat, ghost k: nat) returns (prev: int, next: int)
      requires Laid() && k < |blocks| && !blocks[k].free && blocks[k].pos == cur
      ensures prev == Last(blocks[..k]) && next == First(blocks[k + 1..], NULL)
    {
      hide Held, First, Total, Last, State;
      prev, next := NULL, freeList;
      ghost var j := 0;
      FromStart(mem[..], blocks, freeList);
      while next != NULL && next < cur
        invariant j <= k && next == First(blocks[j..], NULL) && prev == Last(blocks[..j])
        decreases k - j
      {
        ghost var n := Step(mem[..], blocks, j, freeList);
        Order(mem[..], blocks, n, k, freeList);
        prev, next := next, mem[2 * next + 1];
        j := n + 1;
      }
      Between(mem[..], blocks, j, k, freeList);
    }

    /** The free block at p takes in the free one after it at q. */
    method Absorb(p: nat, q: nat, ghost k: nat)
      requires Laid() && k + 1 < |blocks| && blocks[k].free && blocks[k + 1].free && blocks[k].pos == p
          && blocks[k + 1].pos == q
      modifies mem, this`blocks
      ensures forall i | 0 <= i < mem.Length && i != 2 * p && i != 2 * p + 1 :: mem[i] == old(mem[i])
      ensures Laid() && blocks == Merged(old(blocks), k) && Kept(old(mem[..]), mem[..], Lives(old(blocks)))
    {
      hide Held, First, Total, Last, OthersKept, Kept, Lives, State;
      ghost var (was, bs) := (mem[..], blocks);
      Chunk(was, bs, k, freeList);
      Chunk(was, bs, k + 1, freeList);
      mem[2 * p] := mem[2 * p] + mem[2 * q];
      mem[2 * p + 1] := mem[2 * q + 1];
      Merge(was, bs, k, freeList);
      assert mem[..] == SetNext(SetSize(was, p, SizeOf(was, p) + SizeOf(was, q)), p, NextOf(was, q));
      blocks := Merged(bs, k);
      KeptOthers(was, mem[..], bs, k);
    }

    /** Puts the block at cur in the free list. */
    method Enlist(cur: nat, prev: int, next: int, ghost k: nat)
      requires Laid() && k < |blocks| && !blocks[k].free && blocks[k].pos == cur
      requires prev == Last(blocks[..k]) && next == First(blocks[k + 1..], NULL)
      modifies this, mem
      ensures Laid() && blocks == Unused(old(blocks), k)
      ensures forall i | 0 <= i < mem.Length && i != 2 * cur + 1 && i != 2 * prev + 1 :: mem[i] == old(mem[i])
      ensures Kept(old(mem[..]), mem[..], Lives(old(blocks)) - {old(blocks)[k]})
    {
      hide Held, First, Total, Last, OthersKept, Kept, Lives, State, Unused;
      ghost var (was, bs, head) := (mem[..], blocks, freeList);
      Chunk(was, bs, k, head);
      PrevWord(was, bs, k, head);
      Link(prev, cur, bs[..k]);
      mem[2 * cur + 1] := next;
      assert mem[..] == Linked(SetNext(was, cur, next), bs[..k], cur);
      Unlink(was, bs, k, head);
      blocks := Unused(bs, k);
      KeptOthers(was, mem[..], bs, k);
    }

    method Release(cur: nat, ghost k: nat)
      requires Valid() && k < |blocks| && !blocks[k].free && blocks[k].pos == cur
      modifies this, mem
      ensures Valid() && blocks == Freed(old(blocks), k)
      ensures Kept(old(mem[..]), mem[..], Lives(old(blocks)) - {old(blocks)[k]})
    {
      hide Held, First, Total, Last, OthersKept, Kept, Lives, State, Coalesced, Distinct, Unused, Merged, MergedNext,
          Freed;
      var prev, next := Around(cur, k);
      ghost var (was, bs, live) := (mem[..], blocks, Lives(blocks) - {blocks[k]});
      Neighbours(was, bs, k, freeList);
      Stages(bs, k);
      Chunk(was, bs, k, freeList);
      PrevWord(was, bs, k, freeList);
      Places(was, bs, freeList);
      assert live * live == live;
      Enlist(cur, prev, next, k);
      UnusedLives(bs, k);
      Chunk(mem[..], blocks, k, freeList);
      if next != NULL && cur + mem[2 * cur] == next {
        ghost var mid := mem[..];
        Places(mid, blocks, freeList);
        MergedLives(blocks, k);
        Absorb(cur, next, k);
        KeptTrans(was, mid, mem[..], live, live);
      }
      assert blocks == MergedNext(bs, k) && Lives(blocks) == live && Kept(was, mem[..], live);
      if prev != NULL && prev + mem[2 * prev] == cur {
        ghost var mid := mem[..];
        Places(mid, blocks, freeList);
        MergedLives(blocks, k - 1);
        Absorb(prev, cur, k - 1);
        KeptTrans(was, mid, mem[..], live, live);
      }
      FreedIs(bs, k);
    }

    method Free(ptr: int)
      requires Valid() && Allocated(ptr)
      modifies this, mem
      ensures Valid() && blocks == Freed(old(blocks), Index(old(blocks), ptr - 1))
      ensures Lives(blocks) == Lives(old(blocks)) - {old(BlockOf(ptr))}
      ensures Kept(old(mem[..]), mem[..], Lives(blocks))
    {
      hide Held, First, Total, Last, Kept, Lives, State, Coalesced, Freed, Distinct;
      ghost var k := Index(blocks, ptr - 1);
      Places(mem[..], blocks, freeList);
      FreedLives(blocks, k);
      Release(ptr - 1, k);
    }
 
    /** Gives back what block k does not need, if that makes a block. */
    method Shrink(cur: nat, need: nat, ghost k: nat)
      requires Valid() && k < |blocks| && !blocks[k].free && blocks[k].pos == cur && 2 <= need <= blocks[k].size
      modifies this, mem
      ensures Valid() && blocks == (if old(blocks)[k].size >= need + 2 then Freed(Cut(old(blocks), k, need), k + 1)
          else old(blocks))
      ensures Fits(old(mem[..]), mem[..], old(blocks), blocks, k, need, cur + 1)
    {
      hide Held, First, Total, Last, OthersKept, Kept, Lives, State, Coalesced, Distinct, Cut, Freed, Fits;
      ghost var (was, bs, head) := (mem[..], blocks, freeList);
      Chunk(was, bs, k, head);
      var free := mem[2 * cur] - need;
      if free >= 2 {
        ghost var y := Block(cur, need, false);
        mem[2 * (cur + need)] := free;
        mem[2 * cur] := need;
        assert mem[..] == SetSize(SetSize(was, cur + need, free), cur, need);
        CutStep(was, bs, k, need, freeList);
        Places(was, bs, freeList);
        ghost var mid := mem[..];
        blocks := Cut(bs, k, need);
        CutIs(bs, k, need);
        FreedLives(blocks, k + 1);
        Release(cur + need, k + 1);
        Places(mem[..], blocks, freeList);
        ShrunkFits(was, mid, mem[..], bs, blocks, k, need, head);
      } else {
        Places(was, bs, freeList);
        SameFits(was, bs, k, need);
      }
    }

    /** Takes the free block after block k, leaving what is not needed. */
    method Grow(cur: nat, prev: int, next: nat, need: nat, ghost k: nat)
      requires Valid() && k < |blocks| && !blocks[k].free && blocks[k].pos == cur && need > blocks[k].size
      requires CanGrow(blocks, k, need) && next == blocks[k + 1].pos && prev == Last(blocks[..k])
      modifies this, mem
      ensures Valid() && blocks == Grown(old(blocks), k, need)
      ensures Fits(old(mem[..]), mem[..], old(blocks), blocks, k, need, cur + 1)
    {
      hide Held, First, Total, Last, OthersKept, Kept, Lives, State, Coalesced, Distinct, Grown, Fits, SplitWords,
          SameData;
      ghost var (was, bs) := (mem[..], blocks);
      Chunk(was, bs, k, freeList);
      Chunk(was, bs, k + 1, freeList);
      Places(was, bs, freeList);
      GrownIs(bs, k, need);
      if mem[2 * cur] + mem[2 * next] - need > 2 {
        TakePart(cur, prev, next, need, k);
      } else {
        TakeAll(cur, prev, next, need, k);
      }
      KeptOthers(was, mem[..], bs, k);
      Places(mem[..], blocks, freeList);
      GrownFits(was, mem[..], bs, k, need);
    }

    method TakePart(cur: nat, prev: int, next: nat, need: nat, ghost k: nat)
      requires Laid() && k < |blocks| && !blocks[k].free && blocks[k].pos == cur && need > blocks[k].size
      requires CanGrow(blocks, k, need) && next == blocks[k + 1].pos && prev == Last(blocks[..k])
      requires blocks[k].size + blocks[k + 1].size > need + 2
      modifies this, mem
      ensures Laid() && blocks == Grown(old(blocks), k, need)
      ensures OthersKept(old(mem[..]), mem[..], old(blocks), k) && SameData(old(mem[..]), mem[..], old(blocks)[k])
    {
      hide Held, First, Total, Last, OthersKept, State, Grown, SplitWords, SameData;
      ghost var (was, bs, head) := (mem[..], blocks, freeList);
      Chunk(was, bs, k, head);
      Chunk(was, bs, k + 1, head);
      PrevWord(was, bs, k, head);
      Beside(was, bs, k, head);
      var tmp := cur + need;
      var free := mem[2 * cur] + mem[2 * next] - need;
      Link(prev, tmp, bs[..k]);
      mem[2 * tmp + 1] := mem[2 * next + 1];
      mem[2 * tmp] := free;
      mem[2 * cur] := need;
      SplitWordsAre(was, cur, need, free, was[2 * next + 1], next + bs[k + 1].size);
      assert mem[..] == Linked(SplitWords(was, cur, need, free, was[2 * next + 1]), bs[..k], tmp);
      GrowSplit(was, bs, k, need, head);
      blocks := Grown(bs, k, need);
    }

    method TakeAll(cur: nat, prev: int, next: nat, need: nat, ghost k: nat)
      requires Laid() && k < |blocks| && !blocks[k].free && blocks[k].pos == cur && need > blocks[k].size
      requires CanGrow(blocks, k, need) && next == blocks[k + 1].pos && prev == Last(blocks[..k])
      requires blocks[k].size + blocks[k + 1].size <= need + 2
      modifies this, mem
      ensures Laid() && blocks == Grown(old(blocks), k, need)
      ensures OthersKept(old(mem[..]), mem[..], old(blocks), k) && SameData(old(mem[..]), mem[..], old(blocks)[k])
    {
      hide Held, First, Total, Last, OthersKept, State, Grown, SameData;
      ghost var (was, bs, head) := (mem[..], blocks, freeList);
      Chunk(was, bs, k, head);
      Chunk(was, bs, k + 1, head);
      PrevWord(was, bs, k, head);
      Beside(was, bs, k, head);
      Link(prev, mem[2 * next + 1], bs[..k]);
      mem[2 * cur] := mem[2 * cur] + mem[2 * next];
      assert mem[..] == Linked(SetSize(was, cur, bs[k].size + bs[k + 1].size), bs[..k], was[2 * next + 1]);
      GrowWhole(was, bs, k, need, head);
      blocks := Grown(bs, k, need);
    }

    /** The words at src to those at dst. */
    method CopyWords(dst: nat, src: nat, n: nat)
      requires dst + n <= mem.Length && src + n <= mem.Length && (dst + n <= src || src + n <= dst)
      modifies mem
      ensures Copied(old(mem[..]), mem[..], dst, src, n)
    {
      for l := 0 to n
        invariant Copied(old(mem[..]), mem[..], dst, src, l)
      {
        mem[dst + l] := mem[src + l];
      }
    }

    /** Moves block k to a new place. */
    method Move(ptr: nat, need: nat, ghost k: nat) returns (ptr': int)
      requires Valid() && k < |blocks| && !blocks[k].free && blocks[k].pos + 1 == ptr && need > blocks[k].size
          && need >= 2
      modifies this, mem
      ensures Valid() && (ptr' == NULL <==> Fit(old(blocks), need) == |old(blocks)|)
          && blocks == Moved(old(blocks), k, need)
      ensures ptr' == NULL ==> mem[..] == old(mem[..]) && blocks == old(blocks)
      ensures ptr' != NULL ==> Fits(old(mem[..]), mem[..], old(blocks), blocks, k, need, ptr')
    {
      hide Held, First, Total, Last, OthersKept, Kept, Lives, State, Coalesced, Distinct, Fits, Freed, Taken, Handed,
          SameData;
      ghost var (was, bs) := (mem[..], blocks);
      NeedBack(was, bs, need, freeList);
      ptr' := Malloc(16 * (need - 1));
      if ptr' != NULL {
        ghost var (one, taken, x) := (mem[..], blocks, bs[k]);
        Places(one, taken, freeList);
        ghost var y := NewBlock(bs, taken, Fit(bs, need), 16 * (need - 1), ptr', x);
        ghost var ix, iy := Apart(one, taken, freeList, x, y);
        CopyWords(2 * ptr', 2 * ptr, 2 * (mem[2 * (ptr - 1)] - 1));
        CopiedOutside(one, mem[..], x, y);
        Fill(one, mem[..], taken, iy, freeList);
        KeptOthers(one, mem[..], taken, iy);
        ghost var two := mem[..];
        Free(ptr);
        Places(mem[..], blocks, freeList);
        MovedFits(was, one, two, mem[..], bs, taken, blocks, k, y, need);
      }
    }

    method Realloc(ptr: int, bytes: nat) returns (ptr': int)
      requires Valid() && Allocated(ptr)
      modifies this, mem
      ensures Valid()
      ensures var k := Index(old(blocks), ptr - 1);
        ptr' == NULL <==> bytes == 0 || bytes >= size || !Room(old(blocks), k, Need(bytes))
      ensures ptr' == NULL ==> mem[..] == old(mem[..]) && blocks == old(blocks)
      ensures ptr' != NULL ==>
        var k := Index(old(blocks), ptr - 1);
        blocks == Resized(old(blocks), k, Need(bytes))
            && Fits(old(mem[..]), mem[..], old(blocks), blocks, k, Need(bytes), ptr')
    {
      hide Held, First, Total, Last, State, Coalesced, Fits, Freed, Cut, Grown, Moved;
      if bytes == 0 || bytes >= size { return NULL; }
      var need := (bytes + 15) / 16 + 1;
      var cur := ptr - 1;
      ghost var (k, bs) := (Index(blocks, cur), blocks);
      Chunk(mem[..], blocks, k, freeList);
      if need <= mem[2 * cur] {
        Shrink(cur, need, k);
        return ptr;
      }
      var prev, next := Around(cur, k);
      Neighbours(mem[..], blocks, k, freeList);
      if k + 1 < |blocks| { Chunk(mem[..], blocks, k + 1, freeList); }
      if cur + mem[2 * cur] == next && mem[2 * cur] + mem[2 * next] >= need {
        Grow(cur, prev, next, need, k);
        return ptr;
      }
      ptr' := Move(ptr, need, k);
    }
  }
  /** Makes a pool of a buffer of size bytes that begins shift bytes before a multiple of sixteen;
      the context takes the first unit. */
  method PoolInit(size: nat, shift: nat) returns (pool: Pool?)
    requires shift < 16
    ensures pool == null <==> size < 64
    ensures pool != null ==> fresh(pool) && fresh(pool.mem) && pool.Valid()
    ensures pool != null ==>
        pool.size + shift <= size < pool.size + shift + 16
        && pool.blocks == [Block(0, pool.size / 16 - 1, true)]
  {
    if size < 64 { return null; }
    pool := new Pool((size - shift) / 16);
  }
}
