/** Mutable documents: values linked in circular lists of siblings, and yyjson_val_mut_copy, which
    makes one from the flat pre-order form. */
module JsonMutable {
  import opened Bytes
  import opened JsonDoc

  /** A mutable value. The last field of a container's cell is the place of its last element or
      last key. */
  datatype Node = Node(tok: Tok<seq<u8>>, next: int)

  function NextOf(m: seq<Node>, p: int): int { if 0 <= p < |m| then m[p].next else 0 }

  function Hop(m: seq<Node>, p: int, n: nat): int
    decreases n
  {
    if n == 0 then p else Hop(m, NextOf(m, p), n - 1)
  }

  /** The first item of a container, from its last element or last key. */
  function HeadOf(m: seq<Node>, obj: bool, tail: int): int {
    if obj then NextOf(m, NextOf(m, tail)) else NextOf(m, tail)
  }

  /** The value at p, with everything linked below it, is v. */
  ghost predicate Links(m: seq<Node>, p: int, v: Value)
    decreases v
  {
    && 0 <= p < |m|
    && if v.Container? then
         && m[p].tok.TCtn? && m[p].tok.obj == v.obj && m[p].tok.len == Count(v.obj, |v.items|)
         && (v.items != [] ==>
               var first := HeadOf(m, v.obj, m[p].tok.ofs);
               && Chain(m, first, v.items)
               && Hop(m, first, |v.items|) == first
               && (|v.items| > 1 || !v.obj ==> m[p].tok.ofs == Hop(m, first, |v.items| - if v.obj then 2 else 1)))
       else m[p].tok == Flat(v)[0]
  }

  /** From p on, one after the other, come items. */
  ghost predicate Chain(m: seq<Node>, p: int, items: seq<Value>)
    decreases items
  {
    items == [] || (Links(m, p, items[0]) && Chain(m, NextOf(m, p), items[1..]))
  }

  /** Objects hold keys and values in pairs, and the keys are strings. */
  predicate Paired(v: Value)
    decreases v
  {
    v.Container? ==>
      && (v.obj ==> |v.items| % 2 == 0 && forall i | 0 <= i < |v.items| && i % 2 == 0 :: v.items[i].Str?)
      && forall i | 0 <= i < |v.items| :: Paired(v.items[i])
  }

  // ---- the result of the copy

  /** A value to be copied to place pos, followed by the one at place next. */
  datatype Todo = Todo(v: Value, pos: nat, next: int)

  function Kids(items: seq<Value>, at: nat, first: int): (r: seq<Todo>)
    ensures |r| == |items|
  {
    if items == [] then [] else
      var end := at + |Flat(items[0])|;
      [Todo(items[0], at, if |items| == 1 then first else end)] + Kids(items[1..], end, first)
  }

  /** Where the last element, or the last key, of a container is. */
  function TailOf(obj: bool, items: seq<Value>, at: nat): nat
    requires items != [] && (obj ==> |items| > 1)
  {
    Kids(items, at, at)[|items| - if obj then 2 else 1].pos
  }

  /** The cell of a container at p, or of a scalar. */
  function Cell(v: Value, p: nat): Tok<seq<u8>> {
    if v.Container? && v.items != [] && (v.obj ==> |v.items| > 1)
    then TCtn(v.obj, Count(v.obj, |v.items|), TailOf(v.obj, v.items, p + 1)) else Flat(v)[0]
  }

  /** v copied to place p. */
  function Copied(v: Value, p: nat, next: int): (r: seq<Node>)
    ensures |r| == |Flat(v)|
    decreases v, 1
  {
    var inner := if v.Container? then CopiedAll(v.items, p + 1, p + 1) else [];
    FlatHeadSize(v);
    [Node(Cell(v, p), next)] + inner
  }

  function CopiedAll(items: seq<Value>, at: nat, first: int): (r: seq<Node>)
    ensures |r| == |FlatAll(items)|
    decreases items, 0
  {
    if items == [] then [] else
      var end := at + |Flat(items[0])|;
      Copied(items[0], at, if |items| == 1 then first else end) + CopiedAll(items[1..], end, first)
  }

  lemma FlatHeadSize(v: Value)
    ensures |Flat(v)| == if v.Container? then 1 + |FlatAll(v.items)| else 1
  {
  }

  // ---- the copy is linked as the document is

  lemma {:induction false} HopStep(m: seq<Node>, p: int, n: nat)
    ensures Hop(m, p, n + 1) == NextOf(m, Hop(m, p, n))
    decreases n
  {
    if n > 0 { HopStep(m, NextOf(m, p), n - 1); }
  }

  ghost predicate Holds(m: seq<Node>, p: nat, s: seq<Node>) { p + |s| <= |m| && m[p..p + |s|] == s }

  lemma HoldsParts(m: seq<Node>, p: nat, a: seq<Node>, b: seq<Node>)
    requires Holds(m, p, a + b)
    ensures Holds(m, p, a) && Holds(m, p + |a|, b)
  {
    assert m[p..p + |a|] == m[p..p + |a + b|][..|a|];
    assert m[p + |a|..p + |a| + |b|] == m[p..p + |a + b|][|a|..];
  }

  lemma {:induction false} CopyLinks(m: seq<Node>, v: Value, p: nat, next: int)
    requires Paired(v) && Holds(m, p, Copied(v, p, next))
    ensures Links(m, p, v) && NextOf(m, p) == next
    decreases v, 1
  {
    hide Flat, Hop, Links, Chain, Kids, CopiedAll, Cell;
    FlatHeadSize(v);
    assert m[p] == m[p..p + |Copied(v, p, next)|][0] == Node(Cell(v, p), next);
    ScalarCell(v, p);
    if v.Container? && v.items != [] {
      HoldsParts(m, p, [Node(Cell(v, p), next)], CopiedAll(v.items, p + 1, p + 1));
      CopyChain(m, v.items, p + 1, p + 1);
      ContainerLinks(m, v, p, p + 1);
    } else {
      LeafLinks(m, v, p);
    }
  }

  lemma LeafLinks(m: seq<Node>, v: Value, p: nat)
    requires p < |m| && m[p].tok == Flat(v)[0] && (v.Container? ==> v.items == [])
    ensures Links(m, p, v)
  {
  }

  lemma ContainerLinks(m: seq<Node>, v: Value, p: nat, at: nat)
    requires p < |m| && at == p + 1 && m[p].tok == Cell(v, p) && v.Container? && v.items != []
        && (v.obj ==> |v.items| > 1)
    requires Chain(m, at, v.items) && Hop(m, at, |v.items|) == at
    requires forall j | 0 <= j < |v.items| :: Hop(m, at, j) == Kids(v.items, at, at)[j].pos
    ensures Links(m, p, v)
  {
    hide Flat, Hop, Chain, Kids, Cell;
    ScalarCell(v, p);
    var n := |v.items|;
    HopStep(m, at, n - 1);
    if v.obj { HopStep(m, at, n - 2); }
    var back := if v.obj then 2 else 1;
    assert Hop(m, at, n - back) == m[p].tok.ofs;
    assert HeadOf(m, v.obj, m[p].tok.ofs) == at;
  }

  lemma ScalarCell(v: Value, p: nat)
    ensures !v.Container? || v.items == [] ==> Cell(v, p) == Flat(v)[0]
    ensures v.Container? ==> Cell(v, p).TCtn? && Cell(v, p).obj == v.obj && Cell(v, p).len == Count(v.obj, |v.items|)
    ensures v.Container? && v.items != [] && (v.obj ==> |v.items| > 1) ==>
        Cell(v, p).ofs == TailOf(v.obj, v.items, p + 1)
  {
  }

  lemma {:induction false} CopyChain(m: seq<Node>, items: seq<Value>, at: nat, first: int)
    requires items != [] && (forall i | 0 <= i < |items| :: Paired(items[i]))
        && Holds(m, at, CopiedAll(items, at, first))
    ensures Chain(m, at, items) && Hop(m, at, |items|) == first
    ensures forall j | 0 <= j < |items| :: Hop(m, at, j) == Kids(items, at, first)[j].pos
    decreases items, 0
  {
    var end := at + |Flat(items[0])|;
    var next := if |items| == 1 then first else end;
    hide Flat, Paired, Copied;
    HoldsParts(m, at, Copied(items[0], at, next), CopiedAll(items[1..], end, first));
    CopyLinks(m, items[0], at, next);
    if |items| > 1 {
      CopyChain(m, items[1..], end, first);
    }
  }

  // ---- copying

  function CopiedTodo(td: seq<Todo>): seq<Node> {
    if td == [] then [] else Copied(td[0].v, td[0].pos, td[0].next) + CopiedTodo(td[1..])
  }

  function FlatTodo(td: seq<Todo>): seq<Tok<seq<u8>>> {
    if td == [] then [] else Flat(td[0].v) + FlatTodo(td[1..])
  }

  /** The places follow one another from at on to end. */
  ghost predicate InRow(td: seq<Todo>, at: nat, end: nat) {
    if td == [] then at == end
    else
      var next := at + |Flat(td[0].v)|;
      td[0].pos == at && next <= end && InRow(td[1..], next, end)
  }

  lemma {:induction false} TodoAppend(a: seq<Todo>, b: seq<Todo>)
    ensures CopiedTodo(a + b) == CopiedTodo(a) + CopiedTodo(b) && FlatTodo(a + b) == FlatTodo(a) + FlatTodo(b)
    decreases |a|
  {
    hide Copied, Flat;
    if a == [] {
      assert a + b == b;
    } else {
      assert (a + b)[0] == a[0] && (a + b)[1..] == a[1..] + b;
      TodoAppend(a[1..], b);
    }
  }

  lemma {:induction false} InRowAppend(a: seq<Todo>, b: seq<Todo>, at: nat, mid: nat, end: nat)
    requires InRow(a, at, mid) && InRow(b, mid, end)
    ensures InRow(a + b, at, end) && at <= mid <= end
    decreases |a|
  {
    hide Flat, CopiedTodo, FlatTodo;
    InRowOrder(b, mid, end);
    if a == [] {
      assert a + b == b;
    } else {
      assert (a + b)[0] == a[0] && (a + b)[1..] == a[1..] + b;
      InRowAppend(a[1..], b, at + |Flat(a[0].v)|, mid, end);
    }
  }

  lemma {:induction false} InRowOrder(td: seq<Todo>, at: nat, end: nat)
    requires InRow(td, at, end)
    ensures at <= end && |CopiedTodo(td)| == end - at == |FlatTodo(td)|
    ensures forall k | 0 <= k < |td| :: at <= td[k].pos < end
    decreases |td|
  {
    if td != [] {
      hide Copied, Flat;
      InRowOrder(td[1..], at + |Flat(td[0].v)|, end);
      forall k | 0 <= k < |td| ensures at <= td[k].pos < end {
        if k > 0 { assert td[k] == td[1..][k - 1]; }
      }
    }
  }

  lemma {:induction false} KidsTodo(items: seq<Value>, at: nat, first: int)
    ensures CopiedTodo(Kids(items, at, first)) == CopiedAll(items, at, first)
        && FlatTodo(Kids(items, at, first)) == FlatAll(items)
    ensures InRow(Kids(items, at, first), at, at + |FlatAll(items)|)
    decreases |items|
  {
    hide Copied, Flat, InRow;
    if items == [] {
      RowNone(at);
    } else {
      var end := at + |Flat(items[0])|;
      var kids := Kids(items, at, first);
      KidsTodo(items[1..], end, first);
      assert kids[1..] == Kids(items[1..], end, first);
      assert |FlatAll(items)| == |Flat(items[0])| + |FlatAll(items[1..])|;
      hide Kids, CopiedTodo, CopiedAll, FlatTodo, FlatAll;
      RowFront(kids, at, at + |FlatAll(items)|);
    }
  }

  lemma RowNone(at: nat)
    ensures InRow([], at, at)
  {
  }

  lemma RowFront(td: seq<Todo>, at: nat, end: nat)
    requires td != [] && td[0].pos == at && at + |Flat(td[0].v)| <= end
    requires InRow(td[1..], at + |Flat(td[0].v)|, end)
    ensures InRow(td, at, end)
  {
    hide Flat;
  }

  /** unsafe_yyjson_get_next, as a distance. */
  function Step(t: Tok<seq<u8>>): nat { if t.TCtn? then t.ofs else 1 }

  lemma HeadStep(v: Value)
    ensures Step(Flat(v)[0]) == |Flat(v)|
  {
  }

  /** Where the items of a container are, in the copy and in the original. */
  ghost predicate KidsAt(vals: seq<Tok<seq<u8>>>, base: nat, kids: seq<Todo>, at: nat, first: int, end: nat) {
    && base + end <= |vals|
    && (forall k | 0 <= k < |kids| :: at <= kids[k].pos < end && vals[base + kids[k].pos] == Flat(kids[k].v)[0])
    && (forall k | 0 <= k < |kids| - 1 :: kids[k].next == kids[k + 1].pos == kids[k].pos + |Flat(kids[k].v)|)
    && (kids != [] ==> kids[0].pos == at && kids[|kids| - 1].next == first)
  }

  lemma {:induction false} KidsPlaces(vals: seq<Tok<seq<u8>>>, base: nat, items: seq<Value>, at: nat, first: int)
    requires base + at + |FlatAll(items)| <= |vals| && vals[base + at..base + at + |FlatAll(items)|] == FlatAll(items)
    ensures KidsAt(vals, base, Kids(items, at, first), at, first, at + |FlatAll(items)|)
    decreases |items|
  {
    hide Flat, KidsAt;
    if items == [] {
      NoKids(vals, base, at, first);
    } else {
      var (head, inner) := (Flat(items[0]), FlatAll(items[1..]));
      var end := at + |head|;
      InnerSlice(vals, base + at, head, inner);
      KidsPlaces(vals, base, items[1..], end, first);
      var x := Todo(items[0], at, if |items| == 1 then first else end);
      KidsStep(vals, base, x, Kids(items[1..], end, first), at, first, end + |inner|);
    }
  }

  lemma NoKids(vals: seq<Tok<seq<u8>>>, base: nat, at: nat, first: int)
    requires base + at <= |vals|
    ensures KidsAt(vals, base, [], at, first, at)
  {
  }

  lemma InnerSlice(vals: seq<Tok<seq<u8>>>, p: nat, head: seq<Tok<seq<u8>>>, inner: seq<Tok<seq<u8>>>)
    requires p + |head + inner| <= |vals| && vals[p..p + |head + inner|] == head + inner && head != []
    ensures vals[p + |head|..p + |head| + |inner|] == inner && vals[p] == head[0]
  {
    var all := vals[p..p + |head + inner|];
    assert vals[p + |head|..p + |head| + |inner|] == all[|head|..] == inner;
    assert vals[p] == all[0];
  }

  lemma KidsStep(vals: seq<Tok<seq<u8>>>, base: nat, x: Todo, more: seq<Todo>, at: nat, first: int, end: nat)
    requires KidsAt(vals, base, more, at + |Flat(x.v)|, first, end) && x.pos == at && at + |Flat(x.v)| <= end
    requires vals[base + at] == Flat(x.v)[0] && x.next == if more == [] then first else at + |Flat(x.v)|
    ensures KidsAt(vals, base, [x] + more, at, first, end)
  {
    hide Flat;
    var kids := [x] + more;
    forall k | 0 <= k < |kids| ensures at <= kids[k].pos < end && vals[base + kids[k].pos] == Flat(kids[k].v)[0] {
      if k > 0 { assert kids[k] == more[k - 1]; }
    }
    forall k | 0 <= k < |kids| - 1 ensures kids[k].next == kids[k + 1].pos == kids[k].pos + |Flat(kids[k].v)| {
      if k > 0 { assert kids[k] == more[k - 1] && kids[k + 1] == more[k]; }
    }
  }

  lemma {:induction false} KidsValues(items: seq<Value>, at: nat, first: int)
    ensures forall k | 0 <= k < |items| :: Kids(items, at, first)[k].v == items[k]
  {
    hide Flat;
    if items != [] {
      KidsValues(items[1..], at + |Flat(items[0])|, first);
      forall k | 0 <= k < |items| ensures Kids(items, at, first)[k].v == items[k] {
        if k > 0 { assert Kids(items, at, first)[k] == Kids(items[1..], at + |Flat(items[0])|, first)[k - 1]; }
      }
    }
  }

  /** The copy to be made is all; what precedes i is done, the values td remain, and they are
      linked already. */
  ghost predicate Work(m: seq<Node>, all: seq<Node>, td: seq<Todo>, i: nat, vals: seq<Tok<seq<u8>>>, base: nat) {
    && |all| == |m| && i <= |m| && m[..i] == all[..i] && all[i..] == CopiedTodo(td) && InRow(td, i, |m|)
    && base + |m| <= |vals| && vals[base + i..base + |m|] == FlatTodo(td)
    && (forall k | 0 <= k < |td| :: 0 <= td[k].pos < |m| && m[td[k].pos].next == td[k].next && Paired(td[k].v))
  }

  lemma WorkStart(m: seq<Node>, v: Value, vals: seq<Tok<seq<u8>>>, base: nat, next: int)
    requires |m| == |Flat(v)| && base + |m| <= |vals| && vals[base..base + |m|] == Flat(v) && Paired(v)
        && m[0].next == next
    ensures Work(m, Copied(v, 0, next), [Todo(v, 0, next)], 0, vals, base)
  {
    hide Flat, Copied, Paired;
    var td := [Todo(v, 0, next)];
    assert td[1..] == [];
    assert CopiedTodo(td[1..]) == [] && FlatTodo(td[1..]) == [] && td[0] == Todo(v, 0, next);
    assert CopiedTodo(td) == Copied(v, 0, next) + [] && FlatTodo(td) == Flat(v) + [];
    assert Copied(v, 0, next) + [] == Copied(v, 0, next) && Flat(v) + [] == Flat(v);
    assert Copied(v, 0, next)[0..] == Copied(v, 0, next) == CopiedTodo(td) && FlatTodo(td) == Flat(v);
    assert vals[base + 0..base + |m|] == Flat(v) && InRow(td, 0, |m|);
  }

  /** The value at i. */
  lemma WorkFront(m: seq<Node>, all: seq<Node>, td: seq<Todo>, i: nat, vals: seq<Tok<seq<u8>>>, base: nat)
    requires Work(m, all, td, i, vals, base) && i < |m|
    ensures base + |m| <= |vals| && |all| == |m|
    ensures td != [] && var v := td[0].v;
      && vals[base + i] == Flat(v)[0] && all[i] == Node(Cell(v, i), m[i].next) && Paired(v) && td[0].pos == i
      && i + |Flat(v)| <= |m| && vals[base + i..base + i + |Flat(v)|] == Flat(v)
      && vals[base + i + |Flat(v)|..base + |m|] == FlatTodo(td[1..]) && InRow(td[1..], i + |Flat(v)|, |m|)
      && all[i..] == Copied(v, i, td[0].next) + CopiedTodo(td[1..])
  {
    hide Flat, Paired;
    var v := td[0].v;
    var n := |Flat(v)|;
    assert all[i] == all[i..][0] == Copied(v, i, td[0].next)[0];
    hide Copied;
    var rest := vals[base + i..base + |m|];
    assert rest == Flat(v) + FlatTodo(td[1..]);
    assert vals[base + i..base + i + n] == rest[..n] && vals[base + i + n..base + |m|] == rest[n..];
    assert vals[base + i] == rest[0];
  }

  /** After the value at i, with its items, if any, linked. */
  lemma WorkStep(m: seq<Node>, m': seq<Node>, all: seq<Node>, td: seq<Todo>, i: nat, vals: seq<Tok<seq<u8>>>, base: nat,
                 kids: seq<Todo>)
    requires Work(m, all, td, i, vals, base) && i < |m| == |m'| && td != []
    requires kids == if td[0].v.Container? then Kids(td[0].v.items, i + 1, i + 1) else []
    requires m'[..i] == m[..i] && m'[i] == all[i] && i + |Flat(td[0].v)| <= |m|
    requires forall k | i + |Flat(td[0].v)| <= k < |m| :: m'[k] == m[k]
    requires forall k | 0 <= k < |kids| :: 0 <= kids[k].pos < |m| && m'[kids[k].pos].next == kids[k].next
    ensures Work(m', all, kids + td[1..], i + 1, vals, base)
  {
    hide Flat, Paired, Copied, Kids, Cell, Work;
    var (v, rest) := (td[0].v, td[1..]);
    WorkRows(m, all, td, i, vals, base, kids);
    WorkLinks(m, m', all, td, i, vals, base, kids);
    WorkIntro(m, m', all, td, i, vals, base, kids);
  }

  lemma WorkIntro(m: seq<Node>, m': seq<Node>, all: seq<Node>, td: seq<Todo>, i: nat, vals: seq<Tok<seq<u8>>>,
                  base: nat, kids: seq<Todo>)
    requires Work(m, all, td, i, vals, base) && i < |m| == |m'| && td != []
    requires m'[..i] == m[..i] && m'[i] == all[i]
    requires all[i + 1..] == CopiedTodo(kids + td[1..]) && vals[base + i + 1..base + |m|] == FlatTodo(kids + td[1..])
    requires InRow(kids + td[1..], i + 1, |m|)
    requires forall k | 0 <= k < |kids + td[1..]| :: Linked(m', (kids + td[1..])[k])
    ensures Work(m', all, kids + td[1..], i + 1, vals, base)
  {
    hide Flat, Paired, Copied, Kids, Cell, CopiedTodo, FlatTodo, InRow;
    assert m'[..i + 1] == m'[..i] + [m'[i]] == all[..i] + [all[i]] == all[..i + 1];
    forall k | 0 <= k < |kids + td[1..]|
      ensures var t := (kids + td[1..])[k]; 0 <= t.pos < |m| && m'[t.pos].next == t.next && Paired(t.v)
    {
      assert Linked(m', (kids + td[1..])[k]);
    }
  }

  ghost predicate Linked(m: seq<Node>, t: Todo) { t.pos < |m| && m[t.pos].next == t.next && Paired(t.v) }

  lemma WorkRows(m: seq<Node>, all: seq<Node>, td: seq<Todo>, i: nat, vals: seq<Tok<seq<u8>>>, base: nat,
                 kids: seq<Todo>)
    requires Work(m, all, td, i, vals, base) && i < |m| && td != []
    requires kids == if td[0].v.Container? then Kids(td[0].v.items, i + 1, i + 1) else []
    ensures |all| == |m| && base + |m| <= |vals|
    ensures all[i + 1..] == CopiedTodo(kids + td[1..]) && vals[base + i + 1..base + |m|] == FlatTodo(kids + td[1..])
    ensures InRow(kids + td[1..], i + 1, |m|)
  {
    hide Flat, Paired, Copied, Kids, Cell, CopiedTodo, FlatTodo, InRow;
    WorkFront(m, all, td, i, vals, base);
    var (v, rest) := (td[0].v, td[1..]);
    var end := i + |Flat(v)|;
    KidsWork(v, i, td[0].next, kids);
    InRowAppend(kids, rest, i + 1, end, |m|);
    TodoAppend(kids, rest);
    AfterFirst(all[i..], Copied(v, i, td[0].next), CopiedTodo(kids), CopiedTodo(rest));
    TwoSlices(vals, base + i, base + end, base + |m|, Flat(v), FlatTodo(rest));
    AfterFirst(vals[base + i..base + |m|], Flat(v), FlatTodo(kids), FlatTodo(rest));
  }

  lemma AfterFirst<A>(s: seq<A>, head: seq<A>, inner: seq<A>, more: seq<A>)
    requires s == head + more && head != [] && head[1..] == inner
    ensures s != [] && s[1..] == inner + more
  {
  }

  lemma TwoSlices<A>(s: seq<A>, a: nat, b: nat, c: nat, x: seq<A>, y: seq<A>)
    requires a <= b <= c <= |s| && s[a..b] == x && s[b..c] == y
    ensures s[a..c] == x + y
  {
  }

  lemma WorkLinks(m: seq<Node>, m': seq<Node>, all: seq<Node>, td: seq<Todo>, i: nat, vals: seq<Tok<seq<u8>>>,
                  base: nat, kids: seq<Todo>)
    requires Work(m, all, td, i, vals, base) && i < |m| == |m'| && td != []
    requires kids == if td[0].v.Container? then Kids(td[0].v.items, i + 1, i + 1) else []
    requires i + |Flat(td[0].v)| <= |m| && forall k | i + |Flat(td[0].v)| <= k < |m| :: m'[k] == m[k]
    requires forall k | 0 <= k < |kids| :: 0 <= kids[k].pos < |m| && m'[kids[k].pos].next == kids[k].next
    ensures forall k | 0 <= k < |kids + td[1..]| :: Linked(m', (kids + td[1..])[k])
  {
    hide Flat, Paired, Copied, Kids, Cell;
    WorkFront(m, all, td, i, vals, base);
    InRowOrder(td[1..], i + |Flat(td[0].v)|, |m|);
    forall k | 0 <= k < |kids + td[1..]| ensures Linked(m', (kids + td[1..])[k]) {
      if k < |kids| {
        KidPaired(td[0].v, i, kids, k);
      } else {
        assert (kids + td[1..])[k] == td[1..][k - |kids|] == td[k - |kids| + 1];
      }
    }
  }

  lemma KidPaired(v: Value, i: nat, kids: seq<Todo>, k: nat)
    requires Paired(v) && v.Container? && kids == Kids(v.items, i + 1, i + 1) && k < |kids|
    ensures Paired(kids[k].v)
  {
    hide Flat;
    KidsValues(v.items, i + 1, i + 1);
  }

  lemma KidsWork(v: Value, i: nat, next: int, kids: seq<Todo>)
    requires kids == if v.Container? then Kids(v.items, i + 1, i + 1) else []
    ensures Copied(v, i, next)[1..] == CopiedTodo(kids) && Flat(v)[1..] == FlatTodo(kids)
        && InRow(kids, i + 1, i + |Flat(v)|)
  {
    FlatHeadSize(v);
    if v.Container? {
      KidsTodo(v.items, i + 1, i + 1);
      assert Flat(v)[1..] == FlatAll(v.items);
    }
  }

  lemma {:induction false} KidsGrow(vals: seq<Tok<seq<u8>>>, base: nat, kids: seq<Todo>, at: nat, first: int, end: nat)
    requires KidsAt(vals, base, kids, at, first, end)
    ensures forall a, b | 0 <= a < b < |kids| :: kids[a].pos < kids[b].pos
  {
    forall a, b | 0 <= a < b < |kids| ensures kids[a].pos < kids[b].pos {
      KidsLess(vals, base, kids, at, first, end, a, b);
    }
  }

  lemma {:induction false} KidsLess(vals: seq<Tok<seq<u8>>>, base: nat, kids: seq<Todo>, at: nat, first: int, end: nat,
                                    a: nat, b: nat)
    requires KidsAt(vals, base, kids, at, first, end) && a < b < |kids|
    ensures kids[a].pos < kids[b].pos
    decreases b
  {
    hide Flat;
    assert kids[b].pos == kids[b - 1].pos + |Flat(kids[b - 1].v)|;
    if a < b - 1 { KidsLess(vals, base, kids, at, first, end, a, b - 1); }
  }

  // ---- yyjson_val_mut_copy

  class Copier {
    const vals: seq<Tok<seq<u8>>>
    const base: nat
    const m: array<Node>

    constructor (vals: seq<Tok<seq<u8>>>, base: nat, n: nat)
      ensures this.vals == vals && this.base == base && fresh(m) && m.Length == n
    {
      this.vals, this.base := vals, base;
      m := new Node[n];
    }

    /** Everything but the cells of the items and the container at p is as before. */
    twostate predicate OnlyItems(p: nat, end: nat)
      reads m
    {
      forall k | 0 <= k < m.Length && (k < p || end <= k) :: m[k] == old(m[k])
    }

    /** Links the elements of the array at p. */
    method LinkArray(p: nat, len: nat, ghost kids: seq<Todo>, ghost end: nat)
      requires KidsAt(vals, base, kids, p + 1, p + 1, end) && |kids| == len > 0 && end <= m.Length && p < m.Length
          && m[p].tok.TCtn?
      modifies m
      ensures OnlyItems(p, end) && m[p] == Node(old(m[p].tok).(ofs := kids[len - 1].pos), old(m[p].next))
      ensures forall k | 0 <= k < len :: m[kids[k].pos].next == kids[k].next
    {
      hide Flat;
      KidsGrow(vals, base, kids, p + 1, p + 1, end);
      var ii, mm, left := p + 1, p + 1, len;
      while left > 1
        invariant 1 <= left <= len && ii == mm == kids[len - left].pos
        invariant OnlyItems(p, end) && m[p] == old(m[p])
        invariant forall k | 0 <= k < len - left :: m[kids[k].pos].next == kids[k].next
      {
        ghost var j := len - left;
        HeadStep(kids[j].v);
        var next := ii + Step(vals[base + ii]);
        var mmNext := mm + (next - ii);
        m[mm] := m[mm].(next := mmNext);
        ii, mm, left := next, mmNext, left - 1;
      }
      m[mm] := m[mm].(next := p + 1);
      m[p] := m[p].(tok := m[p].tok.(ofs := mm));
    }

    /** Links the keys and values of the object at p. */
    method LinkObject(p: nat, len: nat, ghost kids: seq<Todo>, ghost end: nat)
      requires KidsAt(vals, base, kids, p + 1, p + 1, end) && |kids| == 2 * len > 0 && end <= m.Length && p < m.Length
          && m[p].tok.TCtn?
      requires forall k | 0 <= k < len :: kids[2 * k].v.Str?
      modifies m
      ensures OnlyItems(p, end) && m[p] == Node(old(m[p].tok).(ofs := kids[2 * len - 2].pos), old(m[p].next))
      ensures forall k | 0 <= k < 2 * len :: m[kids[k].pos].next == kids[k].next
    {
      hide Flat;
      KidsGrow(vals, base, kids, p + 1, p + 1, end);
      var ii, mm, left := p + 1, p + 1, len;
      while left > 1
        invariant 1 <= left <= len && ii == mm == kids[2 * (len - left)].pos
        invariant OnlyItems(p, end) && m[p] == old(m[p])
        invariant forall k | 0 <= k < 2 * (len - left) :: m[kids[k].pos].next == kids[k].next
      {
        ghost var j := 2 * (len - left);
        assert kids[j].v == kids[2 * (len - left)].v;
        HeadStep(kids[j].v);
        KeySize(kids[j].v);
        HeadStep(kids[j + 1].v);
        var next := ii + 1 + Step(vals[base + ii + 1]);
        var mmNext := mm + (next - ii);
        LinkPair(mm, mmNext);
        ii, mm, left := next, mmNext, left - 1;
      }
      ghost var j := 2 * (len - 1);
      KeySize(kids[j].v);
      LinkPair(mm, p + 1);
      m[p] := m[p].(tok := m[p].tok.(ofs := mm));
    }

    /** A key before its value, and the value before what follows. */
    method LinkPair(mm: nat, next: int)
      requires mm + 1 < m.Length
      modifies m
      ensures m[mm] == old(m[mm]).(next := mm + 1) && m[mm + 1] == old(m[mm + 1]).(next := next)
      ensures forall k | 0 <= k < m.Length && k != mm && k != mm + 1 :: m[k] == old(m[k])
    {
      m[mm] := m[mm].(next := mm + 1);
      m[m[mm].next] := m[m[mm].next].(next := next);
    }

    /** One value: its cell, and the links between its items. */
    method CopyOne(i: nat, ghost all: seq<Node>, ghost td: seq<Todo>)
      requires i < m.Length && Work(m[..], all, td, i, vals, base)
      modifies m
      ensures td != []
      ensures Work(m[..], all, (if td[0].v.Container? then Kids(td[0].v.items, i + 1, i + 1) else []) + td[1..], i + 1,
          vals, base)
    {
      hide Flat, Kids, Work, KidsAt, Copied, CopiedTodo, FlatTodo, InRow, Paired;
      ghost var was := m[..];
      WorkFront(was, all, td, i, vals, base);
      ghost var v := td[0].v;
      ghost var kids := if v.Container? then Kids(v.items, i + 1, i + 1) else [];
      ghost var end := i + |Flat(v)|;
      HeadIs(v);
      var t := vals[base + i];
      m[i] := Node(t, m[i].next);
      if t.TCtn? && t.len > 0 {
        WorkKids(v, vals, base, i, kids);
        if t.obj { LinkObject(i, t.len, kids, end); } else { LinkArray(i, t.len, kids, end); }
      }
      ScalarCell(v, i);
      assert m[..][..i] == was[..i];
      WorkStep(was, m[..], all, td, i, vals, base, kids);
    }

    /** Copies all values. */
    method Run(ghost v: Value)
      requires m.Length == |Flat(v)| && base + m.Length <= |vals| && vals[base..base + m.Length] == Flat(v) && Paired(v)
      modifies m
      ensures m[..] == Copied(v, 0, old(m[0].next)) && Links(m[..], 0, v) && SmallCounts(m[..], |Flat(v)|)
    {
      hide Flat, Work, Copied, Paired, Links, SmallCounts;
      ghost var next := m[0].next;
      ghost var all, td := Copied(v, 0, next), [Todo(v, 0, next)];
      WorkStart(m[..], v, vals, base, next);
      var i := 0;
      while i < m.Length
        invariant 0 <= i <= m.Length && Work(m[..], all, td, i, vals, base)
      {
        CopyOne(i, all, td);
        td := (if td[0].v.Container? then Kids(td[0].v.items, i + 1, i + 1) else []) + td[1..];
        i := i + 1;
      }
      WorkDone(m[..], all, td, i, vals, base);
      assert m[..][0..0 + |all|] == m[..];
      CopyLinks(m[..], v, 0, next);
      CopyCounts(v, 0, next, |Flat(v)|);
    }
  }

  /** No container has more than n elements or pairs. */
  predicate SmallCounts(m: seq<Node>, n: nat) {
    forall p | 0 <= p < |m| && m[p].tok.TCtn? :: m[p].tok.len <= n
  }

  lemma {:induction false} CopyCounts(v: Value, p: nat, next: int, n: nat)
    requires |Flat(v)| <= n
    ensures SmallCounts(Copied(v, p, next), n)
    decreases v, 1
  {
    FlatHeadSize(v);
    HeadIs(v);
    ScalarCell(v, p);
    if v.Container? {
      ItemCount(v.items);
      CopyAllCounts(v.items, p + 1, p + 1, n);
    }
  }

  lemma {:induction false} CopyAllCounts(items: seq<Value>, at: nat, first: int, n: nat)
    requires |FlatAll(items)| <= n
    ensures SmallCounts(CopiedAll(items, at, first), n)
    decreases items, 0
  {
    hide Flat, Copied;
    if items != [] {
      var end := at + |Flat(items[0])|;
      CopyCounts(items[0], at, if |items| == 1 then first else end, n);
      CopyAllCounts(items[1..], end, first, n);
    }
  }

  lemma {:induction false} ItemCount(items: seq<Value>)
    ensures |items| <= |FlatAll(items)|
  {
    hide Flat;
    if items != [] { ItemCount(items[1..]); }
  }

  lemma WorkDone(m: seq<Node>, all: seq<Node>, td: seq<Todo>, i: nat, vals: seq<Tok<seq<u8>>>, base: nat)
    requires Work(m, all, td, i, vals, base) && i == |m|
    ensures m == all
  {
    assert m[..i] == m && all[..i] == all;
  }

  lemma KeySize(v: Value)
    requires v.Str?
    ensures |Flat(v)| == 1
  {
  }

  lemma HeadIs(v: Value)
    ensures Flat(v)[0].TCtn? <==> v.Container?
    ensures v.Container? ==> Flat(v)[0].obj == v.obj && Flat(v)[0].len == Count(v.obj, |v.items|)
    ensures Paired(v) && v.Container? && v.obj ==> |v.items| % 2 == 0
  {
    hide FlatAll;
  }

  lemma WorkKids(v: Value, vals: seq<Tok<seq<u8>>>, base: nat, i: nat, kids: seq<Todo>)
    requires Paired(v) && v.Container? && v.items != [] && kids == Kids(v.items, i + 1, i + 1)
    requires base + i + |Flat(v)| <= |vals| && vals[base + i..base + i + |Flat(v)|] == Flat(v)
    ensures KidsAt(vals, base, kids, i + 1, i + 1, i + |Flat(v)|) && |kids| == |v.items|
    ensures v.obj ==> |kids| % 2 == 0 && forall k | 0 <= k < |kids| / 2 :: kids[2 * k].v.Str?
    ensures Cell(v, i).TCtn? && Cell(v, i).ofs == kids[|kids| - if v.obj then 2 else 1].pos
    ensures forall k | 0 <= k < |kids| :: i < kids[k].pos < i + |Flat(v)|
  {
    hide Flat, KidsAt, Kids, Paired;
    InnerFlat(v, vals, base + i);
    KidsPlaces(vals, base, v.items, i + 1, i + 1);
    KeysAreStrings(v, i, kids);
    KidsInside(vals, base, kids, i + 1, i + 1, i + |Flat(v)|);
    hide Cell;
    HeadIs(v);
    ScalarCell(v, i);
  }

  lemma KidsInside(vals: seq<Tok<seq<u8>>>, base: nat, kids: seq<Todo>, at: nat, first: int, end: nat)
    requires KidsAt(vals, base, kids, at, first, end)
    ensures forall k | 0 <= k < |kids| :: at <= kids[k].pos < end
  {
  }

  lemma InnerFlat(v: Value, vals: seq<Tok<seq<u8>>>, p: nat)
    requires v.Container? && p + |Flat(v)| <= |vals| && vals[p..p + |Flat(v)|] == Flat(v)
    ensures |Flat(v)| == 1 + |FlatAll(v.items)| && vals[p + 1..p + 1 + |FlatAll(v.items)|] == FlatAll(v.items)
  {
    FlatHeadSize(v);
    assert Flat(v)[1..] == FlatAll(v.items);
    var s := vals[p..p + |Flat(v)|];
    hide Flat, FlatAll;
    assert vals[p + 1..p + |Flat(v)|] == s[1..];
  }

  lemma KeysAreStrings(v: Value, i: nat, kids: seq<Todo>)
    requires Paired(v) && v.Container? && kids == Kids(v.items, i + 1, i + 1)
    ensures v.obj ==> |kids| % 2 == 0 && forall k | 0 <= k < |kids| / 2 :: kids[2 * k].v.Str?
  {
    hide Flat, Kids;
    KidsValues(v.items, i + 1, i + 1);
  }

  /** yyjson_val_mut_copy: the copy of the document from base on. */
  method MutCopy(vals: seq<Tok<seq<u8>>>, base: nat, ghost v: Value) returns (m: array<Node>)
    requires base + |Flat(v)| <= |vals| && vals[base..base + |Flat(v)|] == Flat(v) && Paired(v)
    ensures fresh(m) && m.Length == |Flat(v)| && Links(m[..], 0, v) && SmallCounts(m[..], |Flat(v)|)
  {
    hide Links, SmallCounts;
    HeadStep(v);
    assert vals[base] == vals[base..base + |Flat(v)|][0];
    var c := new Copier(vals, base, Step(vals[base]));
    c.Run(v);
    m := c.m;
  }
}
