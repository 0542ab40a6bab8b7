/** read_root_minify: a state machine that stores the document in flat pre-order form and keeps
    its stack of open containers inside the values being built. */
module JsonReader {
  import opened Options
  import opened Bytes
  import opened JsonNumber
  import opened JsonString
  import opened JsonDoc

  // ---- open containers

  /** The open containers, the innermost outside, with the items each has so far. */
  datatype Stack = Empty | Inner(outer: Stack, obj: bool, items: seq<Value>)

  function Push(st: Stack, v: Value): Stack {
    if st.Empty? then Empty else st.(items := st.items + [v])
  }

  function Child(st: Stack, obj: bool): Stack { Inner(st, obj, []) }

  /** Items of the innermost container. */
  function N(st: Stack): nat { if st.Empty? then 0 else |st.items| }

  /** The distance from the innermost open container to its parent. */
  function Back(st: Stack): nat {
    if st.Empty? || st.outer.Empty? then 0 else 1 + |FlatAll(st.outer.items)|
  }

  /** The values stored while the containers of st are open. An open container holds the way
      back to its parent, and all but the innermost one their item count, the open child
      included; len stands for the count field of the innermost one. */
  function Encoded(st: Stack, len: nat): (r: seq<Tok<seq<u8>>>) {
    if st.Empty? then []
    else Encoded(st.outer, N(st.outer) + 1) + ([TCtn(st.obj, len, Back(st))] + FlatAll(st.items))
  }

  /** Index of the innermost open container. */
  function Place(st: Stack): nat {
    if st.Empty? then 0 else |Encoded(st.outer, N(st.outer) + 1)|
  }

  /** The cell of the innermost container, and what follows it. */
  lemma EncodedTop(st: Stack, len: nat)
    requires st.Inner?
    ensures |Encoded(st, len)| == Place(st) + 1 + |FlatAll(st.items)|
    ensures Encoded(st, len)[Place(st)] == TCtn(st.obj, len, Back(st))
    ensures Back(st) <= Place(st) && (Back(st) == 0 <==> st.outer.Empty?)
    ensures st.outer.Inner? ==> Place(st) - Back(st) == Place(st.outer)
  {
    hide FlatAll;
  }

  lemma EncodedLen(st: Stack, len: nat, len': nat)
    requires st.Inner?
    ensures Place(st) < |Encoded(st, len)|
    ensures Encoded(st, len)[Place(st) := TCtn(st.obj, len', Back(st))] == Encoded(st, len')
  {
    hide FlatAll;
    AppendAt(Encoded(st.outer, N(st.outer) + 1), TCtn(st.obj, len, Back(st)), FlatAll(st.items),
        TCtn(st.obj, len', Back(st)));
  }

  lemma AppendAt<T>(a: seq<T>, x: T, b: seq<T>, y: T)
    ensures (a + ([x] + b))[|a| := y] == a + ([y] + b)
  {
  }

  /** A scalar or finished value is appended. */
  lemma EncodedPush(st: Stack, len: nat, v: Value)
    requires st.Inner?
    ensures Encoded(Push(st, v), len) == Encoded(st, len) + Flat(v)
  {
    hide Flat, FlatAll;
    FlatSnoc(st.items, v);
    var outer := Encoded(st.outer, N(st.outer) + 1);
    var head: seq<Tok<seq<u8>>> := [TCtn(st.obj, len, Back(st))];
    assert outer + (head + (FlatAll(st.items) + Flat(v))) == outer + (head + FlatAll(st.items)) + Flat(v);
  }

  /** Opening a container saves the count of the one around it. */
  lemma EncodedOpen(st: Stack, obj: bool)
    requires st.Inner?
    ensures Encoded(Child(st, obj), 0) == Encoded(st, N(st) + 1) + [TCtn(obj, 0, 1 + |FlatAll(st.items)|)]
  {
    assert FlatAll([]) == [];
    hide FlatAll;
  }

  /** Closing the innermost container: its cell gets the count and the distance to the next
      value. */
  lemma EncodedClose(st: Stack, len: nat)
    requires st.Inner?
    ensures Place(st) < |Encoded(st, len)|
    ensures Encoded(st, len)[Place(st) := TCtn(st.obj, Count(st.obj, N(st)), 1 + |FlatAll(st.items)|)] == Completed(st)
  {
    hide FlatAll, Flat, Encoded, Place, Back, Push, Completed;
    var cell := TCtn(st.obj, Count(st.obj, N(st)), 1 + |FlatAll(st.items)|);
    EncodedIs(st, len);
    EncodedTop(st, len);
    AppendAt(Encoded(st.outer, N(st.outer) + 1), TCtn(st.obj, len, Back(st)), FlatAll(st.items), cell);
    FlatCell(st.obj, st.items);
    CompletedIs(st);
  }

  lemma FlatCell(obj: bool, items: seq<Value>)
    ensures Flat(Container(obj, items)) == [TCtn(obj, Count(obj, |items|), 1 + |FlatAll(items)|)] + FlatAll(items)
  {
    hide FlatAll;
  }

  /** A completed container stands behind what encloses it. */
  lemma CompletedIs(st: Stack)
    requires st.Inner?
    ensures Completed(st) == Encoded(st.outer, N(st.outer) + 1) + Flat(Container(st.obj, st.items))
  {
    hide FlatAll, Flat, Encoded, Place, Back, Push;
    var v := Container(st.obj, st.items);
    if st.outer.Inner? {
      EncodedPush(st.outer, N(st.outer) + 1, v);
      PushOne(st.outer, v);
    } else {
      NothingOpen();
      assert [] + Flat(v) == Flat(v);
    }
  }

  lemma PushOne(st: Stack, v: Value)
    requires st.Inner?
    ensures N(Push(st, v)) == N(st) + 1 && Push(st, v).Inner?
  {
  }

  lemma EncodedIs(st: Stack, len: nat)
    requires st.Inner?
    ensures Place(st) == |Encoded(st.outer, N(st.outer) + 1)|
    ensures Encoded(st, len) == Encoded(st.outer, N(st.outer) + 1) + ([TCtn(st.obj, len, Back(st))] + FlatAll(st.items))
  {
    hide FlatAll;
  }

  lemma NothingOpen()
    ensures forall n :: Encoded(Empty, n) == []
  {
  }

  /** The stored values when the innermost container has been completed. */
  function Completed(st: Stack): seq<Tok<seq<u8>>>
    requires st.Inner?
  {
    var v := Container(st.obj, st.items);
    if st.outer.Empty? then Flat(v) else Encoded(Push(st.outer, v), N(Push(st.outer, v)))
  }

  /** Every enclosing object has a key that waits for its value. */
  predicate Waiting(st: Stack) {
    st.Inner? ==> Waiting(st.outer) && (st.outer.Inner? && st.outer.obj ==> N(st.outer) % 2 == 1)
  }

  // ---- what remains to be parsed

  /** The outcome of the whole parse when the innermost container expects an item at i. */
  function Items(s: seq<u8>, i: nat, st: Stack, conv: Convert): Option<(Value, nat)>
    requires st.Inner?
    decreases st, 0
  {
    Finish(s, ParseItems(s, i, st.obj, N(st), conv), st, conv)
  }

  /** The innermost container is complete when the rest of its items is read. */
  function Finish(s: seq<u8>, r: Option<(seq<Value>, nat)>, st: Stack, conv: Convert): Option<(Value, nat)>
    requires st.Inner?
    decreases st.outer, 3
  {
    match r case None => None case Some((rest, j)) => Done(s, j, st.outer, Container(st.obj, st.items + rest), conv)
  }

  /** A value has been completed inside the containers of outer. */
  function Done(s: seq<u8>, i: nat, outer: Stack, v: Value, conv: Convert): Option<(Value, nat)>
    decreases outer, 2
  {
    if outer.Empty? then Some((v, i)) else After(s, i, outer.outer, outer.obj, outer.items + [v], conv)
  }

  /** The innermost container has just got a value; its items are given apart. */
  function After(s: seq<u8>, i: nat, outer: Stack, obj: bool, items: seq<Value>, conv: Convert): Option<(Value, nat)>
    decreases outer, 5
  {
    var j := Skip(s, i);
    if At(s, j) == 44 then Finish(s, ParseItems(s, j + 1, obj, |items|, conv), Inner(outer, obj, items), conv)
    else if At(s, j) == Close(obj) then Done(s, j + 1, outer, Container(obj, items), conv)
    else None
  }

  function AfterItem(s: seq<u8>, i: nat, st: Stack, conv: Convert): Option<(Value, nat)>
    requires st.Inner?
  {
    After(s, i, st.outer, st.obj, st.items, conv)
  }

  /** The innermost container has just got a key. */
  function Colon(s: seq<u8>, i: nat, st: Stack, conv: Convert): Option<(Value, nat)>
    requires st.Inner?
  {
    var j := Skip(s, i);
    if At(s, j) == 58 then Items(s, j + 1, st, conv) else None
  }

  function AfterValue(s: seq<u8>, r: Option<(Value, nat)>, st: Stack, conv: Convert): Option<(Value, nat)>
    requires st.Inner?
  {
    match r case None => None case Some((v, m)) => AfterItem(s, m, Push(st, v), conv)
  }

  function AfterKey(s: seq<u8>, r: Option<(Value, nat)>, st: Stack, conv: Convert): Option<(Value, nat)>
    requires st.Inner?
  {
    match r case None => None case Some((v, m)) => Colon(s, m, Push(st, v), conv)
  }

  lemma ItemsCons(s: seq<u8>, i: nat, st: Stack, v: Value, conv: Convert)
    requires st.Inner?
    ensures Items(s, i, Push(st, v), conv) == Finish(s, Cons(v, ParseItems(s, i, st.obj, N(st) + 1, conv)), st, conv)
  {
    hide ParseItems, Done;
    var r := ParseItems(s, i, st.obj, N(st) + 1, conv);
    if r.Some? { assert st.items + ([v] + r.value.0) == st.items + [v] + r.value.0; }
  }

  /** A value is due at j. */
  lemma StepValue(s: seq<u8>, i: nat, j: nat, st: Stack, conv: Convert)
    requires st.Inner? && j == Skip(s, i) && !KeyNext(st.obj, N(st)) && (At(s, j) == Close(st.obj) ==> st.obj)
    ensures Items(s, i, st, conv) == AfterValue(s, ParseValue(s, j, conv), st, conv)
  {
    ValueItem(s, i, j, st.obj, N(st), conv);
    hide ParseValue, ParseItems, Done, After, ItemRest;
    var r := ParseValue(s, j, conv);
    if r.Some? { RestIsAfter(s, r.value.1, r.value.0, st, conv); } else { NoRest(s, st, conv); }
  }

  /** The value case of the grammar. */
  lemma ValueItem(s: seq<u8>, i: nat, j: nat, obj: bool, n: nat, conv: Convert)
    requires j == Skip(s, i) && !KeyNext(obj, n) && (At(s, j) == Close(obj) ==> obj)
    ensures ParseItems(s, i, obj, n, conv) == ItemRest(s, ParseValue(s, j, conv), obj, n, conv)
  {
    hide ParseValue, Skip;
  }

  function ItemRest(s: seq<u8>, r: Option<(Value, nat)>, obj: bool, n: nat, conv: Convert): Option<(seq<Value>, nat)> {
    match r
    case None => None
    case Some((v, m)) =>
      var k := Skip(s, m);
      if At(s, k) == 44 then Cons(v, ParseItems(s, k + 1, obj, n + 1, conv))
      else if At(s, k) == Close(obj) then Some(([v], k + 1))
      else None
  }

  lemma NoRest(s: seq<u8>, st: Stack, conv: Convert)
    requires st.Inner?
    ensures Finish(s, None, st, conv) == None
    ensures ItemRest(s, None, st.obj, N(st), conv) == None && KeyRest(s, None, N(st), conv) == None
  {
  }

  lemma RestIsAfter(s: seq<u8>, m: nat, v: Value, st: Stack, conv: Convert)
    requires st.Inner?
    ensures Finish(s, ItemRest(s, Some((v, m)), st.obj, N(st), conv), st, conv) == AfterItem(s, m, Push(st, v), conv)
  {
    hide ParseItems, Done;
    var j := Skip(s, m);
    if At(s, j) == 44 { ItemsCons(s, j + 1, st, v, conv); }
  }

  /** An opening bracket where a value is due. */
  lemma StepOpen(s: seq<u8>, i: nat, j: nat, st: Stack, obj: bool, conv: Convert)
    requires st.Inner? && j == Skip(s, i) && !KeyNext(st.obj, N(st)) && At(s, j) == Open(obj)
    ensures Items(s, i, st, conv) == Items(s, j + 1, Child(st, obj), conv)
  {
    StepValue(s, i, j, st, conv);
    BracketValue(s, j, obj, conv);
    hide ParseItems, ParseValue, After;
    var r := ParseItems(s, j + 1, obj, 0, conv);
    if r.Some? {
      assert Child(st, obj).items + r.value.0 == r.value.0;
      assert Finish(s, r, Child(st, obj), conv) == Done(s, r.value.1, st, Container(obj, r.value.0), conv);
    }
  }

  lemma BracketValue(s: seq<u8>, j: nat, obj: bool, conv: Convert)
    requires At(s, j) == Open(obj)
    ensures ParseValue(s, j, conv) == Wrapped(obj, ParseItems(s, j + 1, obj, 0, conv))
  {
    hide ParseItems;
  }

  function Wrapped(obj: bool, r: Option<(seq<Value>, nat)>): Option<(Value, nat)> {
    match r case None => None case Some((items, n)) => Some((Container(obj, items), n))
  }

  /** A scalar where a value is due. */
  lemma StepScalar(s: seq<u8>, i: nat, j: nat, st: Stack, conv: Convert)
    requires st.Inner? && j == Skip(s, i) && !KeyNext(st.obj, N(st))
    requires At(s, j) != Open(false) && At(s, j) != Open(true) && (At(s, j) == Close(st.obj) ==> st.obj)
    ensures Items(s, i, st, conv) == AfterValue(s, ParseScalar(s, j, conv), st, conv)
  {
    StepValue(s, i, j, st, conv);
    hide Items, After, ParseItems, ParseScalar;
  }

  /** A key is due. */
  lemma StepKey(s: seq<u8>, i: nat, j: nat, st: Stack, conv: Convert)
    requires st.Inner? && j == Skip(s, i) && KeyNext(st.obj, N(st)) && At(s, j) != Close(true)
    ensures At(s, j) != 34 ==> Items(s, i, st, conv) == None
    ensures At(s, j) == 34 ==> Items(s, i, st, conv) == AfterKey(s, ParseScalar(s, j, conv), st, conv)
  {
    KeyItem(s, i, j, N(st), conv);
    hide ParseItems, ParseScalar, Done, KeyRest, Colon;
    NoRest(s, st, conv);
    if At(s, j) == 34 && ParseScalar(s, j, conv).Some? {
      RestIsColon(s, ParseScalar(s, j, conv).value.1, ParseScalar(s, j, conv).value.0, st, conv);
    }
  }

  lemma KeyIsStr(s: seq<u8>, j: nat, conv: Convert)
    ensures ParseScalar(s, j, conv).Some? ==> (ParseScalar(s, j, conv).value.0.Str? <==> At(s, j) == 34)
  {
    hide Body, LexNumber, Has;
  }

  /** The key case of the grammar. */
  lemma KeyItem(s: seq<u8>, i: nat, j: nat, n: nat, conv: Convert)
    requires j == Skip(s, i) && KeyNext(true, n) && At(s, j) != Close(true)
    ensures ParseItems(s, i, true, n, conv) == if At(s, j) == 34 then KeyRest(s, ParseScalar(s, j, conv), n, conv)
        else None
  {
    KeyIsStr(s, j, conv);
    hide ParseScalar, Skip;
  }

  function KeyRest(s: seq<u8>, r: Option<(Value, nat)>, n: nat, conv: Convert): Option<(seq<Value>, nat)> {
    match r
    case None => None
    case Some((v, m)) =>
      var k := Skip(s, m);
      if At(s, k) == 58 then Cons(v, ParseItems(s, k + 1, true, n + 1, conv)) else None
  }

  lemma RestIsColon(s: seq<u8>, m: nat, v: Value, st: Stack, conv: Convert)
    requires st.Inner? && st.obj
    ensures Finish(s, KeyRest(s, Some((v, m)), N(st), conv), st, conv) == Colon(s, m, Push(st, v), conv)
  {
    hide ParseItems, Done;
    var j := Skip(s, m);
    if At(s, j) == 58 { ItemsCons(s, j + 1, st, v, conv); }
  }

  /** A closing bracket where an item is due. */
  lemma StepEmpty(s: seq<u8>, i: nat, j: nat, st: Stack, conv: Convert)
    requires st.Inner? && j == Skip(s, i) && At(s, j) == Close(st.obj) && !(st.obj && N(st) % 2 == 1)
    ensures Items(s, i, st, conv) ==
            if st.items == [] then Done(s, j + 1, st.outer, Container(st.obj, st.items), conv) else None
  {
    hide Done;
    var none: seq<Value> := [];
    assert none + none == none;
  }

  // ---- the stored values

  /** A stored value whose strings are byte ranges of the text. */
  type Cell = Tok<(nat, nat)>

  /** Cell c stores t; its string is a part of the text read so far, and a zero byte follows. */
  predicate Same(text: seq<u8>, c: Cell, t: Tok<seq<u8>>) {
    match t
    case TNull => c == TNull
    case TBool(b) => c == TBool(b)
    case TNum(n) => c == TNum(n)
    case TStr(b) => c.TStr? && var (p, n) := c.s; n == |b| && p + n < |text| && text[p..p + n] == b && text[p + n] == 0
    case TCtn(obj, len, ofs) => c == TCtn(obj, len, ofs)
  }

  ghost predicate Stored(text: seq<u8>, cells: seq<Cell>, toks: seq<Tok<seq<u8>>>) {
    |cells| == |toks| && forall k | 0 <= k < |toks| :: Same(text, cells[k], toks[k])
  }

  lemma StoredAppend(text: seq<u8>, cells: seq<Cell>, toks: seq<Tok<seq<u8>>>, c: Cell, t: Tok<seq<u8>>)
    requires Stored(text, cells, toks) && Same(text, c, t)
    ensures Stored(text, cells + [c], toks + [t])
  {
    hide Same;
  }

  lemma StoredUpdate(text: seq<u8>, cells: seq<Cell>, toks: seq<Tok<seq<u8>>>, k: nat, c: Cell, t: Tok<seq<u8>>)
    requires Stored(text, cells, toks) && k < |toks| && Same(text, c, t)
    ensures |cells| == |toks| && Stored(text, cells[k := c], toks[k := t])
  {
    hide Same;
  }

  lemma StoredAt(text: seq<u8>, cells: seq<Cell>, toks: seq<Tok<seq<u8>>>, k: nat)
    requires Stored(text, cells, toks) && k < |toks| && toks[k].TCtn?
    ensures |cells| == |toks| && cells[k] == TCtn(toks[k].obj, toks[k].len, toks[k].ofs)
  {
    assert Same(text, cells[k], toks[k]);
  }

  lemma StoredLater(text: seq<u8>, text': seq<u8>, cells: seq<Cell>, toks: seq<Tok<seq<u8>>>)
    requires Stored(text, cells, toks) && |text| <= |text'| && text'[..|text|] == text
    ensures Stored(text', cells, toks)
  {
    forall k | 0 <= k < |toks| ensures Same(text', cells[k], toks[k]) {
      assert Same(text, cells[k], toks[k]);
      if toks[k].TStr? {
        var (p, n) := cells[k].s;
        assert text'[p + n] == text'[..|text|][p + n];
        assert text'[..|text|][p..p + n] == text'[p..p + n];
      }
    }
  }

  lemma SameCtn(text: seq<u8>, obj: bool, len: nat, ofs: nat)
    ensures Same(text, TCtn(obj, len, ofs), TCtn(obj, len, ofs))
  {
  }

  /** The single stored value of a scalar. */
  function ScalarTok(v: Value): Tok<seq<u8>> { Flat(v)[0] }

  lemma ScalarFlat(v: Value)
    requires !v.Container?
    ensures Flat(v) == [ScalarTok(v)]
  {
  }

  /** Values used by the document header. */
  const HDR := 4

  datatype State = ArrVal | ArrValEnd | ObjKey | ObjKeyEnd | ObjVal | ObjValEnd | DocEnd | Failed

  /** The outcome of the parse from a state between two tokens. */
  function Rest(state: State, s: seq<u8>, i: nat, st: Stack, conv: Convert): Option<(Value, nat)>
    requires st.Inner?
  {
    match state
    case ArrVal | ObjKey | ObjVal => Items(s, i, st, conv)
    case ObjKeyEnd => Colon(s, i, st, conv)
    case ArrValEnd | ObjValEnd => AfterItem(s, i, st, conv)
    case DocEnd | Failed => None
  }

  /** A part of the first m bytes. */
  lemma Inside(s: seq<u8>, m: nat, at: nat, n: nat)
    requires at + n <= m <= |s|
    ensures s[..m][at..at + n] == s[at..at + n]
  {
  }

  class Reader {
    var buf: array<u8>
    /** The values stored behind the header, and the number of values allocated. */
    var vals: seq<Cell>
    var alc: nat
    var val: nat
    var ctn: nat
    var ctnLen: nat
    var cur: nat
    var state: State
    ghost const s: seq<u8>
    const conv: Convert
    ghost var stack: Stack
    ghost var len: nat
    ghost var root: Value

    /** The cursor is inside the text, the rest of the text unread; val is the last stored value,
        and one more fits without a check. */
    ghost predicate Shape()
      reads this`buf, this`vals, this`alc, this`val, this`cur, buf
    {
      && Unread(buf, s, cur) && cur <= |s| && |s| + 4 <= buf.Length
      && 5 <= alc && val + 1 == HDR + |vals| && HDR <= val <= alc - 2
    }

    /** The chain of open containers is threaded through the stored values. */
    ghost predicate Chain()
      reads this`buf, this`vals, this`alc, this`val, this`cur, this`ctn, this`stack, this`len, buf
    {
      && Shape() && stack.Inner? && Waiting(stack) && ctn == HDR + Place(stack)
      && Stored(buf[..cur], vals, Encoded(stack, len))
    }

    ghost predicate Ready()
      reads this`buf, this`vals, this`alc, this`val, this`cur, this`ctn, this`stack, this`len, this`ctnLen, buf
    {
      Chain() && ctnLen == N(stack)
    }

    ghost predicate InState()
      reads this
    {
      stack.Inner? &&
      match state
      case ArrVal => !stack.obj
      case ArrValEnd => !stack.obj && N(stack) > 0
      case ObjKey => stack.obj && N(stack) % 2 == 0
      case ObjKeyEnd => stack.obj && N(stack) % 2 == 1 && val < alc - 2
      case ObjVal => stack.obj && N(stack) % 2 == 1 && val < alc - 2
      case ObjValEnd => stack.obj && N(stack) % 2 == 0 && N(stack) > 0
      case _ => false
    }

    ghost predicate Valid()
      reads this, buf
    {
      match state
      case Failed => true
      case DocEnd => Shape() && Stored(buf[..cur], vals, Flat(root))
      case _ => Ready() && InState()
    }

    ghost predicate Running() reads this { state != Failed && state != DocEnd }

    /** What the parse will return from here on. */
    ghost function Outcome(): Option<(Value, nat)>
      reads this
    {
      if state == DocEnd then Some((root, cur)) else if stack.Empty? then None else Rest(state, s, cur, stack, conv)
    }

    lemma ReadyFacts()
      requires Ready()
      ensures Shape() && stack.Inner? && ctnLen == N(stack)
    {
    }

    /** while (char_is_space(*cur)) cur++ */
    method SkipSpaces()
      requires Unread(buf, s, cur) && cur <= |s|
      modifies this`cur
      ensures cur == Skip(s, old(cur)) && old(cur) <= cur <= |s|
    {
      ghost var c0 := cur;
      while IsSpace(buf[cur])
        invariant c0 <= cur <= |s| && Skip(s, cur) == Skip(s, c0)
        decreases |s| - cur
      {
        cur := cur + 1;
      }
    }

    /** A new last value: val_incr makes room for it and for one more; the slot after a key needs
        no check. */
    method Append(c: Cell, afterKey: bool)
      requires 5 <= alc && val + 1 == HDR + |vals| && HDR <= val <= alc - 2 && (afterKey ==> val < alc - 2)
      modifies this`vals, this`val, this`alc
      ensures 5 <= alc && val == old(val) + 1 <= alc - 2 && (!afterKey ==> val < alc - 2)
      ensures vals == old(vals) + [c]
    {
      val := val + 1;
      if !afterKey && val >= alc - 2 { alc := alc + alc / 2; }
      assert val < alc;
      vals := vals + [c];
    }

    /** read_string */
    method ReadStr() returns (ok: bool, c: Cell, next: nat, ghost v: Value)
      requires Unread(buf, s, cur) && cur < |s| && buf[cur] == 34
      modifies buf
      ensures match ParseScalar(s, cur, conv)
        case None => !ok
        case Some((w, m)) =>
          ok && v == w && next == m && v.Str? && cur < next <= |s| && Unread(buf, s, next)
              && Same(buf[..next], c, ScalarTok(v))
      ensures buf[..cur] == old(buf[..cur])
    {
      hide Body, LexNumber, Has;
      v := Null;
      var r := ReadString(buf, s, cur);
      if r.None? { return false, TNull, 0, v; }
      var (n, m) := r.value;
      v := Str(Body(s, cur + 1).value.0);
      Inside(buf[..], m, cur + 1, n);
      assert buf[..m] == buf[..][..m] && buf[cur + 1..cur + 1 + n] == buf[..][cur + 1..cur + 1 + n];
      return true, TStr((cur + 1, n)), m, v;
    }

    /** read_string, read_number, read_true, read_false or read_null. */
    method ReadScalar() returns (ok: bool, c: Cell, next: nat, ghost v: Value)
      requires Unread(buf, s, cur) && cur <= |s|
      modifies buf
      ensures match ParseScalar(s, cur, conv)
        case None => !ok
        case Some((w, m)) =>
          ok && v == w && next == m && !v.Container? && cur < next <= |s| && Unread(buf, s, next)
              && Same(buf[..next], c, ScalarTok(v))
      ensures buf[..cur] == old(buf[..cur])
    {
      var b := buf[cur];
      if b == 34 {
        ok, c, next, v := ReadStr();
        return;
      }
      hide Body, LexNumber, Has;
      Literals(s, cur);
      v := Null;
      if b == 45 || IsDigit(b) {
        var r := ReadNumber(buf, s, cur, conv);
        if r.None? { return false, TNull, 0, v; }
        var (x, m) := r.value;
        return true, TNum(x), m, Number(x);
      } else if b == 116 && buf[cur + 1] == 114 && buf[cur + 2] == 117 && buf[cur + 3] == 101 {
        return true, TBool(true), cur + 4, Bool(true);
      } else if b == 102 && buf[cur + 1] == 97 && buf[cur + 2] == 108 && buf[cur + 3] == 115 && buf[cur + 4] == 101 {
        return true, TBool(false), cur + 5, Bool(false);
      } else if b == 110 && buf[cur + 1] == 117 && buf[cur + 2] == 108 && buf[cur + 3] == 108 {
        return true, TNull, cur + 4, Null;
      }
      return false, TNull, 0, v;
    }

    /** Read and store a scalar. */
    method TakeScalar(afterKey: bool) returns (ok: bool)
      requires Ready() && (afterKey ==> val < alc - 2)
      modifies this`vals, this`val, this`alc, this`ctnLen, this`cur, this`stack, buf
      ensures match ParseScalar(s, old(cur), conv)
        case None => !ok
        case Some((v, m)) => ok && Ready() && stack == Push(old(stack), v) && cur == m && (!afterKey ==> val < alc - 2)
    {
      hide Encoded, Flat, FlatAll, Place, Stored, Waiting, Back, Same, ParseScalar, Unread, ScalarTok;
      ghost var text, toks := buf[..cur], Encoded(stack, len);
      ghost var v;
      var c, next;
      ok, c, next, v := ReadScalar();
      if !ok { return; }
      assert buf[..next][..cur] == text;
      StoredLater(text, buf[..next], vals, toks);
      StoredAppend(buf[..next], vals, toks, c, ScalarTok(v));
      ScalarFlat(v);
      EncodedPush(stack, len, v);
      PushPlace(stack, v);
      Append(c, afterKey);
      ctnLen := ctnLen + 1;
      cur := next;
      stack := Push(stack, v);
    }

    /** The cell of the innermost container. */
    method Current() returns (c: Cell)
      requires Chain()
      ensures HDR <= ctn <= val && c == vals[ctn - HDR] == TCtn(stack.obj, len, Back(stack))
      ensures val - ctn == |FlatAll(stack.items)| && |vals| == |Encoded(stack, len)|
    {
      EncodedTop(stack, len);
      hide Encoded, Flat, FlatAll, Back, Waiting, Place, Unread;
      StoredAt(buf[..cur], vals, Encoded(stack, len), ctn - HDR);
      return vals[ctn - HDR];
    }

    /** Overwrite the cell of the innermost container. */
    method SetContainer(obj: bool, n: nat, ofs: nat)
      requires Chain()
      modifies this`vals
      ensures Shape() && Place(stack) < |Encoded(stack, len)|
      ensures Stored(buf[..cur], vals, Encoded(stack, len)[Place(stack) := TCtn(obj, n, ofs)])
    {
      EncodedTop(stack, len);
      hide Encoded, FlatAll, Same, Back, Waiting, Place, Stored, Unread;
      SameCtn(buf[..cur], obj, n, ofs);
      StoredUpdate(buf[..cur], vals, Encoded(stack, len), ctn - HDR, TCtn(obj, n, ofs), TCtn(obj, n, ofs));
      vals := vals[ctn - HDR := TCtn(obj, n, ofs)];
    }

    /** Save the item count of the innermost container, the child to be opened included. */
    method SaveCount()
      requires Ready()
      modifies this`vals, this`len
      ensures Ready() && len == N(stack) + 1
    {
      hide Encoded, FlatAll, Back, Place, Stored, Waiting, Unread;
      var c := Current();
      EncodedLen(stack, len, N(stack) + 1);
      SetContainer(c.obj, ctnLen + 1, c.ofs);
      len := N(stack) + 1;
    }

    /** arr_begin, obj_begin: save the current container, and make a new one current that points
        back to it. */
    method OpenContainer(obj: bool)
      requires Ready() && (stack.obj ==> N(stack) % 2 == 1)
      modifies this`vals, this`val, this`alc, this`ctn, this`ctnLen, this`stack, this`len, this`state
      ensures Ready() && stack == Child(old(stack), obj) && state == if obj then ObjKey else ArrVal
    {
      hide Encoded, Flat, FlatAll, Place, Stored, Unread, Back, Same, Waiting, N;
      ChildPlace(stack, obj);
      SaveCount();
      EncodedOpen(stack, obj);
      var c := Current();
      SameCtn(buf[..cur], obj, 0, val + 1 - ctn);
      StoredAppend(buf[..cur], vals, Encoded(stack, len), TCtn(obj, 0, val + 1 - ctn), TCtn(obj, 0, val + 1 - ctn));
      Append(TCtn(obj, 0, val + 1 - ctn), false);
      ctn := val;
      ctnLen := 0;
      stack := Child(stack, obj);
      len := 0;
      state := if obj then ObjKey else ArrVal;
    }

    /** arr_end, obj_end: the container gets its count and the distance to the next value; its
        parent, if any, becomes current. */
    method CloseContainer(obj: bool)
      requires Ready() && obj == stack.obj
      modifies this`vals, this`ctn, this`ctnLen, this`stack, this`len, this`state, this`root
      ensures var (outer, v) := (old(stack).outer, Container(obj, old(stack).items));
        if outer.Empty? then state == DocEnd && root == v && Valid()
        else
          Ready() && stack == Push(outer, v) && state == (if stack.obj then ObjValEnd else ArrValEnd) &&
          N(stack) > 0 && (stack.obj ==> N(stack) % 2 == 0)
    {
      hide Encoded, FlatAll, Flat, Place, Stored, Unread, Back, Same, Waiting;
      ghost var v := Container(obj, stack.items);
      ParentPlace(stack, v);
      EncodedClose(stack, len);
      var c := Current();
      SetContainer(obj, if obj then ctnLen / 2 else ctnLen, val - ctn + 1);
      if c.ofs == 0 {
        root := v;
        state := DocEnd;
        return;
      }
      ctn := ctn - c.ofs;
      Pop(Push(stack.outer, v));
    }

    /** The completed container was the last value of its parent, which becomes current. */
    method Pop(ghost st: Stack)
      requires Shape() && st.Inner? && Waiting(st) && ctn == HDR + Place(st)
          && Stored(buf[..cur], vals, Encoded(st, N(st)))
      modifies this`ctnLen, this`stack, this`len, this`state
      ensures Ready() && stack == st && state == if st.obj then ObjValEnd else ArrValEnd
    {
      hide Encoded, FlatAll, Flat, Place, Stored, Unread, Back, Same, Waiting;
      stack := st;
      len := N(st);
      var parent := Current();
      ctnLen := parent.len;
      state := if parent.obj then ObjValEnd else ArrValEnd;
    }

    /** Skip spaces: nothing stored changes. */
    method SkipToToken()
      requires Ready()
      modifies this`cur
      ensures Ready() && cur == Skip(s, old(cur)) && old(cur) <= cur
    {
      hide Encoded, Place, Waiting, Back, Stored;
      ghost var text := buf[..cur];
      SkipSpaces();
      assert buf[..cur][..|text|] == text;
      StoredLater(text, buf[..cur], vals, Encoded(stack, len));
    }

    /** Pass a token of one byte. */
    method Advance()
      requires Ready() && At(s, cur) != 0
      modifies this`cur
      ensures Ready() && cur == old(cur) + 1 <= |s|
    {
      hide Encoded, Place, Waiting, Back, Stored;
      ghost var text := buf[..cur];
      cur := cur + 1;
      assert buf[..cur][..|text|] == text;
      StoredLater(text, buf[..cur], vals, Encoded(stack, len));
    }

    /** *cur */
    method Byte() returns (b: u8)
      requires Ready()
      ensures b == At(s, cur)
    {
      return buf[cur];
    }

    /** arr_val_begin */
    method StepArrVal()
      requires Valid() && state == ArrVal
      modifies this`vals, this`val, this`alc, this`ctn, this`ctnLen, this`cur, this`state, this`stack, this`len,
          this`root, buf
      ensures Valid() && Outcome() == old(Outcome())
      ensures Running() ==> old(cur) < cur <= |s|
    {
      hide Ready, Chain, Shape, ParseScalar, Items, AfterItem, Colon, Done, Skip;
      ghost var c0, st := cur, stack;
      ReadyFacts();
      SkipToToken();
      ReadyFacts();
      var b := Byte();
      if b == Open(true) || b == Open(false) {
        StepOpen(s, c0, cur, stack, b == Open(true), conv);
        Advance();
        OpenContainer(b == Open(true));
      } else if b == Close(false) {
        StepEmpty(s, c0, cur, stack, conv);
        if ctnLen > 0 { state := Failed; return; }
        Advance();
        CloseContainer(false);
        DoneIs(s, cur, st, conv);
      } else {
        StepScalar(s, c0, cur, stack, conv);
        var ok := TakeScalar(false);
        if !ok { state := Failed; return; }
        PushOne(st, Null);
        state := ArrValEnd;
      }
    }

    /** arr_val_end, obj_val_end */
    method StepValEnd(obj: bool)
      requires Valid() && state == if obj then ObjValEnd else ArrValEnd
      modifies this`vals, this`val, this`alc, this`ctn, this`ctnLen, this`cur, this`state, this`stack, this`len,
          this`root, buf
      ensures Valid() && Outcome() == old(Outcome())
      ensures Running() ==> old(cur) < cur <= |s|
    {
      hide Ready, Chain, Shape, ParseScalar, Items, AfterItem, Colon, Done, Skip;
      ghost var c0, st := cur, stack;
      ReadyFacts();
      SkipToToken();
      ReadyFacts();
      AfterIs(s, c0, cur, stack, conv);
      var b := Byte();
      if b == 44 {
        Advance();
        state := if obj then ObjKey else ArrVal;
      } else if b == Close(obj) {
        Advance();
        CloseContainer(obj);
        DoneIs(s, cur, st, conv);
      } else {
        state := Failed;
      }
    }

    /** obj_key_begin */
    method StepObjKey()
      requires Valid() && state == ObjKey
      modifies this`vals, this`val, this`alc, this`ctn, this`ctnLen, this`cur, this`state, this`stack, this`len,
          this`root, buf
      ensures Valid() && Outcome() == old(Outcome())
      ensures Running() ==> old(cur) < cur <= |s|
    {
      hide Ready, Chain, Shape, ParseScalar, Items, AfterItem, Colon, Done, Skip;
      ghost var c0, st := cur, stack;
      ReadyFacts();
      SkipToToken();
      ReadyFacts();
      var b := Byte();
      if b == 34 {
        StepKey(s, c0, cur, stack, conv);
        var ok := TakeScalar(false);
        if !ok { state := Failed; return; }
        PushOne(st, Null);
        state := ObjKeyEnd;
      } else if b == Close(true) {
        StepEmpty(s, c0, cur, stack, conv);
        if ctnLen > 0 { state := Failed; return; }
        Advance();
        CloseContainer(true);
        DoneIs(s, cur, st, conv);
      } else {
        StepKey(s, c0, cur, stack, conv);
        state := Failed;
      }
    }

    /** obj_key_end */
    method StepKeyEnd()
      requires Valid() && state == ObjKeyEnd
      modifies this`vals, this`val, this`alc, this`ctn, this`ctnLen, this`cur, this`state, this`stack, this`len,
          this`root, buf
      ensures Valid() && Outcome() == old(Outcome())
      ensures Running() ==> old(cur) < cur <= |s|
    {
      hide Ready, Chain, Shape, ParseScalar, Items, AfterItem, Colon, Done, Skip;
      ghost var c0 := cur;
      ReadyFacts();
      SkipToToken();
      ReadyFacts();
      ColonIs(s, c0, cur, stack, conv);
      var b := Byte();
      if b == 58 {
        Advance();
        state := ObjVal;
      } else {
        state := Failed;
      }
    }

    /** obj_val_begin */
    method StepObjVal()
      requires Valid() && state == ObjVal
      modifies this`vals, this`val, this`alc, this`ctn, this`ctnLen, this`cur, this`state, this`stack, this`len,
          this`root, buf
      ensures Valid() && Outcome() == old(Outcome())
      ensures Running() ==> old(cur) < cur <= |s|
    {
      hide Ready, Chain, Shape, ParseScalar, Items, AfterItem, Colon, Done, Skip;
      ghost var c0, st := cur, stack;
      ReadyFacts();
      SkipToToken();
      ReadyFacts();
      var b := Byte();
      if b == Open(true) || b == Open(false) {
        StepOpen(s, c0, cur, stack, b == Open(true), conv);
        Advance();
        OpenContainer(b == Open(true));
      } else {
        StepScalar(s, c0, cur, stack, conv);
        var ok := TakeScalar(true);
        if !ok { state := Failed; return; }
        PushOne(st, Null);
        state := ObjValEnd;
      }
    }

    /** The machine runs until the document is complete or an error is found. */
    method Run()
      requires Valid() && cur <= |s|
      modifies this`vals, this`val, this`alc, this`ctn, this`ctnLen, this`cur, this`state, this`stack, this`len,
          this`root, buf
      ensures Valid() && Outcome() == old(Outcome()) && !Running()
    {
      hide Valid, Outcome;
      while state != Failed && state != DocEnd
        invariant Valid() && Outcome() == old(Outcome()) && (Running() ==> cur <= |s|)
        decreases if Running() then |s| + 1 - cur else 0
      {
        match state {
          case ArrVal => StepArrVal();
          case ArrValEnd => StepValEnd(false);
          case ObjKey => StepObjKey();
          case ObjKeyEnd => StepKeyEnd();
          case ObjVal => StepObjVal();
          case ObjValEnd => StepValEnd(true);
        }
      }
    }

    constructor (buf: array<u8>, start: nat, end: nat, ghost s: seq<u8>, conv: Convert)
      requires end == |s| && Unread(buf, s, 0) && start < |s|
          && (At(s, start) == Open(false) || At(s, start) == Open(true))
      ensures Valid() && Running() && this.buf == buf && this.s == s && this.conv == conv && cur == start + 1
      ensures Outcome() == Items(s, start + 1, Child(Empty, At(s, start) == Open(true)), conv)
    {
      var obj := buf[start] == Open(true);
      this.buf := buf;
      this.s := s;
      this.conv := conv;
      vals := [TCtn(obj, 0, 0)];
      alc := HDR + (end - start) / 6 + 4;
      val := HDR;
      ctn := HDR;
      ctnLen := 0;
      cur := start + 1;
      state := if obj then ObjKey else ArrVal;
      stack := Child(Empty, obj);
      len := 0;
      root := Null;
      RootEncoded(obj);
    }
  }

  /** read_root_minify on the text buf[..end], from an opening bracket at start on: succeeds
      exactly on the documents of the grammar, with their flat form as the result. */
  method ReadRoot(buf: array<u8>, start: nat, end: nat, ghost s: seq<u8>, conv: Convert)
      returns (ok: bool, cells: seq<Cell>)
    requires end == |s| && Unread(buf, s, 0) && start < end
        && (At(s, start) == Open(false) || At(s, start) == Open(true))
    modifies buf
    ensures match ParseDoc(s, start, conv)
      case None => !ok
      case Some(v) => ok && Stored(buf[..end], cells, Flat(v))
  {
    hide Items, Stored, Flat, ParseValue, Rest;
    RootOutcome(s, start, conv);
    var r := new Reader(buf, start, end, s, conv);
    r.Run();
    if r.state == Failed {
      FailedOutcome(s, r.cur, r.stack, conv);
      return false, [];
    }
    ghost var n := r.cur;
    r.SkipSpaces();
    if r.cur < end { return false, []; }
    assert buf[..end][..n] == buf[..n];
    StoredLater(buf[..n], buf[..end], r.vals, Flat(r.root));
    return true, r.vals;
  }

  lemma FailedOutcome(s: seq<u8>, i: nat, st: Stack, conv: Convert)
    ensures st.Inner? ==> Rest(Failed, s, i, st, conv) == None
  {
  }

  lemma RootOutcome(s: seq<u8>, i: nat, conv: Convert)
    requires At(s, i) == Open(false) || At(s, i) == Open(true)
    ensures Items(s, i + 1, Child(Empty, At(s, i) == Open(true)), conv) == ParseValue(s, i, conv)
  {
    hide ParseItems;
    var r := ParseItems(s, i + 1, At(s, i) == Open(true), 0, conv);
    if r.Some? { assert Child(Empty, At(s, i) == Open(true)).items + r.value.0 == r.value.0; }
  }

  lemma RootEncoded(obj: bool)
    ensures Encoded(Child(Empty, obj), 0) == [TCtn(obj, 0, 0)] && Place(Child(Empty, obj)) == 0
        && Waiting(Child(Empty, obj))
  {
    assert FlatAll([]) == [];
  }

  lemma AfterIs(s: seq<u8>, i: nat, j: nat, st: Stack, conv: Convert)
    requires st.Inner? && j == Skip(s, i)
    ensures AfterItem(s, i, st, conv) ==
            if At(s, j) == 44 then Items(s, j + 1, st, conv)
            else if At(s, j) == Close(st.obj) then Done(s, j + 1, st.outer, Container(st.obj, st.items), conv)
            else None
  {
    hide ParseItems, Done;
    assert st == Inner(st.outer, st.obj, st.items);
  }

  lemma ColonIs(s: seq<u8>, i: nat, j: nat, st: Stack, conv: Convert)
    requires st.Inner? && j == Skip(s, i)
    ensures Colon(s, i, st, conv) == if At(s, j) == 58 then Items(s, j + 1, st, conv) else None
  {
    hide Items;
  }

  /** The value that completes st is its parent's last item, or the root. */
  lemma DoneIs(s: seq<u8>, i: nat, st: Stack, conv: Convert)
    requires st.Inner?
    ensures var v := Container(st.obj, st.items);
      Done(s, i, st.outer, v, conv) == if st.outer.Empty? then Some((v, i))
          else AfterItem(s, i, Push(st.outer, v), conv)
  {
  }

  lemma PushPlace(st: Stack, v: Value)
    requires st.Inner?
    ensures Place(Push(st, v)) == Place(st) && (Waiting(Push(st, v)) <==> Waiting(st))
  {
  }

  lemma ChildPlace(st: Stack, obj: bool)
    requires st.Inner?
    ensures Place(Child(st, obj)) == |Encoded(st, N(st) + 1)| && N(Child(st, obj)) == 0
    ensures Waiting(st) && (st.obj ==> N(st) % 2 == 1) ==> Waiting(Child(st, obj))
  {
  }

  /** Following the distance stored in the innermost container leads to its parent. */
  lemma ParentPlace(st: Stack, v: Value)
    requires st.Inner? && Waiting(st)
    ensures Back(st) <= Place(st) && (Back(st) == 0 <==> st.outer.Empty?)
    ensures st.outer.Inner? ==>
              var p := Push(st.outer, v);
              && Place(st) - Back(st) == Place(p) && Waiting(p)
              && N(p) > 0 && (p.obj ==> N(p) % 2 == 0)
  {
    hide Encoded, FlatAll, Place, Back, Waiting;
    EncodedTop(st, 0);
    WaitingParent(st, v);
    if st.outer.Inner? { PushPlace(st.outer, v); }
  }

  lemma WaitingParent(st: Stack, v: Value)
    requires st.Inner? && Waiting(st)
    ensures Waiting(st.outer)
    ensures st.outer.Inner? ==> N(Push(st.outer, v)) == N(st.outer) + 1 && (st.outer.obj ==> N(st.outer) % 2 == 1)
  {
  }

  /** The literals byte by byte. */
  lemma Literals(s: seq<u8>, i: nat)
    ensures Has(s, i, TrueText) <==>
        At(s, i) == 116 && At(s, i + 1) == 114 && At(s, i + 2) == 117
        && At(s, i + 3) == 101
    ensures Has(s, i, FalseText) <==>
            At(s, i) == 102 && At(s, i + 1) == 97 && At(s, i + 2) == 108 && At(s, i + 3) == 115 && At(s, i + 4) == 101
    ensures Has(s, i, NullText) <==>
        At(s, i) == 110 && At(s, i + 1) == 117 && At(s, i + 2) == 108
        && At(s, i + 3) == 108
  {
    Four(s, i, TrueText);
    Four(s, i, NullText);
    Four(s, i, FalseText);
  }

  lemma Four(s: seq<u8>, i: nat, t: seq<u8>)
    requires 4 <= |t| <= 5 && forall k | 0 <= k < |t| :: t[k] != 0
    ensures Has(s, i, t) <==>
        At(s, i) == t[0] && At(s, i + 1) == t[1] && At(s, i + 2) == t[2] && At(s, i + 3) == t[3]
        && (|t| == 5 ==> At(s, i + 4) == t[4])
  {
    if Has(s, i, t) {
      HasByte(s, i, t, 0, i);
      HasByte(s, i, t, 1, i + 1);
      HasByte(s, i, t, 2, i + 2);
      HasByte(s, i, t, 3, i + 3);
      if |t| == 5 { HasByte(s, i, t, 4, i + 4); }
    }
  }
}
