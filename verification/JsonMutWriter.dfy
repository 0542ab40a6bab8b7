/** yyjson_mut_write_minify: the text of a linked document. A context also remembers the enclosing
    container, whose link leads on when an inner one ends. */
module JsonMutWriter {
  import opened Bytes
  import opened JsonString
  import opened JsonDoc
  import opened JsonWriter
  import opened JsonMutable

  /** The contexts as bytes, the innermost first; outers are the containers they hold. */
  function MutBytes(c: Ctx, outers: seq<int>): (b: seq<u8>)
    requires |outers| == Depth(c)
    ensures |b| == 16 * Depth(c)
  {
    if c.Bottom? then []
    else PutWord(Tag(|c.rest| + 1, c.obj)) + (PutWord(outers[0]) + MutBytes(c.outer, outers[1..]))
  }

  /** Container ctn is the open item of context c: its link leads to the items that remain. */
  ghost predicate CtxLinks(m: seq<Node>, ctn: int, c: Ctx, outers: seq<int>)
    requires |outers| == Depth(c)
    decreases c
  {
    c.In? ==>
      && 0 <= outers[0] < |m|
      && (c.rest != [] ==> Chain(m, NextOf(m, ctn), c.rest))
      && CtxLinks(m, outers[0], c.outer, outers[1..])
  }

  /** Addresses and counts fit their fields. */
  predicate Cells(m: seq<Node>) {
    |m| < USIZE_END && forall p | 0 <= p < |m| && m[p].tok.TCtn? :: m[p].tok.len < USIZE_END / 8
  }

  /** The writer stands before the items rest, the first of them at val, inside ctn. */
  ghost predicate MutPending(f: Flags, T: seq<u8>, text: seq<u8>, m: seq<Node>, ctn: int, val: int, obj: bool, n: nat,
                             rest: seq<Value>, c: Ctx, outers: seq<int>) {
    && |outers| == Depth(c) && CtxOk(c) && 0 <= ctn < |m| && Cells(m) && |rest| < USIZE_END / 2
    && (rest != [] ==> Chain(m, val, rest)) && CtxLinks(m, ctn, c, outers)
    && AfterItem(f, T, text, obj, n, rest, c)
  }

  lemma CellOf(m: seq<Node>, p: int, v: Value)
    requires Links(m, p, v)
    ensures 0 <= p < |m| && IsCell(m[p].tok, v) && (v.Container? <==> m[p].tok.TCtn?)
    ensures v.Container? && v.items != [] ==> Chain(m, HeadOf(m, v.obj, m[p].tok.ofs), v.items)
  {
    hide FlatAll, Chain, Hop;
  }

  lemma ChainHead(m: seq<Node>, p: int, items: seq<Value>)
    requires Chain(m, p, items) && items != []
    ensures Links(m, p, items[0]) && Chain(m, NextOf(m, p), items[1..])
  {
    hide Links;
  }

  /** What the node at val tells about the item to be written. */
  lemma MutFront(f: Flags, T: seq<u8>, text: seq<u8>, m: seq<Node>, ctn: int, val: int, obj: bool, n: nat,
                 rest: seq<Value>, c: Ctx, outers: seq<int>)
    requires MutPending(f, T, text, m, ctn, val, obj, n, rest, c, outers) && rest != []
    ensures 0 <= val < |m| && IsCell(m[val].tok, rest[0]) && Writable(rest[0])
    ensures (KeyNext(obj, n) ==> rest[0].Str?) && (KeyNext(obj, n) <==> obj && |rest| % 2 == 0)
    ensures rest[0].Container? <==> m[val].tok.TCtn?
    ensures rest[0].Container? ==>
              var v := rest[0];
              (v.obj ==> |v.items| % 2 == 0) && |v.items| < USIZE_END / 4
                && (m[val].tok.len == 0 <==> v.items == [])
                && (v.items != [] ==> Chain(m, HeadOf(m, v.obj, m[val].tok.ofs), v.items))
  {
    hide Links, Chain, Flat, FlatAll, CtxOk, Writable, CtxText, TextOf, TextItems, CtxLinks, Hop;
    ItemFacts(f, T, text, obj, n, rest, c);
    ChainHead(m, val, rest);
    CellOf(m, val, rest[0]);
    hide AfterItem, AllWritable;
    if rest[0].Container? { InnerOk(rest[0]); }
  }

  /** After an item that is no container with items. */
  lemma MutNext(f: Flags, T: seq<u8>, text: seq<u8>, m: seq<Node>, ctn: int, val: int, obj: bool, n: nat,
                rest: seq<Value>, c: Ctx, outers: seq<int>)
    requires MutPending(f, T, text, m, ctn, val, obj, n, rest, c, outers) && rest != []
    ensures MutPending(f, T, text + TextOf(f, rest[0]) + [Sep(obj, n)], m, ctn, NextOf(m, val), obj, n + 1, rest[1..],
        c, outers)
  {
    hide Links, CtxOk, AtItem, AtEnd, TextOf, CtxLinks, Cells;
    ItemDone(f, T, text, obj, n, rest, c);
  }

  /** After the opening bracket of a container with items. */
  lemma MutOpen(f: Flags, T: seq<u8>, text: seq<u8>, m: seq<Node>, ctn: int, val: int, obj: bool, n: nat,
                rest: seq<Value>, c: Ctx, outers: seq<int>)
    requires MutPending(f, T, text, m, ctn, val, obj, n, rest, c, outers) && rest != []
    requires rest[0].Container? && rest[0].items != [] && 0 <= val < |m| && m[val].tok.TCtn?
        && |rest[0].items| < USIZE_END / 4
    requires Chain(m, HeadOf(m, rest[0].obj, m[val].tok.ofs), rest[0].items)
    ensures var v, d := rest[0], In(c, obj, n + 1, rest[1..]);
      && MutPending(f, T, text + [Open(v.obj)], m, val, HeadOf(m, v.obj, m[val].tok.ofs), v.obj, 0, v.items, d,
          [ctn] + outers)
      && MutBytes(d, [ctn] + outers) == PutWord(Tag(|rest|, obj)) + (PutWord(ctn) + MutBytes(c, outers))
  {
    FirstItem(f, obj, n, rest);
    ItemOpen(f, T, text, obj, n, rest, c);
    hide Links, AtItem, AtEnd, TextOf, TextItems, AllWritable, CtxText, PutWord, Cells;
    var d := In(c, obj, n + 1, rest[1..]);
    assert ([ctn] + outers)[1..] == outers;
    OpenOk(obj, n, rest, c);
    assert CtxLinks(m, val, d, [ctn] + outers);
  }

  lemma OpenOk(obj: bool, n: nat, rest: seq<Value>, c: Ctx)
    requires rest != [] && |rest| < USIZE_END / 2 && CtxOk(c) && RestOk(obj, n + 1, rest[1..])
    ensures CtxOk(In(c, obj, n + 1, rest[1..]))
  {
  }

  lemma EndIsText(f: Flags, T: seq<u8>, text: seq<u8>, obj: bool, c: Ctx)
    requires AtEnd(f, T, text, obj, c)
    ensures text != []
  {
  }

  /** After the closing bracket of the current container. */
  lemma MutEnd(f: Flags, T: seq<u8>, text: seq<u8>, m: seq<Node>, ctn: int, val: int, obj: bool, n: nat, c: Ctx,
               outers: seq<int>)
    requires MutPending(f, T, text, m, ctn, val, obj, n, [], c, outers)
    ensures text != []
    ensures var text' := text[..|text| - 1] + [Close(obj)] + [44];
      if c.Bottom? then text'[..|text'| - 1] == T && Depth(c) == 0
      else
        && MutPending(f, T, text', m, outers[0], NextOf(m, ctn), c.obj, c.n, c.rest, c.outer, outers[1..])
        && MutBytes(c, outers) == PutWord(Tag(|c.rest| + 1, c.obj))
            + (PutWord(outers[0]) + MutBytes(c.outer, outers[1..]))
        && Tag(|c.rest| + 1, c.obj) < USIZE_END && 0 <= outers[0] < USIZE_END && Depth(c) == Depth(c.outer) + 1
  {
    hide Links, Chain, TextOf, TextItems, AllWritable, CtxText, PutWord, Close, AtItem;
    EndClose(f, T, text, obj, c);
    EndIsText(f, T, text, obj, c);
    hide AtEnd, AfterItem;
  }

  class MutWriter {
    const m: seq<Node>
    const f: Flags
    const out: Output
    var ctn: int
    var val: int
    var ctnLen: nat
    var ctnObj: bool
    /** Whether the last item of the current container has been written. */
    var ended: bool
    ghost const T: seq<u8>
    ghost var n: nat
    ghost var rest: seq<Value>
    ghost var c: Ctx
    ghost var outers: seq<int>

    ghost predicate Valid()
      reads this, out, out.buf
    {
      && out.Valid() && |outers| == Depth(c) && out.Contexts() == MutBytes(c, outers)
      && ctnLen == |rest| && (ended <==> rest == []) && (ended ==> out.cur + 1 <= out.ctx)
      && MutPending(f, T, out.Text(), m, ctn, val, ctnObj, n, rest, c, outers)
    }

    /** Values and brackets that remain, for termination. */
    ghost function Left(): nat
      reads this
    {
      2 * (|FlatAll(rest)| + |CtxFlat(c)|) + Depth(c) + if ended then 1 else 0
    }

    constructor (m: seq<Node>, root: int, f: Flags, ghost v: Value)
      requires Links(m, root, v) && Cells(m) && Writable(v) && v.Container? && v.items != []
      ensures Valid() && fresh(out) && fresh(out.buf) && T == TextOf(f, v)
    {
      hide TextOf, Writable, Links, Chain, MutPending, MutBytes, Cells;
      MutRoot(m, root, f, v);
      var o := new Output(64, 16);
      var t := m[root].tok;
      assert [Open(t.obj)][..1] == [Open(t.obj)];
      o.Store([Open(t.obj)], 1);
      assert o.Text() == [Open(v.obj)];
      this.m, this.f, this.out := m, f, o;
      ctn := root;
      ctnObj := t.obj;
      ctnLen := if t.obj then t.len * 2 else t.len;
      val := HeadOf(m, t.obj, t.ofs);
      ended := false;
      T := TextOf(f, v);
      n, rest, c, outers := 0, v.items, Bottom, [];
    }

    /** val_begin: one value, or the opening bracket of a container. */
    method WriteItem()
      requires Valid() && !ended
      modifies this`ctn, this`val, this`ctnLen, this`ctnObj, this`ended, this`n, this`rest, this`c, this`outers, out,
          out.buf
      ensures Valid() && Left() < old(Left()) && (out.buf == old(out.buf) || fresh(out.buf))
    {
      hide MutPending, MutBytes, Flat, FlatAll, CtxFlat, TextOf, Writable, Sep, IsCell, Chain;
      ghost var text := out.Text();
      MutFront(f, T, text, m, ctn, val, ctnObj, n, rest, c, outers);
      LeftAfter(rest);
      var t := m[val].tok;
      if t.TCtn? && t.len > 0 {
        WriteOpen();
        return;
      }
      MutNext(f, T, text, m, ctn, val, ctnObj, n, rest, c, outers);
      out.WriteClosed(t, f, ctnObj, ctnLen, n, rest[0]);
      ctnLen := ctnLen - 1;
      ended := ctnLen == 0;
      val := m[val].next;
      n, rest := n + 1, rest[1..];
    }

    /** A container that is not empty: the current one is pushed. */
    method WriteOpen()
      requires Valid() && !ended && 0 <= val < |m| && m[val].tok.TCtn? && m[val].tok.len > 0
      modifies this`ctn, this`val, this`ctnLen, this`ctnObj, this`n, this`rest, this`c, this`outers, out, out.buf
      ensures Valid() && Left() < old(Left()) && (out.buf == old(out.buf) || fresh(out.buf))
    {
      hide MutPending, MutBytes, Flat, FlatAll, CtxFlat, TextOf, Writable, Sep, PutWord, Chain, Tag;
      ghost var text := out.Text();
      MutFront(f, T, text, m, ctn, val, ctnObj, n, rest, c, outers);
      MutOpen(f, T, text, m, ctn, val, ctnObj, n, rest, c, outers);
      LeftOpened(rest, c, ctnObj, n);
      TagRoom(f, T, text, m, ctn, val, ctnObj, n, rest, c, outers);
      out.OpenLinked(ctnLen, ctnObj, ctn, m[val].tok.obj);
      Enter();
    }

    /** The first item of the container at val is next. */
    method Enter()
      requires 0 <= val < |m| && m[val].tok.TCtn? && rest != [] && rest[0].Container? && rest[0].items != []
      requires m[val].tok.obj == rest[0].obj && |outers| == Depth(c) && out.Valid() && !ended
      requires |rest[0].items| == if m[val].tok.obj then m[val].tok.len * 2 else m[val].tok.len
      requires var v, d := rest[0], In(c, ctnObj, n + 1, rest[1..]);
        && out.Contexts() == MutBytes(d, [ctn] + outers)
        && MutPending(f, T, out.Text(), m, val, HeadOf(m, v.obj, m[val].tok.ofs), v.obj, 0, v.items, d, [ctn] + outers)
      modifies this`ctn, this`val, this`ctnLen, this`ctnObj, this`n, this`rest, this`c, this`outers
      ensures Valid() && rest == old(rest)[0].items && c == In(old(c), old(ctnObj), old(n) + 1, old(rest)[1..])
    {
      hide MutPending, MutBytes;
      var t := m[val].tok;
      c, outers := In(c, ctnObj, n + 1, rest[1..]), [ctn] + outers;
      n, rest := 0, rest[0].items;
      ctnLen := if t.obj then t.len * 2 else t.len;
      ctnObj := t.obj;
      ctn := val;
      val := HeadOf(m, t.obj, t.ofs);
    }

    /** ctn_end: close the current container and go on behind it. */
    method EndContainer() returns (bottom: bool)
      requires Valid() && ended
      modifies this`ctn, this`val, this`ctnLen, this`ctnObj, this`ended, this`n, this`rest, this`c, this`outers, out,
          out.buf
      ensures out.buf == old(out.buf)
      ensures bottom ==> out.Valid() && 0 < out.cur && out.Text()[..out.cur - 1] == T
      ensures !bottom ==> Valid() && Left() < old(Left())
    {
      hide MutPending, MutBytes, PutWord, Flat, FlatAll, Chain, Links, CtxFlat, Tag;
      ghost var text := out.Text();
      MutEnd(f, T, text, m, ctn, val, ctnObj, n, c, outers);
      LeftClosed(c);
      out.CloseNested(ctnObj);
      bottom := out.ctx >= out.buf.Length;
      if !bottom { Resume(); }
    }

    /** Back to the enclosing container, at the item after the one closed. */
    method Resume()
      requires out.Valid() && c.In? && |outers| == Depth(c) && out.Contexts() == MutBytes(c, outers)
          && out.cur <= out.ctx
      requires MutPending(f, T, out.Text(), m, outers[0], NextOf(m, ctn), c.obj, c.n, c.rest, c.outer, outers[1..])
      requires MutBytes(c, outers) == PutWord(Tag(|c.rest| + 1, c.obj))
          + (PutWord(outers[0]) + MutBytes(c.outer, outers[1..]))
      requires Tag(|c.rest| + 1, c.obj) < USIZE_END && 0 <= outers[0] < USIZE_END && Depth(c) == Depth(c.outer) + 1
      modifies this`ctn, this`val, this`ctnLen, this`ctnObj, this`ended, this`n, this`rest, this`c, this`outers, out`ctx
      ensures Valid() && rest == old(c).rest && c == old(c).outer
    {
      hide MutPending, MutBytes, PutWord, Tag, Depth, NextOf;
      val := NextOf(m, ctn);
      var size, obj, outer := out.PopLinked(|c.rest| + 1, c.obj, outers[0], MutBytes(c.outer, outers[1..]));
      ctn, ctnLen, ctnObj := outer, size - 1, obj;
      ended := ctnLen == 0;
      n, rest, c, outers := c.n, c.rest, c.outer, outers[1..];
    }

    /** doc_end: the text ends before the last comma. */
    method Run() returns (len: nat)
      requires Valid()
      modifies this`ctn, this`val, this`ctnLen, this`ctnObj, this`ended, this`n, this`rest, this`c, this`outers, out,
          out.buf
      ensures len <= out.buf.Length && out.buf[..len] == T
    {
      hide MutPending, MutBytes, FlatAll, CtxFlat;
      while true
        invariant Valid() && (out.buf == old(out.buf) || fresh(out.buf))
        decreases Left()
      {
        if !ended {
          WriteItem();
        } else {
          var bottom := EndContainer();
          if bottom {
            ghost var text := out.Text();
            out.Replace(0);
            assert out.buf[..out.cur - 1] == out.Text()[..out.cur - 1] == text[..out.cur - 1];
            return out.cur - 1;
          }
        }
      }
    }
  }

  lemma MutRoot(m: seq<Node>, root: int, f: Flags, v: Value)
    requires Links(m, root, v) && Cells(m) && Writable(v) && v.Container? && v.items != []
    ensures 0 <= root < |m| && m[root].tok.TCtn? && m[root].tok.obj == v.obj && MutBytes(Bottom, []) == []
    ensures MutPending(f, TextOf(f, v), [Open(v.obj)], m, root, HeadOf(m, v.obj, m[root].tok.ofs), v.obj, 0, v.items,
        Bottom, [])
    ensures |v.items| == if v.obj then m[root].tok.len * 2 else m[root].tok.len
  {
    hide TextOf, TextItems, Links, Chain, AllWritable;
    CellOf(m, root, v);
    InnerOk(v);
    RootItem(f, v);
  }

  lemma TagRoom(f: Flags, T: seq<u8>, text: seq<u8>, m: seq<Node>, ctn: int, val: int, obj: bool, n: nat,
                rest: seq<Value>, c: Ctx, outers: seq<int>)
    requires MutPending(f, T, text, m, ctn, val, obj, n, rest, c, outers)
    ensures |rest| < USIZE_END / 2 && 0 <= ctn < USIZE_END
  {
  }

  lemma LeftAfter(rest: seq<Value>)
    requires rest != []
    ensures |FlatAll(rest)| >= |FlatAll(rest[1..])| + 1
  {
    FlatHead(rest);
    hide Flat, FlatAll;
  }

  lemma LeftOpened(rest: seq<Value>, c: Ctx, obj: bool, n: nat)
    requires rest != [] && rest[0].Container?
    ensures |FlatAll(rest[0].items)| + |CtxFlat(In(c, obj, n + 1, rest[1..]))| + 1 == |FlatAll(rest)| + |CtxFlat(c)|
  {
    FlatHead(rest);
    FlatHeadSize(rest[0]);
    hide Flat, FlatAll;
  }

  lemma LeftClosed(c: Ctx)
    ensures |FlatAll([])| == 0 && (c.In? ==> |CtxFlat(c)| == |FlatAll(c.rest)| + |CtxFlat(c.outer)|)
  {
    NoItems();
    hide FlatAll;
  }

  /** yyjson_mut_write_minify: the text of the document linked at root. */
  method MutWriteMinify(m: seq<Node>, root: int, f: Flags, ghost v: Value) returns (buf: array<u8>, len: nat)
    requires Links(m, root, v) && Cells(m) && Writable(v) && v.Container? && v.items != []
    ensures len <= buf.Length && buf[..len] == TextOf(f, v)
  {
    hide TextOf, Links, Writable, Cells;
    var w := new MutWriter(m, root, f, v);
    len := w.Run();
    buf := w.out.buf;
  }
}
