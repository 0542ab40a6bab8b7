/** yyjson_write_minify: the text grows from the front of one buffer, the stack of open
    containers from its end. */
module JsonWriter {
  import opened Bytes
  import opened JsonDigits
  import opened JsonNumber
  import opened JsonString
  import opened JsonDoc
  import Lists

  // ---- contexts

  /** A context: the number of items not yet finished and the kind of container, in one word. */
  function Tag(size: nat, obj: bool): nat { size * 2 + if obj then 1 else 0 }

  const USIZE_END: int := 0x1_0000_0000_0000_0000

  function PutWord(x: int): (b: seq<u8>)
    ensures |b| == 8
  {
    PutU32(x % 0x1_0000_0000) + PutU32(x / 0x1_0000_0000 % 0x1_0000_0000)
  }

  function GetWord(b: seq<u8>): int
    requires |b| == 8
  {
    GetU32(b, 0) as int + GetU32(b, 4) as int * 0x1_0000_0000
  }

  lemma WordRoundTrip(x: int)
    requires 0 <= x < USIZE_END
    ensures GetWord(PutWord(x)) == x
  {
    hide PutU32, GetU32;
    var lo, hi := x % 0x1_0000_0000, x / 0x1_0000_0000 % 0x1_0000_0000;
    assert PutWord(x)[0..4] == PutU32(lo) && PutWord(x)[4..8] == PutU32(hi);
    U32RoundTrip(lo, PutWord(x), 0);
    U32RoundTrip(hi, PutWord(x), 4);
  }

  /** The enclosing containers of the one being written: n items of each are done, the last of
      them being open, and rest remain. */
  datatype Ctx = Bottom | In(outer: Ctx, obj: bool, n: nat, rest: seq<Value>)

  function Depth(c: Ctx): nat { if c.Bottom? then 0 else 1 + Depth(c.outer) }

  /** The contexts as bytes, the innermost first. */
  function CtxBytes(c: Ctx): (b: seq<u8>)
    ensures |b| == 8 * Depth(c)
  {
    if c.Bottom? then [] else PutWord(Tag(|c.rest| + 1, c.obj)) + CtxBytes(c.outer)
  }

  /** The values of the enclosing containers that remain. */
  function CtxFlat(c: Ctx): seq<Tok<seq<u8>>> {
    if c.Bottom? then [] else FlatAll(c.rest) + CtxFlat(c.outer)
  }

  /** The text that follows when the container inside c is closed. */
  function CtxText(f: Flags, c: Ctx): seq<u8> {
    if c.Bottom? then []
    else (if c.rest == [] then [] else [44] + TextItems(f, c.obj, c.n, c.rest)) + ([Close(c.obj)] + CtxText(f, c.outer))
  }

  /** Items rest of a container of which n are done can be written. */
  predicate RestOk(obj: bool, n: nat, rest: seq<Value>) {
    AllWritable(obj, n, rest) && (obj ==> (n + |rest|) % 2 == 0)
  }

  predicate CtxOk(c: Ctx) {
    c.In? ==> RestOk(c.obj, c.n, c.rest) && |c.rest| + 1 < USIZE_END / 2 && CtxOk(c.outer)
  }

  // ---- the buffer

  /** size_align_up */
  function AlignUp(x: nat, unit: nat): (r: nat)
    requires unit > 0
    ensures x <= r < x + unit
  {
    var rest := x % unit;
    if rest == 0 then x else x + (unit - rest)
  }

  class Output {
    var buf: array<u8>
    var cur: nat
    var ctx: nat
    /** The size of a context. */
    const unit: nat

    /** Text and contexts do not overlap. */
    ghost predicate Valid()
      reads this
    {
      cur <= ctx <= buf.Length && buf.Length >= 64 && unit > 0
    }

    ghost function Text(): seq<u8>
      reads this, buf
    {
      if cur <= buf.Length then buf[..cur] else []
    }

    ghost function Contexts(): seq<u8>
      reads this, buf
    {
      if ctx <= buf.Length then buf[ctx..] else []
    }

    constructor (size: nat, unit: nat)
      requires size >= 64 && unit > 0
      ensures Valid() && fresh(buf) && Text() == [] && Contexts() == [] && ctx == buf.Length == size
    {
      this.unit := unit;
      buf := new u8[size];
      cur := 0;
      ctx := size;
    }

    /** incr_len: room for k bytes between text and contexts; a larger buffer keeps the contexts
        at its end. */
    method IncrLen(k: nat)
      requires Valid()
      modifies this`buf, this`ctx
      ensures Valid() && cur + k <= ctx && Text() == old(Text()) && Contexts() == old(Contexts())
      ensures k < 32 ==> cur + k < ctx
      ensures buf == old(buf) || fresh(buf)
    {
      if cur + k >= ctx {
        var inc := if buf.Length / 2 > k then buf.Length / 2 else k;
        Enlarge(AlignUp(inc, unit));
      }
    }

    /** A buffer larger by inc bytes. */
    method Enlarge(inc: nat)
      requires Valid()
      modifies this`buf, this`ctx
      ensures Valid() && ctx == old(ctx) + inc && Text() == old(Text()) && Contexts() == old(Contexts()) && fresh(buf)
    {
      var tmp := new u8[buf.Length + inc];
      ghost var text, tags := buf[..cur], buf[ctx..];
      PutBytes(tmp, 0, buf[..cur]);
      PutBytes(tmp, ctx + inc, buf[ctx..]);
      assert tmp[..cur] == text && tmp[ctx + inc..] == tags;
      buf := tmp;
      ctx := ctx + inc;
    }

    /** Write bytes and advance over the first n of them. */
    method Store(bytes: seq<u8>, n: nat)
      requires Valid() && n <= |bytes| && cur + |bytes| <= ctx
      modifies this`cur, buf
      ensures Valid() && cur == old(cur) + n && Text() == old(Text()) + bytes[..n] && Contexts() == old(Contexts())
    {
      ghost var was, tags := buf[..cur], buf[ctx..];
      PutBytes(buf, cur, bytes);
      assert buf[..cur] == was && buf[ctx..] == tags;
      assert buf[..cur + n] == buf[..cur] + buf[cur..cur + |bytes|][..n];
      cur := cur + n;
    }

    /** Overwrite the last byte of the text. */
    method Replace(b: u8)
      requires Valid() && 0 < cur
      modifies buf
      ensures Text() == old(Text())[..cur - 1] + [b] && Contexts() == old(Contexts())
    {
      ghost var was, tags := buf[..cur - 1], buf[ctx..];
      buf[cur - 1] := b;
      assert buf[..cur] == buf[..cur - 1] + [b];
    }

    /** A word in front of the contexts. */
    method PushWord(x: int)
      requires Valid() && cur + 8 <= ctx
      modifies this`ctx, buf
      ensures Valid() && ctx == old(ctx) - 8 && Text() == old(Text()) && Contexts() == PutWord(x) + old(Contexts())
    {
      ghost var was, tags := buf[..cur], buf[ctx..];
      var w := PutWord(x);
      ctx := ctx - 8;
      PutBytes(buf, ctx, w);
      assert buf[..cur] == was && buf[ctx + 8..] == tags;
      assert buf[ctx..] == buf[ctx..ctx + 8] + buf[ctx + 8..];
    }

    /** Takes the first word of the contexts off. */
    method PopWord(ghost x: int, ghost below: seq<u8>) returns (w: int)
      requires Valid() && 0 <= x < USIZE_END && Contexts() == PutWord(x) + below
      modifies this`ctx
      ensures Valid() && ctx == old(ctx) + 8 && Contexts() == below && w == x
    {
      WordRoundTrip(x);
      assert buf[ctx..ctx + 8] == buf[ctx..][..8] == PutWord(x);
      hide PutWord, GetWord;
      w := GetWord(buf[ctx..ctx + 8]);
      ctx := ctx + 8;
      assert buf[ctx..] == (PutWord(x) + below)[8..];
    }

    /** Push the current container, and write the opening bracket of a new one. */
    method OpenNested(size: nat, obj: bool, child: bool)
      requires Valid() && Tag(size, obj) < USIZE_END
      modifies this, buf
      ensures Valid() && Text() == old(Text()) + [Open(child)] && (buf == old(buf) || fresh(buf))
      ensures Contexts() == PutWord(Tag(size, obj)) + old(Contexts())
    {
      hide PutWord;
      IncrLen(16);
      PushWord(Tag(size, obj));
      assert [Open(child)][..1] == [Open(child)];
      Store([Open(child)], 1);
    }

    /** The same, with the address of the current container in its context. */
    method OpenLinked(size: nat, obj: bool, ctn: int, child: bool)
      requires Valid()
      modifies this, buf
      ensures Valid() && Text() == old(Text()) + [Open(child)] && (buf == old(buf) || fresh(buf))
      ensures Contexts() == PutWord(Tag(size, obj)) + (PutWord(ctn) + old(Contexts()))
    {
      hide PutWord;
      IncrLen(16);
      PushWord(ctn);
      PushWord(Tag(size, obj));
      assert [Open(child)][..1] == [Open(child)];
      Store([Open(child)], 1);
    }

    /** yyjson_mut_write_ctx_get, ctx++ */
    method PopLinked(ghost size0: nat, ghost obj0: bool, ghost ctn0: int, ghost below: seq<u8>)
        returns (size: nat, obj: bool, ctn: int)
      requires Valid() && Tag(size0, obj0) < USIZE_END && 0 <= ctn0 < USIZE_END
      requires Contexts() == PutWord(Tag(size0, obj0)) + (PutWord(ctn0) + below)
      modifies this`ctx
      ensures Valid() && ctx == old(ctx) + 16 && Contexts() == below && size == size0 && obj == obj0 && ctn == ctn0
    {
      hide PutWord;
      size, obj := PopCtx(size0, obj0, PutWord(ctn0) + below);
      ctn := PopWord(ctn0, below);
    }

    /** Write a closing bracket over the last comma, and a comma. */
    method CloseNested(obj: bool)
      requires Valid() && 0 < cur && cur + 1 <= ctx
      modifies this`cur, buf
      ensures Valid() && cur == old(cur) + 1 && Contexts() == old(Contexts())
      ensures Text() == old(Text())[..old(cur) - 1] + [Close(obj)] + [44]
    {
      Replace(Close(obj));
      assert [44 as u8][..1] == [44];
      Store([44], 1);
    }

    /** yyjson_write_ctx_get, ctx++ */
    method PopCtx(ghost size0: nat, ghost obj0: bool, ghost below: seq<u8>) returns (size: nat, obj: bool)
      requires Valid() && Tag(size0, obj0) < USIZE_END && Contexts() == PutWord(Tag(size0, obj0)) + below
      modifies this`ctx
      ensures Valid() && ctx == old(ctx) + 8 && Contexts() == below && size == size0 && obj == obj0
    {
      hide PutWord;
      var tag := PopWord(Tag(size0, obj0), below);
      size, obj := tag / 2, tag % 2 == 1;
    }

    /** write_string */
    method WriteString(str: seq<u8>, f: Flags)
      requires Valid() && Utf8(str) && cur + 6 * |str| + 2 <= ctx
      modifies this`cur, buf
      ensures Valid() && cur <= old(cur) + 6 * |str| + 2 && Contexts() == old(Contexts())
      ensures Text() == old(Text()) + ([34] + (JsonString.Text(f, str) + [34]))
    {
      hide Utf8Len, TypeOf, Piece, Utf8, JsonString.Text;
      ghost var was := Text() + [34];
      Store([34], 1);
      assert [34 as u8][..1] == [34];
      var i := 0;
      ghost var done: seq<u8> := [];
      TextStart(f, str, was);
      while i < |str|
        invariant i <= |str| && Valid() && ctx == old(ctx) && Contexts() == old(Contexts())
        invariant cur <= old(cur) + 6 * i + 1 && Text() == was + done && TextSplit(f, str, i, done)
        decreases |str| - i
      {
        var n := WritePiece(str, i, f, done);
        Lists.Assoc(was, done, Piece(f, str[i..]));
        done := done + Piece(f, str[i..]);
        i := i + n;
      }
      TextEnd(f, str, done);
      Store([34], 1);
      Quoted(old(Text()), done);
    }

    /** The bytes write_string emits for the character at i. */
    method WritePiece(str: seq<u8>, i: nat, f: Flags, ghost done: seq<u8>) returns (n: nat)
      requires Valid() && i < |str| && TextSplit(f, str, i, done) && cur + 6 * (|str| - i) <= ctx
      modifies this`cur, buf
      ensures Utf8Len(str[i..], 0) > 0
      ensures var p := Piece(f, str[i..]);
        && Valid() && cur <= old(cur) + 6 * n && 0 < n && i + n <= |str|
        && Text() == old(Text()) + p && Contexts() == old(Contexts()) && TextSplit(f, str, i + n, done + p)
    {
      TextAdvance(f, str, i, done);
      n := StorePiece(str[i..], f);
    }

    method StorePiece(s: seq<u8>, f: Flags) returns (n: nat)
      requires Valid() && s != [] && Utf8Len(s, 0) > 0 && cur + |Piece(f, s)| <= ctx
      modifies this`cur, buf
      ensures n == Utf8Len(s, 0) && Valid() && cur == old(cur) + |Piece(f, s)|
      ensures Text() == old(Text()) + Piece(f, s) && Contexts() == old(Contexts())
    {
      LeadType(f, s);
      var t;
      match TypeOf(f, s[0]) {
        case Plain => t := s[..Utf8Len(s, 0)];
        case Ascii => t := [92, Letter(s[0])];
        case Utf1 => t := UEscape(s[0]);
        case Utf2 => t := UEscape(Code2(s));
        case Utf3 => t := UEscape(Code3(s));
        case Utf4 =>
          var u := (Code4(s) - 0x1_0000) % 0x1_0000_0000;
          t := UEscape((u / 0x400 + 0xd800) % 0x1_0000) + UEscape(u % 0x400 + 0xdc00);
      }
      assert t == Piece(f, s);
      hide Piece, Utf8Len, TypeOf, UEscape, Code2, Code3, Code4;
      assert t[..|t|] == t;
      Store(t, |t|);
      n := Utf8Len(s, 0);
    }

    /** write_number for integers: the digits are written behind the place of a sign. */
    method WriteNum(n: int)
      requires Valid() && -I64_ABS_MAX <= n <= U64_MAX && cur + 22 <= ctx
      modifies this`cur, buf
      ensures Valid() && cur <= old(cur) + 21 && Text() == old(Text()) + NumText(n) && Contexts() == old(Contexts())
    {
      hide Digits, Only;
      ghost var was := buf[..];
      var sgn := if n < 0 then 1 else 0;
      buf[cur] := 45;
      ghost var one := buf[..];
      var next := WriteU64(if n < 0 then -n else n, buf, cur + sgn);
      NumPlaced(was, one, buf[..], cur, ctx, sgn, next, Digits(if n < 0 then -n else n));
      assert buf[..next] == buf[..][..next] && buf[ctx..] == buf[..][ctx..];
      cur := next;
    }

    /** The text of a scalar, and the byte after it. */
    method WriteScalar(t: Tok<seq<u8>>, sep: u8, f: Flags, ghost v: Value)
      requires Valid() && !v.Container? && Writable(v) && [t] == Flat(v) && (v.Null? || v.Bool? ==> sep == 44)
      modifies this, buf
      ensures Valid() && cur + 9 <= ctx && 0 < cur && (buf == old(buf) || fresh(buf))
      ensures Text() == old(Text()) + TextOf(f, v) + [sep] && Contexts() == old(Contexts())
    {
      hide Utf8, JsonString.Text, NumText;
      assert [sep][..1] == [sep];
      match t {
        case TStr(s) =>
          IncrLen(|s| * 6 + 16);
          WriteString(s, f);
          Store([sep], 1);
        case TNum(n) =>
          IncrLen(32);
          WriteNum(n.n);
          Store([sep], 1);
        case TBool(b) =>
          IncrLen(16);
          if b { WriteLiteral(TrueText + [44, 10, 0, 0], 4); } else { WriteLiteral(FalseText + [44, 10, 0], 5); }
        case TNull =>
          IncrLen(16);
          WriteLiteral(NullText + [44, 10, 0, 0], 4);
      }
    }

    /** A scalar or an empty container, and the separator; len items are left in the container. */
    method WriteClosed(t: Tok<seq<u8>>, f: Flags, obj: bool, len: nat, ghost n: nat, ghost v: Value)
      requires Valid() && IsCell(t, v) && Writable(v) && (v.Container? ==> v.items == [])
      requires (KeyNext(obj, n) ==> v.Str?) && (KeyNext(obj, n) <==> obj && len % 2 == 0)
      modifies this, buf
      ensures Valid() && cur + 1 <= ctx && Contexts() == old(Contexts())
      ensures Text() == old(Text()) + TextOf(f, v) + [Sep(obj, n)]
      ensures buf == old(buf) || fresh(buf)
    {
      if t.TCtn? {
        IncrLen(16);
        EmptyText(f, v);
        hide TextOf;
        Store([Open(t.obj), Close(t.obj), 44], 3);
        assert Text() == old(Text()) + [Open(t.obj), Close(t.obj)] + [44];
      } else {
        ScalarFlat(v);
        hide TextOf, Writable;
        var isKey := obj && len % 2 == 0;
        WriteScalar(t, if t.TStr? && isKey then 58 else 44, f, v);
      }
    }

    /** write_bool, write_null: eight bytes at once, of which the literal and the comma stay. */
    method WriteLiteral(eight: seq<u8>, n: nat)
      requires Valid() && |eight| == 8 && n < 8 && eight[n] == 44 && cur + 16 <= ctx
      modifies this`cur, buf
      ensures Valid() && cur == old(cur) + n + 1 && ctx == old(ctx)
      ensures Text() == old(Text()) + eight[..n] + [44] && Contexts() == old(Contexts())
    {
      ghost var was := Text();
      Store(eight, n + 1);
      assert was + eight[..n + 1] == was + eight[..n] + [44];
    }
  }

  /** A sign, if any, and digits behind it. */
  lemma NumPlaced(was: seq<u8>, one: seq<u8>, two: seq<u8>, cur: nat, ctx: nat, sgn: nat, next: nat, digits: seq<u8>)
    requires cur + 22 <= ctx <= |was| && sgn <= 1 && one == was[cur := 45] && cur + sgn < next <= cur + sgn + 20
    requires Only(one, two, cur + sgn, cur + sgn + 21) && two[cur + sgn..next] == digits
    ensures |two| == |was| && two[..next] == was[..cur] + (if sgn == 1 then [45] + digits else digits)
        && two[ctx..] == was[ctx..]
  {
    assert two[..cur] == was[..cur];
    assert two[..next] == two[..cur] + two[cur..cur + sgn] + two[cur + sgn..next];
  }

  /** A stored value is that of v, up to the distance or link a container's cell ends with. */
  predicate IsCell(t: Tok<seq<u8>>, v: Value) {
    if v.Container? then t.TCtn? && t.obj == v.obj && t.len == Count(v.obj, |v.items|) else [t] == Flat(v)
  }

  /** The text of str is done, followed by that of the characters from i on. */
  ghost predicate TextSplit(f: Flags, str: seq<u8>, i: nat, done: seq<u8>) {
    i <= |str| && Utf8(str[i..]) && JsonString.Text(f, str) == done + JsonString.Text(f, str[i..])
  }

  lemma TextStart(f: Flags, str: seq<u8>, was: seq<u8>)
    requires Utf8(str)
    ensures TextSplit(f, str, 0, []) && was + [] == was
  {
    assert str[0..] == str;
  }

  lemma TextAdvance(f: Flags, str: seq<u8>, i: nat, done: seq<u8>)
    requires TextSplit(f, str, i, done) && i < |str|
    ensures var n := Utf8Len(str[i..], 0);
      && 0 < n && i + n <= |str| && |Piece(f, str[i..])| <= 6 * n
      && TextSplit(f, str, i + n, done + Piece(f, str[i..]))
  {
    hide Piece, Utf8Len, TypeOf, JsonString.Text;
    var s := str[i..];
    TextPiece(f, s);
    PieceSize(f, s);
    var n, p := Utf8Len(s, 0), Piece(f, s);
    assert s[n..] == str[i + n..];
    Lists.Assoc(done, p, JsonString.Text(f, s[n..]));
  }

  lemma TextEnd(f: Flags, str: seq<u8>, done: seq<u8>)
    requires TextSplit(f, str, |str|, done)
    ensures JsonString.Text(f, str) == done
  {
    assert str[|str|..] == [] && done + [] == done;
  }

  lemma PieceSize(f: Flags, s: seq<u8>)
    requires s != [] && Utf8Len(s, 0) > 0
    ensures |Piece(f, s)| <= 6 * Utf8Len(s, 0) && Utf8Len(s, 0) <= |s|
  {
    LeadType(f, s);
    PieceIs(f, s);
    hide UEscape, Code4, Code2, Code3;
  }

  lemma Quoted(was: seq<u8>, t: seq<u8>)
    ensures was + [34] + t + [34] == was + ([34] + (t + [34]))
  {
  }

  // ---- what remains to be written

  /** After text come the items rest of a container of which n are done, its end, and what its
      enclosing containers still need; together they are T. */
  ghost predicate AtItem(f: Flags, T: seq<u8>, text: seq<u8>, obj: bool, n: nat, rest: seq<Value>, c: Ctx) {
    && rest != [] && RestOk(obj, n, rest) && CtxOk(c)
    && text + (TextItems(f, obj, n, rest) + ([Close(obj)] + CtxText(f, c))) == T
  }

  /** The last byte of text is a separator in the place of a closing bracket. */
  ghost predicate AtEnd(f: Flags, T: seq<u8>, text: seq<u8>, obj: bool, c: Ctx) {
    && text != [] && CtxOk(c)
    && text[..|text| - 1] + ([Close(obj)] + CtxText(f, c)) == T
  }

  /** The state after an item and its separator. */
  ghost predicate AfterItem(f: Flags, T: seq<u8>, text: seq<u8>, obj: bool, n: nat, rest: seq<Value>, c: Ctx) {
    if rest == [] then AtEnd(f, T, text, obj, c) else AtItem(f, T, text, obj, n, rest, c)
  }

  lemma FirstItem(f: Flags, obj: bool, n: nat, rest: seq<Value>)
    requires rest != []
    ensures TextItems(f, obj, n, rest) ==
            TextOf(f, rest[0]) + ((if |rest| == 1 then [] else [Sep(obj, n)]) + TextItems(f, obj, n + 1, rest[1..]))
    ensures |rest| == 1 ==> TextItems(f, obj, n + 1, rest[1..]) == []
    ensures RestOk(obj, n, rest) ==>
              RestOk(obj, n + 1, rest[1..]) && Writable(rest[0]) && (KeyNext(obj, n) ==> rest[0].Str? && |rest| > 1)
  {
    hide TextOf;
  }

  lemma ItemDone(f: Flags, T: seq<u8>, text: seq<u8>, obj: bool, n: nat, rest: seq<Value>, c: Ctx)
    requires AtItem(f, T, text, obj, n, rest, c)
    ensures AfterItem(f, T, text + TextOf(f, rest[0]) + [Sep(obj, n)], obj, n + 1, rest[1..], c)
  {
    FirstItem(f, obj, n, rest);
    hide TextOf, TextItems, RestOk, CtxOk, CtxText, Sep, Close;
    var (t, tail) := (TextOf(f, rest[0]), TextItems(f, obj, n + 1, rest[1..]));
    var (close, text') := ([Close(obj)] + CtxText(f, c), text + t + [Sep(obj, n)]);
    if |rest| == 1 {
      LastItem(text, t, tail, close, Sep(obj, n));
    } else {
      NextItem(text, t, tail, close, Sep(obj, n));
    }
  }

  lemma LastItem(text: seq<u8>, t: seq<u8>, tail: seq<u8>, close: seq<u8>, sep: u8)
    requires tail == []
    ensures (text + t + [sep])[..|text + t + [sep]| - 1] + close == text + (t + ([] + tail) + close)
  {
    assert (text + t + [sep])[..|text + t + [sep]| - 1] == text + t;
  }

  lemma NextItem(text: seq<u8>, t: seq<u8>, tail: seq<u8>, close: seq<u8>, sep: u8)
    ensures text + t + [sep] + (tail + close) == text + (t + ([sep] + tail) + close)
  {
  }

  lemma ItemOpen(f: Flags, T: seq<u8>, text: seq<u8>, obj: bool, n: nat, rest: seq<Value>, c: Ctx)
    requires AtItem(f, T, text, obj, n, rest, c) && rest[0].Container? && rest[0].items != [] && |rest| < USIZE_END / 2
    ensures AtItem(f, T, text + [Open(rest[0].obj)], rest[0].obj, 0, rest[0].items, In(c, obj, n + 1, rest[1..]))
  {
    var v := rest[0];
    FirstItem(f, obj, n, rest);
    InnerOk(v);
    hide TextItems, Sep, Close, Open, AllWritable, Writable;
    var inner, tail, close := TextItems(f, v.obj, 0, v.items), TextItems(f, obj, n + 1, rest[1..]),
        [Close(obj)] + CtxText(f, c);
    var sep: seq<u8> := if |rest| == 1 then [] else [Sep(obj, n)];
    OpenText(text, [Open(v.obj)], inner, [Close(v.obj)], sep, tail, close);
    assert CtxText(f, In(c, obj, n + 1, rest[1..])) == (sep + tail)
        + close by { CommaText(f, c, obj, n, rest, sep, tail); }
  }

  lemma CommaText(f: Flags, c: Ctx, obj: bool, n: nat, rest: seq<Value>, sep: seq<u8>, tail: seq<u8>)
    requires rest != [] && !KeyNext(obj, n) && tail == TextItems(f, obj, n + 1, rest[1..])
        && (|rest| == 1 ==> tail == [])
    requires sep == if |rest| == 1 then [] else [Sep(obj, n)]
    ensures CtxText(f, In(c, obj, n + 1, rest[1..])) == (sep + tail) + ([Close(obj)] + CtxText(f, c))
  {
    hide TextItems;
    assert |rest| == 1 ==> rest[1..] == [] && sep + tail == [];
  }

  lemma InnerOk(v: Value)
    requires Writable(v) && v.Container?
    ensures RestOk(v.obj, 0, v.items)
  {
  }

  lemma OpenText(text: seq<u8>, open: seq<u8>, inner: seq<u8>, shut: seq<u8>, sep: seq<u8>, tail: seq<u8>,
                 close: seq<u8>)
    ensures text + open + (inner + (shut + (sep + tail + close))) == text
        + (open + (inner + shut) + (sep + tail) + close)
  {
    var a, b := shut + (sep + tail + close), inner + (shut + (sep + tail + close));
    assert open + (inner + shut) + (sep + tail) + close == open + b;
    assert text + open + b == text + (open + b);
  }

  lemma EndClose(f: Flags, T: seq<u8>, text: seq<u8>, obj: bool, c: Ctx)
    requires AtEnd(f, T, text, obj, c)
    ensures var text' := text[..|text| - 1] + [Close(obj)] + [44];
      if c.Bottom? then text'[..|text'| - 1] == T else AfterItem(f, T, text', c.obj, c.n, c.rest, c.outer)
  {
    var init := text[..|text| - 1];
    var text' := init + [Close(obj)] + [44];
    assert text'[..|text'| - 1] == init + [Close(obj)];
    if c.Bottom? {
      assert init + ([Close(obj)] + []) == init + [Close(obj)];
    } else {
      hide TextItems;
      var close := [Close(c.obj)] + CtxText(f, c.outer);
      if c.rest == [] {
        assert init + ([Close(obj)] + ([] + close)) == init + [Close(obj)] + close;
      } else {
        var tail := TextItems(f, c.obj, c.n, c.rest);
        assert init + ([Close(obj)] + ([44] + tail + close)) == init + [Close(obj)] + [44] + (tail + close);
      }
    }
  }

  // ---- the writer

  /** The writer stands before the items rest: they and the enclosing containers make up the
      stored values from val on, and their text completes T. */
  ghost predicate Pending(f: Flags, T: seq<u8>, text: seq<u8>, vals: seq<Tok<seq<u8>>>, val: nat, obj: bool, n: nat,
                          rest: seq<Value>, c: Ctx) {
    && CtxOk(c) && |vals| < USIZE_END / 4 && val <= |vals| && vals[val..] == FlatAll(rest) + CtxFlat(c)
    && AfterItem(f, T, text, obj, n, rest, c)
  }

  lemma ItemFacts(f: Flags, T: seq<u8>, text: seq<u8>, obj: bool, n: nat, rest: seq<Value>, c: Ctx)
    requires AfterItem(f, T, text, obj, n, rest, c) && rest != []
    ensures Writable(rest[0]) && (KeyNext(obj, n) ==> rest[0].Str?) && (KeyNext(obj, n) <==> obj && |rest| % 2 == 0)
  {
    hide TextOf, TextItems, CtxText, CtxOk;
    FirstItem(f, obj, n, rest);
    hide Writable, AllWritable;
  }

  /** What the stored value at val tells about the item to be written. */
  lemma PendingFront(f: Flags, T: seq<u8>, text: seq<u8>, vals: seq<Tok<seq<u8>>>, val: nat, obj: bool, n: nat,
                     rest: seq<Value>, c: Ctx)
    requires Pending(f, T, text, vals, val, obj, n, rest, c) && rest != []
    ensures val < |vals| && vals[val] == Flat(rest[0])[0] && Writable(rest[0]) && |rest| < USIZE_END / 4
    ensures KeyNext(obj, n) ==> rest[0].Str?
    ensures KeyNext(obj, n) <==> obj && |rest| % 2 == 0
    ensures rest[0].Container? <==> vals[val].TCtn?
    ensures rest[0].Container? ==>
              var v := rest[0];
              && vals[val].obj == v.obj && vals[val].len == Count(v.obj, |v.items|) && (v.obj ==> |v.items| % 2 == 0)
              && (vals[val].len == 0 <==> v.items == [])
  {
    hide Flat, FlatAll, CtxFlat, CtxOk, AllWritable, CtxText, TextOf, TextItems, AtItem, AtEnd;
    ItemFacts(f, T, text, obj, n, rest, c);
    FlatFront(vals, val, rest, CtxFlat(c));
    TagFits(vals, val, rest, c);
    EmptyCount(rest[0]);
    if rest[0].Container? {
      FlatParts(rest[0]);
      InnerOk(rest[0]);
    }
  }

  /** After an item that is no container with items. */
  lemma PendingNext(f: Flags, T: seq<u8>, text: seq<u8>, vals: seq<Tok<seq<u8>>>, val: nat, obj: bool, n: nat,
                    rest: seq<Value>, c: Ctx)
    requires Pending(f, T, text, vals, val, obj, n, rest, c) && rest != []
    requires !rest[0].Container? || rest[0].items == []
    ensures Pending(f, T, text + TextOf(f, rest[0]) + [Sep(obj, n)], vals, val + 1, obj, n + 1, rest[1..], c)
  {
    FlatFront(vals, val, rest, CtxFlat(c));
    FlatParts(rest[0]);
    hide Flat, FlatAll, CtxFlat, CtxOk, AtItem, AtEnd, TextOf;
    ItemDone(f, T, text, obj, n, rest, c);
    assert [] + (FlatAll(rest[1..]) + CtxFlat(c)) == FlatAll(rest[1..]) + CtxFlat(c);
  }

  /** After the opening bracket of a container with items. */
  lemma PendingOpen(f: Flags, T: seq<u8>, text: seq<u8>, vals: seq<Tok<seq<u8>>>, val: nat, obj: bool, n: nat,
                    rest: seq<Value>, c: Ctx)
    requires Pending(f, T, text, vals, val, obj, n, rest, c) && rest != [] && rest[0].Container? && rest[0].items != []
    ensures var v, d := rest[0], In(c, obj, n + 1, rest[1..]);
      && Pending(f, T, text + [Open(v.obj)], vals, val + 1, v.obj, 0, v.items, d)
      && CtxBytes(d) == PutWord(Tag(|rest|, obj)) + CtxBytes(c) && Depth(d) == Depth(c) + 1
  {
    FlatFront(vals, val, rest, CtxFlat(c));
    FlatParts(rest[0]);
    TagFits(vals, val, rest, c);
    FirstItem(f, obj, n, rest);
    hide Flat, FlatAll, AtEnd, TextOf, TextItems, AllWritable, CtxText;
    ItemOpen(f, T, text, obj, n, rest, c);
    PushedCtx(c, obj, n, rest);
    hide CtxFlat, CtxBytes, AtItem;
  }

  /** After the closing bracket of the current container. */
  lemma PendingEnd(f: Flags, T: seq<u8>, text: seq<u8>, vals: seq<Tok<seq<u8>>>, val: nat, obj: bool, n: nat, c: Ctx)
    requires Pending(f, T, text, vals, val, obj, n, [], c)
    ensures text != [] && |CtxBytes(c)| == 8 * Depth(c)
    ensures var text' := text[..|text| - 1] + [Close(obj)] + [44];
      if c.Bottom? then text'[..|text'| - 1] == T && Depth(c) == 0
      else
        && Pending(f, T, text', vals, val, c.obj, c.n, c.rest, c.outer)
        && CtxBytes(c) == PutWord(Tag(|c.rest| + 1, c.obj)) + CtxBytes(c.outer)
        && Tag(|c.rest| + 1, c.obj) < USIZE_END && Depth(c) == Depth(c.outer) + 1
  {
    hide Flat, TextOf, TextItems, AllWritable, CtxText, Close;
    EndClose(f, T, text, obj, c);
    PoppedCtx(c);
    NoItems();
    assert [] + CtxFlat(c) == CtxFlat(c);
    hide FlatAll, CtxFlat, CtxBytes, AtItem;
  }

  class Writer {
    const vals: seq<Tok<seq<u8>>>
    const f: Flags
    const out: Output
    var val: nat
    var ctnLen: nat
    var ctnObj: bool
    /** Whether the last item of the current container has been written. */
    var ended: bool
    ghost const T: seq<u8>
    ghost var n: nat
    ghost var rest: seq<Value>
    ghost var c: Ctx

    ghost predicate Valid()
      reads this, out, out.buf
    {
      && out.Valid() && out.Contexts() == CtxBytes(c)
      && ctnLen == |rest| && (ended <==> rest == []) && (ended ==> out.cur + 1 <= out.ctx)
      && Pending(f, T, out.Text(), vals, val, ctnObj, n, rest, c)
    }

    /** Values and brackets that remain, for termination. */
    ghost function Left(): nat reads this { 2 * (if val <= |vals| then |vals| - val else 0) + Depth(c) + if ended then 1
        else 0 }

    constructor (vals: seq<Tok<seq<u8>>>, f: Flags, ghost v: Value)
      requires vals == Flat(v) && Writable(v) && v.Container? && v.items != [] && |vals| < USIZE_END / 4
      ensures Valid() && fresh(out) && fresh(out.buf) && T == TextOf(f, v)
    {
      hide TextOf, Writable, Flat, Pending;
      RootPending(vals, f, v);
      var size := (|vals| * 18 + 64 + 7) / 8 * 8;
      var o := new Output(size, 8);
      assert [Open(vals[0].obj)][..1] == [Open(vals[0].obj)];
      o.Store([Open(vals[0].obj)], 1);
      assert o.Text() == [Open(v.obj)];
      this.vals, this.f, this.out := vals, f, o;
      val := 1;
      ctnObj := vals[0].obj;
      ctnLen := if vals[0].obj then vals[0].len * 2 else vals[0].len;
      ended := false;
      T := TextOf(f, v);
      n, rest, c := 0, v.items, Bottom;
    }

    /** val_begin: one value, or the opening bracket of a container. */
    method WriteItem()
      requires Valid() && !ended
      modifies this`val, this`ctnLen, this`ctnObj, this`ended, this`n, this`rest, this`c, out, out.buf
      ensures Valid() && Left() < old(Left()) && (out.buf == old(out.buf) || fresh(out.buf))
    {
      hide Pending, CtxBytes, Flat, TextOf, Writable, Sep;
      ghost var text := out.Text();
      PendingFront(f, T, text, vals, val, ctnObj, n, rest, c);
      var t := vals[val];
      if t.TCtn? && t.len > 0 {
        WriteOpen(t);
        return;
      }
      PendingNext(f, T, text, vals, val, ctnObj, n, rest, c);
      CellIs(rest[0]);
      out.WriteClosed(t, f, ctnObj, ctnLen, n, rest[0]);
      val := val + 1;
      ctnLen := ctnLen - 1;
      ended := ctnLen == 0;
      n, rest := n + 1, rest[1..];
    }

    /** A container that is not empty: the current one is pushed. */
    method WriteOpen(t: Tok<seq<u8>>)
      requires Valid() && !ended && val < |vals| && t == vals[val] && t.TCtn? && t.len > 0
      modifies this`val, this`ctnLen, this`ctnObj, this`n, this`rest, this`c, out, out.buf
      ensures Valid() && Left() < old(Left()) && (out.buf == old(out.buf) || fresh(out.buf))
    {
      hide Pending, CtxBytes, Flat, TextOf, Writable, Sep, PutWord, Tag;
      ghost var text := out.Text();
      PendingFront(f, T, text, vals, val, ctnObj, n, rest, c);
      PendingOpen(f, T, text, vals, val, ctnObj, n, rest, c);
      TagBound(ctnLen, ctnObj);
      out.OpenNested(ctnLen, ctnObj, t.obj);
      Enter(t);
    }

    /** The first item of the container at val is next. */
    method Enter(t: Tok<seq<u8>>)
      requires out.Valid() && !ended && rest != [] && rest[0].Container? && rest[0].items != [] && t.TCtn?
          && t.obj == rest[0].obj
      requires |rest[0].items| == if t.obj then t.len * 2 else t.len
      requires var v, d := rest[0], In(c, ctnObj, n + 1, rest[1..]);
        && out.Contexts() == CtxBytes(d) && val < |vals|
        && Pending(f, T, out.Text(), vals, val + 1, v.obj, 0, v.items, d)
      modifies this`val, this`ctnLen, this`ctnObj, this`n, this`rest, this`c
      ensures Valid() && val == old(val) + 1 && c == In(old(c), old(ctnObj), old(n) + 1, old(rest)[1..])
    {
      hide Pending, CtxBytes;
      c := In(c, ctnObj, n + 1, rest[1..]);
      n, rest := 0, rest[0].items;
      val := val + 1;
      ctnLen := if t.obj then t.len * 2 else t.len;
      ctnObj := t.obj;
    }

    /** ctn_end: close the current container and go back to the one around it. */
    method EndContainer() returns (bottom: bool)
      requires Valid() && ended
      modifies this`ctnLen, this`ctnObj, this`ended, this`n, this`rest, this`c, out, out.buf
      ensures out.buf == old(out.buf)
      ensures bottom ==> out.Valid() && 0 < out.cur && out.Text()[..out.cur - 1] == T
      ensures !bottom ==> Valid() && Left() < old(Left())
    {
      hide Pending, CtxBytes, PutWord, Tag;
      ghost var text := out.Text();
      PendingEnd(f, T, text, vals, val, ctnObj, n, c);
      out.CloseNested(ctnObj);
      bottom := out.ctx >= out.buf.Length;
      if !bottom { Resume(); }
    }

    /** Back to the enclosing container, at the item after the one closed. */
    method Resume()
      requires out.Valid() && c.In? && out.Contexts() == CtxBytes(c) && out.cur <= out.ctx
      requires Pending(f, T, out.Text(), vals, val, c.obj, c.n, c.rest, c.outer)
      requires CtxBytes(c) == PutWord(Tag(|c.rest| + 1, c.obj)) + CtxBytes(c.outer)
          && Tag(|c.rest| + 1, c.obj) < USIZE_END
      modifies this`ctnLen, this`ctnObj, this`ended, this`n, this`rest, this`c, out`ctx
      ensures Valid() && rest == old(c).rest && c == old(c).outer
    {
      hide Pending, CtxBytes, PutWord, Tag;
      var size, obj := out.PopCtx(|c.rest| + 1, c.obj, CtxBytes(c.outer));
      ctnLen, ctnObj := size - 1, obj;
      ended := ctnLen == 0;
      n, rest, c := c.n, c.rest, c.outer;
    }

    /** doc_end: the text ends before the last comma. */
    method Run() returns (len: nat)
      requires Valid()
      modifies this`val, this`ctnLen, this`ctnObj, this`ended, this`n, this`rest, this`c, out, out.buf
      ensures len <= out.buf.Length && out.buf[..len] == T
    {
      hide Pending, CtxBytes;
      while true
        invariant Valid() && (out.buf == old(out.buf) || fresh(out.buf))
        decreases Left()
      {
        if !ended {
          WriteItem();
        } else {
          var bottom := EndContainer();
          if bottom {
            ghost var text := out.Text();
            out.Replace(0);
            assert out.buf[..out.cur - 1] == out.Text()[..out.cur - 1] == text[..out.cur - 1];
            return out.cur - 1;
          }
        }
      }
    }
  }

  lemma RootPending(vals: seq<Tok<seq<u8>>>, f: Flags, v: Value)
    requires vals == Flat(v) && Writable(v) && v.Container? && v.items != [] && |vals| < USIZE_END / 4
    ensures vals != [] && vals[0].TCtn? && vals[0].obj == v.obj && CtxBytes(Bottom) == []
    ensures |v.items| == if v.obj then vals[0].len * 2 else vals[0].len
    ensures Pending(f, TextOf(f, v), [Open(v.obj)], vals, 1, v.obj, 0, v.items, Bottom)
  {
    RootItem(f, v);
    hide TextOf, Flat, Writable, AtItem, FlatAll;
    assert vals[1..] == FlatAll(v.items) == FlatAll(v.items) + CtxFlat(Bottom);
  }

  lemma TagBound(size: nat, obj: bool)
    requires size < USIZE_END / 4
    ensures Tag(size, obj) < USIZE_END
  {
  }

  /** yyjson_write_minify: the buffer and the length of the text in it. */
  method WriteMinify(vals: seq<Tok<seq<u8>>>, f: Flags, ghost v: Value) returns (buf: array<u8>, len: nat)
    requires vals == Flat(v) && Writable(v) && v.Container? && v.items != [] && |vals| < USIZE_END / 4
    ensures len <= buf.Length && buf[..len] == TextOf(f, v)
  {
    hide TextOf, Flat, Writable;
    var w := new Writer(vals, f, v);
    len := w.Run();
    buf := w.out.buf;
  }

  lemma RootItem(f: Flags, v: Value)
    requires Writable(v) && v.Container? && v.items != []
    ensures AtItem(f, TextOf(f, v), [Open(v.obj)], v.obj, 0, v.items, Bottom)
    ensures Flat(v) == [TCtn(v.obj, Count(v.obj, |v.items|), 1 + |FlatAll(v.items)|)] + FlatAll(v.items)
    ensures v.obj ==> |v.items| % 2 == 0
  {
    InnerOk(v);
    hide TextItems;
    assert [Close(v.obj)] + CtxText(f, Bottom) == [Close(v.obj)];
  }

  /** The stored values at a value: its first cell and what comes after it. */
  lemma FlatFront(vals: seq<Tok<seq<u8>>>, val: nat, rest: seq<Value>, tail: seq<Tok<seq<u8>>>)
    requires val <= |vals| && rest != [] && vals[val..] == FlatAll(rest) + tail
    ensures val < |vals| && vals[val] == Flat(rest[0])[0]
    ensures vals[val + 1..] == Flat(rest[0])[1..] + (FlatAll(rest[1..]) + tail)
  {
    FlatHead(rest);
    FlatParts(rest[0]);
    hide FlatAll, Flat;
    SplitFront(vals[val..], Flat(rest[0]), Flat(rest[0])[0], Flat(rest[0])[1..], FlatAll(rest[1..]), tail);
    DropOne(vals, val, Flat(rest[0])[0], Flat(rest[0])[1..] + (FlatAll(rest[1..]) + tail));
  }

  lemma SplitFront<A>(s: seq<A>, h: seq<A>, x: A, inner: seq<A>, more: seq<A>, tail: seq<A>)
    requires s == h + more + tail && h == [x] + inner
    ensures s == [x] + (inner + (more + tail))
  {
  }

  lemma FlatHead(rest: seq<Value>)
    requires rest != []
    ensures FlatAll(rest) == Flat(rest[0]) + FlatAll(rest[1..])
  {
    hide Flat;
  }

  lemma FlatParts(v: Value)
    ensures Flat(v) == [Flat(v)[0]] + Flat(v)[1..]
    ensures v.Container? ==>
        Flat(v)[0] == TCtn(v.obj, Count(v.obj, |v.items|), 1 + |FlatAll(v.items)|)
        && Flat(v)[1..] == FlatAll(v.items)
    ensures !v.Container? || v.items == [] ==> Flat(v)[1..] == []
  {
    hide FlatAll;
    if v.Container? && v.items == [] { assert FlatAll(v.items) == [] by { NoItems(); } }
  }

  lemma NoItems()
    ensures FlatAll([]) == []
  {
  }

  lemma DropOne<A>(s: seq<A>, i: nat, x: A, more: seq<A>)
    requires i <= |s| && s[i..] == [x] + more
    ensures i < |s| && s[i] == x && s[i + 1..] == more
  {
    assert s[i] == s[i..][0] && s[i + 1..] == s[i..][1..];
  }

  lemma {:induction false} FlatSize(items: seq<Value>)
    ensures |FlatAll(items)| >= |items|
    decreases |items|
  {
    hide Flat;
    if items != [] { FlatSize(items[1..]); }
  }

  lemma CellIs(v: Value)
    ensures IsCell(Flat(v)[0], v)
  {
  }

  lemma ScalarFlat(v: Value)
    requires !v.Container?
    ensures Flat(v) == [Flat(v)[0]]
  {
  }

  lemma EmptyText(f: Flags, v: Value)
    requires v.Container? && v.items == []
    ensures TextOf(f, v) == [Open(v.obj), Close(v.obj)]
  {
  }

  lemma EmptyCount(v: Value)
    ensures v.Container? && Flat(v)[0].len == 0 && (v.obj ==> |v.items| % 2 == 0) ==> v.items == []
    ensures v.Container? <==> Flat(v)[0].TCtn?
  {
    hide FlatAll;
  }

  /** The item count of an open container fits a context word. */
  lemma TagFits(vals: seq<Tok<seq<u8>>>, val: nat, rest: seq<Value>, c: Ctx)
    requires val <= |vals| && |vals| < USIZE_END / 4 && vals[val..] == FlatAll(rest) + CtxFlat(c)
    ensures |rest| < USIZE_END / 4
  {
    FlatSize(rest);
  }

  lemma PushedCtx(c: Ctx, obj: bool, n: nat, rest: seq<Value>)
    requires rest != []
    ensures var d := In(c, obj, n + 1, rest[1..]);
      CtxBytes(d) == PutWord(Tag(|rest|, obj)) + CtxBytes(c) && CtxFlat(d) == FlatAll(rest[1..]) + CtxFlat(c)
          && Depth(d) == Depth(c) + 1
  {
    hide PutWord;
  }

  lemma PoppedCtx(c: Ctx)
    ensures |CtxBytes(c)| == 8 * Depth(c) && (c.Bottom? <==> Depth(c) == 0)
    ensures c.In? ==>
        CtxBytes(c) == PutWord(Tag(|c.rest| + 1, c.obj)) + CtxBytes(c.outer)
        && CtxFlat(c) == FlatAll(c.rest) + CtxFlat(c.outer)
    ensures c.In? && CtxOk(c) ==> Tag(|c.rest| + 1, c.obj) < USIZE_END && CtxOk(c.outer)
    ensures c.In? ==> Depth(c) == Depth(c.outer) + 1
  {
    hide PutWord;
  }
}
