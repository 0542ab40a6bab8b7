/** JSON documents: the grammar of RFC 8259 as a recursive-descent parser, the text of a
    document, the flat pre-order form in which documents are stored, and their round trips. */
module JsonDoc {
  import opened Options
  import opened Bytes
  import opened JsonDigits
  import opened JsonNumber
  import opened JsonString

  /** The items of an object are its keys and values in turn. */
  datatype Value =
    | Null
    | Bool(b: bool)
    | Number(n: Num)
    | Str(s: seq<u8>)
    | Container(obj: bool, items: seq<Value>)

  predicate IsSpace(b: u8) { b == 9 || b == 10 || b == 13 || b == 32 }

  function Skip(s: seq<u8>, i: nat): (j: nat)
    ensures i <= j && !IsSpace(At(s, j)) && (j > i ==> j <= |s|)
    decreases |s| - i
  {
    if IsSpace(At(s, i)) then Skip(s, i + 1) else i
  }

  function Open(obj: bool): u8 { if obj then 123 else 91 }
  function Close(obj: bool): u8 { if obj then 125 else 93 }

  const TrueText: seq<u8> := [116, 114, 117, 101]
  const FalseText: seq<u8> := [102, 97, 108, 115, 101]
  const NullText: seq<u8> := [110, 117, 108, 108]

  // ---- the grammar

  /** A string, number or literal at i, and the position after it. */
  function ParseScalar(s: seq<u8>, i: nat, conv: Convert): (r: Option<(Value, nat)>)
    ensures r.Some? ==> i < r.value.1 <= |s|
  {
    var b := At(s, i);
    if b == 34 then
      BodyAhead(s, i + 1);
      match Body(s, i + 1) case None => None case Some((t, n)) => Some((Str(t), n))
    else if b == 45 || IsDigit(b) then
      LexAhead(s, i, conv);
      match LexNumber(s, i, conv) case None => None case Some((x, n)) => Some((Number(x), n))
    else if Has(s, i, TrueText) then Some((Bool(true), i + 4))
    else if Has(s, i, FalseText) then Some((Bool(false), i + 5))
    else if Has(s, i, NullText) then Some((Null, i + 4))
    else None
  }

  /** The value at i. */
  function ParseValue(s: seq<u8>, i: nat, conv: Convert): (r: Option<(Value, nat)>)
    ensures r.Some? ==> i < r.value.1 <= |s|
    decreases |s| - i, 0
  {
    var b := At(s, i);
    if b == Open(false) || b == Open(true) then
      match ParseItems(s, i + 1, b == Open(true), 0, conv)
      case None => None
      case Some((items, n)) => Some((Container(b == Open(true), items), n))
    else ParseScalar(s, i, conv)
  }

  /** The next item of a container is a key. */
  predicate KeyNext(obj: bool, n: nat) { obj && n % 2 == 0 }

  /** The items of a container after the first n of them, up to its end. */
  function ParseItems(s: seq<u8>, i: nat, obj: bool, n: nat, conv: Convert): (r: Option<(seq<Value>, nat)>)
    ensures r.Some? ==> i < r.value.1 <= |s|
    decreases |s| - i, 1
  {
    var j := Skip(s, i);
    if At(s, j) == Close(obj) && !(obj && n % 2 == 1) then
      (if n == 0 then Some(([], j + 1)) else None)
    else if KeyNext(obj, n) then
      match ParseScalar(s, j, conv)
      case None => None
      case Some((v, m)) =>
        var k := Skip(s, m);
        if v.Str? && At(s, k) == 58 then Cons(v, ParseItems(s, k + 1, obj, n + 1, conv)) else None
    else
      match ParseValue(s, j, conv)
      case None => None
      case Some((v, m)) =>
        var k := Skip(s, m);
        if At(s, k) == 44 then Cons(v, ParseItems(s, k + 1, obj, n + 1, conv))
        else if At(s, k) == Close(obj) then Some(([v], k + 1))
        else None
  }

  function Cons(v: Value, r: Option<(seq<Value>, nat)>): Option<(seq<Value>, nat)> {
    match r case None => None case Some((items, n)) => Some(([v] + items, n))
  }

  /** A document whose root is a container, with nothing but spaces after it. */
  function ParseDoc(s: seq<u8>, i: nat, conv: Convert): Option<Value> {
    if At(s, i) != Open(false) && At(s, i) != Open(true) then None
    else
      match ParseValue(s, i, conv)
      case None => None
      case Some((v, n)) => if Skip(s, n) == |s| then Some(v) else None
  }

  lemma {:induction false} BodyAhead(s: seq<u8>, i: nat)
    ensures Body(s, i).Some? ==> i < Body(s, i).value.1 <= |s|
    decreases |s| - i
  {
    hide Escape, Utf8Len;
    var b := At(s, i);
    if b == 92 {
      EscapeInside(s, i);
      if Escape(s, i).Some? { BodyAhead(s, i + Escape(s, i).value.1); }
    } else if b != 34 && b >= 0x20 && Utf8Len(s, i) > 0 {
      BodyAhead(s, i + Utf8Len(s, i));
    }
  }

  lemma LexAhead(s: seq<u8>, i: nat, conv: Convert)
    ensures LexNumber(s, i, conv).Some? ==> i < LexNumber(s, i, conv).value.1 <= |s|
  {
    hide JsonDigits.Value, Run;
  }

  // ---- the text

  function Literal(v: Value): seq<u8>
    requires v.Null? || v.Bool?
  {
    if v.Null? then NullText else if v.b then TrueText else FalseText
  }

  /** Documents that can be written: no reals, integers of 64 bits, well-formed UTF-8, objects
      made of string keys and values in turn. */
  predicate Writable(v: Value)
    decreases v
  {
    match v
    case Number(n) => n.Int? && -I64_ABS_MAX <= n.n <= U64_MAX
    case Str(t) => Utf8(t)
    case Container(obj, items) => (obj ==> |items| % 2 == 0) && AllWritable(obj, 0, items)
    case _ => true
  }

  /** Items of a container after the first n. */
  predicate AllWritable(obj: bool, n: nat, items: seq<Value>)
    decreases items
  {
    items == [] ||
    ((KeyNext(obj, n) ==> items[0].Str?) && Writable(items[0]) && AllWritable(obj, n + 1, items[1..]))
  }

  function Sep(obj: bool, n: nat): u8 { if KeyNext(obj, n) then 58 else 44 }

  function TextOf(f: Flags, v: Value): seq<u8>
    decreases v
  {
    match v
    case Number(n) => if n.Int? then NumText(n.n) else []
    case Str(t) => [34] + (Text(f, t) + [34])
    case Container(obj, items) => [Open(obj)] + (TextItems(f, obj, 0, items) + [Close(obj)])
    case _ => Literal(v)
  }

  function TextItems(f: Flags, obj: bool, n: nat, items: seq<Value>): seq<u8>
    decreases items
  {
    if items == [] then []
    else TextOf(f, items[0]) + ((if |items| == 1 then [] else [Sep(obj, n)]) + TextItems(f, obj, n + 1, items[1..]))
  }

  // ---- reading the text back

  /** The first byte of a scalar's text decides how it is read. */
  lemma ScalarFirst(f: Flags, v: Value)
    requires Writable(v) && !v.Container?
    ensures var t := TextOf(f, v);
      t != [] && var b := t[0];
      !IsSpace(b) && b != 91 && b != 123 && b != 93 && b != 125 && b != 44 && b != 58 &&
      (if v.Str? then b == 34 else b != 34 && (v.Number? <==> b == 45 || IsDigit(b)))
  {
    hide Digits, Text;
    if v.Number? && v.n.n >= 0 { DigitsValue(v.n.n); } else if v.Number? { DigitsValue(-v.n.n); }
  }

  lemma ScalarRoundTrip(f: Flags, v: Value, s: seq<u8>, i: nat, conv: Convert)
    requires Writable(v) && !v.Container? && Has(s, i, TextOf(f, v))
    requires var e := i + |TextOf(f, v)|; !IsDigit(At(s, e)) && !IsFp(At(s, e))
    ensures ParseScalar(s, i, conv) == Some((v, i + |TextOf(f, v)|))
  {
    ScalarFirst(f, v);
    HasByte(s, i, TextOf(f, v), 0, i);
    hide Has, ParseScalar, Writable;
    match v
    case Str(t) => StrScalar(f, t, s, i, conv);
    case Number(n) => NumScalar(n.n, s, i, conv);
    case _ => LiteralScalar(v, s, i, conv);
  }

  lemma StrScalar(f: Flags, t: seq<u8>, s: seq<u8>, i: nat, conv: Convert)
    requires Utf8(t) && Has(s, i, [34] + (Text(f, t) + [34])) && At(s, i) == 34
    ensures ParseScalar(s, i, conv) == Some((Str(t), i + |Text(f, t)| + 2))
  {
    hide Body, Text, Utf8, Has;
    HasSplit(s, i, [34], Text(f, t) + [34]);
    StringRoundTrip(f, t, s, i + 1);
    assert t + [] == t;
  }

  lemma NumScalar(n: int, s: seq<u8>, i: nat, conv: Convert)
    requires -I64_ABS_MAX <= n <= U64_MAX && Has(s, i, NumText(n)) && (At(s, i) == 45 || IsDigit(At(s, i)))
    requires var e := i + |NumText(n)|; !IsDigit(At(s, e)) && !IsFp(At(s, e))
    ensures ParseScalar(s, i, conv) == Some((Number(Int(n)), i + |NumText(n)|))
  {
    hide LexNumber, NumText, Body;
    HasSlice(s, i, NumText(n));
    IntRoundTrip(s, i, n, conv);
  }

  lemma LiteralScalar(v: Value, s: seq<u8>, i: nat, conv: Convert)
    requires (v.Null? || v.Bool?) && Has(s, i, Literal(v)) && At(s, i) != 34 && At(s, i) != 45 && !IsDigit(At(s, i))
    ensures ParseScalar(s, i, conv) == Some((v, i + |Literal(v)|))
  {
    hide LexNumber, Body, Has;
    LiteralRoundTrip(v, s, i);
  }

  lemma LiteralRoundTrip(v: Value, s: seq<u8>, i: nat)
    requires (v.Null? || v.Bool?) && Has(s, i, Literal(v))
    ensures if v.Null? then !Has(s, i, TrueText) && !Has(s, i, FalseText) && Has(s, i, NullText)
            else if v.b then Has(s, i, TrueText) else !Has(s, i, TrueText) && Has(s, i, FalseText)
  {
    HasByte(s, i, Literal(v), 0, i);
    if Has(s, i, TrueText) { HasByte(s, i, TrueText, 0, i); }
    if Has(s, i, FalseText) { HasByte(s, i, FalseText, 0, i); }
  }

  lemma HasSlice(s: seq<u8>, i: nat, t: seq<u8>)
    requires Has(s, i, t)
    ensures i + |t| <= |s| && s[i..i + |t|] == t
  {
    forall k | 0 <= k < |t| ensures s[i..i + |t|][k] == t[k] { HasByte(s, i, t, k, i + k); }
  }

  /** What may follow the text of a value. */
  predicate Ends(b: u8) { !IsDigit(b) && !IsFp(b) && !IsSpace(b) }

  /** Reading the text of a document gives back the document. */
  lemma {:induction false} ValueRoundTrip(f: Flags, v: Value, s: seq<u8>, i: nat, conv: Convert)
    requires Writable(v) && Has(s, i, TextOf(f, v)) && Ends(At(s, i + |TextOf(f, v)|))
    ensures ParseValue(s, i, conv) == Some((v, i + |TextOf(f, v)|))
    decreases v, 2
  {
    hide Has, ParseItems, ParseScalar, TextItems, Ends;
    FirstOf(f, v);
    if v.Container? {
      var (obj, items) := (v.obj, v.items);
      var inner := TextItems(f, obj, 0, items) + [Close(obj)];
      HasSplit(s, i, [Open(obj)], inner);
      HasByte(s, i, [Open(obj)], 0, i);
      hide TextOf;
      ItemsRoundTrip(f, obj, 0, items, s, i + 1, conv);
      BracketValue(s, i, obj, conv, items, i + 1 + |inner|);
    } else {
      EndsIs(At(s, i + |TextOf(f, v)|));
      ScalarRoundTrip(f, v, s, i, conv);
      ScalarFirst(f, v);
      HasByte(s, i, TextOf(f, v), 0, i);
      hide TextOf, Writable;
      ScalarValue(s, i, conv);
    }
  }

  lemma EndsIs(b: u8)
    requires Ends(b)
    ensures !IsDigit(b) && !IsFp(b)
  {
  }

  lemma BracketValue(s: seq<u8>, i: nat, obj: bool, conv: Convert, items: seq<Value>, e: nat)
    requires At(s, i) == Open(obj) && ParseItems(s, i + 1, obj, 0, conv) == Some((items, e))
    ensures ParseValue(s, i, conv) == Some((Container(obj, items), e))
  {
    hide ParseItems;
  }

  lemma ScalarValue(s: seq<u8>, i: nat, conv: Convert)
    requires At(s, i) != Open(false) && At(s, i) != Open(true)
    ensures ParseValue(s, i, conv) == ParseScalar(s, i, conv)
  {
    hide ParseItems, ParseScalar;
  }

  lemma {:induction false} ItemsRoundTrip(f: Flags, obj: bool, n: nat, items: seq<Value>, s: seq<u8>, i: nat,
                                          conv: Convert)
    requires AllWritable(obj, n, items) && (obj ==> (n + |items|) % 2 == 0) && (n > 0 ==> items != [])
    requires Has(s, i, TextItems(f, obj, n, items) + [Close(obj)])
    ensures ParseItems(s, i, obj, n, conv) == Some((items, i + |TextItems(f, obj, n, items)| + 1))
    decreases items, 1
  {
    hide Has, TextOf, ParseValue, ParseScalar, Writable;
    var all := TextItems(f, obj, n, items);
    if items == [] {
      HasByte(s, i, all + [Close(obj)], 0, i);
    } else {
      var v, rest := items[0], items[1..];
      var e, tail := FirstReads(f, obj, n, items, s, i, conv);
      if |items| > 1 { ItemsRoundTrip(f, obj, n + 1, rest, s, e + 1, conv); }
      hide AllWritable, ParseItems, TextItems;
      ItemStep(s, i, obj, n, conv, v, e, rest);
    }
  }

  /** The first of some items is read up to e; the text of the others follows at e + 1. */
  lemma {:induction false} FirstReads(f: Flags, obj: bool, n: nat, items: seq<Value>, s: seq<u8>, i: nat, conv: Convert)
    returns (e: nat, tail: seq<u8>)
    requires items != [] && AllWritable(obj, n, items) && (obj ==> (n + |items|) % 2 == 0)
    requires Has(s, i, TextItems(f, obj, n, items) + [Close(obj)])
    ensures tail == TextItems(f, obj, n + 1, items[1..]) + [Close(obj)]
    ensures !IsSpace(At(s, i)) && At(s, i) != 93 && At(s, i) != 125
    ensures if KeyNext(obj, n) then items[0].Str? && ParseScalar(s, i, conv) == Some((items[0], e))
        else ParseValue(s, i, conv) == Some((items[0], e))
    ensures At(s, e) == (if items[1..] == [] then Close(obj) else Sep(obj, n)) && (KeyNext(obj, n) ==> items[1..] != [])
    ensures |items| > 1 ==> Has(s, e + 1, tail)
    ensures i + |TextItems(f, obj, n, items)| == if |items| == 1 then e else e + |tail|
    ensures items == [items[0]] + items[1..] && (|items| == 1 ==> items == [items[0]])
    decreases items, 0
  {
    hide Has, TextOf, ParseValue, ParseScalar, Writable, TextItems;
    var v := items[0];
    var t, after;
    t, tail, after := ItemsText(f, obj, n, items);
    HasSplit(s, i, t, after);
    e := i + |t|;
    HasByte(s, e, after, 0, e);
    FirstOf(f, v);
    HasByte(s, i, t, 0, i);
    if KeyNext(obj, n) { ScalarRoundTrip(f, v, s, i, conv); } else { ValueRoundTrip(f, v, s, i, conv); }
    if |items| > 1 { HasSplit(s, e, [Sep(obj, n)], tail); }
  }

  /** The text of the items and the closing bracket: the first item and what comes after it. */
  lemma ItemsText(f: Flags, obj: bool, n: nat, items: seq<Value>) returns (t: seq<u8>, tail: seq<u8>, after: seq<u8>)
    requires items != []
    ensures t == TextOf(f, items[0]) && tail == TextItems(f, obj, n + 1, items[1..]) + [Close(obj)]
    ensures after == (if |items| == 1 then [] else [Sep(obj, n)]) + tail && (|items| == 1 ==> after == [Close(obj)])
    ensures TextItems(f, obj, n, items) + [Close(obj)] == t + after
    ensures items == [items[0]] + items[1..] && (|items| == 1 ==> items == [items[0]] && items[1..] == [])
    ensures |TextItems(f, obj, n, items)| + 1 == |t| + |after|
  {
    hide TextOf;
    t, tail := TextOf(f, items[0]), TextItems(f, obj, n + 1, items[1..]) + [Close(obj)];
    var all := TextItems(f, obj, n, items) + [Close(obj)];
    after := (if |items| == 1 then [] else [Sep(obj, n)]) + tail;
    if |items| == 1 { assert items[1..] == []; }
    assert all == t + after;
  }

  /** An item, and what follows it. */
  lemma ItemStep(s: seq<u8>, i: nat, obj: bool, n: nat, conv: Convert, v: Value, e: nat, rest: seq<Value>)
    requires !IsSpace(At(s, i)) && At(s, i) != 93 && At(s, i) != 125
    requires if KeyNext(obj, n) then v.Str? && ParseScalar(s, i, conv) == Some((v, e))
        else ParseValue(s, i, conv) == Some((v, e))
    requires At(s, e) == (if rest == [] then Close(obj) else Sep(obj, n)) && (KeyNext(obj, n) ==> rest != [])
    ensures ParseItems(s, i, obj, n, conv) == if rest == [] then Some(([v], e + 1))
        else Cons(v, ParseItems(s, e + 1, obj, n + 1, conv))
  {
    hide ParseValue, ParseScalar;
  }

  lemma FirstOf(f: Flags, v: Value)
    requires Writable(v)
    ensures var t := TextOf(f, v);
      t != [] && !IsSpace(t[0]) && t[0] != 93 && t[0] != 125
  {
    if !v.Container? { ScalarFirst(f, v); }
  }

  /** Reading the text of a document whose root is a container gives back the document. */
  lemma DocRoundTrip(f: Flags, v: Value, conv: Convert)
    requires Writable(v) && v.Container?
    ensures ParseDoc(TextOf(f, v), 0, conv) == Some(v)
  {
    var s := TextOf(f, v);
    HasAll(s);
    HasByte(s, 0, s, 0, 0);
    hide Has, ParseValue, Writable;
    ValueRoundTrip(f, v, s, 0, conv);
  }

  lemma HasAll(s: seq<u8>)
    ensures Has(s, 0, s)
  {
  }

  // ---- the flat form

  /** A stored value. A container holds the number of its elements or pairs, and the distance to
      the value after its last item. S is the type of strings. */
  datatype Tok<S> = TNull | TBool(b: bool) | TNum(n: Num) | TStr(s: S) | TCtn(obj: bool, len: nat, ofs: nat)

  function Count(obj: bool, n: nat): nat { if obj then n / 2 else n }

  /** A document in pre-order. */
  function Flat(v: Value): (r: seq<Tok<seq<u8>>>)
    ensures |r| >= 1
    decreases v
  {
    match v
    case Null => [TNull]
    case Bool(b) => [TBool(b)]
    case Number(n) => [TNum(n)]
    case Str(t) => [TStr(t)]
    case Container(obj, items) =>
      var inner := FlatAll(items);
      [TCtn(obj, Count(obj, |items|), 1 + |inner|)] + inner
  }

  function FlatAll(items: seq<Value>): seq<Tok<seq<u8>>>
    decreases items
  {
    if items == [] then [] else Flat(items[0]) + FlatAll(items[1..])
  }

  lemma {:induction false} FlatSnoc(items: seq<Value>, v: Value)
    ensures FlatAll(items + [v]) == FlatAll(items) + Flat(v)
    decreases |items|
  {
    hide Flat;
    if items == [] {
      assert [v][1..] == [] && [] + [v] == [v];
    } else {
      assert (items + [v])[1..] == items[1..] + [v];
      FlatSnoc(items[1..], v);
    }
  }
}
