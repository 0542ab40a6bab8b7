/** The texts of RFC 8259 put together from their parts, with white space wherever section 2 allows it: the
    reader accepts these documents and no others, with the values they spell. */
module JsonDocTexts {
  import opened Options
  import opened Bytes
  import opened JsonNumber
  import opened JsonString
  import opened JsonDoc
  import JsonDigits
  import NT = JsonNumberTexts
  import ST = JsonStringTexts

  // ---- the parts

  datatype Word = Nil | Yes | No

  datatype Leaf = Named(w: Word) | Quoted(ps: seq<ST.Spelled>) | Numeric(t: NT.Number)

  /** A container holds its items, or white space. */
  datatype Node = Single(leaf: Leaf) | Box(obj: bool, gap: seq<u8>, items: seq<Spaced>)

  datatype Spaced = Spaced(before: seq<u8>, node: Node, after: seq<u8>)

  predicate Blank(b: u8) { b == 0x20 || b == 0x09 || b == 0x0a || b == 0x0d }
  predicate Blanks(t: seq<u8>) { forall k | 0 <= k < |t| :: Blank(t[k]) }

  predicate ProperLeaf(l: Leaf) {
    match l
    case Named(_) => true
    case Quoted(ps) => ST.AllProper(ps)
    case Numeric(t) => NT.Proper(t)
  }

  predicate IsKey(n: Node) { n.Single? && n.leaf.Quoted? }

  predicate ProperNode(n: Node)
    decreases n
  {
    match n
    case Single(l) => ProperLeaf(l)
    case Box(obj, gap, items) => Blanks(gap) && (obj ==> |items| % 2 == 0) && ProperItems(obj, 0, items)
  }

  /** The items from number k on; those of an object are keys and values in turn. */
  predicate ProperItems(obj: bool, k: nat, items: seq<Spaced>)
    decreases items
  {
    items == [] ||
    (&& Blanks(items[0].before) && Blanks(items[0].after) && ProperNode(items[0].node)
     && (obj && k % 2 == 0 ==> IsKey(items[0].node)) && ProperItems(obj, k + 1, items[1..]))
  }

  // ---- the text

  function WordText(w: Word): seq<u8> {
    match w
    case Nil => [0x6e, 0x75, 0x6c, 0x6c]
    case Yes => [0x74, 0x72, 0x75, 0x65]
    case No => [0x66, 0x61, 0x6c, 0x73, 0x65]
  }

  function LeafText(l: Leaf): seq<u8>
    requires ProperLeaf(l)
  {
    match l
    case Named(w) => WordText(w)
    case Quoted(ps) => [0x22] + (ST.SpelledText(ps) + [0x22])
    case Numeric(t) => NT.NumberText(t)
  }

  function Opening(obj: bool): u8 { if obj then 0x7b else 0x5b }
  function Closing(obj: bool): u8 { if obj then 0x7d else 0x5d }

  /** A colon behind a key, a comma behind a value. */
  function Between(obj: bool, k: nat): u8 { if obj && k % 2 == 0 then 0x3a else 0x2c }

  function NodeText(n: Node): seq<u8>
    requires ProperNode(n)
    decreases n
  {
    match n
    case Single(l) => LeafText(l)
    case Box(obj, gap, items) =>
      [Opening(obj)] + ((if items == [] then gap else ItemsText(obj, 0, items)) + [Closing(obj)])
  }

  function ItemsText(obj: bool, k: nat, items: seq<Spaced>): seq<u8>
    requires ProperItems(obj, k, items) && items != []
    decreases items
  {
    items[0].before + (NodeText(items[0].node) + (items[0].after +
      if |items| == 1 then [] else [Between(obj, k)] + ItemsText(obj, k + 1, items[1..])))
  }

  // ---- the value

  /** Integers of 64 bits have their value, other numbers that of the conversion, if there is one. */
  function LeafValue(l: Leaf, conv: Convert): Option<Value>
    requires ProperLeaf(l)
  {
    match l
    case Named(w) => Some(match w case Nil => Null case Yes => Bool(true) case No => Bool(false))
    case Quoted(ps) => Some(Str(ST.Meant(ps)))
    case Numeric(t) =>
      var m: int := JsonDigits.Value(t.ip);
      if t.fp == [] && t.exp.NoExp? && m <= (if t.neg then 0x8000_0000_0000_0000 else 0xffff_ffff_ffff_ffff)
      then Some(Number(Int(if t.neg then -m else m)))
      else match conv(NT.NumberText(t)) case None => None case Some(raw) => Some(Number(Real(raw)))
  }

  function NodeValue(n: Node, conv: Convert): Option<Value>
    requires ProperNode(n)
    decreases n
  {
    match n
    case Single(l) => LeafValue(l, conv)
    case Box(obj, _, items) =>
      match ItemsValue(obj, 0, items, conv) case None => None case Some(vs) => Some(Container(obj, vs))
  }

  function ItemsValue(obj: bool, k: nat, items: seq<Spaced>, conv: Convert): Option<seq<Value>>
    requires ProperItems(obj, k, items)
    decreases items
  {
    if items == [] then Some([])
    else
      match NodeValue(items[0].node, conv)
      case None => None
      case Some(v) =>
        match ItemsValue(obj, k + 1, items[1..], conv) case None => None case Some(vs) => Some([v] + vs)
  }

  // ---- white space

  lemma {:induction false} SkipOver(s: seq<u8>, i: nat, w: seq<u8>)
    requires Has(s, i, w) && Blanks(w) && !Blank(At(s, i + |w|))
    ensures Skip(s, i) == i + |w|
    decreases |w|
  {
    if w != [] {
      HasByte(s, i, w, 0, i);
      HasTail(s, i, w);
      SkipOver(s, i + 1, w[1..]);
    }
  }

  lemma HasTail(s: seq<u8>, i: nat, w: seq<u8>)
    requires Has(s, i, w) && w != []
    ensures Has(s, i + 1, w[1..])
  {
    assert [w[0]] + w[1..] == w;
    HasSplit(s, i, [w[0]], w[1..]);
  }

  lemma SkipBlanks(s: seq<u8>, i: nat) returns (w: seq<u8>)
    requires i <= |s|
    ensures Blanks(w) && Has(s, i, w) && Skip(s, i) == i + |w|
    decreases |s| - i
  {
    w := [];
    if IsSpace(At(s, i)) {
      var rest := SkipBlanks(s, i + 1);
      w := [s[i]] + rest;
      ST.HasBoth(s, i, [s[i]], rest);
    }
  }

  // ---- scalars

  /** What may follow a value. */
  predicate Follows(b: u8) { Blank(b) || b == 0x2c || b == 0x3a || b == 0x5d || b == 0x7d || b == 0 }

  lemma HasStands(s: seq<u8>, i: nat, t: seq<u8>)
    ensures Has(s, i, t) <==> NT.Stands(s, i, t)
  {
    if i + |t| <= |s| {
      var here := s[i..i + |t|];
      forall k | 0 <= k < |t| ensures here[k] == At(s, i + k) { }
    }
  }

  /** The first byte tells the kinds of values apart. */
  lemma LeafFirst(l: Leaf)
    requires ProperLeaf(l)
    ensures var t := LeafText(l);
      t != [] && var b := t[0];
      && (l.Quoted? <==> b == 0x22) && (l.Numeric? <==> b == 0x2d || 0x30 <= b <= 0x39)
      && !Blank(b) && b != 0x5b && b != 0x7b && b != 0x5d && b != 0x7d
  {
    hide ST.SpelledText, ST.AllProper;
    if l.Numeric? { NumberFirst(l.t); }
    hide NT.NumberText, NT.Proper;
  }

  lemma NumberFirst(t: NT.Number)
    requires NT.Proper(t)
    ensures NT.NumberText(t) != [] && (NT.NumberText(t)[0] == 0x2d || 0x30 <= NT.NumberText(t)[0] <= 0x39)
  {
    hide NT.FractionText, NT.ExponentText;
  }

  lemma LeafRead(s: seq<u8>, i: nat, l: Leaf, conv: Convert)
    requires ProperLeaf(l) && Has(s, i, LeafText(l)) && Follows(At(s, i + |LeafText(l)|))
    ensures ParseScalar(s, i, conv) ==
      match LeafValue(l, conv) case None => None case Some(v) => Some((v, i + |LeafText(l)|))
  {
    hide Has, ParseScalar, NT.NumberText, NT.Proper, ST.SpelledText, ST.AllProper, ST.Meant, JsonDigits.Value, Follows,
      At;
    LeafFirst(l);
    HasByte(s, i, LeafText(l), 0, i);
    match l
    case Named(w) => WordRead(s, i, w, conv);
    case Quoted(ps) => QuotedRead(s, i, ps, conv);
    case Numeric(t) => NumericRead(s, i, t, conv);
  }

  lemma WordRead(s: seq<u8>, i: nat, w: Word, conv: Convert)
    requires Has(s, i, WordText(w)) && At(s, i) == WordText(w)[0]
    ensures ParseScalar(s, i, conv) ==
      Some((match w case Nil => Null case Yes => Bool(true) case No => Bool(false), i + |WordText(w)|))
  {
    var v := match w case Nil => Null case Yes => Bool(true) case No => Bool(false);
    assert Literal(v) == WordText(w);
    hide Has, WordText;
    LiteralScalar(v, s, i, conv);
  }

  lemma QuotedRead(s: seq<u8>, i: nat, ps: seq<ST.Spelled>, conv: Convert)
    requires ST.AllProper(ps) && Has(s, i, [0x22] + (ST.SpelledText(ps) + [0x22])) && At(s, i) == 0x22
    ensures ParseScalar(s, i, conv) == Some((Str(ST.Meant(ps)), i + |ST.SpelledText(ps)| + 2))
  {
    hide Has, ST.SpelledText, ST.AllProper, ST.Meant, Body;
    HasSplit(s, i, [0x22], ST.SpelledText(ps) + [0x22]);
    ST.StringRead(s, i + 1, ps);
  }

  lemma NumericRead(s: seq<u8>, i: nat, t: NT.Number, conv: Convert)
    requires NT.Proper(t) && Has(s, i, NT.NumberText(t)) && Follows(At(s, i + |NT.NumberText(t)|))
    requires At(s, i) == 0x2d || 0x30 <= At(s, i) <= 0x39
    ensures ParseScalar(s, i, conv) ==
      match LeafValue(Numeric(t), conv) case None => None case Some(v) => Some((v, i + |NT.NumberText(t)|))
  {
    hide Has, NT.NumberText, NT.Proper, LexNumber, JsonDigits.Value, NT.Stands, Body;
    HasStands(s, i, NT.NumberText(t));
    NT.NumberRead(s, i, t, conv);
  }

  /** Whatever is read as a scalar is the text of one. */
  lemma LeafOf(s: seq<u8>, i: nat, conv: Convert) returns (l: Leaf)
    requires ParseScalar(s, i, conv).Some?
    ensures ProperLeaf(l) && Has(s, i, LeafText(l)) && ParseScalar(s, i, conv).value.1 == i + |LeafText(l)|
    ensures ParseScalar(s, i, conv).value.0.Str? <==> l.Quoted?
  {
    hide LexNumber, Body, Has, NT.NumberText, NT.Proper, ST.SpelledText, ST.AllProper;
    var b := At(s, i);
    if b == 34 {
      var ps := ST.StringIs(s, i + 1);
      ByteHere(s, i);
      ST.HasBoth(s, i, [0x22], ST.SpelledText(ps) + [0x22]);
      l := Quoted(ps);
    } else if b == 45 || IsDigit(b) {
      LexAhead(s, i, conv);
      var t := NT.NumberIs(s, i, conv);
      HasStands(s, i, NT.NumberText(t));
      l := Numeric(t);
    } else if Has(s, i, TrueText) {
      l := Named(Yes);
    } else if Has(s, i, FalseText) {
      l := Named(No);
    } else {
      l := Named(Nil);
    }
  }

  lemma ByteHere(s: seq<u8>, i: nat)
    requires At(s, i) != 0
    ensures Has(s, i, [At(s, i)])
  {
  }

  // ---- values

  /** The first byte of a value is neither white space nor a closing bracket. */
  lemma NodeFirst(n: Node)
    requires ProperNode(n)
    ensures var t := NodeText(n);
      t != [] && !Blank(t[0]) && t[0] != 0x5d && t[0] != 0x7d && (n.Single? <==> t[0] != 0x5b && t[0] != 0x7b)
  {
    hide LeafText, ProperLeaf, ItemsText, ProperItems;
    if n.Single? { LeafFirst(n.leaf); }
  }

  function Ending<T>(v: Option<T>, e: nat): Option<(T, nat)> {
    match v case None => None case Some(x) => Some((x, e))
  }

  /** A value is read up to its end, and as the value it spells. */
  lemma {:induction false} NodeRead(s: seq<u8>, i: nat, n: Node, conv: Convert)
    requires ProperNode(n) && Has(s, i, NodeText(n)) && Follows(At(s, i + |NodeText(n)|))
    ensures ParseValue(s, i, conv) == Ending(NodeValue(n, conv), i + |NodeText(n)|)
    decreases n
  {
    hide Has, ParseItems, ParseScalar, LeafText, ProperLeaf, LeafValue, Follows, ItemsText, ItemsValue;
    NodeFirst(n);
    HasByte(s, i, NodeText(n), 0, i);
    match n
    case Single(l) => LeafRead(s, i, l, conv);
    case Box(obj, gap, items) =>
      var inner := (if items == [] then gap else ItemsText(obj, 0, items)) + [Closing(obj)];
      HasSplit(s, i, [Opening(obj)], inner);
      if items == [] {
        GapRead(s, i + 1, obj, gap, conv);
        NoValues(obj, 0, conv);
      } else {
        ItemsRead(s, i + 1, obj, 0, items, conv);
      }
      BoxRead(s, i, obj, conv);
  }

  lemma BoxRead(s: seq<u8>, i: nat, obj: bool, conv: Convert)
    requires At(s, i) == Opening(obj)
    ensures var r := ParseItems(s, i + 1, obj, 0, conv);
      ParseValue(s, i, conv) == if r.None? then None else Some((Container(obj, r.value.0), r.value.1))
  {
    hide ParseItems;
  }

  lemma GapRead(s: seq<u8>, i: nat, obj: bool, gap: seq<u8>, conv: Convert)
    requires Blanks(gap) && Has(s, i, gap + [Closing(obj)])
    ensures ParseItems(s, i, obj, 0, conv) == Some(([], i + |gap| + 1))
  {
    hide Has;
    HasSplit(s, i, gap, [Closing(obj)]);
    HasByte(s, i + |gap|, [Closing(obj)], 0, i + |gap|);
    SkipOver(s, i, gap);
  }

  /** Where the parts of an item stand. */
  lemma ItemParts(s: seq<u8>, i: nat, obj: bool, k: nat, items: seq<Spaced>) returns (j: nat, m: nat, e: nat)
    requires items != [] && ProperItems(obj, k, items) && Has(s, i, ItemsText(obj, k, items) + [Closing(obj)])
    ensures Has(s, j, NodeText(items[0].node)) && m == j + |NodeText(items[0].node)| && Follows(At(s, m))
    ensures j == Skip(s, i) && e == Skip(s, m) && !Blank(At(s, j)) && At(s, j) != 0x5d && At(s, j) != 0x7d
    ensures At(s, e) == if |items| == 1 then Closing(obj) else Between(obj, k)
    ensures |items| == 1 ==> i + |ItemsText(obj, k, items)| == e
    ensures |items| > 1 ==>
      var more := ItemsText(obj, k + 1, items[1..]);
      Has(s, e + 1, more + [Closing(obj)]) && i + |ItemsText(obj, k, items)| == e + 1 + |more|
  {
    hide Has, NodeText, ProperNode;
    var (b, t, a) := (items[0].before, NodeText(items[0].node), items[0].after);
    NodeFirst(items[0].node);
    var more := if |items| == 1 then [] else [Between(obj, k)] + ItemsText(obj, k + 1, items[1..]);
    var end := more + [Closing(obj)];
    ItemsSplit(b, t, a, more, Closing(obj));
    hide ItemsText;
    HasSplit(s, i, b, t + (a + end));
    j := i + |b|;
    HasSplit(s, j, t, a + end);
    m := j + |t|;
    HasSplit(s, m, a, end);
    e := m + |a|;
    HasByte(s, j, t, 0, j);
    HasByte(s, e, end, 0, e);
    SkipOver(s, i, b);
    SkipOver(s, m, a);
    if a != [] { HasByte(s, m, a, 0, m); }
    if |items| > 1 { MoreItems(s, e, obj, k, items); }
  }

  lemma ItemsSplit(b: seq<u8>, t: seq<u8>, a: seq<u8>, more: seq<u8>, c: u8)
    ensures b + (t + (a + more)) + [c] == b + (t + (a + (more + [c])))
  {
    assert a + more + [c] == a + (more + [c]);
    assert t + (a + more) + [c] == t + (a + more + [c]);
  }

  lemma MoreItems(s: seq<u8>, e: nat, obj: bool, k: nat, items: seq<Spaced>)
    requires |items| > 1 && ProperItems(obj, k, items)
    requires Has(s, e, [Between(obj, k)] + ItemsText(obj, k + 1, items[1..]) + [Closing(obj)])
    ensures Has(s, e + 1, ItemsText(obj, k + 1, items[1..]) + [Closing(obj)])
  {
    hide Has, ItemsText;
    var more := ItemsText(obj, k + 1, items[1..]) + [Closing(obj)];
    assert [Between(obj, k)] + ItemsText(obj, k + 1, items[1..]) + [Closing(obj)] == [Between(obj, k)] + more;
    HasSplit(s, e, [Between(obj, k)], more);
  }

  /** The items from number k on are read up to the bracket behind them. */
  lemma {:induction false} ItemsRead(s: seq<u8>, i: nat, obj: bool, k: nat, items: seq<Spaced>, conv: Convert)
    requires items != [] && ProperItems(obj, k, items) && (obj ==> (k + |items|) % 2 == 0)
    requires Has(s, i, ItemsText(obj, k, items) + [Closing(obj)])
    ensures ParseItems(s, i, obj, k, conv) ==
      Ending(ItemsValue(obj, k, items, conv), i + |ItemsText(obj, k, items)| + 1)
    decreases items
  {
    hide Has, NodeText, NodeValue, ProperNode, ParseValue, ParseScalar, Skip, Follows, ItemsText, ParseItems;
    var j, m, e := ItemParts(s, i, obj, k, items);
    var node := items[0].node;
    var last := |items| == 1;
    if KeyNext(obj, k) { KeyRead(s, j, node, conv); } else { NodeRead(s, j, node, conv); }
    if !last { ItemsRead(s, e + 1, obj, k + 1, items[1..], conv); }
    ItemThen(s, i, j, m, e, obj, k, NodeValue(node, conv), last, conv);
    ItemsValueStep(obj, k, items, conv);
  }

  lemma ItemsValueStep(obj: bool, k: nat, items: seq<Spaced>, conv: Convert)
    requires items != [] && ProperItems(obj, k, items)
    ensures ItemsValue(obj, k, items, conv) ==
      match NodeValue(items[0].node, conv)
      case None => None
      case Some(v) =>
        if |items| == 1 then Some([v])
        else match ItemsValue(obj, k + 1, items[1..], conv) case None => None case Some(vs) => Some([v] + vs)
  {
    hide NodeValue, ProperNode;
    if |items| == 1 {
      assert items[1..] == [];
      NoValues(obj, k + 1, conv);
      var v := NodeValue(items[0].node, conv);
      if v.Some? { assert [v.value] + [] == [v.value]; }
    }
  }

  lemma NoValues(obj: bool, k: nat, conv: Convert)
    ensures ProperItems(obj, k, []) && ItemsValue(obj, k, [], conv) == Some([])
  {
  }

  lemma KeyRead(s: seq<u8>, j: nat, node: Node, conv: Convert)
    requires ProperNode(node) && IsKey(node) && Has(s, j, NodeText(node)) && Follows(At(s, j + |NodeText(node)|))
    ensures var v := NodeValue(node, conv);
      v.Some? && v.value.Str? && ParseScalar(s, j, conv) == Some((v.value, j + |NodeText(node)|))
  {
    hide Has, ParseScalar, LeafText, Follows;
    LeafRead(s, j, node.leaf, conv);
  }

  /** What the reader does behind an item. */
  lemma ItemThen(s: seq<u8>, i: nat, j: nat, m: nat, e: nat, obj: bool, k: nat, v: Option<Value>, last: bool,
                 conv: Convert)
    requires j == Skip(s, i) && e == Skip(s, m) && At(s, j) != 0x5d && At(s, j) != 0x7d
    requires At(s, e) == if last then Closing(obj) else Between(obj, k)
    requires KeyNext(obj, k) ==> v.Some? && v.value.Str? && ParseScalar(s, j, conv) == Ending(v, m) && !last
    requires !KeyNext(obj, k) ==> ParseValue(s, j, conv) == Ending(v, m)
    ensures ParseItems(s, i, obj, k, conv) ==
      match v
      case None => None
      case Some(x) => if last then Some(([x], e + 1)) else Cons(x, ParseItems(s, e + 1, obj, k + 1, conv))
  {
    hide ParseValue, ParseScalar, Skip;
  }

  /** A document is read as the value it spells, or not at all if one of its numbers cannot be converted. */
  lemma DocRead(n: Node, tail: seq<u8>, conv: Convert)
    requires ProperNode(n) && n.Box? && Blanks(tail)
    ensures ParseDoc(NodeText(n) + tail, 0, conv) == NodeValue(n, conv)
  {
    hide Has, NodeText, ProperNode, NodeValue, ParseValue, Skip;
    var (t, s) := (NodeText(n), NodeText(n) + tail);
    HasAll(s);
    HasSplit(s, 0, t, tail);
    NodeFirst(n);
    HasByte(s, 0, t, 0, 0);
    if tail != [] { HasByte(s, |t|, tail, 0, |t|); }
    NodeRead(s, 0, n, conv);
    SkipOver(s, |t|, tail);
  }

  // ---- and nothing else

  lemma {:induction false} NodeOf(s: seq<u8>, i: nat, conv: Convert) returns (n: Node)
    requires i <= |s| && ParseValue(s, i, conv).Some?
    ensures ProperNode(n) && Has(s, i, NodeText(n)) && ParseValue(s, i, conv).value.1 == i + |NodeText(n)|
    ensures n.Box? <==> At(s, i) == 0x5b || At(s, i) == 0x7b
    decreases |s| - i, 0
  {
    hide Has, ParseItems, ParseScalar, LeafText, ProperLeaf;
    var b := At(s, i);
    if b == 0x5b || b == 0x7b {
      var obj := b == 0x7b;
      ByteHere(s, i);
      var gap, items := ItemsOf(s, i + 1, obj, 0, conv);
      n := Box(obj, gap, items);
      var inner := (if items == [] then gap else ItemsText(obj, 0, items)) + [Closing(obj)];
      ST.HasBoth(s, i, [Opening(obj)], inner);
    } else {
      var l := LeafOf(s, i, conv);
      n := Single(l);
    }
  }

  /** One item at j, up to m. */
  lemma {:induction false} ItemOf(s: seq<u8>, j: nat, obj: bool, k: nat, conv: Convert) returns (node: Node, m: nat)
    requires j <= |s|
    requires if KeyNext(obj, k) then ParseScalar(s, j, conv).Some? && ParseScalar(s, j, conv).value.0.Str?
        else ParseValue(s, j, conv).Some?
    ensures ProperNode(node) && Has(s, j, NodeText(node)) && m == j + |NodeText(node)| <= |s|
    ensures if KeyNext(obj, k) then IsKey(node) && m == ParseScalar(s, j, conv).value.1
        else m == ParseValue(s, j, conv).value.1
    decreases |s| - j, 1
  {
    hide Has, ParseValue, ParseScalar, LeafText, ProperLeaf;
    if KeyNext(obj, k) {
      var l := LeafOf(s, j, conv);
      node, m := Single(l), j + |LeafText(l)|;
    } else {
      node := NodeOf(s, j, conv);
      m := j + |NodeText(node)|;
    }
  }

  /** The steps of the reader over one item that is not the last, or the last. */
  lemma ItemSteps(s: seq<u8>, i: nat, obj: bool, k: nat, conv: Convert)
    requires ParseItems(s, i, obj, k, conv).Some?
    ensures var j := Skip(s, i);
      if At(s, j) == Closing(obj) && !(obj && k % 2 == 1) then
        k == 0 && ParseItems(s, i, obj, k, conv) == Some(([], j + 1))
      else
        && (if KeyNext(obj, k) then ParseScalar(s, j, conv).Some? && ParseScalar(s, j, conv).value.0.Str?
            else ParseValue(s, j, conv).Some?)
        && var m := if KeyNext(obj, k) then ParseScalar(s, j, conv).value.1 else ParseValue(s, j, conv).value.1;
           var e := Skip(s, m);
           if At(s, e) == Between(obj, k) then
             && ParseItems(s, e + 1, obj, k + 1, conv).Some?
             && ParseItems(s, i, obj, k, conv).value.1 == ParseItems(s, e + 1, obj, k + 1, conv).value.1
           else At(s, e) == Closing(obj) && !KeyNext(obj, k) && ParseItems(s, i, obj, k, conv).value.1 == e + 1
  {
    hide ParseValue, ParseScalar, Skip;
  }

  /** The items from number k on, or white space only. */
  lemma {:induction false} ItemsOf(s: seq<u8>, i: nat, obj: bool, k: nat, conv: Convert)
    returns (gap: seq<u8>, items: seq<Spaced>)
    requires i <= |s| && ParseItems(s, i, obj, k, conv).Some?
    ensures Blanks(gap) && ProperItems(obj, k, items) && (obj ==> (k + |items|) % 2 == 0) && (items == [] ==> k == 0)
    ensures var t := (if items == [] then gap else ItemsText(obj, k, items)) + [Closing(obj)];
      Has(s, i, t) && ParseItems(s, i, obj, k, conv).value.1 == i + |t|
    decreases |s| - i, 2
  {
    hide Has, ParseValue, ParseScalar, ParseItems, NodeText, ProperNode, Blanks, Skip, ItemsText, ProperItems;
    ItemSteps(s, i, obj, k, conv);
    gap := SkipBlanks(s, i);
    items := [];
    var j := i + |gap|;
    HasInside(s, i, gap);
    if At(s, j) == Closing(obj) && !(obj && k % 2 == 1) {
      ByteHere(s, j);
      ST.HasBoth(s, i, gap, [Closing(obj)]);
      NoItems(obj, k);
    } else {
      var node, m := ItemOf(s, j, obj, k, conv);
      var after := SkipBlanks(s, m);
      var e := m + |after|;
      ByteHere(s, e);
      HasInside(s, e, [At(s, e)]);
      var first := Spaced(gap, node, after);
      if At(s, e) == Between(obj, k) {
        var g, rest := ItemsOf(s, e + 1, obj, k + 1, conv);
        items := [first] + rest;
        ItemsPut(s, i, obj, k, first, rest);
      } else {
        items := [first];
        LastPut(s, i, obj, k, first);
      }
    }
  }

  lemma NoItems(obj: bool, k: nat)
    ensures ProperItems(obj, k, [])
  {
  }

  lemma HasInside(s: seq<u8>, i: nat, t: seq<u8>)
    requires Has(s, i, t)
    ensures i + |t| <= |s|
  {
  }

  /** An item before others. */
  lemma ItemsPut(s: seq<u8>, i: nat, obj: bool, k: nat, first: Spaced, rest: seq<Spaced>)
    requires Blanks(first.before) && Blanks(first.after) && ProperNode(first.node)
    requires (KeyNext(obj, k) ==> IsKey(first.node)) && rest != [] && ProperItems(obj, k + 1, rest)
    requires Has(s, i, first.before) && Has(s, i + |first.before|, NodeText(first.node))
    requires var m := i + |first.before| + |NodeText(first.node)|;
      && Has(s, m, first.after) && Has(s, m + |first.after|, [Between(obj, k)])
      && Has(s, m + |first.after| + 1, ItemsText(obj, k + 1, rest) + [Closing(obj)])
    ensures ProperItems(obj, k, [first] + rest)
    ensures var t := ItemsText(obj, k, [first] + rest);
      && Has(s, i, t + [Closing(obj)])
      && |t| == |first.before| + |NodeText(first.node)| + |first.after| + 1 + |ItemsText(obj, k + 1, rest)|
  {
    hide Has, NodeText, ProperNode, Blanks;
    var items := [first] + rest;
    assert items[1..] == rest;
    var (b, t, a) := (first.before, NodeText(first.node), first.after);
    var more := [Between(obj, k)] + ItemsText(obj, k + 1, rest);
    assert ItemsText(obj, k, items) == b + (t + (a + more));
    hide ItemsText, ProperItems;
    Sequel(s, i, b, t, a, [Between(obj, k)], ItemsText(obj, k + 1, rest) + [Closing(obj)]);
    ItemsSplit(b, t, a, more, Closing(obj));
    assert more + [Closing(obj)] == [Between(obj, k)] + (ItemsText(obj, k + 1, rest) + [Closing(obj)]);
  }

  lemma Sequel(s: seq<u8>, i: nat, b: seq<u8>, t: seq<u8>, a: seq<u8>, c: seq<u8>, d: seq<u8>)
    requires Has(s, i, b) && Has(s, i + |b|, t) && Has(s, i + |b| + |t|, a) && Has(s, i + |b| + |t| + |a|, c)
    requires Has(s, i + |b| + |t| + |a| + |c|, d)
    ensures Has(s, i, b + (t + (a + (c + d))))
  {
    hide Has;
    ST.HasBoth(s, i + |b| + |t| + |a|, c, d);
    ST.HasBoth(s, i + |b| + |t|, a, c + d);
    ST.HasBoth(s, i + |b|, t, a + (c + d));
    ST.HasBoth(s, i, b, t + (a + (c + d)));
  }

  /** The last item. */
  lemma LastPut(s: seq<u8>, i: nat, obj: bool, k: nat, first: Spaced)
    requires Blanks(first.before) && Blanks(first.after) && ProperNode(first.node) && !KeyNext(obj, k)
    requires Has(s, i, first.before) && Has(s, i + |first.before|, NodeText(first.node))
    requires var m := i + |first.before| + |NodeText(first.node)|;
      Has(s, m, first.after) && Has(s, m + |first.after|, [Closing(obj)])
    ensures ProperItems(obj, k, [first])
    ensures var t := ItemsText(obj, k, [first]);
      && Has(s, i, t + [Closing(obj)]) && |t| == |first.before| + |NodeText(first.node)| + |first.after|
  {
    hide Has, NodeText, ProperNode, Blanks;
    var items := [first];
    NoItems(obj, k + 1);
    assert items[1..] == [];
    var (b, t, a) := (first.before, NodeText(first.node), first.after);
    assert ItemsText(obj, k, items) == b + (t + (a + []));
    assert [Closing(obj)] + [] == [Closing(obj)];
    HasNothing(s, i + |b| + |t| + |a|, [Closing(obj)]);
    Sequel(s, i, b, t, a, [Closing(obj)], []);
    ItemsSplit(b, t, a, [], Closing(obj));
    assert [] + [Closing(obj)] == [Closing(obj)];
  }

  lemma HasNothing(s: seq<u8>, i: nat, t: seq<u8>)
    requires Has(s, i, t)
    ensures Has(s, i + |t|, [])
  {
  }

  /** Whatever is read as a document is the text of a container with nothing but white space behind it. */
  lemma DocIs(s: seq<u8>, conv: Convert) returns (n: Node, tail: seq<u8>)
    requires ParseDoc(s, 0, conv).Some?
    ensures ProperNode(n) && n.Box? && Blanks(tail) && s == NodeText(n) + tail
    ensures NodeValue(n, conv) == ParseDoc(s, 0, conv)
  {
    hide Has, NodeText, ProperNode, NodeValue, ParseValue, Skip, Blanks;
    n := NodeOf(s, 0, conv);
    var t := NodeText(n);
    tail := SkipBlanks(s, |t|);
    ST.HasBoth(s, 0, t, tail);
    HasAllOf(s, t + tail);
    DocRead(n, tail, conv);
  }

  lemma HasAllOf(s: seq<u8>, t: seq<u8>)
    requires Has(s, 0, t) && |t| == |s|
    ensures s == t
  {
    forall k | 0 <= k < |s| ensures s[k] == t[k] { assert At(s, 0 + k) == t[k]; }
  }

  // ---- what the writer writes

  /** No white space, the spelling chosen for each character, and plain integers. */
  predicate Tight(f: Flags, n: Node)
    requires ProperNode(n)
    decreases n
  {
    match n
    case Single(Named(_)) => true
    case Single(Quoted(ps)) => forall i | 0 <= i < |ps| :: ST.Chosen(f, ps[i])
    case Single(Numeric(t)) => t.fp == [] && t.exp.NoExp? && (t.neg ==> t.ip != [0x30])
    case Box(obj, gap, items) => gap == [] && TightItems(f, obj, 0, items)
  }

  predicate TightItems(f: Flags, obj: bool, k: nat, items: seq<Spaced>)
    requires ProperItems(obj, k, items)
    decreases items
  {
    items == [] ||
    (items[0].before == [] == items[0].after && Tight(f, items[0].node) && TightItems(f, obj, k + 1, items[1..]))
  }

  lemma {:induction false} MeantIs(ps: seq<ST.Spelled>, cs: seq<int>)
    requires ST.AllProper(ps) && |ps| == |cs| && ST.Scalars(cs) && forall i | 0 <= i < |ps| :: ps[i].c == cs[i]
    ensures ST.Meant(ps) == ST.Utf8Of(cs)
    decreases |ps|
  {
    hide ST.Proper, Encode;
    if ps != [] { MeantIs(ps[1..], cs[1..]); }
  }

  lemma QuotedWritten(f: Flags, t: seq<u8>, conv: Convert) returns (n: Node)
    requires Utf8(t)
    ensures ProperNode(n) && IsKey(n) && Tight(f, n) && NodeText(n) == TextOf(f, Str(t))
    ensures NodeValue(n, conv) == Some(Str(t))
  {
    hide ST.SpelledText, ST.Meant, Text, ST.Proper, ST.Chosen, Utf8;
    var cs := ST.StringOf(t);
    var ps := ST.TextIs(f, cs);
    MeantIs(ps, cs);
    n := Single(Quoted(ps));
  }

  lemma NumberWritten(f: Flags, m: int, conv: Convert) returns (n: Node)
    requires -I64_ABS_MAX <= m <= U64_MAX
    ensures ProperNode(n) && n.Single? && Tight(f, n) && NodeText(n) == TextOf(f, Number(Int(m)))
    ensures NodeValue(n, conv) == Some(Number(Int(m)))
  {
    hide JsonDigits.Digits, JsonDigits.Value;
    var d: nat := if m < 0 then -m else m;
    JsonDigits.DigitsValue(d);
    var t := NT.Number(m < 0, JsonDigits.Digits(d), [], NT.NoExp);
    var none: seq<u8> := [];
    assert JsonDigits.Digits(d) + (none + none) == JsonDigits.Digits(d);
    assert none + JsonDigits.Digits(d) == JsonDigits.Digits(d);
    NoMinusZero();
    n := Single(Numeric(t));
  }

  lemma NoMinusZero()
    ensures JsonDigits.Value([0x30]) == 0
  {
    assert [0x30 as u8][..0] == [];
  }

  lemma WordWritten(f: Flags, v: Value, conv: Convert) returns (n: Node)
    requires v.Null? || v.Bool?
    ensures ProperNode(n) && n.Single? && Tight(f, n) && NodeText(n) == TextOf(f, v) && NodeValue(n, conv) == Some(v)
  {
    n := Single(Named(if v.Null? then Nil else if v.b then Yes else No));
  }

  /** The text written is the tight spelling of the document. */
  lemma {:induction false} Written(f: Flags, v: Value, conv: Convert) returns (n: Node)
    requires Writable(v)
    ensures ProperNode(n) && Tight(f, n) && (n.Box? <==> v.Container?) && (v.Str? ==> IsKey(n))
    ensures NodeText(n) == TextOf(f, v) && NodeValue(n, conv) == Some(v)
    decreases v
  {
    match v
    case Str(t) => n := QuotedWritten(f, t, conv);
    case Number(m) => n := NumberWritten(f, m.n, conv);
    case Container(obj, items) =>
      var spaced := ItemsWritten(f, obj, 0, items, conv);
      n := Box(obj, [], spaced);
      BoxWritten(f, obj, items, spaced, conv);
    case _ => n := WordWritten(f, v, conv);
  }

  lemma BoxWritten(f: Flags, obj: bool, items: seq<Value>, spaced: seq<Spaced>, conv: Convert)
    requires (obj ==> |items| % 2 == 0) && |spaced| == |items| && ProperItems(obj, 0, spaced)
    requires TightItems(f, obj, 0, spaced) && ItemsValue(obj, 0, spaced, conv) == Some(items)
    requires TextItems(f, obj, 0, items) == if spaced == [] then [] else ItemsText(obj, 0, spaced)
    ensures var n := Box(obj, [], spaced);
      && ProperNode(n) && Tight(f, n) && NodeText(n) == TextOf(f, Container(obj, items))
      && NodeValue(n, conv) == Some(Container(obj, items))
  {
    hide ProperItems, TightItems, ItemsValue, TextItems, ItemsText;
  }

  lemma {:induction false} ItemsWritten(f: Flags, obj: bool, k: nat, items: seq<Value>, conv: Convert)
    returns (spaced: seq<Spaced>)
    requires AllWritable(obj, k, items)
    ensures |spaced| == |items| && ProperItems(obj, k, spaced) && TightItems(f, obj, k, spaced)
    ensures TextItems(f, obj, k, items) == if spaced == [] then [] else ItemsText(obj, k, spaced)
    ensures ItemsValue(obj, k, spaced, conv) == Some(items)
    decreases items
  {
    hide Writable, ProperNode, TextOf, NodeText, NodeValue, Tight, IsKey;
    spaced := [];
    if items != [] {
      var n := Written(f, items[0], conv);
      var rest := ItemsWritten(f, obj, k + 1, items[1..], conv);
      spaced := [Spaced([], n, [])] + rest;
      FirstWritten(f, obj, k, items, n, rest, conv);
    }
  }

  lemma FirstWritten(f: Flags, obj: bool, k: nat, items: seq<Value>, n: Node, rest: seq<Spaced>, conv: Convert)
    requires items != [] && |rest| == |items| - 1 && ProperNode(n) && Tight(f, n) && (KeyNext(obj, k) ==> IsKey(n))
    requires NodeText(n) == TextOf(f, items[0]) && NodeValue(n, conv) == Some(items[0])
    requires ProperItems(obj, k + 1, rest) && TightItems(f, obj, k + 1, rest)
    requires TextItems(f, obj, k + 1, items[1..]) == if rest == [] then [] else ItemsText(obj, k + 1, rest)
    requires ItemsValue(obj, k + 1, rest, conv) == Some(items[1..])
    ensures var spaced := [Spaced([], n, [])] + rest;
      && ProperItems(obj, k, spaced) && TightItems(f, obj, k, spaced)
      && TextItems(f, obj, k, items) == ItemsText(obj, k, spaced) && ItemsValue(obj, k, spaced, conv) == Some(items)
  {
    hide ProperNode, TextOf, NodeText, NodeValue, Tight, IsKey;
    var spaced := [Spaced([], n, [])] + rest;
    assert spaced[1..] == rest;
    var none: seq<u8> := [];
    assert none + (NodeText(n) + (none + none)) == NodeText(n) + none;
    assert [items[0]] + items[1..] == items;
    if rest != [] {
      var more := [Between(obj, k)] + ItemsText(obj, k + 1, rest);
      assert none + (NodeText(n) + (none + more)) == NodeText(n) + more;
    }
  }
}
