/** JSON strings: UTF-8 (section 4 of RFC 3629), the string grammar (section 7 of RFC 8259),
    escaping, and what they have to do with each other. */
module JsonString {
  import opened Options
  import opened Bytes
  import opened JsonNumber

  predicate Tail(b: u8) { 0x80 <= b <= 0xbf }

  /** Length of the well-formed UTF-8 sequence at i, 0 if there is none. */
  function Utf8Len(s: seq<u8>, i: nat): (n: nat)
    ensures n > 1 ==> i + n <= |s|
  {
    var b0, b1, b2, b3 := At(s, i), At(s, i + 1), At(s, i + 2), At(s, i + 3);
    if b0 <= 0x7f then 1
    else if 0xc2 <= b0 <= 0xdf then (if Tail(b1) then 2 else 0)
    else if b0 == 0xe0 then (if 0xa0 <= b1 <= 0xbf && Tail(b2) then 3 else 0)
    else if 0xe1 <= b0 <= 0xec || 0xee <= b0 <= 0xef then (if Tail(b1) && Tail(b2) then 3 else 0)
    else if b0 == 0xed then (if 0x80 <= b1 <= 0x9f && Tail(b2) then 3 else 0)
    else if b0 == 0xf0 then (if 0x90 <= b1 <= 0xbf && Tail(b2) && Tail(b3) then 4 else 0)
    else if 0xf1 <= b0 <= 0xf3 then (if Tail(b1) && Tail(b2) && Tail(b3) then 4 else 0)
    else if b0 == 0xf4 then (if 0x80 <= b1 <= 0x8f && Tail(b2) && Tail(b3) then 4 else 0)
    else 0
  }

  /** The masks of read_string, byte by byte: pattern, required bits, excluded bits. */
  predicate IsSeq2(b0: u8, b1: u8) {
    b0 / 32 == 6 && b1 / 64 == 2 && b0 / 2 % 16 != 0
  }

  predicate IsSeq3(b0: u8, b1: u8, b2: u8) {
    b0 / 16 == 14 && b1 / 64 == 2 && b2 / 64 == 2 &&
    (b0 % 16 != 0 || b1 / 32 % 2 != 0) && !(b0 % 16 == 13 && b1 / 32 % 2 == 1)
  }

  predicate IsSeq4(b0: u8, b1: u8, b2: u8, b3: u8) {
    b0 / 8 == 30 && b1 / 64 == 2 && b2 / 64 == 2 && b3 / 64 == 2 &&
    (b0 % 8 != 0 || b1 / 16 % 4 != 0) &&
    (b0 / 4 % 2 == 0 || (b0 % 4 == 0 && b1 / 16 % 4 == 0))
  }

  /** The mask tests accept exactly the well-formed sequences. */
  lemma MasksAreUtf8(s: seq<u8>, i: nat)
    ensures IsSeq2(At(s, i), At(s, i + 1)) <==> Utf8Len(s, i) == 2
    ensures IsSeq3(At(s, i), At(s, i + 1), At(s, i + 2)) <==> Utf8Len(s, i) == 3
    ensures IsSeq4(At(s, i), At(s, i + 1), At(s, i + 2), At(s, i + 3)) <==> Utf8Len(s, i) == 4
    ensures At(s, i) < 0x80 <==> Utf8Len(s, i) == 1
    ensures Utf8Len(s, i) <= 4
  {
    hide At, IsSeq2, IsSeq3, IsSeq4;
    var b0, b1, b2, b3 := At(s, i), At(s, i + 1), At(s, i + 2), At(s, i + 3);
    Lead2(b0, b1);
    Lead3(b0, b1, b2);
    Lead4(b0, b1, b2, b3);
  }

  lemma Lead2(b0: u8, b1: u8)
    ensures IsSeq2(b0, b1) <==> 0xc2 <= b0 <= 0xdf && Tail(b1)
  {
  }

  lemma Lead3(b0: u8, b1: u8, b2: u8)
    ensures IsSeq3(b0, b1, b2) <==>
            0xe0 <= b0 <= 0xef && Tail(b1) && Tail(b2) && (b0 == 0xe0 ==> b1 >= 0xa0) && (b0 == 0xed ==> b1 <= 0x9f)
  {
  }

  lemma Lead4(b0: u8, b1: u8, b2: u8, b3: u8)
    ensures IsSeq4(b0, b1, b2, b3) <==>
            0xf0 <= b0 <= 0xf4 && Tail(b1) && Tail(b2) && Tail(b3) && (b0 == 0xf0 ==> b1 >= 0x90)
            && (b0 == 0xf4 ==> b1 <= 0x8f)
  {
  }

  predicate Utf8(s: seq<u8>) {
    s == [] || (Utf8Len(s, 0) > 0 && Utf8(s[Utf8Len(s, 0)..]))
  }

  predicate Scalar(c: int) { 0 <= c <= 0x10_ffff && !(0xd800 <= c <= 0xdfff) }

  /** UTF-8 encoding of a Unicode scalar value. */
  function Encode(c: int): (b: seq<u8>)
    requires Scalar(c)
    ensures 1 <= |b| <= 4
  {
    if c < 0x80 then [c]
    else if c < 0x800 then [0xc0 + c / 64, 0x80 + c % 64]
    else if c < 0x1_0000 then [0xe0 + c / 4096, 0x80 + c / 64 % 64, 0x80 + c % 64]
    else [0xf0 + c / 0x4_0000, 0x80 + c / 4096 % 64, 0x80 + c / 64 % 64, 0x80 + c % 64]
  }

  // ---- reading

  function HexVal(b: u8): (v: int)
    ensures v < 16
  {
    if 48 <= b <= 57 then b - 48 else if 65 <= b <= 70 then b - 55 else if 97 <= b <= 102 then b - 87 else -1
  }

  /** Four hexadecimal digits, unless one is none. */
  function HexPlaces(a: int, b: int, c: int, d: int): (r: Option<nat>)
    requires a < 16 && b < 16 && c < 16 && d < 16
    ensures r.Some? ==> r.value < 0x1_0000
  {
    if a < 0 || b < 0 || c < 0 || d < 0 then None else Some(a * 4096 + b * 256 + c * 16 + d)
  }

  /** Four hexadecimal digits at i. */
  function Hex4(s: seq<u8>, i: nat): (r: Option<nat>)
    ensures r.Some? ==> r.value < 0x1_0000
  {
    HexPlaces(HexVal(At(s, i)), HexVal(At(s, i + 1)), HexVal(At(s, i + 2)), HexVal(At(s, i + 3)))
  }

  function SingleEscape(e: u8): int {
    if e == 34 || e == 92 || e == 47 then e
    else if e == 98 then 8
    else if e == 102 then 12
    else if e == 110 then 10
    else if e == 114 then 13
    else if e == 116 then 9
    else -1
  }

  /** The escape sequence at i: the bytes it stands for and its length. */
  function Escape(s: seq<u8>, i: nat): (r: Option<(seq<u8>, nat)>)
    ensures r.Some? ==> 1 <= |r.value.0| < r.value.1 && i + 1 < |s|
  {
    var e := At(s, i + 1);
    if SingleEscape(e) >= 0 then Some(([SingleEscape(e)], 2))
    else if e != 117 then None
    else
      match Hex4(s, i + 2)
      case None => None
      case Some(hi) =>
        if !(0xd800 <= hi < 0xe000) then Some((Encode(hi), 6))
        else if hi >= 0xdc00 || At(s, i + 6) != 92 || At(s, i + 7) != 117 then None
        else
          match Hex4(s, i + 8)
          case None => None
          case Some(lo) =>
            if !(0xdc00 <= lo < 0xe000) then None
            else Some((Encode((hi - 0xd800) * 0x400 + (lo - 0xdc00) + 0x1_0000), 12))
  }

  /** The result of decoding `done` before the rest. */
  function Prepend(done: seq<u8>, r: Option<(seq<u8>, nat)>): Option<(seq<u8>, nat)> {
    match r case None => None case Some((t, n)) => Some((done + t, n))
  }

  /** The string whose text, without the opening quote, starts at i: its bytes and the position
      after the closing quote. */
  function Body(s: seq<u8>, i: nat): (r: Option<(seq<u8>, nat)>)
    decreases |s| - i
  {
    var b := At(s, i);
    if b == 34 then Some(([], i + 1))
    else if b == 92 then
      match Escape(s, i)
      case None => None
      case Some((t, n)) => Prepend(t, Body(s, i + n))
    else if b < 0x20 || Utf8Len(s, i) == 0 then None
    else Prepend(if Utf8Len(s, i) == 1 then [b] else s[i..i + Utf8Len(s, i)], Body(s, i + Utf8Len(s, i)))
  }

  lemma PrependTwice(a: seq<u8>, b: seq<u8>, r: Option<(seq<u8>, nat)>)
    ensures Prepend(a, Prepend(b, r)) == Prepend(a + b, r)
  {
    if r.Some? { assert a + (b + r.value.0) == a + b + r.value.0; }
  }

  lemma PrependNone(r: Option<(seq<u8>, nat)>)
    ensures Prepend([], r) == r
  {
    if r.Some? { assert [] + r.value.0 == r.value.0; }
  }

  // ---- writing

  /** Writer flags: escape all non-ASCII characters, escape slashes. */
  datatype Flags = Flags(unicode: bool, slashes: bool)

  datatype EscType = Plain | Ascii | Utf1 | Utf2 | Utf3 | Utf4

  /** The four escape tables. */
  function TypeOf(f: Flags, b: u8): EscType {
    if b < 0x20 then (if b == 8 || b == 9 || b == 10 || b == 12 || b == 13 then Ascii else Utf1)
    else if b == 34 || b == 92 then Ascii
    else if b == 47 then (if f.slashes then Ascii else Plain)
    else if b < 0xc0 || !f.unicode then Plain
    else if b < 0xe0 then Utf2
    else if b < 0xf0 then Utf3
    else if b < 0xf8 then Utf4
    else Plain
  }

  /** The letter of a two-character escape. */
  function Letter(b: u8): u8 {
    if b == 8 then 98 else if b == 9 then 116 else if b == 10 then 110 else if b == 12 then 102 else if b == 13 then 114
        else b
  }

  function HexChar(d: nat): u8
    requires d < 16
  {
    if d < 10 then 48 + d else 55 + d
  }

  /** \uXXXX */
  function UEscape(u: int): (t: seq<u8>)
    requires 0 <= u < 0x1_0000
    ensures |t| == 6
  {
    [92, 117, HexChar(u / 4096), HexChar(u / 256 % 16), HexChar(u / 16 % 16), HexChar(u % 16)]
  }

  /** The code point of the sequence at the front, as its bits are put together. */
  function Code2(s: seq<u8>): int {
    var a: int, b: int := At(s, 0), At(s, 1);
    a % 32 * 64 + b % 64
  }

  function Code3(s: seq<u8>): int {
    var a: int, b: int, c: int := At(s, 0), At(s, 1), At(s, 2);
    a % 16 * 4096 + b % 64 * 64 + c % 64
  }

  function Code4(s: seq<u8>): int {
    var a: int, b: int, c: int, d: int := At(s, 0), At(s, 1), At(s, 2), At(s, 3);
    a % 8 * 0x4_0000 + b % 64 * 4096 + c % 64 * 64 + d % 64
  }

  function Min(a: nat, b: nat): nat { if a < b then a else b }

  /** What write_string emits for the bytes s, without the quotes. */
  function Text(f: Flags, s: seq<u8>): seq<u8> {
    if s == [] then []
    else
      match TypeOf(f, s[0])
      case Plain => [s[0]] + Text(f, s[1..])
      case Ascii => [92, Letter(s[0])] + Text(f, s[1..])
      case Utf1 => UEscape(s[0]) + Text(f, s[1..])
      case Utf2 => UEscape(Code2(s)) + Text(f, s[Min(2, |s|)..])
      case Utf3 => UEscape(Code3(s)) + Text(f, s[Min(3, |s|)..])
      case Utf4 =>
        var u := (Code4(s) - 0x1_0000) % 0x1_0000_0000;
        UEscape((u / 0x400 + 0xd800) % 0x1_0000) + UEscape(u % 0x400 + 0xdc00) + Text(f, s[Min(4, |s|)..])
  }

  // ---- reading back what was written

  /** The text t stands at i. */
  predicate Has(s: seq<u8>, i: nat, t: seq<u8>) {
    i + |t| <= |s| && forall k | 0 <= k < |t| :: At(s, i + k) == t[k]
  }

  lemma HasByte(s: seq<u8>, i: nat, t: seq<u8>, k: nat, p: nat)
    requires Has(s, i, t) && k < |t| && p == i + k
    ensures At(s, p) == t[k] && p < |s|
  {
    assert At(s, i + k) == t[k];
  }

  lemma HasSplit(s: seq<u8>, i: nat, a: seq<u8>, b: seq<u8>)
    requires Has(s, i, a + b)
    ensures Has(s, i, a) && Has(s, i + |a|, b)
  {
    forall k | 0 <= k < |a| ensures At(s, i + k) == a[k] { assert (a + b)[k] == a[k]; }
    forall k | 0 <= k < |b| ensures At(s, i + |a| + k) == b[k] { assert (a + b)[|a| + k] == b[k]; }
  }

  /** Decoding and encoding a code point gives back its bytes. */
  lemma EncodeCode(s: seq<u8>)
    ensures Utf8Len(s, 0) == 2 ==> 0x80 <= Code2(s) < 0x800 && Encode(Code2(s)) == s[..2]
    ensures Utf8Len(s, 0) == 3 ==> 0x800 <= Code3(s) < 0x1_0000 && Scalar(Code3(s)) && Encode(Code3(s)) == s[..3]
    ensures Utf8Len(s, 0) == 4 ==> 0x1_0000 <= Code4(s) <= 0x10_ffff && Encode(Code4(s)) == s[..4]
  {
    Encode2(s);
    Encode3(s);
    Encode4(s);
  }

  lemma Encode2(s: seq<u8>)
    ensures Utf8Len(s, 0) == 2 ==> 0x80 <= Code2(s) < 0x800 && Encode(Code2(s)) == s[..2]
  {
    if Utf8Len(s, 0) == 2 {
      var a: int, b: int := s[0] - 0xc0, s[1] - 0x80;
      assert Code2(s) == a * 64 + b;
      assert s[..2] == [0xc0 + a, 0x80 + b];
    }
  }

  lemma Encode3(s: seq<u8>)
    ensures Utf8Len(s, 0) == 3 ==> 0x800 <= Code3(s) < 0x1_0000 && Scalar(Code3(s)) && Encode(Code3(s)) == s[..3]
  {
    if Utf8Len(s, 0) == 3 {
      var a: int, b: int, c: int := s[0] - 0xe0, s[1] - 0x80, s[2] - 0x80;
      assert Code3(s) == a * 4096 + b * 64 + c;
      Places(0, a, b, c);
      assert s[..3] == [0xe0 + a, 0x80 + b, 0x80 + c];
    }
  }

  lemma Places(a: int, b: int, c: int, d: int)
    requires 0 <= b < 64 && 0 <= c < 64 && 0 <= d < 64
    ensures var v := a * 0x4_0000 + b * 4096 + c * 64 + d;
      v / 0x4_0000 == a && v / 4096 % 64 == b && v / 64 % 64 == c && v % 64 == d
  {
    var v := a * 0x4_0000 + b * 4096 + c * 64 + d;
    assert v / 64 == a * 4096 + b * 64 + c;
    assert v / 4096 == a * 64 + b;
  }

  lemma Encode4(s: seq<u8>)
    ensures Utf8Len(s, 0) == 4 ==> 0x1_0000 <= Code4(s) <= 0x10_ffff && Encode(Code4(s)) == s[..4]
  {
    if Utf8Len(s, 0) == 4 {
      var a: int, b: int, c: int, d: int := s[0] - 0xf0, s[1] - 0x80, s[2] - 0x80, s[3] - 0x80;
      assert Code4(s) == a * 0x4_0000 + b * 4096 + c * 64 + d;
      assert s[..4] == [0xf0 + a, 0x80 + b, 0x80 + c, 0x80 + d];
      EncodeLarge(a, b, c, d);
    }
  }

  lemma EncodeLarge(a: int, b: int, c: int, d: int)
    requires 0 <= a <= 4 && 0 <= b < 64 && 0 <= c < 64 && 0 <= d < 64 && 0x10 <= a * 64 + b < 0x110
    ensures var v := a * 0x4_0000 + b * 4096 + c * 64 + d;
      0x1_0000 <= v <= 0x10_ffff && Encode(v) == [0xf0 + a, 0x80 + b, 0x80 + c, 0x80 + d]
  {
    Places(a, b, c, d);
  }

  lemma HexRoundTrip(s: seq<u8>, i: nat, u: int)
    requires 0 <= u < 0x1_0000 && Has(s, i, UEscape(u))
    ensures At(s, i) == 92 && At(s, i + 1) == 117 && Hex4(s, i + 2) == Some(u)
  {
    var t := UEscape(u);
    var a, b, c, d := u / 4096, u / 256 % 16, u / 16 % 16, u % 16;
    Nibbles(u);
    HasByte(s, i, t, 0, i);
    HasByte(s, i, t, 1, i + 1);
    HasByte(s, i, t, 2, i + 2);
    HasByte(s, i, t, 3, i + 3);
    HasByte(s, i, t, 4, i + 4);
    HasByte(s, i, t, 5, i + 5);
    HexDigit(a);
    HexDigit(b);
    HexDigit(c);
    HexDigit(d);
    hide HexVal, HexChar, Has, At;
  }

  lemma HexDigit(d: nat)
    requires d < 16
    ensures HexVal(HexChar(d)) == d
  {
  }

  lemma Nibbles(u: int)
    requires 0 <= u < 0x1_0000
    ensures u == u / 4096 * 4096 + u / 256 % 16 * 256 + u / 16 % 16 * 16 + u % 16 && u / 4096 < 16
  {
    var q, r := u / 16, u / 256;
    assert r == q / 16 && u / 4096 == r / 16;
  }

  /** A character that is written as one escape of the Basic Multilingual Plane. */
  lemma ReadsU(s: seq<u8>, i: nat, u: int)
    requires 0 <= u < 0x1_0000 && Scalar(u) && Has(s, i, UEscape(u))
    ensures Body(s, i) == Prepend(Encode(u), Body(s, i + 6))
  {
    HexRoundTrip(s, i, u);
    hide Hex4, UEscape, Encode;
    assert Escape(s, i) == Some((Encode(u), 6));
  }

  /** A character that is written as a surrogate pair. */
  lemma ReadsPair(s: seq<u8>, i: nat, c: int)
    requires 0x1_0000 <= c <= 0x10_ffff
    requires var u := c - 0x1_0000; Has(s, i, UEscape(u / 0x400 + 0xd800) + UEscape(u % 0x400 + 0xdc00))
    ensures Body(s, i) == Prepend(Encode(c), Body(s, i + 12))
  {
    var u := c - 0x1_0000;
    var hi, lo := u / 0x400 + 0xd800, u % 0x400 + 0xdc00;
    HasSplit(s, i, UEscape(hi), UEscape(lo));
    HexRoundTrip(s, i, hi);
    HexRoundTrip(s, i + 6, lo);
    assert (hi - 0xd800) * 0x400 + (lo - 0xdc00) + 0x1_0000 == c;
    PairEscape(s, i, hi, lo, c);
    hide Escape;
  }

  lemma PairEscape(s: seq<u8>, i: nat, hi: int, lo: int, c: int)
    requires 0xd800 <= hi < 0xdc00 && 0xdc00 <= lo < 0xe000 && c == (hi - 0xd800) * 0x400 + (lo - 0xdc00) + 0x1_0000
    requires At(s, i + 1) == 117 && Hex4(s, i + 2) == Some(hi) && At(s, i + 6) == 92 && At(s, i + 7) == 117
        && Hex4(s, i + 8) == Some(lo)
    ensures Escape(s, i) == Some((Encode(c), 12))
  {
    hide Hex4, Encode;
  }

  lemma ReadsLetter(s: seq<u8>, i: nat, b: u8)
    requires TypeOf(Flags(false, true), b) == Ascii && Has(s, i, [92, Letter(b)])
    ensures Body(s, i) == Prepend([b], Body(s, i + 2))
  {
    HasByte(s, i, [92, Letter(b)], 0, i);
    HasByte(s, i, [92, Letter(b)], 1, i + 1);
    assert Escape(s, i) == Some(([b], 2));
  }

  /** A character that is copied. */
  lemma ReadsPlain(s: seq<u8>, i: nat, str: seq<u8>, n: nat)
    requires 0 < n == Utf8Len(str, 0) <= |str| && str[0] != 34 && str[0] != 92 && str[0] >= 0x20
    requires Has(s, i, str[..n])
    ensures Body(s, i) == Prepend(str[..n], Body(s, i + n))
  {
    var p := str[..n];
    forall k | 0 <= k < n ensures At(s, i + k) == At(str, k) == p[k] && i + k < |s| { HasByte(s, i, p, k, i + k); }
    HasByte(s, i, p, 0, i);
    SameLen(s, i, str, n);
    assert i + n <= |s|;
    assert s[i..i + n] == p by {
      forall k | 0 <= k < n ensures s[i..i + n][k] == p[k] { assert At(s, i + k) == p[k]; }
    }
    if n == 1 { assert [At(s, i)] == p; }
  }

  lemma SameLen(s: seq<u8>, i: nat, str: seq<u8>, n: nat)
    requires 0 < n == Utf8Len(str, 0) && forall k: nat | k < n :: At(s, i + k) == At(str, k)
    ensures Utf8Len(s, i) == n
  {
    var k: nat := 0;
    assert At(s, i + k) == At(str, k);
    if n > 1 { assert At(s, i + 1) == At(str, 1); }
    if n > 2 { assert At(s, i + 2) == At(str, 2); }
    if n > 3 { assert At(s, i + 3) == At(str, 3); }
  }

  /** The text of the first character. */
  function Piece(f: Flags, str: seq<u8>): seq<u8>
    requires str != [] && Utf8Len(str, 0) > 0
  {
    match TypeOf(f, str[0])
    case Plain => str[..Min(Utf8Len(str, 0), |str|)]
    case Ascii => [92, Letter(str[0])]
    case Utf1 => UEscape(str[0])
    case Utf2 => UEscape(Code2(str))
    case Utf3 => UEscape(Code3(str))
    case Utf4 =>
      var u := (Code4(str) - 0x1_0000) % 0x1_0000_0000;
      UEscape((u / 0x400 + 0xd800) % 0x1_0000) + UEscape(u % 0x400 + 0xdc00)
  }

  lemma PlainStep(f: Flags, str: seq<u8>)
    requires str != [] && TypeOf(f, str[0]) == Plain
    ensures Text(f, str) == [str[0]] + Text(f, str[1..])
  {
    hide TypeOf;
  }

  lemma {:induction false} PlainRun(f: Flags, str: seq<u8>, n: nat)
    requires n <= |str| && forall k | 0 <= k < n :: TypeOf(f, str[k]) == Plain
    ensures Text(f, str) == str[..n] + Text(f, str[n..])
    decreases n
  {
    hide Text, TypeOf;
    if n > 0 {
      PlainStep(f, str);
      PlainRun(f, str[1..], n - 1);
      assert str[1..][n - 1..] == str[n..];
      assert [str[0]] + (str[1..][..n - 1] + Text(f, str[n..])) == str[..n] + Text(f, str[n..]);
    }
  }

  lemma TextPiece(f: Flags, str: seq<u8>)
    requires str != [] && Utf8Len(str, 0) > 0
    ensures Utf8Len(str, 0) <= |str|
    ensures Text(f, str) == Piece(f, str) + Text(f, str[Utf8Len(str, 0)..])
  {
    var n := Utf8Len(str, 0);
    if TypeOf(f, str[0]) == Plain {
      assert forall k | 0 < k < n :: Tail(At(str, k));
      PlainRun(f, str, n);
    } else {
      hide UEscape, Code2, Code3, Code4;
      assert TypeOf(f, str[0]).Utf2? ==> n == 2;
      assert TypeOf(f, str[0]).Utf3? ==> n == 3;
      assert TypeOf(f, str[0]).Utf4? ==> n == 4;
    }
  }

  lemma ReadsPiece(f: Flags, str: seq<u8>, s: seq<u8>, i: nat)
    requires str != [] && Utf8Len(str, 0) > 0 && Has(s, i, Piece(f, str))
    ensures Utf8Len(str, 0) <= |str|
    ensures Body(s, i) == Prepend(str[..Utf8Len(str, 0)], Body(s, i + |Piece(f, str)|))
  {
    var n := Utf8Len(str, 0);
    LeadType(f, str);
    PieceIs(f, str);
    EncodeCode(str);
    hide Body, Has, UEscape, Code2, Code3, Code4, Prepend, Encode, Utf8Len, TypeOf, Piece;
    match TypeOf(f, str[0])
    case Plain => ReadsPlain(s, i, str, n);
    case Ascii =>
      ReadsLetter(s, i, str[0]);
      assert str[..1] == [str[0]];
    case Utf1 =>
      ReadsU(s, i, str[0]);
      OneByte(str);
    case Utf2 => ReadsU(s, i, Code2(str));
    case Utf3 => ReadsU(s, i, Code3(str));
    case Utf4 => ReadsPair(s, i, Code4(str));
  }

  lemma PieceIs(f: Flags, str: seq<u8>)
    requires str != [] && Utf8Len(str, 0) > 0
    ensures match TypeOf(f, str[0])
      case Plain => Utf8Len(str, 0) <= |str| && Piece(f, str) == str[..Utf8Len(str, 0)]
      case Utf4 =>
        0x1_0000 <= Code4(str) <= 0x10_ffff &&
        var u := Code4(str) - 0x1_0000;
        Piece(f, str) == UEscape(u / 0x400 + 0xd800) + UEscape(u % 0x400 + 0xdc00)
      case _ => |Piece(f, str)| <= 6
  {
    hide UEscape;
    LeadType(f, str);
    if TypeOf(f, str[0]) == Utf4 {
      EncodeCode(str);
      hide Code4;
      NoWrap(Code4(str));
    }
    hide Encode, Utf8Len, TypeOf, Code4, Code3, Code2;
  }

  lemma NoWrap(c: int)
    requires 0x1_0000 <= c <= 0x10_ffff
    ensures var u := c - 0x1_0000; u % 0x1_0000_0000 == u && (u / 0x400 + 0xd800) % 0x1_0000 == u / 0x400 + 0xd800
  {
  }

  lemma LeadType(f: Flags, str: seq<u8>)
    requires str != [] && Utf8Len(str, 0) > 0
    ensures var n := Utf8Len(str, 0);
      n <= |str| &&
      match TypeOf(f, str[0])
      case Plain => str[0] != 34 && str[0] != 92 && str[0] >= 0x20
      case Ascii => n == 1 && TypeOf(Flags(false, true), str[0]) == Ascii
      case Utf1 => n == 1 && str[0] < 0x20
      case Utf2 => n == 2
      case Utf3 => n == 3
      case Utf4 => n == 4
  {
  }

  lemma OneByte(str: seq<u8>)
    requires str != [] && str[0] < 0x80
    ensures Encode(str[0]) == str[..1]
  {
  }

  /** Reading undoes writing for every well-formed string and every combination of flags. */
  lemma {:induction false} StringRoundTrip(f: Flags, str: seq<u8>, s: seq<u8>, i: nat)
    requires Utf8(str) && Has(s, i, Text(f, str) + [34])
    ensures Body(s, i) == Prepend(str, Closed(i + |Text(f, str)| + 1))
    decreases |str|
  {
    hide Has, Piece, Utf8Len, Body, TypeOf, UEscape;
    HasSplit(s, i, Text(f, str), [34]);
    if str == [] {
      assert Text(f, str) == [];
      Closes(s, i);
      PrependNone(Closed(i + 1));
    } else {
      var n := Utf8Len(str, 0);
      TextPiece(f, str);
      hide Text;
      var p, rest := Piece(f, str), Text(f, str[n..]);
      assert Text(f, str) + [34] == p + (rest + [34]);
      HasSplit(s, i, p, rest + [34]);
      ReadsPiece(f, str, s, i);
      StringRoundTrip(f, str[n..], s, i + |p|);
      PrependTwice(str[..n], str[n..], Closed(i + |Text(f, str)| + 1));
      assert str == str[..n] + str[n..];
    }
  }

  function Closed(n: nat): Option<(seq<u8>, nat)> { Some(([], n)) }

  lemma Closes(s: seq<u8>, i: nat)
    requires Has(s, i, [34])
    ensures Body(s, i) == Closed(i + 1)
  {
    HasByte(s, i, [34], 0, i);
  }

  // ---- the procedures

  /** read_string decodes in place: the bytes of the string end up right after the opening quote,
      ended by a zero byte. The result is their number and the position after the closing
      quote. */
  method ReadString(buf: array<u8>, ghost s: seq<u8>, cur: nat) returns (r: Option<(nat, nat)>)
    requires Unread(buf, s, cur) && cur < |s|
    modifies buf
    ensures match Body(s, cur + 1)
      case None => r == None
      case Some((bytes, next)) =>
        && r == Some((|bytes|, next)) && cur + 1 + |bytes| < next <= |s|
        && buf[cur + 1..cur + 1 + |bytes|] == bytes && buf[cur + 1 + |bytes|] == 0
        && Unread(buf, s, next)
    ensures forall k | 0 <= k <= cur :: buf[k] == old(buf[k])
  {
    hide Body, Escape, Utf8Len;
    var src := SkipPlain(buf, s, cur + 1);
    ghost var done := s[cur + 1..src];
    assert buf[cur + 1..src] == done;
    if buf[src] == 34 {
      BodyEnds(s, src, done);
      buf[src] := 0;
      return Some((src - (cur + 1), src + 1));
    }
    if buf[src] >= 0x80 {
      BodyFails(s, src);
      return None;
    }
    r := CopyEscapes(buf, s, cur + 1, src, done);
  }

  /** The ASCII bytes at which plain text ends. */
  predicate IsStop(b: u8) { b < 0x20 || b == 34 || b == 92 }

  /** The part of a string before its end, its first escape or its first error. */
  method SkipPlain(buf: array<u8>, ghost s: seq<u8>, start: nat) returns (src: nat)
    requires Unread(buf, s, start) && start <= |s|
    ensures start <= src <= |s|
    ensures Body(s, start) == Prepend(s[start..src], Body(s, src))
    ensures IsStop(buf[src]) || (buf[src] >= 0x80 && Utf8Len(s, src) == 0)
  {
    hide Body, Utf8Len;
    src := start;
    PrependNone(Body(s, start));
    assert s[start..start] == [];
    while true
      invariant start <= src <= |s| && Body(s, start) == Prepend(s[start..src], Body(s, src))
      decreases |s| - src
    {
      while buf[src] < 0x80 && !IsStop(buf[src])
        invariant start <= src <= |s| && Body(s, start) == Prepend(s[start..src], Body(s, src))
        decreases |s| - src
      {
        MasksAreUtf8(s, src);
        BodyChar(s, start, src, 1);
        src := src + 1;
      }
      if buf[src] < 0x80 { return; }
      var pos := src;
      src := SkipUtf8(buf, s, start, pos);
      if pos == src { return; }
    }
  }

  /** Sequences of three bytes, then of two, then of four; an ASCII character after the first
      group ends the run. */
  method SkipUtf8(buf: array<u8>, ghost s: seq<u8>, ghost start: nat, pos: nat) returns (src: nat)
    requires start <= pos && Unread(buf, s, start) && pos <= |s| && buf[pos] >= 0x80
    requires Body(s, start) == Prepend(s[start..pos], Body(s, pos))
    ensures pos <= src <= |s| && Body(s, start) == Prepend(s[start..src], Body(s, src))
    ensures src == pos ==> Utf8Len(s, src) == 0
  {
    hide Body, Utf8Len;
    src := pos;
    MasksAreUtf8(s, src);
    while IsSeq3(buf[src], buf[src + 1], buf[src + 2])
      invariant pos <= src <= |s| && Body(s, start) == Prepend(s[start..src], Body(s, src))
      decreases |s| - src
    {
      MasksAreUtf8(s, src);
      BodyChar(s, start, src, 3);
      src := src + 3;
    }
    if buf[src] < 0x80 { return; }
    while IsSeq2(buf[src], buf[src + 1])
      invariant pos <= src <= |s| && Body(s, start) == Prepend(s[start..src], Body(s, src))
      decreases |s| - src
    {
      MasksAreUtf8(s, src);
      BodyChar(s, start, src, 2);
      src := src + 2;
    }
    while IsSeq4(buf[src], buf[src + 1], buf[src + 2], buf[src + 3])
      invariant pos <= src <= |s| && Body(s, start) == Prepend(s[start..src], Body(s, src))
      decreases |s| - src
    {
      MasksAreUtf8(s, src);
      BodyChar(s, start, src, 4);
      src := src + 4;
    }
    MasksAreUtf8(s, src);
  }

  /** One character more has been decoded. */
  lemma BodyChar(s: seq<u8>, start: nat, src: nat, n: nat)
    requires start <= src <= |s| && Body(s, start) == Prepend(s[start..src], Body(s, src))
    requires 0 < n == Utf8Len(s, src) && At(s, src) != 34 && At(s, src) != 92 && At(s, src) >= 0x20
    ensures src + n <= |s| && Body(s, start) == Prepend(s[start..src + n], Body(s, src + n))
  {
    BodyCopies(s, src, n);
    PrependTwice(s[start..src], s[src..src + n], Body(s, src + n));
    assert s[start..src] + s[src..src + n] == s[start..src + n];
  }

  lemma BodyCopies(s: seq<u8>, src: nat, n: nat)
    requires 0 < n == Utf8Len(s, src) && At(s, src) != 34 && At(s, src) != 92 && At(s, src) >= 0x20
    ensures src + n <= |s| && Body(s, src) == Prepend(s[src..src + n], Body(s, src + n))
  {
    if n == 1 { assert s[src..src + 1] == [At(s, src)]; }
  }

  lemma BodyEnds(s: seq<u8>, src: nat, done: seq<u8>)
    requires At(s, src) == 34
    ensures Prepend(done, Body(s, src)) == Prepend(done, Closed(src + 1))
        && Prepend(done, Closed(src + 1)).value.0 == done
  {
    assert done + [] == done;
  }

  lemma BodyFails(s: seq<u8>, src: nat)
    requires At(s, src) != 34 && At(s, src) != 92 && (At(s, src) < 0x20 || Utf8Len(s, src) == 0)
    ensures Body(s, src) == None
  {
  }

  method ReadHex(buf: array<u8>, ghost s: seq<u8>, p: nat) returns (r: Option<nat>)
    requires Unread(buf, s, p) && p <= |s|
    ensures r == Hex4(s, p)
  {
    var a, b, c, d := HexVal(buf[p]), HexVal(buf[p + 1]), HexVal(buf[p + 2]), HexVal(buf[p + 3]);
    if a < 0 || b < 0 || c < 0 || d < 0 { return None; }
    return Some(a * 4096 + b * 256 + c * 16 + d);
  }

  method PutBytes(buf: array<u8>, dst: nat, bytes: seq<u8>)
    requires dst + |bytes| <= buf.Length
    modifies buf
    ensures buf[dst..dst + |bytes|] == bytes
    ensures forall k | 0 <= k < buf.Length && !(dst <= k < dst + |bytes|) :: buf[k] == old(buf[k])
  {
    for i := 0 to |bytes|
      invariant forall k | 0 <= k < i :: buf[dst + k] == bytes[k]
      invariant forall k | 0 <= k < buf.Length && !(dst <= k < dst + i) :: buf[k] == old(buf[k])
    {
      buf[dst + i] := bytes[i];
    }
  }

  /** The escape sequence at src, decoded. */
  method DecodeEscape(buf: array<u8>, ghost s: seq<u8>, src: nat) returns (r: Option<(seq<u8>, nat)>)
    requires Unread(buf, s, src) && src < |s|
    ensures r == Escape(s, src)
  {
    var e := buf[src + 1];
    if SingleEscape(e) >= 0 { return Some(([SingleEscape(e)], 2)); }
    if e != 117 { return None; }
    var hi := ReadHex(buf, s, src + 2);
    if hi.None? { return None; }
    hide Hex4, Encode;
    if !(0xd800 <= hi.value < 0xe000) { return Some((Encode(hi.value), 6)); }
    if hi.value >= 0xdc00 { return None; }
    HexInside(s, src + 2);
    if buf[src + 6] != 92 || buf[src + 7] != 117 { return None; }
    var lo := ReadHex(buf, s, src + 8);
    if lo.None? || !(0xdc00 <= lo.value < 0xe000) { return None; }
    return Some((Encode((hi.value - 0xd800) * 0x400 + (lo.value - 0xdc00) + 0x1_0000), 12));
  }

  lemma HexInside(s: seq<u8>, p: nat)
    requires Hex4(s, p).Some?
    ensures p + 4 <= |s|
  {
  }

  /** done has been decoded to the front of the buffer, the rest of the input from src on is
      untouched: the write position never passes the read position. */
  ghost predicate Copied(buf: array<u8>, s: seq<u8>, start: nat, src: nat, dst: nat, done: seq<u8>)
    reads buf
  {
    && start <= dst <= src <= |s| && Unread(buf, s, src) && buf[start..dst] == done
    && Body(s, start) == Prepend(done, Body(s, src))
  }

  /** Copy t to dst, and go on behind the n > 0 bytes at src that it stands for. */
  method CopyPiece(buf: array<u8>, ghost s: seq<u8>, ghost start: nat, src: nat, dst: nat, ghost done: seq<u8>,
                   t: seq<u8>, n: nat)
    requires Copied(buf, s, start, src, dst, done) && |t| <= n && src + n <= |s|
    requires Body(s, src) == Prepend(t, Body(s, src + n))
    modifies buf
    ensures Copied(buf, s, start, src + n, dst + |t|, done + t)
    ensures forall k | 0 <= k < start :: buf[k] == old(buf[k])
  {
    PrependTwice(done, t, Body(s, src + n));
    hide Body, Prepend;
    PutBytes(buf, dst, t);
    assert buf[start..dst + |t|] == buf[start..dst] + buf[dst..dst + |t|];
  }

  /** The part of a string from its first escape on. */
  method CopyEscapes(buf: array<u8>, ghost s: seq<u8>, start: nat, src0: nat, ghost done0: seq<u8>)
      returns (r: Option<(nat, nat)>)
    requires Copied(buf, s, start, src0, src0, done0) && IsStop(buf[src0])
    modifies buf
    ensures match Body(s, start)
      case None => r == None
      case Some((bytes, next)) =>
        && r == Some((|bytes|, next)) && start + |bytes| < next <= |s|
        && buf[start..start + |bytes|] == bytes && buf[start + |bytes|] == 0 && Unread(buf, s, next)
    ensures forall k | 0 <= k < start :: buf[k] == old(buf[k])
  {
    hide Body, Prepend, Escape;
    var src: nat, dst: nat := src0, src0;
    ghost var done := done0;
    while true
      invariant Copied(buf, s, start, src, dst, done) && IsStop(buf[src])
      invariant forall k | 0 <= k < start :: buf[k] == old(buf[k])
      decreases |s| - src
    {
      if buf[src] == 34 {
        BodyEnds(s, src, done);
        BodyClosed(s, start, src, done);
        buf[dst] := 0;
        return Some((dst - start, src + 1));
      }
      if buf[src] != 92 {
        BodyControl(s, start, src, done);
        return None;
      }
      var e := DecodeEscape(buf, s, src);
      BodyEscape(s, start, src, done);
      if e.None? { return None; }
      var (t, n) := e.value;
      CopyPiece(buf, s, start, src, dst, done, t, n);
      src, dst, done := src + n, dst + |t|, done + t;
      var ok;
      ok, src, dst, done := CopyPlain(buf, s, start, src, dst, done);
      if !ok { return None; }
    }
  }

  lemma BodyClosed(s: seq<u8>, start: nat, src: nat, done: seq<u8>)
    requires Body(s, start) == Prepend(done, Body(s, src)) && At(s, src) == 34
    ensures Body(s, start).Some? && Body(s, start).value == (done, src + 1)
  {
    assert done + [] == done;
  }

  lemma BodyControl(s: seq<u8>, start: nat, src: nat, done: seq<u8>)
    requires Body(s, start) == Prepend(done, Body(s, src)) && At(s, src) < 0x20
    ensures Body(s, start) == None
  {
  }

  lemma BodyInvalid(s: seq<u8>, start: nat, src: nat, done: seq<u8>)
    requires Body(s, start) == Prepend(done, Body(s, src)) && At(s, src) >= 0x80 && Utf8Len(s, src) == 0
    ensures Body(s, start) == None
  {
  }

  lemma BodyEscape(s: seq<u8>, start: nat, src: nat, done: seq<u8>)
    requires Body(s, start) == Prepend(done, Body(s, src)) && At(s, src) == 92
    ensures match Escape(s, src)
      case None => Body(s, start) == None
      case Some((t, n)) => src + n <= |s| && Body(s, src) == Prepend(t, Body(s, src + n))
  {
    EscapeInside(s, src);
    hide Escape;
  }

  lemma EscapeInside(s: seq<u8>, i: nat)
    ensures Escape(s, i).Some? ==> i + Escape(s, i).value.1 <= |s|
  {
    hide Encode;
    HexInside2(s, i + 2);
    HexInside2(s, i + 8);
    hide Hex4;
  }

  lemma HexInside2(s: seq<u8>, p: nat)
    ensures Hex4(s, p).Some? ==> p + 4 <= |s|
  {
  }

  /** Copy plain text up to the next stop byte; false at malformed UTF-8. */
  method CopyPlain(buf: array<u8>, ghost s: seq<u8>, ghost start: nat, src0: nat, dst0: nat, ghost done0: seq<u8>)
    returns (ok: bool, src: nat, dst: nat, ghost done: seq<u8>)
    requires Copied(buf, s, start, src0, dst0, done0)
    modifies buf
    ensures if ok then Copied(buf, s, start, src, dst, done) && IsStop(buf[src]) && src >= src0
        else Body(s, start) == None
    ensures forall k | 0 <= k < start :: buf[k] == old(buf[k])
  {
    hide Body, Prepend, Utf8Len;
    ok, src, dst, done := true, src0, dst0, done0;
    while true
      invariant src0 <= src && Copied(buf, s, start, src, dst, done)
      invariant forall k | 0 <= k < start :: buf[k] == old(buf[k])
      decreases |s| - src
    {
      while buf[src] < 0x80 && !IsStop(buf[src])
        invariant src0 <= src && Copied(buf, s, start, src, dst, done)
        invariant forall k | 0 <= k < start :: buf[k] == old(buf[k])
        decreases |s| - src
      {
        MasksAreUtf8(s, src);
        src, dst, done := CopyChar(buf, s, start, src, dst, done, 1);
      }
      if buf[src] < 0x80 { return; }
      var pos := src;
      src, dst, done := CopyUtf8(buf, s, start, src, dst, done);
      if pos == src {
        BodyInvalid(s, start, src, done);
        return false, src, dst, done;
      }
    }
  }

  method CopyChar(buf: array<u8>, ghost s: seq<u8>, ghost start: nat, src0: nat, dst0: nat, ghost done0: seq<u8>,
                  n: nat)
    returns (src: nat, dst: nat, ghost done: seq<u8>)
    requires Copied(buf, s, start, src0, dst0, done0)
    requires 0 < n == Utf8Len(s, src0) && !IsStop(buf[src0])
    modifies buf
    ensures src == src0 + n && Copied(buf, s, start, src, dst, done)
    ensures forall k | 0 <= k < start :: buf[k] == old(buf[k])
  {
    hide Body, Prepend, Utf8Len;
    BodyCopies(s, src0, n);
    var t := buf[src0..src0 + n];
    assert t == s[src0..src0 + n];
    CopyPiece(buf, s, start, src0, dst0, done0, t, n);
    return src0 + n, dst0 + n, done0 + t;
  }

  /** The groups of SkipUtf8, copied. */
  method CopyUtf8(buf: array<u8>, ghost s: seq<u8>, ghost start: nat, pos: nat, dst0: nat, ghost done0: seq<u8>)
    returns (src: nat, dst: nat, ghost done: seq<u8>)
    requires Copied(buf, s, start, pos, dst0, done0) && buf[pos] >= 0x80
    modifies buf
    ensures pos <= src && Copied(buf, s, start, src, dst, done)
    ensures src == pos ==> done == done0 && At(s, src) >= 0x80 && Utf8Len(s, src) == 0
    ensures forall k | 0 <= k < start :: buf[k] == old(buf[k])
  {
    hide Body, Prepend, Utf8Len;
    src, dst, done := pos, dst0, done0;
    MasksAreUtf8(s, src);
    while IsSeq3(buf[src], buf[src + 1], buf[src + 2])
      invariant pos <= src && Copied(buf, s, start, src, dst, done)
          && (src == pos ==> done == done0 && Utf8Len(s, src) != 1 && At(s, src) >= 0x80)
      invariant forall k | 0 <= k < start :: buf[k] == old(buf[k])
      decreases |s| - src
    {
      MasksAreUtf8(s, src);
      src, dst, done := CopyChar(buf, s, start, src, dst, done, 3);
    }
    if buf[src] < 0x80 { return; }
    while IsSeq2(buf[src], buf[src + 1])
      invariant pos <= src && Copied(buf, s, start, src, dst, done)
      invariant src == pos ==> done == done0 && At(s, src) >= 0x80 && Utf8Len(s, src) != 1 && Utf8Len(s, src) != 3
      invariant forall k | 0 <= k < start :: buf[k] == old(buf[k])
      decreases |s| - src
    {
      MasksAreUtf8(s, src);
      src, dst, done := CopyChar(buf, s, start, src, dst, done, 2);
    }
    while IsSeq4(buf[src], buf[src + 1], buf[src + 2], buf[src + 3])
      invariant pos <= src && Copied(buf, s, start, src, dst, done)
      invariant src == pos ==>
          done == done0 && At(s, src) >= 0x80 && Utf8Len(s, src) != 1 && Utf8Len(s, src) != 3
          && Utf8Len(s, src) != 2
      invariant forall k | 0 <= k < start :: buf[k] == old(buf[k])
      decreases |s| - src
    {
      MasksAreUtf8(s, src);
      src, dst, done := CopyChar(buf, s, start, src, dst, done, 4);
    }
    MasksAreUtf8(s, src);
  }
}
