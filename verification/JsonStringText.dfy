/** The string texts of section 7 of RFC 8259, put together from the ways to spell one character:
    read_string accepts these and no others, and write_string picks one spelling for each character. */
module JsonStringTexts {
  import opened Options
  import opened Bytes
  import opened CodePoints
  import opened JsonNumber
  import opened JsonString
  import Lists

  // ---- UTF-8

  /** The marker bits of the first byte of n. */
  function Marker(n: nat): int { if n <= 1 then 0 else if n == 2 then 0xc0 else if n == 3 then 0xe0 else 0xf0 }

  /** v, continued by six bits of each byte. */
  function Joined(v: int, rest: seq<int>): int
    decreases |rest|
  {
    if rest == [] then v else Joined(64 * v + (rest[0] - 0x80), rest[1..])
  }

  function CodeOf(b: seq<int>): int
    requires b != []
  {
    Joined(b[0] - Marker(|b|), b[1..])
  }

  /** b is one well-formed sequence. */
  predicate Sequence(b: seq<u8>) { b != [] && Utf8Len(b, 0) == |b| }

  /** Every scalar value has one sequence. */
  lemma EncodeIs(c: int)
    requires Scalar(c)
    ensures Sequence(Encode(c)) && CodeOf(Encode(c)) == c
  {
    hide CodeOf;
    EncodeSequence(c);
    hide Sequence;
    var b := Encode(c);
    Digits64(c);
    if |b| == 1 {
      Joined1(b);
    } else if |b| == 2 {
      Joined2(b);
    } else if |b| == 3 {
      Joined3(b);
    } else {
      Joined4(b);
    }
  }

  lemma EncodeSequence(c: int)
    requires Scalar(c)
    ensures Sequence(Encode(c))
  {
    if c >= 0x1_0000 {
      hide Utf8Len;
      LeadFour(c);
      SequenceOf4(Encode(c));
    } else if c >= 0x800 {
      hide Utf8Len;
      LeadThree(c);
      SequenceOf3(Encode(c));
    }
  }

  lemma LeadThree(c: int)
    requires 0x800 <= c < 0x1_0000 && Scalar(c)
    ensures c / 4096 == 0 ==> c / 64 % 64 >= 0x20
    ensures c / 4096 == 13 ==> c / 64 % 64 < 0x20
  {
    Digits64(c);
  }

  lemma LeadFour(c: int)
    requires 0x1_0000 <= c <= 0x10_ffff
    ensures c / 0x4_0000 == 0 ==> c / 4096 % 64 >= 0x10
    ensures c / 0x4_0000 == 4 ==> c / 4096 % 64 < 0x10
    ensures c / 0x4_0000 <= 4
  {
    Digits64(c);
  }

  lemma SequenceOf3(b: seq<u8>)
    requires |b| == 3 && 0xe0 <= b[0] <= 0xef && Tail(b[1]) && Tail(b[2])
    requires (b[0] == 0xe0 ==> b[1] >= 0xa0) && (b[0] == 0xed ==> b[1] <= 0x9f)
    ensures Sequence(b)
  {
  }

  lemma SequenceOf4(b: seq<u8>)
    requires |b| == 4 && 0xf0 <= b[0] <= 0xf4 && Tail(b[1]) && Tail(b[2]) && Tail(b[3])
    requires (b[0] == 0xf0 ==> b[1] >= 0x90) && (b[0] == 0xf4 ==> b[1] <= 0x8f)
    ensures Sequence(b)
  {
  }

  lemma Joined1(b: seq<int>)
    requires |b| == 1
    ensures CodeOf(b) == b[0]
  {
    assert b[1..] == [];
  }

  lemma Digits64(c: int)
    requires c >= 0
    ensures c == (c / 4096) * 4096 + c / 64 % 64 * 64 + c % 64
    ensures c / 4096 == c / 0x4_0000 * 64 + c / 4096 % 64
  {
    var q := c / 64;
    assert c / 4096 == q / 64;
    assert c / 0x4_0000 == q / 64 / 64;
  }

  lemma Joined2(b: seq<int>)
    requires |b| == 2
    ensures CodeOf(b) == (b[0] - 0xc0) * 64 + (b[1] - 0x80)
  {
    var v := b[0] - 0xc0;
    assert b[1..] == [b[1]] && b[2..] == [];
    assert Joined(64 * v + (b[1] - 0x80), []) == 64 * v + (b[1] - 0x80);
  }

  lemma Joined3(b: seq<int>)
    requires |b| == 3
    ensures CodeOf(b) == (b[0] - 0xe0) * 4096 + (b[1] - 0x80) * 64 + (b[2] - 0x80)
  {
    var v := b[0] - 0xe0;
    var w := 64 * v + (b[1] - 0x80);
    assert b[1..] == [b[1], b[2]] && b[1..][1..] == [b[2]] && [b[2]][1..] == [];
    assert Joined(w, [b[2]]) == Joined(64 * w + (b[2] - 0x80), []);
  }

  lemma Joined4(b: seq<int>)
    requires |b| == 4
    ensures CodeOf(b) == (b[0] - 0xf0) * 0x4_0000 + (b[1] - 0x80) * 4096 + (b[2] - 0x80) * 64 + (b[3] - 0x80)
  {
    var v := b[0] - 0xf0;
    var w := 64 * v + (b[1] - 0x80);
    var x := 64 * w + (b[2] - 0x80);
    assert b[1..] == [b[1], b[2], b[3]] && b[1..][1..] == [b[2], b[3]];
    assert [b[2], b[3]][1..] == [b[3]] && [b[3]][1..] == [];
    assert Joined(w, [b[2], b[3]]) == Joined(x, [b[3]]) == Joined(64 * x + (b[3] - 0x80), []);
  }

  /** Every sequence is that of one scalar value. */
  lemma SequenceIs(b: seq<u8>)
    requires Sequence(b)
    ensures Scalar(CodeOf(b)) && Encode(CodeOf(b)) == b
  {
    EncodeCode(b);
    SameCode(b);
    assert b[..|b|] == b;
    hide Encode, Scalar, Utf8Len, Code2, Code3, Code4, CodeOf;
    if |b| == 1 { OneCode(b); }
  }

  lemma OneCode(b: seq<u8>)
    requires Sequence(b) && |b| == 1
    ensures Scalar(CodeOf(b)) && Encode(CodeOf(b)) == b
  {
    Joined1(b);
  }

  lemma SameCode(b: seq<u8>)
    requires Sequence(b)
    ensures |b| <= 4
    ensures |b| == 2 ==> CodeOf(b) == Code2(b)
    ensures |b| == 3 ==> CodeOf(b) == Code3(b) && Scalar(Code3(b))
    ensures |b| == 4 ==> CodeOf(b) == Code4(b) && Scalar(Code4(b))
  {
    hide CodeOf, Utf8Len, Code2, Code3, Code4;
    LeadBounds(b);
    if |b| == 2 {
      Same2(b);
    } else if |b| == 3 {
      Same3(b);
    } else if |b| == 4 {
      Same4(b);
    }
    EncodeCode(b);
  }

  lemma Same2(b: seq<u8>)
    requires |b| == 2 && 0xc0 <= b[0] < 0xe0 && Tail(b[1])
    ensures CodeOf(b) == Code2(b)
  {
    hide CodeOf;
    Joined2(b);
  }

  lemma Same3(b: seq<u8>)
    requires |b| == 3 && 0xe0 <= b[0] < 0xf0 && Tail(b[1]) && Tail(b[2])
    ensures CodeOf(b) == Code3(b)
  {
    hide CodeOf;
    Joined3(b);
  }

  lemma Same4(b: seq<u8>)
    requires |b| == 4 && 0xf0 <= b[0] < 0xf8 && Tail(b[1]) && Tail(b[2]) && Tail(b[3])
    ensures CodeOf(b) == Code4(b)
  {
    hide CodeOf;
    Joined4(b);
  }

  lemma LeadBounds(b: seq<u8>)
    requires Sequence(b)
    ensures |b| <= 4
    ensures |b| == 2 ==> 0xc0 <= b[0] < 0xe0 && Tail(b[1])
    ensures |b| == 3 ==> 0xe0 <= b[0] < 0xf0 && Tail(b[1]) && Tail(b[2])
    ensures |b| == 4 ==> 0xf0 <= b[0] < 0xf8 && Tail(b[1]) && Tail(b[2]) && Tail(b[3])
  {
  }

  predicate Scalars(cs: seq<int>) { forall i | 0 <= i < |cs| :: Scalar(cs[i]) }

  function Utf8Of(cs: seq<int>): seq<u8>
    requires Scalars(cs)
  {
    if cs == [] then [] else Encode(cs[0]) + Utf8Of(cs[1..])
  }

  // ---- the ways to spell a character

  const LOWER := "0123456789abcdef"
  const UPPER := "0123456789ABCDEF"

  /** The characters that may stand behind a backslash, and what they mean. */
  const LETTERS := "\"\\/bfnrt"
  const MEANINGS: seq<int> := [0x22, 0x5c, 0x2f, 0x08, 0x0c, 0x0a, 0x0d, 0x09]

  datatype Digit = Digit(value: nat, capital: bool)

  predicate IsHex(d: Digit) { d.value < 16 }

  predicate FourHex(ds: seq<Digit>) { |ds| == 4 && forall k | 0 <= k < 4 :: IsHex(ds[k]) }

  function DigitByte(d: Digit): u8
    requires IsHex(d)
  {
    (if d.capital then UPPER else LOWER)[d.value] as int
  }

  function HexNumber(ds: seq<Digit>): nat {
    if ds == [] then 0 else 16 * HexNumber(ds[..|ds| - 1]) + ds[|ds| - 1].value
  }

  /** As its UTF-8 sequence, as a backslash and letter k, or as the UTF-16 units in hexadecimal. */
  datatype Spelling = Raw | Short(k: nat) | Hex(units: seq<seq<Digit>>)

  /** A spelled character. */
  datatype Spelled = Spelled(c: int, how: Spelling)

  /** unescaped = %x20-21 / %x23-5B / %x5D-10FFFF */
  predicate Proper(p: Spelled) {
    Scalar(p.c) &&
    match p.how
    case Raw => p.c >= 0x20 && p.c != 0x22 && p.c != 0x5c
    case Short(k) => k < 8 && p.c == MEANINGS[k]
    case Hex(us) =>
      && |us| == |Units(p.c)|
      && forall k | 0 <= k < |us| :: FourHex(us[k]) && HexNumber(us[k]) == Units(p.c)[k]
  }

  function UnitText(ds: seq<Digit>): (t: seq<u8>)
    requires FourHex(ds)
    ensures |t| == 6
  {
    [0x5c, 0x75, DigitByte(ds[0]), DigitByte(ds[1]), DigitByte(ds[2]), DigitByte(ds[3])]
  }

  function PieceText(p: Spelled): (t: seq<u8>)
    requires Proper(p)
    ensures t != []
  {
    match p.how
    case Raw => Encode(p.c)
    case Short(k) => [0x5c, LETTERS[k] as int]
    case Hex(us) => UnitText(us[0]) + if |us| == 2 then UnitText(us[1]) else []
  }

  predicate AllProper(ps: seq<Spelled>) { forall i | 0 <= i < |ps| :: Proper(ps[i]) }

  function SpelledText(ps: seq<Spelled>): seq<u8>
    requires AllProper(ps)
  {
    if ps == [] then [] else PieceText(ps[0]) + SpelledText(ps[1..])
  }

  /** The bytes of the string spelled. */
  function Meant(ps: seq<Spelled>): seq<u8>
    requires AllProper(ps)
  {
    if ps == [] then [] else Encode(ps[0].c) + Meant(ps[1..])
  }

  // ---- hexadecimal digits

  /** HexVal is the place in one of the lists of digits. */
  lemma HexValIs(b: u8, d: Digit)
    requires IsHex(d) && b == DigitByte(d)
    ensures HexVal(b) == d.value
  {
  }

  /** A byte of no list has no value. */
  lemma HexDigitOf(b: u8) returns (d: Digit)
    requires HexVal(b) >= 0
    ensures IsHex(d) && b == DigitByte(d)
  {
    d := Digit(HexVal(b), 65 <= b <= 70);
  }

  /** Four digits have the number they write. */
  lemma Hex4Is(s: seq<u8>, i: nat, ds: seq<Digit>)
    requires FourHex(ds) && forall k | 0 <= k < 4 :: At(s, i + k) == DigitByte(ds[k])
    ensures Hex4(s, i) == Some(HexNumber(ds))
  {
    hide DigitByte, HexVal, At, HexNumber;
    HexNumber4(ds);
    forall k | 0 <= k < 4 ensures HexVal(At(s, i + k)) == ds[k].value { HexValIs(At(s, i + k), ds[k]); }
    assert At(s, i + 0) == At(s, i);
  }

  lemma HexNumber4(ds: seq<Digit>)
    requires |ds| == 4
    ensures HexNumber(ds) == ds[0].value * 4096 + ds[1].value * 256 + ds[2].value * 16 + ds[3].value
  {
    var c := ds[..3];
    var b := c[..2];
    var a := b[..1];
    assert a[..0] == [] && HexNumber(a) == ds[0].value;
    assert HexNumber(b) == 16 * HexNumber(a) + ds[1].value;
    assert HexNumber(c) == 16 * HexNumber(b) + ds[2].value;
  }

  lemma Hex4Digits(s: seq<u8>, i: nat) returns (ds: seq<Digit>)
    requires Hex4(s, i).Some?
    ensures FourHex(ds) && HexNumber(ds) == Hex4(s, i).value
    ensures forall k | 0 <= k < 4 :: At(s, i + k) == DigitByte(ds[k])
  {
    hide DigitByte, HexVal, HexNumber;
    var a := HexDigitOf(At(s, i));
    var b := HexDigitOf(At(s, i + 1));
    var c := HexDigitOf(At(s, i + 2));
    var d := HexDigitOf(At(s, i + 3));
    HexValIs(At(s, i), a);
    HexValIs(At(s, i + 1), b);
    HexValIs(At(s, i + 2), c);
    HexValIs(At(s, i + 3), d);
    ds := [a, b, c, d];
    HexNumber4(ds);
  }

  // ---- reading one character

  lemma RawRead(s: seq<u8>, i: nat, c: int)
    requires Scalar(c) && c >= 0x20 && c != 0x22 && c != 0x5c && Has(s, i, Encode(c))
    ensures Body(s, i) == Prepend(Encode(c), Body(s, i + |Encode(c)|))
  {
    hide Body, Has, CodeOf;
    EncodeIs(c);
    var b := Encode(c);
    assert b[..|b|] == b;
    RawLead(c);
    hide Encode, Utf8Len;
    ReadsPlain(s, i, b, |b|);
  }

  lemma RawLead(c: int)
    requires Scalar(c) && c >= 0x20 && c != 0x22 && c != 0x5c
    ensures var b := Encode(c)[0]; b >= 0x20 && b != 0x22 && b != 0x5c
  {
  }

  lemma ShortRead(s: seq<u8>, i: nat, k: nat)
    requires k < 8 && Has(s, i, [0x5c, LETTERS[k] as int])
    ensures Body(s, i) == Prepend(Encode(MEANINGS[k]), Body(s, i + 2))
  {
    HasByte(s, i, [0x5c, LETTERS[k] as int], 0, i);
    HasByte(s, i, [0x5c, LETTERS[k] as int], 1, i + 1);
    hide Has, At;
    LetterIs(k);
    assert Escape(s, i) == Some((Encode(MEANINGS[k]), 2));
    hide Escape;
  }

  lemma LetterIs(k: nat)
    requires k < 8
    ensures SingleEscape(LETTERS[k] as int) == MEANINGS[k] && Encode(MEANINGS[k]) == [MEANINGS[k]] && MEANINGS[k] >= 0
  {
  }

  /** Four digits behind a backslash and u. */
  lemma UnitRead(s: seq<u8>, i: nat, ds: seq<Digit>)
    requires FourHex(ds) && Has(s, i, UnitText(ds))
    ensures At(s, i) == 92 && At(s, i + 1) == 117 && Hex4(s, i + 2) == Some(HexNumber(ds))
  {
    hide At, Has, HexNumber, Hex4, HexVal, DigitByte;
    var t := UnitText(ds);
    HasByte(s, i, t, 0, i);
    HasByte(s, i, t, 1, i + 1);
    forall k | 0 <= k < 4 ensures At(s, i + 2 + k) == DigitByte(ds[k]) { HasByte(s, i, t, k + 2, i + 2 + k); }
    Hex4Is(s, i + 2, ds);
  }

  lemma HexRead(s: seq<u8>, i: nat, ds: seq<Digit>)
    requires FourHex(ds) && Scalar(HexNumber(ds)) && HexNumber(ds) < 0x1_0000 && Has(s, i, UnitText(ds))
    ensures Body(s, i) == Prepend(Encode(HexNumber(ds)), Body(s, i + 6))
  {
    hide HexNumber, Has, At, Encode;
    UnitRead(s, i, ds);
    hide Hex4;
    assert Escape(s, i) == Some((Encode(HexNumber(ds)), 6));
    hide Escape;
  }

  lemma PairRead(s: seq<u8>, i: nat, c: int, hi: seq<Digit>, lo: seq<Digit>)
    requires FourHex(hi) && FourHex(lo) && 0x1_0000 <= c && Scalar(c) && Units(c) == [HexNumber(hi), HexNumber(lo)]
    requires Has(s, i, UnitText(hi) + UnitText(lo))
    ensures Body(s, i) == Prepend(Encode(c), Body(s, i + 12))
  {
    hide HexNumber, Has, At, Encode, Hex4, UnitText;
    HasSplit(s, i, UnitText(hi), UnitText(lo));
    UnitRead(s, i, hi);
    UnitRead(s, i + 6, lo);
    PairUnits(c);
    PairEscape(s, i, HexNumber(hi), HexNumber(lo), c);
    hide Escape;
  }

  lemma PairUnits(c: int)
    requires 0x1_0000 <= c <= 0x10_ffff
    ensures |Units(c)| == 2 && 0xd800 <= Units(c)[0] < 0xdc00 && 0xdc00 <= Units(c)[1] < 0xe000
    ensures (Units(c)[0] - 0xd800) * 0x400 + (Units(c)[1] as int - 0xdc00) + 0x1_0000 == c
  {
  }

  /** A spelled character is read as that character. */
  lemma PieceRead(s: seq<u8>, i: nat, p: Spelled)
    requires Proper(p) && Has(s, i, PieceText(p))
    ensures Body(s, i) == Prepend(Encode(p.c), Body(s, i + |PieceText(p)|))
  {
    hide Body, Has, Encode, HexNumber, UnitText;
    match p.how
    case Raw => RawRead(s, i, p.c);
    case Short(k) => ShortRead(s, i, k);
    case Hex(us) =>
      if |us| == 1 {
        assert UnitText(us[0]) + [] == UnitText(us[0]);
        HexRead(s, i, us[0]);
      } else {
        assert Units(p.c) == [HexNumber(us[0]), HexNumber(us[1])];
        PairRead(s, i, p.c, us[0], us[1]);
      }
  }

  /** read_string accepts a string however its characters are spelled, and stores their UTF-8. */
  lemma {:induction false} StringRead(s: seq<u8>, i: nat, ps: seq<Spelled>)
    requires AllProper(ps) && Has(s, i, SpelledText(ps) + [0x22])
    ensures Body(s, i) == Some((Meant(ps), i + |SpelledText(ps)| + 1))
    decreases |ps|
  {
    hide Has, Body, Encode, PieceText, Proper;
    HasSplit(s, i, SpelledText(ps), [0x22]);
    if ps == [] {
      Closes(s, i);
    } else {
      var (p, rest) := (PieceText(ps[0]), SpelledText(ps[1..]));
      assert SpelledText(ps) + [0x22] == p + (rest + [0x22]);
      HasSplit(s, i, p, rest + [0x22]);
      PieceRead(s, i, ps[0]);
      StringRead(s, i + |p|, ps[1..]);
    }
  }

  // ---- and nothing else

  lemma RawOf(s: seq<u8>, i: nat) returns (p: Spelled)
    requires Body(s, i).Some? && At(s, i) != 34 && At(s, i) != 92
    ensures Proper(p) && Has(s, i, PieceText(p))
    ensures Body(s, i) == Prepend(Encode(p.c), Body(s, i + |PieceText(p)|))
  {
    var n := Utf8Len(s, i);
    RawBody(s, i);
    hide CodeOf, Encode, Body, Utf8Len, Prepend;
    var b := s[i..i + n];
    SequenceAt(s, i, n);
    SequenceIs(b);
    LeadRaw(CodeOf(b));
    assert b[0] == At(s, i);
    p := Spelled(CodeOf(b), Raw);
  }

  lemma RawBody(s: seq<u8>, i: nat)
    requires Body(s, i).Some? && At(s, i) != 34 && At(s, i) != 92
    ensures var n := Utf8Len(s, i);
      n > 0 && i + n <= |s| && At(s, i) >= 0x20 && Body(s, i) == Prepend(s[i..i + n], Body(s, i + n))
  {
    hide Utf8Len;
    BodyCopies(s, i, Utf8Len(s, i));
  }

  lemma SequenceAt(s: seq<u8>, i: nat, n: nat)
    requires 0 < n == Utf8Len(s, i) && i + n <= |s|
    ensures Sequence(s[i..i + n])
  {
    hide Utf8Len;
    var b := s[i..i + n];
    assert forall k: nat | k < n :: At(b, k) == At(s, i + k);
    SameFront(s, i, b, n);
  }

  lemma SameFront(s: seq<u8>, i: nat, b: seq<u8>, n: nat)
    requires 0 < n == Utf8Len(s, i) && |b| == n && forall k: nat | k < n :: At(b, k) == At(s, i + k)
    ensures Utf8Len(b, 0) == n
  {
    var k: nat := 0;
    assert At(b, k) == At(s, i + k);
    if n > 1 { assert At(b, 1) == At(s, i + 1); }
    if n > 2 { assert At(b, 2) == At(s, i + 2); }
    if n > 3 { assert At(b, 3) == At(s, i + 3); }
  }

  lemma LeadRaw(c: int)
    requires Scalar(c)
    ensures c < 0x80 ==> Encode(c) == [c]
  {
  }

  lemma ShortOf(e: u8) returns (k: nat)
    requires SingleEscape(e) >= 0
    ensures k < 8 && e == LETTERS[k] as int && SingleEscape(e) == MEANINGS[k]
  {
    k := if e == 34 then 0 else if e == 92 then 1 else if e == 47 then 2 else if e == 98 then 3
        else if e == 102 then 4 else if e == 110 then 5 else if e == 114 then 6 else 7;
  }

  /** Where backslash, u and four digits stand. */
  lemma UnitOf(s: seq<u8>, i: nat) returns (ds: seq<Digit>)
    requires At(s, i) == 92 && At(s, i + 1) == 117 && Hex4(s, i + 2).Some?
    ensures FourHex(ds) && Hex4(s, i + 2) == Some(HexNumber(ds)) && Has(s, i, UnitText(ds))
  {
    hide At, Hex4, HexNumber, DigitByte, HexVal;
    HexInside(s, i + 2);
    ds := Hex4Digits(s, i + 2);
    var t := UnitText(ds);
    assert At(s, i + 2 + 0) == t[2] && At(s, i + 2 + 1) == t[3] && At(s, i + 2 + 2) == t[4] && At(s, i + 2 + 3) == t[5];
    forall k | 0 <= k < 6 ensures At(s, i + k) == t[k] {
      if k >= 2 { assert At(s, i + 2 + (k - 2)) == DigitByte(ds[k - 2]); }
    }
  }

  lemma ShortPiece(s: seq<u8>, i: nat) returns (p: Spelled)
    requires At(s, i) == 92 && SingleEscape(At(s, i + 1)) >= 0
    ensures Proper(p) && Has(s, i, PieceText(p))
    ensures Escape(s, i) == Some((Encode(p.c), |PieceText(p)|))
  {
    var e := At(s, i + 1);
    var k := ShortOf(e);
    LetterIs(k);
    hide SingleEscape, Encode;
    p := Spelled(MEANINGS[k], Short(k));
    assert SingleEscape(e) == MEANINGS[k] && Encode(p.c) == [MEANINGS[k]];
    MeaningScalar(k);
  }

  lemma MeaningScalar(k: nat)
    requires k < 8
    ensures Scalar(MEANINGS[k])
  {
  }

  /** The conditions under which \uXXXX is accepted. */
  lemma EscapeParts(s: seq<u8>, i: nat)
    requires Escape(s, i).Some? && SingleEscape(At(s, i + 1)) < 0
    ensures At(s, i + 1) == 117 && Hex4(s, i + 2).Some?
    ensures var hi := Hex4(s, i + 2).value;
      if Scalar(hi) then Escape(s, i) == Some((Encode(hi), 6))
      else
        && 0xd800 <= hi < 0xdc00 && At(s, i + 6) == 92 && At(s, i + 7) == 117
        && Hex4(s, i + 8).Some? && 0xdc00 <= Hex4(s, i + 8).value < 0xe000
        && var c := (hi - 0xd800) * 0x400 + (Hex4(s, i + 8).value - 0xdc00) + 0x1_0000;
        Scalar(c) && Escape(s, i) == Some((Encode(c), 12))
  {
    hide Hex4, SingleEscape, Encode, At;
  }

  lemma UnitsOfPair(hi: int, lo: int)
    requires 0xd800 <= hi < 0xdc00 && 0xdc00 <= lo < 0xe000
    ensures var c := (hi - 0xd800) * 0x400 + (lo - 0xdc00) + 0x1_0000;
      0x1_0000 <= c <= 0x10_ffff && Units(c) == [hi, lo]
  {
  }

  lemma HexPiece(s: seq<u8>, i: nat) returns (p: Spelled)
    requires At(s, i) == 92 && Escape(s, i).Some? && SingleEscape(At(s, i + 1)) < 0
    ensures Proper(p) && Has(s, i, PieceText(p))
    ensures Escape(s, i) == Some((Encode(p.c), |PieceText(p)|))
  {
    hide Hex4, SingleEscape, Encode, Escape, At, HexNumber, FourHex;
    EscapeParts(s, i);
    var hi := UnitOf(s, i);
    var u := HexNumber(hi);
    if Scalar(u) {
      p := Spelled(u, Hex([hi]));
      OneUnit(u);
      assert UnitText(hi) + [] == UnitText(hi);
    } else {
      hide UnitText;
      var lo := UnitOf(s, i + 6);
      UnitsOfPair(u, HexNumber(lo));
      p := Spelled((u - 0xd800) * 0x400 + (HexNumber(lo) - 0xdc00) + 0x1_0000, Hex([hi, lo]));
      HasBoth(s, i, UnitText(hi), UnitText(lo));
    }
  }

  lemma OneUnit(u: int)
    requires 0 <= u < 0x1_0000
    ensures Units(u) == [u]
  {
  }

  lemma HasBoth(s: seq<u8>, i: nat, a: seq<u8>, b: seq<u8>)
    requires Has(s, i, a) && Has(s, i + |a|, b)
    ensures Has(s, i, a + b)
  {
    hide At;
    forall k | 0 <= k < |a + b| ensures At(s, i + k) == (a + b)[k] {
      if k >= |a| { assert At(s, i + |a| + (k - |a|)) == b[k - |a|]; }
    }
  }

  /** The spelling of the first character. */
  lemma PieceOf(s: seq<u8>, i: nat) returns (p: Spelled)
    requires Body(s, i).Some? && At(s, i) != 34
    ensures Proper(p) && Has(s, i, PieceText(p))
    ensures Body(s, i) == Prepend(Encode(p.c), Body(s, i + |PieceText(p)|))
  {
    hide Has, Encode, Proper, PieceText, Escape, SingleEscape, At;
    if At(s, i) != 92 {
      p := RawOf(s, i);
    } else if SingleEscape(At(s, i + 1)) >= 0 {
      p := ShortPiece(s, i);
    } else {
      p := HexPiece(s, i);
    }
  }

  /** Whatever read_string accepts is the text of a list of spelled characters. */
  lemma {:induction false} StringIs(s: seq<u8>, i: nat) returns (ps: seq<Spelled>)
    requires Body(s, i).Some?
    ensures AllProper(ps) && Has(s, i, SpelledText(ps) + [0x22])
    ensures Body(s, i) == Some((Meant(ps), i + |SpelledText(ps)| + 1))
    decreases |s| - i
  {
    hide Encode, PieceText, Proper;
    if At(s, i) == 34 {
      ps := [];
      assert [] + [0x22] == [0x22 as u8];
    } else {
      var p := PieceOf(s, i);
      hide Body;
      var t := PieceText(p);
      var rest := StringIs(s, i + |t|);
      ps := [p] + rest;
      assert ps[1..] == rest;
      HasBoth(s, i, t, SpelledText(rest) + [0x22]);
      assert SpelledText(ps) + [0x22] == t + (SpelledText(rest) + [0x22]);
    }
  }

  /** No digit of either case. */
  predicate NoHex(b: u8) { forall d | 0 <= d < 16 :: b != LOWER[d] as int && b != UPPER[d] as int }

  /** A byte that is no digit among the four behind \u, in either half of a pair, is an error. */
  lemma BadHex(s: seq<u8>, i: nat, k: nat)
    requires At(s, i) == 92 && At(s, i + 1) == 117 && k < 4
    ensures NoHex(At(s, i + 2 + k)) ==> Body(s, i) == None
    ensures Hex4(s, i + 2).Some? && !Scalar(Hex4(s, i + 2).value) && NoHex(At(s, i + 8 + k)) ==> Body(s, i) == None
  {
    hide Body, NoHex;
    if Body(s, i).Some? {
      EscapeSome(s, i);
      EscapeParts(s, i);
      hide Escape, Encode;
      HexKnown(s, i + 2, k);
      if !Scalar(Hex4(s, i + 2).value) { HexKnown(s, i + 8, k); }
    }
  }

  lemma EscapeSome(s: seq<u8>, i: nat)
    requires At(s, i) == 92 && Body(s, i).Some?
    ensures Escape(s, i).Some?
  {
  }

  lemma HexKnown(s: seq<u8>, i: nat, k: nat)
    requires Hex4(s, i).Some? && k < 4
    ensures !NoHex(At(s, i + k))
  {
    hide At, Hex4;
    var ds := Hex4Digits(s, i);
    assert At(s, i + k) == DigitByte(ds[k]);
  }

  // ---- the spelling written

  predicate AllCapital(us: seq<seq<Digit>>) {
    forall i, k | 0 <= i < |us| && 0 <= k < |us[i]| :: us[i][k].capital
  }

  /** The spelling write_string picks: hexadecimal with capitals for what the flag asks for and for control
      characters without a letter; a letter where there is one, for the slash only if asked for. */
  predicate Chosen(f: Flags, p: Spelled) {
    Proper(p) &&
    match p.how
    case Raw => !(f.slashes && p.c == 0x2f) && !(f.unicode && p.c >= 0x80)
    case Short(_) => p.c == 0x2f ==> f.slashes
    case Hex(us) => AllCapital(us) && ((f.unicode && p.c >= 0x80) || (p.c < 0x20 && p.c !in MEANINGS))
  }

  /** Nothing is left to choose. */
  lemma ChosenUnique(f: Flags, p: Spelled, q: Spelled)
    requires Chosen(f, p) && Chosen(f, q) && p.c == q.c
    ensures p == q
  {
    hide Scalar, Units, HexNumber;
    if p.how.Hex? && q.how.Hex? {
      forall i | 0 <= i < |p.how.units| ensures p.how.units[i] == q.how.units[i] {
        DigitsUnique(p.how.units[i], q.how.units[i]);
      }
    }
    hide AllCapital, FourHex;
    if p.how.Short? && q.how.Short? { MeaningsApart(p.how.k, q.how.k); }
  }

  lemma MeaningsApart(j: nat, k: nat)
    requires j < 8 && k < 8 && MEANINGS[j] == MEANINGS[k]
    ensures j == k
  {
  }

  lemma DigitsUnique(a: seq<Digit>, b: seq<Digit>)
    requires FourHex(a) && FourHex(b) && HexNumber(a) == HexNumber(b)
    requires forall k | 0 <= k < 4 :: a[k].capital && b[k].capital
    ensures a == b
  {
    HexNumber4(a);
    HexNumber4(b);
    hide HexNumber;
    assert a[0] == b[0] && a[1] == b[1] && a[2] == b[2] && a[3] == b[3];
  }

  function CapitalsOf(u: int): seq<Digit>
    requires 0 <= u < 0x1_0000
  {
    [Digit(u / 4096, true), Digit(u / 256 % 16, true), Digit(u / 16 % 16, true), Digit(u % 16, true)]
  }

  lemma UpperDigits(u: int)
    requires 0 <= u < 0x1_0000
    ensures FourHex(CapitalsOf(u)) && HexNumber(CapitalsOf(u)) == u && UEscape(u) == UnitText(CapitalsOf(u))
    ensures forall k | 0 <= k < 4 :: CapitalsOf(u)[k].capital
  {
    hide HexNumber, HexChar, DigitByte;
    Nibbles(u);
    HexNumber4(CapitalsOf(u));
    CharIs(u / 4096);
    CharIs(u / 256 % 16);
    CharIs(u / 16 % 16);
    CharIs(u % 16);
  }

  lemma CharIs(d: nat)
    requires d < 16
    ensures HexChar(d) == DigitByte(Digit(d, true))
  {
  }

  lemma HexChoice(f: Flags, c: int) returns (p: Spelled)
    requires Scalar(c) && ((f.unicode && c >= 0x80) || (c < 0x20 && c !in MEANINGS))
    ensures Chosen(f, p) && p.c == c
    ensures var us := Units(c); PieceText(p) == if |us| == 2 then UEscape(us[0]) + UEscape(us[1]) else UEscape(us[0])
  {
    hide HexNumber, UEscape, CapitalsOf, UnitText;
    var us := Units(c);
    UpperDigits(us[0]);
    if |us| == 2 { UpperDigits(us[1]); }
    assert UEscape(us[0]) + [] == UEscape(us[0]);
    p := Spelled(c, Hex(if |us| == 2 then [CapitalsOf(us[0]), CapitalsOf(us[1])] else [CapitalsOf(us[0])]));
  }

  // ---- what write_string writes

  lemma AsciiType(f: Flags, c: int)
    requires 0 <= c < 0x80
    ensures TypeOf(f, c).Plain? <==> c >= 0x20 && c != 0x22 && c != 0x5c && !(f.slashes && c == 0x2f)
    ensures TypeOf(f, c).Utf1? <==> c < 0x20 && c !in MEANINGS
    ensures TypeOf(f, c).Plain? || TypeOf(f, c).Utf1? || TypeOf(f, c).Ascii?
  {
    MeaningsAre(c);
  }

  lemma MeaningsAre(c: int)
    ensures c in MEANINGS <==> c == 34 || c == 92 || c == 47 || c == 8 || c == 12 || c == 10 || c == 13 || c == 9
  {
    assert forall k | 0 <= k < 8 :: MEANINGS[k] in MEANINGS;
  }

  lemma LetterOf(f: Flags, c: u8) returns (k: nat)
    requires TypeOf(f, c).Ascii?
    ensures k < 8 && MEANINGS[k] == c && Letter(c) == LETTERS[k] as int && (c == 0x2f ==> f.slashes)
  {
    k := if c == 34 then 0 else if c == 92 then 1 else if c == 47 then 2 else if c == 8 then 3
        else if c == 12 then 4 else if c == 10 then 5 else if c == 13 then 6 else 7;
  }

  lemma AsciiChosen(f: Flags, c: int, rest: seq<u8>) returns (p: Spelled)
    requires 0 <= c < 0x80
    ensures Chosen(f, p) && p.c == c && Text(f, [c] + rest) == PieceText(p) + Text(f, rest)
  {
    hide TypeOf, UEscape, Letter;
    AsciiType(f, c);
    assert Encode(c) == [c] && Units(c) == [c];
    hide Encode, Units;
    assert ([c] + rest)[1..] == rest;
    if TypeOf(f, c).Plain? {
      p := Spelled(c, Raw);
    } else if TypeOf(f, c).Ascii? {
      var k := LetterOf(f, c);
      p := Spelled(c, Short(k));
    } else {
      p := HexChoice(f, c);
    }
  }

  lemma WideType(f: Flags, b: seq<u8>)
    requires Sequence(b) && |b| >= 2
    ensures b[0] >= 0x80
    ensures TypeOf(f, b[0]) == if !f.unicode then Plain else if |b| == 2 then Utf2 else if |b| == 3 then Utf3 else Utf4
  {
    LeadBounds(b);
    hide Utf8Len;
  }

  /** The code point put together from the front of the string. */
  lemma FrontCode(b: seq<u8>, rest: seq<u8>)
    requires Sequence(b)
    ensures Utf8Len(b + rest, 0) == |b|
    ensures |b| == 2 ==> Code2(b + rest) == CodeOf(b)
    ensures |b| == 3 ==> Code3(b + rest) == CodeOf(b)
    ensures |b| == 4 ==> Code4(b + rest) == CodeOf(b)
  {
    hide CodeOf, Utf8Len;
    SameCode(b);
    var s := b + rest;
    forall k: nat | k < |b| ensures At(s, k) == At(b, k) { }
    SameLen(s, 0, b, |b|);
  }

  lemma WideChosen(f: Flags, c: int, rest: seq<u8>) returns (p: Spelled)
    requires Scalar(c) && c >= 0x80
    ensures Chosen(f, p) && p.c == c && Text(f, Encode(c) + rest) == PieceText(p) + Text(f, rest)
  {
    hide CodeOf, Encode, Text, UEscape, Units, Code2, Code3, Code4, TypeOf, Utf8Len, Piece, Chosen, PieceText, Proper,
      Sequence, Scalar;
    var (b, s) := (Encode(c), Encode(c) + rest);
    EncodeIs(c);
    WideSize(c);
    FrontCode(b, rest);
    TextPiece(f, s);
    assert s[|b|..] == rest && s[..|b|] == b && s[0] == b[0];
    if f.unicode {
      p := HexChoice(f, c);
      WidePiece(f, c, b, s);
    } else {
      p := Spelled(c, Raw);
      WidePlain(f, c, b, s);
    }
  }

  lemma WidePlain(f: Flags, c: int, b: seq<u8>, s: seq<u8>)
    requires Scalar(c) && c >= 0x80 && b == Encode(c) && |b| >= 2 && Sequence(b) && b <= s && Utf8Len(s, 0) == |b|
    requires !f.unicode
    ensures Piece(f, s) == b && Chosen(f, Spelled(c, Raw)) && PieceText(Spelled(c, Raw)) == b
  {
    hide Utf8Len, TypeOf, Encode;
    WideType(f, b);
  }

  lemma WidePiece(f: Flags, c: int, b: seq<u8>, s: seq<u8>)
    requires Scalar(c) && b == Encode(c) && |b| >= 2 && Sequence(b) && b <= s && Utf8Len(s, 0) == |b|
    requires f.unicode && (|b| == 4 <==> c >= 0x1_0000)
    requires (|b| == 2 ==> Code2(s) == c) && (|b| == 3 ==> Code3(s) == c) && (|b| == 4 ==> Code4(s) == c)
    ensures var us := Units(c); Piece(f, s) == if |us| == 2 then UEscape(us[0]) + UEscape(us[1]) else UEscape(us[0])
  {
    hide Utf8Len, TypeOf, Encode, Code2, Code3, Code4, UEscape, Units;
    WideType(f, b);
    WideUnits(c);
  }

  lemma WideSize(c: int)
    requires Scalar(c) && c >= 0x80
    ensures |Encode(c)| >= 2 && (|Encode(c)| == 4 <==> c >= 0x1_0000)
  {
  }

  lemma WideUnits(c: int)
    requires Scalar(c)
    ensures c < 0x1_0000 ==> Units(c) == [c]
    ensures c >= 0x1_0000 ==>
      var u := (c - 0x1_0000) % 0x1_0000_0000;
      Units(c) == [(u / 0x400 + 0xd800) % 0x1_0000, u % 0x400 + 0xdc00]
  {
    if c >= 0x1_0000 { NoWrap(c); }
  }

  /** write_string writes every character in the spelling chosen for it. */
  lemma {:induction false} TextIs(f: Flags, cs: seq<int>) returns (ps: seq<Spelled>)
    requires Scalars(cs)
    ensures AllProper(ps) && |ps| == |cs| && forall i | 0 <= i < |ps| :: Chosen(f, ps[i]) && ps[i].c == cs[i]
    ensures Text(f, Utf8Of(cs)) == SpelledText(ps)
  {
    ps := [];
    if cs != [] {
      var (c, rest) := (cs[0], Utf8Of(cs[1..]));
      var more := TextIs(f, cs[1..]);
      var p;
      if c < 0x80 {
        p := AsciiChosen(f, c, rest);
        AsciiEncode(c);
      } else {
        p := WideChosen(f, c, rest);
      }
      ps := [p] + more;
      assert ps[1..] == more;
      hide Text, Encode;
    }
  }

  lemma AsciiEncode(c: int)
    requires 0 <= c < 0x80
    ensures Encode(c) == [c]
  {
  }

  /** Every well-formed string is that of a list of scalar values. */
  lemma {:induction false} StringOf(str: seq<u8>) returns (cs: seq<int>)
    requires Utf8(str)
    ensures Scalars(cs) && str == Utf8Of(cs)
  {
    hide Encode, CodeOf, Utf8Len, Sequence, Scalar;
    cs := [];
    if str != [] {
      var b := str[..Utf8Len(str, 0)];
      assert str[0..|b|] == b;
      SequenceAt(str, 0, |b|);
      SequenceIs(b);
      var rest := StringOf(str[|b|..]);
      cs := [CodeOf(b)] + rest;
      assert cs[1..] == rest && str == b + str[|b|..];
    }
  }

  // ---- the flags

  /** The bytes that are not copied. */
  predicate Escaped(f: Flags, b: u8) {
    b < 0x20 || b == 0x22 || b == 0x5c || (f.slashes && b == 0x2f) || (f.unicode && b >= 0x80)
  }

  /** A string is written as it is exactly if it has none of them. */
  lemma Unchanged(f: Flags, str: seq<u8>)
    requires Utf8(str)
    ensures Text(f, str) == str <==> forall k | 0 <= k < |str| :: !Escaped(f, str[k])
  {
    if forall k | 0 <= k < |str| :: !Escaped(f, str[k]) {
      PlainRun(f, str, |str|);
      assert str[|str|..] == [] && Text(f, []) == [];
    } else {
      var k :| 0 <= k < |str| && Escaped(f, str[k]);
      Longer(f, str, k);
    }
  }

  /** Escapes are longer than what they stand for. */
  lemma {:induction false} Longer(f: Flags, str: seq<u8>, k: nat)
    requires Utf8(str) && k < |str|
    ensures |Text(f, str)| >= |str| && (Escaped(f, str[k]) ==> |Text(f, str)| > |str|)
    decreases |str|
  {
    hide Text, Utf8Len, Escaped, Piece;
    var n := Utf8Len(str, 0);
    TextPiece(f, str);
    PieceLonger(f, str, if k < n then k else 0);
    if n < |str| { Longer(f, str[n..], if k < n then 0 else k - n); }
  }

  lemma PieceLonger(f: Flags, str: seq<u8>, k: nat)
    requires str != [] && Utf8Len(str, 0) > 0 && k < Utf8Len(str, 0) <= |str|
    ensures var (p, n) := (Piece(f, str), Utf8Len(str, 0)); |p| >= n && (Escaped(f, str[k]) ==> |p| > n)
  {
    var b := str[..Utf8Len(str, 0)];
    SequenceAt(str, 0, |b|);
    LeadBounds(b);
    LeadType(f, str);
    hide Utf8Len, UEscape, Code2, Code3, Code4, Sequence;
    assert str[k] == b[k] && (k > 0 ==> Tail(b[k]));
  }

  /** t with a backslash before each slash. */
  function SlashesEscaped(t: seq<u8>): seq<u8> {
    if t == [] then [] else (if t[0] == 0x2f then [0x5c, 0x2f] else [t[0]]) + SlashesEscaped(t[1..])
  }

  lemma {:induction false} SlashesAppend(a: seq<u8>, b: seq<u8>)
    ensures SlashesEscaped(a + b) == SlashesEscaped(a) + SlashesEscaped(b)
    decreases |a|
  {
    if a == [] {
      assert [] + b == b;
    } else {
      SlashesAppend(a[1..], b);
      Lists.TailAppend(a, b);
      var head := if a[0] == 0x2f then [0x5c, 0x2f] else [a[0]];
      Lists.Assoc(head, SlashesEscaped(a[1..]), SlashesEscaped(b));
    }
  }

  lemma {:induction false} NoSlashes(a: seq<u8>)
    requires 0x2f !in a
    ensures SlashesEscaped(a) == a
  {
    if a != [] { NoSlashes(a[1..]); }
  }

  lemma UEscapeBytes(u: int)
    requires 0 <= u < 0x1_0000
    ensures 0x2f !in UEscape(u) && forall k | 0 <= k < 6 :: 0x20 <= UEscape(u)[k] < 0x80
  {
    var t := UEscape(u);
    forall d: nat | d < 16 ensures 0x30 <= HexChar(d) < 0x80 { }
  }

  /** The flag for slashes adds a backslash before each slash, and nothing else. */
  lemma {:induction false} SlashesOnly(unicode: bool, str: seq<u8>)
    requires Utf8(str)
    ensures Text(Flags(unicode, true), str) == SlashesEscaped(Text(Flags(unicode, false), str))
    decreases |str|
  {
    hide Piece, SlashesEscaped, Text, Utf8Len;
    var (f, g) := (Flags(unicode, true), Flags(unicode, false));
    if str == [] {
      EmptyText(f);
      EmptyText(g);
      NoSlashes([]);
    } else {
      var rest := str[Utf8Len(str, 0)..];
      TextPiece(f, str);
      TextPiece(g, str);
      PieceSlashes(unicode, str);
      SlashesOnly(unicode, rest);
      SlashesAppend(Piece(g, str), Text(g, rest));
    }
  }

  lemma PieceSlashes(unicode: bool, str: seq<u8>)
    requires str != [] && 0 < Utf8Len(str, 0)
    ensures Piece(Flags(unicode, true), str) == SlashesEscaped(Piece(Flags(unicode, false), str))
  {
    hide UEscape, Code2, Code3, Code4, SlashesEscaped;
    var g := Flags(unicode, false);
    if str[0] == 0x2f {
      SlashText();
      assert Utf8Len(str, 0) == 1 && str[..1] == [0x2f];
      assert Piece(g, str) == [0x2f] && Piece(Flags(unicode, true), str) == [0x5c, 0x2f];
    } else {
      PieceBytes(g, str);
      NoSlashes(Piece(g, str));
    }
  }

  lemma SlashText()
    ensures SlashesEscaped([0x2f]) == [0x5c, 0x2f]
  {
    assert [0x2f as u8][1..] == [] && SlashesEscaped([]) == [];
  }

  /** The bytes of the first character as it is written. */
  lemma PieceBytes(f: Flags, str: seq<u8>)
    requires str != [] && 0 < Utf8Len(str, 0)
    ensures str[0] != 0x2f ==> 0x2f !in Piece(f, str)
    ensures f.unicode ==> forall k | 0 <= k < |Piece(f, str)| :: 0x20 <= Piece(f, str)[k] < 0x80
  {
    hide UEscape, Code2, Code3, Code4, Utf8Len, TypeOf;
    CodeBounds(str);
    match TypeOf(f, str[0])
    case Plain => PlainBytes(f, str);
    case Ascii => LetterBytes(f, str[0]);
    case Utf1 => UEscapeBytes(str[0]);
    case Utf2 => UEscapeBytes(Code2(str));
    case Utf3 => UEscapeBytes(Code3(str));
    case Utf4 =>
      var u := (Code4(str) - 0x1_0000) % 0x1_0000_0000;
      UEscapeBytes((u / 0x400 + 0xd800) % 0x1_0000);
      UEscapeBytes(u % 0x400 + 0xdc00);
  }

  lemma CodeBounds(str: seq<u8>)
    ensures 0 <= Code2(str) < 0x800 && 0 <= Code3(str) < 0x1_0000
  {
  }

  lemma LetterBytes(f: Flags, b: u8)
    requires TypeOf(f, b).Ascii?
    ensures 0x20 <= Letter(b) < 0x80 && (b != 0x2f ==> Letter(b) != 0x2f)
  {
  }

  lemma PlainBytes(f: Flags, str: seq<u8>)
    requires str != [] && 0 < Utf8Len(str, 0) && TypeOf(f, str[0]).Plain?
    ensures str[0] != 0x2f ==> 0x2f !in Piece(f, str)
    ensures f.unicode ==> |Piece(f, str)| == 1 && 0x20 <= Piece(f, str)[0] < 0x80
  {
    var b := str[..Utf8Len(str, 0)];
    SequenceAt(str, 0, |b|);
    LeadBounds(b);
    if |b| == 1 { assert b[0] < 0x80; }
    hide Utf8Len;
  }

  lemma EmptyText(f: Flags)
    ensures Text(f, []) == []
  {
  }

  /** With the flag for Unicode the text is ASCII. */
  lemma {:induction false} TextAscii(f: Flags, str: seq<u8>)
    requires Utf8(str) && f.unicode
    ensures forall k | 0 <= k < |Text(f, str)| :: 0x20 <= Text(f, str)[k] < 0x80
    decreases |str|
  {
    hide Text, Utf8Len, Piece;
    if str == [] {
      EmptyText(f);
    } else {
      TextPiece(f, str);
      PieceBytes(f, str);
      TextAscii(f, str[Utf8Len(str, 0)..]);
    }
  }

  /** Control characters, the quote and the backslash: the letter if there is one, otherwise \u00 and two
      digits. */
  lemma ControlText(f: Flags, c: int, rest: seq<u8>)
    requires 0 <= c < 0x20 || c == 0x22 || c == 0x5c
    ensures forall k | 0 <= k < 8 && MEANINGS[k] == c ::
      Text(f, [c] + rest) == [0x5c, LETTERS[k] as int] + Text(f, rest)
    ensures c !in MEANINGS ==>
      Text(f, [c] + rest) == [0x5c, 0x75, 0x30, 0x30, UPPER[c / 16] as int, UPPER[c % 16] as int] + Text(f, rest)
  {
    hide Text;
    AsciiText(f, c, rest);
    hide TypeOf;
    AsciiType(f, c);
    forall k | 0 <= k < 8 && MEANINGS[k] == c ensures Text(f, [c] + rest) == [0x5c, LETTERS[k] as int] + Text(f, rest) {
      var j := LetterOf(f, c);
      MeaningsApart(j, k);
    }
    if c !in MEANINGS { ControlHex(c); }
  }

  lemma AsciiText(f: Flags, c: int, rest: seq<u8>)
    requires 0 <= c < 0x20 || c == 0x22 || c == 0x5c
    ensures TypeOf(f, c).Ascii? ==> Text(f, [c] + rest) == [0x5c, Letter(c)] + Text(f, rest)
    ensures TypeOf(f, c).Utf1? ==> Text(f, [c] + rest) == UEscape(c) + Text(f, rest)
  {
    assert ([c] + rest)[1..] == rest;
    hide UEscape, TypeOf, Letter;
  }

  lemma ControlHex(c: int)
    requires 0 <= c < 0x20
    ensures UEscape(c) == [0x5c, 0x75, 0x30, 0x30, UPPER[c / 16] as int, UPPER[c % 16] as int]
  {
    hide HexChar, DigitByte;
    CharIs(0);
    CharIs(c / 16);
    CharIs(c % 16);
    UpperIs(c / 16);
    UpperIs(c % 16);
    UpperIs(0);
  }

  lemma UpperIs(d: nat)
    requires d < 16
    ensures DigitByte(Digit(d, true)) == UPPER[d] as int && DigitByte(Digit(0, true)) == 0x30
  {
  }
}
