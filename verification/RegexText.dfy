/** The subject string and the character macros of the interpreter: GET_CHAR, PEEK_CHAR,
    PEEK_PREV_CHAR, PREV_CHAR. Positions count code units. */
module RegexText {
  import opened Bytes

  /** cbuf_type: 8-bit units, 16-bit units, or 16-bit units read as UTF-16. */
  datatype Width = Latin1 | Ucs2 | Utf16

  datatype Text = Text(units: seq<u16>, width: Width)

  predicate High(u: int) { 0xd800 <= u < 0xdc00 }
  predicate Low(u: int) { 0xdc00 <= u < 0xe000 }

  /** A surrogate pair starts at p. */
  predicate PairAt(t: Text, p: int) {
    t.width == Utf16 && 0 <= p && p + 1 < |t.units| && High(t.units[p]) && Low(t.units[p + 1])
  }

  /** Not between the two halves of a surrogate pair. */
  predicate Boundary(t: Text, p: int) {
    0 <= p <= |t.units| && !PairAt(t, p - 1)
  }

  /** The code point read at p. */
  function CharAt(t: Text, p: int): (c: cp)
    requires 0 <= p < |t.units|
  {
    if PairAt(t, p) then
      var hi: int, lo: int := t.units[p], t.units[p + 1];
      (hi % 0x400) * 0x400 + lo % 0x400 + 0x1_0000
    else t.units[p]
  }

  /** Position after the code point read at p. */
  function Next(t: Text, p: int): (q: int)
    requires 0 <= p < |t.units|
    ensures p < q <= |t.units|
  {
    if PairAt(t, p) then p + 2 else p + 1
  }

  /** Position PREV_CHAR steps back to. */
  function Back(t: Text, p: int): (q: int)
    requires 0 < p <= |t.units|
    ensures 0 <= q < p
  {
    if PairAt(t, p - 2) then p - 2 else p - 1
  }

  /** The code point PEEK_PREV_CHAR reads before p. */
  function CharBefore(t: Text, p: int): (c: cp)
    requires 0 < p <= |t.units|
  {
    if PairAt(t, p - 2) then CharAt(t, p - 2) else t.units[p - 1]
  }

  lemma NextBoundary(t: Text, p: int)
    requires 0 <= p < |t.units|
    ensures Boundary(t, Next(t, p))
  {
  }

  lemma BackBoundary(t: Text, p: int)
    requires 0 < p && Boundary(t, p)
    ensures Boundary(t, Back(t, p))
  {
  }

  /** On code-point boundaries the backward step undoes the forward step, and the other way
      round. */
  lemma BackInvertsNext(t: Text, p: int)
    requires Boundary(t, p)
    ensures p < |t.units| ==> Back(t, Next(t, p)) == p
    ensures p > 0 ==> Next(t, Back(t, p)) == p && CharAt(t, Back(t, p)) == CharBefore(t, p)
  {
  }

  predicate IsLineTerminator(c: int) { c == 10 || c == 13 || c == 0x2028 || c == 0x2029 }

  predicate IsWordChar(c: int) { 48 <= c <= 57 || 97 <= c <= 122 || 65 <= c <= 90 || c == 95 }

  /** The assertion instructions. */
  predicate AtLineStart(t: Text, multiLine: bool, p: int)
    requires 0 <= p <= |t.units|
  {
    p == 0 || (multiLine && IsLineTerminator(CharBefore(t, p)))
  }

  predicate AtLineEnd(t: Text, multiLine: bool, p: int)
    requires 0 <= p <= |t.units|
  {
    p == |t.units| || (multiLine && IsLineTerminator(CharAt(t, p)))
  }

  predicate AtWordBoundary(t: Text, p: int)
    requires 0 <= p <= |t.units|
  {
    (p > 0 && IsWordChar(CharBefore(t, p))) != (p < |t.units| && IsWordChar(CharAt(t, p)))
  }
}
