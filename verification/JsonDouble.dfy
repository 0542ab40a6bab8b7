/** Reading a double from its text: read_number for reals from the first digit to the bit pattern,
    through the second fast path, the 64-bit approximation and the comparison of big integers. */
module JsonDouble {
  import opened Bytes
  import opened Options
  import opened Powers
  import opened JsonPowers
  import opened JsonRound
  import opened JsonHalfway
  import opened JsonApprox
  import opened JsonSlow
  import opened JsonNumber
  import opened JsonReal

  /** The table of powers of ten: truncated entries, none of them all ones. */
  ghost predicate TableOk(tab: PowTable) {
    forall e | -343 <= e <= 308 :: Truncated(tab, e) && tab(e).0 < B64 - 1
  }

  // ---- nearest among the finite doubles

  lemma LargestDouble()
    ensures RawSig(RawInf - 1) == 2 * B52 - 1 && RawExp(RawInf - 1) == 971
  {
    Fields(RawInf - 1, 2046, B52 - 1);
  }

  /** Numbers in the range of the fast path are far below the largest double. */
  lemma FarBelow(sig: u64, exp: int)
    requires -307 < exp < 288
    ensures Decimal(sig, exp) <= DoubleOf(RawInf - 1)
  {
    hide R2, R10, Log, RawSig, RawExp, Dyadic, Decimal;
    LogExact(exp);
    LogRange(exp);
    LargestDouble();
    R2Mono(Log(exp) + 1, 954);
    DecimalBelow(sig, exp, 954);
    Grow(sig, B64, 954);
    BelowLargest();
  }

  lemma DecimalBelow(sig: nat, exp: int, w: int)
    requires R10(exp) <= R2(w)
    ensures Decimal(sig, exp) <= Dyadic(sig, w)
  {
    hide R10, R2;
    TimesPower(sig, R10(exp), R2(w));
  }

  lemma TimesPower(k: nat, x: real, y: real)
    requires x <= y
    ensures k as real * x <= k as real * y
  {
    Scale(x, y, k as real);
    Swap(k as real, x);
    Swap(k as real, y);
  }

  lemma BelowLargest()
    ensures Dyadic(B64, 954) <= Dyadic(2 * B52 - 1, 971)
  {
    hide Dyadic, Pow;
    PowersTo64();
    Pow53();
    Shift(1, 954, 64);
    Raise(1, 1018, 1023);
    Shift(1, 971, 52);
    Grow(B52, 2 * B52 - 1, 971);
  }

  lemma LogRange(exp: int)
    requires -307 < exp < 288
    ensures Log(exp) <= 953
  {
  }

  /** The nearest finite double is the nearest double. */
  lemma NearestIsEven(v: real, raw: int)
    requires 0 < raw < B63 && Nearest(v, RawSig(raw), RawExp(raw)) && v <= DoubleOf(RawInf - 1)
    ensures NearestEven(v, raw)
  {
    assert raw < RawInf by { FiniteRaw(raw); }
    hide RawSig, RawExp, Dyadic;
    forall r | 0 <= r <= RawInf && r != raw
      ensures Distance(v, DoubleOf(raw)) < Distance(v, DoubleOf(r))
    {
      if r < raw { DoublesGrow(r, raw); } else { DoublesGrow(raw, r); }
      if r < RawInf {
        NextDouble(r);
      } else {
        NextDouble(RawInf - 1);
        if raw < RawInf - 1 { DoublesGrow(raw, RawInf - 1); }
      }
    }
  }

  lemma FiniteRaw(raw: int)
    requires 0 < raw < B63 && RawExp(raw) <= 971
    ensures raw < RawInf
  {
  }

  // ---- what the parts of a text stand for

  /** With digits cut off the significand is rounded to the nearest. */
  lemma CutWindow(sig: u64, exp: int, rest: Rest)
    requires IsNumber(sig, exp, rest) && IsRest(rest)
    ensures Within(Exact(sig, exp, rest), sig, exp, rest.Cut?) && (rest.Cut? ==> sig >= 1000000000000000000)
  {
    if rest.Whole? {
      Itself(sig, exp);
    } else {
      var (t, u: nat, v) := (rest.tail, Unrounded(sig, rest.tail), Exact(sig, exp, rest));
      FirstDigits(u, exp, t, 1);
      var d := Digit(t.text[0]);
      assert Number(u, t, 1) == 10 * u + d && JsonSlow.Count(t, 1) == 1 by { assert Number(u, t, 0) == u; }
      hide Decimal, Number, TextValue, R10;
      Two(10 * u + d, exp - 1);
      Two(10 * u + d + 1, exp - 1);
      Coarse(2 * sig - 1, exp);
      Coarse(2 * sig + 1, exp);
      DecimalOrder(10 * (2 * sig - 1), 2 * (10 * u + d), exp - 1);
      DecimalOrder(2 * (10 * u + d + 1), 10 * (2 * sig + 1), exp - 1);
    }
  }

  lemma Coarse(m: int, g: int)
    ensures Decimal(m, g) == Decimal(10 * m, g - 1)
  {
    hide Decimal, Pow;
    DecimalShift(m, g - 1, 1);
    TenPower();
  }

  lemma NotNegative(s: seq<u8>, d: nat)
    ensures TokenReal(s, d) >= 0.0
  {
    hide R10, Digs;
  }

  // ---- the whole of read_number

  /** What is returned for a number in parts: a pattern that is nearest to all numbers the significand
      may stand for, or what the digits kept decide between two neighbours. */
  ghost predicate Converts(sig: u64, exp: int, rest: Rest, raw: int)
    requires IsNumber(sig, exp, rest) && (rest.Cut? ==> 0 <= KeptEnd(rest.tail) <= |rest.tail.text|)
  {
    || (forall v | Within(v, sig, exp, rest.Cut?) :: NearestEven(v, raw))
    || exists low :: Between(Exact(sig, exp, rest), low) && raw == Decided(Compared(sig, exp, rest), low)
  }

  datatype Reading = Bad | Bits(raw: int)

  /** What reading the text at d gives. */
  ghost predicate Reads(s: seq<u8>, d: nat, r: Reading) {
    exists scan: Scanned :: Scans(s, d, scan) && Gives(scan, r)
  }

  ghost predicate Gives(scan: Scanned, r: Reading) {
    match scan
    case NoNumber => r.Bad?
    case Zero => r == Bits(0)
    case Infinite => r == Bits(RawInf)
    case Parsed(sig, exp, rest) =>
      && r.Bits? && sig < B64 && IsNumber(sig, exp, rest)
      && (rest.Cut? ==> 0 <= KeptEnd(rest.tail) <= |rest.tail.text|) && Converts(sig, exp, rest, r.raw)
  }

  /** From the parts to the bit pattern. */
  method RoundParts(sig: u64, exp: int, rest: Rest, tab: PowTable) returns (raw: int)
    requires IsNumber(sig, exp, rest) && IsRest(rest) && TableOk(tab)
    ensures (rest.Cut? ==> 0 <= KeptEnd(rest.tail) <= |rest.tail.text|) && Converts(sig, exp, rest, raw)
  {
    hide NearestEven, Between, Exact, Truncated, IsTail, RawSig, RawExp, Nearest, Within, Compared, Decided, KeptEnd,
        R10, Decimal;
    KeptRange(rest);
    if rest.Whole? && -307 < exp < 288 {
      var exact, fast := FastPath2(sig, exp, tab);
      if exact {
        forall v | Within(v, sig, exp, false) ensures NearestEven(v, fast) { FastIs(v, sig, exp, fast); }
        return fast;
      }
    }
    CutWindow(sig, exp, rest);
    var low, sure := Approximate(sig, exp, rest.Cut?, tab);
    if sure { return low; }
    raw := Decide(sig, exp, rest, low);
  }

  lemma KeptRange(rest: Rest)
    requires IsRest(rest)
    ensures rest.Cut? ==> 0 <= KeptEnd(rest.tail) <= |rest.tail.text|
  {
    if rest.Cut? { KeptDigits(rest.tail); }
  }

  lemma FastIs(v: real, sig: u64, exp: int, raw: int)
    requires Within(v, sig, exp, false) && -307 < exp < 288
    requires 0 < raw < B63 && Nearest(sig as real * R10(exp), RawSig(raw), RawExp(raw))
    ensures NearestEven(v, raw)
  {
    Two(sig, exp);
    hide R10, RawSig, RawExp, Nearest, NearestEven, DoubleOf;
    FarBelow(sig, exp);
    NearestIsEven(v, raw);
  }

  /** read_number on the text of a real, from its first digit on. */
  method ReadDouble(buf: array<u8>, ghost s: seq<u8>, d: nat, tab: PowTable) returns (r: Reading)
    requires Unread(buf, s, d) && d < |s| < TextLimit && IsDigit(At(s, d)) && TableOk(tab)
    requires At(s, d) == 48 ==> !IsDigit(At(s, d + 1))
    requires IsFp(At(s, Run(s, d))) || Run(s, d) > d + 19
    ensures Reads(s, d, r)
  {
    hide TokenReal, Halfway, Exact, Parts, Run, TableOk, Converts, KeptEnd;
    var scan := JsonReal.ReadReal(buf, s, d);
    match scan
    case NoNumber => r := Bad;
    case Zero => r := Bits(0);
    case Infinite => r := Bits(RawInf);
    case Parsed(sig, exp, rest) =>
      var raw := RoundParts(sig, exp, rest, tab);
      r := Bits(raw);
    assert Gives(scan, r);
  }

  // ---- when the result is right

  /** The number lies between low and the next double, digits were dropped that do not show, and the
      upper double is chosen though the lower one is nearer, or as near and even. */
  ghost predicate Misrounded(v: real, rest: Rest, low: int) {
    && !Clean(rest) && Between(v, low)
    && ((v == Halfway(low) && low % 2 == 0) || (v < Halfway(low) <= 10.0 * v && DotDropped(rest.tail)))
  }

  ghost predicate Misread(s: seq<u8>, d: nat, raw: int) {
    exists first: nat, c: nat, sig: nat, exp: int, rest: Rest ::
      Parts(s, d, first, c, sig, exp, rest) && Misrounded(TokenReal(s, d), rest, raw - 1)
  }

  /** The comparison errs only upward, and only in those cases. */
  lemma Errs(sig: u64, exp: int, rest: Rest, raw: int)
    requires IsNumber(sig, exp, rest) && IsRest(rest)
    requires rest.Cut? ==> 0 <= KeptEnd(rest.tail) <= |rest.tail.text|
    requires Converts(sig, exp, rest, raw)
    ensures NearestEven(Exact(sig, exp, rest), raw) || Misrounded(Exact(sig, exp, rest), rest, raw - 1)
  {
    hide Exact, Compared, Halfway, NearestEven, Between, DoubleOf, KeptEnd, DotDropped, IsTail, Clean, Within;
    var v := Exact(sig, exp, rest);
    CutWindow(sig, exp, rest);
    if !NearestEven(v, raw) {
      var low :| Between(v, low) && raw == Decided(Compared(sig, exp, rest), low);
      SlowPath(sig, exp, rest, low);
      DecidedIsNearest(v, low, low);
    }
  }

  /** A text is rejected exactly when it is no number. Otherwise the result is the nearest double, ties
      to even, or the text is one of those misread. */
  lemma ReadIsNearest(s: seq<u8>, d: nat, r: Reading)
    requires Reads(s, d, r)
    ensures r.Bad? <==> TailEnd(s, Run(s, d)).None?
    ensures r.Bits? ==> NearestEven(TokenReal(s, d), r.raw) || Misread(s, d, r.raw)
  {
    hide TokenReal, NearestEven, Halfway, Exact, Parts, Misrounded, Run, Converts, KeptEnd;
    var scan :| Scans(s, d, scan) && Gives(scan, r);
    NotNegative(s, d);
    match scan
    case NoNumber =>
    case Zero => RoundsToNothing(TokenReal(s, d));
    case Infinite => RoundsToInf(TokenReal(s, d));
    case Parsed(sig, exp, rest) =>
      Errs(sig, exp, rest, r.raw);
      var first: nat, c: nat :| Parts(s, d, first, c, sig, exp, rest);
      assert Misrounded(TokenReal(s, d), rest, r.raw - 1) ==> Misread(s, d, r.raw);
  }

  /** Those texts are misread. */
  lemma MisreadIsWrong(s: seq<u8>, d: nat, raw: int)
    requires Misread(s, d, raw)
    ensures !NearestEven(TokenReal(s, d), raw)
  {
    hide TokenReal, NearestEven, Halfway, Parts, Clean, DotDropped, DoubleOf;
    DecidedIsNearest(TokenReal(s, d), raw - 1, raw);
  }

  /** The numbers above v that the significand may also stand for. */
  lemma RoomAbove(sig: u64, exp: int, rest: Rest)
    requires IsNumber(sig, exp, rest) && IsRest(rest) && rest.Cut?
    ensures 2.0 * Exact(sig, exp, rest) < Decimal(2 * sig + 1, exp)
  {
    var (t, u: nat) := (rest.tail, Unrounded(sig, rest.tail));
    FirstDigits(u, exp, t, 1);
    var d := Digit(t.text[0]);
    assert Number(u, t, 1) == 10 * u + d && JsonSlow.Count(t, 1) == 1 by { assert Number(u, t, 0) == u; }
    hide Decimal, Number, TextValue, R10;
    Two(10 * u + d + 1, exp - 1);
    Coarse(2 * sig + 1, exp);
    DecimalOrder(2 * (10 * u + d + 1), 10 * (2 * sig + 1), exp - 1);
  }

  lemma WholeIsClean(rest: Rest)
    ensures rest.Whole? ==> Clean(rest)
  {
  }

  /** A tie among digits that do not show is always taken upward. */
  lemma TiesGoUp(sig: u64, exp: int, rest: Rest, raw: int, low: int)
    requires IsNumber(sig, exp, rest) && IsRest(rest)
    requires rest.Cut? ==> 0 <= KeptEnd(rest.tail) <= |rest.tail.text|
    requires Converts(sig, exp, rest, raw) && !Clean(rest)
    requires 0 <= low < RawInf && low % 2 == 0 && Exact(sig, exp, rest) == Halfway(low)
    ensures raw == low + 1
  {
    hide Exact, Compared, Halfway, NearestEven, DoubleOf, KeptEnd, DotDropped, IsTail, Clean, Decimal;
    var v := Exact(sig, exp, rest);
    WholeIsClean(rest);
    HalfwayIs(low);
    NextDouble(low);
    CutWindow(sig, exp, rest);
    RoomAbove(sig, exp, rest);
    DecidedIsNearest(v, low, raw);
    var top := Decimal(2 * sig + 1, exp) / 2.0;
    var w := if top < DoubleOf(low + 1) then top else DoubleOf(low + 1);
    assert Within(w, sig, exp, true);
    DecidedIsNearest(w, low, raw);
    assert Between(v, low);
    if !NearestEven(v, raw) {
      Errs(sig, exp, rest, raw);
      OnlyBetween(v, raw - 1, low);
    } else {
      var x :| Between(v, x) && raw == Decided(Compared(sig, exp, rest), x);
      OnlyBetween(v, x, low);
      SlowPath(sig, exp, rest, low);
    }
  }

  /** v is halfway above an even double. */
  ghost predicate EvenTie(v: real) { exists low :: 0 <= low < RawInf && low % 2 == 0 && v == Halfway(low) }

  /** Unless the decimal point is among the digits dropped, a number is misread exactly when it is
      halfway, the lower double is even, and too many digits hide it. */
  lemma RightExactly(s: seq<u8>, d: nat, scan: Scanned, r: Reading)
    requires Scans(s, d, scan) && scan.Parsed? && Gives(scan, r)
    requires scan.rest.Cut? ==> !DotDropped(scan.rest.tail)
    ensures NearestEven(TokenReal(s, d), r.raw) <==> Clean(scan.rest) || !EvenTie(TokenReal(s, d))
  {
    hide TokenReal, NearestEven, Halfway, Exact, Parts, Clean, Converts, KeptEnd, DotDropped, DoubleOf;
    var (sig, exp, rest, v) := (scan.sig, scan.exp, scan.rest, TokenReal(s, d));
    Errs(sig, exp, rest, r.raw);
    WholeIsClean(rest);
    if EvenTie(v) && !Clean(rest) {
      var low :| 0 <= low < RawInf && low % 2 == 0 && v == Halfway(low);
      TiesGoUp(sig, exp, rest, r.raw, low);
      HalfwayIs(low);
      NextDouble(low);
      DecidedIsNearest(v, low, low + 1);
    }
  }

  /** Numbers of at most 768 digits are never misread. */
  lemma ShortIsRight(s: seq<u8>, d: nat, first: nat, raw: int)
    requires Begins(s, d, first, Run(s, d)) && first <= DigitsEnd(s, Run(s, d)) <= |s|
    requires Places(first, DigitsEnd(s, Run(s, d)), Run(s, d)) <= MaxDigits
    ensures !Misread(s, d, raw)
  {
    hide Digs, Pow, Run, TokenReal, ExpValue, Between, Halfway;
    var j := Run(s, d);
    var k := DigitsEnd(s, j);
    forall first': nat, c: nat, sig: nat, exp: int, rest: Rest | Parts(s, d, first', c, sig, exp, rest)
      ensures Clean(rest)
    {
      SameFirst(s, d, first, first', j);
    }
  }

  lemma SameFirst(s: seq<u8>, d: nat, a: nat, b: nat, j: nat)
    requires Begins(s, d, a, j) && Begins(s, d, b, j)
    ensures a == b
  {
  }

  // ---- two texts that are misread

  /** Both neighbours are nearest to numbers that the significand may stand for, so that the digits
      kept decide. */
  lemma Compares(rest: Rest, raw: int)
    requires IsNumber(First19, 1, rest) && rest.Cut? && 0 <= KeptEnd(rest.tail) <= |rest.tail.text|
    requires Converts(First19, 1, rest, raw)
    requires DoubleOf(TwoTo64) < Exact(First19, 1, rest) < DoubleOf(TwoTo64 + 1)
    ensures raw == Decided(Compared(First19, 1, rest), TwoTo64)
  {
    hide Exact, Compared, Halfway, NearestEven, DoubleOf, KeptEnd, Decimal;
    var (v, w) := (Decimal(First19, 1), Decimal(18446744073709553665, 0));
    HalfwayAbove64();
    Itself(First19, 1);
    Two(First19, 1);
    Two(18446744073709553665, 0);
    Coarse(First19, 1);
    Coarse(2 * First19 - 1, 1);
    Coarse(2 * First19 + 1, 1);
    DecimalOrder(2 * First19 - 1, 2 * First19, 1);
    DecimalOrder(2 * First19, 2 * First19 + 1, 1);
    DecimalOrder(20 * First19 - 10, 20 * First19 + 10, 0);
    DecimalOrder(18446744073709551616, 10 * First19, 0);
    DecimalOrder(10 * First19, 18446744073709553664, 0);
    DecimalOrder(18446744073709553664, 18446744073709553665, 0);
    DecimalOrder(18446744073709553665, 18446744073709555712, 0);
    assert Within(v, First19, 1, true) && Within(w, First19, 1, true);
    DecidedIsNearest(v, TwoTo64, raw);
    DecidedIsNearest(w, TwoTo64, raw);
    var low :| Between(Exact(First19, 1, rest), low) && raw == Decided(Compared(First19, 1, rest), low);
    OnlyBetween(Exact(First19, 1, rest), low, TwoTo64);
  }

  lemma OnlyBetween(v: real, low: int, x: int)
    requires Between(v, low) && 0 <= x < RawInf && DoubleOf(x) < v < DoubleOf(x + 1)
    ensures low == x
  {
    hide DoubleOf;
    if low < x { DoublesAtMost(low + 1, x); } else if low > x { DoublesAtMost(x + 1, low); }
  }

  lemma DoublesAtMost(a: int, b: int)
    requires 0 <= a <= b <= RawInf
    ensures DoubleOf(a) <= DoubleOf(b)
  {
    hide DoubleOf;
    if a < b { DoublesGrow(a, b); }
  }

  /** The comparison decides, and wrongly. */
  lemma Comparison(rest: Rest, raw: int)
    requires IsNumber(First19, 1, rest) && IsRest(rest) && rest.Cut? && 0 <= KeptEnd(rest.tail) <= |rest.tail.text|
    requires Converts(First19, 1, rest, raw)
    requires DoubleOf(TwoTo64) < Exact(First19, 1, rest) < DoubleOf(TwoTo64 + 1)
    requires !NearestEven(Exact(First19, 1, rest), Decided(Compared(First19, 1, rest), TwoTo64))
    ensures raw == TwoTo64 + 1 && !NearestEven(Exact(First19, 1, rest), raw)
  {
    hide Exact, Compared, NearestEven, Converts, KeptEnd, DoubleOf, Decided;
    Compares(rest, raw);
    Errs(First19, 1, rest, raw);
    OnlyBetween(Exact(First19, 1, rest), raw - 1, TwoTo64);
  }

  /** 18446744073709553664. and 749 zeros, halfway between 2^64 and the next double, is read as the
      next double. */
  lemma ZerosMisread(r: Reading)
    requires Reads(ZerosText(), 0, r)
    ensures r == Bits(TwoTo64 + 1) && !NearestEven(TokenReal(ZerosText(), 0), TwoTo64 + 1)
  {
    hide TokenReal, Exact, Compared, NearestEven, Halfway, Converts, KeptEnd, DoubleOf;
    var scan :| Scans(ZerosText(), 0, scan) && Gives(scan, r);
    ZerosTextWrong(scan);
    Comparison(TrailingZeros(), r.raw);
  }

  /** So is 18446744073709553663, 750 nines, and .5e-750, which lies below the middle. */
  lemma LongMisread(r: Reading)
    requires Reads(LongText(), 0, r)
    ensures r == Bits(TwoTo64 + 1) && !NearestEven(TokenReal(LongText(), 0), TwoTo64 + 1)
  {
    hide TokenReal, Exact, Compared, NearestEven, Halfway, Converts, KeptEnd, DoubleOf;
    var scan :| Scans(LongText(), 0, scan) && Gives(scan, r);
    LongTextWrong(scan);
    Comparison(LongInteger(), r.raw);
  }
}
