/** The end of the slow path of read_number: the digits that did not fit in 64 bits are read into
    a big integer and compared with the point halfway to the next double. */
module JsonSlow {
  import opened Bytes
  import opened Powers
  import opened JsonPowers
  import opened JsonRound
  import opened JsonHalfway
  import opened JsonBig

  // ---- the digits

  /** The characters from the first digit cut off to the end of the number, and where the decimal
      point is, counted from there: before the first of them when negative, inside, or at the end
      or beyond when there is none. */
  datatype Tail = Tail(text: seq<u8>, dot: int)

  ghost predicate IsTail(t: Tail) {
    && t.text != [] && t.dot != 0 && t.dot != |t.text| - 1
    && forall i | 0 <= i < |t.text| && i != t.dot :: 48 <= t.text[i] <= 57
  }

  function Digit(c: u8): nat { if 48 <= c <= 57 then c - 48 else 0 }

  /** The number so far, once n characters have been read after sig. */
  function Number(sig: nat, t: Tail, n: nat): nat
    requires n <= |t.text|
  {
    if n == 0 then sig
    else if n - 1 == t.dot then Number(sig, t, n - 1)
    else 10 * Number(sig, t, n - 1) + Digit(t.text[n - 1])
  }

  /** The digits among the first n characters. */
  function Count(t: Tail, n: nat): nat { if 0 <= t.dot < n then n - 1 else n }

  /** The decimal number: sig, the digits of the tail, and the exponent for sig alone. */
  function TextValue(sig: nat, exp: int, t: Tail): real {
    Decimal(Number(sig, t, |t.text|), exp - Count(t, |t.text|))
  }

  const MaxDigits := 768

  /** More digits than are kept. */
  predicate TooLong(t: Tail) { 19 + Count(t, |t.text|) > MaxDigits }

  /** The end of what is read. */
  function KeptEnd(t: Tail): int {
    var end := |t.text| - (19 + Count(t, |t.text|) - 769);
    if !TooLong(t) then |t.text| else if t.dot + 1 == end then end - 1 else end
  }

  /** The digits read and the exponent they are given. */
  function Written(sig: nat, t: Tail): nat
    requires 0 <= KeptEnd(t) <= |t.text|
  {
    var n := Number(sig, t, KeptEnd(t));
    if TooLong(t) then n / 10 * 10 + 1 else n
  }

  function WrittenExp(exp: int, t: Tail): int {
    exp - (if TooLong(t) then 750 else Count(t, |t.text|))
  }

  /** The decimal point is among the digits dropped, so that one digit too many was read. */
  predicate DotDropped(t: Tail) { TooLong(t) && 751 <= t.dot < |t.text| }

  lemma KeptDigits(t: Tail)
    requires IsTail(t)
    ensures 0 < KeptEnd(t) <= |t.text| && KeptEnd(t) - 1 != t.dot
    ensures TooLong(t) ==> Count(t, KeptEnd(t)) == if DotDropped(t) then 751 else 750
  {
  }

  // ---- reading them

  function Joined(num: nat, len: nat, val: nat): int { Mul(num, Pow(10, len)) + val }

  lemma JoinDigit(num: nat, len: nat, val: nat, d: nat)
    requires d < 10 && val < Pow(10, len)
    ensures Joined(num, len + 1, 10 * val + d) == 10 * Joined(num, len, val) + d && 10 * val + d < Pow(10, len + 1)
  {
    var p := Pow(10, len);
    assert num * (10 * p) == 10 * (num * p);
  }

  lemma JoinLast(num: nat, len: nat, val: nat)
    requires len > 0 && val < Pow(10, len)
    ensures Joined(num, len, val) >= 0 && val - val % 10 + 1 < Pow(10, len)
    ensures Joined(num, len, val - val % 10 + 1) == Joined(num, len, val) / 10 * 10 + 1
  {
    var p := Pow(10, len - 1);
    Times(0, num, 0, p);
    assert num * (10 * p) == 10 * (num * p);
    LastDigit(num * p, val, p);
  }

  lemma LastDigit(high: nat, val: nat, p: nat)
    requires val < 10 * p
    ensures val - val % 10 + 1 < 10 * p && 10 * high + (val - val % 10 + 1) == (10 * high + val) / 10 * 10 + 1
  {
  }

  lemma JoinNone(num: nat)
    ensures Joined(num, 0, 0) == num && Pow(10, 0) == 1
  {
    OneTimes(num);
  }

  /** A flush does not overflow. */
  lemma JoinRoom(num: nat, len: nat, val: nat, limit: nat)
    requires Joined(num, len, val) < limit
    ensures 0 <= Mul(num, Pow(10, len)) < limit
  {
    Times(0, num, 0, Pow(10, len));
  }

  lemma {:induction false} NumberBound(sig: nat, t: Tail, n: nat)
    requires sig < Pow(10, 20) && n <= |t.text|
    ensures Number(sig, t, n) < Pow(10, 20 + Count(t, n))
  {
    hide Pow;
    if n > 0 {
      NumberBound(sig, t, n - 1);
      if n - 1 != t.dot { TenIs(); PowIs(10, 1, 20 + Count(t, n - 1), 10, Pow(10, 20 + Count(t, n - 1))); }
    }
  }

  lemma TenIs()
    ensures Pow(10, 1) == 10 && Pow(10, 20) == 100000000000000000000 && Pow(10, 18) == 1000000000000000000
  {
    TableIsPowers(18);
    TableIsPowers(19);
    TableIsPowers(1);
  }

  /** All the digits kept fit in the big integer. */
  lemma Capacity()
    ensures Pow(10, 771) < Pow(2, 2562) && Pow(2, 2562) < Pow(B64, 64) && B64 < Pow(10, 20)
    ensures Pow(B64, 64) == Pow(2, 4096) && Pow(B64, 63) == Pow(2, 4032)
  {
    TenIs();
    LogBelow();
    Chunk64();
    hide Pow;
    RootAbove(2562, 771, 1166, 351);
    PowMul(2, 64, 64);
    PowMul(2, 64, 63);
    Pow2More(2562, 4096);
  }

  lemma Pow2More(m: nat, n: nat)
    requires m < n
    ensures Pow(2, m) < Pow(2, n)
  {
    Pow2Grows(m + 1, n);
  }

  lemma KeptRoom(sig: nat, t: Tail, n: nat)
    requires sig < B64 && IsTail(t) && n <= KeptEnd(t)
    ensures KeptEnd(t) <= |t.text| && Number(sig, t, n) < Pow(10, 771) < Pow(B64, 64)
  {
    hide Pow;
    Capacity();
    KeptDigits(t);
    NumberBound(sig, t, n);
    Pow10Grows(20 + Count(t, n), 771);
  }

  /** What has been read after cur characters: the big integer and the digits pending. */
  ghost predicate Reading(num: nat, len: int, val: int, sig: nat, t: Tail, cur: int) {
    && 0 <= cur <= KeptEnd(t) <= |t.text| && len >= 0 && 0 <= val < Pow(10, len)
    && Joined(num, len, val) == if cur == KeptEnd(t) then Written(sig, t) else Number(sig, t, cur)
  }

  /** The pending digits with character cur. */
  function Pending(val: nat, c: u8, last: bool): int
  {
    var v := 10 * val + Digit(c);
    if last then v - v % 10 + 1 else v
  }

  lemma ReadDigit(num: nat, len: nat, val: nat, sig: nat, t: Tail, cur: nat)
    requires IsTail(t) && cur < KeptEnd(t) && cur != t.dot && sig < B64 && len < 19
    requires Reading(num, len, val, sig, t, cur)
    ensures var v := Pending(val, t.text[cur], cur + 1 == KeptEnd(t) && TooLong(t));
      Reading(num, len + 1, v, sig, t, cur + 1) && 48 <= t.text[cur] <= 57
        && 0 <= Mul(num, Pow(10, len + 1)) < Pow(B64, 64) && Joined(num, len + 1, v) < Pow(B64, 64)
        && 0 <= 10 * val + Digit(t.text[cur]) < B64
  {
    hide Pow, Joined;
    DigitAt(t, cur);
    JoinDigit(num, len, val, Digit(t.text[cur]));
    Below19(len + 1);
    var v := 10 * val + Digit(t.text[cur]);
    if cur + 1 == KeptEnd(t) && TooLong(t) { JoinLast(num, len + 1, v); }
    WrittenRoom(sig, t);
    KeptRoom(sig, t, cur + 1);
    JoinRoom(num, len + 1, Pending(val, t.text[cur], cur + 1 == KeptEnd(t) && TooLong(t)), Pow(B64, 64));
  }

  /** The decimal point is passed over. */
  lemma ReadDot(num: nat, len: nat, val: nat, sig: nat, t: Tail, cur: nat)
    requires IsTail(t) && cur < KeptEnd(t) && cur == t.dot && Reading(num, len, val, sig, t, cur)
    ensures Reading(num, len, val, sig, t, cur + 1)
  {
    hide Pow, Joined, KeptEnd;
    KeptDigits(t);
    assert Number(sig, t, cur + 1) == Number(sig, t, cur);
  }

  lemma Flushed(num: nat, len: nat, val: nat, num': nat, sig: nat, t: Tail, cur: nat)
    requires Reading(num, len, val, sig, t, cur) && num' == Joined(num, len, val)
    ensures Reading(num', 0, 0, sig, t, cur)
  {
    JoinNone(num');
  }

  lemma ReadStart(sig: nat, t: Tail)
    requires IsTail(t)
    ensures 0 < KeptEnd(t) <= |t.text| && Reading(sig, 0, 0, sig, t, 0)
  {
    KeptDigits(t);
    JoinNone(sig);
  }

  /** bigint_set_buf, when digits were cut off: all of them in the number, or the first 769 with
      the last made 1. */
  method SetBuf(big: BigInt, sig: u64, exp: int, tail: Tail) returns (exp': int)
    requires big.Valid() && IsTail(tail) && sig > 0
    modifies big, big.bits
    ensures big.Valid() && Normal(big.Chunks()) && 0 <= KeptEnd(tail) <= |tail.text|
    ensures big.Num() == Written(Unrounded(sig, tail), tail) && exp' == WrittenExp(exp, tail)
  {
    hide Value, Normal, Pow, Joined, IsTail, Reading, Written;
    var (text, dot) := (tail.text, tail.dot);
    FirstDigit(tail);
    KeptDigits(tail);
    var start: u64 := if text[0] >= 53 then sig - 1 else sig;
    var hasDot := 0 < dot < |text|;
    var total := 19 + |text| - (if hasDot then 1 else 0);
    var end, cut := |text|, total > 768;
    if cut {
      end := end - (total - 769);
      if dot + 1 == end { end := end - 1; }
      total := 769;
    }
    exp' := exp - (total - 19);
    big.SetU64(start);
    ReadDigits(big, start, tail, end, cut);
    FinalNumber(big.Num(), start, tail);
  }

  lemma FinalNumber(num: nat, sig: nat, t: Tail)
    requires 0 <= KeptEnd(t) <= |t.text| && Reading(num, 0, 0, sig, t, KeptEnd(t))
    ensures num == Written(sig, t)
  {
    JoinNone(num);
  }

  method ReadDigits(big: BigInt, ghost sig: nat, tail: Tail, end: int, cut: bool)
    requires big.Valid() && Normal(big.Chunks()) && big.Num() == sig && sig < B64
    requires IsTail(tail) && end == KeptEnd(tail) && cut == TooLong(tail)
    modifies big, big.bits
    ensures big.Valid() && Normal(big.Chunks()) && Reading(big.Num(), 0, 0, sig, tail, end)
  {
    hide Value, Normal, Pow, Mul, IsTail, Reading;
    ReadStart(sig, tail);
    var text, dot := tail.text, tail.dot;
    var cur, len := 0, 0;
    var val: u64 := 0;
    while cur < end
      invariant 0 <= cur <= end && big.Valid() && Normal(big.Chunks())
      invariant 0 <= len < 19 && Reading(big.Num(), len, val, sig, tail, cur)
      invariant cur == end ==> len == 0 && val == 0
    {
      if cur != dot {
        ghost var num := big.Num();
        ReadDigit(num, len, val, sig, tail, cur);
        val := val * 10 + (text[cur] - 48);
        cur := cur + 1;
        len := len + 1;
        if cur == end && cut {
          val := val - val % 10 + 1;
        }
        if len == 19 || cur == end {
          big.MulPow10(len);
          big.AddU64(val);
          Flushed(num, len, val, big.Num(), sig, tail, cur);
          val, len := 0, 0;
        }
      } else {
        ReadDot(big.Num(), len, val, sig, tail, cur);
        LastIsDigit(tail, cur);
        cur := cur + 1;
      }
    }
  }

  lemma LastIsDigit(t: Tail, n: nat)
    requires IsTail(t) && n == t.dot
    ensures n + 1 != KeptEnd(t)
  {
    KeptDigits(t);
  }

  function Unrounded(sig: u64, t: Tail): (s: u64)
    requires sig > 0 && t.text != []
  {
    if t.text[0] >= 53 then sig - 1 else sig
  }

  lemma FirstDigit(t: Tail)
    requires IsTail(t)
    ensures t.text != [] && t.dot != 0 && t.dot != |t.text| - 1
  {
  }

  lemma DigitAt(t: Tail, n: nat)
    requires IsTail(t) && n < |t.text| && n != t.dot
    ensures 48 <= t.text[n] <= 57 && Digit(t.text[n]) == t.text[n] - 48
  {
  }

  lemma Below19(len: nat)
    requires len <= 19
    ensures Pow(10, len) < B64
  {
    TableIsPowers(len);
  }

  lemma WrittenRoom(sig: nat, t: Tail)
    requires sig < B64 && IsTail(t)
    ensures 0 <= KeptEnd(t) <= |t.text| && Written(sig, t) < Pow(B64, 64)
  {
    hide Pow;
    KeptRoom(sig, t, KeptEnd(t));
    KeptDigits(t);
    Capacity();
  }

  // ---- the digits after some place

  function RestNumber(t: Tail, n: nat, m: nat): nat
    requires n <= m <= |t.text|
    decreases m
  {
    if m == n then 0
    else if m - 1 == t.dot then RestNumber(t, n, m - 1)
    else 10 * RestNumber(t, n, m - 1) + Digit(t.text[m - 1])
  }

  lemma {:induction false} NumberFrom(sig: nat, t: Tail, n: nat, m: nat)
    requires n <= m <= |t.text|
    ensures Count(t, n) <= Count(t, m)
    ensures Number(sig, t, m) == Number(sig, t, n) * Pow(10, Count(t, m) - Count(t, n)) + RestNumber(t, n, m)
    ensures RestNumber(t, n, m) < Pow(10, Count(t, m) - Count(t, n))
    decreases m
  {
    if n < m {
      NumberFrom(sig, t, n, m - 1);
      if m - 1 != t.dot { TenTimes(Number(sig, t, n), Pow(10, Count(t, m - 1) - Count(t, n))); }
    }
  }

  lemma TenTimes(x: nat, p: nat)
    ensures x * (10 * p) == 10 * (x * p)
  {
  }

  lemma {:induction false} RestZero(t: Tail, n: nat, m: nat)
    requires n <= m <= |t.text| && IsTail(t)
    ensures RestNumber(t, n, m) == 0 <==> forall i | n <= i < m && i != t.dot :: t.text[i] == 48
    decreases m
  {
    if n < m { RestZero(t, n, m - 1); }
  }

  /** The number lies between its first digits and the next number of so many digits. */
  lemma FirstDigits(sig: nat, exp: int, t: Tail, n: nat)
    requires IsTail(t) && n <= |t.text|
    ensures Decimal(Number(sig, t, n), exp - Count(t, n)) <= TextValue(sig, exp, t) < Decimal(Number(sig, t, n) + 1,
        exp - Count(t, n))
    ensures TextValue(sig, exp, t) == Decimal(Number(sig, t, n), exp - Count(t, n)) <==> RestNumber(t, n, |t.text|) == 0
  {
    hide Pow, Decimal, Number, RestNumber, Count;
    var m := |t.text|;
    NumberFrom(sig, t, n, m);
    var (x, k, g) := (Number(sig, t, n), Count(t, m) - Count(t, n), exp - Count(t, m));
    DecimalShift(x, g, k);
    DecimalShift(x + 1, g, k);
    DecimalOrder(x * Pow(10, k), Number(sig, t, m), g);
    DecimalOrder(Number(sig, t, m), (x + 1) * Pow(10, k), g);
    assert (x + 1) * Pow(10, k) == x * Pow(10, k) + Pow(10, k);
  }

  // ---- the decision

  /** What follows the significand: nothing but zeros, or digits that were cut off. */
  datatype Rest = Whole | Cut(tail: Tail)

  predicate IsNumber(sig: u64, exp: int, rest: Rest) {
    && sig > 0 && -343 <= exp <= 308
    && (rest.Cut? ==> rest.tail.text != [] && Unrounded(sig, rest.tail) >= 1000000000000000000)
  }

  ghost predicate IsRest(rest: Rest) { rest.Cut? ==> IsTail(rest.tail) }

  /** The number in the text. */
  function Exact(sig: u64, exp: int, rest: Rest): real
    requires IsNumber(sig, exp, rest)
  {
    if rest.Whole? then Decimal(sig, exp) else TextValue(Unrounded(sig, rest.tail), exp, rest.tail)
  }

  function ReadSig(sig: u64, exp: int, rest: Rest): nat
    requires IsNumber(sig, exp, rest) && (rest.Cut? ==> 0 <= KeptEnd(rest.tail) <= |rest.tail.text|)
  {
    if rest.Whole? then sig else Written(Unrounded(sig, rest.tail), rest.tail)
  }

  function ReadExp(exp: int, rest: Rest): int { if rest.Whole? then exp else WrittenExp(exp, rest.tail) }

  /** The number that is compared. */
  function Compared(sig: u64, exp: int, rest: Rest): real
    requires IsNumber(sig, exp, rest) && (rest.Cut? ==> 0 <= KeptEnd(rest.tail) <= |rest.tail.text|)
  {
    Decimal(ReadSig(sig, exp, rest), ReadExp(exp, rest))
  }

  /** The digits dropped, from the last one kept on. */
  ghost predicate SomeDropped(t: Tail) {
    exists i | KeptEnd(t) - 1 <= i < |t.text| && i >= 0 && i != t.dot :: t.text[i] != 48
  }

  /** Nothing was dropped, or something other than zeros and not the decimal point. */
  ghost predicate Clean(rest: Rest) {
    rest.Whole? || !TooLong(rest.tail) || (!DotDropped(rest.tail) && SomeDropped(rest.tail))
  }

  /** The first 768 digits, the numbers around, and the one compared. */
  lemma Around(sig: nat, exp: int, t: Tail)
    requires IsTail(t) && TooLong(t) && !DotDropped(t) && sig >= 1000000000000000000
    ensures 0 <= KeptEnd(t) <= |t.text|
    ensures var (f, g) := (Number(sig, t, KeptEnd(t)) / 10, exp - 749);
      && f >= Pow(10, 767)
      && Decimal(f, g) <= TextValue(sig, exp, t) < Decimal(f + 1, g)
      && Decimal(f, g) < Decimal(Written(sig, t), WrittenExp(exp, t)) < Decimal(f + 1, g)
      && (TextValue(sig, exp, t) == Decimal(f, g) <==> !SomeDropped(t))
  {
    hide Pow, Decimal, Number, RestNumber, IsTail, TextValue;
    KeptDigits(t);
    var n := KeptEnd(t);
    var x := Number(sig, t, n);
    FirstDigits(sig, exp, t, n);
    var (f, d) := (x / 10, x % 10);
    Tenfold(f, exp - 750);
    Tenfold(f + 1, exp - 750);
    DecimalOrder(10 * f, x, exp - 750);
    DecimalOrder(x + 1, 10 * f + 10, exp - 750);
    DecimalOrder(10 * f, 10 * f + 1, exp - 750);
    DecimalOrder(10 * f + 1, 10 * f + 10, exp - 750);
    Leading768(sig, t);
    LastKept(sig, t);
  }

  lemma Tenfold(f: nat, g: int)
    ensures Decimal(f, g + 1) == Decimal(10 * f, g)
  {
    TenIs();
    DecimalShift(f, g, 1);
  }

  lemma Leading768(sig: nat, t: Tail)
    requires IsTail(t) && TooLong(t) && sig >= 1000000000000000000
    ensures 0 <= KeptEnd(t) <= |t.text| && Number(sig, t, KeptEnd(t)) / 10 >= Pow(10, 767)
  {
    hide Pow, Number, RestNumber;
    KeptDigits(t);
    var n := KeptEnd(t);
    var c := Count(t, n);
    NumberFrom(sig, t, 0, n);
    NumberNone(sig, t);
    Large(sig, c);
    TenthOf(Number(sig, t, n), Pow(10, 767));
  }

  lemma NumberNone(sig: nat, t: Tail)
    ensures Number(sig, t, 0) == sig && Count(t, 0) == 0
  {
  }

  lemma Large(sig: nat, c: nat)
    requires sig >= 1000000000000000000 && c >= 750
    ensures sig * Pow(10, c) >= 10 * Pow(10, 767)
  {
    TenIs();
    hide Pow;
    Pow10Grows(750, c);
    Times(Pow(10, 18), sig, Pow(10, 750), Pow(10, c));
    PowAdd(10, 18, 750);
    PowAdd(10, 1, 767);
  }

  lemma TenthOf(x: nat, y: nat)
    requires x >= 10 * y
    ensures x / 10 >= y
  {
  }

  /** Whether anything but zeros was dropped shows in the number. */
  lemma LastKept(sig: nat, t: Tail)
    requires IsTail(t) && TooLong(t)
    ensures 0 <= KeptEnd(t) <= |t.text|
    ensures SomeDropped(t) <==> Number(sig, t, KeptEnd(t)) % 10 != 0 || RestNumber(t, KeptEnd(t), |t.text|) != 0
  {
    KeptDigits(t);
    var n := KeptEnd(t);
    RestZero(t, n, |t.text|);
    DigitAt(t, n - 1);
    assert Number(sig, t, n) % 10 == t.text[n - 1] - 48;
  }

  /** With the decimal point dropped the number compared has the first 768 digits of ten times the
      number in the text. */
  lemma TenTooLarge(sig: nat, exp: int, t: Tail)
    requires IsTail(t) && DotDropped(t) && sig >= 1000000000000000000
    ensures 0 <= KeptEnd(t) <= |t.text|
    ensures var (f, g) := (Number(sig, t, KeptEnd(t)) / 10, exp - 749);
      && f >= Pow(10, 767)
      && Decimal(f, g) <= 10.0 * TextValue(sig, exp, t) < Decimal(f + 1, g)
      && Decimal(f, g) < Decimal(Written(sig, t), WrittenExp(exp, t)) < Decimal(f + 1, g)
  {
    hide Pow, Decimal, Number, RestNumber, IsTail, TextValue;
    KeptDigits(t);
    var x := Number(sig, t, KeptEnd(t));
    var f := x / 10;
    FirstDigits(sig, exp, t, KeptEnd(t));
    TenfoldReal(x, exp - 751);
    TenfoldReal(x + 1, exp - 751);
    Tenfold(f, exp - 750);
    Tenfold(f + 1, exp - 750);
    DecimalOrder(10 * f, x, exp - 750);
    DecimalOrder(x + 1, 10 * f + 10, exp - 750);
    DecimalOrder(10 * f, 10 * f + 1, exp - 750);
    DecimalOrder(10 * f + 1, 10 * f + 10, exp - 750);
    Leading768(sig, t);
  }

  lemma TenfoldReal(x: nat, g: int)
    ensures 10.0 * Decimal(x, g) == Decimal(x, g + 1)
  {
    R10Next(g);
    hide R10;
    assert x as real * (10.0 * R10(g)) == 10.0 * (x as real * R10(g));
  }

  /** So it compares as that does, but for a tenth of a halfway point. */
  lemma TenDecides(sig: nat, exp: int, t: Tail, raw: int)
    requires IsTail(t) && DotDropped(t) && sig >= 1000000000000000000 && 0 <= raw < RawInf
    ensures 0 <= KeptEnd(t) <= |t.text|
    ensures var x := Decimal(Written(sig, t), WrittenExp(exp, t));
      x != Halfway(raw) && (x > Halfway(raw) <==> 10.0 * TextValue(sig, exp, t) >= Halfway(raw))
    ensures TextValue(sig, exp, t) > 0.0
  {
    hide Pow, Decimal, Number, RestNumber, IsTail, TextValue, Dyadic;
    TenTooLarge(sig, exp, t);
    NextDouble(raw);
    Gap(HalfSig(raw), HalfExp(raw), Number(sig, t, KeptEnd(t)) / 10, exp - 749);
    DecimalPositive(Number(sig, t, KeptEnd(t)) / 10, exp - 749);
  }

  lemma Associate(a: real, b: real, c: real)
    ensures a * (b * c) == a * b * c
  {
  }

  lemma DecimalPositive(x: nat, g: int)
    requires x > 0
    ensures Decimal(x, g) > 0.0
  {
    hide R10;
    Strict(0.0, x as real, R10(g));
  }

  /** The digits kept decide as all of them do, but for numbers exactly halfway. */
  lemma KeptDecide(sig: nat, exp: int, t: Tail, raw: int)
    requires IsTail(t) && TooLong(t) && !DotDropped(t) && sig >= 1000000000000000000 && 0 <= raw < RawInf
    ensures 0 <= KeptEnd(t) <= |t.text|
    ensures var (v, x) := (TextValue(sig, exp, t), Decimal(Written(sig, t), WrittenExp(exp, t)));
      (v != Halfway(raw) ==> (x > Halfway(raw) <==> v > Halfway(raw)))
        && (v == Halfway(raw) ==> x > Halfway(raw) && !SomeDropped(t)) && x != Halfway(raw)
  {
    hide Pow, Decimal, Number, RestNumber, IsTail, TextValue, Dyadic;
    Around(sig, exp, t);
    NextDouble(raw);
    Gap(HalfSig(raw), HalfExp(raw), Number(sig, t, KeptEnd(t)) / 10, exp - 749);
  }

  /** The decision is the correctly rounded double exactly when nothing was dropped, or something
      that shows, or the number is above halfway, or halfway and rounded up in any case; and below
      halfway with the decimal point kept, or when even ten times the number is below. */
  lemma SlowPath(sig: u64, exp: int, rest: Rest, raw: int)
    requires IsNumber(sig, exp, rest) && IsRest(rest) && Between(Exact(sig, exp, rest), raw)
    ensures rest.Cut? ==> 0 <= KeptEnd(rest.tail) <= |rest.tail.text|
    ensures var (v, h) := (Exact(sig, exp, rest), Halfway(raw));
      NearestEven(v, Decided(Compared(sig, exp, rest), raw)) <==>
        || Clean(rest)
        || v > h || (v == h && raw % 2 == 1)
        || (v < h && (!DotDropped(rest.tail) || 10.0 * v < h))
  {
    hide Decimal, Written, WrittenExp, TextValue, IsTail, NearestEven, Between, Halfway, DotDropped, SomeDropped;
    var v := Exact(sig, exp, rest);
    if rest.Cut? { KeptDigits(rest.tail); }
    DecidedIsNearest(v, raw, Decided(Compared(sig, exp, rest), raw));
    RawRange(v, raw);
    if rest.Cut? {
      var s := Unrounded(sig, rest.tail);
      if !TooLong(rest.tail) {
        ShortIs(s, exp, rest.tail);
      } else if DotDropped(rest.tail) {
        TenDecides(s, exp, rest.tail, raw);
      } else {
        KeptDecide(s, exp, rest.tail, raw);
      }
    }
  }

  lemma RawRange(v: real, raw: int)
    requires Between(v, raw)
    ensures 0 <= raw < RawInf
  {
  }

  lemma ShortIs(sig: nat, exp: int, t: Tail)
    requires !TooLong(t)
    ensures KeptEnd(t) == |t.text| && Decimal(Written(sig, t), WrittenExp(exp, t)) == TextValue(sig, exp, t)
        && !DotDropped(t)
  {
  }

  // ---- room in the big integers

  lemma RoomPow2(s: seq<u64>, j: nat)
    requires 1 <= |s| <= 64 && Normal(s) && Value(s) > 0 && Mul(Value(s), Pow(2, j)) < Pow(2, 4032)
    ensures |s| + j / 64 < 64
  {
    ChunkBounds(s);
    Capacity();
    Chunk64();
    hide Pow, Value;
    var (n, k) := (|s| - 1, j / 64);
    if n > 0 {
      PowMul(2, 64, n);
    }
    PowMul(2, 64, k);
    Pow2Grows(64 * k, j);
    var low := if n == 0 then 1 else Pow(2, 64 * n);
    OneIs();
    assert low <= Value(s) && low == Pow(2, 64 * n);
    Times(low, Value(s), Pow(2, 64 * k), Pow(2, j));
    PowAdd(2, 64 * n, 64 * k);
    if n + k >= 63 { Pow2Grows(4032, 64 * n + 64 * k); }
  }

  lemma OneIs()
    ensures Pow(2, 0) == 1 && Pow(10, 0) == 1
  {
  }

  /** The compared number, multiplied out. */
  lemma FullRoom(sig: u64, exp: int, rest: Rest)
    requires IsNumber(sig, exp, rest) && IsRest(rest)
    ensures rest.Cut? ==> 0 <= KeptEnd(rest.tail) <= |rest.tail.text|
    ensures var (r, e) := (ReadSig(sig, exp, rest), ReadExp(exp, rest));
      r > 0 && -1093 <= e <= 308 && 0 <= Mul(r, Pow(10, Plus(e))) < Pow(10, 771)
  {
    hide Pow, Number, IsTail, KeptEnd, Written, WrittenExp, Count;
    Capacity();
    OneIs();
    if rest.Whole? {
      Raised(sig, 20, exp);
    } else {
      var (s, t) := (Unrounded(sig, rest.tail), rest.tail);
      var c := WrittenBound(s, exp, t);
      Raised(Written(s, t), 20 + c, WrittenExp(exp, t));
    }
  }

  lemma WrittenBound(sig: nat, exp: int, t: Tail) returns (c: nat)
    requires IsTail(t) && sig >= 1000000000000000000 && sig < B64 && -343 <= exp <= 308
    ensures 0 <= KeptEnd(t) <= |t.text| && 0 < Written(sig, t) < Pow(10, 20 + c) && c <= 751
    ensures exp - c <= WrittenExp(exp, t) <= exp - c + 1 && -1093 <= WrittenExp(exp, t) <= 308
  {
    hide Pow, Number;
    KeptDigits(t);
    Capacity();
    c := Count(t, KeptEnd(t));
    var n := Number(sig, t, KeptEnd(t));
    NumberBound(sig, t, KeptEnd(t));
    NumberPositive(sig, t, KeptEnd(t));
    PowAdd(10, 1, 19 + c);
    TenIs();
    TenBound(n, Pow(10, 19 + c));
  }

  lemma TenBound(n: nat, p: nat)
    requires n < 10 * p
    ensures n / 10 * 10 + 1 < 10 * p
  {
  }

  lemma {:induction false} NumberPositive(sig: nat, t: Tail, n: nat)
    requires sig > 0 && n <= |t.text|
    ensures Number(sig, t, n) > 0
  {
    if n > 0 { NumberPositive(sig, t, n - 1); }
  }

  lemma Raised(r: nat, d: nat, e: int)
    requires 0 < r < Pow(10, d) && d <= 771 && d + e <= 771
    ensures 0 <= Mul(r, Pow(10, if e > 0 then e else 0)) < Pow(10, 771)
  {
    OneIs();
    hide Pow;
    if e > 0 {
      PowAdd(10, d, e);
      Pow10Grows(d + e, 771);
      MulLess(r, Pow(10, d), Pow(10, e));
    } else {
      Pow10Grows(d, 771);
      OneTimes(r);
    }
  }

  /** The halfway point, multiplied out. */
  lemma CompRoom(sig: u64, exp: int, rest: Rest, raw: int)
    requires IsNumber(sig, exp, rest) && IsRest(rest) && Between(Exact(sig, exp, rest), raw)
    ensures rest.Cut? ==> 0 <= KeptEnd(rest.tail) <= |rest.tail.text|
    ensures var (m, q, e) := (HalfSig(raw), HalfExp(raw), ReadExp(exp, rest));
      0 < m < B64 && -1075 <= q <= 970 && 0 <= Mul(m, Pow(10, Minus(e)))
        && Mul(Mul(m, Pow(10, Minus(e))), Pow(2, Plus(q))) < Pow(2, 4032)
  {
    hide Pow, IsTail, KeptEnd, WrittenExp, TextValue, Written, Dyadic, Decimal;
    FullRoom(sig, exp, rest);
    var e := ReadExp(exp, rest);
    var v := Exact(sig, exp, rest);
    RawRange(v, raw);
    NextDouble(raw);
    Pow54();
    OneIs();
    var (m, q) := (HalfSig(raw), HalfExp(raw));
    if e >= 0 {
      OneTimes(m);
      Grown(m, q);
    } else if q <= 0 {
      RootAbove2(-e);
      OneTimes(Mul(m, Pow(10, -e)));
      MulLess(m, Pow(2, 54), Pow(10, -e));
      TimesStrict(Pow(2, 54), Pow(10, -e), Pow(2, 3631));
      PowAdd(2, 54, 3631);
      Pow2More(3685, 4032);
    } else {
      ExactBound(sig, exp, rest);
      BothScales(v, raw, ReadSig(sig, exp, rest), e);
    }
  }

  lemma RootAbove2(b: nat)
    requires b <= 1093
    ensures Pow(10, b) < Pow(2, 3631)
  {
    hide Pow;
    LogBelow();
    RootAbove(3631, 1093, 1166, 351);
    Pow10Grows(b, 1093);
  }

  lemma Grown(m: nat, q: int)
    requires 0 < m < Pow(2, 54) && q <= 970
    ensures Mul(m, Pow(2, if q > 0 then q else 0)) < Pow(2, 4032)
  {
    OneIs();
    hide Pow;
    var i := if q > 0 then q else 0;
    MulLess(m, Pow(2, 54), Pow(2, i));
    PowAdd(2, 54, i);
    Pow2More(54 + i, 4032);
  }

  /** The number in the text is no more than the one compared with its last digit raised. */
  lemma ExactBound(sig: u64, exp: int, rest: Rest)
    requires IsNumber(sig, exp, rest) && IsRest(rest)
    ensures rest.Cut? ==> 0 <= KeptEnd(rest.tail) <= |rest.tail.text|
    ensures Exact(sig, exp, rest) < Decimal(ReadSig(sig, exp, rest) + 9, ReadExp(exp, rest))
  {
    hide Decimal, TextValue, IsTail, Number;
    if rest.Whole? {
      DecimalOrder(sig, sig + 9, exp);
    } else {
      var (s, t) := (Unrounded(sig, rest.tail), rest.tail);
      KeptDigits(t);
      var n := Number(s, t, KeptEnd(t));
      FirstDigits(s, exp, t, KeptEnd(t));
      var g := exp - Count(t, KeptEnd(t));
      DecimalOrder(n + 1, Written(s, t) + 9, g);
      if DotDropped(t) {
        Tenfold(Written(s, t) + 9, g);
        DecimalOrder(Written(s, t) + 9, 10 * (Written(s, t) + 9), g);
      }
    }
  }

  /** With a positive binary and a negative decimal exponent the halfway point is at most twice
      the number. */
  lemma BothScales(v: real, raw: int, r: nat, e: int)
    requires Between(v, raw) && HalfExp(raw) > 0 && -1093 <= e < 0
    requires v < Decimal(r + 9, e) && r < Pow(10, 771)
    ensures Mul(Mul(HalfSig(raw), Pow(10, -e)), Pow(2, HalfExp(raw))) < Pow(2, 4032)
  {
    hide Pow, Decimal, Dyadic;
    var (m, q, b) := (HalfSig(raw), HalfExp(raw), -e);
    HalfwayBelow(v, raw);
    HalfwayDecimal(m, q);
    var a := m * Pow(2, q);
    DecimalShift(a, e, b);
    TwiceDecimal(r + 9, e);
    DecimalOrder(a * Pow(10, b), 2 * (r + 9), e);
    Capacity();
    TenIs();
    Pow10Grows(20, 771);
    PowAdd(2, 2, 2562);
    SmallPowers();
    Pow2More(2564, 4032);
    Scales(m, Pow(2, q), Pow(10, b));
  }

  lemma Scales(m: nat, p: nat, t: nat)
    ensures Mul(Mul(m, t), p) == m * p * t
  {
    assert m * t * p == m * p * t;
  }

  lemma TwiceDecimal(x: nat, g: int)
    ensures 2.0 * Decimal(x, g) == Decimal(2 * x, g)
  {
    hide R10;
    Regroup(2, x, R10(g));
    Associate(2.0, x as real, R10(g));
  }

  lemma HalfwayBelow(v: real, raw: int)
    requires Between(v, raw) && HalfExp(raw) > 0
    ensures Dyadic(HalfSig(raw), HalfExp(raw)) <= 2.0 * v
  {
    var (c, b) := (RawSig(raw), RawExp(raw));
    NextDouble(raw);
    Double(c, b - 1);
    Half(2 * c, b - 1);
    Grow(2 * c + 1, 2 * (2 * c), b - 1);
  }

  // ---- comparing across the scales

  function Plus(e: int): nat { if e > 0 then e else 0 }
  function Minus(e: int): nat { if e < 0 then -e else 0 }

  lemma Unscale10(r: nat, e: int)
    ensures Decimal(r, e) * Pow(10, Minus(e)) as real == Mul(r, Pow(10, Plus(e))) as real
  {
    OneIs();
    hide Pow;
    if e < 0 { Inverse(r as real, Pow(10, -e) as real); }
  }

  lemma Unscale2(m: nat, q: int)
    ensures Dyadic(m, q) * Pow(2, Minus(q)) as real == Mul(m, Pow(2, Plus(q))) as real
  {
    OneIs();
    hide Pow;
    if q < 0 { Inverse(m as real, Pow(2, -q) as real); }
  }

  lemma Inverse(x: real, p: real)
    requires p > 0.0
    ensures x * (1.0 / p) * p == x
  {
    assert (1.0 / p) * p == 1.0;
    Associate(x, 1.0 / p, p);
  }

  lemma Compare(r: nat, e: int, m: nat, q: int)
    ensures var full := Mul(Mul(r, Pow(10, Plus(e))), Pow(2, Minus(q)));
      var comp := Mul(Mul(m, Pow(10, Minus(e))), Pow(2, Plus(q)));
      && (full < comp <==> Decimal(r, e) < Dyadic(m, q)) && (full > comp <==> Decimal(r, e) > Dyadic(m, q))
  {
    hide Pow, Decimal, Dyadic;
    Unscale10(r, e);
    Unscale2(m, q);
    CrossScale(Decimal(r, e), Dyadic(m, q), Pow(10, Minus(e)), Pow(2, Minus(q)), Mul(r, Pow(10, Plus(e))),
        Mul(m, Pow(2, Plus(q))));
    Scales(m, Pow(2, Plus(q)), Pow(10, Minus(e)));
    Flip(m * Pow(2, Plus(q)), Pow(10, Minus(e)));
  }

  lemma Flip(x: nat, y: nat)
    ensures x * y == Mul(y, x)
  {
  }

  lemma CrossScale(x: real, y: real, s: nat, t: nat, a: int, b: int)
    requires s > 0 && t > 0 && x * s as real == a as real && y * t as real == b as real
    ensures Mul(a, t) < Mul(s, b) <==> x < y
    ensures Mul(a, t) > Mul(s, b) <==> x > y
  {
    var z := s as real * t as real;
    assert z > 0.0;
    Both(x, s as real, t as real, a as real);
    Both2(y, s as real, t as real, b as real);
    assert Mul(a, t) as real == a as real * t as real && Mul(s, b) as real == s as real * b as real;
    if x < y { Strict(x, y, z); } else if y < x { Strict(y, x, z); }
  }

  lemma Both(x: real, s: real, t: real, a: real)
    requires x * s == a
    ensures x * (s * t) == a * t
  {
    Associate(x, s, t);
  }

  lemma Both2(y: real, s: real, t: real, b: real)
    requires y * t == b
    ensures y * (s * t) == s * b
  {
    assert y * (s * t) == s * (y * t);
  }

  /** The last step of the slow path: raw is the number's double or the one below it. */
  method Decide(sig: u64, exp: int, rest: Rest, raw: u64) returns (r: int)
    requires IsNumber(sig, exp, rest) && IsRest(rest) && Between(Exact(sig, exp, rest), raw)
    ensures rest.Cut? ==> 0 <= KeptEnd(rest.tail) <= |rest.tail.text|
    ensures r == Decided(Compared(sig, exp, rest), raw)
  {
    hide Pow, Mul, Decimal, Dyadic, Value, Normal, IsRest, Between, Exact, KeptEnd, Written, WrittenExp, ReadSig,
        ReadExp;
    FullRoom(sig, exp, rest);
    CompRoom(sig, exp, rest, raw);
    ghost var (n, e, m, q) := (ReadSig(sig, exp, rest), ReadExp(exp, rest), HalfSig(raw), HalfExp(raw));
    var field := raw / 0x10_0000_0000_0000 % 0x800;
    RawRange(Exact(sig, exp, rest), raw);
    var upperSig := raw % 0x10_0000_0000_0000 + (if field != 0 then 0x10_0000_0000_0000 else 0);
    var upperExp := (if field != 0 then field else 1) - (1023 + 52);
    upperSig := 2 * upperSig;
    upperExp := upperExp - 1;
    upperSig := upperSig + 1;
    assert upperSig == m && upperExp == q;
    var full := new BigInt(0);
    var comp := new BigInt(0);
    var exp' := ReadBig(full, sig, exp, rest);
    comp.SetU64(upperSig);
    Scaling(full, comp, exp', upperExp);
    var cmp := full.Cmp(comp);
    Compare(n, e, m, q);
    if cmp != 0 {
      r := raw + (if cmp > 0 then 1 else 0);
    } else {
      r := raw + raw % 2;
    }
  }

  method ReadBig(full: BigInt, sig: u64, exp: int, rest: Rest) returns (exp': int)
    requires full.Valid() && IsNumber(sig, exp, rest) && IsRest(rest)
    modifies full, full.bits
    ensures full.Valid() && Normal(full.Chunks())
    ensures rest.Cut? ==> 0 <= KeptEnd(rest.tail) <= |rest.tail.text|
    ensures full.Num() == ReadSig(sig, exp, rest) && exp' == ReadExp(exp, rest)
  {
    if rest.Cut? {
      exp' := SetBuf(full, sig, exp, rest.tail);
    } else {
      full.SetU64(sig);
      exp' := exp;
    }
  }

  method Scaling(full: BigInt, comp: BigInt, e: int, q: int)
    requires full.Valid() && comp.Valid() && full != comp && full.bits != comp.bits
    requires Normal(full.Chunks()) && Normal(comp.Chunks()) && full.Num() > 0 && comp.Num() > 0 && -1075 <= q
    requires 0 <= Mul(full.Num(), Pow(10, Plus(e))) < Pow(10, 771)
    requires 0 <= Mul(comp.Num(), Pow(10, Minus(e)))
        && Mul(Mul(comp.Num(), Pow(10, Minus(e))), Pow(2, Plus(q))) < Pow(2, 4032)
    modifies full, full.bits, comp, comp.bits
    ensures full.Valid() && comp.Valid() && Normal(full.Chunks()) && Normal(comp.Chunks())
    ensures full.Num() == Mul(Mul(old(full.Num()), Pow(10, Plus(e))), Pow(2, Minus(q)))
    ensures comp.Num() == Mul(Mul(old(comp.Num()), Pow(10, Minus(e))), Pow(2, Plus(q)))
  {
    hide Pow, Mul, Value, Normal;
    ghost var (x, y) := (full.Num(), comp.Num());
    Bounds(x, y, e, q);
    OneTimes(x);
    OneTimes(y);
    if e >= 0 { full.MulPow10(e); } else { comp.MulPow10(-e); }
    if q > 0 {
      RoomPow2(comp.Chunks(), q);
      comp.MulPow2(q);
      OneTimes(full.Num());
    } else {
      RoomPow2(full.Chunks(), -q);
      full.MulPow2(-q);
      OneTimes(comp.Num());
    }
  }

  lemma Bounds(x: nat, y: nat, e: int, q: int)
    requires x > 0 && y > 0 && -1075 <= q
    requires 0 <= Mul(x, Pow(10, Plus(e))) < Pow(10, 771)
    requires 0 <= Mul(y, Pow(10, Minus(e))) && Mul(Mul(y, Pow(10, Minus(e))), Pow(2, Plus(q))) < Pow(2, 4032)
    ensures 0 < Mul(x, Pow(10, Plus(e))) < Pow(B64, 64) && 0 < Mul(y, Pow(10, Minus(e))) < Pow(B64, 64)
    ensures Mul(Mul(x, Pow(10, Plus(e))), Pow(2, Minus(q))) < Pow(2, 4032)
  {
    hide Pow;
    Capacity();
    Times(1, x, 1, Pow(10, Plus(e)));
    Times(1, y, 1, Pow(10, Minus(e)));
    Times(Mul(y, Pow(10, Minus(e))), Mul(y, Pow(10, Minus(e))), 1, Pow(2, Plus(q)));
    Pow2More(4032, 4096);
    MulLess(Mul(x, Pow(10, Plus(e))), Pow(2, 2562), Pow(2, Minus(q)));
    PowAdd(2, 2562, Minus(q));
    Pow2More(2562 + Minus(q), 4032);
  }

  // ---- two numbers that come out wrong

  /** 18446744073709553664. followed by so many zeros, which is halfway between 2^64 and the next
      double. */
  function Zeros8(n: nat): (z: seq<u8>)
    ensures |z| == n && forall i | 0 <= i < n :: z[i] == 48
  {
    if n == 0 then [] else [48] + Zeros8(n - 1)
  }

  function Nines8(n: nat): (z: seq<u8>)
    ensures |z| == n && forall i | 0 <= i < n :: z[i] == 57
  {
    if n == 0 then [] else [57] + Nines8(n - 1)
  }

  const TwoTo64: u64 := 0x43f0_0000_0000_0000

  function TrailingZeros(): Rest { Cut(Tail([52, 46] + Zeros8(749), 1)) }

  /** 18446744073709553663 followed by 750 nines, a decimal point and a five, times 10^-750. */
  function LongInteger(): Rest { Cut(Tail([51] + Nines8(750) + [46, 53], 751)) }

  const First19: u64 := 1844674407370955366

  lemma HalfwayAbove64()
    ensures Halfway(TwoTo64) == Decimal(18446744073709553664, 0)
    ensures DoubleOf(TwoTo64) == Decimal(18446744073709551616, 0)
        && DoubleOf(TwoTo64 + 1) == Decimal(18446744073709555712, 0)
  {
    hide Pow;
    NextDouble(TwoTo64);
    OneIs();
    Pow11();
    Shift(0x20_0000_0000_0001, 0, 11);
    Shift(0x10_0000_0000_0000, 0, 12);
    Shift(0x10_0000_0000_0001, 0, 12);
  }

  lemma Pow11()
    ensures Pow(2, 11) == 2048 && Pow(2, 12) == 4096
  {
  }

  lemma ZerosWrong()
    ensures var rest := TrailingZeros();
      && IsNumber(First19, 1, rest) && IsRest(rest) && Between(Exact(First19, 1, rest), TwoTo64)
      && DoubleOf(TwoTo64) < Exact(First19, 1, rest) < DoubleOf(TwoTo64 + 1)
      && 0 <= KeptEnd(rest.tail) <= |rest.tail.text|
      && !NearestEven(Exact(First19, 1, rest), Decided(Compared(First19, 1, rest), TwoTo64))
  {
    hide Decimal, Dyadic, Halfway, DoubleOf, NearestEven, Pow, RestNumber, Number;
    var t := TrailingZeros().tail;
    HalfwayAbove64();
    FirstDigits(First19, 1, t, 1);
    RestZero(t, 1, |t.text|);
    OneDigit(First19, t, 52);
    DecimalOrder(18446744073709551616, 18446744073709553664, 0);
    DecimalOrder(18446744073709553664, 18446744073709555712, 0);
    SlowPath(First19, 1, Cut(t), TwoTo64);
    KeptDigits(t);
    assert !SomeDropped(t);
  }

  lemma OneDigit(sig: nat, t: Tail, c: u8)
    requires t.text != [] && t.text[0] == c && 48 <= c <= 57 && t.dot > 0
    ensures Number(sig, t, 1) == 10 * sig + (c - 48) && Count(t, 1) == 1
  {
    assert Number(sig, t, 0) == sig;
  }

  lemma LongWrong()
    ensures var rest := LongInteger();
      && IsNumber(First19, 1, rest) && IsRest(rest) && Between(Exact(First19, 1, rest), TwoTo64)
      && DoubleOf(TwoTo64) < Exact(First19, 1, rest) < DoubleOf(TwoTo64 + 1)
      && 0 <= KeptEnd(rest.tail) <= |rest.tail.text|
      && !NearestEven(Exact(First19, 1, rest), Decided(Compared(First19, 1, rest), TwoTo64))
  {
    hide Decimal, Dyadic, Halfway, DoubleOf, NearestEven, Pow, RestNumber, Number;
    var t := LongInteger().tail;
    HalfwayAbove64();
    FirstDigits(First19, 1, t, 1);
    OneDigit(First19, t, 51);
    DecimalOrder(18446744073709551616, 18446744073709553663, 0);
    DecimalOrder(18446744073709553664, 18446744073709555712, 0);
    DecimalOrder(18446744073709553663, 18446744073709553664, 0);
    DecimalPositive(18446744073709553663, 0);
    TenfoldReal(18446744073709553663, 0);
    Tenfold(18446744073709553663, 0);
    DecimalOrder(18446744073709553664, 10 * 18446744073709553663, 0);
    SlowPath(First19, 1, Cut(t), TwoTo64);
    KeptDigits(t);
    assert DotDropped(t);
  }
}
