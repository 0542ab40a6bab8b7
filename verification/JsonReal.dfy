/** The first part of read_number for reals: from the text of a number to its significand, its
    exponent and the digits that were cut off, with the value of the text throughout. */
module JsonReal {
  import opened Bytes
  import opened Options
  import opened Powers
  import opened JsonPowers
  import opened JsonRound
  import opened JsonHalfway
  import opened JsonSlow
  import opened JsonNumber
  import JsonBig

  // ---- the value of a token

  /** The number made of the digits from a to b, passing over the decimal point at dot. */
  function Digs(s: seq<u8>, a: nat, b: nat, dot: int): nat
    requires a <= b
    decreases b
  {
    if b == a then 0
    else if b - 1 == dot then Digs(s, a, b - 1, dot)
    else 10 * Digs(s, a, b - 1, dot) + Digit(At(s, b - 1))
  }

  /** How many digits there are. */
  function Places(a: nat, b: nat, dot: int): (n: int)
    requires a <= b
    ensures 0 <= n <= b - a
  {
    if a <= dot < b then b - a - 1 else b - a
  }

  /** The end of the digits that begin at d, when their integer part ends at j. */
  function DigitsEnd(s: seq<u8>, j: nat): (k: nat)
    ensures j <= k
  {
    if IsDot(At(s, j)) then Run(s, j + 1) else j
  }

  /** The exponent written at k, or zero. */
  function ExpValue(s: seq<u8>, k: nat): int {
    if !IsExp(At(s, k)) then 0
    else
      var m := if IsSign(At(s, k + 1)) then k + 2 else k + 1;
      var x: int := Digs(s, m, Run(s, m), -1);
      if At(s, k + 1) == 45 then -x else x
  }

  /** What the number at d means: its digits, with as many of them behind the point as there are. */
  function TokenReal(s: seq<u8>, d: nat): real {
    var j := Run(s, d);
    var k := DigitsEnd(s, j);
    Decimal(Digs(s, d, k, j), ExpValue(s, k) - Behind(j, k))
  }

  function Behind(j: nat, k: nat): nat
    requires j <= k
  {
    if j < k then k - j - 1 else 0
  }

  // ---- digits

  lemma {:induction false} DigsSplit(s: seq<u8>, a: nat, m: nat, b: nat, dot: int)
    requires a <= m <= b
    ensures Digs(s, a, b, dot) == Digs(s, a, m, dot) * Pow(10, Places(m, b, dot)) + Digs(s, m, b, dot)
    ensures Digs(s, m, b, dot) < Pow(10, Places(m, b, dot))
    decreases b
  {
    if m < b {
      DigsSplit(s, a, m, b - 1, dot);
      if b - 1 != dot { TenTimes(Digs(s, a, m, dot), Pow(10, Places(m, b - 1, dot))); }
    }
  }

  lemma {:induction false} DigsZero(s: seq<u8>, a: nat, b: nat, dot: int)
    requires a <= b && forall i | a <= i < b && i != dot :: At(s, i) == 48
    ensures Digs(s, a, b, dot) == 0
    decreases b
  {
    if a < b { DigsZero(s, a, b - 1, dot); }
  }

  /** Leading zeros do not matter. */
  lemma DropZeros(s: seq<u8>, a: nat, m: nat, b: nat, dot: int)
    requires a <= m <= b && forall i | a <= i < m && i != dot :: At(s, i) == 48
    ensures Digs(s, a, b, dot) == Digs(s, m, b, dot)
  {
    hide Digs, Pow;
    DigsSplit(s, a, m, b, dot);
    DigsZero(s, a, m, dot);
  }

  lemma DigsStep(s: seq<u8>, a: nat, b: nat, dot: int)
    requires a <= b
    ensures Digs(s, a, b + 1, dot) == if b == dot then Digs(s, a, b, dot) else 10 * Digs(s, a, b, dot) + Digit(At(s, b))
    ensures Digs(s, a, a, dot) == 0
  {
  }

  /** The tail of the digits continues their number. */
  lemma {:induction false} NumberIsDigs(s: seq<u8>, a: nat, c: nat, e: nat, dot: int, n: nat)
    requires a <= c <= e <= |s| && n <= e - c
    ensures Number(Digs(s, a, c, dot), Tail(s[c..e], dot - c), n) == Digs(s, a, c + n, dot)
    decreases n
  {
    if n > 0 { NumberIsDigs(s, a, c, e, dot, n - 1); }
  }

  /** Digits above zero. */
  lemma FirstNonzero(s: seq<u8>, a: nat, b: nat, dot: int)
    requires a < b && a != dot && 49 <= At(s, a) <= 57
    ensures Digs(s, a, b, dot) >= Pow(10, Places(a, b, dot) - 1)
  {
    DigsSplit(s, a, a + 1, b, dot);
    DigsStep(s, a, a, dot);
    hide Digs, Pow;
    Times(1, Digs(s, a, a + 1, dot), Pow(10, Places(a + 1, b, dot)), Pow(10, Places(a + 1, b, dot)));
  }

  // ---- the exponent

  datatype Exponent = BadExponent | Under | Over | Fine(exp: int)

  /** |s| is far below the largest exponent written with nineteen digits. */
  const TextLimit := 100000000000000000

  lemma TextLimitIs()
    ensures Pow(10, 17) == TextLimit && Pow(10, 18) == 10 * TextLimit
  {
    JsonBig.TableIsPowers(17);
    JsonBig.TableIsPowers(18);
  }

  /** The digits of an exponent: their value, unless there are nineteen of them behind zeros. */
  method ReadLiteral(buf: array<u8>, ghost s: seq<u8>, m: nat) returns (lit: int, long: bool)
    requires Unread(buf, s, m) && m <= |s|
    ensures if long then Digs(s, m, Run(s, m), -1) >= 10 * TextLimit else lit == Digs(s, m, Run(s, m), -1)
  {
    hide Digs, Run;
    var cur := m;
    while buf[cur] == 48
      invariant m <= cur <= |s| && Run(s, cur) == Run(s, m) && forall i | m <= i < cur :: At(s, i) == 48
      decreases |s| - cur
    {
      RunIs(s, cur, cur + 1);
      cur := cur + 1;
    }
    var tmp := cur;
    DigsZero(s, m, tmp, -1);
    lit := 0;
    while IsDigit(buf[cur])
      invariant tmp <= cur <= |s| && Run(s, cur) == Run(s, m) && lit == Digs(s, m, cur, -1)
      invariant cur > tmp ==> 49 <= At(s, tmp) <= 57
      decreases |s| - cur
    {
      DigsStep(s, m, cur, -1);
      RunIs(s, cur, cur + 1);
      lit := lit * 10 + (buf[cur] - 48);
      cur := cur + 1;
    }
    RunIs(s, cur, cur);
    assert Run(s, cur) == cur by { RunStops(s, cur); }
    long := cur - tmp >= 19;
    if long { LongLiteral(s, m, tmp, cur); }
  }

  lemma RunStops(s: seq<u8>, i: nat)
    requires !IsDigit(At(s, i))
    ensures Run(s, i) == i
  {
  }

  /** The exponent part at k, added to what the digits gave. */
  method ReadExponent(buf: array<u8>, ghost s: seq<u8>, k: nat, expSig: int) returns (r: Exponent)
    requires Unread(buf, s, k) && k <= |s| < TextLimit && -|s| <= expSig <= |s|
    ensures r.BadExponent? <==> ExpEnd(s, k).None?
    ensures r.Under? ==> expSig + ExpValue(s, k) < -343
    ensures r.Over? ==> expSig + ExpValue(s, k) > 308
    ensures r.Fine? ==> r.exp == expSig + ExpValue(s, k) && -343 <= r.exp <= 308
  {
    hide Digs, Run;
    var lit, long := 0, false;
    if IsExp(buf[k]) {
      var neg := buf[k + 1] == 45;
      var m := if IsSign(buf[k + 1]) then k + 2 else k + 1;
      if !IsDigit(buf[m]) { return BadExponent; }
      lit, long := ReadLiteral(buf, s, m);
      if long { return if neg then Under else Over; }
      if neg { lit := -lit; }
    }
    var exp := expSig + lit;
    if exp < -343 { return Under; }
    if exp > 308 { return Over; }
    return Fine(exp);
  }

  /** Nineteen digits after the zeros are at least 10^18. */
  lemma LongLiteral(s: seq<u8>, m: nat, tmp: nat, cur: nat)
    requires m <= tmp && tmp + 19 <= cur && 49 <= At(s, tmp) <= 57 && forall i | m <= i < tmp :: At(s, i) == 48
    ensures Digs(s, m, cur, -1) >= 10 * TextLimit
  {
    hide Digs, Pow;
    DropZeros(s, m, tmp, cur, -1);
    FirstNonzero(s, tmp, cur, -1);
    TextLimitIs();
    Pow10Grows(18, cur - tmp - 1);
  }

  // ---- magnitudes

  /** Nineteen digits with an exponent below -343 are less than half the smallest double. */
  lemma TooSmall(v: real, sig: nat, e: int)
    requires sig < Pow(10, 19) && v < Decimal(sig + 1, e) && e < -343
    ensures v < Halfway(0)
  {
    hide Decimal, Pow, Halfway;
    var n := -325 - e;
    Pow10Grows(19, n);
    DecimalShift(1, e, n);
    DecimalOrder(sig + 1, Pow(10, n) + 1, e);
    DecimalOrder(sig + 1, Pow(10, n), e);
    SmallPowerOfTen();
  }

  lemma SmallPowerOfTen()
    ensures Decimal(1, -325) < Halfway(0)
  {
    hide Pow, R2, R10;
    LogAbove();
    RootBelow(1075, 325, 485, 146);
    Reciprocal(Pow(2, 1075), Pow(10, 325));
    OneTenth(325);
    OneHalf(1075);
    hide Decimal, Dyadic;
    assert Halfway(0) == Dyadic(1, -1075);
  }

  lemma OneTenth(n: nat)
    requires n > 0
    ensures Decimal(1, 0 - n) == 1.0 / Pow(10, n) as real
  {
  }

  lemma OneHalf(n: nat)
    requires n > 0
    ensures Dyadic(1, 0 - n) == 1.0 / Pow(2, n) as real
  {
  }

  /** A digit with an exponent above 308 is beyond the largest double. */
  lemma TooLarge(v: real, sig: nat, e: int)
    requires sig > 0 && v >= Decimal(sig, e) && e > 308
    ensures v > Halfway(RawInf - 1)
  {
    hide Pow, R10, R2;
    LogAbove();
    Pow54();
    RootBelow(1024, 309, 485, 146);
    Pow10Grows(309, e);
    DecimalShift(sig, 0, e);
    Shift(0x3f_ffff_ffff_ffff, 0, 970);
    PowAdd(2, 54, 970);
    ZeroPowers();
    LastHalfway();
    AtLeast(sig, Pow(10, e));
    MulLess(0x3f_ffff_ffff_ffff, Pow(2, 54), Pow(2, 970));
    WholeReals();
  }

  lemma AtLeast(a: nat, b: nat)
    requires a > 0
    ensures a * b >= b
  {
  }

  lemma WholeReals()
    ensures forall m: int :: Decimal(m, 0) == m as real && Dyadic(m, 0) == m as real
  {
    ZeroPowers();
  }

  lemma LastHalfway()
    ensures Halfway(RawInf - 1) == Dyadic(0x3f_ffff_ffff_ffff, 970)
  {
  }

  // ---- the significand

  /** Digits read from first up to cur, n of them, none beyond nineteen. */
  ghost predicate SigRead(s: seq<u8>, first: nat, j: int, cur: nat, sig: nat, n: nat) {
    && first <= cur <= |s| && n <= 19 && n == Places(first, cur, j) && sig == Digs(s, first, cur, j) < Pow(10, n)
    && forall i | first <= i < cur && i != j :: IsDigit(At(s, i))
  }

  /** More digits from cur on, up to nineteen in all. */
  method MoreDigits(buf: array<u8>, ghost s: seq<u8>, ghost first: nat, ghost j: int, cur0: nat, sig0: nat, n0: nat)
      returns (cur: nat, sig: nat, n: nat)
    requires Unread(buf, s, cur0) && SigRead(s, first, j, cur0, sig0, n0)
    requires 0 <= j && !IsDigit(At(s, j)) && j < 0x7fff_ffff_ffff_ffff
    ensures SigRead(s, first, j, cur, sig, n) && cur0 <= cur && (n == 19 || !IsDigit(At(s, cur)))
    ensures forall i | cur0 <= i < cur :: IsDigit(At(s, i))
    ensures n - n0 == cur - cur0
  {
    hide Digs, Pow;
    cur, sig, n := cur0, sig0, n0;
    while n < 19 && IsDigit(buf[cur])
      invariant cur0 <= cur && SigRead(s, first, j, cur, sig, n) && n - n0 == cur - cur0
      invariant forall i | cur0 <= i < cur :: IsDigit(At(s, i))
      decreases 19 - n
    {
      DigsStep(s, first, cur, j);
      TenMore(sig, n, Digit(buf[cur]));
      sig := sig * 10 + (buf[cur] - 48);
      cur := cur + 1;
      n := n + 1;
    }
  }

  lemma TenMore(sig: nat, n: nat, d: nat)
    requires sig < Pow(10, n) && d < 10
    ensures 10 * sig + d < Pow(10, n + 1)
  {
  }

  /** No digits cut off: the significand is the whole number. */
  lemma WholeIs(s: seq<u8>, d: nat, first: nat, j: nat, k: nat, sig: nat, n: nat)
    requires j == Run(s, d) && k == DigitsEnd(s, j) && d <= first <= k && SigRead(s, first, j, k, sig, n)
    requires forall i | d <= i < first && i != j :: At(s, i) == 48
    ensures TokenReal(s, d) == Decimal(sig, ExpValue(s, k) - Behind(j, k))
  {
    hide Decimal, Digs;
    DropZeros(s, d, first, k, j);
  }

  /** What is cut off from c on. */
  function RestAt(s: seq<u8>, c: nat, k: nat, j: nat): Rest
    requires c <= k <= |s|
  {
    if forall i | c <= i < k && i != j :: s[i] == 48 then Whole else Cut(Tail(s[c..k], j - c))
  }

  function Rounded(sig: nat, c: u8): nat { if c >= 53 then sig + 1 else sig }

  function ExpSig(c: nat, j: nat): int { j - c + if j < c then 1 else 0 }

  /** Digits cut off at c: the parts stand for the number in the text. */
  lemma CutIs(s: seq<u8>, d: nat, first: nat, j: nat, c: nat, k: nat, sig: nat)
    requires j == Run(s, d) && k == DigitsEnd(s, j) && d <= first < c < k <= |s| && SigRead(s, first, j, c, sig, 19)
    requires forall i | d <= i < first && i != j :: At(s, i) == 48
    requires c != j && (forall i | c <= i < k && i != j :: IsDigit(s[i])) && j != k - 1
    requires 49 <= At(s, first) <= 57 && first != j
    requires -343 <= ExpSig(c, j) + ExpValue(s, k) <= 308
    ensures var (r, e, rest) := (Rounded(sig, s[c]), ExpSig(c, j) + ExpValue(s, k), RestAt(s, c, k, j));
      && r < B64 && IsNumber(r, e, rest) && IsRest(rest) && Exact(r, e, rest) == TokenReal(s, d)
  {
    hide Digs, Pow, Decimal, Number;
    CutBounds(s, d, first, j, c, k, sig);
    SigLarge(s, first, j, c, sig);
    if !(RestAt(s, c, k, j).Whole?) { hide TokenReal; }
  }

  lemma SigLarge(s: seq<u8>, first: nat, j: nat, c: nat, sig: nat)
    requires SigRead(s, first, j, c, sig, 19) && 49 <= At(s, first) <= 57 && first != j
    ensures 1000000000000000000 <= sig < 10000000000000000000
  {
    hide Digs, Pow;
    FirstNonzero(s, first, c, j);
    JsonBig.TableIsPowers(18);
    JsonBig.TableIsPowers(19);
  }

  lemma CutBounds(s: seq<u8>, d: nat, first: nat, j: nat, c: nat, k: nat, sig: nat)
    requires j == Run(s, d) && k == DigitsEnd(s, j) && d <= first < c < k <= |s| && SigRead(s, first, j, c, sig, 19)
    requires forall i | d <= i < first && i != j :: At(s, i) == 48
    requires c != j && (forall i | c <= i < k && i != j :: IsDigit(s[i])) && j != k - 1
    ensures var (e, t) := (ExpSig(c, j) + ExpValue(s, k), Tail(s[c..k], j - c));
      && IsTail(t) && TextValue(sig, e, t) == TokenReal(s, d)
      && (RestAt(s, c, k, j).Whole? ==> Decimal(sig, e) == TokenReal(s, d) && s[c] == 48)
      && Decimal(sig, e) <= TokenReal(s, d) < Decimal(sig + 1, e)
  {
    hide Digs, Pow, Decimal, Number;
    var (e, t) := (ExpSig(c, j) + ExpValue(s, k), Tail(s[c..k], j - c));
    var g := ExpValue(s, k) - Behind(j, k);
    DropZeros(s, d, first, k, j);
    NumberIsDigs(s, first, c, k, j, k - c);
    NumberIsDigs(s, first, c, k, j, 0);
    assert e - JsonSlow.Count(t, k - c) == g;
    assert IsTail(t);
    FirstDigits(sig, e, t, 0);
    assert JsonSlow.Count(t, 0) == 0;
    if RestAt(s, c, k, j).Whole? {
      DigsSplit(s, first, c, k, j);
      DigsZero(s, c, k, j);
      DecimalShift(sig, g, Places(c, k, j));
    }
  }

  // ---- read_number

  /** What the text is found to be: no number, too small or too large for a double, or parts. */
  datatype Scanned = NoNumber | Zero | Infinite | Parsed(sig: nat, exp: int, rest: Rest)

  /** The parts of a number: all its digits, or nineteen of them from first up to c and the rest. */
  ghost predicate Parts(s: seq<u8>, d: nat, first: nat, c: nat, sig: nat, exp: int, rest: Rest) {
    var j := Run(s, d);
    var k := DigitsEnd(s, j);
    && d <= first <= c <= k <= |s| && first != j && 49 <= At(s, first) <= 57
    && (forall i | d <= i < first && i != j :: At(s, i) == 48)
    && if c == k then
         sig == Digs(s, first, k, j) < Pow(10, 19) && exp == ExpValue(s, k) - Behind(j, k) && rest == Whole
       else
         && Places(first, c, j) == 19 && c != j && sig == Rounded(Digs(s, first, c, j), s[c])
         && exp == ExpSig(c, j) + ExpValue(s, k) && rest == RestAt(s, c, k, j)
  }

  ghost predicate Scans(s: seq<u8>, d: nat, r: Scanned) {
    && (r.NoNumber? <==> TailEnd(s, Run(s, d)).None?)
    && (r.Zero? ==> TokenReal(s, d) < Halfway(0))
    && (r.Infinite? ==> TokenReal(s, d) > Halfway(RawInf - 1))
    && (r.Parsed? ==>
          && r.sig < B64 && IsNumber(r.sig, r.exp, r.rest) && IsRest(r.rest)
          && Exact(r.sig, r.exp, r.rest) == TokenReal(s, d)
          && exists first: nat, c: nat :: Parts(s, d, first, c, r.sig, r.exp, r.rest))
  }

  /** The digits from first on begin with one that is not zero. */
  ghost predicate Begins(s: seq<u8>, d: nat, first: nat, j: nat) {
    && d <= first && first != j && 49 <= At(s, first) <= 57
    && forall i | d <= i < first && i != j :: At(s, i) == 48
  }

  /** The digits end at k, with all of them read. */
  method Ending(buf: array<u8>, ghost s: seq<u8>, ghost d: nat, ghost first: nat, ghost j: nat, k: nat, expSig: int,
                sig: nat, ghost n: nat) returns (r: Scanned)
    requires Unread(buf, s, k) && k <= |s| < TextLimit && j == Run(s, d) && FracEnd(s, j) == Some(k)
    requires Begins(s, d, first, j) && first < k && SigRead(s, first, j, k, sig, n) && expSig + Behind(j, k) == 0
    ensures Scans(s, d, r)
  {
    hide Digs, Pow, Decimal, TokenReal, Halfway, Run, ExpValue;
    var e := ReadExponent(buf, s, k, expSig);
    FracIs(s, j, k);
    WholeIs(s, d, first, j, k, sig, n);
    Positive(s, first, j, k, sig, n);
    DecimalOrder(sig, sig + 1, expSig + ExpValue(s, k));
    match e
    case BadExponent => return NoNumber;
    case Under =>
      TooSmall(TokenReal(s, d), sig, expSig + ExpValue(s, k));
      return Zero;
    case Over =>
      TooLarge(TokenReal(s, d), sig, expSig + ExpValue(s, k));
      return Infinite;
    case Fine(exp) =>
      assert Parts(s, d, first, k, sig, exp, Whole);
      return Parsed(sig, exp, Whole);
  }

  lemma FracIs(s: seq<u8>, j: nat, k: nat)
    requires FracEnd(s, j) == Some(k)
    ensures k == DigitsEnd(s, j) && TailEnd(s, j) == ExpEnd(s, k) && j != k - 1
  {
  }

  lemma Positive(s: seq<u8>, first: nat, j: nat, k: nat, sig: nat, n: nat)
    requires first < k && first != j && 49 <= At(s, first) <= 57 && SigRead(s, first, j, k, sig, n)
    ensures 0 < sig < Pow(10, 19) && sig < B64
  {
    FirstNonzero(s, first, k, j);
    Pow10Grows(n, 19);
    JsonBig.TableIsPowers(19);
  }

  /** Nineteen digits end at c, where another begins; the point is at dot, or not yet met. */
  method CutOff(buf: array<u8>, ghost s: seq<u8>, ghost d: nat, ghost first: nat, ghost j: nat, c: nat, sig: nat,
                dot: Option<nat>) returns (r: Scanned)
    requires Unread(buf, s, c) && c < |s| < TextLimit && j == Run(s, d) && IsDigit(buf[c])
    requires Begins(s, d, first, j) && first < c && SigRead(s, first, j, c, sig, 19)
    requires if dot.None? then Run(s, c) == j
      else dot.value == j < c && IsDot(At(s, j)) && IsDigit(At(s, j + 1)) && Run(s, j + 1) == Run(s, c)
    ensures Scans(s, d, r)
  {
    hide Digs, Pow, Decimal, TokenReal, Halfway, Run, ExpValue, SigRead, RestAt;
    var rounded := sig + (if buf[c] >= 53 then 1 else 0);
    var cur := SkipDigits(buf, s, c);
    var dotPos := cur;
    if dot.Some? {
      dotPos := dot.value;
    } else if IsDot(buf[cur]) {
      if !IsDigit(buf[cur + 1]) { return NoNumber; }
      cur := SkipDigits(buf, s, cur + 1);
    }
    CutShape(s, d, first, j, c, cur, dot);
    FracIs(s, j, cur);
    var expSig := (dotPos - c) + (if dotPos < c then 1 else 0);
    var rest := FindRest(buf, s, c, cur, dotPos, j);
    var e := ReadExponent(buf, s, cur, expSig);
    CutBounds(s, d, first, j, c, cur, sig);
    SigLarge(s, first, j, c, sig);
    JsonBig.TableIsPowers(19);
    match e
    case BadExponent => return NoNumber;
    case Under =>
      TooSmall(TokenReal(s, d), sig, expSig + ExpValue(s, cur));
      return Zero;
    case Over =>
      TooLarge(TokenReal(s, d), sig, expSig + ExpValue(s, cur));
      return Infinite;
    case Fine(exp) =>
      CutIs(s, d, first, j, c, cur, sig);
      assert Parts(s, d, first, c, rounded, exp, rest) by { PartsCut(s, d, first, c, sig); }
      return Parsed(rounded, exp, rest);
  }

  /** Ignores trailing zeros. */
  method FindRest(buf: array<u8>, ghost s: seq<u8>, c: nat, cur: nat, dotPos: int, ghost j: nat) returns (rest: Rest)
    requires Unread(buf, s, c) && c < cur <= |s| && dotPos == j && forall i | c <= i < cur && i != j :: IsDigit(s[i])
    requires c <= j < cur ==> IsDot(s[j])
    ensures rest == RestAt(s, c, cur, j)
  {
    hide RestAt;
    assert forall i | c <= i < cur :: buf[i] == s[i];
    var tmp := cur - 1;
    while tmp >= c && (buf[tmp] == 48 || buf[tmp] == 46)
      invariant c - 1 <= tmp < cur && forall i | tmp < i < cur :: buf[i] == 48 || buf[i] == 46
    {
      tmp := tmp - 1;
    }
    rest := if tmp < c then Whole else Cut(Tail(buf[c..cur], dotPos - c));
    assert buf[c..cur] == s[c..cur];
    RestFound(s, c, cur, j, tmp);
  }

  lemma PartsCut(s: seq<u8>, d: nat, first: nat, c: nat, sig: nat)
    requires SigRead(s, first, Run(s, d), c, sig, 19)
    ensures Places(first, c, Run(s, d)) == 19 && sig == Digs(s, first, c, Run(s, d))
  {
    hide Digs, Pow, Run;
  }

  /** Where the digits that are cut off end. */
  lemma CutShape(s: seq<u8>, d: nat, first: nat, j: nat, c: nat, k: nat, dot: Option<nat>)
    requires c < |s| && j == Run(s, d) && IsDigit(At(s, c))
    requires if dot.None? then Run(s, c) == j
      else dot.value == j < c && IsDot(At(s, j)) && IsDigit(At(s, j + 1)) && Run(s, j + 1) == Run(s, c)
    requires if dot.Some? || !IsDot(At(s, j)) then k == Run(s, c) else IsDigit(At(s, j + 1)) && k == Run(s, j + 1)
    ensures FracEnd(s, j) == Some(k) && c < k <= |s| && c != j && (c <= j < k ==> IsDot(s[j]))
    ensures forall i | c <= i < k && i != j :: IsDigit(s[i])
  {
    RunBeyond(s, c);
    assert forall i | c <= i < Run(s, c) :: IsDigit(At(s, i));
    if dot.None? && IsDot(At(s, j)) {
      RunBeyond(s, j + 1);
      assert forall i | j + 1 <= i < k :: IsDigit(At(s, i));
    }
    forall i | c <= i < k && i != j ensures IsDigit(s[i]) { assert At(s, i) == s[i]; }
  }

  /** The last digit that is not zero, if any, tells whether anything was cut off. */
  lemma RestFound(s: seq<u8>, c: nat, k: nat, j: nat, tmp: int)
    requires c < k <= |s| && c - 1 <= tmp < k && (forall i | c <= i < k && i != j :: IsDigit(s[i]))
    requires c <= j < k ==> IsDot(s[j])
    requires forall i | tmp < i < k :: s[i] == 48 || s[i] == 46
    requires tmp >= c ==> s[tmp] != 48 && s[tmp] != 46
    ensures RestAt(s, c, k, j) == if tmp < c then Whole else Cut(Tail(s[c..k], j - c))
  {
  }

  /** The fraction part: up to nineteen digits, or more. */
  method ReadFraction(buf: array<u8>, ghost s: seq<u8>, ghost d: nat, ghost first: nat, cur0: nat, sig0: nat, n0: nat,
                      dot: nat) returns (r: Scanned)
    requires Unread(buf, s, cur0) && cur0 < |s| < TextLimit && dot == Run(s, d) < cur0 && IsDot(At(s, dot))
    requires Begins(s, d, first, dot) && SigRead(s, first, dot, cur0, sig0, n0) && n0 < 19
    requires IsDigit(At(s, dot + 1)) && Run(s, dot + 1) == Run(s, cur0) && (first < cur0 || IsDigit(At(s, cur0)))
    ensures Scans(s, d, r)
  {
    hide Digs, Pow, Decimal, TokenReal, Halfway, ExpValue, SigRead, Scans, Begins;
    NotDigit(s, d, dot);
    ReadAhead(s, first, dot, cur0, sig0, n0);
    var cur, sig, n := MoreDigits(buf, s, first, dot, cur0, sig0, n0);
    RunIs(s, cur0, cur);
    ReadAhead(s, first, dot, cur, sig, n);
    if !IsDigit(buf[cur]) {
      r := Ending(buf, s, d, first, dot, cur, -(cur - dot - 1), sig, n);
    } else {
      r := CutOff(buf, s, d, first, dot, cur, sig, Some(dot));
    }
  }

  lemma NotDigit(s: seq<u8>, d: nat, j: nat)
    requires j == Run(s, d)
    ensures !IsDigit(At(s, j))
  {
  }

  lemma ReadAhead(s: seq<u8>, first: nat, j: nat, cur: nat, sig: nat, n: nat)
    requires SigRead(s, first, j, cur, sig, n)
    ensures first <= cur <= |s| && n <= 19
  {
  }

  /** Nothing is read yet. */
  lemma ReadNothing(s: seq<u8>, first: nat, j: nat)
    requires first <= |s|
    ensures SigRead(s, first, j, first, 0, 0)
  {
  }

  /** Passing over the decimal point. */
  lemma ReadPoint(s: seq<u8>, first: nat, j: nat, sig: nat, n: nat)
    requires SigRead(s, first, j, j, sig, n) && j < |s|
    ensures SigRead(s, first, j, j + 1, sig, n)
  {
  }

  /** Zero, whatever its exponent. */
  method ReadZero(buf: array<u8>, ghost s: seq<u8>, ghost d: nat, k: nat) returns (r: Scanned)
    requires Unread(buf, s, k) && k <= |s| < TextLimit && d <= k && FracEnd(s, Run(s, d)) == Some(k)
    requires forall i | d <= i < k && i != Run(s, d) :: At(s, i) == 48
    ensures Scans(s, d, r)
  {
    hide Digs, Pow, Decimal, Halfway, Run, ExpValue;
    var e := ReadExponent(buf, s, k, 0);
    ghost var j := Run(s, d);
    FracIs(s, j, k);
    if e.BadExponent? { return NoNumber; }
    DigsZero(s, d, k, j);
    NothingIsSmall(ExpValue(s, k) - Behind(j, k));
    return Zero;
  }

  lemma NothingIsSmall(g: int)
    ensures Decimal(0, g) < Halfway(0)
  {
    hide R10;
    SmallPowerOfTen();
    DecimalOrder(0, 1, -325);
  }

  /** The part of read_number that deals with reals, from the first digit on. */
  method ReadReal(buf: array<u8>, ghost s: seq<u8>, d: nat) returns (r: Scanned)
    requires Unread(buf, s, d) && d < |s| < TextLimit && IsDigit(At(s, d))
    requires At(s, d) == 48 ==> !IsDigit(At(s, d + 1))
    requires IsFp(At(s, Run(s, d))) || Run(s, d) > d + 19
    ensures Scans(s, d, r)
  {
    hide Digs, Pow, Decimal, TokenReal, Halfway, ExpValue, SigRead, Scans;
    ghost var j := Run(s, d);
    if buf[d] == 48 {
      assert j == d + 1;
      if !IsDot(buf[d + 1]) {
        r := ReadZero(buf, s, d, d + 1);
        return;
      }
      if !IsDigit(buf[d + 2]) {
        NoFraction(s, d, j);
        return NoNumber;
      }
      var cur := d + 2;
      while buf[cur] == 48
        invariant d + 2 <= cur <= |s| && Run(s, cur) == Run(s, d + 2)
        invariant forall i | d <= i < cur && i != j :: At(s, i) == 48
        decreases |s| - cur
      {
        RunIs(s, cur, cur + 1);
        cur := cur + 1;
      }
      if IsDigit(buf[cur]) {
        ReadNothing(s, cur, j);
        r := ReadFraction(buf, s, d, cur, cur, 0, 0, d + 1);
      } else {
        RunIs(s, d + 2, cur);
        r := ReadZero(buf, s, d, cur);
      }
      return;
    }
    r := ReadNonzero(buf, s, d);
  }

  lemma NoFraction(s: seq<u8>, d: nat, j: nat)
    requires j == Run(s, d) && FracEnd(s, j).None?
    ensures Scans(s, d, NoNumber)
  {
  }

  method ReadNonzero(buf: array<u8>, ghost s: seq<u8>, d: nat) returns (r: Scanned)
    requires Unread(buf, s, d) && d < |s| < TextLimit && 49 <= At(s, d) <= 57
    requires IsFp(At(s, Run(s, d))) || Run(s, d) > d + 19
    ensures Scans(s, d, r)
  {
    hide Digs, Pow, Decimal, TokenReal, Halfway, ExpValue, SigRead, Scans, Run;
    ghost var j := Run(s, d);
    NotDigit(s, d, j);
    RunRange(s, d);
    ReadNothing(s, d, j);
    var cur, sig, n := MoreDigits(buf, s, d, j, d, 0, 0);
    ReadAhead(s, d, j, cur, sig, n);
    RunIs(s, d, cur);
    if !IsDigit(buf[cur]) { RunStops(s, cur); } else { RunBeyond(s, cur); }
    if IsExp(buf[cur]) {
      r := Ending(buf, s, d, d, j, cur, 0, sig, n);
    } else if IsDot(buf[cur]) {
      if !IsDigit(buf[cur + 1]) {
        NoFraction(s, d, j);
        return NoNumber;
      }
      ReadPoint(s, d, j, sig, n);
      if n < 19 {
        r := ReadFraction(buf, s, d, d, cur + 1, sig, n, cur);
      } else {
        r := CutOff(buf, s, d, d, j, cur + 1, sig, Some(cur));
      }
    } else {
      r := CutOff(buf, s, d, d, j, cur, sig, None);
    }
  }

  lemma RunRange(s: seq<u8>, d: nat)
    requires IsDigit(At(s, d))
    ensures d < Run(s, d) <= |s|
  {
  }

  lemma RunBeyond(s: seq<u8>, i: nat)
    requires IsDigit(At(s, i))
    ensures Run(s, i) > i
  {
  }

  // ---- two texts that are misread

  /** 1844674407370955366 */
  const Leading19: seq<u8> := [49, 56, 52, 52, 54, 55, 52, 52, 48, 55, 51, 55, 48, 57, 53, 53, 51, 54, 54]

  /** 18446744073709553664. and 749 zeros. */
  function ZerosText(): seq<u8> { Leading19 + ([52, 46] + Zeros8(749)) }

  /** 18446744073709553663, 750 nines, and .5e-750. */
  function LongText(): seq<u8> { Leading19 + (([51] + Nines8(750) + [46, 53]) + [101, 45, 55, 53, 48]) }

  lemma LeadingValue(s: seq<u8>)
    requires |s| >= 19 && s[..19] == Leading19
    ensures Digs(s, 0, 19, -1) == First19 && forall j | j >= 19 :: Digs(s, 0, 19, j) == First19
  {
    assert forall i | 0 <= i < 19 :: s[i] == s[..19][i];
    LeadingHalf(s, -1);
    forall j | j >= 19 ensures Digs(s, 0, 19, j) == First19 { LeadingHalf(s, j); }
  }

  lemma LeadingHalf(s: seq<u8>, j: int)
    requires |s| >= 19 && (forall i | 0 <= i < 19 :: s[i] == Leading19[i]) && (j < 0 || j >= 19)
    ensures Digs(s, 0, 19, j) == First19
  {
    LeadingTen(s, j);
    hide Digs;
    DigsStep(s, 0, 10, j);
    DigsStep(s, 0, 11, j);
    DigsStep(s, 0, 12, j);
    DigsStep(s, 0, 13, j);
    DigsStep(s, 0, 14, j);
    DigsStep(s, 0, 15, j);
    DigsStep(s, 0, 16, j);
    DigsStep(s, 0, 17, j);
    DigsStep(s, 0, 18, j);
  }

  lemma LeadingTen(s: seq<u8>, j: int)
    requires |s| >= 19 && (forall i | 0 <= i < 19 :: s[i] == Leading19[i]) && (j < 0 || j >= 19)
    ensures Digs(s, 0, 10, j) == 1844674407
  {
    hide Digs;
    DigsStep(s, 0, 0, j);
    DigsStep(s, 0, 1, j);
    DigsStep(s, 0, 2, j);
    DigsStep(s, 0, 3, j);
    DigsStep(s, 0, 4, j);
    DigsStep(s, 0, 5, j);
    DigsStep(s, 0, 6, j);
    DigsStep(s, 0, 7, j);
    DigsStep(s, 0, 8, j);
    DigsStep(s, 0, 9, j);
  }

  lemma RunUntil(s: seq<u8>, i: nat, j: nat)
    requires i <= j && (forall k | i <= k < j :: IsDigit(At(s, k))) && !IsDigit(At(s, j))
    ensures Run(s, i) == j
  {
    RunIs(s, i, j);
    RunStops(s, j);
  }

  /** The parts of a number of more than nineteen digits that begins with those nineteen. */
  lemma PartsOf(s: seq<u8>, r: Scanned, j: nat, k: nat)
    requires |s| >= 20 && s[..19] == Leading19 && Scans(s, 0, r) && r.Parsed?
    requires j == Run(s, 0) && k == DigitsEnd(s, j) && 20 <= j <= k <= |s| && j != k - 1 && s[19] < 53
    ensures r.sig == First19 && r.exp == j - 19 + ExpValue(s, k) && r.rest == RestAt(s, 19, k, j)
  {
    hide Digs, Run, Pow, RestAt, Leading19;
    var first: nat, c: nat :| Parts(s, 0, first, c, r.sig, r.exp, r.rest);
    StartsWithOne(s);
    assert first == 0;
    if c == k {
      FirstNonzero(s, 0, k, j);
      Pow10Grows(19, Places(0, k, j) - 1);
    } else {
      assert c == 19;
      LeadingValue(s);
    }
  }

  lemma StartsWithOne(s: seq<u8>)
    requires |s| >= 19 && s[..19] == Leading19
    ensures At(s, 0) == 49
  {
    assert s[0] == s[..19][0];
  }

  /** What those digits, the digits up to k and the exponent stand for. */
  lemma PartsExact(s: seq<u8>, j: nat, k: nat)
    requires |s| >= 20 && s[..19] == Leading19 && j == Run(s, 0) && k == DigitsEnd(s, j)
    requires 20 <= j <= k <= |s| && j != k - 1 && s[19] < 53 && forall i | 19 <= i < k && i != j :: IsDigit(s[i])
    requires -343 <= j - 19 + ExpValue(s, k) <= 308
    ensures var (e, rest) := (j - 19 + ExpValue(s, k), RestAt(s, 19, k, j));
      IsNumber(First19, e, rest) && Exact(First19, e, rest) == TokenReal(s, 0)
  {
    hide Digs, Run, Pow, RestAt, TokenReal, Exact, ExpValue;
    StartsWithOne(s);
    LeadingValue(s);
    JsonBig.TableIsPowers(19);
    assert forall i | 0 <= i < 19 :: s[i] == s[..19][i] && IsDigit(s[i]);
    assert SigRead(s, 0, j, 19, First19, 19);
    CutIs(s, 0, 0, j, 19, k, First19);
  }

  /** Numbers about 2^64 are neither too small nor too large. */
  lemma InRange(v: real)
    requires Between(v, TwoTo64)
    ensures Halfway(0) <= v <= Halfway(RawInf - 1)
  {
    hide DoubleOf, Halfway;
    HalfwayIs(0);
    HalfwayIs(RawInf - 1);
    NextDouble(0);
    NextDouble(RawInf - 1);
    DoublesGrow(1, TwoTo64);
    DoublesGrow(TwoTo64 + 1, RawInf - 1);
  }

  /** The text with many zeros is read as the parts that are rounded wrongly: the nearest double is
      2^64, and the next one is returned. */
  lemma ZerosTextWrong(r: Scanned)
    requires Scans(ZerosText(), 0, r)
    ensures r == Parsed(First19, 1, TrailingZeros())
    ensures var tail := TrailingZeros().tail; 0 <= KeptEnd(tail) <= |tail.text|
    ensures Between(TokenReal(ZerosText(), 0), TwoTo64)
    ensures DoubleOf(TwoTo64) < TokenReal(ZerosText(), 0) < DoubleOf(TwoTo64 + 1)
    ensures !NearestEven(TokenReal(ZerosText(), 0), Decided(Compared(First19, 1, TrailingZeros()), TwoTo64))
  {
    hide Digs, Run, Pow, RestAt, TokenReal, Exact, Compared, NearestEven, Between, KeptEnd, ExpValue, Scans, Leading19;
    var s := ZerosText();
    var tail: seq<u8> := [52, 46] + Zeros8(749);
    TailAt(s, tail, []);
    RunUntil(s, 0, 20);
    RunUntil(s, 21, 770);
    NoExponent(s, 770);
    assert s[19..770] == tail;
    NotAllZeros(s, 19, 770, 20);
    ZerosWrong();
    PartsExact(s, 20, 770);
    InRange(TokenReal(s, 0));
    AlwaysParsed(s, r);
    PartsOf(s, r, 20, 770);
  }

  lemma AlwaysParsed(s: seq<u8>, r: Scanned)
    requires Scans(s, 0, r) && TailEnd(s, Run(s, 0)).Some? && Halfway(0) <= TokenReal(s, 0) <= Halfway(RawInf - 1)
    ensures r.Parsed?
  {
  }

  lemma NotAllZeros(s: seq<u8>, c: nat, k: nat, j: nat)
    requires c < k <= |s| && c != j && s[c] != 48
    ensures RestAt(s, c, k, j) == Cut(Tail(s[c..k], j - c))
  {
  }

  lemma NoExponent(s: seq<u8>, k: nat)
    requires k >= |s|
    ensures ExpValue(s, k) == 0
  {
  }

  /** The characters of a text made of the leading digits, a tail and an exponent. */
  lemma TailAt(s: seq<u8>, tail: seq<u8>, exp: seq<u8>)
    requires s == Leading19 + (tail + exp) || (s == Leading19 + tail && exp == [])
    ensures |Leading19| == 19 && |s| == 19 + |tail| + |exp| && s[..19] == Leading19
    ensures forall i | 0 <= i < 19 :: IsDigit(At(s, i))
    ensures forall i | 0 <= i < |tail| :: At(s, 19 + i) == tail[i]
    ensures forall i | 0 <= i < |exp| :: At(s, 19 + |tail| + i) == exp[i]
  {
    forall i | 0 <= i < 19 ensures IsDigit(At(s, i)) { assert s[i] == Leading19[i]; }
  }

  /** The long integer is read as parts that are rounded wrongly in the same way. */
  lemma LongTextWrong(r: Scanned)
    requires Scans(LongText(), 0, r)
    ensures r == Parsed(First19, 1, LongInteger())
    ensures var tail := LongInteger().tail; 0 <= KeptEnd(tail) <= |tail.text|
    ensures Between(TokenReal(LongText(), 0), TwoTo64)
    ensures DoubleOf(TwoTo64) < TokenReal(LongText(), 0) < DoubleOf(TwoTo64 + 1)
    ensures !NearestEven(TokenReal(LongText(), 0), Decided(Compared(First19, 1, LongInteger()), TwoTo64))
  {
    hide Scans, TokenReal, Exact, Compared, NearestEven, Between, KeptEnd;
    LongWrong();
    LongParts(r);
  }

  lemma LongParts(r: Scanned)
    requires Scans(LongText(), 0, r)
    requires IsNumber(First19, 1, LongInteger()) && Between(Exact(First19, 1, LongInteger()), TwoTo64)
    ensures r == Parsed(First19, 1, LongInteger()) && TokenReal(LongText(), 0) == Exact(First19, 1, LongInteger())
  {
    hide Digs, Run, Pow, RestAt, ExpValue, Scans, Leading19;
    var s := LongText();
    var tail: seq<u8> := [51] + Nines8(750) + [46, 53];
    LongEnds(s, tail);
    hide LongText, Nines8, TokenReal, Exact, Between;
    NotAllZeros(s, 19, 772, 770);
    PartsExact(s, 770, 772);
    InRange(TokenReal(s, 0));
    AlwaysParsed(s, r);
    PartsOf(s, r, 770, 772);
  }

  /** Where the integer part and the fraction end. */
  lemma LongEnds(s: seq<u8>, tail: seq<u8>)
    requires s == LongText() && tail == [51] + Nines8(750) + [46, 53]
    ensures |s| == 777 && s[..19] == Leading19 && s[19..772] == tail && s[19] == 51
    ensures Run(s, 0) == 770 && DigitsEnd(s, 770) == 772 && ExpValue(s, 772) == -750
  {
    hide Digs, Run, Pow, ExpValue, Leading19;
    var exp: seq<u8> := [101, 45, 55, 53, 48];
    TailAt(s, tail, exp);
    NinesAt(s, tail);
    RunUntil(s, 0, 770);
    RunUntil(s, 771, 772);
    Exponent750(s, exp);
    assert s[19..772] == tail;
  }

  lemma NinesAt(s: seq<u8>, tail: seq<u8>)
    requires tail == [51] + Nines8(750) + [46, 53] && (forall i | 0 <= i < 19 :: IsDigit(At(s, i)))
    requires forall i | 0 <= i < |tail| :: At(s, 19 + i) == tail[i]
    ensures |tail| == 753 && tail[0] == 51 && tail[751] == 46 && tail[752] == 53
    ensures forall i | 0 <= i < 770 :: IsDigit(At(s, i))
  {
    forall i | 19 <= i < 770 ensures IsDigit(At(s, i)) { assert At(s, 19 + (i - 19)) == tail[i - 19]; }
  }

  lemma Exponent750(s: seq<u8>, exp: seq<u8>)
    requires exp == [101, 45, 55, 53, 48] && |s| == 777 && forall i | 0 <= i < 5 :: At(s, 772 + i) == exp[i]
    ensures ExpValue(s, 772) == -750 && IsExp(At(s, 772))
  {
    assert exp[0] == 101 && exp[1] == 45 && exp[2] == 55 && exp[3] == 53 && exp[4] == 48;
    assert At(s, 772) == 101 && At(s, 773) == 45 && At(s, 774) == 55 && At(s, 775) == 53 && At(s, 776) == 48;
    RunUntil(s, 774, 777);
    DigsStep(s, 774, 774, -1);
    DigsStep(s, 774, 775, -1);
    DigsStep(s, 774, 776, -1);
  }
}
