/** Number tokens: the grammar of section 6 of RFC 8259 and read_number. Integers that fit 64
    bits are read exactly; other tokens are handed to a conversion to double. */
module JsonNumber {
  import opened Options
  import opened Bytes
  import opened Powers
  import opened JsonDigits

  /** An integer in the range of int64_t or uint64_t, or the bits of a double. */
  datatype Num = Int(n: int) | Real(raw: int)

  /** The double a token stands for, unless it is infinite. */
  type Convert = seq<u8> -> Option<int>

  const U64_MAX: int := 0xffff_ffff_ffff_ffff
  const I64_ABS_MAX: int := 0x8000_0000_0000_0000

  /** The byte at i; the input is followed by zero bytes. */
  function At(s: seq<u8>, i: int): u8 { if 0 <= i < |s| then s[i] else 0 }

  predicate IsDigit(b: u8) { 48 <= b <= 57 }
  predicate IsDot(b: u8) { b == 46 }
  predicate IsExp(b: u8) { b == 69 || b == 101 }
  predicate IsSign(b: u8) { b == 43 || b == 45 }
  predicate IsFp(b: u8) { IsDot(b) || IsExp(b) }

  /** Position after the digits at i. */
  function Run(s: seq<u8>, i: nat): (j: nat)
    ensures i <= j && !IsDigit(At(s, j)) && forall k | i <= k < j :: IsDigit(At(s, k))
    ensures j > i ==> j <= |s|
    decreases |s| - i
  {
    if IsDigit(At(s, i)) then Run(s, i + 1) else i
  }

  lemma {:induction false} RunIs(s: seq<u8>, i: nat, j: nat)
    requires i <= j && forall k | i <= k < j :: IsDigit(At(s, k))
    ensures Run(s, i) == Run(s, j)
    decreases j - i
  {
    if i < j { RunIs(s, i + 1, j); }
  }

  /** End of the fraction and exponent parts that may follow the integer part. */
  function FracEnd(s: seq<u8>, j: nat): Option<nat> {
    if !IsDot(At(s, j)) then Some(j) else if IsDigit(At(s, j + 1)) then Some(Run(s, j + 1)) else None
  }

  function ExpEnd(s: seq<u8>, k: nat): Option<nat> {
    if !IsExp(At(s, k)) then Some(k)
    else
      var m := if IsSign(At(s, k + 1)) then k + 2 else k + 1;
      if IsDigit(At(s, m)) then Some(Run(s, m)) else None
  }

  function TailEnd(s: seq<u8>, j: nat): Option<nat> {
    match FracEnd(s, j) case None => None case Some(k) => ExpEnd(s, k)
  }

  function ToReal(s: seq<u8>, i: nat, e: nat, conv: Convert): Option<(Num, nat)> {
    if i <= e <= |s| then
      match conv(s[i..e]) case None => None case Some(raw) => Some((Real(raw), e))
    else None
  }

  /** The number token at i. */
  function LexNumber(s: seq<u8>, i: nat, conv: Convert): Option<(Num, nat)> {
    var neg := At(s, i) == 45;
    var d := if neg then i + 1 else i;
    var j := Run(s, d);
    if j == d || (At(s, d) == 48 && j > d + 1) then None
    else
      match TailEnd(s, j)
      case None => None
      case Some(e) =>
        var m: int := Value(s[d..j]);
        if e == j && m <= (if neg then I64_ABS_MAX else U64_MAX) then Some((Int(if neg then -m else m), j))
        else ToReal(s, i, e, conv)
  }

  /** From cur on the buffer still holds the input and its padding. */
  predicate Unread(buf: array<u8>, s: seq<u8>, cur: nat)
    reads buf
  {
    |s| + 4 <= buf.Length && forall k | cur <= k < |s| + 4 :: buf[k] == At(s, k)
  }

  method SkipDigits(buf: array<u8>, ghost s: seq<u8>, cur: nat) returns (j: nat)
    requires Unread(buf, s, cur) && cur <= |s|
    ensures j == Run(s, cur) && j <= |s|
  {
    j := cur;
    while IsDigit(buf[j])
      invariant cur <= j <= |s| && Run(s, j) == Run(s, cur)
      decreases |s| - j
    {
      j := j + 1;
    }
  }

  /** The fraction and exponent parts. */
  method ReadTail(buf: array<u8>, ghost s: seq<u8>, cur: nat) returns (r: Option<nat>)
    requires Unread(buf, s, cur) && cur <= |s|
    ensures r == TailEnd(s, cur)
    ensures r.Some? ==> cur <= r.value <= |s|
  {
    var k := cur;
    if IsDot(buf[k]) {
      if !IsDigit(buf[k + 1]) { return None; }
      k := SkipDigits(buf, s, k + 1);
    }
    if IsExp(buf[k]) {
      k := k + 1;
      if IsSign(buf[k]) { k := k + 1; }
      if !IsDigit(buf[k]) { return None; }
      k := SkipDigits(buf, s, k);
    }
    return Some(k);
  }

  lemma ValueStep(s: seq<u8>, d: nat, j: nat)
    requires d <= j < |s| && IsDigit(s[j])
    ensures Value(s[d..j + 1]) == 10 * Value(s[d..j]) + (s[j] as int - 48)
  {
    assert s[d..j + 1][..j - d] == s[d..j];
  }

  lemma FirstValue(s: seq<u8>, d: nat)
    requires d < |s| && IsDigit(s[d])
    ensures Value(s[d..d + 1]) == s[d] as int - 48 && Pow(10, 0) == 1 && Pow(10, 1) == 10
  {
    assert s[d..d + 1][..0] == [];
  }

  /** A number of n digits without leading zero has at least the value of its first digits. */
  lemma {:induction false} ValueGrows(s: seq<u8>, d: nat, m: nat, j: nat)
    requires d < m <= j <= |s| && (forall k | d <= k < j :: IsDigit(s[k])) && s[d] != 48
    ensures Value(s[d..j]) >= Value(s[d..m]) * Pow(10, j - m)
    ensures Value(s[d..m]) >= Pow(10, m - d - 1)
    decreases j
  {
    hide Value, Pow;
    FirstValue(s, d);
    if j > m {
      ValueGrows(s, d, m, j - 1);
      ValueStep(s, d, j - 1);
      Tenfold(Value(s[d..j]), Value(s[d..j - 1]), Value(s[d..m]), j - m);
    } else if m > d + 1 {
      ValueGrows(s, d, m - 1, m - 1);
      ValueStep(s, d, m - 1);
      TenStep(m - d - 2);
    }
  }

  lemma Tenfold(v: nat, w: nat, x: nat, k: nat)
    requires k > 0 && v >= 10 * w && w >= x * Pow(10, k - 1)
    ensures v >= x * Pow(10, k)
  {
    assert x * (10 * Pow(10, k - 1)) == 10 * (x * Pow(10, k - 1));
  }

  /** The first digits of the token at d, at most 19 of them, and their value. */
  method ReadDigits(buf: array<u8>, ghost s: seq<u8>, d: nat) returns (sig: nat, n: nat)
    requires Unread(buf, s, d) && d < |s| && IsDigit(buf[d]) && buf[d] != 48
    ensures 1 <= n <= 19 && d + n <= Run(s, d) <= |s| && sig == Value(s[d..d + n]) < Pow(10, n)
    ensures n < 19 ==> d + n == Run(s, d)
  {
    hide Run, Value, Pow;
    sig := buf[d] - 48;
    n := 1;
    RunIs(s, d, d + 1);
    FirstValue(s, d);
    while n < 19 && IsDigit(buf[d + n])
      invariant 1 <= n <= 19 && d + n <= |s| && Run(s, d + n) == Run(s, d)
      invariant sig == Value(s[d..d + n]) < Pow(10, n)
    {
      ValueStep(s, d, d + n);
      TenStep(n);
      RunIs(s, d + n, d + n + 1);
      var num := buf[d + n] - 48;
      sig := num + sig * 10;
      n := n + 1;
    }
  }

  lemma Bounds()
    ensures Pow(10, 18) < I64_ABS_MAX && Pow(10, 19) < U64_MAX && Pow(10, 20) > U64_MAX
        && Pow(10, 19) == 10 * Pow(10, 18)
  {
    SmallTens();
    TenStep(19);
    TenStep(18);
  }

  lemma TenStep(k: nat)
    ensures Pow(10, k + 1) == 10 * Pow(10, k)
  {
  }

  /** The integer part of the token at i, and its range. */
  ghost predicate IntPart(s: seq<u8>, i: nat, neg: bool, d: nat, j: nat) {
    && neg == (At(s, i) == 45) && d == (if neg then i + 1 else i) && d < j == Run(s, d) <= |s|
    && (At(s, d) == 48 ==> j == d + 1)
  }

  function Limit(neg: bool): int { if neg then I64_ABS_MAX else U64_MAX }

  lemma TokenIsInt(s: seq<u8>, i: nat, neg: bool, d: nat, j: nat, conv: Convert)
    requires IntPart(s, i, neg, d, j) && !IsFp(At(s, j)) && Value(s[d..j]) <= Limit(neg)
    ensures LexNumber(s, i, conv) == var m: int := Value(s[d..j]); Some((Int(if neg then -m else m), j))
  {
    hide Value;
  }

  /** A token that is not an integer of 64 bits goes to the conversion. */
  method ReadReal(buf: array<u8>, ghost s: seq<u8>, cur: nat, ghost neg: bool, ghost d: nat, j: nat, conv: Convert)
    returns (r: Option<(Num, nat)>)
    requires Unread(buf, s, cur) && IntPart(s, cur, neg, d, j)
    requires IsFp(At(s, j)) || Value(s[d..j]) > Limit(neg)
    ensures r == LexNumber(s, cur, conv)
  {
    hide Value;
    var e := ReadTail(buf, s, j);
    if e.None? { return None; }
    assert buf[cur..e.value] == s[cur..e.value];
    match conv(buf[cur..e.value])
    case None => return None;
    case Some(raw) => return Some((Real(raw), e.value));
  }

  /** read_number, up to the conversion of reals. */
  method ReadNumber(buf: array<u8>, ghost s: seq<u8>, cur: nat, conv: Convert) returns (r: Option<(Num, nat)>)
    requires Unread(buf, s, cur) && cur <= |s|
    ensures r == LexNumber(s, cur, conv)
  {
    hide Value, Pow, LexNumber;
    var neg := buf[cur] == 45;
    var d := if neg then cur + 1 else cur;
    if !IsDigit(buf[d]) {
      NoDigit(s, cur, conv);
      return None;
    }
    if buf[d] == 48 {
      r := ReadZero(buf, s, cur, neg, d, conv);
      return;
    }
    var sig, n := ReadDigits(buf, s, d);
    var i := d + n;
    ghost var j := Run(s, d);
    Bounds();
    TenGrows(n, 19);
    RunIs(s, d, i);
    if !IsDigit(buf[i]) {
      if !IsFp(buf[i]) && !(neg && sig > I64_ABS_MAX) {
        TokenIsInt(s, cur, neg, d, i, conv);
        return Some((Int(if neg then -sig else sig), i));
      }
      r := ReadReal(buf, s, cur, neg, d, i, conv);
      return;
    }
    RunIs(s, d, i + 1);
    ValueStep(s, d, i);
    if !IsDigit(buf[i + 1]) && !IsFp(buf[i + 1]) {
      var num := buf[i] - 48;
      if sig < U64_MAX / 10 || (sig == U64_MAX / 10 && num <= U64_MAX % 10) {
        sig := num + sig * 10;
        if !(neg && sig > I64_ABS_MAX) {
          TokenIsInt(s, cur, neg, d, i + 1, conv);
          return Some((Int(if neg then -sig else sig), i + 1));
        }
      }
    }
    var e := SkipDigits(buf, s, i);
    if e > i + 1 { LongToken(s, d, e); }
    r := ReadReal(buf, s, cur, neg, d, e, conv);
  }

  lemma NoDigit(s: seq<u8>, i: nat, conv: Convert)
    requires var d := if At(s, i) == 45 then i + 1 else i; !IsDigit(At(s, d))
    ensures LexNumber(s, i, conv) == None
  {
  }

  lemma {:induction false} TenGrows(m: nat, n: nat)
    requires m <= n
    ensures Pow(10, m) <= Pow(10, n)
    decreases n
  {
    if m < n { TenGrows(m, n - 1); }
  }

  /** More than 20 digits exceed 64 bits. */
  lemma LongToken(s: seq<u8>, d: nat, e: nat)
    requires d + 21 <= e == Run(s, d) && e <= |s| && s[d] != 48
    ensures Value(s[d..e]) > U64_MAX
  {
    assert forall k | d <= k < e :: At(s, k) == s[k];
    ValueGrows(s, d, e, e);
    TenGrows(20, e - d - 1);
    Bounds();
  }

  /** Tokens that begin with zero. */
  method ReadZero(buf: array<u8>, ghost s: seq<u8>, cur: nat, neg: bool, d: nat, conv: Convert)
      returns (r: Option<(Num, nat)>)
    requires Unread(buf, s, cur) && cur <= d < |s| && neg == (buf[cur] == 45) && d == (if neg then cur + 1 else cur)
        && buf[d] == 48
    ensures r == LexNumber(s, cur, conv)
  {
    hide Pow;
    assert s[d..d + 1] == [48] && [48 as u8][..0] == [];
    assert Value(s[d..d + 1]) == 0;
    hide Value;
    RunIs(s, d, d + 1);
    if !IsDigit(buf[d + 1]) && !IsFp(buf[d + 1]) {
      TokenIsInt(s, cur, neg, d, d + 1, conv);
      return Some((Int(0), d + 1));
    }
    if IsDigit(buf[d + 1]) { return None; }
    r := ReadReal(buf, s, cur, neg, d, d + 1, conv);
  }

  /** The decimal text of an integer of 64 bits is read back. */
  lemma IntRoundTrip(s: seq<u8>, i: nat, n: int, conv: Convert)
    requires -I64_ABS_MAX <= n <= U64_MAX
    requires var t := NumText(n);
      i + |t| <= |s| && s[i..i + |t|] == t && !IsDigit(At(s, i + |t|)) && !IsFp(At(s, i + |t|))
    ensures LexNumber(s, i, conv) == Some((Int(n), i + |NumText(n)|))
  {
    hide LexNumber, Digits, IsFp;
    if n < 0 {
      SignedAt(s, i, Digits(-n));
      TextToken(s, i, true, -n, conv);
    } else {
      DigitsValue(n);
      DigitsAt(s, i, Digits(n));
      TextToken(s, i, false, n, conv);
    }
  }

  lemma TextToken(s: seq<u8>, i: nat, neg: bool, m: int, conv: Convert)
    requires 0 <= m && neg == (At(s, i) == 45) && m <= Limit(neg)
    requires var d, k := if neg then i + 1 else i, |Digits(m)|;
      d + k <= |s| && s[d..d + k] == Digits(m) && !IsDigit(At(s, d + k)) && !IsFp(At(s, d + k))
    ensures var d := if neg then i + 1 else i;
      LexNumber(s, i, conv) == Some((Int(if neg then -m else m), d + |Digits(m)|))
  {
    var d, k := if neg then i + 1 else i, |Digits(m)|;
    DigitsValue(m);
    hide Digits, Value, LexNumber;
    DigitsAt(s, d, Digits(m));
    RunIs(s, d, d + k);
    TokenIsInt(s, i, neg, d, d + k, conv);
  }

  lemma SignedAt(s: seq<u8>, i: nat, text: seq<u8>)
    requires i + |[45] + text| <= |s| && s[i..i + |[45] + text|] == [45] + text
    ensures At(s, i) == 45 && s[i + 1..i + 1 + |text|] == text
  {
    assert s[i..i + |[45] + text|][0] == 45;
    assert s[i + 1..i + 1 + |text|] == s[i..i + |[45] + text|][1..];
  }

  lemma DigitsAt(s: seq<u8>, d: nat, text: seq<u8>)
    requires AllDigits(text) && text != [] && d + |text| <= |s| && s[d..d + |text|] == text
    ensures At(s, d) == text[0] && forall k | d <= k < d + |text| :: IsDigit(At(s, k))
  {
    forall k | d <= k < d + |text| ensures At(s, k) == text[k - d] { assert s[d..d + |text|][k - d] == s[k]; }
  }

  /** write_number for integers. */
  function NumText(n: int): seq<u8> {
    if n < 0 then [45] + Digits(-n) else Digits(n)
  }
}
