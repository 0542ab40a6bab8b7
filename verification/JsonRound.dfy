/** The second fast path of read_number: a 64-bit significand times a cached 128-bit power of
    ten, rounded to a double when the unknown lower bits cannot matter. */
module JsonRound {
  import opened Powers
  import opened JsonPowers

  const B32: int := 0x1_0000_0000
  const B64: int := 0x1_0000_0000_0000_0000
  const B128: int := 0x1_0000_0000_0000_0000_0000_0000_0000_0000

  type u64 = x: int | 0 <= x < 0x1_0000_0000_0000_0000

  function ToU64(x: int): u64 { x % B64 }

  // ---- the doubles

  /** m * 2^b is a finite double. */
  predicate IsDouble(m: int, b: int) {
    -0x20_0000_0000_0000 < m < 0x20_0000_0000_0000 && -1074 <= b <= 971
  }

  function Dyadic(m: int, b: int): real { m as real * R2(b) }

  function Distance(x: real, y: real): real { if x < y then y - x else x - y }

  /** m * 2^b is the one double nearest to v: no tie, so the rounding mode for ties is
      irrelevant. */
  ghost predicate Nearest(v: real, m: int, b: int) {
    && IsDouble(m, b)
    && forall k, e | IsDouble(k, e) && Dyadic(k, e) != Dyadic(m, b) ::
         Distance(v, Dyadic(m, b)) < Distance(v, Dyadic(k, e))
  }

  /** Significand and exponent of the double with a given bit pattern. */
  function RawSig(raw: int): int {
    if raw / 0x10_0000_0000_0000 == 0 then raw % 0x10_0000_0000_0000
    else 0x10_0000_0000_0000 + raw % 0x10_0000_0000_0000
  }

  function RawExp(raw: int): int {
    if raw / 0x10_0000_0000_0000 == 0 then -1074 else raw / 0x10_0000_0000_0000 - 1075
  }

  // Arithmetic on m * 2^b; Dyadic is kept folded elsewhere.

  lemma Scale(x: real, y: real, s: real)
    requires x <= y && s >= 0.0
    ensures x * s <= y * s
  {
  }

  lemma Grow(m: int, n: int, b: int)
    requires m <= n
    ensures Dyadic(m, b) <= Dyadic(n, b)
  {
    hide R2;
    Scale(m as real, n as real, R2(b));
  }

  lemma GrowStrict(m: int, n: int, b: int)
    requires m < n
    ensures Dyadic(m, b) < Dyadic(n, b)
  {
    hide R2;
    Strict(m as real, n as real, R2(b));
  }

  lemma Strict(x: real, y: real, s: real)
    requires x < y && s > 0.0
    ensures x * s < y * s
  {
  }

  lemma Raise(m: int, a: int, b: int)
    requires m >= 0 && a <= b
    ensures Dyadic(m, a) <= Dyadic(m, b)
  {
    R2Mono(a, b);
    hide R2;
    Scale(R2(a), R2(b), m as real);
    Swap(R2(a), m as real);
    Swap(R2(b), m as real);
  }

  lemma Swap(x: real, y: real)
    ensures x * y == y * x
  {
  }

  lemma Shift(m: int, b: int, n: nat)
    ensures Dyadic(m, b + n) == Dyadic(m * Pow(2, n), b)
  {
    R2Add(b, n);
    hide R2, Pow;
    Regroup(m, Pow(2, n), R2(b));
  }

  lemma Regroup(k: int, p: int, s: real)
    ensures k as real * (s * p as real) == (k * p) as real * s
  {
    assert (k * p) as real == k as real * p as real;
  }

  lemma Double(m: int, b: int)
    ensures Dyadic(m, b + 1) == Dyadic(2 * m, b)
  {
    Shift(m, b, 1);
    OnePower();
  }

  lemma OnePower()
    ensures Pow(2, 1) == 2
  {
  }

  lemma Half(m: int, b: int)
    ensures 2.0 * Dyadic(m, b) == Dyadic(2 * m, b)
  {
    hide R2;
    Regroup(m, 2, R2(b));
  }

  /** No double lies strictly between two neighbours with full significands. */
  lemma NoneBetween(k: int, e: int, b: int, c: int)
    requires IsDouble(k, e) && 0x10_0000_0000_0000 <= c
    ensures Dyadic(k, e) <= Dyadic(c, b) || Dyadic(k, e) >= Dyadic(c + 1, b)
  {
    hide Dyadic, Pow;
    if e >= b {
      Shift(k, b, e - b);
      var q := k * Pow(2, e - b);
      if q <= c { Grow(q, c, b); } else { Grow(c + 1, q, b); }
    } else {
      var n := if k > 0 then k else 0;
      Grow(k, n, e);
      Raise(n, e, b - 1);
      Grow(n, 2 * c, b - 1);
      Double(c, b - 1);
    }
  }

  /** Rounding c + fraction to c or c + 1 by comparing the fraction with one half. */
  lemma RoundsToNearest(v: real, c: int, b: int, up: bool)
    requires 0x10_0000_0000_0000 <= c < 0x20_0000_0000_0000 && -1074 <= b < 971
    requires Dyadic(c, b) < v < Dyadic(c + 1, b)
    requires if up then 2.0 * v > Dyadic(2 * c + 1, b) else 2.0 * v < Dyadic(2 * c + 1, b)
    ensures if !up then Nearest(v, c, b)
            else if c + 1 < 0x20_0000_0000_0000 then Nearest(v, c + 1, b)
            else Nearest(v, 0x10_0000_0000_0000, b + 1)
  {
    var m := if up then c + 1 else c;
    var (r, x) := if m == 0x20_0000_0000_0000 then (0x10_0000_0000_0000, 1) else (m, 0);
    Double(r, b);
    Middle(c, b);
    hide Dyadic;
    assert Dyadic(r, b + x) == Dyadic(m, b);
    forall k, e | IsDouble(k, e) && Dyadic(k, e) != Dyadic(r, b + x)
      ensures Distance(v, Dyadic(r, b + x)) < Distance(v, Dyadic(k, e))
    {
      NoneBetween(k, e, b, c);
    }
  }

  lemma Middle(c: int, b: int)
    ensures Dyadic(2 * c + 1, b) == Dyadic(c, b) + Dyadic(c + 1, b)
  {
    hide R2;
    Distribute(c as real, (c + 1) as real, R2(b));
  }

  lemma Distribute(x: real, y: real, s: real)
    ensures (x + y) * s == x * s + y * s
  {
  }

  // ---- 128-bit products

  /** A product kept folded. */
  function Mul(x: int, y: int): int { x * y }

  /** u128_mul in 32-bit halves. */
  method U128Mul(a: u64, b: u64) returns (hi: u64, lo: u64)
    ensures hi * B64 + lo == Mul(a, b)
  {
    var a0, a1, b0, b1 := a % B32, a / B32, b % B32, b / B32;
    ghost var w00, w01, w10, w11 := a0 * b0, a0 * b1, a1 * b0, a1 * b1;
    Products(a0, b0);
    Products(a0, b1);
    Products(a1, b0);
    Products(a1, b1);
    Halves(a, b, a0, a1, b0, b1);
    var p00: u64, p01: u64, p10: u64, p11: u64 := a0 * b0, a0 * b1, a1 * b0, a1 * b1;
    var m0: u64 := p01 + p00 / B32;
    var m00, m01 := m0 % B32, m0 / B32;
    var m1: u64 := p10 + m00;
    var m10, m11 := m1 % B32, m1 / B32;
    assert p11 + m01 + m11 < B64;
    hi := p11 + m01 + m11;
    lo := m10 * B32 + p00 % B32;
  }

  lemma Products(x: int, y: int)
    requires 0 <= x < B32 && 0 <= y < B32
    ensures 0 <= x * y <= (B32 - 1) * (B32 - 1)
  {
    Times(x, B32 - 1, y, B32 - 1);
  }

  lemma Halves(a: int, b: int, a0: int, a1: int, b0: int, b1: int)
    requires a == a1 * B32 + a0 && b == b1 * B32 + b0
    ensures a * b == a1 * b1 * B64 + (a1 * b0 + a0 * b1) * B32 + a0 * b0
  {
    assert a * b == a1 * B32 * (b1 * B32) + a1 * B32 * b0 + a0 * (b1 * B32) + a0 * b0;
  }

  // ---- the table of powers of ten

  /** Upper and lower half of the 128-bit significand of a power of ten. */
  type PowTable = int -> (u64, u64)

  function Sig128(tab: PowTable, e: int): int { tab(e).0 * B64 + tab(e).1 }

  /** The entry is 10^e truncated to its 128 leading bits. */
  ghost predicate Truncated(tab: PowTable, e: int) {
    var t := Sig128(tab, e);
    B128 / 2 <= t < B128 && exists k: int :: Dyadic(t, k) <= R10(e) < Dyadic(t + 1, k)
  }

  /** The binary exponent of an entry is the one pow10_table_get_exp computes. */
  lemma TableValue(tab: PowTable, e: int)
    requires Truncated(tab, e) && -344 < e < 325
    ensures var t, b := Sig128(tab, e), TableExp(e) - 64; Dyadic(t, b) <= R10(e) < Dyadic(t + 1, b)
  {
    hide Dyadic, R10, R2, Log, TableExp;
    var t := Sig128(tab, e);
    var k: int :| Dyadic(t, k) <= R10(e) < Dyadic(t + 1, k);
    LogExact(e);
    TableExpIsLog(e);
    Leading(t, k, R10(e));
    BinaryExponent(R10(e), k + 127, Log(e));
  }

  /** A 128-bit truncation has its leading bit 127 places above its last. */
  lemma Leading(t: int, k: int, x: real)
    requires B128 / 2 <= t < B128 && Dyadic(t, k) <= x < Dyadic(t + 1, k)
    ensures R2(k + 127) <= x < R2(k + 128)
  {
    Shift(1, k, 127);
    Shift(1, k, 128);
    Pow128();
    hide R2, Pow;
    assert Dyadic(1, k + 127) == R2(k + 127) && Dyadic(1, k + 128) == R2(k + 128);
    hide Dyadic;
    Grow(B128 / 2, t, k);
    Grow(t + 1, B128, k);
  }

  lemma Pow128()
    ensures Pow(2, 127) == B128 / 2 && Pow(2, 128) == B128
  {
    hide Pow;
    PowersOfTwo();
    SmallPowers();
    OnePower();
    PowIs(2, 49, 70, 0x2_0000_0000_0000, 0x40_0000_0000_0000_0000);
    PowIs(2, 7, 1, 128, 2);
    PowIs(2, 119, 7, 0x80_0000_0000_0000_0000_0000_0000_0000, 128);
    PowIs(2, 126, 1, B128 / 4, 2);
    PowIs(2, 127, 1, B128 / 2, 2);
  }

  // ---- the fast path

  const B63: int := 0x8000_0000_0000_0000
  const B52: int := 0x10_0000_0000_0000

  /** u64_lz_bits */
  function LeadingZeros(v: int): (n: nat)
    requires 0 < v < B64
    ensures n <= 63 && B63 <= v * Pow(2, n) < B64
    decreases B64 - v
  {
    if v >= B63 then 0
    else
      var n := LeadingZeros(2 * v);
      MoreZeros(v, n);
      n + 1
  }

  lemma MoreZeros(v: int, n: nat)
    requires 0 < v < B63 && B63 <= 2 * v * Pow(2, n) < B64
    ensures n <= 62 && v * Pow(2, n + 1) == 2 * v * Pow(2, n)
  {
    assert v * (2 * Pow(2, n)) == 2 * v * Pow(2, n);
    if n >= 63 {
      Pow2Grows(63, n);
      PowIs(2, 49, 14, 0x2_0000_0000_0000, 0x4000) by { PowersOfTwo(); SmallPowers(); PowIs(2, 7, 7, 128, 128); }
      hide Pow;
      Times(2, 2 * v, B63, Pow(2, n));
      assert false;
    }
  }

  /** Bounds on v = sig * x from bounds on x, after normalising sig by lz places. */
  lemma ValueBounds(sig: int, lz: nat, t: int, b: int, x: real)
    requires sig > 0 && Dyadic(t, b) <= x < Dyadic(t + 1, b)
    ensures var s := sig * Pow(2, lz);
      Dyadic(Mul(s, t), b - lz) <= sig as real * x < Dyadic(Mul(s, t + 1), b - lz)
  {
    hide Pow;
    Normalised(sig, lz, t, b);
    Normalised(sig, lz, t + 1, b);
    hide Dyadic;
    Scale(Dyadic(t, b), x, sig as real);
    Strict(x, Dyadic(t + 1, b), sig as real);
    Swap(x, sig as real);
  }

  lemma Normalised(sig: int, lz: nat, t: int, b: int)
    ensures Dyadic(t, b) * sig as real == Dyadic(sig * Pow(2, lz) * t, b - lz)
  {
    Shift(sig * t, b - lz, lz);
    hide R2, Pow;
    Regroup2(sig, t, R2(b));
    assert sig * t * Pow(2, lz) == sig * Pow(2, lz) * t by { Regroup3(sig, t, Pow(2, lz)); }
  }

  lemma Regroup2(k: int, p: int, s: real)
    ensures (p as real * s) * k as real == (k * p) as real * s
  {
    assert (k * p) as real == k as real * p as real;
  }

  lemma Regroup3(a: int, b: int, c: int)
    ensures a * b * c == a * c * b
  {
  }

  /** v lies strictly inside one cell of the grid of quarter units, on a known side of the
      middle of its unit. */
  lemma RoundInside(v: real, lo: int, hi: int, w: int, c: int, up: bool)
    requires Dyadic(lo, w) < v < Dyadic(hi, w) && 4 * c <= lo && hi <= 4 * c + 4
    requires if up then lo >= 4 * c + 2 else hi <= 4 * c + 2
    requires B52 <= c < 2 * B52 && -1074 <= w + 2 < 971
    ensures if !up then Nearest(v, c, w + 2)
            else if c + 1 < 2 * B52 then Nearest(v, c + 1, w + 2)
            else Nearest(v, B52, w + 3)
  {
    hide Nearest;
    Quarter(c, w);
    Quarter(c + 1, w);
    Quarter(2 * c + 1, w);
    Half(lo, w);
    Half(hi, w);
    hide Dyadic;
    Grow(4 * c, lo, w);
    Grow(hi, 4 * c + 4, w);
    if up { Grow(8 * c + 4, 2 * lo, w); } else { Grow(2 * hi, 8 * c + 4, w); }
    RoundsToNearest(v, c, w + 2, up);
  }

  lemma Quarter(m: int, w: int)
    ensures Dyadic(m, w + 2) == Dyadic(4 * m, w)
  {
    hide Dyadic;
    Double(m, w + 1);
    Double(2 * m, w);
  }

  /** The fields of a normal number. */
  lemma RawParts(e: int, m: int)
    requires 1 <= e <= 2046 && B52 <= m < 2 * B52
    ensures var raw := e * B52 + m % B52;
      0 < raw < B63 && RawSig(raw) == m && RawExp(raw) == e - 1075
  {
    assert (e * B52 + m % B52) / B52 == e && (e * B52 + m % B52) % B52 == m % B52;
  }

  function Up(hi: int): bool { hi / 1024 % 2 > 0 }

  lemma UpperBits(h: int)
    requires B63 <= h < B64
    ensures var q, c := h / 512, h / 2048;
      4 * c <= q && q + 1 <= 4 * c + 4 && B52 <= c < 2 * B52 && if Up(h) then q >= 4 * c + 2 else q + 1 <= 4 * c + 2
  {
    var q := h / 512;
    assert h / 1024 == q / 2 && h / 2048 == q / 4;
  }

  lemma LowerBits(h: int)
    requires B63 / 2 <= h < B63
    ensures var q, c := h / 512, 2 * h / 2048;
      4 * c <= 2 * q && 2 * q + 2 <= 4 * c + 4 && B52 <= c < 2 * B52 && if Up(2 * h) then 2 * q >= 4 * c + 2
          else 2 * q + 2 <= 4 * c + 2
  {
    var q := h / 512;
    assert 2 * h / 1024 == q && 2 * h / 2048 == q / 2;
  }

  lemma Carried(hi: int)
    requires B63 <= hi < B64
    ensures var c, s := hi / 2048, ToU64(hi + if Up(hi) then 1024 else 0);
      && (s < 1024 <==> Up(hi) && c + 1 == 2 * B52)
      && (s >= 1024 ==> s as int / 2048 == if Up(hi) then c + 1 else c)
  {
    var q, c := hi / 1024, hi / 2048;
    assert q / 2 == c && (Up(hi) ==> q == 2 * c + 1) && (!Up(hi) ==> q == 2 * c);
  }

  /** The part of the path after the multiplications: h holds the upper 64 bits of the product,
      of which the last 9 may be off. */
  method Round(h: u64, exp2: int, ghost v: real) returns (raw: u64)
    requires B63 / 2 <= h && -1143 <= exp2 <= 890
    requires Dyadic(h as int / 512, exp2 + 73) < v < Dyadic(h as int / 512 + 1, exp2 + 73)
    ensures 0 < raw < B63 && Nearest(v, RawSig(raw), RawExp(raw))
  {
    hide Nearest, Dyadic, Up, RawSig, RawExp;
    var hi: int := h;
    var e := exp2;
    var lz := if hi < B63 then 1 else 0;
    ghost var q := h as int / 512;
    if lz == 1 {
      hi := ToU64(hi * 2);
      LowerBits(h);
      Double(q, exp2 + 72);
      Double(q + 1, exp2 + 72);
      RoundInside(v, 2 * q, 2 * q + 2, exp2 + 72, hi / 2048, Up(hi));
    } else {
      UpperBits(h);
      RoundInside(v, q, q + 1, exp2 + 73, hi / 2048, Up(hi));
    }
    e := e - lz + 64;
    Carried(hi);
    hi := ToU64(hi + if Up(hi) then 1024 else 0);
    if hi < 1024 {
      hi := B63;
      e := e + 1;
    }
    hi := hi / 2048;
    e := e + 11 + 52 + 1023;
    RawParts(e, hi);
    raw := e * B52 + hi % B52;
  }

  /** With the low 9 bits neither all zero nor all one, the neglected part of the product cannot
      reach the bits above them. */
  lemma NarrowWindow(s: int, sig2: int, ext: int, hi: int, lo: int)
    requires 0 <= s < B64 && 0 <= sig2 < B64 && 0 <= ext < B64 && 0 <= lo < B64
    requires hi * B64 + lo == Mul(s, sig2) && hi % 512 != 0 && hi % 512 != 511
    ensures var t, q := sig2 * B64 + ext, hi / 512;
      q * (512 * B128) < Mul(s, t) && Mul(s, t + 1) < (q + 1) * (512 * B128)
  {
    assert s * (sig2 * B64 + ext) == s * sig2 * B64 + s * ext;
    assert s * (sig2 * B64 + ext + 1) == s * sig2 * B64 + s * (ext + 1);
    Times(0, s, 0, ext);
    Times(s, B64 - 1, ext + 1, B64);
  }

  /** With one more product the window is narrower: 2^65 above the sum of the known parts. */
  lemma WideSum(s: int, sig2: int, ext: int, hi: int, lo: int, hi2: int, lo2: int)
    requires 0 <= s < B64 && 0 <= sig2 < B64 && 0 <= ext < B64 && 0 <= lo < B64 && 0 <= lo2 < B64
    requires hi * B64 + lo == Mul(s, sig2) && hi2 * B64 + lo2 == Mul(s, ext)
    ensures var t := sig2 * B64 + ext;
      && Mul(s, t) == hi * B128 + (lo + hi2) * B64 + lo2
      && Mul(s, t + 1) < hi * B128 + (lo + hi2) * B64 + 2 * B64
  {
    assert s * (sig2 * B64 + ext) == s * sig2 * B64 + s * ext;
    assert s * (sig2 * B64 + ext + 1) == s * (sig2 * B64 + ext) + s;
  }

  /** From the window of the product to the window of the value. */
  lemma Window(v: real, a: int, b: int, q: int, w: int)
    requires Dyadic(a, w) <= v < Dyadic(b, w) && q * (512 * B128) < a && b <= (q + 1) * (512 * B128)
    ensures Dyadic(q, w + 137) < v < Dyadic(q + 1, w + 137)
  {
    Shift(q, w, 137);
    Shift(q + 1, w, 137);
    Pow137();
    hide Dyadic, Pow;
    GrowStrict(q * (512 * B128), a, w);
    Grow(b, (q + 1) * (512 * B128), w);
  }

  lemma Pow137()
    ensures Pow(2, 137) == 512 * B128
  {
    hide Pow;
    Pow128();
    SmallPowers();
    PowIs(2, 7, 2, 128, 4);
    PowIs(2, 128, 9, B128, 512);
  }

  /** The value lies within 2^65 units of a multiple of 2^128 units, where its 64-bit significand
      times the truncated power of ten has 2^127 units at least. */
  ghost predicate NearGrid(v: real, w: int) {
    exists q: int :: Dyadic(q * B128 - 2 * B64, w) <= v <= Dyadic(q * B128 + 2 * B64, w)
  }

  lemma NearGridIntro(v: real, a: int, b: int, q: int, w: int)
    requires Dyadic(a, w) <= v < Dyadic(b, w) && q * B128 - 2 * B64 <= a && b <= q * B128 + 2 * B64
    ensures NearGrid(v, w)
  {
    hide Dyadic;
    Grow(q * B128 - 2 * B64, a, w);
    Grow(b, q * B128 + 2 * B64, w);
    assert Dyadic(q * B128 - 2 * B64, w) <= v <= Dyadic(q * B128 + 2 * B64, w);
  }

  /** Fast path 2: when it answers, the bit pattern is that of the double nearest to
      sig * 10^exp; it gives up only when the value is too close to the grid on which the known
      bits of the product end. */
  method FastPath2(sig: u64, exp: int, tab: PowTable) returns (exact: bool, raw: u64)
    requires sig > 0 && -307 < exp < 288 && Truncated(tab, exp)
    ensures exact ==> 0 < raw < B63 && Nearest(sig as real * R10(exp), RawSig(raw), RawExp(raw))
    ensures !exact ==> NearGrid(sig as real * R10(exp), TableExp(exp) - 64 - LeadingZeros(sig))
  {
    hide Nearest, Dyadic, R10, Truncated, NearGrid, Pow, TableExp, Mul;
    ghost var v := sig as real * R10(exp);
    var (sig2, ext) := tab(exp);
    var exp2 := TableExp(exp);
    ghost var t := Sig128(tab, exp);
    TableValue(tab, exp);
    TableTop(tab, exp);
    ExpRange(exp);
    var lz := LeadingZeros(sig);
    var sig1: u64 := ToU64(sig * Pow(2, lz));
    ValueBounds(sig, lz, t, exp2 - 64, R10(exp));
    hide LeadingZeros;
    exact, raw := Multiply(sig1, sig2, ext, exp2 - lz, v);
  }

  lemma ExpRange(e: int)
    requires -307 < e < 288
    ensures -1080 <= TableExp(e) <= 890
  {
  }

  /** The multiplications, and the tests of the bits that decide. */
  method Multiply(sig1: u64, sig2: u64, ext: u64, exp2: int, ghost v: real) returns (exact: bool, raw: u64)
    requires sig1 >= B63 && sig2 >= B63 && -1143 <= exp2 <= 890
    requires var t := sig2 * B64 + ext; Dyadic(Mul(sig1, t), exp2 - 64) <= v < Dyadic(Mul(sig1, t + 1), exp2 - 64)
    ensures exact ==> 0 < raw < B63 && Nearest(v, RawSig(raw), RawExp(raw))
    ensures !exact ==> NearGrid(v, exp2 - 64)
  {
    hide Nearest, Dyadic, NearGrid, RawSig, RawExp, Mul;
    ghost var a, b, w := Mul(sig1, sig2 * B64 + ext), Mul(sig1, sig2 * B64 + ext + 1), exp2 - 64;
    var hi, lo := U128Mul(sig1, sig2);
    TopBits(sig1, sig2, hi, lo);
    var bits: int := hi % 512;
    if ToU64(bits - 1) < 510 {
      NarrowWindow(sig1, sig2, ext, hi, lo);
      Window(v, a, b, hi as int / 512, w);
      raw := Round(hi, exp2, v);
      return true, raw;
    }
    var hi2, lo2 := U128Mul(sig1, ext);
    WideSum(sig1, sig2, ext, hi, lo, hi2, lo2);
    var add: u64 := ToU64(lo as int + hi2);
    var carry := if add < lo || add < hi2 then 1 else 0;
    CarryIs(lo, hi2);
    if ToU64(add + 1) > 1 {
      WideWindow(a, b, hi, carry, add, lo2);
      Window(v, a, b, (hi + carry) / 512, w);
      raw := Round(hi + carry, exp2, v);
      return true, raw;
    }
    NearGridIntro(v, a, b, hi + carry + (if add == 0 then 0 else 1), w);
    return false, 0;
  }

  /** The carry of a 64-bit addition shows in its result. */
  lemma CarryIs(x: u64, y: u64)
    ensures var z := ToU64(x as int + y); x as int + y == (if z < x || z < y then 1 else 0) * B64 + z
  {
  }

  lemma WideWindow(a: int, b: int, hi: int, carry: int, add: int, lo2: int)
    requires 0 < add < B64 - 1 && 0 <= lo2
    requires a == hi * B128 + (carry * B64 + add) * B64 + lo2 && b <= hi * B128 + (carry * B64 + add) * B64 + 2 * B64
    ensures var q := (hi + carry) / 512; q * (512 * B128) < a && b <= (q + 1) * (512 * B128)
  {
  }

  lemma TableTop(tab: PowTable, e: int)
    requires Truncated(tab, e)
    ensures tab(e).0 >= B63
  {
  }

  /** The product of two normalised significands has 127 or 128 bits and is not close to 2^128. */
  lemma TopBits(a: u64, b: u64, hi: u64, lo: u64)
    requires a >= B63 && b >= B63 && hi * B64 + lo == Mul(a, b)
    ensures B63 / 2 <= hi < B64 - 1
  {
    Times(B63, a, B63, b);
    Times(a, B64 - 1, b, B64 - 1);
  }
}
