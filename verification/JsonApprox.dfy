/** The 64-bit approximation of read_number: the significand times a rounded power of ten, with a bound
    on its error that says whether the double it gives is certain or may be one too low. */
module JsonApprox {
  import opened Powers
  import opened JsonPowers
  import opened JsonRound
  import opened JsonHalfway

  /** m * 2^w, as diy_fp holds it. */
  datatype DiyFp = DiyFp(sig: u64, exp: int)

  /** v is less than err eighths of a unit 2^w away from m units. */
  ghost predicate Near(v: real, m: int, err: int, w: int) {
    Dyadic(8 * m - err, w - 3) < v < Dyadic(8 * m + err, w - 3)
  }

  /** v is sig * 10^exp, or when digits were cut off within half of 10^exp of it. */
  ghost predicate Within(v: real, sig: int, exp: int, cut: bool) {
    var c := if cut then 1 else 0;
    Decimal(2 * sig - c, exp) <= 2.0 * v <= Decimal(2 * sig + c, exp)
  }

  // ---- the product

  /** diy_fp_get_cached_pow10 */
  function CachedPow10(tab: PowTable, e: int): DiyFp {
    DiyFp(ToU64(tab(e).0 + tab(e).1 / B63), TableExp(e))
  }

  /** The entry rounded to 64 bits, in halves of its unit. */
  lemma CachedNear(tab: PowTable, e: int)
    requires Truncated(tab, e) && -344 < e < 325 && tab(e).0 < B64 - 1
    ensures var p := CachedPow10(tab, e);
      p.sig >= B63 && Dyadic(2 * p.sig - 1, p.exp - 1) <= R10(e) <= Dyadic(2 * p.sig + 1, p.exp - 1)
  {
    hide R10, TableExp, Truncated, Dyadic, Pow;
    TableTop(tab, e);
    TableValue(tab, e);
    PowersTo64();
    var (p, t) := (CachedPow10(tab, e), Sig128(tab, e));
    RoundedHalf(tab(e).0, tab(e).1);
    hide CachedPow10, Sig128;
    Shift(2 * p.sig - 1, p.exp - 64, 63);
    Shift(2 * p.sig + 1, p.exp - 64, 63);
    Grow((2 * p.sig - 1) * B63, t, p.exp - 64);
    Grow(t + 1, (2 * p.sig + 1) * B63, p.exp - 64);
  }

  lemma RoundedHalf(hi: u64, lo: u64)
    requires hi < B64 - 1
    ensures var p := hi + lo / B63;
      p < B64 && (2 * p - 1) * B63 <= hi * B64 + lo && hi * B64 + lo + 1 <= (2 * p + 1) * B63
  {
  }

  lemma PowersTo64()
    ensures Pow(2, 11) == 2048 && Pow(2, 60) == B64 / 16 && Pow(2, 63) == B63 && Pow(2, 64) == B64
  {
    PowersOfTwo();
    SmallPowers();
    OnePower();
    hide Pow;
    PowIs(2, 7, 2, 128, 4);
    PowIs(2, 9, 2, 512, 4);
    PowIs(2, 49, 7, 0x2_0000_0000_0000, 128);
    PowIs(2, 56, 2, 0x100_0000_0000_0000, 4);
    PowIs(2, 58, 2, 0x400_0000_0000_0000, 4);
    PowIs(2, 56, 7, 0x100_0000_0000_0000, 128);
    PowIs(2, 63, 1, B63, 2);
  }

  lemma TimesDyadic(k: int, n: int, e: int)
    ensures k as real * Dyadic(n, e) == Dyadic(Mul(k, n), e)
  {
    hide R2;
    Regroup2(k, n, R2(e));
    Swap(k as real, Dyadic(n, e));
  }

  /** Integer multiples of a number between two others. */
  lemma Multiple(k: int, x: real, n: int, e: int)
    requires k >= 0
    ensures x <= Dyadic(n, e) ==> k as real * x <= Dyadic(Mul(k, n), e)
    ensures x >= Dyadic(n, e) ==> k as real * x >= Dyadic(Mul(k, n), e)
  {
    TimesDyadic(k, n, e);
    hide Dyadic, Mul;
    var y := Dyadic(n, e);
    Swap(k as real, x);
    Swap(k as real, y);
    if x <= y { Scale(x, y, k as real); }
    if x >= y { Scale(y, x, k as real); }
  }

  /** The product of a and p is off by less than half a unit of a for the power of ten, c for the
      significand, and half a unit for the rounding. */
  lemma ProductAbove(a: int, p: int, c: int, m: int)
    requires 0 <= a < B64 && 0 <= p < B64 && c >= 0 && Mul(a, p) - m * B64 < B63
    ensures 2 * Mul(2 * a + c, 2 * p + 1) < (8 * m + 8 + 4 * c) * B64
  {
    Times(c, c, p, B64 - 1);
    assert Mul(2 * a + c, 2 * p + 1) == 4 * Mul(a, p) + 2 * a + 2 * (c * p) + c;
  }

  lemma ProductBelow(a: int, p: int, c: int, m: int)
    requires 0 <= a < B64 && 0 <= p < B64 && c >= 0 && Mul(a, p) - m * B64 >= -B63
    ensures 2 * Mul(2 * a - c, 2 * p - 1) > (8 * m - 8 - 4 * c) * B64
  {
    Times(c, c, p, B64 - 1);
    assert Mul(2 * a - c, 2 * p - 1) == 4 * Mul(a, p) - 2 * a - 2 * (c * p) + c;
  }

  lemma ProductNear(v: real, sig: int, exp: int, cut: bool, lz: nat, p: DiyFp, m: int)
    requires sig > 0 && Mul(sig, Pow(2, lz)) < B64 && Within(v, sig, exp, cut)
    requires p.sig > 0 && Dyadic(2 * p.sig - 1, p.exp - 1) <= R10(exp) <= Dyadic(2 * p.sig + 1, p.exp - 1)
    requires -B63 <= Mul(Mul(sig, Pow(2, lz)), p.sig) - m * B64 < B63
    ensures Near(v, m, 8 + (if cut then 4 * Pow(2, lz) else 0), p.exp - lz + 64)
  {
    hide Pow, R10, Dyadic, Mul, Decimal;
    var (c, a: int, q: int, n) := (if cut then 1 else 0, Mul(sig, Pow(2, lz)), p.sig, Pow(2, lz));
    var k := if cut then n else 0;
    TwiceParts(sig, c, n);
    ProductAbove(a, q, k, m);
    ProductBelow(a, q, k, m);
    NearAbove(v, 2 * sig + c, exp, 2 * q + 1, p.exp - 1, lz, 2 * a + k, 8 * m + 8 + 4 * k);
    NearBelow(v, 2 * sig - c, exp, 2 * q - 1, p.exp - 1, lz, 2 * a - k, 8 * m - 8 - 4 * k);
  }

  lemma TwiceParts(sig: int, c: int, n: nat)
    requires sig > 0 && 0 <= c <= 1
    ensures 0 <= Mul(sig, n) && Mul(2 * sig + c, n) == 2 * Mul(sig, n) + (if c == 1 then n else 0)
    ensures Mul(2 * sig - c, n) == 2 * Mul(sig, n) - if c == 1 then n else 0
  {
    Times(0, sig, 0, n);
  }

  lemma NearAbove(v: real, k: int, exp: int, n: int, e: int, lz: nat, a: int, u: int)
    requires k >= 0 && 2.0 * v <= Decimal(k, exp) && R10(exp) <= Dyadic(n, e)
    requires a == Mul(k, Pow(2, lz)) && 2 * Mul(a, n) < u * B64
    ensures v < Dyadic(u, e - lz + 62)
  {
    hide Pow, Dyadic, Mul, R10;
    Multiple(k, R10(exp), n, e);
    Finer(k, n, e, lz);
    Eighths(u, e - lz + 62);
    GrowStrict(Mul(a, n), u * B63, e - lz - 1);
  }

  lemma NearBelow(v: real, k: int, exp: int, n: int, e: int, lz: nat, a: int, u: int)
    requires k >= 0 && 2.0 * v >= Decimal(k, exp) && R10(exp) >= Dyadic(n, e)
    requires a == Mul(k, Pow(2, lz)) && 2 * Mul(a, n) > u * B64
    ensures v > Dyadic(u, e - lz + 62)
  {
    hide Pow, Dyadic, Mul, R10;
    Multiple(k, R10(exp), n, e);
    Finer(k, n, e, lz);
    Eighths(u, e - lz + 62);
    GrowStrict(u * B63, Mul(a, n), e - lz - 1);
  }

  lemma Finer(k: int, n: int, e: int, lz: nat)
    ensures Dyadic(Mul(k, n), e) == 2.0 * Dyadic(Mul(Mul(k, Pow(2, lz)), n), e - lz - 1)
  {
    hide Dyadic, Pow;
    Shift(Mul(k, n), e - lz, lz);
    Regroup3(k, n, Pow(2, lz));
    Double(Mul(Mul(k, Pow(2, lz)), n), e - lz - 1);
    Half(Mul(Mul(k, Pow(2, lz)), n), e - lz - 1);
  }

  lemma Eighths(n: int, w: int)
    ensures Dyadic(n, w) == Dyadic(n * B63, w - 63)
  {
    hide Pow;
    PowersTo64();
    Shift(n, w - 63, 63);
  }

  /** diy_fp_mul: the product rounded to its upper 64 bits. */
  method DiyMul(a: DiyFp, b: DiyFp) returns (r: DiyFp)
    requires a.sig >= B63 && b.sig >= B63
    ensures r.exp == a.exp + b.exp + 64 && r.sig >= B63 / 2
    ensures -B63 <= Mul(a.sig, b.sig) - r.sig * B64 < B63
  {
    hide Mul;
    var hi, lo := U128Mul(a.sig, b.sig);
    TopBits(a.sig, b.sig, hi, lo);
    r := DiyFp(ToU64(hi + lo / B63), a.exp + b.exp + 64);
  }

  /** The same in units half as large. */
  lemma NearDouble(v: real, m: int, err: int, w: int)
    requires Near(v, m, err, w)
    ensures Near(v, 2 * m, 2 * err, w - 1)
  {
    hide Dyadic;
    Double(8 * m - err, w - 4);
    Double(8 * m + err, w - 4);
  }

  /** Low bits dropped, with the error rounded up and a whole unit for them. */
  lemma NearShrink(v: real, m: int, err: nat, w: int, n: nat)
    requires m >= 0 && Near(v, m, err, w)
    ensures Near(v, High(m, n), High(err, n) + 9, w + n)
  {
    hide Dyadic, Pow;
    var (q, e) := (m / Pow(2, n), err / Pow(2, n) + 9);
    Shift(8 * q - e, w - 3, n);
    Shift(8 * q + e, w - 3, n);
    Quotients(m, err, Pow(2, n));
    Grow((8 * q - e) * Pow(2, n), 8 * m - err, w - 3);
    Grow(8 * m + err, (8 * q + e) * Pow(2, n), w - 3);
  }

  lemma Quotients(m: nat, err: nat, p: nat)
    requires p > 0
    ensures var (q, e) := (m / p, err / p + 9);
      (8 * q - e) * p <= 8 * m - err && 8 * m + err <= (8 * q + e) * p
  {
    var (q, e) := (m / p, err / p);
    assert m == q * p + m % p && err == e * p + err % p;
    assert (8 * q - (e + 9)) * p == 8 * (q * p) - e * p - 9 * p;
    assert (8 * q + (e + 9)) * p == 8 * (q * p) + e * p + 9 * p;
  }

  // ---- the bit pattern

  /** diy_fp_to_ieee_raw */
  function ToRaw(fp: DiyFp): int {
    if fp.sig == 0 then 0
    else
      var lz := LeadingZeros(fp.sig);
      var sig := ToU64(fp.sig * Pow(2, lz)) / 2048;
      var exp := fp.exp - lz + 11 + 52;
      if exp >= 1024 then RawInf
      else if exp >= -1022 then (exp + 1023) * B52 + sig % B52
      else if exp >= -1074 then sig / Pow(2, -1022 - exp)
      else 0
  }

  /** The number of leading zeros is the one shift that normalises. */
  lemma LeadingIs(v: int, n: nat)
    requires 0 < v < B64 && B63 <= v * Pow(2, n) < B64
    ensures LeadingZeros(v) == n
  {
    var k := LeadingZeros(v);
    if k < n { Doubles(v, k, n); } else if n < k { Doubles(v, n, k); }
  }

  lemma Doubles(v: int, k: nat, n: nat)
    requires v > 0 && k < n
    ensures v * Pow(2, n) >= 2 * (v * Pow(2, k))
  {
    Pow2Grows(k + 1, n);
    hide Pow;
    PowIs(2, k, 1, Pow(2, k), 2) by { OnePower(); }
    Times(v, v, Pow(2, k + 1), Pow(2, n));
    assert v * (Pow(2, k) * 2) == 2 * (v * Pow(2, k));
  }

  /** A full significand. */
  lemma RawNormal(q: int, b: int)
    requires B52 <= q < 2 * B52 && b >= -1074
    ensures var raw := ToRaw(DiyFp(q, b));
      if b > 971 then raw == RawInf
      else 0 < raw < RawInf && RawSig(raw) == q && RawExp(raw) == b
  {
    hide Pow, LeadingZeros;
    PowersTo64();
    LeadingIs(q, 11);
    if b <= 971 {
      hide ToRaw, RawSig, RawExp;
      RawParts(b + 1075, q);
      RawValue(q, b);
    }
  }

  lemma RawValue(q: int, b: int)
    requires B52 <= q < 2 * B52 && -1074 <= b <= 971
    ensures ToRaw(DiyFp(q, b)) == (b + 1075) * B52 + q % B52 < RawInf
  {
    hide Pow, LeadingZeros;
    PowersTo64();
    LeadingIs(q, 11);
  }

  /** A carry into the next power of two. */
  lemma RawCarry(b: int)
    ensures ToRaw(DiyFp(2 * B52, b)) == ToRaw(DiyFp(B52, b + 1))
  {
    hide Pow, LeadingZeros;
    PowersTo64();
    TenBits();
    LeadingIs(2 * B52, 10);
    LeadingIs(B52, 11);
  }

  lemma TenBits()
    ensures Pow(2, 10) == 1024
  {
    SmallPowers();
    hide Pow;
    PowIs(2, 5, 5, 32, 32);
  }

  /** A short significand with the least exponent. */
  lemma RawShort(q: int)
    requires 0 <= q <= B52
    ensures ToRaw(DiyFp(q, -1074)) == q && RawSig(q) == q && RawExp(q) == -1074
  {
    if q == B52 {
      hide ToRaw;
      RawValue(B52, -1074);
    } else if q > 0 {
      hide Pow, LeadingZeros;
      var lz := LeadingZeros(q);
      ShortZeros(q, lz);
      ShiftBack(q, lz);
    }
  }

  lemma ShortZeros(q: int, lz: nat)
    requires 0 < q < B52 && lz == LeadingZeros(q)
    ensures 11 < lz <= 63
  {
    if lz <= 11 {
      hide Pow, LeadingZeros;
      PowersTo64();
      Pow2Grows(lz, 11);
      Times(q, B52 - 1, Pow(2, lz), 2048);
      assert false;
    }
  }

  lemma ShiftBack(q: int, lz: nat)
    requires 0 < q && 11 < lz && q * Pow(2, lz) < B64
    ensures ToU64(q * Pow(2, lz)) / 2048 / Pow(2, lz - 11) == q
  {
    hide Pow;
    PowersTo64();
    PowIs(2, 11, lz - 11, 2048, Pow(2, lz - 11));
    var p := Pow(2, lz - 11);
    Times(0, q, 0, Pow(2, lz));
    assert q * (2048 * p) == 2048 * (q * p);
    Exactly(q, p);
  }

  lemma Exactly(q: int, p: int)
    requires p > 0
    ensures q * p / p == q
  {
    var (d, r) := (q * p / p, q * p % p);
    assert q * p == d * p + r;
    assert (q - d) * p == r;
    if q > d { Times(1, q - d, p, p); } else if q < d { Negative(d - q, p, r); }
  }

  lemma Negative(k: int, p: int, r: int)
    requires k > 0 && p > 0 && -k * p == r
    ensures r < 0
  {
  }

  /** Below the least exponent nothing is left of one unit. */
  lemma RawNothing(q: int, b: int)
    requires 0 <= q <= 1 && b < -1074
    ensures ToRaw(DiyFp(q, b)) == 0
  {
    if q == 1 {
      hide Pow, LeadingZeros;
      PowersTo64();
      LeadingIs(1, 63);
    }
  }

  // ---- the decision

  /** A number near c * 2^b, on the right side of the halfway points around it. */
  lemma RoundHere(v: real, raw: int, c: int, b: int)
    requires 0 <= raw < RawInf && RawSig(raw) == c && RawExp(raw) == b && v >= 0.0
    requires v < Dyadic(2 * c + 1, b - 1)
    requires v > Dyadic(4 * c - 1, b - 2) || ((c > B52 || b == -1074) && v > Dyadic(2 * c - 1, b - 1))
    ensures NearestEven(v, raw)
  {
    hide Dyadic, RawSig, RawExp, NearestEven;
    NextDouble(raw);
    HalfwayIs(raw);
    if v >= DoubleOf(raw) {
      DecidedIsNearest(v, raw, raw);
    } else {
      Below(v, raw, c, b);
    }
  }

  lemma Below(v: real, raw: int, c: int, b: int)
    requires 0 <= raw < RawInf && RawSig(raw) == c && RawExp(raw) == b && 0.0 <= v < DoubleOf(raw)
    requires v > Dyadic(4 * c - 1, b - 2) || ((c > B52 || b == -1074) && v > Dyadic(2 * c - 1, b - 1))
    ensures NearestEven(v, raw)
  {
    hide Dyadic, NearestEven;
    if raw == 0 {
      ZeroDouble();
    } else {
      Previous(raw);
      hide RawSig, RawExp;
      NextDouble(raw - 1);
      HalfwayIs(raw - 1);
      Grow(4 * c - 2, 4 * c - 1, b - 2);
      Double(2 * c - 1, b - 2);
      DecidedIsNearest(v, raw - 1, raw);
    }
  }

  lemma ZeroDouble()
    ensures DoubleOf(0) == 0.0
  {
    hide R2;
  }

  /** The double before: half a unit less apart when the significand was the smallest. */
  lemma Previous(raw: int)
    requires 0 < raw < RawInf
    ensures var (c, b) := (RawSig(raw), RawExp(raw));
      || (HalfSig(raw - 1) == 2 * c - 1 && HalfExp(raw - 1) == b - 1)
      || (c == B52 && b > -1074 && HalfSig(raw - 1) == 4 * c - 1 && HalfExp(raw - 1) == b - 2)
  {
    RawFields(raw - 1);
    hide RawSig, RawExp;
  }

  /** Nothing is nearer to what lies above the largest double's upper halfway point. */
  lemma RoundsToInf(v: real)
    requires v > Halfway(RawInf - 1)
    ensures NearestEven(v, RawInf)
  {
    hide Halfway, DoubleOf;
    HalfwayIs(RawInf - 1);
    NextDouble(RawInf - 1);
    if v <= DoubleOf(RawInf) {
      DecidedIsNearest(v, RawInf - 1, RawInf);
    } else {
      forall r | 0 <= r <= RawInf && r != RawInf
        ensures Distance(v, DoubleOf(RawInf)) < Distance(v, DoubleOf(r))
      {
        DoublesGrow(r, RawInf);
      }
    }
  }

  lemma LargestHalf()
    ensures Halfway(RawInf - 1) == Dyadic(4 * B52 - 1, 970)
  {
    Fields(RawInf - 1, 2046, B52 - 1);
    hide Dyadic;
  }

  /** The bits of m from the n-th on, and those below. */
  function High(m: nat, n: nat): (r: nat)
    ensures r <= m
  {
    DivLess(m, Pow(2, n));
    m / Pow(2, n)
  }

  lemma DivLess(m: nat, p: nat)
    requires p > 0
    ensures m / p <= m
  {
    Times(1, p, m + 1, m + 1);
    QuotientBelow(m, p, m + 1);
  }

  function Low(m: nat, n: nat): (r: nat)
    ensures r < Pow(2, n)
  {
    m % Pow(2, n)
  }

  /** The error stays on one side of the halfway point, or inside the two neighbours. */
  lemma Sides(v: real, m: nat, err: nat, w: int, n: nat)
    requires n >= 11 && Near(v, m, err, w) && err <= 1024
    ensures var (q: int, rest, half, b) := (High(m, n), Low(m, n) * 8, 4 * Pow(2, n), w + n);
      && Dyadic(4 * q - 1, b - 2) < v < Dyadic(4 * q + 5, b - 2)
      && (rest <= half - err ==> v < Dyadic(2 * q + 1, b - 1))
      && (rest >= half + err ==> v > Dyadic(2 * q + 1, b - 1))
      && (rest > half - err ==> v > Dyadic(q, b)) && (rest < half + err ==> v < Dyadic(q + 1, b))
  {
    hide Dyadic, Pow, High, Low;
    PowersTo64();
    Pow2Grows(11, n);
    var (q: int, r, p, lo, hi) := (High(m, n), Low(m, n), Pow(2, n), 8 * m - err, 8 * m + err);
    HighLow(m, n);
    var g := q * p;
    Eight(q, -1, w, n);
    Eight(q, 5, w, n);
    Order(8 * g - 2 * p, lo, hi, 8 * g + 10 * p, v, w - 3);
    Eight(q, 2, w, n);
    Double(2 * q + 1, w + n - 2);
    if 8 * r <= 4 * p - err { Grow(hi, 8 * g + 4 * p, w - 3); }
    if 8 * r >= 4 * p + err { Grow(8 * g + 4 * p, lo, w - 3); }
    Eight(q, 0, w, n);
    Twice(q, w + n);
    if 8 * r > 4 * p - err { Grow(8 * g, lo, w - 3); }
    Eight(q, 4, w, n);
    Twice(q + 1, w + n);
    if 8 * r < 4 * p + err { Grow(hi, 8 * g + 8 * p, w - 3); }
  }

  lemma HighLow(m: nat, n: nat)
    ensures m == High(m, n) * Pow(2, n) + Low(m, n)
  {
  }

  lemma Twice(q: int, b: int)
    ensures Dyadic(q, b) == Dyadic(4 * q, b - 2)
  {
    hide Dyadic;
    Double(q, b - 1);
    Double(2 * q, b - 2);
  }

  lemma Order(a: int, lo: int, hi: int, z: int, v: real, e: int)
    requires a <= lo && hi <= z && Dyadic(lo, e) < v < Dyadic(hi, e)
    ensures Dyadic(a, e) < v < Dyadic(z, e)
  {
    hide Dyadic;
    Grow(a, lo, e);
    Grow(hi, z, e);
  }

  lemma Eight(q: int, k: int, w: int, n: nat)
    ensures Dyadic(4 * q + k, w + n - 2) == Dyadic(8 * (q * Pow(2, n)) + 2 * (k * Pow(2, n)), w - 3)
  {
    hide Dyadic, Pow;
    Shift(4 * q + k, w - 3, n + 1);
    PowIs(2, n, 1, Pow(2, n), 2) by { OnePower(); }
    Parts4(q, k, Pow(2, n));
  }

  lemma Parts4(q: int, k: int, p: int)
    ensures (4 * q + k) * (p * 2) == 8 * (q * p) + 2 * (k * p)
  {
  }

  /** What rounding to the bits of a double leaves: a full significand, or the least exponent. */
  predicate Fits(q: int, b: int) { (B52 <= q < 2 * B52 && b >= -1074) || (0 <= q < B52 && b == -1074) }

  lemma TooLarge(v: real, q: int, b: int)
    requires q >= 4 * B52 - 1 && b >= 970 && v > Dyadic(q, b)
    ensures NearestEven(v, RawInf)
  {
    hide Dyadic, Halfway, NearestEven;
    LargestHalf();
    Grow(4 * B52 - 1, q, b);
    Raise(4 * B52 - 1, 970, b);
    RoundsToInf(v);
  }

  lemma RoundsDown(v: real, q: int, b: int)
    requires Fits(q, b) && v >= 0.0 && Dyadic(4 * q - 1, b - 2) < v < Dyadic(2 * q + 1, b - 1)
    ensures NearestEven(v, ToRaw(DiyFp(q, b)))
  {
    hide Dyadic, ToRaw, RawSig, RawExp, NearestEven;
    if q < B52 {
      RawShort(q);
      RoundHere(v, q, q, b);
    } else {
      RawNormal(q, b);
      if b > 971 { TooLarge(v, 4 * q - 1, b - 2); } else { RoundHere(v, ToRaw(DiyFp(q, b)), q, b); }
    }
  }

  lemma RoundsUp(v: real, q: int, b: int)
    requires Fits(q, b) && v >= 0.0 && Dyadic(2 * q + 1, b - 1) < v < Dyadic(4 * q + 5, b - 2)
    ensures NearestEven(v, ToRaw(DiyFp(q + 1, b)))
  {
    hide Dyadic, ToRaw, RawSig, RawExp, NearestEven;
    Double(2 * q + 1, b - 2);
    Double(2 * q + 3, b - 2);
    Grow(4 * q + 5, 4 * q + 6, b - 2);
    if q < B52 {
      RawShort(q + 1);
      RoundHere(v, q + 1, q + 1, b);
    } else if q + 1 < 2 * B52 {
      RawNormal(q + 1, b);
      if b > 971 { TooLarge(v, 4 * q + 2, b - 2); } else { RoundHere(v, ToRaw(DiyFp(q + 1, b)), q + 1, b); }
    } else {
      RawCarry(b);
      RawNormal(B52, b + 1);
      if b + 1 > 971 {
        TooLarge(v, 2 * q + 1, b - 1);
      } else {
        Double(2 * B52 + 1, b - 1);
        Double(4 * B52 + 2, b - 2);
        Grow(4 * q + 5, 8 * B52 + 4, b - 2);
        RoundHere(v, ToRaw(DiyFp(B52, b + 1)), B52, b + 1);
      }
    }
  }

  lemma RoundsInside(v: real, q: int, b: int)
    requires Fits(q, b) && v >= 0.0 && Dyadic(q, b) < v < Dyadic(q + 1, b) && ToRaw(DiyFp(q, b)) != RawInf
    ensures Between(v, ToRaw(DiyFp(q, b)))
  {
    hide Dyadic, ToRaw, RawSig, RawExp;
    if q < B52 { RawShort(q); } else { RawNormal(q, b); }
    NextDouble(ToRaw(DiyFp(q, b)));
  }

  lemma RoundsToNothing(v: real)
    requires 0.0 <= v < Halfway(0)
    ensures NearestEven(v, 0) && Between(v, 0)
  {
    hide Halfway, NearestEven, DoubleOf;
    ZeroDouble();
    NextDouble(0);
    HalfwayIs(0);
    DecidedIsNearest(v, 0, 0);
  }

  /** What is dropped, and where the bits that are kept end. */
  function Kept(order: int): (size: nat)
    ensures size <= 53
  {
    if order >= -1021 then 53 else if order <= -1074 then 0 else order + 1074
  }

  lemma PowersMeet(n: nat)
    requires n <= 64
    ensures Pow(2, n) * Pow(2, 64 - n) == B64
  {
    PowersTo64();
    PowAdd(2, n, 64 - n);
  }

  lemma QuotientBelow(x: nat, p: nat, z: nat)
    requires x < p * z && p > 0
    ensures x / p < z
  {
    if x / p >= z { Times(z, x / p, p, p); }
  }

  lemma QuotientAbove(x: nat, p: nat, z: nat)
    requires x >= p * z && p > 0
    ensures x / p >= z
  {
    if x / p + 1 <= z { Times(x / p + 1, z, p, p); }
  }

  /** The bits kept of a normalised significand. */
  lemma FitsLong(sig: u64, w: int)
    requires sig >= B63 && Kept(64 + w) > 3
    ensures var count := 64 - Kept(64 + w);
      11 <= count <= 60 && Fits(High(sig, count), w + count) && Pow(2, count) <= B64 / 16
  {
    hide Pow;
    var size := Kept(64 + w);
    PowersTo64();
    PowersMeet(64 - size);
    Pow2Grows(64 - size, 60);
    QuotientBelow(sig, Pow(2, 64 - size), Pow(2, size));
    if size == 53 {
      QuotientAbove(sig, 2048, B52);
      Pow53();
    } else {
      Pow2Grows(size, 52);
      Pow53();
    }
  }

  lemma Pow53()
    ensures Pow(2, 52) == B52 && Pow(2, 53) == 2 * B52
  {
    PowersOfTwo();
    SmallPowers();
    OnePower();
    hide Pow;
    PowIs(2, 49, 2, 0x2_0000_0000_0000, 4);
    PowIs(2, 51, 1, B52 / 2, 2);
    PowIs(2, 52, 1, B52, 2);
  }

  /** When hardly any bit is kept, some are dropped beforehand. */
  lemma FitsShort(sig: u64, w: int, err: nat)
    requires Kept(64 + w) <= 3 && err <= 146
    ensures var (shr, count) := (4 - Kept(64 + w), 64 - Kept(64 + w));
      var q := High(High(sig, shr), 60);
      && (w >= -1138 ==> Fits(q, w + count)) && (w < -1138 ==> q == 0)
      && High(err, shr) + 9 <= 146 && Pow(2, 60) == B64 / 16
  {
    var (size, shr) := (Kept(64 + w), 4 - Kept(64 + w));
    PowersTo64();
    SmallPow2(size);
    hide Pow;
    PowersMeet(shr);
    PowAdd(2, 60, size);
    QuotientBelow(sig, Pow(2, shr), Pow(2, 60 + size));
    QuotientBelow(sig / Pow(2, shr), Pow(2, 60), Pow(2, size));
    Pow2Grows(1, shr);
    OnePower();
    QuotientBelow(err, Pow(2, shr), 74);
  }

  lemma SmallPow2(n: nat)
    requires n <= 3
    ensures Pow(2, n) <= 8 && Pow(2, 0) == 1
  {
  }

  /** raw is the answer for v, or may be one too low. */
  ghost predicate Answers(v: real, raw: int, sure: bool) {
    if sure then NearestEven(v, raw) else Between(v, raw)
  }

  /** A number the product stands for. */
  ghost predicate Stands(v: real, m: int, err: int, w: int, least: int) {
    v >= 0.0 && Near(v, m, err, w) && (w < least ==> v < Halfway(0))
  }

  /** From the product to the bits of a double: certain, or possibly one too low. */
  method Finish(fp: DiyFp, err: nat) returns (raw: int, sure: bool)
    requires fp.sig >= B63 && err <= 146
    ensures 0 <= raw <= RawInf
    ensures forall v | Stands(v, fp.sig, err, fp.exp, -1138) :: Answers(v, raw, sure)
  {
    hide Pow, High, Low, Near, Dyadic, ToRaw, NearestEven, Between, Halfway, Fits, Answers;
    var sig, w, e := fp.sig, fp.exp, err;
    var count := 64 - Kept(64 + w);
    if count + 3 >= 64 {
      var shr := count + 3 - 64 + 1;
      FitsShort(sig, w, err);
      forall v | Stands(v, sig, err, w, -1138) ensures Near(v, High(sig, shr), High(err, shr) + 9, w + shr) {
        NearShrink(v, sig, err, w, shr);
      }
      sig, w, e := High(sig, shr), w + shr, High(err, shr) + 9;
      count := count - shr;
    } else {
      FitsLong(sig, w);
    }
    raw, sure := RoundBits(sig, w, count, e);
  }

  /** The last n bits decide. */
  method RoundBits(sig: u64, w: int, n: nat, err: nat) returns (raw: int, sure: bool)
    requires 11 <= n <= 60 && err <= 146 && if w + n >= -1074 then Fits(High(sig, n), w + n) else High(sig, n) == 0
    ensures 0 <= raw <= RawInf
    ensures forall v | Stands(v, sig, err, w, -1074 - n) :: Answers(v, raw, sure)
  {
    hide Pow, High, Low, Near, Dyadic, ToRaw, NearestEven, Between, Halfway, Answers;
    HalfBit(n);
    var q, rest: u64, half: u64 := High(sig, n), Low(sig, n) * 8, Pow(2, n - 1) * 8;
    raw := ToRaw(DiyFp(q + (if rest >= half + err then 1 else 0), w + n));
    sure := raw == RawInf || rest <= half - err || rest >= half + err;
    RawBits(q, w + n, rest >= half + err);
    forall v | Stands(v, sig, err, w, -1074 - n) ensures Answers(v, raw, sure) {
      Sides(v, sig, err, w, n);
      Settle(v, q, w + n, rest, half, err);
    }
  }

  lemma RawBits(q: int, b: int, up: bool)
    requires if b >= -1074 then Fits(q, b) else q == 0
    ensures 0 <= ToRaw(DiyFp(q + (if up then 1 else 0), b)) <= RawInf
  {
    hide ToRaw, RawSig, RawExp;
    if b < -1074 {
      RawNothing(0, b);
      RawNothing(1, b);
    } else if q < B52 {
      RawShort(q);
      RawShort(q + 1);
    } else {
      RawNormal(q, b);
      if q + 1 < 2 * B52 {
        RawNormal(q + 1, b);
      } else {
        RawCarry(b);
        RawNormal(B52, b + 1);
      }
    }
  }

  lemma HalfBit(n: nat)
    requires 11 <= n <= 60
    ensures Pow(2, n) == 2 * Pow(2, n - 1) <= B64 / 16
  {
    PowersTo64();
    Pow2Grows(n, 60);
  }

  /** Each outcome of that decision is right. */
  lemma Settle(v: real, q: int, b: int, rest: nat, half: nat, err: nat)
    requires if b >= -1074 then Fits(q, b) else q == 0 && v < Halfway(0)
    requires v >= 0.0 && Dyadic(4 * q - 1, b - 2) < v < Dyadic(4 * q + 5, b - 2)
    requires rest <= half - err ==> v < Dyadic(2 * q + 1, b - 1)
    requires rest >= half + err ==> v > Dyadic(2 * q + 1, b - 1)
    requires half - err < rest < half + err ==> Dyadic(q, b) < v < Dyadic(q + 1, b)
    ensures var raw := ToRaw(DiyFp(q + (if rest >= half + err then 1 else 0), b));
      Answers(v, raw, raw == RawInf || rest <= half - err || rest >= half + err)
  {
    hide Dyadic, ToRaw, NearestEven, Between, Halfway;
    var raw := ToRaw(DiyFp(q + (if rest >= half + err then 1 else 0), b));
    if b < -1074 {
      RawNothing(0, b);
      RawNothing(1, b);
      RoundsToNothing(v);
    } else if rest >= half + err {
      RoundsUp(v, q, b);
    } else if rest <= half - err {
      RoundsDown(v, q, b);
    } else if raw != RawInf {
      RoundsInside(v, q, b);
    } else {
      InfInside(v, q, b);
    }
  }

  lemma InfInside(v: real, q: int, b: int)
    requires Fits(q, b) && v > Dyadic(q, b) && ToRaw(DiyFp(q, b)) == RawInf
    ensures NearestEven(v, RawInf)
  {
    hide Dyadic, ToRaw, NearestEven, RawSig, RawExp;
    if q < B52 {
      RawShort(q);
    } else {
      RawNormal(q, b);
      Double(q, b - 1);
      Double(2 * q, b - 2);
      TooLarge(v, 4 * q, b - 2);
    }
  }

  // ---- around half of the smallest double

  const Five50 := 88817841970012523233890533447265625
  const Five73 := 1058791184067875423835403125849552452564239501953125
  const Five342 := Five73 * Five73 * (Five73 * Five73) * Five50

  const Two145 := 0x2_0000_0000_0000_0000_0000_0000_0000_0000_0000
  const Two732 := Two145 * Two145 * (Two145 * Two145) * Two145 * 128

  lemma Fives()
    ensures Pow(5, 342) == Five342
  {
    PowersOfFive();
    Eleven();
    hide Pow;
    PowIs(5, 39, 11, 1818989403545856475830078125, 48828125);
    PowIs(5, 73, 73, Five73, Five73);
    PowIs(5, 146, 146, Five73 * Five73, Five73 * Five73);
    PowIs(5, 292, 50, Five73 * Five73 * (Five73 * Five73), Five50);
  }

  lemma Eleven()
    ensures Pow(5, 11) == 48828125
  {
  }

  lemma Twos()
    ensures Pow(2, 732) == Two732
  {
    PowersOfTwo();
    SmallPowers();
    hide Pow;
    PowIs(2, 145, 145, Two145, Two145);
    PowIs(2, 290, 290, Two145 * Two145, Two145 * Two145);
    PowIs(2, 580, 145, Two145 * Two145 * (Two145 * Two145), Two145);
    PowIs(2, 725, 7, Two145 * Two145 * (Two145 * Two145) * Two145, 128);
  }

  /** k units of 10^-342 against 2^-b. */
  lemma AgainstTwo(k: nat, b: nat)
    requires b >= 342
    ensures Decimal(k, -342) < R2(0 - b) <==> k * Pow(2, b - 342) < Pow(5, 342)
  {
    hide Pow;
    PowProduct(2, 5, 342);
    PowAdd(2, 342, b - 342);
    var (t, f, u) := (Pow(2, 342), Pow(5, 342), Pow(2, b - 342));
    Fraction(k, t * f, t * u);
    Common(t, k * u, f);
    assert k * (t * u) == t * (k * u);
  }

  lemma Fraction(k: nat, p: nat, q: nat)
    requires p > 0 && q > 0
    ensures k as real * (1.0 / p as real) < 1.0 / q as real <==> k * q < p
  {
    var (x, y) := (1.0 / p as real, 1.0 / q as real);
    assert x * p as real == 1.0 && y * q as real == 1.0;
    Product3(k, p, q, x, y);
  }

  lemma Product3(k: nat, p: nat, q: nat, x: real, y: real)
    requires p > 0 && q > 0 && x * p as real == 1.0 && y * q as real == 1.0
    ensures k as real * x < y <==> k * q < p
  {
    var s := p as real * q as real;
    assert s > 0.0 && (k as real * x) * s == (k * q) as real && y * s == p as real;
    if k as real * x < y { Strict(k as real * x, y, s); } else { Scale(y, k as real * x, s); }
  }

  lemma Common(t: nat, a: nat, b: nat)
    requires t > 0
    ensures t * a < t * b <==> a < b
  {
    if a < b { MulLess(a, b, t); } else { Times(b, a, t, t); }
  }

  /** Half of the smallest double is 2470328229206232720.8... in units of 10^-342. */
  lemma SmallestHalf()
    ensures Decimal(4940656458412465441, -342) < R2(-1074) && Decimal(2470328229206232721, -342) >= R2(-1075)
    ensures Halfway(0) == R2(-1075)
  {
    hide Pow, R2, R10;
    Fives();
    Twos();
    OnePower();
    PowIs(2, 732, 1, Two732, 2);
    AgainstTwo(4940656458412465441, 1074);
    AgainstTwo(2470328229206232721, 1075);
  }

  /** When sig * 10^exp is below half of the smallest double, so is the number with its digits cut
      off: no significand of nineteen digits lies in between. */
  lemma NothingCut(v: real, sig: u64, exp: int, cut: bool)
    requires -343 <= exp && Within(v, sig, exp, cut) && (cut ==> sig >= 1000000000000000000)
    requires Decimal(sig, exp) < R2(-1075)
    ensures v < R2(-1075)
  {
    hide R2, R10, Decimal, Pow;
    SmallestHalf();
    R2Next(-1075);
    Two(sig, exp);
    if cut {
      if exp >= -341 {
        Coarser(sig, exp);
        assert false;
      } else if exp == -343 {
        DecimalShift(3689348814741910324, -343, 1);
        TenPower();
        DecimalOrder(2 * sig + 1, 36893488147419103240, -343);
        DecimalOrder(3689348814741910324, 4940656458412465441, -342);
      } else {
        if sig >= 2470328229206232721 { DecimalOrder(2470328229206232721, sig, -342); }
        DecimalOrder(2 * sig + 1, 4940656458412465441, -342);
      }
    }
  }

  lemma Two(m: int, g: int)
    ensures Decimal(2 * m, g) == 2.0 * Decimal(m, g)
  {
    hide R10;
    Distribute(m as real, m as real, R10(g));
  }

  lemma TenPower()
    ensures Pow(10, 1) == 10
  {
  }

  lemma Coarser(sig: u64, exp: int)
    requires sig >= 1000000000000000000 && exp >= -341
    ensures Decimal(sig, exp) >= R2(-1075)
  {
    hide R2, R10, Decimal, Pow;
    SmallestHalf();
    var n := exp + 341;
    DecimalShift(sig, -342, n + 1);
    TenPower();
    PowIs(10, 1, n, 10, Pow(10, n));
    Times(1000000000000000000, sig, 10, 10 * Pow(10, n));
    DecimalOrder(2470328229206232721, sig * Pow(10, n + 1), -342);
  }

  // ---- the approximation

  /** A product that does not reach half of the smallest double belongs to a number below it. */
  lemma BelowHalf(x: real, m: int, w: int, n: nat)
    requires Near(x, m, 8, w) && m < Pow(2, n) && w + n <= -1075
    ensures x < R2(-1075)
  {
    hide Pow, Dyadic, R2;
    Quarter(m + 1, w - 2);
    Double(4 * m + 4, w - 3);
    Grow(m + 1, Pow(2, n), w);
    Shift(1, w, n);
    Raise(1, w + n, -1075);
    assert Dyadic(1, -1075) == R2(-1075) by { OneUnit(-1075); }
  }

  lemma OneUnit(w: int)
    ensures Dyadic(1, w) == R2(w)
  {
    hide R2;
  }

  lemma Itself(sig: nat, exp: int)
    ensures Within(Decimal(sig, exp), sig, exp, false)
  {
    Two(sig, exp);
  }

  lemma Positive(v: real, sig: int, exp: int, cut: bool)
    requires sig > 0 && Within(v, sig, exp, cut)
    ensures v >= 0.0
  {
    hide R10;
    DecimalOrder(0, 2 * sig - 1, exp);
    DecimalOrder(0, 2 * sig, exp);
  }

  lemma NearWider(v: real, m: int, a: int, b: int, w: int)
    requires Near(v, m, a, w) && a <= b
    ensures Near(v, m, b, w)
  {
    hide Dyadic;
    Grow(8 * m + a, 8 * m + b, w - 3);
    Grow(8 * m - b, 8 * m - a, w - 3);
  }

  /** Significands of nineteen digits have few leading zeros. */
  lemma CutZeros(sig: u64, lz: nat)
    requires sig >= 1000000000000000000 && sig * Pow(2, lz) < B64
    ensures lz <= 4 && Pow(2, lz) <= 16
  {
    SmallPowers();
    if lz > 4 {
      Pow2Grows(5, lz);
      hide Pow;
      Times(1000000000000000000, sig, 32, Pow(2, lz));
      assert false;
    }
    Pow2Grows(lz, 4);
  }

  lemma OneZero(m: u64, lz: nat)
    requires m >= B63 / 2 && m * Pow(2, lz) < B64
    ensures lz <= 1 && Pow(2, lz) == 1 + lz
  {
    SmallPowers();
    OnePower();
    if lz > 1 {
      Pow2Grows(2, lz);
      hide Pow;
      Times(B63 / 2, m, 4, Pow(2, lz));
      assert false;
    }
  }

  /** What the product and its normal form stand for. */
  lemma ApproxNear(v: real, sig: u64, exp: int, cut: bool, lz: nat, p: DiyFp, m: u64, k: nat)
    requires sig > 0 && exp >= -343 && sig * Pow(2, lz) < B64 && Within(v, sig, exp, cut)
    requires cut ==> sig >= 1000000000000000000
    requires p.sig > 0 && Dyadic(2 * p.sig - 1, p.exp - 1) <= R10(exp) <= Dyadic(2 * p.sig + 1, p.exp - 1)
    requires -B63 <= Mul(Mul(sig, Pow(2, lz)), p.sig) - m * B64 < B63
    requires m >= B63 / 2 && m * Pow(2, k) < B64
    ensures var (err, w) := (if cut then 4 * Pow(2, lz) + 9 else 8, p.exp - lz + 64);
      Stands(v, m * Pow(2, k), err * Pow(2, k), w - k, -1138)
  {
    hide Near, Dyadic, R10, Decimal, Halfway, Within, Mul, R2, Pow;
    assert Mul(sig, Pow(2, lz)) == sig * Pow(2, lz) by { MulIs(sig, Pow(2, lz)); }
    var (err, w) := (if cut then 4 * Pow(2, lz) + 9 else 8, p.exp - lz + 64);
    OneZero(m, k);
    Positive(v, sig, exp, cut);
    ProductNear(v, sig, exp, cut, lz, p, m);
    if cut {
      CutZeros(sig, lz);
      NearWider(v, m, 8 + 4 * Pow(2, lz), err, w);
    }
    if k == 1 { NearDouble(v, m, err, w); }
    if w - k < -1138 {
      Itself(sig, exp);
      ProductNear(Decimal(sig, exp), sig, exp, false, lz, p, m);
      PowersTo64();
      BelowHalf(Decimal(sig, exp), m, w, 64 - k);
      NothingCut(v, sig, exp, cut);
      SmallestHalf();
    }
  }

  lemma MulIs(x: int, y: int)
    ensures Mul(x, y) == x * y
  {
  }

  lemma SmallError(sig: u64, cut: bool, lz: nat, m: u64, k: nat)
    requires sig * Pow(2, lz) < B64 && (cut ==> sig >= 1000000000000000000)
    requires m >= B63 / 2 && m * Pow(2, k) < B64
    ensures (if cut then 4 * Pow(2, lz) + 9 else 8) * Pow(2, k) <= 146
  {
    hide Pow;
    OneZero(m, k);
    if cut { CutZeros(sig, lz); }
  }

  /** From significand and exponent to a double, for every number they may stand for: certain, or
      possibly one too low. */
  method Approximate(sig: u64, exp: int, cut: bool, tab: PowTable) returns (raw: int, sure: bool)
    requires sig > 0 && -343 <= exp <= 308 && Truncated(tab, exp) && tab(exp).0 < B64 - 1
    requires cut ==> sig >= 1000000000000000000
    ensures 0 <= raw <= RawInf
    ensures forall v | Within(v, sig, exp, cut) :: Answers(v, raw, sure)
  {
    hide Pow, Stands, Dyadic, R10, Decimal, Answers, Within, Truncated, CachedPow10, LeadingZeros, Mul;
    var lz := LeadingZeros(sig);
    var p := CachedPow10(tab, exp);
    CachedNear(tab, exp);
    var err: nat := if cut then 4 * Pow(2, lz) else 0;
    MulIs(sig, Pow(2, lz));
    var product := DiyMul(DiyFp(sig * Pow(2, lz), -(lz as int)), p);
    err := err + 4 + (if err != 0 then 1 else 0) + 4;
    var k := LeadingZeros(product.sig);
    SmallError(sig, cut, lz, product.sig, k);
    forall v | Within(v, sig, exp, cut)
      ensures Stands(v, product.sig * Pow(2, k), err * Pow(2, k), product.exp - k, -1138)
    {
      ApproxNear(v, sig, exp, cut, lz, p, product.sig, k);
    }
    raw, sure := Finish(DiyFp(product.sig * Pow(2, k), product.exp - k), err * Pow(2, k));
  }
}
