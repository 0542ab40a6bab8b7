/** Decimal numbers against the points halfway between two doubles: how rounding to nearest, ties
    to even, is decided, and how many digits it takes. */
module JsonHalfway {
  import opened Powers
  import opened JsonPowers
  import opened JsonRound

  /** m * 10^g */
  function Decimal(m: int, g: int): real { m as real * R10(g) }

  lemma R10Next(i: int)
    ensures R10(i + 1) == 10.0 * R10(i)
  {
    if i < 0 { assert Pow(10, -i) == 10 * Pow(10, -i - 1); }
  }

  lemma {:induction false} R10Add(i: int, n: nat)
    ensures R10(i + n) == R10(i) * Pow(10, n) as real
  {
    hide R10;
    if n > 0 {
      R10Add(i, n - 1);
      R10Next(i + n - 1);
      assert Pow(10, n) as real == 10.0 * Pow(10, n - 1) as real;
    }
  }

  lemma DecimalShift(m: int, g: int, n: nat)
    ensures Decimal(m, g + n) == Decimal(m * Pow(10, n), g)
  {
    R10Add(g, n);
    hide R10, Pow;
    Regroup(m, Pow(10, n), R10(g));
  }

  lemma DecimalOrder(a: int, b: int, g: int)
    ensures Decimal(a, g) < Decimal(b, g) <==> a < b
    ensures Decimal(a, g) == Decimal(b, g) <==> a == b
  {
    hide R10;
    if a < b { Strict(a as real, b as real, R10(g)); } else if b < a { Strict(b as real, a as real, R10(g)); }
  }

  // ---- neighbouring doubles

  const RawInf: int := 0x7ff0_0000_0000_0000

  /** The number a bit pattern stands for; that of infinity counts as 2^1024. */
  function DoubleOf(raw: int): real { Dyadic(RawSig(raw), RawExp(raw)) }

  lemma NextDouble(raw: int)
    requires 0 <= raw < RawInf
    ensures DoubleOf(raw + 1) == Dyadic(RawSig(raw) + 1, RawExp(raw)) && DoubleOf(raw) < DoubleOf(raw + 1)
    ensures 0 <= RawSig(raw) < 0x20_0000_0000_0000 && -1074 <= RawExp(raw) <= 971
  {
    RawFields(raw);
    hide RawSig, RawExp, Dyadic;
    GrowStrict(RawSig(raw), RawSig(raw) + 1, RawExp(raw));
    if RawSig(raw + 1) != RawSig(raw) + 1 { Double(0x10_0000_0000_0000, RawExp(raw)); }
  }

  /** The next pattern has the next significand, or half of it with the next exponent. */
  lemma RawFields(raw: int)
    requires 0 <= raw < RawInf
    ensures 0 <= RawSig(raw) < 0x20_0000_0000_0000 && -1074 <= RawExp(raw) <= 971
    ensures (RawSig(raw + 1) == RawSig(raw) + 1 && RawExp(raw + 1) == RawExp(raw))
      || (RawSig(raw) + 1 == 2 * 0x10_0000_0000_0000 && RawSig(raw + 1) == 0x10_0000_0000_0000
          && RawExp(raw + 1) == RawExp(raw) + 1)
  {
    var e, m := raw / 0x10_0000_0000_0000, raw % 0x10_0000_0000_0000;
    assert raw == e * 0x10_0000_0000_0000 + m;
    if m + 1 == 0x10_0000_0000_0000 {
      Fields(raw + 1, e + 1, 0);
    } else {
      Fields(raw + 1, e, m + 1);
    }
  }

  lemma Fields(x: int, e: int, m: int)
    requires x == e * 0x10_0000_0000_0000 + m && 0 <= m < 0x10_0000_0000_0000
    ensures x / 0x10_0000_0000_0000 == e && x % 0x10_0000_0000_0000 == m
  {
  }

  lemma {:induction false} DoublesGrow(a: int, b: int)
    requires 0 <= a < b <= RawInf
    ensures DoubleOf(a) < DoubleOf(b)
    decreases b - a
  {
    hide DoubleOf;
    NextDouble(b - 1);
    if a < b - 1 { DoublesGrow(a, b - 1); }
  }

  /** raw is the double nearest to v, the even one of two. */
  ghost predicate NearestEven(v: real, raw: int) {
    && 0 <= raw <= RawInf
    && forall r | 0 <= r <= RawInf && r != raw ::
         Distance(v, DoubleOf(raw)) < Distance(v, DoubleOf(r))
         || (Distance(v, DoubleOf(raw)) == Distance(v, DoubleOf(r)) && raw % 2 == 0)
  }

  /** Significand and exponent of the point halfway to the next double. */
  function HalfSig(raw: int): int { 2 * RawSig(raw) + 1 }

  function HalfExp(raw: int): int { RawExp(raw) - 1 }

  function Halfway(raw: int): real { Dyadic(HalfSig(raw), HalfExp(raw)) }

  lemma HalfwayIs(raw: int)
    requires 0 <= raw < RawInf
    ensures 2.0 * Halfway(raw) == DoubleOf(raw) + DoubleOf(raw + 1)
  {
    NextDouble(raw);
    var (c, b) := (RawSig(raw), RawExp(raw));
    Middle(c, b);
    Half(2 * c + 1, b - 1);
    Double(2 * c + 1, b - 1);
  }

  /** Rounding between raw and the next by the halfway point. */
  function Decided(x: real, raw: int): int {
    if x > Halfway(raw) then raw + 1 else if x == Halfway(raw) then raw + raw % 2 else raw
  }

  /** v is raw's value, or lies between it and the next double's. */
  ghost predicate Between(v: real, raw: int) {
    0 <= raw < RawInf && DoubleOf(raw) <= v <= DoubleOf(raw + 1)
  }

  /** Comparing with the halfway point finds the nearest double, and no other answer is right. */
  lemma DecidedIsNearest(v: real, raw: int, r: int)
    requires Between(v, raw)
    ensures NearestEven(v, r) <==> r == Decided(v, raw)
  {
    hide Halfway, DoubleOf, Distance;
    var d := Decided(v, raw);
    forall x | 0 <= x <= RawInf && x != d
      ensures Distance(v, DoubleOf(d)) < Distance(v, DoubleOf(x))
        || (Distance(v, DoubleOf(d)) == Distance(v, DoubleOf(x)) && d % 2 == 0 && x % 2 == 1)
    {
      Farther(v, raw, x);
    }
    DecidedRange(v, raw);
    assert NearestEven(v, d);
    if NearestEven(v, r) && r != d { OnlyOne(v, r, d); }
  }

  lemma DecidedRange(v: real, raw: int)
    requires 0 <= raw < RawInf
    ensures 0 <= Decided(v, raw) <= RawInf
  {
    hide Halfway;
  }

  /** Every other double is farther away, or as far and odd. */
  lemma Farther(v: real, raw: int, x: int)
    requires Between(v, raw) && 0 <= x <= RawInf && x != Decided(v, raw)
    ensures var d := Decided(v, raw);
      Distance(v, DoubleOf(d)) < Distance(v, DoubleOf(x))
        || (Distance(v, DoubleOf(d)) == Distance(v, DoubleOf(x)) && d % 2 == 0 && x % 2 == 1)
  {
    hide Halfway, DoubleOf;
    HalfwayIs(raw);
    NextDouble(raw);
    if x < raw { DoublesGrow(x, raw); } else if x > raw + 1 { DoublesGrow(raw + 1, x); }
  }

  lemma OnlyOne(v: real, a: int, b: int)
    requires NearestEven(v, a) && NearestEven(v, b)
    requires Distance(v, DoubleOf(b)) == Distance(v, DoubleOf(a)) ==> a % 2 == 1 || a == b
    ensures a == b
  {
    hide DoubleOf, Distance;
  }

  // ---- the digits of a halfway point

  /** A halfway point as an integer and a decimal exponent, not above zero. */
  function HalfDigits(m: nat, q: int): nat { if q >= 0 then m * Pow(2, q) else m * Pow(5, -q) }

  function HalfScale(q: int): int { if q >= 0 then 0 else q }

  lemma TwoIsTenByFive(j: nat)
    ensures R2(0 - j) == Pow(5, j) as real * R10(0 - j)
  {
    PowProduct(2, 5, j);
    hide Pow;
    if j > 0 { Cancel(Pow(2, j) as real, Pow(5, j) as real, Pow(10, j) as real); } else { ZeroPowers(); FiveZero(); }
  }

  lemma FiveZero()
    ensures Pow(5, 0) == 1
  {
  }

  lemma Cancel(a: real, b: real, c: real)
    requires a > 0.0 && b > 0.0 && c == a * b
    ensures 1.0 / a == b * (1.0 / c)
  {
    assert b / c == 1.0 / a by { assert (b / c) * a == 1.0 by { assert b / c * a == b * a / c; } }
  }

  lemma HalfwayDecimal(m: nat, q: int)
    ensures Dyadic(m, q) == Decimal(HalfDigits(m, q), HalfScale(q))
  {
    if q >= 0 {
      Shift(m, 0, q);
      ZeroPowers();
    } else {
      TwoIsTenByFive(-q);
      hide Pow, R10, R2;
      Regroup(m, Pow(5, -q), R10(q));
      assert m as real * (R10(q) * Pow(5, -q) as real) == m as real * R2(q);
    }
  }

  /** A halfway point has at most 768 digits. */
  lemma HalfwayShort(m: nat, q: int)
    requires m < 0x40_0000_0000_0000 && -1075 <= q <= 970
    ensures HalfDigits(m, q) < Pow(10, 768)
  {
    hide Pow;
    LogBelow();
    LogAbove();
    Pow54();
    if q >= 0 {
      Pow2Grows(q, 970);
      Times(m, Pow(2, 54), Pow(2, q), Pow(2, 970));
      PowAdd(2, 54, 970);
      RootBelow(1024, 768, 485, 146);
    } else {
      Pow5Grows(-q, 1075);
      Times(m, Pow(2, 54), Pow(5, -q), Pow(5, 1075));
      RootAbove(1021, 307, 1166, 351);
      PowAdd(2, 54, 1021);
      PowProduct(2, 5, 1075);
      PowAdd(10, 307, 768);
      FiveShort(Pow(2, 54), Pow(2, 1021), Pow(5, 1075), Pow(10, 307), Pow(10, 768));
    }
  }

  lemma FiveShort(a: nat, b: nat, f: nat, t: nat, u: nat)
    requires a * b * f == t * u && t < b && u > 0 && f > 0 && a > 0
    ensures a * f < u
  {
    assert a * f * b == t * u;
    Commute(t, u);
    if a * f >= u { Times(u, a * f, t, t); TimesStrict(a * f, t, b); }
  }

  lemma Commute(a: nat, b: nat)
    ensures a * b == b * a
  {
  }

  lemma TimesStrict(a: nat, b: nat, c: nat)
    requires a > 0 && b < c
    ensures a * b < a * c
  {
  }

  lemma {:induction false} Pow5Grows(m: nat, n: nat)
    requires m <= n
    ensures Pow(5, m) <= Pow(5, n)
    decreases n
  {
    if m < n { Pow5Grows(m, n - 1); }
  }

  lemma Pow54()
    ensures Pow(2, 54) == 0x40_0000_0000_0000
  {
    hide Pow;
    PowersOfTwo();
    SmallPowers();
    PowIs(2, 49, 5, 0x2_0000_0000_0000, 32);
  }

  /** So no halfway point lies strictly between two numbers that agree in their first 768
      digits. */
  lemma Gap(m: nat, q: int, f: nat, g: int)
    requires m < 0x40_0000_0000_0000 && -1075 <= q <= 970 && f >= Pow(10, 767)
    ensures !(Decimal(f, g) < Dyadic(m, q) < Decimal(f + 1, g))
  {
    hide Pow, R10, R2, Dyadic, Decimal, HalfDigits;
    HalfwayDecimal(m, q);
    HalfwayShort(m, q);
    var (a, h) := (HalfDigits(m, q), HalfScale(q));
    if h >= g {
      DecimalShift(a, g, h - g);
      DecimalOrder(f, a * Pow(10, h - g), g);
      DecimalOrder(a * Pow(10, h - g), f + 1, g);
    } else {
      var n := g - h;
      DecimalShift(f, h, n);
      DecimalOrder(f * Pow(10, n), a, h);
      PowAdd(10, 767, 1);
      Pow10Grows(1, n);
      Times(Pow(10, 767), f, Pow(10, 1), Pow(10, n));
    }
  }

  lemma {:induction false} Pow10Grows(m: nat, n: nat)
    requires m <= n
    ensures Pow(10, m) <= Pow(10, n)
    decreases n
  {
    if m < n { Pow10Grows(m, n - 1); }
  }
}
