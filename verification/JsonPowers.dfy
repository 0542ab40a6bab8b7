/** Powers of two and ten with integer exponents, and the exponent formula of the table of
    powers of ten. */
module JsonPowers {
  import opened Powers

  lemma {:induction false} PowAdd(b: nat, m: nat, n: nat)
    ensures Pow(b, m + n) == Pow(b, m) * Pow(b, n)
    decreases m
  {
    if m > 0 {
      PowAdd(b, m - 1, n);
      assert b * Pow(b, m - 1) * Pow(b, n) == b * (Pow(b, m - 1) * Pow(b, n));
    }
  }

  lemma {:induction false} PowMul(b: nat, m: nat, n: nat)
    ensures Pow(Pow(b, m), n) == Pow(b, m * n)
    decreases n
  {
    if n == 0 {
      assert m * n == 0;
    } else {
      PowMul(b, m, n - 1);
      PowAdd(b, m, m * (n - 1));
      assert m * n == m + m * (n - 1);
    }
  }

  lemma {:induction false} PowMono(a: nat, b: nat, n: nat)
    requires a <= b
    ensures Pow(a, n) <= Pow(b, n)
    decreases n
  {
    if n > 0 {
      PowMono(a, b, n - 1);
      Times(a, b, Pow(a, n - 1), Pow(b, n - 1));
    }
  }

  lemma Times(a: nat, b: nat, c: nat, d: nat)
    requires a <= b && c <= d
    ensures a * c <= b * d
  {
    assert a * c <= b * c <= b * d;
  }

  lemma {:induction false} PowStrict(a: nat, b: nat, n: nat)
    requires a < b && n > 0
    ensures Pow(a, n) < Pow(b, n)
  {
    PowMono(a, b, n - 1);
    Times(a, a, Pow(a, n - 1), Pow(b, n - 1));
    assert a * Pow(b, n - 1) < b * Pow(b, n - 1);
  }

  lemma {:induction false} Pow2Grows(m: nat, n: nat)
    requires m <= n
    ensures Pow(2, m) <= Pow(2, n)
  {
    PowAdd(2, m, n - m);
    Times(1, Pow(2, n - m), Pow(2, m), Pow(2, m));
  }

  lemma Shuffle(a: nat, b: nat, x: nat, y: nat)
    ensures a * b * (x * y) == (a * x) * (b * y)
  {
    assert a * b * (x * y) == a * (b * (x * y)) == a * (x * (b * y));
  }

  lemma MulLess(x: nat, y: nat, t: nat)
    requires x < y && t > 0
    ensures x * t < y * t
  {
  }

  // ---- real powers

  function R2(i: int): (r: real)
    ensures r > 0.0
  {
    if i >= 0 then Pow(2, i) as real else 1.0 / Pow(2, -i) as real
  }

  function R10(i: int): (r: real)
    ensures r > 0.0
  {
    if i >= 0 then Pow(10, i) as real else 1.0 / Pow(10, -i) as real
  }

  lemma R2Next(i: int)
    ensures R2(i + 1) == 2.0 * R2(i)
  {
    if i < 0 { assert Pow(2, -i) == 2 * Pow(2, -i - 1); }
  }

  lemma {:induction false} R2Add(i: int, n: nat)
    ensures R2(i + n) == R2(i) * Pow(2, n) as real
  {
    hide R2;
    if n > 0 {
      R2Add(i, n - 1);
      R2Next(i + n - 1);
      assert Pow(2, n) as real == 2.0 * Pow(2, n - 1) as real;
    } else {
      assert Pow(2, n) == 1 && i + n == i;
    }
  }

  lemma {:induction false} R2Mono(i: int, j: int)
    requires i <= j
    ensures R2(i) <= R2(j)
    decreases j - i
  {
    hide R2;
    if i < j {
      R2Next(j - 1);
      R2Mono(i, j - 1);
    }
  }

  /** The binary exponent of a positive number is unique. */
  lemma BinaryExponent(x: real, i: int, j: int)
    requires R2(i) <= x < R2(i + 1) && R2(j) <= x < R2(j + 1)
    ensures i == j
  {
    hide R2;
    if i < j { R2Mono(i + 1, j); }
    if j < i { R2Mono(j + 1, i); }
  }

  // ---- pow10_table_get_exp

  /** (exp10 * 217706 - 4128768) >> 16 */
  function TableExp(e: int): int { (e * 217706 - 4128768) / 65536 }

  /** 217706 / 65536 stands for the binary logarithm of 10. */
  function Log(e: int): int { e * 217706 / 65536 }

  lemma TableExpIsLog(e: int)
    ensures TableExp(e) == Log(e) - 63
  {
  }

  lemma {:induction false} PowProduct(a: nat, b: nat, n: nat)
    ensures Pow(a * b, n) == Pow(a, n) * Pow(b, n)
  {
    if n > 0 {
      PowProduct(a, b, n - 1);
      Shuffle(a, b, Pow(a, n - 1), Pow(b, n - 1));
    }
  }

  /** A bound on b^m by c * 2^s gives one on b^(m * n). */
  lemma PowerBelow(b: nat, m: nat, c: nat, s: nat, n: nat, r: nat)
    requires Pow(b, m) <= c * Pow(2, s) && Pow(c, n) < Pow(2, r)
    ensures Pow(b, m * n) < Pow(2, r + s * n)
  {
    hide Pow;
    PowMono(Pow(b, m), c * Pow(2, s), n);
    PowMul(b, m, n);
    PowProduct(c, Pow(2, s), n);
    PowMul(2, s, n);
    PowAdd(2, r, s * n);
    MulLess(Pow(c, n), Pow(2, r), Pow(2, s * n));
  }

  lemma PowerAbove(b: nat, m: nat, c: nat, s: nat, n: nat, r: nat)
    requires c * Pow(2, s) <= Pow(b, m) && Pow(2, r) < Pow(c, n)
    ensures Pow(2, r + s * n) < Pow(b, m * n)
  {
    hide Pow;
    PowMono(c * Pow(2, s), Pow(b, m), n);
    PowMul(b, m, n);
    PowProduct(c, Pow(2, s), n);
    PowMul(2, s, n);
    PowAdd(2, r, s * n);
    MulLess(Pow(2, r), Pow(c, n), Pow(2, s * n));
  }

  lemma PowIs(b: nat, m: nat, n: nat, x: nat, y: nat)
    requires Pow(b, m) == x && Pow(b, n) == y
    ensures Pow(b, m + n) == x * y
  {
    PowAdd(b, m, n);
  }

  lemma SmallPowers()
    ensures Pow(2, 2) == 4 && Pow(2, 5) == 32 && Pow(2, 7) == 128
    ensures Pow(5, 8) == 390625 && Pow(5, 13) == 1220703125
  {
  }

  lemma PowersOfTwo()
    ensures Pow(2, 37) == 0x20_0000_0000 && Pow(2, 70) == 0x40_0000_0000_0000_0000
        && Pow(2, 145) == 0x2_0000_0000_0000_0000_0000_0000_0000_0000_0000
    ensures Pow(2, 49) == 0x2_0000_0000_0000
  {
    hide Pow;
    SmallPowers();
    PowIs(2, 5, 7, 0x20, 0x80);
    PowIs(2, 7, 7, 0x80, 0x80);
    PowIs(2, 14, 14, 0x4000, 0x4000);
    PowIs(2, 28, 7, 0x10000000, 0x80);
    PowIs(2, 35, 2, 0x800000000, 0x4);
    PowIs(2, 35, 35, 0x800000000, 0x800000000);
    PowIs(2, 70, 70, 0x400000000000000000, 0x400000000000000000);
    PowIs(2, 140, 5, 0x100000000000000000000000000000000000, 0x20);
    PowIs(2, 37, 12, 0x2000000000, 0x1000);
  }

  lemma Cofactor()
    ensures Pow(1540744, 9) < Pow(2, 185)
  {
    hide Pow;
    CofactorParts();
    PowersOfTwo();
    PowMul(1540744, 3, 3);
    PowMul(2, 37, 5);
  }

  lemma CofactorParts()
    ensures Pow(1540744, 3) == 3657559968948150784
    ensures Pow(3657559968948150784, 3) == 48929904317790050501062410670155497431631766102741090304
    ensures Pow(0x20_0000_0000, 5) == 49039857307708443467467104868809893875799651909875269632
  {
  }

  lemma PowersOfFive()
    ensures Pow(5, 39) == 1818989403545856475830078125
        && Pow(5, 73) == 1058791184067875423835403125849552452564239501953125
  {
    hide Pow;
    SmallPowers();
    PowIs(5, 13, 8, 1220703125, 390625);
    PowIs(5, 13, 21, 1220703125, 476837158203125);
    PowIs(5, 13, 13, 1220703125, 1220703125);
    PowIs(5, 26, 13, 1490116119384765625, 1220703125);
    PowIs(5, 39, 34, 1818989403545856475830078125, 582076609134674072265625);
  }

  /** log2(10) lies between 485/146 and 1166/351 ... */
  lemma LogAbove()
    ensures Pow(2, 485) < Pow(10, 146)
  {
    PowersOfFive();
    PowersOfTwo();
    assert Pow(23738919, 2) == 23738919 * 23738919;
    hide Pow;
    PowerAbove(5, 73, 23738919, 145, 2, 49);
    PowProduct(2, 5, 146);
    PowAdd(2, 146, 339);
    MulLess(Pow(2, 339), Pow(5, 146), Pow(2, 146));
  }

  lemma LogBelow()
    ensures Pow(10, 351) < Pow(2, 1166)
  {
    PowersOfFive();
    PowersOfTwo();
    Cofactor();
    hide Pow;
    PowerBelow(5, 39, 1540744, 70, 9, 185);
    PowProduct(2, 5, 351);
    PowAdd(2, 351, 815);
    MulLess(Pow(5, 351), Pow(2, 815), Pow(2, 351));
  }

  /** ... and the fixed-point constant gives the same floors as these neighbouring fractions. */
  lemma LogFloors(e: int)
    ensures 0 <= e < 325 ==> 146 * Log(e) <= 485 * e && 1166 * e <= 351 * (Log(e) + 1)
    ensures -344 < e <= 0 ==> 1166 * -e <= 351 * -Log(e) && 146 * (-Log(e) - 1) <= 485 * -e
  {
  }

  /** From logarithms with denominator q back to the numbers. */
  lemma RootBelow(k: nat, e: nat, p: nat, q: nat)
    requires q > 0 && Pow(2, p) < Pow(10, q) && q * k <= p * e
    ensures e > 0 ==> Pow(2, k) < Pow(10, e)
  {
    hide Pow;
    if e > 0 && Pow(2, k) >= Pow(10, e) {
      PowMono(Pow(10, e), Pow(2, k), q);
      PowMul(10, e, q);
      PowMul(2, k, q);
      PowStrict(Pow(2, p), Pow(10, q), e);
      PowMul(2, p, e);
      PowMul(10, q, e);
      assert e * q == q * e && k * q == q * k;
      Pow2Grows(q * k, p * e);
    }
  }

  lemma RootAbove(k: nat, e: nat, p: nat, q: nat)
    requires q > 0 && Pow(10, q) < Pow(2, p) && p * e <= q * k
    ensures e > 0 ==> Pow(10, e) < Pow(2, k)
  {
    hide Pow;
    if e > 0 && Pow(10, e) >= Pow(2, k) {
      PowMono(Pow(2, k), Pow(10, e), q);
      PowMul(10, e, q);
      PowMul(2, k, q);
      PowStrict(Pow(10, q), Pow(2, p), e);
      PowMul(2, p, e);
      PowMul(10, q, e);
      assert e * q == q * e && k * q == q * k;
      Pow2Grows(p * e, q * k);
    }
  }

  /** Over the exponents of the table the formula is the exact floor of log2(10^e). */
  lemma LogExact(e: int)
    requires -344 < e < 325
    ensures R2(Log(e)) <= R10(e) < R2(Log(e) + 1)
  {
    LogFloors(e);
    LogAbove();
    LogBelow();
    hide Pow;
    if e == 0 {
      assert Pow(2, 0) == 1 && Pow(10, 0) == 1 && Pow(2, 1) == 2 by { ZeroPowers(); }
    } else if e > 0 {
      RootBelow(Log(e), e, 485, 146);
      RootAbove(Log(e) + 1, e, 1166, 351);
    } else {
      RootAbove(-Log(e), -e, 1166, 351);
      RootBelow(-Log(e) - 1, -e, 485, 146);
      Reciprocal(Pow(10, -e), Pow(2, -Log(e)));
      Reciprocal(Pow(2, -Log(e) - 1), Pow(10, -e));
    }
  }

  lemma ZeroPowers()
    ensures Pow(2, 0) == 1 && Pow(10, 0) == 1 && Pow(2, 1) == 2
  {
  }

  lemma Reciprocal(a: nat, b: nat)
    requires 0 < a < b
    ensures 1.0 / b as real < 1.0 / a as real
  {
  }
}
