/** The number texts of section 6 of RFC 8259, put together from their parts: read_number accepts these
    and no others, and they mean what their digits say. */
module JsonNumberTexts {
  import opened Options
  import opened Bytes
  import opened Powers
  import opened JsonPowers
  import opened JsonHalfway
  import opened JsonDigits
  import opened JsonNumber
  import opened JsonReal
  import Lists

  datatype Sign = NoSign | Plus | Minus

  datatype Exponent = NoExp | Exp(capital: bool, sign: Sign, digits: seq<u8>)

  /** Sign, integer part, fraction, exponent. Without fraction fp is empty. */
  datatype Number = Number(neg: bool, ip: seq<u8>, fp: seq<u8>, exp: Exponent)

  predicate ProperExp(x: Exponent) { x.Exp? ==> AllDigits(x.digits) && x.digits != [] }

  predicate Proper(t: Number) {
    && AllDigits(t.ip) && t.ip != [] && (t.ip[0] == 0x30 ==> |t.ip| == 1) && AllDigits(t.fp) && ProperExp(t.exp)
  }

  /** decimal-point is %x2E, e is %x65 or %x45, minus is %x2D, plus is %x2B. */
  function FractionText(fp: seq<u8>): seq<u8> { if fp == [] then [] else [0x2e] + fp }

  function SignText(sign: Sign): (r: seq<u8>)
    ensures |r| == if sign.NoSign? then 0 else 1
  {
    match sign case NoSign => [] case Plus => [0x2b] case Minus => [0x2d]
  }

  function ExponentText(x: Exponent): seq<u8> {
    if x.NoExp? then [] else [if x.capital then 0x45 else 0x65] + (SignText(x.sign) + x.digits)
  }

  function NumberText(t: Number): seq<u8> {
    (if t.neg then [0x2d] else []) + (t.ip + (FractionText(t.fp) + ExponentText(t.exp)))
  }

  predicate DigitByte(c: u8) { 0x30 <= c <= 0x39 }

  /** c does not continue the exponent, or the fraction and what may follow it. */
  predicate EndsExp(x: Exponent, c: u8) { !DigitByte(c) && (x.NoExp? ==> c != 0x65 && c != 0x45) }

  predicate Ends(t: Number, c: u8) { EndsExp(t.exp, c) && (t.exp.NoExp? && t.fp == [] ==> c != 0x2e) }

  /** t stands at i. */
  ghost predicate Stands(s: seq<u8>, i: nat, t: seq<u8>) { i + |t| <= |s| && s[i..i + |t|] == t }

  lemma Parts2(s: seq<u8>, i: nat, a: seq<u8>, b: seq<u8>)
    ensures Stands(s, i, a + b) <==> Stands(s, i, a) && Stands(s, i + |a|, b)
  {
    if i + |a + b| <= |s| {
      var t := s[i..i + |a + b|];
      assert t[..|a|] == s[i..i + |a|] && t[|a|..] == s[i + |a|..i + |a| + |b|];
      assert t == t[..|a|] + t[|a|..];
      Lists.Cut(a, b);
    }
  }

  lemma FirstAt(s: seq<u8>, i: nat, t: seq<u8>)
    requires Stands(s, i, t) && t != []
    ensures At(s, i) == t[0]
  {
    assert s[i..i + |t|][0] == s[i];
  }

  /** Digits at i that end there. */
  lemma RunAt(s: seq<u8>, i: nat, t: seq<u8>)
    requires AllDigits(t) && Stands(s, i, t) && !DigitByte(At(s, i + |t|))
    ensures Run(s, i) == i + |t|
  {
    forall k | i <= k < i + |t| ensures IsDigit(At(s, k)) { assert s[k] == s[i..i + |t|][k - i]; }
    RunIs(s, i, i + |t|);
    RunStops(s, i + |t|);
  }

  // ---- the parts where they stand

  /** A fraction, or none, at j. */
  lemma FractionAt(s: seq<u8>, j: nat, fp: seq<u8>)
    requires AllDigits(fp) && Stands(s, j, FractionText(fp))
    requires var c := At(s, j + |FractionText(fp)|); !DigitByte(c) && (fp == [] ==> c != 0x2e)
    ensures FracEnd(s, j) == Some(j + |FractionText(fp)|) && DigitsEnd(s, j) == j + |FractionText(fp)|
    ensures fp != [] ==> Stands(s, j + 1, fp)
  {
    hide Run, Stands;
    if fp != [] {
      Parts2(s, j, [0x2e], fp);
      FirstAt(s, j, [0x2e]);
      FirstAt(s, j + 1, fp);
      RunAt(s, j + 1, fp);
    }
  }

  /** Where the digits of an exponent at k begin. */
  function ExpDigits(k: nat, x: Exponent): nat { k + 1 + if x.Exp? && !x.sign.NoSign? then 1 else 0 }

  /** An exponent, or none, at k. */
  lemma ExponentAt(s: seq<u8>, k: nat, x: Exponent)
    requires ProperExp(x) && Stands(s, k, ExponentText(x)) && EndsExp(x, At(s, k + |ExponentText(x)|))
    ensures ExpEnd(s, k) == Some(k + |ExponentText(x)|) && IsExp(At(s, k)) == x.Exp?
    ensures x.Exp? ==> var m := ExpDigits(k, x);
      && Run(s, m) == m + |x.digits| && Stands(s, m, x.digits)
      && (IsSign(At(s, k + 1)) <==> !x.sign.NoSign?) && (At(s, k + 1) == 45 <==> x.sign.Minus?)
  {
    hide Run, Stands;
    if x.Exp? {
      var (m, head) := (ExpDigits(k, x), [if x.capital then 0x45 as u8 else 0x65]);
      Parts2(s, k, head, SignText(x.sign) + x.digits);
      Parts2(s, k + 1, SignText(x.sign), x.digits);
      FirstAt(s, k, head);
      if !x.sign.NoSign? { FirstAt(s, k + 1, SignText(x.sign)); }
      FirstAt(s, m, x.digits);
      RunAt(s, m, x.digits);
    }
  }

  function DigitsFrom(i: nat, t: Number): nat { if t.neg then i + 1 else i }

  function PointAt(i: nat, t: Number): nat { DigitsFrom(i, t) + |t.ip| }

  function ExpAt(i: nat, t: Number): nat { PointAt(i, t) + |FractionText(t.fp)| }

  lemma TextSize(i: nat, t: Number)
    ensures i + |NumberText(t)| == ExpAt(i, t) + |ExponentText(t.exp)|
  {
  }

  /** Where the parts of a number at i are. */
  lemma PartsStand(s: seq<u8>, i: nat, t: Number)
    ensures Stands(s, i, NumberText(t)) <==>
            (t.neg ==> Stands(s, i, [0x2d])) && Stands(s, DigitsFrom(i, t), t.ip)
            && Stands(s, PointAt(i, t), FractionText(t.fp)) && Stands(s, ExpAt(i, t), ExponentText(t.exp))
  {
    hide FractionText, ExponentText, Stands;
    var (f, x) := (FractionText(t.fp), ExponentText(t.exp));
    Parts2(s, i, if t.neg then [0x2d] else [], t.ip + (f + x));
    Parts2(s, DigitsFrom(i, t), t.ip, f + x);
    Parts2(s, PointAt(i, t), f, x);
    Empty(s, i);
    if Stands(s, i, t.ip + (f + x)) { StandsIs(s, i, t.ip + (f + x)); }
  }

  lemma Empty(s: seq<u8>, i: nat)
    ensures Stands(s, i, []) <==> i <= |s|
  {
  }

  /** The parts as read_number meets them. */
  ghost predicate Laid(s: seq<u8>, i: nat, t: Number)
    requires t.ip != []
  {
    var (d, j, k) := (DigitsFrom(i, t), PointAt(i, t), ExpAt(i, t));
    && t.neg == (At(s, i) == 45) && Stands(s, d, t.ip) && Run(s, d) == j && At(s, d) == t.ip[0]
    && FracEnd(s, j) == Some(k) && DigitsEnd(s, j) == k && (t.fp != [] ==> Stands(s, j + 1, t.fp))
    && Stands(s, k, ExponentText(t.exp)) && ExpEnd(s, k) == Some(i + |NumberText(t)|)
    && (IsFp(At(s, j)) <==> t.fp != [] || t.exp.Exp?)
  }

  lemma NumberAt(s: seq<u8>, i: nat, t: Number)
    requires Proper(t) && Stands(s, i, NumberText(t)) && Ends(t, At(s, i + |NumberText(t)|))
    ensures Laid(s, i, t)
  {
    hide Run, Stands, NumberText, FracEnd, ExpEnd, DigitsEnd, FractionText, ExponentText, AllDigits, At;
    var (d, j, k) := (DigitsFrom(i, t), PointAt(i, t), ExpAt(i, t));
    PartsStand(s, i, t);
    TextSize(i, t);
    FirstBytes(s, i, t);
    ExponentAt(s, k, t.exp);
    FractionAt(s, j, t.fp);
    RunAt(s, d, t.ip);
  }

  /** The first bytes of the parts. */
  lemma FirstBytes(s: seq<u8>, i: nat, t: Number)
    requires Proper(t) && Stands(s, i, NumberText(t)) && Ends(t, At(s, i + |NumberText(t)|))
    ensures var (d, j, k) := (DigitsFrom(i, t), PointAt(i, t), ExpAt(i, t));
      && t.neg == (At(s, i) == 45) && At(s, d) == t.ip[0] && !DigitByte(At(s, j)) && !DigitByte(At(s, k))
      && (At(s, j) == 0x2e <==> t.fp != []) && (IsFp(At(s, j)) <==> t.fp != [] || t.exp.Exp?)
      && (t.exp.NoExp? ==> EndsExp(t.exp, At(s, k))) && (t.fp == [] ==> At(s, k) != 0x2e)
  {
    hide Run, Stands, NumberText, At;
    var (d, j, k) := (DigitsFrom(i, t), PointAt(i, t), ExpAt(i, t));
    PartsStand(s, i, t);
    TextSize(i, t);
    if t.neg { FirstAt(s, i, [0x2d]); }
    FirstAt(s, d, t.ip);
    if t.exp.Exp? { FirstAt(s, k, ExponentText(t.exp)); }
    if t.fp != [] { FirstAt(s, j, FractionText(t.fp)); }
  }

  // ---- read_number accepts exactly these texts

  /** Every number text is read to its end: an integer of 64 bits as its value, the others by the
      conversion. */
  lemma NumberRead(s: seq<u8>, i: nat, t: Number, conv: Convert)
    requires Proper(t) && Stands(s, i, NumberText(t)) && Ends(t, At(s, i + |NumberText(t)|))
    ensures var (e, m: int) := (i + |NumberText(t)|, Value(t.ip));
      LexNumber(s, i, conv) ==
      if t.fp == [] && t.exp.NoExp? && m <= (if t.neg then 0x8000_0000_0000_0000 else 0xffff_ffff_ffff_ffff)
      then Some((Int(if t.neg then -m else m), e))
      else match conv(NumberText(t)) case None => None case Some(raw) => Some((Real(raw), e))
  {
    hide Value, Run, NumberText, ExponentText, LexNumber, FracEnd, ExpEnd, Stands, IsFp;
    NumberAt(s, i, t);
    TextSize(i, t);
    NoText(t.exp);
    StandsIs(s, i, NumberText(t));
    StandsIs(s, DigitsFrom(i, t), t.ip);
    LexParts(s, i, DigitsFrom(i, t), PointAt(i, t), ExpAt(i, t), i + |NumberText(t)|, conv);
  }

  lemma StandsIs(s: seq<u8>, i: nat, t: seq<u8>)
    requires Stands(s, i, t)
    ensures i + |t| <= |s| && s[i..i + |t|] == t
  {
  }

  /** The token at i, once its parts are known. */
  lemma LexParts(s: seq<u8>, i: nat, d: nat, j: nat, k: nat, e: nat, conv: Convert)
    requires d == (if At(s, i) == 45 then i + 1 else i) && j == Run(s, d) > d && (At(s, d) == 48 ==> j == d + 1)
    requires FracEnd(s, j) == Some(k) && ExpEnd(s, k) == Some(e) && i <= e && j <= e <= |s|
    ensures var (neg, m: int) := (At(s, i) == 45, Value(s[d..j]));
      LexNumber(s, i, conv) ==
      if e == j && m <= (if neg then I64_ABS_MAX else U64_MAX) then Some((Int(if neg then -m else m), j))
      else match conv(s[i..e]) case None => None case Some(raw) => Some((Real(raw), e))
  {
    hide Value, Run, FracEnd, ExpEnd;
  }

  lemma NoText(x: Exponent)
    ensures ExponentText(x) == [] <==> x.NoExp?
  {
  }

  /** Whatever is read is such a text, and ends where no longer one does. */
  lemma NumberIs(s: seq<u8>, i: nat, conv: Convert) returns (t: Number)
    requires LexNumber(s, i, conv).Some?
    ensures var e := LexNumber(s, i, conv).value.1;
      Proper(t) && i <= e <= |s| && s[i..e] == NumberText(t) && Ends(t, At(s, e))
  {
    hide Value, Run, FracEnd, ExpEnd;
    var neg := At(s, i) == 45;
    var d := if neg then i + 1 else i;
    var j := Run(s, d);
    var (k, e) := (FracEnd(s, j).value, ExpEnd(s, FracEnd(s, j).value).value);
    hide LexNumber;
    LexEnd(s, i, conv);
    var fp := SomeFraction(s, j);
    var exp := SomeExponent(s, k);
    t := Number(neg, s[d..j], fp, exp);
    DigitBytes(s, d, j);
    Together(s, i, d, j, k, e, t);
    Ending(s, j, k, e, t);
  }

  /** Whatever is read consists of digits, a fraction and an exponent. */
  lemma LexEnd(s: seq<u8>, i: nat, conv: Convert)
    requires LexNumber(s, i, conv).Some?
    ensures var d := if At(s, i) == 45 then i + 1 else i;
      var j := Run(s, d);
      && d < j <= |s| && (At(s, d) == 48 ==> j == d + 1) && FracEnd(s, j).Some? && ExpEnd(s, FracEnd(s, j).value).Some?
      && LexNumber(s, i, conv).value.1 == ExpEnd(s, FracEnd(s, j).value).value
  {
    hide Value, FracEnd, ExpEnd;
  }

  lemma DigitBytes(s: seq<u8>, a: nat, b: nat)
    requires a <= b <= |s| && forall q | a <= q < b :: IsDigit(At(s, q))
    ensures AllDigits(s[a..b])
  {
    assert forall q | a <= q < b :: At(s, q) == s[q];
  }

  lemma Together(s: seq<u8>, i: nat, d: nat, j: nat, k: nat, e: nat, t: Number)
    requires d == (if t.neg then i + 1 else i) && d <= j <= k <= e <= |s| && (t.neg ==> s[i] == 45)
    requires s[d..j] == t.ip && s[j..k] == FractionText(t.fp) && s[k..e] == ExponentText(t.exp)
    ensures s[i..e] == NumberText(t)
  {
    hide FractionText, ExponentText;
    Slices(s, j, k, e);
    Slices(s, d, j, e);
    Slices(s, i, d, e);
  }

  lemma Slices(s: seq<u8>, a: nat, b: nat, c: nat)
    requires a <= b <= c <= |s|
    ensures s[a..c] == s[a..b] + s[b..c]
  {
  }

  lemma Ending(s: seq<u8>, j: nat, k: nat, e: nat, t: Number)
    requires !IsDigit(At(s, j)) && (t.fp == [] <==> !IsDot(At(s, j))) && (t.exp.NoExp? <==> !IsExp(At(s, k)))
    requires if t.fp == [] then k == j else !IsDigit(At(s, k))
    requires if t.exp.NoExp? then e == k else !IsDigit(At(s, e))
    ensures Ends(t, At(s, e))
  {
  }

  lemma SomeFraction(s: seq<u8>, j: nat) returns (fp: seq<u8>)
    requires FracEnd(s, j).Some? && j <= |s|
    ensures var k := FracEnd(s, j).value;
      && AllDigits(fp) && j <= k <= |s| && s[j..k] == FractionText(fp) && (fp == [] <==> !IsDot(At(s, j)))
      && (if fp == [] then k == j else !IsDigit(At(s, k)))
  {
    var k := FracEnd(s, j).value;
    if IsDot(At(s, j)) {
      fp := s[j + 1..k];
      assert forall q | j + 1 <= q < k :: At(s, q) == s[q];
      assert s[j..k] == [s[j]] + s[j + 1..k];
    } else {
      fp := [];
    }
  }

  lemma SomeExponent(s: seq<u8>, k: nat) returns (x: Exponent)
    requires ExpEnd(s, k).Some? && k <= |s|
    ensures var e := ExpEnd(s, k).value;
      && k <= e <= |s| && s[k..e] == ExponentText(x) && ProperExp(x) && (x.NoExp? <==> !IsExp(At(s, k)))
      && (if x.NoExp? then e == k else !IsDigit(At(s, e)))
  {
    var e := ExpEnd(s, k).value;
    if IsExp(At(s, k)) {
      var sign := if At(s, k + 1) == 43 then Plus else if At(s, k + 1) == 45 then Minus else NoSign;
      var m := if sign.NoSign? then k + 1 else k + 2;
      x := Exp(s[k] == 69, sign, s[m..e]);
      assert forall q | m <= q < e :: At(s, q) == s[q];
      assert s[k + 1..m] == SignText(sign);
      assert s[k..e] == [s[k]] + (s[k + 1..m] + s[m..e]);
    } else {
      x := NoExp;
    }
  }

  // ---- what they mean

  /** The digits from a to b, without a point among them. */
  lemma DigsAre(s: seq<u8>, a: nat, b: nat, dot: int)
    requires a <= b <= |s| && (dot < a || dot >= b) && AllDigits(s[a..b])
    ensures Digs(s, a, b, dot) == Value(s[a..b])
  {
    forall q | a <= q < b ensures DigitByte(s[q]) { assert s[a..b][q - a] == s[q]; }
    DigsFrom(s, a, b, dot);
  }

  lemma {:induction false} DigsFrom(s: seq<u8>, a: nat, b: nat, dot: int)
    requires a <= b <= |s| && (dot < a || dot >= b) && forall q | a <= q < b :: DigitByte(s[q])
    ensures Digs(s, a, b, dot) == Value(s[a..b])
    decreases b
  {
    hide Value, Digs;
    if a < b {
      DigsFrom(s, a, b - 1, dot);
      ValueStep(s, a, b - 1);
      DigsStep(s, a, b - 1, dot);
    } else {
      NoDigs(s, a, dot);
    }
  }

  lemma NoDigs(s: seq<u8>, a: nat, dot: int)
    requires a <= |s|
    ensures Digs(s, a, a, dot) == 0 && Value(s[a..a]) == 0
  {
  }

  lemma {:induction false} ValueAppend(a: seq<u8>, b: seq<u8>)
    ensures Value(a + b) == Value(a) * Pow(10, |b|) + Value(b)
    decreases |b|
  {
    if b == [] {
      assert a + b == a;
    } else {
      var n := |b| - 1;
      assert (a + b)[..|a| + n] == a + b[..n] && (a + b)[|a| + n] == b[n];
      ValueAppend(a, b[..n]);
      TenMoreOf(Value(a), Pow(10, n));
    }
  }

  lemma TenMoreOf(x: nat, p: nat)
    ensures 10 * (x * p) == x * (10 * p)
  {
  }

  /** Leading zeros do not matter. */
  lemma {:induction false} ValueZeros(zeros: nat, t: seq<u8>)
    ensures Value(seq(zeros, _ => 0x30 as u8) + t) == Value(t)
    decreases zeros
  {
    var z := seq(zeros, _ => 0x30 as u8);
    ValueAppend(z, t);
    OnlyZeros(zeros);
  }

  lemma {:induction false} OnlyZeros(n: nat)
    ensures Value(seq(n, _ => 0x30 as u8)) == 0
    decreases n
  {
    if n > 0 {
      OnlyZeros(n - 1);
      assert seq(n, _ => 0x30 as u8)[..n - 1] == seq(n - 1, _ => 0x30 as u8);
    }
  }

  /** The digits before and behind the point. */
  lemma MantissaIs(s: seq<u8>, i: nat, t: Number)
    requires Proper(t) && Laid(s, i, t)
    ensures var (d, j, k) := (DigitsFrom(i, t), PointAt(i, t), ExpAt(i, t));
      Digs(s, d, k, j) == Value(t.ip + t.fp) && Behind(j, k) == |t.fp|
  {
    var (d, j, k) := (DigitsFrom(i, t), PointAt(i, t), ExpAt(i, t));
    hide Digs, Value, Pow, Run, NumberText, ExponentText;
    assert s[d..j] == t.ip;
    DigsAre(s, d, j, j);
    if t.fp == [] {
      assert t.ip + t.fp == t.ip;
    } else {
      assert s[j + 1..k] == t.fp;
      DigsSplit(s, d, j + 1, k, j);
      DigsStep(s, d, j, j);
      DigsAre(s, j + 1, k, j);
      ValueAppend(t.ip, t.fp);
    }
  }

  /** The value of the exponent. */
  function ExpOf(x: Exponent): int {
    if x.NoExp? then 0 else if x.sign.Minus? then -(Value(x.digits) as int) else Value(x.digits)
  }

  lemma ExponentIs(s: seq<u8>, k: nat, x: Exponent)
    requires ProperExp(x) && Stands(s, k, ExponentText(x)) && EndsExp(x, At(s, k + |ExponentText(x)|))
    ensures ExpValue(s, k) == ExpOf(x)
  {
    hide Digs, Value, Run, ExponentText, EndsExp, AllDigits, Stands;
    ExponentAt(s, k, x);
    if x.Exp? {
      var m := ExpDigits(k, x);
      StandsIs(s, m, x.digits);
      DigsAre(s, m, m + |x.digits|, -1);
    }
  }

  /** A number text stands for its digits, the point before the last |fp| of them, times ten to the
      exponent. */
  lemma NumberMeans(s: seq<u8>, i: nat, t: Number)
    requires Proper(t) && Stands(s, i, NumberText(t)) && Ends(t, At(s, i + |NumberText(t)|))
    ensures TokenReal(s, DigitsFrom(i, t)) == Decimal(Value(t.ip + t.fp), ExpOf(t.exp) - |t.fp|)
  {
    hide Digs, Value, Decimal, Run, NumberText, ExponentText, ExpValue, ExpOf, Stands;
    NumberAt(s, i, t);
    MantissaIs(s, i, t);
    TextSize(i, t);
    ExponentIs(s, ExpAt(i, t), t.exp);
  }

  lemma Shifted(m: nat, g: int, a: nat, b: nat)
    requires g + a == b
    ensures Decimal(m, g) * Pow(10, a) as real == m as real * Pow(10, b) as real
  {
    R10Add(g, a);
    R10Nat(b);
    hide Pow, R10;
    Times3(m as real, R10(g), Pow(10, a) as real);
  }

  lemma R10Nat(b: nat)
    ensures R10(b) == Pow(10, b) as real
  {
  }

  lemma Times3(x: real, y: real, z: real)
    ensures x * y * z == x * (y * z)
  {
  }

  /** Exponents: n with any zeros in front, behind an e or E, with plus, minus or no sign, shift the
      mantissa by n places to the left, or with a minus to the right. */
  lemma ExponentTexts(s: seq<u8>, i: nat, t: Number, capital: bool, sign: Sign, zeros: nat, n: nat)
    requires t.exp == Exp(capital, sign, seq(zeros, _ => 0x30 as u8) + Digits(n))
    requires Proper(t) && Stands(s, i, NumberText(t)) && Ends(t, At(s, i + |NumberText(t)|))
    ensures var (v, m) := (TokenReal(s, DigitsFrom(i, t)), Value(t.ip + t.fp) as real);
      if sign.Minus? then v * Pow(10, |t.fp| + n) as real == m
      else v * Pow(10, |t.fp|) as real == m * Pow(10, n) as real
  {
    hide Value, Digits, Decimal, Pow, TokenReal, NumberText, Stands, Proper, Ends;
    NumberMeans(s, i, t);
    DigitsValue(n);
    ValueZeros(zeros, Digits(n));
    var m := Value(t.ip + t.fp);
    if sign.Minus? {
      Shifted(m, -(n as int) - |t.fp|, |t.fp| + n, 0);
      PowNone();
    } else {
      Shifted(m, n - |t.fp|, |t.fp|, n);
    }
  }

  lemma PowNone()
    ensures Pow(10, 0) == 1
  {
  }

  /** The same without exponent. */
  lemma PlainTexts(s: seq<u8>, i: nat, t: Number)
    requires t.exp == NoExp && Proper(t) && Stands(s, i, NumberText(t)) && Ends(t, At(s, i + |NumberText(t)|))
    ensures TokenReal(s, DigitsFrom(i, t)) * Pow(10, |t.fp|) as real == Value(t.ip + t.fp) as real
  {
    hide Value, Decimal, Pow, TokenReal, NumberText, Stands, Proper, Ends;
    NumberMeans(s, i, t);
    Shifted(Value(t.ip + t.fp), -(|t.fp| as int), |t.fp|, 0);
    PowNone();
  }
}
