/** Decimal text of unsigned 64-bit integers: write_u64 with its multiply-and-shift divisions. */
module JsonDigits {
  import opened Bytes
  import opened Powers
  import Lists

  /** The decimal text of v. */
  function Digits(v: nat): (s: seq<u8>)
    ensures |s| >= 1
  {
    if v < 10 then [48 + v] else Digits(v / 10) + [48 + v % 10]
  }

  /** The last k decimal digits of v, zeros included. */
  function Fixed(v: nat, k: nat): (s: seq<u8>)
    ensures |s| == k
  {
    if k == 0 then [] else Fixed(v / 10, k - 1) + [48 + v % 10]
  }

  /** The number a digit string stands for. */
  function Value(s: seq<u8>): nat {
    if s == [] then 0 else 10 * Value(s[..|s| - 1]) + (if s[|s| - 1] >= 48 then s[|s| - 1] as int - 48 else 0)
  }

  predicate AllDigits(s: seq<u8>) { forall i | 0 <= i < |s| :: 48 <= s[i] <= 57 }

  /** The text is made of digits, has no leading zero, and stands for the number. */
  lemma {:induction false} DigitsValue(v: nat)
    ensures AllDigits(Digits(v)) && Value(Digits(v)) == v
    ensures Digits(v)[0] == 48 ==> v == 0 && |Digits(v)| == 1
  {
    if v < 10 {
      assert [48 + v][..0] == [];
    } else {
      DigitsValue(v / 10);
      var s, d := Digits(v / 10), 48 + v % 10;
      assert (s + [d])[..|s|] == s;
    }
  }

  /** The digits of a number split at any place. */
  lemma {:induction false} DigitsSplit(a: nat, b: nat, k: nat)
    requires a > 0 && b < Pow(10, k)
    ensures Digits(a * Pow(10, k) + b) == Digits(a) + Fixed(b, k)
  {
    if k > 0 {
      DivTen(a, b, k);
      DigitsSplit(a, b / 10, k - 1);
      assert Digits(a) + (Fixed(b / 10, k - 1) + [48 + b % 10]) == Digits(a) + Fixed(b / 10, k - 1) + [48 + b % 10];
    }
  }

  lemma DivTen(a: nat, b: nat, k: nat)
    requires a > 0 && k > 0 && b < Pow(10, k)
    ensures var v := a * Pow(10, k) + b;
      v >= 10 && v / 10 == a * Pow(10, k - 1) + b / 10 && v % 10 == b % 10 && b / 10 < Pow(10, k - 1)
  {
    var t := Pow(10, k - 1);
    assert a * (10 * t) == 10 * (a * t);
    assert a * t >= 1;
  }

  lemma {:induction false} FixedSplit(a: nat, b: nat, m: nat, k: nat)
    requires b < Pow(10, k)
    ensures Fixed(a * Pow(10, k) + b, m + k) == Fixed(a, m) + Fixed(b, k)
  {
    hide Fixed, Pow;
    FixedNone(b);
    if k == 0 {
      TenNone(a, b);
      assert Fixed(a, m) + [] == Fixed(a, m);
    } else {
      TenthOf(a, b, k);
      FixedSplit(a, b / 10, m, k - 1);
      FixedLast(a * Pow(10, k) + b, m + k);
      FixedLast(b, k);
      Lists.Assoc(Fixed(a, m), Fixed(b / 10, k - 1), [48 + b % 10]);
    }
  }

  lemma FixedNone(v: nat)
    ensures Fixed(v, 0) == []
  {
  }

  lemma FixedLast(v: nat, k: nat)
    requires k > 0
    ensures Fixed(v, k) == Fixed(v / 10, k - 1) + [48 + v % 10]
  {
  }

  lemma TenNone(a: nat, b: nat)
    requires b < Pow(10, 0)
    ensures a * Pow(10, 0) + b == a
  {
  }

  lemma TenthOf(a: nat, b: nat, k: nat)
    requires k > 0 && b < Pow(10, k)
    ensures a * Pow(10, k) + b >= 0 && (a * Pow(10, k) + b) / 10 == a * Pow(10, k - 1) + b / 10
    ensures (a * Pow(10, k) + b) % 10 == b % 10 && b / 10 < Pow(10, k - 1)
  {
    var t := Pow(10, k - 1);
    assert a * (10 * t) == 10 * (a * t);
  }

  lemma SmallTens()
    ensures Pow(10, 0) == 1 && Pow(10, 1) == 10 && Pow(10, 2) == 100 && Pow(10, 4) == 10000 && Pow(10, 8) == 100000000
        && Pow(10, 20) == 100000000000000000000
  {
  }

  // ---- divisions by multiplication

  lemma Div100(v: nat)
    requires v < 10000
    ensures v * 5243 / 0x8_0000 == v / 100
  {
    var q, r := v / 100, v % 100;
    assert v * 5243 == q * 0x8_0000 + (q * 12 + r * 5243);
  }

  lemma Div10000(v: nat)
    requires v < 100000000
    ensures v * 109951163 / 0x100_0000_0000 == v / 10000
  {
    var q, r := v / 10000, v % 10000;
    assert v * 109951163 == q * 0x100_0000_0000 + (q * 2224 + r * 109951163);
  }

  lemma Div10000Short(v: nat)
    requires v < 1000000
    ensures v * 429497 / 0x1_0000_0000 == v / 10000
  {
    var q, r := v / 10000, v % 10000;
    assert v * 429497 == q * 0x1_0000_0000 + (q * 2704 + r * 429497);
  }

  // ---- the writers

  /** digit_table: the texts of 00, 01, ..., 99 in a row. */
  function Table(i: nat): u8
    requires i < 200
  {
    if i % 2 == 0 then 48 + i / 20 else 48 + i / 2 % 10
  }

  /** Outside from..to nothing changes. */
  predicate Only(was: seq<u8>, now: seq<u8>, from: int, to: int) {
    |now| == |was| && forall i | 0 <= i < |was| && !(from <= i < to) :: now[i] == was[i]
  }

  /** x was written at a, then y behind it. */
  lemma Joined(was: seq<u8>, one: seq<u8>, two: seq<u8>, a: nat, b: nat, c: nat, d: nat, x: seq<u8>, y: seq<u8>)
    requires a <= b <= c <= d && c <= |was| && Only(was, one, a, d) && Only(one, two, b, d)
    requires one[a..b] == x && two[b..c] == y
    ensures Only(was, two, a, d) && two[a..c] == x + y
  {
    assert two[a..b] == x by { assert forall i | a <= i < b :: two[i] == one[i]; }
  }

  lemma OnlyWider(was: seq<u8>, now: seq<u8>, a: int, b: int, c: int)
    requires Only(was, now, a, b) && b <= c
    ensures Only(was, now, a, c)
  {
  }

  /** Two digits, zeros included. */
  method PutPair(buf: array<u8>, pos: nat, v: nat)
    requires v < 100 && pos + 2 <= buf.Length
    modifies buf
    ensures buf[..][pos..pos + 2] == Fixed(v, 2) && Only(old(buf[..]), buf[..], pos, pos + 2)
  {
    buf[pos] := Table(2 * v);
    buf[pos + 1] := Table(2 * v + 1);
    FixedLast(v, 2);
    FixedLast(v / 10, 1);
    FixedNone(v / 100);
  }

  /** The leading pair: the byte after a single digit is overwritten later. */
  method PutHead(buf: array<u8>, pos: nat, v: nat) returns (next: nat)
    requires v < 100 && pos + 2 <= buf.Length
    modifies buf
    ensures pos < next <= pos + 2 && buf[..][pos..next] == Digits(v) && Only(old(buf[..]), buf[..], pos, pos + 2)
  {
    var lz := if v < 10 then 1 else 0;
    buf[pos] := Table(2 * v + lz);
    buf[pos + 1] := Table(2 * v + lz + 1);
    next := pos + 2 - lz;
    assert v >= 10 ==> Digits(v) == Digits(v / 10) + [48 + v % 10];
  }

  /** write_u32_len_4 */
  method WriteLen4(v: nat, buf: array<u8>, pos: nat) returns (next: nat)
    requires v < 10000 && pos + 4 <= buf.Length
    modifies buf
    ensures next == pos + 4 && buf[..][pos..next] == Fixed(v, 4) && Only(old(buf[..]), buf[..], pos, pos + 4)
  {
    hide Fixed, Pow, Only;
    var aa := v * 5243 / 0x8_0000;
    Div100(v);
    var bb := v - aa * 100;
    SmallTens();
    FixedSplit(aa, bb, 2, 2);
    ghost var was := buf[..];
    PutPair(buf, pos, aa);
    ghost var one := buf[..];
    PutPair(buf, pos + 2, bb);
    next := pos + 4;
    OnlyWider(was, one, pos, pos + 2, next);
    Joined(was, one, buf[..], pos, pos + 2, next, next, Fixed(aa, 2), Fixed(bb, 2));
  }

  /** write_u32_len_8 */
  method WriteLen8(v: nat, buf: array<u8>, pos: nat) returns (next: nat)
    requires v < 100000000 && pos + 8 <= buf.Length
    modifies buf
    ensures next == pos + 8 && buf[..][pos..next] == Fixed(v, 8) && Only(old(buf[..]), buf[..], pos, pos + 8)
  {
    hide Fixed, Pow, Only;
    var aabb := v * 109951163 / 0x100_0000_0000;
    Div10000(v);
    var ccdd := v - aabb * 10000;
    SmallTens();
    FixedSplit(aabb, ccdd, 4, 4);
    ghost var was := buf[..];
    next := WriteLen4(aabb, buf, pos);
    ghost var one := buf[..];
    next := WriteLen4(ccdd, buf, next);
    OnlyWider(was, one, pos, pos + 4, next);
    Joined(was, one, buf[..], pos, pos + 4, next, next, Fixed(aabb, 4), Fixed(ccdd, 4));
  }

  /** write_u32_len_1_8; write_u64_len_5_8 is its last two branches. */
  method WriteLen1To8(v: nat, buf: array<u8>, pos: nat) returns (next: nat)
    requires v < 100000000 && pos + 9 <= buf.Length
    modifies buf
    ensures pos < next <= pos + 8 && buf[..][pos..next] == Digits(v) && Only(old(buf[..]), buf[..], pos, pos + 9)
  {
    hide Fixed, Pow, Digits, Only;
    SmallTens();
    ghost var was := buf[..];
    if v < 100 {
      next := PutHead(buf, pos, v);
      OnlyWider(was, buf[..], pos, pos + 2, pos + 9);
    } else if v < 10000 {
      next := WriteLen3To4(v, buf, pos);
    } else if v < 1000000 {
      var aa := v * 429497 / 0x1_0000_0000;
      Div10000Short(v);
      var bbcc := v - aa * 10000;
      DigitsSplit(aa, bbcc, 4);
      var head := PutHead(buf, pos, aa);
      ghost var one := buf[..];
      next := WriteLen4(bbcc, buf, head);
      OnlyWider(was, one, pos, pos + 2, pos + 9);
      OnlyWider(one, buf[..], head, head + 4, pos + 9);
      Joined(was, one, buf[..], pos, head, next, pos + 9, Digits(aa), Fixed(bbcc, 4));
    } else {
      var aabb := v * 109951163 / 0x100_0000_0000;
      Div10000(v);
      var ccdd := v - aabb * 10000;
      DigitsSplit(aabb, ccdd, 4);
      var head := WriteLen3To4(aabb, buf, pos);
      ghost var one := buf[..];
      next := WriteLen4(ccdd, buf, head);
      OnlyWider(one, buf[..], head, head + 4, pos + 9);
      Joined(was, one, buf[..], pos, head, next, pos + 9, Digits(aabb), Fixed(ccdd, 4));
    }
  }

  /** Three or four digits: a leading pair and a full one. */
  method WriteLen3To4(v: nat, buf: array<u8>, pos: nat) returns (next: nat)
    requires 100 <= v < 10000 && pos + 9 <= buf.Length
    modifies buf
    ensures pos < next <= pos + 4 && buf[..][pos..next] == Digits(v) && Only(old(buf[..]), buf[..], pos, pos + 9)
  {
    hide Fixed, Pow, Digits, Only;
    SmallTens();
    ghost var was := buf[..];
    var aa := v * 5243 / 0x8_0000;
    Div100(v);
    var bb := v - aa * 100;
    DigitsSplit(aa, bb, 2);
    var head := PutHead(buf, pos, aa);
    ghost var one := buf[..];
    PutPair(buf, head, bb);
    next := head + 2;
    OnlyWider(was, one, pos, pos + 2, pos + 9);
    OnlyWider(one, buf[..], head, head + 2, pos + 9);
    Joined(was, one, buf[..], pos, head, next, pos + 9, Digits(aa), Fixed(bb, 2));
  }

  /** write_u64 */
  method WriteU64(v: nat, buf: array<u8>, pos: nat) returns (next: nat)
    requires v <= 0xffff_ffff_ffff_ffff && pos + 21 <= buf.Length
    modifies buf
    ensures pos < next <= pos + 20 && buf[..][pos..next] == Digits(v) && Only(old(buf[..]), buf[..], pos, pos + 21)
  {
    hide Fixed, Pow, Digits, Only;
    SmallTens();
    ghost var was, to := buf[..], pos + 21;
    if v < 100000000 {
      next := WriteLen1To8(v, buf, pos);
      OnlyWider(was, buf[..], pos, pos + 9, to);
    } else if v < 10000000000000000 {
      var hgh := v / 100000000;
      var low := v - hgh * 100000000;
      DigitsSplit(hgh, low, 8);
      var head := WriteLen1To8(hgh, buf, pos);
      ghost var one := buf[..];
      next := WriteLen8(low, buf, head);
      OnlyWider(was, one, pos, pos + 9, to);
      OnlyWider(one, buf[..], head, head + 8, to);
      Joined(was, one, buf[..], pos, head, next, to, Digits(hgh), Fixed(low, 8));
    } else {
      var tmp := v / 100000000;
      var low := v - tmp * 100000000;
      var hgh := tmp / 10000;
      var mid := tmp - hgh * 10000;
      DigitsSplit(tmp, low, 8);
      DigitsSplit(hgh, mid, 4);
      var head := WriteLen1To8(hgh, buf, pos);
      ghost var one := buf[..];
      var middle := WriteLen4(mid, buf, head);
      ghost var two := buf[..];
      next := WriteLen8(low, buf, middle);
      OnlyWider(was, one, pos, pos + 9, to);
      OnlyWider(one, two, head, head + 4, to);
      OnlyWider(two, buf[..], middle, middle + 8, to);
      Joined(was, one, two, pos, head, middle, to, Digits(hgh), Fixed(mid, 4));
      Joined(was, two, buf[..], pos, middle, next, to, Digits(tmp), Fixed(low, 8));
    }
  }
}
