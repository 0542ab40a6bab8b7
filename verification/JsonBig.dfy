/** The big integers of the slow path of read_number: up to 64 chunks of 64 bits, least
    significant first, changed in place. */
module JsonBig {
  import opened Powers
  import opened JsonPowers
  import opened JsonRound

  /** The number a row of chunks stands for. */
  function Value(s: seq<u64>): (v: nat) {
    if s == [] then 0 else s[0] + Mul64(Value(s[1..]))
  }

  function Mul64(x: nat): nat { B64 * x }

  /** The top chunk is not zero, unless it is the only one. */
  predicate Normal(s: seq<u64>) { |s| == 1 || (|s| > 1 && s[|s| - 1] != 0) }

  function Low(x: u64, val: u64, c: u64): u64 { (Mul(x, val) + c) % B64 }

  /** s * val + c, chunk by chunk; the last chunk is the carry out. */
  function Scaled(s: seq<u64>, val: u64, c: u64): (r: seq<u64>)
    ensures |r| == |s| + 1
  {
    if s == [] then [c] else [Low(s[0], val, c)] + Scaled(s[1..], val, High(s[0], val, c))
  }

  function High(x: u64, val: u64, c: u64): (h: u64)
    ensures Mul64(h) + Low(x, val, c) == Mul(x, val) + c
  {
    Products64(x, val);
    (Mul(x, val) + c) / B64
  }

  lemma Products64(x: u64, y: u64)
    ensures 0 <= Mul(x, y) <= (B64 - 1) * (B64 - 1)
  {
    Times(x, B64 - 1, y, B64 - 1);
  }

  /** Carrying through computes the product and sum. */
  lemma {:induction false} ScaledValue(s: seq<u64>, val: u64, c: u64)
    ensures Value(Scaled(s, val, c)) == Mul(Value(s), val) + c
    decreases |s|
  {
    if s == [] {
      assert [c][1..] == [];
      Zero(val);
    } else {
      var h := High(s[0], val, c);
      ScaledValue(s[1..], val, h);
      var r := Scaled(s, val, c);
      assert r[1..] == Scaled(s[1..], val, h);
      Distribute64(s[0], Value(s[1..]), val, h);
    }
  }

  lemma Zero(x: int)
    ensures Mul(0, x) == 0 && Mul(x, 0) == 0 && Mul(x, 1) == x && Mul(1, x) == x
  {
  }

  lemma Distribute64(x: nat, rest: nat, val: nat, h: nat)
    ensures Mul(rest, val) >= 0 && Mul(x + Mul64(rest), val) + Mul64(h) == Mul(x, val) + Mul64(Mul(rest, val) + h)
  {
    Times(0, rest, 0, val);
    assert (x + B64 * rest) * val == x * val + B64 * (rest * val);
  }

  /** The value is below the power the chunks span, and at least that of the top chunk. */
  lemma {:induction false} ChunkBounds(s: seq<u64>)
    ensures Value(s) < Pow(B64, |s|)
    ensures s != [] && s[|s| - 1] != 0 ==> Value(s) >= Pow(B64, |s| - 1)
    decreases |s|
  {
    if s != [] { ChunkBounds(s[1..]); }
  }

  lemma {:induction false} ValueAppend(s: seq<u64>, x: u64)
    ensures Value(s + [x]) == Value(s) + Mul(x, Pow(B64, |s|))
    decreases |s|
  {
    if s == [] {
      assert ([] + [x])[1..] == [];
      Zero(x);
    } else {
      ValueAppend(s[1..], x);
      assert (s + [x])[1..] == s[1..] + [x];
      var p := Pow(B64, |s| - 1);
      assert x * (B64 * p) == B64 * (x * p);
    }
  }

  lemma {:induction false} ValueZeros(s: seq<u64>, z: seq<u64>, n: nat)
    requires |z| == n && forall i | 0 <= i < n :: z[i] == 0
    ensures Value(z + s) == Mul(Value(s), Pow(B64, n))
    decreases n
  {
    if n == 0 {
      assert z + s == s;
      Zero(Value(s));
    } else {
      ValueZeros(s, z[1..], n - 1);
      assert (z + s)[1..] == z[1..] + s && (z + s)[0] == z[0];
      var (v, p) := (Value(s), Pow(B64, n - 1));
      assert v * (B64 * p) == B64 * (v * p);
    }
  }

  /** A top chunk of zero adds nothing. */
  lemma TopZero(s: seq<u64>)
    ensures Value(s + [0]) == Value(s)
  {
    ValueAppend(s, 0);
    Zero(Pow(B64, |s|));
  }

  lemma {:induction false} ScaledNone(s: seq<u64>)
    ensures Scaled(s, 1, 0) == s + [0]
    decreases |s|
  {
    if s != [] {
      ScaledNone(s[1..]);
      Zero(s[0]);
    }
  }

  /** Zero chunks stay. */
  lemma {:induction false} ScaledZeros(z: seq<u64>, s: seq<u64>, val: u64)
    requires forall i | 0 <= i < |z| :: z[i] == 0
    ensures Scaled(z + s, val, 0) == z + Scaled(s, val, 0)
    decreases |z|
  {
    if z == [] {
      assert z + s == s;
    } else {
      assert (z + s)[1..] == z[1..] + s;
      ScaledZeros(z[1..], s, val);
      Zero(val);
    }
  }

  /** A multiplication keeps the top chunk. */
  lemma {:induction false} ScaledTop(s: seq<u64>, val: u64, c: u64)
    requires s != [] && s[|s| - 1] != 0 && val > 0 && Scaled(s, val, c)[|s|] == 0
    ensures Scaled(s, val, c)[|s| - 1] != 0
    decreases |s|
  {
    var h := High(s[0], val, c);
    if |s| == 1 {
      Times(1, s[0], 1, val);
    } else {
      ScaledTop(s[1..], val, h);
    }
  }

  /** Between normal numbers, fewer chunks make the smaller one. */
  lemma Shorter(s: seq<u64>, t: seq<u64>)
    requires 1 <= |s| < |t| && Normal(t)
    ensures Value(s) < Value(t)
  {
    ChunkBounds(s);
    ChunkBounds(t);
    PowAdd(B64, |s|, |t| - 1 - |s|);
    Times(Pow(B64, |s|), Pow(B64, |s|), 1, Pow(B64, |t| - 1 - |s|));
  }

  /** Rows equal above chunk k compare as chunk k does. */
  lemma {:induction false} DecidedAt(s: seq<u64>, t: seq<u64>, k: nat)
    requires |s| == |t| && k < |s| && s[k] < t[k] && s[k + 1..] == t[k + 1..]
    ensures Value(s) < Value(t)
    decreases k
  {
    if k == 0 {
    } else {
      DecidedAt(s[1..], t[1..], k - 1);
    }
  }

  // ---- the tables

  const Pow10Table: seq<u64> := [
    1, 10, 100, 1000, 10000, 100000, 1000000, 10000000, 100000000, 1000000000, 10000000000,
    100000000000, 1000000000000, 10000000000000, 100000000000000, 1000000000000000,
    10000000000000000, 100000000000000000, 1000000000000000000, 10000000000000000000
  ]

  lemma {:induction false} TableIsPowers(k: nat)
    requires k <= 19
    ensures Pow10Table[k] == Pow(10, k)
  {
    if k > 0 { TableIsPowers(k - 1); }
  }

  // ---- shifting by part of a chunk

  /** The bits of a chunk that a shift by n moves up, and those it moves out. */
  function Up2(x: u64, n: nat): u64 { Mul(x, Pow(2, n)) % B64 }

  function Out2(x: u64, n: nat): (r: nat)
    requires 0 < n < 64
  {
    DivNat(x, Pow(2, 64 - n));
    x / Pow(2, 64 - n)
  }

  lemma DivNat(x: nat, y: nat)
    requires y > 0
    ensures x / y >= 0
  {
  }

  lemma ShiftParts(x: u64, n: nat, c: nat)
    requires 0 < n < 64 && c < Pow(2, n)
    ensures 1 < Pow(2, n) < B64 && Out2(x, n) < Pow(2, n)
    ensures Up2(x, n) + c < B64 && Low(x, Pow(2, n), c) == Up2(x, n) + c && High(x, Pow(2, n), c) == Out2(x, n)
  {
    hide Pow, Mul, Mul64, High, Low, Up2, Out2;
    OutUp(x, n);
    HighLow(x, Pow(2, n), c, Out2(x, n), Up2(x, n) + c);
  }

  lemma HighLow(x: u64, val: u64, c: u64, h: nat, l: nat)
    requires Mul(x, val) + c == Mul64(h) + l && l < B64
    ensures High(x, val, c) == h && Low(x, val, c) == l
  {
    hide Mul;
    Products64(x, val);
    Quotient(Mul(x, val) + c, h, l);
  }

  lemma OutUp(x: u64, n: nat)
    requires 0 < n < 64
    ensures 1 < Pow(2, n) < B64 && Out2(x, n) < Pow(2, n)
    ensures Mul(x, Pow(2, n)) == Mul64(Out2(x, n)) + Up2(x, n) && 0 <= Up2(x, n) <= B64 - Pow(2, n)
  {
    var (p, q) := (Pow(2, n), Pow(2, 64 - n));
    PowAdd(2, n, 64 - n);
    Chunk64();
    Pow2Big(n);
    Pow2Big(64 - n);
    hide Pow, Mul;
    var h, l := DivMod(x, q);
    SplitShift(x, p, q, h, l);
    LowPart(l, p, q);
    Quotient(Mul(x, p), h, Mul(l, p));
  }

  lemma DivMod(x: nat, q: nat) returns (h: nat, l: nat)
    requires q > 0
    ensures h == x / q && x == Mul(h, q) + l && l < q
  {
    DivNat(x, q);
    h, l := x / q, x % q;
  }

  lemma {:induction false} Pow2Big(n: nat)
    requires n > 0
    ensures Pow(2, n) > 1
  {
    if n > 1 { Pow2Big(n - 1); }
  }

  lemma Chunk64()
    ensures Pow(2, 64) == B64
  {
    hide Pow;
    SmallPowers();
    PowersOfTwo();
    PowIs(2, 49, 7, 0x2_0000_0000_0000, 128);
    PowIs(2, 56, 7, 0x100_0000_0000_0000, 128);
    OnePower();
    PowIs(2, 63, 1, 0x8000_0000_0000_0000, 2);
  }

  lemma SplitShift(x: nat, p: nat, q: nat, h: nat, l: nat)
    requires p * q == B64 && p > 1 && q > 1 && x == Mul(h, q) + l && x < B64
    ensures Mul(x, p) == Mul64(h) + Mul(l, p) && h < p && p < B64
  {
    Regrouped(h, q, l, p);
    if h >= p { Times(p, h, q, q); }
    Times(p, p, 2, q);
  }

  lemma Regrouped(h: nat, q: nat, l: nat, p: nat)
    ensures (h * q + l) * p == (p * q) * h + l * p
  {
  }

  lemma LowPart(l: nat, p: nat, q: nat)
    requires p * q == B64 && l < q
    ensures 0 <= Mul(l, p) <= B64 - p
  {
    Times(l, q - 1, p, p);
    assert (q - 1) * p == p * q - p;
  }

  lemma Quotient(v: nat, h: nat, l: nat)
    requires v == Mul64(h) + l && l < B64
    ensures v / B64 == h && v % B64 == l
  {
  }

  /** What each chunk is after a shift by less than a chunk. */
  lemma {:induction false} ShiftedAt(s: seq<u64>, n: nat, c: nat, i: nat)
    requires 0 < n < 64 && i <= |s| && c < Pow(2, n) < B64
    ensures Scaled(s, Pow(2, n), c)[i] == (if i < |s| then Up2(s[i], n) else 0)
        + (if i > 0 then Out2(s[i - 1], n) else c)
    decreases |s|
  {
    if s != [] {
      ShiftParts(s[0], n, c);
      if i > 0 { ShiftedAt(s[1..], n, Out2(s[0], n), i - 1); }
    }
  }

  // ---- the carry out

  function Trim(r: seq<u64>): (s: seq<u64>)
    requires r != []
  {
    if r[|r| - 1] == 0 then r[..|r| - 1] else r
  }

  lemma TrimValue(r: seq<u64>)
    requires r != []
    ensures Value(Trim(r)) == Value(r)
  {
    var top := |r| - 1;
    if r[top] == 0 {
      assert r == r[..top] + [0];
      TopZero(r[..top]);
    }
  }

  /** The trimmed product: its value, its form, and that it fits. */
  lemma Product(s: seq<u64>, val: u64, c: u64)
    requires 1 <= |s| <= 64 && val > 0 && Mul(Value(s), val) + c < Pow(B64, 64)
    ensures var r := Trim(Scaled(s, val, c));
      Value(r) == Mul(Value(s), val) + c && 1 <= |r| <= 64 && (Normal(s) ==> Normal(r))
  {
    hide Value, Mul, Pow, Scaled;
    ScaledValue(s, val, c);
    TrimValue(Scaled(s, val, c));
    ChunkBounds(Scaled(s, val, c));
    if Normal(s) { TrimNormal(s, val, c); }
  }

  lemma TrimNormal(s: seq<u64>, val: u64, c: u64)
    requires Normal(s) && val > 0
    ensures Normal(Trim(Scaled(s, val, c)))
  {
    hide Scaled;
    if Scaled(s, val, c)[|s|] == 0 && |s| > 1 { ScaledTop(s, val, c); }
  }

  /** A carry pass over was that will give all: chunks below idx are done, the rest untouched. */
  ghost predicate Pass(m: seq<u64>, was: seq<u64>, idx: nat, val: u64, c: u64, all: seq<u64>) {
    idx <= |was| <= |m| && m[idx..|was|] == was[idx..] && m[..idx] + Scaled(was[idx..], val, c) == all
  }

  lemma PassStep(m: seq<u64>, was: seq<u64>, idx: nat, val: u64, c: u64, all: seq<u64>, h: u64, l: u64)
    requires Pass(m, was, idx, val, c, all) && idx < |was| && h == High(was[idx], val, c) && l == Low(was[idx], val, c)
    ensures m[idx] == was[idx] && Pass(m[idx := l], was, idx + 1, val, h, all)
  {
    hide Low, High;
    assert m[idx] == m[idx..|was|][0];
    assert was[idx..][1..] == was[idx + 1..] && was[idx..][0] == was[idx];
    assert m[idx := l][..idx + 1] == m[..idx] + [l];
    assert m[..idx] + Scaled(was[idx..], val, c) == m[..idx] + [l] + Scaled(was[idx + 1..], val, h);
    assert m[idx + 1..|was|] == m[idx..|was|][1..];
  }

  /** The pass is over once nothing is carried. */
  lemma PassOver(m: seq<u64>, was: seq<u64>, idx: nat, all: seq<u64>)
    requires Pass(m, was, idx, 1, 0, all)
    ensures Trim0(all) == m[..|was|]
  {
    hide Scaled;
    NoCarry(m[..idx], was[idx..]);
    assert m[..idx] + m[idx..|was|] == m[..|was|];
  }

  lemma PassEnd(m: seq<u64>, was: seq<u64>, val: u64, c: u64, all: seq<u64>)
    requires Pass(m, was, |was|, val, c, all)
    ensures all == m[..|was|] + [c] && Trim0(all) == if c == 0 then m[..|was|] else m[..|was|] + [c]
  {
    LastCarry(m[..|was|], was[|was|..], val, c);
  }

  lemma Single(val: u64)
    ensures Value([val]) == val && Normal([val])
  {
    assert [val][1..] == [];
  }

  class BigInt {
    const bits: array<u64>
    var used: nat

    ghost predicate Valid()
      reads this
    {
      bits.Length == 64 && 1 <= used <= 64
    }

    ghost function Chunks(): seq<u64>
      reads this, bits
      requires Valid()
    {
      bits[..used]
    }

    ghost function Num(): nat
      reads this, bits
      requires Valid()
    {
      Value(Chunks())
    }

    constructor (val: u64)
      ensures Valid() && fresh(bits) && Num() == val && Normal(Chunks())
    {
      bits := new u64[64];
      used := 1;
      new;
      bits[0] := val;
      Single(val);
      assert bits[..1] == [val];
    }

    method SetU64(val: u64)
      requires Valid()
      modifies this, bits
      ensures Valid() && Num() == val && Normal(Chunks())
    {
      used := 1;
      bits[0] := val;
      Single(val);
      assert bits[..1] == [val];
    }

    method AddU64(val: u64)
      requires Valid() && Num() + val < Pow(B64, 64)
      modifies this, bits
      ensures Valid() && Num() == old(Num()) + val && (old(Normal(Chunks())) ==> Normal(Chunks()))
    {
      hide Value, Normal, Pow, Scaled, Mul;
      ghost var was := Chunks();
      Zero(Value(was));
      Product(was, 1, val);
      var num := bits[0];
      var add := ToU64(num + val);
      AddStep(num, val);
      bits[0] := add;
      FirstStep(was, val);
      assert Chunks() == [add] + was[1..] && bits[..][1..used] == was[1..] && bits[..][..1] == [add];
      if add >= num || add >= val {
        NoCarry([add], was[1..]);
        return;
      }
      Ripple(was, Scaled(was, 1, val));
    }

    /** Carries one into the chunks after the first. */
    method Ripple(ghost was: seq<u64>, ghost all: seq<u64>)
      requires Valid() && |was| == used && 1 <= |Trim0(all)| <= 64 && Pass(bits[..], was, 1, 1, 1, all)
      modifies this, bits
      ensures Valid() && Chunks() == Trim0(all)
    {
      hide Pass, Trim0, Low, High;
      var idx, max := 1, used;
      while idx < max
        invariant 1 <= idx <= max == used && Valid() && Pass(bits[..], was, idx, 1, 1, all)
      {
        AddStep(was[idx], 1);
        PassStep(bits[..], was, idx, 1, 1, all, High(was[idx], 1, 1), Low(was[idx], 1, 1));
        if bits[idx] != 0xffff_ffff_ffff_ffff {
          ghost var m := bits[..][idx := Low(was[idx], 1, 1)];
          bits[idx] := bits[idx] + 1;
          assert bits[..] == m;
          PassOver(m, was, idx + 1, all);
          return;
        }
        bits[idx] := 0;
        idx := idx + 1;
      }
      PassEnd(bits[..], was, 1, 1, all);
      bits[used] := 1;
      used := used + 1;
      assert Chunks() == all;
    }

    method MulU64(val: u64)
      requires Valid() && val > 0 && Mul(Num(), val) < Pow(B64, 64)
      modifies this, bits
      ensures Valid() && Num() == Mul(old(Num()), val) && (old(Normal(Chunks())) ==> Normal(Chunks()))
    {
      hide Value, Normal, Pow, Scaled, Mul;
      ghost var was := Chunks();
      Product(was, val, 0);
      var idx, max := 0, used;
      while idx < max
        invariant 0 <= idx <= max == used && Valid() && Chunks() == was
        invariant forall k | 0 <= k < idx :: was[k] == 0
      {
        if bits[idx] != 0 { break; }
        idx := idx + 1;
      }
      ScaledZeros(was[..idx], was[idx..], val);
      assert was == was[..idx] + was[idx..] && bits[..][idx..used] == was[idx..] && bits[..][..idx] == was[..idx];
      MulFrom(idx, val, was, Scaled(was, val, 0));
    }

    /** Multiplies the chunks from idx on. */
    method MulFrom(from: nat, val: u64, ghost was: seq<u64>, ghost all: seq<u64>)
      requires Valid() && |was| == used && 1 <= |Trim0(all)| <= 64 && Pass(bits[..], was, from, val, 0, all)
      modifies this, bits
      ensures Valid() && Chunks() == Trim0(all)
    {
      hide Mul, Pass, Trim0;
      var carry: u64 := 0;
      var idx, max := from, used;
      assert from <= |was| by { PassRange(bits[..], was, from, val, 0, all); }
      while idx < max
        invariant from <= idx <= max == used && Valid() && Pass(bits[..], was, idx, val, carry, all)
      {
        PassStep(bits[..], was, idx, val, carry, all, High(was[idx], val, carry), Low(was[idx], val, carry));
        var hi, lo := U128MulAdd(bits[idx], val, carry);
        HighLow(was[idx], val, carry, hi, lo);
        bits[idx] := lo;
        carry := hi;
        idx := idx + 1;
      }
      PassEnd(bits[..], was, val, carry, all);
      if carry != 0 {
        bits[used] := carry;
        used := used + 1;
      }
    }

    /** Multiplies by 2^exp: chunks move up, and so do the bits inside them. */
    method MulPow2(exp: nat)
      requires Valid() && (if exp % 64 == 0 then used + exp / 64 <= 64 else used + exp / 64 < 64)
      modifies this, bits
      ensures Valid() && Num() == Mul(old(Num()), Pow(2, exp))
      ensures old(Normal(Chunks())) ==> (Normal(Chunks()) <==> old(Num()) > 0 || exp < 64)
    {
      hide Value, Normal, Pow, Mul;
      var shft, move := exp % 64, exp / 64;
      ghost var was := Chunks();
      if shft == 0 {
        MoveUp(move);
        ZeroPowers();
        Zero(Value(was));
        Moved(was, was, Chunks(), move, exp, 0);
      } else {
        ghost var all := Scaled(was, ShiftFactor(shft), 0);
        ShiftUp(shft, move);
        ShiftedRow(was, shft);
        Moved(was, Trim(all), Chunks(), move, exp, shft);
      }
    }

    method MoveUp(move: nat)
      requires Valid() && used + move <= 64
      modifies this, bits
      ensures Valid() && Chunks() == Zeros(move) + old(Chunks())
    {
      ghost var was := Chunks();
      MoveChunks(move);
      used := used + move;
      Clear(move);
      assert Chunks()[move..] == was && Chunks()[..move] == Zeros(move);
    }

    method MoveChunks(move: nat)
      requires Valid() && used + move <= 64
      modifies bits
      ensures Valid() && forall k | 0 <= k < used :: bits[k + move] == old(bits[k])
    {
      var idx := used;
      while idx > 0
        invariant 0 <= idx <= used && Valid()
        invariant forall k | 0 <= k < idx :: bits[k] == old(bits[k])
        invariant forall k | idx <= k < used :: bits[k + move] == old(bits[k])
      {
        bits[idx + move - 1] := bits[idx - 1];
        idx := idx - 1;
      }
    }

    /** Chunks below move become zero. */
    method Clear(move: nat)
      requires bits.Length == 64 && move <= 64
      modifies bits
      ensures forall k | 0 <= k < 64 :: bits[k] == if k < move then 0 else old(bits[k])
    {
      var l := move;
      while l > 0
        invariant 0 <= l <= move
        invariant forall k | 0 <= k < 64 :: bits[k] == if l <= k < move then 0 else old(bits[k])
      {
        l := l - 1;
        bits[l] := 0;
      }
    }

    method ShiftUp(shft: nat, move: nat)
      requires Valid() && 0 < shft < 64 && used + move < 64
      modifies this, bits
      ensures Valid() && Chunks() == Zeros(move) + Trim(Scaled(old(Chunks()), ShiftFactor(shft), 0))
    {
      hide Scaled, Up2, Out2;
      ghost var (was, all) := (Chunks(), Scaled(Chunks(), ShiftFactor(shft), 0));
      ShiftChunks(shft, move);
      used := used + move + (if bits[used + move] > 0 then 1 else 0);
      Clear(move);
      assert Chunks()[move..] == Trim(all);
    }

    method ShiftChunks(shft: nat, move: nat)
      requires Valid() && 0 < shft < 64 && used + move < 64
      modifies bits
      ensures Valid() && forall k | 0 <= k <= used :: bits[k + move] == Scaled(old(Chunks()), ShiftFactor(shft), 0)[k]
    {
      hide Scaled, Up2, Out2;
      ghost var (was, all) := (Chunks(), Scaled(Chunks(), ShiftFactor(shft), 0));
      ShiftedAll(was, shft);
      var idx := used;
      bits[idx] := 0;
      while idx > 0
        invariant 0 <= idx <= used == |was| && Valid()
        invariant forall k | 0 <= k <= idx && k < used :: bits[k] == was[k]
        invariant idx == used ==> bits[idx] == 0
        invariant forall k | idx < k <= used :: bits[k + move] == all[k]
      {
        bits[idx + move] := Up2(bits[idx], shft) + Out2(bits[idx - 1], shft);
        idx := idx - 1;
      }
      bits[move] := Up2(bits[0], shft);
    }

    /** Multiplies by 10^exp, nineteen places at a time. */
    method MulPow10(exp: nat)
      requires Valid() && Mul(Num(), Pow(10, exp)) < Pow(B64, 64)
      modifies this, bits
      ensures Valid() && Num() == Mul(old(Num()), Pow(10, exp)) && (old(Normal(Chunks())) ==> Normal(Chunks()))
    {
      hide Value, Normal, Pow, Mul;
      var e := exp;
      ghost var (n, limit) := (Num(), Pow(B64, 64));
      OneTimes(n);
      while e >= 19
        invariant 0 <= e <= exp && Valid() && Mul(Num(), Pow(10, e)) == Mul(n, Pow(10, exp)) < limit
        invariant old(Normal(Chunks())) ==> Normal(Chunks())
      {
        TenStep(Num(), 19, e - 19, limit);
        MulU64(Pow10Table[19]);
        e := e - 19;
      }
      TenStep(Num(), e, 0, limit);
      if e > 0 { MulU64(Pow10Table[e]); } else { OneTimes(Num()); }
    }

    /** Compares from the top chunk down; exact between normal numbers. */
    method Cmp(b: BigInt) returns (c: int)
      requires Valid() && b.Valid() && Normal(Chunks()) && Normal(b.Chunks())
      ensures c == if Num() < b.Num() then -1 else if Num() > b.Num() then 1 else 0
    {
      hide Value, Normal;
      var idx := used;
      ghost var (s, t) := (Chunks(), b.Chunks());
      if used < b.used { Shorter(s, t); return -1; }
      if used > b.used { Shorter(t, s); return 1; }
      while idx > 0
        invariant 0 <= idx <= used && s[idx..] == t[idx..]
      {
        idx := idx - 1;
        var av, bv := bits[idx], b.bits[idx];
        assert av == s[idx] && bv == t[idx];
        if av < bv { DecidedAt(s, t, idx); return -1; }
        if av > bv { DecidedAt(t, s, idx); return 1; }
        assert s[idx..] == [av] + s[idx + 1..] && t[idx..] == [bv] + t[idx + 1..];
      }
      assert s == s[0..] && t == t[0..];
      return 0;
    }
  }

  lemma PassRange(m: seq<u64>, was: seq<u64>, idx: nat, val: u64, c: u64, all: seq<u64>)
    requires Pass(m, was, idx, val, c, all)
    ensures idx <= |was| <= |m|
  {
  }

  /** Trim, on any row. */
  function Trim0(r: seq<u64>): seq<u64> { if r == [] then [] else Trim(r) }

  lemma FirstStep(was: seq<u64>, val: u64)
    requires was != []
    ensures Scaled(was, 1, val) == [Low(was[0], 1, val)] + Scaled(was[1..], 1, High(was[0], 1, val))
  {
  }

  lemma NoCarry(below: seq<u64>, s: seq<u64>)
    ensures Trim0(below + Scaled(s, 1, 0)) == below + s
  {
    ScaledNone(s);
    assert below + (s + [0]) == (below + s) + [0];
  }

  lemma LastCarry(below: seq<u64>, s: seq<u64>, val: u64, c: u64)
    requires s == []
    ensures Scaled(s, val, c) == [c] && Trim0(below + [c]) == if c == 0 then below else below + [c]
  {
  }

  lemma AddStep(num: u64, val: u64)
    ensures Low(num, 1, val) == ToU64(num + val) && High(num, 1, val) == if num + val < B64 then 0 else 1
    ensures num + val < B64 <==> ToU64(num + val) >= num || ToU64(num + val) >= val
  {
    Zero(num);
  }

  /** u128_mul_add without 128-bit integers. */
  method U128MulAdd(a: u64, b: u64, c: u64) returns (hi: u64, lo: u64)
    ensures Mul64(hi) + lo == Mul(a, b) + c
  {
    var h, l := U128Mul(a, b);
    Products64(a, b);
    var t := ToU64(l + c);
    if t < l || t < c {
      assert h < B64 - 1;
      hi := h + 1;
    } else {
      hi := h;
    }
    lo := t;
  }

  function Zeros(n: nat): (z: seq<u64>)
    ensures |z| == n && forall k | 0 <= k < n :: z[k] == 0
  {
    if n == 0 then [] else [0] + Zeros(n - 1)
  }

  /** 2^n for a shift by n bits. */
  function ShiftFactor(n: nat): u64
    requires n < 64
  {
    ShiftRange(n);
    Pow(2, n)
  }

  lemma ShiftRange(n: nat)
    requires n < 64
    ensures 0 < Pow(2, n) < B64
  {
    if n > 0 { OutUp(0, n); }
  }

  lemma ShiftedAll(s: seq<u64>, n: nat)
    requires 0 < n < 64 && s != []
    ensures var all := Scaled(s, ShiftFactor(n), 0);
      && |all| == |s| + 1 && all[0] == Up2(s[0], n) && Up2(0, n) == 0
      && forall k | 0 < k <= |s| :: all[k] == (if k < |s| then Up2(s[k], n) else 0) + Out2(s[k - 1], n)
    ensures forall x: u64, y: u64 :: 0 <= Up2(x, n) + Out2(y, n) < B64
  {
    hide Scaled, Up2, Out2;
    ShiftRange(n);
    forall x: u64, y: u64 ensures 0 <= Up2(x, n) + Out2(y, n) < B64 { OutUp(x, n); OutUp(y, n); }
    forall k | 0 <= k <= |s| ensures Scaled(s, ShiftFactor(n), 0)[k] == (if k < |s| then Up2(s[k], n) else 0)
        + (if k > 0 then Out2(s[k - 1], n) else 0) {
      ShiftedAt(s, n, 0, k);
    }
    ShiftedAt(s, n, 0, 0);
    UpZero(n);
  }

  lemma UpZero(n: nat)
    ensures Up2(0, n) == 0
  {
    hide Pow;
    Zero(Pow(2, n));
  }

  /** The row shifted inside its chunks. */
  lemma ShiftedRow(s: seq<u64>, n: nat)
    requires 0 < n < 64 && s != []
    ensures var r := Trim(Scaled(s, ShiftFactor(n), 0));
      Value(r) == Mul(Value(s), Pow(2, n)) && r != [] && (Normal(s) ==> Normal(r))
  {
    hide Value, Mul, Scaled, Normal;
    ShiftRange(n);
    ScaledValue(s, ShiftFactor(n), 0);
    TrimValue(Scaled(s, ShiftFactor(n), 0));
    if Normal(s) { TrimNormal(s, ShiftFactor(n), 0); }
  }

  /** The row moved up by whole chunks. */
  lemma Moved(was: seq<u64>, row: seq<u64>, now: seq<u64>, move: nat, exp: nat, shft: nat)
    requires now == Zeros(move) + row && row != [] && Value(row) == Mul(Value(was), Pow(2, shft))
        && exp == 64 * move + shft
    requires was != [] && (Normal(was) ==> Normal(row))
    ensures Value(now) == Mul(Value(was), Pow(2, exp))
    ensures Normal(was) ==> (Normal(now) <==> Value(was) > 0 || move == 0)
  {
    hide Value, Pow;
    ValueZeros(row, Zeros(move), move);
    Chunk64();
    PowMul(2, 64, move);
    PowAdd(2, shft, 64 * move);
    Assoc(Value(was), Pow(2, shft), Pow(2, 64 * move));
    if Normal(was) { MovedNormal(was, row, now, move, Pow(2, shft)); }
  }

  lemma Assoc(a: nat, b: nat, c: nat)
    ensures Mul(Mul(a, b), c) == Mul(a, b * c)
  {
  }

  lemma {:induction false} MovedNormal(was: seq<u64>, row: seq<u64>, now: seq<u64>, move: nat, p: nat)
    requires now == Zeros(move) + row && row != [] && Normal(row) && Value(row) == Mul(Value(was), p) && p > 0
    ensures Normal(now) <==> Value(was) > 0 || move == 0
  {
    hide Value;
    if move == 0 { assert now == row; }
    ChunkBounds(row);
    assert now[|now| - 1] == row[|row| - 1];
    Zero(p);
    if Value(was) > 0 { Times(1, Value(was), 1, p); }
    if |row| == 1 { Single(row[0]); assert row == [row[0]]; }
  }

  lemma OneTimes(n: nat)
    ensures Pow(10, 0) == 1 && Pow(2, 0) == 1 && Mul(n, 1) == n && Mul(n, Pow(10, 0)) == n
  {
  }

  /** One factor of a power of ten, and that the product so far stays within the limit. */
  lemma TenStep(n: nat, a: nat, b: nat, limit: nat)
    requires a <= 19 && Mul(n, Pow(10, a + b)) < limit
    ensures Pow10Table[a] == Pow(10, a) > 0 && Mul(n, Pow10Table[a]) < limit
    ensures Mul(Mul(n, Pow10Table[a]), Pow(10, b)) == Mul(n, Pow(10, a + b))
  {
    TableIsPowers(a);
    PowAdd(10, a, b);
    hide Pow;
    Assoc(n, Pow(10, a), Pow(10, b));
    Times(Mul(n, Pow(10, a)), Mul(n, Pow(10, a)), 1, Pow(10, b));
  }
}
