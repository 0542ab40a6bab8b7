/** Sets of code points as run lengths, alternately out of the set and in it, and their encoding in
    bytes. */
module CharRuns {
  import opened Bytes
  import Lists

  /** Two short runs in one byte, or one run in one, two or three bytes. */
  datatype Item = Pair(a: nat, b: nat) | Short(n: nat) | Medium(n: nat) | Long(n: nat)

  predicate Fits(i: Item) {
    match i
    case Pair(a, b) => 1 <= a <= 8 && 1 <= b <= 8
    case Short(n) => 1 <= n <= 0x80
    case Medium(n) => 1 <= n <= 0x2000
    case Long(n) => 1 <= n <= 0x20_0000
  }

  predicate AllFit(items: seq<Item>) { forall i | 0 <= i < |items| :: Fits(items[i]) }

  /** A pair has 3 bits for each run; a single run is one less than its length, in big-endian order,
      behind the bits 1, 010 or 011. */
  function ItemBytes(i: Item): (r: seq<u8>)
    requires Fits(i)
    ensures r != []
  {
    match i
    case Pair(a, b) => [(a - 1) * 8 + (b - 1)]
    case Short(n) => [0x80 + (n - 1)]
    case Medium(n) => [0x40 + (n - 1) / 0x100, (n - 1) % 0x100]
    case Long(n) => [0x60 + (n - 1) / 0x1_0000, (n - 1) / 0x100 % 0x100, (n - 1) % 0x100]
  }

  function Lengths(i: Item): (r: seq<nat>)
    ensures 1 <= |r| <= 2
  {
    if i.Pair? then [i.a, i.b] else [i.n]
  }

  function Encoded(items: seq<Item>): seq<u8>
    requires AllFit(items)
  {
    if items == [] then [] else ItemBytes(items[0]) + Encoded(items[1..])
  }

  function Runs(items: seq<Item>): seq<nat> {
    if items == [] then [] else Lengths(items[0]) + Runs(items[1..])
  }

  /** The sum of the lengths. */
  function Total(runs: seq<nat>): nat { if runs == [] then 0 else runs[0] + Total(runs[1..]) }

  /** c lies in run k. */
  ghost predicate FallsIn(runs: seq<nat>, k: nat, c: int) {
    k < |runs| && Total(runs[..k]) <= c < Total(runs[..k + 1])
  }

  /** c lies in a run of the set: one with an odd number. */
  ghost predicate InRuns(runs: seq<nat>, c: int) { exists k: nat :: k % 2 == 1 && FallsIn(runs, k, c) }

  /** The ends of all runs, from at on. */
  function Sums(runs: seq<nat>, at: int): seq<int> {
    if runs == [] then [] else [at + runs[0]] + Sums(runs[1..], at + runs[0])
  }

  /** The endpoints of the runs with odd numbers. */
  function OddRuns(runs: seq<nat>, at: int): seq<int> {
    if |runs| < 2 then [] else [at + runs[0], at + runs[0] + runs[1]] + OddRuns(runs[2..], at + runs[0] + runs[1])
  }

  lemma {:induction false} TotalAppend(a: seq<nat>, b: seq<nat>)
    ensures Total(a + b) == Total(a) + Total(b)
    decreases |a|
  {
    if a == [] {
      assert a + b == b;
    } else {
      Lists.TailAppend(a, b);
      TotalAppend(a[1..], b);
    }
  }

  lemma {:induction false} RunsAppend(a: seq<Item>, b: seq<Item>)
    ensures Runs(a + b) == Runs(a) + Runs(b)
    decreases |a|
  {
    if a == [] {
      assert a + b == b;
    } else {
      Lists.TailAppend(a, b);
      RunsAppend(a[1..], b);
      Lists.Assoc(Lengths(a[0]), Runs(a[1..]), Runs(b));
    }
  }

  lemma {:induction false} EncodedAppend(a: seq<Item>, b: seq<Item>)
    requires AllFit(a) && AllFit(b)
    ensures AllFit(a + b) && Encoded(a + b) == Encoded(a) + Encoded(b)
    decreases |a|
  {
    if a == [] {
      assert a + b == b;
    } else {
      Lists.TailAppend(a, b);
      assert (a + b)[0] == a[0];
      EncodedAppend(a[1..], b);
      Lists.Assoc(ItemBytes(a[0]), Encoded(a[1..]), Encoded(b));
    }
  }

  lemma {:induction false} SumsAppend(a: seq<nat>, b: seq<nat>, at: int)
    ensures Sums(a + b, at) == Sums(a, at) + Sums(b, at + Total(a))
    decreases |a|
  {
    if a == [] {
      assert a + b == b;
    } else {
      Lists.TailAppend(a, b);
      SumsAppend(a[1..], b, at + a[0]);
    }
  }

  lemma {:induction false} SumsLast(runs: seq<nat>, at: int)
    ensures |Sums(runs, at)| == |runs|
    ensures runs != [] ==> Sums(runs, at)[|runs| - 1] == at + Total(runs)
    decreases |runs|
  {
    if runs != [] { SumsLast(runs[1..], at + runs[0]); }
  }
}
