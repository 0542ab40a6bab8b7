/** Facts about sequences that are cheaper to prove once, away from other context. */
module Lists {

  lemma Assoc<T>(a: seq<T>, b: seq<T>, c: seq<T>)
    ensures a + b + c == a + (b + c)
  {
  }

  lemma HeadTail<T>(s: seq<T>)
    requires s != []
    ensures s == [s[0]] + s[1..]
  {
  }

  lemma TailAppend<T>(a: seq<T>, b: seq<T>)
    requires a != []
    ensures (a + b)[0] == a[0] && (a + b)[1..] == a[1..] + b
  {
  }

  lemma LastAppend<T>(a: seq<T>, e: T)
    ensures (a + [e])[|a + [e]| - 1] == e && (a + [e])[..|a + [e]| - 1] == a
  {
  }

  lemma Unsnoc<T>(s: seq<T>) returns (init: seq<T>, last: T)
    requires s != []
    ensures s == init + [last] && init == s[..|s| - 1] && last == s[|s| - 1]
  {
    init, last := s[..|s| - 1], s[|s| - 1];
  }

  lemma Sub<T>(s: seq<T>, a: nat, b: nat, c: nat, d: nat)
    requires a <= b <= |s| && c <= d <= b - a
    ensures s[a..b][c..d] == s[a + c..a + d]
  {
    var l, r := s[a..b][c..d], s[a + c..a + d];
    forall i | 0 <= i < |l| ensures l[i] == r[i] {
      assert l[i] == s[a..b][c + i] == s[a + (c + i)];
    }
  }

  lemma Four<T>(a: seq<T>, b: seq<T>, c: seq<T>, d: seq<T>)
    ensures a + b + c + d == a + (b + (c + d))
  {
  }

  lemma Cut<T>(a: seq<T>, b: seq<T>)
    ensures (a + b)[..|a|] == a && (a + b)[|a|..] == b
  {
  }

  lemma FourLeft<T>(a: seq<T>, b: seq<T>, c: seq<T>, d: seq<T>)
    ensures a + (b + c + d) == a + b + c + d
  {
  }

  lemma FiveLeft<T>(a: seq<T>, b: seq<T>, c: seq<T>, d: seq<T>, e: seq<T>)
    ensures a + (b + c + d + e) == a + b + c + d + e
  {
    Assoc(a, b + c + d, e);
    FourLeft(a, b, c, d);
  }

  lemma Middle<T>(a: seq<T>, b: seq<T>, c: seq<T>, d: seq<T>)
    ensures |a| + |b| + |c| <= |a + (b + c + d)|
    ensures (a + (b + c + d))[|a| + |b|..|a| + |b| + |c|] == c
  {
  }

  lemma Swap<T>(a: seq<T>, b: seq<T>, c: seq<T>)
    ensures var s := a + b + c;
      s[..|a|] + s[|a + b|..] + s[|a|..|a + b|] == a + c + b
  {
    var s := a + b + c;
    assert s[..|a|] == a && s[|a + b|..] == c && s[|a|..|a + b|] == b;
  }

  lemma Overwrite<T>(a: seq<T>, b: seq<T>, c: seq<T>, d: seq<T>, e: seq<T>)
    requires |c| == |d|
    ensures var s := a + (b + c) + e;
      s[..|a| + |b|] + d + s[|a| + |b| + |c|..] == a + (b + d + e)
  {
    var s := a + (b + c) + e;
    assert s[..|a| + |b|] == a + b && s[|a| + |b| + |c|..] == e;
  }

  lemma SixLeft<T>(a: seq<T>, b: seq<T>, c: seq<T>, d: seq<T>, e: seq<T>, f: seq<T>)
    ensures a + b + c + d + e + f == a + (b + c + d + e + f)
  {
    Assoc(a, b + c + d + e, f);
    FiveLeft(a, b, c, d, e);
    Assoc(a, b + c + d, e);
    FourLeft(a, b, c, d);
  }
}
