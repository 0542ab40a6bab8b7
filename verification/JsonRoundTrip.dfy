/** Whole round trips over the readers and writers: a document written, padded and read again, and
    a document copied to its mutable form and written from there. */
module JsonRoundTrips {
  import opened Bytes
  import opened JsonNumber
  import opened JsonString
  import opened JsonDoc
  import opened JsonReader
  import opened JsonWriter
  import opened JsonMutable
  import opened JsonMutWriter

  /** A writable document has keys that are strings, each with a value. */
  lemma {:induction false} WritablePaired(v: Value)
    requires Writable(v)
    ensures Paired(v)
    decreases v, 1
  {
    if v.Container? { ItemsPaired(v.obj, 0, v.items); }
  }

  lemma {:induction false} ItemsPaired(obj: bool, n: nat, items: seq<Value>)
    requires AllWritable(obj, n, items)
    ensures forall i | 0 <= i < |items| :: Paired(items[i])
    ensures obj ==> forall i | 0 <= i < |items| && (n + i) % 2 == 0 :: items[i].Str?
    decreases items, 0
  {
    if items != [] {
      WritablePaired(items[0]);
      hide Paired, Writable;
      ItemsPaired(obj, n + 1, items[1..]);
      forall i | 0 <= i < |items| ensures Paired(items[i]) && (obj && (n + i) % 2 == 0 ==> items[i].Str?) {
        if i > 0 { assert items[i] == items[1..][i - 1]; }
      }
    }
  }

  /** A document that is written, followed by the four zero bytes readers are given, reads back
      as the same document. */
  method WriteAndRead(vals: seq<Tok<seq<u8>>>, f: Flags, conv: Convert, ghost v: Value)
      returns (ok: bool, cells: seq<Cell>, text: seq<u8>)
    requires vals == Flat(v) && Writable(v) && v.Container? && v.items != [] && |vals| < USIZE_END / 4
    ensures ok && Stored(text, cells, vals)
  {
    hide TextOf, Flat, Writable, ParseDoc, Stored;
    var out, len := WriteMinify(vals, f, v);
    var padded := new u8[len + 4];
    PutBytes(padded, 0, out[..len]);
    PutBytes(padded, len, [0, 0, 0, 0]);
    ghost var s := TextOf(f, v);
    assert padded[len..len + 4] == [0, 0, 0, 0];
    assert padded[..len] == s;
    Padded(padded[..], s);
    DocRoundTrip(f, v, conv);
    StartsOpen(f, v);
    ok, cells := ReadRoot(padded, 0, len, s, conv);
    text := padded[..len];
  }

  lemma Padded(all: seq<u8>, s: seq<u8>)
    requires |all| == |s| + 4 && all[..|s|] == s && all[|s|..] == [0, 0, 0, 0]
    ensures forall k | 0 <= k < |s| + 4 :: all[k] == At(s, k)
  {
    forall k | 0 <= k < |s| + 4 ensures all[k] == At(s, k) {
      if k < |s| { assert all[k] == all[..|s|][k]; } else { assert all[k] == all[|s|..][k - |s|]; }
    }
  }

  lemma StartsOpen(f: Flags, v: Value)
    requires v.Container?
    ensures TextOf(f, v) != [] && At(TextOf(f, v), 0) == Open(v.obj)
  {
    hide TextItems;
  }

  /** The copy of a document and the document itself are written as the same bytes. */
  method CopyAndWrite(vals: seq<Tok<seq<u8>>>, f: Flags, ghost v: Value) returns (text: seq<u8>, copied: seq<u8>)
    requires vals == Flat(v) && Writable(v) && v.Container? && v.items != [] && |vals| < USIZE_END / 8
    ensures copied == text == TextOf(f, v)
  {
    hide TextOf, Flat, Writable, Links, SmallCounts;
    WritablePaired(v);
    hide Paired;
    var out, len := WriteMinify(vals, f, v);
    assert vals[0..0 + |vals|] == vals;
    var m := MutCopy(vals, 0, v);
    CellsFit(m[..], |vals|);
    var mutOut, mutLen := MutWriteMinify(m[..], 0, f, v);
    text, copied := out[..len], mutOut[..mutLen];
  }

  lemma CellsFit(m: seq<Node>, n: nat)
    requires SmallCounts(m, n) && |m| <= n < USIZE_END / 8
    ensures Cells(m)
  {
  }
}
