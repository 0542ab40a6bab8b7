/** The open-addressing hash map: it behaves as a finite map through put, get, remove, reserve,
    clear, reset and removal during iteration, also when allocations fail. */
module HashMaps {
  import opened Options
  import opened Powers
  import opened HashProbe

  const SIZE_MIN := 32
  const SIZE_DEFAULT := 128

  /** Results of put: success or -errno. */
  datatype Code = Ok | NoMemory | Exists | NoSlot

  // ---- table sizes

  predicate PowerOf2(n: nat)
    decreases n
  {
    n == 1 || (n > 1 && n % 2 == 0 && PowerOf2(n / 2))
  }

  /** Bits of v: 64 minus its leading zeros. */
  function Bits(v: nat): nat
    decreases v
  {
    if v == 0 then 0 else 1 + Bits(v / 2)
  }

  lemma {:induction false} ShiftBits(v: nat)
    ensures PowerOf2(Pow(2, Bits(v))) && v < Pow(2, Bits(v)) && (v > 0 ==> Pow(2, Bits(v)) <= 2 * v)
    decreases v
  {
    if v > 0 {
      ShiftBits(v / 2);
      OneBitMore(v);
    }
  }

  lemma OneBitMore(v: nat)
    requires v > 0
    ensures Pow(2, Bits(v)) == 2 * Pow(2, Bits(v / 2)) && Bits(v) == 1 + Bits(v / 2)
  {
  }

  /** hashmap_calc_table_size: at most 3/4 of the slots in use, a power of two, at least init. */
  function CalcTableSize(init: nat, size: nat): (n: nat)
    requires init > 0
    ensures size + size / 3 <= n && init <= n
    ensures PowerOf2(init) ==> PowerOf2(n)
    ensures n == init || n < 2 * (size + size / 3)
  {
    var t := size + size / 3;
    if t < init then init
    else
      ShiftBits(t - 1);
      AtLeast(init, t);
      Pow(2, Bits(t - 1))
  }

  lemma AtLeast(init: nat, t: nat)
    requires init <= t && t > 0
    ensures t <= Pow(2, Bits(t - 1)) && init <= Pow(2, Bits(t - 1)) && Pow(2, Bits(t - 1)) < 2 * t
  {
    ShiftBits(t - 1);
    if t == 1 { assert Bits(0) == 0 && Pow(2, 0) == 1; }
  }

  // ---- the map

  class HashMap<K(==, !new), V(==)> {
    var table: array<Slot<K, V>>
    var tableSizeInit: nat
    var size: nat
    /** The secondary hash of the hash of a key. */
    const hash: K -> nat
    /** The abstract value, and a slot that no path passes. */
    ghost var m: map<K, V>
    ghost var cut: int

    /** The table holds the entries of m, and each is found by probing. */
    ghost predicate Good()
      reads this`table, this`m, this`cut, table
    {
      && |m| <= table.Length && Represents(table[..], m)
      && (table.Length > 0 ==> Probing(table[..], hash, cut))
      && (|m| < table.Length ==> 0 <= cut < table.Length && table[cut].Free?)
    }

    ghost predicate Valid()
      reads this, table
    {
      && Good() && size == |m|
      && (table.Length == 0 || PowerOf2(table.Length))
      && SIZE_MIN <= tableSizeInit && PowerOf2(tableSizeInit)
    }

    /** hashmap_base_init */
    constructor (hash: K -> nat)
      ensures Valid() && fresh(table) && m == map[] && table.Length == 0 && this.hash == hash
    {
      table := new Slot<K, V>[0];
      tableSizeInit := SIZE_DEFAULT;
      size := 0;
      this.hash := hash;
      m := map[];
      cut := 0;
      PowerValues();
    }

    /** hashmap_entry_find: the slot of the key, or the free slot where its search ends if
        findEmpty is set. */
    method Find(key: K, findEmpty: bool) returns (r: Option<nat>)
      requires Good()
      ensures r.Some? ==> r.value < table.Length
      ensures key in m ==> r.Some? && table[r.value] == Used(key, m[key])
      ensures key !in m && r.Some? ==>
          findEmpty && table[r.value].Free?
          && FirstFree(table[..], hash, cut, key, r.value)
      ensures key !in m && findEmpty && r.None? ==> |m| == table.Length
    {
      hide Probing, Represents, Missed, FirstFree, To, From, Home, Next, Index, Wrap;
      if table.Length == 0 {
        NoSlots(table[..], m);
        return None;
      }
      ghost var t := table[..];
      var n := table.Length;
      var index := Index(hash, key, n);
      ghost var h := Home(t, hash, cut, key);
      FindStart(t, hash, cut, key, h);
      assert |t| == n;
      for i := 0 to n
        invariant table[..] == t && 0 <= h < n && index == To(cut, Wrap(h + i, n), n) && Missed(t, cut, key, h, i)
      {
        match table[index] {
          case Free =>
            FindFree(t, hash, cut, key, h, i, m);
            if findEmpty { return Some(index); }
            return None;
          case Used(k, v) =>
            if k == key {
              FindHit(t, m, index);
              return Some(index);
            }
        }
        FindNext(t, cut, key, h, i);
        index := Next(index, n);
      }
      FindNone(t, hash, cut, key, h, m);
      return None;
    }

    /** hashmap_base_get */
    method Get(key: K) returns (r: Option<V>)
      requires Valid()
      ensures r == if key in m then Some(m[key]) else None
    {
      var e := Find(key, false);
      if e.None? { return None; }
      return Some(table[e.value].data);
    }

    /** Fill the slot that Find returned for a new key. */
    method Store(slot: nat, key: K, data: V)
      requires Good() && key !in m && slot < table.Length && FirstFree(table[..], hash, cut, key, slot)
      modifies this`m, this`cut, table
      ensures Good() && m == old(m)[key := data]
    {
      ghost var t := table[..];
      Insert(t, hash, cut, key, data, From(cut, slot, table.Length), m);
      table[slot] := Used(key, data);
      assert table[..] == t[slot := Used(key, data)];
      m := m[key := data];
      SizeBound(table[..], m, -1);
      hide Probing, Represents;
      if |m| < table.Length {
        var i := HasFree(table[..], m);
        Recut(table[..], hash, cut, i);
        cut := i;
      }
    }

    /** hashmap_rehash: all entries move to a table of n slots; allocOk is false when it cannot be
        allocated. */
    method Rehash(n: nat, allocOk: bool) returns (ok: bool)
      requires Valid() && n >= size && n > 0 && PowerOf2(n)
      modifies this`table, this`m, this`cut
      ensures Valid() && m == old(m) && ok == allocOk
      ensures if ok then fresh(table) && table.Length == n else table == old(table)
    {
      if !allocOk { return false; }
      hide Probing, Represents, PowerOf2;
      var oldTable := table;
      ghost var m0 := m;
      table := new Slot<K, V>[n](_ => Free);
      m := map[];
      cut := 0;
      EmptyTable(table[..], hash, 0);
      Refill(oldTable, m0);
      return true;
    }

    /** Copy the entries of the old table into the empty new one. */
    method Refill(oldTable: array<Slot<K, V>>, ghost m0: map<K, V>)
      requires Good() && m == map[] && table != oldTable && Represents(oldTable[..], m0) && |m0| <= table.Length
      modifies this`m, this`cut, table
      ensures Good() && m == m0
    {
      hide Probing, Represents, Restrict, Good;
      ghost var t0 := oldTable[..];
      RestrictAll(t0, m0);
      for i := 0 to oldTable.Length
        invariant Good() && oldTable[..] == t0 && m == Restrict(t0, i, m0)
      {
        RestrictNext(t0, i, m0);
        if oldTable[i].Used? { Move(oldTable[i].key, oldTable[i].data); }
      }
    }

    /** Copy an entry into the new table. */
    method Move(key: K, data: V)
      requires Good() && key !in m && |m| < table.Length
      modifies this`m, this`cut, table
      ensures Good() && m == old(m)[key := data]
    {
      hide Probing, Represents, FirstFree;
      var slot := Find(key, true);
      Store(slot.value, key, data);
    }

    /** hashmap_base_put. With memory available it succeeds unless the key exists. */
    method Put(key: K, data: V, allocOk: bool) returns (r: Code)
      requires Valid()
      modifies this`table, this`m, this`cut, this`size, table
      ensures Valid() && tableSizeInit == old(tableSizeInit)
      ensures r == Ok ==> key !in old(m) && m == old(m)[key := data]
      ensures r != Ok ==> m == old(m)
      ensures r == Exists <==> key in old(m)
      ensures r != NoSlot && (r == NoMemory ==> !allocOk && size == table.Length)
      ensures allocOk ==> size < table.Length
    {
      hide Probing, Represents, FirstFree, PowerOf2;
      var tableSize := CalcTableSize(tableSizeInit, size);
      var ok := true;
      if tableSize > table.Length { ok := Rehash(tableSize, allocOk); }
      var slot := Find(key, true);
      match slot {
        case None => return if !ok then NoMemory else NoSlot;
        case Some(i) =>
          if table[i].Used? { return Exists; }
          Store(i, key, data);
          size := size + 1;
          return Ok;
      }
    }

    /** The state of a removal after i rounds: index is examined next, slot removed is to be
        refilled, p is where the removal started. */
    ghost predicate InRemoval(r0: int, ho: int, i: int, rest: map<K, V>, seen: set<K>, index: int, removed: int, p: int,
                              e: int, t0: seq<Slot<K, V>>)
      reads this`table, this`cut, table
    {
      var n := table.Length;
      && 0 <= i <= |rest| < n && 0 <= index < n && 0 <= removed < n && 0 <= p < n && 0 <= r0 < n
      && RemoveLoop(table[..], hash, cut, r0, ho, i, rest, seen)
      && index == To(cut, Wrap(r0 + 1 + i, n), n) && removed == To(cut, ho, n)
      && index == Wrap(p + 1 + i, n) && removed == Wrap(p + e, n) && 0 <= e <= i
      && Kept(t0, p, table[..], removed)
    }

    method RemoveStep(index: nat, removed: nat, ghost r0: int, ghost ho: int, ghost i: int, ghost rest: map<K, V>,
                      ghost seen: set<K>,
                      ghost p: int, ghost e: int, ghost t0: seq<Slot<K, V>>)
      returns (index': nat, removed': nat, ghost ho': int, ghost seen': set<K>, ghost e': int)
      requires InRemoval(r0, ho, i, rest, seen, index, removed, p, e, t0) && i < |rest| && table[index].Used?
      modifies table
      ensures InRemoval(r0, ho', i + 1, rest, seen', index', removed', p, e', t0)
    {
      hide RemoveLoop, Kept, To, From, Next, Index, Ahead;
      var n := table.Length;
      ghost var t := table[..];
      LoopNext(cut, r0, i, n);
      NextWrap(p + 1 + i, n);
      ho', seen', e', removed' := ho, seen, e, removed;
      if r0 + 1 + i < n {
        ho', seen' := LoopStep(t, hash, cut, r0, ho, i, rest, seen);
      } else {
        LoopWrapped(t, hash, cut, r0, ho, i, rest, seen);
      }
      var entryIndex := Index(hash, table[index].key, n);
      if Ahead(index, entryIndex, n) > Ahead(removed, entryIndex, n) {
        KeptShift(t0, p, t, removed, index);
        table[removed] := table[index];
        assert table[..] == t[removed := t[index]];
        removed', e' := index, i + 1;
      }
      index' := Next(index, n);
    }

    /** hashmap_entry_remove: the entries that were looked up across the slot move back. */
    method EntryRemove(p: nat)
      requires Valid() && p < table.Length && table[p].Used?
      modifies this`m, this`cut, this`size, table
      ensures Valid() && old(table[p].key) in old(m) && m == old(m) - {old(table[p].key)}
      ensures KeysFrom(old(table[..]), p + 1) <= KeysFrom(table[..], p)
    {
      hide Probing, Represents, Kept, RemoveLoop, To, From, Next, Index, Ahead;
      var n := table.Length;
      ghost var t0, key := table[..], table[p].key;
      ghost var r0 := From(cut, p, n);
      ghost var ho, seen: set<K>, rest := r0, {}, m - {key};
      RemoveBegin(t0, hash, cut, p, m);
      KeptStart(t0, p);
      size := size - 1;
      var removed := p;
      var index := Next(p, n);
      var i: nat := 0;
      ghost var e := 0;
      while i < size
        invariant i <= size == |rest| && table.Length == n && InRemoval(r0, ho, i, rest, seen, index, removed, p, e, t0)
      {
        if table[index].Free? { break; }
        index, removed, ho, seen, e := RemoveStep(index, removed, r0, ho, i, rest, seen, p, e, t0);
        i := i + 1;
      }
      LoopEnd(table[..], hash, cut, r0, ho, i, rest, seen);
      KeptFree(t0, p, table[..], removed);
      Vacate(removed, rest);
      KeptKeys(t0, p, table[..], removed);
    }

    /** The hole becomes free, and the map what is left. */
    method Vacate(removed: nat, ghost rest: map<K, V>)
      requires removed < table.Length && PowerOf2(table.Length) && size == |rest| < table.Length
      requires SIZE_MIN <= tableSizeInit && PowerOf2(tableSizeInit)
      requires var t := table[..][removed := Free]; Probing(t, hash, cut) && Represents(t, rest)
      modifies this`m, this`cut, table
      ensures Valid() && m == rest && table[..] == old(table[..])[removed := Free]
    {
      hide Probing, Represents;
      ghost var t := table[..];
      table[removed] := Free;
      assert table[..] == t[removed := Free];
      m := rest;
      Recut(table[..], hash, cut, removed);
      cut := removed;
    }

    /** hashmap_base_remove */
    method Remove(key: K) returns (r: Option<V>)
      requires Valid()
      modifies this`m, this`cut, this`size, table
      ensures Valid() && r == (if key in old(m) then Some(old(m)[key]) else None) && m == old(m) - {key}
    {
      hide Probing, Represents, FirstFree, PowerOf2;
      var e := Find(key, false);
      if e.None? { return None; }
      r := Some(table[e.value].data);
      EntryRemove(e.value);
    }

    /** hashmap_base_reserve */
    method Reserve(capacity: nat, allocOk: bool) returns (ok: bool)
      requires Valid()
      modifies this`table, this`m, this`cut, this`tableSizeInit
      ensures Valid() && m == old(m) && (allocOk ==> ok)
      ensures ok ==> tableSizeInit == CalcTableSize(SIZE_MIN, capacity) && tableSizeInit <= table.Length
      ensures !ok ==> tableSizeInit == old(tableSizeInit) && table == old(table)
    {
      var was := tableSizeInit;
      PowerValues();
      hide Probing, Represents, PowerOf2;
      tableSizeInit := CalcTableSize(SIZE_MIN, capacity);
      ok := true;
      if tableSizeInit > table.Length {
        ok := Rehash(tableSizeInit, allocOk);
        if !ok { tableSizeInit := was; }
      }
    }

    /** hashmap_base_clear */
    method Clear()
      requires Valid()
      modifies this`m, this`size, table
      ensures Valid() && m == map[] && size == 0
    {
      size := 0;
      m := map[];
      forall i | 0 <= i < table.Length { table[i] := Free; }
      EmptyTable(table[..], hash, cut);
    }

    /** hashmap_base_reset */
    method Reset(allocOk: bool)
      requires Valid()
      modifies this`m, this`size, this`table, this`cut, table
      ensures Valid() && m == map[] && size == 0 && (allocOk ==> table.Length == tableSizeInit)
    {
      size := 0;
      m := map[];
      if table.Length != tableSizeInit && allocOk {
        table := new Slot<K, V>[tableSizeInit](_ => Free);
      }
      cut := 0;
      forall i | 0 <= i < table.Length { table[i] := Free; }
      EmptyTable(table[..], hash, 0);
    }

    // ---- iteration

    /** hashmap_entry_get_populated: the first entry from slot pos on. */
    method Populated(pos: nat) returns (r: Option<nat>)
      requires Valid()
      ensures match r
        case Some(i) => pos <= i < table.Length && table[i].Used? && forall j | pos <= j < i :: table[j].Free?
        case None => forall j | pos <= j < table.Length :: table[j].Free?
    {
      if size == 0 {
        NoEntries(table[..], m);
        return None;
      }
      var i := pos;
      while i < table.Length
        invariant pos <= i && forall j | pos <= j < i && j < table.Length :: table[j].Free?
      {
        if table[i].Used? { return Some(i); }
        i := i + 1;
      }
      return None;
    }

    /** hashmap_base_iter_remove: remove the entry at the iterator, and go on at the same slot. */
    method IterRemove(p: nat) returns (r: Option<nat>)
      requires Valid() && p < table.Length && table[p].Used?
      modifies this`m, this`cut, this`size, table
      ensures Valid() && m == old(m) - {old(table[p].key)}
      ensures r.Some? ==> p <= r.value < table.Length && table[r.value].Used?
      ensures KeysFrom(old(table[..]), p + 1) <= if r.Some? then KeysFrom(table[..], r.value) else {}
    {
      hide Probing, Represents;
      EntryRemove(p);
      r := Populated(p);
      KeysSkip(table[..], p, if r.Some? then r.value else table.Length);
    }

    /** The documented loop over all entries: hashmap_iter, then hashmap_iter_remove or
        hashmap_iter_next. It misses no entry: exactly the entries to keep remain. */
    method Retain(keep: K -> bool)
      requires Valid()
      modifies this`m, this`cut, this`size, table
      ensures Valid() && m == map k | k in old(m) && keep(k) :: old(m)[k]
    {
      hide Probing, Represents, PowerOf2, Pending, KeysFrom;
      ghost var m0 := m;
      var it := Populated(0);
      KeysSkip(table[..], 0, if it.Some? then it.value else table.Length);
      AllKeys(table[..], m);
      PendingStart(m, keep);
      while it.Some?
        invariant Valid() && table == old(table) && (it.Some? ==> 0 <= it.value < table.Length && table[it.value].Used?)
        invariant Pending(m0, m, keep, if it.Some? then KeysFrom(table[..], it.value) else {})
        decreases size, if it.Some? then table.Length - it.value else 0
      {
        it := Visit(it.value, m0, keep);
      }
      PendingEnd(m0, m, keep);
    }

    /** One round of the loop. */
    method Visit(p: nat, ghost m0: map<K, V>, keep: K -> bool) returns (it: Option<nat>)
      requires Valid() && p < table.Length && table[p].Used? && Pending(m0, m, keep, KeysFrom(table[..], p))
      modifies this`m, this`cut, this`size, table
      ensures Valid() && (it.Some? ==> it.value < table.Length && table[it.value].Used?)
      ensures Pending(m0, m, keep, if it.Some? then KeysFrom(table[..], it.value) else {})
      ensures size < old(size) || (size == old(size) && (it.Some? ==> it.value > p))
    {
      hide Probing, Represents, PowerOf2, Pending, KeysFrom;
      var key := table[p].key;
      KeysSkip(table[..], p, p);
      FindHit(table[..], m, p);
      if keep(key) {
        PendingKeep(m0, m, keep, KeysFrom(table[..], p + 1), key);
        it := Populated(p + 1);
        KeysSkip(table[..], p + 1, if it.Some? then it.value else table.Length);
      } else {
        ghost var rest, before := KeysFrom(table[..], p + 1), m;
        Smaller(m, key);
        it := IterRemove(p);
        PendingRemove(m0, before, keep, rest, key, if it.Some? then KeysFrom(table[..], it.value) else {});
      }
    }
  }

  /** m is m0 without some entries that are not to be kept; the others of these are in rest. */
  ghost predicate Pending<K(!new), V>(m0: map<K, V>, m: map<K, V>, keep: K -> bool, rest: set<K>) {
    && (forall k | k in m :: k in m0 && m[k] == m0[k] && (keep(k) || k in rest))
    && (forall k | k in m0 && keep(k) :: k in m)
  }

  lemma PendingStart<K(!new), V>(m: map<K, V>, keep: K -> bool)
    ensures Pending(m, m, keep, m.Keys)
  {
  }

  lemma PendingKeep<K(!new), V>(m0: map<K, V>, m: map<K, V>, keep: K -> bool, rest: set<K>, key: K)
    requires Pending(m0, m, keep, rest + {key}) && keep(key)
    ensures Pending(m0, m, keep, rest)
  {
  }

  lemma PendingRemove<K(!new), V>(m0: map<K, V>, m: map<K, V>, keep: K -> bool, rest: set<K>, key: K, rest': set<K>)
    requires Pending(m0, m, keep, rest + {key}) && !keep(key) && rest <= rest'
    ensures Pending(m0, m - {key}, keep, rest')
  {
  }

  lemma PendingEnd<K(!new), V>(m0: map<K, V>, m: map<K, V>, keep: K -> bool)
    requires Pending(m0, m, keep, {})
    ensures m == map k | k in m0 && keep(k) :: m0[k]
  {
  }

  lemma PowerValues()
    ensures PowerOf2(SIZE_DEFAULT) && PowerOf2(SIZE_MIN)
  {
    assert PowerOf2(1) && PowerOf2(2) && PowerOf2(4) && PowerOf2(8) && PowerOf2(16) && PowerOf2(32) && PowerOf2(64);
  }

  /** The i slots from position h on hold other keys. */
  ghost predicate Missed<K, V>(t: seq<Slot<K, V>>, c: int, key: K, h: int, i: int) {
    |t| > 0 && forall x | h <= x < h + i :: t[To(c, Wrap(x, |t|), |t|)].Used? && t[To(c, Wrap(x, |t|), |t|)].key != key
  }

  /** The slot is the first free one from the home of the key on. */
  ghost predicate FirstFree<K, V>(t: seq<Slot<K, V>>, hash: K -> nat, c: int, key: K, slot: int) {
    && 0 <= slot < |t| && t[slot].Free?
    && var (h, x) := (Home(t, hash, c, key), From(c, slot, |t|));
      && To(c, x, |t|) == slot && h <= x
      && forall y | h <= y < x :: t[To(c, y, |t|)].Used?
  }

  lemma NoSlots<K, V>(t: seq<Slot<K, V>>, m: map<K, V>)
    requires Represents(t, m) && t == []
    ensures forall k :: k !in m
  {
    forall k ensures k !in m { assert k in m ==> Present(t, k); }
  }

  lemma NoEntries<K, V>(t: seq<Slot<K, V>>, m: map<K, V>)
    requires Represents(t, m) && |m| == 0
    ensures forall i | 0 <= i < |t| :: t[i].Free?
  {
    assert m == map[];
  }

  lemma AllKeys<K, V>(t: seq<Slot<K, V>>, m: map<K, V>)
    requires Represents(t, m)
    ensures KeysFrom(t, 0) == m.Keys
  {
    forall k | k in m ensures k in KeysFrom(t, 0) { assert Present(t, k); }
  }

  lemma FindStart<K(!new), V>(t: seq<Slot<K, V>>, hash: K -> nat, c: int, key: K, h: int)
    requires Probing(t, hash, c) && h == Home(t, hash, c, key)
    ensures 0 <= h < |t| && 0 <= c < |t|
    ensures Index(hash, key, |t|) == To(c, Wrap(h + 0, |t|), |t|) && Missed(t, c, key, h, 0)
  {
    ToFrom(c, Index(hash, key, |t|), |t|);
  }

  lemma FindHit<K, V>(t: seq<Slot<K, V>>, m: map<K, V>, i: int)
    requires Represents(t, m) && 0 <= i < |t| && t[i].Used?
    ensures t[i].key in m && t[i] == Used(t[i].key, m[t[i].key])
  {
  }

  lemma FindNext<K, V>(t: seq<Slot<K, V>>, c: int, key: K, h: int, i: int)
    requires Missed(t, c, key, h, i) && 0 <= h < |t| && 0 <= i < |t|
    requires var s := t[To(c, Wrap(h + i, |t|), |t|)]; s.Used? && s.key != key
    ensures Missed(t, c, key, h, i + 1)
    ensures Next(To(c, Wrap(h + i, |t|), |t|), |t|) == To(c, Wrap(h + i + 1, |t|), |t|)
  {
    NextPosition(c, Wrap(h + i, |t|), |t|);
    ToCycle(c, |t|);
  }

  /** Probing for a key has come to a free slot: the key is absent, and the slot is the first
      free one on its path. */
  lemma FindFree<K(!new), V>(t: seq<Slot<K, V>>, hash: K -> nat, c: int, key: K, h: int, i: int, m: map<K, V>)
    requires Probing(t, hash, c) && Represents(t, m) && h == Home(t, hash, c, key) && 0 <= i < |t|
        && Missed(t, c, key, h, i)
    requires t[To(c, Wrap(h + i, |t|), |t|)].Free? && (|m| < |t| ==> t[c].Free?)
    ensures key !in m && FirstFree(t, hash, c, key, To(c, Wrap(h + i, |t|), |t|))
  {
    var slot := To(c, Wrap(h + i, |t|), |t|);
    var last := |t| - 1;
    assert h <= last < h + i ==> t[To(c, Wrap(last, |t|), |t|)].Used?;
    CutLast(t, c, m, slot);
    FromTo(c, h + i, |t|);
    forall y | h <= y < h + i ensures t[To(c, y, |t|)].Used? && t[To(c, y, |t|)].key != key {
      assert t[To(c, Wrap(y, |t|), |t|)].key != key;
    }
    Absent(t, hash, c, key, h + i);
    assert !Present(t, key);
  }

  /** The cut is the last position, and free if any slot is. */
  lemma CutLast<K, V>(t: seq<Slot<K, V>>, c: int, m: map<K, V>, free: int)
    requires Represents(t, m) && 0 <= c < |t| && 0 <= free < |t| && t[free].Free? && (|m| < |t| ==> t[c].Free?)
    ensures t[To(c, |t| - 1, |t|)].Free?
  {
    ModUnique(c + 1 + (|t| - 1), |t|, 1, c);
    SizeBound(t, m, free);
  }

  /** Probing for a key has visited every slot. */
  lemma FindNone<K(!new), V>(t: seq<Slot<K, V>>, hash: K -> nat, c: int, key: K, h: int, m: map<K, V>)
    requires Probing(t, hash, c) && Represents(t, m) && h == Home(t, hash, c, key) && Missed(t, c, key, h, |t|)
    ensures key !in m && |m| == |t|
  {
    forall y | 0 <= y < |t| ensures t[To(c, y, |t|)].Used? && t[To(c, y, |t|)].key != key {
      var x := if y < h then y + |t| else y;
      assert t[To(c, Wrap(x, |t|), |t|)].key != key;
    }
    Absent(t, hash, c, key, |t|);
    forall i | 0 <= i < |t| ensures t[i].Used? { ToFrom(c, i, |t|); }
    AllUsed(t, m);
  }
}
