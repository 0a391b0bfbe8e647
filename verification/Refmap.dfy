/** The reference map of the buffer cloner: open addressing with linear probing, resized by inserting
    everything anew. It behaves like a plain map, whatever the hash. */
module Refmap {
  import opened Bytes

  const MIN_BUCKETS := 8
  const LOAD_N := 179              // 0.7f * 256.0f, truncated
  const LOAD_D := 256
  const NOT_FOUND: int := 0

  /** A source address and the reference made from it; address 0 marks an empty slot. */
  datatype Item = Item(src: nat, ref: int)

  type Table = seq<Item>

  predicate AboveLoadFactor(count: nat, buckets: nat) {
    count >= buckets * LOAD_N / LOAD_D
  }

  /** A table is full enough when one more item would take it past 179 parts in 256: the 8 built-in buckets
      hold five. */
  lemma LoadFactor(count: nat, buckets: nat)
    ensures AboveLoadFactor(count, buckets) <==> 256 * (count + 1) > 179 * buckets
    ensures AboveLoadFactor(count, 8) <==> count >= 5
  {
    var q := buckets * LOAD_N / LOAD_D;
    assert buckets * LOAD_N == q * LOAD_D + buckets * LOAD_N % LOAD_D;
  }

  /** Slot number i of the probe sequence that starts at hash k. The source masks with a power of two
      less one. */
  function Probe(k: nat, i: nat, buckets: nat): (j: nat)
    requires buckets >= 1
    ensures j < buckets
  {
    (k + i) % buckets
  }

  /** How far along its probe sequence slot j comes. */
  function Distance(k: nat, j: nat, buckets: nat): (i: nat)
    requires buckets >= 1
    ensures i < buckets
  {
    (j - k) % buckets
  }

  lemma ProbeReaches(k: nat, j: nat, buckets: nat)
    requires j < buckets
    ensures Probe(k, Distance(k, j, buckets), buckets) == j
  {
    var q := (j - k) / buckets;
    assert k + Distance(k, j, buckets) == j + -q * buckets;
    ModUnique(k + Distance(k, j, buckets), -q, j, buckets);
  }

  lemma DistanceOf(k: nat, i: nat, buckets: nat)
    requires i < buckets
    ensures Distance(k, Probe(k, i, buckets), buckets) == i
  {
    var q := (k + i) / buckets;
    assert Probe(k, i, buckets) - k == i + -q * buckets;
    ModUnique(Probe(k, i, buckets) - k, -q, i, buckets);
  }

  // ---- tables that represent a map ---------------------------------------------------------------

  /** A stored item lies behind nothing but occupied slots of its probe sequence. */
  ghost predicate Placed(t: Table, hash: nat -> nat, j: nat) {
    j < |t| && (t[j].src != 0 ==>
        forall i: nat | i < Distance(hash(t[j].src), j, |t|) :: t[Probe(hash(t[j].src), i, |t|)].src != 0)
  }

  ghost predicate Unique(t: Table) {
    forall i, j | 0 <= i < j < |t| && t[i].src != 0 :: t[i].src != t[j].src
  }

  ghost predicate Represents(t: Table, m: map<nat, int>) {
    && (forall j | 0 <= j < |t| && t[j].src != 0 :: t[j].src in m && m[t[j].src] == t[j].ref)
    && (forall s | s in m :: s != 0 && exists j :: 0 <= j < |t| && t[j].src == s)
  }

  ghost predicate WellPlaced(t: Table, hash: nat -> nat, m: map<nat, int>) {
    Unique(t) && Represents(t, m) && forall j | 0 <= j < |t| :: Placed(t, hash, j)
  }

  function Occupied(t: Table): (n: nat)
    ensures n <= |t|
  {
    if t == [] then 0 else Occupied(t[..|t| - 1]) + if t[|t| - 1].src != 0 then 1 else 0
  }

  lemma {:induction false} SomeEmpty(t: Table) returns (j: nat)
    requires Occupied(t) < |t|
    ensures j < |t| && t[j].src == 0
  {
    if t[|t| - 1].src == 0 { j := |t| - 1; } else { j := SomeEmpty(t[..|t| - 1]); }
  }

  lemma {:induction false} OccupiedUpdate(t: Table, j: nat, item: Item)
    requires j < |t| && item.src != 0
    ensures Occupied(t[j := item]) == Occupied(t) + if t[j].src == 0 then 1 else 0
  {
    var n := |t| - 1;
    if j < n {
      OccupiedUpdate(t[..n], j, item);
      assert t[j := item][..n] == t[..n][j := item];
    } else {
      assert t[j := item][..n] == t[..n];
    }
  }

  lemma {:induction false} OccupiedPrefix(t: Table, i: nat)
    requires i <= |t|
    ensures Occupied(t[..i]) <= Occupied(t)
    decreases |t|
  {
    if i < |t| {
      OccupiedPrefix(t[..|t| - 1], i);
      assert t[..|t| - 1][..i] == t[..i];
    } else {
      assert t[..i] == t;
    }
  }

  lemma EmptyTable(t: Table, hash: nat -> nat)
    requires forall j | 0 <= j < |t| :: t[j].src == 0
    ensures WellPlaced(t, hash, map[]) && Occupied(t) == 0
  {
    if t != [] { EmptyTable(t[..|t| - 1], hash); }
  }

  /** An empty slot met before the key: the key is nowhere. */
  lemma NotStored(t: Table, hash: nat -> nat, m: map<nat, int>, src: nat, i: nat)
    requires WellPlaced(t, hash, m) && src != 0 && i < |t|
    requires forall i': nat | i' < i :: t[Probe(hash(src), i', |t|)].src != src
    requires t[Probe(hash(src), i, |t|)].src == 0
    ensures src !in m
  {
    if src in m {
      var j :| 0 <= j < |t| && t[j].src == src;
      assert Placed(t, hash, j);
      ProbeReaches(hash(src), j, |t|);
    }
  }

  lemma AddedItem(t: Table, hash: nat -> nat, m: map<nat, int>, src: nat, ref: int, i: nat)
    requires WellPlaced(t, hash, m) && src != 0 && i < |t| && src !in m
    requires forall i': nat | i' < i :: t[Probe(hash(src), i', |t|)].src != 0
    requires t[Probe(hash(src), i, |t|)].src == 0
    ensures WellPlaced(t[Probe(hash(src), i, |t|) := Item(src, ref)], hash, m[src := ref])
  {
    var j := Probe(hash(src), i, |t|);
    var t', m' := t[j := Item(src, ref)], m[src := ref];
    DistanceOf(hash(src), i, |t|);
    forall x | 0 <= x < |t'| ensures Placed(t', hash, x) {
      assert Placed(t, hash, x);
    }
    forall s | s in m' ensures s != 0 && exists x :: 0 <= x < |t'| && t'[x].src == s {
      if s == src {
        assert t'[j].src == s;
      } else {
        var x :| 0 <= x < |t| && t[x].src == s;
        assert t'[x].src == s;
      }
    }
  }

  lemma ChangedItem(t: Table, hash: nat -> nat, m: map<nat, int>, j: nat, ref: int)
    requires WellPlaced(t, hash, m) && j < |t| && t[j].src != 0
    ensures WellPlaced(t[j := Item(t[j].src, ref)], hash, m[t[j].src := ref]) && t[j].src in m
  {
    var t', m' := t[j := Item(t[j].src, ref)], m[t[j].src := ref];
    forall x | 0 <= x < |t'| ensures Placed(t', hash, x) { assert Placed(t, hash, x); }
    forall s | s in m' ensures s != 0 && exists x :: 0 <= x < |t'| && t'[x].src == s {
      var x :| 0 <= x < |t| && t[x].src == s;
      assert t'[x].src == s;
    }
  }

  /** The map of the first items of a table. */
  function Collect(t: Table): map<nat, int> {
    if t == [] then map[] else
    var n := |t| - 1;
    if t[n].src == 0 then Collect(t[..n]) else Collect(t[..n])[t[n].src := t[n].ref]
  }

  lemma {:induction false} CollectKeys(t: Table, s: nat)
    requires Unique(t)
    ensures s in Collect(t) <==> s != 0 && exists j :: 0 <= j < |t| && t[j].src == s
    ensures forall j | 0 <= j < |t| && t[j].src != 0 && t[j].src == s :: s in Collect(t) && Collect(t)[s] == t[j].ref
  {
    if t != [] {
      var n := |t| - 1;
      CollectKeys(t[..n], s);
      if s != 0 && s in Collect(t[..n]) {
        var j :| 0 <= j < n && t[..n][j].src == s;
        assert t[j].src == s;
      }
      if s == t[n].src { assert t[n].src == s; }
    }
  }

  lemma CollectAll(t: Table, hash: nat -> nat, m: map<nat, int>)
    requires WellPlaced(t, hash, m)
    ensures Collect(t) == m
  {
    forall s ensures (s in Collect(t) <==> s in m) && (s in m ==> Collect(t)[s] == m[s]) { CollectKeys(t, s); }
  }

  lemma LoadBound(count: nat, buckets: nat)
    requires !AboveLoadFactor(count, buckets)
    ensures count + 1 <= buckets * LOAD_N / LOAD_D < buckets
  {}

  lemma LoadMonotone(count: nat, more: nat, buckets: nat)
    requires count <= more && !AboveLoadFactor(more, buckets)
    ensures !AboveLoadFactor(count, buckets)
  {}

  /** Doubling from the minimum ends: enough buckets are never above the load factor. */
  lemma LoadReached(count: nat, buckets: nat)
    requires AboveLoadFactor(count, buckets)
    ensures buckets < 2 * (count + 1)
  {}

  /** The buckets of a table fit for so many items: the minimum, doubled no more often than it takes. */
  ghost predicate Fitting(fit: nat, n: nat) {
    n >= MIN_BUCKETS && IsPow2(n) && !AboveLoadFactor(fit, n) && (n == MIN_BUCKETS || AboveLoadFactor(fit, n / 2))
  }

  lemma MinimumPow2()
    ensures IsPow2(MIN_BUCKETS)
  {
    assert IsPow2(4) by { assert IsPow2(2); }
  }

  lemma Doubled(n: nat)
    requires IsPow2(n) && n >= 1
    ensures IsPow2(n * 2) && n * 2 / 2 == n
  {}

  method FitBuckets(fit: nat) returns (n: nat)
    ensures Fitting(fit, n)
  {
    hide AboveLoadFactor, IsPow2;
    n := MIN_BUCKETS;
    MinimumPow2();
    while AboveLoadFactor(fit, n)
      invariant n >= MIN_BUCKETS && IsPow2(n) && (n == MIN_BUCKETS || AboveLoadFactor(fit, n / 2))
      decreases 4 * (fit + 1) - n
    {
      LoadReached(fit, n);
      Doubled(n);
      n := n * 2;
    }
  }

  class Refmap {
    var table: Table
    var count: nat
    var buckets: nat
    const hash: nat -> nat

    /** The plain map. */
    ghost var m: map<nat, int>
    /** How often memory was asked for and not had. */
    ghost var refusals: nat

    /** No table yet, or one with an empty slot somewhere, so that every probe ends. */
    ghost predicate Valid() reads this {
      && buckets == |table| && count == Occupied(table) && WellPlaced(table, hash, m)
      && (buckets == 0 || (buckets >= MIN_BUCKETS && IsPow2(buckets) && count <= buckets * LOAD_N / LOAD_D))
    }

    constructor (hash: nat -> nat)
      ensures Valid() && m == map[] && buckets == 0
    {
      table, count, buckets := [], 0, 0;
      this.hash, m, refusals := hash, map[], 0;
      new;
      EmptyTable(table, hash);
    }

    /** Empties the map; the buckets stay. */
    method Reset()
      requires Valid()
      modifies this
      ensures Valid() && m == map[] && buckets == old(buckets) && refusals == old(refusals)
    {
      if count != 0 {
        table := seq(buckets, i => Item(0, 0));
      } else {
        NoneOccupied(table);
      }
      count := 0;
      m := map[];
      EmptyTable(table, hash);
    }

    /** The last reference inserted for src, or 0. */
    method Find(src: nat) returns (ref: int)
      requires Valid()
      ensures ref == if src in m then m[src] else NOT_FOUND
    {
      if count == 0 {
        NoneOccupied(table);
        return NOT_FOUND;
      }
      var i, j := Search(src);
      if src == 0 { return NOT_FOUND; }
      ref := if table[j].src != 0 then table[j].ref else NOT_FOUND;
    }

    /** Probes for src: stops at its slot, or at the first empty one. */
    method Search(src: nat) returns (i: nat, j: nat)
      requires Valid() && Occupied(table) < |table|
      ensures i < |table| && j == Probe(hash(src), i, |table|)
      ensures forall i': nat | i' < i ::
          table[Probe(hash(src), i', |table|)].src != 0 && table[Probe(hash(src), i', |table|)].src != src
      ensures table[j].src == 0 || table[j].src == src
      ensures src != 0 && table[j].src == 0 ==> src !in m
      ensures src != 0 && table[j].src != 0 ==> src in m && m[src] == table[j].ref
    {
      hide Occupied, AboveLoadFactor, Probe, Distance, WellPlaced;
      ghost var gap := SomeEmpty(table);
      ghost var last := Distance(hash(src), gap, |table|);
      ProbeReaches(hash(src), gap, |table|);
      var k := hash(src);
      i := 0;
      j := Probe(k, i, buckets);
      while table[j].src != 0
        invariant i <= last && j == Probe(k, i, |table|)
        invariant forall i': nat | i' < i ::
            table[Probe(k, i', |table|)].src != 0 && table[Probe(k, i', |table|)].src != src
        decreases last - i
      {
        if table[j].src == src { break; }
        i := i + 1;
        j := Probe(k, i, buckets);
      }
      if src != 0 {
        if table[j].src == 0 { NotStored(table, hash, m, src, i); } else { Stored(table, hash, m, j); }
      }
    }

    /** Sets the reference of src. Only refused memory makes it fail, leaving the map alone; the first table
        is built in and never refused. */
    method Insert(src: nat, ref: int) returns (r: int)
      requires Valid()
      modifies this
      ensures Valid() && old(refusals) <= refusals <= old(refusals) + 1
      ensures src == 0 ==> r == ref && m == old(m) && refusals == old(refusals)
      ensures src != 0 ==>
                if refusals == old(refusals) then r == ref && m == old(m)[src := ref]
                else r == NOT_FOUND && m == old(m)
      ensures refusals > old(refusals) ==> AboveLoadFactor(old(count), old(buckets)) && old(buckets) > 0
      ensures !AboveLoadFactor(old(count), old(buckets)) ==> buckets == old(buckets)
      ensures src != 0 && AboveLoadFactor(old(count), old(buckets)) && refusals == old(refusals) ==>
                Fitting(2 * old(count), buckets)
      ensures !AboveLoadFactor(old(count), old(buckets)) && src != 0 ==>
          count == old(count) + if src in old(m) then 0 else 1
      decreases if AboveLoadFactor(count, buckets) then 2 else 0, 0
    {
      hide WellPlaced, Probe, IsPow2;
      if src == 0 { return ref; }
      if AboveLoadFactor(count, buckets) {
        if buckets == 0 { NoItems(table); }
        var failed, n := Resize(count * 2);
        if old(buckets) == 0 { FirstFits(n); }
        if failed { return NOT_FOUND; }
      }
      LoadBound(count, buckets);
      var i, j := Search(src);
      OccupiedUpdate(table, j, Item(src, ref));
      if table[j].src != 0 {
        ChangedItem(table, hash, m, j, ref);
      } else {
        AddedItem(table, hash, m, src, ref, i);
        count := count + 1;
      }
      table := table[j := Item(src, ref)];
      m := m[src := ref];
      return ref;
    }

    /** Memory for a new table may not be had. */
    method Alloc() returns (ok: bool)
      modifies `refusals
      ensures refusals == old(refusals) + if ok then 0 else 1
    {
      ok := *;
      if !ok { refusals := refusals + 1; }
    }

    /** Moves everything to a table fit for `wanted` items, larger or smaller: the map stays the same, and so
        does everything else when the memory for it is refused. No memory is asked for when the table fits
        already or the built-in one does. None of the inserts it makes resizes again. */
    method Resize(wanted: nat) returns (failed: bool, ghost n: nat)
      requires Valid()
      modifies this
      ensures Valid() && m == old(m) && Fitting(if wanted < old(count) then old(count) else wanted, n)
      ensures refusals == old(refusals) + if failed then 1 else 0
      ensures if failed then table == old(table) && count == old(count) && buckets == old(buckets)
              else buckets == n && count == old(count)
      ensures n == MIN_BUCKETS || n == old(buckets) ==> !failed
      ensures !failed ==> !AboveLoadFactor(count, buckets) && !AboveLoadFactor(wanted, buckets)
      decreases 1, 1
    {
      hide WellPlaced, Unique, Occupied, Collect;
      var fit := if wanted < count then count else wanted;
      var size := FitBuckets(fit);
      n := size;
      LoadMonotone(count, fit, size);
      LoadMonotone(wanted, fit, size);
      if buckets == size { return false, n; }
      if size != MIN_BUCKETS {
        var ok := Alloc();
        if !ok { return true, n; }
      }
      ghost var m0 := m;
      var items := table;
      UniqueOf(items, hash, m0);
      table := seq(size, i => Item(0, 0));
      buckets, count, m := size, 0, map[];
      EmptyTable(table, hash);
      Rehash(items, fit);
      CollectAll(items, hash, m0);
      return false, n;
    }

    method Rehash(items: Table, ghost fit: nat)
      requires Valid() && m == map[] && count == 0 && !AboveLoadFactor(fit, buckets) && Occupied(items) <= fit
      requires Unique(items)
      modifies this
      ensures Valid() && m == Collect(items) && buckets == old(buckets) && count == Occupied(items)
          && refusals == old(refusals)
      decreases 1, 0
    {
      hide WellPlaced, Unique, AboveLoadFactor;
      var i := 0;
      assert items[..0] == [];
      while i < |items|
        invariant 0 <= i <= |items| && Valid() && buckets == old(buckets) && !AboveLoadFactor(fit, buckets)
            && refusals == old(refusals)
        invariant m == Collect(items[..i]) && count == Occupied(items[..i])
      {
        assert items[..i + 1][..i] == items[..i];
        OccupiedPrefix(items, i + 1);
        if items[i].src != 0 {
          UniquePrefix(items, i);
          LoadMonotone(count, fit, buckets);
          var r := Insert(items[i].src, items[i].ref);
        }
        i := i + 1;
      }
      assert items[..i] == items;
    }
  }

  lemma NoItems(t: Table)
    requires |t| == 0
    ensures Occupied(t) == 0
  {}

  lemma FirstFits(n: nat)
    requires Fitting(0, n)
    ensures n == MIN_BUCKETS
  {}

  lemma {:induction false} NoneOccupied(t: Table)
    requires Occupied(t) == 0
    ensures forall j | 0 <= j < |t| :: t[j].src == 0
  {
    if t != [] { NoneOccupied(t[..|t| - 1]); }
  }

  lemma Stored(t: Table, hash: nat -> nat, m: map<nat, int>, j: nat)
    requires WellPlaced(t, hash, m) && j < |t| && t[j].src != 0
    ensures t[j].src in m && m[t[j].src] == t[j].ref
  {}

  lemma UniqueOf(t: Table, hash: nat -> nat, m: map<nat, int>)
    requires WellPlaced(t, hash, m)
    ensures Unique(t)
  {}

  /** The next item of a table is not among those before it. */
  lemma UniquePrefix(t: Table, i: nat)
    requires Unique(t) && i < |t| && t[i].src != 0
    ensures t[i].src !in Collect(t[..i])
  {
    CollectKeys(t[..i], t[i].src);
  }
}
