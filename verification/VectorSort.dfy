/** Sorting and searching vectors in place. The sort is a heap sort whose zero-based heap gives node i
    the children 2i and 2i + 1, so that the root is its own left child. Offset vectors hold offsets
    relative to each element: swapping two elements rewrites both offsets, and what is sorted is what
    they lead to. */
module VectorSort {
  import opened Bytes
  import opened Options

  /** How two keys compare: negative, zero or positive. */
  type Cmp<!K> = (K, K) -> int

  ghost predicate TotalOrder<K(!new)>(cmp: Cmp<K>) {
    && (forall x, y :: cmp(x, y) < 0 <==> cmp(y, x) > 0)
    && (forall x, y, z :: cmp(x, y) <= 0 && cmp(y, z) <= 0 ==> cmp(x, z) <= 0)
  }

  /** The same on the keys in ks alone. */
  ghost predicate TotalOn<K(!new)>(cmp: Cmp<K>, ks: iset<K>) {
    && (forall x, y | x in ks && y in ks :: cmp(x, y) < 0 <==> cmp(y, x) > 0)
    && (forall x, y, z | x in ks && y in ks && z in ks :: cmp(x, y) <= 0 && cmp(y, z) <= 0 ==> cmp(x, z) <= 0)
  }

  ghost predicate IsKey<K(!new)>(e: seq<int>, key: int -> K, k: K) {
    exists i :: 0 <= i < |e| && key(e[i]) == k
  }

  ghost function KeysOf<K(!new)>(e: seq<int>, key: int -> K): iset<K> {
    iset k | IsKey(e, key, k)
  }

  ghost predicate KeysIn<K(!new)>(e: seq<int>, key: int -> K, ks: iset<K>) {
    forall i | 0 <= i < |e| :: key(e[i]) in ks
  }

  lemma KeysThere<K(!new)>(e: seq<int>, key: int -> K)
    ensures KeysIn(e, key, KeysOf(e, key))
  {
    forall i | 0 <= i < |e| ensures key(e[i]) in KeysOf(e, key) {
      assert IsKey(e, key, key(e[i]));
    }
  }

  lemma OrderOnAny<K(!new)>(cmp: Cmp<K>, ks: iset<K>)
    requires TotalOrder(cmp)
    ensures TotalOn(cmp, ks)
  {}

  /** All the sort needs of a comparison to come to an end. */
  ghost predicate Irreflexive<K(!new)>(cmp: Cmp<K>) {
    forall x :: cmp(x, x) >= 0
  }

  lemma OrderIsIrreflexive<K(!new)>(cmp: Cmp<K>)
    requires TotalOrder(cmp)
    ensures Irreflexive(cmp)
  {}

  /** A floating-point key: a number, or not one. */
  datatype FloatKey = NaN | Number(value: real)

  /** The comparison of scalars: less, greater, or neither, as a NaN is to everything. */
  function FloatCmp(x: FloatKey, y: FloatKey): int {
    if x.NaN? || y.NaN? then 0 else if x.value < y.value then -1 else if x.value > y.value then 1 else 0
  }

  /** With a NaN among them floats are in no total order, though each is equal to itself. */
  lemma FloatsWithNaN()
    ensures Irreflexive(FloatCmp) && !TotalOrder(FloatCmp)
  {
    assert FloatCmp(Number(2.0), NaN) <= 0 && FloatCmp(NaN, Number(1.0)) <= 0 && FloatCmp(Number(2.0), Number(1.0)) > 0;
  }

  /** They are in order exactly when there is no NaN among them, or nothing but NaNs and one number. */
  lemma FloatsExactly(ks: iset<FloatKey>)
    ensures TotalOn(FloatCmp, ks)
       <==> NaN !in ks || forall x, y | x in ks && y in ks && x.Number? && y.Number? :: x == y
  {
    if NaN in ks && TotalOn(FloatCmp, ks) {
      forall x, y | x in ks && y in ks && x.Number? && y.Number? ensures x == y {
        assert FloatCmp(x, NaN) == 0 && FloatCmp(NaN, y) == 0 && FloatCmp(y, NaN) == 0 && FloatCmp(NaN, x) == 0;
      }
    }
  }

  /** The smaller number comes first; a NaN compares equal to everything. */
  lemma FloatMeans(x: FloatKey, y: FloatKey)
    ensures FloatCmp(x, y) < 0 <==> x.Number? && y.Number? && x.value < y.value
    ensures FloatCmp(x, y) == 0 <==> x.NaN? || y.NaN? || x.value == y.value
  {}

  /** What element i stands for: itself, or the position an offset at it leads to. */
  function Elem(x: int, i: nat, relative: bool): int {
    if relative then Wrap32(4 * i + x) else x
  }

  function Elems(vec: seq<int>, relative: bool): (e: seq<int>)
    ensures |e| == |vec|
  {
    seq(|vec|, i requires 0 <= i < |vec| => Elem(vec[i], i, relative))
  }

  ghost predicate Uoffsets(vec: seq<int>, relative: bool) {
    relative ==> forall i | 0 <= i < |vec| :: 0 <= vec[i] < TWO_32
  }

  function Swapped<T>(e: seq<T>, a: nat, b: nat): (r: seq<T>)
    requires a < |e| && b < |e|
    ensures |r| == |e|
  {
    e[a := e[b]][b := e[a]]
  }

  lemma SwappedBag<T>(e: seq<T>, a: nat, b: nat)
    requires a < |e| && b < |e|
    ensures multiset(Swapped(e, a, b)) == multiset(e)
  {}

  lemma WrapInside(p: int, q: int)
    ensures Wrap32(p + Wrap32(q)) == Wrap32(p + q) && Wrap32(p - Wrap32(q)) == Wrap32(p - q)
  {
    var k := q / TWO_32;
    ModOfSum(p + q, -k, TWO_32);
    ModOfSum(p - q, k, TWO_32);
  }

  /** Moving an offset by some elements and correcting it by their size leads to the same place. */
  lemma Relocated(x: int, a: nat, b: nat)
    ensures Wrap32(4 * a + Wrap32(x - Wrap32(4 * (a - b)))) == Wrap32(4 * b + x)
    ensures Wrap32(4 * b + Wrap32(x + Wrap32(4 * (a - b)))) == Wrap32(4 * a + x)
  {
    hide Wrap32;
    var d := Wrap32(4 * (a - b));
    WrapInside(4 * a, x - d);
    WrapInside(4 * a + x, 4 * (a - b));
    WrapInside(4 * b, x + d);
    WrapInside(4 * b + x, 4 * (a - b));
  }

  lemma OffsetsSwapped(vec: seq<int>, a: nat, b: nat)
    requires a < |vec| && b < |vec|
    ensures var d := Wrap32(4 * (a - b));
            Elems(vec[a := Wrap32(vec[b] - d)][b := Wrap32(vec[a] + d)], true) == Swapped(Elems(vec, true), a, b)
  {
    hide Wrap32;
    Relocated(vec[b], a, b);
    Relocated(vec[a], a, b);
    if a == b {
      WrapInside(4 * a, vec[a] + Wrap32(4 * (a - b)));
      WrapInside(4 * a + vec[a], 4 * (a - b));
    }
  }

  lemma ValuesSwapped(vec: seq<int>, a: nat, b: nat)
    requires a < |vec| && b < |vec|
    ensures Elems(vec[b := vec[a]][a := vec[b]], false) == Swapped(Elems(vec, false), a, b)
  {}

  /** Exchanges two elements: their values, or what their offsets lead to. */
  method Swap(vec: array<int>, a: nat, b: nat, relative: bool)
    requires a < vec.Length && b < vec.Length && Uoffsets(vec[..], relative)
    modifies vec
    ensures Uoffsets(vec[..], relative)
    ensures Elems(vec[..], relative) == Swapped(old(Elems(vec[..], relative)), a, b)
  {
    hide Wrap32, Elem;
    if relative {
      var d := Wrap32(4 * (a - b));
      var ta := Wrap32(vec[b] - d);
      var tb := Wrap32(vec[a] + d);
      OffsetsSwapped(vec[..], a, b);
      vec[a] := ta;
      vec[b] := tb;
    } else {
      ValuesSwapped(vec[..], a, b);
      var x := vec[b];
      vec[b] := vec[a];
      vec[a] := x;
    }
  }

  // ---- the heap ----------------------------------------------------------------------------------

  /** Element i of e does not exceed its parent. */
  ghost predicate Below<K(!new)>(e: seq<int>, key: int -> K, cmp: Cmp<K>, i: nat) {
    i < |e| && cmp(key(e[i]), key(e[i / 2])) <= 0
  }

  /** Among the first `end + 1` elements, every one whose parent is not before `lo` is below it; except,
      possibly, the children of `hole`. */
  ghost predicate HeapExcept<K(!new)>(e: seq<int>, key: int -> K, cmp: Cmp<K>, lo: nat, end: nat, hole: int) {
    forall i: nat | 1 <= i <= end && lo <= i / 2 && i / 2 != hole :: Below(e, key, cmp, i)
  }

  ghost predicate Heap<K(!new)>(e: seq<int>, key: int -> K, cmp: Cmp<K>, lo: nat, end: nat) {
    HeapExcept(e, key, cmp, lo, end, -1)
  }

  /** The children of the hole are below the hole's parent. */
  ghost predicate Bridged<K(!new)>(e: seq<int>, key: int -> K, cmp: Cmp<K>, end: nat, hole: nat) {
    hole < |e| && forall c: nat | 1 <= c <= end && c / 2 == hole && c < |e| :: cmp(key(e[c]), key(e[hole / 2])) <= 0
  }

  lemma Sunk<K(!new)>(e: seq<int>, key: int -> K, cmp: Cmp<K>, ks: iset<K>, lo: nat, end: nat, root: nat, child: nat)
    requires TotalOn(cmp, ks) && KeysIn(e, key, ks) && end < |e| && lo <= root < child <= end && child / 2 == root
    requires HeapExcept(e, key, cmp, lo, end, root) && (root > lo ==> Bridged(e, key, cmp, end, root))
    requires cmp(key(e[root]), key(e[child])) < 0
    requires forall c: nat | 1 <= c <= end && c / 2 == root :: cmp(key(e[c]), key(e[child])) <= 0
    ensures var e' := Swapped(e, root, child);
            HeapExcept(e', key, cmp, lo, end, child) && Bridged(e', key, cmp, end, child)
  {
    hide TotalOn;
    Compared(cmp, ks, key(e[root]), key(e[child]), key(e[root]));
    var e' := Swapped(e, root, child);
    forall i: nat | 1 <= i <= end && lo <= i / 2 && i / 2 != child ensures Below(e', key, cmp, i) {
      if i / 2 == root {
      } else {
        assert Below(e, key, cmp, i);
      }
    }
    forall c: nat | 1 <= c <= end && c / 2 == child ensures cmp(key(e'[c]), key(e'[child / 2])) <= 0 {
      assert Below(e, key, cmp, c);
    }
  }

  lemma Settled<K(!new)>(e: seq<int>, key: int -> K, cmp: Cmp<K>, lo: nat, end: nat, root: nat)
    requires end < |e| && HeapExcept(e, key, cmp, lo, end, root)
    requires forall c: nat | 1 <= c <= end && c / 2 == root :: cmp(key(e[c]), key(e[root])) <= 0
    ensures Heap(e, key, cmp, lo, end)
  {}

  /** The root of a heap is a maximum. */
  lemma {:induction false} RootIsMax<K(!new)>(e: seq<int>, key: int -> K, cmp: Cmp<K>, ks: iset<K>, end: nat, i: nat)
    requires TotalOn(cmp, ks) && KeysIn(e, key, ks) && end < |e| && Heap(e, key, cmp, 0, end) && i <= end
    ensures cmp(key(e[i]), key(e[0])) <= 0
    decreases i
  {
    hide TotalOn;
    if i == 0 {
      Compared(cmp, ks, key(e[0]), key(e[0]), key(e[0]));
    } else {
      assert Below(e, key, cmp, i);
      RootIsMax(e, key, cmp, ks, end, i / 2);
      Compared(cmp, ks, key(e[i]), key(e[i / 2]), key(e[0]));
    }
  }

  /** The outcome of reordering the first `end + 1` elements. */
  ghost predicate Reordered(e: seq<int>, e': seq<int>, end: nat) {
    && |e'| == |e| && end < |e| && e'[end + 1..] == e[end + 1..]
    && multiset(e'[..end + 1]) == multiset(e[..end + 1])
  }

  lemma ReorderedSwap(e: seq<int>, e': seq<int>, end: nat, a: nat, b: nat)
    requires Reordered(e, e', end) && a <= end && b <= end
    ensures Reordered(e, Swapped(e', a, b), end)
  {
    var s := Swapped(e', a, b);
    assert s[..end + 1] == Swapped(e'[..end + 1], a, b);
    SwappedBag(e'[..end + 1], a, b);
    assert s[end + 1..] == e'[end + 1..];
  }

  /** Sinks the element at `start` among the first `end + 1`: all below it are heap-ordered before, and
      it with them afterwards. Without a total order the elements are still only reordered. */
  method SiftDown<K(!new)>(vec: array<int>, start: nat, end: nat, relative: bool, key: int -> K, cmp: Cmp<K>,
      ghost ks: iset<K>)
    requires Irreflexive(cmp) && end < vec.Length && Uoffsets(vec[..], relative)
    requires KeysIn(Elems(vec[..], relative), key, ks)
    requires TotalOn(cmp, ks) ==> Heap(Elems(vec[..], relative), key, cmp, start + 1, end)
    modifies vec
    ensures Uoffsets(vec[..], relative) && KeysIn(Elems(vec[..], relative), key, ks)
    ensures TotalOn(cmp, ks) ==> Heap(Elems(vec[..], relative), key, cmp, start, end)
    ensures Reordered(old(Elems(vec[..], relative)), Elems(vec[..], relative), end)
  {
    hide TotalOn, KeysIn, Elem, Uoffsets, HeapExcept, Bridged, Below, Reordered;
    ghost var e0 := Elems(vec[..], relative);
    ghost var e := e0;
    var root := start;
    if TotalOn(cmp, ks) { HoleAtStart(e, key, cmp, start, end); }
    Unchanged(e, end);
    while 2 * root <= end
      invariant start <= root && e == Elems(vec[..], relative) && Uoffsets(vec[..], relative) && KeysIn(e, key, ks)
      invariant TotalOn(cmp, ks) ==>
                  HeapExcept(e, key, cmp, start, end, root) && (root > start ==> Bridged(e, key, cmp, end, root))
      invariant Reordered(e0, e, end)
      decreases end - root
    {
      var child := 2 * root;
      if child < end {
        var v1 := key(Elem(vec[child], child, relative));
        var v2 := key(Elem(vec[child + 1], child + 1, relative));
        if cmp(v1, v2) < 0 {
          child := child + 1;
        }
      }
      if TotalOn(cmp, ks) { BestChild(e, key, cmp, ks, end, root, child); }
      if cmp(key(Elem(vec[root], root, relative)), key(Elem(vec[child], child, relative))) < 0 {
        assert root < child;
        if TotalOn(cmp, ks) { Sunk(e, key, cmp, ks, start, end, root, child); }
        ReorderedSwap(e0, e, end, root, child);
        KeysSwapped(e, key, ks, root, child);
        Swap(vec, root, child, relative);
        e := Swapped(e, root, child);
        root := child;
      } else {
        if TotalOn(cmp, ks) {
          ChildrenBelow(e, key, cmp, ks, end, root, child);
          Settled(e, key, cmp, start, end, root);
        }
        return;
      }
    }
    if TotalOn(cmp, ks) { Settled(e, key, cmp, start, end, root); }
  }

  lemma HoleAtStart<K(!new)>(e: seq<int>, key: int -> K, cmp: Cmp<K>, start: nat, end: nat)
    requires Heap(e, key, cmp, start + 1, end)
    ensures HeapExcept(e, key, cmp, start, end, start)
  {}

  lemma KeysSwapped<K(!new)>(e: seq<int>, key: int -> K, ks: iset<K>, a: nat, b: nat)
    requires KeysIn(e, key, ks) && a < |e| && b < |e|
    ensures KeysIn(Swapped(e, a, b), key, ks)
  {}

  lemma Unchanged(e: seq<int>, end: nat)
    requires end < |e|
    ensures Reordered(e, e, end)
  {}

  /** The child picked is no smaller than the other; the root of the heap, which is its own left child,
      picks itself or node 1. */
  lemma BestChild<K(!new)>(e: seq<int>, key: int -> K, cmp: Cmp<K>, ks: iset<K>, end: nat, root: nat, child: nat)
    requires TotalOn(cmp, ks) && KeysIn(e, key, ks) && end < |e| && 2 * root <= end
    requires child == if 2 * root < end && cmp(key(e[2 * root]), key(e[2 * root + 1])) < 0 then 2 * root + 1
                      else 2 * root
    ensures forall c: nat | 1 <= c <= end && c / 2 == root :: cmp(key(e[c]), key(e[child])) <= 0
    ensures cmp(key(e[root]), key(e[child])) < 0 ==> root < child <= end && child / 2 == root
  {
    hide TotalOn;
    Compared(cmp, ks, key(e[2 * root]), key(e[2 * root]), key(e[2 * root]));
    if 2 * root < end {
      Compared(cmp, ks, key(e[2 * root]), key(e[2 * root + 1]), key(e[2 * root]));
      Compared(cmp, ks, key(e[2 * root + 1]), key(e[2 * root]), key(e[2 * root]));
      Compared(cmp, ks, key(e[2 * root + 1]), key(e[2 * root + 1]), key(e[2 * root]));
    }
    forall c: nat | 1 <= c <= end && c / 2 == root ensures cmp(key(e[c]), key(e[child])) <= 0 {
      assert c == 2 * root || c == 2 * root + 1;
    }
  }

  lemma ChildrenBelow<K(!new)>(e: seq<int>, key: int -> K, cmp: Cmp<K>, ks: iset<K>, end: nat, root: nat, child: nat)
    requires TotalOn(cmp, ks) && KeysIn(e, key, ks) && end < |e| && root < |e| && child < |e|
    requires cmp(key(e[root]), key(e[child])) >= 0
    requires forall c: nat | 1 <= c <= end && c / 2 == root :: cmp(key(e[c]), key(e[child])) <= 0
    ensures forall c: nat | 1 <= c <= end && c / 2 == root :: cmp(key(e[c]), key(e[root])) <= 0
  {
    hide TotalOn;
    Compared(cmp, ks, key(e[root]), key(e[child]), key(e[root]));
    Compared(cmp, ks, key(e[child]), key(e[root]), key(e[root]));
    forall c: nat | 1 <= c <= end && c / 2 == root ensures cmp(key(e[c]), key(e[root])) <= 0 {
      Compared(cmp, ks, key(e[c]), key(e[child]), key(e[root]));
    }
  }

  // ---- the sort ----------------------------------------------------------------------------------

  ghost predicate SortedFrom<K(!new)>(e: seq<int>, key: int -> K, cmp: Cmp<K>, lo: nat) {
    forall i, j | lo <= i < j < |e| :: cmp(key(e[i]), key(e[j])) <= 0
  }

  /** Everything before `mid` is at most everything from there on. */
  ghost predicate Split<K(!new)>(e: seq<int>, key: int -> K, cmp: Cmp<K>, mid: nat) {
    forall i, j | 0 <= i < mid <= j < |e| :: cmp(key(e[i]), key(e[j])) <= 0
  }

  lemma SplitReordered<K(!new)>(e: seq<int>, e': seq<int>, key: int -> K, cmp: Cmp<K>, end: nat)
    requires Split(e, key, cmp, end + 1) && SortedFrom(e, key, cmp, end + 1) && Reordered(e, e', end)
    ensures Split(e', key, cmp, end + 1) && SortedFrom(e', key, cmp, end + 1)
  {
    assert forall j | end < j < |e| :: e'[j] == e'[end + 1..][j - (end + 1)] == e[end + 1..][j - (end + 1)] == e[j];
    forall i, j | 0 <= i < end + 1 <= j < |e'| ensures cmp(key(e'[i]), key(e'[j])) <= 0 {
      var x := e'[i];
      assert x == e'[..end + 1][i] && x in multiset(e'[..end + 1]);
      assert x in e[..end + 1];
      var k :| 0 <= k < end + 1 && e[..end + 1][k] == x;
      assert e[k] == x;
    }
  }

  /** The maximum moved to the end of the heap joins the sorted part. */
  lemma MaxMoved<K(!new)>(e: seq<int>, key: int -> K, cmp: Cmp<K>, ks: iset<K>, end: nat)
    requires TotalOn(cmp, ks) && KeysIn(e, key, ks) && 0 < end < |e| && Heap(e, key, cmp, 0, end)
    requires Split(e, key, cmp, end + 1) && SortedFrom(e, key, cmp, end + 1)
    ensures var e' := Swapped(e, 0, end);
            Split(e', key, cmp, end) && SortedFrom(e', key, cmp, end) && Heap(e', key, cmp, 1, end - 1)
  {
    hide TotalOn;
    var e' := Swapped(e, 0, end);
    forall i: nat | i <= end ensures cmp(key(e[i]), key(e[0])) <= 0 { RootIsMax(e, key, cmp, ks, end, i); }
    forall i: nat | 1 <= i <= end - 1 && 1 <= i / 2 ensures Below(e', key, cmp, i) { assert Below(e, key, cmp, i); }
  }

  lemma SameBag(e: seq<int>, e': seq<int>, end: nat)
    requires Reordered(e, e', end)
    ensures multiset(e') == multiset(e)
  {
    assert e == e[..end + 1] + e[end + 1..] && e' == e'[..end + 1] + e'[end + 1..];
  }

  lemma NoNodes<K(!new)>(e: seq<int>, key: int -> K, cmp: Cmp<K>, lo: nat, end: nat)
    requires 2 * lo > end
    ensures Heap(e, key, cmp, lo, end)
  {}

  /** Sorts by key; for offset vectors, what the offsets lead to. By whatever comparison, nothing is lost
      and nothing invented; by an order that is total on the keys there are the result is sorted. */
  method HeapSort<K(!new, ==)>(vec: array<int>, relative: bool, key: int -> K, cmp: Cmp<K>)
    requires Irreflexive(cmp) && Uoffsets(vec[..], relative)
    modifies vec
    ensures Uoffsets(vec[..], relative)
    ensures TotalOn(cmp, KeysOf(old(Elems(vec[..], relative)), key)) ==>
              SortedFrom(Elems(vec[..], relative), key, cmp, 0)
    ensures multiset(Elems(vec[..], relative)) == multiset(old(Elems(vec[..], relative)))
  {
    hide TotalOn, KeysIn, KeysOf, Elem, Uoffsets, HeapExcept, Reordered, SortedFrom, Split;
    ghost var ks := KeysOf(Elems(vec[..], relative), key);
    KeysThere(Elems(vec[..], relative), key);
    var size := vec.Length;
    if size == 0 {
      SortedNone(Elems(vec[..], relative), key, cmp);
      return;
    }
    var end := size - 1;
    Heapify(vec, relative, key, cmp, ks);
    ghost var e := Elems(vec[..], relative);
    SortedLast(e, key, cmp);
    while end > 0
      invariant 0 <= end < vec.Length && e == Elems(vec[..], relative) && Uoffsets(vec[..], relative)
      invariant KeysIn(e, key, ks)
      invariant TotalOn(cmp, ks) ==>
                  Heap(e, key, cmp, 0, end) && Split(e, key, cmp, end + 1) && SortedFrom(e, key, cmp, end + 1)
      invariant multiset(e) == multiset(old(Elems(vec[..], relative)))
    {
      end := end - 1;
      SortStep(vec, end, relative, key, cmp, ks);
      e := Elems(vec[..], relative);
    }
    if TotalOn(cmp, ks) { SortedWhole(e, key, cmp); }
  }

  /** The maximum of the heap moves behind what is left of it. */
  method SortStep<K(!new)>(vec: array<int>, end: nat, relative: bool, key: int -> K, cmp: Cmp<K>, ghost ks: iset<K>)
    requires Irreflexive(cmp) && Uoffsets(vec[..], relative) && end + 1 < vec.Length
    requires KeysIn(Elems(vec[..], relative), key, ks)
    requires var e := Elems(vec[..], relative);
             TotalOn(cmp, ks) ==>
               Heap(e, key, cmp, 0, end + 1) && Split(e, key, cmp, end + 2) && SortedFrom(e, key, cmp, end + 2)
    modifies vec
    ensures Uoffsets(vec[..], relative) && KeysIn(Elems(vec[..], relative), key, ks)
    ensures var e := Elems(vec[..], relative);
            && (TotalOn(cmp, ks) ==>
                  Heap(e, key, cmp, 0, end) && Split(e, key, cmp, end + 1) && SortedFrom(e, key, cmp, end + 1))
            && multiset(e) == multiset(old(Elems(vec[..], relative)))
  {
    hide TotalOn, KeysIn, Elem, Uoffsets, HeapExcept, Reordered, SortedFrom, Split, Elems, Swapped;
    ghost var e := Elems(vec[..], relative);
    ghost var e' := Swapped(e, 0, end + 1);
    if TotalOn(cmp, ks) { MaxMoved(e, key, cmp, ks, end + 1); }
    SwappedBag(e, 0, end + 1);
    KeysSwapped(e, key, ks, 0, end + 1);
    Swap(vec, 0, end + 1, relative);
    SiftDown(vec, 0, end, relative, key, cmp, ks);
    if TotalOn(cmp, ks) { SplitReordered(e', Elems(vec[..], relative), key, cmp, end); }
    SameBag(e', Elems(vec[..], relative), end);
  }

  method Heapify<K(!new)>(vec: array<int>, relative: bool, key: int -> K, cmp: Cmp<K>, ghost ks: iset<K>)
    requires Irreflexive(cmp) && Uoffsets(vec[..], relative) && vec.Length > 0
    requires KeysIn(Elems(vec[..], relative), key, ks)
    modifies vec
    ensures Uoffsets(vec[..], relative) && KeysIn(Elems(vec[..], relative), key, ks)
    ensures TotalOn(cmp, ks) ==> Heap(Elems(vec[..], relative), key, cmp, 0, vec.Length - 1)
    ensures multiset(Elems(vec[..], relative)) == multiset(old(Elems(vec[..], relative)))
  {
    hide TotalOn, KeysIn, Elem, Uoffsets, HeapExcept, Reordered;
    var end := vec.Length - 1;
    var start := vec.Length / 2;
    NoNodes(Elems(vec[..], relative), key, cmp, start + 1, end);
    while true
      invariant 0 <= start && Uoffsets(vec[..], relative) && KeysIn(Elems(vec[..], relative), key, ks)
      invariant TotalOn(cmp, ks) ==> Heap(Elems(vec[..], relative), key, cmp, start + 1, end)
      invariant multiset(Elems(vec[..], relative)) == multiset(old(Elems(vec[..], relative)))
      decreases start
    {
      ghost var e := Elems(vec[..], relative);
      SiftDown(vec, start, end, relative, key, cmp, ks);
      SameBag(e, Elems(vec[..], relative), end);
      if start == 0 { break; }
      start := start - 1;
    }
  }

  lemma SortedNone<K(!new)>(e: seq<int>, key: int -> K, cmp: Cmp<K>)
    requires |e| == 0
    ensures SortedFrom(e, key, cmp, 0)
  {}

  lemma SortedLast<K(!new)>(e: seq<int>, key: int -> K, cmp: Cmp<K>)
    ensures SortedFrom(e, key, cmp, |e|) && Split(e, key, cmp, |e|)
  {}

  lemma SortedWhole<K(!new)>(e: seq<int>, key: int -> K, cmp: Cmp<K>)
    requires Split(e, key, cmp, 1) && SortedFrom(e, key, cmp, 1)
    ensures SortedFrom(e, key, cmp, 0)
  {}

  // ---- searching ---------------------------------------------------------------------------------

  /** r is the lowest index in a range whose key compares equal to k; None is the source's not_found. */
  ghost predicate IsLowest<K(!new)>(e: seq<int>, begin: nat, end: nat, key: int -> K, cmp: Cmp<K>, k: K, r: Option<nat>)
    requires end <= |e|
  {
    match r
    case Some(n) => begin <= n < end && cmp(key(e[n]), k) == 0 && forall i | begin <= i < n :: cmp(key(e[i]), k) != 0
    case None => forall i | begin <= i < end :: cmp(key(e[i]), k) != 0
  }

  method Scan<K(!new)>(e: seq<int>, begin: nat, end: nat, key: int -> K, cmp: Cmp<K>, k: K) returns (r: Option<nat>)
    requires end <= |e|
    ensures IsLowest(e, begin, end, key, cmp, k, r)
  {
    var i := begin;
    while i < end
      invariant begin <= i && forall j | begin <= j < i && j < end :: cmp(key(e[j]), k) != 0
    {
      if cmp(key(e[i]), k) == 0 { return Some(i); }
      i := i + 1;
    }
    return None;
  }

  /** The highest index in a range whose key compares equal. */
  method ScanBack<K(!new)>(e: seq<int>, begin: nat, end: nat, key: int -> K, cmp: Cmp<K>, k: K) returns (r: Option<nat>)
    requires end <= |e|
    ensures r.Some? ==> begin <= r.value < end && cmp(key(e[r.value]), k) == 0
    ensures r.Some? ==> forall i | r.value < i < end :: cmp(key(e[i]), k) != 0
    ensures r.None? ==> forall i | begin <= i < end :: cmp(key(e[i]), k) != 0
  {
    var i := end;
    while i > begin
      invariant i <= end && forall j | i <= j < end && begin <= j :: cmp(key(e[j]), k) != 0
    {
      i := i - 1;
      if cmp(key(e[i]), k) == 0 { return Some(i); }
    }
    return None;
  }

  /** What is less than k comes first, then what compares equal to it, then what is greater. */
  ghost predicate Partitioned<K(!new)>(e: seq<int>, key: int -> K, cmp: Cmp<K>, k: K) {
    forall i, j | 0 <= i < j < |e| ::
      (cmp(key(e[j]), k) < 0 ==> cmp(key(e[i]), k) < 0) && (cmp(key(e[i]), k) > 0 ==> cmp(key(e[j]), k) > 0)
  }

  /** A sorted vector is so divided by every key its order ranks. */
  lemma SortedPartitions<K(!new)>(e: seq<int>, key: int -> K, cmp: Cmp<K>, k: K)
    requires TotalOn(cmp, KeysOf(e, key) + iset{k}) && SortedFrom(e, key, cmp, 0)
    ensures Partitioned(e, key, cmp, k)
  {
    hide TotalOn, KeysOf;
    var ks := KeysOf(e, key) + iset{k};
    KeysThere(e, key);
    forall i, j | 0 <= i < j < |e|
      ensures (cmp(key(e[j]), k) < 0 ==> cmp(key(e[i]), k) < 0) && (cmp(key(e[i]), k) > 0 ==> cmp(key(e[j]), k) > 0)
    {
      if cmp(key(e[j]), k) < 0 { LessThrough(cmp, ks, key(e[i]), key(e[j]), k); }
      if cmp(key(e[i]), k) > 0 { MoreThrough(cmp, ks, key(e[i]), key(e[j]), k); }
    }
  }

  /** Binary search: on a vector sorted by its key, the answer of the scan. */
  method Find<K(!new)>(e: seq<int>, key: int -> K, cmp: Cmp<K>, k: K) returns (r: Option<nat>)
    requires Partitioned(e, key, cmp, k)
    ensures IsLowest(e, 0, |e|, key, cmp, k, r)
  {
    var a, b := 0, |e|;
    if b == 0 { return None; }
    b := b - 1;
    while a < b
      invariant 0 <= a <= b < |e|
      invariant forall i | 0 <= i < a :: cmp(key(e[i]), k) < 0
      invariant b == |e| - 1 || cmp(key(e[b]), k) >= 0
      decreases b - a
    {
      var m := a + (b - a) / 2;
      if cmp(key(e[m]), k) < 0 {
        a := m + 1;
      } else {
        b := m;
      }
    }
    if a == b {
      if cmp(key(e[a]), k) == 0 { return Some(a); }
    }
    assert forall i | a < i < |e| :: cmp(key(e[i]), k) > 0;
    return None;
  }

  lemma Compared<K(!new)>(cmp: Cmp<K>, ks: iset<K>, x: K, y: K, z: K)
    requires TotalOn(cmp, ks) && x in ks && y in ks && z in ks
    ensures cmp(x, y) < 0 <==> cmp(y, x) > 0
    ensures cmp(x, y) <= 0 && cmp(y, z) <= 0 ==> cmp(x, z) <= 0
    ensures cmp(x, x) == 0
  {
    assert cmp(x, x) < 0 <==> cmp(x, x) > 0;
  }

  lemma LessThrough<K(!new)>(cmp: Cmp<K>, ks: iset<K>, x: K, y: K, z: K)
    requires TotalOn(cmp, ks) && x in ks && y in ks && z in ks && cmp(x, y) <= 0 && cmp(y, z) < 0
    ensures cmp(x, z) < 0
  {
    hide TotalOn;
    Compared(cmp, ks, x, z, x);
    Compared(cmp, ks, z, x, y);
    Compared(cmp, ks, y, z, y);
  }

  lemma MoreThrough<K(!new)>(cmp: Cmp<K>, ks: iset<K>, x: K, y: K, z: K)
    requires TotalOn(cmp, ks) && x in ks && y in ks && z in ks && cmp(x, y) <= 0 && cmp(x, z) > 0
    ensures cmp(y, z) > 0
  {
    hide TotalOn;
    Compared(cmp, ks, x, y, z);
  }

  // ---- the comparisons the source uses -------------------------------------------------------------

  function ScalarDiff(x: int, y: int): int { if x < y then -1 else if x > y then 1 else 0 }

  lemma ScalarOrder()
    ensures TotalOrder(ScalarDiff)
  {}

  /** The smaller number comes first. */
  lemma ScalarMeans(x: int, y: int)
    ensures ScalarDiff(x, y) < 0 <==> x < y
    ensures ScalarDiff(x, y) == 0 <==> x == y
  {}

  /** strncmp: stops at a difference, after n characters, or at a NUL in both. */
  function StrNCmp(a: seq<u8>, b: seq<u8>, n: nat): int
    requires n <= |a| && n <= |b|
    decreases n
  {
    if n == 0 then 0 else
    if a[0] != b[0] then (if a[0] < b[0] then -1 else 1) else
    if a[0] == 0 then 0 else StrNCmp(a[1..], b[1..], n - 1)
  }

  /** Characters first, then lengths; characters behind a NUL count for their number only. */
  function StringDiff(a: seq<u8>, b: seq<u8>): int {
    var x := StrNCmp(a, b, if |a| < |b| then |a| else |b|);
    if x != 0 then x else if |a| < |b| then -1 else if |a| > |b| then 1 else 0
  }

  /** a and b agree on d characters, none of them a NUL. */
  predicate Agree(a: seq<u8>, b: seq<u8>, d: nat) {
    d <= |a| && d <= |b| && a[..d] == b[..d] && 0 !in a[..d]
  }

  lemma AgreeTail(a: seq<u8>, b: seq<u8>, d: nat)
    requires a != [] && b != [] && a[0] == b[0] != 0
    ensures Agree(a, b, d + 1) <==> Agree(a[1..], b[1..], d)
  {
    if d <= |a[1..]| && d <= |b[1..]| {
      assert a[..d + 1] == [a[0]] + a[1..][..d] && b[..d + 1] == [b[0]] + b[1..][..d];
      assert a[1..][..d] == a[..d + 1][1..] && b[1..][..d] == b[..d + 1][1..];
    }
  }

  /** At the first difference before a NUL the smaller character comes first. */
  lemma {:induction false} StringDiffers(a: seq<u8>, b: seq<u8>, d: nat)
    requires Agree(a, b, d) && d < |a| && d < |b| && a[d] != b[d]
    ensures StringDiff(a, b) < 0 <==> a[d] < b[d]
    ensures StringDiff(a, b) != 0
    decreases d
  {
    if d > 0 {
      assert a[0] == a[..d][0] == b[..d][0] == b[0];
      AgreeTail(a, b, d - 1);
      StringDiffers(a[1..], b[1..], d - 1);
    }
  }

  /** Without one the shorter string comes first. */
  lemma {:induction false} StringLonger(a: seq<u8>, b: seq<u8>)
    requires forall d: nat | Agree(a, b, d) && d < |a| && d < |b| :: a[d] == b[d]
    ensures StringDiff(a, b) < 0 <==> |a| < |b|
    ensures StringDiff(a, b) == 0 <==> |a| == |b|
    decreases |a|
  {
    if a != [] && b != [] {
      assert Agree(a, b, 0);
      if a[0] != 0 {
        forall d: nat | Agree(a[1..], b[1..], d) && d < |a[1..]| && d < |b[1..]| ensures a[1..][d] == b[1..][d] {
          AgreeTail(a, b, d);
          assert Agree(a, b, d + 1);
        }
        StringLonger(a[1..], b[1..]);
      }
    }
  }

  lemma {:induction false} StringDiffSign(a: seq<u8>, b: seq<u8>)
    ensures StringDiff(a, b) < 0 <==> StringDiff(b, a) > 0
    decreases |a|
  {
    if a != [] && b != [] && a[0] == b[0] != 0 { StringDiffSign(a[1..], b[1..]); }
  }

  lemma {:induction false} StringDiffTrans(a: seq<u8>, b: seq<u8>, c: seq<u8>)
    requires StringDiff(a, b) <= 0 && StringDiff(b, c) <= 0
    ensures StringDiff(a, c) <= 0
    decreases |a|
  {
    if a != [] && b != [] && c != [] && a[0] == b[0] == c[0] != 0 { StringDiffTrans(a[1..], b[1..], c[1..]); }
  }

  /** The order strings are sorted by is total, embedded NULs included. */
  lemma StringOrder()
    ensures TotalOrder(StringDiff)
  {
    hide StringDiff;
    forall x, y ensures StringDiff(x, y) < 0 <==> StringDiff(y, x) > 0 { StringDiffSign(x, y); }
    forall x, y, z | StringDiff(x, y) <= 0 && StringDiff(y, z) <= 0
      ensures StringDiff(x, z) <= 0
    {
      StringDiffTrans(x, y, z);
    }
  }

  /** The character at the front; a NUL ends every string. */
  function First(a: seq<u8>): u8 { if a == [] then 0 else a[0] }

  /** strcmp: stops at a difference or at a NUL. */
  function StrCmp(a: seq<u8>, b: seq<u8>): int {
    if First(a) != First(b) then (if First(a) < First(b) then -1 else 1) else
    if First(a) == 0 then 0 else StrCmp(a[1..], b[1..])
  }

  /** The characters before the first NUL. */
  function CString(a: seq<u8>): (c: seq<u8>)
    ensures |c| <= |a|
  {
    if First(a) == 0 then [] else [a[0]] + CString(a[1..])
  }

  /** As C strings: the smaller character at the first difference comes first. */
  lemma {:induction false} StrCmpDiffers(a: seq<u8>, b: seq<u8>, d: nat)
    requires d < |CString(a)| && d < |CString(b)|
    requires CString(a)[..d] == CString(b)[..d] && CString(a)[d] != CString(b)[d]
    ensures StrCmp(a, b) < 0 <==> CString(a)[d] < CString(b)[d]
    ensures StrCmp(a, b) != 0
    decreases d
  {
    if d > 0 {
      assert CString(a)[0] == CString(a)[..d][0] == CString(b)[..d][0] == CString(b)[0];
      assert CString(a)[1..] == CString(a[1..]) && CString(b)[1..] == CString(b[1..]);
      assert CString(a)[1..][..d - 1] == CString(a)[..d][1..] && CString(b)[1..][..d - 1] == CString(b)[..d][1..];
      StrCmpDiffers(a[1..], b[1..], d - 1);
    }
  }

  /** When one is a beginning of the other, the shorter comes first. */
  lemma {:induction false} StrCmpLonger(a: seq<u8>, b: seq<u8>)
    requires CString(a) <= CString(b) || CString(b) <= CString(a)
    ensures StrCmp(a, b) < 0 <==> |CString(a)| < |CString(b)|
    ensures StrCmp(a, b) == 0 <==> CString(a) == CString(b)
    decreases |a|
  {
    if First(a) != 0 && First(b) != 0 {
      assert CString(a)[0] == a[0] && CString(b)[0] == b[0];
      assert CString(a)[1..] == CString(a[1..]) && CString(b)[1..] == CString(b[1..]);
      StrCmpLonger(a[1..], b[1..]);
    }
  }

  /** strcmp finds two strings equal exactly when they are as C strings. */
  lemma {:induction false} StrCmpEqual(a: seq<u8>, b: seq<u8>)
    ensures StrCmp(a, b) == 0 <==> CString(a) == CString(b)
    decreases |a|
  {
    if First(a) != 0 && First(b) != 0 {
      StrCmpEqual(a[1..], b[1..]);
      assert CString(a)[0] == a[0] && CString(b)[0] == b[0];
      assert CString(a)[1..] == CString(a[1..]) && CString(b)[1..] == CString(b[1..]);
    }
  }

  /** The length-aware comparison finds two strings equal when they are as long and equal as C strings:
      it does not look behind a NUL. */
  lemma {:induction false} StringDiffEqual(a: seq<u8>, b: seq<u8>)
    ensures StringDiff(a, b) == 0 <==> |a| == |b| && CString(a) == CString(b)
    decreases |a|
  {
    if First(a) != 0 && First(b) != 0 {
      StringDiffEqual(a[1..], b[1..]);
      assert CString(a)[0] == a[0] && CString(b)[0] == b[0];
      assert CString(a)[1..] == CString(a[1..]) && CString(b)[1..] == CString(b[1..]);
    }
  }

  lemma {:induction false} StrCmpSign(a: seq<u8>, b: seq<u8>)
    ensures StrCmp(a, b) < 0 <==> StrCmp(b, a) > 0
    decreases |a|
  {
    if First(a) == First(b) != 0 { StrCmpSign(a[1..], b[1..]); }
  }

  lemma {:induction false} StrCmpTrans(a: seq<u8>, b: seq<u8>, c: seq<u8>)
    requires StrCmp(a, b) <= 0 && StrCmp(b, c) <= 0
    ensures StrCmp(a, c) <= 0
    decreases |a|
  {
    if First(a) == First(b) == First(c) != 0 { StrCmpTrans(a[1..], b[1..], c[1..]); }
  }

  /** The order strings are found by, unless a length is given, is total as well. */
  lemma StrCmpOrder()
    ensures TotalOrder(StrCmp)
  {
    hide StrCmp;
    forall x, y ensures StrCmp(x, y) < 0 <==> StrCmp(y, x) > 0 { StrCmpSign(x, y); }
    forall x, y, z | StrCmp(x, y) <= 0 && StrCmp(y, z) <= 0 ensures StrCmp(x, z) <= 0 { StrCmpTrans(x, y, z); }
  }

  /** What sorting puts first does not come later for strcmp, which tells fewer strings apart. */
  lemma {:induction false} DiffThenCmp(a: seq<u8>, b: seq<u8>)
    ensures StringDiff(a, b) <= 0 ==> StrCmp(a, b) <= 0
    decreases |a|
  {
    if a != [] && b != [] && a[0] == b[0] != 0 { DiffThenCmp(a[1..], b[1..]); }
  }

  /** The two disagree on embedded NULs. */
  lemma OrdersDiffer()
    ensures StringDiff([97, 0, 98], [97]) > 0 && StrCmp([97, 0, 98], [97]) == 0
  {
    assert [97, 0, 98][1..] == [0, 98] && [97][1..] == [];
    assert StrNCmp([97, 0, 98], [97], 1) == StrNCmp([0, 98], [], 0) == 0;
    assert StrCmp([0, 98], []) == 0;
  }

  lemma SortedForStrCmp(e: seq<int>, key: int -> seq<u8>)
    requires SortedFrom(e, key, StringDiff, 0)
    ensures SortedFrom(e, key, StrCmp, 0)
  {
    hide StringDiff, StrCmp;
    forall i, j | 0 <= i < j < |e| ensures StrCmp(key(e[i]), key(e[j])) <= 0 { DiffThenCmp(key(e[i]), key(e[j])); }
  }

  // ---- finding in what was sorted ------------------------------------------------------------------

  /** The lowest matching index is one only, so that find and scan agree. */
  lemma LowestUnique<K(!new)>(e: seq<int>, begin: nat, end: nat, key: int -> K, cmp: Cmp<K>, k: K, r: Option<nat>,
      r': Option<nat>)
    requires end <= |e| && IsLowest(e, begin, end, key, cmp, k, r) && IsLowest(e, begin, end, key, cmp, k, r')
    ensures r == r'
  {}

  /** A reordered vector holds a match exactly when the vector did. */
  lemma FoundIfPresent<K(!new)>(e: seq<int>, sorted: seq<int>, key: int -> K, cmp: Cmp<K>, k: K, r: Option<nat>)
    requires multiset(sorted) == multiset(e) && IsLowest(sorted, 0, |sorted|, key, cmp, k, r)
    ensures r.Some? <==> exists i :: 0 <= i < |e| && cmp(key(e[i]), k) == 0
  {
    if r.Some? {
      assert sorted[r.value] in multiset(e);
      var i :| 0 <= i < |e| && e[i] == sorted[r.value];
    }
    forall i | 0 <= i < |e| && cmp(key(e[i]), k) == 0 ensures r.Some? {
      assert e[i] in multiset(sorted);
    }
  }

  // ---- sorting and finding by the keys there are ---------------------------------------------------

  /** Sorts by a scalar key, in ascending order. */
  method SortByScalar(vec: array<int>, relative: bool, key: int -> int)
    requires Uoffsets(vec[..], relative)
    modifies vec
    ensures Uoffsets(vec[..], relative)
    ensures Ascending(Elems(vec[..], relative), key)
    ensures multiset(Elems(vec[..], relative)) == multiset(old(Elems(vec[..], relative)))
  {
    ScalarOrder();
    OrderOnAny(ScalarDiff, KeysOf(Elems(vec[..], relative), key));
    HeapSort(vec, relative, key, ScalarDiff);
    AscendingSorted(Elems(vec[..], relative), key);
  }

  ghost predicate Ascending(e: seq<int>, key: int -> int) {
    forall i, j | 0 <= i < j < |e| :: key(e[i]) <= key(e[j])
  }

  lemma AscendingSorted(e: seq<int>, key: int -> int)
    ensures Ascending(e, key) <==> SortedFrom(e, key, ScalarDiff, 0)
  {}

  /** In a vector in ascending order: the lowest index at which the key is k, or none when there is none. */
  method FindByScalar(e: seq<int>, key: int -> int, k: int) returns (r: Option<nat>)
    requires Ascending(e, key)
    ensures r.Some? ==> r.value < |e| && key(e[r.value]) == k && forall i | 0 <= i < r.value :: key(e[i]) < k
    ensures r.None? ==> forall i | 0 <= i < |e| :: key(e[i]) != k
  {
    ScalarOrder();
    AscendingSorted(e, key);
    OrderOnAny(ScalarDiff, KeysOf(e, key) + iset{k});
    SortedPartitions(e, key, ScalarDiff, k);
    r := Find(e, key, ScalarDiff, k);
  }

  ghost predicate AllNumbers(e: seq<int>, key: int -> FloatKey) {
    forall i | 0 <= i < |e| :: key(e[i]).Number?
  }

  ghost predicate AscendingFloats(e: seq<int>, key: int -> FloatKey) {
    AllNumbers(e, key) && forall i, j | 0 <= i < j < |e| :: key(e[i]).value <= key(e[j]).value
  }

  /** Sorts by a floating-point key: with no NaN among the keys, in ascending order. */
  method SortByFloat(vec: array<int>, relative: bool, key: int -> FloatKey)
    requires Uoffsets(vec[..], relative)
    modifies vec
    ensures Uoffsets(vec[..], relative)
    ensures old(AllNumbers(Elems(vec[..], relative), key)) ==> AscendingFloats(Elems(vec[..], relative), key)
    ensures multiset(Elems(vec[..], relative)) == multiset(old(Elems(vec[..], relative)))
  {
    hide FloatCmp, Elem, SortedFrom, KeysOf, TotalOn;
    ghost var e := Elems(vec[..], relative);
    FloatsAlike();
    HeapSort(vec, relative, key, FloatCmp);
    if AllNumbers(e, key) { FloatsSorted(e, Elems(vec[..], relative), key); }
  }

  lemma FloatsAlike()
    ensures Irreflexive(FloatCmp)
  {}

  lemma NumbersOrdered(e: seq<int>, key: int -> FloatKey)
    requires AllNumbers(e, key)
    ensures TotalOn(FloatCmp, KeysOf(e, key))
  {
    hide FloatCmp, TotalOn;
    FloatsExactly(KeysOf(e, key));
  }

  lemma FloatsSorted(e: seq<int>, sorted: seq<int>, key: int -> FloatKey)
    requires AllNumbers(e, key) && multiset(sorted) == multiset(e)
    requires TotalOn(FloatCmp, KeysOf(e, key)) ==> SortedFrom(sorted, key, FloatCmp, 0)
    ensures AscendingFloats(sorted, key)
  {
    hide FloatCmp, TotalOn, KeysOf;
    NumbersOrdered(e, key);
    forall i | 0 <= i < |sorted| ensures key(sorted[i]).Number? {
      assert sorted[i] in multiset(e);
    }
    forall i, j | 0 <= i < j < |sorted| ensures key(sorted[i]).value <= key(sorted[j]).value {
      FloatMeans(key(sorted[i]), key(sorted[j]));
      FloatMeans(key(sorted[j]), key(sorted[i]));
      FloatSign(key(sorted[i]), key(sorted[j]));
    }
  }

  lemma FloatSign(x: FloatKey, y: FloatKey)
    ensures FloatCmp(x, y) < 0 <==> FloatCmp(y, x) > 0
  {}

  lemma FloatsPartition(e: seq<int>, key: int -> FloatKey, k: FloatKey)
    requires AscendingFloats(e, key)
    ensures Partitioned(e, key, FloatCmp, k)
  {}

  /** In a vector of numbers in ascending order: the lowest index at which the key is k, or none when there
      is none; a NaN is found at the front, wherever there is one. */
  method FindByFloat(e: seq<int>, key: int -> FloatKey, k: FloatKey) returns (r: Option<nat>)
    requires AscendingFloats(e, key)
    ensures k.Number? && r.Some? ==>
              r.value < |e| && key(e[r.value]) == k && forall i | 0 <= i < r.value :: key(e[i]).value < k.value
    ensures k.Number? && r.None? ==> forall i | 0 <= i < |e| :: key(e[i]) != k
    ensures k.NaN? ==> r == if e == [] then None else Some(0)
  {
    hide FloatCmp, TotalOn, KeysOf, SortedFrom;
    FloatsPartition(e, key, k);
    r := Find(e, key, FloatCmp, k);
    forall i | 0 <= i < |e| ensures FloatCmp(key(e[i]), k) == 0 <==> k.NaN? || key(e[i]) == k {
      FloatMeans(key(e[i]), k);
    }
    if k.NaN? && e != [] { assert FloatCmp(key(e[0]), k) == 0; }
  }

  /** Sorts by a string key: by characters first, then by length, as StringDiffers and StringLonger say. */
  method SortByString(vec: array<int>, relative: bool, key: int -> seq<u8>)
    requires Uoffsets(vec[..], relative)
    modifies vec
    ensures Uoffsets(vec[..], relative)
    ensures SortedFrom(Elems(vec[..], relative), key, StringDiff, 0)
    ensures multiset(Elems(vec[..], relative)) == multiset(old(Elems(vec[..], relative)))
  {
    hide StringDiff, SortedFrom;
    StringOrder();
    OrderOnAny(StringDiff, KeysOf(Elems(vec[..], relative), key));
    HeapSort(vec, relative, key, StringDiff);
  }

  /** Finds a C string in a vector sorted by length-aware comparison. */
  method FindByString(e: seq<int>, key: int -> seq<u8>, k: seq<u8>) returns (r: Option<nat>)
    requires SortedFrom(e, key, StringDiff, 0)
    ensures r.Some? ==>
              && r.value < |e| && CString(key(e[r.value])) == CString(k)
              && forall i | 0 <= i < r.value :: CString(key(e[i])) != CString(k)
    ensures r.None? ==> forall i | 0 <= i < |e| :: CString(key(e[i])) != CString(k)
    ensures IsLowest(e, 0, |e|, key, StrCmp, k, r)
  {
    hide StringDiff, StrCmp, CString;
    StrCmpOrder();
    SortedForStrCmp(e, key);
    OrderOnAny(StrCmp, KeysOf(e, key) + iset{k});
    SortedPartitions(e, key, StrCmp, k);
    r := Find(e, key, StrCmp, k);
    forall i | 0 <= i < |e| ensures StrCmp(key(e[i]), k) == 0 <==> CString(key(e[i])) == CString(k) {
      StrCmpEqual(key(e[i]), k);
    }
  }

  predicate SameText(a: seq<u8>, b: seq<u8>) { |a| == |b| && CString(a) == CString(b) }

  lemma SameTextMeans(a: seq<u8>, b: seq<u8>)
    ensures StringDiff(a, b) == 0 <==> SameText(a, b)
  {
    StringDiffEqual(a, b);
  }

  /** Finds a string of given length. */
  method FindByStringN(e: seq<int>, key: int -> seq<u8>, k: seq<u8>) returns (r: Option<nat>)
    requires SortedFrom(e, key, StringDiff, 0)
    ensures r.Some? ==>
              && r.value < |e| && SameText(key(e[r.value]), k)
              && forall i | 0 <= i < r.value :: !SameText(key(e[i]), k)
    ensures r.None? ==> forall i | 0 <= i < |e| :: !SameText(key(e[i]), k)
    ensures IsLowest(e, 0, |e|, key, StringDiff, k, r)
  {
    hide StringDiff, SameText;
    StringOrder();
    OrderOnAny(StringDiff, KeysOf(e, key) + iset{k});
    SortedPartitions(e, key, StringDiff, k);
    r := Find(e, key, StringDiff, k);
    forall i | 0 <= i < |e| ensures StringDiff(key(e[i]), k) == 0 <==> SameText(key(e[i]), k) {
      SameTextMeans(key(e[i]), k);
    }
  }
}
