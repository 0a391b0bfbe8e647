/** The emit space of a buffer under construction. Objects go in at the low end, clustered vtables
    at the high end, so addresses are signed and never move once issued. */
module EmitSpace {
  import opened Bytes
  import opened Schema

  /** Bytes from address `lo` up. */
  datatype Space = Space(lo: int, bytes: seq<u8>) {
    function Hi(): int { lo + |bytes| }

    predicate In(a: int, n: int) { lo <= a && 0 <= n && a + n <= Hi() }

    function Slice(a: int, n: int): (s: seq<u8>)
      requires In(a, n)
      ensures |s| == n
    {
      bytes[a - lo..a - lo + n]
    }

    function U16(a: int): (r: int)
      requires In(a, 2)
      ensures 0 <= r < TWO_16
    {
      U16At(bytes, a - lo)
    }

    function U32(a: int): (r: int)
      requires In(a, 4)
      ensures 0 <= r < TWO_32
    {
      U32At(bytes, a - lo)
    }

    /** Same addresses, same bytes, possibly more of them on either side. */
    ghost predicate ExtendedBy(t: Space) {
      && t.lo <= lo && Hi() <= t.Hi()
      && t.bytes[lo - t.lo..][..|bytes|] == bytes
    }
  }

  lemma ExtendedReads(s: Space, t: Space, a: int, n: int)
    requires s.ExtendedBy(t) && s.In(a, n)
    ensures t.In(a, n) && t.Slice(a, n) == s.Slice(a, n)
    ensures n == 4 ==> t.U32(a) == s.U32(a)
    ensures n == 2 ==> t.U16(a) == s.U16(a)
  {
    hide U16At, U32At;
    var d, p := s.lo - t.lo, a - s.lo;
    var mid := t.bytes[d..][..|s.bytes|];
    assert t.bytes[d + p..d + p + n] == mid[p..p + n];
    if n == 4 { U32OfSlice(s.bytes, p, t.bytes, d + p); }
    if n == 2 { U16OfSlice(s.bytes, p, t.bytes, d + p); }
  }

  // ---- the objects of a buffer, as the calls that created them describe them ---------------

  /** One field of a table: bytes stored inline, or a reference to another object. */
  datatype Cell = Raw(bytes: seq<u8>, align: nat) | Link(target: int)

  datatype Obj =
    | OStr(chars: seq<u8>)
    | OVec(elem: nat, align: nat, count: nat, data: seq<u8>)
    | ORefs(refs: seq<int>)               // 0 is the null element of a union vector
    | OTab(cells: map<nat, Cell>)

  type Heap = map<int, Obj>

  function VtableOf(s: Space, r: int): int
    requires s.In(r, 4)
  {
    r - Signed32(s.U32(r))
  }

  /** A vtable at v: even size and address, at least its two header words. */
  ghost predicate VtableHeader(s: Space, v: int) {
    && v % 2 == 0 && s.In(v, 4)
    && s.U16(v) % 2 == 0 && s.U16(v) >= 4 && s.In(v, s.U16(v))
  }

  function Entry(s: Space, v: int, id: nat): int
    requires VtableHeader(s, v)
  {
    if 2 * (id + 2) < s.U16(v) then s.U16(v + 2 * (id + 2)) else 0
  }

  /** A stored offset resolves to its target, which lies strictly further up. */
  ghost predicate LinksTo(s: Space, a: int, target: int) {
    a % 4 == 0 && s.In(a, 4) && target > a && s.U32(a) == target - a && target % 4 == 0
  }

  ghost predicate CellAt(s: Space, r: int, tsize: int, e: int, cell: Cell) {
    match cell
    case Raw(bytes, align) =>
      && e >= 4 && e + |bytes| <= tsize && s.In(r + e, |bytes|)
      && align >= 1 && Aligned(r + e, align) && s.Slice(r + e, |bytes|) == bytes
    case Link(target) =>
      e >= 4 && e + 4 <= tsize && LinksTo(s, r + e, target)
  }

  ghost predicate StrAt(s: Space, r: int, chars: seq<u8>) {
    && s.In(r, 4 + |chars| + 1)
    && s.U32(r) == |chars| && s.Slice(r + 4, |chars|) == chars && s.Slice(r + 4 + |chars|, 1) == [0]
  }

  predicate Sized(n: nat, count: nat, elem: nat) { n == count * elem }

  ghost predicate VecAt(s: Space, r: int, elem: nat, align: nat, count: nat, data: seq<u8>) {
    && Sized(|data|, count, elem) && s.In(r, 4 + |data|)
    && s.U32(r) == count && s.Slice(r + 4, |data|) == data
    && align >= 1 && Aligned(r + 4, align)
  }

  ghost predicate RefsAt(s: Space, r: int, refs: seq<int>) {
    && s.In(r, 4 + 4 * |refs|) && s.U32(r) == |refs|
    && forall i | 0 <= i < |refs| ::
         s.In(r + 4 + 4 * i, 4) &&
         if refs[i] == 0 then s.U32(r + 4 + 4 * i) == 0 else LinksTo(s, r + 4 + 4 * i, refs[i])
  }

  ghost predicate TabAt(s: Space, r: int, cells: map<nat, Cell>) {
    && s.In(r, 4)
    && var v := VtableOf(s, r);
    && VtableHeader(s, v)
    && var tsize := s.U16(v + 2);
    && s.In(r, tsize) && tsize >= 4
    && (forall id: nat | id !in cells :: Entry(s, v, id) == 0)
    && (forall id: nat | id in cells :: CellAt(s, r, tsize, Entry(s, v, id), cells[id]))
  }

  /** Object o is laid out at r. References to objects are negative multiples of four. */
  ghost predicate ObjAt(s: Space, r: int, o: Obj) {
    && r % 4 == 0 && r < 0
    && match o
       case OStr(chars) => StrAt(s, r, chars)
       case OVec(elem, align, count, data) => VecAt(s, r, elem, align, count, data)
       case ORefs(refs) => RefsAt(s, r, refs)
       case OTab(cells) => TabAt(s, r, cells)
  }

  /** The construction invariant: every object issued so far is laid out where its reference says,
      and every offset stored in it resolves exactly to the object it names, further up. */
  ghost predicate HeapAt(s: Space, h: Heap) {
    forall r | r in h :: ObjAt(s, r, h[r])
  }

  /** Every alignment an object was given divides the alignment m of the whole buffer. */
  ghost predicate AlignsWithin(o: Obj, m: nat) {
    match o
    case OStr(_) => true
    case OVec(_, align, _, _) => IsPow2(align) && align <= m
    case ORefs(_) => true
    case OTab(cells) => forall id | id in cells && cells[id].Raw? :: IsPow2(cells[id].align) && cells[id].align <= m
  }

  ghost predicate HeapAlignsWithin(h: Heap, m: nat) {
    IsPow2(m) && m >= 4 && forall r | r in h :: AlignsWithin(h[r], m)
  }

  // ---- growing the space keeps every object --------------------------------------------------

  lemma LinkExtends(s: Space, t: Space, a: int, target: int)
    requires s.ExtendedBy(t) && LinksTo(s, a, target)
    ensures LinksTo(t, a, target)
  {
    ExtendedReads(s, t, a, 4);
  }

  lemma RefsExtend(s: Space, t: Space, r: int, refs: seq<int>)
    requires s.ExtendedBy(t) && RefsAt(s, r, refs)
    ensures RefsAt(t, r, refs)
  {
    hide U32At, LinksTo;
    ExtendedReads(s, t, r, 4);
    forall i | 0 <= i < |refs|
      ensures t.In(r + 4 + 4 * i, 4) &&
              if refs[i] == 0 then t.U32(r + 4 + 4 * i) == 0 else LinksTo(t, r + 4 + 4 * i, refs[i])
    {
      ExtendedReads(s, t, r + 4 + 4 * i, 4);
      if refs[i] != 0 { LinkExtends(s, t, r + 4 + 4 * i, refs[i]); }
    }
  }

  lemma VtableExtends(s: Space, t: Space, v: int)
    requires s.ExtendedBy(t) && VtableHeader(s, v)
    ensures VtableHeader(t, v) && t.U16(v) == s.U16(v) && t.U16(v + 2) == s.U16(v + 2)
    ensures forall id: nat :: Entry(t, v, id) == Entry(s, v, id)
  {
    ExtendedReads(s, t, v, 2);
    ExtendedReads(s, t, v + 2, 2);
    forall id: nat ensures Entry(t, v, id) == Entry(s, v, id) {
      if 2 * (id + 2) < s.U16(v) { ExtendedReads(s, t, v + 2 * (id + 2), 2); }
    }
  }

  lemma CellExtends(s: Space, t: Space, r: int, tsize: int, e: int, cell: Cell)
    requires s.ExtendedBy(t) && CellAt(s, r, tsize, e, cell)
    ensures CellAt(t, r, tsize, e, cell)
  {
    match cell
    case Raw(bytes, _) => ExtendedReads(s, t, r + e, |bytes|);
    case Link(target) => LinkExtends(s, t, r + e, target);
  }

  lemma TabExtends(s: Space, t: Space, r: int, cells: map<nat, Cell>)
    requires s.ExtendedBy(t) && TabAt(s, r, cells)
    ensures TabAt(t, r, cells)
  {
    hide CellAt, U32At, U16At;
    ExtendedReads(s, t, r, 4);
    var v := VtableOf(s, r);
    VtableExtends(s, t, v);
    var tsize := s.U16(v + 2);
    forall id: nat | id in cells
      ensures CellAt(t, r, tsize, Entry(t, v, id), cells[id])
    {
      CellExtends(s, t, r, tsize, Entry(s, v, id), cells[id]);
    }
  }

  lemma HeapExtends(s: Space, t: Space, h: Heap)
    requires s.ExtendedBy(t) && HeapAt(s, h)
    ensures HeapAt(t, h)
  {
    hide Space.ExtendedBy, ObjAt;
    forall r | r in h ensures ObjAt(t, r, h[r]) {
      ObjExtends(s, t, r, h[r]);
    }
  }

  lemma ObjExtends(s: Space, t: Space, r: int, o: Obj)
    requires s.ExtendedBy(t) && ObjAt(s, r, o)
    ensures ObjAt(t, r, o)
  {
    hide Space.ExtendedBy, RefsAt, TabAt;
    match o
    case OStr(chars) =>
      ExtendedReads(s, t, r, 4);
      ExtendedReads(s, t, r + 4, |chars|);
      ExtendedReads(s, t, r + 4 + |chars|, 1);
    case OVec(_, _, _, data) =>
      ExtendedReads(s, t, r, 4);
      ExtendedReads(s, t, r + 4, |data|);
    case ORefs(refs) => RefsExtend(s, t, r, refs);
    case OTab(cells) => TabExtends(s, t, r, cells);
  }
}
