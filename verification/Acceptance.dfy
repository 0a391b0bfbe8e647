/** From the object heap to the finished bytes: what the creating calls describe is what the
    verifier accepts and the reader returns. `Denote` is the meaning of a reference in terms of
    those calls alone; it looks at no bytes. */
module Acceptance {
  import opened Bytes
  import opened Options
  import opened Schema
  import opened Verifier
  import opened Reader
  import opened EmitSpace
  import Soundness

  /** The value reference r stands for when it is used as a `kind`, None when the calls made
      something else or tables nest deeper than `levels`. */
  function Denote(h: Heap, sc: Schema, r: int, kind: Kind, levels: nat): Option<Value>
    requires WfSchema(sc) && WfKind(sc, kind)
    decreases levels, 0, 0
  {
    if r !in h then None else
    match kind
    case KStr => if h[r].OStr? then Some(Str(h[r].chars)) else None
    case KVec(elem, align) =>
      if h[r].OVec? && h[r].elem == elem && h[r].align == (if align < 4 then 4 else align)
      then Some(Vec(h[r].count, h[r].data)) else None
    case KStrs =>
      if !h[r].ORefs? then None else
      var items := DenoteStrings(h, h[r].refs);
      if items.None? then None else Some(Strs(items.value))
    case KTable(tid) =>
      if !h[r].OTab? || levels == 0 then None else
      var vs := DenoteFields(h, sc, h[r].cells, sc.tables[tid], levels - 1);
      if vs.None? then None else Some(Table(vs.value))
    case KTables(tid) =>
      if !h[r].ORefs? || levels == 0 then None else
      var rows := DenoteTables(h, sc, h[r].refs, tid, levels - 1);
      if rows.None? then None else Some(Tables(rows.value))
  }

  function DenoteStrings(h: Heap, refs: seq<int>): Option<seq<seq<u8>>> {
    if refs == [] then Some([]) else
    if refs[0] !in h || !h[refs[0]].OStr? || refs[0] == 0 then None else
    var rest := DenoteStrings(h, refs[1..]);
    if rest.None? then None else Some([h[refs[0]].chars] + rest.value)
  }

  function DenoteTables(h: Heap, sc: Schema, refs: seq<int>, tid: nat, levels: nat): Option<seq<Value>>
    requires WfSchema(sc) && tid < |sc.tables|
    decreases levels, 3, |refs|
  {
    if refs == [] then Some([]) else
    var v := if refs[0] == 0 then None else Denote(h, sc, refs[0], KTable(tid), levels);
    if v.None? then None else
    var rest := DenoteTables(h, sc, refs[1..], tid, levels);
    if rest.None? then None else Some([v.value] + rest.value)
  }

  function DenoteFields(h: Heap, sc: Schema, cells: map<nat, Cell>, fields: seq<Field>, levels: nat): Option<seq<Value>>
    requires WfSchema(sc) && forall i | 0 <= i < |fields| :: WfField(sc, fields[i])
    decreases levels, 3, |fields|
  {
    if fields == [] then Some([]) else
    var v := DenoteField(h, sc, cells, fields[0], levels);
    if v.None? then None else
    var rest := DenoteFields(h, sc, cells, fields[1..], levels);
    if rest.None? then None else Some([v.value] + rest.value)
  }

  function DenoteField(h: Heap, sc: Schema, cells: map<nat, Cell>, f: Field, levels: nat): Option<Value>
    requires WfSchema(sc) && WfField(sc, f)
    decreases levels, 2, 2
  {
    match f
    case FScalar(id, size, align, default, _) => DenoteScalar(cells, id, size, align, default)
    case FOffset(id, required, kind) =>
      if id !in cells then (if required then None else Some(Absent)) else
      if cells[id].Raw? then None else Denote(h, sc, cells[id].target, kind, levels)
    case FUnion(id, required, members) => DenoteUnion(h, sc, cells, id, required, members, levels)
    case FUnions(id, required, members) => DenoteUnions(h, sc, cells, id, required, members, levels)
  }

  function DenoteScalar(cells: map<nat, Cell>, id: nat, size: nat, align: nat, default: seq<u8>): Option<Value> {
    if id !in cells then Some(Scalar(default)) else
    match cells[id]
    case Raw(bytes, a) => if |bytes| == size && a == align then Some(Scalar(bytes)) else None
    case Link(_) => None
  }

  /** A reference used as a union member of type `tag`. */
  function DenoteMember(h: Heap, sc: Schema, r: int, tag: u8, members: map<u8, Kind>, levels: nat): Option<Value>
    requires WfSchema(sc) && WfMembers(sc, members)
    decreases levels, 1, 0
  {
    if tag !in members then Some(Opaque) else Denote(h, sc, r, members[tag], levels)
  }

  function DenoteUnion(h: Heap, sc: Schema, cells: map<nat, Cell>, id: nat, required: bool, members: map<u8, Kind>,
                       levels: nat): Option<Value>
    requires WfSchema(sc) && WfMembers(sc, members) && id >= 1
    decreases levels, 1, 1
  {
    if id - 1 !in cells then
      if id in cells || required then None else Some(Absent)
    else match cells[id - 1]
      case Link(_) => None
      case Raw(bytes, _) =>
        if |bytes| != 1 then None else
        if bytes[0] == 0 then (if id in cells || required then None else Some(Absent)) else
        if id !in cells then (if required then None else Some(Union(bytes[0], Absent))) else
        if cells[id].Raw? then None else
        var m := DenoteMember(h, sc, cells[id].target, bytes[0], members, levels);
        if m.None? then None else Some(Union(bytes[0], m.value))
  }

  function DenoteElems(h: Heap, sc: Schema, refs: seq<int>, tags: seq<u8>, members: map<u8, Kind>,
      levels: nat): Option<seq<Value>>
    requires WfSchema(sc) && WfMembers(sc, members) && |refs| == |tags|
    decreases levels, 2, |refs|
  {
    if refs == [] then Some([]) else
    if (refs[0] == 0) != (tags[0] == 0) then None else
    var v := if refs[0] == 0 then Some(Absent) else DenoteMember(h, sc, refs[0], tags[0], members, levels);
    if v.None? then None else
    var rest := DenoteElems(h, sc, refs[1..], tags[1..], members, levels);
    if rest.None? then None else Some([v.value] + rest.value)
  }

  /** A union vector: a vector of types beside a vector of as many references. */
  function DenoteUnions(h: Heap, sc: Schema, cells: map<nat, Cell>, id: nat, required: bool, members: map<u8, Kind>,
                        levels: nat): Option<Value>
    requires WfSchema(sc) && WfMembers(sc, members) && id >= 1
    decreases levels, 2, 1
  {
    if id - 1 !in cells then (if id in cells || required then None else Some(Absent)) else
    if cells[id - 1].Raw? || id !in cells || cells[id].Raw? || levels == 0 then None else
    var t, r := cells[id - 1].target, cells[id].target;
    if t !in h || r !in h || !h[t].OVec? || !h[r].ORefs? then None else
    if h[t].elem != 1 || |h[t].data| != h[t].count || |h[r].refs| != h[t].count then None else
    var vs := DenoteElems(h, sc, h[r].refs, h[t].data, members, levels - 1);
    if vs.None? then None else Some(Unions(h[t].data, vs.value))
  }

  // ---- finished buffers ----------------------------------------------------------------------

  /** A finished buffer c with the emit space and heap it was built from. Its first byte is aligned
      to m in the emit space, and so is the memory the bytes are placed in. */
  datatype Fin = Fin(c: Ctx, s: Space, h: Heap, m: nat)

  ghost predicate Finished(f: Fin) {
    && WfSchema(f.c.sc)
    && f.c.buf == f.s.bytes && |f.c.buf| < TWO_31
    && HeapAt(f.s, f.h) && HeapAlignsWithin(f.h, f.m)
    && f.m >= 4 && IsPow2(f.m) && Aligned(f.s.lo, f.m) && Aligned(f.c.addr, f.m)
  }

  /** Position p of the finished buffer holds an offset to reference r. */
  ghost predicate FieldOf(f: Fin, p: int, r: int) {
    0 <= p && LinksTo(f.s, f.s.lo + p, r)
  }

  lemma LowAligned(f: Fin)
    requires Finished(f)
    ensures f.s.lo % 4 == 0 && f.c.addr % 4 == 0 && f.s.lo % 2 == 0
  {
    hide Aligned;
    AlignedTo4(f.s.lo, f.m);
    AlignedTo4(f.c.addr, f.m);
  }

  lemma FollowsTo(f: Fin, p: int, r: int)
    requires Finished(f) && FieldOf(f, p, r) && r in f.h
    ensures 0 <= p && p + 4 <= |f.c.buf| && p % 4 == 0
    ensures var k := r - f.s.lo;
            && Wrap32(p + U32At(f.c.buf, p)) == k && p < k && k + 4 <= |f.c.buf| && k % 4 == 0
            && CheckHeader(|f.c.buf|, p, U32At(f.c.buf, p)) && Follow(f.c, p) == Got(k)
            && Load32(f.c, k) == Got(f.s.U32(r))
  {
    hide U32At, Aligned, Wrap32, IsPow2, HeapAlignsWithin, StrAt, VecAt, RefsAt, TabAt;
    LowAligned(f);
    assert ObjAt(f.s, r, f.h[r]);
    ObjectRoom(f.s, r, f.h[r]);
    ForwardPosition(f.s.lo, p, r, |f.c.buf|);
    AlignedSum(f.c.addr, p);
    AlignedSum(f.c.addr, r - f.s.lo);
  }

  lemma ForwardPosition(lo: int, p: int, r: int, len: nat)
    requires len < TWO_31 && 0 <= p && lo + p < r && r - lo < len
    requires lo % 4 == 0 && r % 4 == 0 && (lo + p) % 4 == 0
    ensures Wrap32(p + (r - (lo + p))) == r - lo && (r - lo) % 4 == 0 && p % 4 == 0
  {}

  lemma ObjectRoom(s: Space, r: int, o: Obj)
    requires ObjAt(s, r, o)
    ensures s.In(r, 4)
  {}

  lemma AcceptString(f: Fin, p: int, r: int)
    requires Finished(f) && FieldOf(f, p, r) && r in f.h && f.h[r].OStr?
    ensures p >= 0 && p + 4 <= |f.c.buf| && VerifyString(f.c, p, U32At(f.c.buf, p)).Ok?
    ensures Follow(f.c, p) == Got(r - f.s.lo) && ReadString(f.c, r - f.s.lo) == Got(f.h[r].chars)
  {
    hide U32At, LinksTo, CheckHeader, Follow;
    FollowsTo(f, p, r);
    var chars := f.h[r].chars;
    assert StrAt(f.s, r, chars);
    assert f.s.Slice(r + 4 + |chars|, 1)[0] == 0;
  }

  lemma VectorAligned(f: Fin, r: int, align: nat)
    requires Finished(f) && r in f.h && f.h[r].OVec? && IsPow2(align)
    requires f.h[r].align == (if align < 4 then 4 else align)
    ensures align >= 1 && Aligned(r - f.s.lo + 4, align) && Aligned(f.c.addr + (r - f.s.lo) + 4, align)
  {
    hide U32At, Aligned;
    var o := f.h[r];
    assert ObjAt(f.s, r, o) && VecAt(f.s, r, o.elem, o.align, o.count, o.data);
    assert AlignsWithin(o, f.m);
    AlignedDifference(r + 4, f.s.lo, o.align, f.m);
    assert r + 4 - f.s.lo == r - f.s.lo + 4;
    if align < 4 {
      ZeroAligned(align);
      AlignedDifference(0, r - f.s.lo + 4, align, 4);
      assert 0 + (r - f.s.lo + 4) == r - f.s.lo + 4;
    }
    AlignedDifference(r - f.s.lo + 4, f.c.addr, align, f.m);
    assert (r - f.s.lo + 4) + f.c.addr == f.c.addr + (r - f.s.lo) + 4;
  }

  lemma AcceptVector(f: Fin, p: int, r: int, align: nat)
    requires Finished(f) && FieldOf(f, p, r) && r in f.h && f.h[r].OVec?
    requires IsPow2(align) && f.h[r].align == (if align < 4 then 4 else align)
    ensures p >= 0 && p + 4 <= |f.c.buf| && VerifyVector(f.c, p, U32At(f.c.buf, p), f.h[r].elem, align).Ok?
    ensures Follow(f.c, p) == Got(r - f.s.lo)
    ensures ReadVector(f.c, r - f.s.lo, f.h[r].elem, align) == Got(Vec(f.h[r].count, f.h[r].data))
  {
    hide U32At, LinksTo, CheckHeader, Follow, Aligned;
    FollowsTo(f, p, r);
    var o := f.h[r];
    assert VecAt(f.s, r, o.elem, o.align, o.count, o.data);
    assert AlignsWithin(o, f.m);
    VectorAligned(f, r, align);
    CountWithinMax(o.count, o.elem);
  }

  lemma CountWithinMax(n: nat, e: nat)
    requires n * e < TWO_31 && n < TWO_32
    ensures n <= CountMax(e) && Wrap32(n * e) == n * e
  {
    if e != 0 {
      AtMostQuotient(n, e, UOFFSET_MAX);
    }
  }

  lemma AtMostQuotient(n: nat, e: nat, m: nat)
    requires e > 0 && n * e <= m
    ensures n <= m / e
  {
    var q := m / e;
    assert m < (q + 1) * e;
    if n > q { ProductStep(n, q + 1, e); }
  }

  lemma ProductStep(n: nat, m: nat, e: nat)
    requires n >= m
    ensures n * e >= m * e
  {}

  /** The reference vector at r, as the vector it is. */
  lemma AcceptRefs(f: Fin, p: int, r: int)
    requires Finished(f) && FieldOf(f, p, r) && r in f.h && f.h[r].ORefs?
    ensures p >= 0 && p + 4 <= |f.c.buf| && VerifyVector(f.c, p, U32At(f.c.buf, p), 4, 4).Ok?
    ensures Follow(f.c, p) == Got(r - f.s.lo) && Load32(f.c, r - f.s.lo) == Got(|f.h[r].refs|)
    ensures 0 <= p < r - f.s.lo && (r - f.s.lo) % 4 == 0 && r - f.s.lo == Wrap32(p + U32At(f.c.buf, p))
    ensures U32At(f.c.buf, r - f.s.lo) == |f.h[r].refs|
    ensures r - f.s.lo + 4 + 4 * |f.h[r].refs| <= |f.c.buf|
  {
    hide U32At, LinksTo, CheckHeader, Follow;
    FollowsTo(f, p, r);
    assert RefsAt(f.s, r, f.h[r].refs);
    CountWithinMax(|f.h[r].refs|, 4);
  }

  /** Element i of a reference vector: an offset to its reference. */
  ghost predicate ElemsAt(f: Fin, base: int, refs: seq<int>) {
    0 <= base && base + 4 * |refs| <= |f.c.buf|
    && forall i | 0 <= i < |refs| :: if refs[i] == 0 then
         f.s.In(f.s.lo + base + 4 * i, 4) && f.s.U32(f.s.lo + base + 4 * i) == 0
                                     else FieldOf(f, base + 4 * i, refs[i])
  }

  lemma ElemsOf(f: Fin, r: int)
    requires Finished(f) && r in f.h && f.h[r].ORefs?
    ensures ElemsAt(f, r - f.s.lo + 4, f.h[r].refs)
  {
    var refs := f.h[r].refs;
    assert ObjAt(f.s, r, f.h[r]) && RefsAt(f.s, r, refs);
    var base := r - f.s.lo + 4;
    forall i | 0 <= i < |refs|
      ensures if refs[i] == 0 then f.s.In(f.s.lo + base + 4 * i, 4) && f.s.U32(f.s.lo + base + 4 * i) == 0
              else FieldOf(f, base + 4 * i, refs[i])
    {
      assert f.s.lo + (base + 4 * i) == r + 4 + 4 * i;
    }
  }

  lemma ElemsTail(f: Fin, base: int, refs: seq<int>)
    requires ElemsAt(f, base, refs) && refs != []
    ensures ElemsAt(f, base + 4, refs[1..])
  {
    var rest := refs[1..];
    forall i | 0 <= i < |rest|
      ensures if rest[i] == 0 then f.s.In(f.s.lo + (base + 4) + 4 * i, 4) && f.s.U32(f.s.lo + (base + 4) + 4 * i) == 0
              else FieldOf(f, (base + 4) + 4 * i, rest[i])
    {
      assert rest[i] == refs[i + 1] && base + 4 + 4 * i == base + 4 * (i + 1);
    }
  }

  lemma {:induction false} AcceptStrings(f: Fin, base: int, refs: seq<int>)
    requires Finished(f) && ElemsAt(f, base, refs) && DenoteStrings(f.h, refs).Some?
    ensures VerifyStringsFrom(f.c, base, |refs|).Ok?
    ensures ReadStringsFrom(f.c, base, |refs|) == Got(DenoteStrings(f.h, refs).value)
    decreases |refs|
  {
    hide Finished, U32At, FieldOf, LinksTo, VerifyString, Follow, ReadString;
    if refs != [] {
      assert FieldOf(f, base + 4 * 0, refs[0]);
      AcceptString(f, base, refs[0]);
      ElemsTail(f, base, refs);
      AcceptStrings(f, base + 4, refs[1..]);
      BufLen(f);
    }
  }

  lemma BufLen(f: Fin)
    requires Finished(f)
    ensures |f.c.buf| < TWO_31 && WfSchema(f.c.sc)
  {}

  // ---- tables --------------------------------------------------------------------------------

  /** The descriptor the verifier derives for the table at reference r. */
  ghost predicate TdOf(f: Fin, r: int, td: Td) {
    && r in f.h && f.h[r].OTab? && f.s.In(r, 4)
    && td.table == r - f.s.lo && Soundness.Header(f.c, td)
    && VtableHeader(f.s, VtableOf(f.s, r)) && td.vtable == VtableOf(f.s, r) - f.s.lo
    && td.vsize == f.s.U16(VtableOf(f.s, r)) && td.tsize == f.s.U16(VtableOf(f.s, r) + 2)
  }

  lemma VtablePosition(lo: int, r: int, u: int, len: nat)
    requires len < TWO_31 && 0 <= u < TWO_32 && lo <= r - Signed32(u) && r - Signed32(u) - lo < len
    requires lo % 2 == 0 && (r - Signed32(u)) % 2 == 0
    ensures Wrap32(r - lo - u) == r - Signed32(u) - lo
    ensures Signed32(Wrap32(r - lo - u)) >= 0 && Wrap32(r - lo - u) % 2 == 0
  {}

  lemma AcceptHeader(f: Fin, p: int, r: int, ttl: int)
    requires Finished(f) && FieldOf(f, p, r) && r in f.h && f.h[r].OTab? && ttl != 1
    ensures p >= 0 && p + 4 <= |f.c.buf| && VerifyTableHeader(f.c, p, U32At(f.c.buf, p), ttl).GoodTd?
    ensures TdOf(f, r, VerifyTableHeader(f.c, p, U32At(f.c.buf, p), ttl).td)
    ensures VerifyTableHeader(f.c, p, U32At(f.c.buf, p), ttl).td.ttl == ttl - 1
    ensures Follow(f.c, p) == Got(r - f.s.lo)
  {
    hide U32At, U16At, Aligned, LinksTo, CheckHeader, Follow, CellAt, Entry, HeapAlignsWithin, IsPow2, Wrap32, Signed32;
    FollowsTo(f, p, r);
    LowAligned(f);
    assert ObjAt(f.s, r, f.h[r]) && TabAt(f.s, r, f.h[r].cells);
    var v := VtableOf(f.s, r);
    var u := f.s.U32(r);
    assert U32At(f.c.buf, r - f.s.lo) == u;
    VtablePosition(f.s.lo, r, u, |f.c.buf|);
  }

  /** The verifier and the reader both see the vtable entry that the heap invariant speaks about. */
  lemma EntrySeen(f: Fin, r: int, td: Td, id: nat)
    requires Finished(f) && TdOf(f, r, td) && id <= ID_MAX
    ensures ReadVtEntry(f.c, td, id) == Entry(f.s, VtableOf(f.s, r), id)
    ensures ReadVt(f.c, td.table, id) == Got(Entry(f.s, VtableOf(f.s, r), id))
    ensures id !in f.h[r].cells ==> Entry(f.s, VtableOf(f.s, r), id) == 0
    ensures id in f.h[r].cells ==> CellAt(f.s, r, td.tsize, Entry(f.s, VtableOf(f.s, r), id), f.h[r].cells[id])
  {
    hide U32At, U16At, CellAt, LinksTo, Aligned, ReadVt;
    assert Soundness.Base(f.c) by { LowAligned(f); }
    Soundness.VtableTestsAgree(f.c, td, id);
    assert ObjAt(f.s, r, f.h[r]) && TabAt(f.s, r, f.h[r].cells);
    Soundness.EvenBound(id, td.vsize);
  }

  lemma AcceptScalar(f: Fin, r: int, td: Td, id: nat, size: nat, align: nat, default: seq<u8>)
    requires Finished(f) && TdOf(f, r, td) && WfField(f.c.sc, FScalar(id, size, align, default, false))
    requires DenoteScalar(f.h[r].cells, id, size, align, default).Some?
    ensures VerifyField(f.c, td, id, false, size, align).Ok?
    ensures ReadScalar(f.c, td.table, id, size, align, default)
         == Got(DenoteScalar(f.h[r].cells, id, size, align, default).value)
  {
    hide U32At, U16At, Aligned, ReadVt, ReadVtEntry, Entry;
    EntrySeen(f, r, td, id);
    if id in f.h[r].cells {
      var e := Entry(f.s, VtableOf(f.s, r), id);
      assert f.h[r].cells[id].Raw? && f.h[r].cells[id].align == align;
      assert AlignsWithin(f.h[r], f.m);
      AlignedDifference(r + e, f.s.lo, align, f.m);
      AlignedDifference(r + e - f.s.lo, f.c.addr, align, f.m);
      assert r + e - f.s.lo + f.c.addr == f.c.addr + td.table + e;
    }
  }

  /** A present link field is an offset field the verifier finds. */
  lemma LinkSeen(f: Fin, r: int, td: Td, id: nat, required: bool)
    requires Finished(f) && TdOf(f, r, td) && id <= ID_MAX && id in f.h[r].cells && f.h[r].cells[id].Link?
    ensures var e := Entry(f.s, VtableOf(f.s, r), id);
            && e >= 4 && GetOffsetField(f.c, td, id, required) == Pos(td.table + e)
            && FieldOf(f, td.table + e, f.h[r].cells[id].target)
  {
    hide U32At, U16At, Aligned, ReadVt, ReadVtEntry, Entry, IsPow2, HeapAlignsWithin, HeapAt;
    EntrySeen(f, r, td, id);
    LowAligned(f);
    var a := r + Entry(f.s, VtableOf(f.s, r), id);
    AlignedSum(a, f.s.lo);
    assert a - f.s.lo == td.table + Entry(f.s, VtableOf(f.s, r), id);
  }

  // ---- the induction over what a reference denotes ------------------------------------------

  lemma {:induction false} AcceptTarget(f: Fin, p: int, r: int, kind: Kind, levels: nat, ttl: int)
    requires Finished(f) && FieldOf(f, p, r) && WfKind(f.c.sc, kind) && levels < ttl
    requires Denote(f.h, f.c.sc, r, kind, levels).Some?
    ensures p >= 0 && p + 4 <= |f.c.buf|
    ensures VerifyTarget(f.c, p, U32At(f.c.buf, p), ttl, kind).Ok?
    ensures Follow(f.c, p) == Got(r - f.s.lo) && r - f.s.lo >= 0
    ensures ReadTarget(f.c, r - f.s.lo, kind) == Got(Denote(f.h, f.c.sc, r, kind, levels).value)
    decreases levels, 0, 0
  {
    hide Finished, FieldOf, LinksTo, U32At, CheckHeader, Follow, VerifyString, VerifyVector, ReadString, ReadVector,
      Aligned;
    BufLen(f);
    match kind
    case KStr => AcceptString(f, p, r);
    case KVec(elem, align) => AcceptVector(f, p, r, align);
    case KStrs =>
      AcceptRefs(f, p, r);
      ElemsOf(f, r);
      AcceptStrings(f, r - f.s.lo + 4, f.h[r].refs);
    case KTable(tid) => AcceptTable(f, p, r, tid, levels, ttl);
    case KTables(tid) =>
      AcceptRefs(f, p, r);
      ElemsOf(f, r);
      AcceptTables(f, r - f.s.lo + 4, f.h[r].refs, tid, levels - 1, ttl - 1);
  }

  lemma {:induction false} AcceptTable(f: Fin, p: int, r: int, tid: nat, levels: nat, ttl: int)
    requires Finished(f) && FieldOf(f, p, r) && WfKind(f.c.sc, KTable(tid)) && levels < ttl
    requires Denote(f.h, f.c.sc, r, KTable(tid), levels).Some?
    ensures p >= 0 && p + 4 <= |f.c.buf|
    ensures VerifyTable(f.c, p, U32At(f.c.buf, p), ttl, tid).Ok?
    ensures Follow(f.c, p) == Got(r - f.s.lo) && r - f.s.lo >= 0
    ensures ReadTable(f.c, r - f.s.lo, tid) == Got(Denote(f.h, f.c.sc, r, KTable(tid), levels).value)
    decreases levels, 0, -1
  {
    hide Finished, FieldOf, LinksTo, U32At, CheckHeader, Follow, Aligned, VerifyTableHeader;
    BufLen(f);
    AcceptHeader(f, p, r, ttl);
    AcceptFields(f, r, VerifyTableHeader(f.c, p, U32At(f.c.buf, p), ttl).td, f.c.sc.tables[tid], levels - 1);
  }

  lemma {:induction false} AcceptFields(f: Fin, r: int, td: Td, fields: seq<Field>, levels: nat)
    requires Finished(f) && TdOf(f, r, td) && levels < td.ttl
    requires forall i | 0 <= i < |fields| :: WfField(f.c.sc, fields[i])
    requires DenoteFields(f.h, f.c.sc, f.h[r].cells, fields, levels).Some?
    ensures VerifyFields(f.c, td, fields).Ok? && td.table < |f.c.buf|
    ensures ReadFields(f.c, td.table, fields) == Got(DenoteFields(f.h, f.c.sc, f.h[r].cells, fields, levels).value)
    decreases levels, 3, |fields|
  {
    hide Finished, VerifyOneField, ReadField, DenoteField;
    BufLen(f);
    if fields != [] {
      AcceptField(f, r, td, fields[0], levels);
      AcceptFields(f, r, td, fields[1..], levels);
    }
  }

  lemma {:induction false} AcceptField(f: Fin, r: int, td: Td, fd: Field, levels: nat)
    requires Finished(f) && TdOf(f, r, td) && levels < td.ttl && WfField(f.c.sc, fd)
    requires DenoteField(f.h, f.c.sc, f.h[r].cells, fd, levels).Some?
    ensures VerifyOneField(f.c, td, fd).Ok? && td.table < |f.c.buf|
    ensures ReadField(f.c, td.table, fd) == Got(DenoteField(f.h, f.c.sc, f.h[r].cells, fd, levels).value)
    decreases levels, 2, 2
  {
    hide Finished, VerifyField, ReadScalar, DenoteScalar, VerifyUnionField, ReadUnion, DenoteUnion,
      VerifyUnionVectorField, ReadUnions, DenoteUnions;
    BufLen(f);
    match fd
    case FScalar(id, size, align, default, _) => AcceptScalar(f, r, td, id, size, align, default);
    case FOffset(id, required, kind) => AcceptOffset(f, r, td, id, required, kind, levels);
    case FUnion(id, required, members) => AcceptUnion(f, r, td, id, required, members, levels);
    case FUnions(id, required, members) => AcceptUnions(f, r, td, id, required, members, levels);
  }

  lemma {:induction false} AcceptOffset(f: Fin, r: int, td: Td, id: nat, required: bool, kind: Kind, levels: nat)
    requires Finished(f) && TdOf(f, r, td) && levels < td.ttl && WfField(f.c.sc, FOffset(id, required, kind))
    requires DenoteField(f.h, f.c.sc, f.h[r].cells, FOffset(id, required, kind), levels).Some?
    ensures VerifyOffsetField(f.c, td, id, required, kind).Ok?
    ensures ReadOffsetField(f.c, td.table, id, required, kind)
         == Got(DenoteField(f.h, f.c.sc, f.h[r].cells, FOffset(id, required, kind), levels).value)
    decreases levels, 1, 0
  {
    hide Finished, U32At, Aligned, ReadVt, ReadVtEntry, Entry, VerifyTarget, ReadTarget, Follow, FieldOf;
    EntrySeen(f, r, td, id);
    if id in f.h[r].cells {
      LinkSeen(f, r, td, id, required);
      AcceptTarget(f, td.table + Entry(f.s, VtableOf(f.s, r), id), f.h[r].cells[id].target, kind, levels, td.ttl);
    }
  }

  lemma {:induction false} AcceptTables(f: Fin, base: int, refs: seq<int>, tid: nat, levels: nat, ttl: int)
    requires Finished(f) && ElemsAt(f, base, refs) && WfKind(f.c.sc, KTable(tid)) && levels < ttl
    requires DenoteTables(f.h, f.c.sc, refs, tid, levels).Some?
    ensures VerifyTablesFrom(f.c, base, |refs|, ttl, tid).Ok?
    ensures ReadTablesFrom(f.c, base, |refs|, tid) == Got(DenoteTables(f.h, f.c.sc, refs, tid, levels).value)
    decreases levels, 3, |refs|
  {
    hide Finished, U32At, FieldOf, LinksTo, VerifyTable, Follow, ReadTable;
    BufLen(f);
    if refs != [] {
      assert FieldOf(f, base + 4 * 0, refs[0]);
      AcceptTable(f, base, refs[0], tid, levels, ttl);
      ElemsTail(f, base, refs);
      AcceptTables(f, base + 4, refs[1..], tid, levels, ttl);
    }
  }

  /** A union member, whether or not the schema knows its type. */
  lemma {:induction false} AcceptMember(f: Fin, p: int, r: int, tag: u8, members: map<u8, Kind>, levels: nat, ttl: int)
    requires Finished(f) && FieldOf(f, p, r) && WfMembers(f.c.sc, members) && levels < ttl
    requires DenoteMember(f.h, f.c.sc, r, tag, members, levels).Some?
    ensures p >= 0 && p + 4 <= |f.c.buf|
    ensures VerifyMember(f.c, p, U32At(f.c.buf, p), ttl, tag, members).Ok?
    ensures ReadMember(f.c, p, tag, members) == Got(DenoteMember(f.h, f.c.sc, r, tag, members, levels).value)
    decreases levels, 1, 0
  {
    hide U32At, Aligned, VerifyTable, ReadTable, VerifyString, ReadString;
    LowAligned(f);
    AlignedSum(f.c.addr, p);
    if tag in members {
      AcceptTarget(f, p, r, members[tag], levels, ttl);
    }
  }

  lemma {:induction false} AcceptUnion(f: Fin, r: int, td: Td, id: nat, required: bool, members: map<u8, Kind>,
      levels: nat)
    requires Finished(f) && TdOf(f, r, td) && levels < td.ttl && WfMembers(f.c.sc, members) && 1 <= id <= ID_MAX
    requires DenoteUnion(f.h, f.c.sc, f.h[r].cells, id, required, members, levels).Some?
    ensures VerifyUnionField(f.c, td, id, required, members).Ok?
    ensures ReadUnion(f.c, td.table, id, required, members)
         == Got(DenoteUnion(f.h, f.c.sc, f.h[r].cells, id, required, members, levels).value)
    decreases levels, 1, 1
  {
    hide U32At, U16At, ReadVt, ReadVtEntry, Entry, VerifyMember, ReadMember, FieldOf, Follow, Aligned, DenoteMember,
      VerifyField, CellAt;
    EntrySeen(f, r, td, id - 1);
    EntrySeen(f, r, td, id);
    var cells := f.h[r].cells;
    if id - 1 in cells {
      TagSeen(f, r, td, id - 1);
      if id in cells {
        LinkSeen(f, r, td, id, required);
        AcceptMember(f, td.table + Entry(f.s, VtableOf(f.s, r), id), cells[id].target, cells[id - 1].bytes[0], members,
                     levels, td.ttl);
      }
    }
  }

  /** The type byte of a union field. */
  lemma TagSeen(f: Fin, r: int, td: Td, id: nat)
    requires Finished(f) && TdOf(f, r, td) && id <= ID_MAX && id in f.h[r].cells
    requires f.h[r].cells[id].Raw? && |f.h[r].cells[id].bytes| == 1
    ensures ReadVtEntry(f.c, td, id) != 0 && VerifyField(f.c, td, id, false, 1, 1).Ok?
    ensures Load8(f.c, td.table + ReadVtEntry(f.c, td, id)) == Got(f.h[r].cells[id].bytes[0])
  {
    hide U32At, U16At, ReadVt, ReadVtEntry, Entry, Aligned;
    EntrySeen(f, r, td, id);
    var e := Entry(f.s, VtableOf(f.s, r), id);
    assert f.s.Slice(r + e, 1) == f.h[r].cells[id].bytes;
    assert f.c.buf[td.table + e] == f.h[r].cells[id].bytes[0];
    OneAligned(f.c.addr + td.table + e);
  }

  lemma {:induction false} AcceptElems(f: Fin, base: int, types: int, refs: seq<int>, tags: seq<u8>,
      members: map<u8, Kind>,
                                       levels: nat, ttl: int)
    requires Finished(f) && ElemsAt(f, base, refs) && WfMembers(f.c.sc, members) && levels < ttl && |refs| == |tags|
    requires 0 <= types && types + |tags| <= |f.c.buf| && f.c.buf[types..types + |tags|] == tags
    requires DenoteElems(f.h, f.c.sc, refs, tags, members, levels).Some?
    ensures VerifyUnionsFrom(f.c, base, types, |refs|, ttl, members).Ok?
    ensures ReadUnionsFrom(f.c, base, types, |refs|, members)
         == Got(DenoteElems(f.h, f.c.sc, refs, tags, members, levels).value)
    decreases levels, 2, |refs|
  {
    hide Finished, U32At, VerifyMember, ReadMember, DenoteMember;
    BufLen(f);
    if refs != [] {
      assert f.c.buf[types] == f.c.buf[types..types + |tags|][0];
      assert f.c.buf[types + 1..types + 1 + |tags[1..]|] == tags[1..];
      ElemSeen(f, base, refs);
      if refs[0] != 0 { AcceptMember(f, base, refs[0], tags[0], members, levels, ttl); }
      ElemsTail(f, base, refs);
      AcceptElems(f, base + 4, types + 1, refs[1..], tags[1..], members, levels, ttl);
    }
  }

  lemma ElemSeen(f: Fin, base: int, refs: seq<int>)
    requires Finished(f) && ElemsAt(f, base, refs) && refs != []
    ensures base + 4 <= |f.c.buf| && (U32At(f.c.buf, base) == 0 <==> refs[0] == 0)
    ensures refs[0] != 0 ==> FieldOf(f, base, refs[0])
  {
    hide U32At;
    assert refs[0] != 0 ==> FieldOf(f, base + 4 * 0, refs[0]);
    assert refs[0] == 0 ==> f.s.U32(f.s.lo + base + 4 * 0) == 0;
  }

  lemma {:induction false} AcceptUnions(f: Fin, r: int, td: Td, id: nat, required: bool, members: map<u8, Kind>,
      levels: nat)
    requires Finished(f) && TdOf(f, r, td) && levels < td.ttl && WfMembers(f.c.sc, members) && 1 <= id <= ID_MAX
    requires DenoteUnions(f.h, f.c.sc, f.h[r].cells, id, required, members, levels).Some?
    ensures VerifyUnionVectorField(f.c, td, id, required, members).Ok?
    ensures ReadUnions(f.c, td.table, id, members)
         == Got(DenoteUnions(f.h, f.c.sc, f.h[r].cells, id, required, members, levels).value)
    decreases levels, 2, 1
  {
    hide U32At, U16At, ReadVt, ReadVtEntry, Entry, Follow, VerifyVector, ReadVector, FieldOf, LinksTo, CheckHeader,
      VerifyUnionVector, ReadUnionsFrom, DenoteElems, Aligned, Finished;
    EntrySeen(f, r, td, id - 1);
    EntrySeen(f, r, td, id);
    var cells := f.h[r].cells;
    if id - 1 in cells {
      var t, l := cells[id - 1].target, cells[id].target;
      LinkSeen(f, r, td, id - 1, required);
      LinkSeen(f, r, td, id, required);
      TypesSeen(f, td.table + Entry(f.s, VtableOf(f.s, r), id - 1), t);
      AcceptUnionVector(f, td.table + Entry(f.s, VtableOf(f.s, r), id), l, t, members, levels, td.ttl);
    }
  }

  lemma {:induction false} AcceptUnionVector(f: Fin, p: int, l: int, t: int, members: map<u8, Kind>, levels: nat,
      ttl: int)
    requires Finished(f) && FieldOf(f, p, l) && WfMembers(f.c.sc, members) && 1 <= levels < ttl
    requires l in f.h && f.h[l].ORefs? && t in f.h && f.h[t].OVec?
    requires |f.h[l].refs| == |f.h[t].data| == f.h[t].count
    requires t - f.s.lo >= 0 && t - f.s.lo + 4 + f.h[t].count <= |f.c.buf|
    requires f.c.buf[t - f.s.lo + 4..t - f.s.lo + 4 + f.h[t].count] == f.h[t].data
    requires DenoteElems(f.h, f.c.sc, f.h[l].refs, f.h[t].data, members, levels - 1).Some?
    ensures p >= 0 && p + 4 <= |f.c.buf|
    ensures VerifyUnionVector(f.c, p, U32At(f.c.buf, p), f.h[t].count, t - f.s.lo + 4, ttl, members).Ok?
    ensures Follow(f.c, p) == Got(l - f.s.lo) && l - f.s.lo >= 0 && Load32(f.c, l - f.s.lo) == Got(f.h[t].count)
    ensures ReadUnionsFrom(f.c, l - f.s.lo + 4, t - f.s.lo + 4, f.h[t].count, members)
         == Got(DenoteElems(f.h, f.c.sc, f.h[l].refs, f.h[t].data, members, levels - 1).value)
    decreases levels, 2, 0
  {
    hide Finished, U32At, FieldOf, LinksTo, CheckHeader, Follow, VerifyVector, VerifyUnionsFrom, ReadUnionsFrom,
      DenoteElems;
    BufLen(f);
    AcceptRefs(f, p, l);
    ElemsOf(f, l);
    AcceptElems(f, l - f.s.lo + 4, t - f.s.lo + 4, f.h[l].refs, f.h[t].data, members, levels - 1, ttl - 1);
  }

  lemma TypesSeen(f: Fin, q: int, t: int)
    requires Finished(f) && FieldOf(f, q, t) && t in f.h && f.h[t].OVec? && f.h[t].elem == 1
    ensures q >= 0 && q + 4 <= |f.c.buf| && VerifyVector(f.c, q, U32At(f.c.buf, q), 1, 1).Ok?
    ensures Follow(f.c, q) == Got(t - f.s.lo) && t - f.s.lo == Wrap32(q + U32At(f.c.buf, q))
    ensures ReadVector(f.c, t - f.s.lo, 1, 1) == Got(Vec(f.h[t].count, f.h[t].data))
    ensures Load32(f.c, t - f.s.lo) == Got(f.h[t].count)
    ensures t - f.s.lo + 4 + f.h[t].count <= |f.c.buf|
    ensures U32At(f.c.buf, t - f.s.lo) == f.h[t].count
    ensures f.c.buf[t - f.s.lo + 4..t - f.s.lo + 4 + f.h[t].count] == f.h[t].data
  {
    hide U32At, CheckHeader, Follow, Aligned;
    FollowsTo(f, q, t);
    assert ObjAt(f.s, t, f.h[t]) && VecAt(f.s, t, 1, f.h[t].align, f.h[t].count, f.h[t].data);
    assert Aligned(t - f.s.lo + 4, 1) by { OneAligned(t - f.s.lo + 4); }
    assert Aligned(f.c.addr + (t - f.s.lo) + 4, 1) by { OneAligned(f.c.addr + (t - f.s.lo) + 4); }
    CountWithinMax(f.h[t].count, 1);
  }

  lemma OneAligned(x: int)
    ensures Aligned(x, 1)
  {}

  // ---- roots -----------------------------------------------------------------------------------

  /** The object a finished buffer's first field leads to is accepted as its root, and reads back as
      the value its creating calls describe. */
  lemma AcceptRoot(f: Fin, r: int, tid: nat, levels: nat)
    requires Finished(f) && FieldOf(f, 0, r) && WfKind(f.c.sc, KTable(tid)) && levels < MAX_LEVELS
    requires Denote(f.h, f.c.sc, r, KTable(tid), levels).Some?
    ensures VerifyTableAsRoot(f.c, tid).Ok?
    ensures ReadRoot(f.c, tid) == Got(Denote(f.h, f.c.sc, r, KTable(tid), levels).value)
  {
    hide U32At, Aligned;
    LowAligned(f);
    FollowsTo(f, 0, r);
    AcceptTable(f, 0, r, tid, levels, MAX_LEVELS);
  }
}
