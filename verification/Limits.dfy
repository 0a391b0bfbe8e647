/** Where what the verifier accepts is not safe to read: for every field that is not readable there are
    bytes that are accepted and whose reading faults. */
module Limits {
  import opened Bytes
  import opened Schema
  import opened Verifier
  import opened Reader
  import opened Soundness

  predicate Required(f: Field) { !f.FScalar? && f.required }

  // ---- a table of one field ----------------------------------------------------------------------

  /** Where the table lies: behind the root offset and a vtable up to entry id. */
  function TableAt(id: nat): (t: nat)
    ensures t % 4 == 0 && 2 * id + 10 <= t <= 2 * id + 12
  {
    2 * id + (if id % 2 == 0 then 12 else 10)
  }

  /** A root table whose vtable has one entry that is not zero, for field id. */
  function OneEntry(id: nat, entry: nat, tsize: nat, tail: seq<u8>): (b: seq<u8>)
    requires id <= ID_MAX && entry < TWO_16 && tsize < TWO_16
    ensures |b| == TableAt(id) + 4 + |tail|
  {
    U32Bytes(TableAt(id)) + U16Bytes(2 * (id + 3)) + U16Bytes(tsize) + Zeros(2 * id) + U16Bytes(entry)
    + Zeros(TableAt(id) - (2 * id + 10)) + U32Bytes(TableAt(id) - 4) + tail
  }

  lemma OneEntryBytes(id: nat, entry: nat, tsize: nat, tail: seq<u8>)
    requires id <= ID_MAX && entry < TWO_16 && tsize < TWO_16
    ensures var b, t := OneEntry(id, entry, tsize, tail), TableAt(id);
            && |b| == t + 4 + |tail| && b[t + 4..] == tail
            && U32At(b, 0) == t && U16At(b, 4) == 2 * (id + 3) && U16At(b, 6) == tsize
            && U16At(b, 8 + 2 * id) == entry && U32At(b, t) == t - 4
            && forall k | 8 <= k < 8 + 2 * id :: b[k] == 0
  {
    hide U32Bytes, U16Bytes, U32At, U16At;
    var b, t := OneEntry(id, entry, tsize, tail), TableAt(id);
    assert b[0..4] == U32Bytes(t) && b[4..6] == U16Bytes(2 * (id + 3)) && b[6..8] == U16Bytes(tsize);
    assert b[8 + 2 * id..10 + 2 * id] == U16Bytes(entry) && b[t..t + 4] == U32Bytes(t - 4);
    U32RoundTrip(t, b, 0);
    U16RoundTrip(2 * (id + 3), b, 4);
    U16RoundTrip(tsize, b, 6);
    U16RoundTrip(entry, b, 8 + 2 * id);
    U32RoundTrip(t - 4, b, t);
  }

  function Desc(id: nat, tsize: nat): Td { Td(MAX_LEVELS - 1, 4, TableAt(id), tsize, 2 * (id + 3)) }

  /** c holds such a table, at an address the header check accepts. */
  ghost predicate Holds(c: Ctx, id: nat, entry: nat, tsize: nat, tail: seq<u8>) {
    && WfSchema(c.sc) && c.addr % 4 == 0 && id <= ID_MAX && entry < TWO_16 && tsize < TWO_16
    && tsize <= 4 + |tail| < TWO_31 && c.buf == OneEntry(id, entry, tsize, tail)
  }

  lemma HeaderSeen(c: Ctx, id: nat, entry: nat, tsize: nat, tail: seq<u8>)
    requires Holds(c, id, entry, tsize, tail)
    ensures U32At(c.buf, 0) == TableAt(id) && |c.buf| == TableAt(id) + 4 + |tail|
    ensures VerifyTableHeader(c, 0, TableAt(id), MAX_LEVELS) == GoodTd(Desc(id, tsize))
    ensures VerifyBufferHeader(c).Ok? && Follow(c, 0) == Got(TableAt(id)) && Base(c) && Header(c, Desc(id, tsize))
  {
    hide U32At, U16At, OneEntry, Wrap32, WfSchema;
    OneEntryBytes(id, entry, tsize, tail);
    var t := TableAt(id);
    assert Wrap32(0 + t) == t && Wrap32(t - (t - 4)) == 4 by { SmallWraps(t); }
  }

  lemma SmallWraps(t: nat)
    requires t < TWO_32
    ensures Wrap32(0 + t) == t && Wrap32(t - (t - 4)) == 4
  {}

  lemma EntrySeen(c: Ctx, id: nat, entry: nat, tsize: nat, tail: seq<u8>, k: nat)
    requires Holds(c, id, entry, tsize, tail) && k <= ID_MAX
    ensures Base(c) && Header(c, Desc(id, tsize))
    ensures ReadVtEntry(c, Desc(id, tsize), k) == if k == id then entry else 0
    ensures ReadVt(c, TableAt(id), k) == Got(if k == id then entry else 0)
  {
    hide Holds, U32At, OneEntry, Wrap32, WfSchema, ReadVt, Base;
    HoldsMeans(c, id, entry, tsize, tail);
    HeaderSeen(c, id, entry, tsize, tail);
    OneEntryBytes(id, entry, tsize, tail);
    VtableTestsAgree(c, Desc(id, tsize), k);
    EvenBound(k, 2 * (id + 3));
  }

  lemma HoldsMeans(c: Ctx, id: nat, entry: nat, tsize: nat, tail: seq<u8>)
    requires Holds(c, id, entry, tsize, tail)
    ensures id <= ID_MAX && entry < TWO_16 && tsize < TWO_16 && c.buf == OneEntry(id, entry, tsize, tail)
        && WfSchema(c.sc)
  {}

  // ---- the other fields --------------------------------------------------------------------------

  /** A field that is not required and has no entries is accepted. */
  lemma AbsentAccepted(c: Ctx, td: Td, f: Field)
    requires WfSchema(c.sc) && WfField(c.sc, f) && TdOk(c, td) && !Required(f)
    requires forall k | Owns(f, k) :: ReadVtEntry(c, td, k) == 0
    ensures VerifyOneField(c, td, f).Ok?
  {
    hide ReadVtEntry, WfSchema;
    assert Owns(f, f.id);
    if f.FUnion? || f.FUnions? { assert Owns(f, f.id - 1); }
  }

  lemma {:induction false} EachAccepted(c: Ctx, td: Td, fields: seq<Field>)
    requires WfSchema(c.sc) && TdOk(c, td)
    requires forall i | 0 <= i < |fields| :: WfField(c.sc, fields[i]) && VerifyOneField(c, td, fields[i]).Ok?
    ensures VerifyFields(c, td, fields).Ok?
    decreases |fields|
  {
    hide VerifyOneField;
    if fields != [] { EachAccepted(c, td, fields[1..]); }
  }

  lemma {:induction false} OneFaults(c: Ctx, t: nat, fields: seq<Field>, i: nat)
    requires WfSchema(c.sc) && (forall k | 0 <= k < |fields| :: WfField(c.sc, fields[k])) && t < |c.buf| && i < |fields|
    requires ReadField(c, t, fields[i]).Fault?
    ensures ReadFields(c, t, fields).Fault?
    decreases |fields|
  {
    hide ReadField;
    if i > 0 { OneFaults(c, t, fields[1..], i - 1); }
  }

  // ---- a field that is not readable --------------------------------------------------------------

  /** A multiple of the alignment behind table and offset field, for the first element of a vector. */
  function ElementAt(t: nat, a: nat): (p: nat)
    requires a >= 8
    ensures t + 12 <= p < t + 12 + a
  {
    (t + 11 + a) / a * a
  }

  /** Behind a table: its offset field, leading to a vector of one element. */
  function VectorTail(t: nat, elem: nat, a: nat): (s: seq<u8>)
    requires 8 <= a < TWO_16
    ensures |s| == ElementAt(t, a) + elem - (t + 4)
  {
    var p := ElementAt(t, a);
    U32Bytes(p - 4 - (t + 4)) + Zeros(p - 4 - (t + 8)) + [1, 0, 0, 0] + Zeros(elem)
  }

  /** Bytes that hold nothing but the field: a vector of one element, values without types, or the type
      NONE. */
  function Unsafe(f: Field): seq<u8>
    requires f.id <= ID_MAX && (f.FOffset? && f.kind.KVec? ==> 8 <= f.kind.align < TWO_16)
  {
    match f
    case FOffset(id, _, KVec(elem, align)) => OneEntry(id, 4, 8, VectorTail(TableAt(id), elem, align))
    case FUnion(id, _, _) => if id == 0 then [] else OneEntry(id - 1, 4, 5, [0])
    case FUnions(id, _, _) => OneEntry(id, 0xFFFF, 4, [])
    case _ => []
  }

  /** The field passes the verifier, and its accessors return or not. */
  ghost predicate Outcome(c: Ctx, td: Td, f: Field, got: bool) {
    && WfSchema(c.sc) && WfField(c.sc, f) && TdOk(c, td) && td.table < |c.buf|
    && VerifyOneField(c, td, f).Ok? && (ReadField(c, td.table, f).Got? <==> got)
  }

  /** Values without types: accepted unseen, and followed by the accessor to where the entry says. */
  lemma ValuesAlone(c: Ctx, id: nat, members: map<u8, Kind>)
    requires Holds(c, id, 0xFFFF, 4, []) && 1 <= id && WfMembers(c.sc, members)
    ensures Outcome(c, Desc(id, 4), FUnions(id, false, members), false)
  {
    hide Holds, U32At, OneEntry, WfSchema, ReadVt, ReadVtEntry;
    HoldsMeans(c, id, 0xFFFF, 4, []);
    HeaderSeen(c, id, 0xFFFF, 4, []);
    EntrySeen(c, id, 0xFFFF, 4, [], id - 1);
    EntrySeen(c, id, 0xFFFF, 4, [], id);
    assert VerifyUnionVectorField(c, Desc(id, 4), id, false, members).Ok?;
    assert VerifyOneField(c, Desc(id, 4), FUnions(id, false, members)).Ok?;
    assert ReadField(c, TableAt(id), FUnions(id, false, members)) == ReadUnions(c, TableAt(id), id, members) == Fault;
  }

  /** A required union of type NONE: accepted without a value, which the accessor asserts. */
  lemma RequiredNone(c: Ctx, id: nat, members: map<u8, Kind>)
    requires 1 <= id <= ID_MAX && Holds(c, id - 1, 4, 5, [0]) && WfMembers(c.sc, members)
    ensures Outcome(c, Desc(id - 1, 5), FUnion(id, true, members), false)
  {
    hide Holds, U32At, OneEntry, WfSchema, ReadVt, ReadVtEntry, Aligned;
    HoldsMeans(c, id - 1, 4, 5, [0]);
    HeaderSeen(c, id - 1, 4, 5, [0]);
    EntrySeen(c, id - 1, 4, 5, [0], id - 1);
    EntrySeen(c, id - 1, 4, 5, [0], id);
    OneEntryBytes(id - 1, 4, 5, [0]);
    var t := TableAt(id - 1);
    assert c.buf[t + 4] == c.buf[t + 4..][0] == 0;
    assert Aligned(c.addr + t + 4, 1) by { AlignedToOne(c.addr + t + 4); }
    assert VerifyUnionField(c, Desc(id - 1, 5), id, true, members).Ok?;
    assert VerifyOneField(c, Desc(id - 1, 5), FUnion(id, true, members)).Ok?;
    assert ReadField(c, t, FUnion(id, true, members)) == ReadUnion(c, t, id, true, members) == Fault;
  }

  lemma AlignedToOne(x: int)
    ensures Aligned(x, 1)
  {}

  lemma ElementAligned(t: nat, a: nat)
    requires t % 4 == 0 && IsPow2(a) && a >= 8
    ensures Aligned(ElementAt(t, a), a) && ElementAt(t, a) % 4 == 0
  {
    hide Aligned, IsPow2;
    MultipleIsAligned((t + 11 + a) / a, a);
    assert Aligned(ElementAt(t, a), a) by { AlignedMultiple((t + 11 + a) / a, a); }
    AlignedTo4(ElementAt(t, a), a);
  }

  lemma AlignedMultiple(q: int, a: int)
    requires a >= 1 && (q * a) % a == 0
    ensures Aligned(q * a, a)
  {}

  lemma TailSeen(c: Ctx, id: nat, elem: nat, a: nat)
    requires 8 <= a < TWO_16 && elem < TWO_16 && Holds(c, id, 4, 8, VectorTail(TableAt(id), elem, a))
    ensures var t, p := TableAt(id), ElementAt(TableAt(id), a);
            && |c.buf| == p + elem && U32At(c.buf, t + 4) == p - 4 - (t + 4) && U32At(c.buf, p - 4) == 1
  {
    hide U32Bytes, OneEntry, ElementAt;
    var t, p, tail := TableAt(id), ElementAt(TableAt(id), a), VectorTail(TableAt(id), elem, a);
    OneEntryBytes(id, 4, 8, tail);
    assert c.buf[t + 4..][0..4] == U32Bytes(p - 4 - (t + 4)) && c.buf[t + 4..t + 8] == c.buf[t + 4..][0..4];
    U32RoundTrip(p - 4 - (t + 4), c.buf, t + 4);
    assert forall k | 0 <= k < |tail| :: c.buf[t + 4 + k] == c.buf[t + 4..][k] == tail[k];
    assert c.buf[p - 4] == tail[p - 4 - (t + 4)] == 1;
    assert c.buf[p - 3] == tail[p - 3 - (t + 4)] == 0 && c.buf[p - 2] == tail[p - 2 - (t + 4)] == 0;
    assert c.buf[p - 1] == tail[p - 1 - (t + 4)] == 0;
  }

  lemma EntryPlace(c: Ctx, td: Td, id: nat, entry: nat, required: bool)
    requires TdOk(c, td) && ReadVtEntry(c, td, id) == entry && (required ==> entry != 0)
    requires entry + 4 <= td.tsize && (td.table + entry) % 4 == 0
    ensures GetOffsetField(c, td, id, required) == Pos(if entry == 0 then 0 else td.table + entry)
  {
    hide TdOk, ReadVtEntry;
  }

  lemma OffsetOutcome(c: Ctx, td: Td, id: nat, required: bool, kind: Kind, off: nat, k: nat)
    requires WfSchema(c.sc) && WfKind(c.sc, kind) && TdOk(c, td) && td.table < |c.buf| && 0 < off && id <= ID_MAX
    requires GetOffsetField(c, td, id, required) == Pos(td.table + off) && td.table + off <= |c.buf|
    requires VerifyTarget(c, td.table + off, U32At(c.buf, td.table + off), td.ttl, kind).Ok?
    requires ReadVt(c, td.table, id) == Got(off) && Follow(c, td.table + off) == Got(k)
    ensures Outcome(c, td, FOffset(id, required, kind), ReadTarget(c, k, kind).Got?)
  {
    hide U32At, WfSchema, GetOffsetField, VerifyTarget, ReadVt, Follow, ReadTarget, TdOk;
    assert VerifyOffsetField(c, td, id, required, kind).Ok?;
    assert ReadOffsetField(c, td.table, id, required, kind) == ReadTarget(c, k, kind);
  }

  /** A vector of one element: accepted, and readable exactly where its alignment is met. */
  lemma OneElement(c: Ctx, id: nat, required: bool, elem: nat, a: nat)
    requires IsPow2(a) && 8 <= a < TWO_16 && elem < TWO_16 && Holds(c, id, 4, 8, VectorTail(TableAt(id), elem, a))
    ensures Outcome(c, Desc(id, 8), FOffset(id, required, KVec(elem, a)), Aligned(c.addr, a))
  {
    hide Holds, U32At, OneEntry, WfSchema, ReadVt, ReadVtEntry, Aligned, IsPow2, ElementAt, VectorTail, VerifyVector,
         ReadVector, Follow, GetOffsetField, Outcome;
    var t, p := TableAt(id), ElementAt(TableAt(id), a);
    HoldsMeans(c, id, 4, 8, VectorTail(t, elem, a));
    HeaderSeen(c, id, 4, 8, VectorTail(t, elem, a));
    EntrySeen(c, id, 4, 8, VectorTail(t, elem, a), id);
    ElementAligned(t, a);
    TailSeen(c, id, elem, a);
    VectorSeen(c, t + 4, p, elem, a);
    EntryPlace(c, Desc(id, 8), id, 4, required);
    OffsetOutcome(c, Desc(id, 8), id, required, KVec(elem, a), 4, p - 4);
  }

  lemma VectorSeen(c: Ctx, f: nat, p: nat, elem: nat, a: nat)
    requires a >= 8 && elem < TWO_16 && c.addr % 4 == 0 && f % 4 == 0 && p % 4 == 0 && f + 8 <= p && Aligned(p, a)
    requires |c.buf| == p + elem < TWO_32 && U32At(c.buf, f) == p - 4 - f && U32At(c.buf, p - 4) == 1
    ensures VerifyVector(c, f, p - 4 - f, elem, a).Ok? && Follow(c, f) == Got(p - 4)
    ensures ReadVector(c, p - 4, elem, a).Got? <==> Aligned(c.addr, a)
  {
    hide U32At, Aligned, Wrap32;
    SumAligned(p, c.addr, a);
    assert c.addr + (p - 4) + 4 == p + c.addr && p - 4 + 4 == p;
    assert Wrap32(f + (p - 4 - f)) == p - 4 && Wrap32(1 * elem) == elem by { Unwrapped(f, p, elem); }
    assert 1 <= CountMax(elem);
    AlignedSum(c.addr, f);
    AlignedSum(c.addr, p - 4);
  }

  lemma Unwrapped(f: nat, p: nat, elem: nat)
    requires 4 <= p < TWO_32 && elem < TWO_16
    ensures Wrap32(f + (p - 4 - f)) == p - 4 && Wrap32(1 * elem) == elem
  {}

  /** An offset field and, behind it, the vector it leads to, of one type. */
  const ONE_TYPE: seq<u8> := [4, 0, 0, 0, 1, 0, 0, 0, 0]

  /** Types without values: accepted, though their numbers differ, which the accessor asserts they do not. */
  lemma TypesAlone(c: Ctx, id: nat, members: map<u8, Kind>)
    requires 1 <= id <= ID_MAX && Holds(c, id - 1, 4, 8, ONE_TYPE) && WfMembers(c.sc, members)
    ensures Outcome(c, Desc(id - 1, 8), FUnions(id, false, members), false)
  {
    hide Holds, U32At, OneEntry, WfSchema, WfMembers, ReadVt, ReadVtEntry, VerifyVector, Aligned, GetOffsetField,
         Outcome, Follow, Load32, VerifyTableHeader, VerifyBufferHeader, U16At, Wrap32, IsPow2;
    var tail := ONE_TYPE;
    var t := TableAt(id - 1);
    HoldsMeans(c, id - 1, 4, 8, tail);
    HeaderSeen(c, id - 1, 4, 8, tail);
    EntrySeen(c, id - 1, 4, 8, tail, id - 1);
    EntrySeen(c, id - 1, 4, 8, tail, id);
    OneEntryBytes(id - 1, 4, 8, tail);
    OneType(c, t);
    EntryPlace(c, Desc(id - 1, 8), id - 1, 4, false);
    EntryPlace(c, Desc(id - 1, 8), id, 0, false);
    TypesOutcome(c, Desc(id - 1, 8), id, members);
  }

  lemma TypesOutcome(c: Ctx, td: Td, id: nat, members: map<u8, Kind>)
    requires WfSchema(c.sc) && WfMembers(c.sc, members) && TdOk(c, td) && td.table < |c.buf| && 1 <= id <= ID_MAX
    requires ReadVtEntry(c, td, id - 1) == 4 && ReadVtEntry(c, td, id) == 0
    requires GetOffsetField(c, td, id - 1, false) == Pos(td.table + 4) && td.table + 8 <= |c.buf|
    requires GetOffsetField(c, td, id, false) == Pos(0)
    requires U32At(c.buf, td.table + 4) == 4 && VerifyVector(c, td.table + 4, 4, 1, 1).Ok?
    requires ReadVt(c, td.table, id - 1) == Got(4) && ReadVt(c, td.table, id) == Got(0)
    requires Follow(c, td.table + 4) == Got(td.table + 8) && Load32(c, td.table + 8) == Got(1)
    ensures Outcome(c, td, FUnions(id, false, members), false)
  {
    hide U32At, WfSchema, WfMembers, GetOffsetField, VerifyVector, ReadVt, ReadVtEntry, Follow, TdOk, Load32;
    assert VerifyUnionVectorField(c, td, id, false, members).Ok?;
    assert ReadUnions(c, td.table, id, members) == Fault;
  }

  lemma OneType(c: Ctx, t: nat)
    requires c.addr % 4 == 0 && t % 4 == 0 && |c.buf| == t + 13 < TWO_32 && c.buf[t + 4..] == ONE_TYPE
    ensures U32At(c.buf, t + 4) == 4 && VerifyVector(c, t + 4, 4, 1, 1).Ok?
    ensures Follow(c, t + 4) == Got(t + 8) && Load32(c, t + 8) == Got(1)
  {
    var tail := c.buf[t + 4..];
    assert c.buf[t + 4] == tail[0] && c.buf[t + 5] == tail[1] && c.buf[t + 6] == tail[2] && c.buf[t + 7] == tail[3];
    assert c.buf[t + 8] == tail[4] && c.buf[t + 9] == tail[5] && c.buf[t + 10] == tail[6] && c.buf[t + 11] == tail[7];
    AlignedSum(c.addr, t + 4);
    AlignedSum(c.addr, t + 8);
  }

  // ---- exactly where it is safe ------------------------------------------------------------------

  /** No other field of the table has to be there. */
  predicate Alone(fields: seq<Field>, i: nat) {
    i < |fields| && forall j | 0 <= j < |fields| && j != i :: !Required(fields[j])
  }

  /** The entry of field i is the only one: whatever that field does the whole table does. */
  lemma TableOf(c: Ctx, id: nat, entry: nat, tsize: nat, tail: seq<u8>, tid: nat, i: nat)
    requires Holds(c, id, entry, tsize, tail) && Sound(c.sc) && tid < |c.sc.tables|
    requires Alone(c.sc.tables[tid], i) && Owns(c.sc.tables[tid][i], id)
    requires Outcome(c, Desc(id, tsize), c.sc.tables[tid][i], false)
    ensures VerifyTableAsRoot(c, tid).Ok? && ReadRoot(c, tid) == Fault
  {
    hide Holds, WfField, Owns, VerifyOneField, ReadField, VerifyTableHeader, VerifyBufferHeader, Follow, Required,
         ReadVtEntry, U32At;
    var fields, td := c.sc.tables[tid], Desc(id, tsize);
    HeaderSeen(c, id, entry, tsize, tail);
    SoundFields(c.sc, tid);
    forall j | 0 <= j < |fields| ensures VerifyOneField(c, td, fields[j]).Ok? {
      if j != i {
        forall k | Owns(fields[j], k) ensures ReadVtEntry(c, td, k) == 0 {
          OwnedIds(c.sc, fields[j], k);
          Apart(fields, i, j, id);
          EntrySeen(c, id, entry, tsize, tail, k);
        }
        AbsentAccepted(c, td, fields[j]);
      }
    }
    EachAccepted(c, td, fields);
    OneFaults(c, TableAt(id), fields, i);
    assert VerifyTable(c, 0, TableAt(id), MAX_LEVELS, tid) == VerifyFields(c, td, fields);
    assert ReadTable(c, TableAt(id), tid) == Fault;
  }

  lemma SoundFields(sc: Schema, tid: nat)
    requires Sound(sc) && tid < |sc.tables|
    ensures WfSchema(sc) && Separate(sc.tables[tid])
        && forall j | 0 <= j < |sc.tables[tid]| :: WfField(sc, sc.tables[tid][j])
  {}

  lemma OwnedIds(sc: Schema, f: Field, k: nat)
    requires WfField(sc, f) && Owns(f, k)
    ensures k <= ID_MAX
  {}

  lemma Apart(fields: seq<Field>, i: nat, j: nat, id: nat)
    requires Separate(fields) && i < |fields| && j < |fields| && i != j && Owns(fields[i], id)
    ensures !Owns(fields[j], id)
  {
    if i < j { Ordered(fields, i, j, id); } else { Ordered(fields, j, i, id); }
  }

  lemma Ordered(fields: seq<Field>, i: nat, j: nat, id: nat)
    requires Separate(fields) && i < j < |fields|
    ensures !(Owns(fields[i], id) && Owns(fields[j], id))
  {
    hide Owns;
  }

  /** Whatever the schema: a field of the root table that is not readable makes the bytes that hold it
      alone accepted and unsafe to read. */
  lemma UnsafeAccepted(sc: Schema, tid: nat, i: nat, addr: nat)
    requires Sound(sc) && tid < |sc.tables| && Alone(sc.tables[tid], i) && addr % 4 == 0
    requires !Readable(sc.tables[tid][i], addr)
    ensures var f := sc.tables[tid][i]; f.id <= ID_MAX && (f.FOffset? && f.kind.KVec? ==> 8 <= f.kind.align < TWO_16)
    ensures var c := Ctx(Unsafe(sc.tables[tid][i]), addr, sc);
            VerifyTableAsRoot(c, tid).Ok? && ReadRoot(c, tid) == Fault
  {
    hide WfSchema, WfMembers, Sound, Alone, VerifyTableAsRoot, ReadRoot, Outcome, OneEntry, VectorTail, IsPow2, Aligned;
    SoundFields(sc, tid);
    assert i < |sc.tables[tid]| by { AloneMeans(sc.tables[tid], i); }
    var f := sc.tables[tid][i];
    match f
    case FOffset(id, required, KVec(elem, a)) =>
      ZeroAligned(a);
      Between4And8(addr, a);
      var c := Ctx(Unsafe(f), addr, sc);
      OneElement(c, id, required, elem, a);
      TableOf(c, id, 4, 8, VectorTail(TableAt(id), elem, a), tid, i);
    case FUnion(id, _, members) =>
      var c := Ctx(Unsafe(f), addr, sc);
      RequiredNone(c, id, members);
      TableOf(c, id - 1, 4, 5, [0], tid, i);
    case FUnions(id, _, members) =>
      var c := Ctx(Unsafe(f), addr, sc);
      ValuesAlone(c, id, members);
      TableOf(c, id, 0xFFFF, 4, [], tid, i);
    case _ =>
  }

  lemma AloneMeans(fields: seq<Field>, i: nat)
    requires Alone(fields, i)
    ensures i < |fields|
  {}

  lemma Between4And8(addr: nat, a: nat)
    requires addr % 4 == 0 && IsPow2(a) && a >= 1 && !Aligned(addr, a)
    ensures a >= 8
  {
    if a != 1 && a != 2 && a != 4 { assert a >= 8 by { if a / 2 != 1 { assert IsPow2(a / 2 / 2); } } }
  }

  /** A schema whose tables require no field beside one that is not readable: everything accepted at an
      address can be read, whatever table type is the root, if and only if every field is readable there. */
  lemma SafeExactly(sc: Schema, addr: nat)
    requires Sound(sc) && addr % 4 == 0
    requires forall t, i | 0 <= t < |sc.tables| && 0 <= i < |sc.tables[t]| && !Readable(sc.tables[t][i], addr) ::
               Alone(sc.tables[t], i)
    ensures AllReadable(sc, addr) <==>
            forall buf, tid: nat | tid < |sc.tables| && VerifyTableAsRoot(Ctx(buf, addr, sc), tid).Ok? ::
              ReadRoot(Ctx(buf, addr, sc), tid).Got?
  {
    hide VerifyTableAsRoot, ReadRoot, Readable, Alone, Unsafe;
    if AllReadable(sc, addr) {
      forall buf, tid: nat | tid < |sc.tables| && VerifyTableAsRoot(Ctx(buf, addr, sc), tid).Ok?
        ensures ReadRoot(Ctx(buf, addr, sc), tid).Got?
      {
        AcceptedIsSafeToRead(Ctx(buf, addr, sc), tid);
      }
    } else {
      var t, i :| 0 <= t < |sc.tables| && 0 <= i < |sc.tables[t]| && !Readable(sc.tables[t][i], addr);
      UnsafeAccepted(sc, t, i, addr);
    }
  }

  /** No vector the schema names has a larger alignment than a. */
  predicate VectorsWithin(sc: Schema, a: nat) {
    forall t, i | 0 <= t < |sc.tables| && 0 <= i < |sc.tables[t]| ::
      sc.tables[t][i].FOffset? && sc.tables[t][i].kind.KVec? ==> sc.tables[t][i].kind.align <= a
  }

  /** Every union vector is required, and no union is. */
  predicate Guarded(sc: Schema) {
    forall t, i | 0 <= t < |sc.tables| && 0 <= i < |sc.tables[t]| ::
      (sc.tables[t][i].FUnions? ==> sc.tables[t][i].required) && (sc.tables[t][i].FUnion? ==> !sc.tables[t][i].required)
  }

  /** The addresses at which everything accepted can be read, of all guarded schemas whose vectors are
      aligned to at most a: exactly the multiples of a. */
  lemma SafeAddresses(addr: nat, a: nat)
    requires addr % 4 == 0 && IsPow2(a) && 4 <= a < TWO_16
    ensures Aligned(addr, a) <==>
            forall buf, sc, tid: nat | WfSchema(sc) && tid < |sc.tables| && VectorsWithin(sc, a) && Guarded(sc)
                                       && VerifyTableAsRoot(Ctx(buf, addr, sc), tid).Ok? ::
              ReadRoot(Ctx(buf, addr, sc), tid).Got?
  {
    hide IsPow2, Aligned, VerifyTableAsRoot, ReadRoot, WfSchema, AllReadable, VectorsWithin, Guarded, Unsafe;
    if Aligned(addr, a) {
      forall buf, sc, tid: nat | WfSchema(sc) && tid < |sc.tables| && VectorsWithin(sc, a) && Guarded(sc)
                                 && VerifyTableAsRoot(Ctx(buf, addr, sc), tid).Ok?
        ensures ReadRoot(Ctx(buf, addr, sc), tid).Got?
      {
        GuardedReadable(sc, addr, a);
        AcceptedIsSafeToRead(Ctx(buf, addr, sc), tid);
      }
    } else {
      var sc := Schema([[FOffset(0, false, KVec(1, a))]]);
      OneVector(addr, 1, a);
      UnsafeAccepted(sc, 0, 0, addr);
    }
  }

  lemma OneVector(addr: nat, elem: nat, a: nat)
    requires elem < TWO_16 && IsPow2(a) && 4 <= a < TWO_16 && !Aligned(addr, a)
    ensures var sc := Schema([[FOffset(0, false, KVec(elem, a))]]);
            && Sound(sc) && WfSchema(sc) && VectorsWithin(sc, a) && Guarded(sc) && |sc.tables| == 1
            && Alone(sc.tables[0], 0) && !Readable(sc.tables[0][0], addr)
  {
    hide IsPow2, Aligned;
    var sc := Schema([[FOffset(0, false, KVec(elem, a))]]);
    assert sc.tables[0] == [FOffset(0, false, KVec(elem, a))];
  }

  lemma GuardedReadable(sc: Schema, addr: nat, a: nat)
    requires WfSchema(sc) && VectorsWithin(sc, a) && Guarded(sc) && IsPow2(a) && a >= 1 && Aligned(addr, a)
    ensures AllReadable(sc, addr)
  {
    hide IsPow2, Aligned;
    forall t, i | 0 <= t < |sc.tables| && 0 <= i < |sc.tables[t]| ensures Readable(sc.tables[t][i], addr) {
      var f := sc.tables[t][i];
      assert WfField(sc, f);
      if f.FOffset? && f.kind.KVec? {
        ZeroAligned(f.kind.align);
        AlignedDifference(0, addr, f.kind.align, a);
        assert 0 + addr == addr;
      }
    }
  }

  // ---- three inputs --------------------------------------------------------------------------------

  /** A vector of one 8-byte element in 32 bytes at address 4: accepted, and its element at address 28. */
  lemma AcceptedAt4()
    ensures var c := Ctx(OneEntry(0, 4, 8, [4, 0, 0, 0, 1, 0, 0, 0] + Zeros(8)), 4,
        Schema([[FOffset(0, false, KVec(8, 8))]]));
            |c.buf| == 32 && WfSchema(c.sc) && |c.sc.tables| == 1 && VerifyTableAsRoot(c, 0).Ok?
                && ReadRoot(c, 0) == Fault
  {
    hide IsPow2;
    assert IsPow2(8) && !Aligned(4, 8) by { EightBytes(); }
    OneVector(4, 8, 8);
    TailAt12();
    UnsafeAccepted(Schema([[FOffset(0, false, KVec(8, 8))]]), 0, 0, 4);
  }

  lemma EightBytes()
    ensures IsPow2(8) && !Aligned(4, 8)
  {
    assert IsPow2(4) by { assert IsPow2(2); }
  }

  lemma TailAt12()
    ensures TableAt(0) == 12 && VectorTail(12, 8, 8) == [4, 0, 0, 0, 1, 0, 0, 0] + Zeros(8)
  {
    assert ElementAt(12, 8) == 24;
  }

  /** Sixteen bytes with values but no types, at any address: accepted, and the accessor loads four bytes
      at position 65547. */
  lemma AcceptedWithoutTypes(addr: nat)
    requires addr % 4 == 0
    ensures var c := Ctx([12, 0, 0, 0, 8, 0, 4, 0, 0, 0, 255, 255, 8, 0, 0, 0], addr,
        Schema([[FUnions(1, false, map[])]]));
            WfSchema(c.sc) && |c.sc.tables| == 1 && VerifyTableAsRoot(c, 0).Ok? && ReadVt(c, 12, 1) == Got(0xFFFF)
                && ReadRoot(c, 0) == Fault
  {
    var f := FUnions(1, false, map[]);
    var sc := Schema([[f]]);
    var buf: seq<u8> := [12, 0, 0, 0, 8, 0, 4, 0, 0, 0, 255, 255, 8, 0, 0, 0];
    assert sc.tables[0] == [f] && Sound(sc);
    assert Unsafe(f) == OneEntry(1, 0xFFFF, 4, []) == buf;
    UnsafeAccepted(sc, 0, 0, addr);
    EntrySeen(Ctx(buf, addr, sc), 1, 0xFFFF, 4, [], 1);
  }

  /** One type and no value: accepted, and the accessor's assertion on the lengths fails. */
  lemma AcceptedWithoutValues(addr: nat)
    requires addr % 4 == 0
    ensures var c := Ctx(OneEntry(0, 4, 8, ONE_TYPE), addr, Schema([[FUnions(1, false, map[])]]));
            WfSchema(c.sc) && |c.sc.tables| == 1 && VerifyTableAsRoot(c, 0).Ok? && ReadRoot(c, 0) == Fault
  {
    var f := FUnions(1, false, map[]);
    var c := Ctx(OneEntry(0, 4, 8, ONE_TYPE), addr, Schema([[f]]));
    assert c.sc.tables[0] == [f] && Sound(c.sc);
    TypesAlone(c, 1, map[]);
    TableOf(c, 0, 4, 8, ONE_TYPE, 0, 0);
  }
}
