/** What the verifier accepts, a full reader walk can touch: no load of the walk faults. */
module Soundness {
  import opened Bytes
  import opened Schema
  import opened Verifier
  import opened Reader

  /** A field whose accessors are safe on whatever the verifier accepts at this address. Of scalar vectors
      the verifier looks at the position in the buffer, not in memory; of a union vector without types it
      does not look at the values, nor does it want as many values as types; and it lets a required union
      be of type NONE. */
  predicate Readable(f: Field, addr: nat) {
    match f
    case FScalar(_, _, _, _, _) => true
    case FOffset(_, _, kind) => kind.KVec? ==> kind.align >= 1 && Aligned(addr, kind.align)
    case FUnion(_, required, _) => !required
    case FUnions(_, required, _) => required
  }

  predicate AllReadable(sc: Schema, addr: nat) {
    forall t, i | 0 <= t < |sc.tables| && 0 <= i < |sc.tables[t]| :: Readable(sc.tables[t][i], addr)
  }

  /** The facts every position of an accepted buffer shares. */
  ghost predicate Base(c: Ctx) {
    WfSchema(c.sc) && |c.buf| <= UOFFSET_MAX - 8 && c.addr % 4 == 0
  }

  ghost predicate Placed(c: Ctx) {
    Base(c) && AllReadable(c.sc, c.addr) && Aligned(c.addr, 4) && Aligned(c.addr, 1)
  }

  /** A descriptor as VerifyTableHeader returns it. */
  ghost predicate Header(c: Ctx, td: Td) {
    && TdOk(c, td) && td.table + 4 <= |c.buf| && td.vsize >= 4 && td.vtable % 2 == 0
    && td.vtable == Wrap32(td.table - U32At(c.buf, td.table))
    && td.vsize == U16At(c.buf, td.vtable)
  }

  /** The reader's vtable test `vsize >= 2 * (id + 3)` agrees with the verifier's `vo >= vsize`. */
  lemma VtableTestsAgree(c: Ctx, td: Td, id: nat)
    requires Base(c) && Header(c, td) && id <= ID_MAX
    ensures ReadVt(c, td.table, id) == Got(ReadVtEntry(c, td, id))
  {
    hide U32At, U16At, Wrap32;
    AlignedSums(c.addr, td.table, td.vtable, id);
    EvenBound(id, td.vsize);
  }

  lemma AlignedSums(addr: nat, table: nat, vtable: nat, id: nat)
    requires addr % 4 == 0 && table % 4 == 0 && vtable % 2 == 0
    ensures (addr + table) % 4 == 0 && (addr + vtable) % 2 == 0
    ensures (addr + (vtable + 2 * (id + 2))) % 2 == 0
  {}

  lemma EvenBound(id: nat, vsize: nat)
    requires id <= ID_MAX && vsize % 2 == 0
    ensures (id + 2) * 2 % TWO_16 == (id + 2) * 2
    ensures (id + 2) * 2 >= vsize || vsize >= 2 * (id + 3)
  {}

  lemma FollowForward(c: Ctx, p: nat)
    requires Base(c) && p + 4 <= |c.buf| && p % 4 == 0
    requires CheckHeader(|c.buf|, p, U32At(c.buf, p))
    ensures Follow(c, p) == Got(Wrap32(p + U32At(c.buf, p)))
    ensures var k := Wrap32(p + U32At(c.buf, p)); k % 4 == 0 && k + 4 <= |c.buf|
    ensures Load32(c, Wrap32(p + U32At(c.buf, p))).Got?
  {
    assert (c.addr + p) % 4 == 0;
    assert (c.addr + Wrap32(p + U32At(c.buf, p))) % 4 == 0;
  }

  lemma StringSafe(c: Ctx, p: nat)
    requires Base(c) && p + 4 <= |c.buf| && p % 4 == 0
    requires VerifyString(c, p, U32At(c.buf, p)).Ok?
    ensures Follow(c, p).Got? && ReadString(c, Follow(c, p).v).Got?
  {
    FollowForward(c, p);
  }

  lemma VectorSafe(c: Ctx, p: nat, elem: nat, align: nat)
    requires Base(c) && p + 4 <= |c.buf| && p % 4 == 0 && align >= 1
    requires VerifyVector(c, p, U32At(c.buf, p), elem, align).Ok? && Aligned(c.addr, align)
    ensures var u := U32At(c.buf, p);
            && Follow(c, p) == Got(Wrap32(p + u)) && Load32(c, Wrap32(p + u)).Got?
            && ReadVector(c, Wrap32(p + u), elem, align).Got?
            && p < Wrap32(p + u) && Wrap32(p + u) % 4 == 0
            && Wrap32(p + u) + 4 + U32At(c.buf, Wrap32(p + u)) * elem <= |c.buf|
  {
    FollowForward(c, p);
    VectorInBounds(c, p, U32At(c.buf, p), elem, align);
    SumAligned(c.addr, Wrap32(p + U32At(c.buf, p)) + 4, align);
  }

  lemma {:induction false} StringsSafe(c: Ctx, base: nat, n: nat)
    requires Base(c) && base + 4 * n <= |c.buf| && base % 4 == 0
    requires VerifyStringsFrom(c, base, n).Ok?
    ensures ReadStringsFrom(c, base, n).Got?
    decreases n
  {
    hide Base, Follow, ReadString, VerifyString, VerifyVector, CheckHeader, U32At, Wrap32;
    if n > 0 {
      StringSafe(c, base);
      StringsSafe(c, base + 4, n - 1);
    }
  }

  lemma {:induction false} TableSafe(c: Ctx, p: nat, ttl: int, tid: nat)
    requires Placed(c) && p + 4 <= |c.buf| && p % 4 == 0 && tid < |c.sc.tables|
    requires VerifyTable(c, p, U32At(c.buf, p), ttl, tid).Ok?
    ensures Follow(c, p).Got? && ReadTable(c, Follow(c, p).v, tid).Got?
    decreases |c.buf| - p, 0, 0
  {
    var td := VerifyTableHeader(c, p, U32At(c.buf, p), ttl).td;
    FollowForward(c, p);
    FieldsSafe(c, td, c.sc.tables[tid]);
  }

  lemma {:induction false} FieldsSafe(c: Ctx, td: Td, fields: seq<Field>)
    requires Placed(c) && Header(c, td)
    requires forall i | 0 <= i < |fields| :: WfField(c.sc, fields[i]) && Readable(fields[i], c.addr)
    requires VerifyFields(c, td, fields).Ok?
    ensures ReadFields(c, td.table, fields).Got?
    decreases |c.buf| - td.table, 4, |fields|
  {
    if fields != [] {
      FieldSafe(c, td, fields[0]);
      FieldsSafe(c, td, fields[1..]);
    }
  }

  lemma {:induction false} FieldSafe(c: Ctx, td: Td, f: Field)
    requires Placed(c) && Header(c, td) && WfField(c.sc, f) && Readable(f, c.addr)
    requires VerifyOneField(c, td, f).Ok?
    ensures ReadField(c, td.table, f).Got?
    decreases |c.buf| - td.table, 3, 0
  {
    hide Base, Header, TdOk, VerifyField, ReadScalar, VerifyOffsetField, ReadOffsetField, VerifyUnionField, ReadUnion,
      VerifyUnionVectorField, ReadUnions;
    match f
    case FScalar(id, size, align, default, _) => ScalarSafe(c, td, id, size, align, default);
    case FOffset(id, required, kind) => OffsetSafe(c, td, id, required, kind);
    case FUnion(id, required, members) => UnionSafe(c, td, id, members);
    case FUnions(id, required, members) => UnionVectorSafe(c, td, id, members);
  }

  lemma ScalarSafe(c: Ctx, td: Td, id: nat, size: nat, align: nat, default: seq<u8>)
    requires Base(c) && Header(c, td) && id <= ID_MAX && align >= 1
    requires VerifyField(c, td, id, false, size, align).Ok?
    ensures ReadScalar(c, td.table, id, size, align, default).Got?
  {
    hide ReadVt, ReadVtEntry;
    VtableTestsAgree(c, td, id);
  }

  lemma {:induction false} OffsetSafe(c: Ctx, td: Td, id: nat, required: bool, kind: Kind)
    requires Placed(c) && Header(c, td) && id <= ID_MAX && WfKind(c.sc, kind)
    requires kind.KVec? ==> kind.align >= 1 && Aligned(c.addr, kind.align)
    requires VerifyOffsetField(c, td, id, required, kind).Ok?
    ensures ReadOffsetField(c, td.table, id, required, kind).Got?
    decreases |c.buf| - td.table, 2, 0
  {
    hide ReadVt, ReadVtEntry, Follow, VerifyTarget, ReadTarget, U32At, Base;
    VtableTestsAgree(c, td, id);
    var p := GetOffsetField(c, td, id, required).pos;
    if p != 0 { TargetSafe(c, p, td.ttl, kind); }
  }

  lemma {:induction false} TargetSafe(c: Ctx, p: nat, ttl: int, kind: Kind)
    requires Placed(c) && p + 4 <= |c.buf| && p % 4 == 0 && WfKind(c.sc, kind)
    requires kind.KVec? ==> kind.align >= 1 && Aligned(c.addr, kind.align)
    requires VerifyTarget(c, p, U32At(c.buf, p), ttl, kind).Ok?
    ensures Follow(c, p).Got? && ReadTarget(c, Follow(c, p).v, kind).Got?
    decreases |c.buf| - p, 2, 0
  {
    hide Base, AllReadable, Aligned, Follow, ReadString, ReadVector, VerifyString, VerifyVector, CheckHeader, U32At,
      Wrap32, IsPow2;
    match kind
    case KStr => StringSafe(c, p);
    case KVec(elem, align) => VectorSafe(c, p, elem, align);
    case KStrs =>
      VectorSafe(c, p, 4, 4);
      var k := Follow(c, p).v;
      StringsSafe(c, k + 4, U32At(c.buf, k));
    case KTable(t) => TableSafe(c, p, ttl, t);
    case KTables(t) =>
      VectorSafe(c, p, 4, 4);
      var k := Follow(c, p).v;
      TablesSafe(c, k + 4, U32At(c.buf, k), ttl - 1, t);
  }

  lemma {:induction false} TablesSafe(c: Ctx, base: nat, n: nat, ttl: int, tid: nat)
    requires Placed(c) && base + 4 * n <= |c.buf| && base % 4 == 0 && tid < |c.sc.tables|
    requires VerifyTablesFrom(c, base, n, ttl, tid).Ok?
    ensures ReadTablesFrom(c, base, n, tid).Got?
    decreases |c.buf| - base, 1, n
  {
    hide Base, Follow, ReadString, VerifyString, VerifyVector, CheckHeader, U32At, Wrap32;
    if n > 0 {
      TableSafe(c, base, ttl, tid);
      TablesSafe(c, base + 4, n - 1, ttl, tid);
    }
  }

  lemma {:induction false} MemberSafe(c: Ctx, p: nat, ttl: int, tag: u8, members: map<u8, Kind>)
    requires Placed(c) && p + 4 <= |c.buf| && p % 4 == 0 && WfMembers(c.sc, members)
    requires VerifyMember(c, p, U32At(c.buf, p), ttl, tag, members).Ok?
    ensures ReadMember(c, p, tag, members).Got?
    decreases |c.buf| - p, 1, 0
  {
    hide Follow, ReadString, VerifyString, U32At, Wrap32;
    AlignedSum(c.addr, p);
    if tag in members {
      match members[tag]
      case KTable(t) => TableSafe(c, p, ttl, t);
      case _ => StringSafe(c, p);
    }
  }

  lemma {:induction false} UnionSafe(c: Ctx, td: Td, id: nat, members: map<u8, Kind>)
    requires Placed(c) && Header(c, td) && WfMembers(c.sc, members) && 1 <= id <= ID_MAX
    requires VerifyUnionField(c, td, id, false, members).Ok?
    ensures ReadUnion(c, td.table, id, false, members).Got?
    decreases |c.buf| - td.table, 2, 0
  {
    hide Base, ReadVt, ReadVtEntry, Follow, VerifyMember, ReadMember, U32At;
    VtableTestsAgree(c, td, id - 1);
    VtableTestsAgree(c, td, id);
    var vteType := ReadVtEntry(c, td, id - 1);
    if vteType != 0 && c.buf[td.table + vteType] != 0 {
      var p := GetOffsetField(c, td, id, false).pos;
      if p != 0 { MemberSafe(c, p, td.ttl, c.buf[td.table + vteType], members); }
    }
  }

  lemma {:induction false} UnionsSafe(c: Ctx, base: nat, types: nat, n: nat, ttl: int, members: map<u8, Kind>)
    requires Placed(c) && WfMembers(c.sc, members) && base % 4 == 0
    requires base + 4 * n <= |c.buf| && types + n <= |c.buf|
    requires VerifyUnionsFrom(c, base, types, n, ttl, members).Ok?
    ensures ReadUnionsFrom(c, base, types, n, members).Got?
    decreases |c.buf| - base, 2, n
  {
    hide Base, Follow, ReadString, VerifyString, VerifyVector, CheckHeader, U32At, Wrap32;
    if n > 0 {
      if U32At(c.buf, base) != 0 { MemberSafe(c, base, ttl, c.buf[types], members); }
      UnionsSafe(c, base + 4, types + 1, n - 1, ttl, members);
    }
  }

  lemma {:induction false} UnionVectorSafe(c: Ctx, td: Td, id: nat, members: map<u8, Kind>)
    requires Placed(c) && Header(c, td) && WfMembers(c.sc, members) && 1 <= id <= ID_MAX
    requires VerifyUnionVectorField(c, td, id, true, members).Ok?
    ensures ReadUnions(c, td.table, id, members).Got?
    decreases |c.buf| - td.table, 2, 0
  {
    hide Base, ReadVt, ReadVtEntry, Follow, VerifyVector, ReadVector, CheckHeader, U32At, Wrap32, VerifyUnionsFrom,
      ReadUnionsFrom;
    VtableTestsAgree(c, td, id - 1);
    VtableTestsAgree(c, td, id);
    var q, p := GetOffsetField(c, td, id - 1, true).pos, GetOffsetField(c, td, id, true).pos;
    VectorSafe(c, q, 1, 1);
    VectorSafe(c, p, 4, 4);
    var t, k := Follow(c, q).v, Follow(c, p).v;
    UnionsSafe(c, k + 4, t + 4, U32At(c.buf, k), td.ttl - 1, members);
  }

  /** Verifier soundness: on any bytes at all, acceptance means the full walk never faults, wherever every
      field the schema names is readable. */
  lemma AcceptedIsSafeToRead(c: Ctx, tid: nat)
    requires WfSchema(c.sc) && tid < |c.sc.tables| && AllReadable(c.sc, c.addr)
    requires VerifyTableAsRoot(c, tid).Ok?
    ensures ReadRoot(c, tid).Got?
  {
    TableSafe(c, 0, MAX_LEVELS, tid);
  }
}
