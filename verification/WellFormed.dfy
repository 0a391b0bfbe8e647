/** What a well-formed buffer is, said of its bytes in exact arithmetic and with no order among the
    conditions; and that the verifier accepts exactly the well-formed ones. */
module WellFormed {
  import opened Bytes
  import opened Schema
  import opened Verifier

  /** Where the offset stored at p leads. */
  function Target(c: Ctx, p: nat): (k: nat)
    requires p + 4 <= |c.buf|
    ensures k >= p
  {
    p + U32At(c.buf, p)
  }

  /** It leads on, to an aligned word inside the buffer. */
  predicate Leads(c: Ctx, p: nat) {
    p + 4 <= |c.buf| && p < Target(c, p) && Target(c, p) + 4 <= |c.buf| && Target(c, p) % 4 == 0
  }

  /** The length of the string or vector at k. */
  function Length(c: Ctx, k: nat): nat
    requires k + 4 <= |c.buf|
  {
    U32At(c.buf, k)
  }

  /** A string: its characters and a zero byte behind them. */
  predicate StringAt(c: Ctx, k: nat)
    requires k + 4 <= |c.buf|
  {
    k + 4 + Length(c, k) < |c.buf| && c.buf[k + 4 + Length(c, k)] == 0
  }

  /** A vector: all its elements, aligned relative to the buffer unless there are none. */
  predicate VectorAt(c: Ctx, k: nat, elem: nat, align: nat)
    requires k + 4 <= |c.buf| && align >= 1
  {
    k + 4 + Length(c, k) * elem <= |c.buf| && (Length(c, k) == 0 || (k + 4) % align == 0)
  }

  /** Element i of offsets at `base` leads to a string. */
  predicate StringElem(c: Ctx, base: nat, i: nat) {
    Leads(c, base + 4 * i) && StringAt(c, Target(c, base + 4 * i))
  }

  /** A vector of strings. */
  predicate StringsAt(c: Ctx, k: nat)
    requires k + 4 <= |c.buf|
  {
    VectorAt(c, k, 4, 4) && AllStrings(c, k + 4, Length(c, k))
  }

  predicate AllStrings(c: Ctx, base: nat, n: nat) {
    forall i: nat | i < n :: StringElem(c, base, i)
  }

  /** The vtable of the table at t, whose distance is subtracted in 32 bits. */
  function VtableOf(c: Ctx, t: nat): nat
    requires t + 4 <= |c.buf|
  {
    Wrap32(t - U32At(c.buf, t))
  }

  /** The vtable lies inside the buffer, and so does the table it describes. */
  predicate HeadAt(c: Ctx, t: nat)
    requires t + 4 <= |c.buf|
  {
    var v := VtableOf(c, t);
    && v % 2 == 0 && v < TWO_31 && v + 4 <= |c.buf|
    && U16At(c.buf, v) % 2 == 0 && U16At(c.buf, v) >= 4 && v + U16At(c.buf, v) <= |c.buf|
    && t + U16At(c.buf, v + 2) <= |c.buf|
  }

  /** The entry of field id, 0 when the vtable is too short to hold it. */
  function EntryOf(c: Ctx, t: nat, id: nat): nat
    requires t + 4 <= |c.buf| && HeadAt(c, t)
  {
    var v := VtableOf(c, t);
    if 2 * (id + 3) <= U16At(c.buf, v) then U16At(c.buf, v + 2 * (id + 2)) else 0
  }

  /** An entry of `size` bytes inside the table. */
  predicate Inside(c: Ctx, t: nat, entry: nat, size: nat)
    requires t + 4 <= |c.buf| && HeadAt(c, t)
  {
    entry + size <= U16At(c.buf, VtableOf(c, t) + 2)
  }

  /** An entry that is an aligned offset inside the table. */
  predicate Link(c: Ctx, t: nat, entry: nat)
    requires t + 4 <= |c.buf| && HeadAt(c, t)
  {
    entry != 0 && Inside(c, t, entry, 4) && (t + entry) % 4 == 0
  }

  lemma LinkRoom(c: Ctx, t: nat, entry: nat)
    requires t + 4 <= |c.buf| && HeadAt(c, t) && Link(c, t, entry)
    ensures t < t + entry && t + entry + 4 <= |c.buf|
  {}

  /** A table of type tid. The level is one less in each table and vector of tables; a table is not
      entered at level 0. */
  ghost predicate TableAt(c: Ctx, t: nat, tid: nat, level: int)
    requires WfSchema(c.sc) && tid < |c.sc.tables| && t + 4 <= |c.buf|
    decreases |c.buf| - t, 2
  {
    level != 0 && HeadAt(c, t)
    && forall i | 0 <= i < |c.sc.tables[tid]| :: FieldAt(c, t, c.sc.tables[tid][i], level)
  }

  ghost predicate FieldAt(c: Ctx, t: nat, f: Field, level: int)
    requires WfSchema(c.sc) && WfField(c.sc, f) && t + 4 <= |c.buf| && HeadAt(c, t)
    decreases |c.buf| - t, 1
  {
    var e := EntryOf(c, t, f.id);
    match f
    case FScalar(_, size, align, _, _) => e == 0 || (Inside(c, t, e, size) && (c.addr + t + e) % align == 0)
    case FOffset(_, required, kind) =>
      if e == 0 then !required else Link(c, t, e) && KindAt(c, t + e, kind, level)
    case FUnion(id, required, members) =>
      var tag := EntryOf(c, t, id - 1);
      if tag == 0 then e == 0 && !required else
      && Inside(c, t, tag, 1)
      && if c.buf[t + tag] == 0 then e == 0 else
         if e == 0 then !required else Link(c, t, e) && MemberAt(c, t + e, c.buf[t + tag], members, level)
    case FUnions(id, required, members) =>
      var types := EntryOf(c, t, id - 1);
      if types == 0 then !required else
      && Link(c, t, types) && Leads(c, t + types) && VectorAt(c, Target(c, t + types), 1, 1)
      && if e == 0 then !required else
         && Link(c, t, e) && Leads(c, t + e) && UnionsAt(c, Target(c, t + e), Target(c, t + types), members, level)
  }

  /** What the offset at p leads to is of a kind. */
  ghost predicate KindAt(c: Ctx, p: nat, kind: Kind, level: int)
    requires WfSchema(c.sc) && WfKind(c.sc, kind) && p + 4 <= |c.buf|
    decreases |c.buf| - p, 1
  {
    Leads(c, p) && match kind
      case KStr => StringAt(c, Target(c, p))
      case KVec(elem, align) => align >= 1 && VectorAt(c, Target(c, p), elem, align)
      case KStrs => StringsAt(c, Target(c, p))
      case KTable(tid) => TableAt(c, Target(c, p), tid, level - 1)
      case KTables(tid) =>
        var k := Target(c, p);
        level > 0 && VectorAt(c, k, 4, 4) && AllTables(c, k + 4, Length(c, k), tid, level - 1)
  }

  ghost predicate AllTables(c: Ctx, base: nat, n: nat, tid: nat, level: int)
    requires WfSchema(c.sc) && tid < |c.sc.tables| && base <= |c.buf|
    decreases |c.buf| - base, 4
  {
    forall i: nat | i < n :: TableElem(c, base, i, tid, level)
  }

  ghost predicate TableElem(c: Ctx, base: nat, i: nat, tid: nat, level: int)
    requires WfSchema(c.sc) && tid < |c.sc.tables| && base <= |c.buf|
    decreases |c.buf| - base, 3
  {
    Leads(c, base + 4 * i) && TableAt(c, Target(c, base + 4 * i), tid, level - 1)
  }

  /** A union member of a type the schema knows; of any other nothing is asked. */
  ghost predicate MemberAt(c: Ctx, p: nat, tag: u8, members: map<u8, Kind>, level: int)
    requires WfSchema(c.sc) && WfMembers(c.sc, members) && p + 4 <= |c.buf|
    decreases |c.buf| - p, 2
  {
    tag in members ==> KindAt(c, p, members[tag], level)
  }

  /** The values at k of a union vector whose types are at q: as many, and null under type NONE alone. */
  ghost predicate UnionsAt(c: Ctx, k: nat, q: nat, members: map<u8, Kind>, level: int)
    requires WfSchema(c.sc) && WfMembers(c.sc, members) && k + 4 <= |c.buf| && q + 4 <= |c.buf|
    requires VectorAt(c, q, 1, 1)
    decreases |c.buf| - k, 2
  {
    && level > 0 && VectorAt(c, k, 4, 4) && Length(c, k) == Length(c, q)
    && AllUnions(c, k + 4, q + 4, Length(c, k), members, level - 1)
  }

  ghost predicate AllUnions(c: Ctx, base: nat, types: nat, n: nat, members: map<u8, Kind>, level: int)
    requires WfSchema(c.sc) && WfMembers(c.sc, members) && base <= |c.buf|
    decreases |c.buf| - base, 4
  {
    forall i: nat | i < n :: UnionElem(c, base, types, i, members, level)
  }

  ghost predicate UnionElem(c: Ctx, base: nat, types: nat, i: nat, members: map<u8, Kind>, level: int)
    requires WfSchema(c.sc) && WfMembers(c.sc, members) && base <= |c.buf|
    decreases |c.buf| - base, 3
  {
    && base + 4 * i + 4 <= |c.buf| && types + i < |c.buf|
    && (U32At(c.buf, base + 4 * i) == 0 <==> c.buf[types + i] == 0)
    && (c.buf[types + i] != 0 ==> MemberAt(c, base + 4 * i, c.buf[types + i], members, level))
  }

  /** A buffer whose root is a table of type tid: large enough for an identifier, aligned in memory, and not
      so large that adding a field to a position could wrap around. */
  ghost predicate RootAt(c: Ctx, tid: nat)
    requires WfSchema(c.sc) && tid < |c.sc.tables|
  {
    8 <= |c.buf| <= UOFFSET_MAX - 8 && c.addr % 4 == 0 && Leads(c, 0) && TableAt(c, Target(c, 0), tid, MAX_LEVELS - 1)
  }

  // ---- the verifier accepts exactly these ----------------------------------------------------------

  lemma LeadsExactly(c: Ctx, p: nat)
    requires |c.buf| < TWO_32 && p + 4 <= |c.buf|
    ensures CheckHeader(|c.buf|, p, U32At(c.buf, p)) <==> Leads(c, p)
    ensures Leads(c, p) ==> Wrap32(p + U32At(c.buf, p)) == Target(c, p)
  {
    hide U32At;
  }

  lemma StringExactly(c: Ctx, p: nat)
    requires |c.buf| < TWO_32 && p + 4 <= |c.buf|
    ensures VerifyString(c, p, U32At(c.buf, p)).Ok? <==> Leads(c, p) && StringAt(c, Target(c, p))
  {
    hide U32At, CheckHeader, Leads, Wrap32;
    LeadsExactly(c, p);
    if Leads(c, p) { LeadsMeans(c, p); }
  }

  lemma LeadsMeans(c: Ctx, p: nat)
    requires Leads(c, p)
    ensures p + 4 <= |c.buf| && p < Target(c, p) && Target(c, p) + 4 <= |c.buf| && Target(c, p) % 4 == 0
  {}

  lemma VectorExactly(c: Ctx, p: nat, elem: nat, align: nat)
    requires |c.buf| < TWO_32 && p + 4 <= |c.buf| && align >= 1
    ensures VerifyVector(c, p, U32At(c.buf, p), elem, align).Ok?
       <==> Leads(c, p) && VectorAt(c, Target(c, p), elem, align)
  {
    hide U32At, CheckHeader, Leads;
    LeadsExactly(c, p);
    if Leads(c, p) {
      LeadsMeans(c, p);
      CountExactly(Length(c, Target(c, p)), elem, |c.buf| - (Target(c, p) + 4));
    }
  }

  /** The test on the count, made so that the product cannot wrap around, changes nothing. */
  lemma CountExactly(n: nat, elem: nat, room: nat)
    requires n < TWO_32 && room < TWO_32
    ensures n <= CountMax(elem) && Wrap32(n * elem) <= room <==> n * elem <= room
  {
    if n <= CountMax(elem) {
      MulMonotone(n, CountMax(elem), elem);
    } else {
      CountAbove(n, elem);
    }
  }

  lemma CountAbove(n: nat, elem: nat)
    requires CountMax(elem) < n < TWO_32
    ensures n * elem >= TWO_32
  {
    var m := CountMax(elem);
    assert UOFFSET_MAX == m * elem + UOFFSET_MAX % elem;
    MulMonotone(m + 1, n, elem);
    assert (m + 1) * elem == m * elem + elem;
  }

  lemma {:induction false} StringsExactly(c: Ctx, base: nat, n: nat)
    requires |c.buf| < TWO_32 && base + 4 * n <= |c.buf|
    ensures VerifyStringsFrom(c, base, n).Ok? <==> AllStrings(c, base, n)
    decreases n
  {
    hide VerifyString, StringElem, U32At;
    if n > 0 {
      var next := base + 4;
      StringElemMeans(c, base);
      StringExactly(c, base);
      StringsExactly(c, next, n - 1);
      forall i: nat | 1 <= i < n ensures StringElem(c, base, i) <==> StringElem(c, next, i - 1) {
        StringElemShifts(c, base, i);
      }
      if AllStrings(c, base, n) {
        forall i: nat | i < n - 1 ensures StringElem(c, next, i) { assert StringElem(c, base, i + 1); }
      }
    }
  }

  lemma StringElemMeans(c: Ctx, base: nat)
    ensures StringElem(c, base, 0) <==> base + 4 <= |c.buf| && Leads(c, base) && StringAt(c, Target(c, base))
  {
    assert base + 4 * 0 == base;
  }

  lemma StringElemShifts(c: Ctx, base: nat, i: nat)
    requires i >= 1
    ensures StringElem(c, base, i) <==> StringElem(c, base + 4, i - 1)
  {
    assert base + 4 + 4 * (i - 1) == base + 4 * i;
  }

  /** The verifier's header check establishes exactly that the head is well formed, and finds it. */
  lemma HeadExactly(c: Ctx, p: nat, ttl: int)
    requires |c.buf| < TWO_32 && p + 4 <= |c.buf|
    ensures var r := VerifyTableHeader(c, p, U32At(c.buf, p), ttl);
            && (r.GoodTd? <==> ttl != 1 && Leads(c, p) && HeadAt(c, Target(c, p)))
            && (r.GoodTd? ==> Describes(c, r.td, Target(c, p), ttl - 1))
  {
    hide U32At, U16At, CheckHeader, Leads;
    LeadsExactly(c, p);
    if Leads(c, p) { LeadsMeans(c, p); }
  }

  /** The descriptor of the table at t. */
  ghost predicate Describes(c: Ctx, td: Td, t: nat, level: int) {
    && TdOk(c, td) && t + 4 <= |c.buf| && HeadAt(c, t) && td.table == t && td.ttl == level
    && td.vtable == VtableOf(c, t) && td.vsize == U16At(c.buf, VtableOf(c, t))
    && td.tsize == U16At(c.buf, VtableOf(c, t) + 2)
  }

  lemma EntryExactly(c: Ctx, td: Td, t: nat, level: int, id: nat)
    requires Describes(c, td, t, level) && id <= ID_MAX
    ensures ReadVtEntry(c, td, id) == EntryOf(c, t, id)
  {
    hide U16At;
  }

  lemma LinkExactly(c: Ctx, td: Td, t: nat, level: int, id: nat, required: bool)
    requires Describes(c, td, t, level) && id <= ID_MAX
    ensures var e := EntryOf(c, t, id);
            GetOffsetField(c, td, id, required)
            == if e == 0 then (if required then PosErr(RequiredFieldMissing) else Pos(0)) else
               if Link(c, t, e) then Pos(t + e) else
               PosErr(if Inside(c, t, e, 4) then TableFieldNotAligned else TableFieldOutOfRange)
  {
    hide U16At, ReadVtEntry;
    EntryExactly(c, td, t, level, id);
  }

  lemma {:induction false} TableExactly(c: Ctx, p: nat, ttl: int, tid: nat)
    requires WfSchema(c.sc) && tid < |c.sc.tables| && |c.buf| < TWO_32 && p + 4 <= |c.buf|
    ensures VerifyTable(c, p, U32At(c.buf, p), ttl, tid).Ok? <==> Leads(c, p) && TableAt(c, Target(c, p), tid, ttl - 1)
    decreases |c.buf| - p, 1, 0
  {
    hide U32At, CheckHeader, HeadAt, VerifyTableHeader, FieldAt;
    HeadExactly(c, p, ttl);
    var r := VerifyTableHeader(c, p, U32At(c.buf, p), ttl);
    if r.GoodTd? {
      LeadsMeans(c, p);
      FieldsExactly(c, r.td, Target(c, p), c.sc.tables[tid]);
    }
  }

  lemma {:induction false} FieldsExactly(c: Ctx, td: Td, t: nat, fields: seq<Field>)
    requires WfSchema(c.sc) && Describes(c, td, t, td.ttl) && forall i | 0 <= i < |fields| :: WfField(c.sc, fields[i])
    ensures VerifyFields(c, td, fields).Ok? <==> forall i | 0 <= i < |fields| :: FieldAt(c, t, fields[i], td.ttl)
    decreases |c.buf| - t, 4, |fields|
  {
    hide HeadAt, FieldAt, VerifyOneField, TdOk;
    if fields != [] {
      DescribesMeans(c, td, t);
      FieldExactly(c, td, t, fields[0]);
      FieldsExactly(c, td, t, fields[1..]);
      assert forall i | 1 <= i < |fields| :: fields[i] == fields[1..][i - 1];
    }
  }

  lemma DescribesMeans(c: Ctx, td: Td, t: nat)
    requires Describes(c, td, t, td.ttl)
    ensures TdOk(c, td) && t + 4 <= |c.buf| < TWO_32 && HeadAt(c, t) && td.table == t
  {}

  lemma {:induction false} FieldExactly(c: Ctx, td: Td, t: nat, f: Field)
    requires WfSchema(c.sc) && Describes(c, td, t, td.ttl) && WfField(c.sc, f)
    ensures VerifyOneField(c, td, f).Ok? <==> FieldAt(c, t, f, td.ttl)
    decreases |c.buf| - t, 3, 0
  {
    hide U16At, U32At, HeadAt, Describes, TdOk, KindAt, MemberAt, UnionsAt, VerifyTarget, VerifyMember,
      VerifyUnionVector, VerifyVector, ReadVtEntry, EntryOf, Inside, Link, GetOffsetField, Leads;
    DescribesMeans(c, td, t);
    EntryExactly(c, td, t, td.ttl, f.id);
    match f
    case FScalar(id, size, align, _, _) => ScalarExactly(c, td, t, id, size, align);
    case FOffset(id, required, kind) =>
      var e := EntryOf(c, t, id);
      LinkExactly(c, td, t, td.ttl, id, required);
      if e != 0 && Link(c, t, e) {
        LinkRoom(c, t, e);
        TargetExactly(c, t + e, td.ttl, kind);
      }
    case FUnion(id, required, members) => UnionExactly(c, td, t, id, required, members);
    case FUnions(id, required, members) => UnionVectorExactly(c, td, t, id, required, members);
  }

  lemma ScalarExactly(c: Ctx, td: Td, t: nat, id: nat, size: nat, align: nat)
    requires Describes(c, td, t, td.ttl) && id <= ID_MAX && align >= 1
    ensures var e := EntryOf(c, t, id);
            VerifyField(c, td, id, false, size, align).Ok? <==>
              e == 0 || (Inside(c, t, e, size) && (c.addr + t + e) % align == 0)
  {
    hide U16At, U32At, ReadVtEntry, EntryOf;
    EntryExactly(c, td, t, td.ttl, id);
  }

  lemma {:induction false} TargetExactly(c: Ctx, p: nat, ttl: int, kind: Kind)
    requires WfSchema(c.sc) && WfKind(c.sc, kind) && |c.buf| < TWO_32 && p + 4 <= |c.buf|
    ensures VerifyTarget(c, p, U32At(c.buf, p), ttl, kind).Ok? <==> KindAt(c, p, kind, ttl)
    decreases |c.buf| - p, 2, 0
  {
    hide U32At, Leads, StringAt, VectorAt, TableAt, VerifyString, VerifyVector, VerifyTable, VerifyStringsFrom,
      VerifyTablesFrom, AllStrings, AllTables, CheckHeader, Wrap32;
    LeadsExactly(c, p);
    if Leads(c, p) { LeadsMeans(c, p); }
    match kind
    case KStr => StringExactly(c, p);
    case KVec(elem, align) =>
      ZeroAligned(align);
      VectorExactly(c, p, elem, align);
    case KStrs =>
      VectorExactly(c, p, 4, 4);
      if VerifyVector(c, p, U32At(c.buf, p), 4, 4).Ok? {
        VectorRoom(c, Target(c, p));
        StringsExactly(c, Target(c, p) + 4, Length(c, Target(c, p)));
      }
    case KTable(tid) => TableExactly(c, p, ttl, tid);
    case KTables(tid) =>
      VectorExactly(c, p, 4, 4);
      if VerifyVector(c, p, U32At(c.buf, p), 4, 4).Ok? {
        VectorRoom(c, Target(c, p));
        TablesExactly(c, Target(c, p) + 4, Length(c, Target(c, p)), ttl - 1, tid);
      }
  }

  lemma VectorRoom(c: Ctx, k: nat)
    requires k + 4 <= |c.buf| && VectorAt(c, k, 4, 4)
    ensures k + 4 + 4 * Length(c, k) <= |c.buf|
  {
    hide U32At;
  }

  lemma {:induction false} TablesExactly(c: Ctx, base: nat, n: nat, ttl: int, tid: nat)
    requires WfSchema(c.sc) && tid < |c.sc.tables| && |c.buf| < TWO_32 && base + 4 * n <= |c.buf|
    ensures VerifyTablesFrom(c, base, n, ttl, tid).Ok? <==> AllTables(c, base, n, tid, ttl)
    decreases |c.buf| - base, 2, n
  {
    hide TableElem, VerifyTable, U32At;
    if n > 0 {
      var next := base + 4;
      TableElemMeans(c, base, tid, ttl);
      TableExactly(c, base, ttl, tid);
      TablesExactly(c, next, n - 1, ttl, tid);
      forall i: nat | 1 <= i < n ensures TableElem(c, base, i, tid, ttl) <==> TableElem(c, next, i - 1, tid, ttl) {
        TableElemShifts(c, base, i, tid, ttl);
      }
      if AllTables(c, base, n, tid, ttl) {
        forall i: nat | i < n - 1 ensures TableElem(c, next, i, tid, ttl) {
          assert TableElem(c, base, i + 1, tid, ttl);
        }
      }
    }
  }

  lemma TableElemMeans(c: Ctx, base: nat, tid: nat, level: int)
    requires WfSchema(c.sc) && tid < |c.sc.tables| && base + 4 <= |c.buf|
    ensures TableElem(c, base, 0, tid, level) <==> Leads(c, base) && TableAt(c, Target(c, base), tid, level - 1)
  {
    hide TableAt;
    assert base + 4 * 0 == base;
  }

  lemma TableElemShifts(c: Ctx, base: nat, i: nat, tid: nat, level: int)
    requires WfSchema(c.sc) && tid < |c.sc.tables| && base + 4 <= |c.buf| && i >= 1
    ensures TableElem(c, base, i, tid, level) <==> TableElem(c, base + 4, i - 1, tid, level)
  {
    hide TableAt;
    assert base + 4 + 4 * (i - 1) == base + 4 * i;
  }

  lemma {:induction false} MemberExactly(c: Ctx, p: nat, ttl: int, tag: u8, members: map<u8, Kind>)
    requires WfSchema(c.sc) && WfMembers(c.sc, members) && |c.buf| < TWO_32 && p + 4 <= |c.buf|
    ensures VerifyMember(c, p, U32At(c.buf, p), ttl, tag, members).Ok? <==> MemberAt(c, p, tag, members, ttl)
    decreases |c.buf| - p, 3, 0
  {
    hide U32At, Leads, StringAt, TableAt, VerifyString, VerifyTable;
    if tag in members { TargetExactly(c, p, ttl, members[tag]); }
  }

  lemma {:induction false} UnionExactly(c: Ctx, td: Td, t: nat, id: nat, required: bool, members: map<u8, Kind>)
    requires WfSchema(c.sc) && Describes(c, td, t, td.ttl) && WfField(c.sc, FUnion(id, required, members))
    ensures VerifyUnionField(c, td, id, required, members).Ok? <==> FieldAt(c, t, FUnion(id, required, members), td.ttl)
    decreases |c.buf| - t, 2, 0
  {
    hide U16At, U32At, HeadAt, Describes, TdOk, MemberAt, VerifyMember, ReadVtEntry, EntryOf, Link, GetOffsetField;
    DescribesMeans(c, td, t);
    EntryExactly(c, td, t, td.ttl, id - 1);
    EntryExactly(c, td, t, td.ttl, id);
    ScalarExactly(c, td, t, id - 1, 1, 1);
    LinkExactly(c, td, t, td.ttl, id, required);
    var e := EntryOf(c, t, id);
    if e != 0 && Link(c, t, e) {
      LinkRoom(c, t, e);
      var tag := EntryOf(c, t, id - 1);
      if tag != 0 && Inside(c, t, tag, 1) {
        assert t + tag < |c.buf| by { InsideRoom(c, t, tag, 1); }
        MemberExactly(c, t + e, td.ttl, c.buf[t + tag], members);
      }
    }
  }

  lemma InsideRoom(c: Ctx, t: nat, entry: nat, size: nat)
    requires t + 4 <= |c.buf| && HeadAt(c, t) && Inside(c, t, entry, size)
    ensures t + entry + size <= |c.buf|
  {}

  lemma {:induction false} UnionVectorExactly(c: Ctx, td: Td, t: nat, id: nat, required: bool, members: map<u8, Kind>)
    requires WfSchema(c.sc) && Describes(c, td, t, td.ttl) && WfField(c.sc, FUnions(id, required, members))
    ensures VerifyUnionVectorField(c, td, id, required, members).Ok?
       <==> FieldAt(c, t, FUnions(id, required, members), td.ttl)
    decreases |c.buf| - t, 2, 0
  {
    hide U16At, U32At, HeadAt, Describes, TdOk, VectorAt, VerifyVector, VerifyUnionVector, UnionsAt, ReadVtEntry,
      EntryOf, Link, GetOffsetField, Wrap32, Leads;
    DescribesMeans(c, td, t);
    EntryExactly(c, td, t, td.ttl, id - 1);
    EntryExactly(c, td, t, td.ttl, id);
    LinkExactly(c, td, t, td.ttl, id - 1, required);
    LinkExactly(c, td, t, td.ttl, id, required);
    var types, e := EntryOf(c, t, id - 1), EntryOf(c, t, id);
    if types != 0 && Link(c, t, types) {
      LinkRoom(c, t, types);
      VectorExactly(c, t + types, 1, 1);
      LeadsExactly(c, t + types);
      if e != 0 && Link(c, t, e) {
        LinkRoom(c, t, e);
        if VerifyVector(c, t + types, U32At(c.buf, t + types), 1, 1).Ok? {
          UnionsExactly(c, t + e, Target(c, t + types), td.ttl, members);
        }
      }
    }
  }

  lemma {:induction false} UnionsExactly(c: Ctx, p: nat, q: nat, ttl: int, members: map<u8, Kind>)
    requires WfSchema(c.sc) && WfMembers(c.sc, members) && |c.buf| < TWO_32 && p + 4 <= |c.buf|
    requires q + 4 <= |c.buf| && VectorAt(c, q, 1, 1)
    ensures q + 4 + Length(c, q) <= |c.buf|
    ensures VerifyUnionVector(c, p, U32At(c.buf, p), Length(c, q), q + 4, ttl, members).Ok?
       <==> Leads(c, p) && UnionsAt(c, Target(c, p), q, members, ttl)
    decreases |c.buf| - p, 4, 0
  {
    hide U32At, Leads, VerifyVector, VerifyUnionsFrom, AllUnions, Wrap32, CheckHeader;
    VectorExactly(c, p, 4, 4);
    LeadsExactly(c, p);
    if VerifyVector(c, p, U32At(c.buf, p), 4, 4).Ok? {
      LeadsMeans(c, p);
      var k := Target(c, p);
      VectorRoom(c, k);
      if Length(c, k) == Length(c, q) { ElemsExactly(c, k + 4, q + 4, Length(c, k), ttl - 1, members); }
    }
  }

  lemma {:induction false} ElemsExactly(c: Ctx, base: nat, types: nat, n: nat, ttl: int, members: map<u8, Kind>)
    requires WfSchema(c.sc) && WfMembers(c.sc, members) && |c.buf| < TWO_32
    requires base + 4 * n <= |c.buf| && types + n <= |c.buf|
    ensures VerifyUnionsFrom(c, base, types, n, ttl, members).Ok?
       <==> AllUnions(c, base, types, n, members, ttl)
    decreases |c.buf| - base, 4, n
  {
    hide MemberAt, UnionElem, VerifyMember, U32At;
    if n > 0 {
      var b, t := base + 4, types + 1;
      UnionElemMeans(c, base, types, members, ttl);
      MemberExactly(c, base, ttl, c.buf[types], members);
      ElemsExactly(c, b, t, n - 1, ttl, members);
      forall i: nat | 1 <= i < n
        ensures UnionElem(c, base, types, i, members, ttl) <==> UnionElem(c, b, t, i - 1, members, ttl)
      {
        UnionElemShifts(c, base, types, i, members, ttl);
      }
      if AllUnions(c, base, types, n, members, ttl) {
        forall i: nat | i < n - 1 ensures UnionElem(c, b, t, i, members, ttl) {
          assert UnionElem(c, base, types, i + 1, members, ttl);
        }
      }
    }
  }

  lemma UnionElemMeans(c: Ctx, base: nat, types: nat, members: map<u8, Kind>, level: int)
    requires WfSchema(c.sc) && WfMembers(c.sc, members) && base + 4 <= |c.buf| && types < |c.buf|
    ensures UnionElem(c, base, types, 0, members, level)
       <==> (U32At(c.buf, base) == 0 <==> c.buf[types] == 0)
            && (c.buf[types] != 0 ==> MemberAt(c, base, c.buf[types], members, level))
  {
    hide MemberAt, U32At;
    assert base + 4 * 0 == base && types + 0 == types;
  }

  lemma UnionElemShifts(c: Ctx, base: nat, types: nat, i: nat, members: map<u8, Kind>, level: int)
    requires WfSchema(c.sc) && WfMembers(c.sc, members) && base + 4 <= |c.buf| && i >= 1
    ensures UnionElem(c, base, types, i, members, level) <==> UnionElem(c, base + 4, types + 1, i - 1, members, level)
  {
    hide MemberAt, U32At;
    assert base + 4 + 4 * (i - 1) == base + 4 * i && types + 1 + (i - 1) == types + i;
  }

  /** On any bytes: the verifier accepts exactly the well-formed buffers. */
  lemma AcceptsExactly(c: Ctx, tid: nat)
    requires WfSchema(c.sc) && tid < |c.sc.tables|
    ensures VerifyTableAsRoot(c, tid).Ok? <==> RootAt(c, tid)
  {
    hide TableAt, VerifyTable, Leads, U32At;
    if 8 <= |c.buf| <= UOFFSET_MAX - 8 { TableExactly(c, 0, MAX_LEVELS, tid); }
  }
}
