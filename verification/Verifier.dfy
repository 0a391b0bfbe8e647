/** The buffer verifier: decides, by following offsets over untrusted bytes, whether a buffer is
    well formed for a schema. Positions are relative to the start of the buffer. Every recursive
    call follows an offset to a strictly larger position, so termination does not rest on `ttl`. */
module Verifier {
  import opened Bytes
  import opened Schema

  const MAX_LEVELS := 100
  const IDENTIFIER_SIZE := 4

  datatype Error =
    | BufferHeaderTooSmall
    | MaxNestingLevelReached
    | RequiredFieldMissing
    | RuntimeBufferHeaderNotAligned
    | RuntimeBufferSizeTooLarge
    | StringNotZeroTerminated
    | StringOutOfRange
    | TableFieldNotAligned
    | TableFieldOutOfRange
    | TableHeaderOutOfRangeOrUnaligned
    | VectorHeaderOutOfRangeOrUnaligned
    | StringHeaderOutOfRangeOrUnaligned
    | TableSizeOutOfRange
    | TypeFieldAbsentFromRequiredUnion
    | TypeFieldAbsentFromRequiredUnionVector
    | UnionCannotHaveATableWithoutAType
    | UnionTypeNoneCannotHaveAValue
    | VectorCountExceedsRepresentableSize
    | VectorOutOfRange
    | VtableHeaderOutOfRange
    | VtableHeaderTooSmall
    | VtableOffsetOutOfRangeOrUnaligned
    | VtableSizeOutOfRangeOrUnaligned
    | UnionElementAbsentWithoutTypeNone
    | UnionElementPresentWithTypeNone
    | UnionVectorLengthMismatch

  datatype Status = Ok | Bad(error: Error)

  /** The bytes, the memory address they start at, and the schema. */
  datatype Ctx = Ctx(buf: seq<u8>, addr: nat, sc: Schema)

  /** A table descriptor whose header and vtable have been checked. */
  datatype Td = Td(ttl: int, vtable: nat, table: nat, tsize: nat, vsize: nat)

  ghost predicate TdOk(c: Ctx, td: Td) {
    && |c.buf| < TWO_32
    && td.vsize % 2 == 0 && td.vtable + td.vsize <= |c.buf|
    && td.table % 4 == 0
    && td.tsize < TWO_16 && td.table + td.tsize <= |c.buf|
  }

  predicate CheckHeader(end: nat, base: nat, offset: nat) {
    var k := Wrap32(base + offset);
    k > base && k + 4 <= end && k % 4 == 0
  }

  function ReadVtEntry(c: Ctx, td: Td, id: nat): (vte: nat)
    requires TdOk(c, td)
    ensures vte < TWO_16
  {
    var vo := (id + 2) * 2 % TWO_16;
    if vo >= td.vsize then 0 else U16At(c.buf, td.vtable + vo)
  }

  function VerifyField(c: Ctx, td: Td, id: nat, required: bool, size: nat, align: nat): Status
    requires TdOk(c, td) && align >= 1
  {
    var vte := ReadVtEntry(c, td, id);
    if vte == 0 then
      if required then Bad(RequiredFieldMissing) else Ok
    else if vte + size > td.tsize then
      Bad(TableFieldOutOfRange)
    else if !Aligned(c.addr + td.table + vte, align) then
      Bad(TableFieldNotAligned)
    else
      Ok
  }

  /** The position of a present offset field, 0 when it is absent. */
  datatype FieldPos = Pos(pos: nat) | PosErr(error: Error)

  function GetOffsetField(c: Ctx, td: Td, id: nat, required: bool): (r: FieldPos)
    requires TdOk(c, td)
    ensures r.Pos? && r.pos != 0 ==> td.table < r.pos && r.pos + 4 <= |c.buf| && r.pos % 4 == 0
  {
    var vte := ReadVtEntry(c, td, id);
    if vte == 0 then
      if required then PosErr(RequiredFieldMissing) else Pos(0)
    else if vte + 4 > td.tsize then
      PosErr(TableFieldOutOfRange)
    else if (td.table + vte) % 4 != 0 then
      PosErr(TableFieldNotAligned)
    else
      Pos(td.table + vte)
  }

  function VerifyString(c: Ctx, base: nat, offset: nat): Status
    requires |c.buf| < TWO_32
  {
    var end := |c.buf|;
    if !CheckHeader(end, base, offset) then
      Bad(StringHeaderOutOfRangeOrUnaligned)
    else
      var k := Wrap32(base + offset);
      var n := U32At(c.buf, k);
      if end - (k + 4) <= n then
        Bad(StringOutOfRange)
      else if c.buf[k + 4 + n] != 0 then
        Bad(StringNotZeroTerminated)
      else
        Ok
  }

  function VerifyVector(c: Ctx, base: nat, offset: nat, elem: nat, align: nat): (r: Status)
    requires |c.buf| < TWO_32 && align >= 1
  {
    var end := |c.buf|;
    if !CheckHeader(end, base, offset) then
      Bad(VectorHeaderOutOfRangeOrUnaligned)
    else
      var k := Wrap32(base + offset);
      var n := U32At(c.buf, k);
      // An empty vector only has to be aligned to its length field.
      if !((n == 0 || Aligned(k + 4, align)) && (k + 4) % 4 == 0) then
        Bad(VectorHeaderOutOfRangeOrUnaligned)
      else if n > CountMax(elem) then
        Bad(VectorCountExceedsRepresentableSize)
      else if end - (k + 4) < Wrap32(n * elem) then
        Bad(VectorOutOfRange)
      else
        Ok
  }

  /** What VerifyVector establishes: the elements lie inside the buffer, aligned. */
  lemma VectorInBounds(c: Ctx, base: nat, offset: nat, elem: nat, align: nat)
    requires |c.buf| < TWO_32 && align >= 1
    requires VerifyVector(c, base, offset, elem, align).Ok?
    ensures var k := Wrap32(base + offset);
            && base < k && k + 4 <= |c.buf| && k % 4 == 0
            && k + 4 + U32At(c.buf, k) * elem <= |c.buf|
            && (U32At(c.buf, k) > 0 ==> (k + 4) % align == 0)
  {
    var n := U32At(c.buf, Wrap32(base + offset));
    var m := CountMax(elem);
    MulMonotone(n, m, elem);
  }

  lemma MulMonotone(n: nat, m: nat, e: nat)
    requires n <= m
    ensures n * e <= e * m
  {}

  /** An offset vector of n strings whose elements start at base: the first error, if any. */
  function VerifyStringsFrom(c: Ctx, base: nat, n: nat): Status
    requires |c.buf| < TWO_32 && base + 4 * n <= |c.buf|
    decreases n
  {
    if n == 0 then Ok else
    var r := VerifyString(c, base, U32At(c.buf, base));
    if r.Bad? then r else VerifyStringsFrom(c, base + 4, n - 1)
  }

  function VerifyStringVector(c: Ctx, base: nat, offset: nat): Status
    requires |c.buf| < TWO_32
  {
    var r := VerifyVector(c, base, offset, 4, 4);
    if r.Bad? then r else
    VectorInBounds(c, base, offset, 4, 4);
    var k := Wrap32(base + offset);
    VerifyStringsFrom(c, k + 4, U32At(c.buf, k))
  }

  /** The checks on a table header and its vtable, and the descriptor they yield. */
  datatype TdResult = GoodTd(td: Td) | BadTd(error: Error)

  function VerifyTableHeader(c: Ctx, base: nat, offset: nat, ttl: int): (r: TdResult)
    requires |c.buf| < TWO_32
    ensures r.GoodTd? ==>
              && TdOk(c, r.td) && r.td.table == Wrap32(base + offset) > base
              && r.td.table + 4 <= |c.buf| && r.td.ttl == ttl - 1
              && r.td.vsize >= 4 && r.td.vtable % 2 == 0
              && r.td.vtable == Wrap32(r.td.table - U32At(c.buf, r.td.table))
              && r.td.vsize == U16At(c.buf, r.td.vtable)
  {
    var end := |c.buf|;
    if ttl - 1 == 0 then BadTd(MaxNestingLevelReached) else
    if !CheckHeader(end, base, offset) then BadTd(TableHeaderOutOfRangeOrUnaligned) else
    var table := Wrap32(base + offset);
    var vbase := Wrap32(table - U32At(c.buf, table));
    if !(Signed32(vbase) >= 0 && vbase % 2 == 0) then BadTd(VtableOffsetOutOfRangeOrUnaligned) else
    if vbase + 2 > end then BadTd(VtableHeaderOutOfRange) else
    var vsize := U16At(c.buf, vbase);
    if vbase + vsize > end || vsize % 2 != 0 then BadTd(VtableSizeOutOfRangeOrUnaligned) else
    if vsize < 4 then BadTd(VtableHeaderTooSmall) else
    var tsize := U16At(c.buf, vbase + 2);
    if end - table < tsize then BadTd(TableSizeOutOfRange) else
    GoodTd(Td(ttl - 1, vbase, table, tsize, vsize))
  }

  function VerifyTable(c: Ctx, base: nat, offset: nat, ttl: int, tid: nat): Status
    requires WfSchema(c.sc) && tid < |c.sc.tables|
    requires |c.buf| < TWO_32 && base <= |c.buf|
    decreases |c.buf| - base, 0, 0
  {
    match VerifyTableHeader(c, base, offset, ttl)
    case BadTd(e) => Bad(e)
    case GoodTd(td) => VerifyFields(c, td, c.sc.tables[tid])
  }

  /** The generated verifier of a table type: each known field in turn, stopping at an error. */
  function VerifyFields(c: Ctx, td: Td, fields: seq<Field>): Status
    requires WfSchema(c.sc) && forall i | 0 <= i < |fields| :: WfField(c.sc, fields[i])
    requires TdOk(c, td)
    decreases |c.buf| - td.table, 4, |fields|
  {
    if fields == [] then Ok else
    var r := VerifyOneField(c, td, fields[0]);
    if r.Bad? then r else VerifyFields(c, td, fields[1..])
  }

  function VerifyOneField(c: Ctx, td: Td, f: Field): Status
    requires WfSchema(c.sc) && WfField(c.sc, f) && TdOk(c, td)
    decreases |c.buf| - td.table, 3, 0
  {
    match f
    case FScalar(id, size, align, _, _) => VerifyField(c, td, id, false, size, align)
    case FOffset(id, required, kind) => VerifyOffsetField(c, td, id, required, kind)
    case FUnion(id, required, members) => VerifyUnionField(c, td, id, required, members)
    case FUnions(id, required, members) => VerifyUnionVectorField(c, td, id, required, members)
  }

  function VerifyOffsetField(c: Ctx, td: Td, id: nat, required: bool, kind: Kind): Status
    requires WfSchema(c.sc) && WfKind(c.sc, kind) && TdOk(c, td)
    decreases |c.buf| - td.table, 2, 0
  {
    match GetOffsetField(c, td, id, required)
    case PosErr(e) => Bad(e)
    case Pos(p) => if p == 0 then Ok else VerifyTarget(c, p, U32At(c.buf, p), td.ttl, kind)
  }

  function VerifyTarget(c: Ctx, base: nat, offset: nat, ttl: int, kind: Kind): Status
    requires WfSchema(c.sc) && WfKind(c.sc, kind)
    requires |c.buf| < TWO_32 && base <= |c.buf|
    decreases |c.buf| - base, 2, 0
  {
    match kind
    case KStr => VerifyString(c, base, offset)
    case KVec(elem, align) => VerifyVector(c, base, offset, elem, align)
    case KStrs => VerifyStringVector(c, base, offset)
    case KTable(t) => VerifyTable(c, base, offset, ttl, t)
    case KTables(t) => VerifyTableVector(c, base, offset, ttl, t)
  }

  function VerifyTablesFrom(c: Ctx, base: nat, n: nat, ttl: int, tid: nat): Status
    requires WfSchema(c.sc) && tid < |c.sc.tables|
    requires |c.buf| < TWO_32 && base + 4 * n <= |c.buf|
    decreases |c.buf| - base, 1, n
  {
    if n == 0 then Ok else
    var r := VerifyTable(c, base, U32At(c.buf, base), ttl, tid);
    if r.Bad? then r else VerifyTablesFrom(c, base + 4, n - 1, ttl, tid)
  }

  function VerifyTableVector(c: Ctx, base: nat, offset: nat, ttl: int, tid: nat): Status
    requires WfSchema(c.sc) && tid < |c.sc.tables|
    requires |c.buf| < TWO_32 && base <= |c.buf|
    decreases |c.buf| - base, 1, 0
  {
    if ttl <= 0 then Bad(MaxNestingLevelReached) else
    var r := VerifyVector(c, base, offset, 4, 4);
    if r.Bad? then r else
    VectorInBounds(c, base, offset, 4, 4);
    var k := Wrap32(base + offset);
    VerifyTablesFrom(c, k + 4, U32At(c.buf, k), ttl - 1, tid)
  }

  /** The generated union verifier: unknown types are accepted for forward compatibility. */
  function VerifyMember(c: Ctx, base: nat, offset: nat, ttl: int, tag: u8, members: map<u8, Kind>): Status
    requires WfSchema(c.sc) && WfMembers(c.sc, members)
    requires |c.buf| < TWO_32 && base <= |c.buf|
    decreases |c.buf| - base, 1, 0
  {
    if tag !in members then Ok else
    match members[tag]
    case KTable(t) => VerifyTable(c, base, offset, ttl, t)
    case _ => VerifyString(c, base, offset)
  }

  function VerifyUnionField(c: Ctx, td: Td, id: nat, required: bool, members: map<u8, Kind>): Status
    requires WfSchema(c.sc) && WfMembers(c.sc, members) && TdOk(c, td) && id >= 1
    decreases |c.buf| - td.table, 2, 0
  {
    var vteType := ReadVtEntry(c, td, id - 1);
    var vteTable := ReadVtEntry(c, td, id);
    if vteType == 0 then
      if vteTable != 0 then Bad(UnionCannotHaveATableWithoutAType)
      else if required then Bad(TypeFieldAbsentFromRequiredUnion)
      else Ok
    else
      var r := VerifyField(c, td, id - 1, false, 1, 1);
      if r.Bad? then r else
      var tag := c.buf[td.table + vteType];
      if tag == 0 then
        if vteTable != 0 then Bad(UnionTypeNoneCannotHaveAValue) else Ok
      else
        match GetOffsetField(c, td, id, required)
        case PosErr(e) => Bad(e)
        case Pos(p) =>
          if p == 0 then Ok else VerifyMember(c, p, U32At(c.buf, p), td.ttl, tag, members)
  }

  function VerifyUnionsFrom(c: Ctx, base: nat, types: nat, n: nat, ttl: int, members: map<u8, Kind>): Status
    requires WfSchema(c.sc) && WfMembers(c.sc, members)
    requires |c.buf| < TWO_32 && base + 4 * n <= |c.buf| && types + n <= |c.buf|
    decreases |c.buf| - base, 2, n
  {
    if n == 0 then Ok else
    var elem := U32At(c.buf, base);
    var tag := c.buf[types];
    if elem == 0 then
      if tag != 0 then Bad(UnionElementAbsentWithoutTypeNone)
      else VerifyUnionsFrom(c, base + 4, types + 1, n - 1, ttl, members)
    else if tag == 0 then
      Bad(UnionElementPresentWithTypeNone)
    else
      var r := VerifyMember(c, base, elem, ttl, tag, members);
      if r.Bad? then r else VerifyUnionsFrom(c, base + 4, types + 1, n - 1, ttl, members)
  }

  function VerifyUnionVector(c: Ctx, base: nat, offset: nat, count: nat, types: nat, ttl: int,
      members: map<u8, Kind>): Status
    requires WfSchema(c.sc) && WfMembers(c.sc, members)
    requires |c.buf| < TWO_32 && base <= |c.buf| && types + count <= |c.buf|
    decreases |c.buf| - base, 1, 0
  {
    if ttl <= 0 then Bad(MaxNestingLevelReached) else
    var r := VerifyVector(c, base, offset, 4, 4);
    if r.Bad? then r else
    VectorInBounds(c, base, offset, 4, 4);
    var k := Wrap32(base + offset);
    if U32At(c.buf, k) != count then Bad(UnionVectorLengthMismatch) else
    VerifyUnionsFrom(c, k + 4, types, count, ttl - 1, members)
  }

  function VerifyUnionVectorField(c: Ctx, td: Td, id: nat, required: bool, members: map<u8, Kind>): Status
    requires WfSchema(c.sc) && WfMembers(c.sc, members) && TdOk(c, td) && id >= 1
    decreases |c.buf| - td.table, 2, 0
  {
    if ReadVtEntry(c, td, id - 1) == 0 && ReadVtEntry(c, td, id) == 0 && required then
      Bad(TypeFieldAbsentFromRequiredUnionVector)
    else
      match GetOffsetField(c, td, id - 1, required)
      case PosErr(e) => Bad(e)
      case Pos(q) =>
        if q == 0 then Ok else
        var r := VerifyVector(c, q, U32At(c.buf, q), 1, 1);
        if r.Bad? then r else
        VectorInBounds(c, q, U32At(c.buf, q), 1, 1);
        var k := Wrap32(q + U32At(c.buf, q));
        match GetOffsetField(c, td, id, required)
        case PosErr(e) => Bad(e)
        case Pos(p) =>
          if p == 0 then Ok else
          VerifyUnionVector(c, p, U32At(c.buf, p), U32At(c.buf, k), k + 4, td.ttl, members)
  }

  function VerifyBufferHeader(c: Ctx): Status {
    if c.addr % 4 != 0 then Bad(RuntimeBufferHeaderNotAligned)
    else if |c.buf| > UOFFSET_MAX - 8 then Bad(RuntimeBufferSizeTooLarge)
    else if |c.buf| < 4 + IDENTIFIER_SIZE then Bad(BufferHeaderTooSmall)
    else Ok
  }

  function VerifyTableAsRoot(c: Ctx, tid: nat): Status
    requires WfSchema(c.sc) && tid < |c.sc.tables|
  {
    var r := VerifyBufferHeader(c);
    if r.Bad? then r else VerifyTable(c, 0, U32At(c.buf, 0), MAX_LEVELS, tid)
  }

  // ---- the element loops ------------------------------------------------------------------

  method RunStringVector(c: Ctx, base: nat, offset: nat) returns (r: Status)
    requires |c.buf| < TWO_32
    ensures r == VerifyStringVector(c, base, offset)
  {
    r := VerifyVector(c, base, offset, 4, 4);
    if r.Bad? { return; }
    VectorInBounds(c, base, offset, 4, 4);
    var b: nat := Wrap32(base + offset);
    var n := U32At(c.buf, b);
    b := b + 4;
    var i := 0;
    while i < n
      invariant 0 <= i <= n && b + 4 * (n - i) <= |c.buf|
      invariant VerifyStringVector(c, base, offset) == VerifyStringsFrom(c, b, n - i)
    {
      r := VerifyString(c, b, U32At(c.buf, b));
      if r.Bad? { return; }
      i, b := i + 1, b + 4;
    }
    r := Ok;
  }

  method RunTableVector(c: Ctx, base: nat, offset: nat, ttl: int, tid: nat) returns (r: Status)
    requires WfSchema(c.sc) && tid < |c.sc.tables|
    requires |c.buf| < TWO_32 && base <= |c.buf|
    ensures r == VerifyTableVector(c, base, offset, ttl, tid)
  {
    if ttl <= 0 { return Bad(MaxNestingLevelReached); }
    r := VerifyVector(c, base, offset, 4, 4);
    if r.Bad? { return; }
    VectorInBounds(c, base, offset, 4, 4);
    var b: nat := Wrap32(base + offset);
    var n := U32At(c.buf, b);
    b := b + 4;
    var i := 0;
    while i < n
      invariant 0 <= i <= n && b + 4 * (n - i) <= |c.buf|
      invariant VerifyTableVector(c, base, offset, ttl, tid) == VerifyTablesFrom(c, b, n - i, ttl - 1, tid)
    {
      r := VerifyTable(c, b, U32At(c.buf, b), ttl - 1, tid);
      if r.Bad? { return; }
      i, b := i + 1, b + 4;
    }
    r := Ok;
  }

  method RunUnionVector(c: Ctx, base: nat, offset: nat, count: nat, types: nat, ttl: int, members: map<u8, Kind>)
    returns (r: Status)
    requires WfSchema(c.sc) && WfMembers(c.sc, members)
    requires |c.buf| < TWO_32 && base <= |c.buf| && types + count <= |c.buf|
    ensures r == VerifyUnionVector(c, base, offset, count, types, ttl, members)
  {
    if ttl <= 0 { return Bad(MaxNestingLevelReached); }
    r := VerifyVector(c, base, offset, 4, 4);
    if r.Bad? { return; }
    VectorInBounds(c, base, offset, 4, 4);
    var b: nat := Wrap32(base + offset);
    var n := U32At(c.buf, b);
    if n != count { return Bad(UnionVectorLengthMismatch); }
    b := b + 4;
    var i := 0;
    while i < n
      invariant 0 <= i <= n && b + 4 * (n - i) <= |c.buf|
      invariant VerifyUnionVector(c, base, offset, count, types, ttl, members)
             == VerifyUnionsFrom(c, b, types + i, n - i, ttl - 1, members)
    {
      var elem := U32At(c.buf, b);
      var tag := c.buf[types + i];
      if elem == 0 {
        if tag != 0 { return Bad(UnionElementAbsentWithoutTypeNone); }
      } else {
        if tag == 0 { return Bad(UnionElementPresentWithTypeNone); }
        r := VerifyMember(c, b, elem, ttl - 1, tag, members);
        if r.Bad? { return; }
      }
      i, b := i + 1, b + 4;
    }
    r := Ok;
  }
}
