/** The accessors generated readers use, chained into a walk over everything a schema can reach.
    Every load is checked against the bytes: one outside the buffer, or misaligned, is a Fault, and so
    is a failed assertion.
    Pointers have the 32-bit width of the target. A walk also faults rather than follow an
    offset that does not move forward: such a walk has no reason to end. */
module Reader {
  import opened Bytes
  import opened Schema
  import opened Verifier

  datatype Read<T> = Got(v: T) | Fault

  function Load8(c: Ctx, p: nat): Read<u8> {
    if p < |c.buf| then Got(c.buf[p]) else Fault
  }

  function Load16(c: Ctx, p: nat): (r: Read<nat>)
    ensures r.Got? ==> r.v < TWO_16
  {
    if p + 2 <= |c.buf| && (c.addr + p) % 2 == 0 then Got(U16At(c.buf, p)) else Fault
  }

  function Load32(c: Ctx, p: nat): (r: Read<nat>)
    ensures r.Got? ==> r.v < TWO_32
  {
    if p + 4 <= |c.buf| && (c.addr + p) % 4 == 0 then Got(U32At(c.buf, p)) else Fault
  }

  /** The offset of field `id` in the table at t, 0 when the vtable does not hold it. */
  function ReadVt(c: Ctx, t: nat, id: nat): (r: Read<nat>)
    ensures r.Got? ==> r.v < TWO_16
  {
    var so := Load32(c, t);
    if so.Fault? then Fault else
    var vt := Wrap32(t - so.v);
    var vsize := Load16(c, vt);
    if vsize.Fault? then Fault else
    if vsize.v >= 2 * (id + 3) then Load16(c, vt + 2 * (id + 2)) else Got(0)
  }

  /** The inline bytes of a scalar field, or its default. */
  function ReadScalar(c: Ctx, t: nat, id: nat, size: nat, align: nat, default: seq<u8>): Read<Value>
    requires align >= 1
  {
    var off := ReadVt(c, t, id);
    if off.Fault? then Fault else
    if off.v == 0 then Got(Scalar(default)) else
    var p := t + off.v;
    if p + size <= |c.buf| && Aligned(c.addr + p, align) then Got(Scalar(c.buf[p..p + size])) else Fault
  }

  /** Where an offset stored at p leads, provided that is further on. */
  function Follow(c: Ctx, p: nat): (r: Read<nat>)
    ensures r.Got? ==> p < r.v && p + 4 <= |c.buf|
  {
    var u := Load32(c, p);
    if u.Fault? then Fault else
    var target := Wrap32(p + u.v);
    if target > p then Got(target) else Fault
  }

  /** The string at k: its characters. It is handed on as a C string, which faults unless the byte behind
      them is there and zero. */
  function ReadString(c: Ctx, k: nat): Read<seq<u8>> {
    var n := Load32(c, k);
    if n.Fault? then Fault else
    if Load8(c, k + 4 + n.v) != Got(0) then Fault else Got(c.buf[k + 4..k + 4 + n.v])
  }

  function ReadVector(c: Ctx, k: nat, elem: nat, align: nat): Read<Value>
    requires align >= 1
  {
    var n := Load32(c, k);
    if n.Fault? then Fault else
    if k + 4 + n.v * elem > |c.buf| || (n.v > 0 && !Aligned(c.addr + k + 4, align)) then Fault else
    Got(Vec(n.v, c.buf[k + 4..k + 4 + n.v * elem]))
  }

  function ReadStringsFrom(c: Ctx, base: nat, n: nat): Read<seq<seq<u8>>>
    decreases n
  {
    if n == 0 then Got([]) else
    var k := Follow(c, base);
    if k.Fault? then Fault else
    var s := ReadString(c, k.v);
    if s.Fault? then Fault else
    var rest := ReadStringsFrom(c, base + 4, n - 1);
    if rest.Fault? then Fault else Got([s.v] + rest.v)
  }

  /** `limit - p`, the fuel-free measure: positions only grow, and loads past the end fault. */
  function Left(c: Ctx, p: nat): nat {
    if p < |c.buf| then |c.buf| - p else 0
  }

  function ReadTable(c: Ctx, t: nat, tid: nat): Read<Value>
    requires WfSchema(c.sc) && tid < |c.sc.tables|
    decreases Left(c, t), 4, 0
  {
    if t >= |c.buf| then Fault else
    var r := ReadFields(c, t, c.sc.tables[tid]);
    if r.Fault? then Fault else Got(Table(r.v))
  }

  function ReadFields(c: Ctx, t: nat, fields: seq<Field>): Read<seq<Value>>
    requires WfSchema(c.sc) && forall i | 0 <= i < |fields| :: WfField(c.sc, fields[i])
    requires t < |c.buf|
    decreases Left(c, t), 3, |fields|
  {
    if fields == [] then Got([]) else
    var v := ReadField(c, t, fields[0]);
    if v.Fault? then Fault else
    var rest := ReadFields(c, t, fields[1..]);
    if rest.Fault? then Fault else Got([v.v] + rest.v)
  }

  function ReadField(c: Ctx, t: nat, f: Field): Read<Value>
    requires WfSchema(c.sc) && WfField(c.sc, f) && t < |c.buf|
    decreases Left(c, t), 2, 0
  {
    match f
    case FScalar(id, size, align, default, _) => ReadScalar(c, t, id, size, align, default)
    case FOffset(id, required, kind) => ReadOffsetField(c, t, id, required, kind)
    case FUnion(id, required, members) => ReadUnion(c, t, id, required, members)
    case FUnions(id, _, members) => ReadUnions(c, t, id, members)
  }

  /** What an offset field leads to; a required one is asserted to be there. */
  function ReadOffsetField(c: Ctx, t: nat, id: nat, required: bool, kind: Kind): Read<Value>
    requires WfSchema(c.sc) && WfKind(c.sc, kind) && t < |c.buf|
    decreases Left(c, t), 1, 0
  {
    var off := ReadVt(c, t, id);
    if off.Fault? then Fault else
    if off.v == 0 then (if required then Fault else Got(Absent)) else
    var k := Follow(c, t + off.v);
    if k.Fault? then Fault else ReadTarget(c, k.v, kind)
  }

  function ReadTarget(c: Ctx, k: nat, kind: Kind): Read<Value>
    requires WfSchema(c.sc) && WfKind(c.sc, kind)
    decreases Left(c, k), 6, 0
  {
    match kind
    case KStr =>
      var s := ReadString(c, k);
      if s.Fault? then Fault else Got(Str(s.v))
    case KVec(elem, align) => ReadVector(c, k, elem, align)
    case KStrs =>
      var n := Load32(c, k);
      if n.Fault? then Fault else
      var r := ReadStringsFrom(c, k + 4, n.v);
      if r.Fault? then Fault else Got(Strs(r.v))
    case KTable(tid) => ReadTable(c, k, tid)
    case KTables(tid) =>
      var n := Load32(c, k);
      if n.Fault? then Fault else
      var r := ReadTablesFrom(c, k + 4, n.v, tid);
      if r.Fault? then Fault else Got(Tables(r.v))
  }

  function ReadTablesFrom(c: Ctx, base: nat, n: nat, tid: nat): Read<seq<Value>>
    requires WfSchema(c.sc) && tid < |c.sc.tables|
    decreases Left(c, base), 5, n
  {
    if n == 0 then Got([]) else
    var k := Follow(c, base);
    if k.Fault? then Fault else
    var v := ReadTable(c, k.v, tid);
    if v.Fault? then Fault else
    var rest := ReadTablesFrom(c, base + 4, n - 1, tid);
    if rest.Fault? then Fault else Got([v.v] + rest.v)
  }

  /** A union member through the offset stored at p. An unknown type is not followed. */
  function ReadMember(c: Ctx, p: nat, tag: u8, members: map<u8, Kind>): Read<Value>
    requires WfSchema(c.sc) && WfMembers(c.sc, members)
    decreases Left(c, p), 7, 0
  {
    if Load32(c, p).Fault? then Fault else
    if tag !in members then Got(Opaque) else
    var k := Follow(c, p);
    if k.Fault? then Fault else
    match members[tag]
    case KTable(tid) => ReadTable(c, k.v, tid)
    case _ =>
      var s := ReadString(c, k.v);
      if s.Fault? then Fault else Got(Str(s.v))
  }

  /** A union: its type, and through the type its value. The accessor of the value alone asserts that a
      required one is there. */
  function ReadUnion(c: Ctx, t: nat, id: nat, required: bool, members: map<u8, Kind>): Read<Value>
    requires WfSchema(c.sc) && WfMembers(c.sc, members) && id >= 1 && t < |c.buf|
    decreases Left(c, t), 1, 0
  {
    var typeOff := ReadVt(c, t, id - 1);
    if typeOff.Fault? then Fault else
    var tag := if typeOff.v == 0 then Got(0) else Load8(c, t + typeOff.v);
    if tag.Fault? then Fault else
    var off := ReadVt(c, t, id);
    if off.Fault? || (off.v == 0 && required) then Fault else
    if tag.v == 0 then Got(Absent) else
    if off.v == 0 then Got(Union(tag.v, Absent)) else
    var m := ReadMember(c, t + off.v, tag.v, members);
    if m.Fault? then Fault else Got(Union(tag.v, m.v))
  }

  function ReadUnionsFrom(c: Ctx, base: nat, types: nat, n: nat, members: map<u8, Kind>): Read<seq<Value>>
    requires WfSchema(c.sc) && WfMembers(c.sc, members)
    decreases Left(c, base), 8, n
  {
    if n == 0 then Got([]) else
    if base >= |c.buf| then Fault else
    var tag := Load8(c, types);
    if tag.Fault? then Fault else
    var v := if tag.v == 0 then Got(Absent) else ReadMember(c, base, tag.v, members);
    if v.Fault? then Fault else
    var rest := ReadUnionsFrom(c, base + 4, types + 1, n - 1, members);
    if rest.Fault? then Fault else Got([v.v] + rest.v)
  }

  /** The vector an offset field leads to and its length: a null of length 0 when the field is absent. */
  function ReadLength(c: Ctx, t: nat, off: nat): (r: Read<(nat, nat)>)
    ensures r.Got? ==> if off == 0 then r.v == (0, 0) else t + off < r.v.0
  {
    if off == 0 then Got((0, 0)) else
    var k := Follow(c, t + off);
    if k.Fault? then Fault else
    var n := Load32(c, k.v);
    if n.Fault? then Fault else Got((k.v, n.v))
  }

  /** A union vector: its type vector and its value vector, each followed if its field is there, the other
      or not; their lengths, asserted to agree; then the members. */
  function ReadUnions(c: Ctx, t: nat, id: nat, members: map<u8, Kind>): Read<Value>
    requires WfSchema(c.sc) && WfMembers(c.sc, members) && id >= 1 && t < |c.buf|
    decreases Left(c, t), 1, 0
  {
    var typeOff, off := ReadVt(c, t, id - 1), ReadVt(c, t, id);
    if typeOff.Fault? || off.Fault? then Fault else
    var q, k := ReadLength(c, t, typeOff.v), ReadLength(c, t, off.v);
    if q.Fault? || k.Fault? || q.v.1 != k.v.1 then Fault else
    if typeOff.v == 0 then Got(Absent) else
    var types := ReadVector(c, q.v.0, 1, 1);
    if types.Fault? then Fault else
    if off.v == 0 then Got(Unions([], [])) else
    var r := ReadUnionsFrom(c, k.v.0 + 4, q.v.0 + 4, q.v.1, members);
    if r.Fault? then Fault else Got(Unions(types.v.data, r.v))
  }

  /** The root accessor followed by the full walk. */
  function ReadRoot(c: Ctx, tid: nat): Read<Value>
    requires WfSchema(c.sc) && tid < |c.sc.tables|
  {
    var k := Follow(c, 0);
    if k.Fault? then Fault else ReadTable(c, k.v, tid)
  }
}
