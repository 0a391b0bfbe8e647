/** Table schemas and the values that conforming buffers hold. One generic interpreter of a
    schema stands for the verifier and reader code that flatcc generates per table type. */
module Schema {
  import opened Bytes
  import opened Scalars

  const UOFFSET_MAX := 0xFFFF_FFFF
  const ID_MAX := 32764          // 0xFFFF / sizeof(voffset) - 3

  /** What an offset field, a vector element or a union member points to. */
  datatype Kind =
    | KStr
    | KVec(elem: nat, align: nat)
    | KStrs
    | KTable(tid: nat)
    | KTables(tid: nat)

  /** A field of a table. A scalar also stands for an inline struct: `size` bytes aligned to `align`,
      compared with its default as bits or as a floating-point number. A union owns the two ids
      `id - 1` (its type) and `id` (its value). */
  datatype Field =
    | FScalar(id: nat, size: nat, align: nat, default: seq<u8>, floating: bool)
    | FOffset(id: nat, required: bool, kind: Kind)
    | FUnion(id: nat, required: bool, members: map<u8, Kind>)
    | FUnions(id: nat, required: bool, members: map<u8, Kind>)

  datatype Schema = Schema(tables: seq<seq<Field>>)

  datatype Value =
    | Absent
    | Scalar(bytes: seq<u8>)
    | Str(chars: seq<u8>)
    | Vec(count: nat, data: seq<u8>)
    | Strs(items: seq<seq<u8>>)
    | Table(fields: seq<Value>)
    | Tables(rows: seq<Value>)
    | Union(tag: u8, member: Value)
    | Unions(tags: seq<u8>, elems: seq<Value>)
    | Opaque                    // a union value whose type the schema does not know

  predicate WfKind(sc: Schema, k: Kind) {
    match k
    case KStr => true
    case KVec(elem, align) => elem < TWO_16 && IsPow2(align) && align < TWO_16
    case KStrs => true
    case KTable(t) => t < |sc.tables|
    case KTables(t) => t < |sc.tables|
  }

  /** Union members are tables or strings; type 0 is NONE. */
  predicate WfMembers(sc: Schema, m: map<u8, Kind>) {
    0 !in m && forall t | t in m :: (m[t].KTable? || m[t].KStr?) && WfKind(sc, m[t])
  }

  predicate WfField(sc: Schema, f: Field) {
    match f
    case FScalar(id, size, align, default, floating) =>
      id <= ID_MAX && 1 <= size < TWO_16 && IsPow2(align) && align < TWO_16 && |default| == size
          && (floating ==> FloatSize(size))
    case FOffset(id, _, kind) => id <= ID_MAX && WfKind(sc, kind)
    case FUnion(id, _, members) => 1 <= id <= ID_MAX && WfMembers(sc, members)
    case FUnions(id, _, members) => 1 <= id <= ID_MAX && WfMembers(sc, members)
  }

  predicate WfSchema(sc: Schema) {
    forall t, i | 0 <= t < |sc.tables| && 0 <= i < |sc.tables[t]| :: WfField(sc, sc.tables[t][i])
  }

  predicate Owns(f: Field, id: nat) {
    match f
    case FScalar(i, _, _, _, _) => id == i
    case FOffset(i, _, _) => id == i
    case FUnion(i, _, _) => id == i || id + 1 == i
    case FUnions(i, _, _) => id == i || id + 1 == i
  }

  /** No two fields of a table share an id. */
  ghost predicate Separate(fields: seq<Field>) {
    forall i, j, id: nat | 0 <= i < j < |fields| && Owns(fields[i], id) :: !Owns(fields[j], id)
  }

  ghost predicate FieldsSound(sc: Schema, fields: seq<Field>) {
    Separate(fields) && forall i | 0 <= i < |fields| :: WfField(sc, fields[i])
  }

  /** A schema whose tables keep their fields apart. */
  ghost predicate Sound(sc: Schema) {
    WfSchema(sc) && forall t | 0 <= t < |sc.tables| :: FieldsSound(sc, sc.tables[t])
  }

  /** FLATBUFFERS_COUNT_MAX: the most elements whose total size a uoffset can express. */
  function CountMax(elem: nat): (n: nat)
    ensures elem * n < TWO_32
  {
    if elem == 0 then UOFFSET_MAX else UOFFSET_MAX / elem
  }
}
