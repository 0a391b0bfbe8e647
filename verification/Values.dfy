/** The values a client of the builder can put into a buffer, how much building them emits, and what
    reading them back gives. */
module Values {
  import opened Bytes
  import opened Scalars
  import opened Schema
  import opened EmitSpace
  import opened Frames
  import opened Emission

  // ---- the order in which fields are added -------------------------------------------------------

  /** The order in which a client adds the fields of a table, given its type and field values. */
  type Order = (nat, seq<Value>) -> seq<nat>

  predicate Permutes(order: seq<nat>, n: nat) {
    && |order| == n && (forall i | 0 <= i < n :: order[i] < n)
    && (forall i, j | 0 <= i < j < n :: order[i] != order[j]) && (forall k | 0 <= k < n :: k in order)
  }

  function Picked<T>(s: seq<T>, order: seq<nat>): (r: seq<T>)
    requires forall i | 0 <= i < |order| :: order[i] < |s|
    ensures |r| == |order| && forall i | 0 <= i < |r| :: r[i] == s[order[i]]
  {
    seq(|order|, i requires 0 <= i < |order| => s[order[i]])
  }

  lemma PickedSound(sc: Schema, fields: seq<Field>, order: seq<nat>)
    requires FieldsSound(sc, fields) && Permutes(order, |fields|)
    ensures FieldsSound(sc, Picked(fields, order))
  {
    hide WfField, Owns;
    var p := Picked(fields, order);
    forall i, j, id: nat | 0 <= i < j < |p| && Owns(p[i], id) ensures !Owns(p[j], id) {
      assert order[i] != order[j];
    }
  }

  // ---- conforming values -------------------------------------------------------------------------

  /** v is a value of kind k whose tables nest at most `levels` deep, each with a payload that the
      16-bit table size can express. */
  ghost predicate Conforms(sc: Schema, ord: Order, k: Kind, v: Value, levels: nat)
    requires Sound(sc) && WfKind(sc, k)
    decreases levels, 0
  {
    match k
    case KStr => v.Str?
    case KVec(elem, _) => v.Vec? && Sized(|v.data|, v.count, elem) && v.count <= CountMax(elem)
    case KStrs => v.Strs?
    case KTable(tid) =>
      var fields := sc.tables[tid];
      && v.Table? && levels > 0 && |v.fields| == |fields| && Permutes(ord(tid, v.fields), |fields|)
      && Payload(Picked(fields, ord(tid, v.fields)), Picked(v.fields, ord(tid, v.fields)), 0) + 4 < TWO_16
      && forall i | 0 <= i < |v.fields| :: ConformsField(sc, ord, fields[i], v.fields[i], levels - 1)
    case KTables(tid) =>
      v.Tables? && levels > 0 && forall i | 0 <= i < |v.rows| :: Conforms(sc, ord, KTable(tid), v.rows[i], levels - 1)
  }

  ghost predicate ConformsField(sc: Schema, ord: Order, f: Field, v: Value, levels: nat)
    requires Sound(sc) && WfField(sc, f)
    decreases levels, 2
  {
    match f
    case FScalar(_, size, _, _, _) => v.Scalar? && |v.bytes| == size
    case FOffset(_, required, kind) => if v.Absent? then !required else Conforms(sc, ord, kind, v, levels)
    case FUnion(_, required, members) =>
      if v.Absent? then !required else
      v.Union? && v.tag in members && Conforms(sc, ord, members[v.tag], v.member, levels)
    case FUnions(_, required, members) =>
      if v.Absent? then !required else
      && v.Unions? && levels > 0 && |v.tags| == |v.elems| <= CountMax(4)
      && forall i | 0 <= i < |v.elems| :: ConformsElem(sc, ord, members, v.tags[i], v.elems[i], levels - 1)
  }

  /** An element of a union vector: nothing under type NONE, else a member. */
  ghost predicate ConformsElem(sc: Schema, ord: Order, members: map<u8, Kind>, tag: u8, v: Value, levels: nat)
    requires Sound(sc) && WfMembers(sc, members)
    decreases levels, 1
  {
    if tag == 0 then v.Absent? else tag in members && Conforms(sc, ord, members[tag], v, levels)
  }

  /** Where a table's payload ends after its fields, in this order, starting from offset `off`. */
  function Payload(fields: seq<Field>, values: seq<Value>, off: nat): (end: nat)
    requires |fields| == |values|
    ensures end >= off
  {
    if fields == [] then off else
    Payload(fields[1..], values[1..], FieldEnd(fields[0], values[0], off))
  }

  function FieldEnd(f: Field, v: Value, off: nat): (end: nat)
    ensures end >= off
  {
    AlignUpBounds(off, 4);
    AlignUpBounds(off, 1);
    AlignUpBounds(AlignUp(off, 1) + 1, 4);
    AlignUpBounds(AlignUp(off, 4) + 4, 4);
    match f
    case FScalar(_, size, align, default, floating) =>
      if (v.Scalar? && SameValue(v.bytes, default, floating)) || align == 0 then off else
      AlignUpBounds(off, align);
      AlignUp(off, align) + size
    case FOffset(_, _, _) => if v.Absent? then off else AlignUp(off, 4) + 4
    case FUnion(_, _, _) => if v.Absent? then off else AlignUp(AlignUp(off, 1) + 1, 4) + 4
    case FUnions(_, _, _) => if v.Absent? then off else AlignUp(AlignUp(off, 4) + 4, 4) + 4
  }

  // ---- how many bytes building takes at most -----------------------------------------------------

  function IdLimit(fields: seq<Field>): nat {
    if fields == [] then 0 else Max(fields[0].id + 1, IdLimit(fields[1..]))
  }

  function AlignLimit(fields: seq<Field>): (m: nat)
    ensures m >= 4
  {
    if fields == [] then 4 else Max(if fields[0].FScalar? then fields[0].align else 4, AlignLimit(fields[1..]))
  }

  ghost function Size(sc: Schema, ord: Order, k: Kind, v: Value, levels: nat): nat
    requires Sound(sc) && WfKind(sc, k) && Conforms(sc, ord, k, v, levels)
    decreases levels, 0, 0
  {
    match k
    case KStr => |v.chars| + 8
    case KVec(_, align) => |v.data| + 4 + Max(align, 4)
    case KStrs => StringsSize(v.items) + 4 * |v.items| + 8
    case KTable(tid) =>
      var fields, values := Picked(sc.tables[tid], ord(tid, v.fields)), Picked(v.fields, ord(tid, v.fields));
      FieldsSize(sc, ord, fields, values, levels - 1) + 2 * (IdLimit(fields) + 2) + Payload(fields, values, 0) + 4
          + AlignLimit(fields)
    case KTables(tid) => RowsSize(sc, ord, tid, v.rows, levels - 1) + 4 * |v.rows| + 8
  }

  function StringsSize(items: seq<seq<u8>>): nat {
    if items == [] then 0 else |items[0]| + 8 + StringsSize(items[1..])
  }

  ghost function RowsSize(sc: Schema, ord: Order, tid: nat, rows: seq<Value>, levels: nat): nat
    requires Sound(sc) && WfKind(sc, KTable(tid))
        && forall i | 0 <= i < |rows| :: Conforms(sc, ord, KTable(tid), rows[i], levels)
    decreases levels, 3, |rows|
  {
    if rows == [] then 0 else Size(sc, ord, KTable(tid), rows[0], levels) + RowsSize(sc, ord, tid, rows[1..], levels)
  }

  ghost function FieldsSize(sc: Schema, ord: Order, fields: seq<Field>, values: seq<Value>, levels: nat): nat
    requires Sound(sc) && |fields| == |values|
    requires forall i | 0 <= i < |fields| ::
        WfField(sc, fields[i]) && ConformsField(sc, ord, fields[i], values[i], levels)
    decreases levels, 3, |fields|
  {
    if fields == [] then 0 else
    FieldSize(sc, ord, fields[0], values[0], levels) + FieldsSize(sc, ord, fields[1..], values[1..], levels)
  }

  ghost function FieldSize(sc: Schema, ord: Order, f: Field, v: Value, levels: nat): nat
    requires Sound(sc) && WfField(sc, f) && ConformsField(sc, ord, f, v, levels)
    decreases levels, 2, 0
  {
    match f
    case FScalar(_, _, _, _, _) => 0
    case FOffset(_, _, kind) => if v.Absent? then 0 else Size(sc, ord, kind, v, levels)
    case FUnion(_, _, members) => if v.Absent? then 0 else Size(sc, ord, members[v.tag], v.member, levels)
    case FUnions(_, _, members) =>
      if v.Absent? then 0 else ElemsSize(sc, ord, members, v.tags, v.elems, levels - 1) + 5 * |v.elems| + 16
  }

  ghost function ElemsSize(sc: Schema, ord: Order, members: map<u8, Kind>, tags: seq<u8>, elems: seq<Value>,
      levels: nat): nat
    requires Sound(sc) && WfMembers(sc, members) && |tags| == |elems|
    requires forall i | 0 <= i < |elems| :: ConformsElem(sc, ord, members, tags[i], elems[i], levels)
    decreases levels, 3, |elems|
  {
    if elems == [] then 0 else
    ElemSize(sc, ord, members, tags[0], elems[0], levels) + ElemsSize(sc, ord, members, tags[1..], elems[1..], levels)
  }

  ghost function ElemSize(sc: Schema, ord: Order, members: map<u8, Kind>, tag: u8, v: Value, levels: nat): nat
    requires Sound(sc) && WfMembers(sc, members) && ConformsElem(sc, ord, members, tag, v, levels)
    decreases levels, 2, 0
  {
    if tag == 0 then 0 else Size(sc, ord, members[tag], v, levels)
  }

  // ---- what is read back -------------------------------------------------------------------------

  /** v as it reads back: a scalar that compares equal to its default has become the default. */
  ghost function Seen(sc: Schema, ord: Order, k: Kind, v: Value, levels: nat): Value
    requires Sound(sc) && WfKind(sc, k) && Conforms(sc, ord, k, v, levels)
    decreases levels, 0, 0
  {
    match k
    case KTable(tid) => Table(SeenFields(sc, ord, sc.tables[tid], v.fields, levels - 1))
    case KTables(tid) => Tables(SeenRows(sc, ord, tid, v.rows, levels - 1))
    case _ => v
  }

  ghost function SeenRows(sc: Schema, ord: Order, tid: nat, rows: seq<Value>, levels: nat): (r: seq<Value>)
    requires Sound(sc) && WfKind(sc, KTable(tid))
        && forall i | 0 <= i < |rows| :: Conforms(sc, ord, KTable(tid), rows[i], levels)
    ensures |r| == |rows|
    decreases levels, 3, |rows|
  {
    seq(|rows|, i requires 0 <= i < |rows| => Seen(sc, ord, KTable(tid), rows[i], levels))
  }

  ghost function SeenFields(sc: Schema, ord: Order, fields: seq<Field>, values: seq<Value>,
      levels: nat): (r: seq<Value>)
    requires Sound(sc) && |fields| == |values|
    requires forall i | 0 <= i < |fields| ::
        WfField(sc, fields[i]) && ConformsField(sc, ord, fields[i], values[i], levels)
    ensures |r| == |values|
    decreases levels, 3, |fields|
  {
    seq(|values|, i requires 0 <= i < |values| => SeenField(sc, ord, fields[i], values[i], levels))
  }

  ghost function SeenField(sc: Schema, ord: Order, f: Field, v: Value, levels: nat): Value
    requires Sound(sc) && WfField(sc, f) && ConformsField(sc, ord, f, v, levels)
    decreases levels, 2, 0
  {
    if v.Absent? then v else
    match f
    case FScalar(_, _, _, default, floating) => if SameValue(v.bytes, default, floating) then Scalar(default) else v
    case FOffset(_, _, kind) => Seen(sc, ord, kind, v, levels)
    case FUnion(_, _, members) => Union(v.tag, Seen(sc, ord, members[v.tag], v.member, levels))
    case FUnions(_, _, members) => Unions(v.tags, SeenElems(sc, ord, members, v.tags, v.elems, levels - 1))
  }

  ghost function SeenElems(sc: Schema, ord: Order, members: map<u8, Kind>, tags: seq<u8>, elems: seq<Value>,
      levels: nat): (r: seq<Value>)
    requires Sound(sc) && WfMembers(sc, members) && |tags| == |elems|
    requires forall i | 0 <= i < |elems| :: ConformsElem(sc, ord, members, tags[i], elems[i], levels)
    ensures |r| == |elems|
    decreases levels, 3, |elems|
  {
    seq(|elems|, i requires 0 <= i < |elems| => SeenElem(sc, ord, members, tags[i], elems[i], levels))
  }

  ghost function SeenElem(sc: Schema, ord: Order, members: map<u8, Kind>, tag: u8, v: Value, levels: nat): Value
    requires Sound(sc) && WfMembers(sc, members) && ConformsElem(sc, ord, members, tag, v, levels)
    decreases levels, 2, 0
  {
    if tag == 0 then Absent else Seen(sc, ord, members[tag], v, levels)
  }

  // ---- when that is v itself ---------------------------------------------------------------------

  /** A scalar field holds no floating-point zero whose default is the zero of the other sign. */
  predicate KeepsSign(v: Value, default: seq<u8>, floating: bool) {
    v.Scalar? && floating && |v.bytes| == |default| && FloatSize(|default|) && IsZero(v.bytes) && IsZero(default) ==>
        v.bytes == default
  }

  lemma ScalarSeen(sc: Schema, ord: Order, f: Field, v: Value, levels: nat)
    requires Sound(sc) && WfField(sc, f) && f.FScalar? && ConformsField(sc, ord, f, v, levels)
    ensures SeenField(sc, ord, f, v, levels) == v <==> KeepsSign(v, f.default, f.floating)
  {
    if SameValue(v.bytes, f.default, f.floating) && v.bytes != f.default {
      SameUnlessZeros(v.bytes, f.default, f.floating);
    }
    if !KeepsSign(v, f.default, f.floating) { ZerosSame(v.bytes, f.default); }
  }

  lemma ZerosSame(x: seq<u8>, y: seq<u8>)
    requires |x| == |y| && FloatSize(|x|) && IsZero(x) && IsZero(y)
    ensures SameValue(x, y, true)
  {}

  /** No scalar anywhere in v is such a zero. */
  ghost predicate SignsKept(sc: Schema, ord: Order, k: Kind, v: Value, levels: nat)
    requires Sound(sc) && WfKind(sc, k) && Conforms(sc, ord, k, v, levels)
    decreases levels, 0, 0
  {
    match k
    case KTable(tid) => FieldsKept(sc, ord, sc.tables[tid], v.fields, levels - 1)
    case KTables(tid) => forall i | 0 <= i < |v.rows| :: SignsKept(sc, ord, KTable(tid), v.rows[i], levels - 1)
    case _ => true
  }

  ghost predicate FieldsKept(sc: Schema, ord: Order, fields: seq<Field>, values: seq<Value>, levels: nat)
    requires Sound(sc) && |fields| == |values|
    requires forall i | 0 <= i < |fields| ::
        WfField(sc, fields[i]) && ConformsField(sc, ord, fields[i], values[i], levels)
    decreases levels, 3, 0
  {
    forall i | 0 <= i < |fields| :: FieldKept(sc, ord, fields[i], values[i], levels)
  }

  ghost predicate FieldKept(sc: Schema, ord: Order, f: Field, v: Value, levels: nat)
    requires Sound(sc) && WfField(sc, f) && ConformsField(sc, ord, f, v, levels)
    decreases levels, 2, 0
  {
    v.Absent? ||
    match f
    case FScalar(_, _, _, default, floating) => KeepsSign(v, default, floating)
    case FOffset(_, _, kind) => SignsKept(sc, ord, kind, v, levels)
    case FUnion(_, _, members) => SignsKept(sc, ord, members[v.tag], v.member, levels)
    case FUnions(_, _, members) =>
      forall i | 0 <= i < |v.elems| :: ElemKept(sc, ord, members, v.tags[i], v.elems[i], levels - 1)
  }

  ghost predicate ElemKept(sc: Schema, ord: Order, members: map<u8, Kind>, tag: u8, v: Value, levels: nat)
    requires Sound(sc) && WfMembers(sc, members) && ConformsElem(sc, ord, members, tag, v, levels)
    decreases levels, 1, 0
  {
    tag != 0 ==> SignsKept(sc, ord, members[tag], v, levels)
  }

  /** A value reads back bit for bit if and only if no floating-point zero in it has the zero of the other
      sign for its default. */
  lemma {:induction false} SeenExactly(sc: Schema, ord: Order, k: Kind, v: Value, levels: nat)
    requires Sound(sc) && WfKind(sc, k) && Conforms(sc, ord, k, v, levels)
    ensures Seen(sc, ord, k, v, levels) == v <==> SignsKept(sc, ord, k, v, levels)
    decreases levels, 0, 0
  {
    hide SeenField, FieldKept, ConformsField;
    match k
    case KTable(tid) =>
      var fields, seen := sc.tables[tid], SeenFields(sc, ord, sc.tables[tid], v.fields, levels - 1);
      forall i | 0 <= i < |fields|
        ensures seen[i] == v.fields[i] <==> FieldKept(sc, ord, fields[i], v.fields[i], levels - 1)
      {
        FieldSeen(sc, ord, fields[i], v.fields[i], levels - 1);
      }
    case KTables(tid) =>
      forall i | 0 <= i < |v.rows|
        ensures Seen(sc, ord, KTable(tid), v.rows[i], levels - 1) == v.rows[i]
            <==> SignsKept(sc, ord, KTable(tid), v.rows[i], levels - 1)
      {
        SeenExactly(sc, ord, KTable(tid), v.rows[i], levels - 1);
      }
    case _ =>
  }

  lemma {:induction false} FieldSeen(sc: Schema, ord: Order, f: Field, v: Value, levels: nat)
    requires Sound(sc) && WfField(sc, f) && ConformsField(sc, ord, f, v, levels)
    ensures SeenField(sc, ord, f, v, levels) == v <==> FieldKept(sc, ord, f, v, levels)
    decreases levels, 2, 0
  {
    hide Seen, SignsKept, Conforms, KeepsSign;
    if !v.Absent? {
      match f
      case FScalar(_, _, _, _, _) => ScalarSeen(sc, ord, f, v, levels);
      case FOffset(_, _, kind) => SeenExactly(sc, ord, kind, v, levels);
      case FUnion(_, _, members) => SeenExactly(sc, ord, members[v.tag], v.member, levels);
      case FUnions(_, _, members) =>
        forall i | 0 <= i < |v.elems|
          ensures SeenElem(sc, ord, members, v.tags[i], v.elems[i], levels - 1) == v.elems[i]
             <==> ElemKept(sc, ord, members, v.tags[i], v.elems[i], levels - 1)
        {
          assert ConformsElem(sc, ord, members, v.tags[i], v.elems[i], levels - 1);
          if v.tags[i] != 0 { SeenExactly(sc, ord, members[v.tags[i]], v.elems[i], levels - 1); }
        }
    }
  }

  // ---- how else it may differ --------------------------------------------------------------------

  /** w is v but for scalars that compare equal. */
  ghost predicate Alike(sc: Schema, k: Kind, v: Value, w: Value, levels: nat)
    requires WfSchema(sc) && WfKind(sc, k)
    decreases levels, 0
  {
    match k
    case KTable(tid) =>
      var fields := sc.tables[tid];
      && v.Table? && w.Table? && levels > 0 && |v.fields| == |w.fields| == |fields|
      && forall i | 0 <= i < |fields| :: AlikeField(sc, fields[i], v.fields[i], w.fields[i], levels - 1)
    case KTables(tid) =>
      && v.Tables? && w.Tables? && levels > 0 && |v.rows| == |w.rows|
      && forall i | 0 <= i < |v.rows| :: Alike(sc, KTable(tid), v.rows[i], w.rows[i], levels - 1)
    case _ => v == w
  }

  ghost predicate AlikeField(sc: Schema, f: Field, v: Value, w: Value, levels: nat)
    requires WfSchema(sc) && WfField(sc, f)
    decreases levels, 2
  {
    if v.Absent? then w.Absent? else
    match f
    case FScalar(_, _, _, _, floating) => v.Scalar? && w.Scalar?
        && (v.bytes == w.bytes || SameValue(v.bytes, w.bytes, floating))
    case FOffset(_, _, kind) => Alike(sc, kind, v, w, levels)
    case FUnion(_, _, members) =>
      v.Union? && w.Union? && v.tag == w.tag && v.tag in members
          && Alike(sc, members[v.tag], v.member, w.member, levels)
    case FUnions(_, _, members) =>
      && v.Unions? && w.Unions? && levels > 0 && v.tags == w.tags && |v.tags| == |v.elems| == |w.elems|
      && forall i | 0 <= i < |v.elems| :: AlikeElem(sc, members, v.tags[i], v.elems[i], w.elems[i], levels - 1)
  }

  ghost predicate AlikeElem(sc: Schema, members: map<u8, Kind>, tag: u8, v: Value, w: Value, levels: nat)
    requires WfSchema(sc) && WfMembers(sc, members)
    decreases levels, 1
  {
    if tag == 0 then v == w == Absent else tag in members && Alike(sc, members[tag], v, w, levels)
  }

  /** What is read back is always alike. */
  lemma {:induction false} SeenAlike(sc: Schema, ord: Order, k: Kind, v: Value, levels: nat)
    requires Sound(sc) && WfKind(sc, k) && Conforms(sc, ord, k, v, levels)
    ensures Alike(sc, k, v, Seen(sc, ord, k, v, levels), levels)
    decreases levels, 0, 0
  {
    hide SeenField, ConformsField, AlikeField;
    match k
    case KTable(tid) =>
      var fields, seen := sc.tables[tid], SeenFields(sc, ord, sc.tables[tid], v.fields, levels - 1);
      forall i | 0 <= i < |fields| ensures AlikeField(sc, fields[i], v.fields[i], seen[i], levels - 1) {
        FieldAlike(sc, ord, fields[i], v.fields[i], levels - 1);
      }
    case KTables(tid) =>
      forall i | 0 <= i < |v.rows|
        ensures Alike(sc, KTable(tid), v.rows[i], Seen(sc, ord, KTable(tid), v.rows[i], levels - 1), levels - 1) {
        SeenAlike(sc, ord, KTable(tid), v.rows[i], levels - 1);
      }
    case _ =>
  }

  lemma {:induction false} FieldAlike(sc: Schema, ord: Order, f: Field, v: Value, levels: nat)
    requires Sound(sc) && WfField(sc, f) && ConformsField(sc, ord, f, v, levels)
    ensures AlikeField(sc, f, v, SeenField(sc, ord, f, v, levels), levels)
    decreases levels, 2, 0
  {
    hide Seen, Alike, Conforms, SameValue;
    if !v.Absent? {
      match f
      case FScalar(_, _, _, _, _) =>
      case FOffset(_, _, kind) => SeenAlike(sc, ord, kind, v, levels);
      case FUnion(_, _, members) => SeenAlike(sc, ord, members[v.tag], v.member, levels);
      case FUnions(_, _, members) =>
        forall i | 0 <= i < |v.elems|
          ensures AlikeElem(sc, members, v.tags[i], v.elems[i],
              SeenElem(sc, ord, members, v.tags[i], v.elems[i], levels - 1), levels - 1)
        {
          assert ConformsElem(sc, ord, members, v.tags[i], v.elems[i], levels - 1);
          if v.tags[i] != 0 { SeenAlike(sc, ord, members[v.tags[i]], v.elems[i], levels - 1); }
        }
    }
  }

  /** A table of one float, zero by default, given negative zero: it reads back as positive zero. */
  lemma NegativeZeroLost()
    ensures var sc, v := Schema([[FScalar(0, 4, 4, [0, 0, 0, 0], true)]]), Table([Scalar([0, 0, 0, 0x80])]);
            var ord: Order := (t, values) => [0];
            && Sound(sc) && Conforms(sc, ord, KTable(0), v, 1)
            && Seen(sc, ord, KTable(0), v, 1) == Table([Scalar([0, 0, 0, 0])]) != v
  {
    var f := FScalar(0, 4, 4, [0, 0, 0, 0], true);
    var sc, v := Schema([[f]]), Table([Scalar([0, 0, 0, 0x80])]);
    var ord: Order := (t, values) => [0];
    hide IsPow2, SameValue, WfField, FieldsSound, Payload, FieldEnd;
    OneFloat(f);
    LeftOut(f, v.fields);
    assert sc.tables[0] == [f];
    assert ConformsField(sc, ord, f, v.fields[0], 0);
    assert Picked([f], [0]) == [f] && Picked(v.fields, [0]) == v.fields;
    assert SeenField(sc, ord, f, v.fields[0], 0) == Scalar([0, 0, 0, 0]);
    assert SeenFields(sc, ord, [f], v.fields, 0) == [Scalar([0, 0, 0, 0])];
  }

  lemma LeftOut(f: Field, values: seq<Value>)
    requires f.FScalar? && |values| == 1 && values[0].Scalar? && SameValue(values[0].bytes, f.default, f.floating)
    ensures Payload([f], values, 0) == 0
  {
    assert [f][1..] == [] && values[1..] == [];
    assert Payload([], [], 0) == 0;
  }

  lemma OneFloat(f: Field)
    requires f == FScalar(0, 4, 4, [0, 0, 0, 0], true)
    ensures WfField(Schema([[f]]), f) && FieldsSound(Schema([[f]]), [f])
    ensures SameValue([0, 0, 0, 0x80], [0, 0, 0, 0], true)
  {
    assert IsPow2(4) by { assert IsPow2(2); }
  }
}
