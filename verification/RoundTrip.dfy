/** What is built is accepted and reads back equal: a generic client of the builder, driven by a
    schema, builds any conforming value into one top-level buffer. */
module RoundTrip {
  import opened Bytes
  import opened Options
  import opened Schema
  import opened Verifier
  import opened Reader
  import opened EmitSpace
  import opened Emission
  import opened Acceptance
  import opened Frames
  import opened VtableCache
  import opened BuilderOps
  import opened Scalars
  import opened Values
  import Emitter

  // ---- what a reference denotes survives growth --------------------------------------------------

  lemma {:induction false} DenoteGrows(h: Heap, h': Heap, sc: Schema, r: int, kind: Kind, levels: nat)
    requires Grown(h, h') && WfSchema(sc) && WfKind(sc, kind) && Denote(h, sc, r, kind, levels).Some?
    ensures Denote(h', sc, r, kind, levels) == Denote(h, sc, r, kind, levels)
    decreases levels, 0, 0
  {
    match kind
    case KStr =>
    case KVec(_, _) =>
    case KStrs => StringsGrow(h, h', h[r].refs);
    case KTable(tid) => FieldsGrow(h, h', sc, h[r].cells, sc.tables[tid], levels - 1);
    case KTables(tid) => TablesGrow(h, h', sc, h[r].refs, tid, levels - 1);
  }

  lemma {:induction false} StringsGrow(h: Heap, h': Heap, refs: seq<int>)
    requires Grown(h, h') && DenoteStrings(h, refs).Some?
    ensures DenoteStrings(h', refs) == DenoteStrings(h, refs)
  {
    if refs != [] { StringsGrow(h, h', refs[1..]); }
  }

  lemma {:induction false} TablesGrow(h: Heap, h': Heap, sc: Schema, refs: seq<int>, tid: nat, levels: nat)
    requires Grown(h, h') && WfSchema(sc) && tid < |sc.tables| && DenoteTables(h, sc, refs, tid, levels).Some?
    ensures DenoteTables(h', sc, refs, tid, levels) == DenoteTables(h, sc, refs, tid, levels)
    decreases levels, 3, |refs|
  {
    if refs != [] {
      DenoteGrows(h, h', sc, refs[0], KTable(tid), levels);
      TablesGrow(h, h', sc, refs[1..], tid, levels);
    }
  }

  lemma {:induction false} FieldsGrow(h: Heap, h': Heap, sc: Schema, cells: map<nat, Cell>, fields: seq<Field>,
      levels: nat)
    requires Grown(h, h') && WfSchema(sc) && forall i | 0 <= i < |fields| :: WfField(sc, fields[i])
    requires DenoteFields(h, sc, cells, fields, levels).Some?
    ensures DenoteFields(h', sc, cells, fields, levels) == DenoteFields(h, sc, cells, fields, levels)
    decreases levels, 3, |fields|
  {
    hide DenoteField;
    if fields != [] {
      FieldGrows(h, h', sc, cells, fields[0], levels);
      FieldsGrow(h, h', sc, cells, fields[1..], levels);
    }
  }

  lemma {:induction false} FieldGrows(h: Heap, h': Heap, sc: Schema, cells: map<nat, Cell>, f: Field, levels: nat)
    requires Grown(h, h') && WfSchema(sc) && WfField(sc, f) && DenoteField(h, sc, cells, f, levels).Some?
    ensures DenoteField(h', sc, cells, f, levels) == DenoteField(h, sc, cells, f, levels)
    decreases levels, 2, 0
  {
    hide Denote, DenoteElems;
    match f
    case FScalar(_, _, _, _, _) =>
    case FOffset(id, _, kind) =>
      if id in cells { DenoteGrows(h, h', sc, cells[id].target, kind, levels); }
    case FUnion(id, _, members) =>
      assert DenoteUnion(h, sc, cells, id, f.required, members, levels).Some?;
      if id in cells { MemberGrows(h, h', sc, cells[id].target, cells[id - 1].bytes[0], members, levels); }
      assert DenoteUnion(h', sc, cells, id, f.required, members, levels)
          == DenoteUnion(h, sc, cells, id, f.required, members, levels);
    case FUnions(id, _, members) =>
      if id - 1 in cells {
        ElemsGrow(h, h', sc, h[cells[id].target].refs, h[cells[id - 1].target].data, members, levels - 1);
      }
  }

  lemma {:induction false} MemberGrows(h: Heap, h': Heap, sc: Schema, r: int, tag: u8, members: map<u8, Kind>,
      levels: nat)
    requires Grown(h, h') && WfSchema(sc) && WfMembers(sc, members)
    requires DenoteMember(h, sc, r, tag, members, levels).Some?
    ensures DenoteMember(h', sc, r, tag, members, levels) == DenoteMember(h, sc, r, tag, members, levels)
    decreases levels, 1, 0
  {
    if tag in members { DenoteGrows(h, h', sc, r, members[tag], levels); }
  }

  lemma {:induction false} ElemsGrow(h: Heap, h': Heap, sc: Schema, refs: seq<int>, tags: seq<u8>,
      members: map<u8, Kind>, levels: nat)
    requires Grown(h, h') && WfSchema(sc) && WfMembers(sc, members) && |refs| == |tags|
    requires DenoteElems(h, sc, refs, tags, members, levels).Some?
    ensures DenoteElems(h', sc, refs, tags, members, levels) == DenoteElems(h, sc, refs, tags, members, levels)
    decreases levels, 2, |refs|
  {
    if refs != [] {
      if tags[0] in members && refs[0] != 0 { DenoteGrows(h, h', sc, refs[0], members[tags[0]], levels); }
      ElemsGrow(h, h', sc, refs[1..], tags[1..], members, levels);
    }
  }

  /** A field's meaning depends on the cells of its own ids alone. */
  lemma FieldLocal(h: Heap, sc: Schema, cells: map<nat, Cell>, cells': map<nat, Cell>, f: Field, levels: nat)
    requires WfSchema(sc) && WfField(sc, f)
    requires forall id | Owns(f, id) :: (id in cells <==> id in cells') && (id in cells ==> cells'[id] == cells[id])
    ensures DenoteField(h, sc, cells', f, levels) == DenoteField(h, sc, cells, f, levels)
  {
    hide Denote, DenoteElems, DenoteMember;
    if f.FUnion? || f.FUnions? { assert Owns(f, f.id) && Owns(f, f.id - 1); } else { assert Owns(f, f.id); }
  }

  // ---- building --------------------------------------------------------------------------------

  /** Nothing an object's creation may not change has changed: the container on top is as it was,
      earlier objects are still there, and the buffer's alignment stays 16 bits wide. */
  twostate predicate Settled(b: Builder)
    reads b, b.em, b.cache, b.fs
  {
    && b.Valid() && b.fs.frames == old(b.fs.frames) && b.fs.saved == old(b.fs.saved)
    && old(b.fs.InMemory()) && b.fs.Cur() == old(b.fs.Cur()) && b.fs.Data() == old(b.fs.Data())
    && b.fs.dsOffset == old(b.fs.dsOffset) && b.fs.idEnd == old(b.fs.idEnd) && b.fs.align == old(b.fs.align)
    && b.fs.cells == old(b.fs.cells)
    && Grown(old(b.em.heap), b.em.heap)
    && old(b.em.minAlign) <= b.em.minAlign && (old(b.em.minAlign) < TWO_16 ==> b.em.minAlign < TWO_16)
  }

  lemma DenotedThere(h: Heap, sc: Schema, r: int, kind: Kind, levels: nat)
    requires WfSchema(sc) && WfKind(sc, kind) && Denote(h, sc, r, kind, levels).Some?
    ensures r in h
  {}

  lemma RefRange(em: EmitState, r: int)
    requires em.Valid() && r in em.heap
    ensures -TWO_31 <= r < 0
  {}

  /** A string or vector opened and filled in one go. */
  method OpenWith(b: Builder, kind: FrameKind, elem: nat, align: nat, count: nat, data: seq<u8>)
    requires b.Valid() && (kind.FVector? || kind.FString?) && (kind.FString? ==> elem == 1)
    requires Sized(|data|, count, elem) && count <= CountMax(elem) && IsPow2(align)
    modifies b.fs
    ensures b.Valid() && b.Top(kind) && b.fs.saved == old(b.fs.saved) + [old(b.fs.Cur())]
    ensures b.fs.frames[..|b.fs.frames| - 1] == old(b.fs.frames) && b.fs.Data() == data && b.fs.align == align
    ensures var f := b.fs.frames[|b.fs.frames| - 1]; f.elem == elem && f.count == count && f.maxCount == CountMax(elem)
  {
    hide EmitState.Valid, Cache.Valid, Stacked, TopOk, Emitted, AllKnown, IsPow2, Sized, CountMax;
    MaxFits(elem);
    b.StartVector(kind, elem, align, CountMax(elem));
    assert [] + data == data;
    var ok := b.Append(data, count);
  }

  method BuildString(b: Builder, chars: seq<u8>) returns (ref: int)
    requires b.Valid() && |b.em.emitted| + |chars| + 8 < TWO_31
    modifies b.em, b.cache, b.fs
    ensures Settled(b) && ref in b.em.heap && b.em.heap[ref] == OStr(chars)
    ensures |b.em.emitted| <= old(|b.em.emitted|) + |chars| + 8
  {
    hide EmitState.Valid, Cache.Valid, Stacked, TopOk, Emitted, AllKnown, Sized;
    StringSized(|chars|, |chars|);
    OpenWith(b, FString, 1, 1, |chars|, chars);
    ref := b.EndString();
  }

  method BuildVector(b: Builder, elem: nat, align: nat, count: nat, data: seq<u8>) returns (ref: int)
    requires b.Valid() && Sized(|data|, count, elem) && count <= CountMax(elem) && IsPow2(align) && align < TWO_16
    requires |b.em.emitted| + |data| + 4 + Max(align, 4) < TWO_31
    modifies b.em, b.cache, b.fs
    ensures Settled(b) && ref in b.em.heap && b.em.heap[ref] == OVec(elem, Max(align, 4), count, data)
    ensures |b.em.emitted| <= old(|b.em.emitted|) + |data| + 4 + Max(align, 4)
  {
    hide EmitState.Valid, Cache.Valid, Stacked, TopOk, Emitted, AllKnown, IsPow2, Sized, CountMax;
    Pow2Max(align);
    MaxFits(elem);
    OpenWith(b, FVector, elem, Max(align, 4), count, data);
    ref := b.EndVector();
  }

  lemma MaxFits(elem: nat)
    ensures CountMax(elem) < TWO_32
  {}

  /** The offset vector on top has had refs pushed; nothing else has changed but that objects came. */
  twostate predicate Pushed(b: Builder, refs: seq<int>)
    reads b, b.em, b.cache, b.fs
  {
    var n := |b.fs.frames| - 1;
    && b.Valid() && b.Top(FOffsets) && |old(b.fs.frames)| == n + 1 && b.fs.frames[..n] == old(b.fs.frames)[..n]
    && b.fs.frames[n] == old(b.fs.frames)[n].(count := b.fs.frames[n].count)
         && b.fs.frames[n].count == old(b.fs.frames)[n].count + |refs|
    && b.fs.saved == old(b.fs.saved) && b.fs.align == old(b.fs.align)
    && old(b.fs.InMemory()) && |old(b.fs.Data())| % 4 == 0 && |b.fs.Data()| % 4 == 0
    && RefsOf(b.fs.Data()) == RefsOf(old(b.fs.Data())) + refs && (forall i | 0 <= i < |refs| :: refs[i] in b.em.heap)
    && Grown(old(b.em.heap), b.em.heap)
    && old(b.em.minAlign) <= b.em.minAlign && (old(b.em.minAlign) < TWO_16 ==> b.em.minAlign < TWO_16)
  }

  lemma DataCount(b: Builder)
    requires b.Valid() && b.Top(FOffsets)
    ensures |b.fs.Data()| % 4 == 0 && |b.fs.Data()| == 4 * b.fs.frames[|b.fs.frames| - 1].count
  {
    b.OffsetCount();
  }

  method PushNew(b: Builder, ref: int)
    requires b.Valid() && b.Top(FOffsets) && b.fs.frames[|b.fs.frames| - 1].elem == 4
    requires b.fs.frames[|b.fs.frames| - 1].count < b.fs.frames[|b.fs.frames| - 1].maxCount == CountMax(4)
    requires ref in b.em.heap
    modifies b.fs
    ensures Pushed(b, [ref]) && b.em.heap == old(b.em.heap)
  {
    hide EmitState.Valid, Cache.Valid, Stacked, TopOk, Emitted, AllKnown, IsPow2, RefsOf;
    DataCount(b);
    RefRange(b.em, ref);
    var ok := b.PushRef(ref);
  }

  lemma StringsCons(em: EmitState, ref: int, refs: seq<int>, items: seq<seq<u8>>)
    requires em.Valid() && ref in em.heap && items != [] && em.heap[ref] == OStr(items[0])
    requires DenoteStrings(em.heap, refs) == Some(items[1..])
    ensures DenoteStrings(em.heap, [ref] + refs) == Some(items)
  {
    assert ([ref] + refs)[1..] == refs;
    assert [items[0]] + items[1..] == items;
  }

  method PushStrings(b: Builder, items: seq<seq<u8>>) returns (ghost refs: seq<int>)
    requires b.Valid() && b.Top(FOffsets) && b.fs.frames[|b.fs.frames| - 1].elem == 4
    requires b.fs.frames[|b.fs.frames| - 1].maxCount == CountMax(4)
    requires b.fs.frames[|b.fs.frames| - 1].count + |items| <= CountMax(4)
    requires |b.em.emitted| + StringsSize(items) < TWO_31
    modifies b.em, b.cache, b.fs
    ensures Pushed(b, refs) && DenoteStrings(b.em.heap, refs) == Some(items) && |refs| == |items|
    ensures |b.em.emitted| <= old(|b.em.emitted|) + StringsSize(items)
    decreases |items|
  {
    hide EmitState.Valid, Cache.Valid, Stacked, TopOk, Emitted, AllKnown, IsPow2, RefsOf, CountMax;
    refs := [];
    if items == [] { DataCount(b); return; }
    var ref := BuildString(b, items[0]);
    PushNew(b, ref);
    refs := PushStrings(b, items[1..]);
    StringsCons(b.em, ref, refs, items);
    refs := [ref] + refs;
  }

  // ---- tables ----------------------------------------------------------------------------------

  /** Fields still to come own no cell of the open table. */
  ghost predicate Unset(cells: map<nat, Cell>, fields: seq<Field>) {
    forall i, id | 0 <= i < |fields| && Owns(fields[i], id) :: id !in cells
  }

  /** Cells were added, for ids the fields own. */
  ghost predicate Filled(cells: map<nat, Cell>, cells': map<nat, Cell>, fields: seq<Field>) {
    && (forall id | id in cells :: id in cells' && cells'[id] == cells[id])
    && (forall id | id in cells' && id !in cells :: exists i :: 0 <= i < |fields| && Owns(fields[i], id))
  }

  /** The table on top has gained the values of `fields`. */
  twostate predicate Added(b: Builder, sc: Schema, ord: Order, fields: seq<Field>, values: seq<Value>, levels: nat)
    requires Sound(sc) && FieldsSound(sc, fields) && |fields| == |values|
    requires forall i | 0 <= i < |fields| :: ConformsField(sc, ord, fields[i], values[i], levels)
    reads b, b.em, b.cache, b.fs
  {
    && b.Valid() && b.Top(FTable) && b.fs.frames == old(b.fs.frames) && b.fs.saved == old(b.fs.saved)
    && Filled(old(b.fs.cells), b.fs.cells, fields)
    && DenoteFields(b.em.heap, sc, b.fs.cells, fields, levels) == Some(SeenFields(sc, ord, fields, values, levels))
    && b.fs.dsOffset == Payload(fields, values, old(b.fs.dsOffset))
    && b.fs.idEnd <= Max(old(b.fs.idEnd), IdLimit(fields)) && b.fs.align <= Max(old(b.fs.align), AlignLimit(fields))
    && Grown(old(b.em.heap), b.em.heap)
    && old(b.em.minAlign) <= b.em.minAlign && (old(b.em.minAlign) < TWO_16 ==> b.em.minAlign < TWO_16)
  }

  lemma TailSound(sc: Schema, fields: seq<Field>)
    requires FieldsSound(sc, fields) && fields != []
    ensures FieldsSound(sc, fields[1..]) && FieldsSound(sc, fields[..1])
  {}

  /** A first field's meaning, once the fields after it have been added too. */
  lemma FirstKept(h: Heap, h': Heap, sc: Schema, cells: map<nat, Cell>, cells': map<nat, Cell>, fields: seq<Field>,
                  values: seq<Value>, levels: nat)
    requires Sound(sc) && FieldsSound(sc, fields) && fields != [] && |values| == |fields|
    requires Grown(h, h') && Filled(cells, cells', fields[1..])
    requires DenoteField(h, sc, cells, fields[0], levels) == Some(values[0])
    requires DenoteFields(h', sc, cells', fields[1..], levels) == Some(values[1..])
    ensures DenoteFields(h', sc, cells', fields, levels) == Some(values)
  {
    hide DenoteField, Owns;
    FieldGrows(h, h', sc, cells, fields[0], levels);
    assert forall id | Owns(fields[0], id) :: id in cells <==> id in cells';
    FieldLocal(h', sc, cells, cells', fields[0], levels);
    assert [values[0]] + values[1..] == values;
  }

  lemma FilledOn(cells: map<nat, Cell>, mid: map<nat, Cell>, cells': map<nat, Cell>, fields: seq<Field>)
    requires fields != [] && Filled(cells, mid, fields[..1]) && Filled(mid, cells', fields[1..])
    ensures Filled(cells, cells', fields)
  {
    hide Owns;
    forall id | id in cells' && id !in cells ensures exists i :: 0 <= i < |fields| && Owns(fields[i], id) {
      if id in mid {
        var i :| 0 <= i < 1 && Owns(fields[..1][i], id);
        assert Owns(fields[i], id);
      } else {
        var i :| 0 <= i < |fields[1..]| && Owns(fields[1..][i], id);
        assert Owns(fields[i + 1], id);
      }
    }
  }

  lemma StillUnset(cells: map<nat, Cell>, mid: map<nat, Cell>, fields: seq<Field>)
    requires fields != [] && Unset(cells, fields) && Separate(fields) && Filled(cells, mid, fields[..1])
    ensures Unset(mid, fields[1..])
  {
    hide Owns;
    forall i, id | 0 <= i < |fields[1..]| && Owns(fields[1..][i], id) ensures id !in mid {
      assert Owns(fields[i + 1], id);
    }
  }

  method BuildTarget(b: Builder, sc: Schema, ord: Order, kind: Kind, v: Value, levels: nat) returns (ref: int)
    requires b.Valid() && Sound(sc) && WfKind(sc, kind) && Conforms(sc, ord, kind, v, levels)
    requires |b.em.emitted| + Size(sc, ord, kind, v, levels) < TWO_31
    modifies b.em, b.cache, b.fs
    ensures Settled(b) && Denote(b.em.heap, sc, ref, kind, levels) == Some(Seen(sc, ord, kind, v, levels))
    ensures |b.em.emitted| <= old(|b.em.emitted|) + Size(sc, ord, kind, v, levels)
    decreases levels, 2, 0
  {
    hide EmitState.Valid, Cache.Valid, Stacked, TopOk, Emitted, AllKnown, IsPow2, RefsOf, CountMax, Sized;
    match kind
    case KStr => ref := BuildString(b, v.chars);
    case KVec(elem, align) => ref := BuildVector(b, elem, align, v.count, v.data);
    case KStrs => ref := BuildStrings(b, v.items);
    case KTable(tid) => ref := BuildTable(b, sc, ord, tid, v, levels);
    case KTables(tid) => ref := BuildTables(b, sc, ord, tid, v.rows, levels - 1);
  }

  method BuildStrings(b: Builder, items: seq<seq<u8>>) returns (ref: int)
    requires b.Valid() && |b.em.emitted| + StringsSize(items) + 4 * |items| + 8 < TWO_31
    modifies b.em, b.cache, b.fs
    ensures Settled(b) && ref in b.em.heap && b.em.heap[ref].ORefs?
    ensures DenoteStrings(b.em.heap, b.em.heap[ref].refs) == Some(items)
    ensures |b.em.emitted| <= old(|b.em.emitted|) + StringsSize(items) + 4 * |items| + 8
  {
    hide EmitState.Valid, Cache.Valid, Stacked, TopOk, Emitted, AllKnown, RefsOf;
    Pow2Max(4);
    b.StartVector(FOffsets, 4, 4, CountMax(4));
    NoRefs(b.fs.Data());
    ghost var refs := PushStrings(b, items);
    DataCount(b);
    ghost var h := b.em.heap;
    ref := b.EndOffsetVector();
    assert [] + refs == refs;
    StringsGrow(h, b.em.heap, refs);
  }

  lemma NoRefs(data: seq<u8>)
    requires data == []
    ensures RefsOf(data) == []
  {}

  method BuildTable(b: Builder, sc: Schema, ord: Order, tid: nat, v: Value, levels: nat) returns (ref: int)
    requires b.Valid() && Sound(sc) && WfKind(sc, KTable(tid)) && Conforms(sc, ord, KTable(tid), v, levels)
    requires |b.em.emitted| + Size(sc, ord, KTable(tid), v, levels) < TWO_31
    modifies b.em, b.cache, b.fs
    ensures Settled(b) && Denote(b.em.heap, sc, ref, KTable(tid), levels) == Some(Seen(sc, ord, KTable(tid), v, levels))
    ensures |b.em.emitted| <= old(|b.em.emitted|) + Size(sc, ord, KTable(tid), v, levels)
    decreases levels, 1, 0
  {
    hide EmitState.Valid, Cache.Valid, Stacked, TopOk, Emitted, AllKnown, IsPow2, Payload, IdLimit, AlignLimit,
      FieldsSize,
      DenoteFields, Filled, ConformsField, SeenFields, Permutes, Picked;
    var fields, order := sc.tables[tid], ord(tid, v.fields);
    TableParts(sc, ord, tid, v, levels);
    b.StartTable();
    hide Conforms;
    BuildFields(b, sc, ord, Picked(fields, order), Picked(v.fields, order), levels - 1);
    ghost var h, cells := b.em.heap, b.fs.cells;
    b.AlignOfTable();
    ref := b.EndTable();
    InAnyOrder(h, sc, ord, cells, fields, v.fields, order, levels - 1);
    FieldsGrow(h, b.em.heap, sc, cells, fields, levels - 1);
  }

  /** What a conforming table says of its fields, in the order they are added. */
  lemma TableParts(sc: Schema, ord: Order, tid: nat, v: Value, levels: nat)
    requires Sound(sc) && WfKind(sc, KTable(tid)) && Conforms(sc, ord, KTable(tid), v, levels)
    ensures v.Table? && levels > 0 && |v.fields| == |sc.tables[tid]|
    ensures var fields, order := sc.tables[tid], ord(tid, v.fields);
            && |order| == |fields| && (forall i | 0 <= i < |order| :: order[i] < |fields|)
            && FieldsSound(sc, fields) && FieldsSound(sc, Picked(fields, order)) && Permutes(order, |fields|)
            && (forall i | 0 <= i < |fields| :: ConformsField(sc, ord, fields[i], v.fields[i], levels - 1))
  {
    hide FieldsSound, Picked, Permutes, ConformsField;
    PickedSound(sc, sc.tables[tid], ord(tid, v.fields));
    PermutesMeans(ord(tid, v.fields), |sc.tables[tid]|);
  }

  lemma PlaceOf(order: seq<nat>, n: nat, k: nat) returns (i: nat)
    requires Permutes(order, n) && k < n
    ensures i < |order| && order[i] == k
  {
    assert k in order;
    i :| i < |order| && order[i] == k;
  }

  lemma PermutesMeans(order: seq<nat>, n: nat)
    requires Permutes(order, n)
    ensures |order| == n && forall i | 0 <= i < |order| :: order[i] < n
  {}

  lemma {:induction false} EachField(h: Heap, sc: Schema, cells: map<nat, Cell>, fields: seq<Field>,
      values: seq<Value>, levels: nat)
    requires WfSchema(sc) && (forall i | 0 <= i < |fields| :: WfField(sc, fields[i])) && |fields| == |values|
    ensures DenoteFields(h, sc, cells, fields, levels) == Some(values)
        <==> forall i | 0 <= i < |fields| :: DenoteField(h, sc, cells, fields[i], levels) == Some(values[i])
    decreases |fields|
  {
    hide DenoteField;
    if fields != [] {
      EachField(h, sc, cells, fields[1..], values[1..], levels);
      assert values == [values[0]] + values[1..];
      assert forall i | 1 <= i < |fields| :: fields[i] == fields[1..][i - 1] && values[i] == values[1..][i - 1];
    }
  }

  lemma SoundMeans(sc: Schema)
    requires Sound(sc)
    ensures WfSchema(sc)
  {}

  /** Fields denote what they do whatever order they were added in. */
  lemma InAnyOrder(h: Heap, sc: Schema, ord: Order, cells: map<nat, Cell>, fields: seq<Field>, values: seq<Value>,
      order: seq<nat>,
                   levels: nat)
    requires Sound(sc) && FieldsSound(sc, fields) && |fields| == |values| && Permutes(order, |fields|)
    requires forall i | 0 <= i < |fields| :: ConformsField(sc, ord, fields[i], values[i], levels)
    requires FieldsSound(sc, Picked(fields, order))
    requires DenoteFields(h, sc, cells, Picked(fields, order), levels)
          == Some(SeenFields(sc, ord, Picked(fields, order), Picked(values, order), levels))
    ensures DenoteFields(h, sc, cells, fields, levels) == Some(SeenFields(sc, ord, fields, values, levels))
  {
    hide DenoteField, DenoteFields, ConformsField, SeenField, Separate, WfField, WfSchema, Sound, Permutes;
    SoundMeans(sc);
    PermutesMeans(order, |fields|);
    var fields', values' := Picked(fields, order), Picked(values, order);
    var seen, seen' := SeenFields(sc, ord, fields, values, levels), SeenFields(sc, ord, fields', values', levels);
    EachField(h, sc, cells, fields', seen', levels);
    forall k | 0 <= k < |fields| ensures DenoteField(h, sc, cells, fields[k], levels) == Some(seen[k]) {
      var i := PlaceOf(order, |fields|, k);
      assert DenoteField(h, sc, cells, fields'[i], levels) == Some(seen'[i]);
    }
    EachField(h, sc, cells, fields, seen, levels);
  }

  method BuildFields(b: Builder, sc: Schema, ord: Order, fields: seq<Field>, values: seq<Value>, levels: nat)
    requires b.Valid() && b.Top(FTable) && Sound(sc) && FieldsSound(sc, fields) && |fields| == |values|
    requires forall i | 0 <= i < |fields| :: ConformsField(sc, ord, fields[i], values[i], levels)
    requires Unset(b.fs.cells, fields) && Payload(fields, values, b.fs.dsOffset) + 4 < TWO_16
    requires |b.em.emitted| + FieldsSize(sc, ord, fields, values, levels) < TWO_31
    modifies b.em, b.cache, b.fs
    ensures Added(b, sc, ord, fields, values, levels)
    ensures |b.em.emitted| <= old(|b.em.emitted|) + FieldsSize(sc, ord, fields, values, levels)
    decreases levels, 5, |fields|
  {
    hide EmitState.Valid, Cache.Valid, Stacked, TopOk, Emitted, AllKnown, IsPow2, ConformsField, DenoteField, Separate,
      Filled, Unset, FieldEnd, FieldSize, Owns, SeenField;
    if fields == [] { NothingFilled(b.fs.cells); return; }
    TailSound(sc, fields);
    ghost var cells := b.fs.cells;
    BuildField(b, sc, ord, fields, values[0], levels);
    ghost var h, mid := b.em.heap, b.fs.cells;
    StillUnset(cells, mid, fields);
    BuildFields(b, sc, ord, fields[1..], values[1..], levels);
    FilledOn(cells, mid, b.fs.cells, fields);
    ghost var seen := SeenFields(sc, ord, fields, values, levels);
    assert seen[1..] == SeenFields(sc, ord, fields[1..], values[1..], levels);
    FirstKept(h, b.em.heap, sc, mid, b.fs.cells, fields, seen, levels);
  }

  lemma NothingFilled(cells: map<nat, Cell>)
    ensures Filled(cells, cells, [])
  {}

  /** The first of the fields has been added to the table on top. */
  twostate predicate FieldBuilt(b: Builder, sc: Schema, ord: Order, fields: seq<Field>, v: Value, levels: nat)
    requires Sound(sc) && fields != [] && WfField(sc, fields[0]) && ConformsField(sc, ord, fields[0], v, levels)
    reads b, b.em, b.cache, b.fs
  {
    && b.Valid() && b.Top(FTable) && b.fs.frames == old(b.fs.frames) && b.fs.saved == old(b.fs.saved)
    && Filled(old(b.fs.cells), b.fs.cells, fields[..1])
    && DenoteField(b.em.heap, sc, b.fs.cells, fields[0], levels) == Some(SeenField(sc, ord, fields[0], v, levels))
    && b.fs.dsOffset == FieldEnd(fields[0], v, old(b.fs.dsOffset))
    && b.fs.idEnd <= Max(old(b.fs.idEnd), fields[0].id + 1)
    && b.fs.align <= Max(old(b.fs.align), if fields[0].FScalar? then fields[0].align else 4)
    && Grown(old(b.em.heap), b.em.heap)
    && old(b.em.minAlign) <= b.em.minAlign && (old(b.em.minAlign) < TWO_16 ==> b.em.minAlign < TWO_16)
  }

  method BuildField(b: Builder, sc: Schema, ord: Order, fields: seq<Field>, v: Value, levels: nat)
    requires b.Valid() && b.Top(FTable) && Sound(sc) && fields != [] && WfField(sc, fields[0])
    requires ConformsField(sc, ord, fields[0], v, levels) && Unset(b.fs.cells, fields)
    requires FieldEnd(fields[0], v, b.fs.dsOffset) + 4 < TWO_16
    requires |b.em.emitted| + FieldSize(sc, ord, fields[0], v, levels) < TWO_31
    modifies b.em, b.cache, b.fs
    ensures FieldBuilt(b, sc, ord, fields, v, levels)
    ensures |b.em.emitted| <= old(|b.em.emitted|) + FieldSize(sc, ord, fields[0], v, levels)
    decreases levels, 4, 0
  {
    hide EmitState.Valid, Cache.Valid, Stacked, TopOk, Emitted, AllKnown, IsPow2, AlignUp, Denote, DenoteField, Filled,
      Unset, Owns, Conforms;
    match fields[0]
    case FScalar(id, size, align, default, floating) =>
      Free(b.fs.cells, fields);
      Pow2Positive(align);
      FieldAdded(b.em.heap, sc, ord, fields, v, b.fs.cells, 0, 0, levels);
      var ok := b.AddScalar(id, v.bytes, align, default, floating);
    case FOffset(_, _, _) =>
      if v.Absent? {
        FieldAdded(b.em.heap, sc, ord, fields, v, b.fs.cells, 0, 0, levels);
      } else {
        BuildOffset(b, sc, ord, fields, v, levels);
      }
    case FUnion(_, _, _) =>
      if v.Absent? {
        FieldAdded(b.em.heap, sc, ord, fields, v, b.fs.cells, 0, 0, levels);
      } else {
        BuildUnion(b, sc, ord, fields, v, levels);
      }
    case FUnions(_, _, _) =>
      if v.Absent? {
        FieldAdded(b.em.heap, sc, ord, fields, v, b.fs.cells, 0, 0, levels);
      } else {
        BuildUnions(b, sc, ord, fields, v, levels);
      }
  }

  method BuildOffset(b: Builder, sc: Schema, ord: Order, fields: seq<Field>, v: Value, levels: nat)
    requires b.Valid() && b.Top(FTable) && Sound(sc) && fields != [] && WfField(sc, fields[0])
    requires ConformsField(sc, ord, fields[0], v, levels) && Unset(b.fs.cells, fields)
    requires FieldEnd(fields[0], v, b.fs.dsOffset) + 4 < TWO_16
    requires |b.em.emitted| + FieldSize(sc, ord, fields[0], v, levels) < TWO_31
    requires fields[0].FOffset? && !v.Absent?
    modifies b.em, b.cache, b.fs
    ensures FieldBuilt(b, sc, ord, fields, v, levels)
    ensures |b.em.emitted| <= old(|b.em.emitted|) + FieldSize(sc, ord, fields[0], v, levels)
    decreases levels, 3, 0
  {
    hide EmitState.Valid, Cache.Valid, Stacked, TopOk, Emitted, AllKnown, IsPow2, AlignUp, Denote, DenoteField, Filled,
      Unset, Owns, Conforms;
    Free(b.fs.cells, fields);
    var ref := BuildTarget(b, sc, ord, fields[0].kind, v, levels);
    DenotedThere(b.em.heap, sc, ref, fields[0].kind, levels);
    RefRange(b.em, ref);
    FieldAdded(b.em.heap, sc, ord, fields, v, b.fs.cells, ref, 0, levels);
    var ok := b.AddOffset(fields[0].id, ref);
  }

  method BuildUnion(b: Builder, sc: Schema, ord: Order, fields: seq<Field>, v: Value, levels: nat)
    requires b.Valid() && b.Top(FTable) && Sound(sc) && fields != [] && WfField(sc, fields[0])
    requires ConformsField(sc, ord, fields[0], v, levels) && Unset(b.fs.cells, fields)
    requires FieldEnd(fields[0], v, b.fs.dsOffset) + 4 < TWO_16
    requires |b.em.emitted| + FieldSize(sc, ord, fields[0], v, levels) < TWO_31
    requires fields[0].FUnion? && !v.Absent?
    modifies b.em, b.cache, b.fs
    ensures FieldBuilt(b, sc, ord, fields, v, levels)
    ensures |b.em.emitted| <= old(|b.em.emitted|) + FieldSize(sc, ord, fields[0], v, levels)
    decreases levels, 3, 0
  {
    hide EmitState.Valid, Cache.Valid, Stacked, TopOk, Emitted, AllKnown, IsPow2, AlignUp, Denote, DenoteField, Filled,
      Unset, Owns, Conforms, Size, Seen, Grown;
    Free(b.fs.cells, fields);
    var kind := fields[0].members[v.tag];
    var ref := BuildTarget(b, sc, ord, kind, v.member, levels);
    DenotedThere(b.em.heap, sc, ref, kind, levels);
    RefRange(b.em, ref);
    FieldAdded(b.em.heap, sc, ord, fields, v, b.fs.cells, ref, 0, levels);
    var ok := b.AddUnion(fields[0].id, v.tag, ref);
  }

  method BuildUnions(b: Builder, sc: Schema, ord: Order, fields: seq<Field>, v: Value, levels: nat)
    requires b.Valid() && b.Top(FTable) && Sound(sc) && fields != [] && WfField(sc, fields[0])
    requires ConformsField(sc, ord, fields[0], v, levels) && Unset(b.fs.cells, fields)
    requires FieldEnd(fields[0], v, b.fs.dsOffset) + 4 < TWO_16
    requires |b.em.emitted| + FieldSize(sc, ord, fields[0], v, levels) < TWO_31
    requires fields[0].FUnions? && !v.Absent?
    modifies b.em, b.cache, b.fs
    ensures FieldBuilt(b, sc, ord, fields, v, levels)
    ensures |b.em.emitted| <= old(|b.em.emitted|) + FieldSize(sc, ord, fields[0], v, levels)
    decreases levels, 3, 0
  {
    hide EmitState.Valid, Cache.Valid, Stacked, TopOk, Emitted, AllKnown, IsPow2, AlignUp, DenoteField, Filled, Unset,
      Owns, Conforms,
      ElemsSize, SeenElems, DenoteElems, Grown;
    Free(b.fs.cells, fields);
    var types, values := BuildBoth(b, sc, ord, fields[0].members, v.tags, v.elems, levels - 1);
    RefRange(b.em, types);
    RefRange(b.em, values);
    FieldAdded(b.em.heap, sc, ord, fields, v, b.fs.cells, values, types, levels);
    var ok := b.AddUnionVector(fields[0].id, types, values);
  }

  /** The type vector and the value vector of a union vector. */
  method BuildBoth(b: Builder, sc: Schema, ord: Order, members: map<u8, Kind>, tags: seq<u8>, elems: seq<Value>,
      levels: nat)
    returns (types: int, values: int)
    requires b.Valid() && Sound(sc) && WfMembers(sc, members) && |tags| == |elems| <= CountMax(4)
    requires forall i | 0 <= i < |elems| :: ConformsElem(sc, ord, members, tags[i], elems[i], levels)
    requires |b.em.emitted| + ElemsSize(sc, ord, members, tags, elems, levels) + 5 * |elems| + 16 < TWO_31
    modifies b.em, b.cache, b.fs
    ensures Settled(b) && types in b.em.heap && values in b.em.heap
    ensures b.em.heap[types] == OVec(1, 4, |tags|, tags)
    ensures b.em.heap[values].ORefs? && |b.em.heap[values].refs| == |tags|
    ensures DenoteElems(b.em.heap, sc, b.em.heap[values].refs, tags, members, levels)
        == Some(SeenElems(sc, ord, members, tags, elems, levels))
    ensures |b.em.emitted| <= old(|b.em.emitted|) + ElemsSize(sc, ord, members, tags, elems, levels) + 5 * |elems| + 16
    decreases levels, 4, 0
  {
    hide EmitState.Valid, Cache.Valid, Stacked, TopOk, Emitted, AllKnown, IsPow2, Conforms, ElemsSize, SeenElems,
      DenoteElems, CountMax;
    FewElems(|elems|);
    var refs := BuildElems(b, sc, ord, members, tags, elems, levels);
    ghost var h := b.em.heap;
    types, values := b.CreateUnionVector(tags, refs);
    ElemsGrow(h, b.em.heap, sc, refs, tags, members, levels);
  }

  lemma FewElems(n: nat)
    requires n <= CountMax(4)
    ensures 4 * n < TWO_32
  {}

  /** The members of a union vector, one after the other; no object for those of type NONE. */
  method BuildElems(b: Builder, sc: Schema, ord: Order, members: map<u8, Kind>, tags: seq<u8>, elems: seq<Value>,
      levels: nat)
    returns (refs: seq<int>)
    requires b.Valid() && Sound(sc) && WfMembers(sc, members) && |tags| == |elems|
    requires forall i | 0 <= i < |elems| :: ConformsElem(sc, ord, members, tags[i], elems[i], levels)
    requires |b.em.emitted| + ElemsSize(sc, ord, members, tags, elems, levels) < TWO_31
    modifies b.em, b.cache, b.fs
    ensures Settled(b) && |refs| == |tags|
    ensures forall i | 0 <= i < |refs| :: if refs[i] == 0 then tags[i] == 0 else tags[i] != 0 && refs[i] in b.em.heap
    ensures DenoteElems(b.em.heap, sc, refs, tags, members, levels)
        == Some(SeenElems(sc, ord, members, tags, elems, levels))
    ensures |b.em.emitted| <= old(|b.em.emitted|) + ElemsSize(sc, ord, members, tags, elems, levels)
    decreases levels, 3, |elems|
  {
    hide EmitState.Valid, Cache.Valid, Stacked, TopOk, Emitted, AllKnown, IsPow2, Conforms, Size, Denote, Seen;
    refs := [];
    if elems == [] { return; }
    assert ConformsElem(sc, ord, members, tags[0], elems[0], levels);
    var ref := 0;
    if tags[0] != 0 {
      ref := BuildTarget(b, sc, ord, members[tags[0]], elems[0], levels);
      DenotedThere(b.em.heap, sc, ref, members[tags[0]], levels);
      RefRange(b.em, ref);
    }
    ghost var h := b.em.heap;
    var rest := BuildElems(b, sc, ord, members, tags[1..], elems[1..], levels);
    refs := [ref] + rest;
    assert refs[1..] == rest;
    if ref != 0 { DenoteGrows(h, b.em.heap, sc, ref, members[tags[0]], levels); }
    ghost var seen := SeenElems(sc, ord, members, tags, elems, levels);
    assert seen[1..] == SeenElems(sc, ord, members, tags[1..], elems[1..], levels) && seen == [seen[0]] + seen[1..];
  }

  lemma Free(cells: map<nat, Cell>, fields: seq<Field>)
    requires fields != [] && Unset(cells, fields)
    ensures fields[0].id !in cells
        && (fields[0].FUnion? || fields[0].FUnions? ==> fields[0].id == 0 || fields[0].id - 1 !in cells)
  {
    assert Owns(fields[0], fields[0].id);
    if fields[0].id > 0 && (fields[0].FUnion? || fields[0].FUnions?) { assert Owns(fields[0], fields[0].id - 1); }
  }

  /** The cells an add call leaves for the first of the fields. */
  ghost function CellsAfter(cells: map<nat, Cell>, f: Field, v: Value, ref: int, types: int): map<nat, Cell> {
    match f
    case FScalar(id, _, align, default, floating) =>
      if v.Scalar? && !SameValue(v.bytes, default, floating) then cells[id := Raw(v.bytes, align)] else cells
    case FOffset(id, _, _) => if v.Absent? then cells else cells[id := Link(ref)]
    case FUnion(id, _, _) => if v.Union? && id >= 1 then cells[id - 1 := Raw([v.tag], 1)][id := Link(ref)] else cells
    case FUnions(id, _, _) => if v.Unions? && id >= 1 then cells[id - 1 := Link(types)][id := Link(ref)] else cells
  }

  lemma FieldAdded(h: Heap, sc: Schema, ord: Order, fields: seq<Field>, v: Value, cells: map<nat, Cell>, ref: int,
      types: int, levels: nat)
    requires Sound(sc) && fields != [] && WfField(sc, fields[0]) && ConformsField(sc, ord, fields[0], v, levels)
    requires Unset(cells, fields)
    requires fields[0].FOffset? && !v.Absent? ==>
               Denote(h, sc, ref, fields[0].kind, levels) == Some(Seen(sc, ord, fields[0].kind, v, levels))
    requires fields[0].FUnion? && !v.Absent? ==>
               Denote(h, sc, ref, fields[0].members[v.tag], levels)
                   == Some(Seen(sc, ord, fields[0].members[v.tag], v.member, levels))
    requires fields[0].FUnions? && !v.Absent? ==>
               && types in h && h[types] == OVec(1, 4, |v.tags|, v.tags) && ref in h && h[ref].ORefs?
                    && |h[ref].refs| == |v.tags|
               && DenoteElems(h, sc, h[ref].refs, v.tags, fields[0].members, levels - 1)
                  == Some(SeenElems(sc, ord, fields[0].members, v.tags, v.elems, levels - 1))
    ensures Filled(cells, CellsAfter(cells, fields[0], v, ref, types), fields[..1])
    ensures DenoteField(h, sc, CellsAfter(cells, fields[0], v, ref, types), fields[0], levels)
        == Some(SeenField(sc, ord, fields[0], v, levels))
  {
    hide Denote, Unset, Conforms, Seen, SeenElems, DenoteElems, SameValue;
    Free(cells, fields);
    var f, cells' := fields[0], CellsAfter(cells, fields[0], v, ref, types);
    var seen := SeenField(sc, ord, f, v, levels);
    assert Owns(f, f.id);
    if f.FUnion? && !v.Absent? { assert DenoteMember(h, sc, ref, v.tag, f.members, levels) == Some(seen.member); }
    if f.FUnion? { assert DenoteUnion(h, sc, cells', f.id, f.required, f.members, levels) == Some(seen); }
    if f.FUnions? { assert DenoteUnions(h, sc, cells', f.id, f.required, f.members, levels) == Some(seen); }
    if f.FUnion? || f.FUnions? { assert Owns(f, f.id - 1); }
    forall id | id in cells' && id !in cells ensures exists i :: 0 <= i < |fields[..1]| && Owns(fields[..1][i], id) {
      assert Owns(fields[..1][0], id);
    }
  }

  method BuildTables(b: Builder, sc: Schema, ord: Order, tid: nat, rows: seq<Value>, levels: nat) returns (ref: int)
    requires b.Valid() && Sound(sc) && WfKind(sc, KTable(tid))
        && forall i | 0 <= i < |rows| :: Conforms(sc, ord, KTable(tid), rows[i], levels)
    requires |b.em.emitted| + RowsSize(sc, ord, tid, rows, levels) + 4 * |rows| + 8 < TWO_31
    modifies b.em, b.cache, b.fs
    ensures Settled(b) && ref in b.em.heap && b.em.heap[ref].ORefs?
    ensures DenoteTables(b.em.heap, sc, b.em.heap[ref].refs, tid, levels) == Some(SeenRows(sc, ord, tid, rows, levels))
    ensures |b.em.emitted| <= old(|b.em.emitted|) + RowsSize(sc, ord, tid, rows, levels) + 4 * |rows| + 8
    decreases levels, 4, 0
  {
    hide EmitState.Valid, Cache.Valid, Stacked, TopOk, Emitted, AllKnown, RefsOf, RowsSize, DenoteTables;
    Pow2Max(4);
    b.StartVector(FOffsets, 4, 4, CountMax(4));
    NoRefs(b.fs.Data());
    ghost var refs := PushTables(b, sc, ord, tid, rows, levels);
    DataCount(b);
    ghost var h := b.em.heap;
    ref := b.EndOffsetVector();
    assert [] + refs == refs;
    TablesGrow(h, b.em.heap, sc, refs, tid, levels);
  }

  method PushTables(b: Builder, sc: Schema, ord: Order, tid: nat, rows: seq<Value>, levels: nat)
    returns (ghost refs: seq<int>)
    requires b.Valid() && b.Top(FOffsets) && b.fs.frames[|b.fs.frames| - 1].elem == 4
    requires b.fs.frames[|b.fs.frames| - 1].maxCount == CountMax(4)
    requires b.fs.frames[|b.fs.frames| - 1].count + |rows| <= CountMax(4)
    requires Sound(sc) && WfKind(sc, KTable(tid))
        && forall i | 0 <= i < |rows| :: Conforms(sc, ord, KTable(tid), rows[i], levels)
    requires |b.em.emitted| + RowsSize(sc, ord, tid, rows, levels) < TWO_31
    modifies b.em, b.cache, b.fs
    ensures Pushed(b, refs)
    ensures DenoteTables(b.em.heap, sc, refs, tid, levels) == Some(SeenRows(sc, ord, tid, rows, levels))
    ensures |refs| == |rows|
    ensures |b.em.emitted| <= old(|b.em.emitted|) + RowsSize(sc, ord, tid, rows, levels)
    decreases levels, 3, |rows|
  {
    hide EmitState.Valid, Cache.Valid, Stacked, TopOk, Emitted, AllKnown, IsPow2, RefsOf, CountMax, Conforms, Size,
      Denote;
    refs := [];
    if rows == [] { DataCount(b); return; }
    var ref := BuildTable(b, sc, ord, tid, rows[0], levels);
    ghost var h := b.em.heap;
    DenotedThere(h, sc, ref, KTable(tid), levels);
    PushNew(b, ref);
    refs := PushTables(b, sc, ord, tid, rows[1..], levels);
    DenoteGrows(h, b.em.heap, sc, ref, KTable(tid), levels);
    ghost var seen := SeenRows(sc, ord, tid, rows, levels);
    assert seen[1..] == SeenRows(sc, ord, tid, rows[1..], levels);
    TablesCons(b.em, sc, tid, ref, refs, seen, levels);
    refs := [ref] + refs;
  }

  lemma TablesCons(em: EmitState, sc: Schema, tid: nat, ref: int, refs: seq<int>, rows: seq<Value>, levels: nat)
    requires em.Valid() && Sound(sc) && WfKind(sc, KTable(tid)) && rows != [] && ref in em.heap
    requires Denote(em.heap, sc, ref, KTable(tid), levels) == Some(rows[0])
    requires DenoteTables(em.heap, sc, refs, tid, levels) == Some(rows[1..])
    ensures DenoteTables(em.heap, sc, [ref] + refs, tid, levels) == Some(rows)
  {
    hide Denote;
    RefRange(em, ref);
    assert ([ref] + refs)[1..] == refs;
    assert [rows[0]] + rows[1..] == rows;
  }

  // ---- the round trip ----------------------------------------------------------------------------

  /** Placed at any address that satisfies the buffer's alignment, the bytes are accepted as a root
      table of type tid, and the accessors return v. */
  ghost predicate ReadsBack(buf: seq<u8>, align: nat, sc: Schema, tid: nat, v: Value)
    requires WfSchema(sc) && tid < |sc.tables| && align >= 1
  {
    forall addr: nat | Aligned(addr, align) ::
      VerifyTableAsRoot(Ctx(buf, addr, sc), tid).Ok? && ReadRoot(Ctx(buf, addr, sc), tid) == Got(v)
  }

  /** Builds v as the root of a top-level buffer, adding the fields of every table in any order: what the
      builder emits is accepted and reads back as v, for every conforming value whose size stays below
      2 GiB and whose tables nest below the verifier's level limit. What comes back compares equal to v
      everywhere, and is v bit for bit unless v holds a zero whose default has the other sign. The buffer
      is finished behind everything in it, `body`. */
  method BuildBuffer(b: Builder, sc: Schema, ord: Order, tid: nat, v: Value, levels: nat, blockAlign: nat)
    returns (ref: int, ghost body: EmitSpace.Space)
    requires b.Valid() && b.fs.frames == [] && b.nestCount == 0 && b.em.minAlign < TWO_16
    requires IsPow2(blockAlign) && blockAlign < TWO_16
    requires Sound(sc) && WfKind(sc, KTable(tid)) && levels < MAX_LEVELS && Conforms(sc, ord, KTable(tid), v, levels)
    requires |b.em.emitted| + Size(sc, ord, KTable(tid), v, levels) + 4 + 2 * TWO_16 < TWO_31
    modifies b, b.em, b.cache, b.fs
    ensures b.Valid() && b.em.emitted != []
    ensures ref == b.em.emitStart && b.em.minAlign >= 4 && IsPow2(b.em.minAlign)
    ensures Indexed(b.em.heap, b.em.vts, body.lo, body.Hi()) && Framed(body, b.em.Space(), b.em.minAlign)
    ensures b.em.minAlign == 4 ==> |b.em.emitted| % 4 == 0
    ensures ReadsBack(b.em.emitted, b.em.minAlign, sc, tid, Seen(sc, ord, KTable(tid), v, levels))
    ensures Alike(sc, KTable(tid), v, Seen(sc, ord, KTable(tid), v, levels), levels)
    ensures SignsKept(sc, ord, KTable(tid), v, levels) ==> ReadsBack(b.em.emitted, b.em.minAlign, sc, tid, v)
  {
    hide Played, Stacked, TopOk, Indexed, LaidOut, Emitted, BucketOk, AllKnown, IsPow2, Conforms, Size, Denote,
      LinksTo, Aligned, ReadsBack, Framed,
      Seen, SignsKept, Alike;
    SeenAlike(sc, ord, KTable(tid), v, levels);
    SeenExactly(sc, ord, KTable(tid), v, levels);
    b.StartBuffer(blockAlign);
    var root := BuildTarget(b, sc, ord, KTable(tid), v, levels);
    DenotedThere(b.em.heap, sc, root, KTable(tid), levels);
    body := b.em.Space();
    ref := b.EndBuffer(root);
    FinishedReadsBack(b.em, sc, root, tid, Seen(sc, ord, KTable(tid), v, levels), levels);
  }

  lemma FinishedReadsBack(em: EmitState, sc: Schema, root: int, tid: nat, v: Value, levels: nat)
    requires em.Valid() && WfSchema(sc) && WfKind(sc, KTable(tid)) && levels < MAX_LEVELS && |em.emitted| < TWO_31
    requires em.minAlign >= 4 && IsPow2(em.minAlign) && Aligned(em.emitStart, em.minAlign)
    requires LinksTo(em.Space(), em.emitStart, root) && Denote(em.heap, sc, root, KTable(tid), levels) == Some(v)
    ensures ReadsBack(em.emitted, em.minAlign, sc, tid, v)
  {
    hide Indexed, HeapAt, HeapAlignsWithin, IsPow2, Denote, LinksTo, Aligned, VerifyTableAsRoot, ReadRoot;
    forall addr: nat | Aligned(addr, em.minAlign)
      ensures VerifyTableAsRoot(Ctx(em.emitted, addr, sc), tid).Ok?
      ensures ReadRoot(Ctx(em.emitted, addr, sc), tid) == Got(v)
    {
      AcceptRoot(Fin(Ctx(em.emitted, addr, sc), em.Space(), em.heap, em.minAlign), root, tid, levels);
    }
  }

  // ---- through the emitter's pages -----------------------------------------------------------------

  /** The builder's calls, made to an emitter with nothing in it. Of the reference passed along, the
      emitter looks at the sign only: negative at the front, not at the back. */
  method Play(e: Emitter.EmitterState, calls: seq<EmitCall>)
    requires e.Valid() && e.deque == EmitSpace.Space(0, [])
    modifies e
    ensures e.Valid() && e.deque == Played(calls)
  {
    hide Emitter.Ring, Emitter.Holds;
    var i := 0;
    assert calls[..0] == [];
    while i < |calls|
      invariant 0 <= i <= |calls| && e.Valid() && e.deque == Played(calls[..i])
    {
      var c := calls[i];
      PlayedOn(calls[..i], c);
      assert calls[..i + 1] == calls[..i] + [c];
      Emitter.OnePiece(c.data);
      e.Emit([c.data], if c.front then -1 else 0, |c.data|);
      i := i + 1;
    }
    assert calls[..i] == calls;
  }

  /** What the emitter's pages hold after a value was built, copied to memory that is large enough and
      suitably aligned, is accepted and reads back as BuildBuffer says: from the builder's calls through the
      page ring to the reader. */
  method Deliver(b: Builder, e: Emitter.EmitterState, buf: array<u8>, sc: Schema, ord: Order, tid: nat, v: Value,
      levels: nat, blockAlign: nat)
    returns (ok: bool)
    requires b.Valid() && b.fs.frames == [] && b.nestCount == 0 && b.em.minAlign < TWO_16
    requires IsPow2(blockAlign) && blockAlign < TWO_16
    requires Sound(sc) && WfKind(sc, KTable(tid)) && levels < MAX_LEVELS && Conforms(sc, ord, KTable(tid), v, levels)
    requires |b.em.emitted| + Size(sc, ord, KTable(tid), v, levels) + 4 + 2 * TWO_16 < TWO_31
    requires e.Valid() && e.deque == EmitSpace.Space(0, [])
    modifies b, b.em, b.cache, b.fs, e, buf
    ensures ok == (|b.em.emitted| <= buf.Length) && (b.em.minAlign == 4 ==> |b.em.emitted| % 4 == 0)
    ensures ok ==>
        b.em.minAlign >= 4
        && ReadsBack(buf[..|b.em.emitted|], b.em.minAlign, sc, tid, Seen(sc, ord, KTable(tid), v, levels))
  {
    hide Indexed, LaidOut, IsPow2, Conforms, Size, ReadsBack, Sound, Seen, SignsKept, Alike, Emitter.Ring,
      Emitter.Holds, Emitter.Over;
    var ref, body := BuildBuffer(b, sc, ord, tid, v, levels, blockAlign);
    Play(e, b.em.calls);
    ok := e.CopyBuffer(buf, buf.Length);
    if ok { Emitter.OverStart(old(buf[..]), b.em.emitted); }
  }
}
