/** The creating half of the builder: strings, vectors, vtables, tables and the buffer itself are
    emitted here, at the front of the emit space or, for clustered vtables, at its back. */
module Emission {
  import opened Bytes
  import opened Schema
  import opened EmitSpace
  import opened Layout

  function Max(a: nat, b: nat): nat { if a < b then b else a }

  /** Object references are negative multiples of four; vtables lie at even addresses. */
  ghost predicate Indexed(h: Heap, vts: map<int, seq<int>>, lo: int, hi: int) {
    && (forall r | r in h :: lo <= r < 0 && r % 4 == 0)
    && (forall v | v in vts :: WfVtable(vts[v]) && Even(v) && lo <= v < hi)
  }

  /** Every object and vtable is where its reference says, every stored offset resolves exactly to
      its target further up, and no object needs a larger alignment than cap. */
  ghost predicate LaidOut(s: EmitSpace.Space, h: Heap, vts: map<int, seq<int>>, cap: nat) {
    && HeapAt(s, h) && HeapAlignsWithin(h, cap)
    && forall v | v in vts :: VtAt(s, v, vts[v])
  }

  /** The references of a vector replaced, in place, by offsets from a vector based at `base`. */
  method EncodeRefs(refs: seq<int>, base: int) returns (vec: seq<int>)
    ensures |vec| == |refs| && Words(vec)
    ensures forall j | 0 <= j < |refs| :: vec[j] == OffsetWord(refs, base, j)
  {
    vec := refs;
    var i := 0;
    while i < |refs|
      invariant 0 <= i <= |refs| == |vec|
      invariant forall j | 0 <= j < i :: vec[j] == OffsetWord(refs, base, j)
      invariant forall j | i <= j < |refs| :: vec[j] == refs[j]
    {
      if vec[i] != 0 {
        vec := vec[i := Wrap32(vec[i] - base - i * 4 - 4)];
      }
      i := i + 1;
    }
  }

  /** The logged references of a table payload replaced, in place, by offsets from a table at `base`. */
  method PatchOffsets(data: seq<u8>, pl: seq<nat>, base: int) returns (d: seq<u8>)
    requires Patches(data, pl)
    ensures |d| == |data| && Patched(data, d, pl, |pl|, base)
  {
    hide U32At, U32Bytes, Wrap32;
    d := data;
    var i := 0;
    while i < |pl|
      invariant 0 <= i <= |pl| && |d| == |data| && Patched(data, d, pl, i, base)
    {
      ghost var next := PatchStep(data, d, pl, i, base);
      d := d[..pl[i]] + U32Bytes(Wrap32(U32At(d, pl[i]) - base - pl[i] - 4)) + d[pl[i] + 4..];
      i := i + 1;
    }
  }

  /** One call of the emitter: pieces in front of everything before, or behind it. */
  datatype EmitCall = EmitCall(front: bool, data: seq<u8>)

  /** What the calls amount to. */
  function Played(calls: seq<EmitCall>): EmitSpace.Space {
    if calls == [] then EmitSpace.Space(0, []) else
    var n := |calls| - 1;
    var before := Played(calls[..n]);
    if calls[n].front then Layout.EmitFront(before, calls[n].data) else Layout.EmitBack(before, calls[n].data)
  }

  lemma PlayedOn(calls: seq<EmitCall>, c: EmitCall)
    ensures Played(calls + [c]) ==
            if c.front then Layout.EmitFront(Played(calls), c.data) else Layout.EmitBack(Played(calls), c.data)
  {
    assert (calls + [c])[..|calls|] == calls;
  }

  /** What a create call put in front: n bytes of its own, then the least number of zeros that brings the
      address `front` bytes into them to a multiple of the alignment. */
  ghost predicate Padded(before: EmitSpace.Space, after: EmitSpace.Space, n: nat, front: nat, align: nat)
    requires align >= 1
  {
    var pad := before.lo - after.lo - n;
    && 0 <= pad < align && Aligned(after.lo + front, align)
    && n <= |after.bytes| && after.bytes[n..] == Zeros(pad) + before.bytes
  }

  lemma PaddedFront(s: EmitSpace.Space, data: seq<u8>, own: seq<u8>, pad: nat, front: nat, align: nat)
    requires align >= 1 && data == own + Zeros(pad) && pad < align && Aligned(s.lo - |data| + front, align)
    ensures Padded(s, Layout.EmitFront(s, data), |own|, front, align)
  {
    hide Aligned;
    assert Layout.EmitFront(s, data).bytes[|own|..] == Zeros(pad) + s.bytes;
  }

  /** How a buffer is finished: an offset and the least padding in front; behind its end as many zeros as the
      end is past a multiple of the alignment. So its size is a multiple of the alignment only when that is
      none or half of it. */
  ghost predicate Framed(before: EmitSpace.Space, after: EmitSpace.Space, align: nat)
    requires align >= 1
  {
    var tail := after.Hi() - before.Hi();
    && tail == before.Hi() % align && Aligned(after.lo, align)
    && Padded(EmitSpace.Space(before.lo, before.bytes + Zeros(tail)), after, 4, 0, align)
    && (|after.bytes| % align == 0 <==> before.Hi() % align == 0 || 2 * (before.Hi() % align) == align)
  }

  lemma WholeSize(before: EmitSpace.Space, after: EmitSpace.Space, align: nat)
    requires align >= 1 && before.Hi() >= 0
    requires Aligned(after.lo, align) && after.Hi() == before.Hi() + BackPad(before.Hi(), align)
    ensures |after.bytes| % align == 0 <==> before.Hi() % align == 0 || 2 * (before.Hi() % align) == align
  {
    BackPadFills(before.Hi(), align);
    var k := MultipleQuotient(after.lo, align);
    ModOfSum(|after.bytes|, k, align);
    assert |after.bytes| + k * align == after.Hi();
  }

  lemma EvenOfFour(x: int)
    requires x % 2 == 0
    ensures x % 4 == 0 || x % 4 == 2
  {
    var q, r := x / 4, x % 4;
    assert x == 2 * (2 * q) + r;
    assert r != 1 && r != 3;
  }

  /** A create call adds at most n bytes, and fails only when those would not fit below 2 GiB. */
  ghost predicate Cost(before: nat, after: nat, n: nat, failed: bool) {
    after <= before + n && (failed ==> before + n >= TWO_31)
  }

  class EmitState {
    var emitStart: int
    var emitEnd: int
    /** Everything handed to the emitter so far, in address order. */
    var emitted: seq<u8>
    /** The calls made to the emitter. */
    var calls: seq<EmitCall>
    var minAlign: nat

    /** What the calls so far created: the object behind every reference issued, and the words of
        every vtable emitted. */
    ghost var heap: Heap
    ghost var vts: map<int, seq<int>>

    ghost function Space(): EmitSpace.Space reads this {
      EmitSpace.Space(emitStart, emitted)
    }

    /** The largest alignment any object needs. */
    ghost function Cap(): nat reads this { Max(minAlign, 4) }

    ghost predicate Bounds() reads this {
      && emitEnd == emitStart + |emitted| && Space() == Played(calls)
      && -TWO_31 <= emitStart <= 0 <= emitEnd < TWO_31
      && Even(emitStart) && Even(emitEnd)
      && (minAlign == 0 || IsPow2(minAlign))
    }

    /** The construction invariant over any run of create calls. The layout claims hold while the
        buffer is smaller than 2 GiB, the size signed table offsets can span. */
    ghost predicate Valid() reads this {
      && Bounds()
      && Indexed(heap, vts, emitStart, emitEnd)
      && (|emitted| < TWO_31 ==> LaidOut(Space(), heap, vts, Cap()))
    }

    constructor ()
      ensures Valid() && heap == map[] && vts == map[] && emitted == [] && emitStart == 0 && minAlign == 0
    {
      emitStart, emitEnd, emitted, calls, minAlign := 0, 0, [], [], 0;
      heap, vts := map[], map[];
      new;
      assert IsPow2(4) by { assert IsPow2(2); }
    }

    method SetMinAlign(align: nat)
      requires Valid() && IsPow2(align)
      modifies `minAlign
      ensures Valid() && minAlign == Max(old(minAlign), align)
    {
      Pow2Max(align);
      ghost var cap := Cap();
      if minAlign < align {
        minAlign := align;
      }
      CapRaised(heap, cap, Cap());
    }

    method EmitFront(data: seq<u8>) returns (ref: int)
      requires Bounds() && |data| < TWO_32
      modifies `emitStart, `emitted, `calls
      ensures ref == 0 <==> data == [] || old(emitStart) - |data| < -TWO_31
      ensures ref == 0 ==> emitStart == old(emitStart) && emitted == old(emitted) && calls == old(calls)
      ensures ref != 0 ==> ref == emitStart == old(emitStart) - |data| && -TWO_31 <= ref < 0
      ensures ref != 0 ==> Space() == Layout.EmitFront(old(Space()), data) == Played(calls)
    {
      // The 32-bit difference fails to go down when the buffer is too large to represent.
      ref := Signed32(Wrap32(emitStart - |data|));
      if ref >= emitStart {
        return 0;
      }
      SignedOfWrap(emitStart - |data|);
      PlayedOn(calls, EmitCall(true, data));
      calls := calls + [EmitCall(true, data)];
      emitted := data + emitted;
      emitStart := ref;
    }

    method EmitBack(data: seq<u8>) returns (ref: int)
      requires Bounds() && |data| < TWO_31
      modifies `emitEnd, `emitted, `calls
      ensures ref == 0 <==> old(emitEnd) + |data| >= TWO_31
      ensures ref == 0 ==> emitted == old(emitted) && calls == old(calls)
      ensures ref != 0 ==> ref == old(emitEnd) + 1 && emitEnd == old(emitEnd) + |data|
      ensures ref != 0 ==> Space() == Layout.EmitBack(old(Space()), data) == Played(calls)
    {
      ref := emitEnd;
      emitEnd := Signed32(Wrap32(ref + |data|));
      if emitEnd < ref {
        return 0;
      }
      PlayedOn(calls, EmitCall(false, data));
      calls := calls + [EmitCall(false, data)];
      emitted := emitted + data;
      ref := ref + 1;
    }

    /** The last step of every object creation: emit the pieces, and enter the object they lay out. */
    method EmitObject(data: seq<u8>, ghost o: Obj) returns (ref: int)
      requires Valid() && 0 < |data| < TWO_32 && (emitStart - |data|) % 4 == 0 && AlignsWithin(o, Cap())
      requires |emitted| + |data| < TWO_31 ==> ObjAt(Layout.EmitFront(Space(), data), emitStart - |data|, o)
      modifies `emitStart, `emitted, `calls, `heap
      ensures Valid()
      ensures ref == 0 ==> heap == old(heap) && emitted == old(emitted)
      ensures ref != 0 ==>
          ref == emitStart == old(emitStart) - |data| && ref !in old(heap) && heap == old(heap)[ref := o]
      ensures ref != 0 ==> Space() == Layout.EmitFront(old(Space()), data)
      ensures Cost(old(|emitted|), |emitted|, |data|, ref == 0)
    {
      hide Played, Indexed, LaidOut, ObjAt, AlignsWithin, IsPow2, Even;
      EvenIfAligned(emitStart - |data|);
      ghost var s := Space();
      ref := EmitFront(data);
      if ref == 0 { return; }
      NotIssued(heap, vts, s.lo, s.Hi(), ref);
      Adopted(s, data, heap, vts, o, Cap());
      heap := heap[ref := o];
    }

    /** Returns 0, or the reference of a new string object. */
    method CreateString(chars: seq<u8>) returns (ref: int)
      requires Valid() && |chars| + 8 < TWO_32
      modifies `emitStart, `emitted, `calls, `heap
      ensures Valid()
      ensures ref == 0 ==> heap == old(heap) && emitted == old(emitted)
      ensures ref != 0 ==> ref < old(emitStart) && ref !in old(heap) && heap == old(heap)[ref := OStr(chars)]
      ensures ref != 0 ==> Padded(old(Space()), Space(), |chars| + 5, 4, 4)
      ensures Cost(old(|emitted|), |emitted|, |chars| + 8, ref == 0)
    {
      hide Padded, Played, Indexed, LaidOut, U32Bytes, Aligned, ObjAt, AlignsWithin, FrontPad;
      var pad := FrontPad(emitStart, |chars| + 1, 4) + 1;
      var data := U32Bytes(|chars|) + chars + Zeros(pad);
      StringCreated(Space(), chars, pad, Cap());
      StringPadded(Space(), chars, pad);
      ref := EmitObject(data, OStr(chars));
    }

    /** Returns 0, or the reference of a new vector of `count` scalars or structs. */
    method CreateVector(body: seq<u8>, count: nat, elem: nat, align: nat, maxCount: nat) returns (ref: int)
      requires Valid() && Sized(|body|, count, elem) && |body| + 4 + Max(align, 4) < TWO_32 && count < TWO_32
      requires IsPow2(align)
      modifies `emitStart, `emitted, `calls, `minAlign, `heap
      ensures Valid()
      ensures count > maxCount ==> ref == 0
      ensures ref == 0 ==> heap == old(heap) && emitted == old(emitted)
      ensures ref != 0 ==>
          ref < old(emitStart) && ref !in old(heap) && heap == old(heap)[ref := OVec(elem, Max(align, 4), count, body)]
      ensures minAlign == if count > maxCount then old(minAlign) else Max(old(minAlign), Max(align, 4))
      ensures ref != 0 ==> Padded(old(Space()), Space(), |body| + 4, 4, Max(align, 4))
      ensures Cost(old(|emitted|), |emitted|, |body| + 4 + Max(align, 4), ref == 0 && count <= maxCount)
    {
      if count > maxCount {
        return 0;
      }
      hide Padded, Played, Indexed, LaidOut, U32Bytes, Aligned, ObjAt, AlignsWithin, FrontPad, IsPow2, Sized;
      var a := Max(align, 4);
      Pow2Max(align);
      SetMinAlign(a);
      // Alignment is that of the first element, not of the length field.
      var pad := FrontPad(emitStart, |body|, a);
      var data := U32Bytes(count) + body + Zeros(pad);
      VectorCreated(Space(), body, count, elem, a, pad, Cap());
      DataPadded(Space(), data, U32Bytes(count) + body, pad, 4, a);
      ref := EmitObject(data, OVec(elem, a, count, body));
    }

    /** Returns 0, or the reference of a new offset vector; 0 elements are the nulls of a union vector. */
    method CreateOffsetVector(refs: seq<int>) returns (ref: int)
      requires Valid() && (4 * |refs| + 8 < TWO_32 || |refs| > CountMax(4))
      requires forall i | 0 <= i < |refs| :: refs[i] == 0 || refs[i] in heap
      modifies `emitStart, `emitted, `calls, `minAlign, `heap
      ensures Valid()
      ensures ref == 0 ==> heap == old(heap) && emitted == old(emitted)
      ensures ref != 0 ==> ref < old(emitStart) && ref !in old(heap) && heap == old(heap)[ref := ORefs(refs)]
      ensures |refs| > CountMax(4) ==> ref == 0
      ensures minAlign == if |refs| > CountMax(4) then old(minAlign) else Max(old(minAlign), 4)
      ensures ref != 0 ==> Padded(old(Space()), Space(), 4 * |refs| + 4, 4, 4)
      ensures Cost(old(|emitted|), |emitted|, 4 * |refs| + 8, ref == 0)
    {
      if |refs| > CountMax(4) {
        return 0;
      }
      hide Padded, Played, Indexed, LaidOut, U32Bytes, WordBytes, Aligned, ObjAt, AlignsWithin, FrontPad, IsPow2,
        OffsetWord, Words, CountMax, Even, Cap;
      Pow2Max(4);
      SetMinAlign(4);
      var pad := FrontPad(emitStart, 4 * |refs|, 4);
      var base := emitStart - (4 + 4 * |refs| + pad);
      var vec := EncodeRefs(refs, base);
      var data := U32Bytes(|refs|) + WordBytes(vec) + Zeros(pad);
      RefsCreated(Space(), refs, vec, pad, heap, vts, Cap());
      DataPadded(Space(), data, U32Bytes(|refs|) + WordBytes(vec), pad, 4, 4);
      ref := EmitObject(data, ORefs(refs));
    }

    /** Returns 0, or one more than the address of a new vtable: an odd reference. */
    method CreateVtable(vt: seq<int>, clustered: bool) returns (ref: int)
      requires Valid() && WfVtable(vt)
      modifies `emitStart, `emitEnd, `emitted, `calls, `vts
      ensures ref != 0 ==> Valid() && Even(ref - 1) && vts == old(vts)[ref - 1 := vt] && ref - 1 !in old(vts)
      ensures ref != 0 ==> (ref - 1 == old(emitEnd) && clustered) || (ref - 1 < old(emitStart) && !clustered)
      ensures ref != 0 ==> Space() == if clustered then Layout.EmitBack(old(Space()), HalfBytes(vt))
                                      else Layout.EmitFront(old(Space()), HalfBytes(vt))
      ensures heap == old(heap) && Cost(old(|emitted|), |emitted|, 2 * |vt|, ref == 0)
    {
      hide Played, Indexed, LaidOut, HalfBytes, VtAt, WfVtable, Even, IsPow2;
      VtableSize(vt);
      var data := HalfBytes(vt);
      ghost var s := Space();
      if clustered {
        ref := EmitBack(data);
        if ref == 0 { return; }
        VtableCreated(s, vt, true, heap, vts, Cap());
      } else {
        ref := EmitFront(data);
        if ref == 0 { return; }
        VtableCreated(s, vt, false, heap, vts, Cap());
        ref := ref + 1;
      }
      vts := vts[ref - 1 := vt];
    }

    /** Returns 0, or the reference of a new table. `data` is the table behind its header word, with
        references where its offset fields are; `pl` lists where those are. */
    method CreateTable(data: seq<u8>, align: nat, pl: seq<nat>, vtRef: int, ghost cells: map<nat, Cell>)
      returns (ref: int)
      requires Valid() && IsPow2(align) && |data| + 4 + Max(align, 4) < TWO_31
      requires vtRef - 1 in vts && Describes(data, pl, vts[vtRef - 1], cells, Max(align, 4))
      requires forall id | id in cells && cells[id].Link? :: cells[id].target in heap
      modifies `emitStart, `emitted, `calls, `minAlign, `heap
      ensures Valid() && minAlign == Max(old(minAlign), Max(align, 4))
      ensures ref == 0 ==> heap == old(heap) && emitted == old(emitted)
      ensures ref != 0 ==> ref < old(emitStart) && ref !in old(heap) && heap == old(heap)[ref := OTab(cells)]
      ensures ref != 0 ==> Padded(old(Space()), Space(), |data| + 4, 4, Max(align, 4))
      ensures Cost(old(|emitted|), |emitted|, |data| + 4 + Max(align, 4), ref == 0)
    {
      hide Padded, Played, Indexed, LaidOut, U32Bytes, U32At, Aligned, ObjAt, AlignsWithin, FrontPad, IsPow2, Describes,
        Patched, Patches, Wrap32;
      var a := Max(align, 4);
      Pow2Max(align);
      SetMinAlign(a);
      var pad := FrontPad(emitStart, |data|, a);
      var base := emitStart - (pad + |data| + 4);
      var vtBase := vtRef - 1;
      var word := Wrap32(base - vtBase);
      DescribedPatches(data, pl, vts[vtBase], cells, a);
      var d := PatchOffsets(data, pl, base);
      var out := U32Bytes(word) + d + Zeros(pad);
      TableCreated(Space(), vtBase, data, d, pl, a, pad, heap, vts, cells, Cap());
      DataPadded(Space(), out, U32Bytes(word) + d, pad, 4, a);
      ref := EmitObject(out, OTab(cells));
    }

    /** Pads the end of the buffer. The amount is the end's remainder itself, which fills up to a
        multiple of `align` only when that is four (an even end leaves two). */
    method AlignBufferEnd(align: nat) returns (ok: bool)
      requires Valid() && IsPow2(align) && 4 <= align < TWO_16
      modifies `emitEnd, `emitted, `calls
      ensures ok ==> Valid() && emitEnd == old(emitEnd) + BackPad(old(emitEnd), align)
      ensures ok ==> emitStart == old(emitStart) && emitted == old(emitted) + Zeros(emitEnd - old(emitEnd))
      ensures !ok ==> emitted == old(emitted)
      ensures Cost(old(|emitted|), |emitted|, align, !ok)
    {
      hide Played, Indexed, LaidOut, IsPow2, Even, BackPad;
      var endPad := BackPad(emitEnd, align);
      ok := true;
      if endPad != 0 {
        ghost var s := Space();
        EvenRemainder(emitEnd, align);
        EvenSum(emitEnd, endPad);
        var r := EmitBack(Zeros(endPad));
        if r == 0 { return false; }
        BackExtends(s, Zeros(endPad));
        Kept(s, Space(), heap, vts, Cap());
      }
    }

    /** Returns 0, or the start of the finished top-level buffer: padded at its end, headed by the
        offset to its root, and starting at a multiple of every alignment inside it. */
    method CreateBuffer(objectRef: int, blockAlign: nat, align: nat) returns (ref: int)
      requires Valid() && IsPow2(align) && IsPow2(blockAlign) && align < TWO_16 && blockAlign < TWO_16
      requires objectRef in heap
      modifies `emitStart, `emitEnd, `emitted, `calls, `minAlign
      ensures ref != 0 ==> Valid() && ref == emitStart && Aligned(emitStart, Max(Max(align, 4), blockAlign))
      ensures ref != 0 && |emitted| < TWO_31 ==> LinksTo(Space(), emitStart, objectRef)
      ensures ref != 0 ==> minAlign == Max(old(minAlign), Max(Max(align, 4), blockAlign))
      ensures ref != 0 ==> Framed(old(Space()), Space(), Max(Max(align, 4), blockAlign))
      ensures Cost(old(|emitted|), |emitted|, 4 + 2 * Max(Max(align, 4), blockAlign), ref == 0)
    {
      hide Played, Indexed, LaidOut, U32Bytes, U32At, Aligned, LinksTo, FrontPad, BackPad, IsPow2, Wrap32, Even,
        Framed, Padded;
      var a := Max(Max(align, 4), blockAlign);
      Pow2Max(align);
      var ok := AlignBufferEnd(a);
      if !ok { return 0; }
      SetMinAlign(a);
      var pad := FrontPad(emitStart, 4, a);
      var base := emitStart - (4 + pad);
      var offset := Wrap32(objectRef - base);
      var data := U32Bytes(offset) + Zeros(pad);
      ghost var s := Space();
      ref := EmitFront(data);
      if ref == 0 { return; }
      FrontExtends(s, data);
      Kept(s, Space(), heap, vts, Cap());
      RootCreated(s, data, objectRef, a, pad, heap, vts);
      EvenIfAligned(ref);
      BufferFinished(old(Space()), s, offset, data, pad, a);
    }
  }

  lemma DataPadded(s: EmitSpace.Space, data: seq<u8>, own: seq<u8>, pad: nat, front: nat, align: nat)
    requires align >= 1 && data == own + Zeros(pad) && front <= |own| && pad == FrontPad(s.lo, |own| - front, align)
    ensures Padded(s, Layout.EmitFront(s, data), |own|, front, align)
  {
    hide Aligned, Padded;
    PadAligns(s.lo, |own| - front, align);
    assert s.lo - (|own| - front) - pad == s.lo - |data| + front;
    PaddedFront(s, data, own, pad, front, align);
  }

  lemma StringPadded(s: EmitSpace.Space, chars: seq<u8>, pad: nat)
    requires pad == FrontPad(s.lo, |chars| + 1, 4) + 1 && |chars| < TWO_32
    ensures Padded(s, Layout.EmitFront(s, U32Bytes(|chars|) + chars + Zeros(pad)), |chars| + 5, 4, 4)
  {
    hide Padded, U32Bytes, FrontPad;
    var own := U32Bytes(|chars|) + chars + [0];
    assert U32Bytes(|chars|) + chars + Zeros(pad) == own + Zeros(pad - 1);
    DataPadded(s, own + Zeros(pad - 1), own, pad - 1, 4, 4);
  }

  lemma BufferFinished(before: EmitSpace.Space, s: EmitSpace.Space, w: int, data: seq<u8>, pad: nat, align: nat)
    requires align >= 1 && before.Hi() >= 0 && s.lo == before.lo && 0 <= w < TWO_32
    requires s.bytes == before.bytes + Zeros(BackPad(before.Hi(), align))
    requires data == U32Bytes(w) + Zeros(pad) && pad == FrontPad(s.lo, 4, align)
    ensures Framed(before, Layout.EmitFront(s, data), align)
  {
    hide Padded, FrontPad, U32Bytes;
    PadAligns(s.lo, 4, align);
    DataPadded(s, data, U32Bytes(w), pad, 0, align);
    assert s == EmitSpace.Space(before.lo, before.bytes + Zeros(s.Hi() - before.Hi()));
    assert s.lo - 4 - pad == s.lo - |data|;
    WholeSize(before, Layout.EmitFront(s, data), align);
  }

  // ---- growth ------------------------------------------------------------------------------------

  lemma Pow2Max(align: nat)
    requires IsPow2(align)
    ensures IsPow2(4) && IsPow2(Max(align, 4)) && 1 <= align <= Max(align, 4)
  {
    assert IsPow2(4) by { assert IsPow2(2); }
  }

  lemma CapRaised(h: Heap, cap: nat, cap': nat)
    requires IsPow2(cap') && cap <= cap'
    ensures HeapAlignsWithin(h, cap) ==> HeapAlignsWithin(h, cap')
  {
    if HeapAlignsWithin(h, cap) {
      forall r | r in h ensures AlignsWithin(h[r], cap') {
        assert AlignsWithin(h[r], cap);
      }
    }
  }

  lemma EvenRemainder(x: nat, a: nat)
    requires IsPow2(a) && a >= 2 && Even(x)
    ensures Even(BackPad(x, a))
  {
    var p := MultipleBelow(x, a);
    EvenProduct(x / a, a / 2, a);
    EvenSum(x, p);
  }

  /** The multiple of a that x is past. */
  lemma MultipleBelow(x: nat, a: nat) returns (p: nat)
    requires a >= 1
    ensures p == x / a * a && BackPad(x, a) == x - p
  {
    p := x / a * a;
  }

  lemma EvenProduct(q: nat, h: nat, a: nat)
    requires a == 2 * h
    ensures Even(q * a)
  {
    ProductRegroup(q, 2, h);
    assert q * a == 2 * (q * h);
    EvenSize(q * h);
  }

  /** Growth alone keeps every object and vtable. */
  lemma Kept(s: EmitSpace.Space, t: EmitSpace.Space, h: Heap, vts: map<int, seq<int>>, cap: nat)
    requires s.ExtendedBy(t)
    ensures LaidOut(s, h, vts, cap) ==> LaidOut(t, h, vts, cap)
    ensures Indexed(h, vts, s.lo, s.Hi()) ==> Indexed(h, vts, t.lo, t.Hi())
  {
    hide VtAt, HeapAt, WfVtable;
    if LaidOut(s, h, vts, cap) {
      HeapExtends(s, t, h);
      forall v | v in vts ensures VtAt(t, v, vts[v]) { VtExtends(s, t, v, vts[v]); }
    }
  }

  lemma NotIssued(h: Heap, vts: map<int, seq<int>>, lo: int, hi: int, ref: int)
    requires Indexed(h, vts, lo, hi) && ref < lo
    ensures ref !in h
  {}

  /** One object more at the front. */
  lemma Adopted(s: EmitSpace.Space, data: seq<u8>, h: Heap, vts: map<int, seq<int>>, o: Obj, cap: nat)
    requires Indexed(h, vts, s.lo, s.Hi()) && data != []
    requires s.lo - |data| < 0 && (s.lo - |data|) % 4 == 0
    requires |s.bytes| + |data| < TWO_31 ==>
               LaidOut(s, h, vts, cap) && ObjAt(Layout.EmitFront(s, data), s.lo - |data|, o) && AlignsWithin(o, cap)
    ensures var t, r := Layout.EmitFront(s, data), s.lo - |data|;
            Indexed(h[r := o], vts, t.lo, t.Hi()) && (|t.bytes| < TWO_31 ==> LaidOut(t, h[r := o], vts, cap))
  {
    hide VtAt, ObjAt, AlignsWithin, WfVtable;
    FrontExtends(s, data);
    Kept(s, Layout.EmitFront(s, data), h, vts, cap);
  }

  lemma StringCreated(s: EmitSpace.Space, chars: seq<u8>, pad: nat, cap: nat)
    requires pad == FrontPad(s.lo, |chars| + 1, 4) + 1 && |chars| < TWO_32 && s.lo <= 0
    ensures var data := U32Bytes(|chars|) + chars + Zeros(pad);
            && (s.lo - |data|) % 4 == 0
            && ObjAt(Layout.EmitFront(s, data), s.lo - |data|, OStr(chars)) && AlignsWithin(OStr(chars), cap)
  {
    hide U32Bytes, StrAt, FrontPad;
    StringLaid(s, chars, pad);
    PadAligns(s.lo, |chars| + 1, 4);
    assert s.lo - |U32Bytes(|chars|) + chars + Zeros(pad)| == s.lo - (|chars| + 1) - FrontPad(s.lo, |chars| + 1, 4) - 4;
  }

  lemma VectorCreated(s: EmitSpace.Space, body: seq<u8>, count: nat, elem: nat, align: nat, pad: nat, cap: nat)
    requires IsPow2(align) && 4 <= align <= cap && pad == FrontPad(s.lo, |body|, align)
    requires Sized(|body|, count, elem) && count < TWO_32 && s.lo <= 0
    ensures var data := U32Bytes(count) + body + Zeros(pad);
            && (s.lo - |data|) % 4 == 0
            && ObjAt(Layout.EmitFront(s, data), s.lo - |data|, OVec(elem, align, count, body))
            && AlignsWithin(OVec(elem, align, count, body), cap)
  {
    hide U32Bytes, VecAt, FrontPad, Aligned, Sized, IsPow2;
    PadAligns(s.lo, |body|, align);
    VectorLaid(s, elem, align, count, body, pad);
    AlignedTo4(s.lo - |body| - pad, align);
  }

  lemma RefsCreated(s: EmitSpace.Space, refs: seq<int>, ws: seq<int>, pad: nat, h: Heap, vts: map<int, seq<int>>,
      cap: nat)
    requires Words(ws) && |ws| == |refs| < TWO_32 && pad == FrontPad(s.lo, 4 * |refs|, 4) && s.lo <= 0 <= s.Hi()
    requires forall i | 0 <= i < |refs| :: ws[i] == OffsetWord(refs, s.lo - (4 + 4 * |refs| + pad), i)
    requires forall i | 0 <= i < |refs| :: refs[i] == 0 || refs[i] in h
    requires Indexed(h, vts, s.lo, s.Hi())
    ensures var data := U32Bytes(|refs|) + WordBytes(ws) + Zeros(pad);
            && (s.lo - |data|) % 4 == 0 && AlignsWithin(ORefs(refs), cap)
            && (|s.bytes| + |data| < TWO_31 ==> ObjAt(Layout.EmitFront(s, data), s.lo - |data|, ORefs(refs)))
  {
    hide U32Bytes, WordBytes, RefsAt, FrontPad, WfVtable;
    PadAligns(s.lo, 4 * |refs|, 4);
    if |s.bytes| + 4 * |refs| + 4 + pad < TWO_31 {
      assert s.lo - 4 - 4 * |refs| - pad == s.lo - (4 + 4 * |refs| + pad);
      RefsLaid(s, refs, ws, pad);
    }
  }

  lemma VtableSize(vt: seq<int>)
    requires WfVtable(vt)
    ensures (forall i | 0 <= i < |vt| :: 0 <= vt[i] < TWO_16) && 4 <= 2 * |vt| < TWO_16
  {}

  lemma EvenSize(n: nat)
    ensures Even(2 * n)
  {}

  lemma VtableCreated(s: EmitSpace.Space, vt: seq<int>, back: bool, h: Heap, vts: map<int, seq<int>>, cap: nat)
    requires WfVtable(vt) && Even(s.lo) && Even(s.Hi())
    requires Indexed(h, vts, s.lo, s.Hi()) && s.lo <= 0 <= s.Hi()
    ensures var t := if back then Layout.EmitBack(s, HalfBytes(vt)) else Layout.EmitFront(s, HalfBytes(vt));
            var v := if back then s.Hi() else t.lo;
            && v !in vts && Indexed(h, vts[v := vt], t.lo, t.Hi()) && Even(t.lo) && Even(t.Hi()) && Even(v)
            && (LaidOut(s, h, vts, cap) ==> LaidOut(t, h, vts[v := vt], cap))
  {
    hide HalfBytes, VtAt, HeapAt, WfVtable, HeapAlignsWithin, Even;
    VtableSize(vt);
    EvenSize(|vt|);
    EvenSum(s.lo, 2 * |vt|);
    EvenSum(s.Hi(), 2 * |vt|);
    var data := HalfBytes(vt);
    var t := if back then Layout.EmitBack(s, data) else Layout.EmitFront(s, data);
    var v := if back then s.Hi() else t.lo;
    if back { BackExtends(s, data); } else { FrontExtends(s, data); }
    Kept(s, t, h, vts, cap);
    assert t.Slice(v, 2 * |vt|) == data;
    VtLaid(t, v, vt);
  }

  lemma DescribedPatches(data: seq<u8>, pl: seq<nat>, vt: seq<int>, cells: map<nat, Cell>, align: nat)
    requires Describes(data, pl, vt, cells, align)
    ensures Patches(data, pl)
  {}

  lemma TableAligns(data: seq<u8>, pl: seq<nat>, vt: seq<int>, cells: map<nat, Cell>, align: nat, m: nat)
    requires Describes(data, pl, vt, cells, align) && align <= m
    ensures AlignsWithin(OTab(cells), m)
  {
    forall id | id in cells && cells[id].Raw? ensures IsPow2(cells[id].align) && cells[id].align <= m {
      assert CellIn(data, pl, VtEntry(vt, id) - 4, cells[id], align);
    }
  }

  lemma TableCreated(s: EmitSpace.Space, v: int, data: seq<u8>, d: seq<u8>, pl: seq<nat>, align: nat, pad: nat,
                     h: Heap, vts: map<int, seq<int>>, cells: map<nat, Cell>, cap: nat)
    requires IsPow2(align) && 4 <= align <= cap && pad == FrontPad(s.lo, |data|, align) && s.lo <= 0 <= s.Hi()
    requires v in vts && Describes(data, pl, vts[v], cells, align) && |d| == |data|
    requires Patched(data, d, pl, |pl|, s.lo - (pad + |data| + 4))
    requires forall id | id in cells && cells[id].Link? :: cells[id].target in h
    requires Indexed(h, vts, s.lo, s.Hi())
    requires |s.bytes| < TWO_31 ==> LaidOut(s, h, vts, cap)
    ensures var out := U32Bytes(Wrap32(s.lo - (pad + |data| + 4) - v)) + d + Zeros(pad);
            && (s.lo - |out|) % 4 == 0 && AlignsWithin(OTab(cells), cap)
            && (|s.bytes| + |out| < TWO_31 ==> ObjAt(Layout.EmitFront(s, out), s.lo - |out|, OTab(cells)))
  {
    hide U32Bytes, TabAt, FrontPad, Aligned, Describes, Patched, VtAt, WfVtable, Wrap32;
    PadAligns(s.lo, |data|, align);
    AlignedTo4(s.lo - |data| - pad, align);
    TableAligns(data, pl, vts[v], cells, align, cap);
    assert s.lo - pad - |data| - 4 == s.lo - (pad + |data| + 4);
    if |s.bytes| + |data| + 4 + pad < TWO_31 {
      TableLaid(s, v, vts[v], data, d, pl, cells, align, pad);
    }
  }

  lemma RootCreated(s: EmitSpace.Space, data: seq<u8>, r: int, a: nat, pad: nat, h: Heap, vts: map<int, seq<int>>)
    requires IsPow2(a) && a >= 4 && pad == FrontPad(s.lo, 4, a)
    requires data == U32Bytes(Wrap32(r - (s.lo - (4 + pad)))) + Zeros(pad)
    requires r in h && Indexed(h, vts, s.lo, s.Hi()) && s.lo <= 0 <= s.Hi()
    ensures Aligned(s.lo - |data|, a) && (s.lo - |data|) % 4 == 0
    ensures |s.bytes| + |data| < TWO_31 ==> LinksTo(Layout.EmitFront(s, data), s.lo - |data|, r)
  {
    hide U32Bytes, U32At, FrontPad, Aligned, WfVtable;
    PadAligns(s.lo, 4, a);
    assert s.lo - 4 - pad == s.lo - |data|;
    AlignedTo4(s.lo - |data|, a);
    FrontU32(s, data, 0);
    assert data[0..4] == U32Bytes(Wrap32(r - (s.lo - |data|)));
    U32RoundTrip(Wrap32(r - (s.lo - |data|)), data, 0);
  }
}
