/** The builder's public operations: the container stack, the vtable cache and the emitter working
    together. A container is opened, filled and ended; ending it emits one object. */
module BuilderOps {
  import opened Bytes
  import opened Scalars
  import opened Schema
  import opened EmitSpace
  import opened Layout
  import opened Emission
  import opened VtableCache
  import opened Frames

  /** Every reference a table under construction holds names an object already emitted. */
  ghost predicate CellsKnown(cells: map<nat, Cell>, h: Heap) {
    forall id | id in cells && cells[id].Link? :: cells[id].target in h
  }

  ghost predicate AllKnown(cells: map<nat, Cell>, saved: seq<Snap>, h: Heap) {
    CellsKnown(cells, h) && forall k | 0 <= k < |saved| :: CellsKnown(saved[k].regs.cells, h)
  }

  ghost predicate Grown(h: Heap, h': Heap) {
    forall r | r in h :: r in h' && h'[r] == h[r]
  }

  lemma KnownGrows(cells: map<nat, Cell>, saved: seq<Snap>, h: Heap, h': Heap)
    requires AllKnown(cells, saved, h) && Grown(h, h')
    ensures AllKnown(cells, saved, h')
  {}

  /** References as an offset vector under construction holds them: 32-bit words. */
  function RefsOf(data: seq<u8>): seq<int>
    requires |data| % 4 == 0
  {
    if data == [] then [] else [Signed32(U32At(data, 0))] + RefsOf(data[4..])
  }

  lemma {:induction false} RefsPushed(data: seq<u8>, ref: int)
    requires |data| % 4 == 0 && -TWO_31 <= ref < TWO_31
    ensures |data + U32Bytes(Wrap32(ref))| % 4 == 0
    ensures RefsOf(data + U32Bytes(Wrap32(ref))) == RefsOf(data) + [ref]
    decreases |data|
  {
    hide U32At, U32Bytes, Wrap32;
    var w := U32Bytes(Wrap32(ref));
    var next := data + w;
    if data == [] {
      assert next == w && next[0..4] == w && next[4..] == [];
      U32RoundTrip(Wrap32(ref), next, 0);
      SignedOfWrap(ref);
    } else {
      RefsPushed(data[4..], ref);
      assert next[4..] == data[4..] + w;
      assert next[0..4] == data[0..4];
      U32OfSlice(next, 0, data, 0);
    }
  }

  lemma {:induction false} RefsCount(data: seq<u8>)
    requires |data| % 4 == 0
    ensures 4 * |RefsOf(data)| == |data|
  {
    if data != [] { RefsCount(data[4..]); }
  }

  class Builder {
    const em: EmitState
    const cache: Cache
    const fs: FrameStack
    const clustered: bool
    var nestId: nat
    var nestCount: nat
    var blockAlign: nat

    ghost predicate Valid() reads this, em, cache, fs {
      && em.Valid() && cache.Valid() && fs.Valid()
      && Emitted(cache.known, cache.madeIn, em.vts) && AllKnown(fs.cells, fs.saved, em.heap)
    }

    constructor (mix: (nat, nat, nat) -> nat, flushLimit: nat, clustered: bool)
      ensures Valid() && fs.frames == [] && em.heap == map[] && em.emitted == [] && em.minAlign == 0 && nestCount == 0
      ensures fresh(em) && fresh(cache) && fresh(fs)
    {
      em := new EmitState();
      cache := new Cache(flushLimit);
      fs := new FrameStack(mix);
      this.clustered, nestId, nestCount, blockAlign := clustered, 0, 0, 0;
    }

    /** The kind of the container on top. */
    ghost predicate Top(kind: FrameKind) reads fs {
      fs.frames != [] && fs.frames[|fs.frames| - 1].kind == kind
    }

    // ---- containers --------------------------------------------------------------------------

    method StartBuffer(blockAlign: nat)
      requires Valid() && fs.frames == [] && nestCount == 0 && IsPow2(blockAlign)
      modifies this, em`minAlign, fs
      ensures Valid() && Top(FBuffer) && |fs.frames| == 1 && this.blockAlign == blockAlign
      ensures nestId == 0 && nestCount == 1
      ensures fs.saved == old(fs.saved) + [old(fs.Cur())]
      ensures em.minAlign == (if old(em.minAlign) == 0 then 1 else old(em.minAlign)) && fs.align == old(em.minAlign)
    {
      hide Played, Stacked, TopOk, Indexed, LaidOut, Emitted, BucketOk;
      fs.Enter(FBuffer, em.minAlign, 0, 0);
      if em.minAlign == 0 { em.SetMinAlign(1); }
      this.blockAlign := blockAlign;
      nestId := nestCount;
      nestCount := nestCount + 1;
    }

    method StartTable()
      requires Valid()
      modifies fs
      ensures Valid() && Top(FTable) && fs.saved == old(fs.saved) + [old(fs.Cur())]
      ensures fs.frames[..|fs.frames| - 1] == old(fs.frames)
      ensures fs.cells == map[] && fs.dsOffset == 0 && fs.idEnd == 0 && fs.align == 4
    {
      hide Played, Stacked, TopOk, Indexed, LaidOut, Emitted, BucketOk;
      fs.StartTable();
    }

    method StartVector(kind: FrameKind, elem: nat, align: nat, maxCount: nat)
      requires Valid() && IsPow2(align) && (kind.FVector? || kind.FOffsets? || kind.FString?)
      modifies fs
      ensures Valid() && Top(kind) && fs.saved == old(fs.saved) + [old(fs.Cur())]
      ensures fs.frames[..|fs.frames| - 1] == old(fs.frames)
      ensures var f := fs.frames[|fs.frames| - 1]; f.elem == elem && f.count == 0 && f.maxCount == maxCount
      ensures fs.Data() == [] && fs.align == align
    {
      hide Played, Stacked, TopOk, Indexed, LaidOut, Emitted, BucketOk;
      fs.Enter(kind, align, elem, maxCount);
    }

    // ---- fields ------------------------------------------------------------------------------

    /** Adds a scalar field; a value that compares equal to the default is left out. */
    method AddScalar(id: nat, bytes: seq<u8>, align: nat, default: seq<u8>, floating: bool) returns (ok: bool)
      requires Valid() && Top(FTable) && IsPow2(align) && align < TWO_16 && id <= ID_MAX
      requires SameValue(bytes, default, floating) || AlignUp(fs.dsOffset, align) + |bytes| + 4 < TWO_16
      modifies fs`align, fs`ds, fs`dsOffset, fs`vs, fs`idEnd, fs`pl, fs`plPtr, fs`vtHash, fs`cells
      ensures Valid() && ok == (SameValue(bytes, default, floating) || id !in old(fs.cells))
      ensures fs.cells == if ok && !SameValue(bytes, default, floating) then old(fs.cells)[id := Raw(bytes, align)]
          else old(fs.cells)
      ensures ok ==> fs.dsOffset == if SameValue(bytes, default, floating) then old(fs.dsOffset)
          else AlignUp(old(fs.dsOffset), align) + |bytes|
      ensures ok ==> fs.idEnd <= Max(old(fs.idEnd), id + 1) && fs.align <= Max(old(fs.align), align)
    {
      hide Played, Stacked, TopOk, Indexed, LaidOut, Emitted, BucketOk, AlignUp, IsPow2, SameValue;
      if SameValue(bytes, default, floating) { return true; }
      ok := fs.TableAdd(id, bytes, align);
    }

    /** Adds an offset field; the null reference of a failed creation is refused. */
    method AddOffset(id: nat, ref: int) returns (ok: bool)
      requires Valid() && Top(FTable) && (ref == 0 || ref in em.heap) && id <= ID_MAX
      requires AlignUp(fs.dsOffset, 4) + 8 < TWO_16
      modifies fs`ds, fs`dsOffset, fs`vs, fs`idEnd, fs`pl, fs`plPtr, fs`vtHash, fs`cells
      ensures Valid() && ok == (ref != 0 && id !in old(fs.cells))
      ensures fs.cells == if ok then old(fs.cells)[id := Link(ref)] else old(fs.cells)
      ensures ok ==> fs.dsOffset == AlignUp(old(fs.dsOffset), 4) + 4 && fs.idEnd <= Max(old(fs.idEnd), id + 1)
    {
      hide Played, Stacked, TopOk, Indexed, LaidOut, Emitted, BucketOk, AlignUp, IsPow2;
      if ref == 0 { return false; }
      ok := fs.TableAddOffset(id, ref);
    }

    /** Adds a union: its type under the id below, then its value. */
    method AddUnion(id: nat, tag: u8, ref: int) returns (ok: bool)
      requires Valid() && Top(FTable) && (ref == 0 || ref in em.heap) && 1 <= id <= ID_MAX
      requires AlignUp(AlignUp(fs.dsOffset, 1) + 1, 4) + 8 < TWO_16
      modifies fs`align, fs`ds, fs`dsOffset, fs`vs, fs`idEnd, fs`pl, fs`plPtr, fs`vtHash, fs`cells
      ensures Valid()
      ensures ok == (tag == 0 || (ref != 0 && id - 1 !in old(fs.cells) && id !in old(fs.cells)))
      ensures ok ==> fs.cells == if tag == 0 then old(fs.cells)
          else old(fs.cells)[id - 1 := Raw([tag], 1)][id := Link(ref)]
      ensures ok ==> fs.dsOffset == if tag == 0 then old(fs.dsOffset)
          else AlignUp(AlignUp(old(fs.dsOffset), 1) + 1, 4) + 4
      ensures ok ==> fs.idEnd <= Max(old(fs.idEnd), id + 1) && fs.align <= Max(old(fs.align), 1)
    {
      hide Played, Stacked, TopOk, Indexed, LaidOut, Emitted, BucketOk, AlignUp;
      if tag == 0 { return true; }
      if ref == 0 { return false; }
      OneFits(fs.dsOffset);
      ok := fs.TableAdd(id - 1, [tag], 1);
      if !ok { return; }
      ok := fs.TableAddOffset(id, ref);
    }

    /** Adds a union vector: its types under the id below, then its values; neither when both are null. */
    method AddUnionVector(id: nat, types: int, values: int) returns (ok: bool)
      requires Valid() && Top(FTable) && 1 <= id <= ID_MAX
      requires (types == 0 || types in em.heap) && (values == 0 || values in em.heap)
      requires AlignUp(AlignUp(fs.dsOffset, 4) + 4, 4) + 8 < TWO_16
      modifies fs`ds, fs`dsOffset, fs`vs, fs`idEnd, fs`pl, fs`plPtr, fs`vtHash, fs`cells
      ensures Valid()
      ensures ok == if types == 0 || values == 0 then types == values
          else id - 1 !in old(fs.cells) && id !in old(fs.cells)
      ensures ok ==> fs.cells == if types == 0 then old(fs.cells)
          else old(fs.cells)[id - 1 := Link(types)][id := Link(values)]
      ensures ok ==> fs.dsOffset == if types == 0 then old(fs.dsOffset)
          else AlignUp(AlignUp(old(fs.dsOffset), 4) + 4, 4) + 4
      ensures ok ==> fs.idEnd <= Max(old(fs.idEnd), id + 1)
    {
      hide Played, Stacked, TopOk, Indexed, LaidOut, Emitted, BucketOk, AlignUp;
      if types == 0 || values == 0 { return types == values; }
      FourFit(fs.dsOffset);
      ok := fs.TableAddOffset(id - 1, types);
      if !ok { return; }
      ok := fs.TableAddOffset(id, values);
    }

    lemma FourFit(n: nat)
      requires AlignUp(AlignUp(n, 4) + 4, 4) + 8 < TWO_16
      ensures AlignUp(n, 4) + 8 < TWO_16
    {
      AlignUpBounds(AlignUp(n, 4) + 4, 4);
    }

    lemma OneFits(n: nat)
      requires AlignUp(AlignUp(n, 1) + 1, 4) + 8 < TWO_16
      ensures AlignUp(n, 1) + 1 + 4 < TWO_16
    {
      AlignUpBounds(AlignUp(n, 1) + 1, 4);
    }

    // ---- ending containers -------------------------------------------------------------------

    /** What the open table holds, as the vtable and patch log describe it. */
    lemma TableDescribed()
      requires fs.Valid() && Top(FTable)
      ensures var f := fs.frames[|fs.frames| - 1];
              && f.plEnd <= fs.plPtr <= |fs.pl| && fs.InMemory() && IsPow2(fs.align) && 4 <= fs.align < TWO_16
              && |fs.Data()| + 4 < TWO_16
              && var vt := VtableWords(fs.vs[fs.vsPtr..fs.vsPtr + fs.idEnd], fs.dsOffset);
                 WfVtable(vt) && Describes(fs.Data(), fs.pl[f.plEnd..fs.plPtr], vt, fs.cells, fs.align)
    {
      hide Stacked, Nested, Describes, WfVtable, IsPow2, CellIn, Patches;
      var f, c := fs.frames[|fs.frames| - 1], fs.Cur();
      assert LevelOk(f, c);
      assert DataOf(c) == fs.Data() && EntriesOf(c) == fs.vs[fs.vsPtr..fs.vsPtr + fs.idEnd];
      assert LogOf(f, c) == fs.pl[f.plEnd..fs.plPtr];
      FieldsDescribe(DataOf(c), LogOf(f, c), EntriesOf(c), c.regs.cells, c.align);
    }

    /** What the cache looks for when the open table ends: by its hash, in this buffer, its vtable's words. */
    ghost function Wanted(): Key
      requires fs.Valid() && Top(FTable)
      reads this, fs
    {
      TableDescribed();
      Key(Bucket(Wrap32(fs.mix(fs.vtHash, 2 * (fs.idEnd + 2), fs.dsOffset + 4))), nestId,
          VtableWords(fs.vs[fs.vsPtr..fs.vsPtr + fs.idEnd], fs.dsOffset))
    }

    /** A vtable the cache knows is used again; any other is emitted, behind everything when vtables are
        clustered and else in front, before the table itself, which takes `payload` bytes, its header and the
        least padding. */
    twostate predicate TableEmitted(key: Key, payload: nat, align: nat)
      reads this, em, cache
    {
      var shared, size := key in old(cache.known), 2 * |key.words|;
      && em.emitEnd == old(em.emitEnd) + (if shared || !clustered then 0 else size)
      && (shared ==> em.vts == old(em.vts))
      && (!shared ==> exists v :: v !in old(em.vts) && em.vts == old(em.vts)[v := key.words])
      && var front := old(em.emitStart) - em.emitStart - (if shared || clustered then 0 else size);
         payload + 4 <= front < payload + 4 + align
    }

    /** The first half of ending a table: its vtable is found or emitted, then the table itself. */
    method EmitTable() returns (ref: int)
      requires Valid() && Top(FTable)
      modifies em, cache
      ensures ref != 0 ==> Valid() && ref !in old(em.heap) && em.heap == old(em.heap)[ref := OTab(fs.cells)]
      ensures ref != 0 ==> old(em.minAlign) <= em.minAlign <= Max(old(em.minAlign), fs.align)
      ensures ref != 0 ==> TableEmitted(Wanted(), fs.dsOffset, fs.align)
      ensures Cost(old(|em.emitted|), |em.emitted|, 2 * (fs.idEnd + 2) + fs.dsOffset + 4 + fs.align, ref == 0)
    {
      hide Played, Stacked, TopOk, Indexed, LaidOut, Emitted, BucketOk, WfVtable, Describes, IsPow2, Wrap32, Bucket,
        HalfBytes, Padded, EntriesOf;
      var f := fs.frames[|fs.frames| - 1];
      TableDescribed();
      var vt := VtableWords(fs.vs[fs.vsPtr..fs.vsPtr + fs.idEnd], fs.dsOffset);
      var hash := Wrap32(fs.mix(fs.vtHash, 2 * (fs.idEnd + 2), fs.dsOffset + 4));
      var vtRef := cache.CreateCached(em, vt, hash, nestId, clustered);
      if vtRef == 0 { return 0; }
      ghost var h, key := em.heap, Wanted();
      assert key.words == vt && key == Key(Bucket(hash), nestId, vt);
      ghost var v := vtRef - 1;
      assert key !in old(cache.known) ==> v !in old(em.vts) && em.vts == old(em.vts)[v := key.words];
      label Cached:
      ghost var before := em.Space();
      ref := em.CreateTable(fs.ds[fs.dsFirst..fs.dsFirst + fs.dsOffset], fs.align, fs.pl[f.plEnd..fs.plPtr], vtRef,
          fs.cells);
      if ref != 0 { PaddedRoom(before, em.Space(), fs.dsOffset + 4, fs.align); }
      KnownGrows(fs.cells, fs.saved, h, em.heap);
    }

    lemma PaddedRoom(before: Space, after: Space, n: nat, align: nat)
      requires align >= 1 && Padded(before, after, n, 4, align)
      ensures n <= before.lo - after.lo < n + align && after.Hi() == before.Hi()
    {}

    /** Ends the table on top. */
    method EndTable() returns (ref: int)
      requires Valid() && Top(FTable)
      modifies em, cache, fs
      ensures ref != 0 ==> Valid() && Left(old(fs.frames), old(fs.saved))
      ensures ref != 0 ==> ref !in old(em.heap) && em.heap == old(em.heap)[ref := OTab(old(fs.cells))]
      ensures ref != 0 ==> old(em.minAlign) <= em.minAlign <= Max(old(em.minAlign), old(fs.align))
      ensures ref != 0 ==> TableEmitted(old(Wanted()), old(fs.dsOffset), old(fs.align))
      ensures Cost(old(|em.emitted|), |em.emitted|, 2 * (old(fs.idEnd) + 2) + old(fs.dsOffset) + 4 + old(fs.align),
          ref == 0)
    {
      hide Played, Stacked, TopOk, Indexed, LaidOut, Emitted, BucketOk, IsPow2;
      Depths();
      AlignOfTable();
      ref := EmitTable();
      if ref == 0 { return; }
      var childAlign := fs.CloseTable();
      em.SetMinAlign(childAlign);
    }

    lemma Depths()
      requires fs.Valid()
      ensures |fs.saved| == |fs.frames|
    {}

    lemma AlignOfTable()
      requires fs.Valid() && Top(FTable)
      ensures IsPow2(fs.align) && 4 <= fs.align < TWO_16
    {
      TableDescribed();
    }

    /** Appends to the string or vector on top. */
    method Append(bytes: seq<u8>, count: nat) returns (ok: bool)
      requires Valid() && (Top(FVector) || Top(FString)) && var f := fs.frames[|fs.frames| - 1];
               Sized(|bytes|, count, f.elem) && (f.kind.FString? ==> f.elem == 1) && count < TWO_32
                   && f.maxCount < TWO_32
      modifies fs`ds, fs`dsOffset, fs`frames
      ensures Valid() && |fs.frames| == |old(fs.frames)|
      ensures fs.frames[..|fs.frames| - 1] == old(fs.frames)[..|fs.frames| - 1]
      ensures var f := old(fs.frames)[|fs.frames| - 1];
              && ok == (f.count + count <= f.maxCount)
              && fs.frames[|fs.frames| - 1] == (if ok then f.(count := f.count + count) else f)
      ensures fs.Data() == if ok then old(fs.Data()) + bytes else old(fs.Data())
    {
      hide Played, Stacked, TopOk, Indexed, LaidOut, Emitted, BucketOk, Sized;
      ok := fs.Append(bytes, count);
    }

    /** Appends one reference to the offset vector on top. */
    method PushRef(ref: int) returns (ok: bool)
      requires Valid() && Top(FOffsets) && -TWO_31 <= ref < TWO_31
      requires var f := fs.frames[|fs.frames| - 1]; f.elem == 4 && f.maxCount < TWO_32
      modifies fs`ds, fs`dsOffset, fs`frames
      ensures Valid() && |fs.frames| == |old(fs.frames)|
      ensures fs.frames[..|fs.frames| - 1] == old(fs.frames)[..|fs.frames| - 1]
      ensures var f := old(fs.frames)[|fs.frames| - 1];
              && ok == (f.count + 1 <= f.maxCount)
              && fs.frames[|fs.frames| - 1] == (if ok then f.(count := f.count + 1) else f)
      ensures |fs.Data()| % 4 == 0 && |old(fs.Data())| % 4 == 0
      ensures RefsOf(fs.Data()) == if ok then RefsOf(old(fs.Data())) + [ref] else RefsOf(old(fs.Data()))
    {
      hide Played, Stacked, TopOk, Indexed, LaidOut, Emitted, BucketOk, RefsOf, U32Bytes, Wrap32;
      OffsetCount();
      ghost var before := fs.Data();
      ok := fs.Append(U32Bytes(Wrap32(ref)), 1);
      RefsPushed(before, ref);
    }

    lemma OffsetCount()
      requires fs.Valid() && Top(FOffsets)
      ensures |fs.Data()| == 4 * fs.frames[|fs.frames| - 1].count && IsPow2(fs.align)
    {
      hide Stacked, Nested, IsPow2;
      var c := fs.Cur();
      assert LevelOk(fs.frames[|fs.frames| - 1], c);
      assert DataOf(c) == fs.Data();
    }

    lemma VectorCount()
      requires fs.Valid() && Top(FVector)
      ensures var f := fs.frames[|fs.frames| - 1]; Sized(|fs.Data()|, f.count, f.elem) && IsPow2(fs.align)
    {
      hide Stacked, Nested, IsPow2;
      var c := fs.Cur();
      assert LevelOk(fs.frames[|fs.frames| - 1], c);
      assert DataOf(c) == fs.Data();
    }

    /** Ends the string on top. */
    method EndString() returns (ref: int)
      requires Valid() && Top(FString) && |fs.Data()| + 8 < TWO_32 && IsPow2(fs.align)
      modifies em, fs
      ensures ref != 0 ==> Valid() && Left(old(fs.frames), old(fs.saved))
      ensures ref != 0 ==> ref !in old(em.heap) && em.heap == old(em.heap)[ref := OStr(old(fs.Data()))]
      ensures ref != 0 ==> old(em.minAlign) <= em.minAlign <= Max(old(em.minAlign), Max(old(fs.align), 4))
      ensures Cost(old(|em.emitted|), |em.emitted|, old(|fs.Data()|) + 8, ref == 0)
    {
      hide Played, Stacked, TopOk, Indexed, LaidOut, Emitted, BucketOk, IsPow2;
      Depths();
      ghost var h := em.heap;
      ref := em.CreateString(fs.ds[fs.dsFirst..fs.dsFirst + fs.dsOffset]);
      if ref == 0 { return; }
      KnownGrows(fs.cells, fs.saved, h, em.heap);
      LeaveContainer();
    }

    /** Ends the vector on top. */
    method EndVector() returns (ref: int)
      requires Valid() && Top(FVector) && |fs.Data()| + 4 + Max(fs.align, 4) < TWO_32
      requires fs.frames[|fs.frames| - 1].count < TWO_32
      modifies em, fs
      ensures ref != 0 ==> Valid() && Left(old(fs.frames), old(fs.saved))
      ensures ref != 0 ==>
          ref !in old(em.heap) && old(em.minAlign) <= em.minAlign <= Max(old(em.minAlign), Max(old(fs.align), 4))
      ensures var f := old(fs.frames)[|old(fs.frames)| - 1];
              && (ref != 0 ==>
                    em.heap == old(em.heap)[ref := OVec(f.elem, Max(old(fs.align), 4), f.count, old(fs.Data()))])
              && Cost(old(|em.emitted|), |em.emitted|, old(|fs.Data()|) + 4 + Max(old(fs.align), 4),
                      ref == 0 && f.count <= f.maxCount)
    {
      hide Played, Stacked, TopOk, Indexed, LaidOut, Emitted, BucketOk, IsPow2, Sized;
      Depths();
      VectorCount();
      ghost var h := em.heap;
      var f := fs.frames[|fs.frames| - 1];
      ref := em.CreateVector(fs.ds[fs.dsFirst..fs.dsFirst + fs.dsOffset], f.count, f.elem, fs.align, f.maxCount);
      if ref == 0 { return; }
      KnownGrows(fs.cells, fs.saved, h, em.heap);
      LeaveContainer();
    }

    /** Ends the offset vector on top; its references must name objects. */
    method EndOffsetVector() returns (ref: int)
      requires Valid() && Top(FOffsets) && |fs.Data()| % 4 == 0 && |fs.Data()| + 8 < TWO_32
      requires forall i | 0 <= i < |RefsOf(fs.Data())| :: RefsOf(fs.Data())[i] in em.heap
      modifies em, fs
      ensures ref != 0 ==> Valid() && Left(old(fs.frames), old(fs.saved))
      ensures ref != 0 ==> ref !in old(em.heap) && em.heap == old(em.heap)[ref := ORefs(old(RefsOf(fs.Data())))]
      ensures ref != 0 ==> old(em.minAlign) <= em.minAlign <= Max(old(em.minAlign), Max(old(fs.align), 4))
      ensures Cost(old(|em.emitted|), |em.emitted|, old(|fs.Data()|) + 8, ref == 0)
    {
      hide Played, Stacked, TopOk, Indexed, LaidOut, Emitted, BucketOk, IsPow2, RefsOf;
      Depths();
      OffsetCount();
      ghost var h := em.heap;
      var data := fs.ds[fs.dsFirst..fs.dsFirst + fs.dsOffset];
      RefsCount(data);
      ref := em.CreateOffsetVector(RefsOf(data));
      if ref == 0 { return; }
      KnownGrows(fs.cells, fs.saved, h, em.heap);
      LeaveContainer();
    }

    /** Creates both vectors of a union vector, whose null values are those of type NONE: first the values,
        then the types. */
    method CreateUnionVector(tags: seq<u8>, refs: seq<int>) returns (types: int, values: int)
      requires Valid() && |tags| == |refs| && 4 * |refs| + 8 < TWO_32
      requires forall i | 0 <= i < |refs| :: if refs[i] == 0 then tags[i] == 0 else tags[i] != 0 && refs[i] in em.heap
      modifies em
      ensures types != 0 ==>
                && Valid() && values != 0 && values !in old(em.heap) && types !in old(em.heap) && types != values
                && em.heap == old(em.heap)[values := ORefs(refs)][types := OVec(1, 4, |tags|, tags)]
      ensures types != 0 ==> old(em.minAlign) <= em.minAlign <= Max(old(em.minAlign), 4)
      ensures Cost(old(|em.emitted|), |em.emitted|, 4 * |refs| + 8 + |tags| + 8, types == 0)
    {
      hide Played, Stacked, TopOk, Indexed, LaidOut, Emitted, BucketOk, IsPow2;
      types := 0;
      ghost var h := em.heap;
      values := em.CreateOffsetVector(refs);
      if values == 0 { return; }
      KnownGrows(fs.cells, fs.saved, h, em.heap);
      h := em.heap;
      BytesSized(|tags|);
      types := em.CreateVector(tags, |tags|, 1, 1, UOFFSET_MAX);
      if types == 0 { return; }
      KnownGrows(fs.cells, fs.saved, h, em.heap);
    }

    lemma BytesSized(n: nat)
      ensures Sized(n, n, 1) && IsPow2(1)
    {}

    /** Leaves a container that is not a table; the buffer's alignment takes in the container's. */
    method LeaveContainer()
      requires Valid() && fs.frames != [] && !fs.frames[|fs.frames| - 1].kind.FTable?
          && (fs.align == 0 || IsPow2(fs.align))
      modifies em`minAlign, fs
      ensures Valid() && Left(old(fs.frames), old(fs.saved))
      ensures em.minAlign == Max(old(em.minAlign), old(fs.align))
    {
      hide Played, Stacked, TopOk, Indexed, LaidOut, Emitted, BucketOk, IsPow2;
      Depths();
      var childAlign := fs.Exit();
      if childAlign != 0 { em.SetMinAlign(childAlign); }
    }

    /** Ends the buffer: pads its end, and heads it with the offset of its root. */
    method EndBuffer(root: int) returns (ref: int)
      requires Valid() && Top(FBuffer) && root in em.heap && IsPow2(blockAlign) && blockAlign < TWO_16
      requires IsPow2(em.minAlign) && em.minAlign < TWO_16 && (fs.align == 0 || IsPow2(fs.align))
      modifies this, em, fs
      ensures ref != 0 ==> Valid() && Left(old(fs.frames), old(fs.saved))
      ensures ref != 0 ==> em.heap == old(em.heap) && em.vts == old(em.vts)
      ensures ref != 0 ==> nestId == 0 && nestCount == old(nestCount)
      ensures ref != 0 ==> ref == em.emitStart && IsPow2(em.minAlign)
      ensures ref != 0 && old(fs.align) <= old(em.minAlign) ==> em.minAlign >= 4 && Aligned(em.emitStart, em.minAlign)
      ensures ref != 0 && |em.emitted| < TWO_31 ==> LinksTo(em.Space(), em.emitStart, root)
      ensures ref != 0 && old(fs.align) <= old(em.minAlign) ==> Framed(old(em.Space()), em.Space(), em.minAlign)
      ensures ref != 0 && old(fs.align) <= old(em.minAlign) && em.minAlign == 4 ==> |em.emitted| % 4 == 0
      ensures Cost(old(|em.emitted|), |em.emitted|, 4 + 2 * Max(Max(old(em.minAlign), old(blockAlign)), 4), ref == 0)
    {
      hide Played, Stacked, TopOk, Indexed, LaidOut, Emitted, BucketOk, IsPow2, Aligned, LinksTo, Framed;
      Depths();
      ghost var body := em.Space();
      em.SetMinAlign(blockAlign);
      ref := em.CreateBuffer(root, blockAlign, em.minAlign);
      if ref == 0 { return; }
      Pow2Max(em.minAlign);
      nestId := 0;
      LeaveContainer();
      if old(fs.align) <= old(em.minAlign) && em.minAlign == 4 { FillsFour(body, em.Space()); }
    }

    lemma FillsFour(before: Space, after: Space)
      requires Framed(before, after, 4) && before.Hi() % 2 == 0
      ensures |after.bytes| % 4 == 0
    {
      hide Padded, Aligned;
      EvenOfFour(before.Hi());
    }

    /** The container on top has been left: its parent is exactly what it was. */
    ghost predicate Left(frames: seq<Frame>, saved: seq<Snap>) reads fs {
      && frames != [] && |saved| == |frames| && fs.InMemory()
      && fs.frames == frames[..|frames| - 1] && fs.saved == saved[..|frames| - 1] && fs.Cur() == saved[|frames| - 1]
    }
  }
}
