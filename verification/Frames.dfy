/** The builder's container stack. Nested tables, vectors and strings share one zeroed data stack, one
    vtable stack and one patch log; a frame per open container remembers the parent's registers.
    The reference it is held against is a stack of private copies, `saved`. */
module Frames {
  import opened Bytes
  import opened Schema
  import opened EmitSpace
  import opened Layout

  datatype FrameKind = FBuffer | FTable | FVector | FOffsets | FString

  /** The parent's registers, and the counters of the container the frame opens. */
  datatype Frame = Frame(kind: FrameKind, dsOffset: nat, align: nat, dsFirst: nat,
                         vsEnd: nat, idEnd: nat, plEnd: nat, vtHash: nat,
                         elem: nat, count: nat, maxCount: nat)

  /** The table registers: vtable stack and patch log up to their tops, and what the calls put there. */
  datatype Regs = Regs(vsPtr: nat, idEnd: nat, vs: seq<int>, pl: seq<nat>, vtHash: nat, cells: map<nat, Cell>)

  /** A private copy of everything a container can see: the data stack up to its top, and registers. */
  datatype Snap = Snap(dsFirst: nat, ds: seq<u8>, align: nat, regs: Regs)

  /** Rounds up to a multiple; the source masks with a power of two. */
  function AlignUp(x: nat, a: nat): (r: nat)
    requires a >= 1
  {
    (x + a - 1) / a * a
  }

  lemma AlignUpBounds(x: nat, a: nat)
    requires a >= 1
    ensures x <= AlignUp(x, a) < x + a && Aligned(AlignUp(x, a), a)
  {
    var q := (x + a - 1) / a;
    assert x + a - 1 == q * a + (x + a - 1) % a;
    MultipleIsAligned(q, a);
  }

  // ---- the fields of one open table ------------------------------------------------------------

  /** Payload, patch log and vtable entries hold exactly the given cells. */
  ghost predicate FieldsOk(data: seq<u8>, pl: seq<nat>, entries: seq<int>, cells: map<nat, Cell>, align: nat) {
    && IsPow2(align) && 4 <= align < TWO_16 && Patches(data, pl)
    && |data| + 4 < TWO_16 && |entries| <= ID_MAX + 1 && (forall i | 0 <= i < |entries| :: 0 <= entries[i] < TWO_16)
    && (forall id: nat :: id in cells <==> id < |entries| && entries[id] != 0)
    && (forall id: nat | id in cells :: CellIn(data, pl, entries[id] - 4, cells[id], align))
  }

  /** Entries with room for id, and id's set. */
  function SetEntry(entries: seq<int>, id: nat, e: int): (r: seq<int>)
    ensures |r| == (if id < |entries| then |entries| else id + 1)
    ensures forall i | 0 <= i < |r| :: r[i] == (if i == id then e else if i < |entries| then entries[i] else 0)
  {
    if id < |entries| then entries[id := e] else entries + seq(id - |entries|, i => 0) + [e]
  }

  /** A vtable stack with the entries above ptr extended. */
  function NewEntries(vs: seq<int>, ptr: nat, id: nat, e: int): seq<int>
    requires ptr <= |vs|
  {
    vs[..ptr] + SetEntry(vs[ptr..], id, e)
  }

  lemma EntrySet(vs0: seq<int>, vs: seq<int>, ptr: nat, n: nat, id: nat, e: int)
    requires ptr + n <= |vs0| && ZeroFrom(vs0, ptr + n) && ptr + id < |vs| && |vs0| <= |vs|
    requires forall i | 0 <= i < |vs| :: vs[i] == (if i == ptr + id then e else if i < |vs0| then vs0[i] else 0)
    ensures var n' := if id < n then n else id + 1; vs[..ptr + n'] == NewEntries(vs0[..ptr + n], ptr, id, e)
  {
    hide SetEntry;
    var n' := if id < n then n else id + 1;
    var a, r := vs0[..ptr + n], NewEntries(vs0[..ptr + n], ptr, id, e);
    assert forall i | 0 <= i < n :: a[ptr..][i] == vs0[ptr + i];
    assert |r| == ptr + n';
    forall i | 0 <= i < ptr + n' ensures vs[i] == r[i] {
      if i >= ptr { assert r[i] == SetEntry(a[ptr..], id, e)[i - ptr]; }
    }
  }

  lemma CellKept(data: seq<u8>, pl: seq<nat>, off: int, c: Cell, align: nat, data': seq<u8>, pl': seq<nat>, align': nat)
    requires CellIn(data, pl, off, c, align) && data <= data' && pl <= pl' && align <= align'
    requires forall j | |pl| <= j < |pl'| :: |data| <= pl'[j]
    ensures CellIn(data', pl', off, c, align')
  {
    hide U32At, Aligned;
    match c
    case Raw(bytes, a) =>
      assert data'[off..off + |bytes|] == data[off..off + |bytes|];
    case Link(target) =>
      assert data'[off..off + 4] == data[off..off + 4];
      U32OfSlice(data', off, data, off);
      var j :| 0 <= j < |pl| && pl[j] == off;
      assert pl'[j] == off;
  }

  lemma RawAdded(data: seq<u8>, pl: seq<nat>, entries: seq<int>, cells: map<nat, Cell>, align: nat,
                 id: nat, bytes: seq<u8>, a: nat, off: nat)
    requires FieldsOk(data, pl, entries, cells, align) && id !in cells
    requires IsPow2(a) && a < TWO_16 && off >= |data| && Aligned(off, a) && off + |bytes| + 4 < TWO_16 && id <= ID_MAX
    ensures FieldsOk(data + Zeros(off - |data|) + bytes, pl, SetEntry(entries, id, off + 4),
                     cells[id := Raw(bytes, a)], if align < a then a else align)
  {
    hide U32At, Aligned, IsPow2, CellIn;
    var data' := data + Zeros(off - |data|) + bytes;
    var align' := if align < a then a else align;
    forall i: nat | i in cells ensures CellIn(data', pl, entries[i] - 4, cells[i], align') {
      CellKept(data, pl, entries[i] - 4, cells[i], align, data', pl, align');
    }
    RawCell(data', pl, off, bytes, a, align');
  }

  lemma RawCell(data: seq<u8>, pl: seq<nat>, off: nat, bytes: seq<u8>, a: nat, align: nat)
    requires off + |bytes| == |data| && data[off..] == bytes && IsPow2(a) && a <= align && Aligned(off, a)
    requires forall j | 0 <= j < |pl| :: pl[j] + 4 <= off
    ensures CellIn(data, pl, off, Raw(bytes, a), align)
  {
    hide Aligned;
    assert data[off..off + |bytes|] == data[off..];
  }

  lemma LinkAdded(data: seq<u8>, pl: seq<nat>, entries: seq<int>, cells: map<nat, Cell>, align: nat,
                  id: nat, target: int, off: nat)
    requires FieldsOk(data, pl, entries, cells, align) && id !in cells
    requires off >= |data| && off % 4 == 0 && off + 8 < TWO_16 && id <= ID_MAX
    ensures FieldsOk(data + Zeros(off - |data|) + U32Bytes(Wrap32(target)), pl + [off], SetEntry(entries, id, off + 4),
                     cells[id := Link(target)], align)
  {
    hide U32At, Aligned, IsPow2, CellIn, U32Bytes;
    var data' := data + Zeros(off - |data|) + U32Bytes(Wrap32(target));
    forall i: nat | i in cells ensures CellIn(data', pl + [off], entries[i] - 4, cells[i], align) {
      CellKept(data, pl, entries[i] - 4, cells[i], align, data', pl + [off], align);
    }
    LinkCell(data', pl + [off], off, target, align);
  }

  lemma LinkCell(data: seq<u8>, pl: seq<nat>, off: nat, target: int, align: nat)
    requires off + 4 == |data| && data[off..] == U32Bytes(Wrap32(target)) && off % 4 == 0 && off in pl
    ensures CellIn(data, pl, off, Link(target), align)
  {
    hide U32At, U32Bytes;
    assert data[off..off + 4] == data[off..];
    U32RoundTrip(Wrap32(target), data, off);
  }

  /** The vtable an ended table asks for: two header words, then the entries. */
  function VtableWords(entries: seq<int>, dataLen: nat): seq<int> {
    [2 * (|entries| + 2), dataLen + 4] + entries
  }

  lemma FieldsDescribe(data: seq<u8>, pl: seq<nat>, entries: seq<int>, cells: map<nat, Cell>, align: nat)
    requires FieldsOk(data, pl, entries, cells, align)
    ensures WfVtable(VtableWords(entries, |data|))
    ensures Describes(data, pl, VtableWords(entries, |data|), cells, align)
  {
    hide U32At, Aligned, IsPow2, CellIn;
    var vt := VtableWords(entries, |data|);
    assert forall id: nat :: VtEntry(vt, id) == if id < |entries| then entries[id] else 0;
  }

  // ---- the stack ---------------------------------------------------------------------------------

  ghost predicate SnapOk(s: Snap) {
    && s.dsFirst <= |s.ds| && |s.regs.vs| == s.regs.vsPtr + s.regs.idEnd
    && forall i | 0 <= i < |s.regs.vs| :: 0 <= s.regs.vs[i] < TWO_16
  }

  ghost function DataOf(s: Snap): seq<u8>
    requires SnapOk(s)
  {
    s.ds[s.dsFirst..]
  }

  ghost function EntriesOf(s: Snap): seq<int>
    requires SnapOk(s)
  {
    s.regs.vs[s.regs.vsPtr..]
  }

  ghost function LogOf(f: Frame, s: Snap): seq<nat>
    requires f.plEnd <= |s.regs.pl|
  {
    s.regs.pl[f.plEnd..]
  }

  /** What the container opened by frame f has built, seen in its private copy s. */
  ghost predicate LevelOk(f: Frame, s: Snap) {
    SnapOk(s) &&
    match f.kind
    case FTable => f.plEnd <= |s.regs.pl| && FieldsOk(DataOf(s), LogOf(f, s), EntriesOf(s), s.regs.cells, s.align)
    case FVector => Sized(|DataOf(s)|, f.count, f.elem) && IsPow2(s.align)
    case FOffsets => Sized(|DataOf(s)|, f.count, 4) && IsPow2(s.align)
    case FString => |DataOf(s)| == f.count
    case FBuffer => DataOf(s) == []
  }

  /** Frame f stands between the container in p and the one it opened, in c: p's registers are in the
      frame or untouched, and p's stacks lie below c's, with nothing but zeros in between. */
  ghost predicate Nested(p: Snap, f: Frame, c: Snap) {
    && SnapOk(p) && SnapOk(c)
    && f.dsFirst == p.dsFirst && f.dsFirst + f.dsOffset == |p.ds| && f.align == p.align
    && c.dsFirst >= |p.ds| && c.ds[..|p.ds|] == p.ds && c.ds[|p.ds|..c.dsFirst] == Zeros(c.dsFirst - |p.ds|)
    && if f.kind == FTable then
         && f.vsEnd == p.regs.vsPtr && f.idEnd == p.regs.idEnd && f.plEnd == |p.regs.pl| && f.vtHash == p.regs.vtHash
         && c.regs.vsPtr == |p.regs.vs| + 2 && c.regs.vs[..|p.regs.vs|] == p.regs.vs
         && c.regs.vs[|p.regs.vs|..c.regs.vsPtr] == [0, 0]
         && |p.regs.pl| <= |c.regs.pl| && c.regs.pl[..|p.regs.pl|] == p.regs.pl
       else
         c.regs == p.regs
  }

  /** All frames below the current container. */
  ghost predicate Stacked(saved: seq<Snap>, frames: seq<Frame>) {
    && |saved| == |frames|
    && (forall k | 0 <= k < |saved| - 1 :: Nested(saved[k], frames[k], saved[k + 1])
         && LevelOk(frames[k], saved[k + 1]))
  }

  ghost predicate TopOk(saved: seq<Snap>, frames: seq<Frame>, cur: Snap) {
    && SnapOk(cur) && |saved| == |frames|
    && (frames != [] ==> var n := |frames| - 1; Nested(saved[n], frames[n], cur) && LevelOk(frames[n], cur))
  }

  ghost predicate ZeroFrom(s: seq<int>, p: nat) {
    p <= |s| && forall i | p <= i < |s| :: s[i] == 0
  }

  class FrameStack {
    /** The data stack memory, and the current container's part of it. */
    var ds: seq<u8>
    var dsFirst: nat
    var dsOffset: nat
    var align: nat
    /** The vtable stack memory, and the current table's entries in it. */
    var vs: seq<int>
    var vsPtr: nat
    var idEnd: nat
    /** The patch log memory and its top. */
    var pl: seq<nat>
    var plPtr: nat
    var vtHash: nat
    var frames: seq<Frame>
    const mix: (nat, nat, nat) -> nat

    ghost var cells: map<nat, Cell>
    ghost var saved: seq<Snap>

    ghost predicate InMemory() reads this {
      && dsFirst + dsOffset <= |ds| && vsPtr + idEnd <= |vs| && plPtr <= |pl|
      && ZeroFrom(ds, dsFirst + dsOffset) && ZeroFrom(vs, vsPtr + idEnd)
    }

    /** Everything the current container can see. */
    ghost function Cur(): Snap
      requires InMemory()
      reads this
    {
      Snap(dsFirst, ds[..dsFirst + dsOffset], align,
           Regs(vsPtr, idEnd, vs[..vsPtr + idEnd], pl[..plPtr], vtHash, cells))
    }

    ghost predicate Valid() reads this {
      InMemory() && Stacked(saved, frames) && TopOk(saved, frames, Cur())
    }

    constructor (mix: (nat, nat, nat) -> nat)
      ensures Valid() && frames == [] && saved == [] && cells == map[] && this.mix == mix
      ensures dsFirst == dsOffset == vsPtr == idEnd == plPtr == vtHash == 0
    {
      ds, dsFirst, dsOffset, align := [], 0, 0, 0;
      vs, vsPtr, idEnd, pl, plPtr, vtHash := [], 0, 0, [], 0, 0;
      frames, this.mix := [], mix;
      cells, saved := map[], [];
    }

    /** Opens a container that is not a table: the parent becomes a private copy. */
    method Enter(kind: FrameKind, newAlign: nat, elem: nat, maxCount: nat)
      requires Valid() && !kind.FTable? && (kind.FVector? || kind.FOffsets? ==> IsPow2(newAlign))
      modifies `ds, `dsFirst, `dsOffset, `align, `frames, `saved
      ensures Valid() && saved == old(saved) + [old(Cur())]
      ensures frames == old(frames) + [frames[|old(frames)|]]
      ensures var f := frames[|old(frames)|]; f.kind == kind && f.elem == elem && f.count == 0 && f.maxCount == maxCount
      ensures align == newAlign && dsOffset == 0
    {
      ghost var p := Cur();
      PushFrame(kind, newAlign, elem, maxCount);
      saved := saved + [p];
      Opened(old(saved), old(frames), p, frames[|frames| - 1], Cur());
    }

    /** enter_frame: saves the data-stack registers and starts an empty container at the next multiple
        of eight. */
    method PushFrame(kind: FrameKind, newAlign: nat, elem: nat, maxCount: nat)
      requires InMemory()
      modifies `ds, `dsFirst, `dsOffset, `align, `frames
      ensures InMemory() && dsOffset == 0 && align == newAlign
      ensures frames == old(frames)
          + [Frame(kind, old(dsOffset), old(align), old(dsFirst), vsPtr, idEnd, plPtr, vtHash, elem, 0, maxCount)]
      ensures dsFirst == AlignUp(old(dsFirst) + old(dsOffset), 8) >= old(dsFirst) + old(dsOffset)
      ensures ds[..dsFirst] == old(ds[..dsFirst + dsOffset]) + Zeros(dsFirst - (old(dsFirst) + old(dsOffset)))
    {
      frames := frames + [Frame(kind, dsOffset, align, dsFirst, vsPtr, idEnd, plPtr, vtHash, elem, 0, maxCount)];
      align := newAlign;
      var top := dsFirst + dsOffset;
      AlignUpBounds(top, 8);
      dsFirst := AlignUp(top, 8);
      if |ds| < dsFirst { ds := ds + Zeros(dsFirst - |ds|); }
      dsOffset := 0;
    }

    /** The parent's private copy p, found in the top frame and below the data of its container. */
    ghost predicate DataOver(p: Snap) reads this {
      && frames != [] && var f := frames[|frames| - 1];
      && f.dsFirst == p.dsFirst && f.dsFirst + f.dsOffset == |p.ds| && f.align == p.align
      && |p.ds| <= dsFirst && dsFirst + dsOffset <= |ds| && ZeroFrom(ds, dsFirst + dsOffset)
      && ds[..|p.ds|] == p.ds && ds[|p.ds|..dsFirst] == Zeros(dsFirst - |p.ds|)
    }

    /** The enclosing table's registers in p, found in the top frame and below this table's entries. */
    ghost predicate EntriesOver(p: Snap) reads this {
      && frames != [] && SnapOk(p) && var f := frames[|frames| - 1];
      && f.vsEnd == p.regs.vsPtr && f.idEnd == p.regs.idEnd && f.plEnd == |p.regs.pl| && f.vtHash == p.regs.vtHash
      && vsPtr == |p.regs.vs| + 2 && vsPtr + idEnd <= |vs| && ZeroFrom(vs, vsPtr + idEnd)
      && vs[..|p.regs.vs|] == p.regs.vs
      && |p.regs.pl| <= plPtr <= |pl| && pl[..|p.regs.pl|] == p.regs.pl
    }

    /** exit_frame: clears the container's part of the data stack and restores the parent's registers. */
    method PopFrame(ghost p: Snap) returns (childAlign: nat)
      requires DataOver(p)
      modifies `ds, `dsFirst, `dsOffset, `align, `frames
      ensures childAlign == old(align) && frames == old(frames)[..|old(frames)| - 1]
      ensures dsFirst == p.dsFirst && dsFirst + dsOffset == |p.ds| <= |ds| && align == p.align
      ensures ds[..|p.ds|] == p.ds && ZeroFrom(ds, |p.ds|)
    {
      childAlign := align;
      ghost var ds0 := ds;
      ds := ds[..dsFirst] + Zeros(dsOffset) + ds[dsFirst + dsOffset..];
      ClearedData(p, ds0, ds, dsFirst, dsOffset);
      var top := frames[|frames| - 1];
      dsOffset, dsFirst, align := top.dsOffset, top.dsFirst, top.align;
      frames := frames[..|frames| - 1];
    }

    /** The part of end_table that hands the vtable stack and the patch log back to the parent. */
    method PopEntries(ghost p: Snap)
      requires EntriesOver(p)
      modifies `vs, `vsPtr, `idEnd, `plPtr, `vtHash, `cells
      ensures vsPtr == p.regs.vsPtr && idEnd == p.regs.idEnd && plPtr == |p.regs.pl| && vtHash == p.regs.vtHash
      ensures |p.regs.vs| <= |vs| && vs[..|p.regs.vs|] == p.regs.vs && ZeroFrom(vs, |p.regs.vs|)
      ensures cells == p.regs.cells
    {
      ghost var vs0 := vs;
      vs := vs[..vsPtr - 2] + Zeros(idEnd + 2) + vs[vsPtr + idEnd..];
      ClearedEntries(p, vs0, vs, vsPtr, idEnd);
      var f := frames[|frames| - 1];
      vtHash, idEnd, vsPtr, plPtr := f.vtHash, f.idEnd, f.vsEnd, f.plEnd;
      cells := p.regs.cells;
    }

    lemma Under()
      requires Valid() && frames != []
      ensures |saved| == |frames| && DataOver(saved[|saved| - 1]) && SnapOk(saved[|saved| - 1])
      ensures frames[|frames| - 1].kind.FTable? ==> EntriesOver(saved[|saved| - 1])
      ensures !frames[|frames| - 1].kind.FTable? ==> Cur().regs == saved[|saved| - 1].regs
    {
      hide LevelOk, Stacked;
      var p, c := saved[|saved| - 1], Cur();
      assert Nested(p, frames[|frames| - 1], c);
      assert c.ds[..|p.ds|] == ds[..|p.ds|];
      assert c.ds[|p.ds|..dsFirst] == ds[|p.ds|..dsFirst];
      if frames[|frames| - 1].kind.FTable? {
        assert c.regs.vs[..|p.regs.vs|] == vs[..|p.regs.vs|];
        assert c.regs.pl[..|p.regs.pl|] == pl[..|p.regs.pl|];
      }
    }

    /** Leaves a container that is not a table: the parent is again exactly what it was. */
    method Exit() returns (childAlign: nat)
      requires Valid() && frames != [] && !frames[|frames| - 1].kind.FTable?
      modifies `ds, `dsFirst, `dsOffset, `align, `frames, `saved
      ensures Valid() && saved == old(saved)[..|old(saved)| - 1] && Cur() == old(saved)[|old(saved)| - 1]
      ensures frames == old(frames)[..|old(frames)| - 1] && childAlign == old(align)
    {
      hide LevelOk, Stacked, TopOk;
      Closed(saved, frames, Cur());
      Under();
      ghost var n, p := |frames| - 1, saved[|frames| - 1];
      childAlign := PopFrame(p);
      saved := saved[..n];
      assert Cur() == p;
    }

    /** Opens a table: its vtable entries start behind the parent's, past two header words. */
    method StartTable()
      requires Valid()
      modifies this
      ensures Valid() && saved == old(saved) + [old(Cur())] && cells == map[]
      ensures frames == old(frames) + [frames[|old(frames)|]] && frames[|old(frames)|].kind == FTable
      ensures align == 4 && dsOffset == 0 && idEnd == 0 && vtHash == 0x2f693b52
    {
      hide LevelOk, Stacked, TopOk, FieldsOk;
      ghost var p := Cur();
      CurSnapOk();
      PushFrame(FTable, 4, 0, 0);
      PushEntries();
      saved := saved + [p];
      assert pl[..plPtr] == p.regs.pl;
      TableOpened(p, frames[|frames| - 1], Cur());
      Opened(old(saved), old(frames), p, frames[|frames| - 1], Cur());
    }

    lemma CurSnapOk()
      requires Valid()
      ensures SnapOk(Cur())
    {}

    /** The part of start_table that moves past the parent's entries and two header words. */
    method PushEntries()
      requires vsPtr + idEnd <= |vs| && ZeroFrom(vs, vsPtr + idEnd)
      modifies `vs, `vsPtr, `idEnd, `vtHash, `cells
      ensures vsPtr == old(vsPtr) + old(idEnd) + 2 <= |vs| && idEnd == 0 && vtHash == 0x2f693b52 && cells == map[]
      ensures vs[..vsPtr] == old(vs[..vsPtr + idEnd]) + [0, 0] && ZeroFrom(vs, vsPtr)
    {
      vtHash := 0x2f693b52;
      var used := vsPtr + idEnd;
      if |vs| < used + 2 { vs := vs + Zeros(used + 2 - |vs|); }
      assert vs[used] == 0 && vs[used + 1] == 0;
      vsPtr, idEnd := used + 2, 0;
      cells := map[];
    }

    /** Restores the enclosing table's registers, clearing what this table used of the vtable stack. */
    method CloseTable() returns (childAlign: nat)
      requires Valid() && frames != [] && frames[|frames| - 1].kind.FTable?
      modifies this
      ensures Valid() && saved == old(saved)[..|old(saved)| - 1] && Cur() == old(saved)[|old(saved)| - 1]
      ensures frames == old(frames)[..|old(frames)| - 1] && childAlign == old(align)
    {
      hide LevelOk, Stacked, TopOk;
      Closed(saved, frames, Cur());
      Under();
      ghost var n, p := |frames| - 1, saved[|frames| - 1];
      PopEntries(p);
      childAlign := PopFrame(p);
      saved := saved[..n];
      assert Cur() == p;
    }

    // ---- inside the current container ----------------------------------------------------------

    ghost function Data(): seq<u8>
      requires InMemory()
      reads this
    {
      ds[dsFirst..dsFirst + dsOffset]
    }

    /** push_ds: `pad` bytes skipped, then `bytes` written, on memory that is zero beforehand. */
    method PushData(pad: nat, bytes: seq<u8>)
      requires dsFirst + dsOffset <= |ds| && ZeroFrom(ds, dsFirst + dsOffset)
      modifies `ds, `dsOffset
      ensures dsOffset == old(dsOffset) + pad + |bytes| && dsFirst + dsOffset <= |ds|
      ensures ZeroFrom(ds, dsFirst + dsOffset)
      ensures ds[..dsFirst + dsOffset] == old(ds[..dsFirst + dsOffset]) + Zeros(pad) + bytes
    {
      var top := dsFirst + dsOffset + pad;
      if |ds| < top + |bytes| { ds := ds + Zeros(top + |bytes| - |ds|); }
      ds := ds[..top] + bytes + ds[top + |bytes|..];
      dsOffset := dsOffset + pad + |bytes|;
    }

    /** unpush_ds: drops the last n bytes, leaving zeros. */
    method DropData(n: nat)
      requires n <= dsOffset && dsFirst + dsOffset <= |ds| && ZeroFrom(ds, dsFirst + dsOffset)
      modifies `ds, `dsOffset
      ensures dsOffset == old(dsOffset) - n && |ds| == |old(ds)| && ZeroFrom(ds, dsFirst + dsOffset)
      ensures ds[..dsFirst + dsOffset] == old(ds[..dsFirst + dsOffset - n])
    {
      dsOffset := dsOffset - n;
      var top := dsFirst + dsOffset;
      ds := ds[..top] + Zeros(n) + ds[top + n..];
    }

    /** Records where field id of the current table lies. */
    method SetField(id: nat, entry: nat)
      requires vsPtr + idEnd <= |vs| && ZeroFrom(vs, vsPtr + idEnd)
      modifies `vs, `idEnd
      ensures vsPtr + idEnd <= |vs| && ZeroFrom(vs, vsPtr + idEnd)
      ensures idEnd == if id < old(idEnd) then old(idEnd) else id + 1
      ensures vs[..vsPtr + idEnd] == NewEntries(old(vs[..vsPtr + idEnd]), vsPtr, id, entry)
    {
      ghost var vs0, n := vs, idEnd;
      if |vs| <= vsPtr + id { vs := vs + Zeros(vsPtr + id + 1 - |vs|); }
      vs := vs[vsPtr + id := entry];
      if id >= idEnd { idEnd := id + 1; }
      EntrySet(vs0, vs, vsPtr, n, id, entry);
    }

    predicate FieldSet(id: nat)
      requires vsPtr + idEnd <= |vs| && ZeroFrom(vs, vsPtr + idEnd)
      reads this
    {
      vsPtr + id < |vs| && vs[vsPtr + id] != 0
    }

    /** push_ds_field: pads the payload to `offset`, appends the field, and enters it in the vtable
        stack and, for an offset field, in the patch log. */
    method AppendField(id: nat, offset: nat, bytes: seq<u8>, logged: bool, ghost cell: Cell)
      requires InMemory() && offset >= dsOffset
      modifies `ds, `dsOffset, `vs, `idEnd, `pl, `plPtr, `cells
      ensures InMemory() && dsOffset == offset + |bytes|
      ensures idEnd == if id < old(idEnd) then old(idEnd) else id + 1
      ensures Cur() == FieldStep(old(Cur()), align, vtHash, id, offset, bytes, if logged then [offset] else [], cell)
    {
      hide NewEntries;
      PushData(offset - dsOffset, bytes);
      SetField(id, offset + 4);
      if logged {
        pl := pl[..plPtr] + [offset];
        plPtr := plPtr + 1;
      }
      cells := cells[id := cell];
    }

    /** Adds an inline field to the current table; false when it has been added before. Only a table
        whose payload stays below the 64K vtable offset limit can be ended. */
    method TableAdd(id: nat, bytes: seq<u8>, fieldAlign: nat) returns (ok: bool)
      requires Valid() && frames != [] && frames[|frames| - 1].kind.FTable?
      requires IsPow2(fieldAlign) && fieldAlign < TWO_16 && id <= ID_MAX
      requires AlignUp(dsOffset, fieldAlign) + |bytes| + 4 < TWO_16
      modifies `align, `ds, `dsOffset, `vs, `idEnd, `pl, `plPtr, `vtHash, `cells
      ensures Valid() && ok == (id !in old(cells))
          && align == (if old(align) < fieldAlign then fieldAlign else old(align))
      ensures cells == if ok then old(cells)[id := Raw(bytes, fieldAlign)] else old(cells)
      ensures ok ==> dsOffset == AlignUp(old(dsOffset), fieldAlign) + |bytes|
      ensures vtHash == if ok then mix(old(vtHash), id, |bytes|) else old(vtHash)
      ensures ok ==> idEnd == if id < old(idEnd) then old(idEnd) else id + 1
    {
      hide FieldsOk, Stacked, TopOk, IsPow2, Aligned, AlignUp, NewEntries;
      CurRegs();
      Pow2Positive(fieldAlign);
      ghost var c := Cur();
      FieldPresence(id);
      if fieldAlign > align { align := fieldAlign; }
      if FieldSet(id) {
        AlignRaised(saved, frames, c, Cur());
        return false;
      }
      vtHash := mix(vtHash, id, |bytes|);
      AlignUpBounds(dsOffset, fieldAlign);
      var offset := AlignUp(dsOffset, fieldAlign);
      AppendField(id, offset, bytes, false, Raw(bytes, fieldAlign));
      RawTop(saved, frames, c, vtHash, id, bytes, fieldAlign, offset);
      ok := true;
    }

    /** Adds an offset field, holding the reference until the table is created. */
    method TableAddOffset(id: nat, ref: int) returns (ok: bool)
      requires Valid() && frames != [] && frames[|frames| - 1].kind.FTable?
      requires id <= ID_MAX && AlignUp(dsOffset, 4) + 8 < TWO_16
      modifies `ds, `dsOffset, `vs, `idEnd, `pl, `plPtr, `vtHash, `cells
      ensures Valid() && ok == (id !in old(cells))
      ensures cells == if ok then old(cells)[id := Link(ref)] else old(cells)
      ensures ok ==> dsOffset == AlignUp(old(dsOffset), 4) + 4
      ensures vtHash == if ok then mix(old(vtHash), id, 4) else old(vtHash)
      ensures ok ==> idEnd == if id < old(idEnd) then old(idEnd) else id + 1
    {
      hide FieldsOk, Stacked, TopOk, IsPow2, AlignUp, Wrap32, U32Bytes, NewEntries;
      CurRegs();
      ghost var c := Cur();
      FieldPresence(id);
      if FieldSet(id) { return false; }
      vtHash := mix(vtHash, id, 4);
      AlignUpBounds(dsOffset, 4);
      var offset := AlignUp(dsOffset, 4);
      AppendField(id, offset, U32Bytes(Wrap32(ref)), true, Link(ref));
      LinkTop(saved, frames, c, vtHash, id, ref, offset);
      ok := true;
    }

    /** Appends `count` elements to the vector or string on top; false when the count would exceed the
        container's maximum or wrap. */
    method Append(bytes: seq<u8>, count: nat) returns (ok: bool)
      requires Valid() && frames != [] && var f := frames[|frames| - 1];
               (f.kind.FVector? || f.kind.FOffsets? || f.kind.FString?) && Sized(|bytes|, count, f.elem) &&
               (f.kind.FOffsets? ==> f.elem == 4) && (f.kind.FString? ==> f.elem == 1) && count < TWO_32
                   && f.maxCount < TWO_32
      modifies `ds, `dsOffset, `frames
      ensures Valid() && |frames| == |old(frames)| && frames[..|frames| - 1] == old(frames)[..|frames| - 1]
      ensures var f := old(frames)[|frames| - 1];
              && ok == (f.count + count <= f.maxCount)
              && frames[|frames| - 1] == (if ok then f.(count := f.count + count) else f)
              && Data() == if ok then old(Data()) + bytes else old(Data())
    {
      hide Stacked, TopOk, Sized;
      ghost var c := Cur();
      var f := frames[|frames| - 1];
      var n1 := Wrap32(f.count + count);
      TopCount(saved, frames, c);
      if !(f.count <= n1 && n1 <= f.maxCount) {
        return false;
      }
      frames := frames[|frames| - 1 := f.(count := n1)];
      PushData(0, bytes);
      AppendTop(saved, old(frames), c, bytes, count, Cur());
      ok := true;
    }

    /** Drops the last `count` elements of the vector or string on top; false when there are fewer. */
    method Truncate(count: nat) returns (ok: bool)
      requires Valid() && frames != [] && var f := frames[|frames| - 1];
               (f.kind.FVector? || f.kind.FOffsets? || f.kind.FString?) &&
               (f.kind.FOffsets? ==> f.elem == 4) && (f.kind.FString? ==> f.elem == 1)
      modifies `ds, `dsOffset, `frames
      ensures Valid() && |frames| == |old(frames)| && frames[..|frames| - 1] == old(frames)[..|frames| - 1]
      ensures var f := old(frames)[|frames| - 1];
              && ok == (count <= f.count)
              && frames[|frames| - 1] == (if ok then f.(count := f.count - count) else f)
              && (ok ==> f.elem * count <= |old(Data())| && Data() == old(Data())[..|old(Data())| - f.elem * count])
              && (!ok ==> Data() == old(Data()))
    {
      hide Stacked, TopOk, Sized;
      ghost var c := Cur();
      var f := frames[|frames| - 1];
      TopCount(saved, frames, c);
      if count > f.count {
        return false;
      }
      ElemsFit(|DataOf(c)|, f.count, f.elem, count);
      frames := frames[|frames| - 1 := f.(count := f.count - count)];
      DropData(f.elem * count);
      TruncateTop(saved, old(frames), c, count, Cur());
      assert DataOf(c) == old(Data());
      ok := true;
    }

    lemma CurRegs()
      requires Valid()
      ensures SnapOk(Cur())
    {}

    lemma FieldPresence(id: nat)
      requires Valid() && frames != [] && frames[|frames| - 1].kind.FTable?
      ensures FieldSet(id) <==> id in cells
    {
      hide Nested, Stacked, CellIn, Patches;
      assert LevelOk(frames[|frames| - 1], Cur());
      assert EntriesOf(Cur()) == vs[vsPtr..vsPtr + idEnd];
    }
  }

  /** A new container on top of a well-formed stack. */
  lemma Opened(saved: seq<Snap>, frames: seq<Frame>, p: Snap, f: Frame, c: Snap)
    requires Stacked(saved, frames) && TopOk(saved, frames, p)
    requires SnapOk(c) && Nested(p, f, c) && LevelOk(f, c)
    ensures Stacked(saved + [p], frames + [f]) && TopOk(saved + [p], frames + [f], c)
  {
    hide Nested, LevelOk;
    var saved', frames' := saved + [p], frames + [f];
    forall k | 0 <= k < |saved'| - 1
      ensures Nested(saved'[k], frames'[k], saved'[k + 1]) && LevelOk(frames'[k], saved'[k + 1])
    {
      if k + 1 < |saved| { assert saved'[k + 1] == saved[k + 1]; }
    }
  }

  /** The container on top left again. */
  lemma Closed(saved: seq<Snap>, frames: seq<Frame>, c: Snap)
    requires Stacked(saved, frames) && TopOk(saved, frames, c) && frames != []
    ensures var n := |frames| - 1; Stacked(saved[..n], frames[..n]) && TopOk(saved[..n], frames[..n], saved[n])
  {
    var n := |frames| - 1;
    assert Nested(saved[n], frames[n], c);
    if n > 0 { assert Nested(saved[n - 1], frames[n - 1], saved[n]) && LevelOk(frames[n - 1], saved[n]); }
  }

  /** With the child's part cleared, everything above the parent's top is zero. */
  lemma ClearedData(p: Snap, ds0: seq<u8>, ds: seq<u8>, first: nat, n: nat)
    requires |p.ds| <= first && first + n <= |ds0| && ZeroFrom(ds0, first + n)
    requires ds0[..|p.ds|] == p.ds && ds0[|p.ds|..first] == Zeros(first - |p.ds|)
    requires ds == ds0[..first] + Zeros(n) + ds0[first + n..]
    ensures |p.ds| <= |ds| && ds[..|p.ds|] == p.ds && ZeroFrom(ds, |p.ds|)
  {
    assert ds[..|p.ds|] == ds0[..|p.ds|];
    var gap := ds0[|p.ds|..first];
    forall i | |p.ds| <= i < |ds| ensures ds[i] == 0 {
      if i < first { assert ds[i] == ds0[i] == gap[i - |p.ds|]; }
    }
  }

  lemma Pow2Positive(a: nat)
    requires IsPow2(a)
    ensures a >= 1
  {}

  lemma EmptyFields()
    ensures FieldsOk([], [], [], map[], 4)
  {
    assert IsPow2(4) by { assert IsPow2(2); }
  }

  lemma ClearedEntries(p: Snap, vs0: seq<int>, vs: seq<int>, ptr: nat, n: nat)
    requires ptr == |p.regs.vs| + 2 && ptr + n <= |vs0| && ZeroFrom(vs0, ptr + n)
    requires vs0[..|p.regs.vs|] == p.regs.vs
    requires vs == vs0[..ptr - 2] + Zeros(n + 2) + vs0[ptr + n..]
    ensures vs[..|p.regs.vs|] == p.regs.vs && ZeroFrom(vs, |p.regs.vs|)
  {
    assert vs[..|p.regs.vs|] == vs0[..ptr - 2];
  }

  lemma TableOpened(p: Snap, f: Frame, c: Snap)
    requires SnapOk(p) && f.kind.FTable? && c.dsFirst >= |p.ds| && c.align == 4
    requires f.dsFirst == p.dsFirst && f.dsFirst + f.dsOffset == |p.ds| && f.align == p.align
    requires f.vsEnd == p.regs.vsPtr && f.idEnd == p.regs.idEnd && f.plEnd == |p.regs.pl| && f.vtHash == p.regs.vtHash
    requires c.ds == p.ds + Zeros(c.dsFirst - |p.ds|)
    requires c.regs.vsPtr == |p.regs.vs| + 2 && c.regs.idEnd == 0 && c.regs.vs == p.regs.vs + [0, 0]
    requires c.regs.pl == p.regs.pl && c.regs.cells == map[]
    ensures SnapOk(c) && Nested(p, f, c) && LevelOk(f, c)
  {
    hide FieldsOk;
    EmptyFields();
    assert DataOf(c) == [] && EntriesOf(c) == [] && LogOf(f, c) == [];
  }

  // ---- changing the container on top --------------------------------------------------------------

  /** c' differs from c only in what the container on top may touch. */
  ghost predicate Above(c: Snap, c': Snap, tableOp: bool) {
    && SnapOk(c) && SnapOk(c') && c'.dsFirst == c.dsFirst && c'.ds[..c.dsFirst] == c.ds[..c.dsFirst]
    && if tableOp then
         && c'.regs.vsPtr == c.regs.vsPtr && c'.regs.vs[..c.regs.vsPtr] == c.regs.vs[..c.regs.vsPtr]
         && c.regs.pl <= c'.regs.pl
       else c'.regs == c.regs
  }

  ghost predicate SameSaved(f: Frame, f': Frame) {
    && f'.kind == f.kind && f'.dsFirst == f.dsFirst && f'.dsOffset == f.dsOffset && f'.align == f.align
    && f'.vsEnd == f.vsEnd && f'.idEnd == f.idEnd && f'.plEnd == f.plEnd && f'.vtHash == f.vtHash
  }

  lemma StillNested(p: Snap, f: Frame, c: Snap, f': Frame, c': Snap)
    requires Nested(p, f, c) && SameSaved(f, f') && Above(c, c', f.kind.FTable?)
    ensures Nested(p, f', c')
  {
    assert c'.ds[..|p.ds|] == c'.ds[..c.dsFirst][..|p.ds|] == c.ds[..c.dsFirst][..|p.ds|] == c.ds[..|p.ds|];
    assert c'.ds[|p.ds|..c.dsFirst] == c'.ds[..c.dsFirst][|p.ds|..] == c.ds[..c.dsFirst][|p.ds|..]
        == c.ds[|p.ds|..c.dsFirst];
    if f.kind.FTable? {
      var n := c.regs.vsPtr;
      assert c'.regs.vs[..|p.regs.vs|] == c'.regs.vs[..n][..|p.regs.vs|] == c.regs.vs[..n][..|p.regs.vs|]
          == c.regs.vs[..|p.regs.vs|];
      assert c'.regs.vs[|p.regs.vs|..n] == c'.regs.vs[..n][|p.regs.vs|..] == c.regs.vs[..n][|p.regs.vs|..]
          == c.regs.vs[|p.regs.vs|..n];
      assert c'.regs.pl[..|p.regs.pl|] == c.regs.pl[..|p.regs.pl|];
    }
  }

  lemma TopChanged(saved: seq<Snap>, frames: seq<Frame>, c: Snap, f': Frame, c': Snap)
    requires TopOk(saved, frames, c) && Stacked(saved, frames) && frames != []
    requires var f := frames[|frames| - 1]; SameSaved(f, f') && Above(c, c', f.kind.FTable?) && LevelOk(f', c')
    ensures var frames' := frames[|frames| - 1 := f']; TopOk(saved, frames', c') && Stacked(saved, frames')
  {
    hide LevelOk;
    var n := |frames| - 1;
    StillNested(saved[n], frames[n], c, f', c');
  }

  /** The current container after a field has been added to it: payload bytes, patch log, entry, cell. */
  ghost function FieldStep(c: Snap, align: nat, hash: nat, id: nat, off: nat, bytes: seq<u8>, log: seq<nat>,
      cell: Cell): Snap
    requires c.dsFirst <= |c.ds| <= c.dsFirst + off && c.regs.vsPtr <= |c.regs.vs|
  {
    Snap(c.dsFirst, c.ds + Zeros(off - (|c.ds| - c.dsFirst)) + bytes, align,
         Regs(c.regs.vsPtr, if id < c.regs.idEnd then c.regs.idEnd else id + 1,
              NewEntries(c.regs.vs, c.regs.vsPtr, id, off + 4), c.regs.pl + log, hash, c.regs.cells[id := cell]))
  }

  lemma RawTop(saved: seq<Snap>, frames: seq<Frame>, c: Snap, hash: nat, id: nat, bytes: seq<u8>, a: nat, off: nat)
    requires TopOk(saved, frames, c) && Stacked(saved, frames) && frames != [] && frames[|frames| - 1].kind.FTable?
    requires id !in c.regs.cells && id <= ID_MAX && IsPow2(a) && a < TWO_16 && off >= |c.ds| - c.dsFirst
    requires Aligned(off, a) && off + |bytes| + 4 < TWO_16
    requires SnapOk(c)
    ensures TopOk(saved, frames,
        FieldStep(c, if c.align < a then a else c.align, hash, id, off, bytes, [], Raw(bytes, a)))
  {
    hide FieldsOk, Nested, IsPow2, Aligned;
    var n := |frames| - 1;
    var f := frames[n];
    var c' := FieldStep(c, if c.align < a then a else c.align, hash, id, off, bytes, [], Raw(bytes, a));
    assert LevelOk(f, c);
    RawAdded(DataOf(c), LogOf(f, c), EntriesOf(c), c.regs.cells, c.align, id, bytes, a, off);
    EntryBounds(c.regs.vs, c'.regs.vs, c.regs.vsPtr, id, off + 4);
    assert DataOf(c') == DataOf(c) + Zeros(off - |DataOf(c)|) + bytes;
    assert LogOf(f, c') == LogOf(f, c);
    assert c'.ds[..c.dsFirst] == c.ds[..c.dsFirst];
    assert Above(c, c', true);
    TopChanged(saved, frames, c, f, c');
    assert frames[n := f] == frames;
  }

  lemma EntryBounds(vs: seq<int>, vs': seq<int>, ptr: nat, id: nat, e: int)
    requires (forall i | 0 <= i < |vs| :: 0 <= vs[i] < TWO_16) && ptr <= |vs| && ptr <= |vs'| && 0 <= e < TWO_16
    requires vs' == NewEntries(vs, ptr, id, e)
    ensures vs'[..ptr] == vs[..ptr] && vs'[ptr..] == SetEntry(vs[ptr..], id, e)
    ensures forall i | 0 <= i < |vs'| :: 0 <= vs'[i] < TWO_16
  {
    forall i | 0 <= i < |vs'| ensures 0 <= vs'[i] < TWO_16 {
      if i < ptr { assert vs'[i] == vs'[..ptr][i] == vs[i]; } else { assert vs'[i] == vs'[ptr..][i - ptr]; }
    }
  }

  lemma LinkTop(saved: seq<Snap>, frames: seq<Frame>, c: Snap, hash: nat, id: nat, ref: int, off: nat)
    requires TopOk(saved, frames, c) && Stacked(saved, frames) && frames != [] && frames[|frames| - 1].kind.FTable?
    requires id !in c.regs.cells && id <= ID_MAX && off >= |c.ds| - c.dsFirst && off % 4 == 0 && off + 8 < TWO_16
    requires SnapOk(c)
    ensures TopOk(saved, frames, FieldStep(c, c.align, hash, id, off, U32Bytes(Wrap32(ref)), [off], Link(ref)))
  {
    hide FieldsOk, Nested, IsPow2, U32Bytes, Wrap32;
    var n := |frames| - 1;
    var f := frames[n];
    var c' := FieldStep(c, c.align, hash, id, off, U32Bytes(Wrap32(ref)), [off], Link(ref));
    assert LevelOk(f, c);
    LinkAdded(DataOf(c), LogOf(f, c), EntriesOf(c), c.regs.cells, c.align, id, ref, off);
    EntryBounds(c.regs.vs, c'.regs.vs, c.regs.vsPtr, id, off + 4);
    assert DataOf(c') == DataOf(c) + Zeros(off - |DataOf(c)|) + U32Bytes(Wrap32(ref));
    assert LogOf(f, c') == LogOf(f, c) + [off];
    assert c'.ds[..c.dsFirst] == c.ds[..c.dsFirst];
    assert Above(c, c', true);
    TopChanged(saved, frames, c, f, c');
    assert frames[n := f] == frames;
  }

  lemma AlignRaised(saved: seq<Snap>, frames: seq<Frame>, c: Snap, c': Snap)
    requires TopOk(saved, frames, c) && Stacked(saved, frames) && frames != [] && frames[|frames| - 1].kind.FTable?
    requires c' == c.(align := c'.align) && (c'.align == c.align || (IsPow2(c'.align) && c'.align < TWO_16))
        && c.align <= c'.align
    ensures TopOk(saved, frames, c')
  {
    hide Nested, IsPow2, CellIn;
    var n := |frames| - 1;
    var f := frames[n];
    assert LevelOk(f, c);
    forall id: nat | id in c.regs.cells
      ensures CellIn(DataOf(c), LogOf(f, c), EntriesOf(c)[id] - 4, c.regs.cells[id], c'.align)
    {
      CellKept(DataOf(c), LogOf(f, c), EntriesOf(c)[id] - 4, c.regs.cells[id], c.align, DataOf(c), LogOf(f, c),
          c'.align);
    }
    assert Above(c, c', true);
    TopChanged(saved, frames, c, f, c');
    assert frames[n := f] == frames;
  }

  /** A vector, offset vector or string on top holds `count` elements. */
  lemma TopCount(saved: seq<Snap>, frames: seq<Frame>, c: Snap)
    requires TopOk(saved, frames, c) && frames != [] && var f := frames[|frames| - 1];
             (f.kind.FVector? || f.kind.FOffsets? || f.kind.FString?) &&
             (f.kind.FOffsets? ==> f.elem == 4) && (f.kind.FString? ==> f.elem == 1)
    ensures SnapOk(c) && Sized(|DataOf(c)|, frames[|frames| - 1].count, frames[|frames| - 1].elem)
  {
    hide Nested;
    assert LevelOk(frames[|frames| - 1], c);
  }

  lemma ElemsFit(n: nat, have: nat, elem: nat, count: nat)
    requires Sized(n, have, elem) && count <= have
    ensures elem * count <= n && Sized(n - elem * count, have - count, elem)
  {
    assert (have - count) * elem == have * elem - count * elem;
    assert (have - count) * elem >= 0;
  }

  lemma ElemsAdded(n: nat, have: nat, elem: nat, m: nat, count: nat)
    requires Sized(n, have, elem) && Sized(m, count, elem)
    ensures Sized(n + m, have + count, elem)
  {
    assert (have + count) * elem == have * elem + count * elem;
  }

  lemma AppendTop(saved: seq<Snap>, frames: seq<Frame>, c: Snap, bytes: seq<u8>, count: nat, c': Snap)
    requires TopOk(saved, frames, c) && Stacked(saved, frames) && frames != [] && var f := frames[|frames| - 1];
             (f.kind.FVector? || f.kind.FOffsets? || f.kind.FString?) && Sized(|bytes|, count, f.elem) &&
             (f.kind.FOffsets? ==> f.elem == 4) && (f.kind.FString? ==> f.elem == 1)
    requires SnapOk(c) && c'.ds == c.ds + Zeros(0) + bytes && c' == c.(ds := c'.ds)
    ensures var n := |frames| - 1; var frames' := frames[n := frames[n].(count := frames[n].count + count)];
            TopOk(saved, frames', c') && Stacked(saved, frames')
    ensures DataOf(c') == DataOf(c) + bytes
  {
    hide Nested, Sized;
    var n := |frames| - 1;
    var f := frames[n];
    assert LevelOk(f, c);
    TopCount(saved, frames, c);
    ElemsAdded(|DataOf(c)|, f.count, f.elem, |bytes|, count);
    assert DataOf(c') == DataOf(c) + bytes;
    assert Above(c, c', false);
    StringSized(|DataOf(c')|, f.count + count);
    TopChanged(saved, frames, c, f.(count := f.count + count), c');
  }

  lemma StringSized(n: nat, count: nat)
    ensures Sized(n, count, 1) <==> n == count
  {}

  lemma TruncateTop(saved: seq<Snap>, frames: seq<Frame>, c: Snap, count: nat, c': Snap)
    requires TopOk(saved, frames, c) && Stacked(saved, frames) && frames != [] && var f := frames[|frames| - 1];
             (f.kind.FVector? || f.kind.FOffsets? || f.kind.FString?) && count <= f.count &&
             (f.kind.FOffsets? ==> f.elem == 4) && (f.kind.FString? ==> f.elem == 1)
    requires SnapOk(c) && frames[|frames| - 1].elem * count <= |DataOf(c)|
    requires c'.ds == c.ds[..|c.ds| - frames[|frames| - 1].elem * count] && c' == c.(ds := c'.ds)
    ensures var n := |frames| - 1; var frames' := frames[n := frames[n].(count := frames[n].count - count)];
            TopOk(saved, frames', c') && Stacked(saved, frames')
    ensures SnapOk(c') && DataOf(c') == DataOf(c)[..|DataOf(c)| - frames[|frames| - 1].elem * count]
  {
    hide Nested, Sized;
    var n := |frames| - 1;
    var f := frames[n];
    assert LevelOk(f, c);
    TopCount(saved, frames, c);
    ElemsFit(|DataOf(c)|, f.count, f.elem, count);
    assert Above(c, c', false);
    StringSized(|DataOf(c')|, f.count - count);
    TopChanged(saved, frames, c, f.(count := f.count - count), c');
  }
}
