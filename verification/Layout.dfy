/** How the pieces one create call emits lay an object out at the low end of the emit space. */
module Layout {
  import opened Bytes
  import opened Schema
  import opened EmitSpace

  function EmitFront(s: Space, data: seq<u8>): Space { Space(s.lo - |data|, data + s.bytes) }

  function EmitBack(s: Space, data: seq<u8>): Space { Space(s.lo, s.bytes + data) }

  lemma FrontExtends(s: Space, data: seq<u8>)
    ensures s.ExtendedBy(EmitFront(s, data))
  {
    var t := EmitFront(s, data);
    assert t.bytes[|data|..] == s.bytes;
  }

  lemma BackExtends(s: Space, data: seq<u8>)
    ensures s.ExtendedBy(EmitBack(s, data))
  {
    assert EmitBack(s, data).bytes[0..][..|s.bytes|] == s.bytes;
  }

  /** A piece of the emitted data, found again in the space. */
  lemma FrontSlice(s: Space, data: seq<u8>, p: nat, n: nat)
    requires p + n <= |data|
    ensures EmitFront(s, data).In(s.lo - |data| + p, n)
    ensures EmitFront(s, data).Slice(s.lo - |data| + p, n) == data[p..p + n]
  {}

  lemma FrontU32(s: Space, data: seq<u8>, p: nat)
    requires p + 4 <= |data|
    ensures EmitFront(s, data).In(s.lo - |data| + p, 4)
    ensures EmitFront(s, data).U32(s.lo - |data| + p) == U32At(data, p)
  {
    hide U32At;
    FrontSlice(s, data, p, 4);
    U32OfSlice(EmitFront(s, data).bytes, p, data, p);
  }

  /** Padding that brings `x - size` down to a multiple of align. */
  function FrontPad(x: int, size: nat, align: nat): (pad: nat)
    requires align >= 1
    ensures pad < align
  {
    (x - size) % align
  }

  function BackPad(x: nat, align: nat): (pad: nat)
    requires align >= 1
    ensures pad < align
  {
    x % align
  }

  lemma PadAligns(x: int, size: nat, align: nat)
    requires align >= 1
    ensures Aligned(x - size - FrontPad(x, size, align), align)
  {
    var q := (x - size) / align;
    assert x - size - (x - size) % align == q * align;
    MultipleIsAligned(q, align);
  }

  /** When the back padding, the end's own remainder, fills the end up to a multiple: only when that
      remainder is zero or half the alignment. */
  lemma BackPadFills(x: nat, align: nat)
    requires align >= 1
    ensures Aligned(x + BackPad(x, align), align) <==> x % align == 0 || 2 * (x % align) == align
  {
    var r := x % align;
    ModOfSum(2 * r, x / align, align);
    assert x + r == 2 * r + x / align * align;
    if 2 * r >= align {
      ModUnique(2 * r, 1, 2 * r - align, align);
    } else {
      ModUnique(2 * r, 0, 2 * r, align);
    }
  }

  /** The vtable of one field: an end at 6 is padded to 12, where 8 was asked for. */
  lemma BackPadMisses()
    ensures BackPad(6, 8) == 6 && !Aligned(6 + BackPad(6, 8), 8) && Aligned(8, 8)
  {
    MultipleIsAligned(1, 8);
    BackPadFills(6, 8);
  }

  // ---- strings and scalar vectors ---------------------------------------------------------

  lemma StringLaid(s: Space, chars: seq<u8>, pad: nat)
    requires 1 <= pad && |chars| < TWO_32
    ensures var data := U32Bytes(|chars|) + chars + Zeros(pad);
            StrAt(EmitFront(s, data), s.lo - |data|, chars)
  {
    hide U32At, U32Bytes;
    var data := U32Bytes(|chars|) + chars + Zeros(pad);
    FrontU32(s, data, 0);
    FrontSlice(s, data, 4, |chars|);
    FrontSlice(s, data, 4 + |chars|, 1);
    assert data[0..4] == U32Bytes(|chars|);
    U32RoundTrip(|chars|, data, 0);
    assert data[4..4 + |chars|] == chars;
    assert data[4 + |chars|..4 + |chars| + 1] == [0];
  }

  lemma VectorLaid(s: Space, elem: nat, align: nat, count: nat, body: seq<u8>, pad: nat)
    requires Sized(|body|, count, elem) && count < TWO_32 && align >= 1
    requires Aligned(s.lo - |body| - pad, align)
    ensures var data := U32Bytes(count) + body + Zeros(pad);
            VecAt(EmitFront(s, data), s.lo - |data|, elem, align, count, body)
  {
    hide U32At, U32Bytes, Aligned, Sized;
    var data := U32Bytes(count) + body + Zeros(pad);
    FrontU32(s, data, 0);
    FrontSlice(s, data, 4, |body|);
    assert data[0..4] == U32Bytes(count);
    U32RoundTrip(count, data, 0);
    assert data[4..4 + |body|] == body;
    assert s.lo - |data| + 4 == s.lo - |body| - pad;
  }

  // ---- offset vectors -----------------------------------------------------------------------

  ghost predicate Words(ws: seq<int>) {
    forall i | 0 <= i < |ws| :: 0 <= ws[i] < TWO_32
  }

  /** 32-bit words as they lie in memory. */
  function WordBytes(ws: seq<int>): (b: seq<u8>)
    requires Words(ws)
    ensures |b| == 4 * |ws|
  {
    if ws == [] then [] else U32Bytes(ws[0]) + WordBytes(ws[1..])
  }

  lemma {:induction false} WordAt(ws: seq<int>, i: nat)
    requires Words(ws) && i < |ws|
    ensures U32At(WordBytes(ws), 4 * i) == ws[i]
    decreases i
  {
    hide U32At, U32Bytes;
    var b := WordBytes(ws);
    if i == 0 {
      assert b[0..4] == U32Bytes(ws[0]);
      U32RoundTrip(ws[0], b, 0);
    } else {
      WordAt(ws[1..], i - 1);
      var rest := WordBytes(ws[1..]);
      assert b[4 * i..4 * i + 4] == rest[4 * (i - 1)..4 * (i - 1) + 4];
      U32OfSlice(b, 4 * i, rest, 4 * (i - 1));
    }
  }

  /** The word an offset vector based at `base` stores for its i-th reference. */
  function OffsetWord(refs: seq<int>, base: int, i: nat): (w: int)
    requires i < |refs|
    ensures 0 <= w < TWO_32
  {
    if refs[i] == 0 then 0 else Wrap32(refs[i] - base - 4 * i - 4)
  }

  lemma RefsLaid(s: Space, refs: seq<int>, ws: seq<int>, pad: nat)
    requires Words(ws) && |ws| == |refs| < TWO_32
    requires forall i | 0 <= i < |refs| :: ws[i] == OffsetWord(refs, s.lo - 4 - 4 * |refs| - pad, i)
    requires forall i | 0 <= i < |refs| && refs[i] != 0 :: refs[i] % 4 == 0 && s.lo <= refs[i] < s.Hi()
    requires (s.lo - pad) % 4 == 0 && |s.bytes| + 4 * |refs| + 4 + pad < TWO_31
    ensures var data := U32Bytes(|refs|) + WordBytes(ws) + Zeros(pad);
            RefsAt(EmitFront(s, data), s.lo - |data|, refs)
  {
    hide U32At, U32Bytes, WordBytes, Wrap32;
    var data := U32Bytes(|refs|) + WordBytes(ws) + Zeros(pad);
    var t, r := EmitFront(s, data), s.lo - |data|;
    FrontU32(s, data, 0);
    assert data[0..4] == U32Bytes(|refs|);
    U32RoundTrip(|refs|, data, 0);
    FrontSlice(s, data, 0, 4 + 4 * |refs|);
    assert data[4..4 + 4 * |refs|] == WordBytes(ws);
    forall i | 0 <= i < |refs|
      ensures t.In(r + 4 + 4 * i, 4) &&
              if refs[i] == 0 then t.U32(r + 4 + 4 * i) == 0 else LinksTo(t, r + 4 + 4 * i, refs[i])
    {
      FrontU32(s, data, 4 + 4 * i);
      WordAt(ws, i);
      SubSlice(data, 4, WordBytes(ws), 4 * i, 4);
      U32OfSlice(data, 4 + 4 * i, WordBytes(ws), 4 * i);
      assert ws[i] == OffsetWord(refs, r, i);
      if refs[i] != 0 {
        assert refs[i] - r - 4 * i - 4 == refs[i] - (r + 4 + 4 * i);
        SmallWrap(refs[i] - (r + 4 + 4 * i));
        ElemAligned(s.lo, pad, |refs|, i);
      }
    }
  }

  lemma SmallWrap(x: int)
    requires 0 <= x < TWO_32
    ensures Wrap32(x) == x
  {}

  lemma ElemAligned(lo: int, pad: nat, n: nat, i: nat)
    requires (lo - pad) % 4 == 0
    ensures (lo - 4 - 4 * n - pad + 4 + 4 * i) % 4 == 0
  {}

  // ---- tables ---------------------------------------------------------------------------------

  /** A vtable as words: its own size in bytes, the table's size, then one entry per id. */
  ghost predicate WfVtable(vt: seq<int>) {
    |vt| >= 2 && 2 * |vt| < TWO_16 && vt[0] == 2 * |vt| && vt[1] >= 4
    && forall i | 0 <= i < |vt| :: 0 <= vt[i] < TWO_16
  }

  ghost predicate VtAt(s: Space, v: int, vt: seq<int>) {
    Even(v) && s.In(v, 2 * |vt|) && forall i | 0 <= i < |vt| :: s.In(v + 2 * i, 2) && s.U16(v + 2 * i) == vt[i]
  }

  lemma VtExtends(s: Space, t: Space, v: int, vt: seq<int>)
    requires s.ExtendedBy(t) && VtAt(s, v, vt)
    ensures VtAt(t, v, vt)
  {
    ExtendedReads(s, t, v, 2 * |vt|);
    forall i | 0 <= i < |vt| ensures t.In(v + 2 * i, 2) && t.U16(v + 2 * i) == vt[i] {
      ExtendedReads(s, t, v + 2 * i, 2);
    }
  }

  /** 16-bit words as they lie in memory. */
  function HalfBytes(ws: seq<int>): (b: seq<u8>)
    requires forall i | 0 <= i < |ws| :: 0 <= ws[i] < TWO_16
    ensures |b| == 2 * |ws|
  {
    if ws == [] then [] else U16Bytes(ws[0]) + HalfBytes(ws[1..])
  }

  lemma {:induction false} HalfAt(ws: seq<int>, i: nat)
    requires (forall i | 0 <= i < |ws| :: 0 <= ws[i] < TWO_16) && i < |ws|
    ensures U16At(HalfBytes(ws), 2 * i) == ws[i]
    decreases i
  {
    hide U16At, U16Bytes;
    var b := HalfBytes(ws);
    if i == 0 {
      assert b[0..2] == U16Bytes(ws[0]);
      U16RoundTrip(ws[0], b, 0);
    } else {
      HalfAt(ws[1..], i - 1);
      var rest := HalfBytes(ws[1..]);
      assert b[2 * i..2 * i + 2] == rest[2 * (i - 1)..2 * (i - 1) + 2];
      U16OfSlice(b, 2 * i, rest, 2 * (i - 1));
    }
  }

  /** A vtable emitted at v, at either end of the space. */
  lemma HalfLaid(t: Space, v: int, vt: seq<int>, i: nat)
    requires i < |vt| && WfVtable(vt) && t.In(v, 2 * |vt|) && t.Slice(v, 2 * |vt|) == HalfBytes(vt)
    ensures t.In(v + 2 * i, 2) && t.U16(v + 2 * i) == vt[i]
  {
    hide U16At, U16Bytes, HalfBytes;
    HalfAt(vt, i);
    SubSlice(t.bytes, v - t.lo, HalfBytes(vt), 2 * i, 2);
    U16OfSlice(t.bytes, v - t.lo + 2 * i, HalfBytes(vt), 2 * i);
  }

  lemma VtLaid(t: Space, v: int, vt: seq<int>)
    requires WfVtable(vt) && Even(v) && t.In(v, 2 * |vt|) && t.Slice(v, 2 * |vt|) == HalfBytes(vt)
    ensures VtAt(t, v, vt)
  {
    hide U16At, U16Bytes, HalfBytes;
    forall i | 0 <= i < |vt| ensures t.In(v + 2 * i, 2) && t.U16(v + 2 * i) == vt[i] { HalfLaid(t, v, vt, i); }
  }

  function VtEntry(vt: seq<int>, id: nat): int {
    if id + 2 < |vt| then vt[id + 2] else 0
  }

  /** The table payload `data` (what lies behind the header word) holds cell c at `off`. Link cells
      still hold the target reference itself, as a 32-bit word, and are listed in the patch log. */
  ghost predicate CellIn(data: seq<u8>, pl: seq<nat>, off: int, c: Cell, align: nat) {
    match c
    case Raw(bytes, a) =>
      && 0 <= off && off + |bytes| <= |data| && data[off..off + |bytes|] == bytes
      && IsPow2(a) && a <= align && Aligned(off, a)
      && forall j | 0 <= j < |pl| :: off + |bytes| <= pl[j] || pl[j] + 4 <= off
    case Link(target) =>
      && 0 <= off && off + 4 <= |data| && off % 4 == 0 && off in pl
      && U32At(data, off) == Wrap32(target)
  }

  ghost predicate Patches(data: seq<u8>, pl: seq<nat>) {
    && (forall j | 0 <= j < |pl| :: pl[j] + 4 <= |data| && pl[j] % 4 == 0)
    && (forall i, j | 0 <= i < j < |pl| :: pl[i] != pl[j])
  }

  /** Payload, patch log and vtable describe exactly the given cells. */
  ghost predicate Describes(data: seq<u8>, pl: seq<nat>, vt: seq<int>, cells: map<nat, Cell>, align: nat) {
    && WfVtable(vt) && vt[1] == |data| + 4 && Patches(data, pl)
    && (forall id: nat :: id in cells <==> VtEntry(vt, id) != 0)
    && (forall id: nat | id in cells :: CellIn(data, pl, VtEntry(vt, id) - 4, cells[id], align))
  }

  /** Payload d is `data` with the first k logged words turned into offsets from a table at base. */
  ghost predicate Patched(data: seq<u8>, d: seq<u8>, pl: seq<nat>, k: nat, base: int) {
    && |d| == |data| && k <= |pl| && Patches(data, pl)
    && (forall j | 0 <= j < k :: U32At(d, pl[j]) == Wrap32(U32At(data, pl[j]) - base - pl[j] - 4))
    && (forall q | 0 <= q < |d| && (forall j | 0 <= j < k :: q < pl[j] || pl[j] + 4 <= q) :: d[q] == data[q])
  }

  /** One more logged word patched. */
  lemma PatchStep(data: seq<u8>, d: seq<u8>, pl: seq<nat>, k: nat, base: int) returns (next: seq<u8>)
    requires Patched(data, d, pl, k, base) && k < |pl|
    ensures U32At(d, pl[k]) == U32At(data, pl[k])
    ensures next == d[..pl[k]] + U32Bytes(Wrap32(U32At(d, pl[k]) - base - pl[k] - 4)) + d[pl[k] + 4..]
    ensures Patched(data, next, pl, k + 1, base)
  {
    hide U32At, U32Bytes;
    var o := pl[k];
    forall j | 0 <= j < |pl| && j != k ensures pl[j] + 4 <= o || o + 4 <= pl[j] {
      assert pl[if j < k then j else k] != pl[if j < k then k else j];
    }
    assert d[o..o + 4] == data[o..o + 4];
    U32OfSlice(d, o, data, o);
    var w := Wrap32(U32At(d, o) - base - o - 4);
    next := d[..o] + U32Bytes(w) + d[o + 4..];
    assert next[o..o + 4] == U32Bytes(w);
    U32RoundTrip(w, next, o);
    forall j | 0 <= j < k ensures U32At(next, pl[j]) == U32At(d, pl[j]) {
      assert next[pl[j]..pl[j] + 4] == d[pl[j]..pl[j] + 4];
      U32OfSlice(next, pl[j], d, pl[j]);
    }
  }

  lemma VtableSeen(s: Space, v: int, vt: seq<int>)
    requires WfVtable(vt) && VtAt(s, v, vt)
    ensures VtableHeader(s, v) && s.U16(v) == 2 * |vt| && s.U16(v + 2) == vt[1]
    ensures forall id: nat :: Entry(s, v, id) == VtEntry(vt, id)
  {
    hide U16At;
    assert s.In(v + 2 * 0, 2) && s.U16(v + 2 * 0) == vt[0];
    assert s.In(v + 2 * 1, 2) && s.U16(v + 2 * 1) == vt[1];
    forall id: nat ensures Entry(s, v, id) == VtEntry(vt, id) {
      if id + 2 < |vt| { assert s.U16(v + 2 * (id + 2)) == vt[id + 2]; }
    }
  }

  lemma PatchedRaw(data: seq<u8>, d: seq<u8>, pl: seq<nat>, base: int, off: int, c: Cell, align: nat)
    requires Patched(data, d, pl, |pl|, base) && CellIn(data, pl, off, c, align) && c.Raw?
    ensures d[off..off + |c.bytes|] == c.bytes
  {
    forall q | off <= q < off + |c.bytes| ensures d[q] == data[q] {
      assert forall j | 0 <= j < |pl| :: q < pl[j] || pl[j] + 4 <= q;
    }
    assert d[off..off + |c.bytes|] == data[off..off + |c.bytes|];
  }

  /** Where the link targets of a table or vector may lie. */
  ghost predicate TargetsWithin(s: Space, cells: map<nat, Cell>) {
    forall id | id in cells && cells[id].Link? ::
      s.lo <= cells[id].target < s.Hi() && cells[id].target % 4 == 0 && cells[id].target < TWO_31
  }

  lemma SubSlice(out: seq<u8>, p: nat, d: seq<u8>, off: nat, n: nat)
    requires p + |d| <= |out| && out[p..p + |d|] == d && off + n <= |d|
    ensures out[p + off..p + off + n] == d[off..off + n]
  {
    assert forall i | 0 <= i < |d| :: d[i] == out[p + i];
    var a, b := out[p + off..p + off + n], d[off..off + n];
    assert forall i | 0 <= i < n :: a[i] == out[p + (off + i)] && b[i] == d[off + i];
  }

  lemma RawLaid(s: Space, out: seq<u8>, data: seq<u8>, d: seq<u8>, pl: seq<nat>, off: int, c: Cell, align: nat)
    requires 4 + |d| <= |out| && out[4..4 + |d|] == d && c.Raw?
    requires Patched(data, d, pl, |pl|, s.lo - |out|) && CellIn(data, pl, off, c, align)
    requires IsPow2(align) && align >= 4 && Aligned(s.lo - |out| + 4, align)
    ensures CellAt(EmitFront(s, out), s.lo - |out|, |data| + 4, off + 4, c)
  {
    hide U32At, Aligned;
    var r := s.lo - |out|;
    PatchedRaw(data, d, pl, r, off, c, align);
    FrontSlice(s, out, 4 + off, |c.bytes|);
    SubSlice(out, 4, d, off, |c.bytes|);
    AlignedDifference(off, r + 4, c.align, align);
    assert off + (r + 4) == r + (off + 4);
  }

  lemma LinkLaid(s: Space, out: seq<u8>, data: seq<u8>, d: seq<u8>, pl: seq<nat>, off: int, c: Cell, align: nat)
    requires 4 + |d| <= |out| && out[4..4 + |d|] == d && c.Link?
    requires Patched(data, d, pl, |pl|, s.lo - |out|) && CellIn(data, pl, off, c, align)
    requires IsPow2(align) && align >= 4 && Aligned(s.lo - |out| + 4, align)
    requires s.lo <= c.target < s.Hi() && c.target % 4 == 0
    requires |s.bytes| + |out| < TWO_31
    ensures CellAt(EmitFront(s, out), s.lo - |out|, |data| + 4, off + 4, c)
  {
    hide U32At, Aligned, Wrap32, Patches;
    var r := s.lo - |out|;
    AlignedTo4(r + 4, align);
    var j :| 0 <= j < |pl| && pl[j] == off;
    FrontU32(s, out, 4 + off);
    SubSlice(out, 4, d, off, 4);
    U32OfSlice(out, 4 + off, d, off);
    AlignedSum(r + 4, off);
    WrapCancels(c.target, r + off + 4);
  }

  lemma WrapCancels(x: int, y: int)
    requires 0 <= x - y < TWO_32
    ensures Wrap32(Wrap32(x) - y) == x - y
  {
    var k := x / TWO_32;
    assert Wrap32(x) - y == x - y - k * TWO_32;
  }

  lemma TableLaid(s: Space, v: int, vt: seq<int>, data: seq<u8>, d: seq<u8>, pl: seq<nat>, cells: map<nat, Cell>,
                  align: nat, pad: nat)
    requires Describes(data, pl, vt, cells, align) && TargetsWithin(s, cells) && VtAt(s, v, vt)
    requires Patched(data, d, pl, |pl|, s.lo - pad - |data| - 4)
    requires IsPow2(align) && align >= 4 && Aligned(s.lo - |data| - pad, align)
    requires |s.bytes| + |data| + 4 + pad < TWO_31
    ensures var out := U32Bytes(Wrap32(s.lo - pad - |data| - 4 - v)) + d + Zeros(pad);
            TabAt(EmitFront(s, out), s.lo - |out|, cells)
  {
    hide U32At, U16At, U32Bytes, Aligned, CellIn, CellAt, WfVtable;
    var w := Wrap32(s.lo - pad - |data| - 4 - v);
    var out := U32Bytes(w) + d + Zeros(pad);
    var t, r := EmitFront(s, out), s.lo - |out|;
    assert r + 4 == s.lo - |data| - pad && r == s.lo - pad - |data| - 4;
    FrontExtends(s, out);
    VtExtends(s, t, v, vt);
    VtableSeen(t, v, vt);
    FrontU32(s, out, 0);
    assert out[0..4] == U32Bytes(w);
    U32RoundTrip(w, out, 0);
    SignedOfWrap(r - v);
    assert VtableOf(t, r) == v;
    assert out[4..4 + |d|] == d;
    forall id: nat | id in cells
      ensures CellAt(t, r, t.U16(v + 2), Entry(t, v, id), cells[id])
    {
      if cells[id].Raw? {
        RawLaid(s, out, data, d, pl, VtEntry(vt, id) - 4, cells[id], align);
      } else {
        LinkLaid(s, out, data, d, pl, VtEntry(vt, id) - 4, cells[id], align);
      }
    }
  }
}
