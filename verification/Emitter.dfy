/** The default emitter: a ring of fixed-size pages that grows at both ends. The pages from `front` to
    `back` hold the buffer; the others are spare. It refines the builder's emit space. */
module Emitter {
  import opened Bytes
  import EmitSpace
  import Layout

  const PAGE_SIZE: nat := 2944     // 3000 & ~127

  datatype Page = Page(bytes: seq<u8>, next: nat, prev: nat, pageOffset: int)

  /** All pages ever allocated, by their address; address 0 is the null pointer. */
  type Memory = seq<Page>

  function Succ(i: nat, n: nat): (j: nat)
    requires i < n
    ensures j < n
  {
    if i + 1 == n then 0 else i + 1
  }

  ghost predicate Link(mem: Memory, ring: seq<nat>, i: nat) {
    && i < |ring| && 0 < ring[i] < |mem| && ring[Succ(i, |ring|)] < |mem|
    && mem[ring[i]].next == ring[Succ(i, |ring|)] && mem[ring[Succ(i, |ring|)]].prev == ring[i]
  }

  /** The pages are linked into a ring in this order. */
  ghost predicate Ring(mem: Memory, ring: seq<nat>) {
    && (forall i, j | 0 <= i < j < |ring| :: ring[i] != ring[j])
    && (forall i | 0 <= i < |ring| :: 0 < ring[i] < |mem| && |mem[ring[i]].bytes| == PAGE_SIZE)
    && (forall i | 0 <= i < |ring| :: Link(mem, ring, i))
  }

  /** The bytes of consecutive pages. */
  ghost function Content(mem: Memory, pages: seq<nat>): (s: seq<u8>)
    requires forall i | 0 <= i < |pages| :: pages[i] < |mem|
  {
    if pages == [] then [] else mem[pages[0]].bytes + Content(mem, pages[1..])
  }

  ghost predicate Apart(mem: Memory, ring: seq<nat>, i: nat) {
    && 0 < i < |ring| && ring[i] < |mem| && ring[i - 1] < |mem|
    && mem[ring[i]].pageOffset == mem[ring[i - 1]].pageOffset + PAGE_SIZE
  }

  lemma {:induction false} ContentSnoc(mem: Memory, pages: seq<nat>, p: nat)
    requires p < |mem| && forall i | 0 <= i < |pages| :: pages[i] < |mem|
    ensures Content(mem, pages + [p]) == Content(mem, pages) + mem[p].bytes
    decreases |pages|
  {
    if pages == [] {
      assert [] + [p] == [p];
    } else {
      ContentSnoc(mem, pages[1..], p);
      assert (pages + [p])[1..] == pages[1..] + [p];
    }
  }

  /** Pages whose bytes did not change hold the same content. */
  lemma {:induction false} ContentKept(mem: Memory, mem': Memory, pages: seq<nat>)
    requires forall i | 0 <= i < |pages| ::
        pages[i] < |mem| && pages[i] < |mem'| && mem'[pages[i]].bytes == mem[pages[i]].bytes
    ensures Content(mem', pages) == Content(mem, pages)
  {
    if pages != [] { ContentKept(mem, mem', pages[1..]); }
  }

  /** Pieces laid end to end. */
  function Joined(iov: seq<seq<u8>>): seq<u8> {
    if iov == [] then [] else iov[0] + Joined(iov[1..])
  }

  lemma {:induction false} JoinedSnoc(iov: seq<seq<u8>>, last: seq<u8>)
    ensures Joined(iov + [last]) == Joined(iov) + last
    decreases |iov|
  {
    if iov == [] {
      assert [] + [last] == [last];
    } else {
      JoinedSnoc(iov[1..], last);
      assert (iov + [last])[1..] == iov[1..] + [last];
    }
  }

  /** The buffer between the cursors of the live pages, the first `n` of the ring, and where it starts. */
  ghost predicate Holds(mem: Memory, ring: seq<nat>, n: nat, cursor: nat, left: nat, deque: EmitSpace.Space) {
    && 1 <= n <= |ring| && (forall i | 0 <= i < |ring| :: ring[i] < |mem|)
    && (forall i | 0 < i < n :: Apart(mem, ring, i))
    && mem[ring[0]].pageOffset + cursor == deque.lo
    && var all := Content(mem, ring[..n]);
       cursor + left <= |all| && deque.bytes == all[cursor..|all| - left]
  }

  class EmitterState {
    var pages: Memory
    var front: nat
    var back: nat
    var frontCursor: nat
    var frontLeft: nat
    var backCursor: nat
    var backLeft: nat
    var used: nat
    var capacity: nat
    var usedAverage: nat

    /** The ring, starting at the front page; how many of its pages are live; and the buffer so far. */
    ghost var ring: seq<nat>
    ghost var live: nat
    ghost var deque: EmitSpace.Space

    /** The ring is intact, whatever the live pages hold. */
    ghost predicate Linked() reads this {
      && |pages| > 0 && Ring(pages, ring) && capacity == PAGE_SIZE * |ring|
      && if front == 0 then ring == [] && back == 0 else
           1 <= live <= |ring| && ring[0] == front && ring[live - 1] == back
    }

    /** The state between two chunks of one emission, when `used` is ahead of the buffer. */
    ghost predicate Live() reads this {
      && Linked()
      && if front == 0 then frontLeft == 0 && backLeft == 0 && deque == EmitSpace.Space(0, []) else
           && frontCursor == frontLeft <= PAGE_SIZE && backCursor + backLeft == PAGE_SIZE
           && Holds(pages, ring, live, frontCursor, backLeft, deque)
    }

    ghost predicate Valid() reads this {
      Live() && used == |deque.bytes|
    }

    constructor ()
      ensures Valid() && deque == EmitSpace.Space(0, []) && ring == [] && usedAverage == 0
    {
      pages, front, back, frontCursor, frontLeft, backCursor, backLeft := [Page([], 0, 0, 0)], 0, 0, 0, 0, 0, 0;
      used, capacity, usedAverage := 0, 0, 0;
      ring, live, deque := [], 0, EmitSpace.Space(0, []);
    }

    /** The first page is split between front and back. */
    method FirstPage()
      requires Live() && front == 0
      modifies this
      ensures Live() && front != 0 && deque == old(deque) && used == old(used) && usedAverage == old(usedAverage)
      ensures frontLeft > 0 && backLeft > 0
    {
      hide Ring, Holds;
      RingBounds(pages, ring);
      var p := |pages|;
      capacity := capacity + PAGE_SIZE;
      front, back := p, p;
      frontCursor := PAGE_SIZE / 2;
      backCursor := frontCursor;
      frontLeft := PAGE_SIZE / 2;
      backLeft := PAGE_SIZE - frontLeft;
      pages := pages + [Page(Zeros(PAGE_SIZE), p, p, 0 - frontLeft)];
      ring, live := [p], 1;
      OnePage(pages, p);
    }

    /** A new page joins the ring between back and front. */
    method AddPage() returns (p: nat)
      requires Live() && front != 0 && live == |ring|
      modifies `capacity, `pages, `ring
      ensures Live() && ring == old(ring) + [p] && capacity == old(capacity) + PAGE_SIZE
    {
      hide Ring, Holds;
      RingBounds(pages, ring);
      p := |pages|;
      capacity := capacity + PAGE_SIZE;
      ghost var mem := pages;
      pages := pages + [Page(Zeros(PAGE_SIZE), front, back, 0)];
      pages := pages[front := pages[front].(prev := p)];
      pages := pages[back := pages[back].(next := p)];
      PageAdded(mem, pages, ring, p);
      HoldsOn(mem, pages, ring, ring + [p], live, frontCursor, backLeft, deque);
      ring := ring + [p];
    }

    /** The page before the front becomes the front. */
    method TakeFront()
      requires Live() && front != 0 && frontLeft == 0 && live < |ring|
      modifies this
      ensures Live() && deque == old(deque) && used == old(used) && usedAverage == old(usedAverage) && frontLeft > 0
    {
      hide Ring, Holds;
      RingBounds(pages, ring);
      Neighbours(pages, ring, live);
      ghost var mem := pages;
      var p := pages[front].prev;
      pages := pages[p := pages[p].(pageOffset := pages[front].pageOffset - PAGE_SIZE)];
      front := p;
      frontCursor := PAGE_SIZE;
      frontLeft := PAGE_SIZE;
      RingRotated(mem, pages, ring);
      FrontTaken(mem, pages, ring, live, backLeft, deque);
      ring, live := Rotated(ring), live + 1;
    }

    /** A full front page gives way to the page before it: a spare one, or a new one. */
    method AdvanceFront()
      requires Live() && frontLeft == 0
      modifies this
      ensures Live() && deque == old(deque) && used == old(used) && usedAverage == old(usedAverage) && frontLeft > 0
    {
      hide Ring, Holds;
      if front == 0 { FirstPage(); return; }
      RingBounds(pages, ring);
      Neighbours(pages, ring, live);
      if pages[front].prev == back {
        var p := AddPage();
      }
      TakeFront();
    }

    /** The page behind the back becomes the back. */
    method TakeBack()
      requires Live() && front != 0 && backLeft == 0 && live < |ring|
      modifies this
      ensures Live() && deque == old(deque) && used == old(used) && usedAverage == old(usedAverage) && backLeft > 0
    {
      hide Ring, Holds;
      RingBounds(pages, ring);
      Neighbours(pages, ring, live);
      ghost var mem := pages;
      var p := pages[back].next;
      pages := pages[p := pages[p].(pageOffset := pages[back].pageOffset + PAGE_SIZE)];
      back := p;
      backCursor := 0;
      backLeft := PAGE_SIZE;
      RingKept(mem, pages, ring);
      BackTaken(mem, pages, ring, live, frontCursor, deque);
      live := live + 1;
    }

    /** A full back page gives way to the page behind it: a spare one, or a new one. */
    method AdvanceBack()
      requires Live() && backLeft == 0
      modifies this
      ensures Live() && deque == old(deque) && used == old(used) && usedAverage == old(usedAverage) && backLeft > 0
    {
      hide Ring, Holds;
      if front == 0 { FirstPage(); return; }
      RingBounds(pages, ring);
      Neighbours(pages, ring, live);
      if pages[back].next == front {
        var p := AddPage();
      }
      TakeBack();
    }

    /** One piece copied in front of the buffer, page by page, from its end. */
    method CopyFront(data: seq<u8>)
      requires Live()
      modifies this
      ensures Live() && deque == Layout.EmitFront(old(deque), data) && used == old(used)
      ensures usedAverage == old(usedAverage)
    {
      hide Ring, Holds;
      var size := |data|;
      assert data[size..] + deque.bytes == deque.bytes;
      while size > 0
        invariant 0 <= size <= |data| && Live() && used == old(used) && usedAverage == old(usedAverage)
        invariant deque == Layout.EmitFront(old(deque), data[size..])
        decreases size, if frontLeft == 0 then 1 else 0
      {
        var k := size;
        if k > frontLeft {
          k := frontLeft;
          if k == 0 {
            AdvanceFront();
            continue;
          }
        }
        PutFront(data[size - k..size]);
        assert data[size - k..size] + data[size..] == data[size - k..];
        size := size - k;
      }
      assert data[0..] == data;
    }

    /** One piece copied behind the buffer, page by page. */
    method CopyBack(data: seq<u8>)
      requires Live()
      modifies this
      ensures Live() && deque == Layout.EmitBack(old(deque), data) && used == old(used)
      ensures usedAverage == old(usedAverage)
    {
      hide Ring, Holds;
      var i := 0;
      assert deque.bytes + data[..0] == deque.bytes;
      while i < |data|
        invariant 0 <= i <= |data| && Live() && used == old(used) && usedAverage == old(usedAverage)
        invariant deque == Layout.EmitBack(old(deque), data[..i])
        decreases |data| - i, if backLeft == 0 then 1 else 0
      {
        var k := |data| - i;
        if k > backLeft {
          k := backLeft;
          if k == 0 {
            AdvanceBack();
            continue;
          }
        }
        PutBack(data[i..i + k]);
        assert data[..i] + data[i..i + k] == data[..i + k];
        i := i + k;
      }
      assert data[..i] == data;
    }

    /** Bytes that fit are written at the back cursor. */
    method PutBack(chunk: seq<u8>)
      requires Live() && front != 0 && |chunk| <= backLeft
      modifies `pages, `backCursor, `backLeft, `deque
      ensures Live() && deque == Layout.EmitBack(old(deque), chunk) && backLeft == old(backLeft) - |chunk|
    {
      hide Ring, Holds, Written;
      RingBounds(pages, ring);
      ghost var mem := pages;
      pages := Written(pages, back, backCursor, chunk);
      backCursor := backCursor + |chunk|;
      backLeft := backLeft - |chunk|;
      WrittenRing(mem, ring, back, backCursor - |chunk|, chunk);
      BackWritten(mem, ring, live, frontCursor, backLeft + |chunk|, deque, chunk);
      deque := Layout.EmitBack(deque, chunk);
    }

    /** Bytes that fit are written just before the front cursor. */
    method PutFront(chunk: seq<u8>)
      requires Live() && front != 0 && |chunk| <= frontLeft
      modifies `pages, `frontCursor, `frontLeft, `deque
      ensures Live() && deque == Layout.EmitFront(old(deque), chunk) && frontLeft == old(frontLeft) - |chunk|
    {
      hide Ring, Holds, Written;
      RingBounds(pages, ring);
      ghost var mem := pages;
      frontCursor := frontCursor - |chunk|;
      frontLeft := frontLeft - |chunk|;
      pages := Written(pages, front, frontCursor, chunk);
      WrittenRing(mem, ring, front, frontCursor, chunk);
      FrontWritten(mem, ring, live, frontCursor + |chunk|, backLeft, deque, chunk);
      deque := Layout.EmitFront(deque, chunk);
    }

    // ---- the emitter interface ---------------------------------------------------------------

    /** The pieces written one after the other at address `at` of page p. */
    method WriteAll(p: nat, at: nat, iov: seq<seq<u8>>)
      requires p < |pages| && at + |Joined(iov)| <= |pages[p].bytes|
      modifies `pages
      ensures pages == Written(old(pages), p, at, Joined(iov))
    {
      hide Joined;
      var i, q := 0, at;
      JoinedNone();
      assert iov[..0] == [];
      WrittenNothing(pages, p, at);
      while i < |iov|
        invariant 0 <= i <= |iov| && q == at + |Joined(iov[..i])| && |Joined(iov[..i])| <= |Joined(iov)|
        invariant pages == Written(old(pages), p, at, Joined(iov[..i]))
      {
        JoinedUpTo(iov, i);
        pages := Written(pages, p, q, iov[i]);
        WrittenOn(old(pages), p, at, Joined(iov[..i]), iov[i]);
        q := q + |iov[i]|;
        i := i + 1;
      }
      assert iov[..i] == iov;
    }

    /** Emits `len` bytes in pieces: in front of everything emitted so far when `offset` is negative,
        behind it otherwise. Together with the builder this is its emit space. */
    method Emit(iov: seq<seq<u8>>, offset: int, len: nat)
      requires Valid() && len == |Joined(iov)|
      modifies this
      ensures Valid() && used == old(used) + len && usedAverage == old(usedAverage)
      ensures deque == if offset < 0 then Layout.EmitFront(old(deque), Joined(iov))
          else Layout.EmitBack(old(deque), Joined(iov))
    {
      hide Ring, Holds, Joined;
      used := used + len;
      if offset < 0 {
        if len <= frontLeft {
          EmitFrontFast(iov, len);
        } else {
          EmitFrontPaged(iov);
        }
      } else {
        if len <= backLeft {
          EmitBackFast(iov, len);
        } else {
          EmitBackPaged(iov);
        }
      }
    }

    method EmitFrontFast(iov: seq<seq<u8>>, len: nat)
      requires Live() && len == |Joined(iov)| <= frontLeft
      modifies `pages, `frontCursor, `frontLeft, `deque
      ensures Live() && deque == Layout.EmitFront(old(deque), Joined(iov))
    {
      hide Ring, Holds, Written, Joined;
      if front == 0 {
        assert Joined(iov) + deque.bytes == deque.bytes;
        return;
      }
      RingBounds(pages, ring);
      ghost var mem := pages;
      frontCursor := frontCursor - len;
      frontLeft := frontLeft - len;
      WriteAll(front, frontCursor, iov);
      WrittenRing(mem, ring, front, frontCursor, Joined(iov));
      FrontWritten(mem, ring, live, frontCursor + len, backLeft, deque, Joined(iov));
      deque := Layout.EmitFront(deque, Joined(iov));
    }

    method EmitBackFast(iov: seq<seq<u8>>, len: nat)
      requires Live() && len == |Joined(iov)| <= backLeft
      modifies `pages, `backCursor, `backLeft, `deque
      ensures Live() && deque == Layout.EmitBack(old(deque), Joined(iov))
    {
      hide Ring, Holds, Written, Joined;
      if front == 0 {
        assert deque.bytes + Joined(iov) == deque.bytes;
        return;
      }
      RingBounds(pages, ring);
      ghost var mem := pages;
      WriteAll(back, backCursor, iov);
      backCursor := backCursor + len;
      backLeft := backLeft - len;
      WrittenRing(mem, ring, back, backCursor - len, Joined(iov));
      BackWritten(mem, ring, live, frontCursor, backLeft + len, deque, Joined(iov));
      deque := Layout.EmitBack(deque, Joined(iov));
    }

    method EmitFrontPaged(iov: seq<seq<u8>>)
      requires Live()
      modifies this
      ensures Live() && deque == Layout.EmitFront(old(deque), Joined(iov)) && used == old(used)
      ensures usedAverage == old(usedAverage)
    {
      hide Ring, Holds, Joined;
      var i := |iov|;
      JoinedNone();
      assert iov[i..] == [] && [] + deque.bytes == deque.bytes;
      while i > 0
        invariant 0 <= i <= |iov| && Live() && used == old(used) && usedAverage == old(usedAverage)
        invariant deque == Layout.EmitFront(old(deque), Joined(iov[i..]))
      {
        i := i - 1;
        JoinedFrom(iov, i);
        CopyFront(iov[i]);
      }
      assert iov[0..] == iov;
    }

    method EmitBackPaged(iov: seq<seq<u8>>)
      requires Live()
      modifies this
      ensures Live() && deque == Layout.EmitBack(old(deque), Joined(iov)) && used == old(used)
      ensures usedAverage == old(usedAverage)
    {
      hide Ring, Holds, Joined;
      var i := 0;
      JoinedNone();
      assert iov[..0] == [] && deque.bytes + [] == deque.bytes;
      while i < |iov|
        invariant 0 <= i <= |iov| && Live() && used == old(used) && usedAverage == old(usedAverage)
        invariant deque == Layout.EmitBack(old(deque), Joined(iov[..i]))
      {
        JoinedUpTo(iov, i);
        CopyBack(iov[i]);
        i := i + 1;
      }
      assert iov[..i] == iov;
    }

    // ---- taking the buffer out, and starting over ----------------------------------------------

    /** Copies the buffer, front to back, to the start of `buf`; refused when `size` is too small. */
    method CopyBuffer(buf: array<u8>, size: nat) returns (ok: bool)
      requires Valid() && size <= buf.Length
      modifies buf
      ensures ok == (used <= size && front != 0)
      ensures buf[..] == if ok then Over(old(buf[..]), deque.bytes) else old(buf[..])
    {
      hide Ring, Holds, Over;
      if size < used || front == 0 {
        return false;
      }
      ok := true;
      HeldBytes(pages, ring, live, frontCursor, backLeft, deque);
      RingBounds(pages, ring);
      Neighbours(pages, ring, live);
      if front == back {
        CopyStart(buf, pages[front].bytes[frontCursor..frontCursor + used]);
      } else {
        CopyStart(buf, pages[front].bytes[frontCursor..]);
        CopyRest(buf, old(buf[..]));
      }
    }

    method CopyStart(buf: array<u8>, data: seq<u8>)
      requires |data| <= buf.Length
      modifies buf
      ensures buf[..] == Over(old(buf[..]), data)
    {
      hide Over;
      OverFirst(buf[..], data);
      Memcpy(buf, 0, data);
    }

    /** The pages behind the front one, when there are any. */
    method CopyRest(buf: array<u8>, ghost orig: seq<u8>)
      requires Valid() && live > 1 && used <= buf.Length && |orig| == buf.Length
      requires front != 0 && front < |pages| && |pages[front].bytes| == PAGE_SIZE <= used + frontCursor
      requires buf[..] == Over(orig, pages[front].bytes[frontCursor..])
      modifies buf
      ensures buf[..] == Over(orig, deque.bytes)
    {
      hide Ring, Holds, Over;
      HeldBytes(pages, ring, live, frontCursor, backLeft, deque);
      RingBounds(pages, ring);
      var len := PAGE_SIZE - frontLeft;
      var p := pages[front].next;
      ghost var i := 1;
      LinkAt(pages, ring, 0);
      ghost var copied := pages[front].bytes[frontCursor..];
      while p != back
        invariant 1 <= i < live && p == ring[i] && len == |copied| <= used && buf[..] == Over(orig, copied)
        invariant frontCursor <= |Content(pages, ring[..i])| && copied == Content(pages, ring[..i])[frontCursor..]
        decreases live - i
      {
        HeldUpTo(pages, ring, live, frontCursor, backLeft, deque, i);
        Distinct(pages, ring, i, live - 1);
        LinkAt(pages, ring, i);
        CopyOn(buf, len, pages[p].bytes, orig, copied);
        len := len + PAGE_SIZE;
        copied := copied + pages[p].bytes;
        p, i := pages[p].next, i + 1;
      }
      HeldUpTo(pages, ring, live, frontCursor, backLeft, deque, i);
      Distinct(pages, ring, i, live - 1);
      CopyOn(buf, len, pages[p].bytes[..PAGE_SIZE - backLeft], orig, copied);
    }

    method CopyOn(buf: array<u8>, at: nat, data: seq<u8>, ghost orig: seq<u8>, ghost copied: seq<u8>)
      requires at == |copied| && at + |data| <= buf.Length == |orig| && buf[..] == Over(orig, copied)
      modifies buf
      ensures buf[..] == Over(orig, copied + data)
    {
      hide Over;
      OverOn(orig, copied, data);
      Memcpy(buf, at, data);
    }

    /** Starts an empty buffer on the front page. Spare pages beyond what past buffers needed on
        average are freed. */
    method Reset()
      requires Linked()
      modifies this
      ensures Linked() && front == old(front)
      ensures front != 0 ==> Valid() && deque == EmitSpace.Space(0, []) && used == 0
      ensures front != 0 ==> usedAverage == NextAverage(old(usedAverage), old(used))
      ensures front != 0 ==> |ring| == 1 || capacity <= 2 * usedAverage
      ensures front != 0 && |ring| < |old(ring)| ==> capacity + PAGE_SIZE > 2 * usedAverage
      ensures front != 0 ==> |ring| <= |old(ring)| && capacity == PAGE_SIZE * |ring|
      ensures front != 0 ==> Averaged(old(usedAverage), old(used), usedAverage)
      ensures forall p | p in ring :: p in old(ring)
    {
      hide Ring, Holds, NextAverage;
      if front == 0 { return; }
      StartOver();
      NoteUse();
      while usedAverage * 2 < capacity && pages[back].next != front
        invariant Valid() && front != 0 && front == old(front) && live == 1 && deque == EmitSpace.Space(0, [])
        invariant used == 0
        invariant back < |pages| && (pages[back].next == front <==> |ring| == 1)
        invariant usedAverage == NextAverage(old(usedAverage), old(used)) && |ring| <= |old(ring)|
        invariant |ring| < |old(ring)| ==> capacity + PAGE_SIZE > 2 * usedAverage
        invariant forall p | p in ring :: p in old(ring)
        decreases |ring|
      {
        ghost var before := ring;
        FreeNext();
        WithoutSome(before, 1);
      }
    }

    /** The part of reset that gives up what the live pages hold. */
    method StartOver()
      requires Linked() && front != 0
      modifies `pages, `back, `frontCursor, `backCursor, `frontLeft, `backLeft, `live, `deque
      ensures Live() && front == old(front) && ring == old(ring) && live == 1 && deque == EmitSpace.Space(0, [])
      ensures back < |pages| && (pages[back].next == front <==> |ring| == 1)
    {
      hide Ring, Holds;
      RingBounds(pages, ring);
      back := front;
      frontCursor := PAGE_SIZE / 2;
      backCursor := frontCursor;
      frontLeft := PAGE_SIZE / 2;
      backLeft := PAGE_SIZE - PAGE_SIZE / 2;
      FrontMarked(pages, ring);
      pages := pages[front := pages[front].(pageOffset := 0 - frontLeft)];
      live, deque := 1, EmitSpace.Space(0, []);
    }

    /** The part of reset that remembers how much was in use. */
    method NoteUse()
      modifies `used, `usedAverage
      ensures used == 0 && usedAverage == NextAverage(old(usedAverage), old(used))
    {
      hide Averaged;
      if usedAverage == 0 { usedAverage := used; }
      usedAverage := usedAverage * 3 / 4 + used / 4;
      used := 0;
    }

    /** Unlinks and frees the page behind the only live page. */
    method FreeNext()
      requires Valid() && front != 0 && live == 1 && |ring| > 1 && deque == EmitSpace.Space(0, [])
      modifies `pages, `ring, `capacity
      ensures Valid() && ring == Without(old(ring), 1) && back < |pages| && (pages[back].next == front <==> |ring| == 1)
    {
      hide Ring, Holds;
      RingBounds(pages, ring);
      PageRemoved(pages, ring, 1);
      WithoutOne(pages, ring, 1);
      var p := pages[back].next;
      LinkAt(pages, ring, 0);
      ghost var mem := pages;
      pages := Unlinked(pages, p);
      capacity := capacity - PAGE_SIZE;
      HoldsOn(mem, pages, ring, Without(ring, 1), 1, frontCursor, backLeft, deque);
      ring := Without(ring, 1);
      RingBounds(pages, ring);
      Neighbours(pages, ring, 1);
    }

    /** Moves a page that is neither front nor back outside the live pages. The ring stays whole; what
        it holds stays the buffer only when the page was a spare one. */
    method RecyclePage(p: nat) returns (ok: bool)
      requires Linked() && front != 0 && p in ring
      modifies `pages, `ring, `live
      ensures Linked() && ok == (p != front && p != back)
      ensures ok ==> ring[|ring| - 1] == p && |ring| == |old(ring)| && forall q | q in old(ring) :: q in ring
      ensures !ok ==> pages == old(pages) && ring == old(ring)
      ensures old(Valid()) && p !in old(ring[..live]) ==> Valid()
    {
      hide Ring, Holds, Unlinked, Relinked;
      if p == front || p == back {
        return false;
      }
      ghost var k :| 0 <= k < |ring| && ring[k] == p;
      Distinct(pages, ring, 0, k);
      Distinct(pages, ring, live - 1, k);
      PageMoved(pages, ring, k);
      if k >= live && Holds(pages, ring, live, frontCursor, backLeft, deque) {
        SpareMoved(pages, ring, k, live, frontCursor, backLeft, deque);
      }
      pages := Relinked(Unlinked(pages, p), front, p);
      ring := Without(ring, k) + [p];
      if k < live { live := live - 1; }
      ok := true;
    }
  }

  /** What lies in memory with data copied over its start. */
  function Over(orig: seq<u8>, data: seq<u8>): seq<u8>
    requires |data| <= |orig|
  {
    data + orig[|data|..]
  }

  lemma OverStart(orig: seq<u8>, data: seq<u8>)
    requires |data| <= |orig|
    ensures |Over(orig, data)| == |orig| && Over(orig, data)[..|data|] == data
  {}

  lemma OverFirst(orig: seq<u8>, data: seq<u8>)
    requires |data| <= |orig|
    ensures orig[..0] + data + orig[0 + |data|..] == Over(orig, data)
  {}

  lemma OverOn(orig: seq<u8>, data: seq<u8>, more: seq<u8>)
    requires |data| + |more| <= |orig|
    ensures var b := Over(orig, data); b[..|data|] + more + b[|data| + |more|..] == Over(orig, data + more)
  {}

  function NextAverage(average: nat, used: nat): (next: nat)
    ensures Averaged(average, used, next)
  {
    (if average == 0 then used else average) * 3 / 4 + used / 4
  }

  /** The average follows the use: three parts of what it was, one of the last use, less what rounding takes;
      so it stays between the two, and comes up to steady use within one. */
  predicate Averaged(average: nat, used: nat, next: nat) {
    var before := if average == 0 then used else average;
    && 3 * before + used - 6 <= 4 * next <= 3 * before + used
    && (next <= before || next <= used) && (next + 1 >= before || next + 1 >= used)
  }

  lemma WithoutSome(ring: seq<nat>, k: nat)
    requires k < |ring|
    ensures forall p | p in Without(ring, k) :: p in ring
    ensures forall p | p in ring && p != ring[k] :: p in Without(ring, k)
  {
    var r := Without(ring, k);
    forall p | p in ring && p != ring[k] ensures p in r {
      var i :| 0 <= i < |ring| && ring[i] == p;
      assert r[if i < k then i else i - 1] == p;
    }
  }

  lemma WrittenNothing(mem: Memory, p: nat, at: nat)
    requires p < |mem| && at <= |mem[p].bytes|
    ensures Written(mem, p, at, []) == mem
  {
    assert mem[p].bytes[..at] + [] + mem[p].bytes[at..] == mem[p].bytes;
  }

  /** Linking p in front of the first page. */
  function Relinked(mem: Memory, first: nat, p: nat): (mem': Memory)
    requires p < |mem| && first < |mem| && mem[first].prev < |mem|
    ensures |mem'| == |mem|
  {
    var mem1 := mem[p := mem[p].(prev := mem[first].prev, next := first)];
    var mem2 := mem1[mem1[p].prev := mem1[mem1[p].prev].(next := p)];
    mem2[first := mem2[first].(prev := p)]
  }

  /** Page k unlinked, then linked in before the first. */
  lemma PageMoved(mem: Memory, ring: seq<nat>, k: nat)
    requires Ring(mem, ring) && 0 < k < |ring|
    ensures ring[k] < |mem| && mem[ring[k]].prev < |mem| && mem[ring[k]].next < |mem|
    ensures var mid := Unlinked(mem, ring[k]);
            && ring[0] < |mid| && mid[ring[0]].prev < |mid| && mid[ring[0]].prev != ring[k]
            && Ring(Relinked(mid, ring[0], ring[k]), Without(ring, k) + [ring[k]])
            && forall i | 0 <= i < |mem| :: Relinked(mid, ring[0], ring[k])[i].bytes == mem[i].bytes
                                         && Relinked(mid, ring[0], ring[k])[i].pageOffset == mem[i].pageOffset
    ensures forall q | q in ring :: q in Without(ring, k) + [ring[k]]
  {
    hide Ring, Link;
    RingBounds(mem, ring);
    PageRemoved(mem, ring, k);
    var mid, rest := Unlinked(mem, ring[k]), Without(ring, k);
    WithoutOne(mem, ring, k);
    RingBounds(mid, rest);
    Neighbours(mid, rest, 1);
    assert rest[0] == ring[0];
    PageAdded(mid, Relinked(mid, ring[0], ring[k]), rest, ring[k]);
    WithoutSome(ring, k);
  }

  /** Moving a spare page leaves the buffer alone. */
  lemma SpareMoved(mem: Memory, ring: seq<nat>, k: nat, n: nat, cursor: nat, left: nat, deque: EmitSpace.Space)
    requires Ring(mem, ring) && 0 < k < |ring| && n <= k && Holds(mem, ring, n, cursor, left, deque)
    requires ring[k] < |mem| && mem[ring[k]].prev < |mem| && mem[ring[k]].next < |mem|
    requires ring[0] < |mem| && Unlinked(mem, ring[k])[ring[0]].prev < |mem|
    ensures Holds(Relinked(Unlinked(mem, ring[k]), ring[0], ring[k]), Without(ring, k) + [ring[k]], n, cursor, left,
        deque)
  {
    hide Ring, Holds, Unlinked, Relinked;
    PageMoved(mem, ring, k);
    var mem', ring' := Relinked(Unlinked(mem, ring[k]), ring[0], ring[k]), Without(ring, k) + [ring[k]];
    RingBounds(mem', ring');
    RingBounds(mem, ring);
    assert ring'[..n] == ring[..n];
    HoldsOn(mem, mem', ring, ring', n, cursor, left, deque);
  }

  method Memcpy(buf: array<u8>, at: nat, data: seq<u8>)
    requires at + |data| <= buf.Length
    modifies buf
    ensures buf[..] == old(buf[..at]) + data + old(buf[at + |data|..])
  {
    var i := 0;
    while i < |data|
      invariant 0 <= i <= |data|
      invariant buf[..] == old(buf[..at]) + data[..i] + old(buf[at + i..])
    {
      CopiedOne(old(buf[..]), at, data, i);
      buf[at + i] := data[i];
      i := i + 1;
    }
    assert data[..i] == data;
  }

  lemma CopiedOne(was: seq<u8>, at: nat, data: seq<u8>, i: nat)
    requires at + |data| <= |was| && i < |data|
    ensures (was[..at] + data[..i] + was[at + i..])[at + i := data[i]] == was[..at] + data[..i + 1] + was[at + i + 1..]
  {}

  lemma OnePiece(data: seq<u8>)
    ensures Joined([data]) == data
  {
    assert [data][1..] == [] && data + [] == data;
  }

  lemma JoinedNone()
    ensures Joined([]) == []
  {}

  lemma JoinedFrom(iov: seq<seq<u8>>, i: nat)
    requires i < |iov|
    ensures Joined(iov[i..]) == iov[i] + Joined(iov[i + 1..])
  {
    assert iov[i..][1..] == iov[i + 1..];
  }

  lemma {:induction false} JoinedUpTo(iov: seq<seq<u8>>, i: nat)
    requires i < |iov|
    ensures Joined(iov[..i + 1]) == Joined(iov[..i]) + iov[i]
    ensures |Joined(iov[..i])| + |iov[i]| <= |Joined(iov)|
  {
    JoinedSnoc(iov[..i], iov[i]);
    assert iov[..i + 1] == iov[..i] + [iov[i]];
    JoinedSplit(iov, i + 1);
  }

  lemma {:induction false} JoinedSplit(iov: seq<seq<u8>>, i: nat)
    requires i <= |iov|
    ensures Joined(iov) == Joined(iov[..i]) + Joined(iov[i..])
    decreases i
  {
    if i == 0 {
      assert iov[..0] == [] && iov[0..] == iov;
    } else {
      JoinedSplit(iov[1..], i - 1);
      assert iov[..i][1..] == iov[1..][..i - 1] && iov[1..][i - 1..] == iov[i..];
    }
  }

  lemma WrittenOn(mem: Memory, p: nat, at: nat, data: seq<u8>, more: seq<u8>)
    requires p < |mem| && at + |data| + |more| <= |mem[p].bytes|
    ensures Written(Written(mem, p, at, data), p, at + |data|, more) == Written(mem, p, at, data + more)
  {
    var b, n := mem[p].bytes, at + |data|;
    var b1 := b[..at] + data + b[n..];
    assert b1[..n] + more + b1[n + |more|..] == b[..at] + (data + more) + b[n + |more|..];
  }

  /** The buffer's bytes, on one page or several. */
  lemma HeldBytes(mem: Memory, ring: seq<nat>, n: nat, cursor: nat, left: nat, deque: EmitSpace.Space)
    requires Ring(mem, ring) && Holds(mem, ring, n, cursor, left, deque) && cursor <= PAGE_SIZE && left <= PAGE_SIZE
    ensures n == 1 ==>
        cursor + |deque.bytes| <= PAGE_SIZE && mem[ring[0]].bytes[cursor..cursor + |deque.bytes|] == deque.bytes
    ensures n > 1 ==> Content(mem, ring[..1]) == mem[ring[0]].bytes && PAGE_SIZE - cursor <= |deque.bytes|
  {
    assert ring[..n][1..] == ring[1..n] && ring[..1][1..] == [];
    assert Content(mem, ring[..n]) == mem[ring[0]].bytes + Content(mem, ring[1..n]);
    if n > 1 {
      assert ring[1..n] == ring[1..n - 1] + [ring[n - 1]];
      ContentSnoc(mem, ring[1..n - 1], ring[n - 1]);
    }
  }

  lemma HeldUpTo(mem: Memory, ring: seq<nat>, n: nat, cursor: nat, left: nat, deque: EmitSpace.Space, i: nat)
    requires Ring(mem, ring) && Holds(mem, ring, n, cursor, left, deque) && cursor <= PAGE_SIZE && left <= PAGE_SIZE
    requires 1 <= i < n
    ensures ring[i] < |mem| && |mem[ring[i]].bytes| == PAGE_SIZE
    ensures Content(mem, ring[..i + 1]) == Content(mem, ring[..i]) + mem[ring[i]].bytes
    ensures i < n - 1 ==> |Content(mem, ring[..i + 1])| - cursor <= |deque.bytes|
    ensures i == n - 1 && cursor <= |Content(mem, ring[..i])| ==>
      deque.bytes == Content(mem, ring[..i])[cursor..] + mem[ring[i]].bytes[..PAGE_SIZE - left]
  {
    assert ring[..i + 1] == ring[..i] + [ring[i]];
    ContentSnoc(mem, ring[..i], ring[i]);
    if i < n - 1 {
      ContentPrefix(mem, ring[..n - 1], i + 1);
      assert ring[..n] == ring[..n - 1] + [ring[n - 1]];
      ContentSnoc(mem, ring[..n - 1], ring[n - 1]);
      assert ring[..n - 1][..i + 1] == ring[..i + 1];
    }
  }

  lemma {:induction false} ContentPrefix(mem: Memory, pages: seq<nat>, i: nat)
    requires (forall j | 0 <= j < |pages| :: pages[j] < |mem|) && i <= |pages|
    ensures |Content(mem, pages[..i])| <= |Content(mem, pages)|
    decreases i
  {
    if i > 0 {
      ContentPrefix(mem, pages[1..], i - 1);
      assert pages[..i][1..] == pages[1..][..i - 1];
    }
  }

  lemma FrontMarked(mem: Memory, ring: seq<nat>)
    requires Ring(mem, ring) && |ring| > 0
    ensures ring[0] < |mem|
    ensures var mem' := mem[ring[0] := mem[ring[0]].(pageOffset := 0 - PAGE_SIZE / 2)];
            && Ring(mem', ring) && (mem'[ring[0]].next == ring[0] <==> |ring| == 1)
            && Holds(mem', ring, 1, PAGE_SIZE / 2, PAGE_SIZE - PAGE_SIZE / 2, EmitSpace.Space(0, []))
  {
    var mem' := mem[ring[0] := mem[ring[0]].(pageOffset := 0 - PAGE_SIZE / 2)];
    RingKept(mem, mem', ring);
    Neighbours(mem', ring, 1);
    assert ring[..1] == [ring[0]] && [ring[0]][1..] == [];
    assert Content(mem', [ring[0]]) == mem'[ring[0]].bytes + Content(mem', []);
  }

  lemma RingBounds(mem: Memory, ring: seq<nat>)
    requires Ring(mem, ring)
    ensures forall i | 0 <= i < |ring| :: 0 < ring[i] < |mem| && |mem[ring[i]].bytes| == PAGE_SIZE
    ensures |ring| > 1 ==> ring[0] != ring[|ring| - 1]
    ensures forall i | 0 < i < |ring| - 1 :: ring[i] != ring[0] && ring[i] != ring[|ring| - 1]
  {}

  lemma OnePage(mem: Memory, p: nat)
    requires 0 < p < |mem| && mem[p].next == p && mem[p].prev == p && |mem[p].bytes| == PAGE_SIZE
    requires mem[p].pageOffset == 0 - PAGE_SIZE / 2
    ensures Ring(mem, [p]) && Holds(mem, [p], 1, PAGE_SIZE / 2, PAGE_SIZE - PAGE_SIZE / 2, EmitSpace.Space(0, []))
  {
    assert Link(mem, [p], 0);
    assert [p][..1] == [p] && [p][1..] == [];
    assert Content(mem, [p]) == mem[p].bytes + Content(mem, []);
  }

  /** Page p linked in between the last page of the ring and the first. */
  lemma PageAdded(mem: Memory, mem': Memory, ring: seq<nat>, p: nat)
    requires Ring(mem, ring) && |ring| > 0 && p !in ring && 0 < p < |mem'| && |mem| <= |mem'|
    requires forall i | 0 < i < |ring| - 1 :: mem'[ring[i]] == mem[ring[i]]
    requires mem'[p].next == ring[0] && mem'[p].prev == ring[|ring| - 1] && |mem'[p].bytes| == PAGE_SIZE
    requires mem'[ring[0]].prev == p && mem'[ring[|ring| - 1]].next == p
    requires |ring| > 1 ==>
        mem'[ring[0]] == mem[ring[0]].(prev := p) && mem'[ring[|ring| - 1]] == mem[ring[|ring| - 1]].(next := p)
    requires mem'[ring[0]].bytes == mem[ring[0]].bytes
    ensures Ring(mem', ring + [p])
  {
    var ring' := ring + [p];
    forall i | 0 <= i < |ring'| ensures Link(mem', ring', i) {
      if i < |ring| { assert Link(mem, ring, i); }
    }
  }

  ghost function Without(ring: seq<nat>, k: nat): seq<nat>
    requires k < |ring|
  {
    ring[..k] + ring[k + 1..]
  }

  /** Page k unlinked: its neighbours point past it. */
  lemma PageRemoved(mem: Memory, ring: seq<nat>, k: nat)
    requires Ring(mem, ring) && 0 < k < |ring|
    ensures mem[ring[k]].prev == ring[k - 1] && mem[ring[k]].next == ring[Succ(k, |ring|)]
    ensures ring[k - 1] < |mem| && ring[Succ(k, |ring|)] < |mem| && ring[k] !in Without(ring, k)
    ensures Ring(Unlinked(mem, ring[k]), Without(ring, k))
    ensures forall i | 0 <= i < |mem| ::
        Unlinked(mem, ring[k])[i].bytes == mem[i].bytes && Unlinked(mem, ring[k])[i].pageOffset == mem[i].pageOffset
  {
    hide Ring, Link;
    LinkAt(mem, ring, k - 1);
    LinkAt(mem, ring, k);
    RingBounds(mem, ring);
    WithoutOne(mem, ring, k);
    forall i | 0 <= i < |ring| - 1
      ensures Link(Unlinked(mem, ring[k]), Without(ring, k), i)
    {
      LinkPast(mem, ring, k, i);
    }
    AsRing(Unlinked(mem, ring[k]), Without(ring, k));
  }

  lemma LinkAt(mem: Memory, ring: seq<nat>, i: nat)
    requires Ring(mem, ring) && i < |ring|
    ensures 0 < ring[i] < |mem| && ring[Succ(i, |ring|)] < |mem|
    ensures mem[ring[i]].next == ring[Succ(i, |ring|)] && mem[ring[Succ(i, |ring|)]].prev == ring[i]
  {
    assert Link(mem, ring, i);
  }

  lemma AsRing(mem: Memory, ring: seq<nat>)
    requires (forall i, j | 0 <= i < j < |ring| :: ring[i] != ring[j])
    requires (forall i | 0 <= i < |ring| :: 0 < ring[i] < |mem| && |mem[ring[i]].bytes| == PAGE_SIZE)
    requires (forall i | 0 <= i < |ring| :: Link(mem, ring, i))
    ensures Ring(mem, ring)
  {}

  lemma WithoutOne(mem: Memory, ring: seq<nat>, k: nat)
    requires Ring(mem, ring) && k < |ring|
    ensures |Without(ring, k)| == |ring| - 1 && ring[k] !in Without(ring, k)
    ensures forall i | 0 <= i < |ring| - 1 :: Without(ring, k)[i] == ring[if i < k then i else i + 1]
    ensures forall i, j | 0 <= i < j < |ring| - 1 :: Without(ring, k)[i] != Without(ring, k)[j]
  {}

  /** The links of the ring without page k. */
  lemma LinkPast(mem: Memory, ring: seq<nat>, k: nat, i: nat)
    requires Ring(mem, ring) && 0 < k < |ring| && i < |ring| - 1
    requires mem[ring[k]].prev == ring[k - 1] && mem[ring[k]].next == ring[Succ(k, |ring|)]
    requires ring[k - 1] < |mem| && ring[Succ(k, |ring|)] < |mem|
    ensures Link(Unlinked(mem, ring[k]), Without(ring, k), i)
  {
    hide Ring;
    WithoutOne(mem, ring, k);
    RingBounds(mem, ring);
    var o := if i < k then i else i + 1;
    LinkAt(mem, ring, o);
    Distinct(mem, ring, o, k - 1);
    Distinct(mem, ring, Succ(o, |ring|), Succ(k, |ring|));
    Distinct(mem, ring, Succ(o, |ring|), k);
  }

  lemma Distinct(mem: Memory, ring: seq<nat>, i: nat, j: nat)
    requires Ring(mem, ring) && i < |ring| && j < |ring|
    ensures ring[i] == ring[j] <==> i == j
  {}

  function Unlinked(mem: Memory, p: nat): (mem': Memory)
    requires p < |mem| && mem[p].prev < |mem| && mem[p].next < |mem|
    ensures |mem'| == |mem|
  {
    var next, prev := mem[p].next, mem[p].prev;
    var mem1 := mem[next := mem[next].(prev := prev)];
    mem1[prev := mem1[prev].(next := next)]
  }

  function Rotated(ring: seq<nat>): seq<nat>
    requires |ring| > 0
  {
    [ring[|ring| - 1]] + ring[..|ring| - 1]
  }

  lemma RingRotated(mem: Memory, mem': Memory, ring: seq<nat>)
    requires Ring(mem, ring) && |ring| > 0 && |mem'| == |mem|
    requires forall i | 0 <= i < |mem| :: mem'[i] == mem[i].(pageOffset := mem'[i].pageOffset)
    ensures Ring(mem', Rotated(ring)) && mem[ring[0]].prev == ring[|ring| - 1] && mem[ring[|ring| - 1]].next == ring[0]
  {
    var n := |ring|;
    assert Link(mem, ring, n - 1);
    forall i | 0 <= i < n ensures Link(mem', Rotated(ring), i) {
      assert Link(mem, ring, if i == 0 then n - 1 else i - 1);
    }
  }

  lemma RingKept(mem: Memory, mem': Memory, ring: seq<nat>)
    requires Ring(mem, ring) && |mem'| == |mem|
    requires forall i | 0 <= i < |mem| ::
        mem'[i].next == mem[i].next && mem'[i].prev == mem[i].prev && |mem'[i].bytes| == |mem[i].bytes|
    ensures Ring(mem', ring)
  {
    forall i | 0 <= i < |ring| ensures Link(mem', ring, i) { assert Link(mem, ring, i); }
  }

  lemma Neighbours(mem: Memory, ring: seq<nat>, live: nat)
    requires Ring(mem, ring) && 1 <= live <= |ring|
    ensures mem[ring[0]].prev == ring[|ring| - 1] && 0 < ring[|ring| - 1] < |mem|
    ensures mem[ring[0]].prev == ring[live - 1] <==> live == |ring|
    ensures mem[ring[live - 1]].next == (if live == |ring| then ring[0] else ring[live])
    ensures mem[ring[live - 1]].next == ring[0] <==> live == |ring|
    ensures ring[0] == ring[live - 1] <==> live == 1
  {
    assert Link(mem, ring, |ring| - 1) && Link(mem, ring, live - 1);
  }

  lemma HoldsOn(mem: Memory, mem': Memory, ring: seq<nat>, ring': seq<nat>, n: nat, cursor: nat, left: nat,
      deque: EmitSpace.Space)
    requires Holds(mem, ring, n, cursor, left, deque) && n <= |ring'| && ring'[..n] == ring[..n]
    requires forall i | 0 <= i < |ring'| :: ring'[i] < |mem'|
    requires forall i | 0 <= i < n ::
        mem'[ring[i]].bytes == mem[ring[i]].bytes && mem'[ring[i]].pageOffset == mem[ring[i]].pageOffset
    ensures Holds(mem', ring', n, cursor, left, deque)
  {
    ContentKept(mem, mem', ring[..n]);
    assert forall i | 0 <= i < n :: ring'[i] == ring[..n][i] == ring[i];
    forall i | 0 < i < n ensures Apart(mem', ring', i) { assert Apart(mem, ring, i); }
  }

  lemma FrontTaken(mem: Memory, mem': Memory, ring: seq<nat>, n: nat, left: nat, deque: EmitSpace.Space)
    requires Ring(mem, ring) && Holds(mem, ring, n, 0, left, deque) && n < |ring|
    requires mem' == mem[ring[|ring| - 1] := mem[ring[|ring| - 1]].(pageOffset := mem[ring[0]].pageOffset - PAGE_SIZE)]
    ensures Holds(mem', Rotated(ring), n + 1, PAGE_SIZE, left, deque)
  {
    var p, ring' := ring[|ring| - 1], Rotated(ring);
    assert ring'[..n + 1] == [p] + ring[..n];
    assert ([p] + ring[..n])[1..] == ring[..n];
    ContentKept(mem, mem', ring[..n]);
    forall i | 0 < i < n + 1 ensures Apart(mem', ring', i) {
      assert ring'[i] == ring[i - 1];
      if i > 1 { assert Apart(mem, ring, i - 1); }
    }
    assert Content(mem', ring'[..n + 1]) == mem'[p].bytes + Content(mem, ring[..n]);
  }

  lemma BackTaken(mem: Memory, mem': Memory, ring: seq<nat>, n: nat, cursor: nat, deque: EmitSpace.Space)
    requires Ring(mem, ring) && Holds(mem, ring, n, cursor, 0, deque) && n < |ring|
    requires mem' == mem[ring[n] := mem[ring[n]].(pageOffset := mem[ring[n - 1]].pageOffset + PAGE_SIZE)]
    ensures Holds(mem', ring, n + 1, cursor, PAGE_SIZE, deque)
  {
    assert ring[..n + 1] == ring[..n] + [ring[n]];
    ContentKept(mem, mem', ring[..n]);
    ContentSnoc(mem', ring[..n], ring[n]);
    forall i | 0 < i < n + 1 ensures Apart(mem', ring, i) {
      if i < n { assert Apart(mem, ring, i); }
    }
  }

  /** Page p with data written over its bytes from `at`. */
  function Written(mem: Memory, p: nat, at: nat, data: seq<u8>): (mem': Memory)
    requires p < |mem| && at + |data| <= |mem[p].bytes|
  {
    mem[p := mem[p].(bytes := mem[p].bytes[..at] + data + mem[p].bytes[at + |data|..])]
  }

  lemma WrittenRing(mem: Memory, ring: seq<nat>, p: nat, at: nat, data: seq<u8>)
    requires Ring(mem, ring) && p in ring && at + |data| <= PAGE_SIZE
    ensures |Written(mem, p, at, data)| == |mem| && Ring(Written(mem, p, at, data), ring)
  {
    RingKept(mem, Written(mem, p, at, data), ring);
  }

  lemma FrontWritten(mem: Memory, ring: seq<nat>, n: nat, cursor: nat, left: nat, deque: EmitSpace.Space, data: seq<u8>)
    requires Ring(mem, ring) && Holds(mem, ring, n, cursor, left, deque) && |data| <= cursor <= PAGE_SIZE
    ensures Holds(Written(mem, ring[0], cursor - |data|, data), ring, n, cursor - |data|, left,
        Layout.EmitFront(deque, data))
  {
    var mem' := Written(mem, ring[0], cursor - |data|, data);
    var pages := ring[..n];
    ContentKept(mem, mem', pages[1..]);
    forall i | 0 < i < n ensures Apart(mem', ring, i) { assert Apart(mem, ring, i); }
    var all, all' := Content(mem, pages), Content(mem', pages);
    assert all[cursor..|all| - left] == deque.bytes;
    assert all' == mem'[ring[0]].bytes + Content(mem, pages[1..]);
    assert all'[cursor - |data|..|all'| - left] == data + all[cursor..|all| - left];
  }

  lemma BackWritten(mem: Memory, ring: seq<nat>, n: nat, cursor: nat, left: nat, deque: EmitSpace.Space, data: seq<u8>)
    requires Ring(mem, ring) && Holds(mem, ring, n, cursor, left, deque) && |data| <= left <= PAGE_SIZE
    ensures Holds(Written(mem, ring[n - 1], PAGE_SIZE - left, data), ring, n, cursor, left - |data|,
        Layout.EmitBack(deque, data))
  {
    var mem' := Written(mem, ring[n - 1], PAGE_SIZE - left, data);
    var pages := ring[..n - 1];
    assert ring[..n] == pages + [ring[n - 1]];
    ContentKept(mem, mem', pages);
    ContentSnoc(mem, pages, ring[n - 1]);
    ContentSnoc(mem', pages, ring[n - 1]);
    forall i | 0 < i < n ensures Apart(mem', ring, i) { assert Apart(mem, ring, i); }
    var all, all' := Content(mem, ring[..n]), Content(mem', ring[..n]);
    var last := mem[ring[n - 1]].bytes;
    assert all == Content(mem, pages) + last;
    assert all' == Content(mem, pages) + (last[..PAGE_SIZE - left] + data + last[PAGE_SIZE - left + |data|..]);
    assert all'[..|all| - left] == all[..|all| - left];
    assert all'[cursor..|all'| - (left - |data|)] == all[cursor..|all| - left] + data;
  }
}
