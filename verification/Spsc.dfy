/** The lock-free single-producer single-consumer queue between the two cores. Every access to a shared
    location is a step of its own, and a core may see any old value of what the other core writes, as
    long as it never sees one older than it has seen before. */
module Spsc {
  import opened Bytes
  import opened Options

  /** Where each core is inside its current call. */
  datatype Producer = PIdle | PAdd(data: u8) | PStored
  datatype Consumer = CIdle | CTake(view: nat) | CHave(value: u8) | CFlush(view: nat)

  /** How many bytes were ever published and consumed, what each core last saw of the other, the
      producer's stores to buffer slots in order, what became of the consumed bytes, and how often each
      core has looked at the other's index. The indices in memory are `head` and `tail` reduced by the
      mask. */
  datatype State = State(cap: nat, head: nat, tail: nat, seenTail: nat, seenHead: nat,
                         stores: seq<(nat, u8)>, p: Producer, c: Consumer,
                         delivered: seq<bool>, removed: seq<u8>, tailLooks: nat, headLooks: nat)

  datatype Step =
    | ObserveTail(data: u8, view: nat)     // try_add tests for full against some published tail
    | Store                                // try_add writes the slot
    | PublishHead                          // try_add, after the release barrier
    | ObserveFree(view: nat)               // free, called by the producer
    | SeeHead(view: nat)                   // level and is_empty, called by the consumer
    | ObserveHead(view: nat)               // try_remove and try_peek test for empty
    | Load(version: nat)                   // the slot is read, after the acquire barrier
    | PublishTail                          // try_remove, after the release barrier
    | EndPeek
    | ObserveFlush(view: nat)
    | PublishFlush

  function Masked(x: nat, cap: nat): (r: nat)
    requires cap >= 1
    ensures r < cap
  {
    x % cap
  }

  /** A store the consumer may read from a slot once it has acquired the first `view` stores: any one
      to that slot which no acquired store to it supersedes. */
  predicate Visible(s: State, slot: nat, view: nat, version: nat) {
    && version < |s.stores| && s.stores[version].0 == slot
    && forall k | version < k < view && k < |s.stores| :: s.stores[k].0 != slot
  }

  function Init(cap: nat): State {
    State(cap, 0, 0, 0, 0, [], PIdle, CIdle, [], [], 0, 0)
  }

  function Next(s: State, step: Step): Option<State>
    requires s.cap >= 1
  {
    match step
    case ObserveTail(data, view) =>
      if !(s.p.PIdle? && s.seenTail <= view <= s.tail) then None else
      var full := Masked(Masked(s.head, s.cap) + 1, s.cap) == Masked(view, s.cap);
      Some(s.(seenTail := view, tailLooks := s.tailLooks + 1, p := if full then PIdle else PAdd(data)))
    case Store =>
      if !s.p.PAdd? then None else
      Some(s.(stores := s.stores + [(Masked(s.head, s.cap), s.p.data)], p := PStored))
    case PublishHead => if !s.p.PStored? then None else Some(s.(head := s.head + 1, p := PIdle))
    case ObserveFree(view) =>
      if !(s.p.PIdle? && s.seenTail <= view <= s.tail) then None else
      Some(s.(seenTail := view, tailLooks := s.tailLooks + 1))
    case SeeHead(view) =>
      if !(s.c.CIdle? && s.seenHead <= view <= s.head) then None else
      Some(s.(seenHead := view, headLooks := s.headLooks + 1))
    case ObserveHead(view) =>
      if !(s.c.CIdle? && s.seenHead <= view <= s.head) then None else
      Some(s.(seenHead := view, headLooks := s.headLooks + 1,
              c := if Masked(s.tail, s.cap) == Masked(view, s.cap) then CIdle else CTake(view)))
    case Load(version) =>
      if !(s.c.CTake? && Visible(s, Masked(s.tail, s.cap), s.c.view, version)) then None else
      Some(s.(c := CHave(s.stores[version].1)))
    case PublishTail =>
      if !s.c.CHave? then None else
      Some(s.(tail := s.tail + 1, c := CIdle, delivered := s.delivered + [true], removed := s.removed + [s.c.value]))
    case EndPeek => if !s.c.CHave? then None else Some(s.(c := CIdle))
    case ObserveFlush(view) =>
      if !(s.c.CIdle? && s.seenHead <= view <= s.head) then None else
      Some(s.(seenHead := view, headLooks := s.headLooks + 1, c := CFlush(view)))
    case PublishFlush =>
      if !(s.c.CFlush? && s.tail <= s.c.view) then None else
      Some(s.(tail := s.c.view, c := CIdle, delivered := s.delivered + seq(s.c.view - s.tail, i => false)))
  }

  function Exec(s: State, steps: seq<Step>): Option<State>
    requires s.cap >= 1
    decreases |steps|
  {
    if steps == [] then Some(s) else
    var t := Next(s, steps[0]);
    if t.None? then None else Exec(t.value, steps[1..])
  }

  // ---- what the queue promises ------------------------------------------------------------------

  /** The bytes published so far. */
  function Added(s: State): (bytes: seq<u8>)
    ensures |bytes| == s.head
  {
    seq(s.head, i requires 0 <= i => if i < |s.stores| then s.stores[i].1 else 0)
  }

  /** The bytes that were delivered rather than dropped. */
  function Kept(bytes: seq<u8>, delivered: seq<bool>): seq<u8>
    requires |bytes| == |delivered|
    decreases |bytes|
  {
    if bytes == [] then [] else
    var n := |bytes| - 1;
    Kept(bytes[..n], delivered[..n]) + if delivered[n] then [bytes[n]] else []
  }

  ghost predicate Inv(s: State) {
    && s.cap >= 1
    && s.seenTail <= s.tail <= s.seenHead <= s.head < s.seenTail + s.cap
    && |s.stores| == s.head + (if s.p.PStored? then 1 else 0)
    && (forall k | 0 <= k < |s.stores| :: s.stores[k].0 == Masked(k, s.cap))
    && (!s.p.PIdle? ==> s.head + 1 < s.seenTail + s.cap)
    && (s.c.CTake? ==> s.tail < s.c.view == s.seenHead)
    && (s.c.CHave? ==> s.tail < s.seenHead && s.c.value == s.stores[s.tail].1)
    && (s.c.CFlush? ==> s.tail <= s.c.view == s.seenHead)
    && |s.delivered| == s.tail && s.removed == Kept(Added(s)[..s.tail], s.delivered)
  }

  /** Counters less than a lap apart have the same index only when they are equal. */
  lemma SameIndex(x: nat, y: nat, cap: nat)
    requires cap >= 1 && x <= y < x + cap
    ensures Masked(x, cap) == Masked(y, cap) <==> x == y
  {
    if x % cap == y % cap {
      var d := y / cap - x / cap;
      assert y - x == d * cap;
      if d >= 1 { MulAtLeast(d, cap); } else if d <= -1 { MulAtLeast(-d, cap); }
    }
  }

  lemma NextIndex(x: nat, cap: nat)
    requires cap >= 1
    ensures Masked(Masked(x, cap) + 1, cap) == Masked(x + 1, cap)
  {
    ModOfSum(x % cap + 1, x / cap, cap);
    assert x % cap + 1 + x / cap * cap == x + 1;
  }

  /** The full test compares exact counts, however old the tail it saw. */
  lemma FullTest(s: State, view: nat)
    requires Inv(s) && s.seenTail <= view <= s.tail
    ensures Masked(Masked(s.head, s.cap) + 1, s.cap) == Masked(view, s.cap) <==> s.head + 1 == view + s.cap
  {
    NextIndex(s.head, s.cap);
    ModOfSum(view, 1, s.cap);
    if s.head + 1 < view + s.cap { SameIndex(view, s.head + 1, s.cap); }
  }

  lemma EmptyTest(s: State, view: nat)
    requires Inv(s) && s.seenHead <= view <= s.head
    ensures Masked(s.tail, s.cap) == Masked(view, s.cap) <==> view == s.tail
  {
    SameIndex(s.tail, view, s.cap);
  }

  /** Although the consumer may read any store its view does not rule out, there is only one: the
      byte added at the tail. Older stores to the slot are superseded, and none newer can exist. */
  lemma OnlyVersion(s: State, version: nat)
    requires Inv(s) && s.c.CTake?
    ensures Visible(s, Masked(s.tail, s.cap), s.c.view, version) <==> version == s.tail
  {
    assert s.stores[s.tail].0 == Masked(s.tail, s.cap);
    forall k | s.tail < k < |s.stores| ensures s.stores[k].0 != Masked(s.tail, s.cap) {
      SameIndex(s.tail, k, s.cap);
    }
  }

  /** The slot the producer is about to write holds no byte still to be read. */
  lemma SlotFree(s: State)
    requires Inv(s) && s.p.PAdd?
    ensures forall k | s.tail <= k < s.head :: s.stores[k].0 != Masked(s.head, s.cap)
    ensures s.c.CTake? || s.c.CHave? ==> Masked(s.tail, s.cap) != Masked(s.head, s.cap)
  {
    forall k | s.tail <= k < s.head ensures s.stores[k].0 != Masked(s.head, s.cap) {
      SameIndex(k, s.head, s.cap);
    }
    SameIndex(s.tail, s.head, s.cap);
  }

  lemma KeptSnoc(bytes: seq<u8>, delivered: seq<bool>, b: u8, d: bool)
    requires |bytes| == |delivered|
    ensures Kept(bytes + [b], delivered + [d]) == Kept(bytes, delivered) + if d then [b] else []
  {
    assert (bytes + [b])[..|bytes|] == bytes && (delivered + [d])[..|bytes|] == delivered;
  }

  lemma {:induction false} KeptDropped(bytes: seq<u8>, delivered: seq<bool>, more: seq<u8>)
    requires |bytes| == |delivered|
    ensures Kept(bytes + more, delivered + seq(|more|, i => false)) == Kept(bytes, delivered)
    decreases |more|
  {
    if more == [] {
      assert bytes + more == bytes && delivered + seq(|more|, i => false) == delivered;
    } else {
      var n := |more| - 1;
      KeptDropped(bytes, delivered, more[..n]);
      KeptSnoc(bytes + more[..n], delivered + seq(n, i => false), more[n], false);
      assert bytes + more == bytes + more[..n] + [more[n]];
      assert delivered + seq(|more|, i => false) == delivered + seq(n, i => false) + [false];
    }
  }

  lemma {:induction false} KeptAll(bytes: seq<u8>, delivered: seq<bool>)
    requires |bytes| == |delivered| && forall i | 0 <= i < |delivered| :: delivered[i]
    ensures Kept(bytes, delivered) == bytes
    decreases |bytes|
  {
    if bytes != [] {
      var n := |bytes| - 1;
      KeptAll(bytes[..n], delivered[..n]);
      assert bytes == bytes[..n] + [bytes[n]];
    }
  }

  lemma InitInv(cap: nat)
    requires cap >= 1
    ensures Inv(Init(cap))
  {}

  predicate ByProducer(step: Step) {
    step.ObserveTail? || step.Store? || step.PublishHead? || step.ObserveFree?
  }

  lemma ProducerKeeps(s: State, step: Step)
    requires Inv(s) && Next(s, step).Some? && ByProducer(step)
    ensures Inv(Next(s, step).value)
  {
    hide Masked, Kept;
    var t := Next(s, step).value;
    assert Added(t)[..s.tail] == Added(s)[..s.tail];
    if step.ObserveTail? { FullTest(s, step.view); }
  }

  lemma ConsumerKeeps(s: State, step: Step)
    requires Inv(s) && Next(s, step).Some? && !ByProducer(step)
    ensures Inv(Next(s, step).value)
  {
    hide Masked, Kept, Visible;
    assert Added(Next(s, step).value) == Added(s);
    match step
    case ObserveHead(view) => EmptyTest(s, view);
    case Load(version) => OnlyVersion(s, version);
    case PublishTail =>
      assert Added(s)[..s.tail + 1] == Added(s)[..s.tail] + [s.stores[s.tail].1];
      KeptSnoc(Added(s)[..s.tail], s.delivered, s.c.value, true);
    case PublishFlush => FlushDrops(s);
    case _ =>
  }

  /** Every step of either core keeps the invariant. */
  lemma StepKeeps(s: State, step: Step)
    requires Inv(s) && Next(s, step).Some?
    ensures Inv(Next(s, step).value) && Next(s, step).value.cap == s.cap
  {
    hide Inv;
    if ByProducer(step) { ProducerKeeps(s, step); } else { ConsumerKeeps(s, step); }
  }

  /** A flush consumes exactly the bytes up to the head it saw, delivering none. */
  lemma FlushDrops(s: State)
    requires Inv(s) && s.c.CFlush?
    ensures Kept(Added(s)[..s.c.view], s.delivered + seq(s.c.view - s.tail, i => false))
        == Kept(Added(s)[..s.tail], s.delivered)
  {
    hide Masked, Kept;
    var dropped := Added(s)[s.tail..s.c.view];
    assert Added(s)[..s.c.view] == Added(s)[..s.tail] + dropped;
    KeptDropped(Added(s)[..s.tail], s.delivered, dropped);
  }

  /** Over every interleaving of the two cores and every choice of stale views: what is delivered is,
      in order, what was added, less what flushes dropped; at most cap - 1 bytes are held; and nothing
      delivered or dropped earlier changes. */
  lemma {:induction false} RunKeeps(s: State, steps: seq<Step>)
    requires Inv(s) && Exec(s, steps).Some?
    ensures var t := Exec(s, steps).value;
            && Inv(t) && t.cap == s.cap && t.head - t.tail < t.cap
            && Added(s) <= Added(t) && s.delivered <= t.delivered && s.removed <= t.removed
    decreases |steps|
  {
    if steps != [] {
      StepKeeps(s, steps[0]);
      var t := Next(s, steps[0]).value;
      RunKeeps(t, steps[1..]);
      hide Inv, Next, Masked, Kept;
      StepExtends(s, steps[0]);
    }
  }

  lemma StepExtends(s: State, step: Step)
    requires Inv(s) && Next(s, step).Some?
    ensures var t := Next(s, step).value;
            && t.head <= |t.stores| && Added(s) <= Added(t) && s.delivered <= t.delivered && s.removed <= t.removed
            && s.tailLooks <= t.tailLooks && s.headLooks <= t.headLooks
  {
    hide Masked, Kept;
    var t := Next(s, step).value;
    assert s.stores <= t.stores;
  }

  predicate IsFlush(step: Step) { step.PublishFlush? }

  /** Without a flush the delivered bytes are a prefix of the added ones. */
  lemma {:induction false} NoFlushPrefix(cap: nat, steps: seq<Step>)
    requires cap >= 1 && Exec(Init(cap), steps).Some?
    requires forall i | 0 <= i < |steps| :: !IsFlush(steps[i])
    ensures var t := Exec(Init(cap), steps).value;
            t.head <= |t.stores| && t.removed <= Added(t) && |t.removed| == t.tail
  {
    InitInv(cap);
    RunKeeps(Init(cap), steps);
    AllDelivered(Init(cap), steps);
    var t := Exec(Init(cap), steps).value;
    KeptAll(Added(t)[..t.tail], t.delivered);
  }

  lemma {:induction false} AllDelivered(s: State, steps: seq<Step>)
    requires Inv(s) && Exec(s, steps).Some? && forall i | 0 <= i < |steps| :: !IsFlush(steps[i])
    requires forall i | 0 <= i < |s.delivered| :: s.delivered[i]
    ensures var t := Exec(s, steps).value; forall i | 0 <= i < |t.delivered| :: t.delivered[i]
    decreases |steps|
  {
    hide Masked, Kept;
    if steps != [] {
      StepKeeps(s, steps[0]);
      AllDelivered(Next(s, steps[0]).value, steps[1..]);
    }
  }

  // ---- free space --------------------------------------------------------------------------------

  /** Bytes between two indices as the level test computes it: a 32-bit difference, masked. */
  function Level(head: nat, tail: nat, cap: nat): nat
    requires cap >= 1
  {
    Wrap32(head - tail) % cap
  }

  /** Wrapping at 32 bits does not show under the mask of a power-of-two capacity. */
  lemma WrapUnderMask(x: int, cap: nat)
    requires IsPow2(cap) && 1 <= cap <= TWO_32
    ensures Wrap32(x) % cap == x % cap
  {
    hide IsPow2, Wrap32;
    var q := LapsIn32(cap);
    var k := WrapMultiple(x, q, cap);
    ModOfSum(x, k, cap);
  }

  lemma LapsIn32(cap: nat) returns (q: int)
    requires IsPow2(cap) && 1 <= cap <= TWO_32
    ensures TWO_32 == q * cap
  {
    hide IsPow2;
    PowerOf32();
    Pow2Divides(cap, TWO_32);
    q := MultipleQuotient(TWO_32, cap);
  }

  lemma WrapMultiple(x: int, q: int, cap: nat) returns (k: int)
    requires TWO_32 == q * cap
    ensures Wrap32(x) == x + k * cap
  {
    var w := x / TWO_32;
    assert x % TWO_32 == x - w * TWO_32;
    ProductRegroup(w, q, cap);
    NegatedProduct(w * q, cap);
    k := -(w * q);
  }

  lemma IndexDistance(h: nat, t: nat, cap: nat)
    requires cap >= 1 && t <= h < t + cap
    ensures (Masked(h, cap) - Masked(t, cap)) % cap == h - t
  {
    var a, b: int := h / cap, t / cap;
    var x: int, y: int := Masked(h, cap), Masked(t, cap);
    assert h == a * cap + x && t == b * cap + y;
    DistributedProduct(b, a, cap);
    ModUnique(x - y, b - a, h - t, cap);
  }

  lemma DistributedProduct(b: int, a: int, c: int)
    ensures (b - a) * c == b * c - a * c
  {}

  /** On counters less than a lap apart it is their distance, even when the indices have wrapped. */
  lemma LevelCounts(h: nat, t: nat, cap: nat)
    requires IsPow2(cap) && 1 <= cap <= TWO_32 && t <= h < t + cap
    ensures Level(Masked(h, cap), Masked(t, cap), cap) == h - t
  {
    hide Wrap32, Masked;
    WrapUnderMask(Masked(h, cap) - Masked(t, cap), cap);
    IndexDistance(h, t, cap);
  }

  lemma PowerOf32()
    ensures IsPow2(TWO_32)
  {
    hide IsPow2;
    PowerTimes16(0x1, 0x10);
    PowerTimes16(0x10, 0x100);
    PowerTimes16(0x100, 0x1000);
    PowerTimes16(0x1000, 0x1_0000);
    PowerTimes16(0x1_0000, 0x10_0000);
    PowerTimes16(0x10_0000, 0x100_0000);
    PowerTimes16(0x100_0000, 0x1000_0000);
    PowerTimes16(0x1000_0000, 0x1_0000_0000);
  }

  lemma PowerTimes16(n: nat, m: nat)
    requires m == 16 * n && (n == 1 || IsPow2(n))
    ensures IsPow2(m)
  {
    assert IsPow2(n);
    assert IsPow2(2 * n) && IsPow2(4 * n) && IsPow2(8 * n);
  }

  /** How many bytes `free` reports to the producer that has just seen s.seenTail. */
  function Free(s: State): int
    requires s.cap >= 1
  {
    s.cap - 1 - Level(Masked(s.head, s.cap), Masked(s.seenTail, s.cap), s.cap)
  }

  function Begun(steps: seq<Step>): nat {
    if steps == [] then 0 else (if steps[0].ObserveTail? then 1 else 0) + Begun(steps[1..])
  }

  function Pending(s: State): nat { if s.p.PIdle? then 0 else 1 }

  /** Room the producer knows of for bytes it has not begun to add. */
  function Room(s: State): int { s.seenTail + s.cap - 1 - s.head - Pending(s) }

  /** As many adds as fit the room known at the start all succeed, whatever the consumer does meanwhile
      and however stale the tails they see. */
  lemma {:induction false} LastingRoom(s: State, steps: seq<Step>)
    requires Inv(s) && Exec(s, steps).Some? && Begun(steps) <= Room(s)
    ensures var t := Exec(s, steps).value; t.head + Pending(t) == s.head + Pending(s) + Begun(steps)
    decreases |steps|
  {
    hide Inv, Next, Room, Pending;
    if steps != [] {
      InvParts(s);
      StepKeeps(s, steps[0]);
      RoomUsed(s, steps[0]);
      LastingRoom(Next(s, steps[0]).value, steps[1..]);
    }
  }

  lemma RoomUsed(s: State, step: Step)
    requires Inv(s) && Next(s, step).Some? && (step.ObserveTail? ==> Room(s) >= 1)
    ensures var t, n := Next(s, step).value, if step.ObserveTail? then 1 else 0;
            t.head + Pending(t) == s.head + Pending(s) + n && Room(t) >= Room(s) - n
  {
    hide Masked, Kept, Added, Inv;
    InvParts(s);
    if step.ObserveTail? { FullTest(s, step.view); }
  }

  lemma InvParts(s: State)
    requires Inv(s)
    ensures s.cap >= 1 && s.seenTail <= s.tail <= s.seenHead <= s.head < s.seenTail + s.cap
  {}

  /** `free` is a lasting lower bound: after it returns f, the next f calls of try_add succeed; and it is all
      the room there is behind the tail it saw. */
  lemma FreeLasts(s: State, view: nat, steps: seq<Step>)
    requires Inv(s) && IsPow2(s.cap) && s.cap <= TWO_32 && Next(s, ObserveFree(view)).Some?
    requires var t := Next(s, ObserveFree(view)).value; Exec(t, steps).Some? && Begun(steps) <= Free(t)
    ensures var t := Next(s, ObserveFree(view)).value; var u := Exec(t, steps).value;
            u.head + Pending(u) == s.head + Begun(steps)
    ensures var t := Next(s, ObserveFree(view)).value; Free(t) == t.cap - 1 - (t.head - view)
  {
    hide Masked, Kept;
    StepKeeps(s, ObserveFree(view));
    var t := Next(s, ObserveFree(view)).value;
    LevelCounts(t.head, t.seenTail, t.cap);
    LastingRoom(t, steps);
  }
}
