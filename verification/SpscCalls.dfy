/** The queue's calls as each core runs them. Between any two accesses of a call to shared memory the
    other core may take any number of steps, and each read of its index returns any value not older
    than the last one seen. */
module SpscCalls {
  import opened Bytes
  import opened Spsc

  class Queue {
    /** Memory, and where both cores are. */
    var s: State

    ghost predicate Valid() reads this {
      Inv(s) && IsPow2(s.cap) && s.cap <= TWO_31
    }

    /** The buffer's earlier history is a prefix of its present one. */
    twostate predicate Onward() reads this {
      && old(Inv(s)) && Inv(s) && s.cap == old(s.cap)
      && Added(old(s)) <= Added(s) && old(s.delivered) <= s.delivered && old(s.removed) <= s.removed
      && old(s.tailLooks) <= s.tailLooks && old(s.headLooks) <= s.headLooks
    }

    /** What a call of the producer never changes but by its own steps. */
    twostate predicate ConsumerOnly() reads this {
      && Onward() && s.head == old(s.head) && s.stores == old(s.stores) && s.p == old(s.p)
      && s.seenTail == old(s.seenTail) && s.tailLooks == old(s.tailLooks)
    }

    twostate predicate ProducerOnly() reads this {
      && Onward() && s.tail == old(s.tail) && s.delivered == old(s.delivered) && s.removed == old(s.removed)
      && s.c == old(s.c) && s.seenHead == old(s.seenHead) && s.headLooks == old(s.headLooks)
    }

    constructor (capacity: nat)
      requires IsPow2(capacity) && 1 <= capacity <= TWO_31
      ensures Valid() && s == Init(capacity)
    {
      s := Init(capacity);
    }

    method Take(step: Step)
      requires Valid() && Next(s, step).Some?
      modifies this
      ensures Valid() && s == Next(old(s), step).value && Onward()
    {
      hide Inv, Next;
      StepKeeps(s, step);
      StepExtends(s, step);
      InvCap(s);
      s := Next(s, step).value;
    }

    /** One step of the consumer, or none. */
    method ConsumerStep()
      requires Valid()
      modifies this
      ensures Valid() && ConsumerOnly()
    {
      hide Visible;
      match s.c
      case CIdle =>
        var view: nat :| s.seenHead <= view <= s.head;
        if * { Take(ObserveHead(view)); } else if * { Take(ObserveFlush(view)); }
      case CTake(view) =>
        OnlyVersion(s, s.tail);
        Take(Load(s.tail));
      case CHave(_) =>
        if * { Take(PublishTail); } else { Take(EndPeek); }
      case CFlush(_) => Take(PublishFlush);
    }

    method ConsumerRuns()
      requires Valid()
      modifies this
      ensures Valid() && ConsumerOnly()
    {
      hide Inv, Added;
      var n: nat := *;
      while n > 0
        invariant Valid() && ConsumerOnly()
      {
        ConsumerStep();
        n := n - 1;
      }
    }

    /** One step of the producer, or none. */
    method ProducerStep()
      requires Valid()
      modifies this
      ensures Valid() && ProducerOnly()
    {
      match s.p
      case PIdle =>
        var view: nat :| s.seenTail <= view <= s.tail;
        var data: u8 := *;
        if * { Take(ObserveTail(data, view)); } else { Take(ObserveFree(view)); }
      case PAdd(_) => Take(Store);
      case PStored => Take(PublishHead);
    }

    method ProducerRuns()
      requires Valid()
      modifies this
      ensures Valid() && ProducerOnly()
    {
      hide Inv, Added;
      var n: nat := *;
      while n > 0
        invariant Valid() && ProducerOnly()
      {
        ProducerStep();
        n := n - 1;
      }
    }

    // ---- calls of the producer -----------------------------------------------------------------

    /** The test for a full queue. */
    method BeginAdd(data: u8) returns (room: bool)
      requires Valid() && s.p.PIdle?
      modifies this
      ensures Valid() && Onward() && s.head == old(s.head) && s.stores == old(s.stores)
      ensures s.seenTail >= old(s.seenTail) && room == (s.head + 1 < s.seenTail + s.cap)
      ensures s.p == (if room then PAdd(data) else PIdle) && s.tailLooks == old(s.tailLooks) + 1
    {
      hide Masked, Kept;
      ConsumerRuns();
      var view: nat :| s.seenTail <= view <= s.tail;
      FullTest(s, view);
      Take(ObserveTail(data, view));
      room := s.p.PAdd?;
    }

    /** The write of the slot, and its publication. */
    method FinishAdd()
      requires Valid() && s.p.PAdd?
      modifies this
      ensures Valid() && Onward() && s.p.PIdle? && s.seenTail == old(s.seenTail) && s.tailLooks == old(s.tailLooks)
      ensures s.head == old(s.head) + 1 && Added(s) == Added(old(s)) + [old(s.p.data)]
    {
      hide Masked, Kept;
      ConsumerRuns();
      Take(Store);
      ConsumerRuns();
      Take(PublishHead);
    }

    /** Adds a byte unless the queue looks full; it never does while the producer knows of room. */
    method TryAdd(data: u8) returns (ok: bool)
      requires Valid() && s.p.PIdle?
      modifies this
      ensures Valid() && s.p.PIdle? && Onward() && s.seenTail >= old(s.seenTail)
      ensures Added(s) == if ok then Added(old(s)) + [data] else Added(old(s))
      ensures s.head == old(s.head) + if ok then 1 else 0
      ensures ok == (old(s.head) + 1 < s.seenTail + s.cap) && s.tailLooks == old(s.tailLooks) + 1
    {
      hide Inv, Added;
      ok := BeginAdd(data);
      InvStores(old(s));
      SameAdded(old(s), s);
      if ok { FinishAdd(); }
    }

    /** The space free for writing, as the producer sees it. */
    method Free() returns (f: nat)
      requires Valid() && s.p.PIdle?
      modifies this
      ensures Valid() && s.p.PIdle? && ConsumerOnlyButSeen() && f == Room(s)
      ensures s.seenTail >= old(s.seenTail) && s.tailLooks == old(s.tailLooks) + 1
    {
      hide Masked, Kept;
      ConsumerRuns();
      var view: nat :| s.seenTail <= view <= s.tail;
      Take(ObserveFree(view));
      LevelCounts(s.head, s.seenTail, s.cap);
      f := s.cap - 1 - Spsc.Level(Masked(s.head, s.cap), Masked(view, s.cap), s.cap);
    }

    twostate predicate ConsumerOnlyButSeen() reads this {
      Onward() && s.head == old(s.head) && Added(s) == Added(old(s))
    }

    // ---- calls of the consumer -----------------------------------------------------------------

    /** The test for an empty queue. */
    method BeginTake() returns (some: bool)
      requires Valid() && s.c.CIdle?
      modifies this
      ensures Valid() && Onward() && s.tail == old(s.tail) && s.delivered == old(s.delivered)
      ensures s.removed == old(s.removed)
      ensures s.seenHead >= old(s.seenHead) && some == (s.tail < s.seenHead)
      ensures (if some then s.c.CTake? else s.c.CIdle?) && s.headLooks == old(s.headLooks) + 1
    {
      hide Masked, Kept;
      ProducerRuns();
      var view: nat :| s.seenHead <= view <= s.head;
      EmptyTest(s, view);
      Take(ObserveHead(view));
      some := s.c.CTake?;
    }

    /** The read of the slot: whichever store it sees, it is the byte added at the tail. */
    method LoadSlot() returns (data: u8)
      requires Valid() && s.c.CTake?
      modifies this
      ensures Valid() && Onward() && s.c == CHave(data) && s.seenHead == old(s.seenHead) && s.tail == old(s.tail)
      ensures s.tail < |Added(s)| && data == Added(s)[s.tail] && s.delivered == old(s.delivered)
      ensures s.removed == old(s.removed) && s.headLooks == old(s.headLooks)
    {
      hide Masked, Kept, Visible;
      ProducerRuns();
      OnlyVersion(s, s.tail);
      var version: nat :| version < |s.stores| && Visible(s, Masked(s.tail, s.cap), s.c.view, version);
      OnlyVersion(s, version);
      data := s.stores[version].1;
      Take(Load(version));
    }

    /** Removes the byte at the tail unless the queue looks empty; it never does while the consumer
        has seen bytes it has not consumed. */
    method TryRemove() returns (ok: bool, data: u8)
      requires Valid() && s.c.CIdle?
      modifies this
      ensures Valid() && s.c.CIdle? && Onward() && s.seenHead >= old(s.seenHead)
      ensures ok == (old(s.tail) < s.seenHead) && s.headLooks == old(s.headLooks) + 1
      ensures ok ==> old(s.tail) < |Added(s)| && data == Added(s)[old(s.tail)]
      ensures s.tail == old(s.tail) + if ok then 1 else 0
      ensures s.removed == old(s.removed) + if ok then [data] else []
      ensures s.delivered == old(s.delivered) + if ok then [true] else []
    {
      hide Inv, Added, Masked;
      data := 0;
      ok := BeginTake();
      if !ok { return; }
      data := LoadSlot();
      ProducerRuns();
      Take(PublishTail);
    }

    /** Looks at the byte at the tail without removing it. */
    method TryPeek() returns (ok: bool, data: u8)
      requires Valid() && s.c.CIdle?
      modifies this
      ensures Valid() && s.c.CIdle? && Onward() && s.tail == old(s.tail) && s.delivered == old(s.delivered)
      ensures s.removed == old(s.removed) && s.headLooks == old(s.headLooks) + 1
      ensures ok == (s.tail < s.seenHead) && (ok ==> s.tail < |Added(s)| && data == Added(s)[s.tail])
    {
      hide Inv, Added, Masked;
      data := 0;
      ok := BeginTake();
      if !ok { return; }
      data := LoadSlot();
      Take(EndPeek);
    }

    /** How many bytes the consumer sees; as many removals will succeed. */
    method Level() returns (n: nat)
      requires Valid() && s.c.CIdle?
      modifies this
      ensures Valid() && s.c.CIdle? && Onward() && s.tail == old(s.tail) && s.delivered == old(s.delivered)
      ensures s.removed == old(s.removed)
      ensures n == s.seenHead - s.tail && s.seenHead >= old(s.seenHead) && s.headLooks == old(s.headLooks) + 1
    {
      hide Masked, Kept;
      ProducerRuns();
      var view: nat :| s.seenHead <= view <= s.head;
      LevelCounts(view, s.tail, s.cap);
      n := Spsc.Level(Masked(view, s.cap), Masked(s.tail, s.cap), s.cap);
      // Reading the head is all that happens; the state records what was seen.
      Take(SeeHead(view));
    }

    /** Drops what was pending when the head was read: a prefix of it, delivered to nobody. */
    method Flush()
      requires Valid() && s.c.CIdle?
      modifies this
      ensures Valid() && s.c.CIdle? && Onward() && s.tail == s.seenHead >= old(s.tail) && s.seenHead >= old(s.seenHead)
      ensures s.removed == old(s.removed) && s.headLooks == old(s.headLooks) + 1
      ensures s.delivered == old(s.delivered) + seq(s.tail - old(s.tail), i => false)
    {
      hide Masked, Kept;
      ProducerRuns();
      var view: nat :| s.seenHead <= view <= s.head;
      Take(ObserveFlush(view));
      ProducerRuns();
      Take(PublishFlush);
    }
  }

  lemma SameAdded(s: State, t: State)
    requires s.head == t.head && s.stores == t.stores && s.head <= |s.stores|
    ensures Added(s) == Added(t)
  {}

  lemma InvStores(s: State)
    requires Inv(s)
    ensures s.head <= |s.stores|
  {}

  lemma InvCap(s: State)
    requires Inv(s)
    ensures s.cap >= 1
  {}
}
