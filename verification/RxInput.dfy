/** The producers of the receive queues: the USB serial task and the debug terminal poll. Both run on
    one core while the other consumes. */
module RxInput {
  import opened Bytes
  import opened Spsc
  import opened SpscCalls

  /** Bytes the USB stack has received and not yet handed over. */
  class Cdc {
    var pending: seq<u8>

    constructor () { pending := []; }

    method Read(n: nat) returns (bytes: seq<u8>)
      modifies this
      ensures bytes + pending == old(pending) && |bytes| == if n < |old(pending)| then n else |old(pending)|
    {
      var k := if n < |pending| then n else |pending|;
      bytes, pending := pending[..k], pending[k..];
    }
  }

  /** What the service of one interface does: as much is moved from the stack to the queue as was
      pending and as the free space, looked up during the call, allows. */
  twostate predicate Serviced(cdc: Cdc, q: Queue, enabled: bool, moved: seq<u8>, free: int)
    reads cdc, q
  {
    && moved + cdc.pending == old(cdc.pending) && Added(q.s) == Added(old(q.s)) + moved
    && if enabled && old(cdc.pending) != [] then
         && q.s.tailLooks > old(q.s.tailLooks) && Room(old(q.s)) <= free <= Room(q.s) + |moved|
         && |moved| == if |old(cdc.pending)| < free then |old(cdc.pending)| else free
       else
         moved == [] && q.s == old(q.s)
  }

  /** One interface of the receive task. What it reads from the stack always fits the queue: the add
      never fails, although the consumer runs meanwhile and its progress is seen late. */
  method ServiceInterface(cdc: Cdc, q: Queue, enabled: bool) returns (moved: seq<u8>, ghost free: int)
    requires q.Valid() && q.s.p.PIdle?
    modifies cdc, q
    ensures q.Valid() && q.s.p.PIdle? && q.Onward() && Serviced(cdc, q, enabled, moved, free)
  {
    hide Inv, Added;
    moved, free := [], 0;
    assert Added(q.s) + [] == Added(q.s) && [] + cdc.pending == cdc.pending;
    if enabled && cdc.pending != [] {
      var available := |cdc.pending|;
      var space := q.Free();
      free := space;
      if space != 0 {
        moved := cdc.Read(if available < space then available else space);
        var i := 0;
        assert Added(q.s) + moved[..0] == Added(q.s);
        while i < |moved|
          invariant 0 <= i <= |moved| && q.Valid() && q.s.p.PIdle? && q.Onward()
          invariant moved + cdc.pending == old(cdc.pending)
          invariant q.s.tailLooks > old(q.s.tailLooks) && free <= Room(q.s) + i
          invariant Added(q.s) == Added(old(q.s)) + moved[..i] && Room(q.s) >= |moved| - i
        {
          var success := q.TryAdd(moved[i]);
          assert success;
          assert moved[..i + 1] == moved[..i] + [moved[i]];
          i := i + 1;
        }
        assert moved[..i] == moved;
      }
    }
  }

  /** The receive task: each interface into its own queue, one after the other. */
  method RxTask(terminal: Cdc, rxFifo: Queue, terminalEnabled: bool,
                binary: Cdc, binRxFifo: Queue, binaryEnabled: bool)
    returns (moved: seq<u8>, binMoved: seq<u8>, ghost free: int, ghost binFree: int)
    requires terminal != binary && rxFifo != binRxFifo
    requires rxFifo.Valid() && rxFifo.s.p.PIdle? && binRxFifo.Valid() && binRxFifo.s.p.PIdle?
    modifies terminal, rxFifo, binary, binRxFifo
    ensures rxFifo.Valid() && rxFifo.s.p.PIdle? && Serviced(terminal, rxFifo, terminalEnabled, moved, free)
    ensures binRxFifo.Valid() && binRxFifo.s.p.PIdle?
    ensures Serviced(binary, binRxFifo, binaryEnabled, binMoved, binFree)
  {
    hide Inv, Added;
    moved, free := ServiceInterface(terminal, rxFifo, terminalEnabled);
    binMoved, binFree := ServiceInterface(binary, binRxFifo, binaryEnabled);
  }

  /** The debug terminal's input. A character that finds the queue full is carried to the next poll. */
  class RttTerminal {
    const rxFifo: Queue
    var lastCharacter: int
    /** Everything typed so far, how much of it has been read, and what the host will type yet. */
    var typed: seq<u8>
    var read: nat
    var future: seq<u8>
    /** How often the host was asked for a key. */
    ghost var asked: nat
    /** What the queue held before the first poll. */
    ghost const before: seq<u8>

    /** Over any number of polls: what was typed and read is in the queue, in order and complete, but
        for a last character being carried. */
    ghost predicate Valid() reads this, rxFifo { Holding(lastCharacter) }

    /** All that was read is in the queue except `current`, when it is a character. */
    ghost predicate Holding(current: int) reads this, rxFifo {
      && rxFifo.Valid() && rxFifo.s.p.PIdle? && read <= |typed| && current < 256
      && if current >= 0 then
           read > 0 && current == typed[read - 1] && Added(rxFifo.s) == before + typed[..read - 1]
         else
           Added(rxFifo.s) == before + typed[..read]
    }

    constructor (q: Queue, script: seq<u8>)
      requires q.Valid() && q.s.p.PIdle?
      ensures Valid() && rxFifo == q && typed == [] && future == script && lastCharacter == -1
    {
      hide Inv, Added;
      rxFifo, lastCharacter, typed, read, future := q, -1, [], 0, script;
      asked, before := 0, Added(q.s);
    }

    /** The next character, or -1. The host may have typed some more by now. */
    method GetKey() returns (key: int)
      requires read <= |typed|
      modifies this`typed, this`read, this`future, this`asked
      ensures old(typed) <= typed && typed + future == old(typed + future) && key < 256
      ensures if key >= 0 then read == old(read) + 1 <= |typed| && key == typed[old(read)]
              else read == old(read) == |typed|
      ensures asked == old(asked) + 1
    {
      asked := asked + 1;
      var n: nat :| n <= |future|;
      typed, future := typed + future[..n], future[n..];
      if read == |typed| { return -1; }
      key := typed[read];
      read := read + 1;
    }

    /** Offers the character in hand to the queue. */
    method Offer(current: int) returns (ok: bool)
      requires Holding(current) && current >= 0
      modifies rxFifo
      ensures Holding(if ok then -1 else current)
      ensures (ok || Room(rxFifo.s) <= 0) && rxFifo.s.tailLooks > old(rxFifo.s.tailLooks)
    {
      hide Inv, Added;
      assert typed[..read] == typed[..read - 1] + [typed[read - 1]];
      ok := rxFifo.TryAdd(current);
    }

    /** One poll. It ends with a character carried over, because the queue, looked at during the poll,
        was full, or with everything typed by the time of the last question read. */
    method Poll()
      requires Valid()
      modifies this`lastCharacter, this`typed, this`read, this`future, this`asked, rxFifo
      ensures Valid() && old(typed) <= typed && typed + future == old(typed + future)
      ensures if lastCharacter >= 0 then Room(rxFifo.s) <= 0 && rxFifo.s.tailLooks > old(rxFifo.s.tailLooks)
              else read == |typed| && asked > old(asked)
    {
      hide Inv, Added;
      var current: int := lastCharacter;
      if current < 0 { current := GetKey(); }
      lastCharacter := -1;
      while current >= 0
        invariant Holding(current) && lastCharacter == -1 && asked >= old(asked)
        invariant current < 0 ==> read == |typed| && asked > old(asked)
        invariant old(typed) <= typed && typed + future == old(typed + future)
        invariant rxFifo.s.tailLooks >= old(rxFifo.s.tailLooks)
        decreases |typed + future| - read + if current >= 0 then 1 else 0
      {
        var ok := Offer(current);
        if !ok {
          lastCharacter := current;
          break;
        }
        current := GetKey();
      }
    }
  }
}
