/** The transmit side: a three-state machine that interleaves the terminal output queue with toolbar
    frames, without ever breaking a frame or losing output. */
module UsbTx {
  import opened Bytes
  import opened Spsc
  import opened SpscCalls

  const CHUNK := 64
  const TOOLBAR_MAX := 1024

  datatype TxState = Idle | ToolbarDelay | ToolbarTx

  /** What the transmitter does, in order: how full it saw the queue, and what it put on the wire, with
      the ports that were on at the time. */
  datatype Event =
    | Saw(level: nat)
    | Output(bytes: seq<u8>, usb: bool, uart: bool)
    | Part(bytes: seq<u8>, last: bool, usb: bool, uart: bool)

  /** A stretch of the wire: terminal text, or a complete frame. */
  datatype Segment = Text(bytes: seq<u8>) | Frame(bytes: seq<u8>)

  /** A receiver's reading of the wire: what is complete, and the frame under way. */
  datatype Reading =
    | Broken
    | Between(done: seq<Segment>)
    | Inside(done: seq<Segment>, part: seq<u8>)

  function Receive(r: Reading, e: Event): Reading {
    match e
    case Saw(_) => r
    case Output(bytes, _, _) => if r.Between? then Between(r.done + [Text(bytes)]) else Broken
    case Part(bytes, last, _, _) =>
      if r.Broken? then Broken else
      var part := (if r.Inside? then r.part else []) + bytes;
      if last then Between(r.done + [Frame(part)]) else Inside(r.done, part)
  }

  function Read(log: seq<Event>): Reading {
    if log == [] then Between([]) else Receive(Read(log[..|log| - 1]), log[|log| - 1])
  }

  function TextOf(done: seq<Segment>): seq<u8> {
    if done == [] then [] else
    var n := |done| - 1;
    TextOf(done[..n]) + if done[n].Text? then done[n].bytes else []
  }

  function FramesOf(done: seq<Segment>): seq<seq<u8>> {
    if done == [] then [] else
    var n := |done| - 1;
    FramesOf(done[..n]) + if done[n].Frame? then [done[n].bytes] else []
  }

  function BytesOf(done: seq<Segment>): seq<u8> {
    if done == [] then [] else BytesOf(done[..|done| - 1]) + done[|done| - 1].bytes
  }

  lemma ReadSnoc(log: seq<Event>, e: Event)
    ensures Read(log + [e]) == Receive(Read(log), e)
  {
    assert (log + [e])[..|log|] == log;
  }

  lemma SegmentSnoc(done: seq<Segment>, t: Segment)
    ensures TextOf(done + [t]) == TextOf(done) + if t.Text? then t.bytes else []
    ensures FramesOf(done + [t]) == FramesOf(done) + if t.Frame? then [t.bytes] else []
    ensures BytesOf(done + [t]) == BytesOf(done) + t.bytes
  {
    assert (done + [t])[..|done|] == done;
  }

  // ---- what reaches the ports ----------------------------------------------------------------------

  /** The writes the events made to the USB endpoint. */
  function UsbWrites(log: seq<Event>): seq<seq<u8>> {
    if log == [] then [] else
    var e := log[|log| - 1];
    UsbWrites(log[..|log| - 1]) + if !e.Saw? && e.usb then [e.bytes] else []
  }

  /** The bytes the events sent to the UART. */
  function UartBytes(log: seq<Event>): seq<u8> {
    if log == [] then [] else
    var e := log[|log| - 1];
    UartBytes(log[..|log| - 1]) + if !e.Saw? && e.uart then e.bytes else []
  }

  function Joined(writes: seq<seq<u8>>): seq<u8> {
    if writes == [] then [] else Joined(writes[..|writes| - 1]) + writes[|writes| - 1]
  }

  lemma WritesSnoc(log: seq<Event>, e: Event)
    ensures UsbWrites(log + [e]) == UsbWrites(log) + if !e.Saw? && e.usb then [e.bytes] else []
    ensures UartBytes(log + [e]) == UartBytes(log) + if !e.Saw? && e.uart then e.bytes else []
  {
    assert (log + [e])[..|log|] == log;
  }

  lemma JoinedSnoc(writes: seq<seq<u8>>, w: seq<u8>)
    ensures Joined(writes + [w]) == Joined(writes) + w
  {
    assert (writes + [w])[..|writes|] == writes;
  }

  predicate AllOnUsb(log: seq<Event>) { forall i | 0 <= i < |log| :: log[i].Saw? || log[i].usb }
  predicate AllOnUart(log: seq<Event>) { forall i | 0 <= i < |log| :: log[i].Saw? || log[i].uart }

  /** The bytes of a reading, the frame under way included. */
  function WireOf(r: Reading): seq<u8>
    requires !r.Broken?
  {
    BytesOf(r.done) + if r.Inside? then r.part else []
  }

  /** A port that was on throughout carries the segments of the reading one after the other: text and
      whole frames, and at most the beginning of one more frame. */
  lemma {:induction false} PortReads(log: seq<Event>)
    requires !Read(log).Broken?
    ensures AllOnUsb(log) ==> Joined(UsbWrites(log)) == WireOf(Read(log))
    ensures AllOnUart(log) ==> UartBytes(log) == WireOf(Read(log))
  {
    if log != [] {
      var n := |log| - 1;
      var before, e := log[..n], log[n];
      assert log == before + [e];
      ReadSnoc(before, e);
      WritesSnoc(before, e);
      PortReads(before);
      assert (AllOnUsb(log) ==> AllOnUsb(before)) && (AllOnUart(log) ==> AllOnUart(before));
      WireGrows(Read(before), e);
      if e.Saw? { assert UsbWrites(log) == UsbWrites(before); } else { JoinedSnoc(UsbWrites(before), e.bytes); }
    }
  }

  lemma WireGrows(r: Reading, e: Event)
    requires !Receive(r, e).Broken?
    ensures !r.Broken? && WireOf(Receive(r, e)) == WireOf(r) + if e.Saw? then [] else e.bytes
  {
    match e
    case Saw(_) =>
    case Output(bytes, _, _) => SegmentSnoc(r.done, Text(bytes));
    case Part(bytes, _, _, _) =>
      var part := (if r.Inside? then r.part else []) + bytes;
      SegmentSnoc(r.done, Frame(part));
      Regroup(BytesOf(r.done), if r.Inside? then r.part else [], bytes);
  }

  lemma Regroup<T>(a: seq<T>, b: seq<T>, c: seq<T>)
    ensures a + (b + c) == a + b + c
  {}

  /** Each of the last n events saw an empty queue. */
  predicate Quiet(log: seq<Event>, n: nat) {
    n <= |log| && forall i | |log| - n <= i < |log| :: log[i] == Saw(0)
  }

  /** Event i begins a frame. */
  ghost predicate Begins(log: seq<Event>, i: nat) {
    i < |log| && log[i].Part? && Read(log[..i]).Between?
  }

  /** Every frame begins right after three consecutive looks at an empty queue. */
  ghost predicate QuietStarts(log: seq<Event>) {
    forall i: nat | Begins(log, i) :: Quiet(log[..i], 3)
  }

  lemma StartsKept(log: seq<Event>, e: Event)
    requires QuietStarts(log) && (e.Part? && Read(log).Between? ==> Quiet(log, 3))
    ensures QuietStarts(log + [e])
  {
    var next := log + [e];
    forall i: nat | Begins(next, i) ensures Quiet(next[..i], 3) {
      if i < |log| {
        assert next[..i] == log[..i];
        assert Begins(log, i);
      } else {
        assert next[..i] == log;
      }
    }
  }

  function Least(x: int, y: int): int { if x < y then x else y }

  /** Removes 64 bytes, or fewer when that is all the consumer sees. */
  method Drain(q: Queue) returns (data: seq<u8>)
    requires q.Valid() && q.s.c.CIdle?
    modifies q
    ensures q.Valid() && q.s.c.CIdle? && q.Onward() && |data| <= CHUNK
    ensures q.s.removed == old(q.s.removed) + data
    ensures q.s.delivered == old(q.s.delivered) + seq(|data|, i => true)
    ensures |data| == CHUNK || q.s.tail == q.s.seenHead
    ensures |data| >= old(Least(CHUNK, q.s.seenHead - q.s.tail))
  {
    hide Inv, Added;
    data := [];
    while true
      invariant q.Valid() && q.s.c.CIdle? && q.Onward() && |data| < CHUNK
      invariant q.s.removed == old(q.s.removed) + data
      invariant q.s.delivered == old(q.s.delivered) + seq(|data|, i => true)
      invariant q.s.tail == old(q.s.tail) + |data| && q.s.seenHead >= old(q.s.seenHead)
      decreases CHUNK - |data|
    {
      var ok, c := q.TryRemove();
      InvParts(q.s);
      if !ok { break; }
      assert q.s.removed == old(q.s.removed) + (data + [c]);
      assert q.s.delivered == old(q.s.delivered) + seq(|data + [c]|, i => true);
      data := data + [c];
      if |data| >= CHUNK { break; }
    }
  }

  /** Everything newly consumed was delivered, not dropped. */
  predicate NoneDropped(before: seq<bool>, after: seq<bool>) {
    before <= after && forall i | |before| <= i < |after| :: after[i]
  }

  /** The ports: writes to the USB endpoint, and bytes sent to the debug UART. */
  class Ports {
    var usb: seq<seq<u8>>
    var uart: seq<u8>

    constructor () { usb, uart := [], []; }

    method Write(bytes: seq<u8>, usbOn: bool, uartOn: bool)
      modifies this
      ensures usb == old(usb) + if usbOn then [bytes] else []
      ensures uart == old(uart) + if uartOn then bytes else []
    {
      if usbOn { usb := usb + [bytes]; }
      if uartOn {
        var j := 0;
        assert uart + bytes[..0] == uart;
        while j < |bytes|
          invariant 0 <= j <= |bytes| && uart == old(uart) + bytes[..j]
              && usb == old(usb) + if usbOn then [bytes] else []
        {
          uart := uart + [bytes[j]];
          assert bytes[..j + 1] == bytes[..j] + [bytes[j]];
          j := j + 1;
        }
        assert bytes[..j] == bytes;
      }
    }
  }

  class Transmitter {
    const txFifo: Queue
    const ports: Ports
    var txState: TxState
    var delayCount: nat
    var tbBuf: seq<u8>
    var tbCnt: nat
    var tbIndex: nat
    var tbReady: bool

    ghost var log: seq<Event>
    /** The frames asked for; how much the queue had given, and what the ports had carried, before this
        transmitter ran. */
    ghost var requested: seq<seq<u8>>
    ghost const start: nat
    ghost const usbBefore: seq<seq<u8>>
    ghost const uartBefore: seq<u8>

    ghost predicate Valid() reads this, txFifo, ports {
      && txFifo.Valid() && txFifo.s.c.CIdle?
      && tbCnt <= |tbBuf| == TOOLBAR_MAX && (txState.ToolbarTx? ==> tbIndex <= tbCnt)
      && (txState.ToolbarDelay? || delayCount == 0) && delayCount < 3
      && (!txState.Idle? ==> tbReady) && (txState.ToolbarDelay? ==> tbIndex == 0 && Quiet(log, delayCount))
      && (txState.ToolbarTx? && tbIndex == 0 ==> Quiet(log, 3))
      && start <= |txFifo.s.removed| && OnWire(Read(log)) && QuietStarts(log) && OnPorts()
    }

    /** The wire reads as the queue's bytes in order, and the requested frames, whole. */
    ghost predicate OnWire(r: Reading) reads this, txFifo {
      && start <= |txFifo.s.removed| && tbCnt <= |tbBuf| && (txState.ToolbarTx? ==> tbIndex <= tbCnt)
      && (if txState.ToolbarTx? && tbIndex > 0 then r.Inside? && r.part == tbBuf[..tbIndex] else r.Between?)
      && TextOf(r.done) == txFifo.s.removed[start..]
      && requested == FramesOf(r.done) + if tbReady then [tbBuf[..tbCnt]] else []
    }

    /** The ports carried exactly what the events put on them, write by write. */
    ghost predicate OnPorts() reads `log, ports {
      ports.usb == usbBefore + UsbWrites(log) && ports.uart == uartBefore + UartBytes(log)
    }

    constructor (q: Queue, ports: Ports)
      requires q.Valid() && q.s.c.CIdle?
      ensures Valid() && txFifo == q && this.ports == ports && txState == Idle && requested == [] && log == []
      ensures !tbReady
    {
      txFifo, this.ports, txState, delayCount := q, ports, Idle, 0;
      tbBuf, tbCnt, tbIndex, tbReady := seq(TOOLBAR_MAX, i => 0), 0, 0, false;
      log, requested, start := [], [], |q.s.removed|;
      usbBefore, uartBefore := ports.usb, ports.uart;
    }

    /** The toolbar renderer fills the buffer and hands it over, only while no frame is pending. */
    method ToolbarStart(frame: seq<u8>)
      requires Valid() && |frame| <= TOOLBAR_MAX && !tbReady
      modifies this`tbBuf, this`tbCnt, this`tbReady, this`requested
      ensures Valid() && requested == old(requested) + [frame]
    {
      hide Inv, QuietStarts, Read, Quiet, UsbWrites, UartBytes, TextOf, FramesOf;
      tbBuf := frame + tbBuf[|frame|..];
      tbCnt := |frame|;
      tbReady := true;
      requested := requested + [frame];
    }

    /** Looks at the queue's level. */
    method Look() returns (n: nat)
      requires Valid()
      modifies this`log, txFifo
      ensures log == old(log) + [Saw(n)] && txFifo.Valid() && txFifo.s.c.CIdle? && txFifo.Onward()
      ensures n == txFifo.s.seenHead - txFifo.s.tail && txFifo.s.tail == old(txFifo.s.tail)
      ensures txFifo.s.removed == old(txFifo.s.removed) && txFifo.s.delivered == old(txFifo.s.delivered)
      ensures txFifo.s.headLooks > old(txFifo.s.headLooks)
      ensures Read(log) == Read(old(log)) && QuietStarts(log) && OnPorts()
      ensures forall k: nat | Quiet(old(log), k) && n == 0 :: Quiet(log, k + 1)
    {
      hide Inv, QuietStarts, Read, UsbWrites, UartBytes, TextOf, FramesOf;
      n := txFifo.Level();
      ReadSnoc(log, Saw(n));
      WritesSnoc(log, Saw(n));
      StartsKept(log, Saw(n));
      log := log + [Saw(n)];
    }

    twostate predicate Wrote(bytes: seq<u8>, usbOn: bool, uartOn: bool) reads ports {
      ports.usb == old(ports.usb) + (if usbOn then [bytes] else [])
          && ports.uart == old(ports.uart) + if uartOn then bytes else []
    }

    twostate predicate WroteNothing() reads ports {
      ports.usb == old(ports.usb) && ports.uart == old(ports.uart)
    }

    /** From Idle: what the queue was seen to hold is sent, as much as a chunk takes, or dropped when nobody
        listens; an empty queue gives way to a pending frame. */
    twostate predicate AfterIdle(seen: nat, sent: seq<u8>, usbOn: bool, uartOn: bool, connected: bool)
      reads this, txFifo, ports
    {
      && tbReady == old(tbReady) && txFifo.s.removed == old(txFifo.s.removed) + sent
      && txFifo.s.headLooks > old(txFifo.s.headLooks)
      && if seen == 0 || !connected then
           && sent == [] && log == old(log) + [Saw(seen)] && WroteNothing()
           && txState == (if seen == 0 && tbReady then ToolbarDelay else Idle)
           && (seen > 0 ==> txFifo.s.tail >= old(txFifo.s.tail) + seen)
         else
           && Least(CHUNK, seen) <= |sent| <= CHUNK && log == old(log) + [Saw(seen)] + [Output(sent, usbOn, uartOn)]
           && Wrote(sent, usbOn, uartOn) && txState.Idle?
    }

    /** Waiting: an empty look counts, the third in a row begins the frame, any other look gives up. */
    twostate predicate AfterDelay(seen: nat) reads this, txFifo, ports {
      && tbReady == old(tbReady) && txFifo.s.removed == old(txFifo.s.removed)
      && txFifo.s.headLooks > old(txFifo.s.headLooks)
      && log == old(log) + [Saw(seen)] && WroteNothing()
      && if seen > 0 then txState.Idle? else if old(delayCount) == 2 then txState.ToolbarTx? && tbIndex == 0
         else txState.ToolbarDelay? && delayCount == old(delayCount) + 1
    }

    /** Sending: the next chunk of the frame is written, and with the last the frame is done. */
    twostate predicate AfterPart(sent: seq<u8>, usbOn: bool, uartOn: bool) reads this, txFifo, ports {
      && old(tbIndex) <= tbCnt == old(tbCnt) <= |tbBuf| && tbBuf == old(tbBuf) && txFifo.s == old(txFifo.s)
      && var next := if tbCnt - old(tbIndex) > CHUNK then old(tbIndex) + CHUNK else tbCnt;
      && sent == tbBuf[old(tbIndex)..next] && Wrote(sent, usbOn, uartOn)
      && log == old(log) + [Part(sent, next == tbCnt, usbOn, uartOn)]
      && if next == tbCnt then txState.Idle? && !tbReady else txState.ToolbarTx? && tbIndex == next && tbReady
    }

    /** One call of the service routine. `writable` is the room the USB endpoint reports, `connected`
        whether a host holds the port open; `seen` and `sent` say how full the queue was seen and what
        was written. Without room on the endpoint nothing happens. */
    method Service(usbOn: bool, uartOn: bool, writable: nat, connected: bool)
      returns (ghost seen: nat, ghost sent: seq<u8>)
      requires Valid()
      modifies this`txState, this`delayCount, this`tbIndex, this`tbReady, this`log, txFifo, ports
      ensures Valid() && txFifo.Onward() && |sent| <= CHUNK
      ensures if usbOn && writable < CHUNK then
                unchanged(this) && txFifo.s == old(txFifo.s) && WroteNothing() && sent == []
              else match old(txState)
                case Idle => AfterIdle(seen, sent, usbOn, uartOn, connected)
                case ToolbarDelay => AfterDelay(seen) && sent == []
                case ToolbarTx => AfterPart(sent, usbOn, uartOn)
      ensures connected ==> NoneDropped(old(txFifo.s.delivered), txFifo.s.delivered)
    {
      hide Inv, Added, QuietStarts, Read, Quiet, Valid, OnWire, OnPorts, AfterIdle, AfterDelay, AfterPart, Wrote;
      OnwardSame(txFifo);
      seen, sent := 0, [];
      if usbOn && writable < CHUNK {
        return;
      }
      match txState
      case Idle => seen, sent := ServiceIdle(usbOn, uartOn, connected);
      case ToolbarDelay => seen := ServiceDelay();
      case ToolbarTx => sent := ServiceToolbar(usbOn, uartOn);
    }

    lemma OnwardSame(q: Queue)
      requires Valid() && q == txFifo
      ensures q.Valid() && Inv(q.s)
    {}

    /** Idle: send what the queue holds, or drop it when nobody listens; else turn to a frame. */
    method ServiceIdle(usbOn: bool, uartOn: bool, connected: bool) returns (ghost seen: nat, ghost sent: seq<u8>)
      requires Valid() && txState.Idle?
      modifies this`txState, this`tbIndex, this`log, txFifo, ports
      ensures Valid() && txFifo.Onward() && AfterIdle(seen, sent, usbOn, uartOn, connected) && |sent| <= CHUNK
      ensures connected ==> NoneDropped(old(txFifo.s.delivered), txFifo.s.delivered)
    {
      hide Inv, Added, QuietStarts, Read, Quiet, UsbWrites, UartBytes, TextOf, FramesOf;
      var available := Look();
      seen, sent := available, [];
      if available != 0 {
        if !connected {
          txFifo.Flush();
          assert txFifo.s.removed == old(txFifo.s.removed) + sent;
          return;
        }
        var data := Drain(txFifo);
        sent := data;
        LogOutput(data, usbOn, uartOn);
        ports.Write(data, usbOn, uartOn);
        return;
      }
      if tbReady {
        txState := ToolbarDelay;
        tbIndex := 0;
        QuietNone(log);
      }
    }

    /** Waiting: three looks at an empty queue in a row, then the frame. */
    method ServiceDelay() returns (ghost seen: nat)
      requires Valid() && txState.ToolbarDelay?
      modifies this`txState, this`delayCount, this`log, txFifo
      ensures Valid() && txFifo.Onward() && AfterDelay(seen)
      ensures txFifo.s.delivered == old(txFifo.s.delivered)
    {
      hide Inv, Added, QuietStarts, Read, Quiet, UsbWrites, UartBytes, TextOf, FramesOf;
      var available := Look();
      seen := available;
      if available != 0 {
        delayCount := 0;
        txState := Idle;
      } else {
        delayCount := delayCount + 1;
        if delayCount >= 3 {
          delayCount := 0;
          txState := ToolbarTx;
        }
      }
    }

    /** Sending: the next up to 64 bytes of the frame. */
    method ServiceToolbar(usbOn: bool, uartOn: bool) returns (ghost sent: seq<u8>)
      requires Valid() && txState.ToolbarTx?
      modifies this`txState, this`tbIndex, this`tbReady, this`log, ports
      ensures Valid() && AfterPart(sent, usbOn, uartOn) && |sent| <= CHUNK
    {
      hide Inv, Added, QuietStarts, Read, Quiet, TextOf, FramesOf, Queue.Valid, OnPorts;
      var remaining := tbCnt - tbIndex;
      var chunk := if remaining > CHUNK then CHUNK else remaining;
      var bytes := tbBuf[tbIndex..tbIndex + chunk];
      var last := tbIndex + chunk >= tbCnt;
      PartJoined(tbBuf, tbIndex, chunk);
      SendPart(bytes, last, usbOn, uartOn);
      tbIndex := tbIndex + chunk;
      if tbIndex >= tbCnt {
        tbReady := false;
        txState := Idle;
      }
      sent := bytes;
    }

    ghost method LogOutput(bytes: seq<u8>, usbOn: bool, uartOn: bool)
      requires QuietStarts(log) && Read(log).Between?
      modifies this`log
      ensures log == old(log) + [Output(bytes, usbOn, uartOn)] && QuietStarts(log)
      ensures Read(log) == Between(Read(old(log)).done + [Text(bytes)])
      ensures TextOf(Read(log).done) == TextOf(Read(old(log)).done) + bytes
      ensures FramesOf(Read(log).done) == FramesOf(Read(old(log)).done)
      ensures UsbWrites(log) == UsbWrites(old(log)) + if usbOn then [bytes] else []
      ensures UartBytes(log) == UartBytes(old(log)) + if uartOn then bytes else []
    {
      var e := Output(bytes, usbOn, uartOn);
      ReadSnoc(log, e);
      WritesSnoc(log, e);
      StartsKept(log, e);
      SegmentSnoc(Read(log).done, Text(bytes));
      log := log + [e];
    }

    /** Writes a part of a frame to the ports that are on. */
    method SendPart(bytes: seq<u8>, last: bool, usbOn: bool, uartOn: bool)
      requires QuietStarts(log) && OnPorts() && (Read(log).Between? ==> Quiet(log, 3)) && !Read(log).Broken?
      modifies this`log, ports
      ensures log == old(log) + [Part(bytes, last, usbOn, uartOn)] && QuietStarts(log)
      ensures var r := Read(old(log));
              var part := (if r.Inside? then r.part else []) + bytes;
              && Read(log) == (if last then Between(r.done + [Frame(part)]) else Inside(r.done, part))
              && TextOf(Read(log).done) == TextOf(r.done)
              && FramesOf(Read(log).done) == FramesOf(r.done) + if last then [part] else []
      ensures OnPorts() && Wrote(bytes, usbOn, uartOn)
    {
      hide QuietStarts, Read, Receive, TextOf, FramesOf, UsbWrites, UartBytes;
      ghost var e := Part(bytes, last, usbOn, uartOn);
      PartRead(log, e);
      WritesSnoc(log, e);
      StartsKept(log, e);
      ports.Write(bytes, usbOn, uartOn);
      log := log + [e];
    }
  }

  lemma PartRead(log: seq<Event>, e: Event)
    requires e.Part? && !Read(log).Broken?
    ensures var r := Read(log);
            var part := (if r.Inside? then r.part else []) + e.bytes;
            && Read(log + [e]) == (if e.last then Between(r.done + [Frame(part)]) else Inside(r.done, part))
            && TextOf(Read(log + [e]).done) == TextOf(r.done)
            && FramesOf(Read(log + [e]).done) == FramesOf(r.done) + if e.last then [part] else []
  {
    hide TextOf, FramesOf, Read;
    var r := Read(log);
    ReadSnoc(log, e);
    SegmentSnoc(r.done, Frame((if r.Inside? then r.part else []) + e.bytes));
  }

  lemma PartJoined(buf: seq<u8>, i: nat, n: nat)
    requires i + n <= |buf|
    ensures buf[..i] + buf[i..i + n] == buf[..i + n] && (i == 0 ==> [] + buf[i..i + n] == buf[..n])
  {}

  lemma QuietNone(log: seq<Event>)
    ensures Quiet(log, 0)
  {}

  /** The binary port has no frames: 64 bytes a call, or fewer when the queue, looked at during the call,
      holds no more. */
  method ServiceBinary(binTxFifo: Queue, ports: Ports, writable: nat)
    requires binTxFifo.Valid() && binTxFifo.s.c.CIdle?
    modifies binTxFifo, ports
    ensures binTxFifo.Valid() && binTxFifo.s.c.CIdle? && binTxFifo.Onward()
    ensures writable < CHUNK ==> ports.usb == old(ports.usb) && binTxFifo.s == old(binTxFifo.s)
    ensures writable >= CHUNK ==>
              && |ports.usb| == |old(ports.usb)| + 1 && ports.usb[..|old(ports.usb)|] == old(ports.usb)
              && |ports.usb[|old(ports.usb)|]| <= CHUNK
              && binTxFifo.s.removed == old(binTxFifo.s.removed) + ports.usb[|old(ports.usb)|]
    ensures writable >= CHUNK ==>
              && binTxFifo.s.headLooks > old(binTxFifo.s.headLooks)
              && (|ports.usb[|old(ports.usb)|]| == CHUNK || binTxFifo.s.tail == binTxFifo.s.seenHead)
    ensures ports.uart == old(ports.uart)
    ensures NoneDropped(old(binTxFifo.s.delivered), binTxFifo.s.delivered)
  {
    hide Inv, Added;
    if writable < CHUNK {
      return;
    }
    var data := [];
    var available := binTxFifo.Level();
    if available != 0 {
      data := Drain(binTxFifo);
    }
    ports.Write(data, true, false);
  }
}
