/** The USB disk's medium handshake: one core asks for the medium to be ejected or inserted, the host's
    polls carry the request out one visible change at a time. */
module MscDisk {

  datatype Medium = NotPresentStage1 | NotPresent | MediumChanged | ReadyStage1 | Ready

  /** The sense data of a poll: NOT READY/3A, UNIT ATTENTION/28, or ready. */
  datatype Sense = NotReady | Attention | Good

  /** A reply to the host, and whether that poll acknowledged a request. */
  datatype Reply = Reply(sense: Sense, acked: bool)

  /** Where core 0 is in insert_or_eject: the acknowledgement cleared; waiting for it since reply number
      `mark`; the acknowledgement seen, the request still up. */
  datatype Core = Resting | Cleared(insert: bool) | Waiting(insert: bool, mark: nat) | Answered(insert: bool, mark: nat)

  /** A finished call: what it asked for, which replies fell in it, and whether nothing was to be done. */
  datatype Outcome = Outcome(insert: bool, mark: nat, end: nat, already: bool)

  datatype Disk = Disk(medium: Medium, next: Medium, ejectRequest: bool, insertRequest: bool, ack: bool,
                       hostEjected: bool, core: Core, log: seq<Reply>, outcomes: seq<Outcome>)

  datatype Step = Poll | StartStop(loadEject: bool, start: bool) | Call(insert: bool) | Raise | SeeAck | Lower

  function Init(): Disk { Disk(Ready, Ready, false, false, false, false, Resting, [], []) }

  /** tud_msc_test_unit_ready_cb, as one atomic step. */
  function Polled(d: Disk): Disk {
    if d.hostEjected then
      d.(medium := NotPresent, next := NotPresent, hostEjected := false, log := d.log + [Reply(NotReady, false)])
    else if d.insertRequest && d.next.NotPresent? then
      d.(medium := MediumChanged, next := ReadyStage1, ack := true, log := d.log + [Reply(Attention, true)])
    else if d.ejectRequest && d.next.Ready? then
      d.(medium := NotPresentStage1, next := NotPresent, ack := true, log := d.log + [Reply(NotReady, true)])
    else match d.next
      case NotPresentStage1 => d.(medium := d.next, next := NotPresent, log := d.log + [Reply(NotReady, false)])
      case NotPresent => d.(medium := d.next, next := NotPresent, log := d.log + [Reply(NotReady, false)])
      case MediumChanged => d.(medium := d.next, next := ReadyStage1, log := d.log + [Reply(Attention, false)])
      case ReadyStage1 => d.(medium := d.next, next := Ready, log := d.log + [Reply(Good, false)])
      case Ready => d.(medium := d.next, next := Ready, log := d.log + [Reply(Good, false)])
  }

  predicate Enabled(d: Disk, s: Step) {
    match s
    case Poll => true
    case StartStop(_, _) => true
    case Call(_) => d.core.Resting?
    case Raise => d.core.Cleared?
    case SeeAck => d.core.Waiting? && d.ack
    case Lower => d.core.Answered?
  }

  function Next(d: Disk, s: Step): Disk
    requires Enabled(d, s)
  {
    match s
    case Poll => Polled(d)
    case StartStop(loadEject, start) => if loadEject then d.(hostEjected := !start) else d
    case Call(insert) => d.(ack := false, core := Cleared(insert))
    case Raise =>
      if d.core.insert then d.(insertRequest := true, core := Waiting(true, |d.log|)) else
      if d.medium.NotPresent? then
        d.(core := Resting, outcomes := d.outcomes + [Outcome(false, |d.log|, |d.log|, true)])
      else d.(ejectRequest := true, core := Waiting(false, |d.log|))
    case SeeAck => d.(core := Answered(d.core.insert, d.core.mark))
    case Lower =>
      var o := Outcome(d.core.insert, d.core.mark, |d.log|, false);
      if d.core.insert then d.(insertRequest := false, core := Resting, outcomes := d.outcomes + [o])
      else d.(ejectRequest := false, core := Resting, outcomes := d.outcomes + [o])
  }

  predicate Run(d: Disk, steps: seq<Step>)
    decreases |steps|
  {
    steps == [] || (Enabled(d, steps[0]) && Run(Next(d, steps[0]), steps[1..]))
  }

  function After(d: Disk, steps: seq<Step>): Disk
    requires Run(d, steps)
    decreases |steps|
  {
    if steps == [] then d else After(Next(d, steps[0]), steps[1..])
  }

  // ---- the host's view -----------------------------------------------------------------------------

  /** Since the last NOT READY reply there has been no UNIT ATTENTION. */
  predicate Absent(log: seq<Reply>) {
    if log == [] then false else
    var n := |log| - 1;
    match log[n].sense
    case NotReady => true
    case Attention => false
    case Good => Absent(log[..n])
  }

  /** Between a NOT READY reply and any later ready reply there is a UNIT ATTENTION. */
  ghost predicate ChangesAnnounced(log: seq<Reply>) {
    forall i, j | 0 <= i < j < |log| && log[i].sense.NotReady? && log[j].sense.Good? ::
      exists k :: i < k < j && log[k].sense.Attention?
  }

  lemma {:induction false} AbsentMeans(log: seq<Reply>, i: nat)
    requires i < |log| && log[i].sense.NotReady? && !Absent(log)
    ensures exists k :: i < k < |log| && log[k].sense.Attention?
    decreases |log|
  {
    var n := |log| - 1;
    if log[n].sense.Good? {
      AbsentMeans(log[..n], i);
      var k :| i < k < n && log[..n][k].sense.Attention?;
      assert log[k].sense.Attention?;
    } else {
      assert log[n].sense.Attention?;
    }
  }

  lemma AnnouncedOn(log: seq<Reply>, r: Reply)
    requires ChangesAnnounced(log) && (r.sense.Good? ==> !Absent(log))
    ensures ChangesAnnounced(log + [r])
  {
    var log' := log + [r];
    forall i, j | 0 <= i < j < |log'| && log'[i].sense.NotReady? && log'[j].sense.Good?
      ensures exists k :: i < k < j && log'[k].sense.Attention?
    {
      if j == |log| {
        AbsentMeans(log, i);
        var k :| i < k < |log| && log[k].sense.Attention?;
        assert log'[k].sense.Attention?;
      } else {
        assert log[i].sense.NotReady? && log[j].sense.Good?;
        var k :| i < k < j && log[k].sense.Attention?;
        assert log'[k].sense.Attention?;
      }
    }
  }

  // ---- core 0's view -------------------------------------------------------------------------------

  function Wanted(insert: bool): Reply { if insert then Reply(Attention, true) else Reply(NotReady, true) }

  /** From reply number `mark` up to `end`, one answered the request. */
  ghost predicate AnsweredIn(log: seq<Reply>, insert: bool, mark: nat, end: nat) {
    exists k :: mark <= k < end <= |log| && log[k] == Wanted(insert)
  }

  /** An eject returns only when there was nothing to eject, or the host was told NOT READY on account of
      it; an insert only when the host was told UNIT ATTENTION on account of it. */
  ghost predicate Honest(log: seq<Reply>, o: Outcome) {
    (o.already && !o.insert) || AnsweredIn(log, o.insert, o.mark, o.end)
  }

  /** The state a poll leaves for the next one, once it has shown this one. */
  function Upcoming(m: Medium): Medium {
    match m
    case NotPresentStage1 => NotPresent
    case NotPresent => NotPresent
    case MediumChanged => ReadyStage1
    case ReadyStage1 => Ready
    case Ready => Ready
  }

  ghost predicate Inv(d: Disk) {
    && ChangesAnnounced(d.log) && (Absent(d.log) ==> d.next.NotPresent?)
    && d.next == Upcoming(d.medium)
    && (forall i | 0 <= i < |d.outcomes| :: Honest(d.log, d.outcomes[i]))
    && match d.core
       case Resting => !d.ejectRequest && !d.insertRequest
       case Cleared(_) => !d.ejectRequest && !d.insertRequest && !d.ack
       case Waiting(insert, mark) =>
         && d.insertRequest == insert && d.ejectRequest == !insert && mark <= |d.log|
         && (d.ack ==> AnsweredIn(d.log, insert, mark, |d.log|))
       case Answered(insert, mark) =>
         && d.insertRequest == insert && d.ejectRequest == !insert && mark <= |d.log|
         && AnsweredIn(d.log, insert, mark, |d.log|)
  }

  lemma AnsweredLater(log: seq<Reply>, r: Reply, insert: bool, mark: nat, end: nat)
    requires AnsweredIn(log, insert, mark, end)
    ensures AnsweredIn(log + [r], insert, mark, end)
        && (end == |log| ==> AnsweredIn(log + [r], insert, mark, |log| + 1))
  {
    var k :| mark <= k < end <= |log| && log[k] == Wanted(insert);
    assert (log + [r])[k] == Wanted(insert);
  }

  lemma OutcomesKept(log: seq<Reply>, r: Reply, outcomes: seq<Outcome>)
    requires forall i | 0 <= i < |outcomes| :: Honest(log, outcomes[i])
    ensures forall i | 0 <= i < |outcomes| :: Honest(log + [r], outcomes[i])
  {
    hide AnsweredIn;
    forall i | 0 <= i < |outcomes| ensures Honest(log + [r], outcomes[i]) {
      var o := outcomes[i];
      assert Honest(log, o);
      if AnsweredIn(log, o.insert, o.mark, o.end) { AnsweredLater(log, r, o.insert, o.mark, o.end); }
    }
  }

  lemma PollKeeps(d: Disk)
    requires Inv(d)
    ensures Inv(Polled(d))
  {
    hide ChangesAnnounced, AnsweredIn, Honest;
    var t := Polled(d);
    var r := t.log[|d.log|];
    assert t.log == d.log + [r] && t.log[..|d.log|] == d.log;
    AnnouncedOn(d.log, r);
    OutcomesKept(d.log, r, d.outcomes);
    if d.core.Waiting? || d.core.Answered? {
      if AnsweredIn(d.log, d.core.insert, d.core.mark, |d.log|) {
        AnsweredLater(d.log, r, d.core.insert, d.core.mark, |d.log|);
      } else if t.ack && !d.ack {
        AnsweredNow(d.log, r, d.core.insert, d.core.mark);
      }
    }
  }

  lemma LastHonest(d: Disk)
    requires Inv(d) && d.outcomes != []
    ensures Honest(d.log, d.outcomes[|d.outcomes| - 1])
  {}

  lemma AnsweredNow(log: seq<Reply>, r: Reply, insert: bool, mark: nat)
    requires mark <= |log| && r == Wanted(insert)
    ensures AnsweredIn(log + [r], insert, mark, |log| + 1)
  {
    assert (log + [r])[|log|] == Wanted(insert);
  }

  lemma StepKeeps(d: Disk, s: Step)
    requires Inv(d) && Enabled(d, s)
    ensures Inv(Next(d, s))
  {
    hide ChangesAnnounced, AnsweredIn, Absent, Polled;
    if s.Poll? { PollKeeps(d); }
  }

  /** Over every run, with core 0's steps and the host's polls and commands in any order: the host is told
      of every return of the medium, and no call of core 0 returns before the host was told. */
  lemma {:induction false} RunKeeps(d: Disk, steps: seq<Step>)
    requires Inv(d) && Run(d, steps)
    ensures Inv(After(d, steps))
    decreases |steps|
  {
    hide Inv, Next, Enabled;
    if steps != [] {
      StepKeeps(d, steps[0]);
      RunKeeps(Next(d, steps[0]), steps[1..]);
    }
  }

  lemma FromStart(steps: seq<Step>)
    requires Run(Init(), steps)
    ensures var d := After(Init(), steps);
            ChangesAnnounced(d.log) && forall i | 0 <= i < |d.outcomes| :: Honest(d.log, d.outcomes[i])
  {
    RunKeeps(Init(), steps);
  }

  // ---- when a request is answered ----------------------------------------------------------------

  function Polls(d: Disk, n: nat): Disk
    decreases n
  {
    if n == 0 then d else Polls(Polled(d), n - 1)
  }

  predicate Waits(d: Disk, insert: bool) { d.core.Waiting? && d.core.insert == insert && !d.ack }

  lemma {:induction false} AckStays(d: Disk, n: nat)
    requires d.ack
    ensures Polls(d, n).ack
    decreases n
  {
    if n > 0 { AckStays(Polled(d), n - 1); }
  }

  /** While the host only polls, a waiting eject is acknowledged if and only if the medium is neither out
      already nor ejected by the host; then within two polls, otherwise never. */
  lemma {:induction false} EjectAnswered(d: Disk, n: nat)
    requires Inv(d) && Waits(d, false)
    ensures Polls(d, n).ack ==> !d.hostEjected && !d.next.NotPresent?
    ensures n >= 2 ==> (Polls(d, n).ack <==> !d.hostEjected && !d.next.NotPresent?)
    decreases n
  {
    if n > 0 {
      PollKeeps(d);
      var t := Polled(d);
      if t.ack {
        AckStays(t, n - 1);
      } else {
        EjectAnswered(t, n - 1);
        if d.next.ReadyStage1? && !d.hostEjected && n >= 2 { AckStays(Polled(t), n - 2); }
      }
    }
  }

  /** While the host only polls, a waiting insert is acknowledged if and only if the medium is out or
      ejected by the host; then within two polls, otherwise never. */
  lemma {:induction false} InsertAnswered(d: Disk, n: nat)
    requires Inv(d) && Waits(d, true)
    ensures Polls(d, n).ack ==> d.hostEjected || d.next.NotPresent?
    ensures n >= 2 ==> (Polls(d, n).ack <==> d.hostEjected || d.next.NotPresent?)
    decreases n
  {
    if n > 0 {
      PollKeeps(d);
      var t := Polled(d);
      if t.ack {
        AckStays(t, n - 1);
      } else {
        InsertAnswered(t, n - 1);
        if d.hostEjected && n >= 2 { AckStays(Polled(t), n - 2); }
      }
    }
  }

  /** A call to eject with the host polling on: it finds nothing to do, or is answered, exactly when the
      host has not ejected the medium and no earlier eject is still on its way out. The test the call
      itself makes, for a medium that is out, lets both through. */
  lemma EjectCallAnswered(d: Disk, n: nat)
    requires Inv(d) && d.core == Cleared(false) && n >= 2
    ensures Next(d, Raise).core.Resting? || Polls(Next(d, Raise), n).ack
        <==> d.medium.NotPresent? || (!d.hostEjected && !d.medium.NotPresentStage1?)
  {
    var t := Next(d, Raise);
    if t.core.Waiting? {
      StepKeeps(d, Raise);
      EjectAnswered(t, n);
    }
  }

  /** A call to insert is answered exactly when the medium is out, on its way out, or ejected by the host. */
  lemma InsertCallAnswered(d: Disk, n: nat)
    requires Inv(d) && d.core == Cleared(true) && n >= 2
    ensures Polls(Next(d, Raise), n).ack
        <==> d.medium.NotPresent? || d.medium.NotPresentStage1? || d.hostEjected
  {
    StepKeeps(d, Raise);
    InsertAnswered(Next(d, Raise), n);
  }

  predicate HostOnly(steps: seq<Step>) {
    forall i | 0 <= i < |steps| :: steps[i].Poll? || steps[i].StartStop?
  }

  /** An eject that waits for a medium that is out, or on its way out, waits for ever, whatever the host
      does: polls, ejects and loads in any order. */
  lemma {:induction false} EjectStuck(d: Disk, steps: seq<Step>)
    requires Inv(d) && Waits(d, false) && d.next.NotPresent? && HostOnly(steps)
    ensures Run(d, steps) && Waits(After(d, steps), false)
    decreases |steps|
  {
    if steps != [] {
      StepKeeps(d, steps[0]);
      EjectStuck(Next(d, steps[0]), steps[1..]);
    }
  }

  /** In every other case there is something the host can do to end the wait: cancel its own eject by a
      load, and poll. */
  lemma EjectEnds(d: Disk)
    requires Inv(d) && Waits(d, false) && !d.next.NotPresent?
    ensures var steps := [StartStop(true, true), Poll, Poll]; HostOnly(steps) && Run(d, steps) && After(d, steps).ack
  {
    var t := Next(d, StartStop(true, true));
    StepKeeps(d, StartStop(true, true));
    EjectAnswered(t, 2);
    assert Polls(t, 2) == Polled(Polled(t));
    assert [StartStop(true, true), Poll, Poll][1..] == [Poll, Poll] && [Poll, Poll][1..] == [Poll] && [Poll][1..] == [];
    assert Run(Polled(Polled(t)), []) && Run(Polled(t), [Poll]) && Run(t, [Poll, Poll]);
    assert After(Polled(t), [Poll]) == Polled(Polled(t));
    assert After(t, [Poll, Poll]) == After(Polled(t), [Poll]);
  }

  /** The steps of a call up to where it waits, or finds nothing to do. */
  lemma CallThenRaise(d: Disk, insert: bool)
    requires d.core.Resting?
    ensures Run(d, [Call(insert), Raise]) && After(d, [Call(insert), Raise]) == Next(Next(d, Call(insert)), Raise)
  {
    var t := Next(d, Call(insert));
    assert [Call(insert), Raise][1..] == [Raise] && [Raise][1..] == [];
    assert Run(Next(t, Raise), []) && Run(t, [Raise]);
    assert After(t, [Raise]) == Next(t, Raise);
  }

  /** Two ejects in a row, with no command from the host: the second waits for ever. */
  lemma SecondEjectStuck(steps: seq<Step>)
    requires HostOnly(steps)
    ensures var first, second := [Call(false), Raise, Poll, SeeAck, Lower], [Call(false), Raise];
            && Run(Init(), first) && Run(After(Init(), first), second)
            && var d := After(After(Init(), first), second); Run(d, steps) && Waits(After(d, steps), false)
  {
    var d0 := Init();
    var d1 := Next(d0, Call(false));
    var d2 := Next(d1, Raise);
    var d3 := Next(d2, Poll);
    var d4 := Next(d3, SeeAck);
    var d5 := Next(d4, Lower);
    assert [Lower][1..] == [] && Run(d5, []) && After(d4, [Lower]) == d5;
    assert [SeeAck, Lower][1..] == [Lower] && Run(d3, [SeeAck, Lower]) && After(d3, [SeeAck, Lower]) == d5;
    assert [Poll, SeeAck, Lower][1..] == [SeeAck, Lower] && Run(d2, [Poll, SeeAck, Lower])
        && After(d2, [Poll, SeeAck, Lower]) == d5;
    assert [Raise, Poll, SeeAck, Lower][1..] == [Poll, SeeAck, Lower] && Run(d1, [Raise, Poll, SeeAck, Lower]);
    assert [Call(false), Raise, Poll, SeeAck, Lower][1..] == [Raise, Poll, SeeAck, Lower];
    RunKeeps(d0, [Call(false), Raise, Poll, SeeAck, Lower]);
    CallThenRaise(d5, false);
    RunKeeps(d5, [Call(false), Raise]);
    EjectStuck(After(d5, [Call(false), Raise]), steps);
  }

  /** The host ejects, and core 0 asks before the next poll: no number of polls ends the wait. */
  lemma HostEjectedFirst(n: nat)
    ensures var first, second := [StartStop(true, false)], [Call(false), Raise];
            && Run(Init(), first) && Run(After(Init(), first), second)
            && var d := After(After(Init(), first), second); Waits(d, false) && !Polls(d, n).ack
  {
    var d1 := Next(Init(), StartStop(true, false));
    assert [StartStop(true, false)][1..] == [] && Run(d1, []) && After(Init(), [StartStop(true, false)]) == d1;
    StepKeeps(Init(), StartStop(true, false));
    CallThenRaise(d1, false);
    RunKeeps(d1, [Call(false), Raise]);
    EjectAnswered(After(d1, [Call(false), Raise]), n);
  }

  /** An insert while the medium is in: no number of polls ends the wait. */
  lemma InsertWhileIn(n: nat)
    ensures Run(Init(), [Call(true), Raise])
    ensures var d := After(Init(), [Call(true), Raise]); Waits(d, true) && !Polls(d, n).ack
  {
    CallThenRaise(Init(), true);
    RunKeeps(Init(), [Call(true), Raise]);
    InsertAnswered(After(Init(), [Call(true), Raise]), n);
  }

  // ---- what the host sees --------------------------------------------------------------------------

  /** The host takes the medium out by an eject and puts it back by a load, and by nothing else; a start or
      stop without either changes nothing. The next poll takes an eject in. */
  lemma HostViewChanges(d: Disk, s: Step)
    requires Enabled(d, s)
    ensures Next(d, s).hostEjected ==
            match s
            case StartStop(loadEject, start) => if loadEject then !start else d.hostEjected
            case Poll => false
            case _ => d.hostEjected
    ensures s.StartStop? ==> Next(d, s) == d.(hostEjected := Next(d, s).hostEjected)
    ensures s == StartStop(false, true) || s == StartStop(false, false) ==> Next(d, s) == d
  {}

  const OUT: seq<Step> := [Call(false), Raise, Poll, SeeAck, Lower, Poll]
  const IN: seq<Step> := [Call(true), Raise, Poll, SeeAck, Lower, Poll, Poll]

  /** An eject and an insert by core 0 with the host polling: NOT READY twice, UNIT ATTENTION once, ready
      again; both calls return, and everything is as before. */
  lemma OutAndIn()
    ensures Run(Init(), OUT) && Run(After(Init(), OUT), IN)
    ensures After(After(Init(), OUT), IN) == Init().(
              ack := true,
              log := [Reply(NotReady, true), Reply(NotReady, false), Reply(Attention, true), Reply(Good, false),
                      Reply(Good, false)],
              outcomes := [Outcome(false, 0, 1, false), Outcome(true, 2, 3, false)])
  {}

  /** The host's own eject: NOT READY until core 0 inserts; taken back before a poll it was never there. */
  lemma HostOutAndBack()
    ensures var steps := [StartStop(true, false), Poll, Poll];
            Run(Init(), steps) && After(Init(), steps) ==
            Init().(medium := NotPresent, next := NotPresent, log := [Reply(NotReady, false), Reply(NotReady, false)])
    ensures var steps := [StartStop(true, false), StartStop(true, true), Poll];
            Run(Init(), steps) && After(Init(), steps) == Init().(log := [Reply(Good, false)])
  {}

  // ---- the shared variables ------------------------------------------------------------------------

  class Variables {
    var medium: Medium
    var next: Medium
    var ejectRequest: bool
    var insertRequest: bool
    var ack: bool
    var hostEjected: bool
    ghost var core: Core
    ghost var log: seq<Reply>
    ghost var outcomes: seq<Outcome>

    ghost function State(): Disk reads this {
      Disk(medium, next, ejectRequest, insertRequest, ack, hostEjected, core, log, outcomes)
    }

    constructor ()
      ensures State() == Init() && Inv(State())
    {
      medium, next, ejectRequest, insertRequest, ack, hostEjected := Ready, Ready, false, false, false, false;
      core, log, outcomes := Resting, [], [];
    }

    /** The host asks whether the unit is ready. */
    method TestUnitReady() returns (ready: bool, sense: Sense)
      requires Inv(State())
      modifies this
      ensures Inv(State()) && State() == Next(old(State()), Poll)
      ensures log == old(log) + [Reply(sense, log[|old(log)|].acked)] && ready == sense.Good?
    {
      hide Inv;
      PollKeeps(State());
      ghost var acked := false;
      medium := next;
      if hostEjected {
        medium := NotPresent;
        next := medium;
        hostEjected := false;
      } else if insertRequest && medium == NotPresent {
        medium := MediumChanged;
        ack := true;
        acked := true;
      } else if ejectRequest && medium == Ready {
        medium := NotPresentStage1;
        ack := true;
        acked := true;
      }
      match medium {
        case NotPresentStage1 => sense, next, ready := NotReady, NotPresent, false;
        case NotPresent => sense, next, ready := NotReady, NotPresent, false;
        case MediumChanged => sense, next, ready := Attention, ReadyStage1, false;
        case ReadyStage1 => sense, next, ready := Good, Ready, true;
        case Ready => sense, next, ready := Good, Ready, true;
      }
      log := log + [Reply(sense, acked)];
    }

    /** The host loads or ejects. */
    method HostStartStop(start: bool, loadEject: bool)
      requires Inv(State())
      modifies this
      ensures Inv(State()) && State() == Next(old(State()), StartStop(loadEject, start))
      ensures hostEjected == (if loadEject then !start else old(hostEjected))
    {
      hide Inv;
      StepKeeps(State(), StartStop(loadEject, start));
      if loadEject {
        if start {
          hostEjected := false;
        } else {
          hostEjected := true;
        }
      }
    }

    /** The host does any number of things. */
    method HostRuns()
      requires Inv(State())
      modifies this
      ensures Inv(State()) && core == old(core) && outcomes == old(outcomes) && |log| >= |old(log)|
    {
      hide Inv;
      var n: nat := *;
      while n > 0
        invariant Inv(State()) && core == old(core) && outcomes == old(outcomes) && |log| >= |old(log)|
      {
        if * {
          var r, s := TestUnitReady();
        } else {
          var start, loadEject: bool := *, *;
          HostStartStop(start, loadEject);
        }
        n := n - 1;
      }
    }

    /** The request goes up, unless an eject finds nothing to eject. */
    method RaiseRequest(insert: bool) returns (already: bool)
      requires Inv(State()) && core == Cleared(insert)
      modifies this
      ensures Inv(State()) && State() == Next(old(State()), Raise) && already == core.Resting? && log == old(log)
      ensures if already then outcomes == old(outcomes) + [Outcome(false, |log|, |log|, true)] && !insert
              else core == Waiting(insert, |log|) && outcomes == old(outcomes)
    {
      hide Inv;
      StepKeeps(State(), Raise);
      if insert {
        insertRequest, core := true, Waiting(true, |log|);
      } else {
        if medium == NotPresent {
          core, outcomes := Resting, outcomes + [Outcome(false, |log|, |log|, true)];
          return true;
        }
        ejectRequest, core := true, Waiting(false, |log|);
      }
      already := false;
    }

    method LowerRequest(insert: bool, ghost mark: nat)
      requires Inv(State()) && core == Answered(insert, mark)
      modifies this
      ensures Inv(State()) && State() == Next(old(State()), Lower)
      ensures core.Resting? && log == old(log) && outcomes == old(outcomes) + [Outcome(insert, mark, |log|, false)]
    {
      hide Inv;
      StepKeeps(State(), Lower);
      outcomes := outcomes + [Outcome(insert, mark, |log|, false)];
      if insert { insertRequest := false; } else { ejectRequest := false; }
      core := Resting;
    }

    method ClearAck(insert: bool)
      requires Inv(State()) && core.Resting?
      modifies this
      ensures Inv(State()) && State() == Next(old(State()), Call(insert))
      ensures core == Cleared(insert) && log == old(log) && outcomes == old(outcomes)
    {
      hide Inv;
      StepKeeps(State(), Call(insert));
      ack, core := false, Cleared(insert);
    }

    /** The wait for the acknowledgement. The source has no limit; here it may be given up. */
    method AwaitAck(insert: bool, ghost mark: nat, patience: nat) returns (acked: bool)
      requires Inv(State()) && core == Waiting(insert, mark)
      modifies this
      ensures Inv(State()) && outcomes == old(outcomes) && |log| >= |old(log)|
      ensures core == (if acked then Answered(insert, mark) else Waiting(insert, mark)) && (acked || !ack)
    {
      hide Inv;
      var tries := patience;
      while !ack
        invariant Inv(State()) && core == Waiting(insert, mark) && |log| >= |old(log)| && outcomes == old(outcomes)
        decreases tries
      {
        if tries == 0 { return false; }
        HostRuns();
        tries := tries - 1;
      }
      StepKeeps(State(), SeeAck);
      core := Answered(insert, mark);
      acked := true;
    }

    /** insert_or_eject_usbmsdrive, with the host running between any two of its accesses. A call that has
        not returned has raised its request and waits, unacknowledged. */
    method InsertOrEject(insert: bool, patience: nat) returns (returned: bool)
      requires Inv(State()) && core.Resting?
      modifies this
      ensures Inv(State()) && |log| >= |old(log)|
      ensures returned ==> core.Resting? && |outcomes| == |old(outcomes)| + 1
      ensures returned ==> var o := outcomes[|old(outcomes)|];
                           Honest(log, o) && o.insert == insert && o.mark >= |old(log)|
      ensures !returned ==> core.Waiting? && core.insert == insert && core.mark >= |old(log)| && !ack
      ensures !returned ==> outcomes == old(outcomes)
    {
      hide Inv, Honest, Next, Enabled;
      HostRuns();
      ClearAck(insert);
      HostRuns();
      var already := RaiseRequest(insert);
      if !already {
        ghost var mark := |log|;
        returned := AwaitAck(insert, mark, patience);
        if !returned { return; }
        HostRuns();
        LowerRequest(insert, mark);
      }
      LastHonest(State());
      returned := true;
    }
  }
}
