/** What running a compiled program does: repeated writes and reads are expanded into result slots, a
    protocol is called for each, and the run ends at the first error. */
module SyntaxRun {
  import opened Bytes
  import opened Options
  import opened Syntax

  datatype Severity = NoError | Debug | Info | Warn | Failure

  /** What a protocol reports on a slot. */
  datatype Report = Report(error: Severity, data: nat)

  /** A result slot: a copy of the instruction, and the report on it. */
  datatype Slot = Slot(instr: Instr, report: Report)

  /** One call of a protocol or pin routine: on which slot, and the instruction announced to follow. */
  datatype Act = Act(command: Command, slot: nat, next: Option<Instr>)

  function Copies(i: Instr): nat {
    if (i.command.Write? || i.command.Read?) && i.repeat >= 1 then i.repeat else 1
  }

  /** The slots a program's results take: a copy per repeat for writes and reads, one otherwise. */
  function Expansion(p: seq<Instr>): (e: seq<Instr>) {
    if p == [] then [] else
    var n := |p| - 1;
    Expansion(p[..n]) + Repeated(p[n], Copies(p[n]))
  }

  lemma {:induction false} ExpansionPrefix(p: seq<Instr>, n: nat)
    requires n <= |p|
    ensures Expansion(p[..n]) <= Expansion(p)
    decreases |p|
  {
    if n < |p| {
      ExpansionPrefix(p[..|p| - 1], n);
      assert p[..|p| - 1][..n] == p[..n];
    } else {
      assert p[..n] == p;
    }
  }

  lemma {:induction false} SlotsConcat(p: seq<Instr>, q: seq<Instr>)
    ensures |Expansion(p + q)| == |Expansion(p)| + |Expansion(q)|
    decreases |q|
  {
    if q == [] {
      assert p + q == p;
    } else {
      var n := |q| - 1;
      SlotsConcat(p, q[..n]);
      assert (p + q)[..|p + q| - 1] == p + q[..n];
    }
  }

  /** The charges of a program without zero repeats cover its slots. */
  lemma {:induction false} ChargesCover(p: seq<Instr>)
    requires forall i | 0 <= i < |p| :: p[i].repeat >= 1
    ensures |Expansion(p)| <= Charges(p)
    decreases |p|
  {
    if p != [] {
      var n := |p| - 1;
      ChargesCover(p[..n]);
      ChargesConcat(p[..n], [p[n]]);
      assert p == p[..n] + [p[n]];
      assert Charges([p[n]]) == Charge(p[n]) + Charges([]);
    }
  }

  function AtLeastOnce(a: Attrs): nat {
    if a.repeat.Some? && a.repeat.value >= 1 then a.repeat.value else 1
  }

  /** The slots the results of a token take: the repeats of writes and reads, at least one each, and one
      for every other instruction. */
  function SlotsOf(t: Token): nat {
    match t
    case Number(_, _, attrs) => AtLeastOnce(attrs)
    case Text(chars) => |chars|
    case Symbol(c, attrs) => if c == 'r' then AtLeastOnce(attrs) else 1
    case _ => 0
  }

  function SlotsFor(tokens: seq<Token>): nat {
    if tokens == [] then 0 else
    var n := |tokens| - 1;
    SlotsFor(tokens[..n]) + SlotsOf(tokens[n])
  }

  lemma {:induction false} LiteralSlots(cfg: Config, chars: seq<u8>)
    ensures |Expansion(Literal(cfg, chars))| == |chars|
    decreases |chars|
  {
    if chars != [] {
      var n := |chars| - 1;
      LiteralSlots(cfg, chars[..n]);
      assert Literal(cfg, chars)[..n] == Literal(cfg, chars[..n]);
    }
  }

  lemma TokenSlots(cfg: Config, t: Token)
    requires |cfg.pinFree| == PINS && Meaning(cfg, t).Some?
    ensures |Expansion(Meaning(cfg, t).value)| == SlotsOf(t)
  {
    if t.Text? {
      LiteralSlots(cfg, t.chars);
    } else if !t.Skip? {
      var i := Meaning(cfg, t).value[0];
      assert [i][..0] == [] && Expansion([i]) == Expansion([]) + Repeated(i, Copies(i));
    }
  }

  lemma {:induction false} ProgramSlots(cfg: Config, tokens: seq<Token>)
    requires |cfg.pinFree| == PINS && Program(cfg, tokens).Some?
    ensures |Expansion(Program(cfg, tokens).value)| == SlotsFor(tokens)
    decreases |tokens|
  {
    hide Meaning, Expansion, SlotsOf;
    if tokens == [] {
      assert |Expansion([])| == 0 by { NothingExpands([]); }
    } else {
      var n := |tokens| - 1;
      assert tokens == tokens[..n] + [tokens[n]];
      ProgramSnoc(cfg, tokens[..n], tokens[n]);
      ProgramSlots(cfg, tokens[..n]);
      TokenSlots(cfg, tokens[n]);
      SlotsConcat(Program(cfg, tokens[..n]).value, Meaning(cfg, tokens[n]).value);
    }
  }

  /** The calls one instruction makes when its first slot is `base`. */
  function Acts(p: seq<Instr>, pos: nat, base: nat): seq<Act>
    requires pos < |p|
  {
    var i := p[pos];
    match i.command
    case Write => SlotCalls(p, pos, base, i.repeat, false)
    case Read => SlotCalls(p, pos, base, i.repeat, true)
    case TickClock => SameCalls(TickClock, base, i.repeat)
    case ReadDat => SameCalls(ReadDat, base, i.repeat)
    case _ => [Act(i.command, base, None)]
  }

  /** n calls for instruction pos, on one slot after the other. */
  function SlotCalls(p: seq<Instr>, pos: nat, base: nat, n: nat, announce: bool): (acts: seq<Act>)
    requires pos < |p|
    ensures |acts| == n
    ensures forall j | 0 <= j < n ::
        acts[j] == Act(p[pos].command, base + j, if announce then NextOf(p, pos, j) else None)
  {
    seq(n, j requires 0 <= j => Act(p[pos].command, base + j, if announce then NextOf(p, pos, j) else None))
  }

  /** n calls on one slot. */
  function SameCalls(command: Command, slot: nat, n: nat): (acts: seq<Act>)
    ensures |acts| == n && forall j | 0 <= j < n :: acts[j] == Act(command, slot, None)
  {
    seq(n, j => Act(command, slot, None))
  }

  function Repeated(i: Instr, n: nat): (e: seq<Instr>)
    ensures |e| == n && forall k | 0 <= k < n :: e[k] == i
  {
    seq(n, k => i)
  }

  /** The instruction announced to a read: the one that follows, on the last repetition only. */
  function NextOf(p: seq<Instr>, pos: nat, j: nat): Option<Instr>
    requires pos < |p|
  {
    if pos + 1 < |p| && j + 1 == p[pos].repeat then Some(p[pos + 1]) else None
  }

  function ActsUpTo(p: seq<Instr>, n: nat): seq<Act>
    requires n <= |p|
  {
    if n == 0 then [] else ActsUpTo(p, n - 1) + Acts(p, n - 1, |Expansion(p[..n - 1])|)
  }

  /** The device: its report on a slot may depend on everything asked of it so far. */
  type Device = (seq<Act>, Slot) -> Report

  function Fresh(i: Instr): Slot { Slot(i, Report(NoError, 0)) }

  /** What a call leaves on slot t when `log` ends in it: delays and pin outputs leave it alone, pin inputs
      and voltages set the data, protocols both error and data. */
  function Answer(device: Device, log: seq<Act>, command: Command, t: Slot): Report {
    match command
    case DelayUs => t.report
    case DelayMs => t.report
    case AuxHigh => t.report
    case AuxLow => t.report
    case AuxInput => t.report.(data := device(log, t).data)
    case Adc => t.report.(data := device(log, t).data)
    case _ => device(log, t)
  }

  /** A slot after these calls were made on it, one after the other. */
  function Told(device: Device, log: seq<Act>, s: Slot, acts: seq<Act>): (t: Slot)
    ensures t.instr == s.instr
  {
    if acts == [] then s else
    var n := |acts| - 1;
    var t := Told(device, log, s, acts[..n]);
    t.(report := Answer(device, log + acts, acts[n].command, t))
  }

  /** The slot tests of the run: a write adds its own repeats, a read those of the program's first
      instruction. */
  predicate IsRefused(p: seq<Instr>, pos: nat, base: nat)
    requires pos < |p|
  {
    || (p[pos].command.Write? && Wrap32(base + p[pos].repeat) >= MAX_LENGTH)
    || (p[pos].command.Read? && Wrap32(base + p[0].repeat) >= MAX_LENGTH)
  }

  /** The slots one instruction fills: an error when it is refused, for a write or read one reported on
      by each call, for any other the one all its calls report on. */
  function Results(device: Device, log: seq<Act>, p: seq<Instr>, pos: nat, base: nat): (r: seq<Slot>)
    requires pos < |p|
    ensures |r| == if IsRefused(p, pos, base) then 1 else Copies(p[pos])
    ensures forall k | 0 <= k < |r| :: r[k].instr == p[pos]
  {
    var i, acts := p[pos], Acts(p, pos, base);
    if IsRefused(p, pos, base) then [Slot(i, Report(Failure, 0))] else
    if (i.command.Write? || i.command.Read?) && i.repeat >= 1 then
      seq(i.repeat, j requires 0 <= j < i.repeat => Slot(i, device(log + acts[..j + 1], Fresh(i))))
    else [Told(device, log, Fresh(i), acts)]
  }

  predicate Refused(p: seq<Instr>, pos: nat)
    requires pos < |p|
  {
    IsRefused(p, pos, |Expansion(p[..pos])|)
  }

  /** How a run stands: going on; ended at an error on the current slot; ended because the slots are used
      up; or writing past the last slot. */
  datatype Ending = Going | AtError | OutOfSlots | PastSlots

  /** A run so far: the slots filled, the calls made, and the instructions carried out. */
  datatype Trace = Trace(slots: seq<Slot>, log: seq<Act>, done: nat, ending: Ending)

  function Failed(s: Slot): Slot { s.(report := s.report.(error := Failure)) }

  function RunOn(device: Device, t: Trace, p: seq<Instr>, pos: nat): Trace
    requires pos < |p|
  {
    if !t.ending.Going? then t else
    var base := |t.slots|;
    var added := Results(device, t.log, p, pos, base);
    var refused := IsRefused(p, pos, base);
    if !refused && base + |added| > MAX_LENGTH then t.(ending := PastSlots) else
    var all, n := t.slots + added, base + |added| - 1;
    var log, done := if refused then t.log else t.log + Acts(p, pos, base), if refused then t.done else pos + 1;
    if n + 1 >= MAX_LENGTH then Trace(all[n := Failed(all[n])], log, done, OutOfSlots)
    else Trace(all, log, done, if all[n].report.error == Failure then AtError else Going)
  }

  function RunUpTo(device: Device, log: seq<Act>, p: seq<Instr>, n: nat): Trace
    requires n <= |p|
  {
    if n == 0 then Trace([], log, 0, Going) else RunOn(device, RunUpTo(device, log, p, n - 1), p, n - 1)
  }

  lemma NextExpansion(p: seq<Instr>, pos: nat)
    requires pos < |p|
    ensures Expansion(p[..pos + 1]) == Expansion(p[..pos]) + Repeated(p[pos], Copies(p[pos]))
    ensures Expansion(p[..pos + 1]) <= Expansion(p)
  {
    assert p[..pos + 1][..pos] == p[..pos];
    ExpansionPrefix(p, pos + 1);
  }

  /** How trace t of n instructions stands to their expansion. */
  predicate Shaped(t: Trace, p: seq<Instr>, n: nat)
    requires n <= |p|
  {
    && t.done <= n && |t.slots| <= MAX_LENGTH
    && match t.ending
       case Going => t.done == n && |t.slots| == |Expansion(p[..n])| < MAX_LENGTH
       case PastSlots => t.done < n && !Refused(p, t.done) && |t.slots| == |Expansion(p[..t.done])|
           && |Expansion(p[..t.done + 1])| > MAX_LENGTH
       case _ =>
         && t.slots != [] && t.slots[|t.slots| - 1].report.error == Failure
              && (t.ending.OutOfSlots? <==> |t.slots| == MAX_LENGTH)
         && (|t.slots| == |Expansion(p[..t.done])|
              || (t.done < n && Refused(p, t.done) && |t.slots| == |Expansion(p[..t.done])| + 1))
  }

  lemma {:induction false} RunShape(device: Device, log: seq<Act>, p: seq<Instr>, n: nat)
    requires n <= |p|
    ensures var t := RunUpTo(device, log, p, n); t.done <= n && t.log == log + ActsUpTo(p, t.done) && Shaped(t, p, n)
    decreases n
  {
    hide Acts, Expansion, Results, IsRefused, RunOn, Shaped;
    if n == 0 {
      NothingExpands(p);
    } else {
      RunShape(device, log, p, n - 1);
      StepShape(device, log, RunUpTo(device, log, p, n - 1), p, n - 1);
    }
  }

  lemma StepShape(device: Device, log: seq<Act>, t: Trace, p: seq<Instr>, pos: nat)
    requires pos < |p| && t.done <= pos && t.log == log + ActsUpTo(p, t.done) && Shaped(t, p, pos)
    ensures var t' := RunOn(device, t, p, pos);
            t'.done <= pos + 1 && t'.log == log + ActsUpTo(p, t'.done) && Shaped(t', p, pos + 1)
  {
    hide Shaped, RunOn, Refused, IsRefused, Results, Expansion, Acts, ActsUpTo;
    if t.ending.Going? { SpaceTaken(t, p, pos); }
    CarriedLog(device, log, t, p, pos);
    if !t.ending.Going? { EndedShape(device, t, p, pos); }
    else if IsRefused(p, pos, |t.slots|) { RefusedShape(device, t, p, pos); }
    else { CarriedShape(device, t, p, pos); }
  }

  lemma EndedShape(device: Device, t: Trace, p: seq<Instr>, pos: nat)
    requires pos < |p| && Shaped(t, p, pos) && !t.ending.Going?
    ensures RunOn(device, t, p, pos) == t && Shaped(t, p, pos + 1)
  {
    hide Expansion, Results, Refused, IsRefused, Acts;
  }

  lemma RefusedShape(device: Device, t: Trace, p: seq<Instr>, pos: nat)
    requires pos < |p| && Shaped(t, p, pos) && t.ending.Going? && IsRefused(p, pos, |t.slots|)
    ensures var t' := RunOn(device, t, p, pos); t'.done == t.done && t'.log == t.log && Shaped(t', p, pos + 1)
  {
    hide Expansion, Results, Refused, IsRefused, Acts;
    RefusedMeans(p, pos);
    RefusedResult(device, t.log, p, pos, |t.slots|);
  }

  lemma CarriedShape(device: Device, t: Trace, p: seq<Instr>, pos: nat)
    requires pos < |p| && Shaped(t, p, pos) && t.ending.Going? && !IsRefused(p, pos, |t.slots|)
    ensures Shaped(RunOn(device, t, p, pos), p, pos + 1)
  {
    hide Expansion, Results, Refused, IsRefused, Acts, Shaped;
    SpaceTaken(t, p, pos);
    var n := |Results(device, t.log, p, pos, |t.slots|)|;
    if |t.slots| + n > MAX_LENGTH {
      PastShape(t, p, pos);
    } else {
      DoneShape(RunOn(device, t, p, pos), p, pos + 1);
    }
  }

  lemma CarriedLog(device: Device, log: seq<Act>, t: Trace, p: seq<Instr>, pos: nat)
    requires pos < |p| && t.done <= pos && t.log == log + ActsUpTo(p, t.done)
    requires t.ending.Going? ==> t.done == pos && |t.slots| == |Expansion(p[..pos])|
    ensures var t' := RunOn(device, t, p, pos); t'.done <= pos + 1 && t'.log == log + ActsUpTo(p, t'.done)
  {
    hide Expansion, Results, Refused, IsRefused, Acts, ActsUpTo;
    if t.ending.Going? { LogStep(log, p, pos, |t.slots|); }
  }

  lemma SpaceTaken(t: Trace, p: seq<Instr>, pos: nat)
    requires pos < |p| && Shaped(t, p, pos) && t.ending.Going?
    ensures t.done == pos && |t.slots| == |Expansion(p[..pos])| < MAX_LENGTH
    ensures |t.slots| + Copies(p[pos]) == |Expansion(p[..pos + 1])|
    ensures IsRefused(p, pos, |t.slots|) <==> Refused(p, pos)
  {
    hide Expansion, IsRefused;
    NextExpansion(p, pos);
  }

  lemma PastShape(t: Trace, p: seq<Instr>, pos: nat)
    requires pos < |p| && t.done == pos && !Refused(p, pos)
    requires |t.slots| == |Expansion(p[..pos])| <= MAX_LENGTH < |Expansion(p[..pos + 1])|
    ensures Shaped(t.(ending := PastSlots), p, pos + 1)
  {
    hide Expansion, Refused;
  }

  lemma DoneShape(t: Trace, p: seq<Instr>, n: nat)
    requires n <= |p| && t.done == n && 0 < |t.slots| == |Expansion(p[..n])| <= MAX_LENGTH && !t.ending.PastSlots?
    requires if |t.slots| == MAX_LENGTH then t.ending.OutOfSlots? && t.slots[|t.slots| - 1].report.error == Failure
             else t.ending == (if t.slots[|t.slots| - 1].report.error == Failure then AtError else Going)
    ensures Shaped(t, p, n)
  {
    hide Expansion, Refused;
  }

  lemma RefusedMeans(p: seq<Instr>, pos: nat)
    requires pos < |p|
    ensures Refused(p, pos) <==> IsRefused(p, pos, |Expansion(p[..pos])|)
  {}

  lemma LogStep(log: seq<Act>, p: seq<Instr>, pos: nat, base: nat)
    requires pos < |p| && base == |Expansion(p[..pos])|
    ensures log + ActsUpTo(p, pos) + Acts(p, pos, base) == log + ActsUpTo(p, pos + 1)
  {
    hide Acts, Expansion;
  }

  lemma RefusedResult(device: Device, log: seq<Act>, p: seq<Instr>, pos: nat, base: nat)
    requires pos < |p|
    ensures IsRefused(p, pos, base) ==> Results(device, log, p, pos, base) == [Slot(p[pos], Report(Failure, 0))]
  {}

  lemma NothingExpands(p: seq<Instr>)
    ensures p[..0] == [] && Expansion([]) == [] && Shaped(Trace([], [], 0, Going), p, 0)
    ensures forall log :: Shaped(Trace([], log, 0, Going), p, 0)
  {}

  lemma {:induction false} RunCopies(device: Device, log: seq<Act>, p: seq<Instr>, n: nat)
    requires n <= |p|
    ensures var t, e := RunUpTo(device, log, p, n), Expansion(p[..n]);
            |t.slots| <= |e| && forall k | 0 <= k < |t.slots| :: t.slots[k].instr == e[k]
    decreases n
  {
    hide Acts, Expansion, Results, IsRefused;
    if n > 0 {
      RunCopies(device, log, p, n - 1);
      RunShape(device, log, p, n - 1);
      NextExpansion(p, n - 1);
    }
  }

  /** The slots filled are a prefix of the expansion, never more than there are; the calls made are those
      of the instructions carried out; and but for a run past the slots, less than the whole expansion
      means that the last slot holds an error. */
  lemma RunIsPrefix(device: Device, log: seq<Act>, p: seq<Instr>)
    ensures var t := RunUpTo(device, log, p, |p|);
            && t.done <= |p| && t.log == log + ActsUpTo(p, t.done)
            && |t.slots| <= MAX_LENGTH && |t.slots| <= |Expansion(p)|
                 && (forall k | 0 <= k < |t.slots| :: t.slots[k].instr == Expansion(p)[k])
            && (t.ending.Going? ==> |t.slots| == |Expansion(p)|)
            && (t.ending.AtError? || t.ending.OutOfSlots? ==>
                 t.slots != [] && t.slots[|t.slots| - 1].report.error == Failure)
  {
    hide Acts, Expansion, Results, IsRefused, RunUpTo;
    RunShape(device, log, p, |p|);
    RunCopies(device, log, p, |p|);
    assert p[..|p|] == p;
  }

  lemma {:induction false} EndsForGood(device: Device, log: seq<Act>, p: seq<Instr>, n: nat, m: nat)
    requires n <= m <= |p| && !RunUpTo(device, log, p, n).ending.Going?
    ensures RunUpTo(device, log, p, m) == RunUpTo(device, log, p, n)
    decreases m
  {
    hide Acts, Results, IsRefused;
    if n < m { EndsForGood(device, log, p, n, m - 1); }
  }

  /** What instruction pos leaves on its last slot when everything before it is carried out. */
  function LastReport(device: Device, log: seq<Act>, p: seq<Instr>, pos: nat): Report
    requires pos < |p|
  {
    var r := Results(device, log + ActsUpTo(p, pos), p, pos, |Expansion(p[..pos])|);
    r[|r| - 1].report
  }

  lemma StepGoes(device: Device, log: seq<Act>, t: Trace, p: seq<Instr>, pos: nat)
    requires pos < |p| && Shaped(t, p, pos) && t.ending.Going? && t.log == log + ActsUpTo(p, pos)
    ensures var t' := RunOn(device, t, p, pos);
            && (t'.ending.Going? <==>
                 !Refused(p, pos) && |Expansion(p[..pos + 1])| < MAX_LENGTH
                 && LastReport(device, log, p, pos).error != Failure)
            && (t'.done == pos + 1 <==> !Refused(p, pos) && |Expansion(p[..pos + 1])| <= MAX_LENGTH)
  {
    hide Acts, Results, IsRefused, Expansion, ActsUpTo, Shaped, Refused;
    SpaceTaken(t, p, pos);
    RefusedResult(device, t.log, p, pos, |t.slots|);
  }

  lemma {:induction false} GoesOn(device: Device, log: seq<Act>, p: seq<Instr>, n: nat)
    requires n <= |p|
    ensures RunUpTo(device, log, p, n).ending.Going?
        <==> |Expansion(p[..n])| < MAX_LENGTH
             && forall pos: nat | pos < n :: !Refused(p, pos) && LastReport(device, log, p, pos).error != Failure
    decreases n
  {
    hide Acts, Results, IsRefused, Expansion, ActsUpTo, Refused, LastReport, RunOn;
    if n == 0 {
      NothingExpands(p);
    } else {
      GoesOn(device, log, p, n - 1);
      RunShape(device, log, p, n - 1);
      NextExpansion(p, n - 1);
      var t := RunUpTo(device, log, p, n - 1);
      if t.ending.Going? { StepGoes(device, log, t, p, n - 1); } else { EndedShape(device, t, p, n - 1); }
    }
  }

  /** A run carries out the whole program if and only if its results fit the slots, no instruction is
      refused and none before the last leaves an error on its last slot. */
  lemma CarriedOut(device: Device, log: seq<Act>, p: seq<Instr>)
    requires p != []
    ensures RunUpTo(device, log, p, |p|).done == |p|
        <==> |Expansion(p)| <= MAX_LENGTH
             && forall pos: nat | pos < |p| :: !Refused(p, pos)
                  && (pos + 1 < |p| ==> LastReport(device, log, p, pos).error != Failure)
  {
    hide Acts, Results, IsRefused, Expansion, LastReport, ActsUpTo, Refused, RunOn;
    var n := |p| - 1;
    GoesOn(device, log, p, n);
    RunShape(device, log, p, n);
    NextExpansion(p, n);
    assert p[..n + 1] == p;
    var t := RunUpTo(device, log, p, n);
    if t.ending.Going? { StepGoes(device, log, t, p, n); } else { EndedShape(device, t, p, n); }
  }

  /** A run writes past the slots if and only if there is an instruction that is not refused and whose
      copies do not fit behind the slots of those before it, of which none is refused or leaves an error on
      its last slot. */
  lemma PastExactly(device: Device, log: seq<Act>, p: seq<Instr>)
    ensures RunUpTo(device, log, p, |p|).ending.PastSlots?
        <==> exists pos: nat | pos < |p| :: PastAt(device, log, p, pos)
  {
    hide Acts, Results, IsRefused, Expansion, ActsUpTo, Refused, RunOn, LastReport;
    var t := RunUpTo(device, log, p, |p|);
    RunShape(device, log, p, |p|);
    if t.ending.PastSlots? {
      GoingAt(device, log, p, |p|);
      GoesOn(device, log, p, t.done);
      assert PastAt(device, log, p, t.done);
    }
    forall pos: nat | pos < |p| && PastAt(device, log, p, pos) ensures t.ending.PastSlots? {
      GoesOn(device, log, p, pos);
      RunShape(device, log, p, pos);
      GoesPast(device, RunUpTo(device, log, p, pos), p, pos);
      EndsForGood(device, log, p, pos + 1, |p|);
    }
  }

  predicate PastAt(device: Device, log: seq<Act>, p: seq<Instr>, pos: nat)
    requires pos < |p|
  {
    && |Expansion(p[..pos])| < MAX_LENGTH < |Expansion(p[..pos + 1])| && !Refused(p, pos)
    && forall k: nat | k < pos :: !Refused(p, k) && LastReport(device, log, p, k).error != Failure
  }

  lemma GoesPast(device: Device, t: Trace, p: seq<Instr>, pos: nat)
    requires pos < |p| && Shaped(t, p, pos) && t.ending.Going? && !Refused(p, pos)
    requires |Expansion(p[..pos + 1])| > MAX_LENGTH
    ensures RunOn(device, t, p, pos).ending.PastSlots?
  {
    hide Acts, Results, IsRefused, Expansion, Refused, Shaped;
    SpaceTaken(t, p, pos);
  }

  /** Up to the instruction that went past the slots the run was going on. */
  lemma {:induction false} GoingAt(device: Device, log: seq<Act>, p: seq<Instr>, n: nat)
    requires n <= |p| && RunUpTo(device, log, p, n).ending.PastSlots?
    ensures RunUpTo(device, log, p, n).done < n
    ensures RunUpTo(device, log, p, RunUpTo(device, log, p, n).done).ending.Going?
    decreases n
  {
    hide Acts, Results, IsRefused, Expansion, ActsUpTo;
    if n > 0 {
      RunShape(device, log, p, n - 1);
      if RunUpTo(device, log, p, n - 1).ending.PastSlots? { GoingAt(device, log, p, n - 1); }
    }
  }

  /** The run of a program whose results fit ends at an error or with the program, and of its
      instructions only reads are refused: those at which the repeats of the first instruction, added to
      the slots filled, reach the limit. */
  lemma FittingRun(device: Device, log: seq<Act>, p: seq<Instr>)
    requires |Expansion(p)| < MAX_LENGTH
    ensures var t := RunUpTo(device, log, p, |p|); t.ending.Going? || t.ending.AtError?
    ensures forall pos: nat | pos < |p| ::
              Refused(p, pos) <==> p[pos].command.Read? && Wrap32(|Expansion(p[..pos])| + p[0].repeat) >= MAX_LENGTH
  {
    hide Expansion;
    forall pos: nat | pos < |p|
      ensures Refused(p, pos) <==> p[pos].command.Read? && Wrap32(|Expansion(p[..pos])| + p[0].repeat) >= MAX_LENGTH
    {
      NextExpansion(p, pos);
    }
    hide Refused;
    RunShape(device, log, p, |p|);
    RunCopies(device, log, p, |p|);
    assert p[..|p|] == p;
    var done := RunUpTo(device, log, p, |p|).done;
    if done < |p| { ExpansionPrefix(p, done + 1); }
  }

  /** Which instructions are refused, as long as no sum wraps around: a write whose own slots would reach the
      last one there is, a read when the repeats of the first instruction would, and nothing else. */
  lemma RefusedExactly(p: seq<Instr>, pos: nat)
    requires pos < |p| && |Expansion(p[..pos])| + p[pos].repeat < TWO_32 && |Expansion(p[..pos])| + p[0].repeat < TWO_32
    ensures p[pos].command.Write? && p[pos].repeat >= 1 ==>
              (Refused(p, pos) <==> |Expansion(p[..pos + 1])| >= MAX_LENGTH)
    ensures p[pos].command.Write? && p[pos].repeat == 0 ==> (Refused(p, pos) <==> |Expansion(p[..pos])| >= MAX_LENGTH)
    ensures p[pos].command.Read? ==> (Refused(p, pos) <==> |Expansion(p[..pos])| + p[0].repeat >= MAX_LENGTH)
    ensures !p[pos].command.Write? && !p[pos].command.Read? ==> !Refused(p, pos)
  {
    hide Expansion;
    NextExpansion(p, pos);
  }

  /** A run ends at a refused instruction, if not before. */
  lemma EndsWhereRefused(device: Device, log: seq<Act>, p: seq<Instr>, pos: nat)
    requires pos < |p| && Refused(p, pos)
    ensures RunUpTo(device, log, p, |p|).done <= pos
  {
    hide Acts, Results, IsRefused, Expansion;
    RunShape(device, log, p, pos);
    if RunUpTo(device, log, p, pos).ending.Going? {
      RefusedResult(device, log + ActsUpTo(p, pos), p, pos, |Expansion(p[..pos])|);
      EndsForGood(device, log, p, pos + 1, |p|);
    } else {
      EndsForGood(device, log, p, pos, |p|);
    }
  }

  /** A call announces a following instruction exactly when it is the last repetition of a read that is
      not the last instruction, and then it announces the next one. */
  lemma {:induction false} AnnouncedCalls(p: seq<Instr>, n: nat, k: nat)
    requires n <= |p| && k < |ActsUpTo(p, n)|
    ensures ActsUpTo(p, n)[k].next.Some? ==> exists pos: nat :: pos < n && Announces(p, pos, ActsUpTo(p, n)[k])
    decreases n
  {
    hide Expansion;
    var before, base := ActsUpTo(p, n - 1), |Expansion(p[..n - 1])|;
    if k < |before| {
      AnnouncedCalls(p, n - 1, k);
    } else {
      var act := Acts(p, n - 1, base)[k - |before|];
      assert act == ActsUpTo(p, n)[k];
      if act.next.Some? {
        NextExpansion(p, n - 1);
        assert Announces(p, n - 1, act);
      }
    }
  }

  lemma {:induction false} ReadsAnnounce(p: seq<Instr>, n: nat, pos: nat)
    requires n <= |p| && pos < n && pos + 1 < |p| && p[pos].command.Read? && p[pos].repeat >= 1
    ensures exists k :: 0 <= k < |ActsUpTo(p, n)| && Announces(p, pos, ActsUpTo(p, n)[k])
    decreases n
  {
    hide Expansion;
    var before := ActsUpTo(p, n - 1);
    if pos < n - 1 {
      ReadsAnnounce(p, n - 1, pos);
      var k :| 0 <= k < |before| && Announces(p, pos, before[k]);
      assert ActsUpTo(p, n)[k] == before[k];
    } else {
      NextExpansion(p, pos);
      var k := |before| + p[pos].repeat - 1;
      assert ActsUpTo(p, n)[k] == Acts(p, pos, |Expansion(p[..pos])|)[p[pos].repeat - 1];
    }
  }

  /** The call on the last slot of read instruction pos, told of the instruction behind it. */
  predicate Announces(p: seq<Instr>, pos: nat, act: Act) {
    pos + 1 < |p| && p[pos].command.Read? && act == Act(Read, |Expansion(p[..pos + 1])| - 1, Some(p[pos + 1]))
  }

  // ---- the calls a run makes, one by one -----------------------------------------------------------

  /** The calls of an instruction: as many as it repeats for writes, reads, clock ticks and bit reads. */
  function CallsOf(i: Instr): nat {
    match i.command
    case Write => i.repeat
    case Read => i.repeat
    case TickClock => i.repeat
    case ReadDat => i.repeat
    case _ => 1
  }

  function CallCount(p: seq<Instr>): nat {
    if p == [] then 0 else
    var n := |p| - 1;
    CallCount(p[..n]) + CallsOf(p[n])
  }

  /** Call j of instruction pos: by its own command; on one slot after the other for writes and reads, on one
      slot for all others; and the last one of a read announces the instruction that follows. */
  predicate IsCall(p: seq<Instr>, pos: nat, j: nat, act: Act)
    requires pos < |p|
  {
    var i := p[pos];
    && act.command == i.command
    && act.slot == |Expansion(p[..pos])| + (if i.command.Write? || i.command.Read? then j else 0)
    && act.next == (if i.command.Read? && j + 1 == i.repeat && pos + 1 < |p| then Some(p[pos + 1]) else None)
  }

  lemma CallsExactly(p: seq<Instr>, pos: nat)
    requires pos < |p|
    ensures var acts := Acts(p, pos, |Expansion(p[..pos])|);
            |acts| == CallsOf(p[pos]) && forall j: nat | j < |acts| :: IsCall(p, pos, j, acts[j])
  {
    hide Expansion;
  }

  /** The log holds, behind its first `from` calls and those of the instructions before, call j of pos. */
  predicate Calls(p: seq<Instr>, log: seq<Act>, from: nat, pos: nat, j: nat)
    requires pos < |p|
  {
    var k := from + CallCount(p[..pos]) + j;
    k < |log| && IsCall(p, pos, j, log[k])
  }

  lemma {:induction false} CallsUpTo(p: seq<Instr>, n: nat)
    requires n <= |p|
    ensures |ActsUpTo(p, n)| == CallCount(p[..n])
    ensures forall pos: nat, j: nat | pos < n && j < CallsOf(p[pos]) :: Calls(p, ActsUpTo(p, n), 0, pos, j)
    decreases n
  {
    hide Acts, Expansion, IsCall, CallsOf;
    if n > 0 {
      CallsUpTo(p, n - 1);
      CallsExactly(p, n - 1);
      assert p[..n][..n - 1] == p[..n - 1];
      var before, all := ActsUpTo(p, n - 1), ActsUpTo(p, n);
      forall pos: nat, j: nat | pos < n && j < CallsOf(p[pos]) ensures Calls(p, all, 0, pos, j) {
        if pos < n - 1 {
          assert Calls(p, before, 0, pos, j);
          assert all[CallCount(p[..pos]) + j] == before[CallCount(p[..pos]) + j];
        } else {
          assert all[CallCount(p[..pos]) + j] == Acts(p, pos, |Expansion(p[..pos])|)[j];
        }
      }
    }
  }

  /** The log of a run, call by call: for every instruction carried out exactly its own calls, in order, and
      none for any other. */
  lemma LoggedCalls(device: Device, log: seq<Act>, p: seq<Instr>)
    ensures var t := RunUpTo(device, log, p, |p|);
            && t.done <= |p| && |t.log| == |log| + CallCount(p[..t.done]) && t.log[..|log|] == log
            && forall pos: nat, j: nat | pos < t.done && j < CallsOf(p[pos]) :: Calls(p, t.log, |log|, pos, j)
  {
    hide Acts, Expansion, Results, IsRefused, RunOn, IsCall, CallsOf;
    RunShape(device, log, p, |p|);
    var t := RunUpTo(device, log, p, |p|);
    CallsUpTo(p, t.done);
    var acts := ActsUpTo(p, t.done);
    forall pos: nat, j: nat | pos < t.done && j < CallsOf(p[pos]) ensures Calls(p, t.log, |log|, pos, j) {
      assert Calls(p, acts, 0, pos, j);
      assert t.log[|log| + CallCount(p[..pos]) + j] == acts[CallCount(p[..pos]) + j];
    }
  }

  // ---- the reports a run leaves ------------------------------------------------------------------

  /** What call k of the log reported on a slot of instruction i that had report r before. */
  function Reported(device: Device, log: seq<Act>, k: nat, i: Instr, r: Report): Report
    requires k < |log|
  {
    device(log[..k + 1], Slot(i, r))
  }

  /** The report on slot j of instruction pos whose first call is call `first` of the log: what the last call
      on the slot reported; only the data of it for a pin read or a voltage; and nothing for a delay or a
      pin driven. */
  predicate IsReport(device: Device, log: seq<Act>, i: Instr, first: nat, j: nat, r: Report)
    requires first + CallsOf(i) <= |log|
  {
    match i.command
    case DelayUs => r == Report(NoError, 0)
    case DelayMs => r == Report(NoError, 0)
    case AuxHigh => r == Report(NoError, 0)
    case AuxLow => r == Report(NoError, 0)
    case AuxInput => r == Report(NoError, Reported(device, log, first, i, Report(NoError, 0)).data)
    case Adc => r == Report(NoError, Reported(device, log, first, i, Report(NoError, 0)).data)
    case Write =>
      r == if j < i.repeat then Reported(device, log, first + j, i, Report(NoError, 0)) else Report(NoError, 0)
    case Read =>
      r == if j < i.repeat then Reported(device, log, first + j, i, Report(NoError, 0)) else Report(NoError, 0)
    case TickClock => r == LastOf(device, log, i, first, i.repeat)
    case ReadDat => r == LastOf(device, log, i, first, i.repeat)
    case _ => r == Reported(device, log, first, i, Report(NoError, 0))
  }

  /** What n calls on one slot leave, each told what the one before it left. */
  function LastOf(device: Device, log: seq<Act>, i: Instr, first: nat, n: nat): Report
    requires first + n <= |log|
  {
    if n == 0 then Report(NoError, 0)
    else Reported(device, log, first + n - 1, i, LastOf(device, log, i, first, n - 1))
  }

  lemma {:induction false} ToldLast(device: Device, log: seq<Act>, i: Instr, command: Command, at: nat, n: nat, m: nat)
    requires (command.TickClock? || command.ReadDat?) && n <= m
    ensures Told(device, log, Fresh(i), SameCalls(command, at, n)).report
         == LastOf(device, log + SameCalls(command, at, m), i, |log|, n)
    decreases n
  {
    if n > 0 {
      ToldLast(device, log, i, command, at, n - 1, m);
      var acts, all := SameCalls(command, at, n), log + SameCalls(command, at, m);
      assert acts[..n - 1] == SameCalls(command, at, n - 1);
      assert all[..|log| + n - 1 + 1] == log + acts;
      var t := Told(device, log, Fresh(i), acts[..n - 1]);
      assert t == Slot(i, t.report);
    }
  }

  lemma ResultReports(device: Device, log: seq<Act>, p: seq<Instr>, pos: nat, base: nat, j: nat)
    requires pos < |p| && !IsRefused(p, pos, base) && j < Copies(p[pos])
    ensures |Acts(p, pos, base)| == CallsOf(p[pos]) && j < |Results(device, log, p, pos, base)|
    ensures IsReport(device, log + Acts(p, pos, base), p[pos], |log|, j, Results(device, log, p, pos, base)[j].report)
  {
    hide IsRefused;
    var i, acts := p[pos], Acts(p, pos, base);
    var all := log + acts;
    if i.command.Write? || i.command.Read? {
      if j < i.repeat {
        assert all[..|log| + j + 1] == log + acts[..j + 1];
        assert Results(device, log, p, pos, base)[j] == Slot(i, device(log + acts[..j + 1], Fresh(i)));
        assert Results(device, log, p, pos, base)[j].report == Reported(device, all, |log| + j, i, Report(NoError, 0));
      } else {
        assert acts == [] && Told(device, log, Fresh(i), acts) == Fresh(i);
      }
    } else if i.command.TickClock? || i.command.ReadDat? {
      ToldLast(device, log, i, i.command, base, i.repeat, i.repeat);
    } else {
      assert acts == [acts[0]] && acts[..0] == [];
      assert all[..|log| + 0 + 1] == log + acts;
      assert Told(device, log, Fresh(i), acts[..0]) == Fresh(i);
    }
  }

  lemma IsReportExtends(device: Device, log: seq<Act>, more: seq<Act>, i: Instr, first: nat, j: nat, r: Report)
    requires first + CallsOf(i) <= |log| && IsReport(device, log, i, first, j, r)
    ensures IsReport(device, log + more, i, first, j, r)
  {
    match i.command
    case TickClock => LastOfExtends(device, log, more, i, first, i.repeat);
    case ReadDat => LastOfExtends(device, log, more, i, first, i.repeat);
    case Write => if j < i.repeat { assert (log + more)[..first + j + 1] == log[..first + j + 1]; }
    case Read => if j < i.repeat { assert (log + more)[..first + j + 1] == log[..first + j + 1]; }
    case _ => assert (log + more)[..first + 1] == log[..first + 1];
  }

  lemma {:induction false} LastOfExtends(device: Device, log: seq<Act>, more: seq<Act>, i: Instr, first: nat, n: nat)
    requires first + n <= |log|
    ensures LastOf(device, log + more, i, first, n) == LastOf(device, log, i, first, n)
    decreases n
  {
    if n > 0 {
      LastOfExtends(device, log, more, i, first, n - 1);
      assert (log + more)[..first + n - 1 + 1] == log[..first + n - 1 + 1];
    }
  }

  /** However a run ends: every slot of the instructions carried out, but for the very last slot there is,
      holds the report its calls left. */
  lemma {:induction false} LoggedReports(device: Device, log: seq<Act>, p: seq<Instr>, n: nat, pos: nat, j: nat)
    requires n <= |p| && pos < RunUpTo(device, log, p, n).done && pos < |p| && j < Copies(p[pos])
    requires |Expansion(p[..pos])| + j + 1 < MAX_LENGTH
    ensures var t, k := RunUpTo(device, log, p, n), |Expansion(p[..pos])| + j;
            && |log| + CallCount(p[..pos]) + CallsOf(p[pos]) <= |t.log| && k < |t.slots|
            && IsReport(device, t.log, p[pos], |log| + CallCount(p[..pos]), j, t.slots[k].report)
    decreases n
  {
    hide Acts, Results, IsRefused, Expansion, IsReport, ActsUpTo, Shaped, CallsOf, Copies, RunOn, CallCount;
    NoneDone(device, log, p);
    var t := RunUpTo(device, log, p, n - 1);
    var k := |Expansion(p[..pos])| + j;
    RunShape(device, log, p, n - 1);
    OneOn(device, t, p, n - 1);
    if pos < t.done {
      LoggedReports(device, log, p, n - 1, pos, j);
      var first, acts := |log| + CallCount(p[..pos]), Acts(p, n - 1, |t.slots|);
      IsReportExtends(device, t.log, acts, p[pos], first, j, t.slots[k].report);
      assert t.log + [] == t.log;
    } else {
      GoingShape(t, p, n - 1);
      CallsUpTo(p, n - 1);
      ResultReports(device, t.log, p, pos, |t.slots|, j);
    }
  }

  lemma NoneDone(device: Device, log: seq<Act>, p: seq<Instr>)
    ensures RunUpTo(device, log, p, 0).done == 0
  {}

  /** One step of a run: it keeps what was there, and carries one instruction out, or none. */
  lemma OneOn(device: Device, t: Trace, p: seq<Instr>, pos: nat)
    requires pos < |p|
    ensures var t', base := RunOn(device, t, p, pos), |t.slots|;
            && |t'.slots| >= base && forall k: nat | k < base && k + 1 < MAX_LENGTH :: t'.slots[k] == t.slots[k]
    ensures var t', base := RunOn(device, t, p, pos), |t.slots|;
            if t'.done == t.done then t'.log == t.log || (t'.log == t.log + Acts(p, pos, base)) else
            && t'.done == pos + 1 && t.ending.Going? && !IsRefused(p, pos, base)
            && t'.log == t.log + Acts(p, pos, base) && |t'.slots| == base + |Results(device, t.log, p, pos, base)|
            && forall k: nat | base <= k < |t'.slots| && k + 1 < MAX_LENGTH ::
                 t'.slots[k] == Results(device, t.log, p, pos, base)[k - base]
  {
    hide Acts, Results, IsRefused;
  }

  lemma GoingShape(t: Trace, p: seq<Instr>, n: nat)
    requires n <= |p| && Shaped(t, p, n) && t.ending.Going?
    ensures t.done == n && |t.slots| == |Expansion(p[..n])| < MAX_LENGTH
  {
    hide Expansion;
  }

  // ---- from compiling to running -----------------------------------------------------------------

  lemma {:induction false} SensibleProgram(cfg: Config, tokens: seq<Token>)
    requires |cfg.pinFree| == PINS && Program(cfg, tokens).Some? && forall i | 0 <= i < |tokens| :: Sensible(tokens[i])
    ensures forall i | 0 <= i < |Program(cfg, tokens).value| ::
        1 <= Program(cfg, tokens).value[i].repeat <= TWO_32 - MAX_LENGTH
    decreases |tokens|
  {
    if tokens != [] {
      SensibleProgram(cfg, tokens[1..]);
      assert Sensible(tokens[0]);
    }
  }

  /** For all repeats: the compiler accepts a program whose results fit the slots exactly when the tokens
      compile and the slots they ask for stay below the limit. */
  lemma AcceptedFitsExactly(cfg: Config, tokens: seq<Token>)
    requires |cfg.pinFree| == PINS
    ensures var r := Steps(cfg, Running([], 0), tokens);
            r.Running? && |Expansion(r.out)| < MAX_LENGTH <==> Compiles(cfg, tokens) && SlotsFor(tokens) < MAX_LENGTH
  {
    hide Charges, Expansion, SlotsFor, Takes;
    CompilesExactly(cfg, tokens);
    if Steps(cfg, Running([], 0), tokens).Running? { ProgramSlots(cfg, tokens); }
  }

  /** Whatever sensible program the compiler accepts, its results fit the slots. */
  lemma AcceptedFits(cfg: Config, tokens: seq<Token>)
    requires |cfg.pinFree| == PINS && forall i | 0 <= i < |tokens| :: Sensible(tokens[i])
    requires Steps(cfg, Running([], 0), tokens).Running?
    ensures var p := Steps(cfg, Running([], 0), tokens).out;
            |Expansion(p)| < MAX_LENGTH && forall i | 0 <= i < |p| :: 1 <= p[i].repeat <= TWO_32 - MAX_LENGTH
  {
    Accepts(cfg, tokens);
    SensibleProgram(cfg, tokens);
    ChargesCover(Program(cfg, tokens).value);
  }

  /** The repeat that wraps the charge: the program is accepted, and its run, unless the first write reports
      an error, goes past the slots. */
  lemma WrappedRunsPast(cfg: Config, device: Device, log: seq<Act>)
    requires |cfg.pinFree| == PINS
    ensures var r := Steps(cfg, Running([], 0),
        [Number(1, 0, Attrs(None, None)), Symbol('r', Attrs(None, Some(TWO_32 - 1)))]);
            r.Running? && |r.out| == 2
            && (LastReport(device, log, r.out, 0).error != Failure ==> RunUpTo(device, log, r.out, 2).ending.PastSlots?)
  {
    hide LastReport, Steps, RunUpTo, Refused;
    WrappedSteps(cfg);
    var p := Steps(cfg, Running([], 0),
        [Number(1, 0, Attrs(None, None)), Symbol('r', Attrs(None, Some(TWO_32 - 1)))]).out;
    TwoSlots(p);
    if LastReport(device, log, p, 0).error != Failure {
      GoesOn(device, log, p, 1);
      RunShape(device, log, p, 1);
      GoesPast(device, RunUpTo(device, log, p, 1), p, 1);
      assert RunUpTo(device, log, p, 2) == RunOn(device, RunUpTo(device, log, p, 1), p, 1) by {
        OneStep(device, log, p, 1);
      }
    }
  }

  lemma OneStep(device: Device, log: seq<Act>, p: seq<Instr>, pos: nat)
    requires pos < |p|
    ensures RunUpTo(device, log, p, pos + 1) == RunOn(device, RunUpTo(device, log, p, pos), p, pos)
  {}

  lemma WrappedSteps(cfg: Config)
    requires |cfg.pinFree| == PINS
    ensures var r := Steps(cfg, Running([], 0),
        [Number(1, 0, Attrs(None, None)), Symbol('r', Attrs(None, Some(TWO_32 - 1)))]);
            && r.Running? && |r.out| == 2 && r.out[0].command.Write? && r.out[0].repeat == 1
            && r.out[1].command.Read? && r.out[1].repeat == TWO_32 - 1
  {
    var a, b := Number(1, 0, Attrs(None, None)), Symbol('r', Attrs(None, Some(TWO_32 - 1)));
    assert [a, b][1..] == [b] && [b][1..] == [];
    var s1 := Step(cfg, Running([], 0), a);
    assert Steps(cfg, s1, [b]) == Steps(cfg, Step(cfg, s1, b), []);
  }

  lemma TwoSlots(p: seq<Instr>)
    requires |p| == 2 && p[0].command.Write? && p[0].repeat == 1 && p[1].command.Read? && p[1].repeat == TWO_32 - 1
    ensures |Expansion(p[..1])| == 1 && |Expansion(p[..2])| == TWO_32 && !Refused(p, 0) && !Refused(p, 1)
  {
    NothingExpands(p);
    NextExpansion(p, 0);
    NextExpansion(p, 1);
  }

  lemma FirstDelayDone(device: Device, log: seq<Act>, p: seq<Instr>)
    requires |p| == 2 && p[0].command.DelayUs?
    ensures RunUpTo(device, log, p, 2).done >= 1
  {
    var t := RunUpTo(device, log, p, 1);
    var acts := Acts(p, 0, 0);
    assert acts == [Act(DelayUs, 0, None)] && acts[..0] == [];
    assert Told(device, log, Fresh(p[0]), acts[..0]) == Fresh(p[0]);
    assert Told(device, log, Fresh(p[0]), acts) == Fresh(p[0]);
    assert Results(device, log, p, 0, 0) == [Fresh(p[0])];
    assert RunUpTo(device, log, p, 0) == Trace([], log, 0, Going);
    assert t.done == 1 && t.ending.Going?;
  }

  /** Fitting is not enough for a read to be carried out: its slot test looks at the program's first
      instruction. After a first delay of 1024, charged one slot, a single read is refused. */
  lemma LongDelayThenRead(cfg: Config, device: Device, log: seq<Act>)
    requires |cfg.pinFree| == PINS
    ensures var tokens := [Symbol('d', Attrs(None, Some(1024))), Symbol('r', Attrs(None, None))];
            var r := Steps(cfg, Running([], 0), tokens);
            && r.Running? && |r.out| == 2 && |Expansion(r.out)| == 2 && r.out[1].command.Read? && Refused(r.out, 1)
            && RunUpTo(device, log, r.out, 2).done == 1
  {
    hide Steps, RunUpTo, Refused;
    DelaySteps(cfg);
    var p := Steps(cfg, Running([], 0), [Symbol('d', Attrs(None, Some(1024))), Symbol('r', Attrs(None, None))]).out;
    DelaySlots(p);
    EndsWhereRefused(device, log, p, 1);
    FirstDelayDone(device, log, p);
  }

  lemma DelaySteps(cfg: Config)
    requires |cfg.pinFree| == PINS
    ensures var r := Steps(cfg, Running([], 0), [Symbol('d', Attrs(None, Some(1024))), Symbol('r', Attrs(None, None))]);
            && r.Running? && |r.out| == 2 && r.out[0].command.DelayUs? && r.out[0].repeat == 1024
            && r.out[1].command.Read? && r.out[1].repeat == 1
  {
    var a, b := Symbol('d', Attrs(None, Some(1024))), Symbol('r', Attrs(None, None));
    assert [a, b][1..] == [b] && [b][1..] == [];
    var s1 := Step(cfg, Running([], 0), a);
    assert Steps(cfg, s1, [b]) == Steps(cfg, Step(cfg, s1, b), []);
  }

  lemma DelaySlots(p: seq<Instr>)
    requires |p| == 2 && p[0].command.DelayUs? && p[0].repeat == 1024 && p[1].command.Read? && p[1].repeat == 1
    ensures |Expansion(p)| == 2 && Refused(p, 1)
  {
    NothingExpands(p);
    NextExpansion(p, 0);
    NextExpansion(p, 1);
    assert p[..2] == p;
  }
}
