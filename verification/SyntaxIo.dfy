/** The compiler and executor over their fixed buffers of instructions and result slots. */
module SyntaxIo {
  import opened Bytes
  import opened Options
  import opened Syntax
  import opened SyntaxRun

  datatype Status = Ok | Error | PastEnd

  class Io {
    var out: seq<Instr>
    var slots: seq<Slot>
    var outCnt: nat
    var inCnt: nat
    /** Every call made to a protocol or pin routine. */
    var log: seq<Act>
    const device: Device

    ghost predicate Sized() reads this { |out| == |slots| == MAX_LENGTH }

    constructor (device: Device)
      ensures Sized() && outCnt == inCnt == 0 && log == []
    {
      out, slots, outCnt, inCnt, log :=
          seq(MAX_LENGTH, k => EMPTY), seq(MAX_LENGTH, k => Slot(EMPTY, Report(NoError, 0))), 0, 0, [];
      this.device := device;
    }

    // ---- compiling -----------------------------------------------------------------------------

    method Compile(cfg: Config, tokens: seq<Token>) returns (status: Status)
      requires Sized() && |cfg.pinFree| == PINS
      modifies `out, `slots, `outCnt, `inCnt
      ensures Sized() && match Steps(cfg, Running([], 0), tokens)
              case Running(program, _) =>
                  status == Ok && outCnt == |program| <= MAX_LENGTH && out[..outCnt] == program && inCnt == 0
              case Rejected => status == Error
              case Overrun => status == PastEnd
      ensures status == Ok <==> FitsAll(cfg, tokens)
      ensures status == Ok ==> Spells(cfg, tokens, out[..outCnt]) && Cleared(outCnt, 0)
      ensures status == PastEnd <==> exists k: nat | k < |tokens| :: FullAt(cfg, tokens, k)
    {
      hide Emit, FitsAll, FullAt, Spells;
      CompiledFrom(cfg, tokens);
      out, slots := seq(MAX_LENGTH, k => EMPTY), seq(MAX_LENGTH, k => Slot(EMPTY, Report(NoError, 0)));
      outCnt, inCnt := 0, 0;
      var charged: nat := 0;
      var i := 0;
      assert out[..0] == [] && tokens[0..] == tokens;
      while i < |tokens|
        invariant 0 <= i <= |tokens| && Sized() && outCnt <= MAX_LENGTH && inCnt == 0 && charged < MAX_LENGTH
        invariant Steps(cfg, Running([], 0), tokens) == Steps(cfg, Running(out[..outCnt], charged), tokens[i..])
        invariant Cleared(outCnt, 0)
      {
        assert tokens[i..][1..] == tokens[i + 1..];
        status, charged := CompileToken(cfg, tokens[i], charged);
        if status != Ok {
          StoppedStays(cfg, if status == Error then Rejected else Overrun, tokens[i + 1..]);
          return;
        }
        i := i + 1;
      }
      assert tokens[i..] == [];
      status := Ok;
    }

    /** Both buffers are empty from there on. */
    ghost predicate Cleared(outFrom: nat, inFrom: nat) reads this {
      && (forall k | outFrom <= k < |out| :: out[k] == EMPTY)
      && (forall k | inFrom <= k < |slots| :: slots[k] == Slot(EMPTY, Report(NoError, 0)))
    }

    /** One token: the program so far, and its charge, grow as Step says. */
    method CompileToken(cfg: Config, t: Token, charged: nat) returns (status: Status, after: nat)
      requires Sized() && |cfg.pinFree| == PINS && outCnt <= MAX_LENGTH && charged < MAX_LENGTH
      modifies `out, `outCnt
      ensures Sized() && inCnt == old(inCnt) && (status == Ok && old(Cleared(outCnt, 0)) ==> Cleared(outCnt, 0))
      ensures match Step(cfg, Running(old(out[..outCnt]), charged), t)
              case Running(program, c) =>
                status == Ok && after == c < MAX_LENGTH && outCnt == |program| <= MAX_LENGTH && out[..outCnt] == program
              case Rejected => status == Error
              case Overrun => status == PastEnd
    {
      hide Emit;
      match t
      case Skip => return Ok, charged;
      case BadNumber => return if outCnt >= MAX_LENGTH then PastEnd else Error, charged;
      case OpenText => return Error, charged;
      case Number(value, format, attrs) =>
        status, after := Store(cfg, WithAttrs(cfg, Write, value, format, attrs), charged);
      case Text(chars) => status, after := StoreText(cfg, chars, charged);
      case Symbol(c, attrs) =>
        var command := SymbolCommand(c);
        if command.None? { return Error, charged; }
        status, after := Store(cfg, WithAttrs(cfg, command.value, 0, 0, attrs), charged);
    }

    /** Stores one instruction, checks its pins and charges its slots. */
    method Store(cfg: Config, i: Instr, charged: nat) returns (status: Status, after: nat)
      requires Sized() && |cfg.pinFree| == PINS && outCnt <= MAX_LENGTH && charged < MAX_LENGTH
      modifies `out, `outCnt
      ensures Sized() && (status == Ok && old(Cleared(outCnt, 0)) ==> Cleared(outCnt, 0))
      ensures match Emit(cfg, Running(old(out[..outCnt]), charged), i)
              case Running(program, c) =>
                status == Ok && after == c < MAX_LENGTH && outCnt == |program| <= MAX_LENGTH && out[..outCnt] == program
              case Rejected => status == Error
              case Overrun => status == PastEnd
    {
      after := charged;
      if outCnt >= MAX_LENGTH {
        return PastEnd, after;
      }
      out := out[outCnt := i];
      if OnPin(i.command) {
        if !i.hasBits { return Error, after; }
        if i.bits >= PINS { return Error, after; }
        if !i.command.Adc? && !cfg.pinFree[i.bits] { return Error, after; }
      }
      if i.command.DelayUs? || i.command.DelayMs? || i.command.TickClock? {
        after := Wrap32(charged + 1);
      } else {
        after := Wrap32(charged + i.repeat);
      }
      if after >= MAX_LENGTH { return Error, after; }
      if outCnt >= MAX_LENGTH { return Error, after; }
      outCnt := outCnt + 1;
      assert out[..outCnt] == old(out[..outCnt]) + [i];
      status := Ok;
    }

    method StoreText(cfg: Config, chars: seq<u8>, charged: nat) returns (status: Status, after: nat)
      requires Sized() && |cfg.pinFree| == PINS && outCnt <= MAX_LENGTH && charged < MAX_LENGTH
      modifies `out, `outCnt
      ensures Sized() && (status == Ok && old(Cleared(outCnt, 0)) ==> Cleared(outCnt, 0))
      ensures match Step(cfg, Running(old(out[..outCnt]), charged), Text(chars))
              case Running(program, c) =>
                status == Ok && after == c < MAX_LENGTH && outCnt == |program| <= MAX_LENGTH && out[..outCnt] == program
              case Rejected => status == Error
              case Overrun => false
    {
      after := charged;
      if outCnt + |chars| >= MAX_LENGTH {
        return Error, after;
      }
      var k := 0;
      ghost var before := out[..outCnt];
      assert before + Literal(cfg, chars)[..0] == before;
      while k < |chars|
        invariant 0 <= k <= |chars| && Sized() && outCnt == old(outCnt) + k && after == charged + k
        invariant out[..outCnt] == before + Literal(cfg, chars)[..k]
        invariant old(Cleared(outCnt, 0)) ==> Cleared(outCnt, 0)
      {
        out := out[outCnt := Char(cfg, chars[k])];
        outCnt := outCnt + 1;
        after := Wrap32(after + 1);
        assert Literal(cfg, chars)[..k + 1] == Literal(cfg, chars)[..k] + [Char(cfg, chars[k])];
        k := k + 1;
      }
      assert Literal(cfg, chars)[..k] == Literal(cfg, chars);
      status := if after >= MAX_LENGTH then Error else Ok;
    }

    // ---- running -------------------------------------------------------------------------------

    /** The slots up to and including the current one. */
    ghost predicate Filling(filled: seq<Slot>) reads this {
      Sized() && inCnt < MAX_LENGTH && |filled| == inCnt + 1 && slots[..inCnt + 1] == filled
    }

    /** The slots before the current one, which is free. */
    ghost predicate Filled(filled: seq<Slot>) reads this {
      Sized() && inCnt < MAX_LENGTH && |filled| == inCnt && slots[..inCnt] == filled
    }

    lemma FillingMeans(filled: seq<Slot>)
      requires Filling(filled)
      ensures Sized() && inCnt < MAX_LENGTH && |filled| == inCnt + 1 && slots[inCnt] == filled[inCnt]
    {
      assert slots[inCnt] == slots[..inCnt + 1][inCnt];
    }

    /** Calls a routine on the current slot, s. */
    method Call(command: Command, next: Option<Instr>, ghost before: seq<Slot>, ghost s: Slot)
      requires Filling(before + [s])
      modifies `slots, `log
      ensures log == old(log) + [Act(command, |before|, next)]
      ensures Filling(before + [s.(report := Answer(device, log, command, s))])
    {
      FillingMeans(before + [s]);
      log := log + [Act(command, inCnt, next)];
      slots := slots[inCnt := slots[inCnt].(report := Answer(device, log, command, slots[inCnt]))];
    }

    /** Marks the current slot, s, with an error. */
    method Fail(ghost before: seq<Slot>, ghost s: Slot)
      requires Filling(before + [s])
      modifies `slots
      ensures Filling(before + [Failed(s)])
    {
      FillingMeans(before + [s]);
      slots := slots[inCnt := Failed(slots[inCnt])];
    }

    /** Goes on to the next slot and copies the instruction there. */
    method Advance(i: Instr, ghost filled: seq<Slot>)
      requires Filling(filled) && inCnt + 1 < MAX_LENGTH
      modifies `slots, `inCnt
      ensures Filling(filled + [Fresh(i)])
    {
      inCnt := inCnt + 1;
      slots := slots[inCnt := Slot(i, Report(NoError, 0))];
    }

    /** A write or read: one call on the slot it was copied to, and one more slot for each repetition. */
    method Repeat(pos: nat, ghost p: seq<Instr>, ghost filled: seq<Slot>, announce: bool) returns (ok: bool)
      requires outCnt <= MAX_LENGTH <= |out| && p == out[..outCnt] && pos < |p| && Filling(filled + [Fresh(p[pos])])
      requires (p[pos].command.Read? && announce) || (p[pos].command.Write? && !announce)
      requires !IsRefused(p, pos, |filled|)
      modifies `slots, `inCnt, `log
      ensures ok <==> |filled| + Copies(p[pos]) <= MAX_LENGTH
      ensures ok ==>
          Filling(filled + Results(device, old(log), p, pos, |filled|)) && log == old(log) + Acts(p, pos, |filled|)
    {
      hide IsRefused, Filling;
      FillingMeans(filled + [Fresh(p[pos])]);
      var i := out[pos];
      var j := 0;
      ghost var log0, acts, r := log, Acts(p, pos, |filled|), Results(device, log, p, pos, |filled|);
      RepeatResults(device, log, p, pos, |filled|);
      assert log0 + acts[..0] == log0;
      while j < i.repeat
        invariant 0 <= j <= i.repeat == |acts| && log == log0 + acts[..j]
        invariant Filling(if j == 0 then filled + [Fresh(i)] else filled + r[..j])
      {
        FillingMeans(if j == 0 then filled + [Fresh(i)] else filled + r[..j]);
        assert filled + r[..0] == filled;
        if j > 0 {
          if inCnt + 1 >= MAX_LENGTH { return false; }
          Advance(i, filled + r[..j]);
        }
        OneMore(log0, acts, j);
        OneMore(filled, r, j);
        Call(i.command, if announce && pos + 1 < outCnt && j + 1 == i.repeat then Some(out[pos + 1]) else None,
             filled + r[..j], Fresh(i));
        j := j + 1;
      }
      FillingMeans(if j == 0 then filled + [Fresh(i)] else filled + r[..j]);
      assert acts[..j] == acts && (j > 0 ==> r[..j] == r);
      ok := true;
    }

    /** Calls a routine n times on the current slot. */
    method RepeatInPlace(command: Command, n: nat, ghost filled: seq<Slot>, ghost s: Slot)
      requires Filling(filled + [s])
      modifies `slots, `log
      ensures log == old(log) + SameCalls(command, |filled|, n)
      ensures Filling(filled + [Told(device, old(log), s, SameCalls(command, |filled|, n))])
    {
      hide Filling;
      var j := 0;
      ghost var log0, at := log, |filled|;
      assert SameCalls(command, at, 0) == [] && log0 + [] == log0;
      while j < n
        invariant 0 <= j <= n && log == log0 + SameCalls(command, at, j)
        invariant Filling(filled + [Told(device, log0, s, SameCalls(command, at, j))])
      {
        assert SameCalls(command, at, j + 1) == SameCalls(command, at, j) + [Act(command, at, None)];
        assert SameCalls(command, at, j + 1)[..j] == SameCalls(command, at, j);
        assert log0 + SameCalls(command, at, j + 1) == log0 + SameCalls(command, at, j) + [Act(command, at, None)];
        Call(command, None, filled, Told(device, log0, s, SameCalls(command, at, j)));
        j := j + 1;
      }
    }

    /** Runs instruction pos, copied to the current slot. Fails when it would fill slots there are not. */
    method Dispatch(pos: nat, ghost p: seq<Instr>, ghost filled: seq<Slot>) returns (ok: bool)
      requires outCnt <= MAX_LENGTH <= |out| && p == out[..outCnt] && pos < |p| && Filling(filled + [Fresh(p[pos])])
      modifies `slots, `inCnt, `log
      ensures ok <==> IsRefused(p, pos, |filled|) || |filled| + Copies(p[pos]) <= MAX_LENGTH
      ensures ok ==> Filling(filled + Results(device, old(log), p, pos, |filled|))
      ensures ok ==> log == old(log) + if IsRefused(p, pos, |filled|) then [] else Acts(p, pos, |filled|)
    {
      hide Filling;
      FillingMeans(filled + [Fresh(p[pos])]);
      ok := true;
      match out[pos].command
      case Write => ok := RunWrite(pos, p, filled);
      case Read => ok := RunRead(pos, p, filled);
      case TickClock => RepeatInPlace(TickClock, out[pos].repeat, filled, Fresh(p[pos]));
      case ReadDat => RepeatInPlace(ReadDat, out[pos].repeat, filled, Fresh(p[pos]));
      case _ =>
        OneCall(device, log, p[pos], Act(out[pos].command, |filled|, None));
        Call(out[pos].command, None, filled, Fresh(p[pos]));
    }

    method RunWrite(pos: nat, ghost p: seq<Instr>, ghost filled: seq<Slot>) returns (ok: bool)
      requires outCnt <= MAX_LENGTH <= |out| && p == out[..outCnt] && pos < |p| && p[pos].command.Write?
      requires Filling(filled + [Fresh(p[pos])])
      modifies `slots, `inCnt, `log
      ensures ok <==> Wrap32(|filled| + p[pos].repeat) >= MAX_LENGTH || |filled| + Copies(p[pos]) <= MAX_LENGTH
      ensures ok ==> Filling(filled + Results(device, old(log), p, pos, |filled|))
      ensures ok ==> log == old(log) + if Wrap32(|filled| + p[pos].repeat) >= MAX_LENGTH then []
          else Acts(p, pos, |filled|)
    {
      hide Filling;
      FillingMeans(filled + [Fresh(p[pos])]);
      if Wrap32(inCnt + out[pos].repeat) >= MAX_LENGTH {
        Fail(filled, Fresh(p[pos]));
        assert log + [] == log;
        return true;
      }
      ok := Repeat(pos, p, filled, false);
    }

    method RunRead(pos: nat, ghost p: seq<Instr>, ghost filled: seq<Slot>) returns (ok: bool)
      requires outCnt <= MAX_LENGTH <= |out| && p == out[..outCnt] && pos < |p| && p[pos].command.Read?
      requires Filling(filled + [Fresh(p[pos])])
      modifies `slots, `inCnt, `log
      ensures ok <==> Wrap32(|filled| + p[0].repeat) >= MAX_LENGTH || |filled| + Copies(p[pos]) <= MAX_LENGTH
      ensures ok ==> Filling(filled + Results(device, old(log), p, pos, |filled|))
      ensures ok ==> log == old(log) + if Wrap32(|filled| + p[0].repeat) >= MAX_LENGTH then []
          else Acts(p, pos, |filled|)
    {
      hide Filling;
      FillingMeans(filled + [Fresh(p[pos])]);
      if Wrap32(inCnt + out[0].repeat) >= MAX_LENGTH {
        Fail(filled, Fresh(p[pos]));
        assert log + [] == log;
        return true;
      }
      ok := Repeat(pos, p, filled, true);
    }

    /** One instruction: it is copied to the next slot and dispatched; then the run goes on, or ends at an
        error, with the last slot, or past it. */
    method RunOne(pos: nat, ghost p: seq<Instr>, ghost t: Trace) returns (ending: Ending)
      requires outCnt <= MAX_LENGTH <= |out| && p == out[..outCnt] && pos < |p|
      requires Filled(t.slots) && t.ending.Going? && t.log == log
      modifies `slots, `inCnt, `log
      ensures ending == RunOn(device, t, p, pos).ending
      ensures !ending.PastSlots? ==> Sized() && log == RunOn(device, t, p, pos).log
      ensures ending.Going? || ending.AtError? ==> Filled(RunOn(device, t, p, pos).slots)
      ensures ending.OutOfSlots? ==> inCnt == MAX_LENGTH - 1 && slots == RunOn(device, t, p, pos).slots
    {
      hide IsRefused, Results, Acts;
      slots := slots[inCnt := Slot(out[pos], Report(NoError, 0))];
      assert Filling(t.slots + [Fresh(p[pos])]);
      var ok := Dispatch(pos, p, t.slots);
      if !ok { return PastSlots; }
      ghost var all := t.slots + Results(device, t.log, p, pos, |t.slots|);
      FillingMeans(all);
      assert all == all[..inCnt] + [all[inCnt]];
      if inCnt + 1 >= MAX_LENGTH {
        Fail(all[..inCnt], all[inCnt]);
        assert all[inCnt := Failed(all[inCnt])] == all[..inCnt] + [Failed(all[inCnt])];
        return OutOfSlots;
      }
      ending := if slots[inCnt].report.error == Failure then AtError else Going;
      inCnt := inCnt + 1;
    }

    /** Executes the compiled program, whatever it is: the slots filled, the calls made and the way it ends
        are those of the run that RunUpTo describes. */
    method Run() returns (status: Status)
      requires Sized() && outCnt <= MAX_LENGTH
      modifies `slots, `inCnt, `log
      ensures outCnt == 0 ==> status == Error && slots == old(slots) && log == old(log)
      ensures outCnt > 0 ==>
                var t := RunUpTo(device, old(log), out[..outCnt], outCnt);
                && status == (if t.ending.PastSlots? then PastEnd else Ok)
                && (status == Ok ==> Sized() && log == t.log && |t.slots| <= MAX_LENGTH && slots[..|t.slots|] == t.slots
                                     && inCnt == if t.ending.OutOfSlots? then MAX_LENGTH - 1 else |t.slots|)
    {
      hide RunOn, Results, IsRefused, Acts;
      if outCnt == 0 {
        return Error;
      }
      ghost var p := out[..outCnt];
      inCnt := 0;
      var pos := 0;
      assert slots[..0] == [];
      while pos < outCnt
        invariant 0 <= pos <= outCnt && RunUpTo(device, old(log), p, pos).ending.Going?
        invariant Filled(RunUpTo(device, old(log), p, pos).slots) && log == RunUpTo(device, old(log), p, pos).log
      {
        var ending := RunOne(pos, p, RunUpTo(device, old(log), p, pos));
        if ending != Going {
          EndsForGood(device, old(log), p, pos + 1, outCnt);
          return if ending == PastSlots then PastEnd else Ok;
        }
        pos := pos + 1;
      }
      return Ok;
    }
  }

  lemma RepeatResults(device: Device, log: seq<Act>, p: seq<Instr>, pos: nat, base: nat)
    requires pos < |p| && (p[pos].command.Write? || p[pos].command.Read?) && !IsRefused(p, pos, base)
    ensures var i, acts, r := p[pos], Acts(p, pos, base), Results(device, log, p, pos, base);
            && |acts| == i.repeat && (forall j | 0 <= j < |acts| ::
                    acts[j].command == i.command && acts[j].slot == base + j)
            && (i.repeat == 0 ==> r == [Fresh(i)])
            && (forall j | 0 <= j < i.repeat :: r[j] == Fresh(i).(report := device(log + acts[..j + 1], Fresh(i))))
  {}

  lemma OneMore<T>(before: seq<T>, added: seq<T>, j: nat)
    requires j < |added|
    ensures before + added[..j + 1] == before + added[..j] + [added[j]]
  {}

  lemma OneCall(device: Device, log: seq<Act>, i: Instr, act: Act)
    ensures Told(device, log, Fresh(i), [act])
        == Fresh(i).(report := Answer(device, log + [act], act.command, Fresh(i)))
  {
    assert [act][..0] == [];
  }
}
