/** The command compiler: it turns tokens into instructions, and budgets the result slots a program may
    fill. */
module Syntax {
  import opened Bytes
  import opened Options

  const MAX_LENGTH: nat := 1024
  const PINS: nat := 8

  datatype Command =
    | Write | Read | Start | Stop | StartAlt | StopAlt | TickClock | ClkHigh | ClkLow | DatHigh | DatLow | ReadDat
    | DelayUs | DelayMs | AuxHigh | AuxLow | AuxInput | Adc

  predicate OnPin(c: Command) { c.AuxHigh? || c.AuxLow? || c.AuxInput? || c.Adc? }

  function SymbolCommand(c: char): Option<Command> {
    if c == 'r' then Some(Read) else if c == '[' then Some(Start) else if c == '{' then Some(StartAlt) else
    if c == ']' then Some(Stop) else if c == '}' then Some(StopAlt) else if c == 'd' then Some(DelayUs) else
    if c == 'D' then Some(DelayMs) else if c == '^' then Some(TickClock) else if c == '/' then Some(ClkHigh) else
    if c == '\\' then Some(ClkLow) else if c == '_' then Some(DatLow) else if c == '-' then Some(DatHigh) else
    if c == '.' then Some(ReadDat) else if c == 'a' then Some(AuxLow) else if c == 'A' then Some(AuxHigh) else
    if c == '@' then Some(AuxInput) else if c == 'v' then Some(Adc) else None
  }

  datatype Instr = Instr(command: Command, data: nat, bits: nat, hasBits: bool, repeat: nat, hasRepeat: bool,
      format: nat)

  const EMPTY := Instr(Write, 0, 0, false, 0, false, 0)
  const ASCII: nat := 4                // df_ascii

  datatype Attrs = Attrs(bits: Option<nat>, repeat: Option<nat>)

  /** The command line, cut up: what is skipped, numbers and symbols with their attributes, string
      literals, and the two ways in which cutting fails. */
  datatype Token =
    | Skip
    | Number(value: nat, format: nat, attrs: Attrs)
    | BadNumber
    | Text(chars: seq<u8>)
    | OpenText
    | Symbol(c: char, attrs: Attrs)

  datatype Config = Config(numBits: nat, pinFree: seq<bool>)

  // ---- the compiler, token by token ---------------------------------------------------------------

  function WithAttrs(cfg: Config, command: Command, data: nat, format: nat, a: Attrs): Instr {
    Instr(command, data, if a.bits.Some? then a.bits.value else cfg.numBits, a.bits.Some?,
          if a.repeat.Some? then a.repeat.value else 1, a.repeat.Some?, format)
  }

  function Char(cfg: Config, c: u8): Instr { Instr(Write, c, cfg.numBits, false, 1, false, ASCII) }

  function Literal(cfg: Config, chars: seq<u8>): (p: seq<Instr>)
    ensures |p| == |chars| && forall k | 0 <= k < |chars| :: p[k] == Char(cfg, chars[k])
  {
    seq(|chars|, k requires 0 <= k < |chars| => Char(cfg, chars[k]))
  }

  predicate PinOk(cfg: Config, i: Instr)
    requires |cfg.pinFree| == PINS
  {
    OnPin(i.command) ==> i.hasBits && i.bits < PINS && (i.command.Adc? || cfg.pinFree[i.bits])
  }

  predicate OneSlotCharge(i: Instr) { i.command.DelayUs? || i.command.DelayMs? || i.command.TickClock? }

  /** The slots an instruction is charged for. */
  function Charge(i: Instr): nat {
    if OneSlotCharge(i) then 1 else i.repeat
  }

  /** What a token means, None when it is an error. */
  function Meaning(cfg: Config, t: Token): Option<seq<Instr>>
    requires |cfg.pinFree| == PINS
  {
    match t
    case Skip => Some([])
    case Number(value, format, attrs) => Some([WithAttrs(cfg, Write, value, format, attrs)])
    case BadNumber => None
    case Text(chars) => Some(Literal(cfg, chars))
    case OpenText => None
    case Symbol(c, attrs) =>
      if SymbolCommand(c).None? then None else
      var i := WithAttrs(cfg, SymbolCommand(c).value, 0, 0, attrs);
      if PinOk(cfg, i) then Some([i]) else None
  }

  /** The program the tokens spell, None when one of them is an error. */
  function Program(cfg: Config, tokens: seq<Token>): Option<seq<Instr>>
    requires |cfg.pinFree| == PINS
  {
    if tokens == [] then Some([]) else
    var first, rest := Meaning(cfg, tokens[0]), Program(cfg, tokens[1..]);
    if first.None? || rest.None? then None else Some(first.value + rest.value)
  }

  function Charges(p: seq<Instr>): nat {
    if p == [] then 0 else Charge(p[0]) + Charges(p[1..])
  }

  lemma {:induction false} ChargesConcat(p: seq<Instr>, q: seq<Instr>)
    ensures Charges(p + q) == Charges(p) + Charges(q)
  {
    if p == [] {
      assert p + q == q;
    } else {
      ChargesConcat(p[1..], q);
      assert (p + q)[1..] == p[1..] + q;
    }
  }

  /** How compiling goes on: running with what has been emitted and charged, rejected, or past the end
      of the output buffer. */
  datatype Progress = Running(out: seq<Instr>, charged: nat) | Rejected | Overrun

  /** One instruction: it is stored, its pins are checked, and its slots charged with 32-bit
      wrap-around. */
  function Emit(cfg: Config, s: Progress, i: Instr): Progress
    requires |cfg.pinFree| == PINS && s.Running?
  {
    if |s.out| >= MAX_LENGTH then Overrun else
    if !PinOk(cfg, i) then Rejected else
    var charged := Wrap32(s.charged + Charge(i));
    if charged >= MAX_LENGTH then Rejected else Running(s.out + [i], charged)
  }

  function Step(cfg: Config, s: Progress, t: Token): Progress
    requires |cfg.pinFree| == PINS
  {
    if !s.Running? then s else
    match t
    case Skip => s
    case Number(value, format, attrs) => Emit(cfg, s, WithAttrs(cfg, Write, value, format, attrs))
    case BadNumber => if |s.out| >= MAX_LENGTH then Overrun else Rejected
    case Text(chars) =>
      if |s.out| + |chars| >= MAX_LENGTH then Rejected else
      var charged := Wrap32(s.charged + |chars|);
      if charged >= MAX_LENGTH then Rejected
      else Running(s.out + Literal(cfg, chars), charged)
    case OpenText => Rejected
    case Symbol(c, attrs) =>
      if SymbolCommand(c).None? then Rejected else Emit(cfg, s, WithAttrs(cfg, SymbolCommand(c).value, 0, 0, attrs))
  }

  function Steps(cfg: Config, s: Progress, tokens: seq<Token>): Progress
    requires |cfg.pinFree| == PINS
    decreases |tokens|
  {
    if tokens == [] then s else Steps(cfg, Step(cfg, s, tokens[0]), tokens[1..])
  }

  // ---- what it accepts -----------------------------------------------------------------------------

  lemma WrapAgain(x: int, y: int)
    ensures Wrap32(Wrap32(x) + y) == Wrap32(x + y)
  {
    var k := x / TWO_32;
    ModOfSum(Wrap32(x) + y, k, TWO_32);
  }

  lemma {:induction false} ProgramSnoc(cfg: Config, tokens: seq<Token>, t: Token)
    requires |cfg.pinFree| == PINS
    ensures var p, m := Program(cfg, tokens), Meaning(cfg, t);
            Program(cfg, tokens + [t]) == if p.None? || m.None? then None else Some(p.value + m.value)
    decreases |tokens|
  {
    hide Meaning;
    var all := tokens + [t];
    if tokens == [] {
      assert all[0] == t && all[1..] == [];
      if Meaning(cfg, t).Some? { assert Meaning(cfg, t).value + [] == [] + Meaning(cfg, t).value; }
    } else {
      assert all[0] == tokens[0] && all[1..] == tokens[1..] + [t];
      ProgramSnoc(cfg, tokens[1..], t);
      var first, rest, m := Meaning(cfg, tokens[0]), Program(cfg, tokens[1..]), Meaning(cfg, t);
      if first.Some? && rest.Some? && m.Some? {
        assert first.value + (rest.value + m.value) == first.value + rest.value + m.value;
      }
    }
  }

  lemma {:induction false} StepsSnoc(cfg: Config, s: Progress, tokens: seq<Token>, t: Token)
    requires |cfg.pinFree| == PINS
    ensures Steps(cfg, s, tokens + [t]) == Step(cfg, Steps(cfg, s, tokens), t)
    decreases |tokens|
  {
    hide Step;
    var all := tokens + [t];
    if tokens == [] {
      assert all[0] == t && all[1..] == [];
    } else {
      assert all[0] == tokens[0] && all[1..] == tokens[1..] + [t];
      StepsSnoc(cfg, Step(cfg, s, tokens[0]), tokens[1..], t);
    }
  }

  /** The program has room for what a token means: its charge, as the 32-bit counter has it, stays below
      the limit, and the instructions fit the output buffer, a literal with one to spare. */
  predicate Takes(p: seq<Instr>, t: Token) {
    Wrap32(Charges(p)) < MAX_LENGTH && |p| <= MAX_LENGTH && (t.Text? ==> |p| < MAX_LENGTH)
  }

  /** No token is an error, and there is room after every one of them. */
  predicate Compiles(cfg: Config, tokens: seq<Token>)
    requires |cfg.pinFree| == PINS
    decreases |tokens|
  {
    var p := Program(cfg, tokens);
    p.Some? && (tokens != [] ==> var n := |tokens| - 1; Compiles(cfg, tokens[..n]) && Takes(p.value, tokens[n]))
  }

  /** A token that is stored before anything else about it is looked at. */
  predicate Stores(t: Token) {
    t.Number? || t.BadNumber? || (t.Symbol? && SymbolCommand(t.c).Some?)
  }

  /** Token k finds the output buffer full and is stored behind it. */
  predicate OverrunsAt(cfg: Config, tokens: seq<Token>, k: nat)
    requires |cfg.pinFree| == PINS && k < |tokens|
  {
    && Compiles(cfg, tokens[..k]) && |Program(cfg, tokens[..k]).value| == MAX_LENGTH && Stores(tokens[k])
  }

  lemma {:induction false} TextCharges(cfg: Config, chars: seq<u8>)
    ensures Charges(Literal(cfg, chars)) == |chars|
    decreases |chars|
  {
    if chars != [] {
      TextCharges(cfg, chars[1..]);
      assert Literal(cfg, chars)[1..] == Literal(cfg, chars[1..]);
    }
  }

  lemma EmitExactly(cfg: Config, out: seq<Instr>, i: Instr)
    requires |cfg.pinFree| == PINS && |out| <= MAX_LENGTH
    ensures var r := Emit(cfg, Running(out, Wrap32(Charges(out))), i);
            && (r.Overrun? <==> |out| == MAX_LENGTH)
            && (r.Running? <==> PinOk(cfg, i) && |out + [i]| <= MAX_LENGTH && Wrap32(Charges(out + [i])) < MAX_LENGTH)
            && (r.Running? ==> r == Running(out + [i], Wrap32(Charges(out + [i]))))
  {
    hide PinOk, Wrap32;
    ChargesConcat(out, [i]);
    assert Charges([i]) == Charge(i) + Charges([]);
    WrapAgain(Charges(out), Charge(i));
  }

  lemma TextExactly(cfg: Config, out: seq<Instr>, chars: seq<u8>)
    requires |cfg.pinFree| == PINS
    ensures var r, all := Step(cfg, Running(out, Wrap32(Charges(out))), Text(chars)), out + Literal(cfg, chars);
            && !r.Overrun? && (r.Running? <==> Takes(all, Text(chars)))
                 && (r.Running? ==> r == Running(all, Wrap32(Charges(all))))
  {
    hide Charges, Wrap32, Literal;
    TextCharges(cfg, chars);
    ChargesConcat(out, Literal(cfg, chars));
    WrapAgain(Charges(out), |chars|);
  }

  lemma StepExactly(cfg: Config, out: seq<Instr>, t: Token)
    requires |cfg.pinFree| == PINS && |out| <= MAX_LENGTH
    ensures var r, m := Step(cfg, Running(out, Wrap32(Charges(out))), t), Meaning(cfg, t);
            && (r.Overrun? <==> |out| == MAX_LENGTH && Stores(t))
            && (t != Skip ==> (r.Running? <==> m.Some? && Takes(out + m.value, t)))
            && (r.Running? ==> m.Some? && r == Running(out + m.value, Wrap32(Charges(out + m.value))))
  {
    hide Emit, SymbolCommand, Literal, Charges, Wrap32;
    match t
    case Skip => assert out + [] == out;
    case Number(value, format, attrs) => EmitExactly(cfg, out, WithAttrs(cfg, Write, value, format, attrs));
    case Text(chars) => TextExactly(cfg, out, chars);
    case Symbol(c, attrs) =>
      if SymbolCommand(c).Some? { EmitExactly(cfg, out, WithAttrs(cfg, SymbolCommand(c).value, 0, 0, attrs)); }
    case _ =>
  }

  /** Whatever the repeats: the compiler accepts exactly what compiles, and runs past the end of its
      output buffer exactly when some token finds it full. */
  lemma {:induction false} CompilesExactly(cfg: Config, tokens: seq<Token>)
    requires |cfg.pinFree| == PINS
    ensures var r := Steps(cfg, Running([], 0), tokens);
            && (r.Running? <==> Compiles(cfg, tokens))
            && (r.Running? ==>
                 r == Running(Program(cfg, tokens).value, Wrap32(Charges(r.out))) && |r.out| <= MAX_LENGTH
                 && r.charged < MAX_LENGTH)
            && (r.Overrun? <==> exists k: nat | k < |tokens| :: OverrunsAt(cfg, tokens, k))
    decreases |tokens|
  {
    hide Step, Meaning, Stores, Charges, Wrap32;
    if tokens == [] {
      NothingCharged();
    } else {
      var n := |tokens| - 1;
      var before, t := tokens[..n], tokens[n];
      assert tokens == before + [t];
      ProgramSnoc(cfg, before, t);
      StepsSnoc(cfg, Running([], 0), before, t);
      CompilesExactly(cfg, before);
      forall k: nat | k < n ensures OverrunsAt(cfg, tokens, k) <==> OverrunsAt(cfg, before, k) {
        assert before[..k] == tokens[..k];
      }
      var s := Steps(cfg, Running([], 0), before);
      if s.Running? {
        StepExactly(cfg, s.out, t);
        if t.Skip? { SkipTakes(cfg, s); }
        assert OverrunsAt(cfg, tokens, n) <==> |s.out| == MAX_LENGTH && Stores(t);
      } else {
        assert Step(cfg, s, t) == s by { StoppedStep(cfg, s, t); }
      }
    }
  }

  lemma NothingCharged()
    ensures Wrap32(Charges([])) == Charges([]) == 0
  {}

  lemma StoppedStep(cfg: Config, s: Progress, t: Token)
    requires |cfg.pinFree| == PINS && !s.Running?
    ensures Step(cfg, s, t) == s
  {}

  lemma SkipTakes(cfg: Config, s: Progress)
    requires |cfg.pinFree| == PINS && s.Running?
    ensures Step(cfg, s, Skip) == s && Meaning(cfg, Skip) == Some([]) && s.out + [] == s.out
  {}

  lemma {:induction false} StoppedStays(cfg: Config, s: Progress, tokens: seq<Token>)
    requires |cfg.pinFree| == PINS && !s.Running?
    ensures Steps(cfg, s, tokens) == s
    decreases |tokens|
  {
    if tokens != [] { StoppedStays(cfg, s, tokens[1..]); }
  }

  // ---- said of the tokens alone --------------------------------------------------------------------

  /** The character that stands for a command; numbers and literals stand for writes. */
  function Sign(c: Command): Option<char> {
    match c
    case Write => None
    case Read => Some('r')
    case Start => Some('[')
    case Stop => Some(']')
    case StartAlt => Some('{')
    case StopAlt => Some('}')
    case DelayUs => Some('d')
    case DelayMs => Some('D')
    case TickClock => Some('^')
    case ClkHigh => Some('/')
    case ClkLow => Some('\\')
    case DatHigh => Some('-')
    case DatLow => Some('_')
    case ReadDat => Some('.')
    case AuxHigh => Some('A')
    case AuxLow => Some('a')
    case AuxInput => Some('@')
    case Adc => Some('v')
  }

  predicate PinSign(c: char) { c == 'a' || c == 'A' || c == '@' || c == 'v' }

  /** A command that names a pin does so by its bits, of a pin there is; only 'v' may take a pin in use. */
  predicate PinNamed(cfg: Config, c: char, a: Attrs)
    requires |cfg.pinFree| == PINS
  {
    PinSign(c) ==> a.bits.Some? && a.bits.value < PINS && (c == 'v' || cfg.pinFree[a.bits.value])
  }

  /** A token that is no error. */
  predicate TokenOk(cfg: Config, t: Token)
    requires |cfg.pinFree| == PINS
  {
    match t
    case Skip => true
    case Number(_, _, _) => true
    case Text(_) => true
    case Symbol(c, a) => c in "r[{]}dD^/\\_-.aA@v" && PinNamed(cfg, c, a)
    case _ => false
  }

  function RepeatOf(a: Attrs): nat { if a.repeat.Some? then a.repeat.value else 1 }

  /** The slots a token is charged for: one for a delay or a clock tick, else its repeats. */
  function ChargeOf(t: Token): nat {
    match t
    case Number(_, _, a) => RepeatOf(a)
    case Text(chars) => |chars|
    case Symbol(c, a) => if c == 'd' || c == 'D' || c == '^' then 1 else RepeatOf(a)
    case _ => 0
  }

  function ChargedFor(tokens: seq<Token>): nat {
    if tokens == [] then 0 else
    var n := |tokens| - 1;
    ChargedFor(tokens[..n]) + ChargeOf(tokens[n])
  }

  function Instructions(tokens: seq<Token>): nat {
    if tokens == [] then 0 else
    var n := |tokens| - 1;
    Instructions(tokens[..n]) + Stored(tokens[n])
  }

  /** Token k is no error and finds room: behind it the 32-bit charge is below the limit, and the instructions
      fit the output buffer, a literal with one to spare. */
  predicate FitsAt(cfg: Config, tokens: seq<Token>, k: nat)
    requires |cfg.pinFree| == PINS && k < |tokens|
  {
    && TokenOk(cfg, tokens[k])
    && (tokens[k].Skip? ||
          (&& Wrap32(ChargedFor(tokens[..k + 1])) < MAX_LENGTH && Instructions(tokens[..k + 1]) <= MAX_LENGTH
           && (tokens[k].Text? ==> Instructions(tokens[..k + 1]) < MAX_LENGTH)))
  }

  predicate FitsAll(cfg: Config, tokens: seq<Token>)
    requires |cfg.pinFree| == PINS
  {
    forall k: nat | k < |tokens| :: FitsAt(cfg, tokens, k)
  }

  /** An instruction has the number of bits and the repeats its token gives, or else those configured and one. */
  predicate Attributed(cfg: Config, i: Instr, a: Attrs) {
    && i.hasBits == a.bits.Some? && i.bits == (if a.bits.Some? then a.bits.value else cfg.numBits)
    && i.hasRepeat == a.repeat.Some? && i.repeat == RepeatOf(a)
  }

  /** What one token is compiled to. */
  predicate Spelt(cfg: Config, t: Token, p: seq<Instr>) {
    match t
    case Skip => p == []
    case Number(value, format, a) =>
      |p| == 1 && p[0].command.Write? && p[0].data == value && p[0].format == format && Attributed(cfg, p[0], a)
    case Text(chars) =>
      && |p| == |chars|
      && forall k | 0 <= k < |p| :: p[k].command.Write? && p[k].data == chars[k] as int && p[k].format == ASCII
                                    && Attributed(cfg, p[k], Attrs(None, None))
    case Symbol(c, a) => |p| == 1 && Sign(p[0].command) == Some(c) && p[0].data == 0 && Attributed(cfg, p[0], a)
    case _ => false
  }

  /** The program spells the tokens, one after the other. */
  ghost predicate Spells(cfg: Config, tokens: seq<Token>, p: seq<Instr>) {
    if tokens == [] then p == [] else
    var n := |tokens| - 1;
    var m := Stored(tokens[n]);
    m <= |p| && Spells(cfg, tokens[..n], p[..|p| - m]) && Spelt(cfg, tokens[n], p[|p| - m..])
  }

  /** Each symbol stands for its command, and every other character for none. */
  lemma SymbolsMean(c: char)
    ensures SymbolCommand(c).Some? <==> c in "r[{]}dD^/\\_-.aA@v"
    ensures SymbolCommand(c).Some? ==> Sign(SymbolCommand(c).value) == Some(c)
  {}

  lemma TokenMeans(cfg: Config, t: Token)
    requires |cfg.pinFree| == PINS
    ensures Meaning(cfg, t).Some? <==> TokenOk(cfg, t)
    ensures TokenOk(cfg, t) ==>
              var p := Meaning(cfg, t).value;
              Spelt(cfg, t, p) && |p| == Stored(t) && Charges(p) == ChargeOf(t)
  {
    match t
    case Text(chars) => TextCharges(cfg, chars);
    case Number(value, format, a) => OneCharge(WithAttrs(cfg, Write, value, format, a));
    case Symbol(c, a) =>
      SymbolsMean(c);
      if SymbolCommand(c).Some? { OneCharge(WithAttrs(cfg, SymbolCommand(c).value, 0, 0, a)); }
    case _ =>
  }

  lemma OneCharge(i: Instr)
    ensures Charges([i]) == Charge(i)
  {
    assert [i][1..] == [];
  }

  lemma {:induction false} ProgramMeans(cfg: Config, tokens: seq<Token>)
    requires |cfg.pinFree| == PINS && Program(cfg, tokens).Some?
    ensures var p := Program(cfg, tokens).value;
            Spells(cfg, tokens, p) && |p| == Instructions(tokens) && Charges(p) == ChargedFor(tokens)
    ensures forall k: nat | k < |tokens| :: TokenOk(cfg, tokens[k])
    decreases |tokens|
  {
    hide Meaning, Charges, TokenOk, Spelt, Stored, ChargeOf;
    if tokens == [] {
      NothingCharged();
    } else {
      var n := |tokens| - 1;
      assert tokens == tokens[..n] + [tokens[n]];
      ProgramSnoc(cfg, tokens[..n], tokens[n]);
      ProgramMeans(cfg, tokens[..n]);
      TokenMeans(cfg, tokens[n]);
      var p, m := Program(cfg, tokens[..n]).value, Meaning(cfg, tokens[n]).value;
      ChargesConcat(p, m);
      assert (p + m)[..|p|] == p && (p + m)[|p|..] == m;
    }
  }

  lemma {:induction false} CompilesOnTokens(cfg: Config, tokens: seq<Token>)
    requires |cfg.pinFree| == PINS
    ensures Compiles(cfg, tokens) <==> FitsAll(cfg, tokens)
    decreases |tokens|
  {
    hide Meaning, Charges, TokenOk, Stored, ChargeOf, Wrap32;
    if tokens != [] {
      var n := |tokens| - 1;
      var before, t := tokens[..n], tokens[n];
      assert tokens == before + [t] && tokens[..n + 1] == tokens;
      ProgramSnoc(cfg, before, t);
      CompilesOnTokens(cfg, before);
      TokenMeans(cfg, t);
      forall k: nat | k < n ensures FitsAt(cfg, tokens, k) <==> FitsAt(cfg, before, k) {
        assert before[..k + 1] == tokens[..k + 1];
      }
      if Compiles(cfg, before) {
        if Program(cfg, tokens).Some? { ProgramMeans(cfg, tokens); }
        if t.Skip? {
          SkipFits(cfg, before);
          assert Program(cfg, before).value + [] == Program(cfg, before).value;
        }
      }
      assert FitsAll(cfg, tokens) <==> FitsAll(cfg, before) && FitsAt(cfg, tokens, n);
    }
  }

  lemma SkipFits(cfg: Config, before: seq<Token>)
    requires |cfg.pinFree| == PINS && Compiles(cfg, before)
    ensures Meaning(cfg, Skip) == Some([]) && TokenOk(cfg, Skip) && Takes(Program(cfg, before).value, Skip)
  {
    CompilesExactly(cfg, before);
  }

  /** A token stored before anything else about it is looked at. */
  predicate StoredFirst(t: Token) {
    t.Number? || t.BadNumber? || (t.Symbol? && t.c in "r[{]}dD^/\\_-.aA@v")
  }

  /** Token k is the first to find the output buffer full. */
  predicate FullAt(cfg: Config, tokens: seq<Token>, k: nat)
    requires |cfg.pinFree| == PINS && k < |tokens|
  {
    FitsAll(cfg, tokens[..k]) && Instructions(tokens[..k]) == MAX_LENGTH && StoredFirst(tokens[k])
  }

  /** On the tokens alone: which are accepted, which run past the output buffer, and what is stored. */
  lemma CompiledFrom(cfg: Config, tokens: seq<Token>)
    requires |cfg.pinFree| == PINS
    ensures var r := Steps(cfg, Running([], 0), tokens);
            && (r.Running? <==> FitsAll(cfg, tokens))
            && (r.Running? ==> Spells(cfg, tokens, r.out) && r.charged == Wrap32(ChargedFor(tokens)))
            && (r.Overrun? <==> exists k: nat | k < |tokens| :: FullAt(cfg, tokens, k))
  {
    hide Charges, TokenOk, FitsAt, SymbolCommand, Wrap32, FitsAll;
    CompilesExactly(cfg, tokens);
    CompilesOnTokens(cfg, tokens);
    if Compiles(cfg, tokens) { ProgramMeans(cfg, tokens); }
    forall k: nat | k < |tokens| ensures OverrunsAt(cfg, tokens, k) <==> FullAt(cfg, tokens, k) {
      CompilesOnTokens(cfg, tokens[..k]);
      if Compiles(cfg, tokens[..k]) { ProgramMeans(cfg, tokens[..k]); }
      StoredAlike(tokens[k]);
    }
  }

  lemma StoredAlike(t: Token)
    ensures Stores(t) <==> StoredFirst(t)
  {
    if t.Symbol? { SymbolsMean(t.c); }
  }

  // ---- sensible repeats --------------------------------------------------------------------------

  predicate SensibleRepeat(a: Attrs) {
    a.repeat.Some? ==> 1 <= a.repeat.value <= TWO_32 - MAX_LENGTH
  }

  /** No repeat of zero, and none so large that charging it wraps around. */
  predicate Sensible(t: Token) {
    match t
    case Number(_, _, attrs) => SensibleRepeat(attrs)
    case Symbol(_, attrs) => SensibleRepeat(attrs)
    case _ => true
  }

  lemma SensibleCharge(cfg: Config, t: Token)
    requires |cfg.pinFree| == PINS && Sensible(t) && Meaning(cfg, t).Some?
    ensures var m := Meaning(cfg, t).value;
            && |m| <= Charges(m) && (!t.Text? ==> Charges(m) <= TWO_32 - MAX_LENGTH)
            && (t.Text? ==> Charges(m) == |m|)
  {
    var m := Meaning(cfg, t).value;
    if t.Text? {
      TextCharges(cfg, t.chars);
    } else if m != [] {
      assert Charges(m) == Charge(m[0]) + Charges(m[1..]) && m[1..] == [];
    }
  }

  lemma {:induction false} SensibleCompiles(cfg: Config, tokens: seq<Token>)
    requires |cfg.pinFree| == PINS && forall i | 0 <= i < |tokens| :: Sensible(tokens[i])
    ensures Compiles(cfg, tokens) <==> Program(cfg, tokens).Some? && Charges(Program(cfg, tokens).value) < MAX_LENGTH
    ensures Program(cfg, tokens).Some? ==> |Program(cfg, tokens).value| <= Charges(Program(cfg, tokens).value)
    decreases |tokens|
  {
    hide Meaning, Sensible, Charges;
    if tokens == [] {
      NothingCharged();
    } else {
      var n := |tokens| - 1;
      var before, t := tokens[..n], tokens[n];
      assert tokens == before + [t];
      ProgramSnoc(cfg, before, t);
      SensibleCompiles(cfg, before);
      if Program(cfg, tokens).Some? {
        SensibleCharge(cfg, t);
        ChargesConcat(Program(cfg, before).value, Meaning(cfg, t).value);
      }
    }
  }

  /** With sensible repeats the compiler accepts exactly the error-free programs whose charges stay
      below the slot count, emits what they mean, and stays inside its buffer. */
  lemma Accepts(cfg: Config, tokens: seq<Token>)
    requires |cfg.pinFree| == PINS && forall i | 0 <= i < |tokens| :: Sensible(tokens[i])
    ensures var r := Steps(cfg, Running([], 0), tokens);
            && !r.Overrun?
            && (r.Running? <==> Program(cfg, tokens).Some? && Charges(Program(cfg, tokens).value) < MAX_LENGTH)
            && (r.Running? ==>
                 r.out == Program(cfg, tokens).value && |r.out| <= r.charged == Charges(r.out) < MAX_LENGTH)
  {
    hide Meaning, Sensible, Charges, Stores;
    CompilesExactly(cfg, tokens);
    SensibleCompiles(cfg, tokens);
    forall k: nat | k < |tokens| ensures !OverrunsAt(cfg, tokens, k) {
      SensibleCompiles(cfg, tokens[..k]);
    }
  }

  /** Instructions a token may store. */
  function Stored(t: Token): nat {
    match t
    case Text(chars) => |chars|
    case Number(_, _, _) => 1
    case BadNumber => 1
    case Symbol(_, _) => 1
    case _ => 0
  }

  function StoredBy(tokens: seq<Token>): nat {
    if tokens == [] then 0 else Stored(tokens[0]) + StoredBy(tokens[1..])
  }

  /** Whatever the repeats, it takes more instructions than the buffer holds to run past its end. */
  lemma {:induction false} FewStayInside(cfg: Config, s: Progress, tokens: seq<Token>)
    requires |cfg.pinFree| == PINS && s.Running? && |s.out| + StoredBy(tokens) <= MAX_LENGTH
    ensures !Steps(cfg, s, tokens).Overrun?
    decreases |tokens|
  {
    if tokens != [] {
      var next := Step(cfg, s, tokens[0]);
      if next.Running? { FewStayInside(cfg, next, tokens[1..]); } else { StoppedStays(cfg, next, tokens[1..]); }
    }
  }

  /** Repeats of zero are charged nothing, so any number of them is accepted until the buffer ends. */
  lemma {:induction false} ZeroRepeatsOverrun(cfg: Config, n: nat, out: seq<Instr>)
    requires |cfg.pinFree| == PINS && |out| + n == MAX_LENGTH + 1 && |out| <= MAX_LENGTH
    ensures Steps(cfg, Running(out, 0), seq(n, k => Symbol('r', Attrs(None, Some(0))))) == Overrun
    decreases n
  {
    var t := Symbol('r', Attrs(None, Some(0)));
    var tokens := seq(n, k => t);
    assert tokens[1..] == seq(n - 1, k => t);
    var next := Step(cfg, Running(out, 0), t);
    if |out| >= MAX_LENGTH {
      StoppedStays(cfg, next, tokens[1..]);
    } else {
      ZeroRepeatsOverrun(cfg, n - 1, next.out);
    }
  }

  /** A repeat that wraps the charge is accepted although it stands for billions of slots. */
  lemma WrappedChargeAccepted(cfg: Config)
    requires |cfg.pinFree| == PINS
    ensures var tokens := [Number(1, 0, Attrs(None, None)), Symbol('r', Attrs(None, Some(TWO_32 - 1)))];
            Steps(cfg, Running([], 0), tokens).Running? && Program(cfg, tokens).Some?
                && Charges(Program(cfg, tokens).value) == TWO_32
  {
    var a, b := Number(1, 0, Attrs(None, None)), Symbol('r', Attrs(None, Some(TWO_32 - 1)));
    assert [a, b][1..] == [b] && [b][1..] == [];
    var s1 := Step(cfg, Running([], 0), a);
    var s2 := Step(cfg, s1, b);
    assert Steps(cfg, s1, [b]) == Steps(cfg, s2, []);
    var x, y := Meaning(cfg, a).value, Meaning(cfg, b).value;
    assert Program(cfg, []) == Some([]);
    assert Program(cfg, [b]) == Some(y + []) && y + [] == y;
    assert Program(cfg, [a, b]) == Some(x + y);
    ChargesConcat(x, y);
    assert Charges(x) == 1 + Charges([]) && Charges(y) == TWO_32 - 1 + Charges([]);
  }
}
