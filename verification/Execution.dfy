/** The execution loop (execute.go): one step, a whole call of Start or Run, and what they
    keep. */
module Execution {
  import opened Words
  import opened Memory
  import opened Text
  import opened Opcodes
  import opened Decoder
  import Encoder
  import opened Random
  import opened Output
  import opened States
  import Input
  import opened Routines
  import opened Instructions

  /** The operands' values, in order: reading a variable can pop the stack. */
  function OperandValues(cfg: Config, s: State, operands: seq<Operand>): (r: Run<seq<word>>)
    requires Inv(cfg, s)
    ensures Stays(cfg, s, r.state)
    ensures r.Done? ==> |r.value| == |operands|
    decreases |operands|
  {
    hide Inv, Beneath, VariableRead;
    if operands == [] then Done(s, [])
    else
      var (s1, first) :- OperandValue(cfg, s, operands[0]);
      var (s2, rest) :- OperandValues(cfg, s1, operands[1..]);
      Done(s2, [first] + rest)
  }

  function OperandValue(cfg: Config, s: State, operand: Operand): (r: Run<word>)
    requires Inv(cfg, s)
    ensures Stays(cfg, s, r.state)
  {
    if operand.kind == VariableNumber then VariableRead(cfg, s, Lo(operand.value)) else Done(s, operand.value)
  }

  function Dispatched(cfg: Config, s: State, inst: Instr, ops: seq<word>): (r: Run<Control>)
    requires Inv(cfg, s) && s.pc <= |cfg.story.image| && |ops| <= MAX_OPERANDS
    ensures Moves(cfg, inst.raw.op, Beneath(s), r)
  {
    match inst.raw.op.count
    case Op0 => Executed0(cfg, s, inst)
    case Op1 => Executed1(cfg, s, inst, ops)
    case Op2 => Executed2(cfg, s, inst, ops)
    case OpVar => ExecutedVar(cfg, s, inst, ops)
  }

  predicate Suspending(cfg: Config, s: State, inst: Instr) {
    inst.raw.op == SREAD && s.input.None?
  }

  /** The status line is updated at the input boundary too. */
  function Suspended(cfg: Config, s: State): (r: Run<Control>)
    requires Inv(cfg, s)
    ensures Stays(cfg, s, r.state)
  {
    hide Inv, Beneath, StatusUpdated;
    var (s1, _) :- StatusUpdated(cfg, s);
    Done(s1, Suspend)
  }

  /** One instruction. sread without a line suspends before its operands are evaluated. */
  function Executed(cfg: Config, s: State, inst: Instr): (r: Run<Control>)
    requires Inv(cfg, s) && s.pc <= |cfg.story.image| && |inst.raw.operands| <= MAX_OPERANDS
    ensures Inv(cfg, r.state) && (r.Done? ==> FollowsAs(cfg, inst.raw.op, Beneath(s), r.state))
    ensures r.Done? && r.value == Suspend ==> Suspending(cfg, s, inst) && r == Suspended(cfg, s)
  {
    hide Inv, Beneath, Entered, ReturnedTo, Afresh, Dispatched, StatusUpdated;
    if Suspending(cfg, s, inst) then Suspended(cfg, s)
    else
      var (s1, ops) :- OperandValues(cfg, s, inst.raw.operands);
      OperandsKeepPc(cfg, s, inst.raw.operands);
      Dispatched(cfg, s1, inst, ops)
  }

  lemma {:induction false} OperandsKeepPc(cfg: Config, s: State, operands: seq<Operand>)
    requires Inv(cfg, s)
    ensures OperandValues(cfg, s, operands).state.pc == s.pc
    decreases |operands|
  {
    hide Inv, Beneath;
    if operands != [] {
      var r := OperandValue(cfg, s, operands[0]);
      if r.Done? {
        OperandsKeepPc(cfg, r.state, operands[1..]);
      }
    }
  }

  // ----- one step -----

  /** One turn of the loop. A suspended instruction keeps the program counter on it. */
  function Stepped(cfg: Config, s: State): (r: Run<Control>)
    requires Inv(cfg, s)
    ensures Inv(cfg, r.state) && (r.Done? && r.value != Halt ==> Follows(cfg, Beneath(s), r.state))
  {
    hide Inv, Beneath, Entered, ReturnedTo, Afresh, Executed, Decoded;
    match Decoded(s.mem, cfg.story.abbreviations, s.pc)
    case Err(e) => Fail(s, e)
    case Ok(inst) =>
      InvParts(cfg, s);
      Encoder.DecodedBounds(s.mem, cfg.story.abbreviations, s.pc);
      var (s1, control) :- Executed(cfg, Jumped(cfg, s, inst.next), inst);
      Finish(cfg, Jumped(cfg, s, inst.next), s1, control, s.pc);
      Finished(s1, control, s.pc)
  }

  function Finished(s: State, control: Control, pc: nat): Run<Control> {
    match control
    case Continue => Done(s, Continue)
    case Halt => Done(s.(halted := true), Halt)
    case Suspend => Done(s.(pc := pc), Suspend)
  }

  lemma Finish(cfg: Config, s: State, s1: State, control: Control, pc: nat)
    requires Inv(cfg, s) && Inv(cfg, s1) && Follows(cfg, Beneath(s), s1)
    requires control == Suspend ==> s1 == Suspended(cfg, s).state
    ensures var s' := Finished(s1, control, pc).state;
            Inv(cfg, s') && (control != Halt ==> Follows(cfg, Beneath(s), s'))
  {
    hide Inv, Delivered, Suspended;
    if control == Halt {
      FlagParts(cfg, s1, s1.(halted := true));
    } else if control == Suspend {
      FreeParts(cfg, s1, s1.(pc := pc));
    }
  }

  /** A step is the execution of the instruction the machine stands on, if there is one. */
  lemma StepExecutes(cfg: Config, s: State, inst: Instr)
    requires Inv(cfg, s) && Decoded(s.mem, cfg.story.abbreviations, s.pc) == Ok(inst)
    ensures inst.next <= |cfg.story.image| && |inst.raw.operands| <= MAX_OPERANDS
    ensures Stepped(cfg, s) ==
            match Executed(cfg, Jumped(cfg, s, inst.next), inst)
            case Fail(s1, e) => Fail(s1, e)
            case Done(s1, control) => Finished(s1, control, s.pc)
  {
    hide Inv, Decoded, Executed, Beneath, Proceeds, Finished;
    InvParts(cfg, s);
    Encoder.DecodedBounds(s.mem, cfg.story.abbreviations, s.pc);
  }

  lemma StepUndecoded(cfg: Config, s: State, e: Fault)
    requires Inv(cfg, s) && Decoded(s.mem, cfg.story.abbreviations, s.pc) == Err(e)
    ensures Stepped(cfg, s) == Fail(s, e)
  {
    hide Inv, Decoded, Executed, Beneath, Proceeds;
  }

  /** The instruction the machine stands on is restart. */
  predicate AtRestart(cfg: Config, s: State) {
    match Decoded(s.mem, cfg.story.abbreviations, s.pc)
    case Ok(inst) => inst.raw.op == RESTART
    case Err(_) => false
  }

  /** A step begins the story again if the instruction is restart, and only then. */
  lemma StepProceeds(cfg: Config, s: State)
    requires Inv(cfg, s) && Stepped(cfg, s).Done? && Stepped(cfg, s).value != Halt
    ensures if AtRestart(cfg, s) then BegunAgain(cfg, Beneath(s), Stepped(cfg, s).state)
            else Proceeds(Beneath(s), Stepped(cfg, s).state)
  {
    hide Inv, Executed, Decoded, Entered, Delivered, Suspended;
    var inst := Decoded(s.mem, cfg.story.abbreviations, s.pc).value;
    InvParts(cfg, s);
    Encoder.DecodedBounds(s.mem, cfg.story.abbreviations, s.pc);
    var s0 := Jumped(cfg, s, inst.next);
    assert Beneath(s0) == Beneath(s);
    var r := Executed(cfg, s0, inst);
    assert FollowsAs(cfg, inst.raw.op, Beneath(s), r.state);
    assert Stepped(cfg, s).state == Finished(r.state, r.value, s.pc).state;
  }

  // ----- a whole call -----

  /** The loop, `n` instructions into the call. */
  function Looped(cfg: Config, s: State, n: nat): (r: Run<Control>)
    requires Inv(cfg, s) && n <= cfg.limit
    ensures Inv(cfg, r.state)
    decreases cfg.limit - n
  {
    hide Inv, Stepped;
    if n >= cfg.limit then Fail(s, ExecutionLimit)
    else
      var (s1, control) :- Stepped(cfg, s);
      if control == Continue then Looped(cfg, s1, n + 1) else Done(s1, control)
  }

  function Cleared(screen: Screen): Screen {
    screen.(lower := [], upper := [])
  }

  lemma ClearedParts(cfg: Config, s: State, s': State)
    requires Inv(cfg, s)
    requires s'.frames == s.frames && s'.stack == s.stack && s'.mem == s.mem && s'.random == s.random
    requires s'.screen == Cleared(s.screen)
    ensures Inv(cfg, s')
  {
    hide Chain, SameShape;
  }

  function Ran(cfg: Config, s: State): (r: Run<Control>)
    requires Inv(cfg, s)
    ensures Inv(cfg, r.state)
  {
    var s' := s.(screen := Cleared(s.screen));
    ClearedParts(cfg, s, s');
    Looped(cfg, s', 0)
  }

  /** Start. `supply` is what the host's random source will return during this call. */
  function StartRun(cfg: Config, s: State, supply: seq<Entropy>): (r: Run<Control>)
    requires Inv(cfg, s)
    ensures Inv(cfg, r.state)
  {
    if s.halted || s.started then Fail(s, ExecutionFault)
    else
      var s' := s.(started := true, input := None, supply := supply);
      FlagParts(cfg, s, s');
      Ran(cfg, s')
  }

  /** Run, with one line of input. */
  function TurnRun(cfg: Config, s: State, line: Str, supply: seq<Entropy>): (r: Run<Control>)
    requires Inv(cfg, s)
    ensures Inv(cfg, r.state)
  {
    if s.halted then Fail(s, ExecutionFault)
    else
      var s' := s.(started := true, input := Some(line), supply := supply);
      FlagParts(cfg, s, s');
      Ran(cfg, s')
  }

  /** The state in which the loop of a turn begins. */
  function TurnBegun(s: State, line: Str, supply: seq<Entropy>): State {
    s.(started := true, input := Some(line), supply := supply, screen := Cleared(s.screen))
  }

  // ----- runs as sequences of states -----

  /** Consecutive states of one run. */
  ghost predicate Trace(cfg: Config, trace: seq<State>) {
    && trace != []
    && Inv(cfg, trace[0])
    && (|trace| > 1 ==> Stepped(cfg, trace[0]) == Done(trace[1], Continue) && Trace(cfg, trace[1..]))
  }

  /** Every call executes at most the limit of instructions: its states form a run of that
      many steps, and it ends because the next instruction halts, suspends or fails, or
      because the limit is reached. */
  lemma {:induction false} LoopIsBounded(cfg: Config, s: State, n: nat) returns (trace: seq<State>)
    requires Inv(cfg, s) && n <= cfg.limit
    ensures Trace(cfg, trace) && trace[0] == s && |trace| <= cfg.limit - n + 1
    ensures var last, r := trace[|trace| - 1], Looped(cfg, s, n);
            Inv(cfg, last) &&
            if |trace| == cfg.limit - n + 1 then r == Fail(last, ExecutionLimit)
            else r == Stepped(cfg, last) && !(r.Done? && r.value == Continue)
    decreases cfg.limit - n
  {
    hide Inv, Stepped;
    trace := [s];
    if n < cfg.limit {
      var r := Stepped(cfg, s);
      if r.Done? && r.value == Continue {
        var rest := LoopIsBounded(cfg, r.state, n + 1);
        trace := [s] + rest;
        assert trace[1..] == rest;
      }
    }
  }

  /** A suspended machine stands on an sread it has no line for, and its status line is the
      one the player should see there. */
  ghost predicate AtRead(cfg: Config, s: State) {
    && Inv(cfg, s)
    && s.input.None?
    && (match Decoded(s.mem, cfg.story.abbreviations, s.pc)
        case Ok(inst) => inst.raw.op == SREAD
        case Err(_) => false)
    && StatusUpdated(cfg, s) == Done(s, ())
  }

  /** Updating the status line never fails, changes nothing else, and depends only on
      memory. */
  lemma StatusDependsOnMemory(cfg: Config, s: State, t: State) returns (line: StatusLine)
    requires Inv(cfg, s) && Inv(cfg, t) && s.mem == t.mem
    ensures StatusUpdated(cfg, s) == Done(s.(status := line), ())
    ensures StatusUpdated(cfg, t) == Done(t.(status := line), ())
  {
    GlobalsExist(cfg, s, GLOBAL_FIRST, 0);
    GlobalsExist(cfg, s, GLOBAL_FIRST + 1, 0);
    GlobalsExist(cfg, s, GLOBAL_FIRST + 2, 0);
    hide Inv, StatusFor, Mem.ReadWord;
    line := StatusUpdated(cfg, s).state.status;
  }

  lemma SuspendsAtRead(cfg: Config, s: State, s': State)
    requires Inv(cfg, s) && Stepped(cfg, s) == Done(s', Suspend)
    ensures AtRead(cfg, s') && s'.pc == s.pc && s' == s.(status := s'.status)
  {
    hide Decoded, Inv, Executed, StatusUpdated;
    var inst := Decoded(s.mem, cfg.story.abbreviations, s.pc).value;
    InvParts(cfg, s);
    Encoder.DecodedBounds(s.mem, cfg.story.abbreviations, s.pc);
    var s1 := Jumped(cfg, s, inst.next);
    var s2 := Executed(cfg, s1, inst).state;
    assert s' == s2.(pc := s.pc);
    hide Stepped;
    ExecutedSuspends(cfg, s1, inst);
    var line := StatusDependsOnMemory(cfg, s1, s1);
    assert s' == s.(status := line);
    var again := StatusDependsOnMemory(cfg, s1, s');
    assert s'.(status := again) == s';
  }

  lemma ExecutedSuspends(cfg: Config, s: State, inst: Instr)
    requires Inv(cfg, s) && s.pc <= |cfg.story.image| && |inst.raw.operands| <= MAX_OPERANDS
    requires Executed(cfg, s, inst).Done? && Executed(cfg, s, inst).value == Suspend
    ensures inst.raw.op == SREAD && s.input.None? && Executed(cfg, s, inst).state == StatusUpdated(cfg, s).state
  {
    hide Inv, Executed, StatusUpdated;
  }

  /** An sread that is given a line changes nothing but memory, as the input model says, the
      status line, and the line, which is consumed. */
  lemma ReadEffect(cfg: Config, s: State, text: word, parse: word, line: Str)
    requires Inv(cfg, s) && s.input == Some(line) && LineTaken(cfg, s, [text, parse]).Done?
    ensures var r := Input.LineRead(s.mem, cfg.story.dictionary, text, parse, line, cfg.lib.lower);
            var s' := LineTaken(cfg, s, [text, parse]).state;
            && r.Done?
            && s' == s.(mem := r.state, input := None, status := s'.status)
            && StatusUpdated(cfg, s) == Done(s.(status := s'.status), ())
  {
    var shown := StatusDependsOnMemory(cfg, s, s);
    hide Inv, StatusUpdated, Input.LineStored, Input.Tokenised;
  }
}
