/** Steps seen from outside: where the operands of an instruction come from, what a variable
    holds, and what assigning to one changes, said of the fields of the machine themselves
    (execute.go, variable.go, stack.go). */
module Steps {
  import opened Words
  import opened Memory
  import opened Opcodes
  import opened Decoder
  import Encoder
  import opened States
  import opened Routines
  import opened Instructions
  import opened Execution
  import opened Variables

  /** The byte at an address of dynamic memory. */
  function ByteOf(s: State, a: nat): byte {
    if a < |s.mem.dynamic| then s.mem.dynamic[a] else 0
  }

  /** A word as a signed number. */
  function Two(w: word): int {
    if w >= 0x8000 then w - 0x1_0000 else w
  }

  /** What a variable holds: 0 is the stack entry `popped` below the top, 1 to 15 are the
      routine's local variables, and 16 to 255 the words of the globals table. */
  function ContentsOf(cfg: Config, s: State, number: nat, popped: nat): word {
    if number == 0 then if popped < |s.stack| then s.stack[|s.stack| - 1 - popped] else 0
    else if number <= 15 then if number <= |s.Top().locals| then s.Top().locals[number - 1] else 0
    else
      var a := cfg.story.globals + 2 * (number - 16);
      ByteOf(s, a) * 256 + ByteOf(s, a + 1)
  }

  /** How many of the operands come off the stack. */
  function Pops(os: seq<Operand>): nat {
    if os == [] then 0
    else Pops(os[..|os| - 1]) + if os[|os| - 1].kind == VariableNumber && os[|os| - 1].value % 256 == 0 then 1 else 0
  }

  /** The value of operand `i`: itself, or what the variable it names holds once the operands
      before it have been taken. */
  function OperandOf(cfg: Config, s: State, os: seq<Operand>, i: nat): word
    requires i < |os|
  {
    if os[i].kind != VariableNumber then os[i].value else ContentsOf(cfg, s, os[i].value % 256, Pops(os[..i]))
  }

  /** The machine with a variable set: 0 pushes. */
  function Assigned(cfg: Config, s: State, number: nat, v: word): State {
    if number == 0 then s.(stack := s.stack + [v])
    else if number <= 15 then
      var top := s.frames[|s.frames| - 1];
      if number > |top.locals| then s
      else s.(frames := s.frames[|s.frames| - 1 := top.(locals := top.locals[number - 1 := v])])
    else
      var a := cfg.story.globals + 2 * (number - 16);
      if a + 1 >= |s.mem.dynamic| then s
      else s.(mem := s.mem.(dynamic := s.mem.dynamic[a := v / 256][a + 1 := v % 256]))
  }

  /** The machine with a variable set through a reference: 0 replaces the top of the stack. */
  function Replaced(cfg: Config, s: State, number: nat, v: word): State {
    if number != 0 then Assigned(cfg, s, number, v)
    else if s.stack == [] then s
    else s.(stack := s.stack[..|s.stack| - 1] + [v])
  }

  /** The variable can be set: there is room on the stack, or it is one the routine has. */
  predicate CanAssign(cfg: Config, s: State, number: nat) {
    if number == 0 then |s.stack| < cfg.maxStack else number <= 15 ==> number <= s.Top().numLocals
  }

  /** The variable can be read: the routine has it, and something on the stack. */
  predicate CanRead(s: State, number: nat) {
    if number == 0 then |s.stack| > s.Top().base else number <= 15 ==> number <= s.Top().numLocals
  }

  lemma GlobalPlace(cfg: Config, s: State, number: byte)
    requires Inv(cfg, s) && number >= 16
    ensures var a := cfg.story.globals + 2 * (number - 16);
            a == GlobalAddress(cfg, number) && a + 1 < |s.mem.dynamic| && 0 <= a
  {
    GlobalInside(cfg, s, number);
    hide Inv;
  }

  /** Writing a variable sets it, and does so exactly when it can be set. */
  lemma WriteAssigns(cfg: Config, s: State, number: byte, v: word)
    requires Inv(cfg, s)
    ensures VariableWritten(cfg, s, number, v).Done? <==> CanAssign(cfg, s, number)
    ensures VariableWritten(cfg, s, number, v).Done? ==> VariableWritten(cfg, s, number, v).state == Assigned(cfg, s, number, v)
  {
    InvParts(cfg, s);
    if number >= 16 {
      GlobalPlace(cfg, s, number);
    }
    hide Inv;
  }

  lemma ReadGives(cfg: Config, s: State, number: byte)
    requires Inv(cfg, s)
    ensures VariableRead(cfg, s, number).Done? <==> CanRead(s, number)
    ensures VariableRead(cfg, s, number).Done? ==>
              VariableRead(cfg, s, number) ==
              Done(if number == 0 then s.(stack := s.stack[..|s.stack| - 1]) else s, ContentsOf(cfg, s, number, 0))
  {
    InvParts(cfg, s);
    if number >= 16 {
      GlobalPlace(cfg, s, number);
    }
    hide Inv;
  }

  lemma ReferenceGives(cfg: Config, s: State, number: byte)
    requires Inv(cfg, s)
    ensures IndirectRead(cfg, s, number).Done? <==> CanRead(s, number)
    ensures IndirectRead(cfg, s, number).Done? ==> IndirectRead(cfg, s, number) == Done(s, ContentsOf(cfg, s, number, 0))
  {
    ReadGives(cfg, s, number);
    InvParts(cfg, s);
    hide Inv, VariableRead;
  }

  lemma ReferenceSets(cfg: Config, s: State, number: byte, v: word)
    requires Inv(cfg, s)
    ensures IndirectWritten(cfg, s, number, v).Done? <==> if number == 0 then CanRead(s, 0) else CanAssign(cfg, s, number)
    ensures IndirectWritten(cfg, s, number, v).Done? ==> IndirectWritten(cfg, s, number, v).state == Replaced(cfg, s, number, v)
  {
    WriteAssigns(cfg, s, number, v);
    InvParts(cfg, s);
    hide Inv, VariableWritten, Assigned;
    if number == 0 && s.stack != [] {
      assert s.stack[|s.stack| - 1 := v] == s.stack[..|s.stack| - 1] + [v];
    }
  }

  // ----- operands -----

  lemma {:induction false} PopsFirst(o: Operand, rest: seq<Operand>)
    ensures Pops([o] + rest) == Pops([o]) + Pops(rest)
    decreases |rest|
  {
    if rest == [] {
      assert [o] + rest == [o];
    } else {
      var n := |rest| - 1;
      PopsFirst(o, rest[..n]);
      assert ([o] + rest)[..n + 1] == [o] + rest[..n];
    }
  }

  /** The machine once its operands have been taken. */
  function Taking(s: State, os: seq<Operand>): State {
    if Pops(os) <= |s.stack| then s.(stack := s.stack[..|s.stack| - Pops(os)]) else s
  }

  predicate CanTake(s: State, os: seq<Operand>) {
    && s.Top().base + Pops(os) <= |s.stack|
    && forall i :: 0 <= i < |os| && os[i].kind == VariableNumber && os[i].value % 256 != 0 ==> CanRead(s, os[i].value % 256)
  }

  lemma OneTaken(cfg: Config, s: State, o: Operand)
    requires Inv(cfg, s)
    ensures OperandValue(cfg, s, o).Done? <==> CanTake(s, [o])
    ensures OperandValue(cfg, s, o).Done? ==> OperandValue(cfg, s, o) == Done(Taking(s, [o]), OperandOf(cfg, s, [o], 0))
  {
    hide Inv, VariableRead, ContentsOf, CanRead;
    assert [o][..0] == [] && Pops([]) == 0;
    assert Pops([o]) == if o.kind == VariableNumber && o.value % 256 == 0 then 1 else 0;
    ReadGives(cfg, s, Lo(o.value));
    InvParts(cfg, s);
    NothingTaken(s);
    StackRead(s);
    hide Pops;
    if Pops([o]) == 0 {
      assert s.(stack := s.stack[..|s.stack| - 0]) == s;
    }
  }

  lemma StackRead(s: State)
    ensures CanRead(s, 0) <==> |s.stack| > s.Top().base
  {
  }

  lemma LaterOperand(cfg: Config, s: State, os: seq<Operand>, i: nat)
    requires i < |os| && CanTake(s, [os[0]])
    ensures OperandOf(cfg, s, os, i) ==
            if i == 0 then OperandOf(cfg, s, [os[0]], 0) else OperandOf(cfg, Taking(s, [os[0]]), os[1..], i - 1)
  {
    if i == 0 {
      assert os[..0] == [os[0]][..0];
    } else {
      assert os[1..][i - 1] == os[i];
      assert os[..i] == [os[0]] + os[1..][..i - 1];
      PopsFirst(os[0], os[1..][..i - 1]);
      hide Pops;
    }
  }

  /** Operands are taken from left to right: each has the value it names at that point, they
      take nothing but what comes off the stack, and they fail exactly when the stack has too
      little or a local variable is missing. */
  lemma {:induction false} OperandsTaken(cfg: Config, s: State, os: seq<Operand>)
    requires Inv(cfg, s)
    ensures OperandValues(cfg, s, os).Done? <==> CanTake(s, os)
    ensures OperandValues(cfg, s, os).Done? ==>
              && OperandValues(cfg, s, os).state == Taking(s, os)
              && |OperandValues(cfg, s, os).value| == |os|
              && forall i :: 0 <= i < |os| ==> OperandValues(cfg, s, os).value[i] == OperandOf(cfg, s, os, i)
    decreases |os|
  {
    hide Inv, OperandValue, OperandOf, Pops, CanTake, Taking;
    InvParts(cfg, s);
    if os == [] {
      NothingTaken(s);
    } else {
      OneTaken(cfg, s, os[0]);
      if CanTake(s, [os[0]]) {
        var s1 := Taking(s, [os[0]]);
        OperandsTaken(cfg, s1, os[1..]);
        CanTakeRest(s, os);
        if CanTake(s, os) {
          TakingRest(s, os);
        }
        forall i | 0 <= i < |os| ensures OperandOf(cfg, s, os, i) ==
                                         if i == 0 then OperandOf(cfg, s, [os[0]], 0) else OperandOf(cfg, s1, os[1..], i - 1) {
          LaterOperand(cfg, s, os, i);
        }
      } else {
        CannotTakeFirst(s, os);
      }
    }
  }

  lemma NothingTaken(s: State)
    ensures Taking(s, []) == s
    ensures s.Top().base <= |s.stack| ==> CanTake(s, [])
  {
    assert s.stack[..|s.stack|] == s.stack;
  }

  lemma TakingRest(s: State, os: seq<Operand>)
    requires os != [] && CanTake(s, os)
    ensures Taking(Taking(s, [os[0]]), os[1..]) == Taking(s, os)
  {
    assert os == [os[0]] + os[1..];
    PopsFirst(os[0], os[1..]);
    hide Pops;
  }

  lemma CanTakeRest(s: State, os: seq<Operand>)
    requires os != [] && CanTake(s, [os[0]])
    ensures CanTake(s, os) <==> CanTake(Taking(s, [os[0]]), os[1..])
  {
    assert os == [os[0]] + os[1..];
    PopsFirst(os[0], os[1..]);
    assert forall i :: 0 < i < |os| ==> os[1..][i - 1] == os[i];
    hide Pops;
  }

  lemma CannotTakeFirst(s: State, os: seq<Operand>)
    requires os != [] && !CanTake(s, [os[0]])
    ensures !CanTake(s, os)
  {
    assert os == [os[0]] + os[1..];
    PopsFirst(os[0], os[1..]);
    hide Pops;
  }

  // ----- one step -----

  /** A decoded instruction has a result variable, a branch and inline text exactly when its
      kind takes them. */
  lemma Carries(m: Mem, abbrevs: nat, addr: nat, inst: Instr)
    requires Decoded(m, abbrevs, addr) == Ok(inst)
    ensures inst.raw.store.Some? <==> InfoOf(inst.raw.op).store
    ensures inst.raw.branch.Some? <==> InfoOf(inst.raw.op).branch
    ensures inst.raw.words.Some? <==> InfoOf(inst.raw.op).text
    ensures InfoOf(inst.raw.op).DefinedInV3() && |inst.raw.operands| <= MAX_OPERANDS
    ensures Encoder.HeadFits(Encoder.HeadIn(inst.raw))
  {
    hide Parse, Encoder.At, Encoder.Print, Encoder.HeadFits, Encoder.HeadIn, InfoOf;
    Encoder.PrintDecoded(m, addr);
  }

  /** The machine stands on `inst`, whose operands can be taken and are `ops`; `s1` is the
      machine with them taken and the program counter behind the instruction. (An sread
      without a line takes none.) */
  ghost predicate Executes(cfg: Config, s: State, inst: Instr, ops: seq<word>, s1: State) {
    && Inv(cfg, s)
    && Decoded(s.mem, cfg.story.abbreviations, s.pc) == Ok(inst)
    && (inst.raw.op == Opcode(OpVar, 4) ==> s.input.Some?)
    && CanTake(s, inst.raw.operands)
    && |ops| == |inst.raw.operands|
    && (forall i :: 0 <= i < |ops| ==> ops[i] == OperandOf(cfg, s, inst.raw.operands, i))
    && s1 == Taking(s, inst.raw.operands).(pc := inst.next)
  }

  lemma NoOperands(m: Mem, abbrevs: nat, addr: nat, inst: Instr)
    requires Decoded(m, abbrevs, addr) == Ok(inst) && inst.raw.op.count == Op0
    ensures inst.raw.operands == []
  {
    hide Decoded, InfoOf;
    Carries(m, abbrevs, addr, inst);
  }

  lemma OperandsStay(cfg: Config, s: State, pc: nat, os: seq<Operand>, i: nat)
    requires i < |os|
    ensures OperandOf(cfg, s.(pc := pc), os, i) == OperandOf(cfg, s, os, i)
  {
  }

  /** Then a step is the execution of that instruction on those operands. */
  lemma StepDispatches(cfg: Config, s: State, inst: Instr, ops: seq<word>, s1: State)
    requires Executes(cfg, s, inst, ops, s1)
    ensures Inv(cfg, s1) && inst.next <= |cfg.story.image| && |ops| <= MAX_OPERANDS
    ensures Stepped(cfg, s) ==
            match Dispatched(cfg, s1, inst, ops)
            case Fail(s2, e) => Fail(s2, e)
            case Done(s2, control) => Finished(s2, control, s.pc)
  {
    hide Inv, OperandOf, Taking, CanTake, Decoded, Stepped, Dispatched, Proceeds, Beneath, OperandValues;
    StepExecutes(cfg, s, inst);
    var s0, os := Jumped(cfg, s, inst.next), inst.raw.operands;
    OperandsTaken(cfg, s0, os);
    TakingJumped(s, inst.next, os);
    forall i | 0 <= i < |ops| ensures OperandOf(cfg, s0, os, i) == ops[i] {
      OperandsStay(cfg, s, inst.next, os, i);
    }
    assert OperandValues(cfg, s0, os).value == ops;
  }

  lemma TakingJumped(s: State, pc: nat, os: seq<Operand>)
    ensures CanTake(s.(pc := pc), os) == CanTake(s, os) && Taking(s.(pc := pc), os) == Taking(s, os).(pc := pc)
  {
    hide Pops;
  }

  /** And every step that goes on or halts is one. */
  lemma StepsExecute(cfg: Config, s: State) returns (inst: Instr, ops: seq<word>, s1: State)
    requires Inv(cfg, s) && Stepped(cfg, s).Done? && Stepped(cfg, s).value != Suspend
    ensures Executes(cfg, s, inst, ops, s1)
  {
    hide Inv, OperandOf, Taking, CanTake, Decoded, Executed, Proceeds, Beneath, OperandValues, Suspended;
    inst := Decoded(s.mem, cfg.story.abbreviations, s.pc).value;
    StepExecutes(cfg, s, inst);
    var s0, os := Jumped(cfg, s, inst.next), inst.raw.operands;
    OperandsTaken(cfg, s0, os);
    TakingJumped(s, inst.next, os);
    ExecutedTakes(cfg, s0, inst);
    ops := OperandValues(cfg, s0, os).value;
    s1 := Taking(s, os).(pc := inst.next);
    forall i | 0 <= i < |ops| ensures OperandOf(cfg, s, os, i) == ops[i] {
      OperandsStay(cfg, s, inst.next, os, i);
    }
  }

  lemma ExecutedTakes(cfg: Config, s: State, inst: Instr)
    requires Inv(cfg, s) && s.pc <= |cfg.story.image| && |inst.raw.operands| <= MAX_OPERANDS
    requires Executed(cfg, s, inst).Done? && Executed(cfg, s, inst).value != Suspend
    ensures OperandValues(cfg, s, inst.raw.operands).Done? && (inst.raw.op == Opcode(OpVar, 4) ==> s.input.Some?)
  {
    hide Inv, OperandValues, Dispatched, Proceeds, Beneath, StatusUpdated;
  }
}
