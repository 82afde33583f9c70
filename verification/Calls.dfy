/** Calls and returns as instructions: what frame a call makes, what value a return delivers,
    and where the caller finds it (opcode_var.go, opcode_0op.go, opcode_1op.go, routine.go). */
module Calls {
  import opened Words
  import opened Memory
  import opened Opcodes
  import opened Decoder
  import Encoder
  import opened States
  import opened Routines
  import opened Instructions
  import opened Execution
  import opened Variables
  import opened Isolation
  import opened Steps
  import opened Flow

  /** The byte at any address of the story. */
  function StoryByte(s: State, a: nat): byte {
    if a < s.mem.Size() then s.mem.Get(a) else 0
  }

  /** The local variables a routine at `a` starts with: its arguments, then the words in its
      header, and zero for those it does not have. */
  function FirstLocals(s: State, a: nat, args: seq<word>): (locals: seq<word>)
    ensures |locals| == 15
  {
    seq<word>(15, i requires 0 <= i < 15 =>
      if i >= StoryByte(s, a) then 0
      else if i < |args| then args[i]
      else StoryByte(s, a + 1 + 2 * i) * 256 + StoryByte(s, a + 2 + 2 * i))
  }

  /** The machine inside the routine that a call with these operands enters: operand 0 is half
      its address, the others are its arguments. */
  function InRoutine(s: State, ops: seq<word>, store: byte): State
    requires ops != []
  {
    var a: nat := 2 * ops[0] as nat;
    var f := Frame(s.pc, FirstLocals(s, a, ops[1..]), StoryByte(s, a), |ops| - 1, |s.stack|, store, true);
    s.(frames := s.frames + [f], pc := a + 1 + 2 * StoryByte(s, a))
  }

  predicate CanEnter(cfg: Config, s: State, ops: seq<word>) {
    && ops != []
    && |s.frames| < cfg.maxDepth
    && var a: nat := 2 * ops[0] as nat; a < s.mem.Size() && StoryByte(s, a) <= 15 && a + 1 + 2 * StoryByte(s, a) <= s.mem.Size()
  }

  lemma {:induction false} HeaderReadable(m: Mem, at: nat, n: nat)
    ensures HeaderLocals(m, at, n).Ok? <==> n == 0 || at + 2 * n <= m.Size()
    ensures HeaderLocals(m, at, n).Ok? ==>
              |HeaderLocals(m, at, n).value| == n &&
              forall i :: 0 <= i < n ==> m.ReadWord(at + 2 * i) == Ok(HeaderLocals(m, at, n).value[i])
  {
    if n > 0 {
      HeaderReadable(m, at, n - 1);
      hide Mem.ReadWord;
    }
  }

  lemma LocalsAreFirst(s: State, a: nat, args: seq<word>, header: seq<word>)
    requires a < s.mem.Size() && |header| == StoryByte(s, a) <= 15 && HeaderLocals(s.mem, a + 1, |header|) == Ok(header)
    ensures StartingLocals(header, args) == FirstLocals(s, a, args)
  {
    HeaderReadable(s.mem, a + 1, |header|);
    hide HeaderLocals;
    forall i | 0 <= i < 15 ensures StartingLocals(header, args)[i] == FirstLocals(s, a, args)[i] {
      if i < |header| {
        assert s.mem.ReadWord(a + 1 + 2 * i) == Ok(header[i]);
      }
    }
  }

  /** callRoutine, of a routine that is not 0. */
  lemma CallEnters(cfg: Config, s: State, ops: seq<word>, store: byte)
    requires Inv(cfg, s) && 1 <= |ops| <= 4 && s.pc <= |cfg.story.image| && ops[0] != 0
    ensures var r := Called(cfg, s, ops[0], ops[1..], s.pc, store, true);
            && (r.Done? <==> CanEnter(cfg, s, ops))
            && (r.Done? ==> r.state == InRoutine(s, ops, store))
  {
    hide Inv, HeaderLocals, StartingLocals, FirstLocals, Entered, Beneath, VariableWritten;
    var a: nat := 2 * ops[0] as nat;
    HeaderReadable(s.mem, a + 1, StoryByte(s, a));
    var header := HeaderLocals(s.mem, a + 1, StoryByte(s, a));
    if a < s.mem.Size() && StoryByte(s, a) <= 15 && header.Ok? {
      LocalsAreFirst(s, a, ops[1..], header.value);
    }
  }

  /** A call instruction: routine 0 just assigns 0 to the variable the store byte names; any
      other is entered, with the operands behind it as its arguments, to assign its result
      there and go on behind the call. */
  lemma CallStep(cfg: Config, s: State, inst: Instr, ops: seq<word>, s1: State)
    requires Executes(cfg, s, inst, ops, s1) && inst.raw.op == Opcode(OpVar, 0)
    ensures inst.raw.store.Some?
    ensures Stepped(cfg, s).Done? <==>
            if ops != [] && ops[0] == 0 then CanAssign(cfg, s1, inst.raw.store.value) else CanEnter(cfg, s1, ops)
    ensures Stepped(cfg, s).Done? ==>
              Stepped(cfg, s) ==
              Done(if ops[0] == 0 then Assigned(cfg, s1, inst.raw.store.value, 0) else InRoutine(s1, ops, inst.raw.store.value), Continue)
  {
    hide Inv, Stepped, Decoded, OperandOf, Taking, CanTake, Called, Beneath, FollowsAs, CanEnter, InRoutine, Assigned, CanAssign;
    hide Executed0, Executed1, Executed2, LineTaken, StreamChosen, PlainVar, Encoder.HeadFits, Encoder.HeadIn, VariableWritten;
    Carries(s.mem, cfg.story.abbreviations, s.pc, inst);
    StepDispatches(cfg, s, inst, ops, s1);
    if ops == [] {
      NoRoutine(cfg, s1);
    } else if ops[0] == 0 {
      WriteAssigns(cfg, s1, inst.raw.store.value, 0);
      NoCall(cfg, s1, ops[1..], s1.pc, inst.raw.store.value);
    } else {
      CallEnters(cfg, s1, ops, inst.raw.store.value);
    }
  }

  lemma NoRoutine(cfg: Config, s: State)
    ensures !CanEnter(cfg, s, [])
  {
  }

  lemma NoCall(cfg: Config, s: State, args: seq<word>, pc: nat, store: byte)
    requires Inv(cfg, s) && |args| <= MAX_ARGUMENTS && pc <= |cfg.story.image|
    ensures Called(cfg, s, 0, args, pc, store, true) == VariableWritten(cfg, s, store, 0)
  {
    hide Inv, VariableWritten, Beneath;
  }

  // ----- returning -----

  /** rtrue, rfalse, ret_popped and ret. */
  predicate Returning(op: Opcode) {
    op in {Opcode(Op0, 0), Opcode(Op0, 1), Opcode(Op0, 8), Opcode(Op1, 11)}
  }

  /** The value each returns. */
  function ReturnValue(cfg: Config, s: State, op: Opcode, ops: seq<word>): word {
    if op.count == Op1 then if ops != [] then ops[0] else 0
    else if op.number == 0 then 1
    else if op.number == 1 then 0
    else ContentsOf(cfg, s, 0, 0)
  }

  /** ret_popped takes its value off the stack. */
  function ValueTaken(s: State, op: Opcode): State {
    if op == Opcode(Op0, 8) && s.stack != [] then s.(stack := s.stack[..|s.stack| - 1]) else s
  }

  predicate CanReturn(cfg: Config, s: State, op: Opcode, ops: seq<word>) {
    && (op.count == Op1 ==> |ops| == 1)
    && (op == Opcode(Op0, 8) ==> CanRead(s, 0))
    && CanDepart(cfg, ValueTaken(s, op))
  }

  lemma ReturnStep(cfg: Config, s: State, inst: Instr, ops: seq<word>, s1: State)
    requires Executes(cfg, s, inst, ops, s1) && Returning(inst.raw.op)
    ensures Stepped(cfg, s).Done? <==> CanReturn(cfg, s1, inst.raw.op, ops)
    ensures Stepped(cfg, s).Done? ==>
              Stepped(cfg, s) ==
              Done(Departed(cfg, ValueTaken(s1, inst.raw.op), ReturnValue(cfg, s1, inst.raw.op, ops)), Continue)
  {
    hide Inv, Stepped, Decoded, OperandOf, Taking, CanTake, Returned, Beneath, FollowsAs, Departed, CanDepart, Pop, CanRead;
    StepDispatches(cfg, s, inst, ops, s1);
    ReturnExecutes(cfg, s1, inst, ops);
    hide Executed0, Executed1, Executed2, ExecutedVar, CanReturn, ValueTaken, ReturnValue;
  }

  lemma ReturnExecutes(cfg: Config, s: State, inst: Instr, ops: seq<word>)
    requires Inv(cfg, s) && Returning(inst.raw.op)
    ensures var r := if inst.raw.op.count == Op0 then Executed0(cfg, s, inst) else Executed1(cfg, s, inst, ops);
            && (r.Done? <==> CanReturn(cfg, s, inst.raw.op, ops))
            && (r.Done? ==> r == Done(Departed(cfg, ValueTaken(s, inst.raw.op), ReturnValue(cfg, s, inst.raw.op, ops)), Continue))
  {
    hide Inv, Returned, Beneath, Departed, CanDepart, Pop, CanRead, ContentsOf;
    var s2, v := ValueTaken(s, inst.raw.op), ReturnValue(cfg, s, inst.raw.op, ops);
    if inst.raw.op == Opcode(Op0, 8) {
      PopTakes(cfg, s);
    }
    if inst.raw.op != Opcode(Op0, 8) || CanRead(s, 0) {
      ReturnDeparts(cfg, s2, v);
    }
  }

  lemma PopTakes(cfg: Config, s: State)
    requires Inv(cfg, s)
    ensures Pop(cfg, s).Done? <==> CanRead(s, 0)
    ensures Pop(cfg, s).Done? ==>
              s.stack != [] && Pop(cfg, s) == Done(s.(stack := s.stack[..|s.stack| - 1]), ContentsOf(cfg, s, 0, 0))
  {
    ReadGives(cfg, s, 0);
    InvParts(cfg, s);
    hide Inv, Pop;
  }

  // ----- a call and its return -----

  /** What a variable holds once it has been assigned. */
  lemma AssignedHolds(cfg: Config, s: State, number: byte, v: word)
    requires Inv(cfg, s) && CanAssign(cfg, s, number)
    ensures ContentsOf(cfg, Assigned(cfg, s, number, v), number, 0) == v
  {
    InvParts(cfg, s);
    if number >= 16 {
      GlobalPlace(cfg, s, number);
      assert v / 256 * 256 + v % 256 == v;
    }
    hide Inv;
  }

  lemma DepartedFrames(cfg: Config, s: State, v: word)
    requires CanDepart(cfg, s) && s.Top().base <= |s.stack|
    ensures |Departed(cfg, s, v).frames| == |s.frames| - 1
  {
  }

  /** What leaves a routine called from `s1` behind: `s2`, which is what the routine made of
      the machine, with the frames and the stack of the caller and control behind the call. */
  lemma UnwindsTo(cfg: Config, first: State, s1: State, s2: State)
    requires Inv(cfg, s2) && |s2.frames| == |first.frames| == |s1.frames| + 1 && s1.frames == first.Callers()
    requires first.Top().base == |s1.stack| && first.stack == s1.stack
    requires KeptOf(Beneath(s2)) == Guarded(first, |s1.frames|)
    ensures Unwound(s2) == s2.(frames := s1.frames, stack := s1.stack, pc := first.Top().returnPC)
    ensures s2.Top().store == first.Top().store && s2.Top().hasStore == first.Top().hasStore
  {
    InvParts(cfg, s2);
    hide Inv;
    var n := |s1.frames|;
    assert first.frames[..n] == s1.frames && first.frames[n] == first.Top();
    assert s2.Top().base == |s1.stack| && s2.Top().returnPC == first.Top().returnPC;
    assert Taken(first.stack, |s1.stack|) == s1.stack;
    assert s2.Callers() == s1.frames;
  }

  /** A whole call, from the call instruction to the step that leaves its routine with `v`:
      the caller's frames and stack are those the call left, control is behind the call, and
      the variable it named, of whatever kind, holds `v`. Everything else is as the routine
      left it. */
  lemma CallDelivers(cfg: Config, caller: State, inst: Instr, ops: seq<word>, s1: State, trace: seq<State>, back: State, s2: State, v: word)
    requires WholeCall(cfg, caller, trace, back)
    requires Executes(cfg, caller, inst, ops, s1) && inst.raw.op == Opcode(OpVar, 0) && ops != [] && ops[0] != 0
    requires Inv(cfg, s2) && Beneath(s2) == Beneath(trace[|trace| - 1])
    requires CanDepart(cfg, s2) && back == Departed(cfg, s2, v)
    ensures inst.raw.store.Some?
    ensures var caller' := s2.(frames := s1.frames, stack := s1.stack, pc := inst.next);
            back == Assigned(cfg, caller', inst.raw.store.value, v)
    ensures ContentsOf(cfg, back, inst.raw.store.value, 0) == v
  {
    hide Inv, Stepped, History, Decoded, OperandOf, CanTake, Assigned, CanAssign, ContentsOf, FirstLocals;
    var first, last, n := trace[0], trace[|trace| - 1], |caller.frames|;
    CallStep(cfg, caller, inst, ops, s1);
    var store := inst.raw.store.value;
    assert first == InRoutine(s1, ops, store) && s1.frames == caller.frames;
    RunGuards(cfg, trace, n);
    InvParts(cfg, s2);
    DepartedFrames(cfg, s2, v);
    assert |s2.frames| == |last.frames| == n + 1;
    GuardedInside(cfg, last, n);
    hide Beneath, Guarded;
    UnwindsTo(cfg, first, s1, s2);
    hide WholeCall, Executes;
    UnwoundInv(cfg, s2);
    AssignedHolds(cfg, Unwound(s2), store, v);
  }

  lemma UnwoundInv(cfg: Config, s: State)
    requires Inv(cfg, s) && |s.frames| > 1
    ensures Inv(cfg, Unwound(s))
  {
    FramePopped(cfg, s);
    hide Inv;
  }

  lemma ExecutesStays(cfg: Config, s: State, inst: Instr, ops: seq<word>, s1: State)
    requires Executes(cfg, s, inst, ops, s1)
    ensures Inv(cfg, s1) && Beneath(s1) == Beneath(s)
  {
    hide Inv, Decoded, OperandOf, OperandValues, Taking, CanTake;
    OperandsTaken(cfg, s, inst.raw.operands);
    FreeParts(cfg, Taking(s, inst.raw.operands), s1);
  }

  lemma ValueTakenStays(cfg: Config, s: State, op: Opcode)
    requires Inv(cfg, s) && (op == Opcode(Op0, 8) ==> CanRead(s, 0))
    ensures Inv(cfg, ValueTaken(s, op)) && Beneath(ValueTaken(s, op)) == Beneath(s)
  {
    hide Inv, Pop, CanRead, Beneath;
    PopTakes(cfg, s);
  }

  /** The routine ends in rtrue, rfalse, ret or ret_popped: the variable its call named holds
      the value returned. */
  lemma CallReturns(cfg: Config, caller: State, inst: Instr, ops: seq<word>, s1: State, trace: seq<State>, back: State,
                    last: Instr, values: seq<word>, s2: State)
    requires WholeCall(cfg, caller, trace, back)
    requires Executes(cfg, caller, inst, ops, s1) && inst.raw.op == Opcode(OpVar, 0) && ops != [] && ops[0] != 0
    requires Executes(cfg, trace[|trace| - 1], last, values, s2) && Returning(last.raw.op)
    ensures inst.raw.store.Some?
    ensures var v := ReturnValue(cfg, s2, last.raw.op, values);
            && back == Assigned(cfg, s2.(frames := s1.frames, stack := s1.stack, pc := inst.next), inst.raw.store.value, v)
            && ContentsOf(cfg, back, inst.raw.store.value, 0) == v
  {
    hide Inv, Stepped, History, Executes, Deeper, Assigned, ContentsOf, ReturnValue, Departed, CanDepart, Beneath, CanRead;
    ReturnStep(cfg, trace[|trace| - 1], last, values, s2);
    ExecutesStays(cfg, trace[|trace| - 1], last, values, s2);
    ValueTakenStays(cfg, s2, last.raw.op);
    var s3 := ValueTaken(s2, last.raw.op);
    CallDelivers(cfg, caller, inst, ops, s1, trace, back, s3, ReturnValue(cfg, s2, last.raw.op, values));
    assert s3.(frames := s1.frames, stack := s1.stack, pc := inst.next) == s2.(frames := s1.frames, stack := s1.stack, pc := inst.next);
  }

  lemma BeforeStays(cfg: Config, s: State, inst: Instr, ops: seq<word>)
    requires Inv(cfg, s) && Conditional(inst.raw.op) && Possible(cfg, s, inst, ops)
    ensures Inv(cfg, Before(cfg, s, inst, ops)) && Beneath(Before(cfg, s, inst, ops)) == Beneath(s)
  {
    hide Inv, Beneath, Assigned, Replaced, CanAssign, CanRead, Adjusted, VariableWritten, Holds, CanBranch, ObjectExists, ObjectByte;
    var op := inst.raw.op;
    if op.count == Op2 && (op.number == 4 || op.number == 5) {
      StepsVariable(cfg, s, Lo(ops[0]), if op.number == 4 then -1 else 1);
    } else if op.count == Op1 && op.number != 0 {
      WriteAssigns(cfg, s, inst.raw.store.value, ObjectByte(cfg, s, ops[0], if op.number == 1 then 5 else 6));
    }
  }

  /** The routine ends in a branch with offset 0 or 1: the variable holds that. */
  lemma CallBranchesOut(cfg: Config, caller: State, inst: Instr, ops: seq<word>, s1: State, trace: seq<State>, back: State,
                        last: Instr, values: seq<word>, s2: State, b: Branch)
    requires WholeCall(cfg, caller, trace, back)
    requires Executes(cfg, caller, inst, ops, s1) && inst.raw.op == Opcode(OpVar, 0) && ops != [] && ops[0] != 0
    requires Executes(cfg, trace[|trace| - 1], last, values, s2) && Conditional(last.raw.op) && last.raw.branch == Some(b)
    requires Holds(cfg, s2, last.raw.op, values) == b.onTrue && (b.offset == 0 || b.offset == 1)
    ensures inst.raw.store.Some?
    ensures var s3 := Before(cfg, s2, last, values);
            && back == Assigned(cfg, s3.(frames := s1.frames, stack := s1.stack, pc := inst.next), inst.raw.store.value, b.offset)
            && ContentsOf(cfg, back, inst.raw.store.value, 0) == b.offset
  {
    hide Inv, Stepped, History, Executes, Deeper, Assigned, ContentsOf, Holds, Departed, CanDepart, Beneath, Before;
    ConditionalStep(cfg, trace[|trace| - 1], last, values, s2);
    ExecutesStays(cfg, trace[|trace| - 1], last, values, s2);
    BeforeStays(cfg, s2, last, values);
    CallDelivers(cfg, caller, inst, ops, s1, trace, back, Before(cfg, s2, last, values), b.offset);
  }
}
