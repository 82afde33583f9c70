/** The machine itself (machine.go, stack.go, variable.go, routine.go, execute.go, state.go
    and the opcode files): one object whose methods update its fields in place. Each method
    is tied to the function on states that says what it does, and so keeps the invariant. */
module Machines {
  import opened Words
  import opened Memory
  import opened Text
  import opened Opcodes
  import opened Decoder
  import Encoder
  import opened Objects
  import opened Properties
  import Input
  import opened Random
  import opened Output
  import opened States
  import opened Routines
  import opened Instructions
  import opened Execution
  import opened Saved
  import opened Snapshots
  import opened Equivalence

  class Machine {
    const cfg: Config
    const out: OutputStreams
    var mem: Memory
    var pc: nat
    var frames: CallChain
    var stack: seq<word>
    var random: Generator
    var predictable: bool
    var supply: seq<Entropy>
    var status: StatusLine
    var input: Option<Str>
    var started: bool
    var halted: bool

    /** The state the fields make up. */
    function Now(): State
      reads this, mem.dynamic, out
    {
      State(pc, frames, stack, mem.View(), out.screen, random, predictable, supply, status, input, started, halted)
    }

    ghost predicate Valid()
      reads this, mem.dynamic, out
    {
      Inv(cfg, Now())
    }

    /** A machine before its generator is seeded and its header set. */
    constructor (cfg: Config, supply: seq<Entropy>)
      requires cfg.Valid()
      ensures this.cfg == cfg && Valid() && Now() == Unseeded(cfg, supply)
      ensures fresh(out) && fresh(mem) && fresh(mem.dynamic)
    {
      this.cfg := cfg;
      out := new OutputStreams();
      mem := new Memory(cfg.story);
      pc := cfg.story.initialPC;
      frames := [BaseFrame(cfg.story)];
      stack := [];
      random := Blank(cfg.lib, cfg.kind);
      predictable := false;
      this.supply := supply;
      status := NO_STATUS;
      input := None;
      started := false;
      halted := false;
      new;
      hide Inv;
    }

    // ----- the evaluation stack (stack.go) -----

    method Push(v: word) returns (r: Result<()>)
      requires Valid()
      modifies `stack
      ensures Lift(Now(), r) == States.Push(cfg, old(Now()), v)
    {
      hide Inv;
      if |stack| >= cfg.maxStack {
        return Err(ExecutionFault);
      }
      stack := stack + [v];
      return Ok(());
    }

    method Pop() returns (r: Result<word>)
      requires Valid()
      modifies `stack
      ensures Lift(Now(), r) == States.Pop(cfg, old(Now()))
    {
      InvParts(cfg, Now());
      hide Inv;
      if Depth(Now()) <= 0 {
        return Err(ExecutionFault);
      }
      var v := stack[|stack| - 1];
      stack := stack[..|stack| - 1];
      return Ok(v);
    }

    method Peek() returns (r: Result<word>)
      requires Valid()
      ensures r == States.Peek(cfg, Now())
    {
      InvParts(cfg, Now());
      hide Inv;
      if Depth(Now()) <= 0 {
        return Err(ExecutionFault);
      }
      return Ok(stack[|stack| - 1]);
    }

    method ReplaceTop(v: word) returns (r: Result<()>)
      requires Valid()
      modifies `stack
      ensures Lift(Now(), r) == TopReplaced(cfg, old(Now()), v)
    {
      InvParts(cfg, Now());
      hide Inv;
      if Depth(Now()) <= 0 {
        return Err(ExecutionFault);
      }
      stack := stack[|stack| - 1 := v];
      return Ok(());
    }

    // ----- variables (variable.go) -----

    method WriteLocal(number: byte, v: word) returns (r: Result<()>)
      requires Valid()
      modifies `frames
      ensures Lift(Now(), r) == LocalWritten(cfg, old(Now()), number, v)
    {
      InvParts(cfg, Now());
      hide Inv;
      var n := |frames| - 1;
      var top := frames[n];
      if number < 1 || number > top.numLocals {
        return Err(ExecutionFault);
      }
      frames := frames[n := top.(locals := top.locals[number - 1 := v])];
      return Ok(());
    }

    method WriteGlobal(number: byte, v: word) returns (r: Result<()>)
      requires Valid()
      modifies mem.dynamic
      ensures Lift(Now(), r) == GlobalWritten(cfg, old(Now()), number, v)
    {
      hide Inv, Mem.WriteWord;
      if number < GLOBAL_FIRST {
        return Err(ExecutionFault);
      }
      r := mem.WriteWord(GlobalAddress(cfg, number), v);
    }

    method ReadVariable(number: byte) returns (r: Result<word>)
      requires Valid()
      modifies `stack
      ensures Lift(Now(), r) == VariableRead(cfg, old(Now()), number)
    {
      hide Inv, Mem.ReadWord, States.Pop, LocalRead;
      if number == VARIABLE_STACK {
        r := Pop();
      } else if number <= LOCAL_LAST {
        r := LocalRead(cfg, Now(), number);
      } else {
        r := GlobalRead(cfg, Now(), number);
      }
    }

    method WriteVariable(number: byte, v: word) returns (r: Result<()>)
      requires Valid()
      modifies `stack, `frames, mem.dynamic
      ensures Lift(Now(), r) == VariableWritten(cfg, old(Now()), number, v)
    {
      hide Inv, GlobalWritten, LocalWritten, States.Push;
      if number == VARIABLE_STACK {
        r := Push(v);
      } else if number <= LOCAL_LAST {
        r := WriteLocal(number, v);
      } else {
        r := WriteGlobal(number, v);
      }
    }

    method ReadVariableIndirect(number: byte) returns (r: Result<word>)
      requires Valid()
      modifies `stack
      ensures Lift(Now(), r) == IndirectRead(cfg, old(Now()), number)
    {
      hide Inv, States.Peek, VariableRead;
      if number == VARIABLE_STACK {
        r := Peek();
      } else {
        r := ReadVariable(number);
      }
    }

    method WriteVariableIndirect(number: byte, v: word) returns (r: Result<()>)
      requires Valid()
      modifies `stack, `frames, mem.dynamic
      ensures Lift(Now(), r) == IndirectWritten(cfg, old(Now()), number, v)
    {
      hide Inv, TopReplaced, VariableWritten;
      if number == VARIABLE_STACK {
        r := ReplaceTop(v);
      } else {
        r := WriteVariable(number, v);
      }
    }

    // ----- routines (routine.go) -----

    method CallRoutine(packed: word, args: seq<word>, returnPC: nat, store: byte, hasStore: bool) returns (r: Result<()>)
      requires Valid() && |args| <= MAX_ARGUMENTS && returnPC <= |cfg.story.image|
      modifies `stack, `frames, `pc, mem.dynamic
      ensures Lift(Now(), r) == Called(cfg, old(Now()), packed, args, returnPC, store, hasStore)
    {
      hide Inv, VariableWritten, Mem.ReadByte;
      if packed == 0 {
        if hasStore {
          r := WriteVariable(store, 0);
        } else {
          r := Ok(());
        }
        return;
      }
      if |frames| >= cfg.maxDepth {
        return Err(ExecutionFault);
      }
      var addr := UnpackAddress(packed);
      var count :- mem.View().ReadByte(addr);
      if count > MAX_LOCALS {
        return Err(ExecutionFault);
      }
      var locals :- ReadLocals(mem.View(), addr + 1, count, args);
      frames := frames + [Frame(returnPC, locals, count, |args|, |stack|, store, hasStore)];
      pc := addr + 1 + count * WORD_SIZE;
      return Ok(());
    }

    // ----- branch and return (execute.go, routine.go) -----

    method ReturnFromRoutine(v: word) returns (r: Result<()>)
      requires Valid()
      modifies `stack, `frames, `pc, mem.dynamic
      ensures Lift(Now(), r) == Returned(cfg, old(Now()), v)
    {
      hide VariableWritten, Chain, ScreenOk, Beneath;
      if |frames| <= 1 {
        return Err(ExecutionFault);
      }
      FramePopped(cfg, Now());
      var f := frames[|frames| - 1];
      frames, stack, pc := frames[..|frames| - 1], stack[..f.base], f.returnPC;
      assert Now() == Popped(old(Now()));
      hide Inv;
      if f.hasStore {
        r := WriteVariable(f.store, v);
      } else {
        r := Ok(());
      }
    }

    method Branch(inst: Instr, condition: bool) returns (r: Result<Control>)
      requires Valid()
      modifies `stack, `frames, `pc, mem.dynamic
      ensures Lift(Now(), r) == Branched(cfg, old(Now()), inst, condition)
    {
      hide Inv, Returned, OffsetAddress;
      if inst.raw.branch.None? {
        return Err(ExecutionFault);
      }
      var branch := inst.raw.branch.value;
      if condition != branch.onTrue {
        return Ok(Continue);
      }
      if branch.Returns().Some? {
        r := Return(branch.Returns().value);
        return;
      }
      var target :- branch.Target(inst.next);
      pc := target;
      return Ok(Continue);
    }

    method Return(v: word) returns (r: Result<Control>)
      requires Valid()
      modifies `stack, `frames, `pc, mem.dynamic
      ensures Lift(Now(), r) == Returning(cfg, old(Now()), v)
    {
      hide Inv, Returned;
      var _ :- ReturnFromRoutine(v);
      return Ok(Continue);
    }

    method Store(inst: Instr, v: word) returns (r: Result<Control>)
      requires Valid()
      modifies `stack, `frames, mem.dynamic
      ensures Lift(Now(), r) == Instructions.Stored(cfg, old(Now()), inst, v)
    {
      hide Inv, VariableWritten;
      if inst.raw.store.None? {
        return Err(ExecutionFault);
      }
      var _ :- WriteVariable(inst.raw.store.value, v);
      return Ok(Continue);
    }

    // ----- status line, generator and restart (machine.go) -----

    method UpdateStatusLine() returns (r: Result<()>)
      requires Valid()
      modifies `status
      ensures Lift(Now(), r) == StatusUpdated(cfg, old(Now()))
    {
      hide Inv, Mem.ReadWord, ShortName;
      var item :- GlobalRead(cfg, Now(), GLOBAL_FIRST);
      var second :- GlobalRead(cfg, Now(), GLOBAL_FIRST + 1);
      var third :- GlobalRead(cfg, Now(), GLOBAL_FIRST + 2);
      var name := ObjectShortName(mem.View(), cfg.story.abbreviations, cfg.story.objectTable, item);
      var shown := if name.Ok? then name.value else [];
      if Bit(cfg.story.flags1, 1) {
        status := StatusLine(true, item, shown, true, 0, 0, Lo(second), Lo(third));
      } else {
        status := StatusLine(true, item, shown, false, Signed(second), Signed(third), 0, 0);
      }
      return Ok(());
    }

    method SetRandomSeed(seed: nat)
      requires Valid()
      modifies `random, `predictable, `supply
      ensures Now() == RandomSeeded(cfg, old(Now()), seed)
    {
      InvParts(cfg, Now());
      hide Inv, Seeded;
      var asks := random.Frotz? && seed == 0;
      random := Seeded(cfg.lib, random, seed, NextEntropy(Now()));
      predictable := true;
      if asks {
        supply := LeftOver(Now());
      }
    }

    method ReseedRandom() returns (r: Result<()>)
      requires Valid()
      modifies `random, `predictable, `supply
      ensures Lift(Now(), r) == RandomReseeded(cfg, old(Now()))
    {
      InvParts(cfg, Now());
      hide Inv, Reseeded;
      var read := NextEntropy(Now());
      supply := LeftOver(Now());
      if read.None? {
        return Err(NoEntropy);
      }
      random := Reseeded(cfg.lib, random.Kind(), read.value);
      predictable := false;
      return Ok(());
    }

    method SeedRandom() returns (r: Result<()>)
      requires Valid()
      modifies `random, `predictable, `supply
      ensures Lift(Now(), r) == RandomStarted(cfg, old(Now()))
    {
      hide Inv, RandomSeeded, RandomReseeded;
      if cfg.hasSeed {
        SetRandomSeed(cfg.seed);
        r := Ok(());
      } else {
        r := ReseedRandom();
      }
    }

    /** The fields of a story that has just begun; the generator is left as it is. */
    method BeginAgain()
      requires Valid()
      modifies this, out
      ensures cfg.Valid() && old(random.Valid(cfg.lib)) && Now() == StartOver(cfg, old(Now()))
      ensures Valid() && fresh(mem.dynamic)
    {
      InvParts(cfg, Now());
      hide Inv, Mem.Get;
      mem := new Memory(cfg.story);
      pc := cfg.story.initialPC;
      frames := [BaseFrame(cfg.story)];
      stack := [];
      status := NO_STATUS;
      out.Init();
    }

    method Restart() returns (r: Result<Control>)
      requires Valid()
      modifies this, out
      ensures Lift(Now(), r) == Restarted(cfg, old(Now()))
      ensures mem == old(mem) || fresh(mem.dynamic)
    {
      hide Inv, Mem.ReadWord, RestartMemory, RandomStarted, StartOver, Beneath, Follows;
      InvParts(cfg, Now());
      var flags2 :- mem.View().ReadWord(HDR_FLAGS2);
      BeginAgain();
      ghost var begun := Now();
      var _ :- SetRestartHeader(mem, Surviving(flags2));
      MemParts(cfg, begun, mem.View());
      assert Now() == begun.(mem := mem.View());
      var _ :- SeedRandom();
      return Ok(Continue);
    }

    // ----- instructions without operands (opcode_0op.go) -----

    method PrintText(text: Str) returns (r: Result<Control>)
      requires Valid()
      modifies out, mem.dynamic
      ensures Lift(Now(), r) == Printing(cfg, old(Now()), text)
    {
      hide Inv, TextPrinted;
      var _ :- out.PrintText(mem, text);
      return Ok(Continue);
    }

    method PrintZscii(code: word) returns (r: Result<Control>)
      requires Valid()
      modifies out, mem.dynamic
      ensures Lift(Now(), r) == PrintingCode(cfg, old(Now()), code)
    {
      hide Inv, CodePrinted;
      var _ :- out.PrintZscii(mem, code);
      return Ok(Continue);
    }

    method Execute0(inst: Instr) returns (r: Result<Control>)
      requires Valid()
      modifies this, out, mem.dynamic
      ensures Lift(Now(), r) == Executed0(cfg, old(Now()), inst)
      ensures mem == old(mem) || fresh(mem.dynamic)
    {
      hide Inv, Returning, Branched, StatusUpdated, Restarted, States.Pop, Printing, PrintingCode;
      var op := inst.raw.op;
      if op == RTRUE {
        r := Return(1);
      } else if op == RFALSE {
        r := Return(0);
      } else if op == PRINT {
        r := PrintText(inst.text);
      } else if op == PRINT_RET {
        var _ :- PrintText(inst.text);
        var _ :- PrintZscii(ZSCII_NEWLINE);
        r := Return(1);
      } else if op == NOP {
        r := Ok(Continue);
      } else if op == SAVE || op == RESTORE {
        r := Branch(inst, false);
      } else if op == RESTART {
        r := Restart();
      } else if op == RET_POPPED {
        var v :- Pop();
        r := Return(v);
      } else if op == POP {
        var _ :- Pop();
        r := Ok(Continue);
      } else if op == QUIT {
        r := Ok(Halt);
      } else if op == NEW_LINE {
        r := PrintZscii(ZSCII_NEWLINE);
      } else if op == SHOW_STATUS {
        var _ :- UpdateStatusLine();
        r := Ok(Continue);
      } else if op == VERIFY {
        r := Branch(inst, cfg.story.computed == cfg.story.checksum);
      } else {
        r := Err(InvalidOpcode);
      }
    }

    // ----- one operand (opcode_1op.go) -----

    method AdjustVariable(number: byte, delta: int) returns (r: Result<int>)
      requires Valid()
      modifies `stack, `frames, mem.dynamic
      ensures Lift(Now(), r) == Adjusted(cfg, old(Now()), number, delta)
    {
      hide Inv, IndirectRead, IndirectWritten;
      var value :- ReadVariableIndirect(number);
      var updated := Unsigned(Signed(value) + delta);
      var _ :- WriteVariableIndirect(number, updated);
      return Ok(Signed(updated));
    }

    method StoreRelative(inst: Instr, number: word, field: nat) returns (r: Result<Control>)
      requires Valid() && field < ENTRY_SIZE
      modifies `stack, `frames, `pc, mem.dynamic
      ensures Lift(Now(), r) == RelativeStored(cfg, old(Now()), inst, number, field)
    {
      hide Inv, Branched, Instructions.Stored, ObjectRelative;
      var relative: word := 0;
      if number != 0 {
        relative :- ObjectRelative(mem.View(), cfg.story.objectTable, number, field);
      }
      var _ :- Store(inst, relative);
      r := Branch(inst, relative != 0);
    }

    method PrintAt(addr: nat) returns (r: Result<Control>)
      requires Valid()
      modifies out, mem.dynamic
      ensures Lift(Now(), r) == TextAt(cfg, old(Now()), addr)
    {
      hide Inv, Printing, StringAt;
      var text :- DecodeStringAt(mem.View(), cfg.story.abbreviations, addr);
      r := PrintText(text);
    }

    method StoreResult(inst: Instr, v: Result<word>) returns (r: Result<Control>)
      requires Valid()
      modifies `stack, `frames, mem.dynamic
      ensures Lift(Now(), r) == StoredResult(cfg, old(Now()), inst, v)
    {
      hide Inv, Instructions.Stored;
      var value :- v;
      r := Store(inst, value);
    }

    method ExecuteObject1(inst: Instr, a: word) returns (r: Result<Control>)
      requires Valid()
      modifies this, out, mem.dynamic
      ensures Lift(Now(), r) == Object1(cfg, old(Now()), inst, a)
      ensures mem == old(mem)
    {
      hide Inv, RelativeStored, StoredResult, Printing, ShortName, Properties.Length, Removed, ObjectRelative;
      var op, table := inst.raw.op, cfg.story.objectTable;
      if op == GET_SIBLING {
        r := StoreRelative(inst, a, SIBLING);
      } else if op == GET_CHILD {
        r := StoreRelative(inst, a, CHILD);
      } else if op == GET_PARENT {
        r := StoreResult(inst, if a == 0 then Ok(0) else ObjectRelative(mem.View(), table, a, PARENT));
      } else if op == GET_PROP_LEN {
        r := StoreResult(inst, Properties.Length(mem.View(), a));
      } else if op == REMOVE_OBJ {
        if a == 0 {
          return Ok(Continue);
        }
        var _ :- RemoveObject(mem, table, a);
        r := Ok(Continue);
      } else if op == PRINT_OBJ {
        if a == 0 {
          return Ok(Continue);
        }
        var name :- ObjectShortName(mem.View(), cfg.story.abbreviations, table, a);
        r := PrintText(name);
      } else {
        r := Err(InvalidOpcode);
      }
    }

    method Execute1(inst: Instr, ops: seq<word>) returns (r: Result<Control>)
      requires Valid()
      modifies this, out, mem.dynamic
      ensures Lift(Now(), r) == Executed1(cfg, old(Now()), inst, ops)
      ensures mem == old(mem)
    {
      hide Inv, Returning, Branched, Adjusted, TextAt, IndirectRead, Instructions.Stored, Object1, OffsetAddress;
      if |ops| != 1 {
        return Err(ExecutionFault);
      }
      var op, a := inst.raw.op, ops[0];
      if op == JZ {
        r := Branch(inst, a == 0);
      } else if op == INC || op == DEC {
        var _ :- AdjustVariable(Lo(a), if op == INC then 1 else -1);
        r := Ok(Continue);
      } else if op == PRINT_ADDR {
        r := PrintAt(a);
      } else if op == RET {
        r := Return(a);
      } else if op == JUMP {
        var target :- OffsetAddress(inst.next, Signed(a) - BRANCH_BIAS);
        pc := target;
        r := Ok(Continue);
      } else if op == PRINT_PADDR {
        r := PrintAt(UnpackAddress(a));
      } else if op == LOAD {
        var v :- ReadVariableIndirect(Lo(a));
        r := Store(inst, v);
      } else if op == NOT {
        r := Store(inst, BitNot(a));
      } else {
        r := ExecuteObject1(inst, a);
      }
    }

    // ----- two operands (opcode_2op.go) -----

    method ExecuteJe(inst: Instr, ops: seq<word>) returns (r: Result<Control>)
      requires Valid() && |ops| >= 2
      modifies `stack, `frames, `pc, mem.dynamic
      ensures Lift(Now(), r) == Branched(cfg, old(Now()), inst, ops[0] in ops[1..])
    {
      hide Inv, Branched;
      var equal := false;
      for i := 1 to |ops|
        invariant !equal && ops[0] !in ops[1..i]
      {
        if ops[i] == ops[0] {
          equal := true;
          break;
        }
      }
      assert equal == (ops[0] in ops[1..]);
      r := Branch(inst, equal);
    }

    method ExecuteObject2(inst: Instr, a: word, b: word) returns (r: Result<Control>)
      requires Valid()
      modifies `stack, `frames, `pc, mem.dynamic
      ensures Lift(Now(), r) == Object2(cfg, old(Now()), inst, a, b)
    {
      hide Inv, Branched, StoredResult, AttributeSet, Inserted, Properties.Value, DataAddress, NextNumber, ObjectAttribute, ObjectRelative;
      var op, table := inst.raw.op, cfg.story.objectTable;
      if op == JIN {
        if a == 0 {
          r := Branch(inst, b == 0);
          return;
        }
        var parent :- ObjectRelative(mem.View(), table, a, PARENT);
        r := Branch(inst, parent == b);
      } else if op == TEST_ATTR {
        if a == 0 {
          r := Branch(inst, false);
          return;
        }
        var on :- ObjectAttribute(mem.View(), table, a, b);
        r := Branch(inst, on);
      } else if op == SET_ATTR || op == CLEAR_ATTR {
        if a == 0 {
          return Ok(Continue);
        }
        var _ :- SetObjectAttribute(mem, table, a, b, op == SET_ATTR);
        r := Ok(Continue);
      } else if op == INSERT_OBJ {
        if a == 0 || b == 0 {
          return Ok(Continue);
        }
        var _ :- InsertObject(mem, table, a, b);
        r := Ok(Continue);
      } else if op == GET_PROP {
        var v: Result<word> := Ok(0);
        if a != 0 {
          v := PropertyValue(mem.View(), table, a, b);
        }
        r := StoreResult(inst, v);
      } else if op == GET_PROP_ADDR {
        var v: Result<word> := Ok(0);
        if a != 0 {
          v := PropertyAddress(mem.View(), table, a, b);
        }
        r := StoreResult(inst, v);
      } else if op == GET_NEXT_PROP {
        var v: Result<word> := Ok(0);
        if a != 0 {
          v := NextPropertyNumber(mem.View(), table, a, b);
        }
        r := StoreResult(inst, v);
      } else {
        r := Err(InvalidOpcode);
      }
    }

    method Execute2(inst: Instr, ops: seq<word>) returns (r: Result<Control>)
      requires Valid()
      modifies `stack, `frames, `pc, mem.dynamic
      ensures Lift(Now(), r) == Executed2(cfg, old(Now()), inst, ops)
    {
      hide Inv, Branched, Adjusted, StoredResult, IndirectWritten, Computed, Loaded, Object2, BitAnd;
      var op := inst.raw.op;
      if op == JE {
        if |ops| < 2 {
          return Err(ExecutionFault);
        }
        r := ExecuteJe(inst, ops);
        return;
      }
      if |ops| != 2 {
        return Err(ExecutionFault);
      }
      var a, b := ops[0], ops[1];
      if op == JL {
        r := Branch(inst, Signed(a) < Signed(b));
      } else if op == JG {
        r := Branch(inst, Signed(a) > Signed(b));
      } else if op == DEC_CHK {
        var v :- AdjustVariable(Lo(a), -1);
        r := Branch(inst, v < Signed(b));
      } else if op == INC_CHK {
        var v :- AdjustVariable(Lo(a), 1);
        r := Branch(inst, v > Signed(b));
      } else if op == TEST {
        r := Branch(inst, BitAnd(a, b) == b);
      } else if op == STORE {
        var _ :- WriteVariableIndirect(Lo(a), b);
        r := Ok(Continue);
      } else if op == LOADW || op == LOADB {
        r := StoreResult(inst, Loaded(mem.View(), op, a, b));
      } else {
        var computed := Computed(op, a, b);
        if computed.Some? {
          r := StoreResult(inst, computed.value);
        } else {
          r := ExecuteObject2(inst, a, b);
        }
      }
    }

    // ----- any number of operands (opcode_var.go, input.go) -----

    /** randomInRange. */
    method DrawRandom(range: nat) returns (v: word)
      requires Valid() && 1 <= range < 0x8000
      modifies `random
      ensures random.Valid(cfg.lib) && old(random.Valid(cfg.lib) && cfg.lib.Lawful())
      ensures (random, v) == Drawn(cfg.lib, old(random), range)
    {
      InvParts(cfg, Now());
      hide Inv, Drawn;
      var drawn := Drawn(cfg.lib, random, range);
      random := drawn.0;
      return drawn.1;
    }

    method ExecuteRandom(inst: Instr, range: int) returns (r: Result<Control>)
      requires Valid() && -0x8000 <= range < 0x8000
      modifies `random, `predictable, `supply, `stack, `frames, mem.dynamic
      ensures Lift(Now(), r) == Randomised(cfg, old(Now()), inst, range)
    {
      hide Inv, Beneath, Instructions.Stored, Drawn, RandomSeeded, RandomReseeded;
      if range > 0 {
        var v := DrawRandom(range);
        RandomParts(cfg, old(Now()), random, predictable, supply);
        r := Store(inst, v);
      } else if range < 0 {
        SetRandomSeed(-range);
        r := Store(inst, 0);
      } else {
        var _ :- ReseedRandom();
        r := Store(inst, 0);
      }
    }

    method ExecuteOutputStream(ops: seq<word>) returns (r: Result<Control>)
      requires Valid()
      modifies out, mem.dynamic
      ensures Lift(Now(), r) == StreamChosen(cfg, old(Now()), ops)
    {
      assert out.screen.window <= WINDOW_UPPER;
      hide Inv, StreamSelected, StreamDeselected, TranscriptCleared;
      if |ops| < 1 || |ops| > 2 {
        return Err(ExecutionFault);
      }
      var number := Signed(ops[0]);
      if number == STREAM_SCREEN {
        out.screen := out.screen.(stream1 := true);
      } else if number == -STREAM_SCREEN {
        out.screen := out.screen.(stream1 := false);
      } else if number == STREAM_TRANSCRIPT || number == -STREAM_TRANSCRIPT {
        var _ :- ClearTranscriptFlag(mem);
      } else if number == STREAM_MEMORY {
        if |ops| < 2 {
          return Err(ExecutionFault);
        }
        var _ :- out.SelectMemoryStream(mem, ops[1]);
      } else if number == -STREAM_MEMORY {
        var _ :- out.DeselectMemoryStream(mem);
      }
      r := Ok(Continue);
    }

    method ExecuteSRead(ops: seq<word>) returns (r: Result<Control>)
      requires Valid()
      modifies `status, `input, mem.dynamic
      ensures Lift(Now(), r) == LineTaken(cfg, old(Now()), ops)
    {
      if |ops| != 2 {
        return Err(ExecutionFault);
      }
      hide Inv, StatusUpdated, LineRead;
      var _ :- UpdateStatusLine();
      r := ReadLine(ops[0], ops[1]);
    }

    method ReadLine(text: word, parse: word) returns (r: Result<Control>)
      requires Valid()
      modifies `input, mem.dynamic
      ensures Lift(Now(), r) == LineRead(cfg, old(Now()), text, parse)
    {
      hide Inv, Input.LineStored, Input.Tokenised;
      var line := if input.Some? then input.value else [];
      input := None;
      var stored :- Input.StoreInputLine(mem, text, line, cfg.lib.lower);
      var _ :- Input.TokeniseInput(mem, cfg.story.dictionary, parse, stored);
      r := Ok(Continue);
    }

    method StoreInArray(op: Opcode, base: word, index: word, v: word) returns (r: Result<Control>)
      requires Valid()
      modifies mem.dynamic
      ensures Lift(Now(), r) == Changing(cfg, old(Now()), if op == STOREW then WordStored(old(mem.View()), base, index, v)
                                                          else ByteStored(old(mem.View()), base, index, v))
    {
      hide Inv, Mem.WriteWord, Mem.WriteByte, ArrayAddress;
      if op == STOREW {
        var addr :- ArrayAddress(base, index, WORD_SIZE);
        var _ :- mem.WriteWord(addr, v);
      } else {
        var addr :- ArrayAddress(base, index, 1);
        var _ :- mem.WriteByte(addr, Lo(v));
      }
      r := Ok(Continue);
    }

    method ExecutePull(number: byte) returns (r: Result<Control>)
      requires Valid()
      modifies `stack, `frames, mem.dynamic
      ensures Lift(Now(), r) == Pulled(cfg, old(Now()), number)
    {
      hide Inv, States.Pop, IndirectWritten;
      var v :- Pop();
      var _ :- WriteVariableIndirect(number, v);
      r := Ok(Continue);
    }

    method ExecutePlain(inst: Instr, ops: seq<word>) returns (r: Result<Control>)
      requires Valid()
      modifies this, out, mem.dynamic
      ensures Lift(Now(), r) == PlainVar(cfg, old(Now()), inst, ops)
      ensures mem == old(mem)
    {
      assert out.screen.window <= WINDOW_UPPER;
      hide Inv, PrintingCode, Printing, States.Push, Pulled, Randomised, Decimal, Properties.Stored, WordStored, ByteStored;
      var op := inst.raw.op;
      if op == SOUND_EFFECT {
        return Ok(Continue);
      }
      if op == STOREW || op == STOREB || op == PUT_PROP {
        if |ops| != 3 {
          return Err(ExecutionFault);
        }
        if op != PUT_PROP {
          r := StoreInArray(op, ops[0], ops[1], ops[2]);
          return;
        }
        if ops[0] == 0 {
          return Ok(Continue);
        }
        var _ :- PutProperty(mem, cfg.story.objectTable, ops[0], ops[1], ops[2]);
        return Ok(Continue);
      }
      if op !in {PRINT_CHAR, PRINT_NUM, RANDOM, PUSH, PULL, SPLIT_WINDOW, SET_WINDOW, INPUT_STREAM} {
        return Err(InvalidOpcode);
      }
      if |ops| != 1 {
        return Err(ExecutionFault);
      }
      if op == PRINT_CHAR {
        r := PrintZscii(ops[0]);
      } else if op == PRINT_NUM {
        r := PrintText(Decimal(Signed(ops[0])));
      } else if op == RANDOM {
        r := ExecuteRandom(inst, Signed(ops[0]));
      } else if op == PUSH {
        var _ :- Push(ops[0]);
        r := Ok(Continue);
      } else if op == PULL {
        r := ExecutePull(Lo(ops[0]));
      } else if op == SPLIT_WINDOW {
        out.screen := ScreenSplit(out.screen, ops[0]);
        r := Ok(Continue);
      } else if op == SET_WINDOW {
        var screen :- WindowSet(out.screen, ops[0]);
        out.screen := screen;
        r := Ok(Continue);
      } else {
        r := Ok(Continue);
      }
    }

    method ExecuteVar(inst: Instr, ops: seq<word>) returns (r: Result<Control>)
      requires Valid() && pc <= |cfg.story.image| && |ops| <= MAX_OPERANDS
      modifies this, out, mem.dynamic
      ensures Lift(Now(), r) == ExecutedVar(cfg, old(Now()), inst, ops)
      ensures mem == old(mem)
    {
      hide Inv, Called, StreamChosen, LineTaken, PlainVar;
      var op := inst.raw.op;
      if op == CALL {
        if |ops| < 1 {
          return Err(ExecutionFault);
        }
        var store := if inst.raw.store.Some? then inst.raw.store.value else 0;
        var _ :- CallRoutine(ops[0], ops[1..], pc, store, inst.raw.store.Some?);
        r := Ok(Continue);
      } else if op == OUTPUT_STREAM {
        r := ExecuteOutputStream(ops);
      } else if op == SREAD {
        r := ExecuteSRead(ops);
      } else {
        r := ExecutePlain(inst, ops);
      }
    }

    // ----- the execution loop (execute.go) -----

    method EvaluateOperands(operands: seq<Operand>) returns (r: Result<seq<word>>)
      requires Valid()
      modifies `stack
      ensures Lift(Now(), r) == OperandValues(cfg, old(Now()), operands)
    {
      hide Inv, VariableRead;
      var values: seq<word> := [];
      NothingBefore(OperandValues(cfg, Now(), operands));
      assert operands[0..] == operands;
      for i := 0 to |operands|
        invariant Valid()
        invariant OperandValues(cfg, old(Now()), operands) == Before(values, OperandValues(cfg, Now(), operands[i..]))
      {
        assert operands[i..][0] == operands[i] && operands[i..][1..] == operands[i + 1..];
        var value := operands[i].value;
        ghost var was := Now();
        if operands[i].kind == VariableNumber {
          value :- ReadVariable(Lo(operands[i].value));
        }
        MoreBefore(values, value, OperandValues(cfg, Now(), operands[i + 1..]));
        values := values + [value];
      }
      assert operands[|operands|..] == [] && values + [] == values;
      return Ok(values);
    }

    method Execute(inst: Instr) returns (r: Result<Control>)
      requires Valid() && pc <= |cfg.story.image| && |inst.raw.operands| <= MAX_OPERANDS
      modifies this, out, mem.dynamic
      ensures Lift(Now(), r) == Executed(cfg, old(Now()), inst)
      ensures mem == old(mem) || fresh(mem.dynamic)
    {
      hide Inv, Executed0, Executed1, Executed2, ExecutedVar, StatusUpdated, OperandValues;
      if inst.raw.op == SREAD && input.None? {
        var _ :- UpdateStatusLine();
        return Ok(Suspend);
      }
      OperandsKeepPc(cfg, Now(), inst.raw.operands);
      var ops :- EvaluateOperands(inst.raw.operands);
      match inst.raw.op.count
      case Op0 => r := Execute0(inst);
      case Op1 => r := Execute1(inst, ops);
      case Op2 => r := Execute2(inst, ops);
      case OpVar => r := ExecuteVar(inst, ops);
    }

    method Step() returns (r: Result<Control>)
      requires Valid()
      modifies this, out, mem.dynamic
      ensures Lift(Now(), r) == Stepped(cfg, old(Now()))
      ensures mem == old(mem) || fresh(mem.dynamic)
    {
      hide Inv, Decoded, Executed, Stepped, Follows, Beneath, Chain, ScreenOk;
      InvParts(cfg, Now());
      var decoded := DecodeInstruction(mem.View(), cfg.story.abbreviations, pc);
      if decoded.Err? {
        StepUndecoded(cfg, Now(), decoded.error);
        return Err(decoded.error);
      }
      var inst := decoded.value;
      StepExecutes(cfg, Now(), inst);
      var at := pc;
      pc := inst.next;
      assert Now() == Jumped(cfg, old(Now()), inst.next);
      var control :- Execute(inst);
      if control == Halt {
        halted := true;
      } else if control == Suspend {
        pc := at;
      }
      return Ok(control);
    }

    method Loop() returns (r: Result<Control>)
      requires Valid()
      modifies this, out, mem.dynamic
      ensures Lift(Now(), r) == Ran(cfg, old(Now()))
    {
      hide Inv, Stepped;
      out.BeginInvocation();
      ClearedParts(cfg, old(Now()), Now());
      ghost var start := Now();
      var executed: nat := 0;
      while true
        invariant executed <= cfg.limit && Valid()
        invariant Looped(cfg, start, 0) == Looped(cfg, Now(), executed)
        invariant mem == old(mem) || fresh(mem.dynamic)
        decreases cfg.limit - executed
      {
        if executed >= cfg.limit {
          return Err(ExecutionLimit);
        }
        executed := executed + 1;
        var control :- Step();
        if control != Continue {
          return Ok(control);
        }
      }
    }

    // ----- snapshots (state.go) -----

    method TakeSnapshot() returns (r: Result<Save>)
      requires Valid()
      ensures r == Snapshot(cfg, Now())
    {
      hide Inv, SavedFrames, Marshalled, TablesData;
      var saved :- SaveFrames(frames, stack);
      InvParts(cfg, Now());
      var random := Chunk(RandomId, RandomData(cfg, Now()));
      var tables := EncodeTables(out.screen.tables);
      var screen := Chunk(ScreenId, [CHUNK_VERSION, out.screen.window, if out.screen.stream1 then 1 else 0,
                                     Hi(out.screen.upperHeight), Lo(out.screen.upperHeight)] + tables);
      return Ok(Save(IdentityOf(cfg.story), pc, mem.dynamic[..], saved, [random, screen]));
    }

    method Report(control: Control) returns (r: Result<Outcome>)
      requires Valid()
      ensures r == Reported(cfg, Done(Now(), control))
    {
      hide Inv, Snapshot;
      if control == Halt {
        return Ok(Halted(out.screen.lower, out.screen.upper, status));
      }
      var save :- TakeSnapshot();
      return Ok(Waiting(out.screen.lower, out.screen.upper, status, save));
    }

    /** Start. */
    method Start(supply: seq<Entropy>) returns (r: Result<Outcome>)
      requires Valid()
      modifies this, out, mem.dynamic
      ensures var run := StartRun(cfg, old(Now()), supply);
              Now() == run.state && r == Reported(cfg, run)
    {
      hide Inv, Ran, Snapshot;
      if halted || started {
        return Err(ExecutionFault);
      }
      started, input, this.supply := true, None, supply;
      FlagParts(cfg, old(Now()), Now());
      var control :- Loop();
      r := Report(control);
    }

    /** Run. */
    method Run(line: Str, supply: seq<Entropy>) returns (r: Result<Outcome>)
      requires Valid()
      modifies this, out, mem.dynamic
      ensures var run := TurnRun(cfg, old(Now()), line, supply);
              Now() == run.state && r == Reported(cfg, run)
    {
      hide Inv, Ran, Snapshot;
      if halted {
        return Err(ExecutionFault);
      }
      started, input, this.supply := true, Some(line), supply;
      FlagParts(cfg, old(Now()), Now());
      var control :- Loop();
      r := Report(control);
    }

    method RestoreRandom(chunks: seq<Chunk>) returns (r: Reply<()>)
      requires Valid()
      modifies `random, `predictable, `supply
      ensures Restoring(Now(), r) == RandomRestored(cfg, old(Now()), chunks)
    {
      hide Inv, RandomStarted, Unmarshalled, FindChunk;
      var found := FindChunk(chunks, RandomId);
      if found.None? || |found.value| < 3 || found.value[0] != CHUNK_VERSION {
        var seeded := SeedRandom();
        return if seeded.Ok? then Accepted(()) else Rejected(Running(seeded.error));
      }
      var data := found.value;
      if |data| - 3 > MAX_RANDOM_STATE {
        return Rejected(InvalidState);
      }
      var g := Unmarshalled(cfg.lib, data[2], data[3..]);
      if g.None? {
        return Rejected(InvalidState);
      }
      random, predictable := g.value, data[1] % 2 == 1;
      return Accepted(());
    }

    method RestoreScreen(chunks: seq<Chunk>)
      requires Valid()
      modifies out
      ensures Now() == old(Now()).(screen := ScreenRestored(old(mem.View()), chunks))
    {
      hide Inv, TablesFrom, FindChunk;
      out.Init();
      var found := FindChunk(chunks, ScreenId);
      if found.None? {
        return;
      }
      var data := found.value;
      if |data| < 5 || data[0] != CHUNK_VERSION || data[1] > WINDOW_UPPER {
        return;
      }
      if (|data| - 5) % TABLE_BYTES != 0 || (|data| - 5) / TABLE_BYTES > STREAM_DEPTH {
        return;
      }
      var tables := DecodeTables(mem.View(), data[5..]);
      if tables.None? {
        return;
      }
      out.screen := Screen([], [], data[1], Join(data[3], data[4]), data[2] % 2 == 1, tables.value);
    }

    method ResumeForeignSave() returns (r: Reply<()>)
      requires Valid()
      modifies `stack, `frames, `pc, mem.dynamic
      ensures Restoring(Now(), r) == ForeignResumed(cfg, old(Now()))
    {
      hide Inv, BranchAt, Returned, OffsetAddress;
      var read := BranchAt(mem.View(), pc);
      if read.Err? {
        return Rejected(InvalidState);
      }
      var branch, next := read.value.0, read.value.1;
      if !branch.onTrue {
        pc := next;
        return Accepted(());
      }
      if branch.Returns().Some? {
        var done := ReturnFromRoutine(branch.Returns().value);
        return if done.Ok? then Accepted(()) else Rejected(InvalidState);
      }
      var target := branch.Target(next);
      if target.Err? {
        return Rejected(InvalidState);
      }
      pc := target.value;
      return Accepted(());
    }

    /** Restore. */
    method Restore(data: Option<Save>) returns (r: Reply<()>)
      requires Valid()
      modifies this, out, mem.dynamic
      ensures Restoring(Now(), r) == Restored(cfg, old(Now()), data)
      ensures mem == old(mem)
    {
      if data.None? {
        return Rejected(InvalidState);
      }
      hide Inv, Finishing, RestoredFrames, ReadAccepts;
      var save := data.value;
      var chain := RestoreFrames(cfg, save.frames);
      if !ReadAccepts(cfg, save) || save.pc < HEADER_SIZE || save.pc >= |cfg.story.image| || chain.None? {
        return Rejected(InvalidState);
      }
      Commit(save, chain.value.0, chain.value.1);
      r := Finish(save.chunks);
    }

    /** The commit: everything has been checked, and the machine becomes the saved one. */
    method Commit(save: Save, frames: seq<Frame>, stack: seq<word>)
      requires Valid() && !Refused(cfg, Some(save)) && RestoredFrames(cfg, save.frames) == Some((frames, stack))
      modifies this, mem.dynamic
      ensures mem == old(mem) && Valid() && frames != []
      ensures Now() == Committed(old(Now()), save, frames, stack)
    {
      hide Inv, Refused, RestoredFrames;
      CommittedInv(cfg, Now(), save);
      CommitSize(cfg, Now(), save);
      mem.Load(save.memory);
      this.frames, this.stack := frames, stack;
      pc, started, halted, input, status := save.pc, true, false, None, NO_STATUS;
    }

    method Finish(chunks: seq<Chunk>) returns (r: Reply<()>)
      requires Valid()
      modifies this, out, mem.dynamic
      ensures Restoring(Now(), r) == Finishing(cfg, old(Now()), chunks)
      ensures mem == old(mem)
    {
      hide Inv, RandomRestored, ScreenRestored, ForeignResumed, HeaderSet, FindChunk;
      r := RestoreRandom(chunks);
      if r.Rejected? {
        return;
      }
      ScreenSet(cfg, Now(), chunks);
      RestoreScreen(chunks);
      if !OwnSnapshot(chunks) {
        r := ResumeForeignSave();
        if r.Rejected? {
          return;
        }
      }
      HeaderWritable(cfg, Now());
      var done := SetHeader(mem);
      return Accepted(());
    }
  }

  /** New. */
  method New(cfg: Config, supply: seq<Entropy>) returns (m: Machine, r: Result<()>)
    requires cfg.Valid()
    ensures fresh(m) && fresh(m.out) && fresh(m.mem) && fresh(m.mem.dynamic)
    ensures m.cfg == cfg && Lift(m.Now(), r) == Created(cfg, supply)
  {
    hide Inv, HeaderSet, RandomStarted;
    m := new Machine(cfg, supply);
    r := m.SeedRandom();
    if r.Err? {
      return;
    }
    r := SetHeader(m.mem);
  }

  /** One request: a fresh machine, the state the last request returned, and one line. */
  method ServeRequest(cfg: Config, save: Save, turn: Turn) returns (r: Reply<Outcome>)
    requires cfg.Valid()
    ensures r == Request(cfg, save, turn)
  {
    hide Inv, Created, Restored, TurnRun, Snapshot;
    var m, created := New(cfg, turn.creating);
    if created.Err? {
      return Rejected(Running(created.error));
    }
    var restored := m.Restore(Some(save));
    if restored.Rejected? {
      return Rejected(restored.error);
    }
    var outcome := m.Run(turn.line, turn.running);
    return Answer(outcome);
  }

  /** Operand values already read, in front of those still to come. */
  function Before(values: seq<word>, r: Run<seq<word>>): Run<seq<word>> {
    match r
    case Done(s, rest) => Done(s, values + rest)
    case Fail(s, e) => Fail(s, e)
  }

  lemma NothingBefore(r: Run<seq<word>>)
    ensures Before([], r) == r
  {
    if r.Done? {
      assert [] + r.value == r.value;
    }
  }

  lemma MoreBefore(values: seq<word>, v: word, r: Run<seq<word>>)
    ensures Before(values, Before([v], r)) == Before(values + [v], r)
  {
    if r.Done? {
      assert values + ([v] + r.value) == values + [v] + r.value;
    }
  }

  lemma CommitSize(cfg: Config, s: State, save: Save)
    requires Inv(cfg, s) && !Refused(cfg, Some(save))
    ensures |s.mem.dynamic| == |save.memory|
  {
    hide RestoredFrames, Chain, ScreenOk, WordCount;
  }

  /** initHeader. */
  method SetHeader(mem: Memory) returns (r: Result<()>)
    modifies mem.dynamic
    ensures Lift(mem.View(), r) == HeaderSet(old(mem.View()))
  {
    hide OwnFlags1, Mem.ReadWord, Mem.WriteWord;
    var flags1 :- mem.View().ReadByte(HDR_FLAGS1);
    var _ :- mem.WriteByte(HDR_FLAGS1, OwnFlags1(flags1));
    r := ClearTranscriptFlag(mem);
  }

  method ClearTranscriptFlag(mem: Memory) returns (r: Result<()>)
    modifies mem.dynamic
    ensures Lift(mem.View(), r) == TranscriptCleared(old(mem.View()))
  {
    hide Mem.ReadWord, Mem.WriteWord;
    var flags2 :- mem.View().ReadWord(HDR_FLAGS2);
    r := mem.WriteWord(HDR_FLAGS2, OwnFlags2(flags2));
  }

  method SetRestartHeader(mem: Memory, surviving: word) returns (r: Result<()>)
    requires surviving < 4
    modifies mem.dynamic
    ensures Lift(mem.View(), r) == RestartMemory(old(mem.View()), surviving)
  {
    hide HeaderSet, Mem.ReadWord, Mem.WriteWord;
    var initial :- mem.View().ReadWord(HDR_FLAGS2);
    var _ :- mem.WriteWord(HDR_FLAGS2, initial / 4 * 4 + surviving);
    r := SetHeader(mem);
  }

  /** The locals of a routine being entered: the words of its header, then the arguments over
      them. */
  method ReadLocals(m: Mem, at: nat, count: nat, args: seq<word>) returns (r: Result<seq<word>>)
    requires count <= MAX_LOCALS
    ensures match HeaderLocals(m, at, count)
            case Err(e) => r == Err(e)
            case Ok(header) => r == Ok(StartingLocals(header, args))
  {
    hide Mem.ReadWord;
    var locals := new word[MAX_LOCALS](_ => 0);
    ghost var header: seq<word> := [];
    for i := 0 to count
      invariant HeaderLocals(m, at, i) == Ok(header)
      invariant locals[..i] == header && forall k :: i <= k < MAX_LOCALS ==> locals[k] == 0
    {
      var value := m.ReadWord(at + i * WORD_SIZE);
      if value.Err? {
        HeaderFails(m, at, i + 1, count);
        return Err(value.error);
      }
      locals[i] := value.value;
      header := header + [value.value];
    }
    for i := 0 to |args|
      invariant |header| == count
      invariant forall k :: 0 <= k < MAX_LOCALS ==>
                  locals[k] == if k >= count then 0 else if k < i then args[k] else header[k]
    {
      if i >= count {
        break;
      }
      locals[i] := args[i];
    }
    assert locals[..] == StartingLocals(header, args);
    return Ok(locals[..]);
  }

  lemma {:induction false} HeaderFails(m: Mem, at: nat, i: nat, n: nat)
    requires HeaderLocals(m, at, i).Err? && i <= n
    ensures HeaderLocals(m, at, n) == HeaderLocals(m, at, i)
    decreases n - i
  {
    if i < n {
      HeaderFails(m, at, i, n - 1);
    }
  }
}
