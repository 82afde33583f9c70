/** The instructions that use the rest of the machine: printing, reading a line, random
    numbers, windows and streams, the status line, restart and quit (opcode_0op.go,
    opcode_var.go, input.go, machine.go). */
module Services {
  import opened Words
  import opened Memory
  import opened Text
  import opened Opcodes
  import opened Decoder
  import Encoder
  import Objects
  import Properties
  import opened Random
  import opened Output
  import Input
  import opened States
  import opened Routines
  import opened Instructions
  import opened Execution
  import opened Steps
  import opened Flow
  import opened Calls
  import opened Screens
  import Effects
  import opened Sessions

  // ----- printing -----

  /** print, new_line; print_addr, print_obj, print_paddr; print_char, print_num. */
  predicate JustPrints(op: Opcode) {
    match op.count
    case Op0 => op.number in {2, 11}
    case Op1 => op.number in {7, 10, 13}
    case Op2 => false
    case OpVar => op.number in {5, 6}
  }

  /** What printing does to memory and the screen: single codes go to the streams as they are,
      text as text. */
  function SentTo(cfg: Config, s: State, inst: Instr, ops: seq<word>): Act<Io, ()> {
    var op, io := inst.raw.op, Io(s.mem, s.screen);
    if op == Opcode(Op0, 11) then CodePrinted(io, 13)
    else if op == Opcode(OpVar, 5) && |ops| == 1 then CodePrinted(io, ops[0])
    else TextPrinted(io, TextSent(cfg, s, inst, ops))
  }

  lemma PrintingIs(cfg: Config, s: State, text: Str)
    requires Inv(cfg, s)
    ensures var r, io := Instructions.Printing(cfg, s, text), TextPrinted(Io(s.mem, s.screen), text);
            (r.Done? <==> io.Done?) && (r.Done? ==> r == Done(s.(mem := io.state.mem, screen := io.state.screen), Continue))
  {
    hide Inv, TextPrinted, Beneath;
  }

  lemma CodeIs(cfg: Config, s: State, code: word)
    requires Inv(cfg, s)
    ensures var r, io := PrintingCode(cfg, s, code), CodePrinted(Io(s.mem, s.screen), code);
            (r.Done? <==> io.Done?) && (r.Done? ==> r == Done(s.(mem := io.state.mem, screen := io.state.screen), Continue))
  {
    hide Inv, CodePrinted, Beneath;
  }

  lemma NothingSent(cfg: Config, s: State)
    ensures TextPrinted(Io(s.mem, s.screen), []) == Done(Io(s.mem, s.screen), ())
  {
  }

  ghost predicate JustSends(cfg: Config, s: State, inst: Instr, ops: seq<word>, r: Run<Control>) {
    r.Done? ==> var io := SentTo(cfg, s, inst, ops);
                io.Done? && r == Done(s.(mem := io.state.mem, screen := io.state.screen), Continue)
  }

  lemma Sends0(cfg: Config, s: State, inst: Instr)
    requires Inv(cfg, s) && inst.raw.op.count == Op0 && JustPrints(inst.raw.op)
    ensures JustSends(cfg, s, inst, [], Executed0(cfg, s, inst))
  {
    hide Inv, Beneath, TextPrinted, CodePrinted, Instructions.Printing, PrintingCode;
    PrintingIs(cfg, s, inst.text);
    CodeIs(cfg, s, 13);
  }

  lemma Sends1(cfg: Config, s: State, inst: Instr, ops: seq<word>)
    requires Inv(cfg, s) && inst.raw.op.count == Op1 && JustPrints(inst.raw.op)
    ensures JustSends(cfg, s, inst, ops, Executed1(cfg, s, inst, ops))
  {
    hide Inv, Beneath, TextPrinted, CodePrinted, Instructions.Printing, PrintingCode, StringAt, Properties.ShortName;
    if |ops| == 1 {
      var op, a := inst.raw.op, ops[0];
      var text := if op == PRINT_OBJ then Properties.ShortName(s.mem, cfg.story.abbreviations, cfg.story.objectTable, a)
                  else StringAt(s.mem, cfg.story.abbreviations, if op == PRINT_ADDR then a else UnpackAddress(a));
      NothingSent(cfg, s);
      PrintingIs(cfg, s, TextOr(text));
      if op == PRINT_OBJ {
        assert Executed1(cfg, s, inst, ops) == Object1(cfg, s, inst, a);
      }
    }
  }

  lemma SendsVar(cfg: Config, s: State, inst: Instr, ops: seq<word>)
    requires Inv(cfg, s) && inst.raw.op.count == OpVar && JustPrints(inst.raw.op)
    ensures JustSends(cfg, s, inst, ops, PlainVar(cfg, s, inst, ops))
  {
    hide Inv, Beneath, TextPrinted, CodePrinted, Instructions.Printing, PrintingCode, Decimal, Signed, Two;
    if |ops| == 1 {
      TwoIsSigned(ops[0]);
      PrintingIs(cfg, s, Decimal(Signed(ops[0])));
      CodeIs(cfg, s, ops[0]);
    }
  }

  /** An instruction that prints and goes on changes nothing but the screen and, when a table
      is open, memory. */
  lemma PrintStep(cfg: Config, s: State, inst: Instr, ops: seq<word>, s1: State)
    requires Executes(cfg, s, inst, ops, s1) && JustPrints(inst.raw.op) && Stepped(cfg, s).Done?
    ensures var io := SentTo(cfg, s1, inst, ops);
            && io.Done?
            && Stepped(cfg, s) == Done(s1.(mem := io.state.mem, screen := io.state.screen), Continue)
  {
    hide Inv, Stepped, Decoded, OperandOf, CanTake, Beneath, FollowsAs, Executed0, Executed1, Executed2, SentTo;
    hide PlainVar, Encoder.HeadFits, Encoder.HeadIn, LineTaken, StreamChosen, Called;
    StepDispatches(cfg, s, inst, ops, s1);
    match inst.raw.op.count {
      case Op0 =>
        NoOperands(s.mem, cfg.story.abbreviations, s.pc, inst);
        Sends0(cfg, s1, inst);
      case Op1 => Sends1(cfg, s1, inst, ops);
      case OpVar => SendsVar(cfg, s1, inst, ops);
    }
  }

  /** print_ret prints its text and a new-line, and then returns 1. */
  lemma PrintReturnStep(cfg: Config, s: State, inst: Instr, s1: State)
    requires Executes(cfg, s, inst, [], s1) && inst.raw.op == Opcode(Op0, 3) && Stepped(cfg, s).Done?
    ensures var io := TextPrinted(Io(s1.mem, s1.screen), inst.text);
            && io.Done?
            && var io' := CodePrinted(io.state, 13);
               && io'.Done?
               && Stepped(cfg, s) == Done(Departed(cfg, s1.(mem := io'.state.mem, screen := io'.state.screen), 1), Continue)
  {
    hide Inv, Stepped, Decoded, OperandOf, CanTake, Beneath, FollowsAs, TextPrinted, CodePrinted, Instructions.Printing, PrintingCode, Returned,
         Departed, CanDepart, Executed1, Executed2, ExecutedVar;
    StepDispatches(cfg, s, inst, [], s1);
    PrintingIs(cfg, s1, inst.text);
    var r := Instructions.Printing(cfg, s1, inst.text);
    if r.Done? {
      CodeIs(cfg, r.state, 13);
      var r2 := PrintingCode(cfg, r.state, ZSCII_NEWLINE);
      if r2.Done? {
        ReturnDeparts(cfg, r2.state, 1);
      }
    }
  }

  // ----- reading, random numbers, and the rest -----

  /** sread with a line: what a read makes of memory, with the first operand for its text
      buffer and the second for its parse buffer; the line is used up, and the status line is
      the one memory called for before. */
  lemma ReadStep(cfg: Config, s: State, inst: Instr, ops: seq<word>, s1: State, line: Str)
    requires Executes(cfg, s, inst, ops, s1) && inst.raw.op == Opcode(OpVar, 4) && s.input == Some(line)
    ensures Stepped(cfg, s).Done? ==>
              && |ops| == 2
              && var r := Input.LineRead(s1.mem, cfg.story.dictionary, ops[0], ops[1], line, cfg.lib.lower);
                 && r.Done?
                 && Stepped(cfg, s) == Done(s1.(mem := r.state, input := None, status := StatusSaid(cfg, s1)), Continue)
  {
    hide Inv, Stepped, Decoded, OperandOf, CanTake, Beneath, FollowsAs, LineTaken, StatusUpdated, Executed0, Executed1, Executed2, StatusSaid;
    hide Input.LineRead, Called, StreamChosen, PlainVar;
    StepDispatches(cfg, s, inst, ops, s1);
    var r := LineTaken(cfg, s1, ops);
    if r.Done? {
      LineTakesTwo(cfg, s1, ops);
      assert ops == [ops[0], ops[1]];
      ReadEffect(cfg, s1, ops[0], ops[1], line);
      StatusIsSaid(cfg, s1);
      LineContinues(cfg, s1, ops);
    }
  }

  lemma LineTakesTwo(cfg: Config, s: State, ops: seq<word>)
    requires Inv(cfg, s) && LineTaken(cfg, s, ops).Done?
    ensures |ops| == 2
  {
    hide Inv, StatusUpdated, Instructions.LineRead;
  }

  lemma LineContinues(cfg: Config, s: State, ops: seq<word>)
    requires Inv(cfg, s) && LineTaken(cfg, s, ops).Done?
    ensures LineTaken(cfg, s, ops).value == Continue
  {
    hide Inv, StatusUpdated, Instructions.LineRead, Beneath;
  }

  /** random: a positive range stores a number from 1 to it, drawn from the generator; zero and
      negative ranges reseed, with the host's randomness or with the number, and store 0. */
  lemma RandomStep(cfg: Config, s: State, inst: Instr, ops: seq<word>, s1: State) returns (v: word)
    requires Executes(cfg, s, inst, ops, s1) && inst.raw.op == Opcode(OpVar, 7)
    ensures inst.raw.store.Some? && s1.random.Valid(cfg.lib) && cfg.lib.Lawful()
    ensures Stepped(cfg, s).Done? ==>
              && |ops| == 1
              && var n, s', store := Two(ops[0]), Stepped(cfg, s).state, inst.raw.store.value;
                 if n > 0 then
                   && 1 <= v <= n && v == Drawn(cfg.lib, s1.random, n).1
                   && s' == Assigned(cfg, s1.(random := Drawn(cfg.lib, s1.random, n).0), store, v)
                 else if n < 0 then
                   s' == Assigned(cfg, s1.(random := s'.random, predictable := true, supply := s'.supply), store, 0) &&
                   s'.random == Seeded(cfg.lib, s1.random, -n, NextEntropy(s1))
                 else
                   NextEntropy(s1).Some? &&
                   s' == Assigned(cfg, s1.(random := Reseeded(cfg.lib, s1.random.Kind(), NextEntropy(s1).value), predictable := false,
                                           supply := s'.supply), store, 0)
  {
    hide Inv, Stepped, Decoded, OperandOf, CanTake, Beneath, FollowsAs, Executed0, Executed1, Executed2, Encoder.HeadFits, Encoder.HeadIn;
    hide Called, StreamChosen, LineTaken, Signed, Two, Drawn, Seeded, Reseeded, VariableWritten, Assigned, CanAssign;
    Carries(s.mem, cfg.story.abbreviations, s.pc, inst);
    StepDispatches(cfg, s, inst, ops, s1);
    InvParts(cfg, s1);
    v := 0;
    if |ops| == 1 {
      TwoIsSigned(ops[0]);
      TwoBounds(ops[0]);
      v := RandomStores(cfg, s1, inst, Two(ops[0]));
    }
  }

  lemma StoredIs(cfg: Config, s: State, inst: Instr, v: word)
    requires Inv(cfg, s) && inst.raw.store.Some?
    ensures Stored(cfg, s, inst, v).Done? ==>
              Stored(cfg, s, inst, v) == Done(Assigned(cfg, s, inst.raw.store.value, v), Continue)
  {
    hide Inv, VariableWritten, Assigned, CanAssign, Beneath;
    WriteAssigns(cfg, s, inst.raw.store.value, v);
  }

  lemma RandomStores(cfg: Config, s: State, inst: Instr, n: int) returns (v: word)
    requires Inv(cfg, s) && inst.raw.store.Some? && -0x8000 <= n < 0x8000
    ensures s.random.Valid(cfg.lib) && cfg.lib.Lawful()
    ensures var r, store := Randomised(cfg, s, inst, n), inst.raw.store.value;
            r.Done? ==>
              r.value == Continue &&
              if n > 0 then
                && 1 <= v <= n && v == Drawn(cfg.lib, s.random, n).1
                && r.state == Assigned(cfg, s.(random := Drawn(cfg.lib, s.random, n).0), store, v)
              else if n < 0 then
                r.state == Assigned(cfg, s.(random := r.state.random, predictable := true, supply := r.state.supply), store, 0) &&
                r.state.random == Seeded(cfg.lib, s.random, -n, NextEntropy(s))
              else
                NextEntropy(s).Some? &&
                r.state == Assigned(cfg, s.(random := Reseeded(cfg.lib, s.random.Kind(), NextEntropy(s).value), predictable := false,
                                            supply := r.state.supply), store, 0)
  {
    hide Inv, Stored, Drawn, Seeded, Reseeded, Beneath, Assigned;
    InvParts(cfg, s);
    v := 0;
    var store := inst.raw.store.value;
    if n > 0 {
      var (g, x) := Drawn(cfg.lib, s.random, n);
      v := x;
      RandomParts(cfg, s, g, s.predictable, s.supply);
      StoredIs(cfg, s.(random := g), inst, v);
    } else if n < 0 {
      StoredIs(cfg, RandomSeeded(cfg, s, -n), inst, 0);
      AssignedKeeps(cfg, RandomSeeded(cfg, s, -n), store);
    } else {
      var r := RandomReseeded(cfg, s);
      if r.Done? {
        StoredIs(cfg, r.state, inst, 0);
        AssignedKeeps(cfg, r.state, store);
      }
    }
  }

  lemma AssignedKeeps(cfg: Config, s: State, number: nat)
    ensures var s' := Assigned(cfg, s, number, 0);
            s'.random == s.random && s'.supply == s.supply && s'.predictable == s.predictable
  {
  }

  // ----- the status line, the end, and windows -----

  /** show_status updates the status line; quit ends the story. */
  lemma StatusStep(cfg: Config, s: State, inst: Instr, s1: State)
    requires Executes(cfg, s, inst, [], s1)
    ensures inst.raw.op == Opcode(Op0, 12) ==> Stepped(cfg, s) == Done(s1.(status := StatusSaid(cfg, s1)), Continue)
    ensures inst.raw.op == Opcode(Op0, 10) ==> Stepped(cfg, s) == Done(s1.(halted := true), Halt)
  {
    hide Inv, Stepped, Decoded, OperandOf, CanTake, Beneath, FollowsAs, StatusUpdated, StatusSaid, Executed1, Executed2, ExecutedVar;
    StepDispatches(cfg, s, inst, [], s1);
    StatusIsSaid(cfg, s1);
  }

  /** What window and stream instructions do besides what they make of the screen: selecting
      or deselecting the transcript clears its bit in Flags 2, and closing a table writes its
      count, high byte first. */
  function MemoryOf(cfg: Config, s: State, op: Opcode, ops: seq<word>): Mem {
    var m := s.mem;
    if op != Opcode(OpVar, 19) || ops == [] then m
    else if (ops[0] == 2 || ops[0] == 0xfffe) && |m.dynamic| > 0x11 then
      m.(dynamic := m.dynamic[0x11 := m.dynamic[0x11] / 2 * 2])
    else if ops[0] == 0xfffd && s.screen.tables != [] then
      var t := s.screen.tables[|s.screen.tables| - 1];
      if t.table + 1 < |m.dynamic| then m.(dynamic := m.dynamic[t.table := t.count / 256][t.table as nat + 1 := t.count % 256]) else m
    else m
  }

  /** split_window, set_window and output_stream change the screen, and memory only so. */
  lemma WindowStep(cfg: Config, s: State, inst: Instr, ops: seq<word>, s1: State)
    requires Executes(cfg, s, inst, ops, s1) && Stepped(cfg, s).Done?
    requires inst.raw.op in {Opcode(OpVar, 10), Opcode(OpVar, 11), Opcode(OpVar, 19)}
    ensures var s' := Stepped(cfg, s).state;
            && ScreenStep(cfg, s1, inst, ops, s'.screen)
            && Stepped(cfg, s) == Done(s1.(screen := s'.screen, mem := MemoryOf(cfg, s1, inst.raw.op, ops)), Continue)
  {
    hide Inv, Stepped, Decoded, OperandOf, CanTake, Beneath, FollowsAs, Executed0, Executed1, Executed2, ScreenStep, MemoryOf;
    hide Called, StreamChosen, PlainVar, LineTaken;
    StepDispatches(cfg, s, inst, ops, s1);
    StepShows(cfg, s, inst, ops, s1);
    if inst.raw.op == Opcode(OpVar, 19) {
      StreamKeeps(cfg, s1, ops);
    } else {
      WindowKeeps(cfg, s1, inst, ops);
    }
  }

  lemma WindowKeeps(cfg: Config, s: State, inst: Instr, ops: seq<word>)
    requires Inv(cfg, s) && inst.raw.op in {Opcode(OpVar, 10), Opcode(OpVar, 11)} && PlainVar(cfg, s, inst, ops).Done?
    ensures var r := PlainVar(cfg, s, inst, ops);
            r == Done(s.(screen := r.state.screen, mem := MemoryOf(cfg, s, inst.raw.op, ops)), Continue)
  {
    hide Inv, Beneath;
  }

  lemma StreamKeeps(cfg: Config, s: State, ops: seq<word>)
    requires Inv(cfg, s) && StreamChosen(cfg, s, ops).Done?
    ensures var r := StreamChosen(cfg, s, ops);
            r == Done(s.(screen := r.state.screen, mem := MemoryOf(cfg, s, Opcode(OpVar, 19), ops)), Continue)
  {
    hide Inv, Beneath, TranscriptCleared, Changing, Signed, StreamDeselected;
    var n := ops[0];
    SignedInjective(n);
    SignedTwos(n);
    TranscriptIs(cfg, s);
    if n == 2 || n == 0xfffe {
      Effects.ChangingIs(cfg, s, TranscriptCleared(s.mem));
    }
    TableCloses(Io(s.mem, s.screen));
  }

  lemma SignedTwos(w: word)
    ensures Signed(w) == 2 <==> w == 2
    ensures Signed(w) == -2 <==> w == 0xfffe
  {
  }

  lemma TranscriptIs(cfg: Config, s: State)
    requires Inv(cfg, s)
    ensures |s.mem.dynamic| > 0x11
    ensures TranscriptCleared(s.mem) == Done(s.mem.(dynamic := s.mem.dynamic[0x11 := s.mem.dynamic[0x11] / 2 * 2]), ())
  {
    InvParts(cfg, s);
    hide Inv;
    var m := s.mem;
    var w := m.GetWord(0x10);
    LowBitCleared(m.dynamic[0x10], m.dynamic[0x11]);
    assert m.PutWord(0x10, OwnFlags2(w)).dynamic == m.dynamic[0x11 := m.dynamic[0x11] / 2 * 2];
  }

  lemma LowBitCleared(high: byte, low: byte)
    ensures Hi(OwnFlags2(Join(high, low))) == high && Lo(OwnFlags2(Join(high, low))) == low / 2 * 2
  {
    var w := Join(high, low);
    assert w == high as int * 0x100 + low as int;
    assert w / 2 == high as int * 0x80 + low / 2;
  }

  lemma TableCloses(io: Io)
    ensures StreamDeselected(io).Done? ==>
              StreamDeselected(io).state.mem ==
              if io.screen.tables == [] then io.mem
              else
                var t := Innermost(io.screen);
                if t.table + 1 < |io.mem.dynamic| then
                  io.mem.(dynamic := io.mem.dynamic[t.table := t.count / 256][t.table as nat + 1 := t.count % 256])
                else io.mem
  {
  }

  /** restart begins the story again, with what RestartEffect says of memory and the rest. */
  lemma RestartStep(cfg: Config, s: State, inst: Instr, s1: State)
    requires Executes(cfg, s, inst, [], s1) && inst.raw.op == Opcode(Op0, 7)
    ensures cfg.Valid() && SameShape(InitialMem(cfg.story), s1.mem)
    ensures Stepped(cfg, s).Done? <==> Seedable(cfg, s1.supply)
    ensures Stepped(cfg, s).Done? ==>
              var s' := Stepped(cfg, s).state;
              && s'.frames == [BaseFrame(cfg.story)] && s'.stack == [] && s'.pc == cfg.story.initialPC
              && Reloaded(cfg.story, s1.mem, s'.mem)
              && s'.screen == Screen([], [], 0, 0, true, []) && s'.status == NO_STATUS && s'.input == s1.input
  {
    hide Inv, Stepped, Decoded, OperandOf, CanTake, Beneath, FollowsAs, Restarted, Reloaded, Executed1, Executed2, ExecutedVar;
    StepDispatches(cfg, s, inst, [], s1);
    RestartShape(cfg, s1);
    RestartEffect(cfg, s1);
  }

  lemma RestartShape(cfg: Config, s: State)
    requires Inv(cfg, s)
    ensures cfg.Valid() && SameShape(InitialMem(cfg.story), s.mem)
  {
    hide Chain, ScreenOk;
  }

  // ----- numbers and header bits -----

  /** The number some decimal digits stand for. */
  function NumberOf(digits: Str): nat {
    if digits == [] then 0
    else
      var d := digits[|digits| - 1];
      10 * NumberOf(digits[..|digits| - 1]) + if 48 <= d <= 57 then d - 48 else 0
  }

  /** print_num prints a number in decimal, without needless zeros, and a sign before it when
      it is negative. */
  lemma {:induction false} DigitsAre(n: nat)
    ensures var text := Digits(n);
            && text != [] && NumberOf(text) == n
            && (forall i :: 0 <= i < |text| ==> 48 <= text[i] <= 57)
            && (n > 0 ==> text[0] != 48) && (n == 0 ==> text == [48])
  {
    var text := Digits(n);
    if n >= 10 {
      DigitsAre(n / 10);
      assert text[..|text| - 1] == Digits(n / 10);
    } else {
      assert text[..|text| - 1] == [];
    }
  }

  lemma NumberPrinted(i: int)
    ensures i >= 0 ==> Decimal(i) == Digits(i)
    ensures i < 0 ==> Decimal(i) == [45] + Digits(-i)
  {
  }

  /** Setting the header turns bit 5 of Flags 1 on and bits 4 and 6 off, turns bit 0 of Flags 2
      off, and changes nothing else. */
  lemma HeaderSets(m: Mem, k: nat)
    requires |m.dynamic| >= HEADER_SIZE && k < 8
    ensures var m' := HeaderSet(m).state;
            && |m'.dynamic| == |m.dynamic| && m'.shared == m.shared
            && (Bit(m'.dynamic[1], k) <==> (k == 5 || (k != 4 && k != 6 && Bit(m.dynamic[1], k))))
            && m'.dynamic[0x11] == m.dynamic[0x11] / 2 * 2
            && forall a :: 0 <= a < |m.dynamic| && a != 1 && a != 0x11 ==> m'.dynamic[a] == m.dynamic[a]
  {
    HeaderBytes(m);
    LowBitCleared(m.dynamic[0x10], m.dynamic[0x11]);
    var f := m.dynamic[1];
    var a := Objects.MaskedByte(f, 4, false);
    var b := Objects.MaskedByte(a, 5, true);
    hide Bit, WithBit, OwnFlags2, Hi, Lo, Join;
    assert OwnFlags1(f) == WithBit(b, 6, false) && b == WithBit(a, 5, true) && a == WithBit(f, 4, false);
  }

  /** A machine can be started once, and not after it has halted, when it cannot go on either;
      nothing of it changes then. */
  lemma CallsRefused(cfg: Config, s: State, line: Str, supply: seq<Entropy>)
    requires Inv(cfg, s)
    ensures s.started || s.halted ==> StartRun(cfg, s, supply) == Fail(s, ExecutionFault)
    ensures s.halted ==> TurnRun(cfg, s, line, supply) == Fail(s, ExecutionFault)
  {
    hide Inv, Looped;
  }

  /** Selecting a table is refused when sixteen are selected already, or its count word does
      not lie in dynamic memory; writing to one, when it holds 65535 characters or is full. */
  lemma StreamRefused(io: Io, addr: word, b: byte)
    ensures StreamSelected(io, addr).Done? <==> |io.screen.tables| < 16 && addr + 2 <= |io.mem.dynamic|
    ensures io.screen.tables != [] ==>
              var t := io.screen.tables[|io.screen.tables| - 1];
              TableWritten(io, b).Done? <==> t.count < 65535 && t.table as nat + 2 + t.count as nat < |io.mem.dynamic|
  {
  }

  /** A new machine: the initial environment at the story's first instruction, an empty stack,
      the story's dynamic memory with the interpreter's header bits set, a clear screen, and a
      generator seeded as configured, or else by the host's randomness. */
  lemma NewMachine(cfg: Config, supply: seq<Entropy>)
    requires cfg.Valid() && Created(cfg, supply).Done?
    ensures var s, blank, e := Created(cfg, supply).state, Blank(cfg.lib, cfg.kind), if supply == [] then None else supply[0];
            && s.pc == cfg.story.initialPC && s.frames == [BaseFrame(cfg.story)] && s.stack == []
            && s.mem == HeaderSet(InitialMem(cfg.story)).state && s.screen == Screen([], [], 0, 0, true, [])
            && s.random == (if cfg.hasSeed then Seeded(cfg.lib, blank, cfg.seed, e)
                            else if e.Some? then Reseeded(cfg.lib, cfg.kind, e.value) else blank)
            && (cfg.hasSeed || e.Some?) && s.predictable == cfg.hasSeed
            && !s.started && !s.halted && s.input == None && s.status == NO_STATUS
  {
    hide Inv, HeaderSet, Seeded, Reseeded, Beneath;
    BlankKind(cfg);
  }

  lemma BlankKind(cfg: Config)
    requires cfg.Valid()
    ensures Blank(cfg.lib, cfg.kind).Kind() == cfg.kind
  {
  }
}
