/** What a call returns of the screen: the text its instructions printed, in order (output.go,
    execute.go; section 7 of the Z-Machine Standards Document 1.1). */
module Screens {
  import opened Words
  import opened Memory
  import opened Text
  import opened Opcodes
  import opened Decoder
  import Encoder
  import opened Objects
  import Properties
  import opened Random
  import opened Output
  import Input
  import opened States
  import opened Routines
  import opened Instructions
  import opened Execution
  import opened Variables
  import opened Snapshots
  import Equivalence
  import opened Steps
  import opened Flow
  import opened Calls

  // ----- instructions that leave the screen alone -----

  lemma WriteIsQuiet(cfg: Config, s: State, number: byte, v: word)
    requires Inv(cfg, s)
    ensures VariableWritten(cfg, s, number, v).state.screen == s.screen
    ensures IndirectWritten(cfg, s, number, v).state.screen == s.screen
  {
    hide Inv;
  }

  lemma ReadIsQuiet(cfg: Config, s: State, number: byte)
    requires Inv(cfg, s)
    ensures VariableRead(cfg, s, number).state.screen == s.screen && IndirectRead(cfg, s, number).state.screen == s.screen
    ensures Pop(cfg, s).state.screen == s.screen
  {
    hide Inv;
  }

  lemma ReturnIsQuiet(cfg: Config, s: State, v: word)
    requires Inv(cfg, s)
    ensures Returned(cfg, s, v).state.screen == s.screen
    ensures Instructions.Returning(cfg, s, v).state.screen == s.screen
  {
    hide Inv, VariableWritten;
    if |s.frames| > 1 {
      FramePopped(cfg, s);
      WriteIsQuiet(cfg, Popped(s), s.Top().store, v);
    }
  }

  lemma BranchIsQuiet(cfg: Config, s: State, inst: Instr, holds: bool)
    requires Inv(cfg, s)
    ensures Branched(cfg, s, inst, holds).state.screen == s.screen
  {
    hide Inv, Instructions.Returning;
    ReturnIsQuiet(cfg, s, 0);
    ReturnIsQuiet(cfg, s, 1);
  }

  lemma StoreIsQuiet(cfg: Config, s: State, inst: Instr, v: word)
    requires Inv(cfg, s)
    ensures Stored(cfg, s, inst, v).state.screen == s.screen
  {
    hide Inv, VariableWritten;
    if inst.raw.store.Some? {
      WriteIsQuiet(cfg, s, inst.raw.store.value, v);
    }
  }

  lemma AdjustIsQuiet(cfg: Config, s: State, number: byte, delta: int)
    requires Inv(cfg, s)
    ensures Adjusted(cfg, s, number, delta).state.screen == s.screen
  {
    hide Inv, IndirectRead, IndirectWritten;
    var r := IndirectRead(cfg, s, number);
    ReadIsQuiet(cfg, s, number);
    if r.Done? {
      WriteIsQuiet(cfg, r.state, number, Unsigned(Signed(r.value) + delta));
    }
  }

  lemma CallIsQuiet(cfg: Config, s: State, packed: word, args: seq<word>, pc: nat, store: byte, hasStore: bool)
    requires Inv(cfg, s) && |args| <= MAX_ARGUMENTS && pc <= |cfg.story.image|
    ensures Called(cfg, s, packed, args, pc, store, hasStore).state.screen == s.screen
  {
    hide Inv, VariableWritten, HeaderLocals;
    WriteIsQuiet(cfg, s, store, 0);
  }

  lemma RandomIsQuiet(cfg: Config, s: State, seed: nat)
    requires Inv(cfg, s)
    ensures RandomSeeded(cfg, s, seed).screen == s.screen && RandomReseeded(cfg, s).state.screen == s.screen
    ensures RandomStarted(cfg, s).state.screen == s.screen
  {
    hide Inv, Beneath;
  }

  lemma DrawIsQuiet(cfg: Config, s: State, inst: Instr, range: int)
    requires Inv(cfg, s) && -0x8000 <= range < 0x8000
    ensures Randomised(cfg, s, inst, range).state.screen == s.screen
  {
    hide Inv, Stored, RandomSeeded, RandomReseeded, Drawn, Beneath;
    if range > 0 {
      InvParts(cfg, s);
      var (g, v) := Drawn(cfg.lib, s.random, range);
      RandomParts(cfg, s, g, s.predictable, s.supply);
      StoreIsQuiet(cfg, s.(random := g), inst, v);
    } else if range < 0 {
      RandomIsQuiet(cfg, s, -range);
      StoreIsQuiet(cfg, RandomSeeded(cfg, s, -range), inst, 0);
    } else {
      RandomIsQuiet(cfg, s, 0);
      StoreIsQuiet(cfg, RandomReseeded(cfg, s).state, inst, 0);
    }
  }

  lemma ChangeIsQuiet<T>(cfg: Config, s: State, r: Act<Mem, T>)
    requires Inv(cfg, s) && SameShape(s.mem, r.state)
    ensures Changing(cfg, s, r).state.screen == s.screen
  {
    hide Inv, Beneath;
  }

  lemma StatusIsQuiet(cfg: Config, s: State)
    requires Inv(cfg, s)
    ensures StatusUpdated(cfg, s).state.screen == s.screen
  {
    hide Inv, StatusFor, Beneath;
  }

  // ----- printing -----

  /** What reaches a window of text sent to the output streams: all of it, if the window is
      selected, stream 1 is on and no table is open. */
  function Seen(screen: Screen, window: nat, sent: Str): Str {
    if screen.tables == [] && screen.stream1 && screen.window == window then sent else []
  }

  /** Sending text changes the windows it reaches, and nothing else of the screen but what is
      written to an open table. */
  ghost predicate Shows(before: Screen, after: Screen, sent: Str) {
    && after.lower == before.lower + Seen(before, 0, sent)
    && after.upper == before.upper + Seen(before, 1, sent)
    && after.window == before.window && after.stream1 == before.stream1 && after.upperHeight == before.upperHeight
    && |after.tables| == |before.tables|
  }

  lemma ShowsNothing(screen: Screen)
    ensures Shows(screen, screen, [])
  {
  }

  lemma ShowsBoth(a: Screen, b: Screen, c: Screen, first: Str, second: Str)
    requires Shows(a, b, first) && Shows(b, c, second)
    ensures Shows(a, c, first + second)
  {
  }

  lemma {:induction false} TableIsQuiet(io: Io, text: Str)
    requires io.screen.tables != []
    ensures var s' := TextToTable(io, text).state.screen;
            s' == io.screen.(tables := s'.tables) && |s'.tables| == |io.screen.tables|
    decreases |text|
  {
    if text != [] {
      var r := TableWritten(io, TableCode(text[0]));
      hide TableWritten, TableCode;
      OneIsQuiet(io, TableCode(text[0]));
      if r.Done? {
        TableIsQuiet(r.state, text[1..]);
      }
    }
  }

  lemma OneIsQuiet(io: Io, b: byte)
    requires io.screen.tables != []
    ensures var s' := TableWritten(io, b).state.screen;
            s' == io.screen.(tables := s'.tables) && |s'.tables| == |io.screen.tables|
  {
  }

  lemma TextShows(io: Io, text: Str)
    requires io.screen.window <= 1
    ensures Shows(io.screen, TextPrinted(io, text).state.screen, text) || TextPrinted(io, text).Fail?
  {
    if io.screen.tables != [] {
      TableIsQuiet(io, text);
    }
    hide TextToTable;
  }

  lemma CodeShows(io: Io, code: word)
    requires io.screen.window <= 1
    ensures Shows(io.screen, CodePrinted(io, code).state.screen, Printed(code)) || CodePrinted(io, code).Fail?
  {
    if io.screen.tables != [] && OutputRune(code).Some? {
      OneIsQuiet(io, code);
    }
    hide TableWritten, OutputRune;
  }

  lemma PrintingShows(cfg: Config, s: State, text: Str)
    requires Inv(cfg, s) && Instructions.Printing(cfg, s, text).Done?
    ensures Shows(s.screen, Instructions.Printing(cfg, s, text).state.screen, text)
  {
    WindowIs(cfg, s);
    TextShows(Io(s.mem, s.screen), text);
    hide Inv, TextPrinted, Shows, Beneath;
  }

  lemma PrintingCodeShows(cfg: Config, s: State, code: word)
    requires Inv(cfg, s) && PrintingCode(cfg, s, code).Done?
    ensures Shows(s.screen, PrintingCode(cfg, s, code).state.screen, Printed(code))
  {
    WindowIs(cfg, s);
    CodeShows(Io(s.mem, s.screen), code);
    hide Inv, CodePrinted, Shows, Printed, Beneath;
  }

  lemma WindowIs(cfg: Config, s: State)
    requires Inv(cfg, s)
    ensures s.screen.window <= 1
  {
    hide Chain, SameShape;
  }

  // ----- what each instruction shows -----

  function TextOr(r: Result<Str>): Str {
    match r
    case Ok(text) => text
    case Err(_) => []
  }

  /** The text an instruction sends to the output streams: print, print_ret and new_line;
      print_addr, print_paddr and print_obj; print_char and print_num. */
  function TextSent(cfg: Config, s: State, inst: Instr, ops: seq<word>): Str {
    var op := inst.raw.op;
    if op == Opcode(Op0, 2) then inst.text
    else if op == Opcode(Op0, 3) then inst.text + [10]
    else if op == Opcode(Op0, 11) then [10]
    else if |ops| != 1 then []
    else if op == Opcode(Op1, 7) then TextOr(StringAt(s.mem, cfg.story.abbreviations, ops[0]))
    else if op == Opcode(Op1, 13) then TextOr(StringAt(s.mem, cfg.story.abbreviations, 2 * ops[0] as nat))
    else if op == Opcode(Op1, 10) then
      if ops[0] == 0 then [] else TextOr(Properties.ShortName(s.mem, cfg.story.abbreviations, cfg.story.objectTable, ops[0]))
    else if op == Opcode(OpVar, 5) then Printed(ops[0])
    else if op == Opcode(OpVar, 6) then Decimal(Two(ops[0]))
    else []
  }

  /** What an instruction makes of the screen: restart clears it, split_window clears the upper
      window, set_window selects a window, output_stream selects streams, and any other shows
      the text it sends. */
  ghost predicate ScreenStep(cfg: Config, s: State, inst: Instr, ops: seq<word>, after: Screen) {
    var op, before := inst.raw.op, s.screen;
    if op == Opcode(Op0, 7) then after == Screen([], [], 0, 0, true, [])
    else if op == Opcode(OpVar, 10) then |ops| == 1 && after == before.(upper := [], upperHeight := ops[0])
    else if op == Opcode(OpVar, 11) then |ops| == 1 && ops[0] <= 1 && after == before.(window := ops[0])
    else if op == Opcode(OpVar, 19) then
      |ops| >= 1 &&
      (if ops[0] == 1 then after == before.(stream1 := true)
       else if ops[0] == 0xffff then after == before.(stream1 := false)
       else if ops[0] == 3 then |ops| == 2 && after == before.(tables := before.tables + [Stream(ops[1], 0)])
       else if ops[0] == 0xfffd && before.tables != [] then after == before.(tables := before.tables[..|before.tables| - 1])
       else after == before)
    else Shows(before, after, TextSent(cfg, s, inst, ops))
  }

  lemma Shown0(cfg: Config, s: State, inst: Instr, ops: seq<word>)
    requires Inv(cfg, s) && inst.raw.op.count == Op0 && ops == [] && Executed0(cfg, s, inst).Done?
    ensures ScreenStep(cfg, s, inst, ops, Executed0(cfg, s, inst).state.screen)
  {
    hide Inv, Beneath, Instructions.Returning, Branched, StatusUpdated, Restarted, Pop, Instructions.Printing, PrintingCode, Shows;
    var op := inst.raw.op;
    ShowsNothing(s.screen);
    if op == PRINT {
      PrintingShows(cfg, s, inst.text);
    } else if op == PRINT_RET {
      var s1 := Instructions.Printing(cfg, s, inst.text).state;
      PrintingShows(cfg, s, inst.text);
      PrintingCodeShows(cfg, s1, ZSCII_NEWLINE);
      NewLineIs();
      ShowsBoth(s.screen, s1.screen, PrintingCode(cfg, s1, ZSCII_NEWLINE).state.screen, inst.text, [10]);
      ReturnIsQuiet(cfg, PrintingCode(cfg, s1, ZSCII_NEWLINE).state, 1);
    } else if op == NEW_LINE {
      NewLineIs();
      PrintingCodeShows(cfg, s, ZSCII_NEWLINE);
    } else if op == RESTART {
      RestartClears(cfg, s);
    } else if op == POP || op == RET_POPPED {
      ReadIsQuiet(cfg, s, 0);
      var r := Pop(cfg, s);
      if r.Done? {
        ReturnIsQuiet(cfg, r.state, r.value);
      }
    } else {
      ReturnIsQuiet(cfg, s, 0);
      ReturnIsQuiet(cfg, s, 1);
      BranchIsQuiet(cfg, s, inst, false);
      BranchIsQuiet(cfg, s, inst, cfg.story.computed == cfg.story.checksum);
      StatusIsQuiet(cfg, s);
    }
  }

  lemma NewLineIs()
    ensures Printed(ZSCII_NEWLINE) == [10]
  {
  }

  lemma RestartClears(cfg: Config, s: State)
    requires Inv(cfg, s) && Restarted(cfg, s).Done?
    ensures Restarted(cfg, s).state.screen == Screen([], [], 0, 0, true, [])
  {
    InvParts(cfg, s);
    assert cfg.Valid() && SameShape(InitialMem(cfg.story), s.mem) by {
      hide Chain, ScreenOk;
    }
    hide Inv, Restarted, Reloaded;
    RestartEffect(cfg, s);
  }

  lemma ResultIsQuiet(cfg: Config, s: State, inst: Instr, v: Result<word>)
    requires Inv(cfg, s)
    ensures StoredResult(cfg, s, inst, v).state.screen == s.screen
  {
    hide Inv, Stored, Beneath;
    if v.Ok? {
      StoreIsQuiet(cfg, s, inst, v.value);
    }
  }

  lemma RelativeIsQuiet(cfg: Config, s: State, inst: Instr, number: word, field: nat)
    requires Inv(cfg, s) && field < ENTRY_SIZE
    ensures RelativeStored(cfg, s, inst, number, field).state.screen == s.screen
  {
    hide Inv, Stored, Branched, Beneath, ObjectRelative;
    var v := if number == 0 then Ok(0) else ObjectRelative(s.mem, cfg.story.objectTable, number, field);
    if v.Ok? {
      StoreIsQuiet(cfg, s, inst, v.value);
      var r := Stored(cfg, s, inst, v.value);
      if r.Done? {
        BranchIsQuiet(cfg, r.state, inst, v.value != 0);
      }
    }
  }

  lemma TextAtShows(cfg: Config, s: State, addr: nat)
    requires Inv(cfg, s) && TextAt(cfg, s, addr).Done?
    ensures Shows(s.screen, TextAt(cfg, s, addr).state.screen, TextOr(StringAt(s.mem, cfg.story.abbreviations, addr)))
  {
    hide Inv, Instructions.Printing, StringAt, Shows, Beneath;
    PrintingShows(cfg, s, StringAt(s.mem, cfg.story.abbreviations, addr).value);
  }

  lemma ObjectShown1(cfg: Config, s: State, inst: Instr, a: word)
    requires Inv(cfg, s) && inst.raw.op.count == Op1 && Object1(cfg, s, inst, a).Done?
    ensures ScreenStep(cfg, s, inst, [a], Object1(cfg, s, inst, a).state.screen)
  {
    hide Inv, Beneath, RelativeStored, StoredResult, Changing, Instructions.Printing, Shows, Properties.ShortName, Removed, Properties.Length, ObjectRelative;
    var op, table := inst.raw.op, cfg.story.objectTable;
    ShowsNothing(s.screen);
    if op == PRINT_OBJ {
      if a != 0 {
        PrintingShows(cfg, s, Properties.ShortName(s.mem, cfg.story.abbreviations, table, a).value);
      }
    } else {
      RelativeIsQuiet(cfg, s, inst, a, SIBLING);
      RelativeIsQuiet(cfg, s, inst, a, CHILD);
      ResultIsQuiet(cfg, s, inst, if a == 0 then Ok(0) else ObjectRelative(s.mem, table, a, PARENT));
      ResultIsQuiet(cfg, s, inst, Properties.Length(s.mem, a));
      ChangeIsQuiet(cfg, s, Removed(s.mem, table, a));
    }
  }

  lemma Shown1(cfg: Config, s: State, inst: Instr, ops: seq<word>)
    requires Inv(cfg, s) && inst.raw.op.count == Op1 && Executed1(cfg, s, inst, ops).Done?
    ensures ScreenStep(cfg, s, inst, ops, Executed1(cfg, s, inst, ops).state.screen)
  {
    hide Inv, Beneath, Instructions.Returning, Branched, Adjusted, TextAt, IndirectRead, Stored, Object1, Shows, StringAt, OffsetAddress;
    var op, a := inst.raw.op, ops[0];
    assert ops == [a];
    ShowsNothing(s.screen);
    if op == PRINT_ADDR {
      TextAtShows(cfg, s, a);
    } else if op == PRINT_PADDR {
      TextAtShows(cfg, s, UnpackAddress(a));
    } else if op == LOAD {
      ReadIsQuiet(cfg, s, Lo(a));
      StoreIsQuiet(cfg, IndirectRead(cfg, s, Lo(a)).state, inst, IndirectRead(cfg, s, Lo(a)).value);
    } else if op in {JZ, INC, DEC, RET, JUMP, NOT} {
      BranchIsQuiet(cfg, s, inst, a == 0);
      AdjustIsQuiet(cfg, s, Lo(a), if op == INC then 1 else -1);
      ReturnIsQuiet(cfg, s, a);
      StoreIsQuiet(cfg, s, inst, BitNot(a));
    } else {
      ObjectShown1(cfg, s, inst, a);
    }
  }

  lemma ObjectShown2(cfg: Config, s: State, inst: Instr, a: word, b: word)
    requires Inv(cfg, s)
    ensures Object2(cfg, s, inst, a, b).Done? ==> Object2(cfg, s, inst, a, b).state.screen == s.screen
  {
    hide Inv, Beneath, Branched, StoredResult, Changing, AttributeSet, Inserted, Properties.Value, Properties.DataAddress, Properties.NextNumber, ObjectAttribute, ObjectRelative;
    var table := cfg.story.objectTable;
    var parent, on := ObjectRelative(s.mem, table, a, PARENT), ObjectAttribute(s.mem, table, a, b);
    BranchIsQuiet(cfg, s, inst, b == 0);
    BranchIsQuiet(cfg, s, inst, false);
    BranchIsQuiet(cfg, s, inst, parent.Ok? && parent.value == b);
    BranchIsQuiet(cfg, s, inst, on.Ok? && on.value);
    ChangeIsQuiet(cfg, s, AttributeSet(s.mem, table, a, b, inst.raw.op == SET_ATTR));
    ChangeIsQuiet(cfg, s, Inserted(s.mem, table, a, b));
    ResultIsQuiet(cfg, s, inst, if a == 0 then Ok(0) else Properties.Value(s.mem, table, a, b));
    ResultIsQuiet(cfg, s, inst, if a == 0 then Ok(0) else Properties.DataAddress(s.mem, table, a, b));
    ResultIsQuiet(cfg, s, inst, if a == 0 then Ok(0) else Properties.NextNumber(s.mem, table, a, b));
  }

  lemma Shown2(cfg: Config, s: State, inst: Instr, ops: seq<word>)
    requires Inv(cfg, s) && inst.raw.op.count == Op2 && Executed2(cfg, s, inst, ops).Done?
    ensures ScreenStep(cfg, s, inst, ops, Executed2(cfg, s, inst, ops).state.screen)
  {
    hide Inv, Beneath, Branched, Adjusted, StoredResult, IndirectWritten, Computed, Instructions.Loaded, Object2, Shows, ScreenStep, TextSent, Signed, BitAnd;
    NothingShown2(cfg, s, inst, ops);
    var op, a, b := inst.raw.op, ops[0], ops[1];
    if op == JE {
      BranchIsQuiet(cfg, s, inst, ops[0] in ops[1..]);
    } else if op in {DEC_CHK, INC_CHK} {
      var r := Adjusted(cfg, s, Lo(a), if op == INC_CHK then 1 else -1);
      AdjustIsQuiet(cfg, s, Lo(a), if op == INC_CHK then 1 else -1);
      BranchIsQuiet(cfg, r.state, inst, if op == INC_CHK then r.value > Signed(b) else r.value < Signed(b));
    } else if op in {JL, JG, TEST} {
      BranchIsQuiet(cfg, s, inst, Signed(a) < Signed(b));
      BranchIsQuiet(cfg, s, inst, Signed(a) > Signed(b));
      BranchIsQuiet(cfg, s, inst, BitAnd(a, b) == b);
    } else if op == STORE {
      ReplaceIsQuiet(cfg, s, Lo(a), b);
    } else if op in {LOADW, LOADB} {
      ResultIsQuiet(cfg, s, inst, Instructions.Loaded(s.mem, op, a, b));
    } else if Computed(op, a, b).Some? {
      ResultIsQuiet(cfg, s, inst, Computed(op, a, b).value);
    } else {
      ObjectShown2(cfg, s, inst, a, b);
    }
  }

  lemma ReplaceIsQuiet(cfg: Config, s: State, number: byte, v: word)
    requires Inv(cfg, s)
    ensures Continuing(IndirectWritten(cfg, s, number, v)).state.screen == s.screen
  {
    WriteIsQuiet(cfg, s, number, v);
    hide Inv, IndirectWritten;
  }

  lemma NothingShown2(cfg: Config, s: State, inst: Instr, ops: seq<word>)
    requires inst.raw.op.count == Op2
    ensures ScreenStep(cfg, s, inst, ops, s.screen)
  {
    ShowsNothing(s.screen);
    hide Shows;
  }

  lemma StreamShown(cfg: Config, s: State, inst: Instr, ops: seq<word>)
    requires Inv(cfg, s) && inst.raw.op == Opcode(OpVar, 19) && StreamChosen(cfg, s, ops).Done?
    ensures ScreenStep(cfg, s, inst, ops, StreamChosen(cfg, s, ops).state.screen)
  {
    hide Inv, Beneath, TranscriptCleared, Changing, Mem.WriteWord, IoStep;
    ChangeIsQuiet(cfg, s, TranscriptCleared(s.mem));
    assert Signed(1) == 1 && Signed(0xffff) == -1 && Signed(3) == 3 && Signed(0xfffd) == -3;
    SignedInjective(ops[0]);
  }

  lemma SignedInjective(w: word)
    ensures Signed(w) == 1 <==> w == 1
    ensures Signed(w) == -1 <==> w == 0xffff
    ensures Signed(w) == 3 <==> w == 3
    ensures Signed(w) == -3 <==> w == 0xfffd
  {
  }

  lemma LineIsQuiet(cfg: Config, s: State, ops: seq<word>)
    requires Inv(cfg, s) && LineTaken(cfg, s, ops).Done?
    ensures LineTaken(cfg, s, ops).state.screen == s.screen
  {
    hide Inv, Beneath, StatusUpdated, Input.LineStored, Input.Tokenised, Changing;
    StatusIsQuiet(cfg, s);
    var s1 := StatusUpdated(cfg, s).state.(input := None);
    FreeParts(cfg, StatusUpdated(cfg, s).state, s1);
    var line := match s1.input case Some(typed) => typed case None => [];
    LineReadIsQuiet(cfg, StatusUpdated(cfg, s).state, ops[0], ops[1]);
  }

  lemma LineReadIsQuiet(cfg: Config, s: State, text: word, parse: word)
    requires Inv(cfg, s)
    ensures Instructions.LineRead(cfg, s, text, parse).state.screen == s.screen
  {
    hide Inv, Beneath, Input.LineStored, Input.Tokenised, Changing;
    var line := match s.input case Some(typed) => typed case None => [];
    var s1 := s.(input := None);
    FreeParts(cfg, s, s1);
    var r := InMemory(cfg, s1, Input.LineStored(s1.mem, text, line, cfg.lib.lower));
    if r.Done? {
      ChangeIsQuiet(cfg, r.state, Input.Tokenised(r.state.mem, cfg.story.dictionary, parse, r.value));
    }
  }

  lemma PlainShown(cfg: Config, s: State, inst: Instr, ops: seq<word>)
    requires Inv(cfg, s) && inst.raw.op.count == OpVar && inst.raw.op.number != 19 && PlainVar(cfg, s, inst, ops).Done?
    ensures ScreenStep(cfg, s, inst, ops, PlainVar(cfg, s, inst, ops).state.screen)
  {
    hide Inv, Beneath, Changing, PrintingCode, Instructions.Printing, Push, Pulled, Randomised, Decimal, Properties.Stored,
         WordStored, ByteStored, Shows, Signed, Two;
    var op := inst.raw.op;
    ShowsNothing(s.screen);
    if op in {STOREW, STOREB, PUT_PROP} {
      ChangeIsQuiet(cfg, s, WordStored(s.mem, ops[0], ops[1], ops[2]));
      ChangeIsQuiet(cfg, s, ByteStored(s.mem, ops[0], ops[1], ops[2]));
      ChangeIsQuiet(cfg, s, Properties.Stored(s.mem, cfg.story.objectTable, ops[0], ops[1], ops[2]));
    } else if op == PRINT_CHAR {
      PrintingCodeShows(cfg, s, ops[0]);
    } else if op == PRINT_NUM {
      TwoIsSigned(ops[0]);
      PrintingShows(cfg, s, Decimal(Signed(ops[0])));
    } else if op == RANDOM {
      TwoIsSigned(ops[0]);
      TwoBounds(ops[0]);
      DrawIsQuiet(cfg, s, inst, Signed(ops[0]));
    } else if op == PUSH {
      PushIsQuiet(cfg, s, ops[0]);
    } else if op == PULL {
      PullIsQuiet(cfg, s, Lo(ops[0]));
    }
  }

  lemma TwoBounds(w: word)
    ensures -0x8000 <= Two(w) < 0x8000
  {
  }

  lemma PushIsQuiet(cfg: Config, s: State, v: word)
    requires Inv(cfg, s)
    ensures Push(cfg, s, v).state.screen == s.screen
  {
    hide Inv;
  }

  lemma PullIsQuiet(cfg: Config, s: State, number: byte)
    requires Inv(cfg, s)
    ensures Pulled(cfg, s, number).state.screen == s.screen
  {
    hide Inv, Pop, IndirectWritten, Beneath;
    ReadIsQuiet(cfg, s, 0);
    var r := Pop(cfg, s);
    if r.Done? {
      WriteIsQuiet(cfg, r.state, number, r.value);
    }
  }

  lemma ShownVar(cfg: Config, s: State, inst: Instr, ops: seq<word>)
    requires Inv(cfg, s) && s.pc <= |cfg.story.image| && |ops| <= MAX_OPERANDS && inst.raw.op.count == OpVar
    requires ExecutedVar(cfg, s, inst, ops).Done?
    ensures ScreenStep(cfg, s, inst, ops, ExecutedVar(cfg, s, inst, ops).state.screen)
  {
    hide Inv, Beneath, Called, StreamChosen, LineTaken, PlainVar, Shows;
    var op := inst.raw.op;
    ShowsNothing(s.screen);
    if op == CALL {
      var store := match inst.raw.store case Some(number) => number case None => 0;
      CallIsQuiet(cfg, s, ops[0], ops[1..], s.pc, store, inst.raw.store.Some?);
    } else if op == OUTPUT_STREAM {
      StreamShown(cfg, s, inst, ops);
    } else if op == SREAD {
      LineIsQuiet(cfg, s, ops);
    } else {
      PlainShown(cfg, s, inst, ops);
    }
  }

  // ----- a step, and a call -----

  /** A step changes the screen as its instruction says. */
  lemma StepShows(cfg: Config, s: State, inst: Instr, ops: seq<word>, s1: State)
    requires Executes(cfg, s, inst, ops, s1) && Stepped(cfg, s).Done?
    ensures s1.screen == s.screen && s1.mem == s.mem
    ensures ScreenStep(cfg, s1, inst, ops, Stepped(cfg, s).state.screen)
  {
    hide Inv, Stepped, Decoded, OperandOf, CanTake, Beneath, FollowsAs, ScreenStep, Executed0, Executed1, Executed2, ExecutedVar;
    hide Encoder.HeadFits, Encoder.HeadIn;
    StepDispatches(cfg, s, inst, ops, s1);
    match inst.raw.op.count {
      case Op0 =>
        NoOperands(s.mem, cfg.story.abbreviations, s.pc, inst);
        Shown0(cfg, s1, inst, ops);
      case Op1 => Shown1(cfg, s1, inst, ops);
      case Op2 => Shown2(cfg, s1, inst, ops);
      case OpVar => ShownVar(cfg, s1, inst, ops);
    }
  }

  /** The instruction a machine stands on and the values of its operands. */
  function Standing(cfg: Config, s: State): Option<Instr> {
    match Decoded(s.mem, cfg.story.abbreviations, s.pc)
    case Ok(inst) => Some(inst)
    case Err(_) => None
  }

  function Operands(cfg: Config, s: State, inst: Instr): seq<word> {
    var os := inst.raw.operands;
    seq<word>(|os|, i requires 0 <= i < |os| => OperandOf(cfg, s, os, i))
  }

  /** The text the next step sends. */
  function Sends(cfg: Config, s: State): Str {
    match Standing(cfg, s)
    case None => []
    case Some(inst) => TextSent(cfg, s, inst, Operands(cfg, s, inst))
  }

  predicate StandsOn(cfg: Config, s: State, op: Opcode) {
    Standing(cfg, s).Some? && Standing(cfg, s).value.raw.op == op
  }

  /** What a run of steps printed to the lower window since the story last began: at each step
      the text sent, if the window is selected, stream 1 is on and no table is open. */
  function LowerText(cfg: Config, trace: seq<State>): Str
    requires trace != []
    decreases |trace|
  {
    if |trace| == 1 then []
    else
      var s := trace[|trace| - 2];
      if StandsOn(cfg, s, Opcode(Op0, 7)) then []
      else LowerText(cfg, trace[..|trace| - 1]) +
           (if s.screen.window == 0 && s.screen.stream1 && s.screen.tables == [] then Sends(cfg, s) else [])
  }

  /** The same for the upper window, since it was last split. */
  function UpperText(cfg: Config, trace: seq<State>): Str
    requires trace != []
    decreases |trace|
  {
    if |trace| == 1 then []
    else
      var s := trace[|trace| - 2];
      if StandsOn(cfg, s, Opcode(Op0, 7)) || StandsOn(cfg, s, Opcode(OpVar, 10)) then []
      else UpperText(cfg, trace[..|trace| - 1]) +
           (if s.screen.window == 1 && s.screen.stream1 && s.screen.tables == [] then Sends(cfg, s) else [])
  }

  lemma OperandsAre(cfg: Config, s: State, inst: Instr, ops: seq<word>, s1: State)
    requires Executes(cfg, s, inst, ops, s1)
    ensures Operands(cfg, s, inst) == ops && Standing(cfg, s) == Some(inst)
  {
    hide Inv, Decoded, OperandOf, CanTake, Taking;
  }

  lemma SameTexts(cfg: Config, s: State, s1: State, inst: Instr, ops: seq<word>)
    requires s1.mem == s.mem
    ensures TextSent(cfg, s1, inst, ops) == TextSent(cfg, s, inst, ops)
  {
    hide StringAt, Properties.ShortName, Decimal;
  }

  /** What one step adds to the windows. */
  lemma StepAdds(cfg: Config, s: State)
    requires Inv(cfg, s) && Stepped(cfg, s).Done?
    ensures var before, after := s.screen, Stepped(cfg, s).state.screen;
            && after.lower == (if StandsOn(cfg, s, Opcode(Op0, 7)) then [] else
                               before.lower +
                               (if before.window == 0 && before.stream1 && before.tables == [] then Sends(cfg, s) else []))
            && after.upper == (if StandsOn(cfg, s, Opcode(Op0, 7)) || StandsOn(cfg, s, Opcode(OpVar, 10)) then [] else
                               before.upper +
                               (if before.window == 1 && before.stream1 && before.tables == [] then Sends(cfg, s) else []))
  {
    hide Inv, Stepped, TextSent, Standing, Operands, Executes;
    if Stepped(cfg, s).value == Suspend {
      SuspensionAdds(cfg, s);
    } else {
      var inst, ops, s1 := StepsExecute(cfg, s);
      StepShows(cfg, s, inst, ops, s1);
      OperandsAre(cfg, s, inst, ops, s1);
      SameTexts(cfg, s, s1, inst, ops);
      ScreenSteps(cfg, s1, inst, ops, Stepped(cfg, s).state.screen);
    }
  }

  lemma ScreenSteps(cfg: Config, s: State, inst: Instr, ops: seq<word>, after: Screen)
    requires ScreenStep(cfg, s, inst, ops, after)
    ensures var before, op, sent := s.screen, inst.raw.op, TextSent(cfg, s, inst, ops);
            && after.lower == (if op == Opcode(Op0, 7) then [] else before.lower + Seen(before, 0, sent))
            && after.upper == (if op == Opcode(Op0, 7) || op == Opcode(OpVar, 10) then [] else before.upper + Seen(before, 1, sent))
  {
    var op := inst.raw.op;
    if op in {Opcode(OpVar, 10), Opcode(OpVar, 11), Opcode(OpVar, 19)} {
      assert TextSent(cfg, s, inst, ops) == [];
    }
    hide TextSent;
  }

  lemma SuspensionAdds(cfg: Config, s: State)
    requires Inv(cfg, s) && Stepped(cfg, s).Done? && Stepped(cfg, s).value == Suspend
    ensures Stepped(cfg, s).state.screen == s.screen && Sends(cfg, s) == []
    ensures !StandsOn(cfg, s, Opcode(Op0, 7)) && !StandsOn(cfg, s, Opcode(OpVar, 10))
  {
    hide Inv, Stepped, Decoded, StatusUpdated, Operands;
    SuspendsAtRead(cfg, s, Stepped(cfg, s).state);
  }

  lemma {:induction false} TraceEnds(cfg: Config, trace: seq<State>)
    requires Trace(cfg, trace) && |trace| > 1
    ensures Trace(cfg, trace[..|trace| - 1]) && Inv(cfg, trace[|trace| - 2])
    ensures Stepped(cfg, trace[|trace| - 2]) == Done(trace[|trace| - 1], Continue)
    decreases |trace|
  {
    hide Inv, Stepped;
    var front := trace[..|trace| - 1];
    if |trace| > 2 {
      TraceEnds(cfg, trace[1..]);
      assert front[1..] == trace[1..][..|trace| - 2];
    }
  }

  /** Over the steps of a call that began with clear windows. */
  lemma {:induction false} TraceShows(cfg: Config, trace: seq<State>)
    requires Trace(cfg, trace) && trace[0].screen.lower == [] && trace[0].screen.upper == []
    ensures trace[|trace| - 1].screen.lower == LowerText(cfg, trace)
    ensures trace[|trace| - 1].screen.upper == UpperText(cfg, trace)
    decreases |trace|
  {
    hide Inv, Stepped, Sends, Standing;
    if |trace| > 1 {
      TraceEnds(cfg, trace);
      TraceShows(cfg, trace[..|trace| - 1]);
      StepAdds(cfg, trace[|trace| - 2]);
    }
  }

  /** The states of a call that ends without an error, from the one its loop begins in to the
      one it is left in: the windows hold what its steps printed. */
  lemma CallShows(cfg: Config, s: State) returns (states: seq<State>)
    requires Inv(cfg, s) && Looped(cfg, s, 0).Done? && s.screen.lower == [] && s.screen.upper == []
    ensures |states| >= 2 && states[0] == s && states[|states| - 1] == Looped(cfg, s, 0).state
    ensures Trace(cfg, states[..|states| - 1]) && Inv(cfg, states[|states| - 2])
    ensures Stepped(cfg, states[|states| - 2]) == Looped(cfg, s, 0)
    ensures Looped(cfg, s, 0).state.screen.lower == LowerText(cfg, states)
    ensures Looped(cfg, s, 0).state.screen.upper == UpperText(cfg, states)
  {
    hide Inv, Stepped, Looped, Sends, Standing;
    var trace := LoopIsBounded(cfg, s, 0);
    states := trace + [Looped(cfg, s, 0).state];
    assert states[..|states| - 1] == trace;
    hide Trace;
    TraceShows(cfg, trace);
    StepAdds(cfg, trace[|trace| - 1]);
  }

  // ----- what a call returns -----

  /** The output, upper window and status line of an answer, with whether the story waits. */
  predicate Answers(outcome: Outcome, waits: bool, output: Str, upper: Str, status: StatusLine) {
    match outcome
    case Waiting(o, u, line, _) => waits && o == output && u == upper && line == status
    case Halted(o, u, line) => !waits && o == output && u == upper && line == status
  }

  /** Run, when it answers: the output is what the steps of the call printed to the lower
      window, the upper window what they printed to it since it was last split, and the status
      line the machine's; it waits exactly when the call ended at an input boundary. */
  lemma TurnAnswers(cfg: Config, s: State, line: Str, supply: seq<Entropy>) returns (states: seq<State>)
    requires Inv(cfg, s) && Reported(cfg, TurnRun(cfg, s, line, supply)).Ok?
    ensures |states| >= 2 && states[0] == TurnBegun(s, line, supply)
    ensures Trace(cfg, states[..|states| - 1]) && Inv(cfg, states[|states| - 2])
    ensures var last := Stepped(cfg, states[|states| - 2]);
            && last.Done? && last.value != Continue && last.state == states[|states| - 1]
            && Answers(Reported(cfg, TurnRun(cfg, s, line, supply)).value, last.value == Suspend,
                       LowerText(cfg, states), UpperText(cfg, states), last.state.status)
  {
    hide Inv, Stepped, Looped, Snapshot, Trace, LowerText, UpperText;
    Equivalence.TurnInv(cfg, s, line, supply);
    var s0 := TurnBegun(s, line, supply);
    states := CallShows(cfg, s0);
    EndsElsewhere(cfg, s0, 0);
  }

  lemma {:induction false} EndsElsewhere(cfg: Config, s: State, n: nat)
    requires Inv(cfg, s) && n <= cfg.limit && Looped(cfg, s, n).Done?
    ensures Looped(cfg, s, n).value != Continue
    decreases cfg.limit - n
  {
    hide Inv, Stepped;
    var r := Stepped(cfg, s);
    if r.value == Continue {
      EndsElsewhere(cfg, r.state, n + 1);
    }
  }

  /** Start, likewise. */
  lemma StartAnswers(cfg: Config, s: State, supply: seq<Entropy>) returns (states: seq<State>)
    requires Inv(cfg, s) && Reported(cfg, StartRun(cfg, s, supply)).Ok?
    ensures |states| >= 2 && states[0] == s.(started := true, input := None, supply := supply, screen := Cleared(s.screen))
    ensures Trace(cfg, states[..|states| - 1]) && Inv(cfg, states[|states| - 2])
    ensures var last := Stepped(cfg, states[|states| - 2]);
            && last.Done? && last.value != Continue && last.state == states[|states| - 1]
            && Answers(Reported(cfg, StartRun(cfg, s, supply)).value, last.value == Suspend,
                       LowerText(cfg, states), UpperText(cfg, states), last.state.status)
  {
    hide Inv, Stepped, Looped, Snapshot, Trace, LowerText, UpperText;
    var s1 := s.(started := true, input := None, supply := supply);
    FlagParts(cfg, s, s1);
    ClearedParts(cfg, s1, s1.(screen := Cleared(s1.screen)));
    states := CallShows(cfg, s1.(screen := Cleared(s1.screen)));
    EndsElsewhere(cfg, s1.(screen := Cleared(s1.screen)), 0);
  }

  /** The status line the story's first three global variables call for: the name of an object,
      and a score and a number of turns, or hours and minutes when bit 1 of Flags 1 is set. */
  function StatusSaid(cfg: Config, s: State): StatusLine {
    var item, second, third := ContentsOf(cfg, s, 16, 0), ContentsOf(cfg, s, 17, 0), ContentsOf(cfg, s, 18, 0);
    var name := TextOr(Properties.ShortName(s.mem, cfg.story.abbreviations, cfg.story.objectTable, item));
    if cfg.story.flags1 / 2 % 2 == 1 then StatusLine(true, item, name, true, 0, 0, second % 256, third % 256)
    else StatusLine(true, item, name, false, Two(second), Two(third), 0, 0)
  }

  lemma GlobalIs(cfg: Config, s: State, number: byte)
    requires Inv(cfg, s) && number >= 16
    ensures GlobalRead(cfg, s, number) == Ok(ContentsOf(cfg, s, number, 0))
  {
    GlobalPlace(cfg, s, number);
    hide Inv;
  }

  /** show_status and the input boundary show it; a machine that waits for input shows the one
      its memory calls for. */
  lemma StatusIsSaid(cfg: Config, s: State)
    requires Inv(cfg, s)
    ensures StatusUpdated(cfg, s) == Done(s.(status := StatusSaid(cfg, s)), ())
    ensures AtRead(cfg, s) ==> s.status == StatusSaid(cfg, s)
  {
    GlobalIs(cfg, s, 16);
    GlobalIs(cfg, s, 17);
    GlobalIs(cfg, s, 18);
    TwoIsSigned(ContentsOf(cfg, s, 17, 0));
    TwoIsSigned(ContentsOf(cfg, s, 18, 0));
    TimeBit(cfg.story.flags1);
    hide Inv, Properties.ShortName, Bit, Signed, Two, Decoded, ContentsOf, GlobalRead;
  }

  lemma TimeBit(flags: byte)
    ensures Bit(flags, 1) <==> flags / 2 % 2 == 1
  {
  }
}
