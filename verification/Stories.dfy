/** Two story files that load, and whose sessions show that both conditions on sessions with
    and without restoring matter: one waits for input inside the header, the other changes the
    interpreter's own header bits. */
module Stories {
  import opened Words
  import opened Memory
  import opened Text
  import opened Opcodes
  import opened Decoder
  import Encoder
  import opened Dictionary
  import Input
  import opened Random
  import opened Output
  import opened StoryFile
  import opened States
  import opened Routines
  import opened Instructions
  import opened Execution
  import opened Snapshots
  import opened Saved
  import opened Equivalence
  import opened Sessions

  const SIZE := 0x400
  const STATIC_BASE := 0x340
  const DICTIONARY := 0x3f0

  /** Where the two stories begin. */
  const JUMPER: byte := 0x40
  const WRITER: byte := 0x48

  /** A file of 1024 bytes whose first instruction is at `entry`. At $12, in the serial number,
      stands an sread of two large constants; at $40 a jump there; at $48 a storeb of 0 to
      address 1, and then an sread with text buffer 1 and parse buffer $ffff. */
  function ByteAt(entry: byte, i: nat): byte {
    if i < 0x12 then HeaderByte(entry, i)
    else if i == 0x12 then 0xe4
    else if i == 0x13 then 0x0f
    else if 0x40 <= i < 0x43 then [0x8c, 0xff, 0xd1][i - 0x40]
    else if 0x48 <= i < 0x4d then [0xe2, 0x57, 0x00, 0x01, 0x00][i - 0x48]
    else if 0x4d <= i < 0x52 then [0xe4, 0x4f, 0x01, 0xff, 0xff][i - 0x4d]
    else if i == DICTIONARY + 1 then 7
    else 0
  }

  /** The version, and the addresses of high memory, the first instruction, the dictionary,
      the objects, the globals and static memory. */
  function HeaderByte(entry: byte, i: nat): byte
    requires i < 0x12
  {
    [3, 0, 0, 0, 0x04, 0x00, 0x00, entry, 0x03, 0xf0, 0x01, 0x00, 0x01, 0x50, 0x03, 0x40, 0, 0][i]
  }

  function File(entry: byte): (data: seq<byte>)
    ensures |data| == SIZE && forall i :: 0 <= i < SIZE ==> data[i] == ByteAt(entry, i)
  {
    seq<byte>(SIZE, i requires 0 <= i < SIZE => ByteAt(entry, i))
  }

  lemma FileFields(entry: byte, data: seq<byte>)
    requires data == File(entry)
    ensures ImageLength(data) == SIZE && Field(data, HDR_STATIC_BASE) == STATIC_BASE && Field(data, HDR_HIGH_BASE) == SIZE
    ensures Field(data, HDR_INITIAL_PC) == entry && Field(data, HDR_DICTIONARY) == DICTIONARY
    ensures Field(data, HDR_OBJECT_TABLE) == 0x100 && Field(data, HDR_GLOBALS) == 0x150 && Field(data, HDR_ABBREVIATIONS) == 0
    ensures data[HDR_VERSION] == VERSION_3
  {
  }

  lemma FileDictionary(entry: byte, m: Mem)
    requires m.Size() == SIZE && forall a: nat :: DICTIONARY <= a < SIZE ==> m.Get(a) == ByteAt(entry, a)
    ensures DictionaryAt(m, DICTIONARY).Ok?
  {
    hide Slice;
    assert m.Get(DICTIONARY) == 0 && m.Get(DICTIONARY + 1) == 7 && m.Get(DICTIONARY + 2) == 0 && m.Get(DICTIONARY + 3) == 0;
  }

  /** Both load. */
  lemma FilesLoad(entry: byte)
    requires entry == JUMPER || entry == WRITER
    ensures IsStory(File(entry)) && StoryOf(File(entry)).initialPC == entry && StoryOf(File(entry)).image == File(entry)
  {
    hide DictionaryAt, Checksum, Field;
    var data := File(entry);
    FileFields(entry, data);
    assert data[..SIZE] == data;
    FileDictionary(entry, Mem([], data));
  }

  // ----- their instructions -----

  /** The bytes of one of the two stories, but for the header bits an interpreter sets. */
  ghost predicate HoldsCode(m: Mem, entry: byte) {
    && m.Size() == SIZE && |m.dynamic| == STATIC_BASE
    && forall a: nat :: a < SIZE && a !in {HDR_FLAGS1, HDR_FLAGS2, HDR_FLAGS2 + 1} ==> m.Get(a) == ByteAt(entry, a)
  }

  lemma HeaderElsewhere(m: Mem, entry: byte)
    requires HoldsCode(m, entry)
    ensures HoldsCode(HeaderSet(m).state, entry)
  {
    hide OwnFlags1, OwnFlags2, Hi, Lo, Join, ByteAt;
    HeaderBytes(m);
  }

  const JUMP_BACK := Raw(Short, JUMP, [Operand(LargeConstant, 0xffd1)], None, None, None)
  const STORE_FLAGS := Raw(Variable, STOREB,
                           [Operand(SmallConstant, 0), Operand(SmallConstant, 1), Operand(SmallConstant, 0)], None, None, None)
  const READ_FLAGS := Raw(Variable, SREAD, [Operand(SmallConstant, 1), Operand(LargeConstant, 0xffff)], None, None, None)
  const READ_ZERO := Raw(Variable, SREAD, [Operand(LargeConstant, 0), Operand(LargeConstant, 0)], None, None, None)

  lemma Decodes(m: Mem, entry: byte, abbrevs: nat, addr: nat, raw: Raw, bytes: seq<byte>)
    requires HoldsCode(m, entry) && 0x12 <= addr && addr + |bytes| <= SIZE
    requires forall k :: 0 <= k < |bytes| ==> bytes[k] == ByteAt(entry, addr + k)
    requires Encoder.WellFormed(raw) && raw.words.None? && Encoder.Print(raw) == bytes
    ensures Decoded(m, abbrevs, addr) == Ok(Instr(addr, addr + |bytes|, raw, []))
  {
    hide ByteAt, Encoder.Print, Encoder.WellFormed, Parse, Mem.Get;
    forall k | 0 <= k < |bytes| ensures m.Get(addr + k) == bytes[k] {
      assert m.Get(addr + k) == ByteAt(entry, addr + k);
    }
    Encoder.DecodePrinted(m, addr, raw);
  }

  lemma OneOperand(a: Operand)
    ensures Encoder.PrintOperands([a]) == Encoder.PrintOperand(a) && Encoder.KindsIn([a]) == [a.kind]
  {
    hide Encoder.PrintOperand;
    assert [a][1..] == [];
    assert Encoder.PrintOperands([a][1..]) == [] && Encoder.KindsIn([a][1..]) == [];
  }

  lemma AnotherOperand(a: Operand, rest: seq<Operand>)
    ensures Encoder.PrintOperands([a] + rest) == Encoder.PrintOperand(a) + Encoder.PrintOperands(rest)
    ensures Encoder.KindsIn([a] + rest) == [a.kind] + Encoder.KindsIn(rest)
  {
    hide Encoder.PrintOperand;
    assert ([a] + rest)[1..] == rest;
  }

  lemma JumpDecodes(m: Mem, entry: byte, abbrevs: nat)
    requires HoldsCode(m, entry)
    ensures Decoded(m, abbrevs, JUMPER) == Ok(Instr(JUMPER, JUMPER + 3, JUMP_BACK, []))
  {
    OneOperand(JUMP_BACK.operands[0]);
    assert Encoder.Print(JUMP_BACK) == [0x8c, 0xff, 0xd1];
    hide HoldsCode, Decoded, Encoder.Print;
    Decodes(m, entry, abbrevs, JUMPER, JUMP_BACK, [0x8c, 0xff, 0xd1]);
  }

  lemma StoreDecodes(m: Mem, entry: byte, abbrevs: nat)
    requires HoldsCode(m, entry)
    ensures Decoded(m, abbrevs, WRITER) == Ok(Instr(WRITER, WRITER + 5, STORE_FLAGS, []))
  {
    var os := STORE_FLAGS.operands;
    OneOperand(os[2]);
    AnotherOperand(os[1], [os[2]]);
    AnotherOperand(os[0], [os[1], os[2]]);
    assert os == [os[0]] + ([os[1]] + [os[2]]);
    assert Encoder.Print(STORE_FLAGS) == [0xe2, 0x57, 0x00, 0x01, 0x00];
    hide HoldsCode, Decoded, Encoder.Print;
    Decodes(m, entry, abbrevs, WRITER, STORE_FLAGS, [0xe2, 0x57, 0x00, 0x01, 0x00]);
  }

  lemma ReadFlagsDecodes(m: Mem, entry: byte, abbrevs: nat)
    requires HoldsCode(m, entry)
    ensures Decoded(m, abbrevs, WRITER + 5) == Ok(Instr(WRITER + 5, WRITER + 10, READ_FLAGS, []))
  {
    var os := READ_FLAGS.operands;
    OneOperand(os[1]);
    AnotherOperand(os[0], [os[1]]);
    assert os == [os[0]] + [os[1]];
    assert Encoder.Print(READ_FLAGS) == [0xe4, 0x4f, 0x01, 0xff, 0xff];
    hide HoldsCode, Decoded, Encoder.Print;
    Decodes(m, entry, abbrevs, WRITER + 5, READ_FLAGS, [0xe4, 0x4f, 0x01, 0xff, 0xff]);
  }

  lemma ReadZeroDecodes(m: Mem, entry: byte, abbrevs: nat)
    requires HoldsCode(m, entry)
    ensures Decoded(m, abbrevs, 0x12) == Ok(Instr(0x12, 0x18, READ_ZERO, []))
  {
    var os := READ_ZERO.operands;
    OneOperand(os[1]);
    AnotherOperand(os[0], [os[1]]);
    assert os == [os[0]] + [os[1]];
    assert Encoder.Print(READ_ZERO) == [0xe4, 0x0f, 0, 0, 0, 0];
    hide HoldsCode, Decoded, Encoder.Print;
    Decodes(m, entry, abbrevs, 0x12, READ_ZERO, [0xe4, 0x0f, 0, 0, 0, 0]);
  }

  // ----- their steps -----

  /** Constant operands evaluate to themselves. */
  lemma {:induction false} ConstantsEvaluate(cfg: Config, s: State, os: seq<Operand>, values: seq<word>)
    requires Inv(cfg, s) && |values| == |os|
    requires forall i :: 0 <= i < |os| ==> os[i].kind != VariableNumber && os[i].value == values[i]
    ensures OperandValues(cfg, s, os) == Done(s, values)
    decreases |os|
  {
    hide Inv, Beneath;
    if os != [] {
      ConstantsEvaluate(cfg, s, os[1..], values[1..]);
      assert OperandValue(cfg, s, os[0]) == Done(s, values[0]);
      assert [values[0]] + values[1..] == values;
    }
  }

  lemma JumpExecutes(cfg: Config, s: State, inst: Instr, a: word, target: nat)
    requires Inv(cfg, s) && s.pc <= |cfg.story.image|
    requires inst.raw.op == JUMP && inst.raw.operands == [Operand(LargeConstant, a)]
    requires OffsetAddress(inst.next, Signed(a) - BRANCH_BIAS) == Ok(target)
    ensures Executed(cfg, s, inst) == Done(s.(pc := target), Continue)
  {
    hide Inv, Beneath, OffsetAddress, Signed, OperandValues, Proceeds, Returned, Delivered, Suspended;
    hide Executed0, Executed2, ExecutedVar, Object1, Branched, Adjusted, TextAt, Stored, IndirectRead, Returning;
    ConstantsEvaluate(cfg, s, inst.raw.operands, [a]);
  }

  lemma ReadSuspends(cfg: Config, s: State, inst: Instr)
    requires Inv(cfg, s) && Decoded(s.mem, cfg.story.abbreviations, s.pc) == Ok(inst)
    requires inst.raw.op == SREAD && s.input.None?
    ensures Stepped(cfg, s).Done? && Stepped(cfg, s).value == Suspend
  {
    hide Inv, Decoded, Beneath, Stepped, StatusUpdated, Proceeds, Dispatched, OperandValues;
    StepExecutes(cfg, s, inst);
    var s1 := Jumped(cfg, s, inst.next);
    var line := StatusDependsOnMemory(cfg, s1, s1);
  }

  lemma StoreExecutes(cfg: Config, s: State, inst: Instr)
    requires Inv(cfg, s) && s.pc <= |cfg.story.image| && inst.raw == STORE_FLAGS && |s.mem.dynamic| > 1
    ensures Executed(cfg, s, inst) == Done(s.(mem := s.mem.Put(1, 0)), Continue)
  {
    hide Inv, Beneath, OperandValues, Proceeds, Suspended, Executed0, Executed1, Executed2, LineTaken, StreamChosen, Called;
    ConstantsEvaluate(cfg, s, inst.raw.operands, [0, 1, 0]);
    assert ByteStored(s.mem, 0, 1, 0) == Done(s.mem.Put(1, 0), ());
  }

  /** The machine when Start begins its loop. */
  lemma Begins(cfg: Config, opening: Turn, entry: byte) returns (s: State)
    requires cfg.Valid() && Seedable(cfg, opening.creating)
    requires cfg.story.image == File(entry) && cfg.story.staticBase == STATIC_BASE && cfg.story.initialPC == entry
    ensures Inv(cfg, s) && Opening(cfg, opening) == Looped(cfg, s, 0)
    ensures s.pc == entry && s.input.None? && s.frames == [BaseFrame(cfg.story)] && HoldsCode(s.mem, entry)
  {
    hide Inv, Looped, HeaderSet, HoldsCode;
    CreatedExactly(cfg, opening.creating);
    var s0 := Created(cfg, opening.creating).state;
    InitialCode(cfg.story, entry);
    HeaderElsewhere(InitialMem(cfg.story), entry);
    var s1 := s0.(started := true, input := None, supply := opening.running);
    FlagParts(cfg, s0, s1);
    s := s1.(screen := Cleared(s1.screen));
    ClearedParts(cfg, s1, s);
  }

  lemma InitialCode(story: Story, entry: byte)
    requires story.Valid() && story.image == File(entry) && story.staticBase == STATIC_BASE
    ensures HoldsCode(InitialMem(story), entry)
  {
    hide ByteAt;
  }

  // ----- waiting inside the header -----

  /** A run of two steps, the second of which suspends. */
  lemma TwoSteps(cfg: Config, s: State, s1: State, inst: Instr)
    requires Inv(cfg, s) && cfg.limit >= 2 && Stepped(cfg, s) == Done(s1, Continue) && s1.input.None?
    requires Inv(cfg, s1) && Decoded(s1.mem, cfg.story.abbreviations, s1.pc) == Ok(inst) && inst.raw.op == SREAD
    ensures var r := Looped(cfg, s, 0); r.Done? && r.value == Suspend && r.state == s1.(status := r.state.status)
  {
    hide Inv, Stepped, Decoded, AtRead;
    ReadSuspends(cfg, s1, inst);
    SuspendsAtRead(cfg, s1, Stepped(cfg, s1).state);
    assert Looped(cfg, s1, 1) == Done(Stepped(cfg, s1).state, Suspend);
  }

  /** The first story is left waiting at $12. */
  lemma JumperWaits(cfg: Config, opening: Turn) returns (u: State)
    requires cfg.Valid() && Seedable(cfg, opening.creating) && cfg.limit >= 2
    requires cfg.story == StoryOf(File(JUMPER))
    ensures Opening(cfg, opening) == Done(u, Suspend) && u.pc == 0x12
  {
    hide Inv, Stepped, Executed, Looped, Opening, HoldsCode, Decoded, File, StoryOf;
    StoryIs(JUMPER, cfg.story);
    var s := Begins(cfg, opening, JUMPER);
    JumpDecodes(s.mem, JUMPER, cfg.story.abbreviations);
    var inst := Instr(JUMPER, JUMPER + 3, JUMP_BACK, []);
    StepExecutes(cfg, s, inst);
    JumpExecutes(cfg, Jumped(cfg, s, inst.next), inst, 0xffd1, 0x12);
    ReadZeroDecodes(s.mem, JUMPER, cfg.story.abbreviations);
    TwoSteps(cfg, s, s.(pc := 0x12), Instr(0x12, 0x18, READ_ZERO, []));
    u := Looped(cfg, s, 0).state;
  }

  lemma StoryIs(entry: byte, story: Story)
    requires (entry == JUMPER || entry == WRITER) && story == StoryOf(File(entry))
    ensures story.image == File(entry) && story.staticBase == STATIC_BASE && story.initialPC == entry
    ensures story.dictionary == DICTIONARY
  {
    hide Field, File, Checksum;
    FilesLoad(entry);
    FileFields(entry, File(entry));
  }

  /** A file that loads, and whose sessions with and without restoring always differ, after
      the first command: it waits inside the header. */
  lemma HeaderWaitIsLost(cfg: Config, opening: Turn, turns: seq<Turn>, keeping: Keeping)
    requires cfg.Valid() && Seedable(cfg, opening.creating) && cfg.limit >= 2
    requires cfg.story == StoryOf(File(JUMPER))
    requires turns != [] && Seedable(cfg, turns[0].creating)
    ensures !WaitingInside(cfg, opening, turns, keeping)
    ensures RequestSession(cfg, opening, turns) != RetainedSession(cfg, opening, turns, keeping)
  {
    hide Inv, Opening, Snapshot, OneTurn, Request, File, StoryOf;
    var u := JumperWaits(cfg, opening);
    OpeningInv(cfg, opening);
    OpeningSuspends(cfg, opening);
    OpeningFits(cfg, opening);
    FitsSnapshot(cfg, u);
    var outcome := Answer(Reported(cfg, Opening(cfg, opening)));
    assert GoesOn(outcome) && !Inside(cfg, u);
    RequestRefused(cfg, u, outcome.value.state, turns[0], keeping);
    assert RequestSession(cfg, opening, turns)[1] == Rejected(InvalidState);
    assert RetainedSession(cfg, opening, turns, keeping)[1] == Answer(Reported(cfg, OneTurn(cfg, u, turns[0], keeping)));
  }

  // ----- changing the header -----

  /** The second story is left waiting behind the header, with Flags 1 zero. */
  lemma WriterWaits(cfg: Config, opening: Turn) returns (u: State)
    requires cfg.Valid() && Seedable(cfg, opening.creating) && cfg.limit >= 2
    requires cfg.story == StoryOf(File(WRITER))
    ensures Opening(cfg, opening) == Done(u, Suspend) && u.pc == WRITER + 5 && u.frames == [BaseFrame(cfg.story)]
    ensures HoldsCode(u.mem, WRITER) && u.mem.Get(HDR_FLAGS1) == 0
  {
    hide Inv, Stepped, Executed, Looped, Opening, HoldsCode, Decoded, File, StoryOf;
    StoryIs(WRITER, cfg.story);
    var s := Begins(cfg, opening, WRITER);
    StoreDecodes(s.mem, WRITER, cfg.story.abbreviations);
    var inst := Instr(WRITER, WRITER + 5, STORE_FLAGS, []);
    StepExecutes(cfg, s, inst);
    FlagsWritten(s.mem);
    StoreExecutes(cfg, Jumped(cfg, s, inst.next), inst);
    var s1 := s.(pc := WRITER + 5, mem := s.mem.Put(HDR_FLAGS1, 0));
    ReadFlagsDecodes(s1.mem, WRITER, cfg.story.abbreviations);
    TwoSteps(cfg, s, s1, Instr(WRITER + 5, WRITER + 10, READ_FLAGS, []));
    u := Looped(cfg, s, 0).state;
  }

  lemma FlagsWritten(m: Mem)
    requires HoldsCode(m, WRITER)
    ensures |m.dynamic| > 1
    ensures HoldsCode(m.Put(HDR_FLAGS1, 0), WRITER) && m.Put(HDR_FLAGS1, 0).Get(HDR_FLAGS1) == 0
  {
    hide ByteAt;
  }

  /** Its sread fails, in one way or another: Flags 1 is the size of its text buffer. */
  lemma FlagsReadFails(cfg: Config, m: Mem, line: Str)
    requires HoldsCode(m, WRITER)
    ensures var r := Input.LineRead(m, DICTIONARY, 1, 0xffff, line, cfg.lib.lower);
            r.Fail? && r.error == if m.Get(HDR_FLAGS1) < 2 then ExecutionFault else MemoryAccess
  {
    hide DictionaryAt, Input.Typed, ByteAt, Input.WithBytes;
    var stored := Input.LineStored(m, 1, line, cfg.lib.lower);
    if m.Get(HDR_FLAGS1) >= 2 {
      assert stored.Done?;
      assert forall a: nat :: DICTIONARY <= a < SIZE ==> stored.state.Get(a) == m.Get(a);
      FileDictionary(WRITER, stored.state);
    }
  }

  /** So the next turn fails, with an error that depends on Flags 1. */
  lemma WriterTurnFails(cfg: Config, s: State)
    requires Inv(cfg, s) && cfg.limit >= 1 && s.pc == WRITER + 5 && HoldsCode(s.mem, WRITER)
    requires s.input.Some? && cfg.story.dictionary == DICTIONARY
    ensures var r := Looped(cfg, s, 0);
            r.Fail? && r.error == if s.mem.Get(HDR_FLAGS1) < 2 then ExecutionFault else MemoryAccess
  {
    hide Inv, Stepped, Executed, HoldsCode, Decoded, Mem.Get;
    ReadFlagsDecodes(s.mem, WRITER, cfg.story.abbreviations);
    var inst := Instr(WRITER + 5, WRITER + 10, READ_FLAGS, []);
    StepExecutes(cfg, s, inst);
    ReadFails(cfg, Jumped(cfg, s, inst.next), inst);
  }

  lemma ReadFails(cfg: Config, s: State, inst: Instr)
    requires Inv(cfg, s) && s.pc <= |cfg.story.image| && inst.raw == READ_FLAGS
    requires HoldsCode(s.mem, WRITER) && s.input.Some? && cfg.story.dictionary == DICTIONARY
    ensures var r := Executed(cfg, s, inst);
            r.Fail? && r.error == if s.mem.Get(HDR_FLAGS1) < 2 then ExecutionFault else MemoryAccess
  {
    hide Inv, Beneath, HoldsCode, OperandValues, Proceeds, Suspended, Dispatched, Mem.Get, Input.LineStored, Input.Tokenised, StatusUpdated;
    ConstantsEvaluate(cfg, s, inst.raw.operands, [1, 0xffff]);
    ReadDispatched(cfg, s, inst, [1, 0xffff]);
    FlagsReadFails(cfg, s.mem, s.input.value);
    var line := StatusDependsOnMemory(cfg, s, s);
  }

  lemma SmallHasNoBit(f: nat)
    requires f < 2
    ensures !Bit(f, 5)
  {
    assert Bit(f, 5) == Bit(f / 2, 4) == Bit(0, 3) == Bit(0, 2) == Bit(0, 1) == Bit(0, 0);
  }

  lemma OwnFlagsLarge(flags: byte)
    ensures OwnFlags1(flags) >= 2
  {
    hide OwnFlags1, Bit;
    OwnTwice(flags);
    OwnFlagsExactly(OwnFlags1(flags));
    if OwnFlags1(flags) < 2 {
      SmallHasNoBit(OwnFlags1(flags));
    }
  }

  /** A file that loads, and whose sessions with and without restoring always differ after the
      first command, although it waits inside the story: it has changed the header. */
  lemma HeaderChangeIsLost(cfg: Config, opening: Turn, turns: seq<Turn>)
    requires cfg.Valid() && Seedable(cfg, opening.creating) && cfg.limit >= 2
    requires cfg.story == StoryOf(File(WRITER))
    requires turns != [] && Seedable(cfg, turns[0].creating)
    ensures WaitingInside(cfg, opening, turns, AsLeft)
    ensures RequestSession(cfg, opening, turns) != RetainedSession(cfg, opening, turns, AsLeft)
  {
    hide Inv, Opening, Snapshot, Request, File, StoryOf, Looped, HoldsCode;
    var u := WriterWaits(cfg, opening);
    OpeningInv(cfg, opening);
    OpeningSuspends(cfg, opening);
    OpeningFits(cfg, opening);
    FitsSnapshot(cfg, u);
    StoryIs(WRITER, cfg.story);
    var outcome := Answer(Reported(cfg, Opening(cfg, opening)));
    var left, refreshed := OneTurn(cfg, u, turns[0], AsLeft), OneTurn(cfg, u, turns[0], HeaderRefreshed);
    TurnsDiffer(cfg, u, turns[0]);
    SameRequest(cfg, u, outcome.value.state, turns[0]);
    assert RequestSession(cfg, opening, turns)[1] == Answer(Reported(cfg, refreshed));
    assert RetainedSession(cfg, opening, turns, AsLeft)[1] == Answer(Reported(cfg, left));
  }

  lemma TurnsDiffer(cfg: Config, u: State, turn: Turn)
    requires Inv(cfg, u) && cfg.limit >= 1 && !u.halted && cfg.story.dictionary == DICTIONARY
    requires u.pc == WRITER + 5 && HoldsCode(u.mem, WRITER) && u.mem.Get(HDR_FLAGS1) == 0
    ensures OneTurn(cfg, u, turn, AsLeft).Fail? && OneTurn(cfg, u, turn, AsLeft).error == ExecutionFault
    ensures OneTurn(cfg, u, turn, HeaderRefreshed).Fail? && OneTurn(cfg, u, turn, HeaderRefreshed).error == MemoryAccess
  {
    hide Inv, HoldsCode, Looped, HeaderSet, Mem.Get, OwnFlags1;
    RefreshedInv(cfg, u);
    TurnInv(cfg, u, turn.line, turn.running);
    TurnInv(cfg, Refreshed(u), turn.line, turn.running);
    WriterTurnFails(cfg, TurnBegun(u, turn.line, turn.running));
    HeaderElsewhere(u.mem, WRITER);
    FlagsRefreshed(u.mem);
    WriterTurnFails(cfg, TurnBegun(Refreshed(u), turn.line, turn.running));
  }

  lemma FlagsRefreshed(m: Mem)
    requires HoldsCode(m, WRITER)
    ensures HeaderSet(m).state.Get(HDR_FLAGS1) >= 2
  {
    hide ByteAt, HeaderSet, OwnFlags1, OwnFlags2, Hi, Lo, Join;
    HeaderBytes(m);
    OwnFlagsLarge(m.Get(HDR_FLAGS1));
  }
}
