/** What each Version 3 instruction does to the state (opcode_0op.go, opcode_1op.go,
    opcode_2op.go, opcode_var.go, and the parts of machine.go and input.go they use):
    section 15 of the Z-Machine Standards Document 1.1. */
module Instructions {
  import opened Words
  import opened Memory
  import opened Text
  import opened Opcodes
  import opened Decoder
  import opened Objects
  import opened Properties
  import opened Random
  import opened Output
  import Input
  import opened States
  import opened Routines

  /** What the execution loop does next. */
  datatype Control = Continue | Halt | Suspend

  const STREAM_SCREEN := 1
  const STREAM_TRANSCRIPT := 2
  const STREAM_MEMORY := 3

  // ----- where an instruction may leave the call chain -----

  ghost predicate ReturnedTo(c: Context, s': State) {
    && c.callers != []
    && s'.pc == c.routine.returnPC
    && s'.started == c.started && s'.halted == c.halted
    && exists v: word :: (s'.frames, s'.stack) == Delivered(c, v)
  }

  /** The state of a story that has just begun. */
  predicate Afresh(cfg: Config, s': State) {
    s'.frames == [BaseFrame(cfg.story)] && s'.stack == []
  }

  /** From a routine with context `c`: still in it, in a routine it called, or back in its
      caller. */
  ghost predicate Proceeds(c: Context, s': State) {
    Beneath(s') == c || Entered(c, s') || ReturnedTo(c, s')
  }

  /** The same, or begun again. */
  ghost predicate Follows(cfg: Config, c: Context, s': State) {
    Proceeds(c, s') || BegunAgain(cfg, c, s')
  }

  /** What follows an instruction: restart begins again, and nothing else does. */
  ghost predicate FollowsAs(cfg: Config, op: Opcode, c: Context, s': State) {
    if op == RESTART then BegunAgain(cfg, c, s') else Proceeds(c, s')
  }

  predicate BegunAgain(cfg: Config, c: Context, s': State) {
    Afresh(cfg, s') && s'.started == c.started && s'.halted == c.halted
  }

  ghost predicate Moves(cfg: Config, op: Opcode, c: Context, r: Run<Control>) {
    && Inv(cfg, r.state)
    && (r.Done? ==> FollowsAs(cfg, op, c, r.state))
    && (r.Done? ==> r.value != Suspend)
  }

  /** Stays in the routine or returns from it. */
  ghost predicate StaysOrReturns(cfg: Config, c: Context, r: Run<Control>) {
    && Inv(cfg, r.state)
    && (r.Done? ==> Beneath(r.state) == c || ReturnedTo(c, r.state))
    && (r.Done? ==> r.value != Suspend)
  }

  /** Begins the story again. */
  ghost predicate Restarts(cfg: Config, c: Context, r: Run<Control>) {
    && Inv(cfg, r.state)
    && (r.Done? ==> r.value == Continue && BegunAgain(cfg, c, r.state))
  }

  /** Stays in the routine or enters one. */
  ghost predicate StaysOrEnters(cfg: Config, c: Context, r: Run<Control>) {
    && Inv(cfg, r.state)
    && (r.Done? ==> Beneath(r.state) == c || Entered(c, r.state))
    && (r.Done? ==> r.value != Suspend)
  }

  /** An instruction that goes on to the next one in the same routine. */
  ghost predicate Advances(cfg: Config, s: State, r: Run<Control>) {
    Stays(cfg, s, r.state) && (r.Done? ==> r.value == Continue)
  }

  /** An instruction that just goes on to the next one. */
  function Continuing(r: Run<()>): (r': Run<Control>)
    ensures r'.state == r.state && r'.Done? == r.Done?
    ensures r'.Done? ==> r'.value == Continue
  {
    match r
    case Done(s, _) => Done(s, Continue)
    case Fail(s, e) => Fail(s, e)
  }

  // ----- branch and store (execute.go) -----

  function Returning(cfg: Config, s: State, v: word): (r: Run<Control>)
    requires Inv(cfg, s)
    ensures StaysOrReturns(cfg, Beneath(s), r)
  {
    var r := Returned(cfg, s, v);
    ReturnFollows(cfg, s, v);
    hide *;
    Continuing(r)
  }

  lemma ReturnFollows(cfg: Config, s: State, v: word)
    requires Inv(cfg, s)
    ensures StaysOrReturns(cfg, Beneath(s), Continuing(Returned(cfg, s, v)))
  {
    var r := Returned(cfg, s, v);
    hide Returned, Inv, Delivered;
    if r.Done? {
      assert (r.state.frames, r.state.stack) == Delivered(Beneath(s), v);
    }
  }

  function Branched(cfg: Config, s: State, inst: Instr, condition: bool): (r: Run<Control>)
    requires Inv(cfg, s)
    ensures StaysOrReturns(cfg, Beneath(s), r)
  {
    hide Inv, Beneath, Entered, ReturnedTo, BegunAgain, Afresh;
    match inst.raw.branch
    case None => Fail(s, ExecutionFault)
    case Some(branch) =>
      if condition != branch.onTrue then Done(s, Continue)
      else match branch.Returns()
           case Some(v) => Returning(cfg, s, v)
           case None =>
             match branch.Target(inst.next)
             case Err(e) => Fail(s, e)
             case Ok(target) => Done(Jumped(cfg, s, target), Continue)
  }

  function Stored(cfg: Config, s: State, inst: Instr, v: word): (r: Run<Control>)
    requires Inv(cfg, s)
    ensures Advances(cfg, s, r)
  {
    hide Inv, Beneath;
    match inst.raw.store
    case None => Fail(s, ExecutionFault)
    case Some(number) => Continuing(VariableWritten(cfg, s, number, v))
  }

  // ----- the status line and the header (machine.go) -----

  function StatusFor(story: Story, m: Mem, item: word, second: word, third: word): StatusLine {
    var name := match ShortName(m, story.abbreviations, story.objectTable, item)
                case Ok(text) => text
                case Err(_) => [];
    if Bit(story.flags1, 1) then StatusLine(true, item, name, true, 0, 0, Lo(second), Lo(third))
    else StatusLine(true, item, name, false, Signed(second), Signed(third), 0, 0)
  }

  function StatusUpdated(cfg: Config, s: State): (r: Run<()>)
    requires Inv(cfg, s)
    ensures Stays(cfg, s, r.state)
  {
    hide Inv, Beneath, StatusFor;
    var (_, item) :- Lift(s, GlobalRead(cfg, s, GLOBAL_FIRST));
    var (_, second) :- Lift(s, GlobalRead(cfg, s, GLOBAL_FIRST + 1));
    var (_, third) :- Lift(s, GlobalRead(cfg, s, GLOBAL_FIRST + 2));
    var s' := s.(status := StatusFor(cfg.story, s.mem, item, second, third));
    FreeParts(cfg, s, s');
    Done(s', ())
  }

  /** The interpreter's own bits of Flags 1: a status line, a split screen, no fonts. */
  function OwnFlags1(flags: byte): byte {
    MaskedByte(MaskedByte(MaskedByte(flags, 4, false), 5, true), 6, false)
  }

  /** Flags 2 without its transcription bit. */
  function OwnFlags2(flags: word): word { flags / 2 * 2 }

  /** initHeader. */
  function HeaderSet(m: Mem): (r: Act<Mem, ()>)
    ensures SameShape(m, r.state)
  {
    var (_, flags1) :- Lift(m, m.ReadByte(HDR_FLAGS1));
    var (m1, _) :- m.WriteByte(HDR_FLAGS1, OwnFlags1(flags1));
    TranscriptCleared(m1)
  }

  function TranscriptCleared(m: Mem): (r: Act<Mem, ()>)
    ensures SameShape(m, r.state)
  {
    var (_, flags2) :- Lift(m, m.ReadWord(HDR_FLAGS2));
    m.WriteWord(HDR_FLAGS2, OwnFlags2(flags2))
  }

  // ----- the random generator (machine.go) -----

  function NextEntropy(s: State): Entropy {
    if s.supply == [] then None else s.supply[0]
  }

  function LeftOver(s: State): seq<Entropy> {
    if s.supply == [] then [] else s.supply[1..]
  }

  lemma RandomParts(cfg: Config, s: State, g: Generator, predictable: bool, supply: seq<Entropy>)
    requires Inv(cfg, s) && g.Valid(cfg.lib)
    ensures Stays(cfg, s, s.(random := g, predictable := predictable, supply := supply))
  {
    hide Chain, ScreenOk, SameShape;
  }

  /** setRandomSeed. Only Frotz's generator, and only for seed 0, reads the host's source. */
  function RandomSeeded(cfg: Config, s: State, seed: nat): (s': State)
    requires Inv(cfg, s)
    ensures Stays(cfg, s, s')
  {
    InvParts(cfg, s);
    var g := Seeded(cfg.lib, s.random, seed, NextEntropy(s));
    var supply := if s.random.Frotz? && seed == 0 then LeftOver(s) else s.supply;
    RandomParts(cfg, s, g, true, supply);
    hide *;
    s.(random := g, predictable := true, supply := supply)
  }

  /** reseedRandom. */
  function RandomReseeded(cfg: Config, s: State): (r: Run<()>)
    requires Inv(cfg, s)
    ensures Stays(cfg, s, r.state)
  {
    InvParts(cfg, s);
    match NextEntropy(s)
    case None =>
      RandomParts(cfg, s, s.random, s.predictable, LeftOver(s));
      hide *;
      Fail(s.(supply := LeftOver(s)), NoEntropy)
    case Some(e) =>
      RandomParts(cfg, s, Reseeded(cfg.lib, s.random.Kind(), e), false, LeftOver(s));
      hide *;
      Done(s.(random := Reseeded(cfg.lib, s.random.Kind(), e), predictable := false, supply := LeftOver(s)), ())
  }

  /** seedRandom. */
  function RandomStarted(cfg: Config, s: State): (r: Run<()>)
    requires Inv(cfg, s)
    ensures Stays(cfg, s, r.state)
  {
    if cfg.hasSeed then Done(RandomSeeded(cfg, s, cfg.seed), ()) else RandomReseeded(cfg, s)
  }

  /** random: a positive range draws, a negative one seeds, zero reseeds. */
  function Randomised(cfg: Config, s: State, inst: Instr, range: int): (r: Run<Control>)
    requires Inv(cfg, s) && -0x8000 <= range < 0x8000
    ensures Advances(cfg, s, r)
  {
    if range > 0 then
      InvParts(cfg, s);
      var (g, v) := Drawn(cfg.lib, s.random, range);
      RandomParts(cfg, s, g, s.predictable, s.supply);
      hide Inv, Beneath, Drawn;
      Stored(cfg, s.(random := g), inst, v)
    else if range < 0 then Stored(cfg, RandomSeeded(cfg, s, -range), inst, 0)
    else
      var (s1, _) :- RandomReseeded(cfg, s);
      Stored(cfg, s1, inst, 0)
  }

  // ----- restart (machine.go) -----

  /** The bits of Flags 2 that survive a restart: transcription and fixed pitch. */
  function Surviving(flags2: word): word { flags2 % 4 }

  function StartOver(cfg: Config, s: State): (s': State)
    requires cfg.Valid() && s.random.Valid(cfg.lib)
    ensures Inv(cfg, s') && Afresh(cfg, s') && s'.started == s.started && s'.halted == s.halted
  {
    s.(mem := InitialMem(cfg.story), pc := cfg.story.initialPC, frames := [BaseFrame(cfg.story)], stack := [],
       status := NO_STATUS, screen := INITIAL_SCREEN)
  }

  function RestartMemory(m: Mem, surviving: word): (r: Act<Mem, ()>)
    requires surviving < 4
    ensures SameShape(m, r.state)
  {
    var (_, initial) :- Lift(m, m.ReadWord(HDR_FLAGS2));
    var (m1, _) :- m.WriteWord(HDR_FLAGS2, initial / 4 * 4 + surviving);
    HeaderSet(m1)
  }

  function Restarted(cfg: Config, s: State): (r: Run<Control>)
    requires Inv(cfg, s)
    ensures Restarts(cfg, Beneath(s), r)
  {
    InvParts(cfg, s);
    var (_, flags2) :- Lift(s, s.mem.ReadWord(HDR_FLAGS2));
    var s0 := StartOver(cfg, s);
    var r := RestartMemory(s0.mem, Surviving(flags2));
    hide RestartMemory;
    var r1 := InMemory(cfg, s0, r);
    if r1.Fail? then Fail(r1.state, r1.error)
    else
      var r2 := RandomStarted(cfg, r1.state);
      StillAfresh(cfg, s0, r1.state);
      hide Inv, Afresh, Entered, ReturnedTo;
      Continuing(r2)
  }

  lemma StillAfresh(cfg: Config, s: State, s1: State)
    requires Afresh(cfg, s) && Inv(cfg, s1) && s1.frames == s.frames && s1.stack == s.stack
    ensures Afresh(cfg, RandomStarted(cfg, s1).state)
  {
    hide Inv;
  }

  /** Dynamic memory as restart leaves it: the story's own, with the interpreter's bits of
      Flags 1 set, and of Flags 2 the story's bits with the fixed-pitch bit kept from before.
      (The transcription bit survives the reload too, but setting the header clears it.) */
  ghost predicate Reloaded(story: Story, before: Mem, after: Mem)
    requires story.Valid() && SameShape(InitialMem(story), before)
  {
    && SameShape(InitialMem(story), after)
    && after.dynamic[HDR_FLAGS1] == OwnFlags1(story.image[HDR_FLAGS1])
    && after.dynamic[HDR_FLAGS2] == story.image[HDR_FLAGS2]
    && after.dynamic[HDR_FLAGS2 + 1] == story.image[HDR_FLAGS2 + 1] / 4 * 4 + before.dynamic[HDR_FLAGS2 + 1] / 2 % 2 * 2
    && forall a :: 0 <= a < story.staticBase && a !in {HDR_FLAGS1, HDR_FLAGS2, HDR_FLAGS2 + 1} ==> after.dynamic[a] == story.image[a]
  }

  /** What restart leaves, but for the generator: the initial environment alone, an empty
      stack, the initial program counter, the reloaded memory, and a clear screen. It fails
      only when the generator cannot be seeded. */
  lemma RestartEffect(cfg: Config, s: State)
    requires Inv(cfg, s) && cfg.Valid() && SameShape(InitialMem(cfg.story), s.mem)
    ensures var r := Restarted(cfg, s);
            && (r.Done? <==> Seedable(cfg, s.supply))
            && r.state.frames == [BaseFrame(cfg.story)] && r.state.stack == [] && r.state.pc == cfg.story.initialPC
            && Reloaded(cfg.story, s.mem, r.state.mem)
            && r.state.screen == INITIAL_SCREEN && r.state.status == NO_STATUS
            && r.state.input == s.input && r.state.started == s.started && r.state.halted == s.halted
  {
    var m0, before := InitialMem(cfg.story), s.mem.GetWord(HDR_FLAGS2);
    RestartMemoryDone(cfg.story, s.mem);
    hide Inv, RestartMemory, Reloaded, RandomSeeded, Mem.GetWord;
    assert s.mem.ReadWord(HDR_FLAGS2) == Ok(before);
  }

  lemma RestartMemoryDone(story: Story, before: Mem)
    requires story.Valid() && SameShape(InitialMem(story), before)
    ensures var r := RestartMemory(InitialMem(story), Surviving(before.GetWord(HDR_FLAGS2)));
            r.Done? && Reloaded(story, before, r.state)
  {
    var m0, surviving := InitialMem(story), Surviving(before.GetWord(HDR_FLAGS2));
    var m1 := m0.PutWord(HDR_FLAGS2, m0.GetWord(HDR_FLAGS2) / 4 * 4 + surviving);
    FlagsKept(m0.Get(HDR_FLAGS2), m0.Get(HDR_FLAGS2 + 1), before.Get(HDR_FLAGS2), before.Get(HDR_FLAGS2 + 1));
    hide OwnFlags1, OwnFlags2, Surviving, Hi, Lo, Join;
    assert m1.GetWord(HDR_FLAGS2) == Join(m1.Get(HDR_FLAGS2), m1.Get(HDR_FLAGS2 + 1));
  }

  /** The two bytes of Flags 2 through a restart. */
  lemma FlagsKept(hi: byte, lo: byte, oldHi: byte, oldLo: byte)
    ensures Surviving(Join(oldHi, oldLo)) < 4
    ensures var w := Join(hi, lo) / 4 * 4 + Surviving(Join(oldHi, oldLo));
            && w < 0x1_0000
            && Join(Hi(w), Lo(w)) == w
            && Hi(OwnFlags2(w)) == hi && Lo(OwnFlags2(w)) == lo / 4 * 4 + oldLo / 2 % 2 * 2
  {
    LowBits(oldHi, oldLo);
    HighBits(hi, lo);
    var bits := oldLo % 4;
    var low: byte := lo / 4 * 4 + bits;
    var w := Join(hi, low);
    assert Join(hi, lo) / 4 * 4 + bits == w;
    SplitInverse(hi, low);
    EvenHalf(hi, low);
    SplitInverse(hi, low / 2 * 2);
    Halved(lo, oldLo);
  }

  lemma LowBits(hi: byte, lo: byte)
    ensures Surviving(Join(hi, lo)) == lo % 4
  {
    assert Join(hi, lo) == (hi as int * 64) * 4 + lo as int;
  }

  lemma HighBits(hi: byte, lo: byte)
    ensures Join(hi, lo) / 4 * 4 == hi as int * 0x100 + lo / 4 * 4
  {
    assert Join(hi, lo) == (hi as int * 64) * 4 + lo as int;
    assert Join(hi, lo) / 4 == hi as int * 64 + lo / 4;
  }

  lemma EvenHalf(hi: byte, low: byte)
    ensures OwnFlags2(Join(hi, low)) == Join(hi, low / 2 * 2)
  {
    assert Join(hi, low) == (hi as int * 128) * 2 + low as int;
    assert Join(hi, low) / 2 == hi as int * 128 + low / 2;
  }

  lemma Halved(lo: byte, oldLo: byte)
    ensures (lo / 4 * 4 + oldLo % 4) / 2 * 2 == lo / 4 * 4 + oldLo / 2 % 2 * 2
  {
    var q, bits := lo / 4, oldLo % 4;
    assert (q * 4 + bits) / 2 == q * 2 + bits / 2;
    assert bits / 2 == oldLo / 2 % 2;
  }

  // ----- a new machine (machine.go) -----

  /** A machine before its generator is seeded and its header set. */
  function Unseeded(cfg: Config, supply: seq<Entropy>): (s: State)
    requires cfg.Valid()
    ensures Inv(cfg, s) && Afresh(cfg, s) && !s.started && !s.halted
  {
    State(cfg.story.initialPC, [BaseFrame(cfg.story)], [], InitialMem(cfg.story), INITIAL_SCREEN, Blank(cfg.lib, cfg.kind), false,
          supply, NO_STATUS, None, false, false)
  }

  /** New. It fails only when the host's random source does. */
  function Created(cfg: Config, supply: seq<Entropy>): (r: Run<()>)
    requires cfg.Valid()
    ensures Inv(cfg, r.state)
  {
    hide Inv, Beneath, HeaderSet, RandomStarted;
    var (s1, _) :- RandomStarted(cfg, Unseeded(cfg, supply));
    InMemory(cfg, s1, HeaderSet(s1.mem))
  }

  /** The host seeded the machine, or its random source has something to seed it with. */
  predicate Seedable(cfg: Config, supply: seq<Entropy>) {
    cfg.hasSeed || (supply != [] && supply[0].Some?)
  }

  /** Setting the header never fails: it lies in dynamic memory. */
  lemma HeaderWritable(cfg: Config, s: State)
    requires Inv(cfg, s)
    ensures HeaderSet(s.mem).Done?
  {
    InvParts(cfg, s);
    hide Inv, Mem.GetWord, Mem.PutWord, OwnFlags1, OwnFlags2;
  }

  /** New succeeds exactly when the generator can be seeded. */
  lemma CreatedExactly(cfg: Config, supply: seq<Entropy>)
    requires cfg.Valid()
    ensures Created(cfg, supply).Done? <==> Seedable(cfg, supply)
  {
    hide Inv, HeaderSet, RandomSeeded;
    var s := Unseeded(cfg, supply);
    var r := RandomStarted(cfg, s);
    if r.Done? {
      HeaderWritable(cfg, r.state);
    }
  }

  // ----- no operands (opcode_0op.go) -----

  function Printing(cfg: Config, s: State, text: Str): (r: Run<Control>)
    requires Inv(cfg, s)
    ensures Advances(cfg, s, r)
  {
    Continuing(InOutput(cfg, s, TextPrinted(Io(s.mem, s.screen), text)))
  }

  function PrintingCode(cfg: Config, s: State, code: word): (r: Run<Control>)
    requires Inv(cfg, s)
    ensures Advances(cfg, s, r)
  {
    Continuing(InOutput(cfg, s, CodePrinted(Io(s.mem, s.screen), code)))
  }

  function Executed0(cfg: Config, s: State, inst: Instr): (r: Run<Control>)
    requires Inv(cfg, s)
    ensures if inst.raw.op == RESTART then Restarts(cfg, Beneath(s), r) else StaysOrReturns(cfg, Beneath(s), r)
  {
    hide Inv, Beneath, Entered, ReturnedTo, BegunAgain, Afresh, Returning, Branched, StatusUpdated, Restarted, Pop, Printing, PrintingCode;
    var op := inst.raw.op;
    if op == RTRUE then Returning(cfg, s, 1)
    else if op == RFALSE then Returning(cfg, s, 0)
    else if op == PRINT then Printing(cfg, s, inst.text)
    else if op == PRINT_RET then
      var (s1, _) :- Printing(cfg, s, inst.text);
      var (s2, _) :- PrintingCode(cfg, s1, ZSCII_NEWLINE);
      Returning(cfg, s2, 1)
    else if op == NOP then Done(s, Continue)
    else if op == SAVE || op == RESTORE then Branched(cfg, s, inst, false)
    else if op == RESTART then Restarted(cfg, s)
    else if op == RET_POPPED then
      var (s1, v) :- Pop(cfg, s);
      Returning(cfg, s1, v)
    else if op == POP then
      var (s1, _) :- Pop(cfg, s);
      Done(s1, Continue)
    else if op == QUIT then Done(s, Halt)
    else if op == NEW_LINE then PrintingCode(cfg, s, ZSCII_NEWLINE)
    else if op == SHOW_STATUS then Continuing(StatusUpdated(cfg, s))
    else if op == VERIFY then Branched(cfg, s, inst, cfg.story.computed == cfg.story.checksum)
    else Fail(s, InvalidOpcode)
  }

  // ----- one operand (opcode_1op.go) -----

  /** Adds `delta` to a variable; the sum wraps within 16 bits. */
  function Adjusted(cfg: Config, s: State, number: byte, delta: int): (r: Run<int>)
    requires Inv(cfg, s)
    ensures Stays(cfg, s, r.state)
  {
    hide Inv, Beneath, IndirectRead, IndirectWritten;
    var (s1, value) :- IndirectRead(cfg, s, number);
    var updated := Unsigned(Signed(value) + delta);
    var (s2, _) :- IndirectWritten(cfg, s1, number, updated);
    Done(s2, Signed(updated))
  }

  /** Stores one of an object's links and branches if it names an object; object 0 has
      none. */
  function RelativeStored(cfg: Config, s: State, inst: Instr, number: word, field: nat): (r: Run<Control>)
    requires Inv(cfg, s) && field < ENTRY_SIZE
    ensures StaysOrReturns(cfg, Beneath(s), r)
  {
    hide Inv, Beneath, Entered, ReturnedTo, BegunAgain, Afresh, Branched, Stored;
    var (_, relative) :- Lift(s, if number == 0 then Ok(0) else ObjectRelative(s.mem, cfg.story.objectTable, number, field));
    var (s1, _) :- Stored(cfg, s, inst, relative);
    Branched(cfg, s1, inst, relative != 0)
  }

  function TextAt(cfg: Config, s: State, addr: nat): (r: Run<Control>)
    requires Inv(cfg, s)
    ensures Advances(cfg, s, r)
  {
    FreeParts(cfg, s, s);
    hide Inv, Beneath, Printing;
    var (_, text) :- Lift(s, StringAt(s.mem, cfg.story.abbreviations, addr));
    Printing(cfg, s, text)
  }

  /** Runs a memory operation of an instruction that just goes on to the next one. */
  function Changing<T>(cfg: Config, s: State, r: Act<Mem, T>): (r': Run<Control>)
    requires Inv(cfg, s) && SameShape(s.mem, r.state)
    ensures Advances(cfg, s, r')
  {
    match InMemory(cfg, s, r)
    case Done(s1, _) => Done(s1, Continue)
    case Fail(s1, e) => Fail(s1, e)
  }

  /** Stores a value that could be read, or fails. */
  function StoredResult(cfg: Config, s: State, inst: Instr, v: Result<word>): (r: Run<Control>)
    requires Inv(cfg, s)
    ensures Advances(cfg, s, r)
  {
    FreeParts(cfg, s, s);
    hide Inv, Beneath, Stored;
    match v
    case Ok(value) => Stored(cfg, s, inst, value)
    case Err(e) => Fail(s, e)
  }

  function Object1(cfg: Config, s: State, inst: Instr, a: word): (r: Run<Control>)
    requires Inv(cfg, s)
    ensures StaysOrReturns(cfg, Beneath(s), r)
  {
    hide Inv, Beneath, Entered, ReturnedTo, BegunAgain, Afresh, RelativeStored, StoredResult, Changing, Printing, ShortName, Length, Removed;
    var op, table := inst.raw.op, cfg.story.objectTable;
    if op == GET_SIBLING then RelativeStored(cfg, s, inst, a, SIBLING)
    else if op == GET_CHILD then RelativeStored(cfg, s, inst, a, CHILD)
    else if op == GET_PARENT then
      StoredResult(cfg, s, inst, if a == 0 then Ok(0) else ObjectRelative(s.mem, table, a, PARENT))
    else if op == GET_PROP_LEN then StoredResult(cfg, s, inst, Length(s.mem, a))
    else if op == REMOVE_OBJ then if a == 0 then Done(s, Continue) else Changing(cfg, s, Removed(s.mem, table, a))
    else if op == PRINT_OBJ then
      if a == 0 then Done(s, Continue)
      else
        var (_, name) :- Lift(s, ShortName(s.mem, cfg.story.abbreviations, table, a));
        Printing(cfg, s, name)
    else Fail(s, InvalidOpcode)
  }

  function Executed1(cfg: Config, s: State, inst: Instr, ops: seq<word>): (r: Run<Control>)
    requires Inv(cfg, s)
    ensures StaysOrReturns(cfg, Beneath(s), r)
  {
    hide Inv, Beneath, Entered, ReturnedTo, BegunAgain, Afresh, Returning, Branched, Adjusted, TextAt, IndirectRead, Stored, Object1, Jumped;
    if |ops| != 1 then Fail(s, ExecutionFault)
    else
      var op, a := inst.raw.op, ops[0];
      if op == JZ then Branched(cfg, s, inst, a == 0)
      else if op == INC || op == DEC then
        var (s1, _) :- Adjusted(cfg, s, Lo(a), if op == INC then 1 else -1);
        Done(s1, Continue)
      else if op == PRINT_ADDR then TextAt(cfg, s, a)
      else if op == RET then Returning(cfg, s, a)
      else if op == JUMP then
        var (_, target) :- Lift(s, OffsetAddress(inst.next, Signed(a) - BRANCH_BIAS));
        Done(Jumped(cfg, s, target), Continue)
      else if op == PRINT_PADDR then TextAt(cfg, s, UnpackAddress(a))
      else if op == LOAD then
        var (s1, v) :- IndirectRead(cfg, s, Lo(a));
        Stored(cfg, s1, inst, v)
      else if op == NOT then Stored(cfg, s, inst, BitNot(a))
      else Object1(cfg, s, inst, a)
  }

  // ----- two operands (opcode_2op.go) -----

  /** Division towards zero. */
  function Quotient(a: int, b: int): int
    requires b != 0
  {
    if a >= 0 then if b > 0 then a / b else -(a / -b)
    else if b > 0 then -(-a / b)
    else -a / -b
  }

  /** The remainder of that division, with the sign of the dividend. */
  function Remaining(a: int, b: int): int
    requires b != 0
  {
    var size := if b > 0 then b else -b;
    if a >= 0 then a % size else -(-a % size)
  }

  /** Together they give the dividend back; the remainder is smaller than the divisor and
      has the sign of the dividend. */
  lemma QuotientAndRemainder(a: int, b: int)
    requires b != 0
    ensures a == Quotient(a, b) * b + Remaining(a, b)
    ensures a >= 0 ==> 0 <= Remaining(a, b) < (if b > 0 then b else -b)
    ensures a <= 0 ==> 0 <= -Remaining(a, b) < (if b > 0 then b else -b)
  {
    var size, abs := if b > 0 then b else -b, if a >= 0 then a else -a;
    Divided(abs, size);
    Negated(abs / size, size);
  }

  lemma Divided(a: nat, b: nat)
    requires b > 0
    ensures a == (a / b) * b + a % b
  {
  }

  lemma Negated(q: int, b: int)
    ensures (-q) * b == -(q * b) == q * (-b) && (-q) * (-b) == q * b
  {
  }

  /** The result of the arithmetic and bitwise instructions. */
  function Computed(op: Opcode, a: word, b: word): Option<Result<word>> {
    if op == OR then Some(Ok(BitOr(a, b)))
    else if op == AND then Some(Ok(BitAnd(a, b)))
    else if op == ADD then Some(Ok(Unsigned(Signed(a) + Signed(b))))
    else if op == SUB then Some(Ok(Unsigned(Signed(a) - Signed(b))))
    else if op == MUL then Some(Ok(Unsigned(Signed(a) * Signed(b))))
    else if op == DIV then Some(if Signed(b) == 0 then Err(ExecutionFault) else Ok(Unsigned(Quotient(Signed(a), Signed(b)))))
    else if op == MOD then Some(if Signed(b) == 0 then Err(ExecutionFault) else Ok(Unsigned(Remaining(Signed(a), Signed(b)))))
    else None
  }

  /** The address of an array element, computed without wrapping round. */
  function ArrayAddress(base: word, index: word, scale: nat): Result<nat> {
    if base + index * scale >= ADDRESS_SPACE_LIMIT then Err(MemoryAccess) else Ok(base + index * scale)
  }

  function Loaded(m: Mem, op: Opcode, a: word, b: word): Result<word> {
    if op == LOADW then
      var addr :- ArrayAddress(a, b, WORD_SIZE);
      m.ReadWord(addr)
    else
      var addr :- ArrayAddress(a, b, 1);
      m.ReadByte(addr)
  }

  function Object2(cfg: Config, s: State, inst: Instr, a: word, b: word): (r: Run<Control>)
    requires Inv(cfg, s)
    ensures StaysOrReturns(cfg, Beneath(s), r)
  {
    hide Inv, Beneath, Entered, ReturnedTo, BegunAgain, Afresh, Branched, StoredResult, Changing, AttributeSet, Inserted,
         Value, DataAddress, NextNumber, ObjectAttribute, ObjectRelative;
    var op, table := inst.raw.op, cfg.story.objectTable;
    if op == JIN then
      if a == 0 then Branched(cfg, s, inst, b == 0)
      else
        var (_, parent) :- Lift(s, ObjectRelative(s.mem, table, a, PARENT));
        Branched(cfg, s, inst, parent == b)
    else if op == TEST_ATTR then
      if a == 0 then Branched(cfg, s, inst, false)
      else
        var (_, on) :- Lift(s, ObjectAttribute(s.mem, table, a, b));
        Branched(cfg, s, inst, on)
    else if op == SET_ATTR || op == CLEAR_ATTR then
      if a == 0 then Done(s, Continue) else Changing(cfg, s, AttributeSet(s.mem, table, a, b, op == SET_ATTR))
    else if op == INSERT_OBJ then
      if a == 0 || b == 0 then Done(s, Continue) else Changing(cfg, s, Inserted(s.mem, table, a, b))
    else if op == GET_PROP then StoredResult(cfg, s, inst, if a == 0 then Ok(0) else Value(s.mem, table, a, b))
    else if op == GET_PROP_ADDR then StoredResult(cfg, s, inst, if a == 0 then Ok(0) else DataAddress(s.mem, table, a, b))
    else if op == GET_NEXT_PROP then StoredResult(cfg, s, inst, if a == 0 then Ok(0) else NextNumber(s.mem, table, a, b))
    else Fail(s, InvalidOpcode)
  }

  function Executed2(cfg: Config, s: State, inst: Instr, ops: seq<word>): (r: Run<Control>)
    requires Inv(cfg, s)
    ensures StaysOrReturns(cfg, Beneath(s), r)
  {
    hide Inv, Beneath, Entered, ReturnedTo, BegunAgain, Afresh, Branched, Adjusted, StoredResult, IndirectWritten, Computed, Loaded, Object2;
    var op := inst.raw.op;
    if op == JE then
      if |ops| < 2 then Fail(s, ExecutionFault) else Branched(cfg, s, inst, ops[0] in ops[1..])
    else if |ops| != 2 then Fail(s, ExecutionFault)
    else
      var a, b := ops[0], ops[1];
      if op == JL then Branched(cfg, s, inst, Signed(a) < Signed(b))
      else if op == JG then Branched(cfg, s, inst, Signed(a) > Signed(b))
      else if op == DEC_CHK then
        var (s1, v) :- Adjusted(cfg, s, Lo(a), -1);
        Branched(cfg, s1, inst, v < Signed(b))
      else if op == INC_CHK then
        var (s1, v) :- Adjusted(cfg, s, Lo(a), 1);
        Branched(cfg, s1, inst, v > Signed(b))
      else if op == TEST then Branched(cfg, s, inst, BitAnd(a, b) == b)
      else if op == STORE then Continuing(IndirectWritten(cfg, s, Lo(a), b))
      else if op == LOADW || op == LOADB then StoredResult(cfg, s, inst, Loaded(s.mem, op, a, b))
      else match Computed(op, a, b)
           case Some(v) => StoredResult(cfg, s, inst, v)
           case None => Object2(cfg, s, inst, a, b)
  }

  // ----- any number of operands (opcode_var.go) -----

  function Digits(n: nat): Str {
    if n < 10 then ['0' as nat + n] else Digits(n / 10) + ['0' as nat + n % 10]
  }

  /** A signed number in decimal. */
  function Decimal(i: int): Str {
    if i < 0 then ['-' as nat] + Digits(-i) else Digits(i)
  }

  function WordStored(m: Mem, base: word, index: word, v: word): (r: Act<Mem, ()>)
    ensures SameShape(m, r.state)
  {
    var (_, addr) :- Lift(m, ArrayAddress(base, index, WORD_SIZE));
    m.WriteWord(addr, v)
  }

  function ByteStored(m: Mem, base: word, index: word, v: word): (r: Act<Mem, ()>)
    ensures SameShape(m, r.state)
  {
    var (_, addr) :- Lift(m, ArrayAddress(base, index, 1));
    m.WriteByte(addr, Lo(v))
  }

  /** pull: into the stack pointer it overwrites the item below the one pulled. */
  function Pulled(cfg: Config, s: State, number: byte): (r: Run<Control>)
    requires Inv(cfg, s)
    ensures Advances(cfg, s, r)
  {
    hide Inv, Beneath, Pop, IndirectWritten;
    var (s1, v) :- Pop(cfg, s);
    Continuing(IndirectWritten(cfg, s1, number, v))
  }

  lemma ScreenParts(cfg: Config, s: State, screen: Screen)
    requires Inv(cfg, s) && screen.window <= WINDOW_UPPER && screen.tables == s.screen.tables
    ensures Stays(cfg, s, s.(screen := screen))
  {
    hide Chain, SameShape;
  }

  /** Runs a change of the screen that leaves its tables alone. */
  function OnScreen(cfg: Config, s: State, screen: Screen): (r: Run<Control>)
    requires Inv(cfg, s) && screen.window <= WINDOW_UPPER && screen.tables == s.screen.tables
    ensures Advances(cfg, s, r)
  {
    ScreenParts(cfg, s, screen);
    hide *;
    Done(s.(screen := screen), Continue)
  }

  function WindowChosen(cfg: Config, s: State, window: word): (r: Run<Control>)
    requires Inv(cfg, s)
    ensures Advances(cfg, s, r)
  {
    FreeParts(cfg, s, s);
    match WindowSet(s.screen, window)
    case Ok(screen) => OnScreen(cfg, s, screen)
    case Err(e) => Fail(s, e)
  }

  /** output_stream: streams 2 and 4 do not exist here, and unknown ones are ignored. */
  function StreamChosen(cfg: Config, s: State, ops: seq<word>): (r: Run<Control>)
    requires Inv(cfg, s)
    ensures Advances(cfg, s, r)
  {
    FreeParts(cfg, s, s);
    InvParts(cfg, s);
    assert s.screen.window <= WINDOW_UPPER;
    hide Inv, Beneath, StreamSelected, StreamDeselected, TranscriptCleared, OnScreen, InOutput, Changing;
    if |ops| < 1 || |ops| > 2 then Fail(s, ExecutionFault)
    else
      var number, io := Signed(ops[0]), Io(s.mem, s.screen);
      if number == STREAM_SCREEN then OnScreen(cfg, s, s.screen.(stream1 := true))
      else if number == -STREAM_SCREEN then OnScreen(cfg, s, s.screen.(stream1 := false))
      else if number == STREAM_TRANSCRIPT || number == -STREAM_TRANSCRIPT then Changing(cfg, s, TranscriptCleared(s.mem))
      else if number == STREAM_MEMORY then
        if |ops| < 2 then Fail(s, ExecutionFault) else Continuing(InOutput(cfg, s, StreamSelected(io, ops[1])))
      else if number == -STREAM_MEMORY then Continuing(InOutput(cfg, s, StreamDeselected(io)))
      else Done(s, Continue)
  }

  /** The line into the text buffer and its words into the parse buffer. */
  function LineRead(cfg: Config, s: State, text: word, parse: word): (r: Run<Control>)
    requires Inv(cfg, s)
    ensures Advances(cfg, s, r)
  {
    hide Inv, Beneath, Input.LineStored, Input.Tokenised;
    var line := match s.input case Some(typed) => typed case None => [];
    var s1 := s.(input := None);
    FreeParts(cfg, s, s1);
    var (s2, stored) :- InMemory(cfg, s1, Input.LineStored(s1.mem, text, line, cfg.lib.lower));
    Changing(cfg, s2, Input.Tokenised(s2.mem, cfg.story.dictionary, parse, stored))
  }

  /** sread, once a line is available: the status line first, then the line. */
  function LineTaken(cfg: Config, s: State, ops: seq<word>): (r: Run<Control>)
    requires Inv(cfg, s)
    ensures Advances(cfg, s, r)
  {
    FreeParts(cfg, s, s);
    hide Inv, Beneath, StatusUpdated, LineRead;
    if |ops| != 2 then Fail(s, ExecutionFault)
    else
      var (s1, _) :- StatusUpdated(cfg, s);
      LineRead(cfg, s1, ops[0], ops[1])
  }

  /** The instructions of this form that stay inside the routine. */
  function PlainVar(cfg: Config, s: State, inst: Instr, ops: seq<word>): (r: Run<Control>)
    requires Inv(cfg, s)
    ensures Advances(cfg, s, r)
  {
    FreeParts(cfg, s, s);
    assert s.screen.window <= WINDOW_UPPER;
    hide Inv, Beneath, Changing, OnScreen, PrintingCode, Printing, Push, Pulled, WindowChosen, Randomised, Decimal, Properties.Stored,
         WordStored, ByteStored, Continuing;
    var op := inst.raw.op;
    if op == SOUND_EFFECT then Done(s, Continue)
    else if op == STOREW || op == STOREB || op == PUT_PROP then
      if |ops| != 3 then Fail(s, ExecutionFault)
      else if op == STOREW then Changing(cfg, s, WordStored(s.mem, ops[0], ops[1], ops[2]))
      else if op == STOREB then Changing(cfg, s, ByteStored(s.mem, ops[0], ops[1], ops[2]))
      else if ops[0] == 0 then Done(s, Continue)
      else Changing(cfg, s, Properties.Stored(s.mem, cfg.story.objectTable, ops[0], ops[1], ops[2]))
    else if op !in {PRINT_CHAR, PRINT_NUM, RANDOM, PUSH, PULL, SPLIT_WINDOW, SET_WINDOW, INPUT_STREAM} then Fail(s, InvalidOpcode)
    else if |ops| != 1 then Fail(s, ExecutionFault)
    else if op == PRINT_CHAR then PrintingCode(cfg, s, ops[0])
    else if op == PRINT_NUM then Printing(cfg, s, Decimal(Signed(ops[0])))
    else if op == RANDOM then Randomised(cfg, s, inst, Signed(ops[0]))
    else if op == PUSH then Continuing(Push(cfg, s, ops[0]))
    else if op == PULL then Pulled(cfg, s, Lo(ops[0]))
    else if op == SPLIT_WINDOW then OnScreen(cfg, s, ScreenSplit(s.screen, ops[0]))
    else if op == SET_WINDOW then WindowChosen(cfg, s, ops[0])
    else Done(s, Continue)
  }

  function ExecutedVar(cfg: Config, s: State, inst: Instr, ops: seq<word>): (r: Run<Control>)
    requires Inv(cfg, s) && s.pc <= |cfg.story.image| && |ops| <= MAX_OPERANDS
    ensures StaysOrEnters(cfg, Beneath(s), r)
  {
    hide Inv, Beneath, Entered, ReturnedTo, BegunAgain, Afresh, Called, StreamChosen, LineTaken, PlainVar;
    var op := inst.raw.op;
    if op == CALL then
      if |ops| < 1 then Fail(s, ExecutionFault)
      else
        var store := match inst.raw.store case Some(number) => number case None => 0;
        Continuing(Called(cfg, s, ops[0], ops[1..], s.pc, store, inst.raw.store.Some?))
    else if op == OUTPUT_STREAM then StreamChosen(cfg, s, ops)
    else if op == SREAD then LineTaken(cfg, s, ops)
    else PlainVar(cfg, s, inst, ops)
  }
}
