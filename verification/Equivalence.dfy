/** The central promise of the engine (README.md, state.go): restoring a fresh machine for
    every turn gives what one retained machine gives. */
module Equivalence {
  import opened Words
  import opened Memory
  import opened Text
  import opened Opcodes
  import opened Decoder
  import Encoder
  import opened Random
  import opened Output
  import opened States
  import opened Routines
  import opened Instructions
  import opened Execution
  import opened Saved
  import opened Snapshots

  // ----- a snapshot is always accepted by the machine it came from -----

  lemma {:induction false} WordsBounded(saved: seq<SavedFrame>)
    requires FewLocals(saved)
    ensures WordCount(saved) <= |RebuiltStack(saved)| + |saved| * MAX_LOCALS
    decreases |saved|
  {
    if saved != [] {
      WordsBounded(saved[..|saved| - 1]);
    }
  }

  lemma SnapshotFrames(cfg: Config, s: State, save: Save)
    requires Inv(cfg, s) && Snapshot(cfg, s) == Ok(save)
    ensures |save.frames| <= cfg.maxDepth && WordCount(save.frames) <= cfg.maxStack + cfg.maxDepth * MAX_LOCALS
    ensures RestoredFrames(cfg, save.frames).Some? <==> ReturnsInside(cfg, s.frames)
    ensures RestoredFrames(cfg, save.frames).Some? ==> RestoredFrames(cfg, save.frames).value == (s.frames, s.stack)
  {
    SaveNeedsFit(cfg.story, s.frames, s.stack, |s.stack|);
    ChainRebuilds(cfg.story, s.frames, s.stack, |s.stack|);
    assert s.stack[..|s.stack|] == s.stack;
    WordsBounded(save.frames);
    hide Chain, WordCount, RebuiltStack, RebuiltFrames, SavedFrames, SavedFrame.IsDummy, ScreenOk, FewLocals;
  }

  /** The header fields that describe the interpreter are already as initHeader sets them. */
  predicate HeaderStable(m: Mem) {
    HeaderSet(m).state == m
  }

  /** The machine `s`, as a restored machine that was created as `f` has it. */
  function Resumed(s: State, f: State): State {
    s.(mem := HeaderSet(s.mem).state, screen := Cleared(s.screen), status := NO_STATUS, supply := f.supply, input := None,
       started := true, halted := false)
  }

  lemma RestoredMemory(cfg: Config, s: State, f: State)
    requires Inv(cfg, s) && Inv(cfg, f)
    ensures f.mem.(dynamic := s.mem.dynamic) == s.mem
    ensures |s.mem.dynamic| == cfg.story.staticBase && s.mem.Size() == |cfg.story.image|
  {
    hide Chain, ScreenOk;
  }

  /** Restoring a machine's own snapshot on any machine of the same story and options succeeds
      exactly when its program counter lies beyond the header and inside the story and every
      return address lies inside the story; and then it gives the whole machine back but for
      the captured text, the status line, and the header bits that belong to the
      interpreter. */
  lemma RestoreSnapshot(cfg: Config, s: State, f: State, save: Save)
    requires Inv(cfg, s) && Inv(cfg, f) && Snapshot(cfg, s) == Ok(save)
    ensures Restored(cfg, f, Some(save)).reply ==
            if HEADER_SIZE <= s.pc < |cfg.story.image| && ReturnsInside(cfg, s.frames) then Accepted(())
            else Rejected(InvalidState)
    ensures Restored(cfg, f, Some(save)).reply.Accepted? ==> Restored(cfg, f, Some(save)).state == Resumed(s, f)
  {
    SnapshotFrames(cfg, s, save);
    RestoredMemory(cfg, s, f);
    hide RestoredFrames, WordCount, Inv, ReturnsInside, Finishing;
    if !Refused(cfg, Some(save)) {
      var s1 := Committed(f, save, s.frames, s.stack);
      CommittedInv(cfg, f, save);
      FinishingOwn(cfg, s, s1, save.chunks);
      hide Refused, Snapshot;
      assert Finishing(cfg, s1, save.chunks) == Restoring(Resumed(s, f), Accepted(()));
    }
  }

  /** The commit and what follows it, for chunks of this engine. */
  lemma FinishingOwn(cfg: Config, s: State, s1: State, chunks: seq<Chunk>)
    requires Inv(cfg, s) && Inv(cfg, s1) && s1.mem == s.mem
    requires chunks == [Chunk(RandomId, RandomData(cfg, s)), Chunk(ScreenId, ScreenData(s.screen))]
    ensures Finishing(cfg, s1, chunks) ==
            Restoring(s1.(random := s.random, predictable := s.predictable, screen := Cleared(s.screen), mem := HeaderSet(s.mem).state), Accepted(()))
  {
    FindOwn(RandomData(cfg, s), ScreenData(s.screen));
    RandomRoundTrip(cfg, s, s1, chunks);
    assert ScreenOk(s.mem, s.screen);
    ScreenRoundTrip(s.mem, s.screen);
    HeaderWritable(cfg, s);
    hide Inv, FindChunk, RandomRestored, RandomData, ScreenData, ScreenFrom, HeaderSet, ScreenOk;
    ScreenSet(cfg, s1.(random := s.random, predictable := s.predictable), chunks);
  }

  lemma FindOwn(random: seq<byte>, screen: seq<byte>)
    ensures var chunks := [Chunk(RandomId, random), Chunk(ScreenId, screen)];
            FindChunk(chunks, RandomId) == Some(random) && FindChunk(chunks, ScreenId) == Some(screen)
  {
    var chunks := [Chunk(RandomId, random), Chunk(ScreenId, screen)];
    assert chunks[1..] == [Chunk(ScreenId, screen)];
  }

  // ----- one turn -----

  function WithStatus<T>(r: Run<T>, x: StatusLine): Run<T> {
    match r
    case Done(s, v) => Done(s.(status := x), v)
    case Fail(s, e) => Fail(s.(status := x), e)
  }

  lemma OperandIgnoresStatus(cfg: Config, s: State, operand: Operand, x: StatusLine)
    requires Inv(cfg, s) && Inv(cfg, s.(status := x))
    ensures OperandValue(cfg, s.(status := x), operand) == WithStatus(OperandValue(cfg, s, operand), x)
  {
    hide Inv, Mem.ReadWord;
  }

  lemma {:induction false} OperandsIgnoreStatus(cfg: Config, s: State, operands: seq<Operand>, x: StatusLine)
    requires Inv(cfg, s) && Inv(cfg, s.(status := x))
    ensures OperandValues(cfg, s.(status := x), operands) == WithStatus(OperandValues(cfg, s, operands), x)
    decreases |operands|
  {
    if operands != [] {
      OperandIgnoresStatus(cfg, s, operands[0], x);
      var r := OperandValue(cfg, s, operands[0]);
      hide OperandValue, Inv;
      if r.Done? {
        OperandsIgnoreStatus(cfg, r.state, operands[1..], x);
      }
    }
  }

  /** Equal once done; if not, they fail alike. */
  predicate Alike<T(==)>(a: Run<T>, b: Run<T>) {
    if a.Done? then a == b else b.Fail? && a.error == b.error
  }

  /** sread hides the status line a machine had before it. */
  lemma LineIgnoresStatus(cfg: Config, s: State, ops: seq<word>, x: StatusLine)
    requires Inv(cfg, s) && Inv(cfg, s.(status := x))
    ensures Alike(LineTaken(cfg, s, ops), LineTaken(cfg, s.(status := x), ops))
  {
    hide Inv, StatusUpdated, LineRead;
    var line := StatusDependsOnMemory(cfg, s, s.(status := x));
    assert s.(status := x).(status := line) == s.(status := line);
  }

  lemma ReadIgnoresStatus(cfg: Config, s: State, inst: Instr, x: StatusLine)
    requires Inv(cfg, s) && Inv(cfg, s.(status := x))
    requires inst.raw.op == SREAD && s.input.Some? && s.pc <= |cfg.story.image| && |inst.raw.operands| <= MAX_OPERANDS
    ensures Alike(Executed(cfg, s, inst), Executed(cfg, s.(status := x), inst))
  {
    hide Inv, OperandValues, LineTaken, Dispatched;
    OperandsIgnoreStatus(cfg, s, inst.raw.operands, x);
    OperandsKeepPc(cfg, s, inst.raw.operands);
    var r := OperandValues(cfg, s, inst.raw.operands);
    if r.Done? {
      ReadDispatched(cfg, r.state, inst, r.value);
      ReadDispatched(cfg, r.state.(status := x), inst, r.value);
      LineIgnoresStatus(cfg, r.state, r.value, x);
    }
  }

  lemma ReadDispatched(cfg: Config, s: State, inst: Instr, ops: seq<word>)
    requires Inv(cfg, s) && s.pc <= |cfg.story.image| && |ops| <= MAX_OPERANDS && inst.raw.op == SREAD
    ensures Dispatched(cfg, s, inst, ops) == LineTaken(cfg, s, ops)
  {
    hide Inv, LineTaken, Executed0, Executed1, Executed2, Called, StreamChosen, PlainVar;
  }

  lemma StepIgnoresStatus(cfg: Config, s: State, x: StatusLine)
    requires Inv(cfg, s) && Inv(cfg, s.(status := x)) && s.input.Some?
    requires Decoded(s.mem, cfg.story.abbreviations, s.pc).Ok?
    requires Decoded(s.mem, cfg.story.abbreviations, s.pc).value.raw.op == SREAD
    ensures Alike(Stepped(cfg, s), Stepped(cfg, s.(status := x)))
  {
    hide Inv, Executed, Decoded;
    var inst := Decoded(s.mem, cfg.story.abbreviations, s.pc).value;
    InvParts(cfg, s);
    Encoder.DecodedBounds(s.mem, cfg.story.abbreviations, s.pc);
    var s1 := Jumped(cfg, s, inst.next);
    assert Jumped(cfg, s.(status := x), inst.next) == s1.(status := x);
    ReadIgnoresStatus(cfg, s1, inst, x);
  }

  lemma LoopIgnoresStatus(cfg: Config, s: State, x: StatusLine)
    requires Inv(cfg, s) && Inv(cfg, s.(status := x)) && s.input.Some?
    requires Decoded(s.mem, cfg.story.abbreviations, s.pc).Ok?
    requires Decoded(s.mem, cfg.story.abbreviations, s.pc).value.raw.op == SREAD
    ensures Alike(Looped(cfg, s, 0), Looped(cfg, s.(status := x), 0))
  {
    hide Inv, Stepped, Decoded;
    StepIgnoresStatus(cfg, s, x);
  }

  /** The machine with the interpreter's own header bits set again, as every restore sets
      them. */
  function Refreshed(s: State): State {
    s.(mem := HeaderSet(s.mem).state)
  }

  lemma RefreshedInv(cfg: Config, s: State)
    requires Inv(cfg, s)
    ensures Inv(cfg, Refreshed(s))
  {
    MemParts(cfg, s, HeaderSet(s.mem).state);
    hide Inv, HeaderSet, Beneath;
  }

  /** Nothing behind the header changes. */
  lemma BehindHeader(m: Mem, a: nat)
    requires HEADER_SIZE <= a < m.Size()
    ensures HeaderSet(m).state.Get(a) == m.Get(a)
  {
    hide OwnFlags1, OwnFlags2, Hi, Lo, Join;
  }

  /** Nor is an instruction behind the header that has no text. */
  lemma DecodesRefreshed(m: Mem, abbrevs: nat, addr: nat)
    requires addr >= HEADER_SIZE && Parse(m, addr).Ok? && Parse(m, addr).value.0.words.None?
    ensures Decoded(HeaderSet(m).state, abbrevs, addr) == Decoded(m, abbrevs, addr)
  {
    hide HeaderSet, Parse, Encoder.WellFormed, Encoder.Print, ReadText, Mem.Get;
    var (raw, next) := Parse(m, addr).value;
    Encoder.PrintDecoded(m, addr);
    var bytes := Encoder.Print(raw);
    forall k | 0 <= k < |bytes| ensures HeaderSet(m).state.Get(addr + k) == bytes[k] {
      BehindHeader(m, addr + k);
    }
    Encoder.DecodePrinted(HeaderSet(m).state, addr, raw);
  }

  /** The instruction a suspended machine stands on is not affected. */
  lemma ReadRefreshed(cfg: Config, s: State)
    requires AtRead(cfg, s) && s.pc >= HEADER_SIZE
    ensures Decoded(Refreshed(s).mem, cfg.story.abbreviations, s.pc) == Decoded(s.mem, cfg.story.abbreviations, s.pc)
  {
    hide Inv, StatusUpdated, HeaderSet, Parse, ReadText;
    ReadHasNoText(s.mem, s.pc);
    DecodesRefreshed(s.mem, cfg.story.abbreviations, s.pc);
  }

  lemma ReadHasNoText(m: Mem, addr: nat)
    requires Parse(m, addr).Ok? && Parse(m, addr).value.0.op == SREAD
    ensures Parse(m, addr).value.0.words.None?
  {
    hide HeadOf, ReadKinds, ReadOperands, ReadStore, ReadBranch;
  }

  /** A restored machine runs a turn as the retained one does once its header is refreshed: to
      the same state, or to the same error. */
  lemma SameTurn(cfg: Config, s: State, t: State, line: Str, supply: seq<Entropy>)
    requires BetweenTurns(cfg, s) && s.pc >= HEADER_SIZE
    requires exists f: State :: t == Resumed(s, f)
    requires Inv(cfg, Refreshed(s)) && Inv(cfg, t)
    ensures Alike(TurnRun(cfg, Refreshed(s), line, supply), TurnRun(cfg, t, line, supply))
  {
    var s0 := TurnBegun(Refreshed(s), line, supply);
    var t0 := s0.(status := NO_STATUS);
    assert TurnBegun(t, line, supply) == t0;
    ReadRefreshed(cfg, s);
    hide Decoded, Looped, StatusUpdated, HeaderSet;
    TurnInv(cfg, Refreshed(s), line, supply);
    TurnInv(cfg, t, line, supply);
    hide Inv;
    LoopIgnoresStatus(cfg, s0, NO_STATUS);
  }

  lemma TurnInv(cfg: Config, s: State, line: Str, supply: seq<Entropy>)
    requires Inv(cfg, s)
    ensures Inv(cfg, TurnBegun(s, line, supply))
    ensures !s.halted ==>
              TurnRun(cfg, s, line, supply) ==
              Looped(cfg, TurnBegun(s, line, supply), 0)
  {
    var s1 := s.(started := true, input := Some(line), supply := supply);
    FlagParts(cfg, s, s1);
    ClearedParts(cfg, s1, s1.(screen := Cleared(s.screen)));
    hide Inv, Looped;
  }

  // ----- whole sessions -----

  /** The player's line for one turn, and what the host's random source returns while a
      machine is created for it and while it runs. */
  datatype Turn = Turn(line: Str, creating: seq<Entropy>, running: seq<Entropy>)

  /** The session goes on after this answer. */
  predicate GoesOn(outcome: Reply<Outcome>) {
    outcome.Accepted? && outcome.value.Waiting?
  }

  /** How a retained machine meets the next turn: as the last one left it, or with its header
      refreshed. */
  datatype Keeping = AsLeft | HeaderRefreshed

  /** One turn of a retained machine. */
  function OneTurn(cfg: Config, s: State, turn: Turn, keeping: Keeping): (r: Run<Control>)
    requires Inv(cfg, s)
    ensures Inv(cfg, r.state)
  {
    RefreshedInv(cfg, s);
    hide Inv, HeaderSet;
    TurnRun(cfg, if keeping == AsLeft then s else Refreshed(s), turn.line, turn.running)
  }

  /** One machine, kept between turns: what each turn returned, up to the first error or the
      end of the story. */
  ghost function Retained(cfg: Config, s: State, turns: seq<Turn>, keeping: Keeping): seq<Reply<Outcome>>
    requires Inv(cfg, s)
    decreases |turns|
  {
    if turns == [] then []
    else
      var r := OneTurn(cfg, s, turns[0], keeping);
      var outcome := Answer(Reported(cfg, r));
      [outcome] + if GoesOn(outcome) then Retained(cfg, r.state, turns[1..], keeping) else []
  }

  /** A fresh machine for every turn, restored from what the turn before returned. */
  ghost function PerRequest(cfg: Config, save: Save, turns: seq<Turn>): seq<Reply<Outcome>>
    requires cfg.Valid()
    decreases |turns|
  {
    if turns == [] then []
    else
      var outcome := Request(cfg, save, turns[0]);
      [outcome] + if GoesOn(outcome) then PerRequest(cfg, outcome.value.state, turns[1..]) else []
  }

  /** New, Restore and Run. */
  ghost function Request(cfg: Config, save: Save, turn: Turn): Reply<Outcome>
    requires cfg.Valid()
  {
    hide Inv;
    var created := Created(cfg, turn.creating);
    if created.Fail? then Rejected(Running(created.error))
    else
      var restored := Restored(cfg, created.state, Some(save));
      if restored.reply.Rejected? then Rejected(restored.reply.error)
      else Answer(Reported(cfg, TurnRun(cfg, restored.state, turn.line, turn.running)))
  }

  /** The program counter and the return addresses are ones a restore accepts. */
  ghost predicate Inside(cfg: Config, s: State) {
    s.pc >= HEADER_SIZE && ReturnsInside(cfg, s.frames)
  }

  /** Every machine left waiting with a turn to come is inside the story. */
  ghost predicate StaysInside(cfg: Config, s: State, turns: seq<Turn>, keeping: Keeping)
    requires Inv(cfg, s)
    decreases |turns|
  {
    turns != [] ==>
      && Inside(cfg, s)
      && var r := OneTurn(cfg, s, turns[0], keeping);
         GoesOn(Answer(Reported(cfg, r))) ==> StaysInside(cfg, r.state, turns[1..], keeping)
  }

  /** Every machine left waiting with a turn to come has the interpreter's own header bits as
      the interpreter sets them. */
  ghost predicate StaysStable(cfg: Config, s: State, turns: seq<Turn>)
    requires Inv(cfg, s)
    decreases |turns|
  {
    turns != [] ==>
      && HeaderStable(s.mem)
      && var r := OneTurn(cfg, s, turns[0], AsLeft);
         GoesOn(Answer(Reported(cfg, r))) ==> StaysStable(cfg, r.state, turns[1..])
  }

  /** Then refreshing its header makes no difference to a retained machine. */
  lemma {:induction false} StableRetained(cfg: Config, s: State, turns: seq<Turn>)
    requires Inv(cfg, s) && StaysStable(cfg, s, turns)
    ensures Retained(cfg, s, turns, HeaderRefreshed) == Retained(cfg, s, turns, AsLeft)
    ensures StaysInside(cfg, s, turns, HeaderRefreshed) <==> StaysInside(cfg, s, turns, AsLeft)
    decreases |turns|
  {
    hide Inv, TurnRun, Snapshot, Inside, HeaderSet;
    if turns != [] {
      assert Refreshed(s) == s;
      var r := OneTurn(cfg, s, turns[0], AsLeft);
      assert OneTurn(cfg, s, turns[0], HeaderRefreshed) == r;
      if GoesOn(Answer(Reported(cfg, r))) {
        StableRetained(cfg, r.state, turns[1..]);
      }
    }
  }

  /** A machine between turns. */
  ghost predicate BetweenTurns(cfg: Config, s: State) {
    AtRead(cfg, s) && s.started && !s.halted
  }

  lemma {:induction false} LoopSuspends(cfg: Config, s: State, n: nat)
    requires Inv(cfg, s) && n <= cfg.limit && s.started && !s.halted
    requires Looped(cfg, s, n).Done? && Looped(cfg, s, n).value != Halt
    ensures BetweenTurns(cfg, Looped(cfg, s, n).state)
    decreases cfg.limit - n
  {
    hide Inv, Stepped, AtRead, Beneath;
    var r := Stepped(cfg, s);
    if r.value == Continue {
      StepKeepsFlags(cfg, s);
      LoopSuspends(cfg, r.state, n + 1);
    } else {
      StepKeepsFlags(cfg, s);
      SuspendsAtRead(cfg, s, r.state);
    }
  }

  lemma StepKeepsFlags(cfg: Config, s: State)
    requires Inv(cfg, s) && Stepped(cfg, s).Done? && Stepped(cfg, s).value != Halt
    ensures Stepped(cfg, s).state.started == s.started && Stepped(cfg, s).state.halted == s.halted
  {
    hide Inv, Stepped, Delivered, Taken;
  }

  lemma TurnSuspends(cfg: Config, s: State, line: Str, supply: seq<Entropy>)
    requires Inv(cfg, s)
    requires TurnRun(cfg, s, line, supply).Done? && TurnRun(cfg, s, line, supply).value != Halt
    ensures BetweenTurns(cfg, TurnRun(cfg, s, line, supply).state)
  {
    TurnInv(cfg, s, line, supply);
    hide Inv, Looped;
    LoopSuspends(cfg, TurnBegun(s, line, supply), 0);
  }

  /** One request gives what one turn of the retained machine, its header refreshed, gives if
      and only if the machine is inside the story: otherwise the restore is refused, with an
      error no turn can end in. */
  lemma SameRequest(cfg: Config, s: State, save: Save, turn: Turn)
    requires cfg.Valid() && BetweenTurns(cfg, s) && Inv(cfg, s) && Snapshot(cfg, s) == Ok(save)
    requires Seedable(cfg, turn.creating)
    ensures Request(cfg, save, turn) == Answer(Reported(cfg, OneTurn(cfg, s, turn, HeaderRefreshed))) <==> Inside(cfg, s)
  {
    hide Inv, Restored, Created, TurnRun, Looped, Snapshot, AtRead, HeaderSet, ReturnsInside, Reported;
    CreatedExactly(cfg, turn.creating);
    var f := Created(cfg, turn.creating).state;
    if Inside(cfg, s) {
      ReadInside(cfg, s);
      RestoreSnapshot(cfg, s, f, save);
      RefreshedInv(cfg, s);
      SameTurn(cfg, s, Resumed(s, f), turn.line, turn.running);
      SameReport(cfg, OneTurn(cfg, s, turn, HeaderRefreshed), TurnRun(cfg, Resumed(s, f), turn.line, turn.running));
    } else {
      RequestRefused(cfg, s, save, turn, HeaderRefreshed);
    }
  }

  lemma SameReport(cfg: Config, a: Run<Control>, b: Run<Control>)
    requires Inv(cfg, a.state) && Inv(cfg, b.state) && Alike(a, b)
    ensures Answer(Reported(cfg, a)) == Answer(Reported(cfg, b))
  {
    hide Inv, Snapshot;
  }

  /** A machine that is not inside the story: the request is refused, and that is never what
      a retained machine answers. */
  lemma RequestRefused(cfg: Config, s: State, save: Save, turn: Turn, keeping: Keeping)
    requires cfg.Valid() && BetweenTurns(cfg, s) && Inv(cfg, s) && Snapshot(cfg, s) == Ok(save)
    requires !Inside(cfg, s) && Seedable(cfg, turn.creating)
    ensures Request(cfg, save, turn) == Rejected(InvalidState)
    ensures Answer(Reported(cfg, OneTurn(cfg, s, turn, keeping))) != Rejected(InvalidState)
  {
    hide Inv, Restored, Created, TurnRun, Looped, Snapshot, AtRead, HeaderSet, ReturnsInside, Reported, OneTurn;
    CreatedExactly(cfg, turn.creating);
    RestoreSnapshot(cfg, s, Created(cfg, turn.creating).state, save);
  }

  lemma ReadInside(cfg: Config, s: State)
    requires AtRead(cfg, s)
    ensures s.pc < |cfg.story.image|
  {
    InvParts(cfg, s);
    Encoder.DecodedBounds(s.mem, cfg.story.abbreviations, s.pc);
    hide Inv, Decoded, StatusUpdated;
  }

  /** For every list of commands, a session that restores a fresh machine for every turn
      returns, turn by turn up to the first error or the end of the story, exactly what one
      retained machine with its header refreshed returns (output, upper window, status line,
      status and state) if and only if every machine left waiting for one of those commands is
      inside the story. */
  lemma {:induction false} Indistinguishable(cfg: Config, s: State, save: Save, turns: seq<Turn>)
    requires cfg.Valid() && BetweenTurns(cfg, s) && Inv(cfg, s) && Snapshot(cfg, s) == Ok(save)
    requires forall i :: 0 <= i < |turns| ==> Seedable(cfg, turns[i].creating)
    ensures PerRequest(cfg, save, turns) == Retained(cfg, s, turns, HeaderRefreshed) <==>
            StaysInside(cfg, s, turns, HeaderRefreshed)
    decreases |turns|
  {
    hide Inv, OneTurn, Snapshot, Inside, Request, Seedable, AtRead;
    if turns != [] {
      SameRequest(cfg, s, save, turns[0]);
      var r := OneTurn(cfg, s, turns[0], HeaderRefreshed);
      var outcome := Answer(Reported(cfg, r));
      if GoesOn(outcome) {
        OneTurnSuspends(cfg, s, turns[0], HeaderRefreshed);
        Indistinguishable(cfg, r.state, outcome.value.state, turns[1..]);
        SameFirst(outcome, PerRequest(cfg, outcome.value.state, turns[1..]), Retained(cfg, r.state, turns[1..], HeaderRefreshed));
      }
      assert PerRequest(cfg, save, turns)[0] == Request(cfg, save, turns[0]);
      assert Retained(cfg, s, turns, HeaderRefreshed)[0] == outcome;
    }
  }

  lemma OneTurnSuspends(cfg: Config, s: State, turn: Turn, keeping: Keeping)
    requires Inv(cfg, s)
    requires OneTurn(cfg, s, turn, keeping).Done? && OneTurn(cfg, s, turn, keeping).value != Halt
    ensures BetweenTurns(cfg, OneTurn(cfg, s, turn, keeping).state)
  {
    hide Inv, HeaderSet, TurnRun, BetweenTurns;
    RefreshedInv(cfg, s);
    TurnSuspends(cfg, if keeping == AsLeft then s else Refreshed(s), turn.line, turn.running);
  }

  lemma SameFirst(first: Reply<Outcome>, a: seq<Reply<Outcome>>, b: seq<Reply<Outcome>>)
    ensures [first] + a == [first] + b <==> a == b
  {
    assert ([first] + a)[1..] == a && ([first] + b)[1..] == b;
  }
}
