/** Whole sessions, from the creation of the first machine on, and exactly where the code is
    narrower than the promise that sessions with and without restoring are the same
    (state.go, machine.go). */
module Sessions {
  import opened Words
  import opened Memory
  import opened Opcodes
  import opened Decoder
  import Encoder
  import opened Objects
  import opened Output
  import opened Random
  import opened Text
  import opened States
  import opened Routines
  import opened Instructions
  import opened Execution
  import opened Saved
  import opened Snapshots
  import opened Equivalence
  import opened Isolation

  // ----- a machine can always be saved -----

  /** No step of a run makes a call the saved-state format cannot record. */
  lemma StepKeepsArguments(cfg: Config, s: State, s': State)
    requires Follows(cfg, Beneath(s), s') && ArgumentsFit(s.frames)
    ensures ArgumentsFit(s'.frames)
  {
    var c := Beneath(s);
    assert forall i :: 0 <= i < |c.callers| ==> c.callers[i] == s.frames[i];
    if Beneath(s') == c {
      SameArguments(s.frames, s'.frames);
    } else if Entered(c, s') {
      var n := |c.callers|;
      assert forall i :: 0 <= i < n ==> s'.frames[i] == s'.Callers()[..n][i];
      assert s'.frames[n] == s'.Callers()[n] && s'.frames[n].(locals := []) == c.routine;
    } else if ReturnedTo(c, s') {
      var v: word :| (s'.frames, s'.stack) == Delivered(c, v);
    }
  }

  lemma SameArguments(a: CallChain, b: CallChain)
    requires a[..|a| - 1] == b[..|b| - 1] && a[|a| - 1].(locals := []) == b[|b| - 1].(locals := []) && ArgumentsFit(a)
    ensures ArgumentsFit(b)
  {
    assert |a| == |a[..|a| - 1]| + 1 == |b|;
    forall i | 0 <= i < |b| ensures b[i].argCount <= 7 {
      if i < |b| - 1 {
        assert b[i] == b[..|b| - 1][i] == a[..|a| - 1][i] == a[i];
      }
    }
  }

  lemma {:induction false} LoopKeepsArguments(cfg: Config, s: State, n: nat)
    requires Inv(cfg, s) && n <= cfg.limit && ArgumentsFit(s.frames)
    requires Looped(cfg, s, n).Done? && Looped(cfg, s, n).value != Halt
    ensures ArgumentsFit(Looped(cfg, s, n).state.frames)
    decreases cfg.limit - n
  {
    hide Inv, Stepped, Beneath, ArgumentsFit, Follows;
    var r := Stepped(cfg, s);
    StepKeepsArguments(cfg, s, r.state);
    if r.value == Continue {
      LoopKeepsArguments(cfg, r.state, n + 1);
    }
  }

  lemma FitsSnapshot(cfg: Config, s: State)
    requires Inv(cfg, s) && ArgumentsFit(s.frames)
    ensures Snapshot(cfg, s).Ok?
  {
    SaveThenRestore(cfg, s);
    hide Inv, SavedFrames, RestoredFrames;
  }

  /** A turn of a machine that has made no oversized call always reports a resumable state
      when it suspends, and the machine stays such a one. */
  lemma TurnIsReported(cfg: Config, s: State, line: Str, supply: seq<Entropy>)
    requires Inv(cfg, s) && ArgumentsFit(s.frames)
    requires TurnRun(cfg, s, line, supply).Done? && TurnRun(cfg, s, line, supply).value != Halt
    ensures ArgumentsFit(TurnRun(cfg, s, line, supply).state.frames)
    ensures Reported(cfg, TurnRun(cfg, s, line, supply)).Ok?
  {
    hide Inv, Looped, Snapshot, ArgumentsFit;
    TurnInv(cfg, s, line, supply);
    LoopKeepsArguments(cfg, TurnBegun(s, line, supply), 0);
    FitsSnapshot(cfg, TurnRun(cfg, s, line, supply).state);
  }

  // ----- sessions from the start -----

  /** What a session opens with: New and Start. */
  ghost function Opening(cfg: Config, opening: Turn): Run<Control>
    requires cfg.Valid() && Seedable(cfg, opening.creating)
  {
    StartRun(cfg, Created(cfg, opening.creating).state, opening.running)
  }

  lemma OpeningInv(cfg: Config, opening: Turn)
    requires cfg.Valid() && Seedable(cfg, opening.creating)
    ensures Inv(cfg, Opening(cfg, opening).state)
  {
    hide Inv, StartRun, Created;
  }

  /** One machine for the whole session. */
  ghost function RetainedSession(cfg: Config, opening: Turn, turns: seq<Turn>, keeping: Keeping): seq<Reply<Outcome>>
    requires cfg.Valid() && Seedable(cfg, opening.creating)
  {
    OpeningInv(cfg, opening);
    hide Inv, Created, StartRun, Snapshot;
    var r := Opening(cfg, opening);
    var outcome := Answer(Reported(cfg, r));
    [outcome] + if GoesOn(outcome) then Retained(cfg, r.state, turns, keeping) else []
  }

  /** A machine for every request. */
  ghost function RequestSession(cfg: Config, opening: Turn, turns: seq<Turn>): seq<Reply<Outcome>>
    requires cfg.Valid() && Seedable(cfg, opening.creating)
  {
    OpeningInv(cfg, opening);
    hide Inv, Created, StartRun, Snapshot;
    var outcome := Answer(Reported(cfg, Opening(cfg, opening)));
    [outcome] + if GoesOn(outcome) then PerRequest(cfg, outcome.value.state, turns) else []
  }

  /** Every machine the session leaves waiting for one of the commands is inside the story. */
  ghost predicate WaitingInside(cfg: Config, opening: Turn, turns: seq<Turn>, keeping: Keeping)
    requires cfg.Valid() && Seedable(cfg, opening.creating)
  {
    OpeningInv(cfg, opening);
    var r := Opening(cfg, opening);
    GoesOn(Answer(Reported(cfg, r))) ==> StaysInside(cfg, r.state, turns, keeping)
  }

  /** Every machine the session leaves waiting for one of the commands has a stable header. */
  ghost predicate WaitingStable(cfg: Config, opening: Turn, turns: seq<Turn>)
    requires cfg.Valid() && Seedable(cfg, opening.creating)
  {
    OpeningInv(cfg, opening);
    var r := Opening(cfg, opening);
    GoesOn(Answer(Reported(cfg, r))) ==> StaysStable(cfg, r.state, turns)
  }

  lemma OpeningSuspends(cfg: Config, opening: Turn)
    requires cfg.Valid() && Seedable(cfg, opening.creating)
    requires Opening(cfg, opening).Done? && Opening(cfg, opening).value != Halt
    ensures BetweenTurns(cfg, Opening(cfg, opening).state)
  {
    hide Inv, Looped, Created, BetweenTurns;
    var s := Created(cfg, opening.creating).state;
    assert !s.started && !s.halted;
    var s1 := s.(started := true, input := None, supply := opening.running);
    FlagParts(cfg, s, s1);
    ClearedParts(cfg, s1, s1.(screen := Cleared(s1.screen)));
    LoopSuspends(cfg, s1.(screen := Cleared(s1.screen)), 0);
  }

  /** For every story, every option and every list of commands, serving each command with a
      fresh machine restored from the last state gives exactly what one retained machine
      whose header is refreshed gives, if and only if every machine left waiting for a command
      is inside the story. While the story leaves the interpreter's header bits alone, that is
      the retained machine as it is. (The host must be able to seed the machines.) */
  lemma SessionsIndistinguishable(cfg: Config, opening: Turn, turns: seq<Turn>)
    requires cfg.Valid() && Seedable(cfg, opening.creating)
    requires forall i :: 0 <= i < |turns| ==> Seedable(cfg, turns[i].creating)
    ensures RequestSession(cfg, opening, turns) == RetainedSession(cfg, opening, turns, HeaderRefreshed) <==>
            WaitingInside(cfg, opening, turns, HeaderRefreshed)
  {
    hide Inv, Created, Opening, Snapshot, BetweenTurns, StaysInside, PerRequest, Retained, Seedable;
    OpeningInv(cfg, opening);
    var r := Opening(cfg, opening);
    var outcome := Answer(Reported(cfg, r));
    if GoesOn(outcome) {
      OpeningSuspends(cfg, opening);
      Indistinguishable(cfg, r.state, outcome.value.state, turns);
      SameFirst(outcome, PerRequest(cfg, outcome.value.state, turns), Retained(cfg, r.state, turns, HeaderRefreshed));
    }
  }

  lemma StableSessions(cfg: Config, opening: Turn, turns: seq<Turn>)
    requires cfg.Valid() && Seedable(cfg, opening.creating)
    requires forall i :: 0 <= i < |turns| ==> Seedable(cfg, turns[i].creating)
    requires WaitingStable(cfg, opening, turns)
    ensures RequestSession(cfg, opening, turns) == RetainedSession(cfg, opening, turns, AsLeft) <==>
            WaitingInside(cfg, opening, turns, AsLeft)
  {
    hide Inv, Created, Opening, Snapshot, BetweenTurns, StaysInside, StaysStable, PerRequest, Retained, Seedable;
    SessionsIndistinguishable(cfg, opening, turns);
    OpeningInv(cfg, opening);
    var r := Opening(cfg, opening);
    if GoesOn(Answer(Reported(cfg, r))) {
      StableRetained(cfg, r.state, turns);
    }
  }

  // ----- every waiting machine has a state to report -----

  lemma CreatedFits(cfg: Config, supply: seq<Entropy>)
    requires cfg.Valid()
    ensures ArgumentsFit(Created(cfg, supply).state.frames)
  {
    hide Inv, HeaderSet;
    StillAfresh(cfg, Unseeded(cfg, supply), Unseeded(cfg, supply));
  }

  /** Every turn that ends without an error is reported, with a state when it waits. */
  ghost predicate AlwaysReported(cfg: Config, s: State, turns: seq<Turn>)
    requires Inv(cfg, s)
    decreases |turns|
  {
    turns != [] ==>
      var r := TurnRun(cfg, s, turns[0].line, turns[0].running);
      && (r.Done? ==> Reported(cfg, r).Ok?)
      && (GoesOn(Answer(Reported(cfg, r))) ==> AlwaysReported(cfg, r.state, turns[1..]))
  }

  lemma {:induction false} TurnsAreReported(cfg: Config, s: State, turns: seq<Turn>)
    requires Inv(cfg, s) && ArgumentsFit(s.frames)
    ensures AlwaysReported(cfg, s, turns)
    decreases |turns|
  {
    hide Inv, TurnRun, Snapshot, ArgumentsFit;
    if turns != [] {
      var r := TurnRun(cfg, s, turns[0].line, turns[0].running);
      if r.Done? && r.value != Halt {
        TurnIsReported(cfg, s, turns[0].line, turns[0].running);
        TurnsAreReported(cfg, r.state, turns[1..]);
      }
    }
  }

  ghost predicate SessionReported(cfg: Config, opening: Turn, turns: seq<Turn>)
    requires cfg.Valid() && Seedable(cfg, opening.creating)
  {
    OpeningInv(cfg, opening);
    var r := Opening(cfg, opening);
    && (r.Done? ==> Reported(cfg, r).Ok?)
    && (GoesOn(Answer(Reported(cfg, r))) ==> AlwaysReported(cfg, r.state, turns))
  }

  /** In a session from New and Start on, whatever the story and the commands, taking the
      snapshot never fails: a call ends in an error only if running the story does. */
  lemma SessionIsReported(cfg: Config, opening: Turn, turns: seq<Turn>)
    requires cfg.Valid() && Seedable(cfg, opening.creating)
    ensures SessionReported(cfg, opening, turns)
  {
    hide Inv, Opening, Snapshot, ArgumentsFit, AlwaysReported;
    OpeningInv(cfg, opening);
    var r := Opening(cfg, opening);
    if r.Done? && r.value != Halt {
      OpeningFits(cfg, opening);
      FitsSnapshot(cfg, r.state);
      TurnsAreReported(cfg, r.state, turns);
    }
  }

  lemma OpeningFits(cfg: Config, opening: Turn)
    requires cfg.Valid() && Seedable(cfg, opening.creating)
    requires Opening(cfg, opening).Done? && Opening(cfg, opening).value != Halt
    ensures ArgumentsFit(Opening(cfg, opening).state.frames)
  {
    hide Inv, Looped, Created, ArgumentsFit;
    CreatedExactly(cfg, opening.creating);
    CreatedFits(cfg, opening.creating);
    var s := Created(cfg, opening.creating).state;
    var s1 := s.(started := true, input := None, supply := opening.running);
    FlagParts(cfg, s, s1);
    ClearedParts(cfg, s1, s1.(screen := Cleared(s1.screen)));
    LoopKeepsArguments(cfg, s1.(screen := Cleared(s1.screen)), 0);
  }

  // ----- the header bits -----

  lemma {:induction false} BitAlready(v: nat, k: nat, on: bool)
    ensures WithBit(v, k, on) == v <==> Bit(v, k) == on
  {
    if k > 0 {
      BitAlready(v / 2, k - 1, on);
    }
  }

  /** Flags 1 is as the interpreter sets it exactly when bits 4 and 6 are clear and bit 5 is
      set. */
  lemma OwnFlagsExactly(flags: byte)
    ensures OwnFlags1(flags) == flags <==> !Bit(flags, 4) && Bit(flags, 5) && !Bit(flags, 6)
  {
    hide Bit, WithBit;
    var a := MaskedByte(flags, 4, false);
    var b := MaskedByte(a, 5, true);
    BitAlready(flags, 4, false);
    BitAlready(a, 5, true);
    BitAlready(b, 6, false);
    assert OwnFlags1(flags) == WithBit(b, 6, false);
  }

  lemma HeaderBytes(m: Mem)
    requires |m.dynamic| >= HEADER_SIZE
    ensures HeaderSet(m).state ==
            m.Put(HDR_FLAGS1, OwnFlags1(m.Get(HDR_FLAGS1))).PutWord(HDR_FLAGS2, OwnFlags2(m.GetWord(HDR_FLAGS2)))
  {
    hide OwnFlags1, OwnFlags2, Join, Hi, Lo;
    var m1 := m.Put(HDR_FLAGS1, OwnFlags1(m.Get(HDR_FLAGS1)));
    assert m1.GetWord(HDR_FLAGS2) == m.GetWord(HDR_FLAGS2);
  }

  /** The header survives a restore exactly when the story has left the interpreter's bits of
      Flags 1 and Flags 2 as the interpreter sets them. */
  lemma HeaderStableExactly(m: Mem)
    requires |m.dynamic| >= HEADER_SIZE
    ensures var flags1 := m.Get(HDR_FLAGS1);
            HeaderStable(m) <==> !Bit(flags1, 4) && Bit(flags1, 5) && !Bit(flags1, 6) && m.Get(HDR_FLAGS2 + 1) % 2 == 0
  {
    hide OwnFlags1, OwnFlags2, Bit, HeaderSet, Mem.GetWord;
    var f1, f2 := m.Get(HDR_FLAGS1), m.GetWord(HDR_FLAGS2);
    HeaderBytes(m);
    OwnFlagsExactly(f1);
    FlagsUnchanged(m, OwnFlags1(f1), OwnFlags2(f2));
    OwnFlags2Exactly(m);
  }

  lemma OwnFlags2Exactly(m: Mem)
    requires |m.dynamic| >= HEADER_SIZE
    ensures OwnFlags2(m.GetWord(HDR_FLAGS2)) == m.GetWord(HDR_FLAGS2) <==> m.Get(HDR_FLAGS2 + 1) % 2 == 0
  {
    Even(m.Get(HDR_FLAGS2), m.Get(HDR_FLAGS2 + 1));
  }

  lemma Even(high: byte, low: byte)
    ensures OwnFlags2(Join(high, low)) == Join(high, low) <==> low % 2 == 0
  {
    var w := Join(high, low);
    assert w == high as int * 0x100 + low as int;
    assert w % 2 == low % 2;
  }

  lemma FlagsUnchanged(m: Mem, f1: byte, f2: word)
    requires |m.dynamic| >= HEADER_SIZE
    ensures m.Put(HDR_FLAGS1, f1).PutWord(HDR_FLAGS2, f2) == m <==> f1 == m.Get(HDR_FLAGS1) && f2 == m.GetWord(HDR_FLAGS2)
  {
    var m' := m.Put(HDR_FLAGS1, f1).PutWord(HDR_FLAGS2, f2);
    assert m'.Get(HDR_FLAGS1) == f1 && m'.Get(HDR_FLAGS2) == Hi(f2) && m'.Get(HDR_FLAGS2 + 1) == Lo(f2);
    JoinInverse(f2);
    if f1 == m.Get(HDR_FLAGS1) && f2 == m.GetWord(HDR_FLAGS2) {
      SplitInverse(m.Get(HDR_FLAGS2), m.Get(HDR_FLAGS2 + 1));
      assert m'.dynamic == m.dynamic;
    }
  }

  /** A machine just created, restarted or restored has such a header: only the story's own
      writes can make it otherwise. */
  lemma HeaderSetIsStable(m: Mem)
    requires |m.dynamic| >= HEADER_SIZE
    ensures HeaderStable(HeaderSet(m).state)
  {
    hide OwnFlags1, Bit, HeaderSet, HeaderStable, Mem.GetWord;
    var f1, f2 := OwnFlags1(m.Get(HDR_FLAGS1)), OwnFlags2(m.GetWord(HDR_FLAGS2));
    var m' := HeaderSet(m).state;
    HeaderBytes(m);
    FlagsRead(m, f1, f2);
    OwnTwice(m.Get(HDR_FLAGS1));
    OwnFlagsExactly(f1);
    HeaderStableExactly(m');
    assert Lo(f2) % 2 == 0;
  }

  lemma FlagsRead(m: Mem, f1: byte, f2: word)
    requires |m.dynamic| >= HEADER_SIZE
    ensures var m' := m.Put(HDR_FLAGS1, f1).PutWord(HDR_FLAGS2, f2);
            |m'.dynamic| == |m.dynamic| && m'.Get(HDR_FLAGS1) == f1 && m'.Get(HDR_FLAGS2 + 1) == Lo(f2)
  {
  }

  lemma OwnTwice(flags: byte)
    ensures OwnFlags1(OwnFlags1(flags)) == OwnFlags1(flags)
  {
    hide Bit, WithBit;
    var a := MaskedByte(flags, 4, false);
    var b := MaskedByte(a, 5, true);
    var c := MaskedByte(b, 6, false);
    assert OwnFlags1(flags) == c;
    assert !Bit(c, 4) && Bit(c, 5) && !Bit(c, 6);
    OwnFlagsExactly(c);
  }

  /** A restored machine has the memory of the machine that was saved exactly when the header
      is stable. */
  lemma RestoreKeepsMemory(cfg: Config, s: State, f: State, save: Save)
    requires Inv(cfg, s) && Inv(cfg, f) && Snapshot(cfg, s) == Ok(save) && Restored(cfg, f, Some(save)).reply.Accepted?
    ensures Restored(cfg, f, Some(save)).state.mem == s.mem <==> HeaderStable(s.mem)
  {
    RestoreSnapshot(cfg, s, f, save);
    hide Inv, Restored, HeaderSet;
  }

  // ----- the last instruction of the image -----

  lemma CallReturnsTo(cfg: Config, s: State, packed: word, args: seq<word>, returnPC: nat, store: byte, hasStore: bool)
    requires Inv(cfg, s) && |args| <= MAX_ARGUMENTS && returnPC <= |cfg.story.image|
    requires Called(cfg, s, packed, args, returnPC, store, hasStore).Done?
    ensures var s' := Called(cfg, s, packed, args, returnPC, store, hasStore).state;
            if |s'.frames| > |s.frames| then s'.Top().returnPC == returnPC else |s'.frames| == |s.frames|
  {
    hide Inv, VariableWritten, HeaderLocals;
  }

  lemma CallExecuted(cfg: Config, s: State, inst: Instr)
    requires Inv(cfg, s) && s.pc <= |cfg.story.image| && |inst.raw.operands| <= MAX_OPERANDS
    requires inst.raw.op == CALL && Executed(cfg, s, inst).Done?
    ensures var s' := Executed(cfg, s, inst).state;
            |s'.frames| > |s.frames| ==> s'.Top().returnPC == s.pc
  {
    hide Inv, OperandValues, Called, Executed0, Executed1, Executed2, StreamChosen, LineTaken, PlainVar;
    OperandsKeepPc(cfg, s, inst.raw.operands);
    var r := OperandValues(cfg, s, inst.raw.operands);
    assert |r.state.Callers()| == |s.Callers()|;
    var store := match inst.raw.store case Some(number) => number case None => 0;
    CallReturnsTo(cfg, r.state, r.value[0], r.value[1..], r.state.pc, store, inst.raw.store.Some?);
  }

  lemma CallStepped(cfg: Config, s: State, inst: Instr)
    requires Inv(cfg, s) && Decoded(s.mem, cfg.story.abbreviations, s.pc) == Ok(inst) && inst.raw.op == CALL
    requires Stepped(cfg, s).Done?
    ensures var s' := Stepped(cfg, s).state;
            |s'.frames| > |s.frames| ==> s'.Top().returnPC == inst.next
  {
    hide Inv, Decoded, Executed;
    InvParts(cfg, s);
    Encoder.DecodedBounds(s.mem, cfg.story.abbreviations, s.pc);
    CallExecuted(cfg, Jumped(cfg, s, inst.next), inst);
  }

  /** No step and no input boundary makes a call the saved-state format cannot record, or
      stops the machine. */
  lemma {:induction false} HistoryKeepsArguments(cfg: Config, trace: seq<State>)
    requires History(cfg, trace) && ArgumentsFit(trace[0].frames) && trace[0].started && !trace[0].halted
    ensures var last := trace[|trace| - 1]; ArgumentsFit(last.frames) && last.started && !last.halted
    decreases |trace|
  {
    hide Inv, Stepped, Beneath, ArgumentsFit, Follows, Boundary;
    if |trace| > 1 {
      if Boundary(cfg, trace[0], trace[1]) {
        BoundaryKeepsFlags(cfg, trace[0], trace[1]);
        BoundaryGuards(cfg, trace[0], trace[1], 0);
      } else {
        StepKeepsFlags(cfg, trace[0]);
        StepKeepsArguments(cfg, trace[0], trace[1]);
      }
      HistoryKeepsArguments(cfg, trace[1..]);
    }
  }

  lemma BoundaryKeepsFlags(cfg: Config, s: State, s': State)
    requires Inv(cfg, s) && Boundary(cfg, s, s') && !s.halted
    ensures s'.started && !s'.halted
  {
    hide Inv, Stepped, HeaderSet, AtRead;
    SuspendsAtRead(cfg, s, Stepped(cfg, s).state);
  }

  /** `s` makes a call that is the last instruction of the image, and `trace` goes from the
      first state inside its routine, without leaving it, to one that suspends as `u`. */
  ghost predicate WaitsInLastCall(cfg: Config, s: State, trace: seq<State>, u: State) {
    && Inv(cfg, s) && ArgumentsFit(s.frames) && s.started && !s.halted
    && (match Decoded(s.mem, cfg.story.abbreviations, s.pc)
        case Ok(inst) => inst.raw.op == CALL && inst.next == |cfg.story.image|
        case Err(_) => false)
    && trace != [] && History(cfg, trace) && Deeper(trace, |s.frames|)
    && Stepped(cfg, s) == Done(trace[0], Continue)
    && Inv(cfg, trace[|trace| - 1]) && Stepped(cfg, trace[|trace| - 1]) == Done(u, Suspend)
  }

  /** A call that is the last instruction of the image returns just past the image. Whenever
      its routine waits for input, however many turns later and whatever it calls, the machine
      is outside the story: a snapshot of it can be taken, and every restore of it is
      refused. */
  lemma LastCallCannotBeRestored(cfg: Config, s: State, trace: seq<State>, u: State, f: State)
    requires WaitsInLastCall(cfg, s, trace, u) && Inv(cfg, f)
    ensures BetweenTurns(cfg, u) && Inv(cfg, u) && !Inside(cfg, u)
    ensures Snapshot(cfg, u).Ok?
    ensures Restored(cfg, f, Some(Snapshot(cfg, u).value)).reply == Rejected(InvalidState)
  {
    hide Inv, Decoded, Stepped, Snapshot, Restored, Beneath, Follows, History, AtRead;
    var n, last := |s.frames|, trace[|trace| - 1];
    CallStepped(cfg, s, Decoded(s.mem, cfg.story.abbreviations, s.pc).value);
    StepKeepsFlags(cfg, s);
    StepKeepsArguments(cfg, s, trace[0]);
    EnteredByCall(cfg, s, trace[0]);
    assert trace[0].frames[n].returnPC == |cfg.story.image|;
    RunGuards(cfg, trace, n);
    HistoryKeepsArguments(cfg, trace);
    SuspendsAtRead(cfg, last, u);
    assert u.frames[n].returnPC == |cfg.story.image|;
    FitsSnapshot(cfg, u);
    RestoreSnapshot(cfg, u, f, Snapshot(cfg, u).value);
  }

  /** So no request for that machine gives what a turn of it would have given. */
  lemma LastCallIsLost(cfg: Config, s: State, trace: seq<State>, u: State, turn: Turn, keeping: Keeping)
    requires WaitsInLastCall(cfg, s, trace, u) && Inv(cfg, u)
    requires cfg.Valid() && Seedable(cfg, turn.creating)
    ensures Snapshot(cfg, u).Ok? && Request(cfg, Snapshot(cfg, u).value, turn) == Rejected(InvalidState)
    ensures Answer(Reported(cfg, OneTurn(cfg, u, turn, keeping))) != Rejected(InvalidState)
  {
    hide Inv, Stepped, Snapshot, History, BetweenTurns, OneTurn, Request, Decoded, Restored, Deeper;
    LastCallCannotBeRestored(cfg, s, trace, u, s);
    RequestRefused(cfg, u, Snapshot(cfg, u).value, turn, keeping);
  }
}
