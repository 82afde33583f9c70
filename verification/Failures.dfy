/** Exactly when a restore fails, what it leaves behind when it does, and so exactly when a
    failed restore leaves the machine as it was (state.go). */
module Failures {
  import opened Words
  import opened Memory
  import opened Decoder
  import opened Random
  import opened Output
  import opened States
  import opened Routines
  import opened Instructions
  import opened Saved
  import opened Snapshots

  // ----- failures after the commit -----

  /** The random chunk can be read but describes no generator. */
  predicate NoGenerator(lib: Library, chunks: seq<Chunk>) {
    RandomPart(chunks).Some? && GeneratorIn(lib, RandomPart(chunks).value).None?
  }

  /** No random chunk can be read, and there is nothing to seed a generator with. */
  predicate NoSeed(cfg: Config, supply: seq<Entropy>, chunks: seq<Chunk>) {
    RandomPart(chunks).None? && !Seedable(cfg, supply)
  }

  /** A value can be returned from the innermost frame: it is a routine's, and the variable
      that takes the result exists. */
  predicate CanReturn(cfg: Config, frames: seq<Frame>) {
    && |frames| > 1
    && var f, caller := frames[|frames| - 1], frames[|frames| - 2];
       f.hasStore ==>
         if f.store == VARIABLE_STACK then f.base < cfg.maxStack
         else f.store <= LOCAL_LAST ==> f.store <= caller.numLocals
  }

  /** The branch data at `pc` returns a value. */
  predicate BranchReturns(m: Mem, pc: nat) {
    match BranchAt(m, pc)
    case Ok((branch, _)) => branch.onTrue && branch.Returns().Some?
    case Err(_) => false
  }

  /** The branch a foreign save stands on cannot be read, leaves the address space, or
      returns where no value can be returned. */
  predicate BranchFails(cfg: Config, m: Mem, pc: nat, frames: seq<Frame>) {
    match BranchAt(m, pc)
    case Err(_) => true
    case Ok((branch, next)) =>
      branch.onTrue && if branch.Returns().Some? then !CanReturn(cfg, frames) else branch.Target(next).Err?
  }

  /** The memory, frames and stack of an acceptable save. */
  ghost predicate Describes(cfg: Config, s: State, save: Save, m: Mem, frames: CallChain, stack: seq<word>) {
    && m == s.mem.(dynamic := save.memory)
    && var chain := RestoredFrames(cfg, save.frames);
       chain.Some? && chain.value.0 == frames && chain.value.1 == stack
  }

  /** The saves that are accepted, and found wanting only after the commit. */
  predicate FailsLate(cfg: Config, supply: seq<Entropy>, save: Save, m: Mem, frames: seq<Frame>) {
    || NoGenerator(cfg.lib, save.chunks)
    || NoSeed(cfg, supply, save.chunks)
    || (!OwnSnapshot(save.chunks) && BranchFails(cfg, m, save.pc, frames))
  }

  lemma LocalFails(cfg: Config, s: State, number: byte, v: word)
    requires Inv(cfg, s)
    ensures VariableWritten(cfg, s, number, v).Fail? <==>
            if number == VARIABLE_STACK then |s.stack| >= cfg.maxStack
            else number <= LOCAL_LAST && number > s.Top().numLocals
  {
    if number >= GLOBAL_FIRST {
      GlobalsExist(cfg, s, number, v);
    }
    hide Inv, GlobalWritten;
  }

  lemma ReturnFails(cfg: Config, s: State, v: word)
    requires Inv(cfg, s)
    ensures Returned(cfg, s, v).Fail? <==> !CanReturn(cfg, s.frames)
    ensures Returned(cfg, s, v).Fail? ==>
              if |s.frames| > 1 then s.Top().base <= |s.stack| && Returned(cfg, s, v).state == Popped(s)
              else Returned(cfg, s, v).state == s
  {
    if |s.frames| > 1 {
      FramePopped(cfg, s);
      LocalFails(cfg, Popped(s), s.Top().store, v);
      FailedWrite(cfg, Popped(s), s.Top().store, v);
      hide Inv, VariableWritten;
    }
  }

  lemma FailedWrite(cfg: Config, s: State, number: byte, v: word)
    requires Inv(cfg, s)
    ensures VariableWritten(cfg, s, number, v).Fail? ==> VariableWritten(cfg, s, number, v).state == s
  {
    if number >= GLOBAL_FIRST {
      GlobalsExist(cfg, s, number, v);
    }
    hide Inv, GlobalWritten;
  }

  lemma ForeignFails(cfg: Config, s: State)
    requires Inv(cfg, s)
    ensures var r := ForeignResumed(cfg, s);
            && (r.reply.Rejected? <==> BranchFails(cfg, s.mem, s.pc, s.frames))
            && (r.reply.Rejected? ==> r.reply == Rejected(InvalidState) && r.state == Stuck(s))
  {
    match BranchAt(s.mem, s.pc)
    case Err(_) =>
    case Ok((branch, next)) =>
      if branch.onTrue && branch.Returns().Some? {
        ReturnFails(cfg, s, branch.Returns().value);
      }
      hide Inv, BranchAt, Returned, CanReturn, OffsetAddress;
  }

  /** What a foreign save that cannot be resumed leaves: a routine it could not return from
      properly is gone. */
  function Stuck(s: State): State {
    if BranchReturns(s.mem, s.pc) && |s.frames| > 1 && s.Top().base <= |s.stack| then Popped(s) else s
  }

  // ----- the whole restore -----

  /** The state a late failure leaves behind. */
  function LeftBehind(cfg: Config, s: State, save: Save, frames: CallChain, stack: seq<word>): State
    requires cfg.Valid() && s.random.Valid(cfg.lib)
  {
    var committed := Committed(s, save, frames, stack);
    if NoGenerator(cfg.lib, save.chunks) then committed
    else if NoSeed(cfg, s.supply, save.chunks) then committed.(supply := LeftOver(s))
    else Stuck(WithNewRandom(cfg, committed).(screen := INITIAL_SCREEN))
  }

  /** A machine whose generator has been seeded as in a new machine. */
  function WithNewRandom(cfg: Config, s: State): State
    requires cfg.Valid() && s.random.Valid(cfg.lib)
  {
    if cfg.hasSeed then
      s.(random := Seeded(cfg.lib, s.random, cfg.seed, NextEntropy(s)), predictable := true,
         supply := if s.random.Frotz? && cfg.seed == 0 then LeftOver(s) else s.supply)
    else if Seedable(cfg, s.supply) then
      s.(random := Reseeded(cfg.lib, s.random.Kind(), s.supply[0].value), predictable := false, supply := s.supply[1..])
    else s
  }

  lemma RandomFails(cfg: Config, s: State, chunks: seq<Chunk>)
    requires Inv(cfg, s)
    ensures cfg.Valid() && s.random.Valid(cfg.lib)
    ensures var r := RandomRestored(cfg, s, chunks);
            && (r.reply.Rejected? <==> NoGenerator(cfg.lib, chunks) || NoSeed(cfg, s.supply, chunks))
            && (NoGenerator(cfg.lib, chunks) ==> r == Restoring(s, Rejected(InvalidState)))
            && (NoSeed(cfg, s.supply, chunks) ==> r == Restoring(s.(supply := LeftOver(s)), Rejected(Running(NoEntropy))))
            && (r.reply.Accepted? && RandomPart(chunks).None? ==> r.state == WithNewRandom(cfg, s))
  {
    InvParts(cfg, s);
    hide Chain, ScreenOk, SameShape, RandomPart, GeneratorIn, Seeded, Reseeded;
  }

  lemma NoOwnChunks(chunks: seq<Chunk>, m: Mem)
    requires !OwnSnapshot(chunks)
    ensures RandomPart(chunks).None? && ScreenRestored(m, chunks) == INITIAL_SCREEN
  {
    hide FindChunk;
  }

  lemma FinishingFails(cfg: Config, s: State, chunks: seq<Chunk>)
    requires Inv(cfg, s)
    ensures cfg.Valid() && s.random.Valid(cfg.lib)
    ensures var r := Finishing(cfg, s, chunks);
            var random := NoGenerator(cfg.lib, chunks) || NoSeed(cfg, s.supply, chunks);
            && (r.reply.Rejected? <==> random || (!OwnSnapshot(chunks) && BranchFails(cfg, s.mem, s.pc, s.frames)))
            && (r.reply.Rejected? && !random ==>
                  r == Restoring(Stuck(WithNewRandom(cfg, s).(screen := INITIAL_SCREEN)), Rejected(InvalidState)))
            && (random ==> r == RandomRestored(cfg, s, chunks))
  {
    hide Inv, RandomRestored, ScreenRestored, ForeignResumed, HeaderSet, RandomPart, BranchFails, NoSeed, NoGenerator, Stuck;
    RandomFails(cfg, s, chunks);
    var random := RandomRestored(cfg, s, chunks);
    if random.reply.Accepted? && !OwnSnapshot(chunks) {
      NoOwnChunks(chunks, random.state.mem);
      ScreenSet(cfg, random.state, chunks);
      ForeignFails(cfg, random.state.(screen := ScreenRestored(random.state.mem, chunks)));
    }
  }

  /** A restore fails if and only if the save is refused before the commit, or its random chunk
      describes no generator, or there is nothing to seed one with, or it comes from another
      interpreter and its branch cannot be taken. */
  lemma RestoreFailsExactly(cfg: Config, s: State, save: Save, m: Mem, frames: CallChain, stack: seq<word>)
    requires Inv(cfg, s)
    requires !Refused(cfg, Some(save)) ==> Describes(cfg, s, save, m, frames, stack)
    ensures Restored(cfg, s, Some(save)).reply.Rejected? <==>
            Refused(cfg, Some(save)) || FailsLate(cfg, s.supply, save, m, frames)
    ensures Restored(cfg, s, Some(save)).reply.Rejected? ==>
              Restored(cfg, s, Some(save)).reply.error ==
              if !Refused(cfg, Some(save)) && NoSeed(cfg, s.supply, save.chunks) then Running(NoEntropy) else InvalidState
  {
    hide Inv, Refused, RestoredFrames, Finishing, BranchFails, NoSeed, NoGenerator;
    if !Refused(cfg, Some(save)) {
      CommittedInv(cfg, s, save);
      FinishingFails(cfg, Committed(s, save, frames, stack), save.chunks);
      RandomFails(cfg, Committed(s, save, frames, stack), save.chunks);
      NotBoth(cfg, s.supply, save.chunks);
    }
  }

  lemma NotBoth(cfg: Config, supply: seq<Entropy>, chunks: seq<Chunk>)
    ensures !(NoSeed(cfg, supply, chunks) && NoGenerator(cfg.lib, chunks))
  {
    hide RandomPart;
  }

  /** A late failure leaves exactly this behind. */
  lemma LateFailureLeaves(cfg: Config, s: State, save: Save, m: Mem, frames: CallChain, stack: seq<word>)
    requires Inv(cfg, s) && !Refused(cfg, Some(save)) && Describes(cfg, s, save, m, frames, stack)
    requires FailsLate(cfg, s.supply, save, m, frames)
    ensures cfg.Valid() && s.random.Valid(cfg.lib)
    ensures Restored(cfg, s, Some(save)).state == LeftBehind(cfg, s, save, frames, stack)
  {
    hide Inv, Refused, RestoredFrames, Finishing, BranchFails, NoSeed, NoGenerator, Stuck, WithNewRandom;
    var committed := Committed(s, save, frames, stack);
    CommittedInv(cfg, s, save);
    FinishingFails(cfg, committed, save.chunks);
    RandomFails(cfg, committed, save.chunks);
    assert LeftOver(committed) == LeftOver(s);
  }

  // ----- when the machine is as it was -----

  /** The machine already is where the save would take it. */
  predicate There(s: State, save: Save, frames: seq<Frame>, stack: seq<word>, pc: nat) {
    && s.mem.dynamic == save.memory && s.pc == pc && s.frames == frames && s.stack == stack
    && s.started && !s.halted && s.input.None? && s.status == NO_STATUS
  }

  /** Seeding the generator as in a new machine would change nothing. */
  predicate NewRandomAlready(cfg: Config, s: State)
    requires cfg.Valid() && s.random.Valid(cfg.lib)
  {
    if cfg.hasSeed then s.predictable && Seeded(cfg.lib, s.random, cfg.seed, NextEntropy(s)) == s.random
    else match NextEntropy(s)
         case None => false
         case Some(e) => !s.predictable && Reseeded(cfg.lib, s.random.Kind(), e) == s.random
  }

  /** A late failure changes nothing: the commit, the generator and the screen all happen to
      be what the machine had. */
  predicate Harmless(cfg: Config, s: State, save: Save, m: Mem, frames: seq<Frame>, stack: seq<word>)
    requires cfg.Valid() && s.random.Valid(cfg.lib)
  {
    if NoGenerator(cfg.lib, save.chunks) then There(s, save, frames, stack, save.pc)
    else if NoSeed(cfg, s.supply, save.chunks) then There(s, save, frames, stack, save.pc)
    else
      && NewRandomAlready(cfg, s)
      && s.screen == INITIAL_SCREEN
      && if BranchReturns(m, save.pc) && |frames| > 1 && frames[|frames| - 1].base <= |stack| then
           var f := frames[|frames| - 1];
           There(s, save, frames[..|frames| - 1], stack[..f.base], f.returnPC)
         else There(s, save, frames, stack, save.pc)
  }

  /** What a restore may change is the machine; what the host's random source has still to
      return is not a part of it. */
  predicate SameMachine(s: State, t: State) {
    t.(supply := s.supply) == s
  }

  lemma NewRandomSame(cfg: Config, s: State)
    requires cfg.Valid() && s.random.Valid(cfg.lib) && Seedable(cfg, s.supply)
    ensures SameMachine(s, WithNewRandom(cfg, s)) <==> NewRandomAlready(cfg, s)
  {
    hide Seeded, Reseeded;
  }

  lemma CommittedSame(s: State, save: Save, frames: CallChain, stack: seq<word>, t: State)
    requires t == s.(random := t.random, predictable := t.predictable, supply := t.supply, screen := t.screen)
    ensures SameMachine(s, Committed(t, save, frames, stack)) <==>
            There(s, save, frames, stack, save.pc) && SameMachine(s, t)
  {
    if There(s, save, frames, stack, save.pc) && SameMachine(s, t) {
      assert s.mem.(dynamic := save.memory) == s.mem;
    }
  }

  lemma StuckSame(s: State, save: Save, m: Mem, frames: CallChain, stack: seq<word>, t: State)
    requires t == s.(random := t.random, predictable := t.predictable, supply := t.supply, screen := t.screen)
    requires m == s.mem.(dynamic := save.memory)
    ensures SameMachine(s, Stuck(Committed(t, save, frames, stack))) <==>
            SameMachine(s, t) &&
            if BranchReturns(m, save.pc) && |frames| > 1 && frames[|frames| - 1].base <= |stack| then
              var f := frames[|frames| - 1];
              There(s, save, frames[..|frames| - 1], stack[..f.base], f.returnPC)
            else There(s, save, frames, stack, save.pc)
  {
    hide BranchReturns;
    CommittedSame(s, save, frames, stack, t);
    if There(s, save, s.frames, s.stack, s.pc) {
      assert s.mem.(dynamic := save.memory) == s.mem;
    }
  }

  lemma LeftBehindSame(cfg: Config, s: State, save: Save, m: Mem, frames: CallChain, stack: seq<word>)
    requires cfg.Valid() && s.random.Valid(cfg.lib) && m == s.mem.(dynamic := save.memory)
    requires FailsLate(cfg, s.supply, save, m, frames)
    ensures SameMachine(s, LeftBehind(cfg, s, save, frames, stack)) <==> Harmless(cfg, s, save, m, frames, stack)
  {
    hide BranchFails, NoGenerator, Stuck, There, BranchReturns;
    if NoGenerator(cfg.lib, save.chunks) {
      CommittedSame(s, save, frames, stack, s);
    } else if NoSeed(cfg, s.supply, save.chunks) {
      var t := s.(supply := LeftOver(s));
      assert Committed(s, save, frames, stack).(supply := LeftOver(s)) == Committed(t, save, frames, stack);
      CommittedSame(s, save, frames, stack, t);
    } else {
      NoOwnChunks(save.chunks, m);
      var t := WithNewRandom(cfg, s).(screen := INITIAL_SCREEN);
      NewRandomSame(cfg, s);
      assert SameMachine(s, t) <==> SameMachine(s, WithNewRandom(cfg, s)) && s.screen == INITIAL_SCREEN;
      NewRandomCommutes(cfg, s, save, frames, stack);
      StuckSame(s, save, m, frames, stack, t);
    }
  }

  lemma NewRandomCommutes(cfg: Config, s: State, save: Save, frames: CallChain, stack: seq<word>)
    requires cfg.Valid() && s.random.Valid(cfg.lib)
    ensures WithNewRandom(cfg, Committed(s, save, frames, stack)).(screen := INITIAL_SCREEN) ==
            Committed(WithNewRandom(cfg, s).(screen := INITIAL_SCREEN), save, frames, stack)
  {
    hide Seeded, Reseeded;
  }

  /** The promise that a failed Restore leaves the machine exactly as it was holds if and only
      if the save was refused before the commit, or what the restore had done by then changed
      nothing. On a machine that has not run the second never happens. */
  lemma FailedRestore(cfg: Config, s: State, save: Save, m: Mem, frames: CallChain, stack: seq<word>)
    requires Inv(cfg, s)
    requires !Refused(cfg, Some(save)) ==> Describes(cfg, s, save, m, frames, stack)
    requires Refused(cfg, Some(save)) || FailsLate(cfg, s.supply, save, m, frames)
    ensures cfg.Valid() && s.random.Valid(cfg.lib)
    ensures SameMachine(s, Restored(cfg, s, Some(save)).state) <==>
            Refused(cfg, Some(save)) || Harmless(cfg, s, save, m, frames, stack)
    ensures !s.started ==> !Harmless(cfg, s, save, m, frames, stack)
  {
    InvParts(cfg, s);
    assert cfg.Valid();
    hide Inv, Refused, RestoredFrames, LeftBehind, FailsLate, NoGenerator, NoSeed, NewRandomAlready, BranchReturns;
    if Refused(cfg, Some(save)) {
      RefusalChangesNothing(cfg, s, Some(save));
    } else {
      LateFailureLeaves(cfg, s, save, m, frames, stack);
      LeftBehindSame(cfg, s, save, m, frames, stack);
    }
  }

  /** For one: a save whose random chunk names a generator that does not exist is accepted,
      fails after the commit, and leaves a machine that had not run changed. */
  lemma RestoreIsNotAtomic(cfg: Config, s: State, save: Save)
    requires Inv(cfg, s) && !s.started && !Refused(cfg, Some(save))
    requires save.chunks == [Chunk(RandomId, [CHUNK_VERSION, 0, 9])]
    ensures Restored(cfg, s, Some(save)).reply == Rejected(InvalidState)
    ensures !SameMachine(s, Restored(cfg, s, Some(save)).state)
  {
    var (frames, stack) := RestoredFrames(cfg, save.frames).value;
    CommittedInv(cfg, s, save);
    var m := s.mem.(dynamic := save.memory);
    hide Inv, Refused, RestoredFrames;
    NoSuchGenerator(cfg.lib, save.chunks);
    hide RandomPart, GeneratorIn, BranchFails;
    RestoreFailsExactly(cfg, s, save, m, frames, stack);
    hide NoGenerator, NoSeed, Harmless;
    FailedRestore(cfg, s, save, m, frames, stack);
  }

  lemma NoSuchGenerator(lib: Library, chunks: seq<Chunk>)
    requires chunks == [Chunk(RandomId, [CHUNK_VERSION, 0, 9])]
    ensures RandomPart(chunks).Some? && NoGenerator(lib, chunks)
  {
    var data: seq<byte> := [CHUNK_VERSION, 0, 9];
    assert FindChunk(chunks, RandomId) == Some(data);
    assert data[3..] == [];
  }
}
