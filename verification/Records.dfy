/** The saved record field by field (state.go; section 4 of Quetzal 1.4): what a snapshot puts
    there, and what a restore refuses and takes. */
module Records {
  import opened Words
  import opened Memory
  import opened Decoder
  import opened Random
  import opened Output
  import opened States
  import opened Routines
  import opened Saved
  import opened Snapshots
  import opened Instructions
  import opened Flow

  /** What a saved game must match: the release number, the serial number and the checksum of
      the story, computed when the file has none. */
  predicate SameStory(cfg: Config, identity: Identity) {
    && identity.release == cfg.story.release && identity.serial == cfg.story.serial
    && identity.checksum == if cfg.story.checksum == 0 then cfg.story.computed else cfg.story.checksum
  }

  /** How many words of stack and local variables a saved chain asks for. */
  function WordsOf(saved: seq<SavedFrame>): nat {
    if saved == [] then 0 else |saved[0].locals| + |saved[0].evaluation| + WordsOf(saved[1..])
  }

  function EvaluationOf(saved: seq<SavedFrame>): nat {
    if saved == [] then 0 else |saved[0].evaluation| + EvaluationOf(saved[1..])
  }

  lemma {:induction false} WordsSnoc(saved: seq<SavedFrame>, last: SavedFrame)
    ensures WordsOf(saved + [last]) == WordsOf(saved) + |last.locals| + |last.evaluation|
    ensures EvaluationOf(saved + [last]) == EvaluationOf(saved) + |last.evaluation|
  {
    if saved == [] {
      assert [last][1..] == [];
      assert saved + [last] == [last];
    } else {
      WordsSnoc(saved[1..], last);
      assert (saved + [last])[1..] == saved[1..] + [last];
    }
  }

  lemma {:induction false} WordsAre(saved: seq<SavedFrame>)
    ensures WordCount(saved) == WordsOf(saved) && |RebuiltStack(saved)| == EvaluationOf(saved)
    decreases |saved|
  {
    if saved != [] {
      var n := |saved| - 1;
      WordsAre(saved[..n]);
      WordsSnoc(saved[..n], saved[n]);
      assert saved[..n] + [saved[n]] == saved;
    }
  }

  /** A restore is refused before it touches the machine unless the save is of this story, fits
      the limits of depth and stack, holds exactly dynamic memory, stands behind the header and
      inside the story, begins with the dummy frame, and has no frame with more than fifteen
      local variables or, the first apart, a return address outside the story. */
  lemma RefusedExactly(cfg: Config, save: Save)
    ensures Refused(cfg, Some(save)) <==>
            !(&& SameStory(cfg, save.identity)
              && |save.memory| == cfg.story.staticBase
              && 64 <= save.pc < |cfg.story.image|
              && 1 <= |save.frames| <= cfg.maxDepth
              && WordsOf(save.frames) <= cfg.maxStack + 15 * cfg.maxDepth
              && EvaluationOf(save.frames) <= cfg.maxStack
              && save.frames[0] == SavedFrame(0, false, 0, 0, [], save.frames[0].evaluation)
              && (forall i :: 0 <= i < |save.frames| ==> |save.frames[i].locals| <= 15)
              && (forall i :: 0 < i < |save.frames| ==> save.frames[i].returnPC < |cfg.story.image|))
  {
    WordsAre(save.frames);
    hide WordCount, WordsOf, RebuiltStack, EvaluationOf, RebuiltFrames;
  }

  // ----- what a snapshot records -----

  /** One frame of the record: the first stands for the initial environment, with its stack
      entries alone; any other has its return address, whether its result is thrown away and
      else the variable it goes to, as many low bits as it got arguments, its local variables,
      and its stack entries. */
  ghost predicate Records(f: Frame, entries: seq<word>, first: bool, saved: SavedFrame) {
    if first then saved == SavedFrame(0, false, 0, 0, [], entries)
    else
      && f.argCount <= 7 && f.numLocals <= |f.locals|
      && saved == SavedFrame(f.returnPC, !f.hasStore, f.store, [0, 1, 3, 7, 15, 31, 63, 127][f.argCount], f.locals[..f.numLocals], entries)
  }

  lemma {:induction false} FrameRecorded(frames: seq<Frame>, stack: seq<word>, top: nat, i: nat)
    requires SavedFrames(frames, stack, top).Ok? && i < |frames|
    ensures var end := if i + 1 < |frames| then frames[i + 1].base else top;
            frames[i].base <= end <= |stack| &&
            Records(frames[i], stack[frames[i].base..end], i == 0, SavedFrames(frames, stack, top).value[i])
    decreases |frames|
  {
    var n := |frames| - 1;
    if i < n {
      FrameRecorded(frames[..n], stack, frames[n].base, i);
    }
  }

  /** A snapshot: the story's identity, the program counter, dynamic memory, every frame of the
      call chain with its own part of the stack, and this engine's two chunks. */
  lemma SnapshotRecords(cfg: Config, s: State, save: Save, i: nat)
    requires Inv(cfg, s) && Snapshot(cfg, s) == Ok(save) && i < |s.frames|
    ensures SameStory(cfg, save.identity) && save.pc == s.pc && save.memory == s.mem.dynamic && |save.frames| == |s.frames|
    ensures var end := if i + 1 < |s.frames| then s.frames[i + 1].base else |s.stack|;
            s.frames[i].base <= end <= |s.stack| && Records(s.frames[i], s.stack[s.frames[i].base..end], i == 0, save.frames[i])
    ensures |save.chunks| == 2 && save.chunks[0].id == RandomId && save.chunks[1].id == ScreenId
    ensures var data, screen := save.chunks[1].data, s.screen;
            && |data| == 5 + 4 * |screen.tables|
            && data[..5] == [2, screen.window, if screen.stream1 then 1 else 0, screen.upperHeight / 256, screen.upperHeight % 256]
  {
    FrameRecorded(s.frames, s.stack, |s.stack|, i);
    hide Inv, SavedFrames, Marshalled, TablesData, RandomData;
  }

  /** Each selected table takes four bytes of the screen's chunk. */
  lemma {:induction false} TableRecorded(tables: seq<Stream>, k: nat)
    requires k < |tables|
    ensures TablesData(tables)[4 * k..4 * k + 4] ==
            [tables[k].table / 256, tables[k].table % 256, tables[k].count / 256, tables[k].count % 256]
  {
    if k > 0 {
      TableRecorded(tables[1..], k - 1);
      assert TablesData(tables)[4 * k..4 * k + 4] == TablesData(tables[1..])[4 * (k - 1)..4 * (k - 1) + 4];
    }
  }

  /** A save from another interpreter goes on as though its save instruction had succeeded: by
      its branch, if that is to be taken on success, or behind it. */
  lemma ForeignGoesOn(cfg: Config, s: State)
    requires Inv(cfg, s) && ForeignResumed(cfg, s).reply.Accepted?
    ensures BranchAt(s.mem, s.pc).Ok?
    ensures var (b, next) := BranchAt(s.mem, s.pc).value;
            ForeignResumed(cfg, s).state == if b.onTrue then Landed(cfg, s, next, b) else s.(pc := next)
  {
    hide Inv, Beneath, Returned, BranchAt, Departed, CanDepart;
    ReturnDeparts(cfg, s, 0);
    ReturnDeparts(cfg, s, 1);
  }
}
