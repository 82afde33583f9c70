/** The saved state (state.go): what a snapshot records of a machine, and what restoring one
    gives. A saved game is a record here; the library that turns it into bytes and back is
    taken to be the identity on the records it accepts. */
module Saved {
  import opened Words
  import opened Memory
  import opened Output
  import opened States

  /** One saved call frame: section 4 of Quetzal 1.4. */
  datatype SavedFrame = SavedFrame(
    returnPC: nat,
    discard: bool,
    result: byte,
    arguments: byte,
    locals: seq<word>,
    evaluation: seq<word>)
  {
    /** The frame that stands for the initial execution environment. */
    predicate IsDummy() {
      returnPC == 0 && !discard && result == 0 && arguments == 0 && locals == []
    }
  }

  // ----- the argument mask -----

  /** `n` arguments as a mask: the low `n` bits. */
  function Mask(n: nat): (mask: byte)
    requires n <= 7
  {
    [0, 1, 3, 7, 15, 31, 63, 127][n]
  }

  /** How many bits of a mask are set. */
  function Ones(mask: nat): nat {
    if mask == 0 then 0 else mask % 2 + Ones(mask / 2)
  }

  /** A mask is a run of low bits, and of the seven arguments a routine can take. */
  predicate IsRun(mask: byte) {
    mask in {0, 1, 3, 7, 15, 31, 63, 127}
  }

  lemma MaskCounts(n: nat)
    requires n <= 7
    ensures Ones(Mask(n)) == n && IsRun(Mask(n))
  {
    OneMoreBit(0);
    OneMoreBit(1);
    OneMoreBit(3);
    OneMoreBit(7);
    OneMoreBit(15);
    OneMoreBit(31);
    OneMoreBit(63);
    hide Ones;
  }

  lemma OneMoreBit(mask: nat)
    ensures Ones(2 * mask + 1) == 1 + Ones(mask) && Ones(0) == 0
  {
  }

  lemma {:induction false} OnesBounded(mask: nat, bits: nat)
    requires mask < Pow2(bits)
    ensures Ones(mask) <= bits
  {
    if mask != 0 {
      OnesBounded(mask / 2, bits - 1);
    }
  }

  /** Counting the bits of a mask and making a mask of the count gives it back exactly when
      it is such a run. */
  lemma RunsRoundTrip(mask: byte)
    ensures Ones(mask) <= 8
    ensures Ones(mask) <= 7 && Mask(Ones(mask)) == mask <==> IsRun(mask)
  {
    assert Pow2(4) == 16 && Pow2(8) == 16 * Pow2(4);
    OnesBounded(mask, 8);
    if IsRun(mask) {
      RunIsMask(mask);
    } else if Ones(mask) <= 7 {
      MaskCounts(Ones(mask));
    }
    hide Mask, Ones;
  }

  lemma RunIsMask(mask: byte)
    requires IsRun(mask)
    ensures Ones(mask) <= 7 && Mask(Ones(mask)) == mask
  {
    hide Ones;
    var n := if mask == 0 then 0 else if mask == 1 then 1 else if mask == 3 then 2 else if mask == 7 then 3
             else if mask == 15 then 4 else if mask == 31 then 5 else if mask == 63 then 6 else 7;
    assert mask == Mask(n);
    MaskCounts(n);
  }

  // ----- saving the call chain -----

  /** A frame has slots for 15 locals, so the last check never fails. */
  function SavedOf(f: Frame, evaluation: seq<word>, first: bool): Result<SavedFrame> {
    if first then Ok(SavedFrame(0, false, 0, 0, [], evaluation))
    else if f.argCount > 7 || f.numLocals > MAX_LOCALS || f.numLocals > |f.locals| then Err(ExecutionFault)
    else Ok(SavedFrame(f.returnPC, !f.hasStore, f.store, Mask(f.argCount), f.locals[..f.numLocals], evaluation))
  }

  /** saveFrames: each frame takes the stack entries from its own watermark to the next
      frame's; the innermost one up to `top`. */
  function SavedFrames(frames: seq<Frame>, stack: seq<word>, top: nat): (r: Result<seq<SavedFrame>>)
    ensures r.Ok? ==> |r.value| == |frames|
    decreases |frames|
  {
    if frames == [] then Ok([])
    else
      var n := |frames| - 1;
      var f := frames[n];
      if top < f.base || top > |stack| then Err(ExecutionFault)
      else
        var front :- SavedFrames(frames[..n], stack, f.base);
        var last :- SavedOf(f, stack[f.base..top], n == 0);
        Ok(front + [last])
  }

  method SaveFrames(frames: seq<Frame>, stack: seq<word>) returns (r: Result<seq<SavedFrame>>)
    ensures r == SavedFrames(frames, stack, |stack|)
  {
    hide SavedOf;
    var out: seq<SavedFrame> := [];
    for i := 0 to |frames|
      invariant i > 0 ==> SavedFrames(frames[..i], stack, TopOf(frames, stack, i - 1)) == Ok(out)
      invariant i == 0 ==> out == []
    {
      var f := frames[i];
      var top := TopOf(frames, stack, i);
      assert frames[..i + 1][..i] == frames[..i];
      if top < f.base || top > |stack| {
        SaveFails(frames, stack, i + 1);
        return Err(ExecutionFault);
      }
      var saved := SavedOf(f, stack[f.base..top], i == 0);
      if saved.Err? {
        SaveFails(frames, stack, i + 1);
        SaveFault(f, stack[f.base..top], i == 0);
        return Err(ExecutionFault);
      }
      out := out + [saved.value];
    }
    assert frames[..|frames|] == frames;
    return Ok(out);
  }

  /** Where the stack entries of frame `i` end. */
  function TopOf(frames: seq<Frame>, stack: seq<word>, i: nat): nat {
    if i + 1 < |frames| then frames[i + 1].base else |stack|
  }

  lemma SaveFault(f: Frame, evaluation: seq<word>, first: bool)
    ensures SavedOf(f, evaluation, first).Err? ==> SavedOf(f, evaluation, first).error == ExecutionFault
  {
  }

  /** A chain whose first `i` frames cannot be saved cannot be saved at all. */
  lemma {:induction false} SaveFails(frames: seq<Frame>, stack: seq<word>, i: nat)
    requires 1 <= i <= |frames|
    requires SavedFrames(frames[..i], stack, TopOf(frames, stack, i - 1)).Err?
    ensures SavedFrames(frames, stack, |stack|) == Err(ExecutionFault)
    decreases |frames| - i
  {
    if i < |frames| {
      assert frames[..i + 1][..i] == frames[..i];
      SaveFails(frames, stack, i + 1);
    } else {
      assert frames[..i] == frames;
      SaveErrors(frames, stack, |stack|);
    }
  }

  lemma {:induction false} SaveErrors(frames: seq<Frame>, stack: seq<word>, top: nat)
    requires SavedFrames(frames, stack, top).Err?
    ensures SavedFrames(frames, stack, top).error == ExecutionFault
    decreases |frames|
  {
    var n := |frames| - 1;
    if frames[n].base <= top <= |stack| && SavedFrames(frames[..n], stack, frames[n].base).Err? {
      SaveErrors(frames[..n], stack, frames[n].base);
    }
  }

  // ----- rebuilding the call chain -----

  function Padded(locals: seq<word>): (r: seq<word>)
    requires |locals| <= MAX_LOCALS
    ensures |r| == MAX_LOCALS && ZeroFrom(r, |locals|) && r[..|locals|] == locals
  {
    locals + ZERO_LOCALS[|locals|..]
  }

  function FrameFrom(story: Story, f: SavedFrame, base: nat, first: bool): Frame
    requires |f.locals| <= MAX_LOCALS
  {
    if first then BaseFrame(story).(base := base)
    else Frame(f.returnPC, Padded(f.locals), |f.locals|, Ones(f.arguments), base, f.result, !f.discard)
  }

  ghost predicate FewLocals(saved: seq<SavedFrame>) {
    forall i :: 0 <= i < |saved| ==> |saved[i].locals| <= MAX_LOCALS
  }

  /** All the evaluation stacks, innermost last. */
  function RebuiltStack(saved: seq<SavedFrame>): seq<word> {
    if saved == [] then [] else RebuiltStack(saved[..|saved| - 1]) + saved[|saved| - 1].evaluation
  }

  function RebuiltFrames(story: Story, saved: seq<SavedFrame>): (frames: seq<Frame>)
    requires FewLocals(saved)
    ensures |frames| == |saved|
  {
    if saved == [] then []
    else
      var n := |saved| - 1;
      RebuiltFrames(story, saved[..n]) + [FrameFrom(story, saved[n], |RebuiltStack(saved[..n])|, n == 0)]
  }

  /** What restoredFrames checks before it builds anything. */
  ghost predicate Acceptable(cfg: Config, saved: seq<SavedFrame>) {
    && 0 < |saved| <= cfg.maxDepth
    && saved[0].IsDummy()
    && |RebuiltStack(saved)| <= cfg.maxStack
    && FewLocals(saved)
    && Readable(cfg, saved)
  }

  ghost predicate Readable(cfg: Config, saved: seq<SavedFrame>) {
    forall i :: 0 < i < |saved| ==> saved[i].returnPC < |cfg.story.image|
  }

  ghost function RestoredFrames(cfg: Config, saved: seq<SavedFrame>): Option<(seq<Frame>, seq<word>)> {
    if Acceptable(cfg, saved) then Some((RebuiltFrames(cfg.story, saved), RebuiltStack(saved))) else None
  }

  lemma {:induction false} StackGrows(saved: seq<SavedFrame>, i: nat)
    requires i <= |saved|
    ensures |RebuiltStack(saved[..i])| <= |RebuiltStack(saved)|
    decreases |saved|
  {
    if i < |saved| {
      assert saved[..|saved| - 1][..i] == saved[..i];
      StackGrows(saved[..|saved| - 1], i);
    } else {
      assert saved[..i] == saved;
    }
  }

  lemma OneMore(saved: seq<SavedFrame>, i: nat)
    requires i < |saved|
    ensures RebuiltStack(saved[..i + 1]) == RebuiltStack(saved[..i]) + saved[i].evaluation
  {
    assert saved[..i + 1][..i] == saved[..i];
  }

  /** The checks, with their running total, before anything is built. */
  method CheckFrames(cfg: Config, saved: seq<SavedFrame>) returns (ok: bool)
    ensures ok == Acceptable(cfg, saved)
  {
    hide RebuiltStack, SavedFrame.IsDummy;
    if |saved| == 0 || |saved| > cfg.maxDepth || !saved[0].IsDummy() {
      return false;
    }
    var total := 0;
    assert RebuiltStack(saved[..0]) == [] by {
      NoStack();
    }
    for i := 0 to |saved|
      invariant total == |RebuiltStack(saved[..i])| <= cfg.maxStack
      invariant FewLocals(saved[..i]) && Readable(cfg, saved[..i])
    {
      OneMore(saved, i);
      StackGrows(saved, i + 1);
      total := total + |saved[i].evaluation|;
      if total > cfg.maxStack {
        return false;
      }
      if |saved[i].locals| > MAX_LOCALS {
        return false;
      }
      if i > 0 && saved[i].returnPC >= |cfg.story.image| {
        return false;
      }
    }
    assert saved[..|saved|] == saved;
    return true;
  }

  lemma NoStack()
    ensures RebuiltStack([]) == []
  {
  }

  method RestoreFrames(cfg: Config, saved: seq<SavedFrame>) returns (r: Option<(seq<Frame>, seq<word>)>)
    ensures r == RestoredFrames(cfg, saved)
  {
    hide Acceptable, FrameFrom, FewLocals;
    var ok := CheckFrames(cfg, saved);
    if !ok {
      return None;
    }
    FewOf(cfg, saved);
    var frames: seq<Frame> := [];
    var stack: seq<word> := [];
    assert saved[..0] == [];
    for i := 0 to |saved|
      invariant FewLocals(saved[..i])
      invariant frames == RebuiltFrames(cfg.story, saved[..i]) && stack == RebuiltStack(saved[..i])
    {
      FewPrefix(saved, i);
      assert saved[..i + 1][..i] == saved[..i];
      frames := frames + [FrameFrom(cfg.story, saved[i], |stack|, i == 0)];
      stack := stack + saved[i].evaluation;
    }
    assert saved[..|saved|] == saved;
    return Some((frames, stack));
  }

  lemma FewOf(cfg: Config, saved: seq<SavedFrame>)
    requires Acceptable(cfg, saved)
    ensures FewLocals(saved) && FewLocals([])
  {
  }

  lemma FewPrefix(saved: seq<SavedFrame>, i: nat)
    requires FewLocals(saved) && i < |saved|
    ensures |saved[i].locals| <= MAX_LOCALS && FewLocals(saved[..i + 1])
  {
  }

  // ----- saving then restoring -----

  /** Every call was made with at most the seven arguments the format can record. */
  ghost predicate ArgumentsFit(frames: seq<Frame>) {
    forall i :: 0 <= i < |frames| ==> frames[i].argCount <= 7
  }

  /** Every routine returns to a byte of the story. A call that is the last instruction of the
      image returns just past it. */
  ghost predicate ReturnsInside(cfg: Config, frames: seq<Frame>) {
    forall i :: 0 < i < |frames| ==> frames[i].returnPC < |cfg.story.image|
  }

  lemma FrameReturns(story: Story, f: Frame, evaluation: seq<word>)
    requires FrameOk(|story.image|, f) && f.argCount <= 7
    ensures var r := SavedOf(f, evaluation, false);
            && r.Ok? && |r.value.locals| <= MAX_LOCALS && r.value.evaluation == evaluation
            && r.value.returnPC == f.returnPC && IsRun(r.value.arguments)
            && FrameFrom(story, r.value, f.base, false) == f
  {
    MaskCounts(f.argCount);
    assert Padded(f.locals[..f.numLocals]) == f.locals;
  }

  /** What saving a chain gives back when it is rebuilt. */
  ghost predicate Rebuilds(story: Story, frames: seq<Frame>, stack: seq<word>, saved: seq<SavedFrame>) {
    && |saved| == |frames| > 0
    && saved[0].IsDummy()
    && FewLocals(saved)
    && RebuiltStack(saved) == stack
    && RebuiltFrames(story, saved) == frames
    && forall i :: 0 < i < |saved| ==> saved[i].returnPC == frames[i].returnPC
  }

  lemma RebuildsMore(story: Story, frames: seq<Frame>, stack: seq<word>, saved: seq<SavedFrame>, f: Frame, last: SavedFrame)
    requires Rebuilds(story, frames, stack, saved)
    requires |last.locals| <= MAX_LOCALS && last.returnPC == f.returnPC
    requires FrameFrom(story, last, |stack|, false) == f
    ensures Rebuilds(story, frames + [f], stack + last.evaluation, saved + [last])
  {
    hide FrameFrom, SavedFrame.IsDummy;
    assert (saved + [last])[..|saved|] == saved;
  }

  lemma {:induction false} ChainRebuilds(story: Story, frames: seq<Frame>, stack: seq<word>, top: nat)
    requires Chain(story, frames, top) && top <= |stack| && ArgumentsFit(frames)
    ensures SavedFrames(frames, stack, top).Ok? && Rebuilds(story, frames, stack[..top], SavedFrames(frames, stack, top).value)
    decreases |frames|
  {
    var n := |frames| - 1;
    if n == 0 {
      BaseRebuilds(story, frames, stack, top);
    } else {
      hide Rebuilds, FrameFrom, SavedOf, FrameOk, IsRun;
      var f, front := frames[n], frames[..n];
      ChainRebuilds(story, front, stack, f.base);
      FrameReturns(story, f, stack[f.base..top]);
      var saved, last := SavedFrames(front, stack, f.base).value, SavedOf(f, stack[f.base..top], false).value;
      hide Chain;
      assert stack[..f.base] + stack[f.base..top] == stack[..top] && front + [f] == frames;
      RebuildsMore(story, front, stack[..f.base], saved, f, last);
    }
  }

  lemma BaseRebuilds(story: Story, frames: seq<Frame>, stack: seq<word>, top: nat)
    requires frames == [BaseFrame(story)] && top <= |stack|
    ensures SavedFrames(frames, stack, top).Ok? && Rebuilds(story, frames, stack[..top], SavedFrames(frames, stack, top).value)
  {
    var dummy := SavedFrame(0, false, 0, 0, [], stack[..top]);
    assert frames[..0] == [] && stack[0..top] == stack[..top];
    assert SavedFrames(frames, stack, top) == Ok([] + [dummy]);
    var saved := [dummy];
    assert saved[..0] == [] && RebuiltStack(saved) == [] + stack[..top];
    assert RebuiltFrames(story, saved) == [] + [BaseFrame(story)];
  }

  /** Saving the call chain of any valid machine and restoring it: it can be saved exactly
      when every call took at most seven arguments; and then restoring it on a machine with
      the same limits gives every frame and the whole stack back exactly when every return
      address lies inside the story. */
  lemma SaveThenRestore(cfg: Config, s: State)
    requires Inv(cfg, s)
    ensures var saved := SavedFrames(s.frames, s.stack, |s.stack|);
            && (saved.Ok? <==> ArgumentsFit(s.frames))
            && (saved.Ok? ==> (RestoredFrames(cfg, saved.value) == Some((s.frames, s.stack)) <==> ReturnsInside(cfg, s.frames)))
  {
    hide ScreenOk, FrameOk, SavedFrame.IsDummy;
    if ArgumentsFit(s.frames) {
      ChainRebuilds(cfg.story, s.frames, s.stack, |s.stack|);
      assert s.stack[..|s.stack|] == s.stack;
    } else if SavedFrames(s.frames, s.stack, |s.stack|).Ok? {
      SaveNeedsFit(cfg.story, s.frames, s.stack, |s.stack|);
    }
  }

  lemma {:induction false} SaveNeedsFit(story: Story, frames: seq<Frame>, stack: seq<word>, top: nat)
    requires Chain(story, frames, top) && SavedFrames(frames, stack, top).Ok?
    ensures ArgumentsFit(frames)
    decreases |frames|
  {
    hide FrameOk;
    var n := |frames| - 1;
    if n > 0 {
      SaveNeedsFit(story, frames[..n], stack, frames[n].base);
      assert forall i :: 0 <= i < n ==> frames[i] == frames[..n][i];
    }
  }

  // ----- restoring then saving -----

  lemma FrameAccepted(story: Story, f: SavedFrame, base: nat)
    requires |f.locals| <= MAX_LOCALS && f.returnPC < |story.image|
    ensures FrameOk(|story.image|, FrameFrom(story, f, base, false))
  {
    RunsRoundTrip(f.arguments);
  }

  lemma {:induction false} AcceptedChain(story: Story, saved: seq<SavedFrame>)
    requires saved != [] && FewLocals(saved)
    requires forall i :: 0 < i < |saved| ==> saved[i].returnPC < |story.image|
    ensures Chain(story, RebuiltFrames(story, saved), |RebuiltStack(saved)|)
    decreases |saved|
  {
    var n := |saved| - 1;
    var frames := RebuiltFrames(story, saved);
    if n == 0 {
      assert saved[..0] == [];
    } else {
      AcceptedChain(story, saved[..n]);
      FrameAccepted(story, saved[n], |RebuiltStack(saved[..n])|);
      assert frames[..n] == RebuiltFrames(story, saved[..n]);
      hide FrameFrom, FrameOk;
    }
  }

  /** Every saved chain that is accepted rebuilds to a chain any machine may have: watermarks
      in order, unused locals zero, within the limits. */
  lemma RestoredIsValid(cfg: Config, saved: seq<SavedFrame>)
    requires RestoredFrames(cfg, saved).Some?
    ensures var (frames, stack) := RestoredFrames(cfg, saved).value;
            && Chain(cfg.story, frames, |stack|) && |frames| <= cfg.maxDepth && |stack| <= cfg.maxStack
  {
    AcceptedChain(cfg.story, saved);
    hide Chain, SavedFrame.IsDummy;
  }

  /** Every argument mask but the dummy frame's is a run of low bits. */
  ghost predicate MasksAreRuns(saved: seq<SavedFrame>) {
    forall i :: 0 < i < |saved| ==> IsRun(saved[i].arguments)
  }

  lemma FrameResaved(story: Story, f: SavedFrame, base: nat, first: bool)
    requires |f.locals| <= MAX_LOCALS && (first ==> f.IsDummy())
    ensures SavedOf(FrameFrom(story, f, base, first), f.evaluation, first) == Ok(f) <==> first || IsRun(f.arguments)
  {
    RunsRoundTrip(f.arguments);
    hide IsRun, Ones, Mask;
  }

  lemma {:induction false} RebuiltResaved(story: Story, saved: seq<SavedFrame>, stack: seq<word>)
    requires FewLocals(saved) && (saved != [] ==> saved[0].IsDummy()) && RebuiltStack(saved) <= stack
    ensures SavedFrames(RebuiltFrames(story, saved), stack, |RebuiltStack(saved)|) == Ok(saved) <==> MasksAreRuns(saved)
    decreases |saved|
  {
    hide FrameFrom, SavedOf, SavedFrame.IsDummy, IsRun, SavedFrames;
    if saved == [] {
      NothingSaved(stack);
    } else {
      var n := |saved| - 1;
      var front, last, fs := saved[..n], saved[n], RebuiltFrames(story, saved[..n]);
      var base := |RebuiltStack(front)|;
      var f := FrameFrom(story, last, base, n == 0);
      assert RebuiltFrames(story, saved) == fs + [f] && saved == front + [last];
      assert stack[base..|RebuiltStack(saved)|] == last.evaluation;
      RebuiltResaved(story, front, stack);
      SavedSnoc(story, fs, last, base, stack, |RebuiltStack(saved)|);
      FrameResaved(story, last, base, n == 0);
      hide RebuiltFrames, RebuiltStack, FewLocals;
      OkSnoc(SavedFrames(fs, stack, base), front, SavedOf(f, last.evaluation, n == 0), last);
      RunsSnoc(front, last);
    }
  }

  lemma NothingSaved(stack: seq<word>)
    ensures SavedFrames([], stack, 0) == Ok([])
  {
  }

  /** One frame more, put on the list when everything below it is. */
  function Snoc(front: Result<seq<SavedFrame>>, last: Result<SavedFrame>): Result<seq<SavedFrame>> {
    var fs :- front;
    var f :- last;
    Ok(fs + [f])
  }

  lemma SavedSnoc(story: Story, fs: seq<Frame>, last: SavedFrame, base: nat, stack: seq<word>, top: nat)
    requires |last.locals| <= MAX_LOCALS && base <= top <= |stack|
    ensures var f := FrameFrom(story, last, base, fs == []);
            SavedFrames(fs + [f], stack, top) == Snoc(SavedFrames(fs, stack, base), SavedOf(f, stack[base..top], fs == []))
  {
    var f := FrameFrom(story, last, base, fs == []);
    assert f.base == base;
    hide FrameFrom, SavedOf;
    assert (fs + [f])[..|fs|] == fs;
  }

  lemma OkSnoc(front: Result<seq<SavedFrame>>, fs: seq<SavedFrame>, last: Result<SavedFrame>, f: SavedFrame)
    requires front.Ok? ==> |front.value| == |fs|
    ensures Snoc(front, last) == Ok(fs + [f]) <==> front == Ok(fs) && last == Ok(f)
  {
    if front.Ok? && last.Ok? && front.value + [last.value] == fs + [f] {
      assert (front.value + [last.value])[..|fs|] == (fs + [f])[..|fs|];
      assert (front.value + [last.value])[|fs|] == (fs + [f])[|fs|];
    }
  }

  lemma RunsSnoc(front: seq<SavedFrame>, last: SavedFrame)
    ensures MasksAreRuns(front + [last]) <==> MasksAreRuns(front) && (front == [] || IsRun(last.arguments))
  {
    hide IsRun;
    var all := front + [last];
    assert all[|front|] == last;
    if MasksAreRuns(all) {
      forall i | 0 < i < |front| ensures IsRun(front[i].arguments) {
        assert all[i] == front[i];
      }
    }
  }

  /** Restoring a saved chain and saving it again gives the same chain back exactly when
      every argument mask is a contiguous run of the low seven bits. */
  lemma RestoreThenSave(cfg: Config, saved: seq<SavedFrame>)
    requires RestoredFrames(cfg, saved).Some?
    ensures var (frames, stack) := RestoredFrames(cfg, saved).value;
            SavedFrames(frames, stack, |stack|) == Ok(saved) <==> MasksAreRuns(saved)
  {
    RebuiltResaved(cfg.story, saved, RebuiltStack(saved));
  }
}
