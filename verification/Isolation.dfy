/** What a run of any length leaves alone: the frames and stack entries of the routines
    waiting for the current one (routine.go, stack.go). */
module Isolation {
  import opened Words
  import opened States
  import opened Routines
  import opened Instructions
  import opened Execution
  import opened Random
  import opened Text
  import opened Snapshots
  import opened Equivalence

  /** What a routine leaves to those waiting for it: their frames, the fixed part of its own,
      and the stack entries below its watermark. */
  datatype Kept = Kept(callers: seq<Frame>, routine: Frame, lower: seq<word>)

  function KeptOf(c: Context): Kept {
    Kept(c.callers, c.routine, c.lower)
  }

  /** The first `n` frames whole, the fixed part of the next one, and the stack entries below
      its watermark. */
  function Guarded(s: State, n: nat): Kept
    requires n < |s.frames|
  {
    Kept(s.frames[..n], s.frames[n].(locals := []), Taken(s.stack, s.frames[n].base))
  }

  /** The same, read off the context of the current routine. */
  function Inner(c: Context, n: nat): Kept
    requires n < |c.callers|
  {
    Kept(c.callers[..n], c.callers[n].(locals := []), Taken(c.lower, c.callers[n].base))
  }

  lemma {:induction false} WatermarksOrdered(cfg: Config, frames: seq<Frame>, height: nat, n: nat)
    requires Chain(cfg.story, frames, height) && n < |frames|
    ensures frames[n].base <= height
    ensures n < |frames| - 1 ==> frames[n].base <= frames[|frames| - 1].base
  {
    hide FrameOk;
    if n < |frames| - 1 {
      WatermarksOrdered(cfg, frames[..|frames| - 1], frames[|frames| - 1].base, n);
    }
  }

  lemma TakenTwice(stack: seq<word>, low: nat, high: nat)
    requires low <= high
    ensures Taken(Taken(stack, high), low) == Taken(stack, low) || |stack| < low
    ensures high <= |stack| ==> Taken(Taken(stack, high), low) == Taken(stack, low)
  {
  }

  lemma GuardedInside(cfg: Config, s: State, n: nat)
    requires Inv(cfg, s) && n < |s.frames|
    ensures n == |s.frames| - 1 ==> Guarded(s, n) == KeptOf(Beneath(s))
    ensures n < |s.frames| - 1 ==> Guarded(s, n) == Inner(Beneath(s), n)
    ensures n < |s.frames| - 1 ==> s.frames[n].base <= s.Top().base <= |s.stack|
  {
    WatermarksOrdered(cfg, s.frames, |s.stack|, n);
    InvParts(cfg, s);
    hide Inv, Chain;
    if n < |s.frames| - 1 {
      TakenTwice(s.stack, s.frames[n].base, s.Top().base);
    }
  }

  lemma CallGuards(cfg: Config, s: State, s': State, n: nat)
    requires Inv(cfg, s) && Inv(cfg, s') && Entered(Beneath(s), s') && n < |s.frames|
    ensures Guarded(s', n) == Guarded(s, n)
  {
    GuardedInside(cfg, s, n);
    GuardedInside(cfg, s', n);
    hide Inv;
    var c := Beneath(s);
    assert s'.frames[..n] == s'.Callers()[..n] && s'.frames[n] == s'.Callers()[n];
    if n < |s.frames| - 1 {
      assert s'.Callers()[..n] == s'.Callers()[..|c.callers|][..n] && s'.Callers()[n] == s'.Callers()[..|c.callers|][n];
      assert s'.frames[n] == s.frames[n];
      EnteredHeight(cfg, s, s');
      TakenTwice(s'.stack, s.frames[n].base, c.routine.base);
    }
  }

  lemma EnteredHeight(cfg: Config, s: State, s': State)
    requires Inv(cfg, s) && Inv(cfg, s') && Entered(Beneath(s), s')
    ensures s.Top().base <= |s'.stack|
  {
    GuardedInside(cfg, s', |s.frames| - 1);
    hide Inv;
    assert s'.Callers()[|s.frames| - 1] == s'.frames[|s.frames| - 1];
  }

  lemma ReturnGuards(cfg: Config, s: State, s': State, n: nat)
    requires Inv(cfg, s) && Inv(cfg, s') && ReturnedTo(Beneath(s), s') && n < |s'.frames|
    ensures n < |s.frames| && Guarded(s', n) == Guarded(s, n)
  {
    var c := Beneath(s);
    var v: word :| (s'.frames, s'.stack) == Delivered(c, v);
    assert |s'.frames| == |c.callers|;
    GuardedInside(cfg, s, n);
    hide Inv;
    assert s'.frames[..n] == c.callers[..n] && s'.frames[n].(locals := []) == c.callers[n].(locals := []);
    assert c.callers[n].base <= |c.lower|;
    assert Taken(s'.stack, c.callers[n].base) == Taken(c.lower, c.callers[n].base);
  }

  /** One step leaves alone every routine that is waiting before and after it. */
  lemma StepGuards(cfg: Config, s: State, s': State, n: nat)
    requires Inv(cfg, s) && Inv(cfg, s') && Follows(cfg, Beneath(s), s')
    requires 1 <= n < |s.frames| && n < |s'.frames|
    ensures Guarded(s', n) == Guarded(s, n)
  {
    hide Inv, Entered, ReturnedTo, Guarded, Inner;
    if Entered(Beneath(s), s') {
      CallGuards(cfg, s, s', n);
    } else if ReturnedTo(Beneath(s), s') {
      ReturnGuards(cfg, s, s', n);
    } else if Beneath(s') == Beneath(s) {
      assert |s'.frames| == |s.frames|;
      GuardedInside(cfg, s, n);
      GuardedInside(cfg, s', n);
    }
  }

  // ----- runs through input boundaries -----

  /** The loop of the next turn begins in `s'`, on the suspended machine `u` itself or on a
      fresh one restored from its snapshot. */
  ghost predicate Reopens(u: State, s': State, line: Str, supply: seq<Entropy>) {
    s' == TurnBegun(u, line, supply) || s' == TurnBegun(Resumed(u, u), line, supply)
  }

  /** The machine suspends, and goes on with a line of input. */
  ghost predicate Boundary(cfg: Config, s: State, s': State)
    requires Inv(cfg, s)
  {
    && Stepped(cfg, s).Done? && Stepped(cfg, s).value == Suspend
    && exists line: Str, supply: seq<Entropy> :: Reopens(Stepped(cfg, s).state, s', line, supply)
  }

  /** Consecutive states of a whole session: steps, and input boundaries between turns. */
  ghost predicate History(cfg: Config, trace: seq<State>) {
    && trace != []
    && Inv(cfg, trace[0])
    && (|trace| > 1 ==>
          && (Stepped(cfg, trace[0]) == Done(trace[1], Continue) || Boundary(cfg, trace[0], trace[1]))
          && History(cfg, trace[1..]))
  }

  /** A run within one call is a part of a history. */
  lemma {:induction false} RunIsHistory(cfg: Config, trace: seq<State>)
    requires Trace(cfg, trace)
    ensures History(cfg, trace)
    decreases |trace|
  {
    hide Inv, Stepped, Boundary;
    if |trace| > 1 {
      RunIsHistory(cfg, trace[1..]);
    }
  }

  /** Restoring the snapshot of a suspended machine and giving it a line is an input boundary. */
  lemma RestoringIsBoundary(cfg: Config, s: State, f: State, save: Save, line: Str, supply: seq<Entropy>)
    requires Inv(cfg, s) && Inv(cfg, f) && Stepped(cfg, s).Done? && Stepped(cfg, s).value == Suspend
    requires Snapshot(cfg, Stepped(cfg, s).state) == Ok(save) && Restored(cfg, f, Some(save)).reply.Accepted?
    ensures Boundary(cfg, s, TurnBegun(Restored(cfg, f, Some(save)).state, line, supply))
  {
    hide Inv, Stepped, Snapshot, Restored, HeaderSet;
    var u := Stepped(cfg, s).state;
    RestoreSnapshot(cfg, u, f, save);
    assert Reopens(u, TurnBegun(Resumed(u, f), line, supply), line, supply);
  }

  lemma BoundaryGuards(cfg: Config, s: State, s': State, n: nat)
    requires Inv(cfg, s) && Boundary(cfg, s, s') && n < |s.frames|
    ensures s'.frames == s.frames && s'.stack == s.stack && Guarded(s', n) == Guarded(s, n)
  {
    hide Inv, Stepped, HeaderSet, AtRead;
    SuspendsAtRead(cfg, s, Stepped(cfg, s).state);
  }

  ghost predicate Deeper(trace: seq<State>, n: nat) {
    forall i :: 0 <= i < |trace| ==> n < |trace[i].frames|
  }

  /** Over any history in which the call chain stays deeper than its first `n` frames, however
      many turns it takes, those frames (locals included) and every stack entry below the
      watermark of the next one are unchanged. */
  lemma {:induction false} RunGuards(cfg: Config, trace: seq<State>, n: nat)
    requires History(cfg, trace) && n >= 1 && Deeper(trace, n)
    ensures Inv(cfg, trace[|trace| - 1]) && Guarded(trace[|trace| - 1], n) == Guarded(trace[0], n)
    decreases |trace|
  {
    hide Inv, Guarded, Stepped, Follows, Boundary;
    if |trace| > 1 {
      if Boundary(cfg, trace[0], trace[1]) {
        BoundaryGuards(cfg, trace[0], trace[1], n);
      } else {
        StepGuards(cfg, trace[0], trace[1], n);
      }
      assert forall i :: 0 <= i < |trace[1..]| ==> trace[1..][i] == trace[i + 1];
      RunGuards(cfg, trace[1..], n);
    }
  }

  /** A call, everything the called routine does (calls of its own and input boundaries
      included), and the matching return: `caller` made the call, `trace` goes from the first
      state inside the routine and `back` is the state after the step that leaves it. */
  ghost predicate WholeCall(cfg: Config, caller: State, trace: seq<State>, back: State) {
    && Inv(cfg, caller)
    && trace != [] && History(cfg, trace)
    && Stepped(cfg, caller) == Done(trace[0], Continue)
    && Deeper(trace, |caller.frames|)
    && Inv(cfg, trace[|trace| - 1])
    && Stepped(cfg, trace[|trace| - 1]) == Done(back, Continue)
    && |back.frames| <= |caller.frames|
  }

  /** The effect of a whole call on the caller: its frames and its stack are exactly what
      they were when the routine was entered, but for the value returned, which is pushed
      when the result variable is $00, or set in the local variable it names. Control is
      back where the call asked for. Only when the routine's last instruction is restart does
      the story begin again instead. */
  lemma ReturnRestoresCaller(cfg: Config, caller: State, trace: seq<State>, back: State) returns (v: word)
    requires WholeCall(cfg, caller, trace, back)
    ensures |trace[0].frames| == |caller.frames| + 1
    ensures if AtRestart(cfg, trace[|trace| - 1]) then Afresh(cfg, back)
            else
              var f, frames, stack := trace[0].Top(), trace[0].Callers(), trace[0].stack;
              && back.pc == f.returnPC
              && back.stack == (if f.hasStore && f.store == VARIABLE_STACK then stack + [v] else stack)
              && back.frames == (if f.hasStore && 1 <= f.store <= LOCAL_LAST then WithLocal(frames, f.store, v) else frames)
  {
    hide Inv, Stepped, History, Afresh, AtRestart;
    var first, last, n := trace[0], trace[|trace| - 1], |caller.frames|;
    RunGuards(cfg, trace, n);
    EnteredByCall(cfg, caller, first);
    assert n < |last.frames|;
    v := LeavesTo(cfg, last, back, n);
    hide WholeCall, Deeper;
    assert Taken(first.stack, first.Top().base) == first.stack;
    assert Guarded(first, n) == Kept(first.Callers(), first.Top().(locals := []), first.stack);
  }

  lemma EnteredByCall(cfg: Config, caller: State, first: State)
    requires Inv(cfg, caller) && Stepped(cfg, caller) == Done(first, Continue) && |first.frames| > |caller.frames|
    ensures |first.frames| == |caller.frames| + 1 && first.Top().base == |first.stack|
  {
    hide Inv, Stepped;
    assert Follows(cfg, Beneath(caller), first);
    if ReturnedTo(Beneath(caller), first) {
      var v: word :| (first.frames, first.stack) == Delivered(Beneath(caller), v);
      assert false;
    }
  }

  lemma LeavesTo(cfg: Config, last: State, back: State, n: nat) returns (v: word)
    requires Inv(cfg, last) && Stepped(cfg, last) == Done(back, Continue)
    requires 1 <= n < |last.frames| && |back.frames| <= n
    ensures if AtRestart(cfg, last) then Afresh(cfg, back)
            else
              var k := Guarded(last, n);
              && back.pc == k.routine.returnPC && k.callers != []
              && (back.frames, back.stack) == Delivered(Context(k.callers, k.routine, k.lower, false, false), v)
  {
    hide Inv, Stepped, AtRestart;
    var c := Beneath(last);
    v := 0;
    StepProceeds(cfg, last);
    if !AtRestart(cfg, last) {
      assert ReturnedTo(c, back);
      v :| (back.frames, back.stack) == Delivered(c, v);
      assert |back.frames| == |c.callers| && n == |last.frames| - 1;
      GuardedInside(cfg, last, n);
    }
  }
}
