/** Calling and returning (routine.go): sections 5.2 and 6.4 of the Z-Machine Standards
    Document 1.1. */
module Routines {
  import opened Words
  import opened Memory
  import opened Output
  import opened States

  const MAX_ARGUMENTS := 3

  /** The initial values in a routine header, `n` words from `at`. */
  function HeaderLocals(m: Mem, at: nat, n: nat): (r: Result<seq<word>>)
    ensures r.Ok? ==> |r.value| == n
  {
    if n == 0 then Ok([])
    else
      var front :- HeaderLocals(m, at, n - 1);
      var last :- m.ReadWord(at + (n - 1) * WORD_SIZE);
      Ok(front + [last])
  }

  /** The locals of a routine: arguments over the values in its header, and the slots it did
      not declare left at zero. */
  function StartingLocals(header: seq<word>, args: seq<word>): (locals: seq<word>)
    requires |header| <= MAX_LOCALS
    ensures |locals| == MAX_LOCALS
  {
    seq<word>(MAX_LOCALS, i requires 0 <= i < MAX_LOCALS =>
      if i >= |header| then 0 else if i < |args| then args[i] else header[i])
  }

  function NewFrame(s: State, header: seq<word>, args: seq<word>, returnPC: nat, store: byte, hasStore: bool): Frame
    requires |header| <= MAX_LOCALS
  {
    Frame(returnPC, StartingLocals(header, args), |header|, |args|, |s.stack|, store, hasStore)
  }

  lemma NewFrameOk(cfg: Config, s: State, header: seq<word>, args: seq<word>, returnPC: nat, store: byte, hasStore: bool)
    requires |header| <= MAX_LOCALS && |args| <= MAX_ARGUMENTS && returnPC <= |cfg.story.image|
    ensures FrameOk(|cfg.story.image|, NewFrame(s, header, args, returnPC, store, hasStore))
  {
  }

  /** A new frame on top of the chain, over an unchanged stack. */
  ghost predicate Entered(c: Context, s': State) {
    && |s'.frames| == |c.callers| + 2
    && s'.Callers()[..|c.callers|] == c.callers
    && s'.Callers()[|c.callers|].(locals := []) == c.routine
    && s'.Top().base == |s'.stack|
    && s'.Top().argCount <= MAX_ARGUMENTS
    && Taken(s'.stack, c.routine.base) == c.lower
    && s'.started == c.started && s'.halted == c.halted
  }

  lemma FramePushed(cfg: Config, s: State, f: Frame, pc: nat)
    requires Inv(cfg, s) && |s.frames| < cfg.maxDepth
    requires FrameOk(|cfg.story.image|, f) && f.base == |s.stack| && f.argCount <= MAX_ARGUMENTS
    ensures var s' := s.(frames := s.frames + [f], pc := pc);
            Inv(cfg, s') && Entered(Beneath(s), s')
  {
    hide ScreenOk, SameShape, FrameOk;
    var s' := s.(frames := s.frames + [f], pc := pc);
    assert s'.Callers() == s.frames;
    assert s.frames[..|s.frames| - 1] == s.Callers();
  }

  /** callRoutine. Packed address 0 names no routine: the call just returns false. */
  function Called(cfg: Config, s: State, packed: word, args: seq<word>, returnPC: nat, store: byte, hasStore: bool): (r: Run<()>)
    requires Inv(cfg, s) && |args| <= MAX_ARGUMENTS && returnPC <= |cfg.story.image|
    ensures Inv(cfg, r.state)
    ensures r.Done? ==> Beneath(r.state) == Beneath(s) || (Entered(Beneath(s), r.state) && r.state.stack == s.stack)
  {
    hide Inv, Beneath, Entered, VariableWritten;
    if packed == 0 then if hasStore then VariableWritten(cfg, s, store, 0) else Done(s, ())
    else if |s.frames| >= cfg.maxDepth then Fail(s, ExecutionFault)
    else
      var addr := UnpackAddress(packed);
      var (_, count) :- Lift(s, s.mem.ReadByte(addr));
      if count > MAX_LOCALS then Fail(s, ExecutionFault)
      else
        var (_, header) :- Lift(s, HeaderLocals(s.mem, addr + 1, count));
        var f := NewFrame(s, header, args, returnPC, store, hasStore);
        NewFrameOk(cfg, s, header, args, returnPC, store, hasStore);
        FramePushed(cfg, s, f, addr + 1 + count * WORD_SIZE);
        Done(s.(frames := s.frames + [f], pc := addr + 1 + count * WORD_SIZE), ())
  }

  /** The frames and the stack of a caller once `v` has been returned to it: nothing of the
      routine is left but the value, where the call asked for it. */
  function Delivered(c: Context, v: word): (r: (seq<Frame>, seq<word>))
    requires c.callers != []
  {
    if !c.routine.hasStore then (c.callers, c.lower)
    else if c.routine.store == VARIABLE_STACK then (c.callers, c.lower + [v])
    else if c.routine.store <= LOCAL_LAST then (WithLocal(c.callers, c.routine.store, v), c.lower)
    else (c.callers, c.lower)
  }

  /** The state just after the current routine's frame and stack entries are dropped. */
  function Popped(s: State): State
    requires |s.frames| > 1 && s.Top().base <= |s.stack|
  {
    s.(frames := s.Callers(), stack := s.stack[..s.Top().base], pc := s.Top().returnPC)
  }

  lemma FramePopped(cfg: Config, s: State)
    requires Inv(cfg, s) && |s.frames| > 1
    ensures s.Top().base <= |s.stack| && Inv(cfg, Popped(s))
  {
    hide ScreenOk, SameShape, FrameOk;
  }

  /** returnFromRoutine. The frame goes first, so a result stored to the stack is pushed on
      the caller's. */
  function Returned(cfg: Config, s: State, v: word): (r: Run<()>)
    requires Inv(cfg, s)
    ensures Inv(cfg, r.state)
    ensures r.Done? ==> |s.frames| > 1 && (r.state.frames, r.state.stack) == Delivered(Beneath(s), v)
    ensures r.Done? ==> r.state.pc == s.Top().returnPC && r.state.started == s.started && r.state.halted == s.halted
  {
    if |s.frames| <= 1 then Fail(s, ExecutionFault)
    else
      FramePopped(cfg, s);
      var caller := Popped(s);
      var r := if s.Top().hasStore then VariableWritten(cfg, caller, s.Top().store, v) else Done(caller, ());
      ReturnDelivers(cfg, s, v, r);
      hide *;
      r
  }

  lemma ReturnDelivers(cfg: Config, s: State, v: word, r: Run<()>)
    requires Inv(cfg, s) && |s.frames| > 1 && s.Top().base <= |s.stack| && Inv(cfg, Popped(s))
    requires r == if s.Top().hasStore then VariableWritten(cfg, Popped(s), s.Top().store, v) else Done(Popped(s), ())
    ensures Inv(cfg, r.state)
    ensures r.Done? ==> (r.state.frames, r.state.stack) == Delivered(Beneath(s), v)
    ensures r.Done? ==> r.state.pc == s.Top().returnPC && r.state.started == s.started && r.state.halted == s.halted
  {
    hide Inv, Mem.WriteWord;
  }
}
