/** The state of a machine, its evaluation stack and its variables (machine.go, stack.go,
    variable.go), as functions from state to state. Class `Machine` in Machine.dfy carries
    these operations out in place. */
module States {
  import opened Words
  import opened Memory
  import opened Text
  import opened Random
  import opened Output

  const MAX_LOCALS := 15
  const VARIABLE_STACK: byte := 0
  const LOCAL_LAST: byte := 0x0f
  const GLOBAL_FIRST: byte := 0x10
  const WORD_SIZE := 2

  const ZERO_LOCALS: seq<word> := [0, 0, 0, 0, 0, 0, 0, 0, 0, 0, 0, 0, 0, 0, 0]

  /** One routine call. Each routine owns the stack entries above `base`. */
  datatype Frame = Frame(
    returnPC: nat,
    locals: seq<word>,
    numLocals: nat,
    argCount: nat,
    base: nat,
    store: byte,
    hasStore: bool)

  /** The initial execution environment, which is not a routine. */
  function BaseFrame(story: Story): Frame {
    Frame(story.initialPC, ZERO_LOCALS, 0, 0, 0, 0, false)
  }

  type CallChain = frames: seq<Frame> | frames != [] witness [Frame(0, [], 0, 0, 0, 0, false)]

  datatype StatusLine = StatusLine(
    available: bool,
    item: word,
    name: Str,
    timeGame: bool,
    score: int,
    turns: int,
    hours: byte,
    minutes: byte)

  const NO_STATUS := StatusLine(false, 0, [], false, 0, 0, 0, 0)

  /** What a machine is created with. The engine fixes the two stack limits; the model keeps
      them as parameters. */
  datatype Config = Config(
    story: Story,
    lib: Library,
    maxStack: nat,
    maxDepth: nat,
    seed: nat,
    hasSeed: bool,
    kind: byte,
    limit: nat)
  {
    ghost predicate Valid() {
      && story.Valid()
      && lib.Lawful()
      && maxDepth >= 1
      && (kind == KIND_PCG || kind == KIND_FROTZ)
    }
  }

  /** Everything a machine owns. `supply` is what the host's random source will return to
      the reads still to come. */
  datatype State = State(
    pc: nat,
    frames: CallChain,
    stack: seq<word>,
    mem: Mem,
    screen: Screen,
    random: Generator,
    predictable: bool,
    supply: seq<Entropy>,
    status: StatusLine,
    input: Option<Str>,
    started: bool,
    halted: bool)
  {
    function Top(): Frame { frames[|frames| - 1] }

    function Callers(): seq<Frame> { frames[..|frames| - 1] }
  }

  type Run<+T> = Act<State, T>

  // ----- the invariant -----

  predicate ZeroFrom(locals: seq<word>, n: nat) {
    forall k :: n <= k < |locals| ==> locals[k] == 0
  }

  /** A frame of a routine: locals beyond those it declared are zero. */
  predicate FrameOk(size: nat, f: Frame) {
    && f.returnPC <= size
    && |f.locals| == MAX_LOCALS
    && f.numLocals <= MAX_LOCALS
    && f.argCount <= 8
    && ZeroFrom(f.locals, f.numLocals)
  }

  /** A call chain over a stack of the given height: the initial environment at the bottom,
      and watermarks that never decrease or pass the top of the stack. */
  predicate Chain(story: Story, frames: seq<Frame>, height: nat) {
    && frames != []
    && (if |frames| == 1 then frames[0] == BaseFrame(story)
        else
          var top := frames[|frames| - 1];
          FrameOk(|story.image|, top) && top.base <= height && Chain(story, frames[..|frames| - 1], top.base))
  }

  /** What every step of every run keeps. */
  ghost predicate Inv(cfg: Config, s: State) {
    && cfg.Valid()
    && Chain(cfg.story, s.frames, |s.stack|)
    && |s.frames| <= cfg.maxDepth
    && |s.stack| <= cfg.maxStack
    && SameShape(InitialMem(cfg.story), s.mem)
    && ScreenOk(s.mem, s.screen)
    && s.random.Valid(cfg.lib)
  }

  /** What the current routine cannot reach: its callers' frames, the fixed part of its own
      frame, the stack entries below its watermark, and whether the machine has started and
      halted. */
  datatype Context = Context(callers: seq<Frame>, routine: Frame, lower: seq<word>, started: bool, halted: bool)

  function Taken(stack: seq<word>, n: nat): seq<word> {
    if n <= |stack| then stack[..n] else stack
  }

  function Beneath(s: State): Context {
    Context(s.Callers(), s.Top().(locals := []), Taken(s.stack, s.Top().base), s.started, s.halted)
  }

  /** The invariant holds after a step that stays inside the current routine. */
  ghost predicate Stays(cfg: Config, s: State, s': State) {
    Inv(cfg, s') && Beneath(s') == Beneath(s)
  }

  lemma InvParts(cfg: Config, s: State)
    requires Inv(cfg, s)
    ensures cfg.story.Valid() && cfg.lib.Lawful() && s.random.Valid(cfg.lib) && ViewOf(cfg.story, s.mem)
    ensures s.Top().base <= |s.stack| <= cfg.maxStack && |s.frames| <= cfg.maxDepth
    ensures |s.Top().locals| == MAX_LOCALS && s.Top().numLocals <= MAX_LOCALS
    ensures s.mem.Size() == |cfg.story.image|
  {
  }

  // ----- small changes that keep the invariant -----

  /** A step that changes nothing but the parts of the state the invariant leaves free. */
  lemma FreeParts(cfg: Config, s: State, s': State)
    requires Inv(cfg, s)
    requires s'.frames == s.frames && s'.stack == s.stack && s'.mem == s.mem && s'.screen == s.screen
    requires s'.random == s.random && s'.started == s.started && s'.halted == s.halted
    ensures Stays(cfg, s, s')
  {
    hide Chain, ScreenOk, SameShape;
  }

  /** Beginning a call, or halting, keeps the invariant too. */
  lemma FlagParts(cfg: Config, s: State, s': State)
    requires Inv(cfg, s)
    requires s'.frames == s.frames && s'.stack == s.stack && s'.mem == s.mem && s'.screen == s.screen
    requires s'.random == s.random
    ensures Inv(cfg, s')
  {
    hide Chain, ScreenOk, SameShape;
  }

  function Jumped(cfg: Config, s: State, target: nat): (s': State)
    requires Inv(cfg, s)
    ensures Stays(cfg, s, s')
  {
    FreeParts(cfg, s, s.(pc := target));
    hide *;
    s.(pc := target)
  }

  lemma MemParts(cfg: Config, s: State, m: Mem)
    requires Inv(cfg, s) && SameShape(s.mem, m)
    ensures Stays(cfg, s, s.(mem := m))
  {
    hide Chain;
  }

  /** Runs an operation on memory in the machine's memory. */
  function InMemory<T>(cfg: Config, s: State, r: Act<Mem, T>): (s': Run<T>)
    requires Inv(cfg, s) && SameShape(s.mem, r.state)
    ensures Stays(cfg, s, s'.state)
    ensures s'.Done? == r.Done?
  {
    MemParts(cfg, s, r.state);
    hide *;
    match r
    case Done(m, v) => Done(s.(mem := m), v)
    case Fail(m, e) => Fail(s.(mem := m), e)
  }

  lemma IoParts(cfg: Config, s: State, io: Io)
    requires Inv(cfg, s) && IoStep(Io(s.mem, s.screen), io)
    ensures Stays(cfg, s, s.(mem := io.mem, screen := io.screen))
  {
    hide Chain, ScreenOk;
  }

  /** Runs an output operation on the machine's memory and screen. */
  function InOutput(cfg: Config, s: State, r: Act<Io, ()>): (s': Run<()>)
    requires Inv(cfg, s) && IoStep(Io(s.mem, s.screen), r.state)
    ensures Stays(cfg, s, s'.state)
  {
    IoParts(cfg, s, r.state);
    hide *;
    match r
    case Done(io, _) => Done(s.(mem := io.mem, screen := io.screen), ())
    case Fail(io, e) => Fail(s.(mem := io.mem, screen := io.screen), e)
  }

  // ----- the evaluation stack (stack.go) -----

  function Depth(s: State): int { |s.stack| - s.Top().base }

  lemma StackParts(cfg: Config, s: State, stack: seq<word>)
    requires Inv(cfg, s) && s.Top().base <= |stack| <= cfg.maxStack
    requires stack[..s.Top().base] == s.stack[..s.Top().base]
    ensures Stays(cfg, s, s.(stack := stack))
  {
    hide ScreenOk, SameShape, FrameOk;
  }

  function Push(cfg: Config, s: State, v: word): (r: Run<()>)
    requires Inv(cfg, s)
    ensures Stays(cfg, s, r.state)
    ensures r.Done? <==> |s.stack| < cfg.maxStack
  {
    InvParts(cfg, s);
    if |s.stack| >= cfg.maxStack then StackParts(cfg, s, s.stack); Fail(s, ExecutionFault)
    else
      StackParts(cfg, s, s.stack + [v]);
      hide *;
      Done(s.(stack := s.stack + [v]), ())
  }

  function Pop(cfg: Config, s: State): (r: Run<word>)
    requires Inv(cfg, s)
    ensures Stays(cfg, s, r.state)
  {
    InvParts(cfg, s);
    if Depth(s) <= 0 then StackParts(cfg, s, s.stack); Fail(s, ExecutionFault)
    else
      StackParts(cfg, s, s.stack[..|s.stack| - 1]);
      hide *;
      Done(s.(stack := s.stack[..|s.stack| - 1]), s.stack[|s.stack| - 1])
  }

  function Peek(cfg: Config, s: State): (r: Result<word>)
    requires Inv(cfg, s)
  {
    InvParts(cfg, s);
    if Depth(s) <= 0 then Err(ExecutionFault) else Ok(s.stack[|s.stack| - 1])
  }

  function TopReplaced(cfg: Config, s: State, v: word): (r: Run<()>)
    requires Inv(cfg, s)
    ensures Stays(cfg, s, r.state)
  {
    InvParts(cfg, s);
    if Depth(s) <= 0 then StackParts(cfg, s, s.stack); Fail(s, ExecutionFault)
    else
      StackParts(cfg, s, s.stack[|s.stack| - 1 := v]);
      hide *;
      Done(s.(stack := s.stack[|s.stack| - 1 := v]), ())
  }

  // ----- variables (variable.go) -----

  function LocalRead(cfg: Config, s: State, number: byte): Result<word>
    requires Inv(cfg, s)
  {
    InvParts(cfg, s);
    if number < 1 || number > s.Top().numLocals then Err(ExecutionFault)
    else Ok(s.Top().locals[number - 1])
  }

  /** The chain with the current routine's local variable `number` set. */
  function WithLocal(frames: CallChain, number: byte, v: word): CallChain {
    var top := frames[|frames| - 1];
    if 1 <= number <= |top.locals| then
      frames[|frames| - 1 := top.(locals := top.locals[number - 1 := v])]
    else frames
  }

  lemma LocalParts(cfg: Config, s: State, number: byte, v: word)
    requires Inv(cfg, s) && 1 <= number <= s.Top().numLocals
    ensures Stays(cfg, s, s.(frames := WithLocal(s.frames, number, v)))
  {
    hide ScreenOk, SameShape;
    var s' := s.(frames := WithLocal(s.frames, number, v));
    assert s'.Callers() == s.Callers();
    assert |s.frames| > 1;
  }

  function LocalWritten(cfg: Config, s: State, number: byte, v: word): (r: Run<()>)
    requires Inv(cfg, s)
    ensures Stays(cfg, s, r.state)
  {
    InvParts(cfg, s);
    if number < 1 || number > s.Top().numLocals then FreeParts(cfg, s, s); Fail(s, ExecutionFault)
    else
      LocalParts(cfg, s, number, v);
      hide *;
      Done(s.(frames := WithLocal(s.frames, number, v)), ())
  }

  function GlobalAddress(cfg: Config, number: byte): nat
    requires number >= GLOBAL_FIRST
  {
    cfg.story.globals + (number - GLOBAL_FIRST) * WORD_SIZE
  }

  function GlobalRead(cfg: Config, s: State, number: byte): Result<word> {
    if number < GLOBAL_FIRST then Err(ExecutionFault) else s.mem.ReadWord(GlobalAddress(cfg, number))
  }

  function GlobalWritten(cfg: Config, s: State, number: byte, v: word): (r: Run<()>)
    requires Inv(cfg, s)
    ensures Stays(cfg, s, r.state)
  {
    if number < GLOBAL_FIRST then FreeParts(cfg, s, s); Fail(s, ExecutionFault)
    else InMemory(cfg, s, s.mem.WriteWord(GlobalAddress(cfg, number), v))
  }

  /** Every global variable lies in dynamic memory, so reading and writing one never fails. */
  lemma GlobalsExist(cfg: Config, s: State, number: byte, v: word)
    requires Inv(cfg, s) && number >= GLOBAL_FIRST
    ensures GlobalRead(cfg, s, number).Ok? && GlobalWritten(cfg, s, number, v).Done?
  {
    InvParts(cfg, s);
    hide Inv, Mem.GetWord, Mem.PutWord, Stays;
  }

  function VariableRead(cfg: Config, s: State, number: byte): (r: Run<word>)
    requires Inv(cfg, s)
    ensures Stays(cfg, s, r.state)
  {
    FreeParts(cfg, s, s);
    hide Inv, Beneath;
    if number == VARIABLE_STACK then Pop(cfg, s)
    else if number <= LOCAL_LAST then Lift(s, LocalRead(cfg, s, number))
    else Lift(s, GlobalRead(cfg, s, number))
  }

  function VariableWritten(cfg: Config, s: State, number: byte, v: word): (r: Run<()>)
    requires Inv(cfg, s)
    ensures Stays(cfg, s, r.state)
  {
    if number == VARIABLE_STACK then Push(cfg, s, v)
    else if number <= LOCAL_LAST then LocalWritten(cfg, s, number, v)
    else GlobalWritten(cfg, s, number, v)
  }

  /** An indirect reference to the stack pointer reads the top in place. */
  function IndirectRead(cfg: Config, s: State, number: byte): (r: Run<word>)
    requires Inv(cfg, s)
    ensures Stays(cfg, s, r.state)
  {
    FreeParts(cfg, s, s);
    hide Inv, Beneath;
    if number == VARIABLE_STACK then Lift(s, Peek(cfg, s)) else VariableRead(cfg, s, number)
  }

  function IndirectWritten(cfg: Config, s: State, number: byte, v: word): (r: Run<()>)
    requires Inv(cfg, s)
    ensures Stays(cfg, s, r.state)
  {
    if number == VARIABLE_STACK then TopReplaced(cfg, s, v) else VariableWritten(cfg, s, number, v)
  }
}
