/** Laws of the evaluation stack, the variables and the frame of a called routine (stack.go,
    variable.go, routine.go): what one access says about another. */
module Variables {
  import opened Words
  import opened Memory
  import opened States
  import opened Routines
  import opened Instructions

  /** What the invariant says about every reachable machine: frame 0 is the initial
      environment for good, watermarks never decrease and never pass the top of the stack,
      and no routine has more than 15 locals or anything but zero in the slots it did not
      declare. */
  lemma EveryReachableMachine(cfg: Config, s: State, i: nat, j: nat)
    requires Inv(cfg, s) && i <= j < |s.frames|
    ensures s.frames[0] == BaseFrame(cfg.story) && s.frames[0].base == 0
    ensures s.frames[i].base <= s.frames[j].base <= |s.stack| <= cfg.maxStack && |s.frames| <= cfg.maxDepth
    ensures s.frames[j].numLocals <= MAX_LOCALS && |s.frames[j].locals| == MAX_LOCALS
    ensures forall k :: s.frames[j].numLocals <= k < MAX_LOCALS ==> s.frames[j].locals[k] == 0
  {
    ChainSays(cfg.story, s.frames, |s.stack|, i, j);
    hide Chain;
  }

  lemma {:induction false} ChainSays(story: Story, frames: seq<Frame>, height: nat, i: nat, j: nat)
    requires Chain(story, frames, height) && i <= j < |frames|
    ensures frames[0] == BaseFrame(story) && frames[i].base <= frames[j].base
    ensures frames[j].base <= height
    ensures frames[j].numLocals <= MAX_LOCALS && |frames[j].locals| == MAX_LOCALS
    ensures ZeroFrom(frames[j].locals, frames[j].numLocals)
    decreases |frames|
  {
    if |frames| > 1 {
      var n := |frames| - 1;
      var below := frames[..n];
      if j < n {
        ChainSays(story, below, frames[n].base, i, j);
      } else if i < n {
        ChainSays(story, below, frames[n].base, i, i);
      } else {
        ChainSays(story, below, frames[n].base, 0, 0);
      }
    }
  }

  // ----- reading over writing -----

  lemma PutTwice(m: Mem, addr: nat, v: word, w: word)
    requires m.Writable(addr, 2)
    ensures m.PutWord(addr, v).GetWord(addr) == v
    ensures m.PutWord(addr, v).PutWord(addr, w) == m.PutWord(addr, w)
    ensures m.PutWord(addr, m.GetWord(addr)) == m
  {
    JoinInverse(v);
    SplitInverse(m.Get(addr), m.Get(addr + 1));
    hide Hi, Lo, Join;
    assert m.PutWord(addr, v).PutWord(addr, w).dynamic == m.PutWord(addr, w).dynamic;
    assert m.PutWord(addr, m.GetWord(addr)).dynamic == m.dynamic;
  }

  lemma PutElsewhere(m: Mem, addr: nat, v: word, other: nat)
    requires m.Writable(addr, 2) && m.Readable(other, 2) && (other + 2 <= addr || addr + 2 <= other)
    ensures m.PutWord(addr, v).GetWord(other) == m.GetWord(other)
  {
  }

  lemma GlobalInside(cfg: Config, s: State, number: byte)
    requires Inv(cfg, s) && number >= GLOBAL_FIRST
    ensures s.mem.Writable(GlobalAddress(cfg, number), 2)
  {
    InvParts(cfg, s);
    hide Inv;
  }

  /** Reading a variable just written gives the value back; from the stack, it takes the
      value off again and leaves the machine as it was. */
  lemma WriteThenRead(cfg: Config, s: State, number: byte, v: word)
    requires Inv(cfg, s) && VariableWritten(cfg, s, number, v).Done?
    ensures var s' := VariableWritten(cfg, s, number, v).state;
            VariableRead(cfg, s', number) == Done(if number == VARIABLE_STACK then s else s', v)
  {
    InvParts(cfg, s);
    var s' := VariableWritten(cfg, s, number, v).state;
    if number == VARIABLE_STACK {
      assert s'.stack[..|s'.stack| - 1] == s.stack;
      hide Inv, Mem.GetWord, Mem.PutWord;
      assert s'.(stack := s.stack) == s;
    } else if number <= LOCAL_LAST {
      hide Inv, Mem.GetWord, Mem.PutWord;
    } else {
      GlobalInside(cfg, s, number);
      PutTwice(s.mem, GlobalAddress(cfg, number), v, v);
      hide Inv, Mem.GetWord, Mem.PutWord;
    }
  }

  /** Writing one variable leaves what every other variable reads as it was. */
  lemma WriteElsewhere(cfg: Config, s: State, number: byte, v: word, other: byte)
    requires Inv(cfg, s) && VariableWritten(cfg, s, number, v).Done? && other != number && other != VARIABLE_STACK
    ensures var s' := VariableWritten(cfg, s, number, v).state;
            var before, after := VariableRead(cfg, s, other), VariableRead(cfg, s', other);
            after.state == s' && before.Done? == after.Done? && (before.Done? ==> after.value == before.value)
  {
    hide Inv;
    if number < GLOBAL_FIRST && other >= GLOBAL_FIRST {
      hide LocalWritten, States.Push;
      KeepsMemory(cfg, s, number, v);
    } else if number >= GLOBAL_FIRST && other >= GLOBAL_FIRST {
      GlobalElsewhere(cfg, s, number, v, other);
    } else if number >= GLOBAL_FIRST {
      hide Mem.WriteWord;
    } else {
      LocalElsewhere(cfg, s, number, v, other);
    }
  }

  lemma KeepsMemory(cfg: Config, s: State, number: byte, v: word)
    requires Inv(cfg, s) && number < GLOBAL_FIRST
    ensures VariableWritten(cfg, s, number, v).state.mem == s.mem
  {
    hide Inv;
  }

  lemma LocalElsewhere(cfg: Config, s: State, number: byte, v: word, other: byte)
    requires Inv(cfg, s) && VariableWritten(cfg, s, number, v).Done?
    requires number < GLOBAL_FIRST && 1 <= other <= LOCAL_LAST && other != number
    ensures var s' := VariableWritten(cfg, s, number, v).state;
            LocalRead(cfg, s', other) == LocalRead(cfg, s, other)
  {
    InvParts(cfg, s);
    hide Inv;
  }

  lemma GlobalElsewhere(cfg: Config, s: State, number: byte, v: word, other: byte)
    requires Inv(cfg, s) && number >= GLOBAL_FIRST && other >= GLOBAL_FIRST && other != number
    ensures var s' := VariableWritten(cfg, s, number, v).state;
            GlobalRead(cfg, s', other) == GlobalRead(cfg, s, other)
  {
    GlobalInside(cfg, s, number);
    GlobalInside(cfg, s, other);
    PutElsewhere(s.mem, GlobalAddress(cfg, number), v, GlobalAddress(cfg, other));
    hide Inv, Mem.GetWord, Mem.PutWord;
  }

  /** An indirect write to the stack pointer replaces the top item, and an indirect read
      leaves it there. */
  lemma IndirectStack(cfg: Config, s: State, v: word)
    requires Inv(cfg, s) && IndirectWritten(cfg, s, VARIABLE_STACK, v).Done?
    ensures var s' := IndirectWritten(cfg, s, VARIABLE_STACK, v).state;
            && |s'.stack| == |s.stack|
            && IndirectRead(cfg, s', VARIABLE_STACK) == Done(s', v)
            && Pop(cfg, s').Done? && Pop(cfg, s').value == v && Pop(cfg, s').state == Pop(cfg, s).state
  {
    InvParts(cfg, s);
    hide Inv;
    var n := |s.stack| - 1;
    assert s.stack[n := v][..n] == s.stack[..n];
  }

  /** pull into the stack pointer overwrites the item below the one pulled. */
  lemma PullIntoStack(cfg: Config, s: State)
    requires Inv(cfg, s) && Depth(s) >= 2
    ensures var n := |s.stack|;
            n >= 2 && Pulled(cfg, s, VARIABLE_STACK) == Done(s.(stack := s.stack[..n - 2] + [s.stack[n - 1]]), Continue)
  {
    InvParts(cfg, s);
    hide Inv;
    var n := |s.stack|;
    assert s.stack[..n - 1][n - 2 := s.stack[n - 1]] == s.stack[..n - 2] + [s.stack[n - 1]];
  }

  // ----- inc and dec -----

  lemma WriteBack(cfg: Config, s: State, number: byte, v: word)
    requires Inv(cfg, s) && IndirectRead(cfg, s, number).Done? && IndirectWritten(cfg, s, number, v).Done?
    ensures IndirectRead(cfg, s, number).state == s
    ensures var x, s' := IndirectRead(cfg, s, number).value, IndirectWritten(cfg, s, number, v).state;
            IndirectRead(cfg, s', number) == Done(s', v) && IndirectWritten(cfg, s', number, x) == Done(s, ())
  {
    hide Inv, Mem.GetWord, Mem.PutWord, GlobalAddress;
    InvParts(cfg, s);
    if number == VARIABLE_STACK {
      var n := |s.stack| - 1;
      assert s.stack[n := v][n := s.stack[n]] == s.stack;
    } else if number <= LOCAL_LAST {
      LocalBack(s.frames, number, v);
    } else {
      GlobalBack(cfg, s, number, v);
    }
  }

  lemma GlobalBack(cfg: Config, s: State, number: byte, v: word)
    requires Inv(cfg, s) && number >= GLOBAL_FIRST
    ensures IndirectRead(cfg, s, number).Done? && IndirectRead(cfg, s, number).state == s
    ensures var x, s' := IndirectRead(cfg, s, number).value, IndirectWritten(cfg, s, number, v).state;
            IndirectRead(cfg, s', number) == Done(s', v) && IndirectWritten(cfg, s', number, x) == Done(s, ())
  {
    var addr := GlobalAddress(cfg, number);
    GlobalInside(cfg, s, number);
    PutTwice(s.mem, addr, v, s.mem.GetWord(addr));
    hide Inv, Mem.GetWord, Mem.PutWord, GlobalAddress;
  }

  lemma LocalBack(frames: CallChain, number: byte, v: word)
    requires 1 <= number <= |frames[|frames| - 1].locals|
    ensures WithLocal(WithLocal(frames, number, v), number, frames[|frames| - 1].locals[number - 1]) == frames
  {
    var n := |frames| - 1;
    var locals := frames[n].locals;
    assert locals[number - 1 := v][number - 1 := locals[number - 1]] == locals;
    assert WithLocal(WithLocal(frames, number, v), number, locals[number - 1])[n] == frames[n];
  }

  lemma SignedWraps(x: word, delta: int)
    requires -1 <= delta <= 1
    ensures Unsigned(Signed(Unsigned(Signed(x) + delta)) - delta) == x
  {
  }

  /** dec undoes inc, and inc undoes dec, on every variable, the top of the stack included,
      and across the 16-bit wrap-around: the whole machine is back as it was. */
  lemma AdjustInverse(cfg: Config, s: State, number: byte, delta: int)
    requires Inv(cfg, s) && (delta == 1 || delta == -1) && Adjusted(cfg, s, number, delta).Done?
    ensures var s' := Adjusted(cfg, s, number, delta).state;
            Adjusted(cfg, s', number, -delta).Done? && Adjusted(cfg, s', number, -delta).state == s
  {
    hide Inv, IndirectRead, IndirectWritten, Signed, Unsigned;
    var x := IndirectRead(cfg, s, number).value;
    var updated := Unsigned(Signed(x) + delta);
    ReadKeeps(cfg, s, number);
    WriteBack(cfg, s, number, updated);
    SignedWraps(x, delta);
  }

  lemma ReadKeeps(cfg: Config, s: State, number: byte)
    requires Inv(cfg, s)
    ensures IndirectRead(cfg, s, number).state == s
  {
    hide Inv;
  }

  // ----- the frame of a called routine -----

  lemma {:induction false} HeaderWords(m: Mem, at: nat, n: nat, i: nat)
    requires HeaderLocals(m, at, n).Ok? && i < n
    ensures m.ReadWord(at + i * WORD_SIZE) == Ok(HeaderLocals(m, at, n).value[i])
  {
    if i < n - 1 {
      HeaderWords(m, at, n - 1, i);
    }
  }

  /** After a call, local variable i + 1 holds argument i if there is one and otherwise the
      word in the routine's header; spare arguments are counted but thrown away; the stack and
      every caller are untouched; and execution goes on behind the header. */
  lemma CalledFrame(cfg: Config, s: State, packed: word, args: seq<word>, returnPC: nat, store: byte, hasStore: bool, i: nat)
    requires Inv(cfg, s) && |args| <= MAX_ARGUMENTS && returnPC <= |cfg.story.image| && packed != 0
    requires Called(cfg, s, packed, args, returnPC, store, hasStore).Done?
    ensures var s' := Called(cfg, s, packed, args, returnPC, store, hasStore).state;
            var f, addr := s'.Top(), UnpackAddress(packed);
            && s'.Callers() == s.frames && s'.stack == s.stack && s'.mem == s.mem
            && s.mem.ReadByte(addr) == Ok(f.numLocals)
            && f.argCount == |args| && f.base == |s.stack| && f.returnPC == returnPC
            && f.store == store && f.hasStore == hasStore
            && s'.pc == addr + 1 + f.numLocals * WORD_SIZE
            && |f.locals| == MAX_LOCALS
            && (i < f.numLocals && i < |args| ==> i < MAX_LOCALS && f.locals[i] == args[i])
            && (|args| <= i < f.numLocals ==> i < MAX_LOCALS && s.mem.ReadWord(addr + 1 + i * WORD_SIZE) == Ok(f.locals[i]))
  {
    hide Inv, Mem.ReadByte, Mem.ReadWord, VariableWritten, Beneath, Entered, StartingLocals;
    var addr := UnpackAddress(packed);
    var count := s.mem.ReadByte(addr).value;
    assert HeaderLocals(s.mem, addr + 1, count).Ok?;
    var header := HeaderLocals(s.mem, addr + 1, count).value;
    hide HeaderLocals;
    if i < count {
      HeaderWords(s.mem, addr + 1, count, i);
      LocalStarts(header, args, i);
    }
  }

  lemma LocalStarts(header: seq<word>, args: seq<word>, i: nat)
    requires i < |header| <= MAX_LOCALS
    ensures StartingLocals(header, args)[i] == if i < |args| then args[i] else header[i]
  {
  }
}
