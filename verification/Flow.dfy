/** Where control goes: branches, jumps, calls and returns, step by step (execute.go,
    routine.go; sections 4.7 and 6 of the Z-Machine Standards Document 1.1). */
module Flow {
  import opened Words
  import opened Memory
  import opened Opcodes
  import opened Decoder
  import Encoder
  import opened Objects
  import opened States
  import opened Routines
  import opened Instructions
  import opened Execution
  import opened Variables
  import opened Steps

  // ----- returning -----

  /** The machine with the routine's frame and stack entries gone. */
  function Unwound(s: State): State {
    var f := s.frames[|s.frames| - 1];
    if |s.frames| < 2 || f.base > |s.stack| then s
    else s.(frames := s.frames[..|s.frames| - 1], stack := s.stack[..f.base], pc := f.returnPC)
  }

  /** The machine once the routine has returned `v` to the variable its call named. */
  function Departed(cfg: Config, s: State, v: word): State {
    var f := s.frames[|s.frames| - 1];
    if f.hasStore then Assigned(cfg, Unwound(s), f.store, v) else Unwound(s)
  }

  predicate CanDepart(cfg: Config, s: State) {
    var f := s.frames[|s.frames| - 1];
    |s.frames| > 1 && (f.hasStore ==> CanAssign(cfg, Unwound(s), f.store))
  }

  lemma ReturnDeparts(cfg: Config, s: State, v: word)
    requires Inv(cfg, s)
    ensures Returned(cfg, s, v).Done? <==> CanDepart(cfg, s)
    ensures Returned(cfg, s, v).Done? ==> Returned(cfg, s, v).state == Departed(cfg, s, v)
  {
    hide Inv, VariableWritten, Assigned, CanAssign;
    if |s.frames| > 1 {
      FramePopped(cfg, s);
      WriteAssigns(cfg, Popped(s), s.Top().store, v);
    }
  }

  // ----- branching -----

  /** A branch can be taken: offsets 0 and 1 return, any other must lead into the address
      space. */
  predicate CanBranch(cfg: Config, s: State, next: nat, b: Branch) {
    if b.offset == 0 || b.offset == 1 then CanDepart(cfg, s) else 0 <= next + b.offset - 2 < 0x2_0000
  }

  /** Where it leads: offset 0 returns 0 from the routine, 1 returns 1, and any other counts
      from two bytes before the next instruction. */
  function Landed(cfg: Config, s: State, next: nat, b: Branch): State {
    if b.offset == 0 then Departed(cfg, s, 0)
    else if b.offset == 1 then Departed(cfg, s, 1)
    else if next + b.offset - 2 >= 0 then s.(pc := next + b.offset - 2) else s
  }

  lemma BranchLands(cfg: Config, s: State, inst: Instr, b: Branch, holds: bool)
    requires Inv(cfg, s) && inst.raw.branch == Some(b)
    ensures Branched(cfg, s, inst, holds).Done? <==> (holds == b.onTrue ==> CanBranch(cfg, s, inst.next, b))
    ensures Branched(cfg, s, inst, holds).Done? ==>
              Branched(cfg, s, inst, holds) ==
              Done(if holds == b.onTrue then Landed(cfg, s, inst.next, b) else s, Continue)
  {
    hide Inv, Returned, Departed, CanDepart, Beneath;
    ReturnDeparts(cfg, s, 0);
    ReturnDeparts(cfg, s, 1);
  }

  // ----- conditional instructions -----

  /** The byte `k` of the entry of an object: 4 names its parent, 5 its sibling, 6 its child. */
  function ObjectByte(cfg: Config, s: State, number: word, k: nat): byte {
    if number == 0 then 0 else ByteOf(s, cfg.story.objectTable + 62 + 9 * (number - 1) + k)
  }

  /** A variable, read through a reference, plus a number, wrapped to 16 bits and signed. */
  function Stepping(cfg: Config, s: State, number: nat, delta: int): int {
    Two((ContentsOf(cfg, s, number, 0) + delta) % 0x1_0000)
  }

  /** Every bit of `b` is set in `a`. */
  predicate AllSet(a: word, b: word) {
    forall k :: 0 <= k < 16 && Bit(b, k) ==> Bit(a, k)
  }

  /** The condition of each conditional instruction, by its place in the opcode table. */
  predicate Holds(cfg: Config, s: State, op: Opcode, ops: seq<word>) {
    match op.count
    case Op0 => op.number == 13 && cfg.story.computed == cfg.story.checksum
    case Op1 =>
      |ops| == 1 &&
      (if op.number == 0 then ops[0] == 0
       else if op.number == 1 then ObjectByte(cfg, s, ops[0], 5) != 0
       else op.number == 2 && ObjectByte(cfg, s, ops[0], 6) != 0)
    case Op2 =>
      |ops| >= 2 &&
      (if op.number == 1 then exists i :: 1 <= i < |ops| && ops[i] == ops[0]
       else if op.number == 2 then Two(ops[0]) < Two(ops[1])
       else if op.number == 3 then Two(ops[0]) > Two(ops[1])
       else if op.number == 4 then Stepping(cfg, s, ops[0] % 256, -1) < Two(ops[1])
       else if op.number == 5 then Stepping(cfg, s, ops[0] % 256, 1) > Two(ops[1])
       else if op.number == 6 then ObjectByte(cfg, s, ops[0], 4) == ops[1]
       else if op.number == 7 then AllSet(ops[0], ops[1])
       else op.number == 10 && ops[0] != 0 && ops[1] < 32 && Bit(ObjectByte(cfg, s, ops[0], ops[1] / 8), 7 - ops[1] % 8))
    case OpVar => false
  }

  /** The conditional instructions of Version 3: jz, get_sibling, get_child; je, jl, jg,
      dec_chk, inc_chk, jin, test, test_attr; and save, restore, verify. */
  predicate Conditional(op: Opcode) {
    match op.count
    case Op0 => op.number in {5, 6, 13}
    case Op1 => op.number in {0, 1, 2}
    case Op2 => op.number in {1, 2, 3, 4, 5, 6, 7, 10}
    case OpVar => false
  }

  /** What the instruction does before it branches: dec_chk and inc_chk step a variable,
      get_sibling and get_child store the object they found. */
  function Before(cfg: Config, s: State, inst: Instr, ops: seq<word>): State {
    var op := inst.raw.op;
    if op.count == Op2 && (op.number == 4 || op.number == 5) && |ops| == 2 then
      var delta := if op.number == 4 then -1 else 1;
      Replaced(cfg, s, ops[0] % 256, (ContentsOf(cfg, s, ops[0] % 256, 0) + delta) % 0x1_0000)
    else if op.count == Op1 && (op.number == 1 || op.number == 2) && |ops| == 1 && inst.raw.store.Some? then
      Assigned(cfg, s, inst.raw.store.value, ObjectByte(cfg, s, ops[0], if op.number == 1 then 5 else 6))
    else s
  }

  lemma {:induction false} AndIsSubset(a: nat, b: nat, k: nat)
    ensures Bit(BitAnd(a, b), k) <==> Bit(a, k) && Bit(b, k)
    decreases k
  {
    var r := BitAnd(a, b);
    if a == 0 || b == 0 {
      NoBits(k);
    } else {
      var bit := if a % 2 == 1 && b % 2 == 1 then 1 else 0;
      assert r == bit + 2 * BitAnd(a / 2, b / 2) && r / 2 == BitAnd(a / 2, b / 2) && r % 2 == bit;
      if k > 0 {
        AndIsSubset(a / 2, b / 2, k - 1);
      }
    }
  }

  lemma {:induction false} NoBits(k: nat)
    ensures !Bit(0, k)
  {
    if k > 0 {
      NoBits(k - 1);
    }
  }

  lemma {:induction false} BitsDiffer(a: nat, b: nat) returns (k: nat)
    requires a != b
    ensures Bit(a, k) != Bit(b, k)
    decreases a + b
  {
    if a % 2 != b % 2 {
      k := 0;
    } else {
      var rest := BitsDiffer(a / 2, b / 2);
      k := rest + 1;
    }
  }

  lemma {:induction false} HighBitsClear(w: nat, n: nat, k: nat)
    requires w < Pow2(n) && k >= n
    ensures !Bit(w, k)
    decreases n
  {
    if n == 0 {
      NoBits(k);
    } else {
      HighBitsClear(w / 2, n - 1, k - 1);
    }
  }

  lemma WordBits(w: word, k: nat)
    ensures Bit(w, k) ==> k < 16
  {
    assert Pow2(4) == 16 && Pow2(8) == 16 * Pow2(4) && Pow2(12) == 16 * Pow2(8) && Pow2(16) == 16 * Pow2(12);
    if k >= 16 {
      HighBitsClear(w, 16, k);
    }
  }

  /** `a & b == b` says that every bit of `b` is set in `a`. */
  lemma TestIsSubset(a: word, b: word)
    ensures BitAnd(a, b) == b <==> AllSet(a, b)
  {
    if BitAnd(a, b) == b {
      forall k | 0 <= k < 16 && Bit(b, k) ensures Bit(a, k) {
        AndIsSubset(a, b, k);
      }
    } else {
      var k := BitsDiffer(BitAnd(a, b), b);
      AndIsSubset(a, b, k);
      WordBits(b, k);
    }
  }

  predicate ObjectExists(cfg: Config, s: State, number: word) {
    1 <= number <= 255 && cfg.story.objectTable + 62 + 9 * number <= |s.mem.dynamic|
  }

  lemma LinkIs(cfg: Config, s: State, number: word, field: nat)
    requires field < 7 && number != 0
    ensures var r := ObjectRelative(s.mem, cfg.story.objectTable, number, field);
            && (r.Ok? <==> ObjectExists(cfg, s, number))
            && (r.Ok? ==> r.value == ObjectByte(cfg, s, number, field))
  {
  }

  lemma AttributeIs(cfg: Config, s: State, number: word, attribute: word)
    requires number != 0
    ensures var r := ObjectAttribute(s.mem, cfg.story.objectTable, number, attribute);
            && (r.Ok? <==> ObjectExists(cfg, s, number) && attribute < 32)
            && (r.Ok? ==> r.value == Bit(ObjectByte(cfg, s, number, attribute / 8), 7 - attribute % 8))
  {
    hide Bit;
  }

  /** The instruction can be carried out: it has its operands, the objects and variables it
      names exist, and the branch can be taken if it is to be. */
  predicate Possible(cfg: Config, s: State, inst: Instr, ops: seq<word>) {
    var op := inst.raw.op;
    && (match op.count
        case Op0 => true
        case Op1 =>
          |ops| == 1 && (op.number == 0 || ((ops[0] == 0 || ObjectExists(cfg, s, ops[0])) &&
                                            inst.raw.store.Some? && CanAssign(cfg, s, inst.raw.store.value)))
        case Op2 =>
          && |ops| >= 2 && (op.number != 1 ==> |ops| == 2)
          && (op.number == 4 || op.number == 5 ==> CanRead(s, ops[0] % 256))
          && (op.number == 6 ==> ops[0] == 0 || ObjectExists(cfg, s, ops[0]))
          && (op.number == 10 ==> ops[0] == 0 || (ObjectExists(cfg, s, ops[0]) && ops[1] < 32))
        case OpVar => false)
    && inst.raw.branch.Some?
    && (Holds(cfg, s, op, ops) == inst.raw.branch.value.onTrue ==>
          CanBranch(cfg, Before(cfg, s, inst, ops), inst.next, inst.raw.branch.value))
  }

  /** What a conditional instruction comes to. */
  function Chosen(cfg: Config, s: State, inst: Instr, ops: seq<word>): State {
    var s2 := Before(cfg, s, inst, ops);
    match inst.raw.branch
    case None => s2
    case Some(b) => if Holds(cfg, s, inst.raw.op, ops) == b.onTrue then Landed(cfg, s2, inst.next, b) else s2
  }

  ghost predicate Chooses(cfg: Config, s: State, inst: Instr, ops: seq<word>, r: Run<Control>) {
    && (r.Done? <==> Possible(cfg, s, inst, ops))
    && (r.Done? ==> r == Done(Chosen(cfg, s, inst, ops), Continue))
  }

  /** A test alone, with nothing before the branch. */
  lemma PlainTest(cfg: Config, s: State, inst: Instr, ops: seq<word>, holds: bool)
    requires Inv(cfg, s) && inst.raw.branch.Some? && holds == Holds(cfg, s, inst.raw.op, ops) && Before(cfg, s, inst, ops) == s
    ensures var r, b := Branched(cfg, s, inst, holds), inst.raw.branch.value;
            && (r.Done? <==> (Holds(cfg, s, inst.raw.op, ops) == b.onTrue ==> CanBranch(cfg, s, inst.next, b)))
            && (r.Done? ==> r == Done(Chosen(cfg, s, inst, ops), Continue))
  {
    hide Inv, Holds, Before, Landed, CanBranch, Branched;
    BranchLands(cfg, s, inst, inst.raw.branch.value, holds);
  }

  lemma Choose0(cfg: Config, s: State, inst: Instr)
    requires Inv(cfg, s) && inst.raw.branch.Some? && inst.raw.op.count == Op0 && inst.raw.op.number in {5, 6, 13}
    ensures Chooses(cfg, s, inst, [], Executed0(cfg, s, inst))
  {
    hide Inv, Branched, Beneath, Landed, CanBranch, Chosen;
    PlainTest(cfg, s, inst, [], Holds(cfg, s, inst.raw.op, []));
  }

  lemma ChooseZero(cfg: Config, s: State, inst: Instr, ops: seq<word>)
    requires Inv(cfg, s) && inst.raw.branch.Some? && inst.raw.op == Opcode(Op1, 0)
    ensures Chooses(cfg, s, inst, ops, Executed1(cfg, s, inst, ops))
  {
    hide Inv, Branched, Beneath, Landed, CanBranch, Chosen;
    if |ops| == 1 {
      PlainTest(cfg, s, inst, ops, ops[0] == 0);
    }
  }

  lemma ChooseLink(cfg: Config, s: State, inst: Instr, ops: seq<word>)
    requires Inv(cfg, s) && inst.raw.branch.Some? && inst.raw.store.Some?
    requires inst.raw.op == Opcode(Op1, 1) || inst.raw.op == Opcode(Op1, 2)
    ensures Chooses(cfg, s, inst, ops, Executed1(cfg, s, inst, ops))
  {
    hide Inv, Branched, Beneath, Landed, CanBranch, ObjectRelative, VariableWritten, Assigned, CanAssign, ObjectExists, ObjectByte;
    if |ops| == 1 {
      var field := if inst.raw.op.number == 1 then 5 else 6;
      if ops[0] != 0 {
        LinkIs(cfg, s, ops[0], field);
      }
      assert ObjectByte(cfg, s, 0, field) == 0 by { NoLink(cfg, s, field); }
      var v: word := ObjectByte(cfg, s, ops[0], field);
      var stored := VariableWritten(cfg, s, inst.raw.store.value, v);
      WriteAssigns(cfg, s, inst.raw.store.value, v);
      if stored.Done? {
        BranchLands(cfg, stored.state, inst, inst.raw.branch.value, v != 0);
      }
    }
  }

  lemma NoLink(cfg: Config, s: State, field: nat)
    ensures ObjectByte(cfg, s, 0, field) == 0
  {
  }

  lemma TwoIsSigned(w: word)
    ensures Signed(w) == Two(w)
  {
  }

  lemma AmongRest(ops: seq<word>)
    requires |ops| >= 1
    ensures ops[0] in ops[1..] <==> exists i :: 1 <= i < |ops| && ops[i] == ops[0]
  {
    if ops[0] in ops[1..] {
      var i :| 0 <= i < |ops[1..]| && ops[1..][i] == ops[0];
      assert ops[i + 1] == ops[0];
    }
    if exists i :: 1 <= i < |ops| && ops[i] == ops[0] {
      var i :| 1 <= i < |ops| && ops[i] == ops[0];
      assert ops[1..][i - 1] == ops[0];
    }
  }

  lemma ChooseEqual(cfg: Config, s: State, inst: Instr, ops: seq<word>)
    requires Inv(cfg, s) && inst.raw.branch.Some? && inst.raw.op == Opcode(Op2, 1)
    ensures Chooses(cfg, s, inst, ops, Executed2(cfg, s, inst, ops))
  {
    hide Inv, Branched, Beneath, Landed, CanBranch, Chosen;
    if |ops| >= 2 {
      AmongRest(ops);
      PlainTest(cfg, s, inst, ops, ops[0] in ops[1..]);
    }
  }

  lemma ChooseCompare(cfg: Config, s: State, inst: Instr, ops: seq<word>)
    requires Inv(cfg, s) && inst.raw.branch.Some? && (inst.raw.op == Opcode(Op2, 2) || inst.raw.op == Opcode(Op2, 3))
    ensures Chooses(cfg, s, inst, ops, Executed2(cfg, s, inst, ops))
  {
    hide Inv, Branched, Beneath, Landed, CanBranch, Chosen, Signed, Two;
    if |ops| == 2 {
      TwoIsSigned(ops[0]);
      TwoIsSigned(ops[1]);
      PlainTest(cfg, s, inst, ops, Holds(cfg, s, inst.raw.op, ops));
    }
  }

  lemma ChooseSubset(cfg: Config, s: State, inst: Instr, ops: seq<word>)
    requires Inv(cfg, s) && inst.raw.branch.Some? && inst.raw.op == Opcode(Op2, 7)
    ensures Chooses(cfg, s, inst, ops, Executed2(cfg, s, inst, ops))
  {
    hide Inv, Branched, Beneath, Landed, CanBranch, Chosen, AllSet, BitAnd;
    if |ops| == 2 {
      TestIsSubset(ops[0], ops[1]);
      PlainTest(cfg, s, inst, ops, BitAnd(ops[0], ops[1]) == ops[1]);
    }
  }

  lemma ChooseObject(cfg: Config, s: State, inst: Instr, ops: seq<word>)
    requires Inv(cfg, s) && inst.raw.branch.Some? && inst.raw.op.count == Op2 && inst.raw.op.number in {6, 10}
    ensures Chooses(cfg, s, inst, ops, Executed2(cfg, s, inst, ops))
  {
    hide Inv, Branched, Beneath, Landed, CanBranch, Chosen, ObjectRelative, ObjectAttribute, ObjectExists, ObjectByte, Bit;
    if |ops| == 2 {
      NoLink(cfg, s, 4);
      if ops[0] != 0 {
        LinkIs(cfg, s, ops[0], 4);
        AttributeIs(cfg, s, ops[0], ops[1]);
      }
      PlainTest(cfg, s, inst, ops, Holds(cfg, s, inst.raw.op, ops));
      assert Executed2(cfg, s, inst, ops) == Object2(cfg, s, inst, ops[0], ops[1]);
    }
  }

  /** Stepping a variable by one, up or down. */
  lemma StepsVariable(cfg: Config, s: State, number: byte, delta: int)
    requires Inv(cfg, s) && (delta == 1 || delta == -1)
    ensures Adjusted(cfg, s, number, delta).Done? <==> CanRead(s, number)
    ensures Adjusted(cfg, s, number, delta).Done? ==>
              Adjusted(cfg, s, number, delta) ==
              Done(Replaced(cfg, s, number, (ContentsOf(cfg, s, number, 0) + delta) % 0x1_0000), Stepping(cfg, s, number, delta))
  {
    hide Inv, IndirectRead, IndirectWritten, Replaced, ContentsOf;
    var w := ContentsOf(cfg, s, number, 0);
    ReferenceGives(cfg, s, number);
    ReferenceSets(cfg, s, number, Unsigned(Signed(w) + delta));
    assert Unsigned(Signed(w) + delta) == (w + delta) % 0x1_0000;
  }

  lemma ChooseStepped(cfg: Config, s: State, inst: Instr, ops: seq<word>)
    requires Inv(cfg, s) && inst.raw.branch.Some? && inst.raw.op.count == Op2 && inst.raw.op.number in {4, 5}
    ensures Chooses(cfg, s, inst, ops, Executed2(cfg, s, inst, ops))
  {
    hide Inv, Branched, Beneath, Landed, CanBranch, Adjusted, Replaced, Stepping, CanRead, Signed, Two, Bit;
    if |ops| == 2 {
      var delta := if inst.raw.op.number == 4 then -1 else 1;
      TwoIsSigned(ops[1]);
      StepsVariable(cfg, s, Lo(ops[0]), delta);
      var r := Adjusted(cfg, s, Lo(ops[0]), delta);
      if r.Done? {
        BranchLands(cfg, r.state, inst, inst.raw.branch.value, Holds(cfg, s, inst.raw.op, ops));
      }
    }
  }

  /** A conditional instruction always carries what its kind needs. */
  lemma ConditionalCarries(cfg: Config, s: State, inst: Instr)
    requires Decoded(s.mem, cfg.story.abbreviations, s.pc) == Ok(inst) && Conditional(inst.raw.op)
    ensures inst.raw.branch.Some?
    ensures inst.raw.op == Opcode(Op1, 1) || inst.raw.op == Opcode(Op1, 2) ==> inst.raw.store.Some?
  {
    hide Decoded, Encoder.HeadFits, Encoder.HeadIn;
    Carries(s.mem, cfg.story.abbreviations, s.pc, inst);
  }

  /** Every conditional instruction, on every machine: it can be carried out exactly when its
      operands and what they name are there and the branch, if it is to be taken, can be; and
      then it tests its condition, and branches if the outcome is the one it asks for. */
  lemma ConditionalStep(cfg: Config, s: State, inst: Instr, ops: seq<word>, s1: State)
    requires Executes(cfg, s, inst, ops, s1) && Conditional(inst.raw.op)
    ensures Stepped(cfg, s).Done? <==> Possible(cfg, s1, inst, ops)
    ensures Stepped(cfg, s).Done? ==> Stepped(cfg, s) == Done(Chosen(cfg, s1, inst, ops), Continue)
  {
    hide Inv, Stepped, Decoded, OperandOf, Taking, CanTake, Possible, Chosen, Executed0, Executed1, Executed2, Beneath, FollowsAs, InfoOf;
    ConditionalCarries(cfg, s, inst);
    StepDispatches(cfg, s, inst, ops, s1);
    match inst.raw.op.count {
      case Op0 =>
        Choose0(cfg, s1, inst);
        PossibleIgnores(cfg, s1, inst, ops);
      case Op1 =>
        if inst.raw.op.number == 0 {
          ChooseZero(cfg, s1, inst, ops);
        } else {
          ChooseLink(cfg, s1, inst, ops);
        }
      case Op2 =>
        if inst.raw.op.number == 1 {
          ChooseEqual(cfg, s1, inst, ops);
        } else if inst.raw.op.number in {6, 10} {
          ChooseObject(cfg, s1, inst, ops);
        } else if inst.raw.op.number in {4, 5} {
          ChooseStepped(cfg, s1, inst, ops);
        } else if inst.raw.op.number == 7 {
          ChooseSubset(cfg, s1, inst, ops);
        } else {
          ChooseCompare(cfg, s1, inst, ops);
        }
    }
  }

  lemma PossibleIgnores(cfg: Config, s: State, inst: Instr, ops: seq<word>)
    requires inst.raw.op.count == Op0
    ensures Possible(cfg, s, inst, ops) == Possible(cfg, s, inst, []) && Chosen(cfg, s, inst, ops) == Chosen(cfg, s, inst, [])
  {
  }
}
