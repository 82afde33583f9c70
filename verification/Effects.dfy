/** What the remaining instructions do, in the arithmetic and the addresses of section 15 of
    the Z-Machine Standards Document 1.1 (opcode_0op.go, opcode_1op.go, opcode_2op.go,
    opcode_var.go). */
module Effects {
  import opened Words
  import opened Memory
  import opened Opcodes
  import opened Decoder
  import Encoder
  import opened Objects
  import opened Forest
  import Properties
  import opened Random
  import opened Output
  import opened States
  import opened Routines
  import opened Instructions
  import opened Execution
  import opened Variables
  import opened Steps
  import opened Flow
  import opened Calls

  // ----- arithmetic -----

  /** `v` is the quotient of two signed numbers, rounded towards zero, as a word, and `w` the
      remainder, which has the sign of the dividend. */
  ghost predicate Divides(a: int, b: int, v: word, w: word) {
    exists q: int, r: int {:trigger Splits(a, b, q, r)} :: Splits(a, b, q, r) && v == q % 0x1_0000 && w == r % 0x1_0000
  }

  predicate Splits(a: int, b: int, q: int, r: int) {
    && a == q * b + r
    && (if a >= 0 then 0 <= r else r <= 0)
    && (if b > 0 then -b < r < b else b < r < -b)
  }

  /** The result of or, and, add, sub, mul, div and mod, by their places in the table. */
  ghost predicate Computes(op: Opcode, a: word, b: word, v: word) {
    if op == Opcode(Op2, 8) then forall k :: 0 <= k < 16 ==> (Bit(v, k) <==> Bit(a, k) || Bit(b, k))
    else if op == Opcode(Op2, 9) then forall k :: 0 <= k < 16 ==> (Bit(v, k) <==> Bit(a, k) && Bit(b, k))
    else if op == Opcode(Op2, 20) then v == (a as int + b as int) % 0x1_0000
    else if op == Opcode(Op2, 21) then v == (a as int - b as int) % 0x1_0000
    else if op == Opcode(Op2, 22) then v == (a as int * b as int) % 0x1_0000
    else if op == Opcode(Op2, 23) then b != 0 && exists w: word :: Divides(Two(a), Two(b), v, w)
    else op == Opcode(Op2, 24) && b != 0 && exists w: word :: Divides(Two(a), Two(b), w, v)
  }

  lemma {:induction false} OrIsUnion(a: nat, b: nat, n: nat, k: nat)
    requires a < Pow2(n) && b < Pow2(n)
    ensures Bit(BitOrN(a, b, n), k) <==> Bit(a, k) || Bit(b, k)
    decreases n
  {
    var r := BitOrN(a, b, n);
    if n == 0 {
      NoBits(k);
    } else {
      var bit := if a % 2 == 1 || b % 2 == 1 then 1 else 0;
      assert r == bit + 2 * BitOrN(a / 2, b / 2, n - 1) && r / 2 == BitOrN(a / 2, b / 2, n - 1) && r % 2 == bit;
      if k > 0 {
        OrIsUnion(a / 2, b / 2, n - 1, k - 1);
      }
    }
  }

  lemma BitsComputed(a: word, b: word, k: nat)
    ensures Bit(BitOr(a, b), k) <==> Bit(a, k) || Bit(b, k)
    ensures Bit(BitAnd(a, b), k) <==> Bit(a, k) && Bit(b, k)
  {
    assert Pow2(4) == 16 && Pow2(8) == 16 * Pow2(4) && Pow2(12) == 16 * Pow2(8) && Pow2(16) == 16 * Pow2(12);
    OrIsUnion(a, b, 16, k);
    AndIsSubset(a, b, k);
  }

  /** A number and the same number plus a multiple of 65536 wrap alike. */
  lemma WrapsAlike(x: int, k: int)
    ensures (x + 0x1_0000 * k) % 0x1_0000 == x % 0x1_0000
  {
  }

  lemma TwoWraps(a: word, b: word)
    ensures (Two(a) + Two(b)) % 0x1_0000 == (a as int + b as int) % 0x1_0000
    ensures (Two(a) - Two(b)) % 0x1_0000 == (a as int - b as int) % 0x1_0000
    ensures (Two(a) * Two(b)) % 0x1_0000 == (a as int * b as int) % 0x1_0000
  {
    var x, y := a as int, b as int;
    var i, j := if x >= 0x8000 then 1 else 0, if y >= 0x8000 then 1 else 0;
    assert Two(a) == x - 0x1_0000 * i && Two(b) == y - 0x1_0000 * j;
    var k := x * j + y * i - 0x1_0000 * i * j;
    assert Two(a) * Two(b) == x * y - 0x1_0000 * k;
    WrapsAlike(x * y, -k);
    WrapsAlike(x + y, -i - j);
    WrapsAlike(x - y, -i + j);
  }

  lemma DivisionSplits(a: word, b: word)
    requires Two(b) != 0
    ensures Divides(Two(a), Two(b), Quotient(Two(a), Two(b)) % 0x1_0000, Remaining(Two(a), Two(b)) % 0x1_0000)
  {
    QuotientAndRemainder(Two(a), Two(b));
    var q, r := Quotient(Two(a), Two(b)), Remaining(Two(a), Two(b));
    hide Two, Quotient, Remaining;
    assert Splits(Two(a), Two(b), q, r);
  }

  lemma {:induction false} NotFlips(a: nat, n: nat, k: nat)
    requires a < Pow2(n) && k < n
    ensures Bit(Pow2(n) - 1 - a, k) <==> !Bit(a, k)
    decreases n
  {
    var r := Pow2(n) - 1 - a;
    assert Pow2(n) == 2 * Pow2(n - 1);
    assert r / 2 == Pow2(n - 1) - 1 - a / 2 && r % 2 == 1 - a % 2;
    if k > 0 {
      NotFlips(a / 2, n - 1, k - 1);
    }
  }

  lemma NotIsFlipped(a: word, k: nat)
    requires k < 16
    ensures Bit(BitNot(a), k) <==> !Bit(a, k)
  {
    assert Pow2(4) == 16 && Pow2(8) == 16 * Pow2(4) && Pow2(12) == 16 * Pow2(8) && Pow2(16) == 16 * Pow2(12);
    NotFlips(a, 16, k);
  }

  // ----- instructions that store a value -----

  /** or, and, loadw, loadb, get_prop, get_prop_addr, get_next_prop, add, sub, mul, div, mod;
      get_parent, get_prop_len, load, not. */
  predicate Storing(op: Opcode) {
    match op.count
    case Op2 => op.number in {8, 9, 15, 16, 17, 18, 19, 20, 21, 22, 23, 24}
    case Op1 => op.number in {3, 4, 14, 15}
    case _ => false
  }

  /** What the property instructions look up; object 0 has nothing. */
  function Looked(cfg: Config, s: State, op: Opcode, ops: seq<word>): Result<word>
    requires |ops| == 2 || (op.count == Op1 && |ops| == 1)
  {
    var table := cfg.story.objectTable;
    if op == Opcode(Op1, 4) then Properties.Length(s.mem, ops[0])
    else if |ops| < 2 || ops[0] == 0 then Ok(0)
    else if op == Opcode(Op2, 17) then Properties.Value(s.mem, table, ops[0], ops[1])
    else if op == Opcode(Op2, 18) then Properties.DataAddress(s.mem, table, ops[0], ops[1])
    else Properties.NextNumber(s.mem, table, ops[0], ops[1])
  }

  /** The value each stores. */
  ghost predicate Yields(cfg: Config, s: State, op: Opcode, ops: seq<word>, v: word) {
    if op.count == Op1 then
      |ops| == 1 &&
      (if op.number == 3 then v == ObjectByte(cfg, s, ops[0], 4)
       else if op.number == 4 then Looked(cfg, s, op, ops) == Ok(v)
       else if op.number == 14 then v == ContentsOf(cfg, s, ops[0] % 256, 0)
       else forall k :: 0 <= k < 16 ==> (Bit(v, k) <==> !Bit(ops[0], k)))
    else
      |ops| == 2 &&
      (if op.number == 15 then
         var a: nat := ops[0] as nat + 2 * ops[1] as nat; v == StoryByte(s, a) * 256 + StoryByte(s, a + 1)
       else if op.number == 16 then v == StoryByte(s, ops[0] as nat + ops[1] as nat)
       else if op.number in {17, 18, 19} then Looked(cfg, s, op, ops) == Ok(v)
       else Computes(op, ops[0], ops[1], v))
  }

  /** It has one. */
  predicate CanYield(cfg: Config, s: State, op: Opcode, ops: seq<word>) {
    if op.count == Op1 then
      |ops| == 1 &&
      (if op.number == 3 then ops[0] == 0 || ObjectExists(cfg, s, ops[0])
       else if op.number == 4 then Looked(cfg, s, op, ops).Ok?
       else op.number == 14 ==> CanRead(s, ops[0] % 256))
    else
      |ops| == 2 &&
      (if op.number == 15 then ops[0] as nat + 2 * ops[1] as nat + 2 <= s.mem.Size()
       else if op.number == 16 then ops[0] as nat + ops[1] as nat < s.mem.Size()
       else if op.number in {17, 18, 19} then Looked(cfg, s, op, ops).Ok?
       else op.number in {23, 24} ==> ops[1] != 0)
  }

  ghost predicate StoresIt(cfg: Config, s: State, inst: Instr, ops: seq<word>, r: Run<Control>, v: word) {
    && inst.raw.store.Some?
    && (r.Done? <==> CanYield(cfg, s, inst.raw.op, ops) && CanAssign(cfg, s, inst.raw.store.value))
    && (r.Done? ==> Yields(cfg, s, inst.raw.op, ops, v) && r == Done(Assigned(cfg, s, inst.raw.store.value, v), Continue))
  }

  lemma ResultStored(cfg: Config, s: State, inst: Instr, v: Result<word>)
    requires Inv(cfg, s) && inst.raw.store.Some?
    ensures var r := StoredResult(cfg, s, inst, v);
            && (r.Done? <==> v.Ok? && CanAssign(cfg, s, inst.raw.store.value))
            && (r.Done? ==> r == Done(Assigned(cfg, s, inst.raw.store.value, v.value), Continue))
  {
    hide Inv, VariableWritten, Assigned, CanAssign, Beneath;
    if v.Ok? {
      WriteAssigns(cfg, s, inst.raw.store.value, v.value);
    }
  }

  lemma ComputedIs(op: Opcode, a: word, b: word)
    requires op.count == Op2 && op.number in {8, 9, 20, 21, 22, 23, 24}
    ensures Computed(op, a, b).Some?
    ensures Computed(op, a, b).value.Ok? <==> (op.number in {23, 24} ==> b != 0)
    ensures Computed(op, a, b).value.Ok? ==> Computes(op, a, b, Computed(op, a, b).value.value)
  {
    hide Bit, BitOr, BitAnd, Divides, Quotient, Remaining, Two, Signed;
    TwoIsSigned(a);
    TwoIsSigned(b);
    TwoIsZero(b);
    TwoWraps(a, b);
    forall k | 0 <= k < 16
      ensures Bit(BitOr(a, b), k) <==> Bit(a, k) || Bit(b, k)
      ensures Bit(BitAnd(a, b), k) <==> Bit(a, k) && Bit(b, k)
    {
      BitsComputed(a, b, k);
    }
    if b != 0 {
      DivisionSplits(a, b);
      var v: word, w: word := Quotient(Two(a), Two(b)) % 0x1_0000, Remaining(Two(a), Two(b)) % 0x1_0000;
      assert Divides(Two(a), Two(b), v, w);
    }
  }

  lemma TwoIsZero(w: word)
    ensures Two(w) == 0 <==> w == 0
  {
  }

  lemma LoadedIs(cfg: Config, s: State, a: word, b: word)
    requires Inv(cfg, s)
    ensures var at: nat, r := a as nat + 2 * b as nat, Instructions.Loaded(s.mem, LOADW, a, b);
            && (r.Ok? <==> at + 2 <= s.mem.Size())
            && (r.Ok? ==> r.value == StoryByte(s, at) * 256 + StoryByte(s, at + 1))
    ensures var at: nat, r := a as nat + b as nat, Instructions.Loaded(s.mem, LOADB, a, b);
            && (r.Ok? <==> at < s.mem.Size())
            && (r.Ok? ==> r.value == StoryByte(s, at))
  {
    InvParts(cfg, s);
    hide Inv;
  }

  lemma Stores2(cfg: Config, s: State, inst: Instr, ops: seq<word>) returns (v: word)
    requires Inv(cfg, s) && inst.raw.store.Some? && inst.raw.op.count == Op2 && Storing(inst.raw.op)
    ensures StoresIt(cfg, s, inst, ops, Executed2(cfg, s, inst, ops), v)
  {
    hide Inv, Beneath, StoredResult, Computed, Instructions.Loaded, Assigned, CanAssign, Computes, StoryByte,
         Properties.Value, Properties.DataAddress, Properties.NextNumber;
    var op := inst.raw.op;
    v := 0;
    if |ops| == 2 {
      var a, b := ops[0], ops[1];
      var r: Result<word>;
      if op.number in {15, 16} {
        LoadedIs(cfg, s, a, b);
        r := Instructions.Loaded(s.mem, op, a, b);
      } else if op.number in {17, 18, 19} {
        r := Looked(cfg, s, op, ops);
        NotComputed(op, a, b);
        assert Executed2(cfg, s, inst, ops) == Object2(cfg, s, inst, a, b) == StoredResult(cfg, s, inst, r);
      } else {
        ComputedIs(op, a, b);
        r := Computed(op, a, b).value;
      }
      ResultStored(cfg, s, inst, r);
      v := if r.Ok? then r.value else 0;
    }
  }

  lemma NotComputed(op: Opcode, a: word, b: word)
    requires op.count == Op2 && op.number in {14, 17, 18, 19, 11, 12}
    ensures Computed(op, a, b) == None
  {
    hide Quotient, Remaining, BitOr, BitAnd;
  }

  lemma Stores1(cfg: Config, s: State, inst: Instr, ops: seq<word>) returns (v: word)
    requires Inv(cfg, s) && inst.raw.store.Some? && inst.raw.op.count == Op1 && Storing(inst.raw.op)
    ensures StoresIt(cfg, s, inst, ops, Executed1(cfg, s, inst, ops), v)
  {
    hide Inv, Beneath, VariableWritten, IndirectRead, Assigned, CanAssign, CanRead, ContentsOf, ObjectRelative, ObjectExists, ObjectByte, Bit, BitNot, Properties.Length;
    var op := inst.raw.op;
    v := 0;
    if |ops| == 1 {
      var a := ops[0];
      if op.number == 3 {
        NoLink(cfg, s, 4);
        if a != 0 {
          LinkIs(cfg, s, a, 4);
        }
        v := ObjectByte(cfg, s, a, 4);
        ResultStored(cfg, s, inst, if a == 0 then Ok(0) else ObjectRelative(s.mem, cfg.story.objectTable, a, PARENT));
      } else if op.number == 4 {
        var r := Properties.Length(s.mem, a);
        v := if r.Ok? then r.value else 0;
        ResultStored(cfg, s, inst, r);
      } else if op.number == 14 {
        ReferenceGives(cfg, s, Lo(a));
        v := ContentsOf(cfg, s, a % 256, 0);
        WriteAssigns(cfg, s, inst.raw.store.value, v);
      } else {
        v := BitNot(a);
        forall k | 0 <= k < 16 ensures Bit(v, k) <==> !Bit(a, k) {
          NotIsFlipped(a, k);
        }
        WriteAssigns(cfg, s, inst.raw.store.value, v);
      }
    }
  }

  /** Every instruction that computes, loads or looks up a value and stores it: it can be
      carried out exactly when there is such a value and the variable can be set, and then sets
      the variable and nothing else. */
  lemma StoringStep(cfg: Config, s: State, inst: Instr, ops: seq<word>, s1: State) returns (v: word)
    requires Executes(cfg, s, inst, ops, s1) && Storing(inst.raw.op)
    ensures inst.raw.store.Some?
    ensures Stepped(cfg, s).Done? <==> CanYield(cfg, s1, inst.raw.op, ops) && CanAssign(cfg, s1, inst.raw.store.value)
    ensures Stepped(cfg, s).Done? ==>
              && Yields(cfg, s1, inst.raw.op, ops, v)
              && Stepped(cfg, s) == Done(Assigned(cfg, s1, inst.raw.store.value, v), Continue)
  {
    hide Inv, Stepped, Decoded, OperandOf, Taking, CanTake, Beneath, FollowsAs, Executed0, Executed1, Executed2, ExecutedVar;
    hide CanYield, Yields, CanAssign, Assigned, Encoder.HeadFits, Encoder.HeadIn;
    StoringCarries(s.mem, cfg.story.abbreviations, s.pc, inst);
    StepDispatches(cfg, s, inst, ops, s1);
    if inst.raw.op.count == Op1 {
      v := Stores1(cfg, s1, inst, ops);
    } else {
      v := Stores2(cfg, s1, inst, ops);
    }
  }

  lemma StoringCarries(m: Mem, abbrevs: nat, addr: nat, inst: Instr)
    requires Decoded(m, abbrevs, addr) == Ok(inst) && Storing(inst.raw.op)
    ensures inst.raw.store.Some?
  {
    hide Decoded, Encoder.HeadFits, Encoder.HeadIn;
    Carries(m, abbrevs, addr, inst);
  }

  // ----- instructions that change one thing and go on -----

  /** nop, pop; inc, dec, remove_obj, jump; set_attr, clear_attr, store, insert_obj; storew,
      storeb, put_prop, push, pull, input_stream, sound_effect. */
  predicate Simple(op: Opcode) {
    match op.count
    case Op0 => op.number in {4, 9}
    case Op1 => op.number in {5, 6, 9, 12}
    case Op2 => op.number in {11, 12, 13, 14}
    case OpVar => op.number in {1, 2, 3, 8, 9, 20, 21}
  }

  /** The object instructions and put_prop, on memory; object 0 is left alone. */
  function OnObjects(cfg: Config, m: Mem, op: Opcode, ops: seq<word>): Act<Mem, ()>
    requires |ops| >= 1 && (op.count == Op2 ==> |ops| == 2) && (op.count == OpVar ==> |ops| == 3)
  {
    var table := cfg.story.objectTable;
    if ops[0] == 0 then Done(m, ())
    else if op == Opcode(Op1, 9) then Removed(m, table, ops[0])
    else if op.count == Op2 then
      if op.number == 14 then if ops[1] == 0 then Done(m, ()) else Inserted(m, table, ops[0], ops[1])
      else AttributeSet(m, table, ops[0], ops[1], op.number == 11)
    else if op.count == OpVar then Properties.Stored(m, table, ops[0], ops[1], ops[2])
    else Done(m, ())
  }

  predicate OfObjects(op: Opcode) {
    op == Opcode(Op1, 9) || (op.count == Op2 && op.number in {11, 12, 14}) || op == Opcode(OpVar, 3)
  }

  /** How many operands each takes; sound_effect takes any number. */
  predicate Fitted(op: Opcode, ops: seq<word>) {
    match op.count
    case Op0 => |ops| == 0
    case Op1 => |ops| == 1
    case Op2 => |ops| == 2
    case OpVar => if op.number in {1, 2, 3} then |ops| == 3 else op.number != 21 ==> |ops| == 1
  }

  /** The machine with one byte of dynamic memory set. */
  function BytePut(s: State, a: nat, v: word): State {
    if a < |s.mem.dynamic| then s.(mem := s.mem.(dynamic := s.mem.dynamic[a := v % 256])) else s
  }

  /** What each does, when it can. */
  function Effect(cfg: Config, s: State, op: Opcode, ops: seq<word>): State {
    if !Fitted(op, ops) then s
    else if OfObjects(op) then s.(mem := OnObjects(cfg, s.mem, op, ops).state)
    else match op.count
      case Op0 => if op.number == 9 && s.stack != [] then s.(stack := s.stack[..|s.stack| - 1]) else s
      case Op1 =>
        var target := s.pc + Two(ops[0]) - 2;
        if op.number == 12 then if target >= 0 then s.(pc := target) else s
        else
          var delta := if op.number == 5 then 1 else -1;
          Replaced(cfg, s, ops[0] % 256, (ContentsOf(cfg, s, ops[0] % 256, 0) + delta) % 0x1_0000)
      case Op2 => Replaced(cfg, s, ops[0] % 256, ops[1])
      case OpVar =>
        if op.number == 1 then
          var a: nat := ops[0] as nat + 2 * ops[1] as nat; BytePut(BytePut(s, a, ops[2] / 256), a + 1, ops[2])
        else if op.number == 2 then BytePut(s, ops[0] as nat + ops[1] as nat, ops[2])
        else if op.number == 8 then s.(stack := s.stack + [ops[0]])
        else if op.number == 9 && s.stack != [] then
          Replaced(cfg, s.(stack := s.stack[..|s.stack| - 1]), ops[0] % 256, s.stack[|s.stack| - 1])
        else s
  }

  predicate CanEffect(cfg: Config, s: State, op: Opcode, ops: seq<word>) {
    && Fitted(op, ops)
    && if OfObjects(op) then OnObjects(cfg, s.mem, op, ops).Done?
       else match op.count
         case Op0 => op.number == 9 ==> CanRead(s, 0)
         case Op1 => if op.number == 12 then 0 <= s.pc + Two(ops[0]) - 2 < 0x2_0000 else CanRead(s, ops[0] % 256)
         case Op2 => CanReplace(cfg, s, ops[0] % 256)
         case OpVar =>
           if op.number == 1 then ops[0] as nat + 2 * ops[1] as nat + 2 <= |s.mem.dynamic|
           else if op.number == 2 then ops[0] as nat + ops[1] as nat < |s.mem.dynamic|
           else if op.number == 8 then |s.stack| < cfg.maxStack
           else op.number == 9 ==>
             CanRead(s, 0) && s.stack != [] && CanReplace(cfg, s.(stack := s.stack[..|s.stack| - 1]), ops[0] % 256)
  }

  predicate CanReplace(cfg: Config, s: State, number: nat) {
    if number == 0 then CanRead(s, 0) else CanAssign(cfg, s, number)
  }

  ghost predicate Affects(cfg: Config, s: State, op: Opcode, ops: seq<word>, r: Run<Control>) {
    && (r.Done? <==> CanEffect(cfg, s, op, ops))
    && (r.Done? ==> r == Done(Effect(cfg, s, op, ops), Continue))
  }

  lemma Affects0(cfg: Config, s: State, inst: Instr)
    requires Inv(cfg, s) && inst.raw.op.count == Op0 && Simple(inst.raw.op)
    ensures Affects(cfg, s, inst.raw.op, [], Executed0(cfg, s, inst))
  {
    hide Inv, Beneath, Pop, CanRead, ContentsOf;
    PopTakes(cfg, s);
  }

  lemma ChangingIs<T>(cfg: Config, s: State, r: Act<Mem, T>)
    requires Inv(cfg, s) && SameShape(s.mem, r.state)
    ensures Changing(cfg, s, r).Done? <==> r.Done?
    ensures r.Done? ==> Changing(cfg, s, r) == Done(s.(mem := r.state), Continue)
  {
    hide Inv, Beneath;
  }

  lemma JumpBias(next: nat, a: word)
    ensures var r := OffsetAddress(next, Signed(a) - BRANCH_BIAS);
            && (r.Ok? <==> 0 <= next + Two(a) - 2 < 0x2_0000)
            && (r.Ok? ==> r.value == next + Two(a) - 2)
  {
  }

  lemma Affects1(cfg: Config, s: State, inst: Instr, ops: seq<word>)
    requires Inv(cfg, s) && s.pc == inst.next && inst.raw.op.count == Op1 && Simple(inst.raw.op)
    ensures Affects(cfg, s, inst.raw.op, ops, Executed1(cfg, s, inst, ops))
  {
    hide Inv, Beneath, Adjusted, Replaced, CanRead, ContentsOf, Changing, Removed, OffsetAddress, Two, Signed;
    if |ops| == 1 {
      var op, a := inst.raw.op, ops[0];
      if op.number == 12 {
        JumpBias(inst.next, a);
      } else if op.number == 9 {
        ChangingIs(cfg, s, Removed(s.mem, cfg.story.objectTable, a));
      } else {
        StepsVariable(cfg, s, Lo(a), if op.number == 5 then 1 else -1);
      }
    }
  }

  lemma Affects2(cfg: Config, s: State, inst: Instr, ops: seq<word>)
    requires Inv(cfg, s) && inst.raw.op.count == Op2 && Simple(inst.raw.op)
    ensures Affects(cfg, s, inst.raw.op, ops, Executed2(cfg, s, inst, ops))
  {
    hide Inv, Beneath, IndirectWritten, Replaced, CanReplace, Changing, AttributeSet, Inserted, Computed;
    if |ops| == 2 {
      var op, a, b, table := inst.raw.op, ops[0], ops[1], cfg.story.objectTable;
      if op.number == 13 {
        ReferenceSets(cfg, s, Lo(a), b);
        CanReplaceIs(cfg, s, Lo(a));
      } else {
        NotComputed(op, a, b);
        ChangingIs(cfg, s, AttributeSet(s.mem, table, a, b, op == SET_ATTR));
        ChangingIs(cfg, s, Inserted(s.mem, table, a, b));
        assert Executed2(cfg, s, inst, ops) == Object2(cfg, s, inst, a, b);
      }
    }
  }

  lemma CanReplaceIs(cfg: Config, s: State, number: nat)
    ensures CanReplace(cfg, s, number) <==> if number == 0 then CanRead(s, 0) else CanAssign(cfg, s, number)
  {
  }

  lemma WritesBytes(m: Mem, a: nat, v: word)
    ensures m.WriteByte(a, Lo(v)).Done? ==> m.WriteByte(a, Lo(v)).state == m.(dynamic := m.dynamic[a := v % 256])
    ensures m.WriteWord(a, v).Done? ==> m.WriteWord(a, v).state == m.(dynamic := m.dynamic[a := v / 256][a + 1 := v % 256])
  {
  }

  lemma ArrayWrites(cfg: Config, s: State, base: word, index: word, v: word)
    requires Inv(cfg, s)
    ensures var at: nat, r := base as nat + 2 * index as nat, WordStored(s.mem, base, index, v);
            && (r.Done? <==> at + 2 <= |s.mem.dynamic|)
            && (r.Done? ==> s.(mem := r.state) == BytePut(BytePut(s, at, v / 256), at + 1, v))
    ensures var at: nat, r := base as nat + index as nat, ByteStored(s.mem, base, index, v);
            && (r.Done? <==> at < |s.mem.dynamic|)
            && (r.Done? ==> s.(mem := r.state) == BytePut(s, at, v))
  {
    InvParts(cfg, s);
    WritesBytes(s.mem, base as nat + 2 * index as nat, v);
    WritesBytes(s.mem, base as nat + index as nat, v);
    hide Inv, Mem.PutWord, Mem.Put, Hi, Lo;
  }

  lemma PullIs(cfg: Config, s: State, number: byte)
    requires Inv(cfg, s)
    ensures var r, rest := Pulled(cfg, s, number), s.(stack := if s.stack == [] then [] else s.stack[..|s.stack| - 1]);
            && (r.Done? <==> CanRead(s, 0) && s.stack != [] && CanReplace(cfg, rest, number))
            && (r.Done? ==> s.stack != [] && r == Done(Replaced(cfg, rest, number, s.stack[|s.stack| - 1]), Continue))
  {
    hide Inv, Pop, IndirectWritten, Beneath, Replaced, CanRead, CanAssign;
    PopTakes(cfg, s);
    var r := Pop(cfg, s);
    if r.Done? {
      ReferenceSets(cfg, r.state, number, r.value);
    }
  }

  lemma AffectsVar(cfg: Config, s: State, inst: Instr, ops: seq<word>)
    requires Inv(cfg, s) && inst.raw.op.count == OpVar && Simple(inst.raw.op)
    ensures Affects(cfg, s, inst.raw.op, ops, PlainVar(cfg, s, inst, ops))
  {
    hide Inv, Beneath, Pulled, Push, Replaced, CanReplace, CanRead, Changing, Properties.Stored, WordStored, ByteStored, BytePut;
    var op := inst.raw.op;
    if Fitted(op, ops) {
      if op.number in {1, 2, 3} {
        ArrayWrites(cfg, s, ops[0], ops[1], ops[2]);
        ChangingIs(cfg, s, WordStored(s.mem, ops[0], ops[1], ops[2]));
        ChangingIs(cfg, s, ByteStored(s.mem, ops[0], ops[1], ops[2]));
        ChangingIs(cfg, s, Properties.Stored(s.mem, cfg.story.objectTable, ops[0], ops[1], ops[2]));
      } else if op.number == 8 {
        PushIs(cfg, s, ops[0]);
      } else if op.number == 9 {
        PullIs(cfg, s, Lo(ops[0]));
      }
    }
  }

  lemma PushIs(cfg: Config, s: State, v: word)
    requires Inv(cfg, s)
    ensures Push(cfg, s, v).Done? <==> |s.stack| < cfg.maxStack
    ensures Push(cfg, s, v).Done? ==> Push(cfg, s, v).state == s.(stack := s.stack + [v])
  {
    hide Inv;
  }

  /** Every instruction that changes one thing and goes on. */
  lemma SimpleStep(cfg: Config, s: State, inst: Instr, ops: seq<word>, s1: State)
    requires Executes(cfg, s, inst, ops, s1) && Simple(inst.raw.op)
    ensures Stepped(cfg, s).Done? <==> CanEffect(cfg, s1, inst.raw.op, ops)
    ensures Stepped(cfg, s).Done? ==> Stepped(cfg, s) == Done(Effect(cfg, s1, inst.raw.op, ops), Continue)
  {
    hide Inv, Stepped, Decoded, OperandOf, CanTake, Beneath, FollowsAs, Executed0, Executed1, Executed2, Effect, CanEffect;
    hide PlainVar, Encoder.HeadFits, Encoder.HeadIn, LineTaken, StreamChosen, Called;
    StepDispatches(cfg, s, inst, ops, s1);
    match inst.raw.op.count {
      case Op0 =>
        NoOperands(s.mem, cfg.story.abbreviations, s.pc, inst);
        Affects0(cfg, s1, inst);
      case Op1 => Affects1(cfg, s1, inst, ops);
      case Op2 => Affects2(cfg, s1, inst, ops);
      case OpVar => AffectsVar(cfg, s1, inst, ops);
    }
  }

  // ----- the object tree, as executed -----

  /** The links the forest theorems speak of are bytes 4, 5 and 6 of the entries. */
  lemma LinksAre(cfg: Config, s: State, n: nat, o: word)
    requires n <= Forest.Count(s.mem, cfg.story.objectTable) && 1 <= o <= n
    ensures var l := LinksOf(s.mem, cfg.story.objectTable, n);
            && l.parent[o] == ObjectByte(cfg, s, o, 4) && l.sibling[o] == ObjectByte(cfg, s, o, 5)
            && l.child[o] == ObjectByte(cfg, s, o, 6)
  {
    ReadsLinks(s.mem, cfg.story.objectTable, n, o);
    LinkIs(cfg, s, o, 4);
    LinkIs(cfg, s, o, 5);
    LinkIs(cfg, s, o, 6);
    hide ObjectRelative, ObjectByte;
  }

  /** insert_obj on an ordered forest: its first operand goes, with everything below it, to
      the front of the children of its second. */
  lemma InsertStep(cfg: Config, s: State, inst: Instr, o: word, d: word, s1: State, m: Mem, t: nat, n: nat, kids: Kids)
    requires m == s.mem && t == cfg.story.objectTable
    requires n <= Forest.Count(m, t) && Represents(LinksOf(m, t, n), kids) && 1 <= o <= n && 1 <= d <= n && o != d
    requires Executes(cfg, s, inst, [o, d], s1) && inst.raw.op == Opcode(Op2, 14)
    ensures LinksOf(m, t, n).Has(o)
    ensures var m', rest := Inserted(m, t, o, d).state, KidsWithout(LinksOf(m, t, n), kids, o);
            && Stepped(cfg, s) == Done(s1.(mem := m'), Continue)
            && OnlyLinksDiffer(m, m', t, n)
            && n <= Forest.Count(m', t) && Represents(LinksOf(m', t, n), rest[d as nat := [o as nat] + rest[d]])
            && LinksOf(m', t, n).parent == LinksOf(m, t, n).parent[o as nat := d as nat]
  {
    hide Inv, Stepped, Decoded, OperandOf, CanTake, Taking, Represents, LinksOf, KidsWithout, Inserted;
    MemoryKept(cfg, s, inst, [o, d], s1);
    InsertIntoForest(m, t, n, kids, o, d);
    SimpleStep(cfg, s, inst, [o, d], s1);
  }

  lemma MemoryKept(cfg: Config, s: State, inst: Instr, ops: seq<word>, s1: State)
    requires Executes(cfg, s, inst, ops, s1)
    ensures s1.mem == s.mem
  {
    hide Inv, Decoded, OperandOf, CanTake, Pops;
  }

  /** remove_obj on an ordered forest: its operand leaves its parent's children, keeping its
      own. */
  lemma RemoveStep(cfg: Config, s: State, inst: Instr, o: word, s1: State, m: Mem, t: nat, n: nat, kids: Kids)
    requires m == s.mem && t == cfg.story.objectTable
    requires n <= Forest.Count(m, t) && Represents(LinksOf(m, t, n), kids) && 1 <= o <= n
    requires Executes(cfg, s, inst, [o], s1) && inst.raw.op == Opcode(Op1, 9)
    ensures LinksOf(m, t, n).Has(o)
    ensures var m' := Removed(m, t, o).state;
            && Stepped(cfg, s) == Done(s1.(mem := m'), Continue)
            && OnlyLinksDiffer(m, m', t, n)
            && n <= Forest.Count(m', t) && Represents(LinksOf(m', t, n), KidsWithout(LinksOf(m, t, n), kids, o))
            && LinksOf(m', t, n).parent == LinksOf(m, t, n).parent[o as nat := 0]
  {
    hide Inv, Stepped, Decoded, OperandOf, CanTake, Taking, Represents, LinksOf, KidsWithout, Removed;
    MemoryKept(cfg, s, inst, [o], s1);
    RemoveFromForest(m, t, n, kids, o);
    SimpleStep(cfg, s, inst, [o], s1);
  }

  /** set_attr and clear_attr: the attribute the second operand names, of the object the first
      names, is on or off afterwards; every other attribute of every object is as it was. */
  lemma AttributeStep(cfg: Config, s: State, inst: Instr, ops: seq<word>, s1: State, o: word, a: word)
    requires Executes(cfg, s, inst, ops, s1) && (inst.raw.op == Opcode(Op2, 11) || inst.raw.op == Opcode(Op2, 12))
    requires Stepped(cfg, s).Done? && ObjectExists(cfg, s, o) && a < 32
    ensures |ops| == 2 && s1.mem == s.mem
    ensures var s' := Stepped(cfg, s).state;
            && s' == s1.(mem := s'.mem)
            && Bit(ObjectByte(cfg, s', o, a / 8), 7 - a % 8) ==
               if o == ops[0] && a == ops[1] then inst.raw.op.number == 11 else Bit(ObjectByte(cfg, s, o, a / 8), 7 - a % 8)
  {
    hide Inv, Stepped, Decoded, OperandOf, CanTake, Taking, AttributeSet, ObjectAttribute, ObjectByte, Bit, AttributeAddress;
    MemoryKept(cfg, s, inst, ops, s1);
    SimpleStep(cfg, s, inst, ops, s1);
    var on, s' := inst.raw.op.number == 11, Stepped(cfg, s).state;
    AttributeIs(cfg, s, o, a);
    AttributeIs(cfg, s', o, a);
    AttributeThere(s.mem, cfg.story.objectTable, o, a);
    if ops[0] != 0 {
      AttributeSetAlone(s.mem, cfg.story.objectTable, ops[0], ops[1], on, o, a);
    }
  }

  lemma AttributeThere(m: Mem, table: nat, o: word, a: word)
    ensures ObjectAttribute(m, table, o, a).Ok? <==> AttributeAddress(m, table, o, a).Ok?
  {
  }
}
