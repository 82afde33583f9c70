/** The instruction set of Version 3 (opcode.go; section 14 of the Z-Machine Standards
    Document 1.1), listed by what each instruction takes, and the bytes of an instruction. */
module Tables {
  import opened Words
  import opened Memory
  import opened Opcodes
  import opened Decoder
  import Encoder
  import opened Steps
  import Flow
  import Calls
  import Effects
  import Services

  /** The opcode numbers of each kind of instruction that Version 3 has. */
  function Numbers(count: Count): set<int> {
    match count
    case Op0 => {0, 1, 2, 3, 4, 5, 6, 7, 8, 9, 10, 11, 12, 13}
    case Op1 => {0, 1, 2, 3, 4, 5, 6, 7, 9, 10, 11, 12, 13, 14, 15}
    case Op2 => {1, 2, 3, 4, 5, 6, 7, 8, 9, 10, 11, 12, 13, 14, 15, 16, 17, 18, 19, 20, 21, 22, 23, 24}
    case OpVar => {0, 1, 2, 3, 4, 5, 6, 7, 8, 9, 10, 11, 19, 20, 21}
  }

  /** Those that store a result. */
  function StoreNumbers(count: Count): set<int> {
    match count
    case Op0 => {}
    case Op1 => {1, 2, 3, 4, 14, 15}
    case Op2 => {8, 9, 15, 16, 17, 18, 19, 20, 21, 22, 23, 24}
    case OpVar => {0, 7}
  }

  /** Those that branch. */
  function BranchNumbers(count: Count): set<int> {
    match count
    case Op0 => {5, 6, 13}
    case Op1 => {0, 1, 2}
    case Op2 => {1, 2, 3, 4, 5, 6, 7, 10}
    case OpVar => {}
  }

  function Range(count: Count): int {
    match count
    case Op0 => 16
    case Op1 => 16
    case Op2 => 32
    case OpVar => 32
  }

  ghost predicate Listed(op: Opcode) {
    && (InfoOf(op).DefinedInV3() <==> op.number in Numbers(op.count))
    && (op.number in Numbers(op.count) ==>
          && (InfoOf(op).store <==> op.number in StoreNumbers(op.count))
          && (InfoOf(op).branch <==> op.number in BranchNumbers(op.count))
          && (InfoOf(op).text <==> op == Opcode(Op0, 2) || op == Opcode(Op0, 3)))
  }

  lemma Listed0(n: byte)
    requires n < 16
    ensures Listed(Opcode(Op0, n)) && Listed(Opcode(Op1, n))
  {
  }

  lemma Listed2(n: byte)
    requires n < 32
    ensures Listed(Opcode(Op2, n))
  {
  }

  lemma ListedVar(n: byte)
    requires n < 32
    ensures Listed(Opcode(OpVar, n))
  {
  }

  /** The opcode table has exactly these instructions; only print and print_ret have text. */
  lemma TableIs(op: Opcode)
    requires op.number < Range(op.count)
    ensures InfoOf(op).DefinedInV3() <==> op.number in Numbers(op.count)
    ensures op.number in Numbers(op.count) ==>
              && (InfoOf(op).store <==> op.number in StoreNumbers(op.count))
              && (InfoOf(op).branch <==> op.number in BranchNumbers(op.count))
              && (InfoOf(op).text <==> op == Opcode(Op0, 2) || op == Opcode(Op0, 3))
  {
    hide InfoOf, Numbers, StoreNumbers, BranchNumbers;
    match op.count {
      case Op2 => Listed2(op.number);
      case OpVar => ListedVar(op.number);
      case _ => Listed0(op.number);
    }
  }

  /** What the first byte of an instruction says (section 4.3): from 192 on the variable form,
      from 128 on the short form, and below that the long form with two operands, each a small
      constant or a variable. */
  lemma FirstByteSays(b: byte)
    ensures HeadOf(b) ==
            if b >= 224 then Head(Variable, Opcode(OpVar, b as int - 224), [])
            else if b >= 192 then Head(Variable, Opcode(Op2, b as int - 192), [])
            else if b >= 176 then Head(Short, Opcode(Op0, b as int - 176), [])
            else if b >= 160 then Head(Short, Opcode(Op1, b as int - 160), [VariableNumber])
            else if b >= 144 then Head(Short, Opcode(Op1, b as int - 144), [SmallConstant])
            else if b >= 128 then Head(Short, Opcode(Op1, b as int - 128), [LargeConstant])
            else if b >= 96 then Head(Long, Opcode(Op2, b as int - 96), [VariableNumber, VariableNumber])
            else if b >= 64 then Head(Long, Opcode(Op2, b as int - 64), [VariableNumber, SmallConstant])
            else if b >= 32 then Head(Long, Opcode(Op2, b as int - 32), [SmallConstant, VariableNumber])
            else Head(Long, Opcode(Op2, b as int), [SmallConstant, SmallConstant])
  {
  }

  /** The two-bit field `j` of an operand types byte, from the top. */
  function TypeField(t: byte, j: nat): nat {
    if j == 0 then t / 64 else if j == 1 then t / 16 % 4 else if j == 2 then t / 4 % 4 else t % 4
  }

  /** The types byte gives the kinds of the operands (section 4.2): 0 a large constant, 1 a
      small one, 2 a variable, and 3 for every operand there is not. */
  ghost predicate TypesSay(t: byte, kinds: seq<Kind>) {
    && |kinds| <= 4
    && (forall j :: 0 <= j < |kinds| ==>
          TypeField(t, j) == match kinds[j] case LargeConstant => 0 case SmallConstant => 1 case VariableNumber => 2)
    && forall j :: |kinds| <= j < 4 ==> TypeField(t, j) == 3
  }

  lemma TypesAre(t: byte)
    ensures KindsOf(t).Ok? ==> TypesSay(t, KindsOf(t).value)
    ensures KindsOf(t).Err? ==> exists j :: 0 <= j < 3 && TypeField(t, j) == 3 && exists k :: j < k < 4 && TypeField(t, k) != 3
  {
    var c0, c1, c2, c3 := TypeField(t, 0), TypeField(t, 1), TypeField(t, 2), TypeField(t, 3);
    assert c0 < 4 && c1 < 4 && c2 < 4 && c3 < 4 && KindsOf(t) == KindsOfCodes(c0, c1, c2, c3);
    hide TypeField, KindsOf;
  }

  /** Branch data (section 4.7): bit 7 says on which outcome to branch, and bit 6 whether the
      offset is the other six bits or, with the next byte, a signed number of fourteen. */
  lemma BranchSays(m: Mem, at: nat)
    requires BranchAt(m, at).Ok?
    ensures at < m.Size()
    ensures var first, (b, end) := m.Get(at) as nat, BranchAt(m, at).value;
            && (b.onTrue <==> first >= 128)
            && (first / 64 % 2 == 1 ==> b.offset == first % 64 && end == at + 1)
            && (first / 64 % 2 == 0 ==>
                  && at + 1 < m.Size() && end == at + 2
                  && var v := first % 64 * 256 + m.Get(at + 1) as nat; b.offset == if v < 0x2000 then v else v - 0x4000)
  {
    var first := m.Get(at);
    if first / 64 % 2 == 0 {
      var w := Join(first % 64, m.Get(at + 1));
      SignExtend14(w);
      hide SignExtend;
    }
  }

  /** How many bytes operands take. */
  function SizeOf(os: seq<Operand>): nat {
    if os == [] then 0 else (if os[0].kind == LargeConstant then 2 else 1) + SizeOf(os[1..])
  }

  /** Operands lie one behind the other: two bytes for a large constant, the high one first,
      and one for any other. */
  ghost predicate OperandsLie(m: Mem, at: nat, os: seq<Operand>)
    decreases |os|
  {
    os != [] ==>
      && (if os[0].kind == LargeConstant then
            at + 1 < m.Size() && os[0].value == m.Get(at) as int * 256 + m.Get(at + 1) as int
          else at < m.Size() && os[0].value == m.Get(at))
      && OperandsLie(m, at + (if os[0].kind == LargeConstant then 2 else 1), os[1..])
  }

  lemma {:induction false} OperandsAre(m: Mem, at: nat, kinds: seq<Kind>, os: seq<Operand>, end: nat)
    requires ReadOperands(m, at, kinds) == Ok((os, end))
    ensures |os| == |kinds| && (forall i :: 0 <= i < |os| ==> os[i].kind == kinds[i])
    ensures OperandsLie(m, at, os) && end == at + SizeOf(os)
    decreases |kinds|
  {
    if kinds != [] {
      var (first, next) := ReadOperand(m, at, kinds[0]).value;
      OperandsAre(m, next, kinds[1..], os[1..], end);
      assert os[0] == first;
      assert forall i :: 0 < i < |os| ==> os[i] == os[1..][i - 1];
    }
  }

  /** An instruction, byte by byte: the opcode; the types byte, in the variable form; the
      operands; the result variable, of an instruction that stores; the branch, of one that
      branches; and the text, of one that has any. */
  lemma InstructionLies(m: Mem, abbrevs: nat, addr: nat, inst: Instr)
    requires Decoded(m, abbrevs, addr) == Ok(inst)
    ensures addr < m.Size() && inst.addr == addr && inst.raw.form == HeadOf(m.Get(addr)).form && inst.raw.op == HeadOf(m.Get(addr)).op
    ensures inst.raw.op.number in Numbers(inst.raw.op.count)
    ensures var raw := inst.raw;
            var a2: nat := addr + if raw.form == Variable then 2 else 1;
            var a3 := a2 + SizeOf(raw.operands);
            var a4: nat := a3 + if raw.store.Some? then 1 else 0;
            && (if raw.form == Variable then
                  addr + 1 < m.Size() && TypesSay(m.Get(addr + 1), Encoder.KindsIn(raw.operands))
                else Encoder.KindsIn(raw.operands) == HeadOf(m.Get(addr)).kinds)
            && OperandsLie(m, a2, raw.operands)
            && (raw.store.Some? <==> raw.op.number in StoreNumbers(raw.op.count))
            && (raw.store.Some? ==> a3 < m.Size() && raw.store.value == m.Get(a3))
            && (raw.branch.Some? <==> raw.op.number in BranchNumbers(raw.op.count))
            && (raw.branch.Some? ==> BranchAt(m, a4).Ok? && BranchAt(m, a4).value.0 == raw.branch.value)
  {
    hide HeadOf, InfoOf, KindsOf, BranchAt, ReadInline, ReadKinds, ReadStore, ReadOperands, TypesSay, OperandsLie, Numbers, StoreNumbers, BranchNumbers;
    hide Decoded, Parse, SizeOf;
    var kinds, a2, os, a3, a4 := Pieces(m, abbrevs, addr, inst);
    var head := HeadOf(m.Get(addr));
    HeadNumber(m.Get(addr));
    TableIs(head.op);
    KindsLie(m, addr + 1, head, kinds, a2);
    OperandsAre(m, a2, kinds, os, a3);
    KindsSame(os, kinds);
    StoreLies(m, a3, InfoOf(head.op).store, inst.raw.store, a4);
    BranchLies(m, a4, InfoOf(head.op).branch, inst.raw.branch);
  }

  /** The pieces an instruction is read in. */
  lemma Pieces(m: Mem, abbrevs: nat, addr: nat, inst: Instr) returns (kinds: seq<Kind>, a2: nat, os: seq<Operand>, a3: nat, a4: nat)
    requires Decoded(m, abbrevs, addr) == Ok(inst)
    ensures addr < m.Size() && inst.addr == addr
    ensures var head, info := HeadOf(m.Get(addr)), InfoOf(HeadOf(m.Get(addr)).op);
            && inst.raw.form == head.form && inst.raw.op == head.op && info.DefinedInV3()
            && ReadKinds(m, addr + 1, head) == Ok((kinds, a2)) && ReadOperands(m, a2, kinds) == Ok((os, a3))
            && inst.raw.operands == os
            && ReadStore(m, a3, info.store) == Ok((inst.raw.store, a4))
            && ReadBranch(m, a4, info.branch).Ok? && ReadBranch(m, a4, info.branch).value.0 == inst.raw.branch
  {
    hide HeadOf, InfoOf, BranchAt, ReadInline, ReadKinds, ReadOperands, ReadStore, ReadBranch;
    var head, info := HeadOf(m.Get(addr)), InfoOf(HeadOf(m.Get(addr)).op);
    kinds, a2 := ReadKinds(m, addr + 1, head).value.0, ReadKinds(m, addr + 1, head).value.1;
    os, a3 := ReadOperands(m, a2, kinds).value.0, ReadOperands(m, a2, kinds).value.1;
    a4 := ReadStore(m, a3, info.store).value.1;
  }

  lemma KindsLie(m: Mem, at: nat, head: Head, kinds: seq<Kind>, end: nat)
    requires ReadKinds(m, at, head) == Ok((kinds, end))
    ensures if head.form == Variable then at < m.Size() && TypesSay(m.Get(at), kinds) && end == at + 1
            else kinds == head.kinds && end == at
  {
    if head.form == Variable {
      TypesAre(m.Get(at));
    }
    hide KindsOf, TypesSay;
  }

  lemma StoreLies(m: Mem, at: nat, present: bool, store: Option<byte>, end: nat)
    requires ReadStore(m, at, present) == Ok((store, end))
    ensures (store.Some? <==> present) && end == at + (if present then 1 else 0)
    ensures store.Some? ==> at < m.Size() && store.value == m.Get(at)
  {
  }

  lemma BranchLies(m: Mem, at: nat, present: bool, branch: Option<Branch>)
    requires ReadBranch(m, at, present).Ok? && ReadBranch(m, at, present).value.0 == branch
    ensures branch.Some? <==> present
    ensures branch.Some? ==> BranchAt(m, at).Ok? && BranchAt(m, at).value.0 == branch.value
  {
    hide BranchAt;
  }

  lemma {:induction false} KindsSame(os: seq<Operand>, kinds: seq<Kind>)
    requires |os| == |kinds| && forall i :: 0 <= i < |os| ==> os[i].kind == kinds[i]
    ensures Encoder.KindsIn(os) == kinds
  {
    if os != [] {
      KindsSame(os[1..], kinds[1..]);
      assert [kinds[0]] + kinds[1..] == kinds;
    }
  }

  lemma HeadNumber(b: byte)
    ensures HeadOf(b).op.number < Range(HeadOf(b).op.count)
  {
  }

  /** Every instruction of Version 3 is one of those whose steps are described. */
  lemma EveryInstruction(op: Opcode)
    requires op.number in Numbers(op.count)
    ensures || Flow.Conditional(op) || Effects.Storing(op) || Effects.Simple(op) || Calls.Returning(op) || Services.JustPrints(op)
            || op in {Opcode(Op0, 3), Opcode(Op0, 7), Opcode(Op0, 10), Opcode(Op0, 12)}
            || op in {Opcode(OpVar, 0), Opcode(OpVar, 4), Opcode(OpVar, 7), Opcode(OpVar, 10), Opcode(OpVar, 11), Opcode(OpVar, 19)}
  {
  }
}
