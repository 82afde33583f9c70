/** Instruction decoding (decode.go) and its inverse: section 4 of the Z-Machine Standards
    Document 1.1. */
module Decoder {
  import opened Words
  import opened Memory
  import opened Text
  import opened Opcodes

  datatype Form = Long | Short | Variable

  datatype Kind = LargeConstant | SmallConstant | VariableNumber

  datatype Operand = Operand(kind: Kind, value: word)

  /** `long` records which of the two branch encodings was used. */
  datatype Branch = Branch(onTrue: bool, offset: int, long: bool) {
    /** The value returned when taking this branch returns instead of jumping. */
    function Returns(): Option<word> {
      if offset == 0 then Some(0) else if offset == 1 then Some(1) else None
    }

    function Target(next: nat): Result<nat> {
      OffsetAddress(next, offset - BRANCH_BIAS)
    }
  }

  const BRANCH_BIAS := 2
  const MAX_OPERANDS := 4

  /** A decoded instruction with its inline string still in raw words. */
  datatype Raw = Raw(
    form: Form,
    op: Opcode,
    operands: seq<Operand>,
    store: Option<byte>,
    branch: Option<Branch>,
    words: Option<seq<word>>)

  datatype Instr = Instr(addr: nat, next: nat, raw: Raw, text: Str)

  // ----- the pieces of an instruction -----

  /** What the opcode byte says: the form, the opcode, and the operand types when the form
      fixes them. */
  datatype Head = Head(form: Form, op: Opcode, kinds: seq<Kind>)

  /** The operand type with two-bit code `code`; None is an omitted operand. */
  function KindOf(code: nat): Option<Kind> {
    if code == 0 then Some(LargeConstant)
    else if code == 1 then Some(SmallConstant)
    else if code == 2 then Some(VariableNumber)
    else None
  }

  function CodeOf(kind: Kind): nat {
    match kind
    case LargeConstant => 0
    case SmallConstant => 1
    case VariableNumber => 2
  }

  function HeadOf(b: byte): Head {
    if b / 64 == 3 then Head(Variable, Opcode(if (b / 32) % 2 == 1 then OpVar else Op2, b % 32), [])
    else if b / 64 == 2 then
      match KindOf((b / 16) % 4)
      case None => Head(Short, Opcode(Op0, b % 16), [])
      case Some(kind) => Head(Short, Opcode(Op1, b % 16), [kind])
    else Head(Long, Opcode(Op2, b % 32), [LongKind((b / 64) % 2), LongKind((b / 32) % 2)])
  }

  function LongKind(bit: nat): Kind {
    if bit == 1 then VariableNumber else SmallConstant
  }

  /** The operand types byte: four two-bit fields, and once one is omitted all the later
      ones must be. */
  function KindsOf(b: byte): Result<seq<Kind>> {
    KindsOfCodes(b / 64, (b / 16) % 4, (b / 4) % 4, b % 4)
  }

  function KindsOfCodes(c0: nat, c1: nat, c2: nat, c3: nat): Result<seq<Kind>> {
    var k0, k1, k2, k3 := KindOf(c0), KindOf(c1), KindOf(c2), KindOf(c3);
    if k0.None? then if k1.None? && k2.None? && k3.None? then Ok([]) else Err(InvalidOpcode)
    else if k1.None? then if k2.None? && k3.None? then Ok([k0.value]) else Err(InvalidOpcode)
    else if k2.None? then if k3.None? then Ok([k0.value, k1.value]) else Err(InvalidOpcode)
    else if k3.None? then Ok([k0.value, k1.value, k2.value])
    else Ok([k0.value, k1.value, k2.value, k3.value])
  }

  function ReadOperand(m: Mem, at: nat, kind: Kind): Result<(Operand, nat)> {
    if kind == LargeConstant then
      var v :- m.ReadWord(at);
      Ok((Operand(kind, v), at + 2))
    else
      var v :- m.ReadByte(at);
      var operand := Operand(kind, v);
      Ok((operand, at + 1))
  }

  function ReadOperands(m: Mem, at: nat, kinds: seq<Kind>): Result<(seq<Operand>, nat)>
    decreases |kinds|
  {
    if kinds == [] then Ok(([], at))
    else
      var (first, next) :- ReadOperand(m, at, kinds[0]);
      var (rest, end) :- ReadOperands(m, next, kinds[1..]);
      Ok(([first] + rest, end))
  }

  function ReadStore(m: Mem, at: nat, present: bool): Result<(Option<byte>, nat)> {
    if !present then Ok((None, at))
    else
      var v :- m.ReadByte(at);
      Ok((Some(v), at + 1))
  }

  function BranchAt(m: Mem, at: nat): Result<(Branch, nat)> {
    var first :- m.ReadByte(at);
    var onTrue := first >= 128;
    if (first / 64) % 2 == 1 then Ok((Branch(onTrue, first % 64, false), at + 1))
    else
      var second :- m.ReadByte(at + 1);
      Ok((Branch(onTrue, SignExtend(Join(first % 64, second), 14), true), at + 2))
  }

  function ReadBranch(m: Mem, at: nat, present: bool): Result<(Option<Branch>, nat)> {
    if !present then Ok((None, at))
    else
      var (branch, next) :- BranchAt(m, at);
      Ok((Some(branch), next))
  }

  function ReadInline(m: Mem, at: nat, present: bool): Result<(Option<seq<word>>, nat)> {
    if !present then Ok((None, at))
    else if !m.Readable(at, 2) then Err(MemoryAccess)
    else match ScanWords(m, at)
         case None => Err(InvalidText)
         case Some(ws) => Ok((Some(ws), at + 2 * |ws|))
  }

  function ReadKinds(m: Mem, at: nat, head: Head): Result<(seq<Kind>, nat)> {
    if head.form != Variable then Ok((head.kinds, at))
    else
      var b :- m.ReadByte(at);
      var kinds :- KindsOf(b);
      Ok((kinds, at + 1))
  }

  /** The whole instruction at `addr`, and the address after it. */
  function Parse(m: Mem, addr: nat): Result<(Raw, nat)> {
    var b :- m.ReadByte(addr);
    var head := HeadOf(b);
    var info := InfoOf(head.op);
    if !info.DefinedInV3() then Err(InvalidOpcode)
    else
      var (kinds, at1) :- ReadKinds(m, addr + 1, head);
      var (operands, at2) :- ReadOperands(m, at1, kinds);
      var (store, at3) :- ReadStore(m, at2, info.store);
      var (branch, at4) :- ReadBranch(m, at3, info.branch);
      var (words, at5) :- ReadInline(m, at4, info.text);
      Ok((Raw(head.form, head.op, operands, store, branch, words), at5))
  }

  /** decodeInstruction: an instruction whose inline string does not decode is refused. */
  function Decoded(m: Mem, abbrevs: nat, addr: nat): Result<Instr> {
    var (raw, next) :- Parse(m, addr);
    match raw.words
    case None => Ok(Instr(addr, next, raw, []))
    case Some(ws) =>
      var text :- ReadText(m, abbrevs, UnpackAll(ws), true);
      Ok(Instr(addr, next, raw, text))
  }

  // ----- the decoder object -----

  /** Reads the bytes of one instruction in order, advancing `at` past what it has read. */
  class Decoder {
    const m: Mem
    var at: nat

    constructor (m: Mem, at: nat)
      ensures this.m == m && this.at == at
    {
      this.m, this.at := m, at;
    }

    method Byte() returns (r: Result<byte>)
      modifies this
      ensures r == m.ReadByte(old(at))
      ensures at == if r.Ok? then old(at) + 1 else old(at)
    {
      r := m.ReadByte(at);
      if r.Ok? {
        at := at + 1;
      }
    }

    method Word() returns (r: Result<word>)
      modifies this
      ensures r == m.ReadWord(old(at))
      ensures at == if r.Ok? then old(at) + 2 else old(at)
    {
      r := m.ReadWord(at);
      if r.Ok? {
        at := at + 2;
      }
    }

    method OperandTypes() returns (r: Result<seq<Kind>>)
      modifies this
      ensures r == match m.ReadByte(old(at)) case Err(e) => Err(e) case Ok(b) => KindsOf(b)
      ensures r.Ok? ==> at == old(at) + 1
    {
      var b :- Byte();
      var fields := [KindOf(b / 64), KindOf((b / 16) % 4), KindOf((b / 4) % 4), KindOf(b % 4)];
      var kinds: seq<Kind> := [];
      for i := 0 to MAX_OPERANDS
        invariant |kinds| == i
        invariant forall k :: 0 <= k < i ==> fields[k] == Some(kinds[k])
      {
        if fields[i].Some? {
          kinds := kinds + [fields[i].value];
        } else {
          for j := i + 1 to MAX_OPERANDS
            invariant forall k :: i <= k < j ==> fields[k].None?
          {
            if fields[j].Some? {
              return Err(InvalidOpcode);
            }
          }
          assert (i <= 1 ==> fields[1].None?) && (i <= 2 ==> fields[2].None?) && fields[3].None?;
          SameKinds(fields, kinds);
          return Ok(kinds);
        }
      }
      SameKinds(fields, kinds);
      return Ok(kinds);
    }

    method NextOperand(kind: Kind) returns (r: Result<Operand>)
      modifies this
      ensures match ReadOperand(m, old(at), kind)
              case Ok(pair) => r == Ok(pair.0) && at == pair.1
              case Err(e) => r == Err(e)
    {
      if kind == LargeConstant {
        var v :- Word();
        return Ok(Operand(kind, v));
      }
      var v :- Byte();
      return Ok(Operand(kind, v));
    }

    method NextOperands(kinds: seq<Kind>) returns (r: Result<seq<Operand>>)
      modifies this
      ensures match ReadOperands(m, old(at), kinds)
              case Ok(pair) => r == Ok(pair.0) && at == pair.1
              case Err(e) => r == Err(e)
    {
      var operands: seq<Operand> := [];
      assert kinds[0..] == kinds;
      ContinuedNothing(ReadOperands(m, at, kinds));
      for i := 0 to |kinds|
        invariant ReadOperands(m, old(at), kinds) == Continued(operands, ReadOperands(m, at, kinds[i..]))
      {
        ghost var before, rest := at, kinds[i..];
        assert rest[0] == kinds[i] && rest[1..] == kinds[i + 1..];
        var operand :- NextOperand(kinds[i]);
        ContinuedMore(operands, operand, ReadOperands(m, at, kinds[i + 1..]));
        operands := operands + [operand];
      }
      assert kinds[|kinds|..] == [] && operands + [] == operands;
      return Ok(operands);
    }

    method BranchData() returns (r: Result<Branch>)
      modifies this
      ensures match BranchAt(m, old(at))
              case Ok(pair) => r == Ok(pair.0) && at == pair.1
              case Err(e) => r == Err(e)
    {
      var first :- Byte();
      if (first / 64) % 2 == 1 {
        return Ok(Branch(first >= 128, first % 64, false));
      }
      var second :- Byte();
      return Ok(Branch(first >= 128, SignExtend(Join(first % 64, second), 14), true));
    }
  }

  function Continued(front: seq<Operand>, r: Result<(seq<Operand>, nat)>): Result<(seq<Operand>, nat)> {
    match r
    case Ok((rest, end)) => Ok((front + rest, end))
    case Err(e) => Err(e)
  }

  /** A list of at most four kinds, spelt out. */
  lemma SameKinds(fields: seq<Option<Kind>>, kinds: seq<Kind>)
    requires |fields| == MAX_OPERANDS && |kinds| <= MAX_OPERANDS
    requires forall k :: 0 <= k < |kinds| ==> fields[k] == Some(kinds[k])
    ensures |kinds| == 0 ==> kinds == []
    ensures |kinds| == 1 ==> kinds == [fields[0].value]
    ensures |kinds| == 2 ==> kinds == [fields[0].value, fields[1].value]
    ensures |kinds| == 3 ==> kinds == [fields[0].value, fields[1].value, fields[2].value]
    ensures |kinds| == 4 ==> kinds == [fields[0].value, fields[1].value, fields[2].value, fields[3].value]
  {
  }

  lemma ContinuedNothing(r: Result<(seq<Operand>, nat)>)
    ensures Continued([], r) == r
  {
    if r.Ok? {
      assert [] + r.value.0 == r.value.0;
    }
  }

  lemma ContinuedMore(front: seq<Operand>, x: Operand, r: Result<(seq<Operand>, nat)>)
    ensures Continued(front, Continued([x], r)) == Continued(front + [x], r)
  {
    if r.Ok? {
      assert front + ([x] + r.value.0) == front + [x] + r.value.0;
    }
  }

  method DecodeInstruction(m: Mem, abbrevs: nat, addr: nat) returns (r: Result<Instr>)
    ensures r == Decoded(m, abbrevs, addr)
  {
    hide HeadOf, InfoOf, KindsOf, BranchAt, ReadOperands, ReadText, UnpackAll;
    var d := new Decoder(m, addr);
    var opByte :- d.Byte();
    var head := HeadOf(opByte);
    var info := InfoOf(head.op);
    if !info.DefinedInV3() {
      return Err(InvalidOpcode);
    }
    var kinds := head.kinds;
    if head.form == Variable {
      kinds :- d.OperandTypes();
    }
    var operands :- d.NextOperands(kinds);
    var store: Option<byte> := None;
    if info.store {
      var v :- d.Byte();
      store := Some(v);
    }
    var branch: Option<Branch> := None;
    if info.branch {
      var b :- d.BranchData();
      branch := Some(b);
    }
    var raw := Raw(head.form, head.op, operands, store, branch, None);
    if !info.text {
      return Ok(Instr(addr, d.at, raw, []));
    }
    ghost var start := d.at;
    var inline :- ReadZChars(m, d.at);
    ghost var ws := ScanWords(m, start).value;
    var text :- DecodeZText(m, abbrevs, inline.0, true);
    return Ok(Instr(addr, inline.1, raw.(words := Some(InlineWords(m, d.at))), text));
  }

  /** The words of a string known to end inside memory. */
  function InlineWords(m: Mem, at: nat): seq<word>
    requires ScanWords(m, at).Some?
  {
    ScanWords(m, at).value
  }
}
