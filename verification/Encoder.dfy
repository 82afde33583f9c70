/** The inverse of the decoder: printing an instruction, and the proof that decoding and
    printing undo each other (decode.go; the printer follows the encoders of
    machine_test.go). */
module Encoder {
  import opened Words
  import opened Memory
  import opened Text
  import opened Opcodes
  import opened Decoder

  /** `bytes` are the contents of memory from `addr` on. */
  ghost predicate At(m: Mem, addr: nat, bytes: seq<byte>) {
    && m.Readable(addr, |bytes|)
    && forall k :: 0 <= k < |bytes| ==> m.Get(addr + k) == bytes[k]
  }

  lemma AtConcat(m: Mem, addr: nat, a: seq<byte>, b: seq<byte>)
    ensures At(m, addr, a + b) <==> At(m, addr, a) && At(m, addr + |a|, b)
  {
    if At(m, addr, a + b) {
      forall k | 0 <= k < |a| ensures m.Get(addr + k) == a[k] {
        assert (a + b)[k] == a[k];
      }
      forall k | 0 <= k < |b| ensures m.Get(addr + |a| + k) == b[k] {
        assert (a + b)[|a| + k] == b[k];
      }
    }
    if At(m, addr, a) && At(m, addr + |a|, b) {
      forall k | 0 <= k < |a + b| ensures m.Get(addr + k) == (a + b)[k] {
        if k >= |a| {
          assert m.Get(addr + |a| + (k - |a|)) == b[k - |a|];
        }
      }
    }
  }

  // ----- the printer -----

  function PrintHead(head: Head): byte
    requires HeadFits(head)
  {
    match head.form
    case Variable => 192 + (if head.op.count == OpVar then 32 else 0) + head.op.number
    case Short => 128 + (if head.kinds == [] then 3 else CodeOf(head.kinds[0])) * 16 + head.op.number
    case Long =>
      (if head.kinds[0] == VariableNumber then 64 else 0) +
      (if head.kinds[1] == VariableNumber then 32 else 0) + head.op.number
  }

  /** The heads an opcode byte can express. */
  predicate HeadFits(head: Head) {
    match head.form
    case Variable => (head.op.count == Op2 || head.op.count == OpVar) && head.op.number < 32 && head.kinds == []
    case Short =>
      && head.op.number < 16
      && ((head.op.count == Op0 && head.kinds == []) || (head.op.count == Op1 && |head.kinds| == 1))
    case Long =>
      && head.op.count == Op2 && head.op.number < 32 && |head.kinds| == 2
      && head.kinds[0] != LargeConstant && head.kinds[1] != LargeConstant
  }

  function KindCode(kinds: seq<Kind>, i: nat): (c: nat)
    ensures c <= 3
  {
    if i < |kinds| then CodeOf(kinds[i]) else 3
  }

  function PrintKinds(kinds: seq<Kind>): byte {
    KindCode(kinds, 0) * 64 + KindCode(kinds, 1) * 16 + KindCode(kinds, 2) * 4 + KindCode(kinds, 3)
  }

  function PrintWord(w: word): seq<byte> { [Hi(w), Lo(w)] }

  function PrintOperand(o: Operand): seq<byte> {
    if o.kind == LargeConstant then PrintWord(o.value) else [Lo(o.value)]
  }

  function PrintOperands(os: seq<Operand>): seq<byte> {
    if os == [] then [] else PrintOperand(os[0]) + PrintOperands(os[1..])
  }

  function PrintStore(store: Option<byte>): seq<byte> {
    match store
    case None => []
    case Some(v) => [v]
  }

  function PrintBranch(branch: Option<Branch>): seq<byte>
    requires branch.Some? ==> BranchFits(branch.value)
  {
    match branch
    case None => []
    case Some(b) =>
      var top := if b.onTrue then 128 else 0;
      if b.long then
        var field := b.offset % 0x4000;
        [top + field / 256, field % 256]
      else [top + 64 + b.offset]
  }

  function PrintWords(ws: seq<word>): seq<byte> {
    if ws == [] then [] else PrintWord(ws[0]) + PrintWords(ws[1..])
  }

  function KindsIn(os: seq<Operand>): (kinds: seq<Kind>)
    ensures |kinds| == |os|
  {
    if os == [] then [] else [os[0].kind] + KindsIn(os[1..])
  }

  function HeadIn(raw: Raw): Head {
    Head(raw.form, raw.op, if raw.form == Variable then [] else KindsIn(raw.operands))
  }

  function PrintInline(words: Option<seq<word>>): seq<byte> {
    if words.Some? then PrintWords(words.value) else []
  }

  function PrintOptionalKinds(form: Form, kinds: seq<Kind>): seq<byte> {
    if form == Variable then [PrintKinds(kinds)] else []
  }

  function Print(raw: Raw): seq<byte>
    requires WellFormed(raw)
  {
    [PrintHead(HeadIn(raw))]
    + (PrintOptionalKinds(raw.form, KindsIn(raw.operands))
    + (PrintOperands(raw.operands)
    + (PrintStore(raw.store)
    + (PrintBranch(raw.branch)
    + PrintInline(raw.words)))))
  }

  // ----- the records that have an encoding -----

  predicate OperandFits(o: Operand) {
    o.kind == LargeConstant || o.value < 256
  }

  /** A one-byte branch holds 0 to 63; a two-byte one a signed 14-bit number. */
  predicate BranchFits(b: Branch) {
    if b.long then -0x2000 <= b.offset < 0x2000 else 0 <= b.offset < 64
  }

  /** The end bit is set on the last word of a string and on no other. */
  predicate StringFits(ws: seq<word>) {
    && ws != []
    && if |ws| == 1 then ws[0] >= 0x8000 else ws[0] < 0x8000 && StringFits(ws[1..])
  }

  predicate WellFormed(raw: Raw) {
    var info := InfoOf(raw.op);
    && HeadFits(HeadIn(raw))
    && info.DefinedInV3()
    && |raw.operands| <= MAX_OPERANDS
    && (forall i :: 0 <= i < |raw.operands| ==> OperandFits(raw.operands[i]))
    && (raw.store.Some? <==> info.store)
    && (raw.branch.Some? <==> info.branch)
    && (raw.branch.Some? ==> BranchFits(raw.branch.value))
    && (raw.words.Some? <==> info.text)
    && (raw.words.Some? ==> StringFits(raw.words.value))
  }

  // ----- piece by piece -----

  lemma KindInverse(code: nat)
    ensures KindOf(code).Some? <==> code < 3
    ensures code < 3 ==> CodeOf(KindOf(code).value) == code
  {
  }

  lemma HeadInverse(b: byte)
    ensures HeadFits(HeadOf(b)) && PrintHead(HeadOf(b)) == b
  {
    KindInverse((b / 16) % 4);
  }

  lemma PrintHeadInverse(head: Head)
    requires HeadFits(head)
    ensures HeadOf(PrintHead(head)) == head
  {
    var b, n := PrintHead(head), head.op.number;
    match head.form {
      case Variable =>
        assert b == 192 + (if head.op.count == OpVar then 32 else 0) + n;
      case Short =>
        var c := if head.kinds == [] then 3 else CodeOf(head.kinds[0]);
        assert b == 128 + c * 16 + n && b / 64 == 2 && (b / 16) % 4 == c && b % 16 == n;
        if head.kinds != [] {
          assert head.kinds == [head.kinds[0]];
        }
      case Long =>
        var c0, c1 := if head.kinds[0] == VariableNumber then 1 else 0, if head.kinds[1] == VariableNumber then 1 else 0;
        assert b == c0 * 64 + c1 * 32 + n && b / 64 == c0 && (b / 32) % 2 == c1 && b % 32 == n;
        assert head.kinds == [head.kinds[0], head.kinds[1]];
    }
  }

  lemma Quarters(c0: nat, c1: nat, c2: nat, c3: nat)
    requires c0 < 4 && c1 < 4 && c2 < 4 && c3 < 4
    ensures var b := c0 * 64 + c1 * 16 + c2 * 4 + c3;
            b / 64 == c0 && (b / 16) % 4 == c1 && (b / 4) % 4 == c2 && b % 4 == c3
  {
    var b := c0 * 64 + c1 * 16 + c2 * 4 + c3;
    assert b / 4 == c0 * 16 + c1 * 4 + c2;
    assert b / 16 == c0 * 4 + c1;
  }

  lemma CodesInverse(c0: nat, c1: nat, c2: nat, c3: nat)
    requires c0 < 4 && c1 < 4 && c2 < 4 && c3 < 4 && KindsOfCodes(c0, c1, c2, c3).Ok?
    ensures var kinds := KindsOfCodes(c0, c1, c2, c3).value;
            && |kinds| <= MAX_OPERANDS
            && KindCode(kinds, 0) == c0 && KindCode(kinds, 1) == c1
            && KindCode(kinds, 2) == c2 && KindCode(kinds, 3) == c3
  {
  }

  lemma KindsInverse(b: byte)
    requires KindsOf(b).Ok?
    ensures |KindsOf(b).value| <= MAX_OPERANDS && PrintKinds(KindsOf(b).value) == b
  {
    hide KindsOfCodes, KindCode;
    var c0, c1, c2, c3 := b / 64, (b / 16) % 4, (b / 4) % 4, b % 4;
    assert b == c0 * 64 + c1 * 16 + c2 * 4 + c3;
    CodesInverse(c0, c1, c2, c3);
  }

  lemma PrintKindsInverse(kinds: seq<Kind>)
    requires |kinds| <= MAX_OPERANDS
    ensures KindsOf(PrintKinds(kinds)) == Ok(kinds)
  {
    Quarters(KindCode(kinds, 0), KindCode(kinds, 1), KindCode(kinds, 2), KindCode(kinds, 3));
    assert KindsOf(PrintKinds(kinds)) ==
           KindsOfCodes(KindCode(kinds, 0), KindCode(kinds, 1), KindCode(kinds, 2), KindCode(kinds, 3));
    hide PrintKinds, KindsOf;
    if |kinds| == 0 {
      assert kinds == [];
    } else if |kinds| == 1 {
      assert kinds == [kinds[0]];
    } else if |kinds| == 2 {
      assert kinds == [kinds[0], kinds[1]];
    } else if |kinds| == 3 {
      assert kinds == [kinds[0], kinds[1], kinds[2]];
    } else {
      assert kinds == [kinds[0], kinds[1], kinds[2], kinds[3]];
    }
  }

  lemma OperandPrinted(m: Mem, at: nat, o: Operand)
    requires At(m, at, PrintOperand(o)) && OperandFits(o)
    ensures ReadOperand(m, at, o.kind) == Ok((o, at + |PrintOperand(o)|))
  {
    var bytes := PrintOperand(o);
    assert m.Get(at) == bytes[0] && (o.kind == LargeConstant ==> m.Get(at + 1) == bytes[1]);
  }

  lemma {:induction false} OperandsPrinted(m: Mem, at: nat, os: seq<Operand>)
    requires At(m, at, PrintOperands(os))
    requires forall i :: 0 <= i < |os| ==> OperandFits(os[i])
    ensures ReadOperands(m, at, KindsIn(os)) == Ok((os, at + |PrintOperands(os)|))
    decreases |os|
  {
    if os != [] {
      var first := PrintOperand(os[0]);
      AtConcat(m, at, first, PrintOperands(os[1..]));
      OperandPrinted(m, at, os[0]);
      hide At, PrintOperand, OperandFits, ReadOperand;
      OperandsPrinted(m, at + |first|, os[1..]);
      assert [os[0]] + os[1..] == os;
    }
  }

  lemma OperandRead(m: Mem, at: nat, kind: Kind)
    requires ReadOperand(m, at, kind).Ok?
    ensures var (o, end) := ReadOperand(m, at, kind).value;
            o.kind == kind && OperandFits(o) && At(m, at, PrintOperand(o)) && end == at + |PrintOperand(o)|
  {
  }

  lemma {:induction false} OperandsFit(m: Mem, at: nat, kinds: seq<Kind>, os: seq<Operand>, end: nat)
    requires ReadOperands(m, at, kinds) == Ok((os, end))
    ensures KindsIn(os) == kinds && forall i :: 0 <= i < |os| ==> OperandFits(os[i])
    decreases |kinds|
  {
    if kinds != [] {
      var (first, next) := ReadOperand(m, at, kinds[0]).value;
      OperandRead(m, at, kinds[0]);
      OperandsFit(m, next, kinds[1..], os[1..], end);
      assert [kinds[0]] + kinds[1..] == kinds;
      assert forall i :: 0 < i < |os| ==> os[i] == os[1..][i - 1];
    }
  }

  lemma {:induction false} OperandsRead(m: Mem, at: nat, kinds: seq<Kind>, os: seq<Operand>, end: nat)
    requires at <= m.Size() && ReadOperands(m, at, kinds) == Ok((os, end))
    ensures At(m, at, PrintOperands(os)) && end == at + |PrintOperands(os)| && end <= m.Size()
    decreases |kinds|
  {
    if kinds == [] {
      assert PrintOperands([]) == [];
    } else {
      var (first, next) := ReadOperand(m, at, kinds[0]).value;
      OperandRead(m, at, kinds[0]);
      OperandsRead(m, next, kinds[1..], os[1..], end);
      assert os[0] == first;
      AtConcat(m, at, PrintOperand(first), PrintOperands(os[1..]));
    }
  }

  lemma BranchField(onTrue: bool, field: nat)
    requires field < 0x4000
    ensures var first := (if onTrue then 128 else 0) + field / 256;
            && first < 256 && (first / 64) % 2 == 0 && (first >= 128 <==> onTrue)
            && first % 64 == field / 256 && (field / 256) * 256 + field % 256 == field
  {
    var top := field / 256;
    assert top < 64;
  }

  /** The two bytes of a long branch, read back. */
  lemma LongBytes(onTrue: bool, offset: int, first: byte, second: byte)
    requires -0x2000 <= offset < 0x2000
    requires first == (if onTrue then 128 else 0) + (offset % 0x4000) / 256 && second == (offset % 0x4000) % 256
    ensures (first / 64) % 2 == 0 && (first >= 128 <==> onTrue) && SignExtend(Join(first % 64, second), 14) == offset
  {
    var field := offset % 0x4000;
    BranchField(onTrue, field);
    var w := Join(first % 64, second);
    assert w == field;
    SignExtend14(w);
    hide SignExtend, Join;
  }

  lemma BranchPrinted(m: Mem, at: nat, b: Branch)
    requires BranchFits(b) && At(m, at, PrintBranch(Some(b)))
    ensures BranchAt(m, at) == Ok((b, at + |PrintBranch(Some(b))|))
  {
    var bytes := PrintBranch(Some(b));
    assert m.Get(at) == bytes[0];
    if b.long {
      assert m.Get(at + 1) == bytes[1];
      LongBytes(b.onTrue, b.offset, bytes[0], bytes[1]);
      hide SignExtend, Join, Mem.Get;
    }
  }

  /** The parts of a branch's first byte. */
  lemma FirstByte(first: byte)
    ensures first == (if first >= 128 then 128 else 0) + (if (first / 64) % 2 == 1 then 64 else 0) + first % 64
  {
  }

  /** The two bytes of a long branch, printed again. */
  lemma LongValue(first: byte, second: byte)
    requires (first / 64) % 2 == 0
    ensures var offset := SignExtend(Join(first % 64, second), 14);
            && -0x2000 <= offset < 0x2000
            && first == (if first >= 128 then 128 else 0) + (offset % 0x4000) / 256 && second == (offset % 0x4000) % 256
  {
    FirstByte(first);
    var top: int := first % 64;
    var field := Join(first % 64, second);
    SignExtend14(field);
    assert field == top * 256 + second && field < 0x4000;
    assert field / 256 == top && field % 256 == second;
    var offset := SignExtend(field, 14);
    hide SignExtend, Join;
    assert offset % 0x4000 == field;
  }

  lemma BranchRead(m: Mem, at: nat)
    requires BranchAt(m, at).Ok?
    ensures var (b, end) := BranchAt(m, at).value;
            BranchFits(b) && At(m, at, PrintBranch(Some(b))) && end == at + |PrintBranch(Some(b))|
  {
    var first := m.Get(at);
    FirstByte(first);
    if (first / 64) % 2 == 0 {
      LongValue(first, m.Get(at + 1));
    }
    hide SignExtend, Join, Mem.Get;
  }

  lemma {:induction false} WordsPrinted(m: Mem, at: nat, ws: seq<word>)
    requires StringFits(ws) && At(m, at, PrintWords(ws))
    ensures ScanWords(m, at) == Some(ws) && |PrintWords(ws)| == 2 * |ws|
    decreases |ws|
  {
    var head := PrintWord(ws[0]);
    AtConcat(m, at, head, PrintWords(ws[1..]));
    assert m.Get(at) == head[0] && m.Get(at + 1) == head[1];
    if |ws| > 1 {
      WordsPrinted(m, at + 2, ws[1..]);
      assert [ws[0]] + ws[1..] == ws;
    } else {
      assert ws == [ws[0]] && PrintWords(ws[1..]) == [];
    }
  }

  lemma {:induction false} WordsRead(m: Mem, at: nat)
    requires ScanWords(m, at).Some?
    ensures var ws := ScanWords(m, at).value;
            StringFits(ws) && At(m, at, PrintWords(ws)) && |PrintWords(ws)| == 2 * |ws|
    decreases m.Size() - at
  {
    var w := m.GetWord(at);
    var ws := ScanWords(m, at).value;
    if w < 0x8000 {
      WordsRead(m, at + 2);
      var rest := ScanWords(m, at + 2).value;
      assert ws == [w] + rest && ws[1..] == rest;
      AtConcat(m, at, PrintWord(w), PrintWords(rest));
    } else {
      assert ws == [w] && PrintWords(ws[1..]) == [];
      AtConcat(m, at, PrintWord(w), []);
    }
  }

  // ----- whole instructions -----

  /** Where each piece of a printed instruction begins. */
  lemma PiecesAt(m: Mem, addr: nat, raw: Raw)
    requires WellFormed(raw) && At(m, addr, Print(raw))
    ensures var a1 := addr + 1;
            var kinds := PrintOptionalKinds(raw.form, KindsIn(raw.operands));
            var a2 := a1 + |kinds|;
            var a3 := a2 + |PrintOperands(raw.operands)|;
            var a4 := a3 + |PrintStore(raw.store)|;
            var a5 := a4 + |PrintBranch(raw.branch)|;
            var text := PrintInline(raw.words);
            && At(m, addr, [PrintHead(HeadIn(raw))])
            && At(m, a1, kinds)
            && At(m, a2, PrintOperands(raw.operands))
            && At(m, a3, PrintStore(raw.store))
            && At(m, a4, PrintBranch(raw.branch))
            && At(m, a5, text)
            && addr + |Print(raw)| == a5 + |text|
  {
    hide At, PrintHead, PrintKinds, PrintOperands, PrintStore, PrintBranch, PrintWords;
    var p0 := [PrintHead(HeadIn(raw))];
    var p1 := PrintOptionalKinds(raw.form, KindsIn(raw.operands));
    var p2, p3, p4 := PrintOperands(raw.operands), PrintStore(raw.store), PrintBranch(raw.branch);
    var p5 := PrintInline(raw.words);
    AtConcat(m, addr, p0, p1 + (p2 + (p3 + (p4 + p5))));
    AtConcat(m, addr + 1, p1, p2 + (p3 + (p4 + p5)));
    AtConcat(m, addr + 1 + |p1|, p2, p3 + (p4 + p5));
    AtConcat(m, addr + 1 + |p1| + |p2|, p3, p4 + p5);
    AtConcat(m, addr + 1 + |p1| + |p2| + |p3|, p4, p5);
  }

  /** Every well-formed instruction decodes back from its encoding, at any address and
      whatever surrounds it, and decoding stops exactly after it. */
  lemma DecodePrinted(m: Mem, addr: nat, raw: Raw)
    requires WellFormed(raw) && At(m, addr, Print(raw))
    ensures Parse(m, addr) == Ok((raw, addr + |Print(raw)|))
  {
    hide PrintHead, PrintKinds, PrintOperands, PrintStore, PrintBranch, PrintWords, HeadOf, KindsOf, InfoOf;
    hide ReadOperands, ReadStore, ReadBranch, BranchAt, ReadInline;
    PiecesAt(m, addr, raw);
    var head, kinds := HeadIn(raw), KindsIn(raw.operands);
    PrintHeadInverse(head);
    var a2 := addr + 1 + if raw.form == Variable then 1 else 0;
    assert m.ReadByte(addr) == Ok([PrintHead(head)][0]);
    KindsPrinted(m, addr + 1, raw);
    OperandsPrinted(m, a2, raw.operands);
    var a3 := a2 + |PrintOperands(raw.operands)|;
    StorePrinted(m, a3, raw.store);
    var a4 := a3 + |PrintStore(raw.store)|;
    if raw.branch.Some? {
      BranchPrinted(m, a4, raw.branch.value);
    }
    OptionalBranchPrinted(m, a4, raw.branch);
    InlinePrinted(m, a4 + |PrintBranch(raw.branch)|, raw.words);
  }

  lemma KindsPrinted(m: Mem, at: nat, raw: Raw)
    requires WellFormed(raw)
    requires At(m, at, PrintOptionalKinds(raw.form, KindsIn(raw.operands)))
    ensures ReadKinds(m, at, HeadIn(raw)) ==
            Ok((KindsIn(raw.operands), at + if raw.form == Variable then 1 else 0))
  {
    PrintKindsInverse(KindsIn(raw.operands));
    if raw.form == Variable {
      assert m.ReadByte(at) == Ok([PrintKinds(KindsIn(raw.operands))][0]);
    }
  }

  lemma StorePrinted(m: Mem, at: nat, store: Option<byte>)
    requires At(m, at, PrintStore(store))
    ensures ReadStore(m, at, store.Some?) == Ok((store, at + |PrintStore(store)|))
  {
    if store.Some? {
      assert m.ReadByte(at) == Ok(PrintStore(store)[0]);
    }
  }

  lemma OptionalBranchPrinted(m: Mem, at: nat, branch: Option<Branch>)
    requires branch.Some? ==>
               BranchFits(branch.value) && BranchAt(m, at) == Ok((branch.value, at + |PrintBranch(branch)|))
    ensures ReadBranch(m, at, branch.Some?) == Ok((branch, at + |PrintBranch(branch)|))
  {
  }

  lemma InlinePrinted(m: Mem, at: nat, words: Option<seq<word>>)
    requires (words.Some? ==> StringFits(words.value)) && At(m, at, PrintInline(words))
    ensures ReadInline(m, at, words.Some?) == Ok((words, at + |PrintInline(words)|))
  {
    if words.Some? {
      WordsPrinted(m, at, words.value);
    }
  }

  /** Every accepted byte string is the encoding of the instruction decoded from it: bytes
      addr to next - 1 exactly, with addr < next <= the size of the story. */
  lemma PrintDecoded(m: Mem, addr: nat)
    requires Parse(m, addr).Ok?
    ensures var (raw, next) := Parse(m, addr).value;
            && WellFormed(raw)
            && At(m, addr, Print(raw))
            && next == addr + |Print(raw)|
            && addr < next <= m.Size()
  {
    hide PrintHead, PrintKinds, PrintOperands, PrintStore, PrintBranch, PrintWords, HeadOf, KindsOf, InfoOf, KindsIn, At;
    hide ReadOperands, ReadStore, ReadBranch, ReadInline, ReadKinds;
    var (raw, next) := Parse(m, addr).value;
    var head := HeadOf(m.Get(addr));
    var info := InfoOf(head.op);
    HeadRead(m, addr);
    var (kinds, a2) := ReadKinds(m, addr + 1, head).value;
    KindsRead(m, addr + 1, head);
    var (operands, a3) := ReadOperands(m, a2, kinds).value;
    OperandsFit(m, a2, kinds, operands, a3);
    OperandsRead(m, a2, kinds, operands, a3);
    var (store, a4) := ReadStore(m, a3, info.store).value;
    StoreRead(m, a3, info.store);
    var (branch, a5) := ReadBranch(m, a4, info.branch).value;
    OptionalBranchRead(m, a4, info.branch);
    InlineRead(m, a5, info.text);
    assert HeadIn(raw) == head;
    var p1 := PrintOptionalKinds(raw.form, kinds);
    var p5 := PrintInline(raw.words);
    AtConcat(m, a4, PrintBranch(raw.branch), p5);
    AtConcat(m, a3, PrintStore(raw.store), PrintBranch(raw.branch) + p5);
    AtConcat(m, a2, PrintOperands(raw.operands), PrintStore(raw.store) + (PrintBranch(raw.branch) + p5));
    AtConcat(m, addr + 1, p1, PrintOperands(raw.operands) + (PrintStore(raw.store) + (PrintBranch(raw.branch) + p5)));
    AtConcat(m, addr, [PrintHead(HeadIn(raw))],
             p1 + (PrintOperands(raw.operands) + (PrintStore(raw.store) + (PrintBranch(raw.branch) + p5))));
  }

  lemma HeadRead(m: Mem, addr: nat)
    requires m.Readable(addr, 1)
    ensures var head := HeadOf(m.Get(addr));
            && HeadFits(head) && At(m, addr, [PrintHead(head)])
            && (head.form == Variable <==> head.op.count == OpVar || m.Get(addr) >= 192)
            && |head.kinds| <= 2
  {
    HeadInverse(m.Get(addr));
  }

  lemma KindsRead(m: Mem, at: nat, head: Head)
    requires at <= m.Size() && |head.kinds| <= 2 && ReadKinds(m, at, head).Ok?
    ensures var (kinds, end) := ReadKinds(m, at, head).value;
            && |kinds| <= MAX_OPERANDS
            && (head.form != Variable ==> kinds == head.kinds)
            && At(m, at, PrintOptionalKinds(head.form, kinds))
            && end == at + |PrintOptionalKinds(head.form, kinds)| && end <= m.Size()
  {
    if head.form == Variable {
      KindsInverse(m.Get(at));
    }
  }

  lemma StoreRead(m: Mem, at: nat, present: bool)
    requires at <= m.Size() && ReadStore(m, at, present).Ok?
    ensures var (store, end) := ReadStore(m, at, present).value;
            && (store.Some? <==> present) && At(m, at, PrintStore(store))
            && end == at + |PrintStore(store)| && end <= m.Size()
  {
  }

  lemma OptionalBranchRead(m: Mem, at: nat, present: bool)
    requires at <= m.Size() && ReadBranch(m, at, present).Ok?
    ensures var (branch, end) := ReadBranch(m, at, present).value;
            && (branch.Some? <==> present) && (branch.Some? ==> BranchFits(branch.value))
            && At(m, at, PrintBranch(branch))
            && end == at + |PrintBranch(branch)| && end <= m.Size()
  {
    if present {
      BranchRead(m, at);
    }
  }

  lemma InlineRead(m: Mem, at: nat, present: bool)
    requires at <= m.Size() && ReadInline(m, at, present).Ok?
    ensures var (words, end) := ReadInline(m, at, present).value;
            && (words.Some? <==> present) && (words.Some? ==> StringFits(words.value))
            && At(m, at, PrintInline(words))
            && end == at + |PrintInline(words)| && end <= m.Size()
  {
    if present {
      WordsRead(m, at);
    }
  }

  lemma PrefixAt(a: seq<byte>, b: seq<byte>)
    requires a <= b
    ensures At(Mem([], b), 0, a)
  {
  }

  /** So the encoding is unique: two well-formed instructions with the same bytes are the
      same instruction, and no encoding is a proper prefix of another. */
  lemma PrintIsPrefixFree(a: Raw, b: Raw)
    requires WellFormed(a) && WellFormed(b) && Print(a) <= Print(b)
    ensures a == b
  {
    hide At, Print, Parse, WellFormed;
    var m := Mem([], Print(b));
    PrefixAt(Print(a), Print(b));
    PrefixAt(Print(b), Print(b));
    DecodePrinted(m, 0, a);
    DecodePrinted(m, 0, b);
  }

  /** What the execution loop needs to know about an instruction it has decoded. */
  lemma DecodedBounds(m: Mem, abbrevs: nat, addr: nat)
    requires Decoded(m, abbrevs, addr).Ok?
    ensures var inst := Decoded(m, abbrevs, addr).value;
            && addr < inst.next <= m.Size()
            && inst.addr == addr
            && |inst.raw.operands| <= MAX_OPERANDS
  {
    PrintDecoded(m, addr);
    hide Parse, Print, At, ReadText, UnpackAll, HeadFits, HeadIn, InfoOf, OperandFits, BranchFits, StringFits;
  }
}
