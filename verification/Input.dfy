/** Line input and lexical analysis (input.go): the read instruction of section 15 and
    section 13.6 of the Z-Machine Standards Document 1.1. */
module Input {
  import opened Words
  import opened Memory
  import opened Text
  import opened Dictionary

  const TEXT_BUFFER_MIN := 3
  const PARSE_BUFFER_MIN := 6
  const PARSE_HEADER := 2
  const PARSE_ENTRY := 4

  datatype InputWord = InputWord(start: nat, text: seq<byte>) {
    function End(): nat { start + |text| }
  }

  // ----- splitting a line into words -----

  /** A code that is part of a longer word: neither a space nor a separator. */
  predicate IsLetter(separators: seq<byte>, code: byte) {
    code != ZSCII_SPACE && code !in separators
  }

  /** The end of the run of letters that includes everything from `i` on. */
  function WordEnd(text: seq<byte>, separators: seq<byte>, i: nat): (j: nat)
    requires i <= |text|
    ensures i <= j <= |text|
    ensures forall k :: i <= k < j ==> IsLetter(separators, text[k])
    ensures j < |text| ==> !IsLetter(separators, text[j])
    decreases |text| - i
  {
    if i == |text| || !IsLetter(separators, text[i]) then i else WordEnd(text, separators, i + 1)
  }

  /** The words of a line from position `i` on, read one word at a time. */
  function Tokens(text: seq<byte>, separators: seq<byte>, i: nat): seq<InputWord>
    requires i <= |text|
    decreases |text| - i
  {
    if i == |text| then []
    else if text[i] == ZSCII_SPACE then Tokens(text, separators, i + 1)
    else if text[i] in separators then [InputWord(i, [text[i]])] + Tokens(text, separators, i + 1)
    else
      var j := WordEnd(text, separators, i + 1);
      [InputWord(i, text[i..j])] + Tokens(text, separators, j)
  }

  /** What the loop still has to add once it stands at `i` with a word begun at `start`
      (or none begun, when `start` is negative). */
  function Remaining(text: seq<byte>, separators: seq<byte>, start: int, i: nat): seq<InputWord>
    requires start <= i <= |text|
  {
    if start < 0 then Tokens(text, separators, i)
    else
      var j := WordEnd(text, separators, i);
      [InputWord(start, text[start..j])] + Tokens(text, separators, j)
  }

  /** A word of the line: a single separator, or a run of letters that stops only at the end
      of the line or at something that is not a letter. */
  predicate IsWordOf(text: seq<byte>, separators: seq<byte>, w: InputWord) {
    && w.text != [] && w.End() <= |text| && w.text == text[w.start..w.End()]
    && ( (|w.text| == 1 && w.text[0] != ZSCII_SPACE && w.text[0] in separators)
         || ( && (forall k :: w.start <= k < w.End() ==> IsLetter(separators, text[k]))
              && (w.End() < |text| ==> !IsLetter(separators, text[w.End()]))
              && (w.start > 0 ==> !IsLetter(separators, text[w.start - 1]))))
  }

  predicate Covers(w: InputWord, p: nat) {
    w.start <= p < w.End()
  }

  predicate Covered(words: seq<InputWord>, p: nat) {
    exists k :: 0 <= k < |words| && Covers(words[k], p)
  }

  /** Position `i` is not in the middle of a run of letters. */
  predicate Boundary(text: seq<byte>, separators: seq<byte>, i: nat)
    requires i <= |text|
  {
    0 < i < |text| ==> !IsLetter(separators, text[i - 1]) || !IsLetter(separators, text[i])
  }

  /** Words of the line, in order and disjoint, none before `i`. */
  ghost predicate InOrder(text: seq<byte>, separators: seq<byte>, words: seq<InputWord>, i: nat) {
    && (forall k :: 0 <= k < |words| ==> i <= words[k].start && IsWordOf(text, separators, words[k]))
    && (forall k, l :: 0 <= k < l < |words| ==> words[k].End() <= words[l].start)
  }

  lemma InOrderCons(text: seq<byte>, separators: seq<byte>, first: InputWord, rest: seq<InputWord>, i: nat, j: nat)
    requires IsWordOf(text, separators, first) && i <= first.start && first.End() <= j
    requires InOrder(text, separators, rest, j)
    ensures InOrder(text, separators, [first] + rest, i)
  {
    hide IsWordOf;
    var words := [first] + rest;
    assert forall k :: 0 < k < |words| ==> words[k] == rest[k - 1];
    assert words[0] == first;
  }

  /** Where reading goes on after position `i`: the end of the word there, or the next
      position. */
  function After(text: seq<byte>, separators: seq<byte>, i: nat): (j: nat)
    requires i < |text|
    ensures i < j <= |text|
  {
    if IsLetter(separators, text[i]) then WordEnd(text, separators, i + 1) else i + 1
  }

  /** Reading a line peels off one word at a time. */
  lemma FirstToken(text: seq<byte>, separators: seq<byte>, i: nat)
    requires i < |text|
    ensures var j := After(text, separators, i);
            Tokens(text, separators, i) ==
            if text[i] == ZSCII_SPACE then Tokens(text, separators, j)
            else [InputWord(i, text[i..j])] + Tokens(text, separators, j)
  {
    assert text[i..i + 1] == [text[i]];
  }

  lemma RemainingFresh(text: seq<byte>, separators: seq<byte>, i: nat)
    requires i <= |text|
    ensures Remaining(text, separators, -1, i) == Tokens(text, separators, i)
  {
  }

  lemma RemainingEnds(text: seq<byte>, separators: seq<byte>, start: int)
    requires -1 <= start <= |text|
    ensures Remaining(text, separators, start, |text|) ==
            if start < 0 then [] else [InputWord(start, text[start..|text|])]
  {
  }

  lemma RemainingStep(text: seq<byte>, separators: seq<byte>, start: int, i: nat)
    requires -1 <= start <= i < |text|
    ensures var before := if start >= 0 then [InputWord(start, text[start..i])] else [];
            Remaining(text, separators, start, i) ==
            if IsLetter(separators, text[i]) then
              Remaining(text, separators, if start < 0 then i else start, i + 1)
            else if text[i] == ZSCII_SPACE then before + Tokens(text, separators, i + 1)
            else before + ([InputWord(i, text[i..i + 1])] + Tokens(text, separators, i + 1))
  {
    FirstToken(text, separators, i);
    var before := if start >= 0 then [InputWord(start, text[start..i])] else [];
    assert start < 0 ==> before + Tokens(text, separators, i) == Tokens(text, separators, i);
  }

  lemma Appended(words: seq<InputWord>, before: seq<InputWord>, alone: seq<InputWord>, next: seq<InputWord>)
    ensures words + (before + (alone + next)) == (words + before) + alone + next
    ensures words + [] == words && (words + before) + [] == words + before && [] + next == next
  {
  }

  method SplitInputWords(text: seq<byte>, d: Dictionary) returns (words: seq<InputWord>)
    ensures words == Tokens(text, d.separators, 0)
  {
    hide Tokens, WordEnd, Remaining;
    words := [];
    var start := -1;
    RemainingFresh(text, d.separators, 0);
    for i := 0 to |text|
      invariant -1 <= start < i || start == -1
      invariant words + Remaining(text, d.separators, start, i) == Tokens(text, d.separators, 0)
    {
      RemainingStep(text, d.separators, start, i);
      ghost var next := Tokens(text, d.separators, i + 1);
      var separator := IsSeparator(d, text[i]);
      if text[i] == ZSCII_SPACE || separator {
        RemainingFresh(text, d.separators, i + 1);
        ghost var before := if start >= 0 then [InputWord(start, text[start..i])] else [];
        ghost var alone := if text[i] != ZSCII_SPACE then [InputWord(i, text[i..i + 1])] else [];
        Appended(words, before, alone, next);
        if start >= 0 {
          words := words + [InputWord(start, text[start..i])];
          start := -1;
        }
        if text[i] != ZSCII_SPACE {
          words := words + [InputWord(i, text[i..i + 1])];
        }
      } else if start < 0 {
        start := i;
      }
    }
    RemainingEnds(text, d.separators, start);
    if start >= 0 {
      words := words + [InputWord(start, text[start..|text|])];
    }
  }

  lemma FirstIsWord(text: seq<byte>, separators: seq<byte>, i: nat)
    requires i < |text| && Boundary(text, separators, i) && text[i] != ZSCII_SPACE
    ensures IsWordOf(text, separators, InputWord(i, text[i..After(text, separators, i)]))
    ensures Boundary(text, separators, After(text, separators, i))
  {
  }

  lemma SpaceIsBoundary(text: seq<byte>, separators: seq<byte>, i: nat)
    requires i < |text| && text[i] == ZSCII_SPACE
    ensures After(text, separators, i) == i + 1 && Boundary(text, separators, i + 1)
  {
  }

  lemma {:induction false} TokensAreWords(text: seq<byte>, separators: seq<byte>, i: nat)
    requires i <= |text| && Boundary(text, separators, i)
    ensures InOrder(text, separators, Tokens(text, separators, i), i)
    decreases |text| - i
  {
    if i < |text| {
      var j := After(text, separators, i);
      FirstToken(text, separators, i);
      hide Tokens, IsWordOf, WordEnd, IsLetter, Boundary, After;
      if text[i] == ZSCII_SPACE {
        SpaceIsBoundary(text, separators, i);
        TokensAreWords(text, separators, j);
      } else {
        FirstIsWord(text, separators, i);
        TokensAreWords(text, separators, j);
        InOrderCons(text, separators, InputWord(i, text[i..j]), Tokens(text, separators, j), i, j);
      }
    }
  }

  lemma CoveredCons(first: InputWord, rest: seq<InputWord>, p: nat)
    ensures Covered([first] + rest, p) <==> Covers(first, p) || Covered(rest, p)
  {
    var words := [first] + rest;
    if Covers(first, p) {
      assert Covers(words[0], p);
    }
    if Covered(rest, p) {
      var k :| 0 <= k < |rest| && Covers(rest[k], p);
      assert Covers(words[k + 1], p);
    }
    if Covered(words, p) && !Covers(first, p) {
      var k :| 0 <= k < |words| && Covers(words[k], p);
      assert Covers(rest[k - 1], p);
    }
  }

  /** Positions inside a word are not spaces. */
  lemma InsideIsLetter(text: seq<byte>, separators: seq<byte>, i: nat, p: nat)
    requires i < |text| && i <= p < After(text, separators, i) && text[i] != ZSCII_SPACE
    ensures text[p] != ZSCII_SPACE
  {
  }

  /** Together the words cover exactly the positions that are not spaces. */
  lemma {:induction false} TokensCover(text: seq<byte>, separators: seq<byte>, i: nat, p: nat)
    requires i <= p < |text|
    ensures Covered(Tokens(text, separators, i), p) <==> text[p] != ZSCII_SPACE
    decreases |text| - i
  {
    var j := After(text, separators, i);
    FirstToken(text, separators, i);
    if p >= j {
      TokensCover(text, separators, j, p);
    } else {
      TokensStartLater(text, separators, j);
    }
    if text[i] == ZSCII_SPACE {
      assert j == i + 1;
    } else {
      CoveredCons(InputWord(i, text[i..j]), Tokens(text, separators, j), p);
      if p < j {
        InsideIsLetter(text, separators, i, p);
      }
    }
  }

  lemma {:induction false} TokensStartLater(text: seq<byte>, separators: seq<byte>, i: nat)
    requires i <= |text|
    ensures forall k :: 0 <= k < |Tokens(text, separators, i)| ==> Tokens(text, separators, i)[k].start >= i
    decreases |text| - i
  {
    if i < |text| {
      FirstToken(text, separators, i);
      TokensStartLater(text, separators, After(text, separators, i));
    }
  }

  // ----- storing the line -----

  /** The codes kept of a line: lower-cased, unprintable characters dropped, and no more
      than `room` of them. */
  function Typed(line: Str, lower: rune -> rune, room: nat): (text: seq<byte>)
    ensures |text| <= room
    ensures forall i :: 0 <= i < |text| ==> text[i] >= ZSCII_SPACE
  {
    if line == [] || room == 0 then []
    else match FromRune(lower(line[0]))
         case Some(code) =>
           if code < ZSCII_SPACE then Typed(line[1..], lower, room)
           else [code] + Typed(line[1..], lower, room - 1)
         case None => Typed(line[1..], lower, room)
  }

  /** Memory with `bytes` at `addr`. */
  function WithBytes(m: Mem, addr: nat, bytes: seq<byte>): (m': Mem)
    requires m.Writable(addr, |bytes|)
    ensures SameOutside(m, m', addr, addr + |bytes|)
  {
    m.(dynamic := m.dynamic[..addr] + bytes + m.dynamic[addr + |bytes|..])
  }

  lemma WithBytesSnoc(m: Mem, addr: nat, bytes: seq<byte>, b: byte)
    requires m.Writable(addr, |bytes| + 1)
    ensures WithBytes(m, addr, bytes).Put(addr + |bytes|, b) == WithBytes(m, addr, bytes + [b])
  {
  }

  function LineStored(m: Mem, addr: nat, line: Str, lower: rune -> rune): (r: Act<Mem, seq<byte>>)
    ensures SameShape(m, r.state)
  {
    var (_, size) :- Lift(m, m.ReadByte(addr));
    if size + 1 < TEXT_BUFFER_MIN then Fail(m, ExecutionFault)
    else if !m.Writable(addr, size + 1) then Fail(m, MemoryAccess)
    else
      var text := Typed(line, lower, size - 1);
      Done(WithBytes(m, addr + 1, text + [0]), text)
  }

  method TypedCodes(line: Str, lower: rune -> rune, room: nat) returns (text: seq<byte>)
    ensures text == Typed(line, lower, room)
  {
    hide FromRune;
    text := [];
    var i := 0;
    while i < |line| && |text| < room
      invariant i <= |line| && |text| <= room
      invariant Typed(line, lower, room) == text + Typed(line[i..], lower, room - |text|)
    {
      assert line[i..][1..] == line[i + 1..];
      var code := FromRune(lower(line[i]));
      if code.Some? && code.value >= ZSCII_SPACE {
        ghost var later := Typed(line[i + 1..], lower, room - |text| - 1);
        assert text + ([code.value] + later) == text + [code.value] + later;
        text := text + [code.value];
      }
      i := i + 1;
    }
  }

  method WriteText(mem: Memory, addr: nat, text: seq<byte>)
    requires mem.View().Writable(addr, |text|)
    modifies mem.dynamic
    ensures mem.View() == WithBytes(old(mem.View()), addr, text)
  {
    ghost var m0 := mem.View();
    assert WithBytes(m0, addr, []) == m0;
    for i := 0 to |text|
      invariant mem.View() == WithBytes(m0, addr, text[..i])
    {
      assert text[..i + 1] == text[..i] + [text[i]];
      WithBytesSnoc(m0, addr, text[..i], text[i]);
      var written := mem.WriteByte(addr + i, text[i]);
    }
    assert text[..|text|] == text;
  }

  method StoreInputLine(mem: Memory, addr: nat, line: Str, lower: rune -> rune) returns (r: Result<seq<byte>>)
    modifies mem.dynamic
    ensures Lift(mem.View(), r) == LineStored(old(mem.View()), addr, line, lower)
  {
    hide Typed, FromRune, SameOutside, WithBytes;
    var size :- mem.View().ReadByte(addr);
    if size + 1 < TEXT_BUFFER_MIN {
      return Err(ExecutionFault);
    }
    if !mem.View().Writable(addr, size + 1) {
      return Err(MemoryAccess);
    }
    var text := TypedCodes(line, lower, size - 1);
    WriteText(mem, addr + 1, text);
    WithBytesSnoc(old(mem.View()), addr + 1, text, 0);
    var _ :- mem.WriteByte(addr + 1 + |text|, 0);
    return Ok(text);
  }

  // ----- filling the parse buffer -----

  /** Writes a block for each word, from block number `written` on. */
  function BlocksWritten(m: Mem, parse: nat, d: Dictionary, words: seq<InputWord>, written: nat, max: nat): (r: Act<Mem, nat>)
    requires d.Inside(m)
    ensures SameShape(m, r.state)
    decreases |words|
  {
    if words == [] || written >= max then Done(m, written)
    else
      var (_, entry) :- Lift(m, Lookup(m, d, EncodedWord(words[0].text)));
      var block := parse + PARSE_HEADER + written * PARSE_ENTRY;
      var (m1, _) :- BlockWritten(m, block, entry, words[0]);
      BlocksWritten(m1, parse, d, words[1..], written + 1, max)
  }

  /** One parse block: the dictionary address, the length, and the position of the first
      letter in the text buffer. */
  function BlockWritten(m: Mem, block: nat, entry: word, w: InputWord): (r: Act<Mem, ()>)
    ensures SameShape(m, r.state)
  {
    var (m1, _) :- m.WriteWord(block, entry);
    var (m2, _) :- m1.WriteByte(block + 2, |w.text| % 256);
    m2.WriteByte(block + 3, (w.start + 1) % 256)
  }

  method WriteBlock(mem: Memory, block: nat, entry: word, w: InputWord) returns (r: Result<()>)
    modifies mem.dynamic
    ensures Lift(mem.View(), r) == BlockWritten(old(mem.View()), block, entry, w)
  {
    var _ :- mem.WriteWord(block, entry);
    var _ :- mem.WriteByte(block + 2, |w.text| % 256);
    r := mem.WriteByte(block + 3, (w.start + 1) % 256);
  }

  function Tokenised(m: Mem, dictionary: nat, parse: nat, text: seq<byte>): (r: Act<Mem, nat>)
    ensures SameShape(m, r.state)
  {
    var (_, d) :- Lift(m, DictionaryAt(m, dictionary));
    var (_, max) :- Lift(m, m.ReadByte(parse));
    if PARSE_HEADER + PARSE_ENTRY * max < PARSE_BUFFER_MIN then Fail(m, ExecutionFault)
    else if !m.Writable(parse, PARSE_HEADER) then Fail(m, MemoryAccess)
    else
      var (m1, written) :- BlocksWritten(m, parse, d, Tokens(text, d.separators, 0), 0, max);
      var (m2, _) :- m1.WriteByte(parse + 1, written % 256);
      Done(m2, written)
  }

  method TokeniseInput(mem: Memory, dictionary: nat, parse: nat, text: seq<byte>) returns (r: Result<nat>)
    modifies mem.dynamic
    ensures Lift(mem.View(), r) == Tokenised(old(mem.View()), dictionary, parse, text)
  {
    var d :- ReadDictionary(mem.View(), dictionary);
    var max :- mem.View().ReadByte(parse);
    if PARSE_HEADER + PARSE_ENTRY * max < PARSE_BUFFER_MIN {
      return Err(ExecutionFault);
    }
    if !mem.View().Writable(parse, PARSE_HEADER) {
      return Err(MemoryAccess);
    }
    var words := SplitInputWords(text, d);
    var written :- WriteBlocks(mem, parse, d, words, max);
    var _ :- mem.WriteByte(parse + 1, written % 256);
    return Ok(written);
  }

  method WriteBlocks(mem: Memory, parse: nat, d: Dictionary, words: seq<InputWord>, max: nat) returns (r: Result<nat>)
    requires d.Inside(mem.View())
    modifies mem.dynamic
    ensures Lift(mem.View(), r) == BlocksWritten(old(mem.View()), parse, d, words, 0, max)
  {
    hide Lookup, EncodedWord, BlockWritten;
    var written := 0;
    while written < |words| && written < max
      invariant written <= |words| && d.Inside(mem.View())
      invariant BlocksWritten(old(mem.View()), parse, d, words, 0, max) ==
                BlocksWritten(mem.View(), parse, d, words[written..], written, max)
    {
      assert words[written..][0] == words[written] && words[written..][1..] == words[written + 1..];
      var encoded := EncodeDictionaryWord(words[written].text);
      var entry :- LookupDictionaryWord(mem.View(), d, encoded);
      var _ :- WriteBlock(mem, parse + PARSE_HEADER + written * PARSE_ENTRY, entry, words[written]);
      written := written + 1;
    }
    return Ok(written);
  }

  // ----- the exact effect of a read -----

  /** The bytes of the parse blocks, with every word looked up in memory `m`. */
  function BlockBytes(m: Mem, d: Dictionary, words: seq<InputWord>): (bytes: seq<byte>)
    requires d.Inside(m)
    requires forall k :: 0 <= k < |words| ==> words[k].End() < 0xff
    ensures |bytes| == PARSE_ENTRY * |words|
  {
    if words == [] then []
    else
      var found := Lookup(m, d, EncodedWord(words[0].text));
      var entry := if found.Ok? then found.value else 0;
      BlockOf(entry, words[0]) + BlockBytes(m, d, words[1..])
  }

  function BlockOf(entry: word, w: InputWord): seq<byte>
    requires w.End() < 0xff
  {
    [Hi(entry), Lo(entry), |w.text|, w.start + 1]
  }

  /** The entries of a dictionary are the same in both memories. */
  ghost predicate SameEntries(m: Mem, m': Mem, d: Dictionary) {
    && SameShape(m, m')
    && forall a: nat :: d.entries <= a < d.entries + Extent(d.count, d.entryLength) && a < m.Size() ==> m.Get(a) == m'.Get(a)
  }

  lemma EntrySame(m: Mem, m': Mem, d: Dictionary, i: nat)
    requires d.Inside(m) && d.Inside(m') && SameEntries(m, m', d) && i < d.count
    ensures EntryNumber(m, d, i) == EntryNumber(m', d, i)
  {
    var a := EntryAddressOf(d, i);
    EntryInside(m, d, i);
    ExtentGrows(i + 1, d.count, d.entryLength);
    assert m.Get(a) == m'.Get(a) && m.Get(a + 1) == m'.Get(a + 1);
    assert m.Get(a + 2) == m'.Get(a + 2) && m.Get(a + 3) == m'.Get(a + 3);
  }

  lemma {:induction false} ChopSame(m: Mem, m': Mem, d: Dictionary, target: nat, low: nat, high: nat)
    requires d.Inside(m) && d.Inside(m') && SameEntries(m, m', d) && high <= d.count
    ensures Chop(m, d, target, low, high) == Chop(m', d, target, low, high)
    decreases high - low
  {
    hide EntryNumber, EntryResult, SameEntries;
    if low < high {
      var middle := low + (high - low) / 2;
      EntrySame(m, m', d, middle);
      ChopSame(m, m', d, target, middle + 1, high);
      ChopSame(m, m', d, target, low, middle);
    }
  }

  lemma BlockExact(m: Mem, block: nat, entry: word, w: InputWord)
    requires w.End() < 0xff && BlockWritten(m, block, entry, w).Done?
    ensures m.Writable(block, PARSE_ENTRY)
    ensures BlockWritten(m, block, entry, w).state == WithBytes(m, block, BlockOf(entry, w))
  {
    var m1 := m.PutWord(block, entry);
    var m3 := BlockWritten(m, block, entry, w).state;
    assert m3 == m1.Put(block + 2, |w.text|).Put(block + 3, w.start + 1);
    assert m3.dynamic == WithBytes(m, block, BlockOf(entry, w)).dynamic;
  }

  lemma WithBytesConcat(m: Mem, addr: nat, a: seq<byte>, b: seq<byte>)
    requires m.Writable(addr, |a| + |b|)
    ensures WithBytes(WithBytes(m, addr, a), addr + |a|, b) == WithBytes(m, addr, a + b)
  {
    assert WithBytes(WithBytes(m, addr, a), addr + |a|, b).dynamic == WithBytes(m, addr, a + b).dynamic;
  }

  function Min(a: nat, b: nat): nat { if a < b then a else b }

  /** Filling the blocks writes exactly the bytes of the first `max` words, each looked up
      in the memory the dictionary was in before, when the blocks do not overlap it. */
  lemma {:induction false} BlocksExact(m0: Mem, m: Mem, parse: nat, d: Dictionary, words: seq<InputWord>, written: nat, max: nat)
    requires d.Inside(m0) && d.Inside(m) && SameEntries(m0, m, d) && written <= max
    requires forall k :: 0 <= k < |words| ==> words[k].End() < 0xff
    requires BlocksWritten(m, parse, d, words, written, max).Done?
    requires parse + PARSE_HEADER + (written + Min(|words|, max - written)) * PARSE_ENTRY <= d.entries || DictionaryEnd(d) <= parse
    ensures var n := Min(|words|, max - written);
            var at := parse + PARSE_HEADER + written * PARSE_ENTRY;
            var r := BlocksWritten(m, parse, d, words, written, max);
            && r.value == written + n
            && (n > 0 ==> m.Writable(at, n * PARSE_ENTRY))
            && r.state == if n == 0 then m else WithBytes(m, at, BlockBytes(m0, d, words[..n]))
    decreases |words|
  {
    hide Lookup, EncodedWord, BlockWritten, BlockOf, Dictionary.Inside, DictionaryEnd;
    if words != [] && written < max {
      var w := words[0];
      var n := Min(|words|, max - written);
      var at := parse + PARSE_HEADER + written * PARSE_ENTRY;
      LookupSame(m0, m, d, EncodedWord(w.text));
      var entry := Lookup(m, d, EncodedWord(w.text)).value;
      var m1 := BlockWritten(m, at, entry, w).state;
      BlockLength(entry, w);
      BlockExact(m, at, entry, w);
      EntriesUntouched(m0, m, m1, d, at, at + PARSE_ENTRY);
      BlocksExact(m0, m1, parse, d, words[1..], written + 1, max);
      assert words[..n][0] == w && words[..n][1..] == words[1..][..n - 1];
      assert BlockBytes(m0, d, words[..n]) == BlockOf(entry, w) + BlockBytes(m0, d, words[1..][..n - 1]);
      if n > 1 {
        WithBytesConcat(m, at, BlockOf(entry, w), BlockBytes(m0, d, words[1..][..n - 1]));
      } else {
        assert BlockOf(entry, w) + [] == BlockOf(entry, w);
      }
    }
  }

  lemma BlockLength(entry: word, w: InputWord)
    requires w.End() < 0xff
    ensures |BlockOf(entry, w)| == PARSE_ENTRY
  {
  }

  lemma LookupSame(m: Mem, m': Mem, d: Dictionary, encoded: seq<byte>)
    requires d.Inside(m) && d.Inside(m') && SameEntries(m, m', d) && |encoded| == 4
    ensures Lookup(m, d, encoded) == Lookup(m', d, encoded)
  {
    ChopSame(m, m', d, Number(encoded), 0, d.count);
  }

  lemma EntriesUntouched(m0: Mem, m: Mem, m': Mem, d: Dictionary, lo: nat, hi: nat)
    requires SameEntries(m0, m, d) && SameOutside(m, m', lo, hi) && d.Inside(m)
    requires hi <= d.entries || DictionaryEnd(d) <= lo
    ensures SameEntries(m0, m', d) && d.Inside(m')
  {
  }

  /** The end of a dictionary: everything a lookup reads lies before it. */
  function DictionaryEnd(d: Dictionary): (end: nat)
    ensures end >= d.entries
  {
    d.entries + Extent(d.count, d.entryLength)
  }

  lemma HeaderSame(m: Mem, m': Mem, addr: nat)
    requires DictionaryAt(m, addr).Ok? && SameShape(m, m')
    requires forall a: nat :: addr <= a < DictionaryAt(m, addr).value.entries ==> a < m.Size() && m.Get(a) == m'.Get(a)
    ensures DictionaryAt(m', addr) == DictionaryAt(m, addr)
  {
    var n := m.Get(addr);
    var at := addr + 1 + n;
    assert DictionaryAt(m, addr).value.entries == at + 3;
    assert m'.Get(addr) == n && m'.Get(at) == m.Get(at) && m'.GetWord(at + 1) == m.GetWord(at + 1);
    assert Slice(m', addr + 1, n) == Slice(m, addr + 1, n);
    hide Mem.Get, Mem.GetWord, Slice;
  }

  lemma DictionarySame(m: Mem, m': Mem, addr: nat, lo: nat, hi: nat)
    requires DictionaryAt(m, addr).Ok? && SameOutside(m, m', lo, hi)
    requires hi <= addr || DictionaryEnd(DictionaryAt(m, addr).value) <= lo
    ensures DictionaryAt(m', addr) == DictionaryAt(m, addr)
    ensures SameEntries(m, m', DictionaryAt(m, addr).value)
  {
    var d := DictionaryAt(m, addr).value;
    EntriesFollow(m, addr);
    hide DictionaryAt;
    forall a: nat | addr <= a < DictionaryEnd(d) && a < m.Size() ensures m.Get(a) == m'.Get(a) {
    }
    HeaderSame(m, m', addr);
  }

  lemma EntriesFollow(m: Mem, addr: nat)
    requires DictionaryAt(m, addr).Ok?
    ensures addr < DictionaryAt(m, addr).value.entries <= m.Size()
  {
  }

  /** Words of a line lie inside it, so neither their length nor their position can
      overflow a byte when the line is at most 253 characters. */
  lemma TokensFit(text: seq<byte>, separators: seq<byte>)
    requires |text| < 0xff
    ensures forall k :: 0 <= k < |Tokens(text, separators, 0)| ==> Tokens(text, separators, 0)[k].End() < 0xff
  {
    TokensAreWords(text, separators, 0);
  }

  /** What the read instruction does to memory: store the line, then tokenise it. */
  function LineRead(m: Mem, dictionary: nat, t: nat, p: nat, line: Str, lower: rune -> rune): Act<Mem, nat> {
    var (m1, text) :- LineStored(m, t, line, lower);
    Tokenised(m1, dictionary, p, text)
  }

  /** What is written of the text buffer (`length` characters and a zero), what is written of
      the parse buffer (`n` blocks, however many it promises room for) and the dictionary do
      not overlap. */
  ghost predicate Apart(m: Mem, dictionary: nat, t: nat, length: nat, p: nat, n: nat)
    requires DictionaryAt(m, dictionary).Ok?
  {
    var end := DictionaryEnd(DictionaryAt(m, dictionary).value);
    var textEnd := t + 1 + length + 1;
    var parseEnd := p + PARSE_HEADER + n * PARSE_ENTRY;
    && (textEnd <= dictionary || end <= t + 1)
    && (parseEnd <= dictionary || end <= p)
    && (textEnd <= p || parseEnd <= t + 1)
  }

  /** The exact effect of a successful read, when what it writes of the text and parse buffers
      and the dictionary `d` do not overlap. The text buffer receives the lower-cased,
      truncated line and a zero; the parse buffer the number of words recorded, at most its
      declared maximum, and one block for each: its dictionary address in the original memory,
      its length and its position, none of them truncated. No other byte changes. */
  lemma ReadExactly(m: Mem, dictionary: nat, t: nat, p: nat, line: Str, lower: rune -> rune,
                    d: Dictionary, text: seq<byte>, words: seq<InputWord>, n: nat)
    requires m.Readable(t, 1) && m.Readable(p, 1) && DictionaryAt(m, dictionary) == Ok(d)
    requires LineRead(m, dictionary, t, p, line, lower).Done?
    requires text == Typed(line, lower, if m.Get(t) > 0 then m.Get(t) - 1 else 0)
    requires words == Tokens(text, d.separators, 0) && n == Min(|words|, m.Get(p))
    requires Apart(m, dictionary, t, |text|, p, n)
    ensures m.Get(t) >= 2 && m.Writable(t, m.Get(t) + 1)
    ensures |text| <= 254 && m.Writable(t + 1, |text| + 1)
    ensures forall k :: 0 <= k < |words| ==> words[k].End() < 0xff
    ensures n <= |words| && n < 0x100 && m.Writable(p + 1, 1 + PARSE_ENTRY * n)
    ensures LineRead(m, dictionary, t, p, line, lower) ==
            Done(BuffersFilled(m, t, text, p, n, BlockBytes(m, d, words[..n])), n)
  {
    LineStoredParts(m, t, line, lower);
    var m1 := WithBytes(m, t + 1, text + [0]);
    hide DictionaryAt, Tokenised, LineStored, Typed, BlockBytes, DictionaryEnd, Tokens, BlockBytes, WithBytes;
    DictionarySame(m, m1, dictionary, t + 1, t + 1 + |text| + 1);
    assert m1.Get(p) == m.Get(p);
    TokenisedExactly(m, m1, dictionary, p, m.Get(p), d, text, words, n);
  }

  /** Memory with a line in the text buffer and a count and its blocks in the parse buffer. */
  function BuffersFilled(m: Mem, t: nat, text: seq<byte>, p: nat, n: byte, blocks: seq<byte>): Mem
    requires m.Writable(t + 1, |text| + 1) && m.Writable(p + 1, 1 + |blocks|)
  {
    WithBytes(WithBytes(m, t + 1, text + [0]), p + 1, [n] + blocks)
  }

  lemma LineStoredParts(m: Mem, t: nat, line: Str, lower: rune -> rune)
    requires LineStored(m, t, line, lower).Done?
    ensures m.Readable(t, 1) && m.Get(t) >= 2 && m.Writable(t, m.Get(t) + 1)
    ensures var text := Typed(line, lower, m.Get(t) - 1);
            LineStored(m, t, line, lower) == Done(WithBytes(m, t + 1, text + [0]), text)
  {
  }

  lemma BlocksTogether(m: Mem, m1: Mem, p: nat, d: Dictionary, words: seq<InputWord>, n: nat, max: byte)
    requires d.Inside(m) && d.Inside(m1) && SameEntries(m, m1, d) && m1.Writable(p, PARSE_HEADER)
    requires forall k :: 0 <= k < |words| ==> words[k].End() < 0xff
    requires n == Min(|words|, max) && BlocksWritten(m1, p, d, words, 0, max).Done?
    requires p + PARSE_HEADER + n * PARSE_ENTRY <= d.entries || DictionaryEnd(d) <= p
    ensures m1.Writable(p, PARSE_HEADER + n * PARSE_ENTRY)
    ensures BlocksWritten(m1, p, d, words, 0, max).value == n < 0x100
    ensures BlocksWritten(m1, p, d, words, 0, max).state.Put(p + 1, n) ==
            WithBytes(m1, p + 1, [n] + BlockBytes(m, d, words[..n]))
  {
    hide Mem.Get, BlocksWritten, BlockBytes, Dictionary.Inside, SameEntries, WithBytes;
    BlocksExact(m, m1, p, d, words, 0, max);
    NoBlocks(m, m1, d, p);
    assert n == 0 ==> words[..n] == [];
    CountAndBlocks(m1, BlocksWritten(m1, p, d, words, 0, max).state, p, n, BlockBytes(m, d, words[..n]));
  }

  lemma TokenisedExactly(m: Mem, m1: Mem, dictionary: nat, p: nat, max: byte,
                         d: Dictionary, text: seq<byte>, words: seq<InputWord>, n: nat)
    requires DictionaryAt(m, dictionary) == Ok(d) && DictionaryAt(m1, dictionary) == Ok(d)
    requires SameEntries(m, m1, d) && |text| < 0xff && m1.ReadByte(p) == Ok(max)
    requires Tokenised(m1, dictionary, p, text).Done?
    requires words == Tokens(text, d.separators, 0) && n == Min(|words|, max)
    requires p + PARSE_HEADER + n * PARSE_ENTRY <= dictionary || DictionaryEnd(d) <= p
    ensures forall k :: 0 <= k < |words| ==> words[k].End() < 0xff
    ensures m1.Writable(p, PARSE_HEADER + n * PARSE_ENTRY)
    ensures Tokenised(m1, dictionary, p, text) == Done(WithBytes(m1, p + 1, [n] + BlockBytes(m, d, words[..n])), n)
  {
    TokenisedStarts(m1, dictionary, p, max, d, text, words);
    EntriesFollow(m, dictionary);
    TokensFit(text, d.separators);
    hide *;
    BlocksTogether(m, m1, p, d, words, n, max);
    TokenisedEnds(m1, dictionary, p, max, d, text, words, n, BlocksWritten(m1, p, d, words, 0, max).state);
  }

  lemma TokenisedStarts(m: Mem, dictionary: nat, p: nat, max: byte, d: Dictionary, text: seq<byte>, words: seq<InputWord>)
    requires DictionaryAt(m, dictionary) == Ok(d) && words == Tokens(text, d.separators, 0)
    requires m.ReadByte(p) == Ok(max) && Tokenised(m, dictionary, p, text).Done?
    ensures m.Writable(p, PARSE_HEADER) && BlocksWritten(m, p, d, words, 0, max).Done?
  {
    hide Tokens, BlocksWritten, DictionaryAt;
  }

  /** A tokenising that succeeds: the blocks first, then the count. */
  lemma TokenisedEnds(m: Mem, dictionary: nat, p: nat, max: byte, d: Dictionary, text: seq<byte>,
                      words: seq<InputWord>, n: nat, filled: Mem)
    requires DictionaryAt(m, dictionary) == Ok(d) && words == Tokens(text, d.separators, 0)
    requires m.ReadByte(p) == Ok(max) && Tokenised(m, dictionary, p, text).Done? && n < 0x100
    requires BlocksWritten(m, p, d, words, 0, max) == Done(filled, n)
    ensures p + 1 < |filled.dynamic| && Tokenised(m, dictionary, p, text) == Done(filled.Put(p + 1, n), n)
  {
    hide Tokens, BlocksWritten, DictionaryAt;
    assert n % 256 == n;
  }

  lemma NoBlocks(m: Mem, m1: Mem, d: Dictionary, p: nat)
    requires d.Inside(m) && m1.Writable(p, PARSE_HEADER)
    ensures BlockBytes(m, d, []) == [] && WithBytes(m1, p + PARSE_HEADER, []) == m1
  {
    assert WithBytes(m1, p + PARSE_HEADER, []).dynamic == m1.dynamic;
  }

  lemma CountAndBlocks(m: Mem, m': Mem, p: nat, n: byte, blocks: seq<byte>)
    requires m.Writable(p, PARSE_HEADER + |blocks|) && m' == WithBytes(m, p + PARSE_HEADER, blocks)
    ensures m'.Put(p + 1, n) == WithBytes(m, p + 1, [n] + blocks)
  {
    assert m'.Put(p + 1, n).dynamic == WithBytes(m, p + 1, [n] + blocks).dynamic;
  }
}
