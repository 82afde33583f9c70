/** The dictionary and the encoding of typed words (dictionary.go): sections 13 and 3.7 of
    the Z-Machine Standards Document 1.1. */
module Dictionary {
  import opened Words
  import opened Memory
  import opened Text

  const WORD_CHARS := 6
  const PAD: zchar := 5

  datatype Dictionary = Dictionary(addr: nat, separators: seq<byte>, entryLength: nat, count: nat, entries: nat) {
    /** Every entry lies inside the story. */
    predicate Inside(m: Mem) {
      DICTIONARY_ENTRY_LENGTH_MIN <= entryLength && m.Readable(entries, Extent(count, entryLength))
    }
  }

  /** The size of `n` entries of `length` bytes: their product, as a sum of n equal terms so
      that bounds on it stay linear. */
  function Extent(n: nat, length: nat): nat {
    if n == 0 then 0 else Extent(n - 1, length) + length
  }

  lemma {:induction false} ExtentIsProduct(n: nat, length: nat)
    ensures Extent(n, length) == n * length
  {
    if n > 0 {
      ExtentIsProduct(n - 1, length);
    }
  }

  lemma {:induction false} ExtentGrows(i: nat, n: nat, length: nat)
    requires i <= n
    ensures Extent(i, length) <= Extent(n, length)
    decreases n - i
  {
    if i < n {
      ExtentGrows(i + 1, n, length);
    }
  }

  // ----- the dictionary header -----

  function DictionaryAt(m: Mem, addr: nat): (r: Result<Dictionary>)
    ensures r.Ok? ==> r.value.Inside(m) && r.value.count < 0x8000
  {
    var n :- m.ReadByte(addr);
    if !m.Readable(addr + 1, n) then Err(MemoryAccess)
    else
      var lengthAt: nat := addr + 1 + n;
      var entryLength :- m.ReadByte(lengthAt);
      if entryLength < DICTIONARY_ENTRY_LENGTH_MIN then Err(ExecutionFault)
      else
        var count :- m.ReadWord(lengthAt + 1);
        if Signed(count) < 0 then Err(ExecutionFault)
        else if !m.Readable(lengthAt + 3, Extent(count, entryLength)) then Err(MemoryAccess)
        else Ok(Dictionary(addr, Slice(m, addr + 1, n), entryLength, count, lengthAt + 3))
  }

  method ReadSeparators(m: Mem, addr: nat, n: byte) returns (r: Result<seq<byte>>)
    requires addr <= m.Size()
    ensures r == if m.Readable(addr, n) then Ok(Slice(m, addr, n)) else Err(MemoryAccess)
  {
    var separators: seq<byte> := [];
    for i := 0 to n
      invariant m.Readable(addr, i) && separators == Slice(m, addr, i)
    {
      var code :- m.ReadByte(addr + i);
      separators := separators + [code];
    }
    return Ok(separators);
  }

  method ReadDictionary(m: Mem, addr: nat) returns (r: Result<Dictionary>)
    ensures r == DictionaryAt(m, addr)
  {
    hide Mem.GetWord, Mem.Get, Slice;
    var n :- m.ReadByte(addr);
    var separators :- ReadSeparators(m, addr + 1, n);
    var lengthAt: nat := addr + 1 + n;
    var entryLength :- m.ReadByte(lengthAt);
    if entryLength < DICTIONARY_ENTRY_LENGTH_MIN {
      return Err(ExecutionFault);
    }
    var count :- m.ReadWord(lengthAt + 1);
    if Signed(count) < 0 {
      return Err(ExecutionFault);
    }
    if !m.Readable(lengthAt + 3, Extent(count, entryLength)) {
      return Err(MemoryAccess);
    }
    return Ok(Dictionary(addr, separators, entryLength, count, lengthAt + 3));
  }

  method IsSeparator(d: Dictionary, code: byte) returns (found: bool)
    ensures found == (code in d.separators)
  {
    for i := 0 to |d.separators|
      invariant code !in d.separators[..i]
    {
      if d.separators[i] == code {
        return true;
      }
    }
    return false;
  }

  // ----- encoding a word -----

  function Lower(code: byte): byte {
    if 'A' as int <= code <= 'Z' as int then code + 32 else code
  }

  /** The first position at or after `i` of a code in the third alphabet. */
  function A2Index(code: byte, i: nat): (at: Option<nat>)
    requires i <= |ALPHABET_A2|
    ensures at.Some? ==> i <= at.value < |ALPHABET_A2| && ALPHABET_A2[at.value] == code
    decreases |ALPHABET_A2| - i
  {
    if i == |ALPHABET_A2| then None
    else if ALPHABET_A2[i] == code then Some(i)
    else A2Index(code, i + 1)
  }

  /** The Z-characters of one ZSCII code: one character, a shift and a character, or a
      ten-bit escape. */
  function CodeChars(typed: byte): (chars: seq<zchar>)
    ensures 1 <= |chars| <= 4
  {
    var code := Lower(typed);
    if code == ZSCII_SPACE then [0]
    else if 'a' as int <= code <= 'z' as int then [code - 'a' as int + 6]
    else match A2Index(code, 1)
         case Some(i) => [5, i + 6]
         case None => [5, 6, code / 32, code % 32]
  }

  /** All the Z-characters of a word, with no limit on their number. */
  function WordChars(word: seq<byte>): seq<zchar> {
    if word == [] then [] else CodeChars(word[0]) + WordChars(word[1..])
  }

  /** Exactly six: the first six, or all of them and padding. */
  function SixChars(word: seq<byte>): (chars: seq<zchar>)
    ensures |chars| == WORD_CHARS
  {
    var chars := WordChars(word);
    if |chars| >= WORD_CHARS then chars[..WORD_CHARS]
    else chars + seq<zchar>(WORD_CHARS - |chars|, _ => PAD)
  }

  function PackWord(c0: zchar, c1: zchar, c2: zchar): (w: nat)
    ensures w < 0x8000
  {
    c0 as int * 1024 + c1 as int * 32 + c2 as int
  }

  function PackFirst(chars: seq<zchar>): (w: word)
    requires |chars| == WORD_CHARS
  {
    PackWord(chars[0], chars[1], chars[2])
  }

  /** The last word of a string has its top bit set. */
  function PackSecond(chars: seq<zchar>): (w: word)
    requires |chars| == WORD_CHARS
  {
    PackWord(chars[3], chars[4], chars[5]) + 0x8000
  }

  function FourBytes(first: word, second: word): seq<byte> {
    [Hi(first), Lo(first), Hi(second), Lo(second)]
  }

  function PackSix(chars: seq<zchar>): (bytes: seq<byte>)
    requires |chars| == WORD_CHARS
    ensures |bytes| == 4
  {
    FourBytes(PackFirst(chars), PackSecond(chars))
  }

  function EncodedWord(word: seq<byte>): (bytes: seq<byte>)
    ensures |bytes| == 4
  {
    PackSix(SixChars(word))
  }

  lemma {:induction false} WordCharsSnoc(word: seq<byte>, code: byte)
    ensures WordChars(word + [code]) == WordChars(word) + CodeChars(code)
  {
    if word == [] {
      assert WordChars([code]) == CodeChars(code) + WordChars([]);
    } else {
      assert (word + [code])[0] == word[0] && (word + [code])[1..] == word[1..] + [code];
      WordCharsSnoc(word[1..], code);
    }
  }

  lemma {:induction false} WordCharsConcat(a: seq<byte>, b: seq<byte>)
    ensures WordChars(a + b) == WordChars(a) + WordChars(b)
  {
    if a == [] {
      assert a + b == b;
    } else {
      assert (a + b)[0] == a[0] && (a + b)[1..] == a[1..] + b;
      WordCharsConcat(a[1..], b);
    }
  }

  /** Stops encoding once six Z-characters are in hand, then pads and truncates. */
  method EncodeDictionaryWord(word: seq<byte>) returns (bytes: seq<byte>)
    ensures bytes == EncodedWord(word)
  {
    hide CodeChars, PackSix;
    var chars: seq<zchar> := [];
    var i := 0;
    while i < |word| && |chars| < WORD_CHARS
      invariant i <= |word| && chars == WordChars(word[..i])
    {
      assert word[..i + 1] == word[..i] + [word[i]];
      WordCharsSnoc(word[..i], word[i]);
      chars := chars + CodeChars(word[i]);
      i := i + 1;
    }
    assert word == word[..i] + word[i..];
    WordCharsConcat(word[..i], word[i..]);
    ghost var had := |chars|;
    while |chars| < WORD_CHARS
      invariant had <= |chars| && (had >= WORD_CHARS ==> |chars| == had)
      invariant |chars| <= WORD_CHARS || |chars| == had
      invariant chars == WordChars(word[..i]) + seq<zchar>(|chars| - had, _ => PAD)
    {
      chars := chars + [PAD];
    }
    assert chars[..WORD_CHARS] == SixChars(word);
    return PackSix(chars[..WORD_CHARS]);
  }

  // ----- decoding an encoded word -----

  function LowerText(word: seq<byte>): Str {
    if word == [] then [] else Printed(Lower(word[0])) + LowerText(word[1..])
  }

  /** How many codes of the word fit whole in `room` Z-characters. */
  function Fitting(word: seq<byte>, room: nat): (k: nat)
    ensures k <= |word|
  {
    if word == [] || |CodeChars(word[0])| > room then 0
    else 1 + Fitting(word[1..], room - |CodeChars(word[0])|)
  }

  /** It is the longest prefix that fits. */
  lemma {:induction false} FittingFits(word: seq<byte>, room: nat)
    ensures |WordChars(word[..Fitting(word, room)])| <= room
    ensures Fitting(word, room) < |word| ==> |WordChars(word[..Fitting(word, room) + 1])| > room
    decreases |word|
  {
    if word != [] {
      var need := |CodeChars(word[0])|;
      if need > room {
        assert word[..1] == [word[0]] && [word[0]][1..] == [];
      } else {
        FittingFits(word[1..], room - need);
        var k := Fitting(word, room);
        assert word[..k][1..] == word[1..][..k - 1];
        assert k < |word| ==> word[..k + 1][1..] == word[1..][..k];
      }
    }
  }

  /** The codes of a word, lower-cased. */
  function Lowered(word: seq<byte>): seq<nat> {
    if word == [] then [] else [Lower(word[0]) as nat] + Lowered(word[1..])
  }

  /** The codes that the whole constructions of some Z-characters stand for. */
  function CodesIn(chars: seq<zchar>): seq<nat> {
    if chars == [] then []
    else if chars[0] == 0 then [ZSCII_SPACE] + CodesIn(chars[1..])
    else if chars[0] >= 6 then ['a' as nat + chars[0] as nat - 6] + CodesIn(chars[1..])
    else if chars[0] == 5 && |chars| >= 2 && chars[1] > 6 then [ALPHABET_A2[chars[1] - 6] as nat] + CodesIn(chars[2..])
    else if chars[0] == 5 && |chars| >= 4 && chars[1] == 6 then [TenBits(chars[2], chars[3])] + CodesIn(chars[4..])
    else []
  }

  lemma CodesFirst(code: byte, rest: seq<zchar>)
    ensures CodesIn(CodeChars(code) + rest) == [Lower(code) as nat] + CodesIn(rest)
  {
    var chars := CodeChars(code);
    assert (chars + rest)[|chars|..] == rest;
    assert forall i :: 0 <= i < |chars| ==> (chars + rest)[i] == chars[i];
  }

  lemma {:induction false} CodesConcat(word: seq<byte>, tail: seq<zchar>)
    ensures CodesIn(WordChars(word) + tail) == Lowered(word) + CodesIn(tail)
  {
    hide CodesIn, CodeChars, Lower;
    if word == [] {
      assert WordChars(word) + tail == tail;
    } else {
      CodesConcat(word[1..], tail);
      CodesFirst(word[0], WordChars(word[1..]) + tail);
      assert WordChars(word) + tail == CodeChars(word[0]) + (WordChars(word[1..]) + tail);
    }
  }

  lemma CodeFirst(m: Mem, abbrevs: nat, code: byte, allow: bool)
    ensures var chars := CodeChars(code);
            && FirstLength(chars) == |chars| && Settled(chars) == |chars|
            && FirstText(m, abbrevs, chars, allow) == Ok(Printed(Lower(code)))
  {
    assert Printed(ZSCII_SPACE) == [ZSCII_SPACE];
    hide ReadText, OutputRune, Printed;
    var chars, lower := CodeChars(code), Lower(code);
    assert chars[|chars|..] == [];
    if lower != ZSCII_SPACE && !('a' as int <= lower <= 'z' as int) {
      match A2Index(lower, 1) {
        case Some(i) =>
          assert AlphabetCode(2, chars[1]) == ALPHABET_A2[i] == lower;
        case None =>
          assert TenBits(chars[2], chars[3]) == lower;
      }
    }
  }

  /** One encoded code reads back as itself, lower-cased. */
  lemma CodeReads(m: Mem, abbrevs: nat, code: byte, allow: bool)
    ensures Settled(CodeChars(code)) == |CodeChars(code)|
    ensures ReadText(m, abbrevs, CodeChars(code), allow) == Ok(Printed(Lower(code)))
  {
    hide CodeChars, Settled, FirstText, FirstLength, Printed;
    var chars := CodeChars(code);
    CodeFirst(m, abbrevs, code, allow);
    ReadFirst(m, abbrevs, chars, allow);
    assert chars[|chars|..] == [];
    assert Printed(Lower(code)) + [] == Printed(Lower(code));
  }

  lemma SettledRest(c: seq<zchar>)
    requires c != [] && FirstLength(c) <= |c| && Settled(c[FirstLength(c)..]) == |c[FirstLength(c)..]|
    requires FirstLength(c) == 1 && c[0] != 0 && c[0] < 6 ==> |c| > 1
    ensures Settled(c) == |c|
  {
  }

  lemma SettledConcat(a: seq<zchar>, b: seq<zchar>)
    requires Settled(a) == |a| && Settled(b) == |b|
    ensures Settled(a + b) == |a + b|
    decreases |a|
  {
    if a == [] {
      assert a + b == b;
    } else {
      var n := FirstLength(a);
      FirstOfConcat(Mem([], []), 0, a, b, true);
      SettledConcat(a[n..], b);
      SettledRest(a + b);
    }
  }

  lemma {:induction false} WordReads(m: Mem, abbrevs: nat, word: seq<byte>, allow: bool)
    ensures Settled(WordChars(word)) == |WordChars(word)|
    ensures ReadText(m, abbrevs, WordChars(word), allow) == Ok(LowerText(word))
  {
    if word != [] {
      CodeReads(m, abbrevs, word[0], allow);
      WordReads(m, abbrevs, word[1..], allow);
      SettledConcat(CodeChars(word[0]), WordChars(word[1..]));
      ReadConcat(m, abbrevs, CodeChars(word[0]), WordChars(word[1..]), allow);
    }
  }

  /** What is left of a construction that was cut short, and any run of padding, print
      nothing. */
  lemma {:induction false} PaddingReads(m: Mem, abbrevs: nat, n: nat, allow: bool)
    ensures ReadText(m, abbrevs, seq<zchar>(n, _ => PAD), allow) == Ok([]) && CodesIn(seq<zchar>(n, _ => PAD)) == []
  {
    var pads := seq<zchar>(n, _ => PAD);
    if n > 0 {
      assert pads[1..] == seq<zchar>(n - 1, _ => PAD);
      PaddingReads(m, abbrevs, n - 1, allow);
    }
  }

  lemma CutReads(m: Mem, abbrevs: nat, code: byte, n: nat, allow: bool)
    requires n < |CodeChars(code)|
    ensures ReadText(m, abbrevs, CodeChars(code)[..n], allow) == Ok([]) && CodesIn(CodeChars(code)[..n]) == []
  {
    var cut := CodeChars(code)[..n];
    if n == 1 {
      assert cut == [5] && cut[1..] == [];
    } else if n >= 2 {
      assert cut[0] == 5 && cut[1] == 6;
    }
  }

  /** The six Z-characters are those of the fitting prefix and a tail that is either
      padding or a construction cut short. */
  lemma SixCharsSplit(m: Mem, abbrevs: nat, word: seq<byte>, allow: bool) returns (tail: seq<zchar>)
    ensures SixChars(word) == WordChars(word[..Fitting(word, WORD_CHARS)]) + tail
    ensures ReadText(m, abbrevs, tail, allow) == Ok([]) && CodesIn(tail) == []
  {
    hide CodeChars, ReadText, CodesIn;
    var k := Fitting(word, WORD_CHARS);
    FittingFits(word, WORD_CHARS);
    var front := WordChars(word[..k]);
    if k == |word| {
      assert word[..k] == word;
      tail := seq<zchar>(WORD_CHARS - |front|, _ => PAD);
      assert SixChars(word) == front + tail;
      PaddingReads(m, abbrevs, WORD_CHARS - |front|, allow);
    } else {
      var n := WORD_CHARS - |front|;
      assert word == word[..k] + word[k..] && word[..k + 1] == word[..k] + [word[k]];
      WordCharsConcat(word[..k], word[k..]);
      WordCharsSnoc(word[..k], word[k]);
      assert WordChars(word[k..]) == CodeChars(word[k]) + WordChars(word[k..][1..]);
      tail := CodeChars(word[k])[..n];
      assert SixChars(word) == front + tail;
      CutReads(m, abbrevs, word[k], n, allow);
    }
  }

  /** Decoding the six Z-characters of any word never fails, and gives the longest prefix of
      the lower-cased word whose Z-characters fit in six. */
  lemma SixCharsRead(m: Mem, abbrevs: nat, word: seq<byte>, allow: bool)
    ensures ReadText(m, abbrevs, SixChars(word), allow) == Ok(LowerText(word[..Fitting(word, WORD_CHARS)]))
  {
    hide SixChars, ReadText, WordChars, LowerText;
    var front := word[..Fitting(word, WORD_CHARS)];
    var tail := SixCharsSplit(m, abbrevs, word, allow);
    WordReads(m, abbrevs, front, allow);
    ReadConcat(m, abbrevs, WordChars(front), tail, allow);
    assert LowerText(front) + [] == LowerText(front);
  }

  lemma PackInverse(c0: zchar, c1: zchar, c2: zchar)
    ensures Unpack(PackWord(c0, c1, c2)) == [c0, c1, c2]
    ensures Unpack(PackWord(c0, c1, c2) + 0x8000) == [c0, c1, c2]
  {
    var w := PackWord(c0, c1, c2);
    assert w / 1024 == c0 && w / 32 == c0 as int * 32 + c1 as int && w % 32 == c2;
    assert (w + 0x8000) / 1024 == c0 as int + 32 && (w + 0x8000) / 32 == 1024 + c0 as int * 32 + c1 as int;
  }

  /** The four bytes unpack to the six Z-characters they were packed from. */
  lemma EncodedUnpacks(word: seq<byte>)
    ensures var ws := ScanBytes(EncodedWord(word));
            ws.Some? && |ws.value| == 2 && UnpackAll(ws.value) == SixChars(word)
  {
    PackedUnpacks(SixChars(word));
  }

  lemma PackedUnpacks(c: seq<zchar>)
    requires |c| == WORD_CHARS
    ensures var ws := ScanBytes(PackSix(c));
            ws.Some? && |ws.value| == 2 && UnpackAll(ws.value) == c
  {
    PackInverse(c[0], c[1], c[2]);
    PackInverse(c[3], c[4], c[5]);
    var first, second := PackFirst(c), PackSecond(c);
    assert Unpack(first) == [c[0], c[1], c[2]] && Unpack(second) == [c[3], c[4], c[5]];
    hide PackWord, Unpack, ScanBytes, FourBytes, PackFirst, PackSecond;
    TwoWords(first, second);
    UnpackTwo(first, second);
    assert c == [c[0], c[1], c[2]] + [c[3], c[4], c[5]];
  }

  lemma UnpackTwo(first: word, second: word)
    ensures UnpackAll([first, second]) == Unpack(first) + Unpack(second)
  {
    hide Unpack;
    assert [first, second][1..] == [second] && [second][1..] == [];
    assert UnpackAll([second]) == Unpack(second) + [];
  }

  lemma TwoWords(first: word, second: word)
    requires first < 0x8000 <= second
    ensures ScanBytes(FourBytes(first, second)) == Some([first, second])
  {
    var bytes := FourBytes(first, second);
    assert bytes[2..] == [Hi(second), Lo(second)];
    assert ScanBytes(bytes[2..]) == Some([second]);
    assert [first] + [second] == [first, second];
  }

  /** The text of a dictionary entry: what its four bytes decode to. */
  function EntryText(m: Mem, abbrevs: nat, bytes: seq<byte>): Result<Str> {
    match ScanBytes(bytes)
    case None => Err(InvalidText)
    case Some(ws) => ReadText(m, abbrevs, UnpackAll(ws), true)
  }

  /** Encoding then decoding a word gives its fitting prefix, lower-cased. */
  lemma EncodeDecode(m: Mem, abbrevs: nat, word: seq<byte>)
    ensures EntryText(m, abbrevs, EncodedWord(word)) == Ok(LowerText(word[..Fitting(word, WORD_CHARS)]))
  {
    EncodedUnpacks(word);
    SixCharsRead(m, abbrevs, word, true);
  }

  /** The six Z-characters say exactly which codes fitted. */
  lemma SixCharsSay(word: seq<byte>)
    ensures CodesIn(SixChars(word)) == Lowered(word[..Fitting(word, WORD_CHARS)])
  {
    hide SixChars, CodesIn, Lowered, WordChars, ReadText;
    var front := word[..Fitting(word, WORD_CHARS)];
    var tail := SixCharsSplit(Mem([], []), 0, word, true);
    CodesConcat(front, tail);
    assert Lowered(front) + [] == Lowered(front);
  }

  /** So two words with the same encoding have the same prefixes that fit, code for code but
      for case. */
  lemma EqualEncodings(a: seq<byte>, b: seq<byte>)
    requires EncodedWord(a) == EncodedWord(b)
    ensures Lowered(a[..Fitting(a, WORD_CHARS)]) == Lowered(b[..Fitting(b, WORD_CHARS)])
  {
    hide EncodedWord, SixChars, CodesIn, Lowered, Fitting, UnpackAll, ScanBytes;
    EncodedUnpacks(a);
    EncodedUnpacks(b);
    SixCharsSay(a);
    SixCharsSay(b);
  }

  // ----- looking a word up -----

  /** Four bytes as one number, most significant byte first. */
  function Number(bytes: seq<byte>): nat
    requires |bytes| == 4
  {
    Join(bytes[0], bytes[1]) as int * 0x1_0000 + Join(bytes[2], bytes[3]) as int
  }

  function EntryAddressOf(d: Dictionary, i: nat): nat { d.entries + Extent(i, d.entryLength) }

  /** Where entry `i` lies, within the table. */
  lemma EntryInside(m: Mem, d: Dictionary, i: nat)
    requires d.Inside(m) && i < d.count
    ensures m.Readable(EntryAddressOf(d, i), 4)
  {
    ExtentGrows(i + 1, d.count, d.entryLength);
  }

  function EntryNumber(m: Mem, d: Dictionary, i: nat): nat
    requires d.Inside(m) && i < d.count
  {
    EntryInside(m, d, i);
    m.GetWord(EntryAddressOf(d, i)) as int * 0x1_0000 + m.GetWord(EntryAddressOf(d, i) + 2) as int
  }

  /** The address of entry `i`, which must fit in the word the parse buffer holds. */
  function EntryResult(d: Dictionary, i: nat): Result<word> {
    if EntryAddressOf(d, i) > 0xffff then Err(ExecutionFault) else Ok(EntryAddressOf(d, i))
  }

  /** What the binary chop finds between `low` and `high`, on any table, sorted or not. */
  function Chop(m: Mem, d: Dictionary, target: nat, low: nat, high: nat): Result<word>
    requires d.Inside(m) && high <= d.count
    decreases high - low
  {
    if low >= high then Ok(0)
    else
      var middle := low + (high - low) / 2;
      var text := EntryNumber(m, d, middle);
      if text < target then Chop(m, d, target, middle + 1, high)
      else if text > target then Chop(m, d, target, low, middle)
      else EntryResult(d, middle)
  }

  function Search(m: Mem, d: Dictionary, target: nat): Result<word>
    requires d.Inside(m)
  {
    Chop(m, d, target, 0, d.count)
  }

  function Lookup(m: Mem, d: Dictionary, encoded: seq<byte>): Result<word>
    requires d.Inside(m) && |encoded| == 4
  {
    Search(m, d, Number(encoded))
  }

  method LookupDictionaryWord(m: Mem, d: Dictionary, encoded: seq<byte>) returns (r: Result<word>)
    requires d.Inside(m) && |encoded| == 4
    ensures r == Lookup(m, d, encoded)
  {
    hide EntryNumber, EntryResult, Number, EntryAddressOf, Dictionary.Inside;
    var target := Number(encoded);
    var low, high := 0, d.count;
    while low < high
      invariant 0 <= low <= high <= d.count
      invariant Lookup(m, d, encoded) == Chop(m, d, target, low, high)
    {
      var middle := low + (high - low) / 2;
      var text := EntryNumber(m, d, middle);
      if text < target {
        low := middle + 1;
      } else if text > target {
        high := middle;
      } else {
        return EntryResult(d, middle);
      }
    }
    return Ok(0);
  }

  /** The first entry at or after `i` with a given text, by looking at every one. */
  function FirstMatch(m: Mem, d: Dictionary, target: nat, i: nat): (at: Option<nat>)
    requires d.Inside(m) && i <= d.count
    ensures at.Some? ==> i <= at.value < d.count && EntryNumber(m, d, at.value) == target
    ensures at.None? ==> forall k :: i <= k < d.count ==> EntryNumber(m, d, k) != target
    decreases d.count - i
  {
    if i == d.count then None
    else if EntryNumber(m, d, i) == target then Some(i)
    else FirstMatch(m, d, target, i + 1)
  }

  /** Entries in strictly ascending order of their encoded text (section 13.5). */
  ghost predicate Sorted(m: Mem, d: Dictionary)
    requires d.Inside(m)
  {
    forall i, j :: 0 <= i < j < d.count ==> EntryNumber(m, d, i) < EntryNumber(m, d, j)
  }

  lemma {:induction false} ChopFinds(m: Mem, d: Dictionary, target: nat, low: nat, high: nat)
    requires d.Inside(m) && low <= high <= d.count && Sorted(m, d)
    ensures forall i :: low <= i < high && EntryNumber(m, d, i) == target ==>
              Chop(m, d, target, low, high) == EntryResult(d, i)
    ensures (forall i :: low <= i < high ==> EntryNumber(m, d, i) != target) ==>
              Chop(m, d, target, low, high) == Ok(0)
    decreases high - low
  {
    hide EntryNumber, EntryResult, EntryAddressOf, Dictionary.Inside;
    if low < high {
      var middle := low + (high - low) / 2;
      var text := EntryNumber(m, d, middle);
      if text < target {
        ChopFinds(m, d, target, middle + 1, high);
      } else if text > target {
        ChopFinds(m, d, target, low, middle);
      }
    }
  }

  /** On a sorted dictionary the binary search agrees with looking at every entry: it gives
      the address of the entry with that text, and 0 exactly when there is none. */
  lemma SearchAgrees(m: Mem, d: Dictionary, target: nat)
    requires d.Inside(m) && Sorted(m, d) && d.entries > 0
    ensures Search(m, d, target) ==
            match FirstMatch(m, d, target, 0)
            case Some(i) => EntryResult(d, i)
            case None => Ok(0)
    ensures Search(m, d, target) == Ok(0) <==> FirstMatch(m, d, target, 0).None?
  {
    hide EntryNumber, EntryResult, EntryAddressOf, Dictionary.Inside, Chop;
    ChopFinds(m, d, target, 0, d.count);
    var at := FirstMatch(m, d, target, 0);
    if at.Some? {
      EntryIsNotZero(d, at.value);
    }
  }

  lemma EntryIsNotZero(d: Dictionary, i: nat)
    requires d.entries > 0
    ensures EntryResult(d, i) != Ok(0)
  {
  }

  /** Lexicographic order of two runs of Z-characters of the same length. */
  predicate Before(a: seq<zchar>, b: seq<zchar>)
    requires |a| == |b|
  {
    a != [] && (a[0] < b[0] || (a[0] == b[0] && Before(a[1..], b[1..])))
  }

  lemma NumberOfSix(c: seq<zchar>)
    requires |c| == WORD_CHARS
    ensures Number(PackSix(c)) == PackWord(c[0], c[1], c[2]) * 0x1_0000 + PackWord(c[3], c[4], c[5]) + 0x8000
  {
    var first, second := PackFirst(c), PackSecond(c);
    assert Join(Hi(first), Lo(first)) == first && Join(Hi(second), Lo(second)) == second;
  }

  lemma ThreeChars(a0: zchar, a1: zchar, a2: zchar, b0: zchar, b1: zchar, b2: zchar)
    ensures PackWord(a0, a1, a2) < PackWord(b0, b1, b2) <==>
            a0 < b0 || (a0 == b0 && (a1 < b1 || (a1 == b1 && a2 < b2)))
    ensures PackWord(a0, a1, a2) == PackWord(b0, b1, b2) <==> a0 == b0 && a1 == b1 && a2 == b2
  {
  }

  lemma OrderOfSix(x: seq<zchar>, y: seq<zchar>)
    requires |x| == |y| == WORD_CHARS
    ensures Number(PackSix(x)) < Number(PackSix(y)) <==> Before(x, y)
    ensures Number(PackSix(x)) == Number(PackSix(y)) ==> x == y
  {
    NumberOfSix(x);
    NumberOfSix(y);
    BeforeSix(x, y);
    ThreeChars(x[0], x[1], x[2], y[0], y[1], y[2]);
    ThreeChars(x[3], x[4], x[5], y[3], y[4], y[5]);
    hide PackWord, Number, PackSix, Before;
    if Number(PackSix(x)) == Number(PackSix(y)) {
      assert PackWord(x[0], x[1], x[2]) == PackWord(y[0], y[1], y[2]);
      assert x == [x[0], x[1], x[2], x[3], x[4], x[5]] && y == [y[0], y[1], y[2], y[3], y[4], y[5]];
    }
  }

  /** The numerical order of encoded words is the lexicographic order of their six
      Z-characters. */
  lemma OrderIsLexicographic(a: seq<byte>, b: seq<byte>)
    ensures Number(EncodedWord(a)) < Number(EncodedWord(b)) <==> Before(SixChars(a), SixChars(b))
    ensures Number(EncodedWord(a)) == Number(EncodedWord(b)) <==> SixChars(a) == SixChars(b)
  {
    hide PackSix, SixChars, Number, Before;
    OrderOfSix(SixChars(a), SixChars(b));
  }

  lemma BeforeSix(x: seq<zchar>, y: seq<zchar>)
    requires |x| == |y| == WORD_CHARS
    ensures Before(x, y) <==>
            || x[0] < y[0] || (x[0] == y[0] && (x[1] < y[1] || (x[1] == y[1] && (x[2] < y[2]
            || (x[2] == y[2] && (x[3] < y[3] || (x[3] == y[3] && (x[4] < y[4]
            || (x[4] == y[4] && x[5] < y[5])))))))))
  {
    forall k | 0 <= k < WORD_CHARS
      ensures Before(x[k..], y[k..]) <==> x[k] < y[k] || (x[k] == y[k] && Before(x[k + 1..], y[k + 1..]))
    {
      assert x[k..][1..] == x[k + 1..] && y[k..][1..] == y[k + 1..];
    }
    assert x[0..] == x && y[0..] == y;
    assert Before(x[1..], y[1..]) <==> x[1] < y[1] || (x[1] == y[1] && Before(x[2..], y[2..]));
    assert Before(x[3..], y[3..]) <==> x[3] < y[3] || (x[3] == y[3] && Before(x[4..], y[4..]));
    assert !Before(x[6..], y[6..]);
  }
}
