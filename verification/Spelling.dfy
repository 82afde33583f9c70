/** The encoding of dictionary words, said of the bits of the four bytes (section 3.7 of the
    Z-Machine Standards Document 1.1), and what looking up a typed word leads to. */
module Spelling {
  import opened Words
  import opened Memory
  import opened Text
  import opened Dictionary
  import opened Input
  import opened Lines

  /** The `j`-th of the three five-bit fields of a 16-bit word, from the top. */
  function FiveBits(w: nat, j: nat): nat {
    if j == 0 then w / 1024 % 32 else if j == 1 then w / 32 % 32 else w % 32
  }

  function Pair(high: byte, low: byte): nat { high as nat * 256 + low as nat }

  /** The `k`-th of the six five-bit fields of two words, high byte first. */
  function FieldOf(bytes: seq<byte>, k: nat): nat
    requires |bytes| == 4 && k < 6
  {
    if k < 3 then FiveBits(Pair(bytes[0], bytes[1]), k) else FiveBits(Pair(bytes[2], bytes[3]), k - 3)
  }

  /** Where a code stands in the third alphabet, as a Z-character. */
  function Place(code: byte): Option<zchar> {
    if code == 13 then Some(7)
    else if '0' as int <= code <= '9' as int then Some(code as int - 40)
    else if code == '.' as int then Some(18)
    else if code == ',' as int then Some(19)
    else if code == '!' as int then Some(20)
    else if code == '?' as int then Some(21)
    else if code == '_' as int then Some(22)
    else if code == '#' as int then Some(23)
    else if code == 39 then Some(24)
    else if code == 34 then Some(25)
    else if code == '/' as int then Some(26)
    else if code == 92 then Some(27)
    else if code == '-' as int then Some(28)
    else if code == ':' as int then Some(29)
    else if code == '(' as int then Some(30)
    else if code == ')' as int then Some(31)
    else None
  }

  /** How one code of a word is spelled: a letter of either case by its place in the alphabet,
      a space by 0, what the third alphabet has by a shift and its place there, and anything
      else by its two five-bit halves after the escape 5 6. */
  function Spelled(code: byte): seq<zchar> {
    if 97 <= code <= 122 then [code as int - 91]
    else if 65 <= code <= 90 then [code as int - 59]
    else if code == 32 then [0]
    else match Place(code)
         case Some(z) => [5, z]
         case None => [5, 6, code as int / 32, code as int % 32]
  }

  function WordSpelled(word: seq<byte>): seq<zchar> {
    if word == [] then [] else Spelled(word[0]) + WordSpelled(word[1..])
  }

  lemma PlaceOfEntry(i: nat)
    requires 1 <= i < 26
    ensures |ALPHABET_A2| == 26 && Place(ALPHABET_A2[i]) == Some(i + 6)
  {
  }

  lemma EntryOfPlace(code: byte)
    requires Place(code).Some?
    ensures 7 <= Place(code).value && |ALPHABET_A2| == 26 && ALPHABET_A2[Place(code).value - 6] == code
  {
  }

  lemma {:induction false} A2Absent(code: byte, i: nat)
    requires i <= |ALPHABET_A2|
    ensures A2Index(code, i).None? ==> forall k :: i <= k < |ALPHABET_A2| ==> ALPHABET_A2[k] != code
    decreases |ALPHABET_A2| - i
  {
    hide ALPHABET_A2;
    if i < |ALPHABET_A2| {
      A2Absent(code, i + 1);
    }
  }

  lemma CodeIsSpelled(code: byte)
    ensures CodeChars(code) == Spelled(code)
  {
    A2Absent(Lower(code), 1);
    match A2Index(Lower(code), 1) {
      case Some(i) => PlaceOfEntry(i);
      case None =>
        if Place(Lower(code)).Some? {
          EntryOfPlace(Lower(code));
        }
    }
    hide A2Index, ALPHABET_A2;
  }

  lemma {:induction false} WordIsSpelled(word: seq<byte>)
    ensures WordChars(word) == WordSpelled(word)
  {
    hide CodeChars, Spelled;
    if word != [] {
      CodeIsSpelled(word[0]);
      WordIsSpelled(word[1..]);
    }
  }

  /** The four bytes that section 3.7 gives a word: its first six Z-characters, padded with
      fives, three to a word, and the top bit set in the second word alone. */
  ghost predicate Encodes(bytes: seq<byte>, word: seq<byte>) {
    && |bytes| == 4
    && bytes[0] < 128 <= bytes[2]
    && forall k :: 0 <= k < 6 ==> FieldOf(bytes, k) == if k < |WordSpelled(word)| then WordSpelled(word)[k] else 5
  }

  lemma PackedFields(c0: zchar, c1: zchar, c2: zchar, last: bool)
    ensures var w := PackWord(c0, c1, c2) + if last then 0x8000 else 0;
            && FiveBits(w, 0) == c0 && FiveBits(w, 1) == c1 && FiveBits(w, 2) == c2
            && w < 0x1_0000 && (Hi(w) >= 128 <==> last) && Pair(Hi(w), Lo(w)) == w
  {
    PackInverse(c0, c1, c2);
  }

  lemma SixEncoded(c: seq<zchar>, k: nat)
    requires |c| == 6 && k < 6
    ensures FieldOf(PackSix(c), k) == c[k]
    ensures PackSix(c)[0] < 128 <= PackSix(c)[2]
  {
    hide PackWord, FiveBits, Pair, Hi, Lo;
    PackedFields(c[0], c[1], c[2], false);
    PackedFields(c[3], c[4], c[5], true);
  }

  /** A word is encoded as section 3.7 says. */
  lemma WordIsEncoded(word: seq<byte>)
    ensures Encodes(EncodedWord(word), word)
  {
    WordIsSpelled(word);
    hide PackSix, FieldOf, WordChars, WordSpelled;
    forall k | 0 <= k < 6 ensures FieldOf(EncodedWord(word), k) == if k < |WordSpelled(word)| then WordSpelled(word)[k] else 5 {
      SixEncoded(SixChars(word), k);
    }
    SixEncoded(SixChars(word), 0);
  }

  lemma WordOfFields(a0: byte, a1: byte, b0: byte, b1: byte)
    requires forall j :: 0 <= j < 3 ==> FiveBits(Pair(a0, a1), j) == FiveBits(Pair(b0, b1), j)
    requires a0 >= 128 <==> b0 >= 128
    ensures a0 == b0 && a1 == b1
  {
    var x, y := Pair(a0, a1), Pair(b0, b1);
    assert FiveBits(x, 0) == FiveBits(y, 0) && FiveBits(x, 1) == FiveBits(y, 1) && FiveBits(x, 2) == FiveBits(y, 2);
    WordsOfFields(x, y);
  }

  lemma WordsOfFields(x: nat, y: nat)
    requires x / 1024 % 32 == y / 1024 % 32 && x / 32 % 32 == y / 32 % 32 && x % 32 == y % 32
    requires x < 0x1_0000 && y < 0x1_0000 && (x >= 0x8000 <==> y >= 0x8000)
    ensures x == y
  {
    assert x / 1024 == x / 32 / 32 && y / 1024 == y / 32 / 32;
    assert x / 1024 < 64 && y / 1024 < 64;
    assert x / 1024 == y / 1024;
  }

  /** Nothing else encodes it so. */
  lemma EncodingIsUnique(a: seq<byte>, b: seq<byte>, word: seq<byte>)
    requires Encodes(a, word) && Encodes(b, word)
    ensures a == b
  {
    hide WordSpelled, FiveBits, Pair;
    forall j | 0 <= j < 3 ensures FiveBits(Pair(a[0], a[1]), j) == FiveBits(Pair(b[0], b[1]), j) {
      assert FieldOf(a, j) == FieldOf(b, j);
    }
    forall j | 0 <= j < 3 ensures FiveBits(Pair(a[2], a[3]), j) == FiveBits(Pair(b[2], b[3]), j) {
      assert FieldOf(a, j + 3) == FieldOf(b, j + 3);
    }
    WordOfFields(a[0], a[1], b[0], b[1]);
    WordOfFields(a[2], a[3], b[2], b[3]);
  }

  // ----- looking up a typed word -----

  /** A dictionary: a count of separators and the separators; the length of an entry, at least
      four; the number of entries, and the entries. */
  lemma DictionaryLies(m: Mem, a: nat)
    requires DictionaryAt(m, a).Ok? && a + 1 < m.Size()
    ensures var d, n := DictionaryAt(m, a).value, m.Get(a) as nat;
            && a + 4 + n <= m.Size()
            && |d.separators| == n && (forall i :: 0 <= i < n ==> d.separators[i] == m.Get(a + 1 + i))
            && d.entryLength == m.Get(a + 1 + n) >= 4
            && d.count == Pair(m.Get(a + 2 + n), m.Get(a + 3 + n)) < 0x8000
            && d.entries == a + 4 + n && d.entries + d.count * d.entryLength <= m.Size()
  {
    var d := DictionaryAt(m, a).value;
    ExtentIsProduct(d.count, d.entryLength);
  }

  /** The first four bytes of entry `i`. */
  function EntryBytes(m: Mem, d: Dictionary, i: nat): (bytes: seq<byte>)
    requires d.Inside(m) && i < d.count
    ensures |bytes| == 4
  {
    EntryPlace(m, d, i);
    var a := d.entries + i * d.entryLength;
    [m.Get(a), m.Get(a + 1), m.Get(a + 2), m.Get(a + 3)]
  }

  lemma EntryPlace(m: Mem, d: Dictionary, i: nat)
    requires d.Inside(m) && i < d.count
    ensures EntryAddressOf(d, i) == d.entries + i * d.entryLength && d.entries + i * d.entryLength + 4 <= m.Size()
  {
    EntryInside(m, d, i);
    ExtentIsProduct(i, d.entryLength);
  }

  function Quad(bytes: seq<byte>): nat
    requires |bytes| == 4
  {
    Pair(bytes[0], bytes[1]) * 0x1_0000 + Pair(bytes[2], bytes[3])
  }

  /** The entries are in ascending order of their bytes. */
  ghost predicate Ascending(m: Mem, d: Dictionary)
    requires d.Inside(m)
  {
    forall i, j :: 0 <= i < j < d.count ==> Quad(EntryBytes(m, d, i)) < Quad(EntryBytes(m, d, j))
  }

  lemma EntryIsQuad(m: Mem, d: Dictionary, i: nat)
    requires d.Inside(m) && i < d.count
    ensures EntryNumber(m, d, i) == Quad(EntryBytes(m, d, i))
  {
    hide Dictionary.Inside;
    EntryPlace(m, d, i);
    EntryInside(m, d, i);
  }

  lemma NumberIsQuad(bytes: seq<byte>)
    requires |bytes| == 4
    ensures Number(bytes) == Quad(bytes)
  {
  }

  lemma QuadsDiffer(a: seq<byte>, b: seq<byte>)
    requires |a| == 4 && |b| == 4 && Quad(a) == Quad(b)
    ensures a == b
  {
    assert Pair(a[2], a[3]) < 0x1_0000 && Pair(b[2], b[3]) < 0x1_0000;
    assert Pair(a[0], a[1]) == Pair(b[0], b[1]) && Pair(a[2], a[3]) == Pair(b[2], b[3]);
    assert a[0] == b[0] && a[2] == b[2];
  }

  /** Looking up the encoding of a word in a sorted dictionary finds the entry that encodes
      it, if there is one, and gives 0 if there is none. */
  lemma LookupFinds(m: Mem, d: Dictionary, word: seq<byte>, i: nat)
    requires d.Inside(m) && Ascending(m, d) && d.entries > 0
    requires i <= d.count && (i < d.count ==> Encodes(EntryBytes(m, d, i), word))
    requires i == d.count ==> forall k :: 0 <= k < d.count ==> !Encodes(EntryBytes(m, d, k), word)
    ensures Lookup(m, d, EncodedWord(word)) ==
            if i == d.count then Ok(0)
            else if d.entries + i * d.entryLength > 0xffff then Err(ExecutionFault)
            else Ok(d.entries + i * d.entryLength)
  {
    hide Dictionary.Inside, EncodedWord, Encodes, EntryBytes, Quad, EntryNumber, Chop, FirstMatch;
    var target := Number(EncodedWord(word));
    NumberIsQuad(EncodedWord(word));
    WordIsEncoded(word);
    assert Sorted(m, d) by {
      forall a, b | 0 <= a < b < d.count ensures EntryNumber(m, d, a) < EntryNumber(m, d, b) {
        EntryIsQuad(m, d, a);
        EntryIsQuad(m, d, b);
      }
    }
    forall k | 0 <= k < d.count && EntryNumber(m, d, k) == target ensures Encodes(EntryBytes(m, d, k), word) {
      EntryIsQuad(m, d, k);
      QuadsDiffer(EntryBytes(m, d, k), EncodedWord(word));
    }
    SearchAgrees(m, d, target);
    if i < d.count {
      EncodingIsUnique(EntryBytes(m, d, i), EncodedWord(word), word);
      EntryIsQuad(m, d, i);
      EntryPlace(m, d, i);
    }
  }

  /** A read that succeeds has looked up every word it recorded. */
  lemma {:induction false} BlocksLookedUp(m0: Mem, m: Mem, parse: nat, d: Dictionary, words: seq<InputWord>, written: nat, max: nat, k: nat)
    requires d.Inside(m0) && d.Inside(m) && SameEntries(m0, m, d)
    requires forall j :: 0 <= j < |words| ==> words[j].End() < 0xff
    requires k < |words| && written + k < max && BlocksWritten(m, parse, d, words, written, max).Done?
    requires parse + PARSE_HEADER + (written + k) * PARSE_ENTRY <= d.entries || DictionaryEnd(d) <= parse
    ensures Lookup(m0, d, EncodedWord(words[k].text)).Ok?
    decreases k
  {
    hide Lookup, EncodedWord, BlockWritten, BlockOf, Dictionary.Inside, DictionaryEnd, SameEntries;
    LookupSame(m0, m, d, EncodedWord(words[0].text));
    if k > 0 {
      var entry := Lookup(m, d, EncodedWord(words[0].text)).value;
      var at := parse + PARSE_HEADER + written * PARSE_ENTRY;
      BlockLength(entry, words[0]);
      BlockExact(m, at, entry, words[0]);
      var m1 := BlockWritten(m, at, entry, words[0]).state;
      EntriesUntouched(m0, m, m1, d, at, at + PARSE_ENTRY);
      BlocksLookedUp(m0, m1, parse, d, words[1..], written + 1, max, k - 1);
    }
  }

  lemma {:induction false} BlockThere(m: Mem, d: Dictionary, words: seq<InputWord>, k: nat)
    requires d.Inside(m) && k < |words| && forall j :: 0 <= j < |words| ==> words[j].End() < 0xff
    requires Lookup(m, d, EncodedWord(words[k].text)).Ok?
    ensures var bytes, entry := BlockBytes(m, d, words), Lookup(m, d, EncodedWord(words[k].text)).value;
            && Pair(bytes[4 * k], bytes[4 * k + 1]) == entry
            && bytes[4 * k + 2] == |words[k].text| && bytes[4 * k + 3] == words[k].start + 1
    decreases k
  {
    hide Lookup, EncodedWord, Dictionary.Inside;
    var found := Lookup(m, d, EncodedWord(words[0].text));
    var block := BlockOf(if found.Ok? then found.value else 0, words[0]);
    assert BlockBytes(m, d, words) == block + BlockBytes(m, d, words[1..]);
    if k > 0 {
      BlockThere(m, d, words[1..], k - 1);
      assert forall i :: 4 <= i < 4 * |words| ==> BlockBytes(m, d, words)[i] == BlockBytes(m, d, words[1..])[i - 4];
    }
  }

  /** The parse buffer after a read: the number of words recorded, and for each of them the
      address of the entry that encodes it (0 if none does), its length, and where in the text
      buffer it starts. */
  lemma ReadFinds(m: Mem, dictionary: nat, t: nat, p: nat, line: Str, lower: rune -> rune,
                  d: Dictionary, text: seq<byte>, words: seq<InputWord>, n: nat, k: nat, i: nat)
    requires m.Readable(t, 1) && m.Readable(p, 1) && DictionaryAt(m, dictionary) == Ok(d) && Ascending(m, d)
    requires LineRead(m, dictionary, t, p, line, lower).Done? && LineStored(m, t, line, lower).value == text
    requires words == Tokens(text, d.separators, 0) && n == Min(|words|, m.Get(p)) && k < n
    requires Apart(m, dictionary, t, |text|, p, n)
    requires i <= d.count && (i < d.count ==> Encodes(EntryBytes(m, d, i), words[k].text))
    requires i == d.count ==> forall e :: 0 <= e < d.count ==> !Encodes(EntryBytes(m, d, e), words[k].text)
    ensures p + 2 + 4 * k + 4 <= |m.dynamic| && SameShape(m, LineRead(m, dictionary, t, p, line, lower).state)
    ensures var m', a := LineRead(m, dictionary, t, p, line, lower).state, p + 2 + 4 * k;
            && m'.Get(p + 1) == n
            && Pair(m'.Get(a), m'.Get(a + 1)) == (if i == d.count then 0 else d.entries + i * d.entryLength)
            && m'.Get(a + 2) == |words[k].text| && m'.Get(a + 3) == words[k].start + 1
  {
    hide LineStored, Tokenised, Tokens, DictionaryAt, Lookup, Encodes, EntryBytes, EncodedWord, BlockBytes, Typed, Dictionary.Inside;
    hide Apart, Pair, BuffersFilled, Ascending, Mem.Get, WithBytes;
    LineStoredParts(m, t, line, lower);
    ReadExactly(m, dictionary, t, p, line, lower, d, text, words, n);
    EntriesFollow(m, dictionary);
    LookedUp(m, dictionary, t, p, line, lower, d, text, words, n, k);
    LookupFinds(m, d, words[k].text, i);
    BlockThere(m, d, words[..n], k);
    BlocksInPlace(m, t, text, p, n, BlockBytes(m, d, words[..n]), 4 * k);
  }

  lemma LookedUp(m: Mem, dictionary: nat, t: nat, p: nat, line: Str, lower: rune -> rune,
                 d: Dictionary, text: seq<byte>, words: seq<InputWord>, n: nat, k: nat)
    requires m.Readable(t, 1) && m.Readable(p, 1) && DictionaryAt(m, dictionary) == Ok(d)
    requires LineRead(m, dictionary, t, p, line, lower).Done? && LineStored(m, t, line, lower).value == text
    requires words == Tokens(text, d.separators, 0) && n == Min(|words|, m.Get(p)) && k < n
    requires Apart(m, dictionary, t, |text|, p, n)
    ensures Lookup(m, d, EncodedWord(words[k].text)).Ok?
  {
    hide DictionaryAt, LineStored, Tokens, Typed, BlocksWritten, WithBytes, Dictionary.Inside, Lookup, EncodedWord, DictionaryEnd;
    LineStoredParts(m, t, line, lower);
    var m1 := WithBytes(m, t + 1, text + [0]);
    DictionarySame(m, m1, dictionary, t + 1, t + 1 + |text| + 1);
    EntriesFollow(m, dictionary);
    TokensFit(text, d.separators);
    BlocksLookedUp(m, m1, p, d, words, 0, m.Get(p), k);
  }

  lemma BlocksInPlace(m: Mem, t: nat, text: seq<byte>, p: nat, n: byte, blocks: seq<byte>, at: nat)
    requires m.Writable(t + 1, |text| + 1) && m.Writable(p + 1, 1 + |blocks|) && at + 4 <= |blocks|
    ensures var m' := BuffersFilled(m, t, text, p, n, blocks);
            && SameShape(m, m') && m'.Get(p + 1) == n
            && m'.Get(p + 2 + at) == blocks[at] && m'.Get(p + 3 + at) == blocks[at + 1]
            && m'.Get(p + 4 + at) == blocks[at + 2] && m'.Get(p + 5 + at) == blocks[at + 3]
  {
    hide WithBytes, Mem.Get;
    var m1, bytes := WithBytes(m, t + 1, text + [0]), [n] + blocks;
    ByteThere(m1, p + 1, bytes, 0);
    ByteThere(m1, p + 1, bytes, at + 1);
    ByteThere(m1, p + 1, bytes, at + 2);
    ByteThere(m1, p + 1, bytes, at + 3);
    ByteThere(m1, p + 1, bytes, at + 4);
  }

  lemma ByteThere(m: Mem, addr: nat, bytes: seq<byte>, i: nat)
    requires m.Writable(addr, |bytes|) && i < |bytes|
    ensures WithBytes(m, addr, bytes).Get(addr + i) == bytes[i]
  {
  }

  // ----- a line that is one word -----

  /** The line types exactly this word, of characters that are neither spaces nor
      separators. */
  ghost predicate TypesWord(line: Str, lower: rune -> rune, separators: seq<byte>, word: seq<byte>) {
    && |line| == |word| > 0
    && forall j :: 0 <= j < |word| ==> FromRune(lower(line[j])) == Some(word[j]) && word[j] > 32 && word[j] !in separators
  }

  lemma {:induction false} WordTyped(line: Str, lower: rune -> rune, word: seq<byte>, room: nat)
    requires |line| == |word| <= room
    requires forall j :: 0 <= j < |word| ==> FromRune(lower(line[j])) == Some(word[j]) && word[j] >= 32
    ensures Typed(line, lower, room) == word
    decreases |line|
  {
    hide FromRune;
    if line != [] {
      assert forall j :: 0 <= j < |word[1..]| ==> word[1..][j] == word[j + 1] && line[1..][j] == line[j + 1];
      WordTyped(line[1..], lower, word[1..], room - 1);
      assert [word[0]] + word[1..] == word;
    }
  }

  lemma WordTokens(word: seq<byte>, separators: seq<byte>)
    requires word != [] && forall j :: 0 <= j < |word| ==> word[j] > 32 && word[j] !in separators
    ensures Tokens(word, separators, 0) == [InputWord(0, word)]
  {
    assert forall j :: 0 <= j < |word| ==> IsLetter(separators, word[j]);
    assert WordEnd(word, separators, 1) == |word|;
    assert word[0..|word|] == word && Tokens(word, separators, |word|) == [];
  }

  /** A line that is one word, read with room for it: the parse buffer holds one block, with
      the address of the entry that encodes the word, or 0 if the dictionary has none. */
  lemma WordIsFound(m: Mem, dictionary: nat, t: nat, p: nat, line: Str, lower: rune -> rune, d: Dictionary, word: seq<byte>, i: nat)
    requires m.Readable(t, 1) && m.Readable(p, 1) && DictionaryAt(m, dictionary) == Ok(d) && Ascending(m, d)
    requires LineRead(m, dictionary, t, p, line, lower).Done?
    requires TypesWord(line, lower, d.separators, word) && |word| < m.Get(t) && Apart(m, dictionary, t, |word|, p, 1)
    requires i <= d.count && (i < d.count ==> Encodes(EntryBytes(m, d, i), word))
    requires i == d.count ==> forall e :: 0 <= e < d.count ==> !Encodes(EntryBytes(m, d, e), word)
    ensures p + 6 <= |m.dynamic| && SameShape(m, LineRead(m, dictionary, t, p, line, lower).state)
    ensures var m' := LineRead(m, dictionary, t, p, line, lower).state;
            && m'.Get(p + 1) == 1
            && Pair(m'.Get(p + 2), m'.Get(p + 3)) == (if i == d.count then 0 else d.entries + i * d.entryLength)
            && m'.Get(p + 4) == |word| && m'.Get(p + 5) == 1
  {
    hide Tokens, DictionaryAt, Lookup, Encodes, EntryBytes, Ascending, Typed, FromRune, LineStored, Tokenised, WithBytes, Dictionary.Inside;
    LineStoredParts(m, t, line, lower);
    WordTyped(line, lower, word, m.Get(t) - 1);
    WordTokens(word, d.separators);
    RoomForOne(m, dictionary, t, p, line, lower, word);
    ReadFinds(m, dictionary, t, p, line, lower, d, word, [InputWord(0, word)], 1, 0, i);
  }

  lemma RoomForOne(m: Mem, dictionary: nat, t: nat, p: nat, line: Str, lower: rune -> rune, word: seq<byte>)
    requires m.Readable(t, 1) && m.Readable(p, 1) && LineRead(m, dictionary, t, p, line, lower).Done?
    requires LineStored(m, t, line, lower).value == word && m.Writable(t + 1, |word| + 1)
    requires LineStored(m, t, line, lower).state == WithBytes(m, t + 1, word + [0])
    requires t + 1 + |word| + 1 <= p || p < t + 1
    ensures m.Get(p) >= 1
  {
    hide DictionaryAt, LineStored, Tokens, BlocksWritten;
    BytesThere(m, t + 1, word + [0]);
  }

  /** Analysing a line is refused unless the parse buffer has room for a word, which its first
      byte says, and lies in dynamic memory. */
  lemma ParseRefused(m: Mem, dictionary: nat, p: nat, text: seq<byte>)
    requires Tokenised(m, dictionary, p, text).Done?
    ensures p + 2 <= |m.dynamic| && m.Get(p) >= 1
  {
    hide DictionaryAt, Tokens, BlocksWritten;
  }

  lemma NoRoomToParse(m: Mem, dictionary: nat, p: nat, text: seq<byte>)
    requires DictionaryAt(m, dictionary).Ok? && p < m.Size() && m.Get(p) == 0
    ensures Tokenised(m, dictionary, p, text) == Fail(m, ExecutionFault)
  {
    hide DictionaryAt, Tokens, BlocksWritten;
  }
}
