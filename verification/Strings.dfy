/** Z-strings, said of their bits and of what they spell (section 3 of the Z-Machine Standards
    Document 1.1). */
module Strings {
  import opened Words
  import opened Memory
  import opened Text
  import opened Output
  import opened Spelling

  // ----- from bytes to Z-characters -----

  /** `chars` is the string at `addr`: three Z-characters to each 16-bit word, from its top,
      and the top bit set in the last word alone. */
  ghost predicate StringLies(m: Mem, addr: nat, chars: seq<zchar>)
    decreases |chars|
  {
    && |chars| >= 3 && addr + 1 < m.Size()
    && var w := Pair(m.Get(addr), m.Get(addr + 1));
       && (forall j :: 0 <= j < 3 ==> chars[j] == FiveBits(w, j))
       && (w >= 0x8000 <==> |chars| == 3)
       && (|chars| > 3 ==> StringLies(m, addr + 2, chars[3..]))
  }

  /** The string at an address reads as its Z-characters, and ends behind its last word. */
  lemma {:induction false} StringReads(m: Mem, addr: nat, chars: seq<zchar>)
    requires StringLies(m, addr, chars)
    ensures ZCharsAt(m, addr) == Ok((chars, addr + 2 * (|chars| / 3)))
    decreases |chars|
  {
    hide FiveBits, Pair, Unpack, Mem.GetWord, Mem.Get, ZCharsAt;
    var w := m.GetWord(addr);
    WordIsPair(m, addr);
    WordUnpacks(w, chars);
    if |chars| > 3 {
      StringReads(m, addr + 2, chars[3..]);
      ZCharsGoOn(m, addr, chars[3..], addr + 2 + 2 * (|chars[3..]| / 3));
      assert chars == chars[..3] + chars[3..];
    } else {
      ZCharsEnd(m, addr);
      assert chars == chars[..3];
    }
  }

  lemma WordIsPair(m: Mem, addr: nat)
    requires addr + 1 < m.Size()
    ensures m.GetWord(addr) as nat == Pair(m.Get(addr), m.Get(addr + 1))
  {
  }

  lemma ScansOn(m: Mem, addr: nat)
    requires addr + 1 < m.Size()
    ensures ScanWords(m, addr) ==
            if m.GetWord(addr) >= 0x8000 then Some([m.GetWord(addr)]) else Scanned([m.GetWord(addr)], ScanWords(m, addr + 2))
  {
    hide Mem.GetWord;
  }

  lemma ZCharsGoOn(m: Mem, addr: nat, rest: seq<zchar>, end: nat)
    requires addr + 1 < m.Size() && m.GetWord(addr) < 0x8000 && ZCharsAt(m, addr + 2) == Ok((rest, end))
    ensures ZCharsAt(m, addr) == Ok((Unpack(m.GetWord(addr)) + rest, end))
  {
    hide Unpack, UnpackAll, Mem.GetWord, ScanWords;
    ScansOn(m, addr);
    UnpackMore(m.GetWord(addr), ScanWords(m, addr + 2).value);
  }

  lemma ZCharsEnd(m: Mem, addr: nat)
    requires addr + 1 < m.Size() && m.GetWord(addr) >= 0x8000
    ensures ZCharsAt(m, addr) == Ok((Unpack(m.GetWord(addr)), addr + 2))
  {
    var w := m.GetWord(addr);
    hide Unpack, Mem.GetWord, ScanWords;
    ScansOn(m, addr);
    UnpackOne(w);
  }

  lemma UnpackOne(w: word)
    ensures UnpackAll([w]) == Unpack(w)
  {
    assert [w][1..] == [];
    hide Unpack;
  }

  lemma WordUnpacks(w: word, chars: seq<zchar>)
    requires |chars| >= 3 && forall j :: 0 <= j < 3 ==> chars[j] == FiveBits(w, j)
    ensures Unpack(w) == chars[..3]
  {
    assert chars[0] == FiveBits(w, 0) && chars[1] == FiveBits(w, 1) && chars[2] == FiveBits(w, 2);
  }

  lemma UnpackMore(w: word, ws: seq<word>)
    ensures UnpackAll([w] + ws) == Unpack(w) + UnpackAll(ws)
  {
    assert ([w] + ws)[1..] == ws;
  }

  /** print_addr and print_paddr decode exactly those. */
  lemma StringIsText(m: Mem, abbrevs: nat, addr: nat, chars: seq<zchar>)
    requires StringLies(m, addr, chars)
    ensures StringAt(m, abbrevs, addr) == ReadText(m, abbrevs, chars, true)
  {
    StringReads(m, addr, chars);
    hide ReadText, UnpackAll, ScanWords;
  }

  // ----- from Z-characters to text -----

  /** How a character is spelled: a space by 0, lower-case letters by their place in the first
      alphabet, upper-case ones by a shift 4, what the third alphabet has by a shift 5, and any
      other by its two five-bit halves after 5 6. */
  function CharSpelled(r: rune): seq<zchar>
    requires r == 10 || 32 <= r <= 126
  {
    if r == 32 then [0]
    else if 97 <= r <= 122 then [r - 91]
    else if 65 <= r <= 90 then [4, r - 59]
    else if r == 10 then [5, 7]
    else match Place(r)
         case Some(z) => [5, z]
         case None => [5, 6, r / 32, r % 32]
  }

  ghost predicate Plain(text: Str) {
    forall i :: 0 <= i < |text| ==> text[i] == 10 || 32 <= text[i] <= 126
  }

  function TextSpelled(text: Str): seq<zchar>
    requires Plain(text)
  {
    if text == [] then [] else CharSpelled(text[0]) + TextSpelled(text[1..])
  }

  lemma PlaceIsLarge(r: byte)
    requires Place(r).Some? && r != 13
    ensures 8 <= Place(r).value && |ALPHABET_A2| == 26 && ALPHABET_A2[Place(r).value - 6] == r
  {
    EntryOfPlace(r);
  }

  lemma ShiftReads(m: Mem, abbrevs: nat, shift: zchar, z: zchar, rest: seq<zchar>, allow: bool)
    requires (shift == 4 || shift == 5) && z >= 6 && !(shift == 5 && z == 6)
    ensures ReadText(m, abbrevs, [shift, z] + rest, allow) ==
            Prepend(Printed(AlphabetCode(shift - 3, z)), ReadText(m, abbrevs, rest, allow))
  {
    var all := [shift, z] + rest;
    assert all[2..] == rest && all[0] == shift && all[1] == z;
    hide AlphabetCode, Printed, AbbreviationText;
  }

  lemma EscapeReads(m: Mem, abbrevs: nat, top: zchar, bottom: zchar, rest: seq<zchar>, allow: bool)
    ensures ReadText(m, abbrevs, [5, 6, top, bottom] + rest, allow) ==
            Prepend(Printed(32 * top as nat + bottom as nat), ReadText(m, abbrevs, rest, allow))
  {
    var all := [5, 6, top, bottom] + rest;
    assert all[4..] == rest && all[0] == 5 && all[1] == 6 && all[2] == top && all[3] == bottom;
    hide AlphabetCode, Printed, AbbreviationText;
  }

  lemma LetterReads(m: Mem, abbrevs: nat, z: zchar, rest: seq<zchar>, allow: bool)
    requires z == 0 || z >= 6
    ensures ReadText(m, abbrevs, [z] + rest, allow) ==
            Prepend(if z == 0 then [32] else Printed(z + 91), ReadText(m, abbrevs, rest, allow))
  {
    var all := [z] + rest;
    assert all[1..] == rest && all[0] == z;
    hide Printed, AbbreviationText;
  }

  /** One character, and what follows it. */
  lemma CharReads(m: Mem, abbrevs: nat, r: rune, rest: seq<zchar>, allow: bool)
    requires r == 10 || 32 <= r <= 126
    ensures ReadText(m, abbrevs, CharSpelled(r) + rest, allow) == Prepend([r], ReadText(m, abbrevs, rest, allow))
  {
    hide ReadText, AbbreviationText;
    if r != 10 {
      assert Printed(r) == [r];
    }
    if r == 32 || 97 <= r <= 122 {
      LetterReads(m, abbrevs, if r == 32 then 0 else r - 91, rest, allow);
    } else if 65 <= r <= 90 {
      ShiftReads(m, abbrevs, 4, r - 59, rest, allow);
    } else if r == 10 {
      assert ALPHABET_A2[1] == 13 && Printed(13) == [10];
      ShiftReads(m, abbrevs, 5, 7, rest, allow);
    } else if Place(r).Some? {
      PlaceIsLarge(r);
      ShiftReads(m, abbrevs, 5, Place(r).value, rest, allow);
    } else {
      EscapeReads(m, abbrevs, r / 32, r % 32, rest, allow);
    }
  }

  /** Any text of printable ASCII characters and new-lines, spelled so, decodes to itself. */
  lemma {:induction false} TextReads(m: Mem, abbrevs: nat, text: Str, allow: bool)
    requires Plain(text)
    ensures ReadText(m, abbrevs, TextSpelled(text), allow) == Ok(text)
    decreases |text|
  {
    hide CharSpelled;
    if text != [] {
      TextReads(m, abbrevs, text[1..], allow);
      CharReads(m, abbrevs, text[0], TextSpelled(text[1..]), allow);
      hide ReadText;
      assert [text[0]] + text[1..] == text;
    }
  }

  /** Z-characters 1 to 3 stand, with the one behind them, for a string whose address is twice
      the word in that place of the abbreviations table; it may hold none itself. */
  lemma AbbreviationReads(m: Mem, abbrevs: nat, z: zchar, x: zchar, rest: seq<zchar>, chars: seq<zchar>, end: nat)
    requires 1 <= z <= 3 && abbrevs > 0
    requires var entry := abbrevs + 2 * (32 * (z - 1) + x);
             entry + 1 < m.Size() && ZCharsAt(m, 2 * Pair(m.Get(entry), m.Get(entry + 1))) == Ok((chars, end))
    ensures var inner := ReadText(m, abbrevs, chars, false);
            ReadText(m, abbrevs, [z, x] + rest, true) ==
            if inner.Ok? then Prepend(inner.value, ReadText(m, abbrevs, rest, true)) else inner
  {
    hide ZCharsAt, ReadText, Pair, AbbreviationText;
    AbbreviationOpens(m, abbrevs, z, x, rest);
    AbbreviationIs(m, abbrevs, 32 * (z - 1) + x, chars, end);
  }

  lemma AbbreviationOpens(m: Mem, abbrevs: nat, z: zchar, x: zchar, rest: seq<zchar>)
    requires 1 <= z <= 3
    ensures var inner := AbbreviationText(m, abbrevs, 32 * (z - 1) + x);
            ReadText(m, abbrevs, [z, x] + rest, true) ==
            if inner.Ok? then Prepend(inner.value, ReadText(m, abbrevs, rest, true)) else inner
  {
    var all := [z, x] + rest;
    assert all[2..] == rest && all[0] == z && all[1] == x;
    hide AbbreviationText, Printed, AlphabetCode;
  }

  lemma AbbreviationIs(m: Mem, abbrevs: nat, index: nat, chars: seq<zchar>, end: nat)
    requires abbrevs > 0 && index < ABBREVIATION_COUNT
    requires var entry := abbrevs + 2 * index;
             entry + 1 < m.Size() && ZCharsAt(m, 2 * Pair(m.Get(entry), m.Get(entry + 1))) == Ok((chars, end))
    ensures AbbreviationText(m, abbrevs, index) == ReadText(m, abbrevs, chars, false)
  {
    hide ZCharsAt, ReadText, Mem.GetWord, Pair;
    WordIsPair(m, abbrevs + 2 * index);
  }

  /** ZSCII and the characters the host uses agree wherever a code can be shown. */
  lemma ZsciiShows(r: rune)
    requires FromRune(r).Some? && FromRune(r).value >= 32
    ensures OutputRune(FromRune(r).value) == Some(r)
  {
    assert |UNICODE_TABLE| == 69;
    hide UNICODE_TABLE;
  }

  /** The ZSCII code of a character (section 3.8): 13 for a new-line, printable ASCII, delete and
      escape for themselves, and 155 and up for those of the Unicode table. */
  lemma CodeOfCharacter(r: rune)
    ensures r == 10 || r == 13 ==> FromRune(r) == Some(13)
    ensures 32 <= r <= 126 || r == 8 || r == 27 ==> FromRune(r) == Some(r)
    ensures r > 126 && FromRune(r).Some? ==>
              155 <= FromRune(r).value < 155 + |UNICODE_TABLE| && UNICODE_TABLE[FromRune(r).value - 155] == r
    ensures FromRune(r).None? ==> forall i :: 0 <= i < |UNICODE_TABLE| ==> UNICODE_TABLE[i] != r
  {
    assert |UNICODE_TABLE| == 69;
    RuneAbsent(r, 0);
    hide UNICODE_TABLE, TableIndex;
  }

  lemma {:induction false} RuneAbsent(r: rune, i: nat)
    requires i <= |UNICODE_TABLE|
    ensures TableIndex(r, i).None? ==> forall k :: i <= k < |UNICODE_TABLE| ==> UNICODE_TABLE[k] != r
    decreases |UNICODE_TABLE| - i
  {
    hide UNICODE_TABLE;
    if i < |UNICODE_TABLE| {
      RuneAbsent(r, i + 1);
    }
  }

  /** In a table of stream 3 a character without a code becomes a question mark. */
  lemma TableCharacter(r: rune)
    ensures TableCode(r) == if FromRune(r).Some? then FromRune(r).value else 63
  {
    hide FromRune;
  }
}
