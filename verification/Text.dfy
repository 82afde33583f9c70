/** ZSCII and Z-strings (zscii.go, text.go): section 3 of the Z-Machine Standards
    Document 1.1. Text is a sequence of Unicode code points. */
module Text {
  import opened Words
  import opened Memory

  type rune = nat
  type Str = seq<rune>
  type zchar = x: int | 0 <= x < 32

  const ZSCII_NEWLINE := 13
  const ZSCII_SPACE := 32
  const ZSCII_TILDE := 126
  const ZSCII_EXTRA_FIRST := 155
  const ABBREVIATION_COUNT := 96

  /** The default Unicode translation of ZSCII codes 155 to 223. */
  const UNICODE_TABLE: seq<rune> := [
    0x0e4, 0x0f6, 0x0fc, 0x0c4, 0x0d6, 0x0dc, 0x0df, 0x0bb,
    0x0ab, 0x0eb, 0x0ef, 0x0ff, 0x0cb, 0x0cf, 0x0e1, 0x0e9,
    0x0ed, 0x0f3, 0x0fa, 0x0fd, 0x0c1, 0x0c9, 0x0cd, 0x0d3,
    0x0da, 0x0dd, 0x0e0, 0x0e8, 0x0ec, 0x0f2, 0x0f9, 0x0c0,
    0x0c8, 0x0cc, 0x0d2, 0x0d9, 0x0e2, 0x0ea, 0x0ee, 0x0f4,
    0x0fb, 0x0c2, 0x0ca, 0x0ce, 0x0d4, 0x0db, 0x0e5, 0x0c5,
    0x0f8, 0x0d8, 0x0e3, 0x0f1, 0x0f5, 0x0c3, 0x0d1, 0x0d5,
    0x0e6, 0x0c6, 0x0e7, 0x0c7, 0x0fe, 0x0f0, 0x0de, 0x0d0,
    0x0a3, 0x153, 0x152, 0x0a1, 0x0bf
  ]

  /** The third alphabet: Z-characters 6 to 31. Position 0 is the ten-bit escape and is
      never looked up; position 1 is a new-line. */
  const ALPHABET_A2: seq<byte> := [
    0, 13, 48, 49, 50, 51, 52, 53, 54, 55, 56, 57, 46, 44, 33, 63, 95, 35, 39, 34, 47, 92,
    45, 58, 40, 41
  ]

  /** The code point a ZSCII code prints as, if it prints at all. */
  function OutputRune(code: nat): Option<rune> {
    if code == ZSCII_NEWLINE then Some(10)
    else if ZSCII_SPACE <= code <= ZSCII_TILDE then Some(code)
    else if ZSCII_EXTRA_FIRST <= code < ZSCII_EXTRA_FIRST + |UNICODE_TABLE| then
      Some(UNICODE_TABLE[code - ZSCII_EXTRA_FIRST])
    else None
  }

  /** The text one ZSCII code adds to a decoded string (appendZSCII). */
  function Printed(code: nat): Str {
    match OutputRune(code)
    case Some(r) => [r]
    case None => []
  }

  /** The first position at or after `i` of a rune in the Unicode table. */
  function TableIndex(r: rune, i: nat): (at: Option<nat>)
    requires i <= |UNICODE_TABLE|
    ensures at.Some? ==> i <= at.value < |UNICODE_TABLE| && UNICODE_TABLE[at.value] == r
    decreases |UNICODE_TABLE| - i
  {
    if i == |UNICODE_TABLE| then None
    else if UNICODE_TABLE[i] == r then Some(i)
    else TableIndex(r, i + 1)
  }

  /** The ZSCII code of a character the host supplies, if ZSCII has one. */
  function FromRune(r: rune): Option<byte> {
    if r == 10 || r == 13 then Some(ZSCII_NEWLINE)
    else if ZSCII_SPACE <= r <= ZSCII_TILDE then Some(r)
    else if r == 8 || r == 27 then Some(r)
    else match TableIndex(r, 0)
         case Some(i) => var code: byte := ZSCII_EXTRA_FIRST + i; Some(code)
         case None => None
  }

  /** The ZSCII code of Z-character `z` (6 to 31) in alphabet 0, 1 or 2. */
  function AlphabetCode(alphabet: nat, z: zchar): byte
    requires alphabet <= 2 && 6 <= z
  {
    if alphabet == 0 then 'a' as int + z - 6
    else if alphabet == 1 then 'A' as int + z - 6
    else ALPHABET_A2[z - 6]
  }

  // ----- unpacking words into Z-characters -----

  function Unpack(w: word): seq<zchar> {
    [(w / 1024) % 32, (w / 32) % 32, w % 32]
  }

  function UnpackAll(ws: seq<word>): (chars: seq<zchar>)
    ensures |chars| == 3 * |ws|
  {
    if ws == [] then [] else Unpack(ws[0]) + UnpackAll(ws[1..])
  }

  lemma {:induction false} UnpackAllSnoc(ws: seq<word>, w: word)
    ensures UnpackAll(ws + [w]) == UnpackAll(ws) + Unpack(w)
  {
    if ws == [] {
      assert UnpackAll([w]) == Unpack(w) + UnpackAll([]);
    } else {
      assert (ws + [w])[1..] == ws[1..] + [w];
      UnpackAllSnoc(ws[1..], w);
    }
  }

  /** The words of the string at `at`, up to and including the first word with its top bit
      set; None when memory ends first. */
  function ScanWords(m: Mem, at: nat): (r: Option<seq<word>>)
    ensures r.Some? ==> |r.value| > 0 && at + 2 * |r.value| <= m.Size()
    decreases m.Size() - at
  {
    if !m.Readable(at, 2) then None
    else
      var w := m.GetWord(at);
      if w >= 0x8000 then Some([w])
      else Scanned([w], ScanWords(m, at + 2))
  }

  /** The Z-characters of the string at `addr` and the address after it. */
  function ZCharsAt(m: Mem, addr: nat): Result<(seq<zchar>, nat)> {
    if !m.Readable(addr, 2) then Err(MemoryAccess)
    else match ScanWords(m, addr)
         case None => Err(InvalidText)
         case Some(ws) => Ok((UnpackAll(ws), addr + 2 * |ws|))
  }

  /** What scanning from `addr` gives once `ws`, none of them final, has been read. */
  function Scanned(ws: seq<word>, r: Option<seq<word>>): Option<seq<word>> {
    match r
    case None => None
    case Some(rest) => Some(ws + rest)
  }

  lemma ScannedNothing(r: Option<seq<word>>)
    ensures Scanned([], r) == r
  {
    if r.Some? {
      assert [] + r.value == r.value;
    }
  }

  lemma ScannedMore(ws: seq<word>, w: word, r: Option<seq<word>>)
    ensures Scanned(ws, Scanned([w], r)) == Scanned(ws + [w], r)
  {
    if r.Some? {
      assert ws + ([w] + r.value) == ws + [w] + r.value;
    }
  }

  method ReadZChars(m: Mem, addr: nat) returns (r: Result<(seq<zchar>, nat)>)
    ensures r == ZCharsAt(m, addr)
  {
    hide Unpack, Mem.GetWord;
    var chars: seq<zchar> := [];
    ghost var ws: seq<word> := [];
    var at := addr;
    ScannedNothing(ScanWords(m, at));
    while true
      invariant at == addr + 2 * |ws|
      invariant ws != [] ==> m.Readable(addr, 2)
      invariant chars == UnpackAll(ws)
      invariant ScanWords(m, addr) == Scanned(ws, ScanWords(m, at))
      decreases m.Size() - at
    {
      if !m.Readable(at, 2) {
        return if at == addr then Err(MemoryAccess) else Err(InvalidText);
      }
      var w := m.GetWord(at);
      UnpackAllSnoc(ws, w);
      chars := chars + Unpack(w);
      if w >= 0x8000 {
        return Ok((chars, at + 2));
      }
      ScannedMore(ws, w, ScanWords(m, at + 2));
      ws := ws + [w];
      at := at + 2;
    }
  }

  /** The same reading over a plain run of bytes (unpackZChars). */
  function ScanBytes(data: seq<byte>): Option<seq<word>> {
    if |data| < 2 then None
    else
      var w := Join(data[0], data[1]);
      if w >= 0x8000 then Some([w])
      else Scanned([w], ScanBytes(data[2..]))
  }

  method UnpackZChars(data: seq<byte>) returns (r: Result<(seq<zchar>, nat)>)
    ensures r == match ScanBytes(data)
                 case None => Err(InvalidText)
                 case Some(ws) => Ok((UnpackAll(ws), |ws| + |ws|))
  {
    var chars: seq<zchar> := [];
    ghost var ws: seq<word> := [];
    var i := 0;
    assert data[0..] == data;
    ScannedNothing(ScanBytes(data));
    while i + 2 <= |data|
      invariant i == 2 * |ws| <= |data|
      invariant chars == UnpackAll(ws)
      invariant ScanBytes(data) == Scanned(ws, ScanBytes(data[i..]))
    {
      var w := Join(data[i], data[i + 1]);
      UnpackAllSnoc(ws, w);
      chars := chars + Unpack(w);
      if w >= 0x8000 {
        return Ok((chars, i + 2));
      }
      assert data[i..][2..] == data[i + 2..];
      ScannedMore(ws, w, ScanBytes(data[i + 2..]));
      ws := ws + [w];
      i := i + 2;
    }
    return Err(InvalidText);
  }

  /** The bytes at `addr` to `addr + length` - 1. */
  function Slice(m: Mem, addr: nat, length: nat): (data: seq<byte>)
    requires m.Readable(addr, length)
    ensures |data| == length
    ensures forall k :: 0 <= k < length ==> data[k] == m.Get(addr + k)
  {
    seq<byte>(length, k requires 0 <= k < length => m.Get(addr + k))
  }

  /** The two readers agree: a run of bytes copied out of memory unpacks to exactly the
      string in memory at that address, and fails to exactly when that string does not end
      within the run. */
  lemma {:induction false} ReadersAgree(m: Mem, addr: nat, data: seq<byte>)
    requires m.Readable(addr, |data|) && forall k :: 0 <= k < |data| ==> data[k] == m.Get(addr + k)
    ensures ScanBytes(data) ==
            match ScanWords(m, addr)
            case None => None
            case Some(ws) => if 2 * |ws| <= |data| then Some(ws) else None
    decreases |data|
  {
    if |data| >= 2 && m.GetWord(addr) < 0x8000 {
      ReadersAgree(m, addr + 2, data[2..]);
    }
  }

  // ----- Z-characters into text -----

  function Prepend(head: Str, r: Result<Str>): Result<Str> {
    match r
    case Ok(t) => Ok(head + t)
    case Err(e) => Err(e)
  }

  /** The text of a run of Z-characters, read one construction at a time. `abbrevs` is the
      address of the abbreviations table (0 if absent) and `allow` says whether this text
      may use abbreviations: the text of an abbreviation may not. */
  function ReadText(m: Mem, abbrevs: nat, chars: seq<zchar>, allow: bool): Result<Str>
    decreases if allow then 2 else 0, |chars|
  {
    if chars == [] then Ok([])
    else
      var z: int := chars[0];
      if z == 0 then Prepend([ZSCII_SPACE], ReadText(m, abbrevs, chars[1..], allow))
      else if z <= 3 then
        if !allow then Err(InvalidText)
        else if |chars| == 1 then Ok([])
        else
          var t :- AbbreviationText(m, abbrevs, AbbreviationIndex(chars[0], chars[1]));
          Prepend(t, ReadText(m, abbrevs, chars[2..], allow))
      else if z <= 5 then
        if |chars| == 1 || chars[1] < 6 then ReadText(m, abbrevs, chars[1..], allow)
        else if z == 5 && chars[1] == 6 then
          if |chars| < 4 then Ok([])
          else Prepend(Printed(TenBits(chars[2], chars[3])), ReadText(m, abbrevs, chars[4..], allow))
        else Prepend(Printed(AlphabetCode(z - 3, chars[1])), ReadText(m, abbrevs, chars[2..], allow))
      else Prepend(Printed(AlphabetCode(0, chars[0])), ReadText(m, abbrevs, chars[1..], allow))
  }

  function TenBits(top: zchar, bottom: zchar): nat {
    top as int * 32 + bottom as int
  }

  function AbbreviationIndex(z: zchar, x: zchar): nat
    requires 1 <= z <= 3
  {
    (z as int - 1) * 32 + x as int
  }

  /** Entry `index` of the abbreviations table. */
  function AbbreviationText(m: Mem, abbrevs: nat, index: nat): Result<Str>
    decreases 1, 0
  {
    if abbrevs == 0 || index >= ABBREVIATION_COUNT then Err(InvalidText)
    else
      var w :- m.ReadWord(abbrevs + 2 * index);
      var (chars, _) :- ZCharsAt(m, ExpandWordAddress(w));
      ReadText(m, abbrevs, chars, false)
  }

  /** What the decoding loop still owes once `out` has been printed and the Z-characters
      `pending` have been consumed without printing anything yet. */
  predicate Owes(m: Mem, abbrevs: nat, chars: seq<zchar>, allow: bool, out: Str, rest: seq<zchar>) {
    ReadText(m, abbrevs, chars, allow) == Prepend(out, ReadText(m, abbrevs, rest, allow))
  }

  lemma OwesMore(m: Mem, abbrevs: nat, chars: seq<zchar>, allow: bool, out: Str, rest: seq<zchar>,
                 head: Str, rest': seq<zchar>)
    requires Owes(m, abbrevs, chars, allow, out, rest)
    requires ReadText(m, abbrevs, rest, allow) == Prepend(head, ReadText(m, abbrevs, rest', allow))
    ensures Owes(m, abbrevs, chars, allow, out + head, rest')
  {
    if ReadText(m, abbrevs, rest', allow).Ok? {
      var t := ReadText(m, abbrevs, rest', allow).value;
      assert out + (head + t) == out + head + t;
    }
  }

  datatype Expecting = Nothing | Abbreviation | EscapeTop | EscapeBottom

  /** The Z-characters behind a decoder state: what was consumed but has printed nothing. */
  function Pending(state: Expecting, alphabet: nat, block: nat, top: zchar): seq<zchar>
    requires alphabet <= 2 && block <= 2
  {
    match state
    case Nothing => if alphabet == 0 then [] else [alphabet + 3]
    case Abbreviation => [block + 1]
    case EscapeTop => [5, 6]
    case EscapeBottom => [5, 6, top]
  }

  lemma PrependNothing(r: Result<Str>)
    ensures Prepend([], r) == r
  {
    if r.Ok? {
      assert [] + r.value == r.value;
    }
  }

  /** One turn of the loop: reading `z` with the given state behind it prints `head` and
      leaves `pending'` consumed. */
  ghost predicate Turn(m: Mem, abbrevs: nat, allow: bool, pending: seq<zchar>, z: zchar, later: seq<zchar>,
                 head: Str, pending': seq<zchar>) {
    ReadText(m, abbrevs, pending + ([z] + later), allow) ==
    Prepend(head, ReadText(m, abbrevs, pending' + later, allow))
  }

  lemma TurnInConstruction(m: Mem, abbrevs: nat, state: Expecting, block: nat, top: zchar, z: zchar,
                           later: seq<zchar>, allow: bool)
    requires state != Nothing && block <= 2
    ensures state == Abbreviation && allow ==>
              var r := AbbreviationText(m, abbrevs, AbbreviationIndex(block + 1, z));
              if r.Ok? then Turn(m, abbrevs, allow, [block + 1], z, later, r.value, [])
              else ReadText(m, abbrevs, [block + 1] + ([z] + later), allow) == r
    ensures state == EscapeTop ==> Turn(m, abbrevs, allow, [5, 6], z, later, [], [5, 6, z])
    ensures state == EscapeBottom ==> Turn(m, abbrevs, allow, [5, 6, top], z, later, Printed(TenBits(top, z)), [])
  {
    var before := Pending(state, 0, block, top) + ([z] + later);
    assert [] + later == later;
    PrependNothing(ReadText(m, abbrevs, before, allow));
    match state {
      case Abbreviation =>
        assert before[0] == block + 1 && before[1] == z && before[2..] == later;
      case EscapeTop =>
        assert before == [5, 6, z] + later;
      case EscapeBottom =>
        assert before[0] == 5 && before[1] == 6 && before[2] == top && before[3] == z && before[4..] == later;
    }
  }

  lemma TurnNeutral(m: Mem, abbrevs: nat, alphabet: nat, z: zchar, later: seq<zchar>, allow: bool)
    requires alphabet <= 2
    ensures var p := Pending(Nothing, alphabet, 0, 0);
            if z == 0 then Turn(m, abbrevs, allow, p, z, later, [ZSCII_SPACE], [])
            else if z <= 3 then
              if allow then Turn(m, abbrevs, allow, p, z, later, [], [z])
              else ReadText(m, abbrevs, p + ([z] + later), allow) == Err(InvalidText)
            else if z <= 5 then Turn(m, abbrevs, allow, p, z, later, [], [z])
            else if alphabet == 2 && z == 6 then Turn(m, abbrevs, allow, p, z, later, [], [5, 6])
            else Turn(m, abbrevs, allow, p, z, later, Printed(AlphabetCode(alphabet, z)), [])
  {
    var p := Pending(Nothing, alphabet, 0, 0);
    var before := p + ([z] + later);
    assert [] + later == later;
    PrependNothing(ReadText(m, abbrevs, [z] + later, allow));
    assert ([z] + later)[0] == z && ([z] + later)[1..] == later;
    if alphabet == 0 {
      assert before == [z] + later;
    } else {
      assert before[0] == alphabet + 3 && before[1] == z;
      assert before[1..] == [z] + later && before[2..] == later;
      if alphabet == 2 && z == 6 {
        PrependNothing(ReadText(m, abbrevs, before, allow));
        assert before == [5, 6] + later;
      }
    }
  }

  lemma PendingPrintsNothing(m: Mem, abbrevs: nat, state: Expecting, alphabet: nat, block: nat, top: zchar, allow: bool)
    requires alphabet <= 2 && block <= 2
    requires state == Abbreviation ==> allow
    ensures ReadText(m, abbrevs, Pending(state, alphabet, block, top), allow) == Ok([])
  {
    if state == Nothing && alphabet != 0 {
      assert Pending(state, alphabet, block, top)[1..] == [];
    }
  }

  /** decodeZText: one pass with a construction state and a one-character shift. */
  method DecodeZText(m: Mem, abbrevs: nat, chars: seq<zchar>, allow: bool) returns (r: Result<Str>)
    ensures r == ReadText(m, abbrevs, chars, allow)
    decreases if allow then 2 else 0
  {
    hide ReadText;
    var out: Str := [];
    var state := Nothing;
    var alphabet: nat, block: nat := 0, 0;
    var top: zchar := 0;
    assert [] + chars[0..] == chars;
    PrependNothing(ReadText(m, abbrevs, chars, allow));
    for i := 0 to |chars|
      invariant alphabet <= 2 && block <= 2
      invariant state != Nothing ==> alphabet == 0
      invariant state == Abbreviation ==> allow
      invariant Owes(m, abbrevs, chars, allow, out, Pending(state, alphabet, block, top) + chars[i..])
    {
      var z := chars[i];
      ghost var owed := Pending(state, alphabet, block, top) + chars[i..];
      ghost var before, head: Str := out, [];
      ghost var later := chars[i + 1..];
      assert chars[i..] == [z] + later;
      if state == Nothing {
        TurnNeutral(m, abbrevs, alphabet, z, later, allow);
      } else {
        TurnInConstruction(m, abbrevs, state, block, top, z, later, allow);
      }
      match state {
        case Abbreviation =>
          state := Nothing;
          var text := DecodeAbbreviation(m, abbrevs, AbbreviationIndex(block + 1, z));
          if text.Err? {
            return text;
          }
          out := out + text.value;
          head := text.value;
        case EscapeTop =>
          state, top := EscapeBottom, z;
        case EscapeBottom =>
          state := Nothing;
          out := out + Printed(TenBits(top, z));
          head := Printed(TenBits(top, z));
        case Nothing =>
          var current := alphabet;
          alphabet := 0;
          if z == 0 {
            out := out + [ZSCII_SPACE];
            head := [ZSCII_SPACE];
          } else if z <= 3 {
            if !allow {
              return Err(InvalidText);
            }
            state, block := Abbreviation, z - 1;
          } else if z == 4 {
            alphabet := 1;
          } else if z == 5 {
            alphabet := 2;
          } else if current == 2 && z == 6 {
            state := EscapeTop;
          } else {
            out := out + Printed(AlphabetCode(current, z));
            head := Printed(AlphabetCode(current, z));
          }
      }
      assert out == before + head;
      OwesMore(m, abbrevs, chars, allow, before, owed, head, Pending(state, alphabet, block, top) + later);
    }
    PendingPrintsNothing(m, abbrevs, state, alphabet, block, top, allow);
    assert Pending(state, alphabet, block, top) + chars[|chars|..] == Pending(state, alphabet, block, top);
    assert out + [] == out;
    return Ok(out);
  }

  method DecodeAbbreviation(m: Mem, abbrevs: nat, index: nat) returns (r: Result<Str>)
    ensures r == AbbreviationText(m, abbrevs, index)
    decreases 1
  {
    if abbrevs == 0 || index >= ABBREVIATION_COUNT {
      return Err(InvalidText);
    }
    var w :- m.ReadWord(abbrevs + 2 * index);
    var zstring :- ReadZChars(m, ExpandWordAddress(w));
    r := DecodeZText(m, abbrevs, zstring.0, false);
  }

  // ----- laws of decoding -----

  function Append(a: Result<Str>, b: Result<Str>): Result<Str> {
    match a
    case Ok(t) => Prepend(t, b)
    case Err(e) => Err(e)
  }

  /** The length of the longest prefix that ends outside any construction, with no shift
      still waiting for its character. */
  function Settled(chars: seq<zchar>): (k: nat)
    ensures k <= |chars|
  {
    if chars == [] then 0
    else if chars[0] == 0 || chars[0] >= 6 then 1 + Settled(chars[1..])
    else if chars[0] <= 3 then if |chars| < 2 then 0 else 2 + Settled(chars[2..])
    else if |chars| < 2 then 0
    else if chars[1] < 6 then
      var k := Settled(chars[1..]);
      if k == 0 then 0 else 1 + k
    else if chars[0] == 5 && chars[1] == 6 then if |chars| < 4 then 0 else 4 + Settled(chars[4..])
    else 2 + Settled(chars[2..])
  }

  lemma PrependAppend(head: Str, a: Result<Str>, b: Result<Str>)
    ensures Append(Prepend(head, a), b) == Prepend(head, Append(a, b))
  {
    if a.Ok? && b.Ok? {
      assert head + a.value + b.value == head + (a.value + b.value);
    }
  }

  /** The number of Z-characters the first construction of a text takes, when it is whole. */
  function FirstLength(chars: seq<zchar>): (n: nat)
    requires chars != []
    ensures n > 0
  {
    if chars[0] == 0 || chars[0] >= 6 then 1
    else if chars[0] <= 3 then 2
    else if |chars| < 2 || chars[1] < 6 then 1
    else if chars[0] == 5 && chars[1] == 6 then 4
    else 2
  }

  /** What the first construction prints, when it is whole. */
  function FirstText(m: Mem, abbrevs: nat, chars: seq<zchar>, allow: bool): Result<Str>
    requires chars != [] && FirstLength(chars) <= |chars|
  {
    var z: int := chars[0];
    if z == 0 then Ok([ZSCII_SPACE])
    else if z >= 6 then Ok(Printed(AlphabetCode(0, chars[0])))
    else if z <= 3 then
      if allow then AbbreviationText(m, abbrevs, AbbreviationIndex(chars[0], chars[1])) else Err(InvalidText)
    else if |chars| < 2 || chars[1] < 6 then Ok([])
    else if z == 5 && chars[1] == 6 then Ok(Printed(TenBits(chars[2], chars[3])))
    else Ok(Printed(AlphabetCode(z - 3, chars[1])))
  }

  /** Reading peels off one construction at a time. */
  lemma ReadFirst(m: Mem, abbrevs: nat, chars: seq<zchar>, allow: bool)
    requires chars != [] && FirstLength(chars) <= |chars|
    ensures ReadText(m, abbrevs, chars, allow) ==
            Append(FirstText(m, abbrevs, chars, allow),
                   ReadText(m, abbrevs, chars[FirstLength(chars)..], allow))
  {
    PrependNothing(ReadText(m, abbrevs, chars[1..], allow));
  }

  lemma FirstOfConcat(m: Mem, abbrevs: nat, a: seq<zchar>, b: seq<zchar>, allow: bool)
    requires a != [] && Settled(a) == |a|
    ensures var n := FirstLength(a);
            && n <= |a| && FirstLength(a + b) == n && (a + b)[n..] == a[n..] + b
            && Settled(a[n..]) == |a[n..]|
            && FirstText(m, abbrevs, a + b, allow) == FirstText(m, abbrevs, a, allow)
  {
  }

  /** Decoding a concatenation is the concatenation of the decodings, whenever the first
      part ends outside any construction. */
  lemma {:induction false} ReadConcat(m: Mem, abbrevs: nat, a: seq<zchar>, b: seq<zchar>, allow: bool)
    requires Settled(a) == |a|
    ensures ReadText(m, abbrevs, a + b, allow) ==
            Append(ReadText(m, abbrevs, a, allow), ReadText(m, abbrevs, b, allow))
    decreases |a|
  {
    if a == [] {
      assert a + b == b;
      PrependNothing(ReadText(m, abbrevs, b, allow));
    } else {
      var n := FirstLength(a);
      var c := a + b;
      FirstOfConcat(m, abbrevs, a, b, allow);
      hide ReadText, FirstText, FirstLength, Settled;
      ReadFirst(m, abbrevs, a, allow);
      ReadFirst(m, abbrevs, c, allow);
      ReadConcat(m, abbrevs, a[n..], b, allow);
      var first := FirstText(m, abbrevs, a, allow);
      if first.Ok? {
        PrependAppend(first.value, ReadText(m, abbrevs, a[n..], allow), ReadText(m, abbrevs, b, allow));
      }
    }
  }

  lemma SettledFirst(chars: seq<zchar>)
    requires Settled(chars) > 0
    ensures var n := FirstLength(chars); n <= Settled(chars) == n + Settled(chars[n..])
  {
  }

  lemma SettledWithin(chars: seq<zchar>, k: nat)
    requires 0 < k == Settled(chars)
    requires var n := FirstLength(chars); n <= k && Settled(chars[n..][..k - n]) == k - n
    ensures Settled(chars[..k]) == k
  {
    var n := FirstLength(chars);
    assert chars[..k][n..] == chars[n..][..k - n];
  }

  lemma {:induction false} SettledPrefix(chars: seq<zchar>)
    ensures var k := Settled(chars);
            Settled(chars[..k]) == k && Settled(chars[k..]) == 0
    decreases |chars|
  {
    var k := Settled(chars);
    if k == 0 {
      assert chars[..k] == [] && chars[k..] == chars;
    } else {
      hide Settled;
      var n := FirstLength(chars);
      SettledFirst(chars);
      SettledPrefix(chars[n..]);
      SettledWithin(chars, k);
      assert chars[k..] == chars[n..][k - n..];
    }
  }

  lemma {:induction false} UnsettledPrintsNothing(m: Mem, abbrevs: nat, chars: seq<zchar>)
    requires Settled(chars) == 0
    ensures ReadText(m, abbrevs, chars, true) == Ok([])
    decreases |chars|
  {
    if |chars| >= 2 && chars[0] >= 4 && chars[1] < 6 {
      UnsettledPrintsNothing(m, abbrevs, chars[1..]);
    }
  }

  /** An incomplete construction at the end of a string prints nothing: the text is that of
      the longest settled prefix. */
  lemma IncompleteTailPrintsNothing(m: Mem, abbrevs: nat, chars: seq<zchar>)
    ensures ReadText(m, abbrevs, chars, true) == ReadText(m, abbrevs, chars[..Settled(chars)], true)
  {
    var k := Settled(chars);
    SettledPrefix(chars);
    UnsettledPrintsNothing(m, abbrevs, chars[k..]);
    assert chars[..k] + chars[k..] == chars;
    ReadConcat(m, abbrevs, chars[..k], chars[k..], true);
    var front := ReadText(m, abbrevs, chars[..k], true);
    if front.Ok? {
      assert front.value + [] == front.value;
    }
  }

  /** Abbreviations do not nest: an entry whose own text reaches an abbreviation
      Z-character outside a construction is refused, whatever follows it. */
  lemma AbbreviationsDoNotNest(m: Mem, abbrevs: nat, before: seq<zchar>, z: zchar, after: seq<zchar>)
    requires Settled(before) == |before| && 1 <= z <= 3
    ensures ReadText(m, abbrevs, before + ([z] + after), false).Err?
  {
    ReadConcat(m, abbrevs, before, [z] + after, false);
  }

  // ----- strings in memory -----

  /** The text of the string at `addr` (print_addr, print_paddr). */
  function StringAt(m: Mem, abbrevs: nat, addr: nat): Result<Str> {
    var (chars, _) :- ZCharsAt(m, addr);
    ReadText(m, abbrevs, chars, true)
  }

  method DecodeStringAt(m: Mem, abbrevs: nat, addr: nat) returns (r: Result<Str>)
    ensures r == StringAt(m, abbrevs, addr)
  {
    hide ReadText;
    var chars :- ReadZChars(m, addr);
    r := DecodeZText(m, abbrevs, chars.0, true);
  }
}
