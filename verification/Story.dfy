/** Loading a story file (story.go): section 11.1 of the Z-Machine Standards Document 1.1.
    What a loaded story guarantees, every later bounds argument rests on. */
module StoryFile {
  import opened Words
  import opened Memory
  import opened Text
  import opened Dictionary

  const HDR_VERSION := 0x00
  const HDR_RELEASE := 0x02
  const HDR_HIGH_BASE := 0x04
  const HDR_INITIAL_PC := 0x06
  const HDR_DICTIONARY := 0x08
  const HDR_OBJECT_TABLE := 0x0a
  const HDR_GLOBALS := 0x0c
  const HDR_STATIC_BASE := 0x0e
  const HDR_SERIAL := 0x12
  const HDR_ABBREVIATIONS := 0x18
  const HDR_FILE_LENGTH := 0x1a
  const HDR_CHECKSUM := 0x1c

  const VERSION_3: byte := 3
  const FILE_LENGTH_SCALE := 2
  const CHECKSUM_BASE := 0x40

  function Field(data: seq<byte>, offset: nat): word
    requires offset + 1 < |data|
  {
    Join(data[offset], data[offset + 1])
  }

  /** The length of the image: what the header declares, or everything when it declares
      nothing. */
  function ImageLength(data: seq<byte>): nat
    requires |data| >= HEADER_SIZE
  {
    if Field(data, HDR_FILE_LENGTH) == 0 then |data| else Field(data, HDR_FILE_LENGTH) * FILE_LENGTH_SCALE
  }

  function ByteSum(bytes: seq<byte>): nat {
    if bytes == [] then 0 else ByteSum(bytes[..|bytes| - 1]) + bytes[|bytes| - 1]
  }

  /** The sum of the bytes after the header, modulo 0x10000. */
  function Checksum(image: seq<byte>): word {
    if |image| <= CHECKSUM_BASE then 0 else ByteSum(image[CHECKSUM_BASE..]) % 0x1_0000
  }

  /** The story a file describes, whether or not it is a sound one. */
  function StoryOf(data: seq<byte>): Story
    requires |data| >= HEADER_SIZE && ImageLength(data) <= |data|
  {
    var image := data[..ImageLength(data)];
    Story(image, data[HDR_FLAGS1], Field(data, HDR_RELEASE), data[HDR_SERIAL..HDR_SERIAL + 6], Field(data, HDR_CHECKSUM),
          Checksum(image), Field(data, HDR_STATIC_BASE), Field(data, HDR_HIGH_BASE), Field(data, HDR_INITIAL_PC),
          Field(data, HDR_DICTIONARY), Field(data, HDR_OBJECT_TABLE), Field(data, HDR_GLOBALS), Field(data, HDR_ABBREVIATIONS))
  }

  /** The files that are stories: a Version 3 header, a whole image, tables where they must
      be, and a dictionary that the run-time lookup can read. */
  ghost predicate IsStory(data: seq<byte>) {
    && HEADER_SIZE <= |data| <= MAX_STORY_LENGTH
    && data[HDR_VERSION] == VERSION_3
    && ImageLength(data) <= |data|
    && StoryOf(data).Valid()
    && DictionaryAt(Mem([], data[..ImageLength(data)]), Field(data, HDR_DICTIONARY)).Ok?
  }

  /** The story a file describes if it is one, and otherwise the one error loading has. */
  ghost function Loaded(data: seq<byte>): Reply<Story> {
    if IsStory(data) then Accepted(StoryOf(data)) else Rejected(InvalidStory)
  }

  method ComputeChecksum(image: seq<byte>) returns (sum: word)
    ensures sum == Checksum(image)
  {
    sum := 0;
    if |image| <= CHECKSUM_BASE {
      return;
    }
    var body := image[CHECKSUM_BASE..];
    for i := 0 to |body|
      invariant sum == ByteSum(body[..i]) % 0x1_0000
    {
      assert body[..i + 1][..i] == body[..i];
      sum := (sum + body[i]) % 0x1_0000;
    }
    assert body[..|body|] == body;
  }

  /** validateDictionary. */
  method ValidateDictionary(image: seq<byte>, addr: nat) returns (ok: bool)
    ensures ok == (addr >= HEADER_SIZE && DictionaryAt(Mem([], image), addr).Ok?)
  {
    hide Slice;
    if addr < HEADER_SIZE || addr >= |image| {
      return false;
    }
    var separators: nat := image[addr];
    var headerEnd: nat := addr + 1 + separators + 1 + 2;
    if headerEnd > |image| {
      return false;
    }
    var entryLength: nat := image[addr + 1 + separators];
    if entryLength < DICTIONARY_ENTRY_LENGTH_MIN {
      return false;
    }
    var count := Signed(Join(image[addr + 1 + separators + 1], image[addr + 1 + separators + 2]));
    if count < 0 {
      return false;
    }
    ExtentIsProduct(count, entryLength);
    return headerEnd + count * entryLength <= |image|;
  }

  /** LoadStory accepts exactly the story files and gives the story they describe; anything
      else is refused as an invalid story. */
  method LoadStory(data: seq<byte>) returns (r: Reply<Story>)
    ensures r == Loaded(data)
  {
    hide DictionaryAt, Checksum, Join;
    if |data| < HEADER_SIZE || |data| > MAX_STORY_LENGTH || data[HDR_VERSION] != VERSION_3 {
      return Rejected(InvalidStory);
    }
    var length := ImageLength(data);
    if length > |data| {
      return Rejected(InvalidStory);
    }
    var image := data[..length];
    var computed := ComputeChecksum(image);
    var staticBase, highBase := Field(data, HDR_STATIC_BASE), Field(data, HDR_HIGH_BASE);
    if staticBase < HEADER_SIZE || staticBase > length || highBase < staticBase || highBase > length {
      return Rejected(InvalidStory);
    }
    var initialPC := Field(data, HDR_INITIAL_PC);
    if initialPC < HEADER_SIZE || initialPC >= length {
      return Rejected(InvalidStory);
    }
    var objectTable := Field(data, HDR_OBJECT_TABLE);
    if objectTable < HEADER_SIZE || objectTable + PROPERTY_DEFAULTS_SIZE > staticBase {
      return Rejected(InvalidStory);
    }
    var globals := Field(data, HDR_GLOBALS);
    if globals < HEADER_SIZE || globals + GLOBALS_TABLE_SIZE > staticBase {
      return Rejected(InvalidStory);
    }
    var abbreviations := Field(data, HDR_ABBREVIATIONS);
    if abbreviations != 0 && (abbreviations < HEADER_SIZE || abbreviations + ABBREVIATIONS_TABLE_SIZE > length) {
      return Rejected(InvalidStory);
    }
    var dictionary := Field(data, HDR_DICTIONARY);
    var ok := ValidateDictionary(image, dictionary);
    if !ok {
      return Rejected(InvalidStory);
    }
    ReadInside(Mem([], image), dictionary);
    return Accepted(Story(image, data[HDR_FLAGS1], Field(data, HDR_RELEASE), data[HDR_SERIAL..HDR_SERIAL + 6],
                    Field(data, HDR_CHECKSUM), computed, staticBase, highBase, initialPC, dictionary, objectTable, globals,
                    abbreviations));
  }

  lemma ReadInside(m: Mem, addr: nat)
    requires DictionaryAt(m, addr).Ok?
    ensures addr < m.Size()
  {
    hide Slice;
  }

  /** Two memories of the same contents have the same dictionary. */
  lemma DictionaryUnchanged(m: Mem, m': Mem, addr: nat)
    requires m.Size() == m'.Size() && forall a: nat :: addr <= a < m.Size() ==> m'.Get(a) == m.Get(a)
    ensures DictionaryAt(m', addr) == DictionaryAt(m, addr)
  {
    if m.Readable(addr, 1) {
      var n := m.Get(addr);
      if m.Readable(addr + 1, n) {
        assert Slice(m', addr + 1, n) == Slice(m, addr + 1, n);
      }
    }
    hide Slice, Mem.Get, Extent, Join;
  }

  /** So the dictionary checked in the file is the one read from the initial memory. */
  lemma ReadsAlike(image: seq<byte>, base: nat, addr: nat)
    requires base <= |image|
    ensures DictionaryAt(Mem(image[..base], image[base..]), addr) == DictionaryAt(Mem([], image), addr)
  {
    DictionaryUnchanged(Mem([], image), Mem(image[..base], image[base..]), addr);
  }

  /** The dictionary of a loaded story reads the same whatever the story writes if and only
      if it lies outside dynamic memory. Loading does not demand that it lie there; one write
      to its first byte is enough to change it. */
  lemma StaticDictionaryIsSafe(story: Story)
    requires story.Valid() && DictionaryAt(InitialMem(story), story.dictionary).Ok?
    ensures (forall m :: SameShape(InitialMem(story), m) ==>
                DictionaryAt(m, story.dictionary) == DictionaryAt(InitialMem(story), story.dictionary))
            <==> story.dictionary >= story.staticBase
  {
    var m0, addr := InitialMem(story), story.dictionary;
    if addr >= story.staticBase {
      forall m | SameShape(m0, m) ensures DictionaryAt(m, addr) == DictionaryAt(m0, addr) {
        DictionaryUnchanged(m0, m, addr);
      }
    } else {
      var n := m0.Get(addr);
      var m := m0.Put(addr, if n == 0 then 1 else 0);
      assert m.Get(addr) != n;
      SeparatorCount(m0, addr);
      SeparatorCount(m, addr);
      hide DictionaryAt;
      assert DictionaryAt(m, addr) != DictionaryAt(m0, addr);
    }
  }

  lemma SeparatorCount(m: Mem, addr: nat)
    requires addr < m.Size()
    ensures DictionaryAt(m, addr).Ok? ==> |DictionaryAt(m, addr).value.separators| == m.Get(addr)
  {
    hide Extent, Join;
  }

  /** Where a story file says what: the release at $02, high memory at $04, the first
      instruction at $06, the dictionary at $08, the objects at $0a, the globals at $0c, static
      memory at $0e, the serial number at $12, the abbreviations at $18, half its length at
      $1a and its checksum at $1c. */
  lemma HeaderFields(data: seq<byte>)
    requires 64 <= |data| && ImageLength(data) <= |data|
    ensures var story := StoryOf(data);
            && story.flags1 == data[1] && story.release == data[2] as int * 256 + data[3] as int
            && story.highBase == data[4] as int * 256 + data[5] as int && story.initialPC == data[6] as int * 256 + data[7] as int
            && story.dictionary == data[8] as int * 256 + data[9] as int
            && story.objectTable == data[10] as int * 256 + data[11] as int
            && story.globals == data[12] as int * 256 + data[13] as int
            && story.staticBase == data[14] as int * 256 + data[15] as int && story.serial == data[18..24]
            && story.abbreviations == data[24] as int * 256 + data[25] as int
            && story.checksum == data[28] as int * 256 + data[29] as int
            && story.image == data[..ImageLength(data)] && story.computed == Checksum(story.image)
    ensures var half := data[26] as int * 256 + data[27] as int;
            ImageLength(data) == if half == 0 then |data| else 2 * half
  {
    hide Checksum;
  }

  /** The bounds a sound story keeps: at most 128K; static memory behind the header, then high
      memory; the 62 bytes of property defaults and the 480 of globals in dynamic memory; and
      the first instruction, the dictionary and any 192 bytes of abbreviations inside. */
  lemma SoundStory(story: Story)
    ensures story.Valid() <==>
            && |story.image| <= 131072 && story.staticBase < 65536
            && 64 <= story.staticBase <= story.highBase <= |story.image|
            && 64 <= story.initialPC < |story.image|
            && 64 <= story.objectTable && story.objectTable + 62 <= story.staticBase
            && 64 <= story.globals && story.globals + 480 <= story.staticBase
            && (story.abbreviations != 0 ==> 64 <= story.abbreviations && story.abbreviations + 192 <= |story.image|)
            && 64 <= story.dictionary < |story.image|
  {
  }

  /** The sum of the bytes from address `a` on. */
  function SumFrom(image: seq<byte>, a: nat): nat
    decreases |image| - a
  {
    if a >= |image| then 0 else image[a] as nat + SumFrom(image, a + 1)
  }

  lemma {:induction false} SumIs(bytes: seq<byte>, image: seq<byte>, a: nat)
    requires a <= |image| && bytes == image[a..]
    ensures ByteSum(bytes) == SumFrom(image, a)
    decreases |bytes|
  {
    if bytes != [] {
      SumIs(image[a + 1..], image, a + 1);
      SumFirst(bytes);
      assert bytes[1..] == image[a + 1..];
    }
  }

  lemma {:induction false} SumFirst(bytes: seq<byte>)
    requires bytes != []
    ensures ByteSum(bytes) == bytes[0] as nat + ByteSum(bytes[1..])
    decreases |bytes|
  {
    var n := |bytes| - 1;
    if n > 0 {
      SumFirst(bytes[..n]);
      assert bytes[..n][1..] == bytes[1..][..n - 1] && bytes[1..][n - 1] == bytes[n];
    } else {
      assert bytes[..n] == [] && bytes[1..] == [];
    }
  }

  /** The checksum sums the bytes from address 64 on, modulo 65536. */
  lemma ChecksumIs(image: seq<byte>)
    ensures Checksum(image) == SumFrom(image, 64) % 65536
  {
    if |image| > 64 {
      SumIs(image[64..], image, 64);
    }
  }
}
