/** Story memory: one address space made of a private dynamic part and a shared read-only
    part (memory.go), and the validated header of the story it belongs to (story.go). */
module Memory {
  import opened Words

  const HEADER_SIZE := 64
  const MAX_STORY_LENGTH := 128 * 1024
  const ADDRESS_SPACE_LIMIT := MAX_STORY_LENGTH
  const PROPERTY_DEFAULTS_SIZE := 31 * 2
  const GLOBALS_TABLE_SIZE := 240 * 2
  const ABBREVIATIONS_TABLE_SIZE := 96 * 2
  const DICTIONARY_ENTRY_LENGTH_MIN := 4

  const HDR_FLAGS1 := 0x01
  const HDR_FLAGS2 := 0x10

  datatype Story = Story(
    image: seq<byte>,
    flags1: byte,
    release: word,
    serial: seq<byte>,
    checksum: word,
    computed: word,
    staticBase: nat,
    highBase: nat,
    initialPC: nat,
    dictionary: nat,
    objectTable: nat,
    globals: nat,
    abbreviations: nat)
  {
    /** What a loaded story guarantees; every later bounds argument rests on it. */
    ghost predicate Valid() {
      && |image| <= MAX_STORY_LENGTH
      && HEADER_SIZE <= staticBase <= highBase <= |image|
      && staticBase < 0x1_0000
      && HEADER_SIZE <= initialPC < |image|
      && HEADER_SIZE <= objectTable
      && objectTable + PROPERTY_DEFAULTS_SIZE <= staticBase
      && HEADER_SIZE <= globals
      && globals + GLOBALS_TABLE_SIZE <= staticBase
      && (abbreviations != 0 ==>
            HEADER_SIZE <= abbreviations && abbreviations + ABBREVIATIONS_TABLE_SIZE <= |image|)
      && HEADER_SIZE <= dictionary < |image|
    }
  }

  /** One machine's view of memory: addresses below `|dynamic|` are writable, the rest of
      the story image follows them. */
  datatype Mem = Mem(dynamic: seq<byte>, shared: seq<byte>) {
    function Size(): nat { |dynamic| + |shared| }

    predicate Readable(addr: nat, width: nat) { addr + width <= Size() }

    predicate Writable(addr: nat, width: nat) { addr + width <= |dynamic| }

    function Get(addr: nat): byte
      requires addr < Size()
    {
      if addr < |dynamic| then dynamic[addr] else shared[addr - |dynamic|]
    }

    function ReadByte(addr: nat): Result<byte> {
      if Readable(addr, 1) then Ok(Get(addr)) else Err(MemoryAccess)
    }

    function GetWord(addr: nat): word
      requires addr + 1 < Size()
    {
      Join(Get(addr), Get(addr + 1))
    }

    function ReadWord(addr: nat): Result<word> {
      if Readable(addr, 2) then Ok(GetWord(addr)) else Err(MemoryAccess)
    }

    function Put(addr: nat, v: byte): (m: Mem)
      requires addr < |dynamic|
      ensures SameShape(this, m)
    {
      this.(dynamic := dynamic[addr := v])
    }

    function PutWord(addr: nat, v: word): (m: Mem)
      requires addr + 1 < |dynamic|
      ensures SameShape(this, m)
    {
      Put(addr, Hi(v)).Put(addr + 1, Lo(v))
    }

    function WriteByte(addr: nat, v: byte): (r: Act<Mem, ()>)
      ensures SameShape(this, r.state)
      ensures r.Done? <==> Writable(addr, 1)
    {
      if Writable(addr, 1) then Done(Put(addr, v), ()) else Fail(this, MemoryAccess)
    }

    function WriteWord(addr: nat, v: word): (r: Act<Mem, ()>)
      ensures SameShape(this, r.state)
      ensures r.Done? <==> Writable(addr, 2)
    {
      if Writable(addr, 2) then Done(PutWord(addr, v), ()) else Fail(this, MemoryAccess)
    }
  }

  /** Two views of the same story: only the contents of dynamic memory may differ. */
  predicate SameShape(m: Mem, m': Mem) {
    |m.dynamic| == |m'.dynamic| && m.shared == m'.shared
  }

  /** `m'` is `m` with new contents at addresses `lo` to `hi` - 1 at most. */
  ghost predicate SameOutside(m: Mem, m': Mem, lo: nat, hi: nat) {
    && SameShape(m, m')
    && forall a: nat :: a < |m.dynamic| && !(lo <= a < hi) ==> m'.dynamic[a] == m.dynamic[a]
  }

  /** A fresh view of a story (newMemory). */
  function InitialMem(story: Story): Mem
    requires story.Valid()
  {
    Mem(story.image[..story.staticBase], story.image[story.staticBase..])
  }

  ghost predicate ViewOf(story: Story, m: Mem) {
    && |m.dynamic| == story.staticBase
    && |m.dynamic| + |m.shared| == |story.image|
  }

  function UnpackAddress(packed: word): nat { packed * 2 }

  function ExpandWordAddress(w: word): nat { w * 2 }

  function OffsetAddress(base: nat, offset: int): (r: Result<nat>)
    ensures r.Ok? <==> 0 <= base + offset < ADDRESS_SPACE_LIMIT
    ensures r.Ok? ==> r.value == base + offset
  {
    if base + offset < 0 || base + offset >= ADDRESS_SPACE_LIMIT then Err(MemoryAccess)
    else Ok(base + offset)
  }

  /** Going by an offset and back again is the identity on the address space, and going twice
      is going by the sum: no address wraps round. */
  lemma OffsetsAdd(base: nat, first: int, second: int)
    requires base < ADDRESS_SPACE_LIMIT && OffsetAddress(base, first).Ok?
    ensures OffsetAddress(OffsetAddress(base, first).value, -first) == Ok(base)
    ensures OffsetAddress(OffsetAddress(base, first).value, second) == OffsetAddress(base, first + second)
  {
  }

  /** The memory object a machine owns. Dynamic memory is a fixed-size buffer written in
      place; the static part is borrowed from the story and never written. */
  class Memory {
    const dynamic: array<byte>
    const shared: seq<byte>

    constructor (story: Story)
      requires story.Valid()
      ensures fresh(dynamic)
      ensures View() == InitialMem(story)
    {
      var base := story.staticBase;
      dynamic := new byte[base](i requires 0 <= i < base <= |story.image| => story.image[i]);
      shared := story.image[base..];
      new;
      assert dynamic[..] == story.image[..base];
    }

    function View(): Mem
      reads dynamic
    {
      Mem(dynamic[..], shared)
    }

    /** Replaces the whole of dynamic memory. */
    method Load(data: seq<byte>)
      requires |data| == dynamic.Length
      modifies dynamic
      ensures View() == Mem(data, shared)
    {
      forall i | 0 <= i < dynamic.Length {
        dynamic[i] := data[i];
      }
      assert dynamic[..] == data;
    }

    method WriteByte(addr: nat, v: byte) returns (r: Result<()>)
      modifies dynamic
      ensures Lift(View(), r) == old(View()).WriteByte(addr, v)
    {
      if addr + 1 > dynamic.Length {
        return Err(MemoryAccess);
      }
      dynamic[addr] := v;
      assert dynamic[..] == old(dynamic[..])[addr := v];
      return Ok(());
    }

    method WriteWord(addr: nat, v: word) returns (r: Result<()>)
      modifies dynamic
      ensures Lift(View(), r) == old(View()).WriteWord(addr, v)
    {
      if addr + 2 > dynamic.Length {
        return Err(MemoryAccess);
      }
      dynamic[addr] := Hi(v);
      dynamic[addr + 1] := Lo(v);
      assert dynamic[..] == old(dynamic[..])[addr := Hi(v)][addr + 1 := Lo(v)];
      return Ok(());
    }
  }
}
