/** Taking and restoring snapshots (state.go): the chunks this engine adds to a saved game,
    and the order in which a restore checks and commits. */
module Snapshots {
  import opened Words
  import opened Memory
  import opened Decoder
  import opened Random
  import opened Text
  import opened Output
  import opened States
  import opened Routines
  import opened Instructions
  import opened Saved

  const CHUNK_VERSION: byte := 2
  const TABLE_BYTES := 4

  datatype ChunkId = RandomId | ScreenId | OtherId(name: nat)

  datatype Chunk = Chunk(id: ChunkId, data: seq<byte>)

  /** What a save is matched against. A story without a checksum has one computed. */
  datatype Identity = Identity(release: word, serial: seq<byte>, checksum: word)

  datatype Save = Save(
    identity: Identity,
    pc: nat,
    memory: seq<byte>,
    frames: seq<SavedFrame>,
    chunks: seq<Chunk>)

  function IdentityOf(story: Story): Identity {
    Identity(story.release, story.serial, if story.checksum == 0 then story.computed else story.checksum)
  }

  /** The payload of the first chunk with the given identifier. */
  function FindChunk(chunks: seq<Chunk>, id: ChunkId): (r: Option<seq<byte>>)
    ensures r.Some? ==> Chunk(id, r.value) in chunks
  {
    if chunks == [] then None
    else if chunks[0].id == id then Some(chunks[0].data)
    else FindChunk(chunks[1..], id)
  }

  // ----- the random generator's chunk -----

  function RandomData(cfg: Config, s: State): seq<byte>
    requires Inv(cfg, s)
  {
    InvParts(cfg, s);
    [CHUNK_VERSION, if s.predictable then 1 else 0, s.random.Kind()] + Marshalled(cfg.lib, s.random)
  }

  /** The state a restore leaves behind and what it answers. */
  datatype Restoring = Restoring(state: State, reply: Reply<()>)

  /** The chunk, if there is one this version can read. */
  function RandomPart(chunks: seq<Chunk>): (r: Option<seq<byte>>)
    ensures r.Some? ==> |r.value| >= 3
  {
    match FindChunk(chunks, RandomId)
    case None => None
    case Some(data) => if |data| < 3 || data[0] != CHUNK_VERSION then None else Some(data)
  }

  /** The generator a chunk describes, if it describes one. */
  function GeneratorIn(lib: Library, data: seq<byte>): (r: Option<Generator>)
    requires |data| >= 3
    ensures r.Some? ==> r.value.Valid(lib)
  {
    if |data| - 3 > MAX_RANDOM_STATE then None else Unmarshalled(lib, data[2], data[3..])
  }

  /** restoreRandomChunk: without a chunk it can read, the generator is seeded as in a new
      machine. */
  function RandomRestored(cfg: Config, s: State, chunks: seq<Chunk>): (r: Restoring)
    requires Inv(cfg, s)
    ensures Stays(cfg, s, r.state)
  {
    FreeParts(cfg, s, s);
    match RandomPart(chunks)
    case None =>
      (match RandomStarted(cfg, s)
       case Done(s1, _) => Restoring(s1, Accepted(()))
       case Fail(s1, e) => Restoring(s1, Rejected(Running(e))))
    case Some(data) =>
      match GeneratorIn(cfg.lib, data)
      case None => Restoring(s, Rejected(InvalidState))
      case Some(g) =>
        RandomParts(cfg, s, g, data[1] % 2 == 1, s.supply);
        hide *;
        Restoring(s.(random := g, predictable := data[1] % 2 == 1), Accepted(()))
  }

  /** The chunk puts the generator back exactly, its kind and the predictable flag included. */
  lemma RandomRoundTrip(cfg: Config, s: State, t: State, chunks: seq<Chunk>)
    requires Inv(cfg, s) && Inv(cfg, t) && FindChunk(chunks, RandomId) == Some(RandomData(cfg, s))
    ensures RandomRestored(cfg, t, chunks) ==
            Restoring(t.(random := s.random, predictable := s.predictable), Accepted(()))
  {
    InvParts(cfg, s);
    MarshalInverse(cfg.lib, s.random);
    var data := RandomData(cfg, s);
    assert data[3..] == Marshalled(cfg.lib, s.random);
    hide Inv, Marshalled, Unmarshalled, FindChunk;
  }

  // ----- the screen's chunk -----

  function TableData(t: Stream): seq<byte> {
    [Hi(t.table), Lo(t.table), Hi(t.count), Lo(t.count)]
  }

  function TablesData(tables: seq<Stream>): (data: seq<byte>)
    ensures |data| == TABLE_BYTES * |tables|
  {
    if tables == [] then [] else TableData(tables[0]) + TablesData(tables[1..])
  }

  function ScreenData(screen: Screen): seq<byte> {
    [CHUNK_VERSION, screen.window, if screen.stream1 then 1 else 0, Hi(screen.upperHeight), Lo(screen.upperHeight)] +
    TablesData(screen.tables)
  }

  /** The tables listed in a chunk, if all of them can be written to. */
  function TablesFrom(m: Mem, data: seq<byte>): (r: Option<seq<Stream>>)
    ensures r.Some? ==> |data| / TABLE_BYTES == |r.value|
    ensures r.Some? ==> forall t :: t in r.value ==> m.Writable(t.table, STREAM_HEADER)
  {
    if |data| < TABLE_BYTES then Some([])
    else
      var table := Join(data[0], data[1]);
      if !m.Writable(table, STREAM_HEADER) then None
      else match TablesFrom(m, data[TABLE_BYTES..])
           case None => None
           case Some(rest) => Some([Stream(table, Join(data[2], data[3]))] + rest)
  }

  /** restoreScreenChunk: anything the chunk cannot express gives the initial screen. */
  function ScreenRestored(m: Mem, chunks: seq<Chunk>): Screen {
    match FindChunk(chunks, ScreenId)
    case None => INITIAL_SCREEN
    case Some(data) => ScreenFrom(m, data)
  }

  function ScreenFrom(m: Mem, data: seq<byte>): Screen {
    if |data| < 5 || data[0] != CHUNK_VERSION || data[1] > WINDOW_UPPER then INITIAL_SCREEN
    else if (|data| - 5) % TABLE_BYTES != 0 || (|data| - 5) / TABLE_BYTES > STREAM_DEPTH then INITIAL_SCREEN
    else match TablesFrom(m, data[5..])
         case None => INITIAL_SCREEN
         case Some(tables) => Screen([], [], data[1], Join(data[3], data[4]), data[2] % 2 == 1, tables)
  }

  method EncodeTables(tables: seq<Stream>) returns (data: seq<byte>)
    ensures data == TablesData(tables)
  {
    hide TableData;
    data := [];
    for i := 0 to |tables|
      invariant data + TablesData(tables[i..]) == TablesData(tables)
    {
      assert tables[i..][0] == tables[i] && tables[i..][1..] == tables[i + 1..];
      assert data + (TableData(tables[i]) + TablesData(tables[i + 1..])) == data + TableData(tables[i]) + TablesData(tables[i + 1..]);
      data := data + TableData(tables[i]);
    }
    assert tables[|tables|..] == [] && data + [] == data;
  }

  method DecodeTables(m: Mem, data: seq<byte>) returns (r: Option<seq<Stream>>)
    requires |data| % TABLE_BYTES == 0
    ensures r == TablesFrom(m, data)
  {
    hide Join, Mem.Writable;
    var tables: seq<Stream> := [];
    var i := 0;
    assert data[0..] == data;
    NoTables(TablesFrom(m, data));
    while i < |data|
      invariant i <= |data| && i % TABLE_BYTES == 0
      invariant TablesFrom(m, data) == AfterTables(tables, TablesFrom(m, data[i..]))
    {
      AnotherTable(|data|, i);
      assert data[i..][TABLE_BYTES..] == data[i + TABLE_BYTES..];
      var table := Join(data[i], data[i + 1]);
      if !m.Writable(table, STREAM_HEADER) {
        return None;
      }
      var stream := Stream(table, Join(data[i + 2], data[i + 3]));
      MoreTables(tables, stream, TablesFrom(m, data[i + TABLE_BYTES..]));
      tables := tables + [stream];
      i := i + TABLE_BYTES;
    }
    assert tables + [] == tables;
    return Some(tables);
  }

  lemma AnotherTable(size: nat, i: nat)
    requires size % TABLE_BYTES == 0 && i % TABLE_BYTES == 0 && i < size
    ensures i + TABLE_BYTES <= size && (i + TABLE_BYTES) % TABLE_BYTES == 0
  {
  }

  function AfterTables(front: seq<Stream>, r: Option<seq<Stream>>): Option<seq<Stream>> {
    match r
    case None => None
    case Some(rest) => Some(front + rest)
  }

  lemma NoTables(r: Option<seq<Stream>>)
    ensures AfterTables([], r) == r
  {
    if r.Some? {
      assert [] + r.value == r.value;
    }
  }

  lemma MoreTables(front: seq<Stream>, t: Stream, r: Option<seq<Stream>>)
    ensures AfterTables(front, AfterTables([t], r)) == AfterTables(front + [t], r)
  {
    if r.Some? {
      assert front + ([t] + r.value) == front + [t] + r.value;
    }
  }

  lemma {:induction false} TablesRoundTrip(m: Mem, tables: seq<Stream>)
    requires forall i :: 0 <= i < |tables| ==> m.Writable(tables[i].table, STREAM_HEADER)
    ensures TablesFrom(m, TablesData(tables)) == Some(tables)
  {
    if tables != [] {
      var data := TablesData(tables);
      assert data[TABLE_BYTES..] == TablesData(tables[1..]);
      assert forall i :: 0 <= i < |tables[1..]| ==> tables[1..][i] == tables[i + 1];
      TablesRoundTrip(m, tables[1..]);
      TableRoundTrip(tables[0], data);
      hide Hi, Lo, Join, TableData;
      assert [tables[0]] + tables[1..] == tables;
    }
  }

  lemma TableRoundTrip(t: Stream, data: seq<byte>)
    requires |data| >= TABLE_BYTES && data[..TABLE_BYTES] == TableData(t)
    ensures Join(data[0], data[1]) == t.table && Join(data[2], data[3]) == t.count
  {
    assert data[0] == TableData(t)[0] && data[1] == TableData(t)[1] && data[2] == TableData(t)[2] && data[3] == TableData(t)[3];
    JoinInverse(t.table);
    JoinInverse(t.count);
    hide Hi, Lo, Join;
  }

  lemma ScreenHead(screen: Screen, data: seq<byte>)
    requires data == ScreenData(screen)
    ensures |data| >= 5 && (|data| - 5) % TABLE_BYTES == 0 && (|data| - 5) / TABLE_BYTES == |screen.tables|
    ensures data[5..] == TablesData(screen.tables)
    ensures data[0] == CHUNK_VERSION && data[1] == screen.window && Join(data[3], data[4]) == screen.upperHeight
    ensures (data[2] % 2 == 1) == screen.stream1
  {
    hide Hi, Lo, Join, TablesData;
    JoinInverse(screen.upperHeight);
  }

  /** The screen chunk is the identity on everything but the captured text. */
  lemma ScreenRoundTrip(m: Mem, screen: Screen)
    requires ScreenOk(m, screen)
    ensures ScreenFrom(m, ScreenData(screen)) == screen.(lower := [], upper := [])
  {
    hide Join, TablesFrom, TablesData, ScreenData, Mem.Writable;
    ScreenHead(screen, ScreenData(screen));
    TablesRoundTrip(m, screen.tables);
  }

  /** On arbitrary chunks the result is a well-formed screen: the initial one unless the
      chunk lists at most 16 tables, all of them writable. */
  lemma ScreenAlwaysOk(m: Mem, chunks: seq<Chunk>)
    ensures ScreenOk(m, ScreenRestored(m, chunks))
  {
    hide FindChunk, Join;
  }

  // ----- taking a snapshot -----

  ghost function Snapshot(cfg: Config, s: State): Result<Save>
    requires Inv(cfg, s)
  {
    var frames :- SavedFrames(s.frames, s.stack, |s.stack|);
    Ok(Save(IdentityOf(cfg.story), s.pc, s.mem.dynamic, frames,
            [Chunk(RandomId, RandomData(cfg, s)), Chunk(ScreenId, ScreenData(s.screen))]))
  }

  // ----- what a call returns (execute.go) -----

  /** What a call returns. */
  datatype Outcome =
    | Waiting(output: Str, upper: Str, status: StatusLine, state: Save)
    | Halted(output: Str, upper: Str, status: StatusLine)

  ghost function Reported(cfg: Config, r: Run<Control>): Result<Outcome>
    requires Inv(cfg, r.state)
  {
    match r
    case Fail(_, e) => Err(e)
    case Done(s, control) =>
      if control == Halt then Ok(Halted(s.screen.lower, s.screen.upper, s.status))
      else
        var save :- Snapshot(cfg, s);
        Ok(Waiting(s.screen.lower, s.screen.upper, s.status, save))
  }

  // ----- restoring one -----

  /** The words a saved chain asks for: locals and evaluation stacks. */
  function WordCount(saved: seq<SavedFrame>): nat {
    if saved == [] then 0
    else
      var last := saved[|saved| - 1];
      WordCount(saved[..|saved| - 1]) + |last.locals| + |last.evaluation|
  }

  /** What the saved-game library checks as it reads: the story, the limits it is given and
      the size of dynamic memory. */
  predicate ReadAccepts(cfg: Config, save: Save) {
    && save.identity == IdentityOf(cfg.story)
    && |save.frames| <= cfg.maxDepth
    && WordCount(save.frames) <= cfg.maxStack + cfg.maxDepth * MAX_LOCALS
    && |save.memory| == cfg.story.staticBase
  }

  /** Everything that is checked before the machine is touched. */
  ghost predicate Refused(cfg: Config, data: Option<Save>) {
    || data.None?
    || !ReadAccepts(cfg, data.value)
    || data.value.pc < HEADER_SIZE
    || data.value.pc >= |cfg.story.image|
    || RestoredFrames(cfg, data.value.frames).None?
  }

  function Committed(s: State, save: Save, frames: CallChain, stack: seq<word>): State {
    s.(mem := s.mem.(dynamic := save.memory), pc := save.pc, frames := frames, stack := stack, started := true, halted := false,
       input := None, status := NO_STATUS)
  }

  lemma CommittedInv(cfg: Config, s: State, save: Save)
    requires Inv(cfg, s) && !Refused(cfg, Some(save))
    ensures var chain := RestoredFrames(cfg, save.frames).value;
            chain.0 != [] && Inv(cfg, Committed(s, save, chain.0, chain.1))
  {
    RestoredIsValid(cfg, save.frames);
    hide RestoredFrames, Chain, WordCount;
  }

  /** This engine's saves carry at least one of its own chunks. */
  predicate OwnSnapshot(chunks: seq<Chunk>) {
    FindChunk(chunks, ScreenId).Some? || FindChunk(chunks, RandomId).Some?
  }

  /** resumeForeignSave: the program counter is on the branch of a save instruction, which is
      taken as though it had succeeded. */
  function ForeignResumed(cfg: Config, s: State): (r: Restoring)
    requires Inv(cfg, s)
    ensures Inv(cfg, r.state)
  {
    hide Inv, Beneath, Returned, Jumped;
    match BranchAt(s.mem, s.pc)
    case Err(_) => Restoring(s, Rejected(InvalidState))
    case Ok((branch, next)) =>
      if !branch.onTrue then Restoring(Jumped(cfg, s, next), Accepted(()))
      else match branch.Returns()
           case Some(v) =>
             (match Returned(cfg, s, v)
              case Done(s1, _) => Restoring(s1, Accepted(()))
              case Fail(s1, _) => Restoring(s1, Rejected(InvalidState)))
           case None =>
             match branch.Target(next)
             case Err(_) => Restoring(s, Rejected(InvalidState))
             case Ok(target) => Restoring(Jumped(cfg, s, target), Accepted(()))
  }

  lemma ScreenSet(cfg: Config, s: State, chunks: seq<Chunk>)
    requires Inv(cfg, s)
    ensures Stays(cfg, s, s.(screen := ScreenRestored(s.mem, chunks)))
  {
    ScreenAlwaysOk(s.mem, chunks);
    hide Chain, ScreenOk, ScreenRestored, SameShape;
  }

  /** What follows the commit. */
  function Finishing(cfg: Config, s: State, chunks: seq<Chunk>): (r: Restoring)
    requires Inv(cfg, s)
    ensures Inv(cfg, r.state)
  {
    hide Inv, Beneath, RandomRestored, ScreenRestored, ForeignResumed, HeaderSet, FindChunk;
    var random := RandomRestored(cfg, s, chunks);
    if random.reply.Rejected? then random
    else
      ScreenSet(cfg, random.state, chunks);
      var shown := random.state.(screen := ScreenRestored(random.state.mem, chunks));
      var resumed := if OwnSnapshot(chunks) then Restoring(shown, Accepted(())) else ForeignResumed(cfg, shown);
      if resumed.reply.Rejected? then resumed
      else
        HeaderWritable(cfg, resumed.state);
        Restoring(InMemory(cfg, resumed.state, HeaderSet(resumed.state.mem)).state, Accepted(()))
  }

  ghost function Restored(cfg: Config, s: State, data: Option<Save>): (r: Restoring)
    requires Inv(cfg, s)
    ensures Inv(cfg, r.state)
  {
    if Refused(cfg, data) then Restoring(s, Rejected(InvalidState))
    else
      var (frames, stack) := RestoredFrames(cfg, data.value.frames).value;
      CommittedInv(cfg, s, data.value);
      hide *;
      Finishing(cfg, Committed(s, data.value, frames, stack), data.value.chunks)
  }

  /** On any machine, running or not, a refusal changes nothing. */
  lemma RefusalChangesNothing(cfg: Config, s: State, data: Option<Save>)
    requires Inv(cfg, s) && Refused(cfg, data)
    ensures Restored(cfg, s, data) == Restoring(s, Rejected(InvalidState))
  {
    hide Inv, Refused;
  }
}
