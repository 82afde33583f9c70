/** What a properly nested use of output stream 3 leaves in memory: section 7.1.2 of the
    Z-Machine Standards Document 1.1, over the operations of Output.dfy. */
module Capture {
  import opened Words
  import opened Memory
  import opened Text
  import opened Output

  /** What is printed while a table is selected: text, single ZSCII codes (print_char,
      new_line), and further tables selected and deselected inside it. */
  datatype Items =
    | End
    | Print(text: Str, rest: Items)
    | Code(code: word, rest: Items)
    | Nested(table: word, inner: Items, rest: Items)

  /** The codes printed while the table itself was innermost. */
  function Direct(items: Items): seq<byte> {
    if items.End? then [] else Emitted(items) + Direct(items.rest)
  }

  /** What the first item prints to it: a code that prints nothing does not reach it. */
  function Emitted(items: Items): seq<byte> {
    match items
    case Print(text, _) => Codes(text)
    case Code(code, _) => if OutputRune(code).Some? then [code] else []
    case _ => []
  }

  function Codes(text: Str): (codes: seq<byte>)
    ensures |codes| == |text|
  {
    if text == [] then [] else [TableCode(text[0])] + Codes(text[1..])
  }

  // ----- running it -----

  /** Selects a table, prints, and deselects it. */
  function RunCapture(io: Io, table: word, items: Items): Act<Io, ()>
    decreases items, 1
  {
    var (io1, _) :- StreamSelected(io, table);
    var (io2, _) :- RunItems(io1, items);
    StreamDeselected(io2)
  }

  function RunItems(io: Io, items: Items): Act<Io, ()>
    decreases items, 0
  {
    match items
    case End => Done(io, ())
    case Print(text, rest) =>
      var (io1, _) :- TextPrinted(io, text);
      RunItems(io1, rest)
    case Code(code, rest) =>
      var (io1, _) :- CodePrinted(io, code);
      RunItems(io1, rest)
    case Nested(table, inner, rest) =>
      var (io1, _) :- RunCapture(io, table, inner);
      RunItems(io1, rest)
  }

  // ----- the addresses it uses -----

  function Range(lo: nat, hi: nat): set<nat> {
    set a: nat | a < hi && From(lo, a)
  }

  predicate From(lo: nat, a: nat) { lo <= a }

  /** Every address a table takes, with those of the tables nested in it. */
  function Footprint(table: word, items: Items): set<nat> {
    Range(table, table + STREAM_HEADER + |Direct(items)|) + NestedFootprint(items)
  }

  function NestedFootprint(items: Items): set<nat> {
    match items
    case End => {}
    case Print(_, rest) => NestedFootprint(rest)
    case Code(_, rest) => NestedFootprint(rest)
    case Nested(table, inner, rest) =>
      Range(table, table + STREAM_HEADER + |Direct(inner)|) + NestedFootprint(inner) + NestedFootprint(rest)
  }

  /** The tables are disjoint, lie in dynamic memory, take fewer than 65536 characters each
      and nest at most `depth` deep. */
  ghost predicate Fits(m: Mem, table: word, items: Items, depth: nat)
    decreases items, 1
  {
    && depth > 0
    && |Direct(items)| <= 0xffff
    && m.Writable(table, STREAM_HEADER + |Direct(items)|)
    && Range(table, table + STREAM_HEADER + |Direct(items)|) !! NestedFootprint(items)
    && ItemsFit(m, items, depth - 1)
  }

  ghost predicate ItemsFit(m: Mem, items: Items, depth: nat)
    decreases items, 0
  {
    match items
    case End => true
    case Print(_, rest) => ItemsFit(m, rest, depth)
    case Code(_, rest) => ItemsFit(m, rest, depth)
    case Nested(table, inner, rest) =>
      && Fits(m, table, inner, depth)
      && Footprint(table, inner) !! NestedFootprint(rest)
      && ItemsFit(m, rest, depth)
  }

  // ----- what memory holds afterwards -----

  /** The count word of the table, high byte first. */
  ghost predicate Counted(m: Mem, table: nat, n: nat)
    requires m.Writable(table, STREAM_HEADER)
  {
    n <= 0xffff && m.dynamic[table] == Hi(n) && m.dynamic[table + 1] == Lo(n)
  }

  lemma CountReads(m: Mem, table: nat, n: nat)
    requires m.Writable(table, STREAM_HEADER) && Counted(m, table, n)
    ensures m.GetWord(table) == n
  {
    JoinInverse(n);
    hide Hi, Lo, Join;
  }

  /** The table holds its count word and exactly the characters printed while it was
      innermost, and so does every table nested in it. */
  ghost predicate Holds(m: Mem, table: word, items: Items)
    decreases items, 1
  {
    && m.Writable(table, STREAM_HEADER + |Direct(items)|)
    && Counted(m, table, |Direct(items)|)
    && (forall k :: 0 <= k < |Direct(items)| ==> m.dynamic[table + STREAM_HEADER + k] == Direct(items)[k])
    && ItemsHold(m, items)
  }

  /** What the story then reads of a table: its count word, and the characters behind it. */
  lemma HoldsReads(m: Mem, table: word, items: Items, codes: seq<byte>, k: nat)
    requires Holds(m, table, items) && codes == Direct(items)
    ensures m.ReadWord(table).Ok? && m.ReadWord(table).value == |codes|
    ensures k < |codes| ==> m.ReadByte(table + STREAM_HEADER + k) == Ok(codes[k])
  {
    hide Direct, Join, Hi, Lo, ItemsHold;
    CountReads(m, table, |codes|);
  }

  ghost predicate ItemsHold(m: Mem, items: Items)
    decreases items, 0
  {
    match items
    case End => true
    case Print(_, rest) => ItemsHold(m, rest)
    case Code(_, rest) => ItemsHold(m, rest)
    case Nested(table, inner, rest) => Holds(m, table, inner) && ItemsHold(m, rest)
  }

  ghost predicate SameOff(m: Mem, m': Mem, touched: set<nat>) {
    && SameShape(m, m')
    && forall a: nat {:trigger m'.dynamic[a]} :: a < |m.dynamic| && a !in touched ==> m'.dynamic[a] == m.dynamic[a]
  }

  ghost predicate SameOn(m: Mem, m': Mem, kept: set<nat>) {
    && SameShape(m, m')
    && forall a: nat {:trigger m'.dynamic[a]} :: a < |m.dynamic| && a in kept ==> m'.dynamic[a] == m.dynamic[a]
  }

  lemma {:induction false} HoldsSame(m: Mem, m': Mem, table: word, items: Items)
    requires Holds(m, table, items) && SameOn(m, m', Footprint(table, items))
    ensures Holds(m', table, items)
    decreases items, 1
  {
    var end := table + STREAM_HEADER + |Direct(items)|;
    assert forall a :: table <= a < end ==> a in Footprint(table, items) && m'.dynamic[a] == m.dynamic[a];
    ItemsHoldSame(m, m', items);
  }

  lemma {:induction false} ItemsHoldSame(m: Mem, m': Mem, items: Items)
    requires ItemsHold(m, items) && SameOn(m, m', NestedFootprint(items))
    ensures ItemsHold(m', items)
    decreases items, 0
  {
    match items
    case End =>
    case Print(_, rest) => ItemsHoldSame(m, m', rest);
    case Code(_, rest) => ItemsHoldSame(m, m', rest);
    case Nested(table, inner, rest) =>
      HoldsSame(m, m', table, inner);
      ItemsHoldSame(m, m', rest);
  }

  /** Fitting depends only on the size of memory. */
  lemma {:induction false} ItemsFitShape(m: Mem, m': Mem, items: Items, depth: nat)
    requires ItemsFit(m, items, depth) && SameShape(m, m')
    ensures ItemsFit(m', items, depth)
  {
    match items
    case End =>
    case Print(_, rest) => ItemsFitShape(m, m', rest, depth);
    case Code(_, rest) => ItemsFitShape(m, m', rest, depth);
    case Nested(table, inner, rest) =>
      ItemsFitShape(m, m', inner, depth - 1);
      ItemsFitShape(m, m', rest, depth);
  }

  /** Where the next character goes. */
  function Tip(io: Io): nat
    requires io.screen.tables != []
  {
    Innermost(io.screen).table + STREAM_HEADER + Innermost(io.screen).count
  }

  /** The innermost table grows by `codes`: they follow what it already holds. */
  ghost predicate Grown(io: Io, io': Io, codes: seq<byte>, touched: set<nat>)
    requires io.screen.tables != []
  {
    var s, at := Innermost(io.screen), Tip(io);
    && SameShape(io.mem, io'.mem)
    && at + |codes| <= |io.mem.dynamic|
    && s.count + |codes| <= 0xffff
    && io'.screen == io.screen.(tables := Outer(io.screen) + [Stream(s.table, s.count + |codes|)])
    && SameOff(io.mem, io'.mem, Range(at, at + |codes|) + touched)
    && Written(io'.mem, at, codes)
  }

  ghost predicate Written(m: Mem, at: nat, codes: seq<byte>) {
    && at + |codes| <= |m.dynamic|
    && forall k :: 0 <= k < |codes| ==> m.dynamic[at + k] == codes[k]
  }

  lemma RangeSplit(lo: nat, mid: nat, hi: nat)
    requires lo <= mid <= hi
    ensures Range(lo, hi) == Range(lo, mid) + Range(mid, hi)
  {
  }

  lemma SameOffTogether(m: Mem, m1: Mem, m2: Mem, s: set<nat>, t: set<nat>)
    requires SameOff(m, m1, s) && SameOff(m1, m2, t)
    ensures SameOff(m, m2, s + t)
  {
  }

  /** Bytes written at `at`, then more written after them away from them. */
  lemma BytesTogether(m1: Mem, m2: Mem, at: nat, a: seq<byte>, b: seq<byte>, tb: set<nat>)
    requires Written(m1, at, a) && Written(m2, at + |a|, b)
    requires SameOff(m1, m2, Range(at + |a|, at + |a| + |b|) + tb)
    requires Range(at, at + |a|) !! tb
    ensures Written(m2, at, a + b)
  {
    forall k | 0 <= k < |a + b| ensures m2.dynamic[at + k] == (a + b)[k] {
      if k < |a| {
        assert at + k in Range(at, at + |a|) && at + k !in Range(at + |a|, at + |a| + |b|);
        assert m1.dynamic[at + k] == a[k];
      } else {
        assert m2.dynamic[at + |a| + (k - |a|)] == b[k - |a|];
      }
    }
  }

  lemma Regroup(s: set<nat>, t: set<nat>, u: set<nat>, v: set<nat>)
    ensures (s + t) + (u + v) == (s + u) + (t + v)
  {
  }

  lemma GrownTogether(io: Io, io1: Io, io2: Io, a: seq<byte>, ta: set<nat>, b: seq<byte>, tb: set<nat>)
    requires io.screen.tables != [] && io1.screen.tables != []
    requires Grown(io, io1, a, ta) && Grown(io1, io2, b, tb)
    requires Range(Tip(io), Tip(io) + |a|) !! tb
    ensures Grown(io, io2, a + b, ta + tb)
  {
    hide Range, SameOff, Written;
    var s := Innermost(io.screen);
    assert Innermost(io1.screen) == Stream(s.table, s.count + |a|) && Outer(io1.screen) == Outer(io.screen);
    var at := Tip(io);
    assert Tip(io1) == at + |a|;
    hide Innermost, Outer, Tip;
    var mid, end := at + |a|, at + |a| + |b|;
    assert SameOff(io1.mem, io2.mem, Range(mid, end) + tb) && Written(io2.mem, mid, b);
    BytesTogether(io1.mem, io2.mem, at, a, b, tb);
    SameOffTogether(io.mem, io1.mem, io2.mem, Range(at, mid) + ta, Range(mid, end) + tb);
    RangeSplit(at, mid, end);
    Regroup(Range(at, mid), ta, Range(mid, end), tb);
  }

  /** Printing text grows the innermost table by its codes. */
  lemma {:induction false} TextGrows(io: Io, text: Str)
    requires io.screen.tables != []
    requires Innermost(io.screen).count + |text| <= 0xffff && Tip(io) + |text| <= |io.mem.dynamic|
    ensures var r := TextToTable(io, text);
            r.Done? && Grown(io, r.state, Codes(text), {})
    decreases |text|
  {
    var s := Innermost(io.screen);
    var at := s.table + STREAM_HEADER + s.count;
    if text == [] {
      assert io.screen.tables == Outer(io.screen) + [s];
    } else {
      var io1 := TableWritten(io, TableCode(text[0])).state;
      assert Grown(io, io1, [TableCode(text[0])], {});
      TextGrows(io1, text[1..]);
      GrownTogether(io, io1, TextToTable(io1, text[1..]).state, [TableCode(text[0])], {}, Codes(text[1..]), {});
      var none: set<nat> := {};
      assert none + none == none;
    }
  }

  lemma GrownByNothing(io: Io, io1: Io, touched: set<nat>)
    requires io.screen.tables != [] && io1.screen == io.screen && SameOff(io.mem, io1.mem, touched)
    requires Tip(io) <= |io.mem.dynamic|
    ensures Grown(io, io1, [], touched)
  {
    assert io.screen.tables == Outer(io.screen) + [Innermost(io.screen)];
  }

  /** The innermost table has room for what is about to be printed to it, away from the
      tables nested in it. */
  ghost predicate Room(io: Io, items: Items)
    requires io.screen.tables != []
  {
    && Innermost(io.screen).count + |Direct(items)| <= 0xffff
    && Tip(io) + |Direct(items)| <= |io.mem.dynamic|
    && Range(Tip(io), Tip(io) + |Direct(items)|) !! NestedFootprint(items)
  }

  lemma RoomAfter(io: Io, io1: Io, items: Items, codes: seq<byte>, touched: set<nat>)
    requires !items.End? && io.screen.tables != [] && io1.screen.tables != []
    requires Room(io, items) && Grown(io, io1, codes, touched)
    requires codes == Emitted(items)
    ensures Room(io1, items.rest)
    ensures Range(Tip(io), Tip(io) + |codes|) !! NestedFootprint(items.rest)
  {
    hide Range, Direct, NestedFootprint, Grown, Codes, Tip;
    TipAfter(io, io1, codes, touched);
    RestOf(items, codes);
    var at, direct := Tip(io), |Direct(items.rest)|;
    RangeSplit(at, at + |codes|, at + |codes| + direct);
    Apart(Range(at, at + |codes|), Range(at + |codes|, at + |codes| + direct), NestedFootprint(items), NestedFootprint(items.rest));
  }

  lemma TipAfter(io: Io, io1: Io, codes: seq<byte>, touched: set<nat>)
    requires io.screen.tables != [] && io1.screen.tables != [] && Grown(io, io1, codes, touched)
    ensures Tip(io1) == Tip(io) + |codes| && Innermost(io1.screen).count == Innermost(io.screen).count + |codes|
    ensures |io1.mem.dynamic| == |io.mem.dynamic|
  {
    hide Range, SameOff, Written;
  }

  lemma RestOf(items: Items, codes: seq<byte>)
    requires !items.End? && codes == Emitted(items)
    ensures Direct(items) == codes + Direct(items.rest) && NestedFootprint(items.rest) <= NestedFootprint(items)
  {
  }

  lemma Apart(first: set<nat>, second: set<nat>, nested: set<nat>, rest: set<nat>)
    requires first + second !! nested && rest <= nested
    ensures first !! rest && second !! rest
  {
  }

  lemma {:induction false} ItemsRun(io: Io, items: Items, depth: nat)
    requires io.screen.tables != [] && |io.screen.tables| + depth <= STREAM_DEPTH
    requires ItemsFit(io.mem, items, depth) && Room(io, items)
    ensures var r := RunItems(io, items);
            r.Done? && Grown(io, r.state, Direct(items), NestedFootprint(items)) && ItemsHold(r.state.mem, items)
    decreases items, 0
  {
    hide Grown, Room, Fits, Holds, Footprint, Range, RunCapture, TextPrinted, Tip;
    match items
    case End =>
      NothingRuns(io);
    case Print(text, rest) =>
      PrintFits(io, text, rest, depth);
      var io1 := TextPrinted(io, text).state;
      ItemsRun(io1, rest, depth);
      PrintThen(io, io1, items);
    case Code(code, rest) =>
      CodeFits(io, code, rest, depth);
      var io1 := CodePrinted(io, code).state;
      ItemsRun(io1, rest, depth);
      PrintThen(io, io1, items);
    case Nested(table, inner, rest) =>
      CaptureRuns(io, table, inner, depth);
      var io1 := RunCapture(io, table, inner).state;
      NestedFits(io, io1, items, depth);
      ItemsRun(io1, rest, depth);
      NestedThen(io, io1, table, inner, rest);
  }

  lemma NothingRuns(io: Io)
    requires io.screen.tables != [] && Room(io, End)
    ensures Grown(io, io, Direct(End), NestedFootprint(End))
  {
    GrownByNothing(io, io, {});
  }

  lemma PrintFits(io: Io, text: Str, rest: Items, depth: nat)
    requires io.screen.tables != [] && Room(io, Print(text, rest)) && ItemsFit(io.mem, rest, depth)
    ensures var r := TextPrinted(io, text);
            && r.Done? && |r.state.screen.tables| == |io.screen.tables|
            && Grown(io, r.state, Codes(text), {}) && Room(r.state, rest) && ItemsFit(r.state.mem, rest, depth)
    ensures Range(Tip(io), Tip(io) + |text|) !! NestedFootprint(rest)
  {
    assert |Direct(Print(text, rest))| >= |Codes(text)|;
    PrintRuns(io, text);
    var io1 := TextPrinted(io, text).state;
    RoomAfter(io, io1, Print(text, rest), Codes(text), {});
    hide Room, Range, NestedFootprint, Direct;
    ItemsFitShape(io.mem, io1.mem, rest, depth);
  }

  lemma CodeFits(io: Io, code: word, rest: Items, depth: nat)
    requires io.screen.tables != [] && Room(io, Code(code, rest)) && ItemsFit(io.mem, rest, depth)
    ensures var r := CodePrinted(io, code);
            && r.Done? && |r.state.screen.tables| == |io.screen.tables|
            && Grown(io, r.state, Emitted(Code(code, rest)), {}) && Room(r.state, rest) && ItemsFit(r.state.mem, rest, depth)
    ensures Range(Tip(io), Tip(io) + |Emitted(Code(code, rest))|) !! NestedFootprint(rest)
  {
    hide Range, NestedFootprint;
    RestOf(Code(code, rest), Emitted(Code(code, rest)));
    CodeGrows(io, code, rest);
    var io1 := CodePrinted(io, code).state;
    hide OutputRune, CodePrinted, Direct;
    RoomAfter(io, io1, Code(code, rest), Emitted(Code(code, rest)), {});
    hide Room;
    ItemsFitShape(io.mem, io1.mem, rest, depth);
  }

  lemma CodeGrows(io: Io, code: word, rest: Items)
    requires io.screen.tables != []
    requires var n := |Emitted(Code(code, rest))|;
             Innermost(io.screen).count + n <= 0xffff && Tip(io) + n <= |io.mem.dynamic|
    ensures var r := CodePrinted(io, code);
            && r.Done? && |r.state.screen.tables| == |io.screen.tables|
            && Grown(io, r.state, Emitted(Code(code, rest)), {})
  {
    if OutputRune(code).None? {
      GrownByNothing(io, io, {});
    } else {
      hide OutputRune, Range;
      OneGrows(io, code);
    }
  }

  lemma OneGrows(io: Io, code: byte)
    requires io.screen.tables != []
    requires Innermost(io.screen).count + 1 <= 0xffff && Tip(io) + 1 <= |io.mem.dynamic|
    ensures TableWritten(io, code).Done? && Grown(io, TableWritten(io, code).state, [code], {})
  {
    var io1, at := TableWritten(io, code).state, Tip(io);
    assert at in Range(at, at + 1);
  }

  /** What one item prints, and then the rest. */
  lemma PrintThen(io: Io, io1: Io, items: Items)
    requires io.screen.tables != [] && io1.screen.tables != [] && (items.Print? || items.Code?)
    requires var r := if items.Print? then TextPrinted(io, items.text) else CodePrinted(io, items.code);
             r.Done? && r.state == io1
    requires Grown(io, io1, Emitted(items), {}) && Range(Tip(io), Tip(io) + |Emitted(items)|) !! NestedFootprint(items.rest)
    requires var r := RunItems(io1, items.rest);
             && r.Done? && Grown(io1, r.state, Direct(items.rest), NestedFootprint(items.rest))
             && ItemsHold(r.state.mem, items.rest)
    ensures var r := RunItems(io, items);
            r.Done? && Grown(io, r.state, Direct(items), NestedFootprint(items)) && ItemsHold(r.state.mem, items)
  {
    hide Range, Grown, TextPrinted, CodePrinted, Emitted, Tip;
    var rest := items.rest;
    GrownTogether(io, io1, RunItems(io1, rest).state, Emitted(items), {}, Direct(rest), NestedFootprint(rest));
    assert {} + NestedFootprint(rest) == NestedFootprint(rest);
  }

  lemma NestedFits(io: Io, io1: Io, items: Items, depth: nat)
    requires items.Nested? && io.screen.tables != [] && Room(io, items) && ItemsFit(io.mem, items, depth)
    requires io1.screen == io.screen && SameOff(io.mem, io1.mem, Footprint(items.table, items.inner))
    ensures Grown(io, io1, [], Footprint(items.table, items.inner)) && Room(io1, items.rest)
    ensures ItemsFit(io1.mem, items.rest, depth)
  {
    hide Footprint, Direct, Range, NestedFootprint, Fits;
    GrownByNothing(io, io1, Footprint(items.table, items.inner));
    RoomAfter(io, io1, items, [], Footprint(items.table, items.inner));
    ItemsFitShape(io.mem, io1.mem, items.rest, depth);
  }

  lemma NestedThen(io: Io, io1: Io, table: word, inner: Items, rest: Items)
    requires io.screen.tables != [] && Room(io, Nested(table, inner, rest))
    requires Footprint(table, inner) !! NestedFootprint(rest)
    requires RunCapture(io, table, inner).Done? && RunCapture(io, table, inner).state == io1
    requires io1.screen == io.screen && Holds(io1.mem, table, inner) && Grown(io, io1, [], Footprint(table, inner))
    requires var r := RunItems(io1, rest);
             r.Done? && Grown(io1, r.state, Direct(rest), NestedFootprint(rest)) && ItemsHold(r.state.mem, rest)
    ensures var items := Nested(table, inner, rest);
            var r := RunItems(io, items);
            r.Done? && Grown(io, r.state, Direct(items), NestedFootprint(items)) && ItemsHold(r.state.mem, items)
  {
    hide Range, Grown, Holds, RunCapture, Room, Tip;
    var io2, items := RunItems(io1, rest).state, Nested(table, inner, rest);
    NestedHolds(io, io1, io2, items);
    var touched := Footprint(table, inner);
    NothingInside(io, NestedFootprint(rest));
    GrownTogether(io, io1, io2, [], touched, Direct(rest), NestedFootprint(rest));
    assert [] + Direct(rest) == Direct(rest);
    assert NestedFootprint(items) == touched + NestedFootprint(rest);
  }

  lemma NothingInside(io: Io, s: set<nat>)
    requires io.screen.tables != []
    ensures Range(Tip(io), Tip(io)) !! s && Range(Tip(io), Tip(io) + 0) !! s
  {
  }

  lemma PrintRuns(io: Io, text: Str)
    requires io.screen.tables != []
    requires Innermost(io.screen).count + |text| <= 0xffff && Tip(io) + |text| <= |io.mem.dynamic|
    ensures var r := TextPrinted(io, text);
            r.Done? && Grown(io, r.state, Codes(text), {})
  {
    hide Grown, Codes, Tip, TableWritten, IoStep;
    assert TextPrinted(io, text) == TextToTable(io, text);
    TextGrows(io, text);
  }

  /** What follows a nested table does not disturb it. */
  lemma NestedHolds(io: Io, io1: Io, io2: Io, items: Items)
    requires items.Nested? && io.screen.tables != []
    requires Room(io, items) && Footprint(items.table, items.inner) !! NestedFootprint(items.rest)
    requires io1.screen == io.screen && Holds(io1.mem, items.table, items.inner)
    requires Grown(io1, io2, Direct(items.rest), NestedFootprint(items.rest))
    ensures Holds(io2.mem, items.table, items.inner)
  {
    var at := Tip(io);
    var footprint := Footprint(items.table, items.inner);
    assert footprint <= NestedFootprint(items);
    assert footprint !! Range(at, at + |Direct(items.rest)|) + NestedFootprint(items.rest);
    HoldsSame(io1.mem, io2.mem, items.table, items.inner);
  }

  /** A properly nested capture, on disjoint tables at most 16 deep and each under 65536
      characters, runs without error. Afterwards every table holds its count word followed
      by exactly the characters printed while it was innermost, no other byte has changed,
      the outer selections stand where they stood, and the captured screen is unchanged. */
  lemma {:induction false} CaptureRuns(io: Io, table: word, items: Items, depth: nat)
    requires |io.screen.tables| + depth <= STREAM_DEPTH && Fits(io.mem, table, items, depth)
    ensures var r := RunCapture(io, table, items);
            && r.Done?
            && r.state.screen == io.screen
            && Holds(r.state.mem, table, items)
            && SameOff(io.mem, r.state.mem, Footprint(table, items))
    decreases items, 1
  {
    hide Range, Direct, NestedFootprint, Holds, ItemsHold, StreamDeselected, Grown, Fits, StreamSelected, RunItems, Footprint;
    CaptureBegins(io, table, items, depth);
    var io1, n := StreamSelected(io, table).state, |Direct(items)|;
    ItemsRun(io1, items, depth - 1);
    var io2 := RunItems(io1, items).state;
    GrownScreen(io, io1, io2, table, n, items);
    DeselectGrown(io, io2, table, n);
    CountWritten(io2.mem, table, n);
    hide Mem.PutWord, Counted;
    CaptureEnds(io1, io2, io2.mem.PutWord(table, n), table, items);
  }

  lemma CaptureBegins(io: Io, table: word, items: Items, depth: nat)
    requires |io.screen.tables| + depth <= STREAM_DEPTH && Fits(io.mem, table, items, depth)
    ensures var r := StreamSelected(io, table);
            && r.Done?
            && r.state == io.(screen := io.screen.(tables := io.screen.tables + [Stream(table, 0)]))
            && Innermost(r.state.screen) == Stream(table, 0)
            && Room(r.state, items)
    ensures depth > 0 && ItemsFit(io.mem, items, depth - 1) && |Direct(items)| <= 0xffff
    ensures Range(table, table + STREAM_HEADER + |Direct(items)|) !! NestedFootprint(items)
  {
    hide Range, Direct, NestedFootprint;
    var n := |Direct(items)|;
    RangeSplit(table, table + STREAM_HEADER, table + STREAM_HEADER + n);
  }

  lemma GrownScreen(io: Io, io1: Io, io2: Io, table: word, n: nat, items: Items)
    requires io1.screen == io.screen.(tables := io.screen.tables + [Stream(table, 0)]) && n == |Direct(items)| <= 0xffff
    requires Grown(io1, io2, Direct(items), NestedFootprint(items))
    ensures io2.screen == io.screen.(tables := io.screen.tables + [Stream(table, n)])
    ensures io2.mem.Writable(table, STREAM_HEADER)
  {
    hide Range, Direct, NestedFootprint, SameOff, Written;
    assert Innermost(io1.screen) == Stream(table, 0) && Outer(io1.screen) == io.screen.tables;
  }

  /** Writing the count word completes the table. */
  lemma CaptureEnds(io1: Io, io2: Io, m: Mem, table: word, items: Items)
    requires io1.screen.tables != [] && Innermost(io1.screen) == Stream(table, 0)
    requires Grown(io1, io2, Direct(items), NestedFootprint(items)) && ItemsHold(io2.mem, items)
    requires Range(table, table + STREAM_HEADER + |Direct(items)|) !! NestedFootprint(items)
    requires SameOutside(io2.mem, m, table, table + STREAM_HEADER) && Counted(m, table, |Direct(items)|)
    ensures Holds(m, table, items) && SameOff(io1.mem, m, Footprint(table, items))
  {
    hide Range, Direct, NestedFootprint, ItemsHold, Hi, Lo;
    var codes := Direct(items);
    var n: nat := |codes|;
    forall k | 0 <= k < n ensures m.dynamic[table + STREAM_HEADER + k] == codes[k] {
      assert io2.mem.dynamic[table + STREAM_HEADER + 0 + k] == codes[k];
    }
    RangeSplit(table, table + STREAM_HEADER, table + STREAM_HEADER + n);
    CountAddresses(table);
    ItemsHoldSame(io2.mem, m, items);
  }

  lemma CountAddresses(table: nat)
    ensures table in Range(table, table + STREAM_HEADER) && table + 1 in Range(table, table + STREAM_HEADER)
  {
  }

  lemma DeselectGrown(io: Io, io2: Io, table: word, n: word)
    requires io2.mem.Writable(table, STREAM_HEADER)
    requires io2.screen == io.screen.(tables := io.screen.tables + [Stream(table, n)])
    ensures StreamDeselected(io2) == Done(Io(io2.mem.PutWord(table, n), io.screen), ())
  {
    assert Outer(io2.screen) == io.screen.tables && Innermost(io2.screen) == Stream(table, n);
    assert io2.screen.(tables := io.screen.tables) == io.screen;
  }

  lemma CountWritten(m: Mem, table: nat, n: word)
    requires m.Writable(table, STREAM_HEADER)
    ensures Counted(m.PutWord(table, n), table, n)
    ensures SameOutside(m, m.PutWord(table, n), table, table + STREAM_HEADER)
  {
    hide Hi, Lo;
  }
}
