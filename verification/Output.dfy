/** Output streams and the logical screen (output.go): sections 7 and 8.6 of the Z-Machine
    Standards Document 1.1. */
module Output {
  import opened Words
  import opened Memory
  import opened Text

  const WINDOW_LOWER: byte := 0
  const WINDOW_UPPER: byte := 1
  const STREAM_DEPTH := 16
  const STREAM_HEADER := 2
  const SUBSTITUTE: byte := '?' as int

  /** One selection of output stream 3: its table, which a word operand named, and the
      characters written so far. */
  datatype Stream = Stream(table: word, count: word)

  datatype Screen = Screen(
    lower: Str,
    upper: Str,
    window: byte,
    upperHeight: word,
    stream1: bool,
    tables: seq<Stream>)

  /** The screen at the start of a game. */
  const INITIAL_SCREEN := Screen([], [], WINDOW_LOWER, 0, true, [])

  /** Selected tables lie in dynamic memory. */
  ghost predicate ScreenOk(m: Mem, s: Screen) {
    && s.window <= WINDOW_UPPER
    && |s.tables| <= STREAM_DEPTH
    && forall i :: 0 <= i < |s.tables| ==> m.Writable(s.tables[i].table, STREAM_HEADER)
  }

  /** Printing changes memory (through stream 3) and the screen. */
  datatype Io = Io(mem: Mem, screen: Screen)

  ghost predicate IoStep(io: Io, io': Io) {
    && SameShape(io.mem, io'.mem)
    && (ScreenOk(io.mem, io.screen) ==> ScreenOk(io'.mem, io'.screen))
  }

  function Innermost(s: Screen): Stream
    requires s.tables != []
  {
    s.tables[|s.tables| - 1]
  }

  function Outer(s: Screen): seq<Stream>
    requires s.tables != []
  {
    s.tables[..|s.tables| - 1]
  }

  /** Appends one ZSCII byte to the innermost table. */
  function TableWritten(io: Io, b: byte): (r: Act<Io, ()>)
    requires io.screen.tables != []
    ensures IoStep(io, r.state) && |r.state.screen.tables| == |io.screen.tables|
  {
    var stream := Innermost(io.screen);
    if stream.count == 0xffff then Fail(io, ExecutionFault)
    else
      var w := io.mem.WriteByte(stream.table + STREAM_HEADER + stream.count, b);
      if w.Fail? then Fail(io, w.error)
      else
        var tables := Outer(io.screen) + [Stream(stream.table, stream.count + 1)];
        Done(Io(w.state, io.screen.(tables := tables)), ())
  }

  /** The ZSCII byte a character is written to a table as. */
  function TableCode(r: rune): byte {
    match FromRune(r)
    case Some(code) => code
    case None => SUBSTITUTE
  }

  function TextToTable(io: Io, text: Str): (r: Act<Io, ()>)
    requires io.screen.tables != []
    ensures IoStep(io, r.state) && |r.state.screen.tables| == |io.screen.tables|
    decreases |text|
  {
    if text == [] then Done(io, ())
    else
      var (io1, _) :- TableWritten(io, TableCode(text[0]));
      TextToTable(io1, text[1..])
  }

  /** Text reaches the selected window, unless stream 1 is off. */
  function ToScreen(s: Screen, text: Str): Screen {
    if !s.stream1 then s
    else if s.window == WINDOW_UPPER then s.(upper := s.upper + text)
    else s.(lower := s.lower + text)
  }

  function TextPrinted(io: Io, text: Str): (r: Act<Io, ()>)
    ensures IoStep(io, r.state)
  {
    if text == [] then Done(io, ())
    else if io.screen.tables != [] then TextToTable(io, text)
    else Done(Io(io.mem, ToScreen(io.screen, text)), ())
  }

  function CodePrinted(io: Io, code: word): (r: Act<Io, ()>)
    ensures IoStep(io, r.state)
  {
    match OutputRune(code)
    case None => Done(io, ())
    case Some(r) =>
      if io.screen.tables != [] then TableWritten(io, code)
      else Done(Io(io.mem, ToScreen(io.screen, [r])), ())
  }

  function StreamSelected(io: Io, addr: word): (r: Act<Io, ()>)
    ensures IoStep(io, r.state)
  {
    if |io.screen.tables| >= STREAM_DEPTH then Fail(io, ExecutionFault)
    else if !io.mem.Writable(addr, STREAM_HEADER) then Fail(io, MemoryAccess)
    else Done(io.(screen := io.screen.(tables := io.screen.tables + [Stream(addr, 0)])), ())
  }

  function StreamDeselected(io: Io): (r: Act<Io, ()>)
    ensures IoStep(io, r.state)
  {
    if io.screen.tables == [] then Done(io, ())
    else
      var stream := Innermost(io.screen);
      var screen := io.screen.(tables := Outer(io.screen));
      var w := io.mem.WriteWord(stream.table, stream.count);
      if w.Fail? then Fail(Io(w.state, screen), w.error) else Done(Io(w.state, screen), ())
  }

  function ScreenSplit(s: Screen, lines: word): Screen {
    s.(upperHeight := lines, upper := [])
  }

  function WindowSet(s: Screen, window: word): Result<Screen> {
    if window != WINDOW_LOWER && window != WINDOW_UPPER then Err(ExecutionFault)
    else Ok(s.(window := window))
  }

  // ----- printing in place -----

  /** The output state a machine owns; it writes through the machine's memory. */
  class OutputStreams {
    var screen: Screen

    constructor ()
      ensures screen == INITIAL_SCREEN
    {
      screen := INITIAL_SCREEN;
    }

    method Init()
      modifies this
      ensures screen == INITIAL_SCREEN
    {
      screen := INITIAL_SCREEN;
    }

    method BeginInvocation()
      modifies this
      ensures screen == old(screen).(lower := [], upper := [])
    {
      screen := screen.(lower := [], upper := []);
    }

    method WriteMemoryStream(mem: Memory, b: byte) returns (r: Result<()>)
      requires screen.tables != []
      modifies this, mem.dynamic
      ensures Lift(Io(mem.View(), screen), r) == TableWritten(old(Io(mem.View(), screen)), b)
    {
      var stream := Innermost(screen);
      if stream.count == 0xffff {
        return Err(ExecutionFault);
      }
      var _ :- mem.WriteByte(stream.table + STREAM_HEADER + stream.count, b);
      screen := screen.(tables := Outer(screen) + [Stream(stream.table, stream.count + 1)]);
      return Ok(());
    }

    method PrintText(mem: Memory, text: Str) returns (r: Result<()>)
      modifies this, mem.dynamic
      ensures Lift(Io(mem.View(), screen), r) == TextPrinted(old(Io(mem.View(), screen)), text)
    {
      if |text| == 0 {
        return Ok(());
      }
      if |screen.tables| == 0 {
        screen := ToScreen(screen, text);
        return Ok(());
      }
      hide TableWritten, TableCode;
      for i := 0 to |text|
        invariant screen.tables != []
        invariant TextToTable(old(Io(mem.View(), screen)), text) == TextToTable(Io(mem.View(), screen), text[i..])
      {
        assert text[i..][0] == text[i] && text[i..][1..] == text[i + 1..];
        ghost var before := Io(mem.View(), screen);
        var _ :- WriteMemoryStream(mem, TableCode(text[i]));
      }
      return Ok(());
    }

    method PrintZscii(mem: Memory, code: word) returns (r: Result<()>)
      modifies this, mem.dynamic
      ensures Lift(Io(mem.View(), screen), r) == CodePrinted(old(Io(mem.View(), screen)), code)
    {
      var rune := OutputRune(code);
      if rune.None? {
        return Ok(());
      }
      if |screen.tables| != 0 {
        r := WriteMemoryStream(mem, code);
      } else {
        screen := ToScreen(screen, [rune.value]);
        r := Ok(());
      }
    }

    method SelectMemoryStream(mem: Memory, addr: word) returns (r: Result<()>)
      modifies this
      ensures Lift(Io(mem.View(), screen), r) == StreamSelected(old(Io(mem.View(), screen)), addr)
    {
      if |screen.tables| >= STREAM_DEPTH {
        return Err(ExecutionFault);
      }
      if !mem.View().Writable(addr, STREAM_HEADER) {
        return Err(MemoryAccess);
      }
      screen := screen.(tables := screen.tables + [Stream(addr, 0)]);
      return Ok(());
    }

    method DeselectMemoryStream(mem: Memory) returns (r: Result<()>)
      modifies this, mem.dynamic
      ensures Lift(Io(mem.View(), screen), r) == StreamDeselected(old(Io(mem.View(), screen)))
    {
      if |screen.tables| == 0 {
        return Ok(());
      }
      var stream := Innermost(screen);
      screen := screen.(tables := Outer(screen));
      r := mem.WriteWord(stream.table, stream.count);
    }
  }
}
