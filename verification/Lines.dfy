/** What a read leaves in the text buffer, said of the characters of the line themselves
    (input.go): the line lower-cased, without what ZSCII cannot show, and cut to the room. */
module Lines {
  import opened Words
  import opened Memory
  import opened Text
  import opened Input

  /** The character has no ZSCII code that can be shown. */
  predicate Dropped(r: rune, lower: rune -> rune) {
    match FromRune(lower(r))
    case None => true
    case Some(code) => code < 32
  }

  /** `text` holds the codes of the lower-case forms of the characters at the positions `at`. */
  ghost predicate Coded(line: Str, lower: rune -> rune, at: seq<nat>, text: seq<byte>) {
    && |at| == |text|
    && forall i :: 0 <= i < |at| ==> at[i] < |line| && FromRune(lower(line[at[i]])) == Some(text[i]) && text[i] >= 32
  }

  /** Nothing that could be kept is passed over, except behind the last one when there is no
      room left. */
  ghost predicate PassesDropped(line: Str, lower: rune -> rune, room: nat, at: seq<nat>) {
    forall p :: 0 <= p < |line| && p !in at && (|at| < room || (at != [] && p < at[|at| - 1])) ==> Dropped(line[p], lower)
  }

  /** `text` is what is kept of the line: the characters at the positions `at`, in order. */
  ghost predicate Keeps(line: Str, lower: rune -> rune, room: nat, at: seq<nat>, text: seq<byte>) {
    && |text| <= room
    && Coded(line, lower, at, text)
    && (forall i, j :: 0 <= i < j < |at| ==> at[i] < at[j])
    && PassesDropped(line, lower, room, at)
  }

  function Later(at: seq<nat>): (later: seq<nat>)
    ensures |later| == |at| && forall i :: 0 <= i < |at| ==> later[i] == at[i] + 1
  {
    seq<nat>(|at|, i requires 0 <= i < |at| => at[i] + 1)
  }

  lemma {:induction false} TypedKeeps(line: Str, lower: rune -> rune, room: nat) returns (at: seq<nat>)
    ensures Keeps(line, lower, room, at, Typed(line, lower, room))
    decreases |line|
  {
    hide FromRune;
    at := [];
    if line != [] && room > 0 {
      if Dropped(line[0], lower) {
        var rest := TypedKeeps(line[1..], lower, room);
        at := Later(rest);
        KeepsMore(line, lower, room, rest, at, Typed(line, lower, room));
      } else {
        var rest := TypedKeeps(line[1..], lower, room - 1);
        at := [0] + Later(rest);
        var text := Typed(line, lower, room);
        assert text[1..] == Typed(line[1..], lower, room - 1);
        KeepsFirst(line, lower, room, rest, at, text);
      }
    }
  }

  lemma LaterHolds(rest: seq<nat>, at: seq<nat>)
    requires |at| >= |rest| && forall i :: 0 <= i < |rest| ==> at[|at| - |rest| + i] == rest[i] + 1
    ensures forall q :: q in rest ==> q + 1 in at
  {
    forall q | q in rest ensures q + 1 in at {
      var i :| 0 <= i < |rest| && rest[i] == q;
      assert at[|at| - |rest| + i] == q + 1;
    }
  }

  lemma MorePasses(line: Str, lower: rune -> rune, room: nat, rest: seq<nat>, at: seq<nat>)
    requires line != [] && Dropped(line[0], lower) && at == Later(rest) && PassesDropped(line[1..], lower, room, rest)
    ensures PassesDropped(line, lower, room, at)
  {
    hide Dropped;
    LaterHolds(rest, at);
    forall p | 0 <= p < |line| && p !in at && (|at| < room || (at != [] && p < at[|at| - 1])) ensures Dropped(line[p], lower) {
      if p > 0 {
        assert p - 1 !in rest;
        assert line[1..][p - 1] == line[p];
      }
    }
  }

  lemma KeepsMore(line: Str, lower: rune -> rune, room: nat, rest: seq<nat>, at: seq<nat>, text: seq<byte>)
    requires line != [] && Dropped(line[0], lower) && Keeps(line[1..], lower, room, rest, text) && at == Later(rest)
    ensures Keeps(line, lower, room, at, text)
  {
    hide Dropped, FromRune, PassesDropped;
    MorePasses(line, lower, room, rest, at);
    assert Coded(line, lower, at, text) by {
      assert forall i :: 0 <= i < |at| ==> line[1..][rest[i]] == line[at[i]];
    }
    hide Coded;
  }

  lemma KeepsFirst(line: Str, lower: rune -> rune, room: nat, rest: seq<nat>, at: seq<nat>, text: seq<byte>)
    requires line != [] && room > 0 && text != [] && text[0] >= 32 && FromRune(lower(line[0])) == Some(text[0])
    requires Keeps(line[1..], lower, room - 1, rest, text[1..]) && at == [0] + Later(rest)
    ensures Keeps(line, lower, room, at, text)
  {
    hide FromRune, PassesDropped;
    assert Coded(line, lower, at, text) by {
      forall i | 0 < i < |at| ensures FromRune(lower(line[at[i]])) == Some(text[i]) && text[i] >= 32 {
        assert at[i] == rest[i - 1] + 1 && text[1..][i - 1] == text[i] && line[1..][rest[i - 1]] == line[at[i]];
      }
    }
    hide Coded;
    FirstPasses(line, lower, room, rest, at);
  }

  lemma FirstPasses(line: Str, lower: rune -> rune, room: nat, rest: seq<nat>, at: seq<nat>)
    requires line != [] && room > 0 && at == [0] + Later(rest) && PassesDropped(line[1..], lower, room - 1, rest)
    ensures PassesDropped(line, lower, room, at)
  {
    hide Dropped;
    LaterHolds(rest, at);
    assert at[0] == 0;
    forall p | 0 <= p < |line| && p !in at && (|at| < room || (at != [] && p < at[|at| - 1])) ensures Dropped(line[p], lower) {
      assert p > 0 && p - 1 !in rest && line[1..][p - 1] == line[p];
    }
  }

  /** The text buffer after a line has been stored: its first byte, which says how much fits,
      is as it was; then come the codes kept of the line, at most one fewer than it says, and
      a zero. Nothing else changes. */
  lemma LineKept(m: Mem, addr: nat, line: Str, lower: rune -> rune) returns (at: seq<nat>, text: seq<byte>)
    requires LineStored(m, addr, line, lower).Done?
    ensures m.Readable(addr, 1) && m.Get(addr) >= 2 && m.Writable(addr, m.Get(addr) + 1)
    ensures Keeps(line, lower, m.Get(addr) - 1, at, text) && LineStored(m, addr, line, lower).value == text
    ensures var m' := LineStored(m, addr, line, lower).state;
            && SameShape(m, m')
            && (forall i :: 0 <= i < |text| ==> m'.Get(addr + 1 + i) == text[i])
            && m'.Get(addr + 1 + |text|) == 0
            && forall a: nat :: a < m.Size() && !(addr + 1 <= a <= addr + 1 + |text|) ==> m'.Get(a) == m.Get(a)
  {
    hide Keeps, Typed, FromRune, LineStored;
    LineStoredParts(m, addr, line, lower);
    text := Typed(line, lower, m.Get(addr) - 1);
    at := TypedKeeps(line, lower, m.Get(addr) - 1);
    BytesThere(m, addr + 1, text + [0]);
  }

  lemma BytesThere(m: Mem, addr: nat, bytes: seq<byte>)
    requires m.Writable(addr, |bytes|)
    ensures var m' := WithBytes(m, addr, bytes);
            && SameShape(m, m')
            && (forall i :: 0 <= i < |bytes| ==> m'.Get(addr + i) == bytes[i])
            && forall a: nat :: a < m.Size() && !(addr <= a < addr + |bytes|) ==> m'.Get(a) == m.Get(a)
  {
  }

  /** It is refused exactly when the buffer has no room for a character, or does not lie whole
      in dynamic memory. */
  lemma LineRefused(m: Mem, addr: nat, line: Str, lower: rune -> rune)
    ensures LineStored(m, addr, line, lower).Done? <==>
            addr < m.Size() && m.Get(addr) >= 2 && addr + m.Get(addr) + 1 <= |m.dynamic|
    ensures LineStored(m, addr, line, lower).Fail? ==>
              LineStored(m, addr, line, lower) ==
              Fail(m, if addr < m.Size() && m.Get(addr) < 2 then ExecutionFault else MemoryAccess)
  {
    hide Typed;
  }
}
