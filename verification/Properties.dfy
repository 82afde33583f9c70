/** Property tables (property.go): sections 12.2 and 12.4 of the Z-Machine Standards
    Document 1.1. */
module Properties {
  import opened Words
  import opened Memory
  import opened Objects
  import opened Text

  const PROPERTY_NUMBER_MAX := 31
  const PROPERTY_WORD_MAX := 2

  datatype Entry = Entry(number: byte, length: nat, data: nat, next: nat)

  function PropertyTableAddress(m: Mem, table: nat, number: word): Result<nat> {
    var entry :- ObjectAddress(m, table, number);
    m.ReadWord(entry + PROPERTIES)
  }

  /** The first size byte: it follows the short name. */
  function FirstPropertyAddress(m: Mem, table: nat, number: word): Result<nat> {
    var at :- PropertyTableAddress(m, table, number);
    var words :- m.ReadByte(at);
    var start: nat := at + 1 + words * 2;
    Ok(start)
  }

  /** The property whose size byte is at `addr`; None at the zero byte ending the list. */
  function ReadEntry(m: Mem, addr: nat): (r: Result<Option<Entry>>)
    ensures r.Ok? && r.value.Some? ==>
              var e := r.value.value;
              && 1 <= e.number <= PROPERTY_NUMBER_MAX && 1 <= e.length <= 8
              && e.data == addr + 1 && e.next == e.data + e.length
              && m.Readable(addr, 1 + e.length)
  {
    var size :- m.ReadByte(addr);
    if size == 0 then Ok(None)
    else if size % 32 == 0 then Err(ExecutionFault)
    else
      var length := size / 32 + 1;
      if !m.Readable(addr + 1, length) then Err(MemoryAccess)
      else Ok(Some(Entry(size % 32, length, addr + 1, addr + 1 + length)))
  }

  /** Looks for a property among the next `budget` entries. */
  function Search(m: Mem, addr: nat, budget: nat, property: word): Result<Option<Entry>>
    decreases budget
  {
    if budget == 0 then Err(ExecutionFault)
    else
      var found :- ReadEntry(m, addr);
      if found.None? || found.value.number == property then Ok(found)
      else Search(m, found.value.next, budget - 1, property)
  }

  function Found(m: Mem, table: nat, number: word, property: word): Result<Option<Entry>> {
    var first :- FirstPropertyAddress(m, table, number);
    Search(m, first, PROPERTY_NUMBER_MAX, property)
  }

  /** The number after `property` among the next `budget` entries; `seen` says whether
      `property` has gone by already. */
  function SearchNext(m: Mem, addr: nat, budget: nat, property: word, seen: bool): Result<word>
    decreases budget
  {
    if budget == 0 then Err(ExecutionFault)
    else
      var found :- ReadEntry(m, addr);
      if found.None? then if seen then Ok(0) else Err(ExecutionFault)
      else if seen then Ok(found.value.number)
      else SearchNext(m, found.value.next, budget - 1, property, found.value.number == property)
  }

  /** get_next_prop. */
  function NextNumber(m: Mem, table: nat, number: word, property: word): Result<word> {
    var first :- FirstPropertyAddress(m, table, number);
    SearchNext(m, first, PROPERTY_NUMBER_MAX, property, property == 0)
  }

  function Default(m: Mem, table: nat, property: word): Result<word> {
    if property == 0 || property > PROPERTY_NUMBER_MAX then Err(ExecutionFault)
    else m.ReadWord(table + (property - 1) * 2)
  }

  function ValueAt(m: Mem, e: Entry): Result<word> {
    if e.length == 1 then
      var v :- m.ReadByte(e.data);
      Ok(v)
    else if e.length == PROPERTY_WORD_MAX then m.ReadWord(e.data)
    else Err(ExecutionFault)
  }

  /** get_prop. */
  function Value(m: Mem, table: nat, number: word, property: word): Result<word> {
    var found :- Found(m, table, number, property);
    match found
    case None => Default(m, table, property)
    case Some(e) => ValueAt(m, e)
  }

  /** get_prop_addr. */
  function DataAddress(m: Mem, table: nat, number: word, property: word): Result<word> {
    var found :- Found(m, table, number, property);
    match found
    case None => Ok(0)
    case Some(e) => if e.data > 0xffff then Err(ExecutionFault) else Ok(e.data)
  }

  /** get_prop_len. */
  function Length(m: Mem, addr: word): Result<word> {
    if addr == 0 then Ok(0)
    else
      var size :- m.ReadByte(addr - 1);
      if size == 0 then Err(ExecutionFault) else Ok(size / 32 + 1)
  }

  function StoredAt(m: Mem, e: Entry, value: word): (r: Act<Mem, ()>)
    ensures SameShape(m, r.state)
    ensures r.Fail? ==> r.state == m
  {
    if e.length == 1 then m.WriteByte(e.data, Lo(value))
    else if e.length == PROPERTY_WORD_MAX then m.WriteWord(e.data, value)
    else Fail(m, ExecutionFault)
  }

  /** put_prop. */
  function Stored(m: Mem, table: nat, number: word, property: word, value: word): (r: Act<Mem, ()>)
    ensures SameShape(m, r.state)
    ensures r.Fail? ==> r.state == m
  {
    var (_, found) :- Lift(m, Found(m, table, number, property));
    match found
    case None => Fail(m, ExecutionFault)
    case Some(e) => StoredAt(m, e, value)
  }

  /** The short name in the header of a property table: its length byte bounds it. */
  function ShortName(m: Mem, abbrevs: nat, table: nat, number: word): Result<Str> {
    var at :- PropertyTableAddress(m, table, number);
    var words :- m.ReadByte(at);
    if words == 0 then Ok([])
    else if !m.Readable(at + 1, words * 2) then Err(MemoryAccess)
    else match ScanBytes(Slice(m, at + 1, words * 2))
         case None => Err(InvalidText)
         case Some(ws) => ReadText(m, abbrevs, UnpackAll(ws), true)
  }

  /** A short name is the string after the length byte, provided the length byte says it
      has an end. */
  lemma ShortNameIsString(m: Mem, abbrevs: nat, table: nat, number: word, at: nat, words: byte)
    requires PropertyTableAddress(m, table, number) == Ok(at) && m.ReadByte(at) == Ok(words) && words > 0
    requires m.Readable(at + 1, words * 2)
    ensures ShortName(m, abbrevs, table, number) ==
            match ScanWords(m, at + 1)
            case Some(ws) => if |ws| <= words then StringAt(m, abbrevs, at + 1) else Err(InvalidText)
            case None => Err(InvalidText)
  {
    hide PropertyTableAddress, ReadText, UnpackAll, ScanBytes, ScanWords, Slice;
    ReadersAgree(m, at + 1, Slice(m, at + 1, words * 2));
  }

  // ----- the loops and the write in place -----

  method ObjectShortName(m: Mem, abbrevs: nat, table: nat, number: word) returns (r: Result<Str>)
    ensures r == ShortName(m, abbrevs, table, number)
  {
    hide PropertyTableAddress, ReadText, ScanBytes, UnpackAll;
    var at :- PropertyTableAddress(m, table, number);
    var words :- m.ReadByte(at);
    if words == 0 {
      return Ok([]);
    }
    var length: nat := words as nat * 2;
    if !m.Readable(at + 1, length) {
      return Err(MemoryAccess);
    }
    var encoded: seq<byte> := [];
    for i := 0 to length
      invariant encoded == Slice(m, at + 1, i)
    {
      encoded := encoded + [m.Get(at + 1 + i)];
    }
    var chars :- UnpackZChars(encoded);
    r := DecodeZText(m, abbrevs, chars.0, true);
  }

  method FindProperty(m: Mem, table: nat, number: word, property: word) returns (r: Result<Option<Entry>>)
    ensures r == Found(m, table, number, property)
  {
    var first :- FirstPropertyAddress(m, table, number);
    var addr := first;
    for count := 0 to PROPERTY_NUMBER_MAX
      invariant Search(m, first, PROPERTY_NUMBER_MAX, property) ==
                Search(m, addr, PROPERTY_NUMBER_MAX - count, property)
    {
      var entry :- ReadEntry(m, addr);
      if entry.None? || entry.value.number == property {
        return Ok(entry);
      }
      addr := entry.value.next;
    }
    return Err(ExecutionFault);
  }

  method NextPropertyNumber(m: Mem, table: nat, number: word, property: word) returns (r: Result<word>)
    ensures r == NextNumber(m, table, number, property)
  {
    var first :- FirstPropertyAddress(m, table, number);
    var addr := first;
    var seen := property == 0;
    for count := 0 to PROPERTY_NUMBER_MAX
      invariant SearchNext(m, first, PROPERTY_NUMBER_MAX, property, property == 0) ==
                SearchNext(m, addr, PROPERTY_NUMBER_MAX - count, property, seen)
    {
      var entry :- ReadEntry(m, addr);
      if entry.None? {
        return if seen then Ok(0) else Err(ExecutionFault);
      }
      if seen {
        return Ok(entry.value.number);
      }
      if entry.value.number == property {
        seen := true;
      }
      addr := entry.value.next;
    }
    return Err(ExecutionFault);
  }

  method PropertyValue(m: Mem, table: nat, number: word, property: word) returns (r: Result<word>)
    ensures r == Value(m, table, number, property)
  {
    var found :- FindProperty(m, table, number, property);
    if found.None? {
      return Default(m, table, property);
    }
    return ValueAt(m, found.value);
  }

  method PropertyAddress(m: Mem, table: nat, number: word, property: word) returns (r: Result<word>)
    ensures r == DataAddress(m, table, number, property)
  {
    var found :- FindProperty(m, table, number, property);
    if found.None? {
      return Ok(0);
    }
    return if found.value.data > 0xffff then Err(ExecutionFault) else Ok(found.value.data);
  }

  method PutProperty(mem: Memory, table: nat, number: word, property: word, value: word) returns (r: Result<()>)
    modifies mem.dynamic
    ensures Lift(mem.View(), r) == Stored(old(mem.View()), table, number, property, value)
  {
    var found :- FindProperty(mem.View(), table, number, property);
    if found.None? {
      return Err(ExecutionFault);
    }
    var e := found.value;
    if e.length == 1 {
      r := mem.WriteByte(e.data, Lo(value));
    } else if e.length == PROPERTY_WORD_MAX {
      r := mem.WriteWord(e.data, value);
    } else {
      r := Err(ExecutionFault);
    }
  }

  // ----- property lists -----

  /** `list` is the zero-terminated property list at `addr`. */
  ghost predicate ListAt(m: Mem, addr: nat, list: seq<Entry>)
    decreases |list|
  {
    if list == [] then ReadEntry(m, addr) == Ok(None)
    else ReadEntry(m, addr) == Ok(Some(list[0])) && ListAt(m, list[0].next, list[1..])
  }

  ghost predicate Descending(list: seq<Entry>) {
    forall i, j :: 0 <= i < j < |list| ==> list[i].number > list[j].number
  }

  ghost predicate HasList(m: Mem, table: nat, number: word, list: seq<Entry>) {
    var first := FirstPropertyAddress(m, table, number);
    first.Ok? && ListAt(m, first.value, list) && Descending(list)
  }

  /** Searching a list: the entry if it is within the budget, else None when the terminator
      is within it, else a fault. */
  lemma {:induction false} SearchList(m: Mem, addr: nat, list: seq<Entry>, budget: nat, property: word)
    requires ListAt(m, addr, list)
    ensures forall i :: 0 <= i < |list| && i < budget && list[i].number == property &&
                        (forall j :: 0 <= j < i ==> list[j].number != property) ==>
              Search(m, addr, budget, property) == Ok(Some(list[i]))
    ensures (forall i :: 0 <= i < |list| ==> list[i].number != property) ==>
              Search(m, addr, budget, property) == if |list| < budget then Ok(None) else Err(ExecutionFault)
    decreases |list|
  {
    if list != [] && budget > 0 {
      SearchList(m, list[0].next, list[1..], budget - 1, property);
      forall i | 0 <= i < |list| && i < budget && list[i].number == property &&
                 (forall j :: 0 <= j < i ==> list[j].number != property)
        ensures Search(m, addr, budget, property) == Ok(Some(list[i]))
      {
        if i > 0 {
          assert list[1..][i - 1] == list[i];
          assert forall j :: 0 <= j < i - 1 ==> list[1..][j] == list[j + 1];
        }
      }
    }
  }

  /** Numbers run from 1 to 31, so a descending list has at most 31 entries. */
  lemma {:induction false} DescendingIsShort(m: Mem, addr: nat, list: seq<Entry>)
    requires ListAt(m, addr, list) && Descending(list)
    ensures forall i :: 0 <= i < |list| ==> 1 <= list[i].number <= PROPERTY_NUMBER_MAX
    ensures list != [] ==> |list| <= list[0].number
    decreases |list|
  {
    if list != [] {
      DescendingIsShort(m, list[0].next, list[1..]);
      assert forall i :: 0 < i < |list| ==> list[i] == list[1..][i - 1];
    }
  }

  /** Every property of a descending list is found. A property the object does not have is
      reported as absent exactly when the list has at most 30 entries: with all 31 present
      the walk never reads the terminator, and the query faults. */
  lemma FindInList(m: Mem, table: nat, number: word, list: seq<Entry>, property: word)
    requires HasList(m, table, number, list)
    ensures forall i :: 0 <= i < |list| && list[i].number == property ==>
              Found(m, table, number, property) == Ok(Some(list[i]))
    ensures (forall i :: 0 <= i < |list| ==> list[i].number != property) ==>
              (Found(m, table, number, property) == Ok(None) <==> |list| <= 30) &&
              (Found(m, table, number, property).Err? <==> |list| == 31)
  {
    var first := FirstPropertyAddress(m, table, number).value;
    DescendingIsShort(m, first, list);
    SearchList(m, first, list, PROPERTY_NUMBER_MAX, property);
  }

  lemma {:induction false} SearchNextList(m: Mem, addr: nat, list: seq<Entry>, budget: nat, property: word, i: nat)
    requires ListAt(m, addr, list) && Descending(list) && i < |list| < budget + 1
    requires list[i].number == property
    ensures SearchNext(m, addr, budget, property, false) ==
            if i + 1 < |list| then Ok(list[i + 1].number)
            else if |list| < budget then Ok(0) else Err(ExecutionFault)
    decreases i
  {
    assert ListAt(m, list[0].next, list[1..]);
    if i > 0 {
      assert list[0].number > list[i].number;
      assert list[1..][i - 1] == list[i];
      SearchNextList(m, list[0].next, list[1..], budget - 1, property, i - 1);
    } else if |list| > 1 {
      assert list[1..][0] == list[1];
    }
  }

  /** Applying get_next_prop `k` times, starting from 0. */
  function Iterated(m: Mem, table: nat, number: word, k: nat): Result<word> {
    if k == 0 then Ok(0)
    else
      var p :- Iterated(m, table, number, k - 1);
      NextNumber(m, table, number, p)
  }

  /** Iterating get_next_prop enumerates the list in order, and then gives 0 — unless the
      list has all 31 entries, when the last step faults instead. */
  lemma {:induction false} IterationEnumerates(m: Mem, table: nat, number: word, list: seq<Entry>, k: nat)
    requires HasList(m, table, number, list) && 1 <= k <= |list| + 1
    ensures Iterated(m, table, number, k) ==
            if k <= |list| then Ok(list[k - 1].number)
            else if |list| <= 30 then Ok(0) else Err(ExecutionFault)
    decreases k
  {
    var first := FirstPropertyAddress(m, table, number).value;
    DescendingIsShort(m, first, list);
    if k > 1 {
      IterationEnumerates(m, table, number, list, k - 1);
      SearchNextList(m, first, list, PROPERTY_NUMBER_MAX, list[k - 2].number, k - 2);
    } else {
      assert Iterated(m, table, number, 0) == Ok(0);
    }
  }

  /** get_prop_len of get_prop_addr is the stored length. */
  lemma LengthOfAddress(m: Mem, table: nat, number: word, list: seq<Entry>, i: nat)
    requires HasList(m, table, number, list) && i < |list| && list[i].data <= 0xffff
    ensures DataAddress(m, table, number, list[i].number) == Ok(list[i].data)
    ensures Length(m, list[i].data) == Ok(list[i].length)
  {
    FindInList(m, table, number, list, list[i].number);
    ListEntry(m, FirstPropertyAddress(m, table, number).value, list, i);
    EntrySize(m, list[i]);
    hide ReadEntry, FirstPropertyAddress, Length;
  }

  lemma EntrySize(m: Mem, e: Entry)
    requires 0 < e.data <= 0xffff && ReadEntry(m, e.data - 1) == Ok(Some(e))
    ensures Length(m, e.data) == Ok(e.length)
  {
  }

  /** Entries are read at their own size bytes, one behind the other. */
  lemma {:induction false} ListEntry(m: Mem, addr: nat, list: seq<Entry>, i: nat)
    requires ListAt(m, addr, list) && i < |list|
    ensures list[i].data > addr && ReadEntry(m, list[i].data - 1) == Ok(Some(list[i]))
    ensures forall j :: i < j < |list| ==> list[j].data > list[i].next
    decreases |list|
  {
    if i > 0 {
      ListEntry(m, list[0].next, list[1..], i - 1);
      assert forall j :: 0 < j < |list| ==> list[1..][j - 1] == list[j];
    } else {
      forall j | 0 < j < |list| ensures list[j].data > list[0].next {
        ListEntry(m, list[0].next, list[1..], j - 1);
      }
    }
  }

  /** A write inside the data of one entry leaves the whole list in place. */
  lemma {:induction false} ListSurvives(m: Mem, m': Mem, addr: nat, list: seq<Entry>, lo: nat, hi: nat)
    requires ListAt(m, addr, list) && SameOutside(m, m', lo, hi)
    requires hi <= addr || exists k :: 0 <= k < |list| && list[k].data <= lo <= hi <= list[k].next
    ensures ListAt(m', addr, list)
    decreases |list|
  {
    if list != [] {
      if hi > addr {
        var k :| 0 <= k < |list| && list[k].data <= lo <= hi <= list[k].next;
        ListEntry(m, addr, list, k);
        if k > 0 {
          assert list[1..][k - 1] == list[k];
        }
      }
      assert ReadEntry(m', addr) == ReadEntry(m, addr);
      ListSurvives(m, m', list[0].next, list[1..], lo, hi);
    }
  }

  lemma StoredWrites(m: Mem, e: Entry, value: word)
    requires StoredAt(m, e, value).Done? && e.next == e.data + e.length
    ensures var m' := StoredAt(m, e, value).state;
            && SameOutside(m, m', e.data, e.next)
            && ValueAt(m', e) == Ok(if e.length == 1 then value % 256 else value)
  {
  }

  lemma ValueElsewhere(m: Mem, m': Mem, e: Entry, lo: nat, hi: nat)
    requires SameOutside(m, m', lo, hi) && e.next == e.data + e.length
    requires hi <= e.data || e.next <= lo
    ensures ValueAt(m', e) == ValueAt(m, e)
  {
  }

  lemma PutKeepsList(m: Mem, m': Mem, table: nat, number: word, list: seq<Entry>, i: nat)
    requires HasList(m, table, number, list) && i < |list|
    requires SameOutside(m, m', list[i].data, list[i].next)
    requires list[i].next <= EntryAddress(table, number) || EntryAddress(table, number) + ENTRY_SIZE <= list[i].data
    ensures FirstPropertyAddress(m', table, number) == FirstPropertyAddress(m, table, number)
    ensures HasList(m', table, number, list)
  {
    var first := FirstPropertyAddress(m, table, number).value;
    assert 1 <= number;
    hide FirstPropertyAddress, ReadEntry;
    ListEntry(m, first, list, i);
    FirstSurvives(m, m', table, number, list[i].data, list[i].next);
    ListSurvives(m, m', first, list, list[i].data, list[i].next);
  }

  /** A write behind the header of a property table, away from the object's entry, leaves
      the start of the list where it was. */
  lemma FirstSurvives(m: Mem, m': Mem, table: nat, number: word, lo: nat, hi: nat)
    requires FirstPropertyAddress(m, table, number).Ok? && FirstPropertyAddress(m, table, number).value <= lo
    requires SameOutside(m, m', lo, hi) && 1 <= number
    requires hi <= EntryAddress(table, number) || EntryAddress(table, number) + ENTRY_SIZE <= lo
    ensures FirstPropertyAddress(m', table, number) == FirstPropertyAddress(m, table, number)
  {
    assert ObjectAddress(m', table, number) == ObjectAddress(m, table, number);
    hide EntryAddress, ObjectAddress;
    assert PropertyTableAddress(m', table, number) == PropertyTableAddress(m, table, number);
  }

  /** put_prop then get_prop gives the value back, modulo 256 for a property of one byte;
      the list keeps its structure and every other property its value, provided the data
      does not overlap the object's own entry in the object table. */
  lemma PutThenGet(m: Mem, table: nat, number: word, list: seq<Entry>, i: nat, value: word, j: nat)
    requires HasList(m, table, number, list) && i < |list| && j < |list|
    requires Stored(m, table, number, list[i].number, value).Done?
    requires list[i].next <= EntryAddress(table, number) || EntryAddress(table, number) + ENTRY_SIZE <= list[i].data
    ensures var m' := Stored(m, table, number, list[i].number, value).state;
            && HasList(m', table, number, list)
            && Value(m', table, number, list[i].number) == Ok(if list[i].length == 1 then value % 256 else value)
            && (j != i ==> Value(m', table, number, list[j].number) == Value(m, table, number, list[j].number))
  {
    var m' := Stored(m, table, number, list[i].number, value).state;
    FindInList(m, table, number, list, list[i].number);
    FindInList(m, table, number, list, list[j].number);
    assert list[i].next == list[i].data + list[i].length && list[j].next == list[j].data + list[j].length by {
      ListEntry(m, FirstPropertyAddress(m, table, number).value, list, i);
      ListEntry(m, FirstPropertyAddress(m, table, number).value, list, j);
    }
    StoredWrites(m, list[i], value);
    PutKeepsList(m, m', table, number, list, i);
    FindInList(m', table, number, list, list[i].number);
    FindInList(m', table, number, list, list[j].number);
    if i < j {
      ListEntry(m, FirstPropertyAddress(m, table, number).value, list, i);
      ValueElsewhere(m, m', list[j], list[i].data, list[i].next);
    } else if j < i {
      ListEntry(m, FirstPropertyAddress(m, table, number).value, list, j);
      ValueElsewhere(m, m', list[j], list[i].data, list[i].next);
    }
  }

  /** put_prop succeeds exactly on the properties of one or two bytes in dynamic memory. */
  lemma PutSucceeds(m: Mem, table: nat, number: word, list: seq<Entry>, i: nat, value: word)
    requires HasList(m, table, number, list) && i < |list|
    ensures Stored(m, table, number, list[i].number, value).Done? <==>
            list[i].length <= PROPERTY_WORD_MAX && m.Writable(list[i].data, list[i].length)
  {
    FindInList(m, table, number, list, list[i].number);
    ListEntry(m, FirstPropertyAddress(m, table, number).value, list, i);
  }
}
