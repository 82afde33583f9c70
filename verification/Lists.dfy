/** Property lists and short names by their addresses and bytes (sections 12.2 and 12.4 of the
    Z-Machine Standards Document 1.1), and what the property instructions make of them. */
module Lists {
  import opened Words
  import opened Memory
  import opened Text
  import opened Objects
  import opened Properties
  import opened Spelling
  import opened Strings

  /** The word at an address, high byte first. */
  function WordAt(m: Mem, a: nat): nat {
    if a + 1 < m.Size() then Pair(m.Get(a), m.Get(a + 1)) else 0
  }

  function ByteAt(m: Mem, a: nat): nat {
    if a < m.Size() then m.Get(a) else 0
  }

  /** Where the property table of an object lies: bytes 7 and 8 of its entry say. */
  function HeaderOf(m: Mem, table: nat, o: word): nat {
    if o == 0 then 0 else WordAt(m, table + 62 + 9 * (o - 1) + 7)
  }

  predicate HasEntry(m: Mem, table: nat, o: word) {
    1 <= o <= 255 && table + 62 + 9 * o <= |m.dynamic|
  }

  lemma HeaderLies(m: Mem, table: nat, o: word)
    ensures PropertyTableAddress(m, table, o).Ok? <==> HasEntry(m, table, o)
    ensures HasEntry(m, table, o) ==> PropertyTableAddress(m, table, o) == Ok(HeaderOf(m, table, o))
  {
  }

  /** The first property follows the name: a length byte, and as many words as it says. */
  lemma ListBegins(m: Mem, table: nat, o: word)
    ensures var first, at := FirstPropertyAddress(m, table, o), HeaderOf(m, table, o);
            && (first.Ok? <==> HasEntry(m, table, o) && at < m.Size())
            && (first.Ok? ==> first.value == at + 1 + 2 * ByteAt(m, at))
  {
    HeaderLies(m, table, o);
    hide PropertyTableAddress, HeaderOf;
  }

  /** A property: the low five bits of its size byte are its number, the high three one less
      than its length, and its data follows. A zero byte ends the list. */
  lemma EntrySays(m: Mem, a: nat)
    ensures ReadEntry(m, a) == Ok(None) <==> a < m.Size() && ByteAt(m, a) == 0
    ensures ReadEntry(m, a).Ok? && ReadEntry(m, a).value.Some? ==>
              var size, e := ByteAt(m, a), ReadEntry(m, a).value.value;
              && e == Entry(size % 32, size / 32 + 1, a + 1, a + 1 + (size / 32 + 1))
              && size % 32 != 0 && e.next <= m.Size()
    ensures ReadEntry(m, a).Err? <==> a >= m.Size() || (ByteAt(m, a) != 0 && (ByteAt(m, a) % 32 == 0 || a + 1 + (ByteAt(m, a) / 32 + 1) > m.Size()))
  {
  }

  lemma DefaultIs(m: Mem, table: nat, p: word)
    ensures Default(m, table, p).Ok? <==> 1 <= p <= 31 && table + 2 * p <= m.Size()
    ensures Default(m, table, p).Ok? ==> Default(m, table, p).value == WordAt(m, table + 2 * (p - 1))
  {
  }

  lemma DataIs(m: Mem, e: Entry)
    requires e.data + e.length <= m.Size()
    ensures ValueAt(m, e).Ok? <==> e.length == 1 || e.length == 2
    ensures e.length == 1 ==> ValueAt(m, e) == Ok(ByteAt(m, e.data))
    ensures e.length == 2 ==> ValueAt(m, e) == Ok(WordAt(m, e.data))
  {
  }

  /** get_prop of a property that the list has: its one byte or its two. */
  lemma PropertyHeld(m: Mem, table: nat, o: word, list: seq<Entry>, i: nat)
    requires HasList(m, table, o, list) && i < |list| && list[i].length <= 2
    ensures list[i].data + list[i].length <= m.Size()
    ensures Value(m, table, o, list[i].number) == Ok(if list[i].length == 1 then ByteAt(m, list[i].data) else WordAt(m, list[i].data))
    ensures list[i].data <= 0xffff ==> DataAddress(m, table, o, list[i].number) == Ok(list[i].data)
  {
    FindInList(m, table, o, list, list[i].number);
    ListEntry(m, FirstPropertyAddress(m, table, o).value, list, i);
    EntrySays(m, list[i].data - 1);
    DataIs(m, list[i]);
    hide ReadEntry, FirstPropertyAddress, Found, ValueAt;
  }

  /** get_prop and get_prop_addr of one it has not: the default, and 0. */
  lemma PropertyMissing(m: Mem, table: nat, o: word, list: seq<Entry>, p: word)
    requires HasList(m, table, o, list) && |list| <= 30 && forall i :: 0 <= i < |list| ==> list[i].number != p
    requires 1 <= p <= 31 && table + 2 * p <= m.Size()
    ensures Value(m, table, o, p) == Ok(WordAt(m, table + 2 * (p - 1))) && DataAddress(m, table, o, p) == Ok(0)
  {
    FindInList(m, table, o, list, p);
    DefaultIs(m, table, p);
    hide ReadEntry, FirstPropertyAddress, Found, Default;
  }

  /** put_prop of a property that the list has changes its data alone. */
  lemma PropertyPut(m: Mem, table: nat, o: word, list: seq<Entry>, i: nat, v: word)
    requires HasList(m, table, o, list) && i < |list| && Stored(m, table, o, list[i].number, v).Done?
    ensures var m', e := Stored(m, table, o, list[i].number, v).state, list[i];
            && 1 <= e.length <= 2 && e.data + e.length <= |m.dynamic|
            && m' == m.(dynamic := if e.length == 1 then m.dynamic[e.data := v % 256]
                                   else m.dynamic[e.data := v / 256][e.data + 1 := v % 256])
  {
    FindInList(m, table, o, list, list[i].number);
    ListEntry(m, FirstPropertyAddress(m, table, o).value, list, i);
    EntrySays(m, list[i].data - 1);
    hide ReadEntry, FirstPropertyAddress, Found;
  }

  /** The short name of an object is the string behind the length byte of its property table,
      or nothing when that byte is zero. */
  lemma NameIs(m: Mem, abbrevs: nat, table: nat, o: word, chars: seq<zchar>)
    requires HasEntry(m, table, o) && HeaderOf(m, table, o) < m.Size()
    ensures ByteAt(m, HeaderOf(m, table, o)) == 0 ==> ShortName(m, abbrevs, table, o) == Ok([])
    ensures var at := HeaderOf(m, table, o);
            StringLies(m, at + 1, chars) && |chars| <= 3 * ByteAt(m, at) && at + 1 + 2 * ByteAt(m, at) <= m.Size() ==>
              ShortName(m, abbrevs, table, o) == ReadText(m, abbrevs, chars, true)
  {
    HeaderLies(m, table, o);
    var at := HeaderOf(m, table, o);
    if StringLies(m, at + 1, chars) && |chars| <= 3 * ByteAt(m, at) && at + 1 + 2 * ByteAt(m, at) <= m.Size() {
      assert |chars| >= 3;
      StringReads(m, at + 1, chars);
      StringIsText(m, abbrevs, at + 1, chars);
      ShortNameIsString(m, abbrevs, table, o, at, ByteAt(m, at));
    }
    hide PropertyTableAddress, StringLies, ReadText, ScanWords, UnpackAll, ScanBytes, Slice, HeaderOf, StringAt;
  }

  // ----- the walk along siblings -----

  /** The object `k` siblings behind another; 0 behind the last. */
  function SiblingsOn(m: Mem, table: nat, o: nat, k: nat): nat {
    if k == 0 then o
    else
      var x := SiblingsOn(m, table, o, k - 1);
      if x == 0 then 0 else ByteAt(m, table + 62 + 9 * (x - 1) + 5)
  }

  lemma {:induction false} OneOn(m: Mem, table: nat, o: nat, k: nat)
    ensures SiblingsOn(m, table, SiblingsOn(m, table, o, 1), k) == SiblingsOn(m, table, o, k + 1)
  {
    if k > 0 {
      OneOn(m, table, o, k - 1);
    }
  }

  /** The walk reaches object `o` within `k` siblings of an object. */
  ghost predicate Reaches(m: Mem, table: nat, first: nat, o: nat, k: nat) {
    && (forall j :: 0 <= j <= k ==> 1 <= SiblingsOn(m, table, first, j) <= 255 && HasEntry(m, table, SiblingsOn(m, table, first, j)))
    && SiblingsOn(m, table, first, k + 1) == o
  }

  lemma ReachesOn(m: Mem, table: nat, first: nat, o: nat, k: nat)
    requires 1 <= first <= 255 && HasEntry(m, table, first)
    ensures Reaches(m, table, first, o, k + 1) <==> Reaches(m, table, SiblingsOn(m, table, first, 1), o, k)
  {
    hide HasEntry;
    var next := SiblingsOn(m, table, first, 1);
    forall j: nat ensures SiblingsOn(m, table, next, j) == SiblingsOn(m, table, first, j + 1) {
      OneOn(m, table, first, j);
    }
    hide SiblingsOn;
    if Reaches(m, table, next, o, k) {
      forall j | 0 <= j <= k + 1 ensures 1 <= SiblingsOn(m, table, first, j) <= 255 && HasEntry(m, table, SiblingsOn(m, table, first, j)) {
        if j > 0 {
          assert SiblingsOn(m, table, next, j - 1) == SiblingsOn(m, table, first, j);
        } else {
          Nothing(m, table, first);
        }
      }
    }
  }

  lemma Nothing(m: Mem, table: nat, first: nat)
    ensures SiblingsOn(m, table, first, 0) == first
  {
  }

  lemma SiblingIs(m: Mem, table: nat, o: word)
    requires o != 0
    ensures ObjectRelative(m, table, o, SIBLING).Ok? <==> HasEntry(m, table, o)
    ensures HasEntry(m, table, o) ==> ObjectRelative(m, table, o, SIBLING) == Ok(SiblingsOn(m, table, o, 1)) && SiblingsOn(m, table, o, 1) <= 255
  {
    Nothing(m, table, o);
  }

  /** The walk that unlinks an object succeeds exactly when it meets the object among the first
      255 siblings; on any memory it ends. */
  lemma {:induction false} WalkExactly(m: Mem, table: nat, number: word, successor: word, current: word, steps: nat)
    requires successor <= 255 && steps <= 255
    ensures UnlinkedAfter(m, table, number, successor, current, steps).Done? <==>
            exists k: nat :: k < 255 - steps && Reaches(m, table, current, number, k)
    decreases 255 - steps
  {
    hide HasEntry, SiblingsOn, ObjectRelative, RelativeSet;
    Nothing(m, table, current);
    if current != 0 {
      SiblingIs(m, table, current);
    }
    if current != 0 && steps < 255 && HasEntry(m, table, current) {
      EntrySmall(m, table, current);
      var next := SiblingsOn(m, table, current, 1);
      if next == number {
        assert Reaches(m, table, current, number, 0);
        LinkCanBeSet(m, table, current, successor);
      } else {
        assert UnlinkedAfter(m, table, number, successor, current, steps) == UnlinkedAfter(m, table, number, successor, next, steps + 1);
        WalkExactly(m, table, number, successor, next, steps + 1);
        forall k: nat ensures Reaches(m, table, current, number, k + 1) <==> Reaches(m, table, next, number, k) {
          ReachesOn(m, table, current, number, k);
        }
        if exists k: nat :: k < 255 - steps && Reaches(m, table, current, number, k) {
          var k: nat :| k < 255 - steps && Reaches(m, table, current, number, k);
          assert k > 0;
          assert Reaches(m, table, current, number, (k - 1) + 1);
          assert Reaches(m, table, next, number, k - 1);
        }
        if exists k: nat :: k < 254 - steps && Reaches(m, table, next, number, k) {
          var k: nat :| k < 254 - steps && Reaches(m, table, next, number, k);
          assert Reaches(m, table, current, number, k + 1);
        }
      }
    }
  }

  lemma EntrySmall(m: Mem, table: nat, o: word)
    requires HasEntry(m, table, o)
    ensures 1 <= o <= 255
  {
  }

  lemma LinkCanBeSet(m: Mem, table: nat, o: word, v: word)
    requires HasEntry(m, table, o) && v <= 255
    ensures RelativeSet(m, table, o, SIBLING, v).Done?
  {
  }
}
