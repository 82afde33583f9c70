/** The object table in raw bytes (object.go): section 12.3 of the Z-Machine Standards
    Document 1.1. `table` is the byte address of the object table throughout. */
module Objects {
  import opened Words
  import opened Memory

  const MAX_OBJECTS := 255
  const ENTRY_SIZE := 9
  const PARENT := 4
  const SIBLING := 5
  const CHILD := 6
  const PROPERTIES := 7
  const ATTRIBUTE_COUNT := 32
  const CHAIN_LIMIT := MAX_OBJECTS

  /** Where the entry of an object lies, whether or not memory reaches that far. */
  function EntryAddress(table: nat, number: nat): nat
    requires 1 <= number
  {
    table + PROPERTY_DEFAULTS_SIZE + (number - 1) * ENTRY_SIZE
  }

  function ObjectAddress(m: Mem, table: nat, number: word): (r: Result<nat>)
  {
    if number == 0 || number > MAX_OBJECTS then Err(ExecutionFault)
    else if !m.Writable(EntryAddress(table, number), ENTRY_SIZE) then Err(ExecutionFault)
    else Ok(EntryAddress(table, number))
  }

  // ----- attributes -----

  /** The byte holding an attribute and the bit of it: the topmost bit comes first. */
  function AttributeAddress(m: Mem, table: nat, number: word, attribute: word): (r: Result<(nat, nat)>)
    ensures r.Ok? ==> m.Writable(r.value.0, 1) && r.value.1 < 8
  {
    var entry :- ObjectAddress(m, table, number);
    if attribute >= ATTRIBUTE_COUNT then Err(ExecutionFault)
    else Ok((entry + attribute / 8, 7 - attribute % 8))
  }

  function ObjectAttribute(m: Mem, table: nat, number: word, attribute: word): Result<bool> {
    var (addr, bit) :- AttributeAddress(m, table, number, attribute);
    Ok(Bit(m.Get(addr), bit))
  }

  /** The byte `v` with one of its bits turned on or off. */
  function MaskedByte(v: byte, bit: nat, on: bool): byte
    requires bit < 8
  {
    assert Pow2(4) == 16 && Pow2(8) == 16 * Pow2(4);
    WithBitFits(v, bit, on, 8);
    WithBit(v, bit, on)
  }

  function AttributeSet(m: Mem, table: nat, number: word, attribute: word, on: bool): (r: Act<Mem, ()>)
    ensures SameShape(m, r.state)
  {
    var (m0, (addr, bit)) :- Lift(m, AttributeAddress(m, table, number, attribute));
    m.WriteByte(addr, MaskedByte(m.Get(addr), bit, on))
  }

  // ----- the parent, sibling and child fields -----

  function ObjectRelative(m: Mem, table: nat, number: word, field: nat): Result<word>
    requires field < ENTRY_SIZE
  {
    var entry :- ObjectAddress(m, table, number);
    m.ReadByte(entry + field)
  }

  function RelativeSet(m: Mem, table: nat, number: word, field: nat, value: word): (r: Act<Mem, ()>)
    requires field < ENTRY_SIZE
    ensures SameShape(m, r.state)
    ensures r.Fail? ==> r.state == m
    ensures r.Done? <==> ObjectAddress(m, table, number).Ok? && value <= MAX_OBJECTS
  {
    var (_, entry) :- Lift(m, ObjectAddress(m, table, number));
    if value > MAX_OBJECTS then Fail(m, ExecutionFault)
    else m.WriteByte(entry + field, value)
  }

  // ----- remove_obj and insert_obj -----

  /** Walks the sibling chain from `current`, the `steps`-th object of it, to the object
      whose sibling is `number` and gives that object the sibling `successor`. */
  function UnlinkedAfter(m: Mem, table: nat, number: word, successor: word, current: word, steps: nat): (r: Act<Mem, ()>)
    requires successor <= MAX_OBJECTS
    ensures SameShape(m, r.state)
    ensures r.Fail? ==> r.state == m
    decreases CHAIN_LIMIT - steps
  {
    if current == 0 || steps >= CHAIN_LIMIT then Fail(m, ExecutionFault)
    else
      var (_, next) :- Lift(m, ObjectRelative(m, table, current, SIBLING));
      if next == number then RelativeSet(m, table, current, SIBLING, successor)
      else UnlinkedAfter(m, table, number, successor, next, steps + 1)
  }

  function Unlinked(m: Mem, table: nat, parent: word, number: word, successor: word): (r: Act<Mem, ()>)
    requires successor <= MAX_OBJECTS
    ensures SameShape(m, r.state)
    ensures r.Fail? ==> r.state == m
  {
    var (_, first) :- Lift(m, ObjectRelative(m, table, parent, CHILD));
    if first == number then RelativeSet(m, table, parent, CHILD, successor)
    else UnlinkedAfter(m, table, number, successor, first, 0)
  }

  /** remove_obj. On any memory at all, an error means nothing was written. */
  function Removed(m: Mem, table: nat, number: word): (r: Act<Mem, ()>)
    ensures SameShape(m, r.state)
    ensures r.Fail? ==> r.state == m
  {
    var (_, parent) :- Lift(m, ObjectRelative(m, table, number, PARENT));
    var (_, sibling) :- Lift(m, ObjectRelative(m, table, number, SIBLING));
    var (m1, _) :- if parent != 0 then Unlinked(m, table, parent, number, sibling) else Done(m, ());
    var (m2, _) :- RelativeSet(m1, table, number, PARENT, 0);
    RelativeSet(m2, table, number, SIBLING, 0)
  }

  /** insert_obj. On any memory at all, an error means nothing was written. */
  function Inserted(m: Mem, table: nat, number: word, destination: word): (r: Act<Mem, ()>)
    ensures SameShape(m, r.state)
    ensures r.Fail? ==> r.state == m
  {
    var (_, _) :- Lift(m, ObjectAddress(m, table, number));
    var (_, _) :- Lift(m, ObjectAddress(m, table, destination));
    if number == destination then Fail(m, ExecutionFault)
    else
      var (m1, _) :- Removed(m, table, number);
      var (_, previous) :- Lift(m1, ObjectRelative(m1, table, destination, CHILD));
      var (m2, _) :- RelativeSet(m1, table, number, SIBLING, previous);
      var (m3, _) :- RelativeSet(m2, table, destination, CHILD, number);
      RelativeSet(m3, table, number, PARENT, destination)
  }

  // ----- the same operations in place -----

  method SetObjectAttribute(mem: Memory, table: nat, number: word, attribute: word, on: bool) returns (r: Result<()>)
    modifies mem.dynamic
    ensures Lift(mem.View(), r) == AttributeSet(old(mem.View()), table, number, attribute, on)
  {
    var at :- AttributeAddress(mem.View(), table, number, attribute);
    r := mem.WriteByte(at.0, MaskedByte(mem.View().Get(at.0), at.1, on));
  }

  method SetObjectRelative(mem: Memory, table: nat, number: word, field: nat, value: word) returns (r: Result<()>)
    requires field < ENTRY_SIZE
    modifies mem.dynamic
    ensures Lift(mem.View(), r) == RelativeSet(old(mem.View()), table, number, field, value)
  {
    var entry :- ObjectAddress(mem.View(), table, number);
    if value > MAX_OBJECTS {
      return Err(ExecutionFault);
    }
    r := mem.WriteByte(entry + field, value);
  }

  method UnlinkFromParent(mem: Memory, table: nat, parent: word, number: word, successor: word) returns (r: Result<()>)
    requires successor <= MAX_OBJECTS
    modifies mem.dynamic
    ensures Lift(mem.View(), r) == Unlinked(old(mem.View()), table, parent, number, successor)
  {
    var first :- ObjectRelative(mem.View(), table, parent, CHILD);
    if first == number {
      r := SetObjectRelative(mem, table, parent, CHILD, successor);
      return;
    }
    var current := first;
    var steps := 0;
    while current != 0
      invariant 0 <= steps <= CHAIN_LIMIT
      invariant mem.View() == old(mem.View())
      invariant UnlinkedAfter(mem.View(), table, number, successor, first, 0) ==
                UnlinkedAfter(mem.View(), table, number, successor, current, steps)
      decreases CHAIN_LIMIT - steps
    {
      if steps >= CHAIN_LIMIT {
        return Err(ExecutionFault);
      }
      var next :- ObjectRelative(mem.View(), table, current, SIBLING);
      if next == number {
        r := SetObjectRelative(mem, table, current, SIBLING, successor);
        return;
      }
      current, steps := next, steps + 1;
    }
    return Err(ExecutionFault);
  }

  method RemoveObject(mem: Memory, table: nat, number: word) returns (r: Result<()>)
    modifies mem.dynamic
    ensures Lift(mem.View(), r) == Removed(old(mem.View()), table, number)
  {
    var parent :- ObjectRelative(mem.View(), table, number, PARENT);
    var sibling :- ObjectRelative(mem.View(), table, number, SIBLING);
    if parent != 0 {
      var _ :- UnlinkFromParent(mem, table, parent, number, sibling);
    }
    var _ :- SetObjectRelative(mem, table, number, PARENT, 0);
    r := SetObjectRelative(mem, table, number, SIBLING, 0);
  }

  method InsertObject(mem: Memory, table: nat, number: word, destination: word) returns (r: Result<()>)
    modifies mem.dynamic
    ensures Lift(mem.View(), r) == Inserted(old(mem.View()), table, number, destination)
  {
    var _ :- ObjectAddress(mem.View(), table, number);
    var _ :- ObjectAddress(mem.View(), table, destination);
    if number == destination {
      return Err(ExecutionFault);
    }
    var _ :- RemoveObject(mem, table, number);
    var previous :- ObjectRelative(mem.View(), table, destination, CHILD);
    var _ :- SetObjectRelative(mem, table, number, SIBLING, previous);
    var _ :- SetObjectRelative(mem, table, destination, CHILD, number);
    r := SetObjectRelative(mem, table, number, PARENT, destination);
  }
}
