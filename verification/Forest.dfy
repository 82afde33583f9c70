/** The object tree as an ordered forest: section 12.5 of the Z-Machine Standards
    Document 1.1, over the bytes that Objects.dfy reads and writes. */
module Forest {
  import opened Words
  import opened Memory
  import opened Objects

  // ----- the parent, sibling and child fields as three tables -----

  /** The link fields of objects 1 to n; entry 0 of each table is unused. */
  datatype Links = Links(parent: seq<nat>, sibling: seq<nat>, child: seq<nat>) {
    function Count(): int { |parent| - 1 }

    predicate Sized() { |parent| == |sibling| == |child| > 0 }

    predicate Has(o: int) { 1 <= o <= Count() }
  }

  /** How many object entries lie wholly in dynamic memory. */
  function Count(m: Mem, table: nat): (n: nat)
    ensures n <= MAX_OBJECTS
    ensures forall o: word {:trigger ObjectAddress(m, table, o)} ::
              (ObjectAddress(m, table, o).Ok? <==> 1 <= o <= n)
  {
    if |m.dynamic| < table + PROPERTY_DEFAULTS_SIZE then 0
    else
      var fit := (|m.dynamic| - table - PROPERTY_DEFAULTS_SIZE) / ENTRY_SIZE;
      if fit > MAX_OBJECTS then MAX_OBJECTS else fit
  }

  function FieldOf(m: Mem, table: nat, n: nat, o: nat, field: nat): byte
    requires o <= n <= Count(m, table) && field < ENTRY_SIZE
  {
    if o == 0 then 0
    else
      assert ObjectAddress(m, table, o).Ok?;
      m.dynamic[EntryAddress(table, o) + field]
  }

  function Column(m: Mem, table: nat, n: nat, field: nat): (column: seq<nat>)
    requires n <= Count(m, table) && field < ENTRY_SIZE
    ensures |column| == n + 1
  {
    seq(n + 1, o requires 0 <= o <= n => FieldOf(m, table, n, o, field))
  }

  /** The links of objects 1 to n. Version 3 records nowhere how many objects there are, and
      what follows the last entry is usually property tables, so `n` is any number of entries
      that fit; that the links stay among them is part of `Represents`. */
  function LinksOf(m: Mem, table: nat, n: nat): (l: Links)
    requires n <= Count(m, table)
    ensures l.Sized() && l.Count() == n
  {
    Links(Column(m, table, n, PARENT), Column(m, table, n, SIBLING), Column(m, table, n, CHILD))
  }

  /** Reading a field of an object reads its table; every entry of a table is a byte. */
  lemma ReadsLinks(m: Mem, table: nat, n: nat, o: word)
    requires n <= Count(m, table) && LinksOf(m, table, n).Has(o)
    ensures var l := LinksOf(m, table, n);
            && ObjectRelative(m, table, o, PARENT) == Ok(l.parent[o]) && l.parent[o] < 0x100
            && ObjectRelative(m, table, o, SIBLING) == Ok(l.sibling[o]) && l.sibling[o] < 0x100
            && ObjectRelative(m, table, o, CHILD) == Ok(l.child[o]) && l.child[o] < 0x100
  {
    assert ObjectAddress(m, table, o).Ok?;
  }

  /** The bytes other than the link fields: attributes, property pointers and everything
      outside the object entries. */
  ghost predicate OnlyLinksDiffer(m: Mem, m': Mem, table: nat, n: nat) {
    && SameShape(m, m')
    && forall a: nat {:trigger m'.dynamic[a]} :: a < |m.dynamic| ==>
         m'.dynamic[a] == m.dynamic[a] || IsLinkByte(m, table, n, a)
  }

  ghost predicate IsLinkByte(m: Mem, table: nat, n: nat, a: nat) {
    && table + PROPERTY_DEFAULTS_SIZE <= a
    && (a - table - PROPERTY_DEFAULTS_SIZE) / ENTRY_SIZE < n
    && PARENT <= (a - table - PROPERTY_DEFAULTS_SIZE) % ENTRY_SIZE <= CHILD
  }

  lemma OnlyLinksDifferTransitive(m: Mem, m1: Mem, m2: Mem, table: nat, n: nat)
    requires OnlyLinksDiffer(m, m1, table, n) && OnlyLinksDiffer(m1, m2, table, n)
    ensures OnlyLinksDiffer(m, m2, table, n)
  {
    forall a: nat | a < |m.dynamic| && m2.dynamic[a] != m.dynamic[a] ensures IsLinkByte(m, table, n, a) {
      if m2.dynamic[a] != m1.dynamic[a] {
        assert IsLinkByte(m1, table, n, a);
      }
      assert m1.dynamic[a] == m.dynamic[a] || IsLinkByte(m, table, n, a);
    }
  }

  /** Writing one link field updates one entry of one table and nothing else. */
  lemma WritesLink(m: Mem, table: nat, n: nat, o: word, field: nat, v: byte)
    requires 1 <= o <= n <= Count(m, table) && PARENT <= field <= CHILD
    ensures var r := RelativeSet(m, table, o, field, v);
            && r.Done?
            && LinksOf(r.state, table, n) == WithLink(LinksOf(m, table, n), o, field, v)
            && OnlyLinksDiffer(m, r.state, table, n)
  {
    assert ObjectAddress(m, table, o).Ok?;
    var m' := RelativeSet(m, table, o, field, v).state;
    forall f | f == PARENT || f == SIBLING || f == CHILD
      ensures Column(m', table, n, f) == if f == field then Column(m, table, n, f)[o := v] else Column(m, table, n, f)
    {
    }
    assert IsLinkByte(m, table, n, EntryAddress(table, o) + field);
  }

  function WithLink(l: Links, o: nat, field: nat, v: nat): (l': Links)
    requires l.Sized() && l.Has(o)
    ensures l'.Sized() && l'.Count() == l.Count()
  {
    if field == PARENT then l.(parent := l.parent[o := v])
    else if field == SIBLING then l.(sibling := l.sibling[o := v])
    else l.(child := l.child[o := v])
  }

  // ----- ordered forests -----

  /** The ordered list of children of every object; entry 0 is unused. */
  type Kids = seq<seq<nat>>

  function Next(list: seq<nat>, i: nat): nat {
    if i + 1 < |list| then list[i + 1] else 0
  }

  /** `list` is the sibling chain that begins at `first`. */
  ghost predicate IsChain(l: Links, list: seq<nat>, first: nat)
    requires l.Sized()
  {
    && first == (if list == [] then 0 else list[0])
    && (forall i :: 0 <= i < |list| ==> l.Has(list[i]))
    && (forall i :: 0 <= i < |list| ==> Linked(l, list, i))
  }

  predicate Linked(l: Links, list: seq<nat>, i: nat)
    requires l.Sized() && i < |list|
  {
    l.Has(list[i]) && l.sibling[list[i]] == Next(list, i)
  }

  /** Rules (a) and (b) of section 12.5: an object with no parent has no sibling, and an
      object is the parent of exactly the objects in the sibling chain of its child. */
  ghost predicate Represents(l: Links, kids: Kids)
    requires l.Sized()
  {
    && |kids| == l.Count() + 1
    && (forall p {:trigger Family(l, kids, p)} :: l.Has(p) ==> Family(l, kids, p))
    && (forall o {:trigger Placed(l, kids, o)} :: l.Has(o) ==> Placed(l, kids, o))
  }

  ghost predicate Family(l: Links, kids: Kids, p: nat)
    requires l.Sized() && l.Has(p) && |kids| == l.Count() + 1
  {
    && IsChain(l, kids[p], l.child[p])
    && forall i :: 0 <= i < |kids[p]| ==> l.parent[kids[p][i]] == p
  }

  ghost predicate Placed(l: Links, kids: Kids, o: nat)
    requires l.Sized() && l.Has(o) && |kids| == l.Count() + 1
  {
    if l.parent[o] == 0 then l.sibling[o] == 0
    else l.Has(l.parent[o]) && o in kids[l.parent[o]]
  }

  /** Rule (c): every object with a parent is one level below it. */
  ghost predicate Levels(l: Links, level: seq<nat>)
    requires l.Sized()
  {
    && |level| == l.Count() + 1
    && forall o {:trigger OneBelowParent(l, level, o)} :: l.Has(o) ==> OneBelowParent(l, level, o)
  }

  ghost predicate OneBelowParent(l: Links, level: seq<nat>, o: nat)
    requires l.Sized() && l.Has(o) && |level| == l.Count() + 1
  {
    l.parent[o] != 0 ==> l.Has(l.parent[o]) && level[o] == level[l.parent[o]] + 1
  }

  /** `x` is `o` or lies below it. */
  ghost predicate InSubtree(l: Links, level: seq<nat>, x: nat, o: nat)
    requires l.Sized() && Levels(l, level) && l.Has(x)
    decreases level[x]
  {
    assert OneBelowParent(l, level, x);
    x == o || (l.parent[x] != 0 && InSubtree(l, level, l.parent[x], o))
  }

  /** A chain names no object twice. */
  lemma {:induction false} ChainHasNoDuplicates(l: Links, list: seq<nat>, first: nat, i: nat, j: nat)
    requires l.Sized() && IsChain(l, list, first)
    requires i < j < |list|
    ensures list[i] != list[j]
    decreases |list| - j
  {
    assert Linked(l, list, i) && Linked(l, list, j);
    if list[i] == list[j] && j + 1 < |list| {
      ChainHasNoDuplicates(l, list, first, i + 1, j + 1);
    }
  }

  /** The members of a chain other than the `i`-th are different objects. */
  lemma OthersDiffer(l: Links, list: seq<nat>, first: nat, i: nat)
    requires l.Sized() && IsChain(l, list, first) && i < |list|
    ensures forall j :: 0 <= j < |list| && j != i ==> list[j] != list[i]
  {
    forall j | 0 <= j < |list| && j != i ensures list[j] != list[i] {
      if j < i {
        ChainHasNoDuplicates(l, list, first, j, i);
      } else {
        ChainHasNoDuplicates(l, list, first, i, j);
      }
    }
  }

  function Members(list: seq<nat>): set<nat> { set x | x in list }

  lemma {:induction false} DistinctSize(list: seq<nat>)
    requires forall i, j :: 0 <= i < j < |list| ==> list[i] != list[j]
    ensures |Members(list)| == |list|
  {
    if list == [] {
      assert Members(list) == {};
    } else {
      var rest, last := list[..|list| - 1], list[|list| - 1];
      DistinctSize(rest);
      assert last !in rest;
      assert Members(list) == Members(rest) + {last};
    }
  }

  function UpTo(n: nat): (all: set<nat>)
    ensures |all| == n
    ensures forall x :: x in all <==> 1 <= x <= n
  {
    if n == 0 then {} else UpTo(n - 1) + {n}
  }

  /** So a chain has at most as many members as there are objects. */
  lemma ChainFits(l: Links, list: seq<nat>, first: nat)
    requires l.Sized() && IsChain(l, list, first)
    ensures |list| <= l.Count()
  {
    forall i, j | 0 <= i < j < |list| ensures list[i] != list[j] {
      ChainHasNoDuplicates(l, list, first, i, j);
    }
    DistinctSize(list);
    var all := UpTo(l.Count());
    assert Members(list) <= all && |all| == |Members(list)| + |all - Members(list)|;
  }

  // ----- remove_obj on a forest -----

  function Without(list: seq<nat>, i: nat): seq<nat>
    requires i < |list|
  {
    list[..i] + list[i + 1..]
  }

  /** The links after removing the `i`-th child of `p`. */
  function Detached(l: Links, p: nat, list: seq<nat>, i: nat): (l': Links)
    requires l.Sized() && l.Has(p) && i < |list|
    requires forall k :: 0 <= k < |list| ==> l.Has(list[k])
    ensures l'.Sized() && l'.Count() == l.Count()
  {
    var o := list[i];
    assert l.Has(o) && (i > 0 ==> l.Has(list[i - 1]));
    var successor := l.sibling[o];
    var l1 := if i == 0 then WithLink(l, p, CHILD, successor) else WithLink(l, list[i - 1], SIBLING, successor);
    WithLink(WithLink(l1, o, PARENT, 0), o, SIBLING, 0)
  }

  lemma DetachedOwnChain(l: Links, list: seq<nat>, p: nat, i: nat)
    requires l.Sized() && l.Has(p) && i < |list|
    requires IsChain(l, list, l.child[p])
    ensures var l' := Detached(l, p, list, i);
            IsChain(l', Without(list, i), l'.child[p])
  {
    var l' := Detached(l, p, list, i);
    var list' := Without(list, i);
    OthersDiffer(l, list, l.child[p], i);
    if i > 0 {
      OthersDiffer(l, list, l.child[p], i - 1);
    }
    assert Linked(l, list, i);
    forall j | 0 <= j < |list'| ensures Linked(l', list', j) {
      var j0 := if j < i then j else j + 1;
      assert list'[j] == list[j0] && Linked(l, list, j0);
    }
  }

  lemma DetachedOtherChain(l: Links, kids: Kids, p: nat, i: nat, q: nat)
    requires l.Sized() && Represents(l, kids)
    requires l.Has(p) && i < |kids[p]| && l.Has(q) && q != p
    requires Family(l, kids, p) && Family(l, kids, q)
    ensures var l' := Detached(l, p, kids[p], i);
            IsChain(l', kids[q], l'.child[q])
  {
    var l' := Detached(l, p, kids[p], i);
    forall j | 0 <= j < |kids[q]| ensures Linked(l', kids[q], j) {
      assert Linked(l, kids[q], j);
      assert l.parent[kids[q][j]] == q && l.parent[kids[p][i]] == p;
      if i > 0 {
        assert l.parent[kids[p][i - 1]] == p;
      }
    }
  }

  lemma DetachedParents(l: Links, kids: Kids, p: nat, i: nat, q: nat, j: nat)
    requires l.Sized() && Represents(l, kids)
    requires l.Has(p) && i < |kids[p]| && l.Has(q)
    requires Family(l, kids, p) && Family(l, kids, q)
    requires j < |kids[p := Without(kids[p], i)][q]|
    ensures Detached(l, p, kids[p], i).parent[kids[p := Without(kids[p], i)][q][j]] == q
  {
    var o := kids[p][i];
    assert Detached(l, p, kids[p], i).parent == l.parent[o := 0];
    var j0 := if q == p && j >= i then j + 1 else j;
    assert kids[p := Without(kids[p], i)][q][j] == kids[q][j0];
    assert l.parent[kids[q][j0]] == q && l.parent[o] == p && l.Has(kids[q][j0]);
    OthersDiffer(l, kids[p], l.child[p], i);
  }

  lemma DetachedPlaced(l: Links, kids: Kids, p: nat, i: nat, x: nat)
    requires l.Sized() && Represents(l, kids)
    requires l.Has(p) && i < |kids[p]| && l.Has(x)
    requires Family(l, kids, p)
    ensures Placed(Detached(l, p, kids[p], i), kids[p := Without(kids[p], i)], x)
  {
    var o, q := kids[p][i], l.parent[x];
    var kids' := kids[p := Without(kids[p], i)];
    assert Placed(l, kids, x) && l.parent[o] == p;
    assert Detached(l, p, kids[p], i).parent == l.parent[o := 0];
    if x != o && q != 0 {
      var j :| 0 <= j < |kids[q]| && kids[q][j] == x;
      assert x == kids'[q][if q == p && j > i then j - 1 else j];
    } else if x != o && i > 0 {
      assert l.parent[kids[p][i - 1]] == p;
    }
  }

  /** Detaching the `i`-th child of `p` deletes it from the list of `p` and leaves an
      ordered forest. */
  lemma DetachedRepresents(l: Links, kids: Kids, p: nat, i: nat)
    requires l.Sized() && Represents(l, kids)
    requires l.Has(p) && i < |kids[p]| && Family(l, kids, p)
    ensures Represents(Detached(l, p, kids[p], i), kids[p := Without(kids[p], i)])
  {
    var l' := Detached(l, p, kids[p], i);
    var kids' := kids[p := Without(kids[p], i)];
    forall q | l.Has(q) ensures Family(l', kids', q) {
      assert Family(l, kids, q);
      if q == p {
        DetachedOwnChain(l, kids[p], p, i);
      } else {
        DetachedOtherChain(l, kids, p, i, q);
      }
      forall j | 0 <= j < |kids'[q]| ensures l'.parent[kids'[q][j]] == q {
        DetachedParents(l, kids, p, i, q, j);
      }
    }
    forall x | l.Has(x) ensures Placed(l', kids', x) {
      DetachedPlaced(l, kids, p, i, x);
    }
  }

  /** The walk finds the object's predecessor; the chain limit is never reached. */
  lemma {:induction false} WalkFinds(m: Mem, table: nat, n: nat, list: seq<nat>, first: nat, i: nat, j: nat, successor: byte)
    requires n <= Count(m, table) && IsChain(LinksOf(m, table, n), list, first) && j < i < |list| <= MAX_OBJECTS
    ensures UnlinkedAfter(m, table, list[i], successor, list[j], j) ==
            RelativeSet(m, table, list[i - 1], SIBLING, successor)
    decreases i - j
  {
    ReadsLinks(m, table, n, list[j]);
    assert Linked(LinksOf(m, table, n), list, j);
    if j + 1 < i {
      ChainHasNoDuplicates(LinksOf(m, table, n), list, first, j + 1, i);
      WalkFinds(m, table, n, list, first, i, j + 1, successor);
    }
  }

  /** The bytes remove_obj writes are exactly those of `Detached`. */
  lemma RemovedIsDetached(m: Mem, table: nat, n: nat, kids: Kids, p: nat, i: nat)
    requires n <= Count(m, table) && Represents(LinksOf(m, table, n), kids)
    requires LinksOf(m, table, n).Has(p) && i < |kids[p]| && Family(LinksOf(m, table, n), kids, p)
    ensures var r := Removed(m, table, kids[p][i]);
            && r.Done?
            && LinksOf(r.state, table, n) == Detached(LinksOf(m, table, n), p, kids[p], i)
            && OnlyLinksDiffer(m, r.state, table, n)
  {
    var l, list, o := LinksOf(m, table, n), kids[p], kids[p][i];
    assert l.parent[o] == p && IsChain(l, list, l.child[p]) && l.Has(o);
    ChainFits(l, list, l.child[p]);
    ReadsLinks(m, table, n, o);
    ReadsLinks(m, table, n, p);
    var successor := l.sibling[o];
    if i > 0 {
      ChainHasNoDuplicates(l, list, l.child[p], 0, i);
      WalkFinds(m, table, n, list, l.child[p], i, 0, successor);
    }
    var predecessor, field := if i == 0 then p else list[i - 1], if i == 0 then CHILD else SIBLING;
    assert l.Has(predecessor);
    assert Unlinked(m, table, p, o, successor) == RelativeSet(m, table, predecessor, field, successor);
    WritesLink(m, table, n, predecessor, field, successor);
    var m1 := RelativeSet(m, table, predecessor, field, successor).state;
    WritesLink(m1, table, n, o, PARENT, 0);
    var m2 := RelativeSet(m1, table, o, PARENT, 0).state;
    WritesLink(m2, table, n, o, SIBLING, 0);
    OnlyLinksDifferTransitive(m, m1, m2, table, n);
    OnlyLinksDifferTransitive(m, m2, RelativeSet(m2, table, o, SIBLING, 0).state, table, n);
  }

  // ----- the theorems -----

  function Delete(list: seq<nat>, o: nat): seq<nat> {
    if list == [] then []
    else if list[0] == o then list[1..]
    else [list[0]] + Delete(list[1..], o)
  }

  lemma {:induction false} DeleteIsWithout(list: seq<nat>, i: nat)
    requires i < |list| && forall j :: 0 <= j < |list| && j != i ==> list[j] != list[i]
    ensures Delete(list, list[i]) == Without(list, i)
  {
    if i > 0 {
      assert list[1..][i - 1] == list[i];
      DeleteIsWithout(list[1..], i - 1);
      assert Without(list, i) == [list[0]] + Without(list[1..], i - 1);
    }
  }

  /** The children's lists once `o` has left its parent. */
  function KidsWithout(l: Links, kids: Kids, o: nat): Kids
    requires l.Sized() && l.Has(o) && |kids| == l.Count() + 1
  {
    var p := l.parent[o];
    if l.Has(p) then kids[p := Delete(kids[p], o)] else kids
  }

  /** remove_obj on an ordered forest always succeeds. It deletes exactly that object from
      its parent's ordered list of children; every other list of children is unchanged, the
      object keeps its own, no other object changes parent, and no byte outside the link
      fields changes. */
  lemma RemoveFromForest(m: Mem, table: nat, n: nat, kids: Kids, o: nat)
    requires n <= Count(m, table) && Represents(LinksOf(m, table, n), kids) && LinksOf(m, table, n).Has(o)
    ensures var r := Removed(m, table, o);
            && r.Done?
            && Represents(LinksOf(r.state, table, n), KidsWithout(LinksOf(m, table, n), kids, o))
            && LinksOf(r.state, table, n).parent == LinksOf(m, table, n).parent[o := 0]
            && OnlyLinksDiffer(m, r.state, table, n)
  {
    var l := LinksOf(m, table, n);
    var p := l.parent[o];
    assert Placed(l, kids, o);
    if p == 0 {
      ReadsLinks(m, table, n, o);
      WritesLink(m, table, n, o, PARENT, 0);
      var m1 := RelativeSet(m, table, o, PARENT, 0).state;
      WritesLink(m1, table, n, o, SIBLING, 0);
      OnlyLinksDifferTransitive(m, m1, RelativeSet(m1, table, o, SIBLING, 0).state, table, n);
      assert l.parent[o := 0] == l.parent && l.sibling[o := 0] == l.sibling;
      assert LinksOf(Removed(m, table, o).state, table, n) == l;
    } else {
      var i :| 0 <= i < |kids[p]| && kids[p][i] == o;
      assert Family(l, kids, p);
      OthersDiffer(l, kids[p], l.child[p], i);
      DeleteIsWithout(kids[p], i);
      RemovedIsDetached(m, table, n, kids, p, i);
      DetachedRepresents(l, kids, p, i);
    }
  }

  /** The links after an object with no parent becomes the first child of `d`. */
  function Attached(l: Links, o: nat, d: nat): (l': Links)
    requires l.Sized() && l.Has(o) && l.Has(d)
    ensures l'.Sized() && l'.Count() == l.Count()
  {
    WithLink(WithLink(WithLink(l, o, SIBLING, l.child[d]), d, CHILD, o), o, PARENT, d)
  }

  lemma AttachedFamily(l: Links, kids: Kids, o: nat, d: nat, q: nat)
    requires l.Sized() && |kids| == l.Count() + 1 && l.Has(o) && l.Has(d) && l.parent[o] == 0 && l.Has(q)
    requires Family(l, kids, q)
    ensures Family(Attached(l, o, d), kids[d := [o] + kids[d]], q)
  {
    var l' := Attached(l, o, d);
    var list := kids[q];
    forall j | 0 <= j < |list| ensures list[j] != o && l.Has(list[j]) && Linked(l, list, j) {
      assert l.parent[list[j]] == q;
    }
    var list' := kids[d := [o] + kids[d]][q];
    if q == d {
      forall j | 0 <= j < |list'| ensures l.Has(list'[j]) && Linked(l', list', j) && l'.parent[list'[j]] == q {
        if j > 0 {
          assert list'[j] == list[j - 1] && Linked(l, list, j - 1);
        }
      }
    } else {
      forall j | 0 <= j < |list| ensures Linked(l', list, j) {
        assert Linked(l, list, j);
      }
    }
  }

  lemma AttachedRepresents(l: Links, kids: Kids, o: nat, d: nat)
    requires l.Sized() && Represents(l, kids) && l.Has(o) && l.Has(d) && l.parent[o] == 0
    ensures Represents(Attached(l, o, d), kids[d := [o] + kids[d]])
  {
    var l', kids' := Attached(l, o, d), kids[d := [o] + kids[d]];
    forall q | l.Has(q) ensures Family(l', kids', q) {
      assert Family(l, kids, q);
      AttachedFamily(l, kids, o, d, q);
    }
    forall x | l.Has(x) ensures Placed(l', kids', x) {
      assert Placed(l, kids, x);
      if x == o {
        assert kids'[d][0] == o;
      }
    }
  }

  /** `x` lies at the same height above `y` or deeper, as far as any level assignment of the
      changed tree goes, when `x` was below `y` before `y` moved. */
  lemma {:induction false} SubtreeIsDeeper(l: Links, level: seq<nat>, l': Links, level': seq<nat>, x: nat, y: nat)
    requires l.Sized() && Levels(l, level) && l.Has(x) && l.Has(y)
    requires l'.Sized() && l'.Count() == l.Count() && Levels(l', level')
    requires forall z :: l.Has(z) && z != y ==> l'.parent[z] == l.parent[z]
    requires InSubtree(l, level, x, y)
    ensures level'[x] >= level'[y]
    decreases level[x]
  {
    assert OneBelowParent(l, level, x) && OneBelowParent(l', level', x);
    if x != y {
      SubtreeIsDeeper(l, level, l', level', l.parent[x], y);
    }
  }

  /** Levels after `o`, with everything below it, moves under `d`. */
  ghost function Relevelled(l: Links, level: seq<nat>, o: nat, d: nat): (level': seq<nat>)
    requires l.Sized() && Levels(l, level) && l.Has(o) && l.Has(d)
    requires forall x :: l.Has(x) && InSubtree(l, level, x, o) ==> level[x] >= level[o]
    ensures |level'| == |level|
  {
    seq(|level|, x requires 0 <= x < |level| =>
      if l.Has(x) && InSubtree(l, level, x, o) then level[d] + 1 + (level[x] - level[o]) else level[x])
  }

  lemma MovedLevels(l: Links, level: seq<nat>, l': Links, o: nat, d: nat)
    requires l.Sized() && Levels(l, level) && l.Has(o) && l.Has(d)
    requires l'.Sized() && l'.Count() == l.Count() && l'.parent == l.parent[o := d]
    requires !InSubtree(l, level, d, o)
    ensures exists level' :: Levels(l', level')
  {
    forall x | l.Has(x) && InSubtree(l, level, x, o) ensures level[x] >= level[o] {
      SubtreeIsDeeper(l, level, l, level, x, o);
    }
    var level' := Relevelled(l, level, o, d);
    forall x | l'.Has(x) ensures OneBelowParent(l', level', x) {
      assert OneBelowParent(l, level, x);
    }
    assert Levels(l', level');
  }

  lemma InsertedIsAttached(m: Mem, table: nat, n: nat, kids: Kids, o: nat, d: nat)
    requires n <= Count(m, table) && Represents(LinksOf(m, table, n), kids)
    requires LinksOf(m, table, n).Has(o) && LinksOf(m, table, n).Has(d) && o != d
    ensures var m1 := Removed(m, table, o).state;
            var r := Inserted(m, table, o, d);
            && r.Done? && LinksOf(m1, table, n).Has(o) && LinksOf(m1, table, n).Has(d)
            && LinksOf(r.state, table, n) == Attached(LinksOf(m1, table, n), o, d)
            && OnlyLinksDiffer(m, r.state, table, n)
  {
    RemoveFromForest(m, table, n, kids, o);
    var m1 := Removed(m, table, o).state;
    var l1 := LinksOf(m1, table, n);
    assert ObjectAddress(m, table, o).Ok? && ObjectAddress(m, table, d).Ok?;
    ReadsLinks(m1, table, n, d);
    WritesLink(m1, table, n, o, SIBLING, l1.child[d]);
    var m2 := RelativeSet(m1, table, o, SIBLING, l1.child[d]).state;
    WritesLink(m2, table, n, d, CHILD, o);
    var m3 := RelativeSet(m2, table, d, CHILD, o).state;
    WritesLink(m3, table, n, o, PARENT, d);
    var m4 := RelativeSet(m3, table, o, PARENT, d).state;
    assert Inserted(m, table, o, d) == Done(m4, ()) by {
      hide RelativeSet, Removed, LinksOf, Count;
    }
    OnlyLinksDifferTransitive(m, m1, m2, table, n);
    OnlyLinksDifferTransitive(m, m2, m3, table, n);
    OnlyLinksDifferTransitive(m, m3, m4, table, n);
  }

  /** insert_obj of `o` under `d` on an ordered forest always succeeds, and moves `o`, with
      everything below it, to the front of d's list: `o` leaves its old parent's list, every
      other list is unchanged, and no byte outside the link fields changes. */
  lemma InsertIntoForest(m: Mem, table: nat, n: nat, kids: Kids, o: nat, d: nat)
    requires n <= Count(m, table) && Represents(LinksOf(m, table, n), kids)
    requires LinksOf(m, table, n).Has(o) && LinksOf(m, table, n).Has(d) && o != d
    ensures var r := Inserted(m, table, o, d);
            var rest := KidsWithout(LinksOf(m, table, n), kids, o);
            && r.Done?
            && Represents(LinksOf(r.state, table, n), rest[d := [o] + rest[d]])
            && LinksOf(r.state, table, n).parent == LinksOf(m, table, n).parent[o := d]
            && OnlyLinksDiffer(m, r.state, table, n)
  {
    InsertedIsAttached(m, table, n, kids, o, d);
    RemoveFromForest(m, table, n, kids, o);
    var l1 := LinksOf(Removed(m, table, o).state, table, n);
    AttachedRepresents(l1, KidsWithout(LinksOf(m, table, n), kids, o), o, d);
    assert l1.parent[o := d] == LinksOf(m, table, n).parent[o := d];
  }

  /** After insert_obj the tree still has levels, so is still well-founded, exactly when the
      destination is not the object or below it. The code refuses only the object itself. */
  lemma InsertKeepsWellFounded(m: Mem, table: nat, n: nat, kids: Kids, level: seq<nat>, o: nat, d: nat)
    requires n <= Count(m, table) && Represents(LinksOf(m, table, n), kids) && Levels(LinksOf(m, table, n), level)
    requires LinksOf(m, table, n).Has(o) && LinksOf(m, table, n).Has(d) && o != d
    ensures (exists level' :: Levels(LinksOf(Inserted(m, table, o, d).state, table, n), level')) <==>
            !InSubtree(LinksOf(m, table, n), level, d, o)
  {
    InsertIntoForest(m, table, n, kids, o, d);
    var l, l' := LinksOf(m, table, n), LinksOf(Inserted(m, table, o, d).state, table, n);
    MovedLevelsExactly(l, level, l', o, d);
  }

  lemma MovedLevelsExactly(l: Links, level: seq<nat>, l': Links, o: nat, d: nat)
    requires l.Sized() && Levels(l, level) && l.Has(o) && l.Has(d)
    requires l'.Sized() && l'.Count() == l.Count() && l'.parent == l.parent[o := d]
    ensures (exists level' :: Levels(l', level')) <==> !InSubtree(l, level, d, o)
  {
    if InSubtree(l, level, d, o) {
      forall level' | Levels(l', level') ensures false {
        assert OneBelowParent(l', level', o);
        SubtreeIsDeeper(l, level, l', level', d, o);
      }
    } else {
      MovedLevels(l, level, l', o, d);
    }
  }

  /** For one: inserting an object into its own child is accepted, and leaves no well-founded
      tree. */
  lemma InsertIntoOwnChild(m: Mem, table: nat, n: nat, kids: Kids, level: seq<nat>, o: nat, i: nat)
    requires n <= Count(m, table) && Represents(LinksOf(m, table, n), kids) && Levels(LinksOf(m, table, n), level)
    requires LinksOf(m, table, n).Has(o) && i < |kids[o]|
    ensures kids[o][i] < 0x1_0000 && o != kids[o][i]
    ensures var r := Inserted(m, table, o, kids[o][i]);
            r.Done? && !(exists level' :: Levels(LinksOf(r.state, table, n), level'))
  {
    var l, d := LinksOf(m, table, n), kids[o][i];
    assert Family(l, kids, o) && Linked(l, kids[o], i) && l.parent[d] == o;
    assert OneBelowParent(l, level, d);
    hide Represents, Levels, Inserted, LinksOf;
    InsertIntoForest(m, table, n, kids, o, d);
    InsertKeepsWellFounded(m, table, n, kids, level, o, d);
  }

  /** remove_obj keeps the levels it finds, so it keeps well-foundedness. */
  lemma RemoveKeepsLevels(m: Mem, table: nat, n: nat, kids: Kids, level: seq<nat>, o: nat)
    requires n <= Count(m, table) && Represents(LinksOf(m, table, n), kids) && Levels(LinksOf(m, table, n), level)
    requires LinksOf(m, table, n).Has(o)
    ensures Levels(LinksOf(Removed(m, table, o).state, table, n), level)
  {
    RemoveFromForest(m, table, n, kids, o);
    var l' := LinksOf(Removed(m, table, o).state, table, n);
    forall x | l'.Has(x) ensures OneBelowParent(l', level, x) {
      assert OneBelowParent(LinksOf(m, table, n), level, x);
    }
  }

  lemma AttributePlaces(m: Mem, table: nat, o: word, a: word, o2: word, a2: word)
    requires AttributeAddress(m, table, o, a).Ok? && AttributeAddress(m, table, o2, a2).Ok?
    requires AttributeAddress(m, table, o, a) == AttributeAddress(m, table, o2, a2)
    ensures o == o2 && a == a2
  {
    assert a / 8 < 4 && a2 / 8 < 4;
    var e, e2 := EntryAddress(table, o), EntryAddress(table, o2);
    assert e + a / 8 == e2 + a2 / 8;
    assert e - e2 == 9 * (o - o2);
  }

  /** set_attr and clear_attr change the one attribute of the one object. */
  lemma AttributeSetAlone(m: Mem, table: nat, o: word, a: word, on: bool, o2: word, a2: word)
    requires AttributeSet(m, table, o, a, on).Done?
    requires AttributeAddress(m, table, o2, a2).Ok?
    ensures ObjectAttribute(AttributeSet(m, table, o, a, on).state, table, o2, a2) ==
            if o2 == o && a2 == a then Ok(on) else ObjectAttribute(m, table, o2, a2)
  {
    var (addr, bit) := AttributeAddress(m, table, o, a).value;
    var m' := AttributeSet(m, table, o, a, on).state;
    var (addr2, bit2) := AttributeAddress(m, table, o2, a2).value;
    assert m' == m.Put(addr, MaskedByte(m.Get(addr), bit, on));
    assert AttributeAddress(m', table, o2, a2) == AttributeAddress(m, table, o2, a2);
    if addr == addr2 && bit == bit2 {
      AttributePlaces(m, table, o, a, o2, a2);
    }
  }
}
