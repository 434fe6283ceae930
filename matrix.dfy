// PhreeqcMatrix: the per-cell element table read out of a PHREEQC instance.
// The class has value semantics (subset and erase return modified copies),
// so the matrix is a datatype; the loops of the copies are methods over
// local variables. The shared IPhreeqc pointer appears only where Misc.cpp
// drives it (the dump strings), as an object of its own.

module Matrix {
  import opened Values
  import Order

  /** PhreeqcMatrix::PhreeqcComponent, the category of an element. */
  datatype Component = Solution | Exchange | Kinetic | Equilibrium | SurfaceComps

  /** The enum value, which `get` iterates over. */
  function Code(c: Component): nat
  {
    match c
    case Solution => 0
    case Exchange => 1
    case Kinetic => 2
    case Equilibrium => 3
    case SurfaceComps => 4
  }

  /** PhreeqcMatrix::element: a named double of one category. */
  datatype Element = Element(name: string, kind: Component, value: Val)

  /** base_names::Components: which wrapper constructor argument a name was. */
  datatype BaseKind = Exchanger | Kinetics | EquilibriumPhase | SurfaceComp | SurfaceCharge

  /** PhreeqcMatrix::base_names. */
  datatype BaseName = BaseName(kind: BaseKind, name: string)

  datatype PhreeqcMatrix = PhreeqcMatrix(
    cells: map<int, seq<Element>>,        // _m_map
    internal: map<int, seq<BaseName>>,    // _m_internal_names
    primaries: set<string>,               // _m_surface_primaries
    database: string,                     // _m_database
    withH0O0: bool,
    withRedox: bool)

  /** Every matrix the constructor builds lists the same cells in both maps. */
  predicate Valid(m: PhreeqcMatrix)
  {
    m.cells.Keys == m.internal.Keys
  }

  // ---------------------------------------------------------------- Misc.cpp lookups

  /** getIds: the cell IDs in map order. */
  function Ids(m: PhreeqcMatrix): (r: seq<int>)
    ensures Order.Increasing(r)
    ensures |r| == |m.cells|
    ensures forall id :: id in r <==> id in m.cells
  {
    Order.AscendingInts(m.cells.Keys)
  }

  /** checkIfExists. */
  function Contains(m: PhreeqcMatrix, id: int): (b: bool)
    ensures b <==> id in Ids(m)
  {
    id in m.cells
  }

  /** The key of `_m_map.begin()`: the smallest cell ID. */
  function First(m: PhreeqcMatrix): (id: int)
    requires m.cells.Keys != {}
    ensures id in m.cells
    ensures forall k :: k in m.cells ==> id <= k
    ensures id == Ids(m)[0]
  {
    Order.AscendingIntsHead(m.cells.Keys);
    Ids(m)[0]
  }

  /** The element vectors in map order. */
  function Cells(m: PhreeqcMatrix): (r: seq<seq<Element>>)
    ensures |r| == |Ids(m)|
    ensures forall k :: 0 <= k < |r| ==> r[k] == m.cells[Ids(m)[k]]
  {
    var ids := Ids(m);
    seq(|ids|, k requires 0 <= k < |ids| => m.cells[ids[k]])
  }

  // ---------------------------------------------------------------- names of a cell

  /** The leading run of SOLUTION names, which `getSolutionNames` and `get` read. */
  function SolutionPrefix(cell: seq<Element>): (r: seq<string>)
    ensures |r| <= |cell|
    ensures forall i :: 0 <= i < |r| ==> cell[i].kind == Solution && r[i] == cell[i].name
    ensures |r| < |cell| ==> cell[|r|].kind != Solution
  {
    if cell == [] || cell[0].kind != Solution then [] else [cell[0].name] + SolutionPrefix(cell[1..])
  }

  lemma PrefixStep(cell: seq<Element>, i: nat)
    requires i < |cell| && cell[i].kind == Solution
    ensures SolutionPrefix(cell[i..]) == [cell[i].name] + SolutionPrefix(cell[i + 1..])
  {
    assert cell[i..][1..] == cell[i + 1..];
  }

  lemma PrefixEnd(cell: seq<Element>, i: nat)
    requires i <= |cell|
    requires i == |cell| || cell[i].kind != Solution
    ensures SolutionPrefix(cell[i..]) == []
  {
  }

  /** getSolutionNames: the solution names of the lowest cell, stopping at its first other element. */
  method GetSolutionNames(m: PhreeqcMatrix) returns (names: seq<string>)
    requires m.cells.Keys != {}
    ensures names == SolutionPrefix(m.cells[First(m)])
  {
    var cell := m.cells[First(m)];
    names := [];
    var i := 0;
    while i < |cell| && cell[i].kind == Solution
      invariant 0 <= i <= |cell|
      invariant SolutionPrefix(cell) == names + SolutionPrefix(cell[i..])
    {
      PrefixStep(cell, i);
      AppendAssoc(names, [cell[i].name], SolutionPrefix(cell[i + 1..]));
      names := names + [cell[i].name];
      i := i + 1;
    }
    PrefixEnd(cell, i);
    assert names + [] == names;
  }

  /** The names of one category, in element order. */
  function KindNames(cell: seq<Element>, kind: Component): (r: seq<string>)
    ensures |r| <= |cell|
    ensures forall x :: x in r <==> exists i :: 0 <= i < |cell| && cell[i].kind == kind && cell[i].name == x
  {
    if cell == [] then []
    else
      var rest := KindNames(cell[1..], kind);
      assert forall i :: 0 < i < |cell| ==> cell[i] == cell[1..][i - 1];
      if cell[0].kind == kind then [cell[0].name] + rest else rest
  }

  /** A cell whose elements all belong to one category yields all their names. */
  lemma {:induction false} KindNamesAll(cell: seq<Element>, kind: Component)
    requires forall i :: 0 <= i < |cell| ==> cell[i].kind == kind
    ensures |KindNames(cell, kind)| == |cell|
    ensures forall i :: 0 <= i < |cell| ==> KindNames(cell, kind)[i] == cell[i].name
  {
    if cell != [] {
      KindNamesAll(cell[1..], kind);
    }
  }

  /** Names are collected block by block. */
  lemma {:induction false} KindNamesAppend(a: seq<Element>, b: seq<Element>, kind: Component)
    ensures KindNames(a + b, kind) == KindNames(a, kind) + KindNames(b, kind)
  {
    if a == [] {
      assert a + b == b;
    } else {
      assert (a + b)[1..] == a[1..] + b;
      KindNamesAppend(a[1..], b, kind);
    }
  }

  /** Index of the first element called `name` (|cell| when there is none), as find_if returns it. */
  function Find(cell: seq<Element>, name: string): (k: nat)
    ensures k <= |cell|
    ensures k < |cell| ==> cell[k].name == name
    ensures forall i :: 0 <= i < k ==> cell[i].name != name
  {
    if cell == [] then 0
    else if cell[0].name == name then 0
    else 1 + Find(cell[1..], name)
  }

  /**
   * What `get` stores for a name: the value of the first element so called,
   * NaN when the cell has none.
   */
  function Lookup(cell: seq<Element>, name: string): (v: Val)
    ensures Find(cell, name) == |cell| ==> v == NaN
    ensures Find(cell, name) < |cell| ==> v == cell[Find(cell, name)].value
  {
    var k := Find(cell, name);
    if k < |cell| then cell[k].value else NaN
  }

  /** operator(): the first element of that name in that cell. */
  function Value(m: PhreeqcMatrix, id: int, name: string): (r: Result<Val>)
    ensures r == Err(OutOfRange) <==> id !in m.cells
    ensures r == Err(RuntimeError) <==> id in m.cells && forall i :: 0 <= i < |m.cells[id]| ==> m.cells[id][i].name != name
    ensures r.Ok? ==> id in m.cells && exists i :: 0 <= i < |m.cells[id]| && m.cells[id][i].name == name && r.value == m.cells[id][i].value
    ensures r.Ok? ==> r.value == Lookup(m.cells[id], name)
  {
    if id !in m.cells then Err(OutOfRange)
    else
      var cell := m.cells[id];
      var k := Find(cell, name);
      if k == |cell| then Err(RuntimeError) else Ok(cell[k].value)
  }

  /** The base names of one constructor argument kind, in stored order. */
  function BaseNames(names: seq<BaseName>, kind: BaseKind): (r: seq<string>)
    ensures |r| <= |names|
    ensures forall x :: x in r <==> BaseName(kind, x) in names
  {
    if names == [] then []
    else
      var rest := BaseNames(names[1..], kind);
      assert forall b :: b in names <==> b == names[0] || b in names[1..];
      if names[0].kind == kind then [names[0].name] + rest else rest
  }

  lemma {:induction false} BaseNamesAppend(a: seq<BaseName>, b: seq<BaseName>, kind: BaseKind)
    ensures BaseNames(a + b, kind) == BaseNames(a, kind) + BaseNames(b, kind)
  {
    if a == [] {
      assert a + b == b;
    } else {
      assert (a + b)[1..] == a[1..] + b;
      BaseNamesAppend(a[1..], b, kind);
    }
  }

  /**
   * getExchanger, getKineticsNames, getEquilibriumNames, getSurfaceCompNames
   * and getSurfaceChargeNames: the names of that kind, or none for an unknown cell.
   */
  function Names(m: PhreeqcMatrix, id: int, kind: BaseKind): (r: seq<string>)
    ensures id !in m.internal ==> r == []
    ensures forall x :: x in r <==> id in m.internal && BaseName(kind, x) in m.internal[id]
  {
    if id in m.internal then BaseNames(m.internal[id], kind) else []
  }

  /** getSolutionPrimaries: the set in ascending order. */
  function SolutionPrimaries(m: PhreeqcMatrix): (r: seq<string>)
    ensures Order.Sorted(r)
    ensures |r| == |m.primaries|
    ensures forall x :: x in r <==> x in m.primaries
  {
    Order.AscendingSorted(m.primaries);
    Order.AscendingMembers(m.primaries);
    Order.Ascending(m.primaries)
  }

  // ---------------------------------------------------------------- remove_NaNs

  /** The cell has an element of that name holding NaN. */
  predicate NaNIn(cell: seq<Element>, x: string)
  {
    exists i :: 0 <= i < |cell| && cell[i].name == x && cell[i].value.NaN?
  }

  /** The names of a cell's NaN elements, in element order. */
  function NaNNames(cell: seq<Element>): seq<string>
  {
    if cell == [] then []
    else if cell[0].value.NaN? then [cell[0].name] + NaNNames(cell[1..])
    else NaNNames(cell[1..])
  }

  lemma {:induction false} NaNNamesIff(cell: seq<Element>)
    ensures forall x :: x in NaNNames(cell) <==> NaNIn(cell, x)
  {
    if cell != [] {
      NaNNamesIff(cell[1..]);
      forall x ensures NaNIn(cell, x) <==> (cell[0].name == x && cell[0].value.NaN?) || NaNIn(cell[1..], x) {
        if NaNIn(cell, x) {
          var i :| 0 <= i < |cell| && cell[i].name == x && cell[i].value.NaN?;
          if i > 0 { assert cell[1..][i - 1] == cell[i]; }
        }
        if NaNIn(cell[1..], x) {
          var i :| 0 <= i < |cell[1..]| && cell[1..][i].name == x && cell[1..][i].value.NaN?;
          assert cell[i + 1] == cell[1..][i];
        }
      }
    }
  }

  /** The NaN names of each of a list of cells. */
  function NaNsOf(cells: seq<seq<Element>>): (r: seq<seq<string>>)
    ensures |r| == |cells|
  {
    if cells == [] then [] else NaNsOf(cells[..|cells| - 1]) + [NaNNames(cells[|cells| - 1])]
  }

  lemma {:induction false} NaNsOfAt(cells: seq<seq<Element>>, k: nat)
    requires k < |cells|
    ensures NaNsOf(cells)[k] == NaNNames(cells[k])
  {
    if k < |cells| - 1 {
      NaNsOfAt(cells[..|cells| - 1], k);
    }
  }

  /** elements_to_remove: the NaN names of every cell, in map order. */
  function NaNLists(m: PhreeqcMatrix): (r: seq<seq<string>>)
    ensures |r| == |m.cells|
  {
    NaNsOf(Cells(m))
  }

  lemma NaNListsAt(m: PhreeqcMatrix, k: nat)
    requires k < |m.cells|
    ensures NaNLists(m)[k] == NaNNames(m.cells[Ids(m)[k]])
  {
    NaNsOfAt(Cells(m), k);
  }

  /** The erase-remove_if idiom: every element called `x` removed, the rest in order. */
  function RemoveName(cell: seq<Element>, x: string): (r: seq<Element>)
    ensures forall e :: e in r <==> e in cell && e.name != x
  {
    if cell == [] then []
    else
      var rest := RemoveName(cell[1..], x);
      assert forall e :: e in cell <==> e == cell[0] || e in cell[1..];
      if cell[0].name == x then rest else [cell[0]] + rest
  }

  /** The names removed one after another, as the loop over the removal list does. */
  function Purge(cell: seq<Element>, names: seq<string>): seq<Element>
    decreases |names|
  {
    if names == [] then cell else Purge(RemoveName(cell, names[0]), names[1..])
  }

  /** Purging keeps exactly the elements whose name is not on the list. */
  lemma {:induction false} PurgeElements(cell: seq<Element>, names: seq<string>)
    ensures forall e :: e in Purge(cell, names) <==> e in cell && e.name !in names
    decreases |names|
  {
    if names != [] {
      PurgeElements(RemoveName(cell, names[0]), names[1..]);
      assert forall x :: x in names <==> x == names[0] || x in names[1..];
    }
  }

  /** Purging is order-preserving: removing names commutes with splitting a cell. */
  lemma {:induction false} RemoveNameAppend(a: seq<Element>, b: seq<Element>, x: string)
    ensures RemoveName(a + b, x) == RemoveName(a, x) + RemoveName(b, x)
  {
    if a == [] {
      assert a + b == b;
    } else {
      assert (a + b)[1..] == a[1..] + b;
      RemoveNameAppend(a[1..], b, x);
    }
  }

  lemma {:induction false} PurgeAppend(a: seq<Element>, b: seq<Element>, names: seq<string>)
    ensures Purge(a + b, names) == Purge(a, names) + Purge(b, names)
    decreases |names|
  {
    if names != [] {
      RemoveNameAppend(a, b, names[0]);
      PurgeAppend(RemoveName(a, names[0]), RemoveName(b, names[0]), names[1..]);
    }
  }

  /** The entries of `a` that also occur in `b`, in the order of `a`. */
  function Keep(a: seq<string>, b: seq<string>): (r: seq<string>)
    ensures forall x :: x in r <==> x in a && x in b
  {
    if a == [] then []
    else
      var rest := Keep(a[1..], b);
      assert forall x :: x in a <==> x == a[0] || x in a[1..];
      if a[0] in b then [a[0]] + rest else rest
  }

  /** The intersection loop with its result kept apart from its input. */
  function Intersection(acc: seq<string>, lists: seq<seq<string>>): seq<string>
    decreases |lists|
  {
    if lists == [] then acc else Intersection(Keep(acc, lists[0]), lists[1..])
  }

  lemma {:induction false} IntersectionElements(acc: seq<string>, lists: seq<seq<string>>)
    ensures forall x :: x in Intersection(acc, lists) <==> x in acc && forall k :: 0 <= k < |lists| ==> x in lists[k]
    decreases |lists|
  {
    if lists != [] {
      IntersectionElements(Keep(acc, lists[0]), lists[1..]);
      forall x ensures (forall k :: 0 <= k < |lists| ==> x in lists[k]) <==> x in lists[0] && forall k :: 0 <= k < |lists[1..]| ==> x in lists[1..][k] {
        if x in lists[0] && forall k :: 0 <= k < |lists[1..]| ==> x in lists[1..][k] {
          forall k | 0 < k < |lists| ensures x in lists[k] {
            assert lists[1..][k - 1] == lists[k];
          }
        }
      }
    }
  }

  /** The names that are NaN in every cell: what the comment above the intersection loop asks for. */
  function Common(m: PhreeqcMatrix): seq<string>
    requires m.cells.Keys != {}
  {
    Intersection(NaNLists(m)[0], NaNLists(m))
  }

  lemma NaNListIff(m: PhreeqcMatrix, k: nat)
    requires k < |m.cells|
    ensures forall x :: x in NaNLists(m)[k] <==> NaNIn(m.cells[Ids(m)[k]], x)
  {
    NaNListsAt(m, k);
    NaNNamesIff(m.cells[Ids(m)[k]]);
  }

  lemma CommonNaN(m: PhreeqcMatrix)
    requires m.cells.Keys != {}
    ensures forall x :: x in Common(m) <==> forall id :: id in m.cells ==> NaNIn(m.cells[id], x)
  {
    var lists := NaNLists(m);
    var ids := Ids(m);
    IntersectionElements(lists[0], lists);
    forall k | 0 <= k < |ids| ensures forall x :: x in lists[k] <==> NaNIn(m.cells[ids[k]], x) {
      NaNListIff(m, k);
    }
    forall x ensures x in Common(m) <==> forall id :: id in m.cells ==> NaNIn(m.cells[id], x) {
      if forall id :: id in m.cells ==> NaNIn(m.cells[id], x) {
        forall k | 0 <= k < |lists| ensures x in lists[k] {
          assert ids[k] in m.cells;
        }
      }
      if x in Common(m) {
        forall id | id in m.cells ensures NaNIn(m.cells[id], x) {
          var k :| 0 <= k < |ids| && ids[k] == id;
          assert x in lists[k];
        }
      }
    }
  }

  /** Every cell with the listed names removed; the base names and the other fields are kept. */
  function PurgedBy(m: PhreeqcMatrix, names: seq<string>): (r: PhreeqcMatrix)
    ensures r.cells.Keys == m.cells.Keys
    ensures r == m.(cells := r.cells)
  {
    m.(cells := map id | id in m.cells :: Purge(m.cells[id], names))
  }

  /** The matrix after removing the names that are NaN in every cell. */
  function Cleaned(m: PhreeqcMatrix): PhreeqcMatrix
    requires m.cells.Keys != {}
  {
    PurgedBy(m, Common(m))
  }

  /** An element survives the clean-up unless its name is NaN in every cell. */
  lemma CleanedElements(m: PhreeqcMatrix, id: int, e: Element)
    requires m.cells.Keys != {} && id in m.cells
    ensures id in Cleaned(m).cells
    ensures e in Cleaned(m).cells[id] <==> e in m.cells[id] && exists c :: c in m.cells && !NaNIn(m.cells[c], e.name)
  {
    CommonNaN(m);
    PurgeElements(m.cells[id], Common(m));
  }

  method PurgeCell(cell: seq<Element>, names: seq<string>) returns (r: seq<Element>)
    ensures r == Purge(cell, names)
  {
    r := cell;
    var j := 0;
    while j < |names|
      invariant 0 <= j <= |names|
      invariant Purge(cell, names) == Purge(r, names[j..])
    {
      assert names[j..][1..] == names[j + 1..];
      r := RemoveName(r, names[j]);
      j := j + 1;
    }
  }

  /** The first loop of remove_NaNs: one list of NaN names per cell, in map order. */
  method CollectNaNs(cells: seq<seq<Element>>) returns (lists: seq<seq<string>>)
    ensures lists == NaNsOf(cells)
  {
    lists := [];
    var i := 0;
    while i < |cells|
      invariant 0 <= i <= |cells|
      invariant lists == NaNsOf(cells[..i])
    {
      assert cells[..i + 1][..i] == cells[..i];
      lists := lists + [NaNNames(cells[i])];
      i := i + 1;
    }
    TakeAll(cells);
  }

  /** The intersection loop, each step into a fresh list. */
  method IntersectAll(lists: seq<seq<string>>) returns (common: seq<string>)
    requires lists != []
    ensures common == Intersection(lists[0], lists)
  {
    common := lists[0];
    var j := 0;
    while j < |lists|
      invariant 0 <= j <= |lists|
      invariant Intersection(lists[0], lists) == Intersection(common, lists[j..])
    {
      assert lists[j..][1..] == lists[j + 1..];
      common := Keep(common, lists[j]);
      j := j + 1;
    }
  }

  /** The cells of `done` are purged, the others untouched. */
  predicate PurgedUpTo(cells: map<int, seq<Element>>, m: PhreeqcMatrix, names: seq<string>, done: set<int>)
  {
    cells.Keys == m.cells.Keys &&
    forall id :: id in cells ==> cells[id] == if id in done then Purge(m.cells[id], names) else m.cells[id]
  }

  lemma PurgeStep(cells: map<int, seq<Element>>, m: PhreeqcMatrix, names: seq<string>, done: set<int>, id: int)
    requires PurgedUpTo(cells, m, names, done) && id in m.cells
    ensures PurgedUpTo(cells[id := Purge(m.cells[id], names)], m, names, done + {id})
  {
  }

  lemma PurgeDone(cells: map<int, seq<Element>>, m: PhreeqcMatrix, names: seq<string>)
    requires PurgedUpTo(cells, m, names, m.cells.Keys)
    ensures cells == PurgedBy(m, names).cells
  {
    var want := PurgedBy(m, names).cells;
    assert forall id :: id in cells ==> cells[id] == want[id];
  }

  /** The last loop, over the cells of `ids`: each vector purged in place. */
  method PurgeCells(m: PhreeqcMatrix, names: seq<string>, ids: seq<int>) returns (cells: map<int, seq<Element>>)
    requires Elems(ids) <= m.cells.Keys
    ensures PurgedUpTo(cells, m, names, Elems(ids))
  {
    cells := m.cells;
    var k := 0;
    while k < |ids|
      invariant 0 <= k <= |ids|
      invariant PurgedUpTo(cells, m, names, Elems(ids[..k]))
    {
      var purged := PurgeCell(m.cells[ids[k]], names);
      ElemsSnoc(ids, k);
      PurgeStep(cells, m, names, Elems(ids[..k]), ids[k]);
      cells := cells[ids[k] := purged];
      k := k + 1;
    }
    TakeAll(ids);
  }

  /** The last loop of remove_NaNs, in map order. */
  method PurgeAll(m: PhreeqcMatrix, names: seq<string>) returns (r: PhreeqcMatrix)
    ensures r == PurgedBy(m, names)
  {
    var ids := Ids(m);
    assert Elems(ids) == m.cells.Keys;
    var cells := PurgeCells(m, names, ids);
    PurgeDone(cells, m, names);
    r := m.(cells := cells);
  }

  /**
   * remove_NaNs with the intersection computed into a fresh list, which the
   * comment at Init.cpp:261 asks for; see RemoveNaNsAsWritten for the code as it
   * stands. It reads `elements_to_remove[0]`, so the map must not be empty.
   */
  method RemoveNaNs(m: PhreeqcMatrix) returns (r: PhreeqcMatrix)
    requires m.cells.Keys != {}
    ensures r == Cleaned(m)
  {
    var lists := CollectNaNs(Cells(m));
    var common := IntersectAll(lists);
    r := PurgeAll(m, common);
  }

  // The code as it stands: `std::set_intersection(intersection..., vec..., back_inserter(intersection))`
  // appends each step's output to the list it reads (undefined behaviour when the
  // vector reallocates; modelled as if it does not), so the list only grows.

  /** The intersection loop as written: every step appends to its own input. */
  function Appended(acc: seq<string>, lists: seq<seq<string>>): seq<string>
    decreases |lists|
  {
    if lists == [] then acc else Appended(acc + Order.SetIntersection(acc, lists[0]), lists[1..])
  }

  lemma {:induction false} AppendedElements(acc: seq<string>, lists: seq<seq<string>>)
    ensures forall x :: x in Appended(acc, lists) <==> x in acc
    decreases |lists|
  {
    if lists != [] {
      Order.SetIntersectionWithin(acc, lists[0]);
      AppendedElements(acc + Order.SetIntersection(acc, lists[0]), lists[1..]);
    }
  }

  /** remove_NaNs as written. */
  function RemoveNaNsAsWritten(m: PhreeqcMatrix): PhreeqcMatrix
    requires m.cells.Keys != {}
  {
    var lists := NaNLists(m);
    PurgedBy(m, Appended(lists[0], lists))
  }

  /** As written, every name that is NaN in the lowest cell is removed from all cells. */
  lemma AsWrittenRemovesFirstCellNaNs(m: PhreeqcMatrix, id: int, e: Element)
    requires m.cells.Keys != {} && id in m.cells
    ensures id in RemoveNaNsAsWritten(m).cells
    ensures e in RemoveNaNsAsWritten(m).cells[id] <==> e in m.cells[id] && !NaNIn(m.cells[First(m)], e.name)
  {
    var lists := NaNLists(m);
    AppendedElements(lists[0], lists);
    NaNListIff(m, 0);
    PurgeElements(m.cells[id], Appended(lists[0], lists));
  }

  /** Two cells; "X" is NaN in cell 1 only. */
  function TwoCells(): (m: PhreeqcMatrix)
    ensures m.cells.Keys == {1, 2}
  {
    PhreeqcMatrix(
      map[1 := [Element("X", Solution, NaN)], 2 := [Element("X", Solution, Num(5.0))]],
      map[1 := [], 2 := []], {}, "", false, false)
  }

  /** As written, the real value 5 of "X" in cell 2 is removed with cell 1's NaN. */
  lemma AsWrittenDropsValue()
    ensures Element("X", Solution, Num(5.0)) in TwoCells().cells[2]
    ensures Element("X", Solution, Num(5.0)) !in RemoveNaNsAsWritten(TwoCells()).cells[2]
  {
    var m := TwoCells();
    assert First(m) == 1 by {
      assert 1 in m.cells;
      assert First(m) <= 1;
    }
    assert NaNIn(m.cells[1], "X") by {
      assert m.cells[1][0].name == "X";
    }
    AsWrittenRemovesFirstCellNaNs(m, 2, Element("X", Solution, Num(5.0)));
  }

  /** The intended clean-up keeps it, since "X" is not NaN in cell 2. */
  lemma CleanedKeepsValue()
    ensures Element("X", Solution, Num(5.0)) in Cleaned(TwoCells()).cells[2]
  {
    var m := TwoCells();
    assert !NaNIn(m.cells[2], "X") by {
      assert |m.cells[2]| == 1 && m.cells[2][0].value == Num(5.0);
    }
    CleanedElements(m, 2, Element("X", Solution, Num(5.0)));
  }

  lemma {:induction false} AppendedFromEmpty(lists: seq<seq<string>>)
    ensures Appended([], lists) == []
    decreases |lists|
  {
    if lists != [] {
      AppendedFromEmpty(lists[1..]);
    }
  }

  lemma {:induction false} IntersectionFromEmpty(lists: seq<seq<string>>)
    ensures Intersection([], lists) == []
    decreases |lists|
  {
    if lists != [] {
      IntersectionFromEmpty(lists[1..]);
    }
  }

  /**
   * When the lowest cell has no NaN name, the code as written pushes nothing
   * onto the list it reads, so it has defined behaviour, and it removes what
   * the intended clean-up removes: nothing.
   */
  lemma AsWrittenAgreesWithoutFirstNaN(m: PhreeqcMatrix)
    requires m.cells.Keys != {} && NaNLists(m)[0] == []
    ensures RemoveNaNsAsWritten(m) == Cleaned(m) == PurgedBy(m, [])
  {
    AppendedFromEmpty(NaNLists(m));
    IntersectionFromEmpty(NaNLists(m));
  }

  // ---------------------------------------------------------------- subset and erase

  /** The IDs of a list, as a set. */
  function Elems(ids: seq<int>): (r: set<int>)
    ensures forall id :: id in r <==> id in ids
  {
    set id | id in ids
  }

  lemma ElemsSnoc(ids: seq<int>, i: nat)
    requires i < |ids|
    ensures Elems(ids[..i + 1]) == Elems(ids[..i]) + {ids[i]}
  {
    assert ids[..i + 1] == ids[..i] + [ids[i]];
  }

  /** The cells of `ids`, of both maps. */
  function Restrict(m: PhreeqcMatrix, ids: set<int>): (r: PhreeqcMatrix)
    requires ids <= m.cells.Keys && ids <= m.internal.Keys
    ensures r.cells.Keys == ids && r.internal.Keys == ids
  {
    m.(cells := map id | id in ids :: m.cells[id], internal := map id | id in ids :: m.internal[id])
  }

  /** The cells other than `ids`, of both maps. */
  function Drop(m: PhreeqcMatrix, ids: set<int>): (r: PhreeqcMatrix)
    ensures r.cells.Keys == m.cells.Keys - ids && r.internal.Keys == m.internal.Keys - ids
  {
    m.(cells := m.cells - ids, internal := m.internal - ids)
  }

  /** subset: a copy holding only the listed cells; `.at` throws for an unknown one. */
  method Subset(m: PhreeqcMatrix, ids: seq<int>) returns (r: Result<PhreeqcMatrix>)
    requires ids != []
    ensures r.Err? <==> exists i :: 0 <= i < |ids| && (ids[i] !in m.cells || ids[i] !in m.internal)
    ensures r.Err? ==> r.error == OutOfRange
    ensures r.Ok? ==> Elems(ids) <= m.cells.Keys && Elems(ids) <= m.internal.Keys
    ensures r.Ok? ==> ids[0] in Restrict(m, Elems(ids)).cells && r.value == Cleaned(Restrict(m, Elems(ids)))
  {
    var cells: map<int, seq<Element>> := map[];
    var internal: map<int, seq<BaseName>> := map[];
    var i := 0;
    while i < |ids|
      invariant 0 <= i <= |ids|
      invariant forall k :: 0 <= k < i ==> ids[k] in m.cells && ids[k] in m.internal
      invariant cells == map id | id in Elems(ids[..i]) :: m.cells[id]
      invariant internal == map id | id in Elems(ids[..i]) :: m.internal[id]
    {
      if ids[i] !in m.cells || ids[i] !in m.internal {
        return Err(OutOfRange);
      }
      ElemsSnoc(ids, i);
      cells := cells[ids[i] := m.cells[ids[i]]];
      internal := internal[ids[i] := m.internal[ids[i]]];
      i := i + 1;
    }
    TakeAll(ids);
    var picked := m.(cells := cells, internal := internal);
    assert picked == Restrict(m, Elems(ids));
    assert ids[0] in picked.cells;
    var result := RemoveNaNs(picked);
    r := Ok(result);
  }

  /** erase: a copy without the listed cells; unknown IDs are ignored. remove_NaNs needs a cell left. */
  method Erase(m: PhreeqcMatrix, ids: seq<int>) returns (r: PhreeqcMatrix)
    requires m.cells.Keys - Elems(ids) != {}
    ensures r == Cleaned(Drop(m, Elems(ids)))
  {
    var cells := m.cells;
    var internal := m.internal;
    var i := 0;
    while i < |ids|
      invariant 0 <= i <= |ids|
      invariant cells == m.cells - Elems(ids[..i])
      invariant internal == m.internal - Elems(ids[..i])
    {
      ElemsSnoc(ids, i);
      cells := cells - {ids[i]};
      internal := internal - {ids[i]};
      i := i + 1;
    }
    TakeAll(ids);
    r := RemoveNaNs(m.(cells := cells, internal := internal));
  }

  /** A subset holds exactly the listed cells, in both maps, with the other fields copied. */
  lemma SubsetShape(m: PhreeqcMatrix, ids: set<int>)
    requires ids != {} && ids <= m.cells.Keys && ids <= m.internal.Keys
    ensures Cleaned(Restrict(m, ids)).cells.Keys == ids
    ensures Valid(Cleaned(Restrict(m, ids)))
    ensures Cleaned(Restrict(m, ids)).internal == map id | id in ids :: m.internal[id]
    ensures Cleaned(Restrict(m, ids)).database == m.database
    ensures Cleaned(Restrict(m, ids)).primaries == m.primaries
  {
  }

  /** Erasing keeps the other cells and the validity of the matrix. */
  lemma EraseShape(m: PhreeqcMatrix, ids: set<int>)
    requires m.cells.Keys - ids != {}
    ensures Cleaned(Drop(m, ids)).cells.Keys == m.cells.Keys - ids
    ensures Valid(m) ==> Valid(Cleaned(Drop(m, ids)))
    ensures Cleaned(Drop(m, ids)).internal == m.internal - ids
    ensures Cleaned(Drop(m, ids)).database == m.database
  {
  }

  // ---------------------------------------------------------------- dump strings

  /** The part of the shared IPhreeqc instance the dump strings use. */
  class Instance {
    var dumpStringOn: bool
    var dumpString: string
    /** What DUMP writes for a cell: the solver's text, not modelled. */
    const dumpOf: int -> string

    constructor(dumpOf: int -> string)
      ensures this.dumpOf == dumpOf && !dumpStringOn && dumpString == ""
    {
      this.dumpOf := dumpOf;
      dumpStringOn := false;
      dumpString := "";
    }

    method SetDumpStringOn(on: bool)
      modifies this
      ensures dumpStringOn == on && dumpString == old(dumpString)
    {
      dumpStringOn := on;
    }

    /** RunString("DUMP -cells id"): the dump string is produced only while the flag is on. */
    method RunDump(id: int)
      modifies this
      ensures dumpStringOn == old(dumpStringOn)
      ensures dumpString == if dumpStringOn then dumpOf(id) else old(dumpString)
    {
      if dumpStringOn {
        dumpString := dumpOf(id);
      }
    }
  }

  /** getDumpStringsPQI(id): the flag is switched on around the DUMP and off afterwards. */
  method DumpString(inst: Instance, id: int) returns (s: string)
    modifies inst
    ensures s == inst.dumpOf(id)
    ensures !inst.dumpStringOn
  {
    inst.SetDumpStringOn(true);
    inst.RunDump(id);
    s := inst.dumpString;
    inst.SetDumpStringOn(false);
  }

  /** The dumps of exactly the cells of `done`. */
  predicate DumpedFor(dumps: map<int, string>, dumpOf: int -> string, done: set<int>)
  {
    dumps == map id | id in done :: dumpOf(id)
  }

  lemma DumpStep(dumps: map<int, string>, dumpOf: int -> string, done: set<int>, id: int)
    requires DumpedFor(dumps, dumpOf, done)
    ensures DumpedFor(dumps[id := dumpOf(id)], dumpOf, done + {id})
  {
  }

  /** One iteration of the loop below. */
  method DumpNext(inst: Instance, dumps: map<int, string>, ghost done: set<int>, id: int) returns (next: map<int, string>)
    modifies inst
    requires DumpedFor(dumps, inst.dumpOf, done)
    ensures DumpedFor(next, inst.dumpOf, done + {id})
    ensures !inst.dumpStringOn
  {
    var s := DumpString(inst, id);
    DumpStep(dumps, inst.dumpOf, done, id);
    next := dumps[id := s];
  }

  /** The loop of getDumpStringsPQI(), over the IDs given. */
  method DumpAll(inst: Instance, ids: seq<int>) returns (dumps: map<int, string>)
    modifies inst
    ensures DumpedFor(dumps, inst.dumpOf, Elems(ids))
    ensures ids != [] ==> !inst.dumpStringOn
  {
    dumps := map[];
    var i := 0;
    while i < |ids|
      invariant 0 <= i <= |ids|
      invariant DumpedFor(dumps, inst.dumpOf, Elems(ids[..i]))
      invariant i > 0 ==> !inst.dumpStringOn
    {
      ElemsSnoc(ids, i);
      dumps := DumpNext(inst, dumps, Elems(ids[..i]), ids[i]);
      i := i + 1;
    }
    TakeAll(ids);
  }

  /** getDumpStringsPQI(): one dump per cell ID. */
  method DumpStrings(m: PhreeqcMatrix, inst: Instance) returns (dumps: map<int, string>)
    modifies inst
    ensures DumpedFor(dumps, inst.dumpOf, m.cells.Keys)
    ensures m.cells.Keys != {} ==> !inst.dumpStringOn
  {
    var ids := Ids(m);
    assert Elems(ids) == m.cells.Keys;
    if m.cells.Keys != {} {
      assert ids != [];
    }
    dumps := DumpAll(inst, ids);
  }

  /** The dump strings are keyed by exactly the IDs getIds returns. */
  lemma DumpKeys(m: PhreeqcMatrix, dumps: map<int, string>, dumpOf: int -> string)
    requires DumpedFor(dumps, dumpOf, m.cells.Keys)
    ensures forall id :: id in dumps <==> id in Ids(m)
    ensures forall id :: id in dumps ==> dumps[id] == dumpOf(id)
  {
  }
}
