// PhreeqcMatrix::get and the getMatrix* column lists. `get` builds its
// column names from the cells in map order and then emits one value per
// (cell, column), row by row or column by column; the loops accumulate into
// local vectors and are methods here, each proved equal to a function that
// says what the export holds.

module MatrixExport {
  import opened Values
  import Order
  import opened Matrix

  /** PhreeqcMatrix::VectorExportType. */
  datatype Layout = RowMajor | ColumnMajor

  /** PhreeqcMatrix::STLExport. */
  datatype Export = Export(names: seq<string>, values: seq<Val>)

  // ---------------------------------------------------------------- column names

  /**
   * The category loop of `get` for one category: `values` starts empty and
   * is replaced by its set_union with each cell's names, in map order.
   */
  function CategoryUnion(cells: seq<seq<Element>>, kind: Component): seq<string>
    decreases |cells|
  {
    if cells == [] then []
    else Order.SetUnion(CategoryUnion(cells[..|cells| - 1], kind), KindNames(cells[|cells| - 1], kind))
  }

  /** Some cell has an element of that category and name. */
  predicate InSomeCell(cells: seq<seq<Element>>, kind: Component, x: string)
  {
    exists k :: 0 <= k < |cells| && x in KindNames(cells[k], kind)
  }

  /** The union holds exactly the names that some cell has in that category. */
  lemma {:induction false} CategoryUnionMembers(cells: seq<seq<Element>>, kind: Component, x: string)
    ensures x in CategoryUnion(cells, kind) <==> InSomeCell(cells, kind, x)
    decreases |cells|
  {
    if cells != [] {
      var n := |cells| - 1;
      var front := cells[..n];
      CategoryUnionMembers(front, kind, x);
      Order.SetUnionElements(CategoryUnion(front, kind), KindNames(cells[n], kind));
      if InSomeCell(cells, kind, x) {
        var k :| 0 <= k < |cells| && x in KindNames(cells[k], kind);
        if k < n {
          assert front[k] == cells[k];
        }
      }
      if InSomeCell(front, kind, x) {
        var k :| 0 <= k < |front| && x in KindNames(front[k], kind);
        assert cells[k] == front[k];
      }
    }
  }

  /** When every cell yields the same list, the union is that list (the merge of a list with itself). */
  lemma {:induction false} CategoryUnionSame(cells: seq<seq<Element>>, kind: Component, names: seq<string>)
    requires cells != []
    requires forall k :: 0 <= k < |cells| ==> KindNames(cells[k], kind) == names
    ensures CategoryUnion(cells, kind) == names
    decreases |cells|
  {
    var n := |cells| - 1;
    if n == 0 {
      assert CategoryUnion(cells[..0], kind) == [];
    } else {
      var front := cells[..n];
      assert forall k :: 0 <= k < |front| ==> front[k] == cells[k];
      CategoryUnionSame(front, kind, names);
      Order.SetUnionSelf(names);
    }
  }

  /** The category of enum value `code`, for the codes 1 to 4 that `get` loops over. */
  function Reactant(code: nat): (c: Component)
    requires 1 <= code <= 4
    ensures Code(c) == code
  {
    if code == 1 then Exchange else if code == 2 then Kinetic else if code == 3 then Equilibrium else SurfaceComps
  }

  /** The names of categories 1 to `upTo`, each category's union after the previous ones. */
  function Categories(cells: seq<seq<Element>>, upTo: nat): seq<string>
    requires upTo <= 4
  {
    if upTo == 0 then [] else Categories(cells, upTo - 1) + CategoryUnion(cells, Reactant(upTo))
  }

  /** A name of the categories part is a name some cell holds outside SOLUTION. */
  lemma {:induction false} CategoriesMembers(cells: seq<seq<Element>>, upTo: nat, x: string)
    requires upTo <= 4
    ensures x in Categories(cells, upTo) <==> exists code :: 1 <= code <= upTo && InSomeCell(cells, Reactant(code), x)
  {
    if upTo > 0 {
      CategoriesMembers(cells, upTo - 1, x);
      CategoryUnionMembers(cells, Reactant(upTo), x);
    }
  }

  /**
   * The column names of `get`: "ID" when asked for, then the leading SOLUTION
   * names of the lowest cell, then the four category unions in enum order.
   */
  function Header(m: PhreeqcMatrix, includeId: bool): seq<string>
    requires m.cells.Keys != {}
  {
    (if includeId then ["ID"] else []) + SolutionPrefix(m.cells[First(m)]) + Categories(Cells(m), 4)
  }

  /** The names of a cell in one category, collected by the innermost loop of `get`. */
  method CollectKind(cell: seq<Element>, kind: Component) returns (names: seq<string>)
    ensures names == KindNames(cell, kind)
  {
    names := [];
    var i := 0;
    while i < |cell|
      invariant 0 <= i <= |cell|
      invariant KindNames(cell, kind) == names + KindNames(cell[i..], kind)
    {
      assert cell[i..][1..] == cell[i + 1..];
      if cell[i].kind == kind {
        AppendAssoc(names, [cell[i].name], KindNames(cell[i + 1..], kind));
        names := names + [cell[i].name];
      }
      i := i + 1;
    }
    assert names + [] == names;
  }

  /** One category: the set_union fold over the cells. */
  method CategoryNames(cells: seq<seq<Element>>, kind: Component) returns (values: seq<string>)
    ensures values == CategoryUnion(cells, kind)
  {
    values := [];
    var k := 0;
    while k < |cells|
      invariant 0 <= k <= |cells|
      invariant values == CategoryUnion(cells[..k], kind)
    {
      var names := CollectKind(cells[k], kind);
      assert cells[..k + 1][..k] == cells[..k];
      values := Order.SetUnion(values, names);
      k := k + 1;
    }
    TakeAll(cells);
  }

  /** The loop over the category codes 1 to 4. */
  method AllCategories(cells: seq<seq<Element>>) returns (names: seq<string>)
    ensures names == Categories(cells, 4)
  {
    names := [];
    var code := 1;
    while code <= 4
      invariant 1 <= code <= 5
      invariant names == Categories(cells, code - 1)
    {
      var values := CategoryNames(cells, Reactant(code));
      names := names + values;
      code := code + 1;
    }
  }

  /** The `names` half of `get`. The map must not be empty: `get` reads `_m_map.begin()`. */
  method ExportNames(m: PhreeqcMatrix, includeId: bool) returns (names: seq<string>)
    requires m.cells.Keys != {}
    ensures names == Header(m, includeId)
  {
    names := if includeId then ["ID"] else [];
    var solution := GetSolutionNames(m);
    names := names + solution;
    var cells := Cells(m);
    var rest := AllCategories(cells);
    names := names + rest;
  }

  /**
   * The names of `get` are "ID" (when asked for), the lowest cell's solution
   * names, and every name that some cell holds outside SOLUTION; nothing else.
   */
  lemma HeaderMembers(m: PhreeqcMatrix, includeId: bool, x: string)
    requires m.cells.Keys != {}
    ensures x in Header(m, includeId) <==>
      (includeId && x == "ID") || x in SolutionPrefix(m.cells[First(m)]) ||
      exists code :: 1 <= code <= 4 && InSomeCell(Cells(m), Reactant(code), x)
  {
    CategoriesMembers(Cells(m), 4, x);
  }

  /** When asked for, "ID" is the first column. */
  lemma HeaderStartsWithId(m: PhreeqcMatrix)
    requires m.cells.Keys != {}
    ensures |Header(m, true)| > 0 && Header(m, true)[0] == "ID"
  {
  }

  // ---------------------------------------------------------------- values

  /** The value `get` emits for column c of a cell: its ID in the ID column, else the first element of that name, or NaN. */
  function Entry(id: int, cell: seq<Element>, names: seq<string>, includeId: bool, c: nat): Val
    requires c < |names|
  {
    if includeId && c == 0 then Num(id as real) else Lookup(cell, names[c])
  }

  /** The row of one cell. */
  function Row(id: int, cell: seq<Element>, names: seq<string>, includeId: bool): (r: seq<Val>)
    ensures |r| == |names|
    ensures forall c :: 0 <= c < |names| ==> r[c] == Entry(id, cell, names, includeId, c)
  {
    seq(|names|, c requires 0 <= c < |names| => Entry(id, cell, names, includeId, c))
  }

  /** Row-major values: the rows of the cells one after another. */
  function Rows(ids: seq<int>, cells: seq<seq<Element>>, names: seq<string>, includeId: bool): seq<Val>
    requires |ids| == |cells|
    decreases |ids|
  {
    if ids == [] then []
    else
      var n := |ids| - 1;
      Rows(ids[..n], cells[..n], names, includeId) + Row(ids[n], cells[n], names, includeId)
  }

  /** One column: the entry of every cell, in order. */
  function Column(ids: seq<int>, cells: seq<seq<Element>>, names: seq<string>, includeId: bool, c: nat): (r: seq<Val>)
    requires |ids| == |cells| && c < |names|
    ensures |r| == |ids|
    ensures forall k :: 0 <= k < |ids| ==> r[k] == Entry(ids[k], cells[k], names, includeId, c)
  {
    seq(|ids|, k requires 0 <= k < |ids| => Entry(ids[k], cells[k], names, includeId, c))
  }

  /** Column-major values: the first `upTo` columns one after another. */
  function Columns(ids: seq<int>, cells: seq<seq<Element>>, names: seq<string>, includeId: bool, upTo: nat): seq<Val>
    requires |ids| == |cells| && upTo <= |names|
  {
    if upTo == 0 then [] else Columns(ids, cells, names, includeId, upTo - 1) + Column(ids, cells, names, includeId, upTo - 1)
  }

  lemma MulStep(a: nat, b: nat)
    ensures (a + 1) * b == a * b + b
  {
  }

  /** r*w + c lies in the first a*w slots when r < a and c < w. */
  lemma MulBelow(r: nat, a: nat, w: nat, c: nat)
    requires r < a && c < w
    ensures r * w + c < a * w
  {
    MulStep(r, w);
    if r + 1 < a {
      MulMono(r + 1, a, w);
    }
  }

  lemma MulMono(x: nat, y: nat, w: nat)
    requires x <= y
    ensures x * w <= y * w
  {
  }

  lemma {:induction false} RowsLength(ids: seq<int>, cells: seq<seq<Element>>, names: seq<string>, includeId: bool)
    requires |ids| == |cells|
    ensures |Rows(ids, cells, names, includeId)| == |ids| * |names|
    decreases |ids|
  {
    if ids != [] {
      var n := |ids| - 1;
      RowsLength(ids[..n], cells[..n], names, includeId);
      MulStep(n, |names|);
    }
  }

  /** Row-major: entry (r, c) sits at r * |names| + c. */
  lemma {:induction false} RowsAt(ids: seq<int>, cells: seq<seq<Element>>, names: seq<string>, includeId: bool, r: nat, c: nat, i: nat)
    requires |ids| == |cells|
    requires r < |ids| && c < |names|
    requires i == r * |names| + c
    ensures i < |Rows(ids, cells, names, includeId)| && Rows(ids, cells, names, includeId)[i] == Entry(ids[r], cells[r], names, includeId, c)
    decreases |ids|
  {
    var n := |ids| - 1;
    var w := |names|;
    var front := Rows(ids[..n], cells[..n], names, includeId);
    var last := Row(ids[n], cells[n], names, includeId);
    RowsLength(ids[..n], cells[..n], names, includeId);
    assert Rows(ids, cells, names, includeId) == front + last;
    if r < n {
      MulBelow(r, n, w, c);
      RowsAt(ids[..n], cells[..n], names, includeId, r, c, i);
      assert ids[..n][r] == ids[r] && cells[..n][r] == cells[r];
    } else {
      assert i == |front| + c;
    }
  }

  lemma {:induction false} ColumnsLength(ids: seq<int>, cells: seq<seq<Element>>, names: seq<string>, includeId: bool, upTo: nat)
    requires |ids| == |cells| && upTo <= |names|
    ensures |Columns(ids, cells, names, includeId, upTo)| == upTo * |ids|
  {
    if upTo > 0 {
      ColumnsLength(ids, cells, names, includeId, upTo - 1);
      MulStep(upTo - 1, |ids|);
    }
  }

  /** Column-major: entry (r, c) sits at c * |ids| + r. */
  lemma {:induction false} ColumnsAt(ids: seq<int>, cells: seq<seq<Element>>, names: seq<string>, includeId: bool, upTo: nat, r: nat, c: nat, i: nat)
    requires |ids| == |cells| && upTo <= |names|
    requires r < |ids| && c < upTo
    requires i == c * |ids| + r
    ensures i < |Columns(ids, cells, names, includeId, upTo)| && Columns(ids, cells, names, includeId, upTo)[i] == Entry(ids[r], cells[r], names, includeId, c)
  {
    var h := |ids|;
    var front := Columns(ids, cells, names, includeId, upTo - 1);
    var last := Column(ids, cells, names, includeId, upTo - 1);
    ColumnsLength(ids, cells, names, includeId, upTo - 1);
    assert Columns(ids, cells, names, includeId, upTo) == front + last;
    if c < upTo - 1 {
      MulBelow(c, upTo - 1, h, r);
      ColumnsAt(ids, cells, names, includeId, upTo - 1, r, c, i);
    } else {
      assert c == upTo - 1;
      ColumnsLength(ids, cells, names, includeId, c);
      assert |front| == c * h;
    }
  }

  /** The two layouts hold the same values, transposed, and both have rows times columns entries. */
  lemma Transposed(ids: seq<int>, cells: seq<seq<Element>>, names: seq<string>, includeId: bool, r: nat, c: nat, i: nat, j: nat)
    requires |ids| == |cells|
    requires r < |ids| && c < |names|
    requires i == r * |names| + c && j == c * |ids| + r
    ensures |Rows(ids, cells, names, includeId)| == |ids| * |names| == |Columns(ids, cells, names, includeId, |names|)|
    ensures i < |Rows(ids, cells, names, includeId)| && j < |Columns(ids, cells, names, includeId, |names|)|
      && Rows(ids, cells, names, includeId)[i] == Columns(ids, cells, names, includeId, |names|)[j]
  {
    RowsLength(ids, cells, names, includeId);
    ColumnsLength(ids, cells, names, includeId, |names|);
    RowsAt(ids, cells, names, includeId, r, c, i);
    ColumnsAt(ids, cells, names, includeId, |names|, r, c, j);
  }

  /** The values `get` returns for a layout. */
  function ExportValues(m: PhreeqcMatrix, layout: Layout, names: seq<string>, includeId: bool): seq<Val>
  {
    if layout == RowMajor then Rows(Ids(m), Cells(m), names, includeId)
    else Columns(Ids(m), Cells(m), names, includeId, |names|)
  }

  /**
   * Entry (r, c) of the row-major export sits at i = r * |names| + c: the
   * entry of the r-th cell in map order (Cells(m)[r] is the vector of ID
   * Ids(m)[r]) and column c.
   */
  lemma RowMajorAt(m: PhreeqcMatrix, names: seq<string>, includeId: bool, r: nat, c: nat, i: nat)
    requires r < |Ids(m)| && c < |names|
    requires i == r * |names| + c
    ensures |ExportValues(m, RowMajor, names, includeId)| == |Ids(m)| * |names|
    ensures i < |ExportValues(m, RowMajor, names, includeId)| &&
      ExportValues(m, RowMajor, names, includeId)[i] == Entry(Ids(m)[r], Cells(m)[r], names, includeId, c)
  {
    RowsLength(Ids(m), Cells(m), names, includeId);
    RowsAt(Ids(m), Cells(m), names, includeId, r, c, i);
  }

  /** The column-major export holds the same entry at i = c * rows + r. */
  lemma ColumnMajorAt(m: PhreeqcMatrix, names: seq<string>, includeId: bool, r: nat, c: nat, i: nat)
    requires r < |Ids(m)| && c < |names|
    requires i == c * |Ids(m)| + r
    ensures |ExportValues(m, ColumnMajor, names, includeId)| == |names| * |Ids(m)|
    ensures i < |ExportValues(m, ColumnMajor, names, includeId)| &&
      ExportValues(m, ColumnMajor, names, includeId)[i] == Entry(Ids(m)[r], Cells(m)[r], names, includeId, c)
  {
    ColumnsLength(Ids(m), Cells(m), names, includeId, |names|);
    ColumnsAt(Ids(m), Cells(m), names, includeId, |names|, r, c, i);
  }

  /**
   * An entry is the cell's ID in the ID column; elsewhere it is what
   * operator() returns for that cell and column name, and NaN where
   * operator() throws because the cell has no element of that name.
   */
  lemma EntryValue(m: PhreeqcMatrix, id: int, names: seq<string>, includeId: bool, c: nat)
    requires id in m.cells && c < |names|
    ensures includeId && c == 0 ==> Entry(id, m.cells[id], names, includeId, c) == Num(id as real)
    ensures !(includeId && c == 0) && Value(m, id, names[c]).Ok? ==>
      Entry(id, m.cells[id], names, includeId, c) == Value(m, id, names[c]).value
    ensures !(includeId && c == 0) && Value(m, id, names[c]).Err? ==>
      Entry(id, m.cells[id], names, includeId, c) == NaN && Value(m, id, names[c]) == Err(RuntimeError)
  {
  }

  /** The row-major loop over the columns of one cell, and the inner find of each value. */
  method LookupValue(cell: seq<Element>, name: string) returns (v: Val)
    ensures v == Lookup(cell, name)
  {
    v := NaN;
    var i := 0;
    while i < |cell|
      invariant 0 <= i <= Find(cell, name)
      invariant v == NaN
    {
      if cell[i].name == name {
        v := cell[i].value;
        return;
      }
      i := i + 1;
    }
  }

  method RowValues(id: int, cell: seq<Element>, names: seq<string>, includeId: bool) returns (row: seq<Val>)
    requires includeId ==> names != []
    ensures row == Row(id, cell, names, includeId)
  {
    row := [];
    var c := 0;
    if includeId {
      row := [Num(id as real)];
      c := 1;
    }
    while c < |names|
      invariant c <= |names| && (includeId ==> 1 <= c)
      invariant |row| == c
      invariant forall j :: 0 <= j < c ==> row[j] == Entry(id, cell, names, includeId, j)
    {
      var v := LookupValue(cell, names[c]);
      row := row + [v];
      c := c + 1;
    }
    Extensional(row, Row(id, cell, names, includeId));
  }

  /** The row-major export: each cell's row in map order. */
  method RowMajorValues(ids: seq<int>, cells: seq<seq<Element>>, names: seq<string>, includeId: bool) returns (values: seq<Val>)
    requires |ids| == |cells|
    requires includeId ==> names != []
    ensures values == Rows(ids, cells, names, includeId)
  {
    values := [];
    var k := 0;
    while k < |ids|
      invariant 0 <= k <= |ids|
      invariant values == Rows(ids[..k], cells[..k], names, includeId)
    {
      var row := RowValues(ids[k], cells[k], names, includeId);
      assert ids[..k + 1][..k] == ids[..k];
      assert cells[..k + 1][..k] == cells[..k];
      values := values + row;
      k := k + 1;
    }
    TakeAll(ids);
    TakeAll(cells);
  }

  /** The ID column of the column-major export. */
  method IdColumn(ids: seq<int>, cells: seq<seq<Element>>, names: seq<string>) returns (col: seq<Val>)
    requires |ids| == |cells| && names != []
    ensures col == Column(ids, cells, names, true, 0)
  {
    col := [];
    var k := 0;
    while k < |ids|
      invariant 0 <= k <= |ids|
      invariant |col| == k
      invariant forall j :: 0 <= j < k ==> col[j] == Num(ids[j] as real)
    {
      col := col + [Num(ids[k] as real)];
      k := k + 1;
    }
    Extensional(col, Column(ids, cells, names, true, 0));
  }

  /** A column of looked-up values. */
  method LookupColumn(ids: seq<int>, cells: seq<seq<Element>>, names: seq<string>, includeId: bool, c: nat) returns (col: seq<Val>)
    requires |ids| == |cells| && c < |names|
    requires !(includeId && c == 0)
    ensures col == Column(ids, cells, names, includeId, c)
  {
    col := [];
    var k := 0;
    while k < |cells|
      invariant 0 <= k <= |cells|
      invariant |col| == k
      invariant forall j :: 0 <= j < k ==> col[j] == Lookup(cells[j], names[c])
    {
      var v := LookupValue(cells[k], names[c]);
      col := col + [v];
      k := k + 1;
    }
    Extensional(col, Column(ids, cells, names, includeId, c));
  }

  /** The column-major export: the ID column first when asked for, then each column over all cells. */
  method ColumnMajorValues(ids: seq<int>, cells: seq<seq<Element>>, names: seq<string>, includeId: bool) returns (values: seq<Val>)
    requires |ids| == |cells|
    requires includeId ==> names != []
    ensures values == Columns(ids, cells, names, includeId, |names|)
  {
    values := [];
    var c := 0;
    if includeId {
      values := IdColumn(ids, cells, names);
      c := 1;
    }
    while c < |names|
      invariant c <= |names| && (includeId ==> 1 <= c)
      invariant values == Columns(ids, cells, names, includeId, c)
    {
      var col := LookupColumn(ids, cells, names, includeId, c);
      values := values + col;
      c := c + 1;
    }
  }

  /** PhreeqcMatrix::get(type, include_id). The map must not be empty. */
  method Get(m: PhreeqcMatrix, layout: Layout, includeId: bool) returns (e: Export)
    requires m.cells.Keys != {}
    ensures e.names == Header(m, includeId)
    ensures e.values == ExportValues(m, layout, e.names, includeId)
  {
    var names := ExportNames(m, includeId);
    var ids := Ids(m);
    var cells := Cells(m);
    var values;
    if layout == ColumnMajor {
      values := ColumnMajorValues(ids, cells, names, includeId);
    } else {
      values := RowMajorValues(ids, cells, names, includeId);
    }
    e := Export(names, values);
  }

  // ---------------------------------------------------------------- getMatrixTransported / getMatrixOutOnly

  /** getMatrixOutOnly: the solution columns the solver computes but does not transport. */
  function OutOnly(): (r: seq<string>)
    ensures |r| == 5 && Order.Distinct(r)
  {
    ["tc", "patm", "SolVol", "pH", "pe"]
  }

  /** The solution names without the output-only ones, in their order. */
  function Transported(names: seq<string>): seq<string>
  {
    if names == [] then []
    else
      var n := |names| - 1;
      Transported(names[..n]) + (if names[n] in OutOnly() then [] else [names[n]])
  }

  /** A name is transported iff it is a solution name and not output-only. */
  lemma {:induction false} TransportedMembers(names: seq<string>, x: string)
    ensures x in Transported(names) <==> x in names && x !in OutOnly()
  {
    if names != [] {
      var n := |names| - 1;
      TransportedMembers(names[..n], x);
      assert names == names[..n] + [names[n]];
    }
  }

  /** The filter keeps the order: it distributes over concatenation. */
  lemma {:induction false} TransportedAppend(a: seq<string>, b: seq<string>)
    ensures Transported(a + b) == Transported(a) + Transported(b)
    decreases |b|
  {
    if b == [] {
      assert a + b == a;
    } else {
      var n := |b| - 1;
      assert (a + b)[..|a + b| - 1] == a + b[..n];
      TransportedAppend(a, b[..n]);
    }
  }

  /** The solution names split into the transported and the output-only ones. */
  lemma SolutionNamesSplit(m: PhreeqcMatrix, x: string)
    requires m.cells.Keys != {}
    ensures x in SolutionPrefix(m.cells[First(m)]) <==>
      x in Transported(SolutionPrefix(m.cells[First(m)])) || (x in OutOnly() && x in SolutionPrefix(m.cells[First(m)]))
  {
    TransportedMembers(SolutionPrefix(m.cells[First(m)]), x);
  }

  /** getMatrixTransported: getSolutionNames minus the output-only names. */
  method GetMatrixTransported(m: PhreeqcMatrix) returns (names: seq<string>)
    requires m.cells.Keys != {}
    ensures names == Transported(SolutionPrefix(m.cells[First(m)]))
  {
    var sols := GetSolutionNames(m);
    names := [];
    var i := 0;
    while i < |sols|
      invariant 0 <= i <= |sols|
      invariant names == Transported(sols[..i])
    {
      assert sols[..i + 1][..i] == sols[..i];
      if sols[i] !in OutOnly() {
        names := names + [sols[i]];
      }
      i := i + 1;
    }
    TakeAll(sols);
  }

  // ---------------------------------------------------------------- getMatrixKinetics / getMatrixEquilibrium

  /** After one reactant name: every export name starting with it, not yet listed, is appended in order. */
  function AddMatches(acc: seq<string>, nam: string, mats: seq<string>): seq<string>
    decreases |mats|
  {
    if mats == [] then acc
    else AddMatches(if Order.StartsWith(mats[0], nam) && mats[0] !in acc then acc + [mats[0]] else acc, nam, mats[1..])
  }

  /** The same over the reactant names of one cell. */
  function AddAll(acc: seq<string>, nams: seq<string>, mats: seq<string>): seq<string>
    decreases |nams|
  {
    if nams == [] then acc else AddAll(AddMatches(acc, nams[0], mats), nams[1..], mats)
  }

  /** The same over the cells looked up, with the names of that kind in each. */
  function Matched(acc: seq<string>, m: PhreeqcMatrix, kind: BaseKind, lookups: seq<int>, mats: seq<string>): seq<string>
    decreases |lookups|
  {
    if lookups == [] then acc else Matched(AddAll(acc, Names(m, lookups[0], kind), mats), m, kind, lookups[1..], mats)
  }

  /** x starts with one of the names. */
  predicate Selected(x: string, nams: seq<string>)
  {
    exists j :: 0 <= j < |nams| && Order.StartsWith(x, nams[j])
  }

  /** x starts with a name of that kind in one of the cells looked up. */
  predicate SelectedIn(x: string, m: PhreeqcMatrix, kind: BaseKind, lookups: seq<int>)
  {
    exists k :: 0 <= k < |lookups| && Selected(x, Names(m, lookups[k], kind))
  }

  lemma {:induction false} AddMatchesMembers(acc: seq<string>, nam: string, mats: seq<string>, x: string)
    ensures x in AddMatches(acc, nam, mats) <==> x in acc || (x in mats && Order.StartsWith(x, nam))
    decreases |mats|
  {
    if mats != [] {
      var next := if Order.StartsWith(mats[0], nam) && mats[0] !in acc then acc + [mats[0]] else acc;
      AddMatchesMembers(next, nam, mats[1..], x);
    }
  }

  lemma {:induction false} AddMatchesDistinct(acc: seq<string>, nam: string, mats: seq<string>)
    requires Order.Distinct(acc)
    ensures Order.Distinct(AddMatches(acc, nam, mats))
    ensures |acc| <= |AddMatches(acc, nam, mats)| && AddMatches(acc, nam, mats)[..|acc|] == acc
    decreases |mats|
  {
    if mats != [] {
      var next := if Order.StartsWith(mats[0], nam) && mats[0] !in acc then acc + [mats[0]] else acc;
      AddMatchesDistinct(next, nam, mats[1..]);
      assert next[..|acc|] == acc;
    }
  }

  lemma {:induction false} AddAllMembers(acc: seq<string>, nams: seq<string>, mats: seq<string>, x: string)
    ensures x in AddAll(acc, nams, mats) <==> x in acc || (x in mats && Selected(x, nams))
    decreases |nams|
  {
    if nams != [] {
      AddMatchesMembers(acc, nams[0], mats, x);
      AddAllMembers(AddMatches(acc, nams[0], mats), nams[1..], mats, x);
      if Selected(x, nams) && !Order.StartsWith(x, nams[0]) {
        var j :| 0 <= j < |nams| && Order.StartsWith(x, nams[j]);
        assert nams[1..][j - 1] == nams[j];
      }
      if Selected(x, nams[1..]) {
        var j :| 0 <= j < |nams[1..]| && Order.StartsWith(x, nams[1..][j]);
        assert nams[j + 1] == nams[1..][j];
      }
    }
  }

  lemma {:induction false} AddAllDistinct(acc: seq<string>, nams: seq<string>, mats: seq<string>)
    requires Order.Distinct(acc)
    ensures Order.Distinct(AddAll(acc, nams, mats))
    ensures |acc| <= |AddAll(acc, nams, mats)| && AddAll(acc, nams, mats)[..|acc|] == acc
    decreases |nams|
  {
    if nams != [] {
      var next := AddMatches(acc, nams[0], mats);
      AddMatchesDistinct(acc, nams[0], mats);
      AddAllDistinct(next, nams[1..], mats);
      assert AddAll(acc, nams, mats)[..|next|][..|acc|] == AddAll(acc, nams, mats)[..|acc|];
    }
  }

  lemma {:induction false} MatchedMembers(acc: seq<string>, m: PhreeqcMatrix, kind: BaseKind, lookups: seq<int>, mats: seq<string>, x: string)
    ensures x in Matched(acc, m, kind, lookups, mats) <==> x in acc || (x in mats && SelectedIn(x, m, kind, lookups))
    decreases |lookups|
  {
    if lookups != [] {
      var next := AddAll(acc, Names(m, lookups[0], kind), mats);
      AddAllMembers(acc, Names(m, lookups[0], kind), mats, x);
      MatchedMembers(next, m, kind, lookups[1..], mats, x);
      if SelectedIn(x, m, kind, lookups) && !Selected(x, Names(m, lookups[0], kind)) {
        var k :| 0 <= k < |lookups| && Selected(x, Names(m, lookups[k], kind));
        assert lookups[1..][k - 1] == lookups[k];
      }
      if SelectedIn(x, m, kind, lookups[1..]) {
        var k :| 0 <= k < |lookups[1..]| && Selected(x, Names(m, lookups[1..][k], kind));
        assert lookups[k + 1] == lookups[1..][k];
      }
    }
  }

  lemma {:induction false} MatchedDistinct(acc: seq<string>, m: PhreeqcMatrix, kind: BaseKind, lookups: seq<int>, mats: seq<string>)
    requires Order.Distinct(acc)
    ensures Order.Distinct(Matched(acc, m, kind, lookups, mats))
    decreases |lookups|
  {
    if lookups != [] {
      AddAllDistinct(acc, Names(m, lookups[0], kind), mats);
      MatchedDistinct(AddAll(acc, Names(m, lookups[0], kind), mats), m, kind, lookups[1..], mats);
    }
  }

  /** The indices 0 to n - 1. */
  function Range(n: nat): (r: seq<int>)
    ensures |r| == n
    ensures forall i :: 0 <= i < n ==> r[i] == i
  {
    seq(n, i requires 0 <= i < n => i)
  }

  /**
   * getMatrixKinetics as written: the loop runs over the indices 0 to n - 1
   * and passes each index to getKineticsNames as if it were a cell ID.
   */
  function MatrixKineticsAsWritten(m: PhreeqcMatrix): seq<string>
  {
    if m.cells.Keys == {} then [] else Matched([], m, Kinetics, Range(|m.cells|), Header(m, true))
  }

  /** getMatrixEquilibrium as written, with the same index loop. */
  function MatrixEquilibriumAsWritten(m: PhreeqcMatrix): seq<string>
    requires m.cells.Keys != {}
  {
    Matched([], m, EquilibriumPhase, Range(|m.cells|), Header(m, true))
  }

  /** getMatrixKinetics over the cell IDs: the export names that start with a kinetics name of some cell. */
  function MatrixKinetics(m: PhreeqcMatrix): seq<string>
  {
    if m.cells.Keys == {} then [] else Matched([], m, Kinetics, Ids(m), Header(m, true))
  }

  /** getMatrixEquilibrium over the cell IDs. */
  function MatrixEquilibrium(m: PhreeqcMatrix): seq<string>
    requires m.cells.Keys != {}
  {
    Matched([], m, EquilibriumPhase, Ids(m), Header(m, true))
  }

  /** Over the cell IDs, "some lookup" is "some cell". */
  lemma SelectedInIds(x: string, m: PhreeqcMatrix, kind: BaseKind)
    ensures SelectedIn(x, m, kind, Ids(m)) <==> exists id :: id in m.cells && Selected(x, Names(m, id, kind))
  {
    var ids := Ids(m);
    if exists id :: id in m.cells && Selected(x, Names(m, id, kind)) {
      var id :| id in m.cells && Selected(x, Names(m, id, kind));
      var k :| 0 <= k < |ids| && ids[k] == id;
    }
  }

  /**
   * The kinetics columns: export names without repeats, exactly those that
   * start with the name of a kinetic reactant of some cell.
   */
  lemma MatrixKineticsMembers(m: PhreeqcMatrix, x: string)
    requires m.cells.Keys != {}
    ensures Order.Distinct(MatrixKinetics(m))
    ensures x in MatrixKinetics(m) <==>
      x in Header(m, true) && exists id :: id in m.cells && Selected(x, Names(m, id, Kinetics))
  {
    MatchedMembers([], m, Kinetics, Ids(m), Header(m, true), x);
    MatchedDistinct([], m, Kinetics, Ids(m), Header(m, true));
    SelectedInIds(x, m, Kinetics);
  }

  /** The equilibrium columns, likewise for the equilibrium phases. */
  lemma MatrixEquilibriumMembers(m: PhreeqcMatrix, x: string)
    requires m.cells.Keys != {}
    ensures Order.Distinct(MatrixEquilibrium(m))
    ensures x in MatrixEquilibrium(m) <==>
      x in Header(m, true) && exists id :: id in m.cells && Selected(x, Names(m, id, EquilibriumPhase))
  {
    MatchedMembers([], m, EquilibriumPhase, Ids(m), Header(m, true), x);
    MatchedDistinct([], m, EquilibriumPhase, Ids(m), Header(m, true));
    SelectedInIds(x, m, EquilibriumPhase);
  }

  /** The innermost loop: the export names starting with one reactant name. */
  method MatchOne(acc: seq<string>, nam: string, mats: seq<string>) returns (names: seq<string>)
    ensures names == AddMatches(acc, nam, mats)
  {
    names := acc;
    var j := 0;
    while j < |mats|
      invariant 0 <= j <= |mats|
      invariant AddMatches(acc, nam, mats) == AddMatches(names, nam, mats[j..])
    {
      assert mats[j..][1..] == mats[j + 1..];
      if Order.StartsWith(mats[j], nam) && mats[j] !in names {
        names := names + [mats[j]];
      }
      j := j + 1;
    }
  }

  /** The loop over the reactant names of one cell. */
  method MatchCell(acc: seq<string>, nams: seq<string>, mats: seq<string>) returns (names: seq<string>)
    ensures names == AddAll(acc, nams, mats)
  {
    names := acc;
    var j := 0;
    while j < |nams|
      invariant 0 <= j <= |nams|
      invariant AddAll(acc, nams, mats) == AddAll(names, nams[j..], mats)
    {
      assert nams[j..][1..] == nams[j + 1..];
      names := MatchOne(names, nams[j], mats);
      j := j + 1;
    }
  }

  /** The outer loop, over the cells looked up. */
  method MatchCells(m: PhreeqcMatrix, kind: BaseKind, lookups: seq<int>, mats: seq<string>) returns (names: seq<string>)
    ensures names == Matched([], m, kind, lookups, mats)
  {
    names := [];
    var k := 0;
    while k < |lookups|
      invariant 0 <= k <= |lookups|
      invariant Matched([], m, kind, lookups, mats) == Matched(names, m, kind, lookups[k..], mats)
    {
      assert lookups[k..][1..] == lookups[k + 1..];
      names := MatchCell(names, Names(m, lookups[k], kind), mats);
      k := k + 1;
    }
  }

  /**
   * getMatrixKinetics, looping over getIds(). The source re-evaluates `get()`
   * per reactant name; it is a const member, so one evaluation gives the same names.
   */
  method GetMatrixKinetics(m: PhreeqcMatrix) returns (names: seq<string>)
    ensures names == MatrixKinetics(m)
  {
    if m.cells.Keys == {} {
      names := [];
    } else {
      var mats := ExportNames(m, true);
      names := MatchCells(m, Kinetics, Ids(m), mats);
    }
  }

  /** getMatrixEquilibrium, looping over getIds(); it reads `get()` first, so the map must not be empty. */
  method GetMatrixEquilibrium(m: PhreeqcMatrix) returns (names: seq<string>)
    requires m.cells.Keys != {}
    ensures names == MatrixEquilibrium(m)
  {
    var mats := ExportNames(m, true);
    names := MatchCells(m, EquilibriumPhase, Ids(m), mats);
  }

  /** One cell, ID 1, with one kinetic reactant Calcite (its element is "Calcite_kin"). */
  function CalciteCell(): (m: PhreeqcMatrix)
    ensures m.cells.Keys == {1} && m.internal.Keys == {1} && |m.cells| == 1
  {
    PhreeqcMatrix(
      map[1 := [Element("Calcite_kin", Kinetic, Num(1.0))]],
      map[1 := [BaseName(Kinetics, "Calcite")]],
      {}, "", false, false)
  }

  /** Lookups of IDs that are not cells add nothing. */
  lemma {:induction false} MatchedAbsent(acc: seq<string>, m: PhreeqcMatrix, kind: BaseKind, lookups: seq<int>, mats: seq<string>)
    requires forall k :: 0 <= k < |lookups| ==> lookups[k] !in m.internal
    ensures Matched(acc, m, kind, lookups, mats) == acc
    decreases |lookups|
  {
    if lookups != [] {
      assert Names(m, lookups[0], kind) == [];
      assert forall k :: 0 <= k < |lookups[1..]| ==> lookups[1..][k] == lookups[k + 1];
      MatchedAbsent(acc, m, kind, lookups[1..], mats);
    }
  }

  /** As written, the only lookup is ID 0, which is not a cell: no kinetics column is found. */
  lemma KineticsAsWrittenMissesCell()
    ensures MatrixKineticsAsWritten(CalciteCell()) == []
  {
    var m := CalciteCell();
    assert |m.cells| == 1;
    MatchedAbsent([], m, Kinetics, Range(1), Header(m, true));
  }

  /** A name a cell holds in one of the four reactant categories is an export column. */
  lemma InHeader(m: PhreeqcMatrix, id: int, code: nat, x: string)
    requires id in m.cells && 1 <= code <= 4
    requires x in KindNames(m.cells[id], Reactant(code))
    ensures m.cells.Keys != {} && x in Header(m, true)
  {
    var ids := Ids(m);
    var k :| 0 <= k < |ids| && ids[k] == id;
    assert Cells(m)[k] == m.cells[id];
    assert InSomeCell(Cells(m), Reactant(code), x);
    HeaderMembers(m, true, x);
  }

  /**
   * A kinetic element whose name starts with a kinetics name of its cell is
   * among the kinetics columns.
   */
  lemma KineticsFound(m: PhreeqcMatrix, id: int, x: string, j: nat)
    requires id in m.cells && x in KindNames(m.cells[id], Kinetic)
    requires j < |Names(m, id, Kinetics)| && Order.StartsWith(x, Names(m, id, Kinetics)[j])
    ensures x in MatrixKinetics(m)
  {
    InHeader(m, id, 2, x);
    MatrixKineticsMembers(m, x);
  }

  /** The same for the equilibrium phases. */
  lemma EquilibriumFound(m: PhreeqcMatrix, id: int, x: string, j: nat)
    requires id in m.cells && x in KindNames(m.cells[id], Equilibrium)
    requires j < |Names(m, id, EquilibriumPhase)| && Order.StartsWith(x, Names(m, id, EquilibriumPhase)[j])
    ensures m.cells.Keys != {} && x in MatrixEquilibrium(m)
  {
    InHeader(m, id, 3, x);
    MatrixEquilibriumMembers(m, x);
  }

  /** Over the IDs, the cell's kinetics column is found. */
  lemma KineticsFindsCell()
    ensures "Calcite_kin" in MatrixKinetics(CalciteCell())
  {
    var m := CalciteCell();
    assert KindNames(m.cells[1], Kinetic) == ["Calcite_kin"];
    assert Names(m, 1, Kinetics) == ["Calcite"];
    KineticsFound(m, 1, "Calcite_kin", 0);
  }

  /** The equilibrium loop has the same index: with ID 1 its phase is never looked up. */
  lemma EquilibriumAsWrittenMissesCell()
    ensures MatrixEquilibriumAsWritten(EquilibriumCell()) == []
  {
    var m := EquilibriumCell();
    assert |m.cells| == 1;
    MatchedAbsent([], m, EquilibriumPhase, Range(1), Header(m, true));
  }

  lemma EquilibriumFindsCell()
    ensures "Calcite_eq" in MatrixEquilibrium(EquilibriumCell())
  {
    var m := EquilibriumCell();
    assert KindNames(m.cells[1], Equilibrium) == ["Calcite_eq"];
    assert Names(m, 1, EquilibriumPhase) == ["Calcite"];
    EquilibriumFound(m, 1, "Calcite_eq", 0);
  }

  /** One cell, ID 1, with the equilibrium phase "Calcite". */
  function EquilibriumCell(): (m: PhreeqcMatrix)
    ensures m.cells.Keys == {1} && m.internal.Keys == {1} && |m.cells| == 1
  {
    PhreeqcMatrix(
      map[1 := [Element("Calcite_eq", Equilibrium, Num(1.0))]],
      map[1 := [BaseName(EquilibriumPhase, "Calcite")]],
      {}, "", false, false)
  }
}
