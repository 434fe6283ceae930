// PhreeqcRunner: one engine per cell ID; each row of the simulation grid is
// compacted (the ID in slot 0 and every NaN left out), handed to the engine
// of its ID, and the engine's values are scattered back into the same
// non-NaN positions. The litephreeqc and POET copies share this code; only
// litephreeqc has the overload that skips the rows given by index.

module Runner {
  import opened Values

  // ---------------------------------------------------------------- compaction and scatter

  /** The values of the non-NaN cells, in order. */
  function Present(cells: seq<Val>): (r: seq<real>)
    ensures |r| <= |cells|
  {
    if cells == [] then []
    else Present(cells[..|cells| - 1]) + (if cells[|cells| - 1].NaN? then [] else [cells[|cells| - 1].v])
  }

  /** The cells of a row past its ID slot. */
  function Body(row: seq<Val>): seq<Val>
  {
    if row == [] then [] else row[1..]
  }

  /** The buffer `copy_to_buffer` adds: the non-NaN values of `row[1..]`, in order. */
  function Compact(row: seq<Val>): seq<real>
  {
    Present(Body(row))
  }

  /** The cells refilled from `b`: a NaN stays NaN, the k-th non-NaN cell takes `b[k]`. */
  function Fill(cells: seq<Val>, b: seq<real>): (r: seq<Val>)
    requires |b| >= |Present(cells)|
    ensures |r| == |cells|
  {
    if cells == [] then []
    else
      var init := cells[..|cells| - 1];
      Fill(init, b) + [if cells[|cells| - 1].NaN? then NaN else Num(b[|Present(init)|])]
  }

  /** The row `copy_from_buffer` leaves: the ID slot as it was, the rest refilled from the buffer. */
  function Scatter(row: seq<Val>, b: seq<real>): seq<Val>
    requires |b| >= |Compact(row)|
  {
    if row == [] then [] else [row[0]] + Fill(row[1..], b)
  }

  lemma PresentStep(cells: seq<Val>, j: nat)
    requires j < |cells|
    ensures Present(cells[..j + 1]) == Present(cells[..j]) + (if cells[j].NaN? then [] else [cells[j].v])
  {
    assert cells[..j + 1][..j] == cells[..j];
  }

  lemma FillStep(cells: seq<Val>, b: seq<real>, j: nat)
    requires j < |cells| && |b| >= |Present(cells[..j + 1])|
    ensures |Present(cells[..j + 1])| == |Present(cells[..j])| + (if cells[j].NaN? then 0 else 1)
    ensures Fill(cells[..j + 1], b) == Fill(cells[..j], b) + [if cells[j].NaN? then NaN else Num(b[|Present(cells[..j])|])]
  {
    assert cells[..j + 1][..j] == cells[..j];
    PresentStep(cells, j);
  }

  /** The buffer holds exactly the non-NaN values: the k-th of them comes from the k-th non-NaN cell. */
  lemma {:induction false} PresentAt(cells: seq<Val>, j: nat)
    requires j < |cells| && cells[j].Num?
    ensures |Present(cells[..j])| < |Present(cells)|
    ensures Present(cells)[|Present(cells[..j])|] == cells[j].v
  {
    var n := |cells| - 1;
    var init := cells[..n];
    if j < n {
      assert init[..j] == cells[..j];
      PresentAt(init, j);
    } else {
      assert init == cells[..j];
    }
  }

  /** A refilled row has its NaN holes where they were, and every other cell holds the next buffer value. */
  lemma {:induction false} FillAt(cells: seq<Val>, b: seq<real>, j: nat)
    requires |b| >= |Present(cells)| && j < |cells|
    ensures Fill(cells, b)[j].NaN? <==> cells[j].NaN?
    ensures cells[j].Num? ==> |Present(cells[..j])| < |b| && Fill(cells, b)[j] == Num(b[|Present(cells[..j])|])
  {
    var n := |cells| - 1;
    var init := cells[..n];
    if j < n {
      assert init[..j] == cells[..j];
      FillAt(init, b, j);
    } else {
      assert init == cells[..j];
    }
  }

  /** Filling cells from their own values gives the cells back. */
  lemma {:induction false} FillPresent(cells: seq<Val>)
    ensures Fill(cells, Present(cells)) == cells
  {
    if cells != [] {
      var n := |cells| - 1;
      var init := cells[..n];
      FillPrefix(init, Present(cells), Present(init));
      FillPresent(init);
      assert cells == init + [cells[n]];
    }
  }

  /** Filling reads only the first |Present(cells)| buffer values. */
  lemma {:induction false} FillPrefix(cells: seq<Val>, b: seq<real>, b': seq<real>)
    requires |b| >= |Present(cells)| && |b'| >= |Present(cells)|
    requires b[..|Present(cells)|] == b'[..|Present(cells)|]
    ensures Fill(cells, b) == Fill(cells, b')
  {
    if cells != [] {
      var n := |cells| - 1;
      var init := cells[..n];
      var k := |Present(init)|;
      assert b[..k] == b[..|Present(cells)|][..k];
      assert b'[..k] == b'[..|Present(cells)|][..k];
      FillPrefix(init, b, b');
      if cells[n].Num? {
        assert b[k] == b[..|Present(cells)|][k];
        assert b'[k] == b'[..|Present(cells)|][k];
      }
    }
  }

  /** Compacting a refilled row gives the buffer values it used. */
  lemma {:induction false} PresentFill(cells: seq<Val>, b: seq<real>)
    requires |b| >= |Present(cells)|
    ensures Present(Fill(cells, b)) == b[..|Present(cells)|]
  {
    if cells != [] {
      var n := |cells| - 1;
      var init := cells[..n];
      var f := Fill(cells, b);
      PresentFill(init, b);
      assert f[..n] == Fill(init, b);
      assert f[n].NaN? <==> cells[n].NaN?;
      var k := |Present(init)|;
      if cells[n].Num? {
        assert b[..k + 1] == b[..k] + [b[k]];
      }
    }
  }

  /** `copy_from_buffer` after `copy_to_buffer`, with the buffer untouched, leaves the row as it was. */
  lemma ScatterCompact(row: seq<Val>)
    ensures Scatter(row, Compact(row)) == row
  {
    if row != [] {
      FillPresent(row[1..]);
    }
  }

  /** `copy_to_buffer` after `copy_from_buffer` gives the buffer values that were used. */
  lemma CompactScatter(row: seq<Val>, b: seq<real>)
    requires |b| >= |Compact(row)|
    ensures Compact(Scatter(row, b)) == b[..|Compact(row)|]
  {
    if row != [] {
      PresentFill(row[1..], b);
      assert Body(Scatter(row, b)) == Fill(row[1..], b);
    }
  }

  /** Scattering keeps the length, the ID slot and the NaN holes, and the k-th non-NaN cell takes b[k]. */
  lemma ScatterShape(row: seq<Val>, b: seq<real>, j: nat)
    requires |b| >= |Compact(row)| && 1 <= j < |row|
    ensures |Scatter(row, b)| == |row| && Scatter(row, b)[0] == row[0]
    ensures Scatter(row, b)[j].NaN? <==> row[j].NaN?
    ensures row[j].Num? ==> |Present(row[1..j])| < |b| && Scatter(row, b)[j] == Num(b[|Present(row[1..j])|])
  {
    FillAt(row[1..], b, j - 1);
    assert row[1..][..j - 1] == row[1..j];
  }

  /** copy_to_buffer: `push_back(row[j])` for each j >= 1 whose value is not NaN. */
  method CopyToBuffer(buffer: seq<real>, row: seq<Val>) returns (r: seq<real>)
    ensures r == buffer + Compact(row)
  {
    r := buffer;
    if row == [] {
      return;
    }
    var cells := row[1..];
    var i := 0;
    while i < |cells|
      invariant i <= |cells|
      invariant r == buffer + Present(cells[..i])
    {
      PresentStep(cells, i);
      if cells[i].Num? {
        r := r + [cells[i].v];
      }
      i := i + 1;
    }
    assert cells[..i] == cells;
  }

  /**
   * copy_from_buffer: every non-NaN cell past the ID takes `buffer[buffer_index++]`, the others stay.
   * The row is a value here, so the refilled cells are collected and the row is rebuilt from them.
   */
  method CopyFromBuffer(buffer: seq<real>, row: seq<Val>) returns (r: seq<Val>)
    requires |buffer| >= |Compact(row)|
    ensures r == Scatter(row, buffer)
  {
    if row == [] {
      return [];
    }
    var cells := row[1..];
    assert Compact(row) == Present(cells);
    var filled := [];
    var bufferIndex := 0;
    var i := 0;
    while i < |cells|
      invariant i <= |cells|
      invariant bufferIndex == |Present(cells[..i])| <= |buffer|
      invariant filled == Fill(cells[..i], buffer)
    {
      PrefixBound(cells, i + 1);
      FillStep(cells, buffer, i);
      if cells[i].Num? {
        filled := filled + [Num(buffer[bufferIndex])];
        bufferIndex := bufferIndex + 1;
      } else {
        filled := filled + [NaN];
      }
      i := i + 1;
    }
    assert cells[..i] == cells;
    r := [row[0]] + filled;
  }

  /** A prefix has no more non-NaN cells than the whole. */
  lemma {:induction false} PrefixBound(cells: seq<Val>, j: nat)
    requires j <= |cells|
    ensures |Present(cells[..j])| <= |Present(cells)|
  {
    if j < |cells| {
      var n := |cells| - 1;
      assert cells[..n][..j] == cells[..j];
      PrefixBound(cells[..n], j);
      assert cells[..n] == cells[..|cells| - 1];
    } else {
      assert cells[..j] == cells;
    }
  }

  // ---------------------------------------------------------------- running the rows

  /** `static_cast<int>` of a double: truncation toward zero. */
  function Trunc(x: real): int
  {
    if x >= 0.0 then x.Floor else -((-x).Floor)
  }

  /**
   * A row's ID slot: present, a number, and one `static_cast<int>` converts
   * without undefined behaviour (its truncation fits in an `int`).
   */
  predicate IdSlot(row: seq<Val>)
  {
    |row| >= 1 && row[0].Num? && -2147483649.0 < row[0].v < 2147483648.0
  }

  /** Every row has an ID slot. */
  predicate Rows(rows: seq<seq<Val>>)
  {
    forall i :: 0 <= i < |rows| ==> IdSlot(rows[i])
  }

  /** The cell ID of a row. */
  function Id(row: seq<Val>): (id: int)
    requires IdSlot(row)
    ensures -2147483648 <= id < 2147483648
  {
    Trunc(row[0].v)
  }

  /**
   * An engine's runCell writes its values back into the buffer it is given,
   * so when it returns the length stays. It may instead throw (invalid_argument
   * for a negative time step, runtime_error when the solver reports errors).
   */
  ghost predicate KeepsLength<E(!new)>(runCell: (E, seq<real>, real) -> (E, Result<seq<real>>))
  {
    forall e, b, t :: runCell(e, b, t).1.Ok? ==> |runCell(e, b, t).1.value| == |b|
  }

  /** The engines, the rows and the exception that stopped the run, if any. */
  datatype Outcome<E> = Outcome(engines: map<int, E>, rows: seq<seq<Val>>, error: Option<Error>)

  /**
   * PhreeqcRunner::run over the first n rows: a row whose index is ignored is
   * skipped; otherwise `_engineStorage.at(id)` throws out_of_range, or the
   * engine's runCell throws, and no later row is touched; or it runs on the
   * row's compacted buffer and the result is scattered back into that row.
   */
  ghost function Process<E(!new)>(engines: map<int, E>, rows: seq<seq<Val>>, n: nat, dt: real,
                                  runCell: (E, seq<real>, real) -> (E, Result<seq<real>>), ignore: set<nat>): (o: Outcome<E>)
    requires n <= |rows| && Rows(rows) && KeepsLength(runCell)
    ensures |o.rows| == |rows| && o.engines.Keys == engines.Keys
  {
    if n == 0 then Outcome(engines, rows, None)
    else
      var o := Process(engines, rows, n - 1, dt, runCell, ignore);
      if o.error.Some? || (n - 1) in ignore then o
      else StepRow(o.engines, o.rows, n - 1, rows[n - 1], dt, runCell)
  }

  /** A row throws: its ID has no engine, or its engine's runCell throws on the compacted row. */
  ghost predicate RowFails<E(!new)>(engines: map<int, E>, row: seq<Val>, dt: real,
                                    runCell: (E, seq<real>, real) -> (E, Result<seq<real>>))
    requires IdSlot(row)
  {
    Id(row) !in engines || runCell(engines[Id(row)], Compact(row), dt).1.Err?
  }

  /**
   * One row that is not ignored: there is no engine for its ID (out_of_range),
   * or its engine runs on the compacted row; when runCell throws, the engine
   * keeps the state it reached and the row is not written back.
   */
  ghost function StepRow<E(!new)>(engines: map<int, E>, rows: seq<seq<Val>>, i: nat, row: seq<Val>, dt: real,
                                  runCell: (E, seq<real>, real) -> (E, Result<seq<real>>)): (o: Outcome<E>)
    requires i < |rows| && IdSlot(row) && KeepsLength(runCell)
    ensures |o.rows| == |rows| && o.engines.Keys == engines.Keys
    ensures o.error.Some? <==> RowFails(engines, row, dt, runCell)
    ensures o.error.Some? ==> o.rows == rows
  {
    if Id(row) !in engines then Outcome(engines, rows, Some(OutOfRange))
    else
      var step := runCell(engines[Id(row)], Compact(row), dt);
      if step.1.Err? then Outcome(engines[Id(row) := step.0], rows, Some(step.1.error))
      else Outcome(engines[Id(row) := step.0], rows[i := Scatter(row, step.1.value)], None)
  }

  /** Rows past the first n are not touched yet. */
  lemma {:induction false} ProcessLater<E(!new)>(engines: map<int, E>, rows: seq<seq<Val>>, n: nat, dt: real,
                                                 runCell: (E, seq<real>, real) -> (E, Result<seq<real>>), ignore: set<nat>, i: nat)
    requires n <= i < |rows| && Rows(rows) && KeepsLength(runCell)
    ensures Process(engines, rows, n, dt, runCell, ignore).rows[i] == rows[i]
  {
    if n > 0 {
      ProcessLater(engines, rows, n - 1, dt, runCell, ignore, i);
    }
  }

  /** Same length, same ID slot, NaN holes in the same places. */
  predicate SameShape(row: seq<Val>, row': seq<Val>)
  {
    |row'| == |row| && (|row| >= 1 ==> row'[0] == row[0]) &&
    forall j :: 0 <= j < |row| ==> (row'[j].NaN? <==> row[j].NaN?)
  }

  /** Scattering any buffer keeps the shape of the row. */
  lemma ScatterSameShape(row: seq<Val>, b: seq<real>)
    requires |b| >= |Compact(row)| && |row| >= 1
    ensures SameShape(row, Scatter(row, b))
  {
    forall j | 1 <= j < |row|
      ensures Scatter(row, b)[j].NaN? <==> row[j].NaN?
    {
      ScatterShape(row, b, j);
    }
  }

  /** Running keeps the shape of every row. */
  lemma {:induction false} ProcessShape<E(!new)>(engines: map<int, E>, rows: seq<seq<Val>>, n: nat, dt: real,
                                                 runCell: (E, seq<real>, real) -> (E, Result<seq<real>>), ignore: set<nat>, i: nat)
    requires n <= |rows| && Rows(rows) && KeepsLength(runCell) && i < |rows|
    ensures SameShape(rows[i], Process(engines, rows, n, dt, runCell, ignore).rows[i])
  {
    if n > 0 {
      var o := Process(engines, rows, n - 1, dt, runCell, ignore);
      ProcessShape(engines, rows, n - 1, dt, runCell, ignore, i);
      var row := rows[n - 1];
      if i == n - 1 && o.error.None? && i !in ignore && Id(row) in o.engines {
        var step := runCell(o.engines[Id(row)], Compact(row), dt);
        if step.1.Ok? {
          ScatterSameShape(row, step.1.value);
        }
      }
    }
  }

  /** Ignored rows are left completely alone. */
  lemma {:induction false} ProcessIgnored<E(!new)>(engines: map<int, E>, rows: seq<seq<Val>>, n: nat, dt: real,
                                                   runCell: (E, seq<real>, real) -> (E, Result<seq<real>>), ignore: set<nat>, i: nat)
    requires n <= |rows| && Rows(rows) && KeepsLength(runCell) && i < |rows| && i in ignore
    ensures Process(engines, rows, n, dt, runCell, ignore).rows[i] == rows[i]
  {
    if n > 0 {
      ProcessIgnored(engines, rows, n - 1, dt, runCell, ignore, i);
    }
  }

  /** Row k is where the run stops: it is not ignored, the rows before it went through, and it throws. */
  ghost predicate FailsAt<E(!new)>(engines: map<int, E>, rows: seq<seq<Val>>, k: nat, dt: real,
                                   runCell: (E, seq<real>, real) -> (E, Result<seq<real>>), ignore: set<nat>)
    requires k < |rows| && Rows(rows) && KeepsLength(runCell)
  {
    var o := Process(engines, rows, k, dt, runCell, ignore);
    k !in ignore && o.error.None? && RowFails(o.engines, rows[k], dt, runCell)
  }

  /**
   * The run throws exactly when some row that is not ignored, reached with
   * no exception before it, has no engine for its ID or makes its engine's
   * runCell throw.
   */
  lemma {:induction false} ProcessFails<E(!new)>(engines: map<int, E>, rows: seq<seq<Val>>, n: nat, dt: real,
                                                 runCell: (E, seq<real>, real) -> (E, Result<seq<real>>), ignore: set<nat>)
    requires n <= |rows| && Rows(rows) && KeepsLength(runCell)
    ensures Process(engines, rows, n, dt, runCell, ignore).error.Some?
      <==> exists k :: 0 <= k < n && FailsAt(engines, rows, k, dt, runCell, ignore)
  {
    if n > 0 {
      ProcessFails(engines, rows, n - 1, dt, runCell, ignore);
      var o := Process(engines, rows, n - 1, dt, runCell, ignore);
      if o.error.None? && !FailsAt(engines, rows, n - 1, dt, runCell, ignore) {
        assert forall k :: 0 <= k < n && FailsAt(engines, rows, k, dt, runCell, ignore) ==> k == n - 1;
      }
    }
  }

  /** A row that is not ignored and whose ID has no engine makes the run throw, whatever comes before it. */
  lemma {:induction false} ProcessFailsAtUnknown<E(!new)>(engines: map<int, E>, rows: seq<seq<Val>>, n: nat, dt: real,
                                                          runCell: (E, seq<real>, real) -> (E, Result<seq<real>>), ignore: set<nat>, k: nat)
    requires n <= |rows| && Rows(rows) && KeepsLength(runCell)
    requires k < n && k !in ignore && Id(rows[k]) !in engines
    ensures Process(engines, rows, n, dt, runCell, ignore).error.Some?
  {
    if n - 1 > k {
      ProcessFailsAtUnknown(engines, rows, n - 1, dt, runCell, ignore, k);
    }
  }

  /**
   * With engines whose runCell never throws, the run throws exactly when some
   * row that is not ignored names an ID without an engine.
   */
  lemma {:induction false} ProcessFailsUnknown<E(!new)>(engines: map<int, E>, rows: seq<seq<Val>>, n: nat, dt: real,
                                                        runCell: (E, seq<real>, real) -> (E, Result<seq<real>>), ignore: set<nat>)
    requires n <= |rows| && Rows(rows) && KeepsLength(runCell)
    requires forall e, b :: runCell(e, b, dt).1.Ok?
    ensures Process(engines, rows, n, dt, runCell, ignore).error.Some?
      <==> exists k :: 0 <= k < n && k !in ignore && Id(rows[k]) !in engines
  {
    if n > 0 {
      ProcessFailsUnknown(engines, rows, n - 1, dt, runCell, ignore);
    }
  }

  /**
   * With engines whose runCell throws at this time step (as PhreeqcEngine does
   * for a negative one), no row is written, and the run throws exactly when
   * some row is not ignored.
   */
  lemma {:induction false} ProcessAllThrow<E(!new)>(engines: map<int, E>, rows: seq<seq<Val>>, n: nat, dt: real,
                                                    runCell: (E, seq<real>, real) -> (E, Result<seq<real>>), ignore: set<nat>)
    requires n <= |rows| && Rows(rows) && KeepsLength(runCell)
    requires forall e, b :: runCell(e, b, dt).1.Err?
    ensures Process(engines, rows, n, dt, runCell, ignore).rows == rows
    ensures Process(engines, rows, n, dt, runCell, ignore).error.Some? <==> exists k :: 0 <= k < n && k !in ignore
  {
    if n > 0 {
      ProcessAllThrow(engines, rows, n - 1, dt, runCell, ignore);
    }
  }

  /** From a row with an unknown ID on, no row is touched. */
  lemma {:induction false} ProcessStops<E(!new)>(engines: map<int, E>, rows: seq<seq<Val>>, n: nat, dt: real,
                                                 runCell: (E, seq<real>, real) -> (E, Result<seq<real>>), ignore: set<nat>, k: nat, i: nat)
    requires n <= |rows| && Rows(rows) && KeepsLength(runCell)
    requires k <= i < |rows| && k !in ignore && Id(rows[k]) !in engines
    ensures Process(engines, rows, n, dt, runCell, ignore).rows[i] == rows[i]
  {
    if n <= k {
      ProcessLater(engines, rows, n, dt, runCell, ignore, i);
    } else if n - 1 == k {
      ProcessLater(engines, rows, n - 1, dt, runCell, ignore, i);
    } else {
      ProcessStops(engines, rows, n - 1, dt, runCell, ignore, k, i);
      ProcessFailsAtUnknown(engines, rows, n - 1, dt, runCell, ignore, k);
    }
  }

  /** With engines that hand the buffer back unchanged, every row is left as it was. */
  lemma {:induction false} ProcessIdentity<E(!new)>(engines: map<int, E>, rows: seq<seq<Val>>, n: nat, dt: real,
                                                    runCell: (E, seq<real>, real) -> (E, Result<seq<real>>), ignore: set<nat>)
    requires n <= |rows| && Rows(rows) && KeepsLength(runCell)
    requires forall e, b, t :: runCell(e, b, t).1 == Ok(b)
    ensures Process(engines, rows, n, dt, runCell, ignore).rows == rows
  {
    if n > 0 {
      ProcessIdentity(engines, rows, n - 1, dt, runCell, ignore);
      var o := Process(engines, rows, n - 1, dt, runCell, ignore);
      var row := rows[n - 1];
      if o.error.None? && n - 1 !in ignore && Id(row) in o.engines {
        assert runCell(o.engines[Id(row)], Compact(row), dt).1 == Ok(Compact(row));
        ScatterCompact(row);
        assert o.rows[n - 1 := row] == rows;
      }
    }
  }

  /** The engine map the constructor builds: `_engineStorage[id] = make_unique<PhreeqcEngine>(matrix, id)`. */
  function EngineMap<E>(ids: seq<int>, make: int -> E): (m: map<int, E>)
    ensures forall id :: id in m <==> id in ids
  {
    if ids == [] then map[] else EngineMap(ids[..|ids| - 1], make)[ids[|ids| - 1] := make(ids[|ids| - 1])]
  }

  /** Strictly ascending IDs, as `getIds` returns them. */
  predicate Ascending(ids: seq<int>)
  {
    forall i, j :: 0 <= i < j < |ids| ==> ids[i] < ids[j]
  }

  /** One engine per ID: numEngines() equals the number of IDs. */
  lemma {:induction false} EngineMapSize<E>(ids: seq<int>, make: int -> E)
    requires Ascending(ids)
    ensures |EngineMap(ids, make)| == |ids|
  {
    if ids != [] {
      var init := ids[..|ids| - 1];
      EngineMapSize(init, make);
      assert forall k :: 0 <= k < |init| ==> init[k] != ids[|ids| - 1] by {
        forall k | 0 <= k < |init|
          ensures init[k] != ids[|ids| - 1]
        {
          assert init[k] == ids[k];
        }
      }
    }
  }

  // ---------------------------------------------------------------- the runner

  class PhreeqcRunner<E(!new)> {
    var engines: map<int, E>
    var buffer: seq<real>
    /**
     * PhreeqcEngine::runCell of the engine in a given state: the engine's new
     * state and either the values written back or the exception thrown. The
     * solver is not modelled.
     */
    const runCell: (E, seq<real>, real) -> (E, Result<seq<real>>)

    /** numEngines(). */
    function NumEngines(): nat
      reads this
    {
      |engines|
    }

    /** PhreeqcRunner::PhreeqcRunner: an engine for each ID of the matrix, in ID order. */
    constructor(ids: seq<int>, make: int -> E, runCell: (E, seq<real>, real) -> (E, Result<seq<real>>))
      requires Ascending(ids)
      ensures engines == EngineMap(ids, make) && NumEngines() == |ids|
      ensures buffer == [] && this.runCell == runCell
    {
      var m: map<int, E> := map[];
      var i := 0;
      while i < |ids|
        invariant i <= |ids|
        invariant m == EngineMap(ids[..i], make)
      {
        assert ids[..i + 1][..i] == ids[..i];
        m := m[ids[i] := make(ids[i])];
        i := i + 1;
      }
      assert ids[..i] == ids;
      EngineMapSize(ids, make);
      engines := m;
      buffer := [];
      this.runCell := runCell;
    }

    /**
     * One row: clear the buffer, compact, run the cell's engine, scatter back;
     * out_of_range for an ID without an engine, or what runCell throws, and then
     * the row is not written back.
     */
    method RunRow(rows: array<seq<Val>>, i: nat, dt: real) returns (r: Result<()>)
      requires i < rows.Length && IdSlot(rows[i]) && KeepsLength(runCell)
      modifies this, rows
      ensures Outcome(engines, rows[..], if r.Ok? then None else Some(r.error))
        == StepRow(old(engines), old(rows[..]), i, old(rows[i]), dt, runCell)
    {
      var row := rows[i];
      var id := Trunc(row[0].v);
      buffer := [];
      buffer := CopyToBuffer(buffer, row);
      assert buffer == Compact(row) && id == Id(row);
      if id !in engines {
        return Err(OutOfRange);
      }
      var step := runCell(engines[id], buffer, dt);
      engines := engines[id := step.0];
      if step.1.Err? {
        return Err(step.1.error);
      }
      buffer := step.1.value;
      var written := CopyFromBuffer(buffer, row);
      rows[i] := written;
      r := Ok(());
    }

    /** PhreeqcRunner::run: every row in index order, until a row throws. */
    method Run(rows: array<seq<Val>>, dt: real) returns (r: Result<()>)
      requires Rows(rows[..]) && KeepsLength(runCell)
      modifies this, rows
      ensures var o := Process(old(engines), old(rows[..]), rows.Length, dt, runCell, {});
        rows[..] == o.rows && engines == o.engines && o.error == (if r.Ok? then None else Some(r.error))
    {
      r := RunSkipping(rows, dt, {});
    }

    /** PhreeqcRunner::run with `to_ignore`: the listed row indices are skipped without an ID lookup. */
    method RunIgnoring(rows: array<seq<Val>>, dt: real, toIgnore: seq<nat>) returns (r: Result<()>)
      requires Rows(rows[..]) && KeepsLength(runCell)
      modifies this, rows
      ensures var o := Process(old(engines), old(rows[..]), rows.Length, dt, runCell, set x | x in toIgnore);
        rows[..] == o.rows && engines == o.engines && o.error == (if r.Ok? then None else Some(r.error))
    {
      r := RunSkipping(rows, dt, set x | x in toIgnore);
    }

    /** The loop both overloads share: rows in index order, those in `ignore` skipped. */
    method RunSkipping(rows: array<seq<Val>>, dt: real, ignore: set<nat>) returns (r: Result<()>)
      requires Rows(rows[..]) && KeepsLength(runCell)
      modifies this, rows
      ensures var o := Process(old(engines), old(rows[..]), rows.Length, dt, runCell, ignore);
        rows[..] == o.rows && engines == o.engines && o.error == (if r.Ok? then None else Some(r.error))
    {
      ghost var rows0 := rows[..];
      ghost var engines0 := engines;
      var i := 0;
      while i < rows.Length
        invariant i <= rows.Length
        invariant Outcome(engines, rows[..], None) == Process(engines0, rows0, i, dt, runCell, ignore)
      {
        ProcessNext(engines0, rows0, i, dt, runCell, ignore, engines, rows[..]);
        if i !in ignore {
          var step := RunRow(rows, i, dt);
          if step.Err? {
            ProcessFailedStays(engines0, rows0, i + 1, rows.Length, dt, runCell, ignore);
            return step;
          }
        }
        i := i + 1;
      }
      r := Ok(());
    }
  }

  /** One more row: skipped if ignored, otherwise one StepRow on the row as it was given. */
  lemma ProcessNext<E(!new)>(engines: map<int, E>, rows: seq<seq<Val>>, i: nat, dt: real,
                             runCell: (E, seq<real>, real) -> (E, Result<seq<real>>), ignore: set<nat>,
                             now: map<int, E>, current: seq<seq<Val>>)
    requires i < |rows| && Rows(rows) && KeepsLength(runCell)
    requires Outcome(now, current, None) == Process(engines, rows, i, dt, runCell, ignore)
    ensures |current| == |rows| && current[i] == rows[i] && IdSlot(current[i])
    ensures i in ignore ==> Process(engines, rows, i + 1, dt, runCell, ignore) == Outcome(now, current, None)
    ensures i !in ignore ==> Process(engines, rows, i + 1, dt, runCell, ignore) == StepRow(now, current, i, current[i], dt, runCell)
  {
    ProcessLater(engines, rows, i, dt, runCell, ignore, i);
  }

  /** Once failed, processing more rows changes nothing. */
  lemma {:induction false} ProcessFailedStays<E(!new)>(engines: map<int, E>, rows: seq<seq<Val>>, n: nat, m: nat, dt: real,
                                                       runCell: (E, seq<real>, real) -> (E, Result<seq<real>>), ignore: set<nat>)
    requires n <= m <= |rows| && Rows(rows) && KeepsLength(runCell)
    requires Process(engines, rows, n, dt, runCell, ignore).error.Some?
    ensures Process(engines, rows, m, dt, runCell, ignore) == Process(engines, rows, n, dt, runCell, ignore)
    decreases m - n
  {
    if m > n {
      ProcessFailedStays(engines, rows, n, m - 1, dt, runCell, ignore);
    }
  }
}
