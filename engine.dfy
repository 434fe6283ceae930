// PhreeqcEngine: one PHREEQC instance that holds a single cell (cell 1) and
// moves that cell's essential values between a flat vector of doubles and
// the reactant wrappers. The solution block comes first, then, for each
// reactant the cell has, its block in the fixed order exchange, kinetics,
// equilibrium, surface; an absent reactant takes no room.
//
// Each wrapper appears here as the slots it reports: `get` copies them out,
// `set` stores a block of the same size. What a wrapper does with its slots
// is modelled in the wrapper's own module. The PHREEQC solver is a parameter.

module Engine {
  import opened Values
  import opened RawKeyword

  /** The wrappers of cell 1: the solution always, the other reactants when the cell has them. */
  datatype CellData = CellData(
    solution: seq<real>,
    exchange: Option<seq<real>>,
    kinetics: Option<seq<real>>,
    equilibrium: Option<seq<real>>,
    surface: Option<seq<real>>)

  /** size() of an optional wrapper; an absent one takes no room. */
  function Size(o: Option<seq<real>>): nat
  {
    if o.Some? then |o.value| else 0
  }

  function Flat(o: Option<seq<real>>): (r: seq<real>)
    ensures |r| == Size(o)
  {
    if o.Some? then o.value else []
  }

  /** Length of the cell's part of the vector. */
  function Total(c: CellData): nat
  {
    |c.solution| + Size(c.exchange) + Size(c.kinetics) + Size(c.equilibrium) + Size(c.surface)
  }

  /** Offsets of the blocks after the solution, each the sum of the sizes before it. */
  function ExchangeAt(c: CellData): nat { |c.solution| }
  function KineticsAt(c: CellData): nat { ExchangeAt(c) + Size(c.exchange) }
  function EquilibriumAt(c: CellData): nat { KineticsAt(c) + Size(c.kinetics) }
  function SurfaceAt(c: CellData): nat { EquilibriumAt(c) + Size(c.equilibrium) }

  /** get_essential_values: the blocks, one after the other. */
  function Gather(c: CellData): (r: seq<real>)
    ensures |r| == Total(c)
  {
    c.solution + Flat(c.exchange) + Flat(c.kinetics) + Flat(c.equilibrium) + Flat(c.surface)
  }

  /** A present wrapper's `set` on `data.subspan(offset, size())`. */
  function Take(o: Option<seq<real>>, d: seq<real>, offset: nat): (r: Option<seq<real>>)
    requires offset + Size(o) <= |d|
    ensures r.Some? <==> o.Some?
    ensures Size(r) == Size(o)
  {
    if o.Some? then Some(d[offset..offset + |o.value|]) else None
  }

  /** set_essential_values: every wrapper takes the block at its running offset. */
  function Spread(c: CellData, d: seq<real>): (r: CellData)
    requires Total(c) <= |d|
    ensures SameShape(r, c)
  {
    CellData(
      d[..|c.solution|],
      Take(c.exchange, d, ExchangeAt(c)),
      Take(c.kinetics, d, KineticsAt(c)),
      Take(c.equilibrium, d, EquilibriumAt(c)),
      Take(c.surface, d, SurfaceAt(c)))
  }

  /** The same reactants with the same sizes. */
  predicate SameShape(a: CellData, b: CellData)
  {
    && |a.solution| == |b.solution|
    && a.exchange.Some? == b.exchange.Some? && Size(a.exchange) == Size(b.exchange)
    && a.kinetics.Some? == b.kinetics.Some? && Size(a.kinetics) == Size(b.kinetics)
    && a.equilibrium.Some? == b.equilibrium.Some? && Size(a.equilibrium) == Size(b.equilibrium)
    && a.surface.Some? == b.surface.Some? && Size(a.surface) == Size(b.surface)
  }

  lemma SameShapeTotal(a: CellData, b: CellData)
    requires SameShape(a, b)
    ensures Total(a) == Total(b)
    ensures ExchangeAt(a) == ExchangeAt(b) && KineticsAt(a) == KineticsAt(b)
    ensures EquilibriumAt(a) == EquilibriumAt(b) && SurfaceAt(a) == SurfaceAt(b)
  {
  }

  /** Setting a vector and getting it back gives the cell's part of the vector. */
  lemma SpreadGather(c: CellData, d: seq<real>)
    requires Total(c) <= |d|
    ensures Gather(Spread(c, d)) == d[..Total(c)]
  {
    var r := Spread(c, d);
    var o1, o2, o3, o4, o5 := ExchangeAt(c), KineticsAt(c), EquilibriumAt(c), SurfaceAt(c), Total(c);
    assert Flat(r.exchange) == d[o1..o2];
    assert Flat(r.kinetics) == d[o2..o3];
    assert Flat(r.equilibrium) == d[o3..o4];
    assert Flat(r.surface) == d[o4..o5];
    assert d[..o2] == d[..o1] + d[o1..o2];
    assert d[..o3] == d[..o2] + d[o2..o3];
    assert d[..o4] == d[..o3] + d[o3..o4];
    assert d[..o5] == d[..o4] + d[o4..o5];
  }

  /** Getting the values and setting them back leaves every wrapper as it was. */
  lemma GatherSpread(c: CellData)
    ensures Spread(c, Gather(c)) == c
  {
    var g := Gather(c);
    var o1, o2, o3, o4 := ExchangeAt(c), KineticsAt(c), EquilibriumAt(c), SurfaceAt(c);
    assert g[..o1] == c.solution;
    assert g[o1..o2] == Flat(c.exchange);
    assert g[o2..o3] == Flat(c.kinetics);
    assert g[o3..o4] == Flat(c.equilibrium);
    assert g[o4..Total(c)] == Flat(c.surface);
  }

  lemma TakeTrim(o: Option<seq<real>>, d: seq<real>, offset: nat, n: nat)
    requires offset + Size(o) <= n <= |d|
    ensures Take(o, d, offset) == Take(o, d[..n], offset)
  {
    if o.Some? {
      assert d[offset..offset + |o.value|] == d[..n][offset..offset + |o.value|];
    }
  }

  /** The wrappers read only the cell's part of the vector. */
  lemma SpreadTrim(c: CellData, d: seq<real>)
    requires Total(c) <= |d|
    ensures Spread(c, d) == Spread(c, d[..Total(c)])
  {
    var e := d[..Total(c)];
    assert d[..|c.solution|] == e[..|c.solution|];
    TakeTrim(c.exchange, d, ExchangeAt(c), Total(c));
    TakeTrim(c.kinetics, d, KineticsAt(c), Total(c));
    TakeTrim(c.equilibrium, d, EquilibriumAt(c), Total(c));
    TakeTrim(c.surface, d, SurfaceAt(c), Total(c));
  }

  /** Values past the cell's part of the vector do not reach the wrappers. */
  lemma SpreadPrefix(c: CellData, d: seq<real>, e: seq<real>)
    requires Total(c) <= |d| && Total(c) <= |e|
    requires d[..Total(c)] == e[..Total(c)]
    ensures Spread(c, d) == Spread(c, e)
  {
    SpreadTrim(c, d);
    SpreadTrim(c, e);
  }

  /** The solver keeps which reactants the cell has and how many values each wrapper reports. */
  ghost predicate KeepsShape(solver: (CellData, real) -> (CellData, nat))
  {
    forall c, dt :: SameShape(solver(c, dt).0, c)
  }

  /** A length-preserving map on the solution's values. */
  ghost predicate KeepsLength(f: seq<real> -> seq<real>)
  {
    forall s :: |f(s)| == |s|
  }

  /** The POET set: the spread values, with the solution passed through initial_solutions_poet. */
  function PoetSpread(c: CellData, d: seq<real>, initialSolutions: seq<real> -> seq<real>): CellData
    requires Total(c) <= |d|
  {
    var r := Spread(c, d);
    r.(solution := initialSolutions(r.solution))
  }

  /** The wrappers after runCell's set and run. */
  function Stepped(c: CellData, d: seq<real>, timeStep: real, solver: (CellData, real) -> (CellData, nat)): CellData
    requires Total(c) <= |d|
  {
    solver(Spread(c, d), timeStep).0
  }

  /** The solver reported errors during runCell's run. */
  predicate Errors(c: CellData, d: seq<real>, timeStep: real, solver: (CellData, real) -> (CellData, nat))
    requires Total(c) <= |d|
  {
    solver(Spread(c, d), timeStep).1 > 0
  }

  /** With a solver that leaves the cell as it was set and reports no error, runCell hands the vector back unchanged. */
  lemma RunCellIdentity(c: CellData, d: seq<real>, timeStep: real, solver: (CellData, real) -> (CellData, nat))
    requires Total(c) <= |d|
    requires solver(Spread(c, d), timeStep).0 == Spread(c, d) && solver(Spread(c, d), timeStep).1 == 0
    ensures !Errors(c, d, timeStep, solver)
    ensures Image(d, 0, Gather(Stepped(c, d, timeStep, solver))) == d
  {
    var n := Total(c);
    assert Gather(Stepped(c, d, timeStep, solver)) == d[..n] by {
      SpreadGather(c, d);
    }
    assert d[..0] + d[..n] + d[n..] == d;
  }

  /** The same for the POET engine, whose span starts after the ID slot, when initial_solutions_poet also leaves the solution alone. */
  lemma RunCellPoetIdentity(c: CellData, d: seq<real>, timeStep: real, solver: (CellData, real) -> (CellData, nat), initialSolutions: seq<real> -> seq<real>)
    requires 1 + Total(c) <= |d|
    requires initialSolutions(Spread(c, d[1..]).solution) == Spread(c, d[1..]).solution
    requires solver(Spread(c, d[1..]), timeStep).0 == Spread(c, d[1..])
    ensures PoetSpread(c, d[1..], initialSolutions) == Spread(c, d[1..])
    ensures Image(d, 1, Gather(solver(PoetSpread(c, d[1..], initialSolutions), timeStep).0)) == d
  {
    SpreadGather(c, d[1..]);
    assert d[1..][..Total(c)] == d[1..1 + Total(c)];
  }

  /** Writes `values` into `data` from `at` on and leaves the other slots alone. */
  method Put(data: array<real>, at: nat, values: seq<real>)
    requires at + |values| <= data.Length
    modifies data
    ensures data[..] == Image(old(data[..]), at, values)
  {
    ghost var orig := data[..];
    for i := 0 to |values|
      invariant forall j :: 0 <= j < data.Length ==> data[j] == if at <= j < at + i then values[j - at] else orig[j]
    {
      data[at + i] := values[i];
    }
    assert data[..] == orig[..at] + values + orig[at + |values|..];
  }

  /** `orig` with `written` over its slots from `start` on. */
  function Image(orig: seq<real>, start: nat, written: seq<real>): (r: seq<real>)
    requires start + |written| <= |orig|
    ensures |r| == |orig|
  {
    orig[..start] + written + orig[start + |written|..]
  }

  /** Writing the next block right after what is already written extends the written part. */
  lemma Splice(orig: seq<real>, start: nat, w: seq<real>, v: seq<real>)
    requires start + |w| + |v| <= |orig|
    ensures Image(Image(orig, start, w), start + |w|, v) == Image(orig, start, w + v)
  {
    var cur := Image(orig, start, w);
    assert cur[..start + |w|] == orig[..start] + w;
    assert cur[start + |w| + |v|..] == orig[start + |w| + |v|..];
  }

  /** One `if (has_x)` block of get_essential_values: a present wrapper's values follow what is already written. */
  method GetBlock(data: array<real>, start: nat, offset: nat, has: bool, o: Option<seq<real>>, ghost orig: seq<real>, ghost written: seq<real>)
      returns (next: nat, ghost now: seq<real>)
    requires has == o.Some? && offset == |written|
    requires |orig| == data.Length && start + |written| + Size(o) <= data.Length
    requires data[..] == Image(orig, start, written)
    modifies data
    ensures now == written + Flat(o) && next == |now|
    ensures data[..] == Image(orig, start, now)
  {
    next, now := offset, written;
    if has {
      Put(data, start + offset, o.value);
      Splice(orig, start, written, o.value);
      next, now := offset + |o.value|, written + o.value;
    }
  }

  /** One `if (has_x)` block of set_essential_values: a present wrapper takes `data.subspan(offset, size())` of the span from `start`. */
  method SetBlock(data: array<real>, start: nat, offset: nat, has: bool, o: Option<seq<real>>) returns (r: Option<seq<real>>, next: nat)
    requires has == o.Some? && start + offset + Size(o) <= data.Length
    ensures r == Take(o, data[start..], offset) && next == offset + Size(o)
  {
    r, next := None, offset;
    if has {
      var size := |o.value|;
      assert data[start + offset..start + offset + size] == data[start..][offset..offset + size];
      r, next := Some(data[start + offset..start + offset + size]), offset + size;
    }
  }

  /** The in-memory PHREEQC instance and its wrappers. */
  class Impl {
    /** The script run after the database was loaded. */
    var script: string
    var solution: seq<real>
    var exchange: Option<seq<real>>
    var kinetics: Option<seq<real>>
    var equilibrium: Option<seq<real>>
    var surface: Option<seq<real>>
    var hasExchange: bool
    var hasKinetics: bool
    var hasEquilibrium: bool
    var hasSurface: bool

    /** A has_ flag is set exactly when its wrapper exists. */
    predicate Valid()
      reads this
    {
      && hasExchange == exchange.Some?
      && hasKinetics == kinetics.Some?
      && hasEquilibrium == equilibrium.Some?
      && hasSurface == surface.Some?
    }

    function State(): CellData
      reads this
    {
      CellData(solution, exchange, kinetics, equilibrium, surface)
    }

    /** init_wrappers: the solution wrapper, and a wrapper for every reactant cell 1 has after `script` ran. */
    constructor(script: string, cell: CellData)
      ensures Valid()
      ensures this.script == script && State() == cell
    {
      this.script := script;
      solution := cell.solution;
      exchange, hasExchange := cell.exchange, cell.exchange.Some?;
      kinetics, hasKinetics := cell.kinetics, cell.kinetics.Some?;
      equilibrium, hasEquilibrium := cell.equilibrium, cell.equilibrium.Some?;
      surface, hasSurface := cell.surface, cell.surface.Some?;
    }

    /** get_essential_values on the span `data[start..]`: the wrappers' blocks at their running offsets. */
    method GetEssentialValues(data: array<real>, start: nat)
      requires Valid() && start + Total(State()) <= data.Length
      modifies data
      ensures data[..] == Image(old(data[..]), start, Gather(State()))
    {
      ghost var orig, c := data[..], State();
      Put(data, start, solution);
      var offset := |solution|;
      ghost var written := solution;
      offset, written := GetBlock(data, start, offset, hasExchange, exchange, orig, written);
      offset, written := GetBlock(data, start, offset, hasKinetics, kinetics, orig, written);
      offset, written := GetBlock(data, start, offset, hasEquilibrium, equilibrium, orig, written);
      offset, written := GetBlock(data, start, offset, hasSurface, surface, orig, written);
      assert written == Gather(c);
    }

    /** set_essential_values on the span `data[start..]`: each wrapper takes the block at its running offset. */
    method SetEssentialValues(data: array<real>, start: nat)
      requires Valid() && start + Total(State()) <= data.Length
      modifies this
      ensures Valid() && script == old(script) && State() == Spread(old(State()), data[start..])
    {
      var r := SetSpan(data, start, State(), hasExchange, hasKinetics, hasEquilibrium, hasSurface);
      solution, exchange, kinetics, equilibrium, surface := r.solution, r.exchange, r.kinetics, r.equilibrium, r.surface;
    }

    /** The POET engine's set_essential_values: as above, with the solution recomputed from its totals (initial_solutions_poet) right after it is set. */
    method SetEssentialValuesPoet(data: array<real>, start: nat, initialSolutions: seq<real> -> seq<real>)
      requires Valid() && start + Total(State()) <= data.Length
      modifies this
      ensures Valid() && script == old(script)
      ensures State() == PoetSpread(old(State()), data[start..], initialSolutions)
    {
      var r := SetSpan(data, start, State(), hasExchange, hasKinetics, hasEquilibrium, hasSurface);
      solution, exchange, kinetics, equilibrium, surface := initialSolutions(r.solution), r.exchange, r.kinetics, r.equilibrium, r.surface;
    }

    /** Impl::run: RUN_CELLS for cell 1 over the time step; any line in the solver's error string is a runtime_error. */
    method Run(timeStep: real, solver: (CellData, real) -> (CellData, nat)) returns (r: Result<()>)
      requires Valid() && KeepsShape(solver)
      modifies this
      ensures Valid() && script == old(script)
      ensures State() == solver(old(State()), timeStep).0
      ensures r.Err? <==> solver(old(State()), timeStep).1 > 0
      ensures r.Err? ==> r.error == RuntimeError
    {
      var (after, errors) := solver(State(), timeStep);
      assert SameShape(after, State());
      solution, exchange, kinetics, equilibrium, surface := after.solution, after.exchange, after.kinetics, after.equilibrium, after.surface;
      if errors > 0 {
        return Err(RuntimeError);
      }
      return Ok(());
    }

    /** The POET engine's run: the same RUN_CELLS, with no look at the error string. */
    method RunPoet(timeStep: real, solver: (CellData, real) -> (CellData, nat))
      requires Valid() && KeepsShape(solver)
      modifies this
      ensures Valid() && script == old(script)
      ensures State() == solver(old(State()), timeStep).0
    {
      var after := solver(State(), timeStep).0;
      assert SameShape(after, State());
      solution, exchange, kinetics, equilibrium, surface := after.solution, after.exchange, after.kinetics, after.equilibrium, after.surface;
    }

    /**
     * runCell: a negative time step is refused before anything is touched;
     * otherwise the whole vector is set, the solver runs, and unless it
     * reported errors the new values are got back into the vector.
     */
    method RunCell(cellValues: array<real>, timeStep: real, solver: (CellData, real) -> (CellData, nat)) returns (r: Result<()>)
      requires Valid() && Total(State()) <= cellValues.Length && KeepsShape(solver)
      modifies this, cellValues
      ensures Valid() && script == old(script)
      ensures timeStep < 0.0 ==> r == Err(InvalidArgument) && State() == old(State()) && cellValues[..] == old(cellValues[..])
      ensures timeStep >= 0.0 ==> State() == Stepped(old(State()), old(cellValues[..]), timeStep, solver)
      ensures timeStep >= 0.0 && Errors(old(State()), old(cellValues[..]), timeStep, solver) ==>
                r == Err(RuntimeError) && cellValues[..] == old(cellValues[..])
      ensures timeStep >= 0.0 && !Errors(old(State()), old(cellValues[..]), timeStep, solver) ==>
                r.Ok? && cellValues[..] == Image(old(cellValues[..]), 0, Gather(State()))
    {
      if timeStep < 0.0 {
        return Err(InvalidArgument);
      }
      SetEssentialValues(cellValues, 0);
      assert cellValues[0..] == cellValues[..];
      r := Run(timeStep, solver);
      if r.Err? {
        return;
      }
      GetEssentialValues(cellValues, 0);
    }

    /** The POET engine's runCell: the span starts after the ID slot, and neither the time step nor the solver's errors are checked. */
    method RunCellPoet(cellValues: array<real>, timeStep: real, solver: (CellData, real) -> (CellData, nat), initialSolutions: seq<real> -> seq<real>)
      requires Valid() && 1 + Total(State()) <= cellValues.Length
      requires KeepsShape(solver) && KeepsLength(initialSolutions)
      modifies this, cellValues
      ensures Valid() && script == old(script)
      ensures State() == solver(PoetSpread(old(State()), old(cellValues[1..]), initialSolutions), timeStep).0
      ensures cellValues[..] == Image(old(cellValues[..]), 1, Gather(State()))
    {
      SetEssentialValuesPoet(cellValues, 1, initialSolutions);
      RunPoet(timeStep, solver);
      GetEssentialValues(cellValues, 1);
    }
  }

  /** The body of set_essential_values: the solution takes the head of the span, then every present wrapper its block. */
  method SetSpan(data: array<real>, start: nat, c: CellData, hasExchange: bool, hasKinetics: bool, hasEquilibrium: bool, hasSurface: bool)
      returns (r: CellData)
    requires hasExchange == c.exchange.Some? && hasKinetics == c.kinetics.Some?
    requires hasEquilibrium == c.equilibrium.Some? && hasSurface == c.surface.Some?
    requires start + Total(c) <= data.Length
    ensures r == Spread(c, data[start..])
  {
    var n := |c.solution|;
    assert data[start..start + n] == data[start..][..n];
    var offset := n;
    var ex, kin, equ, surf;
    ex, offset := SetBlock(data, start, offset, hasExchange, c.exchange);
    kin, offset := SetBlock(data, start, offset, hasKinetics, c.kinetics);
    equ, offset := SetBlock(data, start, offset, hasEquilibrium, c.equilibrium);
    surf, offset := SetBlock(data, start, offset, hasSurface, c.surface);
    r := CellData(data[start..start + n], ex, kin, equ, surf);
  }

  /**
   * The checking constructor: an ID the matrix does not hold is an
   * invalid_argument before any solver call. Otherwise the cell's dump,
   * with every RAW keyword renumbered to 1, is run, and the wrappers are
   * built on what cell 1 then holds (`load`, the solver's result).
   */
  method NewEngine(ids: set<int>, cellId: int, dump: int -> string, load: string -> CellData) returns (r: Result<Impl>)
    ensures r.Err? <==> cellId !in ids
    ensures r.Err? ==> r.error == InvalidArgument
    ensures r.Ok? ==> fresh(r.value) && r.value.Valid()
    ensures r.Ok? ==> r.value.script == ReplaceRaw(dump(cellId)) && r.value.State() == load(r.value.script)
  {
    if cellId !in ids {
      return Err(InvalidArgument);
    }
    var script := ReplaceRaw(dump(cellId));
    var engine := new Impl(script, load(script));
    return Ok(engine);
  }
}
