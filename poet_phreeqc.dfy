// IPhreeqcPOET: POET's legacy wrapper around an IPhreeqc instance. It reads
// every initial solution's essential names and values into raw_initials,
// resolves the SOLUTION-uses-module mappings into extra raw entries, builds
// the NaN-padded initial matrix, dumps the raw cells, and keeps a queue of
// cells 1..n_cells that callers fill, run with RUN_CELLS and read back.
//
// PHREEQC itself is a parameter: an abstract instance P and a record of the
// operations the wrapper calls on it (the reaction maps, a solution's values
// in a given order, the setter, RunString, the dump string, the species list
// and the solution mappings).

module IPhreeqcPoet {
  import opened Values
  import Order
  import Text
  import opened Species
  import opened PoetRaw

  // ---------------------------------------------------------------- the reaction maps

  /** An exchange, kinetics, equilibrium or surface reactant: its essential names and values. */
  datatype Reactant = Reactant(names: seq<string>, values: seq<real>)

  /** What PHREEQC stores under one cell number; an absent reactant is None (Get_* returns NULL). */
  datatype PoetCell = PoetCell(solution: Option<seq<string>>, exchange: Option<Reactant>, kinetics: Option<Reactant>,
                               equilibrium: Option<Reactant>, surface: Option<Reactant>)

  /** IPhreeqc::SolutionMapping: a SOLUTION whose cell `moduleN` takes a module by keyword. */
  datatype SolutionMapping = SolutionMapping(solN: int, moduleN: int, moduleName: string)

  /** The solver operations the wrapper calls. */
  datatype Solver<!P> = Solver(
    cells: P -> map<int, PoetCell>,
    solutionValues: (P, int, seq<string>) -> seq<real>,
    setValues: (P, int, seq<string>, seq<real>) -> P,
    loadDatabase: (P, string) -> P,
    runString: (P, string) -> P,
    dumpString: P -> string,
    species: P -> seq<string>,
    solutionMapping: P -> seq<SolutionMapping>,
    formatTime: real -> string)

  function Names(r: Option<Reactant>): seq<string>
  {
    if r.Some? then r.value.names else []
  }

  function Block(r: Option<Reactant>): seq<real>
  {
    if r.Some? then r.value.values else []
  }

  /** dump_essential_names: each present reactant's names in its own category; absent ones stay empty. */
  function EssentialNames(cell: PoetCell): Categories
  {
    [if cell.solution.Some? then cell.solution.value else [],
     Names(cell.exchange), Names(cell.kinetics), Names(cell.equilibrium), Names(cell.surface)]
  }

  /** The blocks get_essential_values appends, given the solution's values in the requested order. */
  function Blocks(cell: PoetCell, sol: seq<real>): seq<seq<real>>
  {
    [if cell.solution.Some? then sol else [],
     Block(cell.exchange), Block(cell.kinetics), Block(cell.equilibrium), Block(cell.surface)]
  }

  /** get_essential_values: the present categories' values one after the other. */
  function EssentialValues(cell: PoetCell, sol: seq<real>): seq<real>
  {
    Concat(Blocks(cell, sol))
  }

  predicate ReactantFits(r: Option<Reactant>)
  {
    r.Some? ==> |r.value.values| == |r.value.names|
  }

  /** Each present reactant reports one value per name. */
  predicate Fits(cell: PoetCell, sol: seq<real>)
  {
    (cell.solution.Some? ==> |sol| == |cell.solution.value|)
    && ReactantFits(cell.exchange) && ReactantFits(cell.kinetics)
    && ReactantFits(cell.equilibrium) && ReactantFits(cell.surface)
  }

  lemma BlocksLengths(cell: PoetCell, sol: seq<real>)
    requires Fits(cell, sol)
    ensures Lengths(Blocks(cell, sol)) == Lengths(EssentialNames(cell))
  {
    SameLengths(Blocks(cell, sol), EssentialNames(cell));
  }

  /**
   * The values line up with the names: there is one value per name, and
   * category c's values sit at the names' offset of c.
   */
  lemma EssentialLayout(cell: PoetCell, sol: seq<real>, c: nat)
    requires Fits(cell, sol) && c < 5
    ensures |EssentialValues(cell, sol)| == Sum(Lengths(EssentialNames(cell)))
    ensures Offset(EssentialNames(cell), c) + |EssentialNames(cell)[c]| <= |EssentialValues(cell, sol)|
    ensures EssentialValues(cell, sol)[Offset(EssentialNames(cell), c)..Offset(EssentialNames(cell), c) + |EssentialNames(cell)[c]|]
         == Blocks(cell, sol)[c]
  {
    var b := Blocks(cell, sol);
    var e := EssentialNames(cell);
    BlocksLengths(cell, sol);
    ConcatLength(b);
    LengthsPrefix(b, c);
    LengthsPrefix(e, c);
    ConcatBlock(b, c);
  }

  /** A cell's names and values read as one raw entry are consistent. */
  lemma EssentialConsistent(cell: PoetCell, sol: seq<real>)
    requires Fits(cell, sol)
    ensures Consistent(Raw(EssentialNames(cell), EssentialValues(cell, sol)))
  {
    BlocksLengths(cell, sol);
    ConcatLength(Blocks(cell, sol));
  }

  /** get_essential_values(n, order): nothing when PHREEQC holds no reactant under n. */
  function CellValues<P>(s: Solver<P>, p: P, n: int, order: seq<string>): seq<real>
  {
    if n in s.cells(p) then EssentialValues(s.cells(p)[n], s.solutionValues(p, n, order)) else []
  }

  /** The solution's own names as order. */
  function OwnValues<P>(s: Solver<P>, p: P, n: int): seq<real>
    requires n in s.cells(p)
  {
    s.solutionValues(p, n, EssentialNames(s.cells(p)[n])[PoetSol])
  }

  /** Every cell's reactants report one value per name, the solution in its own order. */
  predicate DumpsFit<P>(s: Solver<P>, p: P)
  {
    forall n :: n in s.cells(p) ==> Fits(s.cells(p)[n], OwnValues(s, p, n))
  }

  // ---------------------------------------------------------------- parseInit

  /** A solution read into a raw entry: its names and its values in the order of its own names. */
  function InitRaw<P>(s: Solver<P>, p: P, id: int): Raw
    requires id in s.cells(p)
  {
    Raw(EssentialNames(s.cells(p)[id]), CellValues(s, p, id, EssentialNames(s.cells(p)[id])[PoetSol]))
  }

  predicate IsSolution(cells: map<int, PoetCell>, id: int)
  {
    id in cells && cells[id].solution.Some?
  }

  /** The IDs of Get_Rxn_solution_map. */
  function SolutionIds(cells: map<int, PoetCell>): set<int>
  {
    set id | id in cells && cells[id].solution.Some?
  }

  /** The entries parseInit reads: one per solution with a non-negative ID (a negative one is internal). */
  function InitValues<P>(s: Solver<P>, p: P): map<int, Raw>
  {
    map id | id in s.cells(p) && s.cells(p)[id].solution.Some? && id >= 0 :: InitRaw(s, p, id)
  }

  lemma InitRawConsistent<P>(s: Solver<P>, p: P, id: int)
    requires DumpsFit(s, p) && id in s.cells(p)
    ensures Consistent(InitRaw(s, p, id))
  {
    EssentialConsistent(s.cells(p)[id], OwnValues(s, p, id));
  }

  /** Under fitting dumps every entry read is consistent. */
  lemma InitValuesConsistent<P>(s: Solver<P>, p: P)
    requires DumpsFit(s, p)
    ensures AllConsistent(InitValues(s, p))
  {
    forall id | id in InitValues(s, p) ensures Consistent(InitValues(s, p)[id]) {
      InitRawConsistent(s, p, id);
    }
  }

  /** The entries read from the first k solution IDs. */
  function InitUpTo<P>(s: Solver<P>, p: P, ids: seq<int>, k: nat): map<int, Raw>
    requires k <= |ids| && forall i :: 0 <= i < |ids| ==> ids[i] in s.cells(p)
  {
    map id | id in ids[..k] && id >= 0 :: InitRaw(s, p, id)
  }

  lemma InitUpToStep<P>(s: Solver<P>, p: P, ids: seq<int>, k: nat)
    requires k < |ids| && forall i :: 0 <= i < |ids| ==> ids[i] in s.cells(p)
    ensures InitUpTo(s, p, ids, k + 1) == if ids[k] >= 0 then InitUpTo(s, p, ids, k)[ids[k] := InitRaw(s, p, ids[k])]
                                          else InitUpTo(s, p, ids, k)
  {
    assert ids[..k + 1] == ids[..k] + [ids[k]];
  }

  lemma InitUpToAll<P>(s: Solver<P>, p: P, ids: seq<int>)
    requires forall i :: 0 <= i < |ids| ==> ids[i] in s.cells(p)
    requires forall id :: id in ids <==> IsSolution(s.cells(p), id)
    ensures InitUpTo(s, p, ids, |ids|) == InitValues(s, p)
  {
    assert ids[..|ids|] == ids;
  }

  /** A raw_initials extended by parseInit holds exactly the old IDs and the solutions with non-negative IDs. */
  lemma ParsedKeys<P>(s: Solver<P>, p: P, old_: map<int, Raw>, id: int)
    ensures id in old_ + InitValues(s, p) <==> id in old_ || (IsSolution(s.cells(p), id) && id >= 0)
    ensures IsSolution(s.cells(p), id) && id >= 0 ==> (old_ + InitValues(s, p))[id] == InitRaw(s, p, id)
  {
  }

  /** The loop of parseInit over Get_Rxn_solution_map in key order: raws[id] set for each non-negative ID. */
  method ReadSolutions<P>(s: Solver<P>, p: P, raws: map<int, Raw>) returns (r: map<int, Raw>)
    ensures r == raws + InitValues(s, p)
  {
    var cells := s.cells(p);
    var ids := Order.AscendingInts(SolutionIds(cells));
    forall i | 0 <= i < |ids| ensures ids[i] in cells {
      assert ids[i] in SolutionIds(cells);
    }
    r := raws;
    for k := 0 to |ids|
      invariant r == raws + InitUpTo(s, p, ids, k)
    {
      InitUpToStep(s, p, ids, k);
      if ids[k] >= 0 {
        OverrideUpdate(raws, InitUpTo(s, p, ids, k), ids[k], InitRaw(s, p, ids[k]));
        r := r[ids[k] := InitRaw(s, p, ids[k])];
      }
    }
    InitUpToAll(s, p, ids);
  }

  lemma OverrideUpdate<V>(a: map<int, V>, b: map<int, V>, x: int, v: V)
    ensures (a + b)[x := v] == a + b[x := v]
  {
  }

  lemma OverrideConsistent(a: map<int, Raw>, b: map<int, Raw>)
    requires AllConsistent(a) && AllConsistent(b)
    ensures AllConsistent(a + b)
  {
    forall id | id in a + b ensures Consistent((a + b)[id]) {
      if id in b { ConsistentAt(b, id); } else { ConsistentAt(a, id); }
    }
  }

  // ---------------------------------------------------------------- valuesFromModule

  /** The category a module keyword fills: exchange 1, kinetics 2, surface 4, anything else none (0). */
  function Dest(moduleName: string): (d: nat)
    ensures d == 0 || d == PoetExch || d == PoetKin || d == PoetSurf
  {
    if moduleName == "exchange" then PoetExch
    else if moduleName == "kinetics" then PoetKin
    else if moduleName == "surface" then PoetSurf
    else 0
  }

  function ModuleOf(cell: PoetCell, d: nat): Option<Reactant>
  {
    if d == PoetExch then cell.exchange
    else if d == PoetKin then cell.kinetics
    else if d == PoetSurf then cell.surface
    else None
  }

  /** The module the mapping names exists (the source dereferences its pointer unchecked). */
  predicate ModuleReady(cells: map<int, PoetCell>, moduleName: string, n: int)
  {
    Dest(moduleName) != 0 ==> n in cells && ModuleOf(cells[n], Dest(moduleName)).Some?
  }

  /** The reactant valuesFromModule reads (nothing for an unknown keyword). */
  function Module(cells: map<int, PoetCell>, moduleName: string, n: int): Reactant
    requires ModuleReady(cells, moduleName, n)
  {
    if Dest(moduleName) == 0 then Reactant([], []) else ModuleOf(cells[n], Dest(moduleName)).value
  }

  /** The names after valuesFromModule: the module's names in its category. */
  function ModuleNames(names: Categories, d: nat, r: Reactant): Categories
    requires d < 5
  {
    if d == 0 then names else names[d := r.names]
  }

  /** The values after valuesFromModule: the module's values inserted at offset. */
  function Inserted(values: seq<real>, offset: nat, ins: seq<real>): (r: seq<real>)
    requires offset <= |values|
    ensures |r| == |values| + |ins|
  {
    values[..offset] + ins + values[offset..]
  }

  /**
   * The insertion puts the module's values exactly where the category's
   * names start, and leaves the values before and after it in order.
   */
  lemma InsertedLayout(values: seq<real>, offset: nat, ins: seq<real>)
    requires offset <= |values|
    ensures Inserted(values, offset, ins)[..offset] == values[..offset]
    ensures Inserted(values, offset, ins)[offset..offset + |ins|] == ins
    ensures Inserted(values, offset, ins)[offset + |ins|..] == values[offset..]
  {
  }

  /** The module's values in at its names' offset. */
  method ValuesFromModule(cells: map<int, PoetCell>, moduleName: string, n: int, names: Categories, values: seq<real>)
    returns (names': Categories, values': seq<real>)
    requires ModuleReady(cells, moduleName, n)
    requires Offset(ModuleNames(names, Dest(moduleName), Module(cells, moduleName, n)), Dest(moduleName)) <= |values|
    ensures names' == ModuleNames(names, Dest(moduleName), Module(cells, moduleName, n))
    ensures values' == Inserted(values, Offset(names', Dest(moduleName)), Module(cells, moduleName, n).values)
  {
    var d := Dest(moduleName);
    var toInsert: seq<real> := [];
    names' := names;
    if d != 0 {
      var r := ModuleOf(cells[n], d).value;
      names' := names'[d := r.names];
      toInsert := r.values;
    }
    var offset := 0;
    for i := 0 to d
      invariant offset == Offset(names', i)
    {
      OffsetNext(names', i);
      offset := offset + |names'[i]|;
    }
    values' := values[..offset] + toInsert + values[offset..];
  }

  // ---------------------------------------------------------------- resolveSolutionUseKW

  /** Every mapping names a module its cell has. */
  predicate ModulesReady(cells: map<int, PoetCell>, ms: seq<SolutionMapping>)
  {
    forall i :: 0 <= i < |ms| ==> ModuleReady(cells, ms[i].moduleName, ms[i].moduleN)
  }

  /** Every module reactant reports one value per name. */
  predicate ModulesFit(cells: map<int, PoetCell>)
  {
    forall n :: n in cells ==>
      ReactantFits(cells[n].exchange) && ReactantFits(cells[n].kinetics) && ReactantFits(cells[n].surface)
  }

  /** The category names a mapped entry starts from: the SOLUTION's own names only. */
  function SolutionOnly(sol: seq<string>): Categories
  {
    [sol, [], [], [], []]
  }

  lemma SumTake(s: seq<nat>, k: nat)
    requires k < |s|
    ensures Sum(s[..k + 1]) == Sum(s[..k]) + s[k]
  {
    assert s[..k + 1] == s[..k] + [s[k]];
    SumAppend(s[..k], [s[k]]);
    assert [s[k]][1..] == [];
  }

  lemma SolutionOnlyOffset(sol: seq<string>, d: nat, r: Reactant)
    requires d == 0 || d == PoetExch || d == PoetKin || d == PoetSurf
    ensures Offset(ModuleNames(SolutionOnly(sol), d, r), d) == if d == 0 then 0 else |sol|
    ensures Sum(Lengths(ModuleNames(SolutionOnly(sol), d, r))) == |sol| + if d == 0 then 0 else |r.names|
  {
    var u := ModuleNames(SolutionOnly(sol), d, r);
    var l := Lengths(u);
    LengthsPrefix(u, d);
    assert l[..0] == [] && l[..5] == l;
    SumTake(l, 0);
    SumTake(l, 1);
    SumTake(l, 2);
    SumTake(l, 3);
    SumTake(l, 4);
  }

  /** The entry a new mapping creates: the SOLUTION's names and values with the module's inserted after them. */
  function MappedRaw(cells: map<int, PoetCell>, m: SolutionMapping, sol: Raw): (r: Raw)
    requires ModuleReady(cells, m.moduleName, m.moduleN) && Consistent(sol)
  {
    OffsetBound(sol.names, PoetSol);
    var d := Dest(m.moduleName);
    var mod := Module(cells, m.moduleName, m.moduleN);
    var start := SolutionOnly(sol.names[PoetSol]);
    var values := sol.values[..|sol.names[PoetSol]|];
    SolutionOnlyOffset(sol.names[PoetSol], d, mod);
    var names := ModuleNames(start, d, mod);
    Raw(names, Inserted(values, Offset(names, d), mod.values))
  }

  /** The new entry is the SOLUTION block followed by the module block, and it is consistent. */
  lemma MappedRawSpec(cells: map<int, PoetCell>, m: SolutionMapping, sol: Raw)
    requires ModuleReady(cells, m.moduleName, m.moduleN) && Consistent(sol) && ModulesFit(cells)
    ensures MappedRaw(cells, m, sol).names[PoetSol] == sol.names[PoetSol]
    ensures Dest(m.moduleName) != 0 ==>
      MappedRaw(cells, m, sol).names[Dest(m.moduleName)] == Module(cells, m.moduleName, m.moduleN).names
    ensures forall c :: 0 < c < 5 && c != Dest(m.moduleName) ==> MappedRaw(cells, m, sol).names[c] == []
    ensures |sol.names[PoetSol]| <= |sol.values|
    ensures MappedRaw(cells, m, sol).values
         == sol.values[..|sol.names[PoetSol]|] + Module(cells, m.moduleName, m.moduleN).values
    ensures Consistent(MappedRaw(cells, m, sol))
  {
    var d := Dest(m.moduleName);
    var mod := Module(cells, m.moduleName, m.moduleN);
    OffsetBound(sol.names, PoetSol);
    SolutionOnlyOffset(sol.names[PoetSol], d, mod);
    var values := sol.values[..|sol.names[PoetSol]|];
    var names := ModuleNames(SolutionOnly(sol.names[PoetSol]), d, mod);
    if d != 0 {
      assert ModuleOf(cells[m.moduleN], d).Some?;
      assert ReactantFits(ModuleOf(cells[m.moduleN], d));
      assert Offset(names, d) == |values|;
      assert Inserted(values, |values|, mod.values) == values + mod.values;
    } else {
      assert mod.values == [];
      assert Inserted(values, 0, []) == values;
    }
  }

  /** mapped_values[sol_n], default-inserting an empty entry when there is none. */
  function WithSolution(mapped: map<int, Raw>, solN: int): map<int, Raw>
  {
    if solN in mapped then mapped else mapped[solN := NoRaw]
  }

  lemma WithSolutionConsistent(mapped: map<int, Raw>, solN: int)
    requires AllConsistent(mapped)
    ensures AllConsistent(WithSolution(mapped, solN)) && solN in WithSolution(mapped, solN)
    ensures Consistent(WithSolution(mapped, solN)[solN])
  {
    assert Consistent(NoRaw);
  }

  /** One mapping: skipped when its cell is mapped, otherwise its entry is made from the SOLUTION's. */
  function ResolveStep(cells: map<int, PoetCell>, m: SolutionMapping, mapped: map<int, Raw>): (r: map<int, Raw>)
    requires ModuleReady(cells, m.moduleName, m.moduleN) && AllConsistent(mapped) && ModulesFit(cells)
    ensures AllConsistent(r)
  {
    if m.moduleN in mapped then mapped
    else
      var withSol := WithSolution(mapped, m.solN);
      WithSolutionConsistent(mapped, m.solN);
      MappedRawSpec(cells, m, withSol[m.solN]);
      withSol[m.moduleN := MappedRaw(cells, m, withSol[m.solN])]
  }

  /** resolveSolutionUseKW over the mappings, in order. */
  function Resolve(cells: map<int, PoetCell>, ms: seq<SolutionMapping>, mapped: map<int, Raw>): (r: map<int, Raw>)
    requires ModulesReady(cells, ms) && AllConsistent(mapped) && ModulesFit(cells)
    ensures AllConsistent(r)
    decreases |ms|
  {
    if ms == [] then mapped
    else
      var n := |ms| - 1;
      assert ModulesReady(cells, ms[..n]);
      ResolveStep(cells, ms[n], Resolve(cells, ms[..n], mapped))
  }

  lemma ResolveStepKeeps(cells: map<int, PoetCell>, m: SolutionMapping, mapped: map<int, Raw>, id: int)
    requires ModuleReady(cells, m.moduleName, m.moduleN) && AllConsistent(mapped) && ModulesFit(cells)
    requires id in mapped
    ensures id in ResolveStep(cells, m, mapped) && ResolveStep(cells, m, mapped)[id] == mapped[id]
  {
  }

  /** An entry already mapped is never replaced, by the skip and by the default insertion alike. */
  lemma {:induction false} ResolveKeeps(cells: map<int, PoetCell>, ms: seq<SolutionMapping>, mapped: map<int, Raw>, id: int)
    requires ModulesReady(cells, ms) && AllConsistent(mapped) && ModulesFit(cells)
    requires id in mapped
    ensures id in Resolve(cells, ms, mapped) && Resolve(cells, ms, mapped)[id] == mapped[id]
    decreases |ms|
  {
    if ms != [] {
      var n := |ms| - 1;
      assert ModulesReady(cells, ms[..n]);
      ResolveKeeps(cells, ms[..n], mapped, id);
      ResolveStepKeeps(cells, ms[n], Resolve(cells, ms[..n], mapped), id);
    }
  }

  /** Some mapping of ms names cell id as its module cell or its SOLUTION. */
  predicate Named(ms: seq<SolutionMapping>, id: int)
  {
    exists i :: 0 <= i < |ms| && (ms[i].moduleN == id || ms[i].solN == id)
  }

  predicate Module_(ms: seq<SolutionMapping>, id: int)
  {
    exists i :: 0 <= i < |ms| && ms[i].moduleN == id
  }

  lemma NamedSnoc(ms: seq<SolutionMapping>, id: int)
    requires ms != []
    ensures Named(ms, id) <==> Named(ms[..|ms| - 1], id) || ms[|ms| - 1].moduleN == id || ms[|ms| - 1].solN == id
    ensures Module_(ms, id) <==> Module_(ms[..|ms| - 1], id) || ms[|ms| - 1].moduleN == id
  {
    var n := |ms| - 1;
    if Named(ms, id) {
      var i :| 0 <= i < |ms| && (ms[i].moduleN == id || ms[i].solN == id);
      if i < n { assert ms[..n][i] == ms[i]; }
    }
    if Named(ms[..n], id) {
      var i :| 0 <= i < n && (ms[..n][i].moduleN == id || ms[..n][i].solN == id);
      assert ms[i] == ms[..n][i];
    }
    if Module_(ms, id) {
      var i :| 0 <= i < |ms| && ms[i].moduleN == id;
      if i < n { assert ms[..n][i] == ms[i]; }
    }
    if Module_(ms[..n], id) {
      var i :| 0 <= i < n && ms[..n][i].moduleN == id;
      assert ms[i] == ms[..n][i];
    }
  }

  /**
   * After resolving, every mapping's module cell has an entry, and the
   * entries are the old ones and those of cells some mapping names
   * (its module cell, or its SOLUTION through the default insertion).
   */
  lemma {:induction false} ResolveKeys(cells: map<int, PoetCell>, ms: seq<SolutionMapping>, mapped: map<int, Raw>, id: int)
    requires ModulesReady(cells, ms) && AllConsistent(mapped) && ModulesFit(cells)
    ensures Module_(ms, id) ==> id in Resolve(cells, ms, mapped)
    ensures id in Resolve(cells, ms, mapped) ==> id in mapped || Named(ms, id)
    decreases |ms|
  {
    if ms != [] {
      var n := |ms| - 1;
      assert ModulesReady(cells, ms[..n]);
      ResolveKeys(cells, ms[..n], mapped, id);
      NamedSnoc(ms, id);
      var prev := Resolve(cells, ms[..n], mapped);
      if id in prev {
        ResolveStepKeeps(cells, ms[n], prev, id);
      }
    }
  }

  /** A mapping whose cell is not mapped yet adds the entry its SOLUTION and module give. */
  lemma ResolveStepNew(cells: map<int, PoetCell>, m: SolutionMapping, mapped: map<int, Raw>)
    requires ModuleReady(cells, m.moduleName, m.moduleN) && AllConsistent(mapped) && ModulesFit(cells)
    requires m.moduleN !in mapped
    ensures Consistent(WithSolution(mapped, m.solN)[m.solN])
    ensures ResolveStep(cells, m, mapped)[m.moduleN] == MappedRaw(cells, m, WithSolution(mapped, m.solN)[m.solN])
  {
    WithSolutionConsistent(mapped, m.solN);
  }

  /** The loop of resolveSolutionUseKW, one mapping at a time. */
  method ResolveSolutionUseKW(cells: map<int, PoetCell>, ms: seq<SolutionMapping>, mapped: map<int, Raw>)
    returns (r: map<int, Raw>)
    requires ModulesReady(cells, ms) && AllConsistent(mapped) && ModulesFit(cells)
    ensures r == Resolve(cells, ms, mapped)
  {
    r := mapped;
    for i := 0 to |ms|
      invariant ModulesReady(cells, ms[..i])
      invariant r == Resolve(cells, ms[..i], mapped)
    {
      assert ms[..i + 1][..i] == ms[..i];
      r := ResolveOne(cells, ms[i], r);
    }
    assert ms[..|ms|] == ms;
  }

  /** The loop body of resolveSolutionUseKW for one mapping. */
  method ResolveOne(cells: map<int, PoetCell>, m: SolutionMapping, mapped: map<int, Raw>) returns (r: map<int, Raw>)
    requires ModuleReady(cells, m.moduleName, m.moduleN) && AllConsistent(mapped) && ModulesFit(cells)
    ensures r == ResolveStep(cells, m, mapped)
  {
    r := mapped;
    if m.moduleN !in r {
      if m.solN !in r {
        r := r[m.solN := NoRaw];
      }
      WithSolutionConsistent(mapped, m.solN);
      var entry := MappedEntry(cells, m, r[m.solN]);
      r := r[m.moduleN := entry];
    }
  }

  /** The new entry of one mapping: the SOLUTION's names and leading values, then valuesFromModule. */
  method MappedEntry(cells: map<int, PoetCell>, m: SolutionMapping, sol: Raw) returns (r: Raw)
    requires ModuleReady(cells, m.moduleName, m.moduleN) && Consistent(sol)
    ensures r == MappedRaw(cells, m, sol)
  {
    OffsetBound(sol.names, PoetSol);
    var values := sol.values[..|sol.names[PoetSol]|];
    SolutionOnlyOffset(sol.names[PoetSol], Dest(m.moduleName), Module(cells, m.moduleName, m.moduleN));
    var names', values' := ValuesFromModule(cells, m.moduleName, m.moduleN, SolutionOnly(sol.names[PoetSol]), values);
    r := Raw(names', values');
  }

  // ---------------------------------------------------------------- the POET wrapper

  /** The cells the queue runs in one RUN_CELLS: "RUN_CELLS\n -cells <start>-<end>\n -time_step <dt>". */
  function RunCommand(start: int, end: int, timeStep: string): string
  {
    "RUN_CELLS\n -cells " + Text.IntString(start) + "-" + Text.IntString(end) + "\n -time_step " + timeStep
  }

  /** The DUMP call raw_dumps issues for one cell (no END). */
  function DumpCommand(id: int): string
  {
    "DUMP\n -cells " + Text.IntString(id)
  }

  /** Dumps of different cells are requested with different commands. */
  lemma DumpCommandInjective(a: int, b: int)
    requires DumpCommand(a) == DumpCommand(b)
    ensures a == b
  {
    Text.SameHeadTail("DUMP\n -cells ", "DUMP\n -cells ", Text.IntString(a), Text.IntString(b));
    Text.IntStringInjective(a, b);
  }

  /** The solver state and the dumps after issuing the DUMP of each of ids in turn. */
  function Dumps<P>(s: Solver<P>, p: P, ids: seq<int>): (P, map<int, string>)
    decreases |ids|
  {
    if ids == [] then (p, map[])
    else
      var prev := Dumps(s, p, ids[..|ids| - 1]);
      var q := s.runString(prev.0, DumpCommand(ids[|ids| - 1]));
      (q, prev.1[ids[|ids| - 1] := s.dumpString(q)])
  }

  /** There is one dump per ID, and nothing else. */
  lemma {:induction false} DumpsKeys<P>(s: Solver<P>, p: P, ids: seq<int>, id: int)
    ensures id in Dumps(s, p, ids).1 <==> id in ids
    decreases |ids|
  {
    if ids != [] {
      var n := |ids| - 1;
      DumpsKeys(s, p, ids[..n], id);
      assert ids == ids[..n] + [ids[n]];
    }
  }

  /** The cells 1..count read back in order, as dequeueCells appends them. */
  function Queued<P>(s: Solver<P>, p: P, order: seq<string>, count: nat): seq<seq<real>>
  {
    seq(count, i => CellValues(s, p, i + 1, order))
  }

  /** The raws getModuleSizes collects: raws[id] = raw_initials[id] for each requested ID in turn. */
  function Selected(raws: map<int, Raw>, ids: seq<int>): map<int, Raw>
    decreases |ids|
  {
    if ids == [] then map[]
    else
      var x := ids[|ids| - 1];
      Selected(raws, ids[..|ids| - 1])[x := if x in raws then raws[x] else NoRaw]
  }

  /** raw_initials after getModuleSizes: `raw_initials[id]` default-inserts each missing requested ID. */
  function WithDefaults(raws: map<int, Raw>, ids: seq<int>): map<int, Raw>
    decreases |ids|
  {
    if ids == [] then raws
    else
      var prev := WithDefaults(raws, ids[..|ids| - 1]);
      var x := ids[|ids| - 1];
      if x in prev then prev else prev[x := NoRaw]
  }

  /** The collected raws: one per requested ID, the stored one or an empty one. */
  lemma {:induction false} SelectedSpec(raws: map<int, Raw>, ids: seq<int>, id: int)
    ensures id in Selected(raws, ids) <==> id in ids
    ensures id in ids ==> Selected(raws, ids)[id] == if id in raws then raws[id] else NoRaw
    decreases |ids|
  {
    if ids != [] {
      var n := |ids| - 1;
      SelectedSpec(raws, ids[..n], id);
      assert ids == ids[..n] + [ids[n]];
    }
  }

  /** getModuleSizes leaves the stored entries alone and adds an empty one for each missing requested ID. */
  lemma {:induction false} WithDefaultsSpec(raws: map<int, Raw>, ids: seq<int>, id: int)
    ensures id in WithDefaults(raws, ids) <==> id in raws || id in ids
    ensures id in raws ==> WithDefaults(raws, ids)[id] == raws[id]
    ensures id !in raws && id in ids ==> WithDefaults(raws, ids)[id] == NoRaw
    decreases |ids|
  {
    if ids != [] {
      var n := |ids| - 1;
      WithDefaultsSpec(raws, ids[..n], id);
      assert ids == ids[..n] + [ids[n]];
    }
  }

  /** Some collected raw lists x in category c. */
  predicate Lists(raws: map<int, Raw>, c: nat, x: string)
    requires c < 5
  {
    exists id :: id in raws && x in raws[id].names[c]
  }

  /** A collected raw lists x exactly when a requested, stored raw does (an empty one lists nothing). */
  lemma SelectedLists(raws: map<int, Raw>, ids: seq<int>, c: nat, x: string)
    requires c < 5
    ensures Lists(Selected(raws, ids), c, x) <==> exists id :: id in ids && id in raws && x in raws[id].names[c]
  {
    var sel := Selected(raws, ids);
    if Lists(sel, c, x) {
      var id :| id in sel && x in sel[id].names[c];
      SelectedSpec(raws, ids, id);
      assert sel[id].names[c] == if id in raws then raws[id].names[c] else [];
    }
    if exists id :: id in ids && id in raws && x in raws[id].names[c] {
      var id :| id in ids && id in raws && x in raws[id].names[c];
      SelectedSpec(raws, ids, id);
      assert id in sel && x in sel[id].names[c];
    }
  }

  /** The sizes count each category's union over the requested IDs; outside the exchange, exactly the names their raws list. */
  lemma ModuleSizesCount(raws: map<int, Raw>, ids: seq<int>, species: seq<string>, c: nat, x: string)
    requires c < 5 && c != PoetExch
    ensures x in AllNames(Selected(raws, ids), species)[c] <==>
      exists id :: id in ids && id in raws && x in raws[id].names[c]
  {
    AllNamesMembers(Selected(raws, ids), species, c, x);
    SelectedLists(raws, ids, c, x);
  }

  lemma DefaultsConsistent(raws: map<int, Raw>, ids: seq<int>)
    requires AllConsistent(raws)
    ensures AllConsistent(WithDefaults(raws, ids))
  {
    forall id | id in WithDefaults(raws, ids) ensures Consistent(WithDefaults(raws, ids)[id]) {
      WithDefaultsSpec(raws, ids, id);
      assert Consistent(NoRaw);
    }
  }

  lemma DumpsFitModules<P>(s: Solver<P>, p: P)
    requires DumpsFit(s, p)
    ensures ModulesFit(s.cells(p))
  {
    forall n | n in s.cells(p) ensures ReactantFits(s.cells(p)[n].exchange) && ReactantFits(s.cells(p)[n].kinetics)
                                       && ReactantFits(s.cells(p)[n].surface) {
      assert Fits(s.cells(p)[n], OwnValues(s, p, n));
    }
  }

  /** The entries parseInitValues builds: the solutions read, then the mappings resolved. */
  function Resolved<P>(s: Solver<P>, p: P): (r: map<int, Raw>)
    requires DumpsFit(s, p) && ModulesReady(s.cells(p), s.solutionMapping(p))
    ensures AllConsistent(r)
  {
    InitValuesConsistent(s, p);
    DumpsFitModules(s, p);
    Resolve(s.cells(p), s.solutionMapping(p), InitValues(s, p))
  }

  function ResolvedNames<P>(s: Solver<P>, p: P): seq<Categories>
    requires DumpsFit(s, p) && ModulesReady(s.cells(p), s.solutionMapping(p))
  {
    NamesOf(Resolved(s, p), Keys(Resolved(s, p)))
  }

  function ResolvedRows<P>(s: Solver<P>, p: P, names: Categories): seq<seq<Val>>
    requires DumpsFit(s, p) && ModulesReady(s.cells(p), s.solutionMapping(p))
  {
    Rows(Resolved(s, p), Keys(Resolved(s, p)), names)
  }

  /**
   * parseInitValues' entries: every solution with a non-negative ID, kept as
   * read, and every mapping's module cell; nothing else but the SOLUTION
   * cells the mappings name.
   */
  lemma ResolvedKeys<P>(s: Solver<P>, p: P, id: int)
    requires DumpsFit(s, p) && ModulesReady(s.cells(p), s.solutionMapping(p))
    ensures IsSolution(s.cells(p), id) && id >= 0 ==> id in Resolved(s, p) && Resolved(s, p)[id] == InitRaw(s, p, id)
    ensures Module_(s.solutionMapping(p), id) ==> id in Resolved(s, p)
    ensures id in Resolved(s, p) ==> (IsSolution(s.cells(p), id) && id >= 0) || Named(s.solutionMapping(p), id)
  {
    InitValuesConsistent(s, p);
    DumpsFitModules(s, p);
    var init := InitValues(s, p);
    ResolveKeys(s.cells(p), s.solutionMapping(p), init, id);
    if id in init {
      ResolveKeeps(s.cells(p), s.solutionMapping(p), init, id);
    }
  }

  /** The rows parseInitValues appends: one per entry, each with a column per union name. */
  lemma ResolvedRowsShape<P>(s: Solver<P>, p: P, names: Categories, k: nat)
    requires DumpsFit(s, p) && ModulesReady(s.cells(p), s.solutionMapping(p))
    ensures |ResolvedRows(s, p, names)| == |Keys(Resolved(s, p))| == |Resolved(s, p)|
    ensures k < |ResolvedRows(s, p, names)| ==> |ResolvedRows(s, p, names)[k]| == Sum(Lengths(names))
  {
    var r := Resolved(s, p);
    if k < |Keys(r)| {
      RowOfLength(r, Keys(r)[k], names);
    }
  }

  /** What parseInitValues adds: the new initial_names, and the rows with their IDs. */
  datatype InitParsed = InitParsed(names: Categories, rows: seq<seq<Val>>, ids: seq<int>)

  /**
   * parseInitValues from the names known so far: the union grows by every
   * entry's names, and each entry gives one row over the grown union.
   */
  function InitParse<P>(s: Solver<P>, p: P, start: Categories): InitParsed
    requires DumpsFit(s, p) && ModulesReady(s.cells(p), s.solutionMapping(p))
  {
    var names := UnionFrom(start, ResolvedNames(s, p), s.species(p));
    InitParsed(names, ResolvedRows(s, p, names), Keys(Resolved(s, p)))
  }

  /** The work of parseInitValues on the solver. */
  method InitRows<P>(s: Solver<P>, p: P, start: Categories) returns (r: InitParsed)
    requires DumpsFit(s, p) && ModulesReady(s.cells(p), s.solutionMapping(p))
    ensures r == InitParse(s, p, start)
  {
    var init := ReadSolutions(s, p, map[]);
    assert init == InitValues(s, p);
    InitValuesConsistent(s, p);
    DumpsFitModules(s, p);
    var resolved := ResolveSolutionUseKW(s.cells(p), s.solutionMapping(p), init);
    var ids := Keys(resolved);
    var names := UnionLoop(start, resolved, ids, s.species(p));
    var rows := RowsOf(resolved, ids, names);
    r := InitParsed(names, rows, ids);
  }

  /** The DUMP loop of raw_dumps. */
  method DumpLoop<P>(s: Solver<P>, p: P, ids: seq<int>) returns (q: P, dumps: map<int, string>)
    ensures (q, dumps) == Dumps(s, p, ids)
  {
    q, dumps := p, map[];
    for k := 0 to |ids|
      invariant (q, dumps) == Dumps(s, p, ids[..k])
    {
      assert ids[..k + 1][..k] == ids[..k];
      q := s.runString(q, DumpCommand(ids[k]));
      dumps := dumps[ids[k] := s.dumpString(q)];
    }
    assert ids[..|ids|] == ids;
  }

  /** The loop of dequeueCells: getCell(i) appended for i = 1..count. */
  method DequeueLoop<P>(s: Solver<P>, p: P, order: seq<string>, count: nat, values: seq<seq<real>>)
    returns (values': seq<seq<real>>)
    ensures values' == values + Queued(s, p, order, count)
  {
    values' := values;
    for i := 1 to count + 1
      invariant values' == values + Queued(s, p, order, i - 1)
    {
      assert Queued(s, p, order, i) == Queued(s, p, order, i - 1) + [CellValues(s, p, i, order)];
      values' := values' + [CellValues(s, p, i, order)];
    }
  }

  /** The loop of getModuleSizes: raws[id] = raw_initials[id] for each requested ID. */
  method SelectRaws(raws: map<int, Raw>, ids: seq<int>) returns (raws': map<int, Raw>, sel: map<int, Raw>)
    ensures raws' == WithDefaults(raws, ids) && sel == Selected(raws, ids)
  {
    raws', sel := raws, map[];
    for k := 0 to |ids|
      invariant raws' == WithDefaults(raws, ids[..k]) && sel == Selected(raws, ids[..k])
    {
      SelectStep(raws, ids, k);
      if ids[k] !in raws' {
        raws' := raws'[ids[k] := NoRaw];
      }
      assert ids[k] in ids[..k + 1];
      WithDefaultsSpec(raws, ids[..k + 1], ids[k]);
      sel := sel[ids[k] := raws'[ids[k]]];
    }
    assert ids[..|ids|] == ids;
  }

  lemma SelectStep(raws: map<int, Raw>, ids: seq<int>, k: nat)
    requires k < |ids|
    ensures WithDefaults(raws, ids[..k + 1]) == if ids[k] in WithDefaults(raws, ids[..k]) then WithDefaults(raws, ids[..k])
                                                 else WithDefaults(raws, ids[..k])[ids[k] := NoRaw]
    ensures Selected(raws, ids[..k + 1]) == Selected(raws, ids[..k])[ids[k] := if ids[k] in raws then raws[ids[k]] else NoRaw]
  {
    assert ids[..k + 1][..k] == ids[..k];
  }

  /**
   * The wrapper. nCells is None after the two-argument constructor, which
   * leaves n_cells uninitialised; queueCell needs the four-argument one.
   */
  class IPhreeqcPOET<P> {
    const solver: Solver<P>
    var phreeqc: P
    var dumpStringOn: bool
    var rawInitials: map<int, Raw>
    var initialNames: Categories
    var initialConcentrations: seq<seq<Val>>
    var solutionIds: seq<int>
    var nCells: Option<nat>
    var solutionInitVector: seq<string>
    var queuedCellPointer: nat

    /** The raw entries are consistent and the queue pointer stays within 1..n_cells + 1. */
    predicate Valid()
      reads this
    {
      AllConsistent(rawInitials) && 1 <= queuedCellPointer
      && (if nCells.Some? then queuedCellPointer <= nCells.value + 1 else queuedCellPointer == 1)
    }

    /** The parse results and the queue setup are as they were. */
    twostate predicate KeepsSetup()
      reads this
    {
      initialNames == old(initialNames) && initialConcentrations == old(initialConcentrations)
      && solutionIds == old(solutionIds) && nCells == old(nCells) && solutionInitVector == old(solutionInitVector)
    }

    /** The solver, the raw entries, the dump flag and the queue are as they were. */
    twostate predicate KeepsSolver()
      reads this
    {
      phreeqc == old(phreeqc) && rawInitials == old(rawInitials) && dumpStringOn == old(dumpStringOn)
      && queuedCellPointer == old(queuedCellPointer) && nCells == old(nCells) && solutionInitVector == old(solutionInitVector)
    }

    /** IPhreeqcPOET(database, input_script): load, run the script, read the initial solutions. */
    constructor(solver: Solver<P>, p0: P, database: string, inputScript: string)
      requires DumpsFit(solver, solver.runString(solver.loadDatabase(p0, database), inputScript))
      ensures Valid() && this.solver == solver
      ensures phreeqc == solver.runString(solver.loadDatabase(p0, database), inputScript)
      ensures rawInitials == InitValues(solver, phreeqc)
      ensures initialNames == NoNames && initialConcentrations == [] && solutionIds == []
      ensures nCells == None && solutionInitVector == [] && queuedCellPointer == 1 && !dumpStringOn
    {
      this.solver := solver;
      phreeqc := solver.runString(solver.loadDatabase(p0, database), inputScript);
      dumpStringOn := false;
      rawInitials := map[];
      initialNames := NoNames;
      initialConcentrations := [];
      solutionIds := [];
      nCells := None;
      solutionInitVector := [];
      queuedCellPointer := 1;
      new;
      ParseInit();
    }

    /**
     * IPhreeqcPOET(database, input_script, solutionInitVector, n_cells):
     * cell 1 is copied to cells 2..n_cells; nothing is read.
     */
    constructor Sized(solver: Solver<P>, p0: P, database: string, inputScript: string,
                      solutionInitVector: seq<string>, nCells: nat)
      ensures Valid() && this.solver == solver
      ensures phreeqc == if nCells > 1
        then solver.runString(solver.runString(solver.loadDatabase(p0, database), inputScript),
                              "COPY cell 1 2-" + Text.NatString(nCells) + "\n")
        else solver.runString(solver.loadDatabase(p0, database), inputScript)
      ensures rawInitials == map[] && initialNames == NoNames && initialConcentrations == [] && solutionIds == []
      ensures this.nCells == Some(nCells) && this.solutionInitVector == solutionInitVector
      ensures queuedCellPointer == 1 && !dumpStringOn
    {
      this.solver := solver;
      var p := solver.runString(solver.loadDatabase(p0, database), inputScript);
      if nCells > 1 {
        p := solver.runString(p, "COPY cell 1 2-" + Text.NatString(nCells) + "\n");
      }
      phreeqc := p;
      dumpStringOn := false;
      rawInitials := map[];
      initialNames := NoNames;
      initialConcentrations := [];
      solutionIds := [];
      this.nCells := Some(nCells);
      this.solutionInitVector := solutionInitVector;
      queuedCellPointer := 1;
    }

    /** parseInit: raw_initials[id] for every solution with a non-negative ID, overwriting what was there. */
    method ParseInit()
      requires AllConsistent(rawInitials) && DumpsFit(solver, phreeqc)
      modifies this
      ensures rawInitials == old(rawInitials) + InitValues(solver, phreeqc)
      ensures AllConsistent(rawInitials)
      ensures phreeqc == old(phreeqc) && dumpStringOn == old(dumpStringOn) && queuedCellPointer == old(queuedCellPointer)
      ensures KeepsSetup()
    {
      rawInitials := ReadSolutions(solver, phreeqc, rawInitials);
      InitValuesConsistent(solver, phreeqc);
      OverrideConsistent(old(rawInitials), InitValues(solver, phreeqc));
    }

    /**
     * parseInitValues: the solutions read, the mappings resolved, the union
     * of their names added to initial_names, and one NaN-padded row per
     * entry (in ID order) appended with its ID.
     */
    method ParseInitValues()
      requires Valid() && DumpsFit(solver, phreeqc) && ModulesReady(solver.cells(phreeqc), solver.solutionMapping(phreeqc))
      modifies this
      ensures Valid() && KeepsSolver()
      ensures (initialNames, initialConcentrations, solutionIds)
           == (InitParse(solver, phreeqc, old(initialNames)).names,
               old(initialConcentrations) + InitParse(solver, phreeqc, old(initialNames)).rows,
               old(solutionIds) + InitParse(solver, phreeqc, old(initialNames)).ids)
    {
      var r := InitRows(solver, phreeqc, initialNames);
      initialNames := r.names;
      initialConcentrations := initialConcentrations + r.rows;
      solutionIds := solutionIds + r.ids;
    }

    /** getPhreeqcMat over raw_initials. */
    method GetPhreeqcMat() returns (m: PhreeqcMat)
      requires Valid()
      ensures m == Mat(rawInitials, solver.species(phreeqc))
    {
      m := PoetRaw.GetPhreeqcMat(rawInitials, solver.species(phreeqc));
    }

    /** getModuleSizes: the union sizes over the requested IDs; `raw_initials[id]` adds an empty entry for a missing one. */
    method GetModuleSizes(cellIds: seq<int>) returns (sizes: seq<nat>)
      requires Valid()
      modifies this
      ensures Valid() && rawInitials == WithDefaults(old(rawInitials), cellIds)
      ensures sizes == Sizes(AllNames(Selected(old(rawInitials), cellIds), solver.species(phreeqc)))
      ensures phreeqc == old(phreeqc) && dumpStringOn == old(dumpStringOn) && queuedCellPointer == old(queuedCellPointer)
      ensures KeepsSetup()
    {
      var raws, sel := SelectRaws(rawInitials, cellIds);
      DefaultsConsistent(rawInitials, cellIds);
      rawInitials := raws;
      var names := UnionRaws(sel, solver.species(phreeqc));
      sizes := Sizes(names);
    }

    /** raw_dumps: one DUMP per raw_initials ID with the dump string on, then the flag off. */
    method RawDumps() returns (dumps: map<int, string>)
      requires Valid()
      modifies this
      ensures Valid() && rawInitials == old(rawInitials) && queuedCellPointer == old(queuedCellPointer) && KeepsSetup()
      ensures (phreeqc, dumps) == Dumps(solver, old(phreeqc), Keys(rawInitials))
      ensures forall id :: id in dumps <==> id in rawInitials
      ensures !dumpStringOn
    {
      dumpStringOn := true;
      var q, d := DumpLoop(solver, phreeqc, Keys(rawInitials));
      phreeqc := q;
      dumps := d;
      dumpStringOn := false;
      forall id ensures id in dumps <==> id in rawInitials {
        DumpsKeys(solver, old(phreeqc), Keys(rawInitials), id);
      }
    }

    /** queueCell: cells 1..n_cells take the values in turn; once they are all queued nothing happens. */
    method QueueCell(values: seq<real>)
      requires Valid() && nCells.Some?
      modifies this
      ensures Valid() && rawInitials == old(rawInitials) && dumpStringOn == old(dumpStringOn) && KeepsSetup()
      ensures if old(queuedCellPointer) > nCells.value
        then phreeqc == old(phreeqc) && queuedCellPointer == old(queuedCellPointer)
        else phreeqc == solver.setValues(old(phreeqc), old(queuedCellPointer), solutionInitVector, values)
             && queuedCellPointer == old(queuedCellPointer) + 1
    {
      if queuedCellPointer > nCells.value {
        return;
      }
      SetCell(queuedCellPointer, values);
      queuedCellPointer := queuedCellPointer + 1;
    }

    /** dequeueCells: the queued cells 1..pointer-1 appended in order, then the queue emptied. */
    method DequeueCells(values: seq<seq<real>>) returns (values': seq<seq<real>>)
      requires Valid()
      modifies this
      ensures Valid() && queuedCellPointer == 1
      ensures phreeqc == old(phreeqc) && rawInitials == old(rawInitials) && dumpStringOn == old(dumpStringOn) && KeepsSetup()
      ensures values' == values + Queued(solver, phreeqc, solutionInitVector, old(queuedCellPointer) - 1)
      ensures |values'| == |values| + old(queuedCellPointer) - 1
    {
      if queuedCellPointer == 1 {
        values' := values;
        assert Queued(solver, phreeqc, solutionInitVector, 0) == [];
        return;
      }
      values' := DequeueLoop(solver, phreeqc, solutionInitVector, queuedCellPointer - 1, values);
      queuedCellPointer := 1;
    }

    /** runQueuedCells: RUN_CELLS over cells 1..pointer-1, nothing when the queue is empty; the pointer stays. */
    method RunQueuedCells(timeStep: real)
      requires Valid()
      modifies this
      ensures Valid() && queuedCellPointer == old(queuedCellPointer)
      ensures rawInitials == old(rawInitials) && dumpStringOn == old(dumpStringOn) && KeepsSetup()
      ensures phreeqc == if old(queuedCellPointer) == 1 then old(phreeqc)
        else solver.runString(old(phreeqc), RunCommand(1, old(queuedCellPointer) - 1, solver.formatTime(timeStep)))
    {
      if queuedCellPointer == 1 {
        return;
      }
      Run(1, queuedCellPointer - 1, timeStep);
    }

    /** setCell: the cell's reactants set from values in the order of solutionInitVector. */
    method SetCell(n: int, values: seq<real>)
      modifies this
      ensures phreeqc == solver.setValues(old(phreeqc), n, solutionInitVector, values)
      ensures queuedCellPointer == old(queuedCellPointer) && rawInitials == old(rawInitials)
      ensures dumpStringOn == old(dumpStringOn) && KeepsSetup()
    {
      phreeqc := solver.setValues(phreeqc, n, solutionInitVector, values);
    }

    /** getCell: the cell's essential values, the solution in the order of solutionInitVector. */
    method GetCell(n: int) returns (values: seq<real>)
      ensures values == CellValues(solver, phreeqc, n, solutionInitVector)
    {
      values := CellValues(solver, phreeqc, n, solutionInitVector);
    }

    /** run: one RUN_CELLS over start..end with the given time step. */
    method Run(start: int, end: int, timeStep: real)
      modifies this
      ensures phreeqc == solver.runString(old(phreeqc), RunCommand(start, end, solver.formatTime(timeStep)))
      ensures queuedCellPointer == old(queuedCellPointer) && rawInitials == old(rawInitials)
      ensures dumpStringOn == old(dumpStringOn) && KeepsSetup()
    {
      phreeqc := solver.runString(phreeqc, RunCommand(start, end, solver.formatTime(timeStep)));
    }
  }
}
