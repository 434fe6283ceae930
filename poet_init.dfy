// POET's PhreeqcInit: after loading a database and running the input
// script it reads every solution PHREEQC holds under a non-negative ID,
// expands the solution names into valence states, unions them, and then
// reads for each such cell the names of its exchange, kinetics,
// equilibrium and surface and the values of all of them into raw_initials.
// The per-cell formula lists the wrappers need later are kept in member
// maps; the surface primaries are fixed once, at the first surface cell.
//
// PHREEQC is abstract: a state P, the calls the initialiser makes on it,
// and a snapshot `Cells` of what it holds after the script has run. The
// reactant wrappers are records of their names, the list their `names`
// call fills in and their `get` on a wrapper built from such a list.

module PoetInit {
  import opened Values
  import Order
  import Text
  import Valence
  import S = Solution
  import PS = PoetSolution
  import opened PoetRaw
  import IP = IPhreeqcPoet

  /**
   * An exchange, kinetics or equilibrium entry as its POET wrapper sees it:
   * the names `names` returns, the formula or component list it fills in,
   * and `get` on a wrapper built from a given list.
   */
  datatype Reactant = Reactant(names: seq<string>, list: seq<string>, read: seq<string> -> seq<real>)

  /** What SurfaceWrapper::names returns and fills in for a set of primaries. */
  datatype SurfaceLayout = SurfaceLayout(names: seq<string>, comps: seq<string>, charges: seq<string>)

  /** A surface: its layout for given primaries, and `get` on a wrapper built from primaries, formulas and charges. */
  datatype Surface = Surface(layout: set<string> -> SurfaceLayout, read: (set<string>, seq<string>, seq<string>) -> seq<real>)

  /**
   * What PHREEQC holds: Get_solution .. Get_surface are non-NULL exactly for
   * the IDs of these maps; `master` is the master-species list and
   * `primaryOf` master_bsearch_primary.
   */
  datatype Cells = Cells(
    solutions: map<int, S.Soln>,
    exchanges: map<int, Reactant>,
    kinetics: map<int, Reactant>,
    equilibria: map<int, Reactant>,
    surfaces: map<int, Surface>,
    master: seq<string>,
    primaryOf: string -> Option<string>)

  /** The PHREEQC calls of the initialiser, on an abstract solver state P. */
  datatype Solver<!P> = Solver(
    loadDatabase: (P, string) -> P,
    runString: (P, string) -> P,
    dumpString: P -> string,
    cells: P -> Cells,
    species: P -> seq<string>)

  // ---------------------------------------------------------------- dump_solution_names

  /** SKIP_H_O_CB: the names the valence expansion copies unchanged. */
  const SkipHOCb: nat := 3

  /** The first three names of every solution: H, O and the charge balance. */
  const HOCharge: seq<string> := ["H", "O", "Charge"]

  /** find_all_valence_states asserts a primary master species for every name past the first three. */
  predicate Expandable(c: Cells, id: int)
  {
    id in c.solutions && Valence.Resolvable(PS.Names(c.solutions[id])[SkipHOCb..], {}, c.primaryOf)
  }

  /** dump_solution_names: the wrapper's names, everything past H, O and Charge expanded into valence states. */
  function SolutionNames(c: Cells, id: int): seq<string>
    requires Expandable(c, id)
  {
    Valence.WithValencesFrom(PS.Names(c.solutions[id]), SkipHOCb, c.master, c.primaryOf)
  }

  /** H, O and Charge stay in front, unexpanded. */
  lemma SolutionNamesFront(c: Cells, id: int)
    requires Expandable(c, id)
    ensures |SolutionNames(c, id)| >= SkipHOCb
    ensures SolutionNames(c, id)[..SkipHOCb] == HOCharge
  {
    var names := PS.Names(c.solutions[id]);
    Valence.OffsetPrefix(names, SkipHOCb, c.master, c.primaryOf);
    assert names[..SkipHOCb] == PS.Essentials[..SkipHOCb];
  }

  // ---------------------------------------------------------------- init_values

  /** The IDs parseInit reads: the non-negative ones (a negative ID is an internal solution). */
  function SolutionIds(c: Cells): set<int>
  {
    set id | id in c.solutions && id >= 0
  }

  /**
   * Every solution read can be expanded, and its names leave room for the
   * five slots SolutionWrapper::get writes.
   */
  predicate Ready(c: Cells)
  {
    forall id :: id in SolutionIds(c) ==> Expandable(c, id) && |SolutionNames(c, id)| >= 5
  }

  lemma ReadyAt(c: Cells, id: int)
    requires Ready(c) && id in SolutionIds(c)
    ensures Expandable(c, id) && |SolutionNames(c, id)| >= 5
  {
  }

  /** Iteration order of Get_Rxn_solution_map, negative IDs included (the loops skip or never meet them). */
  function ReadIds(c: Cells): (r: seq<int>)
    ensures Order.Increasing(r) && forall id :: id in r <==> id in SolutionIds(c)
  {
    Order.AscendingInts(SolutionIds(c))
  }

  predicate AllRead(c: Cells, ids: seq<int>)
  {
    forall i :: 0 <= i < |ids| ==> ids[i] in SolutionIds(c)
  }

  lemma AllReadFront(c: Cells, ids: seq<int>, n: nat)
    requires AllRead(c, ids) && n <= |ids|
    ensures AllRead(c, ids[..n])
  {
    assert forall i :: 0 <= i < n ==> ids[..n][i] == ids[i];
  }

  /** x is in a non-empty sequence when it is in the front or is the last element. */
  lemma InSnoc(ids: seq<int>, x: int)
    requires ids != []
    ensures x in ids <==> x in ids[..|ids| - 1] || x == ids[|ids| - 1]
  {
    assert ids == ids[..|ids| - 1] + [ids[|ids| - 1]];
  }

  /** init_values after the first loop over ids: each ID's dump_solution_names. */
  function NamesFrom(c: Cells, ids: seq<int>): map<int, seq<string>>
    requires Ready(c) && AllRead(c, ids)
    decreases |ids|
  {
    if ids == [] then map[]
    else
      var n := |ids| - 1;
      AllReadFront(c, ids, n);
      ReadyAt(c, ids[n]);
      NamesFrom(c, ids[..n])[ids[n] := SolutionNames(c, ids[n])]
  }

  /** One list per ID, its dump_solution_names. */
  lemma {:induction false} NamesFromSpec(c: Cells, ids: seq<int>, id: int)
    requires Ready(c) && AllRead(c, ids)
    ensures id in NamesFrom(c, ids) <==> id in ids
    ensures id in ids ==> id in SolutionIds(c) && NamesFrom(c, ids)[id] == SolutionNames(c, id)
    decreases |ids|
  {
    if ids != [] {
      var n := |ids| - 1;
      AllReadFront(c, ids, n);
      NamesFromSpec(c, ids[..n], id);
      InSnoc(ids, id);
    }
  }

  /** init_values: the names of every solution read. */
  function NameTable(c: Cells): map<int, seq<string>>
    requires Ready(c)
  {
    NamesFrom(c, ReadIds(c))
  }

  /** The table has a list for each solution read: its names, H, O and Charge first, at least five. */
  lemma NameTableAt(c: Cells, id: int)
    requires Ready(c)
    ensures id in NameTable(c) <==> id in SolutionIds(c)
    ensures id in SolutionIds(c) ==>
      NameTable(c)[id] == SolutionNames(c, id) && |NameTable(c)[id]| >= 5 && NameTable(c)[id][..SkipHOCb] == HOCharge
  {
    NamesFromSpec(c, ReadIds(c), id);
    if id in SolutionIds(c) {
      ReadyAt(c, id);
      SolutionNamesFront(c, id);
    }
  }

  // ---------------------------------------------------------------- the solution union

  /** Every ID of ids has a list. */
  predicate Covers(names: map<int, seq<string>>, ids: seq<int>)
  {
    forall i :: 0 <= i < |ids| ==> ids[i] in names
  }

  lemma CoversFront(names: map<int, seq<string>>, ids: seq<int>, n: nat)
    requires Covers(names, ids) && n <= |ids|
    ensures Covers(names, ids[..n])
  {
    assert forall i :: 0 <= i < n ==> ids[..n][i] == ids[i];
  }

  lemma TableCovers(c: Cells)
    requires Ready(c)
    ensures Covers(NameTable(c), ReadIds(c))
  {
    var ids := ReadIds(c);
    forall i | 0 <= i < |ids| ensures ids[i] in NameTable(c) {
      NameTableAt(c, ids[i]);
    }
  }

  /** The std::set_union fold over the lists of ids, from an empty vector. */
  function UnionUpTo(names: map<int, seq<string>>, ids: seq<int>): seq<string>
    requires Covers(names, ids)
    decreases |ids|
  {
    if ids == [] then []
    else
      var n := |ids| - 1;
      CoversFront(names, ids, n);
      Order.SetUnion(UnionUpTo(names, ids[..n]), names[ids[n]])
  }

  /** union_solution_names. */
  function SolutionUnion(c: Cells): seq<string>
    requires Ready(c)
  {
    TableCovers(c);
    UnionUpTo(NameTable(c), ReadIds(c))
  }

  /** Some ID of ids lists x. */
  predicate ListedBy(names: map<int, seq<string>>, ids: seq<int>, x: string)
    requires Covers(names, ids)
  {
    exists i :: 0 <= i < |ids| && x in names[ids[i]]
  }

  lemma ListedBySnoc(names: map<int, seq<string>>, ids: seq<int>, x: string)
    requires Covers(names, ids) && ids != []
    ensures Covers(names, ids[..|ids| - 1])
    ensures ListedBy(names, ids, x) <==> ListedBy(names, ids[..|ids| - 1], x) || x in names[ids[|ids| - 1]]
  {
    var n := |ids| - 1;
    var front := ids[..n];
    CoversFront(names, ids, n);
    if ListedBy(names, ids, x) {
      var i :| 0 <= i < |ids| && x in names[ids[i]];
      if i < n { assert front[i] == ids[i]; }
    }
    if ListedBy(names, front, x) {
      var i :| 0 <= i < |front| && x in names[front[i]];
      assert front[i] == ids[i];
    }
  }

  /** The union holds exactly the names some ID lists, whatever order the lists come in. */
  lemma {:induction false} UnionUpToMembers(names: map<int, seq<string>>, ids: seq<int>, x: string)
    requires Covers(names, ids)
    ensures x in UnionUpTo(names, ids) <==> ListedBy(names, ids, x)
    decreases |ids|
  {
    if ids != [] {
      var n := |ids| - 1;
      ListedBySnoc(names, ids, x);
      UnionUpToMembers(names, ids[..n], x);
      Order.SetUnionElements(UnionUpTo(names, ids[..n]), names[ids[n]]);
    }
  }

  /** A name is in the union exactly when a solution read lists it. */
  lemma SolutionUnionMembers(c: Cells, x: string)
    requires Ready(c)
    ensures x in SolutionUnion(c) <==> exists id :: id in SolutionIds(c) && x in SolutionNames(c, id)
  {
    var ids := ReadIds(c);
    var t := NameTable(c);
    TableCovers(c);
    UnionUpToMembers(t, ids, x);
    if exists id :: id in SolutionIds(c) && x in SolutionNames(c, id) {
      var id :| id in SolutionIds(c) && x in SolutionNames(c, id);
      var i :| 0 <= i < |ids| && ids[i] == id;
      NameTableAt(c, id);
    }
    if ListedBy(t, ids, x) {
      var i :| 0 <= i < |ids| && x in t[ids[i]];
      NameTableAt(c, ids[i]);
    }
  }

  /** The loop of parseInit that unions the lists of init_values in ID order. */
  method UnionSolutionNames(names: map<int, seq<string>>, ids: seq<int>) returns (u: seq<string>)
    requires Covers(names, ids)
    ensures u == UnionUpTo(names, ids)
  {
    u := [];
    for k := 0 to |ids|
      invariant Covers(names, ids[..k]) && u == UnionUpTo(names, ids[..k])
    {
      CoversFront(names, ids, k + 1);
      assert ids[..k + 1][..k] == ids[..k];
      u := Order.SetUnion(u, names[ids[k]]);
    }
    assert ids[..|ids|] == ids;
  }

  // ---------------------------------------------------------------- the surface primaries

  /** "this is fixed! Always add H and O". */
  const HAndO: set<string> := {"H", "O"}

  /** The primary master species of the union's names past the first three, up to index k. */
  function PrimariesUpTo(union: seq<string>, primaryOf: string -> Option<string>, k: nat): set<string>
    requires k <= |union|
    decreases k
  {
    if k <= SkipHOCb then {}
    else
      var p := primaryOf(union[k - 1]);
      PrimariesUpTo(union, primaryOf, k - 1) + if p.Some? then {p.value} else {}
  }

  lemma {:induction false} PrimariesUpToMembers(union: seq<string>, primaryOf: string -> Option<string>, k: nat, x: string)
    requires k <= |union|
    ensures x in PrimariesUpTo(union, primaryOf, k) <==> exists i :: SkipHOCb <= i < k && primaryOf(union[i]) == Some(x)
    decreases k
  {
    if k > SkipHOCb {
      PrimariesUpToMembers(union, primaryOf, k - 1, x);
    }
  }

  /** The set a surface cell fills while surface_primaries is still empty. */
  function SurfacePrimaries(union: seq<string>, primaryOf: string -> Option<string>): set<string>
  {
    HAndO + PrimariesUpTo(union, primaryOf, |union|)
  }

  /** It holds H, O and the primary of every union name past the first three that has one, and nothing else. */
  lemma SurfacePrimariesMembers(union: seq<string>, primaryOf: string -> Option<string>, x: string)
    ensures x in SurfacePrimaries(union, primaryOf) <==>
      x == "H" || x == "O" || exists i :: SkipHOCb <= i < |union| && primaryOf(union[i]) == Some(x)
  {
    PrimariesUpToMembers(union, primaryOf, |union|, x);
  }

  /** The loop that fills the set. */
  method CollectPrimaries(union: seq<string>, primaryOf: string -> Option<string>) returns (prims: set<string>)
    ensures prims == SurfacePrimaries(union, primaryOf)
  {
    prims := HAndO;
    var i := SkipHOCb;
    while i < |union|
      invariant SkipHOCb <= i && (|union| >= SkipHOCb ==> i <= |union|)
      invariant prims == HAndO + PrimariesUpTo(union, primaryOf, if i <= |union| then i else |union|)
    {
      var p := primaryOf(union[i]);
      if p.Some? {
        prims := prims + {p.value};
      }
      i := i + 1;
    }
  }

  // ---------------------------------------------------------------- dump_reactant_names

  /** The member maps dump_reactant_names writes, and surface_primaries. */
  datatype Tables = Tables(
    exchanger: map<int, seq<string>>,
    kinetics: map<int, seq<string>>,
    equilibrium: map<int, seq<string>>,
    surfaceComps: map<int, seq<string>>,
    surfaceCharge: map<int, seq<string>>,
    primaries: set<string>)

  const NoTables: Tables := Tables(map[], map[], map[], map[], map[], {})

  /** The primaries after a cell's step: a surface cell fills them from the union while they are empty. */
  function PrimariesFor(c: Cells, id: int, union: seq<string>, prims: set<string>): set<string>
  {
    if id in c.surfaces && prims == {} then SurfacePrimaries(union, c.primaryOf) else prims
  }

  /** The member maps after dump_reactant_names(id): an entry for each category the cell has. */
  function ReactantTables(c: Cells, id: int, union: seq<string>, t: Tables): Tables
  {
    var prims := PrimariesFor(c, id, union, t.primaries);
    Tables(
      if id in c.exchanges then t.exchanger[id := c.exchanges[id].list] else t.exchanger,
      if id in c.kinetics then t.kinetics[id := c.kinetics[id].list] else t.kinetics,
      if id in c.equilibria then t.equilibrium[id := c.equilibria[id].list] else t.equilibrium,
      if id in c.surfaces then t.surfaceComps[id := c.surfaces[id].layout(prims).comps] else t.surfaceComps,
      if id in c.surfaces then t.surfaceCharge[id := c.surfaces[id].layout(prims).charges] else t.surfaceCharge,
      prims)
  }

  /** The names after dump_reactant_names: each present reactant's names in its category, the others as they were. */
  function ReactantNames(c: Cells, id: int, prims: set<string>, names: Categories): Categories
  {
    [names[PoetSol],
     if id in c.exchanges then c.exchanges[id].names else names[PoetExch],
     if id in c.kinetics then c.kinetics[id].names else names[PoetKin],
     if id in c.equilibria then c.equilibria[id].names else names[PoetEquil],
     if id in c.surfaces then c.surfaces[id].layout(prims).names else names[PoetSurf]]
  }

  /** The names parseInit starts a cell with: the solution's, the rest empty. */
  function SolutionOnly(sol: seq<string>): Categories
  {
    [sol, [], [], [], []]
  }

  /** A cell's step gives an entry in each map exactly for the categories it has, holding what the wrapper filled in. */
  lemma ReactantTablesEntries(c: Cells, id: int, union: seq<string>, t: Tables, n: int)
    ensures var t' := ReactantTables(c, id, union, t);
      (n in t'.exchanger <==> n in t.exchanger || (n == id && id in c.exchanges)) &&
      (n in t'.kinetics <==> n in t.kinetics || (n == id && id in c.kinetics)) &&
      (n in t'.equilibrium <==> n in t.equilibrium || (n == id && id in c.equilibria)) &&
      (n in t'.surfaceComps <==> n in t.surfaceComps || (n == id && id in c.surfaces)) &&
      (n in t'.surfaceCharge <==> n in t.surfaceCharge || (n == id && id in c.surfaces))
  {
  }

  /**
   * dump_reactant_names(id, union, names): each reactant the cell has puts
   * its names into its category and its list into its member map; the
   * surface first fills the primaries from the union while they are empty.
   */
  method DumpReactants(c: Cells, id: int, union: seq<string>, t: Tables, names: Categories) returns (t': Tables, names': Categories)
    ensures t' == ReactantTables(c, id, union, t)
    ensures names' == ReactantNames(c, id, t'.primaries, names)
  {
    var exch, kin, equil, surf := names[PoetExch], names[PoetKin], names[PoetEquil], names[PoetSurf];
    var ex, ki, eq, comps, charges, prims := t.exchanger, t.kinetics, t.equilibrium, t.surfaceComps, t.surfaceCharge, t.primaries;
    if id in c.exchanges {
      exch := c.exchanges[id].names;
      ex := ex[id := c.exchanges[id].list];
    }
    if id in c.kinetics {
      kin := c.kinetics[id].names;
      ki := ki[id := c.kinetics[id].list];
    }
    if id in c.equilibria {
      equil := c.equilibria[id].names;
      eq := eq[id := c.equilibria[id].list];
    }
    if id in c.surfaces {
      if prims == {} {
        prims := CollectPrimaries(union, c.primaryOf);
      }
      var l := c.surfaces[id].layout(prims);
      surf := l.names;
      comps := comps[id := l.comps];
      charges := charges[id := l.charges];
    }
    t' := Tables(ex, ki, eq, comps, charges, prims);
    names' := [names[PoetSol], exch, kin, equil, surf];
  }

  // ---------------------------------------------------------------- get_essential_values_init

  /** `operator[]` on a member map when reading: the stored list, or the empty list it inserts. */
  function Listed(m: map<int, seq<string>>, id: int): seq<string>
  {
    if id in m then m[id] else []
  }

  /** SolutionWrapper(solution, order).get: the first three order names are dropped, `size()` counts all. */
  function SolutionBlock(c: Cells, id: int, order: seq<string>): seq<real>
    requires |order| >= 5
  {
    if id in c.solutions then PS.Slots(PS.NewSolutionWrapper(order), c.solutions[id]) else []
  }

  /** The blocks get_essential_values_init appends, in the fixed order solution, exchange, kinetics, equilibrium, surface. */
  function ValueBlocks(c: Cells, id: int, order: seq<string>, t: Tables): seq<seq<real>>
    requires |order| >= 5
  {
    [SolutionBlock(c, id, order),
     if id in c.exchanges then c.exchanges[id].read(Listed(t.exchanger, id)) else [],
     if id in c.kinetics then c.kinetics[id].read(Listed(t.kinetics, id)) else [],
     if id in c.equilibria then c.equilibria[id].read(Listed(t.equilibrium, id)) else [],
     if id in c.surfaces then c.surfaces[id].read(t.primaries, Listed(t.surfaceComps, id), Listed(t.surfaceCharge, id)) else []]
  }

  /** get_essential_values_init(id, order). */
  function EssentialValues(c: Cells, id: int, order: seq<string>, t: Tables): seq<real>
    requires |order| >= 5
  {
    Concat(ValueBlocks(c, id, order, t))
  }

  /**
   * The values are the blocks one after the other: their count is the sum
   * of the wrapper sizes, and block k starts after the blocks before it.
   */
  lemma EssentialValuesLayout(c: Cells, id: int, order: seq<string>, t: Tables, k: nat)
    requires |order| >= 5 && k < 5
    ensures |EssentialValues(c, id, order, t)| == Sum(Lengths(ValueBlocks(c, id, order, t)))
    ensures var b := ValueBlocks(c, id, order, t);
      var at := Sum(Lengths(b[..k]));
      at + |b[k]| <= |EssentialValues(c, id, order, t)| && EssentialValues(c, id, order, t)[at..at + |b[k]|] == b[k]
  {
    var b := ValueBlocks(c, id, order, t);
    ConcatLength(b);
    LengthsPrefix(b, k);
    ConcatBlock(b, k);
  }

  /** The solution block has one slot per order name. */
  lemma SolutionBlockLength(c: Cells, id: int, order: seq<string>)
    requires |order| >= 5
    ensures |SolutionBlock(c, id, order)| == if id in c.solutions then |order| else 0
  {
  }

  // ---------------------------------------------------------------- the getters

  /** contains_id: map::find(id) != end(). */
  function ContainsId(m: map<int, seq<string>>, id: int): bool
  {
    id in m
  }

  /** contains_id(map, id) ? map[id] : {}: the stored list, or the empty list for an unknown ID. */
  function Stored(m: map<int, seq<string>>, id: int): seq<string>
  {
    if ContainsId(m, id) then m[id] else []
  }

  // ---------------------------------------------------------------- parseInit

  /** Every list has room for the five slots SolutionWrapper::get writes. */
  predicate Sized(names: map<int, seq<string>>)
  {
    forall id :: id in names ==> |names[id]| >= 5
  }

  lemma TableSized(c: Cells)
    requires Ready(c)
    ensures Sized(NameTable(c))
  {
    forall id | id in NameTable(c) ensures |NameTable(c)[id]| >= 5 {
      NameTableAt(c, id);
    }
  }

  /** Each reactant wrapper gives one value per name, the surface's for the primaries `prims`. */
  predicate CellFits(c: Cells, id: int, prims: set<string>)
  {
    (id in c.exchanges ==> |c.exchanges[id].read(c.exchanges[id].list)| == |c.exchanges[id].names|) &&
    (id in c.kinetics ==> |c.kinetics[id].read(c.kinetics[id].list)| == |c.kinetics[id].names|) &&
    (id in c.equilibria ==> |c.equilibria[id].read(c.equilibria[id].list)| == |c.equilibria[id].names|) &&
    (id in c.surfaces ==>
      var l := c.surfaces[id].layout(prims);
      |c.surfaces[id].read(prims, l.comps, l.charges)| == |l.names|)
  }

  /** A cell read as parseInit does from the member maps before its step, with solution names `sol` and solution order `order`. */
  function CellRawWith(c: Cells, id: int, sol: seq<string>, order: seq<string>, union: seq<string>, t: Tables): Raw
    requires |order| >= 5
  {
    var t' := ReactantTables(c, id, union, t);
    Raw(ReactantNames(c, id, t'.primaries, SolutionOnly(sol)), EssentialValues(c, id, order, t'))
  }

  /** The cell read with its own names as solution order (AsWrittenShort shows the order the source passes). */
  function CellRaw(c: Cells, id: int, sol: seq<string>, union: seq<string>, t: Tables): Raw
    requires |sol| >= 5
  {
    CellRawWith(c, id, sol, sol, union, t)
  }

  /** The member maps after dump_reactant_names for each of ids in turn. */
  function TablesAfter(c: Cells, union: seq<string>, ids: seq<int>, t: Tables): Tables
    decreases |ids|
  {
    if ids == [] then t
    else ReactantTables(c, ids[|ids| - 1], union, TablesAfter(c, union, ids[..|ids| - 1], t))
  }

  /** The raw entries the third loop of parseInit stores for ids. */
  function Parse(c: Cells, names: map<int, seq<string>>, union: seq<string>, ids: seq<int>, t: Tables): map<int, Raw>
    requires Sized(names) && Covers(names, ids)
    decreases |ids|
  {
    if ids == [] then map[]
    else
      var n := |ids| - 1;
      CoversFront(names, ids, n);
      Parse(c, names, union, ids[..n], t)[ids[n] := CellRaw(c, ids[n], names[ids[n]], union, TablesAfter(c, union, ids[..n], t))]
  }

  /** parseInit from fresh member maps: the maps and the entries. */
  function ParseAll(c: Cells): (Tables, map<int, Raw>)
    requires Ready(c)
  {
    TableCovers(c);
    TableSized(c);
    (TablesAfter(c, SolutionUnion(c), ReadIds(c), NoTables), Parse(c, NameTable(c), SolutionUnion(c), ReadIds(c), NoTables))
  }

  /** Some ID of ids has a surface. */
  predicate HasSurface(c: Cells, ids: seq<int>)
  {
    exists i :: 0 <= i < |ids| && ids[i] in c.surfaces
  }

  /** The primaries the loop ends with: the filled set once a surface cell came up while they were empty. */
  function FinalPrimaries(c: Cells, union: seq<string>, ids: seq<int>, prims: set<string>): set<string>
  {
    if prims == {} && HasSurface(c, ids) then SurfacePrimaries(union, c.primaryOf) else prims
  }

  lemma HasSurfaceSnoc(c: Cells, ids: seq<int>)
    requires ids != []
    ensures HasSurface(c, ids) <==> HasSurface(c, ids[..|ids| - 1]) || ids[|ids| - 1] in c.surfaces
  {
    var n := |ids| - 1;
    if HasSurface(c, ids[..n]) {
      var i :| 0 <= i < n && ids[..n][i] in c.surfaces;
      assert ids[i] == ids[..n][i];
    }
    if HasSurface(c, ids) {
      var i :| 0 <= i < |ids| && ids[i] in c.surfaces;
      if i < n { assert ids[..n][i] == ids[i]; }
    }
  }

  /** The filled set is never empty: it holds H and O. */
  lemma SurfacePrimariesHO(union: seq<string>, primaryOf: string -> Option<string>)
    ensures "H" in SurfacePrimaries(union, primaryOf) && "O" in SurfacePrimaries(union, primaryOf)
  {
  }

  /**
   * surface_primaries is filled at most once: at the first surface cell,
   * and only if it was empty; every later step keeps it.
   */
  lemma {:induction false} TablesPrimaries(c: Cells, union: seq<string>, ids: seq<int>, t: Tables)
    ensures TablesAfter(c, union, ids, t).primaries == FinalPrimaries(c, union, ids, t.primaries)
    decreases |ids|
  {
    if ids != [] {
      var n := |ids| - 1;
      TablesPrimaries(c, union, ids[..n], t);
      HasSurfaceSnoc(c, ids);
      SurfacePrimariesHO(union, c.primaryOf);
    }
  }

  /** The member maps get an entry for a cell exactly when it is read and has the category. */
  lemma {:induction false} TablesEntries(c: Cells, union: seq<string>, ids: seq<int>, t: Tables, n: int)
    ensures var t' := TablesAfter(c, union, ids, t);
      (n in t'.exchanger <==> n in t.exchanger || (n in ids && n in c.exchanges)) &&
      (n in t'.kinetics <==> n in t.kinetics || (n in ids && n in c.kinetics)) &&
      (n in t'.equilibrium <==> n in t.equilibrium || (n in ids && n in c.equilibria)) &&
      (n in t'.surfaceComps <==> n in t.surfaceComps || (n in ids && n in c.surfaces)) &&
      (n in t'.surfaceCharge <==> n in t.surfaceCharge || (n in ids && n in c.surfaces))
    decreases |ids|
  {
    if ids != [] {
      var k := |ids| - 1;
      TablesEntries(c, union, ids[..k], t, n);
      ReactantTablesEntries(c, ids[k], union, TablesAfter(c, union, ids[..k], t), n);
      InSnoc(ids, n);
    }
  }

  /** The lists of the simple reactants are the ones their wrappers filled in. */
  lemma {:induction false} TablesLists(c: Cells, union: seq<string>, ids: seq<int>, t: Tables, n: int)
    requires n in ids
    ensures var t' := TablesAfter(c, union, ids, t);
      (n in c.exchanges ==> n in t'.exchanger && t'.exchanger[n] == c.exchanges[n].list) &&
      (n in c.kinetics ==> n in t'.kinetics && t'.kinetics[n] == c.kinetics[n].list) &&
      (n in c.equilibria ==> n in t'.equilibrium && t'.equilibrium[n] == c.equilibria[n].list)
    decreases |ids|
  {
    var k := |ids| - 1;
    if ids[k] != n {
      InSnoc(ids, n);
      TablesLists(c, union, ids[..k], t, n);
    }
  }

  /** One raw entry per ID read, and nothing else. */
  lemma {:induction false} ParseKeys(c: Cells, names: map<int, seq<string>>, union: seq<string>, ids: seq<int>, t: Tables, n: int)
    requires Sized(names) && Covers(names, ids)
    ensures n in Parse(c, names, union, ids, t) <==> n in ids
    decreases |ids|
  {
    if ids != [] {
      var k := |ids| - 1;
      CoversFront(names, ids, k);
      ParseKeys(c, names, union, ids[..k], t, n);
      InSnoc(ids, n);
    }
  }

  /** Merging with an empty map, on either side, changes nothing. */
  lemma MergeEmpty<K, V>(m: map<K, V>)
    ensures map[] + m == m && m + map[] == m
  {
  }

  // ---------------------------------------------------------------- parseInit, step by step

  /** dump_solution_names(id). */
  method DumpSolutionNames(c: Cells, id: int) returns (names: seq<string>)
    requires Expandable(c, id)
    ensures names == SolutionNames(c, id)
  {
    names := Valence.FindAllValenceStatesFrom(PS.Names(c.solutions[id]), SkipHOCb, c.master, c.primaryOf);
  }

  /** The first loop of parseInit: init_values[id][POET_SOL] = dump_solution_names(id) for each non-negative ID. */
  method ReadSolutionNames(c: Cells, ids: seq<int>) returns (names: map<int, seq<string>>)
    requires Ready(c) && AllRead(c, ids)
    ensures names == NamesFrom(c, ids)
  {
    names := map[];
    for k := 0 to |ids|
      invariant AllRead(c, ids[..k]) && names == NamesFrom(c, ids[..k])
    {
      AllReadFront(c, ids, k + 1);
      assert ids[..k + 1][..k] == ids[..k];
      ReadyAt(c, ids[k]);
      var sol := DumpSolutionNames(c, ids[k]);
      names := names[ids[k] := sol];
    }
    assert ids[..|ids|] == ids;
  }

  /** get_essential_values_init(id, order): the blocks of the present categories appended in the fixed order. */
  method GetEssentialValuesInit(c: Cells, id: int, order: seq<string>, t: Tables) returns (values: seq<real>)
    requires |order| >= 5
    ensures values == EssentialValues(c, id, order, t)
  {
    var sol: seq<real> := [];
    if id in c.solutions {
      var w := PS.NewSolutionWrapper(order);
      sol := PS.Get(w, c.solutions[id], seq(w.numElements, _ => 0.0));
    }
    var blocks := [sol,
                   if id in c.exchanges then c.exchanges[id].read(Listed(t.exchanger, id)) else [],
                   if id in c.kinetics then c.kinetics[id].read(Listed(t.kinetics, id)) else [],
                   if id in c.equilibria then c.equilibria[id].read(Listed(t.equilibrium, id)) else [],
                   if id in c.surfaces then c.surfaces[id].read(t.primaries, Listed(t.surfaceComps, id), Listed(t.surfaceCharge, id)) else []];
    assert blocks == ValueBlocks(c, id, order, t);
    values := [];
    for i := 0 to 5
      invariant values == Concat(blocks[..i])
    {
      ConcatSnoc(blocks, i);
      values := values + blocks[i];
    }
    TakeAll(blocks);
  }

  /** One step of the third loop: dump_reactant_names, then get_essential_values_init with the cell's own names as order. */
  method ReadCell(c: Cells, id: int, sol: seq<string>, union: seq<string>, t: Tables) returns (t': Tables, raw: Raw)
    requires |sol| >= 5
    ensures t' == ReactantTables(c, id, union, t)
    ensures raw == CellRaw(c, id, sol, union, t)
  {
    var names;
    t', names := DumpReactants(c, id, union, t, SolutionOnly(sol));
    var values := GetEssentialValuesInit(c, id, sol, t');
    raw := Raw(names, values);
  }

  /** The third loop of parseInit: each cell read in turn, its entry written over any earlier one. */
  method ParseCells(c: Cells, names: map<int, seq<string>>, union: seq<string>, ids: seq<int>, t0: Tables, raws0: map<int, Raw>)
    returns (t: Tables, raws: map<int, Raw>)
    requires Sized(names) && Covers(names, ids)
    ensures t == TablesAfter(c, union, ids, t0)
    ensures raws == raws0 + Parse(c, names, union, ids, t0)
  {
    t, raws := t0, raws0;
    assert ids[..0] == [];
    MergeEmpty(raws0);
    for k := 0 to |ids|
      invariant t == TablesAfter(c, union, ids[..k], t0)
      invariant raws == raws0 + Parse(c, names, union, ids[..k], t0)
    {
      CoversFront(names, ids, k + 1);
      assert ids[..k + 1][..k] == ids[..k];
      IP.OverrideUpdate(raws0, Parse(c, names, union, ids[..k], t0), ids[k],
                        CellRaw(c, ids[k], names[ids[k]], union, TablesAfter(c, union, ids[..k], t0)));
      var raw;
      t, raw := ReadCell(c, ids[k], names[ids[k]], union, t);
      raws := raws[ids[k] := raw];
    }
    assert ids[..|ids|] == ids;
  }

  /** parseInit over the cells read: the solution names, their union, then the third loop from the member maps `t0` and entries `raws0`. */
  method ParseCellsRead(c: Cells, t0: Tables, raws0: map<int, Raw>) returns (t: Tables, raws: map<int, Raw>)
    requires Ready(c) && t0 == NoTables
    ensures t == ParseAll(c).0
    ensures raws == raws0 + ParseAll(c).1
  {
    var ids := ReadIds(c);
    var names := ReadSolutionNames(c, ids);
    TableCovers(c);
    TableSized(c);
    var union := UnionSolutionNames(names, ids);
    t, raws := ParseCells(c, names, union, ids, t0, raws0);
  }

  // ---------------------------------------------------------------- the raw entries

  /** The member maps as far as a cell's values read them: only the filled primaries. */
  function Filled(c: Cells, union: seq<string>): Tables
  {
    Tables(map[], map[], map[], map[], map[], SurfacePrimaries(union, c.primaryOf))
  }

  /** A cell's entry depends on the maps before its step only through the primaries it reads with. */
  lemma CellRawPrimaries(c: Cells, id: int, sol: seq<string>, union: seq<string>, t: Tables)
    requires |sol| >= 5
    requires id in c.surfaces ==> t.primaries == {} || t.primaries == SurfacePrimaries(union, c.primaryOf)
    ensures CellRaw(c, id, sol, union, t) == CellRaw(c, id, sol, union, Filled(c, union))
  {
    var a := ReactantTables(c, id, union, t);
    var b := ReactantTables(c, id, union, Filled(c, union));
    SurfacePrimariesHO(union, c.primaryOf);
    if id in c.surfaces {
      assert a.primaries == b.primaries;
    }
    assert ValueBlocks(c, id, sol, a) == ValueBlocks(c, id, sol, b);
  }

  /** The entry the loop stores for an ID is the cell read with the filled primaries. */
  lemma {:induction false} ParseEntry(c: Cells, names: map<int, seq<string>>, union: seq<string>, ids: seq<int>, n: int)
    requires Sized(names) && Covers(names, ids) && n in ids
    ensures n in names && n in Parse(c, names, union, ids, NoTables)
    ensures Parse(c, names, union, ids, NoTables)[n] == CellRaw(c, n, names[n], union, Filled(c, union))
    decreases |ids|
  {
    var k := |ids| - 1;
    CoversFront(names, ids, k);
    if ids[k] == n {
      TablesPrimaries(c, union, ids[..k], NoTables);
      CellRawPrimaries(c, n, names[n], union, TablesAfter(c, union, ids[..k], NoTables));
    } else {
      InSnoc(ids, n);
      ParseEntry(c, names, union, ids[..k], n);
    }
  }

  /** The surface set every surface cell reads with. */
  function Primaries(c: Cells): set<string>
    requires Ready(c)
  {
    SurfacePrimaries(SolutionUnion(c), c.primaryOf)
  }

  /** dump_solution_names of a solution read, as init_values holds it. */
  function Dumped(c: Cells, id: int): (r: seq<string>)
    requires Ready(c) && id in SolutionIds(c)
    ensures |r| >= 5
  {
    NameTableAt(c, id);
    NameTable(c)[id]
  }

  /** The entry parseInit stores for a solution read. */
  function InitRaw(c: Cells, id: int): Raw
    requires Ready(c) && id in SolutionIds(c)
  {
    CellRaw(c, id, Dumped(c, id), SolutionUnion(c), Filled(c, SolutionUnion(c)))
  }

  /** parseInit: one entry per solution read, its names and the values read with its own names as order. */
  lemma ParseAllRaws(c: Cells, n: int)
    requires Ready(c)
    ensures n in ParseAll(c).1 <==> n in SolutionIds(c)
    ensures n in SolutionIds(c) ==> ParseAll(c).1[n] == InitRaw(c, n)
  {
    TableCovers(c);
    TableSized(c);
    ParseKeys(c, NameTable(c), SolutionUnion(c), ReadIds(c), NoTables, n);
    if n in SolutionIds(c) {
      ParseEntry(c, NameTable(c), SolutionUnion(c), ReadIds(c), n);
    }
  }

  /** The entry's names: H, O and Charge, then the solution's valence states, and each present reactant's names. */
  lemma InitRawNames(c: Cells, id: int)
    requires Ready(c) && id in SolutionIds(c)
    ensures InitRaw(c, id).names == ReactantNames(c, id, Primaries(c), SolutionOnly(SolutionNames(c, id)))
    ensures InitRaw(c, id).names[PoetSol][..SkipHOCb] == HOCharge
  {
    NameTableAt(c, id);
    SurfacePrimariesHO(SolutionUnion(c), c.primaryOf);
  }

  /** A read cell has a surface. */
  predicate SomeSurface(c: Cells)
  {
    exists id :: id in SolutionIds(c) && id in c.surfaces
  }

  /** After parseInit the primaries are the filled set, with H and O, if a cell read has a surface, and empty otherwise. */
  lemma ParseAllPrimaries(c: Cells)
    requires Ready(c)
    ensures ParseAll(c).0.primaries == if SomeSurface(c) then Primaries(c) else {}
    ensures SomeSurface(c) ==> "H" in ParseAll(c).0.primaries && "O" in ParseAll(c).0.primaries
  {
    TablesPrimaries(c, SolutionUnion(c), ReadIds(c), NoTables);
    SomeSurfaceRead(c);
    SurfacePrimariesHO(SolutionUnion(c), c.primaryOf);
  }

  /** The loop meets a surface cell exactly when some cell read has a surface. */
  lemma SomeSurfaceRead(c: Cells)
    ensures HasSurface(c, ReadIds(c)) <==> SomeSurface(c)
  {
    var ids := ReadIds(c);
    if SomeSurface(c) {
      var id :| id in SolutionIds(c) && id in c.surfaces;
      var i :| 0 <= i < |ids| && ids[i] == id;
      assert ids[i] in c.surfaces;
    }
    if HasSurface(c, ids) {
      var i :| 0 <= i < |ids| && ids[i] in c.surfaces;
      assert ids[i] in SolutionIds(c);
    }
  }

  /** After parseInit the getters give the lists the wrappers filled in for a read cell that has the category, and nothing otherwise. */
  lemma StoredAfterParse(c: Cells, n: int)
    requires Ready(c)
    ensures var t := ParseAll(c).0;
      Stored(t.exchanger, n) == (if n in SolutionIds(c) && n in c.exchanges then c.exchanges[n].list else []) &&
      Stored(t.kinetics, n) == (if n in SolutionIds(c) && n in c.kinetics then c.kinetics[n].list else []) &&
      Stored(t.equilibrium, n) == (if n in SolutionIds(c) && n in c.equilibria then c.equilibria[n].list else []) &&
      (n in t.surfaceComps <==> n in SolutionIds(c) && n in c.surfaces) &&
      (n in t.surfaceCharge <==> n in SolutionIds(c) && n in c.surfaces)
  {
    TablesEntries(c, SolutionUnion(c), ReadIds(c), NoTables, n);
    if n in SolutionIds(c) {
      TablesLists(c, SolutionUnion(c), ReadIds(c), NoTables, n);
    }
  }

  /** The total length of five lists. */
  lemma FiveLengths<T>(s: seq<seq<T>>)
    requires |s| == 5
    ensures Sum(Lengths(s)) == |s[0]| + |s[1]| + |s[2]| + |s[3]| + |s[4]|
  {
    var l := Lengths(s);
    assert l[4..][1..] == [];
    assert Sum(l[4..]) == l[4];
    assert l[3..][1..] == l[4..];
    assert Sum(l[3..]) == l[3] + l[4];
    assert l[2..][1..] == l[3..];
    assert Sum(l[2..]) == l[2] + l[3] + l[4];
    assert l[1..][1..] == l[2..];
    assert Sum(l[1..]) == l[1] + l[2] + l[3] + l[4];
  }

  /** Blocks and names with one value per name: length of the whole and position of each block follow. */
  lemma BlocksMatch(b: seq<seq<real>>, e: Categories)
    requires |b| == 5 && |b[0]| == |e[0]| && |b[1]| == |e[1]| && |b[2]| == |e[2]| && |b[3]| == |e[3]| && |b[4]| == |e[4]|
    ensures |Concat(b)| == Sum(Lengths(e))
  {
    SameLengths(b, e);
    ConcatLength(b);
  }

  /** With fitting wrappers a cell's entry has exactly one value per name. */
  lemma CellRawExact(c: Cells, id: int, sol: seq<string>, union: seq<string>, t: Tables)
    requires |sol| >= 5 && id in c.solutions && CellFits(c, id, ReactantTables(c, id, union, t).primaries)
    ensures |CellRaw(c, id, sol, union, t).values| == Sum(Lengths(CellRaw(c, id, sol, union, t).names))
  {
    var t' := ReactantTables(c, id, union, t);
    SolutionBlockLength(c, id, sol);
    BlocksMatch(ValueBlocks(c, id, sol, t'), ReactantNames(c, id, t'.primaries, SolutionOnly(sol)));
  }

  /** Every read cell's wrappers give one value per name with the primaries it reads with. */
  predicate AllFit(c: Cells)
    requires Ready(c)
  {
    forall id :: id in SolutionIds(c) ==> CellFits(c, id, Primaries(c))
  }

  /** Each stored entry lines up: one value per name. */
  lemma InitRawExact(c: Cells, id: int)
    requires Ready(c) && id in SolutionIds(c) && CellFits(c, id, Primaries(c))
    ensures |InitRaw(c, id).values| == Sum(Lengths(InitRaw(c, id).names))
    ensures Consistent(InitRaw(c, id))
  {
    var u := SolutionUnion(c);
    SurfacePrimariesHO(u, c.primaryOf);
    assert ReactantTables(c, id, u, Filled(c, u)).primaries == Primaries(c);
    CellRawExact(c, id, Dumped(c, id), u, Filled(c, u));
  }

  /** parseInit leaves every entry consistent. */
  lemma ParseAllConsistent(c: Cells)
    requires Ready(c) && AllFit(c)
    ensures AllConsistent(ParseAll(c).1)
  {
    forall n | n in ParseAll(c).1 ensures Consistent(ParseAll(c).1[n]) {
      ParseAllRaws(c, n);
      InitRawExact(c, n);
    }
  }

  // ---------------------------------------------------------------- the order as written

  /**
   * Extraction.cpp passes get_essential_values_init the solution names
   * without their first three, and SolutionWrapper drops three more: the
   * values come three short of the names, so the entry is not consistent.
   */
  lemma AsWrittenShort(c: Cells, id: int, sol: seq<string>, union: seq<string>, t: Tables)
    requires |sol| >= SkipHOCb + 5 && id in c.solutions && CellFits(c, id, ReactantTables(c, id, union, t).primaries)
    ensures var r := CellRawWith(c, id, sol, sol[SkipHOCb..], union, t);
      |r.values| + SkipHOCb == Sum(Lengths(r.names)) && !Consistent(r)
  {
    var t' := ReactantTables(c, id, union, t);
    var b := ValueBlocks(c, id, sol[SkipHOCb..], t');
    var e := ReactantNames(c, id, t'.primaries, SolutionOnly(sol));
    SolutionBlockLength(c, id, sol[SkipHOCb..]);
    ConcatLength(b);
    FiveLengths(b);
    FiveLengths(e);
  }

  // ---------------------------------------------------------------- raw_dumps

  /** The command raw_dumps runs for one cell. */
  function DumpCommand(id: int): string
  {
    "DUMP\n -cells " + Text.IntString(id) + "\nEND\n"
  }

  /** Different cells are dumped with different commands. */
  lemma DumpCommandInjective(a: int, b: int)
    requires DumpCommand(a) == DumpCommand(b)
    ensures a == b
  {
    var ta, tb := Text.IntString(a) + "\nEND\n", Text.IntString(b) + "\nEND\n";
    assert DumpCommand(a) == "DUMP\n -cells " + ta;
    assert DumpCommand(b) == "DUMP\n -cells " + tb;
    Text.SameHeadTail("DUMP\n -cells ", "DUMP\n -cells ", ta, tb);
    assert Text.IntString(a) == ta[..|ta| - 5];
    assert Text.IntString(b) == tb[..|tb| - 5];
    Text.IntStringInjective(a, b);
  }

  /** The solver state and the dumps after the DUMP of each of ids in turn. */
  function Dumps<P>(s: Solver<P>, p: P, ids: seq<int>): (P, map<int, string>)
    decreases |ids|
  {
    if ids == [] then (p, map[])
    else
      var prev := Dumps(s, p, ids[..|ids| - 1]);
      var q := s.runString(prev.0, DumpCommand(ids[|ids| - 1]));
      (q, prev.1[ids[|ids| - 1] := s.dumpString(q)])
  }

  /** One dump per ID, and nothing else. */
  lemma {:induction false} DumpsKeys<P>(s: Solver<P>, p: P, ids: seq<int>, id: int)
    ensures id in Dumps(s, p, ids).1 <==> id in ids
    decreases |ids|
  {
    if ids != [] {
      var n := |ids| - 1;
      DumpsKeys(s, p, ids[..n], id);
      InSnoc(ids, id);
    }
  }

  /** The DUMP loop. */
  method DumpLoop<P>(s: Solver<P>, p: P, ids: seq<int>) returns (q: P, dumps: map<int, string>)
    ensures (q, dumps) == Dumps(s, p, ids)
  {
    q, dumps := p, map[];
    for k := 0 to |ids|
      invariant (q, dumps) == Dumps(s, p, ids[..k])
    {
      assert ids[..k + 1][..k] == ids[..k];
      q := s.runString(q, DumpCommand(ids[k]));
      dumps := dumps[ids[k] := s.dumpString(q)];
    }
    assert ids[..|ids| - 0] == ids;
  }

  // ---------------------------------------------------------------- the initialiser

  class PhreeqcInit<P> {
    const solver: Solver<P>
    var phreeqc: P
    var dumpStringOn: bool
    var rawInitials: map<int, Raw>
    /** The members exchanger, kinetics, equilibrium, surface_comps, surface_charge and surface_primaries, replaced together. */
    var tables: Tables
    var pqcMat: PhreeqcMat

    /**
     * PhreeqcInit(database, input_script): load, run, parseInit, and the
     * matrix over what parseInit read.
     */
    constructor(solver: Solver<P>, p0: P, database: string, inputScript: string)
      requires Ready(solver.cells(solver.runString(solver.loadDatabase(p0, database), inputScript)))
      requires AllFit(solver.cells(solver.runString(solver.loadDatabase(p0, database), inputScript)))
      ensures this.solver == solver && phreeqc == solver.runString(solver.loadDatabase(p0, database), inputScript)
      ensures !dumpStringOn && AllConsistent(rawInitials)
      ensures (tables, rawInitials) == ParseAll(solver.cells(phreeqc))
      ensures pqcMat == Mat(rawInitials, solver.species(phreeqc))
    {
      var p := solver.runString(solver.loadDatabase(p0, database), inputScript);
      ghost var c := solver.cells(p);
      this.solver := solver;
      phreeqc := p;
      dumpStringOn := false;
      rawInitials := map[];
      tables := NoTables;
      pqcMat := PhreeqcMat([], [], []);
      new;
      ParseInit(c);
      MergeEmpty(ParseAll(c).1);
      ParseAllConsistent(c);
      pqcMat := BuildPhreeqcMat();
    }

    /**
     * parseInit: the solution names of each cell read, their union, then
     * each cell's reactant names and values; `c` is what the IPhreeqc
     * instance holds when it starts.
     */
    method ParseInit(ghost c: Cells)
      requires c == solver.cells(phreeqc) && Ready(c) && tables == NoTables
      modifies this
      ensures phreeqc == old(phreeqc) && dumpStringOn == old(dumpStringOn) && pqcMat == old(pqcMat)
      ensures tables == ParseAll(c).0
      ensures rawInitials == old(rawInitials) + ParseAll(c).1
    {
      var t, raws := ParseCellsRead(solver.cells(phreeqc), tables, rawInitials);
      tables, rawInitials := t, raws;
    }

    /** buildPhreeqcMat: the matrix over raw_initials. */
    method BuildPhreeqcMat() returns (m: PhreeqcMat)
      requires AllConsistent(rawInitials)
      ensures m == Mat(rawInitials, solver.species(phreeqc))
    {
      m := PoetRaw.GetPhreeqcMat(rawInitials, solver.species(phreeqc));
    }

    /** getPhreeqcMat: the matrix built by the constructor, not rebuilt when later calls add entries to raw_initials. */
    method GetPhreeqcMat() returns (m: PhreeqcMat)
      ensures m == pqcMat
    {
      m := pqcMat;
    }

    /** raw_dumps: one DUMP per raw_initials ID with the dump string on, then the flag off. */
    method RawDumps() returns (dumps: map<int, string>)
      modifies this
      ensures rawInitials == old(rawInitials) && tables == old(tables) && pqcMat == old(pqcMat)
      ensures (phreeqc, dumps) == Dumps(solver, old(phreeqc), Keys(rawInitials))
      ensures forall id :: id in dumps <==> id in rawInitials
      ensures !dumpStringOn
    {
      dumpStringOn := true;
      var q, d := DumpLoop(solver, phreeqc, Keys(rawInitials));
      phreeqc := q;
      dumps := d;
      dumpStringOn := false;
      forall id ensures id in dumps <==> id in rawInitials {
        DumpsKeys(solver, old(phreeqc), Keys(rawInitials), id);
      }
    }

    /** getSolutionPrimaries: the set's elements in set order. */
    method GetSolutionPrimaries() returns (r: seq<string>)
      ensures Order.Sorted(r) && Order.Distinct(r)
      ensures forall x :: x in r <==> x in tables.primaries
    {
      r := Order.Ascending(tables.primaries);
      Order.AscendingSorted(tables.primaries);
      Order.AscendingMembers(tables.primaries);
      forall i, j | 0 <= i < j < |r| ensures r[i] != r[j] {
        Order.SortedDistinct(r, i, j);
      }
    }

    /** getSolutionNames(id): `raw_initials[id]` inserts an empty entry for an unknown ID. */
    method GetSolutionNames(id: int) returns (names: seq<string>)
      modifies this
      ensures rawInitials == if id in old(rawInitials) then old(rawInitials) else old(rawInitials)[id := NoRaw]
      ensures names == rawInitials[id].names[PoetSol]
      ensures id !in old(rawInitials) ==> names == []
      ensures phreeqc == old(phreeqc) && dumpStringOn == old(dumpStringOn) && tables == old(tables) && pqcMat == old(pqcMat)
    {
      if id !in rawInitials {
        rawInitials := rawInitials[id := NoRaw];
      }
      names := rawInitials[id].names[PoetSol];
    }

    /** getExchanger(id). */
    method GetExchanger(id: int) returns (names: seq<string>)
      ensures names == Stored(tables.exchanger, id)
    {
      names := if ContainsId(tables.exchanger, id) then tables.exchanger[id] else [];
    }

    /** getKineticsNames(id). */
    method GetKineticsNames(id: int) returns (names: seq<string>)
      ensures names == Stored(tables.kinetics, id)
    {
      names := if ContainsId(tables.kinetics, id) then tables.kinetics[id] else [];
    }

    /** getEquilibriumNames(id). */
    method GetEquilibriumNames(id: int) returns (names: seq<string>)
      ensures names == Stored(tables.equilibrium, id)
    {
      names := if ContainsId(tables.equilibrium, id) then tables.equilibrium[id] else [];
    }

    /** getSurfaceCompNames(id). */
    method GetSurfaceCompNames(id: int) returns (names: seq<string>)
      ensures names == Stored(tables.surfaceComps, id)
    {
      names := if ContainsId(tables.surfaceComps, id) then tables.surfaceComps[id] else [];
    }

    /** getSurfaceChargeNames(id). */
    method GetSurfaceChargeNames(id: int) returns (names: seq<string>)
      ensures names == Stored(tables.surfaceCharge, id)
    {
      names := if ContainsId(tables.surfaceCharge, id) then tables.surfaceCharge[id] else [];
    }

    /** getModuleSizes(cell_ids): the union sizes over the requested IDs, each missing one default-inserted. */
    method GetModuleSizes(cellIds: seq<int>) returns (sizes: seq<nat>)
      requires AllConsistent(rawInitials)
      modifies this
      ensures rawInitials == IP.WithDefaults(old(rawInitials), cellIds) && AllConsistent(rawInitials)
      ensures sizes == Sizes(AllNames(IP.Selected(old(rawInitials), cellIds), solver.species(phreeqc)))
      ensures phreeqc == old(phreeqc) && dumpStringOn == old(dumpStringOn) && tables == old(tables) && pqcMat == old(pqcMat)
    {
      var raws, sel := IP.SelectRaws(rawInitials, cellIds);
      IP.DefaultsConsistent(rawInitials, cellIds);
      rawInitials := raws;
      var names := UnionRaws(sel, solver.species(phreeqc));
      sizes := Sizes(names);
    }
  }
}
