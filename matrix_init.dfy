// PhreeqcMatrix::initialize and its helpers: every solution of the solver
// with a non-negative ID becomes a cell whose element vector lists the
// solution's slots under the union of all solutions' names, then the
// exchange, kinetics, equilibrium and surface slots in that order,
// with the exchange names replaced by the first solver species that
// starts with them. The reactant wrappers are modelled in their own
// modules; here each reactant is what its wrapper's `names` and `get`
// produce (a Block), and the solver is a value.

module MatrixInit {
  import opened Values
  import Order
  import Sol = Solution
  import Valence
  import opened Species
  import opened Matrix

  /** What one reactant's wrapper reports: the slot names, the constructor names and `get`'s slots. */
  datatype Block = Block(names: seq<string>, ctorNames: seq<string>, values: seq<real>)

  /** The same for a surface, whose names depend on the surface primaries passed in. */
  datatype SurfaceBlock = SurfaceBlock(names: seq<string>, compFormulas: seq<string>, chargeNames: seq<string>, values: seq<real>)

  /** The reactants the solver holds under one solution ID (None: Rxn_find returns NULL). */
  datatype Reactants = Reactants(
    solution: Sol.Soln,
    exchange: Option<Block>,
    kinetics: Option<Block>,
    equilibrium: Option<Block>,
    surface: Option<set<string> -> SurfaceBlock>)

  /**
   * The solver after the input script ran: the solution map (with its other
   * reactants), the species list, the master species list, master_bsearch_primary
   * and Simplify_redox.
   */
  datatype Solver = Solver(
    solutions: map<int, Reactants>,
    species: seq<string>,
    master: seq<string>,
    primaryOf: string -> Option<string>,
    simplify: map<string, real> -> map<string, real>)

  /** The solution map's IDs in map order, negative ones included. */
  function AllIds(solver: Solver): (r: seq<int>)
    ensures forall id :: id in r <==> id in solver.solutions
  {
    Order.AscendingInts(solver.solutions.Keys)
  }

  // ---------------------------------------------------------------- preconditions from the source

  /** `get` fills at least as many slots as there are names (base_add reads values[i] for each name). */
  predicate BlockFits(b: Option<Block>)
  {
    b.Some? ==> |b.value.names| <= |b.value.values|
  }

  ghost predicate SurfaceFits(f: Option<set<string> -> SurfaceBlock>)
  {
    f.Some? ==> forall p: set<string> :: |f.value(p).names| <= |f.value(p).values|
  }

  ghost predicate ReactantsFit(r: Reactants)
  {
    BlockFits(r.exchange) && BlockFits(r.kinetics) && BlockFits(r.equilibrium) && SurfaceFits(r.surface)
  }

  /**
   * With redox states on, each total of the solution outside the ignore set has
   * a primary master species (the valence loop asserts so for every name).
   */
  predicate Resolves(solver: Solver, s: Sol.Soln, withRedox: bool)
  {
    withRedox ==> forall x :: x in s.totals ==> x in Valence.Ignored || solver.primaryOf(x).Some?
  }

  /** Resolvable lists stay resolvable when joined. */
  lemma ResolvableJoin(a: seq<string>, b: seq<string>, primaryOf: string -> Option<string>)
    requires Valence.Resolvable(a, Valence.Ignored, primaryOf) && Valence.Resolvable(b, Valence.Ignored, primaryOf)
    ensures Valence.Resolvable(a + b, Valence.Ignored, primaryOf)
  {
    assert forall i :: |a| <= i < |a + b| ==> (a + b)[i] == b[i - |a|];
  }

  /** The totals the wrapper lists past H(0) and O(0) resolve. */
  lemma TotalNamesResolve(solver: Solver, s: Sol.Soln)
    requires Resolves(solver, s, true)
    ensures Valence.Resolvable(Sol.TotalNames(s.totals), Valence.Ignored, solver.primaryOf)
  {
    var total := Sol.TotalNames(s.totals);
    Sol.TotalNamesShape(s.totals);
    assert forall i :: 0 <= i < |total| ==> total[i] in total;
  }

  /** Then every name the solution wrapper lists resolves: the essentials, H(0) and O(0) are ignored. */
  lemma ResolvesNames(solver: Solver, s: Sol.Soln, withH0O0: bool, withRedox: bool)
    requires Resolves(solver, s, withRedox) && withRedox
    ensures Valence.Resolvable(Sol.Names(s, withH0O0, withRedox, solver.simplify), Valence.Ignored, solver.primaryOf)
  {
    EssentialsIgnored();
    TotalNamesResolve(solver, s);
    var front: seq<string> := if withH0O0 then Sol.RedoxHO else [];
    assert Valence.Resolvable(front, Valence.Ignored, solver.primaryOf);
    ResolvableJoin(front, Sol.TotalNames(s.totals), solver.primaryOf);
    ResolvableJoin(Sol.Essentials, Sol.OrderedNames(s.totals, withH0O0), solver.primaryOf);
  }

  /** What initialize relies on for the solution stored under id. */
  ghost predicate CellReady(solver: Solver, id: int, withRedox: bool)
  {
    id in solver.solutions ==>
      ReactantsFit(solver.solutions[id]) && Resolves(solver, solver.solutions[id].solution, withRedox)
  }

  /** What initialize relies on for each solution it reads (those with a non-negative ID). */
  ghost predicate Ready(solver: Solver, withRedox: bool)
  {
    forall id :: id >= 0 ==> CellReady(solver, id, withRedox)
  }

  // ---------------------------------------------------------------- find_all_solutions

  /** dump_solution_names: the wrapper's names, expanded into valence states when redox is on. */
  function SolutionNames(solver: Solver, s: Sol.Soln, withH0O0: bool, withRedox: bool): seq<string>
    requires Resolves(solver, s, withRedox)
  {
    var names := Sol.Names(s, withH0O0, withRedox, solver.simplify);
    if withRedox then
      ResolvesNames(solver, s, withH0O0, withRedox);
      Valence.WithValences(names, solver.master, solver.primaryOf)
    else names
  }

  /** The name list of the solution stored under a non-negative ID. */
  function NamesOf(solver: Solver, id: int, withH0O0: bool, withRedox: bool): seq<string>
    requires Ready(solver, withRedox) && id in solver.solutions && id >= 0
  {
    assert CellReady(solver, id, withRedox);
    SolutionNames(solver, solver.solutions[id].solution, withH0O0, withRedox)
  }

  /** The name list of every solution `find_all_solutions` reads. */
  function NameTable(solver: Solver, withH0O0: bool, withRedox: bool): (t: map<int, seq<string>>)
    requires Ready(solver, withRedox)
    ensures forall id :: id in t <==> id in solver.solutions && id >= 0
  {
    map id | id in solver.solutions && id >= 0 :: NamesOf(solver, id, withH0O0, withRedox)
  }

  /** Every non-negative ID of ids has a list in the table. */
  predicate Covers(table: map<int, seq<string>>, ids: seq<int>)
  {
    forall i :: 0 <= i < |ids| && ids[i] >= 0 ==> ids[i] in table
  }

  lemma CoversFront(table: map<int, seq<string>>, ids: seq<int>, n: nat)
    requires Covers(table, ids) && n <= |ids|
    ensures Covers(table, ids[..n])
  {
    assert forall i :: 0 <= i < n ==> ids[..n][i] == ids[i];
  }

  /** The lists `find_all_solutions` collects while walking the IDs, skipping negative ones. */
  function Collect(table: map<int, seq<string>>, ids: seq<int>): seq<seq<string>>
    requires Covers(table, ids)
    decreases |ids|
  {
    if ids == [] then []
    else
      var n := |ids| - 1;
      CoversFront(table, ids, n);
      if ids[n] < 0 then Collect(table, ids[..n]) else Collect(table, ids[..n]) + [table[ids[n]]]
  }

  /** The std::set_union fold over the collected lists, from an empty vector. */
  function Union(lists: seq<seq<string>>): seq<string>
    decreases |lists|
  {
    if lists == [] then [] else Order.SetUnion(Union(lists[..|lists| - 1]), lists[|lists| - 1])
  }

  /** find_all_solutions. */
  function AllSolutionNames(solver: Solver, withH0O0: bool, withRedox: bool): seq<string>
    requires Ready(solver, withRedox)
  {
    Union(Collect(NameTable(solver, withH0O0, withRedox), AllIds(solver)))
  }

  /** Some list holds x. */
  predicate InSomeList(lists: seq<seq<string>>, x: string)
  {
    exists k :: 0 <= k < |lists| && x in lists[k]
  }

  lemma InSomeListSnoc(lists: seq<seq<string>>, last: seq<string>, x: string)
    ensures InSomeList(lists + [last], x) <==> InSomeList(lists, x) || x in last
  {
    var all := lists + [last];
    assert all[|lists|] == last;
    if InSomeList(lists, x) {
      var k :| 0 <= k < |lists| && x in lists[k];
      assert all[k] == lists[k];
    }
    if InSomeList(all, x) {
      var k :| 0 <= k < |all| && x in all[k];
      if k < |lists| { assert all[k] == lists[k]; }
    }
  }

  /** The union holds exactly the names of the lists (in whatever order they come). */
  lemma {:induction false} UnionMembers(lists: seq<seq<string>>, x: string)
    ensures x in Union(lists) <==> InSomeList(lists, x)
    decreases |lists|
  {
    if lists != [] {
      var n := |lists| - 1;
      UnionMembers(lists[..n], x);
      Order.SetUnionElements(Union(lists[..n]), lists[n]);
      assert lists == lists[..n] + [lists[n]];
      InSomeListSnoc(lists[..n], lists[n], x);
    }
  }

  /** Some non-negative ID of ids has x in its list. */
  predicate ListedBy(table: map<int, seq<string>>, ids: seq<int>, x: string)
    requires Covers(table, ids)
  {
    exists i :: 0 <= i < |ids| && ids[i] >= 0 && x in table[ids[i]]
  }

  lemma ListedBySnoc(table: map<int, seq<string>>, ids: seq<int>, x: string)
    requires Covers(table, ids) && ids != []
    ensures Covers(table, ids[..|ids| - 1])
    ensures ListedBy(table, ids, x) <==>
      ListedBy(table, ids[..|ids| - 1], x) || (ids[|ids| - 1] >= 0 && x in table[ids[|ids| - 1]])
  {
    var n := |ids| - 1;
    var front := ids[..n];
    CoversFront(table, ids, n);
    if ListedBy(table, ids, x) {
      var i :| 0 <= i < |ids| && ids[i] >= 0 && x in table[ids[i]];
      if i < n { assert front[i] == ids[i]; }
    }
    if ListedBy(table, front, x) {
      var i :| 0 <= i < |front| && front[i] >= 0 && x in table[front[i]];
      assert ids[i] == front[i];
    }
  }

  /** Each collected list belongs to a non-negative ID, and each such ID has its list collected. */
  lemma {:induction false} CollectMembers(table: map<int, seq<string>>, ids: seq<int>, x: string)
    requires Covers(table, ids)
    ensures InSomeList(Collect(table, ids), x) <==> ListedBy(table, ids, x)
    decreases |ids|
  {
    if ids != [] {
      var n := |ids| - 1;
      ListedBySnoc(table, ids, x);
      CollectMembers(table, ids[..n], x);
      if ids[n] >= 0 {
        InSomeListSnoc(Collect(table, ids[..n]), table[ids[n]], x);
      }
    }
  }

  /** A name is in find_all_solutions' result exactly when a solution with a non-negative ID lists it. */
  lemma AllSolutionNamesMembers(solver: Solver, withH0O0: bool, withRedox: bool, x: string)
    requires Ready(solver, withRedox)
    ensures x in AllSolutionNames(solver, withH0O0, withRedox) <==>
      exists id :: id in solver.solutions && id >= 0 && x in NamesOf(solver, id, withH0O0, withRedox)
  {
    var table := NameTable(solver, withH0O0, withRedox);
    var ids := AllIds(solver);
    UnionMembers(Collect(table, ids), x);
    CollectMembers(table, ids, x);
    if exists id :: id in solver.solutions && id >= 0 && x in NamesOf(solver, id, withH0O0, withRedox) {
      var id :| id in solver.solutions && id >= 0 && x in NamesOf(solver, id, withH0O0, withRedox);
      var i :| 0 <= i < |ids| && ids[i] == id;
      assert table[ids[i]] == NamesOf(solver, id, withH0O0, withRedox);
    }
  }

  /** Merging two lists with the same front keeps the front: equal heads are emitted once. */
  lemma {:induction false} SetUnionCommonFront(p: seq<string>, a: seq<string>, b: seq<string>)
    ensures Order.SetUnion(p + a, p + b) == p + Order.SetUnion(a, b)
  {
    if p == [] {
      assert p + a == a && p + b == b;
    } else {
      Order.LtIrreflexive(p[0]);
      var pa, pb := p + a, p + b;
      assert pa[0] == p[0] && pb[0] == p[0];
      assert pa[1..] == p[1..] + a;
      assert pb[1..] == p[1..] + b;
      SetUnionCommonFront(p[1..], a, b);
      assert p == [p[0]] + p[1..];
    }
  }

  /** s starts with the names of p. */
  predicate Begins(s: seq<string>, p: seq<string>)
  {
    |p| <= |s| && s[..|p|] == p
  }

  /** When every list starts with p, so does their union (provided there is a list). */
  lemma {:induction false} UnionFront(lists: seq<seq<string>>, p: seq<string>)
    requires lists != []
    requires forall k :: 0 <= k < |lists| ==> Begins(lists[k], p)
    ensures Begins(Union(lists), p)
    decreases |lists|
  {
    var n := |lists| - 1;
    var last := lists[n];
    assert last == p + last[|p|..];
    if n == 0 {
      assert lists[..0] == [];
      assert Union(lists) == Order.SetUnion([], last);
    } else {
      var front := lists[..n];
      assert forall k :: 0 <= k < |front| ==> front[k] == lists[k];
      UnionFront(front, p);
      var u := Union(front);
      assert u == p + u[|p|..];
      SetUnionCommonFront(p, u[|p|..], last[|p|..]);
      assert Union(lists) == Order.SetUnion(u, last);
    }
  }

  /** Every table entry starts with p. */
  predicate AllBegin(table: map<int, seq<string>>, p: seq<string>)
  {
    forall id :: id in table ==> Begins(table[id], p)
  }

  /** So does every collected list, and there is one as soon as a non-negative ID comes up. */
  lemma {:induction false} CollectFront(table: map<int, seq<string>>, ids: seq<int>, p: seq<string>)
    requires Covers(table, ids) && AllBegin(table, p)
    ensures forall k :: 0 <= k < |Collect(table, ids)| ==> Begins(Collect(table, ids)[k], p)
    ensures (exists i :: 0 <= i < |ids| && ids[i] >= 0) ==> Collect(table, ids) != []
    decreases |ids|
  {
    if ids != [] {
      var n := |ids| - 1;
      CoversFront(table, ids, n);
      CollectFront(table, ids[..n], p);
      if exists i :: 0 <= i < |ids| && ids[i] >= 0 {
        var i :| 0 <= i < |ids| && ids[i] >= 0;
        if i < n { assert ids[..n][i] == ids[i]; }
      }
    }
  }

  /** The essentials are all in the ignore set of the valence expansion. */
  lemma EssentialsIgnored()
    ensures forall i :: 0 <= i < |Sol.Essentials| ==> Sol.Essentials[i] in Valence.Ignored
  {
  }

  /** Every name list starts with the eight essentials, expanded or not. */
  lemma SolutionNamesFront(solver: Solver, s: Sol.Soln, withH0O0: bool, withRedox: bool)
    requires Resolves(solver, s, withRedox)
    ensures Begins(SolutionNames(solver, s, withH0O0, withRedox), Sol.Essentials)
  {
    var names := Sol.Names(s, withH0O0, withRedox, solver.simplify);
    assert |Sol.Essentials| == Sol.NumEssentials;
    assert names[..Sol.NumEssentials] == Sol.Essentials;
    if withRedox {
      EssentialsIgnored();
      ResolvesNames(solver, s, withH0O0, withRedox);
      Valence.IgnoredPrefix(names, solver.master, solver.primaryOf, Sol.NumEssentials);
    }
  }

  lemma TableFront(solver: Solver, withH0O0: bool, withRedox: bool)
    requires Ready(solver, withRedox)
    ensures AllBegin(NameTable(solver, withH0O0, withRedox), Sol.Essentials)
  {
    var table := NameTable(solver, withH0O0, withRedox);
    forall id | id in table ensures Begins(table[id], Sol.Essentials) {
      assert CellReady(solver, id, withRedox);
      SolutionNamesFront(solver, solver.solutions[id].solution, withH0O0, withRedox);
    }
  }

  /** Once there is a solution with a non-negative ID the union starts with the essentials. */
  lemma AllSolutionNamesFront(solver: Solver, withH0O0: bool, withRedox: bool)
    requires Ready(solver, withRedox)
    requires exists id :: id in solver.solutions && id >= 0
    ensures Begins(AllSolutionNames(solver, withH0O0, withRedox), Sol.Essentials)
    ensures |AllSolutionNames(solver, withH0O0, withRedox)| >= Sol.NumEssentials
  {
    var table := NameTable(solver, withH0O0, withRedox);
    var ids := AllIds(solver);
    var id :| id in solver.solutions && id >= 0;
    var i :| 0 <= i < |ids| && ids[i] == id;
    TableFront(solver, withH0O0, withRedox);
    CollectFront(table, ids, Sol.Essentials);
    UnionFront(Collect(table, ids), Sol.Essentials);
  }

  // ---------------------------------------------------------------- create_vector_from_phreeqc

  /** The elements base_add appends: name i with slot i, of one category. */
  function Tagged(names: seq<string>, kind: Component, values: seq<real>): seq<Element>
    requires |names| <= |values|
  {
    seq(|names|, i requires 0 <= i < |names| => Element(names[i], kind, Num(values[i])))
  }

  /** The base names a wrapper's constructor names become. */
  function Bases(names: seq<string>, kind: BaseKind): seq<BaseName>
  {
    seq(|names|, i requires 0 <= i < |names| => BaseName(kind, names[i]))
  }

  /** What a cell's vectors hold so far, and the surface primaries as they stand. */
  datatype Vector = Vector(elements: seq<Element>, bases: seq<BaseName>, primaries: set<string>)

  /** ex_ki_eq_add_to_element_vector: nothing for a missing reactant. */
  function AddReactant(v: Vector, b: Option<Block>, kind: Component, base: BaseKind): Vector
    requires BlockFits(b)
  {
    if b.None? then v
    else Vector(v.elements + Tagged(b.value.names, kind, b.value.values), v.bases + Bases(b.value.ctorNames, base), v.primaries)
  }

  /** The primaries surface_add_to_element_vector inserts: H, O and those of the solution names past the third. */
  function SurfacePrimaries(p: set<string>, names: seq<string>, primaryOf: string -> Option<string>): set<string>
  {
    p + {"H", "O"} + (set i | 3 <= i < |names| && primaryOf(names[i]).Some? :: primaryOf(names[i]).value)
  }

  /** surface_add_to_element_vector. */
  function AddSurface(v: Vector, f: Option<set<string> -> SurfaceBlock>, names: seq<string>, primaryOf: string -> Option<string>): Vector
    requires SurfaceFits(f)
  {
    if f.None? then v
    else
      var p := SurfacePrimaries(v.primaries, names, primaryOf);
      var sb := f.value(p);
      Vector(v.elements + Tagged(sb.names, SurfaceComps, sb.values),
             v.bases + Bases(sb.compFormulas, SurfaceComp) + Bases(sb.chargeNames, SurfaceCharge), p)
  }

  /** The exchange renaming of one element. */
  function Rename(e: Element, species: seq<string>): Element
  {
    if e.kind != Exchange then e
    else
      match FirstWithPrefix(species, e.name)
      case None => e
      case Some(s) => e.(name := s)
  }

  function Renamed(elements: seq<Element>, species: seq<string>): seq<Element>
  {
    seq(|elements|, i requires 0 <= i < |elements| => Rename(elements[i], species))
  }

  /** SolutionWrapper::get on the union of names: one slot per name. */
  function SolutionSlots(r: Reactants, names: seq<string>, withRedox: bool, simplify: map<string, real> -> map<string, real>): (v: seq<real>)
    requires |names| >= Sol.NumEssentials
    ensures |v| == |names|
  {
    Sol.Slots(Sol.NewSolutionWrapper(names, withRedox), r.solution, simplify)
  }

  /** The cell before the exchange names are substituted. */
  function Collected(r: Reactants, names: seq<string>, slots: seq<real>, p: set<string>, primaryOf: string -> Option<string>): Vector
    requires |names| <= |slots| && ReactantsFit(r)
  {
    AddSurface(Reacted(r, names, slots, p), r.surface, names, primaryOf)
  }

  /** The cell after the solution, exchange, kinetics and equilibrium blocks. */
  function Reacted(r: Reactants, names: seq<string>, slots: seq<real>, p: set<string>): Vector
    requires |names| <= |slots| && ReactantsFit(r)
  {
    var v0 := Vector(Tagged(names, Solution, slots), [], p);
    var v1 := AddReactant(v0, r.exchange, Exchange, Exchanger);
    var v2 := AddReactant(v1, r.kinetics, Kinetic, Kinetics);
    AddReactant(v2, r.equilibrium, Equilibrium, EquilibriumPhase)
  }

  /** The exchange block added elements (the size grew past the solution's). */
  predicate HasExchange(r: Reactants)
  {
    r.exchange.Some? && |r.exchange.value.names| > 0
  }

  /** create_vector_from_phreeqc for one reactant set. */
  function CellVector(solver: Solver, r: Reactants, names: seq<string>, p: set<string>, withRedox: bool): Vector
    requires |names| >= Sol.NumEssentials && ReactantsFit(r)
  {
    var v := Collected(r, names, SolutionSlots(r, names, withRedox, solver.simplify), p, solver.primaryOf);
    if HasExchange(r) then v.(elements := Renamed(v.elements, solver.species)) else v
  }

  // ---------------------------------------------------------------- properties of one cell

  /** Tagged elements all have the given category. */
  lemma TaggedKinds(names: seq<string>, kind: Component, values: seq<real>)
    requires |names| <= |values|
    ensures forall e :: e in Tagged(names, kind, values) ==> e.kind == kind
  {
  }

  /** The renaming only touches exchange names: categories and values stay. */
  lemma RenameKeeps(e: Element, species: seq<string>)
    ensures Rename(e, species).kind == e.kind && Rename(e, species).value == e.value
    ensures e.kind != Exchange ==> Rename(e, species) == e
    ensures e.kind == Exchange ==>
      (Rename(e, species).name == e.name && forall j :: 0 <= j < |species| ==> !Order.StartsWith(species[j], e.name)) ||
      exists k :: 0 <= k < |species| && species[k] == Rename(e, species).name && Order.StartsWith(species[k], e.name) &&
        forall j :: 0 <= j < k ==> !Order.StartsWith(species[j], e.name)
  {
    FirstWithPrefixFound(species, e.name);
  }

  /** The has_exchange guard only saves work: without exchange elements the renaming changes nothing. */
  lemma RenamedIdle(elements: seq<Element>, species: seq<string>)
    requires forall i :: 0 <= i < |elements| ==> elements[i].kind != Exchange
    ensures Renamed(elements, species) == elements
  {
  }

  /** Only the exchange block contributes exchange elements. */
  lemma CollectedExchange(r: Reactants, names: seq<string>, slots: seq<real>, p: set<string>, primaryOf: string -> Option<string>)
    requires |names| <= |slots| && ReactantsFit(r)
    requires !HasExchange(r)
    ensures forall i :: 0 <= i < |Collected(r, names, slots, p, primaryOf).elements| ==>
      Collected(r, names, slots, p, primaryOf).elements[i].kind != Exchange
  {
    var v0 := Vector(Tagged(names, Solution, slots), [], p);
    var v1 := AddReactant(v0, r.exchange, Exchange, Exchanger);
    assert v1.elements == v0.elements || (r.exchange.Some? && v1.elements == v0.elements + []);
    var v2 := AddReactant(v1, r.kinetics, Kinetic, Kinetics);
    var v3 := AddReactant(v2, r.equilibrium, Equilibrium, EquilibriumPhase);
    var v4 := AddSurface(v3, r.surface, names, primaryOf);
    assert forall e :: e in v1.elements ==> e.kind == Solution;
    assert forall e :: e in v2.elements ==> e.kind == Solution || e.kind == Kinetic;
    assert forall e :: e in v3.elements ==> e.kind == Solution || e.kind == Kinetic || e.kind == Equilibrium;
    assert forall e :: e in v4.elements ==> e.kind == Solution || e.kind == Kinetic || e.kind == Equilibrium || e.kind == SurfaceComps;
    assert forall i :: 0 <= i < |v4.elements| ==> v4.elements[i] in v4.elements;
  }

  /** So every cell vector is the renamed collection, whether the guard held or not. */
  lemma CellVectorRenamed(solver: Solver, r: Reactants, names: seq<string>, p: set<string>, withRedox: bool)
    requires |names| >= Sol.NumEssentials && ReactantsFit(r)
    ensures CellVector(solver, r, names, p, withRedox).elements ==
      Renamed(Collected(r, names, SolutionSlots(r, names, withRedox, solver.simplify), p, solver.primaryOf).elements, solver.species)
  {
    var slots := SolutionSlots(r, names, withRedox, solver.simplify);
    if !HasExchange(r) {
      CollectedExchange(r, names, slots, p, solver.primaryOf);
      RenamedIdle(Collected(r, names, slots, p, solver.primaryOf).elements, solver.species);
    }
  }

  /** The ranks of the categories never decrease along an element vector. */
  predicate InCategoryOrder(elements: seq<Element>)
  {
    forall i, j :: 0 <= i < j < |elements| ==> Code(elements[i].kind) <= Code(elements[j].kind)
  }

  /**
   * es is in category order with ranks up to k, starts with `front` and has no
   * solution element after it.
   */
  predicate Layered(es: seq<Element>, front: seq<Element>, k: nat)
  {
    InCategoryOrder(es) && (forall i :: 0 <= i < |es| ==> Code(es[i].kind) <= k) &&
    |front| <= |es| && es[..|front|] == front && (forall i :: |front| <= i < |es| ==> es[i].kind != Solution)
  }

  /** base_add of a later category keeps the layering. */
  lemma LayeredAppend(a: seq<Element>, front: seq<Element>, names: seq<string>, kind: Component, values: seq<real>)
    requires |names| <= |values| && kind != Solution
    requires Layered(a, front, Code(kind))
    ensures Layered(a + Tagged(names, kind, values), front, Code(kind))
  {
    var t := Tagged(names, kind, values);
    var s := a + t;
    assert forall i :: 0 <= i < |a| ==> s[i] == a[i];
    assert forall i :: |a| <= i < |s| ==> s[i] == t[i - |a|];
    assert s[..|front|] == a[..|front|];
  }

  lemma AddReactantLayered(v: Vector, b: Option<Block>, kind: Component, base: BaseKind, front: seq<Element>)
    requires BlockFits(b) && kind != Solution
    requires Layered(v.elements, front, Code(kind))
    ensures Layered(AddReactant(v, b, kind, base).elements, front, Code(kind))
  {
    if b.Some? {
      LayeredAppend(v.elements, front, b.value.names, kind, b.value.values);
    }
  }

  lemma AddSurfaceLayered(v: Vector, f: Option<set<string> -> SurfaceBlock>, names: seq<string>, primaryOf: string -> Option<string>, front: seq<Element>)
    requires SurfaceFits(f)
    requires Layered(v.elements, front, Code(SurfaceComps))
    ensures Layered(AddSurface(v, f, names, primaryOf).elements, front, Code(SurfaceComps))
  {
    if f.Some? {
      var sb := f.value(SurfacePrimaries(v.primaries, names, primaryOf));
      LayeredAppend(v.elements, front, sb.names, SurfaceComps, sb.values);
    }
  }

  /** The renaming keeps categories, and leaves solution elements alone. */
  lemma RenamedLayered(es: seq<Element>, front: seq<Element>, species: seq<string>)
    requires Layered(es, front, Code(SurfaceComps))
    requires forall i :: 0 <= i < |front| ==> front[i].kind == Solution
    ensures Layered(Renamed(es, species), front, Code(SurfaceComps))
  {
    var r := Renamed(es, species);
    forall i | 0 <= i < |es| ensures r[i].kind == es[i].kind && (es[i].kind == Solution ==> r[i] == es[i]) {
      RenameKeeps(es[i], species);
    }
    assert forall i :: 0 <= i < |front| ==> es[i] == front[i];
    assert r[..|front|] == front;
  }

  /** After the first three blocks: the solution block, then exchange, kinetics and equilibrium elements. */
  lemma ReactedLayered(r: Reactants, names: seq<string>, slots: seq<real>, p: set<string>)
    requires |names| <= |slots| && ReactantsFit(r)
    ensures Layered(Reacted(r, names, slots, p).elements, Tagged(names, Solution, slots), Code(Equilibrium))
  {
    var e0 := Tagged(names, Solution, slots);
    assert e0[..|e0|] == e0;
    var v0 := Vector(e0, [], p);
    assert Layered(v0.elements, e0, Code(Exchange));
    var v1 := AddReactant(v0, r.exchange, Exchange, Exchanger);
    AddReactantLayered(v0, r.exchange, Exchange, Exchanger, e0);
    var v2 := AddReactant(v1, r.kinetics, Kinetic, Kinetics);
    AddReactantLayered(v1, r.kinetics, Kinetic, Kinetics, e0);
    AddReactantLayered(v2, r.equilibrium, Equilibrium, EquilibriumPhase, e0);
  }

  /** The elements of the collected cell: the solution block, then the later categories in order. */
  lemma CollectedLayered(r: Reactants, names: seq<string>, slots: seq<real>, p: set<string>, primaryOf: string -> Option<string>)
    requires |names| <= |slots| && ReactantsFit(r)
    ensures Layered(Collected(r, names, slots, p, primaryOf).elements, Tagged(names, Solution, slots), Code(SurfaceComps))
  {
    ReactedLayered(r, names, slots, p);
    AddSurfaceLayered(Reacted(r, names, slots, p), r.surface, names, primaryOf, Tagged(names, Solution, slots));
  }

  /** The same holds for the cell vector after the exchange renaming. */
  lemma CellVectorLayered(solver: Solver, r: Reactants, names: seq<string>, p: set<string>, withRedox: bool)
    requires |names| >= Sol.NumEssentials && ReactantsFit(r)
    ensures Layered(CellVector(solver, r, names, p, withRedox).elements,
                    Tagged(names, Solution, SolutionSlots(r, names, withRedox, solver.simplify)), Code(SurfaceComps))
  {
    var slots := SolutionSlots(r, names, withRedox, solver.simplify);
    var e0 := Tagged(names, Solution, slots);
    CollectedLayered(r, names, slots, p, solver.primaryOf);
    CellVectorRenamed(solver, r, names, p, withRedox);
    RenamedLayered(Collected(r, names, slots, p, solver.primaryOf).elements, e0, solver.species);
  }

  /**
   * The solution slots come first, then exchange, kinetics, equilibrium and
   * surface slots, each in its wrapper's order; the renaming keeps this.
   */
  lemma CellVectorOrdered(solver: Solver, r: Reactants, names: seq<string>, p: set<string>, withRedox: bool)
    requires |names| >= Sol.NumEssentials && ReactantsFit(r)
    ensures InCategoryOrder(CellVector(solver, r, names, p, withRedox).elements)
  {
    CellVectorLayered(solver, r, names, p, withRedox);
  }

  /** A run of solution elements followed by something else reads back as its names. */
  lemma {:induction false} SolutionPrefixOf(elements: seq<Element>, names: seq<string>)
    requires |names| <= |elements|
    requires forall i :: 0 <= i < |names| ==> elements[i].kind == Solution && elements[i].name == names[i]
    requires |names| < |elements| ==> elements[|names|].kind != Solution
    ensures SolutionPrefix(elements) == names
  {
    if names != [] {
      assert forall i :: 0 <= i < |names| - 1 ==> elements[1..][i] == elements[i + 1];
      SolutionPrefixOf(elements[1..], names[1..]);
    }
  }

  /**
   * The cell starts with one solution element per name of the union, holding
   * the solution wrapper's slot for it, and nothing after that is a solution
   * element: `getSolutionNames` reads back the union.
   */
  lemma CellVectorSolution(solver: Solver, r: Reactants, names: seq<string>, p: set<string>, withRedox: bool)
    requires |names| >= Sol.NumEssentials && ReactantsFit(r)
    ensures |names| <= |CellVector(solver, r, names, p, withRedox).elements|
    ensures forall i :: 0 <= i < |names| ==>
      CellVector(solver, r, names, p, withRedox).elements[i] == Element(names[i], Solution, Num(SolutionSlots(r, names, withRedox, solver.simplify)[i]))
    ensures SolutionPrefix(CellVector(solver, r, names, p, withRedox).elements) == names
  {
    var e0 := Tagged(names, Solution, SolutionSlots(r, names, withRedox, solver.simplify));
    var es := CellVector(solver, r, names, p, withRedox).elements;
    CellVectorLayered(solver, r, names, p, withRedox);
    assert forall i :: 0 <= i < |names| ==> es[i] == es[..|e0|][i] == e0[i];
    SolutionPrefixOf(es, names);
  }

  // ---------------------------------------------------------------- internal names and primaries of one cell

  /** The constructor names a reactant contributes, none when it is missing. */
  function CtorNames(b: Option<Block>): seq<string>
  {
    if b.None? then [] else b.value.ctorNames
  }

  /** Names of one kind read back from a run of base names of a single kind. */
  lemma {:induction false} BaseNamesOfBases(names: seq<string>, k: BaseKind, kind: BaseKind)
    ensures BaseNames(Bases(names, k), kind) == if k == kind then names else []
  {
    if names != [] {
      assert Bases(names, k)[1..] == Bases(names[1..], k);
      BaseNamesOfBases(names[1..], k, kind);
      assert names == [names[0]] + names[1..];
    }
  }

  /** What AddReactant appends to the base names, read back per kind. */
  lemma AddReactantBases(v: Vector, b: Option<Block>, kind: Component, base: BaseKind, k: BaseKind)
    requires BlockFits(b)
    ensures base == k ==> BaseNames(AddReactant(v, b, kind, base).bases, k) == BaseNames(v.bases, k) + CtorNames(b)
    ensures base != k ==> BaseNames(AddReactant(v, b, kind, base).bases, k) == BaseNames(v.bases, k)
    ensures AddReactant(v, b, kind, base).primaries == v.primaries
  {
    if b.Some? {
      BaseNamesAppend(v.bases, Bases(b.value.ctorNames, base), k);
      BaseNamesOfBases(b.value.ctorNames, base, k);
      assert BaseNames(v.bases, k) + [] == BaseNames(v.bases, k);
    } else {
      assert BaseNames(v.bases, k) + [] == BaseNames(v.bases, k);
    }
  }

  /** The surface block a cell is built with, once the primaries are updated. */
  function SurfaceOf(r: Reactants, names: seq<string>, p: set<string>, primaryOf: string -> Option<string>): SurfaceBlock
    requires r.surface.Some?
  {
    r.surface.value(SurfacePrimaries(p, names, primaryOf))
  }

  /** The constructor names a cell reports for one kind of internal name. */
  function Reported(r: Reactants, names: seq<string>, p: set<string>, primaryOf: string -> Option<string>, k: BaseKind): seq<string>
  {
    match k
    case Exchanger => CtorNames(r.exchange)
    case Kinetics => CtorNames(r.kinetics)
    case EquilibriumPhase => CtorNames(r.equilibrium)
    case SurfaceComp => if r.surface.None? then [] else SurfaceOf(r, names, p, primaryOf).compFormulas
    case SurfaceCharge => if r.surface.None? then [] else SurfaceOf(r, names, p, primaryOf).chargeNames
  }

  /** The internal names after the first three blocks: each kind from its own block. */
  lemma ReactedBases(r: Reactants, names: seq<string>, slots: seq<real>, p: set<string>, k: BaseKind)
    requires |names| <= |slots| && ReactantsFit(r)
    ensures BaseNames(Reacted(r, names, slots, p).bases, k) ==
      if k == Exchanger then CtorNames(r.exchange)
      else if k == Kinetics then CtorNames(r.kinetics)
      else if k == EquilibriumPhase then CtorNames(r.equilibrium)
      else []
    ensures Reacted(r, names, slots, p).primaries == p
  {
    var v0 := Vector(Tagged(names, Solution, slots), [], p);
    var v1 := AddReactant(v0, r.exchange, Exchange, Exchanger);
    AddReactantBases(v0, r.exchange, Exchange, Exchanger, k);
    var v2 := AddReactant(v1, r.kinetics, Kinetic, Kinetics);
    AddReactantBases(v1, r.kinetics, Kinetic, Kinetics, k);
    AddReactantBases(v2, r.equilibrium, Equilibrium, EquilibriumPhase, k);
    assert BaseNames(v0.bases, k) == [];
    assert [] + CtorNames(r.exchange) == CtorNames(r.exchange);
    assert [] + CtorNames(r.kinetics) == CtorNames(r.kinetics);
    assert [] + CtorNames(r.equilibrium) == CtorNames(r.equilibrium);
  }

  lemma CollectedBases(r: Reactants, names: seq<string>, slots: seq<real>, p: set<string>, primaryOf: string -> Option<string>, k: BaseKind)
    requires |names| <= |slots| && ReactantsFit(r)
    ensures BaseNames(Collected(r, names, slots, p, primaryOf).bases, k) == Reported(r, names, p, primaryOf, k)
    ensures Collected(r, names, slots, p, primaryOf).primaries ==
      if r.surface.Some? then SurfacePrimaries(p, names, primaryOf) else p
  {
    var v3 := Reacted(r, names, slots, p);
    ReactedBases(r, names, slots, p, k);
    if r.surface.Some? {
      var sb := SurfaceOf(r, names, p, primaryOf);
      BaseNamesAppend(v3.bases + Bases(sb.compFormulas, SurfaceComp), Bases(sb.chargeNames, SurfaceCharge), k);
      BaseNamesAppend(v3.bases, Bases(sb.compFormulas, SurfaceComp), k);
      BaseNamesOfBases(sb.compFormulas, SurfaceComp, k);
      BaseNamesOfBases(sb.chargeNames, SurfaceCharge, k);
      if k == SurfaceComp {
        assert [] + sb.compFormulas + [] == sb.compFormulas;
      } else if k == SurfaceCharge {
        assert [] + [] + sb.chargeNames == sb.chargeNames;
      } else {
        assert BaseNames(v3.bases, k) + [] + [] == BaseNames(v3.bases, k);
      }
    }
  }

  /**
   * The internal names of a cell: per kind exactly the constructor names its
   * wrapper reported (getExchanger, getKineticsNames, getEquilibriumNames read
   * these back), and the surface's formulas and charge names; the primaries
   * are updated by a surface and untouched otherwise.
   */
  lemma CellVectorBases(solver: Solver, r: Reactants, names: seq<string>, p: set<string>, withRedox: bool, k: BaseKind)
    requires |names| >= Sol.NumEssentials && ReactantsFit(r)
    ensures BaseNames(CellVector(solver, r, names, p, withRedox).bases, k) == Reported(r, names, p, solver.primaryOf, k)
    ensures CellVector(solver, r, names, p, withRedox).primaries ==
      if r.surface.Some? then SurfacePrimaries(p, names, solver.primaryOf) else p
  {
    CollectedBases(r, names, SolutionSlots(r, names, withRedox, solver.simplify), p, solver.primaryOf, k);
  }

  /** Inserting the same primaries again adds nothing: every surface sees the same set after the first. */
  lemma SurfacePrimariesIdempotent(p: set<string>, names: seq<string>, primaryOf: string -> Option<string>)
    ensures SurfacePrimaries(SurfacePrimaries(p, names, primaryOf), names, primaryOf) == SurfacePrimaries(p, names, primaryOf)
    ensures p <= SurfacePrimaries(p, names, primaryOf) && "H" in SurfacePrimaries(p, names, primaryOf) && "O" in SurfacePrimaries(p, names, primaryOf)
  {
  }

  /** An element of the primaries came from p, is H or O, or is the primary of a solution name past the third. */
  lemma SurfacePrimariesMembers(p: set<string>, names: seq<string>, primaryOf: string -> Option<string>, x: string)
    ensures x in SurfacePrimaries(p, names, primaryOf) <==>
      x in p || x == "H" || x == "O" || exists i :: 3 <= i < |names| && primaryOf(names[i]) == Some(x)
  {
    if exists i :: 3 <= i < |names| && primaryOf(names[i]) == Some(x) {
      var i :| 3 <= i < |names| && primaryOf(names[i]) == Some(x);
      assert primaryOf(names[i]).value == x;
    }
  }

  // ---------------------------------------------------------------- initialize

  /** Every ID of ids is a key of the solution map. */
  predicate Stored(solver: Solver, ids: seq<int>)
  {
    forall i :: 0 <= i < |ids| ==> ids[i] in solver.solutions
  }

  lemma StoredFront(solver: Solver, ids: seq<int>, n: nat)
    requires Stored(solver, ids) && n <= |ids|
    ensures Stored(solver, ids[..n])
  {
    assert forall i :: 0 <= i < n ==> ids[..n][i] == ids[i];
  }

  /** The IDs initialize walks are all stored. */
  lemma StoredAll(solver: Solver)
    ensures Stored(solver, AllIds(solver))
  {
  }

  /** The union is long enough for the solution wrapper whenever a cell is built. */
  predicate LongEnough(ids: seq<int>, names: seq<string>)
  {
    forall i :: 0 <= i < |ids| && ids[i] >= 0 ==> |names| >= Sol.NumEssentials
  }

  /** The two maps and the surface primaries as initialize leaves them. */
  datatype Tables = Tables(cells: map<int, seq<Element>>, internal: map<int, seq<BaseName>>, primaries: set<string>)

  /** One pass of initialize's loop body: a negative ID is skipped, otherwise its cell is built with the primaries so far. */
  function AddCell(solver: Solver, t: Tables, id: int, names: seq<string>, withRedox: bool): Tables
    requires id >= 0 ==> id in solver.solutions && ReactantsFit(solver.solutions[id]) && |names| >= Sol.NumEssentials
  {
    if id < 0 then t
    else
      var v := CellVector(solver, solver.solutions[id], names, t.primaries, withRedox);
      Tables(t.cells[id := v.elements], t.internal[id := v.bases], v.primaries)
  }

  /** The loop of initialize over the IDs, threading the primaries from cell to cell. */
  function Build(solver: Solver, ids: seq<int>, names: seq<string>, p0: set<string>, withH0O0: bool, withRedox: bool): Tables
    requires Ready(solver, withRedox) && Stored(solver, ids) && LongEnough(ids, names)
    decreases |ids|
  {
    if ids == [] then Tables(map[], map[], p0)
    else
      var n := |ids| - 1;
      StoredFront(solver, ids, n);
      assert ids[n] >= 0 ==> CellReady(solver, ids[n], withRedox);
      AddCell(solver, Build(solver, ids[..n], names, p0, withH0O0, withRedox), ids[n], names, withRedox)
  }

  /** The union is long enough as soon as there is a cell to build. */
  lemma AllNamesLongEnough(solver: Solver, withH0O0: bool, withRedox: bool)
    requires Ready(solver, withRedox)
    ensures LongEnough(AllIds(solver), AllSolutionNames(solver, withH0O0, withRedox))
  {
    var ids := AllIds(solver);
    if exists i :: 0 <= i < |ids| && ids[i] >= 0 {
      var i :| 0 <= i < |ids| && ids[i] >= 0;
      assert ids[i] in solver.solutions;
      AllSolutionNamesFront(solver, withH0O0, withRedox);
    }
  }

  /** PhreeqcMatrix::initialize: the matrix the constructor leaves behind. */
  function Initialized(solver: Solver, database: string, withH0O0: bool, withRedox: bool): PhreeqcMatrix
    requires Ready(solver, withRedox)
  {
    var names := AllSolutionNames(solver, withH0O0, withRedox);
    AllNamesLongEnough(solver, withH0O0, withRedox);
    var t := Build(solver, AllIds(solver), names, {}, withH0O0, withRedox);
    PhreeqcMatrix(t.cells, t.internal, t.primaries, database, withH0O0, withRedox)
  }

  /** The loop stores exactly the non-negative IDs it meets, in both maps. */
  lemma {:induction false} BuildKeys(solver: Solver, ids: seq<int>, names: seq<string>, p0: set<string>, withH0O0: bool, withRedox: bool, id: int)
    requires Ready(solver, withRedox) && Stored(solver, ids) && LongEnough(ids, names)
    ensures id in Build(solver, ids, names, p0, withH0O0, withRedox).cells <==> id in ids && id >= 0
    ensures Build(solver, ids, names, p0, withH0O0, withRedox).cells.Keys == Build(solver, ids, names, p0, withH0O0, withRedox).internal.Keys
    decreases |ids|
  {
    if ids != [] {
      var n := |ids| - 1;
      StoredFront(solver, ids, n);
      BuildKeys(solver, ids[..n], names, p0, withH0O0, withRedox, id);
      assert ids == ids[..n] + [ids[n]];
    }
  }

  /** The cells of the matrix are the solutions with non-negative IDs, and both maps agree on them. */
  lemma InitializedKeys(solver: Solver, database: string, withH0O0: bool, withRedox: bool)
    requires Ready(solver, withRedox)
    ensures Valid(Initialized(solver, database, withH0O0, withRedox))
    ensures forall id :: id in Initialized(solver, database, withH0O0, withRedox).cells <==> id in solver.solutions && id >= 0
  {
    var names := AllSolutionNames(solver, withH0O0, withRedox);
    AllNamesLongEnough(solver, withH0O0, withRedox);
    forall id ensures id in Initialized(solver, database, withH0O0, withRedox).cells <==> id in solver.solutions && id >= 0 {
      BuildKeys(solver, AllIds(solver), names, {}, withH0O0, withRedox, id);
    }
    BuildKeys(solver, AllIds(solver), names, {}, withH0O0, withRedox, 0);
  }

  /**
   * Each stored cell is its solution's cell vector, built with the primaries
   * as the earlier cells left them (IDs come up once each).
   */
  lemma {:induction false} BuildCell(solver: Solver, ids: seq<int>, names: seq<string>, p0: set<string>, withH0O0: bool, withRedox: bool, k: nat)
    requires Ready(solver, withRedox) && Stored(solver, ids) && LongEnough(ids, names)
    requires Order.Increasing(ids)
    requires k < |ids| && ids[k] >= 0
    ensures Stored(solver, ids[..k]) && LongEnough(ids[..k], names) && CellReady(solver, ids[k], withRedox)
    ensures ReactantsFit(solver.solutions[ids[k]]) && |names| >= Sol.NumEssentials
    ensures ids[k] in Build(solver, ids, names, p0, withH0O0, withRedox).cells
    ensures ids[k] in Build(solver, ids, names, p0, withH0O0, withRedox).internal
    ensures var v := CellVector(solver, solver.solutions[ids[k]], names, Build(solver, ids[..k], names, p0, withH0O0, withRedox).primaries, withRedox);
      Build(solver, ids, names, p0, withH0O0, withRedox).cells[ids[k]] == v.elements &&
      Build(solver, ids, names, p0, withH0O0, withRedox).internal[ids[k]] == v.bases
    decreases |ids|
  {
    var n := |ids| - 1;
    BuildKeys(solver, ids, names, p0, withH0O0, withRedox, ids[k]);
    StoredFront(solver, ids, k);
    assert LongEnough(ids[..k], names) by {
      assert forall i :: 0 <= i < k ==> ids[..k][i] == ids[i];
    }
    StoredFront(solver, ids, n);
    if k < n {
      var front := ids[..n];
      assert front[..k] == ids[..k];
      assert forall i :: 0 <= i < n ==> front[i] == ids[i];
      assert Order.Increasing(front);
      BuildCell(solver, front, names, p0, withH0O0, withRedox, k);
      assert ids[n] != ids[k];
    } else {
      assert ids[..n] == ids[..k];
    }
  }

  /**
   * The surface primaries after the loop: none without a surface; otherwise H,
   * O and the primaries of the union's names past the third, the same set for
   * every surface.
   */
  lemma {:induction false} BuildPrimaries(solver: Solver, ids: seq<int>, names: seq<string>, p0: set<string>, withH0O0: bool, withRedox: bool)
    requires Ready(solver, withRedox) && Stored(solver, ids) && LongEnough(ids, names)
    ensures Build(solver, ids, names, p0, withH0O0, withRedox).primaries ==
      if HasSurface(solver, ids) then SurfacePrimaries(p0, names, solver.primaryOf) else p0
    decreases |ids|
  {
    if ids != [] {
      var n := |ids| - 1;
      StoredFront(solver, ids, n);
      BuildPrimaries(solver, ids[..n], names, p0, withH0O0, withRedox);
      HasSurfaceSnoc(solver, ids);
      var id := ids[n];
      if id >= 0 {
        assert CellReady(solver, id, withRedox);
        var t := Build(solver, ids[..n], names, p0, withH0O0, withRedox);
        CellVectorBases(solver, solver.solutions[id], names, t.primaries, withRedox, Exchanger);
        SurfacePrimariesIdempotent(p0, names, solver.primaryOf);
      }
    }
  }

  /** Some non-negative ID of ids has a surface. */
  predicate HasSurface(solver: Solver, ids: seq<int>)
    requires Stored(solver, ids)
  {
    exists i :: 0 <= i < |ids| && ids[i] >= 0 && solver.solutions[ids[i]].surface.Some?
  }

  lemma HasSurfaceSnoc(solver: Solver, ids: seq<int>)
    requires Stored(solver, ids) && ids != []
    ensures Stored(solver, ids[..|ids| - 1])
    ensures HasSurface(solver, ids) <==>
      HasSurface(solver, ids[..|ids| - 1]) || (ids[|ids| - 1] >= 0 && solver.solutions[ids[|ids| - 1]].surface.Some?)
  {
    var n := |ids| - 1;
    var front := ids[..n];
    StoredFront(solver, ids, n);
    if HasSurface(solver, ids) {
      var i :| 0 <= i < |ids| && ids[i] >= 0 && solver.solutions[ids[i]].surface.Some?;
      if i < n { assert front[i] == ids[i]; }
    }
    if HasSurface(solver, front) {
      var i :| 0 <= i < |front| && front[i] >= 0 && solver.solutions[front[i]].surface.Some?;
      assert ids[i] == front[i];
    }
  }

  /** The matrix's primaries: H, O and the union's primaries once any cell has a surface, else none. */
  lemma InitializedPrimaries(solver: Solver, database: string, withH0O0: bool, withRedox: bool)
    requires Ready(solver, withRedox)
    ensures Initialized(solver, database, withH0O0, withRedox).primaries ==
      if exists id :: id in solver.solutions && id >= 0 && solver.solutions[id].surface.Some?
      then SurfacePrimaries({}, AllSolutionNames(solver, withH0O0, withRedox), solver.primaryOf)
      else {}
  {
    var names := AllSolutionNames(solver, withH0O0, withRedox);
    AllNamesLongEnough(solver, withH0O0, withRedox);
    var ids := AllIds(solver);
    BuildPrimaries(solver, ids, names, {}, withH0O0, withRedox);
    if exists id :: id in solver.solutions && id >= 0 && solver.solutions[id].surface.Some? {
      var id :| id in solver.solutions && id >= 0 && solver.solutions[id].surface.Some?;
      var i :| 0 <= i < |ids| && ids[i] == id;
      assert HasSurface(solver, ids);
    }
  }

  /**
   * Every cell lists the union of all solutions' names first, with its own
   * solution's slots, so `getSolutionNames` returns the union.
   */
  lemma InitializedSolutionNames(solver: Solver, database: string, withH0O0: bool, withRedox: bool, id: int)
    requires Ready(solver, withRedox)
    requires id in Initialized(solver, database, withH0O0, withRedox).cells
    ensures SolutionPrefix(Initialized(solver, database, withH0O0, withRedox).cells[id]) == AllSolutionNames(solver, withH0O0, withRedox)
  {
    var names := AllSolutionNames(solver, withH0O0, withRedox);
    AllNamesLongEnough(solver, withH0O0, withRedox);
    var ids := AllIds(solver);
    BuildKeys(solver, ids, names, {}, withH0O0, withRedox, id);
    var k :| 0 <= k < |ids| && ids[k] == id;
    BuildCell(solver, ids, names, {}, withH0O0, withRedox, k);
    var p := Build(solver, ids[..k], names, {}, withH0O0, withRedox).primaries;
    CellVectorSolution(solver, solver.solutions[id], names, p, withRedox);
  }

  // ---------------------------------------------------------------- the loops

  /** base_add_to_element_vector. */
  method BaseAdd(elements: seq<Element>, names: seq<string>, kind: Component, values: seq<real>) returns (r: seq<Element>)
    requires |names| <= |values|
    ensures r == elements + Tagged(names, kind, values)
  {
    r := elements;
    var i := 0;
    while i < |names|
      invariant 0 <= i <= |names|
      invariant r == elements + Tagged(names[..i], kind, values)
    {
      assert Tagged(names[..i + 1], kind, values) == Tagged(names[..i], kind, values) + [Element(names[i], kind, Num(values[i]))];
      r := r + [Element(names[i], kind, Num(values[i]))];
      i := i + 1;
    }
    assert names[..i] == names;
  }

  /** The push_back loop over a wrapper's constructor names. */
  method BasesOf(names: seq<string>, kind: BaseKind) returns (r: seq<BaseName>)
    ensures r == Bases(names, kind)
  {
    r := [];
    var i := 0;
    while i < |names|
      invariant 0 <= i <= |names|
      invariant r == Bases(names[..i], kind)
    {
      assert Bases(names[..i + 1], kind) == Bases(names[..i], kind) + [BaseName(kind, names[i])];
      r := r + [BaseName(kind, names[i])];
      i := i + 1;
    }
    assert names[..i] == names;
  }

  /** ex_ki_eq_add_to_element_vector. */
  method ExKiEqAdd(v: Vector, b: Option<Block>, kind: Component, base: BaseKind) returns (r: Vector)
    requires BlockFits(b)
    ensures r == AddReactant(v, b, kind, base)
  {
    if b.None? {
      return v;
    }
    var bases := BasesOf(b.value.ctorNames, base);
    var elements := BaseAdd(v.elements, b.value.names, kind, b.value.values);
    r := Vector(elements, v.bases + bases, v.primaries);
  }

  /** The insertions of surface_add_to_element_vector into the shared primaries. */
  method InsertPrimaries(p: set<string>, names: seq<string>, primaryOf: string -> Option<string>) returns (q: set<string>)
    ensures q == SurfacePrimaries(p, names, primaryOf)
  {
    q := p + {"H", "O"};
    var i := 3;
    while i < |names|
      invariant 3 <= i || |names| <= i
      invariant q == p + {"H", "O"} + (set j | 3 <= j < i && j < |names| && primaryOf(names[j]).Some? :: primaryOf(names[j]).value)
    {
      var master := primaryOf(names[i]);
      if master.Some? {
        q := q + {master.value};
      }
      i := i + 1;
    }
  }

  /** surface_add_to_element_vector. */
  method SurfaceAdd(v: Vector, f: Option<set<string> -> SurfaceBlock>, names: seq<string>, primaryOf: string -> Option<string>) returns (r: Vector)
    requires SurfaceFits(f)
    ensures r == AddSurface(v, f, names, primaryOf)
  {
    if f.None? {
      return v;
    }
    var p := InsertPrimaries(v.primaries, names, primaryOf);
    var sb := f.value(p);
    var comps := BasesOf(sb.compFormulas, SurfaceComp);
    var charges := BasesOf(sb.chargeNames, SurfaceCharge);
    var elements := BaseAdd(v.elements, sb.names, SurfaceComps, sb.values);
    r := Vector(elements, v.bases + comps + charges, p);
  }

  /** The substitution loop of create_vector_from_phreeqc. */
  method SubstituteExchange(elements: seq<Element>, species: seq<string>) returns (r: seq<Element>)
    ensures r == Renamed(elements, species)
  {
    r := elements;
    var i := 0;
    while i < |r|
      invariant 0 <= i <= |r| == |elements|
      invariant forall k :: 0 <= k < i ==> r[k] == Rename(elements[k], species)
      invariant forall k :: i <= k < |r| ==> r[k] == elements[k]
    {
      if r[i].kind == Exchange {
        var found := FindSpecies(species, r[i].name);
        if found.Some? {
          r := r[i := r[i].(name := found.value)];
        }
      }
      i := i + 1;
    }
  }

  /** create_vector_from_phreeqc. */
  method CreateVector(solver: Solver, r: Reactants, names: seq<string>, p: set<string>, withRedox: bool) returns (v: Vector)
    requires |names| >= Sol.NumEssentials && ReactantsFit(r)
    ensures v == CellVector(solver, r, names, p, withRedox)
  {
    var w := Sol.NewSolutionWrapper(names, withRedox);
    var slots := Sol.Get(w, r.solution, solver.simplify);
    Sol.SlotsLayout(w, r.solution, solver.simplify);
    var elements := BaseAdd([], names, Solution, slots);
    assert elements == Tagged(names, Solution, SolutionSlots(r, names, withRedox, solver.simplify));
    v := Vector(elements, [], p);
    var before := |v.elements|;
    v := ExKiEqAdd(v, r.exchange, Exchange, Exchanger);
    var hasExchange := |v.elements| > before;
    v := ExKiEqAdd(v, r.kinetics, Kinetic, Kinetics);
    v := ExKiEqAdd(v, r.equilibrium, Equilibrium, EquilibriumPhase);
    v := SurfaceAdd(v, r.surface, names, solver.primaryOf);
    assert hasExchange == HasExchange(r);
    if hasExchange {
      var renamed := SubstituteExchange(v.elements, solver.species);
      v := v.(elements := renamed);
    }
  }

  /** dump_solution_names. */
  method DumpSolutionNames(solver: Solver, s: Sol.Soln, withH0O0: bool, withRedox: bool) returns (names: seq<string>)
    requires Resolves(solver, s, withRedox)
    ensures names == SolutionNames(solver, s, withH0O0, withRedox)
  {
    names := Sol.Names(s, withH0O0, withRedox, solver.simplify);
    if withRedox {
      ResolvesNames(solver, s, withH0O0, withRedox);
      names := Valence.FindAllValenceStates(names, solver.master, solver.primaryOf);
    }
  }

  /** The table holds the list of every non-negative ID of the solution map. */
  lemma TableCovers(solver: Solver, withH0O0: bool, withRedox: bool)
    requires Ready(solver, withRedox)
    ensures Covers(NameTable(solver, withH0O0, withRedox), AllIds(solver))
  {
  }

  /** The table entry of an ID is the name list dump_solution_names gives for its solution. */
  lemma NameTableAt(solver: Solver, withH0O0: bool, withRedox: bool, id: int)
    requires Ready(solver, withRedox) && id in solver.solutions && id >= 0
    ensures CellReady(solver, id, withRedox)
    ensures id in NameTable(solver, withH0O0, withRedox)
    ensures NameTable(solver, withH0O0, withRedox)[id] == SolutionNames(solver, solver.solutions[id].solution, withH0O0, withRedox)
  {
    assert CellReady(solver, id, withRedox);
  }

  /** One more ID collects one more list, unless it is negative. */
  lemma CollectStep(table: map<int, seq<string>>, ids: seq<int>, i: nat)
    requires Covers(table, ids) && i < |ids|
    ensures Covers(table, ids[..i]) && Covers(table, ids[..i + 1])
    ensures Collect(table, ids[..i + 1]) ==
      if ids[i] < 0 then Collect(table, ids[..i]) else Collect(table, ids[..i]) + [table[ids[i]]]
  {
    CoversFront(table, ids, i);
    CoversFront(table, ids, i + 1);
    assert ids[..i + 1][..i] == ids[..i];
  }

  /** The set_union fold of find_all_solutions. */
  method UnionAll(lists: seq<seq<string>>) returns (union: seq<string>)
    ensures union == Union(lists)
  {
    union := [];
    var k := 0;
    while k < |lists|
      invariant 0 <= k <= |lists|
      invariant union == Union(lists[..k])
    {
      assert lists[..k + 1][..k] == lists[..k];
      union := Order.SetUnion(union, lists[k]);
      k := k + 1;
    }
    assert lists[..k] == lists;
  }

  /** After i rounds of find_all_solutions' first loop, the lists of the first i IDs are collected. */
  predicate Gathered(table: map<int, seq<string>>, ids: seq<int>, i: nat, all: seq<seq<string>>)
  {
    i <= |ids| && Covers(table, ids[..i]) && all == Collect(table, ids[..i])
  }

  /** One more ID collects one more list, unless it is negative. */
  lemma GatheredStep(table: map<int, seq<string>>, ids: seq<int>, i: nat, all: seq<seq<string>>)
    requires Gathered(table, ids, i, all) && Covers(table, ids) && i < |ids|
    ensures ids[i] >= 0 ==> ids[i] in table
    ensures Gathered(table, ids, i + 1, if ids[i] < 0 then all else all + [table[ids[i]]])
  {
    CollectStep(table, ids, i);
  }

  /** dump_solution_names for the solution stored under a non-negative ID. */
  method ListOf(solver: Solver, id: int, withH0O0: bool, withRedox: bool) returns (names: seq<string>)
    requires Ready(solver, withRedox) && id in solver.solutions && id >= 0
    ensures id in NameTable(solver, withH0O0, withRedox) && names == NameTable(solver, withH0O0, withRedox)[id]
  {
    NameTableAt(solver, withH0O0, withRedox, id);
    names := DumpSolutionNames(solver, solver.solutions[id].solution, withH0O0, withRedox);
  }

  /** The first loop of find_all_solutions: the name list of each solution with a non-negative ID. */
  method CollectLists(solver: Solver, withH0O0: bool, withRedox: bool) returns (all: seq<seq<string>>)
    requires Ready(solver, withRedox)
    ensures Gathered(NameTable(solver, withH0O0, withRedox), AllIds(solver), |AllIds(solver)|, all)
  {
    var ids := AllIds(solver);
    ghost var table := NameTable(solver, withH0O0, withRedox);
    TableCovers(solver, withH0O0, withRedox);
    all := [];
    assert ids[..0] == [];
    var i := 0;
    while i < |ids|
      invariant Gathered(table, ids, i, all)
    {
      GatheredStep(table, ids, i, all);
      if ids[i] >= 0 {
        var names := ListOf(solver, ids[i], withH0O0, withRedox);
        all := all + [names];
      }
      i := i + 1;
    }
  }

  /** find_all_solutions. */
  method FindAllSolutions(solver: Solver, withH0O0: bool, withRedox: bool) returns (union: seq<string>)
    requires Ready(solver, withRedox)
    ensures union == AllSolutionNames(solver, withH0O0, withRedox)
  {
    var all := CollectLists(solver, withH0O0, withRedox);
    assert AllIds(solver)[..|AllIds(solver)|] == AllIds(solver);
    union := UnionAll(all);
  }

  /** After i rounds of initialize's loop the tables are those built from the first i IDs. */
  ghost predicate Built(solver: Solver, ids: seq<int>, i: nat, names: seq<string>, p0: set<string>, withH0O0: bool, withRedox: bool, t: Tables)
  {
    Ready(solver, withRedox) && i <= |ids| && Stored(solver, ids[..i]) && LongEnough(ids[..i], names) &&
    t == Build(solver, ids[..i], names, p0, withH0O0, withRedox)
  }

  /** One more ID adds its cell, unless it is negative. */
  lemma BuiltStep(solver: Solver, ids: seq<int>, i: nat, names: seq<string>, p0: set<string>, withH0O0: bool, withRedox: bool, t: Tables)
    requires Built(solver, ids, i, names, p0, withH0O0, withRedox, t)
    requires Stored(solver, ids) && LongEnough(ids, names) && i < |ids|
    ensures ids[i] >= 0 ==> ids[i] in solver.solutions && ReactantsFit(solver.solutions[ids[i]]) && |names| >= Sol.NumEssentials
    ensures Built(solver, ids, i + 1, names, p0, withH0O0, withRedox, AddCell(solver, t, ids[i], names, withRedox))
  {
    StoredFront(solver, ids, i + 1);
    assert forall j :: 0 <= j <= i ==> ids[..i + 1][j] == ids[j];
    assert ids[..i + 1][..i] == ids[..i];
    if ids[i] >= 0 {
      assert CellReady(solver, ids[i], withRedox);
    }
  }

  /** The cell of one ID, or nothing for a negative one. */
  method StoreCell(solver: Solver, t: Tables, id: int, names: seq<string>, withRedox: bool) returns (t': Tables)
    requires id >= 0 ==> id in solver.solutions && ReactantsFit(solver.solutions[id]) && |names| >= Sol.NumEssentials
    ensures t' == AddCell(solver, t, id, names, withRedox)
  {
    if id < 0 {
      return t;
    }
    var v := CreateVector(solver, solver.solutions[id], names, t.primaries, withRedox);
    t' := Tables(t.cells[id := v.elements], t.internal[id := v.bases], v.primaries);
  }

  /** The loop of initialize over the IDs, given the union of the solution names. */
  method BuildCells(solver: Solver, names: seq<string>, withH0O0: bool, withRedox: bool) returns (t: Tables)
    requires Ready(solver, withRedox) && LongEnough(AllIds(solver), names)
    ensures Built(solver, AllIds(solver), |AllIds(solver)|, names, {}, withH0O0, withRedox, t)
  {
    var ids := AllIds(solver);
    StoredAll(solver);
    t := Tables(map[], map[], {});
    assert ids[..0] == [];
    var i := 0;
    while i < |ids|
      invariant i <= |ids| && Built(solver, ids, i, names, {}, withH0O0, withRedox, t)
    {
      BuiltStep(solver, ids, i, names, {}, withH0O0, withRedox, t);
      t := StoreCell(solver, t, ids[i], names, withRedox);
      i := i + 1;
    }
  }

  /** PhreeqcMatrix::initialize, after RUN_CELLS: one cell per non-negative solution ID. */
  method Initialize(solver: Solver, database: string, withH0O0: bool, withRedox: bool) returns (m: PhreeqcMatrix)
    requires Ready(solver, withRedox)
    ensures m == Initialized(solver, database, withH0O0, withRedox)
  {
    var names := FindAllSolutions(solver, withH0O0, withRedox);
    AllNamesLongEnough(solver, withH0O0, withRedox);
    var t := BuildCells(solver, names, withH0O0, withRedox);
    assert AllIds(solver)[..|AllIds(solver)|] == AllIds(solver);
    m := PhreeqcMatrix(t.cells, t.internal, t.primaries, database, withH0O0, withRedox);
  }

  /**
   * The PhreeqcMatrix constructor after the database is loaded and the script
   * run: a script error is a runtime_error, otherwise the matrix is initialized.
   */
  method NewMatrix(solver: Solver, errorLines: nat, database: string, withH0O0: bool, withRedox: bool) returns (r: Result<PhreeqcMatrix>)
    requires errorLines == 0 ==> Ready(solver, withRedox)
    ensures r.Err? <==> errorLines > 0
    ensures r.Err? ==> r.error == RuntimeError
    ensures r.Ok? ==> r.value == Initialized(solver, database, withH0O0, withRedox)
  {
    if errorLines > 0 {
      return Err(RuntimeError);
    }
    var m := Initialize(solver, database, withH0O0, withRedox);
    return Ok(m);
  }
}
