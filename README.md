# litephreeqc / POET marshaling layer in Dafny

This project models the layer between a reactive-transport host (POET) and
the PHREEQC geochemical solver. That layer names the chemical quantities of
every grid cell, lines them up in one ordering that all cells share, and
moves them between flat vectors of doubles and the solver's per-reactant
records. The solver is not modelled. Each solver call is a parameter of the
model: a function over an abstract instance, or a record of functions. The
solver's objects become records that hold only the fields the wrappers read
and write.

A `double` is a `Values.Val`, either `Num(real)` or the quiet `NaN` that
marks "not present". `std::map` iteration is ascending key order.
`std::set_union` and `std::set_intersection` are their exact merge loops
(module `Order`), because the per-cell name lists they merge are not always
sorted.

## Components

- **Runner** (`runner.dfy`, module `Runner`). `PhreeqcRunner` holds one
  engine per cell ID. It reads a row's ID from slot 0, compacts the non-NaN
  slots after it into `_buffer`, lets that cell's engine run on the buffer,
  and scatters the result back into the same positions. An unknown ID is
  `out_of_range`. An error the engine's step raises, such as
  `invalid_argument` for a negative time step or `runtime_error` for a
  failed solver run, also ends the run, with that row left as it was. Rows whose index is in the ignore set are left as they
  are. The ignore overload exists only in litephreeqc. POET's
  `poet/src/Runner.cpp` is otherwise the same code. The engine's step is a
  parameter. It returns the updated engine together with either the new
  buffer or an error.
- **PhreeqcMatrix** (`matrix.dfy`, `matrix_init.dfy`, `matrix_export.dfy`).
  The class has value semantics, since `subset` and `erase` return modified
  copies, so it is a datatype.
  - `initialize` builds one element vector per cell: solution, exchange,
    kinetics, equilibrium, surface. Exchange names are substituted by
    species prefix, and the surface primaries are collected.
    `find_all_solutions` is a left fold of `set_union`.
  - `get` exports the columns ID (optional), then the solution names of the
    first cell, then one `set_union` fold per other category. The values come
    row-major or column-major, with NaN wherever a cell lacks a column.
  - Also modelled: `subset`, `erase`, `remove_NaNs`, the point lookup, the
    name getters, `getMatrixTransported`/`OutOnly`/`Kinetics`/`Equilibrium`,
    and the dump-string map.
- **Wrappers** (`solution.dfy`, `poet_solution.dfy`, `exchange.dfy`,
  `exchange_comp.dfy`, `kinetic.dfy`, `equilibrium.dfy`, `surface.dfy`,
  `surface_comp.dfy`, `surface_charge.dfy`, `composite.dfy`, `spans.dfy`).
  Each wrapper has:
  - a fixed slot layout;
  - a `names()` generator that agrees with that layout;
  - a constructor that fails when a requested component is missing;
  - running-offset sub-spans for its components;
  - `get`/`set` round-trips over the fields they touch.

  The POET kinetic wrapper is the litephreeqc one, except that it names the
  first slot by the bare rate name, not `<rate>_kin`
  (poet/src/Wrapper/KineticCompWrapper.cpp:33).
- **Engine** (`engine.dfy`, `raw_keyword.dfy`). `PhreeqcEngine::Impl` keeps
  the `has_*` flags of the reactants the cell has. It marshals solution,
  exchange, kinetics, equilibrium and surface at one running offset, and
  skips absent categories. Its constructor rejects an unknown cell. `runCell`
  rejects a negative time step. POET's engine spans `cell_values[1..]`, while
  litephreeqc's takes the buffer as the runner compacted it.
  `replaceRawKeywordID` is the regular expression `(RAW\s+)(\d+)` →
  `RAW 1`, written out position by position.
- **Name resolution** (`valence.dfy`, `species.dfy`). Valence-state
  expansion of the solution names comes in two variants. The ignore-list
  variant is in src/phreeqcpp/litephreeqc_funcs.cpp. The offset variant is in
  src/phreeqcpp/GFZ.cpp and poet/src/InitGetSet.cpp. Both take the solver's
  master-species list and its "primary of" function as parameters.
  Exchange-name substitution is shared by litephreeqc and POET.
- **POET legacy initialisers** (`poet_raw.dfy`, `poet_init.dfy`,
  `poet_phreeqc.dfy`). `PhreeqcInit` (poet/src/Extraction.cpp) and
  `IPhreeqcPOET` (poet/src/Init.cpp, poet/src/IPhreeqcPOET.cpp) share these
  steps:
  - read the initial solutions and expand their names;
  - union the names with NaN padding (`createConcVector`, `union_raws`);
  - place the per-category offsets (`conc_from_essentials`);
  - build the matrix and the module sizes.

  `IPhreeqcPOET` also keeps the `queued_cell_pointer` queue.
- **SelectedOutputParser** (`selected_output.dfy`). Locates the
  SELECTED_OUTPUT and USER_PUNCH blocks line by line, stores them as one
  string, and splits the header into headings.
- **Knobs** (`knobs.dfy`). Copies six solver settings out of an instance
  and back, with the `int`/`uint32_t` conversions written modulo 2^32. The
  POET copy is the same code.

## Where the documentation and the code disagree

In each case the model follows the code. The one exception is the clean-up that `subset` and `erase` run, described in the second item below.

- The header comment of `runCell` (litephreeqc/include/PhreeqcEngine.hpp:51-52)
  says the vector includes the ID. The code spans the whole vector
  (litephreeqc/src/Engine.cpp:131-132), so slot 0 is total H.
- `remove_NaNs` (litephreeqc/src/PhreeqcMatrix/Init.cpp:248-278) is meant to
  remove the names that are NaN in every cell, as its comment at line 261
  and the design of `subset`/`erase` say. The code appends each
  intersection to the vector it reads from, so it removes the first cell's
  NaN names from all cells. See "## Findings". `Matrix.RemoveNaNsAsWritten`
  models the code as it stands. `Matrix.Subset` and `Matrix.Erase` use the
  intended clean-up; "## Left out" gives the reason.
- The essential-quantity prefix of a solution exists in several versions. The
  model uses the litephreeqc constants (eight slots, H to pe). For POET it
  uses three slots (H, O, Charge), with H(0) and O(0) as the first two
  totals. The three-slot prefix is `NUM_ESSENTIALS = 3` in
  poet/src/Wrapper/SolutionWrapper.hpp:25. The list `ESSENTIALS` that
  poet/src/Wrapper/SolutionWrapper.cpp:61 and :68 use is defined in none of
  the repository's files. The model takes its contents to be the five names
  H, O, Charge, H(0), O(0) (`PoetSolution.Essentials`), following the column
  comment at poet/test/testPhreeqcMatrix.cpp:25. `names` lists all five first
  and erases all five from the totals. The constructor skips only the first
  `NUM_ESSENTIALS = 3` of them, so H(0) and O(0) become the first two ordered
  totals.

## Model

| member | source | states |
|---|---|---|
| Composite.Find | litephreeqc/src/Wrapper/KineticWrapper.cpp:22-26 | find_if: the first object whose key is the name, past the end when none is, and no earlier object has that key |
| Composite.FindIn | litephreeqc/src/Wrapper/KineticWrapper.cpp:22-26 | the search loop returns the find_if position |
| Composite.Requested | litephreeqc/src/Wrapper/KineticWrapper.cpp:21-36 | one picked object per requested name |
| Composite.WrapBuilt | litephreeqc/src/Wrapper/KineticWrapper.cpp:33-35 | wrapping one more object keeps the earlier wrappers built and captured |
| Composite.RequestedStep | litephreeqc/src/Wrapper/KineticWrapper.cpp:21-36 | the objects picked for n + 1 names extend those picked for n |
| Composite.FoundStep | litephreeqc/src/Wrapper/KineticWrapper.cpp:28-31 | a found name keeps the prefix free of missing names |
| Composite.BuiltStep | litephreeqc/src/Wrapper/KineticWrapper.cpp:21-36 | one constructor iteration keeps the wrapper consistent with the names handled so far |
| Composite.NewWrapper | litephreeqc/src/Wrapper/KineticWrapper.cpp:17-37 | runtime_error exactly when some requested name has no object; otherwise the wrapped objects are the ones picked, in the requested order, built and captured |
| Composite.GetStep | litephreeqc/src/Wrapper/KineticWrapper.cpp:42-48 | one get iteration appends wrapped object k's slots |
| Composite.ReadableStep | litephreeqc/src/Wrapper/SurfaceWrapper.cpp:61-65 | a readable object extends the readable prefix; an unreadable one makes get fail with out_of_range |
| Composite.ReadableDone | litephreeqc/src/Wrapper/SurfaceWrapper.cpp:61-65 | when every wrapped object is readable, get returns the span |
| Composite.Parts | litephreeqc/src/Wrapper/KineticWrapper.cpp:42-48 | the per-object slot lists, one per wrapped object |
| Composite.PartsAt | litephreeqc/src/Wrapper/KineticWrapper.cpp:42-48 | part k is object k's slots |
| Composite.PartsStep | litephreeqc/src/Wrapper/KineticWrapper.cpp:42-48 | the concatenated parts grow by object k's slots |
| Composite.SpanUpToParts | litephreeqc/src/Wrapper/KineticWrapper.cpp:39-49 | the span is the concatenation of the wrapped objects' slots |
| Composite.PartsLengths | litephreeqc/src/Wrapper/KineticWrapper.cpp:39-49 | each part is as long as the size its wrapper recorded |
| Composite.SpanLength | litephreeqc/src/Wrapper/KineticWrapper.cpp:39-49 | get fills exactly num_elements slots |
| Composite.SpanLayout | litephreeqc/src/Wrapper/KineticWrapper.cpp:43-47 | object k's slots sit in the sub-span at its running offset |
| Composite.SetUpTo | litephreeqc/src/Wrapper/KineticWrapper.cpp:51-61 | set keeps the number of objects |
| Composite.PutOffsets | litephreeqc/src/Wrapper/KineticWrapper.cpp:54-60 | object k's sub-span lies inside the span, and the offset then advances by its size |
| Composite.PutReady | litephreeqc/src/Wrapper/KineticWrapper.cpp:54-60 | set's step k on the running objects and offset is the reference step |
| Composite.SetUpToSize | litephreeqc/src/Wrapper/KineticWrapper.cpp:54-60 | one set step keeps every wrapped object's size |
| Composite.SetUpToBuilt | litephreeqc/src/Wrapper/KineticWrapper.cpp:51-61 | set keeps what the constructor established |
| Composite.ReadsBackStep | litephreeqc/src/Wrapper/KineticWrapper.cpp:51-61 | the objects read back their blocks one more step on |
| Composite.SetUpToOther | litephreeqc/src/Wrapper/KineticWrapper.cpp:54-60 | with nothing wrapped twice, set's step n leaves the objects wrapped earlier alone |
| Composite.SetUpToLast | litephreeqc/src/Wrapper/KineticWrapper.cpp:54-60 | set's step n makes object n - 1 read back its own block |
| Composite.SetUpToReads | litephreeqc/src/Wrapper/KineticWrapper.cpp:51-61 | after n set steps the first n objects read back their blocks |
| Composite.ReadsBackParts | litephreeqc/src/Wrapper/KineticWrapper.cpp:39-61 | the parts of objects that read back their blocks are those blocks |
| Composite.SetGet | litephreeqc/src/Wrapper/KineticWrapper.cpp:39-61 | with nothing wrapped twice, set then get succeeds and reproduces the span |
| Composite.GetSetStep | litephreeqc/src/Wrapper/KineticWrapper.cpp:51-61 | writing back get's span one more step leaves the objects unchanged |
| Composite.GetSetUpTo | litephreeqc/src/Wrapper/KineticWrapper.cpp:51-61 | writing back get's span for any prefix leaves the objects unchanged |
| Composite.GetSet | litephreeqc/src/Wrapper/KineticWrapper.cpp:39-61 | writing back the span get produced leaves the objects unchanged |
| Composite.Keys | litephreeqc/src/Wrapper/KineticWrapper.cpp:68-73 | names reports one key per object |
| Composite.KeysAt | litephreeqc/src/Wrapper/KineticWrapper.cpp:72 | key k is object k's key |
| Composite.SizesUpTo | litephreeqc/src/Wrapper/KineticWrapper.cpp:35 | one recorded size per object |
| Composite.SizesAt | litephreeqc/src/Wrapper/KineticWrapper.cpp:35 | size k is what a fresh wrapper of object k computes |
| Composite.NamesUpToLength | litephreeqc/src/Wrapper/KineticWrapper.cpp:63-91 | the names of n objects are as many as their wrappers' slots together |
| Composite.OwnPositions | litephreeqc/src/Wrapper/KineticWrapper.cpp:17-37 | with distinct keys, looking up the keys names reports finds every object at its own position |
| Composite.OwnSizes | litephreeqc/src/Wrapper/KineticWrapper.cpp:35 | a wrapper over every object at its own position records exactly their sizes |
| Composite.NamesMatchWrapper | litephreeqc/src/Wrapper/KineticWrapper.cpp:17-91 | with distinct keys, wrapping what names reports wraps each object once, at its own position, and the names are exactly num_elements long |
| Engine.Flat | litephreeqc/src/Engine.cpp:195-203 | an absent wrapper contributes no values, a present one exactly its size |
| Engine.Gather | litephreeqc/src/Engine.cpp:191-226 | get_essential_values lays the blocks out back to back: solution, exchange, kinetics, equilibrium, surface, filling exactly the cell's total |
| Engine.Take | litephreeqc/src/Engine.cpp:235-241 | a wrapper's set on its sub-span keeps whether it is present and its size |
| Engine.Spread | litephreeqc/src/Engine.cpp:228-264 | set_essential_values keeps which reactants the cell has and their sizes |
| Engine.SameShapeTotal | litephreeqc/src/Engine.cpp:191-264 | cells of the same shape have the same total and the same block offsets |
| Engine.SpreadGather | litephreeqc/src/Engine.cpp:191-264 | set then get on the same span gives back the cell's part of the span |
| Engine.GatherSpread | litephreeqc/src/Engine.cpp:191-264 | get then set leaves every wrapper unchanged |
| Engine.TakeTrim | litephreeqc/src/Engine.cpp:235-241 | a wrapper reads only its own sub-span |
| Engine.SpreadTrim | litephreeqc/src/Engine.cpp:228-264 | set reads only the cell's part of the span |
| Engine.SpreadPrefix | litephreeqc/src/Engine.cpp:228-264 | values past the cell's part of the span do not reach the wrappers |
| Engine.RunCellIdentity | litephreeqc/src/Engine.cpp:124-137 | with a solver that leaves the cell as set and reports no error, runCell hands the vector back unchanged |
| Engine.RunCellPoetIdentity | poet/src/Engine.cpp:70-78 | the same for the POET engine, whose span starts after the ID slot, when initial_solutions_poet also leaves the solution unchanged |
| Engine.Put | litephreeqc/src/Engine.cpp:191-226 | values written from an offset on, and every other slot kept |
| Engine.Image | litephreeqc/src/Engine.cpp:191-226 | writing into a span keeps its length |
| Engine.Splice | litephreeqc/src/Engine.cpp:195-211 | writing the next block right after the written part extends the written part |
| Engine.GetBlock | litephreeqc/src/Engine.cpp:197-203 | one `if (has_x)` block of get appends a present wrapper's values after what was written, at the running offset |
| Engine.SetBlock | litephreeqc/src/Engine.cpp:235-241 | one `if (has_x)` block of set hands a present wrapper its sub-span and advances the offset by its size |
| Engine.Impl.constructor | litephreeqc/src/Engine.cpp:154-189 | init_wrappers: the solution wrapper always, and a wrapper with its has_ flag for every reactant cell 1 has |
| Engine.Impl.GetEssentialValues | litephreeqc/src/Engine.cpp:191-226 | writes the cell's blocks into the span from its start and leaves every other slot of the vector unchanged |
| Engine.Impl.SetEssentialValues | litephreeqc/src/Engine.cpp:228-264 | each wrapper takes its block of the span; the script and the flags are kept |
| Engine.Impl.SetEssentialValuesPoet | poet/src/Engine.cpp:163-198 | as set_essential_values, with the solution recomputed by initial_solutions_poet right after it is set |
| Engine.Impl.Run | litephreeqc/src/Engine.cpp:139-152 | RUN_CELLS on cell 1 for the time step; runtime_error exactly when the solver's error string has a line |
| Engine.Impl.RunPoet | poet/src/Engine.cpp:80-87 | the same RUN_CELLS, with no look at the error string |
| Engine.Impl.RunCell | litephreeqc/src/Engine.cpp:124-137 | invalid_argument for a negative time step, touching nothing; otherwise set, run, and unless run failed the new values are got back into the vector |
| Engine.Impl.RunCellPoet | poet/src/Engine.cpp:70-78 | the span starts after the ID slot; set, run and get back, with no time-step or error check |
| Engine.SetSpan | litephreeqc/src/Engine.cpp:228-264 | the solution takes the head of the span, then each present wrapper its block: the reference spread |
| Engine.NewEngine | litephreeqc/src/Engine.cpp:97-122 | invalid_argument exactly when the ID is not in the matrix; otherwise the script is the cell's dump with every RAW number renumbered to 1, and the wrappers are those of the cell it loads |
| Equilibrium.CompValues | litephreeqc/src/Wrapper/EquilibriumCompWrapper.cpp:19-26 | a pure phase fills exactly its two slots, moles then si |
| Equilibrium.CompSet | litephreeqc/src/Wrapper/EquilibriumCompWrapper.cpp:28-32 | set takes moles and si from the two slots and keeps the phase name |
| Equilibrium.CompSetGet | litephreeqc/src/Wrapper/EquilibriumCompWrapper.cpp:22-32 | set then get reproduces the two slots |
| Equilibrium.CompGetSet | litephreeqc/src/Wrapper/EquilibriumCompWrapper.cpp:22-32 | get then set leaves the phase unchanged |
| Equilibrium.CompNames | litephreeqc/src/Wrapper/EquilibriumCompWrapper.cpp:34-43 | one column name per slot |
| Equilibrium.NewEquilibriumWrapper | litephreeqc/src/Wrapper/EquilibriumWrapper.cpp:19-39 | runtime_error exactly when some requested phase is not a key of the assemblage; otherwise the wrapper keeps the requested order and counts two slots per phase |
| Equilibrium.FindWrapped | litephreeqc/src/Wrapper/EquilibriumWrapper.cpp:45-47 | find_if: the first wrapper whose component carries the name, and no earlier one does |
| Equilibrium.FindWrappedOwn | litephreeqc/src/Wrapper/EquilibriumWrapper.cpp:45-47 | looking up a requested phase by name finds a wrapper of that same phase, at or before its own position |
| Equilibrium.FindWrapper | litephreeqc/src/Wrapper/EquilibriumWrapper.cpp:45-47 | the search loop returns the find_if position |
| Equilibrium.SpanUpTo | litephreeqc/src/Wrapper/EquilibriumWrapper.cpp:41-54 | after n phases the span holds 2n slots |
| Equilibrium.SpanUpToAt | litephreeqc/src/Wrapper/EquilibriumWrapper.cpp:41-54 | the i-th requested phase's moles sit at slot 2i and its si at slot 2i + 1 |
| Equilibrium.GetComp | litephreeqc/src/Wrapper/EquilibriumWrapper.cpp:44-54 | one loop step locates phase i's wrapper by name and appends its two slots |
| Equilibrium.Get | litephreeqc/src/Wrapper/EquilibriumWrapper.cpp:41-63 | the span is every requested phase's moles and si in requested order, and its length is the element count |
| Equilibrium.SetUpTo | litephreeqc/src/Wrapper/EquilibriumWrapper.cpp:65-87 | set keeps the assemblage's keys |
| Equilibrium.SetUpToKeeps | litephreeqc/src/Wrapper/EquilibriumWrapper.cpp:65-87 | set keeps every phase's name, so later lookups by name still succeed |
| Equilibrium.PutComp | litephreeqc/src/Wrapper/EquilibriumWrapper.cpp:68-78 | one loop step locates phase i's wrapper by name and lets it read its two slots |
| Equilibrium.Put | litephreeqc/src/Wrapper/EquilibriumWrapper.cpp:65-87 | each requested phase, in requested order, reads the two slots at the running offset |
| Equilibrium.SetUpToHolds | litephreeqc/src/Wrapper/EquilibriumWrapper.cpp:65-87 | with distinct requested phases, phase j holds slots 2j and 2j + 1 after set; later phases leave it alone |
| Equilibrium.SpanOfHeld | litephreeqc/src/Wrapper/EquilibriumWrapper.cpp:41-63 | when each requested phase holds its own two slots of a span, get returns that span |
| Equilibrium.SetGet | litephreeqc/src/Wrapper/EquilibriumWrapper.cpp:41-87 | with distinct requested phases, set then get reproduces the span and the wrapper still fits |
| Equilibrium.GetSetUpTo | litephreeqc/src/Wrapper/EquilibriumWrapper.cpp:41-87 | writing back the span that get produced, for any prefix of the phases, leaves the assemblage unchanged |
| Equilibrium.GetSet | litephreeqc/src/Wrapper/EquilibriumWrapper.cpp:41-87 | get then set leaves the assemblage unchanged |
| Equilibrium.NamesUpTo | litephreeqc/src/Wrapper/EquilibriumWrapper.cpp:89-103 | n phases give 2n column names |
| Equilibrium.NamesUpToAt | litephreeqc/src/Wrapper/EquilibriumWrapper.cpp:94-100 | columns 2i and 2i + 1 are the i-th phase's name with `_eq` and `_si` |
| Equilibrium.KeysIn | litephreeqc/src/Wrapper/EquilibriumWrapper.cpp:94-100 | every key visited in map order is a key of the assemblage |
| Equilibrium.Names | litephreeqc/src/Wrapper/EquilibriumWrapper.cpp:89-103 | the reported phases are the map keys in ascending order, and the names are their two columns each in that order |
| Equilibrium.NamesMatchLayout | litephreeqc/src/Wrapper/EquilibriumWrapper.cpp:19-103 | wrapping the phases that names reports gives one column per slot, and columns 2i, 2i + 1 name the phase whose moles and si get puts there |
| Exchange.FindFormula | litephreeqc/src/Wrapper/ExchangeWrapper.cpp:21-25 | find_if: the first component whose formula is the name, past the end when none is |
| Exchange.FindComp | litephreeqc/src/Wrapper/ExchangeWrapper.cpp:21-25 | the search loop returns that position |
| Exchange.Requested | litephreeqc/src/Wrapper/ExchangeWrapper.cpp:20-35 | the components picked for the requested formulas, in the requested order |
| Exchange.BuiltStep | litephreeqc/src/Wrapper/ExchangeWrapper.cpp:20-35 | wrapping one more found component keeps the wrapper list and the size count consistent |
| Exchange.BuiltDone | litephreeqc/src/Wrapper/ExchangeWrapper.cpp:16-35 | after all requested formulas the wrapper holds their components and their total size |
| Exchange.NewExchangeWrapper | litephreeqc/src/Wrapper/ExchangeWrapper.cpp:16-67 | the constructor throws runtime_error exactly when some requested formula names no component; otherwise it wraps one component per formula, in the requested order, and size() is the sum of their sizes |
| Exchange.Parts | litephreeqc/src/Wrapper/ExchangeWrapper.cpp:72-76 | the slots of the first n wrapped components |
| Exchange.SpanUpToParts | litephreeqc/src/Wrapper/ExchangeWrapper.cpp:69-77 | the span get fills is the concatenation of the components' slots |
| Exchange.SpanLength | litephreeqc/src/Wrapper/ExchangeWrapper.cpp:69-77 | get fills exactly size() slots |
| Exchange.SpanLayout | litephreeqc/src/Wrapper/ExchangeWrapper.cpp:69-77 | component k owns the sub-span at its running offset |
| Exchange.GetComp | litephreeqc/src/Wrapper/ExchangeWrapper.cpp:73-75 | one iteration of get appends component k's slots |
| Exchange.Get | litephreeqc/src/Wrapper/ExchangeWrapper.cpp:69-77 | get writes each component's slots at the running offset |
| Exchange.SetUpTo | litephreeqc/src/Wrapper/ExchangeWrapper.cpp:82-86 | the exchanger after the first n components have read their sub-spans |
| Exchange.SameShapeSet | litephreeqc/src/Wrapper/ExchangeWrapper.cpp:84 | reading a block keeps a component's formula and number of totals |
| Exchange.SetUpToShape | litephreeqc/src/Wrapper/ExchangeWrapper.cpp:79-87 | every step of set keeps every component's shape |
| Exchange.SetUpToFits | litephreeqc/src/Wrapper/ExchangeWrapper.cpp:79-87 | after set the wrapper still fits the exchanger |
| Exchange.PutOffsets | litephreeqc/src/Wrapper/ExchangeWrapper.cpp:80-86 | component k's block starts at the running offset, which then advances by its size |
| Exchange.PutReady | litephreeqc/src/Wrapper/ExchangeWrapper.cpp:82-86 | step k of set, stated on the walk's current state and offset |
| Exchange.Put | litephreeqc/src/Wrapper/ExchangeWrapper.cpp:79-87 | set has each component read the sub-span at the running offset |
| Exchange.PutComp | litephreeqc/src/Wrapper/ExchangeWrapper.cpp:83-85 | one iteration of set |
| Exchange.SetUpToOther | litephreeqc/src/Wrapper/ExchangeWrapper.cpp:82-86 | a later step leaves the components wrapped earlier alone |
| Exchange.SetUpToLast | litephreeqc/src/Wrapper/ExchangeWrapper.cpp:82-86 | step n makes component n-1 read back its own block |
| Exchange.ReadsBackParts | litephreeqc/src/Wrapper/ExchangeWrapper.cpp:69-87 | the parts of a wrapper that reads back its blocks are those blocks |
| Exchange.SetGet | litephreeqc/src/Wrapper/ExchangeWrapper.cpp:69-87 | set then get reproduces the span when no component is wrapped twice |
| Exchange.GetSetUpTo | litephreeqc/src/Wrapper/ExchangeWrapper.cpp:69-87 | writing back what get produced leaves the first n components as they were |
| Exchange.GetSet | litephreeqc/src/Wrapper/ExchangeWrapper.cpp:69-87 | get then set leaves the exchanger as it was |
| Exchange.Formulas | litephreeqc/src/Wrapper/ExchangeWrapper.cpp:94-97 | the formulas of the components, in solver order |
| Exchange.Names | litephreeqc/src/Wrapper/ExchangeWrapper.cpp:89-114 | names lists per component its formula and then its component names, and collects the formulas |
| Exchange.FindOwnFormula | litephreeqc/src/Wrapper/ExchangeWrapper.cpp:21-25 | with distinct formulas, the search for a component's formula finds that component |
| Exchange.SizesUpTo | litephreeqc/src/Wrapper/ExchangeWrapper.cpp:34 | the sizes of the first n components |
| Exchange.NamesUpToLength | litephreeqc/src/Wrapper/ExchangeWrapper.cpp:89-114 | the names of the first n components are as many as their slots |
| Exchange.OwnSizes | litephreeqc/src/Wrapper/ExchangeWrapper.cpp:16-35 | a wrapper over every component at its own position records exactly their sizes |
| Exchange.NamesMatchWrapper | litephreeqc/src/Wrapper/ExchangeWrapper.cpp:16-114 | wrapping the formulas names reports, in its order, gives one slot per name |
| ExchangeComp.CompSize | litephreeqc/src/Wrapper/ExchangeCompWrapper.cpp:16-20 | size() is totals.size() - 1 + 5 in size_t: wraps to 4 for empty totals |
| ExchangeComp.OthersLength | litephreeqc/src/Wrapper/ExchangeCompWrapper.cpp:33-37 | with the formula among the totals, there are totals.size() - 1 other totals |
| ExchangeComp.CompValuesLength | litephreeqc/src/Wrapper/ExchangeCompWrapper.cpp:22-38 | get writes exactly size() slots when the formula is a totals key |
| ExchangeComp.CompSet | litephreeqc/src/Wrapper/ExchangeCompWrapper.cpp:40-56 | set changes totals values only, never keys |
| ExchangeComp.CompSetOthers | litephreeqc/src/Wrapper/ExchangeCompWrapper.cpp:51-55 | after set the other totals read back, in key order, as slots 5 onwards |
| ExchangeComp.CompSetOtherAt | litephreeqc/src/Wrapper/ExchangeCompWrapper.cpp:51-55 | the i-th other total after set is slot 5 + i |
| ExchangeComp.CompSetShape | litephreeqc/src/Wrapper/ExchangeCompWrapper.cpp:40-56 | set keeps the keys and fills the fixed fields from slots 0 to 4 |
| ExchangeComp.OthersOfKeys | litephreeqc/src/Wrapper/ExchangeCompWrapper.cpp:33-37 | the other totals depend only on the formula and the keys |
| ExchangeComp.CompSetGet | litephreeqc/src/Wrapper/ExchangeCompWrapper.cpp:22-56 | set then get returns the span |
| ExchangeComp.CompGetSet | litephreeqc/src/Wrapper/ExchangeCompWrapper.cpp:22-56 | get then set changes nothing |
| ExchangeComp.CompGetStep | litephreeqc/src/Wrapper/ExchangeCompWrapper.cpp:33-37 | a key other than the formula appends its value |
| ExchangeComp.WalkOthers | litephreeqc/src/Wrapper/ExchangeCompWrapper.cpp:33-37 | the walk skipping the formula visits exactly the other totals |
| ExchangeComp.GetKey | litephreeqc/src/Wrapper/ExchangeCompWrapper.cpp:34-36 | one iteration of get's walk |
| ExchangeComp.CompGet | litephreeqc/src/Wrapper/ExchangeCompWrapper.cpp:22-38 | get writes the fixed slots, then the other totals in key order |
| ExchangeComp.PutStart | litephreeqc/src/Wrapper/ExchangeCompWrapper.cpp:45 | before the walk only the formula's value is written, from slot 0 |
| ExchangeComp.PutSlot | litephreeqc/src/Wrapper/ExchangeCompWrapper.cpp:51-55 | the j-th key visited, when not the formula, is read from the current slot |
| ExchangeComp.PutStep | litephreeqc/src/Wrapper/ExchangeCompWrapper.cpp:51-55 | a non-formula key takes the next slot and advances the index |
| ExchangeComp.PutFinish | litephreeqc/src/Wrapper/ExchangeCompWrapper.cpp:51-55 | after the walk every key is rewritten as CompSet says |
| ExchangeComp.PutKey | litephreeqc/src/Wrapper/ExchangeCompWrapper.cpp:52-54 | one iteration of set's walk |
| ExchangeComp.CompPut | litephreeqc/src/Wrapper/ExchangeCompWrapper.cpp:40-56 | set assigns the formula's total from slot 0, the fixed fields from slots 1 to 4 and each other total in place from slot 5 on |
| ExchangeComp.Header | litephreeqc/src/Wrapper/ExchangeWrapper.cpp:98-103 | the formula and its four suffixed names |
| ExchangeComp.CompNamesMatchLayout | litephreeqc/src/Wrapper/ExchangeWrapper.cpp:96-110 | a component has exactly as many names as slots |
| ExchangeComp.WalkNames | litephreeqc/src/Wrapper/ExchangeWrapper.cpp:105-110 | the key walk after the header lists the component's names |
| ExchangeComp.NameKey | litephreeqc/src/Wrapper/ExchangeWrapper.cpp:106-109 | a key other than the formula adds key + formula |
| ExchangeComp.CompNamesWalk | litephreeqc/src/Wrapper/ExchangeWrapper.cpp:96-110 | the body of names for one component |
| Kinetic.CompValuesLayout | litephreeqc/src/Wrapper/KineticCompWrapper.cpp:19-31 | a kinetic component occupies one slot for m and one per parameter; slot 0 is m, slot i is parameter i - 1 |
| Kinetic.CompGet | litephreeqc/src/Wrapper/KineticCompWrapper.cpp:24-31 | the loop writes exactly the component's slot layout: m, then each parameter in order |
| Kinetic.CompPut | litephreeqc/src/Wrapper/KineticCompWrapper.cpp:32-39 | the loop sets m from slot 0 and each parameter from the slot after it, on a span of the component's size |
| Kinetic.CompSetGet | litephreeqc/src/Wrapper/KineticCompWrapper.cpp:24-39 | set then get reproduces the span, and set does not change the component's size |
| Kinetic.CompGetSet | litephreeqc/src/Wrapper/KineticCompWrapper.cpp:24-39 | get then set leaves the component unchanged |
| Kinetic.Numbered | litephreeqc/src/Wrapper/KineticCompWrapper.cpp:48-50 | the numbered parameter columns are as many as the parameters |
| Kinetic.NumberedAt | litephreeqc/src/Wrapper/KineticCompWrapper.cpp:48-50 | parameter column i is the rate name followed by `_p` and the decimal i + 1 |
| Kinetic.CompNamesSize | litephreeqc/src/Wrapper/KineticCompWrapper.cpp:41-53 | a component reports one column name per slot it occupies |
| Kinetic.NumberedDistinct | litephreeqc/src/Wrapper/KineticCompWrapper.cpp:48-50 | the parameter columns of one reaction are pairwise different |
| Kinetic.CompNamesOf | litephreeqc/src/Wrapper/KineticCompWrapper.cpp:41-53 | the names are `rate_kin` (litephreeqc) or the bare rate name (poet/src/Wrapper/KineticCompWrapper.cpp:33), then `rate_p1` ... `rate_pN` |
| Kinetic.KindLaws | litephreeqc/src/Wrapper/KineticCompWrapper.cpp:19-39 | the kinetic component wrapper writes exactly its size, keeps its size under set, and reads back any span it was given |
| Kinetic.NewKineticWrapper | litephreeqc/src/Wrapper/KineticWrapper.cpp:17-37 | runtime_error exactly when some requested rate name matches no component; otherwise one wrapper per requested name, in the requested order, over the first component with that rate name |
| Kinetic.AllReadable | litephreeqc/src/Wrapper/KineticWrapper.cpp:39-49 | every wrapped kinetic component can be read, so get never fails |
| Kinetic.GetComp | litephreeqc/src/Wrapper/KineticWrapper.cpp:42-48 | one loop step appends wrapped component j's slots after those of the earlier components |
| Kinetic.Get | litephreeqc/src/Wrapper/KineticWrapper.cpp:39-49 | the span is the wrapped components' slots concatenated in wrapper order, and its length is the wrapper's element count |
| Kinetic.PutComp | litephreeqc/src/Wrapper/KineticWrapper.cpp:54-60 | one loop step lets component j read its sub-span at the running offset, and the offset advances by its size |
| Kinetic.Put | litephreeqc/src/Wrapper/KineticWrapper.cpp:51-61 | each wrapped component reads its sub-span at the running offset; the result is the reference set over all wrappers |
| Kinetic.SetGet | litephreeqc/src/Wrapper/KineticWrapper.cpp:39-61 | when no component is wrapped twice, set then get reproduces the span and the wrapper still fits |
| Kinetic.GetSet | litephreeqc/src/Wrapper/KineticWrapper.cpp:39-61 | writing back the span that get produced leaves every component unchanged |
| Kinetic.NamesStep | litephreeqc/src/Wrapper/KineticWrapper.cpp:68-73 | one loop step appends component j's names to the result and its rate name to `kin_comps` |
| Kinetic.Names | litephreeqc/src/Wrapper/KineticWrapper.cpp:63-91 | the names are every component's names in solver order, and `kin_comps` is their rate names in the same order |
| Kinetic.NamesMatchWrapper | litephreeqc/src/Wrapper/KineticWrapper.cpp:17-91 | with distinct rate names, wrapping the names that names reports wraps each component once at its own position, and the column count equals the element count |
| Knobs.ToU32 | litephreeqc/src/Knobs.cpp:23 | the `int` to `std::uint32_t` conversion keeps the value modulo 2^32 |
| Knobs.ToI32 | litephreeqc/src/Knobs.cpp:33 | the `std::uint32_t` to `int` conversion keeps the value modulo 2^32 |
| Knobs.Read | litephreeqc/src/Knobs.cpp:22-30 | readKnobs: diagonal_scale reads as true exactly when it is non-zero; a non-negative itmax is copied unchanged |
| Knobs.WriteRead | litephreeqc/src/Knobs.cpp:22-39 | writeKnobs then readKnobs returns exactly the params written, iteration counts of 2^31 and above included |
| Knobs.ReadWrite | litephreeqc/src/Knobs.cpp:22-39 | readKnobs then writeKnobs leaves the instance unchanged, except that a diagonal_scale other than 0 or 1 becomes 1 |
| Knobs.Phreeqc.constructor | litephreeqc/src/Knobs.cpp:22-38 | an instance holding the given knob fields |
| Knobs.PhreeqcKnobs.constructor | litephreeqc/src/Knobs.cpp:18-20 | the new knobs are those readKnobs takes from the instance |
| Knobs.PhreeqcKnobs.ReadKnobs | litephreeqc/src/Knobs.cpp:22-30 | the knobs become the instance's fields as Read converts them; the instance is not changed |
| Knobs.PhreeqcKnobs.WriteKnobs | litephreeqc/src/Knobs.cpp:32-39 | the instance's six fields become Written(params); the knobs are not changed |
| Knobs.PhreeqcKnobs.GetParams | litephreeqc/include/PhreeqcKnobs.hpp:87 | returns the stored params |
| Knobs.PhreeqcKnobs.SetParams | litephreeqc/include/PhreeqcKnobs.hpp:99 | replaces the stored params |
| Knobs.WriteThenRead | poet/src/Knobs.cpp:7-24 | writing knobs to an instance and reading them back, into the same or another knobs object, gives back the same params |
| Matrix.Ids | litephreeqc/src/PhreeqcMatrix/Misc.cpp:18-25 | getIds lists every cell ID once, in increasing order, and nothing else |
| Matrix.Contains | litephreeqc/src/PhreeqcMatrix/Misc.cpp:69-71 | checkIfExists is true exactly for the IDs getIds lists |
| Matrix.First | litephreeqc/src/PhreeqcMatrix/Access.cpp:178 | the cell `_m_map.begin()` names is the smallest ID, the head of getIds |
| Matrix.Cells | litephreeqc/src/PhreeqcMatrix/Init.cpp:251 | the element vectors in map order: entry k belongs to the k-th ID |
| Matrix.SolutionPrefix | litephreeqc/src/PhreeqcMatrix/Access.cpp:180-187 | the leading SOLUTION names of a cell, in order, and the element after them is no SOLUTION |
| Matrix.GetSolutionNames | litephreeqc/src/PhreeqcMatrix/Access.cpp:175-190 | the loop returns the leading SOLUTION names of the smallest cell |
| Matrix.KindNames | litephreeqc/src/PhreeqcMatrix/Access.cpp:106-111 | the names of one category in a cell are those of its elements of that category |
| Matrix.KindNamesAll | litephreeqc/src/PhreeqcMatrix/Access.cpp:106-111 | a cell of one category yields all its names, in order |
| Matrix.KindNamesAppend | litephreeqc/src/PhreeqcMatrix/Access.cpp:106-111 | names are collected block by block |
| Matrix.Find | litephreeqc/src/PhreeqcMatrix/Access.cpp:246-248 | find_if: the index of the first element with that name, past the end when there is none |
| Matrix.Lookup | litephreeqc/src/PhreeqcMatrix/Access.cpp:246-254 | the value of the first element with that name, NaN when the cell has none |
| Matrix.Value | litephreeqc/src/PhreeqcMatrix/Access.cpp:243-255 | operator() throws out_of_range exactly for an unknown cell, runtime_error exactly when the cell has no such name, and otherwise returns the value of the first element so named |
| Matrix.BaseNames | litephreeqc/src/PhreeqcMatrix/Access.cpp:193-211 | the stored base names of one kind, in order, and only those |
| Matrix.BaseNamesAppend | litephreeqc/src/PhreeqcMatrix/Access.cpp:204-208 | base names are collected piece by piece |
| Matrix.Names | litephreeqc/src/PhreeqcMatrix/Access.cpp:193-236 | getExchanger and the four getters like it: no names for an unknown cell, else exactly that cell's base names of the kind |
| Matrix.SolutionPrimaries | litephreeqc/src/PhreeqcMatrix/Access.cpp:238-241 | getSolutionPrimaries: the set's members, each once, in ascending order |
| Matrix.NaNNamesIff | litephreeqc/src/PhreeqcMatrix/Init.cpp:251-259 | a cell's removal list holds exactly the names of its NaN elements |
| Matrix.NaNsOfAt | litephreeqc/src/PhreeqcMatrix/Init.cpp:251-259 | one removal list per cell, the k-th for the k-th cell |
| Matrix.NaNLists | litephreeqc/src/PhreeqcMatrix/Init.cpp:249-259 | elements_to_remove has one list per cell |
| Matrix.NaNListsAt | litephreeqc/src/PhreeqcMatrix/Init.cpp:251-259 | the k-th list belongs to the k-th cell in map order |
| Matrix.RemoveName | litephreeqc/src/PhreeqcMatrix/Init.cpp:271-275 | erase-remove_if keeps exactly the elements with another name |
| Matrix.PurgeElements | litephreeqc/src/PhreeqcMatrix/Init.cpp:269-277 | purging a cell keeps exactly the elements whose name is not on the list |
| Matrix.RemoveNameAppend | litephreeqc/src/PhreeqcMatrix/Init.cpp:271-275 | remove_if keeps the order of the remaining elements |
| Matrix.PurgeAppend | litephreeqc/src/PhreeqcMatrix/Init.cpp:269-277 | purging keeps the order of the remaining elements |
| Matrix.Keep | litephreeqc/src/PhreeqcMatrix/Init.cpp:265-266 | the names of the first list that also occur in the second |
| Matrix.IntersectionElements | litephreeqc/src/PhreeqcMatrix/Init.cpp:261-267 | the intended intersection holds exactly the names on every list |
| Matrix.CommonNaN | litephreeqc/src/PhreeqcMatrix/Init.cpp:248-267 | the intended removal set is the names that are NaN in every cell |
| Matrix.PurgedBy | litephreeqc/src/PhreeqcMatrix/Init.cpp:269-277 | purging changes the element vectors only and keeps the cell IDs |
| Matrix.CleanedElements | litephreeqc/src/PhreeqcMatrix/Init.cpp:248-278 | after the intended clean-up an element survives exactly when some cell does not hold its name as NaN |
| Matrix.PurgeCell | litephreeqc/src/PhreeqcMatrix/Init.cpp:270-276 | the inner loop removes the listed names one after another |
| Matrix.CollectNaNs | litephreeqc/src/PhreeqcMatrix/Init.cpp:251-259 | the first loop builds the per-cell removal lists |
| Matrix.IntersectAll | litephreeqc/src/PhreeqcMatrix/Init.cpp:262-267 | the intersection loop, each step into a fresh list |
| Matrix.PurgeStep | litephreeqc/src/PhreeqcMatrix/Init.cpp:269-277 | purging one more cell keeps the others purged or untouched |
| Matrix.PurgeDone | litephreeqc/src/PhreeqcMatrix/Init.cpp:269-277 | once every cell is purged the map is the purged matrix's |
| Matrix.PurgeCells | litephreeqc/src/PhreeqcMatrix/Init.cpp:269-277 | the last loop purges exactly the cells it visits |
| Matrix.PurgeAll | litephreeqc/src/PhreeqcMatrix/Init.cpp:269-277 | the last loop, over every cell, gives the purged matrix |
| Matrix.RemoveNaNs | litephreeqc/src/PhreeqcMatrix/Init.cpp:248-278 | remove_NaNs with the intersection as intended: the matrix without the names that are NaN in every cell |
| Matrix.AppendedElements | litephreeqc/src/PhreeqcMatrix/Init.cpp:262-267 | as written, appending each intersection to its own input never adds or drops a name of the first list |
| Matrix.AsWrittenRemovesFirstCellNaNs | litephreeqc/src/PhreeqcMatrix/Init.cpp:248-278 | as written, every name that is NaN in the smallest cell is removed from all cells |
| Matrix.TwoCells | litephreeqc/src/PhreeqcMatrix/Init.cpp:248-278 | a two-cell matrix for the counterexample |
| Matrix.AsWrittenDropsValue | litephreeqc/src/PhreeqcMatrix/Init.cpp:261-277 | as written, the value 5 of "X" in cell 2 is removed because "X" is NaN in cell 1 |
| Matrix.CleanedKeepsValue | litephreeqc/src/PhreeqcMatrix/Init.cpp:261 | the intended clean-up keeps that value |
| Matrix.AsWrittenAgreesWithoutFirstNaN | litephreeqc/src/PhreeqcMatrix/Init.cpp:261-267 | when the lowest cell has no NaN name, the loop as written appends nothing to the list it reads and removes the same names as the intended clean-up, namely none |
| Matrix.Elems | litephreeqc/src/PhreeqcMatrix/Access.cpp:28 | the IDs of a list as a set |
| Matrix.Restrict | litephreeqc/src/PhreeqcMatrix/Access.cpp:25-31 | the picked cells of both maps |
| Matrix.Drop | litephreeqc/src/PhreeqcMatrix/Access.cpp:41-44 | the other cells of both maps |
| Matrix.Subset | litephreeqc/src/PhreeqcMatrix/Access.cpp:22-36 | subset throws out_of_range exactly when a listed ID is unknown to either map, and otherwise returns the listed cells after the intended remove_NaNs (`Matrix.RemoveNaNs`, not the as-written loop) |
| Matrix.Erase | litephreeqc/src/PhreeqcMatrix/Access.cpp:38-49 | erase drops the listed cells, ignores unknown IDs, then runs the intended remove_NaNs (`Matrix.RemoveNaNs`, not the as-written loop) |
| Matrix.SubsetShape | litephreeqc/src/PhreeqcMatrix/Access.cpp:22-36 | a subset holds exactly the listed cells in both maps, stays valid and keeps the database and primaries |
| Matrix.EraseShape | litephreeqc/src/PhreeqcMatrix/Access.cpp:38-49 | erasing keeps the other cells and keeps a valid matrix valid |
| Matrix.Instance.constructor | litephreeqc/src/PhreeqcMatrix/Misc.cpp:53-62 | the dump flag starts off and the dump string empty |
| Matrix.Instance.SetDumpStringOn | litephreeqc/src/PhreeqcMatrix/Misc.cpp:53 | sets the dump flag, keeps the dump string |
| Matrix.Instance.RunDump | litephreeqc/src/PhreeqcMatrix/Misc.cpp:55-60 | DUMP produces the cell's dump string only while the flag is on |
| Matrix.DumpString | litephreeqc/src/PhreeqcMatrix/Misc.cpp:52-65 | getDumpStringsPQI(id) returns the cell's dump and leaves the flag off |
| Matrix.DumpStep | litephreeqc/src/PhreeqcMatrix/Misc.cpp:45-47 | one more dump keeps the map holding exactly the dumps of the cells done |
| Matrix.DumpNext | litephreeqc/src/PhreeqcMatrix/Misc.cpp:46 | one iteration adds the dump of one more cell |
| Matrix.DumpAll | litephreeqc/src/PhreeqcMatrix/Misc.cpp:45-47 | the loop stores the dump of every ID it is given |
| Matrix.DumpStrings | litephreeqc/src/PhreeqcMatrix/Misc.cpp:42-50 | getDumpStringsPQI() maps every cell to its dump, and only those |
| Matrix.DumpKeys | litephreeqc/src/PhreeqcMatrix/Misc.cpp:42-50 | the dumps are keyed by exactly the IDs getIds returns |
| MatrixExport.CategoryUnionMembers | litephreeqc/src/PhreeqcMatrix/Access.cpp:104-116 | the set_union fold of one category holds exactly the names that some cell has in that category |
| MatrixExport.CategoryUnionSame | litephreeqc/src/PhreeqcMatrix/Access.cpp:104-116 | when every cell lists the same names, the fold is that list |
| MatrixExport.Reactant | litephreeqc/src/PhreeqcMatrix/Access.cpp:100-103 | the category of each enum value from 1 to 4 |
| MatrixExport.CategoriesMembers | litephreeqc/src/PhreeqcMatrix/Access.cpp:100-118 | the category part of the names holds exactly the names some cell has outside SOLUTION |
| MatrixExport.CollectKind | litephreeqc/src/PhreeqcMatrix/Access.cpp:106-111 | the innermost loop collects a cell's names of one category |
| MatrixExport.CategoryNames | litephreeqc/src/PhreeqcMatrix/Access.cpp:104-116 | the loop over the cells is the set_union fold |
| MatrixExport.AllCategories | litephreeqc/src/PhreeqcMatrix/Access.cpp:100-118 | the loop over the category codes appends the four unions in enum order |
| MatrixExport.ExportNames | litephreeqc/src/PhreeqcMatrix/Access.cpp:81-118 | the names half of get: "ID" when asked for, the smallest cell's leading SOLUTION names, then the four unions |
| MatrixExport.HeaderMembers | litephreeqc/src/PhreeqcMatrix/Access.cpp:89-118 | a column name is "ID" (when asked for), a solution name of the smallest cell, or a name some cell holds outside SOLUTION, and nothing else |
| MatrixExport.HeaderStartsWithId | litephreeqc/src/PhreeqcMatrix/Access.cpp:89-91 | with include_id, "ID" is the first column |
| MatrixExport.Row | litephreeqc/src/PhreeqcMatrix/Access.cpp:151-170 | one cell's row has one entry per column, each the value get emits for that column |
| MatrixExport.Column | litephreeqc/src/PhreeqcMatrix/Access.cpp:132-146 | one column has one entry per cell, in map order |
| MatrixExport.RowsLength | litephreeqc/src/PhreeqcMatrix/Access.cpp:151-170 | the row-major values have rows*columns entries |
| MatrixExport.RowsAt | litephreeqc/src/PhreeqcMatrix/Access.cpp:151-170 | in row-major order, entry (r, c) sits at r*columns + c |
| MatrixExport.ColumnsLength | litephreeqc/src/PhreeqcMatrix/Access.cpp:122-146 | the column-major values have columns*rows entries |
| MatrixExport.ColumnsAt | litephreeqc/src/PhreeqcMatrix/Access.cpp:122-146 | in column-major order, entry (r, c) sits at c*rows + r |
| MatrixExport.Transposed | litephreeqc/src/PhreeqcMatrix/Access.cpp:122-170 | the two layouts hold the same values transposed, and the same number of them |
| MatrixExport.RowMajorAt | litephreeqc/src/PhreeqcMatrix/Access.cpp:151-170 | row-major entry (r, c) is column c's value for the r-th cell in map order |
| MatrixExport.ColumnMajorAt | litephreeqc/src/PhreeqcMatrix/Access.cpp:122-146 | column-major entry c*rows + r is the same value |
| MatrixExport.EntryValue | litephreeqc/src/PhreeqcMatrix/Access.cpp:126-168 | an entry is the cell's ID in the ID column; elsewhere it is what operator() returns for that cell and name, and NaN where operator() would throw for a missing name |
| MatrixExport.LookupValue | litephreeqc/src/PhreeqcMatrix/Access.cpp:159-167 | the search for a column's value finds the first element of that name, else NaN |
| MatrixExport.RowValues | litephreeqc/src/PhreeqcMatrix/Access.cpp:152-169 | the loop over one cell's columns builds its row |
| MatrixExport.RowMajorValues | litephreeqc/src/PhreeqcMatrix/Access.cpp:151-170 | the row-major loop emits the rows in map order |
| MatrixExport.IdColumn | litephreeqc/src/PhreeqcMatrix/Access.cpp:125-130 | the ID column of the column-major export is the IDs in map order |
| MatrixExport.LookupColumn | litephreeqc/src/PhreeqcMatrix/Access.cpp:133-145 | one looked-up column over all cells |
| MatrixExport.ColumnMajorValues | litephreeqc/src/PhreeqcMatrix/Access.cpp:122-149 | the column-major loop emits the ID column first when asked for, then each column over all cells |
| MatrixExport.Get | litephreeqc/src/PhreeqcMatrix/Access.cpp:79-173 | get(type, include_id) returns the names above and the values in the requested layout |
| MatrixExport.OutOnly | litephreeqc/src/PhreeqcMatrix/Access.cpp:322-332 | getMatrixOutOnly: five distinct names |
| MatrixExport.TransportedMembers | litephreeqc/src/PhreeqcMatrix/Access.cpp:303-319 | a name is transported exactly when it is a solution name and not output-only |
| MatrixExport.TransportedAppend | litephreeqc/src/PhreeqcMatrix/Access.cpp:312-316 | the filter keeps the order of the solution names |
| MatrixExport.SolutionNamesSplit | litephreeqc/src/PhreeqcMatrix/Access.cpp:303-332 | every solution name is either transported or output-only |
| MatrixExport.GetMatrixTransported | litephreeqc/src/PhreeqcMatrix/Access.cpp:303-319 | the loop keeps the solution names that are not output-only, in order |
| MatrixExport.AddMatchesMembers | litephreeqc/src/PhreeqcMatrix/Access.cpp:266-273 | after one reactant name, the list holds what it held plus every export name that starts with that name |
| MatrixExport.AddMatchesDistinct | litephreeqc/src/PhreeqcMatrix/Access.cpp:268-271 | the find check keeps the list free of repeats and only appends |
| MatrixExport.AddAllMembers | litephreeqc/src/PhreeqcMatrix/Access.cpp:265-274 | after one cell, the export names that start with one of its reactant names are added |
| MatrixExport.AddAllDistinct | litephreeqc/src/PhreeqcMatrix/Access.cpp:265-274 | still no repeats, still only appends |
| MatrixExport.MatchedMembers | litephreeqc/src/PhreeqcMatrix/Access.cpp:259-277 | after the lookups, the list holds the export names that start with a reactant name of some looked-up cell |
| MatrixExport.MatchedDistinct | litephreeqc/src/PhreeqcMatrix/Access.cpp:259-277 | the result has no repeats |
| MatrixExport.Range | litephreeqc/src/PhreeqcMatrix/Access.cpp:262-263 | the loop indices 0 to n-1 |
| MatrixExport.SelectedInIds | litephreeqc/src/PhreeqcMatrix/Access.cpp:259-277 | looking up every ID of getIds reaches every cell |
| MatrixExport.MatrixKineticsMembers | litephreeqc/src/PhreeqcMatrix/Access.cpp:259-277 | over the cell IDs the kinetics columns are, without repeats, exactly the export names that start with the name of some cell's kinetic reactant |
| MatrixExport.MatrixEquilibriumMembers | litephreeqc/src/PhreeqcMatrix/Access.cpp:281-300 | the same for the equilibrium phases |
| MatrixExport.MatchOne | litephreeqc/src/PhreeqcMatrix/Access.cpp:266-273 | the innermost loop appends new export names starting with one reactant name |
| MatrixExport.MatchCell | litephreeqc/src/PhreeqcMatrix/Access.cpp:265-274 | the loop over the reactant names of one cell |
| MatrixExport.MatchCells | litephreeqc/src/PhreeqcMatrix/Access.cpp:263-275 | the outer loop over the cells looked up |
| MatrixExport.GetMatrixKinetics | litephreeqc/src/PhreeqcMatrix/Access.cpp:259-277 | the kinetics columns, over the cell IDs |
| MatrixExport.GetMatrixEquilibrium | litephreeqc/src/PhreeqcMatrix/Access.cpp:281-300 | the equilibrium columns, over the cell IDs |
| MatrixExport.CalciteCell | litephreeqc/src/PhreeqcMatrix/Access.cpp:259-300 | a one-cell matrix, ID 1, with one kinetic reactant Calcite (element "Calcite_kin") |
| MatrixExport.MatchedAbsent | litephreeqc/src/PhreeqcMatrix/Access.cpp:264 | looking up IDs that are not cells adds nothing |
| MatrixExport.KineticsAsWrittenMissesCell | litephreeqc/src/PhreeqcMatrix/Access.cpp:262-264 | as written, the loop looks up ID 0 only, so a matrix whose one cell is 1 has no kinetics columns |
| MatrixExport.InHeader | litephreeqc/src/PhreeqcMatrix/Access.cpp:100-118 | a name a cell holds in one of the four reactant categories is an export column |
| MatrixExport.KineticsFound | litephreeqc/src/PhreeqcMatrix/Access.cpp:259-277 | over the IDs, a kinetic element whose name starts with a kinetics name of its cell is found |
| MatrixExport.EquilibriumFound | litephreeqc/src/PhreeqcMatrix/Access.cpp:281-300 | the same for the equilibrium phases |
| MatrixExport.KineticsFindsCell | litephreeqc/src/PhreeqcMatrix/Access.cpp:259-277 | over the IDs, that cell's kinetics column "Calcite_kin" is found |
| MatrixExport.EquilibriumAsWrittenMissesCell | litephreeqc/src/PhreeqcMatrix/Access.cpp:285-287 | the equilibrium loop has the same index, and the phase of cell 1 is never looked up |
| MatrixExport.EquilibriumFindsCell | litephreeqc/src/PhreeqcMatrix/Access.cpp:281-300 | over the IDs, "Calcite_eq" is found |
| MatrixExport.EquilibriumCell | litephreeqc/src/PhreeqcMatrix/Access.cpp:281-300 | a one-cell matrix, ID 1, with the equilibrium phase "Calcite" |
| MatrixInit.AllIds | litephreeqc/src/PhreeqcMatrix/Init.cpp:202 | the solution map's IDs, negative ones included |
| MatrixInit.ResolvableJoin | litephreeqc/src/PhreeqcMatrix/Init.cpp:44-46 | name lists whose totals have primary masters stay so when joined |
| MatrixInit.TotalNamesResolve | litephreeqc/src/PhreeqcMatrix/Init.cpp:41-46 | with redox on, the totals the solution wrapper lists have primary masters |
| MatrixInit.ResolvesNames | litephreeqc/src/PhreeqcMatrix/Init.cpp:41-46 | every name the solution wrapper lists can be expanded by find_all_valence_states |
| MatrixInit.NameTable | litephreeqc/src/PhreeqcMatrix/Init.cpp:199-208 | one name list for every solution with a non-negative ID, and no other |
| MatrixInit.UnionMembers | litephreeqc/src/PhreeqcMatrix/Init.cpp:210-218 | the set_union fold holds exactly the names of the collected lists |
| MatrixInit.CollectMembers | litephreeqc/src/PhreeqcMatrix/Init.cpp:202-208 | a collected list belongs to a non-negative ID, and each such ID has its list collected |
| MatrixInit.AllSolutionNamesMembers | litephreeqc/src/PhreeqcMatrix/Init.cpp:199-221 | find_all_solutions returns exactly the names that some solution with a non-negative ID lists |
| MatrixInit.SetUnionCommonFront | litephreeqc/src/PhreeqcMatrix/Init.cpp:214-215 | set_union of two lists with the same front keeps that front once |
| MatrixInit.UnionFront | litephreeqc/src/PhreeqcMatrix/Init.cpp:210-218 | when every list starts with the same names, so does their union |
| MatrixInit.CollectFront | litephreeqc/src/PhreeqcMatrix/Init.cpp:202-208 | every collected list starts with the essentials, and there is one once a non-negative ID occurs |
| MatrixInit.EssentialsIgnored | litephreeqc/src/PhreeqcMatrix/Init.cpp:44-46 | the essential names are left alone by the valence expansion |
| MatrixInit.SolutionNamesFront | litephreeqc/src/PhreeqcMatrix/Init.cpp:37-49 | every solution's name list starts with the essentials, expanded or not |
| MatrixInit.TableFront | litephreeqc/src/PhreeqcMatrix/Init.cpp:199-208 | every table entry starts with the essentials |
| MatrixInit.AllSolutionNamesFront | litephreeqc/src/PhreeqcMatrix/Init.cpp:199-221 | once a solution has a non-negative ID, the union starts with the essentials and is at least that long |
| MatrixInit.SolutionSlots | litephreeqc/src/PhreeqcMatrix/Init.cpp:145-150 | SolutionWrapper::get on the union gives one slot per name |
| MatrixInit.TaggedKinds | litephreeqc/src/PhreeqcMatrix/Init.cpp:61-63 | base_add tags every element with the block's category |
| MatrixInit.RenameKeeps | litephreeqc/src/PhreeqcMatrix/Init.cpp:180-193 | the renaming keeps categories and values, touches only exchange names, and gives an exchange element the first species starting with its name |
| MatrixInit.RenamedIdle | litephreeqc/src/PhreeqcMatrix/Init.cpp:180 | without exchange elements the has_exchange guard changes nothing |
| MatrixInit.CollectedExchange | litephreeqc/src/PhreeqcMatrix/Init.cpp:153-161 | only the exchange block adds exchange elements |
| MatrixInit.CellVectorRenamed | litephreeqc/src/PhreeqcMatrix/Init.cpp:179-194 | every cell vector is the renamed collection, whether the guard held or not |
| MatrixInit.LayeredAppend | litephreeqc/src/PhreeqcMatrix/Init.cpp:61-63 | appending a later category keeps the elements in category order |
| MatrixInit.AddReactantLayered | litephreeqc/src/PhreeqcMatrix/Init.cpp:66-86 | an exchange, kinetic or equilibrium block keeps the category order |
| MatrixInit.AddSurfaceLayered | litephreeqc/src/PhreeqcMatrix/Init.cpp:88-134 | the surface block keeps the category order |
| MatrixInit.RenamedLayered | litephreeqc/src/PhreeqcMatrix/Init.cpp:179-194 | the renaming keeps the category order and the solution block |
| MatrixInit.ReactedLayered | litephreeqc/src/PhreeqcMatrix/Init.cpp:144-172 | after equilibrium: the solution block, then exchange, kinetic and equilibrium elements |
| MatrixInit.CollectedLayered | litephreeqc/src/PhreeqcMatrix/Init.cpp:144-177 | the collected cell: the solution block, then the later categories in order |
| MatrixInit.CellVectorLayered | litephreeqc/src/PhreeqcMatrix/Init.cpp:138-197 | the same after the renaming |
| MatrixInit.CellVectorOrdered | litephreeqc/src/PhreeqcMatrix/Init.cpp:138-197 | a cell's elements come in category order: solution, exchange, kinetic, equilibrium, surface |
| MatrixInit.SolutionPrefixOf | litephreeqc/src/PhreeqcMatrix/Init.cpp:149-150 | a run of solution elements followed by something else reads back as its names |
| MatrixInit.CellVectorSolution | litephreeqc/src/PhreeqcMatrix/Init.cpp:145-150 | a cell starts with one solution element per name of the union, holding the wrapper's slot for it, so getSolutionNames reads back the union |
| MatrixInit.BaseNamesOfBases | litephreeqc/src/PhreeqcMatrix/Init.cpp:78-81 | base names of one kind read back from that kind's run |
| MatrixInit.AddReactantBases | litephreeqc/src/PhreeqcMatrix/Init.cpp:66-86 | a reactant block appends its constructor names under its own kind only, and leaves the primaries alone |
| MatrixInit.ReactedBases | litephreeqc/src/PhreeqcMatrix/Init.cpp:156-172 | after equilibrium each kind's base names come from its own block |
| MatrixInit.CollectedBases | litephreeqc/src/PhreeqcMatrix/Init.cpp:144-177 | each kind's base names are what its wrapper reported; the surface inserts its primaries |
| MatrixInit.CellVectorBases | litephreeqc/src/PhreeqcMatrix/Init.cpp:138-197 | a cell's internal names are per kind exactly its wrappers' constructor names, read back by getExchanger and the others |
| MatrixInit.SurfacePrimariesIdempotent | litephreeqc/src/PhreeqcMatrix/Init.cpp:98-108 | inserting the primaries again adds nothing; the set grows and holds H and O |
| MatrixInit.SurfacePrimariesMembers | litephreeqc/src/PhreeqcMatrix/Init.cpp:98-108 | a surface primary came from before, is H or O, or is the primary master of a solution name past the third |
| MatrixInit.StoredAll | litephreeqc/src/PhreeqcMatrix/Init.cpp:236 | the IDs initialize walks are keys of the solution map |
| MatrixInit.AllNamesLongEnough | litephreeqc/src/PhreeqcMatrix/Init.cpp:234-241 | the union holds the essentials whenever a cell is built |
| MatrixInit.BuildKeys | litephreeqc/src/PhreeqcMatrix/Init.cpp:236-245 | the loop stores exactly the non-negative IDs, in both maps |
| MatrixInit.InitializedKeys | litephreeqc/src/PhreeqcMatrix/Init.cpp:223-246 | the matrix's cells are the solutions with non-negative IDs, and both maps agree |
| MatrixInit.BuildCell | litephreeqc/src/PhreeqcMatrix/Init.cpp:236-245 | each stored cell is its solution's vector, built with the primaries the earlier cells left |
| MatrixInit.BuildPrimaries | litephreeqc/src/PhreeqcMatrix/Init.cpp:236-245 | the surface primaries after the loop: none without a surface, else H, O and the union's primaries past the third |
| MatrixInit.InitializedPrimaries | litephreeqc/src/PhreeqcMatrix/Init.cpp:223-246 | the matrix's primaries: H, O and the union's primaries once any cell has a surface, else none |
| MatrixInit.InitializedSolutionNames | litephreeqc/src/PhreeqcMatrix/Init.cpp:223-246 | every cell lists the union of all solutions' names first |
| MatrixInit.BaseAdd | litephreeqc/src/PhreeqcMatrix/Init.cpp:51-64 | base_add appends name i with slot i, of the block's category |
| MatrixInit.BasesOf | litephreeqc/src/PhreeqcMatrix/Init.cpp:78-81 | the push_back loop over the constructor names |
| MatrixInit.ExKiEqAdd | litephreeqc/src/PhreeqcMatrix/Init.cpp:66-86 | ex_ki_eq_add_to_element_vector: nothing for a missing reactant, else its names, slots and constructor names |
| MatrixInit.InsertPrimaries | litephreeqc/src/PhreeqcMatrix/Init.cpp:98-108 | the insertions into the shared primaries |
| MatrixInit.SurfaceAdd | litephreeqc/src/PhreeqcMatrix/Init.cpp:88-134 | surface_add_to_element_vector |
| MatrixInit.SubstituteExchange | litephreeqc/src/PhreeqcMatrix/Init.cpp:179-194 | the substitution loop renames each exchange element to the first species that starts with its name |
| MatrixInit.CreateVector | litephreeqc/src/PhreeqcMatrix/Init.cpp:136-197 | create_vector_from_phreeqc builds the cell vector above |
| MatrixInit.DumpSolutionNames | litephreeqc/src/PhreeqcMatrix/Init.cpp:37-49 | dump_solution_names: the wrapper's names, expanded into valence states when redox is on |
| MatrixInit.TableCovers | litephreeqc/src/PhreeqcMatrix/Init.cpp:199-208 | the table holds the list of every non-negative ID |
| MatrixInit.NameTableAt | litephreeqc/src/PhreeqcMatrix/Init.cpp:206 | a table entry is what dump_solution_names gives for that solution |
| MatrixInit.CollectStep | litephreeqc/src/PhreeqcMatrix/Init.cpp:202-208 | one more ID collects one more list, unless it is negative |
| MatrixInit.UnionAll | litephreeqc/src/PhreeqcMatrix/Init.cpp:210-218 | the set_union loop |
| MatrixInit.GatheredStep | litephreeqc/src/PhreeqcMatrix/Init.cpp:202-208 | one round of the first loop |
| MatrixInit.ListOf | litephreeqc/src/PhreeqcMatrix/Init.cpp:206 | dump_solution_names for a stored non-negative ID |
| MatrixInit.CollectLists | litephreeqc/src/PhreeqcMatrix/Init.cpp:202-208 | the first loop of find_all_solutions collects the lists of the non-negative IDs in map order |
| MatrixInit.FindAllSolutions | litephreeqc/src/PhreeqcMatrix/Init.cpp:199-221 | find_all_solutions |
| MatrixInit.BuiltStep | litephreeqc/src/PhreeqcMatrix/Init.cpp:236-245 | one round of initialize's loop |
| MatrixInit.StoreCell | litephreeqc/src/PhreeqcMatrix/Init.cpp:237-244 | one cell stored, a negative ID skipped |
| MatrixInit.BuildCells | litephreeqc/src/PhreeqcMatrix/Init.cpp:236-245 | initialize's loop over the IDs |
| MatrixInit.Initialize | litephreeqc/src/PhreeqcMatrix/Init.cpp:223-246 | initialize builds the matrix described above |
| MatrixInit.NewMatrix | litephreeqc/src/PhreeqcMatrix/Ctor.cpp:24-44 | the constructor throws runtime_error exactly when the script reported errors, else returns the initialized matrix |
| Order.LtIrreflexive | poet/src/Init.cpp:13-14 | std::string operator< is irreflexive |
| Order.LtTransitive | poet/src/Init.cpp:13-14 | std::string operator< is transitive |
| Order.LtTotal | poet/src/Init.cpp:13-14 | std::string operator< orders any two different names |
| Order.Least | litephreeqc/src/PhreeqcMatrix/Init.cpp:212-218 | the least element of a non-empty set is in it and below every other element |
| Order.AscendingEnumerates | litephreeqc/src/PhreeqcMatrix/Init.cpp:212-218 | a std::set's iteration lists its elements in strictly ascending order |
| Order.AscendingUnique | litephreeqc/src/PhreeqcMatrix/Init.cpp:212-218 | the ascending enumeration of a set is the only one |
| Order.AscendingInts | litephreeqc/src/PhreeqcMatrix/Init.cpp:263-269 | a std::map<int, ...> is visited in strictly increasing key order, each key once |
| Order.AscendingIntsHead | litephreeqc/src/PhreeqcMatrix/Init.cpp:263-269 | map.begin() points at the smallest key |
| Order.SetUnionElements | litephreeqc/src/PhreeqcMatrix/Init.cpp:212-218 | the std::set_union merge emits exactly the names of both inputs, whatever their order |
| Order.SetUnionSorted | litephreeqc/src/PhreeqcMatrix/Init.cpp:212-218 | on sorted inputs the merge output is sorted and duplicate-free |
| Order.SetUnionSelf | litephreeqc/src/PhreeqcMatrix/Access.cpp:113-115 | merging a list with itself gives it back |
| Order.SetIntersectionWithin | litephreeqc/src/PhreeqcMatrix/Init.cpp:265-266 | every name std::set_intersection emits comes from both inputs |
| Order.IndexOf | poet/src/Init.cpp:26-28 | std::find: the first index of the name, or the length when absent |
| Order.WithoutElements | litephreeqc/src/PhreeqcMatrix/Init.cpp:263-269 | skipping one name keeps exactly the other names |
| Order.SortedUnique | litephreeqc/src/PhreeqcMatrix/Init.cpp:212-218 | two strictly ascending lists with the same elements are equal |
| Order.AscendingWithout | litephreeqc/src/PhreeqcMatrix/Init.cpp:263-269 | walking a map's keys and skipping one key visits the other keys in order |
| PoetInit.SolutionNamesFront | poet/src/InitGetSet.cpp:16-24 | dump_solution_names keeps H, O and Charge in front, unexpanded |
| PoetInit.ReadyAt | poet/src/InitGetSet.cpp:16-24 | a solution read can be expanded and has at least the five names the solution wrapper writes |
| PoetInit.ReadIds | poet/src/Extraction.cpp:56-60 | the solution map is visited in increasing ID order, and the IDs read are exactly its non-negative keys |
| PoetInit.AllReadFront | poet/src/Extraction.cpp:56-72 | a prefix of read IDs is read too |
| PoetInit.InSnoc | poet/src/Extraction.cpp:56-72 | membership in a sequence ending in x splits into its front and x |
| PoetInit.NamesFromSpec | poet/src/Extraction.cpp:56-72 | the first loop stores one list per ID read, its dump_solution_names |
| PoetInit.NameTableAt | poet/src/Extraction.cpp:54-72 | init_values has a list exactly for each non-negative solution ID: its names, H, O and Charge first, at least five |
| PoetInit.CoversFront | poet/src/Extraction.cpp:76-79 | a prefix of covered IDs is covered |
| PoetInit.TableCovers | poet/src/Extraction.cpp:76-79 | init_values covers every ID the loops visit |
| PoetInit.ListedBySnoc | poet/src/Extraction.cpp:76-79 | a name is listed by the IDs when it is listed by the front or by the last ID |
| PoetInit.UnionUpToMembers | poet/src/Extraction.cpp:10-19 | the set_union fold holds exactly the names some ID lists |
| PoetInit.SolutionUnionMembers | poet/src/Extraction.cpp:74-79 | a name is in union_solution_names exactly when some solution read lists it |
| PoetInit.UnionSolutionNames | poet/src/Extraction.cpp:74-79 | the union loop computes the set_union fold over init_values in ID order |
| PoetInit.PrimariesUpToMembers | poet/src/InitGetSet.cpp:70-76 | after k names the set holds exactly the primaries of the union's names from index 3 up to k that have one |
| PoetInit.SurfacePrimariesMembers | poet/src/InitGetSet.cpp:65-77 | the filled surface primaries are H, O and the primary master species of every union name past the first three, and nothing else |
| PoetInit.CollectPrimaries | poet/src/InitGetSet.cpp:65-77 | the loop fills exactly that set |
| PoetInit.ReactantTablesEntries | poet/src/InitGetSet.cpp:26-88 | a cell's step adds an entry to a member map exactly for the categories the cell has |
| PoetInit.DumpReactants | poet/src/InitGetSet.cpp:26-88 | each present reactant puts its names into its category and its list into its member map; the surface first fills the primaries when they are empty |
| PoetInit.EssentialValuesLayout | poet/src/InitGetSet.cpp:167-238 | the values are the five blocks one after the other: their count is the sum of the block sizes and block k sits after the blocks before it |
| PoetInit.SolutionBlockLength | poet/src/InitGetSet.cpp:173-181 | the solution block has one slot per order name, and none without a solution |
| PoetInit.TableSized | poet/src/Extraction.cpp:54-72 | every list of init_values has at least five names |
| PoetInit.HasSurfaceSnoc | poet/src/InitGetSet.cpp:62-87 | some ID has a surface when the front has one or the last has one |
| PoetInit.SurfacePrimariesHO | poet/src/InitGetSet.cpp:66-68 | the filled surface primaries always hold H and O |
| PoetInit.TablesPrimaries | poet/src/InitGetSet.cpp:65-77 | surface_primaries is filled at most once, at the first surface cell while empty; later steps keep it |
| PoetInit.TablesEntries | poet/src/Extraction.cpp:81-90 | after the third loop a member map has an entry for a cell exactly when it was read and has that category |
| PoetInit.TablesLists | poet/src/InitGetSet.cpp:30-59 | the exchange, kinetics and equilibrium lists are the ones their wrappers' names filled in |
| PoetInit.ParseKeys | poet/src/Extraction.cpp:81-90 | the third loop stores one raw entry per ID read and nothing else |
| PoetInit.MergeEmpty | poet/src/Extraction.cpp:89 | storing no entries changes nothing |
| PoetInit.DumpSolutionNames | poet/src/InitGetSet.cpp:16-24 | dump_solution_names: the wrapper's names with everything past H, O and Charge expanded into valence states |
| PoetInit.ReadSolutionNames | poet/src/Extraction.cpp:56-72 | the first loop of parseInit stores each read ID's dump_solution_names |
| PoetInit.GetEssentialValuesInit | poet/src/InitGetSet.cpp:167-238 | the present categories' blocks appended in the fixed order solution, exchange, kinetics, equilibrium, surface |
| PoetInit.ReadCell | poet/src/Extraction.cpp:82-89 | one third-loop step: dump_reactant_names, then the cell's values read with the corrected solution order |
| PoetInit.ParseCells | poet/src/Extraction.cpp:81-90 | the third loop: each cell read in turn, its entry written over any earlier one |
| PoetInit.ParseCellsRead | poet/src/Extraction.cpp:52-91 | parseInit over the cells read: solution names, their union, then the third loop, each solution's values read with the corrected order (its full name list, not `begin() + 3`; see "## Findings") |
| PoetInit.CellRawPrimaries | poet/src/InitGetSet.cpp:223-235 | a cell's entry depends on the maps before its step only through the primaries it reads with |
| PoetInit.ParseEntry | poet/src/Extraction.cpp:81-90 | the entry stored for an ID is its cell read with the filled primaries |
| PoetInit.Dumped | poet/src/Extraction.cpp:64 | a solution read has at least the five names the solution wrapper writes |
| PoetInit.ParseAllRaws | poet/src/Extraction.cpp:52-91 | parseInit stores an entry exactly for each non-negative solution ID, the values read with its own names as order |
| PoetInit.InitRawNames | poet/src/Extraction.cpp:62-64 | an entry's names are H, O and Charge, the solution's valence states, and each present reactant's names |
| PoetInit.ParseAllPrimaries | poet/src/InitGetSet.cpp:65-77 | after parseInit the primaries are the filled set, with H and O, if some cell read has a surface, empty otherwise |
| PoetInit.SomeSurfaceRead | poet/src/Extraction.cpp:81-90 | the loop meets a surface cell exactly when some cell read has a surface |
| PoetInit.StoredAfterParse | poet/include/PhreeqcInit.hpp:104-170 | after parseInit the getters return the list the wrapper filled in for a read cell that has the category, and the empty list otherwise |
| PoetInit.FiveLengths | poet/include/PhreeqcInit.hpp:64 | the total length of the five name lists |
| PoetInit.BlocksMatch | poet/src/InitGetSet.cpp:167-238 | five blocks with one value per name have as many values as names |
| PoetInit.CellRawExact | poet/src/InitGetSet.cpp:167-238 | with fitting wrappers a cell's entry has exactly one value per name |
| PoetInit.InitRawExact | poet/src/Extraction.cpp:81-90 | each stored entry lines up: one value per name |
| PoetInit.ParseAllConsistent | poet/src/Extraction.cpp:52-91 | parseInit leaves every entry consistent |
| PoetInit.AsWrittenShort | poet/src/Extraction.cpp:84-88 | as written, the order drops the first three names, so the entry has three values fewer than names and is not consistent |
| PoetInit.DumpCommandInjective | poet/src/InitGetSet.cpp:246-247 | different cells are dumped with different DUMP commands |
| PoetInit.DumpsKeys | poet/src/InitGetSet.cpp:245-250 | raw_dumps stores one dump per ID and nothing else |
| PoetInit.DumpLoop | poet/src/InitGetSet.cpp:245-250 | the DUMP loop runs each ID's command in turn and stores its dump string |
| PoetInit.PhreeqcInit.constructor | poet/src/Extraction.cpp:42-50 | load the database, run the script, parseInit with the corrected solution order, and build the matrix over what parseInit read |
| PoetInit.PhreeqcInit.ParseInit | poet/src/Extraction.cpp:52-91 | the member maps and the entries parseInit computes with the corrected solution order; nothing else changes |
| PoetInit.PhreeqcInit.BuildPhreeqcMat | poet/src/Extraction.cpp:143-164 | the matrix over raw_initials |
| PoetInit.PhreeqcInit.GetPhreeqcMat | poet/include/PhreeqcInit.hpp:54 | the matrix the constructor built |
| PoetInit.PhreeqcInit.RawDumps | poet/src/InitGetSet.cpp:240-255 | one DUMP per raw_initials ID with the dump string on, then the flag off; nothing else changes |
| PoetInit.PhreeqcInit.GetSolutionPrimaries | poet/include/PhreeqcInit.hpp:81-84 | the surface primaries as a sorted list without repeats |
| PoetInit.PhreeqcInit.GetSolutionNames | poet/include/PhreeqcInit.hpp:93-95 | the stored solution names; an unknown ID inserts an empty entry and returns the empty list |
| PoetInit.PhreeqcInit.GetExchanger | poet/include/PhreeqcInit.hpp:104-110 | the stored exchange list, or empty for an unknown ID |
| PoetInit.PhreeqcInit.GetKineticsNames | poet/include/PhreeqcInit.hpp:119-125 | the stored kinetics list, or empty for an unknown ID |
| PoetInit.PhreeqcInit.GetEquilibriumNames | poet/include/PhreeqcInit.hpp:134-140 | the stored equilibrium list, or empty for an unknown ID |
| PoetInit.PhreeqcInit.GetSurfaceCompNames | poet/include/PhreeqcInit.hpp:149-155 | the stored surface component list, or empty for an unknown ID |
| PoetInit.PhreeqcInit.GetSurfaceChargeNames | poet/include/PhreeqcInit.hpp:164-170 | the stored surface charge list, or empty for an unknown ID |
| PoetInit.PhreeqcInit.GetModuleSizes | poet/src/Extraction.cpp:166-181 | each missing ID is default-inserted, and the sizes are those of the name union over the requested IDs |
| IPhreeqcPoet.BlocksLengths | poet/src/IPhreeqcPOET.cpp:225-271 | with fitting reactants each value block is as long as its name list |
| IPhreeqcPoet.EssentialLayout | poet/src/IPhreeqcPOET.cpp:187-271 | the values line up with the names: one value per name, and category c's values sit at the offset of c's names |
| IPhreeqcPoet.EssentialConsistent | poet/src/IPhreeqcPOET.cpp:187-271 | a cell's names and values read together form a consistent raw entry |
| IPhreeqcPoet.InitRawConsistent | poet/src/Init.cpp:50-54 | each solution read into raw_initials is consistent under fitting dumps |
| IPhreeqcPoet.InitValuesConsistent | poet/src/Init.cpp:44-55 | every entry parseInit reads is consistent under fitting dumps |
| IPhreeqcPoet.InitUpToStep | poet/src/Init.cpp:44-55 | one loop step stores the entry of a non-negative ID and skips a negative one |
| IPhreeqcPoet.InitUpToAll | poet/src/Init.cpp:44-55 | the loop over the solution map reads the entry of every non-negative solution ID |
| IPhreeqcPoet.ParsedKeys | poet/src/Init.cpp:40-56 | an extended raw_initials holds exactly the old IDs and the non-negative solution IDs, the latter with freshly read entries |
| IPhreeqcPoet.ReadSolutions | poet/src/Init.cpp:40-56 | the parseInit loop stores the read entries over the old ones |
| IPhreeqcPoet.OverrideUpdate | poet/src/IPhreeqcPOET.cpp:88-89 | storing an entry after merging equals merging after storing it |
| IPhreeqcPoet.OverrideConsistent | poet/src/Init.cpp:54 | merging consistent entry maps keeps them consistent |
| IPhreeqcPoet.Dest | poet/src/IPhreeqcPOET.cpp:44-58 | a module keyword fills exchange (1), kinetics (2), surface (4), or nothing (0) |
| IPhreeqcPoet.Inserted | poet/src/IPhreeqcPOET.cpp:65 | inserting a module's values adds exactly their count |
| IPhreeqcPoet.InsertedLayout | poet/src/IPhreeqcPOET.cpp:60-65 | the insertion puts the module's values where its category's names start and keeps the values before and after in order |
| IPhreeqcPoet.ValuesFromModule | poet/src/IPhreeqcPOET.cpp:41-66 | the module's names go into its category, and its values are inserted at the offset of that category |
| IPhreeqcPoet.SumTake | poet/src/IPhreeqcPOET.cpp:60-63 | the running offset over one more category adds that category's length |
| IPhreeqcPoet.SolutionOnlyOffset | poet/src/IPhreeqcPOET.cpp:60-63 | starting from the solution's names only, the module's values go right after the solution values |
| IPhreeqcPoet.MappedRawSpec | poet/src/IPhreeqcPOET.cpp:78-89 | a new mapped entry is the SOLUTION's names and leading values followed by the module's, nothing else, and it is consistent |
| IPhreeqcPoet.WithSolutionConsistent | poet/src/IPhreeqcPOET.cpp:79-81 | `mapped_values[sol_n]` default-inserting an empty entry keeps every entry consistent |
| IPhreeqcPoet.ResolveStep | poet/src/IPhreeqcPOET.cpp:73-90 | one mapping step keeps every entry consistent |
| IPhreeqcPoet.Resolve | poet/src/IPhreeqcPOET.cpp:68-91 | resolveSolutionUseKW keeps every entry consistent |
| IPhreeqcPoet.ResolveStepKeeps | poet/src/IPhreeqcPOET.cpp:74-76 | a mapping step leaves an existing entry alone |
| IPhreeqcPoet.ResolveKeeps | poet/src/IPhreeqcPOET.cpp:68-91 | an entry already mapped is never replaced, by the skip or by the default insertion |
| IPhreeqcPoet.NamedSnoc | poet/src/IPhreeqcPOET.cpp:73 | a cell is named by the mappings when the front names it or the last mapping does |
| IPhreeqcPoet.ResolveKeys | poet/src/IPhreeqcPOET.cpp:68-91 | after resolving, every mapping's module cell has an entry, and the entries are the old ones and those of cells some mapping names |
| IPhreeqcPoet.ResolveStepNew | poet/src/IPhreeqcPOET.cpp:78-89 | a mapping whose cell is not mapped yet adds the entry its SOLUTION and module give |
| IPhreeqcPoet.ResolveSolutionUseKW | poet/src/IPhreeqcPOET.cpp:68-91 | the loop computes the reference resolution over the mappings in order |
| IPhreeqcPoet.ResolveOne | poet/src/IPhreeqcPOET.cpp:73-90 | the loop body computes one mapping step |
| IPhreeqcPoet.MappedEntry | poet/src/IPhreeqcPOET.cpp:78-89 | the new entry of one mapping is the reference mapped entry |
| IPhreeqcPoet.DumpCommandInjective | poet/include/IPhreeqcPOET.hpp:109 | different cells are dumped with different DUMP commands |
| IPhreeqcPoet.DumpsKeys | poet/include/IPhreeqcPOET.hpp:108-112 | raw_dumps stores one dump per ID and nothing else |
| IPhreeqcPoet.SelectedSpec | poet/src/Init.cpp:125-127 | the collected raws: one per requested ID, the stored one or an empty one |
| IPhreeqcPoet.WithDefaultsSpec | poet/src/Init.cpp:125-127 | `raw_initials[id]` keeps the stored entries and adds an empty one per missing requested ID |
| IPhreeqcPoet.SelectedLists | poet/src/Init.cpp:125-127 | a collected raw lists a name exactly when a requested, stored raw does |
| IPhreeqcPoet.ModuleSizesCount | poet/src/Init.cpp:120-135 | outside the exchange, the union getModuleSizes counts holds exactly the names a requested, stored raw lists |
| IPhreeqcPoet.DefaultsConsistent | poet/src/Init.cpp:125-127 | the default-inserted empty entries are consistent |
| IPhreeqcPoet.DumpsFitModules | poet/src/IPhreeqcPOET.cpp:41-66 | fitting dumps give fitting modules |
| IPhreeqcPoet.Resolved | poet/src/IPhreeqcPOET.cpp:93-110 | the entries parseInitValues builds are consistent |
| IPhreeqcPoet.ResolvedKeys | poet/src/IPhreeqcPOET.cpp:93-110 | every non-negative solution is there as read, every mapping's module cell has an entry, and nothing else but cells a mapping names |
| IPhreeqcPoet.ResolvedRowsShape | poet/src/IPhreeqcPOET.cpp:141-158 | one row per entry, each with a column per union name |
| IPhreeqcPoet.InitRows | poet/src/IPhreeqcPOET.cpp:93-158 | the work of parseInitValues: the grown union, one NaN-padded row per entry in ID order, and the IDs |
| IPhreeqcPoet.DumpLoop | poet/include/IPhreeqcPOET.hpp:108-112 | the DUMP loop runs each ID's command in turn and stores its dump string |
| IPhreeqcPoet.DequeueLoop | poet/include/IPhreeqcPOET.hpp:61-65 | cells 1..count read back in order and appended |
| IPhreeqcPoet.SelectRaws | poet/src/Init.cpp:125-127 | the getModuleSizes loop: raw_initials with defaults inserted, and the collected raws |
| IPhreeqcPoet.SelectStep | poet/src/Init.cpp:125-127 | one loop step default-inserts and collects one requested ID |
| IPhreeqcPoet.IPhreeqcPOET.constructor | poet/include/IPhreeqcPOET.hpp:26-32 | load the database, run the script, and read every non-negative solution into raw_initials |
| IPhreeqcPoet.IPhreeqcPOET.Sized | poet/include/IPhreeqcPOET.hpp:34-46 | load and run; with more than one cell, `COPY cell 1 2-n`; nothing is read and the queue starts at 1 |
| IPhreeqcPoet.IPhreeqcPOET.ParseInit | poet/src/Init.cpp:40-56 | raw_initials gains an entry for every non-negative solution, overwriting older ones, and stays consistent |
| IPhreeqcPoet.IPhreeqcPOET.ParseInitValues | poet/src/IPhreeqcPOET.cpp:93-185 | initial_names becomes the grown union, and one row per resolved entry is appended with its ID; the solver and raws are unchanged |
| IPhreeqcPoet.IPhreeqcPOET.GetPhreeqcMat | poet/src/Init.cpp:97-118 | the matrix over raw_initials |
| IPhreeqcPoet.IPhreeqcPOET.GetModuleSizes | poet/src/Init.cpp:120-135 | missing IDs default-inserted; the sizes are those of the union over the requested IDs |
| IPhreeqcPoet.IPhreeqcPOET.RawDumps | poet/include/IPhreeqcPOET.hpp:103-117 | one DUMP per raw_initials ID with the dump string on, then the flag off |
| IPhreeqcPoet.IPhreeqcPOET.QueueCell | poet/include/IPhreeqcPOET.hpp:48-54 | once all cells are queued nothing happens; otherwise the next cell is set from the values and the pointer advances |
| IPhreeqcPoet.IPhreeqcPOET.DequeueCells | poet/include/IPhreeqcPOET.hpp:56-68 | the queued cells 1..pointer-1 are appended in order, and the queue is emptied |
| IPhreeqcPoet.IPhreeqcPOET.RunQueuedCells | poet/include/IPhreeqcPOET.hpp:70-75 | RUN_CELLS over cells 1..pointer-1, nothing for an empty queue; the pointer stays |
| IPhreeqcPoet.IPhreeqcPOET.SetCell | poet/include/IPhreeqcPOET.hpp:77-79 | the cell's reactants set from the values in the order of solutionInitVector |
| IPhreeqcPoet.IPhreeqcPOET.GetCell | poet/include/IPhreeqcPOET.hpp:81-83 | the cell's essential values, the solution in the order of solutionInitVector |
| IPhreeqcPoet.IPhreeqcPOET.Run | poet/include/IPhreeqcPOET.hpp:85-93 | one RUN_CELLS over start..end with the formatted time step |
| PoetRaw.OffsetBound | poet/src/Init.cpp:81-89 | a category's values, starting at its running offset, lie within the cell's value vector |
| PoetRaw.OffsetNext | poet/src/Init.cpp:88 | the offset of the next category is this category's offset plus the number of its names |
| PoetRaw.ConcVector | poet/src/Init.cpp:19-38 | the rearranged vector has one entry per new name |
| PoetRaw.ConcVectorNaN | poet/src/Init.cpp:25-35 | entry i is NaN exactly when the cell does not list new name i |
| PoetRaw.ConcVectorAt | poet/src/Init.cpp:26-31 | otherwise entry i is the cell's value at the first index of that name (std::find) |
| PoetRaw.ConcVectorKeeps | poet/src/Init.cpp:19-38 | with distinct cell names every cell value lands under its own name wherever the new list has it |
| PoetRaw.ConcVectorOwn | poet/src/Init.cpp:19-38 | rearranging distinct names under themselves gives the cell's values back |
| PoetRaw.Find | poet/src/Init.cpp:26-28 | std::find and std::distance give the first index of the name, or the length when it is absent |
| PoetRaw.CreateConcVector | poet/src/Init.cpp:19-38 | the loop over the new names builds exactly the rearranged vector |
| PoetRaw.SubAll | poet/src/Init.cpp:65-67 | the substitution keeps the exchange list's length |
| PoetRaw.SubAllMembers | poet/src/Init.cpp:65-67 | a name is in the substituted list exactly when it is the substitute of some listed name |
| PoetRaw.Keys | poet/src/Init.cpp:60 | a std::map<int, ...> is visited in strictly increasing key order, every key exactly once |
| PoetRaw.NamesOf | poet/src/Init.cpp:60-62 | one name set per visited cell |
| PoetRaw.UnionFromMembers | poet/src/Init.cpp:58-71 | outside the exchange category the accumulated union holds exactly the starting names and every name some cell lists |
| PoetRaw.UnionStepExchange | poet/src/Init.cpp:61-67 | after one cell the exchange union holds exactly the substitutes of the previous union's and the cell's exchange names |
| PoetRaw.UnionFromExchange | poet/src/Init.cpp:58-71 | from self-substituting starting names, the exchange union holds exactly those and the substitutes of the cells' exchange names |
| PoetRaw.UnionFromFixed | poet/src/Init.cpp:65-67 | every accumulated exchange name is its own substitute |
| PoetRaw.UnionOfMembers | poet/src/Init.cpp:58-71 | union_raws' non-exchange categories hold exactly the names some cell lists |
| PoetRaw.UnionOfExchange | poet/src/Init.cpp:58-71 | union_raws' exchange category holds exactly the substitutes of the cells' exchange names |
| PoetRaw.UnionExchangeFixed | poet/src/Init.cpp:65-67 | every name of union_raws' exchange list is its own substitute, so substituting again changes nothing |
| PoetRaw.InCategoryIds | poet/src/Init.cpp:60-62 | the names visited under the IDs are those the raws under the IDs list |
| PoetRaw.InCategoryRaws | poet/src/Init.cpp:60-62 | over the map's keys, the visited names are exactly the names some raw lists |
| PoetRaw.AllNamesMembers | poet/src/Init.cpp:58-71 | union_raws' category c (not exchange) holds exactly the names some raw lists in c |
| PoetRaw.UnionFromSorted | poet/src/Init.cpp:8-17 | std::set_union keeps sorted category lists sorted, so each non-exchange union is sorted |
| PoetRaw.SubstituteAll | poet/src/Init.cpp:65-67 | the for-loop substitutes each exchange name in place, giving the substituted list |
| PoetRaw.UnionCell | poet/src/Init.cpp:61-67 | the loop body for one cell: five set unions, then the exchange substitution |
| PoetRaw.UnionLoop | poet/src/Init.cpp:60-68 | the loop over the cells gives the union of all their names |
| PoetRaw.UnionRaws | poet/src/Init.cpp:58-71 | union_raws over the map equals the union of all raws' names, starting from five empty lists |
| PoetRaw.Part | poet/src/Init.cpp:82-83 | a category's part of the row has one entry per union name of that category |
| PoetRaw.Parts | poet/src/Init.cpp:81-89 | the five parts, one per category |
| PoetRaw.ConcRowLength | poet/src/Init.cpp:79-89 | a combined row has one entry per union name over all categories |
| PoetRaw.ConcRowLayout | poet/src/Init.cpp:81-89 | category c's part sits in the row at the union's offset of c |
| PoetRaw.ConcRowHolds | poet/src/Init.cpp:81-89 | a name the cell lists in category c shows, at its union column, the cell's value at the cell's own offset plus index |
| PoetRaw.ConcRowNaN | poet/src/Init.cpp:81-89 | a union column of category c is NaN in the row exactly when the cell does not list its name in c |
| PoetRaw.Rows | poet/src/Init.cpp:78-92 | one row per visited cell |
| PoetRaw.CombinedRow | poet/src/Init.cpp:79-89 | the loop over the categories with its running offset builds exactly the combined row |
| PoetRaw.RowsOf | poet/src/Init.cpp:78-92 | the loop over given IDs builds exactly one combined row per ID, in order |
| PoetRaw.ConcFromEssentials | poet/src/Init.cpp:73-95 | conc_from_essentials gives the combined rows of the raws in ascending ID order |
| PoetRaw.BuildColumns | poet/src/Init.cpp:106-110 | the column names are the categories' union names one after another; category c's start at its offset |
| PoetRaw.BuildShape | poet/src/Init.cpp:97-118 | one row per ID, and each row has one value per column name |
| PoetRaw.BuildHolds | poet/src/Init.cpp:97-118 | a name a cell lists has the cell's value in that cell's row, under the column of that name |
| PoetRaw.BuildNaN | poet/src/Init.cpp:97-118 | a column is NaN in a row exactly when that cell does not list the column's name in its category |
| PoetRaw.BuildHoldsAt | poet/src/Init.cpp:97-118 | BuildHolds at the column of the name itself |
| PoetRaw.BuildNaNAt | poet/src/Init.cpp:97-118 | BuildNaN at the column of a union name |
| PoetRaw.MatShape | poet/src/Init.cpp:97-118 | the IDs are raw_initials' keys in increasing order, one row per ID, each row as long as the names |
| PoetRaw.MatHolds | poet/src/Init.cpp:97-118 | outside the exchange category every value a cell holds reaches the matrix under the column of its name |
| PoetRaw.MatNaN | poet/src/Init.cpp:97-118 | a column is NaN in a row exactly when that cell does not list its name |
| PoetRaw.ExchangeColumns | poet/src/Init.cpp:58-71 | an exchange name the substitution changes is not a column; its substitute is |
| PoetRaw.MatExchangeRenamed | poet/src/Init.cpp:58-104 | when the substitution renames a cell's exchange name, that name's value does not reach the matrix: the substitute's column is NaN unless the cell also lists the substitute |
| PoetRaw.GetPhreeqcMat | poet/src/Init.cpp:97-118 | getPhreeqcMat builds the unions, the rows, the concatenated names and the IDs of the specified matrix |
| PoetRaw.Sizes | poet/src/Init.cpp:120-135 | one size per category, the number of names of that category's union |
| PoetSolution.NewSolutionWrapper | poet/src/Wrapper/SolutionWrapper.cpp:6-13 | the wrapper keeps the order past its first three names and counts all names as its size |
| PoetSolution.Slots | poet/src/Wrapper/SolutionWrapper.cpp:15-31 | get fills three scalar slots and one slot per ordered name |
| PoetSolution.Get | poet/src/Wrapper/SolutionWrapper.cpp:15-31 | get writes H, O and cb, then overwrites slots 3 and 4 and the rest with each ordered total, 0 when absent or at most 1e-25 |
| PoetSolution.SlotsRedox | poet/src/Wrapper/SolutionWrapper.cpp:19-29 | with an order starting H(0), O(0), slots 3 and 4 hold the clamped H(0) and O(0) totals |
| PoetSolution.Put | poet/src/Wrapper/SolutionWrapper.cpp:33-54 | set passes H, O, cb, H(0) and O(0) from slots 3 and 4, and each ordered total of at least 1e-25 |
| PoetSolution.SetKeepsRedox | poet/src/Wrapper/SolutionWrapper.cpp:41-42 | H(0) and O(0) are always passed on, even below the threshold |
| PoetSolution.SetTotals | poet/src/Wrapper/SolutionWrapper.cpp:41-51 | H(0) and O(0) carry slots 3 and 4; every other ordered name is passed on exactly when its slot is at least 1e-25 |
| PoetSolution.SetTotalsOnlyOrdered | poet/src/Wrapper/SolutionWrapper.cpp:44-51 | no name outside the order besides H(0) and O(0) reaches the solver |
| PoetSolution.SetGet | poet/src/Wrapper/SolutionWrapper.cpp:15-54 | set then get gives back H, O and cb and every total slot clamped at 1e-25 |
| PoetSolution.GetSet | poet/src/Wrapper/SolutionWrapper.cpp:15-54 | get then set passes the solution's own H, O and cb, its ordered totals above the threshold, and H(0) and O(0) as read |
| PoetSolution.GetSetGet | poet/src/Wrapper/SolutionWrapper.cpp:15-54 | reading, writing and reading again gives the first reading |
| PoetSolution.OtherTotals | poet/src/Wrapper/SolutionWrapper.cpp:63-71 | the names past the essentials enumerate the total names with the essentials erased |
| PoetSolution.OtherTotalsShape | poet/src/Wrapper/SolutionWrapper.cpp:63-73 | those names are sorted and are exactly the totals that are not essentials |
| PoetSolution.NamesWrapper | poet/src/Wrapper/SolutionWrapper.cpp:6-9 | a wrapper built from names has the order H(0), O(0), then the other totals |
| PoetSolution.NamesRedoxFirst | poet/src/Wrapper/SolutionWrapper.cpp:56-74 | that order starts with H(0) and O(0) and has no name twice |
| PoetSolution.WrapperSlots | poet/src/Wrapper/SolutionWrapper.cpp:8-30 | slot i past the first three reads the total named by entry i of the order the wrapper was given, clamped |
| PoetSolution.NamesMatchLayout | poet/src/Wrapper/SolutionWrapper.cpp:6-74 | a wrapper built from names has one slot per name and slot i reads the total names[i] |
| RawKeyword.Spaces | litephreeqc/src/Engine.cpp:93 | the length of the leading run of \s characters (classic locale), maximal |
| RawKeyword.Digits | litephreeqc/src/Engine.cpp:93 | the length of the leading run of \d characters, maximal |
| RawKeyword.MatchLen | litephreeqc/src/Engine.cpp:93 | a match of RAW\s+\d+ at the front is longer than three characters and starts with RAW |
| RawKeyword.ReplaceRaw | litephreeqc/src/Engine.cpp:91-95 | the rewrite is empty exactly when the dump string is |
| RawKeyword.ReplaceRawNoMatch | litephreeqc/src/Engine.cpp:91-95 | a dump string with no RAW keyword followed by an ID is left unchanged |
| RawKeyword.AfterMatch | litephreeqc/src/Engine.cpp:93-94 | a match takes all digits, so neither the remainder nor its rewrite starts with a digit |
| RawKeyword.NotRHead | litephreeqc/src/Engine.cpp:94 | a rewrite starting with a character other than R copies that character from an unmatched front |
| RawKeyword.CopiedRun | litephreeqc/src/Engine.cpp:94 | a run of non-R characters at the front of the rewrite is copied from the original |
| RawKeyword.SpacesDigitsBack | litephreeqc/src/Engine.cpp:93 | the spaces and digits of a match in a rewrite were spaces and digits in the original |
| RawKeyword.SpacesExact | litephreeqc/src/Engine.cpp:93 | a run of w spaces followed by a non-space has length w |
| RawKeyword.HeadNoMatch | litephreeqc/src/Engine.cpp:94 | a character kept in front of a rewrite never completes a new match |
| RawKeyword.ReplaceRawIdempotent | litephreeqc/src/Engine.cpp:91-95 | renumbering twice gives the same text as renumbering once: every RAW block already reads RAW 1 |
| Runner.Present | litephreeqc/src/Runner.cpp:34-42 | the buffer never holds more values than the cells |
| Runner.Fill | litephreeqc/src/Runner.cpp:44-53 | refilling keeps the number of cells |
| Runner.PresentStep | litephreeqc/src/Runner.cpp:36-41 | one copy_to_buffer step appends the cell's value unless it is NaN |
| Runner.FillStep | litephreeqc/src/Runner.cpp:47-52 | one copy_from_buffer step keeps a NaN and gives a number the next buffer value |
| Runner.PresentAt | litephreeqc/src/Runner.cpp:34-42 | the k-th buffer value comes from the k-th non-NaN cell |
| Runner.FillAt | litephreeqc/src/Runner.cpp:44-53 | a refilled row has its NaN holes where they were, and every other cell holds the next buffer value |
| Runner.FillPresent | litephreeqc/src/Runner.cpp:34-53 | refilling cells from their own values gives them back |
| Runner.FillPrefix | litephreeqc/src/Runner.cpp:44-53 | refilling reads only as many buffer values as there are non-NaN cells |
| Runner.PresentFill | litephreeqc/src/Runner.cpp:34-53 | compacting a refilled row gives the buffer values it used |
| Runner.ScatterCompact | litephreeqc/src/Runner.cpp:34-53 | copy_from_buffer after copy_to_buffer, with the buffer untouched, leaves the row unchanged |
| Runner.CompactScatter | litephreeqc/src/Runner.cpp:34-53 | copy_to_buffer after copy_from_buffer gives the buffer values that were used |
| Runner.ScatterShape | litephreeqc/src/Runner.cpp:44-53 | scattering keeps the length, the ID slot and the NaN holes, and the k-th non-NaN cell takes buffer value k |
| Runner.CopyToBuffer | litephreeqc/src/Runner.cpp:34-42 | the buffer is extended by the non-NaN values past the ID slot, in order |
| Runner.CopyFromBuffer | litephreeqc/src/Runner.cpp:44-53 | the row becomes the scatter of the buffer over it |
| Runner.PrefixBound | litephreeqc/src/Runner.cpp:34-42 | a prefix has no more non-NaN cells than the whole row |
| Runner.Process | litephreeqc/src/Runner.cpp:55-98 | running keeps the number of rows and the set of engine IDs; the run stops at the first row that throws, out_of_range or what runCell throws |
| Runner.StepRow | litephreeqc/src/Runner.cpp:58-70 | one row throws exactly when its ID has no engine or its engine's runCell throws, and a row that throws is not written back |
| Runner.ProcessLater | litephreeqc/src/Runner.cpp:57-71 | rows after the first n are not touched yet |
| Runner.ScatterSameShape | litephreeqc/src/Runner.cpp:44-53 | scattering any buffer keeps the shape of the row |
| Runner.ProcessShape | litephreeqc/src/Runner.cpp:55-98 | running keeps the length, ID slot and NaN holes of every row |
| Runner.ProcessIgnored | litephreeqc/src/Runner.cpp:74-98 | rows in `to_ignore` are left completely alone |
| Runner.ProcessFails | litephreeqc/src/Runner.cpp:55-98 | the run throws exactly when some row that is not ignored, reached with no exception before it, has no engine for its ID or makes runCell throw |
| Runner.ProcessStops | litephreeqc/src/Runner.cpp:66 | from a row with an unknown ID on, no row is touched |
| Runner.ProcessIdentity | litephreeqc/src/Runner.cpp:55-98 | with engines that hand the buffer back unchanged, every row is left unchanged |
| Runner.EngineMap | litephreeqc/src/Runner.cpp:28-31 | the engine map has exactly the matrix IDs as keys |
| Runner.EngineMapSize | litephreeqc/src/Runner.cpp:24-32 | with ascending distinct IDs there is one engine per ID |
| Runner.PhreeqcRunner.constructor | litephreeqc/src/Runner.cpp:24-32 | an engine for each ID of the matrix, an empty buffer, and numEngines equal to the number of IDs |
| Runner.PhreeqcRunner.RunRow | litephreeqc/src/Runner.cpp:58-70 | one row: clear the buffer, compact, run the ID's engine, scatter back; out_of_range for an ID without an engine, or runCell's exception with the row not written back |
| Runner.PhreeqcRunner.Run | litephreeqc/src/Runner.cpp:55-72 | every row in index order until one throws; the exception is out_of_range for an unknown ID or the one runCell throws (invalid_argument, runtime_error), and no later row is touched |
| Runner.PhreeqcRunner.RunIgnoring | litephreeqc/src/Runner.cpp:74-98 | as run, with the listed row indices skipped before any ID lookup, and the same exceptions |
| Runner.PhreeqcRunner.RunSkipping | litephreeqc/src/Runner.cpp:57-71 | the shared row loop: rows in index order, the ignored ones skipped, stopping with the first exception |
| Runner.ProcessNext | litephreeqc/src/Runner.cpp:79-97 | with no exception so far, one more row is skipped if ignored, otherwise one row step on the row as given |
| Runner.ProcessFailedStays | litephreeqc/src/Runner.cpp:66 | once the run failed, later rows change nothing |
| Runner.ProcessFailsAtUnknown | litephreeqc/src/Runner.cpp:59-66 | a row that is not ignored and names an ID without an engine makes the run throw |
| Runner.ProcessFailsUnknown | litephreeqc/src/Runner.cpp:55-98 | with engines whose runCell never throws, the run throws exactly when some row that is not ignored names an ID without an engine |
| Runner.ProcessAllThrow | litephreeqc/src/Runner.cpp:66 | with engines whose runCell throws at the time step (a negative one, litephreeqc/src/Engine.cpp:127-129), no row is written and the run throws exactly when some row is not ignored |
| Runner.Id | litephreeqc/src/Runner.cpp:59 | `static_cast<int>(row[0])` of an ID slot gives a value in the `int` range |
| SelectedOutput.FindChar | poet/src/SelectedOutputParser.cpp:127 | the position of the first delimiter, or the length when there is none |
| SelectedOutput.Split | poet/src/SelectedOutputParser.cpp:127 | the pieces std::getline reads contain no delimiter |
| SelectedOutput.JoinedCons | poet/src/SelectedOutputParser.cpp:127 | writing pieces back puts each one's delimiter after it |
| SelectedOutput.JoinSplit | poet/src/SelectedOutputParser.cpp:127 | the pieces std::getline reads, each written back with its delimiter, restore the text plus a final delimiter |
| SelectedOutput.LineAt | poet/src/SelectedOutputParser.cpp:56 | the line read at a position runs up to the next newline or the end and holds no newline |
| SelectedOutput.NextStart | poet/src/SelectedOutputParser.cpp:56-57 | current_pos += line.length() + 1 moves to the next line start, skipping no line |
| SelectedOutput.FirstNonBlank | poet/src/SelectedOutputParser.cpp:60-64 | find_first_not_of(" \t\r"): the first non-blank position, the length for a blank line |
| SelectedOutput.FirstOpen | poet/src/SelectedOutputParser.cpp:66-70 | the first line from a position on that is not blank and matches the keyword regex |
| SelectedOutput.FirstClose | poet/src/SelectedOutputParser.cpp:72-83 | the first line from a position on that is not blank, not the keyword and capitalised once left-trimmed |
| SelectedOutput.LastOpen | poet/src/SelectedOutputParser.cpp:66-69 | the last keyword line before a bound: a later keyword line resets block_start |
| SelectedOutput.FirstOpenIs | poet/src/SelectedOutputParser.cpp:66-70 | FirstOpen finds exactly the first opening line |
| SelectedOutput.FirstCloseIs | poet/src/SelectedOutputParser.cpp:76-83 | FirstClose finds exactly the first closing line from a position on |
| SelectedOutput.LastOpenIs | poet/src/SelectedOutputParser.cpp:66-69 | LastOpen finds exactly the last opening line before the bound |
| SelectedOutput.CountIsModular | poet/src/SelectedOutputParser.cpp:90 | block_end - block_start + 1 is computed modulo 2^64, as size_t arithmetic gives it |
| SelectedOutput.BlockBounds | poet/src/SelectedOutputParser.cpp:44-91 | there are no bounds exactly when no line opens the block; the start is an opening line and the close, when present, a closing line after it |
| SelectedOutput.BlockQuiet | poet/src/SelectedOutputParser.cpp:56-84 | between the block's start and its end no line opens or closes it |
| SelectedOutput.ScanLines | poet/src/SelectedOutputParser.cpp:49-84 | the line loop finds the block exactly when BlockBounds does, with its start and block_end at the close minus one or 0 |
| SelectedOutput.ScanStep | poet/src/SelectedOutputParser.cpp:56-84 | one line read without stopping keeps what the loop knows about the lines before it |
| SelectedOutput.ScanDone | poet/src/SelectedOutputParser.cpp:56-84 | when the loop ends, what it found is the block's bounds |
| SelectedOutput.NoOpenUpTo | poet/src/SelectedOutputParser.cpp:66-70 | after one more non-opening line, no line up to the next line start opens the block |
| SelectedOutput.NoCloseUpTo | poet/src/SelectedOutputParser.cpp:76-80 | after one more non-closing line, no line up to the next line start closes the block |
| SelectedOutput.GetBlockByKeyword | poet/src/SelectedOutputParser.cpp:44-91 | getBlockByKeyword returns the cut of the specified block bounds |
| SelectedOutput.CutFrom | poet/src/SelectedOutputParser.cpp:86-90 | the cut is std::string(input, block_start, block_end - block_start + 1) |
| SelectedOutput.CountWithin | poet/src/SelectedOutputParser.cpp:90 | without wrap-around the count is the plain difference plus one |
| SelectedOutput.CountWraps | poet/src/SelectedOutputParser.cpp:90 | with block_end left at 0 and a start of at least 2, the count wraps to 2^64 + 1 - start |
| SelectedOutput.CutClosed | poet/src/SelectedOutputParser.cpp:82-90 | with a closing line the cut is the text from the start up to that line |
| SelectedOutput.CutOpenEnded | poet/src/SelectedOutputParser.cpp:51-90 | without a closing line the wrapped count gives the rest of the text, one character at offset 0 and nothing at offset 1 |
| SelectedOutput.CutEmpty | poet/src/SelectedOutputParser.cpp:86-90 | the cut is empty exactly when there are no bounds, or when an open-ended block starts at offset 1 |
| SelectedOutput.CutStartsWithLine | poet/src/SelectedOutputParser.cpp:82-90 | a closed cut begins with its opening line |
| SelectedOutput.OpenCutStartsWithLine | poet/src/SelectedOutputParser.cpp:90 | an open-ended cut begins with its opening line, or is that line's first character at offset 0 |
| SelectedOutput.BlockClosed | poet/src/SelectedOutputParser.cpp:44-91 | with a closing line the block is the text from its opening line up to the closing line |
| SelectedOutput.BlockOpenEnded | poet/src/SelectedOutputParser.cpp:44-91 | without a closing line the block is what the wrapped length leaves |
| SelectedOutput.BlockEmpty | poet/src/SelectedOutputParser.cpp:86-91 | the block is empty exactly when no line opens it, or when an open-ended block opens at offset 1 |
| SelectedOutput.BlockStartsWithKeyword | poet/src/SelectedOutputParser.cpp:44-91 | a non-empty block begins with the keyword line that opened it (or its first character at offset 0 with no close) |
| SelectedOutput.BlocksOf | poet/src/SelectedOutputParser.cpp:100-111 | neither block gives nothing, USER_PUNCH alone is an error, otherwise the block string is SELECTED_OUTPUT's block followed by USER_PUNCH's |
| SelectedOutput.ReadBlocks | poet/src/SelectedOutputParser.cpp:93-112 | the two getBlockByKeyword calls and the checks give the specified outcome |
| SelectedOutput.Heading | poet/src/SelectedOutputParser.cpp:128-131 | a heading fails (substr out_of_range) exactly when the field is all spaces; otherwise it is the field from its first non-space plus _SO |
| SelectedOutput.FindNotSpace | poet/src/SelectedOutputParser.cpp:128 | find_first_not_of(" "): the first non-space position, the length when there is none |
| SelectedOutput.HeadingsMeaning | poet/src/SelectedOutputParser.cpp:127-132 | the headings are those of the fields before the first failing one, and there is an error exactly when some field fails |
| SelectedOutput.HeaderFields | poet/src/SelectedOutputParser.cpp:115-125 | the header line's tab fields; an error exactly when the output is empty (no first line) |
| SelectedOutput.ValueFields | poet/src/SelectedOutputParser.cpp:142-159 | the last line's tab fields; an error exactly when the output string is empty |
| SelectedOutput.Parsed | poet/src/SelectedOutputParser.cpp:159-167 | one value per field: the std::stod number, NaN when it finds none |
| SelectedOutput.ConstructedHeadings | poet/src/SelectedOutputParser.cpp:7-24 | a constructed parser has output exactly when there is a SELECTED_OUTPUT block; then one heading per value of the first cell, each the trimmed header field plus _SO, and the block string is both blocks |
| SelectedOutput.ConstructedErrors | poet/src/SelectedOutputParser.cpp:7-24 | the constructor throws when selected-output strings are off, for USER_PUNCH without SELECTED_OUTPUT, and without a header line |
| SelectedOutput.SelectedOutputParser.constructor | poet/src/SelectedOutputParser.cpp:7-24 | the fields are the specified outcome of the construction, or the exception it throws |
| SelectedOutput.SelectedOutputParser.CheckHeader | poet/src/SelectedOutputParser.cpp:16-23 | parseHeader, then an error when the headings do not match the first cell's values |
| SelectedOutput.SelectedOutputParser.Copy | poet/src/SelectedOutputParser.cpp:26-42 | the fields are copied; replaying the block throws exactly when there is a block and the run leaves errors |
| SelectedOutput.SelectedOutputParser.ParseSelectedOutputBlock | poet/src/SelectedOutputParser.cpp:93-112 | sets the block string and the flag from the two blocks, or reports the USER_PUNCH error |
| SelectedOutput.SelectedOutputParser.ParseHeader | poet/src/SelectedOutputParser.cpp:114-133 | pushes one heading per header field in order; an error for no first line or an all-space field |
| SelectedOutput.SelectedOutputParser.GetValueFields | poet/src/SelectedOutputParser.cpp:135-159 | nothing without selected output, otherwise the last line's fields or the empty-string error |
| SelectedOutput.SelectedOutputParser.GetValues | poet/src/SelectedOutputParser.cpp:135-170 | nothing without selected output; an error exactly for an empty string; otherwise one parsed value per field of the last line |
| SelectedOutput.HeadingsStep | poet/src/SelectedOutputParser.cpp:127-132 | one more field read: its heading joins the headings so far |
| SelectedOutput.HeadingsAppend | poet/src/SelectedOutputParser.cpp:127-132 | the headings of two runs of fields, the first without error, chain |
| Solution.Clamps | litephreeqc/src/Wrapper/SolutionWrapper.cpp:44-52 | one total slot per ordered name |
| Solution.ClampValues | litephreeqc/src/Wrapper/SolutionWrapper.cpp:51 | one value per slot read back |
| Solution.ClampRange | litephreeqc/src/Wrapper/SolutionWrapper.cpp:46-51 | a reported total is 0 or above 1e-25, and 0 exactly when the total is missing or at most 1e-25 |
| Solution.KeptStep | litephreeqc/src/Wrapper/SolutionWrapper.cpp:65-72 | one more ordered slot: kept when at least 1e-25, a later slot for the same name winning |
| Solution.KeptKeys | litephreeqc/src/Wrapper/SolutionWrapper.cpp:65-72 | names are only ever added to the new totals |
| Solution.KeptOther | litephreeqc/src/Wrapper/SolutionWrapper.cpp:65-72 | a name outside the order keeps what the base has |
| Solution.KeptAt | litephreeqc/src/Wrapper/SolutionWrapper.cpp:65-72 | with distinct names, a listed name holds its own slot if that is at least 1e-25, else the base's value |
| Solution.NewSolutionWrapper | litephreeqc/src/Wrapper/SolutionWrapper.cpp:19-28 | the wrapper keeps the order past the eight essentials, and its size counts them all |
| Solution.SlotsLayout | litephreeqc/src/Wrapper/SolutionWrapper.cpp:30-53 | get fills the wrapper's size; slot 8 + k is 0 or the k-th ordered total above 1e-25 |
| Solution.Get | litephreeqc/src/Wrapper/SolutionWrapper.cpp:30-53 | get writes the eight scalars, then each ordered total above 1e-25, or 0 |
| Solution.Put | litephreeqc/src/Wrapper/SolutionWrapper.cpp:55-77 | set passes H, O, cb, tc and patm from slots 0 to 4 and the ordered totals of at least 1e-25 to Update |
| Solution.SetIgnoresOutputs | litephreeqc/src/Wrapper/SolutionWrapper.cpp:55-77 | set ignores the SolVol, pH and pe slots |
| Solution.SetTotals | litephreeqc/src/Wrapper/SolutionWrapper.cpp:65-72 | with redox kept and no repeated name, the new totals hold exactly the ordered names whose slot is at least 1e-25, each with its slot |
| Solution.SetTotalsOnlyOrdered | litephreeqc/src/Wrapper/SolutionWrapper.cpp:65-72 | no name outside the order reaches the new totals |
| Solution.SetGet | litephreeqc/src/Wrapper/SolutionWrapper.cpp:30-77 | set then get: the five input scalars come back, SolVol, pH and pe keep the solution's values, and each total slot reads back clamped |
| Solution.GetSet | litephreeqc/src/Wrapper/SolutionWrapper.cpp:30-77 | get then set passes the solution's own scalars and its ordered totals above 1e-25 |
| Solution.GetSetGet | litephreeqc/src/Wrapper/SolutionWrapper.cpp:30-77 | reading, writing and reading again gives the first reading |
| Solution.TotalNames | litephreeqc/src/Wrapper/SolutionWrapper.cpp:92-104 | the totals besides H(0) and O(0), as the std::set orders them |
| Solution.TotalNamesShape | litephreeqc/src/Wrapper/SolutionWrapper.cpp:92-106 | those totals are sorted and are exactly the total names besides H(0) and O(0) |
| Solution.EssentialsNoRedox | litephreeqc/src/Wrapper/SolutionWrapper.cpp:85 | the essentials hold neither H(0) nor O(0) |
| Solution.OrderedNamesRedox | litephreeqc/src/Wrapper/SolutionWrapper.cpp:87-90 | H(0) and O(0) follow the essentials exactly when asked for |
| Solution.NamesRedox | litephreeqc/src/Wrapper/SolutionWrapper.cpp:79-108 | H(0) and O(0) are among the names exactly when asked for |
| Solution.SortedIsDistinct | litephreeqc/src/Wrapper/SolutionWrapper.cpp:92-106 | a std::set's elements in order have no repeats |
| Solution.DistinctAppend | litephreeqc/src/Wrapper/SolutionWrapper.cpp:85-106 | two repeat-free lists with nothing in common join into a repeat-free list |
| Solution.RedoxFirstDistinct | litephreeqc/src/Wrapper/SolutionWrapper.cpp:87-106 | H(0) and O(0) in front of the set's elements repeat nothing |
| Solution.OrderedNamesDistinct | litephreeqc/src/Wrapper/SolutionWrapper.cpp:79-108 | the names past the essentials have no repeats, so the round trips apply to a wrapper built from names |
| Solution.NamesWrapper | litephreeqc/src/Wrapper/SolutionWrapper.cpp:19-28 | a wrapper made from names keeps the names past the essentials as its order |
| Solution.NamesMatchLayout | litephreeqc/src/Wrapper/SolutionWrapper.cpp:19-108 | a wrapper built from names has one slot per name, and slot i past the essentials reads the total named names[i], clamped |
| Spans.OffsetBound | litephreeqc/src/Wrapper/KineticWrapper.cpp:39-49 | every component's sub-span lies inside the span |
| Spans.OffsetMonotone | litephreeqc/src/Wrapper/KineticWrapper.cpp:40-47 | the running offset never decreases |
| Spans.Block | litephreeqc/src/Wrapper/KineticWrapper.cpp:43 | data.subspan(offset, size) has the component's size |
| Spans.ConcatBlocksPrefix | litephreeqc/src/Wrapper/KineticWrapper.cpp:39-49 | the sub-spans concatenate back to the prefix of the span they cover |
| Spans.ConcatBlocks | litephreeqc/src/Wrapper/KineticWrapper.cpp:39-61 | sub-spans that exactly tile the span reassemble into it |
| Spans.BlockOfConcat | litephreeqc/src/Wrapper/KineticWrapper.cpp:51-61 | reading sub-span k of a concatenation gives part k back |
| Species.FirstWithPrefixFound | poet/src/Extraction.cpp:94-100 | the first species starting with the name, none exactly when no species does |
| Species.StartsWithTransitive | poet/src/Extraction.cpp:97 | a prefix of a prefix is a prefix |
| Species.SubExchangeNameSpec | poet/src/Extraction.cpp:93-102 | subExchangeName starts with the name; it is the name exactly when no species starts with it, else the first species that does |
| Species.SubExchangeNameIdempotent | poet/src/Extraction.cpp:93-102 | substituting twice is substituting once |
| Species.FindSpecies | litephreeqc/src/PhreeqcMatrix/Init.cpp:183-191 | the species search returns the first species that starts with the exchange name |
| Species.SubExchange | poet/include/IPhreeqcPOET.hpp:166-175 | subExchangeName's loop |
| SurfaceComp.TotalNames | litephreeqc/src/Wrapper/SurfaceCompWrapper.cpp:16-23 | the captured total names enumerate the component's totals keys, in map order |
| SurfaceComp.CompValuesLayout | litephreeqc/src/Wrapper/SurfaceCompWrapper.cpp:25-34 | a readable site fills its size: moles, la, charge_balance, then each captured total in captured order |
| SurfaceComp.CompGet | litephreeqc/src/Wrapper/SurfaceCompWrapper.cpp:25-34 | out_of_range exactly when a captured total is no longer a key of the totals map; otherwise the slot layout |
| SurfaceComp.TotalsFromAt | litephreeqc/src/Wrapper/SurfaceCompWrapper.cpp:41-48 | the rebuilt totals map has exactly the captured names as keys, each holding its own slot |
| SurfaceComp.CompPut | litephreeqc/src/Wrapper/SurfaceCompWrapper.cpp:36-49 | set writes the three fixed fields, clears the totals and re-inserts every captured name with its slot |
| SurfaceComp.CompSetTotals | litephreeqc/src/Wrapper/SurfaceCompWrapper.cpp:36-49 | after set the totals keys are exactly the captured names, so the next get cannot throw |
| SurfaceComp.LookupsTotalsFrom | litephreeqc/src/Wrapper/SurfaceCompWrapper.cpp:31-33 | looking the captured names up in the rebuilt map gives back the total slots in order |
| SurfaceComp.CompSetGet | litephreeqc/src/Wrapper/SurfaceCompWrapper.cpp:25-49 | set then get reproduces the span |
| SurfaceComp.CompGetSet | litephreeqc/src/Wrapper/SurfaceCompWrapper.cpp:25-49 | get then set leaves the site unchanged when the captured names are its totals keys |
| SurfaceComp.CompNamesAlign | litephreeqc/src/Wrapper/SurfaceCompWrapper.cpp:51-65 | one name per slot, and the column `formula_<total>` holds exactly that total |
| SurfaceComp.CompNamesOf | litephreeqc/src/Wrapper/SurfaceCompWrapper.cpp:51-65 | the names are `formula_moles`, `formula_la`, `formula_cb`, then `formula_<total>` in map order |
| SurfaceComp.KindLaws | litephreeqc/src/Wrapper/SurfaceCompWrapper.cpp:16-49 | the site wrapper writes exactly its size, keeps its size under set, and reads back any span it was given |
| SurfaceCharge.Primaries | litephreeqc/src/Wrapper/SurfaceChargeWrapper.cpp:16-20 | the charge wrapper's copy of the solution primaries enumerates that set in its order |
| SurfaceCharge.ChargeValuesLayout | litephreeqc/src/Wrapper/SurfaceChargeWrapper.cpp:22-44 | a charge fills its size, and the slot of each primary holds its diffuse-layer total, or 0 when the layer lacks it |
| SurfaceCharge.ChargeGet | litephreeqc/src/Wrapper/SurfaceChargeWrapper.cpp:22-44 | the loop writes the five fixed fields, then per primary `dl_map.find` or 0 |
| SurfaceCharge.LayerFromAt | litephreeqc/src/Wrapper/SurfaceChargeWrapper.cpp:54-66 | the rebuilt diffuse layer holds only primaries, never a 0, and each primary reads back as its slot |
| SurfaceCharge.ChargePut | litephreeqc/src/Wrapper/SurfaceChargeWrapper.cpp:46-67 | set writes the five fixed fields, clears the layer and inserts each primary whose slot is not 0 |
| SurfaceCharge.ChargeSetGet | litephreeqc/src/Wrapper/SurfaceChargeWrapper.cpp:22-67 | set then get reproduces the span: a skipped zero slot reads back as 0 |
| SurfaceCharge.Normalised | litephreeqc/src/Wrapper/SurfaceChargeWrapper.cpp:54-66 | dropping non-primary entries and zeros gives a normal layer |
| SurfaceCharge.LayerFromValues | litephreeqc/src/Wrapper/SurfaceChargeWrapper.cpp:22-67 | the layer that set rebuilds from get's slots is the normalised layer |
| SurfaceCharge.ChargeGetSet | litephreeqc/src/Wrapper/SurfaceChargeWrapper.cpp:22-67 | get then set keeps the fixed fields and normalises the layer; a charge with a normal layer comes back unchanged |
| SurfaceCharge.ChargeNamesAlign | litephreeqc/src/Wrapper/SurfaceChargeWrapper.cpp:69-85 | one name per slot, and the column `name_tot_<primary>` holds that primary's diffuse-layer total |
| SurfaceCharge.ChargeNamesOf | litephreeqc/src/Wrapper/SurfaceChargeWrapper.cpp:69-85 | the names are `_area`, `_grams`, `_cb`, `_mw`, `_la`, then `_tot_<primary>` in set order |
| SurfaceCharge.KindLaws | litephreeqc/src/Wrapper/SurfaceChargeWrapper.cpp:16-67 | the charge wrapper writes exactly its size, keeps its size under set, and reads back any span it was given |
| Surface.NewSurfaceWrapper | litephreeqc/src/Wrapper/SurfaceWrapper.cpp:17-56 | runtime_error exactly when a requested formula or charge name is not found; otherwise the requested components, then the requested charges, each over the first match, with their totals captured |
| Surface.GetComp | litephreeqc/src/Wrapper/SurfaceWrapper.cpp:61-65 | one component step appends the component's slots, or stops get with out_of_range |
| Surface.GetCharge | litephreeqc/src/Wrapper/SurfaceWrapper.cpp:67-71 | one charge step appends the charge's slots |
| Surface.GetComps | litephreeqc/src/Wrapper/SurfaceWrapper.cpp:61-65 | the component loop yields the reference get over the components |
| Surface.GetCharges | litephreeqc/src/Wrapper/SurfaceWrapper.cpp:67-71 | the charge loop yields the charges' slots and never fails |
| Surface.Get | litephreeqc/src/Wrapper/SurfaceWrapper.cpp:58-72 | the components' slots then the charges', or out_of_range from a component; an Ok span has the element count |
| Surface.PutComp | litephreeqc/src/Wrapper/SurfaceWrapper.cpp:77-81 | one component step reads its sub-span at the running offset |
| Surface.PutCharge | litephreeqc/src/Wrapper/SurfaceWrapper.cpp:83-87 | one charge step reads its sub-span at the running offset |
| Surface.PutComps | litephreeqc/src/Wrapper/SurfaceWrapper.cpp:77-81 | the component loop is the reference set over the components |
| Surface.PutCharges | litephreeqc/src/Wrapper/SurfaceWrapper.cpp:83-87 | the charge loop is the reference set over the charges |
| Surface.Put | litephreeqc/src/Wrapper/SurfaceWrapper.cpp:74-88 | the first slots go to the components, the rest to the charges |
| Surface.SetGet | litephreeqc/src/Wrapper/SurfaceWrapper.cpp:58-88 | with nothing wrapped twice, set then get succeeds and reproduces the span |
| Surface.GetSet | litephreeqc/src/Wrapper/SurfaceWrapper.cpp:58-88 | with freshly captured totals and normal diffuse layers, get succeeds and writing its span back leaves the surface unchanged |
| Surface.CompColumns | litephreeqc/src/Wrapper/SurfaceWrapper.cpp:97-101 | the component loop of names: every site's names and its formula, in solver order |
| Surface.ChargeColumns | litephreeqc/src/Wrapper/SurfaceWrapper.cpp:103-108 | the charge loop of names: every charge's names and its name, in solver order |
| Surface.Names | litephreeqc/src/Wrapper/SurfaceWrapper.cpp:90-111 | the sites' names then the charges' names, and the formulas and charge names in solver order |
| Surface.NamesMatchWrapper | litephreeqc/src/Wrapper/SurfaceWrapper.cpp:17-111 | with distinct formulas and charge names, wrapping what names reports wraps each once and gives one column per slot |
| Text.NatString | litephreeqc/src/Wrapper/KineticCompWrapper.cpp:49 | std::to_string of an unsigned value prints its decimal digits, never empty |
| Text.NatStringInjective | litephreeqc/src/Wrapper/KineticCompWrapper.cpp:49 | different numbers print differently, so numbered parameter names do not collide |
| Text.NatStringHead | litephreeqc/src/Wrapper/KineticCompWrapper.cpp:49 | a printed number starts with a digit |
| Text.IntStringInjective | poet/src/InitGetSet.cpp:247 | different cell IDs print differently |
| Valence.RunEnd | src/phreeqcpp/litephreeqc_funcs.cpp:66-83 | the run of valence states after a master species ends at the first successor that does not start with the species followed by '(' |
| Valence.ValenceNotSelf | src/phreeqcpp/litephreeqc_funcs.cpp:70-78 | a valence state is longer than its element, so never the element itself |
| Valence.EmittedCases | src/phreeqcpp/litephreeqc_funcs.cpp:88-98 | a newly met species with valence states is replaced by the whole run that follows it in the master list, and is not listed itself; without valence states it stands for itself |
| Valence.ExpandKeepsOut | src/phreeqcpp/litephreeqc_funcs.cpp:32-99 | the output only grows: what was emitted stays in front |
| Valence.ExpandAppend | src/phreeqcpp/litephreeqc_funcs.cpp:32-99 | the loop over a + b is the loop over a, then over b |
| Valence.ExpandFound | src/phreeqcpp/litephreeqc_funcs.cpp:39-52 | the master species met are exactly the primaries of the names not passed through |
| Valence.ExpandMembers | src/phreeqcpp/litephreeqc_funcs.cpp:32-99 | from a fresh start a name is in the output exactly when some input name contributes it: passed through, or one of its species' names; nothing is lost by skipping a species met before |
| Valence.WithValencesMembers | src/phreeqcpp/litephreeqc_funcs.cpp:20-102 | membership in the result of find_all_valence_states |
| Valence.SpeciesOnce | src/phreeqcpp/litephreeqc_funcs.cpp:46-52 | a name whose master species was met before adds nothing |
| Valence.IgnoredAppended | src/phreeqcpp/litephreeqc_funcs.cpp:34-37 | an ignored name is appended unchanged where the loop meets it |
| Valence.IgnoredPrefix | src/phreeqcpp/litephreeqc_funcs.cpp:17-37 | a leading run of ignored names (the essentials) comes out unchanged and first |
| Valence.PrefixOut | src/phreeqcpp/litephreeqc_funcs.cpp:34-37 | a run of ignored names is copied as it is |
| Valence.OffsetPrefix | src/phreeqcpp/GFZ.cpp:5-6 | the offset variant copies the first offset names unchanged |
| Valence.OffsetFound | src/phreeqcpp/GFZ.cpp:11-25 | the offset variant meets the primaries of the names past the offset |
| Valence.FindMaster | src/phreeqcpp/litephreeqc_funcs.cpp:60-63 | the search finds the first occurrence of the species in the master list |
| Valence.LastValence | src/phreeqcpp/litephreeqc_funcs.cpp:64-83 | the while loop stops at the last valence state |
| Valence.CopyRun | src/phreeqcpp/litephreeqc_funcs.cpp:91-93 | the push_back loop copies the run of valence states |
| Valence.EmitSpecies | src/phreeqcpp/litephreeqc_funcs.cpp:54-98 | what one newly met species contributes |
| Valence.StepName | src/phreeqcpp/litephreeqc_funcs.cpp:34-98 | the body of the loop over the names |
| Valence.FindAllValenceStates | src/phreeqcpp/litephreeqc_funcs.cpp:20-102 | find_all_valence_states is the fold described above, with the fixed ignore set |
| Valence.FindAllValenceStatesFrom | src/phreeqcpp/GFZ.cpp:3-75 | the offset variant copies the first offset names, then folds over the rest with no ignore set |

## Left out

- The PHREEQC solver itself is not modelled. That covers `LoadDatabaseString`, `RunString`, RUN_CELLS and DUMP, `cxxSolution::Update`, `Simplify_redox`, `master_bsearch_primary`, `initial_solutions_poet`, the species list and the dump-string contents. Each is a function parameter or an abstract instance. `Update` is modelled as plain storage of the new totals, which is what the round-trip lemmas rely on.
- Floating point: a `double` is a real number or the NaN tag. Rounding, infinities and signed zeros are not modelled.
- The `setprecision(20)` formatting of the time step (litephreeqc/src/Engine.cpp:140-144) is not modelled. In the engine it is folded into the solver parameter, which takes the time step as a number. In `IPhreeqcPOET` it is the `formatTime` field of the solver record.
- `std::stod` in `getValues` (poet/src/SelectedOutputParser.cpp:159-167) is a parameter that returns an optional value, and a field without a value reads as NaN. In the source only `invalid_argument` becomes NaN, while `out_of_range` propagates. The model does not tell the two apart.
- The error count `RunString` returns is part of the solver parameter's result. Its side effects on the instance are whatever that parameter returns.
- `std::uint32_t` truncation of `ModulesArray` entries in poet/src/Init.cpp:120-135 is not modelled. Module sizes are natural numbers.
- Shared ownership is not modelled. The `shared_ptr<IPhreeqc>` shared by matrix copies is a class `Matrix.Instance` of its own. The process-wide `include_h0_o0` and `with_redox` flags (litephreeqc/src/PhreeqcMatrix/Init.cpp:34-35) are explicit parameters.
- Undefined behaviour in the source becomes a precondition:
  - an empty cell map in `get`, `getSolutionNames`, `remove_NaNs` and `getMatrixEquilibrium`;
  - a NaN or out-of-`int`-range cell ID in `row[0]`;
  - a module pointer that is never checked (`IPhreeqcPoet.ModuleReady`);
  - a solution with fewer than five names, or one that breaks the `assert` in `find_all_valence_states` (`PoetInit.Ready`);
  - reactant dumps that do not fit their module sizes (`IPhreeqcPoet.DumpsFit`);
  - an exchange component whose formula is not a key of its totals, which `get` and `set` dereference without a check (litephreeqc/src/Wrapper/ExchangeCompWrapper.cpp:27 and :45); `Exchange.ReadableAt` and `Exchange.Fits` require it to be one;
  - queueing a cell on an `IPhreeqcPOET` made by the two-argument constructor, which leaves `n_cells` uninitialised (poet/include/IPhreeqcPOET.hpp:26-32); `IPhreeqcPoet.IPhreeqcPOET.QueueCell` requires `nCells.Some?`;
  - a solution whose reactant records do not fit their wrappers, or whose names the solver's primary lookup cannot resolve, in `initialize` (`MatrixInit.Ready`).
- `remove_NaNs` appends to `intersection` while it reads it (litephreeqc/src/PhreeqcMatrix/Init.cpp:264-267), which is undefined once the vector reallocates. The as-written model reads the loop as repeated appends.
- Matrix.Subset, Matrix.Erase: both end with the intended clean-up (`Matrix.RemoveNaNs`), not the loop as written (`Matrix.RemoveNaNsAsWritten`) that litephreeqc/src/PhreeqcMatrix/Access.cpp:33 and :46 call. The loop as written copies `elements_to_remove[0]` and then, on its first iteration, intersects that copy with `elements_to_remove[0]` itself while it `push_back`s onto the copy. That is undefined behaviour as soon as the copy reallocates, which can happen only when the lowest cell has a NaN name. `Matrix.AsWrittenAgreesWithoutFirstNaN` proves that when the lowest cell has no NaN name, the two versions give the same matrix. So every input where they differ is one where the source's result may be undefined.
- PoetInit.ParseCellsRead, PoetInit.PhreeqcInit.constructor, PoetInit.PhreeqcInit.ParseInit: these read each solution's values with its full name list as the order. poet/src/Extraction.cpp:84 passes `begin() + 3` instead. As written, each raw entry has three values fewer than names (`PoetInit.AsWrittenShort`), and buildPhreeqcMat then reads past the end of the values of an entry. The model uses the corrected order, as "## Findings" records.
- PoetInit.PhreeqcInit.constructor assumes `PoetInit.AllFit`: every reactant wrapper of a cell read gives one value per name. The wrapper code guarantees this by construction, but the solver snapshot's read functions are abstract, so the model takes it as a precondition.
- `getMatrixKinetics` evaluates `this->get().names` again for every kinetics name of every cell it looks up (litephreeqc/src/PhreeqcMatrix/Access.cpp:266). The model evaluates it once, which gives the same list, because `get()` is `const` and the matrix does not change in between. `getMatrixEquilibrium` reads `get().names` once, before its loop (litephreeqc/src/PhreeqcMatrix/Access.cpp:283), as the model does. The copies of the name list are not modelled.
- The six member maps of `PhreeqcInit` (`exchanger` … `surface_primaries`) are one field, `tables`, of the class.
- `get_essential_values_init` default-inserts through `operator[]`. `parseInit` always fills the entry first, so the model reads it as a lookup.
- `PhreeqcInit` builds its matrix once, in the constructor. Later default inserts by `getModuleSizes` or `getSolutionNames` do not rebuild it. The model keeps this.
- The accessors `getDatabase`, `getIds` and `getParams` are field reads. `getDatabase` has no member of its own: the `database` field of `Matrix.PhreeqcMatrix` is read directly.
- The keyword regular expression `"^" + keyword + "*$"` (`SelectedOutput.KeywordLine`) is modelled only for keywords without regular-expression metacharacters. The parser uses only such keywords.
- `SelectedOutput.BlockClosed` does not state that the block it returns ends with a newline.
- Order.SetIntersectionWithin states only that every name the merge loop emits is in both inputs. For unsorted inputs it does not say which common names the loop misses.
- MatrixExport.Get writes the ID column as the ID's exact real value. The conversion of an `int` to `double` cannot lose precision, so no rounding is left out.
- poet/src/IPhreeqcPOET.cpp: the model covers the definitions of `valuesFromModule` (:41-66), `resolveSolutionUseKW` (:68-91), `parseInitValues` (:93-185), `dump_essential_names` (:187-223) and `get_essential_values` (:225-271). `set_essential_values` (:273-302) is the `setValues` field of the solver record. The copies of `unionStringVectors` and `createConcVector` at :9-39 are modelled through their twins in poet/src/Init.cpp. Two of the modelled definitions have no declaration in poet/include/IPhreeqcPOET.hpp: `valuesFromModule` is commented out there (:163-164), and `resolveSolutionUseKW` is not declared at all. The model treats both as members of the class. The commented-out lines inside `parseInitValues` (:116-121, :160-184) are not modelled. Neither is its `ids_to_erase` loop, which erases nothing because nothing is ever pushed onto that list.
- Test helpers (`IPhreeqcReader`), CLI drivers (`app/`), `utils.cpp` and the gtest suites are not modelled.
- The matrix constructors that drive the solver (litephreeqc/src/PhreeqcMatrix/Ctor.cpp) are modelled only through the loop structure of `initialize`.
- The component writers (`SetUpTo` in the exchange, equilibrium and composite wrappers) leave a component unchanged when its span has the wrong size. In the source that case cannot occur, because the spans are cut by the components' own sizes (`Exchange.SetUpToShape`).
- The equilibrium wrapper assumes (`Equilibrium.Named`) that a wrapped phase's name is the key it was found under, as the solver keeps them.
- Every `names()` generator starts from an empty list. The source appends to the caller's vector, and every caller passes a fresh one.
- A surface `get` that throws `out_of_range` halfway has already written the earlier slots. The model returns the error without those partial writes.
- The solver parameter is assumed not to resize the buffer and to keep the cell's reactants (`Runner.KeepsLength`, `Engine.KeepsShape`, `Engine.KeepsLength`).
- Rows of the runner's grid are copied values. The model does not capture aliasing between rows.
- The knob instance (`Knobs.Phreeqc`) holds only the six knob fields.
- The engine constructor's database loading and its `writeKnobs` call are parameters of `Engine.NewEngine`.
- The reactant wrappers inside the engine are modelled as slot storage per reactant, not as separately allocated objects.

## Findings

| source | as written | input that shows it | evidently intended | confidence | as-written member | corrected member |
|---|---|---|---|---|---|---|
| litephreeqc/src/PhreeqcMatrix/Init.cpp:261-267 | `std::set_intersection(..., std::back_inserter(intersection))` appends each intersection to `intersection` itself, so the names removed are those of `elements_to_remove[0]` (the first cell's NaN names) | two cells with element X: cell 1 has X = NaN, cell 2 has X = 5.0; `remove_NaNs` drops X from cell 2 and loses the 5.0 | remove exactly the names that are NaN in every cell | not executed | `Matrix.AsWrittenDropsValue` (over `Matrix.RemoveNaNsAsWritten`) | `Matrix.CleanedKeepsValue` (over `Matrix.RemoveNaNs`) |
| litephreeqc/src/PhreeqcMatrix/Access.cpp:262-264 | `getMatrixKinetics` loops `i = 0 .. n-1` and calls `getKineticsNames(i)`, using the loop index as a cell ID | a matrix holding only cell 1, with kinetic reactant Calcite: the result is empty, not Calcite_kin | loop over the cell IDs of the matrix | not executed | `MatrixExport.KineticsAsWrittenMissesCell` (over `MatrixExport.MatrixKineticsAsWritten`) | `MatrixExport.KineticsFindsCell` (over `MatrixExport.GetMatrixKinetics`) |
| litephreeqc/src/PhreeqcMatrix/Access.cpp:285-287 | `getMatrixEquilibrium` makes the same index-for-ID substitution with `getEquilibriumNames(i)` | a matrix holding only cell 1, with one pure phase: its columns are missed | loop over the cell IDs of the matrix | not executed | `MatrixExport.EquilibriumAsWrittenMissesCell` | `MatrixExport.EquilibriumFindsCell` (over `MatrixExport.GetMatrixEquilibrium`) |
| poet/src/Extraction.cpp:84-88 | `get_essential_values_init` gets `solution_order` from `begin() + 3`, and `SolutionWrapper` drops three more names, so the values come three short of the names | any solution whose expanded names are at least five long: the raw entry has three fewer values than names | pass the full solution name list as the order | not executed | `PoetInit.AsWrittenShort` (over `PoetInit.CellRawWith`) | `PoetInit.CellRawExact` and `PoetInit.ParseAllConsistent` (over `PoetInit.ReadCell`) |
