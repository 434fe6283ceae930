// The marshaling of POET's two legacy initialisers, which carry the same code
// (IPhreeqcPOET in poet/src/Init.cpp, PhreeqcInit in poet/src/Extraction.cpp).
// A cell's names come in five categories (solution, exchange, kinetics,
// equilibrium, surface), and its values form one flat vector holding the
// categories' values one after the other. The matrix lists, per category, the
// union of all cells' names; each cell's row puts its values under those names,
// with NaN where the cell has no such name.

module PoetRaw {
  import opened Values
  import Order
  import opened Species

  /** The POET_SOL ... POET_SURF indices of an essential_names array. */
  const PoetSol: nat := 0
  const PoetExch: nat := 1
  const PoetKin: nat := 2
  const PoetEquil: nat := 3
  const PoetSurf: nat := 4

  /** essential_names: a std::array of five name lists. */
  type Categories = n: seq<seq<string>> | |n| == 5 witness [[], [], [], [], []]

  /** A value-initialised essential_names: five empty lists. */
  const NoNames: Categories := [[], [], [], [], []]

  /** One entry of raw_initials: the cell's names per category and its flat values. */
  datatype Raw = Raw(names: Categories, values: seq<real>)

  /** What `raw_initials[id]` inserts for an ID it does not hold. */
  const NoRaw: Raw := Raw(NoNames, [])

  /** Where category c's values start: after the values of the categories before it. */
  function Offset(names: Categories, c: nat): nat
    requires c <= 5
  {
    Sum(Lengths(names[..c]))
  }

  /** The vector has a value for every name of every category (createConcVector reads within it). */
  predicate Consistent(r: Raw)
  {
    Sum(Lengths(r.names)) <= |r.values|
  }

  predicate AllConsistent(raws: map<int, Raw>)
  {
    forall id :: id in raws ==> Consistent(raws[id])
  }

  lemma ConsistentAt(raws: map<int, Raw>, id: int)
    requires AllConsistent(raws) && id in raws
    ensures Consistent(raws[id])
  {
  }

  lemma OffsetBound(names: Categories, c: nat)
    requires c < 5
    ensures Offset(names, c) + |names[c]| <= Sum(Lengths(names))
  {
    ConcatBlock(names, c);
    ConcatLength(names);
  }

  lemma OffsetNext(names: Categories, c: nat)
    requires c < 5
    ensures Offset(names, c + 1) == Offset(names, c) + |names[c]|
  {
    assert names[..c + 1] == names[..c] + [names[c]];
    assert Lengths(names[..c] + [names[c]]) == Lengths(names[..c]) + [|names[c]|];
    SumAppend(Lengths(names[..c]), [|names[c]|]);
  }

  /** Sequences of lists with the same lengths have the same Lengths, whatever they hold. */
  lemma SameLengths<A, B>(a: seq<seq<A>>, b: seq<seq<B>>)
    requires |a| == |b| && forall i :: 0 <= i < |a| ==> |a[i]| == |b[i]|
    ensures Lengths(a) == Lengths(b)
  {
  }

  lemma ConcatSnoc<T>(s: seq<seq<T>>, k: nat)
    requires k < |s|
    ensures Concat(s[..k + 1]) == Concat(s[..k]) + s[k]
  {
    assert s[..k + 1] == s[..k] + [s[k]];
    ConcatAppend(s[..k], [s[k]]);
    assert Concat([s[k]]) == s[k] + Concat([]);
  }

  // ---------------------------------------------------------------- createConcVector

  /** The value a cell gives `name`: the value under the name's first index among the cell's names, NaN when it has none. */
  function Pick(concNames: seq<string>, conc: seq<real>, name: string): Val
    requires |concNames| <= |conc|
  {
    var k := Order.IndexOf(concNames, name);
    if k < |concNames| then Num(conc[k]) else NaN
  }

  /** createConcVector: the cell's values rearranged under `newNames`. */
  function ConcVector(concNames: seq<string>, conc: seq<real>, newNames: seq<string>): (r: seq<Val>)
    requires |concNames| <= |conc|
    ensures |r| == |newNames|
  {
    seq(|newNames|, i requires 0 <= i < |newNames| => Pick(concNames, conc, newNames[i]))
  }

  /** Entry i is NaN exactly when the cell does not list newNames[i]. */
  lemma ConcVectorNaN(concNames: seq<string>, conc: seq<real>, newNames: seq<string>, i: nat)
    requires |concNames| <= |conc| && i < |newNames|
    ensures ConcVector(concNames, conc, newNames)[i] == NaN <==> newNames[i] !in concNames
  {
  }

  /** Otherwise it is the value under the first index of that name in the cell. */
  lemma ConcVectorAt(concNames: seq<string>, conc: seq<real>, newNames: seq<string>, i: nat, j: nat)
    requires |concNames| <= |conc| && i < |newNames| && j < |concNames|
    requires concNames[j] == newNames[i] && forall k :: 0 <= k < j ==> concNames[k] != newNames[i]
    ensures ConcVector(concNames, conc, newNames)[i] == Num(conc[j])
  {
    assert Order.IndexOf(concNames, newNames[i]) == j;
  }

  /** With distinct cell names, every cell value lands under its own name, wherever the target list has it. */
  lemma ConcVectorKeeps(concNames: seq<string>, conc: seq<real>, newNames: seq<string>, j: nat, p: nat)
    requires |concNames| <= |conc| && Order.Distinct(concNames)
    requires j < |concNames| && p < |newNames| && newNames[p] == concNames[j]
    ensures ConcVector(concNames, conc, newNames)[p] == Num(conc[j])
  {
    ConcVectorAt(concNames, conc, newNames, p, j);
  }

  /** Rearranging distinct names under themselves gives the values back. */
  lemma ConcVectorOwn(concNames: seq<string>, conc: seq<real>)
    requires |concNames| <= |conc| && Order.Distinct(concNames)
    ensures ConcVector(concNames, conc, concNames) == Nums(conc[..|concNames|])
  {
    forall j | 0 <= j < |concNames|
      ensures ConcVector(concNames, conc, concNames)[j] == Nums(conc[..|concNames|])[j]
    {
      ConcVectorKeeps(concNames, conc, concNames, j, j);
    }
  }

  /** std::find over the cell's names. */
  method Find(names: seq<string>, x: string) returns (k: nat)
    ensures k == Order.IndexOf(names, x)
  {
    k := 0;
    while k < |names| && names[k] != x
      invariant k <= |names|
      invariant forall i :: 0 <= i < k ==> names[i] != x
    {
      k := k + 1;
    }
    assert k == Order.IndexOf(names, x);
  }

  /** createConcVector's loop over the new names. */
  method CreateConcVector(concNames: seq<string>, conc: seq<real>, newNames: seq<string>) returns (r: seq<Val>)
    requires |concNames| <= |conc|
    ensures r == ConcVector(concNames, conc, newNames)
  {
    r := [];
    for i := 0 to |newNames|
      invariant |r| == i
      invariant forall k :: 0 <= k < i ==> r[k] == Pick(concNames, conc, newNames[k])
    {
      var k := Find(concNames, newNames[i]);
      if k < |concNames| {
        r := r + [Num(conc[k])];
      } else {
        r := r + [NaN];
      }
    }
    Extensional(r, ConcVector(concNames, conc, newNames));
  }

  // ---------------------------------------------------------------- union_raws

  /** The exchange substitution applied to every name of a list. */
  function SubAll(species: seq<string>, names: seq<string>): (r: seq<string>)
    ensures |r| == |names|
  {
    seq(|names|, i requires 0 <= i < |names| => SubExchangeName(species, names[i]))
  }

  lemma SubAllMembers(species: seq<string>, names: seq<string>, x: string)
    ensures x in SubAll(species, names) <==> exists z :: z in names && x == SubExchangeName(species, z)
  {
    var r := SubAll(species, names);
    if exists z :: z in names && x == SubExchangeName(species, z) {
      var z :| z in names && x == SubExchangeName(species, z);
      var i :| 0 <= i < |names| && names[i] == z;
      assert r[i] == x;
    }
  }

  /** One cell's step of union_raws: each category's std::set_union with the cell's names, then the substitution over the exchange union. */
  function UnionStep(acc: Categories, cell: Categories, species: seq<string>): Categories
  {
    [Order.SetUnion(acc[PoetSol], cell[PoetSol]),
     SubAll(species, Order.SetUnion(acc[PoetExch], cell[PoetExch])),
     Order.SetUnion(acc[PoetKin], cell[PoetKin]),
     Order.SetUnion(acc[PoetEquil], cell[PoetEquil]),
     Order.SetUnion(acc[PoetSurf], cell[PoetSurf])]
  }

  /** The union loop over the cells' names, in order, from the lists `start`. */
  function UnionFrom(start: Categories, cells: seq<Categories>, species: seq<string>): Categories
    decreases |cells|
  {
    if cells == [] then start
    else UnionStep(UnionFrom(start, cells[..|cells| - 1], species), cells[|cells| - 1], species)
  }

  /** union_raws over the cells' names, from five empty lists. */
  function UnionOf(cells: seq<Categories>, species: seq<string>): Categories
  {
    UnionFrom(NoNames, cells, species)
  }

  /** The keys of a std::map<int, ...> in iteration order. */
  function Keys<T>(m: map<int, T>): (r: seq<int>)
    ensures Order.Increasing(r) && |r| == |m|
    ensures forall id :: id in r <==> id in m
  {
    Order.AscendingInts(m.Keys)
  }

  /** The names of the raws under ids, in order. */
  function NamesOf(raws: map<int, Raw>, ids: seq<int>): (r: seq<Categories>)
    requires forall i :: 0 <= i < |ids| ==> ids[i] in raws
    ensures |r| == |ids|
  {
    seq(|ids|, i requires 0 <= i < |ids| => raws[ids[i]].names)
  }

  /** union_raws(raws). */
  function AllNames(raws: map<int, Raw>, species: seq<string>): Categories
  {
    UnionOf(NamesOf(raws, Keys(raws)), species)
  }

  /** Some cell lists x in category c. */
  predicate InCategory(cells: seq<Categories>, c: nat, x: string)
    requires c < 5
  {
    exists k :: 0 <= k < |cells| && x in cells[k][c]
  }

  lemma InCategorySnoc(cells: seq<Categories>, c: nat, x: string)
    requires cells != [] && c < 5
    ensures InCategory(cells, c, x) <==> InCategory(cells[..|cells| - 1], c, x) || x in cells[|cells| - 1][c]
  {
    var front := cells[..|cells| - 1];
    if InCategory(front, c, x) {
      var k :| 0 <= k < |front| && x in front[k][c];
      assert cells[k] == front[k];
    }
    if InCategory(cells, c, x) {
      var k :| 0 <= k < |cells| && x in cells[k][c];
      if k < |front| { assert cells[k] == front[k]; }
    }
  }

  /** Outside the exchange category, the union holds exactly the starting names and the names some cell lists. */
  lemma {:induction false} UnionFromMembers(start: Categories, cells: seq<Categories>, species: seq<string>, c: nat, x: string)
    requires c < 5 && c != PoetExch
    ensures x in UnionFrom(start, cells, species)[c] <==> x in start[c] || InCategory(cells, c, x)
    decreases |cells|
  {
    if cells != [] {
      var n := |cells| - 1;
      var front := cells[..n];
      UnionFromMembers(start, front, species, c, x);
      Order.SetUnionElements(UnionFrom(start, front, species)[c], cells[n][c]);
      InCategorySnoc(cells, c, x);
    }
  }

  /** Some cell lists an exchange name whose substitute is x. */
  predicate SubstituteIn(cells: seq<Categories>, species: seq<string>, x: string)
  {
    exists k, y :: 0 <= k < |cells| && y in cells[k][PoetExch] && x == SubExchangeName(species, y)
  }

  lemma SubstituteInFront(cells: seq<Categories>, species: seq<string>, k: nat, y: string)
    requires k < |cells| - 1 && y in cells[k][PoetExch]
    ensures SubstituteIn(cells[..|cells| - 1], species, SubExchangeName(species, y))
  {
    assert cells[..|cells| - 1][k] == cells[k];
  }

  /** Every name of the list is its own substitute. */
  predicate Fixed(species: seq<string>, names: seq<string>)
  {
    forall x :: x in names ==> SubExchangeName(species, x) == x
  }

  /** A name of the exchange union after one more cell comes from the union before or is a substitute of the cell's names. */
  lemma UnionStepExchange(prev: seq<string>, cell: Categories, acc: Categories, species: seq<string>, x: string)
    requires prev == acc[PoetExch]
    ensures x in UnionStep(acc, cell, species)[PoetExch] <==>
      exists z :: (z in prev || z in cell[PoetExch]) && x == SubExchangeName(species, z)
  {
    var merged := Order.SetUnion(prev, cell[PoetExch]);
    Order.SetUnionElements(prev, cell[PoetExch]);
    SubAllMembers(species, merged, x);
  }

  /**
   * With starting exchange names that are their own substitutes, the
   * exchange union holds exactly those names and the substitutes of the
   * cells' exchange names: the union's names are substituted again after
   * each cell, which leaves them as they are.
   */
  lemma {:induction false} UnionFromExchange(start: Categories, cells: seq<Categories>, species: seq<string>, x: string)
    requires Fixed(species, start[PoetExch])
    ensures x in UnionFrom(start, cells, species)[PoetExch] <==> x in start[PoetExch] || SubstituteIn(cells, species, x)
    decreases |cells|
  {
    if cells != [] {
      var n := |cells| - 1;
      var front := cells[..n];
      var acc := UnionFrom(start, front, species);
      var prev := acc[PoetExch];
      UnionStepExchange(prev, cells[n], acc, species, x);
      if x in UnionFrom(start, cells, species)[PoetExch] {
        var z :| (z in prev || z in cells[n][PoetExch]) && x == SubExchangeName(species, z);
        if z !in cells[n][PoetExch] {
          UnionFromExchange(start, front, species, z);
          if !(z in start[PoetExch]) {
            var k, y :| 0 <= k < |front| && y in front[k][PoetExch] && z == SubExchangeName(species, y);
            SubExchangeNameIdempotent(species, y);
            assert cells[k] == front[k];
          }
        }
      }
      if x in start[PoetExch] || SubstituteIn(cells, species, x) {
        if x in start[PoetExch] {
          UnionFromExchange(start, front, species, x);
        } else {
          var k, y :| 0 <= k < |cells| && y in cells[k][PoetExch] && x == SubExchangeName(species, y);
          if k < n {
            SubstituteInFront(cells, species, k, y);
            UnionFromExchange(start, front, species, x);
            SubExchangeNameIdempotent(species, y);
          }
        }
      }
    }
  }

  /** The exchange union of fixed starting names is fixed again: every name is its own substitute. */
  lemma UnionFromFixed(start: Categories, cells: seq<Categories>, species: seq<string>, x: string)
    requires Fixed(species, start[PoetExch]) && x in UnionFrom(start, cells, species)[PoetExch]
    ensures SubExchangeName(species, x) == x
  {
    UnionFromExchange(start, cells, species, x);
    if x !in start[PoetExch] {
      var k, y :| 0 <= k < |cells| && y in cells[k][PoetExch] && x == SubExchangeName(species, y);
      SubExchangeNameIdempotent(species, y);
    }
  }

  /** Outside the exchange category, union_raws holds exactly the names some cell lists. */
  lemma UnionOfMembers(cells: seq<Categories>, species: seq<string>, c: nat, x: string)
    requires c < 5 && c != PoetExch
    ensures x in UnionOf(cells, species)[c] <==> InCategory(cells, c, x)
  {
    UnionFromMembers(NoNames, cells, species, c, x);
  }

  /** union_raws' exchange list holds exactly the substitutes of the cells' exchange names. */
  lemma UnionOfExchange(cells: seq<Categories>, species: seq<string>, x: string)
    ensures x in UnionOf(cells, species)[PoetExch] <==> SubstituteIn(cells, species, x)
  {
    UnionFromExchange(NoNames, cells, species, x);
  }

  /** Every name of union_raws' exchange list is its own substitute. */
  lemma UnionExchangeFixed(cells: seq<Categories>, species: seq<string>, x: string)
    requires x in UnionOf(cells, species)[PoetExch]
    ensures SubExchangeName(species, x) == x
  {
    UnionFromFixed(NoNames, cells, species, x);
  }

  lemma InCategoryIds(raws: map<int, Raw>, ids: seq<int>, c: nat, x: string)
    requires c < 5 && forall i :: 0 <= i < |ids| ==> ids[i] in raws
    ensures InCategory(NamesOf(raws, ids), c, x) <==> exists i :: 0 <= i < |ids| && x in raws[ids[i]].names[c]
  {
    var cells := NamesOf(raws, ids);
    assert forall i :: 0 <= i < |ids| ==> cells[i] == raws[ids[i]].names;
  }

  /** The names of the cells under NamesOf are the names of the raws under those IDs. */
  lemma InCategoryRaws(raws: map<int, Raw>, c: nat, x: string)
    requires c < 5
    ensures InCategory(NamesOf(raws, Keys(raws)), c, x) <==> exists id :: id in raws && x in raws[id].names[c]
  {
    var ids := Keys(raws);
    InCategoryIds(raws, ids, c, x);
    if exists id :: id in raws && x in raws[id].names[c] {
      var id :| id in raws && x in raws[id].names[c];
      var k :| 0 <= k < |ids| && ids[k] == id;
    }
  }

  /** union_raws' category c (other than exchange) holds exactly the names some raw lists in category c. */
  lemma AllNamesMembers(raws: map<int, Raw>, species: seq<string>, c: nat, x: string)
    requires c < 5 && c != PoetExch
    ensures x in AllNames(raws, species)[c] <==> exists id :: id in raws && x in raws[id].names[c]
  {
    UnionOfMembers(NamesOf(raws, Keys(raws)), species, c, x);
    InCategoryRaws(raws, c, x);
  }

  /** std::set_union keeps sorted lists sorted, so the union of sorted category lists is sorted. */
  lemma {:induction false} UnionFromSorted(start: Categories, cells: seq<Categories>, species: seq<string>, c: nat)
    requires c < 5 && c != PoetExch && Order.Sorted(start[c])
    requires forall k :: 0 <= k < |cells| ==> Order.Sorted(cells[k][c])
    ensures Order.Sorted(UnionFrom(start, cells, species)[c])
    decreases |cells|
  {
    if cells != [] {
      var n := |cells| - 1;
      UnionFromSorted(start, cells[..n], species, c);
      Order.SetUnionSorted(UnionFrom(start, cells[..n], species)[c], cells[n][c]);
    }
  }

  /** The for-loop over the exchange union that substitutes each name in place. */
  method SubstituteAll(species: seq<string>, names: seq<string>) returns (r: seq<string>)
    ensures r == SubAll(species, names)
  {
    r := names;
    for i := 0 to |names|
      invariant |r| == |names|
      invariant forall k :: 0 <= k < i ==> r[k] == SubExchangeName(species, names[k])
      invariant forall k :: i <= k < |names| ==> r[k] == names[k]
    {
      var s := SubExchange(species, r[i]);
      r := r[i := s];
    }
    Extensional(r, SubAll(species, names));
  }

  /** The body of union_raws' loop for one cell. */
  method UnionCell(acc: Categories, cell: Categories, species: seq<string>) returns (r: Categories)
    ensures r == UnionStep(acc, cell, species)
  {
    r := acc;
    for i := 0 to 5
      invariant forall c :: 0 <= c < i ==> r[c] == Order.SetUnion(acc[c], cell[c])
      invariant forall c :: i <= c < 5 ==> r[c] == acc[c]
    {
      r := r[i := Order.SetUnion(r[i], cell[i])];
    }
    var ex := SubstituteAll(species, r[PoetExch]);
    r := r[PoetExch := ex];
    Extensional(r, UnionStep(acc, cell, species));
  }

  lemma UnionFromSnoc(start: Categories, cells: seq<Categories>, species: seq<string>, k: nat)
    requires k < |cells|
    ensures UnionFrom(start, cells[..k + 1], species) == UnionStep(UnionFrom(start, cells[..k], species), cells[k], species)
  {
    assert cells[..k + 1][..k] == cells[..k];
  }

  /** The union loop over the raws under ids, from the lists `start`. */
  method UnionLoop(start: Categories, raws: map<int, Raw>, ids: seq<int>, species: seq<string>) returns (names: Categories)
    requires forall i :: 0 <= i < |ids| ==> ids[i] in raws
    ensures names == UnionFrom(start, NamesOf(raws, ids), species)
  {
    ghost var cells := NamesOf(raws, ids);
    names := start;
    for k := 0 to |ids|
      invariant names == UnionFrom(start, cells[..k], species)
    {
      UnionFromSnoc(start, cells, species, k);
      names := UnionCell(names, raws[ids[k]].names, species);
    }
    TakeAll(cells);
  }

  /** union_raws: the loop over the map. */
  method UnionRaws(raws: map<int, Raw>, species: seq<string>) returns (names: Categories)
    ensures names == AllNames(raws, species)
  {
    names := UnionLoop(NoNames, raws, Keys(raws), species);
  }

  // ---------------------------------------------------------------- conc_from_essentials

  /** Category c of a cell's row: the cell's values from the category's offset, under the union's names of the category. */
  function Part(raw: Raw, names: Categories, c: nat): (p: seq<Val>)
    requires Consistent(raw) && c < 5
    ensures |p| == |names[c]|
  {
    OffsetBound(raw.names, c);
    ConcVector(raw.names[c], raw.values[Offset(raw.names, c)..], names[c])
  }

  function Parts(raw: Raw, names: Categories): (p: seq<seq<Val>>)
    requires Consistent(raw)
    ensures |p| == 5 && forall c :: 0 <= c < 5 ==> p[c] == Part(raw, names, c)
  {
    [Part(raw, names, 0), Part(raw, names, 1), Part(raw, names, 2), Part(raw, names, 3), Part(raw, names, 4)]
  }

  /** One row of conc_from_essentials: the five categories' rearranged vectors, one after the other. */
  function ConcRow(raw: Raw, names: Categories): seq<Val>
    requires Consistent(raw)
  {
    Concat(Parts(raw, names))
  }

  lemma LengthsPrefix<T>(s: seq<seq<T>>, c: nat)
    requires c <= |s|
    ensures Lengths(s[..c]) == Lengths(s)[..c]
  {
  }

  lemma PartsLengths(raw: Raw, names: Categories)
    requires Consistent(raw)
    ensures Lengths(Parts(raw, names)) == Lengths(names)
  {
    SameLengths(Parts(raw, names), names);
  }

  /** The row has one entry per union name. */
  lemma ConcRowLength(raw: Raw, names: Categories)
    requires Consistent(raw)
    ensures |ConcRow(raw, names)| == Sum(Lengths(names))
  {
    PartsLengths(raw, names);
    ConcatLength(Parts(raw, names));
  }

  /** Category c's part of the row sits at the union's offset of c. */
  lemma ConcRowLayout(raw: Raw, names: Categories, c: nat)
    requires Consistent(raw) && c < 5
    ensures Offset(names, c) + |names[c]| <= |ConcRow(raw, names)|
    ensures ConcRow(raw, names)[Offset(names, c)..Offset(names, c) + |names[c]|] == Part(raw, names, c)
  {
    var p := Parts(raw, names);
    PartsLengths(raw, names);
    LengthsPrefix(p, c);
    LengthsPrefix(names, c);
    ConcatBlock(p, c);
  }

  /** A name the cell lists in category c (first at index j) shows the cell's value at j in the row's column for that name. */
  lemma ConcRowHolds(raw: Raw, names: Categories, c: nat, j: nat, p: nat)
    requires Consistent(raw) && c < 5 && j < |raw.names[c]| && p < |names[c]|
    requires names[c][p] == raw.names[c][j] && forall k :: 0 <= k < j ==> raw.names[c][k] != raw.names[c][j]
    ensures Offset(raw.names, c) + j < |raw.values|
    ensures Offset(names, c) + p < |ConcRow(raw, names)|
    ensures ConcRow(raw, names)[Offset(names, c) + p] == Num(raw.values[Offset(raw.names, c) + j])
  {
    ConcRowLayout(raw, names, c);
    OffsetBound(raw.names, c);
    var conc := raw.values[Offset(raw.names, c)..];
    ConcVectorAt(raw.names[c], conc, names[c], p, j);
    assert ConcRow(raw, names)[Offset(names, c) + p] == Part(raw, names, c)[p];
  }

  /** A column of category c is NaN in the row exactly when the cell does not list its name in c. */
  lemma ConcRowNaN(raw: Raw, names: Categories, c: nat, p: nat)
    requires Consistent(raw) && c < 5 && p < |names[c]|
    ensures Offset(names, c) + p < |ConcRow(raw, names)|
    ensures ConcRow(raw, names)[Offset(names, c) + p] == NaN <==> names[c][p] !in raw.names[c]
  {
    ConcRowLayout(raw, names, c);
    OffsetBound(raw.names, c);
    ConcVectorNaN(raw.names[c], raw.values[Offset(raw.names, c)..], names[c], p);
    assert ConcRow(raw, names)[Offset(names, c) + p] == Part(raw, names, c)[p];
  }

  /** The rows of the raws under ids, in order. */
  function Rows(raws: map<int, Raw>, ids: seq<int>, names: Categories): (r: seq<seq<Val>>)
    requires AllConsistent(raws) && forall i :: 0 <= i < |ids| ==> ids[i] in raws
    ensures |r| == |ids|
  {
    seq(|ids|, k requires 0 <= k < |ids| => RowOf(raws, ids[k], names))
  }

  function RowOf(raws: map<int, Raw>, id: int, names: Categories): seq<Val>
    requires AllConsistent(raws) && id in raws
  {
    ConcRow(raws[id], names)
  }

  lemma RowOfLength(raws: map<int, Raw>, id: int, names: Categories)
    requires AllConsistent(raws) && id in raws
    ensures |RowOf(raws, id, names)| == Sum(Lengths(names))
  {
    ConcRowLength(raws[id], names);
  }

  lemma RowsSnoc(raws: map<int, Raw>, ids: seq<int>, names: Categories, k: nat)
    requires AllConsistent(raws) && k < |ids| && forall i :: 0 <= i < |ids| ==> ids[i] in raws
    ensures Rows(raws, ids[..k + 1], names) == Rows(raws, ids[..k], names) + [RowOf(raws, ids[k], names)]
  {
    Extensional(Rows(raws, ids[..k + 1], names), Rows(raws, ids[..k], names) + [RowOf(raws, ids[k], names)]);
  }

  /** One combined_conc_vec: the loop over the five categories with its running offset. */
  method CombinedRow(raw: Raw, names: Categories) returns (row: seq<Val>)
    requires Consistent(raw)
    ensures row == ConcRow(raw, names)
  {
    ghost var parts := Parts(raw, names);
    row := [];
    var offset := 0;
    for i := 0 to 5
      invariant offset == Offset(raw.names, i)
      invariant row == Concat(parts[..i])
    {
      OffsetBound(raw.names, i);
      var v := CreateConcVector(raw.names[i], raw.values[offset..], names[i]);
      ConcatSnoc(parts, i);
      row := row + v;
      OffsetNext(raw.names, i);
      offset := offset + |raw.names[i]|;
    }
    TakeAll(parts);
  }

  /** The loop of conc_from_essentials over given IDs. */
  method RowsOf(raws: map<int, Raw>, ids: seq<int>, names: Categories) returns (values: seq<seq<Val>>)
    requires AllConsistent(raws) && forall i :: 0 <= i < |ids| ==> ids[i] in raws
    ensures values == Rows(raws, ids, names)
  {
    values := [];
    for k := 0 to |ids|
      invariant values == Rows(raws, ids[..k], names)
    {
      ConsistentAt(raws, ids[k]);
      var row := CombinedRow(raws[ids[k]], names);
      RowsSnoc(raws, ids, names, k);
      values := values + [row];
    }
    TakeAll(ids);
  }

  /** conc_from_essentials: one row per raw, in map order. */
  method ConcFromEssentials(raws: map<int, Raw>, names: Categories) returns (values: seq<seq<Val>>)
    requires AllConsistent(raws)
    ensures values == Rows(raws, Keys(raws), names)
  {
    values := RowsOf(raws, Keys(raws), names);
  }

  // ---------------------------------------------------------------- getPhreeqcMat / buildPhreeqcMat

  /** PhreeqcMat: the column names, the cell IDs and one row per ID. */
  datatype PhreeqcMat = PhreeqcMat(names: seq<string>, ids: seq<int>, values: seq<seq<Val>>)

  /** The matrix over given union names and IDs. */
  function Build(raws: map<int, Raw>, ids: seq<int>, u: Categories): PhreeqcMat
    requires AllConsistent(raws) && forall i :: 0 <= i < |ids| ==> ids[i] in raws
  {
    PhreeqcMat(Concat(u), ids, Rows(raws, ids, u))
  }

  /** getPhreeqcMat over raw_initials. */
  function Mat(raws: map<int, Raw>, species: seq<string>): PhreeqcMat
    requires AllConsistent(raws)
  {
    Build(raws, Keys(raws), AllNames(raws, species))
  }

  /** Row k of m has value v in column col, whose name is x. */
  predicate Holds(m: PhreeqcMat, k: nat, col: nat, x: string, v: Val)
  {
    col < |m.names| && m.names[col] == x && k < |m.values| && col < |m.values[k]| && m.values[k][col] == v
  }

  /** The column of x among category c's union names u[c]. */
  function Column(u: Categories, c: nat, x: string): nat
    requires c < 5
  {
    Offset(u, c) + Order.IndexOf(u[c], x)
  }

  /** The value a cell holds for its j-th name of category c. */
  function CellValue(raw: Raw, c: nat, j: nat): Val
    requires Consistent(raw) && c < 5 && j < |raw.names[c]|
  {
    OffsetBound(raw.names, c);
    Num(raw.values[Offset(raw.names, c) + j])
  }

  /** The column names of category c sit at the union's offset of c. */
  lemma BuildColumns(raws: map<int, Raw>, ids: seq<int>, u: Categories, c: nat, p: nat)
    requires AllConsistent(raws) && forall i :: 0 <= i < |ids| ==> ids[i] in raws
    requires c < 5 && p < |u[c]|
    ensures Offset(u, c) + p < |Build(raws, ids, u).names|
    ensures Build(raws, ids, u).names[Offset(u, c) + p] == u[c][p]
  {
    ConcatBlock(u, c);
    assert Concat(u)[Offset(u, c)..Offset(u, c) + |u[c]|][p] == u[c][p];
  }

  /** There is one row per ID, and every row has one value per column name. */
  lemma BuildShape(raws: map<int, Raw>, ids: seq<int>, u: Categories)
    requires AllConsistent(raws) && forall i :: 0 <= i < |ids| ==> ids[i] in raws
    ensures var m := Build(raws, ids, u);
      |m.values| == |ids| && forall k :: 0 <= k < |m.values| ==> |m.values[k]| == |m.names|
  {
    ConcatLength(u);
    forall k | 0 <= k < |ids| ensures |RowOf(raws, ids[k], u)| == Sum(Lengths(u)) {
      RowOfLength(raws, ids[k], u);
    }
  }

  /** A name cell k lists in category c (first at index j) has the cell's value at j in the column u[c][p] == x. */
  lemma BuildHolds(raws: map<int, Raw>, ids: seq<int>, u: Categories, k: nat, c: nat, j: nat, p: nat)
    requires AllConsistent(raws) && forall i :: 0 <= i < |ids| ==> ids[i] in raws
    requires k < |ids| && c < 5
    requires var raw := raws[ids[k]];
      j < |raw.names[c]| && p < |u[c]| && u[c][p] == raw.names[c][j] &&
      forall i :: 0 <= i < j ==> raw.names[c][i] != raw.names[c][j]
    ensures Holds(Build(raws, ids, u), k, Offset(u, c) + p, u[c][p], CellValue(raws[ids[k]], c, j))
  {
    BuildColumns(raws, ids, u, c, p);
    ConcRowHolds(raws[ids[k]], u, c, j, p);
  }

  /** Column u[c][p] is NaN in row k exactly when cell k does not list u[c][p] in category c. */
  lemma BuildNaN(raws: map<int, Raw>, ids: seq<int>, u: Categories, k: nat, c: nat, p: nat)
    requires AllConsistent(raws) && forall i :: 0 <= i < |ids| ==> ids[i] in raws
    requires k < |ids| && c < 5 && p < |u[c]|
    ensures Offset(u, c) + p < |Build(raws, ids, u).names|
    ensures Holds(Build(raws, ids, u), k, Offset(u, c) + p, u[c][p], NaN) <==> u[c][p] !in raws[ids[k]].names[c]
  {
    BuildColumns(raws, ids, u, c, p);
    ConcRowNaN(raws[ids[k]], u, c, p);
  }

  /** BuildHolds at the column of the name itself. */
  lemma BuildHoldsAt(raws: map<int, Raw>, ids: seq<int>, u: Categories, k: nat, c: nat, j: nat)
    requires AllConsistent(raws) && forall i :: 0 <= i < |ids| ==> ids[i] in raws
    requires k < |ids| && c < 5
    requires var raw := raws[ids[k]];
      j < |raw.names[c]| && raw.names[c][j] in u[c] &&
      forall i :: 0 <= i < j ==> raw.names[c][i] != raw.names[c][j]
    ensures var raw := raws[ids[k]];
      Holds(Build(raws, ids, u), k, Column(u, c, raw.names[c][j]), raw.names[c][j], CellValue(raw, c, j))
  {
    var x := raws[ids[k]].names[c][j];
    var p := Order.IndexOf(u[c], x);
    BuildHolds(raws, ids, u, k, c, j, p);
  }

  /** BuildNaN at the column of a name of the union. */
  lemma BuildNaNAt(raws: map<int, Raw>, ids: seq<int>, u: Categories, k: nat, c: nat, x: string)
    requires AllConsistent(raws) && forall i :: 0 <= i < |ids| ==> ids[i] in raws
    requires k < |ids| && c < 5 && x in u[c]
    ensures Holds(Build(raws, ids, u), k, Column(u, c, x), x, NaN) <==> x !in raws[ids[k]].names[c]
  {
    BuildNaN(raws, ids, u, k, c, Order.IndexOf(u[c], x));
  }

  /**
   * The IDs are raw_initials' keys in ascending order, there is one row per
   * ID, and every row has one value per column name.
   */
  lemma MatShape(raws: map<int, Raw>, species: seq<string>)
    requires AllConsistent(raws)
    ensures var m := Mat(raws, species);
      Order.Increasing(m.ids) && (forall id :: id in m.ids <==> id in raws) &&
      |m.values| == |m.ids| == |raws| &&
      forall k :: 0 <= k < |m.values| ==> |m.values[k]| == |m.names|
  {
    BuildShape(raws, Keys(raws), AllNames(raws, species));
  }

  /**
   * Outside the exchange category, every value a cell holds reaches the
   * matrix: the cell's row has the cell's value under the column of the
   * name in its category (a column AllNamesMembers shows to exist).
   */
  lemma MatHolds(raws: map<int, Raw>, species: seq<string>, k: nat, c: nat, j: nat)
    requires AllConsistent(raws) && k < |raws| && c < 5 && c != PoetExch
    requires var raw := raws[Keys(raws)[k]];
      j < |raw.names[c]| && forall i :: 0 <= i < j ==> raw.names[c][i] != raw.names[c][j]
    ensures var raw := raws[Keys(raws)[k]];
      var u := AllNames(raws, species);
      Holds(Mat(raws, species), k, Column(u, c, raw.names[c][j]), raw.names[c][j], CellValue(raw, c, j))
  {
    var ids := Keys(raws);
    var u := AllNames(raws, species);
    var x := raws[ids[k]].names[c][j];
    AllNamesMembers(raws, species, c, x);
    BuildHoldsAt(raws, ids, u, k, c, j);
  }

  /** Column p of category c is NaN in row k exactly when cell k does not list that column's name in c. */
  lemma MatNaN(raws: map<int, Raw>, species: seq<string>, k: nat, c: nat, p: nat)
    requires AllConsistent(raws) && k < |raws| && c < 5 && p < |AllNames(raws, species)[c]|
    ensures var u := AllNames(raws, species);
      Holds(Mat(raws, species), k, Offset(u, c) + p, u[c][p], NaN) <==> u[c][p] !in raws[Keys(raws)[k]].names[c]
  {
    BuildNaN(raws, Keys(raws), AllNames(raws, species), k, c, p);
  }

  /** A cell's exchange name that the substitution changes is no exchange column; its substitute is one. */
  lemma ExchangeColumns(raws: map<int, Raw>, species: seq<string>, k: nat, y: string)
    requires k < |raws| && y in raws[Keys(raws)[k]].names[PoetExch] && SubExchangeName(species, y) != y
    ensures var u := AllNames(raws, species);
      y !in u[PoetExch] && SubExchangeName(species, y) in u[PoetExch]
  {
    var ids := Keys(raws);
    var cells := NamesOf(raws, ids);
    if y in AllNames(raws, species)[PoetExch] {
      UnionExchangeFixed(cells, species, y);
    }
    assert cells[k] == raws[ids[k]].names;
    UnionOfExchange(cells, species, SubExchangeName(species, y));
  }

  /**
   * A cell's exchange name that the substitution changes is no column
   * (ExchangeColumns), and the column of its substitute is NaN in the cell's
   * row unless the cell also lists the substitute itself: the value under
   * the original name is lost.
   */
  lemma MatExchangeRenamed(raws: map<int, Raw>, species: seq<string>, k: nat, y: string)
    requires AllConsistent(raws) && k < |raws|
    requires y in raws[Keys(raws)[k]].names[PoetExch] && SubExchangeName(species, y) != y
    ensures var u := AllNames(raws, species);
      var x := SubExchangeName(species, y);
      Holds(Mat(raws, species), k, Column(u, PoetExch, x), x, NaN) <==> x !in raws[Keys(raws)[k]].names[PoetExch]
  {
    var ids := Keys(raws);
    var u := AllNames(raws, species);
    ExchangeColumns(raws, species, k, y);
    BuildNaNAt(raws, ids, u, k, PoetExch, SubExchangeName(species, y));
  }

  /** getPhreeqcMat: the unions, the rows, the concatenated names and the IDs. */
  method GetPhreeqcMat(raws: map<int, Raw>, species: seq<string>) returns (m: PhreeqcMat)
    requires AllConsistent(raws)
    ensures m == Mat(raws, species)
  {
    var ess := UnionRaws(raws, species);
    var values := ConcFromEssentials(raws, ess);
    var names: seq<string> := [];
    for i := 0 to 5
      invariant names == Concat(ess[..i])
    {
      ConcatSnoc(ess, i);
      names := names + ess[i];
    }
    TakeAll(ess);
    m := PhreeqcMat(names, Keys(raws), values);
  }

  // ---------------------------------------------------------------- getModuleSizes

  /** The size of each category's union. */
  function Sizes(names: Categories): (r: seq<nat>)
    ensures |r| == 5 && forall c :: 0 <= c < 5 ==> r[c] == |names[c]|
  {
    seq(5, c requires 0 <= c < 5 => |names[c]|)
  }
}
