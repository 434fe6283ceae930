// EquilibriumWrapper and EquilibriumCompWrapper: each requested pure phase
// occupies two slots, moles and saturation index, in the requested order.

module Equilibrium {
  import opened Values
  import opened Order

  /** A cxxPPassemblageComp: its phase name, moles and saturation index. */
  datatype PPComp = PPComp(name: string, moles: real, si: real)

  /** cxxPPassemblage::Get_pp_assemblage_comps(): a std::map from phase name to component. */
  type Assemblage = map<string, PPComp>

  /** EquilibriumCompWrapper::size(). */
  const CompSize: nat := 2

  /** EquilibriumCompWrapper::get: slot 0 is moles, slot 1 is si. */
  function CompValues(c: PPComp): (r: seq<real>)
    ensures |r| == CompSize
  {
    [c.moles, c.si]
  }

  /** EquilibriumCompWrapper::set: moles from slot 0, si from slot 1; the name stays. */
  function CompSet(c: PPComp, b: seq<real>): (r: PPComp)
    requires |b| == CompSize
    ensures r.name == c.name
  {
    PPComp(c.name, b[0], b[1])
  }

  lemma CompSetGet(c: PPComp, b: seq<real>)
    requires |b| == CompSize
    ensures CompValues(CompSet(c, b)) == b
  {
  }

  lemma CompGetSet(c: PPComp)
    ensures CompSet(c, CompValues(c)) == c
  {
  }

  /** EquilibriumCompWrapper::names: `name_eq`, `name_si`, one per slot. */
  function CompNames(c: PPComp): (r: seq<string>)
    ensures |r| == CompSize
  {
    [c.name + "_eq", c.name + "_si"]
  }

  /** The solver keys its pure-phase components by their phase names. */
  predicate Named(a: Assemblage)
  {
    forall k :: k in a ==> a[k].name == k
  }

  /**
   * EquilibriumWrapper: `ppassemblage_order`, whose entries are also the keys
   * of the wrapped components, and `num_elements`.
   */
  datatype EquilibriumWrapper = EquilibriumWrapper(order: seq<string>, numElements: nat)

  /** Every requested phase is a key of the assemblage. */
  predicate AllIn(order: seq<string>, a: Assemblage)
  {
    forall i :: 0 <= i < |order| ==> order[i] in a
  }

  /** What the constructor establishes. */
  predicate Fits(w: EquilibriumWrapper, a: Assemblage)
  {
    AllIn(w.order, a) && w.numElements == 2 * |w.order|
  }

  /**
   * EquilibriumWrapper's constructor: for each requested phase, `find_if` on
   * the component map by key; runtime_error when a phase is not a key.
   */
  method NewEquilibriumWrapper(a: Assemblage, names: seq<string>) returns (r: Result<EquilibriumWrapper>)
    ensures r.Err? <==> exists i :: 0 <= i < |names| && names[i] !in a
    ensures r.Err? ==> r.error == RuntimeError
    ensures r.Ok? ==> r.value.order == names && Fits(r.value, a)
  {
    var numElements := 0;
    var i := 0;
    while i < |names|
      invariant i <= |names|
      invariant AllIn(names[..i], a)
      invariant numElements == 2 * i
    {
      if names[i] !in a {
        return Err(RuntimeError);
      }
      numElements := numElements + CompSize;
      i := i + 1;
    }
    assert names[..i] == names;
    r := Ok(EquilibriumWrapper(names, numElements));
  }

  // ---------------------------------------------------------------- locating a wrapper

  /**
   * `find_if` over the component wrappers for the first one whose component
   * is called `name`.
   */
  function FindWrapped(a: Assemblage, order: seq<string>, name: string): (j: nat)
    requires AllIn(order, a)
    ensures j <= |order|
    ensures j < |order| ==> a[order[j]].name == name
    ensures forall i :: 0 <= i < j ==> a[order[i]].name != name
    decreases |order|
  {
    if order == [] then 0
    else if a[order[0]].name == name then 0
    else 1 + FindWrapped(a, order[1..], name)
  }

  /** Looking a requested phase up by name finds a wrapper of that very component. */
  lemma FindWrappedOwn(a: Assemblage, order: seq<string>, i: nat)
    requires Named(a) && AllIn(order, a) && i < |order|
    ensures FindWrapped(a, order, order[i]) <= i
    ensures order[FindWrapped(a, order, order[i])] == order[i]
  {
    assert a[order[i]].name == order[i];
    var j := FindWrapped(a, order, order[i]);
    assert a[order[j]].name == order[j];
  }

  /** The `find_if` loop over the wrappers. */
  method FindWrapper(a: Assemblage, order: seq<string>, name: string) returns (j: nat)
    requires AllIn(order, a)
    ensures j == FindWrapped(a, order, name)
  {
    j := 0;
    while j < |order| && a[order[j]].name != name
      invariant j <= |order|
      invariant forall i :: 0 <= i < j ==> a[order[i]].name != name
    {
      j := j + 1;
    }
  }

  // ---------------------------------------------------------------- get

  /** The span after the first n requested phases have written their two slots. */
  ghost function SpanUpTo(a: Assemblage, order: seq<string>, n: nat): (r: seq<real>)
    requires AllIn(order, a) && n <= |order|
    ensures |r| == 2 * n
  {
    if n == 0 then [] else SpanUpTo(a, order, n - 1) + CompValues(a[order[n - 1]])
  }

  /** The i-th requested phase owns slots 2i and 2i + 1. */
  lemma {:induction false} SpanUpToAt(a: Assemblage, order: seq<string>, n: nat, i: nat)
    requires AllIn(order, a) && i < n <= |order|
    ensures SpanUpTo(a, order, n)[2 * i] == a[order[i]].moles
    ensures SpanUpTo(a, order, n)[2 * i + 1] == a[order[i]].si
  {
    if i < n - 1 {
      SpanUpToAt(a, order, n - 1, i);
    }
  }

  /** One iteration of `get`: locate the wrapper of phase i by name and let it write its slots. */
  method GetComp(w: EquilibriumWrapper, a: Assemblage, i: nat, data: seq<real>) returns (next: seq<real>)
    requires Named(a) && Fits(w, a) && i < |w.order|
    requires data == SpanUpTo(a, w.order, i)
    ensures next == SpanUpTo(a, w.order, i + 1)
  {
    var j := FindWrapper(a, w.order, w.order[i]);
    FindWrappedOwn(a, w.order, i);
    next := data + CompValues(a[w.order[j]]);
  }

  /** EquilibriumWrapper::get: each requested phase, in the requested order, at the running offset. */
  method Get(w: EquilibriumWrapper, a: Assemblage) returns (data: seq<real>)
    requires Named(a) && Fits(w, a)
    ensures data == SpanUpTo(a, w.order, |w.order|)
    ensures |data| == w.numElements
  {
    data := [];
    var i := 0;
    while i < |w.order|
      invariant i <= |w.order|
      invariant data == SpanUpTo(a, w.order, i)
    {
      data := GetComp(w, a, i, data);
      i := i + 1;
    }
  }

  // ---------------------------------------------------------------- set

  /** The assemblage after the first n requested phases have read their two slots of `d`. */
  ghost function SetUpTo(a: Assemblage, order: seq<string>, d: seq<real>, n: nat): (r: Assemblage)
    requires AllIn(order, a) && |d| == 2 * |order| && n <= |order|
    ensures r.Keys == a.Keys
  {
    if n == 0 then a
    else
      var prev := SetUpTo(a, order, d, n - 1);
      var k := order[n - 1];
      prev[k := CompSet(prev[k], d[2 * (n - 1)..2 * n])]
  }

  /** `set` keeps every component's name. */
  lemma {:induction false} SetUpToKeeps(a: Assemblage, order: seq<string>, d: seq<real>, n: nat)
    requires AllIn(order, a) && |d| == 2 * |order| && n <= |order|
    requires Named(a)
    ensures Named(SetUpTo(a, order, d, n))
  {
    if n > 0 {
      SetUpToKeeps(a, order, d, n - 1);
    }
  }

  /** One iteration of `set`: locate the wrapper of phase i by name and let it read its slots. */
  method PutComp(w: EquilibriumWrapper, a: Assemblage, d: seq<real>, i: nat, cur: Assemblage) returns (next: Assemblage)
    requires Named(a) && Fits(w, a) && |d| == w.numElements && i < |w.order|
    requires cur == SetUpTo(a, w.order, d, i)
    ensures next == SetUpTo(a, w.order, d, i + 1)
  {
    SetUpToKeeps(a, w.order, d, i);
    var j := FindWrapper(cur, w.order, w.order[i]);
    FindWrappedOwn(cur, w.order, i);
    var k := w.order[j];
    var slots := d[2 * i..2 * i + 2];
    assert |slots| == CompSize;
    next := cur[k := CompSet(cur[k], slots)];
  }

  /** EquilibriumWrapper::set: each requested phase, in the requested order, at the running offset. */
  method Put(w: EquilibriumWrapper, a: Assemblage, d: seq<real>) returns (r: Assemblage)
    requires Named(a) && Fits(w, a) && |d| == w.numElements
    ensures r == SetUpTo(a, w.order, d, |w.order|)
  {
    r := a;
    var i := 0;
    while i < |w.order|
      invariant i <= |w.order|
      invariant r == SetUpTo(a, w.order, d, i)
    {
      r := PutComp(w, a, d, i, r);
      i := i + 1;
    }
  }

  /** Phases set later leave the earlier ones alone, and phase j holds its two slots afterwards. */
  lemma {:induction false} SetUpToHolds(a: Assemblage, order: seq<string>, d: seq<real>, n: nat, j: nat)
    requires AllIn(order, a) && |d| == 2 * |order| && j < n <= |order| && Distinct(order)
    ensures CompValues(SetUpTo(a, order, d, n)[order[j]]) == d[2 * j..2 * j + CompSize]
  {
    if j < n - 1 {
      SetUpToHolds(a, order, d, n - 1, j);
      assert order[j] != order[n - 1];
    }
  }

  /** The span of an assemblage whose phase i holds slots 2i, 2i + 1 of `d` is `d`. */
  lemma SpanOfHeld(a: Assemblage, order: seq<string>, d: seq<real>)
    requires AllIn(order, a) && |d| == 2 * |order|
    requires forall i :: 0 <= i < |order| ==> CompValues(a[order[i]]) == d[2 * i..2 * i + 2]
    ensures SpanUpTo(a, order, |order|) == d
  {
    var s := SpanUpTo(a, order, |order|);
    forall p | 0 <= p < |d| ensures s[p] == d[p] {
      var i := p / CompSize;
      SpanUpToAt(a, order, |order|, i);
      assert CompValues(a[order[i]])[p - 2 * i] == d[p];
    }
  }

  /** `set` followed by `get` reproduces the span when no phase is requested twice. */
  lemma SetGet(a: Assemblage, w: EquilibriumWrapper, d: seq<real>)
    requires Fits(w, a) && |d| == w.numElements && Distinct(w.order)
    ensures Fits(w, SetUpTo(a, w.order, d, |w.order|))
    ensures SpanUpTo(SetUpTo(a, w.order, d, |w.order|), w.order, |w.order|) == d
  {
    var r := SetUpTo(a, w.order, d, |w.order|);
    forall i | 0 <= i < |w.order| ensures CompValues(r[w.order[i]]) == d[2 * i..2 * i + 2] {
      SetUpToHolds(a, w.order, d, |w.order|, i);
    }
    SpanOfHeld(r, w.order, d);
  }

  /** Writing back the span that `get` produced leaves the assemblage as it was. */
  lemma {:induction false} GetSetUpTo(a: Assemblage, order: seq<string>, n: nat)
    requires AllIn(order, a) && n <= |order|
    ensures SetUpTo(a, order, SpanUpTo(a, order, |order|), n) == a
  {
    if n > 0 {
      GetSetUpTo(a, order, n - 1);
      var d := SpanUpTo(a, order, |order|);
      var k := order[n - 1];
      SpanUpToAt(a, order, |order|, n - 1);
      assert d[2 * (n - 1)..2 * n] == CompValues(a[k]);
      assert a[k := a[k]] == a;
    }
  }

  lemma GetSet(a: Assemblage, w: EquilibriumWrapper)
    requires Fits(w, a)
    ensures SetUpTo(a, w.order, SpanUpTo(a, w.order, |w.order|), |w.order|) == a
  {
    GetSetUpTo(a, w.order, |w.order|);
  }

  // ---------------------------------------------------------------- names

  /** The names of the first n phases among `keys`. */
  function NamesUpTo(a: Assemblage, keys: seq<string>, n: nat): (r: seq<string>)
    requires AllIn(keys, a) && n <= |keys|
    ensures |r| == 2 * n
  {
    if n == 0 then [] else NamesUpTo(a, keys, n - 1) + CompNames(a[keys[n - 1]])
  }

  lemma {:induction false} NamesUpToAt(a: Assemblage, keys: seq<string>, n: nat, i: nat)
    requires AllIn(keys, a) && i < n <= |keys|
    ensures NamesUpTo(a, keys, n)[2 * i] == a[keys[i]].name + "_eq"
    ensures NamesUpTo(a, keys, n)[2 * i + 1] == a[keys[i]].name + "_si"
  {
    if i < n - 1 {
      NamesUpToAt(a, keys, n - 1, i);
    }
  }

  lemma KeysIn(a: Assemblage)
    ensures AllIn(Ascending(a.Keys), a)
  {
    AscendingMembers(a.Keys);
  }

  /**
   * EquilibriumWrapper::names: per component in map order, its two names into
   * the result and its key into `ppassemblage_names`.
   */
  method Names(a: Assemblage) returns (names: seq<string>, ppNames: seq<string>)
    ensures AllIn(ppNames, a)
    ensures ppNames == Ascending(a.Keys)
    ensures names == NamesUpTo(a, ppNames, |ppNames|)
  {
    KeysIn(a);
    var keys := Ascending(a.Keys);
    names := [];
    ppNames := [];
    var i := 0;
    while i < |keys|
      invariant i <= |keys|
      invariant ppNames == keys[..i]
      invariant names == NamesUpTo(a, keys, i)
    {
      names := names + CompNames(a[keys[i]]);
      ppNames := ppNames + [keys[i]];
      i := i + 1;
    }
    assert keys[..i] == keys;
  }

  /**
   * Wrapping the phases that `names` reports gives one column per slot, and
   * column 2i, 2i + 1 is named after the phase whose moles and si `get` puts there.
   */
  lemma NamesMatchLayout(a: Assemblage, names: seq<string>, ppNames: seq<string>, w: EquilibriumWrapper)
    requires Named(a) && AllIn(ppNames, a) && names == NamesUpTo(a, ppNames, |ppNames|)
    requires w.order == ppNames && Fits(w, a)
    ensures |names| == w.numElements
    ensures forall i :: 0 <= i < |w.order| ==> names[2 * i] == w.order[i] + "_eq" && names[2 * i + 1] == w.order[i] + "_si"
  {
    forall i | 0 <= i < |w.order| ensures names[2 * i] == w.order[i] + "_eq" && names[2 * i + 1] == w.order[i] + "_si" {
      NamesUpToAt(a, ppNames, |ppNames|, i);
    }
  }
}
