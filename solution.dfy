// SolutionWrapper: a solution occupies eight scalar slots (H, O, Charge, tc,
// patm, SolVol, pH, pe) and then one slot per element total of the solution
// order; a total at or below 1e-25 reads as 0 and is not written back.

module Solution {
  import opened Values
  import opened Order

  /** The fields of one cxxSolution that the wrappers touch. */
  datatype Soln = Soln(
    totalH: real,
    totalO: real,
    cb: real,
    tc: real,
    patm: real,
    solnVol: real,
    ph: real,
    pe: real,
    totals: map<string, real>)

  /** The threshold 1e-25: a smaller total is treated as absent. */
  const Tiny: real := 0.0000000000000000000000001

  /** What a lookup in a cxxNameDouble finds. */
  function Find(m: map<string, real>, x: string): Option<real>
  {
    if x in m then Some(m[x]) else None
  }

  /** A total as `get` reports it: its value when present and above the threshold, else 0. */
  function Clamp(m: map<string, real>, name: string): real
  {
    if name in m && m[name] > Tiny then m[name] else 0.0
  }

  /** A slot value as it reads back after being written and read again. */
  function ClampValue(v: real): real
  {
    if v > Tiny then v else 0.0
  }

  /** The total slots `get` writes for `names`, in order. */
  function Clamps(names: seq<string>, m: map<string, real>): (r: seq<real>)
    ensures |r| == |names|
  {
    seq(|names|, i requires 0 <= i < |names| => Clamp(m, names[i]))
  }

  /** Every value slot read back: the values above the threshold survive, the others read 0. */
  function ClampValues(v: seq<real>): (r: seq<real>)
    ensures |r| == |v|
  {
    seq(|v|, i requires 0 <= i < |v| => ClampValue(v[i]))
  }

  /** Every reported total is 0 or above the threshold, and 0 exactly when the total is missing or too small. */
  lemma ClampRange(m: map<string, real>, name: string)
    ensures Clamp(m, name) == 0.0 || Clamp(m, name) > Tiny
    ensures Clamp(m, name) == 0.0 <==> name !in m || m[name] <= Tiny
  {
  }

  /**
   * The totals `set` hands to the solver: starting from `base`, each name
   * whose slot is at least the threshold gets that slot, a later slot for
   * the same name winning (`new_totals[name] = value`).
   */
  function Kept(base: map<string, real>, names: seq<string>, vals: seq<real>): map<string, real>
    requires |names| == |vals|
  {
    if names == [] then base
    else
      var m := Kept(base, names[..|names| - 1], vals[..|vals| - 1]);
      if vals[|vals| - 1] < Tiny then m else m[names[|names| - 1] := vals[|vals| - 1]]
  }

  lemma KeptStep(base: map<string, real>, names: seq<string>, vals: seq<real>, k: nat)
    requires |names| == |vals| && k < |names|
    ensures Kept(base, names[..k + 1], vals[..k + 1])
      == (var m := Kept(base, names[..k], vals[..k]); if vals[k] < Tiny then m else m[names[k] := vals[k]])
  {
    assert names[..k + 1][..k] == names[..k];
    assert vals[..k + 1][..k] == vals[..k];
  }

  /** Names only ever get added: every name of `base` is still there. */
  lemma {:induction false} KeptKeys(base: map<string, real>, names: seq<string>, vals: seq<real>, x: string)
    requires |names| == |vals| && x in base
    ensures x in Kept(base, names, vals)
  {
    if names != [] {
      KeptKeys(base, names[..|names| - 1], vals[..|vals| - 1], x);
    }
  }

  /** A name not in the list keeps what `base` has for it. */
  lemma {:induction false} KeptOther(base: map<string, real>, names: seq<string>, vals: seq<real>, x: string)
    requires |names| == |vals| && x !in names
    ensures Find(Kept(base, names, vals), x) == Find(base, x)
  {
    if names != [] {
      KeptOther(base, names[..|names| - 1], vals[..|vals| - 1], x);
    }
  }

  /** With distinct names, a listed name holds its own slot if that is at least the threshold, else what `base` has. */
  lemma {:induction false} KeptAt(base: map<string, real>, names: seq<string>, vals: seq<real>, k: nat)
    requires |names| == |vals| && Distinct(names) && k < |names|
    ensures Find(Kept(base, names, vals), names[k]) == if vals[k] >= Tiny then Some(vals[k]) else Find(base, names[k])
  {
    var n := |names| - 1;
    if k < n {
      KeptAt(base, names[..n], vals[..n], k);
      assert names[k] != names[n];
    } else {
      assert names[k] == names[n];
      assert names[k] !in names[..n];
      KeptOther(base, names[..n], vals[..n], names[k]);
    }
  }

  // ---------------------------------------------------------------- the wrapper

  /** ESSENTIALS: the scalar slots, of which `get` writes all eight and `set` uses the first five. */
  const Essentials: seq<string> := ["H", "O", "Charge", "tc", "patm", "SolVol", "pH", "pe"]
  const NumEssentials: nat := 8

  /** A solution wrapper: the solution order without the essentials, the redox switch and `size()`. */
  datatype SolutionWrapper = SolutionWrapper(order: seq<string>, withRedox: bool, numElements: nat)

  /** The wrapper has a slot for each essential and each ordered total. */
  predicate Fits(w: SolutionWrapper)
  {
    w.numElements == NumEssentials + |w.order|
  }

  /**
   * SolutionWrapper::SolutionWrapper: keeps the solution order past the
   * essentials, and `size()` counts them all. The order must hold the
   * essentials, since the copy starts eight names in.
   */
  function NewSolutionWrapper(solutionOrder: seq<string>, withRedox: bool): (w: SolutionWrapper)
    requires |solutionOrder| >= NumEssentials
    ensures Fits(w) && w.withRedox == withRedox
    ensures w.numElements == |solutionOrder| && solutionOrder == solutionOrder[..NumEssentials] + w.order
  {
    SolutionWrapper(solutionOrder[NumEssentials..], withRedox, |solutionOrder|)
  }

  /** The totals the wrapper works on: as stored, or through the solver's `Simplify_redox` when redox states are off. */
  function View(withRedox: bool, totals: map<string, real>, simplify: map<string, real> -> map<string, real>): map<string, real>
  {
    if withRedox then totals else simplify(totals)
  }

  /** The slots `get` writes: the eight scalars, then the clamped totals in solution order. */
  function Slots(w: SolutionWrapper, s: Soln, simplify: map<string, real> -> map<string, real>): seq<real>
  {
    [s.totalH, s.totalO, s.cb, s.tc, s.patm, s.solnVol, s.ph, s.pe] + Clamps(w.order, View(w.withRedox, s.totals, simplify))
  }

  /** `get` fills the wrapper's size; slot 8 + k is 0 or the k-th ordered total above the threshold. */
  lemma SlotsLayout(w: SolutionWrapper, s: Soln, simplify: map<string, real> -> map<string, real>)
    requires Fits(w)
    ensures |Slots(w, s, simplify)| == w.numElements
    ensures Slots(w, s, simplify)[..5] == [s.totalH, s.totalO, s.cb, s.tc, s.patm]
    ensures Slots(w, s, simplify)[5..NumEssentials] == [s.solnVol, s.ph, s.pe]
    ensures forall k :: 0 <= k < |w.order| ==>
      Slots(w, s, simplify)[NumEssentials + k] == Clamp(View(w.withRedox, s.totals, simplify), w.order[k])
    ensures forall k :: NumEssentials <= k < w.numElements ==> Slots(w, s, simplify)[k] >= 0.0
  {
  }

  /** SolutionWrapper::get: the eight scalars, then per ordered name the total above 1e-25 or 0. */
  method Get(w: SolutionWrapper, s: Soln, simplify: map<string, real> -> map<string, real>) returns (data: seq<real>)
    requires Fits(w)
    ensures data == Slots(w, s, simplify)
  {
    var head := [s.totalH, s.totalO, s.cb, s.tc, s.patm, s.solnVol, s.ph, s.pe];
    var totals := View(w.withRedox, s.totals, simplify);
    data := head;
    var i := 0;
    while i < |w.order|
      invariant i <= |w.order|
      invariant |data| == NumEssentials + i && data[..NumEssentials] == head
      invariant forall k :: 0 <= k < i ==> data[NumEssentials + k] == Clamp(totals, w.order[k])
    {
      var name := w.order[i];
      if name !in totals {
        data := data + [0.0];
      } else {
        data := data + [if totals[name] > Tiny then totals[name] else 0.0];
      }
      i := i + 1;
    }
    Extensional(data, Slots(w, s, simplify));
  }

  /** What `set` passes to `cxxSolution::Update`: five scalars and the new totals. */
  datatype Update = Update(totalH: real, totalO: real, cb: real, tc: real, patm: real, totals: map<string, real>)

  /** SolutionWrapper::set on a span of the wrapper's size. */
  function SetSpec(w: SolutionWrapper, d: seq<real>, simplify: map<string, real> -> map<string, real>): Update
    requires Fits(w) && |d| == w.numElements
  {
    Update(d[0], d[1], d[2], d[3], d[4], View(w.withRedox, Kept(map[], w.order, d[NumEssentials..]), simplify))
  }

  /** SolutionWrapper::set: H, O, cb, tc and patm from slots 0..4, then the totals at or above 1e-25. */
  method Put(w: SolutionWrapper, d: seq<real>, simplify: map<string, real> -> map<string, real>) returns (u: Update)
    requires Fits(w) && |d| == w.numElements
    ensures u == SetSpec(w, d, simplify)
  {
    var vals := d[NumEssentials..];
    var newTotals: map<string, real> := map[];
    var i := 0;
    while i < |w.order|
      invariant i <= |w.order|
      invariant newTotals == Kept(map[], w.order[..i], vals[..i])
    {
      KeptStep(map[], w.order, vals, i);
      var value := d[NumEssentials + i];
      if value >= Tiny {
        newTotals := newTotals[w.order[i] := value];
      }
      i := i + 1;
    }
    assert w.order[..i] == w.order && vals[..i] == vals;
    u := Update(d[0], d[1], d[2], d[3], d[4], View(w.withRedox, newTotals, simplify));
  }

  /** `set` ignores the output-only slots SolVol, pH and pe. */
  lemma SetIgnoresOutputs(w: SolutionWrapper, d: seq<real>, e: seq<real>, simplify: map<string, real> -> map<string, real>)
    requires Fits(w) && |d| == w.numElements && |e| == w.numElements
    requires d[..5] == e[..5] && d[NumEssentials..] == e[NumEssentials..]
    ensures SetSpec(w, d, simplify) == SetSpec(w, e, simplify)
  {
    assert d[0] == d[..5][0] && d[1] == d[..5][1] && d[2] == d[..5][2] && d[3] == d[..5][3] && d[4] == d[..5][4];
    assert e[0] == e[..5][0] && e[1] == e[..5][1] && e[2] == e[..5][2] && e[3] == e[..5][3] && e[4] == e[..5][4];
  }

  /**
   * With redox states kept and a duplicate-free order, the new totals hold
   * exactly the ordered names whose slot is at least 1e-25, each with its slot.
   */
  lemma SetTotals(w: SolutionWrapper, d: seq<real>, simplify: map<string, real> -> map<string, real>, k: nat)
    requires Fits(w) && |d| == w.numElements && w.withRedox && Distinct(w.order) && k < |w.order|
    ensures Find(SetSpec(w, d, simplify).totals, w.order[k]) == if d[NumEssentials + k] >= Tiny then Some(d[NumEssentials + k]) else None
  {
    KeptAt(map[], w.order, d[NumEssentials..], k);
  }

  /** No name outside the order reaches the new totals. */
  lemma SetTotalsOnlyOrdered(w: SolutionWrapper, d: seq<real>, simplify: map<string, real> -> map<string, real>, x: string)
    requires Fits(w) && |d| == w.numElements && w.withRedox && x !in w.order
    ensures x !in SetSpec(w, d, simplify).totals
  {
    KeptOther(map[], w.order, d[NumEssentials..], x);
  }

  /** The model of `cxxSolution::Update`: it stores the scalars and totals it is given. */
  function Stored(s: Soln, u: Update): Soln
  {
    s.(totalH := u.totalH, totalO := u.totalO, cb := u.cb, tc := u.tc, patm := u.patm, totals := u.totals)
  }

  /**
   * `set` followed by `get`: the five input scalars come back, the output-only
   * slots keep the solution's own values, and each total slot reads back
   * clamped, so that a value at or below 1e-25 reads 0.
   */
  lemma SetGet(w: SolutionWrapper, s: Soln, d: seq<real>, simplify: map<string, real> -> map<string, real>)
    requires Fits(w) && |d| == w.numElements && w.withRedox && Distinct(w.order)
    ensures Slots(w, Stored(s, SetSpec(w, d, simplify)), simplify)
      == d[..5] + [s.solnVol, s.ph, s.pe] + ClampValues(d[NumEssentials..])
  {
    var t := Stored(s, SetSpec(w, d, simplify));
    var lhs := Slots(w, t, simplify);
    var rhs := d[..5] + [s.solnVol, s.ph, s.pe] + ClampValues(d[NumEssentials..]);
    forall i | 0 <= i < |lhs| ensures lhs[i] == rhs[i] {
      if i >= NumEssentials {
        SetTotals(w, d, simplify, i - NumEssentials);
      }
    }
    Extensional(lhs, rhs);
  }

  /** The totals `get` then `set` leave: the ordered names with a total above 1e-25. */
  ghost function Normalised(order: seq<string>, totals: map<string, real>): map<string, real>
  {
    map x | x in totals && x in order && totals[x] > Tiny :: totals[x]
  }

  /**
   * `get` followed by `set` passes the solution's own scalars and its
   * totals restricted to the ordered names above the threshold.
   */
  lemma GetSet(w: SolutionWrapper, s: Soln, simplify: map<string, real> -> map<string, real>)
    requires Fits(w) && w.withRedox && Distinct(w.order)
    ensures SetSpec(w, Slots(w, s, simplify), simplify)
      == Update(s.totalH, s.totalO, s.cb, s.tc, s.patm, Normalised(w.order, s.totals))
  {
    var d := Slots(w, s, simplify);
    var t := SetSpec(w, d, simplify).totals;
    var want := Normalised(w.order, s.totals);
    forall x ensures Find(t, x) == Find(want, x) {
      if x in w.order {
        var k :| 0 <= k < |w.order| && w.order[k] == x;
        SetTotals(w, d, simplify, k);
        assert d[NumEssentials + k] == Clamp(s.totals, x);
      } else {
        SetTotalsOnlyOrdered(w, d, simplify, x);
      }
    }
    assert t == want by {
      forall x ensures x in t <==> x in want {
        assert Find(t, x) == Find(want, x);
      }
      forall x | x in t ensures t[x] == want[x] {
        assert Find(t, x) == Find(want, x);
      }
    }
  }

  /** Reading, writing and reading again gives the first reading: `get` output is a fixed point. */
  lemma GetSetGet(w: SolutionWrapper, s: Soln, simplify: map<string, real> -> map<string, real>)
    requires Fits(w) && w.withRedox && Distinct(w.order)
    ensures Slots(w, Stored(s, SetSpec(w, Slots(w, s, simplify), simplify)), simplify) == Slots(w, s, simplify)
  {
    var d := Slots(w, s, simplify);
    SetGet(w, s, d, simplify);
    var rhs := d[..5] + [s.solnVol, s.ph, s.pe] + ClampValues(d[NumEssentials..]);
    forall i | 0 <= i < |d| ensures rhs[i] == d[i] {
      if i >= NumEssentials {
        ClampRange(s.totals, w.order[i - NumEssentials]);
      }
    }
    Extensional(rhs, d);
  }

  // ---------------------------------------------------------------- names

  /** The redox states of H and O, which `names` lists only on request. */
  const RedoxHO: seq<string> := ["H(0)", "O(0)"]

  /** The total names `names` collects in a std::set: every total but H(0) and O(0), in set order. */
  function TotalNames(totals: map<string, real>): (r: seq<string>)
    ensures Enumerates(r, totals.Keys - {"H(0)", "O(0)"})
  {
    AscendingEnumerates(totals.Keys - {"H(0)", "O(0)"});
    Ascending(totals.Keys - {"H(0)", "O(0)"})
  }

  /** The names of the slots past the essentials: H(0) and O(0) when asked for, then the other totals. */
  function OrderedNames(totals: map<string, real>, includeH0O0: bool): seq<string>
  {
    (if includeH0O0 then RedoxHO else []) + TotalNames(totals)
  }

  /**
   * SolutionWrapper::names: the essentials, then H(0) and O(0) when asked
   * for, then the set of total names other than H(0) and O(0) in set order.
   */
  function Names(s: Soln, includeH0O0: bool, withRedox: bool, simplify: map<string, real> -> map<string, real>): seq<string>
  {
    Essentials + OrderedNames(View(withRedox, s.totals, simplify), includeH0O0)
  }

  /** The other totals come sorted and hold exactly the total names besides H(0) and O(0). */
  lemma TotalNamesShape(totals: map<string, real>)
    ensures Sorted(TotalNames(totals))
    ensures forall x :: x in TotalNames(totals) <==> x in totals && x != "H(0)" && x != "O(0)"
    ensures "H(0)" !in TotalNames(totals) && "O(0)" !in TotalNames(totals)
  {
  }

  /** The essentials hold neither redox state. */
  lemma EssentialsNoRedox()
    ensures "H(0)" !in Essentials && "O(0)" !in Essentials
  {
    forall i | 0 <= i < |Essentials| ensures Essentials[i] != "H(0)" && Essentials[i] != "O(0)" {
      assert |Essentials[i]| != 4 || Essentials[i][0] == 'p';
    }
  }

  /** H(0) and O(0) are listed past the essentials exactly when asked for, and then first. */
  lemma OrderedNamesRedox(totals: map<string, real>, includeH0O0: bool)
    ensures includeH0O0 ==> OrderedNames(totals, includeH0O0)[..2] == RedoxHO
    ensures "H(0)" in OrderedNames(totals, includeH0O0) <==> includeH0O0
    ensures "O(0)" in OrderedNames(totals, includeH0O0) <==> includeH0O0
  {
    var t := TotalNames(totals);
    assert "H(0)" !in t && "O(0)" !in t;
    if includeH0O0 {
      assert OrderedNames(totals, includeH0O0)[0] == "H(0)";
      assert OrderedNames(totals, includeH0O0)[1] == "O(0)";
    } else {
      assert OrderedNames(totals, includeH0O0) == t;
    }
  }

  /** H(0) and O(0) among all the names: exactly when asked for. */
  lemma NamesRedox(s: Soln, includeH0O0: bool, withRedox: bool, simplify: map<string, real> -> map<string, real>)
    ensures "H(0)" in Names(s, includeH0O0, withRedox, simplify) <==> includeH0O0
    ensures "O(0)" in Names(s, includeH0O0, withRedox, simplify) <==> includeH0O0
  {
    var o := OrderedNames(View(withRedox, s.totals, simplify), includeH0O0);
    EssentialsNoRedox();
    OrderedNamesRedox(View(withRedox, s.totals, simplify), includeH0O0);
    assert forall x :: x in Essentials + o <==> x in Essentials || x in o;
  }

  /** A sorted list has no name twice. */
  lemma SortedIsDistinct(t: seq<string>)
    requires Sorted(t)
    ensures Distinct(t)
  {
    forall i, j | 0 <= i < j < |t| ensures t[i] != t[j] {
      SortedDistinct(t, i, j);
    }
  }

  /** Two duplicate-free lists with nothing in common make a duplicate-free list. */
  lemma DistinctAppend(a: seq<string>, b: seq<string>)
    requires Distinct(a) && Distinct(b)
    requires forall x :: x in a ==> x !in b
    ensures Distinct(a + b)
  {
    var o := a + b;
    forall i, j | 0 <= i < j < |o| ensures o[i] != o[j] {
      if i < |a| && j >= |a| {
        assert o[i] in a && o[j] == b[j - |a|];
      }
    }
  }

  /** H(0) and O(0) in front of a sorted list without them: no name twice. */
  lemma RedoxFirstDistinct(t: seq<string>)
    requires Sorted(t) && "H(0)" !in t && "O(0)" !in t
    ensures Distinct(RedoxHO + t)
  {
    SortedIsDistinct(t);
    assert RedoxHO[0] != RedoxHO[1];
    DistinctAppend(RedoxHO, t);
  }

  /** The order past the essentials has no name twice, so the round trips apply to a wrapper built from `names`. */
  lemma OrderedNamesDistinct(totals: map<string, real>, includeH0O0: bool)
    ensures Distinct(OrderedNames(totals, includeH0O0))
  {
    var t := TotalNames(totals);
    if includeH0O0 {
      TotalNamesShape(totals);
      RedoxFirstDistinct(t);
    } else {
      SortedIsDistinct(t);
      assert OrderedNames(totals, includeH0O0) == t;
    }
  }

  /** A wrapper made from `names` keeps the names past the essentials as its order. */
  lemma NamesWrapper(s: Soln, includeH0O0: bool, withRedox: bool, simplify: map<string, real> -> map<string, real>)
    ensures var w := NewSolutionWrapper(Names(s, includeH0O0, withRedox, simplify), withRedox);
      w.order == OrderedNames(View(withRedox, s.totals, simplify), includeH0O0) && Fits(w)
  {
    var o := OrderedNames(View(withRedox, s.totals, simplify), includeH0O0);
    assert (Essentials + o)[NumEssentials..] == o;
  }

  /**
   * A wrapper built from `names` has one slot per name, its order has no
   * name twice, and slot i past the essentials reads the total named
   * names[i], clamped.
   */
  lemma NamesMatchLayout(s: Soln, includeH0O0: bool, withRedox: bool, simplify: map<string, real> -> map<string, real>)
    ensures var names := Names(s, includeH0O0, withRedox, simplify);
      var w := NewSolutionWrapper(names, withRedox);
      |names| == w.numElements && Distinct(w.order) &&
      forall i :: NumEssentials <= i < |names| ==>
        Slots(w, s, simplify)[i] == Clamp(View(withRedox, s.totals, simplify), names[i])
  {
    var names := Names(s, includeH0O0, withRedox, simplify);
    var w := NewSolutionWrapper(names, withRedox);
    var v := View(withRedox, s.totals, simplify);
    NamesWrapper(s, includeH0O0, withRedox, simplify);
    OrderedNamesDistinct(v, includeH0O0);
    SlotsLayout(w, s, simplify);
    assert |w.order| == |names| - NumEssentials;
    forall i | NumEssentials <= i < |names| ensures Slots(w, s, simplify)[i] == Clamp(v, names[i]) {
      var k := i - NumEssentials;
      assert w.order[k] == names[i];
      assert Slots(w, s, simplify)[NumEssentials + k] == Clamp(v, w.order[k]);
    }
  }
}
