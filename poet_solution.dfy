// The POET SolutionWrapper: three scalar slots (H, O, Charge), then one slot
// per name of the solution order past them; with the order `names` makes,
// that is H(0), O(0) and then the other element totals.

module PoetSolution {
  import opened Values
  import opened Order
  import S = Solution

  /**
   * ESSENTIALS of the POET wrapper: the names `names` always lists first and
   * keeps out of the totals part. Only the first three are skipped by the
   * constructor, so H(0) and O(0) are the first two ordered totals.
   */
  const Essentials: seq<string> := ["H", "O", "Charge", "H(0)", "O(0)"]

  /** NUM_ESSENTIALS: the totals loop of `get` and `set` starts at slot 3. */
  const NumEssentials: nat := 3

  /** A wrapper: the solution order past the first three names, and `size()`. */
  datatype SolutionWrapper = SolutionWrapper(order: seq<string>, numElements: nat)

  predicate Fits(w: SolutionWrapper)
  {
    w.numElements == NumEssentials + |w.order|
  }

  /** SolutionWrapper::SolutionWrapper: the order without its first three names, `size()` counting all. */
  function NewSolutionWrapper(solutionOrder: seq<string>): (w: SolutionWrapper)
    requires |solutionOrder| >= NumEssentials
    ensures Fits(w) && w.numElements == |solutionOrder|
    ensures solutionOrder == solutionOrder[..NumEssentials] + w.order
  {
    SolutionWrapper(solutionOrder[NumEssentials..], |solutionOrder|)
  }

  /** The slots `get` leaves: H, O and cb, then the clamped totals in order from slot 3 on. */
  function Slots(w: SolutionWrapper, s: S.Soln): (r: seq<real>)
    ensures |r| == NumEssentials + |w.order|
  {
    [s.totalH, s.totalO, s.cb] + S.Clamps(w.order, s.totals)
  }

  /**
   * SolutionWrapper::get on the caller's span: slots 3 and 4 first get
   * `Get_total("H(0)")` and `Get_total("O(0)")`, and the totals loop then
   * writes over them from slot 3 on. The span must have room for slot 4.
   */
  method Get(w: SolutionWrapper, s: S.Soln, span: seq<real>) returns (data: seq<real>)
    requires Fits(w) && |span| == w.numElements && w.numElements >= 5
    ensures data == Slots(w, s)
  {
    data := span;
    data := data[0 := s.totalH][1 := s.totalO][2 := s.cb];
    data := data[3 := At(s.totals, "H(0)")][4 := At(s.totals, "O(0)")];
    var i := 0;
    while i < |w.order|
      invariant i <= |w.order| && |data| == w.numElements
      invariant data[0] == s.totalH && data[1] == s.totalO && data[2] == s.cb
      invariant forall k :: 0 <= k < i ==> data[NumEssentials + k] == S.Clamp(s.totals, w.order[k])
    {
      var name := w.order[i];
      if name !in s.totals {
        data := data[NumEssentials + i := 0.0];
      } else {
        data := data[NumEssentials + i := if s.totals[name] > S.Tiny then s.totals[name] else 0.0];
      }
      i := i + 1;
    }
    Extensional(data, Slots(w, s));
  }

  /** With the order `names` makes, slots 3 and 4 hold the clamped H(0) and O(0) totals. */
  lemma SlotsRedox(w: SolutionWrapper, s: S.Soln)
    requires |w.order| >= 2 && w.order[..2] == S.RedoxHO
    ensures Slots(w, s)[3] == S.Clamp(s.totals, "H(0)") && Slots(w, s)[4] == S.Clamp(s.totals, "O(0)")
  {
    assert w.order[0] == S.RedoxHO[0] && w.order[1] == S.RedoxHO[1];
  }

  /** What `set` passes to the solver's four-argument `Update`. */
  datatype Update = Update(totalH: real, totalO: real, cb: real, totals: map<string, real>)

  /** The totals `set` starts from: H(0) and O(0) from slots 3 and 4, whatever their size. */
  function RedoxBase(d: seq<real>): map<string, real>
    requires |d| >= 5
  {
    map["H(0)" := d[3], "O(0)" := d[4]]
  }

  /** SolutionWrapper::set on a span of the wrapper's size. */
  function SetSpec(w: SolutionWrapper, d: seq<real>): Update
    requires Fits(w) && |d| == w.numElements && |d| >= 5
  {
    Update(d[0], d[1], d[2], S.Kept(RedoxBase(d), w.order, d[NumEssentials..]))
  }

  /** SolutionWrapper::set: H(0) and O(0) from slots 3 and 4, then the ordered totals at or above 1e-25. */
  method Put(w: SolutionWrapper, d: seq<real>) returns (u: Update)
    requires Fits(w) && |d| == w.numElements && |d| >= 5
    ensures u == SetSpec(w, d)
  {
    var vals := d[NumEssentials..];
    var newTotals: map<string, real> := map[];
    newTotals := newTotals["H(0)" := d[3]];
    newTotals := newTotals["O(0)" := d[4]];
    var i := 0;
    while i < |w.order|
      invariant i <= |w.order|
      invariant newTotals == S.Kept(RedoxBase(d), w.order[..i], vals[..i])
    {
      S.KeptStep(RedoxBase(d), w.order, vals, i);
      var value := d[NumEssentials + i];
      if value >= S.Tiny {
        newTotals := newTotals[w.order[i] := value];
      }
      i := i + 1;
    }
    assert w.order[..i] == w.order && vals[..i] == vals;
    u := Update(d[0], d[1], d[2], newTotals);
  }

  /** H(0) and O(0) are always passed on, even below the threshold. */
  lemma SetKeepsRedox(w: SolutionWrapper, d: seq<real>)
    requires Fits(w) && |d| == w.numElements && |d| >= 5
    ensures "H(0)" in SetSpec(w, d).totals && "O(0)" in SetSpec(w, d).totals
  {
    S.KeptKeys(RedoxBase(d), w.order, d[NumEssentials..], "H(0)");
    S.KeptKeys(RedoxBase(d), w.order, d[NumEssentials..], "O(0)");
  }

  /** The wrapper's order is the one `names` makes: H(0), O(0), then other names, none twice. */
  predicate RedoxFirst(w: SolutionWrapper)
  {
    |w.order| >= 2 && w.order[..2] == S.RedoxHO && Distinct(w.order)
  }

  /**
   * With that order, H(0) and O(0) carry slots 3 and 4 whatever their size,
   * and every other ordered name is passed on exactly when its slot is at
   * least 1e-25.
   */
  lemma SetTotals(w: SolutionWrapper, d: seq<real>, k: nat)
    requires Fits(w) && |d| == w.numElements && RedoxFirst(w) && k < |w.order|
    ensures k < 2 ==> S.Find(SetSpec(w, d).totals, w.order[k]) == Some(d[NumEssentials + k])
    ensures k >= 2 ==>
      S.Find(SetSpec(w, d).totals, w.order[k]) == (if d[NumEssentials + k] >= S.Tiny then Some(d[NumEssentials + k]) else None)
  {
    assert w.order[0] == "H(0)" && w.order[1] == "O(0)";
    if k >= 2 {
      assert w.order[k] != w.order[0] && w.order[k] != w.order[1];
    }
    S.KeptAt(RedoxBase(d), w.order, d[NumEssentials..], k);
  }

  /** No name outside the order and besides H(0) and O(0) reaches the solver. */
  lemma SetTotalsOnlyOrdered(w: SolutionWrapper, d: seq<real>, x: string)
    requires Fits(w) && |d| == w.numElements && |d| >= 5 && x !in w.order && x != "H(0)" && x != "O(0)"
    ensures x !in SetSpec(w, d).totals
  {
    S.KeptOther(RedoxBase(d), w.order, d[NumEssentials..], x);
  }

  /** The model of the four-argument `Update`: it stores what it is given. */
  function Stored(s: S.Soln, u: Update): S.Soln
  {
    s.(totalH := u.totalH, totalO := u.totalO, cb := u.cb, totals := u.totals)
  }

  /** `set` followed by `get` gives back H, O and cb, and every total slot clamped. */
  lemma SetGet(w: SolutionWrapper, s: S.Soln, d: seq<real>)
    requires Fits(w) && |d| == w.numElements && RedoxFirst(w)
    ensures Slots(w, Stored(s, SetSpec(w, d))) == d[..NumEssentials] + S.ClampValues(d[NumEssentials..])
  {
    var lhs := Slots(w, Stored(s, SetSpec(w, d)));
    var rhs := d[..NumEssentials] + S.ClampValues(d[NumEssentials..]);
    forall i | 0 <= i < |lhs| ensures lhs[i] == rhs[i] {
      if i >= NumEssentials {
        SetTotals(w, d, i - NumEssentials);
      }
    }
    Extensional(lhs, rhs);
  }

  /**
   * `get` followed by `set` passes the solution's own H, O and cb, its
   * ordered totals above the threshold, and H(0) and O(0) as reported,
   * 0 included.
   */
  lemma GetSet(w: SolutionWrapper, s: S.Soln)
    requires Fits(w) && RedoxFirst(w)
    ensures SetSpec(w, Slots(w, s)) == Update(s.totalH, s.totalO, s.cb,
      S.Normalised(w.order, s.totals)["H(0)" := S.Clamp(s.totals, "H(0)")]["O(0)" := S.Clamp(s.totals, "O(0)")])
  {
    var d := Slots(w, s);
    var t := SetSpec(w, d).totals;
    var want := S.Normalised(w.order, s.totals)["H(0)" := S.Clamp(s.totals, "H(0)")]["O(0)" := S.Clamp(s.totals, "O(0)")];
    forall x ensures S.Find(t, x) == S.Find(want, x) {
      if x in w.order {
        var k :| 0 <= k < |w.order| && w.order[k] == x;
        SetTotals(w, d, k);
        assert d[NumEssentials + k] == S.Clamp(s.totals, x);
        assert k < 2 <==> x == "H(0)" || x == "O(0)" by {
          assert w.order[0] == "H(0)" && w.order[1] == "O(0)";
        }
      } else {
        assert x != "H(0)" && x != "O(0)" by {
          assert w.order[0] == "H(0)" && w.order[1] == "O(0)";
        }
        SetTotalsOnlyOrdered(w, d, x);
      }
    }
    assert t == want by {
      forall x ensures x in t <==> x in want {
        assert S.Find(t, x) == S.Find(want, x);
      }
      forall x | x in t ensures t[x] == want[x] {
        assert S.Find(t, x) == S.Find(want, x);
      }
    }
  }

  /** Reading, writing and reading again gives the first reading. */
  lemma GetSetGet(w: SolutionWrapper, s: S.Soln)
    requires Fits(w) && RedoxFirst(w)
    ensures Slots(w, Stored(s, SetSpec(w, Slots(w, s)))) == Slots(w, s)
  {
    var d := Slots(w, s);
    SetGet(w, s, d);
    var rhs := d[..NumEssentials] + S.ClampValues(d[NumEssentials..]);
    forall i | 0 <= i < |d| ensures rhs[i] == d[i] {
      if i >= NumEssentials {
        S.ClampRange(s.totals, w.order[i - NumEssentials]);
      }
    }
    Extensional(rhs, d);
  }

  // ---------------------------------------------------------------- names

  /** The essentials as the set `names` erases them from. */
  const Erased: set<string> := set x | x in Essentials

  /** The set of total names with every essential erased, in set order. */
  function OtherTotals(s: S.Soln): (r: seq<string>)
    ensures Enumerates(r, s.totals.Keys - Erased)
  {
    AscendingEnumerates(s.totals.Keys - Erased);
    Ascending(s.totals.Keys - Erased)
  }

  /** SolutionWrapper::names: the essentials, then the other total names in set order. */
  function Names(s: S.Soln): seq<string>
  {
    Essentials + OtherTotals(s)
  }

  /** The names past the essentials are sorted and are exactly the totals that are not essentials. */
  lemma OtherTotalsShape(s: S.Soln)
    ensures Sorted(OtherTotals(s))
    ensures forall x :: x in OtherTotals(s) <==> x in s.totals && x !in Essentials
    ensures "H(0)" !in OtherTotals(s) && "O(0)" !in OtherTotals(s)
  {
    assert Essentials[3] == "H(0)" && Essentials[4] == "O(0)";
  }

  /** A wrapper made from `names` has the order H(0), O(0), then the other totals. */
  lemma NamesWrapper(s: S.Soln)
    ensures NewSolutionWrapper(Names(s)).order == S.RedoxHO + OtherTotals(s)
  {
    var t := OtherTotals(s);
    assert Essentials[NumEssentials..] == S.RedoxHO;
    assert (Essentials + t)[NumEssentials..] == Essentials[NumEssentials..] + t;
  }

  /** The order of a wrapper built from `names` starts with H(0) and O(0) and has no name twice. */
  lemma NamesRedoxFirst(s: S.Soln)
    ensures RedoxFirst(NewSolutionWrapper(Names(s)))
  {
    var t := OtherTotals(s);
    NamesWrapper(s);
    OtherTotalsShape(s);
    S.RedoxFirstDistinct(t);
    assert (S.RedoxHO + t)[..2] == S.RedoxHO;
  }

  /** Slot i past the first three of a wrapper reads the total named by entry i of the order it was given, clamped. */
  lemma WrapperSlots(names: seq<string>, s: S.Soln, i: nat)
    requires NumEssentials <= i < |names|
    ensures Slots(NewSolutionWrapper(names), s)[i] == S.Clamp(s.totals, names[i])
  {
    var w := NewSolutionWrapper(names);
    assert w.order[i - NumEssentials] == names[i];
  }

  /**
   * A wrapper built from `names` has one slot per name, its order starts
   * with H(0) and O(0) and has no name twice, and slot i past the first
   * three reads the total named names[i], clamped.
   */
  lemma NamesMatchLayout(s: S.Soln)
    ensures var names := Names(s);
      var w := NewSolutionWrapper(names);
      |names| == w.numElements && RedoxFirst(w) &&
      forall i :: NumEssentials <= i < |names| ==> Slots(w, s)[i] == S.Clamp(s.totals, names[i])
  {
    var names := Names(s);
    NamesRedoxFirst(s);
    forall i | NumEssentials <= i < |names| ensures Slots(NewSolutionWrapper(names), s)[i] == S.Clamp(s.totals, names[i]) {
      WrapperSlots(names, s, i);
    }
  }
}
