// SurfaceCompWrapper: one surface site occupies the slots moles, la,
// charge_balance, then one slot per element total it had when it was wrapped.

module SurfaceComp {
  import opened Values
  import opened Order
  import opened Text
  import C = Composite

  /** The fields of one cxxSurfaceComp that the wrapper touches. */
  datatype SurfComp = SurfComp(formula: string, moles: real, la: real, chargeBalance: real, totals: map<string, real>)

  /** Slots 0..2 hold moles, la and charge_balance. */
  const NumNotTotals: nat := 3

  /** `total_names`, captured by the constructor: the totals keys in map order. */
  function TotalNames(c: SurfComp): (r: SortedNames)
    ensures Enumerates(r, c.totals.Keys)
  {
    AscendingEnumerates(c.totals.Keys);
    Ascending(c.totals.Keys)
  }

  /** size(): fixed when the wrapper is made, from the totals it saw then. */
  function CompSize(p: SortedNames): nat
  {
    NumNotTotals + |p|
  }

  /** `get` reads every captured total with `totals.at`, which throws out_of_range on a missing key. */
  predicate Readable(p: SortedNames, c: SurfComp)
  {
    forall i :: 0 <= i < |p| ==> p[i] in c.totals
  }

  /** The slots `get` writes when the component is readable. */
  function CompValues(p: SortedNames, c: SurfComp): seq<real>
  {
    [c.moles, c.la, c.chargeBalance] + Lookups(p, c.totals)
  }

  lemma CompValuesLayout(p: SortedNames, c: SurfComp)
    requires Readable(p, c)
    ensures |CompValues(p, c)| == CompSize(p)
    ensures CompValues(p, c)[..NumNotTotals] == [c.moles, c.la, c.chargeBalance]
    ensures forall i :: 0 <= i < |p| ==> CompValues(p, c)[NumNotTotals + i] == c.totals[p[i]]
  {
    forall i | 0 <= i < |p| ensures CompValues(p, c)[NumNotTotals + i] == c.totals[p[i]] {
      LookupsAt(p, c.totals, i);
    }
  }

  /** SurfaceCompWrapper::get: three fixed slots, then `totals.at(total_names[i])`. */
  method CompGet(p: SortedNames, c: SurfComp) returns (r: Result<seq<real>>)
    ensures r.Ok? <==> Readable(p, c)
    ensures r.Ok? ==> r.value == CompValues(p, c)
    ensures r.Err? ==> r.error == OutOfRange
  {
    var data := [c.moles, c.la, c.chargeBalance];
    var i := 0;
    while i < |p|
      invariant i <= |p|
      invariant forall j :: 0 <= j < i ==> p[j] in c.totals
      invariant data == [c.moles, c.la, c.chargeBalance] + Lookups(p[..i], c.totals)
    {
      if p[i] !in c.totals {
        return Err(OutOfRange);
      }
      LookupsStep(p, i, c.totals);
      data := data + [c.totals[p[i]]];
      i := i + 1;
    }
    assert p[..i] == p;
    r := Ok(data);
  }

  /** The totals map `set` rebuilds after `totals.clear()`: slot 3 + i under `total_names[i]`, first n names. */
  function TotalsFrom(p: SortedNames, b: seq<real>, n: nat): map<string, real>
    requires |b| == CompSize(p) && n <= |p|
  {
    if n == 0 then map[] else TotalsFrom(p, b, n - 1)[p[n - 1] := b[NumNotTotals + n - 1]]
  }

  /** The rebuilt map has exactly the first n names as keys, each with its own slot. */
  lemma {:induction false} TotalsFromAt(p: SortedNames, b: seq<real>, n: nat)
    requires |b| == CompSize(p) && n <= |p|
    ensures forall x :: x in TotalsFrom(p, b, n) <==> x in p[..n]
    ensures forall i :: 0 <= i < n ==> p[i] in TotalsFrom(p, b, n) && TotalsFrom(p, b, n)[p[i]] == b[NumNotTotals + i]
  {
    if n > 0 {
      TotalsFromAt(p, b, n - 1);
      assert p[..n] == p[..n - 1] + [p[n - 1]];
      forall i | 0 <= i < n - 1 ensures p[i] != p[n - 1] {
        SortedDistinct(p, i, n - 1);
      }
    }
  }

  /**
   * SurfaceCompWrapper::set on a span of its own size: the three fixed fields,
   * then a fresh totals map holding exactly the captured names. Spans of
   * another size never reach a component wrapper, and the model leaves the
   * component as it is then.
   */
  function CompSet(p: SortedNames, c: SurfComp, b: seq<real>): SurfComp
  {
    if |b| == CompSize(p) then SurfComp(c.formula, b[0], b[1], b[2], TotalsFrom(p, b, |p|)) else c
  }

  /** SurfaceCompWrapper::set: `Set_moles`, `Set_la`, `Set_charge_balance`, clear, then `totals[name] = slot`. */
  method CompPut(p: SortedNames, c: SurfComp, b: seq<real>) returns (r: SurfComp)
    requires |b| == CompSize(p)
    ensures r == CompSet(p, c, b)
  {
    var totals: map<string, real> := map[];
    var i := 0;
    while i < |p|
      invariant i <= |p|
      invariant totals == TotalsFrom(p, b, i)
    {
      totals := totals[p[i] := b[NumNotTotals + i]];
      i := i + 1;
    }
    r := SurfComp(c.formula, b[0], b[1], b[2], totals);
  }

  /** After `set`, the totals are exactly the captured names, so the next `get` can read them all. */
  lemma CompSetTotals(p: SortedNames, c: SurfComp, b: seq<real>)
    requires |b| == CompSize(p)
    ensures forall x :: x in CompSet(p, c, b).totals <==> x in p
    ensures Readable(p, CompSet(p, c, b))
  {
    TotalsFromAt(p, b, |p|);
    assert p[..|p|] == p;
  }

  /** Looking the captured names up in the rebuilt map gives back the total slots. */
  lemma LookupsTotalsFrom(p: SortedNames, b: seq<real>)
    requires |b| == CompSize(p)
    ensures Lookups(p, TotalsFrom(p, b, |p|)) == b[NumNotTotals..]
  {
    var t := TotalsFrom(p, b, |p|);
    var tail := b[NumNotTotals..];
    TotalsFromAt(p, b, |p|);
    forall i | 0 <= i < |p| ensures Lookups(p, t)[i] == tail[i] {
      LookupsAt(p, t, i);
      assert At(t, p[i]) == b[NumNotTotals + i];
    }
    Extensional(Lookups(p, t), tail);
  }

  /** `set` followed by `get` reproduces the span. */
  lemma CompSetGet(p: SortedNames, c: SurfComp, b: seq<real>)
    requires |b| == CompSize(p)
    ensures Readable(p, CompSet(p, c, b))
    ensures CompValues(p, CompSet(p, c, b)) == b
  {
    CompSetTotals(p, c, b);
    LookupsTotalsFrom(p, b);
    assert b == [b[0], b[1], b[2]] + b[NumNotTotals..];
  }

  /** `get` followed by `set` leaves a component as it was when the names are its totals keys. */
  lemma CompGetSet(p: SortedNames, c: SurfComp)
    requires forall x :: x in p <==> x in c.totals
    ensures CompSet(p, c, CompValues(p, c)) == c
  {
    var b := CompValues(p, c);
    assert Readable(p, c) by {
      forall i | 0 <= i < |p| ensures p[i] in c.totals {
        assert p[i] in p;
      }
    }
    CompValuesLayout(p, c);
    TotalsFromAt(p, b, |p|);
    assert p[..|p|] == p;
    var t := TotalsFrom(p, b, |p|);
    forall x | x in t ensures t[x] == c.totals[x] {
      var i := IndexOf(p, x);
    }
    assert t == c.totals;
  }

  // ---------------------------------------------------------------- names

  /** SurfaceCompWrapper::names: `formula_moles`, `formula_la`, `formula_cb`, then `formula_<total>` in map order. */
  function CompNames(c: SurfComp): seq<string>
  {
    [c.formula + "_moles", c.formula + "_la", c.formula + "_cb"] + Prefixed(c.formula + "_", TotalNames(c))
  }

  /** One name per slot, and the column named after a total holds that total. */
  lemma CompNamesAlign(c: SurfComp)
    ensures |CompNames(c)| == CompSize(TotalNames(c))
    ensures forall i :: 0 <= i < |TotalNames(c)| ==>
      CompNames(c)[NumNotTotals + i] == c.formula + "_" + TotalNames(c)[i] &&
      CompValues(TotalNames(c), c)[NumNotTotals + i] == c.totals[TotalNames(c)[i]]
  {
    var p := TotalNames(c);
    assert Readable(p, c) by {
      forall i | 0 <= i < |p| ensures p[i] in c.totals {
        assert p[i] in p;
      }
    }
    CompValuesLayout(p, c);
  }

  /** SurfaceCompWrapper::names: the fixed names, then `push_back(phase_name + "_" + tot.first)`. */
  method CompNamesOf(c: SurfComp) returns (names: seq<string>)
    ensures names == CompNames(c)
  {
    var f := c.formula;
    var tots := TotalNames(c);
    names := [f + "_moles", f + "_la", f + "_cb"];
    var i := 0;
    while i < |tots|
      invariant i <= |tots|
      invariant names == [f + "_moles", f + "_la", f + "_cb"] + Prefixed(f + "_", tots[..i])
    {
      assert tots[..i + 1] == tots[..i] + [tots[i]];
      names := names + [f + "_" + tots[i]];
      i := i + 1;
    }
    assert tots[..i] == tots;
  }

  // ---------------------------------------------------------------- as a component wrapper

  /** Components are found by formula, and each wrapper captures the totals keys. */
  function CompKind(): C.Kind<SurfComp, SortedNames>
  {
    C.Kind(
      (c: SurfComp) => c.formula,
      (c: SurfComp) => TotalNames(c),
      (p: SortedNames, c: SurfComp) => CompSize(p),
      (p: SortedNames, c: SurfComp) => Readable(p, c),
      (p: SortedNames, c: SurfComp) => CompValues(p, c),
      (p: SortedNames, c: SurfComp, b: seq<real>) => CompSet(p, c, b))
  }

  /** The component wrapper fills its size, keeps it, and reads back what it was given. */
  lemma KindLaws()
    ensures C.Layout(CompKind()) && C.KeepsSize(CompKind()) && C.ReadsBackAll(CompKind())
  {
    var kd := CompKind();
    forall p, c | true ensures |kd.values(p, c)| == kd.size(p, c) {
    }
    forall p, c, b | |b| == kd.size(p, c) ensures kd.readable(p, kd.put(p, c, b)) && kd.values(p, kd.put(p, c, b)) == b {
      CompSetGet(p, c, b);
    }
  }
}
