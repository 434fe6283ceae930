// SurfaceChargeWrapper: one surface charge occupies the slots specific_area,
// grams, charge_balance, mass_water, la_psi, then one diffuse-layer total per
// solution primary, in set order.

module SurfaceCharge {
  import opened Values
  import opened Order
  import opened Text
  import C = Composite

  /** The fields of one cxxSurfaceCharge that the wrapper touches. */
  datatype SurfCharge = SurfCharge(
    name: string,
    specificArea: real,
    grams: real,
    chargeBalance: real,
    massWater: real,
    laPsi: real,
    diffuseLayer: map<string, real>)

  /** Slots 0..4 hold specific_area, grams, charge_balance, mass_water and la_psi. */
  const NumNotTotals: nat := 5

  /** The copy of `solution_primaries` each charge wrapper keeps, in set order. */
  function Primaries(primaries: set<string>): (r: SortedNames)
    ensures Enumerates(r, primaries)
  {
    AscendingEnumerates(primaries);
    Ascending(primaries)
  }

  /** size(): the fixed slots and one per primary. */
  function ChargeSize(p: SortedNames): nat
  {
    NumNotTotals + |p|
  }

  /** The slots `get` writes: a primary the diffuse layer lacks reads as 0. */
  function ChargeValues(p: SortedNames, c: SurfCharge): seq<real>
  {
    [c.specificArea, c.grams, c.chargeBalance, c.massWater, c.laPsi] + Lookups(p, c.diffuseLayer)
  }

  lemma ChargeValuesLayout(p: SortedNames, c: SurfCharge)
    ensures |ChargeValues(p, c)| == ChargeSize(p)
    ensures forall i :: 0 <= i < |p| ==> ChargeValues(p, c)[NumNotTotals + i] == At(c.diffuseLayer, p[i])
  {
    forall i | 0 <= i < |p| ensures ChargeValues(p, c)[NumNotTotals + i] == At(c.diffuseLayer, p[i]) {
      LookupsAt(p, c.diffuseLayer, i);
    }
  }

  /** SurfaceChargeWrapper::get: five fixed slots, then `dl_map.find(primary)` or 0. */
  method ChargeGet(p: SortedNames, c: SurfCharge) returns (data: seq<real>)
    ensures data == ChargeValues(p, c)
  {
    data := [c.specificArea, c.grams, c.chargeBalance, c.massWater, c.laPsi];
    var i := 0;
    while i < |p|
      invariant i <= |p|
      invariant data == [c.specificArea, c.grams, c.chargeBalance, c.massWater, c.laPsi] + Lookups(p[..i], c.diffuseLayer)
    {
      LookupsStep(p, i, c.diffuseLayer);
      if p[i] !in c.diffuseLayer {
        data := data + [0.0];
      } else {
        data := data + [c.diffuseLayer[p[i]]];
      }
      i := i + 1;
    }
    assert p[..i] == p;
  }

  /** The diffuse layer `set` rebuilds after `dl_map.clear()` from the first n primaries: zero slots are skipped. */
  function LayerFrom(p: SortedNames, b: seq<real>, n: nat): map<string, real>
    requires |b| == ChargeSize(p) && n <= |p|
  {
    if n == 0 then map[]
    else if b[NumNotTotals + n - 1] == 0.0 then LayerFrom(p, b, n - 1)
    else LayerFrom(p, b, n - 1)[p[n - 1] := b[NumNotTotals + n - 1]]
  }

  /** The rebuilt layer holds the primaries among the first n whose slot is not 0, each with its slot. */
  lemma {:induction false} LayerFromAt(p: SortedNames, b: seq<real>, n: nat)
    requires |b| == ChargeSize(p) && n <= |p|
    ensures forall x :: x in LayerFrom(p, b, n) ==> x in p[..n]
    ensures forall i :: 0 <= i < n ==> At(LayerFrom(p, b, n), p[i]) == b[NumNotTotals + i]
    ensures forall x :: x in LayerFrom(p, b, n) ==> LayerFrom(p, b, n)[x] != 0.0
  {
    if n > 0 {
      LayerFromAt(p, b, n - 1);
      assert p[..n] == p[..n - 1] + [p[n - 1]];
      forall i | 0 <= i < n - 1 ensures p[i] != p[n - 1] {
        SortedDistinct(p, i, n - 1);
      }
      if b[NumNotTotals + n - 1] == 0.0 {
        assert p[n - 1] !in LayerFrom(p, b, n - 1) by {
          if p[n - 1] in LayerFrom(p, b, n - 1) {
            var i := IndexOf(p[..n - 1], p[n - 1]);
            SortedDistinct(p, i, n - 1);
          }
        }
      }
    }
  }

  /**
   * SurfaceChargeWrapper::set on a span of its own size: the five fixed
   * fields, then a fresh diffuse layer with an entry for each primary whose
   * slot is not 0. Spans of another size never reach a charge wrapper, and
   * the model leaves the charge as it is then.
   */
  function ChargeSet(p: SortedNames, c: SurfCharge, b: seq<real>): SurfCharge
  {
    if |b| == ChargeSize(p) then SurfCharge(c.name, b[0], b[1], b[2], b[3], b[4], LayerFrom(p, b, |p|)) else c
  }

  /** SurfaceChargeWrapper::set: the five setters, clear, then `dl_map[primary] = slot` unless the slot is 0. */
  method ChargePut(p: SortedNames, c: SurfCharge, b: seq<real>) returns (r: SurfCharge)
    requires |b| == ChargeSize(p)
    ensures r == ChargeSet(p, c, b)
  {
    var layer: map<string, real> := map[];
    var i := 0;
    while i < |p|
      invariant i <= |p|
      invariant layer == LayerFrom(p, b, i)
    {
      if b[NumNotTotals + i] != 0.0 {
        layer := layer[p[i] := b[NumNotTotals + i]];
      }
      i := i + 1;
    }
    r := SurfCharge(c.name, b[0], b[1], b[2], b[3], b[4], layer);
  }

  /** `set` followed by `get` reproduces the span: a skipped zero slot reads back as 0. */
  lemma ChargeSetGet(p: SortedNames, c: SurfCharge, b: seq<real>)
    requires |b| == ChargeSize(p)
    ensures ChargeValues(p, ChargeSet(p, c, b)) == b
  {
    var layer := LayerFrom(p, b, |p|);
    LayerFromAt(p, b, |p|);
    forall i | 0 <= i < |p| ensures Lookups(p, layer)[i] == b[NumNotTotals..][i] {
      LookupsAt(p, layer, i);
    }
    Extensional(Lookups(p, layer), b[NumNotTotals..]);
    assert b == [b[0], b[1], b[2], b[3], b[4]] + b[NumNotTotals..];
  }

  /** The diffuse layer keeps only entries under a primary and different from 0. */
  ghost predicate Normal(p: SortedNames, layer: map<string, real>)
  {
    forall x :: x in layer ==> x in p && layer[x] != 0.0
  }

  /** What `get` followed by `set` makes of a diffuse layer: the entries under a primary, without the zeros. */
  ghost function Normalised(p: SortedNames, layer: map<string, real>): (r: map<string, real>)
    ensures Normal(p, r)
  {
    map x | x in layer && x in p && layer[x] != 0.0 :: layer[x]
  }

  /** The layer `set` rebuilds from the slots `get` wrote is the normalised layer. */
  lemma LayerFromValues(p: SortedNames, c: SurfCharge)
    ensures |ChargeValues(p, c)| == ChargeSize(p)
    ensures LayerFrom(p, ChargeValues(p, c), |p|) == Normalised(p, c.diffuseLayer)
  {
    var b := ChargeValues(p, c);
    ChargeValuesLayout(p, c);
    LayerFromAt(p, b, |p|);
    assert p[..|p|] == p;
    var t := LayerFrom(p, b, |p|);
    var want := Normalised(p, c.diffuseLayer);
    forall x | x in p ensures At(t, x) == At(c.diffuseLayer, x) {
      var i := IndexOf(p, x);
      assert At(t, p[i]) == b[NumNotTotals + i];
    }
    forall x ensures x in t <==> x in want {
      if x in p {
        assert At(t, x) == At(c.diffuseLayer, x);
      }
    }
    forall x | x in t ensures t[x] == want[x] {
      assert At(t, x) == At(c.diffuseLayer, x);
    }
    assert t == want;
  }

  /**
   * `get` followed by `set` leaves the fixed fields alone and normalises the
   * diffuse layer; a charge whose layer is already normal comes back unchanged.
   */
  lemma ChargeGetSet(p: SortedNames, c: SurfCharge)
    ensures ChargeSet(p, c, ChargeValues(p, c)) == c.(diffuseLayer := Normalised(p, c.diffuseLayer))
    ensures Normal(p, c.diffuseLayer) ==> ChargeSet(p, c, ChargeValues(p, c)) == c
  {
    LayerFromValues(p, c);
    if Normal(p, c.diffuseLayer) {
      assert Normalised(p, c.diffuseLayer) == c.diffuseLayer;
    }
  }

  // ---------------------------------------------------------------- names

  /** SurfaceChargeWrapper::names: `name_area`, `_grams`, `_cb`, `_mw`, `_la`, then `name_tot_<primary>`. */
  function ChargeNames(c: SurfCharge, primaries: set<string>): seq<string>
  {
    [c.name + "_area", c.name + "_grams", c.name + "_cb", c.name + "_mw", c.name + "_la"]
      + Prefixed(c.name + "_tot_", Primaries(primaries))
  }

  /** One name per slot, and the column named after a primary holds that primary's diffuse-layer total. */
  lemma ChargeNamesAlign(c: SurfCharge, primaries: set<string>)
    ensures |ChargeNames(c, primaries)| == ChargeSize(Primaries(primaries))
    ensures forall i :: 0 <= i < |primaries| ==>
      ChargeNames(c, primaries)[NumNotTotals + i] == c.name + "_tot_" + Primaries(primaries)[i] &&
      ChargeValues(Primaries(primaries), c)[NumNotTotals + i] == At(c.diffuseLayer, Primaries(primaries)[i])
  {
    ChargeValuesLayout(Primaries(primaries), c);
  }

  /** SurfaceChargeWrapper::names: the fixed names, then `push_back(charge_name + "_tot_" + name)`. */
  method ChargeNamesOf(c: SurfCharge, primaries: set<string>) returns (names: seq<string>)
    ensures names == ChargeNames(c, primaries)
  {
    var n := c.name;
    var prims := Primaries(primaries);
    var fixed := [n + "_area", n + "_grams", n + "_cb", n + "_mw", n + "_la"];
    names := fixed;
    var i := 0;
    while i < |prims|
      invariant i <= |prims|
      invariant names == fixed + Prefixed(n + "_tot_", prims[..i])
    {
      assert prims[..i + 1] == prims[..i] + [prims[i]];
      names := names + [n + "_tot_" + prims[i]];
      i := i + 1;
    }
    assert prims[..i] == prims;
  }

  // ---------------------------------------------------------------- as a component wrapper

  /** Charges are found by name, and each wrapper keeps the primaries it was given. */
  function ChargeKind(primaries: set<string>): C.Kind<SurfCharge, SortedNames>
  {
    C.Kind(
      (c: SurfCharge) => c.name,
      (c: SurfCharge) => Primaries(primaries),
      (p: SortedNames, c: SurfCharge) => ChargeSize(p),
      (p: SortedNames, c: SurfCharge) => true,
      (p: SortedNames, c: SurfCharge) => ChargeValues(p, c),
      (p: SortedNames, c: SurfCharge, b: seq<real>) => ChargeSet(p, c, b))
  }

  /** The charge wrapper fills its size, keeps it, and reads back what it was given. */
  lemma KindLaws(primaries: set<string>)
    ensures C.Layout(ChargeKind(primaries)) && C.KeepsSize(ChargeKind(primaries)) && C.ReadsBackAll(ChargeKind(primaries))
  {
    var kd := ChargeKind(primaries);
    forall p, c | true ensures |kd.values(p, c)| == kd.size(p, c) {
      ChargeValuesLayout(p, c);
    }
    forall p, c, b | |b| == kd.size(p, c) ensures kd.readable(p, kd.put(p, c, b)) && kd.values(p, kd.put(p, c, b)) == b {
      ChargeSetGet(p, c, b);
    }
  }
}
