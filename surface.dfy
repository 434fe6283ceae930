// SurfaceWrapper: the slot layout of a surface assemblage in the flat buffer,
// the requested site components first, then the requested charges, at one
// running offset.

module Surface {
  import opened Values
  import opened Order
  import opened Spans
  import C = Composite
  import SC = SurfaceComp
  import SH = SurfaceCharge

  /** A cxxSurface: its site components and its charges, in the solver's order. */
  datatype Surf = Surf(comps: seq<SC.SurfComp>, charges: seq<SH.SurfCharge>)

  /**
   * SurfaceWrapper: the solution primaries its charge wrappers were given,
   * the component wrappers, the charge wrappers, and `num_elements`.
   */
  datatype SurfaceWrapper = SurfaceWrapper(
    primaries: set<string>,
    comps: C.Wrapper<SortedNames>,
    charges: C.Wrapper<SortedNames>,
    numElements: nat)

  /** What the constructor establishes, and what `set` keeps. */
  predicate Fits(w: SurfaceWrapper, s: Surf)
  {
    && C.Built(SC.CompKind(), w.comps, s.comps)
    && C.Built(SH.ChargeKind(w.primaries), w.charges, s.charges)
    && w.numElements == w.comps.numElements + w.charges.numElements
  }

  /**
   * SurfaceWrapper's constructor: one wrapper per requested component formula,
   * then one per requested charge name; runtime_error when a formula or a
   * charge name is not found.
   */
  method NewSurfaceWrapper(s: Surf, primaries: set<string>, compFormulas: seq<string>, chargeNames: seq<string>)
    returns (r: Result<SurfaceWrapper>)
    ensures r.Err? <==>
      C.Missing(SC.CompKind(), s.comps, compFormulas, |compFormulas|) ||
      C.Missing(SH.ChargeKind(primaries), s.charges, chargeNames, |chargeNames|)
    ensures r.Err? ==> r.error == RuntimeError
    ensures r.Ok? ==>
      && r.value.primaries == primaries
      && r.value.comps.comps == C.Requested(SC.CompKind(), s.comps, compFormulas)
      && r.value.charges.comps == C.Requested(SH.ChargeKind(primaries), s.charges, chargeNames)
      && Fits(r.value, s)
      && C.Captured(SC.CompKind(), r.value.comps, s.comps)
      && C.Captured(SH.ChargeKind(primaries), r.value.charges, s.charges)
  {
    var comps :- C.NewWrapper(SC.CompKind(), s.comps, compFormulas);
    var charges :- C.NewWrapper(SH.ChargeKind(primaries), s.charges, chargeNames);
    r := Ok(SurfaceWrapper(primaries, comps, charges, comps.numElements + charges.numElements));
  }

  // ---------------------------------------------------------------- get

  /** What `get` produces: out_of_range from a component, or the components' slots followed by the charges'. */
  ghost function GetSpec(w: SurfaceWrapper, s: Surf): Result<seq<real>>
    requires Fits(w, s)
  {
    var comps := C.Get(SC.CompKind(), w.comps, s.comps);
    if comps.Err? then Err(OutOfRange)
    else Ok(comps.value + C.Span(SH.ChargeKind(w.primaries), w.charges, s.charges))
  }

  /** One iteration of the component loop of `get`; it stops the whole `get` when a total is missing. */
  method GetComp(w: SurfaceWrapper, s: Surf, j: nat, data: seq<real>) returns (r: Result<seq<real>>)
    requires Fits(w, s) && j < |w.comps.comps|
    requires C.ReadableUpTo(SC.CompKind(), w.comps, s.comps, j)
    requires data == C.SpanUpTo(SC.CompKind(), w.comps, s.comps, j)
    ensures r.Ok? ==> C.ReadableUpTo(SC.CompKind(), w.comps, s.comps, j + 1)
    ensures r.Ok? ==> r.value == C.SpanUpTo(SC.CompKind(), w.comps, s.comps, j + 1)
    ensures r.Err? ==> C.Get(SC.CompKind(), w.comps, s.comps) == Err(OutOfRange)
  {
    C.GetStep(SC.CompKind(), w.comps, s.comps, j);
    C.ReadableStep(SC.CompKind(), w.comps, s.comps, j);
    var slots :- SC.CompGet(w.comps.parts[j], s.comps[w.comps.comps[j]]);
    r := Ok(data + slots);
  }

  /** One iteration of the charge loop of `get`. */
  method GetCharge(w: SurfaceWrapper, s: Surf, j: nat, data: seq<real>) returns (next: seq<real>)
    requires Fits(w, s) && j < |w.charges.comps|
    requires data == C.SpanUpTo(SH.ChargeKind(w.primaries), w.charges, s.charges, j)
    ensures next == C.SpanUpTo(SH.ChargeKind(w.primaries), w.charges, s.charges, j + 1)
  {
    C.GetStep(SH.ChargeKind(w.primaries), w.charges, s.charges, j);
    var slots := SH.ChargeGet(w.charges.parts[j], s.charges[w.charges.comps[j]]);
    next := data + slots;
  }

  /** The slots of the components, when every captured total is still there. */
  method GetComps(w: SurfaceWrapper, s: Surf) returns (r: Result<seq<real>>)
    requires Fits(w, s)
    ensures r == C.Get(SC.CompKind(), w.comps, s.comps)
  {
    var data := [];
    var j := 0;
    while j < |w.comps.comps|
      invariant j <= |w.comps.comps|
      invariant C.ReadableUpTo(SC.CompKind(), w.comps, s.comps, j)
      invariant data == C.SpanUpTo(SC.CompKind(), w.comps, s.comps, j)
    {
      var next := GetComp(w, s, j, data);
      if next.Err? {
        return Err(OutOfRange);
      }
      data := next.value;
      j := j + 1;
    }
    C.ReadableDone(SC.CompKind(), w.comps, s.comps);
    r := Ok(data);
  }

  /** The slots of the charges; reading a charge never fails. */
  method GetCharges(w: SurfaceWrapper, s: Surf) returns (data: seq<real>)
    requires Fits(w, s)
    ensures data == C.Span(SH.ChargeKind(w.primaries), w.charges, s.charges)
  {
    data := [];
    var j := 0;
    while j < |w.charges.comps|
      invariant j <= |w.charges.comps|
      invariant data == C.SpanUpTo(SH.ChargeKind(w.primaries), w.charges, s.charges, j)
    {
      data := GetCharge(w, s, j, data);
      j := j + 1;
    }
  }

  /** SurfaceWrapper::get: the components, then the charges, each at the running offset. */
  method Get(w: SurfaceWrapper, s: Surf) returns (r: Result<seq<real>>)
    requires Fits(w, s)
    ensures r == GetSpec(w, s)
    ensures r.Ok? ==> |r.value| == w.numElements
  {
    var comps := GetComps(w, s);
    if comps.Err? {
      return Err(OutOfRange);
    }
    var charges := GetCharges(w, s);
    r := Ok(comps.value + charges);
    SC.KindLaws();
    SH.KindLaws(w.primaries);
    C.SpanLength(SC.CompKind(), w.comps, s.comps);
    C.SpanLength(SH.ChargeKind(w.primaries), w.charges, s.charges);
  }

  // ---------------------------------------------------------------- set

  /** What `set` makes of the surface: the first slots go to the components, the rest to the charges. */
  ghost function SetSpec(w: SurfaceWrapper, s: Surf, d: seq<real>): Surf
    requires Fits(w, s) && |d| == w.numElements
  {
    Surf(
      C.Set(SC.CompKind(), w.comps, s.comps, d[..w.comps.numElements]),
      C.Set(SH.ChargeKind(w.primaries), w.charges, s.charges, d[w.comps.numElements..]))
  }

  /** One iteration of the component loop of `set`. */
  method PutComp(cw: C.Wrapper<SortedNames>, comps: seq<SC.SurfComp>, d: seq<real>, j: nat, cs: seq<SC.SurfComp>, offset: nat)
    returns (next: seq<SC.SurfComp>, nextOffset: nat)
    requires C.Built(SC.CompKind(), cw, comps) && |d| == cw.numElements && j < |cw.comps|
    requires offset == Offset(cw.sizes, j) && cs == C.SetUpTo(SC.CompKind(), cw, comps, d, j)
    ensures nextOffset == Offset(cw.sizes, j + 1) && next == C.SetUpTo(SC.CompKind(), cw, comps, d, j + 1)
  {
    C.PutReady(SC.CompKind(), cw, comps, d, j, cs, offset);
    SC.KindLaws();
    C.SetUpToBuilt(SC.CompKind(), cw, comps, d, j);
    assert C.BuiltAt(SC.CompKind(), cw, cs, j);
    var i := cw.comps[j];
    var comp := SC.CompPut(cw.parts[j], cs[i], d[offset..offset + cw.sizes[j]]);
    next := cs[i := comp];
    nextOffset := offset + cw.sizes[j];
  }

  /** One iteration of the charge loop of `set`. */
  method PutCharge(primaries: set<string>, hw: C.Wrapper<SortedNames>, charges: seq<SH.SurfCharge>, d: seq<real>, j: nat, cs: seq<SH.SurfCharge>, offset: nat)
    returns (next: seq<SH.SurfCharge>, nextOffset: nat)
    requires C.Built(SH.ChargeKind(primaries), hw, charges) && |d| == hw.numElements && j < |hw.comps|
    requires offset == Offset(hw.sizes, j) && cs == C.SetUpTo(SH.ChargeKind(primaries), hw, charges, d, j)
    ensures nextOffset == Offset(hw.sizes, j + 1) && next == C.SetUpTo(SH.ChargeKind(primaries), hw, charges, d, j + 1)
  {
    var hk := SH.ChargeKind(primaries);
    C.PutReady(hk, hw, charges, d, j, cs, offset);
    SH.KindLaws(primaries);
    C.SetUpToBuilt(hk, hw, charges, d, j);
    assert C.BuiltAt(hk, hw, cs, j);
    var i := hw.comps[j];
    var charge := SH.ChargePut(hw.parts[j], cs[i], d[offset..offset + hw.sizes[j]]);
    next := cs[i := charge];
    nextOffset := offset + hw.sizes[j];
  }

  /** The component loop of `set`, on the components' share of the span. */
  method PutComps(cw: C.Wrapper<SortedNames>, comps: seq<SC.SurfComp>, d: seq<real>) returns (cs: seq<SC.SurfComp>)
    requires C.Built(SC.CompKind(), cw, comps) && |d| == cw.numElements
    ensures cs == C.Set(SC.CompKind(), cw, comps, d)
  {
    cs := comps;
    var offset: nat := 0;
    var j: nat := 0;
    while j < |cw.comps|
      invariant j <= |cw.comps|
      invariant offset == Offset(cw.sizes, j)
      invariant cs == C.SetUpTo(SC.CompKind(), cw, comps, d, j)
    {
      cs, offset := PutComp(cw, comps, d, j, cs, offset);
      j := j + 1;
    }
  }

  /** The charge loop of `set`, on the charges' share of the span. */
  method PutCharges(primaries: set<string>, hw: C.Wrapper<SortedNames>, charges: seq<SH.SurfCharge>, d: seq<real>) returns (cs: seq<SH.SurfCharge>)
    requires C.Built(SH.ChargeKind(primaries), hw, charges) && |d| == hw.numElements
    ensures cs == C.Set(SH.ChargeKind(primaries), hw, charges, d)
  {
    cs := charges;
    var offset: nat := 0;
    var j: nat := 0;
    while j < |hw.comps|
      invariant j <= |hw.comps|
      invariant offset == Offset(hw.sizes, j)
      invariant cs == C.SetUpTo(SH.ChargeKind(primaries), hw, charges, d, j)
    {
      cs, offset := PutCharge(primaries, hw, charges, d, j, cs, offset);
      j := j + 1;
    }
  }

  /** SurfaceWrapper::set: the components, then the charges, each at the running offset. */
  method Put(w: SurfaceWrapper, s: Surf, d: seq<real>) returns (r: Surf)
    requires Fits(w, s) && |d| == w.numElements
    ensures r == SetSpec(w, s, d)
  {
    var comps := PutComps(w.comps, s.comps, d[..w.comps.numElements]);
    var charges := PutCharges(w.primaries, w.charges, s.charges, d[w.comps.numElements..]);
    r := Surf(comps, charges);
  }

  // ---------------------------------------------------------------- round trips

  /** `set` followed by `get` reproduces the span when no component and no charge is wrapped twice. */
  lemma SetGet(w: SurfaceWrapper, s: Surf, d: seq<real>)
    requires Fits(w, s) && |d| == w.numElements
    requires C.Distinct(w.comps.comps) && C.Distinct(w.charges.comps)
    ensures Fits(w, SetSpec(w, s, d))
    ensures GetSpec(w, SetSpec(w, s, d)) == Ok(d)
  {
    var n := w.comps.numElements;
    SC.KindLaws();
    SH.KindLaws(w.primaries);
    C.SetGet(SC.CompKind(), w.comps, s.comps, d[..n]);
    C.SetGet(SH.ChargeKind(w.primaries), w.charges, s.charges, d[n..]);
    assert d[..n] + d[n..] == d;
  }

  /**
   * Writing back the span that `get` produced leaves the surface as it was,
   * when each component wrapper captured its component's totals and each
   * wrapped charge's diffuse layer holds only non-zero primaries.
   */
  lemma GetSet(w: SurfaceWrapper, s: Surf)
    requires Fits(w, s) && C.Captured(SC.CompKind(), w.comps, s.comps)
    requires forall k :: 0 <= k < |w.charges.comps| ==>
      w.charges.comps[k] < |s.charges| && SH.Normal(w.charges.parts[k], s.charges[w.charges.comps[k]].diffuseLayer)
    ensures GetSpec(w, s).Ok? && |GetSpec(w, s).value| == w.numElements
    ensures SetSpec(w, s, GetSpec(w, s).value) == s
  {
    var ck := SC.CompKind();
    var hk := SH.ChargeKind(w.primaries);
    SC.KindLaws();
    SH.KindLaws(w.primaries);
    forall k | 0 <= k < |w.comps.comps|
      ensures C.BuiltAt(ck, w.comps, s.comps, k)
      ensures C.ReadableAt(ck, w.comps, s.comps, k)
      ensures ck.put(w.comps.parts[k], s.comps[w.comps.comps[k]], C.Slots(ck, w.comps, s.comps, k)) == s.comps[w.comps.comps[k]]
    {
      assert C.BuiltAt(ck, w.comps, s.comps, k);
      var c := s.comps[w.comps.comps[k]];
      var p := w.comps.parts[k];
      assert p == SC.TotalNames(c);
      assert SC.Readable(p, c) by {
        forall i | 0 <= i < |p| ensures p[i] in c.totals {
          assert p[i] in p;
        }
      }
      SC.CompGetSet(p, c);
    }
    forall k | 0 <= k < |w.charges.comps|
      ensures C.BuiltAt(hk, w.charges, s.charges, k)
      ensures hk.put(w.charges.parts[k], s.charges[w.charges.comps[k]], C.Slots(hk, w.charges, s.charges, k)) == s.charges[w.charges.comps[k]]
    {
      assert C.BuiltAt(hk, w.charges, s.charges, k);
      SH.ChargeGetSet(w.charges.parts[k], s.charges[w.charges.comps[k]]);
    }
    C.ReadableDone(ck, w.comps, s.comps);
    C.GetSet(ck, w.comps, s.comps);
    C.GetSet(hk, w.charges, s.charges);
    var d := GetSpec(w, s).value;
    assert d[..w.comps.numElements] == C.Span(ck, w.comps, s.comps);
    assert d[w.comps.numElements..] == C.Span(hk, w.charges, s.charges);
  }

  // ---------------------------------------------------------------- names

  function CompNamesFn(): SC.SurfComp -> seq<string>
  {
    (c: SC.SurfComp) => SC.CompNames(c)
  }

  function ChargeNamesFn(primaries: set<string>): SH.SurfCharge -> seq<string>
  {
    (c: SH.SurfCharge) => SH.ChargeNames(c, primaries)
  }

  /** The component loop of `names`. */
  method CompColumns(comps: seq<SC.SurfComp>) returns (names: seq<string>, formulas: seq<string>)
    ensures names == C.NamesUpTo(CompNamesFn(), comps, |comps|)
    ensures formulas == C.Keys(SC.CompKind().key, comps, |comps|)
  {
    names := [];
    formulas := [];
    var j := 0;
    while j < |comps|
      invariant j <= |comps|
      invariant names == C.NamesUpTo(CompNamesFn(), comps, j)
      invariant formulas == C.Keys(SC.CompKind().key, comps, j)
    {
      assert C.NamesUpTo(CompNamesFn(), comps, j + 1) == names + SC.CompNames(comps[j]);
      var more := SC.CompNamesOf(comps[j]);
      names := names + more;
      formulas := formulas + [comps[j].formula];
      j := j + 1;
    }
  }

  /** The charge loop of `names`. */
  method ChargeColumns(charges: seq<SH.SurfCharge>, primaries: set<string>) returns (names: seq<string>, chargeNames: seq<string>)
    ensures names == C.NamesUpTo(ChargeNamesFn(primaries), charges, |charges|)
    ensures chargeNames == C.Keys(SH.ChargeKind(primaries).key, charges, |charges|)
  {
    names := [];
    chargeNames := [];
    var j := 0;
    while j < |charges|
      invariant j <= |charges|
      invariant names == C.NamesUpTo(ChargeNamesFn(primaries), charges, j)
      invariant chargeNames == C.Keys(SH.ChargeKind(primaries).key, charges, j)
    {
      assert C.NamesUpTo(ChargeNamesFn(primaries), charges, j + 1) == names + SH.ChargeNames(charges[j], primaries);
      var more := SH.ChargeNamesOf(charges[j], primaries);
      names := names + more;
      chargeNames := chargeNames + [charges[j].name];
      j := j + 1;
    }
  }

  /**
   * SurfaceWrapper::names: per component in solver order its names, and its
   * formula into `comp_formulas`; then per charge its names, and its name
   * into `charge_names`.
   */
  method Names(s: Surf, primaries: set<string>) returns (names: seq<string>, compFormulas: seq<string>, chargeNames: seq<string>)
    ensures names == C.NamesUpTo(CompNamesFn(), s.comps, |s.comps|) + C.NamesUpTo(ChargeNamesFn(primaries), s.charges, |s.charges|)
    ensures compFormulas == C.Keys(SC.CompKind().key, s.comps, |s.comps|)
    ensures chargeNames == C.Keys(SH.ChargeKind(primaries).key, s.charges, |s.charges|)
  {
    var compCols, chargeCols;
    compCols, compFormulas := CompColumns(s.comps);
    chargeCols, chargeNames := ChargeColumns(s.charges, primaries);
    names := compCols + chargeCols;
  }

  /**
   * Wrapping the formulas and charge names that `names` reports yields one
   * column per slot, each object wrapped once at its own position, provided
   * formulas and charge names are distinct.
   */
  lemma NamesMatchWrapper(s: Surf, w: SurfaceWrapper)
    requires C.DistinctKeys(SC.CompKind().key, s.comps) && C.DistinctKeys(SH.ChargeKind(w.primaries).key, s.charges)
    requires Fits(w, s) && C.Captured(SC.CompKind(), w.comps, s.comps) && C.Captured(SH.ChargeKind(w.primaries), w.charges, s.charges)
    requires w.comps.comps == C.Requested(SC.CompKind(), s.comps, C.Keys(SC.CompKind().key, s.comps, |s.comps|))
    requires w.charges.comps == C.Requested(SH.ChargeKind(w.primaries), s.charges, C.Keys(SH.ChargeKind(w.primaries).key, s.charges, |s.charges|))
    ensures C.Distinct(w.comps.comps) && C.Distinct(w.charges.comps)
    ensures |C.NamesUpTo(CompNamesFn(), s.comps, |s.comps|) + C.NamesUpTo(ChargeNamesFn(w.primaries), s.charges, |s.charges|)| == w.numElements
  {
    var ck := SC.CompKind();
    var hk := SH.ChargeKind(w.primaries);
    forall c | true ensures |CompNamesFn()(c)| == ck.size(ck.init(c), c) {
      SC.CompNamesAlign(c);
    }
    forall c | true ensures |ChargeNamesFn(w.primaries)(c)| == hk.size(hk.init(c), c) {
      SH.ChargeNamesAlign(c, w.primaries);
    }
    C.NamesMatchWrapper(ck, CompNamesFn(), s.comps, w.comps);
    C.NamesMatchWrapper(hk, ChargeNamesFn(w.primaries), s.charges, w.charges);
  }
}
