// KineticWrapper and KineticCompWrapper: one kinetic reaction occupies the
// slots m, p1, ..., pN. The litephreeqc and POET copies share the layout and
// differ only in the first column name.

module Kinetic {
  import opened Values
  import opened Spans
  import opened Text
  import C = Composite

  /** A cxxKineticsComp: its rate name, moles m and its d_params. */
  datatype KinComp = KinComp(rateName: string, m: real, params: seq<real>)

  /** A cxxKinetics: its components in the solver's order. */
  datatype Kinetics = Kinetics(comps: seq<KinComp>)

  /** KineticCompWrapper::size(): m and one slot per parameter. */
  function CompSize(c: KinComp): nat
  {
    |c.params| + 1
  }

  /** The slots KineticCompWrapper::get writes: m, then the parameters in order. */
  function CompValues(c: KinComp): seq<real>
  {
    [c.m] + c.params
  }

  lemma CompValuesLayout(c: KinComp)
    ensures |CompValues(c)| == CompSize(c)
    ensures CompValues(c)[0] == c.m
    ensures forall i :: 1 <= i < CompSize(c) ==> CompValues(c)[i] == c.params[i - 1]
  {
  }

  /** KineticCompWrapper::get: slot 0 is m, then `data[next_index++] = param`. */
  method CompGet(c: KinComp) returns (data: seq<real>)
    ensures data == CompValues(c)
  {
    data := [c.m];
    var i := 0;
    while i < |c.params|
      invariant i <= |c.params|
      invariant data == [c.m] + c.params[..i]
    {
      data := data + [c.params[i]];
      i := i + 1;
    }
  }

  /**
   * KineticCompWrapper::set on a span of its own size: m from slot 0 and each
   * parameter from the slot after it; the parameter count does not change.
   * Spans of another size never reach a component wrapper (the enclosing
   * wrapper hands out size() slots), and the model leaves the component as it is.
   */
  function CompSet(c: KinComp, b: seq<real>): KinComp
  {
    if |b| == CompSize(c) then KinComp(c.rateName, b[0], b[1..]) else c
  }

  /** KineticCompWrapper::set: `Set_m(data[0])`, then `param = data[next_index++]` in place. */
  method CompPut(c: KinComp, b: seq<real>) returns (r: KinComp)
    requires |b| == CompSize(c)
    ensures r == CompSet(c, b)
  {
    var params := c.params;
    var i := 0;
    while i < |params|
      invariant i <= |params| == |c.params|
      invariant params == b[1..i + 1] + c.params[i..]
    {
      params := params[i := b[i + 1]];
      i := i + 1;
    }
    r := KinComp(c.rateName, b[0], params);
  }

  /** `set` followed by `get` reproduces the span, and `set` keeps the size. */
  lemma CompSetGet(c: KinComp, b: seq<real>)
    requires |b| == CompSize(c)
    ensures CompSize(CompSet(c, b)) == CompSize(c)
    ensures CompValues(CompSet(c, b)) == b
  {
  }

  /** `get` followed by `set` leaves the component as it was. */
  lemma CompGetSet(c: KinComp)
    ensures CompSet(c, CompValues(c)) == c
  {
    assert CompValues(c)[1..] == c.params;
  }

  // ---------------------------------------------------------------- names

  /** rate_p1 ... rate_pN. */
  function Numbered(rate: string, n: nat): (r: seq<string>)
    ensures |r| == n
  {
    if n == 0 then [] else Numbered(rate, n - 1) + [rate + "_p" + NatString(n)]
  }

  lemma {:induction false} NumberedAt(rate: string, n: nat, i: nat)
    requires i < n
    ensures Numbered(rate, n)[i] == rate + "_p" + NatString(i + 1)
  {
    if i < n - 1 {
      NumberedAt(rate, n - 1, i);
    }
  }

  /**
   * KineticCompWrapper::names: the first column is `rate_kin` in litephreeqc
   * and the bare rate name in POET (`bareRate`), then one numbered column per
   * parameter.
   */
  function CompNames(c: KinComp, bareRate: bool): seq<string>
  {
    [if bareRate then c.rateName else c.rateName + "_kin"] + Numbered(c.rateName, |c.params|)
  }

  /** There is one name per slot. */
  lemma CompNamesSize(c: KinComp, bareRate: bool)
    ensures |CompNames(c, bareRate)| == CompSize(c)
  {
  }

  /** The parameter columns of one reaction are pairwise different. */
  lemma NumberedDistinct(rate: string, n: nat, i: nat, j: nat)
    requires i < j < n
    ensures Numbered(rate, n)[i] != Numbered(rate, n)[j]
  {
    NumberedAt(rate, n, i);
    NumberedAt(rate, n, j);
    if Numbered(rate, n)[i] == Numbered(rate, n)[j] {
      SameHeadTail(rate + "_p", rate + "_p", NatString(i + 1), NatString(j + 1));
      NatStringInjective(i + 1, j + 1);
    }
  }

  /** KineticCompWrapper::names: the first column, then `push_back(rate + "_p" + to_string(i + 1))`. */
  method CompNamesOf(c: KinComp, bareRate: bool) returns (names: seq<string>)
    ensures names == CompNames(c, bareRate)
  {
    var rate := c.rateName;
    names := [if bareRate then rate else rate + "_kin"];
    var i := 0;
    while i < |c.params|
      invariant i <= |c.params|
      invariant names == [if bareRate then rate else rate + "_kin"] + Numbered(rate, i)
    {
      names := names + [rate + "_p" + NatString(i + 1)];
      i := i + 1;
    }
  }

  // ---------------------------------------------------------------- the wrapper

  /** A kinetic component wrapper captures nothing from its component. */
  function KineticKind(): C.Kind<KinComp, ()>
  {
    C.Kind(
      (c: KinComp) => c.rateName,
      (c: KinComp) => (),
      (p: (), c: KinComp) => CompSize(c),
      (p: (), c: KinComp) => true,
      (p: (), c: KinComp) => CompValues(c),
      (p: (), c: KinComp, b: seq<real>) => CompSet(c, b))
  }

  /** The component wrapper fills its size, keeps it, and reads back what it was given. */
  lemma KindLaws()
    ensures C.Layout(KineticKind()) && C.KeepsSize(KineticKind()) && C.ReadsBackAll(KineticKind())
  {
    var kd := KineticKind();
    forall p, c, b | |b| == kd.size(p, c) ensures kd.readable(p, kd.put(p, c, b)) && kd.values(p, kd.put(p, c, b)) == b {
      CompSetGet(c, b);
    }
  }

  type KineticWrapper = C.Wrapper<()>

  /** The wrapper was built over these components. */
  ghost predicate Fits(w: KineticWrapper, k: Kinetics)
  {
    C.Built(KineticKind(), w, k.comps)
  }

  /**
   * KineticWrapper's constructor: one component wrapper per requested rate
   * name, in the requested order; runtime_error when some name has no component.
   */
  method NewKineticWrapper(k: Kinetics, kinComps: seq<string>) returns (r: Result<KineticWrapper>)
    ensures r.Err? <==> C.Missing(KineticKind(), k.comps, kinComps, |kinComps|)
    ensures r.Err? ==> r.error == RuntimeError
    ensures r.Ok? ==> r.value.comps == C.Requested(KineticKind(), k.comps, kinComps) && Fits(r.value, k)
  {
    r := C.NewWrapper(KineticKind(), k.comps, kinComps);
  }

  /** Every kinetic component can be read. */
  lemma AllReadable(w: KineticWrapper, k: Kinetics, n: nat)
    requires Fits(w, k) && n <= |w.comps|
    ensures C.ReadableUpTo(KineticKind(), w, k.comps, n)
  {
    forall j | 0 <= j < n ensures C.ReadableAt(KineticKind(), w, k.comps, j) {
      assert C.BuiltAt(KineticKind(), w, k.comps, j);
    }
  }

  /** The span contents a kinetic `get` produces; it never fails. */
  ghost function Span(w: KineticWrapper, k: Kinetics): seq<real>
    requires Fits(w, k)
  {
    C.Span(KineticKind(), w, k.comps)
  }

  /** One iteration of `get`: wrapped component j writes its slots after the earlier ones. */
  method GetComp(w: KineticWrapper, k: Kinetics, j: nat, data: seq<real>) returns (next: seq<real>)
    requires Fits(w, k) && j < |w.comps|
    requires data == C.SpanUpTo(KineticKind(), w, k.comps, j)
    ensures next == C.SpanUpTo(KineticKind(), w, k.comps, j + 1)
  {
    C.GetStep(KineticKind(), w, k.comps, j);
    var slots := CompGet(k.comps[w.comps[j]]);
    next := data + slots;
  }

  /** KineticWrapper::get: each component fills the sub-span at the running offset. */
  method Get(w: KineticWrapper, k: Kinetics) returns (data: seq<real>)
    requires Fits(w, k)
    ensures C.Get(KineticKind(), w, k.comps) == Ok(data)
    ensures |data| == w.numElements
  {
    data := [];
    var j := 0;
    while j < |w.comps|
      invariant j <= |w.comps|
      invariant data == C.SpanUpTo(KineticKind(), w, k.comps, j)
    {
      data := GetComp(w, k, j, data);
      j := j + 1;
    }
    AllReadable(w, k, |w.comps|);
    KindLaws();
    C.SpanLength(KineticKind(), w, k.comps);
  }

  /** One iteration of `set`: wrapped component j reads its sub-span and the offset advances. */
  method PutComp(w: KineticWrapper, k: Kinetics, d: seq<real>, j: nat, cs: seq<KinComp>, offset: nat)
    returns (next: seq<KinComp>, nextOffset: nat)
    requires Fits(w, k) && |d| == w.numElements && j < |w.comps|
    requires offset == Offset(w.sizes, j) && cs == C.SetUpTo(KineticKind(), w, k.comps, d, j)
    ensures nextOffset == Offset(w.sizes, j + 1) && next == C.SetUpTo(KineticKind(), w, k.comps, d, j + 1)
  {
    C.PutReady(KineticKind(), w, k.comps, d, j, cs, offset);
    KindLaws();
    C.SetUpToBuilt(KineticKind(), w, k.comps, d, j);
    assert C.BuiltAt(KineticKind(), w, cs, j);
    var i := w.comps[j];
    var comp := CompPut(cs[i], d[offset..offset + w.sizes[j]]);
    next := cs[i := comp];
    nextOffset := offset + w.sizes[j];
  }

  /** KineticWrapper::set: each component reads the sub-span at the running offset. */
  method Put(w: KineticWrapper, k: Kinetics, d: seq<real>) returns (r: Kinetics)
    requires Fits(w, k) && |d| == w.numElements
    ensures r.comps == C.Set(KineticKind(), w, k.comps, d)
  {
    var cs := k.comps;
    var offset: nat := 0;
    var j: nat := 0;
    while j < |w.comps|
      invariant j <= |w.comps|
      invariant offset == Offset(w.sizes, j)
      invariant cs == C.SetUpTo(KineticKind(), w, k.comps, d, j)
    {
      cs, offset := PutComp(w, k, d, j, cs, offset);
      j := j + 1;
    }
    r := Kinetics(cs);
  }

  /** `set` followed by `get` reproduces the span when no component is wrapped twice. */
  lemma SetGet(w: KineticWrapper, k: Kinetics, d: seq<real>)
    requires Fits(w, k) && |d| == w.numElements && C.Distinct(w.comps)
    ensures Fits(w, Kinetics(C.Set(KineticKind(), w, k.comps, d)))
    ensures Span(w, Kinetics(C.Set(KineticKind(), w, k.comps, d))) == d
  {
    KindLaws();
    C.SetGet(KineticKind(), w, k.comps, d);
  }

  /** Writing back the span that `get` produced leaves the components as they were. */
  lemma GetSet(w: KineticWrapper, k: Kinetics)
    requires Fits(w, k)
    ensures |Span(w, k)| == w.numElements
    ensures C.Set(KineticKind(), w, k.comps, Span(w, k)) == k.comps
  {
    KindLaws();
    var kd := KineticKind();
    forall j | 0 <= j < |w.comps|
      ensures C.BuiltAt(kd, w, k.comps, j) && kd.put(w.parts[j], k.comps[w.comps[j]], C.Slots(kd, w, k.comps, j)) == k.comps[w.comps[j]]
    {
      assert C.BuiltAt(kd, w, k.comps, j);
      CompGetSet(k.comps[w.comps[j]]);
    }
    C.GetSet(kd, w, k.comps);
  }

  // ---------------------------------------------------------------- KineticWrapper::names

  function NameFn(bareRate: bool): KinComp -> seq<string>
  {
    (c: KinComp) => CompNames(c, bareRate)
  }

  /** The one step of `names`: component j's names after the earlier ones, its rate name after theirs. */
  lemma NamesStep(k: Kinetics, bareRate: bool, j: nat)
    requires j < |k.comps|
    ensures C.NamesUpTo(NameFn(bareRate), k.comps, j + 1) == C.NamesUpTo(NameFn(bareRate), k.comps, j) + CompNames(k.comps[j], bareRate)
    ensures C.Keys(KineticKind().key, k.comps, j + 1) == C.Keys(KineticKind().key, k.comps, j) + [k.comps[j].rateName]
  {
  }

  /**
   * KineticWrapper::names: per component in solver order, its names into the
   * result and its rate name into `kin_comps`.
   */
  method Names(k: Kinetics, bareRate: bool) returns (names: seq<string>, kinComps: seq<string>)
    ensures names == C.NamesUpTo(NameFn(bareRate), k.comps, |k.comps|)
    ensures kinComps == C.Keys(KineticKind().key, k.comps, |k.comps|)
  {
    names := [];
    kinComps := [];
    var j := 0;
    while j < |k.comps|
      invariant j <= |k.comps|
      invariant names == C.NamesUpTo(NameFn(bareRate), k.comps, j)
      invariant kinComps == C.Keys(KineticKind().key, k.comps, j)
    {
      NamesStep(k, bareRate, j);
      var compNames := CompNamesOf(k.comps[j], bareRate);
      names := names + compNames;
      kinComps := kinComps + [k.comps[j].rateName];
      j := j + 1;
    }
  }

  /**
   * Wrapping the rate names that `names` reports yields one column per slot:
   * each component is wrapped once at its own position, provided the rate
   * names are distinct.
   */
  lemma NamesMatchWrapper(k: Kinetics, bareRate: bool, w: KineticWrapper)
    requires C.DistinctKeys(KineticKind().key, k.comps)
    requires Fits(w, k) && C.Captured(KineticKind(), w, k.comps)
    requires w.comps == C.Requested(KineticKind(), k.comps, C.Keys(KineticKind().key, k.comps, |k.comps|))
    ensures |w.comps| == |k.comps| && forall j :: 0 <= j < |w.comps| ==> w.comps[j] == j
    ensures |C.NamesUpTo(NameFn(bareRate), k.comps, |k.comps|)| == w.numElements
  {
    var kd := KineticKind();
    forall c | true ensures |NameFn(bareRate)(c)| == kd.size(kd.init(c), c) {
      CompNamesSize(c, bareRate);
    }
    C.NamesMatchWrapper(kd, NameFn(bareRate), k.comps, w);
  }
}
