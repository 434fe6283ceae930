// ExchangeWrapper: the slot layout of an ion-exchange assemblage in the flat
// buffer, one component after another.
//
// The walk over the components is the same as Composite's, but the exchange
// wrapper cannot be an instance of Composite.Kind. Composite's round trips
// assume laws for every object of the kind: `set` leaves an object that `get`
// can read back (ReadsBackAll). An exchange component whose formula is not a
// key of its totals breaks that law. Its `get` and `set` dereference a
// missing entry (litephreeqc/src/Wrapper/ExchangeCompWrapper.cpp:27 and :45),
// and `set` inserts nothing that would make it readable. So here readability
// is a property of the wrapped components (ReadableAt, Fits), not a law of
// the kind, and Parts, SpanUpTo and SetUpTo are stated under that condition.

module Exchange {
  import opened Values
  import opened Order
  import opened Spans
  import opened ExchangeComp

  /** A cxxExchange: its components in the solver's order. */
  datatype Exchanger = Exchanger(comps: seq<ExchComp>)

  /**
   * ExchangeWrapper: the wrapped components (by position in the exchanger),
   * the size each component wrapper computed when it was made, and their sum.
   */
  datatype ExchangeWrapper = ExchangeWrapper(comps: seq<nat>, sizes: seq<nat>, numElements: nat)

  /** Wrapped component k exists and its recorded size is the component's size. */
  predicate BuiltAt(w: ExchangeWrapper, e: Exchanger, k: nat)
    requires k < |w.comps| && |w.sizes| == |w.comps|
  {
    w.comps[k] < |e.comps| && w.sizes[k] == CompSize(e.comps[w.comps[k]])
  }

  /** What the constructor establishes. */
  predicate Built(w: ExchangeWrapper, e: Exchanger)
  {
    && |w.sizes| == |w.comps|
    && (forall k :: 0 <= k < |w.comps| ==> BuiltAt(w, e, k))
    && w.numElements == Sum(w.sizes)
  }

  /** Wrapped component k has its formula among its totals, which `get` and `set` dereference. */
  predicate ReadableAt(w: ExchangeWrapper, e: Exchanger, k: nat)
    requires k < |w.comps|
  {
    w.comps[k] < |e.comps| && e.comps[w.comps[k]].formula in e.comps[w.comps[k]].totals
  }

  /** The wrapper was built over `e` and every wrapped component can be read and written. */
  predicate Fits(w: ExchangeWrapper, e: Exchanger)
  {
    Built(w, e) && forall k :: 0 <= k < |w.comps| ==> ReadableAt(w, e, k)
  }

  /** Position of the first component whose formula is `name` (`std::find_if`). */
  function FindFormula(comps: seq<ExchComp>, name: string): (k: nat)
    ensures k <= |comps|
    ensures k < |comps| ==> comps[k].formula == name
    ensures forall i :: 0 <= i < k ==> comps[i].formula != name
  {
    if comps == [] then 0
    else if comps[0].formula == name then 0
    else 1 + FindFormula(comps[1..], name)
  }

  /** `std::find_if` over the components for a formula. */
  method FindComp(e: Exchanger, name: string) returns (i: nat)
    ensures i == FindFormula(e.comps, name)
  {
    i := 0;
    while i < |e.comps| && e.comps[i].formula != name
      invariant 0 <= i <= |e.comps|
      invariant forall j :: 0 <= j < i ==> e.comps[j].formula != name
    {
      i := i + 1;
    }
  }

  /** The components the constructor picks for the requested formulas. */
  ghost function Requested(e: Exchanger, exchanger: seq<string>): (r: seq<nat>)
    ensures |r| == |exchanger|
  {
    seq(|exchanger|, k requires 0 <= k < |exchanger| => FindFormula(e.comps, exchanger[k]))
  }

  /** Some requested formula names no component. */
  ghost predicate Missing(e: Exchanger, exchanger: seq<string>, n: nat)
    requires n <= |exchanger|
  {
    exists k :: 0 <= k < n && FindFormula(e.comps, exchanger[k]) == |e.comps|
  }

  /** The constructor's state after the first k requested formulas. */
  ghost predicate BuiltUpTo(e: Exchanger, exchanger: seq<string>, k: nat, w: ExchangeWrapper)
    requires k <= |exchanger|
  {
    && w.comps == Requested(e, exchanger)[..k]
    && Built(w, e)
    && !Missing(e, exchanger, k)
  }

  lemma BuiltStart(e: Exchanger, exchanger: seq<string>)
    ensures BuiltUpTo(e, exchanger, 0, ExchangeWrapper([], [], 0))
  {
  }

  /** Wrapping one more found component keeps the constructor's state consistent. */
  lemma BuiltStep(e: Exchanger, exchanger: seq<string>, k: nat, w: ExchangeWrapper, i: nat)
    requires k < |exchanger| && BuiltUpTo(e, exchanger, k, w)
    requires i == FindFormula(e.comps, exchanger[k]) && i < |e.comps|
    ensures BuiltUpTo(e, exchanger, k + 1,
              ExchangeWrapper(w.comps + [i], w.sizes + [CompSize(e.comps[i])], w.numElements + CompSize(e.comps[i])))
  {
    var next := ExchangeWrapper(w.comps + [i], w.sizes + [CompSize(e.comps[i])], w.numElements + CompSize(e.comps[i]));
    SumAppend(w.sizes, [CompSize(e.comps[i])]);
    assert Requested(e, exchanger)[..k + 1] == Requested(e, exchanger)[..k] + [i];
    forall j | 0 <= j < |next.comps| ensures BuiltAt(next, e, j) {
      if j < k { assert BuiltAt(w, e, j); }
    }
    forall j | 0 <= j < k + 1 ensures FindFormula(e.comps, exchanger[j]) != |e.comps| {
      if j < k { assert !Missing(e, exchanger, k); }
    }
  }

  lemma BuiltMissing(e: Exchanger, exchanger: seq<string>, k: nat)
    requires k < |exchanger| && FindFormula(e.comps, exchanger[k]) == |e.comps|
    ensures Missing(e, exchanger, |exchanger|)
  {
  }

  lemma BuiltDone(e: Exchanger, exchanger: seq<string>, w: ExchangeWrapper)
    requires BuiltUpTo(e, exchanger, |exchanger|, w)
    ensures w.comps == Requested(e, exchanger)
  {
    TakeAll(Requested(e, exchanger));
  }

  /**
   * ExchangeWrapper's constructor: one component per requested formula, in the
   * requested order; runtime_error when some formula names no component.
   */
  method NewExchangeWrapper(e: Exchanger, exchanger: seq<string>) returns (r: Result<ExchangeWrapper>)
    ensures r.Err? <==> Missing(e, exchanger, |exchanger|)
    ensures r.Err? ==> r.error == RuntimeError
    ensures r.Ok? ==> r.value.comps == Requested(e, exchanger) && Built(r.value, e)
  {
    var w := ExchangeWrapper([], [], 0);
    BuiltStart(e, exchanger);
    var k := 0;
    while k < |exchanger|
      invariant k <= |exchanger|
      invariant BuiltUpTo(e, exchanger, k, w)
    {
      var i := FindComp(e, exchanger[k]);
      if i == |e.comps| {
        BuiltMissing(e, exchanger, k);
        return Err(RuntimeError);
      }
      BuiltStep(e, exchanger, k, w, i);
      w := ExchangeWrapper(w.comps + [i], w.sizes + [CompSize(e.comps[i])], w.numElements + CompSize(e.comps[i]));
      k := k + 1;
    }
    BuiltDone(e, exchanger, w);
    r := Ok(w);
  }

  /** The slots of the first n wrapped components. */
  ghost function Parts(w: ExchangeWrapper, e: Exchanger, n: nat): (r: seq<seq<real>>)
    requires Fits(w, e) && n <= |w.comps|
    ensures |r| == n
  {
    if n == 0 then []
    else
      assert ReadableAt(w, e, n - 1);
      Parts(w, e, n - 1) + [CompValues(e.comps[w.comps[n - 1]])]
  }

  lemma {:induction false} PartsAt(w: ExchangeWrapper, e: Exchanger, n: nat, k: nat)
    requires Fits(w, e) && k < n <= |w.comps|
    ensures ReadableAt(w, e, k)
    ensures Parts(w, e, n)[k] == CompValues(e.comps[w.comps[k]])
  {
    if k < n - 1 {
      PartsAt(w, e, n - 1, k);
    }
  }

  /** The contents of the span after ExchangeWrapper::get. */
  /** The span after `get` has filled the first n wrapped components, one after another. */
  ghost function SpanUpTo(w: ExchangeWrapper, e: Exchanger, n: nat): seq<real>
    requires Fits(w, e) && n <= |w.comps|
  {
    if n == 0 then []
    else
      assert ReadableAt(w, e, n - 1);
      SpanUpTo(w, e, n - 1) + CompValues(e.comps[w.comps[n - 1]])
  }

  ghost function Span(w: ExchangeWrapper, e: Exchanger): seq<real>
    requires Fits(w, e)
  {
    SpanUpTo(w, e, |w.comps|)
  }

  lemma PartsStep(w: ExchangeWrapper, e: Exchanger, k: nat)
    requires Fits(w, e) && k < |w.comps|
    ensures ReadableAt(w, e, k)
    ensures Concat(Parts(w, e, k + 1)) == Concat(Parts(w, e, k)) + CompValues(e.comps[w.comps[k]])
  {
    assert ReadableAt(w, e, k);
    ConcatAppend(Parts(w, e, k), [CompValues(e.comps[w.comps[k]])]);
    assert Concat([CompValues(e.comps[w.comps[k]])]) == CompValues(e.comps[w.comps[k]]);
  }

  /** The span is the concatenation of the components' slots. */
  lemma {:induction false} SpanUpToParts(w: ExchangeWrapper, e: Exchanger, n: nat)
    requires Fits(w, e) && n <= |w.comps|
    ensures SpanUpTo(w, e, n) == Concat(Parts(w, e, n))
  {
    if n > 0 {
      SpanUpToParts(w, e, n - 1);
      PartsStep(w, e, n - 1);
    }
  }

  lemma PartsLengths(w: ExchangeWrapper, e: Exchanger)
    requires Fits(w, e)
    ensures Lengths(Parts(w, e, |w.comps|)) == w.sizes
  {
    forall i | 0 <= i < |w.comps| ensures |Parts(w, e, |w.comps|)[i]| == w.sizes[i] {
      PartsAt(w, e, |w.comps|, i);
      assert BuiltAt(w, e, i);
      CompValuesLength(e.comps[w.comps[i]]);
    }
  }

  lemma SpanLength(w: ExchangeWrapper, e: Exchanger)
    requires Fits(w, e)
    ensures |Span(w, e)| == w.numElements
  {
    PartsLengths(w, e);
    SpanUpToParts(w, e, |w.comps|);
    ConcatLength(Parts(w, e, |w.comps|));
  }

  /** `get` fills exactly size() slots, and component k owns the sub-span at its running offset. */
  lemma SpanLayout(w: ExchangeWrapper, e: Exchanger, k: nat)
    requires Fits(w, e) && k < |w.comps|
    ensures ReadableAt(w, e, k)
    ensures |Span(w, e)| == w.numElements
    ensures Block(Span(w, e), w.sizes, k) == CompValues(e.comps[w.comps[k]])
  {
    SpanLength(w, e);
    PartsLengths(w, e);
    SpanUpToParts(w, e, |w.comps|);
    BlockOfConcat(Parts(w, e, |w.comps|), k);
    PartsAt(w, e, |w.comps|, k);
  }

  lemma GetStep(w: ExchangeWrapper, e: Exchanger, k: nat)
    requires Fits(w, e) && k < |w.comps|
    ensures ReadableAt(w, e, k)
    ensures SpanUpTo(w, e, k + 1) == SpanUpTo(w, e, k) + CompValues(e.comps[w.comps[k]])
  {
    assert ReadableAt(w, e, k);
  }

  /** One iteration of `get`: wrapped component k appends its slots. */
  method GetComp(w: ExchangeWrapper, e: Exchanger, k: nat, data: seq<real>) returns (next: seq<real>)
    requires Fits(w, e) && k < |w.comps|
    requires data == SpanUpTo(w, e, k)
    ensures next == SpanUpTo(w, e, k + 1)
  {
    GetStep(w, e, k);
    var slots := CompGet(e.comps[w.comps[k]]);
    next := data + slots;
  }

  /** ExchangeWrapper::get: each component fills the sub-span at the running offset. */
  method Get(w: ExchangeWrapper, e: Exchanger) returns (data: seq<real>)
    requires Fits(w, e)
    ensures data == Span(w, e)
    ensures |data| == w.numElements
  {
    data := [];
    var k := 0;
    while k < |w.comps|
      invariant 0 <= k <= |w.comps|
      invariant data == SpanUpTo(w, e, k)
    {
      data := GetComp(w, e, k, data);
      k := k + 1;
    }
    SpanLength(w, e);
  }

  /** Same formula and as many totals, the formula among them whenever it was before. */
  predicate SameShape(a: ExchComp, b: ExchComp)
  {
    && a.formula == b.formula
    && |a.totals| == |b.totals|
    && (b.formula in b.totals ==> a.formula in a.totals)
  }

  /**
   * The exchanger after the first n wrapped components have read their
   * sub-spans of `d`. The guard on each step always holds when the wrapper
   * fits (SetUpToShape); it keeps the definition free of that proof.
   */
  ghost function SetUpTo(w: ExchangeWrapper, e: Exchanger, d: seq<real>, n: nat): (r: Exchanger)
    requires Fits(w, e) && |d| == w.numElements && n <= |w.comps|
    ensures |r.comps| == |e.comps|
  {
    if n == 0 then e
    else
      var prev := SetUpTo(w, e, d, n - 1);
      assert BuiltAt(w, e, n - 1);
      var i := w.comps[n - 1];
      var c := prev.comps[i];
      var b := Block(d, w.sizes, n - 1);
      if c.formula in c.totals && |b| == |c.totals| + 4 then Exchanger(prev.comps[i := CompSet(c, b)]) else prev
  }

  /** Reading a block keeps a component's shape. */
  lemma SameShapeSet(a: ExchComp, b: ExchComp, d: seq<real>)
    requires SameShape(a, b) && a.formula in a.totals && |d| == |a.totals| + 4
    ensures SameShape(CompSet(a, d), b)
  {
    assert CompSet(a, d).totals.Keys == a.totals.Keys;
  }

  /** Every step of the walk keeps every component's shape. */
  lemma {:induction false} SetUpToShape(w: ExchangeWrapper, e: Exchanger, d: seq<real>, n: nat, j: nat)
    requires Fits(w, e) && |d| == w.numElements && n <= |w.comps| && j < |e.comps|
    ensures SameShape(SetUpTo(w, e, d, n).comps[j], e.comps[j])
  {
    if n > 0 {
      SetUpToShape(w, e, d, n - 1, j);
      var prev := SetUpTo(w, e, d, n - 1);
      assert BuiltAt(w, e, n - 1);
      var i := w.comps[n - 1];
      var b := Block(d, w.sizes, n - 1);
      if i == j && prev.comps[i].formula in prev.comps[i].totals && |b| == |prev.comps[i].totals| + 4 {
        SameShapeSet(prev.comps[i], e.comps[i], b);
      }
    }
  }

  /** Setting keeps every component's formula and number of totals, so the wrapper still fits. */
  lemma SetUpToFits(w: ExchangeWrapper, e: Exchanger, d: seq<real>, n: nat)
    requires Fits(w, e) && |d| == w.numElements && n <= |w.comps|
    ensures Fits(w, SetUpTo(w, e, d, n))
  {
    var r := SetUpTo(w, e, d, n);
    forall k | 0 <= k < |w.comps| ensures BuiltAt(w, r, k) && ReadableAt(w, r, k) {
      assert BuiltAt(w, e, k) && ReadableAt(w, e, k);
      SetUpToShape(w, e, d, n, w.comps[k]);
    }
  }

  /** ExchangeWrapper::set: each component reads the sub-span at the running offset. */
  ghost function Set(w: ExchangeWrapper, e: Exchanger, d: seq<real>): Exchanger
    requires Fits(w, e) && |d| == w.numElements
  {
    SetUpTo(w, e, d, |w.comps|)
  }

  /** Component k's block starts at the running offset, which then advances by its size. */
  lemma PutOffsets(w: ExchangeWrapper, d: seq<real>, k: nat)
    requires Sum(w.sizes) == |d| && k < |w.sizes|
    ensures Offset(w.sizes, k) + w.sizes[k] <= |d|
    ensures Offset(w.sizes, k + 1) == Offset(w.sizes, k) + w.sizes[k]
    ensures d[Offset(w.sizes, k)..Offset(w.sizes, k) + w.sizes[k]] == Block(d, w.sizes, k)
  {
    OffsetBound(w.sizes, k);
    OffsetStep(w.sizes, k);
  }

  /** The component that step k of the walk writes is one whose `set` may read that block. */
  lemma PutFitsStep(w: ExchangeWrapper, e: Exchanger, d: seq<real>, k: nat)
    requires Fits(w, e) && |d| == w.numElements && k < |w.comps|
    ensures w.comps[k] < |SetUpTo(w, e, d, k).comps|
    ensures SetUpTo(w, e, d, k).comps[w.comps[k]].formula in SetUpTo(w, e, d, k).comps[w.comps[k]].totals
    ensures |Block(d, w.sizes, k)| == |SetUpTo(w, e, d, k).comps[w.comps[k]].totals| + 4
  {
    SetUpToFits(w, e, d, k);
    assert BuiltAt(w, SetUpTo(w, e, d, k), k) && ReadableAt(w, SetUpTo(w, e, d, k), k);
  }

  /** Step k of the walk, unfolded. */
  lemma PutUnfold(w: ExchangeWrapper, e: Exchanger, d: seq<real>, k: nat)
    requires Fits(w, e) && |d| == w.numElements && k < |w.comps|
    ensures w.comps[k] < |SetUpTo(w, e, d, k).comps|
    ensures SetUpTo(w, e, d, k).comps[w.comps[k]].formula in SetUpTo(w, e, d, k).comps[w.comps[k]].totals
    ensures |Block(d, w.sizes, k)| == |SetUpTo(w, e, d, k).comps[w.comps[k]].totals| + 4
    ensures SetUpTo(w, e, d, k + 1) == Exchanger(SetUpTo(w, e, d, k).comps[w.comps[k] :=
              CompSet(SetUpTo(w, e, d, k).comps[w.comps[k]], Block(d, w.sizes, k))])
  {
    PutFitsStep(w, e, d, k);
  }

  /** Step k of the walk, stated on the walk's current state `r` and running `offset`. */
  lemma PutReady(w: ExchangeWrapper, e: Exchanger, d: seq<real>, k: nat, r: Exchanger, offset: nat)
    requires Fits(w, e) && |d| == w.numElements && k < |w.comps|
    requires offset == Offset(w.sizes, k) && r == SetUpTo(w, e, d, k)
    ensures w.comps[k] < |r.comps| && offset + w.sizes[k] <= |d|
    ensures r.comps[w.comps[k]].formula in r.comps[w.comps[k]].totals
    ensures w.sizes[k] == |r.comps[w.comps[k]].totals| + 4
    ensures Offset(w.sizes, k + 1) == offset + w.sizes[k]
    ensures SetUpTo(w, e, d, k + 1) ==
              Exchanger(r.comps[w.comps[k] := CompSet(r.comps[w.comps[k]], d[offset..offset + w.sizes[k]])])
  {
    PutOffsets(w, d, k);
    PutFitsStep(w, e, d, k);
  }

  /** ExchangeWrapper::set: each component reads the sub-span at the running offset. */
  method Put(w: ExchangeWrapper, e: Exchanger, d: seq<real>) returns (r: Exchanger)
    requires Fits(w, e) && |d| == w.numElements
    ensures r == Set(w, e, d)
  {
    r := e;
    var offset: nat := 0;
    var k: nat := 0;
    while k < |w.comps|
      invariant k <= |w.comps|
      invariant offset == Offset(w.sizes, k)
      invariant r == SetUpTo(w, e, d, k)
    {
      r, offset := PutComp(w, e, d, k, r, offset);
      k := k + 1;
    }
  }

  /** One iteration of `set`: wrapped component k reads its sub-span and the offset advances. */
  method PutComp(w: ExchangeWrapper, e: Exchanger, d: seq<real>, k: nat, r: Exchanger, offset: nat)
    returns (next: Exchanger, nextOffset: nat)
    requires Fits(w, e) && |d| == w.numElements && k < |w.comps|
    requires offset == Offset(w.sizes, k) && r == SetUpTo(w, e, d, k)
    ensures nextOffset == Offset(w.sizes, k + 1) && next == SetUpTo(w, e, d, k + 1)
  {
    PutReady(w, e, d, k, r, offset);
    var i := w.comps[k];
    var comp := CompPut(r.comps[i], d[offset..offset + w.sizes[k]]);
    next := Exchanger(r.comps[i := comp]);
    nextOffset := offset + w.sizes[k];
  }

  predicate Distinct(s: seq<nat>)
  {
    forall i, j :: 0 <= i < j < |s| ==> s[i] != s[j]
  }

  /** The first n wrapped components of `x` read back their blocks of `d`. */
  ghost predicate ReadsBack(w: ExchangeWrapper, x: Exchanger, d: seq<real>, n: nat)
    requires Fits(w, x) && |d| == w.numElements && n <= |w.comps|
  {
    forall k :: 0 <= k < n ==> ReadableAt(w, x, k) && CompValues(x.comps[w.comps[k]]) == Block(d, w.sizes, k)
  }

  lemma ReadsBackStep(w: ExchangeWrapper, prev: Exchanger, cur: Exchanger, d: seq<real>, n: nat)
    requires Fits(w, prev) && Fits(w, cur) && |d| == w.numElements && 0 < n <= |w.comps|
    requires ReadsBack(w, prev, d, n - 1)
    requires forall k :: 0 <= k < n - 1 ==> SameAt(w, prev, cur, k)
    requires ReadableAt(w, cur, n - 1) && CompValues(cur.comps[w.comps[n - 1]]) == Block(d, w.sizes, n - 1)
    ensures ReadsBack(w, cur, d, n)
  {
    forall k | 0 <= k < n ensures ReadableAt(w, cur, k) && CompValues(cur.comps[w.comps[k]]) == Block(d, w.sizes, k) {
      if k < n - 1 {
        assert SameAt(w, prev, cur, k);
      }
    }
  }

  /** Wrapped component k is the same in both exchangers. */
  predicate SameAt(w: ExchangeWrapper, x: Exchanger, y: Exchanger, k: nat)
    requires k < |w.comps|
  {
    w.comps[k] < |x.comps| && w.comps[k] < |y.comps| && x.comps[w.comps[k]] == y.comps[w.comps[k]]
  }

  /** Step n of the walk leaves the components wrapped earlier alone. */
  lemma SetUpToOther(w: ExchangeWrapper, e: Exchanger, d: seq<real>, n: nat, k: nat)
    requires Fits(w, e) && |d| == w.numElements && n <= |w.comps| && Distinct(w.comps)
    requires k < n - 1
    ensures SameAt(w, SetUpTo(w, e, d, n - 1), SetUpTo(w, e, d, n), k)
  {
    PutUnfold(w, e, d, n - 1);
    assert BuiltAt(w, e, k);
    assert w.comps[k] != w.comps[n - 1];
  }

  /** Step n of the walk makes component n - 1 read back its own block. */
  lemma SetUpToLast(w: ExchangeWrapper, e: Exchanger, d: seq<real>, n: nat)
    requires Fits(w, e) && |d| == w.numElements && 0 < n <= |w.comps|
    ensures Fits(w, SetUpTo(w, e, d, n))
    ensures ReadableAt(w, SetUpTo(w, e, d, n), n - 1)
    ensures CompValues(SetUpTo(w, e, d, n).comps[w.comps[n - 1]]) == Block(d, w.sizes, n - 1)
  {
    SetUpToFits(w, e, d, n);
    assert ReadableAt(w, SetUpTo(w, e, d, n), n - 1);
    PutUnfold(w, e, d, n - 1);
    var prev := SetUpTo(w, e, d, n - 1);
    var i := w.comps[n - 1];
    var b := Block(d, w.sizes, n - 1);
    assert SetUpTo(w, e, d, n).comps[i] == CompSet(prev.comps[i], b);
    CompSetGet(prev.comps[i], b);
  }

  lemma {:induction false} SetUpToReads(w: ExchangeWrapper, e: Exchanger, d: seq<real>, n: nat)
    requires Fits(w, e) && |d| == w.numElements && n <= |w.comps| && Distinct(w.comps)
    ensures Fits(w, SetUpTo(w, e, d, n))
    ensures ReadsBack(w, SetUpTo(w, e, d, n), d, n)
  {
    SetUpToFits(w, e, d, n);
    if n > 0 {
      SetUpToReads(w, e, d, n - 1);
      var prev, cur := SetUpTo(w, e, d, n - 1), SetUpTo(w, e, d, n);
      forall k | 0 <= k < n - 1 ensures SameAt(w, prev, cur, k) {
        SetUpToOther(w, e, d, n, k);
      }
      SetUpToLast(w, e, d, n);
      ReadsBackStep(w, prev, cur, d, n);
    }
  }

  /** The parts of a wrapper that reads back its blocks are those blocks. */
  lemma ReadsBackParts(w: ExchangeWrapper, x: Exchanger, d: seq<real>)
    requires Fits(w, x) && |d| == w.numElements
    requires ReadsBack(w, x, d, |w.comps|)
    ensures Parts(w, x, |w.comps|) == Blocks(d, w.sizes, |w.comps|)
  {
    forall k | 0 <= k < |w.comps| ensures Parts(w, x, |w.comps|)[k] == Blocks(d, w.sizes, |w.comps|)[k] {
      PartsAt(w, x, |w.comps|, k);
    }
    Extensional(Parts(w, x, |w.comps|), Blocks(d, w.sizes, |w.comps|));
  }

  /** `set` followed by `get` reproduces the span when no component is wrapped twice. */
  lemma SetGet(w: ExchangeWrapper, e: Exchanger, d: seq<real>)
    requires Fits(w, e) && |d| == w.numElements && Distinct(w.comps)
    ensures Fits(w, Set(w, e, d))
    ensures Span(w, Set(w, e, d)) == d
  {
    SetUpToReads(w, e, d, |w.comps|);
    ReadsBackParts(w, Set(w, e, d), d);
    SpanUpToParts(w, Set(w, e, d), |w.comps|);
    ConcatBlocks(d, w.sizes);
  }

  /** Writing back the span that `get` produced leaves the exchanger as it was. */
  lemma {:induction false} GetSetUpTo(w: ExchangeWrapper, e: Exchanger, n: nat)
    requires Fits(w, e) && n <= |w.comps|
    ensures |Span(w, e)| == w.numElements
    ensures SetUpTo(w, e, Span(w, e), n) == e
  {
    SpanLength(w, e);
    if n > 0 {
      GetSetUpTo(w, e, n - 1);
      GetSetStep(w, e, n);
    }
  }

  lemma GetSetStep(w: ExchangeWrapper, e: Exchanger, n: nat)
    requires Fits(w, e) && 0 < n <= |w.comps|
    requires |Span(w, e)| == w.numElements
    requires SetUpTo(w, e, Span(w, e), n - 1) == e
    ensures SetUpTo(w, e, Span(w, e), n) == e
  {
    var i := w.comps[n - 1];
    PutUnfold(w, e, Span(w, e), n - 1);
    SpanLayout(w, e, n - 1);
    CompGetSet(e.comps[i]);
    assert e.comps[i := e.comps[i]] == e.comps;
  }

  lemma GetSet(w: ExchangeWrapper, e: Exchanger)
    requires Fits(w, e)
    ensures |Span(w, e)| == w.numElements
    ensures Set(w, e, Span(w, e)) == e
  {
    GetSetUpTo(w, e, |w.comps|);
  }

  /** The names of the first n components of the exchanger, in solver order. */
  ghost function NamesUpTo(e: Exchanger, n: nat): seq<string>
    requires n <= |e.comps|
  {
    if n == 0 then [] else NamesUpTo(e, n - 1) + CompNames(e.comps[n - 1])
  }

  /** The formulas of the first n components, in solver order. */
  function Formulas(e: Exchanger, n: nat): (r: seq<string>)
    requires n <= |e.comps|
    ensures |r| == n
    ensures forall k :: 0 <= k < n ==> r[k] == e.comps[k].formula
  {
    if n == 0 then [] else Formulas(e, n - 1) + [e.comps[n - 1].formula]
  }

  lemma NamesStep(e: Exchanger, k: nat)
    requires k < |e.comps|
    ensures NamesUpTo(e, k + 1) == NamesUpTo(e, k) + CompNames(e.comps[k])
    ensures Formulas(e, k + 1) == Formulas(e, k) + [e.comps[k].formula]
  {
  }

  /**
   * ExchangeWrapper::names: per component in solver order, the formula into
   * `exchange_formulas` and the component names into the result.
   */
  method Names(e: Exchanger) returns (names: seq<string>, formulas: seq<string>)
    ensures names == NamesUpTo(e, |e.comps|)
    ensures formulas == Formulas(e, |e.comps|)
  {
    names := [];
    formulas := [];
    var k := 0;
    while k < |e.comps|
      invariant 0 <= k <= |e.comps|
      invariant names == NamesUpTo(e, k)
      invariant formulas == Formulas(e, k)
    {
      NamesStep(e, k);
      formulas := formulas + [e.comps[k].formula];
      var compNames := CompNamesWalk(e.comps[k]);
      names := names + compNames;
      k := k + 1;
    }
  }

  /** No two components share a formula. */
  predicate DistinctFormulas(e: Exchanger)
  {
    forall i, j :: 0 <= i < j < |e.comps| ==> e.comps[i].formula != e.comps[j].formula
  }

  lemma FindOwnFormula(e: Exchanger, k: nat)
    requires DistinctFormulas(e) && k < |e.comps|
    ensures FindFormula(e.comps, e.comps[k].formula) == k
  {
  }

  /** The sizes of the first n components, in solver order. */
  function SizesUpTo(e: Exchanger, n: nat): (r: seq<nat>)
    requires n <= |e.comps|
    ensures |r| == n
  {
    if n == 0 then [] else SizesUpTo(e, n - 1) + [CompSize(e.comps[n - 1])]
  }

  lemma {:induction false} SizesAt(e: Exchanger, n: nat, k: nat)
    requires k < n <= |e.comps|
    ensures SizesUpTo(e, n)[k] == CompSize(e.comps[k])
  {
    if k < n - 1 {
      SizesAt(e, n - 1, k);
    }
  }

  /** The names of the first n components are as many as their slots. */
  lemma {:induction false} NamesUpToLength(e: Exchanger, n: nat)
    requires n <= |e.comps|
    requires forall i :: 0 <= i < |e.comps| ==> e.comps[i].formula in e.comps[i].totals
    ensures |NamesUpTo(e, n)| == Sum(SizesUpTo(e, n))
  {
    if n > 0 {
      NamesUpToLength(e, n - 1);
      SumAppend(SizesUpTo(e, n - 1), [CompSize(e.comps[n - 1])]);
      CompNamesMatchLayout(e.comps[n - 1]);
    }
  }

  /** A wrapper that wraps every component at its own position records exactly their sizes. */
  lemma OwnSizes(e: Exchanger, w: ExchangeWrapper)
    requires Built(w, e) && |w.comps| == |e.comps|
    requires forall k :: 0 <= k < |w.comps| ==> w.comps[k] == k
    ensures w.sizes == SizesUpTo(e, |e.comps|)
  {
    forall k | 0 <= k < |w.sizes| ensures w.sizes[k] == SizesUpTo(e, |e.comps|)[k] {
      assert BuiltAt(w, e, k);
      SizesAt(e, |e.comps|, k);
    }
    Extensional(w.sizes, SizesUpTo(e, |e.comps|));
  }

  /**
   * Wrapping the formulas that `names` reports, in its order, yields one column
   * per slot: every component is wrapped at its own position and the name list
   * is exactly `size()` long, provided the formulas are distinct and each is a
   * key of its component's totals.
   */
  lemma NamesMatchWrapper(e: Exchanger, w: ExchangeWrapper)
    requires DistinctFormulas(e)
    requires forall i :: 0 <= i < |e.comps| ==> e.comps[i].formula in e.comps[i].totals
    requires Built(w, e) && w.comps == Requested(e, Formulas(e, |e.comps|))
    ensures forall k :: 0 <= k < |w.comps| ==> w.comps[k] == k
    ensures Fits(w, e) && Distinct(w.comps)
    ensures |NamesUpTo(e, |e.comps|)| == w.numElements
  {
    forall k | 0 <= k < |w.comps| ensures w.comps[k] == k {
      FindOwnFormula(e, k);
    }
    forall k | 0 <= k < |w.comps| ensures ReadableAt(w, e, k) {
    }
    OwnSizes(e, w);
    NamesUpToLength(e, |e.comps|);
  }
}
