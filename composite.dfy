// A wrapper made of component wrappers (KineticWrapper, SurfaceWrapper): the
// constructor looks each requested component up by its key, and `get`/`set`
// hand wrapped component k the sub-span at the running offset
// (`offset += comp->size()`).

module Composite {
  import opened Values
  import opened Spans

  /**
   * What a component wrapper does with a solver object of type C: the part P
   * it captures when it is made, the key its enclosing constructor finds it by,
   * its size(), whether its `get` can read the object, its `get` and its `set`.
   */
  datatype Kind<!C, !P> = Kind(
    key: C -> string,
    init: C -> P,
    size: (P, C) -> nat,
    readable: (P, C) -> bool,
    values: (P, C) -> seq<real>,
    put: (P, C, seq<real>) -> C)

  /**
   * A composite wrapper: the positions of the wrapped objects in the solver's
   * list, what each component wrapper captured, the size each one computed when
   * it was made, and their sum (`num_elements`).
   */
  datatype Wrapper<P> = Wrapper(comps: seq<nat>, parts: seq<P>, sizes: seq<nat>, numElements: nat)

  predicate Shaped<P>(w: Wrapper<P>)
  {
    |w.parts| == |w.comps| && |w.sizes| == |w.comps|
  }

  /** Wrapped component k exists and its recorded size is its wrapper's size(). */
  predicate BuiltAt<C, P>(kd: Kind<C, P>, w: Wrapper<P>, cs: seq<C>, k: nat)
    requires Shaped(w) && k < |w.comps|
  {
    w.comps[k] < |cs| && w.sizes[k] == kd.size(w.parts[k], cs[w.comps[k]])
  }

  /** What the constructor establishes, and what `set` keeps. */
  predicate Built<C, P>(kd: Kind<C, P>, w: Wrapper<P>, cs: seq<C>)
  {
    && Shaped(w)
    && (forall k :: 0 <= k < |w.comps| ==> BuiltAt(kd, w, cs, k))
    && w.numElements == Sum(w.sizes)
  }

  /** Each component wrapper captured its part from the object it wraps. */
  ghost predicate Captured<C, P>(kd: Kind<C, P>, w: Wrapper<P>, cs: seq<C>)
    requires Shaped(w)
  {
    forall k :: 0 <= k < |w.comps| ==> w.comps[k] < |cs| && w.parts[k] == kd.init(cs[w.comps[k]])
  }

  // ---------------------------------------------------------------- laws

  /** A component's `get` fills exactly its size() slots. */
  ghost predicate Layout<C(!new), P(!new)>(kd: Kind<C, P>)
  {
    forall p, c :: |kd.values(p, c)| == kd.size(p, c)
  }

  /** A component's `set` does not change the size of any wrapper of the object. */
  ghost predicate KeepsSize<C(!new), P(!new)>(kd: Kind<C, P>)
  {
    forall p, q, c, b :: |b| == kd.size(p, c) ==> kd.size(q, kd.put(p, c, b)) == kd.size(q, c)
  }

  /** A component's `set` followed by its `get` reproduces the slots. */
  ghost predicate ReadsBackAll<C(!new), P(!new)>(kd: Kind<C, P>)
  {
    forall p, c, b :: |b| == kd.size(p, c) ==> kd.readable(p, kd.put(p, c, b)) && kd.values(p, kd.put(p, c, b)) == b
  }

  // ---------------------------------------------------------------- constructor

  /** Position of the first object whose key is `name` (`std::find_if`). */
  function Find<C>(key: C -> string, cs: seq<C>, name: string): (k: nat)
    ensures k <= |cs|
    ensures k < |cs| ==> key(cs[k]) == name
    ensures forall i :: 0 <= i < k ==> key(cs[i]) != name
  {
    if cs == [] then 0
    else if key(cs[0]) == name then 0
    else 1 + Find(key, cs[1..], name)
  }

  method FindIn<C>(key: C -> string, cs: seq<C>, name: string) returns (i: nat)
    ensures i == Find(key, cs, name)
  {
    i := 0;
    while i < |cs| && key(cs[i]) != name
      invariant 0 <= i <= |cs|
      invariant forall j :: 0 <= j < i ==> key(cs[j]) != name
    {
      i := i + 1;
    }
  }

  /** The objects the constructor picks for the requested names. */
  ghost function Requested<C, P>(kd: Kind<C, P>, cs: seq<C>, names: seq<string>): (r: seq<nat>)
    ensures |r| == |names|
  {
    seq(|names|, k requires 0 <= k < |names| => Find(kd.key, cs, names[k]))
  }

  /** Some of the first n requested names has no object. */
  ghost predicate Missing<C, P>(kd: Kind<C, P>, cs: seq<C>, names: seq<string>, n: nat)
    requires n <= |names|
  {
    exists k :: 0 <= k < n && Find(kd.key, cs, names[k]) == |cs|
  }

  /** The constructor's state after the first n requested names. */
  ghost predicate BuiltUpTo<C, P>(kd: Kind<C, P>, cs: seq<C>, names: seq<string>, n: nat, w: Wrapper<P>)
    requires n <= |names|
  {
    && w.comps == Requested(kd, cs, names)[..n]
    && Built(kd, w, cs)
    && Captured(kd, w, cs)
    && !Missing(kd, cs, names, n)
  }

  /** The wrapper after wrapping object i. */
  function Wrap<C, P>(kd: Kind<C, P>, cs: seq<C>, w: Wrapper<P>, i: nat): Wrapper<P>
    requires i < |cs|
  {
    var p := kd.init(cs[i]);
    Wrapper(w.comps + [i], w.parts + [p], w.sizes + [kd.size(p, cs[i])], w.numElements + kd.size(p, cs[i]))
  }

  /** Wrapping one more object keeps the earlier wrappers built and captured. */
  lemma WrapBuilt<C, P>(kd: Kind<C, P>, cs: seq<C>, w: Wrapper<P>, i: nat)
    requires Built(kd, w, cs) && Captured(kd, w, cs) && i < |cs|
    ensures Built(kd, Wrap(kd, cs, w, i), cs) && Captured(kd, Wrap(kd, cs, w, i), cs)
  {
    var next := Wrap(kd, cs, w, i);
    var n := |w.comps|;
    SumAppend(w.sizes, [next.sizes[n]]);
    forall j | 0 <= j < |next.comps| ensures BuiltAt(kd, next, cs, j) {
      if j < n { assert BuiltAt(kd, w, cs, j); }
    }
  }

  /** The objects picked for the first n + 1 names. */
  lemma RequestedStep<C, P>(kd: Kind<C, P>, cs: seq<C>, names: seq<string>, n: nat, comps: seq<nat>)
    requires n < |names| && comps == Requested(kd, cs, names)[..n]
    ensures comps + [Find(kd.key, cs, names[n])] == Requested(kd, cs, names)[..n + 1]
  {
    assert Requested(kd, cs, names)[..n + 1] == Requested(kd, cs, names)[..n] + [Find(kd.key, cs, names[n])];
  }

  /** A found name keeps the first n + 1 names without a missing one. */
  lemma FoundStep<C, P>(kd: Kind<C, P>, cs: seq<C>, names: seq<string>, n: nat)
    requires n < |names| && !Missing(kd, cs, names, n) && Find(kd.key, cs, names[n]) < |cs|
    ensures !Missing(kd, cs, names, n + 1)
  {
    assert forall j :: 0 <= j < n ==> Find(kd.key, cs, names[j]) != |cs|;
    assert forall j :: 0 <= j < n + 1 ==> Find(kd.key, cs, names[j]) != |cs|;
  }

  lemma BuiltStep<C, P>(kd: Kind<C, P>, cs: seq<C>, names: seq<string>, n: nat, w: Wrapper<P>, i: nat)
    requires n < |names| && BuiltUpTo(kd, cs, names, n, w)
    requires i == Find(kd.key, cs, names[n]) && i < |cs|
    ensures BuiltUpTo(kd, cs, names, n + 1, Wrap(kd, cs, w, i))
  {
    WrapBuilt(kd, cs, w, i);
    RequestedStep(kd, cs, names, n, w.comps);
    FoundStep(kd, cs, names, n);
  }

  /**
   * The constructor: one component wrapper per requested name, in the
   * requested order; runtime_error as soon as some name has no object.
   */
  method NewWrapper<C, P>(kd: Kind<C, P>, cs: seq<C>, names: seq<string>) returns (r: Result<Wrapper<P>>)
    ensures r.Err? <==> Missing(kd, cs, names, |names|)
    ensures r.Err? ==> r.error == RuntimeError
    ensures r.Ok? ==> r.value.comps == Requested(kd, cs, names) && Built(kd, r.value, cs) && Captured(kd, r.value, cs)
  {
    var w := Wrapper([], [], [], 0);
    var n := 0;
    while n < |names|
      invariant n <= |names|
      invariant BuiltUpTo(kd, cs, names, n, w)
    {
      var i := FindIn(kd.key, cs, names[n]);
      if i == |cs| {
        return Err(RuntimeError);
      }
      BuiltStep(kd, cs, names, n, w, i);
      w := Wrap(kd, cs, w, i);
      n := n + 1;
    }
    TakeAll(Requested(kd, cs, names));
    r := Ok(w);
  }

  // ---------------------------------------------------------------- get

  /** Wrapped component k can be read by its wrapper's `get`. */
  predicate ReadableAt<C, P>(kd: Kind<C, P>, w: Wrapper<P>, cs: seq<C>, k: nat)
    requires Shaped(w) && k < |w.comps|
  {
    w.comps[k] < |cs| && kd.readable(w.parts[k], cs[w.comps[k]])
  }

  ghost predicate ReadableUpTo<C, P>(kd: Kind<C, P>, w: Wrapper<P>, cs: seq<C>, n: nat)
    requires Shaped(w) && n <= |w.comps|
  {
    forall k :: 0 <= k < n ==> ReadableAt(kd, w, cs, k)
  }

  /** The slots component k's wrapper writes. */
  function Slots<C, P>(kd: Kind<C, P>, w: Wrapper<P>, cs: seq<C>, k: nat): seq<real>
    requires Shaped(w) && k < |w.comps| && w.comps[k] < |cs|
  {
    kd.values(w.parts[k], cs[w.comps[k]])
  }

  /** The span after the first n wrapped components have written their slots. */
  ghost function SpanUpTo<C, P>(kd: Kind<C, P>, w: Wrapper<P>, cs: seq<C>, n: nat): seq<real>
    requires Built(kd, w, cs) && n <= |w.comps|
  {
    if n == 0 then []
    else
      assert BuiltAt(kd, w, cs, n - 1);
      SpanUpTo(kd, w, cs, n - 1) + Slots(kd, w, cs, n - 1)
  }

  ghost function Span<C, P>(kd: Kind<C, P>, w: Wrapper<P>, cs: seq<C>): seq<real>
    requires Built(kd, w, cs)
  {
    SpanUpTo(kd, w, cs, |w.comps|)
  }

  /** `get`: the span, or out_of_range when some wrapped component cannot be read. */
  ghost function Get<C, P>(kd: Kind<C, P>, w: Wrapper<P>, cs: seq<C>): Result<seq<real>>
    requires Built(kd, w, cs)
  {
    if ReadableUpTo(kd, w, cs, |w.comps|) then Ok(Span(kd, w, cs)) else Err(OutOfRange)
  }

  lemma GetStep<C, P>(kd: Kind<C, P>, w: Wrapper<P>, cs: seq<C>, k: nat)
    requires Built(kd, w, cs) && k < |w.comps|
    ensures BuiltAt(kd, w, cs, k)
    ensures SpanUpTo(kd, w, cs, k + 1) == SpanUpTo(kd, w, cs, k) + Slots(kd, w, cs, k)
  {
    assert BuiltAt(kd, w, cs, k);
  }

  lemma ReadableStep<C, P>(kd: Kind<C, P>, w: Wrapper<P>, cs: seq<C>, k: nat)
    requires Built(kd, w, cs) && k < |w.comps| && ReadableUpTo(kd, w, cs, k)
    ensures ReadableAt(kd, w, cs, k) ==> ReadableUpTo(kd, w, cs, k + 1)
    ensures !ReadableAt(kd, w, cs, k) ==> Get(kd, w, cs) == Err(OutOfRange)
  {
    assert BuiltAt(kd, w, cs, k);
  }

  lemma ReadableDone<C, P>(kd: Kind<C, P>, w: Wrapper<P>, cs: seq<C>)
    requires Built(kd, w, cs) && ReadableUpTo(kd, w, cs, |w.comps|)
    ensures Get(kd, w, cs) == Ok(Span(kd, w, cs))
  {
  }

  /** The slots of the first n wrapped components, one part each. */
  ghost function Parts<C, P>(kd: Kind<C, P>, w: Wrapper<P>, cs: seq<C>, n: nat): (r: seq<seq<real>>)
    requires Built(kd, w, cs) && n <= |w.comps|
    ensures |r| == n
  {
    if n == 0 then []
    else
      assert BuiltAt(kd, w, cs, n - 1);
      Parts(kd, w, cs, n - 1) + [Slots(kd, w, cs, n - 1)]
  }

  lemma {:induction false} PartsAt<C, P>(kd: Kind<C, P>, w: Wrapper<P>, cs: seq<C>, n: nat, k: nat)
    requires Built(kd, w, cs) && k < n <= |w.comps|
    ensures BuiltAt(kd, w, cs, k)
    ensures Parts(kd, w, cs, n)[k] == Slots(kd, w, cs, k)
  {
    assert BuiltAt(kd, w, cs, k);
    if k < n - 1 {
      PartsAt(kd, w, cs, n - 1, k);
    }
  }

  lemma PartsStep<C, P>(kd: Kind<C, P>, w: Wrapper<P>, cs: seq<C>, k: nat)
    requires Built(kd, w, cs) && k < |w.comps|
    ensures BuiltAt(kd, w, cs, k)
    ensures Concat(Parts(kd, w, cs, k + 1)) == Concat(Parts(kd, w, cs, k)) + Slots(kd, w, cs, k)
  {
    assert BuiltAt(kd, w, cs, k);
    var s := Slots(kd, w, cs, k);
    ConcatAppend(Parts(kd, w, cs, k), [s]);
    assert Concat([s]) == s;
  }

  /** The span is the concatenation of the components' slots. */
  lemma {:induction false} SpanUpToParts<C, P>(kd: Kind<C, P>, w: Wrapper<P>, cs: seq<C>, n: nat)
    requires Built(kd, w, cs) && n <= |w.comps|
    ensures SpanUpTo(kd, w, cs, n) == Concat(Parts(kd, w, cs, n))
  {
    if n > 0 {
      SpanUpToParts(kd, w, cs, n - 1);
      PartsStep(kd, w, cs, n - 1);
    }
  }

  lemma PartsLengths<C(!new), P(!new)>(kd: Kind<C, P>, w: Wrapper<P>, cs: seq<C>)
    requires Built(kd, w, cs) && Layout(kd)
    ensures Lengths(Parts(kd, w, cs, |w.comps|)) == w.sizes
  {
    var ps := Parts(kd, w, cs, |w.comps|);
    forall i | 0 <= i < |w.comps| ensures Lengths(ps)[i] == w.sizes[i] {
      PartsAt(kd, w, cs, |w.comps|, i);
    }
    Extensional(Lengths(ps), w.sizes);
  }

  /** `get` fills exactly size() slots. */
  lemma SpanLength<C(!new), P(!new)>(kd: Kind<C, P>, w: Wrapper<P>, cs: seq<C>)
    requires Built(kd, w, cs) && Layout(kd)
    ensures |Span(kd, w, cs)| == w.numElements
  {
    PartsLengths(kd, w, cs);
    SpanUpToParts(kd, w, cs, |w.comps|);
    ConcatLength(Parts(kd, w, cs, |w.comps|));
  }

  /** Component k owns the sub-span at its running offset. */
  lemma SpanLayout<C(!new), P(!new)>(kd: Kind<C, P>, w: Wrapper<P>, cs: seq<C>, k: nat)
    requires Built(kd, w, cs) && Layout(kd) && k < |w.comps|
    ensures BuiltAt(kd, w, cs, k)
    ensures |Span(kd, w, cs)| == w.numElements
    ensures Block(Span(kd, w, cs), w.sizes, k) == Slots(kd, w, cs, k)
  {
    SpanLength(kd, w, cs);
    PartsLengths(kd, w, cs);
    SpanUpToParts(kd, w, cs, |w.comps|);
    BlockOfConcat(Parts(kd, w, cs, |w.comps|), k);
    PartsAt(kd, w, cs, |w.comps|, k);
  }

  // ---------------------------------------------------------------- set

  /** The objects after the first n wrapped components have read their sub-spans of `d`. */
  ghost function SetUpTo<C, P>(kd: Kind<C, P>, w: Wrapper<P>, cs: seq<C>, d: seq<real>, n: nat): (r: seq<C>)
    requires Built(kd, w, cs) && |d| == w.numElements && n <= |w.comps|
    ensures |r| == |cs|
  {
    if n == 0 then cs
    else
      var prev := SetUpTo(kd, w, cs, d, n - 1);
      assert BuiltAt(kd, w, cs, n - 1);
      var i := w.comps[n - 1];
      prev[i := kd.put(w.parts[n - 1], prev[i], Block(d, w.sizes, n - 1))]
  }

  /** `set`: each wrapped component reads the sub-span at the running offset. */
  ghost function Set<C, P>(kd: Kind<C, P>, w: Wrapper<P>, cs: seq<C>, d: seq<real>): seq<C>
    requires Built(kd, w, cs) && |d| == w.numElements
  {
    SetUpTo(kd, w, cs, d, |w.comps|)
  }

  /** Component k's block starts at the running offset, which then advances by its size. */
  lemma PutOffsets<P>(w: Wrapper<P>, d: seq<real>, k: nat)
    requires Shaped(w) && Sum(w.sizes) == |d| && k < |w.comps|
    ensures Offset(w.sizes, k) + w.sizes[k] <= |d|
    ensures Offset(w.sizes, k + 1) == Offset(w.sizes, k) + w.sizes[k]
    ensures d[Offset(w.sizes, k)..Offset(w.sizes, k) + w.sizes[k]] == Block(d, w.sizes, k)
  {
    OffsetBound(w.sizes, k);
    OffsetStep(w.sizes, k);
  }

  /** Step k of `set`, stated on the current objects `r` and the running offset. */
  lemma PutReady<C, P>(kd: Kind<C, P>, w: Wrapper<P>, cs: seq<C>, d: seq<real>, k: nat, r: seq<C>, offset: nat)
    requires Built(kd, w, cs) && |d| == w.numElements && k < |w.comps|
    requires offset == Offset(w.sizes, k) && r == SetUpTo(kd, w, cs, d, k)
    ensures w.comps[k] < |r| && offset + w.sizes[k] <= |d|
    ensures Offset(w.sizes, k + 1) == offset + w.sizes[k]
    ensures SetUpTo(kd, w, cs, d, k + 1) ==
              r[w.comps[k] := kd.put(w.parts[k], r[w.comps[k]], d[offset..offset + w.sizes[k]])]
  {
    assert BuiltAt(kd, w, cs, k);
    PutOffsets(w, d, k);
  }

  /** Wrapped object k has the same size in both lists. */
  predicate SameSizeAt<C, P>(kd: Kind<C, P>, w: Wrapper<P>, x: seq<C>, y: seq<C>, k: nat)
    requires Shaped(w) && k < |w.comps|
  {
    w.comps[k] < |x| && w.comps[k] < |y| && kd.size(w.parts[k], x[w.comps[k]]) == kd.size(w.parts[k], y[w.comps[k]])
  }

  /** One step of `set` keeps every wrapped object's size. */
  lemma SetUpToSize<C(!new), P(!new)>(kd: Kind<C, P>, w: Wrapper<P>, cs: seq<C>, d: seq<real>, n: nat, k: nat)
    requires Built(kd, w, cs) && |d| == w.numElements && 0 < n <= |w.comps| && k < |w.comps|
    requires KeepsSize(kd) && Built(kd, w, SetUpTo(kd, w, cs, d, n - 1))
    ensures SameSizeAt(kd, w, SetUpTo(kd, w, cs, d, n - 1), SetUpTo(kd, w, cs, d, n), k)
  {
    var prev := SetUpTo(kd, w, cs, d, n - 1);
    assert BuiltAt(kd, w, cs, n - 1) && BuiltAt(kd, w, prev, n - 1);
    var i := w.comps[n - 1];
    assert BuiltAt(kd, w, cs, k);
    if w.comps[k] == i {
      var b := Block(d, w.sizes, n - 1);
      assert kd.size(w.parts[k], kd.put(w.parts[n - 1], prev[i], b)) == kd.size(w.parts[k], prev[i]);
    }
  }

  /** `set` keeps what the constructor established. */
  lemma {:induction false} SetUpToBuilt<C(!new), P(!new)>(kd: Kind<C, P>, w: Wrapper<P>, cs: seq<C>, d: seq<real>, n: nat)
    requires Built(kd, w, cs) && |d| == w.numElements && n <= |w.comps| && KeepsSize(kd)
    ensures Built(kd, w, SetUpTo(kd, w, cs, d, n))
  {
    if n > 0 {
      SetUpToBuilt(kd, w, cs, d, n - 1);
      var prev, cur := SetUpTo(kd, w, cs, d, n - 1), SetUpTo(kd, w, cs, d, n);
      forall k | 0 <= k < |w.comps| ensures BuiltAt(kd, w, cur, k) {
        assert BuiltAt(kd, w, prev, k);
        SetUpToSize(kd, w, cs, d, n, k);
      }
    }
  }

  // ---------------------------------------------------------------- round trips

  predicate Distinct(s: seq<nat>)
  {
    forall i, j :: 0 <= i < j < |s| ==> s[i] != s[j]
  }

  /** Wrapped component k of `x` reads back block k of `d`. */
  ghost predicate ReadsBackAt<C, P>(kd: Kind<C, P>, w: Wrapper<P>, x: seq<C>, d: seq<real>, k: nat)
    requires Built(kd, w, x) && |d| == w.numElements && k < |w.comps|
  {
    ReadableAt(kd, w, x, k) && Slots(kd, w, x, k) == Block(d, w.sizes, k)
  }

  ghost predicate ReadsBack<C, P>(kd: Kind<C, P>, w: Wrapper<P>, x: seq<C>, d: seq<real>, n: nat)
    requires Built(kd, w, x) && |d| == w.numElements && n <= |w.comps|
  {
    forall k :: 0 <= k < n ==> ReadsBackAt(kd, w, x, d, k)
  }

  /** Wrapped object k is the same in both lists. */
  ghost predicate SameAt<C, P>(w: Wrapper<P>, x: seq<C>, y: seq<C>, k: nat)
    requires k < |w.comps|
  {
    w.comps[k] < |x| && w.comps[k] < |y| && x[w.comps[k]] == y[w.comps[k]]
  }

  lemma ReadsBackStep<C, P>(kd: Kind<C, P>, w: Wrapper<P>, prev: seq<C>, cur: seq<C>, d: seq<real>, n: nat)
    requires Built(kd, w, prev) && Built(kd, w, cur) && |d| == w.numElements && 0 < n <= |w.comps|
    requires ReadsBack(kd, w, prev, d, n - 1)
    requires forall k :: 0 <= k < n - 1 ==> SameAt(w, prev, cur, k)
    requires ReadsBackAt(kd, w, cur, d, n - 1)
    ensures ReadsBack(kd, w, cur, d, n)
  {
    forall k | 0 <= k < n ensures ReadsBackAt(kd, w, cur, d, k) {
      if k < n - 1 {
        assert SameAt(w, prev, cur, k) && ReadsBackAt(kd, w, prev, d, k);
      }
    }
  }

  /** Step n of `set` leaves the objects wrapped earlier alone. */
  lemma SetUpToOther<C, P>(kd: Kind<C, P>, w: Wrapper<P>, cs: seq<C>, d: seq<real>, n: nat, k: nat)
    requires Built(kd, w, cs) && |d| == w.numElements && n <= |w.comps| && Distinct(w.comps)
    requires k < n - 1
    ensures SameAt(w, SetUpTo(kd, w, cs, d, n - 1), SetUpTo(kd, w, cs, d, n), k)
  {
    assert BuiltAt(kd, w, cs, k) && BuiltAt(kd, w, cs, n - 1);
    assert w.comps[k] != w.comps[n - 1];
  }

  /** Step n of `set` makes component n - 1 read back its own block. */
  lemma SetUpToLast<C(!new), P(!new)>(kd: Kind<C, P>, w: Wrapper<P>, cs: seq<C>, d: seq<real>, n: nat)
    requires Built(kd, w, cs) && |d| == w.numElements && 0 < n <= |w.comps| && Distinct(w.comps)
    requires KeepsSize(kd) && ReadsBackAll(kd)
    ensures Built(kd, w, SetUpTo(kd, w, cs, d, n))
    ensures ReadsBackAt(kd, w, SetUpTo(kd, w, cs, d, n), d, n - 1)
  {
    SetUpToBuilt(kd, w, cs, d, n);
    SetUpToBuilt(kd, w, cs, d, n - 1);
    var prev := SetUpTo(kd, w, cs, d, n - 1);
    assert BuiltAt(kd, w, prev, n - 1);
    var i := w.comps[n - 1];
    var b := Block(d, w.sizes, n - 1);
    var c := kd.put(w.parts[n - 1], prev[i], b);
    assert SetUpTo(kd, w, cs, d, n)[i] == c;
    assert kd.readable(w.parts[n - 1], c) && kd.values(w.parts[n - 1], c) == b;
  }

  lemma {:induction false} SetUpToReads<C(!new), P(!new)>(kd: Kind<C, P>, w: Wrapper<P>, cs: seq<C>, d: seq<real>, n: nat)
    requires Built(kd, w, cs) && |d| == w.numElements && n <= |w.comps| && Distinct(w.comps)
    requires KeepsSize(kd) && ReadsBackAll(kd)
    ensures Built(kd, w, SetUpTo(kd, w, cs, d, n))
    ensures ReadsBack(kd, w, SetUpTo(kd, w, cs, d, n), d, n)
  {
    SetUpToBuilt(kd, w, cs, d, n);
    if n > 0 {
      SetUpToReads(kd, w, cs, d, n - 1);
      var prev, cur := SetUpTo(kd, w, cs, d, n - 1), SetUpTo(kd, w, cs, d, n);
      forall k | 0 <= k < n - 1 ensures SameAt(w, prev, cur, k) {
        SetUpToOther(kd, w, cs, d, n, k);
      }
      SetUpToLast(kd, w, cs, d, n);
      ReadsBackStep(kd, w, prev, cur, d, n);
    }
  }

  /** The parts of a wrapper that reads back its blocks are those blocks. */
  lemma ReadsBackParts<C, P>(kd: Kind<C, P>, w: Wrapper<P>, x: seq<C>, d: seq<real>)
    requires Built(kd, w, x) && |d| == w.numElements
    requires ReadsBack(kd, w, x, d, |w.comps|)
    ensures ReadableUpTo(kd, w, x, |w.comps|)
    ensures Parts(kd, w, x, |w.comps|) == Blocks(d, w.sizes, |w.comps|)
  {
    var ps := Parts(kd, w, x, |w.comps|);
    forall k | 0 <= k < |w.comps| ensures ReadableAt(kd, w, x, k) && ps[k] == Blocks(d, w.sizes, |w.comps|)[k] {
      assert ReadsBackAt(kd, w, x, d, k);
      PartsAt(kd, w, x, |w.comps|, k);
    }
    Extensional(ps, Blocks(d, w.sizes, |w.comps|));
  }

  /** `set` followed by `get` reproduces the span when no object is wrapped twice. */
  lemma SetGet<C(!new), P(!new)>(kd: Kind<C, P>, w: Wrapper<P>, cs: seq<C>, d: seq<real>)
    requires Built(kd, w, cs) && |d| == w.numElements && Distinct(w.comps)
    requires KeepsSize(kd) && ReadsBackAll(kd)
    ensures Built(kd, w, Set(kd, w, cs, d))
    ensures Get(kd, w, Set(kd, w, cs, d)) == Ok(d)
  {
    var x := Set(kd, w, cs, d);
    SetUpToReads(kd, w, cs, d, |w.comps|);
    ReadsBackParts(kd, w, x, d);
    SpanUpToParts(kd, w, x, |w.comps|);
    ConcatBlocks(d, w.sizes);
  }

  /** Every wrapped object is left as it is when its wrapper writes back what it read. */
  ghost predicate FixedPoints<C, P>(kd: Kind<C, P>, w: Wrapper<P>, cs: seq<C>)
    requires Built(kd, w, cs)
  {
    forall k :: 0 <= k < |w.comps| ==> BuiltAt(kd, w, cs, k) && kd.put(w.parts[k], cs[w.comps[k]], Slots(kd, w, cs, k)) == cs[w.comps[k]]
  }

  lemma GetSetStep<C(!new), P(!new)>(kd: Kind<C, P>, w: Wrapper<P>, cs: seq<C>, n: nat)
    requires Built(kd, w, cs) && Layout(kd) && FixedPoints(kd, w, cs) && 0 < n <= |w.comps|
    requires |Span(kd, w, cs)| == w.numElements
    requires SetUpTo(kd, w, cs, Span(kd, w, cs), n - 1) == cs
    ensures SetUpTo(kd, w, cs, Span(kd, w, cs), n) == cs
  {
    var d := Span(kd, w, cs);
    SpanLayout(kd, w, cs, n - 1);
    var i := w.comps[n - 1];
    assert kd.put(w.parts[n - 1], cs[i], Slots(kd, w, cs, n - 1)) == cs[i];
    assert cs[i := cs[i]] == cs;
  }

  lemma {:induction false} GetSetUpTo<C(!new), P(!new)>(kd: Kind<C, P>, w: Wrapper<P>, cs: seq<C>, n: nat)
    requires Built(kd, w, cs) && Layout(kd) && FixedPoints(kd, w, cs) && n <= |w.comps|
    ensures |Span(kd, w, cs)| == w.numElements
    ensures SetUpTo(kd, w, cs, Span(kd, w, cs), n) == cs
  {
    SpanLength(kd, w, cs);
    if n > 0 {
      GetSetUpTo(kd, w, cs, n - 1);
      GetSetStep(kd, w, cs, n);
    }
  }

  /** Writing back the span that `get` produced leaves the objects as they were. */
  lemma GetSet<C(!new), P(!new)>(kd: Kind<C, P>, w: Wrapper<P>, cs: seq<C>)
    requires Built(kd, w, cs) && Layout(kd) && FixedPoints(kd, w, cs)
    ensures |Span(kd, w, cs)| == w.numElements
    ensures Set(kd, w, cs, Span(kd, w, cs)) == cs
  {
    GetSetUpTo(kd, w, cs, |w.comps|);
  }

  // ---------------------------------------------------------------- names

  /** The column names of the first n objects, in solver order (the static `names()`). */
  ghost function NamesUpTo<C>(cn: C -> seq<string>, cs: seq<C>, n: nat): seq<string>
    requires n <= |cs|
  {
    if n == 0 then [] else NamesUpTo(cn, cs, n - 1) + cn(cs[n - 1])
  }

  /** The keys of the first n objects, in solver order (the list `names()` fills beside them). */
  function Keys<C>(key: C -> string, cs: seq<C>, n: nat): (r: seq<string>)
    requires n <= |cs|
    ensures |r| == n
  {
    if n == 0 then [] else Keys(key, cs, n - 1) + [key(cs[n - 1])]
  }

  lemma {:induction false} KeysAt<C>(key: C -> string, cs: seq<C>, n: nat, k: nat)
    requires k < n <= |cs|
    ensures Keys(key, cs, n)[k] == key(cs[k])
  {
    if k < n - 1 {
      KeysAt(key, cs, n - 1, k);
    }
  }

  predicate DistinctKeys<C>(key: C -> string, cs: seq<C>)
  {
    forall i, j :: 0 <= i < j < |cs| ==> key(cs[i]) != key(cs[j])
  }

  /** The sizes of the first n objects' wrappers, as the constructor would compute them. */
  function SizesUpTo<C, P>(kd: Kind<C, P>, cs: seq<C>, n: nat): (r: seq<nat>)
    requires n <= |cs|
    ensures |r| == n
  {
    if n == 0 then [] else SizesUpTo(kd, cs, n - 1) + [kd.size(kd.init(cs[n - 1]), cs[n - 1])]
  }

  lemma {:induction false} SizesAt<C, P>(kd: Kind<C, P>, cs: seq<C>, n: nat, k: nat)
    requires k < n <= |cs|
    ensures SizesUpTo(kd, cs, n)[k] == kd.size(kd.init(cs[k]), cs[k])
  {
    if k < n - 1 {
      SizesAt(kd, cs, n - 1, k);
    }
  }

  /** Each object has as many names as its freshly made wrapper has slots. */
  ghost predicate NamesFit<C(!new), P>(kd: Kind<C, P>, cn: C -> seq<string>)
  {
    forall c :: |cn(c)| == kd.size(kd.init(c), c)
  }

  lemma {:induction false} NamesUpToLength<C(!new), P>(kd: Kind<C, P>, cn: C -> seq<string>, cs: seq<C>, n: nat)
    requires n <= |cs| && NamesFit(kd, cn)
    ensures |NamesUpTo(cn, cs, n)| == Sum(SizesUpTo(kd, cs, n))
  {
    if n > 0 {
      NamesUpToLength(kd, cn, cs, n - 1);
      SumAppend(SizesUpTo(kd, cs, n - 1), [kd.size(kd.init(cs[n - 1]), cs[n - 1])]);
    }
  }

  /** Looking up the keys that `names()` reports finds every object at its own position. */
  lemma OwnPositions<C, P>(kd: Kind<C, P>, cs: seq<C>)
    requires DistinctKeys(kd.key, cs)
    ensures |Requested(kd, cs, Keys(kd.key, cs, |cs|))| == |cs|
    ensures forall k :: 0 <= k < |cs| ==> Requested(kd, cs, Keys(kd.key, cs, |cs|))[k] == k
  {
    forall k | 0 <= k < |cs| ensures Requested(kd, cs, Keys(kd.key, cs, |cs|))[k] == k {
      KeysAt(kd.key, cs, |cs|, k);
      var i := Find(kd.key, cs, kd.key(cs[k]));
      assert i >= k;
    }
  }

  /** A wrapper that wraps every object at its own position records exactly their sizes. */
  lemma OwnSizes<C, P>(kd: Kind<C, P>, w: Wrapper<P>, cs: seq<C>)
    requires Built(kd, w, cs) && Captured(kd, w, cs) && |w.comps| == |cs|
    requires forall k :: 0 <= k < |w.comps| ==> w.comps[k] == k
    ensures w.sizes == SizesUpTo(kd, cs, |cs|)
  {
    forall k | 0 <= k < |w.sizes| ensures w.sizes[k] == SizesUpTo(kd, cs, |cs|)[k] {
      assert BuiltAt(kd, w, cs, k);
      SizesAt(kd, cs, |cs|, k);
    }
    Extensional(w.sizes, SizesUpTo(kd, cs, |cs|));
  }

  /**
   * Wrapping the keys that `names()` reports, in its order, yields one column
   * per slot: every object is wrapped once, at its own position, and the name
   * list is exactly `size()` long, provided the keys are distinct.
   */
  lemma NamesMatchWrapper<C(!new), P>(kd: Kind<C, P>, cn: C -> seq<string>, cs: seq<C>, w: Wrapper<P>)
    requires DistinctKeys(kd.key, cs) && NamesFit(kd, cn)
    requires Built(kd, w, cs) && Captured(kd, w, cs) && w.comps == Requested(kd, cs, Keys(kd.key, cs, |cs|))
    ensures |w.comps| == |cs| && forall k :: 0 <= k < |w.comps| ==> w.comps[k] == k
    ensures Distinct(w.comps)
    ensures |NamesUpTo(cn, cs, |cs|)| == w.numElements
  {
    OwnPositions(kd, cs);
    OwnSizes(kd, w, cs);
    NamesUpToLength(kd, cn, cs, |cs|);
  }
}
