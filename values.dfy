// Shared value types of the marshaling layer: a buffer slot is a C++ double,
// modelled as a real number or the quiet NaN that marks "not present".

module Values {

  /** A double slot: a finite number or the quiet NaN used as a hole marker. */
  datatype Val = Num(v: real) | NaN

  predicate IsNaN(x: Val) { x.NaN? }

  datatype Option<T> = None | Some(value: T)

  /** The C++ exceptions the modelled code throws. */
  datatype Error =
    | OutOfRange          // std::out_of_range, thrown by std::map::at and vector::at
    | InvalidArgument     // std::invalid_argument
    | RuntimeError        // std::runtime_error

  datatype Result<T> = Ok(value: T) | Err(error: Error)
  {
    predicate IsFailure() { Err? }

    function PropagateFailure<U>(): Result<U>
      requires Err?
    {
      Err(error)
    }

    function Extract(): T
      requires Ok?
    {
      value
    }
  }

  /** The real numbers of a sequence of non-NaN slots. */
  function Nums(s: seq<real>): (r: seq<Val>)
    ensures |r| == |s|
    ensures forall i :: 0 <= i < |s| ==> r[i] == Num(s[i])
  {
    if s == [] then [] else [Num(s[0])] + Nums(s[1..])
  }

  /** Sum of a sequence of naturals (used for running offsets). */
  function Sum(s: seq<nat>): nat
  {
    if s == [] then 0 else s[0] + Sum(s[1..])
  }

  lemma {:induction false} SumAppend(a: seq<nat>, b: seq<nat>)
    ensures Sum(a + b) == Sum(a) + Sum(b)
  {
    if a == [] {
      assert a + b == b;
    } else {
      assert (a + b)[1..] == a[1..] + b;
      SumAppend(a[1..], b);
    }
  }

  /** Flattening a sequence of sequences, as repeated `insert(end, ...)` does. */
  function Concat<T>(s: seq<seq<T>>): seq<T>
  {
    if s == [] then [] else s[0] + Concat(s[1..])
  }

  function Lengths<T>(s: seq<seq<T>>): (r: seq<nat>)
    ensures |r| == |s|
    ensures forall i :: 0 <= i < |s| ==> r[i] == |s[i]|
  {
    if s == [] then [] else [|s[0]|] + Lengths(s[1..])
  }

  lemma {:induction false} ConcatAppend<T>(a: seq<seq<T>>, b: seq<seq<T>>)
    ensures Concat(a + b) == Concat(a) + Concat(b)
  {
    if a == [] {
      assert a + b == b;
    } else {
      assert (a + b)[1..] == a[1..] + b;
      ConcatAppend(a[1..], b);
    }
  }

  lemma {:induction false} ConcatLength<T>(s: seq<seq<T>>)
    ensures |Concat(s)| == Sum(Lengths(s))
  {
    if s != [] {
      assert Lengths(s)[1..] == Lengths(s[1..]);
      ConcatLength(s[1..]);
    }
  }

  /** Block k of Concat(s) is the slice at offset Sum of the earlier lengths. */
  lemma {:induction false} ConcatBlock<T>(s: seq<seq<T>>, k: nat)
    requires k < |s|
    ensures Sum(Lengths(s[..k])) + |s[k]| <= |Concat(s)|
    ensures Concat(s)[Sum(Lengths(s[..k]))..Sum(Lengths(s[..k])) + |s[k]|] == s[k]
  {
    ConcatLength(s);
    if k == 0 {
      assert s[..0] == [];
    } else {
      assert s[..k][1..] == s[1..][..k - 1];
      assert Lengths(s[..k])[1..] == Lengths(s[..k][1..]);
      ConcatBlock(s[1..], k - 1);
      assert s[1..][k - 1] == s[k];
    }
  }

  /** Taking the whole of a sequence; called where the context makes the direct equality costly. */
  lemma TakeAll<T>(s: seq<T>)
    ensures s[..|s|] == s
  {
  }

  /** Sequence extensionality, stated once so that heavy contexts can call it. */
  lemma Extensional<T>(a: seq<T>, b: seq<T>)
    requires |a| == |b|
    requires forall i :: 0 <= i < |a| ==> a[i] == b[i]
    ensures a == b
  {
  }

  lemma AppendAssoc<T>(a: seq<T>, b: seq<T>, c: seq<T>)
    ensures (a + b) + c == a + (b + c)
  {
  }

  // ---------------------------------------------------------------- lookups in a string-keyed map

  /** The value of `name` in `m`; 0 when absent. */
  function At(m: map<string, real>, name: string): real
  {
    if name in m then m[name] else 0.0
  }

  /** The totals values of `names`, in order. */
  function Lookups(names: seq<string>, m: map<string, real>): (r: seq<real>)
    ensures |r| == |names|
  {
    if names == [] then []
    else Lookups(names[..|names| - 1], m) + [At(m, names[|names| - 1])]
  }

  lemma {:induction false} LookupsAt(names: seq<string>, m: map<string, real>, i: nat)
    requires i < |names|
    ensures Lookups(names, m)[i] == At(m, names[i])
  {
    if i < |names| - 1 {
      LookupsAt(names[..|names| - 1], m, i);
    }
  }

  lemma LookupsStep(names: seq<string>, j: nat, m: map<string, real>)
    requires j < |names|
    ensures Lookups(names[..j + 1], m) == Lookups(names[..j], m) + [At(m, names[j])]
  {
    assert names[..j + 1][..j] == names[..j];
  }

  lemma LookupsSnoc(names: seq<string>, n: string, m: map<string, real>)
    ensures Lookups(names + [n], m) == Lookups(names, m) + [At(m, n)]
  {
    assert (names + [n])[..|names|] == names;
  }
}
