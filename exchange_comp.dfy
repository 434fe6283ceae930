// ExchangeCompWrapper: the slot layout of one ion-exchange component in the
// flat buffer.

module ExchangeComp {
  import opened Values
  import opened Order

  /** The fields of one cxxExchComp that the wrapper touches. */
  datatype ExchComp = ExchComp(
    formula: string,
    totals: map<string, real>,
    chargeBalance: real,
    la: real,
    phaseProportion: real,
    formulaZ: real)

  /** Slots 0..4 hold totals[formula], cb, la, phase_proportion, formula_z. */
  const NumNotTotals: nat := 5

  /** The totals keys other than the formula, in std::map key order. */
  ghost function Others(c: ExchComp): seq<string>
  {
    Ascending(c.totals.Keys - {c.formula})
  }

  /**
   * `totals.size() - 1 + NUM_NOT_TOTALS` in size_t: for empty totals the
   * subtraction wraps to SIZE_MAX and the addition wraps back to 4.
   */
  function CompSize(c: ExchComp): (n: nat)
    ensures c.formula in c.totals ==> n == |c.totals| + 4
  {
    if |c.totals| == 0 then NumNotTotals - 1 else |c.totals| - 1 + NumNotTotals
  }

  lemma OthersLength(c: ExchComp)
    requires c.formula in c.totals
    ensures |Others(c)| == |c.totals| - 1
  {
    assert c.totals.Keys == (c.totals.Keys - {c.formula}) + {c.formula};
  }

  /** Slots 0..4 of `get`. */
  function Fixed(c: ExchComp): seq<real>
    requires c.formula in c.totals
  {
    [c.totals[c.formula], c.chargeBalance, c.la, c.phaseProportion, c.formulaZ]
  }

  /** ExchangeCompWrapper::get: the slots it writes, in order. */
  ghost function CompValues(c: ExchComp): seq<real>
    requires c.formula in c.totals
  {
    Fixed(c) + Lookups(Others(c), c.totals)
  }

  /** The layout of `get` is as large as `size()` says whenever the formula is a totals key. */
  lemma CompValuesLength(c: ExchComp)
    requires c.formula in c.totals
    ensures |CompValues(c)| == CompSize(c) == NumNotTotals + |Others(c)|
  {
    OthersLength(c);
  }

  /** The slot `set` reads a totals key from: 0 for the formula, 5 + its rank among the others otherwise. */
  ghost function Slot(c: ExchComp, d: seq<real>, k: string): real
    requires c.formula in c.totals && k in c.totals
    requires |d| == |c.totals| + 4
  {
    if k == c.formula then d[0]
    else
      OthersLength(c);
      AscendingMembers(c.totals.Keys - {c.formula});
      d[NumNotTotals + IndexOf(Others(c), k)]
  }

  /** ExchangeCompWrapper::set: the component after reading a span; only totals values change, never keys. */
  ghost function CompSet(c: ExchComp, d: seq<real>): (r: ExchComp)
    requires c.formula in c.totals
    requires |d| == |c.totals| + 4
    ensures r.formula == c.formula && r.totals.Keys == c.totals.Keys
  {
    c.(totals := map k | k in c.totals :: Slot(c, d, k),
       chargeBalance := d[1],
       la := d[2],
       phaseProportion := d[3],
       formulaZ := d[4])
  }

  /** After `set`, the other totals read back, in key order, as slots 5.. of the span. */
  lemma CompSetOthers(c: ExchComp, d: seq<real>)
    requires c.formula in c.totals
    requires |d| == |c.totals| + 4
    ensures Lookups(Others(c), CompSet(c, d).totals) == d[NumNotTotals..]
  {
    OthersLength(c);
    var l := Lookups(Others(c), CompSet(c, d).totals);
    forall i | 0 <= i < |l| ensures l[i] == d[NumNotTotals..][i] {
      CompSetOtherAt(c, d, i);
    }
    Extensional(l, d[NumNotTotals..]);
  }

  /** The i-th other total after `set` is slot 5 + i. */
  lemma CompSetOtherAt(c: ExchComp, d: seq<real>, i: nat)
    requires c.formula in c.totals
    requires |d| == |c.totals| + 4
    requires i < |Others(c)|
    ensures NumNotTotals + i < |d|
    ensures Lookups(Others(c), CompSet(c, d).totals)[i] == d[NumNotTotals + i]
  {
    OthersLength(c);
    var others := Others(c);
    var k := others[i];
    AscendingAt(c.totals.Keys - {c.formula}, i);
    assert k in c.totals && k != c.formula;
    OthersIndex(c, i);
    var t := CompSet(c, d).totals;
    LookupsAt(others, t, i);
    CompSetAt(c, d, k);
    assert Slot(c, d, k) == d[NumNotTotals + IndexOf(others, k)];
  }

  lemma OthersIndex(c: ExchComp, i: nat)
    requires i < |Others(c)|
    ensures IndexOf(Others(c), Others(c)[i]) == i
  {
    AscendingSorted(c.totals.Keys - {c.formula});
    SortedIndexOf(Others(c), i);
  }

  lemma CompSetAt(c: ExchComp, d: seq<real>, k: string)
    requires c.formula in c.totals
    requires |d| == |c.totals| + 4
    requires k in c.totals
    ensures k in CompSet(c, d).totals && CompSet(c, d).totals[k] == Slot(c, d, k)
  {
  }

  /** `set` keeps the keys, so the walk visits the same others, and fills the fixed slots from slots 0..4. */
  lemma CompSetShape(c: ExchComp, d: seq<real>)
    requires c.formula in c.totals
    requires |d| == |c.totals| + 4
    ensures CompSet(c, d).formula in CompSet(c, d).totals
    ensures Others(CompSet(c, d)) == Others(c)
    ensures Fixed(CompSet(c, d)) == d[..NumNotTotals]
  {
    OthersOfKeys(CompSet(c, d), c);
    CompSetAt(c, d, c.formula);
  }

  /** The other totals depend only on the formula and the keys. */
  lemma OthersOfKeys(a: ExchComp, b: ExchComp)
    requires a.formula == b.formula && a.totals.Keys == b.totals.Keys
    ensures Others(a) == Others(b)
  {
  }

  /** Setting a span and reading it back returns the span (plain-storage fields). */
  lemma CompSetGet(c: ExchComp, d: seq<real>)
    requires c.formula in c.totals
    requires |d| == |c.totals| + 4
    ensures CompValues(CompSet(c, d)) == d
  {
    CompSetShape(c, d);
    CompSetOthers(c, d);
    assert d == d[..NumNotTotals] + d[NumNotTotals..];
  }

  /** Writing back what was read changes nothing. */
  lemma CompGetSet(c: ExchComp)
    requires c.formula in c.totals
    ensures |CompValues(c)| == |c.totals| + 4
    ensures CompSet(c, CompValues(c)) == c
  {
    OthersLength(c);
    AscendingMembers(c.totals.Keys - {c.formula});
    var r := CompSet(c, CompValues(c));
    forall k | k in c.totals ensures r.totals[k] == c.totals[k] {
      if k != c.formula {
        assert k in Others(c);
        LookupsAt(Others(c), c.totals, IndexOf(Others(c), k));
      }
    }
    assert r.totals == c.totals;
  }

  /** One key of the walk in `get`: a key other than the formula appends its value. */
  lemma CompGetStep(c: ExchComp, keys: seq<string>, j: nat)
    requires keys == Ascending(c.totals.Keys) && j < |keys|
    ensures keys[j] in c.totals
    ensures Lookups(Without(keys[..j + 1], c.formula), c.totals)
            == Lookups(Without(keys[..j], c.formula), c.totals)
               + (if keys[j] != c.formula then [c.totals[keys[j]]] else [])
  {
    AscendingAt(c.totals.Keys, j);
    WithoutStep(keys, j, c.formula);
    if keys[j] != c.formula {
      LookupsSnoc(Without(keys[..j], c.formula), keys[j], c.totals);
    } else {
      assert Without(keys[..j + 1], c.formula) == Without(keys[..j], c.formula);
    }
  }

  /** A full walk over a component's keys that skips the formula visits exactly the other totals. */
  lemma WalkOthers(c: ExchComp, keys: seq<string>)
    requires keys == Ascending(c.totals.Keys)
    ensures Without(keys[..|keys|], c.formula) == Others(c)
  {
    TakeAll(keys);
    AscendingWithout(c.totals.Keys, c.formula);
  }

  /** One iteration of the walk in `get`: a key other than the formula appends its value. */
  method GetKey(c: ExchComp, keys: seq<string>, j: nat, slots: seq<real>) returns (next: seq<real>)
    requires c.formula in c.totals
    requires keys == Ascending(c.totals.Keys) && j < |keys|
    requires slots == Fixed(c) + Lookups(Without(keys[..j], c.formula), c.totals)
    ensures next == Fixed(c) + Lookups(Without(keys[..j + 1], c.formula), c.totals)
  {
    CompGetStep(c, keys, j);
    if keys[j] != c.formula {
      AppendAssoc(Fixed(c), Lookups(Without(keys[..j], c.formula), c.totals), [c.totals[keys[j]]]);
      next := slots + [c.totals[keys[j]]];
    } else {
      next := slots;
    }
  }

  /** ExchangeCompWrapper::get: fixed slots, then a walk over all totals keys skipping the formula. */
  method CompGet(c: ExchComp) returns (slots: seq<real>)
    requires c.formula in c.totals
    ensures slots == CompValues(c)
  {
    slots := Fixed(c);
    var keys := Ascending(c.totals.Keys);
    var j := 0;
    while j < |keys|
      invariant 0 <= j <= |keys|
      invariant slots == Fixed(c) + Lookups(Without(keys[..j], c.formula), c.totals)
    {
      slots := GetKey(c, keys, j, slots);
      j := j + 1;
    }
    WalkOthers(c, keys);
  }

  /** Key k of the totals after `set` has walked the first j keys: rewritten if visited or the formula. */
  ghost predicate PutDoneAt(c: ExchComp, d: seq<real>, keys: seq<string>, j: nat, totals: map<string, real>, k: string)
    requires c.formula in c.totals
    requires |d| == |c.totals| + 4
    requires k in totals && k in c.totals
  {
    totals[k] == if k == c.formula || IndexOf(keys, k) < j then Slot(c, d, k) else c.totals[k]
  }

  /** The totals after `set` has walked the first j keys: those and the formula are rewritten. */
  ghost predicate PutDone(c: ExchComp, d: seq<real>, keys: seq<string>, j: nat, totals: map<string, real>)
    requires c.formula in c.totals
    requires |d| == |c.totals| + 4
  {
    && totals.Keys == c.totals.Keys
    && forall k :: k in totals ==> PutDoneAt(c, d, keys, j, totals, k)
  }

  /** The state of the `set` walk after j keys: the next slot to read, and the totals so far. */
  ghost predicate PutInvariant(c: ExchComp, d: seq<real>, keys: seq<string>, j: nat, index: nat, totals: map<string, real>)
    requires c.formula in c.totals
    requires |d| == |c.totals| + 4
  {
    && keys == Ascending(c.totals.Keys)
    && j <= |keys|
    && index == NumNotTotals + |Without(keys[..j], c.formula)|
    && PutDone(c, d, keys, j, totals)
  }

  /** Before the walk only the formula's value has been written, from slot 0. */
  lemma PutStart(c: ExchComp, d: seq<real>)
    requires c.formula in c.totals
    requires |d| == |c.totals| + 4
    ensures PutInvariant(c, d, Ascending(c.totals.Keys), 0, NumNotTotals, c.totals[c.formula := d[0]])
  {
    assert Ascending(c.totals.Keys)[..0] == [];
  }

  /** The j-th key visited, when it is not the formula, is read from the current slot index. */
  lemma PutSlot(c: ExchComp, d: seq<real>, keys: seq<string>, j: nat, index: nat)
    requires c.formula in c.totals
    requires |d| == |c.totals| + 4
    requires keys == Ascending(c.totals.Keys) && j < |keys| && keys[j] != c.formula
    requires index == NumNotTotals + |Without(keys[..j], c.formula)|
    ensures keys[j] in c.totals && index < |d| && d[index] == Slot(c, d, keys[j])
  {
    AscendingAt(c.totals.Keys, j);
    OthersLength(c);
    AscendingWithout(c.totals.Keys, c.formula);
    AscendingSorted(c.totals.Keys - {c.formula});
    WithoutPrefix(keys, j, c.formula);
    SortedIndexOf(Others(c), index - NumNotTotals);
  }

  lemma PutWrite(c: ExchComp, d: seq<real>, keys: seq<string>, j: nat, totals: map<string, real>)
    requires c.formula in c.totals
    requires |d| == |c.totals| + 4
    requires Sorted(keys) && j < |keys| && keys[j] in c.totals
    requires PutDone(c, d, keys, j, totals)
    ensures PutDone(c, d, keys, j + 1, totals[keys[j] := Slot(c, d, keys[j])])
  {
    var next := totals[keys[j] := Slot(c, d, keys[j])];
    forall k | k in next ensures PutDoneAt(c, d, keys, j + 1, next, k) {
      assert PutDoneAt(c, d, keys, j, totals, k);
      PutWriteAt(c, d, keys, j, totals, k);
    }
  }

  lemma PutWriteAt(c: ExchComp, d: seq<real>, keys: seq<string>, j: nat, totals: map<string, real>, k: string)
    requires c.formula in c.totals
    requires |d| == |c.totals| + 4
    requires Sorted(keys) && j < |keys| && keys[j] in c.totals
    requires k in totals && k in c.totals && PutDoneAt(c, d, keys, j, totals, k)
    ensures PutDoneAt(c, d, keys, j + 1, totals[keys[j] := Slot(c, d, keys[j])], k)
  {
    if k == keys[j] {
      SortedIndexOf(keys, j);
    } else {
      PutOther(keys, j, k);
    }
  }

  lemma PutOther(keys: seq<string>, j: nat, k: string)
    requires Sorted(keys) && j < |keys| && k != keys[j]
    ensures IndexOf(keys, k) < j + 1 <==> IndexOf(keys, k) < j
  {
  }

  lemma PutSkip(c: ExchComp, d: seq<real>, keys: seq<string>, j: nat, totals: map<string, real>)
    requires c.formula in c.totals
    requires |d| == |c.totals| + 4
    requires Sorted(keys) && j < |keys| && keys[j] == c.formula
    requires PutDone(c, d, keys, j, totals)
    ensures PutDone(c, d, keys, j + 1, totals)
  {
    SortedIndexOf(keys, j);
    forall k | k in totals ensures PutDoneAt(c, d, keys, j + 1, totals, k) {
      assert PutDoneAt(c, d, keys, j, totals, k);
      if k != keys[j] {
        PutOther(keys, j, k);
      }
    }
  }

  /** One key of the walk in `set`: a non-formula key takes the next slot and advances the index. */
  lemma PutStep(c: ExchComp, d: seq<real>, keys: seq<string>, j: nat, index: nat, totals: map<string, real>)
    requires c.formula in c.totals
    requires |d| == |c.totals| + 4
    requires PutInvariant(c, d, keys, j, index, totals) && j < |keys|
    ensures keys[j] != c.formula ==> index < |d|
    ensures keys[j] != c.formula ==> PutInvariant(c, d, keys, j + 1, index + 1, totals[keys[j] := d[index]])
    ensures keys[j] == c.formula ==> PutInvariant(c, d, keys, j + 1, index, totals)
  {
    WithoutStep(keys, j, c.formula);
    AscendingSorted(c.totals.Keys);
    AscendingAt(c.totals.Keys, j);
    if keys[j] != c.formula {
      PutSlot(c, d, keys, j, index);
      PutWrite(c, d, keys, j, totals);
    } else {
      PutSkip(c, d, keys, j, totals);
    }
  }

  lemma PutFinish(c: ExchComp, d: seq<real>, keys: seq<string>, index: nat, totals: map<string, real>)
    requires c.formula in c.totals
    requires |d| == |c.totals| + 4
    requires PutInvariant(c, d, keys, |keys|, index, totals)
    ensures c.(totals := totals, chargeBalance := d[1], la := d[2], phaseProportion := d[3], formulaZ := d[4])
            == CompSet(c, d)
  {
    AscendingMembers(c.totals.Keys);
    forall k | k in totals ensures totals[k] == Slot(c, d, k) {
      assert k in keys;
      assert PutDoneAt(c, d, keys, |keys|, totals, k);
    }
    assert totals == CompSet(c, d).totals;
  }

  /** One iteration of the walk in `set`: a key other than the formula takes the next slot. */
  method PutKey(c: ExchComp, d: seq<real>, keys: seq<string>, j: nat, index: nat, totals: map<string, real>)
    returns (nextIndex: nat, nextTotals: map<string, real>)
    requires c.formula in c.totals
    requires |d| == |c.totals| + 4
    requires PutInvariant(c, d, keys, j, index, totals) && j < |keys|
    ensures PutInvariant(c, d, keys, j + 1, nextIndex, nextTotals)
  {
    PutStep(c, d, keys, j, index, totals);
    if keys[j] != c.formula {
      nextTotals := totals[keys[j] := d[index]];
      nextIndex := index + 1;
    } else {
      nextIndex, nextTotals := index, totals;
    }
  }

  /** ExchangeCompWrapper::set: the same walk, assigning each non-formula value in place from slot 5 on. */
  method CompPut(c: ExchComp, d: seq<real>) returns (r: ExchComp)
    requires c.formula in c.totals
    requires |d| == |c.totals| + 4
    ensures r == CompSet(c, d)
  {
    var totals := c.totals[c.formula := d[0]];
    var keys := Ascending(c.totals.Keys);
    var index: nat := NumNotTotals;
    var j: nat := 0;
    PutStart(c, d);
    while j < |keys|
      invariant PutInvariant(c, d, keys, j, index, totals)
      decreases |keys| - j
    {
      index, totals := PutKey(c, d, keys, j, index, totals);
      j := j + 1;
    }
    PutFinish(c, d, keys, index, totals);
    r := c.(totals := totals, chargeBalance := d[1], la := d[2], phaseProportion := d[3], formulaZ := d[4]);
  }

  /** The five names of the fixed slots. */
  function Header(formula: string): (r: seq<string>)
    ensures |r| == NumNotTotals && r[0] == formula
  {
    [formula, formula + "_cb", formula + "_la", formula + "_phase_proportion", formula + "_formular_z"]
  }

  function Suffixed(names: seq<string>, suffix: string): (r: seq<string>)
    ensures |r| == |names|
  {
    if names == [] then [] else Suffixed(names[..|names| - 1], suffix) + [names[|names| - 1] + suffix]
  }

  lemma SuffixedSnoc(names: seq<string>, n: string, suffix: string)
    ensures Suffixed(names + [n], suffix) == Suffixed(names, suffix) + [n + suffix]
  {
    assert (names + [n])[..|names|] == names;
  }

  /** The component's names: its five fixed names, then `total + formula` per other total. */
  ghost function CompNames(c: ExchComp): seq<string>
  {
    Header(c.formula) + Suffixed(Others(c), c.formula)
  }

  /** A component has exactly as many names as slots. */
  lemma CompNamesMatchLayout(c: ExchComp)
    requires c.formula in c.totals
    ensures |CompNames(c)| == CompSize(c) == |CompValues(c)|
  {
    CompValuesLength(c);
  }

  lemma CompNamesStep(c: ExchComp, keys: seq<string>, j: nat)
    requires j < |keys|
    ensures Suffixed(Without(keys[..j + 1], c.formula), c.formula)
            == Suffixed(Without(keys[..j], c.formula), c.formula)
               + (if keys[j] != c.formula then [keys[j] + c.formula] else [])
  {
    WithoutStep(keys, j, c.formula);
    if keys[j] != c.formula {
      SuffixedSnoc(Without(keys[..j], c.formula), keys[j], c.formula);
    } else {
      assert Without(keys[..j + 1], c.formula) == Without(keys[..j], c.formula);
    }
  }

  /** A full walk over the keys, after the header, lists the component's names. */
  lemma WalkNames(c: ExchComp, keys: seq<string>, h: seq<string>)
    requires keys == Ascending(c.totals.Keys) && h == Header(c.formula)
    ensures h + Suffixed(Without(keys[..|keys|], c.formula), c.formula) == CompNames(c)
  {
    WalkOthers(c, keys);
  }

  /** One iteration of the key walk in ExchangeWrapper::names: a key other than the formula adds `key + formula`. */
  method NameKey(c: ExchComp, keys: seq<string>, j: nat, h: seq<string>, names: seq<string>) returns (next: seq<string>)
    requires j < |keys|
    requires names == h + Suffixed(Without(keys[..j], c.formula), c.formula)
    ensures next == h + Suffixed(Without(keys[..j + 1], c.formula), c.formula)
  {
    CompNamesStep(c, keys, j);
    if keys[j] != c.formula {
      AppendAssoc(h, Suffixed(Without(keys[..j], c.formula), c.formula), [keys[j] + c.formula]);
      next := names + [keys[j] + c.formula];
    } else {
      next := names;
    }
  }

  /** The body of ExchangeWrapper::names for one component. */
  method CompNamesWalk(c: ExchComp) returns (names: seq<string>)
    ensures names == CompNames(c)
  {
    var h := Header(c.formula);
    names := h;
    var keys := Ascending(c.totals.Keys);
    var j := 0;
    while j < |keys|
      invariant 0 <= j <= |keys|
      invariant names == h + Suffixed(Without(keys[..j], c.formula), c.formula)
    {
      names := NameKey(c, keys, j, h, names);
      j := j + 1;
    }
    WalkNames(c, keys, h);
  }
}
