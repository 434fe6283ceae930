// The orderings the C++ standard containers impose: std::string's operator<
// (lexicographic), the ascending iteration of std::set / std::map, and the
// merge loops of std::set_union and std::set_intersection.

module Order {

  /** std::string operator<: lexicographic comparison of characters. */
  predicate Lt(a: string, b: string)
    decreases |a|
  {
    if |a| == 0 then |b| > 0
    else |b| > 0 && (a[0] < b[0] || (a[0] == b[0] && Lt(a[1..], b[1..])))
  }

  lemma LtIrreflexive(a: string)
    ensures !Lt(a, a)
  {
  }

  lemma LtAsymmetric(a: string, b: string)
    ensures Lt(a, b) ==> !Lt(b, a)
  {
  }

  lemma LtTransitive(a: string, b: string, c: string)
    requires Lt(a, b) && Lt(b, c)
    ensures Lt(a, c)
  {
  }

  lemma LtTotal(a: string, b: string)
    ensures a == b || Lt(a, b) || Lt(b, a)
  {
    if |a| > 0 && |b| > 0 && a[0] == b[0] {
      LtTotal(a[1..], b[1..]);
      if a[1..] == b[1..] {
        assert a == [a[0]] + a[1..] && b == [b[0]] + b[1..];
      }
    }
  }

  lemma LtAsymmetricAll()
    ensures forall a: string, b: string :: Lt(a, b) ==> !Lt(b, a)
  {
    forall a: string, b: string ensures Lt(a, b) ==> !Lt(b, a) {
      LtAsymmetric(a, b);
    }
  }

  /** Strictly ascending, hence duplicate-free: the iteration order of a std::set<std::string>. */
  predicate Sorted(s: seq<string>)
  {
    forall i, j :: 0 <= i < j < |s| ==> Lt(s[i], s[j])
  }

  /** A list of names in std::set / std::map key order. */
  type SortedNames = s: seq<string> | Sorted(s) witness []

  /** No name occurs twice. */
  predicate Distinct(s: seq<string>)
  {
    forall i, j :: 0 <= i < j < |s| ==> s[i] != s[j]
  }

  lemma SortedDistinct(s: seq<string>, i: int, j: int)
    requires Sorted(s) && 0 <= i < j < |s|
    ensures s[i] != s[j]
  {
    LtIrreflexive(s[i]);
  }

  /** `m` is below every other element of `s`. */
  predicate IsLeast(m: string, s: set<string>)
  {
    m in s && forall y :: y in s ==> y == m || Lt(m, y)
  }

  lemma {:induction false} MinExists(s: set<string>)
    requires s != {}
    ensures exists m :: IsLeast(m, s)
  {
    var x :| x in s;
    var rest := s - {x};
    if rest == {} {
      forall y | y in s ensures y == x {
        assert y !in rest;
      }
      assert IsLeast(x, s);
    } else {
      MinExists(rest);
      var m :| IsLeast(m, rest);
      MinInsert(x, rest, m);
      assert s == rest + {x};
    }
  }

  /** Adding x to a set with least element m: the new least is the smaller of the two. */
  lemma MinInsert(x: string, rest: set<string>, m: string)
    requires IsLeast(m, rest) && x !in rest
    ensures IsLeast(x, rest + {x}) || IsLeast(m, rest + {x})
  {
    LtTotal(x, m);
    if Lt(x, m) {
      MinBelow(x, rest, m);
    } else {
      forall y | y in rest + {x} ensures y == m || Lt(m, y) {
        if y != x { assert y in rest; }
      }
    }
  }

  lemma MinBelow(x: string, rest: set<string>, m: string)
    requires IsLeast(m, rest) && Lt(x, m)
    ensures IsLeast(x, rest + {x})
  {
    forall y | y in rest + {x} ensures y == x || Lt(x, y) {
      if y != x {
        assert y in rest;
        if y != m { LtTransitive(x, m, y); }
      }
    }
  }

  /** The least element of a non-empty set of strings. */
  function Least(s: set<string>): (m: string)
    requires s != {}
    ensures m in s
    ensures forall y :: y in s ==> y == m || Lt(m, y)
  {
    MinExists(s);
    LtAsymmetricAll();
    var m :| IsLeast(m, s);
    m
  }

  /** `r` lists the elements of `s` in strictly ascending order. */
  ghost predicate Enumerates(r: seq<string>, s: set<string>)
  {
    Sorted(r) && |r| == |s| && forall x :: x in r <==> x in s
  }

  /**
   * Iteration order of a std::set<std::string> (or of the keys of a
   * string-keyed std::map): repeatedly the least element.
   */
  function Ascending(s: set<string>): (r: seq<string>)
    ensures |r| == |s|
    decreases |s|
  {
    if s == {} then []
    else
      var m := Least(s);
      [m] + Ascending(s - {m})
  }

  lemma {:induction false} AscendingEnumerates(s: set<string>)
    ensures Enumerates(Ascending(s), s)
    decreases |s|
  {
    if s != {} {
      var m := Least(s);
      var rest := Ascending(s - {m});
      AscendingEnumerates(s - {m});
      forall x | x in rest ensures Lt(m, x) {
        assert x in s - {m};
      }
      SortedCons(m, rest);
    }
  }

  lemma AscendingSorted(s: set<string>)
    ensures Sorted(Ascending(s))
  {
    AscendingEnumerates(s);
  }

  lemma AscendingMembers(s: set<string>)
    ensures forall x :: x in Ascending(s) <==> x in s
  {
    AscendingEnumerates(s);
  }

  /** Entry i of the iteration is an element. */
  lemma AscendingAt(s: set<string>, i: int)
    requires 0 <= i < |s|
    ensures Ascending(s)[i] in s
  {
    AscendingMembers(s);
    assert Ascending(s)[i] in Ascending(s);
  }

  /** The ascending enumeration is the only one. */
  lemma AscendingUnique(r: seq<string>, s: set<string>)
    requires Enumerates(r, s)
    ensures r == Ascending(s)
  {
    AscendingEnumerates(s);
    SortedUnique(r, Ascending(s));
  }

  /** Strictly ascending integers. */
  predicate Increasing(r: seq<int>)
  {
    forall i, j :: 0 <= i < j < |r| ==> r[i] < r[j]
  }

  /** Iteration order of the keys of a std::map<int, ...>. */
  function AscendingInts(s: set<int>): (r: seq<int>)
    ensures Increasing(r)
    ensures |r| == |s|
    ensures forall x :: x in r <==> x in s
    decreases |s|
  {
    if s == {} then []
    else
      assert exists m :: m in s && forall y :: y in s ==> m <= y by { IntMinExists(s); }
      var m :| m in s && forall y :: y in s ==> m <= y;
      var rest := AscendingInts(s - {m});
      IntsCons(m, s, rest);
      [m] + rest
  }

  lemma IntsCons(m: int, s: set<int>, rest: seq<int>)
    requires m in s && forall y :: y in s ==> m <= y
    requires Increasing(rest)
    requires |rest| == |s - {m}|
    requires forall x :: x in rest <==> x in s - {m}
    ensures Increasing([m] + rest)
    ensures |[m] + rest| == |s|
    ensures forall x :: x in [m] + rest <==> x in s
  {
    var r := [m] + rest;
    forall i, j | 0 <= i < j < |r| ensures r[i] < r[j] {
      assert r[j] == rest[j - 1];
      assert r[j] in s - {m};
      if i > 0 { assert r[i] == rest[i - 1]; }
    }
    forall x ensures x in r <==> x in s {
      if x in s && x != m { assert x in rest; }
    }
  }

  lemma {:induction false} IntMinExists(s: set<int>)
    requires s != {}
    ensures exists m :: m in s && forall y :: y in s ==> m <= y
    decreases |s|
  {
    if forall y :: y !in s { assert false; }
    var x :| x in s;
    var rest := s - {x};
    if rest == {} {
      forall y | y in s ensures x <= y {
        assert y == x || y in rest;
      }
    } else {
      IntMinExists(rest);
      var m :| m in rest && forall y :: y in rest ==> m <= y;
      var least := if x < m then x else m;
      forall y | y in s ensures least <= y {
        if y != x { assert y in rest; }
      }
      assert least in s;
    }
  }

  /** The smallest key, which is what `map.begin()` points at. */
  lemma AscendingIntsHead(s: set<int>)
    requires s != {}
    ensures AscendingInts(s)[0] in s
    ensures forall y :: y in s ==> AscendingInts(s)[0] <= y
  {
    var r := AscendingInts(s);
    forall y | y in s ensures r[0] <= y {
      var k :| 0 <= k < |r| && r[k] == y;
    }
  }

  /** `a.compare(0, p.size(), p) == 0`, i.e. C++20 `a.starts_with(p)`. */
  predicate StartsWith(a: string, p: string)
  {
    |p| <= |a| && a[..|p|] == p
  }

  /**
   * The merge loop of std::set_union(a..., b..., back_inserter(out)).
   * On sorted input it is the sorted union; the loop is modelled exactly
   * because several call sites feed it unsorted name lists.
   */
  function SetUnion(a: seq<string>, b: seq<string>): seq<string>
    decreases |a| + |b|
  {
    if a == [] then b
    else if b == [] then a
    else if Lt(b[0], a[0]) then [b[0]] + SetUnion(a, b[1..])
    else if Lt(a[0], b[0]) then [a[0]] + SetUnion(a[1..], b)
    else [a[0]] + SetUnion(a[1..], b[1..])
  }

  /** Whatever the input order, the merge emits exactly the names of both inputs. */
  lemma {:induction false} SetUnionElements(a: seq<string>, b: seq<string>)
    ensures forall x :: x in SetUnion(a, b) <==> x in a || x in b
    decreases |a| + |b|
  {
    if a == [] || b == [] {
    } else if Lt(b[0], a[0]) {
      SetUnionElements(a, b[1..]);
      assert b == [b[0]] + b[1..];
    } else if Lt(a[0], b[0]) {
      SetUnionElements(a[1..], b);
      assert a == [a[0]] + a[1..];
    } else {
      SetUnionElements(a[1..], b[1..]);
      LtTotal(a[0], b[0]);
      assert a == [a[0]] + a[1..];
      assert b == [b[0]] + b[1..];
    }
  }

  lemma SortedCons(h: string, rest: seq<string>)
    requires Sorted(rest)
    requires forall x :: x in rest ==> Lt(h, x)
    ensures Sorted([h] + rest)
  {
    var u := [h] + rest;
    forall i, j | 0 <= i < j < |u| ensures Lt(u[i], u[j]) {
      assert u[j] == rest[j - 1];
      if i > 0 { assert u[i] == rest[i - 1]; }
    }
  }

  /** Something below the head of a sorted sequence is below all of it. */
  lemma BelowAll(h: string, s: seq<string>)
    requires Sorted(s) && s != [] && Lt(h, s[0])
    ensures forall x :: x in s ==> Lt(h, x)
  {
    forall x | x in s ensures Lt(h, x) {
      var i := IndexOf(s, x);
      if i > 0 { LtTransitive(h, s[0], x); }
    }
  }

  lemma TailAbove(s: seq<string>)
    requires Sorted(s) && s != []
    ensures Sorted(s[1..])
    ensures forall x :: x in s[1..] ==> Lt(s[0], x)
  {
    forall x | x in s[1..] ensures Lt(s[0], x) {
      var i := IndexOf(s[1..], x);
      assert s[i + 1] == x;
    }
  }

  /** On sorted inputs the merge output is sorted (and so duplicate-free). */
  lemma {:induction false} SetUnionSorted(a: seq<string>, b: seq<string>)
    requires Sorted(a) && Sorted(b)
    ensures Sorted(SetUnion(a, b))
    decreases |a| + |b|
  {
    if a != [] && b != [] {
      TailAbove(a);
      TailAbove(b);
      if Lt(b[0], a[0]) {
        SetUnionSorted(a, b[1..]);
        SetUnionElements(a, b[1..]);
        BelowAll(b[0], a);
        SortedCons(b[0], SetUnion(a, b[1..]));
      } else if Lt(a[0], b[0]) {
        SetUnionSorted(a[1..], b);
        SetUnionElements(a[1..], b);
        BelowAll(a[0], b);
        SortedCons(a[0], SetUnion(a[1..], b));
      } else {
        LtTotal(a[0], b[0]);
        SetUnionSorted(a[1..], b[1..]);
        SetUnionElements(a[1..], b[1..]);
        SortedCons(a[0], SetUnion(a[1..], b[1..]));
      }
    }
  }

  /** Merging a list with itself gives the list back, sorted or not. */
  lemma {:induction false} SetUnionSelf(a: seq<string>)
    ensures SetUnion(a, a) == a
  {
    if a != [] {
      LtIrreflexive(a[0]);
      SetUnionSelf(a[1..]);
      assert a == [a[0]] + a[1..];
    }
  }

  /**
   * The merge loop of std::set_intersection(a..., b..., out): an element of `a`
   * is emitted when the cursor in `b` holds an equal element.
   */
  function SetIntersection(a: seq<string>, b: seq<string>): seq<string>
    decreases |a| + |b|
  {
    if a == [] || b == [] then []
    else if Lt(a[0], b[0]) then SetIntersection(a[1..], b)
    else if Lt(b[0], a[0]) then SetIntersection(a, b[1..])
    else [a[0]] + SetIntersection(a[1..], b[1..])
  }

  /** Every emitted name comes from both inputs, whatever their order. */
  lemma {:induction false} SetIntersectionWithin(a: seq<string>, b: seq<string>)
    ensures forall x :: x in SetIntersection(a, b) ==> x in a && x in b
    decreases |a| + |b|
  {
    if a == [] || b == [] {
    } else if Lt(a[0], b[0]) {
      SetIntersectionWithin(a[1..], b);
    } else if Lt(b[0], a[0]) {
      SetIntersectionWithin(a, b[1..]);
    } else {
      LtTotal(a[0], b[0]);
      SetIntersectionWithin(a[1..], b[1..]);
    }
  }

  /** Index of the first occurrence, as `std::find` returns it (|s| when absent). */
  function IndexOf(s: seq<string>, x: string): (k: nat)
    ensures k <= |s|
    ensures k < |s| ==> s[k] == x
    ensures forall i :: 0 <= i < k ==> s[i] != x
    ensures k == |s| <==> x !in s
  {
    if s == [] then 0
    else if s[0] == x then 0
    else 1 + IndexOf(s[1..], x)
  }

  /** The entries of `s` other than `x`, in order (the `if (name != formula)` skip of a key loop). */
  function Without(s: seq<string>, x: string): (r: seq<string>)
    ensures |r| <= |s|
  {
    if s == [] then []
    else Without(s[..|s| - 1], x) + (if s[|s| - 1] != x then [s[|s| - 1]] else [])
  }

  /** Skipping `x` keeps exactly the other elements. */
  lemma {:induction false} WithoutElements(s: seq<string>, x: string)
    ensures forall y :: y in Without(s, x) <==> y in s && y != x
  {
    if s != [] {
      WithoutElements(s[..|s| - 1], x);
      assert s == s[..|s| - 1] + [s[|s| - 1]];
    }
  }

  lemma {:induction false} WithoutSorted(s: seq<string>, x: string)
    requires Sorted(s)
    ensures Sorted(Without(s, x))
  {
    if s != [] {
      var init := s[..|s| - 1];
      assert Sorted(init);
      WithoutSorted(init, x);
      var w := Without(init, x);
      WithoutElements(init, x);
      if s[|s| - 1] != x {
        forall i | 0 <= i < |w| ensures Lt(w[i], s[|s| - 1]) {
          assert w[i] in init;
          var k :| 0 <= k < |init| && init[k] == w[i];
        }
      }
    }
  }

  /** Two strictly ascending sequences with the same elements are equal. */
  lemma {:induction false} SortedUnique(a: seq<string>, b: seq<string>)
    requires Sorted(a) && Sorted(b)
    requires forall x :: x in a <==> x in b
    ensures a == b
    decreases |a|
  {
    if a != [] { assert a[0] in a; }
    if b != [] { assert b[0] in b; }
    if a != [] && b != [] {
      var ka := IndexOf(a, b[0]);
      var kb := IndexOf(b, a[0]);
      LtAsymmetric(a[0], b[0]);
      LtIrreflexive(a[0]);
      LtIrreflexive(b[0]);
      if a[0] != b[0] { assert false; }
      forall x ensures x in a[1..] <==> x in b[1..] {
        if x in a[1..] {
          var k := 1 + IndexOf(a[1..], x);
          SortedDistinct(a, 0, k);
          assert x in b;
          var m := IndexOf(b, x);
          assert m != 0;
          assert b[1..][m - 1] == x;
        }
        if x in b[1..] {
          var k := 1 + IndexOf(b[1..], x);
          SortedDistinct(b, 0, k);
          assert x in a;
          var m := IndexOf(a, x);
          assert m != 0;
          assert a[1..][m - 1] == x;
        }
      }
      SortedUnique(a[1..], b[1..]);
      assert a == [a[0]] + a[1..] && b == [b[0]] + b[1..];
    }
  }

  /** Walking a std::map's keys and skipping one key visits the other keys in order. */
  lemma AscendingWithout(keys: set<string>, x: string)
    ensures Without(Ascending(keys), x) == Ascending(keys - {x})
  {
    AscendingSorted(keys);
    AscendingSorted(keys - {x});
    AscendingMembers(keys);
    AscendingMembers(keys - {x});
    WithoutSorted(Ascending(keys), x);
    WithoutElements(Ascending(keys), x);
    SortedUnique(Without(Ascending(keys), x), Ascending(keys - {x}));
  }

  lemma SortedIndexOf(s: seq<string>, i: int)
    requires Sorted(s) && 0 <= i < |s|
    ensures IndexOf(s, s[i]) == i
  {
    var k := IndexOf(s, s[i]);
    if k < i { SortedDistinct(s, k, i); }
  }

  lemma WithoutStep(s: seq<string>, j: nat, x: string)
    requires j < |s|
    ensures Without(s[..j + 1], x) == Without(s[..j], x) + (if s[j] != x then [s[j]] else [])
  {
    assert s[..j + 1][..j] == s[..j];
  }

  lemma {:induction false} WithoutAppend(a: seq<string>, b: seq<string>, x: string)
    ensures Without(a + b, x) == Without(a, x) + Without(b, x)
    decreases |b|
  {
    if b == [] {
      assert a + b == a;
    } else {
      assert (a + b)[..|a + b| - 1] == a + b[..|b| - 1];
      WithoutAppend(a, b[..|b| - 1], x);
    }
  }

  /** Skipping `x` while walking `s`: the j-th visited element lands right after those already visited. */
  lemma WithoutPrefix(s: seq<string>, j: nat, x: string)
    requires j < |s| && s[j] != x
    ensures |Without(s[..j], x)| < |Without(s, x)|
    ensures Without(s, x)[|Without(s[..j], x)|] == s[j]
  {
    WithoutStep(s, j, x);
    WithoutAppend(s[..j + 1], s[j + 1..], x);
    assert s[..j + 1] + s[j + 1..] == s;
  }
}
