// Phreeqc::find_all_valence_states: a list of solution names is rewritten so
// that every element appears once, either as its valence states (the names
// that follow it in the solver's master list and read "<element>(...") or,
// without such states, as the element itself. The solver's master list and
// its primary-species lookup (master_bsearch_primary) are parameters.
//
// The litephreeqc variant passes the names of a fixed ignore set through;
// the GFZ and POET variants copy the first `offset` names instead.

module Valence {
  import opened Values
  import Order

  /** The names litephreeqc's variant never expands. */
  const Ignored: set<string> := {"H", "O", "Charge", "tc", "patm", "SolVol", "pH", "pe", "H(0)", "O(0)"}

  /** The character at i, and the terminating NUL of std::string at i == |s|. */
  function CharAt(s: string, i: nat): char
    requires i <= |s|
  {
    if i < |s| then s[i] else '\0'
  }

  /** `next` names a valence state of `species`: it starts with it and goes on with '('. */
  predicate IsValenceOf(next: string, species: string)
  {
    Order.StartsWith(next, species) && CharAt(next, |species|) == '('
  }

  /** The end of the run of valence states of `species` that starts at k. */
  function RunEnd(master: seq<string>, species: string, k: nat): (e: nat)
    requires k <= |master|
    ensures k <= e <= |master|
    ensures forall i :: k <= i < e ==> IsValenceOf(master[i], species)
    ensures e < |master| ==> !IsValenceOf(master[e], species)
    decreases |master| - k
  {
    if k < |master| && IsValenceOf(master[k], species) then RunEnd(master, species, k + 1) else k
  }

  /** There is at least one valence state right after the first occurrence of `species`. */
  predicate HasValences(master: seq<string>, species: string)
  {
    var j := Order.IndexOf(master, species);
    j + 1 < |master| && IsValenceOf(master[j + 1], species)
  }

  /** What a newly met master species contributes: its valence states, or itself. */
  function Emitted(master: seq<string>, species: string): seq<string>
  {
    var j := Order.IndexOf(master, species);
    if HasValences(master, species) then master[j + 1..RunEnd(master, species, j + 1)] else [species]
  }

  /** A valence state is longer than its element, so it is never the element itself. */
  lemma ValenceNotSelf(x: string, species: string)
    requires IsValenceOf(x, species)
    ensures x != species && |x| > |species|
  {
  }

  /**
   * With valence states, the element is replaced by the whole run of them that
   * follows it in the master list (and is not listed itself); without, it
   * stands for itself.
   */
  lemma EmittedCases(master: seq<string>, species: string)
    ensures HasValences(master, species) ==>
      species in master && |Emitted(master, species)| > 0 &&
      (forall x :: x in Emitted(master, species) ==> IsValenceOf(x, species) && x in master) &&
      species !in Emitted(master, species)
    ensures !HasValences(master, species) ==> Emitted(master, species) == [species]
  {
    if HasValences(master, species) {
      var j := Order.IndexOf(master, species);
      var e := RunEnd(master, species, j + 1);
      var r := master[j + 1..e];
      forall x | x in r ensures IsValenceOf(x, species) && x in master && x != species {
        var i :| 0 <= i < |r| && r[i] == x;
        assert master[j + 1 + i] == x;
        ValenceNotSelf(x, species);
      }
    }
  }

  // ---------------------------------------------------------------- the loop as a fold

  /** The loop state: the names emitted so far and the master species already met. */
  datatype Expansion = Expansion(out: seq<string>, found: set<string>)

  /** Every name that is not passed through has a primary master species (the loop asserts it). */
  predicate Resolvable(names: seq<string>, ignore: set<string>, primaryOf: string -> Option<string>)
  {
    forall i :: 0 <= i < |names| ==> names[i] in ignore || primaryOf(names[i]).Some?
  }

  /** One iteration of the loop. */
  function Step(st: Expansion, name: string, ignore: set<string>, master: seq<string>, primaryOf: string -> Option<string>): Expansion
    requires name in ignore || primaryOf(name).Some?
  {
    if name in ignore then Expansion(st.out + [name], st.found)
    else
      var species := primaryOf(name).value;
      if species in st.found then st
      else Expansion(st.out + Emitted(master, species), st.found + {species})
  }

  /** The loop over all names, from state st. */
  function Expand(st: Expansion, names: seq<string>, ignore: set<string>, master: seq<string>, primaryOf: string -> Option<string>): Expansion
    requires Resolvable(names, ignore, primaryOf)
    decreases |names|
  {
    if names == [] then st
    else
      var n := |names| - 1;
      assert Resolvable(names[..n], ignore, primaryOf);
      Step(Expand(st, names[..n], ignore, master, primaryOf), names[n], ignore, master, primaryOf)
  }

  /** find_all_valence_states of litephreeqc_funcs.cpp. */
  function WithValences(names: seq<string>, master: seq<string>, primaryOf: string -> Option<string>): seq<string>
    requires Resolvable(names, Ignored, primaryOf)
  {
    Expand(Expansion([], {}), names, Ignored, master, primaryOf).out
  }

  /** find_all_valence_states(names, offset) of GFZ.cpp and of POET's PhreeqcInit. */
  function WithValencesFrom(names: seq<string>, offset: nat, master: seq<string>, primaryOf: string -> Option<string>): seq<string>
    requires offset <= |names| && Resolvable(names[offset..], {}, primaryOf)
  {
    Expand(Expansion(names[..offset], {}), names[offset..], {}, master, primaryOf).out
  }

  // ---------------------------------------------------------------- properties

  /** The output only ever grows: what was emitted before stays in front. */
  lemma {:induction false} ExpandKeepsOut(st: Expansion, names: seq<string>, ignore: set<string>, master: seq<string>, primaryOf: string -> Option<string>)
    requires Resolvable(names, ignore, primaryOf)
    ensures |st.out| <= |Expand(st, names, ignore, master, primaryOf).out|
    ensures Expand(st, names, ignore, master, primaryOf).out[..|st.out|] == st.out
    decreases |names|
  {
    if names != [] {
      var n := |names| - 1;
      var prev := Expand(st, names[..n], ignore, master, primaryOf);
      ExpandKeepsOut(st, names[..n], ignore, master, primaryOf);
      var next := Step(prev, names[n], ignore, master, primaryOf);
      assert |prev.out| <= |next.out| && next.out[..|prev.out|] == prev.out;
      assert next.out[..|st.out|] == prev.out[..|st.out|];
    }
  }

  /** Running over a + b is running over a, then over b. */
  lemma {:induction false} ExpandAppend(st: Expansion, a: seq<string>, b: seq<string>, ignore: set<string>, master: seq<string>, primaryOf: string -> Option<string>)
    requires Resolvable(a + b, ignore, primaryOf)
    ensures Resolvable(a, ignore, primaryOf) && Resolvable(b, ignore, primaryOf)
    ensures Expand(st, a + b, ignore, master, primaryOf) == Expand(Expand(st, a, ignore, master, primaryOf), b, ignore, master, primaryOf)
    decreases |b|
  {
    assert forall i :: 0 <= i < |a| ==> (a + b)[i] == a[i];
    assert forall i :: 0 <= i < |b| ==> (a + b)[|a| + i] == b[i];
    if b == [] {
      assert a + b == a;
    } else {
      var n := |b| - 1;
      assert (a + b)[..|a + b| - 1] == a + b[..n];
      ExpandAppend(st, a, b[..n], ignore, master, primaryOf);
    }
  }

  /** The species met are exactly the primaries of the names not passed through. */
  lemma {:induction false} ExpandFound(st: Expansion, names: seq<string>, ignore: set<string>, master: seq<string>, primaryOf: string -> Option<string>, x: string)
    requires Resolvable(names, ignore, primaryOf)
    ensures x in Expand(st, names, ignore, master, primaryOf).found <==>
      x in st.found || exists i :: 0 <= i < |names| && names[i] !in ignore && primaryOf(names[i]) == Some(x)
    decreases |names|
  {
    if names != [] {
      var n := |names| - 1;
      ExpandFound(st, names[..n], ignore, master, primaryOf, x);
      if exists i :: 0 <= i < |names| && names[i] !in ignore && primaryOf(names[i]) == Some(x) {
        var i :| 0 <= i < |names| && names[i] !in ignore && primaryOf(names[i]) == Some(x);
        if i < n {
          assert names[..n][i] == names[i];
        }
      }
    }
  }

  /** The name at i contributes x: it is passed through as x, or x is one of its species' names. */
  predicate Contributes(names: seq<string>, i: int, ignore: set<string>, master: seq<string>, primaryOf: string -> Option<string>, x: string)
    requires 0 <= i < |names|
  {
    if names[i] in ignore then names[i] == x
    else primaryOf(names[i]).Some? && x in Emitted(master, primaryOf(names[i]).value)
  }

  /**
   * From a fresh start, a name is in the output exactly when some input name
   * contributes it: nothing is lost by skipping a species met before, and
   * nothing else is added.
   */
  lemma {:induction false} ExpandMembers(out0: seq<string>, names: seq<string>, ignore: set<string>, master: seq<string>, primaryOf: string -> Option<string>, x: string)
    requires Resolvable(names, ignore, primaryOf)
    ensures x in Expand(Expansion(out0, {}), names, ignore, master, primaryOf).out <==>
      x in out0 || exists i :: 0 <= i < |names| && Contributes(names, i, ignore, master, primaryOf, x)
    decreases |names|
  {
    if names != [] {
      var st := Expansion(out0, {});
      var n := |names| - 1;
      var front := names[..n];
      assert Resolvable(front, ignore, primaryOf);
      ExpandMembers(out0, front, ignore, master, primaryOf, x);
      var prev := Expand(st, front, ignore, master, primaryOf);
      assert forall i :: 0 <= i < n ==> front[i] == names[i];
      assert forall i :: 0 <= i < n ==> (Contributes(front, i, ignore, master, primaryOf, x) <==> Contributes(names, i, ignore, master, primaryOf, x));
      var next := Step(prev, names[n], ignore, master, primaryOf);
      assert (exists i :: 0 <= i < |names| && Contributes(names, i, ignore, master, primaryOf, x)) <==>
        (exists i :: 0 <= i < n && Contributes(names, i, ignore, master, primaryOf, x)) || Contributes(names, n, ignore, master, primaryOf, x);
      if names[n] in ignore {
        assert next.out == prev.out + [names[n]];
      } else {
        var species := primaryOf(names[n]).value;
        if species !in prev.found {
          assert next.out == prev.out + Emitted(master, species);
        } else {
          ExpandFound(st, front, ignore, master, primaryOf, species);
          var j :| 0 <= j < n && front[j] !in ignore && primaryOf(front[j]) == Some(species);
          if Contributes(names, n, ignore, master, primaryOf, x) {
            assert Contributes(front, j, ignore, master, primaryOf, x);
          }
        }
      }
    }
  }

  /** Membership in litephreeqc's result. */
  lemma WithValencesMembers(names: seq<string>, master: seq<string>, primaryOf: string -> Option<string>, x: string)
    requires Resolvable(names, Ignored, primaryOf)
    ensures x in WithValences(names, master, primaryOf) <==>
      exists i :: 0 <= i < |names| && Contributes(names, i, Ignored, master, primaryOf, x)
  {
    ExpandMembers([], names, Ignored, master, primaryOf, x);
  }

  /** A name whose master species was met before adds nothing: each species is expanded once. */
  lemma SpeciesOnce(st: Expansion, names: seq<string>, ignore: set<string>, master: seq<string>, primaryOf: string -> Option<string>, i: nat, j: nat)
    requires Resolvable(names, ignore, primaryOf)
    requires j < i < |names|
    requires names[i] !in ignore && names[j] !in ignore && primaryOf(names[i]) == primaryOf(names[j])
    ensures Resolvable(names[..i], ignore, primaryOf) && Resolvable(names[..i + 1], ignore, primaryOf)
    ensures Expand(st, names[..i + 1], ignore, master, primaryOf) == Expand(st, names[..i], ignore, master, primaryOf)
  {
    var front := names[..i];
    assert front[j] == names[j];
    assert Resolvable(front, ignore, primaryOf);
    ExpandFound(st, front, ignore, master, primaryOf, primaryOf(names[i]).value);
    assert names[..i + 1][..i] == front;
  }

  /** A passed-through name is appended as it is, where the loop meets it. */
  lemma IgnoredAppended(st: Expansion, names: seq<string>, ignore: set<string>, master: seq<string>, primaryOf: string -> Option<string>, i: nat)
    requires Resolvable(names, ignore, primaryOf)
    requires i < |names| && names[i] in ignore
    ensures Resolvable(names[..i], ignore, primaryOf) && Resolvable(names[..i + 1], ignore, primaryOf)
    ensures Expand(st, names[..i + 1], ignore, master, primaryOf).out == Expand(st, names[..i], ignore, master, primaryOf).out + [names[i]]
  {
    assert names[..i + 1][..i] == names[..i];
  }

  /** A leading run of ignored names comes out unchanged and first (the essentials of a solution). */
  lemma {:induction false} IgnoredPrefix(names: seq<string>, master: seq<string>, primaryOf: string -> Option<string>, k: nat)
    requires Resolvable(names, Ignored, primaryOf)
    requires k <= |names|
    requires forall i :: 0 <= i < k ==> names[i] in Ignored
    ensures |WithValences(names, master, primaryOf)| >= k
    ensures WithValences(names, master, primaryOf)[..k] == names[..k]
  {
    var st := Expansion([], {});
    var a, b := names[..k], names[k..];
    assert a + b == names;
    PrefixOut(names, master, primaryOf, k);
    ExpandAppend(st, a, b, Ignored, master, primaryOf);
    var mid := Expand(st, a, Ignored, master, primaryOf);
    ExpandKeepsOut(mid, b, Ignored, master, primaryOf);
    assert WithValences(names, master, primaryOf) == Expand(mid, b, Ignored, master, primaryOf).out;
  }

  lemma {:induction false} PrefixOut(names: seq<string>, master: seq<string>, primaryOf: string -> Option<string>, k: nat)
    requires k <= |names|
    requires forall i :: 0 <= i < k ==> names[i] in Ignored
    ensures Resolvable(names[..k], Ignored, primaryOf)
    ensures Expand(Expansion([], {}), names[..k], Ignored, master, primaryOf).out == names[..k]
  {
    if k > 0 {
      PrefixOut(names, master, primaryOf, k - 1);
      assert names[..k][..k - 1] == names[..k - 1];
      assert names[..k] == names[..k - 1] + [names[k - 1]];
    }
  }

  /** The offset variants copy the first `offset` names unchanged. */
  lemma OffsetPrefix(names: seq<string>, offset: nat, master: seq<string>, primaryOf: string -> Option<string>)
    requires offset <= |names| && Resolvable(names[offset..], {}, primaryOf)
    ensures |WithValencesFrom(names, offset, master, primaryOf)| >= offset
    ensures WithValencesFrom(names, offset, master, primaryOf)[..offset] == names[..offset]
  {
    ExpandKeepsOut(Expansion(names[..offset], {}), names[offset..], {}, master, primaryOf);
  }

  /** The species met by the offset variants are the primaries of the names past the offset. */
  lemma OffsetFound(names: seq<string>, offset: nat, master: seq<string>, primaryOf: string -> Option<string>, x: string)
    requires offset <= |names| && Resolvable(names[offset..], {}, primaryOf)
    ensures x in Expand(Expansion(names[..offset], {}), names[offset..], {}, master, primaryOf).found <==>
      exists i :: offset <= i < |names| && primaryOf(names[i]) == Some(x)
  {
    var rest := names[offset..];
    ExpandFound(Expansion(names[..offset], {}), rest, {}, master, primaryOf, x);
    if exists i :: offset <= i < |names| && primaryOf(names[i]) == Some(x) {
      var i :| offset <= i < |names| && primaryOf(names[i]) == Some(x);
      assert rest[i - offset] == names[i];
    }
    if exists i :: 0 <= i < |rest| && rest[i] !in {} && primaryOf(rest[i]) == Some(x) {
      var i :| 0 <= i < |rest| && primaryOf(rest[i]) == Some(x);
      assert names[offset + i] == rest[i];
    }
  }

  // ---------------------------------------------------------------- the loops

  /** The search for the species in the master list. */
  method FindMaster(master: seq<string>, species: string) returns (j: nat)
    ensures j == Order.IndexOf(master, species)
  {
    j := 0;
    while j < |master|
      invariant j <= Order.IndexOf(master, species)
    {
      if master[j] == species {
        return;
      }
      j := j + 1;
    }
  }

  /** The `while` over the successors: the index of the last valence state (j when there is none). */
  method LastValence(master: seq<string>, species: string, j: nat) returns (last: nat)
    requires j < |master|
    ensures last + 1 == RunEnd(master, species, j + 1)
  {
    last := j;
    while last < |master| - 1
      invariant j <= last < |master|
      invariant RunEnd(master, species, j + 1) == RunEnd(master, species, last + 1)
      decreases |master| - last
    {
      var next := master[last + 1];
      if !Order.StartsWith(next, species) {
        break;
      }
      if CharAt(next, |species|) != '(' {
        break;
      }
      last := last + 1;
    }
  }

  /** The push_back loop over the valence states found. */
  method CopyRun(master: seq<string>, from: nat, to: nat) returns (r: seq<string>)
    requires from <= to <= |master|
    ensures r == master[from..to]
  {
    r := [];
    var k := from;
    while k < to
      invariant from <= k <= to
      invariant r == master[from..k]
    {
      r := r + [master[k]];
      k := k + 1;
    }
  }

  /** The names one newly met species contributes. */
  method EmitSpecies(master: seq<string>, species: string) returns (r: seq<string>)
    ensures r == Emitted(master, species)
  {
    var j := FindMaster(master, species);
    var hasValences := false;
    var last := j;
    if j < |master| {
      last := LastValence(master, species, j);
      hasValences := last > j;
    }
    if hasValences {
      assert HasValences(master, species);
      r := CopyRun(master, j + 1, last + 1);
    } else {
      r := [species];
    }
  }

  /** The body of the loop over the names. */
  method StepName(out: seq<string>, found: set<string>, name: string, ignore: set<string>, master: seq<string>, primaryOf: string -> Option<string>)
    returns (out': seq<string>, found': set<string>)
    requires name in ignore || primaryOf(name).Some?
    ensures Expansion(out', found') == Step(Expansion(out, found), name, ignore, master, primaryOf)
  {
    out', found' := out, found;
    if name in ignore {
      out' := out + [name];
      return;
    }
    var species := primaryOf(name).value;
    if species in found {
      return;
    }
    found' := found + {species};
    var emitted := EmitSpecies(master, species);
    out' := out + emitted;
  }

  /** Phreeqc::find_all_valence_states(solution_names) of litephreeqc_funcs.cpp. */
  method FindAllValenceStates(names: seq<string>, master: seq<string>, primaryOf: string -> Option<string>) returns (r: seq<string>)
    requires Resolvable(names, Ignored, primaryOf)
    ensures r == WithValences(names, master, primaryOf)
  {
    r := [];
    var found: set<string> := {};
    var i := 0;
    while i < |names|
      invariant 0 <= i <= |names|
      invariant Resolvable(names[..i], Ignored, primaryOf)
      invariant Expansion(r, found) == Expand(Expansion([], {}), names[..i], Ignored, master, primaryOf)
    {
      assert names[..i + 1][..i] == names[..i];
      r, found := StepName(r, found, names[i], Ignored, master, primaryOf);
      i := i + 1;
    }
    TakeAll(names);
  }

  /** find_all_valence_states(solution_names, offset) of GFZ.cpp and POET's InitGetSet.cpp. */
  method FindAllValenceStatesFrom(names: seq<string>, offset: nat, master: seq<string>, primaryOf: string -> Option<string>) returns (r: seq<string>)
    requires offset <= |names| && Resolvable(names[offset..], {}, primaryOf)
    ensures r == WithValencesFrom(names, offset, master, primaryOf)
  {
    var rest := names[offset..];
    r := names[..offset];
    var found: set<string> := {};
    var i := 0;
    while i < |rest|
      invariant 0 <= i <= |rest|
      invariant Resolvable(rest[..i], {}, primaryOf)
      invariant Expansion(r, found) == Expand(Expansion(names[..offset], {}), rest[..i], {}, master, primaryOf)
    {
      assert rest[..i + 1][..i] == rest[..i];
      r, found := StepName(r, found, rest[i], {}, master, primaryOf);
      i := i + 1;
    }
    TakeAll(rest);
  }
}
