// Exchange-name substitution: an exchange name is replaced by the first
// species of the solver's species list that starts with it, and kept when no
// species does. litephreeqc's create_vector_from_phreeqc applies it to the
// cell's exchange elements; POET's subExchangeName applies it to the union of
// the exchange names.

module Species {
  import opened Values
  import Order

  /** The first species whose name starts with `name`, if any. */
  function FirstWithPrefix(species: seq<string>, name: string): Option<string>
  {
    if species == [] then None
    else if Order.StartsWith(species[0], name) then Some(species[0])
    else FirstWithPrefix(species[1..], name)
  }

  /** The species' first match with the prefix, or none when no species has it. */
  lemma {:induction false} FirstWithPrefixFound(species: seq<string>, name: string)
    ensures FirstWithPrefix(species, name).None? <==> forall j :: 0 <= j < |species| ==> !Order.StartsWith(species[j], name)
    ensures FirstWithPrefix(species, name).Some? ==>
      exists k :: 0 <= k < |species| && species[k] == FirstWithPrefix(species, name).value &&
        Order.StartsWith(species[k], name) && forall j :: 0 <= j < k ==> !Order.StartsWith(species[j], name)
  {
    if species != [] && !Order.StartsWith(species[0], name) {
      var tail := species[1..];
      FirstWithPrefixFound(tail, name);
      assert forall j :: 0 < j < |species| ==> species[j] == tail[j - 1];
      var r := FirstWithPrefix(tail, name);
      if r.Some? {
        var k :| 0 <= k < |tail| && tail[k] == r.value && Order.StartsWith(tail[k], name) &&
          forall j :: 0 <= j < k ==> !Order.StartsWith(tail[j], name);
        assert species[k + 1] == r.value;
      }
    }
  }

  /** subExchangeName: the first species that starts with `name`, else `name` itself. */
  function SubExchangeName(species: seq<string>, name: string): string
  {
    match FirstWithPrefix(species, name)
    case None => name
    case Some(s) => s
  }

  /** A prefix of a prefix is a prefix. */
  lemma StartsWithTransitive(t: string, s: string, name: string)
    requires Order.StartsWith(t, s) && Order.StartsWith(s, name)
    ensures Order.StartsWith(t, name)
  {
    assert t[..|name|] == t[..|s|][..|name|];
  }

  /**
   * The result starts with `name`; it is `name` exactly when no species starts
   * with `name`, and otherwise the first species that does.
   */
  lemma SubExchangeNameSpec(species: seq<string>, name: string)
    ensures Order.StartsWith(SubExchangeName(species, name), name)
    ensures (forall j :: 0 <= j < |species| ==> !Order.StartsWith(species[j], name)) ==> SubExchangeName(species, name) == name
    ensures (exists j :: 0 <= j < |species| && Order.StartsWith(species[j], name)) ==>
      exists k :: 0 <= k < |species| && species[k] == SubExchangeName(species, name) &&
        Order.StartsWith(species[k], name) && forall j :: 0 <= j < k ==> !Order.StartsWith(species[j], name)
  {
    FirstWithPrefixFound(species, name);
  }

  /** Substituting twice is substituting once: the first species with the prefix is the first species with itself as prefix. */
  lemma SubExchangeNameIdempotent(species: seq<string>, name: string)
    ensures SubExchangeName(species, SubExchangeName(species, name)) == SubExchangeName(species, name)
  {
    FirstWithPrefixFound(species, name);
    match FirstWithPrefix(species, name)
    case None =>
    case Some(s) =>
      var k :| 0 <= k < |species| && species[k] == s &&
        Order.StartsWith(species[k], name) && forall j :: 0 <= j < k ==> !Order.StartsWith(species[j], name);
      assert Order.StartsWith(species[k], s);
      FirstWithPrefixFound(species, s);
      var t := FirstWithPrefix(species, s).value;
      var k' :| 0 <= k' < |species| && species[k'] == t &&
        Order.StartsWith(species[k'], s) && forall j :: 0 <= j < k' ==> !Order.StartsWith(species[j], s);
      StartsWithTransitive(t, s, name);
      assert k' == k;
  }

  /** The search of the species list for the first name with the exchange name as prefix. */
  method FindSpecies(species: seq<string>, name: string) returns (r: Option<string>)
    ensures r == FirstWithPrefix(species, name)
  {
    var j := 0;
    while j < |species|
      invariant 0 <= j <= |species|
      invariant FirstWithPrefix(species, name) == FirstWithPrefix(species[j..], name)
    {
      assert species[j..][1..] == species[j + 1..];
      if Order.StartsWith(species[j], name) {
        return Some(species[j]);
      }
      j := j + 1;
    }
    return None;
  }

  /** subExchangeName's loop over the species list. */
  method SubExchange(species: seq<string>, name: string) returns (r: string)
    ensures r == SubExchangeName(species, name)
  {
    var found := FindSpecies(species, name);
    r := if found.Some? then found.value else name;
  }
}
