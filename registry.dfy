/**
 * The candidate registry of an election: `{candidate.name: candidate}` built from
 * the constructor's list, looked up by name when a ballot is added, and scanned in
 * key order for the candidates still standing.
 */
module Registry {
  import opened Wrappers

  /** The exceptions the engine lets escape. */
  datatype Error =
    | KeyError(name: string)  // a ballot names a candidate that is not registered
    | IndexError              // `rankings[0]` of an empty ballot, read by the tie-break

  predicate Distinct<T(==)>(s: seq<T>)
  {
    forall i, j :: 0 <= i < j < |s| ==> s[i] != s[j]
  }

  /**
   * The keys of a dict built from `names` in order: a repeated name keeps the
   * position of its first occurrence.
   */
  function Dedup(names: seq<string>): (keys: seq<string>)
    ensures Distinct(keys)
    ensures forall x :: x in keys <==> x in names
    ensures |keys| <= |names|
    ensures Distinct(names) ==> keys == names
  {
    if names == [] then []
    else
      var init := names[..|names| - 1];
      var last := names[|names| - 1];
      assert names == init + [last];
      var keys := Dedup(init);
      assert Distinct(names) ==> Distinct(init) && last !in init;
      if last in keys then keys else keys + [last]
  }

  /** Position of a registered name (its first occurrence, by `IndexOfFirst`). */
  function IndexOf(names: seq<string>, x: string): (i: nat)
    requires x in names
    ensures i < |names| && names[i] == x
  {
    if names[0] == x then 0 else 1 + IndexOf(names[1..], x)
  }

  /** `IndexOf` finds the first occurrence: no earlier position holds the name. */
  lemma {:induction false} IndexOfFirst(names: seq<string>, x: string)
    requires x in names
    ensures x !in names[..IndexOf(names, x)]
  {
    if names[0] != x {
      IndexOfFirst(names[1..], x);
      assert names[..IndexOf(names, x)] == [names[0]] + names[1..][..IndexOf(names[1..], x)];
    }
  }

  /** Appending a name does not move the first occurrence of an earlier one. */
  lemma {:induction false} IndexOfAppend(names: seq<string>, y: string, x: string)
    requires x in names
    ensures IndexOf(names + [y], x) == IndexOf(names, x)
  {
    if names[0] != x {
      assert (names + [y])[1..] == names[1..] + [y];
      IndexOfAppend(names[1..], y, x);
    }
  }

  /**
   * The registry keeps first-occurrence order: of two keys, the one that comes
   * first is the one whose name first appears earlier in the constructor's list.
   * With `Distinct` and the membership clause of `Dedup` this fixes the keys.
   */
  lemma {:induction false} DedupFirstOccurrence(names: seq<string>)
    ensures forall i, j :: 0 <= i < j < |Dedup(names)| ==>
              IndexOf(names, Dedup(names)[i]) < IndexOf(names, Dedup(names)[j])
  {
    if names != [] {
      var init := names[..|names| - 1];
      var last := names[|names| - 1];
      assert names == init + [last];
      var keys := Dedup(init);
      DedupFirstOccurrence(init);
      forall x | x in keys ensures IndexOf(names, x) == IndexOf(init, x) < |init| {
        IndexOfAppend(init, last, x);
      }
      if last !in keys {
        IndexOfFirst(names, last);
        assert IndexOf(names, last) == |init|;
        assert Dedup(names) == keys + [last];
      }
    }
  }

  /**
   * `[registry[name] for name in ranking]`: every name is looked up in order, and
   * the first one that is not registered raises `KeyError`.
   */
  function Resolve(names: seq<string>, ranking: seq<string>): (r: Result<seq<nat>, Error>)
    ensures r.Ok? <==> forall i :: 0 <= i < |ranking| ==> ranking[i] in names
    ensures r.Ok? ==> |r.value| == |ranking|
    ensures r.Ok? ==> forall i :: 0 <= i < |ranking| ==> r.value[i] < |names| && names[r.value[i]] == ranking[i]
    ensures r.Err? ==> exists i :: (0 <= i < |ranking| && r.error == KeyError(ranking[i]) &&
                                    ranking[i] !in names && forall j :: 0 <= j < i ==> ranking[j] in names)
  {
    if ranking == [] then Ok([])
    else if ranking[0] !in names then Err(KeyError(ranking[0]))
    else
      match Resolve(names, ranking[1..])
      case Ok(rest) =>
        var r := [IndexOf(names, ranking[0])] + rest;
        assert forall i :: 1 <= i < |ranking| ==> r[i] == rest[i - 1] && ranking[i] == ranking[1..][i - 1];
        Ok(r)
      case Err(e) =>
        assert forall i :: 1 <= i < |ranking| ==> ranking[i] == ranking[1..][i - 1];
        var i :| 0 <= i < |ranking[1..]| && e == KeyError(ranking[1..][i]) &&
          ranking[1..][i] !in names && forall j :: 0 <= j < i ==> ranking[1..][j] in names;
        assert e == KeyError(ranking[i + 1]) && ranking[i + 1] !in names;
        Err(e)
  }

  /** Resolving a ballot and reading the names back gives the ballot. */
  lemma ResolveRoundTrip(names: seq<string>, ranking: seq<string>)
    requires Resolve(names, ranking).Ok?
    ensures NamesOf(names, Resolve(names, ranking).value) == ranking
  {
  }

  /**
   * On a registry without repeated names a ballot resolves to exactly the
   * positions that hold its names.
   */
  lemma ResolveDistinct(names: seq<string>, ranking: seq<string>, ids: seq<nat>)
    requires Distinct(names) && |ids| == |ranking|
    requires forall i :: 0 <= i < |ids| ==> ids[i] < |names| && names[ids[i]] == ranking[i]
    ensures Resolve(names, ranking) == Ok(ids)
  {
    var r := Resolve(names, ranking);
    assert r.Ok? by {
      forall i | 0 <= i < |ranking| ensures ranking[i] in names {
        assert names[ids[i]] == ranking[i];
      }
    }
    forall i | 0 <= i < |ids| ensures r.value[i] == ids[i] {
      assert names[r.value[i]] == names[ids[i]];
    }
    assert r.value == ids;
  }

  /** Unregistered names, and only those, make a ballot fail. */
  lemma ResolveFailsOnUnknown(names: seq<string>, ranking: seq<string>, i: nat)
    requires i < |ranking| && ranking[i] !in names
    ensures Resolve(names, ranking).Err?
    ensures Resolve(names, ranking).error.name !in names
  {
  }

  /** The names of registry entries, in the given order. */
  function NamesOf(names: seq<string>, ids: seq<nat>): seq<string>
    requires forall i :: 0 <= i < |ids| ==> ids[i] < |names|
  {
    seq(|ids|, i requires 0 <= i < |ids| => names[ids[i]])
  }

  /** Python's `sep.join(parts)`. */
  function Join(parts: seq<string>, sep: string): string
  {
    if parts == [] then ""
    else if |parts| == 1 then parts[0]
    else parts[0] + sep + Join(parts[1..], sep)
  }

  /** `[c for c in registry.values() if not c.eliminated]`, as indices in registry order. */
  function Remaining(eliminated: seq<bool>): (active: seq<nat>)
    ensures forall c: nat :: c in active <==> c < |eliminated| && !eliminated[c]
    ensures forall i, j :: 0 <= i < j < |active| ==> active[i] < active[j]
  {
    if eliminated == [] then []
    else
      var n := |eliminated| - 1;
      var init := Remaining(eliminated[..n]);
      assert forall i :: 0 <= i < |init| ==> init[i] in init && init[i] < n;
      if eliminated[n] then init else init + [n]
  }

  /** The flags after `eliminate_candidates(losers)`: each loser's flag is set, no other flag changes. */
  function EliminateAll(eliminated: seq<bool>, losers: seq<nat>): seq<bool>
  {
    seq(|eliminated|, c requires 0 <= c < |eliminated| => eliminated[c] || c in losers)
  }
}
