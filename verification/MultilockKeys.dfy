/** `NewMultilock`: the keys of a lock object, without repetition and in order. */
module MultilockKeys {
  import opened Common
  import opened Strings
  import opened Multilock

  predicate Distinct(ks: seq<string>) {
    forall i, j | 0 <= i < j < |ks| :: ks[i] != ks[j]
  }

  /** `unique`: the first occurrences, in their order. */
  method Unique(arr: seq<string>) returns (result: seq<string>)
    ensures Distinct(result) && forall k :: k in result <==> k in arr
  {
    if |arr| <= 1 { return arr; }
    var found: map<string, bool> := map[];
    result := [];
    for i := 0 to |arr|
      invariant Distinct(result) && forall k :: k in result <==> k in arr[..i]
      invariant forall k :: k in found <==> k in result
      invariant forall k | k in found :: found[k]
    {
      var v := arr[i];
      assert arr[..i + 1] == arr[..i] + [v];
      if !(v in found && found[v]) {
        found := found[v := true];
        result := result + [v];
      }
    }
    assert arr[..|arr|] == arr;
  }

  /** `sort.Strings` on distinct keys. */
  function Insert(k: string, ks: seq<string>): (r: seq<string>)
    requires Ascending(ks) && k !in ks
    ensures Ascending(r) && forall x :: x in r <==> x == k || x in ks
  {
    if ks == [] then [k]
    else if Less(k, ks[0]) then
      assert forall i | 0 <= i < |ks| :: Less(k, ks[i]) by {
        forall i | 0 <= i < |ks| ensures Less(k, ks[i]) {
          if i > 0 { LessTransitive(k, ks[0], ks[i]); }
        }
      }
      [k] + ks
    else
      LessTotal(k, ks[0]);
      var rest := Insert(k, ks[1..]);
      assert forall i | 0 <= i < |rest| :: rest[i] == k || rest[i] in ks[1..];
      assert forall x | x in ks[1..] :: Less(ks[0], x);
      assert ks == [ks[0]] + ks[1..];
      [ks[0]] + rest
  }

  method SortStrings(ks: seq<string>) returns (r: seq<string>)
    requires Distinct(ks)
    ensures Ascending(r) && forall k :: k in r <==> k in ks
  {
    r := [];
    for i := 0 to |ks|
      invariant Ascending(r) && forall k :: k in r <==> k in ks[..i]
    {
      assert ks[..i + 1] == ks[..i] + [ks[i]];
      assert ks[i] !in ks[..i];
      r := Insert(ks[i], r);
    }
    assert ks[..|ks|] == ks;
  }

  /** A lock object for exactly the given keys, ready to enter the step system. */
  method NewMultilock(locks: seq<string>) returns (keys: Option<seq<string>>)
    ensures keys.None? <==> locks == []
    ensures keys.Some? ==> forall k :: k in keys.value <==> k in locks
    ensures keys.Some? ==> forall s: State, p: Pid | p !in s.procs :: Enabled(s, Create(p, keys.value))
  {
    if |locks| == 0 { return None; }
    assert locks[0] in locks;
    var ks := Unique(locks);
    var sorted := SortStrings(ks);
    return Some(sorted);
  }
}
