/**
 * The statistics block under the vehicle grid: `counts[v.type] = (counts[v.type] || 0) + 1`
 * for every vehicle of the snapshot. A JavaScript object lists its (non-numeric) keys in the
 * order they were first assigned, so the tally keeps that order next to the map.
 */
module TypeStats {
  import opened Optional
  import opened Catalog

  /** Some vehicle among the first `n` of `s` has type `t`. */
  ghost predicate HasType(s: seq<Vehicle>, n: nat, t: string)
    requires n <= |s|
  {
    exists i :: 0 <= i < n && s[i].vehicleType == t
  }

  lemma HasTypeStep(s: seq<Vehicle>, n: nat, t: string)
    requires 0 < n <= |s|
    ensures HasType(s, n, t) <==> HasType(s, n - 1, t) || s[n - 1].vehicleType == t
  {
    if s[n - 1].vehicleType == t {
      assert HasType(s, n, t);
    }
  }

  /** How many of the first `n` vehicles of `s` have type `t`. */
  function Occurrences(s: seq<Vehicle>, n: nat, t: string): (c: nat)
    requires n <= |s|
    ensures c <= n
    ensures c > 0 <==> HasType(s, n, t)
  {
    if n == 0 then 0
    else
      HasTypeStep(s, n, t);
      Occurrences(s, n - 1, t) + (if s[n - 1].vehicleType == t then 1 else 0)
  }

  predicate Distinct(keys: seq<string>) {
    forall i, j :: 0 <= i < j < |keys| ==> keys[i] != keys[j]
  }

  /** The types of the first `n` vehicles of `s`, each once, in the order of their first
      appearance. */
  function TypesInOrder(s: seq<Vehicle>, n: nat): (r: seq<string>)
    requires n <= |s|
    ensures Distinct(r)
    ensures forall t :: t in r <==> HasType(s, n, t)
  {
    if n == 0 then []
    else
      var init := TypesInOrder(s, n - 1);
      var t := s[n - 1].vehicleType;
      assert forall u :: HasType(s, n, u) <==> HasType(s, n - 1, u) || t == u by {
        forall u ensures HasType(s, n, u) <==> HasType(s, n - 1, u) || t == u {
          HasTypeStep(s, n, u);
        }
      }
      if t in init then init else init + [t]
  }

  /** The sum of the counts listed under `keys`. */
  function Total(keys: seq<string>, counts: map<string, nat>): nat
    requires forall k :: k in keys ==> k in counts
  {
    if keys == [] then 0 else Total(keys[..|keys| - 1], counts) + counts[keys[|keys| - 1]]
  }

  /** The counts object and the order of its keys. */
  datatype TypeTally = TypeTally(types: seq<string>, counts: map<string, nat>)

  /** Raising the count of a listed key raises the total by one. */
  lemma {:induction false} TotalBump(keys: seq<string>, counts: map<string, nat>, t: string)
    requires Distinct(keys) && t in keys
    requires forall k :: k in keys ==> k in counts
    ensures Total(keys, counts[t := counts[t] + 1]) == Total(keys, counts) + 1
    decreases |keys|
  {
    var init, last := keys[..|keys| - 1], keys[|keys| - 1];
    if last == t {
      assert t !in init;
      TotalIgnores(init, counts, t, counts[t] + 1);
    } else {
      assert t in init;
      TotalBump(init, counts, t);
    }
  }

  /** Setting the count of an unlisted key leaves the total alone. */
  lemma {:induction false} TotalIgnores(keys: seq<string>, counts: map<string, nat>, t: string, n: nat)
    requires t !in keys
    requires forall k :: k in keys ==> k in counts
    ensures Total(keys, counts[t := n]) == Total(keys, counts)
    decreases |keys|
  {
    if keys != [] {
      TotalIgnores(keys[..|keys| - 1], counts, t, n);
    }
  }

  /** `types` and `counts` are the tally of the first `n` vehicles of `s`: every type that
      occurs has a key, listed in order of first appearance; each count is that type's number
      of occurrences; the counts add up to the number of vehicles. */
  ghost predicate Counted(s: seq<Vehicle>, n: nat, types: seq<string>, counts: map<string, nat>)
    requires n <= |s|
  {
    && types == TypesInOrder(s, n)
    && (forall t :: t in counts <==> t in types)
    && (forall t :: t in counts ==> counts[t] == Occurrences(s, n, t))
    && Total(types, counts) == n
  }

  /** One turn of the counting loop for a type already seen: `counts[t] = counts[t] + 1`, and
      the key order stays. */
  lemma CountSeen(data: seq<Vehicle>, i: nat, types: seq<string>, counts: map<string, nat>)
    requires i < |data| && Counted(data, i, types, counts)
    requires data[i].vehicleType in counts
    ensures Counted(data, i + 1, types, counts[data[i].vehicleType := counts[data[i].vehicleType] + 1])
  {
    var t := data[i].vehicleType;
    TotalBump(types, counts, t);
  }

  /** One turn of the counting loop for a new type: `counts[t] = (undefined || 0) + 1`, and `t`
      becomes the last key. */
  lemma CountNew(data: seq<Vehicle>, i: nat, types: seq<string>, counts: map<string, nat>)
    requires i < |data| && Counted(data, i, types, counts)
    requires data[i].vehicleType !in counts
    ensures Counted(data, i + 1, types + [data[i].vehicleType], counts[data[i].vehicleType := 1])
  {
    var t := data[i].vehicleType;
    TotalIgnores(types, counts, t, 1);
    assert Total(types + [t], counts[t := 1]) == Total(types, counts[t := 1]) + 1 by {
      assert (types + [t])[..|types|] == types;
    }
  }

  /** The counting loop: one pass over the snapshot. */
  method CountByType(data: seq<Vehicle>) returns (tally: TypeTally)
    ensures Counted(data, |data|, tally.types, tally.counts)
  {
    var types: seq<string> := [];
    var counts: map<string, nat> := map[];
    for i := 0 to |data|
      invariant Counted(data, i, types, counts)
    {
      var t := data[i].vehicleType;
      if t in counts {
        CountSeen(data, i, types, counts);
        counts := counts[t := counts[t] + 1];
      } else {
        CountNew(data, i, types, counts);
        counts := counts[t := 1];
        types := types + [t];
      }
    }
    tally := TypeTally(types, counts);
  }

  /** The block is skipped for an empty snapshot (`data.length` is falsy); otherwise it shows
      the tally. */
  method Stats(data: seq<Vehicle>) returns (shown: Option<TypeTally>)
    ensures shown.None? <==> data == []
    ensures shown.Some? ==> Counted(data, |data|, shown.value.types, shown.value.counts)
  {
    if |data| == 0 {
      shown := None;
    } else {
      var tally := CountByType(data);
      shown := Some(tally);
    }
  }

  /** Every normalised vehicle has type "Car", so the statistics list that one type, counted
      once per vehicle. */
  lemma {:induction false} OneTypeOnly(data: seq<Vehicle>, n: nat)
    requires 0 < n <= |data|
    requires forall i :: 0 <= i < n ==> data[i].vehicleType == VehicleType
    ensures TypesInOrder(data, n) == [VehicleType]
    ensures Occurrences(data, n, VehicleType) == n
  {
    if n > 1 {
      OneTypeOnly(data, n - 1);
    }
  }
}
