/**
 * The two narrowing steps of `applyFilters`: the exact colour match and the case-insensitive
 * search over name, type and colour. Each is an `Array.prototype.filter` with a pure
 * callback, written here once as `Keep` over a first-order description of the callback.
 */
module Filters {
  import opened Seqs
  import opened JsStrings
  import opened Catalog

  /** The callback handed to `filter`. A search term is already lower-cased and trimmed. */
  datatype Criterion = ColorIs(selected: string) | Mentions(term: string)

  /** `d.name.toLowerCase().includes(term)`, and the same for `type` and `color`, each of the
      latter two only when non-empty. The empty term occurs in every name. */
  predicate MentionsTerm(v: Vehicle, term: string)
    ensures term == "" ==> MentionsTerm(v, term)
  {
    || Contains(ToLower(v.name), term)
    || (v.vehicleType != "" && Contains(ToLower(v.vehicleType), term))
    || (v.color != "" && Contains(ToLower(v.color), term))
  }

  predicate Matches(v: Vehicle, c: Criterion) {
    match c
    case ColorIs(selected) => v.color == selected
    case Mentions(term) => MentionsTerm(v, term)
  }

  /** `s.filter(d => Matches(d, c))` */
  function Keep(s: seq<Vehicle>, c: Criterion): (r: seq<Vehicle>)
    ensures |r| <= |s|
  {
    if s == [] then [] else (if Matches(s[0], c) then [s[0]] else []) + Keep(s[1..], c)
  }

  /** `Keep` returns exactly the matching elements, each as often as in `s`, in the order of `s`. */
  lemma {:induction false} KeepExact(s: seq<Vehicle>, c: Criterion)
    ensures IsSubsequence(Keep(s, c), s)
    ensures forall v :: multiset(Keep(s, c))[v] == if Matches(v, c) then multiset(s)[v] else 0
    decreases |s|
  {
    if s != [] {
      KeepExact(s[1..], c);
      var r := Keep(s, c);
      assert s == [s[0]] + s[1..];
      if Matches(s[0], c) {
        assert r == [s[0]] + Keep(s[1..], c);
        assert r[0] == s[0] && r[1..] == Keep(s[1..], c);
      } else {
        assert r == Keep(s[1..], c);
      }
    }
  }

  lemma KeepMembers(s: seq<Vehicle>, c: Criterion)
    ensures forall v :: v in Keep(s, c) <==> v in s && Matches(v, c)
  {
    KeepExact(s, c);
    forall v ensures v in Keep(s, c) <==> v in s && Matches(v, c) {
      assert v in Keep(s, c) <==> multiset(Keep(s, c))[v] > 0;
      assert v in s <==> multiset(s)[v] > 0;
    }
  }

  /** Every element the filter keeps passes the callback. */
  lemma KeepMatches(s: seq<Vehicle>, c: Criterion)
    ensures forall i :: 0 <= i < |Keep(s, c)| ==> Matches(Keep(s, c)[i], c)
  {
    KeepMembers(s, c);
  }

  /** A list whose every element matches passes through unchanged. */
  lemma {:induction false} KeepAll(s: seq<Vehicle>, c: Criterion)
    requires forall i :: 0 <= i < |s| ==> Matches(s[i], c)
    ensures Keep(s, c) == s
    decreases |s|
  {
    if s != [] {
      KeepAll(s[1..], c);
    }
  }

  /** Filtering twice with the same callback is filtering once. */
  lemma KeepIdempotent(s: seq<Vehicle>, c: Criterion)
    ensures Keep(Keep(s, c), c) == Keep(s, c)
  {
    KeepMatches(s, c);
    KeepAll(Keep(s, c), c);
  }

  /** The colour and the search filters are independent: their order does not matter. */
  lemma {:induction false} KeepCommutes(s: seq<Vehicle>, a: Criterion, b: Criterion)
    ensures Keep(Keep(s, a), b) == Keep(Keep(s, b), a)
    decreases |s|
  {
    if s != [] {
      KeepCommutes(s[1..], a, b);
      var x := s[0];
      KeepConcat(if Matches(x, a) then [x] else [], Keep(s[1..], a), b);
      KeepConcat(if Matches(x, b) then [x] else [], Keep(s[1..], b), a);
    }
  }

  lemma {:induction false} KeepConcat(s: seq<Vehicle>, t: seq<Vehicle>, c: Criterion)
    ensures Keep(s + t, c) == Keep(s, c) + Keep(t, c)
    decreases |s|
  {
    if s == [] {
      assert s + t == t;
    } else {
      var head := if Matches(s[0], c) then [s[0]] else [];
      assert (s + t)[0] == s[0] && (s + t)[1..] == s[1..] + t;
      KeepConcat(s[1..], t, c);
      assert Keep(s + t, c) == head + (Keep(s[1..], c) + Keep(t, c));
    }
  }
}
