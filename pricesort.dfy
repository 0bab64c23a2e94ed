/**
 * `filtered.sort((a, b) => a.price - b.price)` and its descending twin
 * `filtered.sort((a, b) => b.price - a.price)`. ECMAScript requires `Array.prototype.sort` to
 * be stable, so the outcome is the stable sort of the list by the comparator's key: the price
 * when ascending, its negation when descending.
 */
module PriceSort {
  import opened Catalog

  /** The key the comparator orders by. */
  function Key(v: Vehicle, ascending: bool): real {
    if ascending then v.price else -v.price
  }

  /** Non-decreasing prices when ascending, non-increasing when descending. */
  predicate Sorted(s: seq<Vehicle>, ascending: bool) {
    forall i, j :: 0 <= i < j < |s| ==> Key(s[i], ascending) <= Key(s[j], ascending)
  }

  /** The vehicles of `s` priced at `p`, in the order of `s`. A sort is stable when it leaves
      this list unchanged for every price. */
  function SamePrice(s: seq<Vehicle>, p: real): seq<Vehicle> {
    if s == [] then []
    else SamePrice(s[..|s| - 1], p) + (if s[|s| - 1].price == p then [s[|s| - 1]] else [])
  }

  /** Inserts `x` behind every element whose key does not exceed its own. */
  function Insert(s: seq<Vehicle>, x: Vehicle, ascending: bool): (r: seq<Vehicle>)
    ensures |r| == |s| + 1
  {
    if s == [] || Key(s[|s| - 1], ascending) <= Key(x, ascending) then s + [x]
    else Insert(s[..|s| - 1], x, ascending) + [s[|s| - 1]]
  }

  /** The stable sort by key, as an insertion sort. */
  function SortByKey(s: seq<Vehicle>, ascending: bool): (r: seq<Vehicle>)
    ensures |r| == |s|
  {
    if s == [] then []
    else Insert(SortByKey(s[..|s| - 1], ascending), s[|s| - 1], ascending)
  }

  lemma {:induction false} InsertPermutation(s: seq<Vehicle>, x: Vehicle, ascending: bool)
    ensures multiset(Insert(s, x, ascending)) == multiset(s) + multiset{x}
    decreases |s|
  {
    if s != [] && Key(x, ascending) < Key(s[|s| - 1], ascending) {
      var init, last := s[..|s| - 1], s[|s| - 1];
      assert s == init + [last];
      InsertPermutation(init, x, ascending);
    }
  }

  /** Sorting neither loses nor duplicates a vehicle. */
  lemma {:induction false} SortPermutation(s: seq<Vehicle>, ascending: bool)
    ensures multiset(SortByKey(s, ascending)) == multiset(s)
    decreases |s|
  {
    if s != [] {
      var init := s[..|s| - 1];
      assert s == init + [s[|s| - 1]];
      SortPermutation(init, ascending);
      InsertPermutation(SortByKey(init, ascending), s[|s| - 1], ascending);
    }
  }

  lemma {:induction false} InsertSorted(s: seq<Vehicle>, x: Vehicle, ascending: bool)
    requires Sorted(s, ascending)
    ensures Sorted(Insert(s, x, ascending), ascending)
    ensures forall v :: v in Insert(s, x, ascending) <==> v in s || v == x
    decreases |s|
  {
    if s != [] && Key(x, ascending) < Key(s[|s| - 1], ascending) {
      var init, last := s[..|s| - 1], s[|s| - 1];
      assert s == init + [last];
      InsertSorted(init, x, ascending);
      InsertPermutation(init, x, ascending);
      var r := Insert(s, x, ascending);
      assert r == Insert(init, x, ascending) + [last];
      forall v | v in Insert(init, x, ascending) ensures Key(v, ascending) <= Key(last, ascending) {
        if v != x {
          assert v in init;
        }
      }
    }
  }

  /** Sorting yields a permutation of the list, ordered by price. */
  lemma {:induction false} SortSorted(s: seq<Vehicle>, ascending: bool)
    ensures Sorted(SortByKey(s, ascending), ascending)
    decreases |s|
  {
    if s != [] {
      SortSorted(s[..|s| - 1], ascending);
      InsertSorted(SortByKey(s[..|s| - 1], ascending), s[|s| - 1], ascending);
    }
  }

  lemma SamePriceSnoc(s: seq<Vehicle>, v: Vehicle, p: real)
    ensures SamePrice(s + [v], p) == SamePrice(s, p) + (if v.price == p then [v] else [])
  {
    assert (s + [v])[..|s|] == s;
  }

  lemma {:induction false} InsertSamePrice(s: seq<Vehicle>, x: Vehicle, ascending: bool, p: real)
    requires Sorted(s, ascending)
    ensures SamePrice(Insert(s, x, ascending), p) == SamePrice(s, p) + (if x.price == p then [x] else [])
    decreases |s|
  {
    if s == [] || Key(s[|s| - 1], ascending) <= Key(x, ascending) {
      SamePriceSnoc(s, x, p);
    } else {
      var init, last := s[..|s| - 1], s[|s| - 1];
      assert s == init + [last];
      assert Sorted(init, ascending);
      InsertSamePrice(init, x, ascending, p);
      SamePriceSnoc(Insert(init, x, ascending), last, p);
      SamePriceSnoc(init, last, p);
      // `last` and `x` have different keys, hence different prices: at most one is kept.
      assert last.price != x.price;
    }
  }

  /** The sort is stable: the vehicles sharing a price keep their relative order. */
  lemma {:induction false} SortStable(s: seq<Vehicle>, ascending: bool, p: real)
    ensures SamePrice(SortByKey(s, ascending), p) == SamePrice(s, p)
    decreases |s|
  {
    if s != [] {
      var init := s[..|s| - 1];
      SortStable(init, ascending, p);
      SortSorted(init, ascending);
      InsertSamePrice(SortByKey(init, ascending), s[|s| - 1], ascending, p);
    }
  }

  /** A list already in order is left as it is; in particular sorting twice is sorting once. */
  lemma {:induction false} SortKeepsSorted(s: seq<Vehicle>, ascending: bool)
    requires Sorted(s, ascending)
    ensures SortByKey(s, ascending) == s
    decreases |s|
  {
    if s != [] {
      var init := s[..|s| - 1];
      assert Sorted(init, ascending);
      SortKeepsSorted(init, ascending);
      assert init + [s[|s| - 1]] == s;
    }
  }

  lemma SortIdempotent(s: seq<Vehicle>, ascending: bool)
    ensures SortByKey(SortByKey(s, ascending), ascending) == SortByKey(s, ascending)
  {
    SortSorted(s, ascending);
    SortKeepsSorted(SortByKey(s, ascending), ascending);
  }

  lemma {:induction false} SamePriceMembers(s: seq<Vehicle>, p: real)
    ensures forall v :: v in SamePrice(s, p) ==> v in s && v.price == p
    decreases |s|
  {
    if s != [] {
      SamePriceMembers(s[..|s| - 1], p);
      assert s == s[..|s| - 1] + [s[|s| - 1]];
    }
  }

  lemma LastIsListed(r: seq<Vehicle>)
    requires r != []
    ensures SamePrice(r, r[|r| - 1].price) != []
  {
  }

  lemma LastIsMaximal(r: seq<Vehicle>, ascending: bool, v: Vehicle)
    requires Sorted(r, ascending) && v in r
    ensures Key(v, ascending) <= Key(r[|r| - 1], ascending)
  {
    var k :| 0 <= k < |r| && r[k] == v;
  }

  /** The last vehicles of two sorted lists that agree price by price are the same. */
  lemma LastsAgree(r1: seq<Vehicle>, r2: seq<Vehicle>, ascending: bool)
    requires r1 != [] && r2 != []
    requires Sorted(r1, ascending) && Sorted(r2, ascending)
    requires SamePrice(r1, r1[|r1| - 1].price) == SamePrice(r2, r1[|r1| - 1].price)
    requires SamePrice(r1, r2[|r2| - 1].price) == SamePrice(r2, r2[|r2| - 1].price)
    ensures r1[|r1| - 1] == r2[|r2| - 1]
  {
    var l1, l2 := r1[|r1| - 1], r2[|r2| - 1];
    var s1 := SamePrice(r1, l1.price);
    var s2 := SamePrice(r2, l2.price);
    assert s1 != [] && s1[|s1| - 1] == l1;
    assert s2 != [] && s2[|s2| - 1] == l2;
    assert Key(l2, ascending) <= Key(l1, ascending) by {
      assert s2 == SamePrice(r1, l2.price);
      SamePriceMembers(r1, l2.price);
      LastIsMaximal(r1, ascending, l2);
    }
    assert Key(l1, ascending) <= Key(l2, ascending) by {
      assert s1 == SamePrice(r2, l1.price);
      SamePriceMembers(r2, l1.price);
      LastIsMaximal(r2, ascending, l1);
    }
    assert s1 == s2;
  }

  /** A stable sort has only one possible outcome: two lists ordered by the same key that
      agree, price by price, on the order of the vehicles at that price are the same list. */
  lemma {:induction false} StableSortUnique(r1: seq<Vehicle>, r2: seq<Vehicle>, ascending: bool)
    requires Sorted(r1, ascending) && Sorted(r2, ascending)
    requires forall p :: SamePrice(r1, p) == SamePrice(r2, p)
    ensures r1 == r2
    decreases |r1| + |r2|
  {
    if r1 == [] || r2 == [] {
      if r1 != [] {
        LastIsListed(r1);
        assert false;
      } else if r2 != [] {
        LastIsListed(r2);
        assert false;
      }
    } else {
      var init1, init2, l := r1[..|r1| - 1], r2[..|r2| - 1], r1[|r1| - 1];
      assert SamePrice(r1, r1[|r1| - 1].price) == SamePrice(r2, r1[|r1| - 1].price);
      assert SamePrice(r1, r2[|r2| - 1].price) == SamePrice(r2, r2[|r2| - 1].price);
      LastsAgree(r1, r2, ascending);
      assert r1 == init1 + [l] && r2 == init2 + [l];
      forall p ensures SamePrice(init1, p) == SamePrice(init2, p) {
        SamePriceSnoc(init1, l, p);
        SamePriceSnoc(init2, l, p);
        var a, b := SamePrice(init1, p), SamePrice(init2, p);
        assert a + (if l.price == p then [l] else []) == b + (if l.price == p then [l] else []);
        assert |a| == |b|;
        assert a == (a + (if l.price == p then [l] else []))[..|a|];
        assert b == (b + (if l.price == p then [l] else []))[..|b|];
      }
      StableSortUnique(init1, init2, ascending);
    }
  }

  /** Any stable sort by the comparator's key yields `SortByKey`, whatever algorithm the
      JavaScript engine runs. */
  lemma AnyStableSortIsSortByKey(s: seq<Vehicle>, r: seq<Vehicle>, ascending: bool)
    requires Sorted(r, ascending)
    requires forall p :: SamePrice(r, p) == SamePrice(s, p)
    ensures r == SortByKey(s, ascending)
  {
    SortSorted(s, ascending);
    forall p ensures SamePrice(r, p) == SamePrice(SortByKey(s, ascending), p) {
      SortStable(s, ascending, p);
    }
    StableSortUnique(r, SortByKey(s, ascending), ascending);
  }

  /** Where the inner loop of the in-place sort stops, `Insert` puts `x` as well. */
  lemma {:induction false} InsertAt(s: seq<Vehicle>, x: Vehicle, ascending: bool, j: nat)
    requires j <= |s|
    requires j == 0 || Key(s[j - 1], ascending) <= Key(x, ascending)
    requires forall k :: j <= k < |s| ==> Key(x, ascending) < Key(s[k], ascending)
    ensures Insert(s, x, ascending) == s[..j] + [x] + s[j..]
    decreases |s|
  {
    if j < |s| {
      var init, last := s[..|s| - 1], s[|s| - 1];
      assert Insert(s, x, ascending) == Insert(init, x, ascending) + [last] by {
        assert Key(x, ascending) < Key(last, ascending);
      }
      assert Insert(init, x, ascending) == init[..j] + [x] + init[j..] by {
        assert j == 0 || Key(init[j - 1], ascending) <= Key(x, ascending);
        assert forall k :: j <= k < |init| ==> Key(x, ascending) < Key(init[k], ascending);
        InsertAt(init, x, ascending, j);
      }
      assert init[..j] == s[..j];
      assert init[j..] + [last] == s[j..];
    } else {
      assert s[..j] == s;
    }
  }

  /** One step of the in-place sort: moves `a[i]` left past the elements of `a[..i]` whose key
      is strictly larger than its own. */
  method InsertInPlace(a: array<Vehicle>, i: nat, ascending: bool)
    requires i < a.Length
    modifies a
    ensures a[..i + 1] == Insert(old(a[..i]), old(a[i]), ascending)
    ensures forall k :: i < k < a.Length ==> a[k] == old(a[k])
  {
    ghost var sorted := a[..i];
    var x := a[i];
    var j := i;
    while j > 0 && Key(x, ascending) < Key(a[j - 1], ascending)
      invariant 0 <= j <= i
      invariant forall k :: 0 <= k < j ==> a[k] == sorted[k]
      invariant forall k :: j < k <= i ==> a[k] == sorted[k - 1]
      invariant forall k :: i < k < a.Length ==> a[k] == old(a[k])
      invariant forall k :: j <= k < i ==> Key(x, ascending) < Key(sorted[k], ascending)
    {
      a[j] := a[j - 1];
      j := j - 1;
    }
    a[j] := x;
    InsertAt(sorted, x, ascending, j);
    Spliced(a[..i + 1], sorted, x, j);
  }

  /** The array contents the inner loop leaves: `sorted` with `x` put at position `j`. */
  lemma Spliced(b: seq<Vehicle>, sorted: seq<Vehicle>, x: Vehicle, j: nat)
    requires j <= |sorted| && |b| == |sorted| + 1
    requires forall k :: 0 <= k < j ==> b[k] == sorted[k]
    requires b[j] == x
    requires forall k :: j < k < |b| ==> b[k] == sorted[k - 1]
    ensures b == sorted[..j] + [x] + sorted[j..]
  {
  }

  /** The in-place sort of the working array, `filtered.sort(comparator)`: an insertion sort. */
  method SortInPlace(a: array<Vehicle>, ascending: bool)
    modifies a
    ensures a[..] == SortByKey(old(a[..]), ascending)
  {
    ghost var input := a[..];
    var i := 0;
    while i < a.Length
      invariant 0 <= i <= a.Length
      invariant a[..i] == SortByKey(input[..i], ascending)
      invariant forall k :: i <= k < a.Length ==> a[k] == input[k]
    {
      assert input[..i + 1][..i] == input[..i];
      InsertInPlace(a, i, ascending);
      i := i + 1;
    }
    assert input[..a.Length] == input;
    assert a[..] == a[..a.Length];
  }
}
