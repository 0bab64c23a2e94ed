/**
 * The vehicle grid of `loadVehicleList`: the snapshot `data`, the view `applyFilters` derives
 * from it under the current colour, search and sort controls, and what `render` paints.
 */
module VehicleGrid {
  import opened Seqs
  import opened JsStrings
  import opened Catalog
  import opened Filters
  import opened PriceSort

  /** The values of the colour select, the search box and the sort select. A control missing
      from the page reads as the empty string, which switches its step off. */
  datatype Controls = Controls(color: string, search: string, sortBy: string)

  const SortAscending := "price-asc"
  const SortDescending := "price-desc"

  /** The colour step: exact matches only, when a colour is selected. */
  function ColorStep(s: seq<Vehicle>, ctl: Controls): (r: seq<Vehicle>)
    ensures |r| <= |s|
    ensures forall i :: 0 <= i < |r| ==> ctl.color == "" || r[i].color == ctl.color
  {
    if ctl.color != "" then
      KeepMatches(s, ColorIs(ctl.color));
      Keep(s, ColorIs(ctl.color))
    else s
  }

  /** The search step: runs when the trimmed input is not blank, with the lower-cased trimmed
      input as its term. */
  function SearchStep(s: seq<Vehicle>, ctl: Controls): (r: seq<Vehicle>)
    ensures |r| <= |s|
    ensures AllSpace(ctl.search) ==> r == s
  {
    if Trim(ctl.search) != "" then Keep(s, Mentions(Trim(ToLower(ctl.search)))) else s
  }

  function Filtered(data: seq<Vehicle>, ctl: Controls): seq<Vehicle> {
    SearchStep(ColorStep(data, ctl), ctl)
  }

  /** The list `applyFilters` hands to `render`. */
  function View(data: seq<Vehicle>, ctl: Controls): (r: seq<Vehicle>)
    ensures |r| <= |data|
  {
    var f := Filtered(data, ctl);
    if ctl.sortBy == SortAscending then SortByKey(f, true)
    else if ctl.sortBy == SortDescending then SortByKey(f, false)
    else f
  }

  /** A vehicle passes both filters. */
  predicate Selected(v: Vehicle, ctl: Controls) {
    && (ctl.color == "" || v.color == ctl.color)
    && (Trim(ctl.search) == "" || MentionsTerm(v, Trim(ToLower(ctl.search))))
  }

  /** One grid card: the fields `render` reads, with the daily rate rounded for display. */
  datatype Card = Card(id: int, name: string, vehicleType: string, color: string, dailyRate: int, image: string)

  /** What `render` puts into the grid: the "No vehicles found." notice or one card per vehicle. */
  datatype Grid = NoVehiclesFound | Cards(cards: seq<Card>)

  function CardOf(v: Vehicle): Card {
    Card(v.id, v.name, v.vehicleType, v.color, Round(v.price), v.image)
  }

  function Render(list: seq<Vehicle>): (g: Grid)
    ensures g.NoVehiclesFound? <==> list == []
    ensures g.Cards? ==> |g.cards| == |list|
    ensures g.Cards? ==> forall i :: 0 <= i < |list| ==>
      && g.cards[i].id == list[i].id && g.cards[i].name == list[i].name
      && g.cards[i].vehicleType == list[i].vehicleType && g.cards[i].color == list[i].color
      && g.cards[i].image == list[i].image
      && g.cards[i].dailyRate as real - 0.5 <= list[i].price < g.cards[i].dailyRate as real + 0.5
  {
    if list == [] then NoVehiclesFound
    else Cards(seq(|list|, i requires 0 <= i < |list| => CardOf(list[i])))
  }

  /** The grid is sorted on the unrounded price; rounding for display keeps that order
      (near-equal prices may show the same rate). */
  lemma RenderKeepsOrder(list: seq<Vehicle>, ascending: bool)
    requires Sorted(list, ascending)
    ensures Render(list).Cards? ==> forall i, j :: 0 <= i < j < |list| ==>
      if ascending then Render(list).cards[i].dailyRate <= Render(list).cards[j].dailyRate
      else Render(list).cards[i].dailyRate >= Render(list).cards[j].dailyRate
  {
    if list != [] {
      var cards := Render(list).cards;
      forall i, j | 0 <= i < j < |list|
        ensures if ascending then cards[i].dailyRate <= cards[j].dailyRate
                else cards[i].dailyRate >= cards[j].dailyRate
      {
        assert Key(list[i], ascending) <= Key(list[j], ascending);
      }
    }
  }

  /** Makes a fresh array holding `s`: the result of `[...data]` or of a `filter` call. */
  method ArrayOf(s: seq<Vehicle>) returns (a: array<Vehicle>)
    ensures fresh(a) && a[..] == s
  {
    a := new Vehicle[|s|](i requires 0 <= i < |s| => s[i]);
  }

  /** `applyFilters()`: copies the snapshot, narrows the copy by colour and then by search
      term, sorts it in place when a price order is selected, and renders it. It has no
      `modifies` clause: the snapshot `data` is left as it was. */
  method ApplyFilters(data: array<Vehicle>, ctl: Controls) returns (grid: Grid)
    ensures grid == Render(View(data[..], ctl))
  {
    ghost var snapshot := data[..];
    var filtered := ArrayOf(data[..]);
    if ctl.color != "" {
      filtered := ArrayOf(Keep(filtered[..], ColorIs(ctl.color)));
    }
    assert filtered[..] == ColorStep(snapshot, ctl);
    if Trim(ctl.search) != "" {
      var term := Trim(ToLower(ctl.search));
      filtered := ArrayOf(Keep(filtered[..], Mentions(term)));
    }
    assert filtered[..] == Filtered(snapshot, ctl);
    assert filtered != data && data[..] == snapshot;
    if ctl.sortBy == SortAscending {
      SortInPlace(filtered, true);
    } else if ctl.sortBy == SortDescending {
      SortInPlace(filtered, false);
    }
    assert filtered[..] == View(snapshot, ctl);
    assert data[..] == snapshot;
    grid := Render(filtered[..]);
  }

  /** The view holds exactly the snapshot's vehicles that pass both filters, each as often as
      in the snapshot. */
  lemma ViewSelects(data: seq<Vehicle>, ctl: Controls)
    ensures forall v :: multiset(View(data, ctl))[v] == if Selected(v, ctl) then multiset(data)[v] else 0
  {
    var c := ColorStep(data, ctl);
    var f := Filtered(data, ctl);
    if ctl.color != "" {
      KeepExact(data, ColorIs(ctl.color));
    }
    if Trim(ctl.search) != "" {
      KeepExact(c, Mentions(Trim(ToLower(ctl.search))));
    }
    if ctl.sortBy == SortAscending {
      SortPermutation(f, true);
    } else if ctl.sortBy == SortDescending {
      SortPermutation(f, false);
    }
  }

  lemma ViewMembers(data: seq<Vehicle>, ctl: Controls)
    ensures forall v :: v in View(data, ctl) <==> v in data && Selected(v, ctl)
  {
    ViewSelects(data, ctl);
    forall v ensures v in View(data, ctl) <==> v in data && Selected(v, ctl) {
      assert v in View(data, ctl) <==> multiset(View(data, ctl))[v] > 0;
      assert v in data <==> multiset(data)[v] > 0;
    }
  }

  /** Before sorting, the filters keep the snapshot's order. */
  lemma FilteredIsSubsequence(data: seq<Vehicle>, ctl: Controls)
    ensures IsSubsequence(Filtered(data, ctl), data)
  {
    var c := ColorStep(data, ctl);
    if ctl.color != "" {
      KeepExact(data, ColorIs(ctl.color));
    } else {
      SubsequenceReflexive(data);
    }
    if Trim(ctl.search) != "" {
      KeepExact(c, Mentions(Trim(ToLower(ctl.search))));
    } else {
      SubsequenceReflexive(c);
    }
    SubsequenceTransitive(Filtered(data, ctl), c, data);
  }

  /** The order of the view: by ascending or descending price when one is selected, and the
      snapshot's own order for any other value of the sort control. */
  lemma ViewOrder(data: seq<Vehicle>, ctl: Controls)
    ensures ctl.sortBy == SortAscending ==> Sorted(View(data, ctl), true)
    ensures ctl.sortBy == SortDescending ==> Sorted(View(data, ctl), false)
    ensures ctl.sortBy != SortAscending && ctl.sortBy != SortDescending ==>
      IsSubsequence(View(data, ctl), data)
  {
    if ctl.sortBy == SortAscending {
      SortSorted(Filtered(data, ctl), true);
    } else if ctl.sortBy == SortDescending {
      SortSorted(Filtered(data, ctl), false);
    } else {
      FilteredIsSubsequence(data, ctl);
    }
  }

  /** Sorting is stable: vehicles of equal price appear in the view in the order the filters
      left them, which is the snapshot's order. */
  lemma ViewStable(data: seq<Vehicle>, ctl: Controls, p: real)
    ensures SamePrice(View(data, ctl), p) == SamePrice(Filtered(data, ctl), p)
  {
    if ctl.sortBy == SortAscending {
      SortStable(Filtered(data, ctl), true, p);
    } else if ctl.sortBy == SortDescending {
      SortStable(Filtered(data, ctl), false, p);
    }
  }

  /** Applying the same controls to the view they produced changes nothing. */
  lemma ViewIdempotent(data: seq<Vehicle>, ctl: Controls)
    ensures View(View(data, ctl), ctl) == View(data, ctl)
  {
    var w := View(data, ctl);
    ViewMembers(data, ctl);
    assert forall i :: 0 <= i < |w| ==> Selected(w[i], ctl) by {
      forall i | 0 <= i < |w| ensures Selected(w[i], ctl) {
        assert w[i] in w;
      }
    }
    if ctl.color != "" {
      KeepAll(w, ColorIs(ctl.color));
    }
    if Trim(ctl.search) != "" {
      KeepAll(w, Mentions(Trim(ToLower(ctl.search))));
    }
    assert Filtered(w, ctl) == w;
    if ctl.sortBy == SortAscending {
      ViewOrder(data, ctl);
      SortKeepsSorted(w, true);
    } else if ctl.sortBy == SortDescending {
      ViewOrder(data, ctl);
      SortKeepsSorted(w, false);
    }
  }

  /** With no colour selected, a blank or white-space-only search and no price order, the view
      is the snapshot itself; this is also what the first `render(data)` shows. */
  lemma BlankControlsShowAll(data: seq<Vehicle>, ctl: Controls)
    requires ctl.color == "" && AllSpace(ctl.search)
    requires ctl.sortBy != SortAscending && ctl.sortBy != SortDescending
    ensures View(data, ctl) == data
  {
  }
}
