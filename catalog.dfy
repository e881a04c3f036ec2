/**
 * Per-side totals of an offer: the value and rap sums and the blacklist flag
 * that the two accumulation loops of the checker compute.
 */
module Catalog {
  import opened Types

  datatype Side = Offering | Requesting

  datatype Totals = Totals(value: int, rap: int, blacklisted: bool)

  /** `item.offer || item.value` on the offering side, `item.request || item.value` on the other. */
  function EntryValue(e: Entry, side: Side): int {
    var override := if side == Offering then e.offer else e.request;
    if override.Some? && override.value != 0 then override.value else e.value
  }

  /** `item.whitelist.offer` or `item.whitelist.request`. */
  predicate Whitelisted(e: Entry, side: Side) {
    if side == Offering then e.whitelist.offer else e.whitelist.request
  }

  /** Every referenced item id has a catalog entry. */
  predicate Known(items: seq<ItemRef>, catalog: map<ItemId, Entry>) {
    forall i | 0 <= i < |items| :: items[i].id in catalog
  }

  /**
   * The accumulators after walking `items` from left to right, starting
   * from zero and a clear flag.
   */
  function Tally(items: seq<ItemRef>, catalog: map<ItemId, Entry>, side: Side): Totals
    requires Known(items, catalog)
  {
    if items == [] then Totals(0, 0, false)
    else
      var t := Tally(items[..|items| - 1], catalog, side);
      var e := catalog[items[|items| - 1].id];
      Totals(t.value + EntryValue(e, side), t.rap + e.rap, t.blacklisted || !Whitelisted(e, side))
  }

  // Reference definitions of the three totals, independent of the walk order.

  function TotalValue(items: seq<ItemRef>, catalog: map<ItemId, Entry>, side: Side): int
    requires Known(items, catalog)
  {
    if items == [] then 0
    else EntryValue(catalog[items[0].id], side) + TotalValue(items[1..], catalog, side)
  }

  function TotalRap(items: seq<ItemRef>, catalog: map<ItemId, Entry>): int
    requires Known(items, catalog)
  {
    if items == [] then 0 else catalog[items[0].id].rap + TotalRap(items[1..], catalog)
  }

  predicate AnyBlacklisted(items: seq<ItemRef>, catalog: map<ItemId, Entry>, side: Side)
    requires Known(items, catalog)
  {
    exists i | 0 <= i < |items| :: !Whitelisted(catalog[items[i].id], side)
  }

  lemma {:induction false} TotalsSnoc(items: seq<ItemRef>, x: ItemRef, catalog: map<ItemId, Entry>, side: Side)
    requires Known(items, catalog) && x.id in catalog
    ensures Known(items + [x], catalog)
    ensures TotalValue(items + [x], catalog, side)
         == TotalValue(items, catalog, side) + EntryValue(catalog[x.id], side)
    ensures TotalRap(items + [x], catalog) == TotalRap(items, catalog) + catalog[x.id].rap
  {
    assert forall i | 0 <= i < |items + [x]| :: (items + [x])[i] == if i < |items| then items[i] else x;
    if items != [] {
      assert (items + [x])[1..] == items[1..] + [x];
      TotalsSnoc(items[1..], x, catalog, side);
    }
  }

  /** The left-to-right walk computes exactly the reference totals. */
  lemma {:induction false} TallyMeaning(items: seq<ItemRef>, catalog: map<ItemId, Entry>, side: Side)
    requires Known(items, catalog)
    ensures Tally(items, catalog, side)
         == Totals(TotalValue(items, catalog, side), TotalRap(items, catalog), AnyBlacklisted(items, catalog, side))
  {
    if items != [] {
      var init, x := items[..|items| - 1], items[|items| - 1];
      assert items == init + [x];
      TallyMeaning(init, catalog, side);
      TotalsSnoc(init, x, catalog, side);
      if AnyBlacklisted(items, catalog, side) {
        var i :| 0 <= i < |items| && !Whitelisted(catalog[items[i].id], side);
        if i < |init| {
          assert init[i] == items[i];
        }
      }
    }
  }

  /** The totals read only the catalog ids of the items, never their uaids. */
  lemma {:induction false} TallyIgnoresUaids(items: seq<ItemRef>, others: seq<ItemRef>, catalog: map<ItemId, Entry>, side: Side)
    requires Known(items, catalog)
    requires |others| == |items| && forall i | 0 <= i < |items| :: others[i].id == items[i].id
    ensures Known(others, catalog)
    ensures Tally(others, catalog, side) == Tally(items, catalog, side)
  {
    if items != [] {
      TallyIgnoresUaids(items[..|items| - 1], others[..|others| - 1], catalog, side);
    }
  }

  /**
   * One accumulation loop of the checker: walks the items, looks each one up
   * (a missing entry is a fault), sets the flag on a non-whitelisted item and
   * adds its value and rap.
   */
  method Accumulate(items: seq<ItemRef>, catalog: map<ItemId, Entry>, side: Side) returns (r: Result<Totals>)
    ensures r.Ok? <==> Known(items, catalog)
    ensures r.Ok? ==> r.value == Tally(items, catalog, side)
    ensures r.Err? ==> r.fault == UnknownItem
  {
    var value, rap, blacklisted := 0, 0, false;
    var i := 0;
    while i < |items|
      invariant 0 <= i <= |items|
      invariant Known(items[..i], catalog)
      invariant Tally(items[..i], catalog, side) == Totals(value, rap, blacklisted)
    {
      if items[i].id !in catalog {
        return Err(UnknownItem);
      }
      var item := catalog[items[i].id];
      if !Whitelisted(item, side) {
        blacklisted := true;
      }
      value := value + EntryValue(item, side);
      rap := rap + item.rap;
      assert items[..i + 1][..i] == items[..i];
      i := i + 1;
    }
    assert items[..i] == items;
    r := Ok(Totals(value, rap, blacklisted));
  }
}
