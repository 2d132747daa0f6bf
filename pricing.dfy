/** Pricing the shopping list at every store and choosing the cheapest one
    (app.py, calculate_shopping_list, the second loop and the `min`). An item
    costs the price of the first price key, in the store's dictionary order,
    whose lower-cased text contains the item; an item no key contains costs 0. */
module Pricing {
  import opened OrderedDicts
  import opened Labels
  import opened Models

  /** `item in storeKey.lower()`. */
  predicate Matches(item: string, storeKey: string)
  {
    Contains(Lower(storeKey), item)
  }

  /** The price the inner search settles on for `item`. */
  function MatchPrice(item: string, prices: Dict<string, real>): real
  {
    if prices == [] then 0.0
    else if Matches(item, prices[0].0) then prices[0].1
    else MatchPrice(item, prices[1..])
  }

  /** The per-item prices of one store, in shopping-list order. */
  function PricedItems(items: seq<string>, prices: Dict<string, real>): Dict<string, real>
  {
    if items == [] then []
    else
      var last := items[|items| - 1];
      PricedItems(items[..|items| - 1], prices) + [(last, MatchPrice(last, prices))]
  }

  /** The sum of the prices recorded in `items`. */
  function Sum(items: Dict<string, real>): real
  {
    if items == [] then 0.0 else Sum(items[..|items| - 1]) + items[|items| - 1].1
  }

  /** One store's entry in `store_costs`. */
  datatype StoreCost = StoreCost(items: Dict<string, real>, total: real)

  function CostOf(items: seq<string>, prices: Dict<string, real>): StoreCost
  {
    var priced := PricedItems(items, prices);
    StoreCost(priced, Sum(priced))
  }

  /** The (store name, cost) assignments the store loop makes, in order. */
  function CostPairs(items: seq<string>, stores: seq<Store>): seq<(string, StoreCost)>
  {
    if stores == [] then []
    else
      var last := stores[|stores| - 1];
      CostPairs(items, stores[..|stores| - 1]) + [(last.name, CostOf(items, last.prices))]
  }

  /** When the key at `i` is the first whose lower-cased text contains the
      item, the item costs that key's price. */
  lemma {:induction false} MatchPriceFirst(item: string, prices: Dict<string, real>, i: nat)
    requires i < |prices| && Matches(item, prices[i].0)
    requires forall j :: 0 <= j < i ==> !Matches(item, prices[j].0)
    ensures MatchPrice(item, prices) == prices[i].1
  {
    if i > 0 {
      assert !Matches(item, prices[0].0);
      MatchPriceFirst(item, prices[1..], i - 1);
    }
  }

  /** When no key contains the item, the item costs 0. */
  lemma {:induction false} MatchPriceNone(item: string, prices: Dict<string, real>)
    requires forall j :: 0 <= j < |prices| ==> !Matches(item, prices[j].0)
    ensures MatchPrice(item, prices) == 0.0
  {
    if prices != [] {
      assert !Matches(item, prices[0].0);
      MatchPriceNone(item, prices[1..]);
    }
  }

  /** An empty item name is contained in every key, so it costs the price of
      the store's first key. */
  lemma EmptyItemTakesFirstPrice(prices: Dict<string, real>)
    requires |prices| > 0
    ensures MatchPrice([], prices) == prices[0].1
  {
    ContainsEmpty(Lower(prices[0].0));
  }

  /** With no negative price in the store, no item has a negative price. */
  lemma {:induction false} MatchPriceNonNegative(item: string, prices: Dict<string, real>)
    requires forall j :: 0 <= j < |prices| ==> prices[j].1 >= 0.0
    ensures MatchPrice(item, prices) >= 0.0
  {
    if prices != [] && !Matches(item, prices[0].0) {
      MatchPriceNonNegative(item, prices[1..]);
    }
  }

  /** The priced items are the shopping-list items, in order, each with the
      price of its first matching key. */
  lemma {:induction false} PricedItemsSpec(items: seq<string>, prices: Dict<string, real>)
    ensures Keys(PricedItems(items, prices)) == items
    ensures forall i :: 0 <= i < |items| ==> PricedItems(items, prices)[i].1 == MatchPrice(items[i], prices)
  {
    if items != [] {
      var p := items[..|items| - 1];
      PricedItemsSpec(p, prices);
      assert Keys(PricedItems(items, prices)) == Keys(PricedItems(p, prices)) + [items[|items| - 1]];
    }
  }

  /** With no negative price in the store, a store total is not negative. */
  lemma {:induction false} TotalNonNegative(items: seq<string>, prices: Dict<string, real>)
    requires forall j :: 0 <= j < |prices| ==> prices[j].1 >= 0.0
    ensures CostOf(items, prices).total >= 0.0
  {
    if items != [] {
      var p := items[..|items| - 1];
      TotalNonNegative(p, prices);
      MatchPriceNonNegative(items[|items| - 1], prices);
      var priced := PricedItems(items, prices);
      assert priced[..|priced| - 1] == PricedItems(p, prices);
    }
  }

  lemma {:induction false} CostPairsSpec(items: seq<string>, stores: seq<Store>)
    ensures |CostPairs(items, stores)| == |stores|
    ensures forall i :: 0 <= i < |stores| ==>
      CostPairs(items, stores)[i] == (stores[i].name, CostOf(items, stores[i].prices))
  {
    if stores != [] {
      var p := stores[..|stores| - 1];
      CostPairsSpec(items, p);
      var r := CostPairs(items, stores);
      assert r == CostPairs(items, p) + [(stores[|p|].name, CostOf(items, stores[|p|].prices))];
      forall i | 0 <= i < |p| ensures r[i] == (stores[i].name, CostOf(items, stores[i].prices)) {
        assert stores[i] == p[i];
      }
    }
  }

  lemma CostPairsStep(items: seq<string>, stores: seq<Store>, s: nat)
    requires s < |stores|
    ensures FromPairs(CostPairs(items, stores[..s + 1])) ==
      Put(FromPairs(CostPairs(items, stores[..s])), stores[s].name, CostOf(items, stores[s].prices))
  {
    assert stores[..s + 1][..s] == stores[..s];
    var ps := CostPairs(items, stores[..s + 1]);
    assert ps == CostPairs(items, stores[..s]) + [(stores[s].name, CostOf(items, stores[s].prices))];
    assert ps[..|ps| - 1] == CostPairs(items, stores[..s]);
  }

  lemma PricedItemsStep(items: seq<string>, prices: Dict<string, real>, n: nat)
    requires n < |items|
    ensures PricedItems(items[..n + 1], prices) == PricedItems(items[..n], prices) + [(items[n], MatchPrice(items[n], prices))]
  {
    assert items[..n + 1][..n] == items[..n];
  }

  lemma SumSnoc(items: Dict<string, real>, x: (string, real))
    ensures Sum(items + [x]) == Sum(items) + x.1
  {
    assert (items + [x])[..|items|] == items;
  }

  /** The inner loops for one store: each shopping-list item is priced by a
      linear search over the store's keys that stops at the first match, and
      the prices are added up. */
  method PriceStore(items: seq<string>, prices: Dict<string, real>) returns (cost: StoreCost)
    requires Distinct(items)
    ensures cost == CostOf(items, prices)
    ensures Keys(cost.items) == items
    ensures forall i :: 0 <= i < |items| ==> cost.items[i].1 == MatchPrice(items[i], prices)
    ensures cost.total == Sum(cost.items)
  {
    var total := 0.0;
    var priced: Dict<string, real> := [];
    for n := 0 to |items|
      invariant priced == PricedItems(items[..n], prices)
      invariant total == Sum(priced)
    {
      var item := items[n];
      var basePrice := 0.0;
      var m := 0;
      while m < |prices|
        invariant 0 <= m <= |prices|
        invariant MatchPrice(item, prices[m..]) == MatchPrice(item, prices)
        invariant basePrice == 0.0
      {
        if Contains(Lower(prices[m].0), item) {
          basePrice := prices[m].1;
          break;
        }
        assert prices[m..][1..] == prices[m + 1..];
        m := m + 1;
      }
      assert basePrice == MatchPrice(item, prices);
      assert item !in Keys(priced) by {
        PricedItemsSpec(items[..n], prices);
        assert item !in items[..n];
      }
      ghost var before := priced;
      priced := Put(priced, item, basePrice);
      PutNew(before, item, basePrice);
      SumSnoc(before, (item, basePrice));
      total := total + basePrice;
      PricedItemsStep(items, prices, n);
    }
    assert items[..|items|] == items;
    cost := StoreCost(priced, total);
    PricedItemsSpec(items, prices);
  }

  /** The store loop: every store's cost recorded under its name, a later
      store with the same name replacing the value of the earlier one in the
      earlier one's position. */
  method CostStores(items: seq<string>, stores: seq<Store>) returns (costs: Dict<string, StoreCost>)
    requires Distinct(items)
    ensures costs == FromPairs(CostPairs(items, stores))
    ensures Keys(costs) == Dedup(Keys(CostPairs(items, stores)))
    ensures Distinct(Keys(costs))
    ensures forall name :: name in Keys(CostPairs(items, stores)) ==>
      name in Keys(costs) && Get(costs, name) == LastValue(CostPairs(items, stores), name)
  {
    costs := [];
    for s := 0 to |stores|
      invariant costs == FromPairs(CostPairs(items, stores[..s]))
    {
      var cost := PriceStore(items, stores[s].prices);
      costs := Put(costs, stores[s].name, cost);
      CostPairsStep(items, stores, s);
    }
    assert stores[..|stores|] == stores;
    FromPairsSpec(CostPairs(items, stores));
  }

  /** Python's `min` over `store_costs.items()` keyed by total: the first
      entry with the smallest total. */
  function CheapestIndex(costs: Dict<string, StoreCost>): (i: nat)
    requires |costs| > 0
    ensures i < |costs|
    ensures forall j :: 0 <= j < |costs| ==> costs[i].1.total <= costs[j].1.total
    ensures forall j :: 0 <= j < i ==> costs[j].1.total > costs[i].1.total
  {
    if |costs| == 1 then 0
    else
      var best := CheapestIndex(costs[..|costs| - 1]);
      if costs[|costs| - 1].1.total < costs[best].1.total then |costs| - 1 else best
  }

  /** `(name, total)` is what `min(store_costs.items(), key=...)` picks: the
      name of an entry whose total is the smallest, and no earlier entry is as
      cheap. */
  predicate IsCheapest(costs: Dict<string, StoreCost>, name: string, total: real)
  {
    (forall j :: 0 <= j < |costs| ==> total <= costs[j].1.total) &&
    exists i :: 0 <= i < |costs| && costs[i].0 == name && costs[i].1.total == total &&
      forall j :: 0 <= j < i ==> costs[j].1.total > total
  }

  /** The entry `CheapestIndex` selects is the cheapest one. */
  lemma CheapestIndexIsCheapest(costs: Dict<string, StoreCost>)
    requires |costs| > 0
    ensures IsCheapest(costs, costs[CheapestIndex(costs)].0, costs[CheapestIndex(costs)].1.total)
  {
  }

  /** A store totalling 10.00 and one totalling 8.50: the second is chosen. */
  lemma CheaperSecondStore(first: StoreCost, second: StoreCost)
    requires first.total == 10.00 && second.total == 8.50
    ensures CheapestIndex([("S1", first), ("S2", second)]) == 1
  {
  }
}
