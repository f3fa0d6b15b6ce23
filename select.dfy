/**
 * `min(flights, key=lambda x: x["price"])` (main.py): Python's `min` scans
 * left to right and replaces its candidate only on a strictly smaller key,
 * so it returns the first option of least price.
 */
module Select {
  import opened Grid

  /** `k` is the first position holding the least price. */
  predicate IsFirstCheapest(opts: seq<PriceOption>, k: nat) {
    k < |opts| &&
    (forall j :: 0 <= j < |opts| ==> opts[k].price <= opts[j].price) &&
    (forall j :: 0 <= j < k ==> opts[j].price > opts[k].price)
  }

  /** The position `min` settles on: the winner of the prefix against the next option. */
  function CheapestIndex(opts: seq<PriceOption>): (k: nat)
    requires |opts| > 0
    ensures IsFirstCheapest(opts, k)
  {
    if |opts| == 1 then 0
    else
      var k := CheapestIndex(opts[..|opts| - 1]);
      if opts[|opts| - 1].price < opts[k].price then |opts| - 1 else k
  }

  /** `least_price_flight`. */
  function Cheapest(opts: seq<PriceOption>): (best: PriceOption)
    requires |opts| > 0
    ensures best in opts
    ensures forall o :: o in opts ==> best.price <= o.price
    ensures exists k: nat :: IsFirstCheapest(opts, k) && best == opts[k]
  {
    opts[CheapestIndex(opts)]
  }

  /** Only one position can be the first cheapest, so `CheapestIndex` is determined by its contract. */
  lemma FirstCheapestUnique(opts: seq<PriceOption>, k1: nat, k2: nat)
    requires IsFirstCheapest(opts, k1) && IsFirstCheapest(opts, k2)
    ensures k1 == k2
  {
    assert opts[k1].price == opts[k2].price;
  }

  /** Of two options the cheaper one is chosen in either order, and on a tie the first one. */
  lemma TwoOptions(a: PriceOption, b: PriceOption)
    ensures a.price < b.price ==> Cheapest([a, b]) == a && Cheapest([b, a]) == a
    ensures a.price == b.price ==> CheapestIndex([a, b]) == 0
  {
  }
}
