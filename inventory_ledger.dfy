/** The inventory side of a sale: each line item decrements every inventory row
    of its (product, color, size) combination by its quantity. There is no lower
    bound on stock, and a combination without a row is silently left alone. */
module InventoryLedger {
  import opened Common
  import opened Db

  /** `where: { productId, colorId, sizeId }` of the decrement. */
  predicate Matches(row: InventoryRow, d: ItemData) {
    row.productId == d.productId && row.colorId == d.colorId && row.sizeId == d.sizeId
  }

  /** `inventory.updateMany({ where: <triple>, data: { quantity: { decrement } } })`. */
  function Decrement(inv: seq<InventoryRow>, d: ItemData): (r: seq<InventoryRow>)
    ensures |r| == |inv|
    ensures forall k | 0 <= k < |inv| ::
      r[k] == if Matches(inv[k], d) then inv[k].(quantity := inv[k].quantity - d.quantity) else inv[k]
  {
    if inv == [] then []
    else
      [if Matches(inv[0], d) then inv[0].(quantity := inv[0].quantity - d.quantity) else inv[0]]
      + Decrement(inv[1..], d)
  }

  /** The decrements of a sequence of line items, applied in order. */
  function DecrementAll(inv: seq<InventoryRow>, ds: seq<ItemData>): seq<InventoryRow> {
    if ds == [] then inv
    else Decrement(DecrementAll(inv, ds[..|ds| - 1]), ds[|ds| - 1])
  }

  /** The total quantity the line items `ds` take from `row`'s combination. */
  function Demand(ds: seq<ItemData>, row: InventoryRow): int {
    if ds == [] then 0
    else Demand(ds[..|ds| - 1], row) + (if Matches(row, ds[|ds| - 1]) then ds[|ds| - 1].quantity else 0)
  }

  /** The line items whose product exists: those whose decrement is issued. */
  function FoundItems(products: seq<Product>, ds: seq<ItemData>): seq<ItemData> {
    if ds == [] then []
    else
      var last := ds[|ds| - 1];
      FoundItems(products, ds[..|ds| - 1]) + (if HasProduct(products, last.productId) then [last] else [])
  }

  /** The issued decrements are those of the line items whose product exists. */
  lemma {:induction false} FoundItemsMembers(products: seq<Product>, ds: seq<ItemData>)
    ensures forall d :: d in FoundItems(products, ds) <==> d in ds && HasProduct(products, d.productId)
  {
    if ds != [] {
      FoundItemsMembers(products, ds[..|ds| - 1]);
      assert ds == ds[..|ds| - 1] + [ds[|ds| - 1]];
    }
  }

  /** Every line item names an existing product. */
  predicate AllFound(products: seq<Product>, ds: seq<ItemData>) {
    ds == [] || (AllFound(products, ds[..|ds| - 1]) && HasProduct(products, ds[|ds| - 1].productId))
  }

  /** All products are found exactly when every line item's product exists, and then
      every line item's decrement is issued. */
  lemma {:induction false} AllFoundMeans(products: seq<Product>, ds: seq<ItemData>)
    ensures AllFound(products, ds) <==> forall d | d in ds :: HasProduct(products, d.productId)
    ensures AllFound(products, ds) ==> FoundItems(products, ds) == ds
  {
    if ds != [] {
      var init := ds[..|ds| - 1];
      AllFoundMeans(products, init);
      assert ds == init + [ds[|ds| - 1]];
    }
  }

  /** Each row loses exactly the total quantity of the line items of its combination;
      nothing else about it changes, and the result may be negative. */
  lemma {:induction false} DecrementAllRowwise(inv: seq<InventoryRow>, ds: seq<ItemData>)
    ensures |DecrementAll(inv, ds)| == |inv|
    ensures forall k | 0 <= k < |inv| ::
      DecrementAll(inv, ds)[k] == inv[k].(quantity := inv[k].quantity - Demand(ds, inv[k]))
  {
    if ds != [] {
      DecrementAllRowwise(inv, ds[..|ds| - 1]);
    }
  }

  /** A row no line item matches keeps its quantity. */
  lemma UntouchedRow(inv: seq<InventoryRow>, ds: seq<ItemData>, k: int)
    requires 0 <= k < |inv|
    requires forall d | d in ds :: !Matches(inv[k], d)
    ensures |DecrementAll(inv, ds)| == |inv| && DecrementAll(inv, ds)[k] == inv[k]
  {
    DecrementAllRowwise(inv, ds);
    NoDemand(ds, inv[k]);
  }

  lemma {:induction false} NoDemand(ds: seq<ItemData>, row: InventoryRow)
    requires forall d | d in ds :: !Matches(row, d)
    ensures Demand(ds, row) == 0
  {
    if ds != [] {
      NoDemand(ds[..|ds| - 1], row);
    }
  }

  /** A line item whose combination has no inventory row changes nothing. */
  lemma {:induction false} MissingCombinationIsNoOp(inv: seq<InventoryRow>, d: ItemData)
    requires forall row | row in inv :: !Matches(row, d)
    ensures Decrement(inv, d) == inv
  {
    if inv != [] {
      MissingCombinationIsNoOp(inv[1..], d);
    }
  }

  /** The demand on a row depends only on which line items there are, not on their order. */
  lemma {:induction false} DemandOfPermutation(ds: seq<ItemData>, es: seq<ItemData>, row: InventoryRow)
    requires multiset(ds) == multiset(es)
    ensures Demand(ds, row) == Demand(es, row)
    decreases |ds|
  {
    if ds != [] {
      var last := ds[|ds| - 1];
      assert ds == ds[..|ds| - 1] + [last];
      assert last in multiset(es);
      var j :| 0 <= j < |es| && es[j] == last;
      var rest := es[..j] + es[j + 1..];
      assert es == es[..j] + [last] + es[j + 1..];
      calc {
        multiset(ds[..|ds| - 1]) + multiset{last};
        multiset(ds);
        multiset(es);
        multiset(es[..j]) + multiset{last} + multiset(es[j + 1..]);
        multiset(rest) + multiset{last};
      }
      assert multiset(ds[..|ds| - 1]) == multiset(ds[..|ds| - 1]) + multiset{last} - multiset{last};
      DemandOfPermutation(ds[..|ds| - 1], rest, row);
      DemandWithout(es, j, row);
    }
  }

  /** Taking one line item out of a sequence removes exactly its share of the demand. */
  lemma {:induction false} DemandWithout(es: seq<ItemData>, j: int, row: InventoryRow)
    requires 0 <= j < |es|
    ensures Demand(es, row)
      == Demand(es[..j] + es[j + 1..], row) + (if Matches(row, es[j]) then es[j].quantity else 0)
    decreases |es|
  {
    if j < |es| - 1 {
      var init := es[..|es| - 1];
      DemandWithout(init, j, row);
      assert init[..j] + init[j + 1..] == (es[..j] + es[j + 1..])[..|es| - 2];
    } else {
      assert es[..j] + es[j + 1..] == es[..|es| - 1];
    }
  }

  /** The decrements commute: any processing order of the same line items leaves the
      same inventory. */
  lemma OrderIndependent(inv: seq<InventoryRow>, ds: seq<ItemData>, es: seq<ItemData>)
    requires multiset(ds) == multiset(es)
    ensures DecrementAll(inv, ds) == DecrementAll(inv, es)
  {
    DecrementAllRowwise(inv, ds);
    DecrementAllRowwise(inv, es);
    forall k | 0 <= k < |inv|
      ensures DecrementAll(inv, ds)[k] == DecrementAll(inv, es)[k]
    {
      DemandOfPermutation(ds, es, inv[k]);
    }
  }

  /** Decrementing keeps every row's key and product, so inventory stays linked. */
  lemma DecrementKeepsLinks(inv: seq<InventoryRow>, d: ItemData, products: seq<Product>, n: nat)
    requires InventoryLinked(inv, products, n)
    ensures InventoryLinked(Decrement(inv, d), products, n)
  {
    var r := Decrement(inv, d);
    forall row | row in r
      ensures IdBelow(row.id, n) && HasProduct(products, row.productId)
    {
      var k :| 0 <= k < |r| && r[k] == row;
      assert inv[k] in inv;
    }
  }
}
