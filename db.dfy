/** The persistence layer the models talk to: the rows of each table, the
    queries the models issue (find, delete-where, update-where, count and sum
    with a `where` filter) as functions over a table, and the store itself as
    an object whose tables the models update in place. */
module Db {
  import opened Common

  // ---------------------------------------------------------------- rows

  datatype Sale = Sale(
    id: Id,
    customerId: Id,
    employeeId: Option<Id>,
    totalPrice: real,
    couponCode: Option<string>,
    createdAt: int)

  /** What a line item ("product sell") records about the purchase. */
  datatype ItemData = ItemData(productId: Id, colorId: Id, sizeId: Id, quantity: int, totalPrice: real)

  datatype LineItem = LineItem(id: Id, sellId: Id, data: ItemData)

  /** Quantity on hand of one (product, color, size) combination; it may be negative. */
  datatype InventoryRow = InventoryRow(id: Id, productId: Id, colorId: Id, sizeId: Id, quantity: int)

  datatype ProductInfo = ProductInfo(
    sku: string,
    status: string,
    name: string,
    careInstructions: string,
    imageUrl: string,
    description: string,
    price: real)

  datatype Product = Product(id: Id, info: ProductInfo, createdAt: int)

  datatype CouponInfo = CouponInfo(code: string, discount: real, startDate: int, endDate: int, status: string)

  datatype Coupon = Coupon(id: Id, info: CouponInfo, createdAt: int)

  /** A primary key handed out while the id counter was below `n`. */
  predicate IdBelow(id: Id, n: nat) {
    0 < |id| < n
  }

  // ---------------------------------------------------------------- sales

  predicate HasSale(sales: seq<Sale>, id: Id) {
    exists s | s in sales :: s.id == id
  }

  /** `sell.findUnique({ where: { id } })`. */
  function FindSale(sales: seq<Sale>, id: Id): (r: Option<Sale>)
    ensures r.Some? <==> HasSale(sales, id)
    ensures r.Some? ==> r.value in sales && r.value.id == id
  {
    if sales == [] then None
    else if sales[0].id == id then Some(sales[0])
    else FindSale(sales[1..], id)
  }

  /** `sell.update({ where: { id }, data })`: the row with that key becomes `row`. */
  function ReplaceSale(sales: seq<Sale>, id: Id, row: Sale): (r: seq<Sale>)
    requires row.id == id
    ensures |r| == |sales|
    ensures forall k | 0 <= k < |r| :: r[k] == if sales[k].id == id then row else sales[k]
    ensures forall s | s in r :: s == row || (s in sales && s.id != id)
    ensures forall s | s in sales && s.id != id :: s in r
    ensures HasSale(sales, id) ==> row in r
  {
    if sales == [] then []
    else [if sales[0].id == id then row else sales[0]] + ReplaceSale(sales[1..], id, row)
  }

  /** `sell.delete({ where: { id } })`, the rows that remain. */
  function RemoveSale(sales: seq<Sale>, id: Id): (r: seq<Sale>)
    ensures forall s :: s in r <==> s in sales && s.id != id
  {
    if sales == [] then []
    else (if sales[0].id == id then [] else [sales[0]]) + RemoveSale(sales[1..], id)
  }

  // ---------------------------------------------------------------- line items

  /** `productSell.findMany({ where: { sellId } })`. */
  function ItemsOfSale(items: seq<LineItem>, sellId: Id): (r: seq<LineItem>)
    ensures forall li :: li in r <==> li in items && li.sellId == sellId
  {
    if items == [] then []
    else (if items[0].sellId == sellId then [items[0]] else []) + ItemsOfSale(items[1..], sellId)
  }

  /** `productSell.deleteMany({ where: { sellId } })`, the rows that remain. */
  function WithoutSale(items: seq<LineItem>, sellId: Id): (r: seq<LineItem>)
    ensures forall li :: li in r <==> li in items && li.sellId != sellId
  {
    if items == [] then []
    else (if items[0].sellId == sellId then [] else [items[0]]) + WithoutSale(items[1..], sellId)
  }

  lemma {:induction false} ItemsOfSaleAppend(a: seq<LineItem>, b: seq<LineItem>, sellId: Id)
    ensures ItemsOfSale(a + b, sellId) == ItemsOfSale(a, sellId) + ItemsOfSale(b, sellId)
  {
    if a != [] {
      assert (a + b)[1..] == a[1..] + b;
      ItemsOfSaleAppend(a[1..], b, sellId);
    } else {
      assert a + b == b;
    }
  }

  lemma {:induction false} ItemsOfSaleNone(items: seq<LineItem>, sellId: Id)
    requires forall li | li in items :: li.sellId != sellId
    ensures ItemsOfSale(items, sellId) == []
  {
    if items != [] {
      ItemsOfSaleNone(items[1..], sellId);
    }
  }

  lemma {:induction false} WithoutSaleNone(items: seq<LineItem>, sellId: Id)
    requires forall li | li in items :: li.sellId != sellId
    ensures WithoutSale(items, sellId) == items
  {
    if items != [] {
      WithoutSaleNone(items[1..], sellId);
    }
  }

  lemma {:induction false} ItemsOfSaleAll(items: seq<LineItem>, sellId: Id)
    requires forall li | li in items :: li.sellId == sellId
    ensures ItemsOfSale(items, sellId) == items
  {
    if items != [] {
      ItemsOfSaleAll(items[1..], sellId);
    }
  }

  // ---------------------------------------------------------------- products and inventory

  predicate HasProduct(products: seq<Product>, id: Id) {
    exists p | p in products :: p.id == id
  }

  /** `product.findUnique({ where: { id } })`. */
  function FindProduct(products: seq<Product>, id: Id): (r: Option<Product>)
    ensures r.Some? <==> HasProduct(products, id)
    ensures r.Some? ==> r.value in products && r.value.id == id
  {
    if products == [] then None
    else if products[0].id == id then Some(products[0])
    else FindProduct(products[1..], id)
  }

  function ReplaceProduct(products: seq<Product>, id: Id, row: Product): (r: seq<Product>)
    requires row.id == id
    ensures |r| == |products|
    ensures forall k | 0 <= k < |r| :: r[k] == if products[k].id == id then row else products[k]
    ensures forall p | p in r :: p == row || (p in products && p.id != id)
    ensures forall p | p in products && p.id != id :: p in r
    ensures HasProduct(products, id) ==> row in r
  {
    if products == [] then []
    else [if products[0].id == id then row else products[0]] + ReplaceProduct(products[1..], id, row)
  }

  function RemoveProduct(products: seq<Product>, id: Id): (r: seq<Product>)
    ensures forall p :: p in r <==> p in products && p.id != id
  {
    if products == [] then []
    else (if products[0].id == id then [] else [products[0]]) + RemoveProduct(products[1..], id)
  }

  /** `inventory.findMany({ where: { productId } })`. */
  function RowsOfProduct(inv: seq<InventoryRow>, productId: Id): (r: seq<InventoryRow>)
    ensures forall row :: row in r <==> row in inv && row.productId == productId
  {
    if inv == [] then []
    else (if inv[0].productId == productId then [inv[0]] else []) + RowsOfProduct(inv[1..], productId)
  }

  /** `inventory.deleteMany({ where: { productId } })`, the rows that remain. */
  function WithoutProduct(inv: seq<InventoryRow>, productId: Id): (r: seq<InventoryRow>)
    ensures forall row :: row in r <==> row in inv && row.productId != productId
  {
    if inv == [] then []
    else (if inv[0].productId == productId then [] else [inv[0]]) + WithoutProduct(inv[1..], productId)
  }

  lemma {:induction false} RowsOfProductAppend(a: seq<InventoryRow>, b: seq<InventoryRow>, productId: Id)
    ensures RowsOfProduct(a + b, productId) == RowsOfProduct(a, productId) + RowsOfProduct(b, productId)
  {
    if a != [] {
      assert (a + b)[1..] == a[1..] + b;
      RowsOfProductAppend(a[1..], b, productId);
    } else {
      assert a + b == b;
    }
  }

  // ---------------------------------------------------------------- coupons

  predicate HasCoupon(coupons: seq<Coupon>, id: Id) {
    exists c | c in coupons :: c.id == id
  }

  /** `coupon.findUnique({ where: { id } })`. */
  function FindCoupon(coupons: seq<Coupon>, id: Id): (r: Option<Coupon>)
    ensures r.Some? <==> HasCoupon(coupons, id)
    ensures r.Some? ==> r.value in coupons && r.value.id == id
  {
    if coupons == [] then None
    else if coupons[0].id == id then Some(coupons[0])
    else FindCoupon(coupons[1..], id)
  }

  /** `coupon.findUnique({ where: { code } })`. */
  function FindCouponByCode(coupons: seq<Coupon>, code: string): (r: Option<Coupon>)
    ensures r.Some? <==> exists c | c in coupons :: c.info.code == code
    ensures r.Some? ==> r.value in coupons && r.value.info.code == code
  {
    if coupons == [] then None
    else if coupons[0].info.code == code then Some(coupons[0])
    else FindCouponByCode(coupons[1..], code)
  }

  function ReplaceCoupon(coupons: seq<Coupon>, id: Id, row: Coupon): (r: seq<Coupon>)
    requires row.id == id
    ensures |r| == |coupons|
    ensures forall k | 0 <= k < |r| :: r[k] == if coupons[k].id == id then row else coupons[k]
    ensures forall c | c in r :: c == row || (c in coupons && c.id != id)
    ensures forall c | c in coupons && c.id != id :: c in r
    ensures HasCoupon(coupons, id) ==> row in r
  {
    if coupons == [] then []
    else [if coupons[0].id == id then row else coupons[0]] + ReplaceCoupon(coupons[1..], id, row)
  }

  function RemoveCoupon(coupons: seq<Coupon>, id: Id): (r: seq<Coupon>)
    ensures forall c :: c in r <==> c in coupons && c.id != id
  {
    if coupons == [] then []
    else (if coupons[0].id == id then [] else [coupons[0]]) + RemoveCoupon(coupons[1..], id)
  }

  // ---------------------------------------------------------------- aggregate queries

  /** A `createdAt: { gte: from, lt: before }` filter; an absent bound is no bound. */
  datatype Range = Range(from: Option<int>, before: Option<int>)

  predicate InRange(t: int, r: Range) {
    (r.from.Some? ==> r.from.value <= t) && (r.before.Some? ==> t < r.before.value)
  }

  /** The `where` of the sale queries: a creation range, and `couponCode: { not: null }`. */
  datatype SaleWhere = SaleWhere(created: Range, couponApplied: bool)

  predicate SaleMatches(s: Sale, w: SaleWhere) {
    InRange(s.createdAt, w.created) && (w.couponApplied ==> s.couponCode.Some?)
  }

  /** `sell.count({ where })`. */
  function CountSales(sales: seq<Sale>, w: SaleWhere): nat {
    if sales == [] then 0
    else (if SaleMatches(sales[0], w) then 1 else 0) + CountSales(sales[1..], w)
  }

  /** `sell.aggregate({ where, _sum: { totalPrice } })`, with the empty sum read as 0. */
  function SumTotals(sales: seq<Sale>, w: SaleWhere): real {
    if sales == [] then 0.0
    else (if SaleMatches(sales[0], w) then sales[0].totalPrice else 0.0) + SumTotals(sales[1..], w)
  }

  /** `sell.aggregate({ where, _avg: { totalPrice } })`, with the average of no rows read as 0. */
  function AverageTotal(sales: seq<Sale>, w: SaleWhere): real {
    var n := CountSales(sales, w);
    if n == 0 then 0.0 else SumTotals(sales, w) / n as real
  }

  /** The relation filter `productSell where sell: { ... }`: the owning sale matches. */
  predicate ItemOfMatchingSale(li: LineItem, sales: seq<Sale>, w: SaleWhere) {
    var s := FindSale(sales, li.sellId);
    s.Some? && SaleMatches(s.value, w)
  }

  /** `productSell.aggregate({ where: { sell: ... }, _sum: { quantity } })`, empty sum read as 0. */
  function SoldQuantity(items: seq<LineItem>, sales: seq<Sale>, w: SaleWhere): int {
    if items == [] then 0
    else (if ItemOfMatchingSale(items[0], sales, w) then items[0].data.quantity else 0)
         + SoldQuantity(items[1..], sales, w)
  }

  /** `inventories: { none: { quantity: { gt: 0 } } }`: no row of the product has stock. */
  predicate NoStock(productId: Id, inv: seq<InventoryRow>) {
    forall row | row in inv && row.productId == productId :: row.quantity <= 0
  }

  /** The `where` of the product counts: status, creation range, and the no-stock relation filter. */
  datatype ProductWhere = ProductWhere(status: Option<string>, created: Range, noStock: bool)

  predicate ProductMatches(p: Product, inv: seq<InventoryRow>, w: ProductWhere) {
    && (w.status.Some? ==> p.info.status == w.status.value)
    && InRange(p.createdAt, w.created)
    && (w.noStock ==> NoStock(p.id, inv))
  }

  /** `product.count({ where })`. */
  function CountProducts(products: seq<Product>, inv: seq<InventoryRow>, w: ProductWhere): nat {
    if products == [] then 0
    else (if ProductMatches(products[0], inv, w) then 1 else 0) + CountProducts(products[1..], inv, w)
  }

  /** The `where` of the coupon counts: status, `endDate: { gte }`, creation range. */
  datatype CouponWhere = CouponWhere(status: Option<string>, endFrom: Option<int>, created: Range)

  predicate CouponMatches(c: Coupon, w: CouponWhere) {
    && (w.status.Some? ==> c.info.status == w.status.value)
    && (w.endFrom.Some? ==> w.endFrom.value <= c.info.endDate)
    && InRange(c.createdAt, w.created)
  }

  /** `coupon.count({ where })`. */
  function CountCoupons(coupons: seq<Coupon>, w: CouponWhere): nat {
    if coupons == [] then 0
    else (if CouponMatches(coupons[0], w) then 1 else 0) + CountCoupons(coupons[1..], w)
  }

  // ---------------------------------------------------------------- table invariants

  /** Every sale's key was handed out by the store, and a key names one row. */
  ghost predicate SalesKeyed(sales: seq<Sale>, n: nat) {
    && (forall s | s in sales :: IdBelow(s.id, n))
    && (forall a, b | a in sales && b in sales && a.id == b.id :: a == b)
  }

  /** Line items have store keys and belong to an existing sale. */
  ghost predicate ItemsLinked(items: seq<LineItem>, sales: seq<Sale>, n: nat) {
    forall li | li in items :: IdBelow(li.id, n) && HasSale(sales, li.sellId)
  }

  ghost predicate ProductsKeyed(products: seq<Product>, n: nat) {
    && (forall p | p in products :: IdBelow(p.id, n))
    && (forall a, b | a in products && b in products && a.id == b.id :: a == b)
  }

  /** Inventory rows have store keys and belong to an existing product. */
  ghost predicate InventoryLinked(inv: seq<InventoryRow>, products: seq<Product>, n: nat) {
    forall row | row in inv :: IdBelow(row.id, n) && HasProduct(products, row.productId)
  }

  /** Coupon keys come from the store; keys and codes are unique. */
  ghost predicate CouponsKeyed(coupons: seq<Coupon>, n: nat) {
    && (forall c | c in coupons :: IdBelow(c.id, n))
    && (forall a, b | a in coupons && b in coupons && a.id == b.id :: a == b)
    && (forall a, b | a in coupons && b in coupons && a.info.code == b.info.code :: a == b)
  }

  // ---------------------------------------------------------------- the store

  /** The database: every table, the color and size catalogs (read only here),
      and the counter from which fresh keys are minted. */
  class Store {
    var sales: seq<Sale>
    var productSells: seq<LineItem>
    var inventory: seq<InventoryRow>
    var products: seq<Product>
    var coupons: seq<Coupon>
    var colors: seq<Id>
    var sizes: seq<Id>
    var nextId: nat

    ghost predicate Valid()
      reads this
    {
      && 0 < nextId
      && SalesKeyed(sales, nextId)
      && ItemsLinked(productSells, sales, nextId)
      && ProductsKeyed(products, nextId)
      && InventoryLinked(inventory, products, nextId)
      && CouponsKeyed(coupons, nextId)
    }

    constructor (colors: seq<Id>, sizes: seq<Id>)
      ensures Valid()
      ensures this.colors == colors && this.sizes == sizes
      ensures sales == [] && productSells == [] && inventory == [] && products == [] && coupons == []
    {
      this.colors, this.sizes := colors, sizes;
      sales, productSells, inventory, products, coupons := [], [], [], [], [];
      nextId := 1;
    }

    /** A key no row holds yet (the database's generated id). */
    method Mint() returns (id: Id)
      requires Valid()
      modifies this`nextId
      ensures Valid()
      ensures id == MintedId(old(nextId)) && nextId == old(nextId) + 1
      ensures IdBelow(id, nextId)
    {
      id := MintedId(nextId);
      nextId := nextId + 1;
    }
  }

  /** A freshly minted key differs from every key in a table of the store. */
  lemma MintedIsNew(n: nat, id: Id)
    requires IdBelow(id, n)
    ensures id != MintedId(n)
  {
  }
}
