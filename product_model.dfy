/** Products and their inventory rows: create with nested inventory, update with
    replace-when-non-empty inventory, update of the product fields alone, delete
    cascading to the product's rows, and the monthly product report. */
module ProductModel {
  import opened Common
  import opened Db
  import opened Stats

  /** One element of a product's `inventory` list. */
  datatype InventoryInput = InventoryInput(sizeId: Id, colorId: Id, quantity: int)

  /** The `Product` record handed to the model. */
  datatype ProductRequest = ProductRequest(id: Option<Id>, info: ProductInfo, inventory: Option<seq<InventoryInput>>)

  datatype ProductError = ProductIdRequired | ProductNotFound

  /** `const { inventory = [] } = data`. */
  function InventoryOf(data: ProductRequest): seq<InventoryInput> {
    data.inventory.GetOr([])
  }

  /** `rows` are the inventory rows of `productId` written for `entries`, one per entry
      and in order, copying its size, color and quantity. */
  predicate Copies(rows: seq<InventoryRow>, productId: Id, entries: seq<InventoryInput>) {
    && |rows| == |entries|
    && forall k | 0 <= k < |rows| ::
         && rows[k].productId == productId
         && rows[k].sizeId == entries[k].sizeId
         && rows[k].colorId == entries[k].colorId
         && rows[k].quantity == entries[k].quantity
  }

  lemma {:induction false} RowsOfProductNone(inv: seq<InventoryRow>, productId: Id)
    requires forall row | row in inv :: row.productId != productId
    ensures RowsOfProduct(inv, productId) == []
  {
    if inv != [] {
      RowsOfProductNone(inv[1..], productId);
    }
  }

  lemma {:induction false} RowsOfProductAll(inv: seq<InventoryRow>, productId: Id)
    requires forall row | row in inv :: row.productId == productId
    ensures RowsOfProduct(inv, productId) == inv
  {
    if inv != [] {
      RowsOfProductAll(inv[1..], productId);
    }
  }

  /** Rows written for a product after all of its earlier rows are gone are exactly
      the product's rows. */
  lemma NewRowsAreTheProducts(before: seq<InventoryRow>, rows: seq<InventoryRow>, productId: Id)
    requires forall row | row in before :: row.productId != productId
    requires forall row | row in rows :: row.productId == productId
    ensures RowsOfProduct(before + rows, productId) == rows
  {
    RowsOfProductAppend(before, rows, productId);
    RowsOfProductNone(before, productId);
    RowsOfProductAll(rows, productId);
  }

  /** `inventory.createMany`: one row per entry, each under a fresh key. */
  method CreateRows(db: Store, productId: Id, entries: seq<InventoryInput>) returns (rows: seq<InventoryRow>)
    requires db.Valid() && HasProduct(db.products, productId)
    modifies db`inventory, db`nextId
    ensures db.Valid()
    ensures db.inventory == old(db.inventory) + rows
    ensures Copies(rows, productId, entries)
  {
    rows := [];
    var i := 0;
    while i < |entries|
      invariant 0 <= i <= |entries|
      invariant db.Valid()
      invariant db.inventory == old(db.inventory) + rows
      invariant Copies(rows, productId, entries[..i])
    {
      var e := entries[i];
      var id := db.Mint();
      var row := InventoryRow(id, productId, e.colorId, e.sizeId, e.quantity);
      db.inventory := db.inventory + [row];
      rows := rows + [row];
      i := i + 1;
    }
    assert entries[..i] == entries;
  }

  /** No inventory row names the key the store mints next. */
  lemma FreshProductHasNoRows(inv: seq<InventoryRow>, products: seq<Product>, n: nat)
    requires ProductsKeyed(products, n) && InventoryLinked(inv, products, n)
    ensures forall row | row in inv :: row.productId != MintedId(n)
  {
    forall row | row in inv
      ensures row.productId != MintedId(n)
    {
      var p :| p in products && p.id == row.productId;
      assert IdBelow(p.id, n);
    }
  }

  /** `product.create` of the product fields under a fresh key. */
  method InsertProduct(db: Store, info: ProductInfo, now: int) returns (p: Product)
    requires db.Valid()
    modifies db`products, db`nextId
    ensures db.Valid()
    ensures p == Product(MintedId(old(db.nextId)), info, now)
    ensures db.products == old(db.products) + [p]
    ensures forall row | row in db.inventory :: row.productId != p.id
  {
    FreshProductHasNoRows(db.inventory, db.products, db.nextId);
    var id := db.Mint();
    p := Product(id, info, now);
    ghost var oldProducts := db.products;
    db.products := db.products + [p];
    forall row | row in db.inventory
      ensures HasProduct(db.products, row.productId)
    {
      var q :| q in oldProducts && q.id == row.productId;
      assert q in db.products;
    }
  }

  /** `ProductModel.create`: the product and, nested in the same write, one inventory
      row per entry of its list (none when the list is absent). */
  method Create(db: Store, data: ProductRequest, now: int) returns (p: Product)
    requires db.Valid()
    modifies db`products, db`inventory, db`nextId
    ensures db.Valid()
    ensures p.id == MintedId(old(db.nextId)) && p.info == data.info && p.createdAt == now
    ensures db.products == old(db.products) + [p]
    ensures db.inventory == old(db.inventory) + RowsOfProduct(db.inventory, p.id)
    ensures Copies(RowsOfProduct(db.inventory, p.id), p.id, InventoryOf(data))
  {
    p := InsertProduct(db, data.info, now);
    ghost var before := db.inventory;
    var rows := CreateRows(db, p.id, InventoryOf(data));
    NewRowsAreTheProducts(before, rows, p.id);
  }

  /** Replacing a product by a row under the same key keeps the table keyed and the
      inventory linked. */
  lemma ReplaceKeepsProducts(products: seq<Product>, inv: seq<InventoryRow>, id: Id, row: Product, n: nat)
    requires ProductsKeyed(products, n) && InventoryLinked(inv, products, n)
    requires HasProduct(products, id) && row.id == id
    ensures ProductsKeyed(ReplaceProduct(products, id, row), n)
    ensures InventoryLinked(inv, ReplaceProduct(products, id, row), n)
  {
    var r := ReplaceProduct(products, id, row);
    var old_ :| old_ in products && old_.id == id;
    assert IdBelow(row.id, n);
    forall x | x in inv
      ensures HasProduct(r, x.productId)
    {
      var q :| q in products && q.id == x.productId;
      if q.id == id {
        assert row in r;
      } else {
        assert q in r;
      }
    }
  }

  /** `product.update` of the product fields: the stored row takes `info` and keeps its
      key and creation time. */
  method ReplaceInfo(db: Store, id: Id, info: ProductInfo) returns (updated: Product)
    requires db.Valid() && HasProduct(db.products, id)
    modifies db`products
    ensures db.Valid()
    ensures updated == FindProduct(old(db.products), id).value.(info := info)
    ensures db.products == ReplaceProduct(old(db.products), id, updated)
    ensures HasProduct(db.products, id)
  {
    updated := FindProduct(db.products, id).value.(info := info);
    ReplaceKeepsProducts(db.products, db.inventory, id, updated, db.nextId);
    db.products := ReplaceProduct(db.products, id, updated);
  }

  /** When the new list is non-empty, `inventory.deleteMany` on the product followed by
      `inventory.createMany` of the list: the product's rows become exactly one per
      entry. An empty list leaves the inventory alone. */
  method ReplaceRows(db: Store, id: Id, entries: seq<InventoryInput>)
    requires db.Valid() && HasProduct(db.products, id)
    modifies db`inventory, db`nextId
    ensures db.Valid()
    ensures entries == [] ==> db.inventory == old(db.inventory)
    ensures entries != [] ==>
      && db.inventory == WithoutProduct(old(db.inventory), id) + RowsOfProduct(db.inventory, id)
      && Copies(RowsOfProduct(db.inventory, id), id, entries)
  {
    if |entries| == 0 {
      return;
    }
    db.inventory := WithoutProduct(db.inventory, id);
    ghost var before := db.inventory;
    var rows := CreateRows(db, id, entries);
    NewRowsAreTheProducts(before, rows, id);
  }

  /** `ProductModel.update`: update the product, then, only when the new inventory
      list is non-empty, delete all of its rows and write one per entry. */
  method Update(db: Store, data: ProductRequest) returns (r: Result<Product, ProductError>)
    requires db.Valid()
    modifies db`products, db`inventory, db`nextId
    ensures db.Valid()
    ensures data.id.None? ==> r == Err(ProductIdRequired) && unchanged(db)
    ensures data.id.Some? && !HasProduct(old(db.products), data.id.value) ==> r == Err(ProductNotFound) && unchanged(db)
    ensures data.id.Some? && HasProduct(old(db.products), data.id.value) ==>
      var id := data.id.value;
      var updated := FindProduct(old(db.products), id).value.(info := data.info);
      && r == Ok(updated)
      && db.products == ReplaceProduct(old(db.products), id, updated)
      && (InventoryOf(data) == [] ==> db.inventory == old(db.inventory))
      && (InventoryOf(data) != [] ==>
            && db.inventory == WithoutProduct(old(db.inventory), id) + RowsOfProduct(db.inventory, id)
            && Copies(RowsOfProduct(db.inventory, id), id, InventoryOf(data)))
  {
    if data.id.None? {
      return Err(ProductIdRequired);
    }
    var id := data.id.value;
    if FindProduct(db.products, id).None? {
      return Err(ProductNotFound);
    }
    var updated := ReplaceInfo(db, id, data.info);
    ReplaceRows(db, id, InventoryOf(data));
    r := Ok(updated);
  }

  /** `ProductModel.updateProductOnly`: an id is required; only the product fields
      change, never an inventory row. */
  method UpdateProductOnly(db: Store, id: Option<Id>, info: ProductInfo) returns (r: Result<Product, ProductError>)
    requires db.Valid()
    modifies db`products
    ensures db.Valid()
    ensures db.inventory == old(db.inventory)
    ensures !Truthy(id) ==> r == Err(ProductIdRequired) && unchanged(db)
    ensures Truthy(id) && !HasProduct(old(db.products), id.value) ==> r == Err(ProductNotFound) && unchanged(db)
    ensures Truthy(id) && HasProduct(old(db.products), id.value) ==>
      var updated := FindProduct(old(db.products), id.value).value.(info := info);
      r == Ok(updated) && db.products == ReplaceProduct(old(db.products), id.value, updated)
  {
    if !Truthy(id) {
      return Err(ProductIdRequired);
    }
    if FindProduct(db.products, id.value).None? {
      return Err(ProductNotFound);
    }
    var updated := ReplaceInfo(db, id.value, info);
    r := Ok(updated);
  }

  /** Removing a product together with its rows leaves the remaining rows linked. */
  lemma RemoveKeepsLinks(products: seq<Product>, inv: seq<InventoryRow>, id: Id, n: nat)
    requires InventoryLinked(inv, products, n)
    ensures InventoryLinked(WithoutProduct(inv, id), RemoveProduct(products, id), n)
  {
    forall row | row in WithoutProduct(inv, id)
      ensures HasProduct(RemoveProduct(products, id), row.productId)
    {
      var q :| q in products && q.id == row.productId;
      assert q in RemoveProduct(products, id);
    }
  }

  lemma {:induction false} WithoutProductNone(inv: seq<InventoryRow>, productId: Id)
    requires forall row | row in inv :: row.productId != productId
    ensures WithoutProduct(inv, productId) == inv
  {
    if inv != [] {
      WithoutProductNone(inv[1..], productId);
    }
  }

  /** `ProductModel.delete`: delete the product's inventory rows, then the product, and
      return the product as it was. */
  method Delete(db: Store, id: Id) returns (r: Result<Product, ProductError>)
    requires db.Valid()
    modifies db`products, db`inventory
    ensures db.Valid()
    ensures db.inventory == WithoutProduct(old(db.inventory), id)
    ensures !HasProduct(old(db.products), id) ==> r == Err(ProductNotFound) && unchanged(db)
    ensures HasProduct(old(db.products), id) ==>
      r == Ok(FindProduct(old(db.products), id).value) && db.products == RemoveProduct(old(db.products), id)
    ensures RowsOfProduct(db.inventory, id) == [] && !HasProduct(db.products, id)
  {
    if !HasProduct(db.products, id) {
      WithoutProductNone(db.inventory, id);
    }
    RemoveKeepsLinks(db.products, db.inventory, id, db.nextId);
    db.inventory := WithoutProduct(db.inventory, id);
    RowsOfProductNone(db.inventory, id);
    var found := FindProduct(db.products, id);
    if found.None? {
      return Err(ProductNotFound);
    }
    db.products := RemoveProduct(db.products, id);
    r := Ok(found.value);
  }

  /** The cascade of `delete` leaves every other product's rows as they were. */
  lemma {:induction false} DeleteKeepsOtherRows(inv: seq<InventoryRow>, id: Id, other: Id)
    requires other != id
    ensures RowsOfProduct(WithoutProduct(inv, id), other) == RowsOfProduct(inv, other)
  {
    if inv != [] {
      DeleteKeepsOtherRows(inv[1..], id, other);
      var head := if inv[0].productId == id then [] else [inv[0]];
      RowsOfProductAppend(head, WithoutProduct(inv[1..], id), other);
    }
  }

  /** Replacing a product's inventory leaves every other product's rows as they were. */
  lemma ReplaceKeepsOtherRows(inv: seq<InventoryRow>, rows: seq<InventoryRow>, id: Id, other: Id)
    requires other != id
    requires forall row | row in rows :: row.productId == id
    ensures RowsOfProduct(WithoutProduct(inv, id) + rows, other) == RowsOfProduct(inv, other)
  {
    RowsOfProductAppend(WithoutProduct(inv, id), rows, other);
    RowsOfProductNone(rows, other);
    DeleteKeepsOtherRows(inv, id, other);
  }

  // ------------------------------------------------------------ monthly report

  const ProductTitles: seq<string> := ["Total productos", "Productos activos", "Productos nuevos", "Sin stock"]

  function Everything(): ProductWhere { ProductWhere(None, AnyTime, false) }
  function Active(created: Range): ProductWhere { ProductWhere(Some("active"), created, false) }
  function Created(created: Range): ProductWhere { ProductWhere(None, created, false) }
  function WithoutStock(created: Range): ProductWhere { ProductWhere(None, created, true) }

  /** `ProductModel.getMonthlyStats`; `failed` says whether one of the eight counts threw.
      Each metric is compared with the value it had at the start of the month, except
      "new", which is compared with last month's new products. */
  function ProductStats(products: seq<Product>, inv: seq<InventoryRow>, clock: Clock, failed: bool): (r: seq<Stat>)
    requires ValidClock(clock)
    ensures |r| == 4 && Labels(r) == ProductTitles
    ensures failed ==> forall k | 0 <= k < 4 :: r[k] == ZeroStat(ProductTitles[k], false)
    ensures !failed ==>
      && r[0].value == Number(|products|)
      && r[1].value == Number(CountProducts(products, inv, Active(AnyTime)))
      && r[2].value == Number(CountProducts(products, inv, Created(ThisMonth(clock))))
      && r[3].value == Number(CountProducts(products, inv, WithoutStock(AnyTime)))
      && r[0].change == CalculateChange(|products| as real, CountProducts(products, inv, Created(BeforeThisMonth(clock))) as real)
      && r[1].change == CalculateChange(CountProducts(products, inv, Active(AnyTime)) as real,
                                        CountProducts(products, inv, Active(BeforeThisMonth(clock))) as real)
      && r[2].change == CalculateChange(CountProducts(products, inv, Created(ThisMonth(clock))) as real,
                                        CountProducts(products, inv, Created(LastMonth(clock))) as real)
      && r[3].change == CalculateChange(CountProducts(products, inv, WithoutStock(AnyTime)) as real,
                                        CountProducts(products, inv, WithoutStock(BeforeThisMonth(clock))) as real)
  {
    if failed then
      seq(4, k requires 0 <= k < 4 => ZeroStat(ProductTitles[k], false))
    else
      var before := BeforeThisMonth(clock);
      EverythingIsAll(products, inv);
      [MakeStat(ProductTitles[0], Number(CountProducts(products, inv, Everything())),
                CountProducts(products, inv, Created(before)) as real),
       MakeStat(ProductTitles[1], Number(CountProducts(products, inv, Active(AnyTime))),
                CountProducts(products, inv, Active(before)) as real),
       MakeStat(ProductTitles[2], Number(CountProducts(products, inv, Created(ThisMonth(clock)))),
                CountProducts(products, inv, Created(LastMonth(clock))) as real),
       MakeStat(ProductTitles[3], Number(CountProducts(products, inv, WithoutStock(AnyTime))),
                CountProducts(products, inv, WithoutStock(before)) as real)]
  }

  /** `product.count()` with no filter counts every product. */
  lemma {:induction false} EverythingIsAll(products: seq<Product>, inv: seq<InventoryRow>)
    ensures CountProducts(products, inv, Everything()) == |products|
  {
    if products != [] {
      EverythingIsAll(products[1..], inv);
    }
  }

  /** Every product was created either before this month or during it, so each
      all-time count is the start-of-month count plus this month's. */
  lemma {:induction false} ProductCountSplit(products: seq<Product>, inv: seq<InventoryRow>, clock: Clock, status: Option<string>, noStock: bool)
    ensures CountProducts(products, inv, ProductWhere(status, AnyTime, noStock))
      == CountProducts(products, inv, ProductWhere(status, BeforeThisMonth(clock), noStock))
       + CountProducts(products, inv, ProductWhere(status, ThisMonth(clock), noStock))
  {
    if products != [] {
      ProductCountSplit(products[1..], inv, clock, status, noStock);
    }
  }

  /** A count under a stricter filter never exceeds the count under a looser one. */
  lemma {:induction false} CountProductsMonotone(products: seq<Product>, inv: seq<InventoryRow>, w: ProductWhere, w': ProductWhere)
    requires forall p | p in products :: ProductMatches(p, inv, w) ==> ProductMatches(p, inv, w')
    ensures CountProducts(products, inv, w) <= CountProducts(products, inv, w')
  {
    if products != [] {
      CountProductsMonotone(products[1..], inv, w, w');
    }
  }

  /** "Sin stock" and "Productos activos" never exceed "Total productos". */
  lemma ReportBounds(products: seq<Product>, inv: seq<InventoryRow>, clock: Clock)
    requires ValidClock(clock)
    ensures CountProducts(products, inv, WithoutStock(AnyTime)) <= |products|
    ensures CountProducts(products, inv, Active(AnyTime)) <= |products|
  {
    EverythingIsAll(products, inv);
    CountProductsMonotone(products, inv, WithoutStock(AnyTime), Everything());
    CountProductsMonotone(products, inv, Active(AnyTime), Everything());
  }

  /** "Sin stock" counts a product none of whose rows holds a positive quantity, and so
      also a product with no inventory row at all; one positive row keeps it out. */
  lemma NoStockMeaning(p: Product, inv: seq<InventoryRow>)
    ensures CountProducts([p], inv, WithoutStock(AnyTime)) == 1
        <==> forall row | row in inv && row.productId == p.id :: row.quantity <= 0
    ensures RowsOfProduct(inv, p.id) == [] ==> CountProducts([p], inv, WithoutStock(AnyTime)) == 1
  {
    assert [p][1..] == [];
  }
}
