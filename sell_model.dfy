/** The sale aggregate: a sale header and its line items ("product sells").
    `Create`, `Update` and `Delete` write to the store step by step, exactly in
    the order the model issues its queries; the line items they write are
    specified by the pure `Resolved`, and the monthly report by `SaleStats`. */
module SellModel {
  import opened Common
  import opened Db
  import opened Stats

  /** One element of the request's `products` array (every field may be absent). */
  datatype EntryRequest = EntryRequest(
    productId: Option<Id>,
    quantity: Option<int>,
    totalPrice: Option<real>,
    colorId: Option<Id>,
    sizeId: Option<Id>)

  /** The `Sell` record handed to the model; an element of `products` may be null. */
  datatype SellRequest = SellRequest(
    id: Option<Id>,
    customerId: Option<Id>,
    employeeId: Option<Id>,
    totalPrice: Option<real>,
    couponCode: Option<string>,
    products: Option<seq<Option<EntryRequest>>>)

  datatype SellError =
    | CustomerIdRequired
    | InvalidTotalPrice
    | NoDefaultColorOrSize
    | SellIdRequired
    | SellNotFound

  /** A sale as the model returns it: the header with its line items. */
  datatype SaleView = SaleView(sale: Sale, items: seq<LineItem>)

  /** `data.products || []`. */
  function Entries(data: SellRequest): seq<Option<EntryRequest>> {
    data.products.GetOr([])
  }

  /** The checks `create` makes before writing anything, in their order. */
  function HeaderError(data: SellRequest): (r: Option<SellError>)
    ensures r.None? <==> Truthy(data.customerId) && data.totalPrice.Some? && data.totalPrice.value > 0.0
  {
    if !Truthy(data.customerId) then Some(CustomerIdRequired)
    else if data.totalPrice.None? || data.totalPrice.value <= 0.0 then Some(InvalidTotalPrice)
    else None
  }

  /** The header row `create` writes: the request without its `products`. */
  function NewHeader(id: Id, data: SellRequest, now: int): (s: Sale)
    requires HeaderError(data).None?
    ensures s.id == id && s.customerId == data.customerId.value && s.totalPrice > 0.0
  {
    Sale(id, data.customerId.value, data.employeeId, data.totalPrice.value, data.couponCode, now)
  }

  /** The header after `update`: every field the request carries overwrites the stored one. */
  function ApplyHeader(s: Sale, data: SellRequest): Sale {
    s.(customerId := data.customerId.GetOr(s.customerId),
       employeeId := if data.employeeId.Some? then data.employeeId else s.employeeId,
       totalPrice := data.totalPrice.GetOr(s.totalPrice),
       couponCode := if data.couponCode.Some? then data.couponCode else s.couponCode)
  }

  // ------------------------------------------------------------ line items from the request

  /** An entry becomes a line item when it is not null and its `productId` is truthy. */
  predicate Kept(e: Option<EntryRequest>) {
    e.Some? && Truthy(e.value.productId)
  }

  /** The line item one entry yields, with `dc`/`ds` the catalog's first color and size:
      falsy quantity becomes 1, falsy price 0, falsy color or size the default. */
  function ResolveEntry(e: Option<EntryRequest>, dc: Id, ds: Id): (r: Option<ItemData>)
    ensures r.Some? <==> Kept(e)
    ensures r.Some? ==> r.value.productId == e.value.productId.value && r.value.productId != ""
    ensures r.Some? ==> r.value.quantity != 0
    ensures r.Some? ==> (dc != "" ==> r.value.colorId != "") && (ds != "" ==> r.value.sizeId != "")
    ensures r.Some? ==> r.value.quantity == (if TruthyInt(e.value.quantity) then e.value.quantity.value else 1)
    ensures r.Some? ==> r.value.totalPrice == (if TruthyReal(e.value.totalPrice) then e.value.totalPrice.value else 0.0)
    ensures r.Some? ==> r.value.colorId == (if Truthy(e.value.colorId) then e.value.colorId.value else dc)
    ensures r.Some? ==> r.value.sizeId == (if Truthy(e.value.sizeId) then e.value.sizeId.value else ds)
  {
    if !Kept(e) then None
    else
      var p := e.value;
      Some(ItemData(
        p.productId.value,
        if Truthy(p.colorId) then p.colorId.value else dc,
        if Truthy(p.sizeId) then p.sizeId.value else ds,
        if TruthyInt(p.quantity) then p.quantity.value else 1,
        if TruthyReal(p.totalPrice) then p.totalPrice.value else 0.0))
  }

  /** `products.map(...).filter(Boolean)`: the line items of all kept entries, in order. */
  function Resolved(es: seq<Option<EntryRequest>>, dc: Id, ds: Id): (r: seq<ItemData>)
    ensures |r| <= |es|
  {
    if es == [] then []
    else
      var last := ResolveEntry(es[|es| - 1], dc, ds);
      Resolved(es[..|es| - 1], dc, ds) + (if last.Some? then [last.value] else [])
  }

  /** The number of entries that are kept. */
  function KeptCount(es: seq<Option<EntryRequest>>): nat {
    if es == [] then 0
    else KeptCount(es[..|es| - 1]) + (if Kept(es[|es| - 1]) then 1 else 0)
  }

  /** Each kept entry yields exactly one line item, and nothing else does. */
  lemma {:induction false} ResolvedCount(es: seq<Option<EntryRequest>>, dc: Id, ds: Id)
    ensures |Resolved(es, dc, ds)| == KeptCount(es)
    ensures KeptCount(es) == |es| <==> forall k | 0 <= k < |es| :: Kept(es[k])
    ensures KeptCount(es) == 0 <==> forall k | 0 <= k < |es| :: !Kept(es[k])
  {
    if es != [] {
      var init := es[..|es| - 1];
      ResolvedCount(init, dc, ds);
      assert forall k | 0 <= k < |init| :: init[k] == es[k];
      assert KeptCount(init) <= |init| by { KeptCountBound(init); }
    }
  }

  lemma {:induction false} KeptCountBound(es: seq<Option<EntryRequest>>)
    ensures KeptCount(es) <= |es|
  {
    if es != [] {
      KeptCountBound(es[..|es| - 1]);
    }
  }

  /** A line item is produced exactly when some entry resolves to it. */
  lemma {:induction false} ResolvedMembers(es: seq<Option<EntryRequest>>, dc: Id, ds: Id, d: ItemData)
    ensures d in Resolved(es, dc, ds) <==> exists k | 0 <= k < |es| :: ResolveEntry(es[k], dc, ds) == Some(d)
  {
    if es != [] {
      var init := es[..|es| - 1];
      ResolvedMembers(init, dc, ds, d);
      assert forall k | 0 <= k < |init| :: init[k] == es[k];
      if exists k | 0 <= k < |es| :: ResolveEntry(es[k], dc, ds) == Some(d) {
        var k :| 0 <= k < |es| && ResolveEntry(es[k], dc, ds) == Some(d);
        if k < |init| {
          assert ResolveEntry(init[k], dc, ds) == Some(d);
        }
      }
    }
  }

  function ItemDatas(items: seq<LineItem>): (r: seq<ItemData>)
    ensures |r| == |items| && forall k | 0 <= k < |items| :: r[k] == items[k].data
  {
    if items == [] then [] else [items[0].data] + ItemDatas(items[1..])
  }

  // ------------------------------------------------------------ writes

  /** One `productSell.create`: a line item of the sale under a fresh key. */
  method AppendItem(db: Store, sellId: Id, d: ItemData) returns (li: LineItem)
    requires db.Valid() && HasSale(db.sales, sellId)
    modifies db`productSells, db`nextId
    ensures db.Valid()
    ensures li.sellId == sellId && li.data == d
    ensures db.productSells == old(db.productSells) + [li]
  {
    var id := db.Mint();
    li := LineItem(id, sellId, d);
    db.productSells := db.productSells + [li];
  }

  lemma ResolvedStep(entries: seq<Option<EntryRequest>>, i: int, dc: Id, ds: Id)
    requires 0 <= i < |entries|
    ensures Resolved(entries[..i + 1], dc, ds)
      == Resolved(entries[..i], dc, ds)
         + (if ResolveEntry(entries[i], dc, ds).Some? then [ResolveEntry(entries[i], dc, ds).value] else [])
  {
    assert entries[..i + 1][..i] == entries[..i];
  }

  lemma ItemDatasSnoc(items: seq<LineItem>, li: LineItem)
    ensures ItemDatas(items + [li]) == ItemDatas(items) + [li.data]
  {
  }

  /** The per-entry `productSell.create` calls of `create` and `update`. */
  method CreateLineItems(db: Store, sellId: Id, entries: seq<Option<EntryRequest>>, dc: Id, ds: Id)
    returns (created: seq<LineItem>)
    requires db.Valid() && HasSale(db.sales, sellId)
    modifies db`productSells, db`nextId
    ensures db.Valid()
    ensures db.productSells == old(db.productSells) + created
    ensures ItemDatas(created) == Resolved(entries, dc, ds)
    ensures forall li | li in created :: li.sellId == sellId
  {
    created := [];
    var i := 0;
    while i < |entries|
      invariant 0 <= i <= |entries|
      invariant db.Valid() && HasSale(db.sales, sellId)
      invariant db.productSells == old(db.productSells) + created
      invariant ItemDatas(created) == Resolved(entries[..i], dc, ds)
      invariant forall li | li in created :: li.sellId == sellId
    {
      var d := ResolveEntry(entries[i], dc, ds);
      ResolvedStep(entries, i, dc, ds);
      if d.Some? {
        var li := AppendItem(db, sellId, d.value);
        ItemDatasSnoc(created, li);
        created := created + [li];
      }
      i := i + 1;
    }
    assert entries[..i] == entries;
  }

  /** No line item refers to the key the store mints next. */
  lemma FreshSaleHasNoItems(items: seq<LineItem>, sales: seq<Sale>, n: nat)
    requires SalesKeyed(sales, n) && ItemsLinked(items, sales, n)
    ensures forall li | li in items :: li.sellId != MintedId(n)
  {
    forall li | li in items
      ensures li.sellId != MintedId(n)
    {
      var s :| s in sales && s.id == li.sellId;
      assert IdBelow(s.id, n);
    }
  }

  /** `sell.create({ data: sell })`: a header under a fresh key, owning no line item yet. */
  method InsertHeader(db: Store, data: SellRequest, now: int) returns (header: Sale)
    requires db.Valid() && HeaderError(data).None?
    modifies db`sales, db`nextId
    ensures db.Valid()
    ensures header == NewHeader(MintedId(old(db.nextId)), data, now)
    ensures db.sales == old(db.sales) + [header]
    ensures forall li | li in db.productSells :: li.sellId != header.id
  {
    FreshSaleHasNoItems(db.productSells, db.sales, db.nextId);
    var id := db.Mint();
    header := NewHeader(id, data, now);
    ghost var oldSales := db.sales;
    db.sales := db.sales + [header];
    assert forall li | li in db.productSells :: HasSale(db.sales, li.sellId) by {
      forall li | li in db.productSells ensures HasSale(db.sales, li.sellId) {
        var s :| s in oldSales && s.id == li.sellId;
        assert s in db.sales;
      }
    }
  }

  /** The line-item step `create` and `update` share, for a sale that owns no line item:
      nothing to do without entries; otherwise the catalog's first color and size must
      exist, and each kept entry becomes one line item of the sale. */
  method WriteEntries(db: Store, id: Id, entries: seq<Option<EntryRequest>>)
    returns (r: Result<seq<LineItem>, SellError>)
    requires db.Valid() && HasSale(db.sales, id)
    requires forall li | li in db.productSells :: li.sellId != id
    modifies db`productSells, db`nextId
    ensures db.Valid()
    ensures entries == [] ==> r == Ok([]) && db.productSells == old(db.productSells)
    ensures entries != [] && (db.colors == [] || db.sizes == []) ==>
      r == Err(NoDefaultColorOrSize) && db.productSells == old(db.productSells)
    ensures entries != [] && db.colors != [] && db.sizes != [] ==>
      && r.Ok?
      && ItemDatas(r.value) == Resolved(entries, db.colors[0], db.sizes[0])
      && db.productSells == old(db.productSells) + r.value
    ensures r.Ok? ==> r.value == ItemsOfSale(db.productSells, id)
  {
    if |entries| == 0 {
      ItemsOfSaleNone(db.productSells, id);
      return Ok(ItemsOfSale(db.productSells, id));
    }
    var defaultColor := Head(db.colors);
    var defaultSize := Head(db.sizes);
    if defaultColor.None? || defaultSize.None? {
      return Err(NoDefaultColorOrSize);
    }
    ghost var before := db.productSells;
    var created := CreateLineItems(db, id, entries, defaultColor.value, defaultSize.value);
    NewItemsAreTheSales(before, created, id);
    r := Ok(ItemsOfSale(db.productSells, id));
  }

  /** Appending items of a sale that owned none: the sale's items are exactly those. */
  lemma NewItemsAreTheSales(before: seq<LineItem>, created: seq<LineItem>, id: Id)
    requires forall li | li in before :: li.sellId != id
    requires forall li | li in created :: li.sellId == id
    ensures ItemsOfSale(before + created, id) == created
  {
    ItemsOfSaleAppend(before, created, id);
    ItemsOfSaleNone(before, id);
    ItemsOfSaleAll(created, id);
  }

  /** `SellModel.create`: validate, write the header, then (only when there are entries)
      resolve the default color and size and write one line item per kept entry. */
  method Create(db: Store, data: SellRequest, now: int) returns (r: Result<SaleView, SellError>)
    requires db.Valid()
    modifies db`sales, db`productSells, db`nextId
    ensures db.Valid()
    ensures HeaderError(data).Some? ==> r == Err(HeaderError(data).value) && unchanged(db)
    ensures HeaderError(data).None? ==>
      db.sales == old(db.sales) + [NewHeader(MintedId(old(db.nextId)), data, now)]
    ensures HeaderError(data).None? && Entries(data) == [] ==>
      && r == Ok(SaleView(NewHeader(MintedId(old(db.nextId)), data, now), []))
      && db.productSells == old(db.productSells)
    ensures HeaderError(data).None? && Entries(data) != [] && (db.colors == [] || db.sizes == []) ==>
      r == Err(NoDefaultColorOrSize) && db.productSells == old(db.productSells)
    ensures HeaderError(data).None? && Entries(data) != [] && db.colors != [] && db.sizes != [] ==>
      && r.Ok?
      && r.value.sale == NewHeader(MintedId(old(db.nextId)), data, now)
      && ItemDatas(r.value.items) == Resolved(Entries(data), db.colors[0], db.sizes[0])
      && db.productSells == old(db.productSells) + r.value.items
    ensures r.Ok? ==> r.value.items == ItemsOfSale(db.productSells, r.value.sale.id)
  {
    var err := HeaderError(data);
    if err.Some? {
      return Err(err.value);
    }
    var header := InsertHeader(db, data, now);
    var items := WriteEntries(db, header.id, Entries(data));
    if items.Err? {
      return Err(items.error);
    }
    r := Ok(SaleView(header, items.value));
  }

  /** Replacing a header keeps the set of sale keys. */
  lemma ReplaceKeepsSaleKeys(sales: seq<Sale>, id: Id, row: Sale, x: Id)
    requires row.id == id && HasSale(sales, id)
    ensures HasSale(ReplaceSale(sales, id, row), x) <==> HasSale(sales, x)
  {
    var r := ReplaceSale(sales, id, row);
    if HasSale(sales, x) {
      var s :| s in sales && s.id == x;
      if s.id != id {
        assert s in r;
      } else {
        assert row in r;
      }
    }
  }

  /** Replacing a header by a row under the same key keeps the sales table keyed. */
  lemma ReplaceKeepsSalesKeyed(sales: seq<Sale>, id: Id, row: Sale, n: nat)
    requires SalesKeyed(sales, n) && HasSale(sales, id) && row.id == id
    ensures SalesKeyed(ReplaceSale(sales, id, row), n)
  {
    var r := ReplaceSale(sales, id, row);
    var s :| s in sales && s.id == id;
    assert IdBelow(row.id, n);
    forall a, b | a in r && b in r && a.id == b.id
      ensures a == b
    {
    }
  }

  /** After a header replacement and the removal of that sale's items, the remaining
      items still belong to existing sales. */
  lemma ReplaceKeepsItemsLinked(items: seq<LineItem>, sales: seq<Sale>, id: Id, row: Sale, n: nat)
    requires ItemsLinked(items, sales, n) && HasSale(sales, id) && row.id == id
    ensures ItemsLinked(WithoutSale(items, id), ReplaceSale(sales, id, row), n)
  {
    forall li | li in WithoutSale(items, id)
      ensures IdBelow(li.id, n) && HasSale(ReplaceSale(sales, id, row), li.sellId)
    {
      ReplaceKeepsSaleKeys(sales, id, row, li.sellId);
    }
  }

  /** `sell.update` followed by `productSell.deleteMany` on the sale's key: the header
      takes the provided fields and the sale is left without line items. */
  method ReplaceHeader(db: Store, id: Id, data: SellRequest) returns (updated: Sale)
    requires db.Valid() && HasSale(db.sales, id)
    modifies db`sales, db`productSells
    ensures db.Valid()
    ensures updated == ApplyHeader(FindSale(old(db.sales), id).value, data)
    ensures db.sales == ReplaceSale(old(db.sales), id, updated)
    ensures db.productSells == WithoutSale(old(db.productSells), id)
    ensures HasSale(db.sales, id) && forall li | li in db.productSells :: li.sellId != id
  {
    updated := ApplyHeader(FindSale(db.sales, id).value, data);
    ReplaceKeepsSalesKeyed(db.sales, id, updated, db.nextId);
    ReplaceKeepsItemsLinked(db.productSells, db.sales, id, updated, db.nextId);
    db.sales, db.productSells := ReplaceSale(db.sales, id, updated), WithoutSale(db.productSells, id);
  }

  /** `SellModel.update` (replace-all): check the id, update the header (failing if it
      does not exist), delete every line item of the sale, then rebuild them from the
      new entries exactly as `create` does. */
  method Update(db: Store, data: SellRequest) returns (r: Result<SaleView, SellError>)
    requires db.Valid()
    modifies db`sales, db`productSells, db`nextId
    ensures db.Valid()
    ensures !Truthy(data.id) ==> r == Err(SellIdRequired) && unchanged(db)
    ensures Truthy(data.id) && !HasSale(old(db.sales), data.id.value) ==>
      r == Err(SellNotFound) && unchanged(db)
    ensures Truthy(data.id) && HasSale(old(db.sales), data.id.value) ==>
      var id := data.id.value;
      var updated := ApplyHeader(FindSale(old(db.sales), id).value, data);
      && db.sales == ReplaceSale(old(db.sales), id, updated)
      && (Entries(data) == [] ==>
            r == Ok(SaleView(updated, [])) && db.productSells == WithoutSale(old(db.productSells), id))
      && (Entries(data) != [] && (db.colors == [] || db.sizes == []) ==>
            r == Err(NoDefaultColorOrSize) && db.productSells == WithoutSale(old(db.productSells), id))
      && (Entries(data) != [] && db.colors != [] && db.sizes != [] ==>
            && r.Ok? && r.value.sale == updated
            && ItemDatas(r.value.items) == Resolved(Entries(data), db.colors[0], db.sizes[0])
            && db.productSells == WithoutSale(old(db.productSells), id) + r.value.items)
    ensures r.Ok? ==> r.value.items == ItemsOfSale(db.productSells, r.value.sale.id)
  {
    if !Truthy(data.id) {
      return Err(SellIdRequired);
    }
    var id := data.id.value;
    if FindSale(db.sales, id).None? {
      return Err(SellNotFound);
    }
    var updated := ReplaceHeader(db, id, data);
    var items := WriteEntries(db, id, Entries(data));
    if items.Err? {
      return Err(items.error);
    }
    r := Ok(SaleView(updated, items.value));
  }
  /** After the delete-all step of `update`, the line items of every other sale are as before. */
  lemma {:induction false} OtherSalesUntouched(items: seq<LineItem>, created: seq<LineItem>, id: Id, other: Id)
    requires other != id
    requires forall li | li in created :: li.sellId == id
    ensures ItemsOfSale(WithoutSale(items, id) + created, other) == ItemsOfSale(items, other)
  {
    ItemsOfSaleAppend(WithoutSale(items, id), created, other);
    ItemsOfSaleNone(created, other);
    WithoutSaleKeepsOthers(items, id, other);
  }

  lemma {:induction false} WithoutSaleKeepsOthers(items: seq<LineItem>, id: Id, other: Id)
    requires other != id
    ensures ItemsOfSale(WithoutSale(items, id), other) == ItemsOfSale(items, other)
  {
    if items != [] {
      WithoutSaleKeepsOthers(items[1..], id, other);
      var head := if items[0].sellId == id then [] else [items[0]];
      ItemsOfSaleAppend(head, WithoutSale(items[1..], id), other);
    }
  }

  /** `SellModel.findById`: the sale with its line items. */
  function FindById(db: Store, id: Id): (r: Option<SaleView>)
    reads db
    ensures r.Some? <==> HasSale(db.sales, id)
    ensures r.Some? ==> r.value.sale in db.sales && r.value.sale.id == id
    ensures r.Some? ==> forall li :: li in r.value.items <==> li in db.productSells && li.sellId == id
  {
    var s := FindSale(db.sales, id);
    if s.None? then None else Some(SaleView(s.value, ItemsOfSale(db.productSells, id)))
  }

  /** `SellModel.delete`: delete the sale's line items, then the header, and return
      the header as it was. */
  method Delete(db: Store, id: Id) returns (r: Result<Sale, SellError>)
    requires db.Valid()
    modifies db`sales, db`productSells
    ensures db.Valid()
    ensures db.productSells == WithoutSale(old(db.productSells), id)
    ensures !HasSale(old(db.sales), id) ==> r == Err(SellNotFound) && unchanged(db)
    ensures HasSale(old(db.sales), id) ==>
      r == Ok(FindSale(old(db.sales), id).value) && db.sales == RemoveSale(old(db.sales), id)
    ensures FindById(db, id).None? && ItemsOfSale(db.productSells, id) == []
  {
    if !HasSale(db.sales, id) {
      WithoutSaleNone(db.productSells, id);
    }
    db.productSells := WithoutSale(db.productSells, id);
    ItemsOfSaleNone(db.productSells, id);
    var found := FindSale(db.sales, id);
    if found.None? {
      return Err(SellNotFound);
    }
    db.sales := RemoveSale(db.sales, id);
    r := Ok(found.value);
  }

  // ------------------------------------------------------------ reads

  function SalesOfCustomer(sales: seq<Sale>, customerId: Id): (r: seq<Sale>)
    ensures forall s :: s in r <==> s in sales && s.customerId == customerId
  {
    if sales == [] then []
    else (if sales[0].customerId == customerId then [sales[0]] else []) + SalesOfCustomer(sales[1..], customerId)
  }

  /** `orderBy: { createdAt: "desc" }`. */
  predicate NewestFirst(s: seq<Sale>) {
    forall i, j | 0 <= i < j < |s| :: s[i].createdAt >= s[j].createdAt
  }

  function InsertByDate(x: Sale, s: seq<Sale>): (r: seq<Sale>)
    requires NewestFirst(s)
    ensures NewestFirst(r) && multiset(r) == multiset(s) + multiset{x}
  {
    if s == [] || s[0].createdAt <= x.createdAt then [x] + s
    else
      var rest := InsertByDate(x, s[1..]);
      assert s == [s[0]] + s[1..];
      InsertedBelow(x, s[1..], rest, s[0].createdAt);
      [s[0]] + rest
  }

  /** Inserting below a bound of every element keeps the bound. */
  lemma InsertedBelow(x: Sale, s: seq<Sale>, rest: seq<Sale>, top: int)
    requires multiset(rest) == multiset(s) + multiset{x}
    requires x.createdAt <= top && forall y | y in s :: y.createdAt <= top
    ensures forall k | 0 <= k < |rest| :: rest[k].createdAt <= top
  {
    forall k | 0 <= k < |rest|
      ensures rest[k].createdAt <= top
    {
      var y := rest[k];
      assert y in multiset(rest);
      assert y == x || y in multiset(s);
    }
  }

  function SortNewestFirst(s: seq<Sale>): (r: seq<Sale>)
    ensures NewestFirst(r) && multiset(r) == multiset(s)
  {
    if s == [] then []
    else
      assert s == [s[0]] + s[1..];
      InsertByDate(s[0], SortNewestFirst(s[1..]))
  }

  function Headers(views: seq<SaleView>): (r: seq<Sale>)
    ensures |r| == |views| && forall k | 0 <= k < |r| :: r[k] == views[k].sale
  {
    if views == [] then [] else [views[0].sale] + Headers(views[1..])
  }

  /** Sorting keeps exactly the same sales. */
  lemma SortedMembers(s: seq<Sale>)
    ensures forall x :: x in SortNewestFirst(s) <==> x in s
  {
    var r := SortNewestFirst(s);
    forall x
      ensures x in r <==> x in s
    {
      assert x in r <==> x in multiset(r);
      assert x in s <==> x in multiset(s);
    }
  }

  /** Each sale paired with its line items. */
  function WithItems(sales: seq<Sale>, items: seq<LineItem>): (r: seq<SaleView>)
    ensures Headers(r) == sales
    ensures forall k | 0 <= k < |r| :: r[k].items == ItemsOfSale(items, sales[k].id)
  {
    if sales == [] then []
    else [SaleView(sales[0], ItemsOfSale(items, sales[0].id))] + WithItems(sales[1..], items)
  }

  /** `SellModel.findByCustomerId`: the customer's sales, newest first, each with its line items. */
  function FindByCustomerId(db: Store, customerId: Id): (r: seq<SaleView>)
    reads db
    ensures multiset(Headers(r)) == multiset(SalesOfCustomer(db.sales, customerId))
    ensures NewestFirst(Headers(r))
    ensures forall k | 0 <= k < |r| ::
      r[k].sale in db.sales && r[k].sale.customerId == customerId && r[k].items == ItemsOfSale(db.productSells, r[k].sale.id)
  {
    var sorted := SortNewestFirst(SalesOfCustomer(db.sales, customerId));
    SortedMembers(SalesOfCustomer(db.sales, customerId));
    WithItems(sorted, db.productSells)
  }

  // ------------------------------------------------------------ monthly report

  const SaleTitles: seq<string> := ["Total ventas", "Ingresos totales", "Productos vendidos", "Ticket promedio"]

  /** `SellModel.getMonthlyStats` over the sales and line-item tables; `failed` says
      whether one of the eight queries threw. */
  function SaleStats(sales: seq<Sale>, items: seq<LineItem>, clock: Clock, failed: bool): (r: seq<Stat>)
    requires ValidClock(clock)
    ensures |r| == 4 && Labels(r) == SaleTitles
    ensures failed ==> forall k | 0 <= k < 4 :: r[k] == ZeroStat(SaleTitles[k], k == 1 || k == 3)
    ensures !failed ==>
      var cur := SaleWhere(ThisMonth(clock), false);
      && r[0].value == Number(CountSales(sales, cur))
      && r[1].value == Dollars(SumTotals(sales, cur))
      && r[2].value == Number(SoldQuantity(items, sales, cur))
      && r[3].value == Dollars(AverageTotal(sales, cur))
    ensures !failed ==>
      var cur := SaleWhere(ThisMonth(clock), false);
      var prev := SaleWhere(LastMonth(clock), false);
      && r[0].change == CalculateChange(CountSales(sales, cur) as real, CountSales(sales, prev) as real)
      && r[1].change == CalculateChange(SumTotals(sales, cur), SumTotals(sales, prev))
      && r[2].change == CalculateChange(SoldQuantity(items, sales, cur) as real, SoldQuantity(items, sales, prev) as real)
      && r[3].change == CalculateChange(AverageTotal(sales, cur), AverageTotal(sales, prev))
  {
    if failed then
      [ZeroStat(SaleTitles[0], false), ZeroStat(SaleTitles[1], true),
       ZeroStat(SaleTitles[2], false), ZeroStat(SaleTitles[3], true)]
    else
      var cur := SaleWhere(ThisMonth(clock), false);
      var prev := SaleWhere(LastMonth(clock), false);
      [MakeStat(SaleTitles[0], Number(CountSales(sales, cur)), CountSales(sales, prev) as real),
       MakeStat(SaleTitles[1], Dollars(SumTotals(sales, cur)), SumTotals(sales, prev)),
       MakeStat(SaleTitles[2], Number(SoldQuantity(items, sales, cur)), SoldQuantity(items, sales, prev) as real),
       MakeStat(SaleTitles[3], Dollars(AverageTotal(sales, cur)), AverageTotal(sales, prev))]
  }

  /** Sales since the first day of last month split exactly into the two windows. */
  lemma {:induction false} SaleWindowsSplit(sales: seq<Sale>, clock: Clock)
    requires ValidClock(clock)
    ensures var since := SaleWhere(Range(Some(clock.firstDayOfLastMonth), None), false);
      && CountSales(sales, since)
           == CountSales(sales, SaleWhere(ThisMonth(clock), false)) + CountSales(sales, SaleWhere(LastMonth(clock), false))
      && SumTotals(sales, since)
           == SumTotals(sales, SaleWhere(ThisMonth(clock), false)) + SumTotals(sales, SaleWhere(LastMonth(clock), false))
  {
    if sales != [] {
      SaleWindowsSplit(sales[1..], clock);
    }
  }

  /** No matching sale: the count and the sum are 0. */
  lemma {:induction false} NoMatchingSales(sales: seq<Sale>, w: SaleWhere)
    requires forall s | s in sales :: !SaleMatches(s, w)
    ensures CountSales(sales, w) == 0 && SumTotals(sales, w) == 0.0 && AverageTotal(sales, w) == 0.0
  {
    if sales != [] {
      NoMatchingSales(sales[1..], w);
    }
  }

  /** No matching sale: no line item is counted as sold. */
  lemma {:induction false} NoMatchingSold(items: seq<LineItem>, sales: seq<Sale>, w: SaleWhere)
    requires forall s | s in sales :: !SaleMatches(s, w)
    ensures SoldQuantity(items, sales, w) == 0
  {
    if items != [] {
      NoMatchingSold(items[1..], sales, w);
    }
  }

  /** With no sale since the first day of last month the report is indistinguishable
      from the error fallback. */
  lemma QuietSalesReadAsFallback(sales: seq<Sale>, items: seq<LineItem>, clock: Clock)
    requires ValidClock(clock)
    requires forall s | s in sales :: s.createdAt < clock.firstDayOfLastMonth
    ensures SaleStats(sales, items, clock, false) == SaleStats(sales, items, clock, true)
  {
    var cur := SaleWhere(ThisMonth(clock), false);
    var prev := SaleWhere(LastMonth(clock), false);
    NoMatchingSales(sales, cur);
    NoMatchingSales(sales, prev);
    NoMatchingSold(items, sales, cur);
    NoMatchingSold(items, sales, prev);
  }
}
