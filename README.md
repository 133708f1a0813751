# Sale-transaction engine of potentes-store-api, in Dafny

This project models the part of the potentes-store-api backend that records a sale and its effect on stock:

- **`SellModel`** (`sell.model.ts`) writes a sale header and its line items ("product sells"). It updates a sale by replacing all of its line items, deletes a sale with its line items, lists a customer's sales newest first, and builds the monthly sales report.
- **`SellController`** (`sell.controller.ts`) holds the create, update and delete handlers. Creating a sale gates the request, then decrements inventory for every line item of the new sale.
- **`SellValidation`** (`sell.validation.ts`) holds the create schema and its deep-partial update schema. Both drop undeclared properties.
- **`ProductModel`** (`product.model.ts`) creates, updates and deletes products together with their inventory rows, and builds the monthly product report.
- **`CouponModel`** (`coupon.model.ts`) creates, updates and deletes coupons, looks coupons up by key and by their unique code, and builds the monthly coupon report.

The database is one `Db.Store` object. Each table is a `seq` field that the operations reassign. `Store.Valid()` says:

- every key of a sale, product, line item, inventory row or coupon was minted below the store's counter;
- sale, product and coupon keys are unique (the invariant does not state uniqueness for line-item and inventory-row keys);
- every line item names an existing sale;
- every inventory row names an existing product;
- coupon codes are unique.

Every state-changing method keeps `Valid()`. Each one states its whole new state in terms of small table functions (`ReplaceSale`, `WithoutSale`, `ItemsOfSale`, `DecrementAll`, …), and lemmas prove what those functions mean.

The three report functions take the clock (`Stats.Clock`) and a `failed` flag as parameters. The flag stands for a database query throwing. The month windows and `calculateChange` are shared in `Stats`.

## Model

| member | source | states |
|---|---|---|
| Db.Store.Mint | src/modules/sell/models/sell.model.ts:76-78 | a database-generated key: strictly new, below the advanced counter, so no row holds it (with `Db.MintedIsNew`) |
| Db.MintedIsNew | src/modules/sell/models/sell.model.ts:76-78 | a freshly minted key differs from every key already in a table |
| Db.FindSale | src/modules/sell/models/sell.model.ts:366-385 | `findUnique` by key: found exactly when a sale has that key, and the found row has it |
| Db.ReplaceSale | src/modules/sell/models/sell.model.ts:218-223 | `sell.update`: the row under the key is the new one, every other row is kept, no other row appears |
| Db.RemoveSale | src/modules/sell/models/sell.model.ts:356-360 | `sell.delete`: no row keeps the key, every other row stays |
| Db.ItemsOfSale | src/modules/sell/models/sell.model.ts:366-385 | the `productSells` relation: exactly the line items whose `sellId` is the sale's key, in table order |
| Db.WithoutSale | src/modules/sell/models/sell.model.ts:226-230 | `productSell.deleteMany({ sellId })`: exactly the line items of other sales remain |
| Db.ItemsOfSaleAppend | src/modules/sell/models/sell.model.ts:114-146 | the line items of a sale in an appended table are those of each part, concatenated |
| Db.ItemsOfSaleNone | src/modules/sell/models/sell.model.ts:82-100 | a sale no line item names owns no line item |
| Db.WithoutSaleNone | src/modules/sell/models/sell.model.ts:350-364 | deleting the line items of a sale that owns none changes nothing |
| Db.ItemsOfSaleAll | src/modules/sell/models/sell.model.ts:114-146 | when every line item names the sale, the sale owns the whole table |
| Db.FindProduct | src/modules/sell/controllers/sell.controller.ts:55-60 | `product.findUnique` by key: found exactly when a product has that key |
| Db.ReplaceProduct | src/modules/products/models/product.model.ts:58-63 | `product.update`: the row under the key is replaced, every other row is kept, no other row appears |
| Db.RemoveProduct | src/modules/products/models/product.model.ts:114-118 | `product.delete`: no row keeps the key, every other row stays |
| Db.RowsOfProduct | src/modules/products/models/product.model.ts:41-48 | the inventory rows whose `productId` is the product's key |
| Db.WithoutProduct | src/modules/products/models/product.model.ts:108-112 | `inventory.deleteMany({ productId })`: exactly the rows of other products remain |
| Db.RowsOfProductAppend | src/modules/products/models/product.model.ts:72-77 | the rows of a product in an appended table are those of each part, concatenated |
| Db.FindCoupon | src/modules/coupons/models/coupon.model.ts:48-55 | `coupon.findUnique` by key: found exactly when a coupon has that key |
| Db.FindCouponByCode | src/modules/coupons/models/coupon.model.ts:194-201 | `coupon.findUnique` by code: found exactly when a coupon holds that code |
| Db.ReplaceCoupon | src/modules/coupons/models/coupon.model.ts:29-37 | `coupon.update`: the row under the key is replaced, every other row is kept, no other row appears |
| Db.RemoveCoupon | src/modules/coupons/models/coupon.model.ts:39-46 | `coupon.delete`: no row keeps the key, every other row stays |
| Db.CountSales | src/modules/sell/models/sell.model.ts:434-438 | `sell.count({ where })`: the number of sales whose creation instant lies in the range and, when asked, that applied a coupon |
| Db.SumTotals | src/modules/sell/models/sell.model.ts:439-446 | `sell.aggregate({ _sum: { totalPrice } })`, an empty sum read as 0: the sum of the totals of the matching sales, 0 when none matches |
| Db.AverageTotal | src/modules/sell/models/sell.model.ts:457-464 | `sell.aggregate({ _avg: { totalPrice } })`, an empty average read as 0: the sum over the count of the matching sales, 0 when none matches |
| Db.SoldQuantity | src/modules/sell/models/sell.model.ts:447-456 | `productSell.aggregate` filtered through the `sell` relation: the quantities of the line items whose own sale matches, summed |
| Db.NoStock | src/modules/products/models/product.model.ts:166-174 | `inventories: { none: { quantity: { gt: 0 } } }`: no inventory row of the product has a quantity above 0 |
| Db.CountProducts | src/modules/products/models/product.model.ts:161-198 | `product.count({ where })`: the products matching the status, the creation range and, when asked, the no-stock filter |
| Db.CountCoupons | src/modules/coupons/models/coupon.model.ts:80-91 | `coupon.count({ where })`: the coupons matching the status, `endDate >= from` and the creation range |
| Stats.WindowsDisjoint | src/modules/sell/models/sell.model.ts:415-421 | this month and last month share no instant; "before this month" is exactly "not this month" |
| Stats.CalculateChange | src/modules/sell/models/sell.model.ts:511-515 | previous 0 gives "+100%" iff current > 0, else "0%"; otherwise the percentage satisfies change·previous = (current − previous)·100, with "+" iff it is non-negative |
| Stats.ChangeSign | src/modules/sell/models/sell.model.ts:511-515 | with a positive previous value the sign is "+" exactly when the metric did not fall |
| Stats.ChangeOfSteadyMetric | src/modules/sell/models/sell.model.ts:511-515 | an unchanged non-zero metric shows a non-negative 0 % change |
| Stats.MakeStat | src/modules/sell/models/sell.model.ts:517-547 | an entry carries its label and value, and its change is `calculateChange` of the value against the previous one |
| Stats.ZeroStat | src/modules/sell/models/sell.model.ts:548-571 | a fallback entry is zero with change "0%" |
| Stats.Labels | src/modules/sell/models/sell.model.ts:517-547 | the label list of a report, position by position |
| Stats.QuietMetricIsFallback | src/modules/sell/models/sell.model.ts:548-571 | a metric that was zero in both months reads exactly like its fallback entry |
| SellModel.HeaderError | src/modules/sell/models/sell.model.ts:57-67 | `create` proceeds exactly when `customerId` is truthy and `totalPrice` is present and positive |
| SellModel.Entries | src/modules/sell/models/sell.model.ts:70 | `data.products` defaulted to the empty list: the request's entries, or none when the request has no `products` |
| SellModel.NewHeader | src/modules/sell/models/sell.model.ts:70-78 | the header written carries the minted key, the customer and a positive total |
| SellModel.ResolveEntry | src/modules/sell/models/sell.model.ts:114-146 | an entry yields a line item exactly when it is non-null with a truthy `productId`; the product is kept; quantity is the given one when truthy, else 1; price the given one when truthy, else 0; color and size the given ones when truthy, else the catalog's first |
| SellModel.Resolved | src/modules/sell/models/sell.model.ts:114-146 | `map` then `filter(Boolean)` never yields more line items than entries |
| SellModel.ResolvedCount | src/modules/sell/models/sell.model.ts:114-166 | one line item per kept entry; all kept iff the count equals the entries, none kept iff it is 0 |
| SellModel.KeptCountBound | src/modules/sell/models/sell.model.ts:114-146 | at most every entry is kept |
| SellModel.ResolvedMembers | src/modules/sell/models/sell.model.ts:114-146 | a line item is written exactly when some entry resolves to it |
| SellModel.ItemDatas | src/modules/sell/models/sell.model.ts:114-146 | the written fields of each line item, position by position |
| SellModel.AppendItem | src/modules/sell/models/sell.model.ts:114-146 | one `productSell.create`: the line item of the sale with the resolved fields is appended under a fresh key |
| SellModel.CreateLineItems | src/modules/sell/models/sell.model.ts:114-146 | the loop appends exactly the resolved line items, in entry order, all owned by the sale, and keeps the store valid |
| SellModel.FreshSaleHasNoItems | src/modules/sell/models/sell.model.ts:76-78 | no line item names a key not yet minted |
| SellModel.InsertHeader | src/modules/sell/models/sell.model.ts:76-78 | the header is appended under a fresh key that owns no line item |
| SellModel.WriteEntries | src/modules/sell/models/sell.model.ts:82-166 | no entries: nothing written; an empty color or size catalog: "No default color or size found", nothing written; otherwise the sale's line items are exactly the resolved entries, appended |
| SellModel.NewItemsAreTheSales | src/modules/sell/models/sell.model.ts:114-146 | after appending to a sale that owned none, its line items are exactly the appended ones |
| SellModel.Create | src/modules/sell/models/sell.model.ts:52-196 | the header errors come before any write; otherwise the header is appended; then the outcomes of `WriteEntries`; on success the returned items are the sale's line items |
| SellModel.ReplaceKeepsSaleKeys | src/modules/sell/models/sell.model.ts:218-223 | updating a header keeps the set of sale keys |
| SellModel.ReplaceKeepsSalesKeyed | src/modules/sell/models/sell.model.ts:218-223 | updating a header under its own key keeps the keys unique |
| SellModel.ReplaceKeepsItemsLinked | src/modules/sell/models/sell.model.ts:218-230 | after the header update and the delete-many, every remaining line item names an existing sale |
| SellModel.ReplaceHeader | src/modules/sell/models/sell.model.ts:218-230 | the header takes every field the request carries; the sale then owns no line item; other sales' items are kept |
| SellModel.ApplyHeader | src/modules/sell/models/sell.model.ts:215-223 | `sell.update({ data: sell })` with `products` removed: each header field the request carries overwrites the stored one, the others, the key and the creation instant are kept |
| SellModel.Update | src/modules/sell/models/sell.model.ts:198-348 | a falsy id gives "Sell ID is required for update" with nothing written; an unknown key gives an error with nothing written; otherwise header replaced, old items deleted, new items written as in create |
| SellModel.OtherSalesUntouched | src/modules/sell/models/sell.model.ts:226-318 | an update leaves the line items of every other sale as they were |
| SellModel.WithoutSaleKeepsOthers | src/modules/sell/models/sell.model.ts:226-230 | deleting one sale's line items keeps those of every other sale |
| SellModel.FindById | src/modules/sell/models/sell.model.ts:366-385 | found exactly when the key exists; the items are exactly the line items naming the sale |
| SellModel.Delete | src/modules/sell/models/sell.model.ts:350-364 | line items deleted first; then the header is removed and returned, or not found with nothing else changed; afterwards the sale and its items are gone |
| SellModel.SalesOfCustomer | src/modules/sell/models/sell.model.ts:388-391 | exactly the sales whose customer is the one asked for |
| SellModel.InsertByDate | src/modules/sell/models/sell.model.ts:403-405 | inserting into a newest-first list keeps it newest first and adds exactly one element |
| SellModel.InsertedBelow | src/modules/sell/models/sell.model.ts:403-405 | inserting keeps an upper bound on the dates |
| SellModel.SortNewestFirst | src/modules/sell/models/sell.model.ts:403-405 | `orderBy: { createdAt: "desc" }`: newest first and a permutation of the input |
| SellModel.SortedMembers | src/modules/sell/models/sell.model.ts:403-405 | ordering by date keeps exactly the same sales |
| SellModel.WithItems | src/modules/sell/models/sell.model.ts:395-401 | each sale, in order, with exactly its own line items |
| SellModel.Headers | src/modules/sell/models/sell.model.ts:387-409 | the header of each returned sale, position by position |
| SellModel.FindByCustomerId | src/modules/sell/models/sell.model.ts:387-409 | exactly the customer's sales (as a multiset), newest first, each with its own line items |
| SellModel.SaleStats | src/modules/sell/models/sell.model.ts:411-574 | the four labels in order; the values are this month's count, revenue, units sold and average ticket; each change compares it with last month's; the fallback is all zeros with "0%" |
| SellModel.SaleWindowsSplit | src/modules/sell/models/sell.model.ts:423-509 | sales since the first day of last month split exactly into the two windows, in count and in revenue |
| SellModel.NoMatchingSales | src/modules/sell/models/sell.model.ts:423-509 | with no matching sale, count, sum and average are all 0 |
| SellModel.NoMatchingSold | src/modules/sell/models/sell.model.ts:423-509 | with no matching sale, no unit is counted as sold |
| SellModel.QuietSalesReadAsFallback | src/modules/sell/models/sell.model.ts:517-571 | with no sale since the first day of last month, the report equals the error fallback |
| InventoryLedger.Decrement | src/modules/sell/controllers/sell.controller.ts:62-75 | `updateMany` with `decrement`: exactly the rows of the item's (product, color, size) lose its quantity, with no floor; the others are unchanged |
| InventoryLedger.DecrementAll | src/modules/sell/controllers/sell.controller.ts:51-83 | the `updateMany` decrements of a list of line items, applied one after the other |
| InventoryLedger.FoundItems | src/modules/sell/controllers/sell.controller.ts:52-75 | the line items whose `ProductModel.findById` succeeds, the only ones whose decrement is issued, in order |
| InventoryLedger.AllFound | src/modules/sell/controllers/sell.controller.ts:52-83 | `Promise.all` resolves: every line item's product lookup succeeded |
| InventoryLedger.FoundItemsMembers | src/modules/sell/controllers/sell.controller.ts:53-80 | a decrement is issued exactly for the line items whose product exists |
| InventoryLedger.AllFoundMeans | src/modules/sell/controllers/sell.controller.ts:53-93 | "all found" holds exactly when every line item's product exists, and then every decrement is issued |
| InventoryLedger.DecrementAllRowwise | src/modules/sell/controllers/sell.controller.ts:51-84 | each row loses exactly the total quantity of the line items of its combination; nothing else changes; the stock may go negative |
| InventoryLedger.UntouchedRow | src/modules/sell/controllers/sell.controller.ts:62-75 | a row that no line item matches keeps its quantity |
| InventoryLedger.NoDemand | src/modules/sell/controllers/sell.controller.ts:62-75 | with no matching line item, the demand on a row is 0 |
| InventoryLedger.MissingCombinationIsNoOp | src/modules/sell/controllers/sell.controller.ts:62-75 | a line item whose combination has no inventory row changes nothing |
| InventoryLedger.DemandOfPermutation | src/modules/sell/controllers/sell.controller.ts:51-84 | the demand on a row does not depend on the order of the line items |
| InventoryLedger.DemandWithout | src/modules/sell/controllers/sell.controller.ts:51-84 | removing one line item removes exactly its share of the demand |
| InventoryLedger.OrderIndependent | src/modules/sell/controllers/sell.controller.ts:51-84 | the concurrent decrements of `Promise.all` give the same inventory in any order |
| InventoryLedger.DecrementKeepsLinks | src/modules/sell/controllers/sell.controller.ts:62-75 | decrementing keeps every inventory row linked to an existing product |
| SellValidation.ToOption | src/modules/sell/validations/sell.validation.ts:3-17 | a field parses to a value exactly when it is given, and to that value |
| SellValidation.ValidCreateEntry | src/modules/sell/validations/sell.validation.ts:9-15 | one `products` element under `createSellSchema`: an object with a string `productId`, `colorId` and `sizeId` and a positive `quantity` and `totalPrice` |
| SellValidation.ValidCreate | src/modules/sell/validations/sell.validation.ts:3-17 | `createSellSchema` accepts the body: a string `customerId`, optional string `employeeId` and `couponCode`, a positive `totalPrice` and an array of valid entries |
| SellValidation.ValidUpdateEntry | src/modules/sell/validations/sell.validation.ts:19 | one `products` element under the deep-partial schema: an object whose fields may each be left out, and are of the create types when given |
| SellValidation.ValidUpdate | src/modules/sell/validations/sell.validation.ts:19 | `updateSellSchema` accepts the body: every create field may be left out, and given fields and entries have the create types |
| SellValidation.ToEntries | src/modules/sell/validations/sell.validation.ts:8-16 | the parsed `products` array, element by element, an element that is not an object being null |
| SellValidation.Parsed | src/modules/sell/validations/sell.validation.ts:3-17 | the schema drops the undeclared `id` |
| SellValidation.ParseCreate | src/modules/sell/validations/sell.validation.ts:3-17 | succeeds exactly on valid bodies; the result has no `id`, the given customer, a positive total, and as many entries as the body |
| SellValidation.ValidatedEntryResolution | src/modules/sell/validations/sell.validation.ts:8-16 | under the create schema an entry yields a line item iff its `productId` is not empty, with the given quantity and price; the default color or size replaces only an empty one |
| SellValidation.ValidatedHeader | src/modules/sell/validations/sell.validation.ts:4 | a body that passes the schema passes the model's header check iff `customerId` is not empty |
| SellValidation.ParseUpdate | src/modules/sell/validations/sell.validation.ts:19 | succeeds exactly on valid deep-partial bodies; the result never carries an `id`; its entries are the body's |
| SellValidation.CreateBodiesPassUpdate | src/modules/sell/validations/sell.validation.ts:19 | every create-valid body is update-valid and parses to the same request |
| SellValidation.UpdateEntrySkipped | src/modules/sell/validations/sell.validation.ts:19 | an update entry without a (non-empty) `productId` is skipped instead of rejected |
| SellValidation.UpdateEntryDefaults | src/modules/sell/validations/sell.validation.ts:19 | under the update schema an entry with a product but without quantity, price, color or size is written with quantity 1, price 0 and the catalog's first color and size |
| SellValidation.UpdateWithoutProductIds | src/modules/sell/validations/sell.validation.ts:19 | a concrete body that only the update schema accepts, and whose entries write no line item |
| SellController.CreateGate | src/modules/sell/controllers/sell.controller.ts:14-47 | the four early 400s in order; passing means a present, schema-valid body with a non-empty `products`, parsed as the schema parses it |
| SellController.DecrementItem | src/modules/sell/controllers/sell.controller.ts:53-80 | found exactly when the product exists; then the item's decrement, otherwise no change |
| SellController.ApplyLedger | src/modules/sell/controllers/sell.controller.ts:51-84 | inventory becomes the decrements of exactly the line items whose product exists; the result is true iff all exist |
| SellController.LedgerStep | src/modules/sell/controllers/sell.controller.ts:51-84 | one loop step extends the issued decrements by the next item exactly when its product exists |
| SellController.CreateSell | src/modules/sell/controllers/sell.controller.ts:12-98 | a 400 per gate with nothing written; a 500 for model errors; otherwise the sale is written, every existing product's combination is decremented, and the answer is 201 iff all products exist |
| SellController.WithParamsId | src/modules/sell/controllers/sell.controller.ts:102-105 | the route's id is merged into the body (a missing body spreads as empty) |
| SellController.UpdateSell | src/modules/sell/controllers/sell.controller.ts:100-122 | as written: 400 for an invalid body; for every valid body 500, with nothing written |
| SellController.UpdateSellCorrected | src/modules/sell/controllers/sell.controller.ts:100-122 | with the route id kept: 400 for an invalid body; 500 with nothing written for an empty or unknown key; otherwise the header is updated and the sale's old line items deleted, then 500 when entries meet an empty color or size catalog (nothing else written), else the resolved line items are written and answered with 200 |
| SellController.DeleteSell | src/modules/sell/controllers/sell.controller.ts:124-147 | an empty id gives 400 with nothing written; otherwise the line items are deleted, then 200 with the removed header, or 500 if it was not there |
| ProductModel.RowsOfProductNone | src/modules/products/models/product.model.ts:35-53 | a product no row names owns no inventory row |
| ProductModel.RowsOfProductAll | src/modules/products/models/product.model.ts:72-77 | when every row names the product, it owns them all |
| ProductModel.NewRowsAreTheProducts | src/modules/products/models/product.model.ts:41-48 | after appending to a product that owned none, its rows are exactly the appended ones |
| ProductModel.CreateRows | src/modules/products/models/product.model.ts:72-77 | the `createMany` loop appends one row per input, copying size, color and quantity, owned by the product |
| ProductModel.FreshProductHasNoRows | src/modules/products/models/product.model.ts:38-51 | no inventory row names a key not yet minted |
| ProductModel.InsertProduct | src/modules/products/models/product.model.ts:38-51 | the product is appended under a fresh key that owns no row |
| ProductModel.Create | src/modules/products/models/product.model.ts:35-53 | the product is appended with the given fields; its rows are exactly copies of the inventory inputs (none when left out) |
| ProductModel.ReplaceKeepsProducts | src/modules/products/models/product.model.ts:58-63 | replacing a product under its own key keeps keys unique and inventory linked |
| ProductModel.ReplaceInfo | src/modules/products/models/product.model.ts:58-63 | the product takes the new fields and keeps its key and creation time |
| ProductModel.ReplaceRows | src/modules/products/models/product.model.ts:65-78 | the product's rows are deleted and replaced by copies of the inputs; other rows are kept |
| ProductModel.Update | src/modules/products/models/product.model.ts:55-81 | a missing id or unknown key: error, nothing written; an empty inventory list leaves inventory as it was; otherwise the product's rows are exactly the new ones |
| ProductModel.UpdateProductOnly | src/modules/products/models/product.model.ts:84-105 | a falsy id: "Product ID is required for update"; never touches inventory |
| ProductModel.RemoveKeepsLinks | src/modules/products/models/product.model.ts:107-120 | deleting a product after its rows keeps inventory linked |
| ProductModel.WithoutProductNone | src/modules/products/models/product.model.ts:108-112 | deleting the rows of a product that owns none changes nothing |
| ProductModel.Delete | src/modules/products/models/product.model.ts:107-120 | rows deleted first, then the product removed and returned, or not found; afterwards neither remains |
| ProductModel.DeleteKeepsOtherRows | src/modules/products/models/product.model.ts:108-112 | deleting one product's rows keeps every other product's rows |
| ProductModel.ReplaceKeepsOtherRows | src/modules/products/models/product.model.ts:65-78 | replacing one product's rows keeps every other product's rows |
| ProductModel.ProductStats | src/modules/products/models/product.model.ts:139-255 | the four labels in order; the values are total, active, new this month and without stock; new is compared with last month's new, the others with their count before this month; the fallback is all zeros with "0%" |
| ProductModel.EverythingIsAll | src/modules/products/models/product.model.ts:151-200 | `product.count()` counts every product |
| ProductModel.ProductCountSplit | src/modules/products/models/product.model.ts:151-200 | every product was created before this month or during it |
| ProductModel.CountProductsMonotone | src/modules/products/models/product.model.ts:151-200 | a weaker filter never counts fewer products |
| ProductModel.ReportBounds | src/modules/products/models/product.model.ts:208-229 | active and out-of-stock products never outnumber all products |
| ProductModel.NoStockMeaning | src/modules/products/models/product.model.ts:166-174 | "Sin stock" counts a product exactly when none of its rows has positive quantity, including a product with no rows |
| CouponModel.CodeOwner | src/modules/coupons/models/coupon.model.ts:194-201 | a coupon other than the one named already holds the code exactly when one is found |
| CouponModel.Create | src/modules/coupons/models/coupon.model.ts:22-27 | a taken code is refused with nothing written; otherwise the coupon is appended under a fresh key with the given fields |
| CouponModel.ReplaceKeepsCouponsKeyed | src/modules/coupons/models/coupon.model.ts:29-37 | replacing a coupon under its own key with an unused code keeps keys and codes unique |
| CouponModel.Update | src/modules/coupons/models/coupon.model.ts:29-37 | a missing id, an unknown key or a code held by another coupon: error, nothing written; otherwise the coupon takes the new fields, keeping key and creation time |
| CouponModel.Delete | src/modules/coupons/models/coupon.model.ts:39-46 | removes and returns the coupon, or not found with nothing written; afterwards it is gone |
| CouponModel.OthersUntouched | src/modules/coupons/models/coupon.model.ts:29-46 | update and delete keep every coupon under another key |
| CouponModel.FindById | src/modules/coupons/models/coupon.model.ts:48-55 | found exactly when the key exists, and the found coupon has it |
| CouponModel.FindByCode | src/modules/coupons/models/coupon.model.ts:194-201 | found exactly when some coupon holds the code, and the found one does |
| CouponModel.FindByCodeIsTheHolder | src/modules/coupons/models/coupon.model.ts:194-201 | codes are unique, so the lookup answers exactly the coupon holding the code |
| CouponModel.CouponStats | src/modules/coupons/models/coupon.model.ts:57-192 | the four labels in order; the values are all coupons, active and unexpired now, new this month, and the revenue of this month's sales with a coupon; total is compared with the count before this month, "active" with the coupons active at the start of the month, new and discounts with last month's; the fallback is all zeros with "0%" |
| CouponModel.AllCouponsCounted | src/modules/coupons/models/coupon.model.ts:81 | `coupon.count()` counts every coupon |
| CouponModel.CouponCountSplit | src/modules/coupons/models/coupon.model.ts:81-109 | every coupon was created before this month or during it |
| CouponModel.CountCouponsMonotone | src/modules/coupons/models/coupon.model.ts:81-133 | a weaker filter never counts fewer coupons |
| CouponModel.ActiveNowWereActive | src/modules/coupons/models/coupon.model.ts:82-86 | coupons active now that existed before this month are among those counted active at the month's start |
| CouponModel.DiscountedWithinRevenue | src/modules/coupons/models/coupon.model.ts:92-100 | with no negative totals, the revenue of coupon sales is between 0 and the window's whole revenue |

## Left out

- Prisma's `include` joins of customer, employee, coupon, product, color and size records are not modelled. A sale returns its own line items only.
- Logging, the HTTP presenters and the response body formatting are not modelled. A response is reduced to 400 (with its reason), 500, or success with a status and payload.
- Authentication middleware and the routes outside the core are not modelled. This covers `findAll`, `getSellById`, `getAllSells`, `getSellsByAuthenticatedUser`, `getStats`, `ProductModel.findById` and `CouponModel.findAll`.
- `new Date()` and the month arithmetic are parameters. Time is a `Stats.Clock` of integer instants, with the two month starts taken as given.
- Floating point is not modelled. Prices and totals are exact `real`s, quantities are integers, and non-integer quantities (which `z.number()` accepts) are not modelled. NaN is not modelled. `toFixed` rendering is not modelled: a change is kept as its value and sign, and a dollar value as its amount.
- The concurrency of `Promise.all` in `createSell` is reduced to running every callback in list order. `InventoryLedger.OrderIndependent` shows the order does not matter.
- SellModel.CreateLineItems, SellModel.WriteEntries, SellModel.Create and SellModel.Update write the `productSell.create` calls in entry order. The source issues them concurrently through `Promise.all`, so it does not fix the table order of the new line items or which key each one receives. The ordered `ItemDatas(...) == Resolved(...)` these contracts state is one of the possible outcomes. The set of line items written does not depend on the order (`SellModel.ResolvedMembers`).
- The database's own refusals are not modelled: the foreign-key checks when a line item connects a product, color or size; the foreign-key checks on the sale header's `customerId`, `employeeId` and `couponCode`, which `sell.create` and `sell.update` write and which name a customer, an employee and a coupon; deleting a product that line items still reference; `productSell.create` failing part-way. So `SellModel.Create`, `SellModel.Update` and `SellController.CreateSell` accept a header whose customer, employee or coupon does not exist: `CreateSell` writes the sale, decrements stock and answers 201 where the database would refuse the insert and the route would answer 500 with nothing written.
- A key chosen by the caller on create (`data.id`) is not modelled. Keys are minted by the store.
- Whether an absent `data` is handled is not modelled: callers always pass a record.
- `SellController.ProductsFalsy` approximates JavaScript truthiness on the `products` property. It covers left out, `null`, and a value of another type that JavaScript reads as false.
- `CouponModel.Update` returns the error `CouponIdRequired` where Prisma would throw on `where: { id: undefined }`.
- `ProductModel.Update` returns the error `ProductIdRequired` when `data.id` is absent. The source's `update` makes no such check, and Prisma throws on `where: { id: undefined }`. Both end in an error with nothing written.
- The Prisma schema file is not part of this model. Code uniqueness is inferred from `findUnique({ where: { code } })`.
- "Sin stock" follows the code rather than a reading of "zero total stock". A product counts when none of its rows has quantity above 0, which includes products without rows and products whose rows all went negative.
- `SellModel.create` follows the code's order: the header is written before the color and size catalog is checked. An empty catalog leaves a header without line items behind, together with the error.

## Findings

| source | as written | input that shows it | evidently intended | confidence | as-written member | corrected member |
|---|---|---|---|---|---|---|
| src/modules/sell/controllers/sell.controller.ts:102-110 | `updateSellSchema.safeParse({ ...req.body, id: req.params.id })`, then `SellModel.update(result.data)`; the object schema does not declare `id` and drops it, so `update` always throws "Sell ID is required for update" | `PUT /sells/<existing id>` with body `{ "totalPrice": 10 }`: the answer is 500 and the sale is unchanged | the route's id reaches the model, and the named sale is updated | not executed | SellController.UpdateSell | SellController.UpdateSellCorrected |
