/** The HTTP handlers of the sale routes, reduced to their outcome: a 400 rejection
    (with its reason), a 500 failure, or success with its status and payload.
    `CreateSell` gates the request, creates the sale, then decrements inventory for
    every line item of the new sale; `UpdateSell` and `DeleteSell` never touch
    inventory. */
module SellController {
  import opened Common
  import opened Db
  import opened SellModel
  import opened SellValidation
  import opened InventoryLedger

  datatype Rejection =
    | BodyMissing
    | ProductsMissing
    | SchemaInvalid
    | NoProducts
    | SaleIdMissing

  datatype Response<T> = BadRequest(reason: Rejection) | ServerError | Success(status: int, payload: T)

  /** `!req.body.products`: left out, null, or a falsy value of another type. */
  predicate ProductsFalsy(f: Field<seq<Field<RawEntry>>>) {
    f.Absent? || f.Null? || (f.Mistyped? && f.falsy)
  }

  /** The four early returns of `createSell`, in order; on success, the validated request. */
  function CreateGate(body: Option<Body>): (r: Result<SellRequest, Rejection>)
    ensures r.Ok? <==> body.Some? && ValidCreate(body.value) && body.value.products.value != []
    ensures r.Ok? ==> Some(r.value) == ParseCreate(body.value) && Entries(r.value) != []
    ensures body.None? ==> r == Err(BodyMissing)
    ensures body.Some? && ProductsFalsy(body.value.products) ==> r == Err(ProductsMissing)
    ensures body.Some? && !ProductsFalsy(body.value.products) && !ValidCreate(body.value) ==> r == Err(SchemaInvalid)
    ensures body.Some? && ValidCreate(body.value) && body.value.products.value == [] ==> r == Err(NoProducts)
  {
    if body.None? then Err(BodyMissing)
    else if ProductsFalsy(body.value.products) then Err(ProductsMissing)
    else if !ValidCreate(body.value) then Err(SchemaInvalid)
    else if |body.value.products.value| == 0 then Err(NoProducts)
    else Ok(ParseCreate(body.value).value)
  }

  /** The callback `createSell` runs for one line item: look its product up and, when
      it exists, decrement the rows of the item's combination. */
  method DecrementItem(db: Store, d: ItemData) returns (found: bool)
    requires InventoryLinked(db.inventory, db.products, db.nextId)
    modifies db`inventory
    ensures InventoryLinked(db.inventory, db.products, db.nextId)
    ensures found <==> HasProduct(db.products, d.productId)
    ensures db.inventory == if found then Decrement(old(db.inventory), d) else old(db.inventory)
  {
    var product := FindProduct(db.products, d.productId);
    if product.None? {
      return false;
    }
    DecrementKeepsLinks(db.inventory, d, db.products, db.nextId);
    db.inventory := Decrement(db.inventory, d);
    found := true;
  }

  /** The line-item loop of `createSell`: every lookup and decrement runs, even after
      one lookup has failed; the result says whether all succeeded. */
  method ApplyLedger(db: Store, items: seq<LineItem>) returns (allFound: bool)
    requires db.Valid()
    modifies db`inventory
    ensures db.Valid()
    ensures db.inventory == DecrementAll(old(db.inventory), FoundItems(db.products, ItemDatas(items)))
    ensures allFound <==> AllFound(db.products, ItemDatas(items))
  {
    var ds := ItemDatas(items);
    ghost var inv0 := db.inventory;
    allFound := true;
    var i := 0;
    while i < |items|
      invariant 0 <= i <= |items|
      invariant InventoryLinked(db.inventory, db.products, db.nextId)
      invariant db.inventory == DecrementAll(inv0, FoundItems(db.products, ds[..i]))
      invariant allFound <==> AllFound(db.products, ds[..i])
    {
      LedgerStep(inv0, db.inventory, db.products, ds, i);
      var found := DecrementItem(db, items[i].data);
      allFound := allFound && found;
      i := i + 1;
    }
    assert ds[..i] == ds;
  }

  /** The loop step of `ApplyLedger`: the next line item's decrement is issued exactly
      when its product exists, and then extends the decrements issued so far. */
  lemma LedgerStep(inv0: seq<InventoryRow>, inv: seq<InventoryRow>, products: seq<Product>, ds: seq<ItemData>, i: int)
    requires 0 <= i < |ds|
    requires inv == DecrementAll(inv0, FoundItems(products, ds[..i]))
    ensures (if HasProduct(products, ds[i].productId) then Decrement(inv, ds[i]) else inv)
        == DecrementAll(inv0, FoundItems(products, ds[..i + 1]))
    ensures AllFound(products, ds[..i + 1]) <==> AllFound(products, ds[..i]) && HasProduct(products, ds[i].productId)
  {
    var pre := ds[..i + 1];
    assert pre[..i] == ds[..i] && pre[i] == ds[i];
    var found := FoundItems(products, ds[..i]);
    if HasProduct(products, ds[i].productId) {
      assert FoundItems(products, pre) == found + [ds[i]];
      assert (found + [ds[i]])[..|found|] == found;
      assert DecrementAll(inv0, found + [ds[i]]) == Decrement(DecrementAll(inv0, found), ds[i]);
    } else {
      assert FoundItems(products, pre) == found;
    }
  }

  /** `SellController.createSell`. */
  method CreateSell(db: Store, body: Option<Body>, now: int) returns (resp: Response<SaleView>)
    requires db.Valid()
    modifies db`sales, db`productSells, db`nextId, db`inventory
    ensures db.Valid()
    ensures CreateGate(body).Err? ==> resp == BadRequest(CreateGate(body).error) && unchanged(db)
    ensures CreateGate(body).Ok? && HeaderError(CreateGate(body).value).Some? ==>
      resp == ServerError && unchanged(db)
    ensures CreateGate(body).Ok? && HeaderError(CreateGate(body).value).None? ==>
      var req := CreateGate(body).value;
      var header := NewHeader(MintedId(old(db.nextId)), req, now);
      && db.sales == old(db.sales) + [header]
      && ((db.colors == [] || db.sizes == []) ==>
            && resp == ServerError
            && db.productSells == old(db.productSells) && db.inventory == old(db.inventory))
      && (db.colors != [] && db.sizes != [] ==>
            var items := ItemsOfSale(db.productSells, header.id);
            && ItemDatas(items) == Resolved(Entries(req), db.colors[0], db.sizes[0])
            && db.productSells == old(db.productSells) + items
            && db.inventory == DecrementAll(old(db.inventory), FoundItems(db.products, ItemDatas(items)))
            && (AllFound(db.products, ItemDatas(items)) ==> resp == Success(201, SaleView(header, items)))
            && (!AllFound(db.products, ItemDatas(items)) ==> resp == ServerError))
  {
    var gate := CreateGate(body);
    if gate.Err? {
      return BadRequest(gate.error);
    }
    var sale := SellModel.Create(db, gate.value, now);
    if sale.Err? {
      return ServerError;
    }
    var allFound := ApplyLedger(db, sale.value.items);
    if !allFound {
      return ServerError;
    }
    resp := Success(201, sale.value);
  }

  /** `{ ...req.body, id: req.params.id }`; a missing body spreads as an empty object. */
  function WithParamsId(body: Option<Body>, paramsId: Id): (b: Body)
    ensures b.id == Given(paramsId)
  {
    body.GetOr(EmptyBody).(id := Given(paramsId))
  }

  /** `SellController.updateSell` as written: the route's id is merged into the body
      before parsing, and the schema drops it, so the model always fails for want of
      an id and the handler answers 500 to every valid body, without writing. */
  method UpdateSell(db: Store, paramsId: Id, body: Option<Body>) returns (resp: Response<SaleView>)
    requires db.Valid()
    modifies db`sales, db`productSells, db`nextId
    ensures db.Valid() && unchanged(db)
    ensures !ValidUpdate(WithParamsId(body, paramsId)) ==> resp == BadRequest(SchemaInvalid)
    ensures ValidUpdate(WithParamsId(body, paramsId)) ==> resp == ServerError
  {
    var parsed := ParseUpdate(WithParamsId(body, paramsId));
    if parsed.None? {
      return BadRequest(SchemaInvalid);
    }
    var sale := SellModel.Update(db, parsed.value);
    match sale {
      case Ok(view) => resp := Success(200, view);
      case Err(_) => resp := ServerError;
    }
  }

  /** The route's id as `updateSell` evidently means it: the parsed body with the id
      put back. The sale is then updated as `SellModel.update` promises. */
  method UpdateSellCorrected(db: Store, paramsId: Id, body: Option<Body>) returns (resp: Response<SaleView>)
    requires db.Valid()
    modifies db`sales, db`productSells, db`nextId
    ensures db.Valid()
    ensures !ValidUpdate(WithParamsId(body, paramsId)) ==> resp == BadRequest(SchemaInvalid) && unchanged(db)
    ensures ValidUpdate(WithParamsId(body, paramsId)) && (paramsId == "" || !HasSale(old(db.sales), paramsId)) ==>
      resp == ServerError && unchanged(db)
    ensures ValidUpdate(WithParamsId(body, paramsId)) && paramsId != "" && HasSale(old(db.sales), paramsId) ==>
      var req := ParseUpdate(WithParamsId(body, paramsId)).value;
      var updated := ApplyHeader(FindSale(old(db.sales), paramsId).value, req);
      && db.sales == ReplaceSale(old(db.sales), paramsId, updated)
      && (Entries(req) == [] ==>
            resp == Success(200, SaleView(updated, [])) && db.productSells == WithoutSale(old(db.productSells), paramsId))
      && (Entries(req) != [] && (db.colors == [] || db.sizes == []) ==>
            resp == ServerError && db.productSells == WithoutSale(old(db.productSells), paramsId))
      && (Entries(req) != [] && db.colors != [] && db.sizes != [] ==>
            && resp.Success? && resp.status == 200 && resp.payload.sale == updated
            && resp.payload.items == ItemsOfSale(db.productSells, paramsId)
            && ItemDatas(resp.payload.items) == Resolved(Entries(req), db.colors[0], db.sizes[0])
            && db.productSells == WithoutSale(old(db.productSells), paramsId) + resp.payload.items)
  {
    var parsed := ParseUpdate(WithParamsId(body, paramsId));
    if parsed.None? {
      return BadRequest(SchemaInvalid);
    }
    var req := parsed.value.(id := Some(paramsId));
    if paramsId != "" && HasSale(db.sales, paramsId) {
      assert ApplyHeader(FindSale(db.sales, paramsId).value, req)
          == ApplyHeader(FindSale(db.sales, paramsId).value, parsed.value);
    }
    var sale := SellModel.Update(db, req);
    if sale.Err? {
      return ServerError;
    }
    resp := Success(200, sale.value);
  }

  /** `SellController.deleteSell`. */
  method DeleteSell(db: Store, paramsId: Id) returns (resp: Response<Sale>)
    requires db.Valid()
    modifies db`sales, db`productSells
    ensures db.Valid()
    ensures paramsId == "" ==> resp == BadRequest(SaleIdMissing) && unchanged(db)
    ensures paramsId != "" ==>
      && db.productSells == WithoutSale(old(db.productSells), paramsId)
      && (HasSale(old(db.sales), paramsId) ==>
            && resp == Success(200, FindSale(old(db.sales), paramsId).value)
            && db.sales == RemoveSale(old(db.sales), paramsId))
      && (!HasSale(old(db.sales), paramsId) ==> resp == ServerError && unchanged(db))
  {
    if paramsId == "" {
      return BadRequest(SaleIdMissing);
    }
    var sale := SellModel.Delete(db, paramsId);
    if sale.Err? {
      return ServerError;
    }
    resp := Success(200, sale.value);
  }
}
