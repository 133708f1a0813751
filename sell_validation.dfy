/** The request schemas of the sale routes. `createSellSchema` requires the header's
    customer and a positive total and, for every product entry, all five fields with
    positive quantity and price; `updateSellSchema` is its deep-partial version, in
    which every field, nested ones included, may be left out. Both are object schemas
    that drop the properties they do not declare, `id` among them. */
module SellValidation {
  import opened Common
  import opened SellModel

  /** A property of the incoming JSON as the schema sees it: left out, `null`, present
      with a type the schema does not accept (`falsy` says whether JavaScript reads
      the value as false), or present with a value of the declared type. */
  datatype Field<T> = Absent | Null | Mistyped(falsy: bool) | Given(value: T)

  datatype RawEntry = RawEntry(
    productId: Field<string>,
    quantity: Field<int>,
    totalPrice: Field<real>,
    colorId: Field<string>,
    sizeId: Field<string>)

  /** The request body of the sale routes. */
  datatype Body = Body(
    id: Field<string>,
    customerId: Field<string>,
    employeeId: Field<string>,
    totalPrice: Field<real>,
    couponCode: Field<string>,
    products: Field<seq<Field<RawEntry>>>)

  const EmptyBody: Body := Body(Absent, Absent, Absent, Absent, Absent, Absent)

  /** `.optional()`: left out, or given with the declared type. */
  predicate Optional<T>(f: Field<T>) {
    f.Absent? || f.Given?
  }

  function ToOption<T>(f: Field<T>): (r: Option<T>)
    ensures r.Some? <==> f.Given?
    ensures r.Some? ==> r.value == f.value
  {
    if f.Given? then Some(f.value) else None
  }

  predicate PositiveInt(f: Field<int>) {
    f.Given? && f.value > 0
  }

  predicate PositiveReal(f: Field<real>) {
    f.Given? && f.value > 0.0
  }

  // ------------------------------------------------------------ create

  /** One element of `products` under `createSellSchema`. */
  predicate ValidCreateEntry(e: Field<RawEntry>) {
    && e.Given?
    && e.value.productId.Given?
    && PositiveInt(e.value.quantity)
    && PositiveReal(e.value.totalPrice)
    && e.value.colorId.Given?
    && e.value.sizeId.Given?
  }

  /** `createSellSchema.safeParse(body).success`. */
  predicate ValidCreate(b: Body) {
    && b.customerId.Given?
    && Optional(b.employeeId)
    && PositiveReal(b.totalPrice)
    && Optional(b.couponCode)
    && b.products.Given?
    && forall k | 0 <= k < |b.products.value| :: ValidCreateEntry(b.products.value[k])
  }

  function ToEntry(e: RawEntry): EntryRequest {
    EntryRequest(ToOption(e.productId), ToOption(e.quantity), ToOption(e.totalPrice),
                 ToOption(e.colorId), ToOption(e.sizeId))
  }

  /** The parsed `products` array; an element that is not an object parses to null. */
  function ToEntries(es: seq<Field<RawEntry>>): (r: seq<Option<EntryRequest>>)
    ensures |r| == |es|
    ensures forall k | 0 <= k < |es| :: r[k] == if es[k].Given? then Some(ToEntry(es[k].value)) else None
  {
    seq(|es|, k requires 0 <= k < |es| => if es[k].Given? then Some(ToEntry(es[k].value)) else None)
  }

  /** What the schema hands on for a body it accepts: the declared fields only. */
  function Parsed(b: Body): (r: SellRequest)
    ensures r.id.None?
  {
    SellRequest(None, ToOption(b.customerId), ToOption(b.employeeId), ToOption(b.totalPrice),
                ToOption(b.couponCode), if b.products.Given? then Some(ToEntries(b.products.value)) else None)
  }

  /** `createSellSchema.safeParse(body)`: the parsed request, or none when invalid. */
  function ParseCreate(b: Body): (r: Option<SellRequest>)
    ensures r.Some? <==> ValidCreate(b)
    ensures r.Some? ==>
      && r.value.id.None?
      && r.value.customerId == Some(b.customerId.value)
      && r.value.totalPrice == Some(b.totalPrice.value) && b.totalPrice.value > 0.0
      && r.value.products.Some? && |r.value.products.value| == |b.products.value|
  {
    if ValidCreate(b) then Some(Parsed(b)) else None
  }

  /** Under the create schema every entry is an object with all five fields, so the
      model never defaults quantity or price: an entry becomes a line item exactly when
      its `productId` is not empty, carrying the given quantity and price, and the
      catalog color or size replaces only an empty one. */
  lemma ValidatedEntryResolution(b: Body, k: int, dc: Id, ds: Id)
    requires ValidCreate(b) && 0 <= k < |b.products.value|
    ensures var raw := b.products.value[k].value;
      var r := ResolveEntry(Entries(ParseCreate(b).value)[k], dc, ds);
      && (r.Some? <==> raw.productId.value != "")
      && (r.Some? ==>
            && r.value.quantity == raw.quantity.value
            && r.value.totalPrice == raw.totalPrice.value
            && r.value.colorId == (if raw.colorId.value != "" then raw.colorId.value else dc)
            && r.value.sizeId == (if raw.sizeId.value != "" then raw.sizeId.value else ds))
  {
    assert ValidCreateEntry(b.products.value[k]);
  }

  /** The schema accepts an empty `customerId`, which the model's own check then
      rejects: a validated header passes that check exactly when the customer is not
      the empty string. */
  lemma ValidatedHeader(b: Body)
    requires ValidCreate(b)
    ensures HeaderError(ParseCreate(b).value).None? <==> b.customerId.value != ""
  {
  }

  // ------------------------------------------------------------ update

  predicate OptionalPositiveInt(f: Field<int>) {
    f.Absent? || PositiveInt(f)
  }

  predicate OptionalPositiveReal(f: Field<real>) {
    f.Absent? || PositiveReal(f)
  }

  /** One element of `products` under the deep-partial schema: an object whose fields
      may each be left out. */
  predicate ValidUpdateEntry(e: Field<RawEntry>) {
    && e.Given?
    && Optional(e.value.productId)
    && OptionalPositiveInt(e.value.quantity)
    && OptionalPositiveReal(e.value.totalPrice)
    && Optional(e.value.colorId)
    && Optional(e.value.sizeId)
  }

  /** `updateSellSchema.safeParse(body).success`. */
  predicate ValidUpdate(b: Body) {
    && Optional(b.customerId)
    && Optional(b.employeeId)
    && OptionalPositiveReal(b.totalPrice)
    && Optional(b.couponCode)
    && (b.products.Absent? ||
        (b.products.Given? && forall k | 0 <= k < |b.products.value| :: ValidUpdateEntry(b.products.value[k])))
  }

  /** `updateSellSchema.safeParse(body)`. The parsed request never carries an `id`:
      the schema does not declare one, so it is dropped whatever the body held. */
  function ParseUpdate(b: Body): (r: Option<SellRequest>)
    ensures r.Some? <==> ValidUpdate(b)
    ensures r.Some? ==> r.value.id.None?
    ensures r.Some? ==> Entries(r.value) == (if b.products.Given? then ToEntries(b.products.value) else [])
  {
    if ValidUpdate(b) then Some(Parsed(b)) else None
  }

  /** The deep-partial schema accepts every body the create schema accepts, and parses
      it to the same request. */
  lemma CreateBodiesPassUpdate(b: Body)
    requires ValidCreate(b)
    ensures ValidUpdate(b) && ParseUpdate(b) == ParseCreate(b)
  {
    forall k | 0 <= k < |b.products.value|
      ensures ValidUpdateEntry(b.products.value[k])
    {
      assert ValidCreateEntry(b.products.value[k]);
    }
  }

  /** Under the update schema an entry may lack `productId`; the model then skips it
      rather than failing. */
  lemma UpdateEntrySkipped(b: Body, k: int, dc: Id, ds: Id)
    requires ValidUpdate(b) && b.products.Given? && 0 <= k < |b.products.value|
    ensures var raw := b.products.value[k].value;
      var r := ResolveEntry(Entries(ParseUpdate(b).value)[k], dc, ds);
      r.None? <==> raw.productId.Absent? || raw.productId.value == ""
  {
    assert ValidUpdateEntry(b.products.value[k]);
  }

  /** Under the update schema an entry may leave out quantity, price, color and size;
      the line item then takes quantity 1, price 0 and the catalog's first color and
      size, and keeps the `productId` it was given. */
  lemma UpdateEntryDefaults(b: Body, k: int, dc: Id, ds: Id)
    requires ValidUpdate(b) && b.products.Given? && 0 <= k < |b.products.value|
    requires b.products.value[k].Given?
    ensures var raw := b.products.value[k].value;
      var r := ResolveEntry(Entries(ParseUpdate(b).value)[k], dc, ds);
      raw.productId.Given? && raw.productId.value != "" ==>
        && r.Some? && r.value.productId == raw.productId.value
        && r.value.quantity == (if raw.quantity.Given? then raw.quantity.value else 1)
        && r.value.totalPrice == (if raw.totalPrice.Given? then raw.totalPrice.value else 0.0)
        && r.value.colorId == (if raw.colorId.Given? && raw.colorId.value != "" then raw.colorId.value else dc)
        && r.value.sizeId == (if raw.sizeId.Given? && raw.sizeId.value != "" then raw.sizeId.value else ds)
  {
    assert ValidUpdateEntry(b.products.value[k]);
  }

  /** An update body whose only entry leaves out `productId` is valid, and rebuilds no
      line item at all. */
  lemma UpdateWithoutProductIds(dc: Id, ds: Id)
    ensures var b := EmptyBody.(products := Given([Given(RawEntry(Absent, Given(2), Absent, Absent, Absent))]));
      ValidUpdate(b) && !ValidCreate(b) && Resolved(Entries(ParseUpdate(b).value), dc, ds) == []
  {
    var b := EmptyBody.(products := Given([Given(RawEntry(Absent, Given(2), Absent, Absent, Absent))]));
    var es := Entries(ParseUpdate(b).value);
    assert es[..0] == [];
    assert !ValidCreateEntry(b.products.value[0]);
  }
}
