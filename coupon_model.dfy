/** Coupons: create, update and delete by key, lookup by key and by the unique code,
    and the monthly coupon report, whose last metric sums the totals of the sales
    that applied a coupon. */
module CouponModel {
  import opened Common
  import opened Db
  import opened Stats

  datatype CouponError = CouponIdRequired | CouponNotFound | DuplicateCode

  /** Some coupon other than the one keyed `id` already holds `code`. */
  predicate CodeTaken(coupons: seq<Coupon>, code: string, id: Option<Id>) {
    exists c | c in coupons :: c.info.code == code && (id.None? || c.id != id.value)
  }

  function CodeOwner(coupons: seq<Coupon>, code: string, id: Option<Id>): (r: Option<Coupon>)
    ensures r.Some? <==> CodeTaken(coupons, code, id)
  {
    if coupons == [] then None
    else if coupons[0].info.code == code && (id.None? || coupons[0].id != id.value) then Some(coupons[0])
    else CodeOwner(coupons[1..], code, id)
  }

  /** `CouponModel.create`: a new coupon under a fresh key, refused when its code is
      already in use. */
  method Create(db: Store, info: CouponInfo, now: int) returns (r: Result<Coupon, CouponError>)
    requires db.Valid()
    modifies db`coupons, db`nextId
    ensures db.Valid()
    ensures CodeTaken(old(db.coupons), info.code, None) ==> r == Err(DuplicateCode) && unchanged(db)
    ensures !CodeTaken(old(db.coupons), info.code, None) ==>
      && r == Ok(Coupon(MintedId(old(db.nextId)), info, now))
      && db.coupons == old(db.coupons) + [r.value]
  {
    if CodeOwner(db.coupons, info.code, None).Some? {
      return Err(DuplicateCode);
    }
    var id := db.Mint();
    var c := Coupon(id, info, now);
    db.coupons := db.coupons + [c];
    r := Ok(c);
  }

  /** Replacing a coupon by a row with the same key and an unused code keeps the
      table's keys and codes unique. */
  lemma ReplaceKeepsCouponsKeyed(coupons: seq<Coupon>, id: Id, row: Coupon, n: nat)
    requires CouponsKeyed(coupons, n) && HasCoupon(coupons, id) && row.id == id
    requires !CodeTaken(coupons, row.info.code, Some(id))
    ensures CouponsKeyed(ReplaceCoupon(coupons, id, row), n)
  {
    var r := ReplaceCoupon(coupons, id, row);
    var c :| c in coupons && c.id == id;
    assert IdBelow(row.id, n);
  }

  /** `CouponModel.update`: the coupon keyed `id` takes the new fields and keeps its
      key and creation time; a missing id, an unknown key and a code held by another
      coupon are refused. */
  method Update(db: Store, id: Option<Id>, info: CouponInfo) returns (r: Result<Coupon, CouponError>)
    requires db.Valid()
    modifies db`coupons
    ensures db.Valid()
    ensures id.None? ==> r == Err(CouponIdRequired) && unchanged(db)
    ensures id.Some? && !HasCoupon(old(db.coupons), id.value) ==> r == Err(CouponNotFound) && unchanged(db)
    ensures id.Some? && HasCoupon(old(db.coupons), id.value) && CodeTaken(old(db.coupons), info.code, id) ==>
      r == Err(DuplicateCode) && unchanged(db)
    ensures id.Some? && HasCoupon(old(db.coupons), id.value) && !CodeTaken(old(db.coupons), info.code, id) ==>
      var updated := FindCoupon(old(db.coupons), id.value).value.(info := info);
      r == Ok(updated) && db.coupons == ReplaceCoupon(old(db.coupons), id.value, updated)
  {
    if id.None? {
      return Err(CouponIdRequired);
    }
    var found := FindCoupon(db.coupons, id.value);
    if found.None? {
      return Err(CouponNotFound);
    }
    if CodeOwner(db.coupons, info.code, id).Some? {
      return Err(DuplicateCode);
    }
    var updated := found.value.(info := info);
    ReplaceKeepsCouponsKeyed(db.coupons, id.value, updated, db.nextId);
    db.coupons := ReplaceCoupon(db.coupons, id.value, updated);
    r := Ok(updated);
  }

  /** `CouponModel.delete`: remove the coupon keyed `id` and return it as it was. */
  method Delete(db: Store, id: Id) returns (r: Result<Coupon, CouponError>)
    requires db.Valid()
    modifies db`coupons
    ensures db.Valid()
    ensures !HasCoupon(old(db.coupons), id) ==> r == Err(CouponNotFound) && unchanged(db)
    ensures HasCoupon(old(db.coupons), id) ==>
      r == Ok(FindCoupon(old(db.coupons), id).value) && db.coupons == RemoveCoupon(old(db.coupons), id)
    ensures FindCoupon(db.coupons, id).None?
  {
    var found := FindCoupon(db.coupons, id);
    if found.None? {
      return Err(CouponNotFound);
    }
    db.coupons := RemoveCoupon(db.coupons, id);
    r := Ok(found.value);
  }

  /** Update and delete leave every coupon with another key as it was. */
  lemma OthersUntouched(coupons: seq<Coupon>, id: Id, row: Coupon, c: Coupon)
    requires row.id == id && c in coupons && c.id != id
    ensures c in ReplaceCoupon(coupons, id, row) && c in RemoveCoupon(coupons, id)
  {
  }

  /** `CouponModel.findById`. */
  function FindById(db: Store, id: Id): (r: Option<Coupon>)
    reads db
    ensures r.Some? <==> HasCoupon(db.coupons, id)
    ensures r.Some? ==> r.value in db.coupons && r.value.id == id
  {
    FindCoupon(db.coupons, id)
  }

  /** `CouponModel.findByCode`. */
  function FindByCode(db: Store, code: string): (r: Option<Coupon>)
    reads db
    ensures r.Some? <==> exists c | c in db.coupons :: c.info.code == code
    ensures r.Some? ==> r.value in db.coupons && r.value.info.code == code
  {
    FindCouponByCode(db.coupons, code)
  }

  /** Codes are unique, so a lookup by code answers exactly the coupon holding it. */
  lemma FindByCodeIsTheHolder(db: Store, c: Coupon)
    requires db.Valid() && c in db.coupons
    ensures FindByCode(db, c.info.code) == Some(c)
  {
  }

  // ------------------------------------------------------------ monthly report

  const CouponTitles: seq<string> := ["Total cupones", "Cupones activos", "Cupones nuevos", "Descuentos aplicados"]

  function AllCoupons(): CouponWhere { CouponWhere(None, None, AnyTime) }
  /** `status: "active", endDate: { gte: at }` and a creation range. */
  function ActiveAt(at: int, created: Range): CouponWhere { CouponWhere(Some("active"), Some(at), created) }
  function CreatedIn(created: Range): CouponWhere { CouponWhere(None, None, created) }
  /** `couponCode: { not: null }` and a creation range, over the sales. */
  function Discounted(created: Range): SaleWhere { SaleWhere(created, true) }

  /** `CouponModel.getMonthlyStats`; `failed` says whether one of the eight queries threw. */
  function CouponStats(coupons: seq<Coupon>, sales: seq<Sale>, clock: Clock, failed: bool): (r: seq<Stat>)
    requires ValidClock(clock)
    ensures |r| == 4 && Labels(r) == CouponTitles
    ensures failed ==> forall k | 0 <= k < 4 :: r[k] == ZeroStat(CouponTitles[k], k == 3)
    ensures !failed ==>
      && r[0].value == Number(|coupons|)
      && r[1].value == Number(CountCoupons(coupons, ActiveAt(clock.now, AnyTime)))
      && r[2].value == Number(CountCoupons(coupons, CreatedIn(ThisMonth(clock))))
      && r[3].value == Dollars(SumTotals(sales, Discounted(ThisMonth(clock))))
      && r[0].change == CalculateChange(|coupons| as real, CountCoupons(coupons, CreatedIn(BeforeThisMonth(clock))) as real)
      && r[1].change == CalculateChange(
           CountCoupons(coupons, ActiveAt(clock.now, AnyTime)) as real,
           CountCoupons(coupons, ActiveAt(clock.firstDayOfMonth, BeforeThisMonth(clock))) as real)
      && r[2].change == CalculateChange(CountCoupons(coupons, CreatedIn(ThisMonth(clock))) as real,
                                        CountCoupons(coupons, CreatedIn(LastMonth(clock))) as real)
      && r[3].change == CalculateChange(SumTotals(sales, Discounted(ThisMonth(clock))),
                                        SumTotals(sales, Discounted(LastMonth(clock))))
  {
    if failed then
      [ZeroStat(CouponTitles[0], false), ZeroStat(CouponTitles[1], false),
       ZeroStat(CouponTitles[2], false), ZeroStat(CouponTitles[3], true)]
    else
      var before := BeforeThisMonth(clock);
      AllCouponsCounted(coupons);
      [MakeStat(CouponTitles[0], Number(CountCoupons(coupons, AllCoupons())),
                CountCoupons(coupons, CreatedIn(before)) as real),
       MakeStat(CouponTitles[1], Number(CountCoupons(coupons, ActiveAt(clock.now, AnyTime))),
                CountCoupons(coupons, ActiveAt(clock.firstDayOfMonth, before)) as real),
       MakeStat(CouponTitles[2], Number(CountCoupons(coupons, CreatedIn(ThisMonth(clock)))),
                CountCoupons(coupons, CreatedIn(LastMonth(clock))) as real),
       MakeStat(CouponTitles[3], Dollars(SumTotals(sales, Discounted(ThisMonth(clock)))),
                SumTotals(sales, Discounted(LastMonth(clock))))]
  }

  /** `coupon.count()` with no filter counts every coupon. */
  lemma {:induction false} AllCouponsCounted(coupons: seq<Coupon>)
    ensures CountCoupons(coupons, AllCoupons()) == |coupons|
  {
    if coupons != [] {
      AllCouponsCounted(coupons[1..]);
    }
  }

  /** Every coupon was created before this month or during it. */
  lemma {:induction false} CouponCountSplit(coupons: seq<Coupon>, clock: Clock)
    ensures CountCoupons(coupons, AllCoupons())
      == CountCoupons(coupons, CreatedIn(BeforeThisMonth(clock))) + CountCoupons(coupons, CreatedIn(ThisMonth(clock)))
  {
    if coupons != [] {
      CouponCountSplit(coupons[1..], clock);
    }
  }

  lemma {:induction false} CountCouponsMonotone(coupons: seq<Coupon>, w: CouponWhere, w': CouponWhere)
    requires forall c | c in coupons :: CouponMatches(c, w) ==> CouponMatches(c, w')
    ensures CountCoupons(coupons, w) <= CountCoupons(coupons, w')
  {
    if coupons != [] {
      CountCouponsMonotone(coupons[1..], w, w');
    }
  }

  /** A coupon active now that existed before this month was already active at the
      start of the month, so those coupons are among last month's active ones. */
  lemma ActiveNowWereActive(coupons: seq<Coupon>, clock: Clock)
    requires ValidClock(clock)
    ensures CountCoupons(coupons, ActiveAt(clock.now, BeforeThisMonth(clock)))
         <= CountCoupons(coupons, ActiveAt(clock.firstDayOfMonth, BeforeThisMonth(clock)))
  {
    CountCouponsMonotone(coupons, ActiveAt(clock.now, BeforeThisMonth(clock)),
                         ActiveAt(clock.firstDayOfMonth, BeforeThisMonth(clock)));
  }

  /** With no negative sale totals, the discounted revenue of a window never exceeds
      the window's whole revenue. */
  lemma {:induction false} DiscountedWithinRevenue(sales: seq<Sale>, created: Range)
    requires forall s | s in sales :: s.totalPrice >= 0.0
    ensures 0.0 <= SumTotals(sales, Discounted(created)) <= SumTotals(sales, SaleWhere(created, false))
  {
    if sales != [] {
      DiscountedWithinRevenue(sales[1..], created);
    }
  }
}
