/** What the three monthly-statistics reports share: the two month windows,
    the `calculateChange` rule, and the shape of one reported metric. */
module Stats {
  import opened Common
  import opened Db

  /** The instants the reports are anchored to: now, and the first instants of
      this and of the previous calendar month. */
  datatype Clock = Clock(now: int, firstDayOfMonth: int, firstDayOfLastMonth: int)

  predicate ValidClock(c: Clock) {
    c.firstDayOfLastMonth < c.firstDayOfMonth <= c.now
  }

  /** `createdAt: { gte: firstDayOfMonth }`. */
  function ThisMonth(c: Clock): Range {
    Range(Some(c.firstDayOfMonth), None)
  }

  /** `createdAt: { gte: firstDayOfLastMonth, lt: firstDayOfMonth }`. */
  function LastMonth(c: Clock): Range {
    Range(Some(c.firstDayOfLastMonth), Some(c.firstDayOfMonth))
  }

  /** `createdAt: { lt: firstDayOfMonth }`. */
  function BeforeThisMonth(c: Clock): Range {
    Range(None, Some(c.firstDayOfMonth))
  }

  const AnyTime: Range := Range(None, None)

  /** The two windows never share an instant, and last month lies before this month. */
  lemma WindowsDisjoint(c: Clock, t: int)
    ensures !(InRange(t, ThisMonth(c)) && InRange(t, LastMonth(c)))
    ensures InRange(t, LastMonth(c)) ==> InRange(t, BeforeThisMonth(c))
    ensures InRange(t, BeforeThisMonth(c)) <==> !InRange(t, ThisMonth(c))
  {
  }

  /** The percentage change shown next to a metric: "+100%", "0%", or a signed
      percentage ("+" exactly when `nonNeg`). The one-decimal rendering is not modelled. */
  datatype Change = Plus100 | Zero | Pct(nonNeg: bool, value: real)

  /** `calculateChange(current, previous)`. */
  function CalculateChange(current: real, previous: real): (c: Change)
    ensures previous == 0.0 ==> (c == Plus100 <==> current > 0.0) && (c == Zero <==> current <= 0.0)
    ensures previous != 0.0 ==> c.Pct? && c.value * previous == (current - previous) * 100.0
    ensures c.Pct? ==> (c.nonNeg <==> 0.0 <= c.value)
  {
    if previous == 0.0 then
      (if current > 0.0 then Plus100 else Zero)
    else
      var change := (current - previous) / previous * 100.0;
      Pct(change >= 0.0, change)
  }

  /** With a positive previous value the change carries "+" exactly when the
      metric did not fall. */
  lemma ChangeSign(current: real, previous: real)
    requires previous > 0.0
    ensures CalculateChange(current, previous).Pct?
    ensures CalculateChange(current, previous).nonNeg <==> current >= previous
  {
    var c := CalculateChange(current, previous);
    var v := c.value;
    assert v * previous == (current - previous) * 100.0;
    if v >= 0.0 {
      assert v * previous >= 0.0;
    } else {
      assert v * previous < 0.0;
    }
  }

  /** An unchanged non-zero metric shows "+0.0%". */
  lemma ChangeOfSteadyMetric(x: real)
    requires x != 0.0
    ensures CalculateChange(x, x) == Pct(true, 0.0)
  {
    var c := CalculateChange(x, x);
    assert c.value * x == 0.0;
  }

  /** The value column: a plain number (`toString`) or a dollar amount (`$` + two decimals). */
  datatype StatValue = Number(n: int) | Dollars(amount: real)

  function Amount(v: StatValue): real {
    match v
    case Number(n) => n as real
    case Dollars(a) => a
  }

  /** One entry of a report; `title` is the entry's `label` (a reserved word in Dafny). */
  datatype Stat = Stat(title: string, value: StatValue, change: Change)

  /** One reported metric: its current value, and its change against the previous one. */
  function MakeStat(title: string, value: StatValue, previous: real): (s: Stat)
    ensures s.title == title && s.value == value
    ensures s.change == CalculateChange(Amount(value), previous)
  {
    Stat(title, value, CalculateChange(Amount(value), previous))
  }

  /** The entry the error fallback reports: "0" or "$0.00", with change "0%". */
  function ZeroStat(title: string, dollars: bool): (s: Stat)
    ensures s.title == title && Amount(s.value) == 0.0 && s.change == Zero
  {
    Stat(title, if dollars then Dollars(0.0) else Number(0), Zero)
  }

  function Labels(stats: seq<Stat>): (r: seq<string>)
    ensures |r| == |stats| && forall k | 0 <= k < |r| :: r[k] == stats[k].title
  {
    if stats == [] then [] else [stats[0].title] + Labels(stats[1..])
  }

  /** A metric that was zero in both months reads exactly like its fallback entry. */
  lemma QuietMetricIsFallback(title: string, dollars: bool)
    ensures MakeStat(title, if dollars then Dollars(0.0) else Number(0), 0.0) == ZeroStat(title, dollars)
  {
  }
}
