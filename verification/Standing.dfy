/** Balance, open usage and the verdict that follows, as exact numbers. */
module Standing {
  import opened Wrappers
  import opened Calendar
  import opened Pricing

  /** A user's billed month. */
  datatype Cycle = Cycle(userId: string, periodStart: int, periodEnd: int, totalCost: int, overdue: bool)

  /** Hours in thousandths, cost in cents. */
  datatype Usage = Usage(hours: int, cost: int)

  /** Amounts in cents, free hours in thousandths, the runway in tenths of an hour. */
  datatype Standing = Standing(
    balance: int,
    accrued: int,
    available: int,
    freeHoursLeft: int,
    canRun: bool,
    hoursLeft: Option<int>,
    runsLow: bool
  )

  function UsageIn(intervals: seq<Interval>, plan: Plan, p: Period, rates: Rates): Usage {
    Usage(RoundHalfUp(HoursIn(intervals, p) * 1000.0), CycleCost(intervals, plan, p, rates))
  }

  /** From the first of the month up to `now`. */
  function CurrentPeriod(now: int): Period {
    Period(MonthPeriodOf(now).start, now)
  }

  predicate Billed(cycles: seq<Cycle>, userId: string, periodStart: int) {
    exists k :: 0 <= k < |cycles| && cycles[k].userId == userId && cycles[k].periodStart == periodStart
  }

  function FreeLeft(plan: Plan, usedThousandths: int): int {
    Max(0, RoundHalfUp(plan.freeHoursPerMonth * 1000.0 - usedThousandths as real))
  }

  predicate CanRun(available: int, freeHoursLeft: int) {
    available > 0 || (available >= 0 && freeHoursLeft > 0)
  }

  // ---------- Burn rate and runway ----------

  /** A map that keeps the order keys were first set in. */
  type Running = seq<(string, Interval)>

  function SetRunning(m: Running, key: string, i: Interval): Running {
    if m == [] then [(key, i)]
    else if m[0].0 == key then [(key, i)] + m[1..]
    else [m[0]] + SetRunning(m[1..], key, i)
  }

  /** The running servers: per deployment the last open interval listed. */
  function OpenByDeployment(intervals: seq<Interval>): Running {
    if intervals == [] then []
    else
      var rest, last := OpenByDeployment(intervals[..|intervals| - 1]), intervals[|intervals| - 1];
      if last.stoppedAt.None? then SetRunning(rest, last.deploymentId, last) else rest
  }

  function PerHour(m: Running, plan: Plan, rates: Rates): real {
    if m == [] then 0.0
    else PerHour(m[..|m| - 1], plan, rates) + HourlyCost(m[|m| - 1].1, plan, rates)
  }

  datatype Burn = Burn(perHour: real, running: nat)

  function BurnRate(intervals: seq<Interval>, plan: Plan, rates: Rates): Burn {
    var open := OpenByDeployment(intervals);
    Burn(PerHour(open, plan, rates), |open|)
  }

  /** Fills the map in one pass and adds up its values in another. */
  method ComputeBurnRate(intervals: seq<Interval>, plan: Plan, rates: Rates) returns (burn: Burn)
    ensures burn == BurnRate(intervals, plan, rates)
  {
    hide HourlyCost;
    var open: Running := [];
    for k := 0 to |intervals|
      invariant open == OpenByDeployment(intervals[..k])
    {
      assert intervals[..k + 1][..k] == intervals[..k];
      if intervals[k].stoppedAt.None? {
        open := SetRunning(open, intervals[k].deploymentId, intervals[k]);
      }
    }
    assert intervals[..|intervals|] == intervals;
    var perHour := 0.0;
    for k := 0 to |open|
      invariant perHour == PerHour(open[..k], plan, rates)
    {
      assert open[..k + 1][..k] == open[..k];
      perHour := perHour + HourlyCost(open[k].1, plan, rates);
    }
    assert open[..|open|] == open;
    return Burn(perHour, |open|);
  }

  function RunwayHours(available: int, freeHoursLeft: int, burn: Burn): Option<int> {
    if burn.running == 0 || burn.perHour <= 0.0 then None
    else
      var free := if available >= 0 then freeHoursLeft as real / 1000.0 / burn.running as real else 0.0;
      Some(RoundHalfUp((free + Max(0, available) as real / burn.perHour) * 10.0))
  }

  /** `cycles` and `intervals` are those of the account in question. */
  function ComputeStanding(balance: int, userId: string, intervals: seq<Interval>, cycles: seq<Cycle>, plan: Plan,
                           now: int, rates: Rates, lowCreditHours: real): Standing
  {
    var thisMonth := UsageIn(intervals, plan, CurrentPeriod(now), rates);
    var previous := PreviousMonthPeriod(now);
    var unbilledPrevious :=
      if Billed(cycles, userId, previous.start) then 0 else UsageIn(intervals, plan, previous, rates).cost;
    var accrued := thisMonth.cost + unbilledPrevious;
    var available := balance - accrued;
    var free := FreeLeft(plan, thisMonth.hours);
    var hoursLeft := RunwayHours(available, free, BurnRate(intervals, plan, rates));
    Standing(balance, accrued, available, free, CanRun(available, free), hoursLeft,
             hoursLeft.Some? && hoursLeft.value as real / 10.0 < lowCreditHours)
  }
}
