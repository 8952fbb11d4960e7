/** Pricing and the monthly charge. Money is counted in cents, so `roundCurrency`
    is rounding to an integer; rates, hours and amounts are exact reals. */
module Pricing {
  import opened Wrappers
  import opened Calendar

  const MS_PER_HOUR: real := 3600000.0

  datatype Plan = Plan(id: string, pricePerHour: real, freeHoursPerMonth: real, active: bool)

  const DEFAULT_PLAN := Plan("standard", 2.0, 100.0, true)

  datatype Limits = Limits(cpuPercent: Option<real>, ramPercent: Option<real>)

  /** A stretch of time a server ran, or runs while `stoppedAt` is None. */
  datatype Interval = Interval(
    userId: string,
    deploymentId: string,
    planId: string,
    limits: Limits,
    startedAt: int,
    stoppedAt: Option<int>
  )

  /** Price per hour by plan id; ids outside the map have no rate of their own. */
  type Rates = map<string, real>

  ghost predicate ValidPlan(p: Plan) {
    p.pricePerHour >= 0.0 && p.freeHoursPerMonth >= 0.0
  }

  ghost predicate ValidRates(rates: Rates) {
    forall id :: id in rates ==> rates[id] >= 0.0
  }

  // ---------- Rounding ----------

  function RoundHalfUp(x: real): int {
    (x + 0.5).Floor
  }

  lemma RoundMonotone(x: real, y: real)
    requires x <= y
    ensures RoundHalfUp(x) <= RoundHalfUp(y)
  {
  }

  /** Whole amounts pass through a rounding untouched. */
  lemma RoundShift(n: int, x: real)
    ensures RoundHalfUp(n as real + x) == n + RoundHalfUp(x)
    ensures RoundHalfUp(n as real) == n
  {
  }

  // ---------- Wallet ----------

  function ApplyTopUp(balance: int, amount: real): int {
    RoundHalfUp(balance as real + MaxReal(0.0, amount))
  }

  function ApplyCharge(balance: int, amount: int): int {
    RoundHalfUp(balance as real - Max(0, amount) as real)
  }

  predicate CanCover(balance: int, amount: int) {
    balance >= amount
  }

  // ---------- Size and time ----------

  /** The multiplier in hundredths: (cpu + ram) / 100 rounded to two decimals,
      never below 0.25; an absent limit counts as 50. */
  function FactorHundredths(limits: Limits): int {
    var cpu := if limits.cpuPercent.Some? then limits.cpuPercent.value else 50.0;
    var ram := if limits.ramPercent.Some? then limits.ramPercent.value else 50.0;
    Max(25, RoundHalfUp(cpu + ram))
  }

  function ResourceFactor(limits: Limits): real {
    FactorHundredths(limits) as real / 100.0
  }

  /** How many milliseconds of `i` fall inside `p`, where one without a stop fills
      the rest of `p`. */
  function ClipMs(i: Interval, p: Period): int {
    var start := Max(i.startedAt, p.start);
    var stop := Min(if i.stoppedAt.Some? then i.stoppedAt.value else p.end, p.end);
    if stop <= start then 0 else stop - start
  }

  function ClipHours(i: Interval, p: Period): real {
    ClipMs(i, p) as real / MS_PER_HOUR
  }

  /** The hours of a list of intervals inside a period. */
  function HoursIn(intervals: seq<Interval>, p: Period): real {
    if intervals == [] then 0.0
    else HoursIn(intervals[..|intervals| - 1], p) + ClipHours(intervals[|intervals| - 1], p)
  }

  function UnitCost(pricePerHour: real, limits: Limits): real {
    pricePerHour * ResourceFactor(limits)
  }

  /** Priced by the plan the interval names, or by `plan` when that has no rate. */
  function HourlyCost(i: Interval, plan: Plan, rates: Rates): real {
    UnitCost(if i.planId in rates then rates[i.planId] else plan.pricePerHour, i.limits)
  }

  // ---------- Interval order ----------

  /** A stable insertion by start: `i` goes behind every interval starting no later. */
  function Insert(ordered: seq<Interval>, i: Interval): seq<Interval> {
    if ordered == [] || ordered[|ordered| - 1].startedAt <= i.startedAt then ordered + [i]
    else Insert(ordered[..|ordered| - 1], i) + [ordered[|ordered| - 1]]
  }

  function SortByStart(intervals: seq<Interval>): seq<Interval> {
    if intervals == [] then []
    else Insert(SortByStart(intervals[..|intervals| - 1]), intervals[|intervals| - 1])
  }

  ghost predicate Sorted(s: seq<Interval>) {
    forall j, k :: 0 <= j < k < |s| ==> s[j].startedAt <= s[k].startedAt
  }

  /** The members starting at `t`, in order. */
  function StartingAt(s: seq<Interval>, t: int): seq<Interval> {
    if s == [] then []
    else StartingAt(s[..|s| - 1], t) + (if s[|s| - 1].startedAt == t then [s[|s| - 1]] else [])
  }

  lemma {:induction false} InsertPermutes(ordered: seq<Interval>, i: Interval)
    ensures multiset(Insert(ordered, i)) == multiset(ordered) + multiset{i}
  {
    var n := |ordered|;
    if n > 0 && ordered[n - 1].startedAt > i.startedAt {
      InsertPermutes(ordered[..n - 1], i);
      assert ordered == ordered[..n - 1] + [ordered[n - 1]];
    }
  }

  lemma {:induction false} InsertSorts(ordered: seq<Interval>, i: Interval)
    requires Sorted(ordered)
    ensures Sorted(Insert(ordered, i))
  {
    var n := |ordered|;
    if n > 0 && ordered[n - 1].startedAt > i.startedAt {
      var front, last := ordered[..n - 1], ordered[n - 1];
      InsertSorts(front, i);
      InsertPermutes(front, i);
      var inserted := Insert(front, i);
      forall x | x in inserted
        ensures x.startedAt <= last.startedAt
      {
        assert x in multiset(inserted);
        assert x == i || x in front;
      }
      SortedAppend(inserted, last);
    }
  }

  lemma SortedAppend(s: seq<Interval>, last: Interval)
    requires Sorted(s) && forall x :: x in s ==> x.startedAt <= last.startedAt
    ensures Sorted(s + [last])
  {
  }

  lemma {:induction false} InsertIsStable(ordered: seq<Interval>, i: Interval, t: int)
    ensures StartingAt(Insert(ordered, i), t) == StartingAt(ordered, t) + (if i.startedAt == t then [i] else [])
  {
    var n := |ordered|;
    if n == 0 || ordered[n - 1].startedAt <= i.startedAt {
      assert (ordered + [i])[..n] == ordered;
    } else {
      var front, last := ordered[..n - 1], ordered[n - 1];
      InsertIsStable(front, i, t);
      var r := Insert(front, i);
      assert (r + [last])[..|r|] == r;
    }
  }

  /** Lines are taken in the order of their starts: sorted, a permutation… */
  lemma {:induction false} SortSorts(intervals: seq<Interval>)
    ensures Sorted(SortByStart(intervals)) && multiset(SortByStart(intervals)) == multiset(intervals)
  {
    hide Insert, Sorted;
    if intervals == [] {
      EmptyIsSorted();
    } else {
      var front, last := intervals[..|intervals| - 1], intervals[|intervals| - 1];
      SortSorts(front);
      InsertSorts(SortByStart(front), last);
      InsertPermutes(SortByStart(front), last);
      assert intervals == front + [last];
    }
  }

  lemma EmptyIsSorted()
    ensures Sorted([])
  {
  }

  /** …that keeps intervals with one start as they were listed. */
  lemma {:induction false} SortIsStable(intervals: seq<Interval>, t: int)
    ensures StartingAt(SortByStart(intervals), t) == StartingAt(intervals, t)
  {
    if intervals != [] {
      var front, last := intervals[..|intervals| - 1], intervals[|intervals| - 1];
      SortIsStable(front, t);
      InsertIsStable(SortByStart(front), last, t);
    }
  }

  // ---------- The charge ----------

  /** So many hours at so much an hour. */
  datatype Line = Line(hours: real, weight: real)

  ghost predicate ValidLines(ls: seq<Line>) {
    forall k :: 0 <= k < |ls| ==> ls[k].hours >= 0.0 && ls[k].weight >= 0.0
  }

  function LineCost(hours: real, free: real, weight: real): real {
    (hours - free) * weight
  }

  /** The free pool covers lines from the front; the uncovered part of each is charged. */
  function Charge(ls: seq<Line>, free: real): real {
    if ls == [] then 0.0
    else
      var applied := MinReal(free, ls[0].hours);
      LineCost(ls[0].hours, applied, ls[0].weight) + Charge(ls[1..], free - applied)
  }

  function TotalHours(ls: seq<Line>): real {
    if ls == [] then 0.0 else ls[0].hours + TotalHours(ls[1..])
  }

  function LinesOf(ordered: seq<Interval>, plan: Plan, period: Period, rates: Rates): seq<Line> {
    seq(|ordered|, k requires 0 <= k < |ordered| =>
      Line(ClipHours(ordered[k], period), HourlyCost(ordered[k], plan, rates)))
  }

  function CycleCost(intervals: seq<Interval>, plan: Plan, period: Period, rates: Rates): int {
    RoundHalfUp(Charge(LinesOf(SortByStart(intervals), plan, period, rates), plan.freeHoursPerMonth))
  }

  lemma LinesAreValid(ordered: seq<Interval>, plan: Plan, period: Period, rates: Rates)
    requires ValidPlan(plan) && ValidRates(rates)
    ensures ValidLines(LinesOf(ordered, plan, period, rates))
  {
    forall k | 0 <= k < |ordered|
      ensures HourlyCost(ordered[k], plan, rates) >= 0.0
    {
      var rate := if ordered[k].planId in rates then rates[ordered[k].planId] else plan.pricePerHour;
      NonNegative(rate, ResourceFactor(ordered[k].limits));
    }
  }

  lemma NonNegative(a: real, b: real)
    requires a >= 0.0 && b >= 0.0
    ensures a * b >= 0.0
  {
  }

  lemma ChargeStep(ls: seq<Line>, k: nat, line: Line, free: real)
    requires k < |ls| && ls[k] == line && free >= 0.0 && line.hours >= 0.0 && line.weight >= 0.0
    ensures var applied := MinReal(free, line.hours);
      && LineCost(line.hours, applied, line.weight) >= 0.0
      && Charge(ls[k..], free) == LineCost(line.hours, applied, line.weight) + Charge(ls[k + 1..], free - applied)
      && (line.hours <= 0.0 ==> applied == 0.0 && LineCost(line.hours, applied, line.weight) == 0.0)
  {
    assert ls[k..][0] == ls[k] && ls[k..][1..] == ls[k + 1..];
    NonNegative(line.hours - MinReal(free, line.hours), line.weight);
  }

  /** The loop of the cycle runner, over the ordered intervals. */
  method ComputeCycleCost(intervals: seq<Interval>, plan: Plan, period: Period, rates: Rates) returns (cents: int)
    requires ValidPlan(plan) && ValidRates(rates)
    ensures cents == CycleCost(intervals, plan, period, rates) && cents >= 0
  {
    var ordered := SortByStart(intervals);
    ghost var ls := LinesOf(ordered, plan, period, rates);
    LinesAreValid(ordered, plan, period, rates);
    var remainingFree := plan.freeHoursPerMonth;
    var cost := 0.0;
    for k := 0 to |ordered|
      invariant remainingFree >= 0.0 && cost >= 0.0
      invariant Charge(ls, plan.freeHoursPerMonth) == cost + Charge(ls[k..], remainingFree)
    {
      var h := ClipHours(ordered[k], period);
      var weight := HourlyCost(ordered[k], plan, rates);
      ChargeStep(ls, k, Line(h, weight), remainingFree);
      if h > 0.0 {
        var freeApplied := MinReal(remainingFree, h);
        remainingFree := remainingFree - freeApplied;
        cost := cost + LineCost(h, freeApplied, weight);
      }
    }
    cents := RoundHalfUp(cost);
  }
}
