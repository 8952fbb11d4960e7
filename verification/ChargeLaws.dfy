/** Laws of the monthly charge: it only grows with usage, no free hour is wasted or
    granted twice, and for one plan and size it is the simple formula. */
module ChargeLaws {
  import opened Wrappers
  import opened Calendar
  import opened Pricing

  // ---------- Lines ----------

  lemma LineMonotone(hours: real, free: real, hours2: real, free2: real, weight: real)
    requires hours - free <= hours2 - free2 && weight >= 0.0
    ensures LineCost(hours, free, weight) <= LineCost(hours2, free2, weight)
  {
  }

  /** More hours on any line, or fewer free hours, never make the charge smaller. */
  lemma {:induction false} ChargeMonotone(a: seq<Line>, b: seq<Line>, freeA: real, freeB: real)
    requires ValidLines(a) && ValidLines(b) && |a| == |b| && freeA >= freeB >= 0.0
    requires forall k :: 0 <= k < |a| ==> a[k].hours <= b[k].hours && a[k].weight == b[k].weight
    ensures Charge(a, freeA) <= Charge(b, freeB)
  {
    hide LineCost;
    if a != [] {
      var x, y := MinReal(freeA, a[0].hours), MinReal(freeB, b[0].hours);
      LineMonotone(a[0].hours, x, b[0].hours, y, a[0].weight);
      ChargeMonotone(a[1..], b[1..], freeA - x, freeB - y);
    }
  }

  lemma {:induction false} ChargeSkipsIdleLine(a: seq<Line>, idle: Line, b: seq<Line>, free: real)
    requires ValidLines(a) && free >= 0.0 && idle.hours == 0.0
    ensures Charge(a + [idle] + b, free) == Charge(a + b, free)
  {
    if a == [] {
      assert a + [idle] + b == [idle] + b && a + b == b;
      assert ([idle] + b)[1..] == b;
      assert LineCost(0.0, 0.0, idle.weight) == 0.0;
    } else {
      ChargeSkipsIdleLine(a[1..], idle, b, free - MinReal(free, a[0].hours));
      assert (a + [idle] + b)[1..] == a[1..] + [idle] + b;
      assert (a + b)[1..] == a[1..] + b;
    }
  }

  /** The free hours the loop hands out. */
  function FreeApplied(ls: seq<Line>, free: real): real {
    if ls == [] then 0.0
    else
      var applied := MinReal(free, ls[0].hours);
      applied + FreeApplied(ls[1..], free - applied)
  }

  /** Together the lines are given the whole grant, or all they ran. */
  lemma {:induction false} FreeHoursExact(ls: seq<Line>, free: real)
    requires ValidLines(ls) && free >= 0.0
    ensures TotalHours(ls) >= 0.0
    ensures FreeApplied(ls, free) == MinReal(free, TotalHours(ls))
  {
    if ls != [] {
      FreeHoursExact(ls[1..], free - MinReal(free, ls[0].hours));
    }
  }

  lemma CostAdds(h: real, f: real, g: real, k: real, w: real)
    ensures LineCost(h, f, w) + LineCost(g, k, w) == LineCost(h + g, f + k, w)
    ensures LineCost(0.0, 0.0, w) == 0.0
  {
  }

  lemma {:induction false} UniformCharge(ls: seq<Line>, free: real, weight: real)
    requires ValidLines(ls) && free >= 0.0
    requires forall k :: 0 <= k < |ls| ==> ls[k].weight == weight
    ensures Charge(ls, free) == LineCost(TotalHours(ls), MinReal(free, TotalHours(ls)), weight)
  {
    hide LineCost;
    if ls == [] {
      CostAdds(0.0, 0.0, 0.0, 0.0, weight);
    } else {
      var x, rest := MinReal(free, ls[0].hours), ls[1..];
      UniformCharge(rest, free - x, weight);
      FreeHoursExact(rest, free - x);
      CostAdds(ls[0].hours, x, TotalHours(rest), MinReal(free - x, TotalHours(rest)), weight);
    }
  }

  // ---------- Order ----------

  /** `y` ran at least as long as `x` in the periods they are billed for, on the
      same terms and in the same place of the order. */
  ghost predicate Extends(x: Interval, p: Period, y: Interval, q: Period) {
    && x.startedAt == y.startedAt && x.planId == y.planId && x.limits == y.limits
    && ClipMs(x, p) <= ClipMs(y, q)
  }

  ghost predicate AllExtend(xs: seq<Interval>, p: Period, ys: seq<Interval>, q: Period) {
    |xs| == |ys| && forall k :: 0 <= k < |xs| ==> Extends(xs[k], p, ys[k], q)
  }

  lemma {:induction false} InsertExtends(xs: seq<Interval>, x: Interval,
                                         p: Period, ys: seq<Interval>, y: Interval, q: Period)
    requires AllExtend(xs, p, ys, q) && Extends(x, p, y, q)
    ensures AllExtend(Insert(xs, x), p, Insert(ys, y), q)
  {
    var n := |xs|;
    if n > 0 && xs[n - 1].startedAt > x.startedAt {
      InsertExtends(xs[..n - 1], x, p, ys[..n - 1], y, q);
    }
  }

  lemma {:induction false} SortExtends(xs: seq<Interval>, p: Period, ys: seq<Interval>, q: Period)
    requires AllExtend(xs, p, ys, q)
    ensures AllExtend(SortByStart(xs), p, SortByStart(ys), q)
  {
    var n := |xs|;
    if n > 0 {
      SortExtends(xs[..n - 1], p, ys[..n - 1], q);
      InsertExtends(SortByStart(xs[..n - 1]), xs[n - 1], p, SortByStart(ys[..n - 1]), ys[n - 1], q);
    }
  }

  lemma InsertLast(s: seq<Interval>, last: Interval, j: Interval)
    ensures Insert(s + [last], j) ==
      if last.startedAt <= j.startedAt then s + [last] + [j] else Insert(s, j) + [last]
  {
    assert (s + [last])[..|s|] == s;
  }

  lemma AppendAssoc(a: seq<Interval>, b: seq<Interval>, c: seq<Interval>)
    ensures a + (b + c) == a + b + c
  {
  }

  /** An insertion beside `i` leaves the others as if `i` were not there. */
  lemma {:induction false} InsertAround(l: seq<Interval>, i: Interval, r: seq<Interval>, j: Interval)
    returns (l2: seq<Interval>, r2: seq<Interval>)
    requires Sorted(l + [i])
    ensures Insert(l + [i] + r, j) == l2 + [i] + r2
    ensures Insert(l + r, j) == l2 + r2
    decreases |r|
  {
    if r == [] {
      assert l + [i] + r == l + [i] && l + r == l;
      l2, r2 := InsertAtEnd(l, i, j);
    } else {
      var front, last := r[..|r| - 1], r[|r| - 1];
      assert r == front + [last];
      AppendAssoc(l + [i], front, [last]);
      AppendAssoc(l, front, [last]);
      InsertLast(l + [i] + front, last, j);
      InsertLast(l + front, last, j);
      if last.startedAt <= j.startedAt {
        l2, r2 := l, r + [j];
        AppendAssoc(l + [i], r, [j]);
        AppendAssoc(l, r, [j]);
      } else {
        var f: seq<Interval>;
        l2, f := InsertAround(l, i, front, j);
        r2 := f + [last];
        AppendAssoc(l2 + [i], f, [last]);
        AppendAssoc(l2, f, [last]);
      }
    }
  }

  lemma InsertAtEnd(l: seq<Interval>, i: Interval, j: Interval) returns (l2: seq<Interval>, r2: seq<Interval>)
    requires Sorted(l + [i])
    ensures Insert(l + [i], j) == l2 + [i] + r2
    ensures Insert(l, j) == l2 + r2
  {
    InsertLast(l, i, j);
    if i.startedAt <= j.startedAt {
      l2, r2 := l, [j];
      assert l != [] ==> (l + [i])[|l| - 1] == l[|l| - 1] && (l + [i])[|l|] == i;
    } else {
      l2, r2 := Insert(l, j), [];
      assert l2 + [i] + r2 == l2 + [i] && l2 + r2 == l2;
    }
  }

  lemma SortLast(a: seq<Interval>, last: Interval)
    ensures SortByStart(a + [last]) == Insert(SortByStart(a), last)
  {
    assert (a + [last])[..|a|] == a;
  }

  /** Sorting with one more interval only slips it into the old order. */
  lemma {:induction false} SortWithOneMore(a: seq<Interval>, i: Interval, b: seq<Interval>)
    returns (l: seq<Interval>, r: seq<Interval>)
    ensures SortByStart(a + [i] + b) == l + [i] + r
    ensures SortByStart(a + b) == l + r
    decreases |b|
  {
    if b == [] {
      assert a + [i] + b == a + [i] && a + b == a;
      SortLast(a, i);
      l, r := InsertSplits(SortByStart(a), i);
    } else {
      var front, last := b[..|b| - 1], b[|b| - 1];
      assert b == front + [last];
      AppendAssoc(a + [i], front, [last]);
      AppendAssoc(a, front, [last]);
      SortLast(a + [i] + front, last);
      SortLast(a + front, last);
      var l1, r1 := SortWithOneMore(a, i, front);
      SortedPrefix(a + [i] + front, l1 + [i], r1);
      l, r := InsertAround(l1, i, r1, last);
    }
  }

  lemma SortedPrefix(s: seq<Interval>, front: seq<Interval>, back: seq<Interval>)
    requires SortByStart(s) == front + back
    ensures Sorted(front)
  {
    SortSorts(s);
    assert forall k :: 0 <= k < |front| ==> (front + back)[k] == front[k];
  }

  lemma {:induction false} InsertSplits(s: seq<Interval>, i: Interval) returns (l: seq<Interval>, r: seq<Interval>)
    ensures Insert(s, i) == l + [i] + r && s == l + r
  {
    var n := |s|;
    if n == 0 || s[n - 1].startedAt <= i.startedAt {
      l, r := s, [];
    } else {
      l, r := InsertSplits(s[..n - 1], i);
      r := r + [s[n - 1]];
    }
  }

  // ---------- The cycle's cost ----------

  lemma LinesExtend(xs: seq<Interval>, p: Period, ys: seq<Interval>, q: Period, plan: Plan, rates: Rates)
    requires AllExtend(xs, p, ys, q)
    ensures var a, b := LinesOf(xs, plan, p, rates), LinesOf(ys, plan, q, rates);
      forall k :: 0 <= k < |xs| ==> a[k].hours <= b[k].hours && a[k].weight == b[k].weight
  {
    forall k | 0 <= k < |xs|
      ensures ClipHours(xs[k], p) <= ClipHours(ys[k], q)
    {
      assert Extends(xs[k], p, ys[k], q);
    }
  }

  /** Running longer, or being billed up to a later moment, never costs less. */
  lemma CostMonotone(xs: seq<Interval>, p: Period, ys: seq<Interval>, q: Period, plan: Plan, rates: Rates)
    requires ValidPlan(plan) && ValidRates(rates) && AllExtend(xs, p, ys, q)
    ensures CycleCost(xs, plan, p, rates) <= CycleCost(ys, plan, q, rates)
  {
    SortExtends(xs, p, ys, q);
    var sx, sy := SortByStart(xs), SortByStart(ys);
    LinesAreValid(sx, plan, p, rates);
    LinesAreValid(sy, plan, q, rates);
    LinesExtend(sx, p, sy, q, plan, rates);
    ChargeMonotone(LinesOf(sx, plan, p, rates), LinesOf(sy, plan, q, rates),
      plan.freeHoursPerMonth, plan.freeHoursPerMonth);
  }

  /** The same interval with its stop moved back or taken away; one without a stop
      counts as reaching `p.end`. */
  predicate StopsLater(x: Interval, p: Period, y: Interval) {
    && y == x.(stoppedAt := y.stoppedAt)
    && (y.stoppedAt.Some? ==> (if x.stoppedAt.Some? then x.stoppedAt.value else p.end) <= y.stoppedAt.value)
  }

  lemma StopsLaterExtends(x: Interval, p: Period, y: Interval, q: Period)
    requires StopsLater(x, p, y) && p.start == q.start && p.end <= q.end
    ensures Extends(x, p, y, q)
  {
  }

  /** Stopping any of the intervals later, and ending the period later, never cost less. */
  lemma LaterCostsNoLess(xs: seq<Interval>, p: Period, ys: seq<Interval>, q: Period, plan: Plan, rates: Rates)
    requires ValidPlan(plan) && ValidRates(rates) && p.start == q.start && p.end <= q.end
    requires |xs| == |ys| && forall k :: 0 <= k < |xs| ==> StopsLater(xs[k], p, ys[k])
    ensures CycleCost(xs, plan, p, rates) <= CycleCost(ys, plan, q, rates)
  {
    hide CycleCost, StopsLater;
    forall k | 0 <= k < |xs|
      ensures Extends(xs[k], p, ys[k], q)
    {
      StopsLaterExtends(xs[k], p, ys[k], q);
    }
    CostMonotone(xs, p, ys, q, plan, rates);
  }

  /** A line slipped into valid lines never lowers their charge. */
  lemma ChargeWithOneMore(a: seq<Line>, line: Line, b: seq<Line>, free: real)
    requires ValidLines(a + [line] + b) && free >= 0.0
    ensures Charge(a + b, free) <= Charge(a + [line] + b, free)
  {
    var ls, idle := a + [line] + b, Line(0.0, line.weight);
    var idled := a + [idle] + b;
    assert ls[|a|] == line && forall k :: 0 <= k < |a| ==> ls[k] == a[k];
    assert forall k :: 0 <= k < |ls| && k != |a| ==> idled[k] == ls[k];
    ChargeSkipsIdleLine(a, idle, b, free);
    ChargeMonotone(idled, ls, free, free);
  }

  /** One more interval, wherever it stands in the list, never costs less. */
  lemma CostOfOneMore(a: seq<Interval>, i: Interval, b: seq<Interval>, plan: Plan, p: Period, rates: Rates)
    requires ValidPlan(plan) && ValidRates(rates)
    ensures CycleCost(a + b, plan, p, rates) <= CycleCost(a + [i] + b, plan, p, rates)
  {
    var l, r := SortWithOneMore(a, i, b);
    var line := Line(ClipHours(i, p), HourlyCost(i, plan, rates));
    var before, after := LinesOf(l, plan, p, rates), LinesOf(r, plan, p, rates);
    LinesAreValid(l + [i] + r, plan, p, rates);
    assert LinesOf(l + [i] + r, plan, p, rates) == before + [line] + after;
    assert LinesOf(l + r, plan, p, rates) == before + after;
    ChargeWithOneMore(before, line, after, plan.freeHoursPerMonth);
  }

  lemma {:induction false} ChargeNonNegative(ls: seq<Line>, free: real)
    requires ValidLines(ls) && free >= 0.0
    ensures Charge(ls, free) >= 0.0
  {
    if ls != [] {
      var applied := MinReal(free, ls[0].hours);
      NonNegative(ls[0].hours - applied, ls[0].weight);
      ChargeNonNegative(ls[1..], free - applied);
    }
  }

  lemma CostNonNegative(intervals: seq<Interval>, plan: Plan, p: Period, rates: Rates)
    requires ValidPlan(plan) && ValidRates(rates)
    ensures CycleCost(intervals, plan, p, rates) >= 0
  {
    var ls := LinesOf(SortByStart(intervals), plan, p, rates);
    LinesAreValid(SortByStart(intervals), plan, p, rates);
    ChargeNonNegative(ls, plan.freeHoursPerMonth);
  }

  // ---------- The simple formula ----------

  function BillableHours(total: real, plan: Plan): real {
    MaxReal(0.0, total - plan.freeHoursPerMonth)
  }

  function ComputeCharge(total: real, plan: Plan, limits: Limits): int {
    RoundHalfUp(LineCost(BillableHours(total, plan), 0.0, UnitCost(plan.pricePerHour, limits)))
  }

  lemma {:induction false} TotalAppend(ls: seq<Line>, line: Line)
    ensures TotalHours(ls + [line]) == TotalHours(ls) + line.hours
  {
    if ls == [] {
      assert ls + [line] == [line] && [line][1..] == [];
    } else {
      TotalAppend(ls[1..], line);
      assert (ls + [line])[1..] == ls[1..] + [line];
    }
  }

  lemma {:induction false} InsertTotal(s: seq<Interval>, i: Interval, p: Period)
    ensures HoursIn(Insert(s, i), p) == HoursIn(s, p) + ClipHours(i, p)
  {
    var n := |s|;
    if n == 0 || s[n - 1].startedAt <= i.startedAt {
      assert (s + [i])[..n] == s;
    } else {
      InsertTotal(s[..n - 1], i, p);
      var r := Insert(s[..n - 1], i);
      assert (r + [s[n - 1]])[..|r|] == r;
    }
  }

  lemma {:induction false} SortTotal(intervals: seq<Interval>, p: Period)
    ensures HoursIn(SortByStart(intervals), p) == HoursIn(intervals, p)
  {
    if intervals != [] {
      var n := |intervals| - 1;
      SortTotal(intervals[..n], p);
      InsertTotal(SortByStart(intervals[..n]), intervals[n], p);
    }
  }

  lemma {:induction false} LinesTotal(s: seq<Interval>, plan: Plan, p: Period, rates: Rates)
    ensures TotalHours(LinesOf(s, plan, p, rates)) == HoursIn(s, p)
  {
    if s != [] {
      var n := |s| - 1;
      LinesTotal(s[..n], plan, p, rates);
      var line := Line(ClipHours(s[n], p), HourlyCost(s[n], plan, rates));
      TotalAppend(LinesOf(s[..n], plan, p, rates), line);
      assert LinesOf(s, plan, p, rates) == LinesOf(s[..n], plan, p, rates) + [line];
    }
  }

  /** Free hours taken off hour by hour or all at once. */
  lemma CostOfBillable(total: real, plan: Plan, weight: real)
    ensures LineCost(total, MinReal(plan.freeHoursPerMonth, total), weight) ==
      LineCost(BillableHours(total, plan), 0.0, weight)
  {
    assert total - MinReal(plan.freeHoursPerMonth, total) == BillableHours(total, plan);
  }

  lemma UniformCycleCost(intervals: seq<Interval>, plan: Plan, p: Period, rates: Rates, unit: real)
    requires ValidPlan(plan) && ValidRates(rates)
    requires forall k :: 0 <= k < |intervals| ==> HourlyCost(intervals[k], plan, rates) == unit
    ensures CycleCost(intervals, plan, p, rates) ==
      RoundHalfUp(LineCost(BillableHours(HoursIn(intervals, p), plan), 0.0, unit))
  {
    hide LineCost, HourlyCost;
    var s := SortByStart(intervals);
    var ls := LinesOf(s, plan, p, rates);
    SortSorts(intervals);
    forall k | 0 <= k < |s|
      ensures ls[k].weight == unit
    {
      assert s[k] in multiset(s);
      assert s[k] in intervals;
    }
    LinesAreValid(s, plan, p, rates);
    SortTotal(intervals, p);
    LinesTotal(s, plan, p, rates);
    UniformCharge(ls, plan.freeHoursPerMonth, unit);
    CostOfBillable(TotalHours(ls), plan, unit);
  }

  /** For intervals of one plan and one size the loop is the closed formula on
      their summed hours. */
  lemma CycleCostIsComputeCharge(intervals: seq<Interval>, plan: Plan, limits: Limits, p: Period, rates: Rates)
    requires ValidPlan(plan) && ValidRates(rates)
    requires forall k :: 0 <= k < |intervals| ==> intervals[k].planId == plan.id && intervals[k].limits == limits
    requires plan.id in rates ==> rates[plan.id] == plan.pricePerHour
    ensures CycleCost(intervals, plan, p, rates) == ComputeCharge(HoursIn(intervals, p), plan, limits)
  {
    hide LineCost, UnitCost;
    UniformCycleCost(intervals, plan, p, rates, UnitCost(plan.pricePerHour, limits));
  }

  /** The loop's free hours, in the terms of the account. */
  lemma FreeGrantSpent(intervals: seq<Interval>, plan: Plan, p: Period, rates: Rates)
    requires ValidPlan(plan) && ValidRates(rates)
    ensures FreeApplied(LinesOf(SortByStart(intervals), plan, p, rates), plan.freeHoursPerMonth) ==
      MinReal(plan.freeHoursPerMonth, HoursIn(intervals, p))
  {
    var s := SortByStart(intervals);
    LinesAreValid(s, plan, p, rates);
    SortTotal(intervals, p);
    LinesTotal(s, plan, p, rates);
    FreeHoursExact(LinesOf(s, plan, p, rates), plan.freeHoursPerMonth);
  }

  // ---------- Every hour at the price it was run for ----------

  /** The size of a server: an absent limit is 50, 50 and 50 make a whole unit, and
      otherwise the factor is (cpu + ram) / 100 to the nearest hundredth, or 0.25. */
  lemma FactorOfSize(limits: Limits)
    ensures var cpu := if limits.cpuPercent.Some? then limits.cpuPercent.value else 50.0;
      var ram := if limits.ramPercent.Some? then limits.ramPercent.value else 50.0;
      var unrounded := (cpu + ram) / 100.0;
      && (unrounded >= 0.25 ==> -0.005 <= ResourceFactor(limits) - unrounded <= 0.005)
      && (unrounded < 0.25 ==> ResourceFactor(limits) == 0.25)
    ensures limits == Limits(None, None) ==> ResourceFactor(limits) == 1.0
  {
  }

  /** Before it is rounded. */
  function ExactCost(intervals: seq<Interval>, plan: Plan, p: Period, rates: Rates): real {
    Charge(LinesOf(SortByStart(intervals), plan, p, rates), plan.freeHoursPerMonth)
  }

  lemma CostIsRounded(intervals: seq<Interval>, plan: Plan, p: Period, rates: Rates)
    ensures CycleCost(intervals, plan, p, rates) == RoundHalfUp(ExactCost(intervals, plan, p, rates))
  {
  }

  /** Hours past the grant. */
  function Beyond(hours: real, free: real): real {
    MaxReal(0.0, hours - free)
  }

  /** Of `more` hours run after `before` hours, those past the grant. */
  function Paid(before: real, more: real, free: real): real {
    Beyond(before + more, free) - Beyond(before, free)
  }

  lemma BeyondCost(hours: real, free: real, weight: real)
    ensures LineCost(hours, MinReal(free, hours), weight) == LineCost(Beyond(hours, free), 0.0, weight)
  {
    assert hours - MinReal(free, hours) == Beyond(hours, free);
  }

  /** So many hours of a server of that size at a price an hour. */
  function Price(hours: real, price: real, limits: Limits): real {
    hours * price * ResourceFactor(limits)
  }

  lemma LineIsPrice(hours: real, price: real, limits: Limits)
    ensures LineCost(hours, 0.0, UnitCost(price, limits)) == Price(hours, price, limits)
  {
  }

  lemma PricedAlike(intervals: seq<Interval>, q: string, limits: Limits, plan: Plan, rates: Rates)
    requires forall k :: 0 <= k < |intervals| ==> intervals[k].planId == q && intervals[k].limits == limits
    ensures var price := if q in rates then rates[q] else plan.pricePerHour;
      forall k :: 0 <= k < |intervals| ==> HourlyCost(intervals[k], plan, rates) == UnitCost(price, limits)
  {
    hide UnitCost;
  }

  /** Intervals all under one plan, the account's own or another, cost the hours past
      the grant at that plan's price; a plan without a price counts as the account's. */
  lemma OnePlanCost(intervals: seq<Interval>, q: string, limits: Limits, plan: Plan, p: Period, rates: Rates)
    requires ValidPlan(plan) && ValidRates(rates)
    requires forall k :: 0 <= k < |intervals| ==> intervals[k].planId == q && intervals[k].limits == limits
    ensures var price := if q in rates then rates[q] else plan.pricePerHour;
      CycleCost(intervals, plan, p, rates) ==
      RoundHalfUp(Price(MaxReal(0.0, HoursIn(intervals, p) - plan.freeHoursPerMonth), price, limits))
  {
    hide LineCost, UnitCost, HourlyCost, Price, CycleCost, RoundHalfUp;
    var price := if q in rates then rates[q] else plan.pricePerHour;
    LineIsPrice(BillableHours(HoursIn(intervals, p), plan), price, limits);
    PricedAlike(intervals, q, limits, plan, rates);
    UniformCycleCost(intervals, plan, p, rates, UnitCost(price, limits));
  }

  lemma {:induction false} InsertAfterAll(a: seq<Interval>, b: seq<Interval>, i: Interval)
    requires forall k :: 0 <= k < |a| ==> a[k].startedAt <= i.startedAt
    ensures Insert(a + b, i) == a + Insert(b, i)
    decreases |b|
  {
    if b == [] {
      assert a + b == a && a + Insert(b, i) == a + [i];
      assert a != [] ==> a[|a| - 1].startedAt <= i.startedAt;
    } else {
      var front, last := b[..|b| - 1], b[|b| - 1];
      assert b == front + [last];
      AppendAssoc(a, front, [last]);
      InsertLast(a + front, last, i);
      InsertLast(front, last, i);
      if last.startedAt > i.startedAt {
        InsertAfterAll(a, front, i);
        AppendAssoc(a, Insert(front, i), [last]);
      } else {
        AppendAssoc(a, b, [i]);
      }
    }
  }

  /** Intervals that all start after others are sorted behind them. */
  lemma {:induction false} SortInParts(a: seq<Interval>, b: seq<Interval>)
    requires forall j, k :: 0 <= j < |a| && 0 <= k < |b| ==> a[j].startedAt <= b[k].startedAt
    ensures SortByStart(a + b) == SortByStart(a) + SortByStart(b)
    decreases |b|
  {
    if b == [] {
      assert a + b == a && SortByStart(a) + SortByStart(b) == SortByStart(a);
    } else {
      var front, last := b[..|b| - 1], b[|b| - 1];
      assert b == front + [last];
      AppendAssoc(a, front, [last]);
      SortInParts(a, front);
      SortLast(a + front, last);
      SortLast(front, last);
      SortSorts(a);
      var sa := SortByStart(a);
      forall k | 0 <= k < |sa|
        ensures sa[k].startedAt <= last.startedAt
      {
        assert sa[k] in multiset(sa);
        assert sa[k] in a;
      }
      InsertAfterAll(sa, SortByStart(front), last);
    }
  }

  lemma {:induction false} ChargeInParts(a: seq<Line>, b: seq<Line>, free: real)
    ensures Charge(a + b, free) == Charge(a, free) + Charge(b, free - FreeApplied(a, free))
  {
    hide LineCost;
    if a == [] {
      assert a + b == b;
    } else {
      assert (a + b)[1..] == a[1..] + b;
      ChargeInParts(a[1..], b, free - MinReal(free, a[0].hours));
    }
  }

  lemma UniformLines(intervals: seq<Interval>, plan: Plan, p: Period, rates: Rates, unit: real)
    requires forall k :: 0 <= k < |intervals| ==> HourlyCost(intervals[k], plan, rates) == unit
    ensures forall l :: l in LinesOf(SortByStart(intervals), plan, p, rates) ==> l.weight == unit
  {
    hide HourlyCost;
    var s := SortByStart(intervals);
    SortSorts(intervals);
    forall k | 0 <= k < |s|
      ensures HourlyCost(s[k], plan, rates) == unit
    {
      assert s[k] in multiset(s);
      assert s[k] in intervals;
    }
  }

  lemma PartTotals(intervals: seq<Interval>, plan: Plan, p: Period, rates: Rates, unit: real, free: real)
    requires ValidPlan(plan) && ValidRates(rates) && free >= 0.0
    requires forall k :: 0 <= k < |intervals| ==> HourlyCost(intervals[k], plan, rates) == unit
    ensures var ls := LinesOf(SortByStart(intervals), plan, p, rates);
      && ValidLines(ls) && HoursIn(intervals, p) >= 0.0
      && FreeApplied(ls, free) == MinReal(free, HoursIn(intervals, p))
      && Charge(ls, free) == LineCost(Beyond(HoursIn(intervals, p), free), 0.0, unit)
  {
    hide HourlyCost, LineCost;
    var s := SortByStart(intervals);
    var ls := LinesOf(s, plan, p, rates);
    LinesAreValid(s, plan, p, rates);
    UniformLines(intervals, plan, p, rates, unit);
    SortTotal(intervals, p);
    LinesTotal(s, plan, p, rates);
    FreeHoursExact(ls, free);
    UniformCharge(ls, free, unit);
    BeyondCost(HoursIn(intervals, p), free, unit);
  }

  lemma BeyondInParts(before: real, more: real, free: real)
    requires before >= 0.0 && more >= 0.0 && free >= 0.0
    ensures Beyond(more, free - MinReal(free, before)) == Paid(before, more, free)
  {
  }

  lemma LinesInParts(a: seq<Interval>, b: seq<Interval>, plan: Plan, p: Period, rates: Rates)
    requires forall j, k :: 0 <= j < |a| && 0 <= k < |b| ==> a[j].startedAt <= b[k].startedAt
    ensures LinesOf(SortByStart(a + b), plan, p, rates) ==
      LinesOf(SortByStart(a), plan, p, rates) + LinesOf(SortByStart(b), plan, p, rates)
  {
    hide HourlyCost, ClipHours, SortByStart;
    SortInParts(a, b);
  }

  /** Two groups of intervals at one price each, the second starting after the first:
      the grant goes to the first hours run, and every hour past it costs what its own
      group costs, in the first as if the second were not there. */
  lemma CostInParts(olds: seq<Interval>, news: seq<Interval>, x: real, y: real, plan: Plan, p: Period, rates: Rates)
    requires ValidPlan(plan) && ValidRates(rates)
    requires forall k :: 0 <= k < |olds| ==> HourlyCost(olds[k], plan, rates) == x
    requires forall k :: 0 <= k < |news| ==> HourlyCost(news[k], plan, rates) == y
    requires forall j, k :: 0 <= j < |olds| && 0 <= k < |news| ==> olds[j].startedAt <= news[k].startedAt
    ensures var g := plan.freeHoursPerMonth;
      ExactCost(olds + news, plan, p, rates) ==
      LineCost(Beyond(HoursIn(olds, p), g), 0.0, x) + LineCost(Paid(HoursIn(olds, p), HoursIn(news, p), g), 0.0, y)
  {
    hide HourlyCost, LineCost, Beyond, Paid, LinesOf, SortByStart, Charge, HoursIn, FreeApplied, ValidLines, ValidRates;
    var g := plan.freeHoursPerMonth;
    var left := g - MinReal(g, HoursIn(olds, p));
    LinesInParts(olds, news, plan, p, rates);
    ChargeInParts(LinesOf(SortByStart(olds), plan, p, rates), LinesOf(SortByStart(news), plan, p, rates), g);
    PartTotals(olds, plan, p, rates, x, g);
    PartTotals(news, plan, p, rates, y, left);
    BeyondInParts(HoursIn(olds, p), HoursIn(news, p), g);
  }

  /** The month of a plan switch: earlier hours keep the price of the plan they ran under,
      later hours have the other plan's, whichever the account ends on. */
  lemma SwitchedMidMonth(olds: seq<Interval>, q: string, size: Limits, news: seq<Interval>, r: string, size2: Limits,
                         plan: Plan, p: Period, rates: Rates)
    requires ValidPlan(plan) && ValidRates(rates) && q in rates && r in rates
    requires forall k :: 0 <= k < |olds| ==> olds[k].planId == q && olds[k].limits == size
    requires forall k :: 0 <= k < |news| ==> news[k].planId == r && news[k].limits == size2
    requires forall j, k :: 0 <= j < |olds| && 0 <= k < |news| ==> olds[j].startedAt <= news[k].startedAt
    ensures var g := plan.freeHoursPerMonth;
      && ExactCost(olds + news, plan, p, rates) ==
         Price(Beyond(HoursIn(olds, p), g), rates[q], size) +
         Price(Paid(HoursIn(olds, p), HoursIn(news, p), g), rates[r], size2)
      && CycleCost(olds + news, plan, p, rates) == RoundHalfUp(ExactCost(olds + news, plan, p, rates))
  {
    hide *;
    var g := plan.freeHoursPerMonth;
    CostIsRounded(olds + news, plan, p, rates);
    PricedAlike(olds, q, size, plan, rates);
    PricedAlike(news, r, size2, plan, rates);
    CostInParts(olds, news, UnitCost(rates[q], size), UnitCost(rates[r], size2), plan, p, rates);
    LineIsPrice(Beyond(HoursIn(olds, p), g), rates[q], size);
    LineIsPrice(Paid(HoursIn(olds, p), HoursIn(news, p), g), rates[r], size2);
  }

  // ---------- Without a grant the charge is a sum ----------

  /** Each interval's hours at its own price, in whatever order. */
  function PlainSum(intervals: seq<Interval>, plan: Plan, p: Period, rates: Rates): real {
    if intervals == [] then 0.0
    else
      var last := intervals[|intervals| - 1];
      PlainSum(intervals[..|intervals| - 1], plan, p, rates) +
      LineCost(ClipHours(last, p), 0.0, HourlyCost(last, plan, rates))
  }

  lemma {:induction false} PlainSumAdds(a: seq<Interval>, b: seq<Interval>, plan: Plan, p: Period, rates: Rates)
    ensures PlainSum(a + b, plan, p, rates) == PlainSum(a, plan, p, rates) + PlainSum(b, plan, p, rates)
    decreases |b|
  {
    hide ClipHours, HourlyCost, LineCost;
    if b == [] {
      assert a + b == a;
    } else {
      PlainSumAdds(a, b[..|b| - 1], plan, p, rates);
      assert (a + b)[..|a + b| - 1] == a + b[..|b| - 1];
    }
  }

  lemma {:induction false} InsertKeepsSum(s: seq<Interval>, i: Interval, plan: Plan, p: Period, rates: Rates)
    ensures PlainSum(Insert(s, i), plan, p, rates) ==
      PlainSum(s, plan, p, rates) + LineCost(ClipHours(i, p), 0.0, HourlyCost(i, plan, rates))
  {
    hide ClipHours, HourlyCost, LineCost;
    var n := |s|;
    if n == 0 || s[n - 1].startedAt <= i.startedAt {
      assert (s + [i])[..n] == s;
    } else {
      InsertKeepsSum(s[..n - 1], i, plan, p, rates);
      var r := Insert(s[..n - 1], i);
      assert (r + [s[n - 1]])[..|r|] == r;
    }
  }

  lemma {:induction false} SortKeepsSum(s: seq<Interval>, plan: Plan, p: Period, rates: Rates)
    ensures PlainSum(SortByStart(s), plan, p, rates) == PlainSum(s, plan, p, rates)
  {
    hide ClipHours, HourlyCost, LineCost;
    if s != [] {
      SortKeepsSum(s[..|s| - 1], plan, p, rates);
      InsertKeepsSum(SortByStart(s[..|s| - 1]), s[|s| - 1], plan, p, rates);
    }
  }

  lemma {:induction false} ChargeIsPlainSum(s: seq<Interval>, plan: Plan, p: Period, rates: Rates)
    ensures Charge(LinesOf(s, plan, p, rates), 0.0) == PlainSum(s, plan, p, rates)
    decreases |s|
  {
    hide ClipHours, HourlyCost, LineCost;
    if s != [] {
      var front, last := s[..|s| - 1], s[|s| - 1];
      var a, line := LinesOf(front, plan, p, rates), Line(ClipHours(last, p), HourlyCost(last, plan, rates));
      ChargeIsPlainSum(front, plan, p, rates);
      assert LinesOf(s, plan, p, rates) == a + [line];
      ChargeInParts(a, [line], 0.0);
      NothingToHandOut(s, plan, p, rates, front);
      OneLine(line);
    }
  }

  lemma OneLine(line: Line)
    requires line.hours >= 0.0
    ensures Charge([line], 0.0) == LineCost(line.hours, 0.0, line.weight)
  {
    hide LineCost;
    assert [line][1..] == [];
  }

  lemma {:induction false} NoneHandedOut(ls: seq<Line>)
    requires forall k :: 0 <= k < |ls| ==> ls[k].hours >= 0.0
    ensures FreeApplied(ls, 0.0) == 0.0
  {
    if ls != [] {
      NoneHandedOut(ls[1..]);
    }
  }

  lemma NothingToHandOut(s: seq<Interval>, plan: Plan, p: Period, rates: Rates, front: seq<Interval>)
    ensures FreeApplied(LinesOf(front, plan, p, rates), 0.0) == 0.0
    ensures forall i :: ClipHours(i, p) >= 0.0
  {
    hide HourlyCost;
    NoneHandedOut(LinesOf(front, plan, p, rates));
  }

  /** With the grant spent, the unrounded charge of two lists of intervals, however they
      overlap and whatever plans they name, is the sum of the two. */
  lemma CostsAddUp(a: seq<Interval>, b: seq<Interval>, plan: Plan, p: Period, rates: Rates)
    requires plan.freeHoursPerMonth == 0.0
    ensures ExactCost(a + b, plan, p, rates) == ExactCost(a, plan, p, rates) + ExactCost(b, plan, p, rates)
  {
    hide ClipHours, HourlyCost, LineCost;
    PlainSumAdds(a, b, plan, p, rates);
    forall s
      ensures ExactCost(s, plan, p, rates) == PlainSum(s, plan, p, rates)
    {
      SortKeepsSum(s, plan, p, rates);
      ChargeIsPlainSum(SortByStart(s), plan, p, rates);
    }
  }
}
