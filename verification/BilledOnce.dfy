/** Every millisecond a server runs in a closed month is billed, and once. */
module BilledOnce {
  import opened Wrappers
  import opened Calendar
  import opened Pricing
  import opened Standing
  import opened Billing
  import opened CallEffects
  import opened IntervalLaws
  import opened LedgerLaws
  import opened CycleLaws
  import opened SpendingLaws

  /** The record bills the moment to the account. */
  predicate Bills(c: Cycle, userId: string, x: int) {
    c.userId == userId && c.periodStart <= x < c.periodEnd
  }

  predicate IsMonth(c: Cycle) {
    Period(c.periodStart, c.periodEnd) == MonthPeriodOf(c.periodStart)
  }

  ghost predicate AllMonths(cycles: seq<Cycle>) {
    forall k :: 0 <= k < |cycles| ==> IsMonth(cycles[k])
  }

  // ---------- Records ----------

  lemma PreviousIsMonth(t: int)
    ensures MonthPeriodOf(PreviousMonthPeriod(t).start) == PreviousMonthPeriod(t)
  {
    PeriodsTile(t);
    MonthsIncrease(MonthOf(t) - 1, MonthOf(t));
    MonthUnique(MonthStart(MonthOf(t) - 1), MonthOf(t) - 1);
  }

  lemma {:induction false} BillAllRecords(b: Books, users: seq<string>, p: Period, now: int)
    requires MonthPeriodOf(p.start) == p
    ensures b.cycles <= BillAll(b, users, p, now).cycles
    ensures AllMonths(b.cycles) ==> AllMonths(BillAll(b, users, p, now).cycles)
    decreases |users|
  {
    hide CycleCost, CanCover, ApplyCharge, Billed, MonthPeriodOf;
    if users != [] {
      BillAllRecords(b, users[..|users| - 1], p, now);
    }
  }

  lemma ApplyRecords(b: Books, e: Event)
    ensures b.cycles <= Apply(b, e).cycles
    ensures AllMonths(b.cycles) ==> AllMonths(Apply(b, e).cycles)
  {
    hide AllMonths, DeploymentCreated, ServerStarted, ServerStopped, RequestTopUp, PaymentConfirmed, PaymentFailed,
      ExpireStaleTopUps, ChangePlan, SavePlan, AdjustCredit, BillAll, WithWallet;
    CallEffect(b, e);
    if e.call.Bill? {
      PreviousIsMonth(e.at);
      BillAllRecords(b, e.call.users, PreviousMonthPeriod(e.at), e.at);
    }
  }

  /** Every record ever made is of one calendar month. */
  lemma {:induction false} RecordsAreMonths(es: seq<Event>)
    ensures AllMonths(Run(EMPTY_BOOKS, es).cycles)
    decreases |es|
  {
    hide Apply;
    if es != [] {
      RecordsAreMonths(es[..|es| - 1]);
      ApplyRecords(Run(EMPTY_BOOKS, es[..|es| - 1]), es[|es| - 1]);
    }
  }

  lemma {:induction false} RecordsStay(b: Books, es: seq<Event>, n: nat)
    requires n <= |es|
    ensures Run(b, es[..n]).cycles <= Run(b, es).cycles
    decreases |es|
  {
    hide Apply;
    if n == |es| {
      assert es[..n] == es;
    } else {
      var past := es[..|es| - 1];
      RecordsStay(b, past, n);
      assert past[..n] == es[..n];
      ApplyRecords(Run(b, past), es[|es| - 1]);
    }
  }

  // ---------- What a record charges ----------

  lemma {:induction false} BillAllCharges(b: Books, users: seq<string>, p: Period, now: int)
    ensures b.cycles <= BillAll(b, users, p, now).cycles
    ensures forall j :: |b.cycles| <= j < |BillAll(b, users, p, now).cycles| ==>
      Charges(BillAll(b, users, p, now).cycles[j], b, p)
    decreases |users|
  {
    hide CostOf, CanCover, ApplyCharge, Billed;
    if users != [] {
      var front, last := users[..|users| - 1], users[|users| - 1];
      var before := BillAll(b, front, p, now);
      BillAllCharges(b, front, p, now);
      BillEffect(b, front, p, now);
      SameCosts(b, before, last, p);
    }
  }

  /** The record's cost is what the account's intervals cost in the period, by the
      books as they were. */
  predicate Charges(c: Cycle, b: Books, p: Period) {
    c.periodStart == p.start && c.periodEnd == p.end && c.totalCost == CostOf(b, c.userId, p)
  }

  /** The record was made by the tick at place `i` of the run. */
  ghost predicate MadeBy(c: Cycle, es: seq<Event>, i: int) {
    && 0 <= i < |es| && es[i].call.Bill? && c.userId in es[i].call.users
    && Charges(c, Run(EMPTY_BOOKS, es[..i]), PreviousMonthPeriod(es[i].at))
  }

  lemma {:induction false} BillAllTakes(b: Books, users: seq<string>, p: Period, now: int)
    ensures forall j :: |b.cycles| <= j < |BillAll(b, users, p, now).cycles| ==>
      BillAll(b, users, p, now).cycles[j].userId in users
    decreases |users|
  {
    hide CostOf, CanCover, ApplyCharge, Billed;
    if users != [] {
      BillAllTakes(b, users[..|users| - 1], p, now);
    }
  }

  /** Every record charges what its account's intervals cost in that month when the
      runner took it. */
  lemma {:induction false} EveryRecordIsACost(es: seq<Event>, j: nat)
    requires j < |Run(EMPTY_BOOKS, es).cycles|
    ensures exists i :: MadeBy(Run(EMPTY_BOOKS, es).cycles[j], es, i)
    decreases |es|
  {
    hide Apply, Charges, PreviousMonthPeriod;
    var past, e := es[..|es| - 1], es[|es| - 1];
    var before := Run(EMPTY_BOOKS, past);
    ApplyRecords(before, e);
    if j < |before.cycles| {
      EveryRecordIsACost(past, j);
      var i :| MadeBy(before.cycles[j], past, i);
      assert past[..i] == es[..i];
      assert MadeBy(Run(EMPTY_BOOKS, es).cycles[j], es, i);
    } else {
      NewRecordIsACost(es, j);
    }
  }

  lemma NewRecordIsACost(es: seq<Event>, j: nat)
    requires es != [] && |Run(EMPTY_BOOKS, es[..|es| - 1]).cycles| <= j < |Run(EMPTY_BOOKS, es).cycles|
    ensures MadeBy(Run(EMPTY_BOOKS, es).cycles[j], es, |es| - 1)
  {
    hide Charges, PreviousMonthPeriod, BillAll;
    var past, e := es[..|es| - 1], es[|es| - 1];
    var before := Run(EMPTY_BOOKS, past);
    CallEffect(before, e);
    if e.call.Bill? {
      BillAllCharges(before, e.call.users, PreviousMonthPeriod(e.at), e.at);
      BillAllTakes(before, e.call.users, PreviousMonthPeriod(e.at), e.at);
    }
  }

  // ---------- Intervals ----------

  /** Intervals that aged since `t`, and new ones started no earlier. */
  ghost predicate Later(xs: seq<Interval>, t: int, ys: seq<Interval>) {
    Aged(xs, t, ys) && forall k :: |xs| <= k < |ys| ==> ys[k].startedAt >= t
  }

  lemma {:induction false} ReopenIsLater(ivs: seq<Interval>, running: seq<Interval>,
                                         userId: string, planId: string, now: int)
    ensures Later(ivs, now, Reopen(ivs, running, userId, planId, now))
    decreases |running|
  {
    if running != [] {
      var n := |running| - 1;
      var before := Reopen(ivs, running[..n], userId, planId, now);
      ReopenIsLater(ivs, running[..n], userId, planId, now);
      AgedThenClosed(ivs, now, before, running[n].deploymentId, now);
    }
  }

  lemma StartIsLater(b: Books, dep: string, now: int)
    ensures Later(b.intervals, now, ServerStarted(b, dep, now).intervals)
  {
    hide LastOpen, LastInterval;
  }

  lemma ApplyIsLater(b: Books, e: Event)
    ensures Later(b.intervals, e.at, Apply(b, e).intervals)
  {
    if !TouchesIntervals(e.call) {
      CallEffect(b, e);
      hide Apply;
      AgedStays(b.intervals, e.at);
    } else {
      hide ServerStarted, CloseInterval, Reopen, OpenOnes, Mine;
      match e.call
      case Started(dep) => StartIsLater(b, dep, e.at);
      case Stopped(dep) =>
        AgedStays(b.intervals, e.at);
        AgedThenClosed(b.intervals, e.at, b.intervals, dep, e.at);
      case Switch(who, planId) =>
        if planId in b.plans {
          ReopenIsLater(b.intervals, OpenOnes(Mine(b.intervals, who)), who, b.plans[planId].id, e.at);
        }
    }
  }

  lemma LaterOn(xs: seq<Interval>, t: int, ys: seq<Interval>, u: int, zs: seq<Interval>)
    requires Later(xs, t, ys) && Later(ys, u, zs) && t <= u
    ensures Later(xs, t, zs)
  {
    forall k | 0 <= k < |xs|
      ensures Older(xs[k], t, zs[k])
    {
      assert Older(xs[k], t, ys[k]) && Older(ys[k], u, zs[k]);
    }
    forall k | |xs| <= k < |zs|
      ensures zs[k].startedAt >= t
    {
      if k < |ys| {
        assert Older(ys[k], u, zs[k]);
      }
    }
  }

  /** From any event on, intervals only age and new ones start no earlier. */
  lemma {:induction false} RunIsLater(b: Books, es: seq<Event>, i: nat)
    requires Orderly(es) && i < |es|
    ensures Later(Run(b, es[..i]).intervals, es[i].at, Run(b, es).intervals)
    decreases |es|
  {
    hide Apply, Later;
    var past, e := es[..|es| - 1], es[|es| - 1];
    ApplyIsLater(Run(b, past), e);
    if i < |past| {
      RunIsLater(b, past, i);
      assert past[..i] == es[..i];
      LaterOn(Run(b, es[..i]).intervals, es[i].at, Run(b, past).intervals, e.at, Run(b, es).intervals);
    }
  }

  // ---------- What a closed month holds is final ----------

  lemma LaterClips(x: Interval, t: int, y: Interval, p: Period)
    requires Older(x, t, y) && p.end <= t
    ensures ClipMs(y, p) == ClipMs(x, p)
  {
  }

  lemma {:induction false} LaterLeavesTime(xs: seq<Interval>, t: int, ys: seq<Interval>, userId: string, p: Period)
    requires Later(xs, t, ys) && p.end <= t
    ensures UserMs(ys, userId, p) == UserMs(xs, userId, p)
    decreases |ys|
  {
    if ys != [] {
      var n := |ys| - 1;
      if n >= |xs| {
        LaterLeavesTime(xs, t, ys[..n], userId, p);
      } else {
        LaterLeavesTime(xs[..n], t, ys[..n], userId, p);
        assert Older(xs[n], t, ys[n]);
        LaterClips(xs[n], t, ys[n], p);
      }
    }
  }

  /** Once a month is over, the hours of every account in it never change again. */
  lemma ClosedMonthIsFinal(b: Books, es: seq<Event>, i: nat, userId: string)
    requires Orderly(es) && i < |es|
    ensures var p := PreviousMonthPeriod(es[i].at);
      HoursIn(Mine(Run(b, es).intervals, userId), p) == HoursIn(Mine(Run(b, es[..i]).intervals, userId), p)
  {
    hide Later, UserMs, HoursIn, PreviousMonthPeriod;
    var p := PreviousMonthPeriod(es[i].at);
    PeriodsTile(es[i].at);
    RunIsLater(b, es, i);
    LaterLeavesTime(Run(b, es[..i]).intervals, es[i].at, Run(b, es).intervals, userId, p);
    UserHours(Run(b, es).intervals, userId, p);
    UserHours(Run(b, es[..i]).intervals, userId, p);
  }

  // ---------- Once ----------

  lemma BillsByItsMonth(c: Cycle, userId: string, x: int)
    requires IsMonth(c)
    ensures Bills(c, userId, x) <==> c.userId == userId && c.periodStart == MonthStart(MonthOf(x))
  {
    hide MonthStart;
    var m := MonthOf(c.periodStart);
    MonthsIncrease(MonthOf(x), MonthOf(x) + 1);
    MonthUnique(MonthStart(MonthOf(x)), MonthOf(x));
    if c.periodStart <= x < c.periodEnd {
      MonthUnique(x, m);
    }
  }

  lemma BillsNextMonth(t: int, x: int)
    requires MonthOf(t) == MonthOf(x) + 1
    ensures PreviousMonthPeriod(t) == MonthPeriodOf(x) &&
      PreviousMonthPeriod(t).start == MonthStart(MonthOf(x)) && x < t
  {
    hide MonthStart;
    PeriodsTile(t);
  }

  lemma {:induction false} Ticked(b: Books, es: seq<Event>, i: nat)
    requires i < |es|
    ensures Run(b, es[..i + 1]) == Apply(Run(b, es[..i]), es[i])
  {
    assert es[..i + 1][..i] == es[..i];
  }

  /** The account was known, so the tick billed it, and the record stays. */
  lemma TickRecords(es: seq<Event>, i: nat, userId: string, x: int)
    requires i < |es| && es[i].call.Bill? && MonthOf(es[i].at) == MonthOf(x) + 1 && userId in es[i].call.users
    ensures Billed(Run(EMPTY_BOOKS, es).cycles, userId, MonthStart(MonthOf(x)))
  {
    hide MonthStart, BillAll, PreviousMonthPeriod, MonthPeriodOf, MonthOf;
    var before := Run(EMPTY_BOOKS, es[..i]);
    BillsNextMonth(es[i].at, x);
    Ticked(EMPTY_BOOKS, es, i);
    BillAllBills(before, es[i].call.users, PreviousMonthPeriod(es[i].at), es[i].at, userId, MonthStart(MonthOf(x)));
    RecordsStay(EMPTY_BOOKS, es, i + 1);
    var cycles := Run(EMPTY_BOOKS, es[..i + 1]).cycles;
    var k :| 0 <= k < |cycles| && cycles[k].userId == userId && cycles[k].periodStart == MonthStart(MonthOf(x));
    assert Run(EMPTY_BOOKS, es).cycles[k] == cycles[k];
  }

  /** An interval that had begun by `x` was on the books at every tick after `x`. */
  lemma OnTheBooks(es: seq<Event>, i: nat, k: nat, x: int)
    requires Orderly(es) && i < |es| && x < es[i].at
    requires k < |Run(EMPTY_BOOKS, es).intervals| && Run(EMPTY_BOOKS, es).intervals[k].startedAt <= x
    ensures Billable(Run(EMPTY_BOOKS, es[..i]), Run(EMPTY_BOOKS, es).intervals[k].userId)
  {
    RunIsLater(EMPTY_BOOKS, es, i);
    var xs, ys := Run(EMPTY_BOOKS, es[..i]).intervals, Run(EMPTY_BOOKS, es).intervals;
    assert k < |xs| && Older(xs[k], es[i].at, ys[k]);
    assert xs[k].userId == ys[k].userId;
  }

  ghost predicate BilledExactlyOnce(cycles: seq<Cycle>, userId: string, x: int) {
    && (exists j :: 0 <= j < |cycles| && Bills(cycles[j], userId, x))
    && (forall i, j | 0 <= i < |cycles| && 0 <= j < |cycles| ::
      Bills(cycles[i], userId, x) && Bills(cycles[j], userId, x) ==> i == j)
  }

  lemma AtMostOnce(es: seq<Event>, userId: string, x: int)
    ensures var cycles := Run(EMPTY_BOOKS, es).cycles;
      forall i, j | 0 <= i < |cycles| && 0 <= j < |cycles| ::
        Bills(cycles[i], userId, x) && Bills(cycles[j], userId, x) ==> i == j
  {
    hide MonthStart, Bills, IsMonth;
    var cycles := Run(EMPTY_BOOKS, es).cycles;
    RecordsAreMonths(es);
    OneChargePerMonth(es);
    forall i, j | 0 <= i < |cycles| && 0 <= j < |cycles| && Bills(cycles[i], userId, x) && Bills(cycles[j], userId, x)
      ensures i == j
    {
      BillsByItsMonth(cycles[i], userId, x);
      BillsByItsMonth(cycles[j], userId, x);
    }
  }

  /** If the runner ran in the month after `x` over all accounts it knew, then for
      every interval that had begun by `x`, exactly one record of that interval's
      account bills the period `x` lies in. */
  lemma EveryMomentBilledOnce(es: seq<Event>, i: nat, k: nat, x: int)
    requires Orderly(es) && i < |es| && es[i].call.Bill? && MonthOf(es[i].at) == MonthOf(x) + 1
    requires forall u :: Billable(Run(EMPTY_BOOKS, es[..i]), u) ==> u in es[i].call.users
    requires k < |Run(EMPTY_BOOKS, es).intervals| && Run(EMPTY_BOOKS, es).intervals[k].startedAt <= x
    ensures BilledExactlyOnce(Run(EMPTY_BOOKS, es).cycles, Run(EMPTY_BOOKS, es).intervals[k].userId, x)
  {
    hide MonthStart, Billable, IsMonth;
    var userId, cycles := Run(EMPTY_BOOKS, es).intervals[k].userId, Run(EMPTY_BOOKS, es).cycles;
    BillsNextMonth(es[i].at, x);
    OnTheBooks(es, i, k, x);
    TickRecords(es, i, userId, x);
    RecordsAreMonths(es);
    var j :| 0 <= j < |cycles| && cycles[j].userId == userId && cycles[j].periodStart == MonthStart(MonthOf(x));
    BillsByItsMonth(cycles[j], userId, x);
    AtMostOnce(es, userId, x);
  }
}
