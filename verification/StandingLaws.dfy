/** What the figures of a standing mean: in terms of the bills to come, of the grant,
    and of how long the servers could go on. */
module StandingLaws {
  import opened Wrappers
  import opened Calendar
  import opened Pricing
  import opened ChargeLaws
  import opened Standing
  import opened Billing
  import opened CallEffects
  import opened LedgerLaws
  import opened IntervalLaws
  import opened CycleLaws
  import opened SpendingLaws

  // ---------- What is left if everything were billed now ----------

  /** The books after billing the month before `now`, and the one it lies in up to `now`. */
  function BilledUpTo(b: Books, userId: string, now: int): Books {
    BillUser(BillUser(b, userId, PreviousMonthPeriod(now), now), userId, CurrentPeriod(now), now)
  }

  lemma BillLeavesOtherMonths(b: Books, userId: string, p: Period, now: int, start: int)
    requires start != p.start
    ensures Billed(BillUser(b, userId, p, now).cycles, userId, start) <==> Billed(b.cycles, userId, start)
  {
    hide Billed, CostOf, CanCover, ApplyCharge;
    if !Billed(b.cycles, userId, p.start) {
      BilledAppend(b.cycles, BillUser(b, userId, p, now).cycles[|b.cycles|], userId, start);
    }
  }

  lemma CurrentIsNotPrevious(now: int)
    ensures PreviousMonthPeriod(now).start < CurrentPeriod(now).start <= now
  {
    hide PreviousMonthPeriod, MonthPeriodOf, MonthOf;
    PeriodsTile(now);
  }

  /** The credit shown as available is the balance the account would be left with if all
      it has run so far were charged at this moment. */
  lemma AvailableIsAfterBilling(b: Books, userId: string, now: int, lowCreditHours: real)
    requires PlansOk(b) && !Billed(b.cycles, userId, CurrentPeriod(now).start)
    ensures StandingOf(b, userId, now, lowCreditHours).available == Balance(BilledUpTo(b, userId, now), userId)
  {
    hide Billed, BillUser, CycleCost, Mine, PreviousMonthPeriod, CurrentPeriod, Balance, PlansOk;
    var p, q := PreviousMonthPeriod(now), CurrentPeriod(now);
    var mid := BillUser(b, userId, p, now);
    CurrentIsNotPrevious(now);
    BillUserEffect(b, userId, p, now, userId);
    PlansStayOk(b, mid);
    BillLeavesOtherMonths(b, userId, p, now, q.start);
    BillUserEffect(mid, userId, q, now, userId);
  }

  lemma PlansStayOk(b: Books, b2: Books)
    requires PlansOk(b) && b2.plans == b.plans
    ensures PlansOk(b2)
  {
  }

  /** No run up to `now` has billed the month `now` lies in. */
  lemma {:induction false} CurrentMonthIsOpen(es: seq<Event>, now: int, userId: string)
    requires forall k :: 0 <= k < |es| ==> es[k].at <= now
    ensures !Billed(Run(EMPTY_BOOKS, es).cycles, userId, CurrentPeriod(now).start)
    decreases |es|
  {
    hide Apply, CurrentPeriod, BillAll;
    if es != [] {
      var past, e := es[..|es| - 1], es[|es| - 1];
      var before := Run(EMPTY_BOOKS, past);
      CurrentMonthIsOpen(past, now, userId);
      if e.call.Bill? {
        BillAllBills(before, e.call.users, PreviousMonthPeriod(e.at), e.at, userId, CurrentPeriod(now).start);
        EarlierMonth(e.at, now);
        assert Apply(before, e) == BillAll(before, e.call.users, PreviousMonthPeriod(e.at), e.at) by {
          BillIs(before, e);
        }
      } else {
        OtherCallsAddNoCharge(before, e);
      }
    }
  }

  lemma BillIs(b: Books, e: Event)
    requires e.call.Bill?
    ensures Apply(b, e) == BillAll(b, e.call.users, PreviousMonthPeriod(e.at), e.at)
  {
    hide DeploymentCreated, ServerStarted, ServerStopped, RequestTopUp, PaymentConfirmed, PaymentFailed,
      ExpireStaleTopUps, ChangePlan, SavePlan, AdjustCredit, BillAll, WithWallet, PreviousMonthPeriod;
  }

  lemma EarlierMonth(at: int, now: int)
    requires at <= now
    ensures PreviousMonthPeriod(at).start < CurrentPeriod(now).start
  {
    hide MonthStart, PreviousMonthPeriod;
    PeriodsTile(at);
    if MonthOf(now) < MonthOf(at) {
      if MonthOf(now) + 1 < MonthOf(at) {
        MonthsIncrease(MonthOf(now) + 1, MonthOf(at));
      }
      assert false;
    }
    if MonthOf(at) < MonthOf(now) {
      MonthsIncrease(MonthOf(at), MonthOf(now));
    }
  }

  lemma {:induction false} PlansOkInRuns(es: seq<Event>)
    requires Orderly(es)
    ensures PlansOk(Run(EMPTY_BOOKS, es))
    decreases |es|
  {
    hide Apply, PlansOk;
    if es == [] {
      FirstPlanOk();
    } else {
      PlansOkInRuns(es[..|es| - 1]);
      ApplyKeepsPlans(Run(EMPTY_BOOKS, es[..|es| - 1]), es[|es| - 1]);
    }
  }

  lemma FirstPlanOk()
    ensures PlansOk(EMPTY_BOOKS)
  {
  }

  /** So after every run, at any moment from its end on. */
  lemma AvailableInEveryRun(es: seq<Event>, userId: string, now: int, lowCreditHours: real)
    requires Orderly(es) && forall k :: 0 <= k < |es| ==> es[k].at <= now
    ensures var b := Run(EMPTY_BOOKS, es);
      StandingOf(b, userId, now, lowCreditHours).available == Balance(BilledUpTo(b, userId, now), userId)
  {
    hide *;
    PlansOkInRuns(es);
    CurrentMonthIsOpen(es, now, userId);
    AvailableIsAfterBilling(Run(EMPTY_BOOKS, es), userId, now, lowCreditHours);
  }

  // ---------- The verdict and the grant ----------

  /** In credit the account may run; in debt it may not; with neither, while it has
      free hours left. The two figures beside it add up to the balance. */
  lemma WhoMayRun(b: Books, userId: string, now: int, lowCreditHours: real)
    ensures var s := StandingOf(b, userId, now, lowCreditHours);
      && s.balance == Balance(b, userId) == s.available + s.accrued
      && (s.available > 0 ==> s.canRun) && (s.available < 0 ==> !s.canRun)
      && (s.available == 0 ==> (s.canRun <==> s.freeHoursLeft > 0))
      && (s.runsLow <==> s.hoursLeft.Some? && s.hoursLeft.value as real < lowCreditHours * 10.0)
  {
    hide CycleCost, HoursIn, BurnRate, RunwayHours, Mine, PreviousMonthPeriod, Billed;
  }

  /** The free hours shown are the grant less the hours run since the first of the
      month, never below zero, to the nearest thousandths. */
  lemma FreeHoursShown(b: Books, userId: string, now: int, lowCreditHours: real)
    ensures var used := HoursIn(Mine(b.intervals, userId), Period(MonthStart(MonthOf(now)), now));
      var left := MaxReal(0.0, UserPlan(b, userId).freeHoursPerMonth - used);
      var shown := StandingOf(b, userId, now, lowCreditHours).freeHoursLeft;
      shown >= 0 && -1.0 <= shown as real - left * 1000.0 <= 1.0
  {
    hide CycleCost, HoursIn, BurnRate, RunwayHours, Mine, PreviousMonthPeriod, Billed, MonthStart;
    var used := HoursIn(Mine(b.intervals, userId), CurrentPeriod(now));
    FreeLeftIsClose(UserPlan(b, userId), used);
  }

  lemma FreeLeftIsClose(plan: Plan, used: real)
    ensures var shown, left := FreeLeft(plan, RoundHalfUp(used * 1000.0)), MaxReal(0.0, plan.freeHoursPerMonth - used);
      -1.0 <= shown as real - left * 1000.0 <= 1.0
  {
  }

  /** An account nobody has heard of may run on the default plan's 100 hours. */
  lemma NewAccountMayRun(userId: string, now: int, lowCreditHours: real)
    ensures var s := StandingOf(EMPTY_BOOKS, userId, now, lowCreditHours);
      s.canRun && s.balance == 0 && s.available == 0 && s.freeHoursLeft == 100000 && s.hoursLeft.None?
  {
    hide PreviousMonthPeriod;
  }

  // ---------- How long it lasts ----------

  /** The hours after which the servers have cost what is available. */
  function ExactRunway(available: int, free: real, perHour: real, running: nat): real
    requires running > 0 && perHour > 0.0
  {
    free / running as real + available as real / perHour
  }

  /** The runway shown is the exact one to the nearest tenth; an account in debt has
      none left, and without running servers that cost anything there is none at all. */
  lemma RunwayShown(available: int, freeHoursLeft: int, burn: Burn)
    requires freeHoursLeft >= 0
    ensures RunwayHours(available, freeHoursLeft, burn).None? <==> burn.running == 0 || burn.perHour <= 0.0
    ensures var shown := RunwayHours(available, freeHoursLeft, burn);
      shown.Some? && available >= 0 ==>
        var exact := ExactRunway(available, freeHoursLeft as real / 1000.0, burn.perHour, burn.running);
        -0.5 <= shown.value as real - exact * 10.0 <= 0.5
    ensures var shown := RunwayHours(available, freeHoursLeft, burn);
      shown.Some? && available < 0 ==> shown.value == 0
  {
    if available < 0 && burn.running > 0 && burn.perHour > 0.0 {
      assert 0.0 / burn.perHour == 0.0;
    }
  }

  lemma Distributes(n: real, a: real, c: real, w: real)
    ensures n * (a + c) == n * a + n * c
    ensures n * c * w == c * (n * w)
  {
  }

  lemma SpreadOut(free: real, available: real, weight: real, running: nat, exact: real)
    requires running > 0 && weight > 0.0 && free >= 0.0 && available >= 0.0 && running as real * weight > 0.0
    requires exact == free / running as real + available / (running as real * weight)
    ensures exact >= 0.0 && running as real * exact >= free
    ensures LineCost(running as real * exact, free, weight) == available
  {
    var n := running as real;
    var a, c := free / n, available / (n * weight);
    assert n * a == free;
    assert c * (n * weight) == available;
    assert a >= 0.0 && c >= 0.0;
    Distributes(n, a, c, weight);
    NonNegative(n, c);
  }

  /** One line for each of so many servers that run the same. */
  function Copies(line: Line, n: nat): seq<Line> {
    if n == 0 then [] else [line] + Copies(line, n - 1)
  }

  lemma {:induction false} CopiesTotal(line: Line, n: nat)
    ensures TotalHours(Copies(line, n)) == n as real * line.hours
    ensures |Copies(line, n)| == n && forall k :: 0 <= k < n ==> Copies(line, n)[k] == line
    decreases n
  {
    if n > 0 {
      CopiesTotal(line, n - 1);
      assert n as real * line.hours == (n - 1) as real * line.hours + line.hours;
    }
  }

  lemma CopiesCost(running: nat, exact: real, weight: real, free: real, total: real)
    requires exact >= 0.0 && weight >= 0.0 && free >= 0.0 && total == running as real * exact >= free
    ensures Pricing.Charge(Copies(Line(exact, weight), running), free) == LineCost(total, free, weight)
  {
    hide LineCost, Pricing.Charge, TotalHours, Copies;
    CopiesTotal(Line(exact, weight), running);
    UniformCharge(Copies(Line(exact, weight), running), free, weight);
  }

  /** Servers of one price that all run on for the exact runway cost, free hours
      counted, exactly what is available. */
  lemma RunwaySpendsCredit(available: int, free: real, weight: real, running: nat)
    requires running > 0 && weight > 0.0 && free >= 0.0 && available >= 0
    requires running as real * weight > 0.0
    ensures var exact := ExactRunway(available, free, running as real * weight, running);
      Pricing.Charge(Copies(Line(exact, weight), running), free) == available as real
  {
    var exact := ExactRunway(available, free, running as real * weight, running);
    SpreadOut(free, available as real, weight, running, exact);
    hide *;
    CopiesCost(running, exact, weight, free, running as real * exact);
  }

  // ---------- What the servers burn ----------

  ghost predicate RunThrough(ivs: seq<Interval>, p: Period) {
    forall k :: 0 <= k < |ivs| ==> ivs[k].startedAt <= p.start && ivs[k].stoppedAt.None?
  }

  lemma LinesScale(h: real, x: real, y: real)
    ensures LineCost(h, 0.0, x) + LineCost(h, 0.0, y) == LineCost(h, 0.0, x + y)
    ensures LineCost(h, 0.0, 0.0) == 0.0
  {
  }

  lemma {:induction false} BurnIsSum(ivs: seq<Interval>, plan: Plan, p: Period, rates: Rates)
    requires RunThrough(ivs, p) && p.start <= p.end
    ensures PlainSum(ivs, plan, p, rates) ==
      LineCost((p.end - p.start) as real / MS_PER_HOUR, 0.0, PerHour(Keyed(ivs), plan, rates))
    decreases |ivs|
  {
    hide LineCost, HourlyCost;
    var h := (p.end - p.start) as real / MS_PER_HOUR;
    if ivs == [] {
      LinesScale(h, 0.0, 0.0);
    } else {
      var front, last := ivs[..|ivs| - 1], ivs[|ivs| - 1];
      BurnIsSum(front, plan, p, rates);
      assert Keyed(ivs)[..|ivs| - 1] == Keyed(front);
      assert ClipHours(last, p) == h;
      LinesScale(h, PerHour(Keyed(front), plan, rates), HourlyCost(last, plan, rates));
    }
  }

  lemma BurnIsCost(ivs: seq<Interval>, plan: Plan, p: Period, rates: Rates)
    requires plan.freeHoursPerMonth == 0.0 && p.start <= p.end && RunThrough(ivs, p)
    ensures ExactCost(ivs, plan, p, rates) ==
      LineCost((p.end - p.start) as real / MS_PER_HOUR, 0.0, PerHour(Keyed(ivs), plan, rates))
  {
    hide LineCost, PlainSum, HourlyCost, Pricing.Charge, PerHour, LinesOf;
    BurnIsSum(ivs, plan, p, rates);
    SortKeepsSum(ivs, plan, p, rates);
    ChargeIsPlainSum(SortByStart(ivs), plan, p, rates);
  }

  /** The burn rate is what the open intervals are charged an hour: run through a period,
      with the grant spent, they cost the rate times the period's hours. */
  lemma BurnIsTheCharge(ivs: seq<Interval>, plan: Plan, p: Period, rates: Rates)
    requires plan.freeHoursPerMonth == 0.0 && p.start <= p.end && RunThrough(OpenOnes(ivs), p)
    requires forall j, k :: 0 <= j < k < |ivs| && ivs[j].stoppedAt.None? && ivs[k].stoppedAt.None? ==>
      ivs[j].deploymentId != ivs[k].deploymentId
    ensures var burn, hours := BurnRate(ivs, plan, rates), (p.end - p.start) as real / MS_PER_HOUR;
      burn.running == |OpenOnes(ivs)| && ExactCost(OpenOnes(ivs), plan, p, rates) == hours * burn.perHour
  {
    hide HourlyCost, ExactCost, OpenByDeployment, OpenOnes, PerHour;
    BurnCountsOpen(ivs);
    BurnIsCost(OpenOnes(ivs), plan, p, rates);
  }
}
