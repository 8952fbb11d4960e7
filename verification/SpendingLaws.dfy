/** Within a month, with no credit added to an account and its plans unchanged, what
    it can spend only shrinks, whatever happens to every other account: one that may
    not run stays stopped. */
module SpendingLaws {
  import opened Wrappers
  import opened Calendar
  import opened Pricing
  import opened ChargeLaws
  import opened Standing
  import opened Billing
  import opened CallEffects
  import opened IntervalLaws
  import opened LedgerLaws
  import opened CycleLaws

  // ---------- Intervals only age ----------

  /** `y` is `x`, or `x` closed no earlier than `t`. */
  ghost predicate Older(x: Interval, t: int, y: Interval) {
    y == x || (x.stoppedAt.None? && y.stoppedAt.Some? && y.stoppedAt.value >= t && y == x.(stoppedAt := y.stoppedAt))
  }

  ghost predicate Aged(xs: seq<Interval>, t: int, ys: seq<Interval>) {
    |xs| <= |ys| && forall k :: 0 <= k < |xs| ==> Older(xs[k], t, ys[k])
  }

  lemma OlderClips(x: Interval, t: int, y: Interval, p: Period, q: Period)
    requires Older(x, t, y) && p.start == q.start && p.end <= q.end && p.end <= t
    ensures Extends(x, p, y, q)
  {
  }

  lemma {:induction false} CostOfMore(xs: seq<Interval>, more: seq<Interval>, plan: Plan, p: Period, rates: Rates)
    requires ValidPlan(plan) && ValidRates(rates)
    ensures CycleCost(xs, plan, p, rates) <= CycleCost(xs + more, plan, p, rates)
    ensures HoursIn(xs, p) <= HoursIn(xs + more, p)
    decreases |more|
  {
    hide CycleCost;
    if more == [] {
      assert xs + more == xs;
    } else {
      var front, last := more[..|more| - 1], more[|more| - 1];
      CostOfMore(xs, front, plan, p, rates);
      CostOfOneMore(xs + front, last, [], plan, p, rates);
      assert xs + more == xs + front + [last] && xs + front + [] == xs + front;
      assert xs + front + [last] + [] == xs + front + [last];
      assert (xs + more)[..|xs + more| - 1] == xs + front;
    }
  }

  lemma {:induction false} HoursExtend(xs: seq<Interval>, p: Period, ys: seq<Interval>, q: Period)
    requires AllExtend(xs, p, ys, q)
    ensures HoursIn(xs, p) <= HoursIn(ys, q)
    decreases |xs|
  {
    if xs != [] {
      var n := |xs| - 1;
      HoursExtend(xs[..n], p, ys[..n], q);
      assert Extends(xs[n], p, ys[n], q);
    }
  }

  /** Usage never falls when intervals age or the end of the period moves back. */
  lemma AgedUsage(xs: seq<Interval>, t: int, ys: seq<Interval>, p: Period, q: Period, plan: Plan, rates: Rates)
    requires ValidPlan(plan) && ValidRates(rates)
    requires Aged(xs, t, ys) && p.start == q.start && p.end <= q.end && p.end <= t
    ensures CycleCost(xs, plan, p, rates) <= CycleCost(ys, plan, q, rates)
    ensures UsageIn(xs, plan, p, rates).hours <= UsageIn(ys, plan, q, rates).hours
  {
    hide CycleCost, ClipMs;
    var front, more := ys[..|xs|], ys[|xs|..];
    assert ys == front + more;
    forall k | 0 <= k < |xs|
      ensures Extends(xs[k], p, front[k], q)
    {
      OlderClips(xs[k], t, ys[k], p, q);
    }
    CostMonotone(xs, p, front, q, plan, rates);
    HoursExtend(xs, p, front, q);
    CostOfMore(front, more, plan, q, rates);
    RoundMonotone(HoursIn(xs, p) * 1000.0, HoursIn(ys, q) * 1000.0);
  }

  lemma {:induction false} AgedMine(xs: seq<Interval>, t: int, ys: seq<Interval>, userId: string)
    requires Aged(xs, t, ys)
    ensures Aged(Mine(xs, userId), t, Mine(ys, userId))
    decreases |ys|
  {
    if |ys| > |xs| {
      AgedMine(xs, t, ys[..|ys| - 1], userId);
    } else if xs != [] {
      var n := |xs| - 1;
      AgedMine(xs[..n], t, ys[..n], userId);
      assert Older(xs[n], t, ys[n]);
    }
    if |ys| == |xs| {
      SameCount(xs, t, ys, userId);
    }
  }

  lemma {:induction false} SameCount(xs: seq<Interval>, t: int, ys: seq<Interval>, userId: string)
    requires Aged(xs, t, ys) && |xs| == |ys|
    ensures |Mine(xs, userId)| == |Mine(ys, userId)|
    decreases |xs|
  {
    if xs != [] {
      var n := |xs| - 1;
      SameCount(xs[..n], t, ys[..n], userId);
      assert Older(xs[n], t, ys[n]);
    }
  }

  lemma AgedThenClosed(xs: seq<Interval>, t: int, ys: seq<Interval>, dep: string, now: int)
    requires Aged(xs, t, ys) && t <= now
    ensures Aged(xs, t, CloseInterval(ys, dep, now)) && |CloseInterval(ys, dep, now)| == |ys|
  {
    var zs := CloseInterval(ys, dep, now);
    forall k | 0 <= k < |xs|
      ensures Older(xs[k], t, zs[k])
    {
      assert Older(xs[k], t, ys[k]);
    }
  }

  lemma {:induction false} ReopenAges(ivs: seq<Interval>, running: seq<Interval>,
                                      userId: string, planId: string, t: int, now: int)
    requires t <= now
    ensures Aged(ivs, t, Reopen(ivs, running, userId, planId, now))
    ensures forall k :: |ivs| <= k < |Reopen(ivs, running, userId, planId, now)| ==>
      Reopen(ivs, running, userId, planId, now)[k].userId == userId
    decreases |running|
  {
    if running != [] {
      var n := |running| - 1;
      var before := Reopen(ivs, running[..n], userId, planId, now);
      ReopenAges(ivs, running[..n], userId, planId, t, now);
      AgedThenClosed(ivs, t, before, running[n].deploymentId, now);
    }
  }

  // ---------- Rates that do not matter ----------

  /** The rate of a plan none of the intervals ran under does not enter their cost. */
  lemma RatesDoNotMatter(ivs: seq<Interval>, plan: Plan, p: Period, rates: Rates, rates2: Rates)
    requires forall k :: 0 <= k < |ivs| ==> HourlyCost(ivs[k], plan, rates) == HourlyCost(ivs[k], plan, rates2)
    ensures CycleCost(ivs, plan, p, rates) == CycleCost(ivs, plan, p, rates2)
  {
    hide HourlyCost, ClipHours;
    var s := SortByStart(ivs);
    SortSorts(ivs);
    forall k | 0 <= k < |s|
      ensures HourlyCost(s[k], plan, rates) == HourlyCost(s[k], plan, rates2)
    {
      assert s[k] in multiset(s);
      assert s[k] in ivs;
    }
    assert LinesOf(s, plan, p, rates) == LinesOf(s, plan, p, rates2);
  }

  // ---------- One call ----------

  /** The calls that neither add credit to the account nor change its plan, nor the
      terms of the plans in `ids`. Of every other account they may do anything. */
  predicate Spares(c: Call, userId: string, ids: set<string>) {
    && (c.Confirm? ==> !(c.reference.TopUpRef? && c.reference.userId == userId))
    && (c.Adjust? && c.userId == userId ==> c.amount <= 0.0)
    && (c.Switch? ==> c.userId != userId)
    && (c.Save? ==> c.plan.id !in ids)
  }

  /** The plans the account is on, and those its intervals ran under. */
  ghost predicate UsesOnly(b: Books, userId: string, ids: set<string>) {
    && UserPlan(b, userId).id in ids && (userId in b.userPlans ==> b.userPlans[userId] in ids)
    && (forall k :: 0 <= k < |b.intervals| && b.intervals[k].userId == userId ==> b.intervals[k].planId in ids)
  }

  /** A top-up's reference names the account it is for. */
  ghost predicate Owned(ledger: seq<Entry>) {
    forall k :: 0 <= k < |ledger| && ledger[k].reference.TopUpRef? ==> ledger[k].reference.userId == ledger[k].userId
  }

  /** What holds of the books in every reachable state. */
  ghost predicate Sound(b: Books) {
    PlansOk(b) && MoneyOk(b) && Owned(b.ledger)
  }

  /** `y` has no more to spend than `x`, neither credit nor free hours. */
  ghost predicate NoMore(x: Standing, y: Standing) {
    y.available <= x.available && y.freeHoursLeft <= x.freeHoursLeft
  }

  /** What a later moment of the same month shows of books that only aged. */
  lemma StandingShrinks(balance: int, balance2: int, userId: string, xs: seq<Interval>, ys: seq<Interval>,
                        cycles: seq<Cycle>, plan: Plan, t: int, t2: int, rates: Rates, low: real)
    requires ValidPlan(plan) && ValidRates(rates) && balance2 <= balance
    requires Aged(xs, t, ys) && t <= t2 && MonthOf(t) == MonthOf(t2)
    ensures NoMore(ComputeStanding(balance, userId, xs, cycles, plan, t, rates, low),
                   ComputeStanding(balance2, userId, ys, cycles, plan, t2, rates, low))
  {
    hide CycleCost, HoursIn, BurnRate, RunwayHours, Aged, Billed;
    PeriodsTile(t);
    PeriodsTile(t2);
    AgedUsage(xs, t, ys, CurrentPeriod(t), CurrentPeriod(t2), plan, rates);
    AgedUsage(xs, t, ys, PreviousMonthPeriod(t), PreviousMonthPeriod(t2), plan, rates);
    var h, h2 := UsageIn(xs, plan, CurrentPeriod(t), rates).hours, UsageIn(ys, plan, CurrentPeriod(t2), rates).hours;
    RoundMonotone(plan.freeHoursPerMonth * 1000.0 - h2 as real, plan.freeHoursPerMonth * 1000.0 - h as real);
  }

  /** Books that, for this account, only aged: nothing credited, nothing repriced. */
  ghost predicate BooksAged(b: Books, t: int, b2: Books, userId: string) {
    && Aged(b.intervals, t, b2.intervals)
    && Balance(b2, userId) <= Balance(b, userId)
    && b2.cycles == b.cycles && b2.plans == b.plans && UserPlan(b2, userId) == UserPlan(b, userId)
  }

  lemma StartAges(b: Books, dep: string, t: int, now: int, userId: string)
    ensures BooksAged(b, t, ServerStarted(b, dep, now), userId)
  {
    hide LastOpen, LastInterval;
  }

  lemma AdjustAges(b: Books, who: string, amount: real, hasReason: bool, nonce: int, t: int, now: int, userId: string)
    requires who == userId ==> amount <= 0.0
    ensures BooksAged(b, t, AdjustCredit(b, who, amount, hasReason, nonce, now).0, userId)
  {
    if who == userId {
      RoundMonotone(0.0, -amount);
      RoundShift(0, 0.0);
    } else {
      hide RoundHalfUp;
    }
  }

  /** A confirmation credits the account its reference names and no other. */
  lemma ConfirmAges(b: Books, reference: Reference, amount: Option<real>, t: int, userId: string)
    requires MoneyOk(b) && Owned(b.ledger) && !(reference.TopUpRef? && reference.userId == userId)
    ensures BooksAged(b, t, PaymentConfirmed(b, reference, amount), userId)
  {
    hide RoundHalfUp, ApplyTopUp, LedgerBalance;
    var k := FindEntry(b.ledger, reference);
    if k.Some? {
      assert EntryOk(b.ledger[k.value]);
    }
  }

  lemma SwitchAges(b: Books, who: string, planId: string, t: int, now: int, userId: string)
    requires who != userId && t <= now
    ensures BooksAged(b, t, ChangePlan(b, who, planId, now).0, userId)
  {
    if planId in b.plans {
      ReopenAges(b.intervals, OpenOnes(Mine(b.intervals, who)), who, b.plans[planId].id, t, now);
    }
  }

  lemma CallAges(b: Books, e: Event, t: int, userId: string, ids: set<string>)
    requires Sound(b) && Spares(e.call, userId, ids) && !e.call.Bill? && !e.call.Save? && t <= e.at
    ensures BooksAged(b, t, Apply(b, e), userId)
  {
    hide DeploymentCreated, ServerStarted, ServerStopped, RequestTopUp, PaymentConfirmed, PaymentFailed,
      ExpireStaleTopUps, ChangePlan, SavePlan, AdjustCredit, BillAll, WithWallet, MoneyOk, Owned, PlansOk,
      Aged, BooksAged;
    match e.call
    case Started(dep) => StartAges(b, dep, t, e.at, userId);
    case Stopped(dep) => StopAges(b, dep, t, e.at, userId);
    case Adjust(who, amount, hasReason, nonce) => AdjustAges(b, who, amount, hasReason, nonce, t, e.at, userId);
    case Confirm(reference, amount) => ConfirmAges(b, reference, amount, t, userId);
    case Switch(who, planId) => SwitchAges(b, who, planId, t, e.at, userId);
    case _ => CallEffect(b, e); QuietCallAges(b, e, t, userId);
  }

  lemma StopAges(b: Books, dep: string, t: int, now: int, userId: string)
    requires t <= now
    ensures BooksAged(b, t, ServerStopped(b, dep, now), userId)
  {
    hide CloseInterval;
    AgedStays(b.intervals, t);
    AgedThenClosed(b.intervals, t, b.intervals, dep, now);
  }

  lemma QuietCallAges(b: Books, e: Event, t: int, userId: string)
    requires e.call.Created? || e.call.Request? || e.call.Fail? || e.call.Expire? || e.call.Read?
    ensures BooksAged(b, t, Apply(b, e), userId)
  {
    hide RequestTopUp, PaymentFailed, ExpireLedger;
    AgedStays(b.intervals, t);
    match e.call
    case Request(u, amount, nonce, sent) => RequestEffect(b, u, amount, nonce, sent, e.at);
    case Fail(reference) => FailEffect(b, reference);
    case _ =>
  }

  lemma RatesAreValid(b: Books, userId: string)
    requires PlansOk(b)
    ensures ValidRates(RatesOf(b)) && ValidPlan(UserPlan(b, userId))
  {
  }

  lemma AgedBooksShrink(b: Books, b2: Books, userId: string, t: int, t2: int, low: real)
    requires PlansOk(b) && BooksAged(b, t, b2, userId) && t <= t2 && MonthOf(t) == MonthOf(t2)
    ensures NoMore(StandingOf(b, userId, t, low), StandingOf(b2, userId, t2, low))
  {
    hide ComputeStanding, NoMore, Aged, Mine;
    RatesAreValid(b, userId);
    AgedMine(b.intervals, t, b2.intervals, userId);
    StandingShrinks(Balance(b, userId), Balance(b2, userId), userId,
      Mine(b.intervals, userId), Mine(b2.intervals, userId),
                    b.cycles, UserPlan(b, userId), t, t2, RatesOf(b), low);
  }

  lemma {:induction false} MineUses(ivs: seq<Interval>, userId: string, ids: set<string>)
    requires forall k :: 0 <= k < |ivs| && ivs[k].userId == userId ==> ivs[k].planId in ids
    ensures forall k :: 0 <= k < |Mine(ivs, userId)| ==> Mine(ivs, userId)[k].planId in ids
    decreases |ivs|
  {
    if ivs != [] {
      MineUses(ivs[..|ivs| - 1], userId, ids);
    }
  }

  /** Adding or repricing a plan the account has nothing to do with leaves what it
      can spend as it was. */
  lemma SavingElsewhereLeavesSpending(b: Books, plan: Plan, userId: string, ids: set<string>, t: int, low: real)
    requires PlansOk(b) && UsesOnly(b, userId, ids) && plan.id !in ids
    ensures NoMore(StandingOf(b, userId, t, low), StandingOf(SavePlan(b, plan), userId, t, low))
  {
    hide CycleCost, HoursIn, BurnRate, RunwayHours, Billed, ResourceFactor,
      PreviousMonthPeriod, MonthPeriodOf, RoundHalfUp;
    var b2 := SavePlan(b, plan);
    var mine, mine2, current := Mine(b.intervals, userId), Mine(b2.intervals, userId), UserPlan(b, userId);
    MineUses(b.intervals, userId, ids);
    assert UserPlan(b2, userId) == current;
    assert forall k :: 0 <= k < |mine| ==>
      HourlyCost(mine[k], current, RatesOf(b)) == HourlyCost(mine[k], current, RatesOf(b2));
    RatesDoNotMatter(mine, current, CurrentPeriod(t), RatesOf(b), RatesOf(b2));
    RatesDoNotMatter(mine, current, PreviousMonthPeriod(t), RatesOf(b), RatesOf(b2));
  }

  lemma CallShrinks(b: Books, e: Event, userId: string, ids: set<string>, t: int, low: real)
    requires Sound(b) && UsesOnly(b, userId, ids) && Spares(e.call, userId, ids) &&
      t <= e.at && MonthOf(t) == MonthOf(e.at)
    ensures NoMore(StandingOf(b, userId, t, low), StandingOf(Apply(b, e), userId, e.at, low))
  {
    hide DeploymentCreated, ServerStarted, ServerStopped, RequestTopUp, PaymentConfirmed, PaymentFailed,
      ExpireStaleTopUps, ChangePlan, SavePlan, AdjustCredit, BillAll, WithWallet, StandingOf, MoneyOk, Owned, PlansOk,
      Aged, UsesOnly;
    if e.call.Bill? {
      AgedStays(b.intervals, t);
      AgedBooksShrink(b, b, userId, t, e.at, low);
      BillingLeavesSpending(b, e.call.users, e.at, e.at, userId, low);
    } else if e.call.Save? {
      AgedStays(b.intervals, t);
      AgedBooksShrink(b, b, userId, t, e.at, low);
      SavingElsewhereLeavesSpending(b, e.call.plan, userId, ids, e.at, low);
    } else {
      CallAges(b, e, t, userId, ids);
      AgedBooksShrink(b, Apply(b, e), userId, t, e.at, low);
    }
  }

  lemma AgedStays(ivs: seq<Interval>, t: int)
    ensures Aged(ivs, t, ivs)
  {
  }

  // ---------- What every call keeps ----------

  lemma ApplyKeepsPlans(b: Books, e: Event)
    requires PlansOk(b) && (e.call.Save? ==> ValidPlan(e.call.plan))
    ensures PlansOk(Apply(b, e))
  {
    hide Apply;
    CallEffect(b, e);
  }

  lemma EmptyBooksAreSound()
    ensures Sound(EMPTY_BOOKS)
  {
  }

  lemma ApplyKeepsOwned(b: Books, e: Event)
    requires Owned(b.ledger)
    ensures Owned(Apply(b, e).ledger)
  {
    hide DeploymentCreated, ServerStarted, ServerStopped, RequestTopUp, PaymentConfirmed, PaymentFailed,
      ExpireStaleTopUps, ChangePlan, SavePlan, AdjustCredit, BillAll, WithWallet;
    match e.call
    case Request(u, amount, nonce, sent) => RequestEffect(b, u, amount, nonce, sent, e.at);
    case Confirm(reference, amount) => ConfirmEffect(b, reference, amount);
      StatusesKeepOwned(b.ledger, PaymentConfirmed(b, reference, amount).ledger);
    case Fail(reference) => FailEffect(b, reference); StatusesKeepOwned(b.ledger, PaymentFailed(b, reference).ledger);
    case Expire(timeout) => ExpireEffect(b, timeout, e.at);
      StatusesKeepOwned(b.ledger, ExpireStaleTopUps(b, timeout, e.at).ledger);
    case Adjust(u, amount, hasReason, nonce) => AdjustEffect(b, u, amount, hasReason, nonce, e.at);
    case Bill(users) => BillEffect(b, users, PreviousMonthPeriod(e.at), e.at);
    case _ => CallEffect(b, e);
  }

  lemma StatusesKeepOwned(before: seq<Entry>, after: seq<Entry>)
    requires Owned(before) && |after| == |before|
    requires forall k :: 0 <= k < |before| && after[k] != before[k] ==>
      after[k] == before[k].(status := after[k].status)
    ensures Owned(after)
  {
  }

  lemma ApplyKeepsSound(b: Books, e: Event)
    requires Sound(b) && (e.call.Save? ==> ValidPlan(e.call.plan))
    ensures Sound(Apply(b, e))
  {
    hide Apply, PlansOk, MoneyOk, Owned;
    ApplyKeepsPlans(b, e);
    ApplyKeepsMoney(b, e);
    ApplyKeepsOwned(b, e);
  }

  lemma {:induction false} ReachableIsSound(es: seq<Event>)
    requires Orderly(es)
    ensures Sound(Run(EMPTY_BOOKS, es))
    decreases |es|
  {
    hide Apply, Sound;
    if es == [] {
      EmptyBooksAreSound();
    } else {
      ReachableIsSound(es[..|es| - 1]);
      ApplyKeepsSound(Run(EMPTY_BOOKS, es[..|es| - 1]), es[|es| - 1]);
    }
  }

  lemma AgedKeepsUses(b: Books, b2: Books, t: int, userId: string, ids: set<string>)
    requires UsesOnly(b, userId, ids) && Aged(b.intervals, t, b2.intervals)
    requires UserPlan(b2, userId) == UserPlan(b, userId) &&
      (userId in b2.userPlans ==> userId in b.userPlans && b2.userPlans[userId] == b.userPlans[userId])
    requires forall k :: |b.intervals| <= k < |b2.intervals| && b2.intervals[k].userId == userId ==>
      b2.intervals[k].planId in ids
    ensures UsesOnly(b2, userId, ids)
  {
    forall k | 0 <= k < |b2.intervals| && b2.intervals[k].userId == userId
      ensures b2.intervals[k].planId in ids
    {
      if k < |b.intervals| {
        assert Older(b.intervals[k], t, b2.intervals[k]);
      }
    }
  }

  lemma StartKeepsUses(b: Books, dep: string, now: int, userId: string, ids: set<string>)
    requires UsesOnly(b, userId, ids)
    ensures UsesOnly(ServerStarted(b, dep, now), userId, ids)
  {
    hide LastOpen, LastInterval;
  }

  lemma StopKeepsUses(b: Books, dep: string, now: int, userId: string, ids: set<string>)
    requires UsesOnly(b, userId, ids)
    ensures UsesOnly(ServerStopped(b, dep, now), userId, ids)
  {
    AgedStays(b.intervals, now);
    AgedThenClosed(b.intervals, now, b.intervals, dep, now);
    hide CloseInterval, Aged, UsesOnly;
    AgedKeepsUses(b, ServerStopped(b, dep, now), now, userId, ids);
  }

  lemma SwitchKeepsUses(b: Books, who: string, planId: string, now: int, userId: string, ids: set<string>)
    requires UsesOnly(b, userId, ids) && who != userId
    ensures UsesOnly(ChangePlan(b, who, planId, now).0, userId, ids)
  {
    hide Reopen, OpenOnes, Mine, Aged, UsesOnly;
    AgedStays(b.intervals, now);
    if planId in b.plans {
      ReopenAges(b.intervals, OpenOnes(Mine(b.intervals, who)), who, b.plans[planId].id, now, now);
    }
    SwitchEffect(b, who, planId, now);
    AgedKeepsUses(b, ChangePlan(b, who, planId, now).0, now, userId, ids);
  }

  lemma SameUses(b: Books, b2: Books, userId: string, ids: set<string>)
    requires UsesOnly(b, userId, ids) && b2.intervals == b.intervals &&
      b2.plans == b.plans && b2.userPlans == b.userPlans
    ensures UsesOnly(b2, userId, ids)
  {
  }

  /** The account's plans stay the same few. */
  lemma ApplyKeepsUses(b: Books, e: Event, userId: string, ids: set<string>)
    requires PlansOk(b) && UsesOnly(b, userId, ids) && Spares(e.call, userId, ids)
    ensures UsesOnly(Apply(b, e), userId, ids)
  {
    hide DeploymentCreated, ServerStarted, ServerStopped, RequestTopUp, PaymentConfirmed, PaymentFailed,
      ExpireStaleTopUps, ChangePlan, SavePlan, AdjustCredit, BillAll, WithWallet, PlansOk, UsesOnly;
    match e.call
    case Started(dep) => StartKeepsUses(b, dep, e.at, userId, ids);
    case Stopped(dep) => StopKeepsUses(b, dep, e.at, userId, ids);
    case Switch(who, planId) => SwitchKeepsUses(b, who, planId, e.at, userId, ids);
    case Save(plan) => SaveKeepsUses(b, plan, userId, ids);
    case _ => CallEffect(b, e); SameUses(b, Apply(b, e), userId, ids);
  }

  lemma SaveKeepsUses(b: Books, plan: Plan, userId: string, ids: set<string>)
    requires PlansOk(b) && UsesOnly(b, userId, ids) && plan.id !in ids
    ensures UsesOnly(SavePlan(b, plan), userId, ids)
  {
  }

  // ---------- A month's run ----------

  /** A run inside the month of `t` that adds no credit to the account and changes
      neither its plan nor the terms of the plans in `ids`. */
  ghost predicate Frugal(es: seq<Event>, userId: string, ids: set<string>, t: int) {
    && Orderly(es)
    && (forall k :: 0 <= k < |es| ==>
      Spares(es[k].call, userId, ids) && t <= es[k].at && MonthOf(es[k].at) == MonthOf(t))
  }

  function LastAt(es: seq<Event>, t: int): int {
    if es == [] then t else es[|es| - 1].at
  }

  lemma {:induction false} MonthShrinks(b: Books, es: seq<Event>, userId: string, ids: set<string>, t: int, low: real)
    requires Sound(b) && UsesOnly(b, userId, ids) && Frugal(es, userId, ids, t)
    ensures Sound(Run(b, es)) && UsesOnly(Run(b, es), userId, ids)
    ensures NoMore(StandingOf(b, userId, t, low), StandingOf(Run(b, es), userId, LastAt(es, t), low))
    decreases |es|
  {
    hide StandingOf, Apply, PlansOk, MoneyOk, Owned, Spares, UsesOnly;
    if es != [] {
      var past, e := es[..|es| - 1], es[|es| - 1];
      MonthShrinks(b, past, userId, ids, t, low);
      CallShrinks(Run(b, past), e, userId, ids, LastAt(past, t), low);
      ApplyKeepsSound(Run(b, past), e);
      ApplyKeepsUses(Run(b, past), e, userId, ids);
    }
  }

  /** Once an account may not run, it may not run for the rest of the month: not
      through any starts and stops, its failed or expired top-ups, credit removed,
      billing of the closed month or passing of time, and whatever the other accounts
      do, top-ups, credit and plan switches included, up to any later moment `end`. */
  lemma StoppedStaysStopped(past: seq<Event>, es: seq<Event>, userId: string,
                            ids: set<string>, t: int, end: int, low: real)
    requires Orderly(past) && UsesOnly(Run(EMPTY_BOOKS, past), userId, ids) && Frugal(es, userId, ids, t)
    requires LastAt(es, t) <= end && MonthOf(end) == MonthOf(t)
    requires !StandingOf(Run(EMPTY_BOOKS, past), userId, t, low).canRun
    ensures !StandingOf(Run(Run(EMPTY_BOOKS, past), es), userId, end, low).canRun
  {
    hide StandingOf, UsesOnly, MoneyOk, Owned, PlansOk, Aged;
    var b := Run(EMPTY_BOOKS, past);
    var b2 := Run(b, es);
    ReachableIsSound(past);
    MonthShrinks(b, es, userId, ids, t, low);
    AgedStays(b2.intervals, LastAt(es, t));
    AgedBooksShrink(b2, b2, userId, LastAt(es, t), end, low);
    MayRun(b, userId, t, low);
    MayRun(b2, userId, end, low);
    CanRunShrinks(StandingOf(b, userId, t, low), StandingOf(b2, userId, end, low));
  }

  lemma MayRun(b: Books, userId: string, now: int, low: real)
    ensures var s := StandingOf(b, userId, now, low); s.canRun == CanRun(s.available, s.freeHoursLeft)
  {
    hide UsageIn, RunwayHours, BurnRate, FreeLeft, PreviousMonthPeriod, CurrentPeriod, CanRun;
  }

  lemma CanRunShrinks(x: Standing, y: Standing)
    requires NoMore(x, y) && x.canRun == CanRun(x.available, x.freeHoursLeft) &&
      y.canRun == CanRun(y.available, y.freeHoursLeft)
    ensures y.canRun ==> x.canRun
  {
  }
}
