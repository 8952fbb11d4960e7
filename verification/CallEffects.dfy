/** Which of the books each call can change. */
module CallEffects {
  import opened Wrappers
  import opened Calendar
  import opened Pricing
  import opened Standing
  import opened Billing

  predicate TouchesIntervals(c: Call) {
    c.Started? || c.Stopped? || c.Switch?
  }

  predicate TouchesLedger(c: Call) {
    c.Request? || c.Confirm? || c.Fail? || c.Expire? || c.Adjust? || c.Bill?
  }

  /** The wallets that show a balance of nothing are as good as none. */
  ghost predicate SameBalances(b: Books, b2: Books) {
    forall u :: Balance(b2, u) == Balance(b, u)
  }

  lemma StartEffect(b: Books, dep: string, now: int)
    ensures var r := ServerStarted(b, dep, now); r == b.(deployments := r.deployments, intervals := r.intervals)
  {
    hide LastOpen, LastInterval, OpenInterval;
  }

  lemma RequestEffect(b: Books, userId: string, amount: real, nonce: int, sent: bool, now: int)
    ensures var r := RequestTopUp(b, userId, amount, nonce, sent, now).0;
      r == b.(balances := r.balances, ledger := r.ledger) && SameBalances(b, r)
      && var entry := Entry(userId, TopUp, amount, TopUpRef(userId, nonce), if sent then Pending else Failed, now);
      r.ledger == b.ledger || r.ledger == b.ledger + [entry]
  {
    hide Waiting;
  }

  lemma ConfirmEffect(b: Books, reference: Reference, amount: Option<real>)
    ensures var r := PaymentConfirmed(b, reference, amount);
      r == b.(balances := r.balances, ledger := r.ledger) && |r.ledger| == |b.ledger|
      && (forall k :: 0 <= k < |b.ledger| && r.ledger[k] != b.ledger[k] ==>
            r.ledger[k] == b.ledger[k].(status := Confirmed) && b.ledger[k].reference == reference)
  {
    hide FindEntry, SameAmount, ApplyTopUp, Unsettled;
  }

  lemma FailEffect(b: Books, reference: Reference)
    ensures var r := PaymentFailed(b, reference);
      r == b.(ledger := r.ledger) && |r.ledger| == |b.ledger|
      && (forall k :: 0 <= k < |b.ledger| && r.ledger[k] != b.ledger[k] ==>
            r.ledger[k] == b.ledger[k].(status := Failed) && b.ledger[k].reference == reference)
  {
    hide FindEntry, Unsettled;
  }

  lemma ExpireEffect(b: Books, timeout: int, now: int)
    ensures var r := ExpireStaleTopUps(b, timeout, now);
      r == b.(ledger := r.ledger) && |r.ledger| == |b.ledger|
      && (forall k :: 0 <= k < |b.ledger| && r.ledger[k] != b.ledger[k] ==>
            r.ledger[k] == b.ledger[k].(status := Expired) && b.ledger[k].status == Pending)
  {
  }

  lemma SwitchEffect(b: Books, userId: string, planId: string, now: int)
    ensures var r := ChangePlan(b, userId, planId, now).0;
      r == b.(userPlans := r.userPlans, intervals := r.intervals)
      && (forall u :: u != userId ==> UserPlan(r, u) == UserPlan(b, u))
  {
    hide Reopen, OpenOnes, Mine;
  }

  lemma AdjustEffect(b: Books, userId: string, amount: real, hasReason: bool, nonce: int, now: int)
    ensures var r := AdjustCredit(b, userId, amount, hasReason, nonce, now).0;
      r == b.(balances := r.balances, ledger := r.ledger)
      && (r.ledger != b.ledger ==>
        |r.ledger| == |b.ledger| + 1 && r.ledger[..|b.ledger|] == b.ledger &&
        r.ledger[|b.ledger|].reference == AdjustRef(nonce))
  {
    hide RoundHalfUp;
  }

  lemma BillOneEffect(b: Books, userId: string, p: Period, now: int)
    ensures var r := BillUser(b, userId, p, now);
      r == b.(balances := r.balances, ledger := r.ledger, cycles := r.cycles) &&
        b.cycles <= r.cycles && b.ledger <= r.ledger
      && (forall k :: |b.ledger| <= k < |r.ledger| ==>
        r.ledger[k].reference.ChargeRef? && r.ledger[k].status == Confirmed)
  {
    hide CostOf, CanCover, ApplyCharge, Billed;
  }

  lemma {:induction false} BillEffect(b: Books, users: seq<string>, p: Period, now: int)
    ensures var r := BillAll(b, users, p, now);
      r == b.(balances := r.balances, ledger := r.ledger, cycles := r.cycles) &&
        b.cycles <= r.cycles && b.ledger <= r.ledger
      && (forall k :: |b.ledger| <= k < |r.ledger| ==>
        r.ledger[k].reference.ChargeRef? && r.ledger[k].status == Confirmed)
    decreases |users|
  {
    hide BillUser;
    if users != [] {
      BillEffect(b, users[..|users| - 1], p, now);
      BillOneEffect(BillAll(b, users[..|users| - 1], p, now), users[|users| - 1], p, now);
    }
  }

  /** What a call leaves alone. */
  ghost predicate LeavesAlone(b: Books, c: Call, r: Books) {
    && (!TouchesIntervals(c) ==> r.intervals == b.intervals)
    && (!TouchesLedger(c) ==> r.ledger == b.ledger && SameBalances(b, r))
    && (!c.Bill? ==> r.cycles == b.cycles) && b.cycles <= r.cycles
    && r.plans == (if c.Save? then b.plans[c.plan.id := c.plan] else b.plans)
    && (!c.Switch? ==> r.userPlans == b.userPlans)
  }

  lemma MoneyCallEffect(b: Books, e: Event)
    requires TouchesLedger(e.call)
    ensures LeavesAlone(b, e.call, Apply(b, e))
  {
    hide DeploymentCreated, ServerStarted, ServerStopped, RequestTopUp, PaymentConfirmed, PaymentFailed,
      ExpireStaleTopUps, ChangePlan, SavePlan, AdjustCredit, BillAll, WithWallet, SameBalances;
    match e.call
    case Request(userId, amount, nonce, sent) => RequestEffect(b, userId, amount, nonce, sent, e.at);
    case Confirm(reference, amount) => ConfirmEffect(b, reference, amount);
    case Fail(reference) => FailEffect(b, reference);
    case Expire(timeout) => ExpireEffect(b, timeout, e.at);
    case Adjust(userId, amount, hasReason, nonce) => AdjustEffect(b, userId, amount, hasReason, nonce, e.at);
    case Bill(users) => BillEffect(b, users, PreviousMonthPeriod(e.at), e.at);
  }

  lemma QuietCallEffect(b: Books, e: Event)
    requires !TouchesLedger(e.call)
    ensures LeavesAlone(b, e.call, Apply(b, e))
  {
    hide DeploymentCreated, ServerStarted, ServerStopped, RequestTopUp, PaymentConfirmed, PaymentFailed,
      ExpireStaleTopUps, ChangePlan, SavePlan, AdjustCredit, BillAll, WithWallet, SameBalances;
    match e.call
    case Created(dep, owner, limits) => SmallEffects(b, dep, owner, limits, DEFAULT_PLAN, owner, e.at);
    case Started(dep) => StartEffect(b, dep, e.at); SameLedger(b, ServerStarted(b, dep, e.at));
    case Stopped(dep) => SmallEffects(b, dep, dep, Limits(None, None), DEFAULT_PLAN, dep, e.at);
    case Switch(userId, planId) => SwitchEffect(b, userId, planId, e.at);
      SameLedger(b, ChangePlan(b, userId, planId, e.at).0);
    case Save(plan) => SmallEffects(b, plan.id, plan.id, Limits(None, None), plan, plan.id, e.at);
    case Read(userId) => SmallEffects(b, userId, userId, Limits(None, None), DEFAULT_PLAN, userId, e.at);
  }

  lemma CallEffect(b: Books, e: Event)
    ensures LeavesAlone(b, e.call, Apply(b, e))
  {
    hide Apply, LeavesAlone;
    if TouchesLedger(e.call) {
      MoneyCallEffect(b, e);
    } else {
      QuietCallEffect(b, e);
    }
  }

  lemma SmallEffects(b: Books, dep: string, owner: string, limits: Limits, plan: Plan, userId: string, now: int)
    ensures var r := DeploymentCreated(b, dep, owner, limits);
      r == b.(deployments := r.deployments) && SameBalances(b, r)
    ensures var r := ServerStopped(b, dep, now); r == b.(intervals := r.intervals) && SameBalances(b, r)
    ensures var r := SavePlan(b, plan); r == b.(plans := b.plans[plan.id := plan]) && SameBalances(b, r)
    ensures var r := WithWallet(b, userId); r == b.(balances := r.balances) && SameBalances(b, r)
  {
    hide CloseInterval;
  }

  lemma SameLedger(b: Books, b2: Books)
    requires b2.balances == b.balances
    ensures SameBalances(b, b2)
  {
  }

  lemma SameCosts(b: Books, b2: Books, userId: string, p: Period)
    requires b2.intervals == b.intervals && b2.plans == b.plans && b2.userPlans == b.userPlans
    ensures CostOf(b2, userId, p) == CostOf(b, userId, p)
  {
    hide CycleCost;
  }
}
