/** What single calls and pairs of calls come to: servers started and stopped, plans
    changed, top-ups asked for and answered, credit adjusted, a month billed. */
module CallLaws {
  import opened Wrappers
  import opened Calendar
  import opened Pricing
  import opened ChargeLaws
  import opened Standing
  import opened Billing
  import opened CallEffects
  import opened IntervalLaws
  import opened LedgerLaws
  import opened CycleLaws

  // ---------- Servers ----------

  lemma {:induction false} LastOpenIsLast(ivs: seq<Interval>, dep: string)
    ensures var r := LastOpen(ivs, dep);
      r.Some? ==> forall k :: r.value < k < |ivs| && ivs[k].deploymentId == dep ==> ivs[k].stoppedAt.Some?
    decreases |ivs|
  {
    if ivs != [] {
      LastOpenIsLast(ivs[..|ivs| - 1], dep);
    }
  }

  lemma {:induction false} LastIntervalIsLast(ivs: seq<Interval>, dep: string)
    ensures var r := LastInterval(ivs, dep);
      r.Some? ==> forall k :: r.value < k < |ivs| ==> ivs[k].deploymentId != dep
    decreases |ivs|
  {
    if ivs != [] {
      LastIntervalIsLast(ivs[..|ivs| - 1], dep);
    }
  }

  lemma LastOpenOfNew(ivs: seq<Interval>, i: Interval)
    requires i.stoppedAt.None?
    ensures LastOpen(ivs + [i], i.deploymentId) == Some(|ivs|)
  {
  }

  /** A server started and then stopped leaves one interval from the one moment to the
      other, for its owner and in its size, under the plan the owner was on at the start. */
  lemma StartThenStop(b: Books, dep: string, at: int, until: int)
    requires dep in b.deployments && LastOpen(b.intervals, dep).None?
    ensures var d := b.deployments[dep];
      ServerStopped(ServerStarted(b, dep, at), dep, until).intervals ==
      b.intervals + [Interval(d.userId, dep, UserPlan(b, d.userId).id, d.limits, at, Some(until))]
  {
    hide UserPlan;
    var d := b.deployments[dep];
    var i := Interval(d.userId, dep, UserPlan(b, d.userId).id, d.limits, at, None);
    LastOpenOfNew(b.intervals, i);
  }

  /** The owner and the size last reported are the ones it runs under. */
  lemma CreatedThenStarted(b: Books, dep: string, owner: string, limits: Limits, at: int)
    requires LastOpen(b.intervals, dep).None?
    ensures ServerStarted(DeploymentCreated(b, dep, owner, limits), dep, at).intervals ==
      b.intervals + [Interval(owner, dep, UserPlan(b, owner).id, limits, at, None)]
  {
    hide LastOpen, LastInterval;
  }

  lemma {:induction false} OpenIsFound(ivs: seq<Interval>, dep: string, k: nat)
    requires k < |ivs| && ivs[k].deploymentId == dep && ivs[k].stoppedAt.None?
    ensures LastOpen(ivs, dep).Some?
    decreases |ivs|
  {
    if k < |ivs| - 1 {
      OpenIsFound(ivs[..|ivs| - 1], dep, k);
    }
  }

  /** A start reported again changes nothing. */
  lemma StartTwice(b: Books, dep: string, at: int, later: int)
    ensures ServerStarted(ServerStarted(b, dep, at), dep, later) == ServerStarted(b, dep, at)
  {
    hide UserPlan, LastInterval, LastOpen;
    var once := ServerStarted(b, dep, at);
    if once.intervals != b.intervals {
      OpenIsFound(once.intervals, dep, |b.intervals|);
    }
  }

  /** Nor does a stop reported again, in a reachable state. */
  lemma StopTwice(b: Books, dep: string, at: int, later: int)
    requires IntervalsOk(b.intervals, at)
    ensures ServerStopped(ServerStopped(b, dep, at), dep, later) == ServerStopped(b, dep, at)
  {
    CloseKeeps(b.intervals, dep, at);
  }

  /** A server missing from the deployments starts as its last interval says; one that
      never ran starts nothing. */
  lemma ForgottenServer(b: Books, dep: string, at: int)
    requires dep !in b.deployments
    ensures LastInterval(b.intervals, dep).None? ==> ServerStarted(b, dep, at) == b
    ensures LastInterval(b.intervals, dep).Some? ==>
      var last := b.intervals[LastInterval(b.intervals, dep).value];
      ServerStarted(b, dep, at) == ServerStarted(DeploymentCreated(b, dep, last.userId, last.limits), dep, at)
  {
    hide LastOpen;
  }

  // ---------- Plans ----------

  /** Who may change to which plan: there must be one of that name, and it must still be
      offered unless the account is on it already; only its own plan changes. */
  lemma PlanAfterSwitch(b: Books, userId: string, planId: string, now: int, who: string)
    requires PlansOk(b)
    ensures var (b2, answer) := ChangePlan(b, userId, planId, now);
      && (answer == Refused(404) <==> planId !in b.plans)
      && (answer == Refused(409) <==>
            planId in b.plans && !b.plans[planId].active && UserPlan(b, userId).id != planId)
      && (answer.Refused? ==> answer.status in {404, 409} && b2 == b)
      && (answer.Done? ==> UserPlan(b2, userId).id == planId)
      && b2 == b.(userPlans := b2.userPlans, intervals := b2.intervals)
      && (UserPlan(b, userId).id == planId && planId in b.plans ==> b2 == b)
      && (who != userId ==> UserPlan(b2, who) == UserPlan(b, who))
  {
    hide Reopen, OpenOnes, Mine;
  }

  /** An account with no plan of its own, or one that no longer exists, is on the default
      plan: two cents an hour past 100 free hours, unless it has been changed. */
  lemma DefaultPlan(b: Books, userId: string)
    requires userId !in b.userPlans || b.userPlans[userId] !in b.plans
    ensures UserPlan(b, userId) == if "standard" in b.plans then b.plans["standard"] else DEFAULT_PLAN
    ensures DEFAULT_PLAN.pricePerHour == 2.0 && DEFAULT_PLAN.freeHoursPerMonth == 100.0
  {
  }

  /** An account's bill when all it ran, it ran under one plan and in one size: the hours
      past its current plan's grant at the price of the plan they were run under, whether
      or not that is its current plan or one still offered. */
  lemma BillAtThePlanRunUnder(b: Books, userId: string, q: string, limits: Limits, p: Period)
    requires PlansOk(b) && ValidPlan(UserPlan(b, userId)) && q in b.plans
    requires forall i :: i in Mine(b.intervals, userId) ==> i.planId == q && i.limits == limits
    ensures CostOf(b, userId, p) == RoundHalfUp(Price(
      MaxReal(0.0, HoursIn(Mine(b.intervals, userId), p) - UserPlan(b, userId).freeHoursPerMonth),
      b.plans[q].pricePerHour, limits))
  {
    hide CycleCost, RoundHalfUp, Price, HoursIn, UserPlan, Mine;
    OnePlanCost(Mine(b.intervals, userId), q, limits, UserPlan(b, userId), p, RatesOf(b));
  }

  // ---------- Top-ups ----------

  /** A request is refused unless the amount is positive, fewer than three of the
      account's top-ups wait, and the broker takes it; it moves no money. */
  lemma RequestAnswers(b: Books, userId: string, amount: real, nonce: int, sent: bool, now: int, who: string)
    ensures var (b2, answer) := RequestTopUp(b, userId, amount, nonce, sent, now);
      && (answer == Refused(400) <==> amount <= 0.0)
      && (answer == Refused(409) <==> amount > 0.0 && Waiting(b.ledger, userId) >= 3)
      && (answer == Refused(503) <==> amount > 0.0 && Waiting(b.ledger, userId) < 3 && !sent)
      && (answer == Done <==> amount > 0.0 && Waiting(b.ledger, userId) < 3 && sent)
      && (answer == Refused(400) || answer == Refused(409) ==> b2 == b)
      && Balance(b2, who) == Balance(b, who)
      && Waiting(b2.ledger, userId) == Waiting(b.ledger, userId) + (if answer == Done then 1 else 0)
  {
    var b2 := RequestTopUp(b, userId, amount, nonce, sent, now).0;
    if b2.ledger != b.ledger {
      assert b2.ledger[..|b.ledger|] == b.ledger;
    }
  }

  lemma FindAppended(ledger: seq<Entry>, e: Entry)
    requires FindEntry(ledger, e.reference).None?
    ensures FindEntry(ledger + [e], e.reference) == Some(|ledger|)
  {
    assert (ledger + [e])[|ledger|] == e;
    assert forall k :: 0 <= k < |ledger| ==> (ledger + [e])[k] == ledger[k];
  }

  /** A request that was sent and is confirmed, for its amount or for none named, credits
      the account with that amount in whole cents. */
  lemma RequestThenConfirm(b: Books, userId: string, amount: real, nonce: int, now: int, named: bool)
    requires amount > 0.0 && Waiting(b.ledger, userId) < 3 && FindEntry(b.ledger, TopUpRef(userId, nonce)).None?
    ensures var asked := RequestTopUp(b, userId, amount, nonce, true, now).0;
      var paid := PaymentConfirmed(asked, TopUpRef(userId, nonce), if named then Some(amount) else None);
      && Balance(paid, userId) == Balance(b, userId) + RoundHalfUp(amount)
      && Waiting(paid.ledger, userId) <= Waiting(asked.ledger, userId)
  {
    hide RoundHalfUp, ApplyTopUp, Waiting;
    var e := Entry(userId, TopUp, amount, TopUpRef(userId, nonce), Pending, now);
    FindAppended(b.ledger, e);
    TopUpMoves(Balance(b, userId), amount);
    var asked := RequestTopUp(b, userId, amount, nonce, true, now).0;
    WaitingUpdate(asked.ledger, |b.ledger|, Confirmed, userId);
  }

  /** A request that could not be sent is never credited. */
  lemma UnsentIsNeverCredited(b: Books, userId: string, amount: real, nonce: int, now: int, confirmed: Option<real>)
    requires FindEntry(b.ledger, TopUpRef(userId, nonce)).None?
    ensures var asked := RequestTopUp(b, userId, amount, nonce, false, now).0;
      PaymentConfirmed(asked, TopUpRef(userId, nonce), confirmed) == asked
  {
    hide RoundHalfUp, ApplyTopUp, Waiting;
    var asked := RequestTopUp(b, userId, amount, nonce, false, now).0;
    if asked.ledger != b.ledger {
      FindAppended(b.ledger, asked.ledger[|b.ledger|]);
    }
  }

  /** A confirmation changes the books exactly when it finds a top-up that is pending or
      expired, and names no amount or the requested one to the cent. */
  lemma ConfirmChangesIff(b: Books, reference: Reference, amount: Option<real>)
    ensures PaymentConfirmed(b, reference, amount) != b <==>
      exists k :: FindEntry(b.ledger, reference) == Some(k) && b.ledger[k].kind == TopUp &&
        (b.ledger[k].status == Pending || b.ledger[k].status == Expired) &&
        (amount.Some? ==> RoundHalfUp(amount.value) == RoundHalfUp(b.ledger[k].amount))
  {
    hide RoundHalfUp, ApplyTopUp, FindEntry;
    var k := FindEntry(b.ledger, reference);
    if PaymentConfirmed(b, reference, amount) != b {
      assert FindEntry(b.ledger, reference) == Some(k.value);
    } else if k.Some? && b.ledger[k.value].status != Confirmed {
      assert SetStatus(b.ledger, k.value, Confirmed)[k.value] != b.ledger[k.value];
    }
  }

  /** So one for another amount, a cent or more away, credits nothing. */
  lemma OtherAmountIsNotCredited(b: Books, reference: Reference, amount: real, k: nat)
    requires FindEntry(b.ledger, reference) == Some(k)
    requires amount <= b.ledger[k].amount - 1.0 || amount >= b.ledger[k].amount + 1.0
    ensures PaymentConfirmed(b, reference, Some(amount)) == b
  {
    hide ApplyTopUp;
    ACentApart(amount, b.ledger[k].amount);
  }

  lemma ACentApart(a: real, b: real)
    requires a <= b - 1.0 || a >= b + 1.0
    ensures !SameAmount(a, b)
  {
  }

  /** A payment reported failed settles an open top-up without moving money, and no
      confirmation after it credits anything. */
  lemma FailedIsNotCredited(b: Books, reference: Reference, confirmed: Option<real>)
    ensures var failed := PaymentFailed(b, reference);
      && failed.balances == b.balances
      && PaymentConfirmed(failed, reference, confirmed) == failed
  {
    hide ApplyTopUp, RoundHalfUp, FindEntry, LedgerGrows;
    FailGrows(b, reference);
    FoundAgain(b.ledger, PaymentFailed(b, reference).ledger, reference);
  }

  /** Exactly the pending top-ups asked for longer ago than the timeout expire, and only
      their status changes. */
  lemma ExpiresExactly(b: Books, timeout: int, now: int, k: nat)
    requires k < |b.ledger|
    ensures var e, after := b.ledger[k], ExpireStaleTopUps(b, timeout, now);
      && |after.ledger| == |b.ledger| && after.balances == b.balances
      && (after.ledger[k] != e <==> e.kind == TopUp && e.status == Pending && now - e.createdAt > timeout)
      && (after.ledger[k] != e ==> after.ledger[k] == e.(status := Expired))
  {
  }

  /** A request's wait is counted from the moment it was made. */
  lemma RequestThenExpire(b: Books, userId: string, amount: real, nonce: int, now: int, timeout: int, later: int)
    requires amount > 0.0 && Waiting(b.ledger, userId) < 3
    ensures var asked := RequestTopUp(b, userId, amount, nonce, true, now).0;
      var after := ExpireStaleTopUps(asked, timeout, later);
      |after.ledger| == |b.ledger| + 1 && after.ledger[|b.ledger|].reference == TopUpRef(userId, nonce) &&
      (after.ledger[|b.ledger|].status == Expired <==> later - now > timeout)
  {
    hide Waiting;
  }

  /** An account whose pending top-ups have all waited past the timeout has none left,
      so it may ask again. */
  lemma ExpiryFreesRequests(b: Books, timeout: int, now: int, userId: string)
    requires forall e :: e in b.ledger && IsWaiting(e, userId) ==> now - e.createdAt > timeout
    ensures Waiting(ExpireStaleTopUps(b, timeout, now).ledger, userId) == 0
  {
    NoneWaiting(ExpireStaleTopUps(b, timeout, now).ledger, userId);
  }

  lemma {:induction false} NoneWaiting(ledger: seq<Entry>, userId: string)
    requires forall k :: 0 <= k < |ledger| ==> !IsWaiting(ledger[k], userId)
    ensures Waiting(ledger, userId) == 0
    decreases |ledger|
  {
    if ledger != [] {
      NoneWaiting(ledger[..|ledger| - 1], userId);
    }
  }

  // ---------- Adjustments ----------

  /** An adjustment is refused without a reason, beyond ten thousand units, and when it
      is less than half a cent; otherwise the balance moves the way of its sign by the
      amount to the nearest cent. */
  lemma AdjustMoves(b: Books, userId: string, amount: real, hasReason: bool, nonce: int, now: int, who: string)
    ensures var (b2, answer) := AdjustCredit(b, userId, amount, hasReason, nonce, now);
      && (answer == Refused(400) <==>
            !hasReason || amount > 1000000.0 || amount < -1000000.0 || -0.5 < amount < 0.5)
      && (answer.Refused? ==> answer.status == 400 && b2 == b)
      && (who != userId ==> Balance(b2, who) == Balance(b, who))
      && (answer.Done? ==>
            var moved := Balance(b2, userId) - Balance(b, userId);
            && (moved > 0 <==> amount > 0.0) && moved != 0
            && -0.5 <= moved as real - amount <= 0.5
            && |b2.ledger| == |b.ledger| + 1 && b2.ledger[..|b.ledger|] == b.ledger
            && var e := b2.ledger[|b.ledger|];
               && e.userId == userId && e.status == Confirmed && e.createdAt == now
               && moved as real == if e.kind == TopUp then e.amount else -e.amount)
  {
  }

  /** An adjustment and its opposite leave the balance as it was. */
  lemma AdjustBack(b: Books, userId: string, amount: real, n: int, m: int, now: int, later: int)
    requires AdjustCredit(b, userId, amount, true, n, now).1.Done?
    ensures var once := AdjustCredit(b, userId, amount, true, n, now).0;
      var (back, answer) := AdjustCredit(once, userId, -amount, true, m, later);
      answer.Done? && Balance(back, userId) == Balance(b, userId)
  {
  }

  // ---------- A month billed ----------

  /** Billing an account writes down its cost, takes it off the balance, and calls it
      overdue exactly when that leaves the account in debt. */
  lemma OverdueMeansDebt(b: Books, userId: string, p: Period, now: int)
    requires PlansOk(b) && !Billed(b.cycles, userId, p.start)
    ensures var b2 := BillUser(b, userId, p, now);
      && |b2.cycles| == |b.cycles| + 1 && b2.cycles[..|b.cycles|] == b.cycles
      && var record := b2.cycles[|b.cycles|];
         && record.userId == userId && record.periodStart == p.start && record.periodEnd == p.end
         && record.totalCost == CostOf(b, userId, p) >= 0
         && Balance(b2, userId) == Balance(b, userId) - record.totalCost
         && (record.overdue <==> record.totalCost > 0 && Balance(b2, userId) < 0)
         && (record.totalCost <= 0 ==> b2.ledger == b.ledger)
         && (record.totalCost > 0 ==>
              && |b2.ledger| == |b.ledger| + 1 && b2.ledger[..|b.ledger|] == b.ledger
              && IsCharge(b2.ledger[|b.ledger|], record) && b2.ledger[|b.ledger|].createdAt == now)
  {
    hide Billed, CycleCost, Mine;
    BillUserEffect(b, userId, p, now, userId);
    CostNonNegative(Mine(b.intervals, userId), UserPlan(b, userId), p, RatesOf(b));
  }
}
