/** The monthly cycle charges once, and leaves what an account can spend alone. */
module CycleLaws {
  import opened Wrappers
  import opened Calendar
  import opened Pricing
  import opened ChargeLaws
  import opened Standing
  import opened Billing
  import opened CallEffects
  import opened LedgerLaws

  // ---------- Once per user and month ----------

  ghost predicate UniqueRecords(cycles: seq<Cycle>) {
    forall j, k :: 0 <= j < k < |cycles| ==>
      cycles[j].userId != cycles[k].userId || cycles[j].periodStart != cycles[k].periodStart
  }

  ghost predicate UniqueCharges(ledger: seq<Entry>) {
    forall j, k :: 0 <= j < k < |ledger| && ledger[j].reference.ChargeRef? ==>
      ledger[j].reference != ledger[k].reference
  }

  ghost predicate ChargesRecorded(ledger: seq<Entry>, cycles: seq<Cycle>) {
    forall j :: 0 <= j < |ledger| && ledger[j].reference.ChargeRef? ==> RecordFor(cycles, ledger[j])
  }

  ghost predicate RecordsCharged(cycles: seq<Cycle>, ledger: seq<Entry>) {
    forall j :: 0 <= j < |cycles| && cycles[j].totalCost > 0 ==> ChargeFor(ledger, cycles[j])
  }

  /** At most one record per user and month, and a confirmed charge exactly beside
      each record with a cost. */
  ghost predicate CyclesOk(b: Books) {
    && UniqueRecords(b.cycles) && UniqueCharges(b.ledger)
    && ChargesRecorded(b.ledger, b.cycles) && RecordsCharged(b.cycles, b.ledger)
  }

  ghost predicate RecordFor(cycles: seq<Cycle>, e: Entry)
    requires e.reference.ChargeRef?
  {
    exists k :: 0 <= k < |cycles| && cycles[k].userId == e.reference.userId &&
      cycles[k].periodStart == e.reference.periodStart && cycles[k].totalCost > 0
  }

  ghost predicate ChargeFor(ledger: seq<Entry>, c: Cycle) {
    exists k :: 0 <= k < |ledger| && IsCharge(ledger[k], c)
  }

  predicate IsCharge(e: Entry, c: Cycle) {
    && e.reference == ChargeRef(c.periodStart, c.userId) && e.kind == Charge && e.status == Confirmed
    && e.userId == c.userId && e.amount == c.totalCost as real
  }

  lemma RecordGrows(cycles: seq<Cycle>, c: Cycle, e: Entry)
    requires e.reference.ChargeRef? && RecordFor(cycles, e)
    ensures RecordFor(cycles + [c], e)
  {
    var k :| 0 <= k < |cycles| && cycles[k].userId == e.reference.userId &&
      cycles[k].periodStart == e.reference.periodStart && cycles[k].totalCost > 0;
    assert (cycles + [c])[k] == cycles[k];
  }

  lemma ChargeGrows(ledger: seq<Entry>, e: Entry, c: Cycle)
    requires ChargeFor(ledger, c)
    ensures ChargeFor(ledger + [e], c)
  {
    var k :| 0 <= k < |ledger| && IsCharge(ledger[k], c);
    assert (ledger + [e])[k] == ledger[k];
  }

  lemma AppendRecord(ledger: seq<Entry>, cycles: seq<Cycle>, c: Cycle)
    requires UniqueRecords(cycles) && ChargesRecorded(ledger, cycles) && !Billed(cycles, c.userId, c.periodStart)
    ensures UniqueRecords(cycles + [c]) && ChargesRecorded(ledger, cycles + [c])
    ensures forall j :: 0 <= j < |ledger| ==> ledger[j].reference != ChargeRef(c.periodStart, c.userId)
  {
    forall j | 0 <= j < |ledger| && ledger[j].reference.ChargeRef?
      ensures RecordFor(cycles + [c], ledger[j])
      ensures ledger[j].reference != ChargeRef(c.periodStart, c.userId)
    {
      RecordGrows(cycles, c, ledger[j]);
    }
  }

  lemma AppendCharge(ledger: seq<Entry>, cycles: seq<Cycle>, e: Entry, c: Cycle)
    requires IsCharge(e, c) && c.totalCost > 0
    requires UniqueCharges(ledger) && RecordsCharged(cycles, ledger) && ChargesRecorded(ledger, cycles + [c])
    requires forall j :: 0 <= j < |ledger| ==> ledger[j].reference != e.reference
    ensures UniqueCharges(ledger + [e]) && RecordsCharged(cycles + [c], ledger + [e])
    ensures ChargesRecorded(ledger + [e], cycles + [c])
  {
    assert (cycles + [c])[|cycles|] == c && (ledger + [e])[|ledger|] == e;
    forall j | 0 <= j < |cycles| && cycles[j].totalCost > 0
      ensures ChargeFor(ledger + [e], cycles[j])
    {
      ChargeGrows(ledger, e, cycles[j]);
    }
  }

  lemma BillUserOnce(b: Books, userId: string, p: Period, now: int)
    requires CyclesOk(b)
    ensures CyclesOk(BillUser(b, userId, p, now))
  {
    hide CycleCost, CanCover, ApplyCharge, UniqueRecords, UniqueCharges, ChargesRecorded, Billed;
    if !Billed(b.cycles, userId, p.start) {
      var b2 := BillUser(b, userId, p, now);
      var c := b2.cycles[|b.cycles|];
      AppendRecord(b.ledger, b.cycles, c);
      if c.totalCost > 0 {
        AppendCharge(b.ledger, b.cycles, b2.ledger[|b.ledger|], c);
      }
    }
  }

  lemma {:induction false} BillAllOnce(b: Books, users: seq<string>, p: Period, now: int)
    requires CyclesOk(b)
    ensures CyclesOk(BillAll(b, users, p, now))
    decreases |users|
  {
    hide CyclesOk;
    if users != [] {
      BillAllOnce(b, users[..|users| - 1], p, now);
      BillUserOnce(BillAll(b, users[..|users| - 1], p, now), users[|users| - 1], p, now);
    }
  }

  /** A status change keeps what every charge is identified by. */
  lemma LedgerChangeOnce(b: Books, b2: Books)
    requires CyclesOk(b) && MoneyOk(b) && b2.cycles == b.cycles && LedgerGrows(b.ledger, b2.ledger)
    requires forall k :: |b.ledger| <= k < |b2.ledger| ==> !b2.ledger[k].reference.ChargeRef?
    ensures CyclesOk(b2)
  {
    hide Balance, LedgerBalance;
    forall j | 0 <= j < |b2.ledger| && b2.ledger[j].reference.ChargeRef?
      ensures RecordFor(b2.cycles, b2.ledger[j])
    {
      assert Moves(b.ledger[j], b2.ledger[j]);
      assert RecordFor(b.cycles, b.ledger[j]);
    }
    forall j | 0 <= j < |b2.cycles| && b2.cycles[j].totalCost > 0
      ensures ChargeFor(b2.ledger, b2.cycles[j])
    {
      assert ChargeFor(b.ledger, b.cycles[j]);
      var k :| 0 <= k < |b.ledger| && IsCharge(b.ledger[k], b.cycles[j]);
      assert Moves(b.ledger[k], b2.ledger[k]);
      assert b2.ledger[k] == b.ledger[k];
    }
    forall j, k | 0 <= j < k < |b2.ledger| && b2.ledger[j].reference.ChargeRef?
      ensures b2.ledger[j].reference != b2.ledger[k].reference
    {
      assert Moves(b.ledger[j], b2.ledger[j]);
      if k < |b.ledger| { assert Moves(b.ledger[k], b2.ledger[k]); }
    }
  }

  ghost predicate AddsNoCharge(b: Books, b2: Books) {
    b2.cycles == b.cycles && forall k :: |b.ledger| <= k < |b2.ledger| ==> !b2.ledger[k].reference.ChargeRef?
  }

  lemma RequestAddsNoCharge(b: Books, userId: string, amount: real, nonce: int, sent: bool, now: int)
    ensures AddsNoCharge(b, RequestTopUp(b, userId, amount, nonce, sent, now).0)
  {
    hide Waiting;
  }

  lemma AdjustAddsNoCharge(b: Books, userId: string, amount: real, hasReason: bool, nonce: int, now: int)
    ensures AddsNoCharge(b, AdjustCredit(b, userId, amount, hasReason, nonce, now).0)
  {
    hide RoundHalfUp;
  }

  lemma SettlingAddsNoCharge(b: Books, reference: Reference, amount: Option<real>)
    ensures AddsNoCharge(b, PaymentConfirmed(b, reference, amount))
    ensures AddsNoCharge(b, PaymentFailed(b, reference))
  {
    hide RoundHalfUp, ApplyTopUp, Unsettled;
  }

  /** Only the cycle makes charge references and cycle records. */
  lemma OtherCallsAddNoCharge(b: Books, e: Event)
    requires !e.call.Bill?
    ensures AddsNoCharge(b, Apply(b, e))
  {
    hide DeploymentCreated, ServerStarted, ServerStopped, RequestTopUp, PaymentConfirmed, PaymentFailed,
      ExpireStaleTopUps, ChangePlan, SavePlan, AdjustCredit, BillAll, WithWallet;
    CallEffect(b, e);
    match e.call
    case Request(u, amount, nonce, sent) => RequestAddsNoCharge(b, u, amount, nonce, sent, e.at);
    case Adjust(u, amount, hasReason, nonce) => AdjustAddsNoCharge(b, u, amount, hasReason, nonce, e.at);
    case Confirm(reference, amount) => SettlingAddsNoCharge(b, reference, amount);
    case Fail(reference) => SettlingAddsNoCharge(b, reference, None);
    case Expire(timeout) => ExpireEffect(b, timeout, e.at);
    case _ =>
  }

  lemma ApplyKeepsCycles(b: Books, e: Event)
    requires CyclesOk(b) && MoneyOk(b)
    ensures CyclesOk(Apply(b, e))
  {
    hide CyclesOk, MoneyOk;
    if e.call.Bill? {
      BillAllOnce(b, e.call.users, PreviousMonthPeriod(e.at), e.at);
    } else {
      ApplyGrows(b, e);
      OtherCallsAddNoCharge(b, e);
      LedgerChangeOnce(b, Apply(b, e));
    }
  }

  /** In every reachable state a user's cycle records have different starts, its
      charges different periods, and each charge is its record's cost. */
  lemma {:induction false} OneChargePerMonth(es: seq<Event>)
    ensures CyclesOk(Run(EMPTY_BOOKS, es))
    decreases |es|
  {
    hide Apply, MoneyOk;
    if es != [] {
      OneChargePerMonth(es[..|es| - 1]);
      BalanceIsLedger(es[..|es| - 1]);
      ApplyKeepsCycles(Run(EMPTY_BOOKS, es[..|es| - 1]), es[|es| - 1]);
    }
  }

  lemma BilledAppend(cycles: seq<Cycle>, c: Cycle, userId: string, start: int)
    ensures Billed(cycles + [c], userId, start) <==>
      Billed(cycles, userId, start) || (c.userId == userId && c.periodStart == start)
  {
    if Billed(cycles, userId, start) {
      var k :| 0 <= k < |cycles| && cycles[k].userId == userId && cycles[k].periodStart == start;
      assert (cycles + [c])[k] == cycles[k];
    }
    assert (cycles + [c])[|cycles|] == c;
  }

  /** After a tick exactly the accounts it took, and those billed before, are billed. */
  lemma {:induction false} BillAllBills(b: Books, users: seq<string>, p: Period, now: int, userId: string, start: int)
    ensures Billed(BillAll(b, users, p, now).cycles, userId, start) <==>
      Billed(b.cycles, userId, start) || (start == p.start && userId in users)
    decreases |users|
  {
    hide Billed, CycleCost, CanCover, ApplyCharge;
    if users != [] {
      var front, last := users[..|users| - 1], users[|users| - 1];
      var before := BillAll(b, front, p, now);
      BillAllBills(b, front, p, now, userId, start);
      BillAllBills(b, front, p, now, last, p.start);
      assert users == front + [last];
      var after := BillUser(before, last, p, now);
      if !Billed(before.cycles, last, p.start) {
        BilledAppend(before.cycles, after.cycles[|before.cycles|], userId, start);
      }
    }
  }

  /** A second run for the same month, in any order and at any time, changes nothing. */
  lemma {:induction false} BillingIsIdempotent(b: Books, users: seq<string>,
                                               again: seq<string>, p: Period, now: int, later: int)
    requires forall u :: u in again ==> u in users
    ensures BillAll(BillAll(b, users, p, now), again, p, later) == BillAll(b, users, p, now)
    decreases |again|
  {
    hide Billed;
    if again != [] {
      var front, last := again[..|again| - 1], again[|again| - 1];
      BillingIsIdempotent(b, users, front, p, now, later);
      BillAllBills(b, users, p, now, last, p.start);
      assert last in again;
    }
  }

  // ---------- Billing a closed month changes no verdict ----------

  /** Everything a standing shows but the two figures that trade places. */
  ghost predicate SameSpending(s: Standing, t: Standing) {
    && s.available == t.available && s.canRun == t.canRun && s.freeHoursLeft == t.freeHoursLeft
    && s.hoursLeft == t.hoursLeft && s.runsLow == t.runsLow
  }

  ghost predicate PlansOk(b: Books) {
    forall id :: id in b.plans ==> ValidPlan(b.plans[id]) && b.plans[id].id == id
  }

  /** What one account's turn does to an account's books. */
  lemma BillUserEffect(b: Books, who: string, p: Period, now: int, userId: string)
    requires PlansOk(b)
    ensures var b2 := BillUser(b, who, p, now);
      && b2.intervals == b.intervals && b2.plans == b.plans && b2.userPlans == b.userPlans
      && (who == userId && !Billed(b.cycles, userId, p.start) ==>
            Balance(b2, userId) == Balance(b, userId) - CostOf(b, userId, p))
      && (who != userId || Billed(b.cycles, userId, p.start) ==> Balance(b2, userId) == Balance(b, userId))
  {
    hide Billed, CycleCost;
    CostNonNegative(Mine(b.intervals, who), UserPlan(b, who), p, RatesOf(b));
    assert CostOf(b, who, p) >= 0;
    hide CostOf;
    var cost := CostOf(b, who, p);
    if cost > 0 {
      assert Balance(b, who) as real - cost as real == (Balance(b, who) - cost) as real;
      RoundShift(Balance(b, who) - cost, 0.0);
    }
  }

  /** After a tick an account it took has paid its month, and nothing else moved. */
  lemma {:induction false} BillAllEffect(b: Books, users: seq<string>, p: Period, now: int, userId: string)
    requires PlansOk(b)
    ensures var b2 := BillAll(b, users, p, now);
      && b2.intervals == b.intervals && b2.plans == b.plans && b2.userPlans == b.userPlans
      && Balance(b2, userId) ==
         Balance(b, userId) -
         (if userId in users && !Billed(b.cycles, userId, p.start) then CostOf(b, userId, p) else 0)
    decreases |users|
  {
    hide Billed, BillUser;
    if users != [] {
      var front, last := users[..|users| - 1], users[|users| - 1];
      BillAllEffect(b, front, p, now, userId);
      var before := BillAll(b, front, p, now);
      assert PlansOk(before);
      BillUserEffect(before, last, p, now, userId);
      BillAllBills(b, front, p, now, userId, p.start);
      assert users == front + [last];
      assert CostOf(before, userId, p) == CostOf(b, userId, p);
    }
  }

  /** A standing whose closed month moves from the accrued side to the balance. */
  lemma PayingTheAccrued(balance: int, userId: string, intervals: seq<Interval>,
                         cycles: seq<Cycle>, cycles2: seq<Cycle>,
                         plan: Plan, now: int, rates: Rates, lowCreditHours: real, due: int)
    requires var p := PreviousMonthPeriod(now);
      && (Billed(cycles, userId, p.start) ==> Billed(cycles2, userId, p.start))
      && due == if !Billed(cycles, userId, p.start) && Billed(cycles2, userId, p.start)
                then CycleCost(intervals, plan, p, rates) else 0
    ensures SameSpending(ComputeStanding(balance, userId, intervals, cycles, plan, now, rates, lowCreditHours),
                         ComputeStanding(balance - due, userId, intervals, cycles2, plan, now, rates, lowCreditHours))
  {
    hide BurnRate, RunwayHours, FreeLeft, CycleCost, HoursIn, Billed, PreviousMonthPeriod, MonthPeriodOf, RoundHalfUp;
  }

  /** Seen from one instant, a tick over whatever accounts moves no verdict: credit
      available, permission to run, free hours and runway are equal before and after
      it, because what leaves the accrued usage leaves the balance too. */
  lemma BillingLeavesSpending(b: Books, users: seq<string>, now: int, at: int, userId: string, lowCreditHours: real)
    requires PlansOk(b)
    ensures SameSpending(StandingOf(b, userId, now, lowCreditHours),
                         StandingOf(BillAll(b, users, PreviousMonthPeriod(now), at), userId, now, lowCreditHours))
  {
    hide ComputeStanding, CycleCost, Billed, Mine, PreviousMonthPeriod, Balance, SameSpending;
    var p := PreviousMonthPeriod(now);
    var b2 := BillAll(b, users, p, at);
    BillAllEffect(b, users, p, at, userId);
    BillAllBills(b, users, p, at, userId, p.start);
    PayingTheAccrued(Balance(b, userId), userId, Mine(b.intervals, userId), b.cycles, b2.cycles, UserPlan(b, userId),
                     now, RatesOf(b), lowCreditHours, Balance(b, userId) - Balance(b2, userId));
  }
}
