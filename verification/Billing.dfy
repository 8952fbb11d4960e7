/** The billing bridge's books and what each service call does to them. A call is
    one step; publishing an event is a given answer, the clock a given instant. */
module Billing {
  import opened Wrappers
  import opened Calendar
  import opened Pricing
  import opened Standing

  datatype EntryKind = TopUp | Charge

  datatype Status = Pending | Confirmed | Failed | Expired

  /** The references the service makes up: one per top-up request, one per manual
      adjustment, one per user and billed month. */
  datatype Reference =
    | TopUpRef(userId: string, nonce: int)
    | AdjustRef(nonce: int)
    | ChargeRef(periodStart: int, userId: string)

  /** A ledger entry; its id is its place in the ledger. */
  datatype Entry = Entry(
    userId: string,
    kind: EntryKind,
    amount: real,
    reference: Reference,
    status: Status,
    createdAt: int
  )

  datatype Deployment = Deployment(userId: string, limits: Limits)

  datatype Books = Books(
    plans: map<string, Plan>,
    userPlans: map<string, string>,
    deployments: map<string, Deployment>,
    intervals: seq<Interval>,
    balances: map<string, int>,
    ledger: seq<Entry>,
    cycles: seq<Cycle>
  )

  const MAX_PENDING_TOPUPS: nat := 3
  const MAX_ADJUSTMENT: real := 1000000.0

  const EMPTY_BOOKS := Books(map[DEFAULT_PLAN.id := DEFAULT_PLAN], map[], map[], [], map[], [], [])

  // ---------- Plans ----------

  function UserPlan(b: Books, userId: string): Plan {
    if userId in b.userPlans && b.userPlans[userId] in b.plans then b.plans[b.userPlans[userId]]
    else if DEFAULT_PLAN.id in b.plans then b.plans[DEFAULT_PLAN.id]
    else DEFAULT_PLAN
  }

  function RatesOf(b: Books): Rates {
    map id | id in b.plans :: b.plans[id].pricePerHour
  }

  // ---------- Runtime intervals ----------

  /** Where the last interval without a stop stands among those of `dep`. */
  function LastOpen(ivs: seq<Interval>, dep: string): (r: Option<nat>)
    ensures r.Some? ==> r.value < |ivs| && ivs[r.value].deploymentId == dep && ivs[r.value].stoppedAt.None?
    ensures r.None? ==> forall k :: 0 <= k < |ivs| && ivs[k].deploymentId == dep ==> ivs[k].stoppedAt.Some?
  {
    if ivs == [] then None
    else
      var n := |ivs| - 1;
      if ivs[n].deploymentId == dep && ivs[n].stoppedAt.None? then Some(n) else LastOpen(ivs[..n], dep)
  }

  function LastInterval(ivs: seq<Interval>, dep: string): (r: Option<nat>)
    ensures r.Some? ==> r.value < |ivs| && ivs[r.value].deploymentId == dep
    ensures r.None? ==> forall k :: 0 <= k < |ivs| ==> ivs[k].deploymentId != dep
  {
    if ivs == [] then None
    else
      var n := |ivs| - 1;
      if ivs[n].deploymentId == dep then Some(n) else LastInterval(ivs[..n], dep)
  }

  function CloseInterval(ivs: seq<Interval>, dep: string, at: int): seq<Interval> {
    var k := LastOpen(ivs, dep);
    if k.None? then ivs else ivs[k.value := ivs[k.value].(stoppedAt := Some(at))]
  }

  function OpenInterval(ivs: seq<Interval>, userId: string, dep: string,
                        planId: string, limits: Limits, at: int): seq<Interval> {
    ivs + [Interval(userId, dep, planId, limits, at, None)]
  }

  /** Makes sure `dep` has its owner on record; the last interval tells a missing one. */
  function WithDeployment(b: Books, dep: string): Books {
    if dep in b.deployments then b
    else
      var k := LastInterval(b.intervals, dep);
      if k.None? then b
      else b.(deployments := b.deployments[dep := Deployment(b.intervals[k.value].userId, b.intervals[k.value].limits)])
  }

  function DeploymentCreated(b: Books, dep: string, userId: string, limits: Limits): Books {
    b.(deployments := b.deployments[dep := Deployment(userId, limits)])
  }

  function ServerStarted(b: Books, dep: string, now: int): Books {
    var known := WithDeployment(b, dep);
    if dep !in known.deployments || LastOpen(b.intervals, dep).Some? then known
    else
      var d := known.deployments[dep];
      known.(intervals := OpenInterval(b.intervals, d.userId, dep, UserPlan(b, d.userId).id, d.limits, now))
  }

  function ServerStopped(b: Books, dep: string, now: int): Books {
    b.(intervals := CloseInterval(b.intervals, dep, now))
  }

  function Mine(ivs: seq<Interval>, userId: string): seq<Interval> {
    if ivs == [] then []
    else
      var mine := Mine(ivs[..|ivs| - 1], userId);
      if ivs[|ivs| - 1].userId == userId then mine + [ivs[|ivs| - 1]] else mine
  }

  function OpenOnes(ivs: seq<Interval>): seq<Interval> {
    if ivs == [] then []
    else
      var running := OpenOnes(ivs[..|ivs| - 1]);
      if ivs[|ivs| - 1].stoppedAt.None? then running + [ivs[|ivs| - 1]] else running
  }

  /** Each of `running` is cut in two at `at`; the second half carries `planId`. */
  function Reopen(ivs: seq<Interval>, running: seq<Interval>, userId: string, planId: string, at: int): seq<Interval> {
    if running == [] then ivs
    else
      var n := |running| - 1;
      var before := Reopen(ivs, running[..n], userId, planId, at);
      OpenInterval(CloseInterval(before, running[n].deploymentId, at), userId,
        running[n].deploymentId, planId, running[n].limits, at)
  }

  datatype Answer = Done | Refused(status: int)

  /** 404 for no such plan, 409 for one no longer offered. */
  function ChangePlan(b: Books, userId: string, planId: string, now: int): (Books, Answer) {
    if planId !in b.plans then (b, Refused(404))
    else if b.plans[planId].id == UserPlan(b, userId).id then (b, Done)
    else if !b.plans[planId].active then (b, Refused(409))
    else
      var target := b.plans[planId];
      (b.(userPlans := b.userPlans[userId := target.id],
          intervals := Reopen(b.intervals, OpenOnes(Mine(b.intervals, userId)), userId, target.id, now)), Done)
  }

  function SavePlan(b: Books, plan: Plan): Books {
    b.(plans := b.plans[plan.id := plan])
  }

  // ---------- Wallets and the ledger ----------

  function Balance(b: Books, userId: string): int {
    if userId in b.balances then b.balances[userId] else 0
  }

  /** Reading a wallet creates it. */
  function WithWallet(b: Books, userId: string): Books {
    b.(balances := b.balances[userId := Balance(b, userId)])
  }

  function SetBalance(b: Books, userId: string, balance: int): Books {
    b.(balances := b.balances[userId := balance])
  }

  predicate IsWaiting(e: Entry, userId: string) {
    e.userId == userId && e.kind == TopUp && e.status == Pending
  }

  function Waiting(ledger: seq<Entry>, userId: string): nat {
    if ledger == [] then 0
    else Waiting(ledger[..|ledger| - 1], userId) + (if IsWaiting(ledger[|ledger| - 1], userId) then 1 else 0)
  }

  function RequestTopUp(b: Books, userId: string, amount: real, nonce: int, sent: bool, now: int): (Books, Answer) {
    if !(amount > 0.0) then (b, Refused(400))
    else if Waiting(b.ledger, userId) >= MAX_PENDING_TOPUPS then (b, Refused(409))
    else
      var status := if sent then Pending else Failed;
      var entry := Entry(userId, TopUp, amount, TopUpRef(userId, nonce), status, now);
      (WithWallet(b, userId).(ledger := b.ledger + [entry]), if sent then Done else Refused(503))
  }

  /** The first entry carrying a reference. */
  function FindEntry(ledger: seq<Entry>, reference: Reference): (r: Option<nat>)
    ensures r.Some? ==> r.value < |ledger| && ledger[r.value].reference == reference
    ensures r.Some? ==> forall k :: 0 <= k < r.value ==> ledger[k].reference != reference
    ensures r.None? ==> forall k :: 0 <= k < |ledger| ==> ledger[k].reference != reference
  {
    FindFrom(ledger, reference, 0)
  }

  function FindFrom(ledger: seq<Entry>, reference: Reference, from: nat): (r: Option<nat>)
    requires from <= |ledger|
    ensures r.Some? ==> from <= r.value < |ledger| && ledger[r.value].reference == reference
    ensures r.Some? ==> forall k :: from <= k < r.value ==> ledger[k].reference != reference
    ensures r.None? ==> forall k :: from <= k < |ledger| ==> ledger[k].reference != reference
    decreases |ledger| - from
  {
    if from == |ledger| then None
    else if ledger[from].reference == reference then Some(from)
    else FindFrom(ledger, reference, from + 1)
  }

  function SetStatus(ledger: seq<Entry>, k: nat, to: Status): seq<Entry>
    requires k < |ledger|
  {
    ledger[k := ledger[k].(status := to)]
  }

  predicate Unsettled(s: Status) {
    s == Pending || s == Expired
  }

  /** Equal once both are rounded to whole cents. */
  predicate SameAmount(a: real, b: real) {
    RoundHalfUp(a) == RoundHalfUp(b)
  }

  function PaymentConfirmed(b: Books, reference: Reference, amount: Option<real>): Books {
    var k := FindEntry(b.ledger, reference);
    if k.None? || b.ledger[k.value].kind != TopUp then b
    else
      var e := b.ledger[k.value];
      if amount.Some? && !SameAmount(amount.value, e.amount) then b
      else if !Unsettled(e.status) then b
      else
        SetBalance(b, e.userId, ApplyTopUp(Balance(b, e.userId), e.amount))
          .(ledger := SetStatus(b.ledger, k.value, Confirmed))
  }

  function PaymentFailed(b: Books, reference: Reference): Books {
    var k := FindEntry(b.ledger, reference);
    if k.None? || b.ledger[k.value].kind != TopUp || !Unsettled(b.ledger[k.value].status) then b
    else b.(ledger := SetStatus(b.ledger, k.value, Failed))
  }

  predicate IsStale(e: Entry, cutoff: int) {
    e.kind == TopUp && e.status == Pending && e.createdAt < cutoff
  }

  function ExpireLedger(ledger: seq<Entry>, cutoff: int): seq<Entry> {
    seq(|ledger|, k requires 0 <= k < |ledger| =>
      if IsStale(ledger[k], cutoff) then ledger[k].(status := Expired) else ledger[k])
  }

  function ExpireStaleTopUps(b: Books, timeout: int, now: int): Books {
    b.(ledger := ExpireLedger(b.ledger, now - timeout))
  }

  function AdjustCredit(b: Books, userId: string, amount: real, hasReason: bool,
                        nonce: int, now: int): (Books, Answer) {
    var size := if amount < 0.0 then -amount else amount;
    var rounded := RoundHalfUp(size);
    if amount == 0.0 || size > MAX_ADJUSTMENT || !hasReason || rounded == 0 then (b, Refused(400))
    else
      var kind := if amount > 0.0 then TopUp else Charge;
      var moved := if amount > 0.0 then rounded else -rounded;
      var entry := Entry(userId, kind, rounded as real, AdjustRef(nonce), Confirmed, now);
      (SetBalance(b, userId, Balance(b, userId) + moved).(ledger := b.ledger + [entry]), Done)
  }

  // ---------- The monthly cycle ----------

  /** Mentioned by at least one of the four stores that name accounts. */
  ghost predicate Billable(b: Books, userId: string) {
    || (exists k :: 0 <= k < |b.intervals| && b.intervals[k].userId == userId)
    || userId in b.balances || userId in b.userPlans
    || (exists d :: d in b.deployments && b.deployments[d].userId == userId)
  }

  function CostOf(b: Books, userId: string, p: Period): int {
    CycleCost(Mine(b.intervals, userId), UserPlan(b, userId), p, RatesOf(b))
  }

  /** One account's turn of the runner; an account with a record for the period is
      skipped. */
  function BillUser(b: Books, userId: string, p: Period, now: int): Books {
    if Billed(b.cycles, userId, p.start) then b
    else
      var cost := CostOf(b, userId, p);
      var covered := CanCover(Balance(b, userId), cost);
      var record := Cycle(userId, p.start, p.end, cost, cost > 0 && !covered);
      if cost > 0 then
        var entry := Entry(userId, Charge, cost as real, ChargeRef(p.start, userId), Confirmed, now);
        SetBalance(b, userId, ApplyCharge(Balance(b, userId), cost))
          .(ledger := b.ledger + [entry], cycles := b.cycles + [record])
      else b.(cycles := b.cycles + [record])
  }

  /** The accounts in the order the runner takes them. */
  function BillAll(b: Books, users: seq<string>, p: Period, now: int): Books {
    if users == [] then b
    else BillUser(BillAll(b, users[..|users| - 1], p, now), users[|users| - 1], p, now)
  }

  // ---------- Calls ----------

  datatype Call =
    | Created(dep: string, owner: string, limits: Limits)
    | Started(dep: string)
    | Stopped(dep: string)
    | Request(userId: string, amount: real, nonce: int, sent: bool)
    | Confirm(reference: Reference, confirmed: Option<real>)
    | Fail(reference: Reference)
    | Expire(timeout: int)
    | Switch(userId: string, planId: string)
    | Save(plan: Plan)
    | Adjust(userId: string, amount: real, hasReason: bool, nonce: int)
    | Bill(users: seq<string>)
    | Read(userId: string)

  /** A call at an instant. */
  datatype Event = Event(at: int, call: Call)

  function Apply(b: Books, e: Event): Books {
    match e.call
    case Created(dep, owner, limits) => DeploymentCreated(b, dep, owner, limits)
    case Started(dep) => ServerStarted(b, dep, e.at)
    case Stopped(dep) => ServerStopped(b, dep, e.at)
    case Request(userId, amount, nonce, sent) => RequestTopUp(b, userId, amount, nonce, sent, e.at).0
    case Confirm(reference, amount) => PaymentConfirmed(b, reference, amount)
    case Fail(reference) => PaymentFailed(b, reference)
    case Expire(timeout) => ExpireStaleTopUps(b, timeout, e.at)
    case Switch(userId, planId) => ChangePlan(b, userId, planId, e.at).0
    case Save(plan) => SavePlan(b, plan)
    case Adjust(userId, amount, hasReason, nonce) => AdjustCredit(b, userId, amount, hasReason, nonce, e.at).0
    case Bill(users) => BillAll(b, users, PreviousMonthPeriod(e.at), e.at)
    case Read(userId) => WithWallet(b, userId)
  }

  function Run(b: Books, es: seq<Event>): Books {
    if es == [] then b else Apply(Run(b, es[..|es| - 1]), es[|es| - 1])
  }

  /** The clock never runs backwards, and only valid plans are saved. */
  ghost predicate Orderly(es: seq<Event>) {
    && (forall i, j :: 0 <= i < j < |es| ==> es[i].at <= es[j].at)
    && (forall i :: 0 <= i < |es| && es[i].call.Save? ==> ValidPlan(es[i].call.plan))
  }

  /** What the books say about one account at `now`. */
  function StandingOf(b: Books, userId: string, now: int, lowCreditHours: real): Standing {
    ComputeStanding(Balance(b, userId), userId, Mine(b.intervals, userId), b.cycles,
      UserPlan(b, userId), now, RatesOf(b), lowCreditHours)
  }
}
