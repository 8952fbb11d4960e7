/** The billing bridge itself: its stores are fields that each call reads and then
    writes. Every call is proved to do to the books what Billing says it does. */
module BillingService {
  import opened Wrappers
  import opened Calendar
  import opened Pricing
  import opened Standing
  import opened Billing
  import opened CallEffects
  import opened CycleLaws
  import opened LowCreditLaws

  datatype Suspension = Suspension(userId: string, deploymentIds: seq<string>)

  datatype Outcome = Outcome(userId: string, cost: int, overdue: bool, suspended: seq<string>)

  /** The deployments of the open intervals, each once. */
  function RunningDeployments(ivs: seq<Interval>): seq<string> {
    if ivs == [] then []
    else
      var front, last := RunningDeployments(ivs[..|ivs| - 1]), ivs[|ivs| - 1];
      if last.stoppedAt.None? && last.deploymentId !in front then front + [last.deploymentId] else front
  }

  /** Each deployment with an open interval, and no other, and none twice. */
  lemma {:induction false} RunningExactly(ivs: seq<Interval>)
    ensures Distinct(RunningDeployments(ivs))
    ensures forall d :: d in RunningDeployments(ivs) <==>
      exists k :: 0 <= k < |ivs| && ivs[k].deploymentId == d && ivs[k].stoppedAt.None?
    decreases |ivs|
  {
    if ivs != [] {
      var n := |ivs| - 1;
      var front, last := ivs[..n], ivs[n];
      RunningExactly(front);
      forall d
        ensures d in RunningDeployments(ivs) <==>
          exists k :: 0 <= k < |ivs| && ivs[k].deploymentId == d && ivs[k].stoppedAt.None?
      {
        if d in RunningDeployments(front) {
          var k :| 0 <= k < n && front[k].deploymentId == d && front[k].stoppedAt.None?;
          assert ivs[k] == front[k];
        }
        if d == last.deploymentId && last.stoppedAt.None? {
          assert ivs[n].deploymentId == d;
        }
        if k :| 0 <= k < |ivs| && ivs[k].deploymentId == d && ivs[k].stoppedAt.None? {
          assert k < n ==> front[k] == ivs[k];
        }
      }
    }
  }

  function BilledOutcome(b: Books, userId: string, p: Period): Outcome {
    var cost := CostOf(b, userId, p);
    var overdue := cost > 0 && !CanCover(Balance(b, userId), cost);
    Outcome(userId, cost, overdue, if overdue then RunningDeployments(Mine(b.intervals, userId)) else [])
  }

  /** No record of this account starts with `p`. */
  predicate Fresh(b: Books, userId: string, p: Period) {
    !Billed(b.cycles, userId, p.start)
  }

  /** The outcomes of a run over accounts, in order: one for each not billed before. */
  function Outcomes(b: Books, users: seq<string>, p: Period): seq<Outcome> {
    if users == [] then []
    else
      var front, last := Outcomes(b, users[..|users| - 1], p), users[|users| - 1];
      if Fresh(b, last, p) then front + [BilledOutcome(b, last, p)] else front
  }

  /** The accounts whose servers a settlement stops, and which servers those are. */
  function Suspensions(b: Books, users: seq<string>, now: int, lowCreditHours: real): seq<Suspension> {
    if users == [] then []
    else
      var front, last := Suspensions(b, users[..|users| - 1], now, lowCreditHours), users[|users| - 1];
      if Overdrawn(b, last, now, lowCreditHours)
      then front + [Suspension(last, RunningDeployments(Mine(b.intervals, last)))] else front
  }

  /** A settlement names an account exactly when it has a server running and may not
      run one, with all its running servers. */
  lemma {:induction false} SuspendedExactly(b: Books, users: seq<string>, now: int, low: real, s: Suspension)
    ensures s in Suspensions(b, users, now, low) <==>
      && s.userId in users && !StandingOf(b, s.userId, now, low).canRun
      && (exists i :: i in Mine(b.intervals, s.userId) && i.stoppedAt.None?)
      && s.deploymentIds == RunningDeployments(Mine(b.intervals, s.userId))
    decreases |users|
  {
    hide StandingOf, Mine, RunningDeployments;
    if users != [] {
      var front, last := users[..|users| - 1], users[|users| - 1];
      SuspendedExactly(b, front, now, low, s);
      assert users == front + [last];
      NoneRunning(Mine(b.intervals, last));
    }
  }

  lemma NoneRunning(ivs: seq<Interval>)
    ensures RunningDeployments(ivs) != [] <==> exists i :: i in ivs && i.stoppedAt.None?
  {
    hide RunningDeployments;
    RunningExactly(ivs);
    var running := RunningDeployments(ivs);
    if running != [] {
      assert running[0] in running;
      var k :| 0 <= k < |ivs| && ivs[k].deploymentId == running[0] && ivs[k].stoppedAt.None?;
      assert ivs[k] in ivs;
    }
    if i :| i in ivs && i.stoppedAt.None? {
      var k :| 0 <= k < |ivs| && ivs[k] == i;
      assert i.deploymentId in running;
    }
  }

  /** Each account once, and every billable one. */
  ghost predicate Roll(b: Books, users: seq<string>) {
    Distinct(users) && forall u :: u in users <==> Billable(b, u)
  }

  lemma RollIs(b: Books, users: seq<string>)
    requires Distinct(users) && forall u :: u in users <==>
      || (exists k :: 0 <= k < |b.intervals| && b.intervals[k].userId == u) || u in b.balances || u in b.userPlans
      || (exists d :: d in b.deployments && b.deployments[d].userId == u)
    ensures Roll(b, users)
  {
  }

  /** Nobody has two outcomes, and exactly the accounts not billed before have one. */
  lemma {:induction false} OneOutcomeEach(b: Books, users: seq<string>, p: Period)
    requires Distinct(users)
    ensures forall o :: o in Outcomes(b, users, p) ==>
      o.userId in users && Fresh(b, o.userId, p) && o == BilledOutcome(b, o.userId, p)
    ensures forall u :: u in users && Fresh(b, u, p) ==> BilledOutcome(b, u, p) in Outcomes(b, users, p)
    ensures forall j, k :: 0 <= j < k < |Outcomes(b, users, p)| ==>
      Outcomes(b, users, p)[j].userId != Outcomes(b, users, p)[k].userId
    decreases |users|
  {
    hide BilledOutcome, Fresh;
    if users != [] {
      var front, last := users[..|users| - 1], users[|users| - 1];
      OneOutcomeEach(b, front, p);
      OutcomeIsOf(b, last, p);
      var done := Outcomes(b, front, p);
      assert forall j :: 0 <= j < |done| ==> done[j] in done;
      assert forall u :: u in users <==> u in front || u == last;
    }
  }

  /** An outcome tells what the run wrote down for the account: its cost and whether it
      is overdue; servers are suspended only then, and then all that run. */
  lemma OutcomeIsTheRecord(b: Books, userId: string, p: Period, now: int)
    requires Fresh(b, userId, p)
    ensures var o, cycles := BilledOutcome(b, userId, p), BillUser(b, userId, p, now).cycles;
      && |cycles| == |b.cycles| + 1
      && o.userId == userId == cycles[|b.cycles|].userId
      && o.cost == cycles[|b.cycles|].totalCost && o.overdue == cycles[|b.cycles|].overdue
      && o.suspended == if o.overdue then RunningDeployments(Mine(b.intervals, userId)) else []
  {
    hide CostOf, Mine, RunningDeployments, Billed;
  }

  lemma OutcomeIsOf(b: Books, userId: string, p: Period)
    ensures BilledOutcome(b, userId, p).userId == userId
  {
  }

  /** Servers running on credit that is gone. */
  predicate Overdrawn(b: Books, userId: string, now: int, lowCreditHours: real) {
    RunningDeployments(Mine(b.intervals, userId)) != [] && !StandingOf(b, userId, now, lowCreditHours).canRun
  }

  /** Books that differ at most in which empty wallets have been created. */
  ghost predicate SameButWallets(b: Books, b2: Books) {
    b2 == b.(balances := b2.balances) && forall u :: Balance(b2, u) == Balance(b, u)
  }

  lemma WalletsDoNotMatter(b: Books, b2: Books, userId: string, now: int, lowCreditHours: real)
    requires SameButWallets(b, b2)
    ensures StandingOf(b2, userId, now, lowCreditHours) == StandingOf(b, userId, now, lowCreditHours)
    ensures Overdrawn(b2, userId, now, lowCreditHours) == Overdrawn(b, userId, now, lowCreditHours)
    ensures forall w :: Step(b2, w, userId, now, lowCreditHours) == Step(b, w, userId, now, lowCreditHours)
  {
    hide ComputeStanding;
  }

  /** The turns of other accounts leave this one's bill as it was. */
  lemma {:induction false} UntouchedBefore(b: Books, order: seq<string>, p: Period, now: int, userId: string)
    requires userId !in order
    ensures var after := BillAll(b, order, p, now);
      Fresh(after, userId, p) == Fresh(b, userId, p) && BilledOutcome(after, userId, p) == BilledOutcome(b, userId, p)
    decreases |order|
  {
    hide BillUser, Fresh, BilledOutcome;
    if order != [] {
      var front, last := order[..|order| - 1], order[|order| - 1];
      UntouchedBefore(b, front, p, now, userId);
      UntouchedByOther(BillAll(b, front, p, now), last, p, now, userId);
    }
  }

  lemma UntouchedByOther(b: Books, other: string, p: Period, now: int, userId: string)
    requires userId != other
    ensures var after := BillUser(b, other, p, now);
      Fresh(after, userId, p) == Fresh(b, userId, p) && BilledOutcome(after, userId, p) == BilledOutcome(b, userId, p)
  {
    hide Billed, CanCover, Mine, RunningDeployments, CostOf, BillUser;
    BillOneEffect(b, other, p, now);
    OthersTurn(b, other, p, now, userId);
    SameCosts(b, BillUser(b, other, p, now), userId, p);
  }

  /** One account's turn leaves the balance and the records of another. */
  lemma OthersTurn(b: Books, other: string, p: Period, now: int, userId: string)
    requires userId != other
    ensures var after := BillUser(b, other, p, now);
      Balance(after, userId) == Balance(b, userId) &&
        Billed(after.cycles, userId, p.start) == Billed(b.cycles, userId, p.start)
  {
    hide CostOf, Billed, CanCover, ApplyCharge;
    var after := BillUser(b, other, p, now);
    if !Billed(b.cycles, other, p.start) {
      BilledAppend(b.cycles, after.cycles[|b.cycles|], userId, p.start);
    }
  }

  /** An element joins a list that holds each element once. */
  function Add(s: seq<string>, x: string): (r: seq<string>)
    ensures Distinct(s) ==> Distinct(r)
    ensures forall y :: y in r <==> y in s || y == x
  {
    if x in s then s else s + [x]
  }

  class BillingBridge {
    var plans: map<string, Plan>
    var userPlans: map<string, string>
    var deployments: map<string, Deployment>
    var intervals: seq<Interval>
    var balances: map<string, int>
    var ledger: seq<Entry>
    var cycles: seq<Cycle>
    var warned: set<string>          // accounts with a low-credit warning standing
    const lowCreditHours: real

    function Abs(): Books
      reads this
    {
      Books(plans, userPlans, deployments, intervals, balances, ledger, cycles)
    }

    constructor (lowCreditHours: real)
      ensures Abs() == EMPTY_BOOKS && warned == {} && this.lowCreditHours == lowCreditHours
    {
      plans, userPlans, deployments := map[DEFAULT_PLAN.id := DEFAULT_PLAN], map[], map[];
      intervals, balances, ledger, cycles := [], map[], [], [];
      warned, this.lowCreditHours := {}, lowCreditHours;
    }

    // ---------- Runtime ----------

    method HandleDeploymentCreated(dep: string, userId: string, limits: Limits)
      modifies this`deployments
      ensures Abs() == DeploymentCreated(old(Abs()), dep, userId, limits)
    {
      deployments := deployments[dep := Deployment(userId, limits)];
    }

    /** The most recent open interval, looked for from the newest back. */
    method FindOpen(dep: string) returns (place: Option<nat>)
      ensures place == LastOpen(intervals, dep)
    {
      var k := |intervals|;
      assert intervals[..k] == intervals;
      while k > 0
        invariant 0 <= k <= |intervals|
        invariant LastOpen(intervals, dep) == LastOpen(intervals[..k], dep)
      {
        k := k - 1;
        assert intervals[..k + 1][..k] == intervals[..k];
        if intervals[k].deploymentId == dep && intervals[k].stoppedAt.None? {
          return Some(k);
        }
      }
      return None;
    }

    method FindLast(dep: string) returns (place: Option<nat>)
      ensures place == LastInterval(intervals, dep)
    {
      var k := |intervals|;
      assert intervals[..k] == intervals;
      while k > 0
        invariant 0 <= k <= |intervals|
        invariant LastInterval(intervals, dep) == LastInterval(intervals[..k], dep)
      {
        k := k - 1;
        assert intervals[..k + 1][..k] == intervals[..k];
        if intervals[k].deploymentId == dep {
          return Some(k);
        }
      }
      return None;
    }

    method DeploymentFor(dep: string) returns (found: Option<Deployment>)
      modifies this`deployments
      ensures Abs() == WithDeployment(old(Abs()), dep)
      ensures found == if dep in deployments then Some(deployments[dep]) else None
    {
      if dep in deployments {
        return Some(deployments[dep]);
      }
      var last := FindLast(dep);
      if last.None? {
        return None;
      }
      var i := intervals[last.value];
      deployments := deployments[dep := Deployment(i.userId, i.limits)];
      return Some(deployments[dep]);
    }

    /** Reporting the start again changes nothing while an interval is open. */
    method HandleServerStarted(dep: string, now: int) returns (record: Option<Interval>)
      modifies this`deployments, this`intervals
      ensures Abs() == ServerStarted(old(Abs()), dep, now)
      ensures record.Some? ==>
        record.value.deploymentId == dep && record.value.stoppedAt.None? && record.value in intervals
      ensures record.None? ==> dep !in deployments && intervals == old(intervals)
    {
      var d := DeploymentFor(dep);
      if d.None? {
        return None;
      }
      var running := FindOpen(dep);
      if running.Some? {
        return Some(intervals[running.value]);
      }
      var interval := Interval(d.value.userId, dep, UserPlan(Abs(), d.value.userId).id, d.value.limits, now, None);
      intervals := intervals + [interval];
      return Some(interval);
    }

    method HandleServerStopped(dep: string, now: int) returns (record: Option<Interval>)
      modifies this`intervals
      ensures Abs() == ServerStopped(old(Abs()), dep, now)
      ensures record.Some? <==> LastOpen(old(intervals), dep).Some?
      ensures record.Some? ==> record.value == intervals[LastOpen(old(intervals), dep).value]
    {
      var k := FindOpen(dep);
      if k.None? {
        return None;
      }
      intervals := intervals[k.value := intervals[k.value].(stoppedAt := Some(now))];
      return Some(intervals[k.value]);
    }

    method ListIntervals(userId: string) returns (mine: seq<Interval>)
      ensures mine == Mine(intervals, userId)
    {
      mine := [];
      for k := 0 to |intervals|
        invariant mine == Mine(intervals[..k], userId)
      {
        assert intervals[..k + 1][..k] == intervals[..k];
        if intervals[k].userId == userId {
          mine := mine + [intervals[k]];
        }
      }
      assert intervals[..|intervals|] == intervals;
    }

    /** The intervals of running servers are split at `now`, and go on with `planId`. */
    method SwitchPlan(userId: string, planId: string, now: int) returns (answer: Answer)
      modifies this`userPlans, this`intervals
      ensures (Abs(), answer) == ChangePlan(old(Abs()), userId, planId, now)
    {
      if planId !in plans {
        return Refused(404);
      }
      var target := plans[planId];
      if target.id == UserPlan(Abs(), userId).id {
        return Done;
      }
      if !target.active {
        return Refused(409);
      }
      userPlans := userPlans[userId := target.id];
      var mine := ListIntervals(userId);
      var running := OpenOnes(mine);
      for k := 0 to |running|
        invariant intervals == Reopen(old(intervals), running[..k], userId, target.id, now)
        invariant userPlans == old(userPlans)[userId := target.id]
      {
        assert running[..k + 1][..k] == running[..k];
        var closed := HandleServerStopped(running[k].deploymentId, now);
        intervals := intervals + [Interval(userId, running[k].deploymentId, target.id, running[k].limits, now, None)];
      }
      assert running[..|running|] == running;
      return Done;
    }

    // ---------- Money ----------

    method GetWallet(userId: string) returns (balance: int)
      modifies this`balances
      ensures Abs() == WithWallet(old(Abs()), userId) && balance == Balance(old(Abs()), userId)
    {
      if userId !in balances {
        balances := balances[userId := 0];
      }
      balance := balances[userId];
      assert balances == old(balances)[userId := balance];
    }

    /** `sent` is whether the broker took the payment request. */
    method RequestCredit(userId: string, amount: real, nonce: int, sent: bool, now: int) returns (answer: Answer)
      modifies this`balances, this`ledger
      ensures (Abs(), answer) == RequestTopUp(old(Abs()), userId, amount, nonce, sent, now)
    {
      if !(amount > 0.0) {
        return Refused(400);
      }
      var waiting := 0;
      for k := 0 to |ledger|
        invariant waiting == Waiting(ledger[..k], userId)
      {
        assert ledger[..k + 1][..k] == ledger[..k];
        if IsWaiting(ledger[k], userId) {
          waiting := waiting + 1;
        }
      }
      assert ledger[..|ledger|] == ledger;
      if waiting >= MAX_PENDING_TOPUPS {
        return Refused(409);
      }
      var balance := GetWallet(userId);
      ledger := ledger + [Entry(userId, TopUp, amount, TopUpRef(userId, nonce), Pending, now)];
      if !sent {
        var moved := TransitionLedgerStatus(|ledger| - 1, {Pending}, Failed);
        assert ledger == old(ledger) + [Entry(userId, TopUp, amount, TopUpRef(userId, nonce), Failed, now)];
        return Refused(503);
      }
      return Done;
    }

    method GetLedgerByReference(reference: Reference) returns (place: Option<nat>)
      ensures place == FindEntry(ledger, reference)
    {
      for k := 0 to |ledger|
        invariant FindEntry(ledger, reference) == FindFrom(ledger, reference, k)
      {
        if ledger[k].reference == reference {
          return Some(k);
        }
      }
      return None;
    }

    /** A compare-and-set on the status: nothing happens unless it is in `from`. */
    method TransitionLedgerStatus(k: nat, from: set<Status>, to: Status) returns (moved: bool)
      requires k < |ledger|
      modifies this`ledger
      ensures moved == (old(ledger[k].status) in from)
      ensures ledger == if moved then SetStatus(old(ledger), k, to) else old(ledger)
    {
      moved := ledger[k].status in from;
      if moved {
        ledger := ledger[k := ledger[k].(status := to)];
      }
    }

    method HandlePaymentConfirmed(reference: Reference, amount: Option<real>) returns (credited: bool)
      modifies this`balances, this`ledger
      ensures Abs() == PaymentConfirmed(old(Abs()), reference, amount)
      ensures credited <==> ledger != old(ledger)
    {
      hide FindEntry, ApplyTopUp, SameAmount;
      var k := GetLedgerByReference(reference);
      if k.None? || ledger[k.value].kind != TopUp {
        return false;
      }
      var entry := ledger[k.value];
      if amount.Some? && !SameAmount(amount.value, entry.amount) {
        return false;
      }
      credited := TransitionLedgerStatus(k.value, {Pending, Expired}, Confirmed);
      if credited {
        assert ledger[k.value] != old(ledger)[k.value];
        var balance := GetWallet(entry.userId);
        balances := balances[entry.userId := ApplyTopUp(balance, entry.amount)];
      }
    }

    method HandlePaymentFailed(reference: Reference) returns (failed: bool)
      modifies this`ledger
      ensures Abs() == PaymentFailed(old(Abs()), reference)
      ensures failed <==> ledger != old(ledger)
    {
      var k := GetLedgerByReference(reference);
      if k.None? || ledger[k.value].kind != TopUp {
        return false;
      }
      failed := TransitionLedgerStatus(k.value, {Pending, Expired}, Failed);
      assert failed ==> ledger[k.value] != old(ledger)[k.value];
    }

    /** Returns the places of the entries it expired: exactly the stale ones. */
    method ExpireStale(timeout: int, now: int) returns (expired: seq<nat>)
      modifies this`ledger
      ensures Abs() == ExpireStaleTopUps(old(Abs()), timeout, now)
      ensures forall k :: 0 <= k < |ledger| ==> (k in expired <==> IsStale(old(ledger)[k], now - timeout))
    {
      expired := [];
      var cutoff := now - timeout;
      for k := 0 to |ledger|
        invariant |ledger| == |old(ledger)|
        invariant forall j :: 0 <= j < k ==> ledger[j] == ExpireLedger(old(ledger), cutoff)[j]
        invariant forall j :: k <= j < |ledger| ==> ledger[j] == old(ledger)[j]
        invariant forall j :: j in expired ==> j < k
        invariant forall j :: 0 <= j < k ==> (j in expired <==> IsStale(old(ledger)[j], cutoff))
      {
        if IsStale(ledger[k], cutoff) {
          var moved := TransitionLedgerStatus(k, {Pending}, Expired);
          expired := expired + [k];
        }
      }
    }

    method Adjust(userId: string, amount: real, hasReason: bool, nonce: int, now: int) returns (answer: Answer)
      modifies this`balances, this`ledger
      ensures (Abs(), answer) == AdjustCredit(old(Abs()), userId, amount, hasReason, nonce, now)
    {
      var size := if amount < 0.0 then -amount else amount;
      if amount == 0.0 || size > MAX_ADJUSTMENT || !hasReason {
        return Refused(400);
      }
      var rounded := RoundHalfUp(size);
      if rounded == 0 {
        return Refused(400);
      }
      var balance := GetWallet(userId);
      var kind := if amount > 0.0 then TopUp else Charge;
      ledger := ledger + [Entry(userId, kind, rounded as real, AdjustRef(nonce), Confirmed, now)];
      var updated := balance + (if amount > 0.0 then rounded else -rounded);
      balances := balances[userId := updated];
      assert balances == old(balances)[userId := updated];
      return Done;
    }

    // ---------- The month's end ----------

    /** Every account the four stores name, without repetition. */
    method ListBillableUsers() returns (users: seq<string>)
      ensures Distinct(users)
      ensures forall u :: u in users <==>
        || (exists k :: 0 <= k < |intervals| && intervals[k].userId == u) || u in balances || u in userPlans
        || (exists d :: d in deployments && deployments[d].userId == u)
    {
      users := [];
      for k := 0 to |intervals|
        invariant Distinct(users)
        invariant forall u :: u in users <==> exists j :: 0 <= j < k && intervals[j].userId == u
      {
        users := Add(users, intervals[k].userId);
      }
      ghost var seen := users;
      var keys := balances.Keys + userPlans.Keys;
      while keys != {}
        invariant Distinct(users) && keys <= balances.Keys + userPlans.Keys
        invariant forall u :: u in users <==> u in seen || (u !in keys && (u in balances || u in userPlans))
      {
        var userId :| userId in keys;
        keys := keys - {userId};
        users := Add(users, userId);
      }
      seen := users;
      var left := deployments.Keys;
      while left != {}
        invariant Distinct(users) && left <= deployments.Keys
        invariant forall u :: u in users <==>
          u in seen || exists d :: d in deployments && d !in left && deployments[d].userId == u
      {
        var d :| d in left;
        left := left - {d};
        users := Add(users, deployments[d].userId);
      }
    }

    /** Bills every account for the period once, in some order, with one outcome for
        each that was not billed before. */
    method RunBillingCycle(p: Period, now: int) returns (outcomes: seq<Outcome>, ghost order: seq<string>)
      modifies this`balances, this`ledger, this`cycles
      ensures Roll(old(Abs()), order) && Abs() == BillAll(old(Abs()), order, p, now)
      ensures outcomes == Outcomes(old(Abs()), order, p)
      ensures forall j, k :: 0 <= j < k < |outcomes| ==> outcomes[j].userId != outcomes[k].userId
    {
      hide Fresh, BilledOutcome;
      ghost var before := Abs();
      var users := ListBillableUsers();
      assert Roll(before, users);
      outcomes := [];
      for k := 0 to |users|
        invariant Abs() == BillAll(before, users[..k], p, now)
        invariant outcomes == Outcomes(before, users[..k], p)
      {
        UntouchedBefore(before, users[..k], p, now, users[k]);
        var outcome := BillOne(users[k], p, now);
        if outcome.Some? {
          outcomes := outcomes + [outcome.value];
        }
        assert users[..k + 1][..k] == users[..k];
      }
      assert users[..|users|] == users;
      order := users;
      OneOutcomeEach(before, order, p);
    }

    method BillOne(userId: string, p: Period, now: int) returns (outcome: Option<Outcome>)
      modifies this`balances, this`ledger, this`cycles
      ensures Abs() == BillUser(old(Abs()), userId, p, now)
      ensures outcome == if Fresh(old(Abs()), userId, p) then Some(BilledOutcome(old(Abs()), userId, p)) else None
    {
      hide CycleCost, CanCover, ApplyCharge, Mine, RunningDeployments;
      var already := AlreadyBilled(userId, p.start);
      if already {
        return None;
      }
      var mine := ListIntervals(userId);
      var cost := CycleCost(mine, UserPlan(Abs(), userId), p, RatesOf(Abs()));
      var overdue, suspended := false, [];
      if cost > 0 {
        var balance := GetWallet(userId);
        ledger := ledger + [Entry(userId, Charge, cost as real, ChargeRef(p.start, userId), Confirmed, now)];
        balances := balances[userId := ApplyCharge(balance, cost)];
        assert balances == old(balances)[userId := ApplyCharge(balance, cost)];
        if !CanCover(balance, cost) {
          overdue, suspended := true, RunningDeployments(mine);
        }
      }
      cycles := cycles + [Cycle(userId, p.start, p.end, cost, overdue)];
      return Some(Outcome(userId, cost, overdue, suspended));
    }

    method AlreadyBilled(userId: string, start: int) returns (billed: bool)
      ensures billed == Billed(cycles, userId, start)
    {
      for k := 0 to |cycles|
        invariant forall j :: 0 <= j < k ==> !(cycles[j].userId == userId && cycles[j].periodStart == start)
      {
        if cycles[k].userId == userId && cycles[k].periodStart == start {
          return true;
        }
      }
      return false;
    }

    // ---------- Between two ticks of the runner ----------

    method GetStanding(userId: string, now: int) returns (standing: Standing)
      modifies this`balances
      ensures Abs() == WithWallet(old(Abs()), userId)
      ensures standing == StandingOf(old(Abs()), userId, now, lowCreditHours)
    {
      var mine := ListIntervals(userId);
      var balance := GetWallet(userId);
      standing := ComputeStanding(balance, userId, mine, cycles, UserPlan(Abs(), userId),
        now, RatesOf(Abs()), lowCreditHours);
    }

    /** Reports exactly the accounts with servers running that may not run them,
        and charges nobody. */
    method Settle(now: int) returns (suspended: seq<Suspension>, ghost order: seq<string>)
      modifies this`balances
      ensures SameButWallets(old(Abs()), Abs()) && Roll(old(Abs()), order)
      ensures suspended == Suspensions(old(Abs()), order, now, lowCreditHours)
    {
      hide Overdrawn, StandingOf;
      ghost var before := Abs();
      var users := ListBillableUsers();
      assert Roll(before, users);
      suspended := [];
      for k := 0 to |users|
        invariant SameButWallets(before, Abs())
        invariant suspended == Suspensions(before, users[..k], now, lowCreditHours)
      {
        WalletsDoNotMatter(before, Abs(), users[k], now, lowCreditHours);
        var running, overdrawn := SettleOne(users[k], now);
        if overdrawn {
          suspended := suspended + [Suspension(users[k], running)];
        }
        assert users[..k + 1][..k] == users[..k];
      }
      assert users[..|users|] == users;
      order := users;
    }

    method SettleOne(userId: string, now: int) returns (running: seq<string>, overdrawn: bool)
      modifies this`balances
      ensures SameButWallets(old(Abs()), Abs())
      ensures running == RunningDeployments(Mine(intervals, userId))
      ensures overdrawn == Overdrawn(old(Abs()), userId, now, lowCreditHours)
    {
      hide ComputeStanding;
      var mine := ListIntervals(userId);
      running := RunningDeployments(mine);
      if running == [] {
        return running, false;
      }
      var standing := GetStanding(userId, now);
      overdrawn := !standing.canRun;
    }

    /** `taken` is the accounts whose warning the broker takes. A warning goes out for
        a short runway, unless one stands already or the servers are stopped anyway. */
    method WarnLowCredit(now: int, taken: set<string>) returns (told: seq<string>)
      modifies this`balances, this`warned
      ensures SameButWallets(old(Abs()), Abs())
      ensures WarnedRound(old(Abs()), old(warned), taken, now, lowCreditHours, told, warned)
    {
      hide Step, StandingOf, Billable;
      ghost var before, had := Abs(), warned;
      var users := ListBillableUsers();
      assert Roll(before, users) by {
        RollIs(before, users);
      }
      told := [];
      for k := 0 to |users|
        invariant SameButWallets(before, Abs()) && Distinct(told)
        invariant forall u :: u in told <==>
          u in users[..k] && u in taken && Step(before, u in had, u, now, lowCreditHours) == Warn
        invariant forall u :: u in warned <==>
          u in told || (u in had && !(u in users[..k] && Step(before, true, u, now, lowCreditHours) == Clear))
      {
        var userId := users[k];
        assert userId !in users[..k] && users[..k + 1] == users[..k] + [userId];
        WalletsDoNotMatter(before, Abs(), userId, now, lowCreditHours);
        assert userId in warned <==> userId in had;
        StepNeverClearsUnwarned(before, userId, now, lowCreditHours);
        var sent := WarnOne(userId, now, taken);
        if sent {
          told := told + [userId];
        }
      }
      assert users[..|users|] == users;
    }

    method WarnOne(userId: string, now: int, taken: set<string>) returns (sent: bool)
      modifies this`balances, this`warned
      ensures SameButWallets(old(Abs()), Abs())
      ensures var step := Step(old(Abs()), userId in old(warned), userId, now, lowCreditHours);
        && sent == (step == Warn && userId in taken)
        && warned ==
          if sent then old(warned) + {userId}
          else if step == Clear then old(warned) - {userId}
          else old(warned)
    {
      hide Step;
      var step := StepOne(userId, now);
      if step == Clear {
        warned := warned - {userId};
      }
      sent := step == Warn && userId in taken;
      if sent {
        warned := warned + {userId};
      }
    }

    method StepOne(userId: string, now: int) returns (step: LowCreditStep)
      modifies this`balances
      ensures SameButWallets(old(Abs()), Abs())
      ensures step == Step(old(Abs()), userId in warned, userId, now, lowCreditHours)
    {
      hide ComputeStanding;
      var mine := ListIntervals(userId);
      if OpenOnes(mine) == [] {
        return Nothing;
      }
      var standing := GetStanding(userId, now);
      if !standing.canRun {
        return Nothing;
      }
      step := LowCredit(standing.hoursLeft, lowCreditHours, userId in warned);
    }
  }
}
