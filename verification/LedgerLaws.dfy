/** Money: wallets agree with the ledger, and no reference is credited twice. */
module LedgerLaws {
  import opened Wrappers
  import opened Calendar
  import opened Pricing
  import opened Standing
  import opened Billing
  import opened CallEffects

  // ---------- The balance is the ledger ----------

  /** What a confirmed entry moves, in whole cents. */
  function Moved(e: Entry, userId: string): int {
    if e.userId != userId || e.status != Confirmed then 0
    else if e.kind == TopUp then RoundHalfUp(e.amount)
    else -RoundHalfUp(e.amount)
  }

  function LedgerBalance(ledger: seq<Entry>, userId: string): int {
    if ledger == [] then 0
    else LedgerBalance(ledger[..|ledger| - 1], userId) + Moved(ledger[|ledger| - 1], userId)
  }

  /** Amounts are positive, and whole cents wherever this service made them up. */
  ghost predicate EntryOk(e: Entry) {
    && e.amount > 0.0
    && (!e.reference.TopUpRef? ==> e.amount == RoundHalfUp(e.amount) as real && e.status == Confirmed)
    && (e.kind == Charge ==> e.status == Confirmed)
  }

  ghost predicate MoneyOk(b: Books) {
    && (forall k :: 0 <= k < |b.ledger| ==> EntryOk(b.ledger[k]))
    && (forall u :: Balance(b, u) == LedgerBalance(b.ledger, u))
  }

  lemma LedgerAppend(ledger: seq<Entry>, e: Entry, userId: string)
    ensures LedgerBalance(ledger + [e], userId) == LedgerBalance(ledger, userId) + Moved(e, userId)
  {
    assert (ledger + [e])[..|ledger|] == ledger;
  }

  lemma {:induction false} LedgerUpdate(ledger: seq<Entry>, k: nat, e: Entry, userId: string)
    requires k < |ledger|
    ensures LedgerBalance(ledger[k := e], userId) ==
      LedgerBalance(ledger, userId) - Moved(ledger[k], userId) + Moved(e, userId)
    decreases |ledger|
  {
    var n := |ledger| - 1;
    if k == n {
      assert ledger[k := e][..n] == ledger[..n];
    } else {
      LedgerUpdate(ledger[..n], k, e, userId);
      assert ledger[k := e][..n] == ledger[..n][k := e];
    }
  }

  lemma {:induction false} ExpireMovesNothing(ledger: seq<Entry>, cutoff: int, userId: string)
    ensures LedgerBalance(ExpireLedger(ledger, cutoff), userId) == LedgerBalance(ledger, userId)
    decreases |ledger|
  {
    if ledger != [] {
      var n := |ledger| - 1;
      ExpireMovesNothing(ledger[..n], cutoff, userId);
      assert ExpireLedger(ledger, cutoff)[..n] == ExpireLedger(ledger[..n], cutoff);
    }
  }

  lemma TopUpMoves(balance: int, amount: real)
    requires amount > 0.0
    ensures ApplyTopUp(balance, amount) == balance + RoundHalfUp(amount)
  {
    RoundShift(balance, amount);
  }

  lemma ChargeMoves(balance: int, cost: int)
    requires cost > 0
    ensures ApplyCharge(balance, cost) == balance - cost && RoundHalfUp(cost as real) == cost
  {
    RoundShift(balance - cost, 0.0);
    RoundShift(cost, 0.0);
    assert balance as real - cost as real == (balance - cost) as real;
  }

  /** A new entry together with the balance it moves. */
  lemma EntryKeeps(b: Books, b2: Books, e: Entry)
    requires MoneyOk(b) && EntryOk(e)
    requires b2.ledger == b.ledger + [e]
    requires forall u :: Balance(b2, u) == Balance(b, u) + Moved(e, u)
    ensures MoneyOk(b2)
  {
    hide RoundHalfUp, Balance, Moved;
    forall u
      ensures Balance(b2, u) == LedgerBalance(b2.ledger, u)
    {
      LedgerAppend(b.ledger, e, u);
    }
  }

  lemma RequestKeeps(b: Books, userId: string, amount: real, nonce: int, sent: bool, now: int)
    requires MoneyOk(b)
    ensures MoneyOk(RequestTopUp(b, userId, amount, nonce, sent, now).0)
  {
    hide RoundHalfUp, Waiting;
    var b2 := RequestTopUp(b, userId, amount, nonce, sent, now).0;
    if b2.ledger != b.ledger {
      EntryKeeps(b, b2, b2.ledger[|b.ledger|]);
    }
  }

  lemma ConfirmKeeps(b: Books, reference: Reference, amount: Option<real>)
    requires MoneyOk(b)
    ensures MoneyOk(PaymentConfirmed(b, reference, amount))
  {
    hide RoundHalfUp, ApplyTopUp;
    var b2 := PaymentConfirmed(b, reference, amount);
    if b2 != b {
      var k := FindEntry(b.ledger, reference).value;
      var e := b.ledger[k];
      TopUpMoves(Balance(b, e.userId), e.amount);
      forall u
        ensures Balance(b2, u) == LedgerBalance(b2.ledger, u)
      {
        LedgerUpdate(b.ledger, k, e.(status := Confirmed), u);
      }
    }
  }

  lemma FailKeeps(b: Books, reference: Reference)
    requires MoneyOk(b)
    ensures MoneyOk(PaymentFailed(b, reference))
  {
    hide RoundHalfUp;
    var b2 := PaymentFailed(b, reference);
    if b2 != b {
      var k := FindEntry(b.ledger, reference).value;
      forall u
        ensures Balance(b2, u) == LedgerBalance(b2.ledger, u)
      {
        LedgerUpdate(b.ledger, k, b.ledger[k].(status := Failed), u);
      }
    }
  }

  lemma ExpireKeeps(b: Books, timeout: int, now: int)
    requires MoneyOk(b)
    ensures MoneyOk(ExpireStaleTopUps(b, timeout, now))
  {
    hide RoundHalfUp;
    var b2 := ExpireStaleTopUps(b, timeout, now);
    forall u
      ensures Balance(b2, u) == LedgerBalance(b2.ledger, u)
    {
      ExpireMovesNothing(b.ledger, now - timeout, u);
    }
  }

  lemma AdjustKeeps(b: Books, userId: string, amount: real, hasReason: bool, nonce: int, now: int)
    requires MoneyOk(b)
    ensures MoneyOk(AdjustCredit(b, userId, amount, hasReason, nonce, now).0)
  {
    var b2 := AdjustCredit(b, userId, amount, hasReason, nonce, now).0;
    if b2.ledger != b.ledger {
      var e := b2.ledger[|b.ledger|];
      RoundShift(RoundHalfUp(if amount < 0.0 then -amount else amount), 0.0);
      EntryKeeps(b, b2, e);
    }
  }

  lemma BillUserKeeps(b: Books, userId: string, p: Period, now: int)
    requires MoneyOk(b)
    ensures MoneyOk(BillUser(b, userId, p, now))
  {
    hide CostOf, CanCover, RoundHalfUp, ApplyCharge, Billed, LedgerBalance;
    var b2 := BillUser(b, userId, p, now);
    if b2.ledger != b.ledger {
      var cost := CostOf(b, userId, p);
      ChargeMoves(Balance(b, userId), cost);
      EntryKeeps(b, b2, b2.ledger[|b.ledger|]);
    } else {
      assert b2.balances == b.balances;
    }
  }

  lemma {:induction false} BillAllKeeps(b: Books, users: seq<string>, p: Period, now: int)
    requires MoneyOk(b)
    ensures MoneyOk(BillAll(b, users, p, now))
    decreases |users|
  {
    hide MoneyOk;
    if users != [] {
      BillAllKeeps(b, users[..|users| - 1], p, now);
      BillUserKeeps(BillAll(b, users[..|users| - 1], p, now), users[|users| - 1], p, now);
    }
  }

  lemma QuietCallKeeps(b: Books, b2: Books)
    requires MoneyOk(b) && b2.ledger == b.ledger
    requires forall u :: Balance(b2, u) == Balance(b, u)
    ensures MoneyOk(b2)
  {
  }

  lemma ApplyKeepsMoney(b: Books, e: Event)
    requires MoneyOk(b)
    ensures MoneyOk(Apply(b, e))
  {
    hide DeploymentCreated, ServerStarted, ServerStopped, RequestTopUp, PaymentConfirmed, PaymentFailed,
      ExpireStaleTopUps, ChangePlan, SavePlan, AdjustCredit, BillAll, WithWallet, MoneyOk;
    match e.call
    case Request(userId, amount, nonce, sent) => RequestKeeps(b, userId, amount, nonce, sent, e.at);
    case Confirm(reference, amount) => ConfirmKeeps(b, reference, amount);
    case Fail(reference) => FailKeeps(b, reference);
    case Expire(timeout) => ExpireKeeps(b, timeout, e.at);
    case Adjust(userId, amount, hasReason, nonce) => AdjustKeeps(b, userId, amount, hasReason, nonce, e.at);
    case Bill(users) => BillAllKeeps(b, users, PreviousMonthPeriod(e.at), e.at);
    case _ => CallEffect(b, e); QuietCallKeeps(b, Apply(b, e));
  }

  lemma {:induction false} RunKeepsMoney(b: Books, es: seq<Event>)
    requires MoneyOk(b)
    ensures MoneyOk(Run(b, es))
    decreases |es|
  {
    hide Apply, MoneyOk;
    if es != [] {
      RunKeepsMoney(b, es[..|es| - 1]);
      ApplyKeepsMoney(Run(b, es[..|es| - 1]), es[|es| - 1]);
    }
  }

  /** In every reachable state each balance is confirmed top-ups less confirmed
      charges, each counted in whole cents. */
  lemma BalanceIsLedger(es: seq<Event>)
    ensures MoneyOk(Run(EMPTY_BOOKS, es))
  {
    assert MoneyOk(EMPTY_BOOKS);
    RunKeepsMoney(EMPTY_BOOKS, es);
  }

  // ---------- Amounts that are not whole cents ----------

  /** What the ledger's own amounts add up to, unrounded. */
  function LedgerSum(ledger: seq<Entry>, userId: string): real {
    if ledger == [] then 0.0
    else
      var e := ledger[|ledger| - 1];
      LedgerSum(ledger[..|ledger| - 1], userId) +
      (if e.userId != userId || e.status != Confirmed then 0.0 else if e.kind == TopUp then e.amount else -e.amount)
  }

  predicate WholeCents(amount: real) {
    RoundHalfUp(amount) as real == amount
  }

  lemma {:induction false} LedgerSumUpdate(ledger: seq<Entry>, k: nat, userId: string)
    requires k < |ledger| && ledger[k].kind == TopUp && ledger[k].status != Confirmed
    ensures LedgerSum(SetStatus(ledger, k, Confirmed), userId) ==
      LedgerSum(ledger, userId) + (if ledger[k].userId == userId then ledger[k].amount else 0.0)
    decreases |ledger|
  {
    var n := |ledger| - 1;
    var after := SetStatus(ledger, k, Confirmed);
    if k == n {
      assert after[..n] == ledger[..n];
    } else {
      LedgerSumUpdate(ledger[..n], k, userId);
      assert after[..n] == SetStatus(ledger[..n], k, Confirmed);
    }
  }

  /** A wallet that equals its ledger to the cent. */
  ghost predicate Exact(b: Books, userId: string) {
    Balance(b, userId) as real == LedgerSum(b.ledger, userId)
  }

  /** Wallet and ledger stay equal through a confirmation if and only if the request
      was for whole cents. */
  lemma ConfirmExactIff(b: Books, reference: Reference, amount: Option<real>, k: nat)
    requires MoneyOk(b) && FindEntry(b.ledger, reference) == Some(k) && PaymentConfirmed(b, reference, amount) != b
    requires Exact(b, b.ledger[k].userId)
    ensures Exact(PaymentConfirmed(b, reference, amount), b.ledger[k].userId) <==> WholeCents(b.ledger[k].amount)
  {
    var e := b.ledger[k];
    TopUpMoves(Balance(b, e.userId), e.amount);
    LedgerSumUpdate(b.ledger, k, e.userId);
  }

  lemma {:induction false} WholeCentsSum(ledger: seq<Entry>, userId: string)
    requires forall k :: 0 <= k < |ledger| && ledger[k].status == Confirmed ==> WholeCents(ledger[k].amount)
    ensures LedgerSum(ledger, userId) == LedgerBalance(ledger, userId) as real
    decreases |ledger|
  {
    hide RoundHalfUp;
    if ledger != [] {
      WholeCentsSum(ledger[..|ledger| - 1], userId);
    }
  }

  /** If every confirmed amount is in whole cents, every wallet is the exact sum. */
  lemma WholeCentBooksAreExact(es: seq<Event>, userId: string)
    requires var b := Run(EMPTY_BOOKS, es);
      forall k :: 0 <= k < |b.ledger| && b.ledger[k].status == Confirmed ==> WholeCents(b.ledger[k].amount)
    ensures Exact(Run(EMPTY_BOOKS, es), userId)
  {
    BalanceIsLedger(es);
    WholeCentsSum(Run(EMPTY_BOOKS, es).ledger, userId);
  }

  lemma RunTwo(b: Books, e1: Event, e2: Event)
    ensures Run(b, [e1, e2]) == Apply(Apply(b, e1), e2)
  {
    assert [e1, e2][..1] == [e1] && [e1][..0] == [];
    assert Run(b, [e1]) == Apply(Run(b, [e1][..0]), e1);
  }

  /** The service accepts a top-up of 100.5 cents; confirmed, it credits 101. */
  lemma FractionalTopUp()
    ensures var b := Run(EMPTY_BOOKS,
      [Event(0, Request("u", 100.5, 0, true)), Event(1, Confirm(TopUpRef("u", 0), None))]);
      Balance(b, "u") == 101 && LedgerSum(b.ledger, "u") == 100.5 && !Exact(b, "u")
  {
    var first, second := Event(0, Request("u", 100.5, 0, true)), Event(1, Confirm(TopUpRef("u", 0), None));
    RunTwo(EMPTY_BOOKS, first, second);
    FractionalRequest();
    var b1 := RequestTopUp(EMPTY_BOOKS, "u", 100.5, 0, true, 0).0;
    FractionalConfirmation(b1);
    hide RequestTopUp, PaymentConfirmed, LedgerSum, Run;
    assert Apply(EMPTY_BOOKS, first) == b1;
    assert Apply(b1, second) == PaymentConfirmed(b1, TopUpRef("u", 0), None);
  }

  const FRACTIONAL := Entry("u", TopUp, 100.5, TopUpRef("u", 0), Pending, 0)

  lemma FractionalRequest()
    ensures var b := RequestTopUp(EMPTY_BOOKS, "u", 100.5, 0, true, 0).0;
      b.ledger == [FRACTIONAL] && Balance(b, "u") == 0
  {
  }

  lemma FractionalConfirmation(b: Books)
    requires b.ledger == [FRACTIONAL] && Balance(b, "u") == 0
    ensures var r := PaymentConfirmed(b, TopUpRef("u", 0), None);
      Balance(r, "u") == 101 && LedgerSum(r.ledger, "u") == 100.5
  {
    assert FindEntry(b.ledger, TopUpRef("u", 0)) == Some(0);
    assert ApplyTopUp(0, 100.5) == 101;
    LedgerSumUpdate(b.ledger, 0, "u");
    assert b.ledger[..0] == [];
  }

  // ---------- Settled at most once ----------

  /** An entry keeps everything but its status, and a confirmed or failed one that too. */
  ghost predicate Moves(before: Entry, after: Entry) {
    && after == before.(status := after.status)
    && (before.status == Confirmed || before.status == Failed ==> after.status == before.status)
    && (before.status == Expired ==> after.status != Pending)
  }

  ghost predicate LedgerGrows(before: seq<Entry>, after: seq<Entry>) {
    |before| <= |after| && forall k :: 0 <= k < |before| ==> Moves(before[k], after[k])
  }

  lemma {:induction false} BillAllGrows(b: Books, users: seq<string>, p: Period, now: int)
    ensures LedgerGrows(b.ledger, BillAll(b, users, p, now).ledger)
    decreases |users|
  {
    hide CycleCost, CanCover, ApplyCharge;
    if users != [] {
      BillAllGrows(b, users[..|users| - 1], p, now);
    }
  }

  lemma RequestGrows(b: Books, userId: string, amount: real, nonce: int, sent: bool, now: int)
    ensures LedgerGrows(b.ledger, RequestTopUp(b, userId, amount, nonce, sent, now).0.ledger)
  {
    hide Waiting;
  }

  lemma SetStatusGrows(ledger: seq<Entry>, k: nat, to: Status)
    requires k < |ledger| && Unsettled(ledger[k].status) && to != Pending
    ensures LedgerGrows(ledger, SetStatus(ledger, k, to))
  {
  }

  lemma ConfirmGrows(b: Books, reference: Reference, amount: Option<real>)
    ensures LedgerGrows(b.ledger, PaymentConfirmed(b, reference, amount).ledger)
  {
    hide RoundHalfUp, ApplyTopUp;
    var k := FindEntry(b.ledger, reference);
    if k.Some? && Unsettled(b.ledger[k.value].status) {
      SetStatusGrows(b.ledger, k.value, Confirmed);
    }
  }

  lemma FailGrows(b: Books, reference: Reference)
    ensures LedgerGrows(b.ledger, PaymentFailed(b, reference).ledger)
  {
    var k := FindEntry(b.ledger, reference);
    if k.Some? && Unsettled(b.ledger[k.value].status) {
      SetStatusGrows(b.ledger, k.value, Failed);
    }
  }

  lemma ExpireGrows(b: Books, timeout: int, now: int)
    ensures LedgerGrows(b.ledger, ExpireStaleTopUps(b, timeout, now).ledger)
  {
  }

  lemma AdjustGrows(b: Books, userId: string, amount: real, hasReason: bool, nonce: int, now: int)
    ensures LedgerGrows(b.ledger, AdjustCredit(b, userId, amount, hasReason, nonce, now).0.ledger)
  {
    hide RoundHalfUp;
  }

  lemma LedgerStays(ledger: seq<Entry>)
    ensures LedgerGrows(ledger, ledger)
  {
  }

  lemma ApplyGrows(b: Books, e: Event)
    ensures LedgerGrows(b.ledger, Apply(b, e).ledger)
  {
    hide DeploymentCreated, ServerStarted, ServerStopped, RequestTopUp, PaymentConfirmed, PaymentFailed,
      ExpireStaleTopUps, ChangePlan, SavePlan, AdjustCredit, BillAll, WithWallet, LedgerGrows;
    match e.call
    case Request(u, amount, nonce, sent) => RequestGrows(b, u, amount, nonce, sent, e.at);
    case Confirm(reference, amount) => ConfirmGrows(b, reference, amount);
    case Fail(reference) => FailGrows(b, reference);
    case Expire(timeout) => ExpireGrows(b, timeout, e.at);
    case Adjust(u, amount, hasReason, nonce) => AdjustGrows(b, u, amount, hasReason, nonce, e.at);
    case Bill(users) => BillAllGrows(b, users, PreviousMonthPeriod(e.at), e.at);
    case _ => CallEffect(b, e); LedgerStays(b.ledger);
  }

  /** Along every run the ledger is append-only, and confirmed and failed are final. */
  lemma {:induction false} RunGrows(b: Books, es: seq<Event>)
    ensures LedgerGrows(b.ledger, Run(b, es).ledger)
    decreases |es|
  {
    hide Apply;
    if es != [] {
      RunGrows(b, es[..|es| - 1]);
      ApplyGrows(Run(b, es[..|es| - 1]), es[|es| - 1]);
    }
  }

  /** The confirmations of one reference that changed the books. */
  function Credits(b: Books, es: seq<Event>, reference: Reference): nat {
    if es == [] then 0
    else
      var past, e := es[..|es| - 1], es[|es| - 1];
      Credits(b, past, reference) +
      (if e.call.Confirm? && e.call.reference == reference && Apply(Run(b, past), e) != Run(b, past) then 1 else 0)
  }

  /** The entry a reference names is the same one for good. */
  lemma FoundAgain(before: seq<Entry>, after: seq<Entry>, reference: Reference)
    requires LedgerGrows(before, after)
    ensures FindEntry(before, reference).Some? ==> FindEntry(after, reference) == FindEntry(before, reference)
  {
  }

  ghost predicate CreditedEntry(ledger: seq<Entry>, reference: Reference) {
    var k := FindEntry(ledger, reference);
    k.Some? && ledger[k.value].status == Confirmed
  }

  /** In any order and with any duplication of confirmations, failures and expiries,
      a reference is credited at most once. */
  lemma {:induction false} CreditedAtMostOnce(b: Books, es: seq<Event>, reference: Reference)
    ensures Credits(b, es, reference) <= 1
    ensures Credits(b, es, reference) == 1 ==> CreditedEntry(Run(b, es).ledger, reference)
    decreases |es|
  {
    if es != [] {
      var past, e := es[..|es| - 1], es[|es| - 1];
      var before := Run(b, past);
      CreditedAtMostOnce(b, past, reference);
      ApplyGrows(before, e);
      FoundAgain(before.ledger, Apply(before, e).ledger, reference);
      if e.call.Confirm? && e.call.reference == reference && Apply(before, e) != before {
        ConfirmSettles(before, reference, e.call.confirmed);
      }
    }
  }

  lemma ConfirmSettles(b: Books, reference: Reference, amount: Option<real>)
    requires PaymentConfirmed(b, reference, amount) != b
    ensures !CreditedEntry(b.ledger, reference)
    ensures CreditedEntry(PaymentConfirmed(b, reference, amount).ledger, reference)
  {
    var after := PaymentConfirmed(b, reference, amount);
    ConfirmGrows(b, reference, amount);
    FoundAgain(b.ledger, after.ledger, reference);
  }

  // ---------- A payment that was made is credited ----------

  /** Nothing fails an entry but a failure of its own reference. */
  lemma OnlyItsFailureFails(b: Books, e: Event, k: nat)
    requires k < |b.ledger| && b.ledger[k].status != Failed
    requires !(e.call.Fail? && e.call.reference == b.ledger[k].reference)
    ensures k < |Apply(b, e).ledger| && Apply(b, e).ledger[k].status != Failed
  {
    hide DeploymentCreated, ServerStarted, ServerStopped, RequestTopUp, PaymentConfirmed, PaymentFailed,
      ExpireStaleTopUps, ChangePlan, SavePlan, AdjustCredit, BillAll, WithWallet;
    match e.call
    case Request(u, amount, nonce, sent) => RequestEffect(b, u, amount, nonce, sent, e.at);
    case Confirm(reference, amount) => ConfirmEffect(b, reference, amount);
    case Fail(reference) => FailEffect(b, reference);
    case Expire(timeout) => ExpireEffect(b, timeout, e.at);
    case Adjust(u, amount, hasReason, nonce) => AdjustEffect(b, u, amount, hasReason, nonce, e.at);
    case Bill(users) => BillEffect(b, users, PreviousMonthPeriod(e.at), e.at);
    case _ => CallEffect(b, e);
  }

  lemma {:induction false} UnfailedStays(b: Books, es: seq<Event>, k: nat)
    requires k < |b.ledger| && b.ledger[k].status != Failed
    requires forall i :: 0 <= i < |es| ==> !(es[i].call.Fail? && es[i].call.reference == b.ledger[k].reference)
    ensures k < |Run(b, es).ledger| && Run(b, es).ledger[k].status != Failed
    decreases |es|
  {
    hide Apply;
    if es != [] {
      var past := es[..|es| - 1];
      UnfailedStays(b, past, k);
      RunGrows(b, past);
      assert Moves(b.ledger[k], Run(b, past).ledger[k]);
      OnlyItsFailureFails(Run(b, past), es[|es| - 1], k);
    }
  }

  /** Unless the payment is reported failed, confirming it for the amount requested
      credits the entry, whatever happened in between, its expiry included: the entry
      is confirmed afterwards, and its owner's wallet has grown by the amount, in
      whole cents, if it was not confirmed before. */
  lemma LateConfirmationCredits(b: Books, es: seq<Event>, reference: Reference, amount: Option<real>, k: nat, at: int)
    requires FindEntry(b.ledger, reference) == Some(k) && b.ledger[k].kind == TopUp && b.ledger[k].status != Failed
    requires forall i :: 0 <= i < |es| ==> !(es[i].call.Fail? && es[i].call.reference == reference)
    requires amount.Some? ==> SameAmount(amount.value, b.ledger[k].amount)
    ensures CreditedEntry(Run(b, es + [Event(at, Confirm(reference, amount))]).ledger, reference)
    ensures MoneyOk(b) ==>
      var before, after := Run(b, es), Run(b, es + [Event(at, Confirm(reference, amount))]);
      var owner := b.ledger[k].userId;
      var credit := if CreditedEntry(before.ledger, reference) then 0 else RoundHalfUp(b.ledger[k].amount);
      Balance(after, owner) == Balance(before, owner) + credit
  {
    hide LedgerGrows, Apply, FindEntry, MoneyOk, RoundHalfUp, SameAmount, Balance;
    var e := Event(at, Confirm(reference, amount));
    var before := Run(b, es);
    UnfailedStays(b, es, k);
    RunGrows(b, es);
    FoundAgain(b.ledger, before.ledger, reference);
    KeptEntry(b.ledger, before.ledger, k);
    assert (es + [e])[..|es|] == es;
    ConfirmationCredits(before, reference, amount, k, at);
    if MoneyOk(b) {
      RunKeepsMoney(b, es);
      ConfirmationPays(before, reference, amount, k, at);
    }
  }

  lemma KeptEntry(before: seq<Entry>, after: seq<Entry>, k: nat)
    requires LedgerGrows(before, after) && k < |before|
    ensures after[k] == before[k].(status := after[k].status)
  {
    assert Moves(before[k], after[k]);
  }

  lemma ConfirmationCredits(b: Books, reference: Reference, amount: Option<real>, k: nat, at: int)
    requires FindEntry(b.ledger, reference) == Some(k) && b.ledger[k].kind == TopUp && b.ledger[k].status != Failed
    requires amount.Some? ==> SameAmount(amount.value, b.ledger[k].amount)
    ensures CreditedEntry(Apply(b, Event(at, Confirm(reference, amount))).ledger, reference)
  {
    hide RoundHalfUp, ApplyTopUp, SameAmount, LedgerGrows;
    ConfirmGrows(b, reference, amount);
    FoundAgain(b.ledger, PaymentConfirmed(b, reference, amount).ledger, reference);
  }

  lemma ConfirmationPays(b: Books, reference: Reference, amount: Option<real>, k: nat, at: int)
    requires MoneyOk(b)
    requires FindEntry(b.ledger, reference) == Some(k) && b.ledger[k].kind == TopUp && b.ledger[k].status != Failed
    requires amount.Some? ==> SameAmount(amount.value, b.ledger[k].amount)
    ensures var owner := b.ledger[k].userId;
      Balance(Apply(b, Event(at, Confirm(reference, amount))), owner) ==
      Balance(b, owner) + (if b.ledger[k].status == Confirmed then 0 else RoundHalfUp(b.ledger[k].amount))
  {
    hide RoundHalfUp, ApplyTopUp, SameAmount;
    TopUpMoves(Balance(b, b.ledger[k].userId), b.ledger[k].amount);
  }

  // ---------- Waiting top-ups ----------

  lemma {:induction false} WaitingUpdate(ledger: seq<Entry>, k: nat, to: Status, userId: string)
    requires k < |ledger| && to != Pending
    ensures Waiting(SetStatus(ledger, k, to), userId) <= Waiting(ledger, userId)
    decreases |ledger|
  {
    var n := |ledger| - 1;
    if k == n {
      assert SetStatus(ledger, k, to)[..n] == ledger[..n];
    } else {
      WaitingUpdate(ledger[..n], k, to, userId);
      assert SetStatus(ledger, k, to)[..n] == SetStatus(ledger[..n], k, to);
    }
  }

  lemma {:induction false} WaitingExpires(ledger: seq<Entry>, cutoff: int, userId: string)
    ensures Waiting(ExpireLedger(ledger, cutoff), userId) <= Waiting(ledger, userId)
    decreases |ledger|
  {
    if ledger != [] {
      var n := |ledger| - 1;
      WaitingExpires(ledger[..n], cutoff, userId);
      assert ExpireLedger(ledger, cutoff)[..n] == ExpireLedger(ledger[..n], cutoff);
    }
  }

  lemma ExpireWaiting(b: Books, timeout: int, now: int, userId: string)
    ensures Waiting(ExpireStaleTopUps(b, timeout, now).ledger, userId) <= Waiting(b.ledger, userId)
  {
    WaitingExpires(b.ledger, now - timeout, userId);
  }

  lemma WaitingAppend(ledger: seq<Entry>, e: Entry, userId: string)
    ensures Waiting(ledger + [e], userId) == Waiting(ledger, userId) + (if IsWaiting(e, userId) then 1 else 0)
  {
    assert (ledger + [e])[..|ledger|] == ledger;
  }

  lemma {:induction false} BillAllWaiting(b: Books, users: seq<string>, p: Period, now: int, userId: string)
    ensures Waiting(BillAll(b, users, p, now).ledger, userId) == Waiting(b.ledger, userId)
    decreases |users|
  {
    hide CycleCost, CanCover, ApplyCharge;
    if users != [] {
      var before := BillAll(b, users[..|users| - 1], p, now);
      var after := BillUser(before, users[|users| - 1], p, now);
      BillAllWaiting(b, users[..|users| - 1], p, now, userId);
      if after.ledger != before.ledger {
        WaitingAppend(before.ledger, after.ledger[|before.ledger|], userId);
      }
    }
  }

  lemma RequestWaiting(b: Books, who: string, amount: real, nonce: int, sent: bool, now: int, userId: string)
    ensures Waiting(RequestTopUp(b, who, amount, nonce, sent, now).0.ledger, userId) <=
      if who == userId && Waiting(b.ledger, userId) < MAX_PENDING_TOPUPS
        then MAX_PENDING_TOPUPS else Waiting(b.ledger, userId)
  {
    hide Waiting;
    var after := RequestTopUp(b, who, amount, nonce, sent, now).0;
    if after.ledger != b.ledger {
      WaitingAppend(b.ledger, after.ledger[|b.ledger|], userId);
    }
  }

  lemma AdjustWaiting(b: Books, who: string, amount: real, hasReason: bool, nonce: int, now: int, userId: string)
    ensures Waiting(AdjustCredit(b, who, amount, hasReason, nonce, now).0.ledger, userId) == Waiting(b.ledger, userId)
  {
    hide Waiting, RoundHalfUp;
    var after := AdjustCredit(b, who, amount, hasReason, nonce, now).0;
    if after.ledger != b.ledger {
      WaitingAppend(b.ledger, after.ledger[|b.ledger|], userId);
    }
  }

  lemma SettleWaiting(b: Books, reference: Reference, amount: Option<real>, userId: string)
    ensures Waiting(PaymentConfirmed(b, reference, amount).ledger, userId) <= Waiting(b.ledger, userId)
    ensures Waiting(PaymentFailed(b, reference).ledger, userId) <= Waiting(b.ledger, userId)
  {
    hide Waiting, RoundHalfUp, ApplyTopUp;
    var k := FindEntry(b.ledger, reference);
    if k.Some? {
      WaitingUpdate(b.ledger, k.value, Confirmed, userId);
      WaitingUpdate(b.ledger, k.value, Failed, userId);
    }
  }

  lemma ApplyWaiting(b: Books, e: Event, userId: string)
    ensures Waiting(Apply(b, e).ledger, userId) <=
      if e.call.Request? && e.call.userId == userId && Waiting(b.ledger, userId) < MAX_PENDING_TOPUPS
      then MAX_PENDING_TOPUPS else Waiting(b.ledger, userId)
  {
    hide DeploymentCreated, ServerStarted, ServerStopped, RequestTopUp, PaymentConfirmed, PaymentFailed,
      ExpireStaleTopUps, ChangePlan, SavePlan, AdjustCredit, BillAll, WithWallet, Waiting;
    match e.call
    case Request(who, amount, nonce, sent) => RequestWaiting(b, who, amount, nonce, sent, e.at, userId);
    case Adjust(who, amount, hasReason, nonce) => AdjustWaiting(b, who, amount, hasReason, nonce, e.at, userId);
    case Confirm(reference, amount) => SettleWaiting(b, reference, amount, userId);
    case Fail(reference) => SettleWaiting(b, reference, None, userId);
    case Expire(timeout) => ExpireWaiting(b, timeout, e.at, userId);
    case Bill(users) => BillAllWaiting(b, users, PreviousMonthPeriod(e.at), e.at, userId);
    case _ => CallEffect(b, e);
  }

  /** An account's pending top-ups stay within the limit in every reachable state. */
  lemma {:induction false} WaitingIsBounded(es: seq<Event>, userId: string)
    ensures Waiting(Run(EMPTY_BOOKS, es).ledger, userId) <= MAX_PENDING_TOPUPS
    decreases |es|
  {
    hide Apply;
    if es != [] {
      WaitingIsBounded(es[..|es| - 1], userId);
      ApplyWaiting(Run(EMPTY_BOOKS, es[..|es| - 1]), es[|es| - 1], userId);
    }
  }
}
