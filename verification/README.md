# Model and proofs of the NexusInfra core

A Dafny 4.11 project that models the stateful cores of the repository and proves what they
promise. `dafny verify dfyconfig.toml` checks all of it.

- **Agent link** (`Frames`, `LinkProtocol`, `LinkInvariant`, `LinkTheorems`, `LinkSessions`): many
  half-closable byte streams over one ordered channel. `LinkProtocol` is the system of two sessions
  and two queues of encoded frames with every interleaving of opens, writes, ends, destroys, closes
  and deliveries; `LinkSessions` holds the session and stream objects, each method tied to the
  protocol operation of its name.
- **Billing** (`Calendar`, `Pricing`, `ChargeLaws`, `Standing`, `Billing`, `CallEffects`,
  `IntervalLaws`, `LedgerLaws`, `CycleLaws`, `SpendingLaws`, `StandingLaws`, `CallLaws`, `BilledOnce`,
  `LowCreditLaws`, `BillingService`): runtime intervals, the shared pool of
  free hours, the monthly cycle, ledger, wallet and standing. `Billing` says what one call does to
  the books, `BillingService` is the object whose methods do it step by step, and the laws are about
  all runs of calls. Money is whole cents, ledger amounts are reals, time is integer milliseconds and
  months are the Gregorian months in UTC.
- **Copying a database** (`CopyOrder`, `CopyDatabase`): depth-first order with cycle detection and
  the paged copy, with every intermediate state of the target recorded.
- **Monitor** (`ControlRoom`): healthy and observed time against the measure of the three-second windows
  after the beats, and the ring of status changes.
- **Outbox** (`Outbox`, `OutboxInterleaving`): the queue with calls run to completion, and the same
  queue as a state machine with any number of overlapping publishes and the periodic flusher,
  interleaved at every await.
- **Rate limiter** (`TokenBucket`): the token bucket per key, over reals.
- **Codecs and streams** (`Octal`, `TarReader`, `Tarball`, `ContainerPath`, `Splitting`,
  `LogStream`): the ustar writer and reader, path normalization, and log lines on their way through the splitter and the
  event stream to both clients.

## What does not hold as stated

- A top-up request may carry fractions of a cent: the ledger keeps the fraction and the wallet is
  credited the rounded amount. Wallet and ledger stay equal exactly for whole-cent amounts
  (`LedgerLaws.ConfirmExactIff`, `LedgerLaws.FractionalTopUp`).
- An outbox that evicts while an attempt is in flight loses an event when that attempt succeeds: both
  the eviction and the success remove the head of the queue. With publishes made one at a time,
  conservation holds exactly when no such attempt succeeds (`OutboxInterleaving.ConservationExact`,
  `OutboxInterleaving.EvictionUnderFlightLoses`).
- When two publishes overlap, the newer event can be delivered past the older: the first attempt fails
  and queues its event, the second succeeds (`OutboxInterleaving.NewerOvertakesQueued`). Order survives
  a run exactly when every step is taken in turn (`OutboxInterleaving.OrderExact`); with no eviction in
  flight it is safe to publish exactly when no other publish is under way
  (`OutboxInterleaving.SafeExactlyAlone`).
- The size field of a written tar header is meant for eleven octal digits and a NUL. The reader also
  reads back twelve digits, so a file survives exactly up to 8^12 - 1 bytes; beyond that the field is
  cut by the next one (`Tarball.RoundTrip`).
- The tar reader does not come to an end on every input: an extended header whose size field is
  negative and below -511 is not passed over. With `-1000` (that is -512) it is read again for ever.
  The search ends if and only if it never comes back to a header, and always when every skipped size
  is above -512 (`TarReader.EndsExactly`, `TarReader.ForwardEnds`, `TarReader.OneHeaderNeverEnds`).
- `monthPeriodOf` goes through `Date.UTC`, which takes the years 0 to 99 for 1900 to 1999; the period
  is the month of its instant exactly outside those years (`Calendar.UtcPeriodIsTheMonth`,
  `Calendar.YearFiftyIsLate`), and consecutive periods meet in every month but one
  (`Calendar.UtcPeriodsTile`).
- A copy with batch size 0 reads no pages and succeeds exactly when there is nothing to copy
  (`CopyDatabase.Copy`).

## Model

| member | source | states |
|---|---|---|
| `Frames.DecodeEncode` | `shared/src/agentLink.ts:47-61` | every frame of every kind and payload survives the wire; a stream id is reduced to its low 32 bits |
| `Frames.EncodeDecode` | `shared/src/agentLink.ts:55-61` | a message decodes exactly when it has a whole header with a known type, and then re-encodes to itself; anything else is no frame |
| `Frames.EncodeInjective` | `shared/src/agentLink.ts:47-53` | two different frames never share a wire message |
| `Frames.WireBytes` | `shared/src/agentLink.ts:19-22` | byte by byte: 1 to 4 for the kind, the id in four bytes with the most significant first, then the payload |
| `Frames.ReasonIsCut` | `shared/src/agentLink.ts:63-67` | a reset reason keeps its first 200 bytes |
| `LinkSessions.LinkStream.constructor` | `shared/src/agentLink.ts:192-200` | a new stream has ended on neither side, was not reset and has moved no bytes |
| `LinkSessions.LinkStream.RemoteData` | `shared/src/agentLink.ts:203-205` | arriving bytes join what the reader sees, unless the remote side has ended; the session state becomes the protocol operation of that name |
| `LinkSessions.LinkStream.RemoteEnd` | `shared/src/agentLink.ts:208-213` | the first END marks the remote side ended and forgets a stream ended both ways; a second changes nothing |
| `LinkSessions.LinkStream.RemoteReset` | `shared/src/agentLink.ts:216-221` | the first RESET marks and forgets the stream and is never answered; a second changes nothing |
| `LinkSessions.LinkStream.Write` | `shared/src/agentLink.ts:227-233` | a write is refused after a reset and otherwise puts exactly one DATA frame with the chunk on the socket |
| `LinkSessions.LinkStream.Final` | `shared/src/agentLink.ts:235-240` | finishing marks the local side ended, sends END unless the stream was reset, and forgets a stream ended both ways |
| `LinkSessions.LinkStream.Destroy` | `shared/src/agentLink.ts:242-250` | tearing down an unfinished stream sends one RESET and forgets it; a finished or reset one is only forgotten |
| `LinkSessions.LinkStream.Settle` | `shared/src/agentLink.ts:252-254` | a stream leaves the table exactly when both sides have ended |
| `LinkSessions.LinkSession.constructor` | `shared/src/agentLink.ts:95-100` | a session starts open, with no streams and the first id 1 |
| `LinkSessions.LinkSession.Send` | `shared/src/agentLink.ts:155-158` | a closed session drops the message, an open one hands it to the socket unchanged |
| `LinkSessions.LinkSession.Forget` | `shared/src/agentLink.ts:167-169` | only that id leaves the table |
| `LinkSessions.LinkSession.AllocateId` | `shared/src/agentLink.ts:171-178` | terminates with the first free id at or after the counter in the cycle 1..2^32-1, whenever one is free, and leaves the counter behind it |
| `LinkSessions.LinkSession.Open` | `shared/src/agentLink.ts:112-119` | refused on a closed link; otherwise a stream under a free id that is announced with one OPEN |
| `LinkSessions.LinkSession.Receive` | `shared/src/agentLink.ts:122-144` | any message at all: the new table, streams and the answering frames are those of the protocol; garbage and messages after close change nothing; a stream is handed out if and only if the open session decodes an OPEN it accepts, for an id not in its table, and it is the stream the table now holds under that id |
| `LinkSessions.LinkSession.HandleFrame` | `shared/src/agentLink.ts:126-143` | dispatch of a decoded frame, with the refusal of an OPEN nobody accepts and of a frame for an unknown stream, and exactly an accepted OPEN handed out as the new stream |
| `LinkSessions.LinkSession.Accept` | `shared/src/agentLink.ts:130-131` | an accepted stream enters the table fresh; no other stream changes |
| `LinkSessions.LinkSession.Refuse` | `shared/src/agentLink.ts:129-129` | exactly one RESET for that id goes out, nothing else changes |
| `LinkSessions.LinkSession.Close` | `shared/src/agentLink.ts:147-152` | every stream still in the table is reset, the table is empty, nothing is sent and a second close does nothing |
| `LinkSessions.LinkSession.FailAll` | `shared/src/agentLink.ts:150-150` | every stream in the table fails and no other stream changes |
| `LinkSessions.LinkSession.FailOne` | `shared/src/agentLink.ts:150-150` | one failing stream leaves the others as they were |
| `LinkProtocol.SuccessorIsCyclic` | `shared/src/agentLink.ts:175-175` | the counter walks the cycle of ids 1..2^32-1 and never yields 0 |
| `LinkTheorems.IdsAreNew` | `shared/src/agentLink.ts:171-178` | in a run of at most 2^32-1 opens every id handed out is one no stream ever had, so the guard on ids holds by itself |
| `LinkInvariant.HandleEffect` | `shared/src/agentLink.ts:122-144` | one frame changes at most the stream it names, by its kind alone; at most one RESET answers it and none answers a RESET |
| `LinkInvariant.NextKeeps` | `shared/src/agentLink.ts:112-152` | every open, write, end, destroy, close and delivery keeps the invariant over both sessions and all frames in flight |
| `LinkInvariant.RunKeeps` | `shared/src/agentLink.ts:89-254` | so does every run |
| `LinkTheorems.StreamIntegrity` | `shared/src/agentLink.ts:122-144` | for every interleaving, what one end received is a prefix of what was written to the other end of that same stream, and all of it once END was received |
| `LinkTheorems.TablesAgree` | `shared/src/agentLink.ts:122-144` | with nothing in flight and neither session closed the two tables hold the same ids |
| `LinkTheorems.GentleRunHasNoReset` | `shared/src/agentLink.ts:207-254` | a run in which nobody destroys an unfinished stream or closes never produces a RESET and resets no stream |
| `LinkTheorems.GentleRunsLeaveNothing` | `shared/src/agentLink.ts:235-254` | and once everything arrived and every stream is ended both ways, both tables are empty |
| `LinkTheorems.DeliveryMakesProgress` | `shared/src/agentLink.ts:134-144` | every delivery lowers the traffic measure: a RESET is never answered, any other frame by at most one RESET |
| `LinkTheorems.DeliveriesAreBounded` | `shared/src/agentLink.ts:134-144` | without application actions at most 2·(non-RESET) + (RESET) deliveries can happen |
| `LinkTheorems.TrafficDrains` | `shared/src/agentLink.ts:134-144` | from any reachable state deliveries alone empty both channels within that bound, after which the tables agree unless a side has closed |
| `LinkTheorems.RefusedFrameEndsStream` | `shared/src/agentLink.ts:128-143` | a frame for a stream its receiver does not have, or will not open, changes nothing there and is answered once, and that answer ends exactly that stream at the sender |
| `LinkTheorems.StrayResetIsIgnored` | `shared/src/agentLink.ts:135-140` | a RESET for an unknown stream is not answered |
| `LinkTheorems.NothingAfterEnd` | `shared/src/agentLink.ts:202-205` | whatever arrives, a stream that has ended or is out of the table delivers nothing more |
| `LinkTheorems.ClosedIsSilent` | `shared/src/agentLink.ts:122-124` | a closed session neither changes nor answers |
| `Calendar.UtcPeriodsTile` | `services/billing-bridge/src/cycle.ts:24-35` | the period the runner bills is the calendar month before if and only if neither month is in the years 0 to 99, and it ends exactly where the current period starts in every month but January of the year 100 |
| `Calendar.YearStart` | `services/billing-bridge/src/cycle.ts:24-29` | every year of months starts as many days after 1970 as the Gregorian leap rule gives, before and after the epoch |
| `Calendar.MonthInYear` | `services/billing-bridge/src/cycle.ts:24-29` | every month starts as many days after its year as (367 m - 362) / 12 gives, less the shortfall of February, which places every month with `YearStart` |
| `Calendar.MonthUnique` | `services/billing-bridge/src/cycle.ts:24-29` | an instant lies in one month only |
| `Calendar.UtcPeriodIsTheMonth` | `services/billing-bridge/src/cycle.ts:24-29` | the period of an instant is its calendar month if and only if its year is not one of 0 to 99 |
| `Calendar.YearFiftyIsLate` | `services/billing-bridge/src/cycle.ts:24-29` | the period computed for the first instant of the year 50 is January 1950 |
| `BilledOnce.RecordsAreMonths` | `services/billing-bridge/src/cycle.ts:161-175` | every cycle record of a run is of one calendar month |
| `BilledOnce.EveryRecordIsACost` | `services/billing-bridge/src/cycle.ts:114-161` | every record charges what its account's intervals cost in that month by the books of the tick that made it |
| `BilledOnce.ClosedMonthIsFinal` | `services/billing-bridge/src/cycle.ts:38-43` | once a month is over, no later call changes any account's hours in it |
| `BilledOnce.EveryMomentBilledOnce` | `services/billing-bridge/src/cycle.ts:103-183` | in any run with a tick over all known accounts in the month after a moment, every interval begun by then has exactly one cycle record of its account whose period holds that moment |
| `Pricing.SortSorts` | `services/billing-bridge/src/cycle.ts:60-60` | intervals are charged in order of their start, none added or lost |
| `Pricing.SortIsStable` | `services/billing-bridge/src/cycle.ts:60-60` | intervals with the same start keep their order |
| `Pricing.ComputeCycleCost` | `services/billing-bridge/src/cycle.ts:59-74` | the loop over the shared pool of free hours computes the specified charge, which is never negative |
| `ChargeLaws.LaterCostsNoLess` | `services/billing-bridge/src/cycle.ts:38-74` | stopping any of the intervals later, or not at all, and ending the period later never lower the charge |
| `ChargeLaws.CostMonotone` | `services/billing-bridge/src/cycle.ts:59-74` | where no interval's time in its period shrank, the charge did not either |
| `ChargeLaws.CostOfOneMore` | `services/billing-bridge/src/cycle.ts:59-74` | one more interval, anywhere in the list, never lowers the charge |
| `ChargeLaws.FreeHoursExact` | `services/billing-bridge/src/cycle.ts:61-67` | the free hours handed out line by line total min(grant, hours run) |
| `ChargeLaws.FreeGrantSpent` | `services/billing-bridge/src/cycle.ts:61-67` | the same for the intervals of an account clipped to a period |
| `ChargeLaws.CycleCostIsComputeCharge` | `services/billing-bridge/src/pricing.ts:73-90` | for intervals of one plan and one size the cycle's loop equals the simple formula on their summed hours |
| `ChargeLaws.FactorOfSize` | `services/billing-bridge/src/pricing.ts:65-70` | the size factor is (cpu + ram) / 100 to the nearest hundredth or 0.25, and 1 for a server without limits |
| `ChargeLaws.OnePlanCost` | `services/billing-bridge/src/cycle.ts:59-74` | intervals run under one plan, the current one or another, cost the hours past the grant at the price of the plan they were run under |
| `ChargeLaws.CostInParts` | `services/billing-bridge/src/cycle.ts:59-74` | the grant goes to the hours that started first, and every hour past it costs what its own interval costs |
| `ChargeLaws.SwitchedMidMonth` | `services/billing-bridge/src/cycle.ts:68-71` | in the month of a plan switch earlier hours keep the price of the plan they ran under and later ones have the other, whichever plan the account ends on |
| `ChargeLaws.CostsAddUp` | `services/billing-bridge/src/cycle.ts:59-74` | with the grant spent, the unrounded charges of any two lists of intervals add up |
| `Standing.ComputeBurnRate` | `services/billing-bridge/src/standing.ts:56-62` | the two passes compute the rate and number of the running servers |
| `IntervalLaws.BurnCountsOpen` | `services/billing-bridge/src/standing.ts:56-62` | where no deployment has two open intervals, the running servers are exactly the open intervals |
| `IntervalLaws.RunningIsOpen` | `services/billing-bridge/src/standing.ts:56-62` | so in every reachable state |
| `IntervalLaws.ReachableIntervals` | `services/billing-bridge/src/service.ts:129-144` | in every state reachable with a nondecreasing clock the intervals are well timed and a deployment's later interval starts only after the earlier ones were closed |
| `IntervalLaws.NoOverlap` | `services/billing-bridge/src/service.ts:129-144` | so at most one interval of a deployment is open and no two overlap |
| `IntervalLaws.BilledTimeFits` | `services/billing-bridge/src/cycle.ts:38-43` | a deployment is never billed for more of a period than the period holds |
| `IntervalLaws.ChangePlanMovesNoTime` | `services/billing-bridge/src/service.ts:353-366` | switching plans leaves the clipped time of every user in every period as it was |
| `IntervalLaws.ChangePlanKeepsHours` | `services/billing-bridge/src/service.ts:353-366` | and so the hours shown and charged |
| `IntervalLaws.SwitchCutsRunning` | `services/billing-bridge/src/service.ts:353-366` | a switch ends the intervals of exactly the running servers of the account, starts one for each of the same size under the new plan, and changes no other |
| `IntervalLaws.SwitchSplitsTime` | `services/billing-bridge/src/service.ts:348-366` | in a period over by the switch no time of anyone under any plan has changed; in one that starts with it the whole time of the account is under the new plan |
| `IntervalLaws.BurnTakesTheLast` | `services/billing-bridge/src/standing.ts:56-62` | for any intervals, each deployment with an open one burns once, at the price of the last open one listed |
| `LedgerLaws.BalanceIsLedger` | `services/billing-bridge/src/service.ts:154-247` | in every reachable state each balance is the confirmed top-ups less the confirmed charges, each rounded to whole cents |
| `LedgerLaws.ConfirmExactIff` | `services/billing-bridge/src/service.ts:203-218` | a confirmation keeps the wallet equal to the unrounded ledger if and only if the top-up was requested in whole cents |
| `LedgerLaws.WholeCentBooksAreExact` | `services/billing-bridge/src/service.ts:203-218` | if every confirmed amount is in whole cents, every balance is the exact ledger sum |
| `LedgerLaws.FractionalTopUp` | `services/billing-bridge/src/service.ts:155-173` | a top-up of 100.5 cents is accepted, recorded as 100.5 and credited as 101 |
| `LedgerLaws.RunGrows` | `services/billing-bridge/src/repository.ts:159-165` | along every run the ledger is append-only, and confirmed and failed are final |
| `LedgerLaws.CreditedAtMostOnce` | `services/billing-bridge/src/service.ts:203-218` | under any order and duplication of confirmations, failures and expiries a reference is credited at most once |
| `LedgerLaws.LateConfirmationCredits` | `services/billing-bridge/src/service.ts:196-218` | unless its payment is reported failed, a top-up ends confirmed when the payment is confirmed for the requested amount, even after expiring, and the wallet of the owner grows by the rounded amount, by nothing if it was confirmed already |
| `LedgerLaws.WaitingIsBounded` | `services/billing-bridge/src/service.ts:154-159` | no account ever has more than three top-ups waiting |
| `StandingLaws.AvailableIsAfterBilling` | `services/billing-bridge/src/standing.ts:114-125` | the available credit is the balance left if both the unbilled month before and the month so far were billed now |
| `StandingLaws.AvailableInEveryRun` | `services/billing-bridge/src/standing.ts:103-125` | and that holds after every orderly run, at any moment from its end on |
| `StandingLaws.WhoMayRun` | `services/billing-bridge/src/standing.ts:124-139` | in credit an account may run, in debt it may not, with neither while it has free hours; available and accrued add up to the balance |
| `StandingLaws.FreeHoursShown` | `services/billing-bridge/src/standing.ts:126-126` | the free hours shown are the grant less the hours since the first of the month, not below zero, to the thousandth |
| `StandingLaws.NewAccountMayRun` | `services/billing-bridge/src/standing.ts:136-138` | an account without any record may run on the 100 free hours of the default plan |
| `StandingLaws.RunwayShown` | `services/billing-bridge/src/standing.ts:68-73` | the runway shown is the exact one to the nearest tenth of an hour, nothing in debt, and absent without running servers that cost anything |
| `StandingLaws.RunwaySpendsCredit` | `services/billing-bridge/src/standing.ts:64-73` | servers of one price that run on for the exact runway are charged, free hours counted, exactly what is available |
| `StandingLaws.BurnIsTheCharge` | `services/billing-bridge/src/standing.ts:56-62` | run through a period with the grant spent, the open intervals are charged the burn rate times its hours |
| `CallLaws.StartThenStop` | `services/billing-bridge/src/service.ts:129-144` | a server started and stopped leaves one interval between the two moments, of its owner and size, under the plan its owner was on |
| `CallLaws.CreatedThenStarted` | `services/billing-bridge/src/service.ts:118-140` | the owner and size last reported are the ones it runs under |
| `CallLaws.StartTwice` | `services/billing-bridge/src/service.ts:123-136` | a start reported again changes nothing |
| `CallLaws.StopTwice` | `services/billing-bridge/src/service.ts:142-144` | nor does a stop |
| `CallLaws.ForgottenServer` | `services/billing-bridge/src/service.ts:107-115` | a server missing from the deployments starts as its last interval says, and one that never ran not at all |
| `CallLaws.PlanAfterSwitch` | `services/billing-bridge/src/service.ts:353-366` | 404 exactly for no such plan, 409 exactly for a retired one the account is not on; otherwise it is on that plan afterwards, and nobody else has changed |
| `CallLaws.DefaultPlan` | `services/billing-bridge/src/repository.ts:39-42` | without a plan of its own an account is on the default one |
| `CallLaws.BillAtThePlanRunUnder` | `services/billing-bridge/src/cycle.ts:105-115` | the bill of an account that ran under one plan is at that plan's price, current or not, offered or retired |
| `CallLaws.RequestAnswers` | `services/billing-bridge/src/service.ts:154-194` | 400, 409 and 503 exactly for no positive amount, three waiting, and a broker that does not take it; no money moves |
| `CallLaws.RequestThenConfirm` | `services/billing-bridge/src/service.ts:154-218` | a request sent and confirmed credits the amount in whole cents |
| `CallLaws.UnsentIsNeverCredited` | `services/billing-bridge/src/service.ts:185-192` | a request that could not be sent is never credited |
| `CallLaws.ConfirmChangesIff` | `services/billing-bridge/src/service.ts:203-218` | a confirmation changes the books if and only if it names a pending or expired top-up and no amount or the requested one to the cent |
| `CallLaws.OtherAmountIsNotCredited` | `services/billing-bridge/src/service.ts:208-213` | one for an amount a cent or more away credits nothing |
| `CallLaws.FailedIsNotCredited` | `services/billing-bridge/src/service.ts:221-227` | a failed payment moves no money, and no confirmation after it credits anything |
| `CallLaws.ExpiresExactly` | `services/billing-bridge/src/service.ts:234-240` | exactly the top-ups that have been pending for longer than the timeout expire |
| `CallLaws.RequestThenExpire` | `services/billing-bridge/src/service.ts:160-240` | the wait is counted from the request |
| `CallLaws.ExpiryFreesRequests` | `services/billing-bridge/src/service.ts:156-240` | once they have all expired the account may ask again |
| `CallLaws.AdjustMoves` | `services/billing-bridge/src/service.ts:400-420` | refused exactly without a reason, beyond 10000 or under half a cent; otherwise the balance moves the way of the sign by the nearest cents, with an entry that says so |
| `CallLaws.AdjustBack` | `services/billing-bridge/src/service.ts:400-420` | an adjustment and its opposite cancel out |
| `CallLaws.OverdueMeansDebt` | `services/billing-bridge/src/cycle.ts:114-163` | billing takes the cost off the balance and writes it down, overdue exactly when that leaves a debt |
| `CycleLaws.OneChargePerMonth` | `services/billing-bridge/src/cycle.ts:110-132` | in every reachable state a user has at most one record and one charge for a month, and each charge equals the cost of its record |
| `CycleLaws.BillAllBills` | `services/billing-bridge/src/cycle.ts:110-161` | after a run exactly the accounts it took and those billed before are billed for that month |
| `CycleLaws.BillingIsIdempotent` | `services/billing-bridge/src/cycle.ts:99-112` | running the same month again, in any order and at any time, changes nothing |
| `CycleLaws.BillingLeavesSpending` | `services/billing-bridge/src/standing.ts:114-139` | seen from one instant, available credit, permission to run, free hours and runway are equal before and after a tick bills the closed month |
| `SpendingLaws.AgedUsage` | `services/billing-bridge/src/standing.ts:93-96` | usage of intervals that only aged never falls |
| `SpendingLaws.MonthShrinks` | `services/billing-bridge/src/standing.ts:116-138` | within a month, with the account's plans unchanged and no credit added to it, neither its credit nor its free hours ever grow, whatever happens to other accounts |
| `SpendingLaws.StoppedStaysStopped` | `services/billing-bridge/src/standing.ts:138-138` | so once an account may not run it stays stopped through any starts, stops, billing and passage of time in that month, and through top-ups, credit and plan switches of all others |
| `BillingService.BillingBridge.HandleDeploymentCreated` | `services/billing-bridge/src/service.ts:119-121` | records owner and size, replacing what was known |
| `BillingService.BillingBridge.HandleServerStarted` | `services/billing-bridge/src/service.ts:129-139` | opens one interval under the owner's plan; a start reported twice keeps the interval it has, and a server nobody knows opens none |
| `BillingService.BillingBridge.HandleServerStopped` | `services/billing-bridge/src/service.ts:142-144` | closes the most recent open interval and no other |
| `BillingService.BillingBridge.FindOpen` | `services/billing-bridge/src/repository.ts:71-73` | the search from the newest back finds the last open interval, or there is none |
| `BillingService.BillingBridge.FindLast` | `services/billing-bridge/src/repository.ts:75-77` | likewise for the last interval |
| `BillingService.BillingBridge.DeploymentFor` | `services/billing-bridge/src/service.ts:107-115` | a forgotten deployment is recovered from its last interval and stored |
| `BillingService.BillingBridge.ListIntervals` | `services/billing-bridge/src/repository.ts:102-104` | exactly the user's intervals in order |
| `BillingService.BillingBridge.SwitchPlan` | `services/billing-bridge/src/service.ts:353-366` | 404, 409, no change for the same plan, or the plan is set and every running interval is cut and reopened |
| `BillingService.BillingBridge.RequestCredit` | `services/billing-bridge/src/service.ts:154-194` | 400 for a non-positive amount, 409 at three waiting, else an entry that is pending, or failed and answered 503 where publishing it did not work |
| `BillingService.BillingBridge.GetLedgerByReference` | `services/billing-bridge/src/repository.ts:147-150` | the first entry with the reference, or there is none |
| `BillingService.BillingBridge.TransitionLedgerStatus` | `services/billing-bridge/src/repository.ts:159-165` | moves the status exactly when it is one of the expected ones |
| `BillingService.BillingBridge.HandlePaymentConfirmed` | `services/billing-bridge/src/service.ts:203-218` | credits the recorded amount when the entry is open and the amount agrees to the cent, otherwise changes nothing |
| `BillingService.BillingBridge.HandlePaymentFailed` | `services/billing-bridge/src/service.ts:221-227` | an open top-up fails, everything else stays |
| `BillingService.BillingBridge.ExpireStale` | `services/billing-bridge/src/service.ts:234-247` | exactly the top-ups pending for longer than the timeout expire, and they are the ones returned |
| `BillingService.BillingBridge.Adjust` | `services/billing-bridge/src/service.ts:400-420` | 400 for zero, too large, unexplained or sub-cent amounts; otherwise the entry and the balance move by the same whole cents |
| `BillingService.BillingBridge.ListBillableUsers` | `services/billing-bridge/src/repository.ts:185-192` | walks the four stores and lists nobody twice: exactly those with an interval, a wallet, a plan or a deployment |
| `BillingService.BillingBridge.RunBillingCycle` | `services/billing-bridge/src/cycle.ts:103-165` | every billable account is taken once, the books are those of that run, and each account not billed before has exactly one outcome, in order |
| `BillingService.BillingBridge.BillOne` | `services/billing-bridge/src/cycle.ts:111-162` | one account's turn, skipped when already billed; its outcome names the running servers exactly when overdue |
| `BillingService.BillingBridge.AlreadyBilled` | `services/billing-bridge/src/cycle.ts:111-111` | true exactly when the account has a record for that period |
| `BillingService.BillingBridge.GetStanding` | `services/billing-bridge/src/service.ts:261-270` | the standing of the books at that instant |
| `BillingService.BillingBridge.Settle` | `services/billing-bridge/src/service.ts:306-318` | takes every billable account once and suspends exactly those with running servers that may not run, naming the servers |
| `BillingService.BillingBridge.WarnLowCredit` | `services/billing-bridge/src/service.ts:279-298` | warns, each once, exactly the accounts whose credit is short, may still run and have no warning standing, and leaves the marks that follow from it |
| `BillingService.BillingBridge.WarnOne` | `services/billing-bridge/src/service.ts:282-295` | one account of the round: marked when told, cleared when its credit lasts again |
| `BillingService.OneOutcomeEach` | `services/billing-bridge/src/cycle.ts:109-164` | nobody has two outcomes, and exactly the accounts not billed before have one |
| `BillingService.OutcomeIsTheRecord` | `services/billing-bridge/src/cycle.ts:117-164` | an outcome tells the cost and state written down, and suspends exactly the running servers exactly when overdue |
| `BillingService.RunningExactly` | `services/billing-bridge/src/service.ts:309-309` | each deployment with an open interval, once, and no other |
| `BillingService.SuspendedExactly` | `services/billing-bridge/src/service.ts:306-318` | a settlement names an account if and only if it runs a server and may not, with all its running servers |
| `LowCreditLaws.WhoIsTold` | `services/billing-bridge/src/service.ts:279-298` | a round tells exactly the accounts that run servers, may run them, run low and have no warning standing, if the broker takes it |
| `LowCreditLaws.WarnedOncePerDip` | `services/billing-bridge/src/service.ts:272-298` | through any sequence of warning rounds, with any other calls between them, an account is told exactly when its credit is short, the broker takes the warning, and since every earlier telling its credit was seen to last |
| `LowCreditLaws.ToldOncePerDip` | `services/billing-bridge/src/standing.ts:75-86` | the same of the decision alone, for any sequence of runways |
| `CopyOrder.Search.Visit` | `shared/src/copyDatabase.ts:52-60` | either the model is done, with every known dependency before it, or the error is a real chain of relations that comes back on itself; it ends because the unvisited models shrink |
| `CopyOrder.Arrange` | `shared/src/copyDatabase.ts:47-64` | every known model once with its known dependencies before it, refused if and only if the relations have a cycle, and the refusal names a real chain |
| `CopyOrder.OrderedHasNoCycle` | `shared/src/copyDatabase.ts:42-46` | where dependencies can be put first there is no cycle |
| `CopyDatabase.CopyModel` | `shared/src/copyDatabase.ts:100-108` | paging by any positive batch puts every row of the model in the target once and in order, and at each insertion nothing refers to an incomplete model |
| `CopyDatabase.FindOccupied` | `shared/src/copyDatabase.ts:91-92` | exactly the models that already have rows |
| `CopyDatabase.CopyAll` | `shared/src/copyDatabase.ts:97-114` | with an unchanging source the loop succeeds exactly when the batch size is positive or there is nothing to copy |
| `CopyDatabase.Copy` | `shared/src/copyDatabase.ts:79-115` | succeeds exactly when there is no cycle, the target is empty and pages are read; then every table equals its source with the counts reported, and a refusal leaves the target as it was |
| `CopyDatabase.UpToIsSafe` | `shared/src/copyDatabase.ts:42-46` | at every moment, wherever a model has a copied row every known model it refers to is complete |
| `ControlRoom.OverlapIsMeasure` | `services/control-room/src/monitor.ts:31-34` | from the last beat on, the computed overlap is the number of milliseconds covered by the windows of all beats |
| `ControlRoom.EveryRunAccounts` | `services/control-room/src/monitor.ts:97-128` | after any beats and ticks the record's healthy time is the measure of the union of the windows, its observed time and status are those of its clock |
| `ControlRoom.ReportIsExact` | `services/control-room/src/monitor.ts:136-156` | with a nondecreasing clock every report is exact at the moment asked |
| `ControlRoom.TicksDoNotMatter` | `services/control-room/src/monitor.ts:119-128` | however many ticks there were, everything reported but the trail of transitions is the same |
| `ControlRoom.ShareInRange` | `services/control-room/src/monitor.ts:148-148` | the uptime share is between 0 and 100 percent, and 100 when no time was missed |
| `ControlRoom.RingKeepsLatest` | `services/control-room/src/monitor.ts:176-181` | whatever the limit, the retained transitions are the latest of all there were, and nothing else depends on it |
| `ControlRoom.RingIsBounded` | `services/control-room/src/monitor.ts:176-181` | they never exceed the limit, whatever the clock does |
| `ControlRoom.StepTrails` | `services/control-room/src/monitor.ts:176-181` | each retained transition changes the status and starts from the one before it, and the last ends in the current status |
| `ControlRoom.StatusMeans` | `services/control-room/src/monitor.ts:14-19` | a source is healthy within three seconds after one of its beats, offline once ten seconds hold none, and degraded in between |
| `ControlRoom.ShareIsNearest` | `services/control-room/src/monitor.ts:148-148` | the share is the healthy part to the nearest hundredth of a percent |
| `ControlRoom.OverlapOfOneBeat` | `services/control-room/src/monitor.ts:31-34` | for one beat the overlap counts the milliseconds of its window in any span |
| `ControlRoom.Monitor.constructor` | `services/control-room/src/monitor.ts:92-94` | a limit below one counts as one |
| `ControlRoom.Monitor.Advance` | `services/control-room/src/monitor.ts:167-173` | the time since the previous step is credited, or nothing if the clock stood still or went back |
| `ControlRoom.Monitor.TransitionTo` | `services/control-room/src/monitor.ts:176-181` | pushes a change and drops the oldest past the limit |
| `ControlRoom.Monitor.Heartbeat` | `services/control-room/src/monitor.ts:97-117` | one beat for that source, and nothing for any other |
| `ControlRoom.Monitor.Evaluate` | `services/control-room/src/monitor.ts:123-128` | one tick for every source there is |
| `ControlRoom.Monitor.Uptimes` | `services/control-room/src/monitor.ts:136-156` | a report for exactly the sources seen, in the order of their names, exact whenever the clock has not gone back |
| `Outbox.PublishOutbox.constructor` | `shared/src/outbox.ts:40-46` | a capacity below one counts as one |
| `Outbox.PublishOutbox.Attempt` | `shared/src/outbox.ts:102-108` | an event is offered once and taken by the broker or not; a thrown error counts as not |
| `Outbox.PublishOutbox.Flush` | `shared/src/outbox.ts:83-99` | offers the queue from the oldest until it is empty or an event is refused: what was taken is delivered, the rest kept; does nothing while a drain is under way |
| `Outbox.PublishOutbox.Enqueue` | `shared/src/outbox.ts:111-118` | the event goes last; at capacity exactly the oldest is dropped and counted |
| `Outbox.PublishOutbox.Publish` | `shared/src/outbox.ts:63-77` | the broker is offered the backlog and then the event up to the first refusal; true exactly when there was none, otherwise the event waits last, at the price of at most one eviction |
| `Outbox.HeadMeets` | `shared/src/outbox.ts:83-118` | delivered events followed by the queue stay the published ones in order less the evicted, when the oldest pending event is delivered or dropped |
| `Outbox.CountsAddUp` | `shared/src/outbox.ts:48-56` | published = delivered + pending + dropped |
| `Outbox.NoRefusalNoRest` | `shared/src/outbox.ts:89-94` | everything is taken if and only if nothing is refused |
| `OutboxInterleaving.StepKeepsIff` | `shared/src/outbox.ts:63-118` | interleaved at every await, with any number of publishes under way, a step keeps order and conservation if and only if it is taken in turn: a direct attempt succeeds with nothing older queued and nothing newer delivered, an event is queued with no newer publish ended before, and no attempt succeeds whose event was evicted meanwhile |
| `OutboxInterleaving.OrderExact` | `shared/src/outbox.ts:63-118` | a run keeps events conserved and in order throughout if and only if each of its steps is taken in turn |
| `OutboxInterleaving.OverlapReorders` | `shared/src/outbox.ts:63-77` | from every state in order with a publish under way, one more publish has a continuation out of order, with no third publish and no eviction in flight |
| `OutboxInterleaving.SafeExactlyAlone` | `shared/src/outbox.ts:63-77` | where publishes were made one at a time so far, the next one keeps order in every calm continuation if and only if no other is under way when it begins |
| `OutboxInterleaving.NewerOvertakesQueued` | `shared/src/outbox.ts:64-76` | the concrete run of two overlapping publishes in which the newer event is delivered while the older one is queued |
| `OutboxInterleaving.StaleSuccessLoses` | `shared/src/outbox.ts:89-94` | that success removes the wrong event: the head is lost without a trace and the delivered one was reported as dropped |
| `OutboxInterleaving.StaleNeedsEviction` | `shared/src/outbox.ts:111-118` | an attempt goes stale only when an event is evicted under it |
| `OutboxInterleaving.ConservationExact` | `shared/src/outbox.ts:63-118` | with publishes one at a time, a run conserves events, in order, if and only if no attempt succeeds in it whose event was evicted meanwhile |
| `OutboxInterleaving.CalmRunsConserve` | `shared/src/outbox.ts:63-118` | if publishes are made one at a time and nothing is evicted under an attempt in flight, every event is delivered, pending or reported as dropped, in order and within capacity |
| `OutboxInterleaving.UndisturbedDrain` | `shared/src/outbox.ts:83-99` | a drain nobody interferes with delivers a prefix of the queue in order and keeps the rest, as the flush run to completion does |
| `OutboxInterleaving.LostStaysLost` | `shared/src/outbox.ts:83-99` | a lost event is never delivered later |
| `OutboxInterleaving.EvictionUnderFlightLoses` | `shared/src/outbox.ts:83-118` | a concrete run with capacity one in which a published event is lost |
| `TokenBucket.TokensInRange` | `services/gateway/src/rateLimit.ts:25-30` | tokens stay between 0 and the burst, whatever the clock does |
| `TokenBucket.WindowBound` | `services/gateway/src/rateLimit.ts:23-32` | with a nondecreasing clock the calls let through in any window are at most burst + rate times its length |
| `TokenBucket.EveryKeyIsLimited` | `services/gateway/src/rateLimit.ts:23-32` | the same for every key of any interleaving of keys |
| `TokenBucket.SpacedIsAllowed` | `services/gateway/src/rateLimit.ts:26-28` | a caller spaced by at least one token's time is never refused when the burst is at least one |
| `TokenBucket.BurstIsExact` | `services/gateway/src/rateLimit.ts:25-29` | of calls at one instant exactly those that fit in the burst are let through |
| `TokenBucket.AllowedExactly` | `services/gateway/src/rateLimit.ts:23-32` | whatever the clock does, a call is let through if and only if, counted from every earlier call and from itself, it and the calls let through stay within the burst and the rate times the time gone by |
| `TokenBucket.AllowedExactlyForward` | `services/gateway/src/rateLimit.ts:23-32` | with a nondecreasing clock that time is the difference of the two instants |
| `TokenBucket.RateLimiter.constructor` | `services/gateway/src/rateLimit.ts:19-20` | no key has a bucket |
| `TokenBucket.RateLimiter.Allow` | `services/gateway/src/rateLimit.ts:23-32` | the answer is the exact one of the earlier calls of the same key alone, and no other bucket changes |
| `Octal.PaddedValue` | `services/node-agent/src/files.ts:81-81` | padding to a width never changes the number the digits stand for |
| `Octal.DigitsWidth` | `services/node-agent/src/files.ts:81-82` | a number takes at most k octal digits if and only if it is below 8^k |
| `Tarball.WriteAt` | `services/node-agent/src/files.ts:77-90` | a write replaces exactly the bytes it covers and stops at the end of the buffer |
| `Tarball.Total` | `services/node-agent/src/files.ts:88-89` | the loop adds up every byte of the header |
| `Tarball.Build` | `services/node-agent/src/files.ts:73-95` | the buffer written field by field, the name without its leading slash and cut to a hundred characters, is the specified header, followed by the padded data and two zero blocks |
| `Tarball.ChecksumFits` | `services/node-agent/src/files.ts:88-90` | the sum is at most 130560, so the checksum takes six digits and stays in its field |
| `Tarball.ChecksumVerifies` | `services/node-agent/src/files.ts:83-90` | a reader who adds up the header with spaces for the checksum finds the number stored there |
| `Tarball.HeaderSays` | `services/node-agent/src/files.ts:77-90` | read field by field: the name padded with NULs, mode 644, user and group 0, the time, a regular file and the ustar magic |
| `Tarball.NameStored` | `services/node-agent/src/files.ts:77-77` | one leading slash goes and a hundred characters stay |
| `Tarball.ArchiveLayout` | `services/node-agent/src/files.ts:92-94` | the archive is a whole number of 512-byte blocks with the data behind the header |
| `TarReader.ExtractSingleFile` | `services/node-agent/src/files.ts:103-118` | for any bytes the search comes to an end on, the loop gives its one answer: the file, a directory, a link or nothing |
| `TarReader.SkipMoves` | `services/node-agent/src/files.ts:108-115` | the reader passes a skipped header if and only if its size is above -512, and stands still if and only if it is between -1023 and -512 |
| `TarReader.StuckForEver` | `services/node-agent/src/files.ts:105-115` | at such a header it stays for ever |
| `TarReader.NeverEnds` | `services/node-agent/src/files.ts:105-117` | so an archive that leads it to one is never read to an end |
| `TarReader.ForwardEnds` | `services/node-agent/src/files.ts:105-117` | where every skipped header has a size above -512 the search ends, within one header a block |
| `TarReader.EndsExactly` | `services/node-agent/src/files.ts:105-117` | for every archive the search ends if and only if it never comes back to a header, and then within two steps a byte |
| `TarReader.OneHeaderNeverEnds` | `services/node-agent/src/files.ts:108-115` | a single extended header with the size field -1000 is never read to an end |
| `TarReader.OneAnswer` | `services/node-agent/src/files.ts:103-118` | no archive has two answers |
| `Tarball.HeaderSize` | `services/node-agent/src/files.ts:108-108` | the size read back is the number of the first twelve digits written |
| `Tarball.ReadSpaced` | `services/node-agent/src/files.ts:108-108` | blanks around the digits of a size do not matter, and a field of NULs is 0 |
| `Tarball.SignedSize` | `services/node-agent/src/files.ts:108-108` | digits may carry a sign |
| `Tarball.HighBitsIgnored` | `services/node-agent/src/files.ts:108-108` | the eighth bits do not count |
| `Tarball.NulBeforeLineBreak` | `services/node-agent/src/files.ts:108-108` | a NUL followed by a line break does not end the text |
| `Tarball.FirstMemberDecides` | `services/node-agent/src/files.ts:105-117` | behind any extended headers a directory or a link is refused, even with a file after it, and a block of zeros is no file |
| `Tarball.NothingBehind` | `services/node-agent/src/files.ts:105-117` | nor is less than a block |
| `Tarball.FileIsTaken` | `services/node-agent/src/files.ts:109-111` | a regular file of type 0, 7 or NUL is taken, as many bytes as its size says |
| `Tarball.SkipAll` | `services/node-agent/src/files.ts:114-115` | any number of well-formed extended headers is passed over |
| `Tarball.ReadsArchive` | `services/node-agent/src/files.ts:105-111` | a reader standing at the archive takes the data up to the size its header can tell |
| `Tarball.RoundTrip` | `services/node-agent/src/files.ts:73-118` | behind any number of extended headers the search ends, and the data comes back whole if and only if it is shorter than 8^12 bytes, for every name and time |
| `ContainerPath.Normalize` | `services/node-agent/src/files.ts:18-30` | the stack loop computes the specified walk |
| `ContainerPath.NormalizedIsCanonical` | `services/node-agent/src/files.ts:12-17` | the result is absolute with no empty, `.` or `..` segment and no backslash |
| `ContainerPath.FixedPointsAreCanonical` | `services/node-agent/src/files.ts:18-30` | the paths left unchanged are exactly the canonical ones |
| `ContainerPath.NormalizedOnce` | `services/node-agent/src/files.ts:18-30` | normalizing twice is normalizing once |
| `ContainerPath.NormalizedInParts` | `services/node-agent/src/files.ts:18-30` | a joined path may have its first part normalized beforehand |
| `ContainerPath.UpUndoesDown` | `services/node-agent/src/files.ts:23-26` | `..` takes back the name before it and never climbs above the root |
| `ContainerPath.BackslashIsSlash` | `services/node-agent/src/files.ts:19-19` | a backslash is a slash |
| `ContainerPath.DotsAndGapsGo` | `services/node-agent/src/files.ts:22-22` | `.` or nothing between slashes leads nowhere |
| `Splitting.CutAsItArrives` | `services/node-agent/src/logs.ts:13-19` | text arriving in two parts is cut where the whole would be |
| `Splitting.FirstCut` | `services/node-agent/src/logs.ts:15-17` | cutting at the first separator and going on with the rest is cutting the whole |
| `Splitting.CutRejoins` | `services/node-agent/src/logs.ts:13-19` | the pieces with their separators are the text again |
| `Splitting.PiecesAreUnique` | `services/node-agent/src/logs.ts:13-19` | and there is no other way to take a text apart into lines |
| `LogStream.LineSplitter.constructor` | `services/node-agent/src/logs.ts:9-10` | nothing seen, nothing held back |
| `LogStream.LineSplitter.Write` | `services/node-agent/src/logs.ts:12-21` | however the output is chopped up, the callback gets the non-empty lines complete so far |
| `LogStream.LineSplitter.Final` | `services/node-agent/src/logs.ts:22-27` | and at the end the last line, newline or not |
| `LogStream.DashboardStream.Read` | `dashboard/src/api.ts:941-955` | however the text is chopped up, the callback gets the payloads of the events complete so far |
| `LogStream.CliStream.Read` | `cli/src/client.ts:71-78` | likewise for the data lines complete so far |
| `LogStream.EventIsOnePiece` | `services/node-agent/src/index.ts:139-139` | an event written for a line is one event to the one decoder and one data line to the other |
| `LogStream.ReadsBack` | `dashboard/src/api.ts:945-954` | both decoders read back exactly the lines that were sent, in order |
| `LogStream.PipelineFidelity` | `cli/src/client.ts:70-78` | both clients end up with exactly the non-empty lines of the whole output, each without one trailing carriage return |
| `LogStream.Follow` | `dashboard/src/api.ts:939-955` | for any chunks of the output and any reads of the event stream, splitter, events and both decoders together give exactly those lines |
| `LogStream.NeverAhead` | `dashboard/src/api.ts:939-955` | at every moment on the way each client has a prefix of those lines |
| `LogStream.LogLinesOf` | `services/node-agent/src/logs.ts:15-27` | what those lines are, for any output put together from lines |
| `LogStream.EitherEnding` | `services/node-agent/src/logs.ts:15-20` | lines ended by a newline or by carriage return and newline arrive as they were |
| `LogStream.OneReturnGoes` | `services/node-agent/src/logs.ts:16-16` | one carriage return at the end of a line goes and nothing else of it |
| `LogStream.NewlinesAreSpaces` | `services/node-agent/src/index.ts:139-139` | any line, newlines and all, is sent as one event with spaces in their place |
| `LogStream.DataLinesJoin` | `dashboard/src/api.ts:948-952` | several data lines of an event are joined by newlines |

## Left out

- Agent link: backpressure (`whenDrained`, the high-water mark), the wording of errors, keep-alive and the WebSocket itself; the callbacks of `send` and the Duplex's buffering are reduced to its contract that nothing is written after the end.
- Agent link: what the onOpen handler does is later steps of the run, not part of the delivery.
- Agent link: an id handed out again after 2^32-1 opens within one run, where a RESET still in flight could hit the new stream; `LinkTheorems.IdsAreNew` shows that no shorter run needs the assumption.
- Billing: floating point, ISO strings and time zones; amounts are exact numbers and instants integers.
- Billing: its laws take the period of every instant to be its calendar month, which it is not in the years 0 to 99 (`Calendar.UtcPeriodsTile`).
- Billing: calls interleaved at their awaits; a call is one step, as for events consumed one at a time.
- Billing: the payloads of published events, e-mail addresses, descriptions, currencies, failure reasons, plan parsing and quotas, and the Prisma store; publishing is a given answer, and references are unique by construction.
- Billing: `getUsage`, `listAccounts` and `quote`, which only combine modelled parts.
- CopyOrder.Arrange: the alphabetical sort is any permutation of the models; `modelsFromDmmf` and `delegateName` are not modelled.
- CopyDatabase.Copy: a source that changes during the copy, a negative batch size, and insertions that fail halfway; the order of pages is that of the table.
- ControlRoom.Monitor.Uptimes: the alphabetical order of the names is a given one; the share is in hundredths of a percent.
- TokenBucket.WindowBound: rate and burst are not negative; `reset` and rounding of numbers are left out.
- Tarball.Build: how text becomes bytes is a given function, characters are not cut into UTF-16 halves, and the clock is a given number of seconds.
- TarReader.ExtractSingleFile: asked only for archives the search comes to an end on; on all others the original does not return either.
- ContainerPath.Normalize: characters are compared as they are, without Unicode normalization; `parseLsOutput` is not modelled.
- SpendingLaws.StoppedStaysStopped: changing the terms of a plan the account is on, or has run under, counts as changing its plan.
- LogStream.LineSplitter.Write: chunks are text, cut at character boundaries; decoding UTF-8 bytes split within a character is not modelled.
- Left out as wholes: the web pages, HTTP routers, RabbitMQ, Docker, object storage signing, encryption and tokens, container events and decision tables.
