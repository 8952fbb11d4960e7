/** Runtime intervals in every reachable state of the books. */
module IntervalLaws {
  import opened Wrappers
  import opened Calendar
  import opened Pricing
  import opened Standing
  import opened Billing
  import opened CallEffects

  // ---------- Intervals that never overlap ----------

  /** Well-timed up to `now`, and a later interval of a deployment starts only
      after every earlier one was closed. */
  ghost predicate IntervalsOk(ivs: seq<Interval>, now: int) {
    && (forall k :: 0 <= k < |ivs| ==> ivs[k].startedAt <= now)
    && (forall k :: 0 <= k < |ivs| && ivs[k].stoppedAt.Some? ==> ivs[k].startedAt <= ivs[k].stoppedAt.value <= now)
    && (forall j, k :: 0 <= j < k < |ivs| && ivs[j].deploymentId == ivs[k].deploymentId ==>
          ivs[j].stoppedAt.Some? && ivs[j].stoppedAt.value <= ivs[k].startedAt)
  }

  function Closed(i: Interval, dep: string, at: int): Interval {
    if i.deploymentId == dep && i.stoppedAt.None? then i.(stoppedAt := Some(at)) else i
  }

  lemma CloseKeeps(ivs: seq<Interval>, dep: string, now: int)
    requires IntervalsOk(ivs, now)
    ensures IntervalsOk(CloseInterval(ivs, dep, now), now)
    ensures LastOpen(CloseInterval(ivs, dep, now), dep).None?
    ensures |CloseInterval(ivs, dep, now)| == |ivs|
    ensures forall k :: 0 <= k < |ivs| ==> CloseInterval(ivs, dep, now)[k] == Closed(ivs[k], dep, now)
  {
    var k := LastOpen(ivs, dep);
    assert k.Some? ==> forall j :: 0 <= j < |ivs| && j != k.value && ivs[j].deploymentId == dep ==>
      ivs[j].stoppedAt.Some?;
    var again := LastOpen(CloseInterval(ivs, dep, now), dep);
  }

  lemma OpenKeeps(ivs: seq<Interval>, userId: string, dep: string, planId: string, limits: Limits, now: int)
    requires IntervalsOk(ivs, now) && LastOpen(ivs, dep).None?
    ensures IntervalsOk(OpenInterval(ivs, userId, dep, planId, limits, now), now)
  {
  }

  lemma {:induction false} ReopenKeeps(ivs: seq<Interval>, running: seq<Interval>,
                                       userId: string, planId: string, now: int)
    requires IntervalsOk(ivs, now)
    ensures IntervalsOk(Reopen(ivs, running, userId, planId, now), now)
    decreases |running|
  {
    if running != [] {
      var n := |running| - 1;
      ReopenKeeps(ivs, running[..n], userId, planId, now);
      var before := Reopen(ivs, running[..n], userId, planId, now);
      CloseKeeps(before, running[n].deploymentId, now);
      OpenKeeps(CloseInterval(before, running[n].deploymentId, now), userId,
        running[n].deploymentId, planId, running[n].limits, now);
    }
  }

  lemma ApplyKeepsIntervals(b: Books, e: Event, clock: int)
    requires IntervalsOk(b.intervals, clock) && clock <= e.at
    ensures IntervalsOk(Apply(b, e).intervals, e.at)
  {
    if !TouchesIntervals(e.call) {
      CallEffect(b, e);
      hide Apply;
    } else {
      assert IntervalsOk(b.intervals, e.at);
      hide IntervalsOk, Reopen, OpenOnes, Mine;
      match e.call
      case Stopped(dep) => CloseKeeps(b.intervals, dep, e.at);
      case Started(dep) => StartKeeps(b, dep, e.at);
      case Switch(userId, planId) => SwitchKeeps(b, userId, planId, e.at);
    }
  }

  lemma SwitchKeeps(b: Books, userId: string, planId: string, now: int)
    requires IntervalsOk(b.intervals, now)
    ensures IntervalsOk(ChangePlan(b, userId, planId, now).0.intervals, now)
  {
    if planId in b.plans {
      ReopenKeeps(b.intervals, OpenOnes(Mine(b.intervals, userId)), userId, b.plans[planId].id, now);
    }
  }

  lemma StartKeeps(b: Books, dep: string, now: int)
    requires IntervalsOk(b.intervals, now)
    ensures IntervalsOk(ServerStarted(b, dep, now).intervals, now)
  {
    var known := WithDeployment(b, dep);
    if dep in known.deployments && LastOpen(b.intervals, dep).None? {
      var d := known.deployments[dep];
      OpenKeeps(b.intervals, d.userId, dep, UserPlan(b, d.userId).id, d.limits, now);
    }
  }

  function Clock(es: seq<Event>, start: int): int {
    if es == [] then start else es[|es| - 1].at
  }

  /** In every reachable state a deployment has at most one open interval and its
      intervals never overlap. */
  lemma {:induction false} ReachableIntervals(es: seq<Event>, start: int)
    requires Orderly(es) && (es != [] ==> start <= es[0].at)
    ensures IntervalsOk(Run(EMPTY_BOOKS, es).intervals, Clock(es, start))
    decreases |es|
  {
    if es != [] {
      var past := es[..|es| - 1];
      ReachableIntervals(past, start);
      ApplyKeepsIntervals(Run(EMPTY_BOOKS, past), es[|es| - 1], Clock(past, start));
    }
  }

  /** The same, said of any two places of the list. */
  lemma NoOverlap(es: seq<Event>, start: int, j: nat, k: nat)
    requires Orderly(es) && (es != [] ==> start <= es[0].at)
    requires var ivs := Run(EMPTY_BOOKS, es).intervals;
      j < |ivs| && k < |ivs| && j != k && ivs[j].deploymentId == ivs[k].deploymentId
    ensures var ivs := Run(EMPTY_BOOKS, es).intervals;
      && !(ivs[j].stoppedAt.None? && ivs[k].stoppedAt.None?)
      && ((ivs[j].stoppedAt.Some? && ivs[j].stoppedAt.value <= ivs[k].startedAt) ||
          (ivs[k].stoppedAt.Some? && ivs[k].stoppedAt.value <= ivs[j].startedAt))
  {
    ReachableIntervals(es, start);
  }

  // ---------- Billed time never exceeds the period ----------

  function DeploymentMs(ivs: seq<Interval>, dep: string, p: Period): int {
    if ivs == [] then 0
    else
      DeploymentMs(ivs[..|ivs| - 1], dep, p) +
      (if ivs[|ivs| - 1].deploymentId == dep then ClipMs(ivs[|ivs| - 1], p) else 0)
  }

  /** Intervals all over by `bound` fill at most the part of the period before it. */
  lemma {:induction false} FilledUpTo(ivs: seq<Interval>, dep: string, p: Period, now: int, bound: int)
    requires IntervalsOk(ivs, now)
    requires forall k :: 0 <= k < |ivs| && ivs[k].deploymentId == dep ==>
      (if ivs[k].stoppedAt.Some? then ivs[k].stoppedAt.value else p.end) <= bound
    ensures 0 <= DeploymentMs(ivs, dep, p) <= Max(0, Min(bound, p.end) - p.start)
    decreases |ivs|
  {
    if ivs != [] {
      var n := |ivs| - 1;
      var last := ivs[n];
      FilledUpTo(ivs[..n], dep, p, now, if last.deploymentId == dep then Min(last.startedAt, bound) else bound);
    }
  }

  /** A deployment is never billed for more of a period than the period holds. */
  lemma BilledTimeFits(ivs: seq<Interval>, dep: string, p: Period, now: int)
    requires IntervalsOk(ivs, now) && p.start <= p.end
    ensures 0 <= DeploymentMs(ivs, dep, p) <= p.end - p.start
  {
    var bound := Max(now, p.end);
    FilledUpTo(ivs, dep, p, now, bound);
  }

  // ---------- Switching plans moves no hours ----------

  function UserMs(ivs: seq<Interval>, userId: string, p: Period): int {
    if ivs == [] then 0
    else
      UserMs(ivs[..|ivs| - 1], userId, p) +
      (if ivs[|ivs| - 1].userId == userId then ClipMs(ivs[|ivs| - 1], p) else 0)
  }

  lemma {:induction false} UserMsUpdate(ivs: seq<Interval>, k: nat, i: Interval, userId: string, p: Period)
    requires k < |ivs| && i.userId == ivs[k].userId
    ensures UserMs(ivs[k := i], userId, p) ==
      UserMs(ivs, userId, p) + (if i.userId == userId then ClipMs(i, p) - ClipMs(ivs[k], p) else 0)
    decreases |ivs|
  {
    var n := |ivs| - 1;
    if k == n {
      assert ivs[k := i][..n] == ivs[..n];
    } else {
      UserMsUpdate(ivs[..n], k, i, userId, p);
      assert ivs[k := i][..n] == ivs[..n][k := i];
    }
  }

  /** Cutting a running interval at `at` and running on from there. */
  lemma CutAndResume(i: Interval, at: int, planId: string, p: Period)
    requires i.stoppedAt.None? && i.startedAt <= at
    ensures ClipMs(i.(stoppedAt := Some(at)), p) +
      ClipMs(Interval(i.userId, i.deploymentId, planId, i.limits, at, None), p)
      == ClipMs(i, p)
  {
  }

  /** `running` are different deployments, each open in `ivs` under this user. */
  ghost predicate StillRunning(ivs: seq<Interval>, running: seq<Interval>, userId: string) {
    && (forall j, k :: 0 <= j < k < |running| ==> running[j].deploymentId != running[k].deploymentId)
    && (forall j :: 0 <= j < |running| ==>
      running[j].userId == userId && running[j].stoppedAt.None? && running[j] in ivs)
  }

  /** None of `running` is about the deployment of `i`. */
  ghost predicate Apart(i: Interval, running: seq<Interval>) {
    forall j :: 0 <= j < |running| ==> running[j].deploymentId != i.deploymentId
  }

  lemma {:induction false} ReopenLeavesOthers(ivs: seq<Interval>,
                                              running: seq<Interval>, userId: string, planId: string,
                                              now: int, i: Interval)
    requires IntervalsOk(ivs, now) && i in ivs && Apart(i, running)
    ensures i in Reopen(ivs, running, userId, planId, now)
    decreases |running|
  {
    if running != [] {
      var n := |running| - 1;
      assert running[n].deploymentId != i.deploymentId;
      ReopenLeavesOthers(ivs, running[..n], userId, planId, now, i);
      ReopenKeeps(ivs, running[..n], userId, planId, now);
      var before := Reopen(ivs, running[..n], userId, planId, now);
      CloseKeeps(before, running[n].deploymentId, now);
      var k :| 0 <= k < |before| && before[k] == i;
      assert CloseInterval(before, running[n].deploymentId, now)[k] == i;
    }
  }

  lemma {:induction false} ReopenMovesNoTime(ivs: seq<Interval>, running: seq<Interval>, userId: string, planId: string,
                                             now: int, who: string, p: Period)
    requires IntervalsOk(ivs, now) && StillRunning(ivs, running, userId)
    ensures UserMs(Reopen(ivs, running, userId, planId, now), who, p) == UserMs(ivs, who, p)
    decreases |running|
  {
    if running != [] {
      var n := |running| - 1;
      var last := running[n];
      ReopenMovesNoTime(ivs, running[..n], userId, planId, now, who, p);
      ReopenKeeps(ivs, running[..n], userId, planId, now);
      ReopenLeavesOthers(ivs, running[..n], userId, planId, now, last);
      ReopenOneMovesNoTime(Reopen(ivs, running[..n], userId, planId, now), last, userId, planId, now, who, p);
    }
  }

  lemma ReopenOneMovesNoTime(ivs: seq<Interval>, i: Interval, userId: string,
                             planId: string, now: int, who: string, p: Period)
    requires IntervalsOk(ivs, now) && i in ivs && i.stoppedAt.None? && i.userId == userId
    ensures UserMs(OpenInterval(CloseInterval(ivs, i.deploymentId, now), userId,
      i.deploymentId, planId, i.limits, now), who, p)
      == UserMs(ivs, who, p)
  {
    var k := LastOpen(ivs, i.deploymentId).value;
    assert ivs[k] == i;
    var closed := CloseInterval(ivs, i.deploymentId, now);
    var resumed := Interval(userId, i.deploymentId, planId, i.limits, now, None);
    UserMsUpdate(ivs, k, i.(stoppedAt := Some(now)), who, p);
    assert (closed + [resumed])[..|closed|] == closed;
    CutAndResume(i, now, planId, p);
  }

  lemma OpenOnesAppend(ivs: seq<Interval>, i: Interval)
    ensures OpenOnes(ivs + [i]) == if i.stoppedAt.None? then OpenOnes(ivs) + [i] else OpenOnes(ivs)
  {
    assert (ivs + [i])[..|ivs|] == ivs;
  }

  lemma {:induction false} OpenOfUser(ivs: seq<Interval>, userId: string, now: int)
    requires IntervalsOk(ivs, now)
    ensures StillRunning(ivs, OpenOnes(Mine(ivs, userId)), userId)
    decreases |ivs|
  {
    if ivs != [] {
      var front, last := ivs[..|ivs| - 1], ivs[|ivs| - 1];
      OpenOfUser(front, userId, now);
      OpenOnesAppend(Mine(front, userId), last);
      var running := OpenOnes(Mine(front, userId));
      assert OpenOnes(Mine(ivs, userId)) ==
        if last.userId == userId && last.stoppedAt.None? then running + [last] else running;
      hide Mine, OpenOnes;
      StillRunningGrows(ivs, running, userId, now);
    }
  }

  lemma StillRunningGrows(ivs: seq<Interval>, running: seq<Interval>, userId: string, now: int)
    requires IntervalsOk(ivs, now) && ivs != [] && StillRunning(ivs[..|ivs| - 1], running, userId)
    ensures StillRunning(ivs, running, userId)
    ensures var last := ivs[|ivs| - 1];
      last.userId == userId && last.stoppedAt.None? ==> StillRunning(ivs, running + [last], userId)
  {
    var front, last := ivs[..|ivs| - 1], ivs[|ivs| - 1];
    assert forall i :: i in front ==> i in ivs;
    assert last in ivs;
    forall j | 0 <= j < |running|
      ensures running[j].deploymentId != last.deploymentId
    {
      var k :| 0 <= k < |front| && front[k] == running[j];
      assert ivs[k] == front[k];
    }
  }

  /** A plan switch moves no millisecond: the clipped time of every user, in every
      period, is equal before and after. */
  lemma ChangePlanMovesNoTime(b: Books, userId: string, planId: string, now: int, who: string, p: Period)
    requires IntervalsOk(b.intervals, now)
    ensures UserMs(ChangePlan(b, userId, planId, now).0.intervals, who, p) == UserMs(b.intervals, who, p)
  {
    if planId in b.plans {
      OpenOfUser(b.intervals, userId, now);
      ReopenMovesNoTime(b.intervals, OpenOnes(Mine(b.intervals, userId)), userId, b.plans[planId].id, now, who, p);
    }
  }

  lemma {:induction false} UserHours(ivs: seq<Interval>, userId: string, p: Period)
    ensures HoursIn(Mine(ivs, userId), p) == UserMs(ivs, userId, p) as real / MS_PER_HOUR
    decreases |ivs|
  {
    if ivs != [] {
      var front, last := ivs[..|ivs| - 1], ivs[|ivs| - 1];
      UserHours(front, userId, p);
      if last.userId == userId {
        var mine := Mine(front, userId);
        assert (mine + [last])[..|mine|] == mine;
      }
    }
  }

  /** …and so the hours the account is shown and charged for. */
  lemma ChangePlanKeepsHours(b: Books, userId: string, planId: string, now: int, who: string, p: Period)
    requires IntervalsOk(b.intervals, now)
    ensures HoursIn(Mine(ChangePlan(b, userId, planId, now).0.intervals, who), p) == HoursIn(Mine(b.intervals, who), p)
  {
    ChangePlanMovesNoTime(b, userId, planId, now, who, p);
    UserHours(b.intervals, who, p);
    UserHours(ChangePlan(b, userId, planId, now).0.intervals, who, p);
  }

  // ---------- A switch splits the time between two plans ----------

  ghost predicate About(running: seq<Interval>, dep: string) {
    exists j :: 0 <= j < |running| && running[j].deploymentId == dep
  }

  function Resumed(i: Interval, userId: string, planId: string, at: int): Interval {
    Interval(userId, i.deploymentId, planId, i.limits, at, None)
  }

  /** `after` is `ivs` with the open intervals of those deployments closed, followed by
      one interval under the new plan for each of them. */
  ghost predicate CutAndResumed(ivs: seq<Interval>, running: seq<Interval>, userId: string, planId: string, now: int,
                                after: seq<Interval>)
  {
    && |after| == |ivs| + |running|
    && (forall k :: 0 <= k < |ivs| ==>
          after[k] == if About(running, ivs[k].deploymentId) then Closed(ivs[k], ivs[k].deploymentId, now) else ivs[k])
    && (forall j :: 0 <= j < |running| ==> after[|ivs| + j] == Resumed(running[j], userId, planId, now))
  }

  lemma OneMoreResumed(ivs: seq<Interval>, running: seq<Interval>, last: Interval, userId: string, planId: string,
                       now: int, before: seq<Interval>)
    requires IntervalsOk(before, now) && CutAndResumed(ivs, running, userId, planId, now, before)
    requires Apart(last, running)
    ensures CutAndResumed(ivs, running + [last], userId, planId, now,
      CloseInterval(before, last.deploymentId, now) + [Resumed(last, userId, planId, now)])
  {
    var dep := last.deploymentId;
    var closed := CloseInterval(before, dep, now);
    var all := running + [last];
    CloseKeeps(before, dep, now);
    assert all[|running|] == last && forall j :: 0 <= j < |running| ==> all[j] == running[j];
    forall d
      ensures About(all, d) <==> About(running, d) || d == dep
    {
      if About(running, d) {
        var j :| 0 <= j < |running| && running[j].deploymentId == d;
        assert all[j].deploymentId == d;
      }
    }
    forall j | 0 <= j < |running|
      ensures closed[|ivs| + j] == Resumed(running[j], userId, planId, now)
    {
      assert running[j].deploymentId != dep;
    }
  }

  lemma {:induction false} ReopenCutsAndResumes(ivs: seq<Interval>, running: seq<Interval>, userId: string,
                                                planId: string, now: int)
    requires IntervalsOk(ivs, now) && StillRunning(ivs, running, userId)
    ensures CutAndResumed(ivs, running, userId, planId, now, Reopen(ivs, running, userId, planId, now))
    decreases |running|
  {
    hide IntervalsOk, CutAndResumed, CloseInterval;
    if running == [] {
      NothingResumed(ivs, userId, planId, now);
    } else {
      var front, last := running[..|running| - 1], running[|running| - 1];
      ReopenCutsAndResumes(ivs, front, userId, planId, now);
      ReopenKeeps(ivs, front, userId, planId, now);
      OneMoreResumed(ivs, front, last, userId, planId, now, Reopen(ivs, front, userId, planId, now));
      assert running == front + [last];
    }
  }

  lemma NothingResumed(ivs: seq<Interval>, userId: string, planId: string, now: int)
    ensures CutAndResumed(ivs, [], userId, planId, now, ivs)
  {
  }

  lemma {:induction false} RunningMeans(ivs: seq<Interval>, userId: string, i: Interval)
    ensures i in OpenOnes(Mine(ivs, userId)) <==> i in ivs && i.userId == userId && i.stoppedAt.None?
    decreases |ivs|
  {
    if ivs != [] {
      var front, last := ivs[..|ivs| - 1], ivs[|ivs| - 1];
      RunningMeans(front, userId, i);
      OpenOnesAppend(Mine(front, userId), last);
      assert ivs == front + [last];
    }
  }

  /** The account changes plans, and not to the plan it is on. */
  predicate Switches(b: Books, userId: string, planId: string) {
    planId in b.plans && b.plans[planId].id != UserPlan(b, userId).id && b.plans[planId].active
  }

  /** An interval once its user's running servers have been cut at `at`. */
  function CutFor(i: Interval, userId: string, at: int): Interval {
    if i.userId == userId && i.stoppedAt.None? then i.(stoppedAt := Some(at)) else i
  }

  lemma AboutOwn(ivs: seq<Interval>, userId: string, now: int, k: nat)
    requires IntervalsOk(ivs, now) && k < |ivs|
    ensures var running := OpenOnes(Mine(ivs, userId));
      About(running, ivs[k].deploymentId) && ivs[k].stoppedAt.None? <==>
      ivs[k].userId == userId && ivs[k].stoppedAt.None?
  {
    var running := OpenOnes(Mine(ivs, userId));
    RunningMeans(ivs, userId, ivs[k]);
    hide Mine, OpenOnes;
    if About(running, ivs[k].deploymentId) && ivs[k].stoppedAt.None? {
      var j :| 0 <= j < |running| && running[j].deploymentId == ivs[k].deploymentId;
      RunningMeans(ivs, userId, running[j]);
      var m :| 0 <= m < |ivs| && ivs[m] == running[j];
      assert m == k;
    }
  }

  /** The user's running servers were cut at `now` and go on, each as large as before,
      under the new plan; nothing else has changed. */
  ghost predicate SplitAt(ivs: seq<Interval>, userId: string, planId: string, now: int, after: seq<Interval>) {
    var running := OpenOnes(Mine(ivs, userId));
    && |after| == |ivs| + |running|
    && (forall k :: 0 <= k < |ivs| ==> after[k] == CutFor(ivs[k], userId, now))
    && (forall j :: 0 <= j < |running| ==> after[|ivs| + j] == Resumed(running[j], userId, planId, now))
  }

  lemma CutsOwnServers(ivs: seq<Interval>, userId: string, planId: string, now: int, after: seq<Interval>)
    requires IntervalsOk(ivs, now) && CutAndResumed(ivs, OpenOnes(Mine(ivs, userId)), userId, planId, now, after)
    ensures SplitAt(ivs, userId, planId, now, after)
  {
    hide Mine, OpenOnes, IntervalsOk, About;
    forall k | 0 <= k < |ivs|
      ensures after[k] == CutFor(ivs[k], userId, now)
    {
      AboutOwn(ivs, userId, now, k);
    }
  }

  lemma SwitchIsReopen(b: Books, userId: string, planId: string, now: int)
    requires Switches(b, userId, planId)
    ensures ChangePlan(b, userId, planId, now).0.intervals ==
      Reopen(b.intervals, OpenOnes(Mine(b.intervals, userId)), userId, b.plans[planId].id, now)
  {
    hide OpenOnes, Mine, Reopen, UserPlan;
  }

  /** What a switch does to the intervals. */
  lemma SwitchCutsRunning(b: Books, userId: string, planId: string, now: int)
    requires IntervalsOk(b.intervals, now) && Switches(b, userId, planId)
    ensures SplitAt(b.intervals, userId, b.plans[planId].id, now, ChangePlan(b, userId, planId, now).0.intervals)
  {
    hide OpenOnes, Mine, Reopen, IntervalsOk, About, CutAndResumed, SplitAt, StillRunning, ChangePlan, UserPlan;
    var running := OpenOnes(Mine(b.intervals, userId));
    SwitchIsReopen(b, userId, planId, now);
    OpenOfUser(b.intervals, userId, now);
    ReopenCutsAndResumes(b.intervals, running, userId, b.plans[planId].id, now);
    CutsOwnServers(b.intervals, userId, b.plans[planId].id, now,
      Reopen(b.intervals, running, userId, b.plans[planId].id, now));
  }

  /** A user's time in a period under one plan. */
  function PlanMs(ivs: seq<Interval>, userId: string, planId: string, p: Period): int {
    if ivs == [] then 0
    else
      var last := ivs[|ivs| - 1];
      PlanMs(ivs[..|ivs| - 1], userId, planId, p) +
      (if last.userId == userId && last.planId == planId then ClipMs(last, p) else 0)
  }

  lemma {:induction false} SamePlanTime(xs: seq<Interval>, ys: seq<Interval>, userId: string, planId: string, p: Period)
    requires |xs| <= |ys|
    requires forall k :: 0 <= k < |xs| ==>
      ys[k] == xs[k].(stoppedAt := ys[k].stoppedAt) && ClipMs(ys[k], p) == ClipMs(xs[k], p)
    requires forall k :: |xs| <= k < |ys| ==> ClipMs(ys[k], p) == 0
    ensures PlanMs(ys, userId, planId, p) == PlanMs(xs, userId, planId, p)
    decreases |ys|
  {
    hide ClipMs;
    if ys != [] {
      var n := |ys| - 1;
      if n >= |xs| {
        SamePlanTime(xs, ys[..n], userId, planId, p);
      } else {
        SamePlanTime(xs[..n], ys[..n], userId, planId, p);
        assert ys[n] == xs[n].(stoppedAt := ys[n].stoppedAt);
      }
    }
  }

  lemma {:induction false} AllUnderPlan(ivs: seq<Interval>, userId: string, planId: string, p: Period)
    requires forall k :: 0 <= k < |ivs| && ivs[k].userId == userId && ivs[k].planId != planId ==> ClipMs(ivs[k], p) == 0
    ensures PlanMs(ivs, userId, planId, p) == UserMs(ivs, userId, p)
    decreases |ivs|
  {
    hide ClipMs;
    if ivs != [] {
      AllUnderPlan(ivs[..|ivs| - 1], userId, planId, p);
    }
  }

  lemma EarlierTimeKept(ivs: seq<Interval>, userId: string, planId: string, now: int, after: seq<Interval>,
                        who: string, other: string, p: Period)
    requires SplitAt(ivs, userId, planId, now, after) && p.end <= now
    ensures PlanMs(after, who, other, p) == PlanMs(ivs, who, other, p)
  {
    hide OpenOnes, Mine, PlanMs;
    var running := OpenOnes(Mine(ivs, userId));
    forall k | |ivs| <= k < |after|
      ensures ClipMs(after[k], p) == 0
    {
      var j := k - |ivs|;
      assert after[|ivs| + j] == Resumed(running[j], userId, planId, now);
    }
    SamePlanTime(ivs, after, who, other, p);
  }

  lemma LaterTimeIsNew(ivs: seq<Interval>, userId: string, planId: string, now: int, after: seq<Interval>, p: Period)
    requires IntervalsOk(ivs, now) && SplitAt(ivs, userId, planId, now, after) && p.start >= now
    ensures PlanMs(after, userId, planId, p) == UserMs(after, userId, p)
  {
    hide OpenOnes, Mine, PlanMs, UserMs;
    var running := OpenOnes(Mine(ivs, userId));
    forall k | |ivs| <= k < |after|
      ensures after[k].planId == planId
    {
      var j := k - |ivs|;
      assert after[|ivs| + j] == Resumed(running[j], userId, planId, now);
    }
    AllUnderPlan(after, userId, planId, p);
  }

  /** A switch leaves the past to the plan it ran under, and gives the future to the
      other: in a period that ends by then no user's time under any plan
      has changed, and in one that starts then the account's whole time is under the
      new plan, with no more or less of it. */
  lemma SwitchSplitsTime(b: Books, userId: string, planId: string, now: int, who: string, other: string, p: Period)
    requires IntervalsOk(b.intervals, now) && Switches(b, userId, planId)
    ensures var after := ChangePlan(b, userId, planId, now).0.intervals;
      && (p.end <= now ==> PlanMs(after, who, other, p) == PlanMs(b.intervals, who, other, p))
      && (p.start >= now ==> PlanMs(after, userId, b.plans[planId].id, p) == UserMs(b.intervals, userId, p))
  {
    hide ChangePlan, SplitAt, IntervalsOk, UserMs, PlanMs, UserPlan;
    var after := ChangePlan(b, userId, planId, now).0.intervals;
    SwitchCutsRunning(b, userId, planId, now);
    if p.end <= now {
      EarlierTimeKept(b.intervals, userId, b.plans[planId].id, now, after, who, other, p);
    }
    if p.start >= now {
      LaterTimeIsNew(b.intervals, userId, b.plans[planId].id, now, after, p);
      ChangePlanMovesNoTime(b, userId, planId, now, userId, p);
    }
  }

  // ---------- What is running ----------

  function Keyed(ivs: seq<Interval>): Running {
    seq(|ivs|, k requires 0 <= k < |ivs| => (ivs[k].deploymentId, ivs[k]))
  }

  lemma {:induction false} SetNewKey(m: Running, key: string, i: Interval)
    requires forall k :: 0 <= k < |m| ==> m[k].0 != key
    ensures SetRunning(m, key, i) == m + [(key, i)]
  {
    if m != [] {
      SetNewKey(m[1..], key, i);
    }
  }

  /** Where a deployment has one open interval at most, the burn rate's map is just
      the open intervals: none is shadowed by another. */
  lemma {:induction false} BurnCountsOpen(ivs: seq<Interval>)
    requires forall j, k :: 0 <= j < k < |ivs| && ivs[j].stoppedAt.None? && ivs[k].stoppedAt.None? ==>
      ivs[j].deploymentId != ivs[k].deploymentId
    ensures OpenByDeployment(ivs) == Keyed(OpenOnes(ivs))
    ensures forall i :: i in OpenOnes(ivs) ==> i in ivs && i.stoppedAt.None?
    decreases |ivs|
  {
    if ivs != [] {
      var front, last := ivs[..|ivs| - 1], ivs[|ivs| - 1];
      BurnCountsOpen(front);
      if last.stoppedAt.None? {
        var open := OpenOnes(front);
        forall k | 0 <= k < |open|
          ensures open[k].deploymentId != last.deploymentId
        {
          assert open[k] in front;
        }
        SetNewKey(Keyed(open), last.deploymentId, last);
        assert Keyed(open + [last]) == Keyed(open) + [(last.deploymentId, last)];
      }
    }
  }

  /** So in every reachable state the running servers counted are the deployments
      with an open interval. */
  lemma RunningIsOpen(ivs: seq<Interval>, userId: string, now: int)
    requires IntervalsOk(ivs, now)
    ensures OpenByDeployment(Mine(ivs, userId)) == Keyed(OpenOnes(Mine(ivs, userId)))
  {
    var mine := Mine(ivs, userId);
    MineKeepsOrder(ivs, userId, now);
    BurnCountsOpen(mine);
  }

  lemma {:induction false} MineKeepsOrder(ivs: seq<Interval>, userId: string, now: int)
    requires IntervalsOk(ivs, now)
    ensures IntervalsOk(Mine(ivs, userId), now)
    ensures forall i :: i in Mine(ivs, userId) ==> i in ivs
    decreases |ivs|
  {
    if ivs != [] {
      var front, last := ivs[..|ivs| - 1], ivs[|ivs| - 1];
      MineKeepsOrder(front, userId, now);
      var mine := Mine(front, userId);
      forall k | 0 <= k < |mine| && mine[k].deploymentId == last.deploymentId
        ensures mine[k].stoppedAt.Some? && mine[k].stoppedAt.value <= last.startedAt
      {
        assert mine[k] in mine && mine[k] in front;
        var j :| 0 <= j < |front| && front[j] == mine[k];
        assert ivs[j] == mine[k];
      }
    }
  }

  /** The place of an open interval that no later one of its deployment follows. */
  ghost predicate LastOneOpen(ivs: seq<Interval>, k: nat) {
    && k < |ivs| && ivs[k].stoppedAt.None?
    && forall j :: k < j < |ivs| && ivs[j].stoppedAt.None? ==> ivs[j].deploymentId != ivs[k].deploymentId
  }

  ghost predicate DistinctKeys(m: Running) {
    forall j, k :: 0 <= j < k < |m| ==> m[j].0 != m[k].0
  }

  lemma {:induction false} SetRunningSets(m: Running, key: string, i: Interval)
    requires DistinctKeys(m)
    ensures DistinctKeys(SetRunning(m, key, i))
    ensures forall x :: x in SetRunning(m, key, i) <==> x == (key, i) || (x in m && x.0 != key)
    decreases |m|
  {
    if m != [] {
      var rest := m[1..];
      assert m == [m[0]] + rest;
      assert forall x :: x in rest ==> x.0 != m[0].0;
      SetRunningSets(rest, key, i);
      var r := SetRunning(m, key, i);
      if m[0].0 == key {
        assert r == [(key, i)] + rest;
      } else {
        var s := SetRunning(rest, key, i);
        assert r == [m[0]] + s;
        assert forall k :: 0 <= k < |s| ==> s[k] in s;
      }
    }
  }

  ghost predicate BurnsAs(ivs: seq<Interval>, x: (string, Interval)) {
    exists k: nat :: LastOneOpen(ivs, k) && x == (ivs[k].deploymentId, ivs[k])
  }

  lemma StillLast(ivs: seq<Interval>, last: Interval, x: (string, Interval))
    requires BurnsAs(ivs, x) && (last.stoppedAt.None? ==> x.0 != last.deploymentId)
    ensures BurnsAs(ivs + [last], x)
  {
    var k: nat :| LastOneOpen(ivs, k) && x == (ivs[k].deploymentId, ivs[k]);
    assert LastOneOpen(ivs + [last], k);
  }

  lemma WasLast(ivs: seq<Interval>, last: Interval, x: (string, Interval))
    requires BurnsAs(ivs + [last], x) && x != (last.deploymentId, last)
    ensures BurnsAs(ivs, x) && (last.stoppedAt.None? ==> x.0 != last.deploymentId)
  {
    var all := ivs + [last];
    var k: nat :| LastOneOpen(all, k) && x == (all[k].deploymentId, all[k]);
    assert all[|ivs|] == last && k < |ivs|;
    assert forall j :: 0 <= j < |ivs| ==> all[j] == ivs[j];
    assert LastOneOpen(ivs, k);
  }

  lemma NewestIsLast(ivs: seq<Interval>, last: Interval)
    ensures BurnsAs(ivs + [last], (last.deploymentId, last)) <==> last.stoppedAt.None?
  {
    var all, x := ivs + [last], (last.deploymentId, last);
    if last.stoppedAt.None? {
      assert LastOneOpen(all, |ivs|);
    }
  }

  /** Whatever the intervals, every deployment with an open one burns once, at the price
      of the last of them listed. */
  lemma {:induction false} BurnTakesTheLast(ivs: seq<Interval>)
    ensures DistinctKeys(OpenByDeployment(ivs))
    ensures forall x :: x in OpenByDeployment(ivs) <==> BurnsAs(ivs, x)
    decreases |ivs|
  {
    hide BurnsAs, SetRunning;
    if ivs == [] {
      NothingBurns();
    } else {
      var front, last := ivs[..|ivs| - 1], ivs[|ivs| - 1];
      assert ivs == front + [last];
      BurnTakesTheLast(front);
      SetRunningSets(OpenByDeployment(front), last.deploymentId, last);
      NewestIsLast(front, last);
      forall x | x != (last.deploymentId, last)
        ensures x in OpenByDeployment(ivs) <==> BurnsAs(ivs, x)
      {
        if BurnsAs(ivs, x) {
          WasLast(front, last, x);
        } else if BurnsAs(front, x) && (last.stoppedAt.None? ==> x.0 != last.deploymentId) {
          StillLast(front, last, x);
        }
      }
      if last.stoppedAt.Some? {
        StoppedDoesNotBurn(front, last);
      }
    }
  }

  lemma NothingBurns()
    ensures forall x :: !BurnsAs([], x)
  {
  }

  lemma StoppedDoesNotBurn(ivs: seq<Interval>, last: Interval)
    requires last.stoppedAt.Some?
    ensures !BurnsAs(ivs, (last.deploymentId, last))
  {
  }
}
