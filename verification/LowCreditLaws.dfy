/** Running low: what one check decides, and how often an account hears about it. */
module LowCreditLaws {
  import opened Wrappers
  import opened Calendar
  import opened Pricing
  import opened Standing
  import opened Billing

  /** The outcome of one check of the runway. */
  datatype LowCreditStep = Warn | Clear | Nothing

  function LowCredit(hoursLeft: Option<int>, thresholdHours: real, warned: bool): LowCreditStep {
    if hoursLeft.None? then Nothing
    else if hoursLeft.value as real / 10.0 < thresholdHours then (if warned then Nothing else Warn)
    else if warned then Clear
    else Nothing
  }

  /** One check of an account: its runway, and whether a warning would be taken. */
  datatype Check = Check(hoursLeft: Option<int>, sent: bool)

  /** Whether a warning stands after the first `n` checks. */
  function WarningStands(checks: seq<Check>, threshold: real, n: nat): bool
    requires n <= |checks|
  {
    if n == 0 then false
    else
      var before, c := WarningStands(checks, threshold, n - 1), checks[n - 1];
      match LowCredit(c.hoursLeft, threshold, before)
      case Warn => c.sent
      case Clear => false
      case Nothing => before
  }

  predicate Told(checks: seq<Check>, threshold: real, k: nat)
    requires k < |checks|
  {
    checks[k].sent && LowCredit(checks[k].hoursLeft, threshold, WarningStands(checks, threshold, k)) == Warn
  }

  predicate Short(c: Check, threshold: real) {
    c.hoursLeft.Some? && c.hoursLeft.value as real / 10.0 < threshold
  }

  predicate Long(c: Check, threshold: real) {
    c.hoursLeft.Some? && !Short(c, threshold)
  }

  /** Told at check `j`, and credit has not lasted the threshold again before `n`. */
  ghost predicate ToldSince(checks: seq<Check>, threshold: real, j: nat, n: nat)
    requires j < n <= |checks|
  {
    Told(checks, threshold, j) && forall m :: j < m < n ==> !Long(checks[m], threshold)
  }

  /** A warning stands from the check that sent it until credit lasts again. */
  lemma {:induction false} StandsSince(checks: seq<Check>, threshold: real, n: nat)
    requires n <= |checks|
    ensures WarningStands(checks, threshold, n) <==> exists j :: 0 <= j < n && ToldSince(checks, threshold, j, n)
  {
    if n > 0 {
      StandsSince(checks, threshold, n - 1);
      if Told(checks, threshold, n - 1) {
        assert ToldSince(checks, threshold, n - 1, n);
      } else {
        StandsKept(checks, threshold, n - 1, n);
      }
    }
  }

  /** A check that tells nobody keeps the reason a warning stands, unless credit lasts. */
  lemma StandsKept(checks: seq<Check>, threshold: real, m: nat, n: nat)
    requires m + 1 == n <= |checks| && !Told(checks, threshold, m)
    requires WarningStands(checks, threshold, m) <==> exists j :: 0 <= j < m && ToldSince(checks, threshold, j, m)
    ensures WarningStands(checks, threshold, n) <==> exists j :: 0 <= j < n && ToldSince(checks, threshold, j, n)
  {
    if !Long(checks[m], threshold) && WarningStands(checks, threshold, m) {
      var j :| 0 <= j < m && ToldSince(checks, threshold, j, m);
      assert ToldSince(checks, threshold, j, n);
    }
    if exists j :: 0 <= j < n && ToldSince(checks, threshold, j, n) {
      var j :| 0 <= j < n && ToldSince(checks, threshold, j, n);
      assert ToldSince(checks, threshold, j, m);
      assert !Long(checks[m], threshold);
    }
  }

  /** An account is told exactly when its credit is short, the warning is taken, and
      since the last time it was told its credit has lasted again: once per dip. */
  lemma ToldOncePerDip(checks: seq<Check>, threshold: real, k: nat)
    requires k < |checks|
    ensures Told(checks, threshold, k) <==>
      && Short(checks[k], threshold) && checks[k].sent
      && forall j :: 0 <= j < k && Told(checks, threshold, j) ==> exists m :: j < m < k && Long(checks[m], threshold)
  {
    StandsSince(checks, threshold, k);
    assert forall j :: 0 <= j < k ==> (ToldSince(checks, threshold, j, k) <==>
      Told(checks, threshold, j) && !exists m :: j < m < k && Long(checks[m], threshold));
  }

  /** What the low-credit check decides for an account, given whether a warning stands. */
  function Step(b: Books, warned: bool, userId: string, now: int, lowCreditHours: real): LowCreditStep {
    var s := StandingOf(b, userId, now, lowCreditHours);
    if OpenOnes(Mine(b.intervals, userId)) == [] || !s.canRun then Nothing
    else LowCredit(s.hoursLeft, lowCreditHours, warned)
  }

  lemma StepNeverClearsUnwarned(b: Books, userId: string, now: int, lowCreditHours: real)
    ensures Step(b, false, userId, now, lowCreditHours) != Clear
    ensures Step(b, true, userId, now, lowCreditHours) != Warn
  {
    hide ComputeStanding;
  }

  // ---------- Rounds of warnings ----------

  /** One round over all accounts: whom it told, and the marks it left. `had` is the
      accounts with a warning standing before, `taken` those whose warning the broker
      takes. */
  ghost predicate WarnedRound(b: Books, had: set<string>, taken: set<string>, now: int, low: real,
                              told: seq<string>, marked: set<string>)
  {
    && Distinct(told)
    && (forall u :: u in told <==> Billable(b, u) && u in taken && Step(b, u in had, u, now, low) == Warn)
    && (forall u :: u in marked <==>
      u in told || (u in had && !(Billable(b, u) && Step(b, true, u, now, low) == Clear)))
  }

  /** A round at some instant, over the books as they are then. */
  datatype Round = Round(books: Books, now: int, taken: set<string>, told: seq<string>)

  /** Whom a round tells: the accounts with servers running that may run them, whose
      credit runs low, with no warning standing, if the broker takes the warning. */
  lemma WhoIsTold(b: Books, had: set<string>, taken: set<string>, now: int, low: real,
                  told: seq<string>, marked: set<string>, userId: string)
    requires WarnedRound(b, had, taken, now, low, told, marked)
    ensures var s := StandingOf(b, userId, now, low);
      userId in told <==>
        userId in taken && userId !in had && s.canRun && s.runsLow &&
        exists i :: i in Mine(b.intervals, userId) && i.stoppedAt.None?
  {
    hide RunwayOf, Mine, OpenOnes, Billable, BurnRate, RunwayHours, CycleCost, PreviousMonthPeriod, FreeLeft, HoursIn;
    StepIsCheck(b, userId in had, userId, now, low);
    SomeOpen(Mine(b.intervals, userId));
  }

  lemma {:induction false} SomeOpen(ivs: seq<Interval>)
    ensures OpenOnes(ivs) != [] <==> exists i :: i in ivs && i.stoppedAt.None?
    decreases |ivs|
  {
    if ivs != [] {
      SomeOpen(ivs[..|ivs| - 1]);
      assert ivs == ivs[..|ivs| - 1] + [ivs[|ivs| - 1]];
    }
  }

  /** Rounds one after the other. Between two of them any calls may change the books;
      the marks are changed by the rounds alone. */
  ghost predicate Rounds(rounds: seq<Round>, marks: seq<set<string>>, low: real) {
    && |marks| == |rounds| + 1 && marks[0] == {}
    && forall k, n :: 0 <= k && n == k + 1 && n < |marks| ==>
         WarnedRound(rounds[k].books, marks[k], rounds[k].taken, rounds[k].now, low, rounds[k].told, marks[n])
  }

  /** The runway of an account that runs servers and may run them. */
  function RunwayOf(b: Books, userId: string, now: int, low: real): Option<int> {
    if OpenOnes(Mine(b.intervals, userId)) == [] || !StandingOf(b, userId, now, low).canRun then None
    else StandingOf(b, userId, now, low).hoursLeft
  }

  /** The rounds as one account sees them. */
  function ChecksOf(rounds: seq<Round>, userId: string, low: real): seq<Check> {
    seq(|rounds|, k requires 0 <= k < |rounds| =>
      Check(RunwayOf(rounds[k].books, userId, rounds[k].now, low), userId in rounds[k].taken))
  }

  lemma StepIsCheck(b: Books, warned: bool, userId: string, now: int, low: real)
    ensures Step(b, warned, userId, now, low) == LowCredit(RunwayOf(b, userId, now, low), low, warned)
    ensures Step(b, warned, userId, now, low) != Nothing ==> Billable(b, userId)
  {
    hide ComputeStanding;
    if OpenOnes(Mine(b.intervals, userId)) != [] {
      RunnersAreBillable(b.intervals, userId);
      var k :| 0 <= k < |b.intervals| && b.intervals[k].userId == userId;
      assert b.intervals[k].userId == userId;
    }
  }

  lemma {:induction false} RunnersAreBillable(ivs: seq<Interval>, userId: string)
    requires Mine(ivs, userId) != []
    ensures exists k :: 0 <= k < |ivs| && ivs[k].userId == userId
    decreases |ivs|
  {
    var n := |ivs| - 1;
    if ivs[n].userId != userId {
      RunnersAreBillable(ivs[..n], userId);
      var k :| 0 <= k < n && ivs[..n][k].userId == userId;
      assert ivs[k].userId == userId;
    }
  }

  lemma {:induction false} MarksAreStanding(rounds: seq<Round>,
                                            marks: seq<set<string>>, low: real, userId: string, n: nat)
    requires Rounds(rounds, marks, low) && n <= |rounds|
    ensures userId in marks[n] <==> WarningStands(ChecksOf(rounds, userId, low), low, n)
    ensures n < |rounds| ==> (userId in rounds[n].told <==> Told(ChecksOf(rounds, userId, low), low, n))
  {
    hide Step, LowCredit, RunwayOf, Billable;
    if n > 0 {
      MarksAreStanding(rounds, marks, low, userId, n - 1);
      MarkAfter(rounds, marks, low, userId, n - 1, n);
    }
    if n < |rounds| {
      StepIsCheck(rounds[n].books, userId in marks[n], userId, rounds[n].now, low);
      var m := n + 1;
      assert WarnedRound(rounds[n].books, marks[n], rounds[n].taken, rounds[n].now, low, rounds[n].told, marks[m]);
    }
  }

  lemma MarkAfter(rounds: seq<Round>, marks: seq<set<string>>, low: real, userId: string, k: nat, n: nat)
    requires Rounds(rounds, marks, low) && n == k + 1 && n <= |rounds|
    requires userId in marks[k] <==> WarningStands(ChecksOf(rounds, userId, low), low, k)
    ensures userId in marks[n] <==> WarningStands(ChecksOf(rounds, userId, low), low, n)
  {
    var r := rounds[k];
    assert WarnedRound(r.books, marks[k], r.taken, r.now, low, r.told, marks[n]);
    StepIsCheck(r.books, userId in marks[k], userId, r.now, low);
    StepIsCheck(r.books, true, userId, r.now, low);
    hide Step, RunwayOf, Billable;
  }

  predicate RunsShort(r: Round, userId: string, low: real) {
    var left := RunwayOf(r.books, userId, r.now, low);
    left.Some? && left.value as real / 10.0 < low
  }

  predicate LastsLong(r: Round, userId: string, low: real) {
    var left := RunwayOf(r.books, userId, r.now, low);
    left.Some? && !(left.value as real / 10.0 < low)
  }

  /** Through any sequence of rounds, with any other calls between them, an account is
      told in a round exactly when its credit runs short then, the broker takes the
      warning, and since every earlier telling its credit was once seen to last. */
  lemma WarnedOncePerDip(rounds: seq<Round>, marks: seq<set<string>>, low: real, userId: string, k: nat)
    requires Rounds(rounds, marks, low) && k < |rounds|
    ensures userId in rounds[k].told <==>
      && RunsShort(rounds[k], userId, low) && userId in rounds[k].taken
      && forall j :: 0 <= j < k && userId in rounds[j].told ==>
        exists m :: j < m < k && LastsLong(rounds[m], userId, low)
  {
    hide RunwayOf, WarnedRound, Told, WarningStands;
    var checks := ChecksOf(rounds, userId, low);
    ToldOncePerDip(checks, low, k);
    forall j: nat | j <= k
      ensures userId in rounds[j].told <==> Told(checks, low, j)
      ensures Long(checks[j], low) <==> LastsLong(rounds[j], userId, low)
      ensures Short(checks[j], low) <==> RunsShort(rounds[j], userId, low)
    {
      MarksAreStanding(rounds, marks, low, userId, j);
    }
  }
}
