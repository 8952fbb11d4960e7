/** The gateway's token bucket: how much it lets through, and what it never refuses. */
module TokenBucket {
  import opened Wrappers

  datatype Limits = Limits(ratePerSec: real, burst: real)

  datatype Bucket = Bucket(tokens: real, lastRefillMs: real)

  /** Tokens earned in a number of milliseconds. */
  function Earned(l: Limits, ms: real): real {
    ms / 1000.0 * l.ratePerSec
  }

  lemma EarnedAdds(l: Limits, a: real, b: real)
    ensures Earned(l, a) + Earned(l, b) == Earned(l, a + b)
  {
  }

  lemma EarnedGrows(l: Limits, a: real, b: real)
    requires l.ratePerSec >= 0.0 && a <= b
    ensures Earned(l, a) <= Earned(l, b) && Earned(l, 0.0) == 0.0
  {
    EarnedAdds(l, a, b - a);
    assert Earned(l, b - a) >= 0.0 by {
      assert (b - a) / 1000.0 >= 0.0;
    }
  }

  /** What the bucket holds at `now`; a key never seen has a full one. */
  function Level(l: Limits, bucket: Option<Bucket>, now: real): real {
    var b := if bucket.Some? then bucket.value else Bucket(l.burst, now);
    MinReal(l.burst, b.tokens + Earned(l, MaxReal(0.0, now - b.lastRefillMs)))
  }

  function Spend(l: Limits, bucket: Option<Bucket>, now: real): Bucket {
    var level := Level(l, bucket, now);
    Bucket(if level >= 1.0 then level - 1.0 else level, now)
  }

  /** The bucket of a key called at the given times. */
  function After(l: Limits, times: seq<real>): Option<Bucket> {
    if times == [] then None
    else Some(Spend(l, After(l, times[..|times| - 1]), times[|times| - 1]))
  }

  /** Whether the last of the calls is let through. */
  predicate LastAllowed(l: Limits, times: seq<real>)
    requires times != []
  {
    Level(l, After(l, times[..|times| - 1]), times[|times| - 1]) >= 1.0
  }

  /** How many of the calls between two times are let through. */
  function AllowedIn(l: Limits, times: seq<real>, t1: real, t2: real): nat {
    if times == [] then 0
    else
      var last := times[|times| - 1];
      AllowedIn(l, times[..|times| - 1], t1, t2) + if t1 <= last <= t2 && LastAllowed(l, times) then 1 else 0
  }

  ghost predicate Forward(times: seq<real>) {
    forall j, k :: 0 <= j < k < |times| ==> times[j] <= times[k]
  }

  ghost predicate Sane(l: Limits) {
    l.ratePerSec >= 0.0 && l.burst >= 0.0
  }

  lemma LevelInRange(l: Limits, bucket: Option<Bucket>, now: real)
    requires Sane(l) && (bucket.Some? ==> 0.0 <= bucket.value.tokens <= l.burst)
    ensures 0.0 <= Level(l, bucket, now) <= l.burst
  {
    var b := if bucket.Some? then bucket.value else Bucket(l.burst, now);
    EarnedGrows(l, 0.0, MaxReal(0.0, now - b.lastRefillMs));
  }

  /** Whatever the clock does, a bucket never holds less than nothing or more than the burst. */
  lemma {:induction false} TokensInRange(l: Limits, times: seq<real>)
    requires Sane(l)
    ensures After(l, times).Some? ==> 0.0 <= After(l, times).value.tokens <= l.burst
  {
    if times != [] {
      var before := times[..|times| - 1];
      TokensInRange(l, before);
      LevelInRange(l, After(l, before), times[|times| - 1]);
    }
  }

  lemma {:induction false} NoneBefore(l: Limits, times: seq<real>, t1: real, t2: real)
    requires forall k :: 0 <= k < |times| ==> times[k] < t1
    ensures AllowedIn(l, times, t1, t2) == 0
  {
    if times != [] {
      NoneBefore(l, times[..|times| - 1], t1, t2);
    }
  }

  /** One call pays for itself out of what was there and what was earned since. */
  lemma SpendPays(l: Limits, bucket: Bucket, now: real)
    requires Sane(l) && bucket.lastRefillMs <= now
    ensures Spend(l, Some(bucket), now).tokens + (if Level(l, Some(bucket), now) >= 1.0 then 1.0 else 0.0)
         <= bucket.tokens + Earned(l, now - bucket.lastRefillMs)
  {
    hide Earned;
  }

  /** The calls let through since `t1` and the tokens left are covered by one burst
      and what was earned since. */
  lemma {:induction false} WindowPays(l: Limits, times: seq<real>, t1: real, t2: real)
    requires Sane(l) && Forward(times) && times != [] && t1 <= times[|times| - 1] <= t2
    ensures AllowedIn(l, times, t1, t2) as real + After(l, times).value.tokens
         <= l.burst + Earned(l, times[|times| - 1] - t1)
  {
    hide Earned, Level, Spend;
    var before, now := times[..|times| - 1], times[|times| - 1];
    TokensInRange(l, before);
    if before == [] || before[|before| - 1] < t1 {
      NoneBefore(l, before, t1, t2);
      FirstInWindow(l, After(l, before), now);
      EarnedGrows(l, 0.0, now - t1);
    } else {
      WindowPays(l, before, t1, t2);
      var last := before[|before| - 1];
      AfterKeepsTime(l, before);
      SpendPays(l, After(l, before).value, now);
      EarnedAdds(l, last - t1, now - last);
    }
  }

  lemma FirstInWindow(l: Limits, bucket: Option<Bucket>, now: real)
    ensures Spend(l, bucket, now).tokens + (if Level(l, bucket, now) >= 1.0 then 1.0 else 0.0) <= l.burst
  {
    hide Earned;
  }

  lemma AfterKeepsTime(l: Limits, times: seq<real>)
    requires times != []
    ensures After(l, times).value.lastRefillMs == times[|times| - 1]
  {
  }

  /** With a nondecreasing clock no window lets through more than one burst and
      the rate times its length. */
  lemma {:induction false} WindowBound(l: Limits, times: seq<real>, t1: real, t2: real)
    requires Sane(l) && Forward(times) && t1 <= t2
    ensures AllowedIn(l, times, t1, t2) as real <= l.burst + l.ratePerSec * (t2 - t1) / 1000.0
  {
    assert Earned(l, t2 - t1) == l.ratePerSec * (t2 - t1) / 1000.0;
    hide Earned, Level, Spend;
    EarnedGrows(l, 0.0, t2 - t1);
    if times != [] {
      var last := times[|times| - 1];
      if last < t1 {
        NoneBefore(l, times, t1, t2);
      } else if last <= t2 {
        WindowPays(l, times, t1, t2);
        TokensInRange(l, times);
        EarnedGrows(l, last - t1, t2 - t1);
      } else {
        WindowBound(l, times[..|times| - 1], t1, t2);
      }
    }
  }

  /** Calls at least one token's time apart. */
  ghost predicate Spaced(l: Limits, times: seq<real>) {
    forall j, k :: 0 <= j && k == j + 1 && k < |times| ==> (times[k] - times[j]) * l.ratePerSec >= 1000.0
  }

  /** A caller who keeps that distance is never refused, if the burst is at least one. */
  lemma SpacedIsAllowed(l: Limits, times: seq<real>)
    requires l.ratePerSec > 0.0 && l.burst >= 1.0 && Forward(times) && Spaced(l, times) && times != []
    ensures LastAllowed(l, times)
  {
    var before, now := times[..|times| - 1], times[|times| - 1];
    if before != [] {
      var last := before[|before| - 1];
      TokensInRange(l, before);
      AfterKeepsTime(l, before);
      assert (now - last) * l.ratePerSec >= 1000.0;
      EarnedEnough(l, now - last);
      FullEnough(l, After(l, before).value, now);
    } else {
      EarnedGrows(l, 0.0, 0.0);
    }
  }

  lemma FullEnough(l: Limits, bucket: Bucket, now: real)
    requires l.burst >= 1.0 && bucket.tokens >= 0.0 && bucket.lastRefillMs <= now &&
      Earned(l, now - bucket.lastRefillMs) >= 1.0
    ensures Level(l, Some(bucket), now) >= 1.0
  {
    hide Earned;
  }

  lemma EarnedEnough(l: Limits, ms: real)
    requires ms * l.ratePerSec >= 1000.0
    ensures Earned(l, ms) >= 1.0
  {
    assert Earned(l, ms) == ms * l.ratePerSec / 1000.0;
  }

  /** Of calls all at one instant exactly those that fit in the burst are let through. */
  lemma {:induction false} BurstIsExact(l: Limits, times: seq<real>)
    requires Sane(l) && times != [] && forall k :: 0 <= k < |times| ==> times[k] == times[0]
    ensures LastAllowed(l, times) <==> |times| as real <= l.burst
    ensures |times| as real <= l.burst ==> After(l, times).value.tokens == l.burst - |times| as real
    ensures |times| as real > l.burst ==> After(l, times).value.tokens < 1.0
  {
    var before, now := times[..|times| - 1], times[|times| - 1];
    EarnedGrows(l, 0.0, 0.0);
    TokensInRange(l, before);
    hide Earned;
    if before != [] {
      BurstIsExact(l, before);
      AfterKeepsTime(l, before);
    }
  }

  // --- Exactly who is let through ---

  /** How far the clock has moved forward since the first call; steps back do not count. */
  function Elapsed(times: seq<real>): real {
    if |times| <= 1 then 0.0
    else Elapsed(times[..|times| - 1]) + MaxReal(0.0, times[|times| - 1] - times[|times| - 2])
  }

  /** How many of the calls from the `j`th on are let through. */
  function AllowedFrom(l: Limits, times: seq<real>, j: nat): nat {
    if |times| <= j then 0
    else AllowedFrom(l, times[..|times| - 1], j) + if LastAllowed(l, times) then 1 else 0
  }

  /** What one burst and so many milliseconds amount to. */
  function Within(l: Limits, ms: real): real {
    l.burst + l.ratePerSec * ms / 1000.0
  }

  /** What one burst and the time from the `j`th call to the last amount to. */
  function Budget(l: Limits, times: seq<real>, j: nat): real
    requires j < |times|
  {
    Within(l, Elapsed(times) - Elapsed(times[..j + 1]))
  }

  /** The calls let through from the `j`th on, and `x` more, are within that budget. */
  predicate Affords(l: Limits, times: seq<real>, j: nat, x: real)
    requires j < |times|
  {
    AllowedFrom(l, times[..|times| - 1], j) as real + x <= Budget(l, times, j)
  }

  lemma BudgetGrows(l: Limits, times: seq<real>, j: nat)
    requires j + 1 < |times|
    ensures var before := times[..|times| - 1];
      Budget(l, times, j) == Budget(l, before, j) +
        Earned(l, MaxReal(0.0, times[|times| - 1] - times[|times| - 2]))
  {
    var before := times[..|times| - 1];
    var step := MaxReal(0.0, times[|times| - 1] - times[|times| - 2]);
    assert before[..j + 1] == times[..j + 1];
    RateDistributes(l.ratePerSec, Elapsed(before) - Elapsed(before[..j + 1]), step);
  }

  lemma RateDistributes(rate: real, a: real, b: real)
    ensures rate * (a + b) / 1000.0 == rate * a / 1000.0 + b / 1000.0 * rate
  {
  }

  /** The bucket holds `x` tokens at the last call exactly when every stretch of calls
      up to it affords `x` more. */
  lemma {:induction false} LevelIsBudget(l: Limits, times: seq<real>, x: real)
    requires times != []
    ensures Level(l, After(l, times[..|times| - 1]), times[|times| - 1]) >= x
      <==> forall j :: 0 <= j < |times| ==> Affords(l, times, j, x)
    decreases |times|
  {
    hide Earned, Budget;
    var n := |times| - 1;
    var before := times[..n];
    WholeBudget(l, times);
    if n == 0 {
      assert Affords(l, times, 0, x) <==> x <= l.burst;
      NothingEarned(l);
    } else {
      var step := Earned(l, MaxReal(0.0, times[n] - times[n - 1]));
      var spent := if LastAllowed(l, before) then 1.0 else 0.0;
      var y := x + spent - step;
      LevelIsBudget(l, before, y);
      LevelAfter(l, before, times[n]);
      forall j | 0 <= j < n
        ensures Affords(l, times, j, x) <==> Affords(l, before, j, y)
      {
        BudgetGrows(l, times, j);
      }
      assert Affords(l, times, n, x) <==> x <= l.burst;
      hide Affords;
      assert (forall j :: 0 <= j < |times| ==> Affords(l, times, j, x)) <==>
        (forall j :: 0 <= j < n ==> Affords(l, before, j, y)) && Affords(l, times, n, x);
    }
  }

  lemma NothingEarned(l: Limits)
    ensures Earned(l, 0.0) == 0.0
  {
  }

  lemma WholeBudget(l: Limits, times: seq<real>)
    requires times != []
    ensures Budget(l, times, |times| - 1) == l.burst
  {
    assert times[..|times| - 1 + 1] == times;
  }

  /** From one call to the next: what was left, and what was earned, up to the burst. */
  lemma LevelAfter(l: Limits, before: seq<real>, now: real)
    requires before != []
    ensures var n := |before| - 1;
      var left := Level(l, After(l, before[..n]), before[n]) - (if LastAllowed(l, before) then 1.0 else 0.0);
      Level(l, After(l, before), now) == MinReal(l.burst, left + Earned(l, MaxReal(0.0, now - before[n])))
  {
    hide Earned;
  }

  /** Whatever the clock does, a call is let through exactly when, counted from any
      earlier call or from itself, it and the calls let through are within one burst
      and the rate times the time that has passed since. */
  lemma AllowedExactly(l: Limits, times: seq<real>)
    requires times != []
    ensures LastAllowed(l, times) <==>
      forall j :: 0 <= j < |times| ==>
        AllowedFrom(l, times[..|times| - 1], j) as real + 1.0 <= Budget(l, times, j)
  {
    hide Budget;
    LevelIsBudget(l, times, 1.0);
    assert forall j :: 0 <= j < |times| ==> (Affords(l, times, j, 1.0) <==>
      AllowedFrom(l, times[..|times| - 1], j) as real + 1.0 <= Budget(l, times, j));
  }

  lemma ForwardFront(times: seq<real>)
    requires Forward(times) && |times| > 1
    ensures Forward(times[..|times| - 1]) && times[|times| - 2] <= times[|times| - 1]
  {
  }

  lemma {:induction false} ElapsedForward(times: seq<real>, j: nat)
    requires Forward(times) && j < |times|
    ensures Elapsed(times) - Elapsed(times[..j + 1]) == times[|times| - 1] - times[j]
    decreases |times|
  {
    hide Forward;
    var n := |times| - 1;
    if j == n {
      assert times[..j + 1] == times;
    } else {
      ForwardFront(times);
      ElapsedForward(times[..n], j);
      assert times[..n][..j + 1] == times[..j + 1];
    }
  }

  /** With a nondecreasing clock the time is the one between the two calls. */
  lemma AllowedExactlyForward(l: Limits, times: seq<real>)
    requires Forward(times) && times != []
    ensures LastAllowed(l, times) <==>
      forall j :: 0 <= j < |times| ==>
        AllowedFrom(l, times[..|times| - 1], j) as real + 1.0 <= Within(l, times[|times| - 1] - times[j])
  {
    hide LastAllowed, AllowedFrom, Within, Elapsed;
    AllowedExactly(l, times);
    forall j | 0 <= j < |times|
      ensures Budget(l, times, j) == Within(l, times[|times| - 1] - times[j])
    {
      ElapsedForward(times, j);
    }
  }

  // --- The limiter ---

  datatype Call = Call(key: string, at: real)

  ghost function TimesOf(calls: seq<Call>, key: string): seq<real> {
    if calls == [] then []
    else
      var before, last := TimesOf(calls[..|calls| - 1], key), calls[|calls| - 1];
      if last.key == key then before + [last.at] else before
  }

  lemma {:induction false} TimesForward(calls: seq<Call>, key: string, now: real)
    requires forall j, k :: 0 <= j < k < |calls| ==> calls[j].at <= calls[k].at
    requires forall k :: 0 <= k < |calls| ==> calls[k].at <= now
    ensures Forward(TimesOf(calls, key)) && forall k :: 0 <= k < |TimesOf(calls, key)| ==> TimesOf(calls, key)[k] <= now
  {
    if calls != [] {
      TimesForward(calls[..|calls| - 1], key, calls[|calls| - 1].at);
    }
  }

  /** Each key by itself stays within one burst and the rate, whatever the others do. */
  lemma EveryKeyIsLimited(l: Limits, calls: seq<Call>, key: string, t1: real, t2: real)
    requires Sane(l) && t1 <= t2 && forall j, k :: 0 <= j < k < |calls| ==> calls[j].at <= calls[k].at
    ensures AllowedIn(l, TimesOf(calls, key), t1, t2) as real <= l.burst + l.ratePerSec * (t2 - t1) / 1000.0
  {
    if calls != [] {
      TimesForward(calls, key, calls[|calls| - 1].at);
    }
    WindowBound(l, TimesOf(calls, key), t1, t2);
  }

  class RateLimiter {
    const opts: Limits
    var buckets: map<string, Bucket>
    /** Every call so far. */
    ghost var calls: seq<Call>

    ghost function Of(key: string): Option<Bucket>
      reads this
    {
      if key in buckets then Some(buckets[key]) else None
    }

    ghost predicate Valid()
      reads this
    {
      forall key :: Of(key) == After(opts, TimesOf(calls, key))
    }

    constructor (opts: Limits)
      ensures Valid() && this.opts == opts && calls == []
    {
      this.opts := opts;
      buckets, calls := map[], [];
    }

    /** Lets the call through or not, by the earlier calls of the same key alone. */
    method Allow(key: string, nowMs: real) returns (allowed: bool)
      requires Valid()
      modifies this
      ensures Valid() && calls == old(calls) + [Call(key, nowMs)]
      ensures TimesOf(calls, key) == TimesOf(old(calls), key) + [nowMs]
      ensures allowed == LastAllowed(opts, TimesOf(calls, key))
      ensures allowed <==> forall j :: 0 <= j < |TimesOf(calls, key)| ==>
        AllowedFrom(opts, TimesOf(old(calls), key), j) as real + 1.0 <= Budget(opts, TimesOf(calls, key), j)
      ensures forall other :: other != key ==> Of(other) == old(Of(other))
    {
      hide Earned, After, Spend, TimesOf, LastAllowed, AllowedFrom, Budget;
      TimesOfOneMore(calls, Call(key, nowMs));
      var bucket := if key in buckets then buckets[key] else Bucket(opts.burst, nowMs);
      var elapsedSec := MaxReal(0.0, (nowMs - bucket.lastRefillMs) / 1000.0);
      var refilled := MinReal(opts.burst, bucket.tokens + elapsedSec * opts.ratePerSec);
      allowed := refilled >= 1.0;
      var tokens := if allowed then refilled - 1.0 else refilled;
      assert refilled == Level(opts, Of(key), nowMs) by {
        ElapsedIsEarned(opts, nowMs - bucket.lastRefillMs);
      }
      assert old(Of(key)) == After(opts, TimesOf(calls, key));
      buckets := buckets[key := Bucket(tokens, nowMs)];
      calls := calls + [Call(key, nowMs)];
      AfterOneMore(opts, TimesOf(old(calls), key), nowMs);
      AllowedExactly(opts, TimesOf(calls, key));
      assert TimesOf(calls, key)[..|TimesOf(calls, key)| - 1] == TimesOf(old(calls), key);
      assert Spend(opts, old(Of(key)), nowMs) == Bucket(tokens, nowMs) by {
        SpendIs(opts, old(Of(key)), nowMs);
      }
      forall k
        ensures Of(k) == After(opts, TimesOf(calls, k))
      {
        assert old(Of(k)) == After(opts, TimesOf(old(calls), k));
      }
    }
  }

  lemma SpendIs(l: Limits, bucket: Option<Bucket>, now: real)
    ensures Spend(l, bucket, now) ==
      Bucket(if Level(l, bucket, now) >= 1.0 then Level(l, bucket, now) - 1.0 else Level(l, bucket, now), now)
  {
  }

  lemma TimesOfOneMore(calls: seq<Call>, call: Call)
    ensures TimesOf(calls + [call], call.key) == TimesOf(calls, call.key) + [call.at]
    ensures forall other :: other != call.key ==> TimesOf(calls + [call], other) == TimesOf(calls, other)
  {
    assert (calls + [call])[..|calls|] == calls;
  }

  lemma ElapsedIsEarned(l: Limits, ms: real)
    ensures MaxReal(0.0, ms / 1000.0) * l.ratePerSec == Earned(l, MaxReal(0.0, ms))
  {
  }

  lemma AfterOneMore(l: Limits, times: seq<real>, now: real)
    ensures After(l, times + [now]) == Some(Spend(l, After(l, times), now))
    ensures LastAllowed(l, times + [now]) <==> Level(l, After(l, times), now) >= 1.0
  {
    assert (times + [now])[..|times|] == times;
  }
}
