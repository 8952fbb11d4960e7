/** UTC calendar months over epoch milliseconds: month 0 is January 1970. */
module Calendar {
  const MS_PER_DAY := 86_400_000

  /** The instants from `start` up to, and without, `end`. */
  datatype Period = Period(start: int, end: int)

  predicate IsLeap(y: int) {
    y % 4 == 0 && (y % 100 != 0 || y % 400 == 0)
  }

  /** The days of month `k`, which is month `k % 12` of the Gregorian year
      `1970 + k / 12`. */
  function DaysIn(k: int): (days: int)
    ensures 28 <= days <= 31
  {
    var m := k % 12;
    if m == 1 then (if IsLeap(1970 + k / 12) then 29 else 28)
    else if m == 3 || m == 5 || m == 8 || m == 10 then 30
    else 31
  }

  function MonthStart(k: int): int
    decreases if k < 0 then -k else k
  {
    if k == 0 then 0
    else if k > 0 then MonthStart(k - 1) + MS_PER_DAY * DaysIn(k - 1)
    else MonthStart(k + 1) - MS_PER_DAY * DaysIn(k)
  }

  lemma MonthLength(k: int)
    ensures MonthStart(k + 1) == MonthStart(k) + MS_PER_DAY * DaysIn(k)
  {
  }

  /** Leap days in the years 1 to `y - 1`. */
  function LeapDaysBefore(y: int): int {
    (y - 1) / 4 - (y - 1) / 100 + (y - 1) / 400
  }

  lemma MonthOfYear(k: int, j: int)
    requires 0 <= j < 12
    ensures DaysIn(12 * k + j) ==
      if j == 1 then (if IsLeap(1970 + k) then 29 else 28) else if j == 3 || j == 5 || j == 8 || j == 10 then 30 else 31
  {
    hide IsLeap;
    assert (12 * k + j) % 12 == j && (12 * k + j) / 12 == k;
  }

  lemma NextMonthOfYear(k: int, j: int)
    requires 0 <= j < 12
    ensures MonthStart(12 * k + (j + 1)) == MonthStart(12 * k + j) + MS_PER_DAY *
      if j == 1 then (if IsLeap(1970 + k) then 29 else 28) else if j == 3 || j == 5 || j == 8 || j == 10 then 30 else 31
  {
    hide MonthStart, DaysIn, IsLeap;
    MonthLength(12 * k + j);
    MonthOfYear(k, j);
  }

  lemma OneYear(k: int)
    ensures MonthStart(12 * (k + 1)) == MonthStart(12 * k) + MS_PER_DAY * (365 + if IsLeap(1970 + k) then 1 else 0)
  {
    hide MonthStart, IsLeap;
    NextMonthOfYear(k, 0); NextMonthOfYear(k, 1); NextMonthOfYear(k, 2); NextMonthOfYear(k, 3);
    NextMonthOfYear(k, 4); NextMonthOfYear(k, 5); NextMonthOfYear(k, 6); NextMonthOfYear(k, 7);
    NextMonthOfYear(k, 8); NextMonthOfYear(k, 9); NextMonthOfYear(k, 10); NextMonthOfYear(k, 11);
    assert 12 * k + 0 == 12 * k && 12 * k + 12 == 12 * (k + 1);
  }

  lemma Next4(y: int)
    ensures y / 4 == (y - 1) / 4 + if y % 4 == 0 then 1 else 0
  {
  }

  lemma Next100(y: int)
    ensures y / 100 == (y - 1) / 100 + if y % 100 == 0 then 1 else 0
  {
  }

  lemma Next400(y: int)
    ensures y / 400 == (y - 1) / 400 + if y % 400 == 0 then 1 else 0
  {
  }

  lemma LeapDaysStep(y: int)
    ensures LeapDaysBefore(y + 1) == LeapDaysBefore(y) + if IsLeap(y) then 1 else 0
  {
    Next4(y);
    Next100(y);
    Next400(y);
    LeapIsRare(y);
  }

  lemma LeapIsRare(y: int)
    ensures y % 400 == 0 ==> y % 100 == 0
    ensures y % 100 == 0 ==> y % 4 == 0
  {
  }

  /** Every year starts as many days after 1970 as the Gregorian calendar says. */
  lemma {:induction false} YearStart(y: int)
    ensures MonthStart(12 * (y - 1970)) == MS_PER_DAY * (365 * (y - 1970) + LeapDaysBefore(y) - LeapDaysBefore(1970))
    decreases if y < 1970 then 1970 - y else y - 1970
  {
    hide MonthStart, LeapDaysBefore, IsLeap;
    if y == 1970 {
      EpochStart();
    } else if y > 1970 {
      YearStart(y - 1);
      OneYear(y - 1971);
      LeapDaysStep(y - 1);
    } else {
      YearStart(y + 1);
      OneYear(y - 1970);
      LeapDaysStep(y);
    }
  }

  /** Days before month `m` of a year, from January as 0: the months are 30 and 31 days
      in turn with the seam between July and August, but for February. */
  function DaysBefore(y: int, m: int): int {
    (367 * (m + 1) - 362) / 12 - (if m < 2 then 0 else if IsLeap(y) then 1 else 2)
  }

  /** And every month as many days after its year's first. */
  lemma MonthInYear(y: int, m: int)
    requires 0 <= m < 12
    ensures MonthStart(12 * (y - 1970) + m) == MonthStart(12 * (y - 1970)) + 86400000 * DaysBefore(y, m)
    decreases m
  {
    hide MonthStart, IsLeap;
    if m > 0 {
      MonthInYear(y, m - 1);
      NextMonthOfYear(y - 1970, m - 1);
      OneMonthOn(y, m - 1);
    }
  }

  lemma OneMonthOn(y: int, m: int)
    requires 0 <= m < 11
    ensures DaysBefore(y, m + 1) == DaysBefore(y, m) +
      if m == 1 then (if IsLeap(y) then 29 else 28) else if m == 3 || m == 5 || m == 8 || m == 10 then 30 else 31
  {
    hide IsLeap;
  }

  lemma EpochStart()
    ensures MonthStart(0) == 0
  {
  }

  lemma {:induction false} MonthsIncrease(j: int, k: int)
    requires j < k
    ensures MonthStart(j) < MonthStart(k)
    decreases k - j
  {
    MonthLength(k - 1);
    if j < k - 1 {
      MonthsIncrease(j, k - 1);
    }
  }

  /** The month containing `t`, found by stepping from month `k`. */
  function MonthFrom(t: int, k: int): (m: int)
    ensures MonthStart(m) <= t < MonthStart(m + 1)
    decreases if t < MonthStart(k) then 1 else 0, if t < MonthStart(k) then MonthStart(k) - t else t - MonthStart(k)
  {
    MonthLength(k);
    MonthLength(k - 1);
    if t < MonthStart(k) then MonthFrom(t, k - 1)
    else if t >= MonthStart(k + 1) then MonthFrom(t, k + 1)
    else k
  }

  function MonthOf(t: int): (m: int)
    ensures MonthStart(m) <= t < MonthStart(m + 1)
  {
    MonthFrom(t, 0)
  }

  lemma MonthUnique(t: int, m: int)
    requires MonthStart(m) <= t < MonthStart(m + 1)
    ensures MonthOf(t) == m
  {
    var n := MonthOf(t);
    if n < m {
      if n + 1 < m { MonthsIncrease(n + 1, m); }
    } else if m < n {
      if m + 1 < n { MonthsIncrease(m + 1, n); }
    }
  }

  function MonthPeriod(m: int): Period {
    Period(MonthStart(m), MonthStart(m + 1))
  }

  function MonthPeriodOf(t: int): Period {
    MonthPeriod(MonthOf(t))
  }

  /** The first of a month as Date.UTC makes it: it takes the years 0 to 99 for 1900
      and on. */
  function DateUtc(year: int, month: int): int {
    MonthStart(12 * ((if 0 <= year <= 99 then 1900 + year else year) - 1970) + month)
  }

  function YearOf(month: int): int {
    1970 + month / 12
  }

  predicate EarlyYear(month: int) {
    0 <= YearOf(month) <= 99
  }

  /** The period the code computes for an instant. */
  function UtcPeriodOf(t: int): Period {
    var year, month := YearOf(MonthOf(t)), MonthOf(t) % 12;
    Period(DateUtc(year, month), DateUtc(year, month + 1))
  }

  function PreviousUtcPeriod(t: int): Period {
    UtcPeriodOf(UtcPeriodOf(t).start - 1)
  }

  /** The month that Date.UTC takes a month for: nineteen centuries late in the years
      0 to 99. */
  function UtcMonth(month: int): int {
    if EarlyYear(month) then month + 12 * 1900 else month
  }

  lemma UtcPeriodIs(t: int)
    ensures UtcPeriodOf(t) == MonthPeriod(UtcMonth(MonthOf(t)))
  {
    hide MonthStart;
    var k := MonthOf(t);
    assert 12 * (k / 12) + k % 12 == k;
  }

  lemma PreviousUtcPeriodIs(t: int)
    ensures PreviousUtcPeriod(t) == MonthPeriod(UtcMonth(UtcMonth(MonthOf(t)) - 1))
  {
    hide MonthStart;
    var m := UtcMonth(MonthOf(t));
    UtcPeriodIs(t);
    UtcPeriodIs(UtcPeriodOf(t).start - 1);
    MonthsIncrease(m - 1, m);
    MonthUnique(MonthStart(m) - 1, m - 1);
  }

  lemma SamePeriod(j: int, k: int)
    ensures MonthPeriod(j) == MonthPeriod(k) <==> j == k
    ensures MonthStart(j) == MonthStart(k) <==> j == k
  {
    hide MonthStart;
    if j < k {
      MonthsIncrease(j, k);
    } else if k < j {
      MonthsIncrease(k, j);
    }
  }

  /** The period computed is the month of its instant exactly outside those years. */
  lemma UtcPeriodIsTheMonth(t: int)
    ensures UtcPeriodOf(t) == MonthPeriodOf(t) <==> !EarlyYear(MonthOf(t))
  {
    UtcPeriodIs(t);
    SamePeriod(UtcMonth(MonthOf(t)), MonthOf(t));
  }

  /** The period the runner computes is the month before exactly when neither of the
      two months is in those years, and it ends where the current one starts in every
      month but January of the year 100. */
  lemma UtcPeriodsTile(t: int)
    ensures PreviousUtcPeriod(t) == MonthPeriod(MonthOf(t) - 1)
      <==> !EarlyYear(MonthOf(t)) && !EarlyYear(MonthOf(t) - 1)
    ensures PreviousUtcPeriod(t).end == UtcPeriodOf(t).start <==> MonthOf(t) != 12 * (100 - 1970)
  {
    hide MonthStart;
    var m := UtcMonth(MonthOf(t));
    UtcPeriodIs(t);
    PreviousUtcPeriodIs(t);
    SamePeriod(UtcMonth(m - 1), MonthOf(t) - 1);
    SamePeriod(UtcMonth(m - 1) + 1, m);
  }

  /** The first instant of the year 50 is put into January 1950. */
  lemma YearFiftyIsLate()
    ensures var t := MonthStart(12 * (50 - 1970));
      UtcPeriodOf(t) == MonthPeriod(12 * (1950 - 1970)) && UtcPeriodOf(t) != MonthPeriodOf(t)
  {
    hide MonthStart;
    var k := 12 * (50 - 1970);
    MonthsIncrease(k, k + 1);
    MonthUnique(MonthStart(k), k);
    UtcPeriodIs(MonthStart(k));
    UtcPeriodIsTheMonth(MonthStart(k));
  }

  function PreviousMonthPeriod(t: int): Period {
    MonthPeriodOf(MonthPeriodOf(t).start - 1)
  }

  /** The runner's period ends where the month that contains `t` begins. */
  lemma PeriodsTile(t: int)
    ensures PreviousMonthPeriod(t) == MonthPeriod(MonthOf(t) - 1)
    ensures PreviousMonthPeriod(t).end == MonthPeriodOf(t).start <= t < MonthPeriodOf(t).end
    ensures PreviousMonthPeriod(t).start < PreviousMonthPeriod(t).end
  {
    var m := MonthOf(t);
    MonthsIncrease(m - 1, m);
    MonthUnique(MonthStart(m) - 1, m - 1);
  }
}
