/** Trend buckets of the dashboard and the points drawn from them.
    Models buildDailyTrendBuckets, buildWeeklyTrendBuckets, buildMonthlyTrendBuckets and buildTrendPoints. Instants are
    milliseconds since the start of 1970, UTC; days and months are numbered from there. */
module Trends {
  import opened Prelude

  const DAY_MS := 86_400_000

  // ----- The calendar -----

  predicate IsLeap(year: int) { year % 4 == 0 && (year % 100 != 0 || year % 400 == 0) }

  /** Days of month n, where month 0 is January 1970. */
  function MonthLength(n: int): (days: nat)
    ensures 28 <= days <= 31
  {
    var month := n % 12;
    if month == 1 then (if IsLeap(1970 + n / 12) then 29 else 28)
    else if month in {3, 5, 8, 10} then 30
    else 31
  }

  /** The day on which month n starts. */
  function MonthStart(n: int): int
    decreases if n < 0 then -n else n
  {
    if n == 0 then 0
    else if n > 0 then MonthStart(n - 1) + MonthLength(n - 1)
    else MonthStart(n + 1) - MonthLength(n)
  }

  lemma {:induction false} MonthEnds(n: int)
    ensures MonthStart(n + 1) == MonthStart(n) + MonthLength(n)
  {}

  /** The month a day falls in, counting on from month n. */
  function MonthFrom(day: int, n: int): (m: int)
    requires MonthStart(n) <= day
    ensures MonthStart(m) <= day < MonthStart(m + 1)
    decreases day - MonthStart(n)
  {
    MonthEnds(n);
    if day < MonthStart(n + 1) then n else MonthFrom(day, n + 1)
  }

  /** The same, counting back. */
  function MonthBack(day: int, n: int): (m: int)
    requires day < MonthStart(n)
    ensures MonthStart(m) <= day < MonthStart(m + 1)
    decreases MonthStart(n) - day
  {
    MonthEnds(n - 1);
    if MonthStart(n - 1) <= day then n - 1 else MonthBack(day, n - 1)
  }

  function MonthOf(day: int): (m: int)
    ensures MonthStart(m) <= day < MonthStart(m + 1)
  {
    if day < 0 then MonthBack(day, 0) else MonthFrom(day, 0)
  }

  lemma {:induction false} MonthStartsGrow(m: int, n: int)
    requires m < n
    ensures MonthStart(m) < MonthStart(n)
    decreases n - m
  {
    MonthEnds(n - 1);
    if m < n - 1 {
      MonthStartsGrow(m, n - 1);
    }
  }

  /** A day lies in one month only. */
  lemma {:induction false} MonthUnique(day: int, m: int)
    requires MonthStart(m) <= day < MonthStart(m + 1)
    ensures MonthOf(day) == m
  {
    var n := MonthOf(day);
    if n < m {
      if n + 1 < m {
        MonthStartsGrow(n + 1, m);
      }
    } else if m < n {
      if m + 1 < n {
        MonthStartsGrow(m + 1, n);
      }
    }
  }

  /** Days since Monday: 1 January 1970 was a Thursday. */
  function DaysSinceMonday(day: int): nat {
    var sundayFirst := (day + 4) % 7;
    if sundayFirst == 0 then 6 else sundayFirst - 1
  }

  // ----- Buckets -----

  /** From `start` up to, and not including, `end`. */
  datatype Bucket = Bucket(start: int, end: int)

  function DayInstant(day: int): int { day * DAY_MS }

  function Today(now: nat): nat { now / DAY_MS }

  function DailyBuckets(now: nat): (buckets: seq<Bucket>)
    ensures |buckets| == 7
  {
    seq(7, i requires 0 <= i < 7 => Bucket(DayInstant(Today(now) - (6 - i)), DayInstant(Today(now) - (6 - i) + 1)))
  }

  function WeeklyBuckets(now: nat): (buckets: seq<Bucket>)
    ensures |buckets| == 8
  {
    var week := Today(now) - DaysSinceMonday(Today(now));
    seq(8, i requires 0 <= i < 8 => Bucket(DayInstant(week - 7 * (7 - i)), DayInstant(week - 7 * (7 - i) + 7)))
  }

  /** The first day of a month of a year; a month before January counts back into earlier years. */
  function MonthDay(year: int, month: int): int { MonthStart(12 * (year - 1970) + month) }

  function MonthlyBuckets(now: nat): (buckets: seq<Bucket>)
    ensures |buckets| == 12
  {
    var year, month := 1970 + MonthOf(Today(now)) / 12, MonthOf(Today(now)) % 12;
    seq(12, i requires 0 <= i < 12 =>
      var start := MonthDay(year, month - (11 - i));
      var startMonth := MonthOf(start);
      Bucket(DayInstant(start), DayInstant(MonthDay(1970 + startMonth / 12, startMonth % 12 + 1))))
  }

  /** Each bucket is non-empty and ends where the next starts. */
  ghost predicate Contiguous(buckets: seq<Bucket>) {
    && (forall i :: 0 <= i < |buckets| ==> buckets[i].start < buckets[i].end)
    && (forall i :: 0 < i < |buckets| ==> buckets[i - 1].end == buckets[i].start)
  }

  /** Contiguous, and the last bucket holds the present. */
  ghost predicate EndsNow(buckets: seq<Bucket>, now: nat) {
    buckets != [] && Contiguous(buckets) && buckets[|buckets| - 1].start <= now < buckets[|buckets| - 1].end
  }

  lemma {:induction false} DayInstants(d: int, e: int)
    ensures DayInstant(d) < DayInstant(e) <==> d < e
    ensures DayInstant(d) / DAY_MS == d
  {}

  lemma {:induction false} TodayHolds(now: nat)
    ensures DayInstant(Today(now)) <= now < DayInstant(Today(now) + 1)
  {}

  /** The buckets lie between consecutive bounds, given in days. */
  ghost predicate Between(buckets: seq<Bucket>, bound: nat -> int) {
    forall i: nat :: i < |buckets| ==> buckets[i] == Bucket(DayInstant(bound(i)), DayInstant(bound(i + 1)))
  }

  lemma {:induction false} BetweenAt(buckets: seq<Bucket>, bound: nat -> int, i: nat)
    requires Between(buckets, bound) && i < |buckets|
    ensures buckets[i] == Bucket(DayInstant(bound(i)), DayInstant(bound(i + 1)))
  {}

  lemma {:induction false} BetweenContiguous(buckets: seq<Bucket>, bound: nat -> int, now: nat)
    requires buckets != [] && Between(buckets, bound)
    requires forall i: nat :: i < |buckets| ==> bound(i) < bound(i + 1)
    requires bound(|buckets| - 1) <= Today(now) < bound(|buckets|)
    ensures EndsNow(buckets, now)
  {
    hide DayInstant, Today;
    TodayHolds(now);
    var n := |buckets|;
    forall i | 0 <= i < n
      ensures buckets[i].start < buckets[i].end
    {
      DayInstants(bound(i), bound(i + 1));
    }
    forall i | 0 < i < n
      ensures buckets[i - 1].end == buckets[i].start
    {
      BetweenAt(buckets, bound, i - 1);
      BetweenAt(buckets, bound, i);
    }
    DayInstants(Today(now), bound(n - 1));
    DayInstants(bound(n), Today(now) + 1);
  }

  function DailyBound(now: nat): nat -> int { (i: nat) => Today(now) - 6 + i }

  /** The last seven days, today included. */
  lemma {:induction false} DailyContiguous(now: nat)
    ensures EndsNow(DailyBuckets(now), now)
  {
    hide DayInstant, Today;
    BetweenContiguous(DailyBuckets(now), DailyBound(now), now);
  }

  function WeeklyBound(now: nat): nat -> int { (i: nat) => Today(now) - DaysSinceMonday(Today(now)) - 49 + 7 * i }

  /** The last eight weeks. */
  lemma {:induction false} WeeklyContiguous(now: nat)
    ensures EndsNow(WeeklyBuckets(now), now)
  {
    WeekBegins(Today(now), 0);
    hide DayInstant, Today, DaysSinceMonday;
    BetweenContiguous(WeeklyBuckets(now), WeeklyBound(now), now);
  }

  /** Day 4 was a Monday. */
  predicate IsMonday(day: int) { (day - 4) % 7 == 0 }

  lemma {:induction false} WholeDays(d: int, n: int)
    ensures DayInstant(d + n) - DayInstant(d) == n * 86_400_000 && DayInstant(d) % 86_400_000 == 0
  {}

  /** From one midnight on, for some number of days of 86,400,000 milliseconds each. */
  ghost predicate Lasts(b: Bucket, days: nat) {
    b.end - b.start == days * 86_400_000 && b.start % 86_400_000 == 0
  }

  lemma {:induction false} DaysLast(day: int, n: nat)
    ensures Lasts(Bucket(DayInstant(day), DayInstant(day + n)), n)
  {
    WholeDays(day, n);
  }

  /** A daily bucket is one day, a weekly one seven. */
  lemma {:induction false} BucketLengths(now: nat, i: nat)
    ensures i < 7 ==> Lasts(DailyBuckets(now)[i], 1)
    ensures i < 8 ==> Lasts(WeeklyBuckets(now)[i], 7)
  {
    hide DayInstant, Today, DaysSinceMonday, Lasts;
    var today: int, monday := Today(now), Today(now) - DaysSinceMonday(Today(now));
    DaysLast(today - (6 - i), 1);
    DaysLast(monday - 7 * (7 - i), 7);
  }

  lemma {:induction false} WeekBegins(day: int, k: int)
    ensures 0 <= DaysSinceMonday(day) <= 6
    ensures IsMonday(day - DaysSinceMonday(day) + 7 * k)
  {
    var week := day - DaysSinceMonday(day);
    assert (week - 4) % 7 == 0;
    assert week + 7 * k - 4 == 7 * ((week - 4) / 7 + k);
  }

  /** Each of them starts on a Monday. */
  lemma {:induction false} WeeklyMondays(now: nat, i: nat)
    requires i < 8
    ensures WeeklyBuckets(now)[i].start == DayInstant(WeeklyBound(now)(i)) && IsMonday(WeeklyBound(now)(i))
  {
    hide DayInstant, Today, DaysSinceMonday, IsMonday;
    WeekBegins(Today(now), i - 7);
  }

  /** Bucket i of the monthly ones is the month 11 - i before this one, across the turn of the year as well. */
  lemma {:induction false} MonthlyBucket(now: nat, i: nat)
    requires i < 12
    ensures var m := MonthOf(Today(now)) - 11 + i;
      MonthlyBuckets(now)[i] == Bucket(DayInstant(MonthStart(m)), DayInstant(MonthStart(m + 1)))
  {
    hide DayInstant, Today, MonthStart, MonthOf;
    var current := MonthOf(Today(now));
    var m := current - 11 + i;
    YearAndMonth(current, i - 11);
    MonthStartsGrow(m, m + 1);
    MonthUnique(MonthStart(m), m);
    YearAndMonth(m, 1);
  }

  /** Counting months on from a year and a month. */
  lemma {:induction false} YearAndMonth(m: int, k: int)
    ensures 12 * (1970 + m / 12 - 1970) + (m % 12 + k) == m + k
    ensures MonthDay(1970 + m / 12, m % 12 + k) == MonthStart(m + k)
  {}

  function MonthlyBound(now: nat): nat -> int { (i: nat) => MonthStart(MonthOf(Today(now)) - 11 + i) }

  lemma {:induction false} MonthlyBounds(now: nat)
    ensures Between(MonthlyBuckets(now), MonthlyBound(now))
    ensures forall i: nat :: i < 12 ==> MonthlyBound(now)(i) < MonthlyBound(now)(i + 1)
  {
    hide DayInstant, Today, MonthStart, MonthOf, MonthlyBuckets;
    var current := MonthOf(Today(now));
    forall i: nat | i < 12
      ensures MonthlyBuckets(now)[i] == Bucket(DayInstant(MonthlyBound(now)(i)), DayInstant(MonthlyBound(now)(i + 1)))
      ensures MonthlyBound(now)(i) < MonthlyBound(now)(i + 1)
    {
      MonthlyBucket(now, i);
      MonthStartsGrow(current - 11 + i, current - 11 + i + 1);
    }
  }

  /** The last twelve months, this one included. */
  lemma {:induction false} MonthlyContiguous(now: nat)
    ensures EndsNow(MonthlyBuckets(now), now)
  {
    var current := MonthOf(Today(now));
    assert MonthStart(current) <= Today(now) < MonthStart(current + 1);
    MonthlyBounds(now);
    hide DayInstant, Today, MonthStart, MonthOf, MonthlyBuckets, Between, EndsNow;
    BetweenContiguous(MonthlyBuckets(now), MonthlyBound(now), now);
  }

  // ----- Points -----

  datatype Point = Point(value: nat, cumulativeTotal: int)

  /** How many instants lie in [from, to). */
  function CountBetween(instants: seq<int>, from: int, to: int): nat {
    if instants == [] then 0
    else
      var last := instants[|instants| - 1];
      CountBetween(instants[..|instants| - 1], from, to) + (if from <= last < to then 1 else 0)
  }

  function ValueSum(points: seq<Point>): nat {
    if points == [] then 0 else ValueSum(points[..|points| - 1]) + points[|points| - 1].value
  }

  /** Each total is the starting count and the values so far. */
  ghost predicate Cumulative(points: seq<Point>, countBefore: nat) {
    forall i :: 0 <= i < |points| ==> points[i].cumulativeTotal == countBefore + ValueSum(points[..i + 1])
  }

  ghost predicate CountsBuckets(points: seq<Point>, buckets: seq<Bucket>, instants: seq<int>) {
    |points| <= |buckets|
    && forall i :: 0 <= i < |points| ==> points[i].value == CountBetween(instants, buckets[i].start, buckets[i].end)
  }

  lemma {:induction false} CumulativeSnoc(points: seq<Point>, point: Point, countBefore: nat)
    requires Cumulative(points, countBefore) && point.cumulativeTotal == countBefore + ValueSum(points) + point.value
    ensures Cumulative(points + [point], countBefore) && ValueSum(points + [point]) == ValueSum(points) + point.value
  {
    var more := points + [point];
    assert more[..|points|] == points && more[..|points| + 1] == more;
    forall i | 0 <= i < |more|
      ensures more[i].cumulativeTotal == countBefore + ValueSum(more[..i + 1])
    {
      if i < |points| {
        assert more[..i + 1] == points[..i + 1];
      }
    }
  }

  /** Point i has the count of its bucket, and the total up to the end of it. */
  method BuildTrendPoints(buckets: seq<Bucket>, countBefore: nat, instants: seq<int>) returns (points: seq<Point>)
    ensures |points| == |buckets| && CountsBuckets(points, buckets, instants) && Cumulative(points, countBefore)
  {
    points := [];
    var cumulativeTotal: int := countBefore;
    for i := 0 to |buckets|
      invariant |points| == i && CountsBuckets(points, buckets, instants) && Cumulative(points, countBefore)
      invariant cumulativeTotal == countBefore + ValueSum(points)
    {
      hide CountBetween, ValueSum, Cumulative;
      var value := CountBetween(instants, buckets[i].start, buckets[i].end);
      cumulativeTotal := cumulativeTotal + value;
      CumulativeSnoc(points, Point(value, cumulativeTotal), countBefore);
      points := points + [Point(value, cumulativeTotal)];
    }
  }

  lemma {:induction false} CountJoins(instants: seq<int>, a: int, b: int, c: int)
    requires a <= b <= c
    ensures CountBetween(instants, a, b) + CountBetween(instants, b, c) == CountBetween(instants, a, c)
  {
    if instants != [] {
      CountJoins(instants[..|instants| - 1], a, b, c);
    }
  }

  lemma {:induction false} StartsBeforeEnd(buckets: seq<Bucket>, i: nat)
    requires Contiguous(buckets) && i < |buckets|
    ensures buckets[0].start < buckets[i].end
  {
    if i > 0 {
      StartsBeforeEnd(buckets, i - 1);
    }
  }

  /** Over contiguous buckets the values add up to the count of the whole range, bucket by bucket. */
  lemma {:induction false} ValuesAddUp(buckets: seq<Bucket>, points: seq<Point>, instants: seq<int>, i: nat)
    requires Contiguous(buckets) && |points| == |buckets| && i < |buckets| && CountsBuckets(points, buckets, instants)
    ensures ValueSum(points[..i + 1]) == CountBetween(instants, buckets[0].start, buckets[i].end)
  {
    assert points[..i + 1][..i] == points[..i];
    assert ValueSum(points[..i + 1]) == ValueSum(points[..i]) + points[i].value;
    hide CountBetween;
    if i > 0 {
      ValuesAddUp(buckets, points, instants, i - 1);
      StartsBeforeEnd(buckets, i - 1);
      CountJoins(instants, buckets[0].start, buckets[i - 1].end, buckets[i].end);
    }
  }

  /** Every instant of the range lies in exactly one bucket. */
  lemma {:induction false} OneBucket(buckets: seq<Bucket>, t: int) returns (i: nat)
    requires buckets != [] && Contiguous(buckets) && buckets[0].start <= t < buckets[|buckets| - 1].end
    ensures i < |buckets| && buckets[i].start <= t < buckets[i].end
    ensures forall k :: 0 <= k < |buckets| && buckets[k].start <= t < buckets[k].end ==> k == i
  {
    i := 0;
    while t >= buckets[i].end
      invariant i < |buckets| && buckets[i].start <= t
      decreases |buckets| - i
    {
      i := i + 1;
    }
    forall k | 0 <= k < |buckets| && k != i
      ensures !(buckets[k].start <= t < buckets[k].end)
    {
      if k < i {
        EndsInOrder(buckets, k, i);
      } else {
        EndsInOrder(buckets, i, k);
      }
    }
  }

  lemma {:induction false} EndsInOrder(buckets: seq<Bucket>, i: nat, k: nat)
    requires Contiguous(buckets) && i < k < |buckets|
    ensures buckets[i].end <= buckets[k].start
  {
    if i < k - 1 {
      EndsInOrder(buckets, i, k - 1);
    }
  }

  /** Filtering to the instants at or after a moment. */
  function Since(instants: seq<int>, from: int): seq<int> {
    if instants == [] then []
    else Since(instants[..|instants| - 1], from) + (if instants[|instants| - 1] >= from then [instants[|instants| - 1]] else [])
  }

  function CountBefore(instants: seq<int>, to: int): nat {
    if instants == [] then 0
    else CountBefore(instants[..|instants| - 1], to) + (if instants[|instants| - 1] < to then 1 else 0)
  }

  lemma {:induction false} SinceCounts(instants: seq<int>, from: int, to: int)
    requires from <= to
    ensures CountBefore(instants, from) + CountBetween(Since(instants, from), from, to) == CountBefore(instants, to)
  {
    if instants != [] {
      var front, last := instants[..|instants| - 1], instants[|instants| - 1];
      SinceCounts(front, from, to);
      if last >= from {
        assert Since(instants, from)[..|Since(front, from)|] == Since(front, from);
      } else {
        assert Since(instants, from) == Since(front, from);
      }
    }
  }

  /** With the two counts the dashboard asks for, the running total at each point is the number of all instants before
      the end of its bucket. */
  lemma {:induction false} RunningTotals(buckets: seq<Bucket>, points: seq<Point>, all: seq<int>, i: nat)
    requires buckets != [] && Contiguous(buckets) && |points| == |buckets| && i < |buckets|
    requires CountsBuckets(points, buckets, Since(all, buckets[0].start))
    requires Cumulative(points, CountBefore(all, buckets[0].start))
    ensures points[i].cumulativeTotal == CountBefore(all, buckets[i].end)
  {
    hide CountBetween, CountBefore, Since, ValueSum;
    ValuesAddUp(buckets, points, Since(all, buckets[0].start), i);
    StartsBeforeEnd(buckets, i);
    SinceCounts(all, buckets[0].start, buckets[i].end);
  }
}
