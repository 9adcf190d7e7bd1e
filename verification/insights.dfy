/**
 * The aggregation helpers of the Insights page (`client/src/pages/Insights.jsx`):
 * the mood tally, the trailing moving average, the date window chosen by the
 * range selector and the metrics that fall inside it.
 */
module Insights {
  import opened Wrappers
  import opened CivilTime
  import Seqs
  import HealthMetricsStore

  type Metric = HealthMetricsStore.Metric

  // ---------------------------------------------------------------------------
  // Mood distribution
  // ---------------------------------------------------------------------------

  datatype MoodCount = MoodCount(mood: string, count: nat)

  /** The entry for `mood`, or -1 when there is none. */
  function Find(acc: seq<MoodCount>, mood: string): (k: int)
    ensures -1 <= k < |acc|
    ensures k >= 0 ==> acc[k].mood == mood
    ensures k == -1 ==> forall i :: 0 <= i < |acc| ==> acc[i].mood != mood
  {
    if acc == [] then -1
    else if acc[|acc| - 1].mood == mood then |acc| - 1
    else Find(acc[..|acc| - 1], mood)
  }

  /** One step of the reduce: count `mood`, adding a key for it the first time. */
  function Bump(acc: seq<MoodCount>, mood: string): seq<MoodCount> {
    var k := Find(acc, mood);
    if k < 0 then acc + [MoodCount(mood, 1)]
    else acc[k := MoodCount(mood, acc[k].count + 1)]
  }

  /** `getMoodDistributionData`: one entry per key of the counting object, in key order. */
  function MoodDistribution(moods: seq<string>): seq<MoodCount> {
    if moods == [] then []
    else Bump(MoodDistribution(moods[..|moods| - 1]), moods[|moods| - 1])
  }

  /** The moods of a list of metrics. */
  function Moods(ms: seq<Metric>): (r: seq<string>)
    ensures |r| == |ms| && forall i :: 0 <= i < |ms| ==> r[i] == ms[i].mood
  {
    seq(|ms|, i requires 0 <= i < |ms| => ms[i].mood)
  }

  function TotalCount(r: seq<MoodCount>): nat {
    if r == [] then 0 else TotalCount(r[..|r| - 1]) + r[|r| - 1].count
  }

  /** The index of the first occurrence of `x`. */
  function FirstIndex(s: seq<string>, x: string): (k: nat)
    requires x in s
    ensures k < |s| && s[k] == x && forall i :: 0 <= i < k ==> s[i] != x
  {
    if s[0] == x then 0 else 1 + FirstIndex(s[1..], x)
  }

  lemma {:induction false} FirstIndexExtend(s: seq<string>, y: string, x: string)
    requires x in s
    ensures FirstIndex(s + [y], x) == FirstIndex(s, x)
  {
    if s[0] != x {
      assert (s + [y])[1..] == s[1..] + [y];
      FirstIndexExtend(s[1..], y, x);
    }
  }

  /** The moods that have an entry. */
  ghost function Keys(r: seq<MoodCount>): set<string> {
    set i | 0 <= i < |r| :: r[i].mood
  }

  ghost predicate DistinctMoods(r: seq<MoodCount>) {
    forall i, j :: 0 <= i < j < |r| ==> r[i].mood != r[j].mood
  }

  /** What the tally of a list says about it. */
  ghost predicate Tallies(r: seq<MoodCount>, moods: seq<string>) {
    && DistinctMoods(r)
    && (forall i :: 0 <= i < |r| ==> r[i].count == multiset(moods)[r[i].mood] && r[i].count >= 1)
    && (forall x :: x in Keys(r) <==> x in moods)
    && FirstOccurrenceOrder(r, moods)
  }

  lemma {:induction false} TotalCountSnoc(r: seq<MoodCount>, e: MoodCount)
    ensures TotalCount(r + [e]) == TotalCount(r) + e.count
  {
    assert (r + [e])[..|r|] == r;
  }

  lemma {:induction false} TotalCountBump(r: seq<MoodCount>, k: nat, c: nat)
    requires k < |r| && c == r[k].count + 1
    ensures TotalCount(r[k := r[k].(count := c)]) == TotalCount(r) + 1
  {
    var u := r[k := r[k].(count := c)];
    if k < |r| - 1 {
      assert u[..|u| - 1] == r[..|r| - 1][k := r[k].(count := c)];
      TotalCountBump(r[..|r| - 1], k, c);
    } else {
      assert u[..|u| - 1] == r[..|r| - 1];
    }
  }

  /** Counting a mood not seen before adds an entry for it, last, with count 1. */
  lemma {:induction false} BumpNew(acc: seq<MoodCount>, m: string)
    requires DistinctMoods(acc) && m !in Keys(acc)
    ensures Bump(acc, m) == acc + [MoodCount(m, 1)]
    ensures DistinctMoods(Bump(acc, m))
    ensures Keys(Bump(acc, m)) == Keys(acc) + {m}
    ensures TotalCount(Bump(acc, m)) == TotalCount(acc) + 1
  {
    var r := acc + [MoodCount(m, 1)];
    TotalCountSnoc(acc, MoodCount(m, 1));
    forall i | 0 <= i < |acc| ensures acc[i].mood != m {
      assert acc[i].mood in Keys(acc);
    }
    assert Keys(r) == Keys(acc) + {m} by {
      assert forall i :: 0 <= i < |acc| ==> r[i] == acc[i];
      assert r[|acc|].mood == m;
    }
  }

  /** Counting a mood already seen raises its count by one and changes nothing else. */
  lemma {:induction false} BumpKnown(acc: seq<MoodCount>, m: string)
    requires DistinctMoods(acc) && m in Keys(acc)
    ensures |Bump(acc, m)| == |acc|
    ensures forall i :: 0 <= i < |acc| ==> Bump(acc, m)[i].mood == acc[i].mood
    ensures forall i :: 0 <= i < |acc| ==>
      Bump(acc, m)[i].count == acc[i].count + (if acc[i].mood == m then 1 else 0)
    ensures DistinctMoods(Bump(acc, m))
    ensures Keys(Bump(acc, m)) == Keys(acc)
    ensures TotalCount(Bump(acc, m)) == TotalCount(acc) + 1
  {
    var k := Find(acc, m);
    assert k >= 0 by {
      var i :| 0 <= i < |acc| && acc[i].mood == m;
    }
    var r := Bump(acc, m);
    TotalCountBump(acc, k, acc[k].count + 1);
    assert forall i :: 0 <= i < |acc| ==> r[i].mood == acc[i].mood;
  }

  /** One counting step: a known mood's count goes up by one, a new mood is added last with count 1. */
  lemma {:induction false} BumpSpec(acc: seq<MoodCount>, m: string)
    requires DistinctMoods(acc)
    ensures var r := Bump(acc, m);
      && DistinctMoods(r)
      && Keys(r) == Keys(acc) + {m}
      && (m !in Keys(acc) ==> r == acc + [MoodCount(m, 1)])
      && (m in Keys(acc) ==> |r| == |acc| && forall i :: 0 <= i < |acc| ==>
            r[i].mood == acc[i].mood && r[i].count == acc[i].count + (if acc[i].mood == m then 1 else 0))
      && TotalCount(r) == TotalCount(acc) + 1
  {
    if m in Keys(acc) {
      BumpKnown(acc, m);
    } else {
      BumpNew(acc, m);
    }
  }

  lemma {:induction false} TallyShape(moods: seq<string>)
    ensures var r := MoodDistribution(moods);
      && DistinctMoods(r)
      && (forall x :: x in Keys(r) <==> x in moods)
      && TotalCount(r) == |moods|
  {
    if moods != [] {
      var front, m := moods[..|moods| - 1], moods[|moods| - 1];
      assert moods == front + [m];
      TallyShape(front);
      BumpSpec(MoodDistribution(front), m);
      forall x ensures x in moods <==> x in front || x == m {
      }
    }
  }

  lemma {:induction false} TallyCounts(moods: seq<string>)
    ensures var r := MoodDistribution(moods);
      forall i :: 0 <= i < |r| ==> r[i].count == multiset(moods)[r[i].mood] && r[i].count >= 1
  {
    if moods != [] {
      var front, m := moods[..|moods| - 1], moods[|moods| - 1];
      assert moods == front + [m];
      TallyCounts(front);
      TallyShape(front);
      var acc := MoodDistribution(front);
      var r := MoodDistribution(moods);
      assert r == Bump(acc, m);
      BumpSpec(acc, m);
      assert multiset(moods) == multiset(front) + multiset{m};
      forall i | 0 <= i < |r| ensures r[i].count == multiset(moods)[r[i].mood] && r[i].count >= 1 {
        if m in Keys(acc) {
          assert r[i].mood == acc[i].mood;
        } else if i < |acc| {
          assert r[i] == acc[i] && acc[i].mood != m;
        } else {
          assert r[i] == MoodCount(m, 1) && m !in front;
        }
      }
    }
  }

  /** Entries appear in the order in which their moods first occur. */
  ghost predicate FirstOccurrenceOrder(r: seq<MoodCount>, moods: seq<string>) {
    forall i, j :: 0 <= i < j < |r| ==>
      (r[i].mood in moods && r[j].mood in moods && FirstIndex(moods, r[i].mood) < FirstIndex(moods, r[j].mood))
  }

  lemma {:induction false} OrderStep(front: seq<string>, m: string, acc: seq<MoodCount>)
    requires DistinctMoods(acc) && FirstOccurrenceOrder(acc, front)
    requires forall x :: x in Keys(acc) <==> x in front
    ensures FirstOccurrenceOrder(Bump(acc, m), front + [m])
  {
    forall x | x in front ensures x in front + [m] && FirstIndex(front + [m], x) == FirstIndex(front, x) {
      FirstIndexExtend(front, m, x);
    }
    if m in Keys(acc) {
      OrderStepKnown(front, m, acc);
    } else {
      OrderStepNew(front, m, acc);
    }
  }

  /** A repeated mood keeps the order of the tally's moods. */
  lemma {:induction false} OrderStepKnown(front: seq<string>, m: string, acc: seq<MoodCount>)
    requires DistinctMoods(acc) && FirstOccurrenceOrder(acc, front) && m in Keys(acc)
    requires forall x :: x in front ==> x in front + [m] && FirstIndex(front + [m], x) == FirstIndex(front, x)
    ensures FirstOccurrenceOrder(Bump(acc, m), front + [m])
  {
    var moods := front + [m];
    BumpKnown(acc, m);
    var r := Bump(acc, m);
    forall i, j | 0 <= i < j < |r|
      ensures r[i].mood in moods && r[j].mood in moods && FirstIndex(moods, r[i].mood) < FirstIndex(moods, r[j].mood)
    {
      assert r[i].mood == acc[i].mood && r[j].mood == acc[j].mood;
    }
  }

  /** A new mood goes last in the tally, as its first occurrence is the last one so far. */
  lemma {:induction false} OrderStepNew(front: seq<string>, m: string, acc: seq<MoodCount>)
    requires DistinctMoods(acc) && FirstOccurrenceOrder(acc, front) && m !in Keys(acc)
    requires forall x :: x in Keys(acc) <==> x in front
    requires forall x :: x in front ==> x in front + [m] && FirstIndex(front + [m], x) == FirstIndex(front, x)
    ensures FirstOccurrenceOrder(Bump(acc, m), front + [m])
  {
    var moods := front + [m];
    BumpNew(acc, m);
    var r := Bump(acc, m);
    assert m !in front;
    assert FirstIndex(moods, m) == |front|;
    forall i, j | 0 <= i < j < |r|
      ensures r[i].mood in moods && r[j].mood in moods && FirstIndex(moods, r[i].mood) < FirstIndex(moods, r[j].mood)
    {
      assert r[i] == acc[i];
      assert acc[i].mood in Keys(acc);
      if j < |acc| {
        assert r[j] == acc[j];
      } else {
        assert r[j].mood == m;
      }
    }
  }

  lemma {:induction false} TallyOrder(moods: seq<string>)
    ensures FirstOccurrenceOrder(MoodDistribution(moods), moods)
  {
    if moods != [] {
      var front, m := moods[..|moods| - 1], moods[|moods| - 1];
      assert moods == front + [m];
      TallyOrder(front);
      TallyShape(front);
      OrderStep(front, m, MoodDistribution(front));
    }
  }

  /**
   * The tally has one entry per distinct mood, in the order of first
   * occurrence; each count is the number of occurrences, at least 1; and
   * the counts add up to the number of moods.
   */
  lemma {:induction false} MoodDistributionSpec(moods: seq<string>)
    ensures Tallies(MoodDistribution(moods), moods)
    ensures TotalCount(MoodDistribution(moods)) == |moods|
  {
    TallyShape(moods);
    TallyCounts(moods);
    TallyOrder(moods);
  }

  // ---------------------------------------------------------------------------
  // Moving average
  // ---------------------------------------------------------------------------

  /** The first index of the trailing window ending at `i`: `Math.max(0, index - window + 1)`. */
  function WindowStartIndex(i: nat, window: int): nat {
    if i - window + 1 > 0 then i - window + 1 else 0
  }

  /** `data.slice(start, index + 1)`: empty when the start lies past the end. */
  function WindowAt<T>(data: seq<T>, i: nat, window: int): seq<T>
    requires i < |data|
  {
    var start := WindowStartIndex(i, window);
    if start <= i + 1 then data[start..i + 1] else []
  }

  /** `values.reduce((a, b) => a + b, 0) / values.length`, with `None` for NaN. */
  function Mean(vs: seq<Option<real>>): Option<real> {
    if vs == [] then None
    else if forall i :: 0 <= i < |vs| ==> vs[i].Some? then Some(Seqs.Sum(Values(vs)) / |vs| as real)
    else None
  }

  function Values(vs: seq<Option<real>>): (r: seq<real>)
    requires forall i :: 0 <= i < |vs| ==> vs[i].Some?
    ensures |r| == |vs| && forall i :: 0 <= i < |vs| ==> r[i] == vs[i].value
  {
    seq(|vs|, i requires 0 <= i < |vs| && vs[i].Some? => vs[i].value)
  }

  /** The average of the trailing window at every index. */
  function MovingAverages(vs: seq<Option<real>>, window: int): (r: seq<Option<real>>)
    ensures |r| == |vs|
    ensures forall i :: 0 <= i < |vs| ==> r[i] == Mean(WindowAt(vs, i, window))
  {
    seq(|vs|, i requires 0 <= i < |vs| => Mean(WindowAt(vs, i, window)))
  }

  /**
   * For a window of at least one, the window at `i` is the `min(i + 1, window)`
   * elements ending at `i`; a window of 1 is the element itself; a window of
   * 0 or less is empty.
   */
  lemma {:induction false} WindowBounds<T>(data: seq<T>, i: nat, window: int)
    requires i < |data|
    ensures window >= 1 ==>
      && |WindowAt(data, i, window)| == (if i + 1 < window then i + 1 else window)
      && WindowAt(data, i, window) != []
      && WindowAt(data, i, window)[|WindowAt(data, i, window)| - 1] == data[i]
    ensures window == 1 ==> WindowAt(data, i, window) == [data[i]]
    ensures window <= 0 ==> WindowAt(data, i, window) == []
  {
  }

  /** With a window of 1 every average is the value itself. */
  lemma {:induction false} MovingAverageWindowOne(vs: seq<Option<real>>)
    ensures forall i :: 0 <= i < |vs| ==> MovingAverages(vs, 1)[i] == vs[i]
  {
    forall i | 0 <= i < |vs| ensures MovingAverages(vs, 1)[i] == vs[i] {
      WindowBounds(vs, i, 1);
      assert WindowAt(vs, i, 1) == [vs[i]];
      MeanOne(vs[i]);
    }
  }

  /** The mean of one value is that value, or NaN when it is NaN. */
  lemma {:induction false} MeanOne(x: Option<real>)
    ensures Mean([x]) == x
  {
    if x.Some? {
      assert Values([x]) == [x.value];
      assert [x.value][1..] == [];
      assert Seqs.Sum([x.value]) == x.value;
    } else {
      assert !([x][0].Some?);
    }
  }

  /** The window of two over 70, 80, 90 averages to 70, 75, 85. */
  lemma {:induction false} MovingAverageExample()
    ensures MovingAverages([Some(70.0), Some(80.0), Some(90.0)], 2) == [Some(70.0), Some(75.0), Some(85.0)]
  {
    var vs := [Some(70.0), Some(80.0), Some(90.0)];
    var r := MovingAverages(vs, 2);
    assert WindowAt(vs, 0, 2) == [Some(70.0)];
    assert Values([Some(70.0)]) == [70.0];
    assert WindowAt(vs, 1, 2) == [Some(70.0), Some(80.0)];
    assert Values([Some(70.0), Some(80.0)]) == [70.0, 80.0];
    assert Seqs.Sum([70.0, 80.0]) == 150.0;
    assert WindowAt(vs, 2, 2) == [Some(80.0), Some(90.0)];
    assert Values([Some(80.0), Some(90.0)]) == [80.0, 90.0];
    assert Seqs.Sum([80.0, 90.0]) == 170.0;
  }

  /** A record with its moving average added under the key `<key>MA`. */
  datatype Averaged = Averaged(item: Metric, averageKey: string, average: Option<real>)

  /** `Number(d[key])`, with the string conversion a parameter and `None` for NaN. */
  function ValueOf(m: Metric, key: string, num: string -> Option<real>): Option<real> {
    match HealthMetricsStore.Field(m, key)
    case Some(s) => num(s)
    case None => None
  }

  /** `calculateMovingAverage(data, key, window)`; the page calls it with `'heartRate'` and the default window 3. */
  function CalculateMovingAverage(data: seq<Metric>, key: string, window: int, num: string -> Option<real>): seq<Averaged> {
    var vs := seq(|data|, i requires 0 <= i < |data| => ValueOf(data[i], key, num));
    var avgs := MovingAverages(vs, window);
    seq(|data|, i requires 0 <= i < |data| => Averaged(data[i], key + "MA", avgs[i]))
  }

  /**
   * One output per input, in order, each keeping its record and adding the
   * average of the values in its trailing window under `<key>MA`.
   */
  lemma {:induction false} CalculateMovingAverageSpec(data: seq<Metric>, key: string, window: int, num: string -> Option<real>)
    ensures |CalculateMovingAverage(data, key, window, num)| == |data|
    ensures forall i :: 0 <= i < |data| ==>
      var out := CalculateMovingAverage(data, key, window, num)[i];
      && out.item == data[i]
      && out.averageKey == key + "MA"
      && out.average == Mean(seq(|WindowAt(data, i, window)|, j requires 0 <= j < |WindowAt(data, i, window)| =>
                               ValueOf(WindowAt(data, i, window)[j], key, num)))
  {
    var vs := seq(|data|, i requires 0 <= i < |data| => ValueOf(data[i], key, num));
    forall i | 0 <= i < |data|
      ensures WindowAt(vs, i, window)
        == seq(|WindowAt(data, i, window)|, j requires 0 <= j < |WindowAt(data, i, window)| =>
               ValueOf(WindowAt(data, i, window)[j], key, num))
    {
    }
  }

  // ---------------------------------------------------------------------------
  // Date range and the metrics inside it
  // ---------------------------------------------------------------------------

  /** `getDateRange()` for the selected range, at the instant `now`: (start, end). */
  function GetDateRange(range: string, now: Instant): (Instant, Instant) {
    var start :=
      if range == "month" then Instant(SetMonth(now.date, now.date.month - 1), now.ms)
      else if range == "year" then Instant(SetFullYear(now.date, now.date.year - 1), now.ms)
      else Instant(SetDate(now.date, now.date.day - 7), now.ms);
    (start, now)
  }

  /**
   * The range ends now. A week, and any unknown range, starts exactly seven
   * days earlier; a month starts on the same day of the previous month (or,
   * when that month is too short, in the current month); a year starts on the
   * same date a year earlier (March 1 for February 29). Every start lies
   * before the end.
   */
  lemma {:induction false} GetDateRangeSpec(range: string, now: Instant)
    ensures GetDateRange(range, now).1 == now
    ensures GetDateRange(range, now).0.ms == now.ms
    ensures range != "month" && range != "year" ==>
      GetDateRange(range, now).0.date == AddDays(now.date, -7)
      && EpochMs(GetDateRange(range, now).0) == EpochMs(now) - 7 * MsPerDay
    ensures range == "month" ==>
      var (y0, m0) := MonthBefore(now.date.year, now.date.month);
      GetDateRange(range, now).0.date
        == if now.date.day <= DaysInMonth(y0, m0) then Date(y0, m0, now.date.day)
           else Date(now.date.year, now.date.month, now.date.day - DaysInMonth(y0, m0))
    ensures range == "year" ==>
      GetDateRange(range, now).0.date
        == if now.date.day <= DaysInMonth(now.date.year - 1, now.date.month) then Date(now.date.year - 1, now.date.month, now.date.day)
           else Date(now.date.year - 1, 3, 1)
    ensures EpochMs(GetDateRange(range, now).0) < EpochMs(now)
  {
    var start := GetDateRange(range, now).0;
    if range == "month" {
      assert start == Instant(SetMonth(now.date, now.date.month - 1), now.ms);
      MonthAgo(now.date);
    } else if range == "year" {
      assert start == Instant(SetFullYear(now.date, now.date.year - 1), now.ms);
      YearAgo(now.date);
    } else {
      assert start == Instant(SetDate(now.date, now.date.day - 7), now.ms);
      SetDateShiftMs(now, now.date.day - 7, -7);
    }
  }

  /** `setMonth(getMonth() - 1)` lands on an earlier day: the same day of the previous month, or past its end. */
  lemma {:induction false} MonthAgo(d: CivilDate)
    ensures var (y0, m0) := MonthBefore(d.year, d.month);
      SetMonth(d, d.month - 1)
        == if d.day <= DaysInMonth(y0, m0) then Date(y0, m0, d.day)
           else Date(d.year, d.month, d.day - DaysInMonth(y0, m0))
    ensures DayNumber(SetMonth(d, d.month - 1)) < DayNumber(d)
  {
    PrevMonth(d);
    DayNumberOrder(SetMonth(d, d.month - 1), d);
  }

  /** `setFullYear(getFullYear() - 1)` lands on an earlier day: the same day a year back, or 1 March for 29 February. */
  lemma {:induction false} YearAgo(d: CivilDate)
    ensures SetFullYear(d, d.year - 1)
      == if d.day <= DaysInMonth(d.year - 1, d.month) then Date(d.year - 1, d.month, d.day)
         else Date(d.year - 1, 3, 1)
    ensures DayNumber(SetFullYear(d, d.year - 1)) < DayNumber(d)
  {
    PrevYear(d);
    DayNumberOrder(SetFullYear(d, d.year - 1), d);
  }

  /** `date >= start && date <= end` for `new Date(metric.date)`: an invalid date compares false. */
  predicate Within(m: Metric, start: Instant, end: Instant) {
    var t := HealthMetricsStore.MetricInstant(m);
    t.Some? && EpochMs(start) <= EpochMs(t.value) <= EpochMs(end)
  }

  /** `getHealthMetricsData()`: the metrics inside the range, oldest first. */
  function HealthMetricsData(ms: seq<Metric>, range: string, now: Instant): seq<Metric> {
    var (start, end) := GetDateRange(range, now);
    Seqs.SortByKey(Seqs.Filter(ms, (m: Metric) => Within(m, start, end)), HealthMetricsStore.MetricTime)
  }

  /**
   * The chart data holds exactly the metrics dated inside the range, each as
   * often as stored (a permutation of the filtered list), in ascending date order.
   */
  lemma {:induction false} HealthMetricsDataSpec(ms: seq<Metric>, range: string, now: Instant)
    ensures var (start, end) := GetDateRange(range, now);
      && Seqs.SortedBy(HealthMetricsData(ms, range, now), HealthMetricsStore.MetricTime)
      && (forall m :: multiset(HealthMetricsData(ms, range, now))[m] == if Within(m, start, end) then multiset(ms)[m] else 0)
  {
    var (start, end) := GetDateRange(range, now);
    var p := (m: Metric) => Within(m, start, end);
    forall m ensures multiset(HealthMetricsData(ms, range, now))[m] == if p(m) then multiset(ms)[m] else 0 {
      Seqs.FilterCount(ms, p, m);
    }
  }
}
