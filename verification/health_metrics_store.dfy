/**
 * The daily health-metrics store (`client/src/store/healthMetricsStore.js`):
 * one record per calendar date, replaced wholesale when a date is logged again,
 * with a date-range query, a CSV export and a percentage trend.
 */
module HealthMetricsStore {
  import opened Wrappers
  import opened CivilTime
  import Seqs
  import Text

  /**
   * One day's log as the Insights form stores it: every value is the string
   * the input produced, the date an ISO `YYYY-MM-DD` string.
   */
  datatype Metric = Metric(
    date: string,
    temperature: string,
    heartRate: string,
    sleep: string,
    weight: string,
    water: string,
    mood: string)

  /** The keys an update object carries; `None` is a key the object does not have. */
  datatype MetricPatch = MetricPatch(
    date: Option<string>,
    temperature: Option<string>,
    heartRate: Option<string>,
    sleep: Option<string>,
    weight: Option<string>,
    water: Option<string>,
    mood: Option<string>)

  /** `{ ...metric, ...updates }`. */
  function Merge(m: Metric, p: MetricPatch): Metric {
    Metric(
      p.date.GetOr(m.date), p.temperature.GetOr(m.temperature), p.heartRate.GetOr(m.heartRate),
      p.sleep.GetOr(m.sleep), p.weight.GetOr(m.weight), p.water.GetOr(m.water), p.mood.GetOr(m.mood))
  }

  /** At most one record per date. */
  ghost predicate UniqueDates(ms: seq<Metric>) {
    forall i, j :: 0 <= i < j < |ms| ==> ms[i].date != ms[j].date
  }

  /** The list after `addMetric(m)`: any record of the same date is dropped and `m` goes last. */
  function WithMetric(ms: seq<Metric>, m: Metric): seq<Metric> {
    Seqs.Filter(ms, (x: Metric) => x.date != m.date) + [m]
  }

  /**
   * After adding, `m` is the last record and the only one with its date; the
   * other records are exactly the old ones of other dates, each as often as
   * before and in their old order (adding distributes over concatenation);
   * dates that were unique stay unique.
   */
  lemma {:induction false} AddMetricSpec(ms: seq<Metric>, m: Metric)
    ensures var r := WithMetric(ms, m);
      && |r| >= 1 && r[|r| - 1] == m
      && (forall i :: 0 <= i < |r| ==> (r[i].date == m.date <==> i == |r| - 1))
      && (forall x :: x in r <==> x == m || (x in ms && x.date != m.date))
    ensures forall x ::
              multiset(WithMetric(ms, m))[x]
              == (if x == m then 1 else 0) + (if x.date != m.date then multiset(ms)[x] else 0)
    ensures forall a, b :: WithMetric(a + b, m) == Seqs.Filter(a, (x: Metric) => x.date != m.date) + WithMetric(b, m)
    ensures UniqueDates(ms) ==> UniqueDates(WithMetric(ms, m))
  {
    var p := (x: Metric) => x.date != m.date;
    var kept := Seqs.Filter(ms, p);
    var r := WithMetric(ms, m);
    assert r == kept + [m];
    forall x ensures x in kept <==> x in ms && x.date != m.date
      ensures multiset(r)[x] == (if x == m then 1 else 0) + (if x.date != m.date then multiset(ms)[x] else 0)
    {
      Seqs.FilterCount(ms, p, x);
      assert multiset(r) == multiset(kept) + multiset{m};
    }
    forall a, b ensures WithMetric(a + b, m) == Seqs.Filter(a, p) + WithMetric(b, m) {
      WithMetricAppend(a, b, m);
    }
    WithMetricUnique(ms, m);
  }

  lemma {:induction false} WithMetricAppend(a: seq<Metric>, b: seq<Metric>, m: Metric)
    ensures WithMetric(a + b, m) == Seqs.Filter(a, (x: Metric) => x.date != m.date) + WithMetric(b, m)
  {
    var p := (x: Metric) => x.date != m.date;
    Seqs.FilterAppend(a, b, p);
    var fa, fb := Seqs.Filter(a, p), Seqs.Filter(b, p);
    assert (fa + fb) + [m] == fa + (fb + [m]);
  }

  lemma {:induction false} WithMetricUnique(ms: seq<Metric>, m: Metric)
    ensures UniqueDates(ms) ==> UniqueDates(WithMetric(ms, m))
  {
    if UniqueDates(ms) {
      var p := (x: Metric) => x.date != m.date;
      var kept := Seqs.Filter(ms, p);
      var r := WithMetric(ms, m);
      var rel := (a: Metric, b: Metric) => a.date != b.date;
      Seqs.FilterPairwise(ms, p, rel);
      forall i, j | 0 <= i < j < |r| ensures r[i].date != r[j].date {
        assert r[i] == kept[i] && p(kept[i]);
        if j < |kept| {
          assert rel(kept[i], kept[j]);
        }
      }
    }
  }

  /** Logging the same record twice leaves the list as logging it once. */
  lemma {:induction false} AddMetricIdempotent(ms: seq<Metric>, m: Metric)
    ensures WithMetric(WithMetric(ms, m), m) == WithMetric(ms, m)
  {
    var p := (x: Metric) => x.date != m.date;
    var kept := Seqs.Filter(ms, p);
    Seqs.FilterAppend(kept, [m], p);
    Seqs.FilterCons(m, [], p);
  }

  /** The list after `updateMetric(date, updates)`. */
  function MetricsUpdated(ms: seq<Metric>, date: string, p: MetricPatch): (r: seq<Metric>)
    ensures |r| == |ms|
    ensures forall i :: 0 <= i < |ms| ==> r[i] == if ms[i].date == date then Merge(ms[i], p) else ms[i]
  {
    Seqs.MapWhere(ms, (m: Metric) => m.date == date, (m: Metric) => Merge(m, p))
  }

  /**
   * An update never inserts: a date with no record leaves the list as it is.
   * An update that does not move the date keeps dates unique.
   */
  lemma {:induction false} UpdateMetricSpec(ms: seq<Metric>, date: string, p: MetricPatch)
    ensures (forall i :: 0 <= i < |ms| ==> ms[i].date != date) ==> MetricsUpdated(ms, date, p) == ms
    ensures p.date.None? ==> forall i :: 0 <= i < |ms| ==> MetricsUpdated(ms, date, p)[i].date == ms[i].date
    ensures p.date.None? && UniqueDates(ms) ==> UniqueDates(MetricsUpdated(ms, date, p))
  {
  }

  /** `date >= startDate && date <= endDate`, compared as strings. */
  predicate InRange(date: string, startDate: string, endDate: string) {
    Text.AtMost(startDate, date) && Text.AtMost(date, endDate)
  }

  /** `getMetricsByDateRange(startDate, endDate)` as intended, over the list it reads. */
  function MetricsByDateRange(ms: seq<Metric>, startDate: string, endDate: string): seq<Metric> {
    Seqs.Filter(ms, (m: Metric) => InRange(m.date, startDate, endDate))
  }

  /** The range query keeps exactly the records inside the range, each as often as stored, in store order. */
  lemma {:induction false} MetricsByDateRangeSpec(ms: seq<Metric>, startDate: string, endDate: string)
    ensures forall m :: m in MetricsByDateRange(ms, startDate, endDate) <==> m in ms && InRange(m.date, startDate, endDate)
    ensures forall m ::
      multiset(MetricsByDateRange(ms, startDate, endDate))[m]
      == (if InRange(m.date, startDate, endDate) then multiset(ms)[m] else 0)
    ensures forall a, b ::
      MetricsByDateRange(a + b, startDate, endDate)
      == MetricsByDateRange(a, startDate, endDate) + MetricsByDateRange(b, startDate, endDate)
  {
    var p := (m: Metric) => InRange(m.date, startDate, endDate);
    forall m
      ensures multiset(Seqs.Filter(ms, p))[m] == (if p(m) then multiset(ms)[m] else 0)
      ensures m in Seqs.Filter(ms, p) <==> m in ms && p(m)
    {
      Seqs.FilterCount(ms, p, m);
    }
    forall a, b ensures Seqs.Filter(a + b, p) == Seqs.Filter(a, p) + Seqs.Filter(b, p) {
      Seqs.FilterAppend(a, b, p);
    }
  }

  const CsvHeader: seq<string> := ["Date", "Temperature", "Heart Rate", "Sleep", "Weight", "Water", "Mood"]

  /** The header line reads back as the seven column titles and holds no newline. */
  lemma {:induction false} CsvHeaderFields()
    ensures Text.Split(CsvLine(CsvHeader), ',') == CsvHeader
    ensures '\n' !in CsvLine(CsvHeader)
  {
    forall i | 0 <= i < |CsvHeader| ensures ',' !in CsvHeader[i] && '\n' !in CsvHeader[i] {
      HeaderTitlePlain(i);
    }
    Text.SplitJoin(CsvHeader, ',');
    Text.JoinAvoids(CsvHeader, ",", '\n');
  }

  /** No column title holds a comma or a newline. */
  lemma {:induction false} HeaderTitlePlain(i: nat)
    requires i < |CsvHeader|
    ensures ',' !in CsvHeader[i] && '\n' !in CsvHeader[i]
  {
    var t := CsvHeader[i];
    assert forall j :: 0 <= j < |t| ==> t[j] == ' ' || 'A' <= t[j] <= 'z';
  }

  /** The CSV fields of one record, in column order. */
  function CsvRow(m: Metric): seq<string> {
    [m.date, m.temperature, m.heartRate, m.sleep, m.weight, m.water, m.mood]
  }

  function CsvLine(fields: seq<string>): string {
    Text.Join(fields, ",")
  }

  /** One line per record, in store order. */
  function RowLines(ms: seq<Metric>): (r: seq<string>)
    ensures |r| == |ms|
    ensures forall i :: 0 <= i < |ms| ==> r[i] == CsvLine(CsvRow(ms[i]))
  {
    if ms == [] then [] else [CsvLine(CsvRow(ms[0]))] + RowLines(ms[1..])
  }

  /** A header line, then one line per record, joined by a newline. */
  function CsvText(header: seq<string>, ms: seq<Metric>): string {
    Text.Join([CsvLine(header)] + RowLines(ms), "\n")
  }

  /** The CSV branch of `exportMetrics`: lines joined by a newline, fields by a comma, nothing quoted. */
  function ExportCsv(ms: seq<Metric>): string {
    CsvText(CsvHeader, ms)
  }

  ghost predicate NoField(m: Metric, c: char) {
    forall i :: 0 <= i < 7 ==> c !in CsvRow(m)[i]
  }

  /**
   * When no value holds a newline, the export reads back as the header line
   * followed by one line per record, in store order.
   */
  lemma {:induction false} ExportCsvSpec(ms: seq<Metric>)
    requires forall k :: 0 <= k < |ms| ==> NoField(ms[k], '\n')
    ensures Text.Split(ExportCsv(ms), '\n') == [CsvLine(CsvHeader)] + RowLines(ms)
  {
    CsvHeaderFields();
    CsvTextLines(CsvHeader, ms);
  }

  lemma {:induction false} CsvTextLines(header: seq<string>, ms: seq<Metric>)
    requires '\n' !in CsvLine(header)
    requires forall k :: 0 <= k < |ms| ==> NoField(ms[k], '\n')
    ensures Text.Split(CsvText(header, ms), '\n') == [CsvLine(header)] + RowLines(ms)
  {
    var rows := RowLines(ms);
    RowLinesAvoid(ms);
    LinesAvoid(CsvLine(header), rows);
    Text.SplitJoin([CsvLine(header)] + rows, '\n');
  }

  /** Putting a newline-free header before newline-free lines keeps every line newline-free. */
  lemma {:induction false} LinesAvoid(first: string, rows: seq<string>)
    requires '\n' !in first
    requires forall k :: 0 <= k < |rows| ==> '\n' !in rows[k]
    ensures forall k :: 0 <= k < |[first] + rows| ==> '\n' !in ([first] + rows)[k]
  {
    var lines := [first] + rows;
    forall k | 0 <= k < |lines| ensures '\n' !in lines[k] {
      if k > 0 {
        assert lines[k] == rows[k - 1];
      }
    }
  }

  /** Record lines hold no newline when no value does. */
  lemma {:induction false} RowLinesAvoid(ms: seq<Metric>)
    requires forall k :: 0 <= k < |ms| ==> NoField(ms[k], '\n')
    ensures forall k :: 0 <= k < |RowLines(ms)| ==> '\n' !in RowLines(ms)[k]
  {
    forall k | 0 <= k < |ms| ensures '\n' !in RowLines(ms)[k] {
      Text.JoinAvoids(CsvRow(ms[k]), ",", '\n');
    }
  }

  /** When no value holds a comma, a record's line reads back as its seven values in column order. */
  lemma {:induction false} CsvRowFields(m: Metric)
    requires NoField(m, ',')
    ensures Text.Split(CsvLine(CsvRow(m)), ',') == CsvRow(m)
  {
    Text.SplitJoin(CsvRow(m), ',');
  }

  /**
   * Without the quoting of section 2 of RFC 4180, a last value holding a
   * comma reads back as two values.
   */
  lemma {:induction false} CsvCommaSplitsValue(front: seq<string>, a: string, b: string)
    requires front != []
    requires forall i :: 0 <= i < |front| ==> ',' !in front[i]
    requires ',' !in a && ',' !in b
    ensures Text.Split(CsvLine(front + [a + "," + b]), ',') == front + [a, b]
  {
    var head := CsvLine(front + [a]);
    Text.JoinSplitLast(front, a, ',', b);
    Text.SplitJoin(front + [a], ',');
    Text.SplitAppend(head, ',', b);
    Text.SplitNoSep(b, ',');
  }

  /** A record whose mood is `a,b` exports as a line that reads back as eight columns. */
  lemma {:induction false} ExportCsvCommaShiftsColumns(m: Metric, a: string, b: string)
    requires m.mood == a + "," + b
    requires ',' !in a && ',' !in b
    requires forall i :: 0 <= i < 6 ==> ',' !in CsvRow(m)[i]
    ensures |Text.Split(CsvLine(CsvRow(m)), ',')| == 8
  {
    var front := CsvRow(m)[..6];
    assert CsvRow(m) == front + [a + "," + b];
    CsvCommaSplitsValue(front, a, b);
  }

  /** A JavaScript number as far as the trend can produce one. Signed zeros are not distinguished. */
  datatype JsNumber = Finite(value: real) | NaN | Infinity(positive: bool)

  /** `((last - first) / first) * 100` in IEEE arithmetic, with no guard for a zero `first`. */
  function PercentChange(first: JsNumber, last: JsNumber): JsNumber {
    match (first, last)
    case (Finite(f), Finite(l)) =>
      if f != 0.0 then Finite((l - f) / f * 100.0)
      else if l == 0.0 then NaN
      else Infinity(l > 0.0)
    case (Finite(f), Infinity(pos)) => Infinity(if f < 0.0 then !pos else pos)
    case _ => NaN
  }

  /**
   * For a non-zero finite start the trend is the change as a percentage of the
   * start: zero when nothing changed, positive exactly when a positive start
   * grew. A zero start yields NaN or an infinity instead of a number.
   */
  lemma {:induction false} PercentChangeSpec(f: real, l: real)
    ensures f != 0.0 ==>
      PercentChange(Finite(f), Finite(l)).Finite? && PercentChange(Finite(f), Finite(l)).value * f == (l - f) * 100.0
    ensures PercentChange(Finite(f), Finite(f)) == if f == 0.0 then NaN else Finite(0.0)
    ensures f > 0.0 ==> (PercentChange(Finite(f), Finite(l)).value > 0.0 <==> l > f)
    ensures f == 0.0 ==> !PercentChange(Finite(f), Finite(l)).Finite?
  {
    if f != 0.0 {
      var r := (l - f) / f * 100.0;
      assert r * f == (l - f) * 100.0;
      if f > 0.0 {
        assert r > 0.0 <==> l - f > 0.0;
      }
    }
  }

  /** `metric[key]` for a key of a stored record; any other key reads `undefined`. */
  function Field(m: Metric, key: string): Option<string> {
    if key == "date" then Some(m.date)
    else if key == "temperature" then Some(m.temperature)
    else if key == "heartRate" then Some(m.heartRate)
    else if key == "sleep" then Some(m.sleep)
    else if key == "weight" then Some(m.weight)
    else if key == "water" then Some(m.water)
    else if key == "mood" then Some(m.mood)
    else None
  }

  /** `Number(metric[key])`, with the string conversion `num` a parameter; `Number(undefined)` is NaN. */
  function FieldNumber(m: Metric, key: string, num: string -> JsNumber): JsNumber {
    match Field(m, key)
    case Some(s) => num(s)
    case None => NaN
  }

  /** `new Date(m.date)` for the ISO dates the form stores, at midnight UTC; anything else is an invalid date. */
  function MetricInstant(m: Metric): Option<Instant> {
    match ParseIsoDate(m.date)
    case Some(d) => Some(Midnight(d))
    case None => None
  }

  /** `new Date(m.date).getTime()` as a sort key; the invalid dates it cannot order never reach the sort. */
  function MetricTime(m: Metric): int {
    match MetricInstant(m)
    case Some(t) => EpochMs(t)
    case None => 0
  }

  /** `new Date(m.date) >= startDate`: an invalid date compares false. */
  predicate OnOrAfter(m: Metric, start: Instant) {
    MetricInstant(m).Some? && EpochMs(MetricInstant(m).value) >= EpochMs(start)
  }

  /** `now.setDate(now.getDate() - days)`. */
  function WindowStart(now: Instant, days: int): Instant {
    Instant(SetDate(now.date, now.date.day - days), now.ms)
  }

  /** The window starts exactly `days` days of milliseconds before now. */
  lemma {:induction false} WindowStartSpec(now: Instant, days: int)
    ensures EpochMs(WindowStart(now, days)) == EpochMs(now) - days * MsPerDay
  {
    SetDateShiftMs(now, now.date.day - days, -days);
  }

  /** The records in the trailing window, oldest first. */
  function TrendWindow(ms: seq<Metric>, start: Instant): seq<Metric> {
    Seqs.SortByKey(Seqs.Filter(ms, (m: Metric) => OnOrAfter(m, start)), MetricTime)
  }

  /** `calculateTrends(key, days)` as intended, at the instant `now`. */
  function CalculateTrends(ms: seq<Metric>, key: string, days: int, now: Instant, num: string -> JsNumber): JsNumber {
    TrendOf(TrendWindow(ms, WindowStart(now, days)), (m: Metric) => FieldNumber(m, key, num))
  }

  /** The trend over a window: 0 below two records, else the change from the first record's value to the last's. */
  function TrendOf(w: seq<Metric>, value: Metric -> JsNumber): JsNumber {
    if |w| < 2 then Finite(0.0)
    else PercentChange(value(w[0]), value(w[|w| - 1]))
  }

  /**
   * The window holds exactly the records dated on or after the start, each as
   * often as stored, oldest first.
   */
  lemma {:induction false} TrendWindowSpec(ms: seq<Metric>, start: Instant)
    ensures Seqs.SortedBy(TrendWindow(ms, start), MetricTime)
    ensures forall m :: multiset(TrendWindow(ms, start))[m] == if OnOrAfter(m, start) then multiset(ms)[m] else 0
    ensures forall m :: m in TrendWindow(ms, start) <==> m in ms && OnOrAfter(m, start)
  {
    var p := (m: Metric) => OnOrAfter(m, start);
    forall m ensures multiset(TrendWindow(ms, start))[m] == if p(m) then multiset(ms)[m] else 0 {
      Seqs.FilterCount(ms, p, m);
    }
    forall m ensures m in TrendWindow(ms, start) <==> m in ms && p(m) {
      assert m in TrendWindow(ms, start) <==> multiset(TrendWindow(ms, start))[m] > 0;
    }
  }

  /** The window has two records exactly when two stored records are dated in it. */
  lemma {:induction false} TrendWindowTwo(ms: seq<Metric>, start: Instant)
    ensures |TrendWindow(ms, start)| >= 2
      <==> exists i, j :: 0 <= i < j < |ms| && OnOrAfter(ms[i], start) && OnOrAfter(ms[j], start)
  {
    var p := (m: Metric) => OnOrAfter(m, start);
    Seqs.FilterTwo(ms, p);
    assert |TrendWindow(ms, start)| == |Seqs.Filter(ms, p)|;
  }

  /** The window's first and last records are stored records dated in it. */
  lemma {:induction false} TrendWindowEndsIn(ms: seq<Metric>, start: Instant)
    requires TrendWindow(ms, start) != []
    ensures var w := TrendWindow(ms, start);
      w[0] in ms && w[|w| - 1] in ms && OnOrAfter(w[0], start) && OnOrAfter(w[|w| - 1], start)
  {
    var p := (m: Metric) => OnOrAfter(m, start);
    var w := TrendWindow(ms, start);
    Seqs.SortedFilterMember(ms, p, MetricTime, 0);
    Seqs.SortedFilterMember(ms, p, MetricTime, |w| - 1);
  }

  /** The window's first record is the oldest dated in it, its last the newest. */
  lemma {:induction false} TrendWindowBounds(ms: seq<Metric>, start: Instant)
    requires TrendWindow(ms, start) != []
    ensures var w := TrendWindow(ms, start);
      forall m :: m in ms && OnOrAfter(m, start) ==> MetricTime(w[0]) <= MetricTime(m) <= MetricTime(w[|w| - 1])
  {
    var p := (m: Metric) => OnOrAfter(m, start);
    var w := TrendWindow(ms, start);
    Seqs.SortedFilterBounds(ms, p, MetricTime);
    forall m | m in ms && OnOrAfter(m, start) ensures MetricTime(w[0]) <= MetricTime(m) <= MetricTime(w[|w| - 1]) {
      assert p(m);
    }
  }

  /**
   * `a` and `b` are stored records dated in the window, `a` the oldest and
   * `b` the newest of all the records dated in it.
   */
  ghost predicate OldestAndNewest(ms: seq<Metric>, start: Instant, a: Metric, b: Metric) {
    && a in ms && b in ms && OnOrAfter(a, start) && OnOrAfter(b, start)
    && (forall m :: m in ms && OnOrAfter(m, start) ==> MetricTime(a) <= MetricTime(m) <= MetricTime(b))
  }

  /**
   * With fewer than two records dated in the window the trend is 0;
   * otherwise it is the percentage change from the value of the oldest record
   * in the window to the value of the newest.
   */
  lemma {:induction false} CalculateTrendsSpec(ms: seq<Metric>, key: string, days: int, now: Instant, num: string -> JsNumber)
    ensures var start := WindowStart(now, days);
      !(exists i, j :: 0 <= i < j < |ms| && OnOrAfter(ms[i], start) && OnOrAfter(ms[j], start))
      ==> CalculateTrends(ms, key, days, now, num) == Finite(0.0)
    ensures var start := WindowStart(now, days);
      (exists i, j :: 0 <= i < j < |ms| && OnOrAfter(ms[i], start) && OnOrAfter(ms[j], start))
      ==> exists a, b ::
            OldestAndNewest(ms, start, a, b)
            && CalculateTrends(ms, key, days, now, num) == PercentChange(FieldNumber(a, key, num), FieldNumber(b, key, num))
  {
    var start := WindowStart(now, days);
    var w := TrendWindow(ms, start);
    var value := (m: Metric) => FieldNumber(m, key, num);
    TrendWindowTwo(ms, start);
    assert CalculateTrends(ms, key, days, now, num) == TrendOf(w, value);
    if |w| >= 2 {
      var a, b := TrendFromEnds(ms, start, value);
      assert value(a) == FieldNumber(a, key, num) && value(b) == FieldNumber(b, key, num);
    }
  }

  /** With two records in the window, the trend runs from its oldest record `a` to its newest `b`. */
  lemma {:induction false} TrendFromEnds(ms: seq<Metric>, start: Instant, value: Metric -> JsNumber) returns (a: Metric, b: Metric)
    requires |TrendWindow(ms, start)| >= 2
    ensures OldestAndNewest(ms, start, a, b)
    ensures TrendOf(TrendWindow(ms, start), value) == PercentChange(value(a), value(b))
  {
    var w := TrendWindow(ms, start);
    a, b := w[0], w[|w| - 1];
    TrendWindowExtremes(ms, start);
    TrendOfEnds(w, value, a, b);
  }

  /** The window's first and last records are the oldest and the newest dated in it. */
  lemma {:induction false} TrendWindowExtremes(ms: seq<Metric>, start: Instant)
    requires TrendWindow(ms, start) != []
    ensures var w := TrendWindow(ms, start);
      OldestAndNewest(ms, start, w[0], w[|w| - 1])
  {
    TrendWindowEndsIn(ms, start);
    TrendWindowBounds(ms, start);
  }

  /** The trend over two or more records reads the first and the last. */
  lemma {:induction false} TrendOfEnds(w: seq<Metric>, value: Metric -> JsNumber, a: Metric, b: Metric)
    requires |w| >= 2 && a == w[0] && b == w[|w| - 1]
    ensures TrendOf(w, value) == PercentChange(value(a), value(b))
  {
  }

  /** The store's state and its actions. */
  class Store {
    var metrics: seq<Metric>

    constructor ()
      ensures metrics == []
    {
      metrics := [];
    }

    /** `resetMetrics`. */
    method ResetMetrics()
      modifies this
      ensures metrics == []
    {
      metrics := [];
    }

    /** `addMetric`. */
    method AddMetric(m: Metric)
      modifies this
      ensures metrics == WithMetric(old(metrics), m)
    {
      metrics := WithMetric(metrics, m);
    }

    /** `updateMetric`. */
    method UpdateMetric(date: string, p: MetricPatch)
      modifies this
      ensures metrics == MetricsUpdated(old(metrics), date, p)
    {
      metrics := MetricsUpdated(metrics, date, p);
    }
  }
}
