/**
 * The derived values on the dashboard (`client/src/pages/Dashboard.jsx`):
 * today's metrics record, the trend shown for the mood and the water intake,
 * and the doses due on today's calendar date.
 */
module Dashboard {
  import opened Wrappers
  import opened CivilTime
  import Seqs
  import HealthMetricsStore
  import MedicationStore

  type Metric = HealthMetricsStore.Metric
  type Medication = MedicationStore.Medication

  /** `getMoodTrend`. */
  function MoodTrend(mood: string): string {
    if mood == "great" || mood == "better" || mood == "good" then "good"
    else if mood == "okay" then "normal"
    else if mood == "bad" || mood == "worse" then "warning"
    else "normal"
  }

  /** The moods the metrics form offers, best first. */
  const MoodScale: seq<string> := ["great", "better", "good", "okay", "bad", "worse"]

  /** How alarming a trend is: `good` below `normal` below `warning`. */
  function Severity(trend: string): nat {
    if trend == "good" then 0 else if trend == "normal" then 1 else 2
  }

  /**
   * The classifier only ever answers one of three trends; a mood outside the
   * form's six falls back to `normal`, and along the form's scale from best
   * to worst the trend never becomes less alarming.
   */
  lemma {:induction false} MoodTrendSpec(mood: string)
    ensures MoodTrend(mood) in {"good", "normal", "warning"}
    ensures mood !in MoodScale ==> MoodTrend(mood) == "normal"
    ensures MoodTrend(mood) == "good" <==> mood in MoodScale[..3]
    ensures MoodTrend(mood) == "warning" <==> mood in MoodScale[4..]
    ensures forall i, j :: 0 <= i <= j < |MoodScale| ==> Severity(MoodTrend(MoodScale[i])) <= Severity(MoodTrend(MoodScale[j]))
  {
    assert MoodScale[..3] == ["great", "better", "good"];
    assert MoodScale[4..] == ["bad", "worse"];
  }

  /** The record shown when nothing was logged today; it has no date and reads its water as zero. */
  const DefaultToday: Metric := HealthMetricsStore.Metric("", "98.6", "72", "7.5", "150", "0", "good")

  /** The index `metrics.findIndex(m => m.date === date)` would return, or `|ms|` when there is none. */
  function FirstDated(ms: seq<Metric>, date: string): (k: nat)
    ensures k <= |ms|
    ensures forall j :: 0 <= j < k ==> ms[j].date != date
    ensures k < |ms| ==> ms[k].date == date
  {
    if ms == [] then 0
    else if ms[0].date == date then 0
    else 1 + FirstDated(ms[1..], date)
  }

  /** `metrics.find(m => m.date === date) || default`. */
  function MetricOn(ms: seq<Metric>, date: string): Metric {
    var k := FirstDated(ms, date);
    if k < |ms| then ms[k] else DefaultToday
  }

  /** `todayMetrics`: the record stored under today's day key, or the default record. */
  function TodayMetrics(ms: seq<Metric>, now: Instant): Metric {
    MetricOn(ms, DayKey(now))
  }

  /**
   * The record shown for a date is the first stored record of that date when
   * there is one, and the default record exactly when there is none; with one
   * record per date it is the only record of that date.
   */
  lemma {:induction false} MetricOnSpec(ms: seq<Metric>, date: string)
    ensures (exists i :: 0 <= i < |ms| && ms[i].date == date) ==>
      exists i :: 0 <= i < |ms| && ms[i] == MetricOn(ms, date) && ms[i].date == date
        && forall j :: 0 <= j < i ==> ms[j].date != date
    ensures (forall i :: 0 <= i < |ms| ==> ms[i].date != date) ==> MetricOn(ms, date) == DefaultToday
    ensures HealthMetricsStore.UniqueDates(ms) ==>
      forall i :: 0 <= i < |ms| && ms[i].date == date ==> MetricOn(ms, date) == ms[i]
  {
    var k := FirstDated(ms, date);
    if exists i :: 0 <= i < |ms| && ms[i].date == date {
      var i :| 0 <= i < |ms| && ms[i].date == date;
      assert k <= i;
      assert k < |ms|;
    }
  }

  /** Logging a date's metrics through the store makes them the record shown for that date. */
  lemma {:induction false} MetricOnAfterAdd(ms: seq<Metric>, m: Metric)
    ensures MetricOn(HealthMetricsStore.WithMetric(ms, m), m.date) == m
  {
    var r := HealthMetricsStore.WithMetric(ms, m);
    HealthMetricsStore.AddMetricSpec(ms, m);
    var k := FirstDated(r, m.date);
    assert r[|r| - 1].date == m.date;
    assert k == |r| - 1;
  }

  /** Logging today's metrics through the store makes them today's record. */
  lemma {:induction false} TodayAfterAdd(ms: seq<Metric>, m: Metric, now: Instant)
    requires m.date == DayKey(now)
    ensures TodayMetrics(HealthMetricsStore.WithMetric(ms, m), now) == m
  {
    MetricOnAfterAdd(ms, m);
  }

  /**
   * The trend shown for the water intake: `water >= 8`, the string compared
   * as `Number(water)` (the conversion `num` a parameter); NaN compares false.
   */
  function WaterTrend(m: Metric, num: string -> HealthMetricsStore.JsNumber): string {
    match num(m.water)
    case Finite(v) => if v >= 8.0 then "good" else "warning"
    case Infinity(positive) => if positive then "good" else "warning"
    case NaN => "warning"
  }

  /**
   * Eight cups or more is `good`, anything less or unreadable is `warning`;
   * the default record, read as zero cups in a good mood, shows a warning for
   * water and `good` for mood.
   */
  lemma {:induction false} WaterTrendSpec(m: Metric, num: string -> HealthMetricsStore.JsNumber)
    ensures WaterTrend(m, num) == "good" <==>
      (num(m.water).Finite? && num(m.water).value >= 8.0) || num(m.water) == HealthMetricsStore.Infinity(true)
    ensures WaterTrend(m, num) in {"good", "warning"}
    ensures num("0") == HealthMetricsStore.Finite(0.0) ==> WaterTrend(DefaultToday, num) == "warning"
    ensures MoodTrend(DefaultToday.mood) == "good"
  {
  }

  /** `new Date(med.nextDose).toDateString() === new Date().toDateString()`: the same calendar date. */
  predicate DueToday(m: Medication, now: Instant) {
    m.nextDose.date == now.date
  }

  /** `upcomingMedications`: the doses on today's date, earliest first. */
  function UpcomingToday(meds: seq<Medication>, now: Instant): seq<Medication> {
    Seqs.SortByKey(Seqs.Filter(meds, (m: Medication) => DueToday(m, now)), MedicationStore.DoseTime)
  }

  /**
   * The dashboard lists exactly the stored doses dated today, each as often as
   * stored, earliest first; unlike the store's intended query it keeps the
   * ones already past and compares month and year too.
   */
  lemma {:induction false} UpcomingTodaySpec(meds: seq<Medication>, now: Instant)
    ensures Seqs.SortedBy(UpcomingToday(meds, now), MedicationStore.DoseTime)
    ensures forall m :: m in UpcomingToday(meds, now) <==> m in meds && DueToday(m, now)
    ensures forall m :: multiset(UpcomingToday(meds, now))[m] == if DueToday(m, now) then multiset(meds)[m] else 0
    ensures forall m :: m in UpcomingToday(meds, now) && MedicationStore.DoseTime(m) > EpochMs(now) ==>
      m in MedicationStore.Upcoming(meds, now)
  {
    var p := (m: Medication) => DueToday(m, now);
    forall m ensures multiset(UpcomingToday(meds, now))[m] == if DueToday(m, now) then multiset(meds)[m] else 0 {
      Seqs.FilterCount(meds, p, m);
    }
    MedicationStore.UpcomingSpec(meds, now);
  }
}
