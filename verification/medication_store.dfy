/**
 * The medication store (`client/src/store/medicationStore.js`): a list of
 * medication records with a loading flag and an error, and the actions that
 * replace the list by an appended, rewritten or filtered copy.
 *
 * `Date.now()`/`Math.random()` ids and `new Date()` readings are parameters.
 */
module MedicationStore {
  import opened Wrappers
  import opened CivilTime
  import Seqs

  /** A stored medication. `frequency` and `timeOfDay` are the strings the form's selects produce. */
  datatype Medication = Medication(
    id: string,
    name: string,
    dosage: string,
    frequency: string,
    timeOfDay: string,
    nextDose: Instant,
    lastTaken: Option<Instant>,
    createdAt: Instant)

  /** The fields the medication form collects. */
  datatype MedicationForm = MedicationForm(
    name: string,
    dosage: string,
    frequency: string,
    timeOfDay: string,
    nextDose: Instant)

  /** The keys an update object carries; `None` is a key the object does not have. */
  datatype MedicationPatch = MedicationPatch(
    id: Option<string>,
    name: Option<string>,
    dosage: Option<string>,
    frequency: Option<string>,
    timeOfDay: Option<string>,
    nextDose: Option<Instant>,
    lastTaken: Option<Instant>,
    createdAt: Option<Instant>)

  const EmptyPatch := MedicationPatch(None, None, None, None, None, None, None, None)

  /** `{ ...medication, id, createdAt }` for a form object. */
  function NewMedication(form: MedicationForm, id: string, createdAt: Instant): Medication {
    Medication(id, form.name, form.dosage, form.frequency, form.timeOfDay, form.nextDose, None, createdAt)
  }

  /** `{ ...med, ...patch }`: every key the patch has overrides the record's. */
  function Merge(m: Medication, p: MedicationPatch): Medication {
    Medication(
      p.id.GetOr(m.id), p.name.GetOr(m.name), p.dosage.GetOr(m.dosage),
      p.frequency.GetOr(m.frequency), p.timeOfDay.GetOr(m.timeOfDay),
      p.nextDose.GetOr(m.nextDose),
      if p.lastTaken.Some? then p.lastTaken else m.lastTaken,
      p.createdAt.GetOr(m.createdAt))
  }

  /** An update without keys changes nothing; applying the same update twice is applying it once. */
  lemma {:induction false} MergeLaws(m: Medication, p: MedicationPatch)
    ensures Merge(m, EmptyPatch) == m
    ensures Merge(Merge(m, p), p) == Merge(m, p)
    ensures p.id.None? ==> Merge(m, p).id == m.id
  {
  }

  /** The date-setter arithmetic of `markAsTaken`: where the next dose lands for a frequency. */
  function NextDose(frequency: string, now: Instant): Instant {
    if frequency == "daily" then Instant(SetDate(now.date, now.date.day + 1), now.ms)
    else if frequency == "weekly" then Instant(SetDate(now.date, now.date.day + 7), now.ms)
    else if frequency == "monthly" then Instant(SetMonth(now.date, now.date.month + 1), now.ms)
    else now
  }

  /** Daily: the same time on the next calendar day, exactly one day of milliseconds later. */
  lemma {:induction false} DailyDose(now: Instant)
    ensures NextDose("daily", now) == Instant(AddDays(now.date, 1), now.ms)
    ensures NextDose("daily", now).date == NextDay(now.date)
    ensures EpochMs(NextDose("daily", now)) == EpochMs(now) + MsPerDay
  {
    SetDateShift(now.date, 1);
    DayNumberAddDays(now.date, 1);
  }

  /** Weekly: the same time seven calendar days on, exactly seven days of milliseconds later. */
  lemma {:induction false} WeeklyDose(now: Instant)
    ensures NextDose("weekly", now) == Instant(AddDays(now.date, 7), now.ms)
    ensures EpochMs(NextDose("weekly", now)) == EpochMs(now) + 7 * MsPerDay
  {
    SetDateShift(now.date, 7);
    DayNumberAddDays(now.date, 7);
  }

  /**
   * Monthly: the same time and day of the next month when that month has the
   * day; otherwise the overflow spills into the month after. Always later than now.
   */
  lemma {:induction false} MonthlyDose(now: Instant)
    ensures NextDose("monthly", now).ms == now.ms
    ensures var (y1, m1) := MonthAfter(now.date.year, now.date.month);
      now.date.day <= DaysInMonth(y1, m1) ==> NextDose("monthly", now).date == Date(y1, m1, now.date.day)
    ensures var (y1, m1) := MonthAfter(now.date.year, now.date.month);
      var (y2, m2) := MonthAfter(y1, m1);
      now.date.day > DaysInMonth(y1, m1) ==>
        NextDose("monthly", now).date == Date(y2, m2, now.date.day - DaysInMonth(y1, m1))
    ensures EpochMs(NextDose("monthly", now)) > EpochMs(now)
  {
    NextMonth(now.date);
    DayNumberOrder(now.date, NextDose("monthly", now).date);
  }

  /** The switch has no default branch: any other frequency leaves the next dose at now. */
  lemma {:induction false} OtherFrequencyDose(frequency: string, now: Instant)
    requires frequency != "daily" && frequency != "weekly" && frequency != "monthly"
    ensures NextDose(frequency, now) == now
  {
  }

  /** `{ ...med, lastTaken: now, nextDose: … }` for the medication being marked. */
  function MarkTaken(m: Medication, now: Instant): Medication {
    m.(lastTaken := Some(now), nextDose := NextDose(m.frequency, now))
  }

  /**
   * Marking re-anchors on the moment of marking: a second mark discards the
   * first one's schedule instead of compounding it.
   */
  lemma {:induction false} MarkTakenReanchors(m: Medication, t1: Instant, t2: Instant)
    ensures MarkTaken(MarkTaken(m, t1), t2) == MarkTaken(m, t2)
    ensures MarkTaken(m, t1).lastTaken == Some(t1)
    ensures MarkTaken(m, t1).(lastTaken := m.lastTaken, nextDose := m.nextDose) == m
  {
  }

  /**
   * The previous next dose is ignored, so marking a dose early moves the
   * schedule back: the next dose does not only ever advance.
   */
  lemma {:induction false} MarkTakenCanMoveBack()
    ensures var later := Instant(Date(2024, 3, 1), 0);
      var now := Instant(Date(2024, 1, 15), 34200000);
      var m := Medication("med-1", "A", "1 pill", "daily", "morning", later, None, now);
      EpochMs(MarkTaken(m, now).nextDose) < EpochMs(later)
  {
    var now := Instant(Date(2024, 1, 15), 34200000);
    DailyDose(now);
    DayNumberOrder(now.date, Date(2024, 3, 1));
    DayNumberOrder(NextDay(now.date), Date(2024, 3, 1));
  }

  function Ids(meds: seq<Medication>): set<string> {
    set m | m in meds :: m.id
  }

  /** No two records share an id. */
  ghost predicate UniqueIds(meds: seq<Medication>) {
    forall i, j :: 0 <= i < j < |meds| ==> meds[i].id != meds[j].id
  }

  /** The list after `updateMedication(id, patch)`. */
  function Updated(meds: seq<Medication>, id: string, p: MedicationPatch): (r: seq<Medication>)
    ensures |r| == |meds|
    ensures forall i :: 0 <= i < |meds| ==> r[i] == if meds[i].id == id then Merge(meds[i], p) else meds[i]
  {
    Seqs.MapWhere(meds, (m: Medication) => m.id == id, (m: Medication) => Merge(m, p))
  }

  /** The list after `deleteMedication(id)`. */
  function Deleted(meds: seq<Medication>, id: string): seq<Medication> {
    Seqs.Filter(meds, (m: Medication) => m.id != id)
  }

  /** The list after `markAsTaken(id)` at instant `now`. */
  function Taken(meds: seq<Medication>, id: string, now: Instant): (r: seq<Medication>)
    ensures |r| == |meds|
    ensures forall i :: 0 <= i < |meds| ==> r[i] == if meds[i].id == id then MarkTaken(meds[i], now) else meds[i]
  {
    Seqs.MapWhere(meds, (m: Medication) => m.id == id, (m: Medication) => MarkTaken(m, now))
  }

  /** Adding a record with an id not yet used keeps the ids unique. */
  lemma {:induction false} AddKeepsIdsUnique(meds: seq<Medication>, m: Medication)
    requires UniqueIds(meds)
    requires m.id !in Ids(meds)
    ensures UniqueIds(meds + [m])
  {
    forall i | 0 <= i < |meds| ensures meds[i].id != m.id {
      assert meds[i] in meds;
    }
  }

  /** Deleting a freshly added record undoes the addition. */
  lemma {:induction false} DeleteUndoesAdd(meds: seq<Medication>, m: Medication)
    requires m.id !in Ids(meds)
    ensures Deleted(meds + [m], m.id) == meds
  {
    var p := (x: Medication) => x.id != m.id;
    Seqs.FilterAppend(meds, [m], p);
    Seqs.FilterCons(m, [], p);
    assert [m] + [] == [m];
    forall i | 0 <= i < |meds| ensures p(meds[i]) {
      assert meds[i] in meds;
    }
  }

  /**
   * Deleting removes every record with the id and exactly those, whether or
   * not ids are unique: each other record is kept as often as it occurs and
   * in its order (deleting distributes over concatenation); an unknown id
   * leaves the list as it is.
   */
  lemma {:induction false} DeleteSpec(meds: seq<Medication>, id: string)
    ensures forall m :: m in Deleted(meds, id) <==> m in meds && m.id != id
    ensures forall m :: multiset(Deleted(meds, id))[m] == if m.id != id then multiset(meds)[m] else 0
    ensures forall a, b :: Deleted(a + b, id) == Deleted(a, id) + Deleted(b, id)
    ensures id !in Ids(meds) ==> Deleted(meds, id) == meds
    ensures UniqueIds(meds) && id in Ids(meds) ==> |Deleted(meds, id)| == |meds| - 1
  {
    var p := (m: Medication) => m.id != id;
    forall m ensures m in Deleted(meds, id) <==> m in meds && m.id != id
      ensures multiset(Deleted(meds, id))[m] == if m.id != id then multiset(meds)[m] else 0
    {
      Seqs.FilterCount(meds, p, m);
    }
    forall a, b ensures Deleted(a + b, id) == Deleted(a, id) + Deleted(b, id) {
      Seqs.FilterAppend(a, b, p);
    }
    if id !in Ids(meds) {
      assert forall i :: 0 <= i < |meds| ==> p(meds[i]) by {
        forall i | 0 <= i < |meds| ensures p(meds[i]) {
          assert meds[i] in meds;
        }
      }
    }
    if UniqueIds(meds) && id in Ids(meds) {
      var k :| 0 <= k < |meds| && meds[k].id == id;
      DeleteUnique(meds, id, k);
    }
  }

  lemma {:induction false} DeleteUnique(meds: seq<Medication>, id: string, k: nat)
    requires UniqueIds(meds)
    requires k < |meds| && meds[k].id == id
    ensures Deleted(meds, id) == meds[..k] + meds[k + 1..]
  {
    var p := (m: Medication) => m.id != id;
    var before, after := meds[..k], meds[k + 1..];
    assert meds == before + [meds[k]] + after;
    forall i | 0 <= i < |before| ensures p(before[i]) {
      assert before[i] == meds[i];
    }
    forall i | 0 <= i < |after| ensures p(after[i]) {
      assert after[i] == meds[k + 1 + i];
    }
    Seqs.FilterDropOne(before, meds[k], after, p);
  }

  /** Marking a dose never changes ids, so unique ids stay unique. */
  lemma {:induction false} TakenKeepsIds(meds: seq<Medication>, id: string, now: Instant)
    ensures forall i :: 0 <= i < |meds| ==> Taken(meds, id, now)[i].id == meds[i].id
    ensures UniqueIds(meds) ==> UniqueIds(Taken(meds, id, now))
  {
  }

  /** An update that carries no other id keeps every id and so keeps them unique. */
  lemma {:induction false} UpdateKeepsIds(meds: seq<Medication>, id: string, p: MedicationPatch)
    requires p.id.None? || p.id == Some(id)
    ensures forall i :: 0 <= i < |meds| ==> Updated(meds, id, p)[i].id == meds[i].id
    ensures UniqueIds(meds) ==> UniqueIds(Updated(meds, id, p))
    ensures id !in Ids(meds) ==> Updated(meds, id, p) == meds
  {
    if id !in Ids(meds) {
      forall i | 0 <= i < |meds| ensures Updated(meds, id, p)[i] == meds[i] {
        assert meds[i] in meds;
      }
    }
  }

  /** The key `getUpcomingMedications` sorts by: `new Date(med.nextDose).getTime()`. */
  function DoseTime(m: Medication): int {
    EpochMs(m.nextDose)
  }

  /** The filter of `getUpcomingMedications`: later than now and on today's day of the month. */
  predicate IsUpcoming(m: Medication, now: Instant) {
    EpochMs(m.nextDose) > EpochMs(now) && m.nextDose.date.day == now.date.day
  }

  /** `getUpcomingMedications()` as intended, over the list it reads. */
  function Upcoming(meds: seq<Medication>, now: Instant): seq<Medication> {
    Seqs.SortByKey(Seqs.Filter(meds, (m: Medication) => IsUpcoming(m, now)), DoseTime)
  }

  /**
   * The upcoming doses are exactly the stored doses after now whose day of the
   * month is today's (month and year are not compared), each as often as
   * stored, in ascending order of dose time.
   */
  lemma {:induction false} UpcomingSpec(meds: seq<Medication>, now: Instant)
    ensures Seqs.SortedBy(Upcoming(meds, now), DoseTime)
    ensures forall m :: m in Upcoming(meds, now) <==> m in meds && IsUpcoming(m, now)
    ensures forall m :: multiset(Upcoming(meds, now))[m] == if IsUpcoming(m, now) then multiset(meds)[m] else 0
  {
    var p := (m: Medication) => IsUpcoming(m, now);
    forall m ensures multiset(Upcoming(meds, now))[m] == if IsUpcoming(m, now) then multiset(meds)[m] else 0 {
      Seqs.FilterCount(meds, p, m);
    }
  }

  /** A dose a whole month ahead on today's day of the month counts as upcoming. */
  lemma {:induction false} UpcomingIgnoresMonth()
    ensures var now := Instant(Date(2024, 1, 15), 0);
      var m := Medication("med-1", "A", "1 pill", "monthly", "morning", Instant(Date(2024, 2, 15), 0), None, now);
      Upcoming([m], now) == [m]
  {
    var now := Instant(Date(2024, 1, 15), 0);
    var m := Medication("med-1", "A", "1 pill", "monthly", "morning", Instant(Date(2024, 2, 15), 0), None, now);
    DayNumberOrder(now.date, m.nextDose.date);
    assert IsUpcoming(m, now);
    assert Seqs.Filter([m], (x: Medication) => IsUpcoming(x, now)) == [m];
  }

  /** The zustand store: its state fields and its actions. */
  class Store {
    var medications: seq<Medication>
    var isLoading: bool
    var error: Option<string>

    constructor ()
      ensures medications == [] && !isLoading && error == None
    {
      medications := [];
      isLoading := false;
      error := None;
    }

    /** `resetMedications`. */
    method ResetMedications()
      modifies this
      ensures medications == [] && !isLoading && error == None
    {
      medications := [];
      isLoading := false;
      error := None;
    }

    /** `addMedication`: append one new record with the fresh id, at the end. */
    method AddMedication(form: MedicationForm, freshId: string, createdAt: Instant)
      modifies this
      ensures medications == old(medications) + [NewMedication(form, freshId, createdAt)]
      ensures isLoading == old(isLoading) && error == old(error)
    {
      medications := medications + [NewMedication(form, freshId, createdAt)];
    }

    /** `updateMedication`. */
    method UpdateMedication(id: string, patch: MedicationPatch)
      modifies this
      ensures medications == Updated(old(medications), id, patch)
      ensures isLoading == old(isLoading) && error == old(error)
    {
      medications := Updated(medications, id, patch);
    }

    /** `deleteMedication`. */
    method DeleteMedication(id: string)
      modifies this
      ensures medications == Deleted(old(medications), id)
      ensures isLoading == old(isLoading) && error == old(error)
    {
      medications := Deleted(medications, id);
    }

    /** `markAsTaken` at the instant `now`. */
    method MarkAsTaken(id: string, now: Instant)
      modifies this
      ensures medications == Taken(old(medications), id, now)
      ensures isLoading == old(isLoading) && error == old(error)
    {
      medications := Taken(medications, id, now);
    }
  }
}
