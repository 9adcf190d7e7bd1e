/**
 * The medications page (`client/src/pages/Medications.jsx`): the labels and
 * colours shown for a medication, the next-dose input's text, and the submit
 * handler that adds or updates a medication.
 */
module MedicationsPage {
  import opened Wrappers
  import opened CivilTime
  import Text
  import MedicationStore

  type Medication = MedicationStore.Medication
  type MedicationForm = MedicationStore.MedicationForm

  /** `getFrequencyLabel`. */
  function FrequencyLabel(frequency: string): string {
    if frequency == "daily" then "Every Day"
    else if frequency == "weekly" then "Every Week"
    else if frequency == "monthly" then "Every Month"
    else frequency
  }

  /** The frequencies the form's select offers. */
  const Frequencies: seq<string> := ["daily", "weekly", "monthly"]

  /**
   * Each offered frequency gets its own `Every …` label (`Every Day`,
   * `Every Week`, `Every Month`); any other value is shown as it is.
   */
  lemma {:induction false} FrequencyLabelSpec(frequency: string)
    ensures FrequencyLabel("daily") == "Every Day" && FrequencyLabel("weekly") == "Every Week"
      && FrequencyLabel("monthly") == "Every Month"
    ensures frequency !in Frequencies ==> FrequencyLabel(frequency) == frequency
    ensures frequency in Frequencies ==> FrequencyLabel(frequency)[..6] == "Every "
    ensures forall i, j :: 0 <= i < j < |Frequencies| ==> FrequencyLabel(Frequencies[i]) != FrequencyLabel(Frequencies[j])
  {
  }

  /** `getTimeOfDayColor`. */
  function TimeOfDayColor(timeOfDay: string): string {
    if timeOfDay == "morning" then "bg-yellow-50 text-yellow-700"
    else if timeOfDay == "afternoon" then "bg-blue-50 text-blue-700"
    else if timeOfDay == "evening" then "bg-purple-50 text-purple-700"
    else if timeOfDay == "night" then "bg-indigo-50 text-indigo-700"
    else "bg-gray-50 text-gray-700"
  }

  /** The times of day the form's select offers, with the text of each option. */
  const TimesOfDay: seq<string> := ["morning", "afternoon", "evening", "night"]
  const TimeOfDayOptions: seq<string> := ["Morning", "Afternoon", "Evening", "Night"]

  const DefaultColor := "bg-gray-50 text-gray-700"

  /**
   * The four offered times each get a colour of their own, none of them the
   * gray default; every other value gets the default.
   */
  lemma {:induction false} TimeOfDayColorSpec(timeOfDay: string)
    ensures timeOfDay in TimesOfDay <==> TimeOfDayColor(timeOfDay) != DefaultColor
    ensures forall i, j :: 0 <= i < j < |TimesOfDay| ==> TimeOfDayColor(TimesOfDay[i]) != TimeOfDayColor(TimesOfDay[j])
  {
  }

  /** `timeOfDay.charAt(0).toUpperCase() + timeOfDay.slice(1)`. */
  function TimeOfDayText(timeOfDay: string): string {
    Text.Capitalize(timeOfDay)
  }

  /**
   * The shown time of day differs from the stored one in case only, and for
   * an offered time it reads as the select's own option text.
   */
  lemma {:induction false} TimeOfDayTextSpec(timeOfDay: string)
    ensures |TimeOfDayText(timeOfDay)| == |timeOfDay|
    ensures Text.Lower(TimeOfDayText(timeOfDay)) == Text.Lower(timeOfDay)
    ensures forall i :: 0 <= i < |TimesOfDay| ==> TimeOfDayText(TimesOfDay[i]) == TimeOfDayOptions[i]
  {
    Text.LowerCapitalize(timeOfDay);
    OptionText("morning", "Morning");
    OptionText("afternoon", "Afternoon");
    OptionText("evening", "Evening");
    OptionText("night", "Night");
  }

  /** An option whose text is its value with the first letter in upper case. */
  lemma {:induction false} OptionText(value: string, text: string)
    requires value != [] && |text| == |value| && text[1..] == value[1..]
    requires Text.IsLower(value[0]) && text[0] as int == value[0] as int - 32
    ensures TimeOfDayText(value) == text
  {
    assert TimeOfDayText(value) == [Text.UpperChar(value[0])] + value[1..];
    assert text == [text[0]] + text[1..];
  }

  /** `new Date(formData.nextDose).toISOString().slice(0, 16)`: the next-dose input's text. */
  function InputValue(t: Instant): string
    requires 0 <= t.date.year <= 9999
  {
    IsoString(t)[..16]
  }

  /**
   * The input shows `YYYY-MM-DDTHH:MM`: the date and the time to the minute,
   * so two instants in the same minute of the same day show the same text.
   */
  lemma {:induction false} InputValueSpec(t: Instant)
    requires 0 <= t.date.year <= 9999
    ensures InputValue(t) == IsoDate(t.date) + "T" + Text.Pad(Hours(t), 2) + ":" + Text.Pad(Minutes(t), 2)
  {
    var head := IsoDate(t.date) + "T" + Text.Pad(Hours(t), 2) + ":" + Text.Pad(Minutes(t), 2);
    var tail := ":" + Text.Pad(Seconds(t), 2) + "." + Text.Pad(t.ms % 1000, 3) + "Z";
    assert |IsoDate(t.date)| == 10;
    assert |head| == 16;
    assert IsoString(t) == head + tail;
  }

  /** Seconds and milliseconds do not reach the input. */
  lemma {:induction false} InputValueMinutes(t1: Instant, t2: Instant)
    requires 0 <= t1.date.year <= 9999
    requires t1.date == t2.date && t1.ms / 60000 == t2.ms / 60000
    ensures InputValue(t1) == InputValue(t2)
  {
    InputValueSpec(t1);
    InputValueSpec(t2);
    assert Hours(t1) == Hours(t2) by {
      assert t1.ms / 3600000 == t1.ms / 60000 / 60;
      assert t2.ms / 3600000 == t2.ms / 60000 / 60;
    }
  }

  /** `initialFormState`, with the instant the page was rendered. */
  function InitialForm(now: Instant): MedicationForm {
    MedicationStore.MedicationForm("", "", "daily", "morning", now)
  }

  /** The form fields of a stored medication, as `handleEdit` loads them. */
  function FormOf(m: Medication): MedicationForm {
    MedicationStore.MedicationForm(m.name, m.dosage, m.frequency, m.timeOfDay, m.nextDose)
  }

  /** The update `updateMedication(selectedMedication.id, formData)` applies: every field of the form. */
  function EditPatch(form: MedicationForm): MedicationStore.MedicationPatch {
    MedicationStore.MedicationPatch(None, Some(form.name), Some(form.dosage), Some(form.frequency),
      Some(form.timeOfDay), Some(form.nextDose), None, None)
  }

  /**
   * Saving an edit replaces every form field and keeps the id, the last time
   * taken and the creation time; saving a medication's own form unchanged
   * leaves it as it was.
   */
  lemma {:induction false} EditPatchSpec(m: Medication, form: MedicationForm)
    ensures FormOf(MedicationStore.Merge(m, EditPatch(form))) == form
    ensures MedicationStore.Merge(m, EditPatch(form)).id == m.id
    ensures MedicationStore.Merge(m, EditPatch(form)).lastTaken == m.lastTaken
    ensures MedicationStore.Merge(m, EditPatch(form)).createdAt == m.createdAt
    ensures MedicationStore.Merge(m, EditPatch(FormOf(m))) == m
  {
  }

  /** The page state the submit handler works on. */
  class Page {
    var showForm: bool
    var selectedMedication: Option<Medication>
    var formData: MedicationForm

    constructor (now: Instant)
      ensures !showForm && selectedMedication == None && formData == InitialForm(now)
    {
      showForm := false;
      selectedMedication := None;
      formData := InitialForm(now);
    }

    /** `handleEdit(medication)`: select it and load its fields into the form. */
    method HandleEdit(m: Medication)
      modifies this
      ensures showForm && selectedMedication == Some(m) && formData == FormOf(m)
    {
      selectedMedication := Some(m);
      formData := FormOf(m);
      showForm := true;
    }

    /**
     * `handleSubmit`: update the selected medication, or add the form as a new
     * medication when none is selected; then close and reset the form.
     */
    method HandleSubmit(store: MedicationStore.Store, freshId: string, now: Instant)
      modifies this, store
      ensures old(selectedMedication).Some? ==>
        store.medications == MedicationStore.Updated(old(store.medications), old(selectedMedication).value.id, EditPatch(old(formData)))
      ensures old(selectedMedication).None? ==>
        store.medications == old(store.medications) + [MedicationStore.NewMedication(old(formData), freshId, now)]
      ensures store.isLoading == old(store.isLoading) && store.error == old(store.error)
      ensures !showForm && selectedMedication == None && formData == InitialForm(now)
    {
      if selectedMedication.Some? {
        store.UpdateMedication(selectedMedication.value.id, EditPatch(formData));
      } else {
        store.AddMedication(formData, freshId, now);
      }
      showForm := false;
      selectedMedication := None;
      formData := InitialForm(now);
    }
  }
}
