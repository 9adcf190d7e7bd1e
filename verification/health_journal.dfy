/**
 * The journal page (`client/src/pages/HealthJournal.jsx`): the date filter
 * over the stored logs, the comma-separated text fields for symptoms and
 * medications, and the submit handler that adds or updates a log.
 */
module HealthJournal {
  import opened Wrappers
  import opened CivilTime
  import Seqs
  import Text
  import JournalStore

  type Log = JournalStore.Log
  type LogForm = JournalStore.LogForm

  /** `value.split(',').map(s => s.trim())`: the list a comma-separated field is read as. */
  function ParseList(value: string): (r: seq<string>)
    ensures |r| == multiset(value)[','] + 1
    ensures forall i :: 0 <= i < |r| ==> ',' !in r[i] && Text.IsTrimmed(r[i])
  {
    var pieces := Text.Split(value, ',');
    Text.SplitCount(value, ',');
    forall i | 0 <= i < |pieces| ensures ',' !in Text.Trim(pieces[i]) {
      Text.TrimAvoids(pieces[i], ',');
    }
    seq(|pieces|, i requires 0 <= i < |pieces| => Text.Trim(pieces[i]))
  }

  /** `list.join(', ')`: how a list is shown in its text field. */
  function Display(xs: seq<string>): string {
    Text.Join(xs, ", ")
  }

  /**
   * An empty field is read as one empty entry, not as no entries, so a log
   * saved after the field was touched shows a symptoms section; a list with
   * no entries is displayed as the empty field.
   */
  lemma {:induction false} ParseEmpty()
    ensures ParseList("") == [""]
    ensures Display([]) == ""
    ensures |ParseList(Display([]))| == 1
  {
  }

  /** A leading blank does not change how the first entry is read. */
  lemma {:induction false} ParseLeadingSpace(s: string)
    ensures ParseList([' '] + s) == ParseList(s)
  {
    var p := Text.Split(s, ',');
    var q := Text.Split([' '] + s, ',');
    Text.SplitCons(' ', s, ',');
    assert |q| == |p| && q[0] == [' '] + p[0];
    var r, t := ParseList([' '] + s), ParseList(s);
    forall i | 0 <= i < |r| ensures r[i] == t[i] {
      if i == 0 {
        Text.TrimLeadingSpace(' ', p[0]);
      } else {
        assert q[i] == p[i];
      }
    }
  }

  /** The text before the first comma is read as the first entry, the rest as the remaining entries. */
  lemma {:induction false} ParseAppend(a: string, b: string)
    requires ',' !in a
    ensures ParseList(a + [','] + b) == [Text.Trim(a)] + ParseList(b)
  {
    Text.SplitAppend(a, ',', b);
    Text.SplitNoSep(a, ',');
    var p := Text.Split(a + [','] + b, ',');
    assert p == [a] + Text.Split(b, ',');
    var r, q := ParseList(a + [','] + b), ParseList(b);
    assert |r| == |q| + 1;
    forall i | 0 <= i < |r| ensures r[i] == ([Text.Trim(a)] + q)[i] {
      if i > 0 {
        assert p[i] == Text.Split(b, ',')[i - 1];
      }
    }
  }

  /** Reading back the displayed text of a list of trimmed, comma-free entries gives the list. */
  lemma {:induction false} ParseDisplay(xs: seq<string>)
    requires xs != []
    requires forall i :: 0 <= i < |xs| ==> ',' !in xs[i] && Text.IsTrimmed(xs[i])
    ensures ParseList(Display(xs)) == xs
  {
    if |xs| == 1 {
      Text.SplitNoSep(xs[0], ',');
    } else {
      var rest := Display(xs[1..]);
      ParseDisplay(xs[1..]);
      assert Display(xs) == xs[0] + [','] + ([' '] + rest);
      ParseAppend(xs[0], [' '] + rest);
      ParseLeadingSpace(rest);
      assert xs == [xs[0]] + xs[1..];
    }
  }

  /** Editing a field and reading the list back through its display is a fixed point. */
  lemma {:induction false} ParseIdempotent(value: string)
    ensures ParseList(Display(ParseList(value))) == ParseList(value)
  {
    ParseDisplay(ParseList(value));
  }

  /** `initialFormState`, dated with today's day key. */
  function InitialForm(today: string): LogForm {
    JournalStore.LogForm(today, [], [], JournalStore.DoctorVisit("", "", ""), "")
  }

  /** The form fields of a stored log, as `handleEdit` loads them. */
  function FormOf(l: Log): LogForm {
    JournalStore.LogForm(l.date, l.symptoms, l.medications, l.doctorVisit, l.notes)
  }

  /** The update `updateLog(selectedLog.id, formData)` applies: every field of the form. */
  function EditPatch(form: LogForm): JournalStore.LogPatch {
    JournalStore.LogPatch(None, Some(form.date), Some(form.symptoms), Some(form.medications),
      Some(form.doctorVisit), Some(form.notes), None)
  }

  /**
   * Saving an edit replaces every form field and keeps the id and creation
   * time; saving a log's own form unchanged leaves the log as it was.
   */
  lemma {:induction false} EditPatchSpec(l: Log, form: LogForm)
    ensures FormOf(JournalStore.Merge(l, EditPatch(form))) == form
    ensures JournalStore.Merge(l, EditPatch(form)).id == l.id
    ensures JournalStore.Merge(l, EditPatch(form)).createdAt == l.createdAt
    ensures JournalStore.Merge(l, EditPatch(FormOf(l))) == l
  {
  }

  /** The date filter the page opens with: from one calendar month back to today. */
  function DefaultDateFilter(now: Instant): (string, string) {
    (DayKey(MonthBack(now)), DayKey(now))
  }

  /** `new Date(new Date().setMonth(new Date().getMonth() - 1))`. */
  function MonthBack(now: Instant): Instant {
    Instant(SetMonth(now.date, now.date.month - 1), now.ms)
  }

  /** The opening filter starts at the ISO date one calendar month back. */
  lemma {:induction false} DefaultDateFilterStart(now: Instant)
    ensures DefaultDateFilter(now).0 == IsoDate(MonthBack(now).date)
  {
    DayKeyIsIsoDate(MonthBack(now));
  }

  /** The opening filter ends at today's ISO date. */
  lemma {:induction false} DefaultDateFilterEnd(now: Instant)
    ensures DefaultDateFilter(now).1 == IsoDate(now.date)
  {
    DayKeyIsIsoDate(now);
  }

  /** For four-digit years, the string range test on ISO dates is the calendar range test. */
  lemma {:induction false} InRangeIsoDates(d: CivilDate, start: CivilDate, end: CivilDate)
    requires 0 <= d.year <= 9999 && 0 <= start.year <= 9999 && 0 <= end.year <= 9999
    ensures JournalStore.InRange(IsoDate(d), IsoDate(start), IsoDate(end))
      <==> DayNumber(start) <= DayNumber(d) <= DayNumber(end)
  {
    IsoDateAtMost(start, d);
    IsoDateAtMost(d, end);
  }

  /**
   * With a four-digit year, the opening filter runs from the ISO date one
   * calendar month back to today's, so it keeps a log dated on a calendar day
   * exactly when that day lies between the two; today's logs are always kept.
   */
  lemma {:induction false} DefaultDateFilterSpec(now: Instant, d: CivilDate)
    requires 1 <= now.date.year <= 9999 && 0 <= d.year <= 9999
    ensures JournalStore.InRange(IsoDate(d), DefaultDateFilter(now).0, DefaultDateFilter(now).1)
      <==> DayNumber(MonthBack(now).date) <= DayNumber(d) <= DayNumber(now.date)
    ensures JournalStore.InRange(IsoDate(now.date), DefaultDateFilter(now).0, DefaultDateFilter(now).1)
  {
    var start := MonthBack(now).date;
    DefaultDateFilterStart(now);
    DefaultDateFilterEnd(now);
    MonthBackBefore(now);
    InRangeIsoDates(d, start, now.date);
    InRangeIsoDates(now.date, start, now.date);
  }

  /** One calendar month back is an earlier day, in this year or the one before. */
  lemma {:induction false} MonthBackBefore(now: Instant)
    ensures now.date.year - 1 <= MonthBack(now).date.year <= now.date.year
    ensures DayNumber(MonthBack(now).date) < DayNumber(now.date)
  {
    PrevMonth(now.date);
    DayNumberOrder(MonthBack(now).date, now.date);
  }

  /** The page state the submit handler works on. */
  class Page {
    var showForm: bool
    var selectedLog: Option<Log>
    var formData: LogForm

    constructor (today: string)
      ensures !showForm && selectedLog == None && formData == InitialForm(today)
    {
      showForm := false;
      selectedLog := None;
      formData := InitialForm(today);
    }

    /** `handleEdit(log)`: select the log and load its fields into the form. */
    method HandleEdit(l: Log)
      modifies this
      ensures showForm && selectedLog == Some(l) && formData == FormOf(l)
    {
      selectedLog := Some(l);
      formData := FormOf(l);
      showForm := true;
    }

    /** The symptoms field's `onChange`. */
    method SetSymptoms(value: string)
      modifies this
      ensures formData == old(formData).(symptoms := ParseList(value))
      ensures showForm == old(showForm) && selectedLog == old(selectedLog)
    {
      formData := formData.(symptoms := ParseList(value));
    }

    /** The medications field's `onChange`. */
    method SetMedications(value: string)
      modifies this
      ensures formData == old(formData).(medications := ParseList(value))
      ensures showForm == old(showForm) && selectedLog == old(selectedLog)
    {
      formData := formData.(medications := ParseList(value));
    }

    /**
     * `handleSubmit`: update the selected log, or add the form as a new log
     * when none is selected; then close and reset the form.
     */
    method HandleSubmit(store: JournalStore.Store, freshId: string, now: Instant, today: string)
      modifies this, store
      ensures old(selectedLog).Some? ==>
        store.logs == JournalStore.LogsUpdated(old(store.logs), old(selectedLog).value.id, EditPatch(old(formData)))
      ensures old(selectedLog).None? ==>
        store.logs == JournalStore.WithLog(old(store.logs), JournalStore.NewLog(old(formData), freshId, now))
      ensures store.isLoading == old(store.isLoading) && store.error == old(store.error)
      ensures !showForm && selectedLog == None && formData == InitialForm(today)
    {
      if selectedLog.Some? {
        store.UpdateLog(selectedLog.value.id, EditPatch(formData));
      } else {
        store.AddLog(formData, freshId, now);
      }
      showForm := false;
      selectedLog := None;
      formData := InitialForm(today);
    }
  }
}
