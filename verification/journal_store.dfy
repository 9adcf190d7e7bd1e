/**
 * The health-journal store (`client/src/store/journalStore.js`): a list of
 * dated log entries, newest first, with a loading flag and an error.
 */
module JournalStore {
  import opened Wrappers
  import opened CivilTime
  import Seqs
  import Text

  /** The doctor-visit part of a log. */
  datatype DoctorVisit = DoctorVisit(doctorName: string, specialization: string, notes: string)

  /** A stored log. `date` is the ISO `YYYY-MM-DD` string the date input produced. */
  datatype Log = Log(
    id: string,
    date: string,
    symptoms: seq<string>,
    medications: seq<string>,
    doctorVisit: DoctorVisit,
    notes: string,
    createdAt: Instant)

  /** The fields the journal form collects. */
  datatype LogForm = LogForm(
    date: string,
    symptoms: seq<string>,
    medications: seq<string>,
    doctorVisit: DoctorVisit,
    notes: string)

  /** The keys an update object carries; `None` is a key the object does not have. */
  datatype LogPatch = LogPatch(
    id: Option<string>,
    date: Option<string>,
    symptoms: Option<seq<string>>,
    medications: Option<seq<string>>,
    doctorVisit: Option<DoctorVisit>,
    notes: Option<string>,
    createdAt: Option<Instant>)

  /** `{ ...log, id, createdAt }` for a form object. */
  function NewLog(form: LogForm, id: string, createdAt: Instant): Log {
    Log(id, form.date, form.symptoms, form.medications, form.doctorVisit, form.notes, createdAt)
  }

  /** `{ ...log, ...updatedLog }`. */
  function Merge(l: Log, p: LogPatch): Log {
    Log(
      p.id.GetOr(l.id), p.date.GetOr(l.date), p.symptoms.GetOr(l.symptoms),
      p.medications.GetOr(l.medications), p.doctorVisit.GetOr(l.doctorVisit),
      p.notes.GetOr(l.notes), p.createdAt.GetOr(l.createdAt))
  }

  function Ids(logs: seq<Log>): set<string> {
    set l | l in logs :: l.id
  }

  /** The list after `addLog`: the new log in front of the old list. */
  function WithLog(logs: seq<Log>, l: Log): seq<Log> {
    [l] + logs
  }

  /** The list after `updateLog(id, updatedLog)`. */
  function LogsUpdated(logs: seq<Log>, id: string, p: LogPatch): (r: seq<Log>)
    ensures |r| == |logs|
    ensures forall i :: 0 <= i < |logs| ==> r[i] == if logs[i].id == id then Merge(logs[i], p) else logs[i]
  {
    Seqs.MapWhere(logs, (l: Log) => l.id == id, (l: Log) => Merge(l, p))
  }

  /** The list after `deleteLog(id)`. */
  function LogsDeleted(logs: seq<Log>, id: string): seq<Log> {
    Seqs.Filter(logs, (l: Log) => l.id != id)
  }

  /** Deleting a freshly added log undoes the addition. */
  lemma {:induction false} DeleteUndoesAdd(logs: seq<Log>, l: Log)
    requires l.id !in Ids(logs)
    ensures LogsDeleted(WithLog(logs, l), l.id) == logs
  {
    var p := (x: Log) => x.id != l.id;
    Seqs.FilterCons(l, logs, p);
    forall i | 0 <= i < |logs| ensures p(logs[i]) {
      assert logs[i] in logs;
    }
  }

  /**
   * Deleting removes every log with the id and keeps exactly the others,
   * in their order; an unknown id changes nothing.
   */
  lemma {:induction false} DeleteLogSpec(logs: seq<Log>, id: string)
    ensures forall l :: l in LogsDeleted(logs, id) <==> l in logs && l.id != id
    ensures forall a, b :: LogsDeleted(a + b, id) == LogsDeleted(a, id) + LogsDeleted(b, id)
    ensures id !in Ids(logs) ==> LogsDeleted(logs, id) == logs
  {
    var p := (l: Log) => l.id != id;
    forall l ensures l in LogsDeleted(logs, id) <==> l in logs && l.id != id {
      Seqs.FilterCount(logs, p, l);
    }
    forall a, b ensures LogsDeleted(a + b, id) == LogsDeleted(a, id) + LogsDeleted(b, id) {
      Seqs.FilterAppend(a, b, p);
    }
    if id !in Ids(logs) {
      forall i | 0 <= i < |logs| ensures p(logs[i]) {
        assert logs[i] in logs;
      }
    }
  }

  /** An update to an unknown id changes nothing; one that carries no other id keeps every id. */
  lemma {:induction false} UpdateLogSpec(logs: seq<Log>, id: string, p: LogPatch)
    ensures id !in Ids(logs) ==> LogsUpdated(logs, id, p) == logs
    ensures p.id.None? || p.id == Some(id) ==> Ids(LogsUpdated(logs, id, p)) == Ids(logs)
  {
    var r := LogsUpdated(logs, id, p);
    if id !in Ids(logs) {
      forall i | 0 <= i < |logs| ensures r[i] == logs[i] {
        assert logs[i] in logs;
      }
    }
    if p.id.None? || p.id == Some(id) {
      forall x | x in Ids(r) ensures x in Ids(logs) {
        var l :| l in r && l.id == x;
        var i :| 0 <= i < |r| && r[i] == l;
        assert logs[i] in logs;
      }
      forall x | x in Ids(logs) ensures x in Ids(r) {
        var l :| l in logs && l.id == x;
        var i :| 0 <= i < |logs| && logs[i] == l;
        assert r[i] in r;
      }
    }
  }

  /** `date >= startDate && date <= endDate`, compared as strings. */
  predicate InRange(date: string, startDate: string, endDate: string) {
    Text.AtMost(startDate, date) && Text.AtMost(date, endDate)
  }

  /** `getLogsByDateRange(startDate, endDate)` as intended, over the list it reads. */
  function LogsByDateRange(logs: seq<Log>, startDate: string, endDate: string): seq<Log> {
    Seqs.Filter(logs, (l: Log) => InRange(l.date, startDate, endDate))
  }

  /** The range query keeps exactly the logs inside the range, each as often as stored, in store order. */
  lemma {:induction false} LogsByDateRangeSpec(logs: seq<Log>, startDate: string, endDate: string)
    ensures forall l :: l in LogsByDateRange(logs, startDate, endDate) <==> l in logs && InRange(l.date, startDate, endDate)
    ensures forall l ::
      multiset(LogsByDateRange(logs, startDate, endDate))[l]
      == (if InRange(l.date, startDate, endDate) then multiset(logs)[l] else 0)
    ensures forall a, b ::
      LogsByDateRange(a + b, startDate, endDate)
      == LogsByDateRange(a, startDate, endDate) + LogsByDateRange(b, startDate, endDate)
  {
    var p := (l: Log) => InRange(l.date, startDate, endDate);
    forall l
      ensures multiset(Seqs.Filter(logs, p))[l] == (if p(l) then multiset(logs)[l] else 0)
      ensures l in Seqs.Filter(logs, p) <==> l in logs && p(l)
    {
      Seqs.FilterCount(logs, p, l);
    }
    forall a, b ensures Seqs.Filter(a + b, p) == Seqs.Filter(a, p) + Seqs.Filter(b, p) {
      Seqs.FilterAppend(a, b, p);
    }
  }

  /** The store's state and its actions. */
  class Store {
    var logs: seq<Log>
    var isLoading: bool
    var error: Option<string>

    constructor ()
      ensures logs == [] && !isLoading && error == None
    {
      logs := [];
      isLoading := false;
      error := None;
    }

    /** `resetLogs`. */
    method ResetLogs()
      modifies this
      ensures logs == [] && !isLoading && error == None
    {
      logs := [];
      isLoading := false;
      error := None;
    }

    /** `addLog`: the new log, with the fresh id, goes first. */
    method AddLog(form: LogForm, freshId: string, createdAt: Instant)
      modifies this
      ensures logs == WithLog(old(logs), NewLog(form, freshId, createdAt))
      ensures |logs| == |old(logs)| + 1 && logs[0].id == freshId && logs[1..] == old(logs)
      ensures isLoading == old(isLoading) && error == old(error)
    {
      logs := WithLog(logs, NewLog(form, freshId, createdAt));
    }

    /** `updateLog`. */
    method UpdateLog(id: string, p: LogPatch)
      modifies this
      ensures logs == LogsUpdated(old(logs), id, p)
      ensures isLoading == old(isLoading) && error == old(error)
    {
      logs := LogsUpdated(logs, id, p);
    }

    /** `deleteLog`. */
    method DeleteLog(id: string)
      modifies this
      ensures logs == LogsDeleted(old(logs), id)
      ensures isLoading == old(isLoading) && error == old(error)
    {
      logs := LogsDeleted(logs, id);
    }
  }
}
