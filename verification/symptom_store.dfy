/**
 * The symptom-checker store (`client/src/store/symptomStore.js`): the symptoms
 * entered so far, the conditions suggested for them, a loading flag and an
 * error. Symptom names are kept unique ignoring case.
 */
module SymptomStore {
  import opened Wrappers
  import Seqs
  import Text

  datatype Symptom = Symptom(id: string, name: string)

  datatype Urgency = Mild | Moderate | Severe

  /** The random choices the mock analysis makes for one symptom. */
  datatype Draw = Draw(id: string, urgency: Urgency, consultDoctor: bool)

  datatype Condition = Condition(
    id: string,
    name: string,
    description: string,
    urgency: Urgency,
    suggestedAction: string)

  const EmptyListError := "Please enter at least one symptom"

  /** Whether a stored symptom has the name, ignoring case (`some(s => s.name.toLowerCase() === …)`). */
  predicate HasName(symptoms: seq<Symptom>, name: string) {
    exists i :: 0 <= i < |symptoms| && Text.Lower(symptoms[i].name) == Text.Lower(name)
  }

  /** No two stored symptoms have names that are equal ignoring case. */
  ghost predicate DistinctNames(symptoms: seq<Symptom>) {
    forall i, j :: 0 <= i < j < |symptoms| ==> Text.Lower(symptoms[i].name) != Text.Lower(symptoms[j].name)
  }

  /** The list after `addSymptom(name)`, with `freshId` the random id. */
  function WithSymptom(symptoms: seq<Symptom>, name: string, freshId: string): seq<Symptom> {
    if HasName(symptoms, name) then symptoms else symptoms + [Symptom(freshId, Text.Trim(name))]
  }

  /**
   * A name already present ignoring case changes nothing; any other name adds
   * exactly one symptom, with the fresh id and the trimmed name, at the end.
   */
  lemma {:induction false} AddSymptomSpec(symptoms: seq<Symptom>, name: string, freshId: string)
    ensures (exists i :: 0 <= i < |symptoms| && Text.Lower(symptoms[i].name) == Text.Lower(name))
      ==> WithSymptom(symptoms, name, freshId) == symptoms
    ensures (forall i :: 0 <= i < |symptoms| ==> Text.Lower(symptoms[i].name) != Text.Lower(name))
      ==> WithSymptom(symptoms, name, freshId) == symptoms + [Symptom(freshId, Text.Trim(name))]
  {
  }

  /**
   * For a trimmed name the case-insensitive check and the stored name agree,
   * so names stay distinct ignoring case, and adding the same name again
   * changes nothing.
   */
  lemma {:induction false} AddSymptomKeepsDistinct(symptoms: seq<Symptom>, name: string, freshId: string, otherId: string)
    requires Text.IsTrimmed(name)
    requires DistinctNames(symptoms)
    ensures DistinctNames(WithSymptom(symptoms, name, freshId))
    ensures WithSymptom(WithSymptom(symptoms, name, freshId), name, otherId) == WithSymptom(symptoms, name, freshId)
  {
    var r := WithSymptom(symptoms, name, freshId);
    if !HasName(symptoms, name) {
      assert r[|symptoms|].name == name;
      forall i, j | 0 <= i < j < |r| ensures Text.Lower(r[i].name) != Text.Lower(r[j].name) {
        if j == |symptoms| {
          assert r[i] == symptoms[i];
        } else {
          assert r[i] == symptoms[i] && r[j] == symptoms[j];
        }
      }
      assert HasName(r, name) by {
        assert Text.Lower(r[|symptoms|].name) == Text.Lower(name);
      }
    }
  }

  /**
   * The store trims only what it stores: an untrimmed spelling of a stored
   * name passes the check and stores the same name a second time.
   */
  lemma {:induction false} UntrimmedNameDuplicates()
    ensures var stored := [Symptom("symptom-1", "fever")];
      WithSymptom(stored, " fever", "symptom-2") == stored + [Symptom("symptom-2", "fever")]
      && !DistinctNames(WithSymptom(stored, " fever", "symptom-2"))
  {
    assert Text.IsTrimmed("fever");
    assert [' '] + "fever" == " fever";
    LeadingBlankDuplicates("symptom-1", "fever", "symptom-2");
  }

  /** A stored trimmed name spelled again with a leading blank is stored a second time. */
  lemma {:induction false} LeadingBlankDuplicates(id: string, name: string, freshId: string)
    requires Text.IsTrimmed(name)
    ensures WithSymptom([Symptom(id, name)], [' '] + name, freshId) == [Symptom(id, name), Symptom(freshId, name)]
      && !DistinctNames(WithSymptom([Symptom(id, name)], [' '] + name, freshId))
  {
    var stored := [Symptom(id, name)];
    var blank := [' '] + name;
    assert |Text.Lower(blank)| != |Text.Lower(name)|;
    assert !HasName(stored, blank);
    Text.TrimLeadingSpace(' ', name);
    var r := WithSymptom(stored, blank, freshId);
    assert r == [Symptom(id, name), Symptom(freshId, name)];
    assert Text.Lower(r[0].name) == Text.Lower(r[1].name);
  }

  /** The list after `removeSymptom(id)`. */
  function WithoutSymptom(symptoms: seq<Symptom>, id: string): seq<Symptom> {
    Seqs.Filter(symptoms, (s: Symptom) => s.id != id)
  }

  /** Removing keeps exactly the symptoms with another id, in order, and keeps names distinct. */
  lemma {:induction false} RemoveSymptomSpec(symptoms: seq<Symptom>, id: string)
    ensures forall s :: s in WithoutSymptom(symptoms, id) <==> s in symptoms && s.id != id
    ensures forall a, b :: WithoutSymptom(a + b, id) == WithoutSymptom(a, id) + WithoutSymptom(b, id)
    ensures DistinctNames(symptoms) ==> DistinctNames(WithoutSymptom(symptoms, id))
  {
    var p := (s: Symptom) => s.id != id;
    forall s ensures s in WithoutSymptom(symptoms, id) <==> s in symptoms && s.id != id {
      Seqs.FilterCount(symptoms, p, s);
    }
    forall a, b ensures WithoutSymptom(a + b, id) == WithoutSymptom(a, id) + WithoutSymptom(b, id) {
      Seqs.FilterAppend(a, b, p);
    }
    if DistinctNames(symptoms) {
      var rel := (x: Symptom, y: Symptom) => Text.Lower(x.name) != Text.Lower(y.name);
      Seqs.FilterPairwise(symptoms, p, rel);
      var r := WithoutSymptom(symptoms, id);
      forall i, j | 0 <= i < j < |r| ensures Text.Lower(r[i].name) != Text.Lower(r[j].name) {
        assert rel(r[i], r[j]);
      }
    }
  }

  /** The suggested action for a draw. */
  function SuggestedAction(consultDoctor: bool): string {
    if consultDoctor then "Consult a doctor within 24 hours" else "Rest and monitor symptoms"
  }

  /** The condition the mock analysis derives from a symptom. */
  function ConditionFor(s: Symptom, d: Draw): Condition {
    Condition(
      d.id,
      Text.Capitalize(s.name) + " Related Condition",
      "A condition commonly associated with " + Text.Lower(s.name) + ".",
      d.urgency,
      SuggestedAction(d.consultDoctor))
  }

  /** `mockCheckSymptoms`, with `draws(i)` the random choices for the `i`-th symptom. */
  function MockConditions(symptoms: seq<Symptom>, draws: nat -> Draw): (r: seq<Condition>)
    ensures |r| == |symptoms|
    ensures forall i :: 0 <= i < |symptoms| ==> r[i] == ConditionFor(symptoms[i], draws(i))
  {
    seq(|symptoms|, i requires 0 <= i < |symptoms| => ConditionFor(symptoms[i], draws(i)))
  }

  /**
   * A condition's name is the symptom's name with its first character
   * upper-cased, then " Related Condition": ignoring case it starts with the
   * symptom's name, and the description holds that name in lower case.
   */
  lemma {:induction false} ConditionNames(s: Symptom, d: Draw)
    ensures var c := ConditionFor(s, d);
      && |c.name| == |s.name| + 18
      && Text.Lower(c.name[..|s.name|]) == Text.Lower(s.name)
      && c.name[|s.name|..] == " Related Condition"
      && c.description[37..37 + |s.name|] == Text.Lower(s.name)
  {
    var c := ConditionFor(s, d);
    assert c.name[..|s.name|] == Text.Capitalize(s.name);
    Text.LowerCapitalize(s.name);
  }

  /** The store's state and its actions. */
  class Store {
    var symptoms: seq<Symptom>
    var conditions: seq<Condition>
    var isLoading: bool
    var error: Option<string>

    constructor ()
      ensures symptoms == [] && conditions == [] && !isLoading && error == None
    {
      symptoms := [];
      conditions := [];
      isLoading := false;
      error := None;
    }

    /** `resetSymptoms`: the loading flag is left as it is. */
    method ResetSymptoms()
      modifies this
      ensures symptoms == [] && conditions == [] && error == None
      ensures isLoading == old(isLoading)
    {
      symptoms := [];
      conditions := [];
      error := None;
    }

    /** `clearSymptoms`: the same transition as `resetSymptoms`. */
    method ClearSymptoms()
      modifies this
      ensures symptoms == [] && conditions == [] && error == None
      ensures isLoading == old(isLoading)
    {
      symptoms := [];
      conditions := [];
      error := None;
    }

    /** `addSymptom(name)`, with `freshId` the random id. */
    method AddSymptom(name: string, freshId: string)
      modifies this
      ensures symptoms == WithSymptom(old(symptoms), name, freshId)
      ensures conditions == old(conditions) && isLoading == old(isLoading) && error == old(error)
    {
      if HasName(symptoms, name) {
        return;
      }
      symptoms := symptoms + [Symptom(freshId, Text.Trim(name))];
    }

    /** `removeSymptom(id)`. */
    method RemoveSymptom(id: string)
      modifies this
      ensures symptoms == WithoutSymptom(old(symptoms), id)
      ensures conditions == old(conditions) && isLoading == old(isLoading) && error == old(error)
    {
      symptoms := WithoutSymptom(symptoms, id);
    }

    /**
     * `checkSymptoms`, its wait collapsed: with no symptoms only the error is
     * set; otherwise loading starts and the error clears, then the conditions
     * arrive, one per symptom in order, and loading ends.
     */
    method CheckSymptoms(draws: nat -> Draw)
      modifies this
      ensures symptoms == old(symptoms)
      ensures old(symptoms) == [] ==>
        error == Some(EmptyListError) && conditions == old(conditions) && isLoading == old(isLoading)
      ensures old(symptoms) != [] ==>
        error == None && conditions == MockConditions(old(symptoms), draws) && !isLoading
    {
      if |symptoms| == 0 {
        error := Some(EmptyListError);
        return;
      }
      isLoading := true;
      error := None;
      conditions := MockConditions(symptoms, draws);
      isLoading := false;
    }
  }
}
