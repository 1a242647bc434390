/** Merging a clarification answer into a stored intent
    (src/services/intentMerge.service.js). `getAllowedCarTypes()` is the
    `allowedTypes` parameter. A `None` result stands for the TypeError the
    source throws when the stored intent has no `hard_constraints` object. */
module IntentMerge {
  import opened Intents
  import opened Text

  /** `answer.toLowerCase().trim()` */
  function Normalize(answer: string): string {
    Trim(Lower(answer))
  }

  /** The normalised answer names type `t` in the form "<t> only". */
  predicate AnswerNames(t: string, normalized: string) {
    normalized == Lower(t) + " only"
  }

  /** The index of the first allowed type the normalised answer names. */
  function SelectedType(normalized: string, allowedTypes: seq<string>): (r: Option<nat>)
    ensures r.Some? ==> r.value < |allowedTypes| && AnswerNames(allowedTypes[r.value], normalized)
    ensures r.Some? ==> forall j :: 0 <= j < r.value ==> !AnswerNames(allowedTypes[j], normalized)
    ensures r.None? ==> forall j :: 0 <= j < |allowedTypes| ==> !AnswerNames(allowedTypes[j], normalized)
  {
    SelectedFrom(normalized, allowedTypes, 0)
  }

  function SelectedFrom(normalized: string, allowedTypes: seq<string>, from: nat): (r: Option<nat>)
    requires from <= |allowedTypes|
    ensures r.Some? ==> from <= r.value < |allowedTypes| && AnswerNames(allowedTypes[r.value], normalized)
    ensures r.Some? ==> forall j :: from <= j < r.value ==> !AnswerNames(allowedTypes[j], normalized)
    ensures r.None? ==> forall j :: from <= j < |allowedTypes| ==> !AnswerNames(allowedTypes[j], normalized)
    decreases |allowedTypes| - from
  {
    if from == |allowedTypes| then None
    else if AnswerNames(allowedTypes[from], normalized) then Some(from)
    else SelectedFrom(normalized, allowedTypes, from + 1)
  }

  predicate NotTypeConstraint(c: Constraint) {
    c.field != "type"
  }

  /** `include.filter(c => c.field !== "type")` */
  function WithoutTypeConstraints(cs: seq<Constraint>): seq<Constraint> {
    Filter(NotTypeConstraint, cs)
  }

  function ListOrEmpty<T>(s: Slot<seq<T>>): seq<T> {
    if s.Present? then s.value else []
  }

  /** The copy before the answer is looked at: `include` and `exclude`
      defaulted to `[]`, type entries dropped from `include`, and
      `soft_preferences.type` deleted; no hard-constraints object is the
      `TypeError` of the first assignment. */
  function ClearedTypeConstraints(existing: Intent): Option<Intent> {
    if !existing.hard.Present? then None
    else
      var h := existing.hard.value;
      var soft := if existing.soft.Present? then existing.soft.value else SoftPreferences(Absent, map[]);
      Some(existing.(hard := Present(HardConstraints(Present(WithoutTypeConstraints(ListOrEmpty(h.includes))),
                                                     Present(ListOrEmpty(h.excludes)))),
                     soft := Present(soft.(vehicleType := Absent))))
  }

  function IncludeList(intent: Intent): seq<Constraint> {
    if intent.hard.Present? then ListOrEmpty(intent.hard.value.includes) else []
  }

  /** `intent.hard_constraints.include.push(c)` */
  function WithInclude(intent: Intent, c: Constraint): Intent
    requires intent.hard.Present?
  {
    intent.(hard := Present(intent.hard.value.(includes := Present(IncludeList(intent) + [c]))))
  }

  /** The intent the merge resolves to once the answer is normalised. */
  function MergedForAnswer(existing: Intent, normalized: string, allowedTypes: seq<string>): Option<Intent> {
    match ClearedTypeConstraints(existing)
    case None => None
    case Some(cleared) =>
      if normalized == "any type" then Some(cleared)
      else match SelectedType(normalized, allowedTypes)
        case Some(k) => Some(WithInclude(cleared, Constraint("type", allowedTypes[k])))
        case None => Some(cleared)
  }

  /** The intent `mergeIntent(existingIntent, answer)` resolves to: the answer
      is compared only after lower-casing and trimming. */
  function MergedIntent(existing: Intent, answer: string, allowedTypes: seq<string>): Option<Intent> {
    MergedForAnswer(existing, Normalize(answer), allowedTypes)
  }

  /** `mergeIntent`: edits a copy of the stored intent step by step and
      scans the allowed types, returning at the first one the answer names. */
  method MergeIntent(existing: Intent, answer: string, allowedTypes: seq<string>) returns (r: Option<Intent>)
    ensures r == MergedIntent(existing, answer, allowedTypes)
  {
    var intent := existing;
    var normalizedAnswer := Trim(Lower(answer));
    assert normalizedAnswer == Normalize(answer);
    if !intent.hard.Present? {
      return None;
    }
    var incl := ListOrEmpty(intent.hard.value.includes);
    var excl := ListOrEmpty(intent.hard.value.excludes);
    incl := WithoutTypeConstraints(incl);
    var soft := if intent.soft.Present? then intent.soft.value else SoftPreferences(Absent, map[]);
    soft := soft.(vehicleType := Absent);
    intent := intent.(hard := Present(HardConstraints(Present(incl), Present(excl))), soft := Present(soft));
    ghost var cleared := intent;
    assert Some(cleared) == ClearedTypeConstraints(existing);

    if normalizedAnswer == "any type" {
      return Some(intent);
    }

    var i := 0;
    while i < |allowedTypes|
      invariant 0 <= i <= |allowedTypes|
      invariant forall j :: 0 <= j < i ==> !AnswerNames(allowedTypes[j], normalizedAnswer)
    {
      var t := allowedTypes[i];
      if normalizedAnswer == Lower(t) + " only" {
        incl := incl + [Constraint("type", t)];
        intent := intent.(hard := Present(intent.hard.value.(includes := Present(incl))));
        assert SelectedType(normalizedAnswer, allowedTypes) == Some(i);
        assert intent == WithInclude(cleared, Constraint("type", allowedTypes[i]));
        return Some(intent);
      }
      i := i + 1;
    }
    assert SelectedType(normalizedAnswer, allowedTypes).None?;
    return Some(intent);
  }

  /** The merge fails exactly when the stored intent lacks `hard_constraints`. */
  lemma MergeFailsWithoutHardConstraints(existing: Intent, normalized: string, allowedTypes: seq<string>)
    ensures MergedForAnswer(existing, normalized, allowedTypes).None? <==> !existing.hard.Present?
  {
  }

  /** Prior type entries of `include` are gone; the other entries survive in
      order; at most one type entry (an allowed type) is added, at the end. */
  lemma MergeReplacesTypeIncludes(existing: Intent, normalized: string, allowedTypes: seq<string>)
    requires existing.hard.Present?
    ensures var m := MergedForAnswer(existing, normalized, allowedTypes).value;
            var before := WithoutTypeConstraints(IncludeList(existing));
            && m.hard.Present? && m.hard.value.includes.Present?
            && (IncludeList(m) == before ||
                exists t :: t in allowedTypes && IncludeList(m) == before + [Constraint("type", t)])
            && WithoutTypeConstraints(IncludeList(m)) == before
  {
    var before := WithoutTypeConstraints(IncludeList(existing));
    var cleared := ClearedTypeConstraints(existing).value;
    assert IncludeList(cleared) == before;
    FilterAll(NotTypeConstraint, before);
    if normalized != "any type" && SelectedType(normalized, allowedTypes).Some? {
      var k := SelectedType(normalized, allowedTypes).value;
      var c := Constraint("type", allowedTypes[k]);
      assert IncludeList(MergedForAnswer(existing, normalized, allowedTypes).value) == before + [c];
      FilterAppend(NotTypeConstraint, before, [c]);
      assert WithoutTypeConstraints([c]) == [];
    }
  }

  /** The result never has a soft type; the other soft keys are kept. */
  lemma MergeDeletesSoftType(existing: Intent, normalized: string, allowedTypes: seq<string>)
    requires existing.hard.Present?
    ensures var m := MergedForAnswer(existing, normalized, allowedTypes).value;
            && m.soft.Present? && m.soft.value.vehicleType == Absent
            && m.soft.value.others == (if existing.soft.Present? then existing.soft.value.others else map[])
  {
  }

  /** `exclude` and `objectives` are carried over (a missing `exclude` becomes `[]`). */
  lemma MergeKeepsExcludeAndObjectives(existing: Intent, normalized: string, allowedTypes: seq<string>)
    requires existing.hard.Present?
    ensures var m := MergedForAnswer(existing, normalized, allowedTypes).value;
            && m.hard.value.excludes == Present(ListOrEmpty(existing.hard.value.excludes))
            && m.objectives == existing.objectives
  {
  }

  /** "any type" (in any case, with surrounding blanks) leaves no type entry. */
  lemma MergeAnyType(existing: Intent, answer: string, allowedTypes: seq<string>)
    requires existing.hard.Present? && Normalize(answer) == "any type"
    ensures forall c :: c in IncludeList(MergedIntent(existing, answer, allowedTypes).value) ==> c.field != "type"
  {
  }

  /** "<t> only" appends exactly `{ field: "type", value: t }` for the first
      allowed type `t` it names. */
  lemma MergeOnly(existing: Intent, normalized: string, allowedTypes: seq<string>, k: nat)
    requires existing.hard.Present?
    requires k < |allowedTypes| && AnswerNames(allowedTypes[k], normalized)
    requires forall j :: 0 <= j < k ==> !AnswerNames(allowedTypes[j], normalized)
    ensures IncludeList(MergedForAnswer(existing, normalized, allowedTypes).value) ==
            WithoutTypeConstraints(IncludeList(existing)) + [Constraint("type", allowedTypes[k])]
  {
    assert normalized[|normalized| - 1] == 'y';
    assert "any type"[7] == 'e';
  }

  /** An answer that names no allowed type clears the type constraints just
      as "any type" does: it does not leave them as they were. */
  lemma MergeFallbackIsAnyType(existing: Intent, answer: string, allowedTypes: seq<string>)
    requires forall j :: 0 <= j < |allowedTypes| ==> !AnswerNames(allowedTypes[j], Normalize(answer))
    ensures MergedIntent(existing, answer, allowedTypes) == MergedIntent(existing, "any type", allowedTypes)
  {
    assert Lower("any type") == "any type";
    assert Normalize("any type") == "any type";
  }
}
