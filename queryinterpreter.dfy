/** Validation of the intent returned by the external parser
    (src/services/queryInterpreter.service.js). The chat-completion call is
    outside the model: its parsed answer arrives as an `Option<Intent>`, with
    `None` standing for a reply that `JSON.parse` rejects. */
module QueryInterpreter {
  import opened Intents

  /** The `exclude` entries whose value is an allowed type. */
  function KeepAllowed(cs: seq<Constraint>, allowedTypes: seq<string>): seq<Constraint> {
    Filter((c: Constraint) => c.value in allowedTypes, cs)
  }

  /** The only objectives the business logic supports. */
  predicate Sortable(o: Objective) {
    o.field == "price" && (o.direction == "asc" || o.direction == "desc")
  }

  function KeepSortable(objs: seq<Objective>): seq<Objective> {
    Filter(Sortable, objs)
  }

  /** A non-empty `exclude` list is filtered against the domain; an empty or
      missing one is left as it is. */
  function SanitizedHard(hard: Slot<HardConstraints>, allowedTypes: seq<string>): Slot<HardConstraints> {
    if hard.Present? && hard.value.excludes.Present? && |hard.value.excludes.value| > 0
    then Present(hard.value.(excludes := Present(KeepAllowed(hard.value.excludes.value, allowedTypes))))
    else hard
  }

  /** A set soft type outside the domain becomes `null`. */
  function SanitizedSoft(soft: Slot<SoftPreferences>, allowedTypes: seq<string>): Slot<SoftPreferences> {
    if soft.Present? && Truthy(soft.value.vehicleType) && soft.value.vehicleType.value !in allowedTypes
    then Present(soft.value.(vehicleType := Null))
    else soft
  }

  /** `(intent.objectives || []).filter(...)`: a missing list counts as empty. */
  function SanitizedObjectives(objectives: Slot<seq<Objective>>): Slot<seq<Objective>> {
    Present(KeepSortable(if objectives.Present? then objectives.value else []))
  }

  /** The value `sanitizeIntent(intent, allowedTypes)` leaves in `intent`. */
  function Sanitized(intent: Intent, allowedTypes: seq<string>): Intent {
    Intent(SanitizedHard(intent.hard, allowedTypes), SanitizedSoft(intent.soft, allowedTypes),
           SanitizedObjectives(intent.objectives))
  }

  /** The fixed intent returned when the parser's reply is not JSON: an empty
      `exclude`, a `null` soft type, no objectives and no `include` key. */
  const ParseFailureIntent: Intent :=
    Intent(Present(HardConstraints(Absent, Present([]))), Present(SoftPreferences(Null, map[])), Present([]))

  /** `sanitizeIntent`: overwrites the three fields in turn, as the source does. */
  method SanitizeIntent(intent: Intent, allowedTypes: seq<string>) returns (r: Intent)
    ensures r == Sanitized(intent, allowedTypes)
  {
    r := intent;
    if r.hard.Present? && r.hard.value.excludes.Present? && |r.hard.value.excludes.value| > 0 {
      var kept := KeepAllowed(r.hard.value.excludes.value, allowedTypes);
      r := r.(hard := Present(r.hard.value.(excludes := Present(kept))));
    }
    if r.soft.Present? && Truthy(r.soft.value.vehicleType) && r.soft.value.vehicleType.value !in allowedTypes {
      r := r.(soft := Present(r.soft.value.(vehicleType := Null)));
    }
    var objs := if r.objectives.Present? then r.objectives.value else [];
    r := r.(objectives := Present(KeepSortable(objs)));
  }

  /** `interpretQuery` after the parser has answered. */
  method InterpretQuery(parsed: Option<Intent>, allowedTypes: seq<string>) returns (intent: Intent)
    ensures parsed.None? ==> intent == ParseFailureIntent
    ensures parsed.Some? ==> intent == Sanitized(parsed.value, allowedTypes)
    ensures intent.objectives.Present?
  {
    if parsed.None? {
      return ParseFailureIntent;
    }
    intent := SanitizeIntent(parsed.value, allowedTypes);
  }

  /** The parse-failure intent excludes nothing, prefers nothing, sorts by
      nothing, and has no `include` list at all. */
  lemma ParseFailureIntentShape()
    ensures ExcludeList(ParseFailureIntent) == []
    ensures SoftType(ParseFailureIntent) == Null
    ensures ParseFailureIntent.objectives == Present([])
    ensures ParseFailureIntent.hard.Present? && ParseFailureIntent.hard.value.includes == Absent
  {
  }

  /** The kept exclude entries are exactly the allowed ones, in order. */
  lemma SanitizeExcludes(intent: Intent, allowedTypes: seq<string>)
    ensures ExcludeList(Sanitized(intent, allowedTypes)) == KeepAllowed(ExcludeList(intent), allowedTypes)
    ensures forall c :: c in ExcludeList(Sanitized(intent, allowedTypes)) <==>
                          c in ExcludeList(intent) && c.value in allowedTypes
  {
  }

  /** The soft type is cleared to `null` exactly when it is set and not in
      the domain; an allowed (or unset) value is left as it was. */
  lemma SanitizeSoftType(intent: Intent, allowedTypes: seq<string>)
    ensures var t := SoftType(intent);
            SoftType(Sanitized(intent, allowedTypes)) ==
              if Truthy(t) && t.value !in allowedTypes then Null else t
  {
  }

  /** Only `{ field: "price", direction: "asc" | "desc" }` objectives remain,
      in order, and a missing list becomes empty. */
  lemma SanitizeObjectives(intent: Intent, allowedTypes: seq<string>)
    ensures var objs := Sanitized(intent, allowedTypes).objectives;
            && objs.Present?
            && (forall o :: o in objs.value <==>
                  intent.objectives.Present? && o in intent.objectives.value && Sortable(o))
            && (!intent.objectives.Present? ==> objs.value == [])
  {
  }

  /** `include` and the other soft-preference keys are never touched. */
  lemma SanitizeKeepsRest(intent: Intent, allowedTypes: seq<string>)
    ensures var s := Sanitized(intent, allowedTypes);
            && s.hard.Present? == intent.hard.Present?
            && (s.hard.Present? ==> s.hard.value.includes == intent.hard.value.includes)
            && s.soft.Present? == intent.soft.Present?
            && (s.soft.Present? ==> s.soft.value.others == intent.soft.value.others)
  {
  }

  /** Sanitising an already sanitised intent changes nothing. */
  lemma SanitizeIdempotent(intent: Intent, allowedTypes: seq<string>)
    ensures Sanitized(Sanitized(intent, allowedTypes), allowedTypes) == Sanitized(intent, allowedTypes)
  {
    var once := Sanitized(intent, allowedTypes);
    var p := (c: Constraint) => c.value in allowedTypes;
    if once.hard.Present? && once.hard.value.excludes.Present? {
      FilterAll(p, once.hard.value.excludes.value);
    }
    FilterAll(Sortable, once.objectives.value);
  }
}
