/** The clarification question for a missing vehicle type
    (src/services/clarification.service.js), and the round trip between its
    options and the merge of a clarification answer. */
module Clarification {
  import opened Intents
  import opened Text
  import opened IntentMerge

  datatype ClarificationRequest = ClarificationRequest(clarification: bool, dimension: string,
                                                       question: string, options: seq<string>)

  /** `buildVehicleTypeClarification()` over the allowed types `types`. */
  function BuildVehicleTypeClarification(types: seq<string>): (c: ClarificationRequest)
    ensures c.clarification && c.dimension == "vehicleType"
    ensures c.question == "Which vehicle type are you looking for?"
    ensures |c.options| == |types| + 1
    ensures forall i :: 0 <= i < |types| ==> c.options[i] == types[i] + " only"
    ensures c.options[|types|] == "Any type"
  {
    ClarificationRequest(true, "vehicleType", "Which vehicle type are you looking for?",
                         seq(|types|, i requires 0 <= i < |types| => types[i] + " only") + ["Any type"])
  }

  /** The last option normalises to "any type", so answering with it takes
      the merge's any-type branch and leaves no type constraint. */
  lemma AnyTypeOptionRoundTrip(existing: Intent, types: seq<string>)
    requires existing.hard.Present?
    ensures var answer := BuildVehicleTypeClarification(types).options[|types|];
            && Normalize(answer) == "any type"
            && MergedIntent(existing, answer, types) == ClearedTypeConstraints(existing)
            && forall c :: c in IncludeList(MergedIntent(existing, answer, types).value) ==> c.field != "type"
  {
    var answer := BuildVehicleTypeClarification(types).options[|types|];
    assert Lower(answer) == "any type";
    TrimUnchanged("any type");
  }

  lemma SuffixCancels(a: string, b: string, s: string)
    ensures a + s == b + s ==> a == b
  {
    if a + s == b + s {
      assert a == (a + s)[..|a|];
    }
  }

  /** Answering with the option "<t> only" selects `t` and adds exactly the
      include `{ field: "type", value: t }`, provided `t` starts with a
      non-blank character and no earlier type has the same lower-case form. */
  lemma OnlyOptionRoundTrip(existing: Intent, types: seq<string>, k: nat)
    requires existing.hard.Present?
    requires k < |types| && types[k] != [] && !IsWhitespace(types[k][0])
    requires forall j :: 0 <= j < k ==> Lower(types[j]) != Lower(types[k])
    ensures var answer := BuildVehicleTypeClarification(types).options[k];
            && SelectedType(Normalize(answer), types) == Some(k)
            && IncludeList(MergedIntent(existing, answer, types).value) ==
               WithoutTypeConstraints(IncludeList(existing)) + [Constraint("type", types[k])]
  {
    var t := types[k];
    var answer := BuildVehicleTypeClarification(types).options[k];
    var n := Lower(t) + " only";
    calc {
      Lower(answer);
      { LowerAppend(t, " only"); }
      Lower(t) + Lower(" only");
      { assert Lower(" only") == " only"; }
      n;
    }
    assert n[0] == LowerChar(t[0]);
    TrimUnchanged(n);
    assert Normalize(answer) == n;
    forall j | 0 <= j < k
      ensures !AnswerNames(types[j], n)
    {
      SuffixCancels(Lower(types[j]), Lower(t), " only");
    }
    assert AnswerNames(t, n);
    assert SelectedType(n, types) == Some(k);
    MergeOnly(existing, n, types, k);
  }
}
