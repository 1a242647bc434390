/** The keyword constraint extractor (src/services/constraint.service.js):
    fixed substring tests on the lower-cased query. */
module Constraints {
  import opened Intents
  import opened Text

  /** `{ excludeTypes, sortBy }`; `sortBy` is `null` or a sort key. */
  datatype Extraction = Extraction(excludeTypes: seq<string>, sortBy: Option<string>)

  predicate ExcludesSuv(q: string) {
    Contains(q, "suv not allowed") || Contains(q, "no suv")
  }

  predicate ExcludesSedan(q: string) {
    Contains(q, "sedan not allowed") || Contains(q, "no sedan")
  }

  predicate WantsExpensive(q: string) {
    Contains(q, "expensive") || Contains(q, "luxury")
  }

  /** The extraction as a declarative rule on the lower-cased query: the two
      exclusions in a fixed order, and "expensive"/"luxury" taking priority
      over "cheap". */
  function Extracted(query: string): (c: Extraction) {
    var q := Lower(query);
    Extraction(
      (if ExcludesSuv(q) then ["SUV"] else []) + (if ExcludesSedan(q) then ["Sedan"] else []),
      if WantsExpensive(q) then Some("price_desc")
      else if Contains(q, "cheap") then Some("price_asc")
      else None)
  }

  /** `extractConstraints(query)`: pushes the exclusions, then assigns
      `sortBy` twice, the later assignment winning. */
  method ExtractConstraints(query: string) returns (c: Extraction)
    ensures c == Extracted(query)
  {
    var q := Lower(query);
    c := Extraction([], None);
    if Contains(q, "suv not allowed") || Contains(q, "no suv") {
      c := c.(excludeTypes := c.excludeTypes + ["SUV"]);
    }
    if Contains(q, "sedan not allowed") || Contains(q, "no sedan") {
      c := c.(excludeTypes := c.excludeTypes + ["Sedan"]);
    }
    if Contains(q, "cheap") || Contains(q, "cheapest") || Contains(q, "most cheap") {
      if !Contains(q, "cheap") {
        if Contains(q, "cheapest") {
          assert "cheap" + "est" == "cheapest";
          ContainsPrefix(q, "cheap", "est");
        } else {
          assert "most " + "cheap" == "most cheap";
          ContainsSuffix(q, "most ", "cheap");
        }
      }
      c := c.(sortBy := Some("price_asc"));
    }
    if Contains(q, "expensive") || Contains(q, "luxury") {
      c := c.(sortBy := Some("price_desc"));
    }
  }

  /** What the extraction states, with both directions of each rule. */
  lemma ExtractedSpec(query: string)
    ensures var c := Extracted(query);
            var q := Lower(query);
            && ("SUV" in c.excludeTypes <==> ExcludesSuv(q))
            && ("Sedan" in c.excludeTypes <==> ExcludesSedan(q))
            && |c.excludeTypes| <= 2
            && (forall t :: t in c.excludeTypes ==> t == "SUV" || t == "Sedan")
            && (forall i, j :: 0 <= i < j < |c.excludeTypes| ==> c.excludeTypes[i] == "SUV" && c.excludeTypes[j] == "Sedan")
            && (c.sortBy == Some("price_desc") <==> WantsExpensive(q))
            && (c.sortBy == Some("price_asc") <==> !WantsExpensive(q) && Contains(q, "cheap"))
            && (c.sortBy.None? <==> !WantsExpensive(q) && !Contains(q, "cheap"))
  {
  }

  /** Matching ignores case: a query and its lower-cased form extract alike. */
  lemma ExtractedIgnoresCase(query: string)
    ensures Extracted(Lower(query)) == Extracted(query)
  {
    LowerIdempotent(query);
  }
}
