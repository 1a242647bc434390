# Car recommender decision logic, modelled in Dafny

This project models the deterministic core of a conversational car
recommender. A free-text query is turned into a structured *intent*, made up of:

- hard constraints: `include` and `exclude` lists of `{field, value}`;
- soft preferences: a preferred `type` plus other keys;
- price objectives.

The intent is sanitised against the vehicle types that exist in the catalogue.
It can be refined by answering a clarification question ("SUV only", "Any type").
It is then used to rank a pool of retrieved cars:

- excluded types are dropped;
- the preferred type gets a +0.15 score boost;
- the pool is re-sorted by price when a price objective asks for it;
- the first five cars are returned, each with a textual explanation.

The blend weight between the user's history vector and the query vector
depends on their similarity. The user's history vector is a weighted average of
the embeddings of their past events, where each event is replicated according
to its type and age. Pending clarification sessions are kept in a small record
store. Two lazily loaded caches hold the intent rules and the allowed vehicle
types.

Modules, in dependency order:

- `Text`: JavaScript `toLowerCase` (ASCII letters), `trim` (full ECMAScript
  white-space set), `includes` and `join` over `seq<char>`.
- `Intents`: the intent, car and candidate datatypes. JSON properties are
  modelled as `Slot<T> = Absent | Null | Present(v)`, so a deleted key and a key
  set to `null` stay distinct. Also defines the generic order-preserving `Filter`.
- `Alpha`: `computeDynamicAlpha`.
- `QueryInterpreter`: `sanitizeIntent` and the parse-failure fallback of `interpretQuery`.
- `IntentMerge`: `mergeIntent`.
- `Clarification`: `buildVehicleTypeClarification`, and its round trip with the merge.
- `Sessions`: the id normalisers, and the `SessionStore` class over a sequence of records.
- `Explanations`: `explainCar`, specified by the list of reasons it accumulates.
- `Constraints`: `extractConstraints`.
- `UserEmbedding`: `EVENT_WEIGHTS`, the replication loop of `buildUserEmbedding`, and `averageVectors`.
- `IntentRules` and `DomainTypes`: the set-once caches of `getIntentRules` and `getAllowedCarTypes`.
- `Recommendation`:
  - `combineVectors`;
  - the four ranking steps of `recommendCarsForUser`: filter, boost, sort and explain;
  - the whole `recommendCarsForUser`, with the parser, the stored user points,
    the cosine function and the vector search as parameters.

The parts of the source that update state in place are modelled imperatively:

- the reason accumulation of `explainCar`;
- the pushes of `extractConstraints`;
- the field overwrites of `sanitizeIntent` and `mergeIntent`;
- the nested loops of `averageVectors`;
- the in-place `cars.sort`, as an insertion sort on an `array`;
- the caches and the session store, as classes.

Each of these methods is proved equal to a declarative specification
function, or, for the sort, proved to return an ordered permutation of its
input. The properties are then proved about those specifications.

## Model

| member | source | states |
|---|---|---|
| Alpha.Clamp01 | src/services/intent.service.js:15 | the result lies in [0, 1], equals the input inside that range, and is 0 below it and 1 above it |
| Alpha.AlphaForSimilarity | src/services/intent.service.js:15-19 | the blend weight of any similarity lies in [0.3, 0.8] |
| Alpha.ComputeDynamicAlpha | src/services/intent.service.js:3-20 | no user vector gives exactly 0; otherwise the result is 0.3 + 0.5 times the clamped similarity, so it lies in [0.3, 0.8] |
| Alpha.AlphaMonotone | src/services/intent.service.js:15-19 | a higher similarity never gives a lower weight |
| Alpha.AlphaSaturates | src/services/intent.service.js:15-19 | a similarity of at most 0 gives 0.3; one of at least 1 gives 0.8 |
| QueryInterpreter.SanitizeIntent | src/services/queryInterpreter.service.js:4-29 | the three in-place overwrites produce the sanitised intent |
| QueryInterpreter.InterpretQuery | src/services/queryInterpreter.service.js:48-60 | an unparseable reply gives the fixed fallback intent; a parsed one gives its sanitised form; either way objectives are present |
| QueryInterpreter.ParseFailureIntentShape | src/services/queryInterpreter.service.js:52-56 | the fallback has an empty exclude list, a null soft type, no objectives and no include key |
| QueryInterpreter.SanitizeExcludes | src/services/queryInterpreter.service.js:6-11 | the kept exclude entries are exactly the original entries whose value is an allowed type, in their original order |
| QueryInterpreter.SanitizeSoftType | src/services/queryInterpreter.service.js:14-19 | the soft type becomes null iff it is set and not allowed; otherwise it is unchanged |
| QueryInterpreter.SanitizeObjectives | src/services/queryInterpreter.service.js:22-26 | an objective is kept iff it was present and is on price with direction asc or desc; missing objectives become [] |
| QueryInterpreter.SanitizeKeepsRest | src/services/queryInterpreter.service.js:4-29 | the include list and the other soft-preference keys are untouched |
| QueryInterpreter.SanitizeIdempotent | src/services/queryInterpreter.service.js:4-29 | sanitising twice equals sanitising once |
| IntentMerge.SelectedType | src/services/intentMerge.service.js:29-37 | picks the first allowed type whose lower-cased form plus " only" equals the normalised answer, or none if no type matches |
| IntentMerge.MergeIntent | src/services/intentMerge.service.js:6-41 | the step-by-step edits of the copy, including the early return inside the loop, give the declarative merge result |
| IntentMerge.MergeFailsWithoutHardConstraints | src/services/intentMerge.service.js:13 | the merge fails (a TypeError in the source) exactly when the intent has no hard-constraints object |
| IntentMerge.MergeReplacesTypeIncludes | src/services/intentMerge.service.js:13-18 | every prior include entry with field "type" is gone; the other include entries survive in order, followed by at most the one selected type entry |
| IntentMerge.MergeDeletesSoftType | src/services/intentMerge.service.js:20-21 | the result has no soft type key, and every other soft-preference key is kept |
| IntentMerge.MergeKeepsExcludeAndObjectives | src/services/intentMerge.service.js:14 | the exclude list is unchanged apart from defaulting to [], and the objectives are unchanged |
| IntentMerge.MergeAnyType | src/services/intentMerge.service.js:8-26 | an answer that normalises to "any type" leaves no type include |
| IntentMerge.MergeOnly | src/services/intentMerge.service.js:29-36 | when the k-th allowed type is the first to match, the include list is the non-type entries followed by exactly one `{type, allowedTypes[k]}` |
| IntentMerge.MergeFallbackIsAnyType | src/services/intentMerge.service.js:39-40 | an answer matching no type gives the same result as "any type": type constraints are cleared, not kept |
| Clarification.BuildVehicleTypeClarification | src/services/clarification.service.js:6-17 | the flags and question are fixed; there are one more options than types; option i is type i followed by " only", in order; the last option is "Any type" |
| Clarification.AnyTypeOptionRoundTrip | src/services/clarification.service.js:15 | the last option normalises to "any type", so merging it leaves no type constraint |
| Clarification.OnlyOptionRoundTrip | src/services/clarification.service.js:14 | merging option k gives a type include for type k, provided no earlier type has the same lower-cased form and the type does not start with white space |
| Sessions.NormalizeUserId | src/services/session.service.js:3-6 | gives a value iff the number is an integer greater than 0, and then that integer |
| Sessions.NormalizeSessionId | src/services/session.service.js:8-12 | a missing id or an all-white-space id gives null; otherwise the trimmed id, which is non-empty and has no white space at either end |
| Sessions.FindPending | src/services/session.service.js:20-22 | finds the first pending record with both ids matching, or proves that none exists |
| Sessions.SessionStore.GetActiveSession | src/services/session.service.js:14-23 | gives null when either id normalises to null; otherwise gives the first matching pending record, which is never a resolved one, or null when there is none |
| Sessions.SessionStore.SaveSession | src/services/session.service.js:25-33 | appends exactly one pending record with the given fields and changes nothing else |
| Sessions.SessionStore.ResolveSession | src/services/session.service.js:35-43 | a null session or intent gives null and changes nothing; otherwise only that record changes, to the merged intent and the resolved status, and the intent is returned |
| Sessions.Resolve | src/services/session.service.js:39-40 | the resolved record has the new intent and the resolved status, and keeps its ids and query |
| Sessions.FindPendingAppend | src/services/session.service.js:25-33 | after a save, a lookup finds the same first match as before, or the new record when there was none |
| Sessions.ResolvedNotFound | src/services/session.service.js:20-40 | once the found session is resolved, a lookup no longer returns it |
| Explanations.MinPrice | src/services/explanation.service.js:30-31 | none iff the car list is empty (`Math.min()` is +Infinity); otherwise the price of a car in the list that no car undercuts |
| Explanations.MaxPrice | src/services/explanation.service.js:41-42 | none iff the car list is empty; otherwise the price of a car in the list that no car exceeds |
| Explanations.PriceReasonTexts | src/services/explanation.service.js:24-47 | the pushes of the price block give the texts of the specified price reasons |
| Explanations.ExplainCar | src/services/explanation.service.js:1-55 | the accumulated text is "Recommended because " + the reason texts joined by " and " + "." |
| Explanations.ReasonsFallback | src/services/explanation.service.js:49-54 | there is always a reason; the fallback appears iff no other reason applied, and then alone |
| Explanations.ReasonsOrdered | src/services/explanation.service.js:4-47 | reasons come strictly in the order exclusion, preference, price, with at most one of each, so "cheapest" and "more affordable" never appear together |
| Explanations.ExclusionReason | src/services/explanation.service.js:4-12 | the exclusion reason appears iff the exclude list is non-empty and the car's type is not in it |
| Explanations.PreferenceReason | src/services/explanation.service.js:15-22 | the preference reason appears iff the soft type is set and equals the car's type |
| Explanations.AscendingPriceReasons | src/services/explanation.service.js:29-38 | under asc, "cheapest" appears iff the price is the minimum, and "more affordable" iff the price is above the minimum but at most 1.2 times it; "premium" never appears |
| Explanations.DescendingPriceReasons | src/services/explanation.service.js:40-47 | under desc, "premium" appears iff the price is the maximum, and neither asc reason appears |
| Explanations.NoPriceReason | src/services/explanation.service.js:25-47 | without a first price objective with direction asc or desc, no price reason appears |
| Constraints.ExtractConstraints | src/services/constraint.service.js:1-28 | the pushes and the later assignment of sortBy give the declarative extraction |
| Constraints.ExtractedSpec | src/services/constraint.service.js:5-25 | "SUV" is excluded iff the query says "suv not allowed"/"no suv", and "Sedan" iff it says "sedan not allowed"/"no sedan"; there are at most two entries, SUV first; sortBy is price_desc on "expensive"/"luxury" even when "cheap" is present, else price_asc on "cheap", else null |
| Constraints.ExtractedIgnoresCase | src/services/constraint.service.js:2 | the result for a query equals the result for its lower-cased form |
| UserEmbedding.BaseWeight | src/services/userEmbedding.service.js:6-10 | search weighs 1, click 3 and book 10 |
| UserEmbedding.Round | src/services/userEmbedding.service.js:54 | `Math.round`: the nearest integer, with halves rounded up |
| UserEmbedding.ReplicationCount | src/services/userEmbedding.service.js:54 | `max(1, round(w))`: always at least 1, and the rounded weight from 0.5 upwards |
| UserEmbedding.DecayedCountBounded | src/services/userEmbedding.service.js:52-54 | for a decay in [0, 1], an event gets between 1 and its base weight copies |
| UserEmbedding.EventText | src/services/userEmbedding.service.js:41-50 | a search event uses its query, and fails as empty input iff that query is null or ""; any other event uses "brand model type description" of its car, fails iff the car is missing, and is never empty; an embeddable text is never empty |
| UserEmbedding.FailsAtUnique | src/services/userEmbedding.service.js:40-50 | the first event whose text cannot be embedded is unique, and its existence means not every text was found |
| UserEmbedding.AverageVectors | src/services/userEmbedding.service.js:12-23 | for a non-empty list of equal-length vectors, the result has that length and element i is the column sum divided by the count |
| UserEmbedding.ReplicatedColumnSum | src/services/userEmbedding.service.js:56-58 | the column sum of the replicated list is the weighted column sum over the events |
| UserEmbedding.ReplicatedMean | src/services/userEmbedding.service.js:38-61 | averaging the replicated list gives the weighted mean Σ wₖ·eₖ / Σ wₖ |
| UserEmbedding.WeightSumPositive | src/services/userEmbedding.service.js:54-58 | with every weight at least 1, the replicated list has at least as many entries as there are events |
| UserEmbedding.ReplayEvents | src/services/userEmbedding.service.js:40-59 | the loop stops iff some event's text cannot be embedded, and then at the first such event; otherwise it yields exactly each event's embedding repeated by its count, in event order |
| UserEmbedding.BuildUserEmbedding | src/services/userEmbedding.service.js:30-63 | no events gives no history; if the first event that fails has a missing car, the result is the `TypeError` outcome, and if it has a null or empty search query, the empty-input outcome; a result is built iff there are events and every text is found, and then it is the normalised weighted mean of the event embeddings |
| IntentRules.BuildRuleMap | src/services/intentRules.service.js:9-15 | the reduce's key writes produce the specified rule map |
| IntentRules.RuleMapKeys | src/services/intentRules.service.js:9-15 | the map's keys are exactly the rows' rule keys |
| IntentRules.RuleMapLastWins | src/services/intentRules.service.js:9-15 | each key maps to the action and threshold of the last row with that key |
| IntentRules.UniqueKeyRule | src/services/intentRules.service.js:10-13 | a row whose key is unique maps to its own `{action, threshold}` |
| IntentRules.IntentRulesCache.GetIntentRules | src/services/intentRules.service.js:5-18 | the first call loads once and stores the map, even an empty one; later calls return the stored map and do not load |
| DomainTypes.TypesOf | src/services/domain.service.js:13 | one entry per row, in row order, each the row's type |
| DomainTypes.GroupedTypesDistinct | src/services/domain.service.js:8-13 | the car table grouped by type gives a duplicate-free type list that names exactly the types occurring in the table |
| DomainTypes.AllowedTypesCache.GetAllowedCarTypes | src/services/domain.service.js:5-15 | the first call loads once and stores the grouped types, even an empty list; later calls return the stored list and do not load; the list never holds a duplicate |
| Recommendation.CombineVectors | src/services/recommendation.service.js:7-12 | no user vector returns the query vector unchanged; otherwise the user vector's length, with element i equal to alpha·u[i] + (1−alpha)·q[i] |
| Recommendation.CombineBetween | src/services/recommendation.service.js:9-11 | for alpha in [0, 1], each element lies between the user and query elements |
| Recommendation.CombineExtremes | src/services/recommendation.service.js:9-11 | alpha 0 gives the query vector (cut to the user vector's length); alpha 1 gives the user vector |
| Recommendation.DropExcluded | src/services/recommendation.service.js:41 | a car survives iff it was in the pool and its type is not excluded |
| Recommendation.DropExcludedKeepsOrder | src/services/recommendation.service.js:39-42 | the filter distributes over concatenation, so retrieval order is kept, and each surviving car keeps its multiplicity |
| Recommendation.FilteredSpec | src/services/recommendation.service.js:39-42 | no surviving car has an excluded type, and every pool car with a type that is not excluded survives |
| Recommendation.BoostType | src/services/recommendation.service.js:45-53 | same length and the same cars in the same order; the score rises by exactly 0.15 for the preferred type and is unchanged otherwise |
| Recommendation.SortByPrice | src/services/recommendation.service.js:58-61 | sorts the array in place: non-decreasing in price for asc and non-increasing for desc, as a permutation of the input |
| Recommendation.SortForObjective | src/services/recommendation.service.js:56-62 | sorted and a permutation under the first price objective when it is asc or desc; otherwise the input unchanged |
| Recommendation.Explained | src/services/recommendation.service.js:65-76 | exactly min(5, n) results; result i is ranked car i with its score, its explanation against the whole ranked list, alpha and the intent |
| Recommendation.ExplainTop | src/services/recommendation.service.js:65-76 | the mapping loop over the first five cars gives the specified explained list |
| Recommendation.RankAndExplain | src/services/recommendation.service.js:38-76 | the output is the explained top five of some ranking of the filtered, boosted pool |
| Recommendation.RecommendCarsForUser | src/services/recommendation.service.js:14-76 | the interpreted intent, the alpha from the first stored user point, the combined search vector and the filter/boost/rank/explain steps compose as in the source |
| Recommendation.NoObjectiveKeepsOrder | src/services/recommendation.service.js:45-62 | without an asc or desc price objective, the output follows retrieval order of the filtered pool, so the boost never reorders anything |
| Recommendation.ExplainedFromPool | src/services/recommendation.service.js:65 | min(5, filtered size) results, each a car of the filtered pool, so no car is synthesised |

## Left out

- HTTP transport: the server and the route handlers are not part of this model.
- External services become parameters:
  - The chat-completion call. Its parsed reply is an `Option<Intent>`, with `None` for a reply that `JSON.parse` rejects.
  - The embedding call: an opaque `embed` function.
  - The vector index reads: the stored user points and the `search` function.
  - The ORM lookups: event lists, rule rows and type rows as parameters, and `findCar` as a function.
- The search `limit: 20` is a property of the opaque `search`, so it is not modelled.
- Floating point is modelled with exact reals:
  - `cosineSimilarity`, `normalize` and `timeDecayFactor` are opaque functions;
  - NaN, rounding error and infinities are not modelled;
  - `1.2 * min` is exact (`5·price <= 6·min`), since prices are integers.
- JSON is modelled as typed fields:
  - A raw parser reply that is not an object, or whose lists hold non-objects, is not modelled.
  - A missing or non-string query in `extractConstraints` is not modelled.
  - Unknown top-level intent keys are not carried.
- `toLowerCase` lower-cases ASCII letters only.
- Async/await is sequentialised. Concurrent access to the caches or the session store is not modelled.
- Recommendation.SortByPrice: stability of `Array.prototype.sort` is not stated. The contract gives only sortedness and permutation, so ties may come in any order.
- Recommendation.CombineVectors: requires the query vector to be at least as long as the user vector. On a shorter query vector the source reads `undefined` and yields NaN.
- UserEmbedding.BuildUserEmbedding: requires every embedding to have the same dimension. A vector shorter than the first would make the source's sum NaN. The two exceptions the loop can raise become the `CarNotFound` and `EmptyInput` outcomes. These are a missing car, which is a TypeError, and the embedding call's rejection of a null or empty text (src/services/embedding.service.js:4-5).
- DomainTypes.Group: SQL leaves the order of `GROUP BY` rows unspecified. The model takes the order in which types first occur in the table, so only the set of types and their distinctness are meant to be relied on.
- Explanations.AscendingPriceReasons and Explanations.DescendingPriceReasons: stated for a car that is a member of `allCars`, which is how the ranker calls `explainCar`.
- Clarification.OnlyOptionRoundTrip: stated only for a type that does not start with white space, since `trim` would otherwise alter the option before matching.
- The comment at src/services/intentMerge.service.js:39 says "no change", but the code has already cleared the type constraints by then. The model follows the code: see IntentMerge.MergeFallbackIsAnyType.
- The merge's deep copy is implicit, because intents are immutable values. The input intent is therefore never modified.
- A corrupted-session error, a hard-include filter in the ranker, and rule-driven decisions from confidence thresholds do not occur in these services, so they are not modelled.
