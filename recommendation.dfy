/** The ranking pipeline of `recommendCarsForUser`
    (src/services/recommendation.service.js): blend the vectors, drop
    excluded types, boost the preferred type, sort by price, keep five and
    explain each. The parser, the embedding model, the user-vector lookup and
    the vector search are parameters. */
module Recommendation {
  import opened Intents
  import opened Alpha
  import opened QueryInterpreter
  import opened Explanations

  /** `combineVectors(userVector, queryVector, alpha)`; the query vector is
      at least as long as the user vector (both come from one model). */
  function CombineVectors(userVector: Option<seq<real>>, queryVector: seq<real>, alpha: real): (r: seq<real>)
    requires userVector.Some? ==> |userVector.value| <= |queryVector|
    ensures userVector.None? ==> r == queryVector
    ensures userVector.Some? ==> |r| == |userVector.value|
    ensures userVector.Some? ==> forall i :: 0 <= i < |r| ==>
              r[i] == alpha * userVector.value[i] + (1.0 - alpha) * queryVector[i]
  {
    if userVector.None? then queryVector
    else
      var u := userVector.value;
      seq(|u|, i requires 0 <= i < |u| => alpha * u[i] + (1.0 - alpha) * queryVector[i])
  }

  lemma ProductNonNegative(a: real, b: real)
    requires a >= 0.0 && b >= 0.0
    ensures a * b >= 0.0
  {
  }

  /** Each blended entry lies between the user's and the query's entry. */
  lemma CombineBetween(u: seq<real>, queryVector: seq<real>, alpha: real, i: nat)
    requires |u| <= |queryVector| && i < |u| && 0.0 <= alpha <= 1.0
    ensures var r := CombineVectors(Some(u), queryVector, alpha)[i];
            (u[i] <= r <= queryVector[i]) || (queryVector[i] <= r <= u[i])
  {
    var x, y := u[i], queryVector[i];
    var r := CombineVectors(Some(u), queryVector, alpha)[i];
    assert r == alpha * x + (1.0 - alpha) * y;
    if x <= y {
      ProductNonNegative(alpha, y - x);
      ProductNonNegative(1.0 - alpha, y - x);
      assert r == y - alpha * (y - x);
      assert r == x + (1.0 - alpha) * (y - x);
    } else {
      ProductNonNegative(alpha, x - y);
      ProductNonNegative(1.0 - alpha, x - y);
      assert r == y + alpha * (x - y);
      assert r == x - (1.0 - alpha) * (x - y);
    }
  }

  /** With weight 0 the blend is the query vector (cut to the user vector's
      length), with weight 1 it is the user vector. */
  lemma CombineExtremes(u: seq<real>, queryVector: seq<real>)
    requires |u| <= |queryVector|
    ensures CombineVectors(Some(u), queryVector, 0.0) == queryVector[..|u|]
    ensures CombineVectors(Some(u), queryVector, 1.0) == u
  {
  }

  /** `cars.filter(c => !excluded.includes(c.type))` */
  function DropExcluded(cars: seq<Candidate>, excluded: seq<string>): (r: seq<Candidate>)
    ensures forall c :: c in r <==> c in cars && c.car.vehicleType !in excluded
  {
    Filter((c: Candidate) => c.car.vehicleType !in excluded, cars)
  }

  /** The exclusion filter keeps the retrieval order and every occurrence of
      each surviving car. */
  lemma DropExcludedKeepsOrder(a: seq<Candidate>, b: seq<Candidate>, excluded: seq<string>)
    ensures DropExcluded(a + b, excluded) == DropExcluded(a, excluded) + DropExcluded(b, excluded)
    ensures forall c :: multiset(DropExcluded(a, excluded))[c] ==
              if c.car.vehicleType in excluded then 0 else multiset(a)[c]
  {
    FilterAppend((c: Candidate) => c.car.vehicleType !in excluded, a, b);
    FilterMultiset((c: Candidate) => c.car.vehicleType !in excluded, a);
  }

  /** `c.type === type ? c.score + 0.15 : c.score` */
  function Boost(c: Candidate, preferred: string): Candidate {
    if c.car.vehicleType == preferred then c.(score := c.score + 0.15) else c
  }

  /** The soft-preference `map`: same cars in the same order, each preferred
      car's score raised by exactly 0.15 and every other score unchanged. */
  function BoostType(cars: seq<Candidate>, preferred: string): (r: seq<Candidate>)
    ensures |r| == |cars|
    ensures forall i :: 0 <= i < |cars| ==> r[i].car == cars[i].car
    ensures forall i :: 0 <= i < |cars| ==>
              r[i].score == if cars[i].car.vehicleType == preferred then cars[i].score + 0.15 else cars[i].score
  {
    seq(|cars|, i requires 0 <= i < |cars| => Boost(cars[i], preferred))
  }

  /** The pool after step 4. */
  function Filtered(pool: seq<Candidate>, intent: Intent): seq<Candidate> {
    if |ExcludeList(intent)| > 0 then DropExcluded(pool, ExcludedValues(intent)) else pool
  }

  /** The pool after step 5. */
  function Boosted(cars: seq<Candidate>, intent: Intent): seq<Candidate> {
    if Truthy(SoftType(intent)) then BoostType(cars, SoftType(intent).value) else cars
  }

  predicate InOrder(x: Candidate, y: Candidate, descending: bool) {
    if descending then x.car.price >= y.car.price else x.car.price <= y.car.price
  }

  /** Non-decreasing in price, or non-increasing when `descending`. */
  predicate SortedBy(s: seq<Candidate>, descending: bool) {
    forall i, j :: 0 <= i < j < |s| ==> InOrder(s[i], s[j], descending)
  }

  /** `cars.sort((a, b) => a.price - b.price)` (or `b.price - a.price`),
      in place: an insertion sort by adjacent swaps. */
  method SortByPrice(a: array<Candidate>, descending: bool)
    modifies a
    ensures SortedBy(a[..], descending)
    ensures multiset(a[..]) == multiset(old(a[..]))
  {
    var i := 0;
    while i < a.Length
      invariant 0 <= i <= a.Length
      invariant forall k, l :: 0 <= k < l < i ==> InOrder(a[k], a[l], descending)
      invariant multiset(a[..]) == multiset(old(a[..]))
    {
      var j := i;
      while j > 0 && !InOrder(a[j - 1], a[j], descending)
        invariant 0 <= j <= i
        invariant forall k, l :: 0 <= k < l <= i && k != j && l != j ==> InOrder(a[k], a[l], descending)
        invariant forall l :: j < l <= i ==> InOrder(a[j], a[l], descending)
        invariant multiset(a[..]) == multiset(old(a[..]))
      {
        a[j - 1], a[j] := a[j], a[j - 1];
        j := j - 1;
      }
      i := i + 1;
    }
  }

  /** What step 6 may produce from `cars` under a price objective: sorted
      by price and a permutation for asc/desc, otherwise `cars` itself. */
  predicate RankedBy(ranked: seq<Candidate>, cars: seq<Candidate>, objective: Option<Objective>) {
    if objective.Some? && objective.value.direction == "asc" then
      SortedBy(ranked, false) && multiset(ranked) == multiset(cars)
    else if objective.Some? && objective.value.direction == "desc" then
      SortedBy(ranked, true) && multiset(ranked) == multiset(cars)
    else ranked == cars
  }

  /** Step 6 for an intent: only its first objective on price counts. */
  predicate IsRanking(ranked: seq<Candidate>, cars: seq<Candidate>, intent: Intent) {
    RankedBy(ranked, cars, PriceObjective(intent))
  }

  /** Step 6: sorts a copy of `cars` in place when the objective asks for it. */
  method SortForObjective(cars: seq<Candidate>, priceObjective: Option<Objective>) returns (ranked: seq<Candidate>)
    ensures RankedBy(ranked, cars, priceObjective)
  {
    ranked := cars;
    if priceObjective.Some? && priceObjective.value.direction == "asc" {
      var a := new Candidate[|ranked|](i requires 0 <= i < |ranked| => ranked[i]);
      assert a[..] == cars;
      SortByPrice(a, false);
      ranked := a[..];
    }
    if priceObjective.Some? && priceObjective.value.direction == "desc" {
      var a := new Candidate[|ranked|](i requires 0 <= i < |ranked| => ranked[i]);
      assert a[..] == cars;
      SortByPrice(a, true);
      ranked := a[..];
    }
  }

  /** A returned car: the payload with its score, the explanation and the
      `debug` fields. */
  datatype Recommended = Recommended(car: Car, score: real, explanation: string, alpha: real, intent: Intent)

  function Min(a: int, b: int): int {
    if a <= b then a else b
  }

  /** Step 7: the first five cars, each explained against all of `ranked`. */
  function Explained(ranked: seq<Candidate>, intent: Intent, alpha: real): (recs: seq<Recommended>)
    ensures |recs| == Min(5, |ranked|)
    ensures forall i :: 0 <= i < |recs| ==>
              recs[i] == Recommended(ranked[i].car, ranked[i].score, Explanation(ranked[i], intent, ranked), alpha, intent)
  {
    seq(Min(5, |ranked|), i requires 0 <= i < Min(5, |ranked|) =>
      Recommended(ranked[i].car, ranked[i].score, Explanation(ranked[i], intent, ranked), alpha, intent))
  }

  /** Step 7: `cars.slice(0, 5).map(car => ({ ...car, explanation, debug }))`. */
  method ExplainTop(cars: seq<Candidate>, intent: Intent, alpha: real) returns (recs: seq<Recommended>)
    ensures recs == Explained(cars, intent, alpha)
  {
    ghost var all := Explained(cars, intent, alpha);
    var top := cars[..Min(5, |cars|)];
    recs := [];
    var i := 0;
    while i < |top|
      invariant 0 <= i <= |top| == |all|
      invariant recs == all[..i]
    {
      var car := top[i];
      var explanation := ExplainCar(car, intent, cars);
      assert all[i] == Recommended(car.car, car.score, explanation, alpha, intent);
      SliceExtend(all, i);
      recs := recs + [Recommended(car.car, car.score, explanation, alpha, intent)];
      i := i + 1;
    }
    SliceAll(all);
  }

  lemma SliceExtend<T>(s: seq<T>, i: nat)
    requires i < |s|
    ensures s[..i + 1] == s[..i] + [s[i]]
  {
  }

  lemma SliceAll<T>(s: seq<T>)
    ensures s[..|s|] == s
  {
  }

  /** Steps 4-7 of `recommendCarsForUser` on the retrieved pool. */
  method RankAndExplain(pool: seq<Candidate>, intent: Intent, alpha: real) returns (recs: seq<Recommended>)
    requires intent.objectives.Present?
    ensures exists ranked :: IsRanking(ranked, Boosted(Filtered(pool, intent), intent), intent) &&
                             recs == Explained(ranked, intent, alpha)
  {
    var cars := pool;
    var exclude := ExcludeList(intent);
    if |exclude| > 0 {
      cars := DropExcluded(cars, Values(exclude));
    }
    var soft := SoftType(intent);
    if Truthy(soft) {
      cars := BoostType(cars, soft.value);
    }
    assert cars == Boosted(Filtered(pool, intent), intent);
    var priceObjective := FirstPriceObjective(intent.objectives.value);
    var ranked := SortForObjective(cars, priceObjective);
    recs := ExplainTop(ranked, intent, alpha);
  }

  /** The intent `interpretQuery` yields for a parser outcome. */
  function Interpreted(parsed: Option<Intent>, allowedTypes: seq<string>): Intent {
    if parsed.None? then ParseFailureIntent else Sanitized(parsed.value, allowedTypes)
  }

  /** `recommendCarsForUser(userId, query)`, with the parser outcome, the
      query embedding, the user's stored points and the vector search given. */
  method RecommendCarsForUser(parsed: Option<Intent>, allowedTypes: seq<string>, queryVector: seq<real>,
                              userPoints: seq<seq<real>>, cosine: (seq<real>, seq<real>) -> real,
                              search: seq<real> -> seq<Candidate>) returns (recs: seq<Recommended>)
    requires |userPoints| > 0 ==> |userPoints[0]| <= |queryVector|
    ensures var intent := Interpreted(parsed, allowedTypes);
            var userVector := if |userPoints| > 0 then Some(userPoints[0]) else None;
            var alpha := ComputeDynamicAlpha(userVector, queryVector, cosine);
            var pool := search(CombineVectors(userVector, queryVector, alpha));
            exists ranked :: IsRanking(ranked, Boosted(Filtered(pool, intent), intent), intent) &&
                             recs == Explained(ranked, intent, alpha)
  {
    var intent := InterpretQuery(parsed, allowedTypes);
    var userVector := if |userPoints| > 0 then Some(userPoints[0]) else None;
    var alpha := ComputeDynamicAlpha(userVector, queryVector, cosine);
    var finalVector := CombineVectors(userVector, queryVector, alpha);
    var pool := search(finalVector);
    recs := RankAndExplain(pool, intent, alpha);
  }

  /** No surviving car has an excluded type, and every car of the pool
      whose type is not excluded survives. */
  lemma FilteredSpec(pool: seq<Candidate>, intent: Intent)
    ensures forall c :: c in Filtered(pool, intent) <==> c in pool && c.car.vehicleType !in ExcludedValues(intent)
  {
  }

  /** Without an asc/desc price objective the output follows retrieval
      order: the boost changes scores only, never the order. */
  lemma NoObjectiveKeepsOrder(pool: seq<Candidate>, intent: Intent, ranked: seq<Candidate>)
    requires PriceObjective(intent).None? || PriceObjective(intent).value.direction !in {"asc", "desc"}
    requires IsRanking(ranked, Boosted(Filtered(pool, intent), intent), intent)
    ensures |ranked| == |Filtered(pool, intent)|
    ensures forall i :: 0 <= i < |ranked| ==> ranked[i].car == Filtered(pool, intent)[i].car
  {
  }

  /** The output holds only cars of the filtered pool, at most five of them. */
  lemma ExplainedFromPool(pool: seq<Candidate>, intent: Intent, ranked: seq<Candidate>, alpha: real)
    requires IsRanking(ranked, Boosted(Filtered(pool, intent), intent), intent)
    ensures var recs := Explained(ranked, intent, alpha);
            |recs| == Min(5, |Filtered(pool, intent)|) &&
            forall i :: 0 <= i < |recs| ==>
              exists c :: c in Filtered(pool, intent) && c.car == recs[i].car
  {
    var base := Boosted(Filtered(pool, intent), intent);
    var f := Filtered(pool, intent);
    assert |base| == |f|;
    assert forall i :: 0 <= i < |base| ==> base[i].car == f[i].car;
    assert |ranked| == |base| by {
      if ranked != base {
        assert |multiset(ranked)| == |multiset(base)|;
      }
    }
    forall i | 0 <= i < Min(5, |ranked|)
      ensures exists c :: c in f && c.car == ranked[i].car
    {
      assert ranked[i] in multiset(base) by {
        assert ranked[i] in multiset(ranked);
      }
      var k :| 0 <= k < |base| && base[k] == ranked[i];
      assert f[k] in f;
    }
  }
}
