/** The per-car explanation (src/services/explanation.service.js). The
    reasons are modelled as values first, then rendered as the source's text. */
module Explanations {
  import opened Intents
  import opened Text

  datatype Reason =
    | ExclusionHonoured(excluded: seq<string>)
    | PreferenceMatch(vehicleType: string)
    | Cheapest
    | MoreAffordable
    | Premium
    | Fallback

  function ReasonText(r: Reason): string {
    match r
    case ExclusionHonoured(vs) => "it satisfies your request to exclude " + Join(vs, ", ")
    case PreferenceMatch(t) => "it matches your preference for " + Lower(t) + " cars"
    case Cheapest => "it is the cheapest available option"
    case MoreAffordable => "it is among the more affordable options"
    case Premium => "it is among the most premium options"
    case Fallback => "it best matches your current request"
  }

  /** The position of a reason's block in the source: exclusion, preference,
      price, fallback. */
  function Rank(r: Reason): nat {
    match r
    case ExclusionHonoured(_) => 0
    case PreferenceMatch(_) => 1
    case Cheapest => 2
    case MoreAffordable => 2
    case Premium => 2
    case Fallback => 3
  }

  /** `Math.min(...prices)`; `None` is the `Infinity` it gives for no cars. */
  function MinPrice(cars: seq<Candidate>): (m: Option<int>)
    ensures m.None? <==> cars == []
    ensures m.Some? ==> exists c :: c in cars && c.car.price == m.value
    ensures m.Some? ==> forall c :: c in cars ==> m.value <= c.car.price
  {
    if cars == [] then None
    else match MinPrice(cars[1..])
      case None => Some(cars[0].car.price)
      case Some(m) =>
        assert forall c :: c in cars ==> c == cars[0] || c in cars[1..];
        Some(if cars[0].car.price <= m then cars[0].car.price else m)
  }

  /** `Math.max(...prices)`; `None` is the `-Infinity` it gives for no cars. */
  function MaxPrice(cars: seq<Candidate>): (m: Option<int>)
    ensures m.None? <==> cars == []
    ensures m.Some? ==> exists c :: c in cars && c.car.price == m.value
    ensures m.Some? ==> forall c :: c in cars ==> c.car.price <= m.value
  {
    if cars == [] then None
    else match MaxPrice(cars[1..])
      case None => Some(cars[0].car.price)
      case Some(m) =>
        assert forall c :: c in cars ==> c == cars[0] || c in cars[1..];
        Some(if cars[0].car.price >= m then cars[0].car.price else m)
  }

  /** The reasons of the price block. `price <= minPrice * 1.2` on integer prices is `5 * price <= 6 * minPrice`;
      against `Infinity` it always holds, and nothing equals `-Infinity`. */
  function PriceReasons(car: Candidate, objective: Option<Objective>, allCars: seq<Candidate>): seq<Reason> {
    if objective.Some? && objective.value.direction == "asc" then
      match MinPrice(allCars)
      case None => [MoreAffordable]
      case Some(m) =>
        if car.car.price == m then [Cheapest]
        else if 5 * car.car.price <= 6 * m then [MoreAffordable]
        else []
    else if objective.Some? && objective.value.direction == "desc" then
      match MaxPrice(allCars)
      case None => []
      case Some(m) => if car.car.price == m then [Premium] else []
    else []
  }

  /** The reasons other than the fallback, in the order they are pushed. */
  function SpecificReasons(car: Candidate, intent: Intent, allCars: seq<Candidate>): seq<Reason> {
    var excluded := ExcludedValues(intent);
    var soft := SoftType(intent);
    (if |excluded| > 0 && car.car.vehicleType !in excluded then [ExclusionHonoured(excluded)] else []) +
    (if Truthy(soft) && car.car.vehicleType == soft.value then [PreferenceMatch(car.car.vehicleType)] else []) +
    PriceReasons(car, PriceObjective(intent), allCars)
  }

  /** The list `reasons` holds just before it is joined. */
  function Reasons(car: Candidate, intent: Intent, allCars: seq<Candidate>): seq<Reason> {
    var specific := SpecificReasons(car, intent, allCars);
    if specific == [] then [Fallback] else specific
  }

  function Texts(rs: seq<Reason>): (ts: seq<string>)
    ensures |ts| == |rs| && forall i :: 0 <= i < |rs| ==> ts[i] == ReasonText(rs[i])
  {
    seq(|rs|, i requires 0 <= i < |rs| => ReasonText(rs[i]))
  }

  /** The text `explainCar({ car, intent, allCars })` returns. */
  function Explanation(car: Candidate, intent: Intent, allCars: seq<Candidate>): string {
    "Recommended because " + Join(Texts(Reasons(car, intent, allCars)), " and ") + "."
  }

  lemma TextsAppend(a: seq<Reason>, b: seq<Reason>)
    ensures Texts(a + b) == Texts(a) + Texts(b)
  {
  }

  /** The price block of `explainCar`: what it pushes for the given objective. */
  method PriceReasonTexts(car: Candidate, priceObjective: Option<Objective>, allCars: seq<Candidate>)
    returns (texts: seq<string>)
    ensures texts == Texts(PriceReasons(car, priceObjective, allCars))
  {
    texts := [];
    if priceObjective.Some? && priceObjective.value.direction == "asc" {
      var minPrice := MinPrice(allCars);
      if minPrice.Some? && car.car.price == minPrice.value {
        texts := texts + ["it is the cheapest available option"];
      } else if minPrice.None? || 5 * car.car.price <= 6 * minPrice.value {
        texts := texts + ["it is among the more affordable options"];
      }
    }
    if priceObjective.Some? && priceObjective.value.direction == "desc" {
      var maxPrice := MaxPrice(allCars);
      if maxPrice.Some? && car.car.price == maxPrice.value {
        texts := texts + ["it is among the most premium options"];
      }
    }
  }

  /** `explainCar`: pushes each applicable reason onto `reasons`, then joins. */
  method ExplainCar(car: Candidate, intent: Intent, allCars: seq<Candidate>) returns (text: string)
    ensures text == Explanation(car, intent, allCars)
  {
    ghost var excludedTypes := ExcludedValues(intent);
    ghost var soft := SoftType(intent);
    var reasons: seq<string> := [];
    var exclude := ExcludeList(intent);
    if |exclude| > 0 {
      var excluded := Values(exclude);
      if car.car.vehicleType !in excluded {
        reasons := reasons + ["it satisfies your request to exclude " + Join(excluded, ", ")];
      }
    }
    ghost var afterExclusion := if |excludedTypes| > 0 && car.car.vehicleType !in excludedTypes then [ExclusionHonoured(excludedTypes)] else [];
    assert reasons == Texts(afterExclusion);

    var softType := SoftType(intent);
    if Truthy(softType) && car.car.vehicleType == softType.value {
      reasons := reasons + ["it matches your preference for " + Lower(car.car.vehicleType) + " cars"];
    }
    ghost var afterPreference := afterExclusion +
      (if Truthy(soft) && car.car.vehicleType == soft.value then [PreferenceMatch(car.car.vehicleType)] else []);
    assert reasons == Texts(afterPreference);

    var priceObjective := PriceObjective(intent);
    var priceTexts := PriceReasonTexts(car, priceObjective, allCars);
    TextsAppend(afterPreference, PriceReasons(car, priceObjective, allCars));
    reasons := reasons + priceTexts;
    assert reasons == Texts(SpecificReasons(car, intent, allCars));

    if |reasons| == 0 {
      reasons := reasons + ["it best matches your current request"];
    }
    assert reasons == Texts(Reasons(car, intent, allCars));
    text := "Recommended because " + Join(reasons, " and ") + ".";
  }

  /** There is always a reason, and the fallback appears exactly when no
      other reason applies, and then alone. */
  lemma ReasonsFallback(car: Candidate, intent: Intent, allCars: seq<Candidate>)
    ensures var rs := Reasons(car, intent, allCars);
            && |rs| > 0
            && (Fallback in rs <==> SpecificReasons(car, intent, allCars) == [])
            && (Fallback in rs ==> rs == [Fallback])
  {
    var specific := SpecificReasons(car, intent, allCars);
    assert Fallback !in PriceReasons(car, PriceObjective(intent), allCars);
  }

  /** Reasons come in the order exclusion, preference, price, fallback, and
      at most one of each (so never both "cheapest" and "more affordable"). */
  lemma ReasonsOrdered(car: Candidate, intent: Intent, allCars: seq<Candidate>)
    ensures var rs := Reasons(car, intent, allCars);
            forall i, j :: 0 <= i < j < |rs| ==> Rank(rs[i]) < Rank(rs[j])
  {
    var excluded := ExcludedValues(intent);
    var soft := SoftType(intent);
    var a := if |excluded| > 0 && car.car.vehicleType !in excluded then [ExclusionHonoured(excluded)] else [];
    var b := if Truthy(soft) && car.car.vehicleType == soft.value then [PreferenceMatch(car.car.vehicleType)] else [];
    var p := PriceReasons(car, PriceObjective(intent), allCars);
    assert SpecificReasons(car, intent, allCars) == a + b + p;
    BlocksOrdered(a, b, p);
  }

  /** One optional reason from each of three blocks of increasing rank
      gives a strictly increasing list of ranks. */
  lemma BlocksOrdered(a: seq<Reason>, b: seq<Reason>, p: seq<Reason>)
    requires |a| <= 1 && |b| <= 1 && |p| <= 1
    requires forall r :: r in a ==> Rank(r) == 0
    requires forall r :: r in b ==> Rank(r) == 1
    requires forall r :: r in p ==> Rank(r) == 2
    ensures var rs := a + b + p;
            forall i, j :: 0 <= i < j < |rs| ==> Rank(rs[i]) < Rank(rs[j])
  {
    var rs := a + b + p;
    forall k | 0 <= k < |rs|
      ensures Rank(rs[k]) == if k < |a| then 0 else if k < |a| + |b| then 1 else 2
    {
      if k < |a| {
        assert rs[k] in a;
      } else if k < |a| + |b| {
        assert rs[k] == b[k - |a|];
      } else {
        assert rs[k] == p[k - |a| - |b|];
      }
    }
  }

  /** The exclusion reason appears iff some type is excluded and the car's
      type is not among the excluded ones. */
  lemma ExclusionReason(car: Candidate, intent: Intent, allCars: seq<Candidate>)
    ensures var excluded := ExcludedValues(intent);
            ExclusionHonoured(excluded) in Reasons(car, intent, allCars) <==>
              |excluded| > 0 && car.car.vehicleType !in excluded
  {
  }

  /** The preference reason appears iff the soft type is set and is the car's type. */
  lemma PreferenceReason(car: Candidate, intent: Intent, allCars: seq<Candidate>)
    ensures PreferenceMatch(car.car.vehicleType) in Reasons(car, intent, allCars) <==>
              Truthy(SoftType(intent)) && SoftType(intent).value == car.car.vehicleType
  {
  }

  /** A price reason is among the reasons iff the price block produced it. */
  lemma PriceReasonsKept(car: Candidate, intent: Intent, allCars: seq<Candidate>)
    ensures forall r :: Rank(r) == 2 ==>
              (r in Reasons(car, intent, allCars) <==> r in PriceReasons(car, PriceObjective(intent), allCars))
  {
    var pr := PriceReasons(car, PriceObjective(intent), allCars);
    var sp := SpecificReasons(car, intent, allCars);
    assert forall r :: r in sp && Rank(r) == 2 ==> r in pr;
  }

  /** Ascending objective, for a car among `allCars`: "cheapest" iff it has
      the minimum price, "more affordable" iff it is dearer than the minimum
      but within 20% of it. */
  lemma AscendingPriceReasons(car: Candidate, intent: Intent, allCars: seq<Candidate>)
    requires car in allCars
    requires PriceObjective(intent).Some? && PriceObjective(intent).value.direction == "asc"
    ensures var m := MinPrice(allCars).value;
            var rs := Reasons(car, intent, allCars);
            && (Cheapest in rs <==> car.car.price == m)
            && (MoreAffordable in rs <==> m < car.car.price && 5 * car.car.price <= 6 * m)
            && Premium !in rs
  {
    PriceReasonsKept(car, intent, allCars);
    assert Rank(Cheapest) == 2 && Rank(MoreAffordable) == 2 && Rank(Premium) == 2;
  }

  /** Descending objective, for a car among `allCars`: "premium" iff it has
      the maximum price. */
  lemma DescendingPriceReasons(car: Candidate, intent: Intent, allCars: seq<Candidate>)
    requires car in allCars
    requires PriceObjective(intent).Some? && PriceObjective(intent).value.direction == "desc"
    ensures var rs := Reasons(car, intent, allCars);
            && (Premium in rs <==> car.car.price == MaxPrice(allCars).value)
            && Cheapest !in rs && MoreAffordable !in rs
  {
    PriceReasonsKept(car, intent, allCars);
    assert Rank(Cheapest) == 2 && Rank(MoreAffordable) == 2 && Rank(Premium) == 2;
  }

  /** Without an asc/desc objective on price there is no price reason. */
  lemma NoPriceReason(car: Candidate, intent: Intent, allCars: seq<Candidate>)
    requires PriceObjective(intent).None? || PriceObjective(intent).value.direction !in {"asc", "desc"}
    ensures forall r :: r in Reasons(car, intent, allCars) ==> Rank(r) != 2
  {
  }
}
