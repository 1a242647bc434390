/** The data the services pass around: the structured intent produced from a
    query, car records and scored candidates, and the generic filter used by
    the services' `Array.prototype.filter` calls. */
module Intents {

  datatype Option<+T> = None | Some(value: T)

  /** A property of a parsed JSON object: missing (`undefined`), `null`, or
      present with a value. The services treat the first two alike in most
      places but not everywhere (a deleted key is missing, a cleared one null). */
  datatype Slot<+T> = Absent | Null | Present(value: T)

  /** A `{ field, value }` entry of `hard_constraints.include` or `.exclude`. */
  datatype Constraint = Constraint(field: string, value: string)

  /** A `{ field, direction }` entry of `objectives`. */
  datatype Objective = Objective(field: string, direction: string)

  datatype HardConstraints = HardConstraints(includes: Slot<seq<Constraint>>, excludes: Slot<seq<Constraint>>)

  /** `soft_preferences`: its `type` key, and every other key (such as
      `familyFriendly` or `mileage`) carried along with an uninterpreted value. */
  datatype SoftPreferences = SoftPreferences(vehicleType: Slot<string>, others: map<string, string>)

  datatype Intent = Intent(hard: Slot<HardConstraints>, soft: Slot<SoftPreferences>, objectives: Slot<seq<Objective>>)

  /** A car as stored in the vector index payload (`price` is an INTEGER column). */
  datatype Car = Car(brand: string, model: string, vehicleType: string, price: int)

  /** `{ ...payload, score }`: a retrieved car with its similarity score. */
  datatype Candidate = Candidate(car: Car, score: real)

  /** JavaScript truthiness of an optional string: present and non-empty. */
  predicate Truthy(s: Slot<string>) {
    s.Present? && s.value != ""
  }

  /** `intent?.hard_constraints?.exclude`, as a list (missing or null: empty). */
  function ExcludeList(intent: Intent): (r: seq<Constraint>)
    ensures r != [] ==> intent.hard.Present? && intent.hard.value.excludes == Present(r)
  {
    if intent.hard.Present? && intent.hard.value.excludes.Present? then intent.hard.value.excludes.value else []
  }

  /** `exclude.map(e => e.value)` */
  function Values(cs: seq<Constraint>): (r: seq<string>)
    ensures |r| == |cs| && forall i :: 0 <= i < |cs| ==> r[i] == cs[i].value
  {
    seq(|cs|, i requires 0 <= i < |cs| => cs[i].value)
  }

  /** The excluded values of an intent, in order. */
  function ExcludedValues(intent: Intent): (r: seq<string>)
    ensures forall v :: v in r <==> exists c :: c in ExcludeList(intent) && c.value == v
  {
    var cs := ExcludeList(intent);
    assert forall c :: c in cs ==> c.value == Values(cs)[IndexOf(cs, c)];
    Values(cs)
  }

  function IndexOf<T(==)>(s: seq<T>, x: T): (i: nat)
    requires x in s
    ensures i < |s| && s[i] == x
  {
    if s[0] == x then 0 else 1 + IndexOf(s[1..], x)
  }

  /** `intent?.soft_preferences?.type` */
  function SoftType(intent: Intent): Slot<string> {
    if intent.soft.Present? then intent.soft.value.vehicleType else Absent
  }

  /** `objectives.find(o => o.field === "price")`: the first objective on price. */
  function FirstPriceObjective(objs: seq<Objective>): (r: Option<Objective>)
    ensures r.Some? <==> exists i :: 0 <= i < |objs| && objs[i].field == "price"
    ensures r.Some? ==> exists i :: 0 <= i < |objs| && objs[i] == r.value && objs[i].field == "price" &&
                                     forall j :: 0 <= j < i ==> objs[j].field != "price"
  {
    if objs == [] then None
    else if objs[0].field == "price" then Some(objs[0])
    else
      var r := FirstPriceObjective(objs[1..]);
      assert forall i :: 1 <= i < |objs| ==> objs[i] == objs[1..][i - 1];
      r
  }

  /** `intent?.objectives?.find(o => o.field === "price")` */
  function PriceObjective(intent: Intent): Option<Objective> {
    if intent.objectives.Present? then FirstPriceObjective(intent.objectives.value) else None
  }

  /** `s.filter(p)`: the elements of `s` that satisfy `p`, in their order. */
  function Filter<T(==,!new)>(p: T -> bool, s: seq<T>): (r: seq<T>)
    ensures |r| <= |s|
    ensures forall x :: x in r <==> x in s && p(x)
  {
    if s == [] then []
    else
      var rest := Filter(p, s[1..]);
      assert s == [s[0]] + s[1..];
      if p(s[0]) then [s[0]] + rest else rest
  }

  /** Filtering keeps every occurrence of an element that passes and none of
      one that fails. */
  lemma {:induction false} FilterMultiset<T(!new)>(p: T -> bool, s: seq<T>)
    ensures forall x :: multiset(Filter(p, s))[x] == if p(x) then multiset(s)[x] else 0
  {
    if s != [] {
      FilterMultiset(p, s[1..]);
      assert s == [s[0]] + s[1..];
    }
  }

  /** Filtering distributes over concatenation, so it keeps relative order. */
  lemma {:induction false} FilterAppend<T(!new)>(p: T -> bool, a: seq<T>, b: seq<T>)
    ensures Filter(p, a + b) == Filter(p, a) + Filter(p, b)
  {
    if a == [] {
      assert a + b == b;
    } else {
      assert (a + b)[1..] == a[1..] + b;
      FilterAppend(p, a[1..], b);
    }
  }

  /** A filter that every element passes changes nothing. */
  lemma {:induction false} FilterAll<T(!new)>(p: T -> bool, s: seq<T>)
    requires forall x :: x in s ==> p(x)
    ensures Filter(p, s) == s
  {
    if s != [] {
      FilterAll(p, s[1..]);
    }
  }
}
