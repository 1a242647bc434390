/** The allowed car types, read once from the car table grouped by type and
    kept in a module-level cache (src/services/domain.service.js). The car
    table's `type` column is a parameter of each call. */
module DomainTypes {
  import opened Intents

  /** A car row reduced to the one attribute the query selects. */
  datatype TypeRow = TypeRow(vehicleType: string)

  /** `rows.map(r => r.type)` */
  function TypesOf(rows: seq<TypeRow>): (types: seq<string>)
    ensures |types| == |rows|
    ensures forall i :: 0 <= i < |rows| ==> types[i] == rows[i].vehicleType
  {
    seq(|rows|, i requires 0 <= i < |rows| => rows[i].vehicleType)
  }

  /** `group: ["type"]`: one row per type, the first row of each type, in
      the order the types first occur. */
  function Group(cars: seq<TypeRow>): seq<TypeRow> {
    if cars == [] then []
    else
      var grouped := Group(cars[..|cars| - 1]);
      var last := cars[|cars| - 1];
      if last.vehicleType in TypesOf(grouped) then grouped else grouped + [last]
  }

  predicate Distinct(s: seq<string>) {
    forall i, j :: 0 <= i < j < |s| ==> s[i] != s[j]
  }

  /** The grouped rows name each type exactly once, and they name exactly
      the types that occur in the table. */
  lemma {:induction false} GroupedTypesDistinct(cars: seq<TypeRow>)
    ensures Distinct(TypesOf(Group(cars)))
    ensures forall t :: t in TypesOf(Group(cars)) <==> t in TypesOf(cars)
  {
    if cars != [] {
      var n := |cars| - 1;
      var grouped := Group(cars[..n]);
      GroupedTypesDistinct(cars[..n]);
      assert TypesOf(cars) == TypesOf(cars[..n]) + [cars[n].vehicleType];
      if cars[n].vehicleType !in TypesOf(grouped) {
        assert TypesOf(grouped + [cars[n]]) == TypesOf(grouped) + [cars[n].vehicleType];
      }
    }
  }

  /** The module-level `cachedTypes`; `None` is its initial `null`. An empty
      list is a truthy array, so it is cached like any other. */
  class AllowedTypesCache {
    var cachedTypes: Option<seq<string>>
    /** How many times the car table has been read. */
    ghost var loads: nat

    ghost predicate Valid()
      reads this
    {
      loads <= 1 && (cachedTypes.None? <==> loads == 0) &&
      (cachedTypes.Some? ==> Distinct(cachedTypes.value))
    }

    constructor()
      ensures Valid() && cachedTypes.None? && loads == 0
    {
      cachedTypes := None;
      loads := 0;
    }

    /** `getAllowedCarTypes()`: the cached list if there is one; otherwise
        the types of the car table grouped by type, which are then cached. */
    method GetAllowedCarTypes(cars: seq<TypeRow>) returns (types: seq<string>)
      requires Valid()
      modifies this
      ensures Valid() && Distinct(types)
      ensures old(cachedTypes).Some? ==> types == old(cachedTypes).value && cachedTypes == old(cachedTypes) && loads == old(loads)
      ensures old(cachedTypes).None? ==> types == TypesOf(Group(cars)) && cachedTypes == Some(types) && loads == 1
    {
      if cachedTypes.Some? {
        return cachedTypes.value;
      }
      GroupedTypesDistinct(cars);
      types := TypesOf(Group(cars));
      cachedTypes := Some(types);
      loads := loads + 1;
    }
  }
}
