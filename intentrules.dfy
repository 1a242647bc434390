/** The intent rule table, read once and kept in a module-level cache
    (src/services/intentRules.service.js). The rows `IntentRule.findAll()`
    would return are a parameter of each call. */
module IntentRules {
  import opened Intents

  /** An `intent_rules` row. */
  datatype RuleRow = RuleRow(ruleKey: string, action: string, confidenceThreshold: real)

  /** `{ action, threshold }` */
  datatype Rule = Rule(action: string, threshold: real)

  function RuleOf(row: RuleRow): Rule {
    Rule(row.action, row.confidenceThreshold)
  }

  /** The accumulator after the `reduce` has visited `rows`. */
  function RuleMap(rows: seq<RuleRow>): map<string, Rule> {
    if rows == [] then map[]
    else RuleMap(rows[..|rows| - 1])[rows[|rows| - 1].ruleKey := RuleOf(rows[|rows| - 1])]
  }

  /** Every row's key is in the map, and nothing else is. */
  lemma {:induction false} RuleMapKeys(rows: seq<RuleRow>)
    ensures RuleMap(rows).Keys == set r | r in rows :: r.ruleKey
  {
    if rows != [] {
      var n := |rows| - 1;
      RuleMapKeys(rows[..n]);
      assert rows == rows[..n] + [rows[n]];
    }
  }

  /** Each key maps to the rule of the LAST row carrying it. */
  lemma {:induction false} RuleMapLastWins(rows: seq<RuleRow>)
    ensures forall key :: key in RuleMap(rows) ==>
              exists k :: 0 <= k < |rows| && rows[k].ruleKey == key && RuleMap(rows)[key] == RuleOf(rows[k]) &&
                forall j :: k < j < |rows| ==> rows[j].ruleKey != key
  {
    if rows != [] {
      var n := |rows| - 1;
      var front := rows[..n];
      RuleMapLastWins(front);
      forall key | key in RuleMap(rows)
        ensures exists k :: 0 <= k < |rows| && rows[k].ruleKey == key && RuleMap(rows)[key] == RuleOf(rows[k]) &&
                  forall j :: k < j < |rows| ==> rows[j].ruleKey != key
      {
        if key == rows[n].ruleKey {
          assert RuleMap(rows)[key] == RuleOf(rows[n]);
        } else {
          assert key in RuleMap(front);
          var k :| 0 <= k < |front| && front[k].ruleKey == key && RuleMap(front)[key] == RuleOf(front[k]) &&
                   forall j :: k < j < |front| ==> front[j].ruleKey != key;
          assert rows[k] == front[k];
        }
      }
    }
  }

  /** For a key held by a single row (the column is declared unique), the
      map holds exactly that row's rule. */
  lemma UniqueKeyRule(rows: seq<RuleRow>, k: nat)
    requires k < |rows|
    requires forall j :: 0 <= j < |rows| && j != k ==> rows[j].ruleKey != rows[k].ruleKey
    ensures rows[k].ruleKey in RuleMap(rows) && RuleMap(rows)[rows[k].ruleKey] == RuleOf(rows[k])
  {
    RuleMapKeys(rows);
    RuleMapLastWins(rows);
    assert rows[k] in rows;
  }

  /** The `reduce` writing each row's key into the accumulator. */
  method BuildRuleMap(rows: seq<RuleRow>) returns (acc: map<string, Rule>)
    ensures acc == RuleMap(rows)
  {
    acc := map[];
    var k := 0;
    while k < |rows|
      invariant 0 <= k <= |rows|
      invariant acc == RuleMap(rows[..k])
    {
      assert rows[..k + 1][..k] == rows[..k];
      acc := acc[rows[k].ruleKey := RuleOf(rows[k])];
      k := k + 1;
    }
    assert rows[..|rows|] == rows;
  }

  /** The module-level `cache`; `None` is its initial `null`. An empty map is
      a truthy object, so it is cached like any other. */
  class IntentRulesCache {
    var cache: Option<map<string, Rule>>
    /** How many times the table has been read. */
    ghost var loads: nat

    ghost predicate Valid()
      reads this
    {
      loads <= 1 && (cache.None? <==> loads == 0)
    }

    constructor()
      ensures Valid() && cache.None? && loads == 0
    {
      cache := None;
      loads := 0;
    }

    /** `getIntentRules()`: the cached map if there is one; otherwise the
        map built from `rows`, which is then cached. */
    method GetIntentRules(rows: seq<RuleRow>) returns (rules: map<string, Rule>)
      requires Valid()
      modifies this
      ensures Valid()
      ensures old(cache).Some? ==> rules == old(cache).value && cache == old(cache) && loads == old(loads)
      ensures old(cache).None? ==> rules == RuleMap(rows) && cache == Some(rules) && loads == 1
    {
      if cache.Some? {
        return cache.value;
      }
      rules := BuildRuleMap(rows);
      cache := Some(rules);
      loads := loads + 1;
    }
  }
}
