/**
 * The planner scenarios of the query-planner unit tests, over the `human`
 * collection whose primary key is `passportId`. The query normalizer may or
 * may not append the primary key to the sort, so where the outcome could
 * depend on the sort, each scenario is proved for both forms.
 */
module Scenarios {
  import opened Wrappers
  import opened Values
  import opened Matcher
  import opened Ranking
  import opened Planner

  const PrimaryKey: Field := "passportId"

  /** The `human` schema with the given declared indexes. */
  function HumanSchema(indexes: seq<seq<Field>>): Schema {
    Schema(PrimaryKey, indexes)
  }

  /** The requested sort, or the requested sort followed by an ascending primary key. */
  predicate NormalizedSort(sort: seq<SortField>, requested: seq<SortField>) {
    sort == requested || sort == requested + [SortField(PrimaryKey, Asc)]
  }

  /** `$gt` on a value (no upper bound). */
  function Gt(v: Value): Constraint { Range(Some(v), false, None, false) }

  /** `$gte` on a value (no upper bound). */
  function Gte(v: Value): Constraint { Range(Some(v), true, None, false) }

  /** `age asc, firstName asc` */
  const AgeThenName: seq<SortField> := [SortField("age", Asc), SortField("firstName", Asc)]

  /** The two indexes the ranking scenarios declare, `[firstName, age]` then `[age, firstName]`. */
  function TwoWaySchema(): Schema {
    HumanSchema([["firstName", "age"], ["age", "firstName"]])
  }

  /** The extended candidates of `TwoWaySchema`. */
  lemma TwoWayCandidates()
    ensures Candidates(TwoWaySchema()) ==
      [["firstName", "age", "passportId"], ["age", "firstName", "passportId"], ["passportId"]]
  {
    var cs := Candidates(TwoWaySchema());
    assert TwoWaySchema().indexes == [["firstName", "age"], ["age", "firstName"]];
    assert |cs| == 3;
    assert "passportId" !in ["firstName", "age"] && "passportId" !in ["age", "firstName"];
    assert cs[0] == ["firstName", "age"] + ["passportId"];
    assert cs[1] == ["age", "firstName"] + ["passportId"];
    assert cs[2] == ["passportId"];
    assert ["firstName", "age"] + ["passportId"] == ["firstName", "age", "passportId"];
    assert ["age", "firstName"] + ["passportId"] == ["age", "firstName", "passportId"];
  }

  /** Without declared indexes the default index is picked, whatever the selector and sort. */
  lemma DefaultIndexWhenNoneDeclared(sel: Selector, sort: seq<SortField>)
    ensures var r := GetQueryPlan(HumanSchema([]), Query(sel, sort, None));
      r.Ok? && r.value.index == ["passportId"]
  {
    var ss := Scores(HumanSchema([]), Query(sel, sort, None));
    assert BestIndex(ss) == 0;
  }

  /** A requested index is used as given, with the primary key appended. */
  lemma RequestedIndexIsRespected(sel: Selector, sort: seq<SortField>)
    ensures var r := GetQueryPlan(HumanSchema([["firstName"]]), Query(sel, sort, Some(["firstName"])));
      r.Ok? && r.value.index == ["firstName", "passportId"]
  {
    DeclaredIndexCanBeRequested(HumanSchema([["firstName"]]), Query(sel, sort, Some(["firstName"])), 0);
  }

  /** `age $gte 20` on the index `[age]`: the scan starts at 20, inclusively, and is open above. */
  lemma StartAndEndKeysOfRange(sort: seq<SortField>)
    ensures var r := GetQueryPlan(HumanSchema([["age"]]), Query(map["age" := Gte(Num(20))], sort, None));
      && r.Ok?
      && r.value.index == ["age", "passportId"]
      && r.value.startKeys[0] == Num(20)
      && r.value.endKeys[0] == MaxKey
      && r.value.inclusiveStart
  {
    var q := Query(map["age" := Gte(Num(20))], sort, None);
    var ss := Scores(HumanSchema([["age"]]), q);
    assert Match(["age", "passportId"], q.selector).totalWeight == 1;
    assert Match(["passportId"], q.selector).totalWeight == 0;
    assert Outranks(ss[0], ss[1]);
  }

  /** An index on a field the selector does not mention loses to the shorter default index. */
  lemma DefaultBeatsIndexWithoutQueryFields(sort: seq<SortField>)
    requires NormalizedSort(sort, [])
    ensures var r := GetQueryPlan(HumanSchema([["firstName"]]), Query(map["age" := Eq(Num(10))], sort, None));
      r.Ok? && r.value.index == ["passportId"]
  {
    var q := Query(map["age" := Eq(Num(10))], sort, None);
    var ss := Scores(HumanSchema([["firstName"]]), q);
    assert Match(["firstName", "passportId"], q.selector).totalWeight == 0;
    assert Match(["passportId"], q.selector).totalWeight == 0;
    assert Outranks(ss[1], ss[0]);
  }

  /** `age $eq 10`: `[age, firstName]` beats `[firstName, age]`, since it pins its first field. */
  lemma EqualityOnLeadingFieldWins(sort: seq<SortField>)
    ensures var r := GetQueryPlan(TwoWaySchema(), Query(map["age" := Eq(Num(10))], sort, None));
      r.Ok? && r.value.index == ["age", "firstName", "passportId"]
  {
    var q := Query(map["age" := Eq(Num(10))], sort, None);
    TwoWayCandidates();
    var ss := Scores(TwoWaySchema(), q);
    assert ss[0].equalityCount == 0 by {
      assert KindOf(q.selector, "firstName") == NoMatch;
    }
    assert ss[1].equalityCount == 1 by {
      assert KindOf(q.selector, "age") == Equality;
      assert KindOf(q.selector, "firstName") == NoMatch;
    }
    assert ss[2].equalityCount == 0 by {
      assert KindOf(q.selector, "passportId") == NoMatch;
    }
    BestRankedCandidateIsChosen(TwoWaySchema(), q, 1);
  }

  /** No selector: the index whose field order matches the sort wins. */
  lemma SortOrderDecidesWithoutSelector(sort: seq<SortField>)
    requires NormalizedSort(sort, AgeThenName)
    ensures var r := GetQueryPlan(TwoWaySchema(), Query(map[], sort, None));
      r.Ok? && r.value.index == ["age", "firstName", "passportId"]
  {
    var q := Query(map[], sort, None);
    TwoWayCandidates();
    var ss := Scores(TwoWaySchema(), q);
    assert ss[0].sortAligned == false && ss[0].totalWeight == 0 && ss[0].equalityCount == 0;
    assert ss[1].sortAligned == true && ss[1].totalWeight == 0 && ss[1].equalityCount == 0;
    assert ss[2].sortAligned == false && ss[2].totalWeight == 0 && ss[2].equalityCount == 0;
    BestRankedCandidateIsChosen(TwoWaySchema(), q, 1);
  }

  /** `$gt` on both fields scores both indexes equally, so the sort-aligned one wins. */
  lemma SortOrderDecidesBetweenEqualRanges(sort: seq<SortField>)
    requires NormalizedSort(sort, AgeThenName)
    ensures var r := GetQueryPlan(TwoWaySchema(),
                                  Query(map["age" := Gt(Num(20)), "firstName" := Gt(Str("aaa"))], sort, None));
      r.Ok? && r.value.index == ["age", "firstName", "passportId"]
  {
    var q := Query(map["age" := Gt(Num(20)), "firstName" := Gt(Str("aaa"))], sort, None);
    TwoWayCandidates();
    var ss := Scores(TwoWaySchema(), q);
    assert KindOf(q.selector, "age") == RangeMatch;
    assert KindOf(q.selector, "firstName") == RangeMatch;
    assert KindOf(q.selector, "passportId") == NoMatch;
    assert ss[0].sortAligned == false && ss[0].totalWeight == 1 && ss[0].equalityCount == 0;
    assert ss[1].sortAligned == true && ss[1].totalWeight == 1 && ss[1].equalityCount == 0;
    assert ss[2].totalWeight == 0 && ss[2].equalityCount == 0;
    BestRankedCandidateIsChosen(TwoWaySchema(), q, 1);
  }

  /** `$eq` on `firstName` plus `$gt` on `age`: the equality outweighs the sort order. */
  lemma EqualityOutweighsSortOrder(sort: seq<SortField>)
    ensures var r := GetQueryPlan(TwoWaySchema(),
                                  Query(map["age" := Gt(Num(20)), "firstName" := Eq(Str("aaa"))], sort, None));
      r.Ok? && r.value.index == ["firstName", "age", "passportId"]
  {
    var q := Query(map["age" := Gt(Num(20)), "firstName" := Eq(Str("aaa"))], sort, None);
    TwoWayCandidates();
    var ss := Scores(TwoWaySchema(), q);
    assert KindOf(q.selector, "age") == RangeMatch;
    assert KindOf(q.selector, "firstName") == Equality;
    assert KindOf(q.selector, "passportId") == NoMatch;
    assert ss[0].equalityCount == 1;
    assert ss[1].equalityCount == 0;
    assert ss[2].equalityCount == 0;
    BestRankedCandidateIsChosen(TwoWaySchema(), q, 0);
  }
}
