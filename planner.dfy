/**
 * The plan selector behind `getQueryPlan(schema, query)`: candidate
 * enumeration with primary-key extension, the sort-alignment check, the
 * choice of index, and the assembled query plan.
 */
module Planner {
  import opened Wrappers
  import opened Values
  import opened Matcher
  import opened Ranking
  import opened Bounds

  datatype Direction = Asc | Desc

  /** One entry of a normalized sort. */
  datatype SortField = SortField(field: Field, direction: Direction)

  /** What the planner reads of a collection's schema: its primary key and declared indexes. */
  datatype Schema = Schema(primaryKey: Field, indexes: seq<seq<Field>>)

  /** A normalized query: selector, sort and an optional explicitly requested index. */
  datatype Query = Query(selector: Selector, sort: seq<SortField>, index: Option<seq<Field>>)

  /** The plan handed to the executor. */
  datatype QueryPlan = QueryPlan(
    index: seq<Field>,
    startKeys: seq<Value>,
    endKeys: seq<Value>,
    inclusiveStart: bool,
    inclusiveEnd: bool,
    sortSatisfiedByIndex: bool)

  /** The explicitly requested index is neither a declared index nor the default one. */
  datatype PlanError = UnknownIndex(requested: seq<Field>)

  /** No field appears twice. */
  predicate NoDuplicates(fields: seq<Field>) {
    forall i, j :: 0 <= i < j < |fields| ==> fields[i] != fields[j]
  }

  /**
   * The index with the primary key appended when it is absent: the index's
   * own fields come first, unchanged, and the result holds exactly the
   * index's fields and the primary key.
   */
  function Extend(primaryKey: Field, index: seq<Field>): (r: seq<Field>)
    ensures primaryKey in r
    ensures |index| <= |r| && r[..|index|] == index
    ensures |r| == if primaryKey in index then |index| else |index| + 1
    ensures forall f :: f in r <==> f in index || f == primaryKey
  {
    if primaryKey in index then index else index + [primaryKey]
  }

  /** Extension keeps the fields of a well-formed index unique and is idempotent. */
  lemma ExtendKeepsUniqueFields(primaryKey: Field, index: seq<Field>)
    requires NoDuplicates(index)
    ensures NoDuplicates(Extend(primaryKey, index))
    ensures Extend(primaryKey, Extend(primaryKey, index)) == Extend(primaryKey, index)
  {
  }

  /** The index used when no declared index is better: the primary key alone. */
  function DefaultIndex(primaryKey: Field): seq<Field> {
    [primaryKey]
  }

  /**
   * The candidate indexes, each extended with the primary key: the declared
   * indexes in declaration order, then the default index last.
   */
  function Candidates(schema: Schema): (cs: seq<seq<Field>>)
    ensures |cs| == |schema.indexes| + 1
    ensures forall i :: 0 <= i < |schema.indexes| ==> cs[i] == Extend(schema.primaryKey, schema.indexes[i])
    ensures cs[|schema.indexes|] == DefaultIndex(schema.primaryKey)
    ensures forall i :: 0 <= i < |cs| ==> schema.primaryKey in cs[i]
  {
    seq(|schema.indexes| + 1, i requires 0 <= i <= |schema.indexes| =>
      if i < |schema.indexes| then Extend(schema.primaryKey, schema.indexes[i]) else DefaultIndex(schema.primaryKey))
  }

  /**
   * Whether a scan of `fields` (which is ascending) already yields the
   * requested order: the sort is no longer than the index, names its
   * leading fields in the same order, and is ascending on each of them.
   */
  function SortAligned(fields: seq<Field>, sort: seq<SortField>): (b: bool)
    ensures b <==> |sort| <= |fields| && forall i :: 0 <= i < |sort| ==> sort[i] == SortField(fields[i], Asc)
  {
    if sort == [] then true
    else if fields == [] then false
    else sort[0] == SortField(fields[0], Asc) && SortAligned(fields[1..], sort[1..])
  }

  /** What the comparator knows of the candidate `fields` at `position`. */
  function ScoreOf(fields: seq<Field>, position: nat, query: Query): Score {
    var m := Match(fields, query.selector);
    Score(m.equalityCount, m.totalWeight, SortAligned(fields, query.sort), |fields|, position)
  }

  /** The scores of all candidates, in candidate order. */
  function Scores(schema: Schema, query: Query): (ss: seq<Score>)
    ensures |ss| == |Candidates(schema)|
    ensures forall i :: 0 <= i < |ss| ==> ss[i] == ScoreOf(Candidates(schema)[i], i, query)
    ensures DistinctPositions(ss)
  {
    var cs := Candidates(schema);
    seq(|cs|, i requires 0 <= i < |cs| => ScoreOf(cs[i], i, query))
  }

  /** Candidate `k` outranks every other candidate. */
  ghost predicate IsBestCandidate(schema: Schema, query: Query, k: nat) {
    var ss := Scores(schema, query);
    k < |ss| && forall j :: 0 <= j < |ss| && j != k ==> Outranks(ss[k], ss[j])
  }

  /**
   * The index a query runs on. An explicit index is used as given, extended
   * with the primary key, when it is one of the candidates, and is an error
   * otherwise; without one, the candidate that outranks all others is chosen.
   */
  function ChooseIndex(schema: Schema, query: Query): (r: Result<seq<Field>, PlanError>)
    ensures query.index.Some? ==>
      (r.Ok? <==> Extend(schema.primaryKey, query.index.value) in Candidates(schema))
    ensures query.index.Some? && r.Ok? ==> r.value == Extend(schema.primaryKey, query.index.value)
    ensures query.index.Some? && r.Err? ==> r.error == UnknownIndex(query.index.value)
    ensures query.index.None? ==>
      r.Ok? && exists k: nat :: IsBestCandidate(schema, query, k) && r.value == Candidates(schema)[k]
    ensures r.Ok? ==> schema.primaryKey in r.value
  {
    var cs := Candidates(schema);
    match query.index
    case Some(requested) =>
      var extended := Extend(schema.primaryKey, requested);
      if extended in cs then Ok(extended) else Err(UnknownIndex(requested))
    case None =>
      var k := BestIndex(Scores(schema, query));
      assert IsBestCandidate(schema, query, k);
      Ok(cs[k])
  }

  /**
   * Plans a query: the chosen index, the scan bounds over it and whether
   * its order already satisfies the requested sort.
   */
  function GetQueryPlan(schema: Schema, query: Query): (r: Result<QueryPlan, PlanError>)
    ensures r.Ok? <==> ChooseIndex(schema, query).Ok?
    ensures r.Err? ==> r.error == ChooseIndex(schema, query).error
    ensures r.Ok? ==> var p := r.value;
      && p.index == ChooseIndex(schema, query).value
      && |p.startKeys| == |p.index| && |p.endKeys| == |p.index|
      && KeyBounds(p.startKeys, p.endKeys, p.inclusiveStart, p.inclusiveEnd) == BuildBounds(p.index, query.selector)
      && p.sortSatisfiedByIndex == SortAligned(p.index, query.sort)
  {
    match ChooseIndex(schema, query)
    case Err(e) => Err(e)
    case Ok(index) =>
      var b := BuildBounds(index, query.selector);
      Ok(QueryPlan(index, b.startKeys, b.endKeys, b.inclusiveStart, b.inclusiveEnd, SortAligned(index, query.sort)))
  }

  /**
   * With no explicit index the plan runs on the candidate that outranks all
   * others, and that candidate is the one the selection picks.
   */
  lemma BestRankedCandidateIsChosen(schema: Schema, query: Query, k: nat)
    requires query.index.None?
    requires IsBestCandidate(schema, query, k)
    ensures k == BestIndex(Scores(schema, query))
    ensures GetQueryPlan(schema, query).Ok?
    ensures GetQueryPlan(schema, query).value.index == Candidates(schema)[k]
  {
    BestIndexIsUnique(Scores(schema, query), k);
  }

  /** Any declared index can be requested explicitly; the plan then runs on it, extended. */
  lemma DeclaredIndexCanBeRequested(schema: Schema, query: Query, i: nat)
    requires i < |schema.indexes|
    requires query.index == Some(schema.indexes[i])
    ensures GetQueryPlan(schema, query).Ok?
    ensures GetQueryPlan(schema, query).value.index == Extend(schema.primaryKey, schema.indexes[i])
  {
    assert Candidates(schema)[i] == Extend(schema.primaryKey, schema.indexes[i]);
  }

  /**
   * The plan never misses a matching document: every document the selector
   * admits on the chosen index's fields has its key tuple inside the scan.
   */
  lemma PlanCoversMatchingDocuments(schema: Schema, query: Query, key: seq<Value>)
    requires GetQueryPlan(schema, query).Ok?
    requires |key| == |GetQueryPlan(schema, query).value.index|
    requires forall i :: 0 <= i < |key| ==> IsDocumentValue(key[i])
    requires SatisfiesOnIndex(GetQueryPlan(schema, query).value.index, query.selector, key)
    ensures var p := GetQueryPlan(schema, query).value;
      InScan(KeyBounds(p.startKeys, p.endKeys, p.inclusiveStart, p.inclusiveEnd), key)
  {
    ScanCoversMatchingKeys(GetQueryPlan(schema, query).value.index, query.selector, key);
  }
}
