# Query planner of an embedded document database

This project models the query planner found in the RxDB repository, `getQueryPlan(schema, query)`. The planner takes a collection's primary key, its declared composite indexes and a normalized query. The query is a selector, a sort and an optional explicit index. From these the planner picks one index and describes a range scan over it: one start key and one end key per index field, plus an inclusivity flag for each end. The planner's implementation file is not part of this model. Its observable behaviour is pinned down by `test/unit/query-planner.test.ts`. The model is pure: datatypes, functions and lemmas.

- `Values` holds the index key values (`Num`, `Str` and the sentinels `MinKey`/`MaxKey`), their strict total order (transitive, asymmetric and total), and the selector operators. An operator is `Eq(v)`, `Range(lower?, lowerInclusive, upper?, upperInclusive)` or `Other`.
- `Matcher` is the constraint matcher. It walks an index's fields. `$eq` gives EQUALITY and the walk continues. A range with at least one bound gives RANGE and the walk stops. Anything else gives NONE and the walk stops. The weights are 2, 1 and 0. The matcher returns the classifications, the equality count and the total weight.
- `Ranking` is the comparator `Outranks`. Its keys, in order: equality count, total weight, sort alignment, fewer fields, and earlier declaration position. `BestIndex` returns the candidate that outranks every other candidate.
- `Bounds` builds the start and end keys (`BuildBounds`). It also proves that those keys cover every document the selector admits on the index fields, using the lexicographic tuple order of the keys.
- `Planner` contains:
  - primary-key extension (`Extend`);
  - the candidate list: the declared indexes, then the default index `[primaryKey]`;
  - the sort-alignment check;
  - index choice, including the explicit-index path and its error;
  - the assembled `QueryPlan`.
- `Scenarios` turns each test case into a lemma about `GetQueryPlan`.

The query normalizer may or may not append an ascending primary-key sort. Where the result could depend on that, a scenario is proved for both sorts (`NormalizedSort`). Where the result does not depend on the sort, the scenario is proved for every sort.

## Model

| member | source | states |
|---|---|---|
| Values.LessTransitive | test/unit/query-planner.test.ts:61-81 | The key order is transitive. This includes strings, ordered lexicographically. |
| Values.LessAsymmetric | test/unit/query-planner.test.ts:61-81 | Two key values are never each below the other. The scan bounds are compared under this order. |
| Values.LessTotal | test/unit/query-planner.test.ts:61-81 | Any two distinct key values are ordered one way or the other. |
| Values.SentinelsAreExtreme | test/unit/query-planner.test.ts:79 | The MIN and MAX sentinels are strictly below and strictly above every number and string a document can hold. |
| Matcher.MatchFields | test/unit/query-planner.test.ts:103-123 | The classifications follow the left-prefix rule. Each entry is its field's own classification. Every entry but the last is EQUALITY. The walk stops early only at a non-EQUALITY field. |
| Matcher.LeftPrefixMatchIsUnique | test/unit/query-planner.test.ts:103-123 | The left-prefix rule fixes the classification completely: any sequence meeting it is the one the walk returns. |
| Matcher.Match | test/unit/query-planner.test.ts:172-199 | The equality count is the length of the leading run of `$eq` fields. The total weight is twice that count, plus 1 exactly when the next field carries a range with at least one bound. |
| Ranking.OutranksAsymmetric | test/unit/query-planner.test.ts:84-199 | No two candidates each outrank the other, so the ranking is irreflexive. |
| Ranking.OutranksTransitive | test/unit/query-planner.test.ts:84-199 | The ranking is transitive. |
| Ranking.OutranksTotal | test/unit/query-planner.test.ts:84-199 | Candidates at different positions are always strictly ranked, so no tie survives the last rule. |
| Ranking.BestIndex | test/unit/query-planner.test.ts:84-199 | The chosen candidate outranks every other candidate. |
| Ranking.BestIndexIsUnique | test/unit/query-planner.test.ts:84-199 | Only one candidate can outrank all the others, and it is the one chosen. |
| Bounds.BuildBounds | test/unit/query-planner.test.ts:73-80 | There is one start key and one end key per index field. |
| Bounds.BoundsFollowMatch | test/unit/query-planner.test.ts:61-81 | EQUALITY positions hold the value on both sides. A RANGE position holds its lower bound or MIN and its upper bound or MAX. Every other position, and every position after the walk stopped, holds MIN/MAX. The flags are the range's own inclusivity, with a missing bound counting as inclusive; without a range both flags are inclusive. |
| Bounds.TupleLeTransitive | test/unit/query-planner.test.ts:61-81 | The lexicographic order on key tuples is transitive, so the start and end keys bound an interval of that order. |
| Bounds.SentinelTuplesAreExtreme | test/unit/query-planner.test.ts:79 | A tuple of document values lies strictly between the all-MIN tuple and the all-MAX tuple. |
| Bounds.ScanCoversMatchingKeys | test/unit/query-planner.test.ts:61-81 | Every tuple of document values that passes the selector on the index fields lies inside the scan, under the scan's inclusivity. |
| Bounds.ScanStaysOnEqualityPrefix | test/unit/query-planner.test.ts:103-123 | Every key tuple inside the scan holds, at each leading equality field, exactly that field's `$eq` value. |
| Planner.Extend | test/unit/query-planner.test.ts:46-60 | The primary key is present. The index's own fields come first, unchanged. The key is appended only when absent. The result holds exactly the index fields and the primary key. |
| Planner.ExtendKeepsUniqueFields | test/unit/query-planner.test.ts:46-60 | Extension keeps a duplicate-free index duplicate-free and is idempotent. |
| Planner.Candidates | test/unit/query-planner.test.ts:84-102 | The declared indexes come in declaration order, each extended with the primary key. The default `[primaryKey]` comes last. Every candidate holds the primary key. |
| Planner.SortAligned | test/unit/query-planner.test.ts:124-171 | True exactly when the sort is no longer than the index, names the index's leading fields in order, and is ascending on each of them. |
| Planner.Scores | test/unit/query-planner.test.ts:84-199 | Each candidate's score is its match result, its alignment, its width and its own position. Positions are distinct. |
| Planner.ChooseIndex | test/unit/query-planner.test.ts:33-199 | An explicit index is used, extended with the primary key, exactly when it is a candidate; otherwise the error names it. Without an explicit index the choice always succeeds, on a candidate that outranks every other. The chosen index holds the primary key. |
| Planner.GetQueryPlan | test/unit/query-planner.test.ts:73-80 | The plan fails exactly when the index choice fails. The plan's index is the chosen one. The keys and flags are the bounds over that index. The sort flag is that index's alignment. |
| Planner.BestRankedCandidateIsChosen | test/unit/query-planner.test.ts:84-199 | Without an explicit index, the candidate that outranks all others is the plan's index. |
| Planner.DeclaredIndexCanBeRequested | test/unit/query-planner.test.ts:46-60 | Requesting any declared index succeeds, and the plan then runs on that index extended with the primary key. |
| Planner.PlanCoversMatchingDocuments | test/unit/query-planner.test.ts:61-81 | The plan's scan contains every document the selector admits on the chosen index's fields. |
| Scenarios.TwoWayCandidates | test/unit/query-planner.test.ts:104-107 | `[firstName, age]` and `[age, firstName]` extend to `[firstName, age, passportId]`, `[age, firstName, passportId]` and the default `[passportId]`. |
| Scenarios.DefaultIndexWhenNoneDeclared | test/unit/query-planner.test.ts:34-45 | With no declared index the plan's index is `['passportId']`, for every selector and sort. |
| Scenarios.RequestedIndexIsRespected | test/unit/query-planner.test.ts:46-60 | An explicit index `['firstName']` gives `['firstName', 'passportId']`. |
| Scenarios.StartAndEndKeysOfRange | test/unit/query-planner.test.ts:61-81 | With `[age]` and `age $gte 20`, the index is `[age, passportId]`, `startKeys[0]` is 20, `endKeys[0]` is MAX, and the start is inclusive. |
| Scenarios.DefaultBeatsIndexWithoutQueryFields | test/unit/query-planner.test.ts:85-102 | `[firstName]` under `age $eq 10` loses to the default, giving `['passportId']`. |
| Scenarios.EqualityOnLeadingFieldWins | test/unit/query-planner.test.ts:103-123 | Under `age $eq 10`, `[age, firstName]` beats `[firstName, age]`, for every sort. |
| Scenarios.SortOrderDecidesWithoutSelector | test/unit/query-planner.test.ts:124-143 | With no selector and sort `age, firstName`, `[age, firstName, passportId]` wins. |
| Scenarios.SortOrderDecidesBetweenEqualRanges | test/unit/query-planner.test.ts:144-171 | With `$gt` on both fields, weights tie and the sort-aligned `[age, firstName, passportId]` wins. |
| Scenarios.EqualityOutweighsSortOrder | test/unit/query-planner.test.ts:172-199 | `firstName $eq` plus `age $gt` selects `[firstName, age, passportId]` against the sort, for every sort. |

## Left out

- The planner's implementation file is not part of this model. The model fixes the behaviour that the test file does not pin down:
  - the five-key tie-break order;
  - the `MinKey`/`MaxKey` sentinels;
  - the inclusivity rule;
  - the `UnknownIndex` error.
- The primary key is appended only when it is absent. Appending it when it is present but not last would put a field in the index twice.
- An explicit index counts as valid when, once extended, it equals an extended declared index or the default index. Otherwise the plan is the error `UnknownIndex`. The tests exercise only the valid case.
- Sort alignment requires every sorted field to be ascending. This is because indexes are scanned ascending. Reverse traversal for all-descending sorts is not modelled.
- Schema default filling and query normalization are not part of this model. Their outputs are inputs here: a primary-key name, an index list, a selector map, a sort list and an optional explicit index.
- Values.Value: document numbers are integers (`Num(int)`). JavaScript numbers are doubles, so non-integer keys such as 20.5 are outside the domain of `ScanCoversMatchingKeys` and `PlanCoversMatchingDocuments`.
- Values.StrLess: strings compare by Unicode scalar value. JavaScript's `<` compares UTF-16 code units, and the two orders differ for characters above U+FFFF.
- Values.Selector: each field holds one `Constraint`. A `Range` stands for a lower bound, an upper bound or both. The caller must merge several operators on one field before planning:
  - `$eq` together with range operators becomes `Eq`;
  - several lower or upper bounds become `Range` with the tightest bound on each side;
  - non-narrowing operators next to a range are dropped for planning and applied by the executor.
  That merge is not part of this model.
- The concrete character used for the maximum sentinel is not modelled. `MinKey`/`MaxKey` are abstract extremes of the key order, with numbers ordered below strings.
- `skip` and `limit` are not modelled. They do not take part in planning.
- The test harness is left out: the parallel runner, schema fixtures, `clone`, and the trailing block that calls `process.exit()`.
- Executing the range scan, post-filtering and in-memory sorting are left out. The model proves only that the scan it describes contains every matching document.
- Operators other than `$eq` and the ordered ranges (`$ne`, `$in`, regex, ...) are `Other`. The planner never narrows a scan with them, and the model treats them as admitting every value.
