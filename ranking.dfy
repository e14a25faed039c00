/**
 * Candidate ranking: the multi-key comparator over candidate scores and the
 * choice of the best-ranked candidate.
 */
module Ranking {

  /**
   * Everything the comparator looks at for one candidate, in priority order:
   * equality count, total weight, sort alignment, number of fields, and the
   * candidate's position among the candidates (declared indexes first, the
   * default index last).
   */
  datatype Score = Score(equalityCount: nat, totalWeight: nat, sortAligned: bool, width: nat, position: nat)

  /**
   * `a` ranks strictly above `b`: the first discriminator on which they differ
   * decides — more equalities, more weight, sort-aligned over not aligned,
   * fewer fields, earlier position.
   */
  predicate Outranks(a: Score, b: Score) {
    if a.equalityCount != b.equalityCount then a.equalityCount > b.equalityCount
    else if a.totalWeight != b.totalWeight then a.totalWeight > b.totalWeight
    else if a.sortAligned != b.sortAligned then a.sortAligned
    else if a.width != b.width then a.width < b.width
    else a.position < b.position
  }

  /** No candidate outranks itself, and never do two candidates outrank each other. */
  lemma OutranksAsymmetric(a: Score, b: Score)
    ensures !(Outranks(a, b) && Outranks(b, a))
  {
  }

  lemma OutranksTransitive(a: Score, b: Score, c: Score)
    ensures Outranks(a, b) && Outranks(b, c) ==> Outranks(a, c)
  {
  }

  /** Two candidates at different positions are always ranked: no tie survives the last rule. */
  lemma OutranksTotal(a: Score, b: Score)
    requires a.position != b.position
    ensures Outranks(a, b) || Outranks(b, a)
  {
  }

  /** Every candidate has its own position. */
  predicate DistinctPositions(scores: seq<Score>) {
    forall i, j :: 0 <= i < |scores| && 0 <= j < |scores| && i != j ==> scores[i].position != scores[j].position
  }

  /** Index of the candidate that outranks every other candidate. */
  function BestIndex(scores: seq<Score>): (k: nat)
    requires |scores| > 0
    requires DistinctPositions(scores)
    ensures k < |scores|
    ensures forall j :: 0 <= j < |scores| && j != k ==> Outranks(scores[k], scores[j])
  {
    if |scores| == 1 then 0
    else
      var front := scores[..|scores| - 1];
      var last := |scores| - 1;
      assert DistinctPositions(front) by {
        forall i, j | 0 <= i < |front| && 0 <= j < |front| && i != j
          ensures front[i].position != front[j].position
        {
          assert front[i] == scores[i] && front[j] == scores[j];
        }
      }
      var k := BestIndex(front);
      assert scores[k] == front[k];
      OutranksTotal(scores[last], scores[k]);
      if Outranks(scores[last], scores[k]) then
        assert forall j :: 0 <= j < last && j != k ==> Outranks(scores[k], scores[j]) by {
          forall j | 0 <= j < last && j != k ensures Outranks(scores[k], scores[j]) {
            assert front[j] == scores[j];
          }
        }
        forall j | 0 <= j < last ensures Outranks(scores[last], scores[j]) {
          if j != k { OutranksTransitive(scores[last], scores[k], scores[j]); }
        }
        last
      else
        assert forall j :: 0 <= j < last && j != k ==> Outranks(scores[k], scores[j]) by {
          forall j | 0 <= j < last && j != k ensures Outranks(scores[k], scores[j]) {
            assert front[j] == scores[j];
          }
        }
        k
  }

  /** The best candidate is unique: any candidate that outranks all others is the one chosen. */
  lemma BestIndexIsUnique(scores: seq<Score>, k: nat)
    requires |scores| > 0 && DistinctPositions(scores)
    requires k < |scores|
    requires forall j :: 0 <= j < |scores| && j != k ==> Outranks(scores[k], scores[j])
    ensures k == BestIndex(scores)
  {
    var b := BestIndex(scores);
    if k != b {
      OutranksAsymmetric(scores[k], scores[b]);
    }
  }
}
