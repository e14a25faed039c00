/**
 * The constraint matcher: classifies the usable left prefix of a composite
 * index against a selector and scores it.
 */
module Matcher {
  import opened Values

  /** How one index field is narrowed by the selector. */
  datatype MatchKind = Equality | RangeMatch | NoMatch

  /** The classification a single field gets, looked at on its own. */
  function KindOf(sel: Selector, f: Field): MatchKind {
    if f !in sel then NoMatch
    else match sel[f]
      case Eq(_) => Equality
      case Range(lo, _, hi, _) => if lo.Some? || hi.Some? then RangeMatch else NoMatch
      case Other => NoMatch
  }

  /** Scoring weight of a classification: EQUALITY 2, RANGE 1, NONE 0. */
  function Weight(k: MatchKind): nat {
    match k
    case Equality => 2
    case RangeMatch => 1
    case NoMatch => 0
  }

  /**
   * The left-prefix rule: a sequence of classifications describes `fields`
   * under `sel` when each entry is its field's classification, every entry
   * but the last is an equality, and the sequence stops early only at a
   * field that is not an equality (non-empty fields give a non-empty result).
   */
  ghost predicate IsLeftPrefixMatch(fields: seq<Field>, sel: Selector, ks: seq<MatchKind>) {
    && |ks| <= |fields|
    && (|fields| > 0 ==> |ks| > 0)
    && (forall i :: 0 <= i < |ks| ==> ks[i] == KindOf(sel, fields[i]))
    && (forall i :: 0 <= i < |ks| - 1 ==> ks[i] == Equality)
    && (|ks| < |fields| ==> ks[|ks| - 1] != Equality)
  }

  /**
   * Walks the index fields in order: an equality continues the walk, a range
   * or anything else is recorded and ends it.
   */
  function MatchFields(fields: seq<Field>, sel: Selector): (ks: seq<MatchKind>)
    ensures IsLeftPrefixMatch(fields, sel, ks)
  {
    if fields == [] then []
    else
      var k := KindOf(sel, fields[0]);
      if k == Equality then [k] + MatchFields(fields[1..], sel) else [k]
  }

  /** The left-prefix description is unique: the walk is the only sequence meeting it. */
  lemma {:induction false} LeftPrefixMatchIsUnique(fields: seq<Field>, sel: Selector, ks: seq<MatchKind>)
    requires IsLeftPrefixMatch(fields, sel, ks)
    ensures ks == MatchFields(fields, sel)
  {
    if fields != [] {
      if KindOf(sel, fields[0]) == Equality {
        assert |fields| > 1 ==> |ks| > 1 by {
          if |fields| > 1 && |ks| == 1 { assert ks[0] == Equality; }
        }
        assert IsLeftPrefixMatch(fields[1..], sel, ks[1..]) by {
          forall i | 0 <= i < |ks[1..]| ensures ks[1..][i] == KindOf(sel, fields[1..][i]) {
            assert ks[i + 1] == KindOf(sel, fields[i + 1]);
          }
        }
        LeftPrefixMatchIsUnique(fields[1..], sel, ks[1..]);
        assert ks == [ks[0]] + ks[1..];
      } else {
        assert |ks| == 1;
      }
    }
  }

  /** Number of EQUALITY entries. */
  function EqualityCount(ks: seq<MatchKind>): nat {
    if ks == [] then 0 else (if ks[0] == Equality then 1 else 0) + EqualityCount(ks[1..])
  }

  /** Sum of the weights of the entries. */
  function TotalWeight(ks: seq<MatchKind>): nat {
    if ks == [] then 0 else Weight(ks[0]) + TotalWeight(ks[1..])
  }

  /** The matcher's result for one candidate index. */
  datatype MatchResult = MatchResult(kinds: seq<MatchKind>, equalityCount: nat, totalWeight: nat)

  /**
   * Scores `fields` against `sel`. The equality count is the length of the
   * run of leading equality fields, and the weight is twice that, plus one
   * when the walk ended on a range.
   */
  function Match(fields: seq<Field>, sel: Selector): (m: MatchResult)
    ensures IsLeftPrefixMatch(fields, sel, m.kinds)
    ensures m.equalityCount <= |fields|
    ensures forall i :: 0 <= i < m.equalityCount ==> KindOf(sel, fields[i]) == Equality
    ensures m.equalityCount < |fields| ==> KindOf(sel, fields[m.equalityCount]) != Equality
    ensures m.totalWeight == 2 * m.equalityCount + EndsOnRange(fields, sel, m.equalityCount)
  {
    var ks := MatchFields(fields, sel);
    MatchCounts(fields, sel);
    MatchResult(ks, EqualityCount(ks), TotalWeight(ks))
  }

  /** 1 when the field after the first `n` is range-constrained, else 0. */
  function EndsOnRange(fields: seq<Field>, sel: Selector, n: nat): nat {
    if n < |fields| && KindOf(sel, fields[n]) == RangeMatch then 1 else 0
  }

  lemma {:induction false} MatchCounts(fields: seq<Field>, sel: Selector)
    ensures var ks := MatchFields(fields, sel);
      && EqualityCount(ks) <= |fields|
      && (forall i :: 0 <= i < EqualityCount(ks) ==> KindOf(sel, fields[i]) == Equality)
      && (EqualityCount(ks) < |fields| ==> KindOf(sel, fields[EqualityCount(ks)]) != Equality)
      && TotalWeight(ks) == 2 * EqualityCount(ks) + EndsOnRange(fields, sel, EqualityCount(ks))
  {
    if fields != [] && KindOf(sel, fields[0]) == Equality {
      MatchCounts(fields[1..], sel);
      var ks := MatchFields(fields, sel);
      assert ks[1..] == MatchFields(fields[1..], sel);
      forall i | 0 <= i < EqualityCount(ks) ensures KindOf(sel, fields[i]) == Equality {
        if i > 0 { assert fields[i] == fields[1..][i - 1]; }
      }
    }
  }
}
