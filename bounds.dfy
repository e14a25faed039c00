/**
 * Key-bound materialization: the start and end key of a range scan over a
 * chosen index, one entry per index field, and their inclusivity.
 */
module Bounds {
  import opened Wrappers
  import opened Values
  import opened Matcher

  /** The scan a plan describes over its index. */
  datatype KeyBounds = KeyBounds(startKeys: seq<Value>, endKeys: seq<Value>, inclusiveStart: bool, inclusiveEnd: bool)

  /** `n` copies of a sentinel. */
  function Fill(n: nat, v: Value): (r: seq<Value>)
    ensures |r| == n && forall i :: 0 <= i < n ==> r[i] == v
  {
    seq(n, _ => v)
  }

  /** The value a key position starts at when its lower bound may be absent. */
  function LowerKey(lower: Option<Value>): Value {
    if lower.Some? then lower.value else MinKey
  }

  /** The value a key position ends at when its upper bound may be absent. */
  function UpperKey(upper: Option<Value>): Value {
    if upper.Some? then upper.value else MaxKey
  }

  /**
   * Walks the index fields: an equality pins its position to its value on
   * both sides and the walk continues; a range puts its bounds (or the
   * sentinels) at its position and opens every later position fully; a field
   * without a narrowing constraint opens itself and every later position.
   * Only a range with a strict bound clears an inclusivity flag. Because the
   * later positions hold sentinels, the flag excludes only the boundary
   * tuple itself, which no document's key equals when the range field is
   * not the last index field.
   */
  function BuildBounds(fields: seq<Field>, sel: Selector): (b: KeyBounds)
    ensures |b.startKeys| == |fields| && |b.endKeys| == |fields|
  {
    if fields == [] then KeyBounds([], [], true, true)
    else
      var rest := |fields| - 1;
      if fields[0] !in sel then KeyBounds(Fill(|fields|, MinKey), Fill(|fields|, MaxKey), true, true)
      else match sel[fields[0]]
        case Eq(v) =>
          var tail := BuildBounds(fields[1..], sel);
          KeyBounds([v] + tail.startKeys, [v] + tail.endKeys, tail.inclusiveStart, tail.inclusiveEnd)
        case Range(lo, li, hi, hui) =>
          KeyBounds([LowerKey(lo)] + Fill(rest, MinKey), [UpperKey(hi)] + Fill(rest, MaxKey),
                    li || lo.None?, hui || hi.None?)
        case Other => KeyBounds(Fill(|fields|, MinKey), Fill(|fields|, MaxKey), true, true)
  }

  /**
   * The bounds follow the matcher's classification position by position:
   * equality positions hold the value on both sides, a range position holds
   * its bounds or the sentinels, every other position MinKey and MaxKey; the
   * flags are the range's own inclusivity (a missing bound counting as
   * inclusive) when the walk ended on a range, and inclusive otherwise.
   */
  lemma {:induction false} BoundsFollowMatch(fields: seq<Field>, sel: Selector)
    ensures var ks := MatchFields(fields, sel); var b := BuildBounds(fields, sel);
      && (forall i :: 0 <= i < |ks| && ks[i] == Equality ==>
            b.startKeys[i] == sel[fields[i]].value && b.endKeys[i] == sel[fields[i]].value)
      && (forall i :: 0 <= i < |ks| && ks[i] == RangeMatch ==>
            b.startKeys[i] == LowerKey(sel[fields[i]].lower) && b.endKeys[i] == UpperKey(sel[fields[i]].upper))
      && (forall i :: 0 <= i < |fields| && (i >= |ks| || ks[i] == NoMatch) ==>
            b.startKeys[i] == MinKey && b.endKeys[i] == MaxKey)
      && (if |ks| > 0 && ks[|ks| - 1] == RangeMatch
          then var c := sel[fields[|ks| - 1]];
               b.inclusiveStart == (c.lowerInclusive || c.lower.None?) &&
               b.inclusiveEnd == (c.upperInclusive || c.upper.None?)
          else b.inclusiveStart && b.inclusiveEnd)
  {
    if fields != [] && KindOf(sel, fields[0]) == Equality {
      BoundsFollowMatch(fields[1..], sel);
      var ks := MatchFields(fields, sel);
      assert ks[1..] == MatchFields(fields[1..], sel);
      var b := BuildBounds(fields, sel);
      var t := BuildBounds(fields[1..], sel);
      assert b.startKeys[1..] == t.startKeys && b.endKeys[1..] == t.endKeys;
      assert forall i :: 0 < i < |fields| ==> fields[i] == fields[1..][i - 1];
      assert forall i :: 0 < i < |ks| ==> ks[i] == ks[1..][i - 1];
    }
  }

  /** Lexicographic `<=` on key tuples of equal length. */
  predicate TupleLe(a: seq<Value>, b: seq<Value>)
    requires |a| == |b|
  {
    if a == [] then true
    else if a[0] == b[0] then TupleLe(a[1..], b[1..])
    else Less(a[0], b[0])
  }

  /** Lexicographic `<` on key tuples of equal length. */
  predicate TupleLt(a: seq<Value>, b: seq<Value>)
    requires |a| == |b|
  {
    if a == [] then false
    else if a[0] == b[0] then TupleLt(a[1..], b[1..])
    else Less(a[0], b[0])
  }

  lemma {:induction false} TupleLtIsLe(a: seq<Value>, b: seq<Value>)
    requires |a| == |b| && TupleLt(a, b)
    ensures TupleLe(a, b)
  {
    if a != [] && a[0] == b[0] { TupleLtIsLe(a[1..], b[1..]); }
  }

  /** The lexicographic order on key tuples is transitive, so a scan is an interval of it. */
  lemma {:induction false} TupleLeTransitive(a: seq<Value>, b: seq<Value>, c: seq<Value>)
    requires |a| == |b| == |c|
    requires TupleLe(a, b) && TupleLe(b, c)
    ensures TupleLe(a, c)
  {
    if a != [] {
      if a[0] == b[0] && b[0] == c[0] {
        TupleLeTransitive(a[1..], b[1..], c[1..]);
      } else if a[0] != b[0] && b[0] != c[0] {
        LessTransitive(a[0], b[0], c[0]);
        LessAsymmetric(a[0], c[0]);
      }
    }
  }

  /** Whether the key tuple of a document lies inside the scan. */
  predicate InScan(b: KeyBounds, key: seq<Value>)
    requires |b.startKeys| == |key| == |b.endKeys|
  {
    && (if b.inclusiveStart then TupleLe(b.startKeys, key) else TupleLt(b.startKeys, key))
    && (if b.inclusiveEnd then TupleLe(key, b.endKeys) else TupleLt(key, b.endKeys))
  }

  /** A document's key tuple over `fields` passes every selector constraint on those fields. */
  predicate SatisfiesOnIndex(fields: seq<Field>, sel: Selector, key: seq<Value>)
    requires |key| == |fields|
  {
    forall i :: 0 <= i < |fields| && fields[i] in sel ==> Admits(sel[fields[i]], key[i])
  }

  /** A tuple of document values lies strictly between the all-MinKey and the all-MaxKey tuples. */
  lemma {:induction false} SentinelTuplesAreExtreme(key: seq<Value>)
    requires |key| > 0
    requires forall i :: 0 <= i < |key| ==> IsDocumentValue(key[i])
    ensures TupleLt(Fill(|key|, MinKey), key) && TupleLt(key, Fill(|key|, MaxKey))
  {
    SentinelsAreExtreme(key[0]);
  }

  /**
   * The scan never misses a matching document: every key tuple of document
   * values that passes the selector's constraints on the index fields lies
   * inside the bounds built for that index.
   */
  lemma {:induction false} ScanCoversMatchingKeys(fields: seq<Field>, sel: Selector, key: seq<Value>)
    requires |key| == |fields|
    requires forall i :: 0 <= i < |key| ==> IsDocumentValue(key[i])
    requires SatisfiesOnIndex(fields, sel, key)
    ensures InScan(BuildBounds(fields, sel), key)
  {
    var b := BuildBounds(fields, sel);
    if fields != [] {
      var rest := |fields| - 1;
      if fields[0] !in sel || sel[fields[0]].Other? {
        SentinelTuplesAreExtreme(key);
        TupleLtIsLe(b.startKeys, key);
        TupleLtIsLe(key, b.endKeys);
      } else if sel[fields[0]].Eq? {
        assert SatisfiesOnIndex(fields[1..], sel, key[1..]) by {
          forall i | 0 <= i < |fields[1..]| && fields[1..][i] in sel
            ensures Admits(sel[fields[1..][i]], key[1..][i])
          {
            assert fields[1..][i] == fields[i + 1] && key[1..][i] == key[i + 1];
          }
        }
        ScanCoversMatchingKeys(fields[1..], sel, key[1..]);
        assert key[0] == b.startKeys[0] == b.endKeys[0];
        assert b.startKeys[1..] == BuildBounds(fields[1..], sel).startKeys;
        assert b.endKeys[1..] == BuildBounds(fields[1..], sel).endKeys;
      } else {
        var c := sel[fields[0]];
        assert Admits(c, key[0]);
        SentinelsAreExtreme(key[0]);
        LessAsymmetric(b.startKeys[0], key[0]);
        LessAsymmetric(key[0], b.endKeys[0]);
        if rest > 0 {
          SentinelTuplesAreExtreme(key[1..]);
          assert b.startKeys[1..] == Fill(rest, MinKey) && b.endKeys[1..] == Fill(rest, MaxKey);
          TupleLtIsLe(b.startKeys[1..], key[1..]);
          TupleLtIsLe(key[1..], b.endKeys[1..]);
        }
      }
    }
  }

  /**
   * The scan never leaves the equality prefix: every key tuple inside the
   * bounds holds, at each leading equality field, exactly that field's value.
   */
  lemma {:induction false} ScanStaysOnEqualityPrefix(fields: seq<Field>, sel: Selector, key: seq<Value>)
    requires |key| == |fields|
    requires InScan(BuildBounds(fields, sel), key)
    ensures forall i :: 0 <= i < Match(fields, sel).equalityCount ==> key[i] == sel[fields[i]].value
  {
    var b := BuildBounds(fields, sel);
    if fields != [] && KindOf(sel, fields[0]) == Equality {
      var v := sel[fields[0]].value;
      var t := BuildBounds(fields[1..], sel);
      assert b.startKeys == [v] + t.startKeys && b.endKeys == [v] + t.endKeys;
      assert TupleLe(b.startKeys, key) by {
        if !b.inclusiveStart { TupleLtIsLe(b.startKeys, key); }
      }
      assert TupleLe(key, b.endKeys) by {
        if !b.inclusiveEnd { TupleLtIsLe(key, b.endKeys); }
      }
      LessAsymmetric(v, key[0]);
      assert key[0] == v;
      assert b.startKeys[1..] == t.startKeys && b.endKeys[1..] == t.endKeys;
      assert InScan(t, key[1..]);
      ScanStaysOnEqualityPrefix(fields[1..], sel, key[1..]);
      var ks := MatchFields(fields, sel);
      assert ks[1..] == MatchFields(fields[1..], sel);
      var n := Match(fields, sel).equalityCount;
      assert n == 1 + Match(fields[1..], sel).equalityCount;
      forall i | 0 < i < n ensures key[i] == sel[fields[i]].value {
        assert key[i] == key[1..][i - 1] && fields[i] == fields[1..][i - 1];
      }
    }
  }
}
