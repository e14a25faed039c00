/**
 * Index key values, their order, and the selector operators the planner
 * distinguishes.
 */
module Values {
  import opened Wrappers

  /** A document field name. */
  type Field = string

  /**
   * A key value stored in an index. `Num` and `Str` are the values documents
   * hold; `MinKey` and `MaxKey` are the sentinels the planner puts where a key
   * position is unbounded below or above.
   */
  datatype Value = MinKey | Num(n: int) | Str(s: string) | MaxKey

  /** True of the values a document field can actually hold (not a sentinel). */
  predicate IsDocumentValue(v: Value) {
    v.Num? || v.Str?
  }

  /** Position of a value's kind in the key order: MinKey < numbers < strings < MaxKey. */
  function KindRank(v: Value): nat {
    match v
    case MinKey => 0
    case Num(_) => 1
    case Str(_) => 2
    case MaxKey => 3
  }

  /** Lexicographic strict order on strings, comparing characters by code. */
  predicate StrLess(a: string, b: string)
    decreases |a|
  {
    if |a| == 0 then |b| > 0
    else if |b| == 0 then false
    else if a[0] == b[0] then StrLess(a[1..], b[1..])
    else a[0] < b[0]
  }

  /** The strict order of index keys. */
  predicate Less(a: Value, b: Value) {
    if KindRank(a) != KindRank(b) then KindRank(a) < KindRank(b)
    else match a
      case Num(x) => x < b.n
      case Str(x) => StrLess(x, b.s)
      case _ => false
  }

  lemma {:induction false} StrLessAsymmetric(a: string, b: string)
    ensures !(StrLess(a, b) && StrLess(b, a))
    decreases |a|
  {
    if |a| > 0 && |b| > 0 && a[0] == b[0] {
      StrLessAsymmetric(a[1..], b[1..]);
    }
  }

  lemma {:induction false} StrLessTotal(a: string, b: string)
    ensures a == b || StrLess(a, b) || StrLess(b, a)
    decreases |a|
  {
    if |a| > 0 && |b| > 0 && a[0] == b[0] {
      StrLessTotal(a[1..], b[1..]);
      if a[1..] == b[1..] {
        assert a == [a[0]] + a[1..] && b == [b[0]] + b[1..];
      }
    }
  }

  lemma {:induction false} StrLessTransitive(a: string, b: string, c: string)
    requires StrLess(a, b) && StrLess(b, c)
    ensures StrLess(a, c)
    decreases |a|
  {
    if |a| > 0 && |b| > 0 && |c| > 0 && a[0] == b[0] && b[0] == c[0] {
      StrLessTransitive(a[1..], b[1..], c[1..]);
    }
  }

  /** The key order is a strict total order: it is transitive, ... */
  lemma LessTransitive(a: Value, b: Value, c: Value)
    requires Less(a, b) && Less(b, c)
    ensures Less(a, c)
  {
    if a.Str? && b.Str? && c.Str? {
      StrLessTransitive(a.s, b.s, c.s);
    }
  }

  /** ... no value is on both sides of another, ... */
  lemma LessAsymmetric(a: Value, b: Value)
    ensures !(Less(a, b) && Less(b, a))
  {
    if a.Str? && b.Str? {
      StrLessAsymmetric(a.s, b.s);
    }
  }

  /** ... and any two distinct values are ordered one way or the other. */
  lemma LessTotal(a: Value, b: Value)
    ensures a == b || Less(a, b) || Less(b, a)
  {
    if a.Str? && b.Str? {
      StrLessTotal(a.s, b.s);
    }
  }

  /** The sentinels are the absolute extremes for every value a document can hold. */
  lemma SentinelsAreExtreme(v: Value)
    requires IsDocumentValue(v)
    ensures Less(MinKey, v) && Less(v, MaxKey)
  {
  }

  /**
   * The constraint a normalized selector places on one field: an equality
   * (`$eq`), an ordered range made of optional lower and upper bounds with
   * their inclusivity (`$gt`/`$gte` and `$lt`/`$lte`), or any operator the
   * planner cannot narrow a scan with (`$ne`, `$in`, regex, ...). A range
   * built from those operators carries at least one bound; one without
   * bounds narrows nothing and the matcher treats it like `Other`.
   */
  datatype Constraint =
    | Eq(value: Value)
    | Range(lower: Option<Value>, lowerInclusive: bool, upper: Option<Value>, upperInclusive: bool)
    | Other

  /** A normalized selector: at most one constraint per field. */
  type Selector = map<Field, Constraint>

  /** Whether `v` lies above the lower bound of a range. */
  predicate AboveLower(lower: Option<Value>, inclusive: bool, v: Value) {
    lower.None? || Less(lower.value, v) || (inclusive && v == lower.value)
  }

  /** Whether `v` lies below the upper bound of a range. */
  predicate BelowUpper(upper: Option<Value>, inclusive: bool, v: Value) {
    upper.None? || Less(v, upper.value) || (inclusive && v == upper.value)
  }

  /**
   * Whether a field value passes a constraint. Operators the planner does not
   * narrow with are applied by the executor after the scan; for the planner
   * they admit every value.
   */
  predicate Admits(c: Constraint, v: Value) {
    match c
    case Eq(x) => v == x
    case Range(lo, li, hi, hui) => AboveLower(lo, li, v) && BelowUpper(hi, hui, v)
    case Other => true
  }
}
