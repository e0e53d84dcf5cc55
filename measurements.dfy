/**
 * The per-key running statistic `Measurement { min, max, sum, count }`.
 * Readings are whole numbers (for instance tenths of a degree) instead of
 * `f32`; `count` is bounded by the `u32` range explicitly.
 */
module Measurements {

  /** `u32::MAX`, the largest value of the `count` field */
  const U32_MAX: nat := 0xFFFF_FFFF

  datatype Measurement = Measurement(min: int, max: int, sum: int, count: nat)

  function Min(a: int, b: int): int { if a <= b then a else b }

  function Max(a: int, b: int): int { if a <= b then b else a }

  /**
   * The invariant of a measurement: it has seen at least one reading, the
   * minimum is at most the maximum, and the mean `sum / count` lies between
   * them (stated without division).
   */
  predicate Valid(m: Measurement) {
    && 1 <= m.count
    && m.min <= m.max
    && m.count * m.min <= m.sum <= m.count * m.max
  }

  /** The measurement inserted for the first reading `v` of a key. */
  function Single(v: int): (r: Measurement)
    ensures Valid(r) && r.count == 1 && r.min == r.max == r.sum == v
  {
    Measurement(v, v, v, 1)
  }

  /** Two sums that lie between `count * lo` and `count * hi` add up to one that does. */
  lemma SumBetween(c1: nat, s1: int, c2: nat, s2: int, lo: int, hi: int)
    requires c1 * lo <= s1 <= c1 * hi && c2 * lo <= s2 <= c2 * hi
    ensures (c1 + c2) * lo <= s1 + s2 <= (c1 + c2) * hi
  {
    assert (c1 + c2) * lo == c1 * lo + c2 * lo;
    assert (c1 + c2) * hi == c1 * hi + c2 * hi;
  }

  /**
   * The combine rule of the merge: the smaller minimum, the larger maximum,
   * and the totals of the sums and of the counts.
   */
  function Combine(e: Measurement, m: Measurement): (r: Measurement)
    ensures r.min <= e.min && r.min <= m.min && (r.min == e.min || r.min == m.min)
    ensures r.max >= e.max && r.max >= m.max && (r.max == e.max || r.max == m.max)
    ensures Valid(e) && Valid(m) ==> Valid(r)
  {
    var r := Measurement(Min(e.min, m.min), Max(e.max, m.max), e.sum + m.sum, e.count + m.count);
    if Valid(e) && Valid(m) then
      SumBetween(e.count, e.sum, m.count, m.sum, r.min, r.max);
      r
    else
      r
  }

  /**
   * `update_measurement`: fold one more reading `v` into `m`. The `u32`
   * increment of `count` needs room for one more.
   */
  function UpdateMeasurement(m: Measurement, v: int): (r: Measurement)
    requires m.count < U32_MAX
    ensures r.count == m.count + 1 && r.count <= U32_MAX
    ensures r.sum == m.sum + v
    ensures r.min <= v <= r.max
    ensures r.min <= m.min && (r.min == m.min || r.min == v)
    ensures r.max >= m.max && (r.max == m.max || r.max == v)
    ensures Valid(m) ==> Valid(r)
    ensures r == Combine(m, Single(v))
  {
    var r := Measurement(Min(m.min, v), Max(m.max, v), m.sum + v, m.count + 1);
    assert r == Combine(m, Single(v));
    r
  }

  /** Which side is the accumulator does not matter to the combine rule. */
  lemma CombineCommutes(a: Measurement, b: Measurement)
    ensures Combine(a, b) == Combine(b, a)
  {
  }

  /** Nor does the grouping: combining in several steps gives the same measurement. */
  lemma CombineAssociates(a: Measurement, b: Measurement, c: Measurement)
    ensures Combine(Combine(a, b), c) == Combine(a, Combine(b, c))
  {
  }
}
