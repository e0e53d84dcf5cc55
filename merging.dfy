/**
 * The merge of the per-chunk accumulators into one, as values: the rule of
 * `entry(key).and_modify(..).or_insert(..)` for one chunk map, the fold over
 * all of them, and what the fold computes per key. The ordered container the
 * program folds into is in module Ordered.
 */
module Merging {
  import opened KeyOrder
  import opened Measurements

  /** A per-key accumulator: key to running statistic. */
  type Stats = map<Key, Measurement>

  /** Every measurement of `m` satisfies the measurement invariant. */
  predicate AllValid(m: Stats) {
    forall k :: k in m ==> Valid(m[k])
  }

  /** Every count of `m` fits the `u32` field. */
  predicate CountsFit(m: Stats) {
    forall k :: k in m ==> m[k].count <= U32_MAX
  }

  /**
   * Fold the chunk map `m` into `acc`: a key of both gets the combined
   * measurement, a key of one of them keeps its own.
   */
  function MergeMaps(acc: Stats, m: Stats): (r: Stats)
    ensures r.Keys == acc.Keys + m.Keys
    ensures AllValid(acc) && AllValid(m) ==> AllValid(r)
  {
    map k | k in acc.Keys + m.Keys ::
      if k in acc && k in m then Combine(acc[k], m[k])
      else if k in acc then acc[k]
      else m[k]
  }

  /**
   * Merging a one-entry map touches one key: it is combined with the
   * accumulator's measurement when present, inserted otherwise.
   */
  lemma MergeOne(acc: Stats, key: Key, m: Measurement)
    ensures MergeMaps(acc, map[key := m])
      == if key in acc then acc[key := Combine(acc[key], m)] else acc[key := m]
  {
  }

  /** Merging never lowers a count: a count past `u32::MAX` on either side stays past it. */
  lemma MergeMapsKeepsOverflow(a: Stats, b: Stats)
    requires !CountsFit(a) || !CountsFit(b)
    ensures !CountsFit(MergeMaps(a, b))
  {
    var r := MergeMaps(a, b);
    if !CountsFit(a) {
      var k :| k in a && a[k].count > U32_MAX;
      assert r[k].count >= a[k].count;
    } else {
      var k :| k in b && b[k].count > U32_MAX;
      assert r[k].count >= b[k].count;
    }
  }

  /** Fold the maps `ms` into `init`, first to last. */
  function MergedFrom(init: Stats, ms: seq<Stats>): Stats
    decreases |ms|
  {
    if ms == [] then init else MergedFrom(MergeMaps(init, ms[0]), ms[1..])
  }

  /** The fold of `ms` into an empty accumulator. */
  function Merged(ms: seq<Stats>): Stats {
    MergedFrom(map[], ms)
  }

  lemma MergeMapsCommutes(a: Stats, b: Stats)
    ensures MergeMaps(a, b) == MergeMaps(b, a)
  {
    forall k | k in a && k in b
      ensures MergeMaps(a, b)[k] == MergeMaps(b, a)[k]
    {
      CombineCommutes(a[k], b[k]);
    }
  }

  lemma MergeMapsAssociates(a: Stats, b: Stats, c: Stats)
    ensures MergeMaps(MergeMaps(a, b), c) == MergeMaps(a, MergeMaps(b, c))
  {
    var left, right := MergeMaps(MergeMaps(a, b), c), MergeMaps(a, MergeMaps(b, c));
    forall k | k in left
      ensures left[k] == right[k]
    {
      if k in a && k in b && k in c {
        CombineAssociates(a[k], b[k], c[k]);
      }
    }
  }

  lemma MergeMapsEmpty(a: Stats)
    ensures MergeMaps(map[], a) == a && MergeMaps(a, map[]) == a
  {
  }

  /** Folding `ms` into `init` is merging `init` with the fold of `ms`. */
  lemma {:induction false} MergedFromIsMerge(init: Stats, ms: seq<Stats>)
    ensures MergedFrom(init, ms) == MergeMaps(init, Merged(ms))
    decreases |ms|
  {
    if ms == [] {
      MergeMapsEmpty(init);
    } else {
      var x, rest := ms[0], ms[1..];
      MergedFromIsMerge(MergeMaps(init, x), rest);
      MergeMapsEmpty(x);
      MergedFromIsMerge(x, rest);
      MergeMapsAssociates(init, x, Merged(rest));
    }
  }

  /** Folding more maps into a map whose counts overflow keeps them overflowing. */
  lemma {:induction false} MergedFromKeepsOverflow(init: Stats, ms: seq<Stats>)
    requires !CountsFit(init)
    ensures !CountsFit(MergedFrom(init, ms))
    decreases |ms|
  {
    if ms != [] {
      MergeMapsKeepsOverflow(init, ms[0]);
      MergedFromKeepsOverflow(MergeMaps(init, ms[0]), ms[1..]);
    }
  }

  lemma MergedCons(x: Stats, rest: seq<Stats>)
    ensures Merged([x] + rest) == MergeMaps(x, Merged(rest))
  {
    assert ([x] + rest)[1..] == rest;
    MergeMapsEmpty(x);
    MergedFromIsMerge(x, rest);
  }

  /** The fold of two runs of maps, one after the other, is the merge of their folds. */
  lemma {:induction false} MergedAppend(a: seq<Stats>, b: seq<Stats>)
    ensures Merged(a + b) == MergeMaps(Merged(a), Merged(b))
    decreases |a|
  {
    if a == [] {
      assert a + b == b;
      MergeMapsEmpty(Merged(b));
    } else {
      assert a + b == [a[0]] + (a[1..] + b);
      assert a == [a[0]] + a[1..];
      MergedCons(a[0], a[1..] + b);
      MergedAppend(a[1..], b);
      MergedCons(a[0], a[1..]);
      MergeMapsAssociates(a[0], Merged(a[1..]), Merged(b));
    }
  }

  lemma RemoveFromBoth<T>(x: T, rest: seq<T>, before: seq<T>, after: seq<T>)
    requires multiset([x] + rest) == multiset(before + ([x] + after))
    ensures multiset(rest) == multiset(before + after)
  {
    assert multiset([x] + rest) == multiset([x]) + multiset(rest);
    assert multiset(before + ([x] + after)) == multiset(before) + multiset([x]) + multiset(after);
    assert multiset(before + after) == multiset(before) + multiset(after);
    forall y
      ensures multiset(rest)[y] == multiset(before + after)[y]
    {
      assert multiset([x] + rest)[y] == multiset(before + ([x] + after))[y];
    }
  }

  /**
   * The merged result does not depend on the order in which the chunk maps
   * are folded: any rearrangement of them gives the same result.
   */
  lemma {:induction false} MergedPermutation(ms: seq<Stats>, ns: seq<Stats>)
    requires multiset(ms) == multiset(ns)
    ensures Merged(ms) == Merged(ns)
    decreases |ms|
  {
    if ms == [] {
      assert |ns| == |multiset(ns)| == 0;
    } else {
      var x, rest := ms[0], ms[1..];
      assert ms == [x] + rest;
      assert x in multiset(ns);
      var j :| 0 <= j < |ns| && ns[j] == x;
      var before, after := ns[..j], ns[j + 1..];
      assert ns == before + ([x] + after);
      RemoveFromBoth(x, rest, before, after);
      MergedPermutation(rest, before + after);
      MergedCons(x, rest);
      MergedAppend(before, [x] + after);
      MergedCons(x, after);
      MergedAppend(before, after);
      // Merged(ns) == MM(Mb, MM(x, Ma)) == MM(x, MM(Mb, Ma)) == Merged(ms)
      var mb, ma := Merged(before), Merged(after);
      MergeMapsAssociates(mb, x, ma);
      MergeMapsCommutes(mb, x);
      MergeMapsAssociates(x, mb, ma);
    }
  }

  /** The merged keys are the union of the keys of the chunk maps. */
  lemma {:induction false} MergedKeys(ms: seq<Stats>, k: Key)
    ensures k in Merged(ms) <==> exists i :: 0 <= i < |ms| && k in ms[i]
    decreases |ms|
  {
    if ms != [] {
      assert ms == [ms[0]] + ms[1..];
      MergedCons(ms[0], ms[1..]);
      MergedKeys(ms[1..], k);
      if exists i :: 0 <= i < |ms| && k in ms[i] {
        var i :| 0 <= i < |ms| && k in ms[i];
        if i > 0 {
          assert k in ms[1..][i - 1];
        }
      }
    }
  }

  /** The total count of `k` over the maps that hold it. */
  function TotalCount(ms: seq<Stats>, k: Key): nat
    decreases |ms|
  {
    if ms == [] then 0
    else (if k in ms[0] then ms[0][k].count else 0) + TotalCount(ms[1..], k)
  }

  /** The total sum of `k` over the maps that hold it. */
  function TotalSum(ms: seq<Stats>, k: Key): int
    decreases |ms|
  {
    if ms == [] then 0
    else (if k in ms[0] then ms[0][k].sum else 0) + TotalSum(ms[1..], k)
  }

  /** Per key, the merged count and sum are the totals over all chunk maps. */
  lemma {:induction false} MergedTotals(ms: seq<Stats>, k: Key)
    requires k in Merged(ms)
    ensures Merged(ms)[k].count == TotalCount(ms, k)
    ensures Merged(ms)[k].sum == TotalSum(ms, k)
    decreases |ms|
  {
    assert ms == [ms[0]] + ms[1..];
    MergedCons(ms[0], ms[1..]);
    if k in Merged(ms[1..]) {
      MergedTotals(ms[1..], k);
    } else {
      ZeroTotalsWhenAbsent(ms[1..], k);
    }
  }

  lemma {:induction false} ZeroTotalsWhenAbsent(ms: seq<Stats>, k: Key)
    requires k !in Merged(ms)
    ensures TotalCount(ms, k) == 0 && TotalSum(ms, k) == 0
    decreases |ms|
  {
    if ms != [] {
      assert ms == [ms[0]] + ms[1..];
      MergedCons(ms[0], ms[1..]);
      ZeroTotalsWhenAbsent(ms[1..], k);
    }
  }

  /**
   * Per key, the merged minimum is the least of the chunk minimums and the
   * merged maximum the greatest of the chunk maximums: a bound on each, and
   * equal to one of them.
   */
  lemma {:induction false} MergedMinMax(ms: seq<Stats>, k: Key)
    requires k in Merged(ms)
    ensures forall i :: 0 <= i < |ms| && k in ms[i] ==>
      Merged(ms)[k].min <= ms[i][k].min && ms[i][k].max <= Merged(ms)[k].max
    ensures exists i :: 0 <= i < |ms| && k in ms[i] && Merged(ms)[k].min == ms[i][k].min
    ensures exists i :: 0 <= i < |ms| && k in ms[i] && Merged(ms)[k].max == ms[i][k].max
    decreases |ms|
  {
    var x, rest := ms[0], ms[1..];
    assert ms == [x] + rest;
    MergedCons(x, rest);
    var m := Merged(ms)[k];
    if k in Merged(rest) {
      MergedMinMax(rest, k);
      var r := Merged(rest)[k];
      forall i | 0 <= i < |ms| && k in ms[i]
        ensures m.min <= ms[i][k].min && ms[i][k].max <= m.max
      {
        if i > 0 {
          assert ms[i] == rest[i - 1];
        }
      }
      if m.min == r.min {
        var i :| 0 <= i < |rest| && k in rest[i] && r.min == rest[i][k].min;
        assert ms[i + 1] == rest[i];
      } else {
        assert m.min == x[k].min;
      }
      if m.max == r.max {
        var i :| 0 <= i < |rest| && k in rest[i] && r.max == rest[i][k].max;
        assert ms[i + 1] == rest[i];
      } else {
        assert m.max == x[k].max;
      }
    } else {
      forall i | 0 <= i < |ms| && k in ms[i]
        ensures m.min <= ms[i][k].min && ms[i][k].max <= m.max
      {
        if i > 0 {
          assert ms[i] == rest[i - 1];
          MergedKeys(rest, k);
          assert false;
        }
      }
      assert m == x[k];
    }
  }

  /** Folding valid chunk maps yields valid measurements. */
  lemma {:induction false} MergedValid(ms: seq<Stats>)
    requires forall i :: 0 <= i < |ms| ==> AllValid(ms[i])
    ensures AllValid(Merged(ms))
    decreases |ms|
  {
    if ms != [] {
      assert ms == [ms[0]] + ms[1..];
      MergedCons(ms[0], ms[1..]);
      MergedValid(ms[1..]);
    }
  }
}
