/**
 * The `BTreeMap` the chunk accumulators are merged into: its entries are
 * kept in ascending byte order of their keys, which is the order in which
 * `print_results` walks them.
 */
module Ordered {
  import opened Wrappers
  import opened Errors
  import opened KeyOrder
  import opened Measurements
  import opened Merging

  /** One key of the ordered map with its measurement. */
  datatype Entry = Entry(key: Key, value: Measurement)

  /** Keys strictly ascending in byte order, hence each key at most once. */
  predicate Ascending(s: seq<Entry>) {
    forall i, j :: 0 <= i < j < |s| ==> Below(s[i].key, s[j].key)
  }

  /** The keys of a listing. */
  function KeySet(s: seq<Entry>): set<Key> {
    set i | 0 <= i < |s| :: s[i].key
  }

  /** `s` lists the map `m` in key order: ascending, the same keys, the same measurements. */
  predicate Lists(s: seq<Entry>, m: Stats) {
    && Ascending(s)
    && KeySet(s) == m.Keys
    && forall i :: 0 <= i < |s| ==> s[i].key in m && m[s[i].key] == s[i].value
  }

  /** Dropping the first entry of a listing lists the map without its least key. */
  lemma ListsTail(s: seq<Entry>, m: Stats)
    requires Lists(s, m) && s != []
    ensures Lists(s[1..], m - {s[0].key})
    ensures forall k :: k in m && k != s[0].key ==> Below(s[0].key, k)
  {
    var k := s[0].key;
    forall i | 1 <= i < |s|
      ensures s[i].key != k
    {
      BelowAsymmetric(k, s[i].key);
    }
    assert KeySet(s[1..]) == KeySet(s) - {k} by {
      forall x | x in KeySet(s) - {k}
        ensures x in KeySet(s[1..])
      {
        var i :| 0 <= i < |s| && s[i].key == x;
        assert s[1..][i - 1].key == x;
      }
    }
  }

  /**
   * A map has exactly one listing: the order of `print_results` depends on
   * the merged contents alone, not on the order in which they were merged.
   */
  lemma {:induction false} ListingUnique(a: seq<Entry>, b: seq<Entry>, m: Stats)
    requires Lists(a, m) && Lists(b, m)
    ensures a == b
    decreases |a|
  {
    if a == [] {
      if b != [] {
        assert false;
      }
    } else {
      assert a[0].key in KeySet(a);
      if b == [] {
        assert false;
      }
      ListsTail(a, m);
      ListsTail(b, m);
      assert b[0].key in KeySet(b);
      if a[0].key != b[0].key {
        BelowAsymmetric(a[0].key, b[0].key);
        assert false;
      }
      ListingUnique(a[1..], b[1..], m - {a[0].key});
      assert a == [a[0]] + a[1..];
      assert b == [b[0]] + b[1..];
    }
  }

  /** A listing holds each key of its map once: as many entries as keys. */
  lemma {:induction false} ListingLength(s: seq<Entry>, m: Stats)
    requires Lists(s, m)
    ensures |s| == |m|
    decreases |s|
  {
    if s == [] {
      assert m.Keys == {};
    } else {
      ListsTail(s, m);
      ListingLength(s[1..], m - {s[0].key});
      assert s[0].key in KeySet(s);
    }
  }

  /** The positions of `s` after inserting `e` at `i`. */
  lemma InsertAt(s: seq<Entry>, i: nat, e: Entry)
    requires i <= |s|
    ensures var t := s[..i] + [e] + s[i..];
      && |t| == |s| + 1 && t[i] == e
      && (forall j :: 0 <= j < i ==> t[j] == s[j])
      && (forall j :: i < j < |t| ==> t[j] == s[j - 1])
  {
  }

  /** Where the search for `key` stopped: all keys before are below it, all from there above it. */
  predicate SplitsAt(s: seq<Entry>, i: nat, key: Key) {
    && i <= |s|
    && (forall j :: 0 <= j < i ==> Below(s[j].key, key))
    && (forall j :: i <= j < |s| ==> Below(key, s[j].key))
  }

  /** In an ascending listing, a key below the entry at `i` is below every later entry. */
  lemma SearchStop(s: seq<Entry>, i: nat, key: Key)
    requires Ascending(s) && i <= |s|
    requires forall j :: 0 <= j < i ==> Below(s[j].key, key)
    requires i < |s| ==> Below(key, s[i].key)
    ensures SplitsAt(s, i, key)
  {
    forall j | i < j < |s|
      ensures Below(key, s[j].key)
    {
      BelowTransitive(key, s[i].key, s[j].key);
    }
  }

  lemma InsertAscending(s: seq<Entry>, i: nat, e: Entry)
    requires Ascending(s) && SplitsAt(s, i, e.key)
    ensures Ascending(s[..i] + [e] + s[i..])
  {
    var t := s[..i] + [e] + s[i..];
    InsertAt(s, i, e);
    forall p, q | 0 <= p < q < |t|
      ensures Below(t[p].key, t[q].key)
    {
      if q < i {
        assert t[p] == s[p] && t[q] == s[q];
      } else if p > i {
        assert t[p] == s[p - 1] && t[q] == s[q - 1];
      } else if p < i && q > i {
        assert t[p] == s[p] && t[q] == s[q - 1];
      }
    }
  }

  lemma InsertKeySet(s: seq<Entry>, i: nat, e: Entry)
    requires i <= |s|
    ensures KeySet(s[..i] + [e] + s[i..]) == KeySet(s) + {e.key}
  {
    var t := s[..i] + [e] + s[i..];
    InsertAt(s, i, e);
    forall x | x in KeySet(t)
      ensures x in KeySet(s) + {e.key}
    {
      var j :| 0 <= j < |t| && t[j].key == x;
      if j < i {
        assert s[j] == t[j];
      } else if j > i {
        assert s[j - 1] == t[j];
      }
    }
    forall x | x in KeySet(s)
      ensures x in KeySet(t)
    {
      var j :| 0 <= j < |s| && s[j].key == x;
      if j < i {
        assert t[j] == s[j];
      } else {
        assert t[j + 1] == s[j];
      }
    }
    assert t[i].key == e.key;
  }

  /** Inserting a new key at the position the search stopped at keeps the listing. */
  lemma InsertKeepsListing(s: seq<Entry>, m: Stats, i: nat, key: Key, v: Measurement)
    requires Lists(s, m) && SplitsAt(s, i, key)
    ensures key !in m
    ensures Lists(s[..i] + [Entry(key, v)] + s[i..], m[key := v])
  {
    var e := Entry(key, v);
    var t := s[..i] + [e] + s[i..];
    assert key !in m by {
      if key in m {
        assert key in KeySet(s);
        var j :| 0 <= j < |s| && s[j].key == key;
        BelowIrreflexive(key);
        assert false;
      }
    }
    InsertAscending(s, i, e);
    InsertKeySet(s, i, e);
    InsertAt(s, i, e);
    forall j | 0 <= j < |t|
      ensures t[j].key in m[key := v] && m[key := v][t[j].key] == t[j].value
    {
      if j < i {
        assert t[j] == s[j];
      } else if j > i {
        assert t[j] == s[j - 1];
      }
    }
  }

  /** Replacing the measurement of a listed key keeps the listing. */
  lemma ReplaceKeepsListing(s: seq<Entry>, m: Stats, i: nat, v: Measurement)
    requires Lists(s, m) && i < |s|
    ensures Lists(s[i := Entry(s[i].key, v)], m[s[i].key := v])
  {
    var t := s[i := Entry(s[i].key, v)];
    assert forall j :: 0 <= j < |s| ==> t[j].key == s[j].key;
    assert KeySet(t) == KeySet(s);
    forall j | 0 <= j < |t| && j != i
      ensures t[j].key != s[i].key
    {
      if j < i {
        BelowAsymmetric(s[j].key, s[i].key);
      } else {
        BelowAsymmetric(s[i].key, s[j].key);
      }
    }
  }

  /** The ordered accumulator of the merge step. */
  class OrderedAccumulator {
    /** The entries in the order `iter()` yields them. */
    var entries: seq<Entry>
    /** The map the entries stand for. */
    ghost var Contents: Stats

    ghost predicate Valid()
      reads this
    {
      Lists(entries, Contents)
    }

    /** `BTreeMap::new()` */
    constructor ()
      ensures Valid() && Contents == map[] && entries == []
    {
      entries := [];
      Contents := map[];
    }

    /**
     * `entry(key).and_modify(..).or_insert(m)`: a present key gets `m`
     * combined into its measurement, an absent key is inserted with `m`.
     * The `u32` addition of the counts overflows when their total passes
     * `u32::MAX`; the map is then left as it was.
     */
    method Upsert(key: Key, m: Measurement) returns (outcome: Outcome<Error>)
      requires Valid()
      modifies this
      ensures Valid()
      ensures outcome.Fail? <==> key in old(Contents) && old(Contents)[key].count + m.count > U32_MAX
      ensures outcome.Fail? ==> outcome.error == CountOverflow && Contents == old(Contents)
      ensures outcome.Pass? ==> Contents == MergeMaps(old(Contents), map[key := m])
    {
      MergeOne(Contents, key, m);
      var i := 0;
      while i < |entries| && Below(entries[i].key, key)
        invariant 0 <= i <= |entries|
        invariant forall j :: 0 <= j < i ==> Below(entries[j].key, key)
      {
        i := i + 1;
      }
      if i < |entries| && entries[i].key == key {
        var e := entries[i].value;
        if e.count + m.count > U32_MAX {
          return Fail(CountOverflow);
        }
        ReplaceKeepsListing(entries, Contents, i, Combine(e, m));
        entries := entries[i := Entry(key, Combine(e, m))];
        Contents := Contents[key := Combine(e, m)];
      } else {
        if i < |entries| {
          BelowTotal(key, entries[i].key);
        }
        SearchStop(entries, i, key);
        InsertKeepsListing(entries, Contents, i, key, m);
        entries := entries[..i] + [Entry(key, m)] + entries[i..];
        Contents := Contents[key := m];
      }
      return Pass;
    }
  }
}
