/** Forward range reads of the ordered key-value store, with a row limit. */
module Scans {
  import opened Common

  ghost predicate TotalOrder<T(!new)>(less: (T, T) -> bool) {
    && (forall a, b :: less(a, b) ==> !less(b, a))
    && (forall a, b :: a != b ==> less(a, b) || less(b, a))
    && (forall a, b, c :: less(a, b) && less(b, c) ==> less(a, c))
  }

  predicate Increasing<T>(batch: seq<T>, less: (T, T) -> bool) {
    forall i, j | 0 <= i < j < |batch| :: less(batch[i], batch[j])
  }

  /** `batch` holds the first `limit` keys of `keys`, in order. */
  ghost predicate FirstOf<T(!new)>(keys: set<T>, limit: nat, batch: seq<T>, less: (T, T) -> bool) {
    && Increasing(batch, less)
    && |batch| == Min(limit, |keys|)
    && (forall k | k in batch :: k in keys)
    && (forall k, b | k in keys && k !in batch && b in batch :: less(b, k))
  }

  method Least<T(!new, ==)>(keys: set<T>, less: (T, T) -> bool) returns (least: T)
    requires keys != {} && TotalOrder(less)
    ensures least in keys && forall k | k in keys && k != least :: less(least, k)
  {
    least :| least in keys;
    var left := keys - {least};
    while left != {}
      invariant least in keys && left <= keys
      invariant forall k | k in keys && k !in left && k != least :: less(least, k)
      decreases |left|
    {
      var k :| k in left;
      left := left - {k};
      if less(k, least) { least := k; }
    }
  }

  method Scan<T(!new, ==)>(keys: set<T>, limit: nat, less: (T, T) -> bool) returns (batch: seq<T>)
    requires TotalOrder(less)
    ensures FirstOf(keys, limit, batch, less)
  {
    batch := [];
    var left := keys;
    while |batch| < limit && left != {}
      invariant Increasing(batch, less) && |batch| <= limit && |batch| + |left| == |keys|
      invariant left <= keys && (forall k | k in batch :: k in keys)
      invariant forall k | k in keys :: k in batch <==> k !in left
      invariant forall k, b | k in left && b in batch :: less(b, k)
      decreases |left|
    {
      var k := Least(left, less);
      left := left - {k};
      batch := batch + [k];
    }
  }

  /** A scan that was not cut off returns every key. */
  lemma WholeScan<T(!new)>(keys: set<T>, limit: nat, batch: seq<T>, less: (T, T) -> bool)
    requires TotalOrder(less) && FirstOf(keys, limit, batch, less)
    ensures (forall k | k in keys :: k in batch) <==> |keys| <= limit
  {
    Distinct(batch, less);
    var found := set k | k in batch;
    if forall k | k in keys :: k in batch {
      assert found == keys;
    } else if |keys| <= limit {
      SmallerSubset(found, keys);
    }
  }

  lemma SmallerSubset<T>(a: set<T>, b: set<T>)
    requires a <= b && a != b
    ensures |a| < |b|
  {
    assert b == a + (b - a);
    assert b - a != {};
  }

  lemma {:induction false} Distinct<T(!new)>(batch: seq<T>, less: (T, T) -> bool)
    requires TotalOrder(less) && Increasing(batch, less)
    ensures |set k | k in batch| == |batch|
  {
    if batch != [] {
      var n := |batch| - 1;
      var rest := batch[..n];
      Distinct(rest, less);
      assert batch[n] !in rest;
      assert (set k | k in batch) == (set k | k in rest) + {batch[n]} by {
        assert batch == rest + [batch[n]];
      }
    }
  }
}
