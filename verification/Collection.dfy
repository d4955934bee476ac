/** Content collection of one namespace while nothing else writes to it: the batch loops, and exactly
    what they delete. (mvstore/src/gc.rs) */
module Collection {
  import opened Common
  import opened Delta
  import opened Scans
  import opened Store
  import opened ContentSafety

  // ---- Scanning a whole range in batches ----

  function Beyond<K>(keys: set<K>, cursor: Option<K>, less: (K, K) -> bool): set<K> {
    set k | k in keys && (cursor.Some? ==> less(cursor.value, k))
  }

  lemma BatchAdvances<K(!new)>(keys: set<K>, cursor: Option<K>, less: (K, K) -> bool, limit: nat, batch: seq<K>)
    requires TotalOrder(less) && FirstOf(Beyond(keys, cursor, less), limit, batch, less) && batch != []
    ensures var next := Beyond(keys, Some(batch[|batch| - 1]), less);
      next == Beyond(keys, cursor, less) - (set k | k in batch) && |next| < |Beyond(keys, cursor, less)|
  {
    var last := batch[|batch| - 1];
    var now, next := Beyond(keys, cursor, less), Beyond(keys, Some(last), less);
    assert last in batch && last in now;
    forall k | k in batch ensures k !in next {
      var i :| 0 <= i < |batch| && batch[i] == k;
      assert i < |batch| - 1 ==> less(k, last);
    }
    forall k | k in next ensures k in now && k !in batch {
      if cursor.Some? { assert less(cursor.value, last) && less(last, k); }
    }
    SmallerSubset(next, now);
  }

  function ValuesOf<K, V>(m: map<K, V>, keys: set<K>): set<V> {
    set k | k in m && k in keys :: m[k]
  }

  /** The next batch after the cursor. */
  method NextBatch<K(!new, ==)>(keys: set<K>, cursor: Option<K>, limit: nat, less: (K, K) -> bool)
    returns (batch: seq<K>, got: set<K>)
    requires TotalOrder(less) && limit > 0
    ensures got == (set k | k in batch) && got <= Beyond(keys, cursor, less)
    ensures batch == [] <==> Beyond(keys, cursor, less) == {}
    ensures batch != [] ==>
      got != {} && Beyond(keys, Some(batch[|batch| - 1]), less) == Beyond(keys, cursor, less) - got
  {
    batch := Scan(Beyond(keys, cursor, less), limit, less);
    got := set k | k in batch;
    if batch != [] {
      BatchAdvances(keys, cursor, less, limit, batch);
      assert batch[0] in got;
    }
  }

  lemma ValuesOfMore<K, V>(m: map<K, V>, a: set<K>, b: set<K>)
    ensures ValuesOf(m, a + b) == ValuesOf(m, a) + ValuesOf(m, b)
  {
  }

  /** Every value of a range, read batch by batch. */
  method ScanRange<K(!new, ==), V(==)>(m: map<K, V>, limit: nat, less: (K, K) -> bool)
    returns (seen: set<V>, count: nat)
    requires TotalOrder(less) && limit > 0
    ensures seen == m.Values && (count == 0 <==> m == map[])
  {
    var cursor: Option<K> := None;
    seen, count := {}, 0;
    ghost var left := m.Keys;
    assert Beyond(m.Keys, cursor, less) == left;
    while true
      invariant left == Beyond(m.Keys, cursor, less) && left <= m.Keys
      invariant seen == ValuesOf(m, m.Keys - left) && (count == 0 <==> left == m.Keys)
      decreases |left|
    {
      var batch, got := NextBatch(m.Keys, cursor, limit, less);
      if batch == [] { break; }
      ValuesOfMore(m, m.Keys - left, got);
      assert m.Keys - left + got == m.Keys - (left - got);
      seen := seen + ValuesOf(m, got);
      count := count + |batch|;
      cursor := Some(batch[|batch| - 1]);
      SmallerSubset(left - got, left);
      left := left - got;
    }
    assert m.Keys - left == m.Keys;
  }

  // ---- Sweeping ----

  /** What is known before the sweep: the read version taken first, the hashes the filter reports as
      referenced, and those too recently touched. */
  datatype Sweep = Sweep(rv: Version, refs: set<Hash>, young: set<Hash>)

  predicate Unwanted(db: Db, w: Sweep, h: Hash) {
    h in db.index && h !in w.refs && h !in w.young && db.index[h] <= w.rv
  }

  function DoomedOf(db: Db, w: Sweep, keys: set<Hash>): set<Hash> {
    set h | h in keys && Unwanted(db, w, h)
  }

  lemma DoomedMore(db: Db, w: Sweep, a: set<Hash>, b: set<Hash>)
    requires a !! b
    ensures DoomedOf(db, w, a + b) == DoomedOf(db, w, a) + DoomedOf(db, w, b)
    ensures |DoomedOf(db, w, a + b)| == |DoomedOf(db, w, a)| + |DoomedOf(db, w, b)|
  {
    assert DoomedOf(db, w, a) !! DoomedOf(db, w, b);
    assert DoomedOf(db, w, a + b) == DoomedOf(db, w, a) + DoomedOf(db, w, b);
  }

  /** `db` without the content, content index and referrer entries of `doomed`, and without a commit token
      if there were any. */
  function Swept(db: Db, doomed: set<Hash>): Db {
    db.(content := db.content - doomed, index := db.index - doomed, referrer := db.referrer - doomed,
        token := if doomed == {} then db.token else None)
  }

  lemma SweptMore(db: Db, a: set<Hash>, b: set<Hash>)
    ensures Swept(Swept(db, a), b) == Swept(db, a + b)
  {
  }

  predicate LessHash(a: Hash, b: Hash) {
    a < b
  }

  lemma HashOrder()
    ensures TotalOrder(LessHash)
  {
  }

  /** The deletion queue of one batch. */
  method Queue(db: Db, w: Sweep, batch: seq<Hash>) returns (queue: set<Hash>)
    requires forall h | h in batch :: h in db.index
    ensures queue == DoomedOf(db, w, set h | h in batch)
  {
    queue := {};
    for i := 0 to |batch|
      invariant queue == DoomedOf(db, w, set h | h in batch[..i])
    {
      assert batch[..i + 1] == batch[..i] + [batch[i]];
      var h := batch[i];
      if h !in w.refs && h !in w.young && db.index[h] <= w.rv { queue := queue + {h}; }
    }
    assert batch[..|batch|] == batch;
  }

  /** The next batch of the content index, and its deletion queue. `last` is its last key, if it has any. */
  method NextQueue(
      db: Db, w: Sweep, cursor: Option<Hash>,
      limit: nat) returns (last: Option<Hash>, ghost got: set<Hash>, queue: set<Hash>)
    requires limit > 0
    ensures got <= Beyond(db.index.Keys, cursor, LessHash) && queue == DoomedOf(db, w, got)
    ensures last.None? ==> Beyond(db.index.Keys, cursor, LessHash) == {}
    ensures last.Some? ==>
      got != {} && Beyond(db.index.Keys, last, LessHash) == Beyond(db.index.Keys, cursor, LessHash) - got
  {
    HashOrder();
    var batch, found := NextBatch(db.index.Keys, cursor, limit, LessHash);
    got := found;
    forall h | h in batch ensures h in db.index { assert h in found; }
    queue := Queue(db, w, batch);
    last := if batch == [] then None else Some(batch[|batch| - 1]);
  }

  /** Deletes, batch by batch, exactly the unwanted hashes. */
  method SweepIndex(db: Db, w: Sweep, limit: nat, dryRun: bool) returns (after: Db, count: nat)
    requires limit > 0
    ensures var doomed := DoomedOf(db, w, db.index.Keys);
      after == (if dryRun then db else Swept(db, doomed)) && count == |doomed|
  {
    var cursor: Option<Hash> := None;
    ghost var left := db.index.Keys;
    assert Beyond(db.index.Keys, cursor, LessHash) == left;
    after, count := db, 0;
    NothingSwept(db, w, dryRun);
    while true
      invariant left == Beyond(db.index.Keys, cursor, LessHash) && left <= db.index.Keys
      invariant SweptTo(db, w, left, after, count, dryRun)
      decreases |left|
    {
      var last, queue;
      ghost var got;
      last, got, queue := NextQueue(db, w, cursor, limit);
      if last.None? { break; }
      after, count := Clear(db, after, w, left, got, queue, count, dryRun);
      cursor := last;
      SmallerSubset(left - got, left);
      left := left - got;
    }
    assert db.index.Keys - left == db.index.Keys;
  }

  /** All but the keys `left` have been dealt with. */
  predicate SweptTo(db: Db, w: Sweep, left: set<Hash>, after: Db, count: nat, dryRun: bool) {
    var doomed := DoomedOf(db, w, db.index.Keys - left);
    count == |doomed| && after == if dryRun then db else Swept(db, doomed)
  }

  lemma NothingSwept(db: Db, w: Sweep, dryRun: bool)
    ensures SweptTo(db, w, db.index.Keys, db, 0, dryRun)
  {
    assert DoomedOf(db, w, db.index.Keys - db.index.Keys) == {};
  }

  /** One batch's deletions; nothing is committed for an empty queue. */
  method Clear(
      ghost db: Db, before: Db, ghost w: Sweep, ghost left: set<Hash>, ghost got: set<Hash>, queue: set<Hash>,
      count: nat, dryRun: bool)
    returns (after: Db, total: nat)
    requires got <= left <= db.index.Keys && queue == DoomedOf(db, w, got)
    requires SweptTo(db, w, left, before, count, dryRun)
    ensures SweptTo(db, w, left - got, after, total, dryRun)
  {
    ghost var past := db.index.Keys - left;
    assert past + got == db.index.Keys - (left - got);
    DoomedMore(db, w, past, got);
    SweptMore(db, DoomedOf(db, w, past), queue);
    after, total := before, count + |queue|;
    if queue != {} {
      if !dryRun { after := Swept(before, queue); }
    } else {
      assert DoomedOf(db, w, past) + queue == DoomedOf(db, w, past);
    }
  }

  /** The whole collection. `extra` are the filter's false positives. With nothing referenced at all it
      does nothing. */
  method DeleteUnreferenced(
      db: Db, rv: Version, extra: set<Hash>, young: set<Hash>, limit: nat,
      dryRun: bool) returns (after: Db, count: nat)
    requires limit > 0
    ensures var w := Sweep(rv, db.pages.Values + db.referrer.Values + extra, young);
      var doomed := DoomedOf(db, w, db.index.Keys);
      if db.pages == map[] && db.referrer == map[] then after == db
      else after == (if dryRun then db else Swept(db, doomed)) && count == |doomed|
  {
    HashOrder();
    PageOrder();
    var pageHashes, pageCount := ScanRange(db.pages, limit, Before);
    var bases, baseCount := ScanRange(db.referrer, limit, LessHash);
    if pageCount + baseCount == 0 { return db, 0; }
    after, count := SweepIndex(db, Sweep(rv, pageHashes + bases + extra, young), limit, dryRun);
  }

  lemma PageOrder()
    ensures TotalOrder(Before)
  {
  }

  /** Collecting leaves a safe store safe. */
  lemma SweepKeepsSafe(c: Codec, db: Db, w: Sweep)
    requires Safe(c, db) && db.pages.Values + db.referrer.Values <= w.refs
    ensures Safe(c, Swept(db, DoomedOf(db, w, db.index.Keys)))
  {
    var doomed := DoomedOf(db, w, db.index.Keys);
    var after := Swept(db, doomed);
    forall x | x in after.content ensures DeltaBased(after, x) && Decodes(c, after.content, x) {
      assert DeltaBased(db, x) && Decodes(c, db.content, x);
      if db.content[x].Delta? { assert db.referrer[x] in db.referrer.Values; }
    }
  }

  /** What a collection deletes, hash by hash: those in the content index that neither the page index nor a delta refers
      to, that the filter does not hold by mistake, and that are neither young nor stamped after the read version. They
      lose content, index entry and referrer; nothing else changes but the commit token, which is cleared if
      anything is deleted. */
  lemma SweptExactly(db: Db, rv: Version, extra: set<Hash>, young: set<Hash>)
    ensures var w := Sweep(rv, db.pages.Values + db.referrer.Values + extra, young);
      var after := Swept(db, DoomedOf(db, w, db.index.Keys));
      && (forall h ::
            var gone := && h in db.index && h !in db.pages.Values && h !in db.referrer.Values && h !in extra
                        && h !in young && db.index[h] <= rv;
            && (h in after.index <==> h in db.index && !gone) && (h in after.content <==> h in db.content && !gone)
            && (h in after.referrer <==> h in db.referrer && !gone))
      && (forall h | h in after.index :: after.index[h] == db.index[h])
      && (forall h | h in after.content :: after.content[h] == db.content[h])
      && (forall h | h in after.referrer :: after.referrer[h] == db.referrer[h])
      && after.pages == db.pages && after.changelog == db.changelog && after.lastWrite == db.lastWrite
      && after.lock == db.lock && (after.token == db.token || (after.token.None? && after.index != db.index))
  {
    var doomed := DoomedOf(db, Sweep(rv, db.pages.Values + db.referrer.Values + extra, young), db.index.Keys);
    if doomed != {} {
      var h :| h in doomed;
      assert h in db.index && h !in Swept(db, doomed).index;
    }
  }

  /** And nothing unreferenced is left, if the filter is exact and everything is old enough. */
  lemma SweepIsComplete(db: Db, rv: Version)
    requires forall h | h in db.index :: db.index[h] <= rv
    ensures var w := Sweep(rv, db.pages.Values + db.referrer.Values, {});
      forall h | h in Swept(db, DoomedOf(db, w, db.index.Keys)).index :: h in db.pages.Values || h in db.referrer.Values
  {
  }
}
