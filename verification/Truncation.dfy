/** Version truncation of one namespace while nothing else writes to it: the whole batch loop.
    (mvstore/src/gc.rs) */
module Truncation {
  import opened Common
  import opened Store
  import opened Protocol
  import opened Versions
  import opened Scans

  // ---- Range scans ----

  predicate AtOrAfter(cursor: Option<PageKey>, k: PageKey) {
    cursor.Some? ==> !Before(k, cursor.value)
  }

  function InScan(keys: set<PageKey>, cursor: Option<PageKey>): set<PageKey> {
    set k | k in keys && AtOrAfter(cursor, k)
  }

  lemma KeyOrder()
    ensures TotalOrder(Before)
  {
  }

  /** A limited scan is a run of consecutive keys. */
  lemma ScanIsRun(pages: map<PageKey, Hash>, cursor: Option<PageKey>, limit: nat, batch: seq<PageKey>)
    requires FirstOf(InScan(pages.Keys, cursor), limit, batch, Before) && batch != []
    ensures Run(pages, cursor, batch)
  {
    var last := batch[|batch| - 1];
    assert last in batch;
  }

  method ReadBatch(pages: map<PageKey, Hash>, cursor: Option<PageKey>, limit: nat) returns (batch: seq<PageKey>)
    ensures batch != [] ==> Run(pages, cursor, batch)
    ensures |batch| == Min(limit, |InScan(pages.Keys, cursor)|)
  {
    KeyOrder();
    batch := Scan(InScan(pages.Keys, cursor), limit, Before);
    if batch != [] { ScanIsRun(pages, cursor, limit, batch); }
  }

  // ---- What survives ----

  /** Every version above `before`, and for each page the greatest one at or below it. */
  predicate Survives(pages: map<PageKey, Hash>, before: Version, k: PageKey) {
    k in pages && (before < k.ver || Latest(pages, k.idx, before) == Some(k.ver))
  }

  function Survivors(pages: map<PageKey, Hash>, before: Version): map<PageKey, Hash> {
    map k | k in pages && Survives(pages, before, k) :: pages[k]
  }

  /** A version survives exactly if it is above the point, or no later version of its page is at or below it. */
  lemma SurvivesExactly(pages: map<PageKey, Hash>, before: Version, k: PageKey)
    ensures k in Survivors(pages, before) <==>
      k in pages && (before < k.ver || forall u | k.ver < u <= before :: PageKey(k.idx, u) !in pages)
    ensures k in Survivors(pages, before) ==> Survivors(pages, before)[k] == pages[k]
  {
    if k in pages && k.ver <= before {
      assert k == PageKey(k.idx, k.ver);
      if forall u | k.ver < u <= before :: PageKey(k.idx, u) !in pages {
        LatestIs(pages, k.idx, before, k.ver);
      }
    }
  }

  /** Everything before the cursor has been dealt with; the rest is as it was. */
  ghost predicate TruncatedTo(
      was: map<PageKey, Hash>, pages: map<PageKey, Hash>, before: Version, cursor: Option<PageKey>) {
    && (cursor.Some? ==> cursor.value in was)
    && pages.Keys <= was.Keys && (forall k | k in pages :: pages[k] == was[k])
    && (forall k | k in was :: k in pages <==> AtOrAfter(cursor, k) || Survives(was, before, k))
  }

  /** A batch's keys other than the last survive exactly when they are not selected. */
  lemma SelectedExactly(was: map<PageKey, Hash>, cursor: Option<PageKey>, batch: seq<PageKey>, before: Version, j: nat)
    requires Run(was, cursor, batch) && j + 1 < |batch|
    ensures batch[j] in Doomed(batch, before) <==> !Survives(was, before, batch[j])
  {
    var k, next := batch[j], batch[j + 1];
    assert k in was && next in was && Before(k, next);
    if IsDoomed(batch, before, j) {
      LatestAtLeast(was, k.idx, before, next.ver);
      assert next == PageKey(k.idx, next.ver);
    } else {
      NotSelectedSurvives(was, cursor, batch, before, j);
    }
  }

  lemma NotSelectedSurvives(
      was: map<PageKey, Hash>, cursor: Option<PageKey>, batch: seq<PageKey>, before: Version, j: nat)
    requires Run(was, cursor, batch) && j + 1 < |batch| && !IsDoomed(batch, before, j)
    ensures Survives(was, before, batch[j])
  {
    var k := batch[j];
    assert k in batch && k == PageKey(k.idx, k.ver);
    if k.ver <= before {
      forall u | k.ver < u <= before ensures PageKey(k.idx, u) !in was {
        if PageKey(k.idx, u) in was {
          NextIsNearer(was, cursor, batch, j, PageKey(k.idx, u));
        }
      }
      LatestIs(was, k.idx, before, k.ver);
    }
  }

  /** The next key of a run is at most any later key of the map. */
  lemma NextIsNearer(was: map<PageKey, Hash>, cursor: Option<PageKey>, batch: seq<PageKey>, j: nat, later: PageKey)
    requires Run(was, cursor, batch) && j + 1 < |batch| && later in was && Before(batch[j], later)
    ensures !Before(later, batch[j + 1])
  {
    if Before(later, batch[j + 1]) {
      var last := batch[|batch| - 1];
      assert batch[j] in batch && (j + 1 < |batch| - 1 ==> Before(batch[j + 1], last));
      assert later in batch;
      var i :| 0 <= i < |batch| && batch[i] == later;
      assert false;
    }
  }

  lemma DoomedInBatch(batch: seq<PageKey>, before: Version)
    requires Increasing(batch, Before) && batch != []
    ensures forall k | k in Doomed(batch, before) :: k in batch && Before(k, batch[|batch| - 1])
  {
  }

  lemma BatchStep(
      was: map<PageKey, Hash>, pages: map<PageKey, Hash>, before: Version, cursor: Option<PageKey>,
      batch: seq<PageKey>)
    requires TruncatedTo(was, pages, before, cursor) && Run(pages, cursor, batch)
    ensures TruncatedTo(was, pages - Doomed(batch, before), before, Some(batch[|batch| - 1]))
  {
    var last := batch[|batch| - 1];
    assert last in batch;
    SameRun(was, pages, before, cursor, batch);
    forall k | k in was
      ensures k in pages - Doomed(batch, before) <==> AtOrAfter(Some(last), k) || Survives(was, before, k)
    {
      KeyInBatch(was, pages, before, cursor, batch, k);
    }
  }

  /** What a batch means for one key: outside the batch nothing, inside it the selection decides. */
  lemma KeyInBatch(
      was: map<PageKey, Hash>, pages: map<PageKey, Hash>, before: Version, cursor: Option<PageKey>,
      batch: seq<PageKey>, k: PageKey)
    requires TruncatedTo(was, pages, before, cursor) && Run(was, cursor, batch) && k in was
    ensures k in pages - Doomed(batch, before) <==>
      AtOrAfter(Some(batch[|batch| - 1]), k) || Survives(was, before, k)
  {
    if k in batch {
      var j :| 0 <= j < |batch| && batch[j] == k;
      KeyIsRead(was, pages, before, cursor, batch, j);
    } else {
      KeyIsNotRead(was, cursor, batch, before, k);
    }
  }

  lemma KeyIsRead(
      was: map<PageKey, Hash>, pages: map<PageKey, Hash>, before: Version, cursor: Option<PageKey>,
      batch: seq<PageKey>, j: nat)
    requires TruncatedTo(was, pages, before, cursor) && Run(was, cursor, batch) && j < |batch|
    ensures batch[j] in pages - Doomed(batch, before) <==>
      AtOrAfter(Some(batch[|batch| - 1]), batch[j]) || Survives(was, before, batch[j])
  {
    var k, last := batch[j], batch[|batch| - 1];
    assert k in batch && k in was && AtOrAfter(cursor, k) && k in pages;
    if j + 1 < |batch| {
      SelectedExactly(was, cursor, batch, before, j);
      assert Before(k, last);
    } else {
      LastIsKept(batch, before);
    }
  }

  lemma LastIsKept(batch: seq<PageKey>, before: Version)
    requires Increasing(batch, Before) && batch != []
    ensures batch[|batch| - 1] !in Doomed(batch, before)
  {
    DoomedInBatch(batch, before);
  }

  lemma KeyIsNotRead(was: map<PageKey, Hash>, cursor: Option<PageKey>, batch: seq<PageKey>, before: Version, k: PageKey)
    requires Run(was, cursor, batch) && k in was && k !in batch
    ensures k !in Doomed(batch, before) && (AtOrAfter(cursor, k) <==> AtOrAfter(Some(batch[|batch| - 1]), k))
  {
    DoomedInBatch(batch, before);
    assert batch[|batch| - 1] in batch;
  }

  /** The last key of all survives: its page has no later version. */
  lemma LastSurvives(was: map<PageKey, Hash>, before: Version, k: PageKey)
    requires k in was && forall x | x in was && x != k :: Before(x, k)
    ensures Survives(was, before, k)
  {
    if k.ver <= before {
      forall u | k.ver < u <= before ensures PageKey(k.idx, u) !in was {}
      assert k == PageKey(k.idx, k.ver);
      LatestIs(was, k.idx, before, k.ver);
    }
  }

  lemma AllSurvive(was: map<PageKey, Hash>, pages: map<PageKey, Hash>, before: Version, cursor: Option<PageKey>)
    requires TruncatedTo(was, pages, before, cursor) && |InScan(pages.Keys, cursor)| <= 1
    ensures pages == Survivors(was, before)
  {
    var rest := InScan(pages.Keys, cursor);
    forall k | k in was && AtOrAfter(cursor, k) ensures Survives(was, before, k) {
      assert k in rest;
      forall x | x in was && x != k ensures Before(x, k) {
        if AtOrAfter(cursor, x) {
          assert x in rest && {k, x} <= rest;
          assert |{k, x}| == 2;
          SubsetSize({k, x}, rest);
          assert false;
        } else if cursor.Some? {
          assert Before(x, cursor.value);
        }
      }
      LastSurvives(was, before, k);
    }
  }

  lemma SubsetSize(a: set<PageKey>, b: set<PageKey>)
    requires a <= b
    ensures |a| <= |b|
  {
    assert b == a + (b - a);
  }

  lemma FewerLeft(pages: map<PageKey, Hash>, keys: set<PageKey>, batch: seq<PageKey>, cursor: Option<PageKey>)
    requires Run(pages, cursor, batch) && |batch| > 1 && keys <= pages.Keys
    ensures |InScan(keys, Some(batch[|batch| - 1]))| < |InScan(pages.Keys, cursor)|
  {
    var next := InScan(keys, Some(batch[|batch| - 1]));
    var now := InScan(pages.Keys, cursor);
    assert batch[0] in batch && Before(batch[0], batch[|batch| - 1]) && batch[|batch| - 1] in batch;
    assert next <= now - {batch[0]};
    SubsetSize(next, now - {batch[0]});
  }

  /** Keys of a batch that have a later version in range. */
  method SelectDoomed(batch: seq<PageKey>, before: Version) returns (doomed: set<PageKey>)
    requires batch != []
    ensures doomed == Doomed(batch, before)
  {
    doomed := {};
    for j := 0 to |batch| - 1
      invariant doomed == Doomed(batch[..j + 1], before)
    {
      assert batch[..j + 2][..j + 1] == batch[..j + 1];
      DoomedStep(batch[..j + 2], before);
      var key, next := batch[j], batch[j + 1];
      var latestInRange := key.idx != next.idx || before < next.ver;
      if !latestInRange && key.ver < before { doomed := doomed + {key}; }
    }
    assert batch[..|batch|] == batch;
  }

  /** The batch loop of `truncate_versions`, for any batch size of at least two: it terminates, and what
      is left is, per page, every version above `before` and the greatest one at or below it. A dry run
      counts the same, but leaves the store alone only if the changelog has nothing to trim. */
  method TruncateVersions(db: Db, before: Version, batchSize: nat, dryRun: bool) returns (after: Db, count: nat)
    requires batchSize >= 2
    ensures after.pages == if dryRun then db.pages else Survivors(db.pages, before)
    ensures after == db.(pages := after.pages, changelog := map v | v in db.changelog && before <= v :: db.changelog[v])
    ensures count == |db.pages| - |Survivors(db.pages, before)|
    ensures dryRun ==> (after == db <==> forall v | v in db.changelog :: before <= v)
  {
    var pages;
    pages, count := TruncatePages(db.pages, before, batchSize, dryRun);
    var kept := map v | v in db.changelog && before <= v :: db.changelog[v];
    assert (forall v | v in db.changelog :: before <= v) <==> kept.Keys == db.changelog.Keys;
    after := db.(pages := pages, changelog := kept);
  }

  method TruncatePages(was: map<PageKey, Hash>, before: Version, batchSize: nat, dryRun: bool)
    returns (pages: map<PageKey, Hash>, count: nat)
    requires batchSize >= 2
    ensures pages == if dryRun then was else Survivors(was, before)
    ensures count == |was| - |Survivors(was, before)|
  {
    ghost var left := was;
    var cursor := None;
    pages, count := was, 0;
    while true
      invariant pages == if dryRun then was else left
      invariant TruncatedTo(was, left, before, cursor) && count == |was| - |left|
      decreases |InScan(pages.Keys, cursor)|
    {
      SameScan(was, left, before, cursor);
      var batch := ReadBatch(pages, cursor, batchSize);
      if |batch| <= 1 { break; }
      OneBatch(was, left, before, cursor, batch);
      var doomed := SelectDoomed(batch, before);
      FewerLeft(pages, if dryRun then pages.Keys else (pages - doomed).Keys, batch, cursor);
      left := left - doomed;
      if !dryRun { pages := pages - doomed; }
      count := count + |doomed|;
      cursor := Some(batch[|batch| - 1]);
    }
    AllSurvive(was, left, before, cursor);
  }

  lemma OneBatch(
      was: map<PageKey, Hash>, left: map<PageKey, Hash>, before: Version, cursor: Option<PageKey>,
      batch: seq<PageKey>)
    requires TruncatedTo(was, left, before, cursor) && (Run(was, cursor, batch) || Run(left, cursor, batch))
    ensures var next := left - Doomed(batch, before);
      TruncatedTo(was, next, before, Some(batch[|batch| - 1])) && |next| == |left| - |Doomed(batch, before)|
  {
    SameRun(was, left, before, cursor, batch);
    BatchStep(was, left, before, cursor, batch);
    Removed(left, Doomed(batch, before), batch, before, cursor);
  }

  /** A dry run reads what a real one would: from the cursor on nothing has been deleted. */
  lemma SameScan(was: map<PageKey, Hash>, left: map<PageKey, Hash>, before: Version, cursor: Option<PageKey>)
    requires TruncatedTo(was, left, before, cursor)
    ensures InScan(was.Keys, cursor) == InScan(left.Keys, cursor)
  {
  }

  lemma SameRun(
      was: map<PageKey, Hash>, left: map<PageKey, Hash>, before: Version, cursor: Option<PageKey>,
      batch: seq<PageKey>)
    requires TruncatedTo(was, left, before, cursor)
    ensures Run(was, cursor, batch) <==> Run(left, cursor, batch)
  {
  }

  lemma DoomedStep(batch: seq<PageKey>, before: Version)
    requires |batch| >= 2
    ensures Doomed(batch, before) == Doomed(batch[..|batch| - 1], before) +
      (if IsDoomed(batch, before, |batch| - 2) then {batch[|batch| - 2]} else {})
  {
    var shorter := batch[..|batch| - 1];
    assert forall j: nat | j + 1 < |shorter| :: IsDoomed(batch, before, j) == IsDoomed(shorter, before, j);
  }

  lemma Removed(
      pages: map<PageKey, Hash>, doomed: set<PageKey>, batch: seq<PageKey>, before: Version, cursor: Option<PageKey>)
    requires Run(pages, cursor, batch) && doomed == Doomed(batch, before)
    ensures |pages - doomed| == |pages| - |doomed|
  {
    assert doomed <= pages.Keys by { DoomedInBatch(batch, before); }
    assert (pages - doomed).Keys == pages.Keys - doomed;
    assert pages.Keys == (pages.Keys - doomed) + doomed;
  }
}
