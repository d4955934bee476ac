/** Acquiring and releasing a namespace lock while nothing else runs: every outcome, and the whole rollback
    loop. (mvstore/src/nslock.rs) */
module NsLock {
  import opened Common
  import opened Scans
  import opened Store
  import opened Protocol
  import opened Truncation

  const MAX_OWNER := 256

  /** How many bytes a string takes in UTF-8 (section 3 of RFC 3629). */
  function ByteLength(s: string): (n: nat)
    ensures |s| <= n <= 4 * |s|
  {
    if s == "" then 0
    else
      var c := s[0] as int;
      (if c < 0x80 then 1 else if c < 0x800 then 2 else if c < 0x1_0000 then 3 else 4) + ByteLength(s[1..])
  }

  datatype Status = Created | Ok | BadOwner | OtherOwner | NotLocked

  method AcquireLock(db: Db, owner: string, nonce: nat) returns (status: Status, after: Db)
    ensures status == BadOwner <==> owner == "" || ByteLength(owner) > MAX_OWNER
    ensures status == OtherOwner <==>
      owner != "" && ByteLength(owner) <= MAX_OWNER && db.lock.Some? && db.lock.value.owner != owner
    ensures status == Created <==>
      owner != "" && ByteLength(owner) <= MAX_OWNER && (db.lock.Some? ==> db.lock.value.owner == owner)
    ensures after ==
      if status == Created && db.lock.None? then db.(lock := Some(Lock(SnapshotOf(db), owner, nonce, false))) else db
  {
    after := db;
    if owner == "" || ByteLength(owner) > MAX_OWNER { return BadOwner, db; }
    if db.lock.Some? {
      if db.lock.value.owner == owner { return Created, db; }
      return OtherOwner, db;
    }
    after := db.(lock := Some(Lock(SnapshotOf(db), owner, nonce, false)));
    status := Created;
  }

  // ---- Rollback ----

  function After(pages: map<PageKey, Hash>, cursor: Option<PageKey>): set<PageKey> {
    set k | k in pages && PageAfter(cursor, k)
  }

  function KeptPages(pages: map<PageKey, Hash>, snapshot: Version): map<PageKey, Hash> {
    map k | k in pages && k.ver <= snapshot :: pages[k]
  }

  /** Up to the cursor only what the snapshot had is left; past it everything is. */
  predicate RolledTo(was: map<PageKey, Hash>, pages: map<PageKey, Hash>, snapshot: Version, cursor: Option<PageKey>) {
    && pages.Keys <= was.Keys && (forall k | k in pages :: pages[k] == was[k])
    && (forall k | k in was :: k in pages <==> PageAfter(cursor, k) || k.ver <= snapshot)
  }

  function Newer(batch: seq<PageKey>, snapshot: Version): set<PageKey> {
    set k | k in batch && snapshot < k.ver
  }

  lemma RollStep(
      was: map<PageKey, Hash>, pages: map<PageKey, Hash>, snapshot: Version, cursor: Option<PageKey>, limit: nat,
      batch: seq<PageKey>)
    requires RolledTo(was, pages, snapshot, cursor) && batch != []
    requires FirstOf(After(pages, cursor), limit, batch, Before)
    ensures RolledTo(was, pages - Newer(batch, snapshot), snapshot, Some(batch[|batch| - 1]))
    ensures |After(pages - Newer(batch, snapshot), Some(batch[|batch| - 1]))| < |After(pages, cursor)|
  {
    var last, now := batch[|batch| - 1], pages - Newer(batch, snapshot);
    assert last in batch;
    forall k | k in was ensures k in now <==> Before(last, k) || k.ver <= snapshot {
      if k in batch {
        var i :| 0 <= i < |batch| && batch[i] == k;
        assert i < |batch| - 1 ==> Before(k, last);
      }
    }
    assert last in After(pages, cursor) && last !in After(now, Some(last));
    assert After(now, Some(last)) <= After(pages, cursor);
    SmallerSubset(After(now, Some(last)), After(pages, cursor));
  }

  method ReadAfter(pages: map<PageKey, Hash>, cursor: Option<PageKey>, limit: nat) returns (batch: seq<PageKey>)
    ensures FirstOf(After(pages, cursor), limit, batch, Before)
  {
    KeyOrder();
    batch := Scan(After(pages, cursor), limit, Before);
  }

  method NewerKeys(batch: seq<PageKey>, snapshot: Version) returns (keys: set<PageKey>)
    ensures keys == Newer(batch, snapshot)
  {
    keys := {};
    for i := 0 to |batch|
      invariant keys == Newer(batch[..i], snapshot)
    {
      assert batch[..i + 1] == batch[..i] + [batch[i]];
      if batch[i].ver > snapshot { keys := keys + {batch[i]}; }
    }
    assert batch[..|batch|] == batch;
  }

  /** The scan, in batches of any size. */
  method RollBackPages(pages: map<PageKey, Hash>, snapshot: Version, batchSize: nat) returns (left: map<PageKey, Hash>)
    requires batchSize > 0
    ensures left == KeptPages(pages, snapshot)
  {
    left := pages;
    var cursor := None;
    while true
      invariant RolledTo(pages, left, snapshot, cursor)
      decreases |After(left, cursor)|
    {
      var batch := ReadAfter(left, cursor, batchSize);
      if batch == [] { break; }
      var newer := NewerKeys(batch, snapshot);
      RollStep(pages, left, snapshot, cursor, batchSize, batch);
      left := left - newer;
      cursor := Some(batch[|batch| - 1]);
    }
    assert After(left, cursor) == {};
    forall k | k in pages ensures k in left <==> k.ver <= snapshot {
      assert k in left && PageAfter(cursor, k) ==> k in After(left, cursor);
    }
  }

  /** Releases the lock, keeping what was committed under it or rolling it back. Rolling back a lock that
      is already marked does not return, so it is not called. */
  method ReleaseLock(db: Db, owner: string, rollback: bool, batchSize: nat) returns (status: Status, after: Db)
    requires batchSize > 0
    requires rollback && db.lock.Some? && db.lock.value.owner == owner ==> !db.lock.value.rollingBack
    ensures status == BadOwner <==> owner == ""
    ensures status == NotLocked <==> owner != "" && db.lock.None?
    ensures status == OtherOwner <==> owner != "" && db.lock.Some? && db.lock.value.owner != owner
    ensures status == Created <==> owner != "" && db.lock.Some? && db.lock.value.owner == owner && !rollback
    ensures status == Created ==> after == db.(lock := None)
    ensures status == Ok ==> after == RolledBack(db, db.lock.value.snapshot)
    ensures status != Created && status != Ok ==> after == db
  {
    after := db;
    if owner == "" { return BadOwner, db; }
    if db.lock.None? { return NotLocked, db; }
    if db.lock.value.owner != owner { return OtherOwner, db; }
    if !rollback { return Created, db.(lock := None); }
    var snapshot := db.lock.value.snapshot;
    after := db.(lock := Some(db.lock.value.(rollingBack := true)));
    var left := RollBackPages(after.pages, snapshot, batchSize);
    after := after.(pages := left);
    after := after.(lastWrite := Some(LastWrite(0, snapshot)),
                    changelog := map v | v in db.changelog && v <= snapshot :: db.changelog[v],
                    lock := None);
    status := Ok;
  }

  /** What a rollback to `snapshot` leaves. */
  function RolledBack(db: Db, snapshot: Version): Db {
    db.(pages := KeptPages(db.pages, snapshot), lastWrite := Some(LastWrite(0, snapshot)),
        changelog := map v | v in db.changelog && v <= snapshot :: db.changelog[v], lock := None)
  }

  /** Commits made under the lock: they add versions above its snapshot and nothing else. */
  predicate OnlyAdds(was: Db, now: Db, snapshot: Version) {
    && (forall k | k in was.pages :: k in now.pages && now.pages[k] == was.pages[k])
    && (forall k | k in now.pages && k !in was.pages :: snapshot < k.ver)
    && (forall v | v in was.changelog :: v in now.changelog && now.changelog[v] == was.changelog[v])
    && (forall v | v in now.changelog && v !in was.changelog :: snapshot < v)
  }

  lemma OnlyAddsUndone(was: Db, now: Db, snapshot: Version)
    requires (forall k | k in was.pages :: k.ver <= snapshot) && (forall v | v in was.changelog :: v <= snapshot)
    requires OnlyAdds(was, now, snapshot)
    ensures KeptPages(now.pages, snapshot) == was.pages
    ensures RolledBack(now, snapshot).changelog == was.changelog
  {
  }

  /** What happens under a lock besides truncation: commits, page writes, collections. */
  predicate ClearsNothing(e: Event) {
    e.writes.clearPages == {} && e.writes.clearLog.NoClear?
  }

  lemma OnlyAddsStep(was: Db, now: Db, e: Event, snapshot: Version)
    requires (forall k | k in was.pages :: k.ver <= snapshot) && (forall v | v in was.changelog :: v <= snapshot)
    requires OnlyAdds(was, now, snapshot) && ClearsNothing(e) && snapshot < e.stamp
    ensures OnlyAdds(was, Apply(now, e.writes, e.stamp), snapshot)
  {
  }

  lemma {:induction false} EventsOnlyAdd(h: History, a: nat, b: nat, snapshot: Version)
    requires WellFormed(h) && a <= b <= |h.evs| && TakenOn(h.dbs[a], snapshot)
    requires forall i | a <= i < b :: ClearsNothing(h.evs[i]) && snapshot < h.evs[i].stamp
    ensures OnlyAdds(h.dbs[a], h.dbs[b], snapshot)
  {
    if a < b {
      EventsOnlyAdd(h, a, b - 1, snapshot);
      OnlyAddsStep(h.dbs[a], h.dbs[b - 1], h.evs[b - 1], snapshot);
      assert h.dbs[b] == Apply(h.dbs[b - 1], h.evs[b - 1].writes, h.evs[b - 1].stamp);
    }
  }

  /** `snapshot` is the last write version, and nothing exceeds it. */
  predicate TakenOn(db: Db, snapshot: Version) {
    && snapshot == SnapshotOf(db)
    && (forall k | k in db.pages :: k.ver <= snapshot)
    && (forall v | v in db.changelog :: v <= snapshot)
  }

  /** A lock taken after event `a - 1`, and rolled back after any commits, page writes and collections up to
      event `b - 1`: pages, changelog and last write version are as when it was taken. */
  lemma RollbackUndoes(h: History, a: nat, b: nat)
    requires WellFormed(h) && a <= b <= |h.evs| && TakenOn(h.dbs[a], SnapshotOf(h.dbs[a]))
    requires forall i | a <= i < b :: ClearsNothing(h.evs[i]) && SnapshotOf(h.dbs[a]) < h.evs[i].stamp
    ensures var after := RolledBack(h.dbs[b], SnapshotOf(h.dbs[a]));
      && after.pages == h.dbs[a].pages && after.changelog == h.dbs[a].changelog
      && SnapshotOf(after) == SnapshotOf(h.dbs[a]) && after.lock.None?
  {
    EventsOnlyAdd(h, a, b, SnapshotOf(h.dbs[a]));
    OnlyAddsUndone(h.dbs[a], h.dbs[b], SnapshotOf(h.dbs[a]));
  }
}
