/** Whole sessions: any sequence of calls on one connection, over any number of transactions.
    (mvfs/src/vfs.rs) */
module Sessions {
  import opened Common
  import opened Client
  import opened IdealClient
  import opened Connection

  // ---- A connection behaves like the client without a cache ----

  ghost predicate Serves(w: World, c: Connection) {
    c.snap == w.snap && c.firstPage == w.firstPage && c.sectorSize == w.sectorSize
  }

  /** A page read now would bring along an older form of a page in the write buffer. */
  predicate FetchesStale(c: Connection, p: PageNo, ahead: set<PageNo>)
    reads c
  {
    c.Fetches(p) && exists q | q in ahead :: Stale(c.snap, c.txn.value, c.writeBuffer, ahead, q)
  }

  /** The call does not panic on an assertion, nothing stale is fetched ahead, and SQLite keeps to its locks: it
      writes only with a write lock, and does not lower the lock of a transaction that has written but by
      unlocking. */
  predicate Ready(w: World, c: Connection, k: nat, call: Call)
    reads c
  {
    match call
    case ReadAt(p, ahead) => (c.txn.None? ==> p == 0) && !FetchesStale(c, p, ahead)
    case WriteAt(p, data) =>
      && c.txn.Some? && Level(c.lock) >= RESERVED_LEVEL && |data| == c.sectorSize >= 96
      && (p == 0 ==> GoodHeader(data, c.sectorSize))
    case Confirm => !c.commitConfirmed
    case Take(kind) =>
      && kind != NoLock && (Level(kind) < RESERVED_LEVEL ==> c.Writes() == map[])
      && (c.lock != kind && (c.txn.Some? || c.fixedVersion.Some? || w.stats(k, c.lastKnown).Some?) ==>
            !c.commitConfirmed)
    case Release(kind) => Level(kind) >= RESERVED_LEVEL ==> c.txn.Some?
    case _ => true
  }

  /** What a connection would send if its lock were given up now. */
  function Sends(c: Connection, kind: LockKind): Option<Intent>
    reads c
  {
    if Level(c.lock) >= RESERVED_LEVEL > Level(kind) && c.commitConfirmed && c.fixedVersion.None? && c.txn.Some?
       && c.Writes() != map[]
    then Some(Intent(c.txn.value.version, c.Writes(), if Large(c.txn.value.readSet) then None else c.txn.value.readSet))
    else None
  }

  /** What becomes of the cache: a page that is read is in it; it stays over locking at one version and over
      unlocking short of ending a transaction; and it decides which writes are skipped. */
  twostate predicate CacheKept(c: Connection, call: Call, answer: Answer)
    reads c
  {
    match call
    case ReadAt(p, _) => c.Keeps(p)
    case WriteAt(p, data) =>
      answer.Wrote? && |data| >= 96 &&
      (answer.skipped <==> p in old(c.pageCache) && old(c.pageCache)[p] == Normal(p, data))
    case Take(_) => old(c.txn).Some? || old(c.lastKnown) == c.lastKnown ==> c.pageCache == old(c.pageCache)
    case Release(kind) => !Leaves(old(c.Abstract()), kind) ==> c.pageCache == old(c.pageCache)
    case _ => true
  }

  /** One call, whatever it is, does what the ideal client does. */
  method Perform(w: World, c: Connection, k: nat, call: Call, chunk: nat) returns (answer: Answer)
    requires Promises(w) && Serves(w, c) && c.Valid() && chunk > 0 && Ready(w, c, k, call)
    modifies c
    ensures c.Valid() && Does(w, k, old(c.Abstract()), call, answer, c.Abstract()) && CacheKept(c, call, answer)
  {
    match call
    case Drop(keep) =>
      c.Evict(keep);
      return Done;
    case ReadAt(p, ahead) =>
      var result := c.Read(p, ahead);
      return Shown(result);
    case WriteAt(p, data) =>
      answer := PerformWrite(w, c, k, p, data, chunk);
    case Confirm =>
      c.ConfirmCommit();
      return Done;
    case PinTo(version) =>
      var ok := c.Pin(version);
      return Told(ok);
    case Take(kind) =>
      answer := PerformTake(w, c, k, kind);
    case Release(kind) =>
      answer := PerformRelease(w, c, k, kind, chunk);
  }

  method PerformTake(w: World, c: Connection, k: nat, kind: LockKind) returns (answer: Answer)
    requires Promises(w) && Serves(w, c) && c.Valid() && Ready(w, c, k, Take(kind))
    modifies c
    ensures c.Valid() && Does(w, k, old(c.Abstract()), Take(kind), answer, c.Abstract())
    ensures CacheKept(c, Take(kind), answer)
  {
    var ok := c.Lock(kind, w.stats(k, c.lastKnown));
    BothEmpty(c.Current().pageBuffer, c.writeBuffer);
    return Told(ok);
  }

  method PerformRelease(w: World, c: Connection, k: nat, kind: LockKind, chunk: nat) returns (answer: Answer)
    requires Promises(w) && Serves(w, c) && c.Valid() && chunk > 0 && Ready(w, c, k, Release(kind))
    modifies c
    ensures c.Valid() && Does(w, k, old(c.Abstract()), Release(kind), answer, c.Abstract())
    ensures CacheKept(c, Release(kind), answer)
  {
    var ok, sent := c.Unlock(kind, chunk, ReplyTo(w, k, Sends(c, kind)));
    return Ended(ok, sent);
  }

  lemma BothEmpty(a: map<PageNo, Page>, b: map<PageNo, Page>)
    ensures a + b == map[] <==> a == map[] && b == map[]
  {
    assert (a + b).Keys == a.Keys + b.Keys;
    assert a.Keys == {} <==> a == map[];
    assert b.Keys == {} <==> b == map[];
  }

  method PerformWrite(w: World, c: Connection, k: nat, p: PageNo, data: Page, chunk: nat) returns (answer: Answer)
    requires Promises(w) && Serves(w, c) && c.Valid() && chunk > 0 && Ready(w, c, k, WriteAt(p, data))
    modifies c
    ensures c.Valid() && Does(w, k, old(c.Abstract()), WriteAt(p, data), answer, c.Abstract())
    ensures CacheKept(c, WriteAt(p, data), answer)
  {
    var ok, skipped := c.Write(p, data, chunk);
    return Wrote(skipped);
  }

  /** Any sequence of calls, up to the first that is not ready: the answers are those of the ideal client. */
  method Session(w: World, c: Connection, calls: seq<Call>, chunk: nat)
    returns (answers: seq<Answer>, ghost ids: seq<Ideal>)
    requires Promises(w) && Serves(w, c) && c.Valid() && chunk > 0
    modifies c
    ensures c.Valid() && |answers| <= |calls|
    ensures IsTrace(w, ids, calls[..|answers|], answers)
    ensures ids[0] == old(c.Abstract()) && ids[|answers|] == c.Abstract()
    ensures |answers| < |calls| ==> !Ready(w, c, |answers|, calls[|answers|])
  {
    answers, ids := [], [c.Abstract()];
    while |answers| < |calls| && Ready(w, c, |answers|, calls[|answers|])
      invariant c.Valid() && |answers| <= |calls| && IsTrace(w, ids, calls[..|answers|], answers)
      invariant ids[0] == old(c.Abstract()) && ids[|answers|] == c.Abstract()
      decreases |calls| - |answers|
    {
      ghost var i := c.Abstract();
      var k := |answers|;
      var answer := Perform(w, c, k, calls[k], chunk);
      Longer(w, ids, calls, answers, answer, c.Abstract());
      answers, ids := answers + [answer], ids + [c.Abstract()];
    }
  }

  lemma Longer(w: World, ids: seq<Ideal>, calls: seq<Call>, answers: seq<Answer>, answer: Answer, next: Ideal)
    requires |w.firstPage| == w.sectorSize >= 96 && |answers| < |calls|
    requires IsTrace(w, ids, calls[..|answers|], answers)
    requires Does(w, |answers|, ids[|answers|], calls[|answers|], answer, next)
    ensures IsTrace(w, ids + [next], calls[..|answers| + 1], answers + [answer])
  {
  }
}
