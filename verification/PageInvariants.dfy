/** What every event does to the page index, the last write version, the changelog and the lock,
    and what holds of them at every moment. */
module PageInvariants {
  import opened Common
  import opened Store
  import opened Operations
  import opened Protocol
  import opened Versions

  // ---- Shapes of events ----

  /** Nothing but content is written. */
  predicate ContentOnly(w: Writes) {
    && w.setPages == map[] && w.clearPages == {} && w.log.None? && w.clearLog.NoClear?
    && w.lastWrite.KeepLastWrite? && w.lock.KeepLock?
  }

  predicate Covers(e: Entry, i: PageNo) {
    e.Infinite? || i in e.pages
  }

  /** An entry lists exactly the pages written, or none because they are too many. */
  predicate IsEntry(e: Entry, pages: set<PageNo>) {
    e == Infinite || e == Listed(pages)
  }

  /** Each kind of event writes what its operation writes, and nothing else. */
  predicate Shaped(e: Event) {
    var w := e.writes;
    match e.kind
    case Commit(info) =>
      && w.clearPages == {} && w.clearLog.NoClear? && w.lock.KeepLock?
      && w.lastWrite == StampLastWrite(info.token)
      && w.log.Some? && IsEntry(w.log.value, w.setPages.Keys)
    case Truncate(before) => ContentOnly(w.(clearPages := {}))
    case TrimLog(before) => w.clearLog == Below(before) && ContentOnly(w.(clearLog := NoClear))
    case Acquire =>
      && w.lock.PutLock? && w.lock.lock.Some? && !w.lock.lock.value.rollingBack && ContentOnly(w.(lock := KeepLock))
    case Release => w.lock == PutLock(None) && ContentOnly(w.(lock := KeepLock))
    case Mark =>
      && w.lock.PutLock? && w.lock.lock.Some? && w.lock.lock.value.rollingBack && ContentOnly(w.(lock := KeepLock))
    case RollBatch(snapshot) =>
      (forall k | k in w.clearPages :: snapshot < k.ver) && ContentOnly(w.(clearPages := {}))
    case RollFinish(snapshot, _) =>
      w == NO_WRITES.(lock := PutLock(None), lastWrite := PatchLastWrite(snapshot), clearLog := Above(snapshot))
    case _ => ContentOnly(w)
  }

  // ---- What a commit or a lock change is known to fit, at the moment it lands ----

  predicate ReadSetFits(pages: map<PageKey, Hash>, info: CommitInfo) {
    forall p | p in info.readSet :: !Later(Latest(pages, p, MAX_VERSION), info.assumed)
  }

  /** The commit's checks, passed on an older snapshot, hold of the state it lands on. */
  predicate Fits(db: Db, info: CommitInfo) {
    && LockVerdict(db.lock, info.owner) == Proceed
    && (if info.plcc then ReadSetFits(db.pages, info)
        else db.lastWrite.Some? ==> db.lastWrite.value.ver <= info.assumed && db.lastWrite.value.token != info.token)
  }

  ghost predicate Lands(s: State, e: Event)
    requires s.h.dbs != [] && Shaped(e)
  {
    var now, w := Now(s.h), e.writes;
    match e.kind
    case Commit(info) => Fits(now, info) && info.assumed <= s.h.clock
    case Truncate(before) => exists t | t in s.truncs ::
      t.before == before && t.phase.Deleting? && t.phase.doomed == w.clearPages
    case TrimLog(before) => before <= s.h.clock
    case Acquire =>
      now.lock.None? && w.lock.lock.value.snapshot == SnapshotOf(now) && FreshNonce(s.h, w.lock.lock.value.nonce)
    case Release => now.lock.Some?
    case Mark => now.lock.Some? && !now.lock.value.rollingBack
      && w.lock.lock == Some(now.lock.value.(rollingBack := true))
    case RollBatch(snapshot) => exists r | r in s.rolls :: HoldsNonce(now, r.nonce) && r.snapshot == snapshot
    case RollFinish(snapshot, nonce) =>
      exists r | r in s.rolls :: r.nonce == nonce && HoldsNonce(now, nonce) && r.snapshot == snapshot && r.done
    case _ => true
  }

  // ---- Invariants of one moment ----

  /** Every version of every page is at most the last write version. */
  predicate PagesBelowLastWrite(db: Db) {
    forall k | k in db.pages :: db.lastWrite.Some? && k.ver <= db.lastWrite.value.ver
  }

  predicate LogBelowLastWrite(db: Db) {
    forall v | v in db.changelog :: db.lastWrite.Some? && v <= db.lastWrite.value.ver
  }

  /** A page entry is covered by the changelog entry of its version, or lies below the whole changelog. */
  predicate Logged(db: Db) {
    forall k | k in db.pages ::
      || (k.ver in db.changelog && Covers(db.changelog[k.ver], k.idx))
      || (forall v | v in db.changelog :: k.ver < v)
  }

  predicate Dated(db: Db, clock: Version) {
    && (db.lastWrite.Some? ==> db.lastWrite.value.ver <= clock)
    && (db.lock.Some? ==> db.lock.value.snapshot <= clock)
    && (forall v | v in db.changelog :: v <= clock)
  }

  /** No truncation reaches past the snapshot a held lock would roll back to. */
  predicate Guarded(db: Db, truncs: set<Trunc>, bound: Version) {
    db.lock.Some? ==>
      && Gap(db.pages, db.lock.value.snapshot, bound)
      && (forall t | t in truncs :: Gap(db.pages, db.lock.value.snapshot, t.before))
  }

  predicate TruncsOk(pages: map<PageKey, Hash>, truncs: set<Trunc>, bound: Version, clock: Version) {
    && bound <= clock
    && (forall t | t in truncs ::
          && t.before <= clock
          && (t.phase.Deleting? ==> Superseded(pages, t.phase.doomed, Max(bound, t.before))))
  }

  /** A rollback's scan is past `k`. */
  predicate RolledPast(r: Roll, k: PageKey) {
    r.done || (r.clearedTo.Some? && !Before(r.clearedTo.value, k))
  }

  /** While its lock lasts, a rollback sees no lock change and no commit, and clears for good. */
  ghost predicate RollOk(h: History, r: Roll)
    requires WellFormed(h)
  {
    && 1 <= r.at <= |h.evs|
    && h.evs[r.at - 1].kind.Mark?
    && h.evs[r.at - 1].writes.lock.PutLock? && h.evs[r.at - 1].writes.lock.lock.Some?
    && h.evs[r.at - 1].writes.lock.lock.value.nonce == r.nonce
    && (HoldsNonce(Now(h), r.nonce) ==>
          && Now(h).lock.value.rollingBack
          && Now(h).lock.value.snapshot == r.snapshot
          && (forall i | r.at <= i < |h.evs| :: h.evs[i].writes.lock.KeepLock? && !h.evs[i].kind.Commit?)
          && (forall k | k in Now(h).pages && RolledPast(r, k) :: k.ver <= r.snapshot))
  }

  ghost predicate PageState(s: State) {
    && WellFormed(s.h)
    && (forall i | 0 <= i < |s.h.evs| :: Shaped(s.h.evs[i]))
    && PagesBelowLastWrite(Now(s.h))
    && LogBelowLastWrite(Now(s.h))
    && Logged(Now(s.h))
    && Dated(Now(s.h), s.h.clock)
    && Guarded(Now(s.h), s.truncs, s.bound)
    && TruncsOk(Now(s.h).pages, s.truncs, s.bound, s.h.clock)
    && (forall r | r in s.rolls :: RollOk(s.h, r))
  }
}
