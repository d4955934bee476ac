/** A namespace lock admits only its owner's commits, and rolling it back restores the namespace. */
module Rollback {
  import opened Common
  import opened Delta
  import opened Store
  import opened Operations
  import opened Protocol
  import opened Versions
  import opened PageInvariants
  import opened PageSteps
  import opened Landing
  import opened ContentSteps

  /** Event `a` acquired the lock. */
  predicate Acquired(evs: seq<Event>, a: nat) {
    a < |evs| && evs[a].kind.Acquire? && evs[a].writes.lock.PutLock? && evs[a].writes.lock.lock.Some?
  }

  function LockTaken(evs: seq<Event>, a: nat): Lock
    requires Acquired(evs, a)
  {
    evs[a].writes.lock.lock.value
  }

  // ---- What holds as long as a lock is held ----

  /** Since the lock was taken, its owner has made every commit, and none after the rollback mark. */
  predicate OwnerOnly(evs: seq<Event>, a: nat)
    requires Acquired(evs, a)
  {
    && (forall i | a < i < |evs| && evs[i].kind.Commit? :: evs[i].kind.info.owner == Some(LockTaken(evs, a).owner))
    && (forall m, i | a < m < i < |evs| && evs[m].kind.Mark? :: !evs[i].kind.Commit?)
  }

  /** Every page reads, at the lock's snapshot version, as it did when the lock was taken. */
  ghost predicate SnapshotKept(was: Db, now: Db, snapshot: Version) {
    forall p {:trigger ReadPage(now.pages, p, snapshot)} ::
      ReadPage(now.pages, p, snapshot) == ReadPage(was.pages, p, snapshot)
  }

  /** Nothing at or below the snapshot version is new. */
  predicate NothingNewBelow(was: Db, now: Db, snapshot: Version) {
    && (forall k | k in now.pages && k.ver <= snapshot :: k in was.pages && now.pages[k] == was.pages[k])
    && (forall v | v in now.changelog && v <= snapshot :: v in was.changelog && now.changelog[v] == was.changelog[v])
  }

  predicate NoTruncation(evs: seq<Event>, a: nat) {
    forall i | a < i < |evs| :: !evs[i].kind.Truncate? && !evs[i].kind.TrimLog?
  }

  /** Only truncation removes what the lock's snapshot had. */
  predicate NothingLost(was: Db, now: Db) {
    was.pages.Keys <= now.pages.Keys && was.changelog.Keys <= now.changelog.Keys
  }

  /** The lock was taken on the last write version, which nothing exceeded. */
  predicate TakenOk(was: Db, lock: Lock) {
    && lock.snapshot == SnapshotOf(was)
    && (forall k | k in was.pages :: k.ver <= lock.snapshot)
    && (forall v | v in was.changelog :: v <= lock.snapshot)
  }

  predicate SameLock(now: Db, lock: Lock) {
    now.lock == Some(lock) || now.lock == Some(lock.(rollingBack := true))
  }

  predicate MarkedSince(evs: seq<Event>, a: nat) {
    exists m | a < m < |evs| :: evs[m].kind.Mark?
  }

  ghost predicate HeldOk(evs: seq<Event>, a: nat, was: Db, now: Db)
    requires Acquired(evs, a)
  {
    var lock := LockTaken(evs, a);
    && SameLock(now, lock)
    && (MarkedSince(evs, a) ==> now.lock.value.rollingBack)
    && OwnerOnly(evs, a)
    && SnapshotKept(was, now, lock.snapshot)
    && NothingNewBelow(was, now, lock.snapshot)
    && (NoTruncation(evs, a) ==> NothingLost(was, now))
  }

  ghost predicate LockOk(h: History, a: nat)
    requires WellFormed(h) && Acquired(h.evs, a)
  {
    && TakenOk(h.dbs[a], LockTaken(h.evs, a))
    && (HoldsNonce(Now(h), LockTaken(h.evs, a).nonce) ==> HeldOk(h.evs, a, h.dbs[a], Now(h)))
  }

  ghost predicate LockState(s: State) {
    WellFormed(s.h) && forall a: nat {:trigger Acquired(s.h.evs, a)} | Acquired(s.h.evs, a) :: LockOk(s.h, a)
  }

  // ---- One event ----

  lemma TruncationKeepsSnapshot(
      pages: map<PageKey, Hash>, doomed: set<PageKey>, lim: Version, snapshot: Version, p: PageNo)
    requires Superseded(pages, doomed, lim) && Gap(pages, snapshot, lim)
    ensures Latest(pages - doomed, p, snapshot) == Latest(pages, p, snapshot)
  {
    if lim <= snapshot {
      TruncationKeepsLatest(pages, doomed, lim, p, snapshot);
    } else {
      TruncationKeepsLatest(pages, doomed, lim, p, lim);
      LatestAcrossGap(pages, p, snapshot, lim);
      LatestAcrossGap(pages - doomed, p, snapshot, lim);
    }
  }

  lemma TruncateKeepsSnapshotRead(s: State, e: Event, p: PageNo)
    requires PageState(s) && Shaped(e) && Lands(s, e) && e.kind.Truncate? && Now(s.h).lock.Some?
    ensures var snapshot := Now(s.h).lock.value.snapshot;
      Latest(Now(s.h).pages - e.writes.clearPages, p, snapshot) == Latest(Now(s.h).pages, p, snapshot)
  {
    var db, snapshot, before := Now(s.h), Now(s.h).lock.value.snapshot, e.kind.before;
    var t :| t in s.truncs && t.before == before && t.phase.Deleting? && t.phase.doomed == e.writes.clearPages;
    GapOfMax(db.pages, snapshot, s.bound, before);
    TruncationKeepsSnapshot(db.pages, e.writes.clearPages, Max(s.bound, before), snapshot, p);
  }

  /** A rollback batch clears only above the snapshot of the lock that is held. */
  lemma BatchIsAboveLock(s: State, e: Event)
    requires PageState(s) && Shaped(e) && Lands(s, e) && e.kind.RollBatch?
    ensures Now(s.h).lock.Some? && e.kind.snapshot == Now(s.h).lock.value.snapshot
  {
    var r :| r in s.rolls && HoldsNonce(Now(s.h), r.nonce) && r.snapshot == e.kind.snapshot;
    assert RollOk(s.h, r);
  }

  lemma NewerUnseen(db: Db, e: Event, p: PageNo, v: Version)
    requires e.writes.clearPages == {} && v < e.stamp
    ensures ReadPage(Apply(db, e.writes, e.stamp).pages, p, v) == ReadPage(db.pages, p, v)
  {
    LatestAgrees(Apply(db, e.writes, e.stamp).pages, db.pages, p, v);
  }

  /** No event changes what is read at the snapshot version of the lock that is held. */
  lemma EventKeepsSnapshotRead(s: State, e: Event, p: PageNo)
    requires PageState(s) && NextStamp(s.h, e.stamp) && Shaped(e) && Lands(s, e) && Now(s.h).lock.Some?
    ensures var snapshot := Now(s.h).lock.value.snapshot;
      ReadPage(Apply(Now(s.h), e.writes, e.stamp).pages, p, snapshot) == ReadPage(Now(s.h).pages, p, snapshot)
  {
    var db, snapshot := Now(s.h), Now(s.h).lock.value.snapshot;
    if e.kind.Truncate? {
      PagesOnlyShrink(db, e);
      TruncateKeepsSnapshotRead(s, e, p);
    } else if e.kind.RollBatch? {
      PagesOnlyShrink(db, e);
      BatchIsAboveLock(s, e);
      RollbackKeepsLatest(db.pages, e.writes.clearPages, snapshot, p, snapshot);
    } else {
      NewerUnseen(db, e, p, snapshot);
    }
  }

  /** How one event may change the lock, and what the lock demands of a commit. */
  ghost predicate LockChange(h: History, e: Event)
    requires h.dbs != []
  {
    var now, w := Now(h), e.writes;
    && (e.kind.Commit? ==> w.lock.KeepLock? && LockVerdict(now.lock, e.kind.info.owner) == Proceed)
    && (e.kind.Mark? ==> w.lock.PutLock? && w.lock.lock.Some?)
    && (e.kind.RollFinish? ==> w.lock == PutLock(None))
    && (w.lock.PutLock? && w.lock.lock.Some? ==>
          if e.kind.Mark? then now.lock.Some? && w.lock.lock.value == now.lock.value.(rollingBack := true)
          else FreshNonce(h, w.lock.lock.value.nonce))
  }

  lemma EveryLockChange(s: State, e: Event)
    requires s.h.dbs != [] && Shaped(e) && Lands(s, e)
    ensures LockChange(s.h, e)
  {
  }

  /** A lock that is held after an event was held before it, and the event was its owner's if a commit. */
  lemma HeldBefore(h: History, e: Event, a: nat)
    requires h.dbs != [] && LockChange(h, e) && Acquired(h.evs, a)
    requires HoldsNonce(Now(h), LockTaken(h.evs, a).nonce) ==> SameLock(Now(h), LockTaken(h.evs, a))
    requires HoldsNonce(Apply(Now(h), e.writes, e.stamp), LockTaken(h.evs, a).nonce)
    ensures HoldsNonce(Now(h), LockTaken(h.evs, a).nonce)
    ensures SameLock(Apply(Now(h), e.writes, e.stamp), LockTaken(h.evs, a))
    ensures !e.kind.RollFinish?
    ensures e.kind.Commit? ==> e.kind.info.owner == Some(LockTaken(h.evs, a).owner) && !Now(h).lock.value.rollingBack
    ensures Now(h).lock.value.rollingBack || e.kind.Mark? ==> Apply(Now(h), e.writes, e.stamp).lock.value.rollingBack
  {
    assert h.evs[a].writes.lock.lock.value.nonce == LockTaken(h.evs, a).nonce;
  }

  lemma KeepsOwnerOnly(h: History, e: Event, a: nat)
    requires Acquired(h.evs, a) && OwnerOnly(h.evs, a)
    requires e.kind.Commit? ==>
      e.kind.info.owner == Some(LockTaken(h.evs, a).owner) && forall m | a < m < |h.evs| :: !h.evs[m].kind.Mark?
    ensures Acquired(h.evs + [e], a) && OwnerOnly(h.evs + [e], a)
  {
  }

  lemma KeepsNothingNew(was: Db, db: Db, e: Event, snapshot: Version)
    requires NothingNewBelow(was, db, snapshot) && snapshot < e.stamp
    ensures NothingNewBelow(was, Apply(db, e.writes, e.stamp), snapshot)
  {
    NoNewPages(db, e, snapshot);
    NoNewEntries(db.changelog, e, snapshot);
  }

  lemma NoNewPages(db: Db, e: Event, snapshot: Version)
    requires snapshot < e.stamp
    ensures var pages := Apply(db, e.writes, e.stamp).pages;
      forall k | k in pages && k.ver <= snapshot :: k in db.pages && pages[k] == db.pages[k]
  {
  }

  lemma NoNewEntries(log: map<Version, Entry>, e: Event, snapshot: Version)
    requires snapshot < e.stamp
    ensures var log' := ApplyLog(log, e.writes, e.stamp);
      forall v | v in log' && v <= snapshot :: v in log && log'[v] == log[v]
  {
  }

  /** Only truncation, and rollback above the snapshot, remove pages or changelog entries. */
  lemma KeepsNothingLost(s: State, was: Db, e: Event)
    requires PageState(s) && Shaped(e) && Lands(s, e) && Now(s.h).lock.Some? && NothingLost(was, Now(s.h))
    requires forall k | k in was.pages :: k.ver <= Now(s.h).lock.value.snapshot
    requires !e.kind.Truncate? && !e.kind.TrimLog? && !e.kind.RollFinish?
    ensures NothingLost(was, Apply(Now(s.h), e.writes, e.stamp))
  {
    if e.kind.RollBatch? {
      BatchIsAboveLock(s, e);
    }
  }

  lemma KeepsSnapshot(s: State, e: Event, was: Db)
    requires PageState(s) && NextStamp(s.h, e.stamp) && Shaped(e) && Lands(s, e) && Now(s.h).lock.Some?
    requires SnapshotKept(was, Now(s.h), Now(s.h).lock.value.snapshot)
    ensures SnapshotKept(was, Apply(Now(s.h), e.writes, e.stamp), Now(s.h).lock.value.snapshot)
  {
    var now, snapshot := Now(s.h), Now(s.h).lock.value.snapshot;
    forall p ensures ReadPage(Apply(now, e.writes, e.stamp).pages, p, snapshot) == ReadPage(was.pages, p, snapshot) {
      EventKeepsSnapshotRead(s, e, p);
      assert ReadPage(now.pages, p, snapshot) == ReadPage(was.pages, p, snapshot);
    }
  }

  lemma SinceExtends(evs: seq<Event>, e: Event, a: nat)
    requires a < |evs|
    ensures MarkedSince(evs + [e], a) ==> MarkedSince(evs, a) || e.kind.Mark?
    ensures NoTruncation(evs + [e], a) ==> NoTruncation(evs, a) && !e.kind.Truncate? && !e.kind.TrimLog?
  {
    var evs' := evs + [e];
    assert evs'[|evs|] == e && forall i | 0 <= i < |evs| :: evs'[i] == evs[i];
    if MarkedSince(evs', a) {
      var m :| a < m < |evs'| && evs'[m].kind.Mark?;
      assert m < |evs| ==> evs[m].kind.Mark?;
    }
  }

  lemma KeepsHeldOk(s: State, e: Event, a: nat, was: Db)
    requires PageState(s) && NextStamp(s.h, e.stamp) && Shaped(e) && Lands(s, e)
    requires Acquired(s.h.evs, a) && TakenOk(was, LockTaken(s.h.evs, a))
    requires HoldsNonce(Now(s.h), LockTaken(s.h.evs, a).nonce) ==> HeldOk(s.h.evs, a, was, Now(s.h))
    requires HoldsNonce(Apply(Now(s.h), e.writes, e.stamp), LockTaken(s.h.evs, a).nonce)
    ensures Acquired(s.h.evs + [e], a) && HeldOk(s.h.evs + [e], a, was, Apply(Now(s.h), e.writes, e.stamp))
  {
    EveryLockChange(s, e);
    HeldBefore(s.h, e, a);
    SinceExtends(s.h.evs, e, a);
    KeepsSnapshot(s, e, was);
    KeepsNothingNew(was, Now(s.h), e, LockTaken(s.h.evs, a).snapshot);
    KeepsOwnerOnly(s.h, e, a);
    if NoTruncation(s.h.evs + [e], a) {
      KeepsNothingLost(s, was, e);
    }
  }

  lemma KeepsLockOk(s: State, e: Event, a: nat)
    requires PageState(s) && NextStamp(s.h, e.stamp) && Shaped(e) && Lands(s, e)
    requires Acquired(s.h.evs, a) && LockOk(s.h, a) && WellFormed(Append(s.h, e))
    ensures Acquired(s.h.evs + [e], a) && LockOk(Append(s.h, e), a)
  {
    var h' := Append(s.h, e);
    assert h'.evs[a] == s.h.evs[a] && h'.dbs[a] == s.h.dbs[a] && Now(h') == Apply(Now(s.h), e.writes, e.stamp);
    if HoldsNonce(Now(h'), LockTaken(s.h.evs, a).nonce) {
      KeepsHeldOk(s, e, a, s.h.dbs[a]);
    }
  }

  lemma NewLockOk(s: State, e: Event)
    requires PageState(s) && NextStamp(s.h, e.stamp) && Shaped(e) && Lands(s, e) && e.kind.Acquire?
    requires WellFormed(Append(s.h, e))
    ensures Acquired(s.h.evs + [e], |s.h.evs|) && LockOk(Append(s.h, e), |s.h.evs|)
  {
    var h', a := Append(s.h, e), |s.h.evs|;
    assert h'.dbs[a] == Now(s.h) && h'.evs[a] == e;
    assert Now(h').pages == Now(s.h).pages by { PagesOnlyShrink(Now(s.h), e); }
    assert Now(h').changelog == Now(s.h).changelog;
  }

  lemma OldLocksOk(s: State, e: Event)
    requires PageState(s) && LockState(s) && NextStamp(s.h, e.stamp) && Shaped(e) && Lands(s, e)
    requires WellFormed(Append(s.h, e))
    ensures forall a: nat | Acquired(s.h.evs, a) :: Acquired(s.h.evs + [e], a) && LockOk(Append(s.h, e), a)
  {
    forall a: nat | Acquired(s.h.evs, a) ensures Acquired(s.h.evs + [e], a) && LockOk(Append(s.h, e), a) {
      assert LockOk(s.h, a);
      KeepsLockOk(s, e, a);
    }
  }

  lemma AcquiredBefore(evs: seq<Event>, e: Event, a: nat)
    requires Acquired(evs + [e], a)
    ensures Acquired(evs, a) || (a == |evs| && e.kind.Acquire?)
  {
  }

  lemma EventKeepsLockState(s: State, e: Event)
    requires PageState(s) && LockState(s) && NextStamp(s.h, e.stamp) && Shaped(e) && Lands(s, e)
    ensures LockState(s.(h := Append(s.h, e)))
  {
    AppendWellFormed(s.h, e);
    OldLocksOk(s, e);
    if e.kind.Acquire? { NewLockOk(s, e); }
    forall a: nat | Acquired(s.h.evs + [e], a) ensures LockOk(Append(s.h, e), a) {
      AcquiredBefore(s.h.evs, e, a);
    }
  }

  lemma StepKeepsLockState(c: Codec, cfg: Config, s: State, a: Action)
    requires PageState(s) && LockState(s) && Enabled(c, s, a)
    requires forall p | p in s.pending :: PendingOk(s.h, p)
    ensures LockState(Next(cfg, s, a))
  {
    var e := EventOf(cfg, s.h, a);
    StepWellFormed(c, cfg, s, a);
    if e.Some? {
      EnabledStamp(c, cfg, s, a);
      EveryEventLands(c, cfg, s, a);
      EventKeepsLockState(s, e.value);
    }
    SameLockState(if e.Some? then s.(h := Append(s.h, e.value)) else s, Next(cfg, s, a));
  }

  lemma SameLockState(s: State, t: State)
    requires LockState(s) && WellFormed(t.h) && s.h.dbs == t.h.dbs && s.h.evs == t.h.evs
    ensures LockState(t)
  {
    forall a: nat | Acquired(t.h.evs, a) ensures LockOk(t.h, a) {
      assert LockOk(s.h, a);
    }
  }

  // ---- Every lock was acquired ----

  /** The lock that is held was put there by an acquiring event. */
  ghost predicate LockHasOrigin(h: History)
    requires h.dbs != []
  {
    var lock := Now(h).lock;
    lock.Some? ==> exists a: nat :: Acquired(h.evs, a) && LockTaken(h.evs, a).nonce == lock.value.nonce
  }

  lemma KeepsOrigin(h: History, e: Event)
    requires h.dbs != [] && Shaped(e) && LockChange(h, e) && LockHasOrigin(h)
    ensures LockHasOrigin(Append(h, e))
  {
    var h' := Append(h, e);
    if Now(h').lock.Some? {
      if e.kind.Acquire? {
        assert Acquired(h'.evs, |h.evs|);
      } else {
        var a: nat :| Acquired(h.evs, a) && LockTaken(h.evs, a).nonce == Now(h).lock.value.nonce;
        assert h'.evs[a] == h.evs[a] && Acquired(h'.evs, a);
      }
    }
  }

  lemma StepKeepsOrigin(c: Codec, cfg: Config, s: State, a: Action)
    requires PageState(s) && Enabled(c, s, a) && LockHasOrigin(s.h)
    requires forall p | p in s.pending :: PendingOk(s.h, p)
    ensures LockHasOrigin(Next(cfg, s, a).h)
  {
    var e := EventOf(cfg, s.h, a);
    if e.Some? {
      EveryEventLands(c, cfg, s, a);
      EveryLockChange(s, e.value);
      KeepsOrigin(s.h, e.value);
    }
  }

  // ---- The end of a rollback ----

  lemma FinishedLock(s: State, e: Event, a: nat)
    requires PageState(s) && LockState(s) && Shaped(e) && Lands(s, e) && e.kind.RollFinish?
    requires Acquired(s.h.evs, a) && LockTaken(s.h.evs, a).nonce == e.kind.nonce
    ensures TakenOk(s.h.dbs[a], LockTaken(s.h.evs, a)) && HeldOk(s.h.evs, a, s.h.dbs[a], Now(s.h))
    ensures e.kind.snapshot == LockTaken(s.h.evs, a).snapshot
  {
    var r :| r in s.rolls && r.nonce == e.kind.nonce && HoldsNonce(Now(s.h), r.nonce)
      && r.snapshot == e.kind.snapshot && r.done;
    assert RollOk(s.h, r);
    assert LockOk(s.h, a);
  }

  lemma FinishedReads(was: Db, db: Db, snapshot: Version, p: PageNo)
    requires SnapshotKept(was, db, snapshot) && snapshot <= MAX_VERSION
    requires forall k | k in was.pages :: k.ver <= snapshot
    requires forall k | k in db.pages :: k.ver <= snapshot
    ensures ReadPage(db.pages, p, MAX_VERSION) == ReadPage(was.pages, p, MAX_VERSION)
  {
    LatestAcrossGap(db.pages, p, snapshot, MAX_VERSION);
    LatestAcrossGap(was.pages, p, snapshot, MAX_VERSION);
    assert ReadPage(db.pages, p, snapshot) == ReadPage(was.pages, p, snapshot);
  }

  /** What a finished rollback leaves, compared with the state the lock was taken on. */
  ghost predicate Restored(was: Db, now: Db) {
    && now.lock.None?
    && SnapshotOf(now) == SnapshotOf(was)
    && (forall p :: ReadPage(now.pages, p, MAX_VERSION) == ReadPage(was.pages, p, MAX_VERSION))
    && (forall v | v in now.changelog :: v in was.changelog && now.changelog[v] == was.changelog[v])
  }

  lemma FinishRestores(was: Db, db: Db, w: Writes, stamp: Version, lock: Lock)
    requires w == NO_WRITES.(lock := PutLock(None), lastWrite := PatchLastWrite(lock.snapshot),
      clearLog := Above(lock.snapshot))
    requires TakenOk(was, lock) && SnapshotKept(was, db, lock.snapshot) && NothingNewBelow(was, db, lock.snapshot)
    requires lock.snapshot <= MAX_VERSION && forall k | k in db.pages :: k.ver <= lock.snapshot
    ensures Restored(was, Apply(db, w, stamp))
    ensures NothingLost(was, db) ==>
      Apply(db, w, stamp).pages == was.pages && Apply(db, w, stamp).changelog == was.changelog
  {
    var now := Apply(db, w, stamp);
    assert now.pages == db.pages;
    forall p ensures ReadPage(now.pages, p, MAX_VERSION) == ReadPage(was.pages, p, MAX_VERSION) {
      FinishedReads(was, db, lock.snapshot, p);
    }
  }

  /** When a rollback finishes, every page, the last write version and the changelog are as they were
      when the lock was taken, exactly so if no truncation ran meanwhile; and all commits in between
      were the owner's, none after the mark. */
  lemma RollbackRestores(s: State, e: Event, a: nat)
    requires PageState(s) && LockState(s) && Shaped(e) && Lands(s, e) && e.kind.RollFinish?
    requires Acquired(s.h.evs, a) && LockTaken(s.h.evs, a).nonce == e.kind.nonce
    ensures OwnerOnly(s.h.evs, a)
    ensures Restored(s.h.dbs[a], Apply(Now(s.h), e.writes, e.stamp))
    ensures NoTruncation(s.h.evs, a) ==>
      var was, now := s.h.dbs[a], Apply(Now(s.h), e.writes, e.stamp);
        now.pages == was.pages && now.changelog == was.changelog
  {
    FinishedRollback(s, e);
    FinishedLock(s, e, a);
    FinishRestores(s.h.dbs[a], Now(s.h), e.writes, e.stamp, LockTaken(s.h.evs, a));
  }
}
