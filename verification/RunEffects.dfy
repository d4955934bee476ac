/** What single steps do, at any moment of any run: truncation and rollback. */
module RunEffects {
  import opened Common
  import opened Delta
  import opened Store
  import opened Operations
  import opened Protocol
  import opened Versions
  import opened PageInvariants
  import opened PageSteps
  import opened Landing
  import opened Serializability
  import opened Rollback
  import opened Runs

  /** `s` meets the page and lock invariants, and the event that `a` commits fits it. */
  ghost predicate Lawful(cfg: Config, s: State, a: Action) {
    && PageState(s) && LockState(s)
    && var e := EventOf(cfg, s.h, a);
       e.Some? ==> NextStamp(s.h, e.value.stamp) && Shaped(e.value) && Lands(s, e.value)
  }

  lemma EnabledIsLawful(c: Codec, cfg: Config, s: State, a: Action)
    requires Good(c, s) && Enabled(c, s, a)
    ensures Lawful(cfg, s, a)
  {
    if EventOf(cfg, s.h, a).Some? {
      EnabledStamp(c, cfg, s, a);
      EveryEventLands(c, cfg, s, a);
    }
  }

  lemma StepIsLawful(c: Codec, cfg: Config, states: seq<State>, actions: seq<Action>, n: nat)
    requires ValidCodec(c) && IsRun(c, cfg, states, actions) && n < |actions|
    ensures Lawful(cfg, states[n], actions[n]) && states[n + 1] == Next(cfg, states[n], actions[n])
  {
    EveryRunIsGood(c, cfg, states, actions, n);
    EnabledIsLawful(c, cfg, states[n], actions[n]);
  }

  /** What a step makes of a read at `v`: the page a commit writes, or what it was. */
  function ReadAfter(was: Option<Hash>, e: Option<Event>, p: PageNo, v: Version): Option<Hash> {
    if e.Some? && e.value.kind.Commit? && e.value.stamp <= v && p in e.value.writes.setPages
    then Some(e.value.writes.setPages[p]) else was
  }

  lemma EventFacts(cfg: Config, s: State, a: Action)
    requires s.h.dbs != [] && EventOf(cfg, s.h, a).Some?
    ensures var e := EventOf(cfg, s.h, a).value;
      && (e.kind.RollBatch? ==> a.Rolls? && a.roller.RollClear?)
      && (e.kind.Truncate? ==> a.Truncates? && a.trunc.DeleteBatch?)
      && EventBound(e, s.bound) == BoundAfter(s, a)
      && Now(Next(cfg, s, a).h) == Apply(Now(s.h), e.writes, e.stamp)
  {
  }

  lemma NoEventFacts(cfg: Config, s: State, a: Action)
    requires s.h.dbs != [] && EventOf(cfg, s.h, a).None?
    ensures Next(cfg, s, a).h.dbs == s.h.dbs
  {
  }

  lemma LawfulKeepsReads(cfg: Config, s: State, a: Action, p: PageNo, v: Version)
    requires Lawful(cfg, s, a) && !(a.Rolls? && a.roller.RollClear?) && Next(cfg, s, a).bound <= v
    ensures ReadPage(Now(Next(cfg, s, a).h).pages, p, v)
      == ReadAfter(ReadPage(Now(s.h).pages, p, v), EventOf(cfg, s.h, a), p, v)
  {
    var e := EventOf(cfg, s.h, a);
    if e.Some? {
      EventFacts(cfg, s, a);
      EventRead(s, e.value, p, v);
    }
  }

  /** No step but a rollback's changes a read at or above the greatest truncation point used, except
      that a commit adds its pages. */
  lemma StepKeepsReads(c: Codec, cfg: Config, states: seq<State>, actions: seq<Action>, n: nat, p: PageNo, v: Version)
    requires ValidCodec(c) && IsRun(c, cfg, states, actions) && n < |actions|
    requires !(actions[n].Rolls? && actions[n].roller.RollClear?) && states[n + 1].bound <= v
    ensures states[n + 1].h.dbs != []
    ensures ReadPage(Now(states[n + 1].h).pages, p, v) ==
      ReadAfter(ReadPage(Now(states[n].h).pages, p, v), EventOf(cfg, states[n].h, actions[n]), p, v)
  {
    StepIsLawful(c, cfg, states, actions, n);
    LawfulKeepsReads(cfg, states[n], actions[n], p, v);
  }

  // ---- One truncation at a time ----

  /** Events other than deletions by a truncation leave `t`'s selection superseded below its own point. */
  lemma KeepsOwnSuperseded(s: State, e: Event, t: Trunc)
    requires PageState(s) && NextStamp(s.h, e.stamp) && Shaped(e) && Lands(s, e) && !e.kind.Truncate?
    requires t in s.truncs && t.phase.Deleting? && Superseded(Now(s.h).pages, t.phase.doomed, t.before)
    ensures Superseded(Apply(Now(s.h), e.writes, e.stamp).pages, t.phase.doomed, t.before)
  {
    if e.kind.RollBatch? {
      PagesOnlyShrink(Now(s.h), e);
      BatchIsAboveLock(s, e);
      RollbackKeepsSuperseded(Now(s.h).pages, e.writes.clearPages, e.kind.snapshot, t.phase.doomed, t.before);
    } else {
      assert e.writes.clearPages == {};
      CommitKeepsSuperseded(Now(s.h), e, t.phase.doomed, t.before);
    }
  }

  predicate Deletes(a: Action) {
    a.Truncates? && a.trunc.DeleteBatch?
  }

  ghost predicate Waiting(s: State, t: Trunc) {
    s.h.dbs != [] && t in s.truncs && t.phase.Deleting? && Superseded(Now(s.h).pages, t.phase.doomed, t.before)
  }

  lemma StaysWaiting(cfg: Config, s: State, a: Action, t: Trunc)
    requires Lawful(cfg, s, a) && Waiting(s, t) && !Deletes(a)
    requires !(a.Truncates? && a.t == t)
    ensures Waiting(Next(cfg, s, a), t)
  {
    var e := EventOf(cfg, s.h, a);
    TruncStays(cfg, s, a, t);
    if e.Some? {
      EventFacts(cfg, s, a);
      KeepsOwnSuperseded(s, e.value, t);
    } else {
      NoEventFacts(cfg, s, a);
    }
  }

  lemma TruncStays(cfg: Config, s: State, a: Action, t: Trunc)
    requires s.h.dbs != [] && t in s.truncs && !(a.Truncates? && a.t == t)
    ensures t in Next(cfg, s, a).truncs
  {
  }

  lemma OnlyDeletes(c: Codec, s: State, a: Action, t: Trunc)
    requires s.h.dbs != [] && Enabled(c, s, a) && a.Truncates? && a.t == t && t.phase.Deleting?
    ensures Deletes(a)
  {
  }

  lemma StepStaysWaiting(c: Codec, cfg: Config, states: seq<State>, actions: seq<Action>, n: nat, t: Trunc)
    requires ValidCodec(c) && IsRun(c, cfg, states, actions) && n < |actions|
    requires Waiting(states[n], t) && !Deletes(actions[n])
    ensures Waiting(states[n + 1], t)
  {
    StepIsLawful(c, cfg, states, actions, n);
    if actions[n].Truncates? && actions[n].t == t {
      OnlyDeletes(c, states[n], actions[n], t);
    } else {
      StaysWaiting(cfg, states[n], actions[n], t);
    }
  }

  predicate NoDeletion(actions: seq<Action>, m: nat, n: nat) {
    n <= |actions| && forall i | m <= i < n :: !Deletes(actions[i])
  }

  lemma WaitsUntil(c: Codec, cfg: Config, states: seq<State>, actions: seq<Action>, m: nat, n: nat, t: Trunc)
    requires ValidCodec(c) && IsRun(c, cfg, states, actions) && m <= n < |states|
    requires Waiting(states[m], t) && NoDeletion(actions, m, n)
    ensures Waiting(states[n], t)
  {
    for k := m to n
      invariant Waiting(states[k], t)
    {
      assert !Deletes(actions[k]);
      StepStaysWaiting(c, cfg, states, actions, k, t);
    }
  }

  lemma SelectionIsWaiting(c: Codec, cfg: Config, s: State, a: Action)
    requires s.h.dbs != [] && Enabled(c, s, a) && a.Truncates? && a.trunc.ScanBatch?
    ensures Waiting(Next(cfg, s, a), TruncAfter(a.t, a.trunc))
  {
    DoomedSuperseded(Now(s.h).pages, a.t.phase.cursor, a.trunc.batch, a.t.before);
  }

  /** If no other truncation deletes between a batch's scan (step `m`) and its deletion (step `n`), the
      deletion changes no read at or above that truncation's own point. */
  lemma LoneTruncationKeepsReads(
      c: Codec, cfg: Config, states: seq<State>, actions: seq<Action>, m: nat, n: nat, p: PageNo, v: Version)
    requires ValidCodec(c) && IsRun(c, cfg, states, actions) && m < n < |actions|
    requires actions[m].Truncates? && actions[m].trunc.ScanBatch?
    requires Deletes(actions[n]) && actions[n].t == TruncAfter(actions[m].t, actions[m].trunc)
    requires NoDeletion(actions, m + 1, n)
    requires actions[n].t.before <= v
    ensures states[n + 1].h.dbs != []
    ensures ReadPage(Now(states[n + 1].h).pages, p, v) == ReadPage(Now(states[n].h).pages, p, v)
  {
    SelectionIsWaiting(c, cfg, states[m], actions[m]);
    WaitsUntil(c, cfg, states, actions, m + 1, n, actions[n].t);
    DeletionKeepsReads(cfg, states[n], actions[n], p, v);
  }

  lemma DeletionKeepsReads(cfg: Config, s: State, a: Action, p: PageNo, v: Version)
    requires s.h.dbs != [] && Deletes(a) && Waiting(s, a.t) && a.t.before <= v
    ensures ReadPage(Now(Next(cfg, s, a).h).pages, p, v) == ReadPage(Now(s.h).pages, p, v)
  {
    var e := EventOf(cfg, s.h, a).value;
    assert Now(Next(cfg, s, a).h).pages == Now(s.h).pages - a.t.phase.doomed by { PagesOnlyShrink(Now(s.h), e); }
    TruncationKeepsLatest(Now(s.h).pages, a.t.phase.doomed, a.t.before, p, v);
  }

  // ---- Rollback ----

  lemma LawfulRollbackRestores(cfg: Config, s: State, act: Action, a: nat)
    requires Lawful(cfg, s, act) && act.Rolls? && act.roller.RollEnd?
    requires Acquired(s.h.evs, a) && LockTaken(s.h.evs, a).nonce == act.roll.nonce
    ensures OwnerOnly(s.h.evs, a) && Restored(s.h.dbs[a], Now(Next(cfg, s, act).h))
    ensures NoTruncation(s.h.evs, a) ==>
      Now(Next(cfg, s, act).h).pages == s.h.dbs[a].pages && Now(Next(cfg, s, act).h).changelog == s.h.dbs[a].changelog
  {
    RollbackRestores(s, EventOf(cfg, s.h, act).value, a);
  }

  /** The lock that a finishing rollback rolls back was acquired. */
  lemma RollbackHasOrigin(cfg: Config, s: State, act: Action) returns (a: nat)
    requires Lawful(cfg, s, act) && LockHasOrigin(s.h) && act.Rolls? && act.roller.RollEnd?
    ensures Acquired(s.h.evs, a) && LockTaken(s.h.evs, a).nonce == act.roll.nonce
  {
    var e := EventOf(cfg, s.h, act).value;
    assert HoldsNonce(Now(s.h), act.roll.nonce);
    a :| Acquired(s.h.evs, a) && LockTaken(s.h.evs, a).nonce == Now(s.h).lock.value.nonce;
  }

  /** A rollback that finishes was of a lock acquired by some event `a`, and leaves every page, the last
      write version and the changelog as they were then. In between only the owner committed, and nobody
      after the mark. */
  lemma FinishedRollbackRestores(c: Codec, cfg: Config, states: seq<State>, actions: seq<Action>, n: nat)
    returns (a: nat)
    requires ValidCodec(c) && IsRun(c, cfg, states, actions) && n < |actions|
    requires actions[n].Rolls? && actions[n].roller.RollEnd?
    ensures Acquired(states[n].h.evs, a) && LockTaken(states[n].h.evs, a).nonce == actions[n].roll.nonce
    ensures WellFormed(states[n].h) && states[n + 1].h.dbs != [] && OwnerOnly(states[n].h.evs, a)
    ensures Restored(states[n].h.dbs[a], Now(states[n + 1].h))
    ensures NoTruncation(states[n].h.evs, a) ==>
      && Now(states[n + 1].h).pages == states[n].h.dbs[a].pages
      && Now(states[n + 1].h).changelog == states[n].h.dbs[a].changelog
  {
    StepIsLawful(c, cfg, states, actions, n);
    EveryLockHasOrigin(c, cfg, states, actions, n);
    a := RollbackHasOrigin(cfg, states[n], actions[n]);
    LawfulRollbackRestores(cfg, states[n], actions[n], a);
  }

  lemma EveryLockHasOrigin(c: Codec, cfg: Config, states: seq<State>, actions: seq<Action>, n: nat)
    requires ValidCodec(c) && IsRun(c, cfg, states, actions) && n < |states|
    ensures states[n].h.dbs != [] && LockHasOrigin(states[n].h)
  {
    EveryRunIsGood(c, cfg, states, actions, n);
  }

  /** While a lock is held, only its owner commits, nobody after the mark, and every page still reads at
      the lock's snapshot version as it did when the lock was taken. */
  lemma LockHolds(c: Codec, cfg: Config, states: seq<State>, actions: seq<Action>, n: nat, a: nat)
    requires ValidCodec(c) && IsRun(c, cfg, states, actions) && n < |states| && states[n].h.dbs != []
    requires Acquired(states[n].h.evs, a) && HoldsNonce(Now(states[n].h), LockTaken(states[n].h.evs, a).nonce)
    ensures WellFormed(states[n].h) && OwnerOnly(states[n].h.evs, a)
    ensures SnapshotKept(states[n].h.dbs[a], Now(states[n].h), LockTaken(states[n].h.evs, a).snapshot)
  {
    EveryRunIsGood(c, cfg, states, actions, n);
    assert LockOk(states[n].h, a);
  }

  // ---- Readers of a locked namespace ----

  /** The version `/stat` hands out: the lock's snapshot to those who do not claim the lock, the last write
      version to its owner or when there is none; nothing to anyone else. */
  function StatVersion(db: Db, owner: string): Option<Version> {
    if db.lock.Some? then
      if owner == "" then Some(db.lock.value.snapshot)
      else if db.lock.value.owner != owner || db.lock.value.rollingBack then None
      else Some(SnapshotOf(db))
    else if owner != "" then None
    else Some(SnapshotOf(db))
  }

  lemma NewestAtSnapshot(was: Db, lock: Lock, p: PageNo)
    requires TakenOk(was, lock) && lock.snapshot <= MAX_VERSION
    ensures ReadPage(was.pages, p, lock.snapshot) == ReadPage(was.pages, p, MAX_VERSION)
  {
    LatestAcrossGap(was.pages, p, lock.snapshot, MAX_VERSION);
  }

  /** Whatever the owner commits, rolls back or has truncated meanwhile, other readers are handed a version
      at which every page is the newest there was when the lock was taken. */
  lemma ReadersSeeStateAtLock(
      c: Codec, cfg: Config, states: seq<State>, actions: seq<Action>, n: nat, a: nat, p: PageNo)
    requires ValidCodec(c) && IsRun(c, cfg, states, actions) && n < |states| && states[n].h.dbs != []
    requires Acquired(states[n].h.evs, a) && HoldsNonce(Now(states[n].h), LockTaken(states[n].h.evs, a).nonce)
    ensures WellFormed(states[n].h)
    ensures var v := StatVersion(Now(states[n].h), "");
      v.Some? && ReadPage(Now(states[n].h).pages, p, v.value) == ReadPage(states[n].h.dbs[a].pages, p, MAX_VERSION)
  {
    EveryRunIsGood(c, cfg, states, actions, n);
    ReadersOf(states[n], a, p);
  }

  lemma ReadersOf(s: State, a: nat, p: PageNo)
    requires PageState(s) && LockState(s) && Acquired(s.h.evs, a) && HoldsNonce(Now(s.h), LockTaken(s.h.evs, a).nonce)
    ensures var v := StatVersion(Now(s.h), "");
      v.Some? && ReadPage(Now(s.h).pages, p, v.value) == ReadPage(s.h.dbs[a].pages, p, MAX_VERSION)
  {
    var was, now, lock := s.h.dbs[a], Now(s.h), LockTaken(s.h.evs, a);
    assert LockOk(s.h, a);
    assert ReadPage(now.pages, p, lock.snapshot) == ReadPage(was.pages, p, lock.snapshot);
    NewestAtSnapshot(was, lock, p);
  }
}
