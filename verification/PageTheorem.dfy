/** The page invariants hold in every run. */
module PageTheorem {
  import opened Common
  import opened Delta
  import opened Store
  import opened Operations
  import opened Protocol
  import opened Versions
  import opened PageInvariants
  import opened PageSteps
  import opened Landing
  import opened ContentSteps
  import opened ContentTheorem

  // ---- Truncations ----

  lemma SupersededHigher(pages: map<PageKey, Hash>, doomed: set<PageKey>, lim: Version, lim': Version)
    requires Superseded(pages, doomed, lim) && lim <= lim'
    ensures Superseded(pages, doomed, lim')
  {
    forall k | k in doomed ensures Later(Latest(pages, k.idx, lim'), k.ver) {
      LatestMonotone(pages, k.idx, lim, lim');
    }
  }

  lemma TruncationsAdvance(c: Codec, s: State, a: Action)
    requires s.h.dbs != [] && Enabled(c, s, a) && EventOf(Config(0, 0, 0), s.h, a).None?
    requires Guarded(Now(s.h), s.truncs, s.bound) && TruncsOk(Now(s.h).pages, s.truncs, s.bound, s.h.clock)
    ensures Guarded(Now(s.h), TruncsAfter(s, a), s.bound)
    ensures TruncsOk(Now(s.h).pages, TruncsAfter(s, a), s.bound, s.h.clock)
  {
    if a.Truncates? && a.trunc.ScanBatch? {
      DoomedSuperseded(Now(s.h).pages, a.t.phase.cursor, a.trunc.batch, a.t.before);
      SupersededHigher(Now(s.h).pages, Doomed(a.trunc.batch, a.t.before), a.t.before, Max(s.bound, a.t.before));
    }
  }

  /** A truncation that has just deleted or trimmed is no longer about to delete. */
  lemma TruncationsRest(db: Db, s: State, a: Action, bound: Version, clock: Version)
    requires Guarded(db, s.truncs, bound) && TruncsOk(db.pages, s.truncs, bound, clock)
    requires a.Truncates? && a.t in s.truncs && (a.trunc.DeleteBatch? || a.trunc.Trim?)
    requires a.trunc.DeleteBatch? ==> a.t.phase.Deleting?
    ensures Guarded(db, TruncsAfter(s, a), bound) && TruncsOk(db.pages, TruncsAfter(s, a), bound, clock)
  {
  }

  // ---- Rollbacks ----

  lemma PagesShrinkWithoutCommits(h: History, from: nat)
    requires WellFormed(h) && from <= |h.evs|
    requires forall i | from <= i < |h.evs| :: Shaped(h.evs[i]) && !h.evs[i].kind.Commit?
    ensures Now(h).pages.Keys <= h.dbs[from].pages.Keys
  {
    var n := from;
    while n < |h.evs|
      invariant from <= n <= |h.evs|
      invariant h.dbs[n].pages.Keys <= h.dbs[from].pages.Keys
    {
      PagesOnlyShrink(h.dbs[n], h.evs[n]);
      assert h.dbs[n + 1] == Apply(h.dbs[n], h.evs[n].writes, h.evs[n].stamp);
      n := n + 1;
    }
  }

  lemma RollbackMarked(s: State, a: LockAction)
    requires PageState(s) && CanLock(s.h, a) && a.RollMark?
    ensures var h', lock := Append(s.h, LockEvent(s.h, a)), s.h.dbs[a.seen].lock.value;
      WellFormed(h') && RollOk(h', Roll(|s.h.evs| + 1, lock.nonce, lock.snapshot, None, false))
  {
    AppendWellFormed(s.h, LockEvent(s.h, a));
    LockLands(s, a);
  }

  /** A version above the snapshot that one batch passes is cleared by it. */
  lemma BatchClears(pages: map<PageKey, Hash>, r: Roll, last: PageKey, k: PageKey)
    requires k in pages && !Before(last, k) && !RolledPast(r, k) && r.snapshot < k.ver
    ensures k in RollKeys(pages, r, last)
  {
    assert k in PageBatch(pages, r.clearedTo, last);
  }

  lemma BatchLeavesNothing(s: State, r: Roll, seen: nat, last: PageKey)
    requires PageState(s) && RollOk(s.h, r) && HoldsNonce(Now(s.h), r.nonce) && r.at <= seen <= |s.h.evs|
    ensures forall k | k in Now(s.h).pages - RollKeys(s.h.dbs[seen].pages, r, last) && !Before(last, k) ::
      k.ver <= r.snapshot
  {
    PagesShrinkWithoutCommits(s.h, seen);
    var was := s.h.dbs[seen].pages;
    forall k | k in Now(s.h).pages - RollKeys(was, r, last) && !Before(last, k) ensures k.ver <= r.snapshot {
      if !RolledPast(r, k) && r.snapshot < k.ver {
        BatchClears(was, r, last, k);
        assert false;
      }
    }
  }

  lemma ClearedTo(h: History, r: Roll, last: PageKey)
    requires WellFormed(h) && RollOk(h, r)
    requires HoldsNonce(Now(h), r.nonce) ==> forall k | k in Now(h).pages && !Before(last, k) :: k.ver <= r.snapshot
    ensures RollOk(h, r.(clearedTo := Some(last)))
  {
  }

  lemma ClearLeavesNothing(s: State, r: Roll, a: RollAction)
    requires PageState(s) && r in s.rolls && CanRollBack(s.h, r, a) && a.RollClear?
    requires HoldsNonce(Apply(Now(s.h), RollEvent(s.h, r, a).value.writes, a.stamp), r.nonce)
    ensures forall k | k in Apply(Now(s.h), RollEvent(s.h, r, a).value.writes, a.stamp).pages && !Before(a.last, k) ::
      k.ver <= r.snapshot
  {
    assert RollOk(s.h, r);
    BatchLeavesNothing(s, r, a.seen, a.last);
  }

  lemma RollbackCleared(s: State, r: Roll, a: RollAction)
    requires PageState(s) && r in s.rolls && CanRollBack(s.h, r, a) && a.RollClear?
    ensures var h' := Append(s.h, RollEvent(s.h, r, a).value);
      WellFormed(h') && RollOk(h', r.(clearedTo := Some(a.last)))
  {
    var e := RollEvent(s.h, r, a).value;
    RollLands(s, r, a);
    KeepsRollOk(s, e, r);
    var h' := Append(s.h, e);
    if HoldsNonce(Now(h'), r.nonce) {
      ClearLeavesNothing(s, r, a);
    }
    ClearedTo(h', r, a.last);
  }

  lemma RollbackScanned(s: State, r: Roll, a: RollAction)
    requires PageState(s) && r in s.rolls && CanRollBack(s.h, r, a) && a.RollScanned?
    ensures RollOk(s.h, r.(done := true))
  {
    assert RollOk(s.h, r);
    forall k | k in Now(s.h).pages ensures RolledPast(r, k) {
      assert !PageAfter(r.clearedTo, k);
    }
  }

  /** The only rollback record a step changes or adds. */
  function RollTouched(s: State, a: Action): Option<Roll> {
    if a.Locks? && a.lock.RollMark? && a.lock.seen < |s.h.dbs| && s.h.dbs[a.lock.seen].lock.Some? then
      var lock := s.h.dbs[a.lock.seen].lock.value;
      Some(Roll(|s.h.evs| + 1, lock.nonce, lock.snapshot, None, false))
    else if a.Rolls? && a.roller.RollClear? then Some(a.roll.(clearedTo := Some(a.roller.last)))
    else if a.Rolls? && a.roller.RollScanned? then Some(a.roll.(done := true))
    else None
  }

  lemma RollsChange(s: State, a: Action)
    ensures forall r | r in RollsAfter(s, a) :: r in s.rolls || Some(r) == RollTouched(s, a)
  {
  }

  lemma RollEnabled(c: Codec, s: State, a: Action)
    requires s.h.dbs != [] && Enabled(c, s, a)
    ensures a.Locks? ==> CanLock(s.h, a.lock)
    ensures a.Rolls? ==> a.roll in s.rolls && CanRollBack(s.h, a.roll, a.roller)
  {
  }

  lemma FamilyRollTouchedOk(cfg: Config, s: State, a: Action)
    requires PageState(s) && RollTouched(s, a).Some?
    requires a.Locks? ==> CanLock(s.h, a.lock)
    requires a.Rolls? ==> a.roll in s.rolls && CanRollBack(s.h, a.roll, a.roller)
    ensures WellFormed(HistoryAfter(cfg, s.h, a)) && RollOk(HistoryAfter(cfg, s.h, a), RollTouched(s, a).value)
  {
    RollHistory(cfg, s, a);
    if a.Locks? {
      RollbackMarked(s, a.lock);
    } else if a.roller.RollClear? {
      RollbackCleared(s, a.roll, a.roller);
    } else {
      RollbackScanned(s, a.roll, a.roller);
    }
  }

  /** The histories such steps lead to. */
  lemma RollHistory(cfg: Config, s: State, a: Action)
    requires s.h.dbs != [] && RollTouched(s, a).Some?
    ensures a.Locks? ==> HistoryAfter(cfg, s.h, a) == Append(s.h, LockEvent(s.h, a.lock))
    ensures a.Rolls? && a.roller.RollClear? ==>
      var e := RollEvent(s.h, a.roll, a.roller); e.Some? && HistoryAfter(cfg, s.h, a) == Append(s.h, e.value)
    ensures a.Rolls? && a.roller.RollScanned? ==> HistoryAfter(cfg, s.h, a) == s.h
  {
  }

  lemma RollTouchedOk(c: Codec, cfg: Config, s: State, a: Action)
    requires PageState(s) && Enabled(c, s, a) && RollTouched(s, a).Some?
    ensures WellFormed(HistoryAfter(cfg, s.h, a)) && RollOk(HistoryAfter(cfg, s.h, a), RollTouched(s, a).value)
  {
    RollEnabled(c, s, a);
    FamilyRollTouchedOk(cfg, s, a);
  }

  lemma RollsAdvance(c: Codec, cfg: Config, s: State, a: Action, h': History)
    requires PageState(s) && Enabled(c, s, a) && h' == HistoryAfter(cfg, s.h, a) && WellFormed(h')
    requires forall r | r in s.rolls :: RollOk(h', r)
    ensures forall r | r in RollsAfter(s, a) :: RollOk(h', r)
  {
    if RollTouched(s, a).Some? {
      RollTouchedOk(c, cfg, s, a);
    }
    RollsChange(s, a);
  }

  // ---- Steps ----

  lemma TickKeepsPageState(s: State, clock: Version)
    requires PageState(s) && s.h.clock <= clock < MAX_VERSION
    ensures PageState(s.(h := s.h.(clock := clock)))
  {
    forall r | r in s.rolls ensures RollOk(s.h.(clock := clock), r) {
      assert RollOk(s.h, r);
    }
  }

  /** The part of a step that changes the history. */
  lemma StepKeepsPageHistory(c: Codec, cfg: Config, s: State, a: Action)
    requires PageState(s) && Enabled(c, s, a)
    requires forall p | p in s.pending :: PendingOk(s.h, p)
    ensures PageState(s.(h := HistoryAfter(cfg, s.h, a), bound := BoundAfter(s, a)))
  {
    var e := EventOf(cfg, s.h, a);
    if e.Some? {
      EnabledStamp(c, cfg, s, a);
      EveryEventLands(c, cfg, s, a);
      EventKeepsPageState(s, e.value);
      AfterEvent(cfg, s, a);
    } else if a.Env? {
      TickKeepsPageState(s, a.env.clock);
    } else {
      AfterNothing(cfg, s, a);
    }
  }

  lemma StepKeepsTruncs(c: Codec, cfg: Config, s: State, a: Action)
    requires PageState(s) && Enabled(c, s, a)
    requires PageState(s.(h := HistoryAfter(cfg, s.h, a), bound := BoundAfter(s, a)))
    ensures var h', bound' := HistoryAfter(cfg, s.h, a), BoundAfter(s, a);
      Guarded(Now(h'), TruncsAfter(s, a), bound') && TruncsOk(Now(h').pages, TruncsAfter(s, a), bound', h'.clock)
  {
    var h' := HistoryAfter(cfg, s.h, a);
    if a.TruncStart? || (a.Truncates? && !a.trunc.DeleteBatch? && !a.trunc.Trim?) {
      TruncationsAdvance(c, s, a);
    } else if a.Truncates? {
      TruncationsRest(Now(h'), s, a, BoundAfter(s, a), h'.clock);
    }
  }

  lemma StepKeepsPageState(c: Codec, cfg: Config, s: State, a: Action)
    requires PageState(s) && Enabled(c, s, a)
    requires forall p | p in s.pending :: PendingOk(s.h, p)
    ensures PageState(Next(cfg, s, a))
  {
    StepKeepsPageHistory(c, cfg, s, a);
    StepKeepsTruncs(c, cfg, s, a);
    RollsAdvance(c, cfg, s, a, HistoryAfter(cfg, s.h, a));
  }

  /** All the invariants together. */
  ghost predicate Sound(c: Codec, s: State) {
    SafeState(c, s) && PageState(s)
  }

  lemma StepKeepsSound(c: Codec, cfg: Config, s: State, a: Action)
    requires ValidCodec(c) && Sound(c, s) && Enabled(c, s, a)
    ensures Sound(c, Next(cfg, s, a))
  {
    StepKeepsSafe(c, cfg, s, a);
    StepKeepsPageState(c, cfg, s, a);
  }

  lemma InitiallySound(c: Codec)
    ensures Sound(c, INITIAL)
  {
    InitiallySafe(c);
  }
}
