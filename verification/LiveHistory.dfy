/** What was at each version when it was reached, lock rollbacks included, and what the changelog still tells
    about it, in every run. (mvstore/src/nslock.rs, mvstore/src/stat.rs) */
module LiveHistory {
  import opened Common
  import opened Delta
  import opened Store
  import opened Operations
  import opened Protocol
  import opened PageInvariants
  import opened PageSteps
  import opened ContentSteps
  import opened Landing
  import opened Serializability
  import opened Octets
  import opened Changelog

  // ---- The reference, with rollbacks ----

  /** The pages at version `v` when it was reached: commits one after the other, and a rollback that finishes
      goes back to the version that its lock was taken on. */
  function Live(evs: seq<Event>, v: Version): map<PageNo, Hash>
    decreases |evs|
  {
    if evs == [] then map[]
    else
      var e, rest := evs[|evs| - 1], evs[..|evs| - 1];
      if v < e.stamp then Live(rest, v)
      else
        match e.kind
        case Commit(_) => Live(rest, v) + e.writes.setPages
        case RollFinish(snapshot, _) => Live(rest, snapshot)
        case _ => Live(rest, v)
  }

  lemma LiveStep(evs: seq<Event>, e: Event, v: Version)
    ensures Live(evs + [e], v) ==
      if v < e.stamp then Live(evs, v)
      else match e.kind
           case Commit(_) => Live(evs, v) + e.writes.setPages
           case RollFinish(snapshot, _) => Live(evs, snapshot)
           case _ => Live(evs, v)
  {
    assert (evs + [e])[..|evs|] == evs;
  }

  /** Later events do not change what was at an earlier version. */
  lemma {:induction false} LiveOfPrefix(evs: seq<Event>, n: nat, v: Version)
    requires n <= |evs| && forall i | n <= i < |evs| :: v < evs[i].stamp
    ensures Live(evs, v) == Live(evs[..n], v)
  {
    if n < |evs| {
      LiveOfPrefix(evs[..|evs| - 1], n, v);
      assert evs[..|evs| - 1][..n] == evs[..n];
    } else {
      assert evs[..n] == evs;
    }
  }

  /** Without a rollback these are the snapshots of all commits. */
  lemma {:induction false} LiveIsSnapshot(evs: seq<Event>, v: Version)
    requires NoRollback(evs)
    ensures Live(evs, v) == Snapshot(evs, v)
  {
    if evs != [] { LiveIsSnapshot(evs[..|evs| - 1], v); }
  }

  // ---- Invariants ----

  /** What there is now is what there was at the last write version. */
  ghost predicate NowIsLast(h: History)
    requires h.dbs != []
  {
    var lw := Now(h).lastWrite;
    forall v {:trigger Live(h.evs, v)} | h.clock <= v ::
      Live(h.evs, v) == if lw.Some? then Live(h.evs, lw.value.ver) else map[]
  }

  predicate LoggedOrTrimmed(log: map<Version, Entry>, v: Version) {
    v in log || forall u | u in log :: v < u
  }

  /** The last write version, and the one a lock would go back to, are logged until everything up to them is
      trimmed. */
  predicate EndsLogged(db: Db) {
    && (db.lastWrite.Some? ==> LoggedOrTrimmed(db.changelog, db.lastWrite.value.ver))
    && (db.lock.Some? ==> LoggedOrTrimmed(db.changelog, db.lock.value.snapshot))
  }

  /** A commit's entry, as long as there is one, lists its pages. */
  ghost predicate EntriesMatch(evs: seq<Event>, log: map<Version, Entry>) {
    forall i | 0 <= i < |evs| && evs[i].kind.Commit? && evs[i].stamp in log ::
      IsEntry(log[evs[i].stamp], evs[i].writes.setPages.Keys)
  }

  ghost predicate Alike(evs: seq<Event>, from: Version, to: Version, p: PageNo) {
    Lookup(Live(evs, from), p) == Lookup(Live(evs, to), p)
  }

  /** No commit that is logged between the two versions wrote `p`. */
  ghost predicate Untouched(evs: seq<Event>, log: map<Version, Entry>, from: Version, to: Version, p: PageNo) {
    forall i | 0 <= i < |evs| && evs[i].kind.Commit? && evs[i].stamp in log && from < evs[i].stamp <= to ::
      p !in evs[i].writes.setPages
  }

  /** The commits that are logged between two logged versions tell which pages differ there. */
  ghost predicate LogTells(evs: seq<Event>, log: map<Version, Entry>) {
    forall from, to, p {:trigger Alike(evs, from, to, p)} |
      from in log && to in log && from <= to && Untouched(evs, log, from, to, p) :: Alike(evs, from, to, p)
  }

  /** A commit is later than the version it assumed. */
  predicate AssumePast(evs: seq<Event>) {
    forall i | 0 <= i < |evs| && evs[i].kind.Commit? :: evs[i].kind.info.assumed < evs[i].stamp
  }

  ghost predicate LogState(h: History) {
    && h.dbs != [] && AssumePast(h.evs) && NowIsLast(h) && EndsLogged(Now(h))
    && EntriesMatch(h.evs, Now(h).changelog) && LogTells(h.evs, Now(h).changelog)
  }

  // ---- One event ----

  lemma LastAfter(h: History, e: Event, v: Version)
    requires h.dbs != [] && NowIsLast(h) && Dated(Now(h), h.clock) && h.clock < e.stamp <= v && Shaped(e)
    requires e.kind.RollFinish? ==> e.kind.snapshot <= h.clock
    ensures var lw := Apply(Now(h), e.writes, e.stamp).lastWrite;
      Live(h.evs + [e], v) == if lw.Some? then Live(h.evs + [e], lw.value.ver) else map[]
  {
    LiveStep(h.evs, e, v);
    if e.kind.Commit? {
      LiveStep(h.evs, e, e.stamp);
      assert Live(h.evs, v) == Live(h.evs, e.stamp);
    } else if e.kind.RollFinish? {
      LiveStep(h.evs, e, e.kind.snapshot);
    } else if Now(h).lastWrite.Some? {
      LiveStep(h.evs, e, Now(h).lastWrite.value.ver);
    }
  }

  lemma KeepsNowIsLast(h: History, e: Event)
    requires h.dbs != [] && NowIsLast(h) && Dated(Now(h), h.clock) && h.clock < e.stamp && Shaped(e)
    requires e.kind.RollFinish? ==> e.kind.snapshot <= h.clock
    ensures NowIsLast(Append(h, e))
  {
    var h' := Append(h, e);
    var lw := Now(h').lastWrite;
    forall v | h'.clock <= v ensures Live(h'.evs, v) == if lw.Some? then Live(h'.evs, lw.value.ver) else map[] {
      LastAfter(h, e, v);
    }
  }

  /** A rollback goes back to the snapshot of the lock that is held. */
  lemma RollbackIsOfLock(s: State, e: Event)
    requires PageState(s) && Shaped(e) && Lands(s, e) && e.kind.RollFinish?
    ensures Now(s.h).lock.Some? && e.kind.snapshot == Now(s.h).lock.value.snapshot <= s.h.clock
  {
    var r :| r in s.rolls && r.nonce == e.kind.nonce && HoldsNonce(Now(s.h), r.nonce)
      && r.snapshot == e.kind.snapshot && r.done;
    assert RollOk(s.h, r);
  }

  lemma StaysLogged(log: map<Version, Entry>, e: Event, v: Version)
    requires Shaped(e) && !e.kind.RollFinish? && v < e.stamp && LoggedOrTrimmed(log, v)
    ensures LoggedOrTrimmed(ApplyLog(log, e.writes, e.stamp), v)
  {
  }

  lemma CutLogEnds(log: map<Version, Entry>, v: Version)
    requires LoggedOrTrimmed(log, v)
    ensures LoggedOrTrimmed(map u | u in log && u <= v :: log[u], v)
  {
  }

  /** Where the last write version and the lock's snapshot come from. */
  lemma NewEnds(s: State, e: Event)
    requires PageState(s) && Shaped(e) && Lands(s, e) && !e.kind.RollFinish?
    ensures var now, db := Now(s.h), Apply(Now(s.h), e.writes, e.stamp);
      && (db.lastWrite == now.lastWrite || (e.kind.Commit? && db.lastWrite.value.ver == e.stamp))
      && (db.lock.Some? ==>
            || (now.lock.Some? && db.lock.value.snapshot == now.lock.value.snapshot)
            || (db.lock.value.snapshot == SnapshotOf(now) && e.kind.Acquire?))
  {
  }

  lemma KeepsEndsLogged(s: State, e: Event)
    requires PageState(s) && NextStamp(s.h, e.stamp) && Shaped(e) && Lands(s, e) && EndsLogged(Now(s.h))
    requires e.kind.RollFinish? ==> Now(s.h).lock.Some? && e.kind.snapshot == Now(s.h).lock.value.snapshot
    ensures EndsLogged(Apply(Now(s.h), e.writes, e.stamp))
  {
    var now := Now(s.h);
    if e.kind.RollFinish? {
      CutLogEnds(now.changelog, e.kind.snapshot);
    } else {
      NewEnds(s, e);
      if now.lastWrite.Some? { StaysLogged(now.changelog, e, now.lastWrite.value.ver); }
      if now.lock.Some? { StaysLogged(now.changelog, e, now.lock.value.snapshot); }
    }
  }

  lemma KeepsEntriesMatch(h: History, e: Event)
    requires WellFormed(h) && NextStamp(h, e.stamp) && Shaped(e) && EntriesMatch(h.evs, Now(h).changelog)
    ensures EntriesMatch(h.evs + [e], ApplyLog(Now(h).changelog, e.writes, e.stamp))
  {
    var evs', log' := h.evs + [e], ApplyLog(Now(h).changelog, e.writes, e.stamp);
    forall i | 0 <= i < |evs'| && evs'[i].kind.Commit? && evs'[i].stamp in log'
      ensures IsEntry(log'[evs'[i].stamp], evs'[i].writes.setPages.Keys)
    {
      if i < |h.evs| { assert evs'[i] == h.evs[i] && h.evs[i].stamp < e.stamp; }
    }
  }

  /** Between two versions that stay logged, everything stays logged. */
  lemma StaysLoggedBetween(log: map<Version, Entry>, e: Event, from: Version, v: Version, to: Version)
    requires Shaped(e) && v in log && from <= v <= to
    requires from in ApplyLog(log, e.writes, e.stamp) && to in ApplyLog(log, e.writes, e.stamp)
    requires from < e.stamp
    ensures v in ApplyLog(log, e.writes, e.stamp)
  {
  }

  lemma UntouchedBefore(h: History, e: Event, from: Version, to: Version, last: Version, p: PageNo)
    requires WellFormed(h) && NextStamp(h, e.stamp) && Shaped(e) && from <= last <= to && from < e.stamp
    requires var log' := ApplyLog(Now(h).changelog, e.writes, e.stamp);
      from in log' && to in log' && Untouched(h.evs + [e], log', from, to, p)
    ensures Untouched(h.evs, Now(h).changelog, from, last, p)
  {
    var evs', log := h.evs + [e], Now(h).changelog;
    forall i | 0 <= i < |h.evs| && h.evs[i].kind.Commit? && h.evs[i].stamp in log && from < h.evs[i].stamp <= last
      ensures p !in h.evs[i].writes.setPages
    {
      assert evs'[i] == h.evs[i];
      StaysLoggedBetween(log, e, from, h.evs[i].stamp, to);
    }
  }

  /** Two versions that were logged before. */
  lemma OldPair(h: History, e: Event, from: Version, to: Version, p: PageNo)
    requires WellFormed(h) && NextStamp(h, e.stamp) && Shaped(e) && LogTells(h.evs, Now(h).changelog)
    requires from in Now(h).changelog && to in Now(h).changelog && from <= to < e.stamp
    requires var log' := ApplyLog(Now(h).changelog, e.writes, e.stamp);
      from in log' && to in log' && Untouched(h.evs + [e], log', from, to, p)
    ensures Alike(h.evs + [e], from, to, p)
  {
    UntouchedBefore(h, e, from, to, to, p);
    assert Alike(h.evs, from, to, p);
    LiveStep(h.evs, e, from);
    LiveStep(h.evs, e, to);
  }

  /** A logged version and the commit that is being added. */
  lemma NewPair(h: History, e: Event, from: Version, p: PageNo)
    requires WellFormed(h) && NextStamp(h, e.stamp) && Shaped(e) && e.kind.Commit? && LogState(h)
    requires from in Now(h).changelog && from < e.stamp && LogBelowLastWrite(Now(h)) && Dated(Now(h), h.clock)
    requires Untouched(h.evs + [e], ApplyLog(Now(h).changelog, e.writes, e.stamp), from, e.stamp, p)
    ensures Alike(h.evs + [e], from, e.stamp, p)
  {
    var last := Now(h).lastWrite.value.ver;
    assert (h.evs + [e])[|h.evs|] == e;
    assert p !in e.writes.setPages;
    UntouchedBefore(h, e, from, e.stamp, last, p);
    assert LoggedOrTrimmed(Now(h).changelog, last);
    assert Alike(h.evs, from, last, p);
    LiveStep(h.evs, e, from);
    LiveStep(h.evs, e, e.stamp);
    assert Live(h.evs, e.stamp) == Live(h.evs, last);
  }

  lemma KeepsLogTells(s: State, e: Event)
    requires PageState(s) && NextStamp(s.h, e.stamp) && Shaped(e) && LogState(s.h)
    ensures LogTells(s.h.evs + [e], ApplyLog(Now(s.h).changelog, e.writes, e.stamp))
  {
    var h, evs', log' := s.h, s.h.evs + [e], ApplyLog(Now(s.h).changelog, e.writes, e.stamp);
    forall from, to, p | from in log' && to in log' && from <= to && Untouched(evs', log', from, to, p)
      ensures Alike(evs', from, to, p)
    {
      if from < to {
        assert from in Now(h).changelog && from < e.stamp;
        if to == e.stamp { NewPair(h, e, from, p); } else { OldPair(h, e, from, to, p); }
      }
    }
  }

  lemma EventKeepsLogState(s: State, e: Event)
    requires PageState(s) && NextStamp(s.h, e.stamp) && Shaped(e) && Lands(s, e) && LogState(s.h)
    ensures LogState(Append(s.h, e))
  {
    if e.kind.RollFinish? { RollbackIsOfLock(s, e); }
    KeepsNowIsLast(s.h, e);
    KeepsEndsLogged(s, e);
    KeepsEntriesMatch(s.h, e);
    KeepsLogTells(s, e);
  }

  // ---- Every step ----

  lemma StepKeepsLogState(c: Codec, cfg: Config, s: State, a: Action)
    requires PageState(s) && Enabled(c, s, a) && LogState(s.h)
    requires forall p | p in s.pending :: PendingOk(s.h, p)
    ensures LogState(HistoryAfter(cfg, s.h, a))
  {
    var e := EventOf(cfg, s.h, a);
    if e.Some? {
      EnabledStamp(c, cfg, s, a);
      EveryEventLands(c, cfg, s, a);
      EventKeepsLogState(s, e.value);
      AfterEvent(cfg, s, a);
    } else if !a.Env? {
      AfterNothing(cfg, s, a);
    }
  }

  lemma InitiallyLogged()
    ensures LogState(NEW_HISTORY)
  {
  }

  // ---- What an interval tells ----

  /** A page outside an interval was at both its ends, when each was reached, the same. */
  lemma IntervalTellsLive(
      h: History, log: map<Version, seq<Octet>>, from: Version, to: Version, inclusive: bool, scanSize: nat,
      maxSize: nat, p: PageNo)
    requires LogState(h) && Stores(log, Now(h).changelog)
    requires var r := Interval(log, from, to, inclusive, scanSize, maxSize); r.Some? && p !in r.value
    requires forall i | 0 <= i < |h.evs| && h.evs[i].stamp == to && !inclusive :: p !in h.evs[i].writes.setPages
    ensures Lookup(Live(h.evs, from), p) == Lookup(Live(h.evs, to), p)
  {
    if from != to {
      forall i | 0 <= i < |h.evs| && h.evs[i].kind.Commit? && h.evs[i].stamp in Now(h).changelog
                 && from < h.evs[i].stamp <= to
        ensures p !in h.evs[i].writes.setPages
      {
        if h.evs[i].stamp < to || inclusive {
          OutsideInterval(log, Now(h).changelog, from, to, inclusive, scanSize, maxSize, p, h.evs[i].stamp);
        }
      }
      assert from in Now(h).changelog && to in Now(h).changelog;
      assert Alike(h.evs, from, to, p);
    }
  }
}
