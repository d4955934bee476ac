/** Every event that lands keeps the invariants of the page index, changelog and lock. */
module PageSteps {
  import opened Common
  import opened Store
  import opened Operations
  import opened Protocol
  import opened Versions
  import opened PageInvariants

  function EventBound(e: Event, bound: Version): Version {
    if e.kind.Truncate? then Max(bound, e.kind.before) else bound
  }

  lemma AfterEvent(cfg: Config, s: State, a: Action)
    requires s.h.dbs != [] && EventOf(cfg, s.h, a).Some?
    ensures var e := EventOf(cfg, s.h, a).value;
      HistoryAfter(cfg, s.h, a) == Append(s.h, e) && BoundAfter(s, a) == EventBound(e, s.bound)
  {
  }

  lemma AfterNothing(cfg: Config, s: State, a: Action)
    requires s.h.dbs != [] && EventOf(cfg, s.h, a).None? && !a.Env? && !(a.Truncates? && a.trunc.DeleteBatch?)
    ensures HistoryAfter(cfg, s.h, a) == s.h && BoundAfter(s, a) == s.bound
  {
  }

  /** Events other than commits only remove page entries. */
  lemma PagesOnlyShrink(db: Db, e: Event)
    requires Shaped(e) && !e.kind.Commit?
    ensures Apply(db, e.writes, e.stamp).pages == db.pages - e.writes.clearPages
  {
    assert e.writes.setPages == map[];
  }

  lemma KeepsPagesBelow(s: State, e: Event)
    requires s.h.dbs != [] && NextStamp(s.h, e.stamp) && Shaped(e) && Lands(s, e)
    requires PagesBelowLastWrite(Now(s.h)) && Dated(Now(s.h), s.h.clock)
    requires e.kind.RollFinish? ==> forall k | k in Now(s.h).pages :: k.ver <= e.kind.snapshot
    ensures PagesBelowLastWrite(Apply(Now(s.h), e.writes, e.stamp))
  {
    if !e.kind.Commit? { PagesOnlyShrink(Now(s.h), e); }
  }

  lemma KeepsLogBelow(s: State, e: Event)
    requires s.h.dbs != [] && NextStamp(s.h, e.stamp) && Shaped(e)
    requires LogBelowLastWrite(Now(s.h)) && Dated(Now(s.h), s.h.clock)
    ensures LogBelowLastWrite(Apply(Now(s.h), e.writes, e.stamp))
  {
  }

  lemma KeepsLogged(s: State, e: Event)
    requires s.h.dbs != [] && NextStamp(s.h, e.stamp) && Shaped(e)
    requires PagesBelowLastWrite(Now(s.h)) && Dated(Now(s.h), s.h.clock) && Logged(Now(s.h))
    requires e.kind.RollFinish? ==> forall k | k in Now(s.h).pages :: k.ver <= e.kind.snapshot
    ensures Logged(Apply(Now(s.h), e.writes, e.stamp))
  {
    var db, w := Now(s.h), e.writes;
    var db' := Apply(db, w, e.stamp);
    forall k | k in db'.pages
      ensures (k.ver in db'.changelog && Covers(db'.changelog[k.ver], k.idx))
        || (forall v | v in db'.changelog :: k.ver < v)
    {
      if k in db.pages {
        assert k.ver <= s.h.clock < e.stamp;
      } else {
        assert k.ver == e.stamp && k.idx in w.setPages;
      }
    }
  }

  lemma KeepsDated(s: State, e: Event)
    requires s.h.dbs != [] && NextStamp(s.h, e.stamp) && Shaped(e) && Lands(s, e)
    requires Dated(Now(s.h), s.h.clock)
    requires e.kind.RollFinish? ==> e.kind.snapshot <= s.h.clock
    ensures Dated(Apply(Now(s.h), e.writes, e.stamp), e.stamp)
  {
  }

  lemma CommitKeepsGap(db: Db, e: Event, snapshot: Version, lim: Version)
    requires Gap(db.pages, snapshot, lim) && (e.writes.setPages == map[] || lim < e.stamp)
    ensures Gap(Apply(db, e.writes, e.stamp).pages, snapshot, lim)
  {
  }

  lemma KeepsGuarded(s: State, e: Event)
    requires s.h.dbs != [] && NextStamp(s.h, e.stamp) && Shaped(e) && Lands(s, e)
    requires PagesBelowLastWrite(Now(s.h)) && Guarded(Now(s.h), s.truncs, s.bound)
    requires TruncsOk(Now(s.h).pages, s.truncs, s.bound, s.h.clock)
    ensures Guarded(Apply(Now(s.h), e.writes, e.stamp), s.truncs, EventBound(e, s.bound))
  {
    var db := Now(s.h);
    var db' := Apply(db, e.writes, e.stamp);
    if db'.lock.Some? {
      var snapshot := db'.lock.value.snapshot;
      assert Gap(db.pages, snapshot, s.bound) && forall t | t in s.truncs :: Gap(db.pages, snapshot, t.before);
      CommitKeepsGap(db, e, snapshot, EventBound(e, s.bound));
      forall t | t in s.truncs ensures Gap(db'.pages, snapshot, t.before) {
        CommitKeepsGap(db, e, snapshot, t.before);
      }
    }
  }

  lemma CommitKeepsSuperseded(db: Db, e: Event, doomed: set<PageKey>, lim: Version)
    requires Superseded(db.pages, doomed, lim) && e.writes.clearPages == {} && lim < e.stamp
    ensures Superseded(Apply(db, e.writes, e.stamp).pages, doomed, lim)
  {
    forall k | k in doomed ensures Later(Latest(Apply(db, e.writes, e.stamp).pages, k.idx, lim), k.ver) {
      CommitKeepsLatest(db.pages, Apply(db, e.writes, e.stamp).pages, k.idx, lim);
    }
  }

  lemma GapOfMax(pages: map<PageKey, Hash>, snapshot: Version, a: Version, b: Version)
    requires Gap(pages, snapshot, a) && Gap(pages, snapshot, b)
    ensures Gap(pages, snapshot, Max(a, b))
  {
  }

  /** One truncation's selection stays superseded whatever event lands. */
  lemma KeepsTruncOk(s: State, e: Event, t: Trunc)
    requires PageState(s) && NextStamp(s.h, e.stamp) && Shaped(e) && Lands(s, e)
    requires t in s.truncs && t.phase.Deleting?
    ensures Superseded(Apply(Now(s.h), e.writes, e.stamp).pages, t.phase.doomed, Max(EventBound(e, s.bound), t.before))
  {
    var db, w, lim := Now(s.h), e.writes, Max(s.bound, t.before);
    assert Superseded(db.pages, t.phase.doomed, lim);
    match e.kind
    case Truncate(before) =>
      PagesOnlyShrink(db, e);
      var d :| d in s.truncs && d.before == before && d.phase.Deleting? && d.phase.doomed == w.clearPages;
      TruncationKeepsSuperseded(db.pages, t.phase.doomed, lim, w.clearPages, Max(s.bound, before),
        Max(EventBound(e, s.bound), t.before));
    case RollBatch(snapshot) =>
      PagesOnlyShrink(db, e);
      var r :| r in s.rolls && HoldsNonce(db, r.nonce) && r.snapshot == snapshot;
      assert RollOk(s.h, r);
      GapOfMax(db.pages, snapshot, s.bound, t.before);
      RollbackKeepsSuperseded(db.pages, w.clearPages, snapshot, t.phase.doomed, lim);
    case _ =>
      assert w.clearPages == {};
      CommitKeepsSuperseded(db, e, t.phase.doomed, lim);
  }

  lemma KeepsTruncsOk(s: State, e: Event)
    requires PageState(s) && NextStamp(s.h, e.stamp) && Shaped(e) && Lands(s, e)
    ensures TruncsOk(Apply(Now(s.h), e.writes, e.stamp).pages, s.truncs, EventBound(e, s.bound), e.stamp)
  {
    forall t | t in s.truncs && t.phase.Deleting?
      ensures Superseded(Apply(Now(s.h), e.writes, e.stamp).pages, t.phase.doomed,
        Max(EventBound(e, s.bound), t.before))
    {
      KeepsTruncOk(s, e, t);
    }
  }

  /** While a lock is being rolled back, an event that does not end it leaves the lock alone, commits
      nothing and adds no page. */
  lemma RollingBackHoldsStill(s: State, e: Event, r: Roll)
    requires PageState(s) && NextStamp(s.h, e.stamp) && Shaped(e) && Lands(s, e) && RollOk(s.h, r)
    requires HoldsNonce(Apply(Now(s.h), e.writes, e.stamp), r.nonce)
    ensures HoldsNonce(Now(s.h), r.nonce)
    ensures e.writes.lock.KeepLock? && !e.kind.Commit?
    ensures Apply(Now(s.h), e.writes, e.stamp).pages == Now(s.h).pages - e.writes.clearPages
  {
    var m := s.h.evs[r.at - 1];
    assert m.writes.lock.lock.value.nonce == r.nonce;
    assert !e.kind.Acquire?;
    assert HoldsNonce(Now(s.h), r.nonce) && Now(s.h).lock.value.rollingBack;
    PagesOnlyShrink(Now(s.h), e);
  }

  lemma KeepsRollOk(s: State, e: Event, r: Roll)
    requires PageState(s) && NextStamp(s.h, e.stamp) && Shaped(e) && Lands(s, e) && RollOk(s.h, r)
    ensures WellFormed(Append(s.h, e)) && RollOk(Append(s.h, e), r)
  {
    AppendWellFormed(s.h, e);
    var h' := Append(s.h, e);
    assert h'.evs[r.at - 1] == s.h.evs[r.at - 1];
    if HoldsNonce(Now(h'), r.nonce) {
      RollingBackHoldsStill(s, e, r);
      forall i | r.at <= i < |h'.evs| ensures h'.evs[i].writes.lock.KeepLock? && !h'.evs[i].kind.Commit? {
        if i < |s.h.evs| { assert h'.evs[i] == s.h.evs[i]; }
      }
    }
  }

  lemma FinishedRollback(s: State, e: Event)
    requires PageState(s) && Shaped(e) && Lands(s, e) && e.kind.RollFinish?
    ensures forall k | k in Now(s.h).pages :: k.ver <= e.kind.snapshot
    ensures e.kind.snapshot <= s.h.clock
  {
    var r :| r in s.rolls && r.nonce == e.kind.nonce && HoldsNonce(Now(s.h), r.nonce)
      && r.snapshot == e.kind.snapshot && r.done;
    assert RollOk(s.h, r);
    forall k | k in Now(s.h).pages ensures k.ver <= e.kind.snapshot {
      assert RolledPast(r, k);
    }
  }

  lemma EventKeepsPageState(s: State, e: Event)
    requires PageState(s) && NextStamp(s.h, e.stamp) && Shaped(e) && Lands(s, e)
    ensures PageState(s.(h := Append(s.h, e), bound := EventBound(e, s.bound)))
  {
    AppendWellFormed(s.h, e);
    if e.kind.RollFinish? { FinishedRollback(s, e); }
    KeepsPagesBelow(s, e);
    KeepsLogBelow(s, e);
    KeepsLogged(s, e);
    KeepsDated(s, e);
    KeepsGuarded(s, e);
    KeepsTruncsOk(s, e);
    forall r | r in s.rolls ensures RollOk(Append(s.h, e), r) {
      KeepsRollOk(s, e, r);
    }
  }
}
