/** Collection safety and the delta representation invariant, over every run. */
module ContentTheorem {
  import opened Common
  import opened Delta
  import opened Store
  import opened Operations
  import opened Protocol
  import opened ContentSafety
  import opened ContentSteps

  ghost predicate SafeState(c: Codec, s: State) {
    && SafeHistory(c, s.h)
    && (forall p | p in s.pending :: PendingOk(s.h, p))
    && (forall gc | gc in s.gcs :: GcOk(s.h, gc))
  }

  // ---- Running operations keep what they know while others take steps ----

  lemma PendingStable(h: History, e: Event, p: Pending)
    requires WellFormed(h) && NextStamp(h, e.stamp) && PendingOk(h, p)
    requires e.writes.token != PutToken(p.token)
    ensures WellFormed(Append(h, e)) && PendingOk(Append(h, e), p)
  {
    AppendWellFormed(h, e);
  }

  lemma GcStable(h: History, e: Event, gc: Gc)
    requires WellFormed(h) && NextStamp(h, e.stamp) && GcOk(h, gc)
    ensures WellFormed(Append(h, e)) && GcOk(Append(h, e), gc)
  {
    AppendWellFormed(h, e);
    var h' := Append(h, e);
    forall k, x | PageScanned(gc, k) && HeldPage(h', gc.start, k, x) ensures x in gc.refs {
      assert HeldPage(h, gc.start, k, x) by {
        forall n | gc.start <= n < |h.dbs| ensures k in h.dbs[n].pages && h.dbs[n].pages[k] == x {
          assert h'.dbs[n] == h.dbs[n];
        }
      }
    }
    forall x, b | ReferrerScanned(gc, x) && HeldReferrer(h', gc.start, x, b) ensures b in gc.refs {
      assert HeldReferrer(h, gc.start, x, b) by {
        forall n | gc.start <= n < |h.dbs| ensures x in h.dbs[n].referrer && h.dbs[n].referrer[x] == b {
          assert h'.dbs[n] == h.dbs[n];
        }
      }
    }
  }

  lemma TickKeepsHistory(c: Codec, h: History, clock: Version)
    requires SafeHistory(c, h) && h.clock <= clock < MAX_VERSION
    ensures SafeHistory(c, h.(clock := clock))
  {
    TickKeepsDates(h, clock);
    assert AlwaysSafe(c, h.(clock := clock).dbs);
  }

  lemma TickKeepsDates(h: History, clock: Version)
    requires WellFormed(h) && PagesDated(h) && DeltasDated(h) && h.clock <= clock < MAX_VERSION
    ensures WellFormed(h.(clock := clock)) && PagesDated(h.(clock := clock)) && DeltasDated(h.(clock := clock))
  {
    var h' := h.(clock := clock);
    forall k, m | k in Now(h').pages && 0 <= m < |h'.evs| ensures PageDated(h', k, Now(h').pages[k], m) {
      assert PageDated(h, k, Now(h).pages[k], m);
    }
    forall x, m | x in Now(h').content && Now(h').content[x].Delta? && 0 <= m < |h'.evs|
      ensures DeltaDated(h', Now(h'), x, m)
    {
      assert DeltaDated(h, Now(h), x, m);
    }
  }

  lemma TickKeepsGc(h: History, clock: Version, gc: Gc)
    requires WellFormed(h) && GcOk(h, gc) && h.clock <= clock < MAX_VERSION
    ensures GcOk(h.(clock := clock), gc)
  {
    var h' := h.(clock := clock);
    forall k, x | PageScanned(gc, k) && HeldPage(h', gc.start, k, x) ensures x in gc.refs {
      assert HeldPage(h, gc.start, k, x);
    }
    forall x, b | ReferrerScanned(gc, x) && HeldReferrer(h', gc.start, x, b) ensures b in gc.refs {
      assert HeldReferrer(h, gc.start, x, b);
    }
  }

  // ---- Collection steps ----

  lemma ReadPagesOk(h: History, gc: Gc, last: PageKey, refs: set<Hash>)
    requires WellFormed(h) && GcOk(h, gc) && gc.phase.ScanPages?
    requires gc.refs + RefHashes(Now(h).pages, PageBatch(Now(h).pages, gc.phase.pagesTo, last)) <= refs
    ensures GcOk(h, gc.(phase := ScanPages(Some(last)), refs := refs))
  {
    var gc', now := gc.(phase := ScanPages(Some(last)), refs := refs), Now(h);
    forall k, x | PageScanned(gc', k) && HeldPage(h, gc'.start, k, x) ensures x in gc'.refs {
      if !PageScanned(gc, k) {
        assert k in now.pages && now.pages[k] == x;
        assert k in PageBatch(now.pages, gc.phase.pagesTo, last);
        assert x in RefHashes(now.pages, PageBatch(now.pages, gc.phase.pagesTo, last));
      }
    }
  }

  lemma PagesDoneOk(h: History, gc: Gc)
    requires WellFormed(h) && GcOk(h, gc) && gc.phase.ScanPages?
    requires forall k | k in Now(h).pages :: !PageAfter(gc.phase.pagesTo, k)
    ensures GcOk(h, gc.(phase := ScanReferrers(None)))
  {
    var gc' := gc.(phase := ScanReferrers(None));
    forall k, x | HeldPage(h, gc'.start, k, x) ensures x in gc'.refs {
      assert k in Now(h).pages;
      assert PageScanned(gc, k);
    }
  }

  lemma ReadReferrersOk(h: History, gc: Gc, to: Hash, refs: set<Hash>)
    requires WellFormed(h) && GcOk(h, gc) && gc.phase.ScanReferrers?
    requires gc.refs + BaseHashes(Now(h).referrer, gc.phase.referrersTo, to) <= refs
    ensures GcOk(h, gc.(phase := ScanReferrers(Some(to)), refs := refs))
  {
    var gc', now := gc.(phase := ScanReferrers(Some(to)), refs := refs), Now(h);
    forall k, x | PageScanned(gc', k) && HeldPage(h, gc'.start, k, x) ensures x in gc'.refs {
      assert PageScanned(gc, k);
    }
    forall x, b | ReferrerScanned(gc', x) && HeldReferrer(h, gc'.start, x, b) ensures b in gc'.refs {
      if !ReferrerScanned(gc, x) {
        assert x in now.referrer && now.referrer[x] == b;
        assert b in BaseHashes(now.referrer, gc.phase.referrersTo, to);
      }
    }
  }

  lemma ReferrersDoneOk(h: History, gc: Gc)
    requires WellFormed(h) && GcOk(h, gc) && gc.phase.ScanReferrers?
    requires forall x | x in Now(h).referrer :: !HashAfter(gc.phase.referrersTo, x)
    ensures GcOk(h, gc.(phase := Sweep(None)))
  {
    var gc' := gc.(phase := Sweep(None));
    forall k, x | HeldPage(h, gc'.start, k, x) ensures x in gc'.refs {
      assert PageScanned(gc, k);
    }
    forall x, b | HeldReferrer(h, gc'.start, x, b) ensures b in gc'.refs {
      assert x in Now(h).referrer;
      assert ReferrerScanned(gc, x);
    }
  }

  /** Once both scans are over, what they reported no longer depends on the phase. */
  lemma SweepOk(h: History, gc: Gc, phase: GcPhase)
    requires WellFormed(h) && GcOk(h, gc) && (gc.phase.Sweep? || gc.phase.Clearing?)
    requires phase.Sweep? || phase.Clearing?
    requires phase.Clearing? ==>
      && gc.start <= phase.seen <= |h.evs|
      && (forall x | x in phase.queue ::
            x in h.dbs[phase.seen].index && h.dbs[phase.seen].index[x] <= gc.rv && x !in gc.refs)
    ensures GcOk(h, gc.(phase := phase))
  {
    forall k, x | HeldPage(h, gc.start, k, x) ensures x in gc.refs {
      assert PageScanned(gc, k);
    }
    forall x, b | HeldReferrer(h, gc.start, x, b) ensures b in gc.refs {
      assert ReferrerScanned(gc, x);
    }
  }

  lemma CollectionStepOk(h: History, gc: Gc, a: GcAction)
    requires WellFormed(h) && GcOk(h, gc) && CanCollect(h, gc, a)
    ensures GcOk(h, GcAfter(h, gc, a))
  {
    match a
    case ReadPages(last, refs) => ReadPagesOk(h, gc, last, refs);
    case PagesDone => PagesDoneOk(h, gc);
    case ReadReferrers(to, refs) => ReadReferrersOk(h, gc, to, refs);
    case ReferrersDone => ReferrersDoneOk(h, gc);
    case SweepBatch(to, queue) => SweepOk(h, gc, Clearing(queue, |h.evs|, to));
    case ClearBatch(_) => SweepOk(h, gc, Sweep(Some(gc.phase.next)));
    case GiveUp => SweepOk(h, gc, Sweep(Some(gc.phase.next)));
  }

  // ---- Every event respects stored content ----

  lemma CommitRespects(c: Codec, cfg: Config, s: State, a: CommitAction)
    requires ValidCodec(c) && SafeState(c, s) && CanCommit(c, s.h, s.pending, a)
    ensures Respects(c, Now(s.h), CommitEvent(cfg, a).writes)
  {
    match a
    case WritePages(seen, rv, reqs, r, w, _) =>
      WriteRespects(c, s.h, seen, rv, reqs, r, w);
    case CommitOne(seen, rv, g, n, r, w, _) =>
      FewerReads(s.h, seen, JoinReads(PhaseOneReads(c, n, r), PhaseTwoReads(s.h.dbs[seen], g, n)),
        PhaseOneReads(c, n, r));
      PhaseOneRespects(c, s.h, seen, rv, n, r, w);
      IndexingRespects(c, cfg, Now(s.h), g, n, w);
    case CommitFirst(seen, rv, g, n, r, w, token, _) =>
      PhaseOneRespects(c, s.h, seen, rv, n, r, w);
      TokenWriteRespects(c, Now(s.h), w, token);
    case CommitSecond(p, seen, _) =>
      assert PendingOk(s.h, p);
      PhaseTwoRespects(c, cfg, s.h, p, seen, PhaseTwoReads(s.h.dbs[seen], p.g, p.n));
  }

  lemma TokenWriteRespects(c: Codec, db: Db, w: Writes, token: nat)
    requires Respects(c, db, w) && w.drop == {}
    ensures Respects(c, db, w.(token := PutToken(token)))
  {
    var w' := w.(token := PutToken(token));
    forall x | x in w'.setContent ensures GoodBlob(c, db, w', x) {
      assert GoodBlob(c, db, w, x);
    }
  }

  /** Only commits and collections write content. */
  lemma OtherEventRespects(c: Codec, cfg: Config, h: History, a: Action)
    requires h.dbs != [] && !a.Commits? && !a.Collects? && EventOf(cfg, h, a).Some?
    ensures Respects(c, Now(h), EventOf(cfg, h, a).value.writes)
  {
    NothingRespects(c, Now(h), EventOf(cfg, h, a).value.writes);
  }

  lemma CollectEventRespects(c: Codec, cfg: Config, s: State, gc: Gc, a: GcAction)
    requires ValidCodec(c) && SafeState(c, s) && gc in s.gcs && CanCollect(s.h, gc, a) && CollectEvent(gc, a).Some?
    ensures Respects(c, Now(s.h), CollectEvent(gc, a).value.writes)
  {
    ClearRespects(c, s.h, gc);
  }

  lemma EnabledFamily(c: Codec, s: State, a: Action)
    requires s.h.dbs != [] && Enabled(c, s, a)
    ensures a.Commits? ==> CanCommit(c, s.h, s.pending, a.commit)
    ensures a.Collects? ==> a.gc in s.gcs && CanCollect(s.h, a.gc, a.collect)
  {
  }

  lemma FamilyRespects(c: Codec, cfg: Config, s: State, a: Action)
    requires ValidCodec(c) && SafeState(c, s) && EventOf(cfg, s.h, a).Some?
    requires a.Commits? ==> CanCommit(c, s.h, s.pending, a.commit)
    requires a.Collects? ==> a.gc in s.gcs && CanCollect(s.h, a.gc, a.collect)
    ensures Respects(c, Now(s.h), EventOf(cfg, s.h, a).value.writes)
  {
    if a.Commits? {
      CommitRespects(c, cfg, s, a.commit);
    } else if a.Collects? {
      CollectEventRespects(c, cfg, s, a.gc, a.collect);
    } else {
      OtherEventRespects(c, cfg, s.h, a);
    }
  }

  lemma EventRespects(c: Codec, cfg: Config, s: State, a: Action)
    requires ValidCodec(c) && SafeState(c, s) && Enabled(c, s, a) && EventOf(cfg, s.h, a).Some?
    ensures Respects(c, Now(s.h), EventOf(cfg, s.h, a).value.writes)
  {
    EnabledFamily(c, s, a);
    FamilyRespects(c, cfg, s, a);
  }

  // ---- Every step keeps every part of the invariant ----

  lemma StepKeepsHistory(c: Codec, cfg: Config, s: State, a: Action)
    requires ValidCodec(c) && SafeState(c, s) && Enabled(c, s, a)
    ensures SafeHistory(c, HistoryAfter(cfg, s.h, a))
  {
    var e := EventOf(cfg, s.h, a);
    if e.Some? {
      EnabledStamp(c, cfg, s, a);
      EventRespects(c, cfg, s, a);
      RespectingEventKeepsHistory(c, s.h, e.value);
    } else if a.Env? {
      TickKeepsHistory(c, s.h, a.env.clock);
    }
  }

  lemma StepKeepsGc(c: Codec, cfg: Config, s: State, a: Action, gc: Gc)
    requires WellFormed(s.h) && Enabled(c, s, a) && GcOk(s.h, gc)
    ensures WellFormed(HistoryAfter(cfg, s.h, a)) && GcOk(HistoryAfter(cfg, s.h, a), gc)
  {
    var e := EventOf(cfg, s.h, a);
    if e.Some? {
      EnabledStamp(c, cfg, s, a);
      GcStable(s.h, e.value, gc);
    } else if a.Env? {
      TickKeepsGc(s.h, a.env.clock, gc);
    }
  }

  lemma StepKeepsGcs(c: Codec, cfg: Config, s: State, a: Action)
    requires WellFormed(s.h) && Enabled(c, s, a) && forall gc | gc in s.gcs :: GcOk(s.h, gc)
    ensures WellFormed(HistoryAfter(cfg, s.h, a))
    ensures forall gc | gc in GcsAfter(s, a) :: GcOk(HistoryAfter(cfg, s.h, a), gc)
  {
    StepWellFormed(c, cfg, s, a);
    forall gc | gc in GcsAfter(s, a) ensures GcOk(HistoryAfter(cfg, s.h, a), gc) {
      if a.Collects? {
        CollectionStepOk(s.h, a.gc, a.collect);
      }
      assert GcOk(s.h, gc);
      StepKeepsGc(c, cfg, s, a, gc);
    }
  }

  lemma StepKeepsPending(c: Codec, cfg: Config, s: State, a: Action, p: Pending)
    requires WellFormed(s.h) && Enabled(c, s, a) && PendingOk(s.h, p)
    ensures WellFormed(HistoryAfter(cfg, s.h, a)) && PendingOk(HistoryAfter(cfg, s.h, a), p)
  {
    StepWellFormed(c, cfg, s, a);
    var e := EventOf(cfg, s.h, a);
    if e.Some? {
      EnabledStamp(c, cfg, s, a);
      assert e.value.writes.token != PutToken(p.token) by {
        if a.Commits? { CommitTokenFresh(c, cfg, s.h, s.pending, a.commit, p); }
      }
      PendingStable(s.h, e.value, p);
    }
  }

  lemma CommitTokenFresh(c: Codec, cfg: Config, h: History, pending: set<Pending>, a: CommitAction, p: Pending)
    requires WellFormed(h) && CanCommit(c, h, pending, a) && PendingOk(h, p)
    ensures CommitEvent(cfg, a).writes.token != PutToken(p.token)
  {
    match a
    case WritePages(_, _, _, _, _, _) =>
    case CommitOne(_, _, _, _, _, _, _) =>
    case CommitFirst(_, _, _, _, _, _, _, _) => assert h.evs[p.at - 1].writes.token == PutToken(p.token);
    case CommitSecond(_, _, _) =>
  }

  /** The commit that has just finished its first phase. */
  lemma NewPendingOk(c: Codec, cfg: Config, s: State, a: CommitAction)
    requires ValidCodec(c) && SafeState(c, s) && CanCommit(c, s.h, s.pending, a) && a.CommitFirst?
    ensures var h' := Append(s.h, CommitEvent(cfg, a));
      WellFormed(h') && PendingOk(h', Pending(|s.h.evs| + 1, a.token, a.g, a.n))
  {
    var e := CommitEvent(cfg, a);
    AppendWellFormed(s.h, e);
    PhaseOneRespects(c, s.h, a.seen, a.rv, a.n, a.r, a.w);
    var h', p := Append(s.h, e), Pending(|s.h.evs| + 1, a.token, a.g, a.n);
    forall x | x in IndexHashes(a.n.indexWrites) ensures x in h'.dbs[p.at].index {
      assert x in Now(s.h).index || x in a.w.setContent;
    }
  }

  lemma OldPendingsKept(c: Codec, cfg: Config, s: State, a: Action)
    requires WellFormed(s.h) && Enabled(c, s, a) && forall p | p in s.pending :: PendingOk(s.h, p)
    ensures WellFormed(HistoryAfter(cfg, s.h, a))
    ensures forall p | p in s.pending :: PendingOk(HistoryAfter(cfg, s.h, a), p)
  {
    StepWellFormed(c, cfg, s, a);
    forall p | p in s.pending ensures PendingOk(HistoryAfter(cfg, s.h, a), p) {
      StepKeepsPending(c, cfg, s, a, p);
    }
  }

  lemma PendingsChange(s: State, a: Action)
    ensures forall p | p in PendingAfter(s, a) ::
      || p in s.pending
      || (a.Commits? && a.commit.CommitFirst? && p == Pending(|s.h.evs| + 1, a.commit.token, a.commit.g, a.commit.n))
  {
  }

  lemma StepKeepsPendings(c: Codec, cfg: Config, s: State, a: Action)
    requires ValidCodec(c) && SafeState(c, s) && Enabled(c, s, a)
    ensures WellFormed(HistoryAfter(cfg, s.h, a))
    ensures forall p | p in PendingAfter(s, a) :: PendingOk(HistoryAfter(cfg, s.h, a), p)
  {
    OldPendingsKept(c, cfg, s, a);
    PendingsChange(s, a);
    EnabledFamily(c, s, a);
    if a.Commits? && a.commit.CommitFirst? {
      NewPendingOk(c, cfg, s, a.commit);
    }
  }

  lemma StepKeepsSafe(c: Codec, cfg: Config, s: State, a: Action)
    requires ValidCodec(c) && SafeState(c, s) && Enabled(c, s, a)
    ensures SafeState(c, Next(cfg, s, a))
  {
    StepKeepsHistory(c, cfg, s, a);
    StepKeepsPendings(c, cfg, s, a);
    StepKeepsGcs(c, cfg, s, a);
  }

  lemma InitiallySafe(c: Codec)
    ensures SafeState(c, INITIAL)
  {
  }
}
