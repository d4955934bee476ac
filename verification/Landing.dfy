/** Optimistic validation: what a transaction checked on its snapshot still holds when it lands. */
module Landing {
  import opened Common
  import opened Delta
  import opened Store
  import opened Operations
  import opened Protocol
  import opened Versions
  import opened PageInvariants
  import opened ContentSteps

  lemma LastWriteUntouched(h: History, seen: nat, r: Reads)
    requires WellFormed(h) && NoConflict(h, seen, r) && r.lastWrite
    ensures Now(h).lastWrite == h.dbs[seen].lastWrite
  {
    var n := seen;
    while n < |h.evs|
      invariant seen <= n <= |h.evs|
      invariant h.dbs[n].lastWrite == h.dbs[seen].lastWrite
    {
      assert !Touches(r, h.evs[n]);
      assert h.dbs[n + 1] == Apply(h.dbs[n], h.evs[n].writes, h.evs[n].stamp);
      n := n + 1;
    }
  }

  lemma PageVersionsPast(h: History, n: nat)
    requires WellFormed(h) && n <= |h.evs|
    ensures forall k | k in h.dbs[n].pages :: n > 0 && k.ver <= h.evs[n - 1].stamp
  {
    if n > 0 {
      PageVersionsPast(h, n - 1);
      assert h.dbs[n] == Apply(h.dbs[n - 1], h.evs[n - 1].writes, h.evs[n - 1].stamp);
    }
  }

  /** A page whose latest version was read non-snapshot has the same latest version at commit time. */
  lemma LatestUntouched(h: History, seen: nat, r: Reads, p: PageNo)
    requires WellFormed(h) && NoConflict(h, seen, r)
    requires PageReadRange(h.dbs[seen].pages, p, MAX_VERSION) in r.pages
    ensures Latest(Now(h).pages, p, MAX_VERSION) == Latest(h.dbs[seen].pages, p, MAX_VERSION)
  {
    var range := PageReadRange(h.dbs[seen].pages, p, MAX_VERSION);
    PageVersionsPast(h, seen);
    var n := seen;
    while n < |h.evs|
      invariant seen <= n <= |h.evs|
      invariant Latest(h.dbs[n].pages, p, MAX_VERSION) == Latest(h.dbs[seen].pages, p, MAX_VERSION)
    {
      var e := h.evs[n];
      assert !Touches(r, e);
      var next := h.dbs[n + 1].pages;
      assert h.dbs[n + 1] == Apply(h.dbs[n], e.writes, e.stamp);
      forall k | InRange(range, k) ensures k in next <==> k in h.dbs[n].pages {
        assert !TouchesPage(e, k);
      }
      var found := Latest(h.dbs[seen].pages, p, MAX_VERSION);
      if found.Some? {
        assert InRange(range, PageKey(p, found.value));
        forall x | found.value < x <= MAX_VERSION ensures PageKey(p, x) !in next {
          assert InRange(range, PageKey(p, x));
        }
        LatestIs(next, p, MAX_VERSION, found.value);
      } else {
        forall x | 0 <= x <= MAX_VERSION ensures PageKey(p, x) !in next {
          assert InRange(range, PageKey(p, x));
        }
        LatestNone(next, p, MAX_VERSION);
      }
      n := n + 1;
    }
  }

  /** The commit checks, made on snapshot `seen`, hold of the state the commit lands on. */
  lemma ChecksLand(h: History, seen: nat, g: Request, n: NsCommit, r: Reads)
    requires WellFormed(h) && NoConflict(h, seen, r)
    requires PhaseTwoVerdict(h.dbs[seen], g, n) == Proceed
    requires var r2 := PhaseTwoReads(h.dbs[seen], g, n);
      r2.pages <= r.pages && (r2.lastWrite ==> r.lastWrite) && r.lock
    ensures Fits(Now(h), InfoOf(g, n))
  {
    LockUntouched(h, seen, r);
    var info := InfoOf(g, n);
    if UsesPlcc(g, n) {
      forall p | p in n.readSet ensures !Later(Latest(Now(h).pages, p, MAX_VERSION), n.assumed) {
        assert PageReadRange(h.dbs[seen].pages, p, MAX_VERSION) in r.pages;
        LatestUntouched(h, seen, r, p);
        assert PageUnchanged(h.dbs[seen], n, p);
      }
    } else {
      LastWriteUntouched(h, seen, r);
    }
  }

  lemma CommitShaped(cfg: Config, g: Request, n: NsCommit, w: Writes, stamp: Version)
    requires ContentOnly(w)
    ensures Shaped(Event(stamp, PhaseTwoWrites(cfg, g, n, w), Commit(InfoOf(g, n))))
  {
  }

  lemma CommitLands(c: Codec, cfg: Config, s: State, a: CommitAction)
    requires WellFormed(s.h) && CanCommit(c, s.h, s.pending, a)
    requires forall p | p in s.pending :: PendingOk(s.h, p)
    ensures Shaped(CommitEvent(cfg, a)) && Lands(s, CommitEvent(cfg, a))
  {
    var h := s.h;
    match a
    case WritePages(_, _, _, _, _, _) =>
    case CommitFirst(_, _, _, _, _, _, _, _) =>
    case CommitOne(seen, rv, g, n, r, w, stamp) =>
      CommitShaped(cfg, g, n, w, stamp);
      ChecksLand(h, seen, g, n, JoinReads(PhaseOneReads(c, n, r), PhaseTwoReads(h.dbs[seen], g, n)));
    case CommitSecond(p, seen, stamp) =>
      CommitShaped(cfg, p.g, p.n, NO_WRITES, stamp);
      ChecksLand(h, seen, p.g, p.n, PhaseTwoReads(h.dbs[seen], p.g, p.n));
      assert PendingOk(h, p);
  }

  lemma TruncateLands(s: State, t: Trunc, a: TruncAction)
    requires PageState(s) && t in s.truncs && CanTruncate(s.h, t, a) && TruncateEvent(t, a).Some?
    ensures var e := TruncateEvent(t, a).value; Shaped(e) && Lands(s, e)
  {
  }

  lemma LockLands(s: State, a: LockAction)
    requires PageState(s) && CanLock(s.h, a)
    ensures var e := LockEvent(s.h, a); Shaped(e) && Lands(s, e)
  {
    match a
    case LockAcquire(seen, _, _, _) =>
      LockUntouched(s.h, seen, NO_READS.(lock := true, lastWrite := true));
      LastWriteUntouched(s.h, seen, NO_READS.(lock := true, lastWrite := true));
    case LockRelease(seen, _, _) => LockUntouched(s.h, seen, NO_READS.(lock := true));
    case RollMark(seen, _, _) => LockUntouched(s.h, seen, NO_READS.(lock := true));
  }

  lemma RollLands(s: State, r: Roll, a: RollAction)
    requires PageState(s) && r in s.rolls && CanRollBack(s.h, r, a) && RollEvent(s.h, r, a).Some?
    ensures var e := RollEvent(s.h, r, a).value; Shaped(e) && Lands(s, e)
  {
    LockUntouched(s.h, a.seen, NO_READS.(lock := true));
    assert RollOk(s.h, r);
  }

  lemma EveryEventLands(c: Codec, cfg: Config, s: State, a: Action)
    requires PageState(s) && Enabled(c, s, a) && EventOf(cfg, s.h, a).Some?
    requires forall p | p in s.pending :: PendingOk(s.h, p)
    ensures var e := EventOf(cfg, s.h, a).value; Shaped(e) && Lands(s, e)
  {
    if a.Commits? {
      CommitLands(c, cfg, s, a.commit);
    } else if a.Truncates? {
      TruncateLands(s, a.t, a.trunc);
    } else if a.Locks? {
      LockLands(s, a.lock);
    } else if a.Rolls? {
      RollLands(s, a.roll, a.roller);
    }
  }
}
