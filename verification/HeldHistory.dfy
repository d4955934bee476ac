/** What the store held at each version when it was reached. It is what commits and finished rollbacks make,
    exactly if no rollback is cut off after it has changed a page. (mvstore/src/nslock.rs) */
module HeldHistory {
  import opened Common
  import opened Delta
  import opened Store
  import opened Operations
  import opened Protocol
  import opened Versions
  import opened PageInvariants
  import opened PageSteps
  import opened ContentSteps
  import opened Landing
  import opened Serializability
  import opened Rollback
  import opened LiveHistory
  import opened Replay

  // ---- What the store held ----

  /** How many events are stamped at or below `v`. */
  function Reached(evs: seq<Event>, v: Version): (k: nat)
    ensures k <= |evs|
  {
    if evs == [] then 0 else if evs[|evs| - 1].stamp <= v then |evs| else Reached(evs[..|evs| - 1], v)
  }

  /** What a read of `p` at `v` returned right after the last event at or below `v`. */
  function Held(h: History, v: Version, p: PageNo): Option<Hash> {
    ReadPage(PagesWhenReached(h, v), p, v)
  }

  function PagesWhenReached(h: History, v: Version): map<PageKey, Hash> {
    if Reached(h.evs, v) < |h.dbs| then h.dbs[Reached(h.evs, v)].pages else map[]
  }

  function Newest(db: Db, p: PageNo): Option<Hash> {
    ReadPage(db.pages, p, MAX_VERSION)
  }

  ghost predicate SameReads(a: Db, b: Db) {
    forall p :: Newest(a, p) == Newest(b, p)
  }

  predicate RollingBack(db: Db) {
    db.lock.Some? && db.lock.value.rollingBack
  }

  // ---- Rollbacks that are cut off ----

  /** Event `i` releases a lock, keeping what was committed under it, while it is being rolled back. */
  predicate CutOff(h: History, i: nat) {
    i < |h.evs| && i < |h.dbs| && h.evs[i].kind.Release? && RollingBack(h.dbs[i])
  }

  /** Event `m` marked the lock that is held before event `i`. */
  predicate MarkOf(evs: seq<Event>, m: nat, i: nat) {
    m < i <= |evs| && evs[m].kind.Mark? && forall j | m < j < i :: evs[j].writes.lock.KeepLock?
  }

  /** If event `i` cuts a rollback off, then before that has changed any page. */
  ghost predicate HarmlessAt(h: History, i: nat)
    requires i < |h.evs| < |h.dbs|
  {
    CutOff(h, i) ==>
      forall m: nat {:trigger MarkOf(h.evs, m, i)} | MarkOf(h.evs, m, i) :: SameReads(h.dbs[m], h.dbs[i])
  }

  ghost predicate Harmless(h: History)
    requires |h.dbs| == |h.evs| + 1
  {
    forall i: nat {:trigger HarmlessAt(h, i)} | i < |h.evs| :: HarmlessAt(h, i)
  }

  /** The store has what commits and finished rollbacks make. */
  ghost predicate AgreesOn(db: Db, evs: seq<Event>) {
    forall p {:trigger Newest(db, p)} :: Newest(db, p) == Lookup(Live(evs, MAX_VERSION), p)
  }

  ghost predicate AgreesNow(h: History)
    requires h.dbs != []
  {
    AgreesOn(Now(h), h.evs)
  }

  /** So it is after `k` events. */
  ghost predicate AgreesAt(h: History, k: nat)
    requires k <= |h.evs| && |h.dbs| == |h.evs| + 1
  {
    AgreesOn(h.dbs[k], h.evs[..k])
  }

  /** The same, unless a rollback is in progress. */
  ghost predicate SettledAt(h: History, k: nat)
    requires k <= |h.evs| && |h.dbs| == |h.evs| + 1
  {
    !RollingBack(h.dbs[k]) ==> AgreesAt(h, k)
  }

  ghost predicate Settled(h: History)
    requires |h.dbs| == |h.evs| + 1
  {
    forall k: nat {:trigger SettledAt(h, k)} | k <= |h.evs| :: SettledAt(h, k)
  }

  // ---- Invariants ----

  /** A rollback in progress was marked, and nothing has been committed or rolled back since. */
  ghost predicate MarkKnown(h: History)
    requires |h.dbs| == |h.evs| + 1
  {
    RollingBack(Now(h)) ==> exists m: nat :: MarkedBy(h, m)
  }

  ghost predicate MarkedBy(h: History, m: nat)
    requires |h.dbs| == |h.evs| + 1
  {
    && MarkOf(h.evs, m, |h.evs|) && !RollingBack(h.dbs[m])
    && Live(h.evs, MAX_VERSION) == Live(h.evs[..m], MAX_VERSION)
  }

  /** At the version that a held lock would go back to, the store has what it should. */
  ghost predicate SnapshotHeld(h: History)
    requires h.dbs != []
  {
    Now(h).lock.Some? ==>
      forall p {:trigger ReadPage(Now(h).pages, p, Now(h).lock.value.snapshot)} ::
        ReadPage(Now(h).pages, p, Now(h).lock.value.snapshot)
          == Lookup(Live(h.evs, Now(h).lock.value.snapshot), p)
  }

  /** Commits are made while nothing is being rolled back, and only their versions are logged. */
  ghost predicate CommitsKnown(h: History)
    requires |h.dbs| == |h.evs| + 1
  {
    && (forall i | 0 <= i < |h.evs| && h.evs[i].kind.Commit? :: !RollingBack(h.dbs[i + 1]))
    && (forall v | v in Now(h).changelog :: HasCommit(h.evs, v))
  }

  ghost predicate HeldState(h: History) {
    && |h.dbs| == |h.evs| + 1
    && (Settled(h) <==> Harmless(h)) && (Harmless(h) ==> SnapshotHeld(h))
    && MarkKnown(h) && CommitsKnown(h)
    && (NoRollback(h.evs) ==> AgreesAlways(h))
  }

  // ---- The past stays ----

  /** `h'` has one event more. */
  ghost predicate OneMore(h: History, h': History) {
    && |h.dbs| == |h.evs| + 1 && |h'.dbs| == |h'.evs| + 1 && |h'.evs| == |h.evs| + 1
    && h'.evs[..|h.evs|] == h.evs && h'.dbs[..|h.dbs|] == h.dbs
  }

  lemma AppendIsOneMore(h: History, e: Event)
    requires |h.dbs| == |h.evs| + 1
    ensures OneMore(h, Append(h, e))
  {
  }

  lemma AgreesAtStays(h: History, h': History, k: nat)
    requires OneMore(h, h') && k <= |h.evs|
    ensures AgreesAt(h, k) <==> AgreesAt(h', k)
    ensures SettledAt(h, k) <==> SettledAt(h', k)
  {
    assert h'.dbs[k] == h'.dbs[..|h.dbs|][k] && h'.evs[..k] == h'.evs[..|h.evs|][..k];
  }

  lemma SettledStep(h: History, h': History)
    requires OneMore(h, h')
    ensures Settled(h') <==> Settled(h) && SettledAt(h', |h'.evs|)
  {
    forall k: nat | k <= |h.evs| ensures SettledAt(h, k) <==> SettledAt(h', k) {
      AgreesAtStays(h, h', k);
    }
    if Settled(h') {
      forall k: nat | k <= |h.evs| ensures SettledAt(h, k) {
        assert SettledAt(h', k);
      }
    }
  }

  lemma MarkOfStays(evs: seq<Event>, evs': seq<Event>, m: nat, i: nat)
    requires |evs| <= |evs'| && evs'[..|evs|] == evs && i <= |evs|
    ensures MarkOf(evs', m, i) <==> MarkOf(evs, m, i)
  {
    assert forall j | 0 <= j < |evs| :: evs'[j] == evs'[..|evs|][j];
  }

  lemma HarmlessAtStays(h: History, h': History, i: nat)
    requires OneMore(h, h') && i < |h.evs|
    ensures HarmlessAt(h, i) <==> HarmlessAt(h', i)
  {
    assert forall m: nat | m < |h.dbs| :: h'.dbs[m] == h'.dbs[..|h.dbs|][m];
    assert h'.evs[i] == h'.evs[..|h.evs|][i];
    assert CutOff(h, i) <==> CutOff(h', i);
    forall m: nat ensures MarkOf(h.evs, m, i) <==> MarkOf(h'.evs, m, i) {
      MarkOfStays(h.evs, h'.evs, m, i);
    }
  }

  lemma HarmlessStep(h: History, h': History)
    requires OneMore(h, h')
    ensures Harmless(h') <==> Harmless(h) && HarmlessAt(h', |h.evs|)
  {
    forall i: nat | i < |h.evs| ensures HarmlessAt(h, i) <==> HarmlessAt(h', i) {
      HarmlessAtStays(h, h', i);
    }
    if Harmless(h') {
      forall i: nat | i < |h.evs| ensures HarmlessAt(h, i) {
        assert HarmlessAt(h', i);
      }
    }
  }

  lemma OneMark(evs: seq<Event>, m: nat, m': nat, i: nat)
    requires MarkOf(evs, m, i) && MarkOf(evs, m', i) && i <= |evs|
    requires forall j | 0 <= j < |evs| :: Shaped(evs[j])
    ensures m == m'
  {
  }

  // ---- One event ----

  /** What an event other than a rollback's makes of the newest page, and of the record. */
  lemma NewestStep(s: State, e: Event, p: PageNo)
    requires PageState(s) && NextStamp(s.h, e.stamp) && Shaped(e) && Lands(s, e)
    requires !e.kind.RollBatch? && !e.kind.RollFinish?
    requires Newest(Now(s.h), p) == Lookup(Live(s.h.evs, MAX_VERSION), p)
    ensures Newest(Apply(Now(s.h), e.writes, e.stamp), p) == Lookup(Live(s.h.evs + [e], MAX_VERSION), p)
  {
    EventRead(s, e, p, MAX_VERSION);
    LiveStep(s.h.evs, e, MAX_VERSION);
  }

  lemma AgreesNext(s: State, e: Event)
    requires PageState(s) && NextStamp(s.h, e.stamp) && Shaped(e) && Lands(s, e)
    requires !e.kind.RollBatch? && !e.kind.RollFinish? && AgreesNow(s.h)
    ensures AgreesNow(Append(s.h, e))
  {
    var h' := Append(s.h, e);
    forall p ensures Newest(Now(h'), p) == Lookup(Live(h'.evs, MAX_VERSION), p) {
      assert Newest(Now(s.h), p) == Lookup(Live(s.h.evs, MAX_VERSION), p);
      NewestStep(s, e, p);
    }
  }

  lemma NowIsLastMoment(h: History)
    requires |h.dbs| == |h.evs| + 1
    ensures AgreesNow(h) <==> AgreesAt(h, |h.evs|)
    ensures SettledAt(h, |h.evs|) <==> (!RollingBack(Now(h)) ==> AgreesNow(h))
  {
    assert h.evs[..|h.evs|] == h.evs && h.dbs[|h.evs|] == Now(h);
  }

  /** A rollback that ends has left nothing above its snapshot. */
  lemma FinishLeavesNothing(s: State, e: Event)
    requires PageState(s) && Shaped(e) && Lands(s, e) && e.kind.RollFinish?
    ensures Now(s.h).lock.Some? && e.kind.snapshot == Now(s.h).lock.value.snapshot <= s.h.clock
    ensures forall k | k in Now(s.h).pages :: k.ver <= e.kind.snapshot
  {
    RollbackIsOfLock(s, e);
    var r :| r in s.rolls && r.nonce == e.kind.nonce && HoldsNonce(Now(s.h), r.nonce)
      && r.snapshot == e.kind.snapshot && r.done;
    assert RollOk(s.h, r);
    assert forall k | k in Now(s.h).pages :: RolledPast(r, k);
  }

  /** So it ends with exactly what the snapshot had. */
  lemma FinishAgrees(h: History, e: Event)
    requires h.dbs != [] && SnapshotHeld(h) && e.kind.RollFinish? && Shaped(e) && e.stamp <= MAX_VERSION
    requires Now(h).lock.Some? && e.kind.snapshot == Now(h).lock.value.snapshot < e.stamp
    requires forall k | k in Now(h).pages :: k.ver <= e.kind.snapshot
    ensures AgreesNow(Append(h, e))
  {
    var h', snapshot := Append(h, e), e.kind.snapshot;
    assert Now(h').pages == Now(h).pages;
    LiveStep(h.evs, e, MAX_VERSION);
    forall p ensures Newest(Now(h'), p) == Lookup(Live(h'.evs, MAX_VERSION), p) {
      assert ReadPage(Now(h).pages, p, snapshot) == Lookup(Live(h.evs, snapshot), p);
      NothingAbove(Now(h).pages, p, snapshot);
    }
  }

  lemma NothingAbove(pages: map<PageKey, Hash>, p: PageNo, v: Version)
    requires v <= MAX_VERSION && forall k | k in pages :: k.ver <= v
    ensures ReadPage(pages, p, v) == ReadPage(pages, p, MAX_VERSION)
  {
    LatestAcrossGap(pages, p, v, MAX_VERSION);
  }

  // ---- Steps of the invariants ----

  /** Nothing but a release or the end of the rollback takes a mark away. */
  lemma MarkGoes(s: State, e: Event)
    requires PageState(s) && Shaped(e) && Lands(s, e) && RollingBack(Now(s.h))
    requires !RollingBack(Apply(Now(s.h), e.writes, e.stamp))
    ensures e.kind.Release? || e.kind.RollFinish?
  {
  }

  /** While the mark is there, nothing is committed. */
  lemma MarkStays(s: State, e: Event)
    requires PageState(s) && Shaped(e) && Lands(s, e) && RollingBack(Now(s.h))
    requires RollingBack(Apply(Now(s.h), e.writes, e.stamp))
    ensures e.writes.lock.KeepLock? && !e.kind.Commit? && !e.kind.RollFinish?
  {
  }

  /** A rollback clears pages only of a lock that is marked. */
  lemma BatchIsMarked(s: State, e: Event)
    requires PageState(s) && Shaped(e) && Lands(s, e) && e.kind.RollBatch?
    ensures RollingBack(Now(s.h)) && RollingBack(Apply(Now(s.h), e.writes, e.stamp))
  {
    var r :| r in s.rolls && HoldsNonce(Now(s.h), r.nonce) && r.snapshot == e.kind.snapshot;
    assert RollOk(s.h, r);
  }

  lemma StaysMarkedBy(h: History, e: Event, m: nat)
    requires |h.dbs| == |h.evs| + 1 && MarkedBy(h, m)
    requires e.writes.lock.KeepLock? && !e.kind.Commit? && !e.kind.RollFinish?
    ensures MarkedBy(Append(h, e), m)
  {
    var h' := Append(h, e);
    LiveStep(h.evs, e, MAX_VERSION);
    assert h'.evs[..m] == h.evs[..m] && h'.dbs[m] == h.dbs[m];
    assert forall j | m <= j < |h.evs| :: h'.evs[j] == h.evs[j];
  }

  lemma NewlyMarkedBy(h: History, e: Event)
    requires |h.dbs| == |h.evs| + 1 && e.kind.Mark? && !RollingBack(Now(h))
    ensures MarkedBy(Append(h, e), |h.evs|)
  {
    var h', n := Append(h, e), |h.evs|;
    LiveStep(h.evs, e, MAX_VERSION);
    assert h'.evs[n] == e && h'.dbs[n] == Now(h) && h'.evs[..n] == h.evs;
  }

  lemma OnlyMarkMarks(s: State, e: Event)
    requires PageState(s) && Shaped(e) && Lands(s, e) && !RollingBack(Now(s.h))
    requires RollingBack(Apply(Now(s.h), e.writes, e.stamp))
    ensures e.kind.Mark?
  {
  }

  lemma KeepsMarkKnown(s: State, e: Event)
    requires PageState(s) && Shaped(e) && Lands(s, e) && MarkKnown(s.h)
    ensures MarkKnown(Append(s.h, e))
  {
    if RollingBack(Apply(Now(s.h), e.writes, e.stamp)) {
      if RollingBack(Now(s.h)) {
        MarkStays(s, e);
        var m: nat :| MarkedBy(s.h, m);
        StaysMarkedBy(s.h, e, m);
      } else {
        OnlyMarkMarks(s, e);
        NewlyMarkedBy(s.h, e);
      }
    }
  }

  lemma KeepsSnapshotHeldAt(s: State, e: Event, p: PageNo)
    requires PageState(s) && NextStamp(s.h, e.stamp) && Shaped(e) && Lands(s, e) && Now(s.h).lock.Some?
    requires SnapshotHeld(s.h)
    ensures var v := Now(s.h).lock.value.snapshot;
      ReadPage(Apply(Now(s.h), e.writes, e.stamp).pages, p, v) == Lookup(Live(s.h.evs + [e], v), p)
  {
    var v := Now(s.h).lock.value.snapshot;
    assert ReadPage(Now(s.h).pages, p, v) == Lookup(Live(s.h.evs, v), p);
    EventKeepsSnapshotRead(s, e, p);
    LiveStep(s.h.evs, e, v);
  }

  /** The newest pages are those of the version that a lock would be taken on. */
  lemma NewestIsLast(h: History, p: PageNo)
    requires WellFormed(h) && AgreesNow(h) && NowIsLast(h) && PagesBelowLastWrite(Now(h)) && Dated(Now(h), h.clock)
    ensures var v := SnapshotOf(Now(h)); ReadPage(Now(h).pages, p, v) == Lookup(Live(h.evs, v), p)
  {
    var v := SnapshotOf(Now(h));
    assert Newest(Now(h), p) == Lookup(Live(h.evs, MAX_VERSION), p);
    NothingAbove(Now(h).pages, p, v);
    if Now(h).lastWrite.None? { LiveBeforeAll(h.evs); }
  }

  lemma TakenOnNewest(s: State, e: Event, p: PageNo)
    requires PageState(s) && NextStamp(s.h, e.stamp) && Shaped(e) && Lands(s, e) && e.kind.Acquire?
    requires AgreesNow(s.h) && NowIsLast(s.h)
    ensures var v := e.writes.lock.lock.value.snapshot;
      ReadPage(Apply(Now(s.h), e.writes, e.stamp).pages, p, v) == Lookup(Live(s.h.evs + [e], v), p)
  {
    NewestIsLast(s.h, p);
    PagesUntouched(Now(s.h), e.writes, e.stamp);
    LiveAtOld(s.h.evs, e, SnapshotOf(Now(s.h)));
  }

  lemma PagesUntouched(db: Db, w: Writes, stamp: Version)
    requires w.clearPages == {} && w.setPages == map[]
    ensures Apply(db, w, stamp).pages == db.pages
  {
  }

  lemma LiveAtOld(evs: seq<Event>, e: Event, v: Version)
    requires v < e.stamp
    ensures Live(evs + [e], v) == Live(evs, v)
  {
    LiveStep(evs, e, v);
  }

  /** No event is stamped zero. */
  lemma {:induction false} LiveBeforeAll(evs: seq<Event>)
    requires forall i | 0 <= i < |evs| :: 0 < evs[i].stamp
    ensures Live(evs, 0) == map[]
  {
    if evs != [] { LiveBeforeAll(evs[..|evs| - 1]); }
  }

  lemma KeepsSnapshotHeld(s: State, e: Event)
    requires PageState(s) && NextStamp(s.h, e.stamp) && Shaped(e) && Lands(s, e)
    requires SnapshotHeld(s.h) && NowIsLast(s.h) && (!RollingBack(Now(s.h)) ==> AgreesNow(s.h))
    ensures SnapshotHeld(Append(s.h, e))
  {
    var h' := Append(s.h, e);
    if Now(h').lock.Some? {
      NewEnds(s, e);
      var v := Now(h').lock.value.snapshot;
      forall p ensures ReadPage(Now(h').pages, p, v) == Lookup(Live(h'.evs, v), p) {
        if e.kind.Acquire? { TakenOnNewest(s, e, p); } else { KeepsSnapshotHeldAt(s, e, p); }
      }
    }
  }

  lemma KeepsCommitsKnown(s: State, e: Event)
    requires PageState(s) && Shaped(e) && Lands(s, e) && CommitsKnown(s.h)
    ensures CommitsKnown(Append(s.h, e))
  {
    var h, h' := s.h, Append(s.h, e);
    forall i | 0 <= i < |h'.evs| && h'.evs[i].kind.Commit? ensures !RollingBack(h'.dbs[i + 1]) {
      if i < |h.evs| { assert h'.evs[i] == h.evs[i] && h'.dbs[i + 1] == h.dbs[i + 1]; }
    }
    forall v | v in Now(h').changelog ensures HasCommit(h'.evs, v) {
      StillHasCommit(h.evs, e, v);
    }
  }

  // ---- What a cut-off means ----

  /** At the event that cuts a rollback off, the store agrees afterwards exactly if the rollback had not
      changed anything. */
  lemma CutOffExactly(h: History, e: Event)
    requires WellFormed(h) && (forall i | 0 <= i < |h.evs| :: Shaped(h.evs[i])) && Shaped(e)
    requires MarkKnown(h) && Settled(h) && e.kind.Release? && RollingBack(Now(h))
    ensures AgreesNow(Append(h, e)) <==> HarmlessAt(Append(h, e), |h.evs|)
  {
    var m: nat :| MarkedBy(h, m);
    ReleaseKeepsPages(h, e);
    assert SettledAt(h, m) && AgreesAt(h, m);
    CutOffAt(h, e, m);
    AppendIsOneMore(h, e);
    HarmlessIs(h, Append(h, e), m);
  }

  lemma HarmlessIs(h: History, h': History, m: nat)
    requires OneMore(h, h') && MarkedBy(h, m) && h'.evs[|h.evs|].kind.Release? && RollingBack(Now(h))
    requires forall i | 0 <= i < |h.evs| :: Shaped(h.evs[i])
    ensures HarmlessAt(h', |h.evs|) <==> SameReads(h.dbs[m], Now(h))
  {
    var n := |h.evs|;
    assert h'.dbs[n] == h'.dbs[..n + 1][n] && h'.dbs[m] == h'.dbs[..n + 1][m] && CutOff(h', n);
    MarkOfStays(h.evs, h'.evs, m, n);
    forall m': nat | MarkOf(h'.evs, m', n) ensures m' == m {
      MarkOfStays(h.evs, h'.evs, m', n);
      OneMark(h.evs, m, m', n);
    }
  }

  lemma ReleaseKeepsPages(h: History, e: Event)
    requires h.dbs != [] && Shaped(e) && e.kind.Release?
    ensures Now(Append(h, e)).pages == Now(h).pages
    ensures Live(h.evs + [e], MAX_VERSION) == Live(h.evs, MAX_VERSION)
  {
    PagesUntouched(Now(h), e.writes, e.stamp);
    LiveStep(h.evs, e, MAX_VERSION);
  }

  lemma CutOffAt(h: History, e: Event, m: nat)
    requires |h.dbs| == |h.evs| + 1 && MarkedBy(h, m) && AgreesAt(h, m)
    requires Now(Append(h, e)).pages == Now(h).pages && Live(h.evs + [e], MAX_VERSION) == Live(h.evs, MAX_VERSION)
    ensures AgreesNow(Append(h, e)) <==> SameReads(h.dbs[m], Now(h))
  {
    var h' := Append(h, e);
    forall p ensures
      Newest(Now(h'), p) == Lookup(Live(h'.evs, MAX_VERSION), p) <==> Newest(h.dbs[m], p) == Newest(Now(h), p)
    {
      assert Newest(h.dbs[m], p) == Lookup(Live(h.evs[..m], MAX_VERSION), p);
    }
  }

  // ---- All together ----

  ghost predicate SettlesIffHarmless(h: History, h': History)
    requires OneMore(h, h')
  {
    (!RollingBack(Now(h')) ==> AgreesNow(h')) <==> HarmlessAt(h', |h.evs|)
  }

  lemma CutOffSettles(h: History, e: Event)
    requires WellFormed(h) && (forall i | 0 <= i < |h.evs| :: Shaped(h.evs[i])) && Shaped(e)
    requires MarkKnown(h) && Settled(h) && e.kind.Release? && RollingBack(Now(h)) && OneMore(h, Append(h, e))
    ensures SettlesIffHarmless(h, Append(h, e))
  {
    ReleaseUnlocks(Now(h), e);
    CutOffExactly(h, e);
  }

  lemma OtherSettles(s: State, e: Event)
    requires PageState(s) && NextStamp(s.h, e.stamp) && Shaped(e) && Lands(s, e) && OneMore(s.h, Append(s.h, e))
    requires Settled(s.h) && SnapshotHeld(s.h) && !(e.kind.Release? && RollingBack(Now(s.h)))
    ensures SettlesIffHarmless(s.h, Append(s.h, e))
  {
    NotCutOff(s.h, e);
    if !RollingBack(Apply(Now(s.h), e.writes, e.stamp)) { AgreesAfter(s, e); }
  }

  /** Whether the store agrees after an event, if it did before. */
  lemma SettlesExactly(s: State, e: Event)
    requires PageState(s) && NextStamp(s.h, e.stamp) && Shaped(e) && Lands(s, e) && OneMore(s.h, Append(s.h, e))
    requires Settled(s.h) && MarkKnown(s.h) && SnapshotHeld(s.h)
    ensures SettlesIffHarmless(s.h, Append(s.h, e))
  {
    if e.kind.Release? && RollingBack(Now(s.h)) { CutOffSettles(s.h, e); } else { OtherSettles(s, e); }
  }

  lemma ReleaseUnlocks(db: Db, e: Event)
    requires Shaped(e) && e.kind.Release?
    ensures !RollingBack(Apply(db, e.writes, e.stamp))
  {
  }

  lemma NotCutOff(h: History, e: Event)
    requires |h.dbs| == |h.evs| + 1 && !(e.kind.Release? && RollingBack(Now(h)))
    ensures HarmlessAt(Append(h, e), |h.evs|)
  {
    var h', n := Append(h, e), |h.evs|;
    assert h'.evs[n] == e && h'.dbs[n] == Now(h);
  }

  lemma AgreesAfter(s: State, e: Event)
    requires PageState(s) && NextStamp(s.h, e.stamp) && Shaped(e) && Lands(s, e)
    requires Settled(s.h) && SnapshotHeld(s.h) && !(e.kind.Release? && RollingBack(Now(s.h)))
    requires !RollingBack(Apply(Now(s.h), e.writes, e.stamp))
    ensures AgreesNow(Append(s.h, e))
  {
    if e.kind.RollFinish? {
      FinishLeavesNothing(s, e);
      FinishAgrees(s.h, e);
    } else {
      if RollingBack(Now(s.h)) { MarkGoes(s, e); assert false; }
      if e.kind.RollBatch? { BatchIsMarked(s, e); assert false; }
      NowIsLastMoment(s.h);
      assert SettledAt(s.h, |s.h.evs|);
      AgreesNext(s, e);
    }
  }

  /** After every number of events, whether or not a lock is marked. */
  ghost predicate AgreesAlways(h: History)
    requires |h.dbs| == |h.evs| + 1
  {
    forall k: nat {:trigger AgreesAt(h, k)} | k <= |h.evs| :: AgreesAt(h, k)
  }

  lemma AgreesAlwaysStep(h: History, h': History)
    requires OneMore(h, h') && AgreesAlways(h) && AgreesNow(h')
    ensures AgreesAlways(h')
  {
    NowIsLastMoment(h');
    forall k: nat | k <= |h.evs| ensures AgreesAt(h', k) {
      AgreesAtStays(h, h', k);
    }
  }

  lemma NoRollbackBefore(evs: seq<Event>, e: Event)
    requires NoRollback(evs + [e])
    ensures NoRollback(evs) && !e.kind.RollBatch? && !e.kind.RollFinish?
  {
    var evs' := evs + [e];
    assert evs'[|evs|] == e && forall i | 0 <= i < |evs| :: evs'[i] == evs[i];
  }

  lemma KeepsUnrolled(s: State, e: Event)
    requires PageState(s) && NextStamp(s.h, e.stamp) && Shaped(e) && Lands(s, e)
    requires !e.kind.RollBatch? && !e.kind.RollFinish? && AgreesAlways(s.h)
    ensures AgreesAlways(Append(s.h, e))
  {
    assert AgreesAt(s.h, |s.h.evs|);
    NowIsLastMoment(s.h);
    AgreesNext(s, e);
    AppendIsOneMore(s.h, e);
    AgreesAlwaysStep(s.h, Append(s.h, e));
  }

  lemma EventKeepsHeldState(s: State, e: Event)
    requires PageState(s) && NextStamp(s.h, e.stamp) && Shaped(e) && Lands(s, e) && HeldState(s.h) && NowIsLast(s.h)
    ensures HeldState(Append(s.h, e))
  {
    var h, h' := s.h, Append(s.h, e);
    AppendIsOneMore(h, e);
    SettledStep(h, h');
    HarmlessStep(h, h');
    NowIsLastMoment(h');
    KeepsMarkKnown(s, e);
    KeepsCommitsKnown(s, e);
    if Harmless(h) {
      SettlesExactly(s, e);
      NowIsLastMoment(h);
      assert SettledAt(h, |h.evs|);
      KeepsSnapshotHeld(s, e);
    }
    if NoRollback(h'.evs) {
      NoRollbackBefore(h.evs, e);
      KeepsUnrolled(s, e);
    }
  }

  lemma TickKeepsAgreement(h: History, clock: Version)
    requires |h.dbs| == |h.evs| + 1
    ensures var h' := h.(clock := clock); (Settled(h') <==> Settled(h)) && (AgreesAlways(h') <==> AgreesAlways(h))
  {
    var h' := h.(clock := clock);
    forall k: nat | k <= |h.evs|
      ensures (AgreesAt(h', k) <==> AgreesAt(h, k)) && (SettledAt(h', k) <==> SettledAt(h, k))
    {
    }
  }

  lemma TickKeepsHarmless(h: History, clock: Version)
    requires |h.dbs| == |h.evs| + 1
    ensures Harmless(h.(clock := clock)) <==> Harmless(h)
  {
    forall i: nat | i < |h.evs| ensures HarmlessAt(h.(clock := clock), i) <==> HarmlessAt(h, i) {}
  }

  lemma TickKeepsMark(h: History, clock: Version)
    requires |h.dbs| == |h.evs| + 1 && MarkKnown(h)
    ensures MarkKnown(h.(clock := clock))
  {
    if RollingBack(Now(h)) {
      var m: nat :| MarkedBy(h, m);
      assert MarkedBy(h.(clock := clock), m);
    }
  }

  lemma TickKeepsSnapshot(h: History, clock: Version)
    requires |h.dbs| == |h.evs| + 1
    ensures SnapshotHeld(h.(clock := clock)) <==> SnapshotHeld(h)
    ensures CommitsKnown(h.(clock := clock)) <==> CommitsKnown(h)
  {
  }

  lemma TickKeepsHeldState(h: History, clock: Version)
    requires HeldState(h)
    ensures HeldState(h.(clock := clock))
  {
    TickKeepsAgreement(h, clock);
    TickKeepsHarmless(h, clock);
    TickKeepsMark(h, clock);
    TickKeepsSnapshot(h, clock);
  }

  lemma StepKeepsHeldState(c: Codec, cfg: Config, s: State, a: Action)
    requires PageState(s) && Enabled(c, s, a) && HeldState(s.h) && NowIsLast(s.h)
    requires forall p | p in s.pending :: PendingOk(s.h, p)
    ensures HeldState(HistoryAfter(cfg, s.h, a))
  {
    var e := EventOf(cfg, s.h, a);
    if e.Some? {
      EnabledStamp(c, cfg, s, a);
      EveryEventLands(c, cfg, s, a);
      EventKeepsHeldState(s, e.value);
      AfterEvent(cfg, s, a);
    } else if a.Env? {
      TickKeepsHeldState(s.h, a.env.clock);
    } else {
      AfterNothing(cfg, s, a);
    }
  }

  lemma InitiallyHeld()
    ensures HeldState(NEW_HISTORY)
  {
    assert NEW_HISTORY.evs[..0] == [];
  }

  // ---- Any version ----

  lemma {:induction false} ReachedSplits(evs: seq<Event>, v: Version)
    requires forall i, j | 0 <= i < j < |evs| :: evs[i].stamp < evs[j].stamp
    ensures forall i | 0 <= i < Reached(evs, v) :: evs[i].stamp <= v
    ensures forall i | Reached(evs, v) <= i < |evs| :: v < evs[i].stamp
  {
    if evs != [] { ReachedSplits(evs[..|evs| - 1], v); }
  }

  /** From the last event on, the record does not depend on the version. */
  lemma {:induction false} LiveLate(evs: seq<Event>, v: Version, w: Version)
    requires v <= w && forall i | 0 <= i < |evs| :: evs[i].stamp <= v
    ensures Live(evs, v) == Live(evs, w)
  {
    if evs != [] { LiveLate(evs[..|evs| - 1], v, w); }
  }

  lemma {:induction false} PagesStamped(h: History, k: nat, v: Version)
    requires WellFormed(h) && k <= |h.evs| && forall i | 0 <= i < k :: h.evs[i].stamp <= v
    ensures forall x | x in h.dbs[k].pages :: x.ver <= v
  {
    if k > 0 {
      PagesStamped(h, k - 1, v);
      assert h.dbs[k] == Apply(h.dbs[k - 1], h.evs[k - 1].writes, h.evs[k - 1].stamp);
    }
  }

  /** What the store held at `v` is the newest at that moment, and the record at `v` is that of the moment. */
  lemma HeldThen(h: History, v: Version, p: PageNo)
    requires WellFormed(h) && v <= MAX_VERSION
    ensures var k := Reached(h.evs, v);
      Held(h, v, p) == Newest(h.dbs[k], p) && Live(h.evs, v) == Live(h.evs[..k], MAX_VERSION)
  {
    var k := Reached(h.evs, v);
    ReachedSplits(h.evs, v);
    PagesStamped(h, k, v);
    NothingAbove(h.dbs[k].pages, p, v);
    LiveOfPrefix(h.evs, k, v);
    LiveLate(h.evs[..k], v, MAX_VERSION);
  }

  lemma HeldIsLive(h: History, v: Version, p: PageNo)
    requires WellFormed(h) && v <= MAX_VERSION && AgreesAt(h, Reached(h.evs, v))
    ensures Held(h, v, p) == Lookup(Live(h.evs, v), p)
  {
    HeldThen(h, v, p);
  }

  /** The version at which `k` events have happened. */
  lemma MomentOf(h: History, k: nat) returns (v: Version)
    requires WellFormed(h) && k <= |h.evs|
    ensures Reached(h.evs, v) == k && v <= MAX_VERSION
  {
    if k > 0 {
      v := h.evs[k - 1].stamp;
      ReachedAt(h, k - 1);
    } else {
      v := 0;
      ReachedSplits(h.evs, 0);
      if h.evs != [] { assert 0 < h.evs[0].stamp; }
    }
  }

  /** At every version not reached in the middle of a rollback, the store held what commits and finished
      rollbacks make. */
  ghost predicate HoldsRecord(h: History)
    requires |h.dbs| == |h.evs| + 1
  {
    forall v: Version, p {:trigger Held(h, v, p)} | v <= MAX_VERSION && !RollingBack(h.dbs[Reached(h.evs, v)]) ::
      Held(h, v, p) == Lookup(Live(h.evs, v), p)
  }

  lemma SettledIsHeld(h: History)
    requires WellFormed(h)
    ensures HoldsRecord(h) <==> Settled(h)
  {
    if Settled(h) {
      forall v: Version, p | v <= MAX_VERSION && !RollingBack(h.dbs[Reached(h.evs, v)])
        ensures Held(h, v, p) == Lookup(Live(h.evs, v), p)
      {
        assert SettledAt(h, Reached(h.evs, v));
        HeldIsLive(h, v, p);
      }
    }
    if HoldsRecord(h) {
      forall k: nat | k <= |h.evs| ensures SettledAt(h, k) {
        HeldSettles(h, k);
      }
    }
  }

  lemma HeldSettles(h: History, k: nat)
    requires WellFormed(h) && HoldsRecord(h) && k <= |h.evs|
    ensures SettledAt(h, k)
  {
    if !RollingBack(h.dbs[k]) {
      var v := MomentOf(h, k);
      forall p ensures Newest(h.dbs[k], p) == Lookup(Live(h.evs[..k], MAX_VERSION), p) {
        HeldThen(h, v, p);
        assert Held(h, v, p) == Lookup(Live(h.evs, v), p);
      }
    }
  }

  lemma ReachedAt(h: History, i: nat)
    requires WellFormed(h) && i < |h.evs|
    ensures Reached(h.evs, h.evs[i].stamp) == i + 1
  {
    ReachedSplits(h.evs, h.evs[i].stamp);
    if i + 1 < |h.evs| { assert h.evs[i].stamp < h.evs[i + 1].stamp; }
  }

  /** In a run in which no rollback is cut off too late, the store held at every logged version what commits
      and finished rollbacks make. */
  lemma LoggedIsLive(h: History, v: Version, p: PageNo)
    requires WellFormed(h) && HeldState(h) && Harmless(h) && v in Now(h).changelog
    ensures Held(h, v, p) == Lookup(Live(h.evs, v), p)
  {
    var i :| 0 <= i < |h.evs| && h.evs[i].kind.Commit? && h.evs[i].stamp == v;
    CommitIsLive(h, i, p);
  }

  lemma CommitIsLive(h: History, i: nat, p: PageNo)
    requires WellFormed(h) && HeldState(h) && Harmless(h) && i < |h.evs| && h.evs[i].kind.Commit?
    ensures Held(h, h.evs[i].stamp, p) == Lookup(Live(h.evs, h.evs[i].stamp), p)
  {
    CommitAgrees(h, i);
    ReachedAt(h, i);
    HeldIsLive(h, h.evs[i].stamp, p);
  }

  lemma CommitAgrees(h: History, i: nat)
    requires HeldState(h) && Harmless(h) && i < |h.evs| && h.evs[i].kind.Commit?
    ensures AgreesAt(h, i + 1)
  {
    assert SettledAt(h, i + 1) && !RollingBack(h.dbs[i + 1]);
  }
}
