/** Committed results are serializable, reads return reference snapshots, and a retried request
    commits at most once: in every run without a lock rollback. */
module Serializability {
  import opened Common
  import opened Delta
  import opened Store
  import opened Operations
  import opened Protocol
  import opened Versions
  import opened PageInvariants
  import opened PageSteps
  import opened PageTheorem
  import opened Landing
  import opened ContentSteps

  // ---- The reference: commits applied one after the other ----

  /** The pages after the commits stamped at or below `v`. */
  function Snapshot(evs: seq<Event>, v: Version): map<PageNo, Hash> {
    if evs == [] then map[]
    else
      var e := evs[|evs| - 1];
      var rest := Snapshot(evs[..|evs| - 1], v);
      if e.kind.Commit? && e.stamp <= v then rest + e.writes.setPages else rest
  }

  function Lookup(m: map<PageNo, Hash>, i: PageNo): Option<Hash> {
    if i in m then Some(m[i]) else None
  }

  ghost predicate NoRollback(evs: seq<Event>) {
    forall i | 0 <= i < |evs| :: !evs[i].kind.RollBatch? && !evs[i].kind.RollFinish?
  }

  // ---- Invariants ----

  /** The last write version is that of some commit, and no commit is later. */
  ghost predicate LastWriteIsLast(h: History)
    requires h.dbs != []
  {
    var lw := Now(h).lastWrite;
    && (forall i | 0 <= i < |h.evs| && h.evs[i].kind.Commit? :: lw.Some? && h.evs[i].stamp <= lw.value.ver)
    && (lw.Some? ==> exists i | 0 <= i < |h.evs| ::
          h.evs[i].kind.Commit? && h.evs[i].stamp == lw.value.ver && h.evs[i].kind.info.token == lw.value.token)
  }

  /** Truncation never removes the last version of a page. */
  ghost predicate LastVersionStays(h: History)
    requires h.dbs != []
  {
    forall i, p | 0 <= i < |h.evs| && p in h.evs[i].writes.setPages ::
      var u := Latest(Now(h).pages, p, MAX_VERSION); u.Some? && h.evs[i].stamp <= u.value
  }

  /** Every untruncated read returns the reference snapshot's page. */
  ghost predicate ReadsSnapshot(h: History, bound: Version)
    requires h.dbs != []
  {
    forall p, v {:trigger ReadPage(Now(h).pages, p, v)} | bound <= v ::
      ReadPage(Now(h).pages, p, v) == Lookup(Snapshot(h.evs, v), p)
  }

  /** Nothing that commit `j` depends on was written between the version it assumed and its own:
      no page it read, and no page at all unless it was checked page by page. */
  ghost predicate Serial(evs: seq<Event>, i: nat, j: nat)
    requires i < |evs| && j < |evs|
  {
    i < j && evs[i].kind.Commit? && evs[j].kind.Commit? && evs[j].kind.info.assumed < evs[i].stamp ==>
      evs[j].kind.info.plcc && evs[i].writes.setPages.Keys !! evs[j].kind.info.readSet
  }

  ghost predicate AllSerial(evs: seq<Event>) {
    && (forall i, j | 0 <= i < j < |evs| :: Serial(evs, i, j))
    && (forall j | 0 <= j < |evs| && evs[j].kind.Commit? :: evs[j].kind.info.assumed < evs[j].stamp)
  }

  ghost predicate SerialState(s: State) {
    s.h.dbs != [] &&
    (NoRollback(s.h.evs) ==>
       && LastWriteIsLast(s.h) && LastVersionStays(s.h) && ReadsSnapshot(s.h, s.bound) && AllSerial(s.h.evs))
  }

  // ---- One event ----

  lemma SnapshotStep(evs: seq<Event>, e: Event, v: Version)
    ensures Snapshot(evs + [e], v) ==
      if e.kind.Commit? && e.stamp <= v then Snapshot(evs, v) + e.writes.setPages else Snapshot(evs, v)
  {
    assert (evs + [e])[..|evs|] == evs;
  }

  /** A commit is the newest version of each page it writes, and leaves other reads alone. */
  lemma CommitRead(db: Db, e: Event, p: PageNo, v: Version)
    requires e.writes.clearPages == {} && (forall k | k in db.pages :: k.ver < e.stamp)
    ensures ReadPage(Apply(db, e.writes, e.stamp).pages, p, v) ==
      if e.stamp <= v && p in e.writes.setPages then Some(e.writes.setPages[p]) else ReadPage(db.pages, p, v)
    ensures e.stamp <= v && p in e.writes.setPages ==> Latest(Apply(db, e.writes, e.stamp).pages, p, v) == Some(e.stamp)
  {
    var pages' := Apply(db, e.writes, e.stamp).pages;
    if e.stamp <= v && p in e.writes.setPages {
      LatestIs(pages', p, v, e.stamp);
    } else {
      LatestAgrees(pages', db.pages, p, v);
    }
  }

  lemma TruncateRead(s: State, e: Event, p: PageNo, v: Version)
    requires PageState(s) && Shaped(e) && Lands(s, e) && e.kind.Truncate? && EventBound(e, s.bound) <= v
    ensures Latest(Apply(Now(s.h), e.writes, e.stamp).pages, p, v) == Latest(Now(s.h).pages, p, v)
    ensures ReadPage(Apply(Now(s.h), e.writes, e.stamp).pages, p, v) == ReadPage(Now(s.h).pages, p, v)
  {
    var t :| t in s.truncs && t.before == e.kind.before && t.phase.Deleting? && t.phase.doomed == e.writes.clearPages;
    PagesOnlyShrink(Now(s.h), e);
    TruncationKeepsLatest(Now(s.h).pages, e.writes.clearPages, EventBound(e, s.bound), p, v);
  }

  /** Every event but a rollback's leaves each read at or above the truncation point as it was, or
      as the commit made it. */
  lemma EventRead(s: State, e: Event, p: PageNo, v: Version)
    requires PageState(s) && NextStamp(s.h, e.stamp) && Shaped(e) && Lands(s, e)
    requires !e.kind.RollBatch? && EventBound(e, s.bound) <= v
    ensures ReadPage(Apply(Now(s.h), e.writes, e.stamp).pages, p, v) ==
      if e.kind.Commit? && e.stamp <= v && p in e.writes.setPages then Some(e.writes.setPages[p])
        else ReadPage(Now(s.h).pages, p, v)
  {
    if e.kind.Truncate? {
      TruncateRead(s, e, p, v);
    } else {
      assert e.writes.clearPages == {};
      CommitRead(Now(s.h), e, p, v);
    }
  }

  lemma KeepsReadAt(s: State, e: Event, p: PageNo, v: Version)
    requires PageState(s) && NextStamp(s.h, e.stamp) && Shaped(e) && Lands(s, e)
    requires !e.kind.RollBatch? && EventBound(e, s.bound) <= v
    requires ReadPage(Now(s.h).pages, p, v) == Lookup(Snapshot(s.h.evs, v), p)
    ensures ReadPage(Apply(Now(s.h), e.writes, e.stamp).pages, p, v) == Lookup(Snapshot(s.h.evs + [e], v), p)
  {
    EventRead(s, e, p, v);
    SnapshotStep(s.h.evs, e, v);
  }

  lemma KeepsReadsSnapshot(s: State, e: Event)
    requires PageState(s) && NextStamp(s.h, e.stamp) && Shaped(e) && Lands(s, e)
    requires !e.kind.RollBatch? && ReadsSnapshot(s.h, s.bound)
    ensures ReadsSnapshot(Append(s.h, e), EventBound(e, s.bound))
  {
    var h' := Append(s.h, e);
    forall p, v | EventBound(e, s.bound) <= v ensures ReadPage(Now(h').pages, p, v) == Lookup(Snapshot(h'.evs, v), p) {
      assert ReadPage(Now(s.h).pages, p, v) == Lookup(Snapshot(s.h.evs, v), p);
      KeepsReadAt(s, e, p, v);
    }
  }

  lemma EventLatest(s: State, e: Event, p: PageNo)
    requires PageState(s) && NextStamp(s.h, e.stamp) && Shaped(e) && Lands(s, e) && !e.kind.RollBatch?
    ensures var u, u' := Latest(Now(s.h).pages, p, MAX_VERSION),
      Latest(Apply(Now(s.h), e.writes, e.stamp).pages, p, MAX_VERSION);
      if p in e.writes.setPages then u' == Some(e.stamp) else u' == u
  {
    if e.kind.Truncate? {
      TruncateRead(s, e, p, MAX_VERSION);
    } else {
      assert e.writes.clearPages == {};
      CommitRead(Now(s.h), e, p, MAX_VERSION);
      if p !in e.writes.setPages {
        LatestAgrees(Apply(Now(s.h), e.writes, e.stamp).pages, Now(s.h).pages, p, MAX_VERSION);
      }
    }
  }

  lemma KeepsLastVersion(s: State, e: Event)
    requires PageState(s) && NextStamp(s.h, e.stamp) && Shaped(e) && Lands(s, e) && !e.kind.RollBatch?
    requires LastVersionStays(s.h)
    ensures LastVersionStays(Append(s.h, e))
  {
    var h' := Append(s.h, e);
    forall i, p | 0 <= i < |h'.evs| && p in h'.evs[i].writes.setPages
      ensures var u := Latest(Now(h').pages, p, MAX_VERSION); u.Some? && h'.evs[i].stamp <= u.value
    {
      EventLatest(s, e, p);
      if i < |s.h.evs| { assert h'.evs[i] == s.h.evs[i]; }
    }
  }

  lemma KeepsLastWrite(h: History, e: Event)
    requires WellFormed(h) && NextStamp(h, e.stamp) && Shaped(e) && !e.kind.RollFinish? && LastWriteIsLast(h)
    ensures LastWriteIsLast(Append(h, e))
  {
    var h' := Append(h, e);
    var lw := Now(h).lastWrite;
    assert forall i | 0 <= i < |h.evs| :: h'.evs[i] == h.evs[i];
    if e.kind.Commit? {
      assert h'.evs[|h.evs|] == e && Now(h').lastWrite == Some(LastWrite(e.kind.info.token, e.stamp));
    } else {
      assert Now(h').lastWrite == lw;
      if lw.Some? {
        var i :| 0 <= i < |h.evs| && h.evs[i].kind.Commit? && h.evs[i].stamp == lw.value.ver
          && h.evs[i].kind.info.token == lw.value.token;
        assert h'.evs[i] == h.evs[i];
      }
    }
  }

  /** The new commit is serial after every earlier one. */
  lemma NewCommitSerial(s: State, e: Event, i: nat)
    requires PageState(s) && Shaped(e) && Lands(s, e) && e.kind.Commit? && i < |s.h.evs|
    requires LastWriteIsLast(s.h) && LastVersionStays(s.h)
    ensures Serial(s.h.evs + [e], i, |s.h.evs|)
  {
    var info, first := e.kind.info, s.h.evs[i];
    if first.kind.Commit? && info.assumed < first.stamp {
      assert info.plcc;
      forall p | p in first.writes.setPages ensures p !in info.readSet {
        assert Latest(Now(s.h).pages, p, MAX_VERSION).Some?;
      }
    }
  }

  lemma KeepsSerial(s: State, e: Event)
    requires PageState(s) && NextStamp(s.h, e.stamp) && Shaped(e) && Lands(s, e)
    requires LastWriteIsLast(s.h) && LastVersionStays(s.h) && AllSerial(s.h.evs)
    ensures AllSerial(s.h.evs + [e])
  {
    var evs, n := s.h.evs + [e], |s.h.evs|;
    forall i, j | 0 <= i < j < |evs| ensures Serial(evs, i, j) {
      if j < n {
        assert Serial(s.h.evs, i, j);
      } else if e.kind.Commit? {
        NewCommitSerial(s, e, i);
      }
    }
  }

  lemma EventKeepsSerialState(s: State, e: Event)
    requires PageState(s) && NextStamp(s.h, e.stamp) && Shaped(e) && Lands(s, e) && SerialState(s)
    ensures SerialState(s.(h := Append(s.h, e), bound := EventBound(e, s.bound)))
  {
    var evs' := s.h.evs + [e];
    if NoRollback(evs') {
      assert evs'[|s.h.evs|] == e;
      assert NoRollback(s.h.evs) by {
        assert forall i | 0 <= i < |s.h.evs| :: evs'[i] == s.h.evs[i];
      }
      KeepsLastWrite(s.h, e);
      KeepsLastVersion(s, e);
      KeepsReadsSnapshot(s, e);
      KeepsSerial(s, e);
    }
  }

  // ---- Every step ----

  lemma StepKeepsSerialState(c: Codec, cfg: Config, s: State, a: Action)
    requires PageState(s) && Enabled(c, s, a) && SerialState(s)
    requires forall p | p in s.pending :: PendingOk(s.h, p)
    ensures SerialState(Next(cfg, s, a))
  {
    StepKeepsSerialHistory(c, cfg, s, a);
    SerialStateOnHistory(Next(cfg, s, a), s.(h := HistoryAfter(cfg, s.h, a), bound := BoundAfter(s, a)));
  }

  lemma StepKeepsSerialHistory(c: Codec, cfg: Config, s: State, a: Action)
    requires PageState(s) && Enabled(c, s, a) && SerialState(s)
    requires forall p | p in s.pending :: PendingOk(s.h, p)
    ensures SerialState(s.(h := HistoryAfter(cfg, s.h, a), bound := BoundAfter(s, a)))
  {
    var e := EventOf(cfg, s.h, a);
    if e.Some? {
      EnabledStamp(c, cfg, s, a);
      EveryEventLands(c, cfg, s, a);
      EventKeepsSerialState(s, e.value);
      AfterEvent(cfg, s, a);
    } else if a.Env? {
      SerialStateOnHistory(s.(h := HistoryAfter(cfg, s.h, a), bound := BoundAfter(s, a)), s);
    } else {
      AfterNothing(cfg, s, a);
    }
  }

  lemma SerialStateOnHistory(s: State, t: State)
    requires SerialState(t) && s.h.dbs == t.h.dbs && s.h.evs == t.h.evs && s.bound == t.bound
    ensures SerialState(s)
  {
  }

  lemma SoundStepIsSerial(c: Codec, cfg: Config, s: State, a: Action)
    requires Sound(c, s) && Enabled(c, s, a) && SerialState(s)
    ensures SerialState(Next(cfg, s, a))
  {
    StepKeepsSerialState(c, cfg, s, a);
  }

  lemma InitiallySerial()
    ensures SerialState(INITIAL)
  {
    forall p, v | 0 <= v ensures ReadPage(map[], p, v) == Lookup(Snapshot([], v), p) {
      LatestNone(map[], p, v);
    }
  }
}
