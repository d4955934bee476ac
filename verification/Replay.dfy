/** Every run without a rollback, replayed on the in-memory reference: no commit panics there, and
    the reference's snapshots are the ones the namespace reads. */
module Replay {
  import opened Common
  import opened Store
  import opened Serializability
  import opened Inmem

  // ---- Reference snapshots ----

  /** Without a commit between two versions their snapshots are one. */
  lemma {:induction false} SnapshotAcrossGap(evs: seq<Event>, u: Version, v: Version)
    requires u <= v && forall i | 0 <= i < |evs| && evs[i].kind.Commit? :: !(u < evs[i].stamp <= v)
    ensures Snapshot(evs, u) == Snapshot(evs, v)
  {
    if evs != [] {
      SnapshotAcrossGap(evs[..|evs| - 1], u, v);
    }
  }

  lemma {:induction false} SnapshotBeforeAll(evs: seq<Event>, v: Version)
    requires forall i | 0 <= i < |evs| && evs[i].kind.Commit? :: v < evs[i].stamp
    ensures Snapshot(evs, v) == map[]
  {
    if evs != [] {
      SnapshotBeforeAll(evs[..|evs| - 1], v);
    }
  }

  /** A page that no commit between two versions wrote reads alike at both. */
  lemma {:induction false} LookupAcrossGap(evs: seq<Event>, u: Version, v: Version, p: PageNo)
    requires u <= v
    requires forall i | 0 <= i < |evs| && evs[i].kind.Commit? && u < evs[i].stamp <= v :: p !in evs[i].writes.setPages
    ensures Lookup(Snapshot(evs, u), p) == Lookup(Snapshot(evs, v), p)
  {
    if evs != [] {
      LookupAcrossGap(evs[..|evs| - 1], u, v, p);
    }
  }

  /** Later events do not change an earlier snapshot. */
  lemma {:induction false} SnapshotOfPrefix(evs: seq<Event>, n: nat, v: Version)
    requires n <= |evs| && forall i | n <= i < |evs| :: v < evs[i].stamp
    ensures Snapshot(evs, v) == Snapshot(evs[..n], v)
  {
    if n < |evs| {
      SnapshotOfPrefix(evs[..|evs| - 1], n, v);
      assert evs[..|evs| - 1][..n] == evs[..n];
    } else {
      assert evs[..n] == evs;
    }
  }

  // ---- The reference mirrors a history ----

  predicate MirroredBy(e: Event, t: TxnInfo, snapshot: map<PageNo, Hash>) {
    e.kind.Commit? && t.writeSet == e.writes.setPages.Keys && t.snapshot == snapshot
  }

  ghost predicate HasCommit(evs: seq<Event>, v: Version) {
    exists i | 0 <= i < |evs| :: evs[i].kind.Commit? && evs[i].stamp == v
  }

  lemma StillHasCommit(evs: seq<Event>, e: Event, v: Version)
    requires HasCommit(evs, v) || (e.kind.Commit? && e.stamp == v)
    ensures HasCommit(evs + [e], v)
  {
    var evs' := evs + [e];
    if HasCommit(evs, v) {
      var i :| 0 <= i < |evs| && evs[i].kind.Commit? && evs[i].stamp == v;
      assert evs'[i] == evs[i];
    } else {
      assert evs'[|evs|] == e;
    }
  }

  ghost predicate Mirrors(versions: map<Version, TxnInfo>, evs: seq<Event>) {
    && (forall i | 0 <= i < |evs| && evs[i].kind.Commit? ::
          evs[i].stamp in versions && MirroredBy(evs[i], versions[evs[i].stamp], Snapshot(evs, evs[i].stamp)))
    && (forall v | v in versions :: HasCommit(evs, v))
  }

  lemma MirrorSnapshot(versions: map<Version, TxnInfo>, evs: seq<Event>, v: Version)
    requires Mirrors(versions, evs)
    ensures SnapshotAt(versions, v) == Snapshot(evs, v)
  {
    match AtOrBelow(versions.Keys, v) {
      case None => SnapshotBeforeAll(evs, v);
      case Some(u) =>
        SnapshotAcrossGap(evs, u, v);
        var i :| 0 <= i < |evs| && evs[i].kind.Commit? && evs[i].stamp == u;
        assert MirroredBy(evs[i], versions[u], Snapshot(evs, u));
    }
  }

  ghost predicate StampsIncrease(evs: seq<Event>) {
    forall i, j | 0 <= i < j < |evs| :: evs[i].stamp < evs[j].stamp
  }

  lemma MirrorOther(versions: map<Version, TxnInfo>, evs: seq<Event>, e: Event)
    requires Mirrors(versions, evs) && !e.kind.Commit?
    ensures Mirrors(versions, evs + [e])
  {
    var evs' := evs + [e];
    forall i | 0 <= i < |evs'| && evs'[i].kind.Commit?
      ensures evs'[i].stamp in versions && MirroredBy(evs'[i], versions[evs'[i].stamp], Snapshot(evs', evs'[i].stamp))
    {
      SnapshotStep(evs, e, evs'[i].stamp);
      assert evs'[i] == evs[i];
    }
    forall v | v in versions ensures HasCommit(evs', v) {
      StillHasCommit(evs, e, v);
    }
  }

  lemma MirrorCommit(versions: map<Version, TxnInfo>, evs: seq<Event>, e: Event, t: TxnInfo)
    requires Mirrors(versions, evs) && MirroredBy(e, t, Snapshot(evs, e.stamp) + e.writes.setPages)
    requires forall i | 0 <= i < |evs| :: evs[i].stamp < e.stamp
    ensures Mirrors(versions[e.stamp := t], evs + [e])
  {
    var evs', versions' := evs + [e], versions[e.stamp := t];
    forall i | 0 <= i < |evs'| && evs'[i].kind.Commit?
      ensures evs'[i].stamp in versions' && MirroredBy(evs'[i], versions'[evs'[i].stamp], Snapshot(evs', evs'[i].stamp))
    {
      SnapshotStep(evs, e, evs'[i].stamp);
      if i < |evs| { assert evs'[i] == evs[i]; }
    }
    forall v | v in versions' ensures HasCommit(evs', v) {
      StillHasCommit(evs, e, v);
    }
  }

  // ---- Replaying one commit ----

  /** What the client of commit `e` read is covered by its page-level check, if that is what it relied on. */
  predicate ReadsChecked(e: Event, readPages: set<PageNo>) {
    e.kind.Commit? && e.kind.info.plcc ==> readPages <= e.kind.info.readSet
  }

  lemma CommitUndisturbed(versions: map<Version, TxnInfo>, evs: seq<Event>, e: Event, readPages: set<PageNo>)
    requires Mirrors(versions, evs) && AllSerial(evs + [e]) && e.kind.Commit? && ReadsChecked(e, readPages)
    ensures Undisturbed(versions, e.kind.info.assumed, e.stamp, readPages)
  {
    var evs' := evs + [e];
    forall v | v in versions && e.kind.info.assumed < v < e.stamp ensures versions[v].writeSet !! readPages {
      var i :| 0 <= i < |evs| && evs[i].kind.Commit? && evs[i].stamp == v;
      assert Serial(evs', i, |evs|) && evs'[i] == evs[i] && evs'[|evs|] == e;
    }
  }

  /** `returned` are pages of the version that commit `e` assumed. */
  predicate TrueReads(evs: seq<Event>, e: Event, returned: map<PageNo, Option<Hash>>) {
    e.kind.Commit? ==> forall p | p in returned :: returned[p] == Lookup(Snapshot(evs, e.kind.info.assumed), p)
  }

  /** The client verifies each page it read: what the namespace returned is what the reference has. */
  method ReplayReads(m: Reference, id: nat, returned: map<PageNo, Option<Hash>>) returns (r: Outcome)
    requires m.Valid() && id in m.inflight && m.inflight[id].readSet == {}
    requires forall p | p in returned :: returned[p] == Lookup(m.inflight[id].snapshot, p)
    modifies m
    ensures r == Fine && m.Valid() && m.versions == old(m.versions)
    ensures id in m.inflight && m.inflight[id] == old(m.inflight)[id].(readSet := returned.Keys)
  {
    var left := returned.Keys;
    ghost var done := {};
    while left != {}
      invariant m.Valid() && m.versions == old(m.versions) && done + left == returned.Keys
      invariant id in m.inflight && m.inflight[id] == old(m.inflight)[id].(readSet := done)
      decreases |left|
    {
      var p :| p in left;
      r := m.VerifyPage(id, p, returned[p]);
      if r != Fine { return; }
      left, done := left - {p}, done + {p};
    }
    return Fine;
  }

  function WroteAll(t: TxnInfo, setPages: map<PageNo, Hash>): TxnInfo {
    t.(snapshot := t.snapshot + setPages, writeSet := t.writeSet + setPages.Keys)
  }

  lemma OneByOne(t: TxnInfo, setPages: map<PageNo, Hash>, p: PageNo)
    requires p in setPages
    ensures var t' := t.(snapshot := t.snapshot[p := setPages[p]], writeSet := t.writeSet + {p});
      WroteAll(t', setPages - {p}) == WroteAll(t, setPages)
    ensures |setPages - {p}| < |setPages|
  {
    OnePage(t.snapshot, setPages, p);
    assert setPages.Keys == {p} + (setPages - {p}).Keys;
  }

  lemma OnePage(a: map<PageNo, Hash>, b: map<PageNo, Hash>, p: PageNo)
    requires p in b
    ensures a[p := b[p]] + (b - {p}) == a + b
  {
    forall q ensures q in a[p := b[p]] + (b - {p}) <==> q in a + b {}
    forall q | q in a + b ensures (a[p := b[p]] + (b - {p}))[q] == (a + b)[q] {}
  }

  method ReplayWrites(m: Reference, id: nat, setPages: map<PageNo, Hash>) returns (r: Outcome)
    requires m.Valid() && id in m.inflight
    modifies m
    ensures r == Fine && m.Valid() && m.versions == old(m.versions) && id in m.inflight
    ensures m.inflight[id] == WroteAll(old(m.inflight)[id], setPages)
    decreases |setPages|
  {
    if setPages == map[] {
      assert m.inflight[id].snapshot + map[] == m.inflight[id].snapshot;
      return Fine;
    }
    var p :| p in setPages;
    OneByOne(m.inflight[id], setPages, p);
    r := m.WritePage(id, p, setPages[p]);
    r := ReplayWrites(m, id, setPages - {p});
  }

  method ReplayCommit(m: Reference, ghost evs: seq<Event>, e: Event, returned: map<PageNo, Option<Hash>>)
    returns (r: Outcome)
    requires m.Valid() && Mirrors(m.versions, evs) && e.kind.Commit?
    requires AllSerial(evs + [e]) && ReadsChecked(e, returned.Keys) && TrueReads(evs, e, returned)
    requires forall i | 0 <= i < |evs| :: evs[i].stamp < e.stamp
    modifies m
    ensures r == Fine && m.Valid() && Mirrors(m.versions, evs + [e])
  {
    var assumed := e.kind.info.assumed;
    var id := m.StartTransaction(assumed);
    MirrorSnapshot(m.versions, evs, assumed);
    r := ReplayReads(m, id, returned);
    r := ReplayWrites(m, id, e.writes.setPages);
    ghost var versions, t := m.versions, m.inflight[id];
    CommitUndisturbed(versions, evs, e, returned.Keys);
    r := m.CommitTransaction(id, e.stamp, assumed);
    MergedSnapshot(versions, evs, e, t);
    MirrorCommit(versions, evs, e, t.(snapshot := Merged(versions, t, e.stamp)));
  }

  lemma MergedSnapshot(versions: map<Version, TxnInfo>, evs: seq<Event>, e: Event, t: TxnInfo)
    requires Mirrors(versions, evs) && e.kind.Commit?
    requires t.snapshot == SnapshotAt(versions, e.kind.info.assumed) + e.writes.setPages
    requires t.writeSet == e.writes.setPages.Keys
    ensures Merged(versions, t, e.stamp) == Snapshot(evs, e.stamp) + e.writes.setPages
  {
    MirrorSnapshot(versions, evs, e.stamp);
    OwnWrites(t, SnapshotAt(versions, e.kind.info.assumed), e.writes.setPages);
  }

  lemma OwnWrites(t: TxnInfo, base: map<PageNo, Hash>, setPages: map<PageNo, Hash>)
    requires t.snapshot == base + setPages && t.writeSet == setPages.Keys
    ensures WritesKnown(t) && (map p | p in t.writeSet :: t.snapshot[p]) == setPages
  {
  }

  method ReplayEvent(m: Reference, evs: seq<Event>, n: nat, returned: map<PageNo, Option<Hash>>) returns (r: Outcome)
    requires n < |evs| && AllSerial(evs) && StampsIncrease(evs) && ReadsChecked(evs[n], returned.Keys)
    requires TrueReads(evs, evs[n], returned)
    requires m.Valid() && Mirrors(m.versions, evs[..n])
    modifies m
    ensures r == Fine && m.Valid() && Mirrors(m.versions, evs[..n + 1])
  {
    assert evs[..n + 1] == evs[..n] + [evs[n]];
    if evs[n].kind.Commit? {
      SerialPrefix(evs, n + 1);
      SnapshotOfPrefix(evs, n, evs[n].kind.info.assumed);
      r := ReplayCommit(m, evs[..n], evs[n], returned);
    } else {
      MirrorOther(m.versions, evs[..n], evs[n]);
      r := Fine;
    }
  }

  /** The whole history, replayed commit by commit. `returned[i]` is what the namespace returned to the client
      of commit `i`, which the reference is asked to verify. */
  method ReplayHistory(evs: seq<Event>, returned: seq<map<PageNo, Option<Hash>>>) returns (m: Reference, r: Outcome)
    requires AllSerial(evs) && StampsIncrease(evs) && |returned| == |evs|
    requires forall i | 0 <= i < |evs| :: ReadsChecked(evs[i], returned[i].Keys) && TrueReads(evs, evs[i], returned[i])
    ensures r == Fine && fresh(m) && m.Valid() && Mirrors(m.versions, evs)
  {
    m := new Reference();
    r := Fine;
    for n := 0 to |evs|
      invariant r == Fine && fresh(m) && m.Valid() && Mirrors(m.versions, evs[..n])
    {
      r := ReplayEvent(m, evs, n, returned[n]);
    }
    assert evs[..|evs|] == evs;
  }

  lemma SerialPrefix(evs: seq<Event>, n: nat)
    requires AllSerial(evs) && n <= |evs|
    ensures AllSerial(evs[..n])
  {
    forall i, j | 0 <= i < j < n ensures Serial(evs[..n], i, j) {
      assert Serial(evs, i, j);
    }
  }
}
