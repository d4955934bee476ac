/** What a client takes for granted about the server holds in every run in which no rollback was cut off that had
    changed something. */
module ServerPromises {
  import opened Common
  import opened Octets
  import opened Delta
  import opened Store
  import opened Operations
  import opened Protocol
  import opened PageInvariants
  import opened Serializability
  import opened LiveHistory
  import opened HeldHistory
  import opened Changelog
  import opened Replay
  import opened Runs
  import Client
  import opened IdealClient

  /** The pages that the store held at version `v` when it was reached, each hash turned into its page. */
  function PagesAt(h: History, page: Hash -> Client.Page, v: Version): map<PageNo, Client.Page> {
    map k | k in PagesWhenReached(h, v) && Held(h, v, k.idx).Some? :: k.idx := page(Held(h, v, k.idx).value)
  }

  lemma FoundPage(h: History, page: Hash -> Client.Page, v: Version, p: PageNo)
    ensures Client.Find(PagesAt(h, page, v), p) ==
      (var x := Held(h, v, p); if x.Some? then Some(page(x.value)) else None)
  {
    var x := Held(h, v, p);
    if x.Some? {
      var u := Latest(PagesWhenReached(h, v), p, v).value;
      assert PageKey(p, u) in PagesWhenReached(h, v) && PageKey(p, u).idx == p;
    }
  }

  // ---- Snapshots do not change once they are past ----

  lemma {:induction false} ReachedStays(evs: seq<Event>, n: nat, v: Version)
    requires n <= |evs| && forall i | n <= i < |evs| :: v < evs[i].stamp
    ensures Reached(evs, v) == Reached(evs[..n], v)
  {
    if n < |evs| {
      ReachedStays(evs[..|evs| - 1], n, v);
      assert evs[..|evs| - 1][..n] == evs[..n];
    } else {
      assert evs[..n] == evs;
    }
  }

  lemma PagesStay(h: History, h': History, page: Hash -> Client.Page, v: Version)
    requires GoesOn(h, h') && |h.dbs| == |h.evs| + 1 && v <= h.clock
    ensures PagesAt(h', page, v) == PagesAt(h, page, v)
  {
    ReachedStays(h'.evs, |h.evs|, v);
    assert h'.evs[..|h.evs|] == h.evs;
    assert PagesWhenReached(h', v) == PagesWhenReached(h, v);
    forall p ensures Held(h', v, p) == Held(h, v, p) {}
  }

  /** What is known of a run's history. */
  ghost predicate Ready(h: History) {
    WellFormed(h) && LogState(h) && Dated(Now(h), h.clock) && HeldState(h) && Harmless(h)
  }

  // ---- Stat ----

  /** Of two snapshots, the first has the pages written, and others differ only where it says so. */
  ghost predicate KeptBy(
      at: map<PageNo, Client.Page>, before: map<PageNo, Client.Page>, writes: map<PageNo, Client.Page>,
      changed: Option<set<PageNo>>) {
    && (forall p | p in writes :: Client.Find(at, p) == Some(writes[p]))
    && (changed.Some? ==>
          forall p {:trigger Client.Find(at, p)} | p !in changed.value && p !in writes ::
            Client.Find(at, p) == Client.Find(before, p))
  }

  lemma StatKeptNow(
      h: History, log: map<Version, seq<Octet>>, from: Version, to: Version, scanSize: nat, maxSize: nat,
      page: Hash -> Client.Page, p: PageNo)
    requires Ready(h) && Stores(log, Now(h).changelog)
    requires var r := Interval(log, from, to, true, scanSize, maxSize); r.Some? && p !in r.value
    ensures Client.Find(PagesAt(h, page, to), p) == Client.Find(PagesAt(h, page, from), p)
  {
    IntervalTellsHeld(h, log, from, to, true, scanSize, maxSize, p);
    FoundPage(h, page, from, p);
    FoundPage(h, page, to, p);
  }

  /** An interval's ends are in the past. */
  lemma IntervalIsPast(
      h: History, log: map<Version, seq<Octet>>, from: Version, to: Version, inclusive: bool, scanSize: nat,
      maxSize: nat)
    requires h.dbs != [] && Dated(Now(h), h.clock) && Stores(log, Now(h).changelog) && from != to
    requires Interval(log, from, to, inclusive, scanSize, maxSize).Some?
    ensures from <= h.clock && to <= h.clock
  {
    assert from in Now(h).changelog && to in Now(h).changelog;
  }

  lemma StatKeptLater(
      h: History, h': History, log: map<Version, seq<Octet>>, from: Version, to: Version, scanSize: nat, maxSize: nat,
      page: Hash -> Client.Page)
    requires Ready(h) && Stores(log, Now(h).changelog) && GoesOn(h, h')
    ensures Client.StatOk(v => PagesAt(h', page, v), Some(from),
                          Client.Stat(to, Interval(log, from, to, true, scanSize, maxSize)))
  {
    if Interval(log, from, to, true, scanSize, maxSize).Some? && from != to {
      IntervalIsPast(h, log, from, to, true, scanSize, maxSize);
      StatKeptForAll(h, log, from, to, scanSize, maxSize, page);
      PagesStay(h, h', page, from);
      PagesStay(h, h', page, to);
    }
  }

  lemma StatKeptForAll(
      h: History, log: map<Version, seq<Octet>>, from: Version, to: Version, scanSize: nat, maxSize: nat,
      page: Hash -> Client.Page)
    requires Ready(h) && Stores(log, Now(h).changelog) && Interval(log, from, to, true, scanSize, maxSize).Some?
    ensures KeptBy(PagesAt(h, page, to), PagesAt(h, page, from), map[],
                   Interval(log, from, to, true, scanSize, maxSize))
  {
    var r := Interval(log, from, to, true, scanSize, maxSize);
    forall p | p !in r.value ensures Client.Find(PagesAt(h, page, to), p) == Client.Find(PagesAt(h, page, from), p) {
      StatKeptNow(h, log, from, to, scanSize, maxSize, page, p);
    }
  }

  lemma ReadyToPromise(c: Codec, cfg: Config, states: seq<State>, actions: seq<Action>, n: nat)
    requires ValidCodec(c) && IsRun(c, cfg, states, actions) && n < |states|
    requires |states[n].h.dbs| == |states[n].h.evs| + 1 && Harmless(states[n].h)
    ensures Ready(states[n].h)
  {
    EveryRunIsGood(c, cfg, states, actions, n);
  }

  /** The interval that `/stat` returns at moment `n` is right about the snapshots as they are at any later
      moment `m`, so a client may rely on it for good. */
  lemma StatIsKept(
      c: Codec, cfg: Config, states: seq<State>, actions: seq<Action>, n: nat, m: nat,
      log: map<Version, seq<Octet>>, from: Version, to: Version, scanSize: nat, maxSize: nat, page: Hash -> Client.Page)
    requires ValidCodec(c) && IsRun(c, cfg, states, actions) && n <= m < |states|
    requires |states[n].h.dbs| == |states[n].h.evs| + 1 && Harmless(states[n].h)
    requires Stores(log, Now(states[n].h).changelog)
    ensures Client.StatOk(v => PagesAt(states[m].h, page, v), Some(from),
                          Client.Stat(to, Interval(log, from, to, true, scanSize, maxSize)))
  {
    ReadyToPromise(c, cfg, states, actions, n);
    RunGoesOn(c, cfg, states, actions, n, m);
    StatKeptLater(states[n].h, states[m].h, log, from, to, scanSize, maxSize, page);
  }

  // ---- Commit ----

  /** A commit's own version has the pages it wrote. */
  lemma CommittedPages(h: History, j: nat, p: PageNo)
    requires Ready(h) && j < |h.evs| && h.evs[j].kind.Commit? && p in h.evs[j].writes.setPages
    ensures Held(h, h.evs[j].stamp, p) == Some(h.evs[j].writes.setPages[p])
  {
    CommitIsLive(h, j, p);
    LiveOfCommit(h, j, p);
  }

  lemma LiveOfCommit(h: History, j: nat, p: PageNo)
    requires WellFormed(h) && j < |h.evs| && h.evs[j].kind.Commit? && p in h.evs[j].writes.setPages
    ensures Lookup(Live(h.evs, h.evs[j].stamp), p) == Some(h.evs[j].writes.setPages[p])
  {
    LiveOfPrefix(h.evs, j + 1, h.evs[j].stamp);
    assert h.evs[..j + 1] == h.evs[..j] + [h.evs[j]];
    LiveStep(h.evs[..j], h.evs[j], h.evs[j].stamp);
  }

  lemma OneEventPerStamp(h: History, i: nat, j: nat)
    requires WellFormed(h) && i < |h.evs| && j < |h.evs| && h.evs[i].stamp == h.evs[j].stamp
    ensures i == j
  {
  }

  function Written(e: Event, page: Hash -> Client.Page): map<PageNo, Client.Page> {
    map p | p in e.writes.setPages :: page(e.writes.setPages[p])
  }

  lemma WrittenFound(h: History, j: nat, page: Hash -> Client.Page, p: PageNo)
    requires Ready(h) && j < |h.evs| && h.evs[j].kind.Commit? && p in Written(h.evs[j], page)
    ensures Client.Find(PagesAt(h, page, h.evs[j].stamp), p) == Some(Written(h.evs[j], page)[p])
  {
    CommittedPages(h, j, p);
    FoundPage(h, page, h.evs[j].stamp, p);
  }

  lemma OthersUnchanged(
      h: History, j: nat, log: map<Version, seq<Octet>>, scanSize: nat, maxSize: nat, page: Hash -> Client.Page,
      p: PageNo)
    requires Ready(h) && Stores(log, Now(h).changelog) && j < |h.evs| && h.evs[j].kind.Commit?
    requires var r := Interval(log, h.evs[j].kind.info.assumed, h.evs[j].stamp, false, scanSize, maxSize);
      r.Some? && p !in r.value && p !in h.evs[j].writes.setPages
    ensures Client.Find(PagesAt(h, page, h.evs[j].stamp), p) ==
      Client.Find(PagesAt(h, page, h.evs[j].kind.info.assumed), p)
  {
    var e := h.evs[j];
    forall i | 0 <= i < |h.evs| && h.evs[i].stamp == e.stamp ensures p !in h.evs[i].writes.setPages {
      OneEventPerStamp(h, i, j);
    }
    IntervalTellsHeld(h, log, e.kind.info.assumed, e.stamp, false, scanSize, maxSize, p);
    FoundPage(h, page, e.kind.info.assumed, p);
    FoundPage(h, page, e.stamp, p);
  }

  lemma CommitKeptNow(
      h: History, j: nat, log: map<Version, seq<Octet>>, scanSize: nat, maxSize: nat, page: Hash -> Client.Page)
    requires Ready(h) && Stores(log, Now(h).changelog) && j < |h.evs| && h.evs[j].kind.Commit?
    ensures var e := h.evs[j];
      KeptBy(PagesAt(h, page, e.stamp), PagesAt(h, page, e.kind.info.assumed), Written(e, page),
             Interval(log, e.kind.info.assumed, e.stamp, false, scanSize, maxSize))
  {
    var e := h.evs[j];
    var r := Interval(log, e.kind.info.assumed, e.stamp, false, scanSize, maxSize);
    forall p | p in Written(e, page) ensures Client.Find(PagesAt(h, page, e.stamp), p) == Some(Written(e, page)[p]) {
      WrittenFound(h, j, page, p);
    }
    if r.Some? {
      forall p | p !in r.value && p !in Written(e, page)
        ensures Client.Find(PagesAt(h, page, e.stamp), p) == Client.Find(PagesAt(h, page, e.kind.info.assumed), p)
      {
        OthersUnchanged(h, j, log, scanSize, maxSize, page, p);
      }
    }
  }

  lemma CommitKeptLater(
      h: History, h': History, j: nat, log: map<Version, seq<Octet>>, scanSize: nat, maxSize: nat,
      page: Hash -> Client.Page)
    requires Ready(h) && Stores(log, Now(h).changelog) && GoesOn(h, h')
    requires j < |h.evs| && h.evs[j].kind.Commit? && h.evs[j].kind.info.assumed < h.evs[j].stamp
    ensures var e := h.evs[j];
      Client.CommitOk(v => PagesAt(h', page, v), e.kind.info.assumed, Written(e, page),
                      Client.Committed(e.stamp, Interval(log, e.kind.info.assumed, e.stamp, false, scanSize, maxSize)))
  {
    CommitKeptNow(h, j, log, scanSize, maxSize, page);
    PagesStay(h, h', page, h.evs[j].stamp);
    PagesStay(h, h', page, h.evs[j].kind.info.assumed);
  }

  /** The version and changelog that commit `j` returns at moment `n` are right about the snapshots as they
      are at any later moment `m`. */
  lemma CommitIsKept(
      c: Codec, cfg: Config, states: seq<State>, actions: seq<Action>, n: nat, m: nat, j: nat,
      log: map<Version, seq<Octet>>, scanSize: nat, maxSize: nat, page: Hash -> Client.Page)
    requires ValidCodec(c) && IsRun(c, cfg, states, actions) && n <= m < |states|
    requires |states[n].h.dbs| == |states[n].h.evs| + 1 && Harmless(states[n].h)
    requires Stores(log, Now(states[n].h).changelog)
    requires j < |states[n].h.evs| && states[n].h.evs[j].kind.Commit?
    ensures var e := states[n].h.evs[j];
      Client.CommitOk(v => PagesAt(states[m].h, page, v), e.kind.info.assumed, Written(e, page),
                      Client.Committed(e.stamp, Interval(log, e.kind.info.assumed, e.stamp, false, scanSize, maxSize)))
  {
    ReadyToPromise(c, cfg, states, actions, n);
    RunGoesOn(c, cfg, states, actions, n, m);
    CommitKeptLater(states[n].h, states[m].h, j, log, scanSize, maxSize, page);
  }

  // ---- The conflict check ----

  /** Without a rollback the store held all that was committed, at every version. */
  lemma UnrolledIsSnapshot(h: History, v: Version, p: PageNo)
    requires WellFormed(h) && NoRollback(h.evs) && AgreesAlways(h) && v <= MAX_VERSION
    ensures Held(h, v, p) == Lookup(Snapshot(h.evs, v), p)
  {
    assert AgreesAt(h, Reached(h.evs, v));
    HeldIsLive(h, v, p);
    LiveIsSnapshot(h.evs, v);
  }

  /** A page that a commit depends on, and did not write, is the same at both its versions. */
  lemma CheckedPageStays(h: History, j: nat, page: Hash -> Client.Page, p: PageNo)
    requires WellFormed(h) && NoRollback(h.evs) && AgreesAlways(h) && AllSerial(h.evs)
    requires j < |h.evs| && h.evs[j].kind.Commit?
    requires p !in h.evs[j].writes.setPages && (h.evs[j].kind.info.plcc ==> p in h.evs[j].kind.info.readSet)
    ensures Client.Find(PagesAt(h, page, h.evs[j].stamp), p)
      == Client.Find(PagesAt(h, page, h.evs[j].kind.info.assumed), p)
  {
    var e := h.evs[j];
    forall i | 0 <= i < |h.evs| && h.evs[i].kind.Commit? && e.kind.info.assumed < h.evs[i].stamp <= e.stamp
      ensures p !in h.evs[i].writes.setPages
    {
      if i < j { assert Serial(h.evs, i, j); }
    }
    LookupAcrossGap(h.evs, e.kind.info.assumed, e.stamp, p);
    UnrolledIsSnapshot(h, e.stamp, p);
    UnrolledIsSnapshot(h, e.kind.info.assumed, p);
    FoundPage(h, page, e.stamp, p);
    FoundPage(h, page, e.kind.info.assumed, p);
  }

  lemma CheckKeptLater(h: History, h': History, j: nat, page: Hash -> Client.Page, x: Intent, reply: Client.Reply)
    requires WellFormed(h) && NoRollback(h.evs) && AgreesAlways(h) && AllSerial(h.evs) && GoesOn(h, h')
    requires j < |h.evs| && h.evs[j].kind.Commit? && reply.Committed? && reply.version == h.evs[j].stamp
    requires x.version == h.evs[j].kind.info.assumed && x.writes == Written(h.evs[j], page)
    requires h.evs[j].kind.info.plcc ==> x.readSet == Some(h.evs[j].kind.info.readSet)
    ensures CheckOk(v => PagesAt(h', page, v), x, reply)
  {
    var e := h.evs[j];
    PagesStay(h, h', page, e.stamp);
    PagesStay(h, h', page, e.kind.info.assumed);
    forall p | p !in x.writes && (x.readSet.Some? ==> p in x.readSet.value)
      ensures Client.Find(PagesAt(h', page, e.stamp), p) == Client.Find(PagesAt(h', page, x.version), p)
    {
      CheckedPageStays(h, j, page, p);
    }
  }

  /** In a run without a rollback, a request that commit `j` accepted was accepted rightly: no page in the read set
      it sent, and none at all if it sent none, had changed. */
  lemma CheckIsKept(
      c: Codec, cfg: Config, states: seq<State>, actions: seq<Action>, n: nat, m: nat, j: nat,
      page: Hash -> Client.Page, x: Intent, reply: Client.Reply)
    requires ValidCodec(c) && IsRun(c, cfg, states, actions) && n <= m < |states| && NoRollback(states[n].h.evs)
    requires j < |states[n].h.evs| && states[n].h.evs[j].kind.Commit?
    requires reply.Committed? && reply.version == states[n].h.evs[j].stamp
    requires x.version == states[n].h.evs[j].kind.info.assumed && x.writes == Written(states[n].h.evs[j], page)
    requires states[n].h.evs[j].kind.info.plcc ==> x.readSet == Some(states[n].h.evs[j].kind.info.readSet)
    ensures CheckOk(v => PagesAt(states[m].h, page, v), x, reply)
  {
    EveryRunIsGood(c, cfg, states, actions, n);
    RunGoesOn(c, cfg, states, actions, n, m);
    CheckKeptLater(states[n].h, states[m].h, j, page, x, reply);
  }
}
