/** What every run of a namespace promises. */
module Runs {
  import opened Common
  import opened Delta
  import opened Store
  import opened Operations
  import opened Protocol
  import opened PageInvariants
  import opened PageTheorem
  import opened ContentSafety
  import opened Serializability
  import opened Rollback
  import opened LiveHistory
  import opened HeldHistory
  import opened Octets
  import opened Changelog
  import opened Inmem
  import opened Replay

  /** All the invariants together. */
  ghost predicate Good(c: Codec, s: State) {
    Sound(c, s) && SerialState(s) && LockState(s) && LockHasOrigin(s.h) && LogState(s.h)
    && HeldState(s.h)
  }

  lemma InitiallyGood(c: Codec)
    ensures Good(c, INITIAL)
  {
    InitiallySound(c);
    InitiallySerial();
    InitiallyLogged();
    InitiallyHeld();
  }

  lemma SoundStepKeepsLocks(c: Codec, cfg: Config, s: State, a: Action)
    requires Sound(c, s) && LockState(s) && Enabled(c, s, a)
    ensures LockState(Next(cfg, s, a))
  {
    StepKeepsLockState(c, cfg, s, a);
  }

  lemma SoundStepKeepsOrigin(c: Codec, cfg: Config, s: State, a: Action)
    requires Sound(c, s) && LockHasOrigin(s.h) && Enabled(c, s, a)
    ensures LockHasOrigin(Next(cfg, s, a).h)
  {
    StepKeepsOrigin(c, cfg, s, a);
  }

  lemma SoundStepKeepsLog(c: Codec, cfg: Config, s: State, a: Action)
    requires Sound(c, s) && LogState(s.h) && Enabled(c, s, a)
    ensures LogState(Next(cfg, s, a).h)
  {
    StepKeepsLogState(c, cfg, s, a);
  }

  lemma SoundStepKeepsHeld(c: Codec, cfg: Config, s: State, a: Action)
    requires Sound(c, s) && LogState(s.h) && HeldState(s.h) && Enabled(c, s, a)
    ensures HeldState(Next(cfg, s, a).h)
  {
    StepKeepsHeldState(c, cfg, s, a);
  }

  lemma StepKeepsGood(c: Codec, cfg: Config, s: State, a: Action)
    requires ValidCodec(c) && Good(c, s) && Enabled(c, s, a)
    ensures Good(c, Next(cfg, s, a))
  {
    StepKeepsSound(c, cfg, s, a);
    SoundStepIsSerial(c, cfg, s, a);
    SoundStepKeepsLocks(c, cfg, s, a);
    SoundStepKeepsOrigin(c, cfg, s, a);
    SoundStepKeepsLog(c, cfg, s, a);
    SoundStepKeepsHeld(c, cfg, s, a);
  }

  lemma EveryRunIsGood(c: Codec, cfg: Config, states: seq<State>, actions: seq<Action>, n: nat)
    requires ValidCodec(c) && IsRun(c, cfg, states, actions) && n < |states|
    ensures Good(c, states[n])
  {
    var keeps := (s: State) => Good(c, s);
    assert keeps(INITIAL) by { InitiallyGood(c); }
    forall s: State, a | keeps(s) && s.h.dbs != [] && Enabled(c, s, a) ensures keeps(Next(cfg, s, a)) {
      StepKeepsGood(c, cfg, s, a);
    }
    RunInduction(c, cfg, states, actions, n, keeps);
  }

  // ---- Histories grow ----

  /** `h'` goes on from `h`, all its further events later than the clock of `h`. */
  ghost predicate GoesOn(h: History, h': History) {
    && h.evs <= h'.evs && h.dbs <= h'.dbs && h.clock <= h'.clock
    && forall i | |h.evs| <= i < |h'.evs| :: h.clock < h'.evs[i].stamp
  }

  lemma GoesOnStep(c: Codec, cfg: Config, h: History, s: State, a: Action)
    requires GoesOn(h, s.h) && s.h.dbs != [] && Enabled(c, s, a)
    ensures GoesOn(h, Next(cfg, s, a).h)
  {
    var e := EventOf(cfg, s.h, a);
    if e.Some? { EnabledStamp(c, cfg, s, a); }
  }

  lemma RunGoesOn(c: Codec, cfg: Config, states: seq<State>, actions: seq<Action>, n: nat, m: nat)
    requires IsRun(c, cfg, states, actions) && n <= m < |states|
    ensures GoesOn(states[n].h, states[m].h)
  {
    for k := n to m
      invariant GoesOn(states[n].h, states[k].h)
    {
      assert states[k + 1] == Next(cfg, states[k], actions[k]);
      GoesOnStep(c, cfg, states[n].h, states[k], actions[k]);
    }
  }

  // ---- Collection ----

  /** `x` has content; if that is a delta, its base is there and is no delta; and it decodes to the page hashed to
   * `x`. */
  predicate Readable(c: Codec, content: map<Hash, Blob>, x: Hash) {
    && x in content
    && (content[x].Delta? ==> content[x].base in content && !content[content[x].base].Delta?)
    && HashedPage(c, DecodeWithDelta(c, content, content[x]), x)
  }

  /** Whatever content collection has deleted, every version of every page can still be read. */
  lemma CollectionIsSafe(c: Codec, cfg: Config, states: seq<State>, actions: seq<Action>, n: nat)
    requires ValidCodec(c) && IsRun(c, cfg, states, actions) && n < |states|
    ensures WellFormed(states[n].h)
    ensures forall k | k in Now(states[n].h).pages :: Readable(c, Now(states[n].h).content, Now(states[n].h).pages[k])
  {
    EveryRunIsGood(c, cfg, states, actions, n);
    var h := states[n].h;
    assert Safe(c, h.dbs[|h.dbs| - 1]);
    forall k | k in Now(h).pages ensures Readable(c, Now(h).content, Now(h).pages[k]) {
      assert DeltaBased(Now(h), Now(h).pages[k]) && Decodes(c, Now(h).content, Now(h).pages[k]);
    }
  }

  // ---- Serializability ----

  lemma EveryRunIsSerial(c: Codec, cfg: Config, states: seq<State>, actions: seq<Action>, n: nat)
    requires ValidCodec(c) && IsRun(c, cfg, states, actions) && n < |states| && NoRollback(states[n].h.evs)
    ensures WellFormed(states[n].h) && AllSerial(states[n].h.evs)
    ensures forall p, v | states[n].bound <= v ::
      ReadPage(Now(states[n].h).pages, p, v) == Lookup(Snapshot(states[n].h.evs, v), p)
  {
    EveryRunIsGood(c, cfg, states, actions, n);
  }

  /** Before moment `n`, with the version in the past and not truncated, the namespace returned `x` for it. */
  ghost predicate ReturnedAt(states: seq<State>, n: nat, v: Version, p: PageNo, x: Option<Hash>) {
    exists k: nat | k <= n && k < |states| ::
      && states[k].h.dbs != [] && states[k].bound <= v <= states[k].h.clock
      && ReadPage(Now(states[k].h).pages, p, v) == x
  }

  /** What the namespace returned at some moment is in the reference snapshots of every later one. */
  lemma ReturnedIsTrue(
      c: Codec, cfg: Config, states: seq<State>, actions: seq<Action>, n: nat, v: Version, p: PageNo, x: Option<Hash>)
    requires ValidCodec(c) && IsRun(c, cfg, states, actions) && n < |states| && NoRollback(states[n].h.evs)
    requires ReturnedAt(states, n, v, p, x)
    ensures x == Lookup(Snapshot(states[n].h.evs, v), p)
  {
    var k: nat :| k <= n && k < |states| && states[k].h.dbs != [] && states[k].bound <= v <= states[k].h.clock
      && ReadPage(Now(states[k].h).pages, p, v) == x;
    RunGoesOn(c, cfg, states, actions, k, n);
    var evs, evs' := states[k].h.evs, states[n].h.evs;
    assert NoRollback(evs) by { assert forall i | 0 <= i < |evs| :: evs[i] == evs'[i]; }
    EveryRunIsSerial(c, cfg, states, actions, k);
    SnapshotOfPrefix(evs', |evs|, v);
    assert evs'[..|evs|] == evs;
  }

  /** What the client of a commit read before it: pages of its assumed version, all in its read set if that
      is what is checked. */
  ghost predicate ClientRead(states: seq<State>, n: nat, e: Event, returned: map<PageNo, Option<Hash>>) {
    e.kind.Commit? ==>
      && ReadsChecked(e, returned.Keys)
      && forall p | p in returned :: ReturnedAt(states, n, e.kind.info.assumed, p, returned[p])
  }

  /** The commits of any run without a rollback are legal steps of the in-memory reference, which finds every
      page right that a client was returned, and then holds what the namespace reads at every version that has
      not been truncated. */
  method ReplayRun(
      c: Codec, cfg: Config, ghost states: seq<State>, ghost actions: seq<Action>, ghost n: nat, s: State,
      returned: seq<map<PageNo, Option<Hash>>>)
    returns (m: Reference, r: Outcome)
    requires ValidCodec(c) && IsRun(c, cfg, states, actions) && n < |states| && s == states[n] && NoRollback(s.h.evs)
    requires |returned| == |s.h.evs| && forall i | 0 <= i < |s.h.evs| :: ClientRead(states, n, s.h.evs[i], returned[i])
    ensures r == Fine && WellFormed(s.h)
    ensures forall v :: SnapshotAt(m.versions, v) == Snapshot(s.h.evs, v)
    ensures forall p, v | s.bound <= v :: ReadPage(Now(s.h).pages, p, v) == Lookup(SnapshotAt(m.versions, v), p)
  {
    EveryRunIsSerial(c, cfg, states, actions, n);
    AllTrueReads(c, cfg, states, actions, n, returned);
    m, r := ReplayHistory(s.h.evs, returned);
    forall v ensures SnapshotAt(m.versions, v) == Snapshot(s.h.evs, v) {
      MirrorSnapshot(m.versions, s.h.evs, v);
    }
  }

  lemma AllTrueReads(
      c: Codec, cfg: Config, states: seq<State>, actions: seq<Action>, n: nat,
      returned: seq<map<PageNo, Option<Hash>>>)
    requires ValidCodec(c) && IsRun(c, cfg, states, actions) && n < |states| && NoRollback(states[n].h.evs)
    requires |returned| == |states[n].h.evs|
    requires forall i | 0 <= i < |returned| :: ClientRead(states, n, states[n].h.evs[i], returned[i])
    ensures forall i | 0 <= i < |returned| ::
      ReadsChecked(states[n].h.evs[i], returned[i].Keys) && TrueReads(states[n].h.evs, states[n].h.evs[i], returned[i])
  {
    var evs := states[n].h.evs;
    forall i | 0 <= i < |returned|
      ensures ReadsChecked(evs[i], returned[i].Keys) && TrueReads(evs, evs[i], returned[i])
    {
      assert ClientRead(states, n, evs[i], returned[i]);
      if evs[i].kind.Commit? {
        forall p | p in returned[i] ensures returned[i][p] == Lookup(Snapshot(evs, evs[i].kind.info.assumed), p) {
          ReturnedIsTrue(c, cfg, states, actions, n, evs[i].kind.info.assumed, p, returned[i][p]);
        }
      }
    }
  }

  // ---- Idempotency ----

  /** Two commits from one assumed version: the second relied on page-level checks alone, and the first
      wrote no page the second had read. */
  lemma RetryCommitsOnce(c: Codec, cfg: Config, states: seq<State>, actions: seq<Action>, n: nat, i: nat, j: nat)
    requires ValidCodec(c) && IsRun(c, cfg, states, actions) && n < |states| && NoRollback(states[n].h.evs)
    requires i < j < |states[n].h.evs|
    requires states[n].h.evs[i].kind.Commit? && states[n].h.evs[j].kind.Commit?
    requires states[n].h.evs[i].kind.info.assumed == states[n].h.evs[j].kind.info.assumed
    ensures states[n].h.evs[j].kind.info.plcc
    ensures states[n].h.evs[i].writes.setPages.Keys !! states[n].h.evs[j].kind.info.readSet
  {
    EveryRunIsSerial(c, cfg, states, actions, n);
    assert Serial(states[n].h.evs, i, j);
  }

  /** Of the first `i` events, `j` is the last that is a commit. */
  predicate NewestCommit(evs: seq<Event>, i: nat, j: nat) {
    j < i <= |evs| && evs[j].kind.Commit? && forall k | j < k < i :: !evs[k].kind.Commit?
  }

  /** A last write entry is that of the newest of the first `i` events that are commits, if there is one. */
  ghost predicate NewestWrite(evs: seq<Event>, i: nat, lw: Option<LastWrite>) {
    && i <= |evs|
    && (lw.None? ==> forall k | 0 <= k < i :: !evs[k].kind.Commit?)
    && (lw.Some? ==> exists j: nat ::
          NewestCommit(evs, i, j) && LastWrite(evs[j].kind.info.token, evs[j].stamp) == lw.value)
  }

  lemma NewestWriteStep(evs: seq<Event>, i: nat, db: Db)
    requires i < |evs| && NewestWrite(evs, i, db.lastWrite) && Shaped(evs[i]) && !evs[i].kind.RollFinish?
    ensures NewestWrite(evs, i + 1, Apply(db, evs[i].writes, evs[i].stamp).lastWrite)
  {
    if evs[i].kind.Commit? {
      assert NewestCommit(evs, i + 1, i);
    } else if db.lastWrite.Some? {
      var j: nat :| NewestCommit(evs, i, j) && LastWrite(evs[j].kind.info.token, evs[j].stamp) == db.lastWrite.value;
      assert NewestCommit(evs, i + 1, j);
    }
  }

  lemma {:induction false} LastWriteIsNewest(h: History, i: nat)
    requires WellFormed(h) && i <= |h.evs| && NoRollback(h.evs) && forall k | 0 <= k < |h.evs| :: Shaped(h.evs[k])
    ensures NewestWrite(h.evs, i, h.dbs[i].lastWrite)
  {
    if i > 0 {
      LastWriteIsNewest(h, i - 1);
      NewestWriteStep(h.evs, i - 1, h.dbs[i - 1]);
      assert h.dbs[i] == Apply(h.dbs[i - 1], h.evs[i - 1].writes, h.evs[i - 1].stamp);
    }
  }

  /** The last commit that a snapshot shows carries this key. */
  ghost predicate JustCommitted(evs: seq<Event>, seen: nat, token: nat) {
    exists j: nat :: NewestCommit(evs, seen, j) && evs[j].kind.info.token == token
  }

  /** Some commit that a snapshot shows is later than `assumed`. */
  ghost predicate WrittenSince(evs: seq<Event>, seen: nat, assumed: Version) {
    exists j | 0 <= j < seen && j < |evs| :: evs[j].kind.Commit? && assumed < evs[j].stamp
  }

  lemma NewestIsLatest(h: History, seen: nat, j: nat, assumed: Version)
    requires WellFormed(h) && NewestCommit(h.evs, seen, j)
    ensures WrittenSince(h.evs, seen, assumed) <==> assumed < h.evs[j].stamp
  {
    if WrittenSince(h.evs, seen, assumed) {
      var k :| 0 <= k < seen && k < |h.evs| && h.evs[k].kind.Commit? && assumed < h.evs[k].stamp;
      assert k <= j;
    }
  }

  /** Whether the last write is looked at: a commit checked page by page may ask not to. */
  predicate Asks(g: Request, ns: NsCommit) {
    !UsesPlcc(g, ns) || !g.allowSkip
  }

  lemma VerdictMeans(h: History, seen: nat, g: Request, ns: NsCommit)
    requires WellFormed(h) && seen <= |h.evs| && NewestWrite(h.evs, seen, h.dbs[seen].lastWrite)
    ensures var v, twice := LastWriteVerdict(h.dbs[seen], g, ns), JustCommitted(h.evs, seen, g.token);
      && (v.Duplicate? <==> twice && Asks(g, ns))
      && (v.Conflict? <==> !twice && WrittenSince(h.evs, seen, ns.assumed) && !UsesPlcc(g, ns))
      && !v.Gone?
  {
    var lw := h.dbs[seen].lastWrite;
    if lw.Some? {
      var j: nat :| NewestCommit(h.evs, seen, j) && LastWrite(h.evs[j].kind.info.token, h.evs[j].stamp) == lw.value;
      NewestIsLatest(h, seen, j, ns.assumed);
    }
  }

  /** What the look at the last write finds out, in any run without a rollback: whether the last commit that
      its snapshot shows is its own, and else, unless the commit is checked page by page, whether any commit
      there is later than the version assumed. */
  lemma LastWriteCheckMeans(
      c: Codec, cfg: Config, states: seq<State>, actions: seq<Action>, n: nat, seen: nat, g: Request, ns: NsCommit)
    requires ValidCodec(c) && IsRun(c, cfg, states, actions) && n < |states| && NoRollback(states[n].h.evs)
    requires seen < |states[n].h.dbs|
    ensures var v := LastWriteVerdict(states[n].h.dbs[seen], g, ns);
      var twice := JustCommitted(states[n].h.evs, seen, g.token);
      var since := WrittenSince(states[n].h.evs, seen, ns.assumed);
      (v.Duplicate? <==> twice && Asks(g, ns)) && (v.Conflict? <==> !twice && since && !UsesPlcc(g, ns)) && !v.Gone?
  {
    EveryRunIsGood(c, cfg, states, actions, n);
    LastWriteIsNewest(states[n].h, seen);
    VerdictMeans(states[n].h, seen, g, ns);
  }

  lemma DuplicateHasOrigin(evs: seq<Event>, db: Db, i: nat, g: Request, ns: NsCommit)
    requires NewestWrite(evs, i, db.lastWrite) && PhaseTwoVerdict(db, g, ns).Duplicate?
    ensures exists j: nat ::
      NewestCommit(evs, i, j) && evs[j].kind.info.token == g.token && evs[j].stamp == PhaseTwoVerdict(db, g, ns).ver
  {
  }

  /** A retry told that it has already committed is given the versionstamp of the last commit its snapshot
      shows, which carries its own key. */
  lemma DuplicateIsOriginal(
      c: Codec, cfg: Config, states: seq<State>, actions: seq<Action>, n: nat, seen: nat, g: Request, ns: NsCommit)
    requires ValidCodec(c) && IsRun(c, cfg, states, actions) && n < |states| && NoRollback(states[n].h.evs)
    requires seen < |states[n].h.dbs| && PhaseTwoVerdict(states[n].h.dbs[seen], g, ns).Duplicate?
    ensures var evs, v := states[n].h.evs, PhaseTwoVerdict(states[n].h.dbs[seen], g, ns).ver;
      exists j: nat :: NewestCommit(evs, seen, j) && evs[j].kind.info.token == g.token && evs[j].stamp == v
  {
    EveryRunIsGood(c, cfg, states, actions, n);
    LastWriteIsNewest(states[n].h, seen);
    DuplicateHasOrigin(states[n].h.evs, states[n].h.dbs[seen], seen, g, ns);
  }

  /** A retry that sees its own commit `j`, made from the same assumed version, never goes on: it is told
      the commit's version if nothing was committed since, and refused as a conflict otherwise. */
  lemma RetryIsRecognised(
      c: Codec, cfg: Config, states: seq<State>, actions: seq<Action>, n: nat, seen: nat, j: nat, g: Request,
      ns: NsCommit)
    requires ValidCodec(c) && IsRun(c, cfg, states, actions) && n < |states| && NoRollback(states[n].h.evs)
    requires j < seen < |states[n].h.dbs| && j < |states[n].h.evs| && states[n].h.evs[j].kind.Commit?
    requires states[n].h.evs[j].kind.info.token == g.token && states[n].h.evs[j].kind.info.assumed == ns.assumed
    requires !UsesPlcc(g, ns)
    ensures var v := LastWriteVerdict(states[n].h.dbs[seen], g, ns);
      && !v.Proceed?
      && (NewestCommit(states[n].h.evs, seen, j) ==> v == Duplicate(states[n].h.evs[j].stamp))
      && (v.Conflict? <==> !JustCommitted(states[n].h.evs, seen, g.token))
  {
    EveryRunIsSerial(c, cfg, states, actions, n);
    LastWriteCheckMeans(c, cfg, states, actions, n, seen, g, ns);
    EveryRunIsGood(c, cfg, states, actions, n);
    LastWriteIsNewest(states[n].h, seen);
    RetryVerdict(states[n].h, seen, j, g, ns);
  }

  lemma RetryVerdict(h: History, seen: nat, j: nat, g: Request, ns: NsCommit)
    requires WellFormed(h) && seen <= |h.evs| && NewestWrite(h.evs, seen, h.dbs[seen].lastWrite) && !UsesPlcc(g, ns)
    requires j < seen && h.evs[j].kind.Commit? && ns.assumed < h.evs[j].stamp && h.evs[j].kind.info.token == g.token
    ensures var v := LastWriteVerdict(h.dbs[seen], g, ns);
      && !v.Proceed?
      && (NewestCommit(h.evs, seen, j) ==> v == Duplicate(h.evs[j].stamp))
      && (v.Conflict? <==> !JustCommitted(h.evs, seen, g.token))
  {
    VerdictMeans(h, seen, g, ns);
    assert WrittenSince(h.evs, seen, ns.assumed);
    if NewestCommit(h.evs, seen, j) {
      var k: nat :| NewestCommit(h.evs, seen, k)
        && LastWrite(h.evs[k].kind.info.token, h.evs[k].stamp) == h.dbs[seen].lastWrite.value;
      assert k == j;
    }
  }

  // ---- Changelog ----

  /** Whatever commits, truncation and rollback did to the changelog, an interval it still answers for
      lists every page that reads differently at its two ends. */
  lemma ChangelogIsSound(c: Codec, cfg: Config, states: seq<State>, actions: seq<Action>, n: nat,
      log: map<Version, seq<Octet>>, from: Version, to: Version, inclusive: bool, scanSize: nat, maxSize: nat,
      p: PageNo)
    requires ValidCodec(c) && IsRun(c, cfg, states, actions) && n < |states| && states[n].h.dbs != []
    requires Stores(log, Now(states[n].h).changelog)
    requires var r := Interval(log, from, to, inclusive, scanSize, maxSize); r.Some? && p !in r.value
    requires inclusive || PageKey(p, to) !in Now(states[n].h).pages
    ensures ReadPage(Now(states[n].h).pages, p, from) == ReadPage(Now(states[n].h).pages, p, to)
  {
    EveryRunIsGood(c, cfg, states, actions, n);
    IntervalSound(Now(states[n].h), log, from, to, inclusive, scanSize, maxSize, p);
  }

  /** The same holds of what the store held at the two versions when they were reached, however old `from` is: a
      page that a client read at `from`, before any truncation, is the page it would read at `to`. But not if
      a rollback was cut off that had changed something. */
  lemma ChangelogTellsHistory(c: Codec, cfg: Config, states: seq<State>, actions: seq<Action>, n: nat,
      log: map<Version, seq<Octet>>, from: Version, to: Version, inclusive: bool, scanSize: nat, maxSize: nat,
      p: PageNo)
    requires ValidCodec(c) && IsRun(c, cfg, states, actions) && n < |states|
    requires |states[n].h.dbs| == |states[n].h.evs| + 1 && Harmless(states[n].h)
    requires Stores(log, Now(states[n].h).changelog)
    requires var r := Interval(log, from, to, inclusive, scanSize, maxSize); r.Some? && p !in r.value
    requires forall i | 0 <= i < |states[n].h.evs| && states[n].h.evs[i].stamp == to && !inclusive ::
      p !in states[n].h.evs[i].writes.setPages
    ensures Held(states[n].h, from, p) == Held(states[n].h, to, p)
  {
    EveryRunIsGood(c, cfg, states, actions, n);
    IntervalTellsHeld(states[n].h, log, from, to, inclusive, scanSize, maxSize, p);
  }

  lemma IntervalTellsHeld(
      h: History, log: map<Version, seq<Octet>>, from: Version, to: Version, inclusive: bool, scanSize: nat,
      maxSize: nat, p: PageNo)
    requires WellFormed(h) && LogState(h) && HeldState(h) && Harmless(h) && Stores(log, Now(h).changelog)
    requires var r := Interval(log, from, to, inclusive, scanSize, maxSize); r.Some? && p !in r.value
    requires forall i | 0 <= i < |h.evs| && h.evs[i].stamp == to && !inclusive :: p !in h.evs[i].writes.setPages
    ensures Held(h, from, p) == Held(h, to, p)
  {
    if from != to {
      IntervalTellsLive(h, log, from, to, inclusive, scanSize, maxSize, p);
      LoggedIsLive(h, from, p);
      LoggedIsLive(h, to, p);
    }
  }

  // ---- Rollbacks ----

  /** In every run the store held, at each version not reached in the middle of a rollback, what commits and
      finished rollbacks make, exactly if no rollback was cut off that had changed something. */
  lemma HistoryIsKeptExactly(c: Codec, cfg: Config, states: seq<State>, actions: seq<Action>, n: nat)
    requires ValidCodec(c) && IsRun(c, cfg, states, actions) && n < |states|
    ensures WellFormed(states[n].h) && (HoldsRecord(states[n].h) <==> Harmless(states[n].h))
  {
    EveryRunIsGood(c, cfg, states, actions, n);
    SettledIsHeld(states[n].h);
  }

  /** So it is in every run in which no lock is released while it is marked. */
  lemma NoReleaseOfMarked(h: History)
    requires |h.dbs| == |h.evs| + 1 && forall i: nat | i < |h.evs| && h.evs[i].kind.Release? :: !RollingBack(h.dbs[i])
    ensures Harmless(h)
  {
  }
}
