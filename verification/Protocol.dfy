/** The namespace as a state machine: every interleaving of page writes, single- and multi-phase
    commits, content collection, version truncation, and namespace locking with rollback.

    A read-write transaction is one step, taken when it commits, on any past snapshot `seen`. A
    read-only one (a scan, a fix-up) is one step at its snapshot. Operations that span several
    transactions keep their local state in the records below; any number of them run at once, so
    nothing here relies on the lease lock that is meant to keep background tasks apart. A collection,
    truncation or rollback may repeat any of its steps. */
module Protocol {
  import opened Common
  import opened Delta
  import opened Store
  import opened Operations

  /** A multi-phase commit after its first phase, which was event `at - 1`. */
  datatype Pending = Pending(at: nat, token: nat, g: Request, n: NsCommit)

  /** Scan cursors name the last key read; `None` is the start of the range. */
  datatype GcPhase =
    | ScanPages(pagesTo: Option<PageKey>)
    | ScanReferrers(referrersTo: Option<Hash>)
    | Sweep(sweptTo: Option<Hash>)
    | Clearing(queue: set<Hash>, seen: nat, next: Hash)

  /** A content collection that took its read version `rv` when `start` events had happened.
      `refs` is the Bloom filter: a superset of the hashes the two scans have reported. `id` tells
      collections apart that are in the same state, and truncations likewise. */
  datatype Gc = Gc(id: nat, start: nat, rv: Version, phase: GcPhase, refs: set<Hash>)

  datatype TruncPhase = Scanning(cursor: Option<PageKey>) | Deleting(doomed: set<PageKey>, next: PageKey) | Trimming

  datatype Trunc = Trunc(id: nat, before: Version, phase: TruncPhase)

  /** A rollback whose mark was event `at - 1`. */
  datatype Roll = Roll(at: nat, nonce: nat, snapshot: Version, clearedTo: Option<PageKey>, done: bool)

  /** `bound` is the greatest truncation point any deletion has used so far. */
  datatype State = State(
    h: History,
    pending: set<Pending>,
    gcs: set<Gc>,
    truncs: set<Trunc>,
    rolls: set<Roll>,
    bound: Version)

  const INITIAL := State(NEW_HISTORY, {}, {}, {}, {}, 0)

  /** Time passes, or another namespace commits. */
  datatype EnvAction = Tick(clock: Version) | OtherNamespace(stamp: Version)

  datatype CommitAction =
    | WritePages(seen: nat, rv: Version, reqs: seq<WriteReq>, r: Reads, w: Writes, stamp: Version)
    | CommitOne(seen: nat, rv: Version, g: Request, n: NsCommit, r: Reads, w: Writes, stamp: Version)
    | CommitFirst(seen: nat, rv: Version, g: Request, n: NsCommit, r: Reads, w: Writes, token: nat, stamp: Version)
    | CommitSecond(p: Pending, seen: nat, stamp: Version)

  datatype GcAction =
    | ReadPages(last: PageKey, refs: set<Hash>)
    | PagesDone
    | ReadReferrers(to: Hash, refs: set<Hash>)
    | ReferrersDone
    | SweepBatch(to: Hash, queue: set<Hash>)
    | ClearBatch(stamp: Version)
    | GiveUp

  datatype TruncAction = ScanBatch(batch: seq<PageKey>) | DeleteBatch(stamp: Version) | ScanDone | Trim(stamp: Version)

  datatype LockAction =
    | LockAcquire(seen: nat, owner: string, nonce: nat, stamp: Version)
    | LockRelease(seen: nat, owner: string, stamp: Version)
    | RollMark(seen: nat, owner: string, stamp: Version)

  datatype RollAction =
    | RollClear(seen: nat, last: PageKey, stamp: Version)
    | RollScanned
    | RollEnd(seen: nat, stamp: Version)

  datatype Action =
    | Env(env: EnvAction)
    | Commits(commit: CommitAction)
    | GcStart(id: nat, rv: Version)
    | Collects(gc: Gc, collect: GcAction)
    | TruncStart(id: nat, before: Version)
    | Truncates(t: Trunc, trunc: TruncAction)
    | Locks(lock: LockAction)
    | Rolls(roll: Roll, roller: RollAction)

  // ---- Scans ----

  predicate PageAfter(cursor: Option<PageKey>, k: PageKey) {
    cursor.Some? ==> Before(cursor.value, k)
  }

  predicate HashAfter(cursor: Option<Hash>, h: Hash) {
    cursor.Some? ==> cursor.value < h
  }

  /** The keys one batch returns: all those past the cursor, up to and including `last`. Which key
      is last depends on the batch size, so any present key may be. */
  function PageBatch(pages: map<PageKey, Hash>, cursor: Option<PageKey>, last: PageKey): set<PageKey> {
    set k | k in pages && PageAfter(cursor, k) && !Before(last, k)
  }

  /** `batch` lists, in order, every key from the cursor (inclusive) to its own last key. */
  predicate Run(pages: map<PageKey, Hash>, cursor: Option<PageKey>, batch: seq<PageKey>) {
    && batch != []
    && (forall i, j | 0 <= i < j < |batch| :: Before(batch[i], batch[j]))
    && (forall k | k in batch :: k in pages && (cursor.Some? ==> !Before(k, cursor.value)))
    && (forall k | k in pages && (cursor.Some? ==> !Before(k, cursor.value)) && !Before(batch[|batch| - 1], k) ::
      k in batch)
  }

  /** Keys of a batch that truncation deletes: the next version of the same page is still in range. */
  predicate IsDoomed(batch: seq<PageKey>, before: Version, j: nat)
    requires j + 1 < |batch|
  {
    batch[j].idx == batch[j + 1].idx && batch[j + 1].ver <= before && batch[j].ver < before
  }

  function Doomed(batch: seq<PageKey>, before: Version): set<PageKey> {
    set j: nat | j < |batch| - 1 && IsDoomed(batch, before, j) :: batch[j]
  }

  // ---- Steps ----

  function RefHashes(pages: map<PageKey, Hash>, keys: set<PageKey>): set<Hash> {
    set k | k in keys && k in pages :: pages[k]
  }

  function BaseHashes(referrer: map<Hash, Hash>, cursor: Option<Hash>, to: Hash): set<Hash> {
    set h | h in referrer && HashAfter(cursor, h) && h <= to :: referrer[h]
  }

  function SnapshotOf(db: Db): Version {
    if db.lastWrite.Some? then db.lastWrite.value.ver else 0
  }

  /** A nonce or commit token is random: no earlier event used it. */
  ghost predicate FreshNonce(h: History, nonce: nat) {
    forall i | 0 <= i < |h.evs| ::
      var lock := h.evs[i].writes.lock;
      lock.PutLock? && lock.lock.Some? ==> lock.lock.value.nonce != nonce
  }

  ghost predicate FreshToken(h: History, token: nat) {
    forall i | 0 <= i < |h.evs| :: h.evs[i].writes.token != PutToken(token)
  }

  predicate HoldsNonce(db: Db, nonce: nat) {
    db.lock.Some? && db.lock.value.nonce == nonce
  }

  function RollKeys(pages: map<PageKey, Hash>, roll: Roll, last: PageKey): set<PageKey> {
    set k | k in PageBatch(pages, roll.clearedTo, last) && k.ver > roll.snapshot
  }

  // When each action may be taken.

  ghost predicate CanWrite(c: Codec, h: History, seen: nat, rv: Version, reqs: seq<WriteReq>, r: Reads, w: Writes) {
    ReadVersion(h, seen, rv) && seen < |h.dbs| && AppliedWrite(c, h.dbs[seen], rv, reqs, r, w) && NoConflict(h, seen, r)
  }

  ghost predicate CanCommitOne(
      c: Codec, h: History, seen: nat, rv: Version, g: Request, n: NsCommit, r: Reads, w: Writes) {
    && ReadVersion(h, seen, rv) && seen < |h.dbs| && !g.multi
    && PhaseOneOk(c, h.dbs[seen], rv, n, r, w)
    && PhaseTwoVerdict(h.dbs[seen], g, n) == Proceed
    && NoConflict(h, seen, JoinReads(PhaseOneReads(c, n, r), PhaseTwoReads(h.dbs[seen], g, n)))
  }

  ghost predicate CanCommitFirst(
      c: Codec, h: History, seen: nat, rv: Version, g: Request, n: NsCommit, r: Reads, w: Writes, token: nat) {
    && ReadVersion(h, seen, rv) && seen < |h.dbs| && g.multi && !g.plcc
    && PhaseOneOk(c, h.dbs[seen], rv, n, r, w) && FreshToken(h, token)
    && NoConflict(h, seen, PhaseOneReads(c, n, r))
  }

  ghost predicate CanCommitSecond(h: History, p: Pending, seen: nat) {
    && p.at <= seen < |h.dbs|
    && h.dbs[seen].token == Some(p.token)
    && PhaseTwoVerdict(h.dbs[seen], p.g, p.n) == Proceed
    && NoConflict(h, seen, PhaseTwoReads(h.dbs[seen], p.g, p.n))
  }

  ghost predicate CanCommit(c: Codec, h: History, pending: set<Pending>, a: CommitAction) {
    && NextStamp(h, a.stamp)
    && match a {
         case WritePages(seen, rv, reqs, r, w, _) => AllOccur(c, reqs) && CanWrite(c, h, seen, rv, reqs, r, w)
         case CommitOne(seen, rv, g, n, r, w, _) =>
           AllOccur(c, n.pageWrites) && CanCommitOne(c, h, seen, rv, g, n, r, w)
         case CommitFirst(seen, rv, g, n, r, w, token, _) =>
           AllOccur(c, n.pageWrites) && CanCommitFirst(c, h, seen, rv, g, n, r, w, token)
         case CommitSecond(p, seen, _) => p in pending && CanCommitSecond(h, p, seen)
       }
  }

  ghost predicate CanCollect(h: History, gc: Gc, a: GcAction)
    requires h.dbs != []
  {
    var now := Now(h);
    match a
    case ReadPages(last, refs) =>
      && gc.phase.ScanPages? && last in now.pages && PageAfter(gc.phase.pagesTo, last)
      && gc.refs + RefHashes(now.pages, PageBatch(now.pages, gc.phase.pagesTo, last)) <= refs
    case PagesDone =>
      gc.phase.ScanPages? && (forall k | k in now.pages :: !PageAfter(gc.phase.pagesTo, k))
    case ReadReferrers(to, refs) =>
      && gc.phase.ScanReferrers? && to in now.referrer && HashAfter(gc.phase.referrersTo, to)
      && gc.refs + BaseHashes(now.referrer, gc.phase.referrersTo, to) <= refs
    case ReferrersDone =>
      gc.phase.ScanReferrers? && (forall x | x in now.referrer :: !HashAfter(gc.phase.referrersTo, x))
    case SweepBatch(to, queue) =>
      && gc.phase.Sweep? && to in now.index && HashAfter(gc.phase.sweptTo, to)
      && (forall x | x in queue ::
            x in now.index && HashAfter(gc.phase.sweptTo, x) && x <= to && x !in gc.refs && now.index[x] <= gc.rv)
    case ClearBatch(stamp) =>
      NextStamp(h, stamp) && gc.phase.Clearing? && NoConflict(h, gc.phase.seen, NO_READS.(index := gc.phase.queue))
    case GiveUp => gc.phase.Clearing?
  }

  ghost predicate CanTruncate(h: History, t: Trunc, a: TruncAction)
    requires h.dbs != []
  {
    match a
    case ScanBatch(batch) => t.phase.Scanning? && Run(Now(h).pages, t.phase.cursor, batch) && |batch| > 1
    case DeleteBatch(stamp) => NextStamp(h, stamp) && t.phase.Deleting?
    case ScanDone => t.phase.Scanning? && (forall batch | Run(Now(h).pages, t.phase.cursor, batch) :: |batch| <= 1)
    case Trim(stamp) => NextStamp(h, stamp) && t.phase.Trimming?
  }

  ghost predicate CanLock(h: History, a: LockAction) {
    && NextStamp(h, a.stamp) && a.seen < |h.dbs|
    && match a {
         case LockAcquire(seen, _, nonce, _) =>
           && h.dbs[seen].lock.None? && FreshNonce(h, nonce)
           && NoConflict(h, seen, NO_READS.(lock := true, lastWrite := true))
         case LockRelease(seen, owner, _) =>
           && h.dbs[seen].lock.Some? && h.dbs[seen].lock.value.owner == owner
           && NoConflict(h, seen, NO_READS.(lock := true))
         case RollMark(seen, owner, _) =>
           && h.dbs[seen].lock.Some?
           && h.dbs[seen].lock.value.owner == owner && !h.dbs[seen].lock.value.rollingBack
           && NoConflict(h, seen, NO_READS.(lock := true))
       }
  }

  ghost predicate CanRollBack(h: History, roll: Roll, a: RollAction)
    requires h.dbs != []
  {
    match a
    case RollClear(seen, last, stamp) =>
      && NextStamp(h, stamp) && !roll.done && roll.at <= seen < |h.dbs|
      && HoldsNonce(h.dbs[seen], roll.nonce)
      && last in h.dbs[seen].pages && PageAfter(roll.clearedTo, last)
      && NoConflict(h, seen, NO_READS.(lock := true))
    case RollScanned =>
      !roll.done && HoldsNonce(Now(h), roll.nonce) && (forall k | k in Now(h).pages :: !PageAfter(roll.clearedTo, k))
    case RollEnd(seen, stamp) =>
      && NextStamp(h, stamp) && roll.done && roll.at <= seen < |h.dbs|
      && HoldsNonce(h.dbs[seen], roll.nonce)
      && NoConflict(h, seen, NO_READS.(lock := true))
  }

  ghost predicate Enabled(c: Codec, s: State, a: Action)
    requires s.h.dbs != []
  {
    match a
    case Env(Tick(clock)) => s.h.clock <= clock < MAX_VERSION
    case Env(OtherNamespace(stamp)) => NextStamp(s.h, stamp)
    case Commits(k) => CanCommit(c, s.h, s.pending, k)
    case GcStart(id, rv) => ReadVersion(s.h, |s.h.evs|, rv) && forall gc | gc in s.gcs :: gc.id != id
    case Collects(gc, k) => gc in s.gcs && CanCollect(s.h, gc, k)
    case TruncStart(id, before) =>
      && before <= s.h.clock && (Now(s.h).lock.Some? ==> before <= Now(s.h).lock.value.snapshot)
      && forall t | t in s.truncs :: t.id != id
    case Truncates(t, k) => t in s.truncs && CanTruncate(s.h, t, k)
    case Locks(k) => CanLock(s.h, k)
    case Rolls(roll, k) => roll in s.rolls && CanRollBack(s.h, roll, k)
  }

  // The event each action commits, if any.

  function CommitEvent(cfg: Config, a: CommitAction): Event {
    match a
    case WritePages(_, _, _, _, w, stamp) => Event(stamp, w, Write)
    case CommitOne(_, _, g, n, _, w, stamp) => Event(stamp, PhaseTwoWrites(cfg, g, n, w), Commit(InfoOf(g, n)))
    case CommitFirst(_, _, g, n, _, w, token, stamp) => Event(stamp, w.(token := PutToken(token)), PhaseOne)
    case CommitSecond(p, _, stamp) => Event(stamp, PhaseTwoWrites(cfg, p.g, p.n, NO_WRITES), Commit(InfoOf(p.g, p.n)))
  }

  function CollectEvent(gc: Gc, a: GcAction): Option<Event> {
    if a.ClearBatch? && gc.phase.Clearing? then
      Some(Event(a.stamp, NO_WRITES.(drop := gc.phase.queue, token := ClearToken), Collect))
    else None
  }

  function TruncateEvent(t: Trunc, a: TruncAction): Option<Event> {
    if a.DeleteBatch? && t.phase.Deleting? then
      Some(Event(a.stamp, NO_WRITES.(clearPages := t.phase.doomed), Truncate(t.before)))
    else if a.Trim? then
      Some(Event(a.stamp, NO_WRITES.(clearLog := Below(t.before)), TrimLog(t.before)))
    else None
  }

  function LockEvent(h: History, a: LockAction): Event {
    var db := if a.seen < |h.dbs| then h.dbs[a.seen] else EMPTY_DB;
    match a
    case LockAcquire(_, owner, nonce, stamp) =>
      Event(stamp, NO_WRITES.(lock := PutLock(Some(Lock(SnapshotOf(db), owner, nonce, false)))), Acquire)
    case LockRelease(_, _, stamp) => Event(stamp, NO_WRITES.(lock := PutLock(None)), Release)
    case RollMark(_, _, stamp) => Event(stamp, NO_WRITES.(lock := PutLock(Marked(db.lock))), Mark)
  }

  function Marked(lock: Option<Lock>): Option<Lock> {
    if lock.Some? then Some(lock.value.(rollingBack := true)) else None
  }

  function RollEvent(h: History, roll: Roll, a: RollAction): Option<Event> {
    match a
    case RollClear(seen, last, stamp) =>
      var keys := if seen < |h.dbs| then RollKeys(h.dbs[seen].pages, roll, last) else {};
      Some(Event(stamp, NO_WRITES.(clearPages := keys), RollBatch(roll.snapshot)))
    case RollScanned => None
    case RollEnd(_, stamp) =>
      Some(Event(stamp,
                 NO_WRITES.(lock := PutLock(None), lastWrite := PatchLastWrite(roll.snapshot),
                   clearLog := Above(roll.snapshot)),
                 RollFinish(roll.snapshot, roll.nonce)))
  }

  function EventOf(cfg: Config, h: History, a: Action): Option<Event> {
    match a
    case Env(Tick(_)) => None
    case Env(OtherNamespace(stamp)) => Some(Event(stamp, NO_WRITES, Idle))
    case Commits(k) => Some(CommitEvent(cfg, k))
    case GcStart(_, _) => None
    case Collects(gc, k) => CollectEvent(gc, k)
    case TruncStart(_, _) => None
    case Truncates(t, k) => TruncateEvent(t, k)
    case Locks(k) => Some(LockEvent(h, k))
    case Rolls(roll, k) => RollEvent(h, roll, k)
  }

  // The state after each action, part by part. The record from before a step stays, because the process may not
  // be told that its transaction committed, and then repeats it.

  function HistoryAfter(cfg: Config, h: History, a: Action): History
    requires h.dbs != []
  {
    var e := EventOf(cfg, h, a);
    if e.Some? then Append(h, e.value)
    else if a.Env? && a.env.Tick? then h.(clock := a.env.clock)
    else h
  }

  function PendingAfter(s: State, a: Action): set<Pending> {
    if a.Commits? && a.commit.CommitFirst? then
      s.pending + {Pending(|s.h.evs| + 1, a.commit.token, a.commit.g, a.commit.n)}
    else if a.Commits? && a.commit.CommitSecond? then
      s.pending - {a.commit.p}
    else s.pending
  }

  function GcAfter(h: History, gc: Gc, a: GcAction): Gc {
    match a
    case ReadPages(last, refs) => gc.(phase := ScanPages(Some(last)), refs := refs)
    case PagesDone => gc.(phase := ScanReferrers(None))
    case ReadReferrers(to, refs) => gc.(phase := ScanReferrers(Some(to)), refs := refs)
    case ReferrersDone => gc.(phase := Sweep(None))
    case SweepBatch(to, queue) => gc.(phase := Clearing(queue, |h.evs|, to))
    case ClearBatch(_) => SweptPast(gc)
    case GiveUp => SweptPast(gc)
  }

  function SweptPast(gc: Gc): Gc {
    if gc.phase.Clearing? then gc.(phase := Sweep(Some(gc.phase.next))) else gc
  }

  function GcsAfter(s: State, a: Action): set<Gc> {
    if a.GcStart? then s.gcs + {Gc(a.id, |s.h.evs|, a.rv, ScanPages(None), {})}
    else if a.Collects? then s.gcs + {GcAfter(s.h, a.gc, a.collect)}
    else s.gcs
  }

  function TruncAfter(t: Trunc, a: TruncAction): Trunc {
    match a
    case ScanBatch(batch) => if batch == [] then t
      else t.(phase := Deleting(Doomed(batch, t.before), batch[|batch| - 1]))
    case DeleteBatch(_) => if t.phase.Deleting? then t.(phase := Scanning(Some(t.phase.next))) else t
    case ScanDone => t.(phase := Trimming)
    case Trim(_) => t
  }

  function TruncsAfter(s: State, a: Action): set<Trunc> {
    if a.TruncStart? then s.truncs + {Trunc(a.id, a.before, Scanning(None))}
    else if a.Truncates? then s.truncs + {TruncAfter(a.t, a.trunc)}
    else s.truncs
  }

  function BoundAfter(s: State, a: Action): Version {
    if a.Truncates? && a.trunc.DeleteBatch? then Max(s.bound, a.t.before) else s.bound
  }

  function RollsAfter(s: State, a: Action): set<Roll> {
    if a.Locks? && a.lock.RollMark? && a.lock.seen < |s.h.dbs| && s.h.dbs[a.lock.seen].lock.Some? then
      var lock := s.h.dbs[a.lock.seen].lock.value;
      s.rolls + {Roll(|s.h.evs| + 1, lock.nonce, lock.snapshot, None, false)}
    else if a.Rolls? then
      match a.roller
      case RollClear(_, last, _) => s.rolls + {a.roll.(clearedTo := Some(last))}
      case RollScanned => s.rolls + {a.roll.(done := true)}
      case RollEnd(_, _) => s.rolls
    else s.rolls
  }

  function Next(cfg: Config, s: State, a: Action): State
    requires s.h.dbs != []
  {
    State(HistoryAfter(cfg, s.h, a), PendingAfter(s, a), GcsAfter(s, a), TruncsAfter(s, a), RollsAfter(s, a),
      BoundAfter(s, a))
  }

  // ---- Runs ----

  /** `states` is a run: it starts with an empty namespace and takes the given steps. */
  ghost predicate IsRun(c: Codec, cfg: Config, states: seq<State>, actions: seq<Action>) {
    && |states| == |actions| + 1
    && states[0] == INITIAL
    && (forall i | 0 <= i < |actions| ::
          states[i].h.dbs != [] && Enabled(c, states[i], actions[i])
            && states[i + 1] == Next(cfg, states[i], actions[i]))
  }

  lemma EnabledStamp(c: Codec, cfg: Config, s: State, a: Action)
    requires s.h.dbs != [] && Enabled(c, s, a) && EventOf(cfg, s.h, a).Some?
    ensures NextStamp(s.h, EventOf(cfg, s.h, a).value.stamp)
  {
  }

  lemma StepWellFormed(c: Codec, cfg: Config, s: State, a: Action)
    requires WellFormed(s.h) && Enabled(c, s, a)
    ensures WellFormed(Next(cfg, s, a).h)
  {
    var e := EventOf(cfg, s.h, a);
    if e.Some? {
      EnabledStamp(c, cfg, s, a);
      AppendWellFormed(s.h, e.value);
    }
  }

  /** A property that holds initially and that every step keeps holds throughout every run. */
  lemma {:induction false} RunInduction(
      c: Codec, cfg: Config, states: seq<State>, actions: seq<Action>, n: nat, keeps: State -> bool)
    requires IsRun(c, cfg, states, actions) && n < |states|
    requires keeps(INITIAL)
    requires forall s, a | keeps(s) && s.h.dbs != [] && Enabled(c, s, a) :: keeps(Next(cfg, s, a))
    ensures keeps(states[n])
  {
    if n > 0 {
      RunInduction(c, cfg, states, actions, n - 1, keeps);
      assert keeps(Next(cfg, states[n - 1], actions[n - 1]));
    }
  }

  lemma EveryRunIsWellFormed(c: Codec, cfg: Config, states: seq<State>, actions: seq<Action>, n: nat)
    requires IsRun(c, cfg, states, actions) && n < |states|
    ensures WellFormed(states[n].h)
  {
    var keeps := (s: State) => WellFormed(s.h);
    forall s: State, a | keeps(s) && s.h.dbs != [] && Enabled(c, s, a) ensures keeps(Next(cfg, s, a)) {
      StepWellFormed(c, cfg, s, a);
    }
    RunInduction(c, cfg, states, actions, n, keeps);
  }
}
