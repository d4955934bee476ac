/** One namespace of the store, and the optimistic transactions of the key-value store below it.

    A transaction reads a past snapshot, records what it read non-snapshot (`Reads`) and what it
    writes (`Writes`). It commits at a fresh, larger versionstamp only if no event since its
    snapshot touched its reads. Commits of other namespaces appear here as idle events. */
module Store {
  import opened Common
  import opened Delta

  datatype PageKey = PageKey(idx: PageNo, ver: Version)

  predicate Before(a: PageKey, b: PageKey) {
    a.idx < b.idx || (a.idx == b.idx && a.ver < b.ver)
  }

  /** A changelog value: the pages one commit wrote, or "too many to list". */
  datatype Entry = Infinite | Listed(pages: set<PageNo>)

  datatype LastWrite = LastWrite(token: nat, ver: Version)

  datatype Lock = Lock(snapshot: Version, owner: string, nonce: nat, rollingBack: bool)

  datatype Db = Db(
    pages: map<PageKey, Hash>,
    content: map<Hash, Blob>,
    index: map<Hash, Version>,
    referrer: map<Hash, Hash>,
    changelog: map<Version, Entry>,
    lastWrite: Option<LastWrite>,
    lock: Option<Lock>,
    token: Option<nat>)

  const EMPTY_DB := Db(map[], map[], map[], map[], map[], None, None, None)

  /** The inclusive range of versions of one page. */
  datatype PageRange = PageRange(idx: PageNo, lo: Version, hi: Version)

  datatype Reads = Reads(
    index: set<Hash>,
    pages: set<PageRange>,
    lastWrite: bool,
    lock: bool,
    token: bool)

  const NO_READS := Reads({}, {}, false, false, false)

  function JoinReads(a: Reads, b: Reads): Reads {
    Reads(a.index + b.index, a.pages + b.pages, a.lastWrite || b.lastWrite, a.lock || b.lock, a.token || b.token)
  }

  datatype LogClear = NoClear | Below(before: Version) | Above(after: Version)
  datatype LastWriteSet = KeepLastWrite | StampLastWrite(token: nat) | PatchLastWrite(ver: Version)
  datatype LockSet = KeepLock | PutLock(lock: Option<Lock>)
  datatype TokenSet = KeepToken | PutToken(token: nat) | ClearToken

  /** `setPages` and `log` go under the commit's own versionstamp; `stamp` restamps content-index
      entries with it; `drop` clears content, content index and delta referrer of a hash. `ranged`
      replaces the per-key write conflicts by the two whole-range ones of a multi-phase commit. */
  datatype Writes = Writes(
    setPages: map<PageNo, Hash>,
    clearPages: set<PageKey>,
    setContent: map<Hash, Blob>,
    setReferrer: map<Hash, Hash>,
    stamp: set<Hash>,
    drop: set<Hash>,
    log: Option<Entry>,
    clearLog: LogClear,
    lastWrite: LastWriteSet,
    lock: LockSet,
    token: TokenSet,
    ranged: bool)

  const NO_WRITES :=
    Writes(map[], {}, map[], map[], {}, {}, None, NoClear, KeepLastWrite, KeepLock, KeepToken, false)

  function Apply(db: Db, w: Writes, stamp: Version): Db {
    Db(
      (db.pages - w.clearPages) + (map i | i in w.setPages :: PageKey(i, stamp) := w.setPages[i]),
      (db.content - w.drop) + w.setContent,
      (db.index - w.drop) + (map h | h in w.stamp :: stamp),
      (db.referrer - w.drop) + w.setReferrer,
      ApplyLog(db.changelog, w, stamp),
      match w.lastWrite {
        case KeepLastWrite => db.lastWrite
        case StampLastWrite(t) => Some(LastWrite(t, stamp))
        case PatchLastWrite(v) => Some(LastWrite(0, v))
      },
      if w.lock.KeepLock? then db.lock else w.lock.lock,
      match w.token {
        case KeepToken => db.token
        case PutToken(t) => Some(t)
        case ClearToken => None
      })
  }

  function ApplyLog(log: map<Version, Entry>, w: Writes, stamp: Version): map<Version, Entry> {
    var kept := match w.clearLog {
      case NoClear => log
      case Below(before) => map v | v in log && v >= before :: log[v]
      case Above(after) => map v | v in log && v <= after :: log[v]
    };
    if w.log.Some? then kept[stamp := w.log.value] else kept
  }

  /** What happened, for stating what runs promise; the store itself never looks at it. */
  datatype Kind =
    | Idle
    | Write
    | PhaseOne
    | Commit(info: CommitInfo)
    | Collect
    | Truncate(before: Version)
    | TrimLog(before: Version)
    | Acquire
    | Release
    | Mark
    | RollBatch(snapshot: Version)
    | RollFinish(snapshot: Version, nonce: nat)

  /** What a commit asked for in this namespace. */
  datatype CommitInfo = CommitInfo(
    token: nat,
    owner: Option<string>,
    assumed: Version,
    plcc: bool,
    readSet: set<PageNo>)

  datatype Event = Event(stamp: Version, writes: Writes, kind: Kind)

  // ---- Conflicts ----

  predicate TouchesIndex(w: Writes, h: Hash) {
    h in w.drop || (if w.ranged then h != MAX_HASH else h in w.stamp)
  }

  predicate TouchesPage(e: Event, k: PageKey) {
    k in e.writes.clearPages || e.writes.ranged || (k.ver == e.stamp && k.idx in e.writes.setPages)
  }

  predicate InRange(r: PageRange, k: PageKey) {
    k.idx == r.idx && r.lo <= k.ver <= r.hi
  }

  ghost predicate Touches(r: Reads, e: Event) {
    || (exists h :: h in r.index && TouchesIndex(e.writes, h))
    || (exists p, k :: p in r.pages && InRange(p, k) && TouchesPage(e, k))
    || (r.lastWrite && !e.writes.lastWrite.KeepLastWrite?)
    || (r.lock && !e.writes.lock.KeepLock?)
    || (r.token && !e.writes.token.KeepToken?)
  }

  // ---- Histories ----

  /** `dbs[i]` is the snapshot after the first `i` events. No future event is stamped at or
      below `clock`. */
  datatype History = History(dbs: seq<Db>, evs: seq<Event>, clock: Version)

  const NEW_HISTORY := History([EMPTY_DB], [], 0)

  ghost predicate WellFormed(h: History) {
    && |h.dbs| == |h.evs| + 1
    && h.dbs[0] == EMPTY_DB
    && (forall i | 0 <= i < |h.evs| :: h.dbs[i + 1] == Apply(h.dbs[i], h.evs[i].writes, h.evs[i].stamp))
    && (forall i, j | 0 <= i < j < |h.evs| :: h.evs[i].stamp < h.evs[j].stamp)
    && (forall i | 0 <= i < |h.evs| :: 0 < h.evs[i].stamp <= h.clock)
    && h.clock < MAX_VERSION
  }

  function Now(h: History): Db
    requires h.dbs != []
  {
    h.dbs[|h.dbs| - 1]
  }

  /** `rv` is the versionstamp form of a read version that sees exactly the first `seen` events. */
  ghost predicate ReadVersion(h: History, seen: nat, rv: Version) {
    && seen <= |h.evs|
    && rv <= h.clock
    && (forall i | 0 <= i < seen :: h.evs[i].stamp <= rv)
    && (forall i | seen <= i < |h.evs| :: rv < h.evs[i].stamp)
  }

  ghost predicate NoConflict(h: History, seen: nat, r: Reads) {
    && seen <= |h.evs|
    && (forall i | seen <= i < |h.evs| :: !Touches(r, h.evs[i]))
  }

  function Append(h: History, e: Event): History
    requires h.dbs != []
  {
    History(h.dbs + [Apply(Now(h), e.writes, e.stamp)], h.evs + [e], e.stamp)
  }

  /** The next event's versionstamp may be any number above the clock. */
  predicate NextStamp(h: History, stamp: Version) {
    h.clock < stamp < MAX_VERSION
  }

  lemma AppendedStep(h: History, e: Event, i: nat)
    requires WellFormed(h) && i <= |h.evs|
    ensures var h' := Append(h, e); h'.dbs[i + 1] == Apply(h'.dbs[i], h'.evs[i].writes, h'.evs[i].stamp)
  {
  }

  lemma AppendedStamps(h: History, e: Event)
    requires WellFormed(h) && NextStamp(h, e.stamp)
    ensures var evs := h.evs + [e];
      && (forall i, j | 0 <= i < j < |evs| :: evs[i].stamp < evs[j].stamp)
      && (forall i | 0 <= i < |evs| :: 0 < evs[i].stamp <= e.stamp)
  {
  }

  lemma AppendWellFormed(h: History, e: Event)
    requires WellFormed(h) && NextStamp(h, e.stamp)
    ensures WellFormed(Append(h, e))
    ensures var h' := Append(h, e);
      && h'.dbs[..|h.dbs|] == h.dbs && h'.evs[..|h.evs|] == h.evs
      && Now(h') == Apply(Now(h), e.writes, e.stamp)
  {
    var h' := Append(h, e);
    forall i | 0 <= i < |h'.evs| ensures h'.dbs[i + 1] == Apply(h'.dbs[i], h'.evs[i].writes, h'.evs[i].stamp) {
      AppendedStep(h, e, i);
    }
    AppendedStamps(h, e);
  }

  // ---- What an untouched read means at commit time ----

  lemma IndexUntouched(h: History, seen: nat, r: Reads, x: Hash)
    requires WellFormed(h) && NoConflict(h, seen, r)
    requires x in r.index && x != MAX_HASH
    ensures x in Now(h).index <==> x in h.dbs[seen].index
    ensures x in Now(h).index ==> Now(h).index[x] == h.dbs[seen].index[x]
  {
    var n := seen;
    while n < |h.evs|
      invariant seen <= n <= |h.evs|
      invariant x in h.dbs[n].index <==> x in h.dbs[seen].index
      invariant x in h.dbs[n].index ==> h.dbs[n].index[x] == h.dbs[seen].index[x]
    {
      assert !Touches(r, h.evs[n]);
      assert !TouchesIndex(h.evs[n].writes, x);
      assert h.dbs[n + 1] == Apply(h.dbs[n], h.evs[n].writes, h.evs[n].stamp);
      n := n + 1;
    }
  }

  lemma LockUntouched(h: History, seen: nat, r: Reads)
    requires WellFormed(h) && NoConflict(h, seen, r) && r.lock
    ensures forall n | seen <= n <= |h.evs| :: h.dbs[n].lock == h.dbs[seen].lock
    ensures forall n | seen <= n < |h.evs| :: h.evs[n].writes.lock.KeepLock?
  {
    var n := seen;
    while n < |h.evs|
      invariant seen <= n <= |h.evs|
      invariant forall i | seen <= i <= n :: h.dbs[i].lock == h.dbs[seen].lock
      invariant forall i | seen <= i < n :: h.evs[i].writes.lock.KeepLock?
    {
      assert !Touches(r, h.evs[n]);
      assert h.dbs[n + 1] == Apply(h.dbs[n], h.evs[n].writes, h.evs[n].stamp);
      n := n + 1;
    }
  }

  // ---- Page reads ----

  /** The greatest stored version of page `i` at or below `v`: a reverse scan with limit 1. */
  function Latest(pages: map<PageKey, Hash>, i: PageNo, v: Version): (r: Option<Version>)
    ensures r.Some? ==> r.value <= v && PageKey(i, r.value) in pages
    ensures r.Some? ==> forall u | r.value < u <= v :: PageKey(i, u) !in pages
    ensures r.None? ==> forall u | 0 <= u <= v :: PageKey(i, u) !in pages
  {
    if PageKey(i, v) in pages then Some(v)
    else if v == 0 then None
    else Latest(pages, i, v - 1)
  }

  function ReadPage(pages: map<PageKey, Hash>, i: PageNo, v: Version): Option<Hash> {
    match Latest(pages, i, v)
    case None => None
    case Some(u) => Some(pages[PageKey(i, u)])
  }

  /** The read-conflict range of a non-snapshot page read: from the version found to the one asked for. */
  function PageReadRange(pages: map<PageKey, Hash>, i: PageNo, v: Version): PageRange {
    var found := Latest(pages, i, v);
    PageRange(i, if found.Some? then found.value else 0, v)
  }
}
