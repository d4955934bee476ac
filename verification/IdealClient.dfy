/** A client without any cache or buffers: what every call on a connection returns, and what a transaction
    is. `Connection` behaves like it in every sequence of calls. (mvfs/src/vfs.rs, mvclient/src/lib.rs) */
module IdealClient {
  import opened Common
  import opened Octets
  import opened Client

  /** `NoPage` is the panic on a page that does not exist, `BadSize` a page that is not one sector long. */
  datatype ReadResult = Data(page: Page) | BadSize | NoPage

  const READ_SET_LIMIT := 2000

  /** Bytes 24..28 and 92..96 of page 0 carry a change counter that only SQLite's own cache looks at. */
  function WithCounter(page: Page, counter: nat): Page
    requires |page| >= 96 && counter < Power(4)
  {
    page[..24] + BigEndian(counter, 4) + page[28..92] + BigEndian(counter, 4) + page[96..]
  }

  /** Only those eight bytes change, to the big-endian counter twice. */
  lemma CounterBytes(page: Page, counter: nat)
    requires |page| >= 96 && counter < Power(4)
    ensures |WithCounter(page, counter)| == |page|
    ensures forall i | 0 <= i < |page| && !(24 <= i < 28) && !(92 <= i < 96) :: WithCounter(page, counter)[i] == page[i]
    ensures Value(WithCounter(page, counter)[24..28]) == counter == Value(WithCounter(page, counter)[92..96])
  {
    var bytes, r := BigEndian(counter, 4), WithCounter(page, counter);
    BigEndianRoundTrip(counter, 4);
    var a, b := page[..24] + bytes, page[..24] + bytes + page[28..92];
    assert r == a + (page[28..92] + bytes + page[96..]) && r[24..28] == a[24..28] == bytes;
    assert r == b + bytes + page[96..] && |b| == 92 && r[92..96] == bytes;
  }

  /** The first page names the sector size, and its two format bytes do not ask for a write-ahead log. */
  predicate GoodHeader(page: Page, sectorSize: nat)
    requires |page| >= 96
  {
    (page[16] as nat) * 0x100 + page[17] as nat == sectorSize && page[18] != 2 && page[19] != 2
  }

  /** What a write to page `p` stores. */
  function Normal(p: PageNo, data: Page): Page
    requires |data| >= 96
  {
    if p == 0 then WithCounter(data, 0) else data
  }

  /** Other pages are stored as they are, the first one with those eight bytes zero. */
  lemma NormalBytes(p: PageNo, data: Page)
    requires |data| >= 96
    ensures |Normal(p, data)| == |data|
    ensures p != 0 ==> Normal(p, data) == data
    ensures forall i | 0 <= i < |data| && !(24 <= i < 28) && !(92 <= i < 96) :: Normal(p, data)[i] == data[i]
    ensures p == 0 ==> forall i | 24 <= i < 28 || 92 <= i < 96 :: Normal(p, data)[i] == 0
  {
    if p == 0 {
      ZeroBytes(4);
      assert BigEndian(0, 4) == [0, 0, 0, 0];
    }
  }

  lemma {:induction false} ZeroBytes(n: nat)
    ensures 0 < Power(n) && BigEndian(0, n) == seq(n, _ => 0)
  {
    if n > 0 { ZeroBytes(n - 1); }
  }

  function Show(page: Option<Page>, sectorSize: nat): ReadResult {
    if page.None? then NoPage else if |page.value| != sectorSize then BadSize else Data(page.value)
  }

  /** What a commit asks of the server for one namespace. */
  datatype Intent = Intent(version: Version, writes: map<PageNo, Page>, readSet: Option<set<PageNo>>)

  // ---- Transactions ----

  /** The pages a transaction has changed, those it has been shown, and the read set if it is record. */
  datatype Work = Work(
    version: Version, writes: map<PageNo, Page>, recorded: Option<set<PageNo>>, shown: set<PageNo>)

  function Start(v: Version, record: bool): Work {
    Work(v, map[], if record then Some({}) else None, {})
  }

  datatype Ideal = Ideal(
    lock: LockKind, pinned: Option<Version>, confirmed: bool, counter: nat, known: Option<Version>,
    work: Option<Work>)

  const IDLE := Ideal(NoLock, None, false, 0, None, None)

  ghost predicate Sane(i: Ideal) {
    && (Level(i.lock) >= RESERVED_LEVEL ==> i.work.Some?) && (i.lock == NoLock ==> i.work.None?)
    && i.counter < Power(4)
    && (i.work.Some? ==>
          && i.known == Some(i.work.value.version)
          && (i.work.value.recorded.Some? ==> i.work.value.shown <= i.work.value.recorded.value)
          && (Level(i.lock) < RESERVED_LEVEL ==> i.work.value.writes == map[]))
  }

  /** The server as this connection meets it: the snapshots, and its answers to the `k`-th call. */
  datatype World = World(
    snap: Snapshots, firstPage: Page, sectorSize: nat,
    stats: (nat, Option<Version>) -> Option<Stat>, commits: (nat, Intent) -> Reply)

  /** The conflict check: what was read has not changed, or nothing has where no read set is sent. */
  ghost predicate CheckOk(snap: Snapshots, x: Intent, reply: Reply) {
    reply.Committed? ==>
      forall p {:trigger Find(snap(reply.version), p)} | p !in x.writes && (x.readSet.Some? ==> p in x.readSet.value) ::
        Find(snap(reply.version), p) == Find(snap(x.version), p)
  }

  ghost predicate Promises(w: World) {
    && |w.firstPage| == w.sectorSize >= 96
    && (forall k, from :: w.stats(k, from).Some? ==> StatOk(w.snap, from, w.stats(k, from).value))
    && (forall k, x: Intent ::
          CommitOk(w.snap, x.version, x.writes, w.commits(k, x)) && CheckOk(w.snap, x, w.commits(k, x)))
  }

  // ---- Calls ----

  /** Calls on a connection; `Drop` is the cache losing pages. */
  datatype Call =
    | Drop(keep: set<PageNo>)
    | ReadAt(p: PageNo, ahead: set<PageNo>)
    | WriteAt(p: PageNo, data: Page)
    | Confirm
    | PinTo(version: Option<Version>)
    | Take(kind: LockKind)
    | Release(kind: LockKind)

  datatype Answer =
    | Done
    | Shown(result: ReadResult)
    | Wrote(skipped: bool)
    | Told(ok: bool)
    | Ended(ok: bool, sent: Option<Intent>)

  /** What a transaction sees: its last write to the page, or else the page in its snapshot. */
  function Looks(snap: Snapshots, firstPage: Page, work: Work, p: PageNo): Option<Page> {
    if p in work.writes then Some(work.writes[p]) else SnapshotPage(snap, firstPage, work.version, p)
  }

  function WithRead(i: Ideal, p: PageNo): Ideal {
    if i.work.None? then i
    else
      var t := i.work.value;
      var recorded := if t.recorded.Some? then Some(t.recorded.value + {p}) else None;
      i.(work := Some(t.(recorded := recorded, shown := t.shown + {p})))
  }

  /** A transaction shows what it should; without one there is only the template. */
  function ReadAnswer(snap: Snapshots, firstPage: Page, sectorSize: nat, i: Ideal, p: PageNo): ReadResult
    requires |firstPage| == sectorSize >= 96 && i.counter < Power(4)
  {
    if i.work.None? then Data(firstPage)
    else
      var shown := Show(Looks(snap, firstPage, i.work.value, p), sectorSize);
      if p == 0 && shown.Data? then Data(WithCounter(shown.page, i.counter)) else shown
  }

  function WithWrite(i: Ideal, p: PageNo, page: Page, skipped: bool): Ideal
    requires i.work.Some?
  {
    if skipped then i else i.(work := Some(i.work.value.(writes := i.work.value.writes[p := page])))
  }

  predicate Begins(i: Ideal, kind: LockKind, stat: Option<Stat>) {
    i.lock != kind && i.work.None? && (i.pinned.Some? || stat.Some?)
  }

  function WithLock(i: Ideal, kind: LockKind, stat: Option<Stat>): Ideal {
    if i.work.Some? then i.(lock := kind)
    else if !Begins(i, kind, stat) then i
    else
      var v := if i.pinned.Some? then i.pinned.value else stat.value.version;
      i.(lock := kind, counter := (i.counter + 2) % Power(4), known := Some(v), work := Some(Start(v, true)))
  }

  /** Giving up the write locks ends a transaction. */
  predicate Leaves(i: Ideal, kind: LockKind) {
    Level(i.lock) >= RESERVED_LEVEL > Level(kind)
  }

  /** It is sent exactly if SQLite confirmed it, the connection is not pinned, and it changed a page. A large
      read set is left out. */
  function SentBy(i: Ideal, kind: LockKind): Option<Intent> {
    if Leaves(i, kind) && i.confirmed && i.pinned.None? && i.work.Some? && i.work.value.writes != map[] then
      var t := i.work.value;
      var large := t.recorded.Some? && |t.recorded.value| > READ_SET_LIMIT;
      Some(Intent(t.version, t.writes, if large then None else t.recorded))
    else None
  }

  /** The version at which the client goes on after ending a transaction, and whether it does. */
  function WorkAfter(i: Ideal, kind: LockKind, reply: Reply): Option<Work> {
    if i.work.None? then None
    else if !Leaves(i, kind) then i.work
    else if !i.confirmed || i.pinned.Some? then None
    else if SentBy(i, kind).None? then Some(Start(i.work.value.version, false))
    else if reply.Conflict? then None
    else Some(Start(reply.version, false))
  }

  function WithUnlock(i: Ideal, kind: LockKind, reply: Reply): Ideal {
    i.(lock := kind, confirmed := i.confirmed && !Leaves(i, kind),
       known := if SentBy(i, kind).Some? && reply.Committed? then Some(reply.version) else i.known,
       work := if kind == NoLock then None else WorkAfter(i, kind, reply))
  }

  function ReplyTo(w: World, k: nat, sent: Option<Intent>): Reply {
    if sent.Some? then w.commits(k, sent.value) else Conflict
  }

  /** Call number `k` takes the client from `i` to `i'`. A write may be skipped only if it changes nothing. */
  ghost predicate Does(w: World, k: nat, i: Ideal, call: Call, answer: Answer, i': Ideal)
    requires |w.firstPage| == w.sectorSize >= 96
  {
    match call
    case Drop(_) => answer == Done && i' == i
    case ReadAt(p, _) =>
      && i.counter < Power(4) && (i.work.None? ==> p == 0)
      && answer == Shown(ReadAnswer(w.snap, w.firstPage, w.sectorSize, i, p)) && i' == WithRead(i, p)
    case WriteAt(p, data) =>
      && i.work.Some? && Level(i.lock) >= RESERVED_LEVEL && |data| == w.sectorSize && answer.Wrote?
      && (answer.skipped ==> Looks(w.snap, w.firstPage, i.work.value, p) == Some(Normal(p, data)))
      && i' == WithWrite(i, p, Normal(p, data), answer.skipped)
    case Confirm => !i.confirmed && answer == Done && i' == i.(confirmed := true)
    case PinTo(version) =>
      answer == Told(i.work.None?) && i' == i.(pinned := if i.work.None? then version else i.pinned)
    case Take(kind) =>
      var stat := w.stats(k, i.known);
      && kind != NoLock && (Level(kind) < RESERVED_LEVEL && i.work.Some? ==> i.work.value.writes == map[])
      && answer == Told(i.lock == kind || i.work.Some? || i.pinned.Some? || stat.Some?)
      && i' == WithLock(i, kind, stat)
    case Release(kind) =>
      var sent := SentBy(i, kind);
      var reply := ReplyTo(w, k, sent);
      && (Level(kind) >= RESERVED_LEVEL ==> i.work.Some?)
      && answer == Ended(!(sent.Some? && reply.Conflict?), sent)
      && i' == WithUnlock(i, kind, reply)
  }

  ghost predicate IsTrace(w: World, ids: seq<Ideal>, calls: seq<Call>, answers: seq<Answer>)
    requires |w.firstPage| == w.sectorSize >= 96
  {
    && |ids| == |calls| + 1 == |answers| + 1
    && forall k | 0 <= k < |calls| :: Does(w, k, ids[k], calls[k], answers[k], ids[k + 1])
  }
}
