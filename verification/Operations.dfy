/** What one transaction of each server operation reads and writes, given the snapshot it runs on.
    (mvstore/src/write.rs, commit.rs) */
module Operations {
  import opened Common
  import opened Delta
  import opened Store

  // ---- Page writes ----

  datatype WriteReq = WriteReq(data: Bytes, deltaBase: Option<PageNo>)

  function ReqHashes(c: Codec, reqs: seq<WriteReq>): set<Hash> {
    set q | q in reqs :: c.hash(q.data)
  }

  /** The requests carry pages that occur. */
  predicate AllOccur(c: Codec, reqs: seq<WriteReq>) {
    forall q | q in reqs :: c.occurs(q.data)
  }

  /** Delta-encoding one request against the page it names, as of the transaction's read version. */
  function EncodeReq(c: Codec, db: Db, rv: Version, q: WriteReq): Encoding {
    if q.deltaBase.None? then Skip
    else
      match ReadPage(db.pages, q.deltaBase.value, rv)
      case None => Skip
      case Some(b) => DeltaEncode(c, db.content, b, q.data)
  }

  /** `q` was encoded against `base`, and the transaction holds the read conflict of that lookup. */
  predicate EncodedAs(c: Codec, db: Db, rv: Version, r: Reads, q: WriteReq, base: Hash, blob: Blob) {
    && q.deltaBase.Some?
    && EncodeReq(c, db, rv, q) == Encoded(base, blob)
    && PageReadRange(db.pages, q.deltaBase.value, rv) in r.pages
  }

  /** Some request is the reason that `h` is stored as `blob`. */
  predicate StoredFor(c: Codec, db: Db, rv: Version, reqs: seq<WriteReq>, r: Reads, w: Writes, h: Hash, blob: Blob) {
    exists q | q in reqs && c.hash(q.data) == h ::
      if blob.Delta? then
        EncodedAs(c, db, rv, r, q, blob.base, blob) && h in w.setReferrer && w.setReferrer[h] == blob.base
      else
        blob == Zstd(c.compress(q.data))
  }

  predicate BaseFor(c: Codec, db: Db, rv: Version, reqs: seq<WriteReq>, r: Reads, base: Hash) {
    exists q | q in reqs && c.hash(q.data) !in db.index ::
      var e := EncodeReq(c, db, rv, q); e.Encoded? && e.base == base && EncodedAs(c, db, rv, r, q, base, e.blob)
  }

  /** The transaction `apply_write` builds on snapshot `db`: content that is already indexed is only
      restamped; fresh content is stored whole or as a delta, in which case its base is restamped too. */
  predicate AppliedWrite(c: Codec, db: Db, rv: Version, reqs: seq<WriteReq>, r: Reads, w: Writes) {
    && (forall q | q in reqs :: |q.data| <= MAX_PAGE_SIZE)
    && r == NO_READS.(index := ReqHashes(c, reqs), pages := r.pages)
    && w == NO_WRITES.(setContent := w.setContent, setReferrer := w.setReferrer, stamp := w.stamp)
    && w.setContent.Keys == ReqHashes(c, reqs) - db.index.Keys
    && w.setReferrer.Keys <= w.setContent.Keys
    && (forall h | h in w.setContent :: StoredFor(c, db, rv, reqs, r, w, h, w.setContent[h]))
    && ReqHashes(c, reqs) <= w.stamp
    && (forall h | h in w.stamp && h !in ReqHashes(c, reqs) :: BaseFor(c, db, rv, reqs, r, h))
    && (forall h | h in w.setReferrer :: w.setReferrer[h] in w.stamp)
  }

  // ---- Commits ----

  /** The tunable thresholds. */
  datatype Config = Config(multiPhase: nat, plccReadSet: nat, entryMax: nat)

  /** One namespace of a commit request. */
  datatype NsCommit = NsCommit(
    assumed: Version,
    useReadSet: bool,
    readSet: set<PageNo>,
    pageWrites: seq<WriteReq>,
    indexWrites: seq<(PageNo, Hash)>)

  /** What the namespaces of one commit request share. `multi` and `plcc` are computed from the totals. */
  datatype Request = Request(token: nat, allowSkip: bool, owner: Option<string>, multi: bool, plcc: bool)

  function IndexHashes(iws: seq<(PageNo, Hash)>): set<Hash> {
    set iw | iw in iws :: iw.1
  }

  /** The page index a list of writes leaves: for a repeated page the last one wins. */
  function IndexMap(iws: seq<(PageNo, Hash)>): (m: map<PageNo, Hash>)
    ensures forall i | i in m :: m[i] in IndexHashes(iws)
    ensures forall i | i in m :: exists j | 0 <= j < |iws| :: iws[j].0 == i
  {
    if iws == [] then map[]
    else
      var last := iws[|iws| - 1];
      assert last in iws && forall iw | iw in iws[..|iws| - 1] :: iw in iws;
      IndexMap(iws[..|iws| - 1])[last.0 := last.1]
  }

  /** Write `j` of the list is the last one to its page. */
  predicate IsLastWrite(iws: seq<(PageNo, Hash)>, j: nat)
    requires j < |iws|
  {
    forall i | j < i < |iws| :: iws[i].0 != iws[j].0
  }

  /** Every page that the list names is there, as the list has it last. */
  lemma {:induction false} IndexMapIs(iws: seq<(PageNo, Hash)>, j: nat)
    requires j < |iws| && IsLastWrite(iws, j)
    ensures iws[j].0 in IndexMap(iws) && IndexMap(iws)[iws[j].0] == iws[j].1
  {
    if j < |iws| - 1 {
      IndexMapIs(iws[..|iws| - 1], j);
    }
  }

  /** A page that is named at all is named last somewhere. */
  lemma {:induction false} LastWriteOf(iws: seq<(PageNo, Hash)>, p: PageNo) returns (j: nat)
    requires exists i | 0 <= i < |iws| :: iws[i].0 == p
    ensures j < |iws| && iws[j].0 == p && IsLastWrite(iws, j)
  {
    if iws[|iws| - 1].0 == p {
      j := |iws| - 1;
    } else {
      var i :| 0 <= i < |iws| && iws[i].0 == p;
      assert iws[..|iws| - 1][i].0 == p;
      j := LastWriteOf(iws[..|iws| - 1], p);
    }
  }

  /** Hashes this commit refers to without carrying their data. */
  function SlowHashes(c: Codec, n: NsCommit): set<Hash> {
    IndexHashes(n.indexWrites) - ReqHashes(c, n.pageWrites)
  }

  predicate PhaseOneOk(c: Codec, db: Db, rv: Version, n: NsCommit, r: Reads, w: Writes) {
    && n.assumed <= rv
    && (if n.pageWrites == [] then r == NO_READS && w == NO_WRITES
        else AppliedWrite(c, db, rv, n.pageWrites, r, w))
    && SlowHashes(c, n) <= db.index.Keys
  }

  function PhaseOneReads(c: Codec, n: NsCommit, r: Reads): Reads {
    r.(index := r.index + SlowHashes(c, n))
  }

  predicate UsesPlcc(g: Request, n: NsCommit) {
    g.plcc && n.useReadSet
  }

  datatype Verdict = Gone | Conflict | Duplicate(ver: Version) | Proceed

  function LockVerdict(lock: Option<Lock>, owner: Option<string>): Verdict {
    if lock.Some? then
      if owner.None? then Conflict
      else if lock.value.owner != owner.value || lock.value.rollingBack then Gone
      else Proceed
    else if owner.Some? then Gone
    else Proceed
  }

  function LastWriteVerdict(db: Db, g: Request, n: NsCommit): Verdict {
    if UsesPlcc(g, n) && g.allowSkip then Proceed
    else
      match db.lastWrite
      case None => Proceed
      case Some(lw) =>
        if lw.token == g.token then Duplicate(lw.ver)
        else if n.assumed < lw.ver && !UsesPlcc(g, n) then Conflict
        else Proceed
  }

  predicate PageUnchanged(db: Db, n: NsCommit, p: PageNo) {
    var v := Latest(db.pages, p, MAX_VERSION);
    v.Some? ==> v.value <= n.assumed
  }

  function PhaseTwoVerdict(db: Db, g: Request, n: NsCommit): Verdict {
    var l := LockVerdict(db.lock, g.owner);
    if l != Proceed then l
    else
      var d := LastWriteVerdict(db, g, n);
      if d != Proceed then d
      else if UsesPlcc(g, n) && exists p | p in n.readSet :: !PageUnchanged(db, n, p) then Conflict
      else Proceed
  }

  function PhaseTwoReads(db: Db, g: Request, n: NsCommit): Reads {
    var plcc := UsesPlcc(g, n);
    Reads({}, if plcc then set p | p in n.readSet :: PageReadRange(db.pages, p, MAX_VERSION)
      else {}, !plcc, true, g.multi)
  }

  function ChangeEntry(cfg: Config, pages: set<PageNo>): Entry {
    if |pages| >= cfg.entryMax then Infinite else Listed(pages)
  }

  /** The index, last-write and changelog writes, added to what phase one already holds. */
  function PhaseTwoWrites(cfg: Config, g: Request, n: NsCommit, w: Writes): Writes {
    var m := IndexMap(n.indexWrites);
    w.(setPages := m,
       stamp := w.stamp + IndexHashes(n.indexWrites),
       log := Some(ChangeEntry(cfg, m.Keys)),
       lastWrite := StampLastWrite(g.token),
       ranged := g.multi)
  }

  function InfoOf(g: Request, n: NsCommit): CommitInfo {
    CommitInfo(g.token, g.owner, n.assumed, UsesPlcc(g, n), n.readSet)
  }
}
