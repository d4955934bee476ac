/** The commit method, namespace by namespace: what it refuses, and the transaction it builds.
    (mvstore/src/commit.rs) */
module CommitRequest {
  import opened Common
  import opened Delta
  import opened Store
  import opened Operations
  import opened Protocol
  import opened ApplyWrite
  import opened Cluster

  datatype NsPart = NsPart(ns: Namespace, n: NsCommit)

  /** `Built` carries, for each namespace, the reads and writes of the transaction that is about to commit. */
  datatype Outcome =
    | NotDistinct
    | Refused(verdict: Verdict)
    | BadPageReference
    | WriteFailed
    | Interrupted
    | Built(txns: seq<Txn>)

  predicate Distinct(parts: seq<NsPart>) {
    forall i, j | 0 <= i < j < |parts| :: parts[i].ns != parts[j].ns
  }

  function SumWrites(parts: seq<NsPart>): nat {
    if parts == [] then 0 else |parts[0].n.indexWrites| + SumWrites(parts[1..])
  }

  function SumReads(parts: seq<NsPart>): nat {
    if parts == [] then 0 else |parts[0].n.readSet| + SumReads(parts[1..])
  }

  /** The phases and the kind of conflict check follow from the totals over all namespaces. */
  function Plan(cfg: Config, parts: seq<NsPart>, token: nat, allowSkip: bool, owner: Option<string>): Request {
    var multi := SumWrites(parts) >= cfg.multiPhase;
    Request(token, allowSkip, owner, multi, !multi && SumReads(parts) <= cfg.plccReadSet)
  }

  method CheckDistinct(parts: seq<NsPart>) returns (ok: bool)
    ensures ok <==> Distinct(parts)
  {
    var seen := {};
    for i := 0 to |parts|
      invariant seen == set j | 0 <= j < i :: parts[j].ns
      invariant |seen| <= i && (|seen| == i <==> Distinct(parts[..i]))
    {
      assert Distinct(parts[..i + 1]) <==> Distinct(parts[..i]) && parts[i].ns !in seen;
      seen := seen + {parts[i].ns};
    }
    assert parts[..|parts|] == parts;
    ok := |seen| == |parts|;
  }

  // ---- Phase one: page writes and references ----

  predicate Behind(rv: Version, n: NsCommit) {
    rv < n.assumed
  }

  predicate Fails(c: Codec, db: Db, rv: Version, n: NsCommit) {
    n.pageWrites != [] && (TooLarge(n.pageWrites) || BrokenBase(c, db, rv, Deduped(c, n.pageWrites)))
  }

  predicate Missing(c: Codec, db: Db, n: NsCommit) {
    !(SlowHashes(c, n) <= db.index.Keys)
  }

  /** A reference is missing exactly if an index write names a hash that is neither in the content index nor that of a
      page the request carries. */
  lemma MissingMeans(c: Codec, db: Db, n: NsCommit)
    ensures Missing(c, db, n) <==>
      exists j | 0 <= j < |n.indexWrites| ::
        n.indexWrites[j].1 !in db.index && forall q | q in n.pageWrites :: c.hash(q.data) != n.indexWrites[j].1
  {
    if exists j | 0 <= j < |n.indexWrites| ::
      n.indexWrites[j].1 !in db.index && forall q | q in n.pageWrites :: c.hash(q.data) != n.indexWrites[j].1
    {
      var j :| 0 <= j < |n.indexWrites| && n.indexWrites[j].1 !in db.index
        && forall q | q in n.pageWrites :: c.hash(q.data) != n.indexWrites[j].1;
      assert n.indexWrites[j] in n.indexWrites && n.indexWrites[j].1 in SlowHashes(c, n);
    }
  }

  /** The plan for one namespace, and what one more namespace adds to it. */
  lemma PlanMeans(cfg: Config, part: NsPart, parts: seq<NsPart>, token: nat, allowSkip: bool, owner: Option<string>)
    ensures var g := Plan(cfg, [part], token, allowSkip, owner);
      && g.token == token && g.allowSkip == allowSkip && g.owner == owner
      && (g.multi <==> |part.n.indexWrites| >= cfg.multiPhase)
      && (g.plcc <==> |part.n.indexWrites| < cfg.multiPhase && |part.n.readSet| <= cfg.plccReadSet)
    ensures var writes, reads' := |part.n.indexWrites|, |part.n.readSet|;
      Plan(cfg.(multiPhase := cfg.multiPhase + writes, plccReadSet := cfg.plccReadSet + reads'), [part] + parts, token,
           allowSkip, owner) == Plan(cfg, parts, token, allowSkip, owner)
  {
    var all := [part] + parts;
    assert all[0] == part && all[1..] == parts;
    assert SumWrites([part]) == |part.n.indexWrites| + SumWrites([part][1..]) && [part][1..] == [];
    assert SumReads([part]) == |part.n.readSet| + SumReads([part][1..]);
  }

  /** The content-index reads for hashes that the request only refers to. */
  method ReadReferences(c: Codec, n: NsCommit, db: Db) returns (slow: set<Hash>, found: bool)
    ensures slow == SlowHashes(c, n) && (found <==> !Missing(c, db, n))
  {
    var fast := ReqHashes(c, n.pageWrites);
    slow, found := {}, true;
    for i := 0 to |n.indexWrites|
      invariant slow == IndexHashes(n.indexWrites[..i]) - fast && (found <==> slow <= db.index.Keys)
    {
      assert n.indexWrites[..i + 1] == n.indexWrites[..i] + [n.indexWrites[i]];
      HashesAppend(n.indexWrites[..i], n.indexWrites[i]);
      var hash := n.indexWrites[i].1;
      if hash !in fast {
        slow := slow + {hash};
        if hash !in db.index { found := false; }
      }
    }
    assert n.indexWrites[..|n.indexWrites|] == n.indexWrites;
  }

  lemma HashesAppend(iws: seq<(PageNo, Hash)>, iw: (PageNo, Hash))
    ensures IndexHashes(iws + [iw]) == IndexHashes(iws) + {iw.1}
  {
  }

  /** What phase one did in one namespace: its page writes, and all its reads. */
  datatype PhaseOneTxn = PhaseOneTxn(applied: Txn, r: Reads)

  predicate PhaseOneDone(c: Codec, db: Db, rv: Version, n: NsCommit, x: PhaseOneTxn) {
    PhaseOneOk(c, db, rv, n, x.applied.r, x.applied.w) && x.r == PhaseOneReads(c, n, x.applied.r)
  }

  /** What phase one says of namespaces `0..i`, none of which it refused outright. */
  predicate PassedTo(c: Codec, rv: Version, parts: seq<NsPart>, dbs: seq<Db>, i: nat)
    requires |dbs| == |parts| && i <= |parts|
  {
    forall j | 0 <= j < i :: !Behind(rv, parts[j].n) && !Fails(c, dbs[j], rv, parts[j].n)
  }

  datatype PhaseOneResult = Stopped(outcome: Outcome) | Ready(txns: seq<PhaseOneTxn>)

  /** The first namespace that is behind the client or whose page writes fail decides; then missing references do. */
  ghost predicate PhaseOneResultOk(c: Codec, rv: Version, parts: seq<NsPart>, dbs: seq<Db>, out: PhaseOneResult)
    requires |dbs| == |parts|
  {
    match out
    case Ready(txns) =>
      |txns| == |parts| && forall i | 0 <= i < |parts| :: PhaseOneDone(c, dbs[i], rv, parts[i].n, txns[i])
    case Stopped(Refused(Conflict)) =>
      exists i | 0 <= i < |parts| :: PassedTo(c, rv, parts, dbs, i) && Behind(rv, parts[i].n)
    case Stopped(WriteFailed) =>
      exists i | 0 <= i < |parts| ::
        PassedTo(c, rv, parts, dbs, i) && !Behind(rv, parts[i].n) && Fails(c, dbs[i], rv, parts[i].n)
    case Stopped(BadPageReference) =>
      PassedTo(c, rv, parts, dbs, |parts|) && exists i | 0 <= i < |parts| :: Missing(c, dbs[i], parts[i].n)
    case _ => false
  }

  method PhaseOne(c: Codec, rv: Version, parts: seq<NsPart>, dbs: seq<Db>) returns (out: PhaseOneResult)
    requires |dbs| == |parts|
    ensures PhaseOneResultOk(c, rv, parts, dbs, out)
  {
    var txns, allFound := [], true;
    for i := 0 to |parts|
      invariant |txns| == i && PassedTo(c, rv, parts, dbs, i)
      invariant allFound ==> forall j | 0 <= j < i :: PhaseOneDone(c, dbs[j], rv, parts[j].n, txns[j])
      invariant !allFound ==> exists j | 0 <= j < i :: Missing(c, dbs[j], parts[j].n)
    {
      var n, db := parts[i].n, dbs[i];
      if rv < n.assumed { return Stopped(Refused(Conflict)); }
      var applied := Some(NEW_TXN);
      if n.pageWrites != [] {
        applied := ApplyWrites(c, db, rv, n.pageWrites);
        if applied.None? { return Stopped(WriteFailed); }
      }
      var slow, found := ReadReferences(c, n, db);
      var r := applied.value.r;
      var x := PhaseOneTxn(applied.value, r.(index := r.index + slow));
      allFound := allFound && found;
      assert found ==> PhaseOneDone(c, db, rv, n, x);
      txns := txns + [x];
    }
    return if allFound then Ready(txns) else Stopped(BadPageReference);
  }

  // ---- Phase two: lock, conflict checks, index writes ----

  /** A commit may go on exactly if nobody holds a lock and none is claimed, or if it comes from the owner of
      a lock that is not being rolled back. */
  method CheckLock(db: Db, g: Request) returns (verdict: Verdict)
    ensures verdict.Proceed? <==>
      if db.lock.None? then g.owner.None? else g.owner == Some(db.lock.value.owner) && !db.lock.value.rollingBack
    ensures verdict.Conflict? <==> db.lock.Some? && g.owner.None?
    ensures !verdict.Duplicate?
  {
    if db.lock.Some? {
      if g.owner.Some? {
        if db.lock.value.owner != g.owner.value { return Gone; }
        if db.lock.value.rollingBack { return Gone; }
      } else {
        return Conflict;
      }
    } else {
      if g.owner.Some? { return Gone; }
    }
    return Proceed;
  }

  /** The page-level check: every page of the read set, and the read conflict of each lookup. */
  method CheckReadSet(db: Db, n: NsCommit) returns (ranges: set<PageRange>, current: bool)
    ensures ranges == set p | p in n.readSet :: PageReadRange(db.pages, p, MAX_VERSION)
    ensures current <==> forall p | p in n.readSet :: PageUnchanged(db, n, p)
  {
    ranges, current := {}, true;
    var left := n.readSet;
    ghost var done: set<PageNo> := {};
    while left != {}
      invariant done + left == n.readSet
      invariant ranges == set p | p in done :: PageReadRange(db.pages, p, MAX_VERSION)
      invariant current <==> forall p | p in done :: PageUnchanged(db, n, p)
      decreases |left|
    {
      var p :| p in left;
      left := left - {p};
      ranges := ranges + {PageReadRange(db.pages, p, MAX_VERSION)};
      var found := Latest(db.pages, p, MAX_VERSION);
      if found.Some? && found.value > n.assumed { current := false; }
      done := done + {p};
    }
  }

  method WriteIndex(iws: seq<(PageNo, Hash)>) returns (m: map<PageNo, Hash>, stamped: set<Hash>)
    ensures m == IndexMap(iws) && stamped == IndexHashes(iws)
    ensures forall p :: p in m <==> exists j | 0 <= j < |iws| :: iws[j].0 == p
    ensures forall j: nat | j < |iws| && IsLastWrite(iws, j) :: m[iws[j].0] == iws[j].1
  {
    m, stamped := map[], {};
    for i := 0 to |iws|
      invariant m == IndexMap(iws[..i]) && stamped == IndexHashes(iws[..i])
    {
      assert iws[..i + 1] == iws[..i] + [iws[i]] && iws[..i + 1][..i] == iws[..i];
      HashesAppend(iws[..i], iws[i]);
      m := m[iws[i].0 := iws[i].1];
      stamped := stamped + {iws[i].1};
    }
    assert iws[..|iws|] == iws;
    forall p | exists j | 0 <= j < |iws| :: iws[j].0 == p ensures p in m {
      var j := LastWriteOf(iws, p);
      IndexMapIs(iws, j);
    }
    forall j: nat | j < |iws| && IsLastWrite(iws, j) ensures m[iws[j].0] == iws[j].1 {
      IndexMapIs(iws, j);
    }
  }

  /** Idempotency and the database-level conflict check. */
  method CheckLastWrite(db: Db, g: Request, n: NsCommit) returns (verdict: Verdict)
    ensures verdict == LastWriteVerdict(db, g, n)
  {
    var plcc := g.plcc && n.useReadSet;
    if !plcc || !g.allowSkip {
      if db.lastWrite.Some? {
        if db.lastWrite.value.token == g.token { return Duplicate(db.lastWrite.value.ver); }
        if n.assumed < db.lastWrite.value.ver {
          if !plcc { return Conflict; }
        }
      }
    }
    return Proceed;
  }

  method CheckPart(g: Request, n: NsCommit, db: Db) returns (verdict: Verdict, r: Reads)
    ensures verdict == PhaseTwoVerdict(db, g, n)
    ensures verdict == Proceed ==> r == PhaseTwoReads(db, g, n)
  {
    var plcc := g.plcc && n.useReadSet;
    r := Reads({}, {}, !plcc, true, g.multi);
    verdict := CheckLock(db, g);
    if verdict != Proceed { return; }
    verdict := CheckLastWrite(db, g, n);
    if verdict != Proceed { return; }
    if plcc {
      var ranges, current := CheckReadSet(db, n);
      r := r.(pages := ranges);
      if !current { verdict := Conflict; }
    }
  }

  method PhaseTwoPart(cfg: Config, g: Request, n: NsCommit, db: Db, w0: Writes) returns (verdict: Verdict, x: Txn)
    ensures verdict == PhaseTwoVerdict(db, g, n)
    ensures verdict == Proceed ==> x == Txn(PhaseTwoReads(db, g, n), PhaseTwoWrites(cfg, g, n, w0))
  {
    var r;
    verdict, r := CheckPart(g, n, db);
    x := Txn(r, w0);
    if verdict != Proceed { return; }
    var m, stamped := WriteIndex(n.indexWrites);
    var entry := if |m.Keys| >= cfg.entryMax then Infinite else Listed(m.Keys);
    x := Txn(r, w0.(setPages := m, stamp := w0.stamp + stamped, log := Some(entry),
      lastWrite := StampLastWrite(g.token), ranged := g.multi));
  }

  // ---- The whole request ----

  /** What the last transaction holds in one namespace: with one phase, everything; with two, the second only. */
  predicate BuiltPart(c: Codec, cfg: Config, g: Request, n: NsCommit, db: Db, one: PhaseOneTxn, x: Txn) {
    && x.r == (if g.multi then PhaseTwoReads(db, g, n) else JoinReads(one.r, PhaseTwoReads(db, g, n)))
    && x.w == PhaseTwoWrites(cfg, g, n, if g.multi then NO_WRITES else one.applied.w)
  }

  /** What phase two says of the first `i` namespaces. */
  predicate ProceedTo(g: Request, parts: seq<NsPart>, dbs: seq<Db>, i: nat)
    requires |dbs| == |parts| && i <= |parts|
  {
    forall j | 0 <= j < i :: PhaseTwoVerdict(dbs[j], g, parts[j].n) == Proceed
  }

  /** The first namespace that does not proceed decides. */
  predicate RefusedBy(g: Request, parts: seq<NsPart>, dbs: seq<Db>, verdict: Verdict)
    requires |dbs| == |parts|
  {
    verdict != Proceed && exists i | 0 <= i < |parts| ::
      ProceedTo(g, parts, dbs, i) && PhaseTwoVerdict(dbs[i], g, parts[i].n) == verdict
  }

  lemma FirstRefusal(g: Request, parts: seq<NsPart>, dbs: seq<Db>, i: nat)
    requires |dbs| == |parts| && i < |parts| && ProceedTo(g, parts, dbs, i)
    requires PhaseTwoVerdict(dbs[i], g, parts[i].n) != Proceed
    ensures RefusedBy(g, parts, dbs, PhaseTwoVerdict(dbs[i], g, parts[i].n))
  {
  }

  lemma ProceedOne(g: Request, parts: seq<NsPart>, dbs: seq<Db>, i: nat)
    requires |dbs| == |parts| && i < |parts| && ProceedTo(g, parts, dbs, i)
    requires PhaseTwoVerdict(dbs[i], g, parts[i].n) == Proceed
    ensures ProceedTo(g, parts, dbs, i + 1)
  {
  }

  method BuildPart(
      c: Codec, cfg: Config, g: Request, n: NsCommit, db: Db, one: PhaseOneTxn) returns (verdict: Verdict, x: Txn)
    ensures verdict == PhaseTwoVerdict(db, g, n)
    ensures verdict == Proceed ==> BuiltPart(c, cfg, g, n, db, one, x)
  {
    verdict, x := PhaseTwoPart(cfg, g, n, db, if g.multi then NO_WRITES else one.applied.w);
    if !g.multi { x := x.(r := JoinReads(one.r, x.r)); }
  }

  predicate AllBuilt(
      c: Codec, cfg: Config, g: Request, parts: seq<NsPart>, dbs: seq<Db>, ones: seq<PhaseOneTxn>, txns: seq<Txn>)
    requires |dbs| == |parts| == |ones|
  {
    |txns| == |parts| && forall i | 0 <= i < |parts| :: BuiltPart(c, cfg, g, parts[i].n, dbs[i], ones[i], txns[i])
  }

  method PhaseTwo(
      c: Codec, cfg: Config, g: Request, parts: seq<NsPart>, dbs: seq<Db>,
      ones: seq<PhaseOneTxn>) returns (out: Outcome)
    requires |dbs| == |parts| == |ones|
    ensures out.Built? || out.Refused?
    ensures out.Built? ==> ProceedTo(g, parts, dbs, |parts|) && AllBuilt(c, cfg, g, parts, dbs, ones, out.txns)
    ensures out.Refused? ==> RefusedBy(g, parts, dbs, out.verdict)
  {
    var txns := [];
    for i := 0 to |parts|
      invariant |txns| == i && ProceedTo(g, parts, dbs, i)
      invariant forall j | 0 <= j < i :: BuiltPart(c, cfg, g, parts[j].n, dbs[j], ones[j], txns[j])
    {
      var verdict, x := BuildPart(c, cfg, g, parts[i].n, dbs[i], ones[i]);
      if verdict != Proceed {
        FirstRefusal(g, parts, dbs, i);
        return Refused(verdict);
      }
      ProceedOne(g, parts, dbs, i);
      txns := txns + [x];
    }
    return Built(txns);
  }

  predicate AllDone(c: Codec, rv: Version, parts: seq<NsPart>, dbs: seq<Db>, ones: seq<PhaseOneTxn>)
    requires |dbs| == |parts|
  {
    |ones| == |parts| && forall i | 0 <= i < |parts| :: PhaseOneDone(c, dbs[i], rv, parts[i].n, ones[i])
  }

  predicate HoldToken(dbs: seq<Db>, commitToken: nat) {
    forall i | 0 <= i < |dbs| :: dbs[i].token == Some(commitToken)
  }

  /** `first` holds the namespaces at the first transaction's read version `rv`. With two phases, the first
      transaction has committed with `commitToken`, and `second` is what the second one reads. */
  method Commit(
      c: Codec, cfg: Config, token: nat, allowSkip: bool, owner: Option<string>, parts: seq<NsPart>,
      rv: Version, first: seq<Db>, second: seq<Db>, commitToken: nat) returns (out: Outcome, ones: seq<PhaseOneTxn>)
    requires |first| == |second| == |parts|
    requires !Plan(cfg, parts, token, allowSkip, owner).multi ==> second == first
    ensures out.NotDistinct? <==> !Distinct(parts)
    ensures out.WriteFailed? || out.BadPageReference? ==> PhaseOneResultOk(c, rv, parts, first, Stopped(out))
    ensures var g := Plan(cfg, parts, token, allowSkip, owner);
      out.Interrupted? ==> g.multi && AllDone(c, rv, parts, first, ones) && !HoldToken(second, commitToken)
    ensures var g := Plan(cfg, parts, token, allowSkip, owner);
      out.Refused? ==>
        || PhaseOneResultOk(c, rv, parts, first, Stopped(out))
        || (&& AllDone(c, rv, parts, first, ones) && (g.multi ==> HoldToken(second, commitToken))
            && RefusedBy(g, parts, second, out.verdict))
    ensures var g := Plan(cfg, parts, token, allowSkip, owner);
      out.Built? ==>
        && AllDone(c, rv, parts, first, ones) && (g.multi ==> HoldToken(second, commitToken))
        && ProceedTo(g, parts, second, |parts|) && AllBuilt(c, cfg, g, parts, second, ones, out.txns)
  {
    ones := [];
    var distinct := CheckDistinct(parts);
    if !distinct { return NotDistinct, ones; }
    var g := Plan(cfg, parts, token, allowSkip, owner);
    var one := PhaseOne(c, rv, parts, first);
    if one.Stopped? { return one.outcome, ones; }
    ones := one.txns;
    if g.multi {
      for i := 0 to |parts|
        invariant forall j | 0 <= j < i :: second[j].token == Some(commitToken)
      {
        if second[i].token != Some(commitToken) { return Interrupted, ones; }
      }
    }
    out := PhaseTwo(c, cfg, g, parts, second, ones);
  }

  // ---- The transactions it builds are steps of the protocol ----

  /** A one-phase request's transaction is the protocol's commit step, event and all, if the store accepts it. */
  lemma BuiltIsOneStep(
      c: Codec, cfg: Config, h: History, seen: nat, rv: Version, g: Request, n: NsCommit, one: PhaseOneTxn, x: Txn,
      stamp: Version)
    requires seen < |h.dbs| && ReadVersion(h, seen, rv) && !g.multi
    requires PhaseOneDone(c, h.dbs[seen], rv, n, one) && PhaseTwoVerdict(h.dbs[seen], g, n) == Proceed
    requires BuiltPart(c, cfg, g, n, h.dbs[seen], one, x)
    requires NoConflict(h, seen, x.r)
    ensures CanCommitOne(c, h, seen, rv, g, n, one.applied.r, one.applied.w)
    ensures CommitEvent(cfg, CommitOne(seen, rv, g, n, one.applied.r, one.applied.w, stamp)).writes == x.w
  {
  }

  /** A two-phase request's transactions are the protocol's two commit steps. */
  lemma BuiltIsTwoSteps(
      c: Codec, cfg: Config, h: History, seen: nat, rv: Version, h': History, seen': nat, g: Request, n: NsCommit,
      one: PhaseOneTxn, x: Txn, token: nat, stamp: Version)
    requires seen < |h.dbs| && ReadVersion(h, seen, rv) && g.multi && !g.plcc && FreshToken(h, token)
    requires PhaseOneDone(c, h.dbs[seen], rv, n, one) && NoConflict(h, seen, one.r)
    requires |h.evs| + 1 <= seen' < |h'.dbs| && h'.dbs[seen'].token == Some(token)
    requires PhaseTwoVerdict(h'.dbs[seen'], g, n) == Proceed
    requires BuiltPart(c, cfg, g, n, h'.dbs[seen'], one, x) && NoConflict(h', seen', x.r)
    ensures CanCommitFirst(c, h, seen, rv, g, n, one.applied.r, one.applied.w, token)
    ensures CanCommitSecond(h', Pending(|h.evs| + 1, token, g, n), seen')
    ensures CommitEvent(cfg, CommitSecond(Pending(|h.evs| + 1, token, g, n), seen', stamp)).writes == x.w
  {
  }

  lemma {:induction false} SameTotals(parts: seq<NsPart>, steps: seq<Part>)
    requires |steps| == |parts|
    requires forall i | 0 <= i < |steps| :: IsCommitPhase(steps[i].act) && NsCommitOf(steps[i].act) == parts[i].n
    ensures TotalWrites(steps) == SumWrites(parts) && TotalReads(steps) == SumReads(parts)
  {
    if steps != [] {
      assert steps[0] in steps;
      SameTotals(parts[1..], steps[1..]);
    }
  }

  /** The commit steps of a planned request, in any one phase, are one transaction of the cluster. */
  lemma PlannedIsOneTransaction(
      cfg: Config, token: nat, allowSkip: bool, owner: Option<string>, parts: seq<NsPart>, steps: seq<Part>)
    requires Distinct(parts) && parts != [] && |steps| == |parts|
    requires forall i | 0 <= i < |steps| :: IsCommitPhase(steps[i].act)
    requires forall i | 0 <= i < |steps| ::
      && steps[i].ns == parts[i].ns && NsCommitOf(steps[i].act) == parts[i].n
      && RequestOf(steps[i].act) == Plan(cfg, parts, token, allowSkip, owner)
      && PhaseOf(steps[i].act) == PhaseOf(steps[0].act) && TokenOf(steps[i].act) == TokenOf(steps[0].act)
      && steps[i].act.seen == steps[0].act.seen && steps[i].act.stamp == steps[0].act.stamp
    ensures OneTransaction(cfg, steps)
  {
    SameTotals(parts, steps);
  }
}
