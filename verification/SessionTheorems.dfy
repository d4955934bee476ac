/** What sessions promise, told by the calls alone: every read of a transaction shows its own last write or its
    snapshot, and a commit carries all it wrote and covers all it was shown. (mvfs/src/vfs.rs) */
module SessionTheorems {
  import opened Common
  import opened Octets
  import opened Client
  import opened IdealClient

  ghost predicate Served(w: World, ids: seq<Ideal>, calls: seq<Call>, answers: seq<Answer>) {
    |w.firstPage| == w.sectorSize >= 96 && IsTrace(w, ids, calls, answers)
  }

  /** Call `j` puts a new transaction in place. */
  predicate StartsAt(ids: seq<Ideal>, calls: seq<Call>, j: nat)
    requires |ids| == |calls| + 1 && j < |calls|
  {
    && ids[j + 1].work.Some?
    && match calls[j]
       case Take(_) => ids[j].work.None?
       case Release(kind) => Leaves(ids[j], kind)
       case _ => false
  }

  /** The transaction that call `j` puts in place is still there before call `k`. */
  predicate Within(ids: seq<Ideal>, calls: seq<Call>, j: nat, k: nat)
    requires |ids| == |calls| + 1
  {
    && j < k <= |calls| && StartsAt(ids, calls, j) && ids[k].work.Some?
    && forall m | j < m < k :: ids[m].work.Some? && !StartsAt(ids, calls, m)
  }

  /** The last page written at `p` by calls `from..to`, skipped or not. */
  function LastWritten(calls: seq<Call>, from: nat, to: nat, p: PageNo): Option<Page>
    requires to <= |calls|
  {
    if to <= from then None
    else
      var call := calls[to - 1];
      if call.WriteAt? && call.p == p && |call.data| >= 96 then Some(Normal(p, call.data))
      else LastWritten(calls, from, to - 1, p)
  }

  function Expected(w: World, v: Version, calls: seq<Call>, from: nat, to: nat, p: PageNo): Option<Page>
    requires to <= |calls|
  {
    var last := LastWritten(calls, from, to, p);
    if last.Some? then last else SnapshotPage(w.snap, w.firstPage, v, p)
  }

  /** A new transaction has written nothing and shown nothing. */
  lemma Fresh(w: World, ids: seq<Ideal>, calls: seq<Call>, answers: seq<Answer>, j: nat)
    requires Served(w, ids, calls, answers) && j < |calls| && StartsAt(ids, calls, j)
    ensures ids[j + 1].work.value.writes == map[] && ids[j + 1].work.value.shown == {}
  {
    assert Does(w, j, ids[j], calls[j], answers[j], ids[j + 1]);
  }

  /** A call that neither starts nor ends a transaction leaves its version, and changes what it has
      written and shown as the call says. */
  lemma Goes(w: World, k: nat, i: Ideal, call: Call, answer: Answer, i': Ideal)
    requires |w.firstPage| == w.sectorSize >= 96 && Does(w, k, i, call, answer, i') && i.work.Some? && i'.work.Some?
    requires call.Release? ==> !Leaves(i, call.kind)
    ensures var t, t' := i.work.value, i'.work.value;
      && t'.version == t.version
      && t'.shown == (if call.ReadAt? then t.shown + {call.p} else t.shown)
      && (t'.writes == t.writes
          || (call.WriteAt? && |call.data| >= 96 && t'.writes == t.writes[call.p := Normal(call.p, call.data)]))
    ensures call.WriteAt? ==>
      && |call.data| >= 96
      && Looks(w.snap, w.firstPage, i'.work.value, call.p) == Some(Normal(call.p, call.data))
  {
  }

  /** A page that is not written keeps its looks. */
  lemma OthersLook(w: World, k: nat, i: Ideal, call: Call, answer: Answer, i': Ideal, p: PageNo)
    requires |w.firstPage| == w.sectorSize >= 96 && Does(w, k, i, call, answer, i') && i.work.Some? && i'.work.Some?
    requires (call.Release? ==> !Leaves(i, call.kind)) && (call.WriteAt? ==> call.p != p)
    ensures p in i'.work.value.writes <==> p in i.work.value.writes
    ensures Looks(w.snap, w.firstPage, i'.work.value, p) == Looks(w.snap, w.firstPage, i.work.value, p)
  {
    Goes(w, k, i, call, answer, i');
  }

  /** At every moment a transaction sees what it should, told by the calls; what it has to commit is what it
      wrote, less writes that changed nothing. */
  lemma {:induction false} SeesExpected(
      w: World, ids: seq<Ideal>, calls: seq<Call>, answers: seq<Answer>, j: nat, k: nat, p: PageNo)
    requires Served(w, ids, calls, answers) && Within(ids, calls, j, k)
    ensures var t, v := ids[k].work.value, ids[j + 1].work.value.version;
      && t.version == v
      && Looks(w.snap, w.firstPage, t, p) == Expected(w, v, calls, j + 1, k, p)
      && (p in t.writes ==> LastWritten(calls, j + 1, k, p).Some?)
  {
    if k == j + 1 {
      Fresh(w, ids, calls, answers, j);
    } else {
      var m := k - 1;
      assert Within(ids, calls, j, m) && !StartsAt(ids, calls, m);
      SeesExpected(w, ids, calls, answers, j, m, p);
      assert Does(w, m, ids[m], calls[m], answers[m], ids[k]);
      LooksNext(w, m, ids[m], calls, answers[m], ids[k], j, p);
    }
  }

  lemma LooksNext(w: World, m: nat, i: Ideal, calls: seq<Call>, answer: Answer, i': Ideal, j: nat, p: PageNo)
    requires |w.firstPage| == w.sectorSize >= 96 && j < m < |calls| && Does(w, m, i, calls[m], answer, i')
    requires i.work.Some? && i'.work.Some? && (calls[m].Release? ==> !Leaves(i, calls[m].kind))
    requires var t := i.work.value;
      && Looks(w.snap, w.firstPage, t, p) == Expected(w, t.version, calls, j + 1, m, p)
      && (p in t.writes ==> LastWritten(calls, j + 1, m, p).Some?)
    ensures var t := i'.work.value;
      && t.version == i.work.value.version
      && Looks(w.snap, w.firstPage, t, p) == Expected(w, t.version, calls, j + 1, m + 1, p)
      && (p in t.writes ==> LastWritten(calls, j + 1, m + 1, p).Some?)
  {
    Goes(w, m, i, calls[m], answer, i');
    if !(calls[m].WriteAt? && calls[m].p == p) {
      OthersLook(w, m, i, calls[m], answer, i', p);
    }
  }

  lemma {:induction false} ShowsAll(
      w: World, ids: seq<Ideal>, calls: seq<Call>, answers: seq<Answer>, j: nat, k: nat, m: nat)
    requires Served(w, ids, calls, answers) && Within(ids, calls, j, k) && j < m < k && calls[m].ReadAt?
    ensures calls[m].p in ids[k].work.value.shown
  {
    var l := k - 1;
    assert !StartsAt(ids, calls, l) && ids[l].work.Some?;
    assert Does(w, l, ids[l], calls[l], answers[l], ids[k]);
    Goes(w, l, ids[l], calls[l], answers[l], ids[k]);
    if m < l {
      assert Within(ids, calls, j, l);
      ShowsAll(w, ids, calls, answers, j, l, m);
    }
  }

  /** Every transaction was started by some call. */
  lemma {:induction false} WasStarted(
      w: World, ids: seq<Ideal>, calls: seq<Call>, answers: seq<Answer>, k: nat) returns (j: nat)
    requires Served(w, ids, calls, answers) && ids[0].work.None? && k < |ids| && ids[k].work.Some?
    ensures Within(ids, calls, j, k)
  {
    assert Does(w, k - 1, ids[k - 1], calls[k - 1], answers[k - 1], ids[k]);
    if StartsAt(ids, calls, k - 1) {
      j := k - 1;
    } else {
      j := WasStarted(w, ids, calls, answers, k - 1);
    }
  }

  // ---- Reads ----

  /** What a read should find: the last page that the calls `from..to` wrote there, or else the snapshot's, or else, for
      the first page, the template. */
  function Found(w: World, v: Version, calls: seq<Call>, from: nat, to: nat, p: PageNo): Option<Page>
    requires to <= |calls|
  {
    if LastWritten(calls, from, to, p).Some? then LastWritten(calls, from, to, p)
    else if p in w.snap(v) then Some(w.snap(v)[p])
    else if p == 0 then Some(w.firstPage)
    else None
  }

  /** In every session, a read within a transaction finds the last page that the transaction wrote there, or else
      the page in the snapshot it was started on. A page that does not exist or has the wrong size is not
      shown; the first page is shown with the connection's counter in it. */
  lemma ReadsAreRight(w: World, ids: seq<Ideal>, calls: seq<Call>, answers: seq<Answer>, k: nat) returns (j: nat)
    requires Served(w, ids, calls, answers) && ids[0].work.None?
    requires k < |calls| && calls[k].ReadAt? && ids[k].work.Some?
    ensures Within(ids, calls, j, k) && ids[k].counter < Power(4)
    ensures var p := calls[k].p;
      var found := Found(w, ids[j + 1].work.value.version, calls, j + 1, k, p);
      && (found.None? ==> answers[k] == Shown(NoPage))
      && (found.Some? && |found.value| != w.sectorSize ==> answers[k] == Shown(BadSize))
      && (found.Some? && |found.value| == w.sectorSize ==>
            answers[k] == Shown(Data(if p == 0 then WithCounter(found.value, ids[k].counter) else found.value)))
  {
    j := WasStarted(w, ids, calls, answers, k);
    SeesExpected(w, ids, calls, answers, j, k, calls[k].p);
    assert Does(w, k, ids[k], calls[k], answers[k], ids[k + 1]);
  }

  /** Without a transaction only the template is shown. */
  lemma ReadsTemplate(w: World, ids: seq<Ideal>, calls: seq<Call>, answers: seq<Answer>, k: nat)
    requires Served(w, ids, calls, answers) && k < |calls| && calls[k].ReadAt? && ids[k].work.None?
    ensures calls[k].p == 0 && answers[k] == Shown(Data(w.firstPage))
  {
    assert Does(w, k, ids[k], calls[k], answers[k], ids[k + 1]);
  }

  // ---- Commits ----

  lemma StepStaysSane(w: World, k: nat, i: Ideal, call: Call, answer: Answer, i': Ideal)
    requires |w.firstPage| == w.sectorSize >= 96 && Does(w, k, i, call, answer, i') && Sane(i)
    ensures Sane(i')
  {
  }

  lemma {:induction false} StaysSane(w: World, ids: seq<Ideal>, calls: seq<Call>, answers: seq<Answer>, k: nat)
    requires Served(w, ids, calls, answers) && Sane(ids[0]) && k < |ids|
    ensures Sane(ids[k])
  {
    if k > 0 {
      StaysSane(w, ids, calls, answers, k - 1);
      StepStaysSane(w, k - 1, ids[k - 1], calls[k - 1], answers[k - 1], ids[k]);
    }
  }

  /** `x` is what the transaction that call `j` started, ended before call `k`, has to send. */
  ghost predicate Carries(w: World, x: Intent, calls: seq<Call>, j: nat, k: nat)
    requires j < k <= |calls|
  {
    && (forall p | p in x.writes :: LastWritten(calls, j + 1, k, p) == Some(x.writes[p]))
    && (forall p | p !in x.writes :: LastWrittenIsOld(w, x.version, calls, j, k, p))
    && (x.readSet.Some? ==> forall m | j < m < k && calls[m].ReadAt? :: calls[m].p in x.readSet.value)
  }

  /** If `p` was written at all, then last with what the snapshot had. */
  predicate LastWrittenIsOld(w: World, v: Version, calls: seq<Call>, j: nat, k: nat, p: PageNo)
    requires j < k <= |calls|
  {
    var last := LastWritten(calls, j + 1, k, p);
    last.Some? ==> last == SnapshotPage(w.snap, w.firstPage, v, p)
  }

  /** In every session, what a transaction sends when its lock is given up is, page by page, its last write; a
      page it wrote is left out only if its snapshot has it so; and a read set that is sent has every page
      the transaction has read. */
  lemma CommitCarriesAll(w: World, ids: seq<Ideal>, calls: seq<Call>, answers: seq<Answer>, k: nat) returns (j: nat)
    requires Served(w, ids, calls, answers) && ids[0].work.None? && Sane(ids[0])
    requires k < |calls| && calls[k].Release? && answers[k].Ended? && answers[k].sent.Some?
    ensures Within(ids, calls, j, k) && answers[k].sent.value.version == ids[j + 1].work.value.version
    ensures Carries(w, answers[k].sent.value, calls, j, k)
  {
    assert Does(w, k, ids[k], calls[k], answers[k], ids[k + 1]);
    var x := answers[k].sent.value;
    j := WasStarted(w, ids, calls, answers, k);
    StaysSane(w, ids, calls, answers, k);
    SeesExpected(w, ids, calls, answers, j, k, 0);
    forall p | p in x.writes ensures LastWritten(calls, j + 1, k, p) == Some(x.writes[p]) {
      SeesExpected(w, ids, calls, answers, j, k, p);
    }
    forall p | p !in x.writes ensures LastWrittenIsOld(w, x.version, calls, j, k, p) {
      SeesExpected(w, ids, calls, answers, j, k, p);
    }
    forall m | j < m < k && calls[m].ReadAt? ensures calls[m].p in ids[k].work.value.shown {
      ShowsAll(w, ids, calls, answers, j, k, m);
    }
  }

  /** When a transaction's commit can be relied on to leave `p` as the transaction wrote it: the page is sent, or
      nothing may have changed meanwhile, or the page may not have. */
  predicate Guarded(x: Intent, p: PageNo) {
    p in x.writes || x.readSet.None? || p in x.readSet.value
  }

  /** A guarded page that a committed transaction wrote is in the committed snapshot as it was last written. */
  lemma CommittedAsWritten(
      w: World, ids: seq<Ideal>, calls: seq<Call>, answers: seq<Answer>, k: nat, j: nat, p: PageNo)
    requires Promises(w) && Served(w, ids, calls, answers) && k < |calls| && Within(ids, calls, j, k)
    requires calls[k].Release? && answers[k].Ended? && answers[k].sent.Some?
    requires Carries(w, answers[k].sent.value, calls, j, k) && LastWritten(calls, j + 1, k, p).Some?
    requires w.commits(k, answers[k].sent.value).Committed? && Guarded(answers[k].sent.value, p)
    ensures var v := w.commits(k, answers[k].sent.value).version;
      SnapshotPage(w.snap, w.firstPage, v, p) == LastWritten(calls, j + 1, k, p)
  {
    var x := answers[k].sent.value;
    var reply := w.commits(k, x);
    assert CommitOk(w.snap, x.version, x.writes, reply) && CheckOk(w.snap, x, reply);
    if p !in x.writes {
      assert LastWrittenIsOld(w, x.version, calls, j, k, p);
      assert Find(w.snap(reply.version), p) == Find(w.snap(x.version), p);
    }
  }

  /** One transaction after another: a read in a later transaction on the committed version shows what the committed
      one wrote last, until the later one writes there itself. */
  lemma NextTransactionSees(
      w: World, ids: seq<Ideal>, calls: seq<Call>, answers: seq<Answer>, k: nat, m: nat) returns (j: nat, i: nat)
    requires Promises(w) && Served(w, ids, calls, answers) && ids[0].work.None? && Sane(ids[0])
    requires k < |calls| && calls[k].Release? && answers[k].Ended? && answers[k].sent.Some?
    requires w.commits(k, answers[k].sent.value).Committed?
    requires k < m < |calls| && calls[m].ReadAt? && ids[m].work.Some?
    requires ids[m].work.value.version == w.commits(k, answers[k].sent.value).version
    ensures Within(ids, calls, j, k) && Within(ids, calls, i, m) && ids[m].counter < Power(4)
    ensures var p, last := calls[m].p, LastWritten(calls, j + 1, k, calls[m].p);
      Guarded(answers[k].sent.value, p) && last.Some? && LastWritten(calls, i + 1, m, p).None? ==>
        if |last.value| != w.sectorSize then answers[m] == Shown(BadSize)
        else answers[m] == Shown(Data(if p == 0 then WithCounter(last.value, ids[m].counter) else last.value))
  {
    j := CommitCarriesAll(w, ids, calls, answers, k);
    i := ReadsAreRight(w, ids, calls, answers, m);
    var p := calls[m].p;
    SeesExpected(w, ids, calls, answers, i, m, p);
    if Guarded(answers[k].sent.value, p) && LastWritten(calls, j + 1, k, p).Some? {
      CommittedAsWritten(w, ids, calls, answers, k, j, p);
    }
  }

  // ---- Pages that are not guarded ----

  function VersionOf(v: Option<Version>): Version {
    if v.Some? then v.value else 0
  }

  /** What a call sends, if anything. */
  function SentAt(i: Ideal, call: Call): Option<Intent> {
    if call.Release? then SentBy(i, call.kind) else None
  }

  /** The greatest version that call number `k` has to do with. */
  function Used(w: World, i: Ideal, call: Call, k: nat): (v: Version)
    ensures i.known.Some? ==> i.known.value <= v
    ensures i.work.Some? ==> i.work.value.version <= v
    ensures w.stats(k, i.known).Some? ==> w.stats(k, i.known).value.version <= v
    ensures SentAt(i, call).Some? && w.commits(k, SentAt(i, call).value).Committed? ==>
      w.commits(k, SentAt(i, call).value).version <= v
  {
    var stat, sent := w.stats(k, i.known), SentAt(i, call);
    var told := if stat.Some? then stat.value.version else 0;
    var got := if sent.Some? && w.commits(k, sent.value).Committed? then w.commits(k, sent.value).version else 0;
    Max(Max(VersionOf(i.known), if i.work.Some? then i.work.value.version else 0), Max(told, got))
  }

  /** A bound on the versions that the first `k` calls have to do with. */
  function Top(w: World, ids: seq<Ideal>, calls: seq<Call>, k: nat): (v: Version)
    requires k <= |calls| && k <= |ids|
    ensures forall m | 0 <= m < k :: Used(w, ids[m], calls[m], m) <= v
  {
    if k == 0 then 0 else Max(Top(w, ids, calls, k - 1), Used(w, ids[k - 1], calls[k - 1], k - 1))
  }

  /** The same server up to call `k`; then it commits `x` as version `v`, with another page at `p`. */
  ghost function Revised(
      w: World, ids: seq<Ideal>, calls: seq<Call>, k: nat, x: Intent, p: PageNo, other: Page, v: Version): World
    requires k <= |calls| && k <= |ids|
  {
    World(
      u => if u == v then w.snap(x.version)[p := other] + x.writes else w.snap(u),
      w.firstPage, w.sectorSize,
      (m: nat, from: Option<Version>) => if m < k && from == ids[m].known then w.stats(m, from) else None,
      (m: nat, y: Intent) =>
        if m == k && y == x then Committed(v, None)
        else if m < k && SentAt(ids[m], calls[m]) == Some(y) then w.commits(m, y)
        else Conflict)
  }

  /** A stat reply that does not speak of `v` is as good as it was. */
  lemma StatStays(snap: Snapshots, snap': Snapshots, from: Option<Version>, reply: Stat)
    requires StatOk(snap, from, reply) && snap'(reply.version) == snap(reply.version)
    requires from.Some? ==> snap'(from.value) == snap(from.value)
    ensures StatOk(snap', from, reply)
  {
  }

  lemma CommitStays(snap: Snapshots, snap': Snapshots, y: Intent, reply: Reply)
    requires CommitOk(snap, y.version, y.writes, reply) && CheckOk(snap, y, reply)
    requires reply.Committed? ==> snap'(reply.version) == snap(reply.version) && snap'(y.version) == snap(y.version)
    ensures CommitOk(snap', y.version, y.writes, reply) && CheckOk(snap', y, reply)
  {
  }

  lemma NewCommitIsOk(snap: Snapshots, x: Intent, p: PageNo, other: Page, v: Version)
    requires !Guarded(x, p) && snap(v) == snap(x.version)[p := other] + x.writes
    ensures CommitOk(snap, x.version, x.writes, Committed(v, None)) && CheckOk(snap, x, Committed(v, None))
    ensures Find(snap(v), p) == Some(other)
  {
  }

  lemma RevisedStats(
      w: World, ids: seq<Ideal>, calls: seq<Call>, k: nat, x: Intent, p: PageNo, other: Page, v: Version, m: nat,
      from: Option<Version>)
    requires Promises(w) && k <= |calls| && k <= |ids| && Top(w, ids, calls, k) < v
    ensures var w' := Revised(w, ids, calls, k, x, p, other, v);
      w'.stats(m, from).Some? ==> StatOk(w'.snap, from, w'.stats(m, from).value)
  {
    var w' := Revised(w, ids, calls, k, x, p, other, v);
    if w'.stats(m, from).Some? {
      assert Used(w, ids[m], calls[m], m) < v;
      StatStays(w.snap, w'.snap, from, w.stats(m, from).value);
    }
  }

  lemma RevisedCommits(
      w: World, ids: seq<Ideal>, calls: seq<Call>, k: nat, x: Intent, p: PageNo, other: Page, v: Version, m: nat,
      y: Intent)
    requires Promises(w) && k <= |calls| && k <= |ids| && !Guarded(x, p) && x.version < v && Top(w, ids, calls, k) < v
    ensures var w' := Revised(w, ids, calls, k, x, p, other, v);
      CommitOk(w'.snap, y.version, y.writes, w'.commits(m, y)) && CheckOk(w'.snap, y, w'.commits(m, y))
  {
    var w' := Revised(w, ids, calls, k, x, p, other, v);
    if m == k && y == x {
      NewCommitIsOk(w'.snap, x, p, other, v);
    } else if m < k && SentAt(ids[m], calls[m]) == Some(y) {
      assert Used(w, ids[m], calls[m], m) < v;
      CommitStays(w.snap, w'.snap, y, w.commits(m, y));
    }
  }

  lemma RevisedPromises(
      w: World, ids: seq<Ideal>, calls: seq<Call>, k: nat, x: Intent, p: PageNo, other: Page, v: Version)
    requires Promises(w) && k <= |calls| && k <= |ids| && !Guarded(x, p) && x.version < v && Top(w, ids, calls, k) < v
    ensures Promises(Revised(w, ids, calls, k, x, p, other, v))
  {
    var w' := Revised(w, ids, calls, k, x, p, other, v);
    forall m, from | w'.stats(m, from).Some? ensures StatOk(w'.snap, from, w'.stats(m, from).value) {
      RevisedStats(w, ids, calls, k, x, p, other, v, m, from);
    }
    forall m, y: Intent
      ensures CommitOk(w'.snap, y.version, y.writes, w'.commits(m, y)) && CheckOk(w'.snap, y, w'.commits(m, y))
    {
      RevisedCommits(w, ids, calls, k, x, p, other, v, m, y);
    }
  }

  /** A server that answers call `k` alike and shows the same snapshot has the call do the same. */
  lemma DoesAlike(w: World, w': World, k: nat, i: Ideal, call: Call, answer: Answer, i': Ideal)
    requires |w.firstPage| == w.sectorSize >= 96 && Does(w, k, i, call, answer, i')
    requires w'.firstPage == w.firstPage && w'.sectorSize == w.sectorSize
    requires i.work.Some? ==> w'.snap(i.work.value.version) == w.snap(i.work.value.version)
    requires call.Take? ==> w'.stats(k, i.known) == w.stats(k, i.known)
    requires SentAt(i, call).Some? ==>
      w'.commits(k, SentAt(i, call).value) == w.commits(k, SentAt(i, call).value)
    ensures Does(w', k, i, call, answer, i')
  {
  }

  lemma RevisedServes(
      w: World, ids: seq<Ideal>, calls: seq<Call>, answers: seq<Answer>, k: nat, x: Intent, p: PageNo, other: Page,
      v: Version)
    requires Served(w, ids, calls, answers) && k <= |calls| && Top(w, ids, calls, k) < v
    ensures Served(Revised(w, ids, calls, k, x, p, other, v), ids[..k + 1], calls[..k], answers[..k])
  {
    var w' := Revised(w, ids, calls, k, x, p, other, v);
    forall m | 0 <= m < k ensures Does(w', m, ids[m], calls[m], answers[m], ids[m + 1]) {
      assert Used(w, ids[m], calls[m], m) < v;
      DoesAlike(w, w', m, ids[m], calls[m], answers[m], ids[m + 1]);
    }
  }

  /** So the condition is exact. In any session that sends an intent, a page that is not guarded may be lost: some
      server keeps all its promises, has answered all calls so far in the same way and shown the same snapshot,
      and commits the intent with any other page there. */
  lemma UnguardedCanBeLost(
      w: World, ids: seq<Ideal>, calls: seq<Call>, answers: seq<Answer>, k: nat, p: PageNo, other: Page)
    returns (w': World, v: Version)
    requires Promises(w) && Served(w, ids, calls, answers) && k < |calls| && calls[k].Release?
    requires answers[k].Ended? && answers[k].sent.Some? && !Guarded(answers[k].sent.value, p)
    ensures Promises(w') && w'.firstPage == w.firstPage && w'.sectorSize == w.sectorSize
    ensures Served(w', ids[..k + 1], calls[..k], answers[..k])
    ensures var x := answers[k].sent.value;
      && SentBy(ids[k], calls[k].kind) == Some(x) && w'.snap(x.version) == w.snap(x.version)
      && w'.commits(k, x) == Committed(v, None) && Find(w'.snap(v), p) == Some(other)
      && Does(w', k, ids[k], calls[k], Ended(true, Some(x)), WithUnlock(ids[k], calls[k].kind, Committed(v, None)))
  {
    var x := answers[k].sent.value;
    assert Does(w, k, ids[k], calls[k], answers[k], ids[k + 1]);
    v := Top(w, ids, calls, k + 1) + 1;
    assert Used(w, ids[k], calls[k], k) < v;
    w' := Revised(w, ids, calls, k, x, p, other, v);
    RevisedPromises(w, ids, calls, k, x, p, other, v);
    RevisedServes(w, ids, calls, answers, k, x, p, other, v);
    NewCommitIsOk(w'.snap, x, p, other, v);
  }
}
