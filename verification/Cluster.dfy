/** Several namespaces in one store. A commit request names any number of them and lands in all of them
    at one versionstamp, or in none. (mvstore/src/commit.rs) */
module Cluster {
  import opened Common
  import opened Delta
  import opened Store
  import opened Operations
  import opened Protocol
  import opened PageInvariants
  import opened Serializability
  import opened Runs

  type Namespace = nat

  /** What a commit request does in one of its namespaces. */
  datatype Part = Part(ns: Namespace, act: CommitAction)

  /** Time passes; one namespace acts on its own; or a commit request advances one phase everywhere. */
  datatype ClusterAction = Wait(clock: Version) | Alone(ns: Namespace, a: Action) | Together(parts: seq<Part>)

  type Cluster = map<Namespace, State>

  // ---- Commit requests ----

  predicate IsCommitPhase(a: CommitAction) {
    !a.WritePages?
  }

  function RequestOf(a: CommitAction): Request
    requires IsCommitPhase(a)
  {
    match a
    case CommitOne(_, _, g, _, _, _, _) => g
    case CommitFirst(_, _, g, _, _, _, _, _) => g
    case CommitSecond(p, _, _) => p.g
  }

  function NsCommitOf(a: CommitAction): NsCommit
    requires IsCommitPhase(a)
  {
    match a
    case CommitOne(_, _, _, n, _, _, _) => n
    case CommitFirst(_, _, _, n, _, _, _, _) => n
    case CommitSecond(p, _, _) => p.n
  }

  function PhaseOf(a: CommitAction): nat
    requires IsCommitPhase(a)
  {
    if a.CommitOne? then 0 else if a.CommitFirst? then 1 else 2
  }

  function TokenOf(a: CommitAction): nat
    requires IsCommitPhase(a)
  {
    match a
    case CommitOne(_, _, _, _, _, _, _) => 0
    case CommitFirst(_, _, _, _, _, _, token, _) => token
    case CommitSecond(p, _, _) => p.token
  }

  function TotalWrites(parts: seq<Part>): nat
    requires forall p | p in parts :: IsCommitPhase(p.act)
  {
    if parts == [] then 0 else |NsCommitOf(parts[0].act).indexWrites| + TotalWrites(parts[1..])
  }

  function TotalReads(parts: seq<Part>): nat
    requires forall p | p in parts :: IsCommitPhase(p.act)
  {
    if parts == [] then 0 else |NsCommitOf(parts[0].act).readSet| + TotalReads(parts[1..])
  }

  /** One transaction: the same request, phase, commit token, snapshot and versionstamp in every namespace,
      all of them distinct; the phases and the kind of conflict check follow from the totals. */
  predicate OneTransaction(cfg: Config, parts: seq<Part>) {
    && parts != []
    && (forall i, j | 0 <= i < j < |parts| :: parts[i].ns != parts[j].ns)
    && (forall p | p in parts :: IsCommitPhase(p.act))
    && (forall p | p in parts ::
          && RequestOf(p.act) == RequestOf(parts[0].act) && PhaseOf(p.act) == PhaseOf(parts[0].act)
          && TokenOf(p.act) == TokenOf(parts[0].act)
          && p.act.seen == parts[0].act.seen && p.act.stamp == parts[0].act.stamp)
    && var g := RequestOf(parts[0].act);
       && g.multi == (TotalWrites(parts) >= cfg.multiPhase)
       && g.plcc == (!g.multi && TotalReads(parts) <= cfg.plccReadSet)
  }

  predicate InParts(parts: seq<Part>, ns: Namespace) {
    exists i | 0 <= i < |parts| :: parts[i].ns == ns
  }

  function PartOf(parts: seq<Part>, ns: Namespace): (p: Part)
    requires InParts(parts, ns)
    ensures p in parts && p.ns == ns
  {
    if parts[0].ns == ns then parts[0] else PartOf(parts[1..], ns)
  }

  // ---- Steps ----

  function StampOf(cfg: Config, cl: Cluster, a: ClusterAction): Option<Version> {
    match a
    case Wait(_) => None
    case Alone(ns, act) =>
      if ns in cl then var e := EventOf(cfg, cl[ns].h, act); if e.Some? then Some(e.value.stamp) else None else None
    case Together(parts) => if parts == [] then None else Some(parts[0].act.stamp)
  }

  /** How namespace `ns` sees an action of the cluster. */
  function Seen(cfg: Config, cl: Cluster, a: ClusterAction, ns: Namespace): Action
    requires ns in cl
  {
    if a.Wait? then Env(Tick(a.clock))
    else if a.Alone? && a.ns == ns then a.a
    else if a.Together? && InParts(a.parts, ns) then Commits(PartOf(a.parts, ns).act)
    else
      match StampOf(cfg, cl, a)
      case None => Env(Tick(cl[ns].h.clock))
      case Some(stamp) => Env(OtherNamespace(stamp))
  }

  predicate Proper(cfg: Config, cl: Cluster, a: ClusterAction) {
    match a
    case Wait(_) => true
    case Alone(ns, act) => ns in cl && !act.Env? && (act.Commits? ==> act.commit.WritePages?)
    case Together(parts) => OneTransaction(cfg, parts) && forall p | p in parts :: p.ns in cl
  }

  ghost predicate Step(c: Codec, cfg: Config, cl: Cluster, a: ClusterAction, cl': Cluster) {
    && Proper(cfg, cl, a) && cl'.Keys == cl.Keys
    && forall ns | ns in cl ::
         && cl[ns].h.dbs != [] && Enabled(c, cl[ns], Seen(cfg, cl, a, ns))
         && cl'[ns] == Next(cfg, cl[ns], Seen(cfg, cl, a, ns))
  }

  ghost predicate IsClusterRun(c: Codec, cfg: Config, cls: seq<Cluster>, acts: seq<ClusterAction>) {
    && |cls| == |acts| + 1
    && (forall ns | ns in cls[0] :: cls[0][ns] == INITIAL)
    && (forall i | 0 <= i < |acts| :: Step(c, cfg, cls[i], acts[i], cls[i + 1]))
  }

  // ---- Each namespace runs on its own terms ----

  lemma {:induction false} SameNamespaces(c: Codec, cfg: Config, cls: seq<Cluster>, acts: seq<ClusterAction>, n: nat)
    requires IsClusterRun(c, cfg, cls, acts) && n < |cls|
    ensures cls[n].Keys == cls[0].Keys
  {
    if n > 0 {
      SameNamespaces(c, cfg, cls, acts, n - 1);
      assert Step(c, cfg, cls[n - 1], acts[n - 1], cls[n]);
    }
  }

  ghost function StatesOf(cls: seq<Cluster>, ns: Namespace): seq<State>
    requires forall i | 0 <= i < |cls| :: ns in cls[i]
  {
    seq(|cls|, i requires 0 <= i < |cls| => cls[i][ns])
  }

  ghost function ActionsOf(cfg: Config, cls: seq<Cluster>, acts: seq<ClusterAction>, ns: Namespace): seq<Action>
    requires |acts| <= |cls| && forall i | 0 <= i < |cls| :: ns in cls[i]
  {
    seq(|acts|, i requires 0 <= i < |acts| => Seen(cfg, cls[i], acts[i], ns))
  }

  lemma NamespaceStays(c: Codec, cfg: Config, cls: seq<Cluster>, acts: seq<ClusterAction>, ns: Namespace)
    requires IsClusterRun(c, cfg, cls, acts) && ns in cls[0]
    ensures forall i | 0 <= i < |cls| :: ns in cls[i]
  {
    forall i | 0 <= i < |cls| ensures ns in cls[i] {
      SameNamespaces(c, cfg, cls, acts, i);
    }
  }

  /** What one namespace sees of a run of the cluster is a run of that namespace, so all that is proved of
      those holds here. */
  lemma NamespaceRuns(c: Codec, cfg: Config, cls: seq<Cluster>, acts: seq<ClusterAction>, ns: Namespace)
    requires IsClusterRun(c, cfg, cls, acts) && ns in cls[0]
    ensures forall i | 0 <= i < |cls| :: ns in cls[i]
    ensures IsRun(c, cfg, StatesOf(cls, ns), ActionsOf(cfg, cls, acts, ns))
  {
    NamespaceStays(c, cfg, cls, acts, ns);
    var states, actions := StatesOf(cls, ns), ActionsOf(cfg, cls, acts, ns);
    forall i | 0 <= i < |actions|
      ensures states[i].h.dbs != [] && Enabled(c, states[i], actions[i])
      ensures states[i + 1] == Next(cfg, states[i], actions[i])
    {
      assert Step(c, cfg, cls[i], acts[i], cls[i + 1]);
    }
  }

  // ---- All namespaces share one time line ----

  ghost predicate SameStamps(a: State, b: State) {
    |a.h.evs| == |b.h.evs| && forall i | 0 <= i < |a.h.evs| :: a.h.evs[i].stamp == b.h.evs[i].stamp
  }

  /** An action stamps the history of every namespace, or of none. */
  lemma SeenStamp(cfg: Config, cl: Cluster, a: ClusterAction, ns: Namespace)
    requires Proper(cfg, cl, a) && ns in cl
    ensures var e := EventOf(cfg, cl[ns].h, Seen(cfg, cl, a, ns));
      StampOf(cfg, cl, a) == if e.Some? then Some(e.value.stamp) else None
  {
  }

  lemma KeepsStamps(cfg: Config, s: State, t: State, a: Action, b: Action)
    requires s.h.dbs != [] && t.h.dbs != [] && SameStamps(s, t)
    requires var d, e := EventOf(cfg, s.h, a), EventOf(cfg, t.h, b);
      if d.Some? then e.Some? && d.value.stamp == e.value.stamp else e.None?
    ensures SameStamps(Next(cfg, s, a), Next(cfg, t, b))
  {
  }

  ghost predicate InTime(cl: Cluster) {
    forall x, y {:trigger SameStamps(cl[x], cl[y])} | x in cl && y in cl :: SameStamps(cl[x], cl[y])
  }

  lemma StepKeepsStamps(c: Codec, cfg: Config, cl: Cluster, a: ClusterAction, cl': Cluster, x: Namespace, y: Namespace)
    requires Step(c, cfg, cl, a, cl') && x in cl && y in cl && SameStamps(cl[x], cl[y])
    ensures SameStamps(cl'[x], cl'[y])
  {
    SeenStamp(cfg, cl, a, x);
    SeenStamp(cfg, cl, a, y);
    KeepsStamps(cfg, cl[x], cl[y], Seen(cfg, cl, a, x), Seen(cfg, cl, a, y));
  }

  lemma StepKeepsTime(c: Codec, cfg: Config, cl: Cluster, a: ClusterAction, cl': Cluster)
    requires Step(c, cfg, cl, a, cl') && InTime(cl)
    ensures InTime(cl')
  {
    forall x, y | x in cl' && y in cl' ensures SameStamps(cl'[x], cl'[y]) {
      assert SameStamps(cl[x], cl[y]);
      StepKeepsStamps(c, cfg, cl, a, cl', x, y);
    }
  }

  lemma {:induction false} InTimeAlong(cls: seq<Cluster>, n: nat)
    requires n < |cls| && InTime(cls[0]) && forall k: nat | k + 1 < |cls| && InTime(cls[k]) :: InTime(cls[k + 1])
    ensures InTime(cls[n])
  {
    if n > 0 {
      InTimeAlong(cls, n - 1);
      var k: nat := n - 1;
      assert InTime(cls[k]);
    }
  }

  lemma OneTimeLine(
      c: Codec, cfg: Config, cls: seq<Cluster>, acts: seq<ClusterAction>, n: nat, x: Namespace, y: Namespace)
    requires IsClusterRun(c, cfg, cls, acts) && n < |cls| && x in cls[n] && y in cls[n]
    ensures SameStamps(cls[n][x], cls[n][y])
  {
    forall k: nat | k + 1 < |cls| && InTime(cls[k]) ensures InTime(cls[k + 1]) {
      StepKeepsTime(c, cfg, cls[k], acts[k], cls[k + 1]);
    }
    InTimeAlong(cls, n);
  }

  // ---- Commits that land ----

  /** The commit action makes the request's index writes visible. */
  predicate LandsCommit(a: CommitAction) {
    a.CommitOne? || a.CommitSecond?
  }

  lemma LandedEvent(cfg: Config, a: CommitAction)
    requires LandsCommit(a)
    ensures var e := CommitEvent(cfg, a);
      && e.kind == Commit(InfoOf(RequestOf(a), NsCommitOf(a))) && e.stamp == a.stamp
      && e.writes.setPages == IndexMap(NsCommitOf(a).indexWrites)
  {
  }

  /** The last event of `evs` is this part's commit: it adds the part's index writes to the reference snapshot,
      and is serial after every earlier one. */
  ghost predicate LandedIn(evs: seq<Event>, a: CommitAction)
    requires LandsCommit(a)
  {
    && evs != []
    && var before, e := evs[..|evs| - 1], evs[|evs| - 1];
       && e.stamp == a.stamp && e.kind == Commit(InfoOf(RequestOf(a), NsCommitOf(a)))
       && Snapshot(evs, a.stamp) == Snapshot(before, a.stamp) + IndexMap(NsCommitOf(a).indexWrites)
       && NsCommitOf(a).assumed < a.stamp
       && forall i | 0 <= i < |before| :: Serial(evs, i, |before|)
  }

  lemma PartLands(evs: seq<Event>, e: Event, a: CommitAction)
    requires LandsCommit(a) && AllSerial(evs + [e])
    requires e.kind == Commit(InfoOf(RequestOf(a), NsCommitOf(a))) && e.stamp == a.stamp
    requires e.writes.setPages == IndexMap(NsCommitOf(a).indexWrites)
    ensures LandedIn(evs + [e], a)
  {
    var all, n := evs + [e], |evs|;
    assert all[..n] == evs && all[n] == e;
    SnapshotStep(evs, e, a.stamp);
    forall i | 0 <= i < n ensures Serial(all, i, n) {}
  }

  lemma StepAppends(cfg: Config, s: State, a: CommitAction)
    requires s.h.dbs != []
    ensures Next(cfg, s, Commits(a)).h.evs == s.h.evs + [CommitEvent(cfg, a)]
  {
  }

  lemma PartIsUnique(parts: seq<Part>, i: nat)
    requires i < |parts| && forall i, j | 0 <= i < j < |parts| :: parts[i].ns != parts[j].ns
    ensures InParts(parts, parts[i].ns) && PartOf(parts, parts[i].ns) == parts[i]
  {
    if i > 0 { PartIsUnique(parts[1..], i - 1); }
  }

  /** A commit request that lands does so in all its namespaces at one versionstamp, on the snapshot and
      under the checks that make it serial in each of them, and in no other namespace. */
  lemma CommitsTogether(c: Codec, cfg: Config, cls: seq<Cluster>, acts: seq<ClusterAction>, n: nat, i: nat)
    requires ValidCodec(c) && IsClusterRun(c, cfg, cls, acts) && n < |acts|
    requires acts[n].Together? && i < |acts[n].parts| && LandsCommit(acts[n].parts[i].act)
    requires acts[n].parts[i].ns in cls[n + 1] && NoRollback(cls[n + 1][acts[n].parts[i].ns].h.evs)
    ensures LandedIn(cls[n + 1][acts[n].parts[i].ns].h.evs, acts[n].parts[i].act)
    ensures acts[n].parts[i].act.stamp == acts[n].parts[0].act.stamp
  {
    var part := acts[n].parts[i];
    SameNamespaces(c, cfg, cls, acts, n + 1);
    NamespaceRuns(c, cfg, cls, acts, part.ns);
    EveryRunIsSerial(c, cfg, StatesOf(cls, part.ns), ActionsOf(cfg, cls, acts, part.ns), n + 1);
    assert Step(c, cfg, cls[n], acts[n], cls[n + 1]);
    PartIsUnique(acts[n].parts, i);
    StepAppends(cfg, cls[n][part.ns], part.act);
    LandedEvent(cfg, part.act);
    PartLands(cls[n][part.ns].h.evs, CommitEvent(cfg, part.act), part.act);
  }

  // ---- What a commit leaves, told by the request ----

  /** The pages a request names. */
  function Named(iws: seq<(PageNo, Hash)>): set<PageNo> {
    set i | 0 <= i < |iws| :: iws[i].0
  }

  lemma NamedAreKeys(iws: seq<(PageNo, Hash)>)
    ensures IndexMap(iws).Keys == Named(iws)
  {
    forall p | p in Named(iws) ensures p in IndexMap(iws) {
      var j := LastWriteOf(iws, p);
      IndexMapIs(iws, j);
    }
  }

  /** The event of a commit that lands, in full. */
  lemma LandedWrites(cfg: Config, c: Codec, s: State, a: CommitAction)
    requires s.h.dbs != [] && Enabled(c, s, Commits(a)) && LandsCommit(a)
    ensures var e, n := CommitEvent(cfg, a), NsCommitOf(a);
      && e.stamp == a.stamp && e.writes.setPages == IndexMap(n.indexWrites) && e.writes.clearPages == {}
      && e.writes.log == Some(ChangeEntry(cfg, IndexMap(n.indexWrites).Keys)) && e.writes.clearLog.NoClear?
      && e.writes.lastWrite == StampLastWrite(RequestOf(a).token)
  {
  }

  /** The newest page is the one just written; other pages stay. */
  lemma LandedPages(db: Db, e: Event, iws: seq<(PageNo, Hash)>)
    requires e.writes.setPages == IndexMap(iws) && e.writes.clearPages == {}
    requires forall k | k in db.pages :: k.ver < e.stamp
    ensures var pages := Apply(db, e.writes, e.stamp).pages;
      && (forall j: nat | j < |iws| && IsLastWrite(iws, j) :: ReadPage(pages, iws[j].0, e.stamp) == Some(iws[j].1))
      && (forall p, v | p !in Named(iws) :: ReadPage(pages, p, v) == ReadPage(db.pages, p, v))
  {
    NamedAreKeys(iws);
    forall j: nat | j < |iws| && IsLastWrite(iws, j)
      ensures ReadPage(Apply(db, e.writes, e.stamp).pages, iws[j].0, e.stamp) == Some(iws[j].1)
    {
      IndexMapIs(iws, j);
      CommitRead(db, e, iws[j].0, e.stamp);
    }
    forall p, v | p !in Named(iws)
      ensures ReadPage(Apply(db, e.writes, e.stamp).pages, p, v) == ReadPage(db.pages, p, v)
    {
      CommitRead(db, e, p, v);
    }
  }

  /** What is left of request `a` in the store right after it landed. */
  ghost predicate Stored(cfg: Config, before: Db, after: Db, a: CommitAction)
    requires LandsCommit(a)
  {
    var iws := NsCommitOf(a).indexWrites;
    && (forall j: nat | j < |iws| && IsLastWrite(iws, j) :: ReadPage(after.pages, iws[j].0, a.stamp) == Some(iws[j].1))
    && (forall p, v | p !in Named(iws) :: ReadPage(after.pages, p, v) == ReadPage(before.pages, p, v))
    && after.lastWrite == Some(LastWrite(RequestOf(a).token, a.stamp))
    && a.stamp in after.changelog
    && after.changelog[a.stamp] == (if |Named(iws)| < cfg.entryMax then Listed(Named(iws)) else Infinite)
  }

  lemma StepStores(c: Codec, cfg: Config, s: State, a: CommitAction)
    requires PageState(s) && Enabled(c, s, Commits(a)) && LandsCommit(a)
    ensures Stored(cfg, Now(s.h), Apply(Now(s.h), CommitEvent(cfg, a).writes, a.stamp), a)
  {
    LandedWrites(cfg, c, s, a);
    NamedAreKeys(NsCommitOf(a).indexWrites);
    EnabledStamp(c, cfg, s, Commits(a));
    LandedPages(Now(s.h), CommitEvent(cfg, a), NsCommitOf(a).indexWrites);
  }

  /** In every run, right after a commit has landed, every page that the request names reads as the request has it
      last, every other page reads as before, and the changelog lists exactly the pages named unless they are
      too many. */
  lemma CommitStoresPages(c: Codec, cfg: Config, states: seq<State>, actions: seq<Action>, n: nat)
    requires ValidCodec(c) && IsRun(c, cfg, states, actions) && n < |actions|
    requires actions[n].Commits? && LandsCommit(actions[n].commit)
    ensures states[n].h.dbs != [] && states[n + 1].h.dbs != []
    ensures Stored(cfg, Now(states[n].h), Now(states[n + 1].h), actions[n].commit)
  {
    EveryRunIsGood(c, cfg, states, actions, n);
    StepStores(c, cfg, states[n], actions[n].commit);
    NowAfter(cfg, states[n], actions[n].commit);
  }

  lemma NowAfter(cfg: Config, s: State, a: CommitAction)
    requires s.h.dbs != []
    ensures Next(cfg, s, Commits(a)).h.dbs != []
    ensures Now(Next(cfg, s, Commits(a)).h) == Apply(Now(s.h), CommitEvent(cfg, a).writes, CommitEvent(cfg, a).stamp)
  {
  }

  /** And so in every namespace of a request, in every run of the cluster. */
  lemma PartStoresPages(c: Codec, cfg: Config, cls: seq<Cluster>, acts: seq<ClusterAction>, n: nat, i: nat)
    requires ValidCodec(c) && IsClusterRun(c, cfg, cls, acts) && n < |acts|
    requires acts[n].Together? && i < |acts[n].parts| && LandsCommit(acts[n].parts[i].act)
    ensures var ns := acts[n].parts[i].ns;
      && ns in cls[n] && ns in cls[n + 1] && cls[n][ns].h.dbs != [] && cls[n + 1][ns].h.dbs != []
      && Stored(cfg, Now(cls[n][ns].h), Now(cls[n + 1][ns].h), acts[n].parts[i].act)
  {
    var ns := acts[n].parts[i].ns;
    PartSeen(c, cfg, cls, acts, n, i);
    SameNamespaces(c, cfg, cls, acts, n);
    SameNamespaces(c, cfg, cls, acts, n + 1);
    NamespaceRuns(c, cfg, cls, acts, ns);
    CommitStoresPages(c, cfg, StatesOf(cls, ns), ActionsOf(cfg, cls, acts, ns), n);
  }

  // ---- Retries ----

  lemma {:induction false} HistoryGrows(c: Codec, cfg: Config, states: seq<State>, actions: seq<Action>, m: nat, n: nat)
    requires IsRun(c, cfg, states, actions) && m <= n < |states|
    ensures states[m].h.evs <= states[n].h.evs
  {
    if m < n {
      HistoryGrows(c, cfg, states, actions, m, n - 1);
      assert states[n] == Next(cfg, states[n - 1], actions[n - 1]);
    }
  }

  lemma TwoLanded(cfg: Config, s: State, s': State, t: State, t': State, a: CommitAction, b: CommitAction)
    requires s.h.dbs != [] && t.h.dbs != [] && LandsCommit(a) && LandsCommit(b)
    requires s' == Next(cfg, s, Commits(a)) && t' == Next(cfg, t, Commits(b)) && s'.h.evs <= t.h.evs
    ensures |s.h.evs| < |t.h.evs| < |t'.h.evs|
    ensures var e := t'.h.evs[|s.h.evs|];
      e.kind == Commit(InfoOf(RequestOf(a), NsCommitOf(a))) && e.writes.setPages == IndexMap(NsCommitOf(a).indexWrites)
    ensures var e := t'.h.evs[|t.h.evs|];
      e.kind == Commit(InfoOf(RequestOf(b), NsCommitOf(b))) && e.writes.setPages == IndexMap(NsCommitOf(b).indexWrites)
  {
    LandedEvent(cfg, a);
    LandedEvent(cfg, b);
    StepAppends(cfg, s, a);
    StepAppends(cfg, t, b);
  }

  /** Two commit actions of one namespace's run that come from the same request: the namespace was checked
      page by page, and the request wrote no page that it had read. */
  lemma SameRequestTwice(c: Codec, cfg: Config, states: seq<State>, actions: seq<Action>, m: nat, n: nat)
    requires ValidCodec(c) && IsRun(c, cfg, states, actions) && m < n < |actions| && NoRollback(states[n + 1].h.evs)
    requires actions[m].Commits? && LandsCommit(actions[m].commit) && actions[n].Commits?
    requires LandsCommit(actions[n].commit)
    requires NsCommitOf(actions[m].commit) == NsCommitOf(actions[n].commit)
    ensures var ns := NsCommitOf(actions[n].commit);
      UsesPlcc(RequestOf(actions[n].commit), ns) && IndexMap(ns.indexWrites).Keys !! ns.readSet
  {
    var i, j := |states[m].h.evs|, |states[n].h.evs|;
    HistoryGrows(c, cfg, states, actions, m + 1, n);
    TwoLanded(
      cfg, states[m], states[m + 1], states[n], states[n + 1], actions[m].commit, actions[n].commit);
    RetryCommitsOnce(c, cfg, states, actions, n + 1, i, j);
  }

  /** A namespace of a commit request sees the request's part for it. */
  lemma PartSeen(c: Codec, cfg: Config, cls: seq<Cluster>, acts: seq<ClusterAction>, n: nat, i: nat)
    requires IsClusterRun(c, cfg, cls, acts) && n < |acts| && acts[n].Together? && i < |acts[n].parts|
    ensures acts[n].parts[i].ns in cls[n]
    ensures Seen(cfg, cls[n], acts[n], acts[n].parts[i].ns) == Commits(acts[n].parts[i].act)
  {
    assert Step(c, cfg, cls[n], acts[n], cls[n + 1]);
    PartIsUnique(acts[n].parts, i);
  }

  /** A request that is submitted twice, with any overlap in time, lands at most once as soon as one of its
      namespaces is checked by its last write version, or by pages of which it writes one. */
  lemma RetryLandsOnce(
      c: Codec, cfg: Config, cls: seq<Cluster>, acts: seq<ClusterAction>, m: nat, n: nat, i: nat, j: nat)
    requires ValidCodec(c) && IsClusterRun(c, cfg, cls, acts) && m < n < |acts|
    requires acts[m].Together? && i < |acts[m].parts| && LandsCommit(acts[m].parts[i].act)
    requires acts[n].Together? && j < |acts[n].parts| && LandsCommit(acts[n].parts[j].act)
    requires acts[m].parts[i].ns == acts[n].parts[j].ns
    requires NsCommitOf(acts[m].parts[i].act) == NsCommitOf(acts[n].parts[j].act)
    requires acts[n].parts[j].ns in cls[n + 1] && NoRollback(cls[n + 1][acts[n].parts[j].ns].h.evs)
    ensures var ns := NsCommitOf(acts[n].parts[j].act);
      UsesPlcc(RequestOf(acts[n].parts[j].act), ns) && IndexMap(ns.indexWrites).Keys !! ns.readSet
  {
    var ns := acts[n].parts[j].ns;
    SameNamespaces(c, cfg, cls, acts, n + 1);
    NamespaceRuns(c, cfg, cls, acts, ns);
    assert ActionsOf(cfg, cls, acts, ns)[m] == Commits(acts[m].parts[i].act) by { PartSeen(c, cfg, cls, acts, m, i); }
    assert ActionsOf(cfg, cls, acts, ns)[n] == Commits(acts[n].parts[j].act) by { PartSeen(c, cfg, cls, acts, n, j); }
    SameRequestTwice(c, cfg, StatesOf(cls, ns), ActionsOf(cfg, cls, acts, ns), m, n);
  }
}
