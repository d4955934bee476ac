/** Namespace metadata read through a cache that is keyed by the store's metadata version.
    (mvstore/src/metadata.rs) */
module Metadata {
  import opened Common
  import opened Delta
  import opened Store
  import opened Operations
  import opened Protocol
  import opened Cluster

  /** One snapshot's metadata: its metadata version, and the lock entries that are present. A namespace
      without an entry has default metadata. */
  datatype Meta = Meta(version: nat, locks: map<Namespace, Lock>)

  function LockOf(m: Meta, ns: Namespace): Option<Lock> {
    if ns in m.locks then Some(m.locks[ns]) else None
  }

  /** Snapshots in commit order: metadata changes only together with a new, higher metadata version. */
  ghost predicate Versioned(snaps: seq<Meta>) {
    forall i, j | 0 <= i < j < |snaps| ::
      snaps[i].version <= snaps[j].version
        && (snaps[i].version == snaps[j].version ==> snaps[i].locks == snaps[j].locks)
  }

  predicate Fresh(cache: map<(nat, Namespace), Option<Lock>>, m: Meta) {
    forall k | k in cache && k.0 == m.version :: cache[k] == LockOf(m, k.1)
  }

  class MetadataCache {
    var cache: map<(nat, Namespace), Option<Lock>>

    /** Every cached entry is right for every snapshot that has its metadata version. */
    ghost predicate Valid(snaps: seq<Meta>)
      reads this
    {
      && (forall m | m in snaps :: Fresh(cache, m))
      && (forall k | k in cache :: exists i | 0 <= i < |snaps| :: snaps[i].version == k.0)
    }

    constructor ()
      ensures forall snaps :: Valid(snaps)
    {
      cache := map[];
    }

    /** Entries may disappear at any time. */
    method Evict(keep: set<(nat, Namespace)>, ghost snaps: seq<Meta>)
      requires Valid(snaps)
      modifies this
      ensures Valid(snaps)
    {
      cache := map k | k in cache && k in keep :: cache[k];
    }

    /** A transaction on snapshot `m` is given that snapshot's own metadata, cached or not. */
    method Get(m: Meta, ns: Namespace, ghost snaps: seq<Meta>) returns (lock: Option<Lock>)
      requires Versioned(snaps) && m in snaps && Valid(snaps)
      modifies this
      ensures Valid(snaps) && lock == LockOf(m, ns)
    {
      var key := (m.version, ns);
      if key in cache {
        lock := cache[key];
      } else {
        lock := LockOf(m, ns);
        ghost var j :| 0 <= j < |snaps| && snaps[j] == m;
        forall x | x in snaps ensures Fresh(cache[key := lock], x) {
          var i :| 0 <= i < |snaps| && snaps[i] == x;
          assert Fresh(cache, x);
        }
        cache := cache[key := lock];
      }
    }
  }

  /** A new snapshot invalidates nothing: it has a new version, or the metadata of the last one. */
  lemma StaysValid(c: MetadataCache, snaps: seq<Meta>, m: Meta)
    requires c.Valid(snaps) && Versioned(snaps + [m])
    ensures c.Valid(snaps + [m])
  {
    var all := snaps + [m];
    assert forall i | 0 <= i < |snaps| :: all[i] == snaps[i];
    assert all[|snaps|] == m;
    forall k | k in c.cache && k.0 == m.version ensures c.cache[k] == LockOf(m, k.1) {
      var i :| 0 <= i < |snaps| && snaps[i].version == k.0;
      assert snaps[i] in snaps && Fresh(c.cache, snaps[i]);
    }
  }

  // ---- The metadata of a cluster ----

  /** Event `i` of namespace `ns` sets its metadata. */
  predicate SetsIn(cl: Cluster, ns: Namespace, i: nat) {
    ns in cl && i < |cl[ns].h.evs| && cl[ns].h.evs[i].writes.lock.PutLock?
  }

  predicate Sets(cl: Cluster, i: nat) {
    exists ns | ns in cl :: SetsIn(cl, ns, i)
  }

  /** Setting metadata bumps the one metadata version, to the transaction's versionstamp. */
  ghost function MetaVersion(cl: Cluster, i: nat): nat {
    if i == 0 then 0
    else if Sets(cl, i - 1) then var ns :| ns in cl && SetsIn(cl, ns, i - 1); cl[ns].h.evs[i - 1].stamp
    else MetaVersion(cl, i - 1)
  }

  function LockIn(cl: Cluster, ns: Namespace, i: nat): Option<Lock> {
    if ns in cl && i < |cl[ns].h.dbs| then cl[ns].h.dbs[i].lock else None
  }

  function LocksAt(cl: Cluster, i: nat): map<Namespace, Lock> {
    map ns | ns in cl && LockIn(cl, ns, i).Some? :: LockIn(cl, ns, i).value
  }

  ghost function MetaAt(cl: Cluster, i: nat): Meta {
    Meta(MetaVersion(cl, i), LocksAt(cl, i))
  }

  /** The metadata of every snapshot of a cluster in which `len` events have happened. */
  ghost function Metas(cl: Cluster, len: nat): seq<Meta> {
    seq(len + 1, i requires i >= 0 => MetaAt(cl, i))
  }

  ghost predicate HasEvents(h: History, len: nat) {
    WellFormed(h) && |h.evs| == len
  }

  /** All namespaces have the same `len` stamps, in order. */
  ghost predicate OnTime(cl: Cluster, len: nat) {
    && (forall ns {:trigger HasEvents(cl[ns].h, len)} | ns in cl :: HasEvents(cl[ns].h, len))
    && (forall x, y {:trigger SameStamps(cl[x], cl[y])} | x in cl && y in cl :: SameStamps(cl[x], cl[y]))
  }

  lemma {:induction false} VersionIsOld(cl: Cluster, len: nat, i: nat, ns: Namespace)
    requires OnTime(cl, len) && i < len && ns in cl && HasEvents(cl[ns].h, len)
    ensures MetaVersion(cl, i) < cl[ns].h.evs[i].stamp
  {
    if i > 0 {
      if Sets(cl, i - 1) {
        var x :| x in cl && SetsIn(cl, x, i - 1) && MetaVersion(cl, i) == cl[x].h.evs[i - 1].stamp;
        assert SameStamps(cl[x], cl[ns]);
      } else {
        VersionIsOld(cl, len, i - 1, ns);
      }
    }
  }

  lemma LockStays(h: History, len: nat, i: nat)
    requires HasEvents(h, len) && i < len && !h.evs[i].writes.lock.PutLock?
    ensures h.dbs[i + 1].lock == h.dbs[i].lock
  {
    assert h.dbs[i + 1] == Apply(h.dbs[i], h.evs[i].writes, h.evs[i].stamp);
  }

  lemma LockInStays(cl: Cluster, len: nat, i: nat, ns: Namespace)
    requires OnTime(cl, len) && i < len && ns in cl && !Sets(cl, i)
    ensures LockIn(cl, ns, i + 1) == LockIn(cl, ns, i)
  {
    assert HasEvents(cl[ns].h, len) && !SetsIn(cl, ns, i);
    LockStays(cl[ns].h, len, i);
  }

  lemma SameLocks(cl: Cluster, i: nat, j: nat)
    requires forall ns | ns in cl :: LockIn(cl, ns, i) == LockIn(cl, ns, j)
    ensures LocksAt(cl, i) == LocksAt(cl, j)
  {
  }

  lemma LocksStay(cl: Cluster, len: nat, i: nat)
    requires OnTime(cl, len) && i < len && !Sets(cl, i)
    ensures LocksAt(cl, i + 1) == LocksAt(cl, i)
  {
    forall ns | ns in cl ensures LockIn(cl, ns, i + 1) == LockIn(cl, ns, i) {
      LockInStays(cl, len, i, ns);
    }
    SameLocks(cl, i + 1, i);
  }

  lemma VersionRises(cl: Cluster, len: nat, i: nat)
    requires OnTime(cl, len) && i < len && Sets(cl, i)
    ensures MetaVersion(cl, i) < MetaVersion(cl, i + 1)
  {
    var ns :| ns in cl && SetsIn(cl, ns, i) && MetaVersion(cl, i + 1) == cl[ns].h.evs[i].stamp;
    assert HasEvents(cl[ns].h, len);
    VersionIsOld(cl, len, i, ns);
  }

  predicate Follows(a: Meta, b: Meta) {
    a.version <= b.version && (a.version == b.version ==> a.locks == b.locks)
  }

  /** An event that sets metadata raises the version; any other leaves version and locks alone. */
  lemma MetaStep(cl: Cluster, len: nat, i: nat)
    requires OnTime(cl, len) && i < len
    ensures Follows(MetaAt(cl, i), MetaAt(cl, i + 1))
  {
    if Sets(cl, i) { VersionRises(cl, len, i); } else { LocksStay(cl, len, i); }
  }

  lemma {:induction false} FollowsAll(metas: seq<Meta>, i: nat, j: nat)
    requires i <= j < |metas| && forall k: nat | k + 1 < |metas| :: Follows(metas[k], metas[k + 1])
    ensures Follows(metas[i], metas[j])
  {
    if i < j { FollowsAll(metas, i, j - 1); }
  }

  lemma OnTimeIsVersioned(cl: Cluster, len: nat)
    requires OnTime(cl, len)
    ensures Versioned(Metas(cl, len))
  {
    var metas := Metas(cl, len);
    forall k: nat | k + 1 < |metas| ensures Follows(metas[k], metas[k + 1]) {
      MetaStep(cl, len, k);
    }
    forall i, j | 0 <= i < j < |metas| ensures Follows(metas[i], metas[j]) {
      FollowsAll(metas, i, j);
    }
  }

  /** `len` events have happened in every namespace. */
  predicate HasLength(cl: Cluster, len: nat) {
    forall ns | ns in cl :: |cl[ns].h.evs| == len
  }

  lemma ClusterOnTime(c: Codec, cfg: Config, cls: seq<Cluster>, acts: seq<ClusterAction>, n: nat, len: nat)
    requires IsClusterRun(c, cfg, cls, acts) && n < |cls| && HasLength(cls[n], len)
    ensures OnTime(cls[n], len)
  {
    SameNamespaces(c, cfg, cls, acts, n);
    forall ns | ns in cls[n] ensures HasEvents(cls[n][ns].h, len) {
      NamespaceRuns(c, cfg, cls, acts, ns);
      EveryRunIsWellFormed(c, cfg, StatesOf(cls, ns), ActionsOf(cfg, cls, acts, ns), n);
    }
    forall x, y | x in cls[n] && y in cls[n] ensures SameStamps(cls[n][x], cls[n][y]) {
      OneTimeLine(c, cfg, cls, acts, n, x, y);
    }
  }

  /** In every run of the cluster, equal metadata versions mean equal metadata. */
  lemma ClusterIsVersioned(c: Codec, cfg: Config, cls: seq<Cluster>, acts: seq<ClusterAction>, n: nat, len: nat)
    requires IsClusterRun(c, cfg, cls, acts) && n < |cls| && HasLength(cls[n], len)
    ensures OnTime(cls[n], len) && Versioned(Metas(cls[n], len))
  {
    ClusterOnTime(c, cfg, cls, acts, n, len);
    OnTimeIsVersioned(cls[n], len);
  }

  /** At any moment of any run, a transaction on any past snapshot that asks the cache is given the very
      lock that the protocol's commit, lock and rollback steps look at. */
  method ReadLock(
      cache: MetadataCache, ghost c: Codec, ghost cfg: Config, ghost cls: seq<Cluster>,
      ghost acts: seq<ClusterAction>, ghost n: nat, ghost len: nat, ghost seen: nat, m: Meta, ns: Namespace)
    returns (lock: Option<Lock>)
    requires IsClusterRun(c, cfg, cls, acts) && n < |cls| && HasLength(cls[n], len)
    requires ns in cls[n] && seen <= len && m == MetaAt(cls[n], seen) && cache.Valid(Metas(cls[n], len))
    modifies cache
    ensures cache.Valid(Metas(cls[n], len)) && seen < |cls[n][ns].h.dbs| && lock == cls[n][ns].h.dbs[seen].lock
  {
    ClusterIsVersioned(c, cfg, cls, acts, n, len);
    assert Metas(cls[n], len)[seen] == m && HasEvents(cls[n][ns].h, len);
    assert LockOf(m, ns) == LockIn(cls[n], ns, seen);
    lock := cache.Get(m, ns, Metas(cls[n], len));
  }

  // ---- Cached entries outlive later steps ----

  predicate Extends(h: History, h': History) {
    h.evs <= h'.evs && h.dbs <= h'.dbs
  }

  ghost predicate GrowsInto(cl: Cluster, cl': Cluster) {
    cl.Keys == cl'.Keys && forall ns | ns in cl :: Extends(cl[ns].h, cl'[ns].h)
  }

  lemma PastStays(h: History, h': History, len: nat, i: nat)
    requires HasEvents(h, len) && Extends(h, h')
    ensures i < len ==> i < |h'.evs| && h.evs[i] == h'.evs[i]
    ensures i <= len ==> i < |h'.dbs| && h.dbs[i] == h'.dbs[i]
  {
  }

  lemma SetsStays(cl: Cluster, cl': Cluster, len: nat, i: nat, ns: Namespace)
    requires OnTime(cl, len) && GrowsInto(cl, cl') && i < len && ns in cl
    ensures SetsIn(cl, ns, i) == SetsIn(cl', ns, i)
    ensures i < |cl[ns].h.evs| && i < |cl'[ns].h.evs| && cl[ns].h.evs[i].stamp == cl'[ns].h.evs[i].stamp
  {
    assert HasEvents(cl[ns].h, len) && Extends(cl[ns].h, cl'[ns].h);
    PastStays(cl[ns].h, cl'[ns].h, len, i);
  }

  lemma LockInPast(cl: Cluster, cl': Cluster, len: nat, i: nat, ns: Namespace)
    requires OnTime(cl, len) && GrowsInto(cl, cl') && i <= len && ns in cl
    ensures LockIn(cl, ns, i) == LockIn(cl', ns, i)
  {
    assert HasEvents(cl[ns].h, len) && Extends(cl[ns].h, cl'[ns].h);
    PastStays(cl[ns].h, cl'[ns].h, len, i);
  }

  /** Whichever namespace is looked at, a set puts its stamp there. */
  lemma VersionWhenSet(cl: Cluster, len: nat, i: nat, ns: Namespace)
    requires OnTime(cl, len) && i < len && ns in cl && SetsIn(cl, ns, i)
    ensures MetaVersion(cl, i + 1) == cl[ns].h.evs[i].stamp
  {
    var x :| x in cl && SetsIn(cl, x, i) && MetaVersion(cl, i + 1) == cl[x].h.evs[i].stamp;
    assert SameStamps(cl[x], cl[ns]);
  }

  lemma SetsAlike(cl: Cluster, len: nat, cl': Cluster, i: nat)
    requires OnTime(cl, len) && GrowsInto(cl, cl') && i < len
    ensures Sets(cl, i) == Sets(cl', i)
  {
    forall ns | ns in cl ensures SetsIn(cl, ns, i) == SetsIn(cl', ns, i) {
      SetsStays(cl, cl', len, i, ns);
    }
  }

  lemma {:induction false} VersionStays(cl: Cluster, len: nat, cl': Cluster, len': nat, i: nat)
    requires OnTime(cl, len) && OnTime(cl', len') && GrowsInto(cl, cl') && i <= len <= len'
    ensures MetaVersion(cl', i) == MetaVersion(cl, i)
  {
    if i > 0 {
      SetsAlike(cl, len, cl', i - 1);
      if Sets(cl, i - 1) {
        var ns :| ns in cl && SetsIn(cl, ns, i - 1);
        SetsStays(cl, cl', len, i - 1, ns);
        VersionWhenSet(cl, len, i - 1, ns);
        VersionWhenSet(cl', len', i - 1, ns);
      } else {
        VersionStays(cl, len, cl', len', i - 1);
      }
    }
  }

  lemma LocksAtStays(cl: Cluster, len: nat, cl': Cluster, i: nat)
    requires OnTime(cl, len) && GrowsInto(cl, cl') && i <= len
    ensures LocksAt(cl', i) == LocksAt(cl, i)
  {
    forall ns | ns in cl ensures LockIn(cl', ns, i) == LockIn(cl, ns, i) {
      LockInPast(cl, cl', len, i, ns);
    }
    SameLocksIn(cl, cl', i);
  }

  lemma SameLocksIn(cl: Cluster, cl': Cluster, i: nat)
    requires cl.Keys == cl'.Keys && forall ns | ns in cl :: LockIn(cl', ns, i) == LockIn(cl, ns, i)
    ensures LocksAt(cl', i) == LocksAt(cl, i)
  {
  }

  lemma MetasGrow(cl: Cluster, len: nat, cl': Cluster, len': nat)
    requires OnTime(cl, len) && OnTime(cl', len') && GrowsInto(cl, cl') && len <= len'
    ensures Metas(cl', len')[..len + 1] == Metas(cl, len)
  {
    forall i | 0 <= i <= len ensures Metas(cl', len')[i] == Metas(cl, len)[i] {
      VersionStays(cl, len, cl', len', i);
      LocksAtStays(cl, len, cl', i);
    }
  }

  lemma {:induction false} StaysValidFor(c: MetadataCache, snaps: seq<Meta>, n: nat)
    requires n <= |snaps| && c.Valid(snaps[..n]) && Versioned(snaps)
    ensures c.Valid(snaps)
    decreases |snaps| - n
  {
    if n < |snaps| {
      assert snaps[..n] + [snaps[n]] == snaps[..n + 1];
      StaysValid(c, snaps[..n], snaps[n]);
      StaysValidFor(c, snaps, n + 1);
    } else {
      assert snaps[..n] == snaps;
    }
  }

  lemma StepExtends(cfg: Config, s: State, a: Action)
    requires s.h.dbs != []
    ensures Extends(s.h, Next(cfg, s, a).h)
  {
  }

  lemma StepGrows(c: Codec, cfg: Config, cls: seq<Cluster>, acts: seq<ClusterAction>, n: nat)
    requires IsClusterRun(c, cfg, cls, acts) && n < |acts|
    ensures GrowsInto(cls[n], cls[n + 1])
  {
    assert Step(c, cfg, cls[n], acts[n], cls[n + 1]);
    forall ns | ns in cls[n] ensures Extends(cls[n][ns].h, cls[n + 1][ns].h) {
      StepExtends(cfg, cls[n][ns], Seen(cfg, cls[n], acts[n], ns));
    }
  }

  lemma {:induction false} GrowsAlong(cls: seq<Cluster>, n: nat, m: nat)
    requires n <= m < |cls| && forall k: nat | k + 1 < |cls| :: GrowsInto(cls[k], cls[k + 1])
    ensures GrowsInto(cls[n], cls[m])
  {
    if n < m {
      GrowsAlong(cls, n, m - 1);
      GrowsOn(cls[n], cls[m - 1], cls[m]);
    }
  }

  lemma RunGrows(c: Codec, cfg: Config, cls: seq<Cluster>, acts: seq<ClusterAction>, n: nat, m: nat)
    requires IsClusterRun(c, cfg, cls, acts) && n <= m < |cls|
    ensures GrowsInto(cls[n], cls[m])
  {
    forall k: nat | k + 1 < |cls| ensures GrowsInto(cls[k], cls[k + 1]) {
      StepGrows(c, cfg, cls, acts, k);
    }
    GrowsAlong(cls, n, m);
  }

  lemma GrowsOn(x: Cluster, y: Cluster, z: Cluster)
    requires GrowsInto(x, y) && GrowsInto(y, z)
    ensures GrowsInto(x, z)
  {
    forall ns | ns in x ensures Extends(x[ns].h, z[ns].h) {
      assert Extends(x[ns].h, y[ns].h) && Extends(y[ns].h, z[ns].h);
    }
  }

  /** Nothing that happens later in a run makes a cached entry wrong: the cache need not be told of changes. */
  lemma CacheOutlivesRun(
      cache: MetadataCache, c: Codec, cfg: Config, cls: seq<Cluster>, acts: seq<ClusterAction>, n: nat, m: nat,
      len: nat, len': nat)
    requires IsClusterRun(c, cfg, cls, acts) && n <= m < |cls| && cls[n] != map[]
    requires HasLength(cls[n], len) && HasLength(cls[m], len')
    requires cache.Valid(Metas(cls[n], len))
    ensures cache.Valid(Metas(cls[m], len'))
  {
    ClusterIsVersioned(c, cfg, cls, acts, n, len);
    ClusterIsVersioned(c, cfg, cls, acts, m, len');
    RunGrows(c, cfg, cls, acts, n, m);
    LengthGrows(cls[n], len, cls[m], len');
    CacheOutlivesGrowth(cache, cls[n], len, cls[m], len');
  }

  lemma LengthGrows(cl: Cluster, len: nat, cl': Cluster, len': nat)
    requires HasLength(cl, len) && HasLength(cl', len') && GrowsInto(cl, cl') && cl != map[]
    ensures len <= len'
  {
    var ns :| ns in cl;
    assert Extends(cl[ns].h, cl'[ns].h);
  }

  lemma CacheOutlivesGrowth(cache: MetadataCache, cl: Cluster, len: nat, cl': Cluster, len': nat)
    requires OnTime(cl, len) && OnTime(cl', len') && GrowsInto(cl, cl') && len <= len'
    requires cache.Valid(Metas(cl, len)) && Versioned(Metas(cl', len'))
    ensures cache.Valid(Metas(cl', len'))
  {
    MetasGrow(cl, len, cl', len');
    StaysValidFor(cache, Metas(cl', len'), len + 1);
  }
}
