/** What the server's answers mean, told by the commits of a run: whether a commit goes on, the version that stat
    hands out, and the pages an interval lists. (mvstore/src/commit.rs, mvstore/src/stat.rs) */
module Answers {
  import opened Common
  import opened Octets
  import opened Delta
  import opened Store
  import opened Operations
  import opened Protocol
  import opened PageInvariants
  import opened Serializability
  import opened Changelog
  import opened LiveHistory
  import opened HeldHistory
  import opened Runs
  import opened RunEffects
  import opened Replay
  import opened ServerPromises
  import Client

  // ---- Moments of a run ----

  /** `s` is what `t` was when only `seen` events had happened. */
  ghost predicate WasOnce(s: State, t: State, seen: nat) {
    && seen <= |t.h.evs| && seen < |t.h.dbs| && s.h.dbs != []
    && s.h.evs == t.h.evs[..seen] && Now(s.h) == t.h.dbs[seen]
  }

  lemma WasOnceNow(s: State)
    requires WellFormed(s.h)
    ensures WasOnce(s, s, |s.h.evs|)
  {
    assert s.h.evs[..|s.h.evs|] == s.h.evs;
  }

  lemma WasOnceBefore(cfg: Config, s: State, t: State, a: Action, seen: nat)
    requires WellFormed(t.h) && WasOnce(s, t, seen)
    ensures WasOnce(s, Next(cfg, t, a), seen)
  {
    StepKeepsPast(cfg, t, a, seen);
  }

  lemma StepKeepsPast(cfg: Config, s: State, a: Action, seen: nat)
    requires WellFormed(s.h) && seen <= |s.h.evs|
    ensures var h := Next(cfg, s, a).h;
      && seen <= |h.evs| && seen < |h.dbs| && |h.evs| <= |s.h.evs| + 1
      && h.evs[..seen] == s.h.evs[..seen] && h.dbs[seen] == s.h.dbs[seen]
  {
  }

  /** Every moment of a history was the present of some state of its run. */
  lemma {:induction false} StateAt(c: Codec, cfg: Config, states: seq<State>, actions: seq<Action>, n: nat, seen: nat)
    returns (m: nat)
    requires IsRun(c, cfg, states, actions) && n < |states| && seen <= |states[n].h.evs|
    ensures m <= n && WasOnce(states[m], states[n], seen)
    decreases n, 1
  {
    EveryRunIsWellFormed(c, cfg, states, actions, n);
    if seen == |states[n].h.evs| {
      m := n;
      WasOnceNow(states[n]);
    } else {
      m := StateBefore(c, cfg, states, actions, n, seen);
    }
  }

  lemma StateBefore(c: Codec, cfg: Config, states: seq<State>, actions: seq<Action>, n: nat, seen: nat)
    returns (m: nat)
    requires IsRun(c, cfg, states, actions) && n < |states| && seen < |states[n].h.evs|
    ensures m <= n && WasOnce(states[m], states[n], seen)
    decreases n, 0
  {
    assert n > 0;
    var k: nat := n - 1;
    assert states[k + 1] == Next(cfg, states[k], actions[k]);
    EveryRunIsWellFormed(c, cfg, states, actions, k);
    StepKeepsPast(cfg, states[k], actions[k], 0);
    m := StateAt(c, cfg, states, actions, k, seen);
    WasOnceBefore(cfg, states[m], states[k], actions[k], seen);
  }

  // ---- Whether a commit goes on ----

  /** Some commit that a snapshot shows is later than `assumed` and wrote one of `pages`. */
  ghost predicate ReadSince(evs: seq<Event>, seen: nat, assumed: Version, pages: set<PageNo>) {
    exists j | 0 <= j < seen && j < |evs| ::
      evs[j].kind.Commit? && assumed < evs[j].stamp && !(evs[j].writes.setPages.Keys !! pages)
  }

  /** Every entry of the page index was made by a commit. */
  lemma {:induction false} EntryHasCommit(h: History, k: nat, key: PageKey) returns (i: nat)
    requires WellFormed(h) && k <= |h.evs| && (forall j | 0 <= j < |h.evs| :: Shaped(h.evs[j]))
    requires key in h.dbs[k].pages
    ensures i < k && MadeBy(h.evs[i], key)
  {
    assert k > 0;
    i := k - 1;
    if !MadeBy(h.evs[i], key) {
      OldEntry(h, i, key);
      i := EntryHasCommit(h, i, key);
    }
  }

  predicate MadeBy(e: Event, key: PageKey) {
    e.kind.Commit? && e.stamp == key.ver && key.idx in e.writes.setPages
  }

  lemma OldEntry(h: History, i: nat, key: PageKey)
    requires WellFormed(h) && i < |h.evs| && Shaped(h.evs[i]) && key in h.dbs[i + 1].pages && !MadeBy(h.evs[i], key)
    ensures key in h.dbs[i].pages
  {
    NotNew(h.dbs[i], h.evs[i], key);
  }

  lemma NotNew(db: Db, e: Event, key: PageKey)
    requires Shaped(e) && !MadeBy(e, key) && key in Apply(db, e.writes, e.stamp).pages
    ensures key in db.pages
  {
  }

  /** A page has changed exactly if some commit wrote it after the assumed version. */
  ghost predicate WrittenAfter(evs: seq<Event>, assumed: Version, p: PageNo) {
    exists j | 0 <= j < |evs| :: evs[j].kind.Commit? && assumed < evs[j].stamp && p in evs[j].writes.setPages
  }

  lemma ChangedHasCommit(h: History, ns: NsCommit, p: PageNo)
    requires WellFormed(h) && (forall j | 0 <= j < |h.evs| :: Shaped(h.evs[j])) && !PageUnchanged(Now(h), ns, p)
    ensures WrittenAfter(h.evs, ns.assumed, p)
  {
    var i := EntryHasCommit(h, |h.evs|, PageKey(p, Latest(Now(h).pages, p, MAX_VERSION).value));
    assert MadeBy(h.evs[i], PageKey(p, Latest(Now(h).pages, p, MAX_VERSION).value));
  }

  lemma CommitChanges(h: History, ns: NsCommit, p: PageNo)
    requires h.dbs != [] && LastVersionStays(h) && WrittenAfter(h.evs, ns.assumed, p)
    ensures !PageUnchanged(Now(h), ns, p)
  {
    var j :| 0 <= j < |h.evs| && h.evs[j].kind.Commit? && ns.assumed < h.evs[j].stamp
      && p in h.evs[j].writes.setPages;
    assert Latest(Now(h).pages, p, MAX_VERSION).Some?;
  }

  lemma SinceIsAfter(evs: seq<Event>, assumed: Version, pages: set<PageNo>)
    ensures ReadSince(evs, |evs|, assumed, pages) <==> exists p | p in pages :: WrittenAfter(evs, assumed, p)
  {
    if ReadSince(evs, |evs|, assumed, pages) {
      var j :| 0 <= j < |evs| && evs[j].kind.Commit? && assumed < evs[j].stamp
        && !(evs[j].writes.setPages.Keys !! pages);
      var p :| p in evs[j].writes.setPages.Keys && p in pages;
      assert p in evs[j].writes.setPages;
      assert WrittenAfter(evs, assumed, p);
    }
    if exists p | p in pages :: WrittenAfter(evs, assumed, p) {
      var p :| p in pages && WrittenAfter(evs, assumed, p);
      var j :| 0 <= j < |evs| && evs[j].kind.Commit? && assumed < evs[j].stamp && p in evs[j].writes.setPages;
      assert p in evs[j].writes.setPages.Keys;
    }
  }

  /** So the page-level check finds out whether some commit changed a page of the read set. */
  lemma PageCheckIs(h: History, ns: NsCommit)
    requires WellFormed(h) && (forall j | 0 <= j < |h.evs| :: Shaped(h.evs[j])) && LastVersionStays(h)
    ensures (exists p | p in ns.readSet :: !PageUnchanged(Now(h), ns, p)) <==>
      ReadSince(h.evs, |h.evs|, ns.assumed, ns.readSet)
  {
    SinceIsAfter(h.evs, ns.assumed, ns.readSet);
    forall p ensures PageUnchanged(Now(h), ns, p) <==> !WrittenAfter(h.evs, ns.assumed, p) {
      if WrittenAfter(h.evs, ns.assumed, p) { CommitChanges(h, ns, p); }
      if !PageUnchanged(Now(h), ns, p) { ChangedHasCommit(h, ns, p); }
    }
  }

  /** The lock lets a request through: there is none and none is claimed, or its owner asks and it is not marked. */
  predicate LockAdmits(lock: Option<Lock>, owner: Option<string>) {
    if lock.None? then owner.None? else owner == Some(lock.value.owner) && !lock.value.rollingBack
  }

  /** What the last phase of a commit finds out on its snapshot, in any run without a rollback. It goes on exactly if
      the lock admits it, it has not just been committed (if it asks), and nothing it depends on was committed
      after the version it assumed: no page of its read set if it is checked page by page, and else nothing at
      all. It conflicts exactly if somebody else's lock is held, or that is what stops it. */
  lemma CommitVerdictMeans(
      c: Codec, cfg: Config, states: seq<State>, actions: seq<Action>, n: nat, seen: nat, g: Request, ns: NsCommit)
    requires ValidCodec(c) && IsRun(c, cfg, states, actions) && n < |states| && NoRollback(states[n].h.evs)
    requires seen < |states[n].h.dbs|
    ensures var evs, db := states[n].h.evs, states[n].h.dbs[seen];
      var v, admitted := PhaseTwoVerdict(db, g, ns), LockAdmits(db.lock, g.owner);
      var twice := Asks(g, ns) && JustCommitted(evs, seen, g.token);
      var since := if UsesPlcc(g, ns) then ReadSince(evs, seen, ns.assumed, ns.readSet)
                   else WrittenSince(evs, seen, ns.assumed);
      && (v.Proceed? <==> admitted && !twice && !since)
      && (v.Duplicate? <==> admitted && twice)
      && (v.Conflict? <==> (db.lock.Some? && g.owner.None?) || (admitted && !twice && since))
  {
    var h := states[n].h;
    EveryRunIsWellFormed(c, cfg, states, actions, n);
    LastWriteCheckMeans(c, cfg, states, actions, n, seen, g, ns);
    if UsesPlcc(g, ns) { PageCheckMeans(c, cfg, states, actions, n, seen, ns); }
  }

  lemma PageCheckMeans(
      c: Codec, cfg: Config, states: seq<State>, actions: seq<Action>, n: nat, seen: nat, ns: NsCommit)
    requires ValidCodec(c) && IsRun(c, cfg, states, actions) && n < |states| && NoRollback(states[n].h.evs)
    requires seen <= |states[n].h.evs| && seen < |states[n].h.dbs|
    ensures (exists p | p in ns.readSet :: !PageUnchanged(states[n].h.dbs[seen], ns, p)) <==>
      ReadSince(states[n].h.evs, seen, ns.assumed, ns.readSet)
  {
    var m := StateAt(c, cfg, states, actions, n, seen);
    PrefixHasNoRollback(states[n].h.evs, seen);
    PageCheckIsRight(c, cfg, states, actions, m, ns);
    SinceOfPrefix(states[n].h.evs, seen, ns.assumed, ns.readSet);
  }

  lemma PrefixHasNoRollback(evs: seq<Event>, n: nat)
    requires NoRollback(evs) && n <= |evs|
    ensures NoRollback(evs[..n])
  {
  }

  lemma PageCheckIsRight(c: Codec, cfg: Config, states: seq<State>, actions: seq<Action>, m: nat, ns: NsCommit)
    requires ValidCodec(c) && IsRun(c, cfg, states, actions) && m < |states| && NoRollback(states[m].h.evs)
    ensures states[m].h.dbs != []
    ensures (exists p | p in ns.readSet :: !PageUnchanged(Now(states[m].h), ns, p)) <==>
      ReadSince(states[m].h.evs, |states[m].h.evs|, ns.assumed, ns.readSet)
  {
    EveryRunIsGood(c, cfg, states, actions, m);
    PageCheckIs(states[m].h, ns);
  }

  lemma SinceOfPrefix(evs: seq<Event>, seen: nat, assumed: Version, pages: set<PageNo>)
    requires seen <= |evs|
    ensures ReadSince(evs[..seen], seen, assumed, pages) <==> ReadSince(evs, seen, assumed, pages)
  {
    assert forall j | 0 <= j < seen :: evs[..seen][j] == evs[j];
  }

  // ---- The version that stat hands out ----

  /** Nobody is refused who does not claim the lock; who does is refused exactly if there is none, or it is somebody
      else's, or it is being rolled back. */
  lemma StatRefuses(db: Db, owner: string)
    ensures StatVersion(db, owner).None? <==>
      owner != "" && (db.lock.None? || db.lock.value.owner != owner || db.lock.value.rollingBack)
  {
  }

  /** Who asks of a namespace that is not locked, or is the owner of a lock that is not marked. */
  predicate SeesAll(db: Db, owner: string) {
    if db.lock.None? then owner == "" else owner != "" && db.lock.value.owner == owner && !db.lock.value.rollingBack
  }

  /** They are given a version at which every page is the newest there is. */
  lemma StatShowsNewest(c: Codec, cfg: Config, states: seq<State>, actions: seq<Action>, n: nat, owner: string)
    requires ValidCodec(c) && IsRun(c, cfg, states, actions) && n < |states| && states[n].h.dbs != []
    requires SeesAll(Now(states[n].h), owner)
    ensures var db := Now(states[n].h); var v := StatVersion(db, owner);
      v.Some? && forall p :: ReadPage(db.pages, p, v.value) == ReadPage(db.pages, p, MAX_VERSION)
  {
    EveryRunIsGood(c, cfg, states, actions, n);
    var db := Now(states[n].h);
    forall p ensures ReadPage(db.pages, p, StatVersion(db, owner).value) == ReadPage(db.pages, p, MAX_VERSION) {
      NothingAbove(db.pages, p, StatVersion(db, owner).value);
    }
  }

  /** Without a rollback it is the versionstamp of the newest commit, or zero before the first. */
  lemma StatIsNewestCommit(c: Codec, cfg: Config, states: seq<State>, actions: seq<Action>, n: nat, owner: string)
    requires ValidCodec(c) && IsRun(c, cfg, states, actions) && n < |states| && NoRollback(states[n].h.evs)
    requires states[n].h.dbs != [] && SeesAll(Now(states[n].h), owner)
    ensures var evs, v := states[n].h.evs, StatVersion(Now(states[n].h), owner);
      && (forall j: nat | NewestCommit(evs, |evs|, j) :: v == Some(evs[j].stamp))
      && ((forall j | 0 <= j < |evs| :: !evs[j].kind.Commit?) ==> v == Some(0))
  {
    EveryRunIsGood(c, cfg, states, actions, n);
    LastWriteIsNewest(states[n].h, |states[n].h.evs|);
    NewestDecides(states[n].h.evs, Now(states[n].h).lastWrite);
  }

  lemma NewestDecides(evs: seq<Event>, lw: Option<LastWrite>)
    requires NewestWrite(evs, |evs|, lw)
    ensures forall j: nat | NewestCommit(evs, |evs|, j) :: lw.Some? && lw.value.ver == evs[j].stamp
    ensures (forall j | 0 <= j < |evs| :: !evs[j].kind.Commit?) ==> lw.None?
  {
    forall j: nat | NewestCommit(evs, |evs|, j) ensures lw.Some? && lw.value.ver == evs[j].stamp {
      if lw.Some? {
        var k: nat :| NewestCommit(evs, |evs|, k) && LastWrite(evs[k].kind.info.token, evs[k].stamp) == lw.value;
        assert k == j;
      }
    }
  }

  /** The request: who is refused, the version, and the interval from the version that the client names to it. */
  method Stat(
      db: Db, log: map<Version, seq<Octet>>, from: Option<Version>, owner: string, scanSize: nat, maxSize: nat)
    returns (reply: Option<Client.Stat>)
    ensures reply.None? <==>
      owner != "" && (db.lock.None? || db.lock.value.owner != owner || db.lock.value.rollingBack)
    ensures reply.Some? ==> StatVersion(db, owner) == Some(reply.value.version)
    ensures reply.Some? ==>
      reply.value.version ==
        if db.lock.Some? && owner == "" then db.lock.value.snapshot
        else if db.lastWrite.Some? then db.lastWrite.value.ver else 0
    ensures reply.Some? ==>
      reply.value.interval ==
        if from.None? then None else Interval(log, from.value, reply.value.version, true, scanSize, maxSize)
  {
    var version := None;
    if db.lock.Some? {
      if owner == "" {
        version := Some(db.lock.value.snapshot);
      } else {
        if db.lock.value.owner != owner { return None; }
        if db.lock.value.rollingBack { return None; }
      }
    } else {
      if owner != "" { return None; }
    }
    if version.None? { version := Some(if db.lastWrite.Some? then db.lastWrite.value.ver else 0); }
    var interval := None;
    if from.Some? { interval := ReadInterval(log, from.value, version.value, true, scanSize, maxSize); }
    return Some(Client.Stat(version.value, interval));
  }

  /** Such a reply is right for the client, in every run in which no rollback was cut off that had changed
      something, then and at every later moment. */
  lemma StatReplyIsRight(
      c: Codec, cfg: Config, states: seq<State>, actions: seq<Action>, n: nat, m: nat, log: map<Version, seq<Octet>>,
      from: Option<Version>, scanSize: nat, maxSize: nat, page: Hash -> Client.Page, reply: Client.Stat)
    requires ValidCodec(c) && IsRun(c, cfg, states, actions) && n <= m < |states|
    requires |states[n].h.dbs| == |states[n].h.evs| + 1 && Harmless(states[n].h)
    requires Stores(log, Now(states[n].h).changelog)
    requires reply.interval ==
      if from.None? then None else Interval(log, from.value, reply.version, true, scanSize, maxSize)
    ensures Client.StatOk(v => PagesAt(states[m].h, page, v), from, reply)
  {
    if from.Some? {
      StatIsKept(c, cfg, states, actions, n, m, log, from.value, reply.version, scanSize, maxSize, page);
    }
  }

  // ---- The pages that an interval lists ----

  /** In every run, a page that an interval lists was written by a commit after its first version, up to its last. */
  lemma IntervalListsCommits(
      c: Codec, cfg: Config, states: seq<State>, actions: seq<Action>, n: nat, log: map<Version, seq<Octet>>,
      from: Version, to: Version, inclusive: bool, scanSize: nat, maxSize: nat, p: PageNo)
    returns (i: nat)
    requires ValidCodec(c) && IsRun(c, cfg, states, actions) && n < |states| && states[n].h.dbs != []
    requires Stores(log, Now(states[n].h).changelog)
    requires var r := Interval(log, from, to, inclusive, scanSize, maxSize); r.Some? && p in r.value
    ensures i < |states[n].h.evs|
    ensures var e := states[n].h.evs[i];
      e.kind.Commit? && p in e.writes.setPages && from < e.stamp <= to && (inclusive || e.stamp < to)
  {
    EveryRunIsGood(c, cfg, states, actions, n);
    i := ListedByCommit(states[n].h, log, from, to, inclusive, scanSize, maxSize, p);
  }

  lemma ListedByCommit(
      h: History, log: map<Version, seq<Octet>>, from: Version, to: Version, inclusive: bool, scanSize: nat,
      maxSize: nat, p: PageNo)
    returns (i: nat)
    requires LogState(h) && HeldState(h) && Stores(log, Now(h).changelog)
    requires var r := Interval(log, from, to, inclusive, scanSize, maxSize); r.Some? && p in r.value
    ensures i < |h.evs| && h.evs[i].kind.Commit? && p in h.evs[i].writes.setPages
    ensures from < h.evs[i].stamp <= to && (inclusive || h.evs[i].stamp < to)
  {
    var v := ListedAt(log, Now(h).changelog, from, to, inclusive, scanSize, maxSize, p);
    assert HasCommit(h.evs, v);
    i := CommitAt(h.evs, Now(h).changelog, v, p);
  }

  lemma ListedAt(
      log: map<Version, seq<Octet>>, changelog: map<Version, Entry>, from: Version, to: Version, inclusive: bool,
      scanSize: nat, maxSize: nat, p: PageNo)
    returns (v: Version)
    requires Stores(log, changelog)
    requires var r := Interval(log, from, to, inclusive, scanSize, maxSize); r.Some? && p in r.value
    ensures v in changelog && from < v <= to && (inclusive || v < to) && changelog[v].Listed? && p in changelog[v].pages
  {
    IntervalAnswers(log, changelog, from, to, inclusive, scanSize, maxSize);
    v :| v in Added(changelog, from, to, inclusive) && changelog[v].Listed? && p in changelog[v].pages;
  }

  lemma CommitAt(evs: seq<Event>, changelog: map<Version, Entry>, v: Version, p: PageNo) returns (i: nat)
    requires EntriesMatch(evs, changelog) && HasCommit(evs, v)
    requires v in changelog && changelog[v].Listed? && p in changelog[v].pages
    ensures i < |evs| && evs[i].kind.Commit? && evs[i].stamp == v && p in evs[i].writes.setPages
  {
    i :| 0 <= i < |evs| && evs[i].kind.Commit? && evs[i].stamp == v;
    assert IsEntry(changelog[v], evs[i].writes.setPages.Keys);
  }
}
