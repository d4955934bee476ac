/** A run in which a rollback is cut off by releasing its lock: afterwards a page is gone that no changelog entry
    tells of. (mvstore/src/nslock.rs) */
module CutOffRollback {
  import opened Common
  import opened Octets
  import opened Delta
  import opened Store
  import opened Operations
  import opened Protocol
  import opened Versions
  import opened HeldHistory
  import opened Changelog
  import opened Witness
  import opened Runs
  import opened ServerPromises
  import Client

  const OWNER := "owner"

  /** What is in the store besides content, of which there is `x`; one event was stamped at each version. */
  datatype Visible = Visible(
    pages: map<PageKey, Hash>, log: map<Version, Entry>, lastWrite: Option<LastWrite>, lock: Option<Lock>)

  ghost predicate At(h: History, n: nat, see: Visible, x: Hash) {
    WellFormed(h) && h.clock == n && |h.evs| == n && Shows(Now(h), see, x)
  }

  predicate Shows(db: Db, see: Visible, x: Hash) {
    db.pages == see.pages && db.changelog == see.log && db.lastWrite == see.lastWrite && db.lock == see.lock
    && x in db.index
  }

  lemma Appended(h: History, n: nat, see: Visible, e: Event, see': Visible, x: Hash)
    requires At(h, n, see, x) && e.stamp == n + 1 < MAX_VERSION && Shows(Apply(Now(h), e.writes, n + 1), see', x)
    ensures At(Append(h, e), n + 1, see', x)
  {
    AppendWellFormed(h, e);
  }

  // ---- The steps ----

  /** A commit of content that is there already, as page `p`, checked by the last write version. */
  function RefCommit(n: nat, owner: Option<string>, assumed: Version, token: nat, p: PageNo, x: Hash): CommitAction {
    CommitOne(n, n, Request(token, false, owner, false, false), NsCommit(assumed, false, {}, [], [(p, x)]),
              NO_READS, NO_WRITES, n + 1)
  }

  lemma RefWrites(cfg: Config, n: nat, owner: Option<string>, assumed: Version, token: nat, p: PageNo, x: Hash)
    requires cfg.entryMax >= 2
    ensures CommitEvent(cfg, RefCommit(n, owner, assumed, token, p, x)).writes ==
      NO_WRITES.(setPages := map[p := x], stamp := {x}, log := Some(Listed({p})), lastWrite := StampLastWrite(token))
  {
    var iws := [(p, x)];
    assert iws[..0] == [] && IndexMap(iws) == map[p := x];
    assert IndexHashes(iws) == {x} by { assert (p, x) in iws; }
    assert map[p := x].Keys == {p};
  }

  lemma RefEnabled(
      c: Codec, s: State, n: nat, see: Visible, owner: Option<string>, assumed: Version, token: nat, p: PageNo, x: Hash)
    requires At(s.h, n, see, x) && n + 1 < MAX_VERSION && assumed <= n
    requires LockVerdict(see.lock, owner) == Proceed
    requires see.lastWrite.Some? ==> see.lastWrite.value.ver <= assumed && see.lastWrite.value.token != token
    ensures Enabled(c, s, Commits(RefCommit(n, owner, assumed, token, p, x)))
  {
    var a := RefCommit(n, owner, assumed, token, p, x);
    assert s.h.dbs[n] == Now(s.h);
    assert ReqHashes(c, []) == {} && SlowHashes(c, a.n) <= {x};
    assert PhaseOneOk(c, s.h.dbs[n], n, a.n, NO_READS, NO_WRITES);
  }

  function Referred(see: Visible, n: nat, token: nat, p: PageNo, x: Hash): Visible {
    see.(pages := see.pages + map[PageKey(p, n + 1) := x], log := see.log[n + 1 := Listed({p})],
         lastWrite := Some(LastWrite(token, n + 1)))
  }

  lemma Refers(
      cfg: Config, h: History, n: nat, see: Visible, owner: Option<string>, assumed: Version, token: nat, p: PageNo,
      x: Hash)
    requires At(h, n, see, x) && n + 1 < MAX_VERSION && cfg.entryMax >= 2
    ensures At(HistoryAfter(cfg, h, Commits(RefCommit(n, owner, assumed, token, p, x))), n + 1,
               Referred(see, n, token, p, x), x)
  {
    RefWrites(cfg, n, owner, assumed, token, p, x);
    var e := CommitEvent(cfg, RefCommit(n, owner, assumed, token, p, x));
    RefApplies(Now(h), e.writes, n + 1, token, p, x);
    Appended(h, n, see, e, Referred(see, n, token, p, x), x);
  }

  lemma RefApplies(db: Db, w: Writes, stamp: Version, token: nat, p: PageNo, x: Hash)
    requires w == NO_WRITES.(setPages := map[p := x], stamp := {x}, log := Some(Listed({p})),
                             lastWrite := StampLastWrite(token))
    ensures var db' := Apply(db, w, stamp);
      && db'.pages == db.pages + map[PageKey(p, stamp) := x] && x in db'.index && db'.lock == db.lock
      && db'.changelog == db.changelog[stamp := Listed({p})] && db'.lastWrite == Some(LastWrite(token, stamp))
  {
    OnePageSet(db, w, stamp, p, x);
  }

  lemma OnePageSet(db: Db, w: Writes, stamp: Version, p: PageNo, x: Hash)
    requires w.setPages == map[p := x] && w.clearPages == {}
    ensures Apply(db, w, stamp).pages == db.pages + map[PageKey(p, stamp) := x]
  {
    assert (map i | i in w.setPages :: PageKey(i, stamp) := w.setPages[i]) == map[PageKey(p, stamp) := x];
    assert db.pages - {} == db.pages;
  }

  lemma LockApplies(db: Db, w: Writes, stamp: Version)
    requires w == NO_WRITES.(lock := w.lock) && w.lock.PutLock?
    ensures var db' := Apply(db, w, stamp);
      && db'.pages == db.pages && db'.changelog == db.changelog && db'.lastWrite == db.lastWrite
      && db'.lock == w.lock.lock && db.index.Keys <= db'.index.Keys
  {
    PagesUntouched(db, w, stamp);
  }

  lemma LockShape(h: History, a: LockAction)
    ensures var e := LockEvent(h, a);
      e.stamp == a.stamp && e.writes == NO_WRITES.(lock := e.writes.lock) && e.writes.lock.PutLock?
  {
  }

  lemma Locked(h: History, n: nat, see: Visible, e: Event, x: Hash)
    requires At(h, n, see, x) && e.stamp == n + 1 < MAX_VERSION
    requires e.writes == NO_WRITES.(lock := e.writes.lock) && e.writes.lock.PutLock?
    ensures At(Append(h, e), n + 1, see.(lock := e.writes.lock.lock), x)
  {
    LockApplies(Now(h), e.writes, n + 1);
    Appended(h, n, see, e, see.(lock := e.writes.lock.lock), x);
  }

  lemma LockStep(cfg: Config, h: History, n: nat, see: Visible, a: LockAction, x: Hash)
    requires At(h, n, see, x) && a.stamp == n + 1 < MAX_VERSION
    ensures At(HistoryAfter(cfg, h, Locks(a)), n + 1, see.(lock := LockEvent(h, a).writes.lock.lock), x)
  {
    LockShape(h, a);
    LockHistory(cfg, h, a);
    Locked(h, n, see, LockEvent(h, a), x);
  }

  lemma LockHistory(cfg: Config, h: History, a: LockAction)
    requires h.dbs != []
    ensures HistoryAfter(cfg, h, Locks(a)) == Append(h, LockEvent(h, a))
  {
  }

  lemma ClearShape(h: History, n: nat, roll: Roll, last: PageKey)
    requires n < |h.dbs|
    ensures var e := RollEvent(h, roll, RollClear(n, last, n + 1)).value;
      e.stamp == n + 1 && e.writes == NO_WRITES.(clearPages := RollKeys(h.dbs[n].pages, roll, last))
  {
  }

  lemma ClearedBy(h: History, n: nat, see: Visible, e: Event, keys: set<PageKey>, x: Hash)
    requires At(h, n, see, x) && e.stamp == n + 1 < MAX_VERSION && e.writes == NO_WRITES.(clearPages := keys)
    ensures At(Append(h, e), n + 1, see.(pages := see.pages - keys), x)
  {
    ClearApplies(Now(h), e.writes, n + 1);
    Appended(h, n, see, e, see.(pages := see.pages - keys), x);
  }

  lemma Cleared(cfg: Config, h: History, n: nat, see: Visible, roll: Roll, last: PageKey, x: Hash)
    requires At(h, n, see, x) && n + 1 < MAX_VERSION
    ensures At(HistoryAfter(cfg, h, Rolls(roll, RollClear(n, last, n + 1))), n + 1,
               see.(pages := see.pages - RollKeys(see.pages, roll, last)), x)
  {
    assert h.dbs[n] == Now(h);
    ClearShape(h, n, roll, last);
    ClearedBy(h, n, see, RollEvent(h, roll, RollClear(n, last, n + 1)).value, RollKeys(see.pages, roll, last), x);
  }

  lemma ClearApplies(db: Db, w: Writes, stamp: Version)
    requires w == NO_WRITES.(clearPages := w.clearPages)
    ensures var db' := Apply(db, w, stamp);
      && db'.pages == db.pages - w.clearPages && db'.changelog == db.changelog && db'.lastWrite == db.lastWrite
      && db'.lock == db.lock && db.index.Keys <= db'.index.Keys
  {
  }

  // ---- The run ----

  function TakenLock(): Lock {
    Lock(1, OWNER, 0, false)
  }

  function TheRoll(): Roll {
    Roll(4, 0, 1, None, false)
  }

  const ACQUIRE := LockAcquire(1, OWNER, 0, 2)
  const MARK := RollMark(3, OWNER, 4)
  const RELEASE := LockRelease(5, OWNER, 6)
  const CLEAR := RollClear(4, PageKey(1, 3), 5)

  /** Page 0 is committed at 1; the lock taken at 2; its owner commits page 1 at 3; a rollback is marked at 4 and
      clears page 1 at 5; the lock is released at 6; somebody commits page 2 at 7. */
  function Actions(c: Codec, page: Bytes): seq<Action> {
    FirstActions(c, page) + [Locks(MARK)] + [Rolls(TheRoll(), CLEAR)] + [Locks(RELEASE)]
    + [Commits(RefCommit(6, None, 3, 3, 2, c.hash(page)))]
  }

  function FirstActions(c: Codec, page: Bytes): seq<Action> {
    [Commits(FirstCommit(c, page, 1))] + [Locks(ACQUIRE)] + [Commits(RefCommit(2, Some(OWNER), 1, 2, 1, c.hash(page)))]
  }

  function See1(x: Hash): Visible {
    Visible(map[PageKey(0, 1) := x], map[1 := Listed({0})], Some(LastWrite(1, 1)), None)
  }

  function See3(x: Hash): Visible {
    Visible(map[PageKey(0, 1) := x, PageKey(1, 3) := x], map[1 := Listed({0}), 3 := Listed({1})],
            Some(LastWrite(2, 3)), Some(TakenLock()))
  }

  function See5(x: Hash): Visible {
    See3(x).(pages := map[PageKey(0, 1) := x], lock := Some(TakenLock().(rollingBack := true)))
  }

  function See7(x: Hash): Visible {
    Visible(map[PageKey(0, 1) := x, PageKey(2, 7) := x], map[1 := Listed({0}), 3 := Listed({1}), 7 := Listed({2})],
            Some(LastWrite(3, 7)), None)
  }

  lemma See3Is(x: Hash)
    ensures Referred(See1(x).(lock := Some(TakenLock())), 2, 2, 1, x) == See3(x)
  {
    assert map[PageKey(0, 1) := x] + map[PageKey(1, 3) := x] == See3(x).pages;
    assert map[1 := Listed({0})][3 := Listed({1})] == See3(x).log;
  }

  lemma See7Is(x: Hash)
    ensures Referred(See5(x).(lock := None), 6, 3, 2, x) == See7(x)
  {
    assert map[PageKey(0, 1) := x] + map[PageKey(2, 7) := x] == See7(x).pages;
    assert See5(x).log[7 := Listed({2})] == See7(x).log;
  }

  lemma See5Is(x: Hash)
    ensures See3(x).pages - RollKeys(See3(x).pages, TheRoll(), PageKey(1, 3)) == See5(x).pages
  {
    var pages, last := See3(x).pages, PageKey(1, 3);
    assert last in pages && PageKey(0, 1) in pages;
    assert forall k | k in pages :: k == last || k == PageKey(0, 1);
    assert RollKeys(pages, TheRoll(), last) == {last};
  }

  lemma FirstWritesAre(c: Codec, cfg: Config, page: Bytes)
    requires cfg.entryMax >= 2
    ensures var w, x := CommitEvent(cfg, FirstCommit(c, page, 1)).writes, c.hash(page);
      && w.setPages == map[0 := x] && w.clearPages == {} && x in w.stamp && w.clearLog.NoClear? && w.lock.KeepLock?
      && w.log == Some(Listed({0})) && w.lastWrite == StampLastWrite(1)
  {
    FirstCommitWrites(c, cfg, page, 1);
    assert map[0 := c.hash(page)].Keys == {0} && |{0}| == 1;
  }

  lemma FirstApplies(w: Writes, x: Hash)
    requires w.setPages == map[0 := x] && w.clearPages == {} && x in w.stamp && w.clearLog.NoClear? && w.lock.KeepLock?
    requires w.log == Some(Listed({0})) && w.lastWrite == StampLastWrite(1)
    ensures Shows(Apply(EMPTY_DB, w, 1), See1(x), x)
  {
    assert (map i | i in w.setPages :: PageKey(i, 1) := w.setPages[i]) == map[PageKey(0, 1) := x];
    var none: map<Version, Entry> := map[];
    assert none[1 := Listed({0})] == map[1 := Listed({0})];
  }

  lemma Moment1(c: Codec, cfg: Config, page: Bytes)
    requires cfg.entryMax >= 2
    ensures At(Append(NEW_HISTORY, CommitEvent(cfg, FirstCommit(c, page, 1))), 1, See1(c.hash(page)), c.hash(page))
  {
    FirstWritesAre(c, cfg, page);
    FirstApplies(CommitEvent(cfg, FirstCommit(c, page, 1)).writes, c.hash(page));
    AppendWellFormed(NEW_HISTORY, CommitEvent(cfg, FirstCommit(c, page, 1)));
  }

  lemma CanAcquire(h: History, see: Visible, x: Hash)
    requires At(h, 1, see, x) && see.lock.None? && h.evs[0].writes.lock.KeepLock?
    ensures CanLock(h, ACQUIRE)
  {
    assert h.dbs[1] == Now(h);
  }

  lemma AcquireWrites(h: History, x: Hash)
    requires At(h, 1, See1(x), x)
    ensures LockEvent(h, ACQUIRE).writes.lock == PutLock(Some(TakenLock()))
  {
    assert h.dbs[1] == Now(h);
  }

  lemma Moment2(cfg: Config, h: History, x: Hash)
    requires At(h, 1, See1(x), x)
    ensures At(HistoryAfter(cfg, h, Locks(ACQUIRE)), 2, See1(x).(lock := Some(TakenLock())), x)
  {
    AcquireWrites(h, x);
    LockStep(cfg, h, 1, See1(x), ACQUIRE, x);
  }

  lemma Moment3(c: Codec, cfg: Config, s: State, x: Hash)
    requires At(s.h, 2, See1(x).(lock := Some(TakenLock())), x) && cfg.entryMax >= 2
    ensures var a := Commits(RefCommit(2, Some(OWNER), 1, 2, 1, x));
      Enabled(c, s, a) && At(HistoryAfter(cfg, s.h, a), 3, See3(x), x)
  {
    var see := See1(x).(lock := Some(TakenLock()));
    RefEnabled(c, s, 2, see, Some(OWNER), 1, 2, 1, x);
    Refers(cfg, s.h, 2, see, Some(OWNER), 1, 2, 1, x);
    See3Is(x);
  }

  lemma CanMark(s: State, x: Hash)
    requires At(s.h, 3, See3(x), x)
    ensures CanLock(s.h, MARK) && TheRoll() in RollsAfter(s, Locks(MARK))
    ensures LockEvent(s.h, MARK).writes.lock == PutLock(See5(x).lock)
  {
    assert s.h.dbs[3] == Now(s.h);
  }

  lemma Moment4(cfg: Config, s: State, x: Hash)
    requires At(s.h, 3, See3(x), x)
    ensures At(HistoryAfter(cfg, s.h, Locks(MARK)), 4, See3(x).(lock := See5(x).lock), x)
  {
    CanMark(s, x);
    LockStep(cfg, s.h, 3, See3(x), MARK, x);
  }

  lemma CanClear(h: History, x: Hash)
    requires At(h, 4, See3(x).(lock := See5(x).lock), x)
    ensures CanRollBack(h, TheRoll(), CLEAR)
  {
    assert h.dbs[4] == Now(h) && PageKey(1, 3) in See3(x).pages;
  }

  lemma Moment5(cfg: Config, h: History, x: Hash)
    requires At(h, 4, See3(x).(lock := See5(x).lock), x)
    ensures At(HistoryAfter(cfg, h, Rolls(TheRoll(), CLEAR)), 5, See5(x), x)
  {
    See5Is(x);
    Cleared(cfg, h, 4, See3(x).(lock := See5(x).lock), TheRoll(), PageKey(1, 3), x);
  }

  lemma Moment6(cfg: Config, h: History, x: Hash)
    requires At(h, 5, See5(x), x)
    ensures CanLock(h, RELEASE)
    ensures At(HistoryAfter(cfg, h, Locks(RELEASE)), 6, See5(x).(lock := None), x)
  {
    assert h.dbs[5] == Now(h);
    LockStep(cfg, h, 5, See5(x), RELEASE, x);
  }

  lemma Moment7(c: Codec, cfg: Config, s: State, x: Hash)
    requires At(s.h, 6, See5(x).(lock := None), x) && cfg.entryMax >= 2
    ensures var a := Commits(RefCommit(6, None, 3, 3, 2, x));
      Enabled(c, s, a) && At(HistoryAfter(cfg, s.h, a), 7, See7(x), x)
  {
    var see := See5(x).(lock := None);
    RefEnabled(c, s, 6, see, None, 3, 3, 2, x);
    Refers(cfg, s.h, 6, see, None, 3, 3, 2, x);
    See7Is(x);
  }

  lemma RunOn(c: Codec, cfg: Config, states: seq<State>, actions: seq<Action>, a: Action) returns (more: seq<State>)
    requires IsRun(c, cfg, states, actions) && states[|actions|].h.dbs != [] && Enabled(c, states[|actions|], a)
    ensures IsRun(c, cfg, more, actions + [a]) && more[..|states|] == states
    ensures more[|states|].h == HistoryAfter(cfg, states[|actions|].h, a)
    ensures more[|states|].rolls == RollsAfter(states[|actions|], a)
  {
    var next := Next(cfg, states[|actions|], a);
    more := states + [next];
    RunGrows(c, cfg, states, actions, a, next);
  }

  /** What a run demands of each step. */
  ghost predicate Leads(c: Codec, cfg: Config, s: State, a: Action, s': State) {
    s.h.dbs != [] && Enabled(c, s, a) && s' == Next(cfg, s, a)
  }

  lemma RunLeads(c: Codec, cfg: Config, states: seq<State>, actions: seq<Action>, i: nat)
    requires IsRun(c, cfg, states, actions) && i < |actions|
    ensures Leads(c, cfg, states[i], actions[i], states[i + 1])
  {
  }

  lemma LeadingIsRun(c: Codec, cfg: Config, states: seq<State>, actions: seq<Action>)
    requires |states| == |actions| + 1 && states[0] == INITIAL
    requires forall i: nat | i < |actions| :: Leads(c, cfg, states[i], actions[i], states[i + 1])
    ensures IsRun(c, cfg, states, actions)
  {
    forall i | 0 <= i < |actions|
      ensures states[i].h.dbs != [] && Enabled(c, states[i], actions[i])
      ensures states[i + 1] == Next(cfg, states[i], actions[i])
    {
      var k: nat := i;
      assert Leads(c, cfg, states[k], actions[k], states[k + 1]);
    }
  }

  lemma RunGrows(c: Codec, cfg: Config, states: seq<State>, actions: seq<Action>, a: Action, next: State)
    requires IsRun(c, cfg, states, actions) && Leads(c, cfg, states[|actions|], a, next)
    ensures IsRun(c, cfg, states + [next], actions + [a])
  {
    var more, all := states + [next], actions + [a];
    forall i: nat | i < |all| ensures Leads(c, cfg, more[i], all[i], more[i + 1]) {
      if i < |actions| {
        RunLeads(c, cfg, states, actions, i);
      }
    }
    LeadingIsRun(c, cfg, more, all);
  }

  /** A run of `n` steps. */
  ghost predicate Done(
      c: Codec, cfg: Config, states: seq<State>, actions: seq<Action>, n: nat, see: Visible, x: Hash) {
    |actions| == n && |states| == n + 1 && IsRun(c, cfg, states, actions) && At(states[n].h, n, see, x)
  }

  lemma Further(
      c: Codec, cfg: Config, states: seq<State>, actions: seq<Action>, n: nat, see: Visible, x: Hash, a: Action,
      see': Visible)
    returns (more: seq<State>)
    requires Done(c, cfg, states, actions, n, see, x) && Enabled(c, states[n], a)
    requires At(HistoryAfter(cfg, states[n].h, a), n + 1, see', x)
    ensures Done(c, cfg, more, actions + [a], n + 1, see', x) && more[..n + 1] == states
    ensures more[n + 1].rolls == RollsAfter(states[n], a) && more[n + 1].h == HistoryAfter(cfg, states[n].h, a)
  {
    more := RunOn(c, cfg, states, actions, a);
  }

  lemma LockEnabled(c: Codec, s: State, a: LockAction)
    requires s.h.dbs != [] && CanLock(s.h, a)
    ensures Enabled(c, s, Locks(a))
  {
  }

  lemma FirstStep(c: Codec, cfg: Config, page: Bytes) returns (states: seq<State>)
    requires |page| <= MAX_PAGE_SIZE && c.occurs(page) && cfg.entryMax >= 2
    ensures Done(c, cfg, states, [Commits(FirstCommit(c, page, 1))], 1, See1(c.hash(page)), c.hash(page))
    ensures states[1].h.evs[0].writes.lock.KeepLock?
  {
    var a := FirstCommit(c, page, 1);
    FirstCommitEnabled(c, page, 1);
    Moment1(c, cfg, page);
    FirstWritesAre(c, cfg, page);
    FirstHistory(cfg, a);
    OneStepRun(c, cfg, Commits(a));
    states := [INITIAL, Next(cfg, INITIAL, Commits(a))];
  }

  lemma FirstHistory(cfg: Config, a: CommitAction)
    ensures Next(cfg, INITIAL, Commits(a)).h == Append(NEW_HISTORY, CommitEvent(cfg, a))
    ensures Append(NEW_HISTORY, CommitEvent(cfg, a)).evs == [CommitEvent(cfg, a)]
  {
  }

  lemma Acquired(c: Codec, cfg: Config, s: seq<State>, actions: seq<Action>, x: Hash) returns (states: seq<State>)
    requires Done(c, cfg, s, actions, 1, See1(x), x) && s[1].h.evs[0].writes.lock.KeepLock?
    ensures Done(c, cfg, states, actions + [Locks(ACQUIRE)], 2, See1(x).(lock := Some(TakenLock())), x)
  {
    CanAcquire(s[1].h, See1(x), x);
    LockEnabled(c, s[1], ACQUIRE);
    Moment2(cfg, s[1].h, x);
    states := Further(c, cfg, s, actions, 1, See1(x), x, Locks(ACQUIRE), See1(x).(lock := Some(TakenLock())));
  }

  lemma Committed(c: Codec, cfg: Config, s: seq<State>, actions: seq<Action>, x: Hash) returns (states: seq<State>)
    requires Done(c, cfg, s, actions, 2, See1(x).(lock := Some(TakenLock())), x) && cfg.entryMax >= 2
    ensures Done(c, cfg, states, actions + [Commits(RefCommit(2, Some(OWNER), 1, 2, 1, x))], 3, See3(x), x)
  {
    var a := Commits(RefCommit(2, Some(OWNER), 1, 2, 1, x));
    Moment3(c, cfg, s[2], x);
    states := Further(c, cfg, s, actions, 2, See1(x).(lock := Some(TakenLock())), x, a, See3(x));
  }

  lemma Marked(c: Codec, cfg: Config, s: seq<State>, actions: seq<Action>, x: Hash) returns (states: seq<State>)
    requires Done(c, cfg, s, actions, 3, See3(x), x)
    ensures Done(c, cfg, states, actions + [Locks(MARK)], 4, See3(x).(lock := See5(x).lock), x)
    ensures TheRoll() in states[4].rolls && states[..4] == s
  {
    CanMark(s[3], x);
    LockEnabled(c, s[3], MARK);
    Moment4(cfg, s[3], x);
    states := Further(c, cfg, s, actions, 3, See3(x), x, Locks(MARK), See3(x).(lock := See5(x).lock));
  }

  lemma PartlyCleared(c: Codec, cfg: Config, s: seq<State>, actions: seq<Action>, x: Hash) returns (states: seq<State>)
    requires Done(c, cfg, s, actions, 4, See3(x).(lock := See5(x).lock), x) && TheRoll() in s[4].rolls
    ensures Done(c, cfg, states, actions + [Rolls(TheRoll(), CLEAR)], 5, See5(x), x) && states[..5] == s
  {
    CanClear(s[4].h, x);
    Moment5(cfg, s[4].h, x);
    states := Further(c, cfg, s, actions, 4, See3(x).(lock := See5(x).lock), x, Rolls(TheRoll(), CLEAR), See5(x));
  }

  lemma Released(c: Codec, cfg: Config, s: seq<State>, actions: seq<Action>, x: Hash) returns (states: seq<State>)
    requires Done(c, cfg, s, actions, 5, See5(x), x)
    ensures Done(c, cfg, states, actions + [Locks(RELEASE)], 6, See5(x).(lock := None), x) && states[..6] == s
  {
    Moment6(cfg, s[5].h, x);
    LockEnabled(c, s[5], RELEASE);
    states := Further(c, cfg, s, actions, 5, See5(x), x, Locks(RELEASE), See5(x).(lock := None));
  }

  lemma CommittedAgain(c: Codec, cfg: Config, s: seq<State>, actions: seq<Action>, x: Hash) returns (states: seq<State>)
    requires Done(c, cfg, s, actions, 6, See5(x).(lock := None), x) && cfg.entryMax >= 2
    ensures Done(c, cfg, states, actions + [Commits(RefCommit(6, None, 3, 3, 2, x))], 7, See7(x), x) && states[..7] == s
  {
    Moment7(c, cfg, s[6], x);
    var a := Commits(RefCommit(6, None, 3, 3, 2, x));
    states := Further(c, cfg, s, actions, 6, See5(x).(lock := None), x, a, See7(x));
  }

  lemma FirstHalf(c: Codec, cfg: Config, page: Bytes) returns (states: seq<State>)
    requires |page| <= MAX_PAGE_SIZE && c.occurs(page) && cfg.entryMax >= 2
    ensures Done(c, cfg, states, FirstActions(c, page), 3, See3(c.hash(page)), c.hash(page))
  {
    var x, first := c.hash(page), [Commits(FirstCommit(c, page, 1))];
    states := FirstStep(c, cfg, page);
    states := Acquired(c, cfg, states, first, x);
    states := Committed(c, cfg, states, first + [Locks(ACQUIRE)], x);
  }

  lemma SecondHalf(c: Codec, cfg: Config, three: seq<State>, actions: seq<Action>, x: Hash) returns (states: seq<State>)
    requires Done(c, cfg, three, actions, 3, See3(x), x) && cfg.entryMax >= 2
    ensures Done(c, cfg, states, actions + [Locks(MARK)] + [Rolls(TheRoll(), CLEAR)] + [Locks(RELEASE)]
                                 + [Commits(RefCommit(6, None, 3, 3, 2, x))], 7, See7(x), x)
    ensures states[3] == three[3]
  {
    var four := Marked(c, cfg, three, actions, x);
    var five := PartlyCleared(c, cfg, four, actions + [Locks(MARK)], x);
    var six := Released(c, cfg, five, actions + [Locks(MARK)] + [Rolls(TheRoll(), CLEAR)], x);
    states := CommittedAgain(
      c, cfg, six, actions + [Locks(MARK)] + [Rolls(TheRoll(), CLEAR)] + [Locks(RELEASE)], x);
    assert states[3] == states[..7][3] && six[3] == six[..6][3] && five[3] == five[..5][3] && four[3] == four[..4][3];
  }

  lemma TheRun(c: Codec, cfg: Config, page: Bytes) returns (states: seq<State>)
    requires |page| <= MAX_PAGE_SIZE && c.occurs(page) && cfg.entryMax >= 2
    ensures Done(c, cfg, states, Actions(c, page), 7, See7(c.hash(page)), c.hash(page))
    ensures At(states[3].h, 3, See3(c.hash(page)), c.hash(page))
  {
    var three := FirstHalf(c, cfg, page);
    states := SecondHalf(c, cfg, three, FirstActions(c, page), c.hash(page));
  }

  // ---- What it shows ----

  /** Before `h'` there was `h`. */
  lemma HeldAtCommit(c: Codec, cfg: Config, states: seq<State>, actions: seq<Action>, k: nat, n: nat, see: Visible,
      x: Hash, p: PageNo)
    requires IsRun(c, cfg, states, actions) && k <= n < |states| && 0 < k < MAX_VERSION && At(states[k].h, k, see, x)
    requires WellFormed(states[n].h)
    ensures Held(states[n].h, k, p) == ReadPage(see.pages, p, k)
  {
    RunGoesOn(c, cfg, states, actions, k, n);
    var h, h' := states[k].h, states[n].h;
    ReachedAll(h);
    ReachedStays(h'.evs, k, k);
    assert h'.evs[..k] == h.evs && h'.dbs[k] == h.dbs[k];
  }

  lemma ReachedAll(h: History)
    requires WellFormed(h)
    ensures Reached(h.evs, h.clock) == |h.evs|
  {
  }

  /** The interval from 3 to 7 lists page 2 alone. */
  lemma IntervalMissesPage(log: map<Version, seq<Octet>>, x: Hash, scanSize: nat, maxSize: nat)
    requires Stores(log, See7(x).log) && scanSize >= 2 && maxSize >= 1
    ensures Interval(log, 3, 7, true, scanSize, maxSize) == Some({2})
  {
    assert log.Keys == {1, 3, 7} by { assert See7(x).log.Keys == {1, 3, 7}; }
    assert Window(log, 3, 7) == {3, 7} && Between(log, 3, 7, true) == {7};
    assert Listing(log[7]) == {2};
    OneEntry(log, 7);
  }

  lemma OneEntry(log: map<Version, seq<Octet>>, v: Version)
    requires v in log
    ensures Union(log, {v}) == Listing(log[v])
  {
    forall p | p in Listing(log[v]) ensures p in Union(log, {v}) {
      assert v in {v} && p in Listing(log[v]);
    }
  }

  lemma PagesRead(x: Hash)
    ensures ReadPage(See3(x).pages, 1, 3) == Some(x) && ReadPage(See7(x).pages, 1, 7) == None
  {
    assert PageKey(1, 3) in See3(x).pages;
    LatestNone(See7(x).pages, 1, 7);
  }

  lemma HeldDiffers(c: Codec, cfg: Config, states: seq<State>, actions: seq<Action>, x: Hash)
    requires IsRun(c, cfg, states, actions) && |states| == 8
    requires At(states[3].h, 3, See3(x), x) && At(states[7].h, 7, See7(x), x)
    ensures Held(states[7].h, 3, 1) == Some(x) && Held(states[7].h, 7, 1) == None
  {
    PagesRead(x);
    HeldAtCommit(c, cfg, states, actions, 3, 7, See3(x), x, 1);
    HeldAtCommit(c, cfg, states, actions, 7, 7, See7(x), x, 1);
  }

  lemma StatIsWrong(h: History, shown: Hash -> Client.Page, x: Hash)
    requires Held(h, 3, 1) == Some(x) && Held(h, 7, 1) == None
    ensures !Client.StatOk(v => PagesAt(h, shown, v), Some(3), Client.Stat(7, Some({2})))
  {
    FoundPage(h, shown, 3, 1);
    FoundPage(h, shown, 7, 1);
    if Client.StatOk(v => PagesAt(h, shown, v), Some(3), Client.Stat(7, Some({2}))) {
      StatMeans(v => PagesAt(h, shown, v), 3, 7, {2}, 1);
      assert false;
    }
  }

  lemma StatMeans(snap: Client.Snapshots, from: Version, to: Version, changed: set<PageNo>, p: PageNo)
    requires Client.StatOk(snap, Some(from), Client.Stat(to, Some(changed))) && p !in changed
    ensures Client.Find(snap(to), p) == Client.Find(snap(from), p)
  {
  }

  /** For any page there is a run after which page 1, which the store held at version 3, is gone at version 7, while
      the interval from 3 to 7 does not list it: what a client takes for granted about that reply is false. */
  lemma CutOffRollbackMisleads(
      cfg: Config, page: Bytes, scanSize: nat, maxSize: nat, shown: Hash -> Client.Page)
    returns (c: Codec, states: seq<State>)
    requires |page| <= MAX_PAGE_SIZE && cfg.entryMax >= 2 && scanSize >= 2 && maxSize >= 1
    ensures ValidCodec(c) && |states| == 8 && IsRun(c, cfg, states, Actions(c, page)) && WellFormed(states[7].h)
    ensures Held(states[7].h, 3, 1) == Some(c.hash(page)) && Held(states[7].h, 7, 1) == None
    ensures forall log | Stores(log, Now(states[7].h).changelog) ::
      Interval(log, 3, 7, true, scanSize, maxSize) == Some({2})
    ensures !Client.StatOk(v => PagesAt(states[7].h, shown, v), Some(3), Client.Stat(7, Some({2})))
  {
    c := CodecFor([page]);
    states := TheRun(c, cfg, page);
    HeldDiffers(c, cfg, states, Actions(c, page), c.hash(page));
    StatIsWrong(states[7].h, shown, c.hash(page));
    forall log | Stores(log, Now(states[7].h).changelog)
      ensures Interval(log, 3, 7, true, scanSize, maxSize) == Some({2})
    {
      IntervalMissesPage(log, c.hash(page), scanSize, maxSize);
    }
  }
}
