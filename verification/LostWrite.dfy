/** A session in which an identity write is lost, on a connection with its cache. (mvfs/src/vfs.rs) */
module LostWrite {
  import opened Common
  import opened Octets
  import opened Client
  import opened IdealClient
  import opened Connection
  import opened Sessions
  import opened SessionTheorems

  /** What is sent in the end. */
  function Last(other: Page): Intent {
    Intent(1, map[8 := other], Some({}))
  }

  /** Version 1 has `page` as page 7. By the time the session's commit becomes version 3, somebody else has made it
      `other`. */
  function Server(page: Page, other: Page, firstPage: Page): World {
    World(
      (u: Version) => if u == 3 then map[7 := other, 8 := other] else map[7 := page], firstPage, |firstPage|,
      (k: nat, from: Option<Version>) => Some(Stat(1, None)),
      (k: nat, y: Intent) => if y == Last(other) then Committed(3, None) else Conflict)
  }

  /** SQLite reads page 7, and in its next transaction writes it back as it is, writes page 8, and commits. */
  function TheCalls(page: Page, other: Page): seq<Call> {
    [Take(Shared), ReadAt(7, {}), Release(NoLock), Take(Exclusive), WriteAt(7, page), WriteAt(8, other), Confirm,
     Release(NoLock)]
  }

  // ---- What the ideal client does ----

  const BETWEEN := IDLE.(counter := 2, known := Some(1))

  function Reading(read: set<PageNo>): Ideal {
    BETWEEN.(lock := Shared, work := Some(Start(1, true).(recorded := Some(read), shown := read)))
  }

  function Writing(writes: map<PageNo, Page>, confirmed: bool): Ideal {
    IDLE.(lock := Exclusive, counter := 4, known := Some(1), confirmed := confirmed,
          work := Some(Start(1, true).(writes := writes)))
  }

  function TheStates(other: Page): seq<Ideal> {
    [IDLE, Reading({}), Reading({7}), BETWEEN, Writing(map[], false), Writing(map[], false),
     Writing(map[8 := other], false), Writing(map[8 := other], true), IDLE.(counter := 4, known := Some(3))]
  }

  /** The write of page 7 is skipped, so it is not sent. */
  function TheAnswers(page: Page, other: Page): seq<Answer> {
    [Told(true), Shown(Data(page)), Ended(true, None), Told(true), Wrote(true), Wrote(false), Done,
     Ended(true, Some(Last(other)))]
  }

  lemma ServerPromises(page: Page, other: Page, firstPage: Page)
    requires |firstPage| >= 96
    ensures Promises(Server(page, other, firstPage))
  {
  }

  lemma Counts()
    ensures Power(4) > 4
  {
    assert Power(1) == 256 * Power(0) && Power(2) == 256 * Power(1);
    assert Power(3) == 256 * Power(2) && Power(4) == 256 * Power(3);
  }

  lemma FirstDoes(page: Page, other: Page, firstPage: Page)
    requires |page| == |other| == |firstPage| >= 96
    ensures var w := Server(page, other, firstPage);
      && Does(w, 0, IDLE, Take(Shared), Told(true), Reading({}))
      && Does(w, 1, Reading({}), ReadAt(7, {}), Shown(Data(page)), Reading({7}))
      && Does(w, 2, Reading({7}), Release(NoLock), Ended(true, None), BETWEEN)
      && Does(w, 3, BETWEEN, Take(Exclusive), Told(true), Writing(map[], false))
  {
    Counts();
    assert {} + {7} == {7};
  }

  lemma WritesDo(page: Page, other: Page, firstPage: Page)
    requires |page| == |other| == |firstPage| >= 96
    ensures var w := Server(page, other, firstPage);
      && Does(w, 4, Writing(map[], false), WriteAt(7, page), Wrote(true), Writing(map[], false))
      && Does(w, 5, Writing(map[], false), WriteAt(8, other), Wrote(false), Writing(map[8 := other], false))
      && Does(w, 6, Writing(map[8 := other], false), Confirm, Done, Writing(map[8 := other], true))
  {
    var none: map<PageNo, Page> := map[];
    assert none[8 := other] == map[8 := other];
  }

  lemma LastDoes(page: Page, other: Page, firstPage: Page)
    requires |page| == |other| == |firstPage| >= 96
    ensures Does(Server(page, other, firstPage), 7, Writing(map[8 := other], true), Release(NoLock),
                 Ended(true, Some(Last(other))), IDLE.(counter := 4, known := Some(3)))
  {
    var i := Writing(map[8 := other], true);
    assert 8 in i.work.value.writes;
    assert SentBy(i, NoLock) == Some(Last(other));
  }

  lemma TraceIs(page: Page, other: Page, firstPage: Page)
    requires |page| == |other| == |firstPage| >= 96
    ensures IsTrace(Server(page, other, firstPage), TheStates(other), TheCalls(page, other), TheAnswers(page, other))
  {
    FirstDoes(page, other, firstPage);
    WritesDo(page, other, firstPage);
    LastDoes(page, other, firstPage);
  }

  /** A call has one outcome, but for whether a write is skipped. */
  lemma OneOutcome(w: World, k: nat, i: Ideal, call: Call, a: Answer, i1: Ideal, b: Answer, i2: Ideal)
    requires |w.firstPage| == w.sectorSize >= 96 && Does(w, k, i, call, a, i1) && Does(w, k, i, call, b, i2)
    requires call.WriteAt? ==> a.Wrote? && b.Wrote? && a.skipped == b.skipped
    ensures a == b && i1 == i2
  {
  }

  // ---- What a connection does ----

  predicate SkipsNow(c: Connection, call: Call)
    reads c
  {
    call.WriteAt? && |call.data| >= 96 && call.p in c.pageCache && c.pageCache[call.p] == Normal(call.p, call.data)
  }

  /** Performs a call whose outcome is known. */
  method Follow(
      w: World, c: Connection, ids: seq<Ideal>, calls: seq<Call>, answers: seq<Answer>, k: nat, chunk: nat)
    returns (answer: Answer)
    requires Promises(w) && Serves(w, c) && c.Valid() && chunk > 0 && IsTrace(w, ids, calls, answers) && k < |calls|
    requires c.Abstract() == ids[k] && Ready(w, c, k, calls[k])
    requires calls[k].WriteAt? ==> (answers[k].Wrote? && (answers[k].skipped <==> SkipsNow(c, calls[k])))
    modifies c
    ensures c.Valid() && answer == answers[k] && c.Abstract() == ids[k + 1] && CacheKept(c, calls[k], answer)
  {
    answer := Perform(w, c, k, calls[k], chunk);
    assert Does(w, k, ids[k], calls[k], answers[k], ids[k + 1]);
    OneOutcome(w, k, ids[k], calls[k], answer, c.Abstract(), answers[k], ids[k + 1]);
  }

  /** In between two transactions page 7 is in the cache. */
  ghost predicate Cached(c: Connection, page: Page)
    reads c
  {
    7 in c.pageCache && c.pageCache[7] == page
  }

  method ReadPage(w: World, c: Connection, page: Page, other: Page, chunk: nat) returns (answer: Answer)
    requires |page| == |other| == |w.firstPage| >= 96 && chunk > 0 && Promises(w) && Serves(w, c) && c.Valid()
    requires IsTrace(w, TheStates(other), TheCalls(page, other), TheAnswers(page, other))
    requires c.Abstract() == Reading({}) && w.snap(1) == map[7 := page]
    modifies c
    ensures c.Valid() && answer == Shown(Data(page)) && c.Abstract() == Reading({7}) && Cached(c, page)
  {
    answer := Follow(w, c, TheStates(other), TheCalls(page, other), TheAnswers(page, other), 1, chunk);
    assert c.Clean() && c.Sees(7) == Some(page);
  }

  method ReadOnce(w: World, c: Connection, page: Page, other: Page, chunk: nat) returns (answers: seq<Answer>)
    requires |page| == |other| == |w.firstPage| >= 96 && chunk > 0 && Promises(w) && Serves(w, c) && c.Valid()
    requires IsTrace(w, TheStates(other), TheCalls(page, other), TheAnswers(page, other))
    requires c.Abstract() == IDLE && w.snap(1) == map[7 := page]
    modifies c
    ensures c.Valid() && answers == TheAnswers(page, other)[..3] && c.Abstract() == BETWEEN && Cached(c, page)
  {
    var ids, calls, all := TheStates(other), TheCalls(page, other), TheAnswers(page, other);
    Nothing(c);
    var a := Follow(w, c, ids, calls, all, 0, chunk);
    var b := ReadPage(w, c, page, other, chunk);
    var d := Follow(w, c, ids, calls, all, 2, chunk);
    answers := [a, b, d];
  }

  lemma Nothing(c: Connection)
    requires c.Valid() && c.Abstract().lock == NoLock
    ensures c.Writes() == map[]
  {
  }

  method WriteBack(w: World, c: Connection, page: Page, other: Page, chunk: nat) returns (answers: seq<Answer>)
    requires |page| == |other| == |w.firstPage| >= 96 && chunk > 0 && Promises(w) && Serves(w, c) && c.Valid()
    requires IsTrace(w, TheStates(other), TheCalls(page, other), TheAnswers(page, other))
    requires c.Abstract() == BETWEEN && w.snap(1) == map[7 := page] && Cached(c, page)
    modifies c
    ensures c.Valid() && answers == TheAnswers(page, other)[3..6] && c.Abstract() == Writing(map[8 := other], false)
  {
    var ids, calls, all := TheStates(other), TheCalls(page, other), TheAnswers(page, other);
    var a := Follow(w, c, ids, calls, all, 3, chunk);
    var b := Follow(w, c, ids, calls, all, 4, chunk);
    NotCached(w, c, page);
    var d := Follow(w, c, ids, calls, all, 5, chunk);
    answers := [a, b, d];
  }

  /** Page 8 does not exist yet, so it is not in the cache. */
  lemma NotCached(w: World, c: Connection, page: Page)
    requires Serves(w, c) && c.Valid() && c.Abstract() == Writing(map[], false) && w.snap(1) == map[7 := page]
    ensures 8 !in c.pageCache
  {
    BothEmpty(c.Current().pageBuffer, c.writeBuffer);
  }

  method CommitAll(w: World, c: Connection, page: Page, other: Page, chunk: nat) returns (answers: seq<Answer>)
    requires |page| == |other| == |w.firstPage| >= 96 && chunk > 0 && Promises(w) && Serves(w, c) && c.Valid()
    requires IsTrace(w, TheStates(other), TheCalls(page, other), TheAnswers(page, other))
    requires c.Abstract() == Writing(map[8 := other], false)
    modifies c
    ensures c.Valid() && answers == TheAnswers(page, other)[6..]
  {
    var ids, calls, all := TheStates(other), TheCalls(page, other), TheAnswers(page, other);
    var a := Follow(w, c, ids, calls, all, 6, chunk);
    var b := Follow(w, c, ids, calls, all, 7, chunk);
    answers := [a, b];
  }

  /** A new connection answers those calls in just this way: the commit goes through, and in the committed version
      page 7 is not what the session wrote last. */
  method IdentityWriteIsLost(page: Page, other: Page, firstPage: Page, chunk: nat)
    returns (c: Connection, w: World, answers: seq<Answer>)
    requires |page| == |other| == |firstPage| >= 96 && page != other && chunk > 0
    ensures fresh(c) && c.Valid() && Promises(w) && Serves(w, c) && answers == TheAnswers(page, other)
    ensures Served(w, TheStates(other), TheCalls(page, other), answers) && answers[4] == Wrote(true)
    ensures answers[7] == Ended(true, Some(Last(other))) && w.commits(7, Last(other)) == Committed(3, None)
    ensures LastWritten(TheCalls(page, other), 4, 7, 7) == Some(page)
    ensures SnapshotPage(w.snap, w.firstPage, 3, 7) == Some(other)
  {
    w := Server(page, other, firstPage);
    ServerPromises(page, other, firstPage);
    TraceIs(page, other, firstPage);
    c := new Connection(w.snap, firstPage, |firstPage|);
    var a := ReadOnce(w, c, page, other, chunk);
    var b := WriteBack(w, c, page, other, chunk);
    var d := CommitAll(w, c, page, other, chunk);
    answers := a + b + d;
    assert TheAnswers(page, other) == TheAnswers(page, other)[..3] + TheAnswers(page, other)[3..6]
                                      + TheAnswers(page, other)[6..];
    LastIsSkipped(page, other);
  }

  lemma LastIsSkipped(page: Page, other: Page)
    requires |page| >= 96
    ensures LastWritten(TheCalls(page, other), 4, 7, 7) == Some(page)
  {
    var calls := TheCalls(page, other);
    assert LastWritten(calls, 4, 5, 7) == Some(page);
    assert LastWritten(calls, 4, 6, 7) == Some(page);
  }
}
