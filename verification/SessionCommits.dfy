/** When a session's transaction is sent, with which read set, and on which version it runs, told by the calls and
    their answers alone. (mvfs/src/vfs.rs) */
module SessionCommits {
  import opened Common
  import opened Octets
  import opened Client
  import opened IdealClient
  import opened SessionTheorems

  // ---- What the calls so far say ----

  predicate Answered(calls: seq<Call>, answers: seq<Answer>, k: nat) {
    k <= |calls| && |calls| == |answers|
  }

  /** The lock: that of the last successful locking, or of the last unlocking. */
  function LockBy(calls: seq<Call>, answers: seq<Answer>, k: nat): LockKind
    requires Answered(calls, answers, k)
  {
    if k == 0 then NoLock
    else
      var call, before := calls[k - 1], LockBy(calls, answers, k - 1);
      if call.Release? then call.kind
      else if call.Take? && answers[k - 1] == Told(true) then call.kind
      else before
  }

  /** The version that the last pinning left that was not refused. */
  function PinnedBy(calls: seq<Call>, answers: seq<Answer>, k: nat): Option<Version>
    requires Answered(calls, answers, k)
  {
    if k == 0 then None
    else if calls[k - 1].PinTo? && answers[k - 1] == Told(true) then calls[k - 1].version
    else PinnedBy(calls, answers, k - 1)
  }

  /** Call `k` gives up a reserved, pending or exclusive lock for none or a shared one. */
  predicate GivesUp(calls: seq<Call>, answers: seq<Answer>, k: nat)
    requires Answered(calls, answers, k) && k < |calls|
  {
    && calls[k].Release? && (calls[k].kind.NoLock? || calls[k].kind.Shared?)
    && !LockBy(calls, answers, k).NoLock? && !LockBy(calls, answers, k).Shared?
  }

  /** SQLite has confirmed since a write lock was last given up. */
  predicate ConfirmedBy(calls: seq<Call>, answers: seq<Answer>, k: nat)
    requires Answered(calls, answers, k)
  {
    && k > 0
    && (calls[k - 1].Confirm? || (!GivesUp(calls, answers, k - 1) && ConfirmedBy(calls, answers, k - 1)))
  }

  /** Some write among the calls `from..to` was not skipped. */
  predicate ChangedBy(calls: seq<Call>, answers: seq<Answer>, from: nat, to: nat)
    requires Answered(calls, answers, to)
  {
    exists m | from <= m < to :: calls[m].WriteAt? && answers[m] == Wrote(false)
  }

  /** The pages read by the calls `from..to`. */
  function ReadBy(calls: seq<Call>, from: nat, to: nat): set<PageNo>
    requires to <= |calls|
  {
    set m | from <= m < to && calls[m].ReadAt? :: calls[m].p
  }

  // ---- The client's state is what the calls say ----

  predicate Says(i: Ideal, calls: seq<Call>, answers: seq<Answer>, k: nat)
    requires Answered(calls, answers, k)
  {
    && i.lock == LockBy(calls, answers, k) && i.pinned == PinnedBy(calls, answers, k)
    && i.confirmed == ConfirmedBy(calls, answers, k)
  }

  lemma StepTold(w: World, calls: seq<Call>, answers: seq<Answer>, k: nat, i: Ideal, i': Ideal)
    requires |w.firstPage| == w.sectorSize >= 96 && Answered(calls, answers, k) && k < |calls|
    requires Does(w, k, i, calls[k], answers[k], i') && Says(i, calls, answers, k)
    ensures Says(i', calls, answers, k + 1)
  {
  }

  lemma {:induction false} SaysAlways(w: World, ids: seq<Ideal>, calls: seq<Call>, answers: seq<Answer>, k: nat)
    requires |w.firstPage| == w.sectorSize >= 96 && Answered(calls, answers, k) && |ids| == |calls| + 1
    requires ids[0] == IDLE && forall m: nat | m < k :: Does(w, m, ids[m], calls[m], answers[m], ids[m + 1])
    ensures Says(ids[k], calls, answers, k)
  {
    if k > 0 {
      var m: nat := k - 1;
      SaysAlways(w, ids, calls, answers, m);
      StepTold(w, calls, answers, m, ids[m], ids[m + 1]);
    }
  }

  lemma ToldByCalls(w: World, ids: seq<Ideal>, calls: seq<Call>, answers: seq<Answer>, k: nat)
    requires Served(w, ids, calls, answers) && ids[0] == IDLE && k < |ids|
    ensures Says(ids[k], calls, answers, k)
  {
    SaysAlways(w, ids, calls, answers, k);
  }

  /** A transaction has something to send exactly if a write was not skipped. */
  lemma {:induction false} ChangedSince(
      w: World, ids: seq<Ideal>, calls: seq<Call>, answers: seq<Answer>, j: nat, k: nat)
    requires Served(w, ids, calls, answers) && Within(ids, calls, j, k)
    ensures ids[k].work.value.writes != map[] <==> ChangedBy(calls, answers, j + 1, k)
  {
    if k == j + 1 {
      Fresh(w, ids, calls, answers, j);
    } else {
      var m := k - 1;
      assert Within(ids, calls, j, m) && !StartsAt(ids, calls, m);
      ChangedSince(w, ids, calls, answers, j, m);
      assert Does(w, m, ids[m], calls[m], answers[m], ids[k]);
      ChangeStep(w, m, ids[m], calls[m], answers[m], ids[k]);
      ChangedStep(calls, answers, j + 1, m);
    }
  }

  lemma ChangedStep(calls: seq<Call>, answers: seq<Answer>, from: nat, m: nat)
    requires Answered(calls, answers, m) && from <= m < |calls|
    ensures ChangedBy(calls, answers, from, m + 1) <==>
      ChangedBy(calls, answers, from, m) || (calls[m].WriteAt? && answers[m] == Wrote(false))
  {
  }

  lemma ChangeStep(w: World, k: nat, i: Ideal, call: Call, answer: Answer, i': Ideal)
    requires |w.firstPage| == w.sectorSize >= 96 && Does(w, k, i, call, answer, i') && i.work.Some? && i'.work.Some?
    requires call.Release? ==> !Leaves(i, call.kind)
    ensures i'.work.value.writes != map[] <==> i.work.value.writes != map[] || (call.WriteAt? && answer == Wrote(false))
  {
    if call.WriteAt? && answer == Wrote(false) {
      assert call.p in i'.work.value.writes;
    }
  }

  /** Reads are recorded exactly in transactions that locking started. */
  lemma {:induction false} RecordedSince(
      w: World, ids: seq<Ideal>, calls: seq<Call>, answers: seq<Answer>, j: nat, k: nat)
    requires Served(w, ids, calls, answers) && Within(ids, calls, j, k)
    ensures ids[k].work.value.recorded == if calls[j].Take? then Some(ReadBy(calls, j + 1, k)) else None
  {
    if k == j + 1 {
      assert Does(w, j, ids[j], calls[j], answers[j], ids[k]);
      StartRecords(w, j, ids[j], calls[j], answers[j], ids[k]);
      assert ReadBy(calls, j + 1, k) == {};
    } else {
      var m := k - 1;
      assert Within(ids, calls, j, m) && !StartsAt(ids, calls, m);
      RecordedSince(w, ids, calls, answers, j, m);
      assert Does(w, m, ids[m], calls[m], answers[m], ids[k]);
      RecordStep(w, m, ids[m], calls[m], answers[m], ids[k]);
      ReadStep(calls, j + 1, m);
    }
  }

  lemma StartRecords(w: World, k: nat, i: Ideal, call: Call, answer: Answer, i': Ideal)
    requires |w.firstPage| == w.sectorSize >= 96 && Does(w, k, i, call, answer, i') && i'.work.Some?
    requires (call.Take? && i.work.None?) || (call.Release? && Leaves(i, call.kind))
    ensures i'.work.value.recorded == if call.Take? then Some({}) else None
  {
  }

  lemma RecordStep(w: World, k: nat, i: Ideal, call: Call, answer: Answer, i': Ideal)
    requires |w.firstPage| == w.sectorSize >= 96 && Does(w, k, i, call, answer, i') && i.work.Some? && i'.work.Some?
    requires call.Release? ==> !Leaves(i, call.kind)
    ensures var was := i.work.value.recorded;
      i'.work.value.recorded ==
        if was.None? then None else Some(was.value + if call.ReadAt? then {call.p} else {})
  {
    if i.work.value.recorded.Some? {
      assert i.work.value.recorded.value + {} == i.work.value.recorded.value;
    }
  }

  lemma ReadStep(calls: seq<Call>, from: nat, m: nat)
    requires from <= m < |calls|
    ensures ReadBy(calls, from, m + 1) == ReadBy(calls, from, m) + if calls[m].ReadAt? then {calls[m].p} else {}
  {
  }

  // ---- What is sent ----

  /** In every session, giving up a write lock sends the transaction if and only if SQLite has confirmed since one was
      last given up, the connection is not pinned, and the transaction has a write that was not skipped. It sends
      the pages it has read if locking started it and they are at most 2000, and else none. No other call sends
      anything. The answer is good unless the server says conflict. */
  lemma SentExactly(w: World, ids: seq<Ideal>, calls: seq<Call>, answers: seq<Answer>, k: nat) returns (j: nat)
    requires Served(w, ids, calls, answers) && ids[0] == IDLE && k < |calls| && calls[k].Release?
    ensures answers[k].Ended?
    ensures answers[k].ok <==> (answers[k].sent.Some? ==> w.commits(k, answers[k].sent.value).Committed?)
    ensures !GivesUp(calls, answers, k) ==> answers[k].sent.None?
    ensures GivesUp(calls, answers, k) ==>
      && Within(ids, calls, j, k)
      && (answers[k].sent.Some? <==>
            ConfirmedBy(calls, answers, k) && PinnedBy(calls, answers, k).None? && ChangedBy(calls, answers, j + 1, k))
      && (answers[k].sent.Some? ==>
            var pages := ReadBy(calls, j + 1, k);
            answers[k].sent.value.readSet == if calls[j].Take? && |pages| <= 2000 then Some(pages) else None)
  {
    assert Does(w, k, ids[k], calls[k], answers[k], ids[k + 1]);
    ToldByCalls(w, ids, calls, answers, k);
    StaysSane(w, ids, calls, answers, k);
    j := 0;
    if GivesUp(calls, answers, k) {
      j := WasStarted(w, ids, calls, answers, k);
      ChangedSince(w, ids, calls, answers, j, k);
      RecordedSince(w, ids, calls, answers, j, k);
    }
  }

  // ---- On which version ----

  /** A transaction that locking starts is on the pinned version, or else on the one in the server's stat reply; one
      that goes on after unlocking is on the version just committed, or on the same as before if nothing was sent. */
  lemma StartedOn(w: World, ids: seq<Ideal>, calls: seq<Call>, answers: seq<Answer>, j: nat)
    requires Served(w, ids, calls, answers) && ids[0] == IDLE && j < |calls| && StartsAt(ids, calls, j)
    ensures var v := ids[j + 1].work.value.version;
      && ids[j + 1].known == Some(v)
      && (calls[j].Take? ==>
            if PinnedBy(calls, answers, j).Some? then PinnedBy(calls, answers, j) == Some(v)
            else w.stats(j, ids[j].known).Some? && w.stats(j, ids[j].known).value.version == v)
      && (calls[j].Release? ==>
            && answers[j].Ended?
            && if answers[j].sent.Some? then
                 var reply := w.commits(j, answers[j].sent.value); reply.Committed? && reply.version == v
               else ids[j].work.Some? && ids[j].work.value.version == v)
  {
    ToldByCalls(w, ids, calls, answers, j);
    StaysSane(w, ids, calls, answers, j);
    StaysSane(w, ids, calls, answers, j + 1);
    assert Does(w, j, ids[j], calls[j], answers[j], ids[j + 1]);
  }

  /** Taking a lock that was not held yet, if it succeeds, leaves a transaction. */
  lemma LockingStarts(w: World, ids: seq<Ideal>, calls: seq<Call>, answers: seq<Answer>, k: nat)
    requires Served(w, ids, calls, answers) && ids[0] == IDLE && k < |calls| && calls[k].Take?
    requires answers[k] == Told(true) && LockBy(calls, answers, k) != calls[k].kind
    ensures ids[k + 1].work.Some?
  {
    ToldByCalls(w, ids, calls, answers, k);
    assert Does(w, k, ids[k], calls[k], answers[k], ids[k + 1]);
  }

  /** The version that the client names to the server is that of its last transaction, or the last one it committed. */
  lemma KnownChanges(w: World, ids: seq<Ideal>, calls: seq<Call>, answers: seq<Answer>, k: nat)
    requires Served(w, ids, calls, answers) && Sane(ids[0]) && k < |calls|
    ensures StartsAt(ids, calls, k) ==> ids[k + 1].known == Some(ids[k + 1].work.value.version)
    ensures calls[k].Release? && answers[k].Ended? && answers[k].sent.Some? ==>
      var reply := w.commits(k, answers[k].sent.value);
      ids[k + 1].known == if reply.Committed? then Some(reply.version) else ids[k].known
    ensures !StartsAt(ids, calls, k) && !(calls[k].Release? && answers[k].Ended? && answers[k].sent.Some?) ==>
      ids[k + 1].known == ids[k].known
  {
    StaysSane(w, ids, calls, answers, k + 1);
    assert Does(w, k, ids[k], calls[k], answers[k], ids[k + 1]);
  }

  // ---- The other answers ----

  /** Pinning is refused exactly during a transaction; locking fails exactly if there is no transaction, no pinned
      version and no stat reply to start one on, unless the lock is held already. */
  lemma AnswersAre(w: World, ids: seq<Ideal>, calls: seq<Call>, answers: seq<Answer>, k: nat)
    requires Served(w, ids, calls, answers) && ids[0] == IDLE && k < |calls|
    ensures calls[k].PinTo? ==> answers[k] == Told(ids[k].work.None?)
    ensures calls[k].Take? ==>
      answers[k] == Told(|| LockBy(calls, answers, k) == calls[k].kind || ids[k].work.Some?
                         || PinnedBy(calls, answers, k).Some? || w.stats(k, ids[k].known).Some?)
  {
    ToldByCalls(w, ids, calls, answers, k);
    assert Does(w, k, ids[k], calls[k], answers[k], ids[k + 1]);
  }

  /** There is a transaction while a write lock is held, and none without any lock. */
  lemma LocksHaveTransactions(w: World, ids: seq<Ideal>, calls: seq<Call>, answers: seq<Answer>, k: nat)
    requires Served(w, ids, calls, answers) && ids[0] == IDLE && k < |ids|
    ensures LockBy(calls, answers, k).NoLock? ==> ids[k].work.None?
    ensures !LockBy(calls, answers, k).NoLock? && !LockBy(calls, answers, k).Shared? ==> ids[k].work.Some?
  {
    ToldByCalls(w, ids, calls, answers, k);
    StaysSane(w, ids, calls, answers, k);
  }

  /** How many of the first `k` calls started a transaction by locking. */
  function Started(ids: seq<Ideal>, calls: seq<Call>, k: nat): nat
    requires |ids| == |calls| + 1 && k <= |calls|
  {
    if k == 0 then 0
    else Started(ids, calls, k - 1) + if calls[k - 1].Take? && StartsAt(ids, calls, k - 1) then 1 else 0
  }

  /** The counter goes up by two with each of them, in 32 bits. */
  lemma {:induction false} CounterIs(w: World, ids: seq<Ideal>, calls: seq<Call>, answers: seq<Answer>, k: nat)
    requires Served(w, ids, calls, answers) && ids[0] == IDLE && k <= |calls|
    ensures ids[k].counter == 2 * Started(ids, calls, k) % 0x1_0000_0000
  {
    if k > 0 {
      var m: nat := k - 1;
      CounterIs(w, ids, calls, answers, m);
      assert Does(w, m, ids[m], calls[m], answers[m], ids[m + 1]);
      CounterStep(w, m, ids[m], calls[m], answers[m], ids[m + 1]);
      TwoMore(Started(ids, calls, m));
      assert calls[m].Take? ==> (StartsAt(ids, calls, m) <==> ids[m].work.None? && ids[m + 1].work.Some?);
    }
  }

  lemma TwoMore(s: nat)
    ensures (2 * s % 0x1_0000_0000 + 2) % 0x1_0000_0000 == 2 * (s + 1) % 0x1_0000_0000
  {
  }

  lemma CounterStep(w: World, k: nat, i: Ideal, call: Call, answer: Answer, i': Ideal)
    requires |w.firstPage| == w.sectorSize >= 96 && Does(w, k, i, call, answer, i')
    ensures i'.counter ==
      if call.Take? && i.work.None? && i'.work.Some? then (i.counter + 2) % 0x1_0000_0000 else i.counter
  {
    assert Power(1) == 256 * Power(0) && Power(2) == 256 * Power(1);
    assert Power(3) == 256 * Power(2) && Power(4) == 256 * Power(3);
  }
}
