/** One connection of the file system layer, with its cache kept coherent by every operation.
    (mvfs/src/vfs.rs, mvclient/src/lib.rs) */
module Connection {
  import opened Common
  import opened Octets
  import opened Client
  import opened IdealClient

  const FLUSH_LIMIT := 1000

  class Connection {
    const snap: Snapshots
    const firstPage: Page
    const sectorSize: nat
    var fixedVersion: Option<Version>
    var txn: Option<Txn>
    var lock: LockKind
    var commitConfirmed: bool
    var counter: nat
    var pageCache: map<PageNo, Page>
    var writeBuffer: map<PageNo, Page>
    var lastKnown: Option<Version>
    /** The pages whose contents this transaction has been shown. */
    ghost var observed: set<PageNo>

    /** The transaction, or between transactions a fresh one at the last known version. */
    function Current(): Txn
      reads this
    {
      if txn.Some? then txn.value else AtVersion(if lastKnown.Some? then lastKnown.value else 0)
    }

    function Sees(p: PageNo): Option<Page>
      reads this
    {
      View(snap, firstPage, Current(), writeBuffer, p)
    }

    /** All pages the transaction has written, flushed or not. */
    function Writes(): map<PageNo, Page>
      reads this
    {
      Current().pageBuffer + writeBuffer
    }

    /** The client that this connection stands for. */
    ghost function Abstract(): Ideal
      reads this
    {
      Ideal(lock, fixedVersion, commitConfirmed, counter, lastKnown,
            if txn.None? then None else Some(Work(txn.value.version, Writes(), txn.value.readSet, observed)))
    }

    /** Every cached page is what the transaction should see, and the read set misses nothing it was shown. */
    ghost predicate Coherent()
      reads this
    {
      && |firstPage| == sectorSize && sectorSize >= 96 && counter < Power(4)
      && (if lastKnown.Some? then Shows(snap, firstPage, Current(), writeBuffer, pageCache) else pageCache == map[])
      && (txn.Some? ==> lastKnown == Some(txn.value.version))
      && (txn.Some? && txn.value.readSet.Some? ==> observed <= txn.value.readSet.value)
    }

    /** Buffered writes belong to a transaction that holds a write lock. */
    ghost predicate Valid()
      reads this
    {
      && Coherent()
      && (Level(lock) >= RESERVED_LEVEL ==> txn.Some?)
      && (lock == NoLock ==> txn.None?)
      && (Level(lock) < RESERVED_LEVEL ==> Clean())
    }

    ghost predicate Clean()
      reads this
    {
      writeBuffer == map[] && Current().pageBuffer == map[]
    }

    constructor (snap: Snapshots, firstPage: Page, sectorSize: nat)
      requires |firstPage| == sectorSize >= 96
      ensures Valid() && Abstract() == IDLE
      ensures this.snap == snap && this.firstPage == firstPage && this.sectorSize == sectorSize
    {
      this.snap, this.firstPage, this.sectorSize := snap, firstPage, sectorSize;
      fixedVersion, txn, lock, commitConfirmed, counter := None, None, NoLock, false, 0;
      pageCache, writeBuffer, lastKnown, observed := map[], map[], None, {};
    }

    /** The cache may drop any page at any time. */
    method Evict(keep: set<PageNo>)
      requires Valid()
      modifies this`pageCache
      ensures Valid() && Abstract() == old(Abstract()) && forall p :: Sees(p) == old(Sees(p))
    {
      pageCache := map p | p in pageCache && p in keep :: pageCache[p];
    }

    /** A read of `p` goes to the server and is cached. */
    predicate Fetches(p: PageNo)
      reads this
    {
      txn.Some? && p !in pageCache && p !in writeBuffer && Show(Sees(p), sectorSize).Data?
    }

    /** A page that a transaction sees is in the cache or the write buffer. */
    predicate Keeps(p: PageNo)
      reads this
    {
      txn.Some? && p !in writeBuffer && Show(Sees(p), sectorSize).Data? ==> p in pageCache
    }

    /** Reads page `p`, fetching `ahead` along with it on a cache miss. The result is right in any case;
        the cache stays right exactly if nothing stale was fetched ahead. */
    method ReadRaw(p: PageNo, ahead: set<PageNo>) returns (r: ReadResult)
      requires Valid() && txn.Some?
      modifies this`pageCache, this`txn, this`observed
      ensures Valid() <==> old(Fetches(p)) ==> forall q :: !Stale(snap, old(txn).value, writeBuffer, ahead, q)
      ensures txn.Some? && Abstract() == WithRead(old(Abstract()), p)
      ensures Keeps(p)
      ensures forall q :: Sees(q) == old(Sees(q))
      ensures r == Show(Sees(p), sectorSize)
    {
      MarkRead(p);
      if p in pageCache {
        return Show(Some(pageCache[p]), sectorSize);
      }
      if p in writeBuffer {
        return Show(Some(writeBuffer[p]), sectorSize);
      }
      var page := ServerPage(snap, txn.value, p);
      if page.None? {
        if p != 0 { return NoPage; }
        page := Some(firstPage);
      } else if |page.value| != sectorSize {
        return BadSize;
      }
      MissFills(snap, firstPage, txn.value, writeBuffer, pageCache, p, page.value, ahead);
      pageCache := pageCache[p := page.value] + Fetched(snap, txn.value, ahead);
      return Data(page.value);
    }

    method MarkRead(p: PageNo)
      requires Valid() && txn.Some?
      modifies this`txn, this`observed
      ensures Valid() && txn.Some? && txn == Some(old(txn).value.(readSet := txn.value.readSet))
      ensures Abstract() == WithRead(old(Abstract()), p) && forall q :: Sees(q) == old(Sees(q))
      ensures forall ahead, q ::
        Stale(snap, txn.value, writeBuffer, ahead, q) == Stale(snap, old(txn).value, writeBuffer, ahead, q)
    {
      var t := txn.value;
      var readSet := if t.readSet.Some? then Some(t.readSet.value + {p}) else None;
      ReadSetUnseen(snap, firstPage, t, writeBuffer, pageCache, {}, readSet);
      txn := Some(t.(readSet := readSet));
      observed := observed + {p};
    }

    /** A read by SQLite. Without a transaction it can only be of the first page. */
    method Read(p: PageNo, ahead: set<PageNo>) returns (r: ReadResult)
      requires Valid() && (txn.None? ==> p == 0)
      modifies this`pageCache, this`txn, this`observed
      ensures Valid() <==> old(Fetches(p)) ==> forall q :: !Stale(snap, old(txn).value, writeBuffer, ahead, q)
      ensures forall q :: Sees(q) == old(Sees(q))
      ensures r == ReadAnswer(snap, firstPage, sectorSize, old(Abstract()), p)
      ensures Abstract() == WithRead(old(Abstract()), p) && Keeps(p)
    {
      if txn.None? { return Data(firstPage); }
      r := ReadRaw(p, ahead);
      if p == 0 && r.Data? { r := Data(WithCounter(r.page, counter)); }
    }

    /** Hands the write buffer to the server, `chunk` pages at a time in no particular order. */
    method ForceFlush(chunk: nat)
      requires Coherent() && txn.Some? && chunk > 0
      modifies this`txn, this`writeBuffer
      ensures Coherent() && writeBuffer == map[]
      ensures txn == Some(old(txn).value.(pageBuffer := old(txn).value.pageBuffer + old(writeBuffer)))
      ensures Abstract() == old(Abstract()) && forall q :: Sees(q) == old(Sees(q))
    {
      var t := WriteAll(txn.value, writeBuffer, chunk);
      PlusNothing(t.pageBuffer);
      FlushShows(snap, firstPage, txn.value, writeBuffer, pageCache);
      txn, writeBuffer := Some(t), map[];
    }

    /** A write by SQLite. Writing what the cache already shows is skipped. */
    method Write(p: PageNo, data: Page, chunk: nat) returns (ok: bool, skipped: bool)
      requires Coherent() && txn.Some? && |data| == sectorSize && chunk > 0
      modifies this`pageCache, this`writeBuffer, this`txn
      ensures Coherent() && txn.Some?
      ensures old(Valid()) && Level(lock) >= RESERVED_LEVEL ==> Valid()
      ensures ok <==> (p == 0 ==> GoodHeader(data, sectorSize))
      ensures ok <==>
        (p == 0 ==> data[16] as nat * 256 + data[17] as nat == sectorSize && data[18] != 2 && data[19] != 2)
      ensures skipped <==> ok && p in old(pageCache) && old(pageCache)[p] == Normal(p, data)
      ensures Sees(p) == if ok then Some(Normal(p, data)) else old(Sees(p))
      ensures forall q | q != p :: Sees(q) == old(Sees(q))
      ensures Abstract() == if ok then WithWrite(old(Abstract()), p, Normal(p, data), skipped) else old(Abstract())
    {
      if p == 0 && !GoodHeader(data, sectorSize) { return false, false; }
      var page := Normal(p, data);
      if p in pageCache && pageCache[p] == page { return true, true; }
      Put(p, page);
      if |writeBuffer| >= FLUSH_LIMIT { ForceFlush(chunk); }
      return true, false;
    }

    method Put(p: PageNo, page: Page)
      requires Coherent() && txn.Some?
      modifies this`pageCache, this`writeBuffer
      ensures Coherent() && Sees(p) == Some(page) && forall q | q != p :: Sees(q) == old(Sees(q))
      ensures Abstract() == WithWrite(old(Abstract()), p, page, false)
    {
      WriteThrough(snap, firstPage, txn.value, writeBuffer, pageCache, p, page);
      assert txn.value.pageBuffer + writeBuffer[p := page] == Writes()[p := page];
      pageCache := pageCache[p := page];
      writeBuffer := writeBuffer[p := page];
    }

    method ConfirmCommit()
      requires Valid() && !commitConfirmed
      modifies this`commitConfirmed
      ensures Valid() && Abstract() == old(Abstract()).(confirmed := true)
    {
      commitConfirmed := true;
    }

    /** Pins the connection to a version, or unpins it; refused during a transaction. */
    method Pin(version: Option<Version>) returns (ok: bool)
      requires Valid()
      modifies this`fixedVersion
      ensures Valid() && ok == txn.None?
      ensures Abstract() == old(Abstract()).(pinned := if ok then version else old(fixedVersion))
    {
      if txn.Some? { return false; }
      fixedVersion := version;
      return true;
    }

    /** Ends the transaction: discards it, or commits it and goes on at the new version. `sent` is what the
        server was asked to commit, `reply` its answer. */
    method Finalize(commit: bool, chunk: nat, reply: Reply) returns (ok: bool, sent: Option<Intent>)
      requires Coherent() && txn.Some? && chunk > 0
      requires CommitOk(snap, txn.value.version, txn.value.pageBuffer + writeBuffer, reply)
      modifies this`txn, this`writeBuffer, this`pageCache, this`lastKnown, this`observed
      ensures Coherent() && Clean() && observed == {}
      ensures var t, writes := old(txn).value, old(txn).value.pageBuffer + old(writeBuffer);
        && (sent.Some? <==> commit && fixedVersion.None? && writes != map[])
        && (sent.Some? ==> sent.value.version == t.version && sent.value.writes == writes)
        && (sent.Some? ==> sent.value.readSet == if Large(t.readSet) then None else t.readSet)
        && ok == !(sent.Some? && reply.Conflict?)
        && lastKnown == Some(if sent.Some? && reply.Committed? then reply.version else t.version)
        && txn == (if !commit || fixedVersion.Some? || !ok then None else Some(AtVersion(lastKnown.value)))
    {
      if |writeBuffer| > chunk {
        ForceFlush(chunk);
        PlusNothing(txn.value.pageBuffer);
      }
      ok, sent := Settle(commit, reply);
    }

    /** The end of a transaction, once a large write buffer has been flushed. */
    method Settle(commit: bool, reply: Reply) returns (ok: bool, sent: Option<Intent>)
      requires Coherent() && txn.Some?
      requires CommitOk(snap, txn.value.version, txn.value.pageBuffer + writeBuffer, reply)
      modifies this`txn, this`writeBuffer, this`pageCache, this`lastKnown, this`observed
      ensures Coherent() && Clean() && observed == {}
      ensures var t, writes := old(txn).value, old(txn).value.pageBuffer + old(writeBuffer);
        && (sent.Some? <==> commit && fixedVersion.None? && writes != map[])
        && (sent.Some? ==> sent.value.version == t.version && sent.value.writes == writes)
        && (sent.Some? ==> sent.value.readSet == if Large(t.readSet) then None else t.readSet)
        && ok == !(sent.Some? && reply.Conflict?)
        && lastKnown == Some(if sent.Some? && reply.Committed? then reply.version else t.version)
        && txn == (if !commit || fixedVersion.Some? || !ok then None else Some(AtVersion(lastKnown.value)))
    {
      var t := txn.value;
      var readSet := if Large(t.readSet) then None else t.readSet;
      var writes := t.pageBuffer + writeBuffer;
      ok, sent := true, None;
      if !commit || fixedVersion.Some? {
        Discard();
      } else if writes == map[] {
        EmptyShows(snap, firstPage, t, writeBuffer, pageCache);
        txn, writeBuffer, observed := Some(AtVersion(t.version)), map[], {};
      } else {
        sent := Some(Intent(t.version, writes, readSet));
        if reply.Conflict? {
          Discard();
          ok := false;
        } else {
          Adopt(reply);
        }
      }
    }

    /** Forgets the transaction, and from the cache every page it wrote. */
    method Discard()
      requires Coherent() && txn.Some?
      modifies this`txn, this`writeBuffer, this`pageCache, this`observed
      ensures Coherent() && Clean() && txn.None? && observed == {}
    {
      var dirty := txn.value.pageBuffer.Keys + writeBuffer.Keys;
      DiscardShowsSnapshot(snap, firstPage, txn.value, writeBuffer, pageCache);
      txn, writeBuffer, pageCache, observed := None, map[], Without(pageCache, dirty), {};
    }

    /** Moves on to the version that has just been committed. */
    method Adopt(reply: Reply)
      requires Coherent() && txn.Some? && reply.Committed?
      requires CommitOk(snap, txn.value.version, txn.value.pageBuffer + writeBuffer, reply)
      modifies this`txn, this`writeBuffer, this`pageCache, this`lastKnown, this`observed
      ensures Coherent() && Clean() && observed == {}
      ensures lastKnown == Some(reply.version) && txn == Some(AtVersion(reply.version))
    {
      if reply.changelog.Some? {
        CommitShowsNewVersion(snap, firstPage, txn.value, writeBuffer, pageCache, reply.version, reply.changelog.value);
        pageCache := Without(pageCache, reply.changelog.value);
      } else {
        pageCache := map[];
      }
      txn, writeBuffer, lastKnown, observed := Some(AtVersion(reply.version)), map[], Some(reply.version), {};
    }

    /** Starts a transaction unless there is one. `stat` is the server's answer, if it gave one. */
    method Lock(kind: LockKind, stat: Option<Stat>) returns (ok: bool)
      requires Valid() && kind != NoLock
      requires lock != kind && (txn.Some? || fixedVersion.Some? || stat.Some?) ==> !commitConfirmed
      requires stat.Some? ==> StatOk(snap, lastKnown, stat.value)
      modifies this
      ensures Coherent() && (Valid() <==> !ok || Level(kind) >= RESERVED_LEVEL || Clean()) && Clean() == old(Clean())
      ensures ok <==> old(lock) == kind || old(txn).Some? || fixedVersion.Some? || stat.Some?
      ensures Abstract() == WithLock(old(Abstract()), kind, stat)
      ensures old(txn).Some? || old(lastKnown) == lastKnown ==> pageCache == old(pageCache)
      ensures old(txn).Some? ==> forall q :: Sees(q) == old(Sees(q))
    {
      if lock == kind { return true; }
      if txn.None? {
        var version, interval := 0, None;
        if fixedVersion.Some? {
          version := fixedVersion.value;
        } else if stat.Some? {
          version, interval := stat.value.version, stat.value.interval;
        } else {
          return false;
        }
        Begin(version, interval);
      }
      lock := kind;
      return true;
    }

    method Begin(version: Version, interval: Option<set<PageNo>>)
      requires Coherent() && txn.None? && writeBuffer == map[]
      requires interval.Some? ==> StatOk(snap, lastKnown, Stat(version, interval))
      modifies this`pageCache, this`lastKnown, this`txn, this`observed, this`counter
      ensures Coherent() && txn == Some(Txn(version, map[], Some({}))) && observed == {}
      ensures lastKnown == Some(version) && counter == (old(counter) + 2) % Power(4)
      ensures Writes() == map[] && (old(lastKnown) == lastKnown ==> pageCache == old(pageCache))
    {
      MoveTo(version, interval);
      txn, observed := Some(Txn(version, map[], Some({}))), {};
      counter := (counter + 2) % Power(4);
      PlusNothing(map[]);
    }

    /** Drops from the cache what may differ at another version. */
    method MoveTo(version: Version, interval: Option<set<PageNo>>)
      requires Coherent() && txn.None? && writeBuffer == map[]
      requires interval.Some? ==> StatOk(snap, lastKnown, Stat(version, interval))
      modifies this`pageCache, this`lastKnown
      ensures Coherent() && lastKnown == Some(version) && (old(lastKnown) == lastKnown ==> pageCache == old(pageCache))
    {
      if lastKnown != Some(version) {
        if interval.Some? {
          StatShowsNewVersion(snap, firstPage, lastKnown.value, pageCache, version, interval.value);
          pageCache := Without(pageCache, interval.value);
        } else {
          pageCache := map[];
        }
        lastKnown := Some(version);
      }
    }

    /** Changes the lock; leaving the write locks ends the transaction. */
    method Unlock(kind: LockKind, chunk: nat, reply: Reply) returns (ok: bool, sent: Option<Intent>)
      requires Valid() && chunk > 0
      requires txn.Some? ==> CommitOk(snap, txn.value.version, Writes(), reply)
      modifies this
      ensures Coherent() && (Valid() <==> (Level(kind) >= RESERVED_LEVEL ==> txn.Some?))
      ensures sent == SentBy(old(Abstract()), kind) && ok == !(sent.Some? && reply.Conflict?)
      ensures Abstract() == WithUnlock(old(Abstract()), kind, reply)
      ensures !Leaves(old(Abstract()), kind) ==> pageCache == old(pageCache)
      ensures !Leaves(old(Abstract()), kind) && kind != NoLock ==> forall q :: Sees(q) == old(Sees(q))
    {
      ok, sent := true, None;
      if kind == lock { return; }
      if Level(lock) >= RESERVED_LEVEL && Level(kind) < RESERVED_LEVEL {
        ok, sent := Leave(kind, chunk, reply);
      } else {
        lock := kind;
      }
      if kind == NoLock { Forget(); }
    }

    /** Gives up the write locks. */
    method Leave(kind: LockKind, chunk: nat, reply: Reply) returns (ok: bool, sent: Option<Intent>)
      requires Valid() && Level(lock) >= RESERVED_LEVEL > Level(kind) && chunk > 0
      requires CommitOk(snap, txn.value.version, Writes(), reply)
      modifies this
      ensures Coherent() && Clean() && sent == SentBy(old(Abstract()), kind) && ok == !(sent.Some? && reply.Conflict?)
      ensures Abstract() ==
        WithUnlock(old(Abstract()), kind, reply).(work := WorkAfter(old(Abstract()), kind, reply))
    {
      lock := kind;
      var confirmed := commitConfirmed;
      commitConfirmed := false;
      ok, sent := Finalize(confirmed, chunk, reply);
      PlusNothing(map[]);
    }

    method Forget()
      requires Coherent() && Clean()
      modifies this`txn
      ensures Coherent() && Clean() && Abstract() == old(Abstract()).(work := None)
    {
      PlusNothing(map[]);
      if txn.Some? { EmptyShows(snap, firstPage, txn.value, writeBuffer, pageCache); }
      txn := None;
    }
  }

  /** A read set so large that a page-level check is unlikely to be made. */
  predicate Large(readSet: Option<set<PageNo>>) {
    readSet.Some? && |readSet.value| > READ_SET_LIMIT
  }

  lemma PlusNothing(a: map<PageNo, Page>)
    ensures a + map[] == a
  {
  }

  lemma SentChunk(a: map<PageNo, Page>, entries: map<PageNo, Page>, left: set<PageNo>, batch: set<PageNo>)
    requires batch <= left <= entries.Keys
    ensures a + Without(entries, left) + Without(entries, entries.Keys - batch) == a + Without(entries, left - batch)
  {
    var x, y := a + Without(entries, left) + Without(entries, entries.Keys - batch), a + Without(entries, left - batch);
    forall p ensures p in x <==> p in y {}
    forall p | p in x ensures x[p] == y[p] {}
  }

  lemma NothingSent(t: Txn, entries: map<PageNo, Page>)
    ensures Sent(t, entries, entries.Keys, t)
  {
    assert Without(entries, entries.Keys) == map[];
    PlusNothing(t.pageBuffer);
  }

  lemma AllSent(t: Txn, entries: map<PageNo, Page>, done: Txn)
    requires Sent(t, entries, {}, done)
    ensures done == t.(pageBuffer := t.pageBuffer + entries)
  {
    assert Without(entries, {}) == entries;
  }

  /** The chunks of a flush, each of which enters the transaction's page buffer. */
  method WriteAll(t: Txn, entries: map<PageNo, Page>, chunk: nat) returns (done: Txn)
    requires chunk > 0
    ensures done == t.(pageBuffer := t.pageBuffer + entries)
  {
    var left := entries.Keys;
    done := t;
    NothingSent(t, entries);
    while left != {}
      invariant left <= entries.Keys && Sent(t, entries, left, done)
      decreases |left|
    {
      var batch := TakeSome(left, chunk);
      done := SendChunk(t, entries, left, batch, done);
      left := left - batch;
    }
    AllSent(t, entries, done);
  }

  /** All but the pages in `left` have reached the page buffer. */
  predicate Sent(t: Txn, entries: map<PageNo, Page>, left: set<PageNo>, done: Txn) {
    done == t.(pageBuffer := t.pageBuffer + Without(entries, left))
  }

  method SendChunk(
      ghost t: Txn, entries: map<PageNo, Page>, ghost left: set<PageNo>, batch: set<PageNo>,
      done: Txn) returns (more: Txn)
    requires batch <= left <= entries.Keys && Sent(t, entries, left, done)
    ensures Sent(t, entries, left - batch, more)
  {
    SentChunk(t.pageBuffer, entries, left, batch);
    more := done.(pageBuffer := done.pageBuffer + Without(entries, entries.Keys - batch));
  }

  method TakeSome(pages: set<PageNo>, limit: nat) returns (batch: set<PageNo>)
    requires pages != {} && limit > 0
    ensures batch <= pages && batch != {} && |batch| <= limit
  {
    batch := {};
    var left := pages;
    while left != {} && |batch| < limit
      invariant batch + left == pages && batch !! left && |batch| <= limit
      invariant batch == {} ==> left != {}
      decreases |left|
    {
      var p :| p in left;
      left, batch := left - {p}, batch + {p};
    }
  }
}
