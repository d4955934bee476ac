/** The client's page cache, write buffer and flushed-page buffer. (mvfs/src/vfs.rs, mvclient/src/lib.rs)

    The server is the function `snap` from versions to snapshots. What it promises about intervals and
    commits are the predicates `StatOk` and `CommitOk`. */
module Client {
  import opened Common
  import opened Octets

  type Page = seq<Octet>
  type Snapshots = Version -> map<PageNo, Page>

  datatype LockKind = NoLock | Shared | Reserved | Pending | Exclusive

  function Level(k: LockKind): nat {
    match k
    case NoLock => 0
    case Shared => 1
    case Reserved => 2
    case Pending => 3
    case Exclusive => 4
  }

  const RESERVED_LEVEL := 2

  /** `pageBuffer` holds the pages flushed to the server; `readSet` is absent when it is not recorded. */
  datatype Txn = Txn(version: Version, pageBuffer: map<PageNo, Page>, readSet: Option<set<PageNo>>)

  // ---- What a transaction should see ----

  function Find(m: map<PageNo, Page>, p: PageNo): Option<Page> {
    if p in m then Some(m[p]) else None
  }

  /** Page 0 of a namespace that has none is the template. */
  function OrTemplate(found: Option<Page>, p: PageNo, firstPage: Page): Option<Page> {
    if found.None? && p == 0 then Some(firstPage) else found
  }

  function SnapshotPage(snap: Snapshots, firstPage: Page, v: Version, p: PageNo): Option<Page> {
    OrTemplate(Find(snap(v), p), p, firstPage)
  }

  /** What the server returns to a transaction: the page it flushed, else the snapshot's. */
  function ServerPage(snap: Snapshots, t: Txn, p: PageNo): Option<Page> {
    if p in t.pageBuffer then Some(t.pageBuffer[p]) else Find(snap(t.version), p)
  }

  /** The transaction's last write to a page, or else the page in its snapshot. */
  function View(snap: Snapshots, firstPage: Page, t: Txn, written: map<PageNo, Page>, p: PageNo): Option<Page> {
    if p in written then Some(written[p])
    else if p in t.pageBuffer then Some(t.pageBuffer[p])
    else SnapshotPage(snap, firstPage, t.version, p)
  }

  /** Every cached page is what the transaction should see. */
  predicate Shows(snap: Snapshots, firstPage: Page, t: Txn, written: map<PageNo, Page>, cache: map<PageNo, Page>) {
    forall p | p in cache :: Some(cache[p]) == View(snap, firstPage, t, written, p)
  }

  // ---- What the server promises ----

  /** Reply to `/stat`: pages outside the interval are the same at both versions. */
  datatype Stat = Stat(version: Version, interval: Option<set<PageNo>>)

  ghost predicate StatOk(snap: Snapshots, from: Option<Version>, reply: Stat) {
    reply.interval.Some? ==>
      from.Some? && forall p {:trigger Find(snap(reply.version), p)} | p !in reply.interval.value ::
        Find(snap(reply.version), p) == Find(snap(from.value), p)
  }

  /** Reply to a commit. The new version has the written pages; others change only if the changelog lists them. */
  datatype Reply = Committed(version: Version, changelog: Option<set<PageNo>>) | Conflict

  ghost predicate CommitOk(snap: Snapshots, from: Version, writes: map<PageNo, Page>, reply: Reply) {
    reply.Committed? ==>
      && (forall p | p in writes :: Find(snap(reply.version), p) == Some(writes[p]))
      && (reply.changelog.Some? ==>
            forall p {:trigger Find(snap(reply.version), p)} | p !in reply.changelog.value && p !in writes ::
              Find(snap(reply.version), p) == Find(snap(from), p))
  }

  // ---- Prefetching ----

  /** Pages fetched ahead, as the server sees them; page 0 and absent pages are not cached. */
  function Fetched(snap: Snapshots, t: Txn, ahead: set<PageNo>): map<PageNo, Page> {
    map q | q in ahead && q != 0 && ServerPage(snap, t, q).Some? :: ServerPage(snap, t, q).value
  }

  /** A page fetched ahead that the write buffer holds in another form. */
  predicate Stale(snap: Snapshots, t: Txn, written: map<PageNo, Page>, ahead: set<PageNo>, q: PageNo) {
    q in ahead && q != 0 && q in written && ServerPage(snap, t, q).Some? && ServerPage(snap, t, q) != Some(written[q])
  }

  lemma StaleIsFetched(
      snap: Snapshots, firstPage: Page, t: Txn, written: map<PageNo, Page>, ahead: set<PageNo>, q: PageNo)
    ensures Stale(snap, t, written, ahead, q) ==>
      q in Fetched(snap, t, ahead) && Some(Fetched(snap, t, ahead)[q]) != View(snap, firstPage, t, written, q)
  {
  }

  /** Caching what was fetched ahead keeps the cache right exactly if none of it is a write-buffered page in
      an older form. The code filters by the cache alone, from which such a page may have been evicted. */
  lemma PrefetchExact(
      snap: Snapshots, firstPage: Page, t: Txn, written: map<PageNo, Page>, cache: map<PageNo, Page>,
      ahead: set<PageNo>)
    requires Shows(snap, firstPage, t, written, cache)
    ensures Shows(snap, firstPage, t, written, cache + Fetched(snap, t, ahead)) <==> forall q ::
      !Stale(snap, t, written, ahead, q)
  {
    var fetched := Fetched(snap, t, ahead);
    if Shows(snap, firstPage, t, written, cache + fetched) {
      forall q | q in fetched ensures Some(fetched[q]) == View(snap, firstPage, t, written, q) {
        assert (cache + fetched)[q] == fetched[q];
      }
      forall q ensures !Stale(snap, t, written, ahead, q) {
        StaleIsFetched(snap, firstPage, t, written, ahead, q);
      }
    } else {
      var p :| p in cache + fetched && Some((cache + fetched)[p]) != View(snap, firstPage, t, written, p);
      assert p in fetched;
      assert Stale(snap, t, written, ahead, p);
    }
  }

  /** A transaction that writes page 7, has it evicted, and then reads page 3 with page 7 fetched ahead, is
      shown its old page 7 on the next read. */
  lemma PrefetchCanBeStale(was: Page, now: Page, third: Page)
    requires was != now
    ensures
      var snap := (v: Version) => map[3 := third, 7 := was];
      var t, written, ahead := Txn(1, map[], None), map[7 := now], {7};
      && Shows(snap, [], t, written, map[3 := third])
      && !Shows(snap, [], t, written, map[3 := third] + Fetched(snap, t, ahead))
  {
    var snap := (v: Version) => map[3 := third, 7 := was];
    var t, written, ahead := Txn(1, map[], None), map[7 := now], {7};
    assert Stale(snap, t, written, ahead, 7);
    PrefetchExact(snap, [], t, written, map[3 := third], ahead);
  }

  // ---- Steps that change what a transaction should see ----

  /** What is read on a miss may be cached; what is fetched ahead with it, exactly if none of it is stale. */
  lemma MissFills(
      snap: Snapshots, firstPage: Page, t: Txn, written: map<PageNo, Page>, cache: map<PageNo, Page>,
      p: PageNo, page: Page, ahead: set<PageNo>)
    requires Shows(snap, firstPage, t, written, cache) && View(snap, firstPage, t, written, p) == Some(page)
    ensures Shows(snap, firstPage, t, written, cache[p := page] + Fetched(snap, t, ahead)) <==>
      forall q :: !Stale(snap, t, written, ahead, q)
  {
    PrefetchExact(snap, firstPage, t, written, cache[p := page], ahead);
  }

  /** The read set has no part in what is seen. */
  lemma ReadSetUnseen(
      snap: Snapshots, firstPage: Page, t: Txn, written: map<PageNo, Page>, cache: map<PageNo, Page>,
      ahead: set<PageNo>, r: Option<set<PageNo>>)
    ensures forall p :: View(snap, firstPage, t.(readSet := r), written, p) == View(snap, firstPage, t, written, p)
    ensures Shows(snap, firstPage, t, written, cache) ==> Shows(snap, firstPage, t.(readSet := r), written, cache)
    ensures forall q :: Stale(snap, t.(readSet := r), written, ahead, q) == Stale(snap, t, written, ahead, q)
  {
  }

  /** Writing a page through keeps the cache right. */
  lemma WriteThrough(
      snap: Snapshots, firstPage: Page, t: Txn, written: map<PageNo, Page>, cache: map<PageNo, Page>, p: PageNo,
      data: Page)
    requires Shows(snap, firstPage, t, written, cache)
    ensures Shows(snap, firstPage, t, written[p := data], cache[p := data])
  {
  }

  /** Flushing buffered writes to the server changes nothing the transaction sees. */
  lemma FlushShows(snap: Snapshots, firstPage: Page, t: Txn, written: map<PageNo, Page>, cache: map<PageNo, Page>)
    ensures forall p ::
      View(snap, firstPage, t.(pageBuffer := t.pageBuffer + written), map[], p) == View(snap, firstPage, t, written, p)
    ensures Shows(snap, firstPage, t.(pageBuffer := t.pageBuffer + written), map[], cache)
      == Shows(snap, firstPage, t, written, cache)
  {
    var flushed := t.(pageBuffer := t.pageBuffer + written);
    forall p ensures View(snap, firstPage, flushed, map[], p) == View(snap, firstPage, t, written, p) {
      assert p in flushed.pageBuffer <==> p in t.pageBuffer || p in written;
    }
  }

  function Without(cache: map<PageNo, Page>, pages: set<PageNo>): map<PageNo, Page> {
    map p | p in cache && p !in pages :: cache[p]
  }

  function AtVersion(v: Version): Txn {
    Txn(v, map[], None)
  }

  /** Dropping the pages a transaction wrote leaves a cache of its snapshot. */
  lemma DiscardShowsSnapshot(
      snap: Snapshots, firstPage: Page, t: Txn, written: map<PageNo, Page>, cache: map<PageNo, Page>)
    requires Shows(snap, firstPage, t, written, cache)
    ensures Shows(snap, firstPage, AtVersion(t.version), map[], Without(cache, t.pageBuffer.Keys + written.Keys))
  {
  }

  /** A transaction that wrote nothing shows its snapshot. */
  lemma EmptyShows(snap: Snapshots, firstPage: Page, t: Txn, written: map<PageNo, Page>, cache: map<PageNo, Page>)
    requires Shows(snap, firstPage, t, written, cache) && t.pageBuffer + written == map[]
    ensures Shows(snap, firstPage, AtVersion(t.version), map[], cache)
  {
    assert t.pageBuffer.Keys + written.Keys == (t.pageBuffer + written).Keys == {};
    assert Without(cache, {}) == cache;
    DiscardShowsSnapshot(snap, firstPage, t, written, cache);
  }

  /** After a commit the cache, less what the changelog lists, is a cache of the new version. */
  lemma CommitShowsNewVersion(
      snap: Snapshots, firstPage: Page, t: Txn, written: map<PageNo, Page>, cache: map<PageNo, Page>, v: Version,
      changed: set<PageNo>)
    requires Shows(snap, firstPage, t, written, cache)
    requires CommitOk(snap, t.version, t.pageBuffer + written, Committed(v, Some(changed)))
    ensures Shows(snap, firstPage, AtVersion(v), map[], Without(cache, changed))
  {
    var kept, writes := Without(cache, changed), t.pageBuffer + written;
    forall p | p in kept ensures Some(kept[p]) == View(snap, firstPage, AtVersion(v), map[], p) {
      if p in writes {
        assert Find(snap(v), p) == Some(writes[p]);
      } else {
        assert Find(snap(v), p) == Find(snap(t.version), p);
      }
    }
  }

  /** Moving on to another version, less what the interval lists. */
  lemma StatShowsNewVersion(
      snap: Snapshots, firstPage: Page, from: Version, cache: map<PageNo, Page>, v: Version, changed: set<PageNo>)
    requires Shows(snap, firstPage, AtVersion(from), map[], cache) && StatOk(snap, Some(from), Stat(v, Some(changed)))
    ensures Shows(snap, firstPage, AtVersion(v), map[], Without(cache, changed))
  {
    var kept := Without(cache, changed);
    forall p | p in kept ensures Some(kept[p]) == View(snap, firstPage, AtVersion(v), map[], p) {
      assert Find(snap(v), p) == Find(snap(from), p);
    }
  }
}
