/** Every step of the protocol respects stored content. */
module ContentSteps {
  import opened Common
  import opened Delta
  import opened Store
  import opened Operations
  import opened Protocol
  import opened ContentSafety

  // ---- What a transaction saw is still there when it commits ----

  lemma PageHeld(h: History, seen: nat, r: Reads, i: PageNo, v: Version)
    requires WellFormed(h) && NoConflict(h, seen, r)
    requires PageReadRange(h.dbs[seen].pages, i, v) in r.pages
    requires Latest(h.dbs[seen].pages, i, v).Some?
    ensures var k := PageKey(i, Latest(h.dbs[seen].pages, i, v).value);
      forall n | seen <= n <= |h.evs| :: k in h.dbs[n].pages && h.dbs[n].pages[k] == h.dbs[seen].pages[k]
  {
    var range := PageReadRange(h.dbs[seen].pages, i, v);
    var k := PageKey(i, range.lo);
    assert InRange(range, k);
    var n := seen;
    while n < |h.evs|
      invariant seen <= n <= |h.evs|
      invariant forall m | seen <= m <= n :: k in h.dbs[m].pages && h.dbs[m].pages[k] == h.dbs[seen].pages[k]
    {
      assert !Touches(r, h.evs[n]) && !TouchesPage(h.evs[n], k);
      assert h.dbs[n + 1] == Apply(h.dbs[n], h.evs[n].writes, h.evs[n].stamp);
      n := n + 1;
    }
  }

  /** Content that is present throughout is never rewritten. */
  lemma ContentHeld(c: Codec, h: History, seen: nat, x: Hash)
    requires SafeHistory(c, h) && seen <= |h.evs|
    requires forall n | seen <= n <= |h.evs| :: x in h.dbs[n].content
    ensures Now(h).content[x] == h.dbs[seen].content[x]
  {
    var n := seen;
    while n < |h.evs|
      invariant seen <= n <= |h.evs|
      invariant h.dbs[n].content[x] == h.dbs[seen].content[x]
    {
      var e := h.evs[n];
      assert h.dbs[n + 1] == Apply(h.dbs[n], e.writes, e.stamp) && Disciplined(h.dbs[n], e.writes);
      assert x in h.dbs[n + 1].content;
      ContentKept(h.dbs[n], e.writes, e.stamp, x);
      n := n + 1;
    }
  }

  /** The base a delta was computed against is, at commit time, still a stored non-delta page. */
  lemma BaseHeld(c: Codec, h: History, seen: nat, rv: Version, r: Reads, q: WriteReq, base: Hash, blob: Blob)
    requires SafeHistory(c, h) && NoConflict(h, seen, r)
    requires EncodedAs(c, h.dbs[seen], rv, r, q, base, blob)
    ensures base in h.dbs[seen].content
    ensures base in Now(h).content && !Now(h).content[base].Delta?
  {
    var was, now, i := h.dbs[seen], Now(h), q.deltaBase.value;
    PageHeld(h, seen, r, i, rv);
    var k := PageKey(i, Latest(was.pages, i, rv).value);
    var first := was.pages[k];
    forall n | seen <= n <= |h.evs| ensures first in h.dbs[n].content {
      assert Safe(c, h.dbs[n]) && k in h.dbs[n].pages;
    }
    ContentHeld(c, h, seen, first);
    assert Safe(c, was) && Safe(c, now);
    assert DeltaBased(was, first) && DeltaBased(now, first);
  }

  // ---- Page writes ----

  lemma HashBelowMax(c: Codec, db: Db, x: Hash)
    requires ValidCodec(c) && Safe(c, db) && x in db.index
    ensures x < MAX_HASH
  {
    assert Decodes(c, db.content, x);
  }

  lemma FreshAtCommit(c: Codec, h: History, seen: nat, r: Reads, x: Hash)
    requires ValidCodec(c) && SafeHistory(c, h) && NoConflict(h, seen, r) && x in r.index && x < MAX_HASH
    ensures x in Now(h).content <==> x in h.dbs[seen].index
  {
    IndexUntouched(h, seen, r, x);
    assert Safe(c, Now(h));
  }

  lemma WrittenBlobGood(c: Codec, h: History, seen: nat, rv: Version, reqs: seq<WriteReq>, r: Reads, w: Writes, x: Hash)
    requires ValidCodec(c) && SafeHistory(c, h) && NoConflict(h, seen, r)
    requires AllOccur(c, reqs)
    requires AppliedWrite(c, h.dbs[seen], rv, reqs, r, w)
    requires x in w.setContent
    ensures GoodBlob(c, Now(h), w, x)
  {
    var was, now, blob := h.dbs[seen], Now(h), w.setContent[x];
    assert StoredFor(c, was, rv, reqs, r, w, x, blob);
    if blob.Delta? {
      var q :| q in reqs && c.hash(q.data) == x && EncodedAs(c, was, rv, r, q, blob.base, blob)
        && w.setReferrer[x] == blob.base;
      BaseHeld(c, h, seen, rv, r, q, blob.base, blob);
      assert Safe(c, was) && Safe(c, now);
      assert Decodes(c, was.content, blob.base) && Decodes(c, now.content, blob.base);
      EncodedDeltaDecodes(c, was.content, now.content, ReadPage(was.pages, q.deltaBase.value, rv).value, q.data);
    } else {
      var q :| q in reqs && c.hash(q.data) == x && blob == Zstd(c.compress(q.data));
    }
  }

  lemma RestampedPresent(
      c: Codec, h: History, seen: nat, rv: Version, reqs: seq<WriteReq>, r: Reads, w: Writes, x: Hash)
    requires ValidCodec(c) && SafeHistory(c, h) && NoConflict(h, seen, r)
    requires AppliedWrite(c, h.dbs[seen], rv, reqs, r, w)
    requires x in w.stamp
    ensures x in Now(h).content || x in w.setContent
  {
    var was := h.dbs[seen];
    if x in ReqHashes(c, reqs) {
      FreshAtCommit(c, h, seen, r, x);
    } else {
      assert BaseFor(c, was, rv, reqs, r, x);
      var q :| q in reqs && EncodeReq(c, was, rv, q).Encoded?
        && EncodedAs(c, was, rv, r, q, x, EncodeReq(c, was, rv, q).blob);
      BaseHeld(c, h, seen, rv, r, q, x, EncodeReq(c, was, rv, q).blob);
    }
  }

  lemma FreshContentAbsent(
      c: Codec, h: History, seen: nat, rv: Version, reqs: seq<WriteReq>, r: Reads, w: Writes, x: Hash)
    requires ValidCodec(c) && SafeHistory(c, h) && NoConflict(h, seen, r)
    requires AppliedWrite(c, h.dbs[seen], rv, reqs, r, w)
    requires x in w.setContent
    ensures x !in Now(h).content
  {
    assert x in ReqHashes(c, reqs);
    FreshAtCommit(c, h, seen, r, x);
  }

  lemma WriteRespects(c: Codec, h: History, seen: nat, rv: Version, reqs: seq<WriteReq>, r: Reads, w: Writes)
    requires ValidCodec(c) && SafeHistory(c, h) && NoConflict(h, seen, r)
    requires AllOccur(c, reqs)
    requires AppliedWrite(c, h.dbs[seen], rv, reqs, r, w)
    ensures Respects(c, Now(h), w)
  {
    var now := Now(h);
    forall x | x in w.setContent ensures x !in now.content && GoodBlob(c, now, w, x) {
      FreshContentAbsent(c, h, seen, rv, reqs, r, w, x);
      WrittenBlobGood(c, h, seen, rv, reqs, r, w, x);
    }
    forall x | x in w.stamp ensures x in now.index || x in w.setContent {
      RestampedPresent(c, h, seen, rv, reqs, r, w, x);
      assert Safe(c, now);
    }
  }

  // ---- Commits ----

  lemma FewerReads(h: History, seen: nat, all: Reads, some: Reads)
    requires NoConflict(h, seen, all)
    requires some.index <= all.index && some.pages <= all.pages
    requires (some.lastWrite ==> all.lastWrite) && (some.lock ==> all.lock) && (some.token ==> all.token)
    ensures NoConflict(h, seen, some)
  {
    forall i | seen <= i < |h.evs| ensures !Touches(some, h.evs[i]) {
      assert !Touches(all, h.evs[i]);
    }
  }

  lemma IndexingRespects(c: Codec, cfg: Config, db: Db, g: Request, n: NsCommit, w: Writes)
    requires Respects(c, db, w) && w.drop == {} && w.clearPages == {}
    requires forall x | x in IndexHashes(n.indexWrites) :: x in db.index || x in w.setContent
    ensures Respects(c, db, PhaseTwoWrites(cfg, g, n, w))
  {
    var w' := PhaseTwoWrites(cfg, g, n, w);
    forall x | x in w'.setContent ensures GoodBlob(c, db, w', x) {
      assert GoodBlob(c, db, w, x);
    }
  }

  lemma NothingRespects(c: Codec, db: Db, w: Writes)
    requires w.setContent == map[] && w.setReferrer == map[] && w.stamp == {} && w.drop == {} && w.setPages == map[]
    ensures Respects(c, db, w)
  {
  }

  lemma PhaseOneRespects(c: Codec, h: History, seen: nat, rv: Version, n: NsCommit, r: Reads, w: Writes)
    requires ValidCodec(c) && SafeHistory(c, h) && NoConflict(h, seen, PhaseOneReads(c, n, r))
    requires AllOccur(c, n.pageWrites)
    requires PhaseOneOk(c, h.dbs[seen], rv, n, r, w)
    ensures Respects(c, Now(h), w) && w.drop == {} && w.clearPages == {}
    ensures forall x | x in IndexHashes(n.indexWrites) :: x in Now(h).index || x in w.setContent
  {
    FewerReads(h, seen, PhaseOneReads(c, n, r), r);
    if n.pageWrites == [] {
      NothingRespects(c, Now(h), w);
    } else {
      WriteRespects(c, h, seen, rv, n.pageWrites, r, w);
    }
    forall x | x in IndexHashes(n.indexWrites) ensures x in Now(h).index || x in w.setContent {
      if x in SlowHashes(c, n) {
        HashBelowMax(c, h.dbs[seen], x);
        IndexUntouched(h, seen, PhaseOneReads(c, n, r), x);
      } else {
        RestampedPresent(c, h, seen, rv, n.pageWrites, r, w, x);
        assert Safe(c, Now(h));
      }
    }
  }

  /** Between its phases, a multi-phase commit is known by a token that one event has put. */
  ghost predicate PendingOk(h: History, p: Pending)
    requires WellFormed(h)
  {
    && 1 <= p.at <= |h.evs|
    && h.evs[p.at - 1].writes.token == PutToken(p.token)
    && p.g.multi && !p.g.plcc
    && p.n.assumed < h.evs[p.at - 1].stamp
    && (forall i | 0 <= i < |h.evs| :: h.evs[i].writes.token == PutToken(p.token) ==> i == p.at - 1)
    && IndexHashes(p.n.indexWrites) <= h.dbs[p.at].index.Keys
  }

  lemma TokenHeld(h: History, p: Pending, seen: nat, r: Reads)
    requires WellFormed(h) && PendingOk(h, p) && p.at <= seen && NoConflict(h, seen, r) && r.token
    requires h.dbs[seen].token == Some(p.token)
    ensures forall i | p.at <= i < |h.evs| :: h.evs[i].writes.token.KeepToken?
  {
    forall i | seen <= i < |h.evs| ensures h.evs[i].writes.token.KeepToken? {
      assert !Touches(r, h.evs[i]);
    }
    var n := seen;
    while n > p.at
      invariant p.at <= n <= seen
      invariant h.dbs[n].token == Some(p.token)
      invariant forall i | n <= i < |h.evs| :: h.evs[i].writes.token.KeepToken?
    {
      n := n - 1;
      assert h.dbs[n + 1] == Apply(h.dbs[n], h.evs[n].writes, h.evs[n].stamp);
    }
  }

  lemma IndexGrowsWhileTokenHolds(c: Codec, h: History, at: nat)
    requires SafeHistory(c, h) && at <= |h.evs|
    requires forall i | at <= i < |h.evs| :: h.evs[i].writes.token.KeepToken?
    ensures h.dbs[at].index.Keys <= Now(h).index.Keys
  {
    var n := at;
    while n < |h.evs|
      invariant at <= n <= |h.evs|
      invariant h.dbs[at].index.Keys <= h.dbs[n].index.Keys
    {
      assert Disciplined(h.dbs[n], h.evs[n].writes);
      assert h.dbs[n + 1] == Apply(h.dbs[n], h.evs[n].writes, h.evs[n].stamp);
      n := n + 1;
    }
  }

  lemma PhaseTwoRespects(c: Codec, cfg: Config, h: History, p: Pending, seen: nat, r: Reads)
    requires SafeHistory(c, h) && PendingOk(h, p) && p.at <= seen && NoConflict(h, seen, r) && r.token
    requires h.dbs[seen].token == Some(p.token)
    ensures Respects(c, Now(h), PhaseTwoWrites(cfg, p.g, p.n, NO_WRITES))
  {
    TokenHeld(h, p, seen, r);
    IndexGrowsWhileTokenHolds(c, h, p.at);
    NothingRespects(c, Now(h), NO_WRITES);
    IndexingRespects(c, cfg, Now(h), p.g, p.n, NO_WRITES);
  }

  // ---- Collection ----

  /** The page index scan is past `k`. */
  predicate PageScanned(gc: Gc, k: PageKey) {
    gc.phase.ScanPages? ==> gc.phase.pagesTo.Some? && !Before(gc.phase.pagesTo.value, k)
  }

  predicate ReferrerScanned(gc: Gc, x: Hash) {
    match gc.phase
    case ScanPages(_) => false
    case ScanReferrers(to) => to.Some? && x <= to.value
    case _ => true
  }

  predicate HeldPage(h: History, from: nat, k: PageKey, x: Hash) {
    forall n | from <= n < |h.dbs| :: k in h.dbs[n].pages && h.dbs[n].pages[k] == x
  }

  predicate HeldReferrer(h: History, from: nat, x: Hash, base: Hash) {
    forall n | from <= n < |h.dbs| :: x in h.dbs[n].referrer && h.dbs[n].referrer[x] == base
  }

  /** The scans are not atomic, but they report every entry that is there all along. */
  ghost predicate GcOk(h: History, gc: Gc)
    requires WellFormed(h)
  {
    && ReadVersion(h, gc.start, gc.rv)
    && (forall k, x | PageScanned(gc, k) && HeldPage(h, gc.start, k, x) :: x in gc.refs)
    && (forall x, b | ReferrerScanned(gc, x) && HeldReferrer(h, gc.start, x, b) :: b in gc.refs)
    && (gc.phase.Clearing? ==>
          && gc.start <= gc.phase.seen <= |h.evs|
          && (forall x | x in gc.phase.queue ::
                x in h.dbs[gc.phase.seen].index && h.dbs[gc.phase.seen].index[x] <= gc.rv && x !in gc.refs))
  }

  /** A page entry whose hash has not been restamped since the collection started was there all along. */
  lemma OldPageHeld(c: Codec, h: History, gc: Gc, k: PageKey)
    requires SafeHistory(c, h) && ReadVersion(h, gc.start, gc.rv)
    requires k in Now(h).pages && Now(h).index[Now(h).pages[k]] <= gc.rv
    ensures HeldPage(h, gc.start, k, Now(h).pages[k])
  {
    forall n | gc.start <= n < |h.dbs|
      ensures k in h.dbs[n].pages && h.dbs[n].pages[k] == Now(h).pages[k]
    {
      assert Safe(c, Now(h));
      if n < |h.evs| {
        assert PageDated(h, k, Now(h).pages[k], n);
      }
    }
  }

  lemma OldReferrerHeld(c: Codec, h: History, gc: Gc, x: Hash)
    requires SafeHistory(c, h) && ReadVersion(h, gc.start, gc.rv)
    requires x in Now(h).content && Now(h).content[x].Delta?
    requires Now(h).content[x].base in Now(h).index && Now(h).index[Now(h).content[x].base] <= gc.rv
    ensures HeldReferrer(h, gc.start, x, Now(h).content[x].base)
  {
    forall n | gc.start <= n < |h.dbs|
      ensures x in h.dbs[n].referrer && h.dbs[n].referrer[x] == Now(h).content[x].base
    {
      assert Safe(c, Now(h)) && DeltaBased(Now(h), x);
      if n < |h.evs| {
        assert DeltaDated(h, Now(h), x, n);
      }
    }
  }

  /** Whatever a collection is about to clear is, at that moment, neither referenced by a page
      entry nor the base of a delta. */
  lemma ClearRespects(c: Codec, h: History, gc: Gc)
    requires ValidCodec(c) && SafeHistory(c, h) && GcOk(h, gc) && gc.phase.Clearing?
    requires NoConflict(h, gc.phase.seen, NO_READS.(index := gc.phase.queue))
    ensures Respects(c, Now(h), NO_WRITES.(drop := gc.phase.queue, token := ClearToken))
  {
    var now := Now(h);
    forall x | x in gc.phase.queue ensures x in now.index && now.index[x] <= gc.rv {
      assert Safe(c, h.dbs[gc.phase.seen]);
      HashBelowMax(c, h.dbs[gc.phase.seen], x);
      IndexUntouched(h, gc.phase.seen, NO_READS.(index := gc.phase.queue), x);
    }
    forall k | k in now.pages ensures now.pages[k] !in gc.phase.queue {
      if now.pages[k] in gc.phase.queue {
        OldPageHeld(c, h, gc, k);
        assert PageScanned(gc, k);
      }
    }
    forall x | x in now.content && now.content[x].Delta? ensures now.content[x].base !in gc.phase.queue {
      if now.content[x].base in gc.phase.queue {
        OldReferrerHeld(c, h, gc, x);
        assert ReferrerScanned(gc, x);
      }
    }
  }
}
