/** Content collection never removes what the page index can reach. */
module ContentSafety {
  import opened Common
  import opened Delta
  import opened Store

  /** A page entry's hash is indexed, and was restamped when the entry was committed or later. */
  predicate PagesIndexed(db: Db) {
    forall k | k in db.pages :: db.pages[k] in db.index && k.ver <= db.index[db.pages[k]]
  }

  /** A delta's base is present, is not itself a delta, and is named by the delta's referrer entry. */
  predicate DeltaBased(db: Db, x: Hash)
    requires x in db.content
  {
    db.content[x].Delta? ==>
      && db.content[x].base in db.content && !db.content[db.content[x].base].Delta?
      && x in db.referrer && db.referrer[x] == db.content[x].base
  }

  predicate DeltasBased(db: Db) {
    forall x {:trigger DeltaBased(db, x)} | x in db.content :: DeltaBased(db, x)
  }

  /** Every stored value decodes to the page it is filed under. */
  predicate AllDecode(c: Codec, db: Db) {
    forall x {:trigger Decodes(c, db.content, x)} | x in db.content :: Decodes(c, db.content, x)
  }

  /** Every hash in the page index has its content and, if that is a delta, its base; and all of it decodes. */
  ghost predicate Safe(c: Codec, db: Db) {
    db.index.Keys == db.content.Keys && PagesIndexed(db) && DeltasBased(db) && AllDecode(c, db)
  }

  /** Content is written only where there was none, and dropping content trips the commit token. */
  predicate Disciplined(db: Db, w: Writes) {
    && w.setContent.Keys !! db.content.Keys
    && (w.drop != {} ==> w.token == ClearToken && w.setContent == map[])
  }

  /** The entry `k` was already there before event `m`, or it is not older than that event. */
  predicate PageDated(h: History, k: PageKey, x: Hash, m: nat)
    requires m < |h.evs| && m < |h.dbs|
  {
    (k in h.dbs[m].pages && h.dbs[m].pages[k] == x) || h.evs[m].stamp <= k.ver
  }

  ghost predicate PagesDated(h: History)
    requires WellFormed(h)
  {
    forall k, m {:trigger PageDated(h, k, Now(h).pages[k], m)} | k in Now(h).pages && 0 <= m < |h.evs| ::
      PageDated(h, k, Now(h).pages[k], m)
  }

  /** The referrer entry of delta `x` was already there before event `m`, or its base was restamped since. */
  predicate DeltaDated(h: History, now: Db, x: Hash, m: nat)
    requires m < |h.evs| && m < |h.dbs| && x in now.content && now.content[x].Delta?
  {
    var b := now.content[x].base;
    (x in h.dbs[m].referrer && h.dbs[m].referrer[x] == b) || (b in now.index && h.evs[m].stamp <= now.index[b])
  }

  ghost predicate DeltasDated(h: History)
    requires WellFormed(h)
  {
    forall x, m {:trigger DeltaDated(h, Now(h), x, m)} | x in Now(h).content && Now(h).content[x].Delta?
      && 0 <= m < |h.evs| ::
      DeltaDated(h, Now(h), x, m)
  }

  ghost predicate AlwaysSafe(c: Codec, dbs: seq<Db>) {
    forall i | 0 <= i < |dbs| :: Safe(c, dbs[i])
  }

  ghost predicate AlwaysDisciplined(h: History) {
    |h.evs| <= |h.dbs| && forall i | 0 <= i < |h.evs| :: Disciplined(h.dbs[i], h.evs[i].writes)
  }

  ghost predicate SafeHistory(c: Codec, h: History) {
    && WellFormed(h)
    && AlwaysSafe(c, h.dbs)
    && AlwaysDisciplined(h)
    && PagesDated(h)
    && DeltasDated(h)
  }

  // ---- One event ----

  /** New page entries restamp their hashes; entries that stay keep theirs. */
  predicate RespectsPages(db: Db, w: Writes) {
    && (forall i | i in w.setPages :: w.setPages[i] in w.stamp)
    && (forall k | k in db.pages && k !in w.clearPages :: db.pages[k] !in w.drop)
  }

  /** Only hashes with content, old or new, are restamped. */
  predicate RespectsIndex(db: Db, w: Writes) {
    && w.setContent.Keys <= w.stamp
    && (forall x | x in w.stamp :: (x in db.index || x in w.setContent) && x !in w.drop)
  }

  ghost predicate RespectsContent(c: Codec, db: Db, w: Writes) {
    && w.setReferrer.Keys <= w.setContent.Keys
    && (forall x {:trigger GoodBlob(c, db, w, x)} | x in w.setContent :: GoodBlob(c, db, w, x))
    && (forall x | x in db.content && db.content[x].Delta? && x !in w.drop :: db.content[x].base !in w.drop)
  }

  /** What an event must respect, in the state it commits on, to keep the history safe. */
  ghost predicate Respects(c: Codec, db: Db, w: Writes) {
    Disciplined(db, w) && RespectsPages(db, w) && RespectsIndex(db, w) && RespectsContent(c, db, w)
  }

  ghost predicate GoodBlob(c: Codec, db: Db, w: Writes, x: Hash)
    requires x in w.setContent
  {
    var b := w.setContent[x];
    if b.Delta? then
      && b.base in db.content && !db.content[b.base].Delta? && b.base in w.stamp
      && x in w.setReferrer && w.setReferrer[x] == b.base
      && HashedPage(c, DecodeWithDelta(c, db.content, b), x)
    else
      HashedPage(c, DecodeNoDelta(c, b), x)
  }

  lemma KeepsPagesIndexed(db: Db, w: Writes, stamp: Version)
    requires PagesIndexed(db) && RespectsPages(db, w)
    requires forall x | x in db.index :: db.index[x] <= stamp
    ensures PagesIndexed(Apply(db, w, stamp))
  {
    var db' := Apply(db, w, stamp);
    forall k | k in db'.pages
      ensures db'.pages[k] in db'.index && k.ver <= db'.index[db'.pages[k]]
    {
      if k.ver == stamp && k.idx in w.setPages {
        assert db'.pages[k] == w.setPages[k.idx];
      } else {
        assert k in db.pages && db'.pages[k] == db.pages[k];
      }
    }
  }

  /** Content that was there and is not dropped stays as it was. */
  lemma ContentKept(db: Db, w: Writes, stamp: Version, x: Hash)
    requires Disciplined(db, w) && x in db.content && x !in w.drop
    ensures x in Apply(db, w, stamp).content && Apply(db, w, stamp).content[x] == db.content[x]
  {
    assert x !in w.setContent;
  }

  lemma KeepsDeltasBased(c: Codec, db: Db, w: Writes, stamp: Version)
    requires DeltasBased(db) && Disciplined(db, w) && RespectsContent(c, db, w)
    ensures DeltasBased(Apply(db, w, stamp))
  {
    var db' := Apply(db, w, stamp);
    forall x | x in db'.content
      ensures DeltaBased(db', x)
    {
      if x in w.setContent {
        assert GoodBlob(c, db, w, x);
      } else {
        assert x in db.content && x !in w.setReferrer && DeltaBased(db, x);
      }
      if db'.content[x].Delta? {
        ContentKept(db, w, stamp, db'.content[x].base);
      }
    }
  }

  lemma KeepsAllDecode(c: Codec, db: Db, w: Writes, stamp: Version)
    requires DeltasBased(db) && AllDecode(c, db) && Disciplined(db, w) && RespectsContent(c, db, w)
    ensures AllDecode(c, Apply(db, w, stamp))
  {
    var db' := Apply(db, w, stamp);
    forall x | x in db'.content
      ensures Decodes(c, db'.content, x)
    {
      if x in w.setContent {
        assert GoodBlob(c, db, w, x);
      } else {
        assert x in db.content && Decodes(c, db.content, x) && DeltaBased(db, x);
      }
      if db'.content[x].Delta? {
        ContentKept(db, w, stamp, db'.content[x].base);
      }
    }
  }

  lemma RespectingEventIsSafe(c: Codec, db: Db, w: Writes, stamp: Version)
    requires Safe(c, db) && Respects(c, db, w)
    requires forall x | x in db.index :: db.index[x] <= stamp
    ensures Safe(c, Apply(db, w, stamp))
  {
    KeepsPagesIndexed(db, w, stamp);
    KeepsDeltasBased(c, db, w, stamp);
    KeepsAllDecode(c, db, w, stamp);
    assert Apply(db, w, stamp).index.Keys == Apply(db, w, stamp).content.Keys;
  }

  lemma StampsBounded(h: History, n: nat)
    requires WellFormed(h) && n < |h.dbs|
    ensures forall x | x in h.dbs[n].index :: h.dbs[n].index[x] <= h.clock
  {
    if n > 0 {
      StampsBounded(h, n - 1);
      assert h.dbs[n] == Apply(h.dbs[n - 1], h.evs[n - 1].writes, h.evs[n - 1].stamp);
    }
  }

  lemma KeepsPagesDated(h: History, e: Event)
    requires WellFormed(h) && NextStamp(h, e.stamp) && PagesDated(h)
    ensures WellFormed(Append(h, e)) && PagesDated(Append(h, e))
  {
    AppendWellFormed(h, e);
    var h' := Append(h, e);
    forall k, m | k in Now(h').pages && 0 <= m < |h'.evs|
      ensures PageDated(h', k, Now(h').pages[k], m)
    {
      assert h'.dbs[m] == h.dbs[m];
      if m < |h.evs| && k in Now(h).pages {
        assert PageDated(h, k, Now(h).pages[k], m) && h'.evs[m] == h.evs[m];
      }
    }
  }

  lemma NewDeltaDated(c: Codec, h: History, e: Event, x: Hash, m: nat)
    requires WellFormed(h) && NextStamp(h, e.stamp) && m <= |h.evs| && Respects(c, Now(h), e.writes)
    requires x in e.writes.setContent && e.writes.setContent[x].Delta?
    ensures var h' := Append(h, e);
      x in Now(h').content && Now(h').content[x].Delta? && DeltaDated(h', Now(h'), x, m)
  {
    assert GoodBlob(c, Now(h), e.writes, x);
    var b := e.writes.setContent[x].base;
    assert b in e.writes.stamp && Apply(Now(h), e.writes, e.stamp).index[b] == e.stamp;
  }

  /** A delta that stays keeps its base, whose entry in the content index only grows. */
  lemma OldDeltaKeepsBase(c: Codec, h: History, e: Event, x: Hash)
    requires WellFormed(h) && NextStamp(h, e.stamp) && Respects(c, Now(h), e.writes)
    requires Now(h).index.Keys == Now(h).content.Keys && DeltasBased(Now(h))
    requires var now' := Apply(Now(h), e.writes, e.stamp);
      x !in e.writes.setContent && x in now'.content && now'.content[x].Delta?
    ensures var now, now' := Now(h), Apply(Now(h), e.writes, e.stamp);
      && x in now.content && now.content[x] == now'.content[x]
      && var b := now.content[x].base; b in now.index && b in now'.index && now.index[b] <= now'.index[b]
  {
    var now := Now(h);
    assert x in now.content && DeltaBased(now, x);
    StampsBounded(h, |h.evs|);
  }

  lemma KeepsDeltaDated(c: Codec, h: History, e: Event, x: Hash, m: nat)
    requires WellFormed(h) && NextStamp(h, e.stamp) && DeltasDated(h)
    requires Now(h).index.Keys == Now(h).content.Keys && DeltasBased(Now(h)) && Respects(c, Now(h), e.writes)
    requires m <= |h.evs|
    requires var now' := Now(Append(h, e)); x in now'.content && now'.content[x].Delta?
    ensures DeltaDated(Append(h, e), Now(Append(h, e)), x, m)
  {
    var h' := Append(h, e);
    assert Now(h') == Apply(Now(h), e.writes, e.stamp) && h'.dbs[m] == h.dbs[m];
    if x in e.writes.setContent {
      NewDeltaDated(c, h, e, x, m);
    } else {
      OldDeltaKeepsBase(c, h, e, x);
      if m < |h.evs| {
        assert DeltaDated(h, Now(h), x, m) && h'.evs[m] == h.evs[m];
      } else {
        assert DeltaBased(Now(h), x);
      }
    }
  }

  lemma KeepsDeltasDated(c: Codec, h: History, e: Event)
    requires WellFormed(h) && NextStamp(h, e.stamp) && DeltasDated(h)
    requires Now(h).index.Keys == Now(h).content.Keys && DeltasBased(Now(h)) && Respects(c, Now(h), e.writes)
    ensures WellFormed(Append(h, e)) && DeltasDated(Append(h, e))
  {
    AppendWellFormed(h, e);
    var h' := Append(h, e);
    forall x, m | x in Now(h').content && Now(h').content[x].Delta? && 0 <= m < |h'.evs|
      ensures DeltaDated(h', Now(h'), x, m)
    {
      KeepsDeltaDated(c, h, e, x, m);
    }
  }

  lemma KeepsAlwaysSafe(c: Codec, dbs: seq<Db>, db: Db)
    requires AlwaysSafe(c, dbs) && Safe(c, db)
    ensures AlwaysSafe(c, dbs + [db])
  {
  }

  lemma KeepsAlwaysDisciplined(h: History, e: Event)
    requires |h.dbs| == |h.evs| + 1 && AlwaysDisciplined(h) && Disciplined(Now(h), e.writes)
    ensures AlwaysDisciplined(Append(h, e))
  {
  }

  lemma RespectingEventKeepsHistory(c: Codec, h: History, e: Event)
    requires SafeHistory(c, h) && NextStamp(h, e.stamp) && Respects(c, Now(h), e.writes)
    ensures SafeHistory(c, Append(h, e))
  {
    KeepsPagesDated(h, e);
    KeepsDeltasDated(c, h, e);
    StampsBounded(h, |h.evs|);
    RespectingEventIsSafe(c, Now(h), e.writes, e.stamp);
    KeepsAlwaysSafe(c, h.dbs, Apply(Now(h), e.writes, e.stamp));
    KeepsAlwaysDisciplined(h, e);
  }
}
