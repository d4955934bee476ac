/** `apply_write`, step by step, against the transaction that `AppliedWrite` describes.
    (mvstore/src/write.rs) */
module ApplyWrite {
  import opened Common
  import opened Delta
  import opened Store
  import opened Operations
  import opened ContentSafety

  /** Requests with the same hash as the one before them are dropped. */
  function Deduped(c: Codec, reqs: seq<WriteReq>): seq<WriteReq> {
    if |reqs| <= 1 then reqs
    else
      var n := |reqs| - 1;
      if c.hash(reqs[n].data) == c.hash(reqs[n - 1].data) then Deduped(c, reqs[..n])
        else Deduped(c, reqs[..n]) + [reqs[n]]
  }

  lemma {:induction false} DedupedKeepsHashes(c: Codec, reqs: seq<WriteReq>)
    ensures forall q | q in Deduped(c, reqs) :: q in reqs
    ensures ReqHashes(c, Deduped(c, reqs)) == ReqHashes(c, reqs)
  {
    if |reqs| > 1 {
      var n := |reqs| - 1;
      var rest := reqs[..n];
      DedupedKeepsHashes(c, rest);
      assert reqs == rest + [reqs[n]] && reqs[n - 1] == rest[n - 1];
      AddedHash(c, rest, reqs[n]);
      AddedHash(c, Deduped(c, rest), reqs[n]);
      assert c.hash(rest[n - 1].data) in ReqHashes(c, rest);
    }
  }

  lemma AddedHash(c: Codec, reqs: seq<WriteReq>, q: WriteReq)
    ensures ReqHashes(c, reqs + [q]) == ReqHashes(c, reqs) + {c.hash(q.data)}
  {
  }

  method Dedup(c: Codec, reqs: seq<WriteReq>) returns (out: seq<WriteReq>)
    ensures out == Deduped(c, reqs)
  {
    out := [];
    for i := 0 to |reqs|
      invariant out == Deduped(c, reqs[..i])
    {
      assert reqs[..i + 1][..i] == reqs[..i];
      if i == 0 || c.hash(reqs[i].data) != c.hash(reqs[i - 1].data) {
        out := out + [reqs[i]];
      }
    }
    assert reqs[..|reqs|] == reqs;
  }

  /** The transaction under construction. */
  datatype Txn = Txn(r: Reads, w: Writes)

  const NEW_TXN := Txn(NO_READS, NO_WRITES)

  // ---- Delta encoding ----

  predicate Indexed(c: Codec, db: Db, q: WriteReq) {
    c.hash(q.data) in db.index
  }

  /** A lookup of the delta base leaves a read conflict; a successful encoding stores the delta, names its
      base and restamps it. */
  function LookedUp(db: Db, rv: Version, q: WriteReq, x: Txn): Txn {
    if q.deltaBase.None? then x
    else x.(r := x.r.(pages := x.r.pages + {PageReadRange(db.pages, q.deltaBase.value, rv)}))
  }

  function StoredAsDelta(h: Hash, base: Hash, blob: Blob, x: Txn): Txn {
    x.(w := x.w.(setContent := x.w.setContent[h := blob], setReferrer := x.w.setReferrer[h := base],
      stamp := x.w.stamp + {base}))
  }

  /** What holds of the transaction from the delta-encoding loop on. */
  predicate Writing(c: Codec, db: Db, rv: Version, reqs: seq<WriteReq>, x: Txn) {
    && x.r == NO_READS.(index := ReqHashes(c, reqs), pages := x.r.pages)
    && x.w == NO_WRITES.(setContent := x.w.setContent, setReferrer := x.w.setReferrer, stamp := x.w.stamp)
    && x.w.setReferrer.Keys <= x.w.setContent.Keys <= ReqHashes(c, reqs) - db.index.Keys
    && (forall h | h in x.w.setContent :: StoredFor(c, db, rv, reqs, x.r, x.w, h, x.w.setContent[h]))
    && (forall h | h in x.w.setReferrer :: x.w.setReferrer[h] in x.w.stamp)
    && (forall h | h in x.w.stamp && h !in ReqHashes(c, reqs) :: BaseFor(c, db, rv, reqs, x.r, h))
  }

  lemma StoredForStill(c: Codec, db: Db, rv: Version, reqs: seq<WriteReq>, x: Txn, y: Txn, h: Hash, blob: Blob)
    requires StoredFor(c, db, rv, reqs, x.r, x.w, h, blob) && x.r.pages <= y.r.pages
    requires h in x.w.setReferrer ==> h in y.w.setReferrer && y.w.setReferrer[h] == x.w.setReferrer[h]
    ensures StoredFor(c, db, rv, reqs, y.r, y.w, h, blob)
  {
    var q :| q in reqs && c.hash(q.data) == h &&
      if blob.Delta? then EncodedAs(c, db, rv, x.r, q, blob.base, blob) && h in x.w.setReferrer
        && x.w.setReferrer[h] == blob.base
      else blob == Zstd(c.compress(q.data));
    if blob.Delta? { assert EncodedAs(c, db, rv, y.r, q, blob.base, blob); }
  }

  lemma BaseForStill(c: Codec, db: Db, rv: Version, reqs: seq<WriteReq>, x: Txn, y: Txn, h: Hash)
    requires BaseFor(c, db, rv, reqs, x.r, h) && x.r.pages <= y.r.pages
    ensures BaseFor(c, db, rv, reqs, y.r, h)
  {
  }

  lemma LookupKeeps(c: Codec, db: Db, rv: Version, reqs: seq<WriteReq>, q: WriteReq, x: Txn)
    requires Writing(c, db, rv, reqs, x)
    ensures Writing(c, db, rv, reqs, LookedUp(db, rv, q, x))
  {
    var y := LookedUp(db, rv, q, x);
    forall h | h in y.w.setContent ensures StoredFor(c, db, rv, reqs, y.r, y.w, h, y.w.setContent[h]) {
      StoredForStill(c, db, rv, reqs, x, y, h, y.w.setContent[h]);
    }
    forall h | h in y.w.stamp && h !in ReqHashes(c, reqs) ensures BaseFor(c, db, rv, reqs, y.r, h) {
      BaseForStill(c, db, rv, reqs, x, y, h);
    }
  }

  lemma DeltaKeeps(c: Codec, db: Db, rv: Version, reqs: seq<WriteReq>, q: WriteReq, x: Txn)
    requires Writing(c, db, rv, reqs, x) && q in reqs && !Indexed(c, db, q) && EncodeReq(c, db, rv, q).Encoded?
    requires q.deltaBase.Some? && PageReadRange(db.pages, q.deltaBase.value, rv) in x.r.pages
    ensures var e := EncodeReq(c, db, rv, q); Writing(c, db, rv, reqs, StoredAsDelta(c.hash(q.data), e.base, e.blob, x))
  {
    var e, h := EncodeReq(c, db, rv, q), c.hash(q.data);
    var y := StoredAsDelta(h, e.base, e.blob, x);
    assert EncodedAs(c, db, rv, y.r, q, e.base, e.blob);
    EncodedIsDelta(c, db, rv, q);
    forall k | k in y.w.setContent ensures StoredFor(c, db, rv, reqs, y.r, y.w, k, y.w.setContent[k]) {
      if k != h { StoredForStill(c, db, rv, reqs, x, y, k, y.w.setContent[k]); }
    }
    assert BaseFor(c, db, rv, reqs, y.r, e.base);
  }

  lemma EncodedIsDelta(c: Codec, db: Db, rv: Version, q: WriteReq)
    requires EncodeReq(c, db, rv, q).Encoded?
    ensures EncodeReq(c, db, rv, q).blob.Delta? && EncodeReq(c, db, rv, q).blob.base == EncodeReq(c, db, rv, q).base
  {
  }

  /** The writes of the last loop, for one request. */
  function Finished(c: Codec, q: WriteReq, full: bool, x: Txn): Txn {
    var h := c.hash(q.data);
    var w := if full then x.w.(setContent := x.w.setContent[h := Zstd(c.compress(q.data))]) else x.w;
    x.(w := w.(stamp := w.stamp + {h}))
  }

  lemma FinishKeeps(c: Codec, db: Db, rv: Version, reqs: seq<WriteReq>, q: WriteReq, full: bool, x: Txn)
    requires Writing(c, db, rv, reqs, x) && q in reqs && (full ==> !Indexed(c, db, q))
    ensures Writing(c, db, rv, reqs, Finished(c, q, full, x))
  {
    var y, h := Finished(c, q, full, x), c.hash(q.data);
    forall k | k in y.w.setContent ensures StoredFor(c, db, rv, reqs, y.r, y.w, k, y.w.setContent[k]) {
      if !(full && k == h) { StoredForStill(c, db, rv, reqs, x, y, k, y.w.setContent[k]); }
    }
    forall k | k in y.w.stamp && k !in ReqHashes(c, reqs) ensures BaseFor(c, db, rv, reqs, y.r, k) {
      BaseForStill(c, db, rv, reqs, x, y, k);
    }
  }

  // ---- The whole operation ----

  predicate TooLarge(reqs: seq<WriteReq>) {
    exists q | q in reqs :: |q.data| > MAX_PAGE_SIZE
  }

  /** A request whose data must be stored, but whose delta base does not decode. */
  predicate BrokenBase(c: Codec, db: Db, rv: Version, reqs: seq<WriteReq>) {
    exists q | q in reqs :: !Indexed(c, db, q) && EncodeReq(c, db, rv, q) == Broken
  }

  predicate EncodedHere(c: Codec, db: Db, rv: Version, q: WriteReq) {
    !Indexed(c, db, q) && EncodeReq(c, db, rv, q).Encoded?
  }

  /** No other request has the same hash. */
  predicate Single(c: Codec, ctx: seq<WriteReq>, q: WriteReq) {
    forall o | o in ctx && c.hash(o.data) == c.hash(q.data) :: o == q
  }

  /** After the encoding loop, less the requests in `left`: a page is there exactly if it was encoded, and so. */
  predicate EncodedSo(
      c: Codec, db: Db, rv: Version, left: set<WriteReq>, content: map<Hash, Blob>, q: WriteReq) {
    var h, e := c.hash(q.data), EncodeReq(c, db, rv, q);
    if EncodedHere(c, db, rv, q) && q !in left then h in content && content[h] == e.blob else h !in content
  }

  /** The delta-encoding loop. Requests complete in no particular order. */
  method EncodeDeltas(c: Codec, db: Db, rv: Version, ctx: seq<WriteReq>) returns (x: Option<Txn>)
    ensures x.None? <==> BrokenBase(c, db, rv, ctx)
    ensures x.Some? ==> Writing(c, db, rv, ctx, x.value)
    ensures x.Some? ==> forall q | q in ctx && EncodedHere(c, db, rv, q) :: c.hash(q.data) in x.value.w.setContent
    ensures x.Some? ==> forall q | q in ctx && Single(c, ctx, q) :: EncodedSo(c, db, rv, {}, x.value.w.setContent, q)
  {
    var y := NEW_TXN.(r := NO_READS.(index := ReqHashes(c, ctx)));
    var left := set q | q in ctx && !Indexed(c, db, q);
    ghost var all := left;
    while left != {}
      invariant left <= all && Writing(c, db, rv, ctx, y)
      invariant forall q | q in all && q !in left :: EncodeReq(c, db, rv, q) != Broken
      invariant forall q | q in all && q !in left && EncodeReq(c, db, rv, q).Encoded? ::
        c.hash(q.data) in y.w.setContent
      invariant forall q | q in ctx && Single(c, ctx, q) :: EncodedSo(c, db, rv, left, y.w.setContent, q)
      decreases |left|
    {
      var q :| q in left;
      EncodedSoStep(c, db, rv, ctx, left, y.w.setContent, q);
      left := left - {q};
      LookupKeeps(c, db, rv, ctx, q, y);
      y := LookedUp(db, rv, q, y);
      match EncodeReq(c, db, rv, q) {
        case Broken => return None;
        case Skip =>
        case Encoded(base, blob) =>
          DeltaKeeps(c, db, rv, ctx, q, y);
          y := StoredAsDelta(c.hash(q.data), base, blob, y);
      }
    }
    return Some(y);
  }

  lemma EncodedSoStep(
      c: Codec, db: Db, rv: Version, ctx: seq<WriteReq>, left: set<WriteReq>, content: map<Hash, Blob>, q: WriteReq)
    requires q in left && q in ctx
    requires forall o | o in ctx && Single(c, ctx, o) :: EncodedSo(c, db, rv, left, content, o)
    ensures var e := EncodeReq(c, db, rv, q);
      var next := if EncodedHere(c, db, rv, q) then content[c.hash(q.data) := e.blob] else content;
      forall o | o in ctx && Single(c, ctx, o) :: EncodedSo(c, db, rv, left - {q}, next, o)
  {
  }

  /** The hash is restamped, and has content or is about to. */
  predicate Stored(c: Codec, db: Db, q: WriteReq, x: Txn) {
    c.hash(q.data) in x.w.stamp && (Indexed(c, db, q) || c.hash(q.data) in x.w.setContent)
  }

  /** In the end a single page that was not indexed is there as it was encoded, or else in full. */
  predicate StoredSo(c: Codec, db: Db, rv: Version, content: map<Hash, Blob>, q: WriteReq) {
    var h, e := c.hash(q.data), EncodeReq(c, db, rv, q);
    if Indexed(c, db, q) then h !in content
    else h in content && content[h] == if e.Encoded? then e.blob else Zstd(c.compress(q.data))
  }

  /** Halfway: the pages finished, and those still to come. */
  predicate SoFar(c: Codec, db: Db, rv: Version, ctx: seq<WriteReq>, i: nat, content: map<Hash, Blob>)
    requires i <= |ctx|
  {
    && (forall j | 0 <= j < i && Single(c, ctx, ctx[j]) :: StoredSo(c, db, rv, content, ctx[j]))
    && (forall j | i <= j < |ctx| && Single(c, ctx, ctx[j]) ::
          ctx[j] in ctx[..i] || EncodedSo(c, db, rv, {}, content, ctx[j]))
  }

  lemma SoFarStep(c: Codec, db: Db, rv: Version, ctx: seq<WriteReq>, i: nat, content: map<Hash, Blob>)
    requires i < |ctx| && SoFar(c, db, rv, ctx, i, content)
    ensures var q := ctx[i];
      var full := !Indexed(c, db, q) && !EncodeReq(c, db, rv, q).Encoded?;
      SoFar(c, db, rv, ctx, i + 1, if full then content[c.hash(q.data) := Zstd(c.compress(q.data))] else content)
  {
    var q := ctx[i];
    var full := !Indexed(c, db, q) && !EncodeReq(c, db, rv, q).Encoded?;
    var next := if full then content[c.hash(q.data) := Zstd(c.compress(q.data))] else content;
    forall j | 0 <= j < i + 1 && Single(c, ctx, ctx[j]) ensures StoredSo(c, db, rv, next, ctx[j]) {
      if ctx[j] == q { FinishedSo(c, db, rv, ctx, i, content); } else { OtherSo(c, ctx, j, i); }
    }
    forall j | i + 1 <= j < |ctx| && Single(c, ctx, ctx[j])
      ensures ctx[j] in ctx[..i + 1] || EncodedSo(c, db, rv, {}, next, ctx[j])
    {
      if ctx[j] == q {
        assert ctx[..i + 1][i] == q;
      } else {
        OtherSo(c, ctx, j, i);
        assert ctx[j] in ctx[..i] ==> ctx[j] in ctx[..i + 1];
      }
    }
  }

  lemma SoFarStart(c: Codec, db: Db, rv: Version, ctx: seq<WriteReq>, content: map<Hash, Blob>)
    requires forall q | q in ctx && Single(c, ctx, q) :: EncodedSo(c, db, rv, {}, content, q)
    ensures SoFar(c, db, rv, ctx, 0, content)
  {
  }

  lemma SoFarEnd(c: Codec, db: Db, rv: Version, ctx: seq<WriteReq>, content: map<Hash, Blob>)
    requires SoFar(c, db, rv, ctx, |ctx|, content)
    ensures forall q | q in ctx && Single(c, ctx, q) :: StoredSo(c, db, rv, content, q)
  {
  }

  lemma OtherSo(c: Codec, ctx: seq<WriteReq>, j: nat, i: nat)
    requires i < |ctx| && j < |ctx| && Single(c, ctx, ctx[j]) && ctx[j] != ctx[i]
    ensures c.hash(ctx[j].data) != c.hash(ctx[i].data)
  {
  }

  lemma FinishedSo(c: Codec, db: Db, rv: Version, ctx: seq<WriteReq>, i: nat, content: map<Hash, Blob>)
    requires i < |ctx| && SoFar(c, db, rv, ctx, i, content) && Single(c, ctx, ctx[i])
    ensures var q := ctx[i];
      var full := !Indexed(c, db, q) && !EncodeReq(c, db, rv, q).Encoded?;
      StoredSo(c, db, rv, if full then content[c.hash(q.data) := Zstd(c.compress(q.data))] else content, q)
  {
    if ctx[i] in ctx[..i] {
      var j :| 0 <= j < i && ctx[..i][j] == ctx[i];
      assert ctx[j] == ctx[i] && StoredSo(c, db, rv, content, ctx[j]);
    } else {
      assert EncodedSo(c, db, rv, {}, content, ctx[i]);
    }
  }

  /** The last loop after `i` requests. */
  predicate FinishedTo(c: Codec, db: Db, rv: Version, ctx: seq<WriteReq>, i: nat, x: Txn, y: Txn)
    requires i <= |ctx|
  {
    && Writing(c, db, rv, ctx, y) && x.w.setContent.Keys <= y.w.setContent.Keys
    && SoFar(c, db, rv, ctx, i, y.w.setContent) && StoredTo(c, db, ctx, i, y)
  }

  predicate StoredTo(c: Codec, db: Db, ctx: seq<WriteReq>, i: nat, y: Txn)
    requires i <= |ctx|
  {
    forall j | 0 <= j < i :: Stored(c, db, ctx[j], y)
  }

  lemma StoredStep(c: Codec, db: Db, ctx: seq<WriteReq>, i: nat, full: bool, y: Txn)
    requires i < |ctx| && StoredTo(c, db, ctx, i, y)
    requires full || Indexed(c, db, ctx[i]) || c.hash(ctx[i].data) in y.w.setContent
    ensures StoredTo(c, db, ctx, i + 1, Finished(c, ctx[i], full, y))
  {
  }

  method FinishOne(c: Codec, db: Db, rv: Version, ctx: seq<WriteReq>, i: nat, ghost x: Txn, y: Txn) returns (z: Txn)
    requires i < |ctx| && FinishedTo(c, db, rv, ctx, i, x, y)
    requires EncodedHere(c, db, rv, ctx[i]) ==> c.hash(ctx[i].data) in x.w.setContent
    ensures FinishedTo(c, db, rv, ctx, i + 1, x, z)
  {
    var early := Indexed(c, db, ctx[i]) || EncodeReq(c, db, rv, ctx[i]).Encoded?;
    FinishKeeps(c, db, rv, ctx, ctx[i], !early, y);
    SoFarStep(c, db, rv, ctx, i, y.w.setContent);
    StoredStep(c, db, ctx, i, !early, y);
    z := Finished(c, ctx[i], !early, y);
  }

  /** The last loop: full pages for what is neither stored yet nor encoded, and a restamp for all. */
  method Finish(c: Codec, db: Db, rv: Version, ctx: seq<WriteReq>, x: Txn) returns (y: Txn)
    requires Writing(c, db, rv, ctx, x)
    requires forall q | q in ctx && EncodedHere(c, db, rv, q) :: c.hash(q.data) in x.w.setContent
    requires forall q | q in ctx && Single(c, ctx, q) :: EncodedSo(c, db, rv, {}, x.w.setContent, q)
    ensures Writing(c, db, rv, ctx, y)
    ensures forall q | q in ctx :: Stored(c, db, q, y)
    ensures forall q | q in ctx && Single(c, ctx, q) :: StoredSo(c, db, rv, y.w.setContent, q)
  {
    y := x;
    SoFarStart(c, db, rv, ctx, x.w.setContent);
    for i := 0 to |ctx|
      invariant FinishedTo(c, db, rv, ctx, i, x, y)
    {
      y := FinishOne(c, db, rv, ctx, i, x, y);
    }
    SoFarEnd(c, db, rv, ctx, y.w.setContent);
    AllStored(c, db, ctx, y);
  }

  lemma AllStored(c: Codec, db: Db, ctx: seq<WriteReq>, y: Txn)
    requires forall j | 0 <= j < |ctx| :: Stored(c, db, ctx[j], y)
    ensures forall q | q in ctx :: Stored(c, db, q, y)
  {
  }

  lemma CompleteIsApplied(c: Codec, db: Db, rv: Version, reqs: seq<WriteReq>, ctx: seq<WriteReq>, x: Txn)
    requires !TooLarge(reqs) && Writing(c, db, rv, ctx, x) && ReqHashes(c, ctx) == ReqHashes(c, reqs)
    requires forall q | q in ctx :: q in reqs
    requires forall q | q in ctx :: Stored(c, db, q, x)
    ensures AppliedWrite(c, db, rv, reqs, x.r, x.w)
  {
    forall h | h in x.w.setContent ensures StoredFor(c, db, rv, reqs, x.r, x.w, h, x.w.setContent[h]) {
      StoredForMore(c, db, rv, ctx, reqs, x, h, x.w.setContent[h]);
    }
    forall h | h in x.w.stamp && h !in ReqHashes(c, reqs) ensures BaseFor(c, db, rv, reqs, x.r, h) {
      assert BaseFor(c, db, rv, ctx, x.r, h);
    }
  }

  lemma StoredForMore(
      c: Codec, db: Db, rv: Version, ctx: seq<WriteReq>, reqs: seq<WriteReq>, x: Txn, h: Hash, blob: Blob)
    requires StoredFor(c, db, rv, ctx, x.r, x.w, h, blob) && forall q | q in ctx :: q in reqs
    ensures StoredFor(c, db, rv, reqs, x.r, x.w, h, blob)
  {
  }

  /** Builds exactly the transaction that the protocol's write and commit steps take, and refuses only a page
      that is too large or a delta base that does not decode. */
  method ApplyWrites(c: Codec, db: Db, rv: Version, reqs: seq<WriteReq>) returns (x: Option<Txn>)
    ensures x.None? <==> TooLarge(reqs) || BrokenBase(c, db, rv, Deduped(c, reqs))
    ensures x.Some? ==> AppliedWrite(c, db, rv, reqs, x.value.r, x.value.w)
    ensures x.Some? ==>
      forall q | q in Deduped(c, reqs) && Single(c, Deduped(c, reqs), q) :: StoredSo(c, db, rv, x.value.w.setContent, q)
  {
    for i := 0 to |reqs|
      invariant forall j | 0 <= j < i :: |reqs[j].data| <= MAX_PAGE_SIZE
    {
      if |reqs[i].data| > MAX_PAGE_SIZE { return None; }
    }
    var ctx := Dedup(c, reqs);
    DedupedKeepsHashes(c, reqs);
    x := EncodeDeltas(c, db, rv, ctx);
    if x.Some? {
      var y := Finish(c, db, rv, ctx, x.value);
      CompleteIsApplied(c, db, rv, reqs, ctx, y);
      x := Some(y);
    }
  }

  /** In a store that is safe, every delta base decodes: only the size limit refuses a write. */
  lemma BaseNeverBroken(c: Codec, db: Db, rv: Version, reqs: seq<WriteReq>)
    requires Safe(c, db)
    ensures !BrokenBase(c, db, rv, reqs)
  {
    forall q | q in reqs ensures EncodeReq(c, db, rv, q) != Broken {
      if q.deltaBase.Some? && ReadPage(db.pages, q.deltaBase.value, rv).Some? {
        DecodableBase(c, db, ReadPage(db.pages, q.deltaBase.value, rv).value, q.data);
      }
    }
  }

  lemma DecodableBase(c: Codec, db: Db, h: Hash, page: Bytes)
    requires DeltasBased(db) && AllDecode(c, db)
    ensures DeltaEncode(c, db.content, h, page) != Broken
  {
    if h in db.content {
      assert DeltaBased(db, h) && Decodes(c, db.content, h);
      var first := db.content[h];
      if first.Delta? { assert Decodes(c, db.content, first.base); }
    }
  }
}
