/** The theorems over runs are about something: a valid codec, and a run that stores a given page. */
module Witness {
  import opened Common
  import opened Delta
  import opened Store
  import opened Operations
  import opened Protocol

  /** A request to commit `page` as page 0 of an empty namespace. */
  function FirstCommit(c: Codec, page: Bytes, token: nat): CommitAction {
    var h := c.hash(page);
    CommitOne(
      0, 0, Request(token, true, None, false, false),
      NsCommit(0, false, {}, [WriteReq(page, None)], [(0, h)]),
      NO_READS.(index := {h}), NO_WRITES.(setContent := map[h := Zstd(c.compress(page))], stamp := {h}), 1)
  }

  lemma FirstWriteApplies(c: Codec, page: Bytes, token: nat)
    requires |page| <= MAX_PAGE_SIZE
    ensures var a := FirstCommit(c, page, token); AppliedWrite(c, EMPTY_DB, 0, a.n.pageWrites, a.r, a.w)
  {
    var a, q := FirstCommit(c, page, token), WriteReq(page, None);
    assert ReqHashes(c, a.n.pageWrites) == {c.hash(page)} by { assert q in a.n.pageWrites; }
    assert StoredFor(c, EMPTY_DB, 0, a.n.pageWrites, a.r, a.w, c.hash(page), a.w.setContent[c.hash(page)]);
  }

  lemma FirstCommitEnabled(c: Codec, page: Bytes, token: nat)
    requires |page| <= MAX_PAGE_SIZE && c.occurs(page)
    ensures Enabled(c, INITIAL, Commits(FirstCommit(c, page, token)))
  {
    var a := FirstCommit(c, page, token);
    FirstWriteApplies(c, page, token);
    assert SlowHashes(c, a.n) == {} by {
      assert WriteReq(page, None) in a.n.pageWrites;
    }
    assert PhaseOneOk(c, EMPTY_DB, 0, a.n, a.r, a.w);
    assert PhaseTwoVerdict(EMPTY_DB, a.g, a.n) == Proceed;
  }

  lemma FirstPageReads(w: Writes, h: Hash)
    requires w.setPages == map[0 := h]
    ensures ReadPage(Apply(EMPTY_DB, w, 1).pages, 0, 1) == Some(h)
  {
    assert PageKey(0, 1) in Apply(EMPTY_DB, w, 1).pages;
  }

  lemma FirstCommitWrites(c: Codec, cfg: Config, page: Bytes, token: nat)
    ensures CommitEvent(cfg, FirstCommit(c, page, token)).writes.setPages == map[0 := c.hash(page)]
  {
    var iws := [(0, c.hash(page))];
    assert iws[..0] == [] && IndexMap(iws) == map[0 := c.hash(page)];
  }

  /** What that commit leaves. */
  lemma FirstCommitStores(c: Codec, cfg: Config, page: Bytes, token: nat)
    ensures var s := Next(cfg, INITIAL, Commits(FirstCommit(c, page, token)));
      s.h.dbs != [] && ReadPage(Now(s.h).pages, 0, 1) == Some(c.hash(page))
  {
    FirstCommitWrites(c, cfg, page, token);
    FirstPageReads(CommitEvent(cfg, FirstCommit(c, page, token)).writes, c.hash(page));
  }

  lemma OneStepRun(c: Codec, cfg: Config, a: Action)
    requires Enabled(c, INITIAL, a)
    ensures IsRun(c, cfg, [INITIAL, Next(cfg, INITIAL, a)], [a])
  {
  }

  /** For every page there is a valid codec and a run after which the namespace holds that page. */
  lemma SomeRunStores(cfg: Config, page: Bytes, token: nat)
    returns (c: Codec, states: seq<State>, actions: seq<Action>)
    requires |page| <= MAX_PAGE_SIZE
    ensures ValidCodec(c) && IsRun(c, cfg, states, actions) && |states| == 2 && states[1].h.dbs != []
    ensures ReadPage(Now(states[1].h).pages, 0, 1) == Some(c.hash(page))
  {
    c := CodecFor([page]);
    var a := Commits(FirstCommit(c, page, token));
    FirstCommitEnabled(c, page, token);
    FirstCommitStores(c, cfg, page, token);
    OneStepRun(c, cfg, a);
    states, actions := [INITIAL, Next(cfg, INITIAL, a)], [a];
  }
}
