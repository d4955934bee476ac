/** The versions of a page: what truncation, rollback and new commits do to a reverse scan. */
module Versions {
  import opened Common
  import opened Store
  import opened Protocol

  predicate Later(u: Option<Version>, v: Version) {
    u.Some? && v < u.value
  }

  /** `Latest` is determined by its contract. */
  lemma LatestIs(pages: map<PageKey, Hash>, i: PageNo, v: Version, u: Version)
    requires u <= v && PageKey(i, u) in pages && forall x | u < x <= v :: PageKey(i, x) !in pages
    ensures Latest(pages, i, v) == Some(u)
  {
    assert Latest(pages, i, v).Some?;
  }

  lemma LatestNone(pages: map<PageKey, Hash>, i: PageNo, v: Version)
    requires forall x | 0 <= x <= v :: PageKey(i, x) !in pages
    ensures Latest(pages, i, v).None?
  {
  }

  /** A higher read sees at least as late a version. */
  lemma LatestMonotone(pages: map<PageKey, Hash>, i: PageNo, v: Version, w: Version)
    requires v <= w && Latest(pages, i, v).Some?
    ensures Latest(pages, i, w).Some? && Latest(pages, i, v).value <= Latest(pages, i, w).value
  {
  }

  /** Raising the read version past a gap changes nothing. */
  lemma LatestAcrossGap(pages: map<PageKey, Hash>, i: PageNo, v: Version, w: Version)
    requires v <= w && forall x | v < x <= w :: PageKey(i, x) !in pages
    ensures Latest(pages, i, v) == Latest(pages, i, w)
  {
    match Latest(pages, i, v) {
      case Some(u) => LatestIs(pages, i, w, u);
      case None => LatestNone(pages, i, w);
    }
  }

  /** Two indexes that agree on a page up to `v` are read alike at `v`. */
  lemma LatestAgrees(a: map<PageKey, Hash>, b: map<PageKey, Hash>, i: PageNo, v: Version)
    requires forall x | 0 <= x <= v :: PageKey(i, x) in a <==> PageKey(i, x) in b
    ensures Latest(a, i, v) == Latest(b, i, v)
  {
    match Latest(a, i, v) {
      case Some(u) => LatestIs(b, i, v, u);
      case None => LatestNone(b, i, v);
    }
  }

  // ---- Truncation ----

  /** Every doomed key is superseded by a later version at or below `lim`. */
  predicate Superseded(pages: map<PageKey, Hash>, doomed: set<PageKey>, lim: Version) {
    forall k | k in doomed :: Later(Latest(pages, k.idx, lim), k.ver)
  }

  /** Deleting superseded versions changes no read at or above `lim`. */
  lemma TruncationKeepsLatest(pages: map<PageKey, Hash>, doomed: set<PageKey>, lim: Version, i: PageNo, v: Version)
    requires Superseded(pages, doomed, lim) && lim <= v
    ensures Latest(pages - doomed, i, v) == Latest(pages, i, v)
  {
    match Latest(pages, i, v) {
      case None => LatestNone(pages - doomed, i, v);
      case Some(u) =>
        if PageKey(i, u) in doomed {
          LatestMonotone(pages, i, lim, v);
          assert false;
        }
        LatestIs(pages - doomed, i, v, u);
    }
  }

  lemma TruncationKeepsSuperseded(
      pages: map<PageKey, Hash>, mine: set<PageKey>, myLim: Version, doomed: set<PageKey>, lim: Version, bound: Version)
    requires Superseded(pages, mine, myLim) && Superseded(pages, doomed, lim)
    requires myLim <= bound && lim <= bound
    ensures Superseded(pages - doomed, mine, bound)
  {
    forall k | k in mine ensures Later(Latest(pages - doomed, k.idx, bound), k.ver) {
      LatestMonotone(pages, k.idx, myLim, bound);
      TruncationKeepsLatest(pages, doomed, lim, k.idx, bound);
    }
  }

  /** What the scan of one batch selects is superseded within the batch itself. */
  lemma DoomedSuperseded(pages: map<PageKey, Hash>, cursor: Option<PageKey>, batch: seq<PageKey>, before: Version)
    requires Run(pages, cursor, batch)
    ensures Superseded(pages, Doomed(batch, before), before)
  {
    forall k | k in Doomed(batch, before) ensures Later(Latest(pages, k.idx, before), k.ver) {
      var j: nat :| j < |batch| - 1 && IsDoomed(batch, before, j) && k == batch[j];
      var next := batch[j + 1];
      assert Before(k, next) && next in pages && next == PageKey(k.idx, next.ver);
      LatestAtLeast(pages, k.idx, before, next.ver);
    }
  }

  lemma LatestAtLeast(pages: map<PageKey, Hash>, i: PageNo, v: Version, u: Version)
    requires u <= v && PageKey(i, u) in pages
    ensures Latest(pages, i, v).Some? && u <= Latest(pages, i, v).value
  {
  }

  // ---- Rollback ----

  /** Clearing versions above `snapshot` changes no read at or below it. */
  lemma RollbackKeepsLatest(pages: map<PageKey, Hash>, keys: set<PageKey>, snapshot: Version, i: PageNo, v: Version)
    requires forall k | k in keys :: snapshot < k.ver
    requires v <= snapshot
    ensures Latest(pages - keys, i, v) == Latest(pages, i, v)
  {
    LatestAgrees(pages - keys, pages, i, v);
  }

  /** No version of any page lies above `snapshot` and at or below `lim`. */
  predicate Gap(pages: map<PageKey, Hash>, snapshot: Version, lim: Version) {
    forall k | k in pages :: !(snapshot < k.ver <= lim)
  }

  lemma RollbackKeepsSuperseded(
      pages: map<PageKey, Hash>, keys: set<PageKey>, snapshot: Version, doomed: set<PageKey>, lim: Version)
    requires forall k | k in keys :: snapshot < k.ver
    requires Gap(pages, snapshot, lim) && Superseded(pages, doomed, lim)
    ensures Superseded(pages - keys, doomed, lim)
  {
    forall k | k in doomed ensures Later(Latest(pages - keys, k.idx, lim), k.ver) {
      var u := Latest(pages, k.idx, lim).value;
      assert PageKey(k.idx, u) in pages - keys;
      LatestAtLeast(pages - keys, k.idx, lim, u);
    }
  }

  // ---- Commits ----

  /** New entries above `v` change no read at `v`. */
  lemma CommitKeepsLatest(pages: map<PageKey, Hash>, pages': map<PageKey, Hash>, i: PageNo, v: Version)
    requires forall k: PageKey | k.ver <= v :: k in pages <==> k in pages'
    ensures Latest(pages', i, v) == Latest(pages, i, v)
  {
    LatestAgrees(pages', pages, i, v);
  }
}
