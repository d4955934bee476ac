/** Changelog entries as bytes, and the interval query over them.
    (mvstore/src/stat.rs, mvstore/src/commit.rs) */
module Changelog {
  import opened Common
  import opened Octets
  import opened Scans
  import opened Store
  import opened Operations
  import opened Versions
  import opened PageInvariants

  const LISTED: Octet := 0
  const INFINITE: Octet := 1

  // ---- Entries ----

  predicate IsPage(p: PageNo) {
    p < Power(4)
  }

  /** The page numbers that consecutive four-byte chunks spell. */
  function Chunks(b: seq<Octet>): seq<PageNo>
    requires |b| % 4 == 0
  {
    if b == [] then [] else [Value(b[..4])] + Chunks(b[4..])
  }

  function ChunkSet(b: seq<Octet>): set<PageNo>
    requires |b| % 4 == 0
  {
    set p | p in Chunks(b)
  }

  lemma ChunkSetStep(b: seq<Octet>)
    requires |b| % 4 == 0 && b != []
    ensures ChunkSet(b) == {Value(b[..4])} + ChunkSet(b[4..])
  {
  }

  function DecodeEntry(b: seq<Octet>): Option<Entry> {
    if b == [] then None
    else if b[0] == LISTED && |b| % 4 == 1 then Some(Listed(ChunkSet(b[1..])))
    else if b[0] == INFINITE then Some(Infinite)
    else None
  }

  lemma {:induction false} ChunksAppend(b: seq<Octet>, p: PageNo)
    requires |b| % 4 == 0 && IsPage(p)
    ensures Chunks(b + BigEndian(p, 4)) == Chunks(b) + [p]
  {
    var x := BigEndian(p, 4);
    if b == [] {
      BigEndianRoundTrip(p, 4);
      assert (b + x)[..4] == x && (b + x)[4..] == [];
    } else {
      assert (b + x)[..4] == b[..4] && (b + x)[4..] == b[4..] + x;
      ChunksAppend(b[4..], p);
    }
  }

  predicate Smaller(a: nat, b: nat) {
    a < b
  }

  /** What a commit writes to the changelog for the pages it wrote, in increasing order. */
  method WriteEntry(cfg: Config, pages: set<PageNo>) returns (b: seq<Octet>)
    requires forall p | p in pages :: IsPage(p)
    ensures DecodeEntry(b) == Some(ChangeEntry(cfg, pages))
    ensures ChangeEntry(cfg, pages).Listed? ==> |b| == 1 + 4 * |pages| && Increasing(Chunks(b[1..]), Smaller)
  {
    if |pages| >= cfg.entryMax { return [INFINITE]; }
    var order := Scan(pages, |pages|, Smaller);
    WholeScan(pages, |pages|, order, Smaller);
    var body := WriteChunks(order);
    b := [LISTED] + body;
    assert b[1..] == body;
    assert ChunkSet(body) == pages;
  }

  method WriteChunks(order: seq<PageNo>) returns (body: seq<Octet>)
    requires forall p | p in order :: IsPage(p)
    ensures |body| == 4 * |order| && Chunks(body) == order
  {
    body := [];
    for i := 0 to |order|
      invariant |body| == 4 * i && Chunks(body) == order[..i]
    {
      assert order[i] in order;
      ChunksAppend(body, order[i]);
      body := body + BigEndian(order[i], 4);
    }
    assert order[..|order|] == order;
  }

  // ---- The interval query ----

  function Window(log: map<Version, seq<Octet>>, from: Version, to: Version): set<Version> {
    set v | v in log && from <= v <= to
  }

  /** The entries strictly after `from`, up to `to`. */
  function Between(log: map<Version, seq<Octet>>, from: Version, to: Version, inclusive: bool): set<Version> {
    set v | v in log && from < v && (v < to || (inclusive && v == to))
  }

  function Listing(b: seq<Octet>): set<PageNo> {
    var e := DecodeEntry(b);
    if e.Some? && e.value.Listed? then e.value.pages else {}
  }

  predicate AllListed(log: map<Version, seq<Octet>>, versions: set<Version>)
    requires versions <= log.Keys
  {
    forall v | v in versions :: DecodeEntry(log[v]).Some? && DecodeEntry(log[v]).value.Listed?
  }

  function Union(log: map<Version, seq<Octet>>, versions: set<Version>): set<PageNo>
    requires versions <= log.Keys
  {
    set v, p | v in versions && p in Listing(log[v]) :: p
  }

  /** The query answers only if both end points are still logged, the scan was not cut off, every entry
      between them lists its pages, and there are not too many pages. */
  function Interval(
      log: map<Version, seq<Octet>>, from: Version, to: Version, inclusive: bool, scanSize: nat,
        maxSize: nat): Option<set<PageNo>>
  {
    var between := Between(log, from, to, inclusive);
    if from == to then Some({})
    else if from > to || from !in log || to !in log then None
    else if |Window(log, from, to)| > scanSize then None
    else if !AllListed(log, between) || |Union(log, between)| > maxSize then None
    else Some(Union(log, between))
  }

  /** `pages` and the chunks of `rest` make up all the pages wanted. */
  predicate ToRead(pages: set<PageNo>, rest: seq<Octet>, all: set<PageNo>)
    requires |rest| % 4 == 0
  {
    pages + ChunkSet(rest) == all
  }

  lemma NextChunk(pages: set<PageNo>, rest: seq<Octet>, all: set<PageNo>)
    requires |rest| % 4 == 0 && rest != [] && ToRead(pages, rest, all)
    ensures var more := pages + {Value(rest[..4])}; ToRead(more, rest[4..], all) && |more| <= |all|
  {
    ChunkSetStep(rest);
    var more := pages + {Value(rest[..4])};
    if more != all { SmallerSubset(more, all); }
  }

  lemma AllRead(pages: set<PageNo>, rest: seq<Octet>, all: set<PageNo>)
    requires rest == [] && ToRead(pages, rest, all)
    ensures pages == all
  {
  }

  /** The loop over one listed entry's chunks. */
  method AddChunks(body: seq<Octet>, sofar: set<PageNo>, maxSize: nat) returns (out: Option<set<PageNo>>)
    requires |body| % 4 == 0 && |sofar| <= maxSize
    ensures var all := sofar + ChunkSet(body); out == if |all| <= maxSize then Some(all) else None
  {
    var rest, pages := body, sofar;
    ghost var all := sofar + ChunkSet(body);
    while rest != []
      invariant |rest| % 4 == 0 && |pages| <= maxSize && ToRead(pages, rest, all)
      decreases |rest|
    {
      NextChunk(pages, rest, all);
      pages := pages + {Value(rest[..4])};
      if |pages| > maxSize { return None; }
      rest := rest[4..];
    }
    AllRead(pages, rest, all);
    return Some(pages);
  }

  /** One entry: header byte, then chunks. */
  method AddEntry(value: seq<Octet>, sofar: set<PageNo>, maxSize: nat) returns (out: Option<set<PageNo>>)
    requires |sofar| <= maxSize
    ensures var e := DecodeEntry(value);
      out == if e.Some? && e.value.Listed? && |sofar + e.value.pages| <= maxSize then Some(sofar + e.value.pages)
        else None
  {
    if |value| < 1 { return None; }
    if value[0] == LISTED {
      if |value[1..]| % 4 != 0 { return None; }
      out := AddChunks(value[1..], sofar, maxSize);
    } else {
      return None;
    }
  }

  function VersionsOf(scan: seq<Version>): set<Version> {
    set v | v in scan
  }

  lemma UnionStep(log: map<Version, seq<Octet>>, scan: seq<Version>)
    requires scan != [] && VersionsOf(scan) <= log.Keys
    ensures VersionsOf(scan) == VersionsOf(scan[..|scan| - 1]) + {scan[|scan| - 1]}
    ensures Union(log, VersionsOf(scan)) == Union(log, VersionsOf(scan[..|scan| - 1])) + Listing(log[scan[|scan| - 1]])
  {
    assert scan == scan[..|scan| - 1] + [scan[|scan| - 1]];
  }

  lemma MoreIsMore(log: map<Version, seq<Octet>>, some: set<Version>, all: set<Version>)
    requires some <= all <= log.Keys
    ensures |Union(log, some)| <= |Union(log, all)|
  {
    assert Union(log, some) <= Union(log, all);
    if Union(log, some) != Union(log, all) { SmallerSubset(Union(log, some), Union(log, all)); }
  }

  /** The loop over the entries of a scan. */
  method AddEntries(log: map<Version, seq<Octet>>, scan: seq<Version>, maxSize: nat) returns (out: Option<set<PageNo>>)
    requires VersionsOf(scan) <= log.Keys
    ensures out == if AllListed(log, VersionsOf(scan)) && |Union(log, VersionsOf(scan))| <= maxSize
                   then Some(Union(log, VersionsOf(scan))) else None
  {
    var sum := {};
    for i := 0 to |scan|
      invariant VersionsOf(scan[..i]) <= log.Keys && AllListed(log, VersionsOf(scan[..i]))
      invariant sum == Union(log, VersionsOf(scan[..i])) && |sum| <= maxSize
    {
      assert scan[..i + 1][..i] == scan[..i];
      assert scan[i] in VersionsOf(scan);
      UnionStep(log, scan[..i + 1]);
      MoreIsMore(log, VersionsOf(scan[..i + 1]), VersionsOf(scan));
      var more := AddEntry(log[scan[i]], sum, maxSize);
      if more.None? { return None; }
      sum := more.value;
    }
    assert scan[..|scan|] == scan;
    return Some(sum);
  }

  /** What the first and last keys of the scan say about the whole range. */
  lemma ScanEnds(log: map<Version, seq<Octet>>, from: Version, to: Version, scanSize: nat, scan: seq<Version>)
    requires from < to && FirstOf(Window(log, from, to), scanSize, scan, Smaller)
    ensures (|scan| >= 2 && scan[0] == from && scan[|scan| - 1] == to) <==>
      (from in log && to in log && |Window(log, from, to)| <= scanSize)
  {
    var keys := Window(log, from, to);
    WholeScan(keys, scanSize, scan, Smaller);
    if from in log && to in log && |keys| <= scanSize {
      assert from in keys && to in keys;
      var i :| 0 <= i < |scan| && scan[i] == from;
      var j :| 0 <= j < |scan| && scan[j] == to;
      assert scan[0] in scan && scan[|scan| - 1] in scan;
    }
    if |scan| >= 2 && scan[0] == from && scan[|scan| - 1] == to {
      assert from in scan && to in scan;
    }
  }

  lemma ScanMiddle(
      log: map<Version, seq<Octet>>, from: Version, to: Version, scanSize: nat, scan: seq<Version>, inclusive: bool)
    requires from < to && FirstOf(Window(log, from, to), scanSize, scan, Smaller)
    requires |scan| >= 2 && scan[0] == from && scan[|scan| - 1] == to
    ensures VersionsOf(scan[1..if inclusive then |scan| else |scan| - 1]) == Between(log, from, to, inclusive)
  {
    var hi := if inclusive then |scan| else |scan| - 1;
    var keys := Window(log, from, to);
    ScanEnds(log, from, to, scanSize, scan);
    WholeScan(keys, scanSize, scan, Smaller);
    forall v ensures v in VersionsOf(scan[1..hi]) <==> v in Between(log, from, to, inclusive) {
      if v in VersionsOf(scan[1..hi]) {
        var i :| 1 <= i < hi && scan[i] == v;
        assert v in scan && v in keys;
      }
      if v in Between(log, from, to, inclusive) {
        assert v in keys;
        var i :| 0 <= i < |scan| && scan[i] == v;
        assert v == scan[1..hi][i - 1];
      }
    }
  }

  method ReadInterval(
      log: map<Version, seq<Octet>>, from: Version, to: Version, inclusive: bool, scanSize: nat, maxSize: nat)
    returns (r: Option<set<PageNo>>)
    ensures r == Interval(log, from, to, inclusive, scanSize, maxSize)
  {
    if from > to { return None; }
    if from == to { return Some({}); }
    var scan := Scan(Window(log, from, to), scanSize, Smaller);
    ScanEnds(log, from, to, scanSize, scan);
    if |scan| < 2 || scan[0] != from || scan[|scan| - 1] != to { return None; }
    ScanMiddle(log, from, to, scanSize, scan, inclusive);
    var hi := if inclusive then |scan| else |scan| - 1;
    r := AddEntries(log, scan[1..hi], maxSize);
  }

  // ---- What an answer means ----

  /** `log` is the byte form of the changelog. */
  predicate Stores(log: map<Version, seq<Octet>>, changelog: map<Version, Entry>) {
    log.Keys == changelog.Keys && forall v | v in log :: DecodeEntry(log[v]) == Some(changelog[v])
  }

  /** The versions of the entries that an interval adds up. */
  function Added(changelog: map<Version, Entry>, from: Version, to: Version, inclusive: bool): set<Version> {
    set v | v in changelog && from < v <= to && (v < to || inclusive)
  }

  function PagesOf(changelog: map<Version, Entry>, versions: set<Version>): set<PageNo> {
    set v, p | v in versions && v in changelog && changelog[v].Listed? && p in changelog[v].pages :: p
  }

  /** An interval of one version is empty; any other is answered exactly if both ends are logged, in order, with not too
      many entries from the one to the other, all those added up list their pages, and these are not too many. */
  lemma IntervalAnswers(
      log: map<Version, seq<Octet>>, changelog: map<Version, Entry>, from: Version, to: Version, inclusive: bool,
      scanSize: nat, maxSize: nat)
    requires Stores(log, changelog)
    ensures from == to ==> Interval(log, from, to, inclusive, scanSize, maxSize) == Some({})
    ensures from != to ==>
      (Interval(log, from, to, inclusive, scanSize, maxSize).Some? <==>
         && from < to && from in changelog && to in changelog
         && |set v | v in changelog && from <= v <= to| <= scanSize
         && (forall v | v in Added(changelog, from, to, inclusive) :: changelog[v].Listed?)
         && |PagesOf(changelog, Added(changelog, from, to, inclusive))| <= maxSize)
    ensures var r := Interval(log, from, to, inclusive, scanSize, maxSize);
      r.Some? && from != to ==> r.value == PagesOf(changelog, Added(changelog, from, to, inclusive))
  {
    var between := Between(log, from, to, inclusive);
    assert Window(log, from, to) == set v | v in changelog && from <= v <= to;
    if from < to {
      assert between == Added(changelog, from, to, inclusive);
      SameUnion(log, changelog, between);
    }
  }

  lemma SameUnion(log: map<Version, seq<Octet>>, changelog: map<Version, Entry>, versions: set<Version>)
    requires Stores(log, changelog) && versions <= log.Keys
    ensures Union(log, versions) == PagesOf(changelog, versions)
    ensures AllListed(log, versions) <==> forall v | v in versions :: changelog[v].Listed?
  {
    forall v | v in versions ensures Listing(log[v]) == if changelog[v].Listed? then changelog[v].pages else {} {
      assert DecodeEntry(log[v]) == Some(changelog[v]);
    }
  }

  /** A page the interval does not list is covered by no entry in it. */
  lemma OutsideInterval(
      log: map<Version, seq<Octet>>, changelog: map<Version, Entry>,
      from: Version, to: Version, inclusive: bool, scanSize: nat, maxSize: nat, p: PageNo, v: Version)
    requires Stores(log, changelog)
    requires var r := Interval(log, from, to, inclusive, scanSize, maxSize); r.Some? && p !in r.value
    requires from < v && (v < to || (inclusive && v == to)) && v in changelog
    ensures !Covers(changelog[v], p)
  {
    var between := Between(log, from, to, inclusive);
    assert v in between;
    assert p !in Listing(log[v]);
  }

  /** A page the interval does not list reads alike at both ends. In the exclusive form the commit at
      the far end is not counted, so it must not have written the page. */
  lemma IntervalSound(
      db: Db, log: map<Version, seq<Octet>>, from: Version, to: Version, inclusive: bool, scanSize: nat,
      maxSize: nat, p: PageNo)
    requires Logged(db) && Stores(log, db.changelog)
    requires var r := Interval(log, from, to, inclusive, scanSize, maxSize); r.Some? && p !in r.value
    requires inclusive || PageKey(p, to) !in db.pages
    ensures ReadPage(db.pages, p, from) == ReadPage(db.pages, p, to)
  {
    if from != to {
      forall v | from < v <= to ensures PageKey(p, v) !in db.pages {
        if PageKey(p, v) in db.pages {
          assert v in db.changelog && Covers(db.changelog[v], p);
          OutsideInterval(log, db.changelog, from, to, inclusive, scanSize, maxSize, p, v);
        }
      }
      LatestAcrossGap(db.pages, p, from, to);
    }
  }
}
