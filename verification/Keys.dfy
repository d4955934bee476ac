/** Byte keys of the raw data of a namespace, and the logical order they carry.
    (mvstore/src/keys.rs, mvstore/src/util.rs, mvstore/src/delta/reader.rs) */
module Keys {
  import opened Common
  import opened Octets
  import opened Store
  import opened Versions

  const INDEX_BYTES := 4
  const VERSION_BYTES := 10
  const HASH_BYTES := 32

  /** What a key of the raw data stands for. */
  datatype Item =
    | Content(hash: Hash)
    | ContentIndex(hash: Hash)
    | ChangelogAt(ver: Version)
    | PageAt(key: PageKey)
    | Referrer(hash: Hash)
    | LastWriteVersion

  predicate Fits(k: Item) {
    match k
    case Content(h) => h < Power(HASH_BYTES)
    case ContentIndex(h) => h < Power(HASH_BYTES)
    case ChangelogAt(v) => v < Power(VERSION_BYTES)
    case PageAt(p) => p.idx < Power(INDEX_BYTES) && p.ver < Power(VERSION_BYTES)
    case Referrer(h) => h < Power(HASH_BYTES)
    case LastWriteVersion => true
  }

  /** The letters c, d, l, p, r and v. */
  function Letter(k: Item): Octet {
    match k
    case Content(_) => 0x63
    case ContentIndex(_) => 0x64
    case ChangelogAt(_) => 0x6c
    case PageAt(_) => 0x70
    case Referrer(_) => 0x72
    case LastWriteVersion => 0x76
  }

  function Suffix(k: Item): seq<Octet>
    requires Fits(k)
  {
    match k
    case Content(h) => BigEndian(h, HASH_BYTES)
    case ContentIndex(h) => BigEndian(h, HASH_BYTES)
    case ChangelogAt(v) => BigEndian(v, VERSION_BYTES)
    case PageAt(p) => BigEndian(p.idx, INDEX_BYTES) + BigEndian(p.ver, VERSION_BYTES)
    case Referrer(h) => BigEndian(h, HASH_BYTES)
    case LastWriteVersion => []
  }

  /** `prefix` is the store's prefix, `ns` the ten-byte namespace id. */
  function Key(prefix: seq<Octet>, ns: seq<Octet>, k: Item): seq<Octet>
    requires Fits(k)
  {
    prefix + (ns + ([Letter(k)] + Suffix(k)))
  }

  lemma LexLessCons(x: Octet, y: Octet, a: seq<Octet>, b: seq<Octet>)
    ensures LexLess([x] + a, [y] + b) <==> x < y || (x == y && LexLess(a, b))
  {
    assert ([x] + a)[1..] == a && ([y] + b)[1..] == b;
  }

  /** Within a namespace the letter decides first, then the suffix. */
  lemma SameNamespaceOrder(prefix: seq<Octet>, ns: seq<Octet>, a: Item, b: Item)
    requires Fits(a) && Fits(b)
    ensures LexLess(Key(prefix, ns, a), Key(prefix, ns, b)) <==>
      Letter(a) < Letter(b) || (Letter(a) == Letter(b) && LexLess(Suffix(a), Suffix(b)))
  {
    var x, y := [Letter(a)] + Suffix(a), [Letter(b)] + Suffix(b);
    LexLessAppend(prefix, prefix, ns + x, ns + y);
    LexLessIrreflexive(prefix);
    LexLessAppend(ns, ns, x, y);
    LexLessIrreflexive(ns);
    LexLessCons(Letter(a), Letter(b), Suffix(a), Suffix(b));
  }

  /** Namespaces do not interleave: the namespace id decides before anything else. */
  lemma NamespaceOrder(prefix: seq<Octet>, ns: seq<Octet>, ns': seq<Octet>, a: Item, b: Item)
    requires Fits(a) && Fits(b) && |ns| == |ns'| && ns != ns'
    ensures LexLess(Key(prefix, ns, a), Key(prefix, ns', b)) <==> LexLess(ns, ns')
  {
    var x, y := [Letter(a)] + Suffix(a), [Letter(b)] + Suffix(b);
    LexLessAppend(prefix, prefix, ns + x, ns' + y);
    LexLessIrreflexive(prefix);
    LexLessAppend(ns, ns', x, y);
  }

  lemma PageSuffixOrder(a: PageKey, b: PageKey)
    requires Fits(PageAt(a)) && Fits(PageAt(b))
    ensures LexLess(Suffix(PageAt(a)), Suffix(PageAt(b))) <==> Before(a, b)
  {
    BigEndianOrder(a.idx, b.idx, INDEX_BYTES);
    BigEndianOrder(a.ver, b.ver, VERSION_BYTES);
    LexLessAppend(BigEndian(a.idx, INDEX_BYTES), BigEndian(b.idx, INDEX_BYTES), BigEndian(a.ver, VERSION_BYTES),
      BigEndian(b.ver, VERSION_BYTES));
  }

  /** Byte order on page keys is order on page index and then version. */
  lemma PageKeyOrder(prefix: seq<Octet>, ns: seq<Octet>, a: PageKey, b: PageKey)
    requires Fits(PageAt(a)) && Fits(PageAt(b))
    ensures LexLess(Key(prefix, ns, PageAt(a)), Key(prefix, ns, PageAt(b))) <==> Before(a, b)
  {
    SameNamespaceOrder(prefix, ns, PageAt(a), PageAt(b));
    PageSuffixOrder(a, b);
  }

  /** Byte order on changelog keys is version order. */
  lemma ChangelogKeyOrder(prefix: seq<Octet>, ns: seq<Octet>, v: Version, w: Version)
    requires Fits(ChangelogAt(v)) && Fits(ChangelogAt(w))
    ensures LexLess(Key(prefix, ns, ChangelogAt(v)), Key(prefix, ns, ChangelogAt(w))) <==> v < w
  {
    SameNamespaceOrder(prefix, ns, ChangelogAt(v), ChangelogAt(w));
    BigEndianOrder(v, w, VERSION_BYTES);
  }

  // ---- Ranges ----

  predicate AtMost(a: seq<Octet>, b: seq<Octet>) {
    !LexLess(b, a)
  }

  /** Of all the keys of a namespace, exactly the versions of page `i` up to `v` lie between the two ends
      of the reader's scan. */
  lemma PageRange(prefix: seq<Octet>, ns: seq<Octet>, i: PageNo, v: Version, k: Item)
    requires Fits(PageAt(PageKey(i, v))) && Fits(k)
    ensures
      AtMost(Key(prefix, ns, PageAt(PageKey(i, 0))), Key(prefix, ns, k)) &&
      AtMost(Key(prefix, ns, k), Key(prefix, ns, PageAt(PageKey(i, v)))) <==>
        k.PageAt? && k.key.idx == i && k.key.ver <= v
  {
    SameNamespaceOrder(prefix, ns, k, PageAt(PageKey(i, 0)));
    SameNamespaceOrder(prefix, ns, PageAt(PageKey(i, v)), k);
    if k.PageAt? {
      PageSuffixOrder(k.key, PageKey(i, 0));
      PageSuffixOrder(PageKey(i, v), k.key);
    }
  }

  /** `k` is the last key of the scan: what a reverse read with limit 1 returns. */
  ghost predicate LastInRange(prefix: seq<Octet>, ns: seq<Octet>, items: set<Item>, i: PageNo, v: Version, k: Item)
    requires Fits(PageAt(PageKey(i, v))) && forall x | x in items :: Fits(x)
  {
    var low, high := Key(prefix, ns, PageAt(PageKey(i, 0))), Key(prefix, ns, PageAt(PageKey(i, v)));
    && k in items && AtMost(low, Key(prefix, ns, k)) && AtMost(Key(prefix, ns, k), high)
    && forall x | x in items && AtMost(low, Key(prefix, ns, x)) && AtMost(Key(prefix, ns, x), high) ::
         AtMost(Key(prefix, ns, x), Key(prefix, ns, k))
  }

  /** It is the greatest stored version of the page at or below the one asked for. */
  lemma ReverseScanIsLatest(
      prefix: seq<Octet>, ns: seq<Octet>, pages: map<PageKey, Hash>, items: set<Item>, i: PageNo, v: Version, k: Item)
    requires Fits(PageAt(PageKey(i, v))) && (forall x | x in items :: Fits(x))
    requires (forall p :: p in pages <==> PageAt(p) in items)
    requires LastInRange(prefix, ns, items, i, v, k)
    ensures k.PageAt? && k.key.idx == i && Latest(pages, i, v) == Some(k.key.ver)
  {
    PageRange(prefix, ns, i, v, k);
    assert PageKey(i, k.key.ver) == k.key;
    forall u | k.key.ver < u <= v ensures PageKey(i, u) !in pages {
      if PageKey(i, u) in pages {
        var x := PageAt(PageKey(i, u));
        assert x in items;
        PageRange(prefix, ns, i, v, x);
        PageKeyOrder(prefix, ns, k.key, x.key);
        assert false;
      }
    }
    LatestIs(pages, i, v, k.key.ver);
  }

  /** And an empty scan means there is none. */
  lemma EmptyScanIsNone(
      prefix: seq<Octet>, ns: seq<Octet>, pages: map<PageKey, Hash>, items: set<Item>, i: PageNo, v: Version)
    requires Fits(PageAt(PageKey(i, v))) && (forall x | x in items :: Fits(x))
    requires (forall p :: p in pages <==> PageAt(p) in items)
    requires forall k :: !LastInRange(prefix, ns, items, i, v, k)
    ensures Latest(pages, i, v).None?
  {
    var found := Latest(pages, i, v);
    if found.Some? {
      var k := PageAt(PageKey(i, found.value));
      assert k in items;
      PageRange(prefix, ns, i, v, k);
      var low, high := Key(prefix, ns, PageAt(PageKey(i, 0))), Key(prefix, ns, PageAt(PageKey(i, v)));
      forall x | x in items && AtMost(low, Key(prefix, ns, x)) && AtMost(Key(prefix, ns, x), high)
        ensures AtMost(Key(prefix, ns, x), Key(prefix, ns, k))
      {
        PageRange(prefix, ns, i, v, x);
        assert PageKey(i, x.key.ver) == x.key && x.key in pages;
        PageKeyOrder(prefix, ns, k.key, x.key);
      }
      assert LastInRange(prefix, ns, items, i, v, k);
    }
  }

  // ---- Single keys and suffixes ----

  /** The conflict range from a key to the key with a zero byte appended holds that key alone; and a scan
      that continues from there misses nothing after the key. */
  lemma {:induction false} NextKey(a: seq<Octet>, x: seq<Octet>)
    ensures AtMost(a, x) && LexLess(x, a + [0]) <==> x == a
    ensures AtMost(a + [0], x) <==> LexLess(a, x)
  {
    if a != [] && x != [] {
      assert (a + [0])[1..] == a[1..] + [0];
      NextKey(a[1..], x[1..]);
      assert x == a <==> x[0] == a[0] && x[1..] == a[1..];
    } else if a == [] && x != [] {
      assert a + [0] == [0] && [0][1..] == [];
    }
  }

  function LastTen(b: seq<Octet>): seq<Octet>
    requires |b| >= VERSION_BYTES
  {
    b[|b| - VERSION_BYTES..]
  }

  function ButLastTen(b: seq<Octet>): seq<Octet>
    requires |b| >= VERSION_BYTES
  {
    b[..|b| - VERSION_BYTES]
  }

  /** The suffix of a page key is its version; without it, two keys agree exactly if they are of one page. */
  lemma PageKeyParts(prefix: seq<Octet>, ns: seq<Octet>, a: PageKey, b: PageKey)
    requires Fits(PageAt(a)) && Fits(PageAt(b))
    ensures Value(LastTen(Key(prefix, ns, PageAt(a)))) == a.ver
    ensures ButLastTen(Key(prefix, ns, PageAt(a))) == ButLastTen(Key(prefix, ns, PageAt(b))) <==> a.idx == b.idx
  {
    var head := prefix + ns + [Letter(PageAt(a))];
    PagePieces(prefix, ns, a);
    PagePieces(prefix, ns, b);
    BigEndianRoundTrip(a.ver, VERSION_BYTES);
    BigEndianOrder(a.idx, b.idx, INDEX_BYTES);
    var x, y := head + BigEndian(a.idx, INDEX_BYTES), head + BigEndian(b.idx, INDEX_BYTES);
    assert x[|head|..] == BigEndian(a.idx, INDEX_BYTES) && y[|head|..] == BigEndian(b.idx, INDEX_BYTES);
  }

  lemma PagePieces(prefix: seq<Octet>, ns: seq<Octet>, a: PageKey)
    requires Fits(PageAt(a))
    ensures |Key(prefix, ns, PageAt(a))| >= VERSION_BYTES
    ensures LastTen(Key(prefix, ns, PageAt(a))) == BigEndian(a.ver, VERSION_BYTES)
    ensures ButLastTen(Key(prefix, ns, PageAt(a))) == prefix + ns + [Letter(PageAt(a))] + BigEndian(a.idx, INDEX_BYTES)
  {
  }
}
