/** Page encodings: plain, compressed, or a compressed XOR against a base page.
    (mvstore/src/delta/writer.rs, mvstore/src/delta/reader.rs, mvstore/src/page.rs) */
module Delta {
  import opened Common

  const MAX_PAGE_SIZE: nat := 32768

  /** A stored content value, split by its first byte. `Empty` is the zero-length value, `ShortDelta` a
      delta too short to name its base, and `Unknown` every value with another tag. */
  datatype Blob =
    | Plain(data: Bytes)
    | Zstd(z: Bytes)
    | Delta(base: Hash, z: Bytes)
    | Empty
    | ShortDelta
    | Unknown

  /** The content hash and the compressor, as abstract functions, and the pages that ever occur. */
  datatype Codec = Codec(
    hash: Bytes -> Hash,
    compress: Bytes -> Bytes,
    decompress: Bytes -> Option<Bytes>,
    occurs: Bytes -> bool)

  /** No two pages that occur have one hash, and none is hashed to all ones; decompression inverts
      compression on data within the size limit. */
  ghost predicate ValidCodec(c: Codec) {
    && (forall x, y | c.occurs(x) && c.occurs(y) && c.hash(x) == c.hash(y) :: x == y)
    && (forall x :: c.hash(x) < MAX_HASH)
    && (forall d: Bytes | |d| <= MAX_PAGE_SIZE :: c.decompress(c.compress(d)) == Some(d))
  }

  function IndexOf(pages: seq<Bytes>, b: Bytes): (i: nat)
    ensures i <= |pages| && (b in pages <==> i < |pages|) && (i < |pages| ==> pages[i] == b)
  {
    if pages == [] || pages[0] == b then 0 else 1 + IndexOf(pages[1..], b)
  }

  /** Any list of pages, up to the number of hashes there are, is what occurs under some valid codec. */
  lemma CodecFor(pages: seq<Bytes>) returns (c: Codec)
    requires |pages| < MAX_HASH
    ensures ValidCodec(c) && forall b :: c.occurs(b) <==> b in pages
  {
    c := Codec(b => IndexOf(pages, b), b => b, b => Some(b), b => b in pages);
    forall x, y | c.occurs(x) && c.occurs(y) && c.hash(x) == c.hash(y) ensures x == y {
      assert pages[IndexOf(pages, x)] == x && pages[IndexOf(pages, y)] == y;
    }
  }

  function Xor(a: Bytes, b: Bytes): (x: Bytes)
    requires |a| == |b|
    ensures |x| == |a|
  {
    seq(|a|, i requires 0 <= i < |a| => a[i] ^ b[i])
  }

  lemma XorCancels(a: Bytes, b: Bytes)
    requires |a| == |b|
    ensures Xor(Xor(a, b), a) == b
  {
    forall i | 0 <= i < |a| ensures Xor(Xor(a, b), a)[i] == b[i] {
      assert (a[i] ^ b[i]) ^ a[i] == b[i];
    }
  }

  function DecodeNoDelta(c: Codec, blob: Blob): Option<Bytes> {
    match blob
    case Empty => Some([])
    case Plain(data) => Some(data)
    case Zstd(z) => c.decompress(z)
    case Delta(_, _) => None
    case ShortDelta => None
    case Unknown => None
  }

  function DecodeWithDelta(c: Codec, content: map<Hash, Blob>, blob: Blob): Option<Bytes> {
    if !blob.Delta? then
      DecodeNoDelta(c, blob)
    else if blob.base !in content then
      None
    else
      var basePage := DecodeNoDelta(c, content[blob.base]);
      var image := c.decompress(blob.z);
      if basePage.None? || image.None? || |image.value| != |basePage.value| then
        None
      else
        Some(Xor(image.value, basePage.value))
  }

  /** The decoder's XOR loop, on the buffer it returns. */
  method XorInPlace(image: array<bv8>, basePage: Bytes)
    requires image.Length == |basePage|
    modifies image
    ensures image[..] == Xor(old(image[..]), basePage)
  {
    ghost var was := image[..];
    for i := 0 to image.Length
      invariant forall j | 0 <= j < i :: image[j] == Xor(was, basePage)[j]
      invariant forall j | i <= j < image.Length :: image[j] == was[j]
    {
      image[i] := image[i] ^ basePage[i];
    }
  }

  function DiffCount(a: Bytes, b: Bytes): nat
    requires |a| == |b|
  {
    if a == [] then 0
    else (if a[0] != b[0] then 1 else 0) + DiffCount(a[1..], b[1..])
  }

  /** `Broken` is an error that fails the whole write; `Skip` falls back to a full page. */
  datatype Encoding = Broken | Skip | Encoded(base: Hash, blob: Blob)

  /** `delta_encode` after the base page's hash has been looked up. */
  function DeltaEncode(c: Codec, content: map<Hash, Blob>, baseHash: Hash, page: Bytes): Encoding {
    if baseHash !in content || content[baseHash].Empty? || content[baseHash].ShortDelta? then
      Skip
    else
      var first := content[baseHash];
      // Flatten the link: a delta page is replaced by its own base.
      var target := if first.Delta? then first.base else baseHash;
      if target !in content then
        Skip
      else
        match DecodeNoDelta(c, content[target])
        case None => Broken
        case Some(basePage) =>
          if |basePage| != |page| || page == [] then Skip
          else if DiffCount(basePage, page) >= |page| / 5 then Skip
          else
            var z := c.compress(Xor(basePage, page));
            if |z| >= |page| / 3 then Skip else Encoded(target, Delta(target, z))
  }

  /** When a page is stored as a delta against the page `base`, which is what `target` decodes to: exactly if they are
      of one size, fewer than a fifth of the bytes differ, and the compressed difference is shorter than a third. */
  lemma DeltaExactly(c: Codec, content: map<Hash, Blob>, baseHash: Hash, page: Bytes, target: Hash, base: Bytes)
    requires baseHash in content && !content[baseHash].Empty? && !content[baseHash].ShortDelta?
    requires target == (if content[baseHash].Delta? then content[baseHash].base else baseHash)
    requires target in content && DecodeNoDelta(c, content[target]) == Some(base)
    ensures |base| != |page| || page == [] ==> DeltaEncode(c, content, baseHash, page) == Skip
    ensures |base| == |page| && page != [] ==>
      var image := seq(|page|, i requires 0 <= i < |page| => base[i] ^ page[i]);
      if |Differing(base, page)| < |page| / 5 && |c.compress(image)| < |page| / 3 then
        DeltaEncode(c, content, baseHash, page) == Encoded(target, Delta(target, c.compress(image)))
      else DeltaEncode(c, content, baseHash, page) == Skip
  {
    if |base| == |page| {
      DiffCountIs(base, page);
      assert Xor(base, page) == seq(|page|, i requires 0 <= i < |page| => base[i] ^ page[i]);
    }
  }

  function Differing(a: Bytes, b: Bytes): set<nat> {
    set i: nat | i < |a| && i < |b| && a[i] != b[i]
  }

  lemma {:induction false} DiffCountIs(a: Bytes, b: Bytes)
    requires |a| == |b|
    ensures DiffCount(a, b) == |Differing(a, b)|
  {
    if a == [] {
      assert Differing(a, b) == {};
    } else {
      var rest := Differing(a[1..], b[1..]);
      DiffCountIs(a[1..], b[1..]);
      ShiftedSize(rest);
      forall i: nat | i in Differing(a, b) && i > 0 ensures i in Shifted(rest) {
        assert i - 1 in rest;
      }
      assert Differing(a, b) == Shifted(rest) + if a[0] != b[0] then {0} else {};
    }
  }

  function Shifted(s: set<nat>): set<nat> {
    set i | i in s :: i + 1
  }

  lemma {:induction false} ShiftedSize(s: set<nat>)
    ensures |Shifted(s)| == |s|
  {
    if s == {} {
      assert Shifted(s) == {};
    } else {
      var x :| x in s;
      ShiftedSize(s - {x});
      forall i | i in Shifted(s) ensures i in Shifted(s - {x}) + {x + 1} {
        assert i - 1 in s;
        if i != x + 1 { assert i - 1 in s - {x}; }
      }
      forall i | i in Shifted(s - {x}) + {x + 1} ensures i in Shifted(s) {
        assert i - 1 in s;
      }
      assert Shifted(s) == Shifted(s - {x}) + {x + 1};
      assert x + 1 !in Shifted(s - {x});
    }
  }

  /** What was decoded is the page whose hash is `h`. */
  predicate HashedPage(c: Codec, decoded: Option<Bytes>, h: Hash) {
    decoded.Some? && |decoded.value| <= MAX_PAGE_SIZE && c.occurs(decoded.value) && c.hash(decoded.value) == h
  }

  /** The blob stored under `h` decodes to the page whose hash is `h`. */
  predicate Decodes(c: Codec, content: map<Hash, Blob>, h: Hash)
    requires h in content
  {
    HashedPage(c, DecodeWithDelta(c, content, content[h]), h)
  }

  /** A delta produced against one store decodes in any other store in which its base is still a
      non-delta page that decodes: the two base pages have one hash, so are one page. */
  lemma EncodedDeltaDecodes(
      c: Codec, was: map<Hash, Blob>, now: map<Hash, Blob>, baseHash: Hash, page: Bytes)
    requires ValidCodec(c) && |page| <= MAX_PAGE_SIZE
    requires DeltaEncode(c, was, baseHash, page).Encoded?
    requires var e := DeltaEncode(c, was, baseHash, page);
      && e.base in was && Decodes(c, was, e.base)
      && e.base in now && !now[e.base].Delta? && Decodes(c, now, e.base)
    ensures var e := DeltaEncode(c, was, baseHash, page);
      DecodeWithDelta(c, now, e.blob) == Some(page)
  {
    var e := DeltaEncode(c, was, baseHash, page);
    var before := DecodeNoDelta(c, was[e.base]).value;
    var after := DecodeNoDelta(c, now[e.base]).value;
    assert c.hash(before) == c.hash(after) == e.base;
    var image := Xor(before, page);
    assert c.decompress(c.compress(image)) == Some(image);
    XorCancels(before, page);
  }
}
