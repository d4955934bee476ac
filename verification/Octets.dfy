/** Fixed-width big-endian numbers and the lexicographic order of byte strings. */
module Octets {

  type Octet = x: nat | x < 0x100

  function Power(n: nat): (r: nat)
    ensures r >= 1
  {
    if n == 0 then 1 else 0x100 * Power(n - 1)
  }

  /** The number `v` in `n` bytes, most significant byte first. */
  function BigEndian(v: nat, n: nat): (b: seq<Octet>)
    requires v < Power(n)
    ensures |b| == n
  {
    if n == 0 then [] else BigEndian(v / 0x100, n - 1) + [v % 0x100]
  }

  function Value(b: seq<Octet>): (v: nat)
    ensures v < Power(|b|)
  {
    if b == [] then 0 else Value(b[..|b| - 1]) * 0x100 + b[|b| - 1]
  }

  lemma {:induction false} BigEndianRoundTrip(v: nat, n: nat)
    requires v < Power(n)
    ensures Value(BigEndian(v, n)) == v
  {
    if n > 0 {
      BigEndianRoundTrip(v / 0x100, n - 1);
      var b := BigEndian(v, n);
      assert b[..|b| - 1] == BigEndian(v / 0x100, n - 1);
    }
  }

  /** `a` sorts strictly before `b`: at the first difference, or because it is a proper prefix. */
  predicate LexLess(a: seq<Octet>, b: seq<Octet>) {
    b != [] && (a == [] || a[0] < b[0] || (a[0] == b[0] && LexLess(a[1..], b[1..])))
  }

  lemma {:induction false} LexLessAppend(a: seq<Octet>, b: seq<Octet>, x: seq<Octet>, y: seq<Octet>)
    requires |a| == |b|
    ensures LexLess(a + x, b + y) <==> LexLess(a, b) || (a == b && LexLess(x, y))
  {
    if a == [] {
      assert a + x == x && b + y == y;
    } else {
      assert (a + x)[1..] == a[1..] + x && (b + y)[1..] == b[1..] + y;
      LexLessAppend(a[1..], b[1..], x, y);
      assert a == b <==> a[0] == b[0] && a[1..] == b[1..];
    }
  }

  lemma LexLessIrreflexive(a: seq<Octet>)
    ensures !LexLess(a, a)
  {
  }

  /** Byte order on fixed-width numbers is numeric order. */
  lemma {:induction false} BigEndianOrder(v: nat, w: nat, n: nat)
    requires v < Power(n) && w < Power(n)
    ensures LexLess(BigEndian(v, n), BigEndian(w, n)) <==> v < w
    ensures BigEndian(v, n) == BigEndian(w, n) <==> v == w
  {
    BigEndianRoundTrip(v, n);
    BigEndianRoundTrip(w, n);
    if n > 0 {
      BigEndianOrder(v / 0x100, w / 0x100, n - 1);
      LexLessAppend(BigEndian(v / 0x100, n - 1), BigEndian(w / 0x100, n - 1), [v % 0x100], [w % 0x100]);
      OneOctetOrder(v % 0x100, w % 0x100);
    }
  }

  lemma OneOctetOrder(x: Octet, y: Octet)
    ensures LexLess([x], [y]) <==> x < y
  {
    assert x == y ==> !LexLess([x][1..], [y][1..]);
  }
}
