/** Decimal fractions: an integer over a power of ten. */
module Ratios {
  import opened Digits

  function Ratio(c: int, f: nat): real {
    c as real / Pow10(f) as real
  }

  function Signed(sign: bool, magnitude: int): int {
    if sign then -magnitude else magnitude
  }

  lemma Cancel(x: real, y: real, k: real)
    requires y != 0.0 && k != 0.0
    ensures y * k != 0.0 && (x * k) / (y * k) == x / y
  {
    var q := x / y;
    assert x == q * y;
    assert (y * k) != 0.0;
    assert x * k == q * (y * k);
  }

  lemma CastProduct(a: int, b: int)
    ensures (a * b) as real == a as real * b as real
  {
  }

  lemma RatioScale(c: int, f: nat, k: nat)
    ensures Ratio(c * Pow10(k), f + k) == Ratio(c, f)
  {
    var x, y := Pow10(f), Pow10(k);
    Pow10Adds(f, k);
    CastProduct(c, y);
    CastProduct(x, y);
    Cancel(c as real, x as real, y as real);
  }

  lemma Quotients(x: real, y: real, u: real, v: real)
    requires y != 0.0 && v != 0.0
    ensures y * v != 0.0 && (x / y) * (u / v) == (x * u) / (y * v)
  {
    var p, q := x / y, u / v;
    assert x == p * y && u == q * v;
    assert y * v != 0.0;
    assert x * u == (p * q) * (y * v);
  }

  lemma RatioMul(c: int, f: nat, d: int, g: nat)
    ensures Ratio(c, f) * Ratio(d, g) == Ratio(c * d, f + g)
  {
    Pow10Adds(f, g);
    CastProduct(c, d);
    CastProduct(Pow10(f), Pow10(g));
    Quotients(c as real, Pow10(f) as real, d as real, Pow10(g) as real);
  }

  lemma RatioAdd(c: int, d: int, f: nat)
    ensures Ratio(c, f) + Ratio(d, f) == Ratio(c + d, f)
  {
    var p := Pow10(f) as real;
    assert c as real / p + d as real / p == (c as real + d as real) / p;
  }

  lemma RatioOrder(c: int, d: int, f: nat)
    ensures Ratio(c, f) < Ratio(d, f) <==> c < d
    ensures Ratio(c, f) == Ratio(d, f) <==> c == d
  {
    var p := Pow10(f) as real;
    assert Ratio(c, f) * p == c as real && Ratio(d, f) * p == d as real;
    if c < d {
      assert c as real / p < d as real / p;
    } else if d < c {
      assert d as real / p < c as real / p;
    }
  }
}
