/** Schoolbook multiplication on digit arrays. (mvsqlite-pgtypes-ext/decimal.c) */
module Multiply {
  import opened Digits

  /** The carry into place `k`, weighed. */
  function Carried(acc: seq<int>, k: int, carry: int): int
    requires -1 <= k < |acc|
  {
    Num(acc) + carry * Pow10(|acc| - 1 - k)
  }

  lemma CarryIdentity(n: int, n': int, cell: int, add: int, carry: int, lo: int, hi: int, w: int, w10: int)
    requires n' == n + (lo - cell) * w && w10 == 10 * w && 10 * hi + lo == cell + add + carry
    ensures n' + hi * w10 == n + carry * w + add * w
  {
    assert hi * (10 * w) == (10 * hi) * w;
    assert (lo - cell) * w + (10 * hi) * w == (lo - cell + 10 * hi) * w;
    assert (add + carry) * w == add * w + carry * w;
  }

  /** One cell: what is added at place `k` is kept there and in the carry. */
  lemma CarryStep(acc: seq<int>, k: nat, add: int, carry: int, lo: int, hi: int, w: int)
    requires k < |acc| && 10 * hi + lo == acc[k] + add + carry && w == Pow10(|acc| - 1 - k)
    ensures Carried(acc[k := lo], k - 1, hi) == Carried(acc, k, carry) + add * w
  {
    NumUpdate(acc, k, lo);
    CarryIdentity(Num(acc), Num(acc[k := lo]), acc[k], add, carry, lo, hi, w, Pow10(|acc| - k));
  }

  lemma RowIdentity(f: int, d: int, q: int, r: int, p: int, w: int, add: int)
    requires w == q * p && add == f * d
    ensures f * (d * q + r) * p == f * r * p + add * w
  {
    assert f * (d * q + r) == f * (d * q) + f * r;
    assert (f * (d * q)) * p == (f * d) * (q * p);
  }

  /** The next digit of the multiplier's row. */
  lemma RowStep(f: int, b: seq<int>, j: nat, p: int, w: int, add: int)
    requires j < |b| && w == Pow10(|b| - 1 - j) * p && add == f * b[j]
    ensures f * Num(b[j..]) * p == f * Num(b[j + 1..]) * p + add * w
  {
    NumCons(b[j..]);
    assert b[j..][1..] == b[j + 1..];
    RowIdentity(f, b[j], Pow10(|b| - 1 - j), Num(b[j + 1..]), p, w, add);
  }

  /** `acc` and the carry into place `k` hold what was there, and `f` times the digits of `b` from `j` on. */
  ghost predicate RowDone(acc: seq<int>, was: seq<int>, f: int, b: seq<int>, j: nat, k: int, carry: int, p: int)
    requires j <= |b| && -1 <= k < |acc|
  {
    Carried(acc, k, carry) == Num(was) + f * Num(b[j..]) * p
  }

  lemma RowAdvances(
      acc: seq<int>, was: seq<int>, f: int, b: seq<int>, j: nat, k: nat, carry: int, p: int, add: int, lo: int,
      hi: int, w: int)
    requires j < |b| && k < |acc| && RowDone(acc, was, f, b, j + 1, k, carry, p)
    requires w == Pow10(|acc| - 1 - k) == Pow10(|b| - 1 - j) * p
    requires add == f * b[j] && 10 * hi + lo == acc[k] + add + carry
    ensures RowDone(acc[k := lo], was, f, b, j, k - 1, hi, p)
  {
    CarryStep(acc, k, add, carry, lo, hi, w);
    RowStep(f, b, j, p, w, add);
  }

  lemma CellBounds(cell: int, f: int, d: int, carry: int)
    requires 0 <= cell <= 9 && 0 <= f <= 9 && 0 <= d <= 9 && 0 <= carry <= 9
    ensures var x := cell + f * d + carry; 0 <= x % 10 <= 9 && 0 <= x / 10 <= 9
  {
    assert 0 <= f * d <= 81;
  }

  /** Adds `f` times the digits of `b` into `acc`, at the place of digit `i` of a factor of `nA` digits. */
  method AddRow(acc: array<int>, f: int, b: array<int>, nB: nat, i: nat, nA: nat)
    requires acc != b && nB <= b.Length && i < nA && acc.Length == nA + nB + 2
    requires 0 <= f <= 9 && AllDigits(b[..nB]) && AllDigits(acc[..])
    requires forall k | 0 <= k <= i + 1 :: acc[k] == 0
    modifies acc
    ensures AllDigits(acc[..]) && forall k | 0 <= k <= i :: acc[k] == 0
    ensures RowAdded(acc[..], old(acc[..]), f, b[..nB], Pow10(nA - 1 - i))
  {
    ghost var was := acc[..];
    var carry := AddDigits(acc, f, b, nB, i, nA);
    ghost var cells := acc[..];
    var x := acc[i + 2] + carry;
    acc[i + 2] := x % 10;
    acc[i + 1] := acc[i + 1] + x / 10;
    assert acc[..] == cells[i + 2 := x % 10][i + 1 := x / 10];
    LastCarry(cells, was, f, b[..nB], i + 2, carry, Pow10(nA - 1 - i), x % 10, x / 10);
  }

  /** `now` is `was` and `f` times `b`, at weight `p`. */
  ghost predicate RowAdded(now: seq<int>, was: seq<int>, f: int, b: seq<int>, p: int) {
    Num(now) == Num(was) + f * Num(b) * p
  }

  lemma LastCarry(cells: seq<int>, was: seq<int>, f: int, b: seq<int>, k: nat, carry: int, p: int, lo: int, hi: int)
    requires 0 < k < |cells| && RowDone(cells, was, f, b, 0, k, carry, p) && cells[k - 1] == 0
    requires 10 * hi + lo == cells[k] + carry
    ensures RowAdded(cells[k := lo][k - 1 := hi], was, f, b, p)
  {
    CarryStep(cells, k, 0, carry, lo, hi, Pow10(|cells| - 1 - k));
    NumUpdate(cells[k := lo], k - 1, hi);
    assert b[0..] == b;
  }

  /** The inner loop, whose last carry goes to cell `i + 2`. */
  method AddDigits(acc: array<int>, f: int, b: array<int>, nB: nat, i: nat, nA: nat) returns (carry: int)
    requires acc != b && nB <= b.Length && i < nA && acc.Length == nA + nB + 2
    requires 0 <= f <= 9 && AllDigits(b[..nB]) && AllDigits(acc[..])
    requires forall k | 0 <= k <= i + 1 :: acc[k] == 0
    modifies acc
    ensures 0 <= carry <= 9 && AllDigits(acc[..]) && forall k | 0 <= k <= i + 1 :: acc[k] == 0
    ensures RowDone(acc[..], old(acc[..]), f, b[..nB], 0, i + 2, carry, Pow10(nA - 1 - i))
  {
    ghost var was, p := acc[..], Pow10(nA - 1 - i);
    var j, k := nB - 1, i + nB + 2;
    carry := 0;
    assert b[..nB][nB..] == [];
    while j >= 0
      invariant -1 <= j < nB && k == i + j + 3 && 0 <= carry <= 9 && AllDigits(acc[..])
      invariant forall m | 0 <= m <= i + 1 :: acc[m] == 0
      invariant RowDone(acc[..], was, f, b[..nB], j + 1, k, carry, p)
      decreases j
    {
      ghost var cells := acc[..];
      var x := acc[k] + f * b[j] + carry;
      CellBounds(acc[k], f, b[j], carry);
      Pow10Adds(nB - 1 - j, nA - 1 - i);
      RowAdvances(cells, was, f, b[..nB], j, k, carry, p, f * b[j], x % 10, x / 10, Pow10(acc.Length - 1 - k));
      acc[k] := x % 10;
      assert acc[..] == cells[k := x % 10];
      carry := x / 10;
      j, k := j - 1, k - 1;
    }
  }

  lemma ProductIdentity(d: int, q: int, r: int, m: int, was: int, now: int, whole: int)
    requires was == r * m && now == was + d * m * q && whole == d * q + r
    ensures now == whole * m
  {
    assert (d * q + r) * m == (d * q) * m + r * m;
    assert (d * q) * m == d * m * q;
  }

  /** `acc` is the digits of `a` from `i` on, times `b`. */
  ghost predicate PartProduct(acc: seq<int>, a: seq<int>, b: seq<int>, i: nat)
    requires i <= |a|
  {
    Num(acc) == Num(a[i..]) * Num(b)
  }

  lemma ProductAdvances(was: seq<int>, now: seq<int>, a: seq<int>, b: seq<int>, i: nat)
    requires i < |a| && PartProduct(was, a, b, i + 1) && RowAdded(now, was, a[i], b, Pow10(|a| - 1 - i))
    ensures PartProduct(now, a, b, i)
  {
    NumCons(a[i..]);
    assert a[i..][1..] == a[i + 1..];
    ProductIdentity(a[i], Pow10(|a| - 1 - i), Num(a[i + 1..]), Num(b), Num(was), Num(now), Num(a[i..]));
  }

  lemma NoProduct(acc: seq<int>, a: seq<int>, b: seq<int>)
    requires forall k | 0 <= k < |acc| :: acc[k] == 0
    ensures PartProduct(acc, a, b, |a|)
  {
    NumZeros(acc);
  }

  ghost predicate IsProductOf(acc: seq<int>, a: seq<int>, b: seq<int>) {
    Num(acc) == Num(a) * Num(b)
  }

  lemma WholeProduct(acc: seq<int>, a: seq<int>, b: seq<int>)
    requires PartProduct(acc, a, b, 0)
    ensures IsProductOf(acc, a, b)
  {
    assert a[0..] == a;
  }

  /** The product of two digit arrays, which may be one and the same, with two spare cells in front. */
  method Product(a: array<int>, nA: nat, b: array<int>, nB: nat) returns (acc: array<int>)
    requires nA <= a.Length && nB <= b.Length && AllDigits(a[..nA]) && AllDigits(b[..nB])
    ensures fresh(acc) && acc.Length == nA + nB + 2 && AllDigits(acc[..])
    ensures IsProductOf(acc[..], a[..nA], b[..nB])
  {
    ghost var left, right := a[..nA], b[..nB];
    acc := new int[nA + nB + 2](_ => 0);
    NoProduct(acc[..], left, right);
    var i := nA;
    while i > 0
      invariant i <= nA && fresh(acc) && a[..nA] == left && b[..nB] == right
      invariant acc.Length == nA + nB + 2 && AllDigits(acc[..]) && forall k | 0 <= k <= i :: acc[k] == 0
      invariant PartProduct(acc[..], left, right, i)
    {
      i := i - 1;
      ghost var was := acc[..];
      assert left[i] == a[i];
      AddRow(acc, a[i], b, nB, i, nA);
      ProductAdvances(was, acc[..], left, right, i);
    }
    WholeProduct(acc[..], left, right);
  }
}
