/** Carry and borrow loops on digit arrays. (mvsqlite-pgtypes-ext/decimal.c) */
module Addition {
  import opened Digits

  /** The digits from `i` on, with a carry of weight one place above them. */
  function Tail(s: seq<int>, i: nat, carry: int): int
    requires i <= |s|
  {
    Num(s[i..]) + carry * Pow10(|s| - i)
  }

  lemma TailIdentity(hi: int, lo: int, carry: int, x: int, w: int, w10: int, rest: int, target: int)
    requires 10 * hi + lo == x + carry && w10 == 10 * w && rest + carry * w == target
    ensures lo * w + rest + hi * w10 == x * w + target
  {
    assert hi * (10 * w) == (10 * hi) * w;
    assert (10 * hi + lo) * w == (10 * hi) * w + lo * w;
    assert (x + carry) * w == x * w + carry * w;
  }

  /** One place of a sum: `lo` stays, `hi` goes up. Also one place of a difference, with negative carries. */
  lemma TailStep(s: seq<int>, i: nat, lo: int, hi: int, carry: int, x: int, target: int)
    requires i < |s| && 10 * hi + lo == x + carry && Tail(s, i + 1, carry) == target
    ensures Tail(s[i := lo], i, hi) == x * Pow10(|s| - 1 - i) + target
  {
    var t := s[i := lo];
    NumCons(t[i..]);
    assert t[i..][1..] == s[i + 1..];
    TailIdentity(hi, lo, carry, x, Pow10(|s| - 1 - i), Pow10(|s| - i), Num(s[i + 1..]), target);
  }

  lemma SumTails(a: seq<int>, b: seq<int>, i: nat, w: int)
    requires i < |a| == |b| && w == Pow10(|a| - 1 - i)
    ensures Num(a[i..]) + Num(b[i..]) == (a[i] + b[i]) * w + (Num(a[i + 1..]) + Num(b[i + 1..]))
    ensures Num(a[i..]) - Num(b[i..]) == (a[i] - b[i]) * w + (Num(a[i + 1..]) - Num(b[i + 1..]))
  {
    NumCons(a[i..]);
    NumCons(b[i..]);
    assert a[i..][1..] == a[i + 1..] && b[i..][1..] == b[i + 1..];
    Distribute(a[i], b[i], w);
  }

  lemma Distribute(x: int, y: int, w: int)
    ensures (x + y) * w == x * w + y * w && (x - y) * w == x * w - y * w
  {
  }

  /** From place `i` on, `cells` and the carry hold the sum, or the difference. */
  predicate SumDone(cells: seq<int>, x: seq<int>, y: seq<int>, i: nat, carry: int)
    requires i <= |cells| == |x| == |y|
  {
    Tail(cells, i, carry) == Num(x[i..]) + Num(y[i..])
  }

  predicate DifferenceDone(cells: seq<int>, x: seq<int>, y: seq<int>, i: nat, borrow: int)
    requires i <= |cells| == |x| == |y|
  {
    Tail(cells, i, -borrow) == Num(x[i..]) - Num(y[i..])
  }

  lemma SumPlace(cells: seq<int>, x: seq<int>, y: seq<int>, i: nat, lo: int, hi: int, carry: int)
    requires i < |cells| == |x| == |y| && 10 * hi + lo == x[i] + y[i] + carry && SumDone(cells, x, y, i + 1, carry)
    ensures SumDone(cells[i := lo], x, y, i, hi)
  {
    TailStep(cells, i, lo, hi, carry, x[i] + y[i], Num(x[i + 1..]) + Num(y[i + 1..]));
    SumTails(x, y, i, Pow10(|x| - 1 - i));
  }

  lemma DifferencePlace(cells: seq<int>, x: seq<int>, y: seq<int>, i: nat, lo: int, hi: int, borrow: int)
    requires i < |cells| == |x| == |y| && lo - 10 * hi == x[i] - y[i] - borrow
    requires DifferenceDone(cells, x, y, i + 1, borrow)
    ensures DifferenceDone(cells[i := lo], x, y, i, hi)
  {
    TailStep(cells, i, lo, -hi, -borrow, x[i] - y[i], Num(x[i + 1..]) - Num(y[i + 1..]));
    SumTails(x, y, i, Pow10(|x| - 1 - i));
  }

  /** What a carry out of `n` places is worth. */
  function Top(carry: int, n: nat): int {
    if carry == 1 then Pow10(n) else 0
  }

  lemma WholeSum(cells: seq<int>, x: seq<int>, y: seq<int>, i: nat, carry: int)
    requires i == 0 && |cells| == |x| == |y| && (carry == 0 || carry == 1)
    ensures SumDone(cells, x, y, i, carry) ==> Num(cells) + Top(carry, |cells|) == Num(x) + Num(y)
    ensures DifferenceDone(cells, x, y, i, carry) ==> Num(cells) - Top(carry, |cells|) == Num(x) - Num(y)
  {
    assert cells[0..] == cells && x[0..] == x && y[0..] == y;
  }

  lemma NothingDone(cells: seq<int>, x: seq<int>, y: seq<int>)
    requires |cells| == |x| == |y|
    ensures SumDone(cells, x, y, |cells|, 0) && DifferenceDone(cells, x, y, |cells|, 0)
  {
  }

  /** One place of an addition. */
  method AddPlace(a: array<int>, b: array<int>, n: nat, i: nat, carry: int, ghost x: seq<int>) returns (out: int)
    requires a != b && i < n <= a.Length && n <= b.Length && AllDigits(a[..n]) && AllDigits(b[..n])
    requires |x| == n && a[i] == x[i] && (carry == 0 || carry == 1) && SumDone(a[..n], x, b[..n], i + 1, carry)
    modifies a
    ensures AllDigits(a[..n]) && (out == 0 || out == 1) && SumDone(a[..n], x, b[..n], i, out)
    ensures forall k | 0 <= k < i :: a[k] == old(a[k])
  {
    ghost var cells := a[..n];
    var s := a[i] + b[i] + carry;
    if s >= 10 {
      out := 1;
      a[i] := s - 10;
    } else {
      out := 0;
      a[i] := s;
    }
    assert a[..n] == cells[i := a[i]];
    SumPlace(cells, x, b[..n], i, a[i], out, carry);
  }

  /** a := a + b, and the carry out of the top. */
  method AddInPlace(a: array<int>, b: array<int>, n: nat) returns (carry: int)
    requires a != b && n <= a.Length && n <= b.Length && AllDigits(a[..n]) && AllDigits(b[..n])
    modifies a
    ensures AllDigits(a[..n]) && (carry == 0 || carry == 1)
    ensures Num(a[..n]) + Top(carry, n) == old(Num(a[..n])) + Num(b[..n])
  {
    ghost var x := a[..n];
    carry := 0;
    var i := n;
    NothingDone(x, x, b[..n]);
    while i > 0
      invariant i <= n && (carry == 0 || carry == 1) && AllDigits(a[..n])
      invariant forall k | 0 <= k < i :: a[k] == x[k]
      invariant SumDone(a[..n], x, b[..n], i, carry)
    {
      carry := AddPlace(a, b, n, i - 1, carry, x);
      i := i - 1;
    }
    WholeSum(a[..n], x, b[..n], i, carry);
  }

  /** One place of a subtraction. */
  method SubtractPlace(
      p: array<int>, q: array<int>, target: array<int>, n: nat, i: nat, borrow: int, ghost x: seq<int>,
      ghost y: seq<int>)
    returns (out: int)
    requires p != q && (target == p || target == q) && i < n <= p.Length && n <= q.Length && AllDigits(target[..n])
    requires |x| == |y| == n && p[i] == x[i] && q[i] == y[i] && 0 <= x[i] <= 9 && 0 <= y[i] <= 9
    requires (borrow == 0 || borrow == 1) && DifferenceDone(target[..n], x, y, i + 1, borrow)
    modifies target
    ensures AllDigits(target[..n]) && (out == 0 || out == 1) && DifferenceDone(target[..n], x, y, i, out)
    ensures forall k | 0 <= k < i :: p[k] == old(p[k]) && q[k] == old(q[k])
  {
    ghost var cells := target[..n];
    var d := p[i] - q[i] - borrow;
    if d < 0 {
      target[i] := d + 10;
      out := 1;
    } else {
      target[i] := d;
      out := 0;
    }
    assert target[..n] == cells[i := target[i]];
    DifferencePlace(cells, x, y, i, target[i], out, borrow);
  }

  /** target := p - q, where `target` is one of the two, and the borrow out of the top. */
  method SubtractInPlace(p: array<int>, q: array<int>, target: array<int>, n: nat) returns (borrow: int)
    requires p != q && (target == p || target == q) && n <= p.Length && n <= q.Length
    requires AllDigits(p[..n]) && AllDigits(q[..n])
    modifies target
    ensures AllDigits(target[..n]) && (borrow == 0 || borrow == 1)
    ensures Num(target[..n]) - Top(borrow, n) == old(Num(p[..n])) - old(Num(q[..n]))
  {
    ghost var x, y := p[..n], q[..n];
    borrow := 0;
    var i := n;
    NothingDone(target[..n], x, y);
    while i > 0
      invariant i <= n && (borrow == 0 || borrow == 1) && AllDigits(target[..n])
      invariant forall k | 0 <= k < i :: p[k] == x[k] && q[k] == y[k]
      invariant DifferenceDone(target[..n], x, y, i, borrow)
    {
      borrow := SubtractPlace(p, q, target, n, i - 1, borrow, x, y);
      i := i - 1;
    }
    WholeSum(target[..n], x, y, i, borrow);
  }

  // ---- Comparing ----

  lemma FirstPlaceDecides(h: int, d: int, e: int, w: int, r: int, t: int)
    requires d < e && 0 <= r < w && 0 <= t
    ensures h + (d * w + r) < h + (e * w + t)
  {
    assert (d + 1) * w <= e * w;
  }

  /** At equal length the first difference decides. */
  lemma FirstDifference(a: seq<int>, b: seq<int>, i: nat)
    requires |a| == |b| && AllDigits(a) && AllDigits(b) && i < |a| && a[..i] == b[..i] && a[i] < b[i]
    ensures Num(a) < Num(b)
  {
    NumSplit(a, i);
    NumSplit(b, i);
    NumCons(a[i..]);
    NumCons(b[i..]);
    NumBound(a[i..][1..]);
    NumBound(b[i..][1..]);
    var h := Num(a[..i]) * Pow10(|a| - i);
    FirstPlaceDecides(h, a[i], b[i], Pow10(|a| - 1 - i), Num(a[i..][1..]), Num(b[i..][1..]));
  }

  /** The sign of memcmp over the first `n` cells. */
  method Compare(a: array<int>, b: array<int>, n: nat) returns (rc: int)
    requires n <= a.Length && n <= b.Length && AllDigits(a[..n]) && AllDigits(b[..n])
    ensures rc < 0 <==> Num(a[..n]) < Num(b[..n])
    ensures rc > 0 <==> Num(a[..n]) > Num(b[..n])
    ensures rc == 0 <==> a[..n] == b[..n]
  {
    var i := 0;
    while i < n && a[i] == b[i]
      invariant i <= n && a[..i] == b[..i]
    {
      i := i + 1;
    }
    if i == n { return 0; }
    rc := a[i] - b[i];
    assert a[..n][..i] == a[..i] && b[..n][..i] == b[..i];
    if rc < 0 { FirstDifference(a[..n], b[..n], i); } else { FirstDifference(b[..n], a[..n], i); }
  }
}
