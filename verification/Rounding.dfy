/** Rounding to a number of significant digits. (mvsqlite-pgtypes-ext/decimal.c) */
module Rounding {
  import opened Common
  import opened Digits
  import opened Numerals
  import opened Decimals
  import opened Arithmetic

  // ---- Rounding ----

  /** The multiple of `u` nearest to `m`, the greater one of two. */
  function NearestMultiple(m: nat, u: nat): nat
    requires u > 0
  {
    (m + u / 2) / u * u
  }

  /** Half a unit at most, ties away from zero. */
  lemma NearestIsNearest(m: nat, u: nat)
    requires u > 0 && u % 2 == 0
    ensures var error := NearestMultiple(m, u) - m; 0 - u < 2 * error <= u
    ensures exists k: nat :: IsTimes(NearestMultiple(m, u), k, u)
  {
    var n := m + u / 2;
    assert n == n / u * u + n % u;
    assert IsTimes(NearestMultiple(m, u), n / u, u);
  }

  predicate IsTimes(r: int, k: int, u: int) {
    r == k * u
  }

  predicate IsNearest(r: int, m: int, u: int) {
    m >= 0 && u > 0 && r == NearestMultiple(m, u)
  }

  /** Whole units and a remainder, which says whether to round up. */
  lemma NearestOfParts(m: int, whole: int, rest: int, u: int, up: bool, r: int)
    requires u > 0 && u % 2 == 0 && 0 <= whole && 0 <= rest < u && m == whole * u + rest && (up <==> rest >= u / 2)
    requires r == (whole + if up then 1 else 0) * u
    ensures IsNearest(r, m, u)
  {
    var q := whole + if up then 1 else 0;
    var left := rest + u / 2 - if up then u else 0;
    assert m + u / 2 == q * u + left && 0 <= left < u;
    QuotientIs(m + u / 2, u, q, left);
  }

  lemma Monotone(x: int, y: int, u: nat)
    requires x <= y
    ensures x * u <= y * u
  {
  }

  lemma QuotientIs(n: nat, u: nat, q: nat, r: nat)
    requires u > 0 && n == q * u + r && r < u
    ensures n / u == q
  {
    var k := n / u;
    assert n == k * u + n % u;
    if k < q { Monotone(k + 1, q, u); }
    if k > q { Monotone(q + 1, k, u); }
  }

  lemma FirstDigitHalf(d: int, w: int, r: int)
    requires 0 <= d <= 9 && 0 <= r < w
    ensures 0 <= d * w + r < 10 * w && (d * w + r >= 5 * w <==> d >= 5)
  {
    Monotone(0, d, w);
    Monotone(d, 9, w);
    if d >= 5 { Monotone(5, d, w); } else { Monotone(d, 4, w); }
  }

  /** The digits after place `n` reach half a unit exactly when the first of them is five or more. */
  lemma HalfByFirstDigit(s: seq<int>, n: nat)
    requires AllDigits(s) && n < |s|
    ensures var u := Pow10(|s| - n);
      u % 2 == 0 && 0 <= Num(s[n..]) < u && (Num(s[n..]) >= u / 2 <==> s[n] >= 5)
  {
    var w, t := Pow10(|s| - n - 1), s[n..];
    NumCons(t);
    NumBound(t[1..]);
    FirstDigitHalf(t[0], w, Num(t[1..]));
    HalfOf(Pow10(|s| - n), w);
  }

  lemma HalfOf(u: nat, w: nat)
    requires u == 10 * w
    ensures u % 2 == 0 && u / 2 == 5 * w
  {
    var h := 5 * w;
    assert u == 2 * h;
  }

  /** A carry has come up to place `i` of `cells`, past nines only. */
  predicate CarryAt(cells: seq<int>, was: seq<int>, i: nat) {
    && i < |cells| == |was| && cells[i] == was[i] + 1
    && (forall j | 0 <= j < i :: cells[j] == was[j])
    && (forall j | i < j < |was| :: cells[j] == 0 && was[j] == 9)
    && Num(cells) == Num(was) + 1
  }

  lemma CarryStarts(was: seq<int>)
    requires was != []
    ensures CarryAt(was[|was| - 1 := was[|was| - 1] + 1], was, |was| - 1)
  {
    NumUpdate(was, |was| - 1, was[|was| - 1] + 1);
  }

  lemma CarryUp(cells: seq<int>, was: seq<int>, i: nat)
    requires CarryAt(cells, was, i) && 0 < i && cells[i] == 10
    ensures CarryAt(cells[i := 0][i - 1 := cells[i - 1] + 1], was, i - 1)
  {
    NumUpdate(cells, i, 0);
    NumUpdate(cells[i := 0], i - 1, cells[i - 1] + 1);
    assert Pow10(|cells| - 1 - (i - 1)) == 10 * Pow10(|cells| - 1 - i);
  }

  lemma CarryEnds(cells: seq<int>, was: seq<int>, i: nat)
    requires CarryAt(cells, was, i) && AllDigits(was) && (i == 0 || cells[i] <= 9)
    requires exists j | 0 <= j < |was| :: was[j] != 9
    ensures AllDigits(cells)
  {
    var j :| 0 <= j < |was| && was[j] != 9;
  }

  /** Adds one at place `k`; some digit up to there is not a nine. */
  method Increment(a: array<int>, k: nat)
    requires k < a.Length && AllDigits(a[..k + 1]) && exists j | 0 <= j <= k :: a[j] != 9
    modifies a
    ensures AllDigits(a[..k + 1]) && Num(a[..k + 1]) == old(Num(a[..k + 1])) + 1
    ensures forall j | k < j < a.Length :: a[j] == old(a[j])
  {
    ghost var was := a[..k + 1];
    CarryStarts(was);
    a[k] := a[k] + 1;
    assert a[..k + 1] == was[k := was[k] + 1];
    var i := k;
    while i > 0 && a[i] > 9
      invariant 0 <= i <= k && CarryAt(a[..k + 1], was, i)
      invariant forall j | k < j < a.Length :: a[j] == old(a[j])
    {
      ghost var cells := a[..k + 1];
      CarryUp(cells, was, i);
      a[i] := 0;
      a[i - 1] := a[i - 1] + 1;
      assert a[..k + 1] == cells[i := 0][i - 1 := cells[i - 1] + 1];
      i := i - 1;
    }
    ghost var j :| 0 <= j <= k && was[j] != 9;
    CarryEnds(a[..k + 1], was, i);
  }

  method CountLeading(a: array<int>, n: nat, d: int) returns (k: nat)
    requires n <= a.Length
    ensures k <= n && (forall i | 0 <= i < k :: a[i] == d) && (k < n ==> a[k] != d)
  {
    k := 0;
    while k < n && a[k] == d
      invariant k <= n && forall i | 0 <= i < k :: a[i] == d
    {
      k := k + 1;
    }
  }

  /** `now` is `was` rounded to its first `n` digits: a nearest multiple of the unit, with zeros to show for it. */
  predicate RoundedTo(now: seq<int>, was: seq<int>, n: nat) {
    && n <= |was| <= |now|
    && IsNearest(Num(now), Num(was), Pow10(|was| - n))
    && forall i | |now| - (|was| - n) <= i < |now| :: now[i] == 0
  }

  /** The first `n` digits of `was`, rounded up or not, are the first `k` of `now`; zeros follow. */
  lemma RoundedDigits(was: seq<int>, n: nat, now: seq<int>, k: nat)
    requires AllDigits(was) && n < |was| && n <= k <= |now| && |now| - k == |was| - n
    requires Num(now[..k]) == Num(was[..n]) + (if was[n] >= 5 then 1 else 0)
    requires forall i | k <= i < |now| :: now[i] == 0
    ensures RoundedTo(now, was, n)
  {
    var u, whole, rest, up := Pow10(|was| - n), Num(was[..n]), Num(was[n..]), was[n] >= 5;
    assert Num(was) == whole * u + rest by { NumSplit(was, n); }
    assert whole >= 0 by { NumBound(was[..n]); }
    assert u % 2 == 0 && 0 <= rest < u && (up <==> rest >= u / 2) by { HalfByFirstDigit(was, n); }
    assert Num(now) == (whole + if up then 1 else 0) * u by { TrailingZeros(now, k); }
    NearestOfParts(Num(was), whole, rest, u, up, Num(now));
  }

  lemma TrailingZeros(now: seq<int>, k: nat)
    requires k <= |now| && forall i | k <= i < |now| :: now[i] == 0
    ensures Num(now) == Num(now[..k]) * Pow10(|now| - k)
  {
    NumSplit(now, k);
    NumZeros(now[k..]);
  }

  /** All nines become a one and zeros, one place longer. */
  lemma NinesRollOver(was: seq<int>, n: nat, now: seq<int>)
    requires 0 < n < |was| && |now| == |was| + 1 && was[n - 1] == 9
    requires Num(now[..n]) == Num(([0] + was)[..n]) + 1 && now[n] == 0
    ensures Num(now[..n + 1]) == Num(was[..n]) + 1
  {
    assert now[..n + 1][..n] == now[..n];
    assert ([0] + was)[..n] == [0] + was[..n - 1];
    NumAppend([0], was[..n - 1]);
    NumOne(0);
    assert was[..n][..n - 1] == was[..n - 1];
  }

  method ClearFrom(a: array<int>, k: nat, n: nat)
    requires k <= n <= a.Length
    modifies a
    ensures forall i | k <= i < n :: a[i] == 0
    ensures forall i | 0 <= i < k :: a[i] == old(a[i])
  {
    for i := k to n
      invariant forall j | k <= j < i :: a[j] == 0
      invariant forall j | 0 <= j < k :: a[j] == old(a[j])
    {
      a[i] := 0;
    }
  }

  /** How many digits rounding to `n` significant ones leaves, leading zeros included; all of them if there
      is nothing to round. */
  function KeptDigits(digits: seq<int>, n: int): nat {
    if n < 1 || |digits| <= n then |digits| else Min(|digits|, n + LeadingZeros(digits))
  }

  /** With more than `n` digits from the first that is not zero on, exactly `n` of these are kept; else all. */
  lemma KeptDigitsAre(digits: seq<int>, n: int, first: nat)
    requires first <= |digits| && forall i | 0 <= i < first :: digits[i] == 0
    requires first < |digits| ==> digits[first] != 0
    ensures n >= 1 && first + n < |digits| ==> KeptDigits(digits, n) == first + n
    ensures n < 1 || |digits| <= first + n ==> KeptDigits(digits, n) == |digits|
  {
    LeadingZerosIs(digits, first);
  }

  /** Rounds half away from zero at the `n`-th significant digit. */
  method Round(p: Decimal, n: int, memory: bool)
    requires p.Valid() && !p.oom
    modifies p, p.a
    ensures p.Valid() && p.nFrac == old(p.nFrac) && p.sign == old(p.sign)
    ensures var was := old(p.Contents()).digits; var kept := KeptDigits(was, n);
      && (kept == |was| ==> !p.oom && p.Contents() == old(p.Contents()))
      && (p.oom ==> |was| + 2 > MAX_DIGIT || !memory)
      && (kept < |was| && !p.oom ==> RoundedTo(p.Contents().digits, was, kept))
  {
    if n < 1 { return; }
    if p.nDigit <= n { return; }
    var nZero := CountLeading(p.a, p.nDigit, 0);
    LeadingZerosIs(p.a[..p.nDigit], nZero);
    var k := n + nZero;
    if p.nDigit <= k { return; }
    RoundAt(p, k, memory);
  }

  lemma LeadingZerosIs(ds: seq<int>, k: nat)
    requires k <= |ds| && (forall i | 0 <= i < k :: ds[i] == 0) && (k < |ds| ==> ds[k] != 0)
    ensures LeadingZeros(ds) == k
  {
  }

  /** Keeps the first `k` digits, plus one if `up`. */
  method CutTo(a: array<int>, k: nat, n: nat, up: bool)
    requires 0 < k <= n <= a.Length && AllDigits(a[..n]) && (up ==> exists j | 0 <= j < k :: a[j] != 9)
    modifies a
    ensures AllDigits(a[..n]) && forall i | k <= i < n :: a[i] == 0
    ensures Num(a[..k]) == old(Num(a[..k])) + if up then 1 else 0
  {
    if up { Increment(a, k - 1); }
    ghost var head := a[..k];
    ClearFrom(a, k, n);
    assert a[..k] == head;
  }

  /** Rounds to the first `k` digits. */
  method RoundAt(p: Decimal, k: nat, memory: bool)
    requires p.Valid() && !p.oom && 0 < k < p.nDigit
    modifies p, p.a
    ensures p.Valid() && p.nFrac == old(p.nFrac) && p.sign == old(p.sign)
    ensures p.oom ==> old(p.nDigit) + 2 > MAX_DIGIT || !memory
    ensures !p.oom ==> RoundedTo(p.Contents().digits, old(p.Contents()).digits, k)
  {
    ghost var was := p.a[..p.nDigit];
    var up := p.a[k] >= 5;
    if up {
      var nines := CountLeading(p.a, k, 9);
      if nines == k {
        RoundNines(p, k, memory);
        return;
      }
    }
    assert p.a[..k] == was[..k];
    CutTo(p.a, k, p.nDigit, up);
    assert p.a[..p.nDigit][..k] == p.a[..k];
    RoundedDigits(was, k, p.a[..p.nDigit], k);
  }

  /** The case in which one more place is needed in front. */
  method RoundNines(p: Decimal, k: nat, memory: bool)
    requires p.Valid() && !p.oom && 0 < k < p.nDigit && p.a[k] >= 5 && forall i | 0 <= i < k :: p.a[i] == 9
    modifies p, p.a
    ensures p.Valid() && p.nFrac == old(p.nFrac) && p.sign == old(p.sign)
    ensures p.oom ==> old(p.nDigit) + 2 > MAX_DIGIT || !memory
    ensures !p.oom ==> RoundedTo(p.Contents().digits, old(p.Contents()).digits, k)
  {
    ghost var was := p.a[..p.nDigit];
    Expand(p, p.nDigit + 1, p.nFrac, memory);
    if p.oom { return; }
    assert p.a[..p.nDigit] == [0] + was;
    assert p.a[0] == ([0] + was)[0] == 0;
    assert p.a[..k] == ([0] + was)[..k];
    CutTo(p.a, k, p.nDigit, true);
    ghost var now := p.a[..p.nDigit];
    assert now[..k] == p.a[..k];
    NinesRollOver(was, k, now);
    RoundedDigits(was, k, now, k + 1);
  }
}
