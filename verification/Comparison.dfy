/** Comparing decimals by their digits. (mvsqlite-pgtypes-ext/decimal.c) */
module Comparison {
  import opened Digits
  import opened Ratios
  import opened Numerals
  import opened Addition
  import opened Decimals

  // ---- What the comparison computes ----

  /** Without trailing zeros after the point. */
  function Trimmed(d: Fixed): (r: Fixed)
    requires GoodFixed(d)
    ensures GoodFixed(r) && |r.digits| - r.nFrac == |d.digits| - d.nFrac && r.digits <= d.digits
    ensures r.nFrac > 0 ==> r.digits[|r.digits| - 1] != 0
    decreases d.nFrac
  {
    if d.nFrac > 0 && d.digits[|d.digits| - 1] == 0 then Trimmed(Fixed(d.digits[..|d.digits| - 1], d.nFrac - 1)) else d
  }

  function WholeLength(d: Fixed): int {
    |d.digits| - d.nFrac
  }

  /** memcmp over sequences of one length. */
  function Lex(a: seq<int>, b: seq<int>): int
    requires |a| == |b|
  {
    if a == [] then 0 else if a[0] != b[0] then a[0] - b[0] else Lex(a[1..], b[1..])
  }

  function Shorter(x: Fixed, y: Fixed): nat {
    if |x.digits| < |y.digits| then |x.digits| else |y.digits|
  }

  function CmpMagnitude(x: Fixed, y: Fixed): int {
    if WholeLength(x) != WholeLength(y) then WholeLength(x) - WholeLength(y)
    else
      var n := Shorter(x, y);
      var lex := Lex(x.digits[..n], y.digits[..n]);
      if lex != 0 then lex else |x.digits| - |y.digits|
  }

  function Cmp(s: bool, d: Fixed, t: bool, e: Fixed): int
    requires GoodFixed(d) && GoodFixed(e)
  {
    if s != t then if s then -1 else 1
    else if s then CmpMagnitude(Trimmed(e), Trimmed(d))
    else CmpMagnitude(Trimmed(d), Trimmed(e))
  }

  // ---- When that is the order of the values ----

  /** No zero in front of the integer part, and no sign on zero: what the parser makes of most
      numerals. */
  predicate Canonical(s: bool, d: Fixed) {
    GoodFixed(d) && (WholeLength(d) > 0 ==> d.digits[0] != 0) && (s ==> !AllZero(d.digits))
  }

  predicate Lean(x: Fixed) {
    && GoodFixed(x) && (WholeLength(x) > 0 ==> x.digits[0] != 0)
    && (x.nFrac > 0 ==> x.digits[|x.digits| - 1] != 0)
  }

  lemma {:induction false} TrimmedValue(s: bool, d: Fixed)
    requires GoodFixed(d)
    ensures FixedValue(s, Trimmed(d)) == FixedValue(s, d)
    decreases d.nFrac
  {
    if d.nFrac > 0 && d.digits[|d.digits| - 1] == 0 {
      DropZero(s, d.digits, d.nFrac);
      TrimmedValue(s, Fixed(d.digits[..|d.digits| - 1], d.nFrac - 1));
    }
  }

  /** Both magnitudes over one power of ten. */
  function Cross(x: Fixed, y: Fixed): int {
    Num(x.digits) * Pow10(y.nFrac)
  }

  lemma CrossOrder(x: Fixed, y: Fixed)
    ensures FixedValue(false, x) < FixedValue(false, y) <==> Cross(x, y) < Cross(y, x)
    ensures FixedValue(false, x) == FixedValue(false, y) <==> Cross(x, y) == Cross(y, x)
  {
    RatioScale(Num(x.digits), x.nFrac, y.nFrac);
    RatioScale(Num(y.digits), y.nFrac, x.nFrac);
    RatioOrder(Cross(x, y), Cross(y, x), x.nFrac + y.nFrac);
  }

  lemma TimesAtLeast(x: int, y: int, p: nat)
    requires x >= y && p >= 1
    ensures x * p >= y * p
  {
  }

  lemma TimesLess(x: int, y: int, p: nat)
    requires x < y && p >= 1
    ensures x * p < y * p
  {
  }

  /** A longer integer part that does not start with zero is greater. */
  lemma LongerIsGreater(x: Fixed, y: Fixed)
    requires Lean(x) && GoodFixed(y) && WholeLength(x) > WholeLength(y)
    ensures Cross(x, y) > Cross(y, x)
  {
    var a, b := |x.digits|, |y.digits|;
    NumCons(x.digits);
    NumBound(x.digits[1..]);
    TimesAtLeast(x.digits[0], 1, Pow10(a - 1));
    assert Num(x.digits) >= Pow10(a - 1);
    NumBound(y.digits);
    TimesAtLeast(Num(x.digits), Pow10(a - 1), Pow10(y.nFrac));
    TimesLess(Num(y.digits), Pow10(b), Pow10(x.nFrac));
    Pow10Adds(a - 1, y.nFrac);
    Pow10Adds(b, x.nFrac);
    Pow10Grows(b + x.nFrac, a - 1 + y.nFrac);
  }

  /** Digits with zeros behind, to a common length. */
  function To(ds: seq<int>, n: nat): seq<int>
    requires |ds| <= n
  {
    ds + Zeros(n - |ds|)
  }

  lemma ToValue(ds: seq<int>, n: nat)
    requires |ds| <= n
    ensures Num(To(ds, n)) == Num(ds) * Pow10(n - |ds|)
  {
    NumAppend(ds, Zeros(n - |ds|));
    NumZeros(Zeros(n - |ds|));
  }

  /** With integer parts of one length, the padded digits decide. */
  lemma PaddedDecide(x: Fixed, y: Fixed, n: nat)
    requires GoodFixed(x) && GoodFixed(y) && WholeLength(x) == WholeLength(y) && |x.digits| <= n && |y.digits| <= n
    requires n == |x.digits| || n == |y.digits|
    requires Num(To(x.digits, n)) > Num(To(y.digits, n))
    ensures Cross(x, y) > Cross(y, x)
  {
    ToValue(x.digits, n);
    ToValue(y.digits, n);
    // The shorter fraction is a factor of both sides.
    var f := if n == |x.digits| then y.nFrac else x.nFrac;
    Pow10Adds(n - |x.digits|, f);
    Pow10Adds(n - |y.digits|, f);
    Associate(Num(x.digits), Pow10(n - |x.digits|), Pow10(f));
    Associate(Num(y.digits), Pow10(n - |y.digits|), Pow10(f));
    TimesLess(Num(To(y.digits, n)), Num(To(x.digits, n)), Pow10(f));
  }

  lemma {:induction false} LexDifference(a: seq<int>, b: seq<int>) returns (i: nat)
    requires |a| == |b| && Lex(a, b) != 0
    ensures i < |a| && a[..i] == b[..i] && a[i] != b[i] && (Lex(a, b) > 0 <==> a[i] > b[i])
  {
    if a[0] != b[0] {
      return 0;
    }
    var j := LexDifference(a[1..], b[1..]);
    i := j + 1;
    assert a[..i] == [a[0]] + a[1..][..j] && b[..i] == [b[0]] + b[1..][..j];
  }

  lemma {:induction false} LexEqual(a: seq<int>, b: seq<int>)
    requires |a| == |b| && Lex(a, b) == 0
    ensures a == b
  {
    if a != [] {
      LexEqual(a[1..], b[1..]);
      assert a == [a[0]] + a[1..] && b == [b[0]] + b[1..];
    }
  }

  lemma {:induction false} LexSwaps(a: seq<int>, b: seq<int>)
    requires |a| == |b|
    ensures Lex(a, b) == -Lex(b, a)
  {
    if a != [] && a[0] == b[0] { LexSwaps(a[1..], b[1..]); }
  }

  lemma DifferenceDecides(x: Fixed, y: Fixed, i: nat)
    requires GoodFixed(x) && GoodFixed(y) && WholeLength(x) == WholeLength(y)
    requires i < Shorter(x, y) && x.digits[..i] == y.digits[..i] && x.digits[i] > y.digits[i]
    ensures Cross(x, y) > Cross(y, x)
  {
    var n := if |x.digits| < |y.digits| then |y.digits| else |x.digits|;
    assert To(x.digits, n)[..i] == x.digits[..i] && To(y.digits, n)[..i] == y.digits[..i];
    FirstDifference(To(y.digits, n), To(x.digits, n), i);
    PaddedDecide(x, y, n);
  }

  lemma ExtensionDecides(x: Fixed, y: Fixed)
    requires Lean(x) && GoodFixed(y) && WholeLength(x) == WholeLength(y)
    requires |x.digits| > |y.digits| && x.digits[..|y.digits|] == y.digits
    ensures Cross(x, y) > Cross(y, x)
  {
    var a, b := |x.digits|, |y.digits|;
    NumSplit(x.digits, b);
    NumPositive(x.digits[b..], a - 1 - b);
    ToValue(y.digits, a);
    assert To(x.digits, a) == x.digits;
    PaddedDecide(x, y, a);
  }

  lemma CmpGreater(x: Fixed, y: Fixed)
    requires Lean(x) && Lean(y) && CmpMagnitude(x, y) > 0
    ensures FixedValue(false, x) > FixedValue(false, y)
  {
    CrossOrder(y, x);
    var n := Shorter(x, y);
    if WholeLength(x) != WholeLength(y) {
      LongerIsGreater(x, y);
    } else if Lex(x.digits[..n], y.digits[..n]) != 0 {
      var i := LexDifference(x.digits[..n], y.digits[..n]);
      assert x.digits[..i] == x.digits[..n][..i] && y.digits[..i] == y.digits[..n][..i];
      DifferenceDecides(x, y, i);
    } else {
      LexEqual(x.digits[..n], y.digits[..n]);
      assert n == |y.digits| && y.digits[..n] == y.digits;
      ExtensionDecides(x, y);
    }
  }

  lemma CmpSwaps(x: Fixed, y: Fixed)
    ensures CmpMagnitude(x, y) == -CmpMagnitude(y, x)
  {
    var n := Shorter(x, y);
    LexSwaps(x.digits[..n], y.digits[..n]);
  }

  lemma CmpEqual(x: Fixed, y: Fixed)
    requires GoodFixed(x) && GoodFixed(y) && CmpMagnitude(x, y) == 0
    ensures x == y
  {
    var n := Shorter(x, y);
    LexEqual(x.digits[..n], y.digits[..n]);
    assert x.digits[..n] == x.digits && y.digits[..n] == y.digits;
  }

  lemma MagnitudeOrder(x: Fixed, y: Fixed)
    requires Lean(x) && Lean(y)
    ensures CmpMagnitude(x, y) < 0 <==> FixedValue(false, x) < FixedValue(false, y)
    ensures CmpMagnitude(x, y) == 0 <==> FixedValue(false, x) == FixedValue(false, y)
  {
    CmpSwaps(x, y);
    if CmpMagnitude(x, y) > 0 {
      CmpGreater(x, y);
    } else if CmpMagnitude(x, y) < 0 {
      CmpGreater(y, x);
    } else {
      CmpEqual(x, y);
    }
  }

  /** A comparison result tells the order of two values. */
  predicate Tells(rc: int, x: real, y: real) {
    (rc < 0 <==> x < y) && (rc == 0 <==> x == y)
  }

  lemma NegativeValue(d: Fixed)
    ensures FixedValue(true, d) == -FixedValue(false, d)
  {
    var m, p := Num(d.digits), Pow10(d.nFrac) as real;
    assert (-m) as real == -(m as real);
    assert (-(m as real)) / p == -((m as real) / p);
  }

  lemma ZeroOrMore(d: Fixed)
    requires GoodFixed(d)
    ensures FixedValue(false, d) >= 0.0
    ensures !AllZero(d.digits) ==> FixedValue(false, d) > 0.0
  {
    NumBound(d.digits);
    assert Ratio(0, d.nFrac) == 0.0;
    RatioOrder(0, Num(d.digits), d.nFrac);
    if !AllZero(d.digits) {
      var k :| 0 <= k < |d.digits| && d.digits[k] != 0;
      NumPositive(d.digits, k);
    }
  }

  lemma TrimmedIsLean(s: bool, d: Fixed)
    requires Canonical(s, d)
    ensures Lean(Trimmed(d))
  {
  }

  /** On canonical decimals the comparison is exactly the order of the values. */
  lemma CmpTellsOrder(s: bool, d: Fixed, t: bool, e: Fixed)
    requires Canonical(s, d) && Canonical(t, e)
    ensures Tells(Cmp(s, d, t, e), FixedValue(s, d), FixedValue(t, e))
  {
    NegativeValue(d);
    NegativeValue(e);
    ZeroOrMore(d);
    ZeroOrMore(e);
    if s == t {
      TrimmedIsLean(s, d);
      TrimmedIsLean(t, e);
      TrimmedValue(false, d);
      TrimmedValue(false, e);
      MagnitudeOrder(Trimmed(d), Trimmed(e));
      MagnitudeOrder(Trimmed(e), Trimmed(d));
    }
  }

  /** The integer part without zeros in front. */
  function WithoutLeading(d: Fixed): (r: Fixed)
    requires GoodFixed(d)
    ensures GoodFixed(r) && (WholeLength(r) > 0 ==> r.digits[0] != 0) && (AllZero(r.digits) <==> AllZero(d.digits))
    decreases |d.digits|
  {
    if WholeLength(d) > 0 && d.digits[0] == 0 then
      assert AllZero(d.digits) <==> AllZero(d.digits[1..]) by { assert d.digits == [0] + d.digits[1..]; }
      WithoutLeading(Fixed(d.digits[1..], d.nFrac))
    else d
  }

  lemma {:induction false} WithoutLeadingValue(s: bool, d: Fixed)
    requires GoodFixed(d)
    ensures FixedValue(s, WithoutLeading(d)) == FixedValue(s, d)
    ensures WholeLength(d) > 0 && d.digits[0] == 0 ==> WholeLength(WithoutLeading(d)) < WholeLength(d)
    decreases |d.digits|
  {
    if WholeLength(d) > 0 && d.digits[0] == 0 {
      NumCons(d.digits);
      WithoutLeadingValue(s, Fixed(d.digits[1..], d.nFrac));
    }
  }

  ghost predicate TellsAll(s: bool, d: Fixed)
    requires GoodFixed(d)
  {
    forall t, e | Canonical(t, e) :: Tells(Cmp(s, d, t, e), FixedValue(s, d), FixedValue(t, e))
  }

  /** A decimal compares correctly with every canonical one exactly if it is canonical itself. */
  lemma CanonicalTellsAll(s: bool, d: Fixed)
    requires GoodFixed(d) && (s ==> !AllZero(d.digits))
    ensures TellsAll(s, d) <==> Canonical(s, d)
  {
    if Canonical(s, d) {
      forall t, e | Canonical(t, e) ensures Tells(Cmp(s, d, t, e), FixedValue(s, d), FixedValue(t, e)) {
        CmpTellsOrder(s, d, t, e);
      }
    } else {
      var e := WithoutLeading(d);
      WithoutLeadingValue(s, d);
      assert Canonical(s, e) && FixedValue(s, e) == FixedValue(s, d) && Cmp(s, d, s, e) != 0;
    }
  }

  // ---- Which texts are parsed to canonical decimals ----

  /** The digits before the point that count. */
  function Significant(n: Numeral): seq<int> {
    n.whole[LeadingZeros(n.whole)..]
  }

  /** Moving the point leaves no zero in front: to the right there is a digit to start with that is not zero; to
      the left, a digit stays in front of the point. */
  predicate LeavesNoZero(n: Numeral)
    requires WellFormed(n)
  {
    var e := ReadExp(n.exp);
    || e == 0
    || (e > 0 && (Significant(n) != [] || (n.frac != [] && n.frac[0] != 0)))
    || (e < 0 && -e < |Significant(n)|)
  }

  lemma RaisedStart(sig: seq<int>, frac: seq<int>, e: nat)
    requires AllDigits(sig) && AllDigits(frac) && e > 0 && (sig != [] ==> sig[0] != 0)
    ensures var d := Raise(Fixed(sig + frac, |frac|), e);
      WholeLength(d) > 0 && (d.digits[0] != 0 <==> sig != [] || (frac != [] && frac[0] != 0))
  {
  }

  lemma LoweredStart(sig: seq<int>, frac: seq<int>, e: nat)
    requires AllDigits(sig) && AllDigits(frac) && e > 0 && (sig != [] ==> sig[0] != 0)
    ensures var d := Lower(Fixed(sig + frac, |frac|), e); WholeLength(d) > 0 && (d.digits[0] != 0 <==> e < |sig|)
  {
  }

  /** A numeral is parsed to a canonical decimal exactly if its exponent leaves no zero in front. */
  lemma CanonicalExactly(n: Numeral)
    requires WellFormed(n)
    ensures var r := Parse(NumeralText(n)); r.Number? ==> (Canonical(r.sign, r.fixed) <==> LeavesNoZero(n))
  {
    ScanNumeral(n);
    var s, sig, e := ScanText(NumeralText(n)), Significant(n), ReadExp(n.exp);
    assert PointPlaced(s) == Fixed(sig + n.frac, |n.frac|);
    if e > 0 {
      RaisedStart(sig, n.frac, e);
    } else if e < 0 {
      LoweredStart(sig, n.frac, -e);
    }
  }

  /** So it compares correctly with every canonical decimal exactly then. */
  lemma ComparesExactly(n: Numeral)
    requires WellFormed(n)
    ensures var r := Parse(NumeralText(n));
      r.Number? ==> GoodFixed(r.fixed) && (TellsAll(r.sign, r.fixed) <==> LeavesNoZero(n))
  {
    CanonicalExactly(n);
    var r := Parse(NumeralText(n));
    if r.Number? { CanonicalTellsAll(r.sign, r.fixed); }
  }

  /** The collation orders such numerals by value, among them all without an exponent, and is a total preorder on
      them. */
  lemma CollationOrdersNumerals(m: Numeral, n: Numeral)
    requires WellFormed(m) && WellFormed(n) && LeavesNoZero(m) && LeavesNoZero(n) && SmallExp(m.exp) && SmallExp(n.exp)
    ensures var a, b := Parse(NumeralText(m)), Parse(NumeralText(n));
      a.Number? && b.Number? ==> Tells(Cmp(a.sign, a.fixed, b.sign, b.fixed), NumeralValue(m), NumeralValue(n))
  {
    var a, b := Parse(NumeralText(m)), Parse(NumeralText(n));
    if a.Number? && b.Number? {
      CanonicalExactly(m);
      CanonicalExactly(n);
      ParseExact(m);
      ParseExact(n);
      CmpTellsOrder(a.sign, a.fixed, b.sign, b.fixed);
    }
  }

  const HALF := Numeral("", Unsigned, [0], true, [5], NoExp)

  lemma HalfText()
    ensures NumeralText(HALF) == "0.5"
  {
  }

  lemma HalfScanned()
    ensures ScanText(NumeralText(HALF)) == Scanned([5], 1, 0)
  {
    ScanNumeral(HALF);
    assert LeadingZeros([0]) == 1 && [0][1..] + [5] == [5];
  }

  lemma HalfParsed()
    ensures Parse("0.5") == Number(false, Fixed([5], 1))
  {
    HalfText();
    HalfScanned();
    SignRead(HALF);
  }

  const SMALL := Numeral("", Unsigned, [5], false, [], Exp(false, Minus, [1]))

  lemma SmallText()
    ensures NumeralText(SMALL) == "5e-1"
  {
  }

  lemma SmallScanned()
    ensures ScanText(NumeralText(SMALL)) == Scanned([5], 0, -1)
  {
    NumOne(1);
    ReadExpExact(SMALL.exp);
    ScanNumeral(SMALL);
    assert LeadingZeros([5]) == 0 && [5][0..] + [] == [5];
  }

  lemma SmallPlaced()
    ensures Placed(Scanned([5], 0, -1)) == Fixed([0, 5], 1)
  {
    assert Zeros(1) + [5] == [0, 5];
  }

  lemma SmallParsed()
    ensures Parse("5e-1") == Number(false, Fixed([0, 5], 1))
  {
    SmallText();
    SmallScanned();
    SmallPlaced();
    SignRead(SMALL);
  }

  /** 5e-1 and 0.5 are one value, but do not compare equal. */
  lemma ExponentMisleads()
    ensures Parse("5e-1") == Number(false, Fixed([0, 5], 1)) && Parse("0.5") == Number(false, Fixed([5], 1))
    ensures FixedValue(false, Fixed([0, 5], 1)) == FixedValue(false, Fixed([5], 1))
    ensures Cmp(false, Fixed([0, 5], 1), false, Fixed([5], 1)) > 0
  {
    HalfParsed();
    SmallParsed();
    ZeroInFrontMisleads();
  }

  lemma ZeroInFrontMisleads()
    ensures FixedValue(false, Fixed([0, 5], 1)) == FixedValue(false, Fixed([5], 1))
    ensures Cmp(false, Fixed([0, 5], 1), false, Fixed([5], 1)) > 0
  {
    NumCons([0, 5]);
    assert [0, 5][1..] == [5];
  }

  // ---- The method ----

  method TrimInPlace(p: Decimal)
    requires p.Valid()
    modifies p`nDigit, p`nFrac
    ensures p.Valid() && p.Contents() == Trimmed(old(p.Contents()))
  {
    ghost var d := p.Contents();
    while p.nFrac > 0 && p.a[p.nDigit - 1] == 0
      invariant p.Valid() && Trimmed(p.Contents()) == Trimmed(d)
      decreases p.nFrac
    {
      DropLast(p);
    }
  }

  method DropLast(p: Decimal)
    requires p.Valid() && p.nFrac > 0 && p.a[p.nDigit - 1] == 0
    modifies p`nDigit, p`nFrac
    ensures p.Valid() && p.nFrac == old(p.nFrac) - 1 && Trimmed(p.Contents()) == Trimmed(old(p.Contents()))
  {
    assert p.a[..p.nDigit][..p.nDigit - 1] == p.a[..p.nDigit - 1];
    p.nDigit := p.nDigit - 1;
    p.nFrac := p.nFrac - 1;
  }

  /** memcmp over the first `n` cells. */
  method CompareCells(a: array<int>, b: array<int>, n: nat) returns (rc: int)
    requires n <= a.Length && n <= b.Length
    ensures rc == Lex(a[..n], b[..n])
  {
    var i := 0;
    while i < n && a[i] == b[i]
      invariant i <= n && Lex(a[i..n], b[i..n]) == Lex(a[..n], b[..n])
    {
      assert a[i..n][1..] == a[i + 1..n] && b[i..n][1..] == b[i + 1..n];
      i := i + 1;
    }
    rc := if i == n then 0 else a[i] - b[i];
  }

  method CompareMagnitudes(p: Decimal, q: Decimal) returns (rc: int)
    requires p.Valid() && q.Valid()
    ensures rc == CmpMagnitude(p.Contents(), q.Contents())
  {
    var m, n := p.nDigit - p.nFrac, q.nDigit - q.nFrac;
    if m != n { return m - n; }
    var k := if p.nDigit > q.nDigit then q.nDigit else p.nDigit;
    rc := CompareCells(p.a, q.a, k);
    assert p.a[..p.nDigit][..k] == p.a[..k] && q.a[..q.nDigit][..k] == q.a[..k];
    if rc == 0 { rc := p.nDigit - q.nDigit; }
  }

  /** Trims both numbers in place and compares them. */
  method CompareDecimals(p: Decimal, q: Decimal) returns (rc: int)
    requires p != q && p.Valid() && q.Valid()
    modifies p`nDigit, p`nFrac, q`nDigit, q`nFrac
    ensures p.Valid() && q.Valid() && p.Value() == old(p.Value()) && q.Value() == old(q.Value())
    ensures rc == old(Cmp(p.sign, p.Contents(), q.sign, q.Contents()))
  {
    TrimmedValue(p.sign, p.Contents());
    TrimmedValue(q.sign, q.Contents());
    TrimInPlace(p);
    TrimInPlace(q);
    if p.sign != q.sign { return if p.sign then -1 else 1; }
    if p.sign {
      rc := CompareMagnitudes(q, p);
    } else {
      rc := CompareMagnitudes(p, q);
    }
  }
}
