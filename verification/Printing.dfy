/** The two text forms of a decimal, and that parsing either gives back the value.
    (mvsqlite-pgtypes-ext/decimal.c) */
module Printing {
  import opened Digits
  import opened Ratios
  import opened Numerals

  // ---- Plain notation ----

  /** Zero is printed without a sign when it has at most one digit. */
  predicate PrintsSign(sign: bool, d: Fixed) {
    sign && !(d.digits == [] || d.digits == [0])
  }

  /** Leading zeros are dropped, but for one digit before the point. */
  function Stripped(whole: seq<int>): seq<int> {
    if LeadingZeros(whole) == |whole| then [0] else whole[LeadingZeros(whole)..]
  }

  lemma StrippedValue(whole: seq<int>, frac: seq<int>)
    ensures Num(Stripped(whole) + frac) == Num(whole + frac)
  {
    LeadingZerosDoNotCount(whole, frac);
    if LeadingZeros(whole) == |whole| {
      NumAppend([0], frac);
      NumOne(0);
      assert whole[|whole|..] + frac == frac;
    }
  }

  /** Parsing drops the digit that printing kept. */
  lemma StrippedLength(whole: seq<int>)
    ensures |Stripped(whole)| - LeadingZeros(Stripped(whole)) <= |whole|
  {
    if LeadingZeros(whole) == |whole| {
      assert LeadingZeros([0]) == 1;
    }
  }

  function Whole(d: Fixed): seq<int>
    requires GoodFixed(d)
  {
    d.digits[..|d.digits| - d.nFrac]
  }

  function Frac(d: Fixed): seq<int>
    requires GoodFixed(d)
  {
    d.digits[|d.digits| - d.nFrac..]
  }

  function PlainNumeral(sign: bool, d: Fixed): (n: Numeral)
    requires GoodFixed(d)
    ensures WellFormed(n)
  {
    Numeral("", if PrintsSign(sign, d) then Minus else Unsigned, Stripped(Whole(d)), d.nFrac > 0, Frac(d), NoExp)
  }

  lemma PlainValue(sign: bool, d: Fixed)
    requires GoodFixed(d)
    ensures NumeralValue(PlainNumeral(sign, d)) == FixedValue(sign, d)
  {
    StrippedValue(Whole(d), Frac(d));
    assert Whole(d) + Frac(d) == d.digits;
    FixedIsDecimal10(sign, d);
    NumOne(0);
  }

  lemma PlainScanned(n: Numeral, s: Scanned)
    requires WellFormed(n) && n.exp.NoExp? && s == ScanText(NumeralText(n))
    ensures |Placed(s).digits| == |n.whole| - LeadingZeros(n.whole) + |n.frac|
  {
    ScanNumeral(n);
  }

  /** A printed decimal never takes more digits to parse than it has. */
  lemma PlainFits(sign: bool, d: Fixed)
    requires GoodFixed(d) && |d.digits| <= MAX_DIGIT
    ensures Parse(NumeralText(PlainNumeral(sign, d))).Number?
  {
    var n := PlainNumeral(sign, d);
    StrippedLength(Whole(d));
    PlainScanned(n, ScanText(NumeralText(n)));
  }

  /** Parsing what `decimal_result` prints gives back the value. */
  lemma PlainRoundTrip(sign: bool, d: Fixed)
    requires GoodFixed(d) && |d.digits| <= MAX_DIGIT
    ensures var r := Parse(NumeralText(PlainNumeral(sign, d)));
      r.Number? && FixedValue(r.sign, r.fixed) == FixedValue(sign, d)
  {
    PlainFits(sign, d);
    PlainValue(sign, d);
    ParseExact(PlainNumeral(sign, d));
  }

  // ---- Scientific notation ----

  function DigitsOf(n: nat): (ds: seq<int>)
    ensures ds != [] && AllDigits(ds)
  {
    if n < 10 then [n] else DigitsOf(n / 10) + [n % 10]
  }

  lemma {:induction false} DigitsOfValue(n: nat)
    ensures Num(DigitsOf(n)) == n
  {
    if n < 10 {
      NumOne(n);
    } else {
      DigitsOfValue(n / 10);
      var ds := DigitsOf(n);
      assert ds[..|ds| - 1] == DigitsOf(n / 10);
    }
  }

  lemma {:induction false} DigitsOfLength(n: nat, k: nat)
    requires k >= 1 && n < Pow10(k)
    ensures |DigitsOf(n)| <= k
  {
    if n >= 10 {
      assert Pow10(1) == 10 * Pow10(0) == 10;
      DigitsOfLength(n / 10, k - 1);
    }
  }

  /** At least two digits. */
  function ExpDigitsOf(n: nat): seq<int> {
    if n < 10 then [0, n] else DigitsOf(n)
  }

  lemma ExpDigitsOfValue(n: nat)
    ensures AllDigits(ExpDigitsOf(n)) && Num(ExpDigitsOf(n)) == n
  {
    DigitsOfValue(n);
    if n < 10 {
      assert [0, n][..1] == [0] && [0][..0] == [];
    }
  }

  /** How many digits remain when trailing zeros are dropped, but not below `n`. */
  function Kept(ds: seq<int>, n: nat): (k: nat)
    ensures k <= |ds| && (forall i | k <= i < |ds| :: ds[i] == 0)
    ensures k > n ==> ds[k - 1] != 0
    ensures k >= n || k == |ds|
  {
    if |ds| > n && ds[|ds| - 1] == 0 then Kept(ds[..|ds| - 1], n) else |ds|
  }

  /** The digits shown, with the point after the first of them, and the exponent. */
  datatype Sci = Sci(digits: seq<int>, exp: int)

  function SciForm(d: Fixed, n: nat): (s: Sci)
    requires GoodFixed(d)
    ensures s.digits != [] && AllDigits(s.digits)
  {
    var kept := d.digits[..Kept(d.digits, n)];
    var shown := kept[LeadingZeros(kept)..];
    if shown == [] then Sci([0], 0)
    else Sci(shown, |shown| - (d.nFrac + |kept| - |d.digits|) - 1)
  }

  function SciNumeral(sign: bool, s: Sci): Numeral
    requires s.digits != []
  {
    Numeral("", if sign then Minus else Plus, [s.digits[0]], true, if |s.digits| == 1 then [0] else s.digits[1..],
            Exp(false, if s.exp >= 0 then Plus else Minus, ExpDigitsOf(if s.exp >= 0 then s.exp else -s.exp)))
  }

  /** What scientific notation shows: the digits from the first that is not zero to the last, but down to at least the
      `n`-th of the decimal; and where the point would be. */
  lemma SciShows(d: Fixed, n: nat) returns (from: nat, to: nat)
    requires GoodFixed(d)
    ensures from <= to <= |d.digits| && (forall i | 0 <= i < from :: d.digits[i] == 0) && (to >= n || to == |d.digits|)
    ensures (forall i | to <= i < |d.digits| :: d.digits[i] == 0) && (to > n ==> d.digits[to - 1] != 0)
    ensures var s := SciForm(d, n);
      if from == to then s == Sci([0], 0)
      else s.digits == d.digits[from..to] && s.digits[0] != 0 && s.exp == |d.digits| - d.nFrac - from - 1
  {
    to := Kept(d.digits, n);
    from := LeadingZeros(d.digits[..to]);
    assert d.digits[..to][from..] == d.digits[from..to];
  }

  /** How it is written: a sign, one digit, a point, the others but at least one, and an exponent with a sign and at
      least two digits. */
  lemma SciFormat(sign: bool, s: Sci)
    requires s.digits != []
    ensures var m := SciNumeral(sign, s);
      && m.spaces == "" && m.sign == (if sign then Minus else Plus) && m.whole == s.digits[..1] && m.point
      && m.frac == (if |s.digits| == 1 then [0] else s.digits[1..])
      && m.exp.Exp? && !m.exp.upper && m.exp.sign == (if s.exp < 0 then Minus else Plus)
      && |m.exp.digits| >= 2 && (|m.exp.digits| > 2 ==> m.exp.digits[0] != 0)
  {
    ExpDigitsFormat(if s.exp >= 0 then s.exp else -s.exp);
  }

  lemma ExpDigitsFormat(n: nat)
    ensures |ExpDigitsOf(n)| >= 2 && (|ExpDigitsOf(n)| > 2 ==> ExpDigitsOf(n)[0] != 0)
  {
    if n >= 10 { DigitsOfFormat(n); }
  }

  lemma {:induction false} DigitsOfFormat(n: nat)
    requires n > 0
    ensures DigitsOf(n)[0] != 0 && (n >= 10 ==> |DigitsOf(n)| >= 2)
  {
    if n >= 10 { DigitsOfFormat(n / 10); }
  }

  lemma StrippedFormat(whole: seq<int>)
    ensures var shown := Stripped(whole);
      && shown != [] && (|shown| > 1 ==> shown[0] != 0)
      && (shown == [0] || (|shown| <= |whole| && shown == whole[|whole| - |shown|..]))
  {
  }

  /** What plain notation looks like: the digits before the point without zeros in front, but at least one; exactly the
      digits behind it; a minus sign for a negative number, and none for a zero of at most one digit. */
  lemma PlainFormat(sign: bool, d: Fixed)
    requires GoodFixed(d)
    ensures var m, whole := PlainNumeral(sign, d), d.digits[..|d.digits| - d.nFrac];
      && m.spaces == "" && m.exp.NoExp? && (m.point <==> d.nFrac > 0) && m.frac == d.digits[|whole|..]
      && m.whole != [] && (|m.whole| > 1 ==> m.whole[0] != 0)
      && (m.whole == [0] || (|m.whole| <= |whole| && m.whole == whole[|whole| - |m.whole|..]))
      && m.sign == (if sign && d.digits != [] && d.digits != [0] then Minus else Unsigned)
  {
    StrippedFormat(Whole(d));
  }

  lemma OneDigit(d: int)
    ensures Num([d] + [0]) == Num([d]) * Pow10(1)
  {
    NumAppend([d], [0]);
    NumOne(0);
  }

  /** The digits of the numeral, and where the point is among them. */
  lemma SciDigitsValue(sign: bool, s: Sci)
    requires s.digits != []
    ensures var n := SciNumeral(sign, s);
      Decimal10(Signed(sign, Num(n.whole + n.frac)), s.exp - |n.frac|)
        == Decimal10(Signed(sign, Num(s.digits)), s.exp - (|s.digits| - 1))
  {
    var n := SciNumeral(sign, s);
    if |s.digits| == 1 {
      assert s.digits == [s.digits[0]];
      OneDigit(s.digits[0]);
      SignedScale(sign, Num(s.digits), Pow10(1));
      Decimal10Scale(Signed(sign, Num(s.digits)), s.exp, 1);
    } else {
      assert n.whole + n.frac == s.digits;
    }
  }

  lemma SciExponent(sign: bool, s: Sci)
    requires s.digits != []
    ensures ExpValue(SciNumeral(sign, s).exp) == s.exp && AllDigits(SciNumeral(sign, s).exp.digits)
    ensures Num(SciNumeral(sign, s).exp.digits) == if s.exp >= 0 then s.exp else -s.exp
  {
    ExpDigitsOfValue(if s.exp >= 0 then s.exp else -s.exp);
  }

  lemma SciNumeralValue(sign: bool, s: Sci)
    requires s.digits != []
    ensures NumeralValue(SciNumeral(sign, s)) == Decimal10(Signed(sign, Num(s.digits)), s.exp - (|s.digits| - 1))
  {
    SciExponent(sign, s);
    SciDigitsValue(sign, s);
  }

  /** Dropping trailing zeros divides by a power of ten; dropping leading ones changes nothing. */
  lemma ShownValue(ds: seq<int>, n: nat)
    ensures var kept := ds[..Kept(ds, n)]; Num(kept[LeadingZeros(kept)..]) * Pow10(|ds| - |kept|) == Num(ds)
  {
    var kept := ds[..Kept(ds, n)];
    NumSplit(ds, |kept|);
    NumZeros(ds[|kept|..]);
    LeadingZerosDoNotCount(kept, []);
    assert kept[LeadingZeros(kept)..] + [] == kept[LeadingZeros(kept)..] && kept + [] == kept;
  }

  lemma ScaledBack(sign: bool, m: int, k: nat, nFrac: nat, total: int)
    requires m * Pow10(k) == total
    ensures Decimal10(Signed(sign, total), 0 - nFrac) == Decimal10(Signed(sign, m), k - nFrac)
  {
    SignedScale(sign, m, Pow10(k));
    Decimal10Scale(Signed(sign, m), k - nFrac, k);
  }

  lemma SciOfZero(sign: bool, total: int, e: int)
    requires total == 0
    ensures Decimal10(Signed(sign, Num([0])), 0) == Decimal10(Signed(sign, total), e)
  {
    NumOne(0);
    Decimal10Zero(0);
    Decimal10Zero(e);
  }

  lemma SciNonzero(sign: bool, s: Sci, shown: int, k: nat, nFrac: nat, total: int)
    requires s.digits != [] && Num(s.digits) == shown && shown * Pow10(k) == total
    requires s.exp == |s.digits| - 1 + k - nFrac
    ensures Decimal10(Signed(sign, Num(s.digits)), s.exp - (|s.digits| - 1))
      == Decimal10(Signed(sign, total), 0 - nFrac)
  {
    ScaledBack(sign, shown, k, nFrac, total);
  }

  lemma SciFormValue(sign: bool, d: Fixed, n: nat)
    requires GoodFixed(d)
    ensures var s := SciForm(d, n);
      Decimal10(Signed(sign, Num(s.digits)), s.exp - (|s.digits| - 1))
        == Decimal10(Signed(sign, Num(d.digits)), 0 - d.nFrac)
  {
    var s, kept := SciForm(d, n), d.digits[..Kept(d.digits, n)];
    var shown := kept[LeadingZeros(kept)..];
    ShownValue(d.digits, n);
    if shown == [] {
      SciOfZero(sign, Num(d.digits), 0 - d.nFrac);
    } else {
      SciNonzero(sign, s, Num(shown), |d.digits| - |kept|, d.nFrac, Num(d.digits));
    }
  }

  lemma SameNumber(sign: bool, s: Sci, d: Fixed)
    requires GoodFixed(d) && s.digits != []
    requires Decimal10(Signed(sign, Num(s.digits)), s.exp - (|s.digits| - 1))
      == Decimal10(Signed(sign, Num(d.digits)), 0 - d.nFrac)
    ensures NumeralValue(SciNumeral(sign, s)) == FixedValue(sign, d)
  {
    SciNumeralValue(sign, s);
    FixedIsDecimal10(sign, d);
  }

  lemma SciValue(sign: bool, d: Fixed, n: nat)
    requires GoodFixed(d)
    ensures NumeralValue(SciNumeral(sign, SciForm(d, n))) == FixedValue(sign, d)
  {
    SciFormValue(sign, d, n);
    SameNumber(sign, SciForm(d, n), d);
  }

  /** The exponents that can be printed: only the least of them has eight digits. */
  lemma SciExponentRange(d: Fixed, n: nat)
    requires GoodFixed(d) && |d.digits| <= MAX_DIGIT
    ensures -MAX_DIGIT <= SciForm(d, n).exp < MAX_DIGIT
    ensures SciForm(d, n).exp != 0 ==> Num(SciForm(d, n).digits) > 0
  {
    var s, kept := SciForm(d, n), d.digits[..Kept(d.digits, n)];
    if kept[LeadingZeros(kept)..] != [] {
      NumPositive(s.digits, 0);
    }
  }

  lemma SciNumeralIsWellFormed(sign: bool, s: Sci)
    requires s.digits != [] && AllDigits(s.digits)
    ensures WellFormed(SciNumeral(sign, s))
    ensures SmallExp(SciNumeral(sign, s).exp) <==> -10 * EXPONENT_STOP < s.exp < 10 * EXPONENT_STOP
    ensures Num(SciNumeral(sign, s).whole + SciNumeral(sign, s).frac) == 0 <==> Num(s.digits) == 0
  {
    SciExponent(sign, s);
    if |s.digits| == 1 {
      assert s.digits == [s.digits[0]];
      OneDigit(s.digits[0]);
    } else {
      assert [s.digits[0]] + s.digits[1..] == s.digits;
    }
  }

  /** Parsing what `decimal_result_sci` prints of a decimal, if the parser does not run out of digits, gives
      back the value exactly if the exponent printed is not the one with eight digits. */
  lemma SciRoundTrip(sign: bool, d: Fixed, n: nat)
    requires GoodFixed(d) && |d.digits| <= MAX_DIGIT
    ensures WellFormed(SciNumeral(sign, SciForm(d, n)))
    ensures var r := Parse(NumeralText(SciNumeral(sign, SciForm(d, n))));
      r.Number? ==> (FixedValue(r.sign, r.fixed) == FixedValue(sign, d) <==> SciForm(d, n).exp > -MAX_DIGIT)
  {
    var s := SciForm(d, n);
    SciNumeralIsWellFormed(sign, s);
    SciExponentRange(d, n);
    SciValue(sign, d, n);
    ParseExact(SciNumeral(sign, s));
  }

  // The decimal for which it does not.

  /** Ten to the minus ten million, in as many digits as there may be. */
  function Tiny(): Fixed {
    Fixed(Zeros(MAX_DIGIT - 1) + [1], MAX_DIGIT)
  }

  lemma TinyPrints()
    ensures GoodFixed(Tiny()) && |Tiny().digits| == MAX_DIGIT && SciForm(Tiny(), 0) == Sci([1], -MAX_DIGIT)
  {
    var ds := Tiny().digits;
    assert ds[MAX_DIGIT - 1] == 1;
    assert Kept(ds, 0) == MAX_DIGIT && ds[..MAX_DIGIT] == ds;
    LeadingZerosAre(ds, MAX_DIGIT - 1);
    assert ds[MAX_DIGIT - 1..] == [1];
  }

  lemma {:induction false} DigitsOfPower(k: nat)
    ensures DigitsOf(Pow10(k)) == [1] + Zeros(k)
  {
    if k > 0 {
      DigitsOfPower(k - 1);
      assert Pow10(k) / 10 == Pow10(k - 1) && Pow10(k) % 10 == 0;
      assert Zeros(k) == Zeros(k - 1) + [0];
    } else {
      assert Zeros(0) == [];
    }
  }

  lemma {:induction false} ExpReadsZeros(k: nat, sofar: nat, j: nat)
    requires sofar == Pow10(j) && Pow10(j + k) >= EXPONENT_STOP && Pow10(j) <= EXPONENT_STOP
    ensures ExpDigits(Text(Zeros(k)), sofar) <= EXPONENT_STOP
  {
    if k > 0 && sofar < EXPONENT_STOP {
      ExpDigitsStep(Zeros(k), sofar);
      assert Zeros(k)[1..] == Zeros(k - 1);
      MillionIsNext(j);
      ExpReadsZeros(k - 1, sofar * 10, j + 1);
    }
  }

  lemma MillionIsNext(j: nat)
    requires Pow10(j) < EXPONENT_STOP
    ensures Pow10(j + 1) <= EXPONENT_STOP
  {
    Million();
    if j >= 6 { Pow10Grows(6, j); } else { Pow10Grows(j + 1, 6); }
  }

  lemma Million()
    ensures Pow10(6) == EXPONENT_STOP && Pow10(7) == MAX_DIGIT
  {
    assert Pow10(3) == 1000 by { assert Pow10(2) == 10 * Pow10(1) && Pow10(1) == 10 * Pow10(0); }
    Pow10Adds(3, 3);
    Pow10Adds(6, 1);
    assert Pow10(1) == 10 * Pow10(0);
  }

  /** Of ten million, the parser reads no more than a million. */
  lemma TenMillionIsReadShort()
    ensures ExpDigits(Text(ExpDigitsOf(MAX_DIGIT)), 0) <= EXPONENT_STOP
  {
    Million();
    DigitsOfPower(7);
    ExpDigitsStep([1] + Zeros(7), 0);
    assert ([1] + Zeros(7))[1..] == Zeros(7);
    assert Pow10(0) == 1;
    ExpReadsZeros(7, 1, 0);
  }

  lemma TinyScanned(n: Numeral)
    requires n == SciNumeral(false, Sci([1], -MAX_DIGIT)) && WellFormed(n)
    ensures |Placed(ScanText(NumeralText(n))).digits| <= 2 * EXPONENT_STOP
  {
    TenMillionIsReadShort();
    ScanNumeral(n);
    assert LeadingZeros([1]) == 0 && [1][0..] + [0] == [1, 0];
  }

  /** The text printed for it is parsed, without complaint, to another number. */
  lemma TinyDoesNotComeBack()
    ensures GoodFixed(Tiny()) && |Tiny().digits| == MAX_DIGIT
    ensures WellFormed(SciNumeral(false, SciForm(Tiny(), 0)))
    ensures var r := Parse(NumeralText(SciNumeral(false, SciForm(Tiny(), 0))));
      r.Number? && FixedValue(r.sign, r.fixed) != FixedValue(false, Tiny())
  {
    TinyPrints();
    SciRoundTrip(false, Tiny(), 0);
    TinyScanned(SciNumeral(false, SciForm(Tiny(), 0)));
  }

  lemma LeadingZerosAre(ds: seq<int>, k: nat)
    requires k < |ds| && (forall i | 0 <= i < k :: ds[i] == 0) && ds[k] != 0
    ensures LeadingZeros(ds) == k
  {
  }
}
