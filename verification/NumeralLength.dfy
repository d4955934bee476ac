/** Which numerals the parser refuses, counted on the numeral. (mvsqlite-pgtypes-ext/decimal.c) */
module NumeralLength {
  import opened Digits
  import opened Numerals

  /** The digits it takes to write a numeral without its exponent: those before the point that count, those behind
      it, the zeros that a large exponent adds behind, and those that a small one adds in front, down to one
      before the point. */
  function DigitsNeeded(n: Numeral): nat
    requires WellFormed(n)
  {
    var whole, frac, e := |n.whole| - LeadingZeros(n.whole), |n.frac|, ReadExp(n.exp);
    if e > frac then whole + e
    else if e < 0 && whole <= -e then 1 + frac - e
    else whole + frac
  }

  /** A numeral is refused exactly if it takes more than ten million digits. */
  lemma RefusedExactly(n: Numeral)
    requires WellFormed(n)
    ensures Parse(NumeralText(n)).TooLong? <==> DigitsNeeded(n) > 10_000_000
  {
    ScanNumeral(n);
    var s := ScanText(NumeralText(n));
    PointAfterWhole(n, s);
    PlacedLength(s);
  }

  lemma PlacedLength(s: Scanned)
    requires AllDigits(s.digits) && s.mark <= |s.digits| + 1
    ensures var frac := PointPlaced(s).nFrac; var whole := |s.digits| - frac;
      |Placed(s).digits| ==
        if s.exp > frac then whole + s.exp else if s.exp < 0 && whole <= -s.exp then 1 + frac - s.exp else whole + frac
  {
  }

  /** How the exponent is read: digit by digit until it is at least a million. */
  lemma {:induction false} ReadsUntilMillion(ds: seq<int>, sofar: nat) returns (k: nat)
    requires AllDigits(ds)
    ensures k <= |ds| && ExpDigits(Text(ds), sofar) == sofar * Pow10(k) + Num(ds[..k])
    ensures k == |ds| || ExpDigits(Text(ds), sofar) >= 1_000_000
    ensures k > 0 ==> sofar * Pow10(k - 1) + Num(ds[..k - 1]) < 1_000_000
  {
    if ds == [] || sofar >= 1_000_000 {
      k := 0;
      assert ds[..0] == [];
    } else {
      ExpDigitsStep(ds, sofar);
      var j := ReadsUntilMillion(ds[1..], sofar * 10 + ds[0]);
      k := j + 1;
      OneMoreDigit(ds, sofar, j);
      if j > 0 { OneMoreDigit(ds, sofar, j - 1); } else { assert ds[..0] == []; }
    }
  }

  lemma OneMoreDigit(ds: seq<int>, sofar: nat, j: nat)
    requires AllDigits(ds) && j < |ds|
    ensures (sofar * 10 + ds[0]) * Pow10(j) + Num(ds[1..][..j]) == sofar * Pow10(j + 1) + Num(ds[..j + 1])
  {
    var head := ds[..j + 1];
    assert head[1..] == ds[1..][..j] && head[0] == ds[0];
    NumCons(head);
    var p := Pow10(j);
    assert Pow10(j + 1) == 10 * p;
    assert (sofar * 10 + ds[0]) * p == sofar * (10 * p) + ds[0] * p;
  }

  /** The exponent as read is the number its first digits make, as few of them as come to a million. */
  lemma ReadExpIs(e: ExpPart) returns (k: nat)
    requires e.Exp? && AllDigits(e.digits)
    ensures k <= |e.digits| && ReadExp(e) == (if e.sign.Minus? then -Num(e.digits[..k]) else Num(e.digits[..k]))
    ensures k == |e.digits| || Num(e.digits[..k]) >= 1_000_000
    ensures k > 0 ==> Num(e.digits[..k - 1]) < 1_000_000
  {
    k := ReadsUntilMillion(e.digits, 0);
  }

  /** So every numeral of moderate length and exponent is parsed, and to its value. */
  lemma ModerateIsParsed(n: Numeral)
    requires WellFormed(n) && |n.whole| + |n.frac| < 1_000_000
    requires n.exp.Exp? ==> Num(n.exp.digits) < 1_000_000
    ensures var r := Parse(NumeralText(n)); r.Number? && FixedValue(r.sign, r.fixed) == NumeralValue(n)
  {
    RefusedExactly(n);
    ReadExpExact(n.exp);
    ParseExact(n);
  }

  // ---- Other texts ----

  /** A character that the parser looks at: a digit, the point or the letter before an exponent. */
  predicate Counts(c: char) {
    '0' <= c <= '9' || c == '.' || c == 'e' || c == 'E'
  }

  /** Any other character is passed over, wherever it is before the exponent. */
  lemma {:induction false} JunkIsPassedOver(a: string, c: char, b: string, digits: seq<int>, mark: nat)
    requires AllDigits(digits) && mark <= |digits| + 1 && !Counts(c) && 'e' !in a && 'E' !in a
    ensures Body(a + [c] + b, digits, mark) == Body(a + b, digits, mark)
  {
    if a == [] {
      assert a + [c] + b == [c] + b && ([c] + b)[1..] == b && a + b == b;
    } else {
      assert (a + [c] + b)[1..] == a[1..] + [c] + b && (a + b)[1..] == a[1..] + b;
      assert (a + [c] + b)[0] == a[0] == (a + b)[0] && a[0] != 'e' && a[0] != 'E';
      var digits' := if IsDigit(a[0]) then digits + [DigitOf(a[0])] else digits;
      JunkIsPassedOver(a[1..], c, b, digits', if a[0] == '.' then |digits| + 1 else mark);
    }
  }
}
