/** The two printers, which fill a buffer of fixed size. (mvsqlite-pgtypes-ext/decimal.c) */
module PrintText {
  import opened Digits
  import opened Numerals
  import opened Printing
  import opened Decimals
  import opened Rounding

  datatype Output = NoMemory | Null | Printed(text: string)

  /** Writes digits `from..to` of `a` into the buffer. */
  method EmitDigits(z: array<char>, i: nat, a: array<int>, from: nat, to: nat) returns (k: nat)
    requires from <= to <= a.Length && i + (to - from) <= z.Length && AllDigits(a[from..to])
    modifies z
    ensures k == i + (to - from) && z[..k] == old(z[..i]) + Text(a[from..to])
  {
    k := i;
    for j := from to to
      invariant k == i + (j - from) && z[..k] == old(z[..i]) + Text(a[from..to])[..j - from]
    {
      ghost var sofar := z[..k];
      assert a[from..to][j - from] == a[j];
      z[k] := CharOf(a[j]);
      assert Text(a[from..to])[..j + 1 - from] == Text(a[from..to])[..j - from] + [CharOf(a[j])];
      assert z[..k + 1] == sofar + [CharOf(a[j])];
      k := k + 1;
    }
  }

  method EmitChar(z: array<char>, i: nat, c: char) returns (k: nat)
    requires i < z.Length
    modifies z
    ensures k == i + 1 && z[..k] == old(z[..i]) + [c]
  {
    z[i] := c;
    k := i + 1;
  }

  /** Skips zeros in front of the integer part `0..n`, but not its last digit. */
  method SkipZeros(a: array<int>, n: nat) returns (j: nat)
    requires n <= a.Length
    ensures n == 0 ==> j == 0
    ensures n > 0 ==> j < n && a[j..n] == Stripped(a[..n])
  {
    j := 0;
    while n - j > 1 && a[j] == 0
      invariant j <= n && (n > 0 ==> j < n) && forall i | 0 <= i < j :: a[i] == 0
    {
      j := j + 1;
    }
    if n > 0 { StrippedIs(a[..n], j); }
  }

  lemma StrippedIs(whole: seq<int>, j: nat)
    requires j < |whole| && (forall i | 0 <= i < j :: whole[i] == 0) && (whole[j] != 0 || j == |whole| - 1)
    ensures whole[j..] == Stripped(whole)
  {
    var k := LeadingZeros(whole);
    assert k == j || (k == |whole| && j == |whole| - 1);
  }

  /** Prints in plain notation. */
  method Result(p: Decimal, memory: bool) returns (out: Output)
    requires p.Valid()
    modifies p`sign
    ensures var text := NumeralText(PlainNumeral(old(p.sign), p.Contents()));
      out == if p.oom then NoMemory else if p.isNull then Null else if !memory then NoMemory else Printed(text)
  {
    if p.oom { return NoMemory; }
    if p.isNull { return Null; }
    if !memory { return NoMemory; }
    var text := PrintPlain(p);
    return Printed(text);
  }

  method PrintPlain(p: Decimal) returns (text: string)
    requires p.Valid()
    modifies p`sign
    ensures text == NumeralText(PlainNumeral(old(p.sign), p.Contents()))
  {
    if p.nDigit == 0 || (p.nDigit == 1 && p.a[0] == 0) { p.sign := false; }
    assert p.sign == PrintsSign(old(p.sign), p.Contents());
    PlainText(old(p.sign), p.Contents());
    text := Fill(p);
  }

  /** The buffer of eight cells more than digits never overflows. */
  method Fill(p: Decimal) returns (text: string)
    requires p.Valid()
    ensures AllDigits(Stripped(Whole(p.Contents())))
    ensures text == SignMark(p.sign) + Text(Stripped(Whole(p.Contents()))) + FracMark(p.Contents())
  {
    var z := new char[p.nDigit + 8];
    var i, n := 0, p.nDigit - p.nFrac;
    if p.sign { i := EmitChar(z, i, '-'); }
    assert z[..i] == SignMark(p.sign);
    assert Whole(p.Contents()) == p.a[..n];
    i := EmitWhole(z, i, p.a, n, p.nDigit);
    i := EmitFrac(z, i, p);
    text := z[..i];
  }

  method EmitFrac(z: array<char>, i: nat, p: Decimal) returns (k: nat)
    requires p.Valid() && i + p.nFrac + 1 <= z.Length
    modifies z
    ensures i <= k <= z.Length && z[..k] == old(z[..i]) + FracMark(p.Contents())
  {
    k := i;
    var n := p.nDigit - p.nFrac;
    assert Frac(p.Contents()) == p.a[n..p.nDigit];
    if p.nFrac > 0 {
      ghost var head := z[..i];
      k := EmitChar(z, k, '.');
      k := EmitDigits(z, k, p.a, n, p.nDigit);
      assert z[..k] == head + ['.'] + Text(p.a[n..p.nDigit]);
      assert z[..k] == head + ("." + Text(p.a[n..p.nDigit]));
    }
  }

  function FracMark(d: Fixed): string
    requires GoodFixed(d)
  {
    if d.nFrac > 0 then "." + Text(Frac(d)) else ""
  }

  method EmitWhole(z: array<char>, i: nat, a: array<int>, n: nat, nDigit: nat) returns (k: nat)
    requires n <= nDigit <= a.Length && i + n + 1 <= z.Length && AllDigits(a[..nDigit])
    modifies z
    ensures AllDigits(Stripped(a[..n])) && i < k <= i + n + 1 && z[..k] == old(z[..i]) + Text(Stripped(a[..n]))
  {
    if n == 0 {
      k := EmitChar(z, i, '0');
      assert Stripped(a[..0]) == [0] && Text([0]) == "0";
    } else {
      var j := SkipZeros(a, n);
      SliceOfDigits(a, j, n, nDigit);
      k := EmitDigits(z, i, a, j, n);
    }
  }

  lemma SliceOfDigits(a: array<int>, from: nat, to: nat, nDigit: nat)
    requires from <= to <= nDigit <= a.Length && AllDigits(a[..nDigit])
    ensures AllDigits(a[from..to])
  {
    forall i | 0 <= i < to - from ensures 0 <= a[from..to][i] <= 9 {
      assert a[from..to][i] == a[..nDigit][from + i];
    }
  }

  function SignMark(s: bool): string {
    if s then "-" else ""
  }

  lemma PlainFracText(n: Numeral)
    requires WellFormed(n) && n.exp.NoExp?
    ensures FracText(n) == if n.point then "." + Text(n.frac) else ""
  {
    assert Text(n.frac) + "" == Text(n.frac);
  }

  lemma PlainText(sign: bool, d: Fixed)
    requires GoodFixed(d)
    ensures AllDigits(Stripped(Whole(d)))
    ensures NumeralText(PlainNumeral(sign, d)) == SignMark(PrintsSign(sign, d)) + Text(Stripped(Whole(d))) + FracMark(d)
  {
    var n := PlainNumeral(sign, d);
    PlainFracText(n);
    assert n.whole == Stripped(Whole(d)) && SignText(n.sign) == SignMark(PrintsSign(sign, d)) && n.spaces == "";
    Regroup(SignText(n.sign), Text(n.whole), FracText(n));
  }

  lemma Regroup(a: string, b: string, c: string)
    ensures "" + (a + (b + c)) == a + b + c
  {
  }

  // ---- Scientific notation ----

  /** Drops trailing zeros, but not below `n` digits. */
  method CountKept(a: array<int>, nDigit: nat, n: nat) returns (k: nat)
    requires nDigit <= a.Length
    ensures k == Kept(a[..nDigit], n)
  {
    k := nDigit;
    while k > n && a[k - 1] == 0
      invariant k <= nDigit && Kept(a[..k], n) == Kept(a[..nDigit], n)
    {
      assert a[..k][..k - 1] == a[..k - 1];
      k := k - 1;
    }
  }

  /** What is shown of the digits, and the exponent. */
  method ToSci(p: Decimal, n: nat) returns (digits: array<int>, from: nat, to: nat, exp: int)
    requires p.Valid()
    ensures from < to <= digits.Length && AllDigits(digits[from..to]) && to - from <= p.nDigit + 1
    ensures SciForm(p.Contents(), n) == Sci(digits[from..to], exp)
  {
    to := CountKept(p.a, p.nDigit, n);
    from := CountLeading(p.a, to, 0);
    LeadingZerosIs(p.a[..to], from);
    assert p.a[..p.nDigit][..to] == p.a[..to] && p.a[..to][from..] == p.a[from..to];
    var nFrac := p.nFrac + (to - p.nDigit);
    digits := p.a;
    if from == to {
      digits := new int[1](_ => 0);
      from, to, nFrac := 0, 1, 0;
      assert digits[0..1] == [0];
    }
    exp := (to - from) - nFrac - 1;
  }

  function SciText(sign: bool, s: Sci): string
    requires s.digits != [] && AllDigits(s.digits)
  {
    [if sign then '-' else '+', CharOf(s.digits[0]), '.'] +
    (if |s.digits| == 1 then "0" else Text(s.digits[1..])) + ExponentText(s.exp)
  }

  function ExponentText(exp: int): string {
    var magnitude: nat := if exp >= 0 then exp else -exp;
    ExpDigitsOfIsDigits(magnitude);
    ExpText(Exp(false, if exp >= 0 then Plus else Minus, ExpDigitsOf(magnitude)))
  }

  lemma ExpDigitsOfIsDigits(n: nat)
    ensures AllDigits(ExpDigitsOf(n))
  {
  }

  lemma SciTextIsNumeral(sign: bool, s: Sci)
    requires s.digits != [] && AllDigits(s.digits) && WellFormed(SciNumeral(sign, s))
    ensures SciText(sign, s) == NumeralText(SciNumeral(sign, s))
  {
    var n := SciNumeral(sign, s);
    var first, frac, exp := [CharOf(s.digits[0])], Text(n.frac), ExpText(n.exp);
    assert Text(n.whole) == first && (|s.digits| == 1 ==> frac == "0");
    assert FracText(n) == "." + (frac + exp);
    Regroup(SignText(n.sign), first, "." + (frac + exp));
    assert SignText(n.sign) + first + ("." + (frac + exp)) == [SignText(n.sign)[0], first[0], '.'] + frac + exp;
  }

  /** Prints in scientific notation with at least `n` digits. */
  method ResultSci(p: Decimal, n: int, memory: bool) returns (out: Output)
    requires p.Valid()
    ensures var text := SciText(p.sign, SciForm(p.Contents(), if n < 1 then 0 else n));
      out == if p.oom then NoMemory else if p.isNull then Null else if !memory then NoMemory else Printed(text)
  {
    if p.oom { return NoMemory; }
    if p.isNull { return Null; }
    if !memory { return NoMemory; }
    SciExponentRange(p.Contents(), if n < 1 then 0 else n);
    var a, from, to, exp := ToSci(p, if n < 1 then 0 else n);
    var text := FillSci(p.sign, a, from, to, exp);
    return Printed(text);
  }

  /** Everything, the exponent too, goes into a buffer of twenty cells more than digits. */
  method FillSci(sign: bool, a: array<int>, from: nat, to: nat, exp: int) returns (text: string)
    requires from < to <= a.Length && AllDigits(a[from..to]) && -MAX_DIGIT <= exp <= MAX_DIGIT
    ensures text == SciText(sign, Sci(a[from..to], exp))
  {
    var nDigit := to - from;
    var z := new char[nDigit + 20];
    assert a[from..to][0] == a[from] && a[from..to][1..] == a[from + 1..to];
    z[0] := if sign then '-' else '+';
    z[1] := CharOf(a[from]);
    z[2] := '.';
    var i := 3;
    assert z[..3] == [if sign then '-' else '+', CharOf(a[from]), '.'];
    if nDigit == 1 {
      i := EmitChar(z, i, '0');
    } else {
      i := EmitDigits(z, i, a, from + 1, to);
    }
    ExponentTextFits(exp);
    i := EmitBounded(z, i, ExponentText(exp));
    text := z[..i];
  }

  /** A sign, a letter and at most eight digits. */
  lemma ExponentTextFits(exp: int)
    requires -MAX_DIGIT <= exp <= MAX_DIGIT
    ensures |ExponentText(exp)| <= 10
  {
    var m: nat := if exp >= 0 then exp else -exp;
    Million();
    assert Pow10(8) == 10 * Pow10(7);
    DigitsOfLength(m, 8);
  }

  /** Formatted output into what is left of a buffer: cut off to leave room for the final zero byte. */
  method EmitBounded(z: array<char>, i: nat, text: string) returns (k: nat)
    requires i < z.Length
    modifies z
    ensures var n := if |text| < z.Length - i then |text| else z.Length - i - 1;
      k == i + n && z[..k] == old(z[..i]) + text[..n]
  {
    k := i;
    while k - i < |text| && k + 1 < z.Length
      invariant i <= k < z.Length && k - i <= |text| && z[..k] == old(z[..i]) + text[..k - i]
    {
      k := EmitChar(z, k, text[k - i]);
      assert text[..k - i] == text[..k - 1 - i] + [text[k - 1 - i]];
    }
  }
}
