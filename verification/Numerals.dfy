/** Decimal numerals as text: what the parser makes of every string, and that it is exact on numerals.
    (mvsqlite-pgtypes-ext/decimal.c) */
module Numerals {
  import opened Digits
  import opened Ratios

  const MAX_DIGIT := 10_000_000
  const EXPONENT_STOP := 1_000_000

  predicate IsSpace(c: char) {
    c == ' ' || '\t' <= c <= '\r'
  }

  predicate IsDigit(c: char) {
    '0' <= c <= '9'
  }

  function DigitOf(c: char): (d: int)
    requires IsDigit(c)
    ensures 0 <= d <= 9
  {
    c as int - '0' as int
  }

  function CharOf(d: int): (c: char)
    requires 0 <= d <= 9
    ensures IsDigit(c) && DigitOf(c) == d
  {
    (d + '0' as int) as char
  }

  // ---- Scanning ----

  /** `z` without the longest prefix of characters in `skip`. */
  function Skip(z: string, skip: char -> bool): string {
    if z != [] && skip(z[0]) then Skip(z[1..], skip) else z
  }

  /** Digits, the digit count plus one at the last decimal point (or zero), and the exponent. */
  datatype Scanned = Scanned(digits: seq<int>, mark: nat, exp: int)

  function ExpDigits(z: string, sofar: nat): nat {
    if z == [] || sofar >= EXPONENT_STOP then sofar
    else ExpDigits(z[1..], if IsDigit(z[0]) then sofar * 10 + DigitOf(z[0]) else sofar)
  }

  function Exponent(z: string): int {
    if z == [] then 0
    else if z[0] == '-' then -(ExpDigits(z[1..], 0) as int)
    else if z[0] == '+' then ExpDigits(z[1..], 0)
    else ExpDigits(z, 0)
  }

  function Body(z: string, digits: seq<int>, mark: nat): (r: Scanned)
    requires AllDigits(digits) && mark <= |digits| + 1
    ensures AllDigits(r.digits) && r.mark <= |r.digits| + 1
  {
    if z == [] then Scanned(digits, mark, 0)
    else if IsDigit(z[0]) then Body(z[1..], digits + [DigitOf(z[0])], mark)
    else if z[0] == '.' then Body(z[1..], digits, |digits| + 1)
    else if z[0] == 'e' || z[0] == 'E' then Scanned(digits, mark, Exponent(z[1..]))
    else Body(z[1..], digits, mark)
  }

  function AfterSign(z: string): string {
    if z != [] && (z[0] == '-' || z[0] == '+') then z[1..] else z
  }

  function IsNegative(z: string): bool {
    var rest := Skip(z, IsSpace);
    rest != [] && rest[0] == '-'
  }

  predicate IsZeroChar(c: char) {
    c == '0'
  }

  function ScanText(z: string): (r: Scanned)
    ensures AllDigits(r.digits) && r.mark <= |r.digits| + 1
  {
    Body(Skip(AfterSign(Skip(z, IsSpace)), IsZeroChar), [], 0)
  }

  // ---- Moving the decimal point ----

  /** Digits, of which the last `nFrac` come after the decimal point. */
  datatype Fixed = Fixed(digits: seq<int>, nFrac: nat)

  predicate GoodFixed(d: Fixed) {
    AllDigits(d.digits) && d.nFrac <= |d.digits|
  }

  function Zeros(n: nat): seq<int> {
    seq(n, _ => 0)
  }

  /** Moves the point right, padding with zeros behind. */
  function Raise(d: Fixed, exp: nat): (r: Fixed)
    requires GoodFixed(d)
    ensures GoodFixed(r)
  {
    if exp <= d.nFrac then d.(nFrac := d.nFrac - exp) else Fixed(d.digits + Zeros(exp - d.nFrac), 0)
  }

  /** Moves the point left, keeping one digit before it by padding with zeros in front. */
  function Lower(d: Fixed, exp: nat): (r: Fixed)
    requires GoodFixed(d) && exp > 0
    ensures GoodFixed(r)
  {
    var extra := |d.digits| - d.nFrac - 1;
    if extra >= exp then d.(nFrac := d.nFrac + exp)
    else Fixed(Zeros(exp - extra) + d.digits, |d.digits| - 1 + exp - extra)
  }

  function PointPlaced(s: Scanned): (d: Fixed)
    requires AllDigits(s.digits) && s.mark <= |s.digits| + 1
    ensures GoodFixed(d)
  {
    Fixed(s.digits, if s.mark > 0 then |s.digits| - (s.mark - 1) else 0)
  }

  function Placed(s: Scanned): (d: Fixed)
    requires AllDigits(s.digits) && s.mark <= |s.digits| + 1
    ensures GoodFixed(d)
  {
    var d := PointPlaced(s);
    if s.exp > 0 then Raise(d, s.exp) else if s.exp < 0 then Lower(d, -s.exp) else d
  }

  predicate AllZero(s: seq<int>) {
    forall i | 0 <= i < |s| :: s[i] == 0
  }

  /** What a text denotes: no result at all if it takes too many digits. */
  datatype Parsed = TooLong | Number(sign: bool, fixed: Fixed)

  function Parse(z: string): Parsed {
    var d := Placed(ScanText(z));
    if |d.digits| > MAX_DIGIT then TooLong else Number(IsNegative(z) && !AllZero(d.digits), d)
  }

  // ---- Values ----

  /** c times ten to the e. */
  function Decimal10(c: int, e: int): real {
    if e >= 0 then (c * Pow10(e)) as real else Ratio(c, -e)
  }

  function FixedValue(sign: bool, d: Fixed): real {
    Ratio(Signed(sign, Num(d.digits)), d.nFrac)
  }

  lemma Associate(a: int, b: int, c: int)
    ensures a * (b * c) == (a * b) * c
  {
  }

  lemma Decimal10Scale(c: int, e: int, k: nat)
    ensures Decimal10(c * Pow10(k), e - k) == Decimal10(c, e)
  {
    if e < 0 {
      RatioScale(c, -e, k);
    } else if e < k {
      Pow10Adds(e, k - e);
      Associate(c, Pow10(e), Pow10(k - e));
      RatioScale(c * Pow10(e), 0, k - e);
    } else {
      Pow10Adds(k, e - k);
      Associate(c, Pow10(k), Pow10(e - k));
    }
  }

  lemma SignedScale(sign: bool, m: int, p: int)
    ensures Signed(sign, m * p) == Signed(sign, m) * p
  {
    assert -(m * p) == (-m) * p;
  }

  lemma FixedIsDecimal10(sign: bool, d: Fixed)
    ensures FixedValue(sign, d) == Decimal10(Signed(sign, Num(d.digits)), -(d.nFrac as int))
  {
    assert Pow10(0) == 1;
  }

  lemma RaiseValue(sign: bool, d: Fixed, exp: nat)
    requires GoodFixed(d)
    ensures FixedValue(sign, Raise(d, exp)) == Decimal10(Signed(sign, Num(d.digits)), exp - d.nFrac)
  {
    var r := Raise(d, exp);
    FixedIsDecimal10(sign, r);
    if exp > d.nFrac {
      var k := exp - d.nFrac;
      NumAppend(d.digits, Zeros(k));
      NumZeros(Zeros(k));
      SignedScale(sign, Num(d.digits), Pow10(k));
      Decimal10Scale(Signed(sign, Num(d.digits)), k, k);
    }
  }

  lemma LowerValue(sign: bool, d: Fixed, exp: nat)
    requires GoodFixed(d) && exp > 0
    ensures FixedValue(sign, Lower(d, exp)) == Decimal10(Signed(sign, Num(d.digits)), -(exp + d.nFrac))
  {
    var r := Lower(d, exp);
    FixedIsDecimal10(sign, r);
    var extra := |d.digits| - d.nFrac - 1;
    if extra < exp {
      NumAppend(Zeros(exp - extra), d.digits);
      NumZeros(Zeros(exp - extra));
    }
  }

  /** Where the point was and the exponent say where it goes. */
  lemma PlacedValue(sign: bool, s: Scanned)
    requires AllDigits(s.digits) && s.mark <= |s.digits| + 1
    ensures FixedValue(sign, Placed(s)) == Decimal10(Signed(sign, Num(s.digits)), s.exp - PointPlaced(s).nFrac)
  {
    var d := PointPlaced(s);
    if s.exp > 0 {
      RaiseValue(sign, d, s.exp);
    } else if s.exp < 0 {
      LowerValue(sign, d, -s.exp);
    } else {
      FixedIsDecimal10(sign, d);
    }
  }

  // ---- Numerals ----

  datatype Sign = Unsigned | Plus | Minus

  datatype ExpPart = NoExp | Exp(upper: bool, sign: Sign, digits: seq<int>)

  /** Spaces, a sign, digits, perhaps a point and more digits, perhaps an exponent. */
  datatype Numeral = Numeral(spaces: string, sign: Sign, whole: seq<int>, point: bool, frac: seq<int>, exp: ExpPart)

  predicate WellFormed(n: Numeral) {
    && (forall i | 0 <= i < |n.spaces| :: IsSpace(n.spaces[i]))
    && AllDigits(n.whole) && AllDigits(n.frac) && (n.frac != [] ==> n.point)
    && (n.exp.Exp? ==> AllDigits(n.exp.digits))
  }

  function Text(ds: seq<int>): string
    requires AllDigits(ds)
  {
    seq(|ds|, i requires 0 <= i < |ds| => CharOf(ds[i]))
  }

  function SignText(s: Sign): string {
    match s
    case Unsigned => ""
    case Plus => "+"
    case Minus => "-"
  }

  function ExpText(e: ExpPart): string
    requires e.Exp? ==> AllDigits(e.digits)
  {
    match e
    case NoExp => ""
    case Exp(upper, sign, digits) => [if upper then 'E' else 'e'] + (SignText(sign) + Text(digits))
  }

  function ExpValue(e: ExpPart): int {
    match e
    case NoExp => 0
    case Exp(_, sign, digits) => Signed(sign.Minus?, Num(digits))
  }

  /** What the parser reads of it. */
  function ReadExp(e: ExpPart): int
    requires e.Exp? ==> AllDigits(e.digits)
  {
    match e
    case NoExp => 0
    case Exp(_, sign, digits) => Signed(sign.Minus?, ExpDigits(Text(digits), 0))
  }

  /** At most seven digits, not counting zeros in front. */
  predicate SmallExp(e: ExpPart) {
    e.Exp? ==> Num(e.digits) < 10 * EXPONENT_STOP
  }

  function FracText(n: Numeral): string
    requires WellFormed(n)
  {
    if n.point then ['.'] + (Text(n.frac) + ExpText(n.exp)) else ExpText(n.exp)
  }

  function NumeralText(n: Numeral): string
    requires WellFormed(n)
  {
    n.spaces + (SignText(n.sign) + (Text(n.whole) + FracText(n)))
  }

  /** Sign times all its digits, times ten to the exponent less the number of digits after the point. */
  function NumeralValue(n: Numeral): real {
    Decimal10(Signed(n.sign.Minus?, Num(n.whole + n.frac)), ExpValue(n.exp) - |n.frac|)
  }

  lemma TextCons(ds: seq<int>, rest: string)
    requires AllDigits(ds) && ds != []
    ensures Text(ds) + rest != [] && (Text(ds) + rest)[0] == CharOf(ds[0])
    ensures (Text(ds) + rest)[1..] == Text(ds[1..]) + rest
  {
  }

  lemma {:induction false} SkipsPrefix(p: string, rest: string, skip: char -> bool)
    requires (forall i | 0 <= i < |p| :: skip(p[i])) && (rest != [] ==> !skip(rest[0]))
    ensures Skip(p + rest, skip) == rest
  {
    if p == [] {
      assert p + rest == rest;
    } else {
      assert (p + rest)[1..] == p[1..] + rest;
      SkipsPrefix(p[1..], rest, skip);
    }
  }

  function LeadingZeros(ds: seq<int>): (k: nat)
    ensures k <= |ds| && (forall i | 0 <= i < k :: ds[i] == 0) && (k < |ds| ==> ds[k] != 0)
  {
    if ds != [] && ds[0] == 0 then 1 + LeadingZeros(ds[1..]) else 0
  }

  lemma {:induction false} SkipsZeros(ds: seq<int>, rest: string)
    requires AllDigits(ds) && (rest != [] ==> rest[0] != '0')
    ensures Skip(Text(ds) + rest, IsZeroChar) == Text(ds[LeadingZeros(ds)..]) + rest
  {
    if ds == [] {
      assert Text(ds) + rest == rest;
    } else {
      TextCons(ds, rest);
      if ds[0] == 0 {
        SkipsZeros(ds[1..], rest);
        assert ds[1..][LeadingZeros(ds[1..])..] == ds[LeadingZeros(ds)..];
      }
    }
  }

  lemma {:induction false} BodyReadsDigits(ds: seq<int>, rest: string, digits: seq<int>, mark: nat)
    requires AllDigits(ds) && AllDigits(digits) && mark <= |digits| + 1
    ensures Body(Text(ds) + rest, digits, mark) == Body(rest, digits + ds, mark)
  {
    if ds == [] {
      assert Text(ds) + rest == rest && digits + ds == digits;
    } else {
      TextCons(ds, rest);
      BodyReadsDigits(ds[1..], rest, digits + [ds[0]], mark);
      assert digits + [ds[0]] + ds[1..] == digits + ds;
    }
  }

  lemma ExpStep(sofar: nat, d: nat, p: nat, rest: nat, total: nat)
    requires total == sofar * (10 * p) + (d * p + rest) && p >= 1
    ensures (sofar * 10 + d) * p + rest == total
    ensures total < 10 * EXPONENT_STOP ==> sofar < EXPONENT_STOP
  {
    var q := sofar * p;
    assert sofar * (10 * p) == 10 * q;
    assert (sofar * 10 + d) * p == 10 * q + d * p;
    assert q >= sofar && d * p >= 0;
  }

  lemma ExpDigitsStep(ds: seq<int>, sofar: nat)
    requires AllDigits(ds) && ds != [] && sofar < EXPONENT_STOP
    ensures ExpDigits(Text(ds), sofar) == ExpDigits(Text(ds[1..]), sofar * 10 + ds[0])
  {
    assert Text(ds)[1..] == Text(ds[1..]) && Text(ds)[0] == CharOf(ds[0]);
  }

  /** `total` is what `sofar` grows to with the digits `ds` behind it. */
  predicate GrowsTo(sofar: nat, ds: seq<int>, total: int) {
    total == sofar * Pow10(|ds|) + Num(ds)
  }

  lemma GrowsToStep(sofar: nat, ds: seq<int>, total: int)
    requires AllDigits(ds) && ds != [] && GrowsTo(sofar, ds, total)
    ensures GrowsTo(sofar * 10 + ds[0], ds[1..], total) && (total < 10 * EXPONENT_STOP ==> sofar < EXPONENT_STOP)
  {
    NumCons(ds);
    NumBound(ds[1..]);
    assert Pow10(|ds|) == 10 * Pow10(|ds| - 1) && |ds[1..]| == |ds| - 1;
    ExpStep(sofar, ds[0], Pow10(|ds| - 1), Num(ds[1..]), total);
  }

  lemma {:induction false} ExpReadsDigits(ds: seq<int>, sofar: nat, total: int)
    requires AllDigits(ds) && GrowsTo(sofar, ds, total) && total < 10 * EXPONENT_STOP
    ensures ExpDigits(Text(ds), sofar) == total
  {
    if ds != [] {
      GrowsToStep(sofar, ds, total);
      ExpReadsDigits(ds[1..], sofar * 10 + ds[0], total);
      ExpDigitsStep(ds, sofar);
    }
  }

  lemma {:induction false} ExpReadsLittle(z: string, sofar: nat)
    requires sofar < 10 * EXPONENT_STOP
    ensures ExpDigits(z, sofar) < 10 * EXPONENT_STOP
  {
    if z != [] && sofar < EXPONENT_STOP {
      ExpReadsLittle(z[1..], if IsDigit(z[0]) then sofar * 10 + DigitOf(z[0]) else sofar);
    }
  }

  /** The exponent is read right exactly if it is small. */
  lemma ReadExpExact(e: ExpPart)
    requires e.Exp? ==> AllDigits(e.digits)
    ensures ReadExp(e) == ExpValue(e) <==> SmallExp(e)
  {
    if e.Exp? {
      NumBound(e.digits);
      ExpReadsLittle(Text(e.digits), 0);
      if SmallExp(e) { ExpReadsDigits(e.digits, 0, Num(e.digits)); }
    }
  }

  lemma ExponentReads(sign: Sign, ds: seq<int>)
    requires AllDigits(ds)
    ensures Exponent(SignText(sign) + Text(ds)) == Signed(sign.Minus?, ExpDigits(Text(ds), 0))
  {
    if sign.Unsigned? {
      assert SignText(sign) + Text(ds) == Text(ds);
    } else {
      assert (SignText(sign) + Text(ds))[1..] == Text(ds);
    }
  }

  /** The end of a numeral: its exponent, if any. */
  lemma BodyReadsExp(e: ExpPart, digits: seq<int>, mark: nat)
    requires (e.Exp? ==> AllDigits(e.digits)) && AllDigits(digits) && mark <= |digits| + 1
    ensures Body(ExpText(e), digits, mark) == Scanned(digits, mark, ReadExp(e))
  {
    if e.Exp? {
      ExponentReads(e.sign, e.digits);
      assert ExpText(e)[1..] == SignText(e.sign) + Text(e.digits);
    }
  }

  lemma BodyReadsPoint(rest: string, digits: seq<int>)
    requires AllDigits(digits)
    ensures Body(['.'] + rest, digits, 0) == Body(rest, digits, |digits| + 1)
  {
    assert (['.'] + rest)[1..] == rest;
  }

  lemma BodyReadsFracDigits(frac: seq<int>, e: ExpPart, digits: seq<int>)
    requires AllDigits(frac) && AllDigits(digits) && (e.Exp? ==> AllDigits(e.digits))
    ensures Body(['.'] + (Text(frac) + ExpText(e)), digits, 0) == Scanned(digits + frac, |digits| + 1, ReadExp(e))
  {
    BodyReadsPoint(Text(frac) + ExpText(e), digits);
    BodyReadsDigits(frac, ExpText(e), digits, |digits| + 1);
    BodyReadsExp(e, digits + frac, |digits| + 1);
  }

  lemma BodyReadsFrac(n: Numeral, digits: seq<int>)
    requires WellFormed(n) && AllDigits(digits)
    ensures Body(FracText(n), digits, 0) ==
      Scanned(digits + n.frac, if n.point then |digits| + 1 else 0, ReadExp(n.exp))
  {
    if n.point {
      BodyReadsFracDigits(n.frac, n.exp, digits);
    } else {
      BodyReadsExp(n.exp, digits, 0);
      assert digits + n.frac == digits;
    }
  }

  lemma FracTextStart(n: Numeral)
    requires WellFormed(n)
    ensures FracText(n) != [] ==> FracText(n)[0] == '.' || FracText(n)[0] == 'e' || FracText(n)[0] == 'E'
  {
  }

  lemma SpacesSkipped(n: Numeral)
    requires WellFormed(n)
    ensures Skip(NumeralText(n), IsSpace) == SignText(n.sign) + (Text(n.whole) + FracText(n))
  {
    FracTextStart(n);
    var rest := SignText(n.sign) + (Text(n.whole) + FracText(n));
    if n.whole != [] { TextCons(n.whole, FracText(n)); }
    SkipsPrefix(n.spaces, rest, IsSpace);
  }

  lemma SignRead(n: Numeral)
    requires WellFormed(n)
    ensures AfterSign(SignText(n.sign) + (Text(n.whole) + FracText(n))) == Text(n.whole) + FracText(n)
    ensures IsNegative(NumeralText(n)) == n.sign.Minus?
  {
    SpacesSkipped(n);
    FracTextStart(n);
    var after := Text(n.whole) + FracText(n);
    if n.whole != [] { TextCons(n.whole, FracText(n)); }
    SignInFront(n.sign, after);
  }

  lemma SignInFront(sign: Sign, after: string)
    requires after != [] ==> after[0] != '-' && after[0] != '+'
    ensures AfterSign(SignText(sign) + after) == after
    ensures var z := SignText(sign) + after; sign.Minus? <==> z != [] && z[0] == '-'
  {
    if sign.Unsigned? {
      assert SignText(sign) + after == after;
    } else {
      assert (SignText(sign) + after)[1..] == after;
    }
  }

  lemma ScanNumeral(n: Numeral)
    requires WellFormed(n)
    ensures var significant := n.whole[LeadingZeros(n.whole)..];
      ScanText(NumeralText(n)) ==
        Scanned(significant + n.frac, if n.point then |significant| + 1 else 0, ReadExp(n.exp))
  {
    var significant := n.whole[LeadingZeros(n.whole)..];
    SpacesSkipped(n);
    SignRead(n);
    FracTextStart(n);
    SkipsZeros(n.whole, FracText(n));
    BodyReadsDigits(significant, FracText(n), [], 0);
    assert [] + significant == significant;
    BodyReadsFrac(n, significant);
  }

  lemma LeadingZerosDoNotCount(whole: seq<int>, frac: seq<int>)
    ensures Num(whole[LeadingZeros(whole)..] + frac) == Num(whole + frac)
  {
    var k := LeadingZeros(whole);
    assert whole + frac == whole[..k] + (whole[k..] + frac);
    NumZeros(whole[..k]);
    NumAppend(whole[..k], whole[k..] + frac);
  }

  lemma ScannedValue(n: Numeral, s: Scanned)
    requires WellFormed(n)
    requires var significant := n.whole[LeadingZeros(n.whole)..];
      s == Scanned(significant + n.frac, if n.point then |significant| + 1 else 0, ReadExp(n.exp))
    ensures AllDigits(s.digits) && s.mark <= |s.digits| + 1
    ensures FixedValue(n.sign.Minus?, Placed(s)) ==
      Decimal10(Signed(n.sign.Minus?, Num(n.whole + n.frac)), ReadExp(n.exp) - |n.frac|)
  {
    LeadingZerosDoNotCount(n.whole, n.frac);
    PointAfterWhole(n, s);
    PlacedValue(n.sign.Minus?, s);
  }

  lemma PointAfterWhole(n: Numeral, s: Scanned)
    requires WellFormed(n)
    requires var significant := n.whole[LeadingZeros(n.whole)..];
      s.digits == significant + n.frac && s.mark == if n.point then |significant| + 1 else 0
    ensures AllDigits(s.digits) && s.mark <= |s.digits| + 1 && PointPlaced(s).nFrac == |n.frac|
  {
  }

  lemma ZeroHasNoSign(sign: bool, d: Fixed)
    ensures FixedValue(sign && !AllZero(d.digits), d) == FixedValue(sign, d)
  {
    if AllZero(d.digits) { NumZeros(d.digits); }
  }

  /** What the parser makes of any well-formed numeral: its value with the exponent as it was read. */
  lemma ParseReads(n: Numeral)
    requires WellFormed(n)
    ensures var r := Parse(NumeralText(n));
      r.Number? ==>
        && GoodFixed(r.fixed)
        && FixedValue(r.sign, r.fixed) ==
           Decimal10(Signed(n.sign.Minus?, Num(n.whole + n.frac)), ReadExp(n.exp) - |n.frac|)
  {
    var s := ScanText(NumeralText(n));
    ScanNumeral(n);
    ScannedValue(n, s);
    SignRead(n);
    ZeroHasNoSign(n.sign.Minus?, Placed(s));
  }

  lemma SameScale(x: int, y: int, e: int)
    requires Decimal10(x, e) == Decimal10(y, e)
    ensures x == y
  {
    if e < 0 {
      RatioOrder(x, y, -e);
    } else {
      var p := Pow10(e);
      assert x * p == y * p;
    }
  }

  /** A number that is not zero has one exponent. */
  lemma OneExponent(c: int, e: int, f: int)
    requires c != 0 && Decimal10(c, e) == Decimal10(c, f)
    ensures e == f
  {
    var lo, hi := if e < f then e else f, if e < f then f else e;
    Decimal10Scale(c, hi, hi - lo);
    SameScale(c * Pow10(hi - lo), c, lo);
    FactorOne(c, Pow10(hi - lo));
    PowerOne(hi - lo);
  }

  lemma FactorOne(c: int, p: int)
    requires c != 0 && c * p == c
    ensures p == 1
  {
    assert c * (p - 1) == 0;
  }

  lemma PowerOne(k: nat)
    ensures Pow10(k) == 1 <==> k == 0
  {
  }

  /** A well-formed numeral that the parser does not refuse for its length is parsed to its value
      exactly if its exponent is small, or it is zero. */
  lemma ParseExact(n: Numeral)
    requires WellFormed(n)
    ensures var r := Parse(NumeralText(n));
      r.Number? ==>
        && GoodFixed(r.fixed)
        && (FixedValue(r.sign, r.fixed) == NumeralValue(n) <==> SmallExp(n.exp) || Num(n.whole + n.frac) == 0)
  {
    ParseReads(n);
    var r := Parse(NumeralText(n));
    if r.Number? { ReadValueExact(n, FixedValue(r.sign, r.fixed)); }
  }

  lemma ReadValueExact(n: Numeral, x: real)
    requires WellFormed(n)
    requires x == Decimal10(Signed(n.sign.Minus?, Num(n.whole + n.frac)), ReadExp(n.exp) - |n.frac|)
    ensures x == NumeralValue(n) <==> SmallExp(n.exp) || Num(n.whole + n.frac) == 0
  {
    ReadExpExact(n.exp);
    SameIffSameExponent(
      Signed(n.sign.Minus?, Num(n.whole + n.frac)), ReadExp(n.exp) - |n.frac|, ExpValue(n.exp) - |n.frac|);
  }

  lemma SameIffSameExponent(c: int, e: int, f: int)
    ensures Decimal10(c, e) == Decimal10(c, f) <==> c == 0 || e == f
  {
    if c == 0 {
      Decimal10Zero(e);
      Decimal10Zero(f);
    } else if Decimal10(c, e) == Decimal10(c, f) {
      OneExponent(c, e, f);
    }
  }

  lemma Decimal10Zero(e: int)
    ensures Decimal10(0, e) == 0.0
  {
    if e < 0 { assert 0 as real / Pow10(-e) as real == 0.0; }
  }
}
