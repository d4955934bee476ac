/** The text parser, step by step. (mvsqlite-pgtypes-ext/decimal.c) */
module ParseText {
  import opened Digits
  import opened Numerals
  import opened Decimals

  method SkipWhile(z: string, start: nat, skip: char -> bool) returns (i: nat)
    requires start <= |z|
    ensures start <= i <= |z| && z[i..] == Skip(z[start..], skip)
  {
    i := start;
    while i < |z| && skip(z[i])
      invariant start <= i <= |z| && Skip(z[i..], skip) == Skip(z[start..], skip)
    {
      assert z[i..][1..] == z[i + 1..];
      i := i + 1;
    }
  }

  method ReadExponent(z: string) returns (exp: int)
    ensures exp == Exponent(z)
  {
    var j, neg := 0, false;
    if j >= |z| { return 0; }
    if z[j] == '-' {
      neg := true;
      j := j + 1;
    } else if z[j] == '+' {
      j := j + 1;
    }
    var magnitude := 0;
    ghost var start := j;
    assert z[0..] == z;
    while j < |z| && magnitude < EXPONENT_STOP
      invariant start <= j <= |z| && magnitude >= 0
      invariant ExpDigits(z[j..], magnitude) == ExpDigits(z[start..], 0)
    {
      assert z[j..][1..] == z[j + 1..];
      if IsDigit(z[j]) { magnitude := magnitude * 10 + DigitOf(z[j]); }
      j := j + 1;
    }
    exp := if neg then -magnitude else magnitude;
  }

  /** Reads digits into `a` up to the end of the text or an exponent. */
  method ReadBody(z: string, a: array<int>) returns (nDigit: nat, mark: nat, exp: int)
    requires a.Length > |z|
    modifies a
    ensures nDigit <= |z| && AllDigits(a[..nDigit]) && mark <= nDigit + 1
    ensures Scanned(a[..nDigit], mark, exp) == Body(z, [], 0)
  {
    var i := 0;
    nDigit, mark, exp := 0, 0, 0;
    assert z[0..] == z && a[..0] == [];
    while i < |z|
      invariant i <= |z| && nDigit <= i && mark <= nDigit + 1 && AllDigits(a[..nDigit]) && exp == 0
      invariant Body(z[i..], a[..nDigit], mark) == Body(z, [], 0)
    {
      var c := z[i];
      assert z[i..][1..] == z[i + 1..];
      if IsDigit(c) {
        ghost var sofar := a[..nDigit];
        a[nDigit] := DigitOf(c);
        assert a[..nDigit + 1] == sofar + [DigitOf(c)];
        nDigit := nDigit + 1;
      } else if c == '.' {
        mark := nDigit + 1;
      } else if c == 'e' || c == 'E' {
        exp := ReadExponent(z[i + 1..]);
        return;
      }
      i := i + 1;
    }
  }

  /** A copy with `front` zeros before the digits and `back` zeros behind them. */
  method Pad(a: array<int>, nDigit: nat, front: nat, back: nat) returns (b: array<int>)
    requires nDigit <= a.Length
    ensures fresh(b) && b.Length == front + nDigit + back + 1
    ensures b[..front + nDigit + back] == Zeros(front) + a[..nDigit] + Zeros(back)
  {
    b := new int[front + nDigit + back + 1](_ => 0);
    for i := 0 to nDigit
      invariant forall k | 0 <= k < b.Length :: b[k] == if front <= k < front + i then a[k - front] else 0
    {
      b[front + i] := a[i];
    }
  }

  method PadBehind(a: array<int>, nDigit: nat, back: nat) returns (b: array<int>)
    requires nDigit <= a.Length
    ensures fresh(b) && nDigit + back <= b.Length && b[..nDigit + back] == a[..nDigit] + Zeros(back)
  {
    b := Pad(a, nDigit, 0, back);
    assert Zeros(0) + a[..nDigit] == a[..nDigit];
  }

  method PadBefore(a: array<int>, nDigit: nat, front: nat) returns (b: array<int>)
    requires nDigit <= a.Length
    ensures fresh(b) && nDigit + front <= b.Length && b[..nDigit + front] == Zeros(front) + a[..nDigit]
  {
    b := Pad(a, nDigit, front, 0);
    assert Zeros(front) + a[..nDigit] + Zeros(0) == Zeros(front) + a[..nDigit];
  }

  /** A positive exponent first uses up the fraction, then adds zeros behind. */
  method RaisePoint(a: array<int>, nDigit: nat, frac: nat, exp: nat) returns (b: array<int>, n: nat, nFrac: nat)
    requires nDigit <= a.Length && AllDigits(a[..nDigit]) && frac <= nDigit && exp > 0
    ensures b == a || fresh(b)
    ensures n <= b.Length && Fixed(b[..n], nFrac) == Raise(Fixed(a[..nDigit], frac), exp)
  {
    b, n, nFrac := a, nDigit, frac;
    var left := exp;
    if nFrac > 0 {
      if left <= nFrac { nFrac, left := nFrac - left, 0; } else { left, nFrac := left - nFrac, 0; }
    }
    if left > 0 {
      b := PadBehind(a, nDigit, left);
      n := nDigit + left;
    }
  }

  /** A negative one first uses up the integer part but for a digit, then adds zeros in front. */
  method LowerPoint(a: array<int>, nDigit: nat, frac: nat, exp: nat) returns (b: array<int>, n: nat, nFrac: nat)
    requires nDigit <= a.Length && AllDigits(a[..nDigit]) && frac <= nDigit && exp > 0
    ensures b == a || fresh(b)
    ensures n <= b.Length && Fixed(b[..n], nFrac) == Lower(Fixed(a[..nDigit], frac), exp)
  {
    b, n := a, nDigit;
    var left: int, f: int := exp, frac;
    var extra := nDigit - frac - 1;
    if extra != 0 {
      if extra >= left { f, left := f + left, 0; } else { left, f := left - extra, nDigit - 1; }
    }
    if left > 0 {
      b := PadBefore(a, nDigit, left);
      n := nDigit + left;
      f := f + left;
    }
    nFrac := f;
  }

  /** Applies the decimal point and the exponent. */
  method PlacePoint(a: array<int>, nDigit: nat, mark: nat, exp: int) returns (b: array<int>, n: nat, nFrac: nat)
    requires nDigit <= a.Length && AllDigits(a[..nDigit]) && mark <= nDigit + 1
    ensures b == a || fresh(b)
    ensures n <= b.Length && Fixed(b[..n], nFrac) == Placed(Scanned(a[..nDigit], mark, exp))
  {
    b, n := a, nDigit;
    nFrac := if mark > 0 then nDigit - (mark - 1) else 0;
    if exp > 0 {
      b, n, nFrac := RaisePoint(a, nDigit, nFrac, exp);
    } else if exp < 0 {
      b, n, nFrac := LowerPoint(a, nDigit, nFrac, -exp);
    }
  }

  method IsAllZero(a: array<int>, n: nat) returns (zero: bool)
    requires n <= a.Length
    ensures zero <==> AllZero(a[..n])
  {
    var i := 0;
    while i < n && a[i] == 0
      invariant i <= n && forall k | 0 <= k < i :: a[k] == 0
    {
      i := i + 1;
    }
    zero := i >= n;
  }

  /** Parses any text; there is no result if memory or digits run out. */
  method FromText(z: string, memory: bool) returns (p: Decimal?)
    ensures p == null <==> !memory || Parse(z).TooLong?
    ensures p != null ==> fresh(p) && fresh(p.a) && p.Valid() && p.Usable() && Parse(z) == Number(p.sign, p.Contents())
  {
    if !memory { return null; }
    assert z[0..] == z;
    var i := SkipWhile(z, 0, IsSpace);
    ghost var trimmed := z[i..];
    var sign := i < |z| && z[i] == '-';
    if i < |z| && (z[i] == '-' || z[i] == '+') { i := i + 1; }
    assert z[i..] == AfterSign(trimmed);
    i := SkipWhile(z, i, IsZeroChar);
    var a := new int[|z| + 1];
    var nDigit, mark, exp := ReadBody(z[i..], a);
    var b, n, nFrac := PlacePoint(a, nDigit, mark, exp);
    if sign {
      var zero := IsAllZero(b, n);
      if zero { sign := false; }
    }
    if n > MAX_DIGIT { return null; }
    p := new Decimal(sign, b[..n], nFrac);
  }
}
