/** Powers of two, and the exact decimal value of a binary64 number.
    (mvsqlite-pgtypes-ext/decimal.c; section 3.4 of IEEE 754-2008) */
module Binary {
  import opened Common
  import opened Digits
  import opened Ratios
  import opened Numerals
  import opened Printing
  import opened Decimals
  import opened ParseText

  const POW2_LIMIT := 20_000

  function Power(x: real, n: nat): real {
    if n == 0 then 1.0 else x * Power(x, n - 1)
  }

  /** Two to any integer power. */
  function TwoTo(n: int): real {
    if n >= 0 then Power(2.0, n) else Power(0.5, -n)
  }

  lemma {:induction false} PowerOfSquare(x: real, n: nat)
    ensures Power(x * x, n) == Power(x, 2 * n)
  {
    if n > 0 {
      PowerOfSquare(x, n - 1);
      var p := Power(x, 2 * n - 2);
      assert Power(x, 2 * n - 1) == x * p && Power(x, 2 * n) == x * Power(x, 2 * n - 1);
      assert (x * x) * p == x * (x * p);
    }
  }

  lemma {:induction false} TwoToStep(n: int)
    ensures TwoTo(n + 1) == 2.0 * TwoTo(n)
  {
    if n < 0 {
      assert Power(0.5, -n) == 0.5 * Power(0.5, -n - 1);
    }
  }

  lemma {:induction false} PowerPositive(x: real, n: nat)
    requires x > 0.0
    ensures Power(x, n) > 0.0
  {
    if n > 0 { PowerPositive(x, n - 1); }
  }

  lemma TwoToPositive(n: int)
    ensures TwoTo(n) > 0.0
  {
    if n >= 0 { PowerPositive(2.0, n); } else { PowerPositive(0.5, -n); }
  }

  lemma {:induction false} TwoToGrows(m: int, n: int)
    requires m < n
    ensures TwoTo(m) < TwoTo(n)
    decreases n - m
  {
    TwoToStep(n - 1);
    TwoToPositive(n - 1);
    if m < n - 1 { TwoToGrows(m, n - 1); }
  }

  /** A number that is not zero times a power of two tells the power. */
  lemma OnePower(x: real, m: int, j: int, k: int, y: real)
    requires IsProduct(x, m as real, TwoTo(j)) && IsProduct(y, m as real, TwoTo(k))
    ensures x == y <==> m == 0 || j == k
  {
    if m != 0 && j != k {
      if j < k { TwoToGrows(j, k); } else { TwoToGrows(k, j); }
      assert x - y == m as real * (TwoTo(j) - TwoTo(k));
    }
  }

  // ---- Square and multiply ----

  /** `a` times `x` to the `n` is what is wanted. */
  predicate Remains(a: real, x: real, n: nat, target: real) {
    a * Power(x, n) == target
  }

  lemma SquareStep(a: real, x: real, n: nat, target: real, a': real, x': real)
    requires Remains(a, x, n, target) && IsProduct(x', x, x)
    requires if n % 2 == 1 then IsProduct(a', a, x) else a' == a
    ensures Remains(a', x', n / 2, target)
  {
    var m := n / 2;
    PowerOfSquare(x, m);
    if n % 2 == 1 {
      assert n == 2 * m + 1;
      assert a * (x * Power(x, 2 * m)) == (a * x) * Power(x, 2 * m);
    }
  }

  lemma LastStep(a: real, x: real, bit: nat, target: real, a': real)
    requires bit <= 1 && Remains(a, x, bit, target) && if bit == 1 then IsProduct(a', a, x) else a' == a
    ensures a' == target
  {
    assert Power(x, 0) == 1.0 && Power(x, 1) == x * Power(x, 0);
  }

  /** A numeral of one digit before and one after the point. */
  function TwoDigits(w: int, f: int): (n: Numeral)
    requires 0 <= w <= 9 && 0 <= f <= 9
    ensures WellFormed(n)
  {
    Numeral("", Unsigned, [w], true, [f], NoExp)
  }

  lemma TwoDigitsText(w: int, f: int)
    requires 0 <= w <= 9 && 0 <= f <= 9
    ensures NumeralText(TwoDigits(w, f)) == [CharOf(w), '.', CharOf(f)]
  {
  }

  lemma TwoDigitsParsed(w: int, f: int)
    requires 0 <= w <= 9 && 0 <= f <= 9
    ensures var r := Parse(NumeralText(TwoDigits(w, f))); r.Number? && |r.fixed.digits| <= 2
  {
    ScanNumeral(TwoDigits(w, f));
  }

  lemma TwoDigitsValue(w: int, f: int)
    requires 0 <= w <= 9 && 0 <= f <= 9
    ensures NumeralValue(TwoDigits(w, f)) == Ratio(10 * w + f, 1)
  {
    NumAppend([w], [f]);
    NumOne(w);
    NumOne(f);
    assert Pow10(1) == 10 * Pow10(0) == 10;
  }

  method Constant(w: int, f: int, memory: bool) returns (p: Decimal?)
    requires 0 <= w <= 9 && 0 <= f <= 9
    ensures p == null <==> !memory
    ensures p != null ==>
      fresh(p) && fresh(p.a) && p.Valid() && p.Usable() && p.nDigit <= 2 && p.Value() == Ratio(10 * w + f, 1)
  {
    TwoDigitsText(w, f);
    TwoDigitsParsed(w, f);
    TwoDigitsValue(w, f);
    ParseExact(TwoDigits(w, f));
    p := FromText([CharOf(w), '.', CharOf(f)], memory);
  }

  lemma Constants()
    ensures Ratio(10, 1) == 1.0 && Ratio(20, 1) == 2.0 && Ratio(5, 1) == 0.5
  {
    assert Pow10(1) == 10 * Pow10(0) == 10;
  }

  // ---- Memory ----

  /** Which allocations succeed: the two constants; in round `k` of the loop the product and the square;
      and, for a floating-point number, its significand and the last product. */
  datatype Memory = Memory(one: bool, two: bool, products: nat -> bool, squares: nat -> bool, significand: bool,
    last: bool)

  ghost predicate Plenty(mem: Memory) {
    mem.one && mem.two && mem.significand && mem.last && forall k :: mem.products(k) && mem.squares(k)
  }

  /** The exponent that the loop multiplies in, from round `k` on. A failed product is noticed; a failed
      square is not, and the rounds after it do nothing. */
  function Reached(mem: Memory, left: nat, k: nat): Option<nat> {
    var bit, rest := left % 2, left / 2;
    if bit == 1 && !mem.products(k) then None
    else if rest == 0 || !mem.squares(k) then Some(bit)
    else
      var r := Reached(mem, rest, k + 1);
      if r.None? then None else Some(bit + 2 * r.value)
  }

  /** No square that a later round needs fails. */
  predicate SquaresHold(mem: Memory, left: nat, k: nat) {
    left / 2 == 0 || (mem.squares(k) && SquaresHold(mem, left / 2, k + 1))
  }

  /** The loop reaches the right exponent exactly if no square fails, and else a smaller one. */
  lemma {:induction false} ReachedExactly(mem: Memory, left: nat, k: nat)
    requires Reached(mem, left, k).Some?
    ensures Reached(mem, left, k).value <= left
    ensures Reached(mem, left, k).value == left <==> SquaresHold(mem, left, k)
  {
    if left / 2 != 0 && mem.squares(k) { ReachedExactly(mem, left / 2, k + 1); }
  }

  lemma {:induction false} PlentyReaches(mem: Memory, left: nat, k: nat)
    requires Plenty(mem)
    ensures Reached(mem, left, k) == Some(left)
  {
    if left / 2 != 0 { PlentyReaches(mem, left / 2, k + 1); }
  }

  /** The power of two that is computed instead of the `n`-th, or none. */
  function PowerReached(mem: Memory, n: int): Option<int> {
    if n < -POW2_LIMIT || n > POW2_LIMIT || !mem.one then None
    else if n == 0 then Some(0)
    else if !mem.two then None
    else
      var r := Reached(mem, if n > 0 then n else -n, 0);
      if r.None? then None else Some(if n > 0 then r.value else -(r.value as int))
  }

  /** A power of two that is computed at all is the one asked for exactly if no square fails. */
  lemma PowerReachedExactly(mem: Memory, n: int)
    requires PowerReached(mem, n).Some?
    ensures PowerReached(mem, n).value == n <==> SquaresHold(mem, if n > 0 then n else -n, 0)
  {
    if n != 0 { ReachedExactly(mem, if n > 0 then n else -n, 0); }
  }

  /** The power of two that a significand is multiplied by; without one it is left as it is. */
  function PowerApplied(mem: Memory, n: int): int {
    var r := PowerReached(mem, n);
    if r.None? then 0 else r.value
  }

  /** If the first square fails, the fourth power is one; if the constant does, a half is never multiplied in. */
  lemma ShortMemoryMisleads()
    ensures PowerReached(Memory(true, true, _ => true, _ => false, true, true), 2) == Some(0)
    ensures PowerApplied(Memory(true, false, _ => true, _ => true, true, true), -1) == 0
  {
  }

  /** With memory, it is the one asked for, and only the range limits it. */
  lemma PlentyReachesPower(mem: Memory, n: int)
    requires Plenty(mem)
    ensures PowerReached(mem, n) == if -POW2_LIMIT <= n <= POW2_LIMIT then Some(n) else None
  {
    if n != 0 { PlentyReaches(mem, if n > 0 then n else -n, 0); }
  }

  /** Exactly the power of two that memory lets it reach; the number of digits is never in the way. */
  method Pow2(n: int, mem: Memory) returns (p: Decimal?)
    ensures p == null <==> PowerReached(mem, n).None?
    ensures p != null ==> fresh(p) && fresh(p.a) && p.Valid() && p.Usable() && p.nDigit <= 8 * POW2_LIMIT + 2
    ensures p != null ==> p.Value() == TwoTo(PowerReached(mem, n).value)
  {
    if n < -POW2_LIMIT || n > POW2_LIMIT { return null; }
    Constants();
    p := Constant(1, 0, mem.one);
    if p == null { return null; }
    if n == 0 { return p; }
    var left := if n > 0 then n else -n;
    var px;
    if n > 0 { px := Constant(2, 0, mem.two); } else { px := Constant(0, 5, mem.two); }
    if px == null { return null; }
    var ok := RaiseTo(p, px, left, mem);
    if !ok { return null; }
  }

  /** What is known in round `k` of the exponent in the end: with a good `x`, by what remains; once a square
      has failed, it is there already. */
  ghost predicate OnTheWay(p: real, x: real, bad: bool, mem: Memory, left: nat, k: nat, base: real, n: nat) {
    var reached := Reached(mem, n, 0);
    if bad then reached.Some? && p == Power(base, reached.value)
    else
      var r := Reached(mem, left, k);
      if r.None? then reached.None?
      else reached.Some? && Remains(p, x, r.value, Power(base, reached.value))
  }

  /** One round with a good `x`, seen from its outcome. */
  lemma RoundWithGoodX(p: real, x: real, mem: Memory, left: nat, k: nat, base: real, n: nat, p': real, x': real)
    requires left > 0 && OnTheWay(p, x, false, mem, left, k, base, n)
    requires left % 2 == 1 ==> mem.products(k) && IsProduct(p', p, x)
    requires left % 2 == 0 ==> p' == p
    ensures left / 2 == 0 || !mem.squares(k) ==> OnTheWay(p', x, true, mem, left / 2, k + 1, base, n)
    ensures left / 2 > 0 && mem.squares(k) && IsProduct(x', x, x) ==>
      OnTheWay(p', x', false, mem, left / 2, k + 1, base, n)
  {
    var bit, rest, r := left % 2, left / 2, Reached(mem, left, k);
    if r.Some? {
      var target := Power(base, Reached(mem, n, 0).value);
      if rest == 0 || !mem.squares(k) {
        LastStep(p, x, bit, target, p');
      } else if IsProduct(x', x, x) {
        assert r.value / 2 == Reached(mem, rest, k + 1).value && r.value % 2 == bit;
        SquareStep(p, x, r.value, target, p', x');
      }
    }
  }

  /** The state of the loop before round `k`; the number of digits at most doubles every round. */
  ghost predicate InRound(p: Decimal, x: Decimal, mem: Memory, left: nat, k: nat, base: real, n: nat, scale: nat)
    reads p, x, p.a, x.a
  {
    && p != x && p.Valid() && x.Valid() && p.Usable() && !x.isNull
    && 1 <= left && 1 <= scale <= POW2_LIMIT
    && p.nDigit + 2 <= 4 * scale && x.nDigit + 2 <= 4 * scale
    && OnTheWay(p.Value(), x.Value(), x.oom, mem, left, k, base, n)
  }

  /** The first half of a round: the product, if the exponent's next bit is set. */
  method MultiplyIn(p: Decimal, x: Decimal, left: nat, ok: bool)
    requires p != x && p.Valid() && x.Valid() && p.Usable() && !x.isNull && p.nDigit + x.nDigit + 2 <= MAX_DIGIT
    modifies p
    ensures p.Valid() && !p.isNull && x.Valid() && (p.a == old(p.a) || fresh(p.a))
    ensures p.nDigit <= old(p.nDigit) + x.nDigit + 2
    ensures p.oom <==> left % 2 == 1 && !x.oom && !ok
    ensures !p.oom && left % 2 == 1 && !x.oom ==> IsProduct(p.Value(), old(p.Value()), x.Value())
    ensures left % 2 == 0 || x.oom ==> p.Value() == old(p.Value())
  {
    if left % 2 == 1 { p.Mul(x, ok); }
  }

  /** The second half: the square, whose failure only marks `x`. */
  method Square(x: Decimal, ok: bool)
    requires x.Valid() && !x.isNull && 2 * x.nDigit + 2 <= MAX_DIGIT
    modifies x
    ensures x.Valid() && !x.isNull && (x.a == old(x.a) || fresh(x.a)) && x.nDigit <= 2 * old(x.nDigit) + 2
    ensures x.oom == (old(x.oom) || !ok)
    ensures !x.oom ==> IsProduct(x.Value(), old(x.Value()), old(x.Value()))
    ensures x.oom ==> x.Value() == old(x.Value())
  {
    x.Mul(x, ok);
  }

  /** Once a square has failed, the exponent does not matter any more. */
  lemma RoundWithBadX(p: real, x: real, mem: Memory, left: nat, k: nat, left': nat, base: real, n: nat, x': real)
    requires OnTheWay(p, x, true, mem, left, k, base, n)
    ensures OnTheWay(p, x', true, mem, left', k + 1, base, n)
  {
  }

  /** Multiplies `p` by powers of `x`, squaring `x` in place. */
  method RaiseTo(p: Decimal, x: Decimal, n: nat, mem: Memory) returns (ok: bool)
    requires p != x && p.Valid() && x.Valid() && p.Usable() && x.Usable() && p.a != x.a
    requires 0 < n <= POW2_LIMIT && p.nDigit <= 2 && x.nDigit <= 2 && p.Value() == 1.0
    modifies p, x
    ensures ok <==> Reached(mem, n, 0).Some?
    ensures ok ==> p.Valid() && p.Usable() && (fresh(p.a) || p.a == old(p.a)) && p.nDigit <= 8 * POW2_LIMIT + 2
    ensures ok ==> p.Value() == Power(old(x.Value()), Reached(mem, n, 0).value)
  {
    ghost var base, scale: nat := x.Value(), 1;
    var left: nat, k: nat := n, 0;
    while true
      invariant InRound(p, x, mem, left, k, base, n, scale) && scale * left <= n
      invariant fresh(p.a) || p.a == old(p.a)
      decreases left
    {
      var out := OneRound(p, x, left, k, mem, base, n, scale);
      if out.Failed? { return false; }
      if out.Finished? { return true; }
      ScaleStep(scale, left, n);
      ScaleBound(2 * scale, left / 2, n);
      left, k, scale := left / 2, k + 1, 2 * scale;
    }
  }

  datatype RoundEnd = Failed | Finished | GoOn

  method OneRound(
      p: Decimal, x: Decimal, left: nat, k: nat, mem: Memory, ghost base: real, ghost n: nat, ghost scale: nat)
    returns (out: RoundEnd)
    requires InRound(p, x, mem, left, k, base, n, scale)
    modifies p, x
    ensures p.a == old(p.a) || fresh(p.a)
    ensures out.Failed? ==> Reached(mem, n, 0).None?
    ensures out.Finished? ==>
      && left / 2 == 0 && p.Valid() && p.Usable() && p.nDigit + 2 <= 8 * scale
      && Reached(mem, n, 0).Some? && p.Value() == Power(base, Reached(mem, n, 0).value)
    ensures out.GoOn? ==>
      left / 2 > 0 && (2 * scale <= POW2_LIMIT ==> InRound(p, x, mem, left / 2, k + 1, base, n, 2 * scale))
  {
    ghost var p0, x0, bad := p.Value(), x.Value(), x.oom;
    MultiplyIn(p, x, left, mem.products(k));
    if p.oom { return Failed; }
    ghost var p1 := p.Value();
    if left / 2 == 0 {
      if !bad { RoundWithGoodX(p0, x0, mem, left, k, base, n, p1, x0); }
      return Finished;
    }
    Square(x, mem.squares(k));
    if bad {
      RoundWithBadX(p0, x0, mem, left, k, left / 2, base, n, x.Value());
    } else {
      RoundWithGoodX(p0, x0, mem, left, k, base, n, p1, x.Value());
    }
    return GoOn;
  }

  lemma ScaleBound(scale: int, left: int, n: int)
    requires scale >= 1 && left >= 1 && scale * left <= n
    ensures scale <= n
  {
  }

  lemma ScaleStep(scale: int, left: int, n: int)
    requires scale >= 1 && left >= 1 && scale * left <= n
    ensures (2 * scale) * (left / 2) <= n
  {
    assert 2 * (left / 2) <= left;
    assert (2 * scale) * (left / 2) == scale * (2 * (left / 2));
  }

  // ---- Binary floating point ----

  const FRACTION := 0x10_0000_0000_0000 // two to the 52

  datatype Binary64 = Binary64(sign: bool, exponent: nat, fraction: nat)

  predicate WellFormed64(b: Binary64) {
    b.exponent < 2048 && b.fraction < FRACTION
  }

  predicate IsNaN(b: Binary64) {
    b.exponent == 2047 && b.fraction != 0
  }

  predicate IsZero(b: Binary64) {
    b.exponent == 0 && b.fraction == 0
  }

  /** The value of a finite number. */
  function Value64(b: Binary64): real {
    if b.exponent == 0 then Signed(b.sign, b.fraction) as real * TwoTo(-1074)
    else Signed(b.sign, FRACTION + b.fraction) as real * TwoTo(b.exponent - 1075)
  }

  /** The bits as a signed 64-bit integer. */
  function Bits(b: Binary64): int {
    (if b.sign then -2048 * FRACTION else 0) + b.exponent * FRACTION + b.fraction
  }

  predicate Scaled(m: int, e: int, m': int, e': int) {
    m as real * TwoTo(e) == m' as real * TwoTo(e')
  }

  lemma HalveStep(m: int, e: int, m': int, e': int)
    requires m' % 2 == 0 && Scaled(m, e, m', e')
    ensures Scaled(m, e, m' / 2, e' + 1)
  {
    TwoToStep(e');
    var h, t := (m' / 2) as real, TwoTo(e');
    assert m' as real == 2.0 * h;
    assert (2.0 * h) * t == h * (2.0 * t);
  }

  /** Significand and exponent of the bits `a`, reduced; `a` may be negative only for a negative zero or NaN. */
  method Split(a: int, isNeg: bool) returns (m: int, e: int)
    requires -FRACTION <= a < 2048 * FRACTION || a == -2048 * FRACTION
    ensures -2 * FRACTION < m < 2 * FRACTION && -1076 <= e <= 972
    ensures a == 0 || a == -2048 * FRACTION ==> m == 0 && e == 0
    ensures a != 0 && a != -2048 * FRACTION ==>
      var ex, frac := a / FRACTION, a % FRACTION;
      && Scaled(Signed(isNeg, if ex == 0 then 2 * frac else FRACTION + frac), ex - 1075, m, e)
      && (e > 971 <==> ex == 2047)
  {
    if a == 0 || a == -2048 * FRACTION { return 0, 0; }
    e := a / FRACTION;
    m := a % FRACTION;
    if e == 0 { m := 2 * m; } else { m := FRACTION + m; }
    ghost var m0, e0 := m, e;
    assert Scaled(m0, e0 - 1075, m, e - 1075);
    while e < 1075 && m > 0 && m % 2 == 0
      invariant 0 <= m < 2 * FRACTION && e0 <= e && (e == e0 || e <= 1075)
      invariant Scaled(m0, e0 - 1075, m, e - 1075)
      decreases 1075 - e
    {
      HalveStep(m0, e0 - 1075, m, e - 1075);
      m := m / 2;
      e := e + 1;
    }
    NegateScaled(isNeg, m0, e0 - 1075, m, e - 1075);
    if isNeg { m := -m; }
    e := e - 1075;
  }

  lemma NegateScaled(neg: bool, m: int, e: int, m': int, e': int)
    requires Scaled(m, e, m', e')
    ensures Scaled(Signed(neg, m), e, Signed(neg, m'), e')
  {
    var x, t, x', t' := m as real, TwoTo(e), m' as real, TwoTo(e');
    assert (-m) as real == -x && (-m') as real == -x';
    assert (-x) * t == -(x * t) && (-x') * t' == -(x' * t');
  }

  // ---- Printing the significand ----

  function IntNumeral(m: int): (n: Numeral)
    ensures WellFormed(n)
  {
    Numeral("", if m < 0 then Minus else Unsigned, DigitsOf(if m < 0 then -m else m), false, [], NoExp)
  }

  /** Printing an integer and parsing it gives the integer. */
  lemma IntParsed(m: int)
    requires -2 * FRACTION < m < 2 * FRACTION
    ensures var r := Parse(NumeralText(IntNumeral(m)));
      r.Number? && |r.fixed.digits| <= 20 && FixedValue(r.sign, r.fixed) == m as real
  {
    var n := IntNumeral(m);
    var k := if m < 0 then -m else m;
    assert k < Pow10(20) by { Pow10Of20(); }
    DigitsOfLength(k, 20);
    PlainScanned(n, ScanText(NumeralText(n)));
    ParseExact(n);
    IntValue(m);
  }

  lemma Pow10Of20()
    ensures Pow10(20) > 2 * FRACTION
  {
    assert Pow10(4) == 10_000 by { assert Pow10(2) == 10 * Pow10(1) && Pow10(1) == 10 * Pow10(0); }
    Pow10Adds(4, 4);
    Pow10Adds(8, 8);
    Pow10Adds(16, 4);
  }

  lemma IntValue(m: int)
    ensures NumeralValue(IntNumeral(m)) == m as real
  {
    var n := IntNumeral(m);
    DigitsOfValue(if m < 0 then -m else m);
    assert n.whole + n.frac == n.whole && Pow10(0) == 1;
  }

  lemma FiniteValue(b: Binary64, m: int, e: int)
    requires WellFormed64(b) && b.exponent < 2047
    requires if IsZero(b) then m == 0
             else Scaled(Signed(b.sign, if b.exponent == 0 then 2 * b.fraction else FRACTION + b.fraction),
               b.exponent - 1075, m, e)
    ensures IsProduct(Value64(b), m as real, TwoTo(e))
  {
    if IsZero(b) {
      assert 0 as real * TwoTo(e) == 0.0 && 0 as real * TwoTo(-1074) == 0.0;
    } else if b.exponent == 0 {
      TwoToStep(-1075);
      var f, t := Signed(b.sign, b.fraction) as real, TwoTo(-1075);
      assert Signed(b.sign, 2 * b.fraction) as real == 2.0 * f;
      assert (2.0 * f) * t == f * (2.0 * t);
    }
  }

  /** With memory, the exact value of every finite number; infinities and NaNs have none, but a NaN whose
      sign bit is set escapes the range check. Short of memory, a missing power of two goes unnoticed: a
      result not marked is right exactly if the power applied is the right one, or the number is zero. `m`
      and `e` are the number's significand and exponent. */
  method FromDouble(b: Binary64, mem: Memory) returns (p: Decimal?, m: int, e: int)
    requires WellFormed64(b)
    ensures p == null <==> !mem.significand || (b.exponent == 2047 && !(b.sign && IsNaN(b)))
    ensures p != null ==> fresh(p) && fresh(p.a) && p.Valid() && !p.isNull
    ensures b.exponent < 2047 ==> IsProduct(Value64(b), m as real, TwoTo(e))
    ensures p != null ==> p.oom == (PowerReached(mem, e).Some? && !mem.last)
    ensures p != null && !p.oom ==> IsProduct(p.Value(), m as real, TwoTo(PowerApplied(mem, e)))
    ensures p != null && !p.oom && b.exponent < 2047 ==>
      (p.Value() == Value64(b) <==> m == 0 || PowerApplied(mem, e) == e)
    ensures p != null && b.exponent < 2047 && Plenty(mem) ==> p.Usable() && p.Value() == Value64(b)
  {
    m, e := Fields(b);
    if e > 971 { return null, m, e; }
    p := Compose(m, e, mem);
    if Plenty(mem) { PlentyReachesPower(mem, e); }
    if p != null && !p.oom && b.exponent < 2047 {
      OnePower(p.Value(), m, PowerApplied(mem, e), e, Value64(b));
    }
  }

  /** Significand and exponent; the range check catches what is not finite, but for a NaN with a sign. */
  method Fields(b: Binary64) returns (m: int, e: int)
    requires WellFormed64(b)
    ensures -2 * FRACTION < m < 2 * FRACTION && -POW2_LIMIT <= e <= 972
    ensures e > 971 <==> b.exponent == 2047 && !(b.sign && IsNaN(b))
    ensures b.exponent < 2047 ==> IsProduct(Value64(b), m as real, TwoTo(e))
  {
    var isNeg := b.sign && !IsNaN(b) && !IsZero(b);
    BitsSplit(b, isNeg);
    m, e := Split(Bits(if isNeg then b.(sign := false) else b), isNeg);
    if b.exponent < 2047 { FiniteValue(b, m, e); }
  }

  /** An integer times a power of two, or the integer itself if the power is missing. */
  method Compose(m: int, e: int, mem: Memory) returns (p: Decimal?)
    requires -2 * FRACTION < m < 2 * FRACTION && -POW2_LIMIT <= e <= POW2_LIMIT
    ensures p == null <==> !mem.significand
    ensures p != null ==> fresh(p) && fresh(p.a) && p.Valid() && !p.isNull
    ensures p != null ==> p.oom == (PowerReached(mem, e).Some? && !mem.last)
    ensures p != null && !p.oom ==> IsProduct(p.Value(), m as real, TwoTo(PowerApplied(mem, e)))
  {
    IntParsed(m);
    p := FromText(NumeralText(IntNumeral(m)), mem.significand);
    var x := Pow2(e, mem);
    if p != null && x != null { p.Mul(x, mem.last); }
  }

  /** Shifting and masking the bits recovers the fields; a set sign bit shifts in ones. */
  lemma BitsSplit(b: Binary64, isNeg: bool)
    requires WellFormed64(b) && isNeg == (b.sign && !IsNaN(b) && !IsZero(b))
    ensures var a := Bits(if isNeg then b.(sign := false) else b);
      && a % FRACTION == b.fraction
      && a / FRACTION == (if b.sign && !isNeg then b.exponent - 2048 else b.exponent)
      && (IsZero(b) <==> a == 0 || a == -2048 * FRACTION)
      && (-FRACTION <= a < 2048 * FRACTION || a == -2048 * FRACTION)
  {
  }
}
