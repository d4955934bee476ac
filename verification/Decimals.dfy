/** Decimal numbers as mutable digit arrays. (mvsqlite-pgtypes-ext/decimal.c)

    `memory` arguments say whether an allocation succeeds. */
module Decimals {
  import opened Digits
  import opened Ratios
  import opened Multiply
  import opened Numerals

  predicate IsProduct(z: real, x: real, y: real) {
    z == x * y
  }

  class Decimal {
    var sign: bool
    var oom: bool
    var isNull: bool
    var nDigit: nat
    var nFrac: nat
    var a: array<int>

    ghost predicate Valid()
      reads this, a
    {
      nFrac <= nDigit <= a.Length && nDigit <= MAX_DIGIT && AllDigits(a[..nDigit])
    }

    /** The digits in use. */
    ghost function Contents(): (d: Fixed)
      requires Valid()
      reads this, a
      ensures GoodFixed(d)
    {
      Fixed(a[..nDigit], nFrac)
    }

    ghost function Value(): real
      requires Valid()
      reads this, a
    {
      FixedValue(sign, Contents())
    }

    constructor (sign: bool, digits: seq<int>, nFrac: nat)
      requires AllDigits(digits) && nFrac <= |digits| <= MAX_DIGIT
      ensures Valid() && fresh(a) && !oom && !isNull && this.sign == sign && Contents() == Fixed(digits, nFrac)
    {
      this.sign, oom, isNull, nDigit, this.nFrac := sign, false, false, |digits|, nFrac;
      a := new int[|digits| + 1](i => if 0 <= i < |digits| then digits[i] else 0);
      new;
      assert a[..nDigit] == digits;
    }

    predicate Usable()
      reads this
    {
      !oom && !isNull
    }

    /** Multiplies by `that`, which may be this object itself. */
    method Mul(that: Decimal, memory: bool)
      requires Valid() && that.Valid()
      modifies this
      ensures Valid() && isNull == old(isNull) && (a == old(a) || fresh(a))
      ensures !(old(Usable()) && old(that.Usable())) ==>
        Contents() == old(Contents()) && oom == old(oom) && sign == old(sign)
      ensures old(Usable()) && old(that.Usable()) ==>
        oom == (old(nDigit) + old(that.nDigit) + 2 > MAX_DIGIT || !memory)
      ensures old(Usable()) && old(that.Usable()) && oom ==> Contents() == old(Contents()) && sign == old(sign)
      ensures old(Usable()) && old(that.Usable()) && !oom ==>
        && fresh(a) && IsProduct(Value(), old(Value()), old(that.Value()))
        && nDigit <= old(nDigit) + old(that.nDigit) + 2
        && var least := if old(nFrac) < old(that.nFrac) then old(nFrac) else old(that.nFrac);
           && least <= nFrac <= old(nFrac) + old(that.nFrac)
           && nDigit - nFrac == old(nDigit) + old(that.nDigit) + 2 - old(nFrac) - old(that.nFrac)
           && (nFrac == least || a[nDigit - 1] != 0)
    {
      if !Usable() || !that.Usable() { return; }
      if nDigit + that.nDigit + 2 > MAX_DIGIT || !memory {
        oom := true;
        return;
      }
      var minFrac := if that.nFrac < nFrac then that.nFrac else nFrac;
      Multiply(that);
      TrimFraction(minFrac);
    }

    /** The full product, untrimmed. */
    method Multiply(that: Decimal)
      requires Valid() && that.Valid() && nDigit + that.nDigit + 2 <= MAX_DIGIT
      modifies this`a, this`nDigit, this`nFrac, this`sign
      ensures Valid() && fresh(a) && IsProduct(Value(), old(Value()), old(that.Value()))
      ensures nDigit == old(nDigit) + old(that.nDigit) + 2 && nFrac == old(nFrac) + old(that.nFrac)
    {
      ghost var left, right, s, t := Contents(), that.Contents(), sign, that.sign;
      ghost var x, y := Value(), that.Value();
      var acc := Product(a, nDigit, that.a, that.nDigit);
      a := acc;
      nDigit := nDigit + that.nDigit + 2;
      nFrac := nFrac + that.nFrac;
      sign := sign != that.sign;
      assert acc[..nDigit] == acc[..];
      FixedProduct(s, left, t, right, Contents(), x, y);
    }

    /** Drops trailing zeros after the point, keeping at least `minFrac` digits there. */
    method TrimFraction(minFrac: nat)
      requires Valid() && minFrac <= nFrac
      modifies this`nFrac, this`nDigit
      ensures Valid() && Value() == old(Value())
      ensures minFrac <= nFrac <= old(nFrac) && nDigit - nFrac == old(nDigit) - old(nFrac)
      ensures nFrac == minFrac || a[nDigit - 1] != 0
    {
      while nFrac > minFrac && a[nDigit - 1] == 0
        invariant Valid() && Value() == old(Value())
        invariant minFrac <= nFrac <= old(nFrac) && nDigit - nFrac == old(nDigit) - old(nFrac)
      {
        DropZero(sign, a[..nDigit], nFrac);
        assert a[..nDigit][..nDigit - 1] == a[..nDigit - 1];
        nFrac := nFrac - 1;
        nDigit := nDigit - 1;
      }
    }
  }

  lemma SignedProduct(s: bool, m: int, t: bool, n: int)
    ensures Signed(s, m) * Signed(t, n) == Signed(s != t, m * n)
  {
    assert (-m) * n == -(m * n) && m * (-n) == -(m * n) && (-m) * (-n) == m * n;
  }

  lemma RatioProduct(c: int, f: nat, d: int, g: nat, r: int, x: real, y: real)
    requires r == c * d && x == Ratio(c, f) && y == Ratio(d, g)
    ensures IsProduct(Ratio(r, f + g), x, y)
  {
    RatioMul(c, f, d, g);
  }

  lemma FixedProduct(s: bool, d: Fixed, t: bool, e: Fixed, r: Fixed, x: real, y: real)
    requires IsProductOf(r.digits, d.digits, e.digits) && r.nFrac == d.nFrac + e.nFrac
    requires x == FixedValue(s, d) && y == FixedValue(t, e)
    ensures IsProduct(FixedValue(s != t, r), x, y)
  {
    var c, k := Signed(s, Num(d.digits)), Signed(t, Num(e.digits));
    assert Signed(s != t, Num(r.digits)) == c * k by { SignedProduct(s, Num(d.digits), t, Num(e.digits)); }
    RatioProduct(c, d.nFrac, k, e.nFrac, Signed(s != t, Num(r.digits)), x, y);
  }

  lemma DropZero(sign: bool, ds: seq<int>, nFrac: nat)
    requires ds != [] && ds[|ds| - 1] == 0 && nFrac > 0
    ensures Ratio(Signed(sign, Num(ds)), nFrac) == Ratio(Signed(sign, Num(ds[..|ds| - 1])), nFrac - 1)
  {
    var m := Num(ds[..|ds| - 1]);
    assert Pow10(1) == 10 * Pow10(0) == 10;
    SignedScale(sign, m, Pow10(1));
    RatioScale(Signed(sign, m), nFrac - 1, 1);
  }
}
