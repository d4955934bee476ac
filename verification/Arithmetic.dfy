/** Aligning, adding, summing, rounding and comparing decimals. (mvsqlite-pgtypes-ext/decimal.c) */
module Arithmetic {
  import opened Digits
  import opened Ratios
  import opened Numerals
  import opened Addition
  import opened Decimals
  import opened ParseText

  // ---- Expanding ----

  /** The digits with `front` zeros before and `back` zeros behind, the latter after the point. */
  function Padded(d: Fixed, front: nat, back: nat): Fixed {
    Fixed(Zeros(front) + d.digits + Zeros(back), d.nFrac + back)
  }

  lemma PaddedValue(sign: bool, d: Fixed, front: nat, back: nat)
    requires GoodFixed(d)
    ensures GoodFixed(Padded(d, front, back)) && FixedValue(sign, Padded(d, front, back)) == FixedValue(sign, d)
  {
    NumPad(d.digits, front, back);
    SignedScale(sign, Num(d.digits), Pow10(back));
    RatioScale(Signed(sign, Num(d.digits)), d.nFrac, back);
  }

  /** How many digits `Expand` puts in front. */
  function Front(p: Decimal, nDigit: nat, nFrac: nat): int
    reads p
  {
    nDigit - p.nDigit - (nFrac - p.nFrac)
  }

  method Expand(p: Decimal, nDigit: nat, nFrac: nat, memory: bool)
    requires p.Valid() && p.nFrac <= nFrac && Front(p, nDigit, nFrac) >= 0
    modifies p
    ensures p.Valid() && p.sign == old(p.sign) && p.isNull == old(p.isNull)
    ensures var grows := old(p.nDigit) != nDigit || old(p.nFrac) != nFrac;
      p.oom == (old(p.oom) || (grows && (nDigit + 1 > MAX_DIGIT || !memory)))
    ensures p.oom && !old(p.oom) ==> p.Contents() == old(p.Contents())
    ensures !p.oom ==>
      p.Contents() == Padded(old(p.Contents()), old(Front(p, nDigit, nFrac)), nFrac - old(p.nFrac))
    ensures p.a == old(p.a) || fresh(p.a)
    ensures p.Value() == old(p.Value())
  {
    var addFrac, addSig := nFrac - p.nFrac, Front(p, nDigit, nFrac);
    ghost var d := p.Contents();
    PaddedValue(p.sign, d, addSig, addFrac);
    if addFrac == 0 && addSig == 0 {
      assert Padded(d, 0, 0).digits == d.digits;
      return;
    }
    if nDigit + 1 > MAX_DIGIT || !memory {
      p.oom := true;
      return;
    }
    Grow(p, addSig, addFrac);
  }

  method Grow(p: Decimal, front: nat, back: nat)
    requires p.Valid() && p.nDigit + front + back <= MAX_DIGIT
    modifies p`a, p`nDigit, p`nFrac
    ensures p.Valid() && fresh(p.a) && p.Contents() == Padded(old(p.Contents()), front, back)
  {
    ghost var d := p.Contents();
    p.a := Pad(p.a, p.nDigit, front, back);
    p.nDigit := p.nDigit + front + back;
    p.nFrac := p.nFrac + back;
    assert p.Contents() == Padded(d, front, back);
  }

  // ---- Adding ----

  /** Places before and after the point that hold both numbers, and one more before for the carry. */
  function SumFrac(d: Fixed, e: Fixed): nat {
    if d.nFrac < e.nFrac then e.nFrac else d.nFrac
  }

  function SumDigits(d: Fixed, e: Fixed): nat
    requires GoodFixed(d) && GoodFixed(e)
  {
    var sig := |d.digits| - d.nFrac;
    var sig' := if sig > 0 && d.digits[0] == 0 then sig - 1 else sig;
    var other := |e.digits| - e.nFrac;
    (if sig' < other then other else sig') + SumFrac(d, e) + 1
  }

  /** A number needs more room, and there is none. */
  predicate CannotGrow(d: Fixed, nDigit: nat, nFrac: nat, memory: bool) {
    (|d.digits| != nDigit || d.nFrac != nFrac) && (nDigit + 1 > MAX_DIGIT || !memory)
  }

  /** Adding two numbers runs out of digits or memory. */
  predicate RunsOut(d: Fixed, e: Fixed, memD: bool, memE: bool)
    requires GoodFixed(d) && GoodFixed(e)
  {
    CannotGrow(d, SumDigits(d, e), SumFrac(d, e), memD) || CannotGrow(e, SumDigits(d, e), SumFrac(d, e), memE)
  }

  /** With memory for both, exactly if the places before and after the point come to ten million with two to spare; and
      never without memory for the second, which always grows. */
  lemma RunsOutExactly(d: Fixed, e: Fixed)
    requires GoodFixed(d) && GoodFixed(e)
    ensures var wholeD := |d.digits| - d.nFrac;
      var left := if wholeD > 0 && d.digits[0] == 0 then wholeD - 1 else wholeD;
      var right := |e.digits| - e.nFrac;
      var whole := if left < right then right else left;
      var frac := if d.nFrac < e.nFrac then e.nFrac else d.nFrac;
      RunsOut(d, e, true, true) <==> whole + frac + 2 > 10_000_000
    ensures forall mem :: RunsOut(d, e, mem, false)
  {
  }

  /** The same, found out from the two objects. */
  method Places(p: Decimal, q: Decimal) returns (nDigit: nat, nFrac: nat)
    requires p.Valid() && q.Valid()
    ensures nDigit == SumDigits(p.Contents(), q.Contents()) && nFrac == SumFrac(p.Contents(), q.Contents())
  {
    var sig := p.nDigit - p.nFrac;
    if sig > 0 && p.a[0] == 0 { sig := sig - 1; }
    if sig < q.nDigit - q.nFrac { sig := q.nDigit - q.nFrac; }
    nFrac := p.nFrac;
    if nFrac < q.nFrac { nFrac := q.nFrac; }
    nDigit := sig + nFrac + 1;
  }

  lemma LeadingZeroBound(s: seq<int>)
    requires AllDigits(s) && s != [] && s[0] == 0
    ensures 0 <= Num(s) && 2 * Num(s) < Pow10(|s|)
  {
    NumCons(s);
    NumBound(s[1..]);
  }

  /** Adds or subtracts the magnitudes of two numbers of `n` digits that both start with a zero. */
  method CombineMagnitudes(a: array<int>, b: array<int>, n: nat, s: bool, t: bool) returns (sign: bool)
    requires a != b && 0 < n <= a.Length && n <= b.Length && AllDigits(a[..n]) && AllDigits(b[..n])
    requires a[0] == 0 && b[0] == 0
    modifies a
    ensures AllDigits(a[..n])
    ensures Signed(sign, Num(a[..n])) == Signed(s, old(Num(a[..n]))) + Signed(t, Num(b[..n]))
  {
    LeadingZeroBound(a[..n]);
    LeadingZeroBound(b[..n]);
    sign := s;
    if s == t {
      var carry := AddInPlace(a, b, n);
      NumBound(a[..n]);
    } else {
      var rc := Compare(a, b, n);
      var borrow;
      if rc < 0 {
        sign := !s;
        borrow := SubtractInPlace(b, a, a, n);
      } else {
        borrow := SubtractInPlace(a, b, a, n);
      }
      NumBound(a[..n]);
    }
  }

  /** p := p + q. */
  method Add(p: Decimal, q: Decimal?, memP: bool, memQ: bool)
    requires p.Valid() && (q != null ==> q.Valid() && q != p && q.a != p.a)
    modifies p, p.a, q, if q != null then q.a else p.a
    ensures p.Valid() && (p.a == old(p.a) || fresh(p.a))
    ensures old(p.oom) || q == null || old(q.oom) ==> p.oom && p.isNull == old(p.isNull)
    ensures q != null && !old(p.oom) && !old(q.oom) && (old(p.isNull) || old(q.isNull)) ==> p.isNull && !p.oom
    ensures q != null && old(p.Usable()) && old(q.Usable()) ==>
      && !p.isNull
      && p.oom == RunsOut(old(p.Contents()), old(q.Contents()), memP, memQ)
      && (!p.oom ==> p.Value() == old(p.Value()) + old(q.Value()))
  {
    if p.oom || q == null || q.oom {
      p.oom := true;
      return;
    }
    if p.isNull || q.isNull {
      p.isNull := true;
      return;
    }
    var nDigit, nFrac := Places(p, q);
    AddUsable(p, q, nDigit, nFrac, memP, memQ);
  }

  method AddUsable(p: Decimal, q: Decimal, nDigit: nat, nFrac: nat, memP: bool, memQ: bool)
    requires p.Valid() && q.Valid() && q != p && q.a != p.a && p.Usable() && q.Usable()
    requires nDigit == SumDigits(p.Contents(), q.Contents()) && nFrac == SumFrac(p.Contents(), q.Contents())
    modifies p, p.a, q, q.a
    ensures p.Valid() && (p.a == old(p.a) || fresh(p.a)) && !p.isNull
    ensures p.oom == RunsOut(old(p.Contents()), old(q.Contents()), memP, memQ)
    ensures !p.oom ==> p.Value() == old(p.Value()) + old(q.Value())
  {
    Align(p, q, nDigit, nFrac, memP, memQ);
    if p.oom || q.oom {
      p.oom := true;
      return;
    }
    AddAligned(p, q, nDigit, nFrac);
  }

  /** Both numbers have the same shape and a zero in front. */
  ghost predicate Aligned(p: Decimal, q: Decimal, nDigit: nat, nFrac: nat)
    reads p, q, p.a, q.a
  {
    && p.Valid() && q.Valid() && p != q && p.a != q.a
    && 0 < nDigit == p.nDigit == q.nDigit && nFrac == p.nFrac == q.nFrac && p.a[0] == 0 && q.a[0] == 0
  }

  method Align(p: Decimal, q: Decimal, nDigit: nat, nFrac: nat, memP: bool, memQ: bool)
    requires p.Valid() && q.Valid() && q != p && q.a != p.a && p.Usable() && q.Usable()
    requires nDigit == SumDigits(p.Contents(), q.Contents()) && nFrac == SumFrac(p.Contents(), q.Contents())
    modifies p, q
    ensures p.Valid() && q.Valid() && !p.isNull && (p.a == old(p.a) || fresh(p.a)) && (q.a == old(q.a) || fresh(q.a))
    ensures p.oom || q.oom <==> RunsOut(old(p.Contents()), old(q.Contents()), memP, memQ)
    ensures p.Value() == old(p.Value()) && q.Value() == old(q.Value())
    ensures !p.oom && !q.oom ==> Aligned(p, q, nDigit, nFrac)
  {
    RoomInFront(p.Contents(), q.Contents());
    Widen(p, nDigit, nFrac, memP);
    Widen(q, nDigit, nFrac, memQ);
  }

  /** How many zeros come before the digits. */
  function Before(d: Fixed, nDigit: nat, nFrac: nat): int {
    nDigit - |d.digits| - (nFrac - d.nFrac)
  }

  /** Both numbers get a zero in front or have one. */
  lemma RoomInFront(d: Fixed, e: Fixed)
    requires GoodFixed(d) && GoodFixed(e)
    ensures var n, f := SumDigits(d, e), SumFrac(d, e);
      && Before(d, n, f) >= 0 && (Before(d, n, f) == 0 ==> d.digits != [] && d.digits[0] == 0)
      && Before(e, n, f) > 0
  {
  }

  method Widen(p: Decimal, nDigit: nat, nFrac: nat, memory: bool)
    requires p.Valid() && p.Usable() && p.nFrac <= nFrac
    requires var front := Before(p.Contents(), nDigit, nFrac);
      front >= 0 && (front == 0 ==> p.nDigit > 0 && p.Contents().digits[0] == 0)
    modifies p
    ensures p.Valid() && !p.isNull && (p.a == old(p.a) || fresh(p.a)) && p.Value() == old(p.Value())
    ensures p.oom <==> CannotGrow(old(p.Contents()), nDigit, nFrac, memory)
    ensures p.sign == old(p.sign)
    ensures !p.oom ==> 0 < nDigit == p.nDigit && nFrac == p.nFrac && p.a[0] == 0
  {
    ghost var d := p.Contents();
    PaddedStart(d, Before(d, nDigit, nFrac), nFrac - d.nFrac);
    Expand(p, nDigit, nFrac, memory);
    assert !p.oom ==> p.nDigit == |p.Contents().digits| && p.a[0] == p.Contents().digits[0];
  }

  lemma PaddedStart(d: Fixed, front: nat, back: nat)
    requires front > 0 || (d.digits != [] && d.digits[0] == 0)
    ensures var r := Padded(d, front, back);
      r.digits != [] && r.digits[0] == 0 && |r.digits| == front + |d.digits| + back
  {
  }

  predicate IsSum(z: real, x: real, y: real) {
    z == x + y
  }

  lemma SumValue(s: bool, m: int, t: bool, k: int, sign: bool, r: int, f: nat)
    requires Signed(sign, r) == Signed(s, m) + Signed(t, k)
    ensures IsSum(Ratio(Signed(sign, r), f), Ratio(Signed(s, m), f), Ratio(Signed(t, k), f))
  {
    RatioAdd(Signed(s, m), Signed(t, k), f);
  }

  method AddAligned(p: Decimal, q: Decimal, nDigit: nat, nFrac: nat)
    requires Aligned(p, q, nDigit, nFrac)
    modifies p`sign, p.a
    ensures p.Valid() && IsSum(p.Value(), old(p.Value()), old(q.Value()))
  {
    ghost var m, k, s, t := Num(p.a[..nDigit]), Num(q.a[..nDigit]), p.sign, q.sign;
    p.sign := CombineMagnitudes(p.a, q.a, nDigit, p.sign, q.sign);
    SumValue(s, m, t, k, p.sign, Num(p.a[..nDigit]), nFrac);
  }
}
