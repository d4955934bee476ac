/** Sequences of decimal digits, most significant first, and the numbers they spell. */
module Digits {

  function Pow10(n: nat): (r: nat)
    ensures r >= 1
  {
    if n == 0 then 1 else 10 * Pow10(n - 1)
  }

  function Num(s: seq<int>): int {
    if s == [] then 0 else 10 * Num(s[..|s| - 1]) + s[|s| - 1]
  }

  predicate AllDigits(s: seq<int>) {
    forall i | 0 <= i < |s| :: 0 <= s[i] <= 9
  }

  lemma {:induction false} Pow10Adds(m: nat, n: nat)
    ensures Pow10(m + n) == Pow10(m) * Pow10(n)
  {
    if m > 0 {
      Pow10Adds(m - 1, n);
      assert Pow10(m) * Pow10(n) == 10 * (Pow10(m - 1) * Pow10(n));
    }
  }

  lemma {:induction false} Pow10Grows(m: nat, n: nat)
    requires m <= n
    ensures Pow10(m) <= Pow10(n)
  {
    if m < n { Pow10Grows(m, n - 1); }
  }

  lemma {:induction false} NumAppend(s: seq<int>, t: seq<int>)
    ensures Num(s + t) == Num(s) * Pow10(|t|) + Num(t)
  {
    if t == [] {
      assert s + t == s;
    } else {
      var rest, last := t[..|t| - 1], t[|t| - 1];
      assert (s + t)[..|s + t| - 1] == s + rest;
      NumAppend(s, rest);
      assert Num(s) * Pow10(|t|) == 10 * (Num(s) * Pow10(|rest|));
    }
  }

  lemma NumOne(d: int)
    ensures Num([d]) == d
  {
    assert [d][..0] == [];
  }

  lemma NumCons(s: seq<int>)
    requires s != []
    ensures Num(s) == s[0] * Pow10(|s| - 1) + Num(s[1..])
  {
    assert s == [s[0]] + s[1..];
    NumAppend([s[0]], s[1..]);
    NumOne(s[0]);
  }

  lemma {:induction false} NumBound(s: seq<int>)
    requires AllDigits(s)
    ensures 0 <= Num(s) < Pow10(|s|)
  {
    if s != [] { NumBound(s[..|s| - 1]); }
  }

  lemma {:induction false} NumZeros(s: seq<int>)
    requires forall i | 0 <= i < |s| :: s[i] == 0
    ensures Num(s) == 0
  {
    if s != [] { NumZeros(s[..|s| - 1]); }
  }

  /** Changing one digit changes the number by the difference at its place. */
  lemma {:induction false} NumUpdate(s: seq<int>, k: nat, d: int)
    requires k < |s|
    ensures Num(s[k := d]) == Num(s) + (d - s[k]) * Pow10(|s| - 1 - k)
  {
    var n := |s| - 1;
    var rest := s[..n];
    if k == n {
      assert s[k := d][..n] == rest;
    } else {
      assert s[k := d][..n] == rest[k := d];
      NumUpdate(rest, k, d);
      assert 10 * ((d - s[k]) * Pow10(n - 1 - k)) == (d - s[k]) * Pow10(n - k);
    }
  }

  /** Appending zeros scales; prefixing zeros changes nothing. */
  lemma NumPad(s: seq<int>, front: nat, back: nat)
    ensures Num(seq(front, _ => 0) + s + seq(back, _ => 0)) == Num(s) * Pow10(back)
  {
    var zeros, tail := seq(front, _ => 0), seq(back, _ => 0);
    NumZeros(zeros);
    NumZeros(tail);
    NumAppend(zeros, s);
    NumAppend(zeros + s, tail);
  }

  lemma NumSplit(s: seq<int>, k: nat)
    requires k <= |s|
    ensures Num(s) == Num(s[..k]) * Pow10(|s| - k) + Num(s[k..])
  {
    assert s == s[..k] + s[k..];
    NumAppend(s[..k], s[k..]);
  }

  /** A number with some digit that is not zero is positive. */
  lemma {:induction false} NumPositive(s: seq<int>, k: nat)
    requires AllDigits(s) && k < |s| && s[k] != 0
    ensures Num(s) > 0
  {
    var rest := s[..|s| - 1];
    if k < |rest| { NumPositive(rest, k); } else { NumBound(rest); }
  }
}
