/** Arithmetic progressions: which numbers they contain, and how narrowing, cutting and reversing keep them. */
module Progressions {

  /** `a`, `a + step`, and so on; the `k`-th is `a + k * step`. */
  function At(a: int, k: int, step: int): int {
    a + k * step
  }

  /** `x` is one of them. */
  ghost predicate InSteps(a: int, step: int, x: int) {
    exists k: nat :: At(a, k, step) == x
  }

  /** `x` is one of them, and at most `last`. */
  ghost predicate Rising(a: int, last: int, step: int, x: int) {
    x <= last && exists k: nat :: At(a, k, step) == x
  }

  /** The same downwards, to `last`. */
  ghost predicate Falling(a: int, last: int, step: int, x: int) {
    Rising(-a, -last, step, -x)
  }

  /** How many whole steps fit between `a` and `b`. */
  function StepsTo(a: int, b: int, step: int): int
    requires step > 0
  {
    (b - a) / step
  }

  /** `b` is exactly a number of steps above `a`. */
  predicate Reaches(a: int, b: int, step: int) {
    step > 0 && a <= b && At(a, StepsTo(a, b, step), step) == b
  }

  // ---- Arithmetic ----

  lemma StepsFit(a: int, b: int, step: int)
    requires step > 0 && a <= b
    ensures StepsTo(a, b, step) >= 0
    ensures At(a, StepsTo(a, b, step), step) <= b < At(a, StepsTo(a, b, step), step) + step
    ensures At(a, StepsTo(a, b, step), step) == b - (b - a) % step
  {
    var d := b - a;
    assert d == d / step * step + d % step;
  }

  lemma StepsAre(a: int, b: int, step: int, k: int)
    requires step > 0 && At(a, k, step) <= b < At(a, k, step) + step
    ensures StepsTo(a, b, step) == k
  {
    var d, q := b - a, StepsTo(a, b, step);
    assert d == q * step + d % step;
    if q < k { Times(q + 1, k, step); }
    if q > k { Times(k + 1, q, step); }
  }

  lemma Times(x: int, y: int, step: int)
    requires x <= y && step > 0
    ensures x * step <= y * step
  {
  }

  lemma TimesLess(x: int, y: int, step: int)
    requires step > 0 && x * step < y * step
    ensures x < y
  {
  }

  lemma AtAt(a: int, j: int, k: int, step: int)
    ensures At(At(a, j, step), k, step) == At(a, j + k, step)
  {
    assert (j + k) * step == j * step + k * step;
  }

  lemma ReachesAt(a: int, k: nat, step: int)
    requires step > 0
    ensures Reaches(a, At(a, k, step), step) && StepsTo(a, At(a, k, step), step) == k
  {
    Times(0, k, step);
    StepsAre(a, At(a, k, step), step, k);
  }

  // ---- Narrowing ----

  /** Starting over at the first number at or above `low` keeps exactly those at or above `low`. */
  lemma StartAt(a: int, last: int, step: int, low: int, j: nat, x: int)
    requires step > 0 && low <= At(a, j, step) && (j > 0 ==> At(a, j - 1, step) < low)
    ensures Rising(At(a, j, step), last, step, x) <==> Rising(a, last, step, x) && low <= x
  {
    if Rising(At(a, j, step), last, step, x) {
      var k: nat :| At(At(a, j, step), k, step) == x;
      AtAt(a, j, k, step);
      Times(0, k, step);
      var n: nat := j + k;
      assert At(a, n, step) == x;
    }
    if Rising(a, last, step, x) && low <= x {
      var k: nat :| At(a, k, step) == x;
      if j > 0 { TimesLess(j - 1, k, step); }
      AtAt(a, j, k - j, step);
      var n: nat := k - j;
      assert At(At(a, j, step), n, step) == x;
    }
  }

  /** Nothing at or above `low` is small enough if the next number is not. */
  lemma NothingLeft(a: int, last: int, step: int, low: int, j: nat, x: int)
    requires step > 0 && At(a, j, step) < low && last < At(a, j, step) + step
    ensures !(Rising(a, last, step, x) && low <= x)
  {
    if Rising(a, last, step, x) && low <= x {
      var k: nat :| At(a, k, step) == x;
      TimesLess(j, k, step);
      Times(j + 1, k, step);
      assert false;
    }
  }

  lemma NoneBelow(a: int, last: int, step: int, x: int)
    requires step > 0 && last < a
    ensures !Rising(a, last, step, x)
  {
    if Rising(a, last, step, x) {
      var k: nat :| At(a, k, step) == x;
      Times(0, k, step);
      assert false;
    }
  }

  /** Ending at the last number that is reached keeps them all. */
  lemma EndAt(a: int, last: int, step: int, x: int)
    requires step > 0 && a <= last
    ensures Rising(a, At(a, StepsTo(a, last, step), step), step, x) <==> Rising(a, last, step, x)
  {
    StepsFit(a, last, step);
    var q := StepsTo(a, last, step);
    if Rising(a, last, step, x) {
      var k: nat :| At(a, k, step) == x;
      TimesLess(k, q + 1, step);
      Times(k, q, step);
    }
  }

  /** Counting from the other end. */
  lemma FromOtherEnd(a: int, b: int, step: int, q: nat, k: nat, x: int)
    requires step > 0 && At(a, q, step) == b && At(a, k, step) == x && x <= b
    ensures k <= q && At(-b, q - k, step) == -x && -x <= -a
  {
    TimesLess(k, q + 1, step);
    assert (q - k) * step == q * step - k * step;
    Times(0, k, step);
  }

  /** Read backwards, an exact progression contains the same numbers. */
  lemma Reversed(a: int, b: int, step: int, x: int)
    requires Reaches(a, b, step)
    ensures Rising(a, b, step, x) <==> Falling(b, a, step, x)
    ensures Reaches(-b, -a, step)
  {
    var q := StepsTo(a, b, step);
    StepsFit(a, b, step);
    assert At(-b, q, step) == -a;
    ReachesAt(-b, q, step);
    if Rising(a, b, step, x) {
      var k: nat :| At(a, k, step) == x;
      FromOtherEnd(a, b, step, q, k, x);
    }
    if Falling(b, a, step, x) {
      var k: nat :| At(-b, k, step) == -x;
      FromOtherEnd(-b, -a, step, q, k, -x);
    }
  }

  // ---- Listing ----

  /** All numbers from `a` to `b`, upwards. */
  function List(a: int, b: int, step: int): seq<int>
    requires Reaches(a, b, step)
  {
    seq(StepsTo(a, b, step) + 1, k => At(a, k, step))
  }

  lemma ListLength(a: int, b: int, step: int)
    requires Reaches(a, b, step)
    ensures |List(a, b, step)| == StepsTo(a, b, step) + 1 >= 1 && List(a, b, step)[0] == a
  {
    StepsFit(a, b, step);
  }

  lemma ListIncreases(a: int, b: int, step: int, i: nat, j: nat)
    requires Reaches(a, b, step) && i < j < |List(a, b, step)|
    ensures List(a, b, step)[i] < List(a, b, step)[j]
  {
    Times(i + 1, j, step);
    assert (i + 1) * step == i * step + step;
  }

  lemma ListIsRising(a: int, b: int, step: int, x: int)
    requires Reaches(a, b, step)
    ensures x in List(a, b, step) <==> Rising(a, b, step, x)
  {
    var q := StepsTo(a, b, step);
    StepsFit(a, b, step);
    if x in List(a, b, step) {
      var k :| 0 <= k <= q && List(a, b, step)[k] == x;
      Times(k, q, step);
      var n: nat := k;
      assert At(a, n, step) == x;
    }
    if Rising(a, b, step, x) {
      var k: nat :| At(a, k, step) == x;
      TimesLess(k, q + 1, step);
      assert List(a, b, step)[k] == x;
    }
  }

  lemma NextReaches(a: int, b: int, step: int)
    requires Reaches(a, b, step) && a != b
    ensures a + step <= b && Reaches(a + step, b, step) && StepsTo(a + step, b, step) == StepsTo(a, b, step) - 1
    ensures List(a + step, b, step) == List(a, b, step)[1..]
  {
    SkipReaches(a, b, step, 1);
  }

  /** Skipping `j` numbers. */
  lemma SkipReaches(a: int, b: int, step: int, j: nat)
    requires Reaches(a, b, step) && j <= StepsTo(a, b, step)
    ensures Reaches(At(a, j, step), b, step) && StepsTo(At(a, j, step), b, step) == StepsTo(a, b, step) - j
    ensures List(At(a, j, step), b, step) == List(a, b, step)[j..]
  {
    var q := StepsTo(a, b, step);
    AtAt(a, j, q - j, step);
    ReachesAt(At(a, j, step), q - j, step);
    forall k | 0 <= k <= q - j ensures List(At(a, j, step), b, step)[k] == List(a, b, step)[j..][k] {
      AtAt(a, j, k, step);
    }
  }

  /** Stopping after `n` numbers. */
  lemma CutReaches(a: int, b: int, step: int, n: nat)
    requires Reaches(a, b, step) && 1 <= n <= StepsTo(a, b, step) + 1
    ensures Reaches(a, At(a, n - 1, step), step) && List(a, At(a, n - 1, step), step) == List(a, b, step)[..n]
  {
    ReachesAt(a, n - 1, step);
  }
}
