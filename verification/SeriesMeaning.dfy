/** What generate_series lists, read off the query's own fields: the arguments as given, what each missing one
    stands for, the order, and what limit and offset leave. (mvsqlite-pgtypes-ext/series.c) */
module SeriesMeaning {
  import opened Common
  import opened Progressions
  import opened Series
  import opened SeriesRows

  // ---- The numbers ----

  /** A whole number of steps up. */
  lemma StepsUp(a: int, s: int, x: int)
    requires s > 0
    ensures InSteps(a, s, x) <==> a <= x && (x - a) % s == 0
  {
    if InSteps(a, s, x) {
      var n: nat :| At(a, n, s) == x;
      Multiple(n, s, x - a);
    }
    if a <= x && (x - a) % s == 0 {
      var n := (x - a) / s;
      assert x - a == n * s;
      if n < 0 {
        Times(n, -1, s);
        assert false;
      }
      assert At(a, n, s) == x;
    }
  }

  lemma Multiple(n: nat, s: int, y: int)
    requires s > 0 && y == n * s
    ensures y >= 0 && y % s == 0
  {
    var d, r := n - y / s, y % s;
    assert y == y / s * s + r;
    assert d * s == r by { assert d * s == n * s - y / s * s; }
    if d > 0 { Times(1, d, s); } else if d < 0 { Times(d, -1, s); }
  }

  /** A whole number of steps down. */
  lemma StepsDown(a: int, s: int, x: int)
    requires s < 0
    ensures InSteps(a, s, x) <==> x <= a && (a - x) % -s == 0
  {
    StepsUp(-a, -s, -x);
    Mirrored(a, s, x);
    Mirrored(-a, -s, -x);
  }

  lemma Mirrored(a: int, s: int, x: int)
    ensures InSteps(a, s, x) ==> InSteps(-a, -s, -x)
  {
    if InSteps(a, s, x) {
      var n: nat :| At(a, n, s) == x;
      assert n * -s == -(n * s);
      assert At(-a, n, -s) == -x;
    }
  }

  /** The constraints on the value let `x` through. */
  lemma BoundsGiven(q: Query, x: int)
    ensures Satisfies(q, x) <==>
      && (q.equal.Some? ==> x == q.equal.value)
      && (q.equal.None? && q.lower.Some? ==>
            q.lower.value.value < x || (q.lower.value.value == x && !q.lower.value.strict))
      && (q.equal.None? && q.upper.Some? ==>
            x < q.upper.value.value || (x == q.upper.value.value && !q.upper.value.strict))
  {
  }

  /** With all three arguments and a positive step: `a`, `a + s`, `a + 2 * s` and so on up to `b`. */
  lemma UpwardsGiven(q: Query, a: int, b: int, s: int, x: int)
    requires q.start == Some(a) && q.stop == Some(b) && q.step == Some(s) && s > 0
    ensures Member(q, x) <==>
      && -0x8000_0000_0000_0000 <= x <= 0x7fff_ffff_ffff_ffff && Satisfies(q, x)
      && a <= x <= b && (x - a) % s == 0
  {
    StepsUp(a, s, x);
  }

  /** With a negative step: `a`, `a - |s|`, `a - 2 * |s|` and so on down to `b`. */
  lemma DownwardsGiven(q: Query, a: int, b: int, s: int, x: int)
    requires q.start == Some(a) && q.stop == Some(b) && q.step == Some(s) && s < 0
    ensures Member(q, x) <==>
      && -0x8000_0000_0000_0000 <= x <= 0x7fff_ffff_ffff_ffff && Satisfies(q, x)
      && b <= x <= a && (a - x) % -s == 0
  {
    StepsDown(a, s, x);
  }

  // ---- Missing arguments ----

  /** Two queries have the same result. */
  ghost predicate Same(q: Query, r: Query) {
    (forall x :: Member(q, x) <==> Member(r, x)) && Downwards(q) == Downwards(r)
  }

  lemma SameResult(q: Query, r: Query, full: seq<int>)
    requires Same(q, r)
    ensures IsResult(q, full) <==> IsResult(r, full)
  {
  }

  /** A step of zero is one of one. */
  lemma ZeroStep(q: Query)
    requires q.step == Some(0)
    ensures Same(q, q.(step := Some(1)))
  {
  }

  /** With start and stop given, a missing step is one of one. */
  lemma MissingStep(q: Query)
    requires q.step.None? && q.start.Some? && q.stop.Some?
    ensures Same(q, q.(step := Some(1)))
  {
  }

  /** A missing start is zero; but with a constraint on the value from below, and no step, it is the smallest number
      there is. */
  lemma MissingStart(q: Query)
    requires q.start.None?
    ensures q.step.None? && (q.equal.Some? || q.lower.Some?) ==> Same(q, q.(start := Some(-0x8000_0000_0000_0000)))
    ensures q.step.Some? || (q.equal.None? && q.lower.None?) ==> Same(q, q.(start := Some(0)))
  {
  }

  /** A missing stop is 4294967295; but with a constraint on the value from above, and no step, it is the largest
      number there is. */
  lemma MissingStop(q: Query)
    requires q.stop.None?
    ensures q.step.None? && (q.equal.Some? || q.upper.Some?) ==> Same(q, q.(stop := Some(0x7fff_ffff_ffff_ffff)))
    ensures q.step.Some? || (q.equal.None? && q.upper.None?) ==> Same(q, q.(stop := Some(4294967295)))
  {
  }

  // ---- The rows ----

  /** The whole result of a query with a positive step, as the cursor's filter finds it. */
  lemma RowsGiven(q: Query, full: seq<int>, a: int, b: int, s: int, x: int)
    requires IsResult(q, full) && q.start == Some(a) && q.stop == Some(b) && q.step == Some(s) && s != 0
    ensures x in full <==>
      && -0x8000_0000_0000_0000 <= x <= 0x7fff_ffff_ffff_ffff
      && (q.equal.Some? ==> x == q.equal.value)
      && (q.equal.None? && q.lower.Some? ==>
            q.lower.value.value < x || (q.lower.value.value == x && !q.lower.value.strict))
      && (q.equal.None? && q.upper.Some? ==>
            x < q.upper.value.value || (x == q.upper.value.value && !q.upper.value.strict))
      && (if s > 0 then a <= x <= b && (x - a) % s == 0 else b <= x <= a && (a - x) % -s == 0)
  {
    BoundsGiven(q, x);
    if s > 0 { UpwardsGiven(q, a, b, s, x); } else { DownwardsGiven(q, a, b, s, x); }
    assert x in full <==> Member(q, x);
  }

  /** They come in the order asked for, or else in that of the step. */
  lemma OrderGiven(q: Query, full: seq<int>, i: nat, j: nat)
    requires IsResult(q, full) && i < j < |full|
    ensures q.order.Ascending? ==> full[i] < full[j]
    ensures q.order.Descending? ==> full[j] < full[i]
    ensures q.order.AsStepped? && q.step.Some? && q.step.value < 0 ==> full[j] < full[i]
    ensures q.order.AsStepped? && (q.step.None? || q.step.value >= 0) ==> full[i] < full[j]
  {
  }

  /** Where the limit is handled, the rows read are those after the offset, all of them or at least as many as the
      limit says. */
  lemma SliceGiven(q: Query, full: seq<int>, rows: seq<int>)
    requires IsSlice(q, full, rows)
    ensures q.limit.None? ==> rows == full
    ensures q.limit.Some? ==>
      var skip := if q.offset.Some? && q.offset.value > 0 then q.offset.value else 0;
      var left := if skip < |full| then |full| - skip else 0;
      && |rows| <= left && (forall i | 0 <= i < |rows| :: rows[i] == full[i + skip])
      && (q.limit.value < 0 ==> |rows| == left)
      && (0 <= q.limit.value <= left ==> |rows| >= q.limit.value) && (left <= q.limit.value ==> |rows| == left)
  {
  }

  /** Two to the sixty-fourth. */
  const WRAP := 0x1_0000_0000_0000_0000

  /** When the limit is handled, told by the numbers: `n` rows in all. */
  lemma LimitGiven(q: Query, n: nat, s: int)
    requires q.limit.Some? && q.step == Some(s) && s != 0
    ensures var skip := if q.offset.Some? && q.offset.value > 0 then q.offset.value else 0;
      var left := if skip < n then n - skip else 0;
      var down := q.order.Descending? || (q.order.AsStepped? && s < 0);
      var asked := if down then 2 - q.limit.value else q.limit.value;
      var size := if s < 0 then -s else s;
      LimitHandled(q, n) <==>
        || q.limit.value < 0 || left <= q.limit.value + 1 || asked >= 1
        || (WRAP % size == 0 && q.limit.value <= WRAP / size + asked <= left)
  {
  }
}
