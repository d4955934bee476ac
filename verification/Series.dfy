/** generate_series in 64-bit arithmetic. (mvsqlite-pgtypes-ext/series.c) */
module Series {
  import opened Common
  import opened Progressions

  const TWO_63 := 0x8000_0000_0000_0000
  const TWO_64 := 0x1_0000_0000_0000_0000
  const SMALLEST := -0x8000_0000_0000_0000
  const LARGEST := 0x7fff_ffff_ffff_ffff

  predicate IsInt64(x: int) {
    SMALLEST <= x <= LARGEST
  }

  predicate IsUint64(x: int) {
    0 <= x < TWO_64
  }

  /** Two's complement, both ways. */
  function ToUnsigned(a: int): (r: int)
    requires IsInt64(a)
    ensures IsUint64(r)
  {
    if a < 0 then a + TWO_64 else a
  }

  function ToSigned(x: int): (r: int)
    requires IsUint64(x)
    ensures IsInt64(r)
  {
    if x >= TWO_63 then x - TWO_64 else x
  }

  /** The distance between two numbers is exact. */
  function Span64(a: int, b: int): (r: int)
    requires IsInt64(a) && IsInt64(b) && a >= b
    ensures r == a - b
  {
    (ToUnsigned(a) - ToUnsigned(b)) % TWO_64
  }

  /** Sums and differences wrap, and are exact if they fit. */
  function Add64(a: int, b: int): (r: int)
    requires IsInt64(a) && IsUint64(b)
    ensures IsInt64(r) && (a + b <= LARGEST ==> r == a + b)
  {
    ToSigned((ToUnsigned(a) + b) % TWO_64)
  }

  function Sub64(a: int, b: int): (r: int)
    requires IsInt64(a) && IsUint64(b)
    ensures IsInt64(r) && (a - b >= SMALLEST ==> r == a - b)
  {
    ToSigned((ToUnsigned(a) - b) % TWO_64)
  }

  /** An unsigned product, wrapped. */
  function Mul64(a: int, b: int): (r: int)
    requires IsUint64(a) && IsUint64(b)
    ensures IsUint64(r) && (a * b < TWO_64 ==> r == a * b)
  {
    WrapsExactly(a, b);
    (a * b) % TWO_64
  }

  lemma WrapsExactly(a: int, b: int)
    requires IsUint64(a) && IsUint64(b)
    ensures a * b >= 0 && (a * b < TWO_64 ==> (a * b) % TWO_64 == a * b)
  {
    assert a * b >= 0;
  }

  // ---- The query ----

  datatype Bound = Bound(value: int, strict: bool)

  datatype Order = AsStepped | Ascending | Descending

  /** The constraints handed to the cursor; every number is a 64-bit integer. */
  datatype Query = Query(
    start: Option<int>, stop: Option<int>, step: Option<int>,
    equal: Option<int>, lower: Option<Bound>, upper: Option<Bound>,
    order: Order,
    limit: Option<int>, offset: Option<int>)

  predicate AllInt64(q: Query) {
    && (q.start.Some? ==> IsInt64(q.start.value)) && (q.stop.Some? ==> IsInt64(q.stop.value))
    && (q.step.Some? ==> IsInt64(q.step.value)) && (q.equal.Some? ==> IsInt64(q.equal.value))
    && (q.lower.Some? ==> IsInt64(q.lower.value.value)) && (q.upper.Some? ==> IsInt64(q.upper.value.value))
    && (q.limit.Some? ==> IsInt64(q.limit.value)) && (q.offset.Some? ==> IsInt64(q.offset.value))
  }

  /** Missing arguments: start 0, stop 4294967295, step 1; but a bound on the value opens a side that
      neither its own argument nor a step limits. A step of 0 counts as 1. */
  function Start(q: Query): int {
    if q.start.Some? then q.start.value
    else if q.step.None? && (q.equal.Some? || q.lower.Some?) then SMALLEST
    else 0
  }

  function Stop(q: Query): int {
    if q.stop.Some? then q.stop.value
    else if q.step.None? && (q.equal.Some? || q.upper.Some?) then LARGEST
    else 0xffff_ffff
  }

  function StepOf(q: Query): int {
    if q.step.None? || q.step.value == 0 then 1 else q.step.value
  }

  function Magnitude(step: int): int {
    if step < 0 then -step else step
  }

  predicate Satisfies(q: Query, x: int) {
    if q.equal.Some? then x == q.equal.value
    else
      && (q.lower.Some? ==> if q.lower.value.strict then q.lower.value.value < x else q.lower.value.value <= x)
      && (q.upper.Some? ==> if q.upper.value.strict then x < q.upper.value.value else x <= q.upper.value.value)
  }

  /** `x` is start + n * step for some n, not beyond stop, and meets the bounds on the value. */
  ghost predicate Member(q: Query, x: int) {
    && IsInt64(x) && Satisfies(q, x)
    && (if StepOf(q) > 0 then x <= Stop(q) else x >= Stop(q))
    && InSteps(Start(q), StepOf(q), x)
  }

  predicate Downwards(q: Query) {
    if q.order.AsStepped? then StepOf(q) < 0 else q.order.Descending?
  }

  ghost predicate Progresses(q: Query, x: int) {
    var s := Magnitude(StepOf(q));
    if StepOf(q) > 0 then Rising(Start(q), Stop(q), s, x) else Falling(Start(q), Stop(q), s, x)
  }

  /** Members are those of the progression in the direction of the step. */
  lemma MemberIsProgression(q: Query, x: int)
    requires IsInt64(x)
    ensures Member(q, x) <==> Satisfies(q, x) && Progresses(q, x)
  {
    var s := Magnitude(StepOf(q));
    if StepOf(q) < 0 {
      forall n: nat ensures At(-Start(q), n, s) == -At(Start(q), n, StepOf(q)) {
        assert n * -StepOf(q) == -(n * StepOf(q));
      }
      if Falling(Start(q), Stop(q), s, x) {
        var n: nat :| At(-Start(q), n, s) == -x;
        assert At(Start(q), n, StepOf(q)) == x;
      }
      if Member(q, x) {
        var n: nat :| At(Start(q), n, StepOf(q)) == x;
        assert At(-Start(q), n, s) == -x;
      }
    }
  }

  // ---- Narrowing ----

  /** The bounds on the value as an inclusive range, if there is one. */
  method ValueRange(q: Query) returns (ok: bool, low: int, high: int)
    requires AllInt64(q)
    ensures ok ==> IsInt64(low) && IsInt64(high) && forall x | IsInt64(x) :: Satisfies(q, x) <==> low <= x <= high
    ensures !ok ==> forall x | IsInt64(x) :: !Satisfies(q, x)
  {
    ok, low, high := true, SMALLEST, LARGEST;
    if q.equal.Some? {
      low, high := q.equal.value, q.equal.value;
    } else {
      if q.lower.Some? {
        low := q.lower.value.value;
        if q.lower.value.strict {
          if low == LARGEST { return false, 0, 0; }
          low := low + 1;
        }
      }
      if q.upper.Some? {
        high := q.upper.value.value;
        if q.upper.value.strict {
          if high == SMALLEST { return false, 0, 0; }
          high := high - 1;
        }
      }
      if low > high { return false, 0, 0; }
    }
  }

  /** Moves `start` up to the first number of the progression that is at least `low`. */
  method NarrowUp(start: int, stop: int, step: int, low: int) returns (ok: bool, base: int)
    requires IsInt64(start) && IsInt64(stop) && IsInt64(low) && 1 <= step <= TWO_63
    ensures ok ==>
      IsInt64(base) && forall x :: Rising(base, stop, step, x) <==> Rising(start, stop, step, x) && low <= x
    ensures !ok ==> forall x :: !(Rising(start, stop, step, x) && low <= x)
  {
    ok, base := true, start;
    ghost var j := 0;
    assert At(start, 0, step) == start;
    if base < low {
      var span := Span64(low, base);
      StepsFit(start, low, step);
      WholeStepsFit(span, step);
      base := Add64(base, Mul64(span / step, step));
      j := span / step;
      if base < low {
        if base > Sub64(LARGEST, step) {
          forall x ensures !(Rising(start, stop, step, x) && low <= x) {
            NothingLeft(start, stop, step, low, j, x);
          }
          return false, 0;
        }
        base := Add64(base, step);
        AtAt(start, j, 1, step);
        j := j + 1;
      } else {
        AtAt(start, j - 1, 1, step);
      }
    } else {
      j := 0;
    }
    StartsThere(start, stop, step, low, j, base);
  }

  lemma WholeStepsFit(span: int, step: int)
    requires IsUint64(span) && step > 0
    ensures 0 <= span / step <= span / step * step <= span
  {
    var q := span / step;
    assert span == q * step + span % step;
    AtLeastAsMany(q, step);
  }

  lemma AtLeastAsMany(q: int, step: int)
    requires q >= 0 && step >= 1
    ensures q <= q * step
  {
  }

  /** The first number at or above `low`, or the start if that is. */
  lemma StartsThere(start: int, stop: int, step: int, low: int, j: nat, base: int)
    requires step > 0 && base == At(start, j, step) && low <= base && (j > 0 ==> At(start, j - 1, step) < low)
    ensures forall x :: Rising(base, stop, step, x) <==> Rising(start, stop, step, x) && low <= x
  {
    forall x ensures Rising(base, stop, step, x) <==> Rising(start, stop, step, x) && low <= x {
      StartAt(start, stop, step, low, j, x);
    }
  }

  /** The mirror image: moves `start` down to the first number that is at most `high`. */
  method NarrowDown(start: int, stop: int, step: int, high: int) returns (ok: bool, base: int)
    requires IsInt64(start) && IsInt64(stop) && IsInt64(high) && 1 <= step <= TWO_63
    ensures ok ==>
      IsInt64(base) && forall x :: Falling(base, stop, step, x) <==> Falling(start, stop, step, x) && x <= high
    ensures !ok ==> forall x :: !(Falling(start, stop, step, x) && x <= high)
  {
    ok, base := true, start;
    ghost var j := 0;
    assert At(-start, 0, step) == -start;
    if base > high {
      var span := Span64(base, high);
      StepsFit(-start, -high, step);
      WholeStepsFit(span, step);
      base := Sub64(base, Mul64(span / step, step));
      j := span / step;
      if base > high {
        if base < Add64(SMALLEST, step) {
          forall x ensures !(Falling(start, stop, step, x) && x <= high) {
            NothingLeft(-start, -stop, step, -high, j, -x);
          }
          return false, 0;
        }
        base := Sub64(base, step);
        AtAt(-start, j, 1, step);
        j := j + 1;
      } else {
        AtAt(-start, j - 1, 1, step);
      }
    }
    forall x ensures Falling(base, stop, step, x) <==> Falling(start, stop, step, x) && x <= high {
      StartAt(-start, -stop, step, -high, j, -x);
    }
  }

  /** The part of an upward series within `low..high`, from its first to exactly its last number. */
  method SetUp(start: int, stop: int, step: int, low: int, high: int) returns (ok: bool, base: int, term: int)
    requires IsInt64(start) && IsInt64(stop) && IsInt64(low) && IsInt64(high) && 1 <= step <= TWO_63
    ensures ok ==> IsInt64(base) && IsInt64(term) && Reaches(base, term, step)
    ensures ok ==> forall x :: Rising(base, term, step, x) <==> Rising(start, stop, step, x) && low <= x <= high
    ensures !ok ==> forall x :: !(Rising(start, stop, step, x) && low <= x <= high)
  {
    base, term := start, stop;
    if base > term {
      forall x ensures !Rising(start, stop, step, x) { NoneBelow(start, stop, step, x); }
      return false, 0, 0;
    }
    ok, base := NarrowUp(start, stop, step, low);
    if !ok { return false, 0, 0; }
    if term > high { term := high; }
    forall x ensures Rising(base, term, step, x) <==> Rising(base, stop, step, x) && x <= high {}
    if base > term {
      forall x ensures !Rising(base, term, step, x) { NoneBelow(base, term, step, x); }
      return false, 0, 0;
    }
    ghost var last := term;
    StepsFit(base, term, step);
    term := Sub64(term, Span64(term, base) % step);
    ReachesAt(base, StepsTo(base, last, step), step);
    forall x ensures Rising(base, term, step, x) <==> Rising(base, last, step, x) { EndAt(base, last, step, x); }
  }

  /** The mirror image. */
  method SetDown(start: int, stop: int, step: int, low: int, high: int) returns (ok: bool, base: int, term: int)
    requires IsInt64(start) && IsInt64(stop) && IsInt64(low) && IsInt64(high) && 1 <= step <= TWO_63
    ensures ok ==> IsInt64(base) && IsInt64(term) && Reaches(-base, -term, step)
    ensures ok ==> forall x :: Falling(base, term, step, x) <==> Falling(start, stop, step, x) && low <= x <= high
    ensures !ok ==> forall x :: !(Falling(start, stop, step, x) && low <= x <= high)
  {
    base, term := start, stop;
    if base < term {
      forall x ensures !Falling(start, stop, step, x) { NoneBelow(-start, -stop, step, -x); }
      return false, 0, 0;
    }
    ok, base := NarrowDown(start, stop, step, high);
    if !ok { return false, 0, 0; }
    if term < low { term := low; }
    forall x ensures Falling(base, term, step, x) <==> Falling(base, stop, step, x) && low <= x {}
    if base < term {
      forall x ensures !Falling(base, term, step, x) { NoneBelow(-base, -term, step, -x); }
      return false, 0, 0;
    }
    ghost var last := term;
    StepsFit(-base, -term, step);
    term := Add64(term, Span64(base, term) % step);
    ReachesAt(-base, StepsTo(-base, -last, step), step);
    forall x ensures Falling(base, term, step, x) <==> Falling(base, last, step, x) { EndAt(-base, -last, step, -x); }
  }
}
