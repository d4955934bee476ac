/** The rows of a series between two ends, and what offset and limit make of them.
    (mvsqlite-pgtypes-ext/series.c) */
module SeriesRows {
  import opened Common
  import opened Progressions
  import opened Series

  function Negated(s: seq<int>): seq<int> {
    seq(|s|, i requires 0 <= i < |s| => -s[i])
  }

  /** `term` is exactly a number of steps from `base`, in the cursor's direction. */
  predicate Exact(base: int, term: int, step: int, desc: bool) {
    if desc then Reaches(-base, -term, step) else Reaches(base, term, step)
  }

  function Between(base: int, term: int, step: int, desc: bool): seq<int>
    requires Exact(base, term, step, desc)
  {
    if desc then Negated(List(-base, -term, step)) else List(base, term, step)
  }

  ghost predicate Strictly(rows: seq<int>, desc: bool) {
    forall i, j | 0 <= i < j < |rows| :: if desc then rows[i] > rows[j] else rows[i] < rows[j]
  }

  /** Every member once, in the order asked for. */
  ghost predicate IsResult(q: Query, rows: seq<int>) {
    (forall x :: x in rows <==> Member(q, x)) && Strictly(rows, Downwards(q))
  }

  lemma BetweenOrdered(base: int, term: int, step: int, desc: bool)
    requires Exact(base, term, step, desc)
    ensures Strictly(Between(base, term, step, desc), desc)
    ensures |Between(base, term, step, desc)| >= 1 && Between(base, term, step, desc)[0] == base
  {
    var a, b := if desc then -base else base, if desc then -term else term;
    ListLength(a, b, step);
    forall i, j | 0 <= i < j < |List(a, b, step)| ensures List(a, b, step)[i] < List(a, b, step)[j] {
      ListIncreases(a, b, step, i, j);
    }
  }

  lemma BetweenContains(base: int, term: int, step: int, desc: bool, x: int)
    requires Exact(base, term, step, desc)
    ensures x in Between(base, term, step, desc) <==>
      if desc then Falling(base, term, step, x) else Rising(base, term, step, x)
  {
    if desc {
      ListIsRising(-base, -term, step, -x);
      var list, rows := List(-base, -term, step), Between(base, term, step, true);
      if x in rows {
        var i :| 0 <= i < |rows| && rows[i] == x;
        assert list[i] == -x;
      }
      if -x in list {
        var i :| 0 <= i < |list| && list[i] == -x;
        assert rows[i] == x;
      }
    } else {
      ListIsRising(base, term, step, x);
    }
  }

  /** Turning the series round keeps its numbers. */
  lemma TurnedRound(base: int, term: int, step: int, desc: bool)
    requires Exact(base, term, step, desc)
    ensures Exact(term, base, step, !desc)
    ensures forall x :: x in Between(base, term, step, desc) <==> x in Between(term, base, step, !desc)
  {
    var a, b := if desc then -base else base, if desc then -term else term;
    Reversed(a, b, step, 0);
    forall x ensures x in Between(base, term, step, desc) <==> x in Between(term, base, step, !desc) {
      Reversed(a, b, step, if desc then -x else x);
      BetweenContains(base, term, step, desc, x);
      BetweenContains(term, base, step, !desc, x);
    }
  }

  lemma BetweenInt64(base: int, term: int, step: int, desc: bool, x: int)
    requires IsInt64(base) && IsInt64(term) && Exact(base, term, step, desc)
    ensures x in Between(base, term, step, desc) ==> IsInt64(x)
  {
    BetweenContains(base, term, step, desc, x);
    if x in Between(base, term, step, desc) {
      var a, b, y := if desc then -base else base, if desc then -term else term, if desc then -x else x;
      var k: nat :| At(a, k, step) == y;
      Times(0, k, step);
    }
  }

  lemma LastRow(value: int, step: int, desc: bool)
    requires Exact(value, value, step, desc)
    ensures Between(value, value, step, desc)[1..] == []
  {
    assert 0 / step == 0;
  }

  // ---- Limit and offset ----

  /** Rows skipped by an offset. */
  function Skipped(offset: int, n: nat): nat {
    if offset <= 0 then 0 else Min(offset, n)
  }

  /** `rows` starts where the offset says, and is not cut short of the limit. */
  predicate IsCut(limit: int, offset: int, full: seq<int>, rows: seq<int>) {
    var rest := full[Skipped(offset, |full|)..];
    && rows <= rest
    && (limit < 0 ==> rows == rest)
    && (limit >= 0 ==> |rows| >= Min(limit, |rest|))
  }

  function OffsetOf(q: Query): int {
    if q.offset.Some? then q.offset.value else 0
  }

  predicate IsSlice(q: Query, full: seq<int>, rows: seq<int>) {
    if q.limit.None? then rows == full else IsCut(q.limit.value, OffsetOf(q), full, rows)
  }

  /** How many rows there are from the base to where a limit moves the last row, if nothing wraps. It
      is always moved upwards. */
  function RowsAsked(desc: bool, limit: int): int {
    if desc then 2 - limit else limit
  }

  /** When a limit leaves a cursor that lists the rows it should, with `n` rows to choose from: it is
      negative, or does not bite, or does not move the last row to before the first; or the sum wraps
      round all 64 bits and happens to land on one of the rows, not too early. */
  predicate LimitWorks(step: int, desc: bool, limit: int, n: nat)
    requires step > 0
  {
    || limit < 0
    || n <= limit + 1
    || RowsAsked(desc, limit) >= 1
    || (TWO_64 % step == 0 && limit <= TWO_64 / step + RowsAsked(desc, limit) <= n)
  }

  predicate LimitHandled(q: Query, n: nat) {
    q.limit.Some? ==>
      LimitWorks(Magnitude(StepOf(q)), Downwards(q), q.limit.value, n - Skipped(OffsetOf(q), n))
  }

  /** Where the first row goes, exactly. */
  lemma OffsetStays(base: int, term: int, step: int, desc: bool, offset: int)
    requires IsInt64(base) && IsInt64(term) && 1 <= step <= TWO_63 && Exact(base, term, step, desc)
    requires 0 < offset < |Between(base, term, step, desc)| && IsInt64(offset)
    ensures var b := if desc then Sub64(base, Mul64(step, offset)) else Add64(base, Mul64(step, offset));
      IsInt64(b) && Exact(b, term, step, desc)
        && Between(b, term, step, desc) == Between(base, term, step, desc)[offset..]
  {
    var a, z := if desc then -base else base, if desc then -term else term;
    ListLength(a, z, step);
    SkipReaches(a, z, step, offset);
    assert At(a, offset, step) <= z;
    Times(1, offset, step);
    assert step * offset == offset * step;
    if desc {
      assert Negated(List(a, z, step))[offset..] == Negated(List(a, z, step)[offset..]);
    }
  }

  // Where the last row goes.

  /** A list that starts alike is a prefix exactly if it is no longer. */
  lemma PrefixIsShorter(a: int, t: int, z: int, step: int)
    requires Reaches(a, t, step) && Reaches(a, z, step)
    ensures List(a, t, step) <= List(a, z, step) <==> StepsTo(a, t, step) <= StepsTo(a, z, step)
  {
    ListLength(a, t, step);
    ListLength(a, z, step);
    if StepsTo(a, t, step) <= StepsTo(a, z, step) {
      CutReaches(a, z, step, StepsTo(a, t, step) + 1);
    }
  }

  lemma NegatedPrefix(s: seq<int>, t: seq<int>)
    ensures Negated(s) <= Negated(t) <==> s <= t
  {
    if Negated(s) <= Negated(t) {
      forall i | 0 <= i < |s| ensures s[i] == t[i] {
        assert Negated(s)[i] == Negated(t)[i];
      }
    }
  }

  /** Unsigned multiplication and addition agree with the integers up to a multiple of 2^64. */
  lemma MovedBy(base: int, step: int, limit: int) returns (j: int)
    requires IsInt64(base) && 1 <= step <= TWO_63 && 0 <= limit <= LARGEST
    ensures Add64(base, Mul64(ToUnsigned(limit - 1), step)) == base + (limit - 1) * step + j * TWO_64
  {
    var u := ToUnsigned(limit - 1);
    var m := Mul64(u, step);
    var x := ToUnsigned(base) + m;
    var t := Add64(base, m);
    assert u * step == u * step / TWO_64 * TWO_64 + m;
    assert x == x / TWO_64 * TWO_64 + x % TWO_64;
    var a := if limit == 0 then 1 else 0;
    assert u == limit - 1 + a * TWO_64;
    assert u * step == (limit - 1) * step + (a * step) * TWO_64;
    var b, c := if base < 0 then 1 else 0, if x % TWO_64 >= TWO_63 then 1 else 0;
    j := a * step - u * step / TWO_64 + b - x / TWO_64 - c;
  }

  /** `t` is the end of a list from `a` that is a prefix of the one to `z`, and has at least `limit` numbers. */
  predicate CutsTo(a: int, t: int, z: int, step: int, limit: int)
    requires Reaches(a, z, step)
  {
    Reaches(a, t, step) && List(a, t, step) <= List(a, z, step) && |List(a, t, step)| >= limit
  }

  /** Two numbers of one 64-bit range that differ by a multiple of 2^64 are equal. */
  lemma NoWrap(x: int, y: int, i: int, lo: int)
    requires lo <= x < lo + TWO_64 && lo <= y < lo + TWO_64 && x == y + i * TWO_64
    ensures i == 0
  {
  }

  lemma CutForwards(a: int, t: int, z: int, step: int, f: nat, i: int, limit: int, lo: int)
    requires Reaches(a, z, step) && f <= StepsTo(a, z, step) && limit <= f + 1
    requires lo <= a && z < lo + TWO_64 && lo <= t < lo + TWO_64 && t == At(a, f, step) + i * TWO_64
    ensures CutsTo(a, t, z, step, limit)
  {
    Times(0, f, step);
    Times(f, StepsTo(a, z, step), step);
    NoWrap(t, At(a, f, step), i, lo);
    CutReaches(a, z, step, f + 1);
  }

  /** Moved backwards, the end is out of place, or wraps round and is moved forwards after all. */
  lemma CutBackwards(a: int, t: int, z: int, step: int, f: int, i: int, limit: int, lo: int)
    requires Reaches(a, z, step) && f < 0 && -TWO_64 < f * step
    requires lo <= a && z < lo + TWO_64 && lo <= t < lo + TWO_64 && t == At(a, f, step) + i * TWO_64
    ensures CutsTo(a, t, z, step, limit) <==>
      TWO_64 % step == 0 && limit <= TWO_64 / step + f + 1 <= StepsTo(a, z, step) + 1
  {
    var n, q, r := TWO_64 / step, StepsTo(a, z, step), TWO_64 % step;
    assert TWO_64 == n * step + r;
    assert At(a, n + f, step) == a + f * step + n * step by { assert (n + f) * step == n * step + f * step; }
    assert f * step < 0 by { Times(f, -1, step); }
    assert i == 0 || i == 1;
    if i == 0 {
      if r == 0 && n + f + 1 <= q + 1 {
        TimesLess(-n, f, step);
        Times(0, n + f, step);
        Times(n + f, q, step);
        NoWrap(At(a, n + f, step), t, 1, lo);
        assert false;
      }
    } else {
      StepsAre(a, t, step, n + f);
      if r == 0 {
        PrefixIsShorter(a, t, z, step);
        ListLength(a, t, step);
      }
    }
  }

  function Turned(desc: bool, x: int): int {
    if desc then -x else x
  }

  lemma BetweenLength(base: int, term: int, step: int, desc: bool)
    requires Exact(base, term, step, desc)
    ensures |Between(base, term, step, desc)| == StepsTo(Turned(desc, base), Turned(desc, term), step) + 1
  {
    ListLength(Turned(desc, base), Turned(desc, term), step);
  }

  /** Seen upwards, the end is moved by a number of steps, up to wrapping. */
  lemma EndMoves(base: int, step: int, desc: bool, limit: int) returns (i: int)
    requires IsInt64(base) && 1 <= step <= TWO_63 && 0 <= limit <= LARGEST
    ensures Turned(desc, Add64(base, Mul64(ToUnsigned(limit - 1), step))) ==
      At(Turned(desc, base), RowsAsked(desc, limit) - 1, step) + i * TWO_64
  {
    var j := MovedBy(base, step, limit);
    i := Turned(desc, j);
    assert (1 - limit) * step == -((limit - 1) * step);
    assert -j * TWO_64 == -(j * TWO_64);
  }

  lemma CutSeenUpwards(a: int, e: int, z: int, step: int, f: int, i: int, limit: int, lo: int)
    requires Reaches(a, z, step) && -StepsTo(a, z, step) <= f <= StepsTo(a, z, step) && (f >= 0 ==> limit <= f + 1)
    requires lo <= a && z < lo + TWO_64 && lo <= e < lo + TWO_64 && e == At(a, f, step) + i * TWO_64
    ensures CutsTo(a, e, z, step, limit) <==>
      f >= 0 || (TWO_64 % step == 0 && limit <= TWO_64 / step + f + 1 <= StepsTo(a, z, step) + 1)
  {
    if f >= 0 {
      CutForwards(a, e, z, step, f, i, limit, lo);
    } else {
      var q := StepsTo(a, z, step);
      Times(-q, f, step);
      assert -q * step == -(q * step);
      CutBackwards(a, e, z, step, f, i, limit, lo);
    }
  }

  lemma CutsToRows(base: int, t: int, term: int, step: int, desc: bool, limit: int)
    requires Exact(base, term, step, desc)
    ensures
      Exact(base, t, step, desc)
      && Between(base, t, step, desc) <= Between(base, term, step, desc) && |Between(base, t, step, desc)| >= limit
      <==> CutsTo(Turned(desc, base), Turned(desc, t), Turned(desc, term), step, limit)
  {
    if Exact(base, t, step, desc) && desc {
      NegatedPrefix(List(-base, -t, step), List(-base, -term, step));
    }
  }

  /** Moving the last row works exactly under the condition. */
  lemma CutWorksExactly(base: int, term: int, step: int, desc: bool, limit: int)
    requires IsInt64(base) && IsInt64(term) && 1 <= step <= TWO_63 && Exact(base, term, step, desc)
    requires 0 <= limit <= LARGEST && limit + 1 < |Between(base, term, step, desc)|
    ensures var t, all := Add64(base, Mul64(ToUnsigned(limit - 1), step)), Between(base, term, step, desc);
      Exact(base, t, step, desc) && Between(base, t, step, desc) <= all && |Between(base, t, step, desc)| >= limit
      <==> LimitWorks(step, desc, limit, |all|)
  {
    var t := Add64(base, Mul64(ToUnsigned(limit - 1), step));
    var i := EndMoves(base, step, desc, limit);
    BetweenLength(base, term, step, desc);
    CutSeenUpwards(
      Turned(desc, base), Turned(desc, t), Turned(desc, term), step, RowsAsked(desc, limit) - 1, i, limit,
      if desc then -LARGEST else SMALLEST);
    CutsToRows(base, t, term, step, desc, limit);
  }

  /** Ten rows from 10 down to 1 with a limit of 3: the last row is moved to 12, above the first. */
  lemma DescendingLimitFails()
    ensures Add64(10, Mul64(ToUnsigned(3 - 1), 1)) == 12 && !Exact(10, 12, 1, true)
    ensures Exact(10, 1, 1, true) && |Between(10, 1, 1, true)| == 10 && !LimitWorks(1, true, 3, 10)
    ensures var q := Query(Some(10), Some(1), Some(-1), None, None, None, AsStepped, Some(3), None);
      !LimitHandled(q, 10)
  {
  }
}
