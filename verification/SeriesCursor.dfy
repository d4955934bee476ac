/** The cursor of generate_series: filtering, stepping, order, limit and offset.
    (mvsqlite-pgtypes-ext/series.c) */
module SeriesCursor {
  import opened Progressions
  import opened Series
  import opened SeriesRows

  class Cursor {
    var base: int
    var term: int
    var step: int
    var value: int
    var desc: bool
    var done: bool

    ghost predicate Valid()
      reads this
    {
      !done ==>
        && IsInt64(base) && IsInt64(term) && IsInt64(value) && 1 <= step <= TWO_63
        && Exact(value, term, step, desc)
    }

    /** The rows still to come, the current one first. */
    ghost function Rows(): seq<int>
      requires Valid()
      reads this
    {
      if done then [] else Between(value, term, step, desc)
    }

    constructor ()
      ensures Valid() && Rows() == []
    {
      base, term, step, value, desc, done := 0, 0, 1, 0, false, true;
    }

    method Eof() returns (eof: bool)
      requires Valid()
      ensures eof <==> Rows() == []
    {
      if !done { BetweenOrdered(value, term, step, desc); }
      eof := done;
    }

    method Column() returns (x: int)
      requires Valid() && Rows() != []
      ensures x == Rows()[0]
    {
      BetweenOrdered(value, term, step, desc);
      x := value;
    }

    /** One row on. The new value does not wrap or pass the last one. */
    method Next()
      requires Valid() && Rows() != []
      modifies this
      ensures Valid() && Rows() == old(Rows())[1..]
      ensures !done ==> if desc then value >= term else value <= term
    {
      BetweenOrdered(value, term, step, desc);
      if value == term {
        LastRow(value, step, desc);
        done := true;
      } else if desc {
        NextReaches(-value, -term, step);
        value := Sub64(value, step);
        assert value >= term;
      } else {
        NextReaches(value, term, step);
        value := Add64(value, step);
        assert value <= term;
      }
    }

    /** The number of steps from the first row to the last. */
    method Steps() returns (n: int)
      requires IsInt64(base) && IsInt64(term) && 1 <= step <= TWO_63 && Exact(base, term, step, desc)
      ensures n == |Between(base, term, step, desc)| - 1 && n >= 0
    {
      if desc {
        ListLength(-base, -term, step);
        n := Span64(base, term) / step;
      } else {
        ListLength(base, term, step);
        n := Span64(term, base) / step;
      }
    }

    method NoRows()
      modifies this
      ensures Valid() && Rows() == []
    {
      base, term, step, desc, done := 0, 0, 1, false, true;
    }

    /** The cursor is set to list exactly `full`, from its base to its term. */
    ghost predicate Set(full: seq<int>)
      reads this
    {
      && IsInt64(base) && IsInt64(term) && 1 <= step <= TWO_63 && Exact(base, term, step, desc)
      && full == Between(base, term, step, desc)
    }

    /** Positions the cursor. `full` is the whole result; limit and offset cut it down. */
    method Filter(q: Query, anyNull: bool) returns (ghost full: seq<int>)
      requires AllInt64(q)
      modifies this
      ensures anyNull ==> Valid() && Rows() == []
      ensures !anyNull ==> IsResult(q, full)
      ensures !anyNull ==> (Valid() && IsSlice(q, full, Rows()) <==> LimitHandled(q, |full|))
    {
      full := [];
      if anyNull {
        NoRows();
        return;
      }
      var ok;
      ok, full := SetOrdered(q);
      if !ok {
        NoRows();
      } else if q.limit.Some? {
        Limit(q.limit.value, OffsetOf(q), full);
      } else {
        value, done := base, false;
      }
    }

    /** Everything up to limit and offset. */
    method SetOrdered(q: Query) returns (ok: bool, ghost full: seq<int>)
      requires AllInt64(q)
      modifies this
      ensures IsResult(q, full) && (!ok ==> full == [])
      ensures ok ==> Set(full) && desc == Downwards(q) && step == Magnitude(StepOf(q))
    {
      full := [];
      ok := SetRange(q);
      if !ok { return; }
      if (q.order.Descending? && !desc) || (q.order.Ascending? && desc) { TurnRound(); }
      full := Between(base, term, step, desc);
      BetweenOrdered(base, term, step, desc);
    }

    /** Everything up to the order of the rows. */
    method SetRange(q: Query) returns (ok: bool)
      requires AllInt64(q)
      modifies this
      ensures !ok ==> IsResult(q, [])
      ensures ok ==> IsInt64(base) && IsInt64(term) && 1 <= step <= TWO_63 && Exact(base, term, step, desc)
      ensures ok ==> step == Magnitude(StepOf(q))
      ensures ok ==> desc == (StepOf(q) < 0) && forall x :: x in Between(base, term, step, desc) <==> Member(q, x)
    {
      step := Magnitude(StepOf(q));
      desc := StepOf(q) < 0;
      var low, high;
      ok, low, high := ValueRange(q);
      if ok {
        if desc {
          ok, base, term := SetDown(Start(q), Stop(q), step, low, high);
        } else {
          ok, base, term := SetUp(Start(q), Stop(q), step, low, high);
        }
      }
      forall x ensures Member(q, x) <==> IsInt64(x) && Satisfies(q, x) && Progresses(q, x) {
        if IsInt64(x) { MemberIsProgression(q, x); }
      }
      if ok {
        forall x ensures x in Between(base, term, step, desc) <==> Member(q, x) {
          BetweenContains(base, term, step, desc, x);
          BetweenInt64(base, term, step, desc, x);
        }
      }
    }

    /** The other order. */
    method TurnRound()
      requires IsInt64(base) && IsInt64(term) && 1 <= step <= TWO_63 && Exact(base, term, step, desc)
      modifies this`base, this`term, this`desc
      ensures IsInt64(base) && IsInt64(term) && Exact(base, term, step, desc) && desc == !old(desc)
      ensures forall x :: x in Between(base, term, step, desc) <==> x in old(Between(base, term, step, desc))
    {
      TurnedRound(base, term, step, desc);
      base, term, desc := term, base, !desc;
    }

    /** Skips `offset` rows, then moves the last row if more than `limit` rows follow the first. */
    method Limit(limit: int, offset: int, ghost full: seq<int>)
      requires IsInt64(limit) && IsInt64(offset) && Set(full)
      modifies this
      ensures Valid() && IsCut(limit, offset, full, Rows()) <==>
        LimitWorks(old(step), old(desc), limit, |full| - Skipped(offset, |full|))
    {
      var steps := Steps();
      if offset > 0 {
        if steps < offset {
          NoRows();
          return;
        }
        OffsetStays(base, term, step, desc, offset);
        base := if desc then Sub64(base, Mul64(step, offset)) else Add64(base, Mul64(step, offset));
      }
      CutLast(limit, full[Skipped(offset, |full|)..]);
    }

    method CutLast(limit: int, ghost rest: seq<int>)
      requires IsInt64(limit) && Set(rest)
      modifies this`term, this`value, this`done
      ensures Valid() && IsCut(limit, 0, rest, Rows()) <==> LimitWorks(step, desc, limit, |rest|)
    {
      var steps := Steps();
      value, done := base, false;
      if limit >= 0 && steps > limit {
        CutWorksExactly(base, term, step, desc, limit);
        term := Add64(base, Mul64(ToUnsigned(limit - 1), step));
      }
    }
  }

  method TakeRow(c: Cursor) returns (x: int, eof: bool)
    requires c.Valid() && c.Rows() != []
    modifies c
    ensures c.Valid() && old(c.Rows()) == [x] + c.Rows() && (eof <==> c.Rows() == [])
  {
    x := c.Column();
    c.Next();
    eof := c.Eof();
  }

  /** Reading rows until the end is reached: it always is, and every row comes once, in order. */
  method ReadAll(c: Cursor) returns (rows: seq<int>)
    requires c.Valid()
    modifies c
    ensures c.Valid() && c.Rows() == [] && rows == old(c.Rows())
  {
    rows := [];
    ghost var left := c.Rows();
    var eof := c.Eof();
    while !eof
      invariant c.Valid() && left == c.Rows() && rows + left == old(c.Rows()) && (eof <==> left == [])
      decreases |left|
    {
      var x;
      x, eof := TakeRow(c);
      rows := rows + [x];
      assert left == [x] + left[1..];
      left := left[1..];
    }
    assert rows + [] == rows;
  }
}
