/** The `decimal_sum` aggregate with its inverse, as window frames use it. (mvsqlite-pgtypes-ext/decimal.c) */
module Sums {
  import opened Common
  import opened Digits
  import opened Numerals
  import opened Decimals
  import opened ParseText
  import opened Arithmetic

  /** What a text adds to a sum. */
  function TextValue(z: string): real {
    match Parse(z)
    case TooLong => 0.0
    case Number(sign, d) => FixedValue(sign, d)
  }

  lemma NegatedValue(sign: bool, d: Fixed)
    ensures FixedValue(!sign, d) == -FixedValue(sign, d)
  {
    var m, p := Num(d.digits), Pow10(d.nFrac) as real;
    assert (-m) as real == -(m as real);
    assert (-(m as real)) / p == -((m as real) / p);
  }

  class Sum {
    var p: Decimal
    var isInit: bool
    /** All values stepped so far, less all values inverted. */
    ghost var total: real

    ghost predicate Valid()
      reads this, p, p.a
    {
      && p.Valid() && !p.isNull
      && (isInit ==> p.oom || p.Value() == total)
      && (!isInit ==> total == 0.0 && !p.oom)
    }

    constructor ()
      ensures Valid() && !isInit && total == 0.0 && fresh(p) && fresh(p.a)
    {
      p := new Decimal(false, [], 0);
      isInit, total := false, 0.0;
    }

    method Init(memory: bool)
      requires Valid() && !isInit
      modifies this`isInit, p
      ensures Valid() && isInit && p == old(p) && p.oom == !memory && fresh(p.a)
      ensures p.Contents() == Fixed([0], 0)
    {
      isInit := true;
      p.a := new int[2](_ => 0);
      p.nDigit, p.nFrac, p.sign, p.oom := 1, 0, false, !memory;
      NumZeros(p.a[..1]);
      assert 0 as real / Pow10(0) as real == 0.0;
      assert p.a[..1] == [0];
    }

    /** What the sum holds: a zero of one digit before the first row. */
    ghost function Held(): Fixed
      requires p.Valid()
      reads this, p, p.a
    {
      if isInit then p.Contents() else Fixed([0], 0)
    }

    /** A row leaves the sum unmarked. */
    ghost predicate Takes(z: Option<string>, memory: bool)
      requires Valid()
      reads this, p, p.a
    {
      && !p.oom && (isInit || memory)
      && (z.Some? ==>
            memory && match Parse(z.value)
                      case TooLong => false
                      case Number(_, d) => !RunsOut(Held(), d, memory, memory))
    }

    /** One more row; a null leaves the sum alone. */
    method Step(z: Option<string>, memory: bool)
      requires Valid()
      modifies this, p, p.a
      ensures Valid() && isInit && p == old(p) && (p.a == old(p.a) || fresh(p.a))
      ensures p.oom <==> !old(Takes(z, memory))
      ensures total == old(total) + if z.Some? then TextValue(z.value) else 0.0
    {
      if !isInit { Init(memory); }
      if z.None? { return; }
      var arg := FromText(z.value, memory);
      Add(p, arg, memory, memory);
      total := total + TextValue(z.value);
    }

    /** A row leaves the window. */
    method Inverse(z: Option<string>, memory: bool)
      requires Valid() && isInit
      modifies this, p, p.a
      ensures Valid() && isInit && p == old(p) && (p.a == old(p.a) || fresh(p.a))
      ensures p.oom <==> !old(Takes(z, memory))
      ensures total == old(total) - if z.Some? then TextValue(z.value) else 0.0
    {
      if z.None? { return; }
      var arg := FromText(z.value, memory);
      if arg != null {
        NegatedValue(arg.sign, arg.Contents());
        arg.sign := !arg.sign;
      }
      Add(p, arg, memory, memory);
      total := total - TextValue(z.value);
    }
  }
}
