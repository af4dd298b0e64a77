/** Money in 64-bit minor units: every intermediate result has to fit as well, so the type carries the width. */
module Money {
  import opened Outcomes

  newtype int64 = x: int | -0x8000_0000_0000_0000 <= x <= 0x7fff_ffff_ffff_ffff

  const MAX: int64 := 0x7fff_ffff_ffff_ffff
  const MIN: int64 := -0x8000_0000_0000_0000

  predicate Fits(x: int) {
    MIN as int <= x <= MAX as int
  }

  function Abs(x: int): nat {
    if x < 0 then -x else x
  }

  /** Division as the processor does it: toward zero. */
  function Truncated(x: int, y: int): int
    requires y != 0
  {
    if (x < 0) == (y < 0) then Abs(x) / Abs(y) else -(Abs(x) / Abs(y))
  }

  /** The one 64-bit quotient that does not fit is excluded: asking for it is undefined behaviour. */
  function Quotient(x: int64, y: int64): (q: int64)
    requires y != 0 && !(x == MIN && y == -1)
    ensures q as int == Truncated(x as int, y as int)
  {
    Division(Abs(x as int), Abs(y as int));
    Truncated(x as int, y as int) as int64
  }

  lemma Division(a: nat, b: nat)
    requires b > 0
    ensures a / b <= a && (a / b) * b <= a < (a / b) * b + b
    ensures b > 1 ==> a / b <= a / 2
  {
    var k := a / b;
    assert a == b * k + a % b;
    Ordered(1, b, k);
    if b > 1 { Ordered(2, b, k); }
  }

  lemma Ordered(x: nat, y: nat, factor: nat)
    requires x <= y
    ensures x * factor <= y * factor
  {
  }

  /** The overflow test by division is the overflow test. */
  lemma Threshold(a: nat, b: nat, limit: nat)
    requires b > 0
    ensures a > limit / b <==> a * b > limit
  {
    Division(limit, b);
    var k := limit / b;
    if a <= k { Ordered(a, k, b); } else { Ordered(k + 1, a, b); }
  }

  function AddOverflows(left: int64, right: int64): (overflows: bool)
    ensures overflows <==> !Fits(left as int + right as int)
  {
    (right > 0 && left > MAX - right) || (right < 0 && left < MIN - right)
  }

  function MulOverflows(left: int64, right: int64): (overflows: bool)
    ensures overflows <==> !Fits(left as int * right as int)
  {
    Thresholds(left as int, right as int);
    if left == 0 || right == 0 then false
    else if left == -1 then right == MIN
    else if right == -1 then left == MIN
    else if left > 0 then
      if right > 0 then left > Quotient(MAX, right) else right < Quotient(MIN, left)
    else
      if right > 0 then left < Quotient(MIN, right) else left < Quotient(MAX, right)
  }

  /** Which quotient decides about which product, by the signs. */
  lemma Thresholds(left: int, right: int)
    ensures left > 0 && right > 0 ==> (left * right >= 0 && (left > MAX as int / right <==> left * right > MAX as int))
    ensures left > 0 && right < 0 ==> (left * right <= 0
                                       && (-right > -(MIN as int) / left <==> left * right < MIN as int))
    ensures left < 0 && right > 0 ==> (left * right <= 0
                                       && (-left > -(MIN as int) / right <==> left * right < MIN as int))
    ensures left < 0 && right < 0 ==> (left * right >= 0
                                       && (-left > MAX as int / -right <==> left * right > MAX as int))
  {
    if left > 0 && right > 0 {
      Threshold(left, right, MAX as int);
    } else if left > 0 && right < 0 {
      Threshold(-right, left, -(MIN as int));
    } else if left < 0 && right > 0 {
      Threshold(-left, right, -(MIN as int));
    } else if left < 0 && right < 0 {
      Threshold(-left, -right, MAX as int);
    }
  }

  type Currency = s: string | |s| == 3 && forall k :: 0 <= k < 3 ==> 'A' <= s[k] <= 'Z' witness "RUB"

  datatype Money = Money(minorUnits: int64, currency: Currency) {

    function Plus(other: Money): Option<Money> {
      if currency != other.currency then None
      else if AddOverflows(minorUnits, other.minorUnits) then None
      else Some(Money(minorUnits + other.minorUnits, currency))
    }

    function Minus(other: Money): Option<Money> {
      if currency != other.currency then None
      else if other.minorUnits == MIN then None
      else if AddOverflows(minorUnits, -other.minorUnits) then None
      else Some(Money(minorUnits - other.minorUnits, currency))
    }

    function Times(factor: int64): Option<Money> {
      if MulOverflows(minorUnits, factor) then None else Some(Money(minorUnits * factor, currency))
    }
  }

  /** What a partial operation promises: the exact result whenever it exists and fits, and nothing otherwise. */
  ghost predicate Exact(result: Option<Money>, defined: bool, amount: int, currency: Currency) {
    (result.Some? <==> defined && Fits(amount)) &&
    (result.Some? ==> result.value.minorUnits as int == amount && result.value.currency == currency)
  }

  lemma PlusIsExact(a: Money, b: Money)
    ensures Exact(a.Plus(b), a.currency == b.currency, a.minorUnits as int + b.minorUnits as int, a.currency)
  {
  }

  lemma TimesIsExact(a: Money, factor: int64)
    ensures Exact(a.Times(factor), true, a.minorUnits as int * factor as int, a.currency)
  {
  }

  /** Subtraction also refuses the smallest amount, whose negation does not fit. */
  lemma MinusIsExactButForTheSmallest(a: Money, b: Money)
    ensures Exact(a.Minus(b), a.currency == b.currency && b.minorUnits != MIN,
                  a.minorUnits as int - b.minorUnits as int, a.currency)
  {
  }

  /** So subtraction is exact in the plain sense, for all minuends, just when the subtrahend is not the smallest. */
  lemma MinusPlainlyExactIff(b: Money)
    ensures (forall a: Money ::
               Exact(a.Minus(b), a.currency == b.currency, a.minorUnits as int - b.minorUnits as int, a.currency))
            <==> b.minorUnits != MIN
  {
    if b.minorUnits == MIN {
      var a := Money(-1, b.currency);
      assert a.Minus(b).None? && Fits(a.minorUnits as int - b.minorUnits as int);
      assert !Exact(a.Minus(b), a.currency == b.currency, a.minorUnits as int - b.minorUnits as int, a.currency);
    } else {
      forall a: Money
        ensures Exact(a.Minus(b), a.currency == b.currency, a.minorUnits as int - b.minorUnits as int, a.currency)
      {
        MinusIsExactButForTheSmallest(a, b);
      }
    }
  }

  /** Adding and taking away the same amount gives back the start, whenever both are defined. */
  lemma MinusUndoesPlus(a: Money, b: Money)
    requires a.Plus(b).Some?
    ensures a.Plus(b).value.Minus(b) == if b.minorUnits == MIN then None else Some(a)
  {
  }

  lemma PlusUndoesMinus(a: Money, b: Money)
    requires a.Minus(b).Some?
    ensures a.Minus(b).value.Plus(b) == Some(a)
  {
  }
}
