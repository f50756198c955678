/**
 * The order-planning arithmetic of the DCA run (scripts/dca.py, `main`):
 * from the last traded price, the rounding unit and the fiat budget it
 * derives the limit price and the order size. The script does this inline
 * with Python ints and floats; here it is a pure function over exact
 * integers, the size counted in thousandths of a coin, and every exception
 * the script can raise on the way is an error result.
 */
module OrderPlanning {
  import opened Wrappers
  import opened PyInt

  /** The rounding unit of the order price (JPY). */
  const Unit: int := 5000
  /** The fiat budget spent per run (JPY). */
  const DcaAmount: int := 25000
  /** The undercut applied when the last traded price sits exactly on a unit boundary. */
  const BoundaryUndercut: int := 2000

  /** What stops the script before an order is planned. */
  datatype PlanError =
    | NoLastTradedPrice  // the ticker call returned None; `None % unit` raises TypeError
    | ZeroRoundingUnit   // `ltp % 0` raises ZeroDivisionError
    | ZeroOrderPrice     // `dca_amount / 0` raises ZeroDivisionError

  /** A planned limit order: the price and the size in thousandths of a coin. */
  datatype OrderPlan = OrderPlan(price: int, sizeThousandths: int)

  /**
   * The limit price: on a unit boundary the last traded price less 2000,
   * otherwise the greatest multiple of the unit strictly below it (for a
   * negative unit, Python's floor rules make it the least multiple above).
   */
  function OrderPrice(ltp: int, unit: int): (p: int)
    requires unit != 0
    ensures Mod(ltp, unit) == 0 ==> p == ltp - BoundaryUndercut
    ensures Mod(ltp, unit) != 0 ==> Mod(p, unit) == 0
    ensures Mod(ltp, unit) != 0 && unit > 0 ==> 0 < ltp - p < unit
    ensures Mod(ltp, unit) != 0 && unit < 0 ==> unit < ltp - p < 0
  {
    if Mod(ltp, unit) == 0 then
      ltp - BoundaryUndercut
    else
      var p := unit * FloorDiv(ltp, unit);
      MultipleHasZeroModAny(unit, FloorDiv(ltp, unit));
      p
  }

  /** `unit * k` leaves no remainder modulo `unit`, whatever the sign of `unit`. */
  lemma MultipleHasZeroModAny(unit: int, k: int)
    requires unit != 0
    ensures Mod(unit * k, unit) == 0
  {
    if unit > 0 {
      MultipleHasZeroMod(unit, k);
    } else {
      MultipleHasZeroMod(-unit, -k);
      assert (-unit) * (-k) == unit * k;
      assert -(unit * k) == (-unit) * k;
      MultipleHasZeroMod(-unit, k);
    }
  }

  /**
   * The order size in thousandths: `budget / price` rounded half up at the
   * third decimal, i.e. the floor of `budget * 1000 / price + 1/2`.
   */
  function SizeThousandths(budget: int, price: int): (k: int)
    requires price != 0
    ensures (k as real) <= (budget as real) * 1000.0 / (price as real) + 0.5 < (k as real) + 1.0
  {
    HalfUpQuotient(budget, price);
    FloorDiv(2000 * budget + price, 2 * price)
  }

  /** Adding one half to `budget * 1000 / price` is dividing `2000 * budget + price` by `2 * price`. */
  lemma HalfUpQuotient(budget: int, price: int)
    requires price != 0
    ensures ((2000 * budget + price) as real) / ((2 * price) as real)
         == (budget as real) * 1000.0 / (price as real) + 0.5
  {
    var b, p := budget as real, price as real;
    var y := b * 1000.0 / p + 0.5;
    assert (b * 1000.0 / p) * p == b * 1000.0;
    assert y * (2.0 * p) == 2.0 * ((b * 1000.0 / p) * p) + p;
    assert ((2000 * budget + price) as real) == 2000.0 * b + p;
    assert ((2 * price) as real) == 2.0 * p;
    QuotientUnique(2000.0 * b + p, 2.0 * p, y);
  }

  lemma QuotientUnique(x: real, d: real, y: real)
    requires d != 0.0 && y * d == x
    ensures x / d == y
  {
  }

  /**
   * The whole computation of lines 134-141, with the exceptions the script
   * would raise as failures, in the order it would raise them.
   */
  function Plan(ltp: Option<int>, unit: int, budget: int): (r: Result<OrderPlan, PlanError>)
    ensures ltp.None? <==> r == Failure(NoLastTradedPrice)
    ensures ltp.Some? && unit == 0 <==> r == Failure(ZeroRoundingUnit)
    ensures r == Failure(ZeroOrderPrice) <==> ltp.Some? && unit != 0 && OrderPrice(ltp.value, unit) == 0
    ensures r.Success? ==>
              && r.value.price == OrderPrice(ltp.value, unit)
              && r.value.sizeThousandths == SizeThousandths(budget, r.value.price)
  {
    match ltp
    case None => Failure(NoLastTradedPrice)
    case Some(l) =>
      if unit == 0 then Failure(ZeroRoundingUnit)
      else
        var price := OrderPrice(l, unit);
        if price == 0 then Failure(ZeroOrderPrice)
        else Success(OrderPlan(price, SizeThousandths(budget, price)))
  }

  /** With a positive unit the limit buy is always below the last traded price. */
  lemma PriceBelowLastTraded(ltp: int, unit: int)
    requires unit > 0
    ensures OrderPrice(ltp, unit) < ltp
  {
  }

  /** Off a boundary, no multiple of the unit lies strictly between the order price and the last traded price. */
  lemma GreatestMultipleBelow(ltp: int, unit: int, m: int)
    requires unit > 0 && Mod(ltp, unit) != 0
    requires Mod(m, unit) == 0 && m < ltp
    ensures m <= OrderPrice(ltp, unit)
  {
    var a, b := FloorDiv(m, unit), FloorDiv(ltp, unit);
    ZeroModIsMultiple(m, unit);
    if a > b {
      MulAtLeastOnce(unit, a - b);
    }
  }

  /**
   * With a positive unit the order price is zero exactly when the last
   * traded price lies strictly between 0 and the unit, or when it equals
   * the undercut and the undercut is itself a multiple of the unit.
   */
  lemma ZeroOrderPriceIff(ltp: int, unit: int)
    requires unit > 0
    ensures OrderPrice(ltp, unit) == 0
        <==> (0 < ltp < unit || (ltp == BoundaryUndercut && Mod(BoundaryUndercut, unit) == 0))
  {
    if Mod(ltp, unit) != 0 {
      var q := FloorDiv(ltp, unit);
      if q > 0 {
        MulAtLeastOnce(unit, q);
      } else if q < 0 {
        MulAtLeastOnce(unit, -q);
        assert unit * q == -(unit * -q);
      }
      if 0 < ltp < unit {
        FloorDivUnique(ltp, unit, 0);
      }
    } else if 0 < ltp < unit {
      FloorDivUnique(ltp, unit, 0);
    }
  }

  /**
   * With the script's constants (unit 5000, budget 25000) the run fails
   * only when there is no price or the price is below one unit.
   */
  lemma PlanFailsIff(ltp: Option<int>)
    ensures Plan(ltp, Unit, DcaAmount).Failure? <==> (ltp.None? || 0 < ltp.value < Unit)
  {
    if ltp.Some? {
      ZeroOrderPriceIff(ltp.value, Unit);
      assert Mod(BoundaryUndercut, Unit) == 2000 by { FloorDivUnique(2000, 5000, 0); }
    }
  }

  /**
   * On a boundary the undercut leaves the price 3000 above a multiple of
   * 5000: it is not aligned to the unit, and for a last traded price below
   * 2000 it is negative.
   */
  lemma BoundaryPriceOffGrid(ltp: int)
    requires Mod(ltp, Unit) == 0
    ensures Mod(OrderPrice(ltp, Unit), Unit) == 3000
    ensures ltp < BoundaryUndercut ==> OrderPrice(ltp, Unit) < 0
  {
    var q := FloorDiv(ltp, Unit);
    ZeroModIsMultiple(ltp, Unit);
    FloorDivUnique(ltp - 2000, Unit, q - 1);
  }

  /** The rounded size differs from the exact quotient by at most half a thousandth. */
  lemma SizeRoundingError(budget: int, price: int)
    requires price != 0
    ensures var err := (SizeThousandths(budget, price) as real) / 1000.0 - (budget as real) / (price as real);
            -0.0005 < err <= 0.0005
  {
    var b, p := budget as real, price as real;
    assert b * 1000.0 / p == 1000.0 * (b / p);
  }

  /**
   * For a positive price the size buys within half a thousandth of the
   * price of the budget: `|2 * k * price - 2000 * budget| <= price`, i.e.
   * `|k/1000 * price - budget| <= price / 2000`.
   */
  lemma SizeCostBound(budget: int, price: int)
    requires price > 0
    ensures var k := SizeThousandths(budget, price);
            -price < 2 * k * price - 2000 * budget <= price
  {
    var k := SizeThousandths(budget, price);
    assert k == FloorDiv(2000 * budget + price, 2 * price);
    assert 2 * k * price == (2 * price) * k;
  }

  /** Round half up has one answer: any k with `k <= budget*1000/price + 1/2 < k + 1` is the size. */
  lemma SizeUnique(budget: int, price: int, k: int)
    requires price != 0
    requires (k as real) <= (budget as real) * 1000.0 / (price as real) + 0.5 < (k as real) + 1.0
    ensures k == SizeThousandths(budget, price)
  {
  }

  /** Worked cases: an off-boundary and an on-boundary price with the script's constants. */
  lemma PlanExamples()
    ensures Plan(Some(1234567), Unit, DcaAmount) == Success(OrderPlan(1230000, 20))
    ensures Plan(Some(1230000), Unit, DcaAmount) == Success(OrderPlan(1228000, 20))
    ensures Plan(Some(4999), Unit, DcaAmount) == Failure(ZeroOrderPrice)
  {
    FloorDivUnique(1234567, 5000, 246);
    FloorDivUnique(1230000, 5000, 246);
    FloorDivUnique(4999, 5000, 0);
    FloorDivUnique(2000 * 25000 + 1230000, 2 * 1230000, 20);
    FloorDivUnique(2000 * 25000 + 1228000, 2 * 1228000, 20);
  }
}
