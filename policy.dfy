// The purchase rules of the simulation: how many phones the opening stock
// takes, how much of the cash a month reinvests, how many whole phones that
// buys, and the month-over-month growth figure.
module Policy {
  import opened SimTypes

  /** `Math.floor(a / c)` for a positive divisor `c`, by repeated
      subtraction or addition of `c`. It is Dafny's `/` (`FloorDivIsDivision`);
      the recursive form is used throughout so that proofs about the table
      reason from `FloorDivBounds` instead of nonlinear division. */
  function FloorDiv(a: int, c: int): int
    requires c > 0
    decreases if a < 0 then c - a else a
  {
    if a < 0 then FloorDiv(a + c, c) - 1
    else if a < c then 0
    else FloorDiv(a - c, c) + 1
  }

  /** The quotient is the largest whole number of `c`s that fit in `a`. */
  lemma {:induction false} FloorDivBounds(a: int, c: int)
    requires c > 0
    ensures FloorDiv(a, c) * c <= a < (FloorDiv(a, c) + 1) * c
    decreases if a < 0 then c - a else a
  {
    var q := FloorDiv(a, c);
    if a < 0 {
      FloorDivBounds(a + c, c);
      assert q * c == (q + 1) * c - c;
    } else if a >= c {
      FloorDivBounds(a - c, c);
      assert q * c == (q - 1) * c + c;
    }
  }

  /** It is Euclidean division, which for a positive divisor rounds down
      like `Math.floor`. */
  lemma FloorDivIsDivision(a: int, c: int)
    requires c > 0
    ensures FloorDiv(a, c) == a / c
  {
    var q, q' := FloorDiv(a, c), a / c;
    FloorDivBounds(a, c);
    assert q' * c + a % c == a;
    assert (q' + 1) * c == q' * c + c;
    CancelFactor(q, q' + 1, c);
    CancelFactor(q', q + 1, c);
  }

  /** Number of phones bought before the first month with `cash` in hand:
      as many as asked for, clamped to what the cash affords. */
  function StockCount(inp: Inputs, cash: int): nat
  {
    if inp.initialPhones > 0 && inp.costPerPhone > 0 then
      var toBuy := Min(inp.initialPhones, FloorDiv(cash, inp.costPerPhone));
      if toBuy > 0 then toBuy else 0
    else 0
  }

  /** The opening purchase buys nothing unless phones are asked for and cost
      something; otherwise it buys the most phones, up to the number asked
      for, that the cash pays for, so that it never leaves negative cash. */
  lemma StockCountClamp(inp: Inputs, cash: int)
    ensures var n := StockCount(inp, cash);
      && (inp.initialPhones <= 0 || inp.costPerPhone <= 0 ==> n == 0)
      && n <= Max0(inp.initialPhones)
      && (n > 0 ==> n * inp.costPerPhone <= cash)
      && (inp.costPerPhone > 0 && n < inp.initialPhones ==> cash < (n + 1) * inp.costPerPhone)
      && (cash >= 0 ==> cash - n * inp.costPerPhone >= 0)
  {
    if inp.costPerPhone > 0 {
      FloorDivBounds(cash, inp.costPerPhone);
    }
  }

  /** The money a month sets aside for new phones out of `cash`. */
  function ReinvestAmount(inp: Inputs, cash: int): int
  {
    match inp.reinvestMode
    case All => cash
    case Fixed => Min(inp.fixedReinvest, cash)
    case Percent => FloorDiv(inp.percentReinvest * cash, 100)
  }

  /** All mode reinvests the whole cash; Fixed mode never more than the fixed
      amount or the cash; Percent mode the given share of the cash, rounded
      down, so never more than the cash when the share is at most 100. */
  lemma ReinvestAmountBounds(inp: Inputs, cash: int)
    ensures var r := ReinvestAmount(inp, cash);
      && (inp.reinvestMode == All ==> r == cash)
      && (inp.reinvestMode == Fixed ==> r <= inp.fixedReinvest && r <= cash && (r == inp.fixedReinvest || r == cash))
      && (inp.reinvestMode == Percent ==> r * 100 <= inp.percentReinvest * cash < r * 100 + 100)
      && (inp.reinvestMode == Percent && 0 <= inp.percentReinvest <= 100 && cash >= 0 ==> 0 <= r <= cash)
  {
    var r := ReinvestAmount(inp, cash);
    if inp.reinvestMode == Percent {
      FloorDivBounds(inp.percentReinvest * cash, 100);
      if 0 <= inp.percentReinvest <= 100 && cash >= 0 {
        assert inp.percentReinvest * cash <= 100 * cash;
      }
    }
  }

  /** Whole phones `amount` pays for at `cost` each, or 0 when a phone costs
      nothing or less. */
  function PhonesCanBuy(cost: int, amount: int): int
  {
    if cost > 0 then FloorDiv(amount, cost) else 0
  }

  /** The purchase count is the largest whose price fits in the amount. */
  lemma PhonesCanBuyIsFloor(cost: int, amount: int)
    ensures var n := PhonesCanBuy(cost, amount);
      && (cost <= 0 ==> n == 0)
      && (cost > 0 ==> n * cost <= amount < (n + 1) * cost)
      && (cost > 0 && amount >= 0 ==> n >= 0)
  {
    if cost > 0 {
      FloorDivBounds(amount, cost);
      if amount >= 0 {
        var n := FloorDiv(amount, cost);
        assert (n + 1) * cost > 0;
      }
    }
  }

  /** The cash a month actually pays out for `n` phones: purchases only
      happen when the count is positive. */
  function Spend(n: int, cost: int): int
  {
    if n > 0 then n * cost else 0
  }

  /** Change from `previous` to `current` cumulative profit, relative to
      the size of `previous`; the sentinel when `previous` is zero. */
  function Growth(previous: int, current: int): GrowthRate
  {
    if previous != 0 then Rate(current - previous, Abs(previous)) else NA
  }

  /** The sentinel exactly when the previous profit is zero; otherwise the
      change relative to the size of the previous profit, in percent, with
      the sign of the change. */
  lemma GrowthMeaning(previous: int, current: int)
    ensures var g := Growth(previous, current);
      && (g.NA? <==> previous == 0)
      && (g.Rate? ==> g.base > 0 && AsPercent(g) * (Abs(previous) as real) == ((current - previous) * 100) as real)
      && (g.Rate? ==> (AsPercent(g) > 0.0 <==> current > previous) && (AsPercent(g) < 0.0 <==> current < previous))
  {
  }

  /** The month's inputs are those of a business that puts money in and
      never reinvests more than it has. */
  predicate SanePolicy(inp: Inputs)
  {
    && inp.entryAmount >= 0
    && inp.installmentAmount >= 0
    && inp.extraMonthly >= 0
    && inp.fixedReinvest >= 0
    && 0 <= inp.percentReinvest <= 100
  }

  /** Bounds on one month's purchase out of `available` cash: never more
      than is available; in All mode less than one phone's price is left;
      in Fixed mode no more than the fixed amount. */
  lemma ReinvestSpendBounds(inp: Inputs, available: int)
    requires SanePolicy(inp) && available >= 0
    ensures var n := PhonesCanBuy(inp.costPerPhone, ReinvestAmount(inp, available));
      && 0 <= Spend(n, inp.costPerPhone) <= available
      && (inp.reinvestMode == Fixed ==> Spend(n, inp.costPerPhone) <= Min(inp.fixedReinvest, available))
      && (inp.reinvestMode == All && inp.costPerPhone > 0 ==> 0 <= available - Spend(n, inp.costPerPhone) < inp.costPerPhone)
  {
    var amount := ReinvestAmount(inp, available);
    ReinvestAmountBounds(inp, available);
    PhonesCanBuyIsFloor(inp.costPerPhone, amount);
  }
}
