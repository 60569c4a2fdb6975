// Value types of the phone-resale reinvestment simulation: the scenario the
// form supplies, one installment receivable, one row of the month-by-month
// table and the closing summary. Money is counted in whole currency units.
module SimTypes {

  /** How much of the available cash is put back into new phones each month. */
  datatype ReinvestMode = All | Fixed | Percent

  /** The scenario being simulated (one field per form input). */
  datatype Inputs = Inputs(
    initialCapital: int,
    costPerPhone: int,
    initialPhones: int,
    entryAmount: int,
    installmentCount: int,
    installmentAmount: int,
    extraMonthly: int,
    reinvestMode: ReinvestMode,
    fixedReinvest: int,
    percentReinvest: int,
    months: int)

  /** One installment a customer still owes: `amount`, due in month `monthDue`. */
  datatype Receivable = Receivable(monthDue: int, amount: int)

  /** Month-over-month change of cumulative profit, or the "N/A" sentinel
      when there is nothing to compare with. The change is kept exact, as
      the ratio `change / base` (with `base` positive), before it is shown
      as a percentage. */
  datatype GrowthRate = NA | Rate(change: int, base: int)

  /** The growth as the percentage the table shows (before rounding to
      two decimals). */
  function AsPercent(g: GrowthRate): real
    requires g.Rate? && g.base != 0
  {
    g.change as real / g.base as real * 100.0
  }

  /** One row of the output table, appended once per simulated month. */
  datatype MonthlyResult = MonthlyResult(
    month: int,
    collected: int,
    extraMonthly: int,
    reinvestUsed: int,
    phonesBoughtThisMonth: int,
    cash: int,
    cumulativeProfit: int,
    totalPhonesBought: int,
    growthRate: GrowthRate)

  /** Totals over the whole run. */
  datatype Summary = Summary(
    totalPhonesBought: int,
    totalCost: int,
    totalRevenue: int,
    finalProfit: int,
    averageTicket: real)

  /** Number of iterations of a counting loop `for (i = 0; i < n; i++)`. */
  function Max0(n: int): nat
  {
    if n > 0 then n else 0
  }

  function Min(x: int, y: int): int
  {
    if x <= y then x else y
  }

  function Abs(x: int): nat
  {
    if x < 0 then -x else x
  }

  /** A positive factor can be cancelled from a strict inequality. */
  lemma CancelFactor(x: int, y: int, c: int)
    requires c > 0 && x * c < y * c
    ensures x < y
  {
  }
}
