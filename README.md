# Phone-resale reinvestment simulation, modelled in Dafny

The application simulates a small business that buys phones, resells each
one for a down payment plus a series of monthly installments, and puts its
cash back into new phones month after month. Its engine,
`calculateSimulation`, takes one scenario (capital, cost per phone, opening
stock, down payment, installment count and amount, monthly contribution,
reinvestment mode and horizon) and produces:

- a month-by-month table, with what was collected, what was reinvested, the
  cash in hand, the cumulative profit, the running phone count and the growth
  of the profit over the previous month;
- a closing summary with the phone count, total cost, total revenue, final
  profit and average ticket.

The model has five layers:

- `SimTypes` (`types.dfy`): the scenario, a receivable, a table row, the
  growth figure and the summary, as datatypes.
- `Receivables` (`receivables.dfy`): the list of installments still owed.
  It covers how selling phones fills the list (`Plan`, `Installments`) and
  how a month's collection empties it (`DueSum`, `Outstanding`).
- `Policy` (`policy.dfy`): the purchase rules.
  - How many phones the opening stock buys (`StockCount`).
  - How much cash each reinvestment mode sets aside (`ReinvestAmount`).
  - How many whole phones that pays for (`PhonesCanBuy`).
  - The growth figure (`Growth`).
  - JavaScript's `Math.floor` of a quotient (`FloorDiv`).
- `History` (`history.dfy`): the table as a whole.
  - `Follows` says what the row of a month must be, given the rows before
    it.
  - `Chronicle` says that every row of a table follows from the rows before
    it.
  - `Pending` gives the receivables still outstanding after any prefix of
    the table.
  - `Consistent` ties the engine's running state (cash, receivables,
    totals) to the table produced so far.
  - The lemmas here hold for every table the rules produce.
- `Engine` (`engine.dfy`): the engine itself, in imperative form.
  - Class `Simulation` holds the mutable state: cash, the receivables list,
    the running totals and the table.
  - `SellPhones` is the selling closure, with its nested loops.
  - `StockInitial` is the opening purchase, which the constructor runs.
  - `CollectDue` is the backward scan that splices due installments out of
    the list.
  - `Step` is one month; it is split into `CollectMonth` and
    `ReinvestMonth`.
  - `CalculateSimulation` runs the loop over the months and builds the
    summary.
  - Every method is proved against the functions above, and `Valid()`
    (`Consistent`) is the invariant that `Step` keeps.
- `Scenarios` (`scenarios.dfy`): the form's default scenario, run for one
  month.

Money, counts and percentages are whole numbers (`int`).

Facts about the code that shape the model:

- The scenario has no withdrawals, fixed monthly costs, unit identifiers or
  per-unit records; the only outflow is the purchase of phones.
- The opening stock is sold in month 0, so its installments fall due in
  months 1 to `installmentCount`. Month 1 of the default scenario collects
  400.
- A month's cash also gains the down payments of the phones it buys. Month
  1 of the default scenario ends with 600 in cash, 6 phones and a profit of
  -2600; `Scenarios.DefaultFirstMonth` proves the whole row.
- In `all` mode less than one phone's price is left of the cash available
  before the down payments of the phones bought are added
  (`Policy.ReinvestSpendBounds`).
- The growth branch taken when the previous profit is zero and the current
  one is positive sets the sentinel the figure already holds, so the
  sentinel appears exactly when the previous profit is zero.
- The average ticket is 0 exactly when no phone was sold only with a
  positive down payment and a non-negative installment; otherwise revenue
  can be zero, or cancel out, with phones sold.
- A negative reinvestment amount makes `phonesBoughtThisMonth` and
  `reinvestUsed` negative in the row, while cash and the totals are left
  alone, as in the code. This happens with negative cash in `all` or
  `percent` mode (a negative capital or monthly contribution), with a
  negative fixed amount, or with a negative percentage.
- The guarantees about cash need non-negative amounts and a percentage of
  at most 100 (`Policy.SanePolicy`); in `percent` mode above 100 the code
  can spend more than the cash in hand, and cash can go negative.

## Model

| member | source | states |
|---|---|---|
| Receivables.PlanShape | App.tsx:35-37 | one phone's sale pushes exactly `k` installments, the `j`-th of `installmentAmount` due in month `m+j+1`, so one is due in each of the months `m+1 .. m+k` and none outside them, worth `k * amount` in all |
| Receivables.InstallmentsShape | App.tsx:32-39 | selling `count` phones pushes `count * k` installments worth `count * k * amount`, phone by phone, position `i` due `i % k + 1` months after the sale, all due within the `k` months after the sale, with `count` of them due in each of those months |
| Receivables.CollectionPartition | App.tsx:55-60 | collection loses and invents nothing: the amount collected plus what stays outstanding equals what was owed |
| Receivables.OutstandingMembers | App.tsx:55-60 | an installment stays on the list exactly when it was there and is not due in the month being collected |
| Receivables.BackScanStep | App.tsx:55-59 | one step of the backward scan: position `i` is spliced out exactly when it is due, and adds its amount to the month's collection, while the part already scanned stays the not-due installments in order |
| Policy.FloorDivBounds | App.tsx:43 | `FloorDiv(a, c)` is the largest whole `q` with `q * c <= a`, for every sign of `a` |
| Policy.FloorDivIsDivision | App.tsx:43 | for a positive divisor, `Math.floor(a / c)` agrees with Euclidean division |
| Policy.StockCountClamp | App.tsx:42-51 | the opening stock buys nothing unless phones are asked for and have a positive price; otherwise it buys at most the number asked for, exactly as many as the capital affords when fewer, and never leaves non-negative capital negative |
| Policy.ReinvestAmountBounds | App.tsx:65-72 | `all` mode sets aside the whole cash; `fixed` mode sets aside the smaller of the fixed amount and the cash; `percent` mode sets aside the share of the cash rounded down, which stays between 0 and the cash for a share between 0 and 100 |
| Policy.PhonesCanBuyIsFloor | App.tsx:74 | the purchase count is 0 when a phone costs nothing or less, and otherwise the largest count whose price fits in the amount set aside (not negative for a non-negative amount) |
| Policy.ReinvestSpendBounds | App.tsx:65-81 | with non-negative amounts and a percentage of at most 100, a month never spends more than the cash available; `fixed` mode never spends more than the fixed amount; `all` mode leaves less than one phone's price before crediting down payments |
| Policy.GrowthMeaning | App.tsx:85-94 | the growth is the sentinel exactly when the previous profit is zero; otherwise it is the change relative to the previous profit's absolute value, times 100, with the sign of the change |
| History.MonthNumbers | App.tsx:53-97 | row `i` of any table the rules produce is month `i + 1` |
| History.PhonesNonDecreasing | App.tsx:38-104 | the running phone count never goes down from one row to any later one, and never below the opening stock |
| History.OpeningCashNonNegative | App.tsx:42-51 | with non-negative capital, amounts and a percentage of at most 100, the cash left after the opening stock is not negative |
| History.OpeningConsistent | App.tsx:24-51 | the state after the opening stock (its phones bought and sold in month 0) is the consistent state of the empty table |
| History.RecordMonth | App.tsx:53-106 | appending the month's row, computed from a consistent state, gives a row that follows the table before it and a consistent state again |
| History.ProfitIsRevenueMinusCost | App.tsx:83 | after every month, the last row's cumulative profit is the running revenue total less the running cost total held in the consistent state |
| History.MonthStep | App.tsx:61-83 | one month changes profit by the margin on the phones it buys plus its collections, and changes cash by the same amount plus the monthly contribution |
| History.CashIdentity | App.tsx:24-83 | in every row, cash equals initial capital plus one contribution per month so far plus cumulative profit |
| History.PendingWindow | App.tsx:31-60 | after month `m` every outstanding installment is due in months `m+1 .. m+installmentCount` and has the installment amount: none is overdue |
| History.PendingAccounting | App.tsx:31-61 | installments collected so far plus installments outstanding equal `totalPhonesBought * installmentCount * installmentAmount` |
| History.CollectionsBounded | App.tsx:54-61 | with a non-negative installment, no month collects a negative amount, and the total collected never exceeds what the phones sold were financed for |
| History.CashNonNegative | App.tsx:62-81 | with non-negative opening cash and amounts and a percentage of at most 100, cash is never negative in any row |
| History.ZeroCostGuard | App.tsx:74-81 | when a phone costs nothing or less, no month buys or spends, and the phone count stays at the opening stock |
| History.GrowthSentinel | App.tsx:85-94 | the growth figure is the sentinel in month 1, and in later months exactly when the previous month's profit was zero |
| History.FollowsUnique | App.tsx:53-106 | a month's row is determined by the rows before it |
| History.ChronicleUnique | App.tsx:53-107 | the whole table is determined by the scenario: two tables of the same length that both follow the rules are equal |
| Engine.Simulation.constructor | App.tsx:24-51 | the run starts with the capital in hand, no receivables, an empty table and zero totals, then buys and sells the clamped opening stock, ending in the consistent state of the empty table |
| Engine.Simulation.SellPhones | App.tsx:31-40 | selling `count` phones adds `count` down payments to cash and revenue and `count` to the phone count, appends each phone's installment plan, and leaves the cost total alone |
| Engine.Simulation.CollectDue | App.tsx:54-60 | the backward scan returns the total due in the month and leaves exactly the installments not due, in their original order |
| Engine.Simulation.StockInitial | App.tsx:42-51 | the opening purchase buys the clamped stock count and leaves the consistent state of the empty table |
| Engine.Simulation.CollectMonth | App.tsx:54-63 | the month's collection is added to revenue, and the collection plus the contribution are added to cash |
| Engine.Simulation.ReinvestMonth | App.tsx:65-81 | the month buys the whole phones its reinvestment amount pays for, pays for them, sells them, and changes nothing when that count is not positive |
| Engine.Simulation.Step | App.tsx:53-107 | one month appends exactly one row, keeps the rows before it, records as its profit total revenue less total cost, and keeps the state consistent with the table |
| Engine.AverageTicket | App.tsx:114 | the average ticket is 0 with no phones; otherwise it is the revenue per phone, and 0 exactly when revenue is 0 |
| Engine.SummaryFacts | App.tsx:109-115 | the final profit equals the last row's cumulative profit, and with a positive down payment and a non-negative installment the average ticket is 0 exactly when no phone was sold |
| Engine.CalculateSimulation | App.tsx:9-118 | the run returns `max(months, 0)` rows that follow the rules from the opening stock; it keeps cash non-negative under non-negative capital and amounts and a percentage of at most 100; its summary totals are the table's; its final profit is the last row's profit; its average ticket is 0 exactly when nothing was sold (under the condition above) |
| Scenarios.DefaultFirstMonth | constants.ts:4-16 | the default scenario run for one month collects 400, buys 4 phones for 2400, and ends with 600 in cash, 6 phones and a profit of -2600 |

The statements about whole tables (`History.MonthNumbers` through
`History.ChronicleUnique`) are lemmas over any table satisfying
`Chronicle`. `Engine.CalculateSimulation` promises that its result is such a
table.

## Left out

- The React component, the input form and `handleInputChange`, the results
  table, the summary cards, the chart, `formatCurrency` and the CSV download
  are presentation only.
- The AI analysis panel and the two Express servers are network I/O to a
  foreign service.
- Floating point. All money, counts and percentages are whole numbers.
  Fractional inputs are not modelled; the code's loops over a phone count or
  an installment count would round them.
- Policy.ReinvestAmount: the `percent` mode computes `floor(percent * cash /
  100)` exactly. The code computes `(percent / 100) * cash` in double
  precision, which can fall just below a whole number and floor one unit
  lower (for example percent 29 of cash 100).
- Policy.GrowthMeaning: the growth is kept as the exact ratio `change /
  base` (and `AsPercent` as a real), not as the `toFixed(2)` string with a
  `%` sign.
- Engine.AverageTicket: the average ticket is an exact real quotient, not a
  double.
- Engine.CalculateSimulation: the `months` loop runs `max(months, 0)` times
  for a whole number; the rendering of its result is not modelled.
