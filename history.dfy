// The month-by-month table as a whole: the relation each row bears to the
// rows before it, the receivables still outstanding after any prefix of the
// table, and what follows for every table the simulation can produce.
module History {
  import opened SimTypes
  import opened Receivables
  import opened Policy

  function Last(rs: seq<MonthlyResult>): MonthlyResult
    requires rs != []
  {
    rs[|rs| - 1]
  }

  /** Phones bought so far, after the opening stock and the rows `rs`. */
  function PhonesAfter(openPhones: nat, rs: seq<MonthlyResult>): int
  {
    if rs == [] then openPhones else Last(rs).totalPhonesBought
  }

  /** Cash in hand after the opening stock and the rows `rs`. */
  function CashAfter(openCash: int, rs: seq<MonthlyResult>): int
  {
    if rs == [] then openCash else Last(rs).cash
  }

  /** Installments collected over the rows `rs`. */
  function TotalCollected(rs: seq<MonthlyResult>): int
  {
    if rs == [] then 0 else TotalCollected(rs[..|rs| - 1]) + Last(rs).collected
  }

  /** The receivables outstanding once the months of `rs` are processed:
      the opening stock's installments, thinned by each month's collection
      and grown by each month's sales. */
  function Pending(inp: Inputs, openPhones: nat, rs: seq<MonthlyResult>): seq<Receivable>
  {
    var k := Max0(inp.installmentCount);
    if rs == [] then Installments(openPhones, 0, k, inp.installmentAmount)
    else
      Outstanding(Pending(inp, openPhones, rs[..|rs| - 1]), |rs|)
      + Installments(Max0(Last(rs).phonesBoughtThisMonth), |rs|, k, inp.installmentAmount)
  }

  /** Phones, cash and revenue the opening stock leaves before month 1. */
  function OpeningPhones(inp: Inputs): nat
  {
    StockCount(inp, inp.initialCapital)
  }

  function OpeningCash(inp: Inputs): int
  {
    inp.initialCapital + OpeningPhones(inp) * (inp.entryAmount - inp.costPerPhone)
  }

  /** Row `r` is what the month after the rows `before` produces: it collects
      what falls due, adds the monthly contribution, reinvests by the mode,
      credits the down payments of the phones it buys, and reports profit and
      growth. */
  ghost predicate Follows(inp: Inputs, openCash: int, openPhones: nat, before: seq<MonthlyResult>, r: MonthlyResult)
  {
    var month := |before| + 1;
    var available := CashAfter(openCash, before) + r.collected + inp.extraMonthly;
    var bought := Max0(r.phonesBoughtThisMonth);
    && r.month == month
    && r.collected == DueSum(Pending(inp, openPhones, before), month)
    && r.extraMonthly == inp.extraMonthly
    && r.phonesBoughtThisMonth == PhonesCanBuy(inp.costPerPhone, ReinvestAmount(inp, available))
    && r.reinvestUsed == r.phonesBoughtThisMonth * inp.costPerPhone
    && r.totalPhonesBought == PhonesAfter(openPhones, before) + bought
    && r.cash == available - Spend(r.phonesBoughtThisMonth, inp.costPerPhone) + bought * inp.entryAmount
    && r.cumulativeProfit == r.totalPhonesBought * (inp.entryAmount - inp.costPerPhone) + TotalCollected(before) + r.collected
    && r.growthRate == (if before == [] then NA else Growth(Last(before).cumulativeProfit, r.cumulativeProfit))
  }

  /** Every row of `rs` follows from the rows before it. */
  ghost predicate Chronicle(inp: Inputs, openCash: int, openPhones: nat, rs: seq<MonthlyResult>)
    decreases |rs|
  {
    rs == [] ||
    (Chronicle(inp, openCash, openPhones, rs[..|rs| - 1]) && Follows(inp, openCash, openPhones, rs[..|rs| - 1], Last(rs)))
  }

  lemma ChronicleAppend(inp: Inputs, openCash: int, openPhones: nat, rs: seq<MonthlyResult>, r: MonthlyResult)
    requires Chronicle(inp, openCash, openPhones, rs)
    requires Follows(inp, openCash, openPhones, rs, r)
    ensures Chronicle(inp, openCash, openPhones, rs + [r])
  {
    assert (rs + [r])[..|rs|] == rs;
  }

  lemma {:induction false} ChroniclePrefix(inp: Inputs, openCash: int, openPhones: nat, rs: seq<MonthlyResult>, n: nat)
    requires Chronicle(inp, openCash, openPhones, rs)
    requires n <= |rs|
    ensures Chronicle(inp, openCash, openPhones, rs[..n])
  {
    if n < |rs| {
      var m := |rs| - 1;
      ChroniclePrefix(inp, openCash, openPhones, rs[..m], n);
      assert rs[..m][..n] == rs[..n];
    } else {
      assert rs[..n] == rs;
    }
  }

  /** Row `i` of a table that follows the rules follows from the rows before it. */
  lemma FollowsAt(inp: Inputs, openCash: int, openPhones: nat, rs: seq<MonthlyResult>, i: nat)
    requires Chronicle(inp, openCash, openPhones, rs)
    requires i < |rs|
    ensures Follows(inp, openCash, openPhones, rs[..i], rs[i])
  {
    ChroniclePrefix(inp, openCash, openPhones, rs, i + 1);
    assert rs[..i + 1][..i] == rs[..i];
  }

  /** Row `i` describes month `i + 1`. */
  lemma {:induction false} MonthNumbers(inp: Inputs, openCash: int, openPhones: nat, rs: seq<MonthlyResult>)
    requires Chronicle(inp, openCash, openPhones, rs)
    ensures forall i :: 0 <= i < |rs| ==> rs[i].month == i + 1
  {
    forall i | 0 <= i < |rs| ensures rs[i].month == i + 1 {
      FollowsAt(inp, openCash, openPhones, rs, i);
    }
  }

  /** The running count of phones never goes down, and never below the
      opening stock. */
  lemma {:induction false} PhonesNonDecreasing(inp: Inputs, openCash: int, openPhones: nat, rs: seq<MonthlyResult>)
    requires Chronicle(inp, openCash, openPhones, rs)
    ensures forall i :: 0 <= i < |rs| ==> openPhones <= rs[i].totalPhonesBought <= PhonesAfter(openPhones, rs)
    ensures forall i, j :: 0 <= i <= j < |rs| ==> rs[i].totalPhonesBought <= rs[j].totalPhonesBought
  {
    if rs != [] {
      FollowsAt(inp, openCash, openPhones, rs, 0);
    }
    forall i | 0 < i < |rs|
      ensures rs[i - 1].totalPhonesBought <= rs[i].totalPhonesBought
    {
      FollowsAt(inp, openCash, openPhones, rs, i);
      assert Last(rs[..i]) == rs[i - 1];
    }
    StepwiseMonotone(openPhones, rs);
  }

  /** A count that never drops from one row to the next never drops
      between any two rows. */
  lemma {:induction false} StepwiseMonotone(openPhones: int, rs: seq<MonthlyResult>)
    requires |rs| > 0 ==> openPhones <= rs[0].totalPhonesBought
    requires forall i :: 0 < i < |rs| ==> rs[i - 1].totalPhonesBought <= rs[i].totalPhonesBought
    ensures forall i :: 0 <= i < |rs| ==> openPhones <= rs[i].totalPhonesBought <= Last(rs).totalPhonesBought
    ensures forall i, j :: 0 <= i <= j < |rs| ==> rs[i].totalPhonesBought <= rs[j].totalPhonesBought
  {
    if |rs| > 1 {
      var n := |rs| - 1;
      StepwiseMonotone(openPhones, rs[..n]);
      assert forall i :: 0 <= i < n ==> rs[..n][i] == rs[i];
    }
  }

  /** With non-negative inputs the opening stock never costs more than the
      capital, so the cash it leaves is not negative. */
  lemma OpeningCashNonNegative(inp: Inputs)
    requires SanePolicy(inp) && inp.initialCapital >= 0
    ensures OpeningCash(inp) >= 0
  {
    var n := OpeningPhones(inp);
    StockCountClamp(inp, inp.initialCapital);
    assert n * inp.entryAmount >= 0;
    MarginSplit(n, inp.entryAmount, inp.costPerPhone);
  }

  /** The running state of a simulation after the rows `rs`: the
      outstanding installments, the phone count, the cash and the cost and
      revenue totals are the ones the table determines. */
  ghost predicate Consistent(inp: Inputs, openCash: int, openPhones: nat, rs: seq<MonthlyResult>,
                             receivables: seq<Receivable>, cash: int, phones: int, cost: int, revenue: int)
  {
    && Chronicle(inp, openCash, openPhones, rs)
    && receivables == Pending(inp, openPhones, rs)
    && phones == PhonesAfter(openPhones, rs)
    && cash == CashAfter(openCash, rs)
    && cost == phones * inp.costPerPhone
    && revenue == phones * inp.entryAmount + TotalCollected(rs)
  }

  /** Before month 1 the state is the opening stock's: its phones bought and
      sold in month 0, their down payments in and their installments owed. */
  lemma OpeningConsistent(inp: Inputs, receivables: seq<Receivable>, cash: int, phones: nat, cost: int, revenue: int)
    requires phones == StockCount(inp, inp.initialCapital)
    requires receivables == Installments(phones, 0, Max0(inp.installmentCount), inp.installmentAmount)
    requires cash == inp.initialCapital - phones * inp.costPerPhone + phones * inp.entryAmount
    requires cost == phones * inp.costPerPhone && revenue == phones * inp.entryAmount
    ensures Consistent(inp, OpeningCash(inp), OpeningPhones(inp), [], receivables, cash, phones, cost, revenue)
  {
    MarginSplit(phones, inp.entryAmount, inp.costPerPhone);
  }

  /** Appending the row of the month after `before` to a consistent state
      gives a consistent state: the month collects what falls due, adds the
      contribution, buys by the mode and sells what it bought, and the row
      reports the result. */
  lemma RecordMonth(inp: Inputs, openCash: int, openPhones: nat, before: seq<MonthlyResult>, row: MonthlyResult,
                    pending: seq<Receivable>, cash0: int, phones0: int, cost0: int, revenue0: int,
                    receivables: seq<Receivable>, cost: int, revenue: int)
    requires Consistent(inp, openCash, openPhones, before, pending, cash0, phones0, cost0, revenue0)
    requires var month := |before| + 1;
      var available := cash0 + row.collected + inp.extraMonthly;
      var bought := Max0(row.phonesBoughtThisMonth);
      && row.month == month
      && row.collected == DueSum(pending, month)
      && row.extraMonthly == inp.extraMonthly
      && row.phonesBoughtThisMonth == PhonesCanBuy(inp.costPerPhone, ReinvestAmount(inp, available))
      && row.reinvestUsed == row.phonesBoughtThisMonth * inp.costPerPhone
      && receivables == Outstanding(pending, month)
                        + Installments(bought, month, Max0(inp.installmentCount), inp.installmentAmount)
      && row.totalPhonesBought == phones0 + bought
      && row.cash == available - Spend(row.phonesBoughtThisMonth, inp.costPerPhone) + bought * inp.entryAmount
      && cost == cost0 + bought * inp.costPerPhone
      && revenue == revenue0 + row.collected + bought * inp.entryAmount
      && row.cumulativeProfit == revenue - cost
      && row.growthRate == (if before == [] then NA else Growth(Last(before).cumulativeProfit, row.cumulativeProfit))
    ensures Consistent(inp, openCash, openPhones, before + [row], receivables, row.cash, row.totalPhonesBought, cost, revenue)
    ensures (before + [row])[..|before|] == before
  {
    var rs := before + [row];
    var bought := Max0(row.phonesBoughtThisMonth);
    TotalsStep(phones0, bought, inp.entryAmount, inp.costPerPhone, TotalCollected(before), row.collected, cost0, revenue0);
    assert Follows(inp, openCash, openPhones, before, row);
    ChronicleAppend(inp, openCash, openPhones, before, row);
    assert rs[..|rs| - 1] == before;
    assert TotalCollected(rs) == TotalCollected(before) + row.collected;
  }

  /** Buying `bought` more phones keeps the cost and revenue totals equal to
      the phone count times the price (plus the collections), and their
      difference equal to the margin on every phone plus the collections. */
  lemma TotalsStep(phones0: int, bought: int, entry: int, cost: int, collectedBefore: int, collected: int,
                   cost0: int, revenue0: int)
    requires cost0 == phones0 * cost && revenue0 == phones0 * entry + collectedBefore
    ensures cost0 + bought * cost == (phones0 + bought) * cost
    ensures revenue0 + collected + bought * entry == (phones0 + bought) * entry + (collectedBefore + collected)
    ensures (revenue0 + collected + bought * entry) - (cost0 + bought * cost)
            == (phones0 + bought) * (entry - cost) + collectedBefore + collected
  {
    MulDistrib(phones0, bought, entry);
    MulDistrib(phones0, bought, cost);
    MarginSplit(phones0 + bought, entry, cost);
  }

  /** Profit recorded after the opening stock and the rows `rs`. */
  function ProfitAfter(inp: Inputs, openPhones: nat, rs: seq<MonthlyResult>): int
  {
    if rs == [] then openPhones * (inp.entryAmount - inp.costPerPhone) else Last(rs).cumulativeProfit
  }

  lemma MulDistrib(x: int, y: int, z: int)
    ensures (x + y) * z == x * z + y * z
  {
  }

  lemma MarginSplit(n: int, entry: int, cost: int)
    ensures n * (entry - cost) == n * entry - n * cost
  {
  }

  /** Every row's cumulative profit is the running revenue total less the
      running cost total, as the engine holds them after that month. */
  lemma ProfitIsRevenueMinusCost(inp: Inputs, openCash: int, openPhones: nat, rs: seq<MonthlyResult>,
                                 receivables: seq<Receivable>, cash: int, phones: int, cost: int, revenue: int)
    requires Consistent(inp, openCash, openPhones, rs, receivables, cash, phones, cost, revenue)
    requires rs != []
    ensures Last(rs).cumulativeProfit == revenue - cost
  {
    ProfitFromMargins(inp, openCash, openPhones, rs);
    MarginSplit(phones, inp.entryAmount, inp.costPerPhone);
  }

  /** Profit is, at every point, the margin on the phones sold so far plus
      the installments collected so far. */
  lemma ProfitFromMargins(inp: Inputs, openCash: int, openPhones: nat, rs: seq<MonthlyResult>)
    requires Chronicle(inp, openCash, openPhones, rs)
    ensures ProfitAfter(inp, openPhones, rs)
      == PhonesAfter(openPhones, rs) * (inp.entryAmount - inp.costPerPhone) + TotalCollected(rs)
  {
    if rs != [] {
      var n := |rs| - 1;
      assert Follows(inp, openCash, openPhones, rs[..n], Last(rs));
    }
  }

  /** One month moves cash and profit by the same margin on the phones it
      buys and the same collections; cash also gains the contribution. */
  lemma MonthStep(inp: Inputs, openCash: int, openPhones: nat, before: seq<MonthlyResult>, r: MonthlyResult)
    requires Chronicle(inp, openCash, openPhones, before)
    requires Follows(inp, openCash, openPhones, before, r)
    ensures var gain := Max0(r.phonesBoughtThisMonth) * (inp.entryAmount - inp.costPerPhone) + r.collected;
      && r.cumulativeProfit == ProfitAfter(inp, openPhones, before) + gain
      && r.cash == CashAfter(openCash, before) + inp.extraMonthly + gain
  {
    var margin := inp.entryAmount - inp.costPerPhone;
    var bought := Max0(r.phonesBoughtThisMonth);
    var phones := PhonesAfter(openPhones, before);
    ProfitFromMargins(inp, openCash, openPhones, before);
    MulDistrib(phones, bought, margin);
    MarginSplit(bought, inp.entryAmount, inp.costPerPhone);
    assert Spend(r.phonesBoughtThisMonth, inp.costPerPhone) == bought * inp.costPerPhone;
  }

  /** Cash is always the capital put in (initial plus monthly contributions)
      plus the profit made so far. */
  lemma CashIdentity(inp: Inputs, openPhones: nat, rs: seq<MonthlyResult>)
    requires Chronicle(inp, inp.initialCapital + openPhones * (inp.entryAmount - inp.costPerPhone), openPhones, rs)
    ensures forall i :: 0 <= i < |rs| ==>
      rs[i].cash == inp.initialCapital + (i + 1) * inp.extraMonthly + rs[i].cumulativeProfit
  {
    if rs != [] {
      DriftStep(inp, openPhones, rs, 0);
    }
    forall i | 0 < i < |rs|
      ensures Drift(rs[i]) == Drift(rs[i - 1]) + inp.extraMonthly
    {
      DriftStep(inp, openPhones, rs, i);
    }
    Telescope(inp.initialCapital, inp.extraMonthly, rs);
  }

  /** Cash in hand less the profit made: what the owner has put in. */
  function Drift(r: MonthlyResult): int
  {
    r.cash - r.cumulativeProfit
  }

  lemma DriftStep(inp: Inputs, openPhones: nat, rs: seq<MonthlyResult>, i: nat)
    requires Chronicle(inp, inp.initialCapital + openPhones * (inp.entryAmount - inp.costPerPhone), openPhones, rs)
    requires i < |rs|
    ensures Drift(rs[i]) == (if i == 0 then inp.initialCapital else Drift(rs[i - 1])) + inp.extraMonthly
  {
    var openCash := inp.initialCapital + openPhones * (inp.entryAmount - inp.costPerPhone);
    MonthDrift(inp, openCash, openPhones, rs, i);
    if i > 0 {
      assert Last(rs[..i]) == rs[i - 1];
    }
  }

  lemma MonthDrift(inp: Inputs, openCash: int, openPhones: nat, rs: seq<MonthlyResult>, i: nat)
    requires Chronicle(inp, openCash, openPhones, rs)
    requires i < |rs|
    ensures Drift(rs[i]) == CashAfter(openCash, rs[..i]) - ProfitAfter(inp, openPhones, rs[..i]) + inp.extraMonthly
  {
    FollowsAt(inp, openCash, openPhones, rs, i);
    ChroniclePrefix(inp, openCash, openPhones, rs, i);
    MonthStep(inp, openCash, openPhones, rs[..i], rs[i]);
  }

  /** A drift that starts at `capital` and grows by `extra` each row is
      `capital + (i + 1) * extra` at row `i`. */
  lemma {:induction false} Telescope(capital: int, extra: int, rs: seq<MonthlyResult>)
    requires |rs| > 0 ==> Drift(rs[0]) == capital + extra
    requires forall i :: 0 < i < |rs| ==> Drift(rs[i]) == Drift(rs[i - 1]) + extra
    ensures forall i :: 0 <= i < |rs| ==> rs[i].cash == capital + (i + 1) * extra + rs[i].cumulativeProfit
  {
    if rs != [] {
      var n := |rs| - 1;
      var front := rs[..n];
      forall i | 0 < i < n
        ensures Drift(front[i]) == Drift(front[i - 1]) + extra
      {
        assert front[i] == rs[i] && front[i - 1] == rs[i - 1];
      }
      Telescope(capital, extra, front);
      forall i | 0 <= i < |rs|
        ensures rs[i].cash == capital + (i + 1) * extra + rs[i].cumulativeProfit
      {
        if i < n {
          assert front[i] == rs[i];
        } else if n > 0 {
          assert front[n - 1] == rs[n - 1];
          MulDistrib(n, 1, extra);
        }
      }
    }
  }

  /** After the months of `rs`, every outstanding receivable is one
      installment of the plan, due in one of the next `installmentCount`
      months: none is overdue and none is left behind. */
  lemma {:induction false} PendingWindow(inp: Inputs, openPhones: nat, rs: seq<MonthlyResult>)
    ensures forall r <- Pending(inp, openPhones, rs) ::
      |rs| < r.monthDue <= |rs| + Max0(inp.installmentCount) && r.amount == inp.installmentAmount
  {
    var k := Max0(inp.installmentCount);
    if rs == [] {
      InstallmentsShape(openPhones, 0, k, inp.installmentAmount);
    } else {
      var n := |rs|;
      var prev := Pending(inp, openPhones, rs[..n - 1]);
      PendingWindow(inp, openPhones, rs[..n - 1]);
      OutstandingMembers(prev, n);
      InstallmentsShape(Max0(Last(rs).phonesBoughtThisMonth), n, k, inp.installmentAmount);
    }
  }

  /** Receivable accounting: what has been collected plus what is still
      outstanding is exactly what the phones sold so far were financed for. */
  lemma {:induction false} PendingAccounting(inp: Inputs, openCash: int, openPhones: nat, rs: seq<MonthlyResult>)
    requires Chronicle(inp, openCash, openPhones, rs)
    ensures Sum(Pending(inp, openPhones, rs)) + TotalCollected(rs)
      == PhonesAfter(openPhones, rs) * (Max0(inp.installmentCount) * inp.installmentAmount)
  {
    var k := Max0(inp.installmentCount);
    var a := inp.installmentAmount;
    if rs == [] {
      InstallmentsShape(openPhones, 0, k, a);
      assert Sum(Pending(inp, openPhones, rs)) == openPhones * (k * a);
    } else {
      var n := |rs| - 1;
      var before := rs[..n];
      var r := rs[n];
      var bought := Max0(r.phonesBoughtThisMonth);
      assert Chronicle(inp, openCash, openPhones, before);
      assert Follows(inp, openCash, openPhones, before, r);
      PendingAccounting(inp, openCash, openPhones, before);
      var prev := Pending(inp, openPhones, before);
      var kept := Outstanding(prev, n + 1);
      var sold := Installments(bought, n + 1, k, a);
      assert Pending(inp, openPhones, rs) == kept + sold;
      CollectionPartition(prev, n + 1);
      InstallmentsShape(bought, n + 1, k, a);
      SumConcat(kept, sold);
      assert Sum(sold) == bought * (k * a);
      assert TotalCollected(rs) == TotalCollected(before) + r.collected;
      assert PhonesAfter(openPhones, rs) == PhonesAfter(openPhones, before) + bought;
      assert r.collected == DueSum(prev, n + 1);
      assert Sum(prev) + TotalCollected(before) == PhonesAfter(openPhones, before) * (k * a);
      assert Sum(kept) == Sum(prev) - r.collected;
      assert Sum(Pending(inp, openPhones, rs)) == Sum(kept) + bought * (k * a);
      assert Sum(Pending(inp, openPhones, rs)) + TotalCollected(rs) == PhonesAfter(openPhones, before) * (k * a) + bought * (k * a);
      var phones, phones0, ka := PhonesAfter(openPhones, rs), PhonesAfter(openPhones, before), k * a;
      assert phones == phones0 + bought;
      assert phones * ka == (phones0 + bought) * ka;
      MulDistrib(phones0, bought, ka);
    }
  }

  /** With no negative installment, no month collects a negative amount and
      the collections never exceed what the phones sold were financed for. */
  lemma CollectionsBounded(inp: Inputs, openCash: int, openPhones: nat, rs: seq<MonthlyResult>)
    requires Chronicle(inp, openCash, openPhones, rs)
    requires inp.installmentAmount >= 0
    ensures forall i :: 0 <= i < |rs| ==> rs[i].collected >= 0
    ensures TotalCollected(rs) <= PhonesAfter(openPhones, rs) * (Max0(inp.installmentCount) * inp.installmentAmount)
  {
    forall i | 0 <= i < |rs| ensures rs[i].collected >= 0 {
      FollowsAt(inp, openCash, openPhones, rs, i);
      PendingWindow(inp, openPhones, rs[..i]);
      DueSumNonNegative(Pending(inp, openPhones, rs[..i]), i + 1);
    }
    PendingWindow(inp, openPhones, rs);
    SumNonNegative(Pending(inp, openPhones, rs));
    PendingAccounting(inp, openCash, openPhones, rs);
  }

  /** Collections that are each non-negative add up to a non-negative total. */
  lemma {:induction false} TotalCollectedNonNegative(rs: seq<MonthlyResult>)
    requires forall i :: 0 <= i < |rs| ==> rs[i].collected >= 0
    ensures TotalCollected(rs) >= 0
  {
    if rs != [] {
      TotalCollectedNonNegative(rs[..|rs| - 1]);
    }
  }

  /** With non-negative inputs and a reinvestment that never asks for more
      than the cash in hand, the business never runs out of cash. */
  lemma {:induction false} CashNonNegative(inp: Inputs, openCash: int, openPhones: nat, rs: seq<MonthlyResult>)
    requires Chronicle(inp, openCash, openPhones, rs)
    requires SanePolicy(inp) && openCash >= 0
    ensures forall i :: 0 <= i < |rs| ==> rs[i].cash >= 0
  {
    if rs != [] {
      var n := |rs| - 1;
      var before := rs[..n];
      assert Chronicle(inp, openCash, openPhones, before);
      CashNonNegative(inp, openCash, openPhones, before);
      CollectionsBounded(inp, openCash, openPhones, rs);
      forall i | 0 <= i < n ensures rs[i] == before[i] { }
      CashStep(inp, openCash, openPhones, before, rs[n]);
    }
  }

  lemma CashStep(inp: Inputs, openCash: int, openPhones: nat, before: seq<MonthlyResult>, r: MonthlyResult)
    requires Follows(inp, openCash, openPhones, before, r)
    requires SanePolicy(inp) && CashAfter(openCash, before) >= 0 && r.collected >= 0
    ensures r.cash >= 0
  {
    var available := CashAfter(openCash, before) + r.collected + inp.extraMonthly;
    ReinvestSpendBounds(inp, available);
    assert Max0(r.phonesBoughtThisMonth) * inp.entryAmount >= 0;
  }

  /** With a phone costing nothing or less, no month buys a phone and the
      count stays at the opening stock. */
  lemma {:induction false} ZeroCostGuard(inp: Inputs, openCash: int, openPhones: nat, rs: seq<MonthlyResult>)
    requires Chronicle(inp, openCash, openPhones, rs)
    requires inp.costPerPhone <= 0
    ensures forall i :: 0 <= i < |rs| ==>
      rs[i].phonesBoughtThisMonth == 0 && rs[i].reinvestUsed == 0 && rs[i].totalPhonesBought == openPhones
  {
    if rs != [] {
      var n := |rs| - 1;
      ChroniclePrefix(inp, openCash, openPhones, rs, n);
      ZeroCostGuard(inp, openCash, openPhones, rs[..n]);
      forall i | 0 <= i < n ensures rs[i] == rs[..n][i] { }
      assert Follows(inp, openCash, openPhones, rs[..n], rs[n]);
    }
  }

  /** The growth figure is the sentinel in month 1 and whenever the previous
      month's profit was zero, and a percentage otherwise. */
  lemma {:induction false} GrowthSentinel(inp: Inputs, openCash: int, openPhones: nat, rs: seq<MonthlyResult>)
    requires Chronicle(inp, openCash, openPhones, rs)
    ensures |rs| > 0 ==> rs[0].growthRate == NA
    ensures forall i :: 1 <= i < |rs| ==> (rs[i].growthRate == NA <==> rs[i - 1].cumulativeProfit == 0)
  {
    if |rs| > 0 {
      FollowsAt(inp, openCash, openPhones, rs, 0);
    }
    forall i | 1 <= i < |rs|
      ensures rs[i].growthRate == NA <==> rs[i - 1].cumulativeProfit == 0
    {
      FollowsAt(inp, openCash, openPhones, rs, i);
      assert Last(rs[..i]) == rs[i - 1];
    }
  }

  /** A month's row is determined by the rows before it. */
  lemma FollowsUnique(inp: Inputs, openCash: int, openPhones: nat, before: seq<MonthlyResult>, r: MonthlyResult, r': MonthlyResult)
    requires Follows(inp, openCash, openPhones, before, r)
    requires Follows(inp, openCash, openPhones, before, r')
    ensures r == r'
  {
  }

  lemma SameFrontSameLast(a: seq<MonthlyResult>, b: seq<MonthlyResult>)
    requires |a| == |b| > 0 && a[..|a| - 1] == b[..|b| - 1] && Last(a) == Last(b)
    ensures a == b
  {
    assert a == a[..|a| - 1] + [Last(a)];
    assert b == b[..|b| - 1] + [Last(b)];
  }

  /** The table is determined by the inputs and the opening stock: two
      tables of the same length that both follow the rules are equal. */
  lemma {:induction false} ChronicleUnique(inp: Inputs, openCash: int, openPhones: nat, a: seq<MonthlyResult>, b: seq<MonthlyResult>)
    requires Chronicle(inp, openCash, openPhones, a)
    requires Chronicle(inp, openCash, openPhones, b)
    requires |a| == |b|
    ensures a == b
  {
    if a != [] {
      var n := |a| - 1;
      ChronicleUnique(inp, openCash, openPhones, a[..n], b[..n]);
      FollowsUnique(inp, openCash, openPhones, a[..n], Last(a), Last(b));
      SameFrontSameLast(a, b);
    }
  }
}
