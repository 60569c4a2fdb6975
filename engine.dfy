// The simulation engine: one run of the month-by-month reinvestment
// simulation, with the running state it updates in place.
module Engine {
  import opened SimTypes
  import opened Receivables
  import opened Policy
  import opened History

  /** The state of one run: cash in hand, the installments still owed, the
      running totals and the table of months produced so far. */
  class Simulation {
    const inputs: Inputs
    var cash: int
    var receivables: seq<Receivable>
    var monthlyResults: seq<MonthlyResult>
    var totalRevenue: int
    var totalPhonesBought: int
    var totalCost: int
    // Cash and phone count the opening stock leaves before month 1.
    ghost const openCash: int
    ghost const openPhones: nat

    /** The running state is the one the table so far determines: the
        outstanding installments are those its months left, and the totals
        agree with its last row. */
    ghost predicate Valid()
      reads this
    {
      Consistent(inputs, openCash, openPhones, monthlyResults, receivables, cash, totalPhonesBought, totalCost, totalRevenue)
    }

    /** Starts a run: the capital in hand and nothing else, then the opening
        stock bought and sold, which leaves the consistent state of the empty
        table. */
    constructor (inputs: Inputs)
      ensures this.inputs == inputs
      ensures openCash == OpeningCash(inputs) && openPhones == OpeningPhones(inputs)
      ensures Valid() && monthlyResults == []
      ensures totalPhonesBought == StockCount(inputs, inputs.initialCapital)
    {
      this.inputs := inputs;
      openCash, openPhones := OpeningCash(inputs), OpeningPhones(inputs);
      cash := inputs.initialCapital;
      receivables := [];
      monthlyResults := [];
      totalRevenue, totalPhonesBought, totalCost := 0, 0, 0;
      new;
      StockInitial();
    }

    /** Sells `count` phones in `currentMonth`: each brings its down payment
        in at once and leaves one installment due in each of the next
        `installmentCount` months. Buying them is the caller's business, so
        the cost total is left alone. */
    method SellPhones(count: int, currentMonth: int)
      modifies this`cash, this`totalRevenue, this`receivables, this`totalPhonesBought
      ensures cash == old(cash) + Max0(count) * inputs.entryAmount
      ensures totalRevenue == old(totalRevenue) + Max0(count) * inputs.entryAmount
      ensures totalPhonesBought == old(totalPhonesBought) + Max0(count)
      ensures receivables == old(receivables)
        + Installments(Max0(count), currentMonth, Max0(inputs.installmentCount), inputs.installmentAmount)
    {
      ghost var k := Max0(inputs.installmentCount);
      var i := 0;
      while i < count
        invariant 0 <= i <= Max0(count)
        invariant cash == old(cash) + i * inputs.entryAmount
        invariant totalRevenue == old(totalRevenue) + i * inputs.entryAmount
        invariant totalPhonesBought == old(totalPhonesBought) + i
        invariant receivables == old(receivables) + Installments(i, currentMonth, k, inputs.installmentAmount)
      {
        cash := cash + inputs.entryAmount;
        totalRevenue := totalRevenue + inputs.entryAmount;
        ghost var sold := receivables;
        var j := 1;
        while j <= inputs.installmentCount
          invariant 1 <= j <= k + 1
          invariant cash == old(cash) + (i + 1) * inputs.entryAmount
          invariant totalRevenue == old(totalRevenue) + (i + 1) * inputs.entryAmount
          invariant totalPhonesBought == old(totalPhonesBought) + i
          invariant receivables == sold + Plan(currentMonth, j - 1, inputs.installmentAmount)
        {
          receivables := receivables + [Receivable(currentMonth + j, inputs.installmentAmount)];
          j := j + 1;
        }
        totalPhonesBought := totalPhonesBought + 1;
        i := i + 1;
      }
    }

    /** Takes the installments due in month `m` off the list, scanning it
        from the back, and returns their total. */
    method CollectDue(m: int) returns (collected: int)
      modifies this`receivables
      ensures collected == DueSum(old(receivables), m)
      ensures receivables == Outstanding(old(receivables), m)
    {
      ghost var rs := receivables;
      collected := 0;
      var i := |receivables| - 1;
      while i >= 0
        invariant -1 <= i < |rs|
        invariant receivables == rs[..i + 1] + Outstanding(rs[i + 1..], m)
        invariant collected == DueSum(rs[i + 1..], m)
      {
        BackScanStep(rs, i, m);
        if receivables[i].monthDue == m {
          collected := collected + receivables[i].amount;
          receivables := receivables[..i] + receivables[i + 1..];
        }
        i := i - 1;
      }
      assert rs[0..] == rs;
    }

    /** Before month 1: buys as many of the phones asked for as the cash
        affords, pays for them, and sells them in month 0. */
    method StockInitial()
      requires openCash == OpeningCash(inputs) && openPhones == OpeningPhones(inputs)
      requires cash == inputs.initialCapital && receivables == [] && monthlyResults == []
      requires totalRevenue == 0 && totalPhonesBought == 0 && totalCost == 0
      modifies this
      ensures Valid() && monthlyResults == []
      ensures totalPhonesBought == StockCount(inputs, old(cash))
    {
      if inputs.initialPhones > 0 && inputs.costPerPhone > 0 {
        var maxAffordable := FloorDiv(cash, inputs.costPerPhone);
        var toBuy := Min(inputs.initialPhones, maxAffordable);
        if toBuy > 0 {
          var initialPurchaseCost := toBuy * inputs.costPerPhone;
          cash := cash - initialPurchaseCost;
          totalCost := totalCost + initialPurchaseCost;
          SellPhones(toBuy, 0);
        }
      }
      OpeningConsistent(inputs, receivables, cash, totalPhonesBought, totalCost, totalRevenue);
    }

    /** The first half of month `m`: collects the installments due, which
        count as revenue, and adds them and the monthly contribution to the
        cash. */
    method CollectMonth(m: int) returns (collected: int)
      modifies this`receivables, this`cash, this`totalRevenue
      ensures collected == DueSum(old(receivables), m)
      ensures receivables == Outstanding(old(receivables), m)
      ensures totalRevenue == old(totalRevenue) + collected
      ensures cash == old(cash) + collected + inputs.extraMonthly
    {
      collected := CollectDue(m);
      totalRevenue := totalRevenue + collected;
      cash := cash + collected;
      cash := cash + inputs.extraMonthly;
    }

    /** The second half of month `m`: sets aside the reinvestment by the
        mode, buys the whole phones it pays for and sells them in `m`. A
        count that is not positive buys and sells nothing. */
    method ReinvestMonth(m: int) returns (phonesCanBuy: int, actuallySpend: int)
      modifies this`cash, this`totalCost, this`receivables, this`totalRevenue, this`totalPhonesBought
      ensures phonesCanBuy == PhonesCanBuy(inputs.costPerPhone, ReinvestAmount(inputs, old(cash)))
      ensures actuallySpend == phonesCanBuy * inputs.costPerPhone
      ensures cash == old(cash) - Spend(phonesCanBuy, inputs.costPerPhone) + Max0(phonesCanBuy) * inputs.entryAmount
      ensures totalCost == old(totalCost) + Max0(phonesCanBuy) * inputs.costPerPhone
      ensures totalRevenue == old(totalRevenue) + Max0(phonesCanBuy) * inputs.entryAmount
      ensures totalPhonesBought == old(totalPhonesBought) + Max0(phonesCanBuy)
      ensures receivables == old(receivables)
        + Installments(Max0(phonesCanBuy), m, Max0(inputs.installmentCount), inputs.installmentAmount)
    {
      var reinvestAmount := ReinvestAmount(inputs, cash);
      phonesCanBuy := PhonesCanBuy(inputs.costPerPhone, reinvestAmount);
      actuallySpend := phonesCanBuy * inputs.costPerPhone;
      if phonesCanBuy > 0 {
        cash := cash - actuallySpend;
        totalCost := totalCost + actuallySpend;
        SellPhones(phonesCanBuy, m);
      } else {
        assert receivables == receivables + Installments(0, m, Max0(inputs.installmentCount), inputs.installmentAmount);
      }
    }

    /** Month `m`: collects, reinvests, and appends the month's row with the
        profit so far and its growth over the previous month. */
    method Step(m: int)
      requires Valid() && m == |monthlyResults| + 1
      modifies this
      ensures Valid()
      ensures |monthlyResults| == m && monthlyResults[..m - 1] == old(monthlyResults)
      ensures Last(monthlyResults).cumulativeProfit == totalRevenue - totalCost
    {
      ghost var before, pending, cash0 := monthlyResults, receivables, cash;
      ghost var phones0, cost0, revenue0 := totalPhonesBought, totalCost, totalRevenue;
      var collected := CollectMonth(m);
      var phonesCanBuy, actuallySpend := ReinvestMonth(m);

      var cumulativeProfit := totalRevenue - totalCost;
      var growthRate := NA;
      if m > 1 {
        growthRate := Growth(monthlyResults[m - 2].cumulativeProfit, cumulativeProfit);
      }
      var row := MonthlyResult(m, collected, inputs.extraMonthly, actuallySpend, phonesCanBuy,
                               cash, cumulativeProfit, totalPhonesBought, growthRate);
      monthlyResults := monthlyResults + [row];
      RecordMonth(inputs, openCash, openPhones, before, row, pending, cash0, phones0, cost0, revenue0, receivables, totalCost, totalRevenue);
    }
  }

  /** Revenue per phone sold, or 0 when none was sold. */
  function AverageTicket(revenue: int, phones: int): (t: real)
    ensures phones <= 0 ==> t == 0.0
    ensures phones > 0 ==> t * (phones as real) == revenue as real
    ensures phones > 0 ==> (t == 0.0 <==> revenue == 0)
  {
    if phones > 0 then revenue as real / phones as real else 0.0
  }

  lemma SalesBringRevenue(phones: int, entry: int, collected: int)
    requires phones > 0 && entry > 0 && collected >= 0
    ensures phones * entry + collected > 0
  {
  }

  /** Runs the simulation for `inputs.months` months: the opening stock, then
      one step per month; returns the table and the totals. */
  method CalculateSimulation(inputs: Inputs) returns (results: seq<MonthlyResult>, summary: Summary)
    ensures |results| == Max0(inputs.months)
    ensures Chronicle(inputs, OpeningCash(inputs), OpeningPhones(inputs), results)
    ensures SanePolicy(inputs) && inputs.initialCapital >= 0 ==> forall i :: 0 <= i < |results| ==> results[i].cash >= 0
    ensures summary.totalPhonesBought == PhonesAfter(OpeningPhones(inputs), results)
    ensures summary.totalCost == summary.totalPhonesBought * inputs.costPerPhone
    ensures summary.totalRevenue == summary.totalPhonesBought * inputs.entryAmount + TotalCollected(results)
    ensures summary.finalProfit == summary.totalRevenue - summary.totalCost
    ensures |results| > 0 ==> summary.finalProfit == Last(results).cumulativeProfit
    ensures summary.averageTicket == AverageTicket(summary.totalRevenue, summary.totalPhonesBought)
    ensures inputs.entryAmount > 0 && inputs.installmentAmount >= 0 ==>
      (summary.averageTicket == 0.0 <==> summary.totalPhonesBought == 0)
  {
    var sim := new Simulation(inputs);
    var m := 1;
    while m <= inputs.months
      invariant 1 <= m <= Max0(inputs.months) + 1
      invariant sim.Valid() && sim.inputs == inputs && |sim.monthlyResults| == m - 1
      invariant sim.openCash == OpeningCash(inputs) && sim.openPhones == OpeningPhones(inputs)
    {
      sim.Step(m);
      m := m + 1;
    }
    results := sim.monthlyResults;
    summary := Summary(sim.totalPhonesBought, sim.totalCost, sim.totalRevenue, sim.totalRevenue - sim.totalCost,
                       AverageTicket(sim.totalRevenue, sim.totalPhonesBought));
    SummaryFacts(inputs, results, sim.receivables, sim.cash, summary);

    var openCash, openPhones := OpeningCash(inputs), OpeningPhones(inputs);
    if SanePolicy(inputs) && inputs.initialCapital >= 0 {
      OpeningCashNonNegative(inputs);
      CashNonNegative(inputs, openCash, openPhones, results);
    }
  }

  /** What the totals of a run satisfy, given the table they close. */
  lemma SummaryFacts(inputs: Inputs, results: seq<MonthlyResult>, receivables: seq<Receivable>, cash: int, summary: Summary)
    requires Consistent(inputs, OpeningCash(inputs), OpeningPhones(inputs), results, receivables, cash,
                        summary.totalPhonesBought, summary.totalCost, summary.totalRevenue)
    requires summary.finalProfit == summary.totalRevenue - summary.totalCost
    requires summary.averageTicket == AverageTicket(summary.totalRevenue, summary.totalPhonesBought)
    ensures |results| > 0 ==> summary.finalProfit == Last(results).cumulativeProfit
    ensures inputs.entryAmount > 0 && inputs.installmentAmount >= 0 ==>
      (summary.averageTicket == 0.0 <==> summary.totalPhonesBought == 0)
  {
    var openCash, openPhones := OpeningCash(inputs), OpeningPhones(inputs);
    ProfitFromMargins(inputs, openCash, openPhones, results);
    MarginSplit(summary.totalPhonesBought, inputs.entryAmount, inputs.costPerPhone);
    PhonesNonDecreasing(inputs, openCash, openPhones, results);
    if inputs.entryAmount > 0 && inputs.installmentAmount >= 0 && summary.totalPhonesBought > 0 {
      CollectionsBounded(inputs, openCash, openPhones, results);
      TotalCollectedNonNegative(results);
      SalesBringRevenue(summary.totalPhonesBought, inputs.entryAmount, TotalCollected(results));
    }
  }
}
