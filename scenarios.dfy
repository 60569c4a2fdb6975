// The form's default scenario, worked through its opening stock and first
// month.
module Scenarios {
  import opened SimTypes
  import opened Receivables
  import opened Policy
  import opened History

  /** The scenario the form starts with. */
  function DefaultInputs(): Inputs
  {
    Inputs(1600, 600, 2, 100, 5, 200, 1600, All, 1600, 100, 12)
  }

  /** Month 1 of the default scenario: the first installments of the two
      opening phones (400) are collected, the 2600 in hand buys 4 phones
      (2400), and the month ends with 600 in cash, 6 phones and a profit of
      -2600. */
  function DefaultRow(): MonthlyResult
  {
    MonthlyResult(1, 400, 1600, 2400, 4, 600, -2600, 6, NA)
  }

  /** The default scenario run for one month produces exactly that row. */
  lemma DefaultFirstMonth(inp: Inputs, rs: seq<MonthlyResult>)
    requires inp == DefaultInputs().(months := 1)
    requires Chronicle(inp, OpeningCash(inp), OpeningPhones(inp), rs) && |rs| == 1
    ensures rs == [MonthlyResult(1, 400, 1600, 2400, 4, 600, -2600, 6, NA)]
  {
    DefaultTable(inp);
    ChronicleUnique(inp, OpeningCash(inp), OpeningPhones(inp), rs, [DefaultRow()]);
  }

  lemma DefaultTable(inp: Inputs)
    requires inp == DefaultInputs().(months := 1)
    ensures Chronicle(inp, OpeningCash(inp), OpeningPhones(inp), [DefaultRow()])
  {
    DefaultOpening(inp);
    DefaultMonthOne(inp);
  }

  /** The opening stock buys both phones asked for (1600 affords 2 at 600)
      and their down payments bring the cash to 600. */
  lemma DefaultOpening(inp: Inputs)
    requires inp == DefaultInputs().(months := 1)
    ensures OpeningPhones(inp) == 2 && OpeningCash(inp) == 600
  {
    FloorDivIsDivision(1600, 600);
  }

  lemma DefaultMonthOne(inp: Inputs)
    requires inp == DefaultInputs().(months := 1)
    ensures Chronicle(inp, 600, 2, [DefaultRow()])
  {
    InstallmentsDue(2, 0, 5, 200, 1);
    assert DueSum(Pending(inp, 2, []), 1) == 400;
    FloorDivIsDivision(2600, 600);
    assert PhonesCanBuy(600, ReinvestAmount(inp, 2600)) == 4;
    OneRowChronicle(inp, 600, 2, DefaultRow());
  }

  /** A row that follows the opening is a table of one month. */
  lemma OneRowChronicle(inp: Inputs, openCash: int, openPhones: nat, row: MonthlyResult)
    requires Follows(inp, openCash, openPhones, [], row)
    ensures Chronicle(inp, openCash, openPhones, [row])
  {
    ChronicleAppend(inp, openCash, openPhones, [], row);
    assert [] + [row] == [row];
  }
}
