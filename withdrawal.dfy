/**
 * The withdrawal transaction as a decision on the inventory: validate the
 * amount, check the total funds, run the solver, and either reject with an
 * error or hand back the plan to dispense. `Decide` is what both ATM classes
 * do before they touch their inventory.
 */
module Withdrawal {
  import opened Inventory
  import opened Breakdown

  /** Why an amount or a denomination was refused (`InvalidAmountError`). */
  datatype Invalid = NotPositive | NotMultipleOfHundred | UnknownDenomination

  /** Why funds were insufficient (`InsufficientFundsError`): the total is below the
      amount, or no combination of the notes held makes the amount. */
  datatype Shortfall = TotalTooLow | NoCombination

  /** The failures a withdrawal or an admin top-up can raise. `ZeroDivision` is the
      uncaught ZeroDivisionError of a search that reaches a stored denomination 0. */
  datatype Error = InvalidAmount(reason: Invalid) | InsufficientFunds(cause: Shortfall) | ZeroDivision

  datatype Result<T> = Ok(value: T) | Err(error: Error)

  /** The unit the amount must be a multiple of (a literal in the source). */
  const Unit: int := 100

  /** The outcome of `withdraw(amount)` on inventory `cash`. */
  function Decide(cash: Cash, amount: int): (r: Result<Plan>)
    ensures r.Ok? ==> amount > 0 && amount % Unit == 0
    ensures r.Ok? ==> Dispensable(cash, Denominations(cash), amount, r.value)
  {
    if amount <= 0 then Err(InvalidAmount(NotPositive))
    else if amount % Unit != 0 then Err(InvalidAmount(NotMultipleOfHundred))
    else if amount > Total(cash) then Err(InsufficientFunds(TotalTooLow))
    else
      var ds := Denominations(cash);
      var found := Solve(cash, ds, amount);
      if found.DivideByZero? then Err(ZeroDivision)
      else if found.NoPlan? || found.plan == map[] then Err(InsufficientFunds(NoCombination))
      else
        SolveSound(cash, ds, amount);
        Ok(found.plan)
  }

  /** The bookkeeping of a successful withdrawal: the keys stay, the total drops by
      exactly the amount, and no count goes negative that was not negative before. */
  lemma DispenseKeepsBooks(cash: Cash, amount: int)
    requires Decide(cash, amount).Ok?
    ensures Debit(cash, Decide(cash, amount).value).Keys == cash.Keys
    ensures Total(Debit(cash, Decide(cash, amount).value)) == Total(cash) - amount
    ensures forall d :: d in cash && cash[d] >= 0 ==> Debit(cash, Decide(cash, amount).value)[d] >= 0
  {
    var plan := Decide(cash, amount).value;
    TotalDebit(cash, plan);
    var after := Debit(cash, plan);
    forall d | d in cash && cash[d] >= 0 ensures after[d] >= 0 {
      if d in plan { assert plan[d] <= cash[d]; }
    }
  }

  /** With positive denominations, a feasible combination is never worth more than
      everything held. */
  lemma {:induction false} FeasibleWithinTotal(cash: Cash, ds: seq<int>, target: int, cs: seq<int>)
    requires Stocked(cash, ds) && AllPositive(ds)
    requires Feasible(cash, ds, target, cs)
    ensures target <= SumValue(cash, ds)
    decreases |ds|
  {
    if ds != [] {
      FeasibleHead(cash, ds, target, cs);
      FeasibleWithinTotal(cash, ds[1..], target - cs[0] * ds[0], cs[1..]);
      assert cs[0] * ds[0] <= cash[ds[0]] * ds[0];
    }
  }

  /** Completeness of `withdraw`: a valid amount that some combination of the notes
      held makes is always dispensed, and with the lexicographically greatest plan. */
  lemma WithdrawComplete(cash: Cash, amount: int, cs: seq<int>)
    requires amount > 0 && amount % Unit == 0
    requires AllPositive(Denominations(cash))
    requires Feasible(cash, Denominations(cash), amount, cs)
    ensures Decide(cash, amount).Ok?
    ensures LexGeq(Counts(Decide(cash, amount).value, Denominations(cash)), cs)
  {
    var ds := Denominations(cash);
    FeasibleWithinTotal(cash, ds, amount, cs);
    SolveComplete(cash, ds, amount, cs);
    SolveSound(cash, ds, amount);
    SumValueEmpty(ds);
    SolveMaximal(cash, ds, amount, cs);
  }

  /** "Cannot dispense this amount" is only reported when no combination of the
      notes held makes the amount. */
  lemma NoCombinationMeansInfeasible(cash: Cash, amount: int, cs: seq<int>)
    requires AllPositive(Denominations(cash))
    requires Decide(cash, amount) == Err(InsufficientFunds(NoCombination))
    ensures !Feasible(cash, Denominations(cash), amount, cs)
  {
    if Feasible(cash, Denominations(cash), amount, cs) {
      WithdrawComplete(cash, amount, cs);
    }
  }

  /** With positive denominations the solver never divides by zero, so `withdraw`
      only fails with the two declared errors. */
  lemma WithdrawDeclaredErrors(cash: Cash, amount: int)
    requires AllPositive(Denominations(cash))
    ensures Decide(cash, amount) != Err(ZeroDivision)
  {
    SolveNeverDividesByZero(cash, Denominations(cash), amount);
  }

  // ----- example scenarios -----

  lemma DefaultOrder(cash: Cash)
    requires cash.Keys == {500, 200, 100}
    ensures Denominations(cash) == [500, 200, 100]
  {
    SortDescOf(cash.Keys, [500, 200, 100]);
  }

  /** Zero, negative and odd amounts are refused as invalid. */
  lemma InvalidAmountsRejected(cash: Cash)
    ensures Decide(cash, 0) == Err(InvalidAmount(NotPositive))
    ensures Decide(cash, -100) == Err(InvalidAmount(NotPositive))
    ensures Decide(cash, 150) == Err(InvalidAmount(NotMultipleOfHundred))
  {
  }

  /** The search over 100 alone, then over 200 and 100, for the inventory below. */
  lemma SmallNotesSearch(cash: Cash)
    requires cash == map[500 := 0, 200 := 1, 100 := 1]
    ensures Solve(cash, [200, 100], 300) == Found(map[200 := 1, 100 := 1])
    ensures Solve(cash, [500, 200, 100], 300) == Found(map[200 := 1, 100 := 1])
  {
    var hundred := map[100 := 1];
    assert [200, 100][1..] == [100] && [100][1..] == [];
    assert Branch(cash, [100], 100, 1) == Found(map[]);
    assert Solve(cash, [100], 100) == Found(hundred);
    assert Branch(cash, [200, 100], 300, 1) == Found(hundred);
    assert hundred[200 := 1] == map[200 := 1, 100 := 1];
    assert [500, 200, 100][1..] == [200, 100];
    assert Branch(cash, [500, 200, 100], 300, 0) == Found(map[200 := 1, 100 := 1]);
  }

  /** The value of an inventory over the default denominations, written out. */
  lemma DefaultTotal(cash: Cash)
    requires cash.Keys == {500, 200, 100}
    ensures Total(cash) == 500 * cash[500] + 200 * cash[200] + 100 * cash[100]
  {
    DefaultOrder(cash);
    var ds := [500, 200, 100];
    assert ds[1..] == [200, 100] && ds[1..][1..] == [100] && ds[1..][1..][1..] == [];
    assert SumValue(cash, [100]) == 100 * cash[100];
    assert SumValue(cash, [200, 100]) == 200 * cash[200] + 100 * cash[100];
  }

  /** A valid amount within the total that the search makes is dispensed as found. */
  lemma DecideFound(cash: Cash, amount: int, plan: Plan)
    requires amount > 0 && amount % Unit == 0 && amount <= Total(cash)
    requires Solve(cash, Denominations(cash), amount) == Found(plan) && plan != map[]
    ensures Decide(cash, amount) == Ok(plan)
  {
  }

  /** With no 500s, one 200 and one 100, 300 is dispensed as 200 + 100. */
  lemma ThreeHundredFromSmallNotes(cash: Cash)
    requires cash == map[500 := 0, 200 := 1, 100 := 1]
    ensures Decide(cash, 300) == Ok(map[200 := 1, 100 := 1])
  {
    var plan := map[200 := 1, 100 := 1];
    DefaultOrder(cash);
    DefaultTotal(cash);
    SmallNotesSearch(cash);
    assert 100 in plan;
    DecideFound(cash, 300, plan);
  }

  /** A single 500 covers 300 in total but no combination makes 300. */
  lemma ThreeHundredFromOneFiveHundred(cash: Cash)
    requires cash == map[500 := 1, 200 := 0, 100 := 0]
    ensures Total(cash) == 500
    ensures Decide(cash, 300) == Err(InsufficientFunds(NoCombination))
  {
    DefaultOrder(cash);
    DefaultTotal(cash);
    var ds := [500, 200, 100];
    assert ds[1..] == [200, 100] && ds[1..][1..] == [100] && ds[1..][1..][1..] == [];
    assert Solve(cash, [100], 300) == NoPlan;
    assert Solve(cash, [200, 100], 300) == NoPlan;
    assert Solve(cash, ds, 300) == NoPlan;
  }
}
