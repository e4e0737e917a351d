/**
 * The ATM of atm.py, the older single-file version of the machine. Loading,
 * saving, the search and the withdrawal behave as in atm_core.py; the admin
 * top-up ignores an unknown denomination instead of raising, and the status view
 * prints its rows and the total instead of returning a report.
 */
module AtmLegacy {
  import opened Inventory
  import opened Breakdown
  import opened Persistence
  import opened Withdrawal
  import opened Status

  class ATM {
    var cash: Cash
    var file: FileState

    /** Starts from the default inventory and loads the state file. */
    constructor (stored: FileState, fault: IoFault)
      ensures Snapshot(cash, file) == Load(Snapshot(Defaults, stored), fault)
    {
      cash := Defaults;
      file := stored;
      new;
      LoadState(fault);
    }

    /** Replaces the inventory by the stored one when every key converts; writes the
        current one back when the file is missing or corrupt; keeps both when the
        file cannot be read. */
    method LoadState(fault: IoFault)
      modifies this
      ensures Snapshot(cash, file) == Load(old(Snapshot(cash, file)), fault)
    {
      if file == Absent {
        SaveState(fault);
        return;
      }
      match file {
        case Unreadable =>
          // IOError while reading: logged and reported, nothing changes
        case Garbled =>
          SaveState(fault);
        case Document(items) =>
          var converted := Decode(items);
          if converted.None? {
            SaveState(fault);
          } else {
            cash := converted.value;
          }
      }
    }

    /** Writes the inventory to a temporary file, removes the old state file and
        renames the temporary file into its place; a failure is logged, not raised. */
    method SaveState(fault: IoFault)
      modifies this`file
      ensures file == AfterSave(cash, old(file), fault)
    {
      if fault == FailsBeforeReplace {
        return;
      }
      var temp := Encode(cash);
      file := Absent;
      if fault == FailsAfterRemove {
        return;
      }
      file := Document(temp);
    }

    /** The admin top-up: an unknown denomination is reported and ignored (no save);
        otherwise the count is raised in place and the state saved. */
    method AddCash(denomination: int, count: int, fault: IoFault)
      modifies this
      ensures denomination !in old(cash) ==> cash == old(cash) && file == old(file)
      ensures denomination in old(cash) ==>
                cash == old(cash)[denomination := old(cash)[denomination] + count] &&
                file == AfterSave(cash, old(file), fault)
    {
      if denomination !in cash {
        return;
      }
      cash := cash[denomination := cash[denomination] + count];
      SaveState(fault);
    }

    /** The backtracking search over the denominations held, largest first. */
    method GetBreakdown(amount: int) returns (r: Search)
      ensures r == Solve(cash, Denominations(cash), amount)
    {
      var denominations := Denominations(cash);
      assert denominations[0..] == denominations;
      r := SolveFrom(cash, denominations, 0, amount);
    }

    /** `withdraw`: the same checks, search and update as atm_core.py; an error is
        logged and raised again unchanged. */
    method Withdraw(amount: int, fault: IoFault) returns (r: Result<Plan>)
      modifies this
      ensures r == Decide(old(cash), amount)
      ensures r.Err? ==> cash == old(cash) && file == old(file)
      ensures r.Ok? ==> cash == Debit(old(cash), r.value) && file == AfterSave(cash, old(file), fault)
    {
      if amount <= 0 {
        return Err(InvalidAmount(NotPositive));
      }
      if amount % Unit != 0 {
        return Err(InvalidAmount(NotMultipleOfHundred));
      }
      var totalBalance := Total(cash);
      if amount > totalBalance {
        return Err(InsufficientFunds(TotalTooLow));
      }
      var found := GetBreakdown(amount);
      if found.DivideByZero? {
        return Err(ZeroDivision);
      }
      if found.NoPlan? || found.plan == map[] {
        return Err(InsufficientFunds(NoCombination));
      }
      var plan := found.plan;
      assert Decide(cash, amount) == Ok(plan);
      Dispense(plan);
      SaveState(fault);
      r := Ok(plan);
    }

    /** Takes every planned count out of its denomination, one key at a time. */
    method Dispense(plan: Plan)
      requires forall d :: d in plan ==> d in cash
      modifies this`cash
      ensures cash == Debit(old(cash), plan)
    {
      var pending := plan.Keys;
      while pending != {}
        invariant pending <= plan.Keys
        invariant cash.Keys == old(cash).Keys
        invariant forall d :: d in cash ==>
                    cash[d] == old(cash)[d] - (if d !in pending then Get(plan, d) else 0)
        decreases pending
      {
        HasMember(pending);
        var denom :| denom in pending;
        cash := cash[denom := cash[denom] - plan[denom]];
        pending := pending - {denom};
      }
    }

    /** `display_status`: prints one row per denomination, largest first, and then
        the total; the printed rows and total are the results. */
    method DisplayStatus() returns (rows: seq<Line>, total: int)
      ensures var ds := Denominations(cash);
              |rows| == |ds| && forall i :: 0 <= i < |ds| ==> rows[i] == Row(cash, ds[i])
      ensures total == LinesTotal(rows)
      ensures total == Total(cash)
    {
      var held := cash;
      var denominations := Denominations(held);
      rows := [];
      total := 0;
      var i := 0;
      while i < |denominations|
        invariant 0 <= i <= |denominations|
        invariant |rows| == i
        invariant forall k :: 0 <= k < i ==> rows[k] == Row(held, denominations[k])
        invariant total == SumValue(held, denominations[..i])
      {
        var denom := denominations[i];
        var count := held[denom];
        var value := denom * count;
        SumValuePrefix(held, denominations, i);
        total := total + value;
        rows := rows + [Line(denom, count, value)];
        i := i + 1;
      }
      assert denominations[..i] == denominations;
      LinesTotalOfRows(held, denominations, rows);
    }
  }
}
