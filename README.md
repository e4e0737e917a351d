# ATM cash dispenser: a Dafny model

This project models the `ATM` class of a small cash machine. The class keeps an
inventory of bank notes: a map from denomination to note count, starting at
`{500: 20, 200: 20, 100: 20}`. It persists the inventory to a JSON state file.
Its operations are:

- **withdraw**. It validates the amount (positive, a multiple of 100), compares
  it with the total value held, and searches for a combination of notes. The
  search is a depth-first backtracking search over the denominations in
  descending order that tries the most notes first. On success it takes the
  planned notes out of the inventory in place and saves.
- **add_cash**. It raises the count of a denomination already held.
- **status**. It lists one row per denomination, largest first, plus the grand
  total.
- **load and save**. Loading replaces the inventory with the stored one, or
  writes the current one back when the file is missing or corrupt. Saving goes
  through a temporary file.

Two versions of the class are modelled. `atm_core.py` is modelled in module
`AtmCore`; `atm.py`, the older single-file copy, in module `AtmLegacy`. Both
classes have a `cash: map<int, int>` field and an abstract `file` field. Their
methods update those fields, and each ends in a contract that ties the new state
to a specification function of the old one.

The other modules hold those specification functions and the proofs about them:

- `Inventory`: the inventory, its descending key order (`Denominations`), its
  value (`Total`), and debit/credit.
- `Breakdown`: the search as a pure recursive function `Solve`, and `SolveFrom`,
  the same search as a recursive method with the descending loop. It also proves
  soundness, completeness, lexicographic maximality and absence of division by
  zero.
- `Withdrawal`: the errors and `Decide`, the outcome of a withdrawal.
- `Persistence`: the file as a value. Keys are written with `str` and read back
  with `int`. It also defines the load/save transitions.
- `Status`: the rows of the status views.

Stored denominations are not restricted. A state file can carry any integer key
and any integer count, so the search is modelled for all of them.

- A denomination 0 makes `target // 0` raise ZeroDivisionError. The model keeps
  this as its own outcome (`DivideByZero`, surfaced as `ZeroDivision`).
- A negative count makes `max_use` negative for every target, and a negative
  denomination does so for a positive target. The count range is then empty and
  that level finds nothing. With a negative denomination and a negative target,
  `target // denom` is non-negative and the level is searched as usual. For
  example, `-50 // -100 == 0` tries only a count of 0.

Completeness and maximality are proved for positive denominations; the
feasibility of a combination already bounds every count it uses by the stock.

Points where the code's behaviour is easy to misread:

- **Corrupt load.** A corrupt file keeps the *current* inventory and rewrites it,
  although the log message at atm_core.py:24 says "Resetting.". The class loads
  only at start-up, where the current inventory is `{500: 20, 200: 20, 100: 20}`,
  and the constructor's contract shows it.
- **What is checked.** Neither stored counts nor the `count` of `add_cash` are
  checked for sign. Only the withdrawal amount is checked, although the
  `InvalidAmountError` docstring (exceptions.py:10) speaks of negative amounts
  in general.
- **How a save replaces the file.** It removes the old file and then renames the
  new one into place; it is not one atomic replace. A failure in between leaves
  no state file (`FailsAfterRemove`).
- **Failed saves.** A failed save is logged and printed; it is not reported to
  the caller.

## Model

| member | source | states |
|---|---|---|
| `Inventory.SortDesc` | atm_core.py:58 | the keys sorted strictly descending, containing exactly the elements of the set |
| `Inventory.SortDescOf` | atm_core.py:58 | any strictly descending enumeration of a set is the one `SortDesc` produces, so the search order is determined by the keys alone |
| `Inventory.Denominations` | atm_core.py:58 | `sorted(cash.keys(), reverse=True)`: strictly descending, and every entry is a key of the inventory |
| `Inventory.Total` | atm_core.py:88 | `sum(k * v for k, v in self.cash.items())`; never negative while every denomination is positive and no count is negative |
| `Inventory.Debit` | atm_core.py:97-98 | the inventory after the plan is taken out: the same denominations, each count lowered by the plan's count for it |
| `Inventory.TotalDebit` | atm_core.py:88 | the total value after a debit is the old total minus the plan's value |
| `Inventory.TotalCredit` | atm_core.py:49 | adding `count` notes of a held denomination `d` raises the total value by exactly `d * count` |
| `Breakdown.FloorDiv` | atm_core.py:67 | Python's `//`: rounds toward negative infinity for either sign of the divisor |
| `Breakdown.Solve` | atm_core.py:60-77 | `solve(target, idx)` as a function; a found plan lists only denominations still to visit, each with a positive count |
| `Breakdown.TryCounts` | atm_core.py:69-77 | the descending count loop at one level as a function; a found plan lists only that level's and lower denominations, each with a positive count |
| `Breakdown.SolveFrom` | atm_core.py:60-77 | the recursive search with its descending count loop and early return computes exactly `Solve` on the remaining levels |
| `Breakdown.SolveSound` | atm_core.py:60-79 | a returned plan is worth exactly the target; it names only searched denominations that are held, each with a positive count no larger than the stock |
| `Breakdown.AttachDispensable` | atm_core.py:73-76 | recording a non-zero count of the current denomination on a plan for the rest gives a plan for the whole target; zero counts are left out |
| `Breakdown.SolveNeverDividesByZero` | atm_core.py:67 | with positive denominations, the `target // denom` step never divides by zero |
| `Breakdown.SolveComplete` | atm_core.py:67-77 | with positive denominations, whenever some combination bounded by the stock is worth the target, the search returns a plan |
| `Breakdown.SolveMaximal` | atm_core.py:69-76 | with positive denominations, the returned plan's count vector, in descending-denomination order, is lexicographically at least any feasible combination |
| `Breakdown.SolveFeasible` | atm_core.py:60-79 | with no negative stock, a returned plan read as a count vector is itself a feasible combination |
| `Breakdown.SolveCharacterised` | atm_core.py:56-79 | with positive denominations and no negative stock: no division by zero, a plan is found if and only if a feasible combination exists, and it is the lexicographically greatest one |
| `Withdrawal.Decide` | atm_core.py:83-94 | a successful withdrawal has a positive amount that is a multiple of 100, and a plan that is dispensable from the inventory |
| `Withdrawal.DispenseKeepsBooks` | atm_core.py:96-98 | after dispensing, the key set is unchanged, the total value drops by exactly the amount, and a count that was not negative does not become negative |
| `Withdrawal.WithdrawComplete` | atm_core.py:88-94 | with positive denominations, a valid amount that some bounded combination makes is always dispensed, with the lexicographically greatest plan |
| `Withdrawal.NoCombinationMeansInfeasible` | atm_core.py:93-94 | with positive denominations, "cannot dispense this amount" is reported only when no bounded combination makes the amount |
| `Withdrawal.WithdrawDeclaredErrors` | atm_core.py:81-94 | with positive denominations, a withdrawal fails only with the declared invalid-amount and insufficient-funds errors |
| `Withdrawal.InvalidAmountsRejected` | atm_core.py:83-86 | 0 and -100 are refused as not positive, 150 as not a multiple of 100 |
| `Withdrawal.DefaultTotal` | atm_core.py:88 | the total over the default denominations is `500*c500 + 200*c200 + 100*c100` |
| `Withdrawal.DecideFound` | atm_core.py:88-94 | a valid amount within the total that the search makes with a non-empty plan is dispensed as found |
| `Withdrawal.ThreeHundredFromSmallNotes` | atm_core.py:81-102 | with `{500:0, 200:1, 100:1}`, 300 is dispensed as `{200:1, 100:1}` |
| `Withdrawal.ThreeHundredFromOneFiveHundred` | atm_core.py:88-94 | with `{500:1, 200:0, 100:0}` the total is 500, yet 300 fails with no combination |
| `Persistence.ParseIntOfIntToString` | atm_core.py:22 | `int(str(k)) == k` for every integer key |
| `Persistence.ParseInt` | atm_core.py:22 | `int(k)` on a key: a plain digit string is read as its decimal value |
| `Persistence.ParseIntStripsSpace` | atm_core.py:22 | `int` strips surrounding ASCII whitespace (vertical tab included) before reading the sign and digits; it rejects inner whitespace and a leading U+001C separator |
| `Persistence.IntToString` | atm_core.py:35 | `str(k)`, the key text `json.dump` writes: non-empty, a minus sign exactly for a negative key, then decimal digits |
| `Persistence.Encode` | atm_core.py:35 | the saved document holds one item per denomination, largest first, keyed by the denomination's decimal text and holding its count |
| `Persistence.Decode` | atm_core.py:22 | the conversion `{int(k): v for k, v in data.items()}` succeeds exactly when every key converts; one rejected key anywhere makes it fail |
| `Persistence.AfterSave` | atm_core.py:30-42 | a save leaves the new document, the old file, or no file, never anything else; without a fault it leaves the new document |
| `Persistence.Load` | atm_core.py:13-28 | a load either keeps the current inventory or adopts the one decoded from the file; the file is either kept or rewritten with the current inventory, and it is kept whenever the inventory changes |
| `Persistence.NatToStringDigits` | atm_core.py:35 | the decimal text of a natural number is a non-empty digit string whose value is that number |
| `Persistence.DecodeEncode` | atm_core.py:22 | converting the saved document's keys back with `int` reproduces the inventory exactly |
| `Persistence.DecodeKeys` | atm_core.py:22 | a successful conversion holds exactly the converted keys of the document |
| `Persistence.LoadAfterSave` | atm_core.py:13-42 | after a successful save, a load restores exactly the saved inventory, whatever was held before, and leaves the file alone |
| `Persistence.LoadCorruptKeepsInventory` | atm_core.py:23-26 | a file that is not JSON, or has a key `int` rejects, leaves the inventory as it was and rewrites the file with it |
| `Status.Row` | atm_core.py:111-113 | the row of a denomination holds its count, and its value is denomination times count |
| `Status.LinesTotalOfRows` | atm_core.py:110-114 | the sum of the value column of the rows equals the value of the inventory over those denominations |
| `Status.RowsInOrder` | atm_core.py:110 | the rows run from the largest denomination down, and every denomination held has a row |
| `AtmCore.AddedMessage` | atm_core.py:52 | the admin message starts with "Admin added " and ends with the denomination's decimal text |
| `AtmCore.ATM.constructor` | atm_core.py:7-11 | the machine starts from the defaults and then loads the state file |
| `AtmCore.ATM.LoadState` | atm_core.py:13-28 | the new inventory and file are those of `Load` on the old ones: stored map on a good file; current map written back on a missing or corrupt one; nothing changed when unreadable |
| `AtmCore.ATM.SaveState` | atm_core.py:30-42 | the file holds the encoded inventory; or, if the save fails, it is kept (failure before the old file is removed) or absent (failure after) |
| `AtmCore.ATM.AddCash` | atm_core.py:44-54 | an unknown denomination raises and changes nothing; otherwise only that count rises by `count`, the state is saved and the admin message is returned |
| `AtmCore.ATM.GetBreakdown` | atm_core.py:56-79 | the result is the search over the denominations held, largest first |
| `AtmCore.ATM.Withdraw` | atm_core.py:81-102 | the result is `Decide` on the old inventory; on an error nothing changes; on success the inventory is the old one debited by the plan, and the file is the save of it |
| `AtmCore.ATM.Dispense` | atm_core.py:97-98 | the per-key decrement loop leaves exactly the debited inventory |
| `AtmCore.ATM.StatusReport` | atm_core.py:104-115 | one row per denomination in descending order, each with its count and `denom * count`; the total is the sum of the value column and equals the total value held |
| `AtmLegacy.ATM.constructor` | atm.py:26-30 | the machine starts from the defaults and then loads the state file |
| `AtmLegacy.ATM.LoadState` | atm.py:32-49 | as in atm_core.py: stored map on a good file; current map written back on a missing or corrupt one; nothing changed when unreadable |
| `AtmLegacy.ATM.SaveState` | atm.py:51-65 | the file holds the encoded inventory; or it is kept or absent, depending on where the save fails |
| `AtmLegacy.ATM.AddCash` | atm.py:67-75 | an unknown denomination is ignored: no change and no save; otherwise only that count rises by `count` and the state is saved |
| `AtmLegacy.ATM.GetBreakdown` | atm.py:77-102 | the result is the search over the denominations held, largest first |
| `AtmLegacy.ATM.Withdraw` | atm.py:104-130 | the result is `Decide` on the old inventory; on an error, re-raised, nothing changes; on success the inventory is debited by the plan and saved |
| `AtmLegacy.ATM.Dispense` | atm.py:121-122 | the per-key decrement loop leaves exactly the debited inventory |
| `AtmLegacy.ATM.DisplayStatus` | atm.py:132-141 | the printed rows are one per denomination in descending order with `denom * count`; the printed total is their sum and equals the total value held |

## Left out

- User interface: `main.py` and `main()` in atm.py (menu, `input`, `isdigit`) are not part of this model.
- Logging and printing: `error_handling.py`, every log call and every `print`. These are output only and change no state.
- The exception classes appear only as constructors of the `Error` datatype. The model does not carry the exceptions' message texts.
- Real file I/O becomes the `FileState` value and an `IoFault` parameter; the caller chooses where a save fails. This covers the existence test, `open`, `json.dump`/`json.load`, the temporary file, remove and rename. The state file path is not modelled.
- JSON documents whose values are not integers, and JSON that is not an object (where `data.items()` raises AttributeError), cannot be written as a `FileState`.
- `int` on keys handles ASCII whitespace (space, tab, line feed, vertical tab, form feed, carriage return; not the separators U+001C to U+001F), an optional sign and ASCII digits. Underscores between digits and non-ASCII digits or whitespace are not modelled.
- Persistence.ParseInt: assumes `int` has no digit limit. From Python 3.11 on, `int` raises ValueError on a string of more than `sys.get_int_max_str_digits()` digits (4300 by default), so such a key takes the corrupt-file path. Persistence.IntToString also assumes no limit; for such a key `json.dump` in `save_state` raises a ValueError that `except IOError` does not catch.
- Key order works differently. Saving writes keys in descending order, while `json.dump` follows the dict's insertion order. A `Document`'s items are `data.items()` after `json.load` has already merged items with the same key string. Two different strings that `int` maps to the same key, such as `"100"` and `" 100"`, are kept apart, and the later item wins. The order changes nothing about which inventory loads back.
- The decrement loop in `withdraw` visits the plan's keys in an unspecified order, not the dict's insertion order. Each key is touched once, so the result is the same.
- Concurrency: the code has none.
- Breakdown.SolveComplete, Breakdown.SolveMaximal, Breakdown.SolveCharacterised, Withdrawal.WithdrawComplete, Withdrawal.NoCombinationMeansInfeasible, Withdrawal.WithdrawDeclaredErrors: these are proved only for positive denominations, because without them they are false. With a zero key the search raises, and with a negative key and a positive target that level finds nothing, whatever the combinations.
