# ynam core in Dafny

ynam is a personal budgeting tool. It imports bank transactions and allocates a
month's "To Be Budgeted" (TBB) pool to categories. Unspent money rolls over into the
next month. Reports compare spending with budgets. This project models ynam's pure
core as Dafny functions, methods and lemmas, and proves the properties that core
promises.

The modules follow the Python files:

- `Budget` (`budget.dfy`) models `ynam/domain/budget.py`.
  - The four allocation operations: set, add, remove and transfer.
  - The older change and transfer helpers, and the two validators.
  - Month-to-month rollover, the budget summary and the per-month budget status.
  - Laws relating these: conservation over any run of operations, how two operations combine, and agreement between the duplicated helpers.
- `Report` (`report.dfy`) models `ynam/domain/report.py`.
  - Splits a breakdown into expenses and income and sorts each side.
  - Builds report rows with budget percentages, the expense, income and full reports, and the histogram bar length.
- `Transactions` (`transactions.dfy`) models the transaction helpers of `ynam/domain/transactions.py`.
  - Description normalisation and the duplicate lookup.
  - CSV header detection, CSV row parsing and Starling API row parsing.
- `Dates` (`dates.dfy`) models `month_range` of `ynam/dates.py`.
  - `strptime("%Y-%m")`, the `day=28 + 4 days` step to the next month, and the ISO and label formatting.
- `Config` (`config.dfy`) models the list logic of `get_source` and `add_source` in `ynam/config.py`.
- Shared support:
  - `Wrappers` (`wrappers.dfy`) holds `Option`.
  - `Strings` (`strings.dfy`) holds Python `str` ordering, `lower`, `strip`, `split`, `" ".join` and `in`, all on ASCII.
  - `Dicts` (`dicts.dfy`) models a `dict` as its sequence of items in insertion order. It provides `get`, `sum(values())` and permutation facts.
  - `Sorting` (`sorting.dfy`) models `sorted` by name, by amount and by amount reversed. The model is a stable insertion sort, proved to give an ordered permutation.

Conventions:

- Money is an unbounded `int` of pence, as in Python.
- Each operation that returns the source's `(a, b, error_or_None)` triple returns an `Outcome`. Its error is a `BudgetError` tag whose `Message` is the fixed start of the source's message.
- A `dict` is a sequence of items. Properties that depend on keys being distinct take `DistinctKeys` as a hypothesis. The operations themselves accept any sequence.

## Model

| member | source | states |
|---|---|---|
| Budget.CalculateRemainingTbb | ynam/domain/budget.py:84-95 | remaining plus the sum of all allocations is the TBB |
| Budget.SpentAgainstBudget | ynam/domain/budget.py:108 | only spending (a negative figure) counts; the amount counted is never negative and is either 0 or the size of the spending |
| Budget.CalculateCategoryAvailable | ynam/domain/budget.py:98-109 | available never exceeds the allocation; it equals the allocation exactly when nothing was spent; otherwise it is the allocation less the spending |
| Budget.CalculateRollover | ynam/domain/budget.py:112-141 | every entry has money left (available > 0); its spent figure is the category's spending, 0 when absent; its available follows the category rule; there are never more entries than budget items (which items appear, and in what order, is stated by Budget.RolloverSelection) |
| Budget.RolloverSelection | ynam/domain/budget.py:126-139 | the entries are, in budget order, exactly the budget items at the positions where money is left, each with that item's name and allocation |
| Budget.RolloverTotal | ynam/domain/budget.py:160-161 | the rollover total equals the sum over all items of their available amount, overspent items counting 0, and it is never negative |
| Budget.CalculateRolloverSummary | ynam/domain/budget.py:144-169 | the next month's pool is the base plus that total, so it never falls below the base; the allocations are handed back unchanged |
| Budget.NothingLeftNothingRolls | ynam/domain/budget.py:130-141 | when every category is overspent or exactly spent, nothing rolls over and the new TBB is the base |
| Budget.ValidateAllocationFromTbb | ynam/domain/budget.py:172-191 | valid exactly when 0 < amount ≤ remaining; the error is "Amount must be positive" exactly for amount ≤ 0 and "Not enough TBB" exactly for a positive amount above the remaining pool |
| Budget.ValidateAllocationFromCategory | ynam/domain/budget.py:194-213 | valid exactly when 0 < amount ≤ allocation, with the corresponding two error cases |
| Budget.CalculateNewAllocation | ynam/domain/budget.py:216-247 | a zero change is a no-op; a positive change succeeds exactly when the pool covers it; a negative change succeeds exactly when the allocation covers it; a failure leaves both figures unchanged; allocation plus pool is always conserved |
| Budget.CalculateBudgetTransfer | ynam/domain/budget.py:250-279 | fails with "Amount must be positive" or "Not enough allocated" exactly in those cases, unchanged; succeeds exactly for 0 < amount ≤ source; the sum of the two allocations is conserved |
| Budget.CreateBudgetSummary | ynam/domain/budget.py:282-303 | the total allocated is the sum of the allocations; total plus remaining is the TBB |
| Budget.CalculateSetBudget | ynam/domain/budget.py:306-334 | a negative target is rejected; an increase beyond the pool is rejected; a failure leaves both figures unchanged; success sets the allocation to the target, conserves allocation plus pool, and an increase never drives the pool negative; setting to 0 returns the whole allocation to the pool |
| Budget.CalculateAddToBudget | ynam/domain/budget.py:337-365 | succeeds exactly for 0 < amount ≤ remaining, with the two errors otherwise and nothing changed; on success the allocation grows and the pool shrinks by the amount, and the pool stays ≥ 0 |
| Budget.CalculateRemoveFromBudget | ynam/domain/budget.py:368-396 | succeeds exactly for 0 < amount ≤ allocation; on success the allocation stays ≥ 0 and the pool grows by exactly the amount |
| Budget.CalculateTransfer | ynam/domain/budget.py:399-427 | succeeds exactly for 0 < amount ≤ source allocation; the source stays ≥ 0 and the sum of the two allocations is conserved, whether it succeeds or not |
| Budget.ComputeBudgetStatus | ynam/domain/budget.py:430-470 | totals agree with the summary; the rows are a permutation of the budget items, sorted by name; each row's spent is the size of the category's spending, and its available is the allocation less that |
| Budget.BudgetStatusCategories | ynam/domain/budget.py:451-463 | for a real dict, the row names strictly increase; a name has a row exactly when it has a budget; the rows' allocations add up to the total allocated |
| Budget.ValidationMatchesOperations | ynam/domain/budget.py:172-213 | the TBB validator accepts exactly what Add accepts, with the same error; the category validator accepts exactly what Remove accepts |
| Budget.NewAllocationMatchesAddRemove | ynam/domain/budget.py:216-247 | a positive change behaves as Add of that amount and a negative one as Remove of its size |
| Budget.TransfersAgree | ynam/domain/budget.py:250-279 | the two transfer functions move the same money and fail on the same inputs |
| Budget.AddsCombine | ynam/domain/budget.py:337-365 | two successful Adds equal one Add of the total |
| Budget.RemovesCombine | ynam/domain/budget.py:368-396 | two successful Removes equal one Remove of the total |
| Budget.TransfersCombine | ynam/domain/budget.py:399-427 | two successful transfers between the same pair of categories equal one transfer of the total |
| Budget.SetsCombine | ynam/domain/budget.py:306-334 | two successful Sets equal one Set to the second target: the last target wins, with the same pool |
| Budget.RemainingTbbAgrees | ynam/domain/budget.py:84-95 | the remaining pool computed by the summary and by the status both equal `calculate_remaining_tbb`, and both report the same total allocated |
| Budget.Conservation | ynam/domain/budget.py:306-396 | any run of Set, Add and Remove on one category, each step successful or not, keeps allocation plus pool fixed and never makes a non-negative allocation or pool negative |
| Budget.SetAndAddExamples | tests/domain/test_budget.py:16-161 | the tests' figures for set, add, remove and transfer |
| Budget.StatusExample | tests/domain/test_budget.py:201-231 | the tests' two-category status: totals, rows sorted by name, spent and available |
| Budget.RolloverExample | ynam/domain/budget.py:144-169 | a category with 80.00 left of 200.00 rolls it over into a pool of 50.00, giving 130.00 |
| Report.CalculateBudgetPercentage | ynam/domain/report.py:53-65 | 0 for a budget that is not positive; otherwise the percentage times the budget is 100 times the size of the amount, so it exceeds 100 exactly when the amount exceeds the budget and equals 100 exactly when they are equal |
| Report.CreateCategoryReport | ynam/domain/report.py:68-92 | echoes category, amount and budget; a percentage is present exactly when the budget is present and positive, and it is then the budget percentage |
| Report.SplitExpensesAndIncome | ynam/domain/report.py:95-108 | an item is an expense exactly when it is in the breakdown with a negative amount, and income exactly when its amount is positive; zero items are on neither side |
| Report.SplitSum | ynam/domain/report.py:95-108 | expenses and income together sum to the whole breakdown |
| Report.SplitDistinct | ynam/domain/report.py:106-107 | both sides of a real dict's split have distinct keys |
| Report.SortExpenses | ynam/domain/report.py:111-127 | a permutation of the expenses, ordered by name for "alpha" and by amount otherwise |
| Report.SortIncome | ynam/domain/report.py:130-146 | a permutation of the income, ordered by name for "alpha" and by amount from largest otherwise |
| Report.AlphaOrderDetermined | ynam/domain/report.py:124-125 | for a real dict the name order is unique, so any name-ordered listing of the items is the one returned |
| Report.BudgetLookupPermutation | ynam/domain/report.py:166-169 | looking up each category's budget gives the same multiset whatever order the categories are in |
| Report.CreateExpenseReport | ynam/domain/report.py:149-175 | the rows show exactly the expenses, in the requested order, each with its category's budget; the total is the sum of the expenses (≤ 0 when all are expenses); the budget total equals the sum of the rows' budget column, missing budgets counting 0 |
| Report.CreateIncomeReport | ynam/domain/report.py:178-200 | the rows show exactly the income, in the requested order, without budget or percentage; the total is their sum (≥ 0 when all are income) |
| Report.CreateFullReport | ynam/domain/report.py:203-229 | expense rows are exactly the negative items, income rows exactly the positive ones; each section is ordered by `sortBy` as its own report orders it; every expense row carries its category's budget and percentage, income rows carry none, and the expense total budget is the sum of the row budgets; the net is the sum of the breakdown and equals expense total plus income total |
| Report.FullReportRowsDistinct | ynam/domain/report.py:203-229 | for a real dict each category appears in at most one row on each side |
| Report.CalculateHistogramBarLength | ynam/domain/report.py:232-249 | 0 when the maximum is not positive; otherwise the bar is the quotient truncated toward zero: `r·max ≤ |amount|·width < (r+1)·max` for a non-negative width, mirrored for a negative one |
| Report.HistogramBounded | ynam/domain/report.py:232-249 | an amount within the maximum never gets a bar longer than the width, and a larger amount never gets a shorter bar |
| Transactions.NormalizeDescription | ynam/domain/transactions.py:65-74 | the result has no capital letters, no leading, trailing or repeated whitespace, and only single spaces; its words are the words of the lowered input |
| Transactions.NormalizeIdempotent | ynam/domain/transactions.py:65-74 | normalising twice is normalising once |
| Transactions.NormalizeIgnoresCaseAndSpacing | ynam/domain/transactions.py:65-74 | descriptions with the same lowered words normalise alike |
| Transactions.IsDuplicateTransaction | ynam/domain/transactions.py:193-214 | a duplicate is reported exactly when some existing row matches on date, description and amount; an id is given exactly then, and it is the id of the first matching row |
| Transactions.AnalyzeCsvColumns | ynam/domain/transactions.py:320-350 | each field maps to the first header that names it, compared case-insensitively and returned in its original case, or to "" when none does; "date" for the date, "merchant" with "name" or "description" for the description, "amount" without "currency" for the amount |
| Transactions.DetectedNonEmpty | ynam/domain/transactions.py:338-348 | a header that names a field is never empty, so a mapping once found is kept |
| Transactions.ParseCsvTransaction | ynam/domain/transactions.py:353-385 | no transaction exactly when the stripped date or amount cell is blank, missing or unparsable; otherwise the date is the first 10 characters of the stripped cell, the description is the stripped cell or "Unknown", and the amount is the parsed pence made non-positive |
| Transactions.ParseCells | ynam/domain/transactions.py:363-385 | the same decision on the three stripped cells: nothing exactly when the date or amount cell is empty or the amount does not parse; otherwise the cut date, the description or "Unknown", and the non-positive amount |
| Transactions.CsvSignIgnored | ynam/domain/transactions.py:377-385 | with the same date and description cells, an amount cell and one that parses to its negation import as the same expense |
| Transactions.ParseApiTransaction | ynam/domain/transactions.py:270-286 | the date is the first 10 characters of the timestamp; the description is the counterparty or "Unknown"; the amount is negated exactly when the direction is "OUT" |
| Transactions.ApiDirectionSign | ynam/domain/transactions.py:283-284 | with unsigned minor units, an outgoing payment is negative and anything else is non-negative |
| Dates.ParseMonth | ynam/dates.py:23 | an accepted month has a year in 1..9999 and a month in 1..12 |
| Dates.ParseFormatMonth | ynam/dates.py:23 | every canonical `YYYY-MM` parses back to its month |
| Dates.ParsedIsCanonical | ynam/dates.py:23 | the parser accepts only the canonical spelling, plus the unpadded spelling of months 1 to 9 |
| Dates.ValueOfDigits | ynam/dates.py:23-26 | reading back a zero-padded numeral gives its number |
| Dates.DigitsOfValue | ynam/dates.py:23 | a digit string is the zero-padded numeral of its value |
| Dates.DigitsOrder | ynam/dates.py:24-26 | numerals of one width compare as strings in the order of their numbers |
| Dates.Day28Step | ynam/dates.py:25 | the 28th plus four days lands on day 32 − (days in month) of the next month, for every month length and leap year; December rolls to January of the next year; only December 9999 overflows |
| Dates.MonthRange | ynam/dates.py:11-28 | fails with a ValueError exactly on input the parser rejects, and with an OverflowError exactly for December 9999; otherwise since is the 1st of the month, until is the 1st of the next month, and the label is the English month name, a space and the year |
| Dates.SinceBeforeUntil | ynam/dates.py:23-26 | since < until as strings, so the pair bounds a non-empty half-open range |
| Dates.FirstDaysOrdered | ynam/dates.py:24-26 | ISO first-of-month dates compare as strings in calendar order |
| Dates.MonthsTile | ynam/dates.py:23-26 | one month's until is the next month's since |
| Dates.DecemberExample | tests/test_dates.py:20-26 | December 2025 runs to 2026-01-01 |
| Dates.LeapFebruaryExample | tests/test_dates.py:36-42 | February 2024 runs to 2024-03-01 |
| Dates.MonthThirteenExample | tests/test_dates.py:87-90 | "2025-13" is rejected |
| Config.GetSource | ynam/config.py:84-101 | nothing is found exactly when no table has that name; otherwise the first such table is returned, and entries that are not tables are skipped |
| Config.StopIndex | ynam/config.py:116-119 | the scan passes only tables with other names and stops at the first entry that has the name or is not a table |
| Config.AddSource | ynam/config.py:104-124 | an error exactly when the scan stops at an entry that is not a table; otherwise the first table with the same name is replaced in place, or the source is appended when there is none |
| Config.AddSourceShape | ynam/config.py:116-121 | the length is unchanged exactly when a table had the name and grows by one exactly when none had it; every other entry keeps its value and position |
| Config.GetAfterAdd | ynam/config.py:84-124 | after adding a source, looking up its name finds it |
| Config.AddSourceIdempotent | ynam/config.py:116-121 | adding the same source twice gives the list that adding it once gives |
| Strings.StripSpec | ynam/domain/transactions.py:364 | the result occurs in the input, has no surrounding whitespace, and is empty exactly when the input is all whitespace |
| Strings.WordsOfJoin | ynam/domain/transactions.py:74 | splitting what was joined with single spaces gives back the words |
| Strings.JoinSingleSpaced | ynam/domain/transactions.py:74 | joining words with a space gives single-spaced text |
| Strings.LessTotal | ynam/domain/report.py:125 | string order is total |
| Strings.LessTransitive | ynam/domain/report.py:125 | string order is transitive |
| Sorting.Sort | ynam/domain/report.py:125-127 | the result is ordered by the key and is a permutation of the input |
| Sorting.SortedByNameUnique | ynam/domain/budget.py:450 | two name-ordered permutations of a dict with distinct keys are equal |
| Dicts.GetFindsFirst | ynam/domain/budget.py:128 | `get` returns the value of the first item with the key |
| Dicts.GetOfItem | ynam/domain/budget.py:451 | with distinct keys, looking up any item's key finds that item's value |
| Dicts.SumPermutation | ynam/domain/report.py:168-169 | a sum of values does not depend on the order of the items |
| Dicts.SumSign | ynam/domain/report.py:168 | a sum of non-positive values is non-positive, and a sum of non-negative values is non-negative |

## Left out

- Reading and writing files: TOML configuration I/O, the database, the CLI and the interactive commands. Configuration is passed in and handed back as values.
- Network access: the Starling client. `parse_api_transaction` takes the already-decoded feed item.
- Floating point. The model is exact where the source computes in floats, as the rows below say.
- Error messages: the amounts the source prints in pounds inside its error messages are left out. The model keeps the error's kind and the fixed start of its message.
- Report.CalculateBudgetPercentage: an exact rational, not an IEEE double. The double can round the last digit, so a comparison with exactly 100 may differ.
- Report.CalculateHistogramBarLength: computed as an exact quotient truncated toward zero. The source multiplies a float quotient by the width before `int()`. That can land one character short (29/100·100 gives 28.999…).
- Transactions.ParseCsvTransaction: the text-to-pence conversion `int(float(text) * 100)` is a parameter. It gives None where the source catches `ValueError`. An `OverflowError` from `int()` on an infinite float ("inf", "1e400") escapes the source's `except ValueError`; the parameter cannot express it.
- Transactions.ParseApiTransaction: the amount is taken as an integer. The source's `int()` conversion of the JSON field, and a missing timestamp or amount, which raise `KeyError`, are outside the model. A `counterPartyName` present with a JSON null makes the source return `None` as the description, since `get` only defaults a missing key; the model's `Option<string>` field cannot express a present null, so that case is not modelled.
- `str.lower`, `str.strip` and `str.split` are modelled on ASCII only. Python applies Unicode case mapping and Unicode whitespace.
- Dates.ParseMonth: `\d` in Python's `strptime` also matches non-ASCII decimal digits. The model accepts ASCII digits only.
- Dates.MonthRange: `%Y` is modelled as four zero-padded digits. glibc's `strftime` prints years below 1000 without padding. `%B` is the English month name of the C locale; another locale would change the label.
- Report.SortExpenses and Report.SortIncome: the contracts state sortedness and permutation but not stability among equal amounts. The model sorts stably, as Python does, but that is not proved. With distinct names the alphabetical order is unique (`Report.AlphaOrderDetermined`).
- Similarity scoring, best-category matching, ignore and allocate patterns, and automatic categorisation: these depend on Python's `re` and floats.
- `format_money_display` and `parse_csv_row`: they format and parse floats.
- Budget.CalculateNewAllocation and Budget.CalculateBudgetTransfer: the category-name parameters only feed the source's messages and are not parameters here.
- Config.GetSource and Config.AddSource: a non-string `name` value is not modelled. A missing `name` is `None`. The `sources` key defaulting to an empty list is the caller's empty sequence.
