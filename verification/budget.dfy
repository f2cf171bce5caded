/** The budget allocation engine of `ynam/domain/budget.py`: the four allocation
    operations on one category and the remaining "To Be Budgeted" (TBB) pool, the
    older change/transfer helpers, month-to-month rollover of unspent allocations and
    the per-month budget status. Every operation is a pure function of its inputs. */
module Budget {
  import opened Wrappers
  import opened Dicts
  import Sorting
  import Strings

  /** An amount in pence. */
  type Money = int

  type CategoryName = string

  // ---------------------------------------------------------------------------
  // Outcomes of the allocation operations

  /** The validation failures. The source's messages go on to print the amounts
      involved in pounds; the model keeps the fixed wording callers look for. */
  datatype BudgetError =
    | AmountNotPositive
    | NotEnoughTbb
    | NotEnoughAllocated
    | CannotRemoveMore
    | CannotTransferMore

  function Message(e: BudgetError): (m: string)
    ensures |m| > 0
  {
    match e
    case AmountNotPositive => "Amount must be positive"
    case NotEnoughTbb => "Not enough TBB"
    case NotEnoughAllocated => "Not enough allocated"
    case CannotRemoveMore => "Can't remove more than allocated"
    case CannotTransferMore => "Can't transfer more than allocated"
  }

  /** The `(new_a, new_b, error_or_None)` triple every allocation operation returns. */
  datatype Outcome = Outcome(first: Money, second: Money, error: Option<BudgetError>) {
    predicate Succeeded() {
      error.None?
    }
  }

  /** A failed operation hands back its two inputs unchanged. */
  predicate Unchanged(o: Outcome, a: Money, b: Money) {
    o.first == a && o.second == b
  }

  // ---------------------------------------------------------------------------
  // Totals

  /** `calculate_remaining_tbb`: the part of the pool not allocated to any category;
      negative when the month is over-allocated. */
  function CalculateRemainingTbb(tbb: Money, allocations: Dict<Money>): (r: Money)
    ensures r + Sum(allocations) == tbb
  {
    tbb - Sum(allocations)
  }

  /** How much of a signed spending figure counts against a budget: expenses are
      negative, and income or no activity counts as nothing spent. */
  function SpentAgainstBudget(spent: Money): (r: Money)
    ensures r >= 0
    ensures r >= -spent
    ensures r == 0 || r == -spent
  {
    if spent < 0 then -spent else 0
  }

  /** `calculate_category_available`: the allocation less what was spent against it. */
  function CalculateCategoryAvailable(allocation: Money, spent: Money): (r: Money)
    ensures r <= allocation
    ensures r == allocation <==> spent >= 0
    ensures spent < 0 ==> r == allocation + spent
  {
    allocation - SpentAgainstBudget(spent)
  }

  // ---------------------------------------------------------------------------
  // Rollover

  datatype CategoryRollover = CategoryRollover(
    category: CategoryName, allocation: Money, spent: Money, available: Money)

  /** What a budget item has left once the month's spending is taken off; a category
      with no spending recorded has spent nothing. */
  function ItemAvailable(item: (CategoryName, Money), spending: Dict<Money>): Money {
    CalculateCategoryAvailable(item.1, GetOr(spending, item.0, 0))
  }

  /** The rollover entry a budget item would produce. */
  function RolloverEntry(item: (CategoryName, Money), spending: Dict<Money>): CategoryRollover {
    var spent := GetOr(spending, item.0, 0);
    CategoryRollover(item.0, item.1, spent, CalculateCategoryAvailable(item.1, spent))
  }

  /** `calculate_rollover`: one entry per budget item that has money left, in budget
      order. Overspent and exactly spent categories carry nothing. */
  function CalculateRollover(budgets: Dict<Money>, spending: Dict<Money>): (r: seq<CategoryRollover>)
    ensures |r| <= |budgets|
    ensures forall k :: 0 <= k < |r| ==>
      && r[k].available > 0
      && r[k].spent == GetOr(spending, r[k].category, 0)
      && r[k].available == CalculateCategoryAvailable(r[k].allocation, r[k].spent)
  {
    if |budgets| == 0 then []
    else
      var rest := CalculateRollover(budgets[1..], spending);
      var entry := RolloverEntry(budgets[0], spending);
      if entry.available > 0 then [entry] + rest else rest
  }

  /** Sum of the `available` amounts of a list of rollover entries. */
  function SumAvailable(rs: seq<CategoryRollover>): Money {
    if |rs| == 0 then 0 else rs[0].available + SumAvailable(rs[1..])
  }

  /** Sum over all budget items of what each has left, counting an overspent item as
      zero: an independent statement of the pool that rollover returns. */
  function PositiveAvailable(budgets: Dict<Money>, spending: Dict<Money>): Money {
    if |budgets| == 0 then 0
    else
      var a := ItemAvailable(budgets[0], spending);
      (if a > 0 then a else 0) + PositiveAvailable(budgets[1..], spending)
  }

  datatype RolloverSummary = RolloverSummary(
    baseTbb: Money, totalRollover: Money, newTbb: Money,
    rollovers: seq<CategoryRollover>, allocations: Dict<Money>)

  /** `calculate_rollover_summary`: the next month's pool is this month's base plus
      everything left unspent; the allocations are handed back for copying. */
  function CalculateRolloverSummary(baseTbb: Money, budgets: Dict<Money>, spending: Dict<Money>): (r: RolloverSummary)
    ensures r.baseTbb == baseTbb && r.allocations == budgets
    ensures r.rollovers == CalculateRollover(budgets, spending)
    ensures r.totalRollover == PositiveAvailable(budgets, spending)
    ensures r.totalRollover >= 0
    ensures r.newTbb == baseTbb + r.totalRollover
    ensures r.newTbb >= baseTbb
  {
    var rollovers := CalculateRollover(budgets, spending);
    var total := SumAvailable(rollovers);
    RolloverTotal(budgets, spending);
    RolloverSummary(baseTbb, total, baseTbb + total, rollovers, budgets)
  }

  /** The rollover entries' total is the sum of what every item has left, overspent
      items counting zero, and so is never negative. */
  lemma {:induction false} RolloverTotal(budgets: Dict<Money>, spending: Dict<Money>)
    ensures SumAvailable(CalculateRollover(budgets, spending)) == PositiveAvailable(budgets, spending)
    ensures PositiveAvailable(budgets, spending) >= 0
    decreases |budgets|
  {
    if |budgets| > 0 {
      RolloverTotal(budgets[1..], spending);
      var entry := RolloverEntry(budgets[0], spending);
      var rest := CalculateRollover(budgets[1..], spending);
      if entry.available > 0 {
        assert ([entry] + rest)[1..] == rest;
      }
    }
  }

  /** For each budget item, whether it has money left. */
  function MoneyLeft(budgets: Dict<Money>, spending: Dict<Money>): (r: seq<bool>)
    ensures |r| == |budgets|
    ensures forall i :: 0 <= i < |budgets| ==> (r[i] <==> ItemAvailable(budgets[i], spending) > 0)
  {
    seq(|budgets|, i requires 0 <= i < |budgets| => ItemAvailable(budgets[i], spending) > 0)
  }

  /** The positions at which `flags` holds, in increasing order. */
  function Positions(flags: seq<bool>): seq<nat> {
    if |flags| == 0 then []
    else
      var rest := Shift(Positions(flags[1..]));
      if flags[0] then [0] + rest else rest
  }

  function Shift(s: seq<nat>): (r: seq<nat>)
    ensures |r| == |s| && forall k :: 0 <= k < |s| ==> r[k] == s[k] + 1
  {
    seq(|s|, k requires 0 <= k < |s| => s[k] + 1)
  }

  /** `idx` lists, in increasing order, exactly the places where `flags` holds. */
  ghost predicate ListsExactly(idx: seq<nat>, flags: seq<bool>) {
    && (forall k :: 0 <= k < |idx| ==> idx[k] < |flags| && flags[idx[k]])
    && (forall k, l :: 0 <= k < l < |idx| ==> idx[k] < idx[l])
    && (forall i :: 0 <= i < |flags| && flags[i] ==> i in idx)
  }

  /** `Positions` lists, in increasing order, exactly the places where the flag holds. */
  lemma {:induction false} PositionsExact(flags: seq<bool>)
    ensures ListsExactly(Positions(flags), flags)
    decreases |flags|
  {
    if |flags| > 0 {
      PositionsExact(flags[1..]);
      ShiftListsExactly(flags, Positions(flags[1..]));
      var shifted := Shift(Positions(flags[1..]));
      if flags[0] {
        PrependZero(flags, shifted);
      }
    }
  }

  /** Shifting the positions found in the tail gives the positions in the whole
      list after the first. */
  lemma ShiftListsExactly(flags: seq<bool>, t: seq<nat>)
    requires |flags| > 0 && ListsExactly(t, flags[1..])
    ensures var s := Shift(t);
      && (forall k :: 0 <= k < |s| ==> 1 <= s[k] < |flags| && flags[s[k]])
      && (forall k, l :: 0 <= k < l < |s| ==> s[k] < s[l])
      && (forall i :: 1 <= i < |flags| && flags[i] ==> i in s)
  {
    var s := Shift(t);
    forall k | 0 <= k < |s| ensures 1 <= s[k] < |flags| && flags[s[k]] {
      assert flags[s[k]] == flags[1..][t[k]];
    }
    forall i | 1 <= i < |flags| && flags[i] ensures i in s {
      assert flags[1..][i - 1] == flags[i];
      var k :| 0 <= k < |t| && t[k] == i - 1;
      assert s[k] == i;
    }
  }

  lemma PrependZero(flags: seq<bool>, s: seq<nat>)
    requires |flags| > 0 && flags[0]
    requires forall k :: 0 <= k < |s| ==> 1 <= s[k] < |flags| && flags[s[k]]
    requires forall k, l :: 0 <= k < l < |s| ==> s[k] < s[l]
    requires forall i :: 1 <= i < |flags| && flags[i] ==> i in s
    ensures ListsExactly([0] + s, flags)
  {
    var idx := [0] + s;
    forall k, l | 0 <= k < l < |idx| ensures idx[k] < idx[l] {
      if k > 0 {
        assert idx[k] == s[k - 1];
      }
      assert idx[l] == s[l - 1];
    }
    forall k | 0 <= k < |idx| ensures idx[k] < |flags| && flags[idx[k]] {
      if k > 0 {
        assert idx[k] == s[k - 1];
      }
    }
  }

  /** The rollover list is exactly the budget items with money left, in budget order:
      its entries come, one each, from the items at the positions where money is left
      (which `PositionsExact` characterises), and each entry carries its item's name
      and allocation; the other fields are fixed by `CalculateRollover`'s contract. */
  lemma {:induction false} RolloverSelection(budgets: Dict<Money>, spending: Dict<Money>)
    ensures var r := CalculateRollover(budgets, spending);
      var idx := Positions(MoneyLeft(budgets, spending));
      && |idx| == |r|
      && forall k :: 0 <= k < |idx| ==> idx[k] < |budgets| && (r[k].category, r[k].allocation) == budgets[idx[k]]
    decreases |budgets|
  {
    if |budgets| > 0 {
      var tail := budgets[1..];
      RolloverSelection(tail, spending);
      assert MoneyLeft(budgets, spending)[1..] == MoneyLeft(tail, spending);
      var tailIdx := Positions(MoneyLeft(tail, spending));
      var shifted := Shift(tailIdx);
      assert forall k :: 0 <= k < |shifted| ==> budgets[shifted[k]] == tail[tailIdx[k]];
    }
  }

  /** When every category is overspent or exactly spent nothing rolls over and the
      next month starts from the base pool. */
  lemma {:induction false} NothingLeftNothingRolls(baseTbb: Money, budgets: Dict<Money>, spending: Dict<Money>)
    requires forall i :: 0 <= i < |budgets| ==> ItemAvailable(budgets[i], spending) <= 0
    ensures CalculateRollover(budgets, spending) == []
    ensures CalculateRolloverSummary(baseTbb, budgets, spending).totalRollover == 0
    ensures CalculateRolloverSummary(baseTbb, budgets, spending).newTbb == baseTbb
    decreases |budgets|
  {
    if |budgets| > 0 {
      assert forall i :: 0 <= i < |budgets[1..]| ==> budgets[1..][i] == budgets[i + 1];
      NothingLeftNothingRolls(baseTbb, budgets[1..], spending);
      assert ItemAvailable(budgets[0], spending) <= 0;
    }
  }

  // ---------------------------------------------------------------------------
  // Validation helpers

  /** `validate_allocation_from_tbb`: `(is_valid, error)` for moving `amount` from the
      pool into a category. */
  function ValidateAllocationFromTbb(amount: Money, remainingTbb: Money): (r: (bool, Option<BudgetError>))
    ensures r.0 <==> r.1.None?
    ensures r.0 <==> 0 < amount <= remainingTbb
    ensures r.1 == Some(AmountNotPositive) <==> amount <= 0
    ensures r.1 == Some(NotEnoughTbb) <==> 0 < amount && remainingTbb < amount
  {
    if amount <= 0 then (false, Some(AmountNotPositive))
    else if amount > remainingTbb then (false, Some(NotEnoughTbb))
    else (true, None)
  }

  /** `validate_allocation_from_category`: `(is_valid, error)` for taking `amount` out
      of a category. */
  function ValidateAllocationFromCategory(amount: Money, currentAllocation: Money): (r: (bool, Option<BudgetError>))
    ensures r.0 <==> r.1.None?
    ensures r.0 <==> 0 < amount <= currentAllocation
    ensures r.1 == Some(AmountNotPositive) <==> amount <= 0
    ensures r.1 == Some(NotEnoughAllocated) <==> 0 < amount && currentAllocation < amount
  {
    if amount <= 0 then (false, Some(AmountNotPositive))
    else if amount > currentAllocation then (false, Some(NotEnoughAllocated))
    else (true, None)
  }

  // ---------------------------------------------------------------------------
  // The four allocation operations

  /** `calculate_set_budget`: set a category's allocation to `target`, paying the
      difference out of (or back into) the pool. */
  function CalculateSetBudget(target: Money, currentAllocation: Money, remainingTbb: Money): (r: Outcome)
    ensures r.error == Some(AmountNotPositive) <==> target < 0
    ensures r.error == Some(NotEnoughTbb) <==>
      target >= 0 && target - currentAllocation > 0 && target - currentAllocation > remainingTbb
    ensures r.error.None? || r.error == Some(AmountNotPositive) || r.error == Some(NotEnoughTbb)
    ensures !r.Succeeded() ==> Unchanged(r, currentAllocation, remainingTbb)
    ensures r.Succeeded() ==> r.first == target && r.first >= 0
    ensures r.Succeeded() ==> r.first + r.second == currentAllocation + remainingTbb
    ensures r.Succeeded() && target > currentAllocation ==> r.second >= 0
    ensures target == currentAllocation && target >= 0 ==> r == Outcome(target, remainingTbb, None)
    ensures target == 0 && currentAllocation >= 0 ==> r == Outcome(0, remainingTbb + currentAllocation, None)
  {
    if target < 0 then Outcome(currentAllocation, remainingTbb, Some(AmountNotPositive))
    else
      var difference := target - currentAllocation;
      if difference > 0 && difference > remainingTbb then
        Outcome(currentAllocation, remainingTbb, Some(NotEnoughTbb))
      else
        Outcome(target, remainingTbb - difference, None)
  }

  /** `calculate_add_to_budget`: move `amount` from the pool into a category. */
  function CalculateAddToBudget(amount: Money, currentAllocation: Money, remainingTbb: Money): (r: Outcome)
    ensures r.error == Some(AmountNotPositive) <==> amount <= 0
    ensures r.error == Some(NotEnoughTbb) <==> 0 < amount && remainingTbb < amount
    ensures r.Succeeded() <==> 0 < amount <= remainingTbb
    ensures !r.Succeeded() ==> Unchanged(r, currentAllocation, remainingTbb)
    ensures r.Succeeded() ==> r.first == currentAllocation + amount && r.second == remainingTbb - amount
    ensures r.Succeeded() ==> r.second >= 0 && r.first > currentAllocation
  {
    if amount <= 0 then Outcome(currentAllocation, remainingTbb, Some(AmountNotPositive))
    else if amount > remainingTbb then Outcome(currentAllocation, remainingTbb, Some(NotEnoughTbb))
    else Outcome(currentAllocation + amount, remainingTbb - amount, None)
  }

  /** `calculate_remove_from_budget`: move `amount` out of a category back to the pool. */
  function CalculateRemoveFromBudget(amount: Money, currentAllocation: Money, remainingTbb: Money): (r: Outcome)
    ensures r.error == Some(AmountNotPositive) <==> amount <= 0
    ensures r.error == Some(CannotRemoveMore) <==> 0 < amount && currentAllocation < amount
    ensures r.Succeeded() <==> 0 < amount <= currentAllocation
    ensures !r.Succeeded() ==> Unchanged(r, currentAllocation, remainingTbb)
    ensures r.Succeeded() ==> r.first == currentAllocation - amount && r.second == remainingTbb + amount
    ensures r.Succeeded() ==> r.first >= 0 && r.second > remainingTbb
  {
    if amount <= 0 then Outcome(currentAllocation, remainingTbb, Some(AmountNotPositive))
    else if amount > currentAllocation then Outcome(currentAllocation, remainingTbb, Some(CannotRemoveMore))
    else Outcome(currentAllocation - amount, remainingTbb + amount, None)
  }

  /** `calculate_transfer`: move `amount` between two categories; the pool is not
      involved. The caller rules out a transfer from a category to itself and any
      transfer touching the TBB pseudo-category. */
  function CalculateTransfer(amount: Money, fromAllocation: Money, toAllocation: Money): (r: Outcome)
    ensures r.error == Some(AmountNotPositive) <==> amount <= 0
    ensures r.error == Some(CannotTransferMore) <==> 0 < amount && fromAllocation < amount
    ensures r.Succeeded() <==> 0 < amount <= fromAllocation
    ensures !r.Succeeded() ==> Unchanged(r, fromAllocation, toAllocation)
    ensures r.Succeeded() ==> r.first == fromAllocation - amount && r.second == toAllocation + amount
    ensures r.first + r.second == fromAllocation + toAllocation
    ensures r.Succeeded() ==> r.first >= 0
  {
    if amount <= 0 then Outcome(fromAllocation, toAllocation, Some(AmountNotPositive))
    else if amount > fromAllocation then Outcome(fromAllocation, toAllocation, Some(CannotTransferMore))
    else Outcome(fromAllocation - amount, toAllocation + amount, None)
  }

  // ---------------------------------------------------------------------------
  // The older change and transfer helpers

  /** `calculate_new_allocation`: apply a signed change to a category, positive from
      the pool, negative back to it. The category name only appears in the source's
      messages and is not a parameter here. */
  function CalculateNewAllocation(current: Money, change: Money, remainingTbb: Money): (r: Outcome)
    ensures change == 0 ==> r == Outcome(current, remainingTbb, None)
    ensures change > 0 ==> (r.Succeeded() <==> change <= remainingTbb)
    ensures change < 0 ==> (r.Succeeded() <==> -change <= current)
    ensures r.error.None? || (change > 0 && r.error == Some(NotEnoughTbb))
                          || (change < 0 && r.error == Some(NotEnoughAllocated))
    ensures !r.Succeeded() ==> Unchanged(r, current, remainingTbb)
    ensures r.Succeeded() ==> r.first == current + change
    ensures r.first + r.second == current + remainingTbb
  {
    if change > 0 then
      if change > remainingTbb then Outcome(current, remainingTbb, Some(NotEnoughTbb))
      else Outcome(current + change, remainingTbb - change, None)
    else if change < 0 then
      if -change > current then Outcome(current, remainingTbb, Some(NotEnoughAllocated))
      else Outcome(current + change, remainingTbb - change, None)
    else Outcome(current, remainingTbb, None)
  }

  /** `calculate_budget_transfer`: the older transfer; the category names only appear
      in the source's messages. */
  function CalculateBudgetTransfer(amount: Money, fromCurrent: Money, toCurrent: Money): (r: Outcome)
    ensures r.error == Some(AmountNotPositive) <==> amount <= 0
    ensures r.error == Some(NotEnoughAllocated) <==> 0 < amount && fromCurrent < amount
    ensures r.Succeeded() <==> 0 < amount <= fromCurrent
    ensures !r.Succeeded() ==> Unchanged(r, fromCurrent, toCurrent)
    ensures r.Succeeded() ==> r.first == fromCurrent - amount && r.second == toCurrent + amount
    ensures r.first + r.second == fromCurrent + toCurrent
  {
    if amount <= 0 then Outcome(fromCurrent, toCurrent, Some(AmountNotPositive))
    else if amount > fromCurrent then Outcome(fromCurrent, toCurrent, Some(NotEnoughAllocated))
    else Outcome(fromCurrent - amount, toCurrent + amount, None)
  }

  // ---------------------------------------------------------------------------
  // Summaries

  datatype BudgetSummary = BudgetSummary(
    tbb: Money, totalAllocated: Money, remainingTbb: Money, allocations: Dict<Money>)

  /** `create_budget_summary`. */
  function CreateBudgetSummary(tbb: Money, allocations: Dict<Money>): (r: BudgetSummary)
    ensures r.tbb == tbb && r.allocations == allocations
    ensures r.totalAllocated == Sum(allocations)
    ensures r.remainingTbb == CalculateRemainingTbb(tbb, allocations)
    ensures r.totalAllocated + r.remainingTbb == tbb
  {
    BudgetSummary(tbb, Sum(allocations), CalculateRemainingTbb(tbb, allocations), allocations)
  }

  datatype BudgetCategoryStatus = BudgetCategoryStatus(
    category: CategoryName, allocation: Money, spent: Money, available: Money)

  datatype BudgetStatus = BudgetStatus(
    tbb: Money, totalAllocated: Money, remainingTbb: Money, categories: seq<BudgetCategoryStatus>)

  function CategoryStatus(item: (CategoryName, Money), spending: Dict<Money>): BudgetCategoryStatus {
    var spent := SpentAgainstBudget(GetOr(spending, item.0, 0));
    BudgetCategoryStatus(item.0, item.1, spent, item.1 - spent)
  }

  /** The (category, allocation) items a status list reports. */
  function StatusItems(cs: seq<BudgetCategoryStatus>): (r: Dict<Money>)
    ensures |r| == |cs|
    ensures forall i :: 0 <= i < |cs| ==> r[i] == (cs[i].category, cs[i].allocation)
  {
    seq(|cs|, i requires 0 <= i < |cs| => (cs[i].category, cs[i].allocation))
  }

  /** `compute_budget_status`: the month's snapshot, one entry per budget item in name
      order, each showing what was spent against it and what is left. */
  function ComputeBudgetStatus(tbb: Money, budgets: Dict<Money>, spending: Dict<Money>): (r: BudgetStatus)
    ensures r.tbb == tbb
    ensures r.totalAllocated == Sum(budgets)
    ensures r.remainingTbb == tbb - Sum(budgets)
    ensures |r.categories| == |budgets|
    ensures multiset(StatusItems(r.categories)) == multiset(budgets)
    ensures Sorting.Sorted(Sorting.ByName, StatusItems(r.categories))
    ensures forall i :: 0 <= i < |r.categories| ==>
      var c := r.categories[i];
      var s := GetOr(spending, c.category, 0);
      && c.spent == (if s < 0 then -s else 0)
      && c.spent >= 0
      && c.available == c.allocation - c.spent
      && c.available <= c.allocation
  {
    var sorted := Sorting.Sort(Sorting.ByName, budgets);
    var categories := seq(|sorted|, i requires 0 <= i < |sorted| => CategoryStatus(sorted[i], spending));
    assert StatusItems(categories) == sorted;
    assert |sorted| == |budgets| by {
      assert |multiset(sorted)| == |multiset(budgets)|;
    }
    BudgetStatus(tbb, Sum(budgets), tbb - Sum(budgets), categories)
  }

  /** With a real dictionary (distinct names) the status lists every category exactly
      once in strictly increasing name order, in the order Python's `sorted` gives, and
      its allocations add up to the reported total. */
  lemma BudgetStatusCategories(tbb: Money, budgets: Dict<Money>, spending: Dict<Money>)
    requires DistinctKeys(budgets)
    ensures var cs := ComputeBudgetStatus(tbb, budgets, spending).categories;
      && (forall i, j :: 0 <= i < j < |cs| ==> Strings.Less(cs[i].category, cs[j].category))
      && (forall k :: HasKey(budgets, k) <==> exists i :: 0 <= i < |cs| && cs[i].category == k)
      && Sum(StatusItems(cs)) == ComputeBudgetStatus(tbb, budgets, spending).totalAllocated
  {
    var cs := ComputeBudgetStatus(tbb, budgets, spending).categories;
    var items := StatusItems(cs);
    SumPermutation(items, budgets);
    PermutationDistinct(budgets, items);
    forall i, j | 0 <= i < j < |cs| ensures Strings.Less(cs[i].category, cs[j].category) {
      assert Sorting.Before(Sorting.ByName, items[i], items[j]);
      PermutationDistinct(budgets, items);
    }
    forall k ensures HasKey(budgets, k) <==> exists i :: 0 <= i < |cs| && cs[i].category == k {
      if HasKey(budgets, k) {
        var p :| 0 <= p < |budgets| && budgets[p].0 == k;
        assert budgets[p] in multiset(items);
        var i :| 0 <= i < |items| && items[i] == budgets[p];
        assert cs[i].category == k;
      }
      if exists i :: 0 <= i < |cs| && cs[i].category == k {
        var i :| 0 <= i < |cs| && cs[i].category == k;
        assert items[i] in multiset(budgets);
      }
    }
  }

  /** The three places the source computes the remaining pool agree. */
  lemma RemainingTbbAgrees(tbb: Money, budgets: Dict<Money>, spending: Dict<Money>)
    ensures ComputeBudgetStatus(tbb, budgets, spending).remainingTbb == CalculateRemainingTbb(tbb, budgets)
    ensures CreateBudgetSummary(tbb, budgets).remainingTbb == CalculateRemainingTbb(tbb, budgets)
    ensures ComputeBudgetStatus(tbb, budgets, spending).totalAllocated == CreateBudgetSummary(tbb, budgets).totalAllocated
  {
  }

  // ---------------------------------------------------------------------------
  // Laws relating the operations

  /** `validate_allocation_from_tbb` accepts exactly the amounts Add accepts, with the
      same error, and `validate_allocation_from_category` exactly those Remove accepts. */
  lemma ValidationMatchesOperations(amount: Money, currentAllocation: Money, remainingTbb: Money)
    ensures ValidateAllocationFromTbb(amount, remainingTbb).0 <==>
            CalculateAddToBudget(amount, currentAllocation, remainingTbb).Succeeded()
    ensures ValidateAllocationFromTbb(amount, remainingTbb).1 ==
            CalculateAddToBudget(amount, currentAllocation, remainingTbb).error
    ensures ValidateAllocationFromCategory(amount, currentAllocation).0 <==>
            CalculateRemoveFromBudget(amount, currentAllocation, remainingTbb).Succeeded()
  {
  }

  /** A positive change is an Add and a negative change a Remove of its size: same
      success, same resulting allocation and pool. */
  lemma NewAllocationMatchesAddRemove(current: Money, change: Money, remainingTbb: Money)
    ensures change > 0 ==>
      var o, a := CalculateNewAllocation(current, change, remainingTbb), CalculateAddToBudget(change, current, remainingTbb);
      o.first == a.first && o.second == a.second && (o.Succeeded() <==> a.Succeeded())
    ensures change < 0 ==>
      var o, m := CalculateNewAllocation(current, change, remainingTbb), CalculateRemoveFromBudget(-change, current, remainingTbb);
      o.first == m.first && o.second == m.second && (o.Succeeded() <==> m.Succeeded())
  {
  }

  /** The two transfer functions move the same money and fail on the same inputs. */
  lemma TransfersAgree(amount: Money, fromAllocation: Money, toAllocation: Money)
    ensures var t, b := CalculateTransfer(amount, fromAllocation, toAllocation),
                        CalculateBudgetTransfer(amount, fromAllocation, toAllocation);
      t.first == b.first && t.second == b.second && (t.Succeeded() <==> b.Succeeded())
  {
  }

  /** Two successful Adds are one Add of the total; likewise two Removes. */
  lemma AddsCombine(a: Money, b: Money, currentAllocation: Money, remainingTbb: Money)
    requires CalculateAddToBudget(a, currentAllocation, remainingTbb).Succeeded()
    requires var o := CalculateAddToBudget(a, currentAllocation, remainingTbb);
      CalculateAddToBudget(b, o.first, o.second).Succeeded()
    ensures var o := CalculateAddToBudget(a, currentAllocation, remainingTbb);
      CalculateAddToBudget(a + b, currentAllocation, remainingTbb) == CalculateAddToBudget(b, o.first, o.second)
  {
  }

  lemma RemovesCombine(a: Money, b: Money, currentAllocation: Money, remainingTbb: Money)
    requires CalculateRemoveFromBudget(a, currentAllocation, remainingTbb).Succeeded()
    requires var o := CalculateRemoveFromBudget(a, currentAllocation, remainingTbb);
      CalculateRemoveFromBudget(b, o.first, o.second).Succeeded()
    ensures var o := CalculateRemoveFromBudget(a, currentAllocation, remainingTbb);
      CalculateRemoveFromBudget(a + b, currentAllocation, remainingTbb) == CalculateRemoveFromBudget(b, o.first, o.second)
  {
  }

  /** Two successful transfers between the same pair are one transfer of the total. */
  lemma TransfersCombine(a: Money, b: Money, fromAllocation: Money, toAllocation: Money)
    requires CalculateTransfer(a, fromAllocation, toAllocation).Succeeded()
    requires var o := CalculateTransfer(a, fromAllocation, toAllocation);
      CalculateTransfer(b, o.first, o.second).Succeeded()
    ensures var o := CalculateTransfer(a, fromAllocation, toAllocation);
      CalculateTransfer(a + b, fromAllocation, toAllocation) == CalculateTransfer(b, o.first, o.second)
  {
  }

  /** Two successful Sets are one Set to the second target: the last target wins. */
  lemma SetsCombine(first: Money, second: Money, currentAllocation: Money, remainingTbb: Money)
    requires CalculateSetBudget(first, currentAllocation, remainingTbb).Succeeded()
    requires var o := CalculateSetBudget(first, currentAllocation, remainingTbb);
      CalculateSetBudget(second, o.first, o.second).Succeeded()
    ensures var o := CalculateSetBudget(first, currentAllocation, remainingTbb);
      CalculateSetBudget(second, currentAllocation, remainingTbb) == CalculateSetBudget(second, o.first, o.second)
  {
  }

  /** An allocation change the shell may apply to one category in one month. */
  datatype Operation = SetTo(target: Money) | Add(amount: Money) | Remove(amount: Money)

  function Apply(op: Operation, allocation: Money, remainingTbb: Money): Outcome {
    match op
    case SetTo(t) => CalculateSetBudget(t, allocation, remainingTbb)
    case Add(x) => CalculateAddToBudget(x, allocation, remainingTbb)
    case Remove(x) => CalculateRemoveFromBudget(x, allocation, remainingTbb)
  }

  /** Applies the operations in turn; a rejected one leaves the state as it was. */
  function ApplyAll(ops: seq<Operation>, allocation: Money, remainingTbb: Money): (Money, Money) {
    if |ops| == 0 then (allocation, remainingTbb)
    else
      var o := Apply(ops[0], allocation, remainingTbb);
      ApplyAll(ops[1..], o.first, o.second)
  }

  /** Any run of Set, Add and Remove on a category, successful or not, keeps
      allocation + remaining TBB fixed, never drives the allocation below zero and
      never drives a non-negative pool below zero. */
  lemma {:induction false} Conservation(ops: seq<Operation>, allocation: Money, remainingTbb: Money)
    ensures var (a, r) := ApplyAll(ops, allocation, remainingTbb);
      && a + r == allocation + remainingTbb
      && (allocation >= 0 ==> a >= 0)
      && (remainingTbb >= 0 ==> r >= 0)
    decreases |ops|
  {
    if |ops| > 0 {
      var o := Apply(ops[0], allocation, remainingTbb);
      Conservation(ops[1..], o.first, o.second);
    }
  }

  // ---------------------------------------------------------------------------
  // Worked examples from the source's tests

  lemma SetAndAddExamples()
    ensures CalculateSetBudget(0, 5000, 10000) == Outcome(0, 15000, None)
    ensures CalculateSetBudget(10000, 5000, 20000) == Outcome(10000, 15000, None)
    ensures CalculateAddToBudget(30000, 10000, 10000) == Outcome(10000, 10000, Some(NotEnoughTbb))
    ensures CalculateRemoveFromBudget(5000, 10000, 20000) == Outcome(5000, 25000, None)
    ensures CalculateTransfer(5000, 10000, 3000) == Outcome(5000, 8000, None)
  {
  }

  lemma StatusExample()
    ensures var s := ComputeBudgetStatus(100000, [("Groceries", 50000), ("Transport", 20000)],
                                         [("Groceries", -30000), ("Transport", -15000)]);
      && s.totalAllocated == 70000 && s.remainingTbb == 30000
      && s.categories == [BudgetCategoryStatus("Groceries", 50000, 30000, 20000),
                          BudgetCategoryStatus("Transport", 20000, 15000, 5000)]
  {
    var budgets: Dict<Money> := [("Groceries", 50000), ("Transport", 20000)];
    assert Strings.Less("Groceries", "Transport");
    assert Sorting.Sort(Sorting.ByName, budgets) == budgets;
  }

  lemma RolloverExample()
    ensures var r := CalculateRolloverSummary(5000, [("Food", 20000)], [("Food", -12000)]);
      r.rollovers == [CategoryRollover("Food", 20000, -12000, 8000)] && r.newTbb == 13000
  {
  }
}
