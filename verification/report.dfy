/** The reporting core of `ynam/domain/report.py`: a month's per-category totals are
    split into expenses and income, each side is sorted and turned into report rows
    carrying budget comparisons, and the whole is summed into a net figure. */
module Report {
  import opened Wrappers
  import opened Dicts
  import opened Sorting

  /** An amount in pence. */
  type Money = int

  datatype CategoryReport = CategoryReport(
    category: string,
    amount: Money,
    budget: Option<Money>,
    percentage: Option<real>)

  datatype ExpenseReport = ExpenseReport(categories: seq<CategoryReport>, total: Money, totalBudget: Money)

  datatype IncomeReport = IncomeReport(categories: seq<CategoryReport>, total: Money)

  datatype FullReport = FullReport(expenses: ExpenseReport, income: IncomeReport, net: Money)

  function Abs(x: int): nat {
    if x < 0 then -x else x
  }

  // ---------------------------------------------------------------------------
  // Single rows

  /** `calculate_budget_percentage`: how much of the budget the amount uses, whatever
      the amount's sign; 0 for a budget that is not positive. */
  function CalculateBudgetPercentage(actual: Money, budget: Money): (r: real)
    ensures r >= 0.0
    ensures budget <= 0 ==> r == 0.0
    ensures budget > 0 ==> r * budget as real == 100.0 * Abs(actual) as real
    ensures budget > 0 ==> (r > 100.0 <==> Abs(actual) > budget)
    ensures budget > 0 ==> (r == 100.0 <==> Abs(actual) == budget)
  {
    if budget <= 0 then 0.0
    else
      var p := (Abs(actual) as real / budget as real) * 100.0;
      assert p * budget as real == 100.0 * Abs(actual) as real;
      ScaledComparison(p, budget as real, Abs(actual) as real);
      p
  }

  /** If `p` percent of `b` is `a`, then `p` exceeds (equals) 100 exactly when `a`
      exceeds (equals) `b`. */
  lemma ScaledComparison(p: real, b: real, a: real)
    requires b > 0.0 && a >= 0.0 && p * b == 100.0 * a
    ensures p >= 0.0
    ensures p > 100.0 <==> a > b
    ensures p == 100.0 <==> a == b
  {
    assert (p - 100.0) * b == 100.0 * (a - b);
  }

  /** `create_category_report`: the row for one category; a percentage is shown only
      against a positive budget. */
  function CreateCategoryReport(category: string, amount: Money, budget: Option<Money>): (r: CategoryReport)
    ensures r.category == category && r.amount == amount && r.budget == budget
    ensures r.percentage.Some? <==> budget.Some? && budget.value > 0
    ensures r.percentage.Some? ==> r.percentage.value == CalculateBudgetPercentage(amount, budget.value)
  {
    var percentage := if budget.Some? && budget.value > 0 then Some(CalculateBudgetPercentage(amount, budget.value)) else None;
    CategoryReport(category, amount, budget, percentage)
  }

  /** The `(category, amount)` pairs the rows show, in row order. */
  function Rows(cs: seq<CategoryReport>): (r: Dict<Money>)
    ensures |r| == |cs|
  {
    seq(|cs|, i requires 0 <= i < |cs| => (cs[i].category, cs[i].amount))
  }

  /** The budget column of the rows, a missing budget counting as 0. */
  function BudgetColumn(cs: seq<CategoryReport>): (r: Dict<Money>)
    ensures |r| == |cs|
  {
    seq(|cs|, i requires 0 <= i < |cs| => (cs[i].category, cs[i].budget.GetOr(0)))
  }

  // ---------------------------------------------------------------------------
  // Splitting and sorting

  /** `split_expenses_and_income`: negative amounts are expenses, positive ones income,
      and categories that net to zero appear on neither side. */
  function SplitExpensesAndIncome(breakdown: Dict<Money>): (r: (Dict<Money>, Dict<Money>))
    ensures forall x :: x in r.0 <==> x in breakdown && x.1 < 0
    ensures forall x :: x in r.1 <==> x in breakdown && x.1 > 0
    ensures |r.0| + |r.1| <= |breakdown|
  {
    if |breakdown| == 0 then ([], [])
    else
      var x := breakdown[0];
      var rest := SplitExpensesAndIncome(breakdown[1..]);
      assert forall y :: y in breakdown <==> y == x || y in breakdown[1..] by {
        assert breakdown == [x] + breakdown[1..];
      }
      if x.1 < 0 then ([x] + rest.0, rest.1)
      else if x.1 > 0 then (rest.0, [x] + rest.1)
      else rest
  }

  /** Nothing is lost in the split: the two sides together sum to the whole. */
  lemma {:induction false} SplitSum(breakdown: Dict<Money>)
    ensures var (e, i) := SplitExpensesAndIncome(breakdown); Sum(e) + Sum(i) == Sum(breakdown)
    decreases |breakdown|
  {
    if |breakdown| > 0 {
      SplitSum(breakdown[1..]);
      var rest := SplitExpensesAndIncome(breakdown[1..]);
      assert ([breakdown[0]] + rest.0)[1..] == rest.0;
      assert ([breakdown[0]] + rest.1)[1..] == rest.1;
    }
  }

  /** The split keeps a real dictionary's keys distinct on both sides. */
  lemma {:induction false} SplitDistinct(breakdown: Dict<Money>)
    requires DistinctKeys(breakdown)
    ensures DistinctKeys(SplitExpensesAndIncome(breakdown).0)
    ensures DistinctKeys(SplitExpensesAndIncome(breakdown).1)
    decreases |breakdown|
  {
    if |breakdown| > 0 {
      var x := breakdown[0];
      var tail := breakdown[1..];
      assert DistinctKeys(tail) by {
        forall p, q | 0 <= p < q < |tail| ensures tail[p].0 != tail[q].0 {
          assert tail[p] == breakdown[p + 1] && tail[q] == breakdown[q + 1];
        }
      }
      SplitDistinct(tail);
      var rest := SplitExpensesAndIncome(tail);
      assert forall y :: y in tail ==> y.0 != x.0 by {
        forall y | y in tail ensures y.0 != x.0 {
          var k :| 0 <= k < |tail| && tail[k] == y;
          assert breakdown[k + 1] == y;
        }
      }
      PrependFreshKey(x, rest.0);
      PrependFreshKey(x, rest.1);
    }
  }

  lemma PrependFreshKey(x: (string, Money), d: Dict<Money>)
    requires DistinctKeys(d)
    requires forall k :: 0 <= k < |d| ==> d[k].0 != x.0
    ensures DistinctKeys([x] + d)
  {
    var r := [x] + d;
    forall p, q | 0 <= p < q < |r| ensures r[p].0 != r[q].0 {
      assert r[q] == d[q - 1];
      if p > 0 {
        assert r[p] == d[p - 1];
      }
    }
  }

  /** `sort_expenses`: by name for "alpha", otherwise by amount, largest expense (most
      negative) first. */
  function SortExpenses(expenses: Dict<Money>, sortBy: string): (r: Dict<Money>)
    ensures multiset(r) == multiset(expenses)
    ensures sortBy == "alpha" ==> Sorted(ByName, r)
    ensures sortBy != "alpha" ==> Sorted(ByAmount, r)
  {
    if sortBy == "alpha" then Sort(ByName, expenses) else Sort(ByAmount, expenses)
  }

  /** `sort_income`: by name for "alpha", otherwise by amount, largest first. */
  function SortIncome(income: Dict<Money>, sortBy: string): (r: Dict<Money>)
    ensures multiset(r) == multiset(income)
    ensures sortBy == "alpha" ==> Sorted(ByName, r)
    ensures sortBy != "alpha" ==> Sorted(ByAmountReversed, r)
  {
    if sortBy == "alpha" then Sort(ByName, income) else Sort(ByAmountReversed, income)
  }

  /** The order a `sortBy` value asks of each side. */
  function ExpenseOrder(sortBy: string): Order {
    if sortBy == "alpha" then ByName else ByAmount
  }

  function IncomeOrder(sortBy: string): Order {
    if sortBy == "alpha" then ByName else ByAmountReversed
  }

  /** Sorting by name has exactly one answer for a real dictionary: any list of its
      items ordered by name is the one returned, so ties cannot occur. */
  lemma AlphaOrderDetermined(items: Dict<Money>, other: Dict<Money>)
    requires DistinctKeys(items)
    requires Sorted(ByName, other) && multiset(other) == multiset(items)
    ensures SortExpenses(items, "alpha") == other
    ensures SortIncome(items, "alpha") == other
  {
    var s := SortExpenses(items, "alpha");
    PermutationDistinct(items, s);
    SortedByNameUnique(s, other);
  }

  // ---------------------------------------------------------------------------
  // Reports

  /** One row per item, each compared with its category's budget. */
  function ReportRows(items: Dict<Money>, budgets: Dict<Money>): (r: seq<CategoryReport>)
    ensures Rows(r) == items
    ensures BudgetColumn(r) == BudgetLookup(items, budgets)
  {
    var r := seq(|items|, i requires 0 <= i < |items| => CreateCategoryReport(items[i].0, items[i].1, Get(budgets, items[i].0)));
    assert Rows(r) == items;
    r
  }

  /** Each item's key with its budget, `budgets.get(cat, 0)`. */
  function BudgetLookup(items: Dict<Money>, budgets: Dict<Money>): (r: Dict<Money>)
    ensures |r| == |items|
  {
    seq(|items|, i requires 0 <= i < |items| => (items[i].0, GetOr(budgets, items[i].0, 0)))
  }

  /** Looking up budgets commutes with reordering the items. */
  lemma {:induction false} BudgetLookupPermutation(a: Dict<Money>, b: Dict<Money>, budgets: Dict<Money>)
    requires multiset(a) == multiset(b)
    ensures multiset(BudgetLookup(a, budgets)) == multiset(BudgetLookup(b, budgets))
    decreases |a|
  {
    if |a| == 0 {
      assert |multiset(b)| == 0;
    } else {
      var x := a[0];
      assert x in multiset(b);
      var j :| 0 <= j < |b| && b[j] == x;
      var left, right := b[..j], b[j + 1..];
      RemoveAt(b, j);
      assert a == [x] + a[1..];
      BudgetLookupPermutation(a[1..], left + right, budgets);
      assert b == left + [x] + right;
      LookupAppend(left + [x], right, budgets);
      LookupAppend(left, [x], budgets);
      LookupAppend(left, right, budgets);
      LookupAppend([x], a[1..], budgets);
    }
  }

  lemma LookupAppend(x: Dict<Money>, y: Dict<Money>, budgets: Dict<Money>)
    ensures BudgetLookup(x + y, budgets) == BudgetLookup(x, budgets) + BudgetLookup(y, budgets)
  {
  }

  /** `create_expense_report`: the expenses as rows in the requested order, each with
      its budget; the total of the amounts, and the total of the budgets of the listed
      categories, which is the sum of the rows' budget column. */
  function CreateExpenseReport(expenses: Dict<Money>, budgets: Dict<Money>, sortBy: string): (r: ExpenseReport)
    ensures multiset(Rows(r.categories)) == multiset(expenses)
    ensures Sorted(ExpenseOrder(sortBy), Rows(r.categories))
    ensures forall c | c in r.categories :: c == CreateCategoryReport(c.category, c.amount, Get(budgets, c.category))
    ensures r.total == Sum(expenses)
    ensures r.totalBudget == Sum(BudgetColumn(r.categories))
    ensures (forall i :: 0 <= i < |expenses| ==> expenses[i].1 <= 0) ==> r.total <= 0
  {
    var sorted := SortExpenses(expenses, sortBy);
    var categories := ReportRows(sorted, budgets);
    var totalBudget := Sum(BudgetLookup(expenses, budgets));
    BudgetLookupPermutation(expenses, sorted, budgets);
    SumPermutation(BudgetLookup(expenses, budgets), BudgetLookup(sorted, budgets));
    SumSign(expenses);
    ExpenseReport(categories, Sum(expenses), totalBudget)
  }

  /** `create_income_report`: the income as rows in the requested order, with no budget
      comparison, and their total. */
  function CreateIncomeReport(income: Dict<Money>, sortBy: string): (r: IncomeReport)
    ensures multiset(Rows(r.categories)) == multiset(income)
    ensures Sorted(IncomeOrder(sortBy), Rows(r.categories))
    ensures forall c | c in r.categories :: c.budget.None? && c.percentage.None?
    ensures r.total == Sum(income)
    ensures (forall i :: 0 <= i < |income| ==> income[i].1 >= 0) ==> r.total >= 0
  {
    var sorted := SortIncome(income, sortBy);
    SumSign(income);
    IncomeReport(ReportRows(sorted, []), Sum(income))
  }

  /** `create_full_report`: expenses and income side by side, each section built as its
      own report is (ordered by `sortBy`, expense rows compared with their budgets); the
      net is the sum of the whole breakdown and equals expense total plus income total. */
  function CreateFullReport(breakdown: Dict<Money>, budgets: Dict<Money>, sortBy: string): (r: FullReport)
    ensures forall x :: x in Rows(r.expenses.categories) <==> x in breakdown && x.1 < 0
    ensures forall x :: x in Rows(r.income.categories) <==> x in breakdown && x.1 > 0
    ensures Sorted(ExpenseOrder(sortBy), Rows(r.expenses.categories))
    ensures Sorted(IncomeOrder(sortBy), Rows(r.income.categories))
    ensures forall c | c in r.expenses.categories ::
      c == CreateCategoryReport(c.category, c.amount, Get(budgets, c.category))
    ensures forall c | c in r.income.categories :: c.budget.None? && c.percentage.None?
    ensures r.expenses.totalBudget == Sum(BudgetColumn(r.expenses.categories))
    ensures r.net == Sum(breakdown)
    ensures r.net == r.expenses.total + r.income.total
    ensures r.expenses.total <= 0 && r.income.total >= 0
  {
    var (expenses, income) := SplitExpensesAndIncome(breakdown);
    var e := CreateExpenseReport(expenses, budgets, sortBy);
    var i := CreateIncomeReport(income, sortBy);
    assert forall x :: x in Rows(e.categories) <==> x in multiset(Rows(e.categories));
    assert forall x :: x in Rows(i.categories) <==> x in multiset(Rows(i.categories));
    SplitSum(breakdown);
    FullReport(e, i, Sum(breakdown))
  }

  /** Every expense row of a full report shows the category's budget, and a real
      breakdown gives each category at most one row. */
  lemma FullReportRowsDistinct(breakdown: Dict<Money>, budgets: Dict<Money>, sortBy: string)
    requires DistinctKeys(breakdown)
    ensures var r := CreateFullReport(breakdown, budgets, sortBy);
      DistinctKeys(Rows(r.expenses.categories)) && DistinctKeys(Rows(r.income.categories))
  {
    var (expenses, income) := SplitExpensesAndIncome(breakdown);
    SplitDistinct(breakdown);
    var r := CreateFullReport(breakdown, budgets, sortBy);
    PermutationDistinct(expenses, Rows(r.expenses.categories));
    PermutationDistinct(income, Rows(r.income.categories));
  }

  // ---------------------------------------------------------------------------
  // Histogram

  /** `calculate_histogram_bar_length`: the bar for `amount` when `max_amount` fills
      `bar_width` characters, `int()` truncating toward zero. */
  function CalculateHistogramBarLength(amount: Money, maxAmount: Money, barWidth: int): (r: int)
    ensures maxAmount <= 0 ==> r == 0
    ensures maxAmount > 0 && barWidth >= 0 ==>
      0 <= r && r * maxAmount <= Abs(amount) * barWidth < (r + 1) * maxAmount
    ensures maxAmount > 0 && barWidth < 0 ==>
      r <= 0 && (r - 1) * maxAmount < Abs(amount) * barWidth <= r * maxAmount
  {
    if maxAmount <= 0 then 0
    else
      var scaled := Abs(amount) * barWidth;
      if scaled >= 0 then scaled / maxAmount else -((-scaled) / maxAmount)
  }

  /** A bar never exceeds the width when the amount is within the maximum, and a
      larger amount never gets a shorter bar. */
  lemma HistogramBounded(amount: Money, other: Money, maxAmount: Money, barWidth: nat)
    requires maxAmount > 0
    ensures Abs(amount) <= maxAmount ==> CalculateHistogramBarLength(amount, maxAmount, barWidth) <= barWidth
    ensures Abs(amount) <= Abs(other) ==>
      CalculateHistogramBarLength(amount, maxAmount, barWidth) <= CalculateHistogramBarLength(other, maxAmount, barWidth)
  {
    var r := CalculateHistogramBarLength(amount, maxAmount, barWidth);
    var s := CalculateHistogramBarLength(other, maxAmount, barWidth);
    MultiplyMonotone(Abs(amount), maxAmount, barWidth);
    MultiplyMonotone(Abs(amount), Abs(other), barWidth);
    assert maxAmount * barWidth == barWidth * maxAmount;
    CancelFactor(r, barWidth, maxAmount);
    CancelFactor(r, s + 1, maxAmount);
  }

  lemma MultiplyMonotone(a: int, b: int, c: nat)
    ensures a <= b ==> a * c <= b * c
  {
  }

  /** A positive factor can be cancelled from both sides of an inequality. */
  lemma CancelFactor(a: int, b: int, c: int)
    requires c > 0
    ensures a * c <= b * c ==> a <= b
    ensures a * c < b * c ==> a < b
  {
    if a > b {
      assert a * c - b * c == (a - b) * c;
    }
  }
}
