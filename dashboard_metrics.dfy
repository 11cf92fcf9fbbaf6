/** The dashboard's figures for a month: revenue, expenses, profit,
    pending fees and active students; the income/expense trend; the
    expense breakdown by category; the month picker's options; and the
    month filter shared by the finance page. */
module DashboardMetrics {
  import opened Wrappers
  import opened Text
  import opened Seqs
  import opened Dates
  import opened Domain

  /** The month filter's value for "All Months (Consolidated)". */
  const ALL_MONTHS_VALUE := "all"

  function AmountOf(t: Transaction): int {
    t.amount
  }

  /** The transaction is dated in the month with this key. */
  function InMonth(monthKey: string): Transaction -> bool {
    (t: Transaction) => MonthKeyOf(t.transactionDate) == monthKey
  }

  /** Money received: paid income. */
  function IsRevenue(): Transaction -> bool {
    (t: Transaction) => t.kind == Income && t.status == Paid
  }

  /** Money spent, paid or not. */
  function IsExpense(): Transaction -> bool {
    (t: Transaction) => t.kind == Expense
  }

  /** A student fee not yet paid. */
  function IsPendingFee(): Transaction -> bool {
    (t: Transaction) => t.category == STUDENT_FEE && t.status == Pending
  }

  function IsActive(): Student -> bool {
    (s: Student) => s.status == Active
  }

  /** The number of active students, counted one by one. */
  function ActiveCount(students: seq<Student>): nat {
    if students == [] then 0 else (if students[0].status == Active then 1 else 0) + ActiveCount(students[1..])
  }

  /** Filtering the active students keeps exactly as many as there are. */
  lemma {:induction false} FilterCountsActive(students: seq<Student>)
    ensures |Filter(students, IsActive())| == ActiveCount(students)
  {
    if students != [] {
      FilterCountsActive(students[1..]);
      FilterHead(students, IsActive());
    }
  }

  /** The total amount of the transactions satisfying `p`, element by element. */
  function AmountWhere(xs: seq<Transaction>, p: Transaction -> bool): int {
    if xs == [] then 0 else (if p(xs[0]) then xs[0].amount else 0) + AmountWhere(xs[1..], p)
  }

  /** Summing a filtered list is summing the matching elements. */
  lemma {:induction false} SumOfFilter(xs: seq<Transaction>, p: Transaction -> bool)
    ensures SumBy(Filter(xs, p), AmountOf) == AmountWhere(xs, p)
  {
    if xs != [] {
      SumOfFilter(xs[1..], p);
      if p(xs[0]) {
        assert ([xs[0]] + Filter(xs[1..], p))[1..] == Filter(xs[1..], p);
      }
    }
  }

  lemma {:induction false} AmountWhereConcat(a: seq<Transaction>, b: seq<Transaction>, p: Transaction -> bool)
    ensures AmountWhere(a + b, p) == AmountWhere(a, p) + AmountWhere(b, p)
  {
    if a != [] {
      AmountWhereConcat(a[1..], b, p);
      assert (a + b)[1..] == a[1..] + b;
    } else {
      assert a + b == b;
    }
  }

  /** `filterTransactionsByMonth`: everything for "all", otherwise the
      transactions of that month, in order. */
  function FilterTransactionsByMonth(finances: seq<Transaction>, monthKey: string): (r: seq<Transaction>)
    ensures monthKey == ALL_MONTHS_VALUE ==> r == finances
    ensures monthKey != ALL_MONTHS_VALUE ==>
              forall t :: t in r <==> t in finances && MonthKeyOf(t.transactionDate) == monthKey
  {
    if monthKey == ALL_MONTHS_VALUE then finances else Filter(finances, InMonth(monthKey))
  }

  lemma FilterTransactionsByMonthKeepsOrder(finances: seq<Transaction>, monthKey: string)
    ensures IsSubsequence(FilterTransactionsByMonth(finances, monthKey), finances)
  {
    if monthKey == ALL_MONTHS_VALUE {
      SubsequenceReflexive(finances);
    } else {
      FilterIsSubsequence(finances, InMonth(monthKey));
    }
  }

  datatype Metrics = Metrics(
    totalRevenue: int,
    totalExpenses: int,
    netProfit: int,
    activeStudents: nat,
    feesPending: int)

  /** Sum of the amounts of `monthly` transactions satisfying `p`. */
  function Total(monthly: seq<Transaction>, p: Transaction -> bool): int {
    SumBy(Filter(monthly, p), AmountOf)
  }

  /** `calculateDashboardMetrics(finances, students, monthKey)` */
  function CalculateDashboardMetrics(finances: seq<Transaction>, students: seq<Student>, monthKey: string): (m: Metrics)
    ensures m.netProfit == m.totalRevenue - m.totalExpenses
    ensures m.totalRevenue == AmountWhere(finances, Both(InMonth(monthKey), IsRevenue()))
    ensures m.totalExpenses == AmountWhere(finances, Both(InMonth(monthKey), IsExpense()))
    ensures m.feesPending == AmountWhere(finances, Both(InMonth(monthKey), IsPendingFee()))
    ensures m.activeStudents == ActiveCount(students)
  {
    FilterCountsActive(students);
    var monthly := Filter(finances, InMonth(monthKey));
    FilterCompose(finances, InMonth(monthKey), IsRevenue());
    FilterCompose(finances, InMonth(monthKey), IsExpense());
    FilterCompose(finances, InMonth(monthKey), IsPendingFee());
    SumOfFilter(finances, Both(InMonth(monthKey), IsRevenue()));
    SumOfFilter(finances, Both(InMonth(monthKey), IsExpense()));
    SumOfFilter(finances, Both(InMonth(monthKey), IsPendingFee()));
    var revenue := Total(monthly, IsRevenue());
    var expenses := Total(monthly, IsExpense());
    Metrics(revenue, expenses, revenue - expenses, |Filter(students, IsActive())|, Total(monthly, IsPendingFee()))
  }

  /** With no transactions every money figure is zero. */
  lemma MetricsOfNoTransactions(students: seq<Student>, monthKey: string)
    ensures var m := CalculateDashboardMetrics([], students, monthKey);
            m.totalRevenue == 0 && m.totalExpenses == 0 && m.netProfit == 0 && m.feesPending == 0
  {
  }

  /** The figures of two lists of transactions add up. */
  lemma MetricsAdditive(a: seq<Transaction>, b: seq<Transaction>, students: seq<Student>, monthKey: string)
    ensures var m := CalculateDashboardMetrics(a + b, students, monthKey);
            var ma := CalculateDashboardMetrics(a, students, monthKey);
            var mb := CalculateDashboardMetrics(b, students, monthKey);
            m.totalRevenue == ma.totalRevenue + mb.totalRevenue &&
            m.totalExpenses == ma.totalExpenses + mb.totalExpenses &&
            m.feesPending == ma.feesPending + mb.feesPending
  {
    AmountWhereConcat(a, b, Both(InMonth(monthKey), IsRevenue()));
    AmountWhereConcat(a, b, Both(InMonth(monthKey), IsExpense()));
    AmountWhereConcat(a, b, Both(InMonth(monthKey), IsPendingFee()));
  }

  /** A new pending fee in the month raises the pending total by its amount
      and leaves revenue, expenses and profit as they were. */
  lemma PendingFeeRaisesOnlyFeesPending(due: Transaction, finances: seq<Transaction>, students: seq<Student>, monthKey: string)
    requires due.category == STUDENT_FEE && due.kind == Income && due.status == Pending
    requires MonthKeyOf(due.transactionDate) == monthKey
    ensures var before := CalculateDashboardMetrics(finances, students, monthKey);
            var after := CalculateDashboardMetrics([due] + finances, students, monthKey);
            after.totalRevenue == before.totalRevenue &&
            after.totalExpenses == before.totalExpenses &&
            after.netProfit == before.netProfit &&
            after.feesPending == before.feesPending + due.amount
  {
    MetricsAdditive([due], finances, students, monthKey);
  }

  /** One point of the trend chart. The chart's short month label is
      locale formatting; the point carries the month key instead. */
  datatype TrendPoint = TrendPoint(month: string, income: int, expense: int)

  function PointFor(finances: seq<Transaction>, monthKey: string): (p: TrendPoint)
    ensures p.month == monthKey
    ensures p.income == AmountWhere(finances, Both(InMonth(monthKey), IsRevenue()))
    ensures p.expense == AmountWhere(finances, Both(InMonth(monthKey), IsExpense()))
  {
    var monthly := Filter(finances, InMonth(monthKey));
    FilterCompose(finances, InMonth(monthKey), IsRevenue());
    FilterCompose(finances, InMonth(monthKey), IsExpense());
    SumOfFilter(finances, Both(InMonth(monthKey), IsRevenue()));
    SumOfFilter(finances, Both(InMonth(monthKey), IsExpense()));
    TrendPoint(monthKey, Total(monthly, IsRevenue()), Total(monthly, IsExpense()))
  }

  /** The `count` months ending with `now`, oldest first. */
  function MonthsEndingAt(count: nat, now: YearMonth): (months: seq<YearMonth>)
    ensures |months| == count
    ensures forall i :: 0 <= i < count ==> months[i] == ShiftMonth(now, i - (count - 1))
  {
    seq(count, i requires 0 <= i < count => ShiftMonth(now, i - (count - 1)))
  }

  function MonthKeysEndingAt(count: nat, now: YearMonth): (keys: seq<string>)
    ensures |keys| == count
    ensures forall i :: 0 <= i < count ==> keys[i] == MonthKey(MonthsEndingAt(count, now)[i])
  {
    var months := MonthsEndingAt(count, now);
    seq(count, i requires 0 <= i < count => MonthKey(months[i]))
  }

  /** `buildMonthKeys(count)`, with the current month passed in. */
  method BuildMonthKeys(count: nat, now: YearMonth) returns (keys: seq<string>)
    ensures keys == MonthKeysEndingAt(count, now)
  {
    keys := [];
    var idx: int := count - 1;
    while idx >= 0
      invariant -1 <= idx <= count - 1
      invariant |keys| == count - 1 - idx
      invariant forall j :: 0 <= j < |keys| ==> keys[j] == MonthKey(ShiftMonth(now, j - (count - 1)))
      decreases idx + 1
    {
      keys := keys + [MonthKey(ShiftMonth(now, -idx))];
      idx := idx - 1;
    }
  }

  /** The months are consecutive and the last one is the current month. */
  lemma MonthsEndingAtAreConsecutive(count: nat, now: YearMonth)
    requires ValidYearMonth(now) && count > 0
    ensures MonthsEndingAt(count, now)[count - 1] == now
    ensures forall i :: 0 < i < count ==> MonthsEndingAt(count, now)[i] == NextMonth(MonthsEndingAt(count, now)[i - 1])
  {
    ShiftMonthZero(now);
    var months := MonthsEndingAt(count, now);
    forall i | 0 < i < count
      ensures months[i] == NextMonth(months[i - 1])
    {
      ShiftMonthStep(now, i - 1 - (count - 1));
    }
  }

  /** `getIncomeExpenseTrend(finances, monthKey)`, with the current month
      passed in. */
  function GetIncomeExpenseTrend(finances: seq<Transaction>, monthKey: string, now: YearMonth): (points: seq<TrendPoint>)
    ensures monthKey != ALL_MONTHS_VALUE ==> points == [PointFor(finances, monthKey)]
    ensures monthKey == ALL_MONTHS_VALUE ==> |points| == MONTHS_TO_SHOW
    ensures monthKey == ALL_MONTHS_VALUE ==>
              forall i :: 0 <= i < |points| ==> points[i] == PointFor(finances, MonthKeysEndingAt(MONTHS_TO_SHOW, now)[i])
  {
    if monthKey != ALL_MONTHS_VALUE then [PointFor(finances, monthKey)]
    else
      var keys := MonthKeysEndingAt(MONTHS_TO_SHOW, now);
      seq(|keys|, i requires 0 <= i < |keys| => PointFor(finances, keys[i]))
  }

  /** For all months the chart has one point per month of the six months
      ending now, oldest first, and the last point is the current month. */
  lemma TrendCoversLastSixMonths(finances: seq<Transaction>, now: YearMonth)
    requires ValidYearMonth(now)
    ensures var points := GetIncomeExpenseTrend(finances, ALL_MONTHS_VALUE, now);
            var months := MonthsEndingAt(MONTHS_TO_SHOW, now);
            |points| == 6 && points[5].month == MonthKey(now) &&
            (forall i :: 0 <= i < 6 ==> points[i].month == MonthKey(months[i])) &&
            (forall i :: 0 < i < 6 ==> months[i] == NextMonth(months[i - 1]))
  {
    MonthsEndingAtAreConsecutive(MONTHS_TO_SHOW, now);
  }

  /** One slice of the expense pie chart. */
  datatype ExpenseSlice = ExpenseSlice(name: string, value: int)

  function SliceName(e: ExpenseSlice): string {
    e.name
  }

  function SliceValue(e: ExpenseSlice): int {
    e.value
  }

  /** Larger slices first. */
  function ByValueDesc(): (ExpenseSlice, ExpenseSlice) -> bool {
    (a: ExpenseSlice, b: ExpenseSlice) => a.value >= b.value
  }

  lemma ByValueDescTotalPreorder()
    ensures TotalPreorder(ByValueDesc())
  {
  }

  /** The expenses a breakdown for `monthKey` covers. */
  function InScopeExpense(monthKey: string): Transaction -> bool {
    (t: Transaction) => t.kind == Expense && (monthKey == ALL_MONTHS_VALUE || MonthKeyOf(t.transactionDate) == monthKey)
  }

  function InCategory(name: string): Transaction -> bool {
    (t: Transaction) => t.category == name
  }

  /** Some transaction satisfying `scope` is in category `name`. */
  predicate HasCategory(xs: seq<Transaction>, scope: Transaction -> bool, name: string) {
    exists i :: 0 <= i < |xs| && scope(xs[i]) && xs[i].category == name
  }

  /** Some slice is named `name`. */
  predicate HasSlice(groups: seq<ExpenseSlice>, name: string) {
    exists e :: e in groups && e.name == name
  }

  /** Each slice holds its category's total. */
  ghost predicate SlicesHoldTotals(groups: seq<ExpenseSlice>, xs: seq<Transaction>, scope: Transaction -> bool) {
    forall e :: e in groups ==> e.value == AmountWhere(xs, Both(scope, InCategory(e.name)))
  }

  /** What the breakdown promises about its slices: one per category in
      scope, each holding that category's total. */
  ghost predicate Breaks(groups: seq<ExpenseSlice>, xs: seq<Transaction>, scope: Transaction -> bool) {
    DistinctBy(groups, SliceName) &&
    SlicesHoldTotals(groups, xs, scope) &&
    (forall name :: HasCategory(xs, scope, name) <==> HasSlice(groups, name)) &&
    SumBy(groups, SliceValue) == AmountWhere(xs, scope)
  }

  /** The index of the slice named `name`, or -1. */
  function FindSlice(groups: seq<ExpenseSlice>, name: string): (k: int)
    ensures -1 <= k < |groups|
    ensures k >= 0 ==> groups[k].name == name
    ensures k < 0 ==> !HasSlice(groups, name)
  {
    if groups == [] then -1
    else if groups[|groups| - 1].name == name then |groups| - 1
    else
      var k := FindSlice(groups[..|groups| - 1], name);
      assert groups == groups[..|groups| - 1] + [groups[|groups| - 1]];
      k
  }

  /** Adds one expense to its category's slice, or opens a new slice at the end. */
  function AddExpense(groups: seq<ExpenseSlice>, t: Transaction): seq<ExpenseSlice> {
    var k := FindSlice(groups, t.category);
    if k >= 0 then groups[k := ExpenseSlice(t.category, groups[k].value + t.amount)]
    else groups + [ExpenseSlice(t.category, t.amount)]
  }

  /** The slices of the in-scope transactions, in first-seen order. */
  function GroupExpenses(xs: seq<Transaction>, scope: Transaction -> bool): seq<ExpenseSlice> {
    if xs == [] then []
    else
      var g := GroupExpenses(xs[..|xs| - 1], scope);
      if scope(xs[|xs| - 1]) then AddExpense(g, xs[|xs| - 1]) else g
  }

  lemma AmountWhereSnoc(xs: seq<Transaction>, t: Transaction, p: Transaction -> bool)
    ensures AmountWhere(xs + [t], p) == AmountWhere(xs, p) + (if p(t) then t.amount else 0)
  {
    AmountWhereConcat(xs, [t], p);
  }

  lemma HasCategorySnoc(xs: seq<Transaction>, t: Transaction, scope: Transaction -> bool, name: string)
    ensures HasCategory(xs + [t], scope, name) <==> HasCategory(xs, scope, name) || (scope(t) && t.category == name)
  {
    var ys := xs + [t];
    if HasCategory(xs, scope, name) {
      var i :| 0 <= i < |xs| && scope(xs[i]) && xs[i].category == name;
      assert ys[i] == xs[i];
    }
    if scope(t) && t.category == name {
      assert ys[|xs|] == t;
    }
    if HasCategory(ys, scope, name) {
      var i :| 0 <= i < |ys| && scope(ys[i]) && ys[i].category == name;
      if i < |xs| {
        assert ys[i] == xs[i];
      }
    }
  }

  /** Adding an expense keeps the slice names distinct. */
  lemma AddExpenseDistinct(groups: seq<ExpenseSlice>, t: Transaction)
    requires DistinctBy(groups, SliceName)
    ensures DistinctBy(AddExpense(groups, t), SliceName)
  {
    var k := FindSlice(groups, t.category);
    if k < 0 {
      var g := AddExpense(groups, t);
      forall i, j | 0 <= i < j < |g| ensures g[i].name != g[j].name {
        if j == |groups| {
          assert groups[i] in groups;
        }
      }
    }
  }

  /** Adding an expense raises the slices' sum by its amount. */
  lemma AddExpenseSum(groups: seq<ExpenseSlice>, t: Transaction)
    ensures SumBy(AddExpense(groups, t), SliceValue) == SumBy(groups, SliceValue) + t.amount
  {
    var k := FindSlice(groups, t.category);
    if k >= 0 {
      SumByUpdate(groups, k, ExpenseSlice(t.category, groups[k].value + t.amount), SliceValue);
    } else {
      SumByConcat(groups, [ExpenseSlice(t.category, t.amount)], SliceValue);
    }
  }

  /** Adding an expense adds its category to the slice names. */
  lemma AddExpenseNames(groups: seq<ExpenseSlice>, t: Transaction, name: string)
    ensures HasSlice(AddExpense(groups, t), name) <==> HasSlice(groups, name) || name == t.category
  {
    var g := AddExpense(groups, t);
    var k := FindSlice(groups, t.category);
    if k >= 0 {
      assert g[k].name == t.category;
      if HasSlice(groups, name) {
        var e :| e in groups && e.name == name;
        var j :| 0 <= j < |groups| && groups[j] == e;
        assert g[j].name == name;
      }
      if HasSlice(g, name) {
        var e :| e in g && e.name == name;
        var j :| 0 <= j < |g| && g[j] == e;
        assert groups[j].name == name;
      }
    } else {
      assert g[|groups|].name == t.category;
      if HasSlice(groups, name) {
        var e :| e in groups && e.name == name;
        assert e in g;
      }
      if HasSlice(g, name) && name != t.category {
        var e :| e in g && e.name == name;
        assert e in groups;
      }
    }
  }

  /** Adding an in-scope expense keeps every slice at its category's total. */
  lemma AddExpenseTotals(groups: seq<ExpenseSlice>, xs: seq<Transaction>, t: Transaction, scope: Transaction -> bool)
    requires SlicesHoldTotals(groups, xs, scope) && DistinctBy(groups, SliceName) && scope(t)
    requires HasCategory(xs, scope, t.category) ==> HasSlice(groups, t.category)
    requires forall name :: !HasCategory(xs, scope, name) ==> AmountWhere(xs, Both(scope, InCategory(name))) == 0
    ensures SlicesHoldTotals(AddExpense(groups, t), xs + [t], scope)
  {
    var g := AddExpense(groups, t);
    var k := FindSlice(groups, t.category);
    forall e | e in g
      ensures e.value == AmountWhere(xs + [t], Both(scope, InCategory(e.name)))
    {
      AmountWhereSnoc(xs, t, Both(scope, InCategory(e.name)));
      var j :| 0 <= j < |g| && g[j] == e;
      if k >= 0 {
        if j != k {
          assert groups[j] == e && groups[k].name != e.name;
        } else {
          assert groups[k] in groups;
        }
      } else if j < |groups| {
        assert groups[j] == e && groups[j] in groups;
      } else {
        assert !HasCategory(xs, scope, t.category);
      }
    }
  }

  /** A category with no in-scope transaction totals zero. */
  lemma {:induction false} AbsentCategoryTotalsZero(xs: seq<Transaction>, scope: Transaction -> bool, name: string)
    requires !HasCategory(xs, scope, name)
    ensures AmountWhere(xs, Both(scope, InCategory(name))) == 0
  {
    if xs != [] {
      forall i | 0 <= i < |xs[1..]| ensures !(scope(xs[1..][i]) && xs[1..][i].category == name) {
        assert xs[1..][i] == xs[i + 1];
      }
      AbsentCategoryTotalsZero(xs[1..], scope, name);
    }
  }

  /** The grouping keeps its promises for every prefix. */
  lemma {:induction false} GroupExpensesBreaks(xs: seq<Transaction>, scope: Transaction -> bool)
    ensures Breaks(GroupExpenses(xs, scope), xs, scope)
  {
    if xs == [] {
      forall name ensures !HasCategory(xs, scope, name) { }
    } else {
      var init := xs[..|xs| - 1];
      var t := xs[|xs| - 1];
      var g := GroupExpenses(init, scope);
      assert xs == init + [t];
      GroupExpensesBreaks(init, scope);
      AmountWhereSnoc(init, t, scope);
      forall name
        ensures AmountWhere(xs, Both(scope, InCategory(name))) ==
                  AmountWhere(init, Both(scope, InCategory(name))) + (if scope(t) && t.category == name then t.amount else 0)
        ensures HasCategory(xs, scope, name) <==> HasCategory(init, scope, name) || (scope(t) && t.category == name)
      {
        AmountWhereSnoc(init, t, Both(scope, InCategory(name)));
        HasCategorySnoc(init, t, scope, name);
      }
      if scope(t) {
        AddExpenseDistinct(g, t);
        AddExpenseSum(g, t);
        forall name ensures HasSlice(AddExpense(g, t), name) <==> HasSlice(g, name) || name == t.category {
          AddExpenseNames(g, t, name);
        }
        forall name | !HasCategory(init, scope, name)
          ensures AmountWhere(init, Both(scope, InCategory(name))) == 0
        {
          AbsentCategoryTotalsZero(init, scope, name);
        }
        AddExpenseTotals(g, init, t, scope);
      }
    }
  }

  /** `getExpenseBreakdown(finances, monthKey)`: the in-scope expenses
      grouped by category in first-seen order, then sorted by total,
      largest first. */
  method GetExpenseBreakdown(finances: seq<Transaction>, monthKey: string) returns (slices: seq<ExpenseSlice>)
    ensures SortedBy(slices, ByValueDesc())
    ensures Breaks(slices, finances, InScopeExpense(monthKey))
  {
    var scope := InScopeExpense(monthKey);
    var groups: seq<ExpenseSlice> := [];
    for i := 0 to |finances|
      invariant groups == GroupExpenses(finances[..i], scope)
    {
      var item := finances[i];
      assert finances[..i + 1][..i] == finances[..i];
      if scope(item) {
        var k := FindSlice(groups, item.category);
        if k >= 0 {
          groups := groups[k := ExpenseSlice(item.category, groups[k].value + item.amount)];
        } else {
          groups := groups + [ExpenseSlice(item.category, item.amount)];
        }
      }
    }
    assert finances[..|finances|] == finances;
    GroupExpensesBreaks(finances, scope);
    slices := SortBy(groups, ByValueDesc());
    ByValueDescTotalPreorder();
    SortBySorted(groups, ByValueDesc());
    SortByKeepsDistinct(groups, ByValueDesc(), SliceName);
    SumBySortBy(groups, ByValueDesc(), SliceValue);
    SortByMembers(groups, ByValueDesc());
    forall name ensures HasSlice(slices, name) <==> HasSlice(groups, name) {
      if HasSlice(slices, name) {
        var e :| e in slices && e.name == name;
      }
      if HasSlice(groups, name) {
        var e :| e in groups && e.name == name;
      }
    }
  }

  /** The month key of each transaction, in order. */
  function TransactionMonthKeys(finances: seq<Transaction>): (keys: seq<string>)
    ensures |keys| == |finances|
    ensures forall i :: 0 <= i < |finances| ==> keys[i] == MonthKeyOf(finances[i].transactionDate)
  {
    seq(|finances|, i requires 0 <= i < |finances| => MonthKeyOf(finances[i].transactionDate))
  }

  /** Every month with a transaction and the current month, each once,
      newest first. */
  function MonthOptionKeys(finances: seq<Transaction>, currentMonthKey: string): seq<string> {
    Reverse(SortBy(Dedupe(TransactionMonthKeys(finances) + [currentMonthKey]), ByKey(Identity)))
  }

  /** `getAvailableMonthOptions(finances)`: "all" first, then the month
      keys. The option labels are locale formatting and left to the caller. */
  function GetAvailableMonthOptions(finances: seq<Transaction>, currentMonthKey: string): (options: seq<string>)
    ensures |options| >= 2 && options[0] == ALL_MONTHS_VALUE
    ensures options[1..] == MonthOptionKeys(finances, currentMonthKey)
  {
    var distinct := Dedupe(TransactionMonthKeys(finances) + [currentMonthKey]);
    assert currentMonthKey in distinct;
    [ALL_MONTHS_VALUE] + MonthOptionKeys(finances, currentMonthKey)
  }

  /** A month is offered exactly when it is the current month or some
      transaction falls in it. */
  lemma MonthOptionsMembers(finances: seq<Transaction>, currentMonthKey: string, k: string)
    ensures k in MonthOptionKeys(finances, currentMonthKey) <==>
              k == currentMonthKey || exists t :: t in finances && MonthKeyOf(t.transactionDate) == k
  {
    var keys := TransactionMonthKeys(finances);
    var distinct := Dedupe(keys + [currentMonthKey]);
    var sorted := SortBy(distinct, ByKey(Identity));
    ReverseMembers(sorted);
    SortByMembers(distinct, ByKey(Identity));
    assert k in distinct <==> k in keys || k == currentMonthKey;
    if k in keys {
      var i :| 0 <= i < |keys| && keys[i] == k;
      assert finances[i] in finances;
    }
    if exists t :: t in finances && MonthKeyOf(t.transactionDate) == k {
      var t :| t in finances && MonthKeyOf(t.transactionDate) == k;
      var i :| 0 <= i < |finances| && finances[i] == t;
      assert keys[i] == k;
    }
  }

  /** The months offered are distinct and newest first. */
  lemma MonthOptionsDescending(finances: seq<Transaction>, currentMonthKey: string)
    ensures var options := MonthOptionKeys(finances, currentMonthKey);
            forall i, j :: 0 <= i < j < |options| ==> LexLe(options[j], options[i]) && options[i] != options[j]
  {
    var distinct := Dedupe(TransactionMonthKeys(finances) + [currentMonthKey]);
    var sorted := SortBy(distinct, ByKey(Identity));
    var options := Reverse(sorted);
    ByKeyTotalPreorder(Identity);
    SortBySorted(distinct, ByKey(Identity));
    assert DistinctBy(distinct, Identity);
    SortByKeepsDistinct(distinct, ByKey(Identity), Identity);
    forall i, j | 0 <= i < j < |options| ensures LexLe(options[j], options[i]) && options[i] != options[j] {
      var a, b := |sorted| - 1 - j, |sorted| - 1 - i;
      assert ByKey(Identity)(sorted[a], sorted[b]) && Identity(sorted[a]) != Identity(sorted[b]);
    }
  }
}
