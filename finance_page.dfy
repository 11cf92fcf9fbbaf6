/** The finance page: month, type and category filters chained over the
    transactions, the fallbacks that keep each selection valid, the
    newest-first table, and the request its dialog sends. The current
    month key is a parameter. */
module FinancePage {
  import opened Wrappers
  import opened Text
  import opened Dates
  import opened Domain
  import opened Seqs
  import opened DashboardMetrics

  /** The type select: "all", or one transaction type. */
  datatype TypeFilter = AllTypes | OnlyType(kind: TransactionType)

  const ALL_CATEGORY_FILTER := "all"

  // ---------------------------------------------------------------------
  // Month

  /** The month fallback effect: a selection that is not offered becomes
      the first option, or "all" when there is none. */
  function KeepMonth(options: seq<string>, selected: string): string {
    if selected in options then selected
    else if options != [] then options[0]
    else ALL_MONTHS_VALUE
  }

  /** The month kept is always offered; an offered month stays, and one
      that is not falls back to "all", the first option. */
  lemma KeptMonthIsOffered(finances: seq<Transaction>, currentMonthKey: string, selected: string)
    ensures var options := GetAvailableMonthOptions(finances, currentMonthKey);
            var kept := KeepMonth(options, selected);
            kept in options && (kept == selected <==> selected in options) &&
            (selected !in options ==> kept == ALL_MONTHS_VALUE)
  {
  }

  // ---------------------------------------------------------------------
  // Type

  function HasType(kind: TransactionType): Transaction -> bool {
    (t: Transaction) => t.kind == kind
  }

  /** `typeFilteredTransactions` */
  function TypeFiltered(xs: seq<Transaction>, filter: TypeFilter): seq<Transaction> {
    match filter
    case AllTypes => xs
    case OnlyType(kind) => Filter(xs, HasType(kind))
  }

  /** "All" keeps every transaction; a type keeps exactly the transactions
      of that type; either way the order is kept. */
  lemma TypeFilteredSelects(xs: seq<Transaction>, filter: TypeFilter)
    ensures IsSubsequence(TypeFiltered(xs, filter), xs)
    ensures filter.AllTypes? ==> TypeFiltered(xs, filter) == xs
    ensures filter.OnlyType? ==>
              forall t :: t in TypeFiltered(xs, filter) <==> t in xs && t.kind == filter.kind
  {
    match filter
    case AllTypes => SubsequenceReflexive(xs);
    case OnlyType(kind) => FilterIsSubsequence(xs, HasType(kind));
  }

  // ---------------------------------------------------------------------
  // Category

  /** The category of each transaction, in order. */
  function Categories(xs: seq<Transaction>): (r: seq<string>)
    ensures |r| == |xs|
    ensures forall i :: 0 <= i < |xs| ==> r[i] == xs[i].category
  {
    seq(|xs|, i requires 0 <= i < |xs| => xs[i].category)
  }

  /** `categoryOptions`: each category once, in ascending order. */
  function CategoryOptions(xs: seq<Transaction>): seq<string> {
    SortBy(Dedupe(Categories(xs)), ByKey(Identity))
  }

  /** A category is offered exactly when some transaction has it. */
  lemma CategoryOptionsMembers(xs: seq<Transaction>, c: string)
    ensures c in CategoryOptions(xs) <==> exists t :: t in xs && t.category == c
  {
    var cats := Categories(xs);
    SortByMembers(Dedupe(cats), ByKey(Identity));
    if c in cats {
      var i :| 0 <= i < |cats| && cats[i] == c;
      assert xs[i] in xs;
    }
    if exists t :: t in xs && t.category == c {
      var t :| t in xs && t.category == c;
      var i :| 0 <= i < |xs| && xs[i] == t;
      assert cats[i] == c;
    }
  }

  /** The categories offered are distinct and ascending. */
  lemma CategoryOptionsAscending(xs: seq<Transaction>)
    ensures var options := CategoryOptions(xs);
            forall i, j :: 0 <= i < j < |options| ==> LexLe(options[i], options[j]) && options[i] != options[j]
  {
    var distinct := Dedupe(Categories(xs));
    var options := SortBy(distinct, ByKey(Identity));
    ByKeyTotalPreorder(Identity);
    SortBySorted(distinct, ByKey(Identity));
    assert DistinctBy(distinct, Identity);
    SortByKeepsDistinct(distinct, ByKey(Identity), Identity);
    forall i, j | 0 <= i < j < |options| ensures LexLe(options[i], options[j]) && options[i] != options[j] {
      assert ByKey(Identity)(options[i], options[j]) && Identity(options[i]) != Identity(options[j]);
    }
  }

  /** The category fallback effect: a category that is not offered becomes
      "all". */
  function KeepCategory(options: seq<string>, selected: string): string {
    if selected in options then selected else ALL_CATEGORY_FILTER
  }

  function HasCategory(category: string): Transaction -> bool {
    (t: Transaction) => t.category == category
  }

  /** `filteredTransactions` */
  function CategoryFiltered(xs: seq<Transaction>, selected: string): seq<Transaction> {
    if selected == ALL_CATEGORY_FILTER then xs else Filter(xs, HasCategory(selected))
  }

  /** After the fallback the category filter either keeps everything or
      keeps exactly the transactions of an offered category, and never
      empties a list that has transactions. */
  lemma KeptCategorySelects(xs: seq<Transaction>, selected: string)
    ensures var kept := KeepCategory(CategoryOptions(xs), selected);
            (kept == selected <==> selected in CategoryOptions(xs) || selected == ALL_CATEGORY_FILTER) &&
            (kept == ALL_CATEGORY_FILTER ==> CategoryFiltered(xs, kept) == xs) &&
            (kept != ALL_CATEGORY_FILTER ==>
               forall t :: t in CategoryFiltered(xs, kept) <==> t in xs && t.category == kept) &&
            (xs != [] ==> CategoryFiltered(xs, kept) != [])
  {
    var kept := KeepCategory(CategoryOptions(xs), selected);
    if kept != ALL_CATEGORY_FILTER && xs != [] {
      CategoryOptionsMembers(xs, kept);
      var t :| t in xs && t.category == kept;
      assert t in CategoryFiltered(xs, kept);
    }
  }

  // ---------------------------------------------------------------------
  // The chain

  /** The three filters in a row. */
  function VisibleTransactions(finances: seq<Transaction>, month: string, filter: TypeFilter, category: string)
    : seq<Transaction>
  {
    CategoryFiltered(TypeFiltered(FilterTransactionsByMonth(finances, month), filter), category)
  }

  /** A transaction is shown exactly when it passes each selection, and
      the shown ones keep their order. */
  lemma VisibleTransactionsSelect(finances: seq<Transaction>, month: string, filter: TypeFilter, category: string)
    ensures IsSubsequence(VisibleTransactions(finances, month, filter, category), finances)
    ensures forall t :: t in VisibleTransactions(finances, month, filter, category) <==>
              t in finances &&
              (month == ALL_MONTHS_VALUE || MonthKeyOf(t.transactionDate) == month) &&
              (filter.AllTypes? || t.kind == filter.kind) &&
              (category == ALL_CATEGORY_FILTER || t.category == category)
  {
    var monthScoped := FilterTransactionsByMonth(finances, month);
    var typed := TypeFiltered(monthScoped, filter);
    var shown := CategoryFiltered(typed, category);
    FilterTransactionsByMonthKeepsOrder(finances, month);
    TypeFilteredSelects(monthScoped, filter);
    if category == ALL_CATEGORY_FILTER {
      SubsequenceReflexive(typed);
    } else {
      FilterIsSubsequence(typed, HasCategory(category));
    }
    SubsequenceTransitive(shown, typed, monthScoped);
    SubsequenceTransitive(shown, monthScoped, finances);
  }

  /** `monthTransactions`: the shown transactions, newest first. */
  function MonthTransactions(shown: seq<Transaction>): seq<Transaction> {
    SortBy(shown, ByKeyDesc(DateOf))
  }

  /** The table holds the shown transactions, each as often as before,
      with dates descending. */
  lemma MonthTransactionsNewestFirst(shown: seq<Transaction>)
    ensures multiset(MonthTransactions(shown)) == multiset(shown)
    ensures var rows := MonthTransactions(shown);
            forall i, j :: 0 <= i < j < |rows| ==> LexLe(rows[j].transactionDate, rows[i].transactionDate)
  {
    var rows := MonthTransactions(shown);
    ByKeyTotalPreorder(DateOf);
    SortBySorted(shown, ByKeyDesc(DateOf));
    forall i, j | 0 <= i < j < |rows| ensures LexLe(rows[j].transactionDate, rows[i].transactionDate) {
      assert ByKeyDesc(DateOf)(rows[i], rows[j]);
      assert LexLe(DateOf(rows[j]), DateOf(rows[i]));
    }
  }

  // ---------------------------------------------------------------------
  // Dialog

  /** `handleDialogSubmit`: the request, and the transaction still being
      edited afterwards (none once an update went through). */
  function DialogSubmitRequest(editing: Option<Transaction>, input: TransactionFormInput, succeeded: bool)
    : (r: (TransactionRequest, Option<Transaction>))
    ensures r.0.input == input
    ensures r.0.UpdateTransaction? <==> editing.Some?
    ensures r.0.UpdateTransaction? ==> r.0.id == editing.value.id
    ensures editing.None? || succeeded ==> r.1.None?
    ensures editing.Some? && !succeeded ==> r.1 == editing
  {
    if editing.Some? then
      (UpdateTransaction(editing.value.id, input), if succeeded then None else editing)
    else (AddTransaction(input), None)
  }

  /** The page's selections and the transaction being edited. */
  class FinancePageState {
    var selectedMonth: string
    var selectedType: TypeFilter
    var selectedCategory: string
    var editing: Option<Transaction>

    constructor()
      ensures selectedMonth == ALL_MONTHS_VALUE && selectedType == AllTypes
      ensures selectedCategory == ALL_CATEGORY_FILTER && editing.None?
    {
      selectedMonth := ALL_MONTHS_VALUE;
      selectedType := AllTypes;
      selectedCategory := ALL_CATEGORY_FILTER;
      editing := None;
    }

    /** The month fallback effect. */
    method SyncMonth(finances: seq<Transaction>, currentMonthKey: string)
      modifies this
      ensures selectedMonth == KeepMonth(GetAvailableMonthOptions(finances, currentMonthKey), old(selectedMonth))
      ensures selectedMonth in GetAvailableMonthOptions(finances, currentMonthKey)
      ensures selectedType == old(selectedType) && selectedCategory == old(selectedCategory) && editing == old(editing)
    {
      var options := GetAvailableMonthOptions(finances, currentMonthKey);
      KeptMonthIsOffered(finances, currentMonthKey, selectedMonth);
      if selectedMonth !in options {
        selectedMonth := options[0];
      }
    }

    /** The category fallback effect, over the month- and type-filtered
        transactions. */
    method SyncCategory(finances: seq<Transaction>)
      modifies this
      ensures var typed := TypeFiltered(FilterTransactionsByMonth(finances, selectedMonth), selectedType);
              selectedCategory == KeepCategory(CategoryOptions(typed), old(selectedCategory))
      ensures selectedMonth == old(selectedMonth) && selectedType == old(selectedType) && editing == old(editing)
    {
      var typed := TypeFiltered(FilterTransactionsByMonth(finances, selectedMonth), selectedType);
      if selectedCategory !in CategoryOptions(typed) {
        selectedCategory := ALL_CATEGORY_FILTER;
      }
    }

    /** The table's rows for the current selections. */
    method Rows(finances: seq<Transaction>) returns (rows: seq<Transaction>)
      ensures rows == MonthTransactions(VisibleTransactions(finances, selectedMonth, selectedType, selectedCategory))
    {
      var monthScoped := FilterTransactionsByMonth(finances, selectedMonth);
      var typed := TypeFiltered(monthScoped, selectedType);
      var shown := CategoryFiltered(typed, selectedCategory);
      rows := MonthTransactions(shown);
    }

    /** `handleEdit` */
    method Edit(item: Transaction)
      modifies this
      ensures editing == Some(item)
      ensures selectedMonth == old(selectedMonth) && selectedType == old(selectedType) &&
              selectedCategory == old(selectedCategory)
    {
      editing := Some(item);
    }

    /** `openCreateDialog` */
    method OpenCreateDialog()
      modifies this
      ensures editing.None?
      ensures selectedMonth == old(selectedMonth) && selectedType == old(selectedType) &&
              selectedCategory == old(selectedCategory)
    {
      editing := None;
    }

    /** `handleDialogSubmit`, where `succeeded` says whether the provider's
        call went through. */
    method SubmitDialog(input: TransactionFormInput, succeeded: bool) returns (request: TransactionRequest)
      modifies this
      ensures (request, editing) == DialogSubmitRequest(old(editing), input, succeeded)
      ensures selectedMonth == old(selectedMonth) && selectedType == old(selectedType) &&
              selectedCategory == old(selectedCategory)
    {
      if editing.Some? {
        request := UpdateTransaction(editing.value.id, input);
        if succeeded {
          editing := None;
        }
      } else {
        request := AddTransaction(input);
      }
    }
  }
}
