/** The fees tab of the students page: one row per active student for the
    chosen month, showing the student's latest fee record of that month,
    a paid/pending switch, and an editable monthly fee. Today's date and
    the month's display label are parameters; the label is locale
    formatting. */
module StudentFinanceTab {
  import opened Wrappers
  import opened Text
  import opened Numbers
  import opened Dates
  import opened Domain
  import opened Seqs
  import opened Failures
  import opened DashboardMetrics
  import opened StudentDirectoryTab

  // ---------------------------------------------------------------------
  // Months

  function IsFee(): Transaction -> bool {
    (t: Transaction) => t.category == STUDENT_FEE
  }

  /** `getMonthOptions`: the months of the fee records and the current
      month, each once, newest first. */
  function GetMonthOptions(finances: seq<Transaction>, currentMonthKey: string): seq<string> {
    MonthOptionKeys(Filter(finances, IsFee()), currentMonthKey)
  }

  /** A month is offered exactly when it is the current month or a fee
      record falls in it. */
  lemma MonthOptionsOfFees(finances: seq<Transaction>, currentMonthKey: string, k: string)
    ensures k in GetMonthOptions(finances, currentMonthKey) <==>
              k == currentMonthKey ||
              exists t :: t in finances && t.category == STUDENT_FEE && MonthKeyOf(t.transactionDate) == k
  {
    MonthOptionsMembers(Filter(finances, IsFee()), currentMonthKey, k);
  }

  /** The months offered are distinct and newest first. */
  lemma MonthOptionsOfFeesDescending(finances: seq<Transaction>, currentMonthKey: string)
    ensures var options := GetMonthOptions(finances, currentMonthKey);
            forall i, j :: 0 <= i < j < |options| ==> LexLe(options[j], options[i]) && options[i] != options[j]
  {
    MonthOptionsDescending(Filter(finances, IsFee()), currentMonthKey);
  }

  /** The effect that keeps the selected month among the options: else the
      first option, else the current month. */
  function KeepSelectedMonth(options: seq<string>, selected: string, currentMonthKey: string): (r: string)
    ensures selected in options ==> r == selected
    ensures selected !in options && options != [] ==> r == options[0]
    ensures options == [] ==> r == currentMonthKey
  {
    if selected in options then selected
    else if options != [] then options[0]
    else currentMonthKey
  }

  /** The month options always hold the current month, so the kept
      selection is always one of them. */
  lemma KeptMonthIsOffered(finances: seq<Transaction>, selected: string, currentMonthKey: string)
    ensures KeepSelectedMonth(GetMonthOptions(finances, currentMonthKey), selected, currentMonthKey)
              in GetMonthOptions(finances, currentMonthKey)
  {
    MonthOptionsOfFees(finances, currentMonthKey, currentMonthKey);
  }

  /** `getCurrentMonthKey()` for today's date. */
  function CurrentMonthKey(today: Date): string
    requires ValidDate(today)
  {
    MonthKey(MonthOf(today))
  }

  /** `getNewTransactionDate`: today in the current month, otherwise the
      first of the chosen month. */
  function GetNewTransactionDate(monthKey: string, today: Date): (date: string)
    requires ValidDate(today)
    ensures monthKey == CurrentMonthKey(today) ==> date == DateKey(today)
    ensures monthKey != CurrentMonthKey(today) ==> date == monthKey + "-01"
  {
    if monthKey == CurrentMonthKey(today) then DateKey(today) else monthKey + "-01"
  }

  /** A new fee record is dated inside the month it is created for. */
  lemma NewTransactionDateInMonth(monthKey: string, today: Date)
    requires ValidDate(today) && 1000 <= today.year <= 9999
    requires IsMonthKey(monthKey)
    ensures MonthKeyOf(GetNewTransactionDate(monthKey, today)) == monthKey
  {
    if monthKey == CurrentMonthKey(today) {
      MonthKeyOfDateKey(today);
    } else {
      MonthKeyOfExtension(monthKey, "-01");
    }
  }

  // ---------------------------------------------------------------------
  // Payloads and errors

  /** `buildStudentFeePayload`: a new income record of the student's fee,
      in the chosen month, with the given status. */
  function BuildStudentFeePayload(s: Student, status: PaymentStatus, monthKey: string, monthLabel: string, today: Date)
    : (p: TransactionFormInput)
    requires ValidDate(today)
    ensures p.category == STUDENT_FEE && p.kind == Income && p.status == status
    ensures p.amount == s.monthlyFee && p.studentId == Some(s.id) && p.note.None?
    ensures p.transactionDate == GetNewTransactionDate(monthKey, today)
    ensures p.description == monthLabel + " fee status"
  {
    TransactionFormInput(GetNewTransactionDate(monthKey, today), STUDENT_FEE, Income, s.monthlyFee, status,
                         monthLabel + " fee status", None, Some(s.id))
  }

  const ACTION_FAILED := "Action failed. Please try again."
  const PAYMENT_UNREACHABLE := "Could not reach server while updating payment status. Please retry."

  /** `toActionErrorMessage`: the thrown message, or a fixed hint when it
      reports a network failure. */
  function ToActionErrorMessage(error: Thrown): (r: string)
    ensures IsNetworkFailure(MessageOf(error, ACTION_FAILED)) ==> r == PAYMENT_UNREACHABLE
    ensures !IsNetworkFailure(MessageOf(error, ACTION_FAILED)) ==> r == MessageOf(error, ACTION_FAILED)
  {
    var message := MessageOf(error, ACTION_FAILED);
    if IsNetworkFailure(message) then PAYMENT_UNREACHABLE else message
  }

  /** A network phrase anywhere in the message, in any letter case, gives
      the hint; short messages pass through. */
  lemma ActionErrorOfNetworkPhrase(before: string, phrase: string, after: string, message: string)
    requires ToLower(phrase) in NETWORK_PHRASES && |message| < 11
    ensures ToActionErrorMessage(ErrorObject(before + phrase + after)) == PAYMENT_UNREACHABLE
    ensures ToActionErrorMessage(ErrorText(message)) == message
  {
    NetworkPhraseAnywhere(before, phrase, after);
    ShortMessageIsNotNetworkFailure(message);
  }

  // ---------------------------------------------------------------------
  // Rows

  function ActiveStudents(students: seq<Student>): seq<Student> {
    Filter(students, IsActive())
  }

  /** The fee records of the month that are linked to some student. */
  function IsLinkedFeeIn(monthKey: string): Transaction -> bool {
    (t: Transaction) => t.category == STUDENT_FEE && IsTruthy(t.studentId) && MonthKeyOf(t.transactionDate) == monthKey
  }

  /** `monthTransactions` */
  function MonthFeeRecords(finances: seq<Transaction>, monthKey: string): seq<Transaction> {
    Filter(finances, IsLinkedFeeIn(monthKey))
  }

  function LinkedToStudent(id: string): Transaction -> bool {
    (t: Transaction) => t.studentId == Some(id)
  }

  datatype FinanceRow = FinanceRow(student: Student, primaryTransaction: Option<Transaction>, isPaid: bool)

  /** The row of a student: their records of the month, latest date first,
      and the first of them. */
  function RowFor(s: Student, monthRecords: seq<Transaction>): FinanceRow {
    var own := SortBy(Filter(monthRecords, LinkedToStudent(s.id)), ByKeyDesc(DateOf));
    var primary := if own == [] then None else Some(own[0]);
    FinanceRow(s, primary, primary.Some? && primary.value.status == Paid)
  }

  /** `rows`: one per active student matching the search, in order. */
  function Rows(students: seq<Student>, search: string, finances: seq<Transaction>, monthKey: string)
    : (rows: seq<FinanceRow>)
    ensures |rows| == |SearchStudents(ActiveStudents(students), search)|
    ensures forall i :: 0 <= i < |rows| ==> rows[i] == RowFor(SearchStudents(ActiveStudents(students), search)[i], MonthFeeRecords(finances, monthKey))
  {
    var shown := SearchStudents(ActiveStudents(students), search);
    var records := MonthFeeRecords(finances, monthKey);
    seq(|shown|, i requires 0 <= i < |shown| => RowFor(shown[i], records))
  }

  /** Every row is an active student, and every matching active student
      has a row. */
  lemma RowsAreActiveStudents(students: seq<Student>, search: string, finances: seq<Transaction>, monthKey: string)
    ensures forall r :: r in Rows(students, search, finances, monthKey) ==> r.student in students && r.student.status == Active
    ensures IsBlank(search) ==> |Rows(students, search, finances, monthKey)| == |ActiveStudents(students)|
  {
    var rows := Rows(students, search, finances, monthKey);
    SearchStudentsSelects(ActiveStudents(students), search);
    forall r | r in rows ensures r.student in students && r.student.status == Active {
      var i :| 0 <= i < |rows| && rows[i] == r;
      assert r.student in SearchStudents(ActiveStudents(students), search);
      assert r.student in ActiveStudents(students);
    }
  }

  /** Sorting by date, latest first, puts a record of the latest date in
      front. */
  lemma FirstIsLatest(xs: seq<Transaction>)
    ensures var own := SortBy(xs, ByKeyDesc(DateOf));
            (own == [] <==> xs == []) &&
            (own != [] ==> own[0] in xs && forall t :: t in xs ==> LexLe(t.transactionDate, own[0].transactionDate))
  {
    var own := SortBy(xs, ByKeyDesc(DateOf));
    SortByMembers(xs, ByKeyDesc(DateOf));
    if own != [] {
      ByKeyTotalPreorder(DateOf);
      SortBySorted(xs, ByKeyDesc(DateOf));
      forall t | t in xs ensures LexLe(t.transactionDate, own[0].transactionDate) {
        var j :| 0 <= j < |own| && own[j] == t;
        if j > 0 {
          assert ByKeyDesc(DateOf)(own[0], own[j]);
          assert LexLe(DateOf(own[j]), DateOf(own[0]));
        } else {
          LexLeReflexive(t.transactionDate);
        }
      }
    }
  }

  /** The records a row chooses from: the student's fee records of the month. */
  predicate OwnFeeIn(t: Transaction, s: Student, finances: seq<Transaction>, monthKey: string) {
    t in finances && t.category == STUDENT_FEE && s.id != "" && t.studentId == Some(s.id) &&
    MonthKeyOf(t.transactionDate) == monthKey
  }

  lemma OwnFeeRecords(s: Student, finances: seq<Transaction>, monthKey: string)
    ensures forall t :: t in Filter(MonthFeeRecords(finances, monthKey), LinkedToStudent(s.id)) <==> OwnFeeIn(t, s, finances, monthKey)
  {
    var records := MonthFeeRecords(finances, monthKey);
    forall t ensures t in Filter(records, LinkedToStudent(s.id)) <==> OwnFeeIn(t, s, finances, monthKey) {
      assert t in Filter(records, LinkedToStudent(s.id)) <==> t in records && t.studentId == Some(s.id);
      assert t in records <==> t in finances && IsLinkedFeeIn(monthKey)(t);
    }
  }

  /** A row shows the student's fee record of the month with the latest
      date, none when they have none, and reads paid exactly when that
      record is paid. */
  lemma RowShowsLatestFee(s: Student, finances: seq<Transaction>, monthKey: string)
    ensures var row := RowFor(s, MonthFeeRecords(finances, monthKey));
            (row.primaryTransaction.None? <==> forall t :: !OwnFeeIn(t, s, finances, monthKey)) &&
            (row.primaryTransaction.Some? ==>
               OwnFeeIn(row.primaryTransaction.value, s, finances, monthKey) &&
               forall t :: OwnFeeIn(t, s, finances, monthKey) ==>
                 LexLe(t.transactionDate, row.primaryTransaction.value.transactionDate)) &&
            (row.isPaid <==> row.primaryTransaction.Some? && row.primaryTransaction.value.status == Paid)
  {
    var linked := Filter(MonthFeeRecords(finances, monthKey), LinkedToStudent(s.id));
    OwnFeeRecords(s, finances, monthKey);
    FirstIsLatest(linked);
  }

  // ---------------------------------------------------------------------
  // Requests

  function StatusFor(checked: bool): PaymentStatus {
    if checked then Paid else Pending
  }

  /** `handleTogglePayment`: the row's record rewritten with the new status
      (keeping its date, and falling back to the student's fee and the
      month's description where it has none), or a new fee record. */
  function TogglePaymentRequest(row: FinanceRow, checked: bool, monthKey: string, monthLabel: string, today: Date)
    : (r: TransactionRequest)
    requires ValidDate(today)
  {
    match row.primaryTransaction
    case Some(p) =>
      UpdateTransaction(p.id, TransactionFormInput(
        p.transactionDate, STUDENT_FEE, Income,
        if p.amount != 0 then p.amount else row.student.monthlyFee,
        StatusFor(checked),
        if p.description != "" then p.description else monthLabel + " fee status",
        p.note, Some(row.student.id)))
    case None => AddTransaction(BuildStudentFeePayload(row.student, StatusFor(checked), monthKey, monthLabel, today))
  }

  /** The request carries the switch's status, and the record it writes is
      still a fee record of the student in the selected month. */
  lemma ToggleStaysInMonth(s: Student, finances: seq<Transaction>, checked: bool, monthKey: string, monthLabel: string,
                           today: Date)
    requires ValidDate(today) && 1000 <= today.year <= 9999 && IsMonthKey(monthKey)
    ensures var row := RowFor(s, MonthFeeRecords(finances, monthKey));
            var r := TogglePaymentRequest(row, checked, monthKey, monthLabel, today);
            r.input.status == StatusFor(checked) && (r.input.status == Paid <==> checked) &&
            r.input.category == STUDENT_FEE && r.input.kind == Income && r.input.studentId == Some(s.id) &&
            MonthKeyOf(r.input.transactionDate) == monthKey &&
            (r.UpdateTransaction? <==> row.primaryTransaction.Some?) &&
            (r.UpdateTransaction? ==> r.id == row.primaryTransaction.value.id &&
                                      r.input.transactionDate == row.primaryTransaction.value.transactionDate)
  {
    RowShowsLatestFee(s, finances, monthKey);
    NewTransactionDateInMonth(monthKey, today);
  }

  /** `getFeeDraft`: the typed fee, else the student's fee as text. */
  function FeeDraft(feeDrafts: map<string, string>, s: Student): string {
    if s.id in feeDrafts then feeDrafts[s.id] else IntToString(s.monthlyFee)
  }

  /** The fee a draft holds: none when it is blank or not a number. */
  function ReadFee(draft: string): (fee: Option<int>)
    ensures fee.None? <==> IsBlank(draft) || ParseNumber(draft).None?
    ensures fee.Some? ==> fee == ParseNumber(draft)
  {
    var raw := Trim(draft);
    TrimIdempotent(draft);
    if raw == [] then None else ParseNumber(raw)
  }

  /** `handleSaveMonthlyFee`: nothing for a blank, unreadable or negative
      draft or for the fee the student already has; otherwise the student's
      fields with the new fee. */
  function FeeUpdate(s: Student, draft: string): (r: Option<StudentFormInput>)
    ensures r.None? <==> ReadFee(draft).None? || ReadFee(draft).value < 0 || ReadFee(draft).value == s.monthlyFee
    ensures r.Some? ==>
              r.value == StudentFormInput(s.name, s.phone, Some(s.batch), s.joinDate, Some(ReadFee(draft).value),
                                          Some(s.status), None)
  {
    match ReadFee(draft)
    case None => None
    case Some(next) =>
      if next < 0 || next == s.monthlyFee then None
      else Some(StudentFormInput(s.name, s.phone, Some(s.batch), s.joinDate, Some(next), Some(s.status), None))
  }

  /** The draft a student starts with saves nothing, and neither does the
      draft written back after a save once the student carries the new
      fee. */
  lemma UnchangedFeeSavesNothing(s: Student, next: int)
    ensures FeeUpdate(s, FeeDraft(map[], s)).None?
    ensures FeeUpdate(s.(monthlyFee := next), IntToString(next)).None?
  {
    ParseNumberOfIntToString(s.monthlyFee);
    ParseNumberOfIntToString(next);
  }

  // ---------------------------------------------------------------------
  // The tab's state

  /** The selected month, the typed fee drafts and the last error. */
  class FinanceTabState {
    var selectedMonth: string
    var feeDrafts: map<string, string>
    var actionError: Option<string>

    constructor(today: Date)
      requires ValidDate(today)
      ensures selectedMonth == CurrentMonthKey(today) && feeDrafts == map[] && actionError.None?
    {
      selectedMonth := CurrentMonthKey(today);
      feeDrafts := map[];
      actionError := None;
    }

    /** The effect run when the options change. */
    method SyncSelectedMonth(options: seq<string>, currentMonthKey: string)
      modifies this
      ensures selectedMonth == KeepSelectedMonth(options, old(selectedMonth), currentMonthKey)
      ensures feeDrafts == old(feeDrafts) && actionError == old(actionError)
    {
      if selectedMonth !in options {
        selectedMonth := if options != [] then options[0] else currentMonthKey;
      }
    }

    /** The fee input of a row. */
    method SetFeeDraft(id: string, text: string)
      modifies this
      ensures feeDrafts == old(feeDrafts)[id := text]
      ensures selectedMonth == old(selectedMonth) && actionError == old(actionError)
    {
      feeDrafts := feeDrafts[id := text];
    }

    /** The payment switch of a row; `failure` is what the request threw,
        if anything. */
    method TogglePayment(row: FinanceRow, checked: bool, monthLabel: string, today: Date, failure: Option<Thrown>)
      returns (request: TransactionRequest)
      requires ValidDate(today)
      modifies this
      ensures request == TogglePaymentRequest(row, checked, old(selectedMonth), monthLabel, today)
      ensures actionError == if failure.Some? then Some(ToActionErrorMessage(failure.value)) else None
      ensures selectedMonth == old(selectedMonth) && feeDrafts == old(feeDrafts)
    {
      actionError := None;
      request := TogglePaymentRequest(row, checked, selectedMonth, monthLabel, today);
      if failure.Some? {
        actionError := Some(ToActionErrorMessage(failure.value));
      }
    }

    /** The Save button of a row's fee: nothing changes when there is no
        update to send; after a successful update the draft shows the new
        fee. */
    method SaveMonthlyFee(s: Student, failure: Option<Thrown>) returns (request: Option<StudentFormInput>)
      modifies this
      ensures request == FeeUpdate(s, FeeDraft(old(feeDrafts), s))
      ensures request.None? ==> feeDrafts == old(feeDrafts) && actionError == old(actionError)
      ensures request.Some? && failure.None? ==>
                feeDrafts == old(feeDrafts)[s.id := IntToString(request.value.monthlyFee.value)] && actionError.None?
      ensures request.Some? && failure.Some? ==>
                feeDrafts == old(feeDrafts) && actionError == Some(ToActionErrorMessage(failure.value))
      ensures selectedMonth == old(selectedMonth)
    {
      request := FeeUpdate(s, FeeDraft(feeDrafts, s));
      if request.None? {
        return;
      }
      actionError := None;
      if failure.Some? {
        actionError := Some(ToActionErrorMessage(failure.value));
      } else {
        feeDrafts := feeDrafts[s.id := IntToString(request.value.monthlyFee.value)];
      }
    }
  }
}
