/** The quick-add transaction dialog: its fields are filled when it opens,
    a category switch adjusts the status and the linked student, and
    submitting checks the fields and builds the transaction input. Today's
    date is a parameter. */
module QuickAddTransaction {
  import opened Wrappers
  import opened Text
  import opened Numbers
  import opened Dates
  import opened Domain
  import opened Failures

  const DEFAULT_CATEGORY := STUDENT_FEE

  /** The dialog's fields as typed; an empty `studentId` is no student. */
  datatype TransactionFields = TransactionFields(
    category: string,
    amount: string,
    transactionDate: string,
    note: string,
    studentId: string,
    status: PaymentStatus)

  /** The fields the dialog opens with: those of the transaction being
      edited (its description, else its note, in the note field), or a
      paid student fee of amount 0 dated today. */
  function OpeningFields(initialData: Option<Transaction>, today: Date): (f: TransactionFields)
    requires ValidDate(today)
    ensures initialData.None? ==> f == TransactionFields(DEFAULT_CATEGORY, "0", DateKey(today), "", "", Paid)
  {
    match initialData
    case Some(t) =>
      TransactionFields(t.category, IntToString(t.amount), t.transactionDate,
                        if t.description != "" then t.description else t.note.UnwrapOr(""),
                        t.studentId.UnwrapOr(""), t.status)
    case None => TransactionFields(DEFAULT_CATEGORY, "0", DateKey(today), "", "", Paid)
  }

  /** `handleCategoryChange`: a fee keeps the status and student; any other
      category is paid and has no student. */
  function ChangeCategory(f: TransactionFields, value: string): (g: TransactionFields)
    ensures g.category == value && g.amount == f.amount && g.transactionDate == f.transactionDate && g.note == f.note
    ensures value == STUDENT_FEE ==> g.status == f.status && g.studentId == f.studentId
    ensures value != STUDENT_FEE ==> g.status == Paid && g.studentId == ""
  {
    if value == STUDENT_FEE then f.(category := value)
    else f.(category := value, status := Paid, studentId := "")
  }

  /** `handleSubmit`: nothing when the category or date is empty or the
      amount is not a positive number; otherwise a fee is income with the
      chosen status and student, anything else a paid expense of no
      student, and a blank note gives the default description and no note. */
  function Payload(f: TransactionFields): (r: Option<TransactionFormInput>)
    ensures r.None? <==>
              f.category == [] || ParseNumber(f.amount).None? || ParseNumber(f.amount).value <= 0 || f.transactionDate == []
    ensures r.Some? ==>
              r.value.transactionDate == f.transactionDate && r.value.category == f.category &&
              r.value.amount == ParseNumber(f.amount).value && r.value.amount > 0
    ensures r.Some? ==> (r.value.kind == Income <==> f.category == STUDENT_FEE)
    ensures r.Some? && f.category != STUDENT_FEE ==> r.value.status == Paid && r.value.studentId.None?
    ensures r.Some? && f.category == STUDENT_FEE ==>
              r.value.status == f.status && r.value.studentId == (if f.studentId == "" then None else Some(f.studentId))
    ensures r.Some? ==>
              (r.value.note.None? <==> IsBlank(f.note)) &&
              (r.value.note.Some? ==> r.value.note.value == Trim(f.note) && r.value.description == Trim(f.note)) &&
              (r.value.note.None? ==> r.value.description == f.category + " transaction")
  {
    var amount := ParseNumber(f.amount);
    if f.category == [] || amount.None? || amount.value <= 0 || f.transactionDate == [] then None
    else
      var isFee := f.category == STUDENT_FEE;
      var note := Trim(f.note);
      Some(TransactionFormInput(
        f.transactionDate, f.category,
        if isFee then Income else Expense,
        amount.value,
        if isFee then f.status else Paid,
        if note != [] then note else f.category + " transaction",
        if note != [] then Some(note) else None,
        if isFee then (if f.studentId != "" then Some(f.studentId) else None) else None))
  }

  /** Choosing a category other than the fee and submitting sends a paid
      expense that is no student's, whatever was chosen before. */
  lemma NonFeeCategoryIsPaidExpense(f: TransactionFields, value: string)
    requires value != STUDENT_FEE
    requires Payload(ChangeCategory(f, value)).Some?
    ensures Payload(ChangeCategory(f, value)).value.kind == Expense
    ensures Payload(ChangeCategory(f, value)).value.status == Paid
    ensures Payload(ChangeCategory(f, value)).value.studentId.None?
  {
  }

  /** Editing a fee record and submitting it unchanged keeps its date,
      amount, status and student. */
  lemma EditResubmitsFee(t: Transaction, today: Date)
    requires ValidDate(today)
    requires t.category == STUDENT_FEE && t.amount > 0 && t.transactionDate != []
    requires t.studentId != Some("")
    ensures var r := Payload(OpeningFields(Some(t), today));
            r.Some? && r.value.transactionDate == t.transactionDate && r.value.amount == t.amount &&
            r.value.kind == Income && r.value.status == t.status && r.value.studentId == t.studentId
  {
    ParseNumberOfIntToString(t.amount);
  }

  /** A new form submits nothing until an amount is typed. */
  lemma FreshFormNeedsAmount(today: Date)
    requires ValidDate(today)
    ensures Payload(OpeningFields(None, today)).None?
  {
    assert "0" == NatToString(0);
    ParseNumberOfIntToString(0);
  }

  const SAVE_FAILED := "Unable to save transaction."
  const SUPABASE_UNREACHABLE := "Could not connect to Supabase. Check project URL/key and network access, then try again."

  /** `toFriendlyErrorMessage`: the thrown message, or a fixed hint when it
      reports a network failure. */
  function ToFriendlyErrorMessage(error: Thrown): (r: string)
    ensures IsNetworkFailure(MessageOf(error, SAVE_FAILED)) ==> r == SUPABASE_UNREACHABLE
    ensures !IsNetworkFailure(MessageOf(error, SAVE_FAILED)) ==> r == MessageOf(error, SAVE_FAILED)
  {
    var message := MessageOf(error, SAVE_FAILED);
    if IsNetworkFailure(message) then SUPABASE_UNREACHABLE else message
  }

  /** A network phrase anywhere in the message, in any letter case, gives
      the hint; short messages pass through. */
  lemma FriendlyErrorOfNetworkPhrase(before: string, phrase: string, after: string, message: string)
    requires ToLower(phrase) in NETWORK_PHRASES && |message| < 11
    ensures ToFriendlyErrorMessage(ErrorText(before + phrase + after)) == SUPABASE_UNREACHABLE
    ensures ToFriendlyErrorMessage(ErrorObject(message)) == message
  {
    NetworkPhraseAnywhere(before, phrase, after);
    ShortMessageIsNotNetworkFailure(message);
  }

  /** The dialog's state. */
  class QuickAddForm {
    var category: string
    var amount: string
    var transactionDate: string
    var note: string
    var studentId: string
    var status: PaymentStatus
    var submitError: Option<string>

    function Fields(): TransactionFields
      reads this
    {
      TransactionFields(category, amount, transactionDate, note, studentId, status)
    }

    constructor(today: Date)
      requires ValidDate(today)
      ensures Fields() == OpeningFields(None, today) && submitError.None?
    {
      category := DEFAULT_CATEGORY;
      amount := "0";
      transactionDate := DateKey(today);
      note := "";
      studentId := "";
      status := Paid;
      submitError := None;
    }

    /** The effect run when the dialog opens: nothing while it is closed. */
    method Prefill(open: bool, initialData: Option<Transaction>, today: Date)
      requires ValidDate(today)
      modifies this
      ensures !open ==> Fields() == old(Fields()) && submitError == old(submitError)
      ensures open ==> Fields() == OpeningFields(initialData, today) && submitError.None?
    {
      if !open {
        return;
      }
      if initialData.Some? {
        var t := initialData.value;
        category := t.category;
        amount := IntToString(t.amount);
        transactionDate := t.transactionDate;
        note := if t.description != "" then t.description else if t.note.Some? then t.note.value else "";
        studentId := if t.studentId.Some? then t.studentId.value else "";
        status := t.status;
        submitError := None;
        return;
      }
      category := DEFAULT_CATEGORY;
      amount := "0";
      transactionDate := DateKey(today);
      note := "";
      studentId := "";
      status := Paid;
      submitError := None;
    }

    /** The category select. */
    method HandleCategoryChange(value: string)
      modifies this
      ensures Fields() == ChangeCategory(old(Fields()), value) && submitError == old(submitError)
    {
      category := value;
      if value != STUDENT_FEE {
        status := Paid;
        studentId := "";
      }
    }

    /** The submit button: the payload sent, if any; `failure` is what the
        request threw, if anything. */
    method Submit(failure: Option<Thrown>) returns (sent: Option<TransactionFormInput>)
      modifies this
      ensures sent == Payload(old(Fields())) && Fields() == old(Fields())
      ensures sent.None? ==> submitError == old(submitError)
      ensures sent.Some? ==> submitError == if failure.Some? then Some(ToFriendlyErrorMessage(failure.value)) else None
    {
      sent := Payload(Fields());
      if sent.None? {
        return;
      }
      submitError := None;
      if failure.Some? {
        submitError := Some(ToFriendlyErrorMessage(failure.value));
      }
    }
  }
}
