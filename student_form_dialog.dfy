/** The add/edit student dialog: its fields are filled when it opens, and
    submitting checks them and builds the student input. Today's date is a
    parameter. */
module StudentFormDialog {
  import opened Wrappers
  import opened Text
  import opened Numbers
  import opened Dates
  import opened Domain

  /** The dialog's text fields as typed. */
  datatype FormFields = FormFields(
    name: string,
    phone: string,
    batch: Batch,
    monthlyFee: string,
    joinDate: string,
    teacher: string)

  const DEFAULT_FEE_TEXT := "3000"

  /** The fields the dialog opens with: a copy of the student being edited,
      or an empty form for today with the default fee and the morning batch. */
  function OpeningFields(initialData: Option<Student>, today: Date): (f: FormFields)
    requires ValidDate(today)
    ensures initialData.None? ==> f == FormFields("", "", Morning, DEFAULT_FEE_TEXT, DateKey(today), "")
  {
    match initialData
    case Some(s) => FormFields(s.name, s.phone, s.batch, IntToString(s.monthlyFee), s.joinDate, s.teacher.UnwrapOr(""))
    case None => FormFields("", "", Morning, DEFAULT_FEE_TEXT, DateKey(today), "")
  }

  /** The default fee text reads as the default monthly fee. */
  lemma DefaultFeeIsDefaultMonthlyFee()
    ensures ParseNumber(DEFAULT_FEE_TEXT) == Some(DEFAULT_MONTHLY_FEE)
  {
    assert DEFAULT_FEE_TEXT == NatToString(3000) by {
      assert NatToString(3) == "3";
      assert NatToString(30) == "30";
      assert NatToString(300) == "300";
    }
    ParseNumberOfIntToString(3000);
  }

  /** `teacher.trim() || undefined` */
  function TeacherInput(teacher: string): (t: Option<string>)
    ensures t.Some? ==> t.value != [] && IsTrimmed(t.value)
    ensures t.None? <==> IsBlank(teacher)
  {
    if Trim(teacher) == [] then None else Some(Trim(teacher))
  }

  /** `handleSubmit`: nothing when the name or phone is blank, the join
      date is empty, or the fee is not a number or negative; otherwise the
      trimmed fields, the edited student's status (none for a new one) and
      the fee. */
  function Submission(f: FormFields, initialData: Option<Student>): (r: Option<StudentFormInput>)
    ensures r.None? <==>
              IsBlank(f.name) || IsBlank(f.phone) || f.joinDate == [] ||
              ParseNumber(f.monthlyFee).None? || ParseNumber(f.monthlyFee).value < 0
    ensures r.Some? ==>
              r.value.name == Trim(f.name) && r.value.phone == Trim(f.phone) &&
              r.value.batch == Some(f.batch) && r.value.joinDate == f.joinDate &&
              r.value.monthlyFee == ParseNumber(f.monthlyFee) &&
              r.value.teacher == TeacherInput(f.teacher) &&
              (r.value.status.Some? <==> initialData.Some?) &&
              (initialData.Some? ==> r.value.status == Some(initialData.value.status))
  {
    var fee := ParseNumber(f.monthlyFee);
    if Trim(f.name) == [] || Trim(f.phone) == [] || f.joinDate == [] || fee.None? || fee.value < 0 then None
    else
      var status := if initialData.Some? then Some(initialData.value.status) else None;
      Some(StudentFormInput(Trim(f.name), Trim(f.phone), Some(f.batch), f.joinDate, fee, status,
                            TeacherInput(f.teacher)))
  }

  /** Opening the dialog on a student and submitting it unchanged sends
      the student back as it is, when its fields are already clean. */
  lemma EditResubmitsStudent(s: Student, today: Date)
    requires ValidDate(today)
    requires s.name != [] && IsTrimmed(s.name) && s.phone != [] && IsTrimmed(s.phone)
    requires s.joinDate != [] && s.monthlyFee >= 0
    requires s.teacher.Some? ==> s.teacher.value != [] && IsTrimmed(s.teacher.value)
    ensures Submission(OpeningFields(Some(s), today), Some(s)) ==
              Some(StudentFormInput(s.name, s.phone, Some(s.batch), s.joinDate, Some(s.monthlyFee), Some(s.status), s.teacher))
  {
    TrimmedIsFixed(s.name);
    TrimmedIsFixed(s.phone);
    ParseNumberOfIntToString(s.monthlyFee);
    if s.teacher.Some? {
      TrimmedIsFixed(s.teacher.value);
    }
  }

  /** A fresh dialog submits nothing until a name and phone are typed. */
  lemma FreshFormNeedsNameAndPhone(today: Date)
    requires ValidDate(today)
    ensures Submission(OpeningFields(None, today), None).None?
  {
  }

  /** The dialog's state. */
  class StudentForm {
    var name: string
    var phone: string
    var batch: Batch
    var monthlyFee: string
    var joinDate: string
    var teacher: string

    function Fields(): FormFields
      reads this
    {
      FormFields(name, phone, batch, monthlyFee, joinDate, teacher)
    }

    constructor(today: Date)
      requires ValidDate(today)
      ensures Fields() == OpeningFields(None, today)
    {
      name := "";
      phone := "";
      batch := Morning;
      monthlyFee := DEFAULT_FEE_TEXT;
      joinDate := DateKey(today);
      teacher := "";
    }

    /** The effect run when the dialog opens or its student changes: it
        does nothing while the dialog is closed. */
    method Prefill(open: bool, initialData: Option<Student>, today: Date)
      requires ValidDate(today)
      modifies this
      ensures !open ==> Fields() == old(Fields())
      ensures open ==> Fields() == OpeningFields(initialData, today)
    {
      if !open {
        return;
      }
      if initialData.Some? {
        var s := initialData.value;
        name := s.name;
        phone := s.phone;
        batch := s.batch;
        monthlyFee := IntToString(s.monthlyFee);
        joinDate := s.joinDate;
        teacher := if s.teacher.Some? && s.teacher.value != "" then s.teacher.value else "";
        return;
      }
      name := "";
      phone := "";
      batch := Morning;
      monthlyFee := DEFAULT_FEE_TEXT;
      joinDate := DateKey(today);
      teacher := "";
    }

    /** Typing into the fields. */
    method Edit(f: FormFields)
      modifies this
      ensures Fields() == f
    {
      name, phone, batch, monthlyFee, joinDate, teacher := f.name, f.phone, f.batch, f.monthlyFee, f.joinDate, f.teacher;
    }

    /** The submit button: the input sent, if any. */
    method Submit(initialData: Option<Student>) returns (r: Option<StudentFormInput>)
      ensures r == Submission(Fields(), initialData)
    {
      r := Submission(Fields(), initialData);
    }
  }
}
