/** The student directory: the search box over all students, and the
    requests its row buttons and the add/edit dialog send. The requests are
    returned as values; sending them and the in-flight flags around them
    belong to the provider. */
module StudentDirectoryTab {
  import opened Wrappers
  import opened Text
  import opened Domain
  import opened Seqs

  /** `isValidBatch`: the batch a value names, if it names one. */
  function ParseBatch(value: string): (b: Option<Batch>)
    ensures b.Some? <==> value == "morning" || value == "evening"
    ensures b.Some? ==> BatchName(b.value) == value
  {
    if value == "morning" then Some(Morning)
    else if value == "evening" then Some(Evening)
    else None
  }

  /** Every batch's own name is valid and reads back as that batch. */
  lemma ParseBatchOfName(b: Batch)
    ensures ParseBatch(BatchName(b)) == Some(b)
  {
  }

  /** A student matches when the lower-cased name, phone or batch contains
      the query. */
  function MatchesQuery(query: string): Student -> bool {
    (s: Student) =>
      Contains(ToLower(s.name), query) || Contains(ToLower(s.phone), query) ||
      Contains(ToLower(BatchName(s.batch)), query)
  }

  /** `filteredStudents`: everyone for a blank search, else those matching
      the trimmed, lower-cased search text, in their order. */
  function SearchStudents(students: seq<Student>, search: string): seq<Student> {
    if Trim(search) == [] then students
    else Filter(students, MatchesQuery(ToLower(Trim(search))))
  }

  /** The result is drawn from the list in its order; a blank search keeps
      it whole, any other keeps exactly the matching students. */
  lemma SearchStudentsSelects(students: seq<Student>, search: string)
    ensures IsSubsequence(SearchStudents(students, search), students)
    ensures IsBlank(search) ==> SearchStudents(students, search) == students
    ensures !IsBlank(search) ==>
              forall s :: s in SearchStudents(students, search) <==>
                s in students && MatchesQuery(ToLower(Trim(search)))(s)
  {
    if Trim(search) == [] {
      SubsequenceReflexive(students);
    } else {
      FilterIsSubsequence(students, MatchesQuery(ToLower(Trim(search))));
    }
  }

  /** The request the student form's submit sends: an update of the student
      being edited, otherwise a new student. */
  datatype StudentRequest = AddStudent(input: StudentFormInput) | UpdateStudent(id: string, input: StudentFormInput)

  /** `handleSubmit`: the request, and who is being edited afterwards (no
      one once an update went through; a failed request leaves it as is). */
  function SubmitRequest(editing: Option<Student>, input: StudentFormInput, succeeded: bool)
    : (r: (StudentRequest, Option<Student>))
    ensures r.0.input == input
    ensures r.0.UpdateStudent? <==> editing.Some?
    ensures r.0.UpdateStudent? ==> r.0.id == editing.value.id
    ensures r.1 == if succeeded then None else editing
  {
    if editing.Some? then
      (UpdateStudent(editing.value.id, input), if succeeded then None else editing)
    else (AddStudent(input), None)
  }

  /** The fields the row buttons send back: the student's own, with the
      given status and batch, and no teacher. */
  function ResentInput(s: Student, status: StudentStatus, batch: Batch): StudentFormInput {
    StudentFormInput(s.name, s.phone, Some(batch), s.joinDate, Some(s.monthlyFee), Some(status), None)
  }

  /** The status a switch position stands for. */
  function StatusFor(checked: bool): StudentStatus {
    if checked then Active else Inactive
  }

  /** `handleToggleStatus`: the student's fields resent with the switch's
      status. */
  function ToggleStatusRequest(s: Student, checked: bool): (r: StudentRequest)
    ensures r.UpdateStudent? && r.id == s.id
    ensures r.input.status == Some(StatusFor(checked)) && (r.input.status == Some(Active) <==> checked)
    ensures r.input.name == s.name && r.input.phone == s.phone && r.input.batch == Some(s.batch) &&
            r.input.joinDate == s.joinDate && r.input.monthlyFee == Some(s.monthlyFee)
  {
    UpdateStudent(s.id, ResentInput(s, StatusFor(checked), s.batch))
  }

  /** The status button passes the opposite of the current status, so it
      always asks for the other one. */
  lemma StatusButtonFlips(s: Student)
    ensures ToggleStatusRequest(s, s.status != Active).input.status == Some(if s.status == Active then Inactive else Active)
    ensures ToggleStatusRequest(s, s.status != Active).input.status != Some(s.status)
  {
  }

  function OtherBatch(b: Batch): (r: Batch)
    ensures r != b
  {
    if b == Morning then Evening else Morning
  }

  /** `handleSetBatch`: nothing for a value that is not a batch or is the
      student's batch already; otherwise the student's fields with the new
      batch. */
  function SetBatchRequest(s: Student, nextBatch: string): (r: Option<StudentRequest>)
    ensures r.None? <==> ParseBatch(nextBatch).None? || ParseBatch(nextBatch) == Some(s.batch)
    ensures r.Some? ==> r.value == UpdateStudent(s.id, ResentInput(s, s.status, ParseBatch(nextBatch).value))
    ensures r.Some? ==> r.value.input.batch != Some(s.batch)
  {
    match ParseBatch(nextBatch)
    case None => None
    case Some(b) => if b == s.batch then None else Some(UpdateStudent(s.id, ResentInput(s, s.status, b)))
  }

  /** The batch button asks for the other batch; asking again once the
      student is in it sends nothing. */
  lemma BatchButtonSwitches(s: Student)
    ensures SetBatchRequest(s, BatchName(OtherBatch(s.batch))) ==
            Some(UpdateStudent(s.id, ResentInput(s, s.status, OtherBatch(s.batch))))
    ensures SetBatchRequest(s.(batch := OtherBatch(s.batch)), BatchName(OtherBatch(s.batch))).None?
  {
    ParseBatchOfName(OtherBatch(s.batch));
  }
}
