/** The snapshot updates applied after each mutation. The in-memory data
    service applies them to its own snapshot, and the data provider applies
    the same `prev => next` reducers to the snapshot it renders. */
module Snapshots {
  import opened Wrappers
  import opened Seqs
  import opened Domain

  function StudentHasId(id: string): Student -> bool {
    (s: Student) => s.id == id
  }

  function StudentOtherThan(id: string): Student -> bool {
    (s: Student) => s.id != id
  }

  function TransactionHasId(id: string): Transaction -> bool {
    (t: Transaction) => t.id == id
  }

  function TransactionOtherThan(id: string): Transaction -> bool {
    (t: Transaction) => t.id != id
  }

  function AttendanceNotOf(id: string): AttendanceRecord -> bool {
    (a: AttendanceRecord) => a.studentId != id
  }

  function DatedOn(date: string): AttendanceRecord -> bool {
    (a: AttendanceRecord) => a.attendanceDate == date
  }

  function DatedOtherThan(date: string): AttendanceRecord -> bool {
    (a: AttendanceRecord) => a.attendanceDate != date
  }

  /** A finance record with its link to student `id` removed. */
  function Unlink(t: Transaction, id: string): (r: Transaction)
    ensures r.studentId != Some(id)
    ensures r.(studentId := t.studentId) == t
  {
    if t.studentId == Some(id) then t.(studentId := None) else t
  }

  /** `[student, ...prev.students]` */
  function AddStudent(s: Snapshot, student: Student): (r: Snapshot)
    ensures |r.students| == |s.students| + 1 && r.students[0] == student && r.students[1..] == s.students
    ensures r.finances == s.finances && r.attendance == s.attendance && r.profile == s.profile
  {
    s.(students := [student] + s.students)
  }

  /** `prev.students.map(student => student.id === id ? updated : student)` */
  function UpdateStudent(s: Snapshot, id: string, updated: Student): (r: Snapshot)
    ensures |r.students| == |s.students|
    ensures forall i :: 0 <= i < |s.students| ==>
              r.students[i] == if s.students[i].id == id then updated else s.students[i]
    ensures r.finances == s.finances && r.attendance == s.attendance && r.profile == s.profile
  {
    s.(students := ReplaceWhere(s.students, StudentHasId(id), updated))
  }

  /** Removes the student and their attendance and unlinks their finance
      records. */
  function DeleteStudent(s: Snapshot, id: string): (r: Snapshot)
    ensures r.profile == s.profile
  {
    s.(students := Filter(s.students, StudentOtherThan(id)),
       attendance := Filter(s.attendance, AttendanceNotOf(id)),
       finances := seq(|s.finances|, i requires 0 <= i < |s.finances| => Unlink(s.finances[i], id)))
  }

  /** `[transaction, ...prev.finances]` */
  function AddTransaction(s: Snapshot, t: Transaction): (r: Snapshot)
    ensures |r.finances| == |s.finances| + 1 && r.finances[0] == t && r.finances[1..] == s.finances
    ensures r.students == s.students && r.attendance == s.attendance && r.profile == s.profile
  {
    s.(finances := [t] + s.finances)
  }

  /** `[...created, ...prev.finances]` */
  function AddTransactions(s: Snapshot, created: seq<Transaction>): (r: Snapshot)
    ensures r.finances == created + s.finances
    ensures r.students == s.students && r.attendance == s.attendance && r.profile == s.profile
  {
    s.(finances := created + s.finances)
  }

  /** `prev.finances.map(item => item.id === id ? updated : item)`, used by
      both editing and toggling a record. */
  function UpdateTransaction(s: Snapshot, id: string, updated: Transaction): (r: Snapshot)
    ensures |r.finances| == |s.finances|
    ensures forall i :: 0 <= i < |s.finances| ==>
              r.finances[i] == if s.finances[i].id == id then updated else s.finances[i]
    ensures r.students == s.students && r.attendance == s.attendance && r.profile == s.profile
  {
    s.(finances := ReplaceWhere(s.finances, TransactionHasId(id), updated))
  }

  function DeleteTransaction(s: Snapshot, id: string): (r: Snapshot)
    ensures r.students == s.students && r.attendance == s.attendance && r.profile == s.profile
  {
    s.(finances := Filter(s.finances, TransactionOtherThan(id)))
  }

  /** `getAttendanceForDate(date)` */
  function AttendanceForDate(s: Snapshot, date: string): (r: seq<AttendanceRecord>)
    ensures forall a :: a in r <==> a in s.attendance && a.attendanceDate == date
  {
    Filter(s.attendance, DatedOn(date))
  }

  /** The records of other dates, then the saved ones. */
  function SaveAttendance(s: Snapshot, date: string, saved: seq<AttendanceRecord>): (r: Snapshot)
    ensures r.students == s.students && r.finances == s.finances && r.profile == s.profile
  {
    s.(attendance := Filter(s.attendance, DatedOtherThan(date)) + saved)
  }

  function UpdateProfile(s: Snapshot, profile: BusinessProfile): (r: Snapshot)
    ensures r.students == s.students && r.finances == s.finances && r.attendance == s.attendance
    ensures r.profile == profile
  {
    s.(profile := profile)
  }

  /** Deleting a student leaves nothing that refers to them: no student
      with that id, no attendance for them and no finance record linked to
      them. Every finance record stays, unchanged apart from the link, and
      the other students and attendance keep their order. */
  lemma DeleteStudentCascade(s: Snapshot, id: string)
    ensures var r := DeleteStudent(s, id);
            (forall x :: x in r.students <==> x in s.students && x.id != id) &&
            (forall a :: a in r.attendance <==> a in s.attendance && a.studentId != id) &&
            |r.finances| == |s.finances| &&
            (forall i :: 0 <= i < |s.finances| ==>
               !LinkedTo(r.finances[i], id) && r.finances[i].(studentId := s.finances[i].studentId) == s.finances[i] &&
               (!LinkedTo(s.finances[i], id) ==> r.finances[i] == s.finances[i])) &&
            IsSubsequence(r.students, s.students) && IsSubsequence(r.attendance, s.attendance)
  {
    FilterIsSubsequence(s.students, StudentOtherThan(id));
    FilterIsSubsequence(s.attendance, AttendanceNotOf(id));
  }

  /** Updating by id touches only the record with that id: with ids
      unique, that record becomes `updated` and every other one stays. */
  lemma UpdateTransactionOnlyTarget(s: Snapshot, id: string, updated: Transaction, k: nat)
    requires k < |s.finances| && s.finances[k].id == id
    requires forall i, j :: 0 <= i < j < |s.finances| ==> s.finances[i].id != s.finances[j].id
    ensures var r := UpdateTransaction(s, id, updated);
            r.finances[k] == updated && r.finances[..k] == s.finances[..k] && r.finances[k + 1..] == s.finances[k + 1..]
  {
  }

  /** Deleting a record by id removes exactly the records with that id and
      keeps the rest in order. */
  lemma DeleteTransactionRemovesOnlyTarget(s: Snapshot, id: string)
    ensures var r := DeleteTransaction(s, id);
            (forall t :: t in r.finances <==> t in s.finances && t.id != id) &&
            IsSubsequence(r.finances, s.finances)
  {
    FilterIsSubsequence(s.finances, TransactionOtherThan(id));
  }

  /** After saving a date, that date's records are exactly the saved ones
      and every other date's records are as they were. */
  lemma SaveAttendanceReplacesOnlyThatDate(s: Snapshot, date: string, saved: seq<AttendanceRecord>, other: string)
    requires forall a :: a in saved ==> a.attendanceDate == date
    requires other != date
    ensures AttendanceForDate(SaveAttendance(s, date, saved), date) == saved
    ensures AttendanceForDate(SaveAttendance(s, date, saved), other) == AttendanceForDate(s, other)
  {
    var kept := Filter(s.attendance, DatedOtherThan(date));
    FilterConcat(kept, saved, DatedOn(date));
    FilterConcat(kept, saved, DatedOn(other));
    FilterCompose(s.attendance, DatedOtherThan(date), DatedOn(date));
    FilterCompose(s.attendance, DatedOtherThan(date), DatedOn(other));
    FilterKeepsAll(saved, DatedOn(date));
    NoneKept(saved, DatedOn(other));
    NoneKept(s.attendance, Both(DatedOtherThan(date), DatedOn(date)));
    FilterSame(s.attendance, Both(DatedOtherThan(date), DatedOn(other)), DatedOn(other));
  }

  /** Deleting a student just added, whose id nothing refers to yet, gives
      back the snapshot from before. */
  lemma AddThenDeleteStudent(s: Snapshot, student: Student)
    requires forall x :: x in s.students ==> x.id != student.id
    requires forall a :: a in s.attendance ==> a.studentId != student.id
    requires forall t :: t in s.finances ==> !LinkedTo(t, student.id)
    ensures DeleteStudent(AddStudent(s, student), student.id) == s
  {
    var r := DeleteStudent(AddStudent(s, student), student.id);
    assert ([student] + s.students)[1..] == s.students;
    FilterKeepsAll(s.students, StudentOtherThan(student.id));
    FilterKeepsAll(s.attendance, AttendanceNotOf(student.id));
    forall i | 0 <= i < |s.finances| ensures r.finances[i] == s.finances[i] {
      assert s.finances[i] in s.finances;
    }
    assert r.finances == s.finances;
  }

  /** Deleting a record just added, whose id no other record has, gives
      back the snapshot from before. */
  lemma AddThenDeleteTransaction(s: Snapshot, t: Transaction)
    requires forall x :: x in s.finances ==> x.id != t.id
    ensures DeleteTransaction(AddTransaction(s, t), t.id) == s
  {
    assert ([t] + s.finances)[1..] == s.finances;
    FilterKeepsAll(s.finances, TransactionOtherThan(t.id));
  }
}
