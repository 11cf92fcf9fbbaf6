/** The data provider: the snapshot the pages render, updated after each
    call to the data service by a `prev => next` reducer, and the pass that
    gives every active student a pending fee record for the current month.
    The data service's answers are parameters: a call's outcome, or for the
    monthly dues a function from the record asked for to the outcome. */
module AppDataProvider {
  import opened Wrappers
  import opened Numbers
  import opened Seqs
  import opened Dates
  import opened Domain
  import Snapshots
  import DashboardMetrics

  const DEFAULT_SNAPSHOT := Snapshot([], [], [], BusinessProfile("", "", "", ""))
  const AUTO_DUE_NOTE := "Auto-generated monthly due"

  /** A fee record of the student, in the month as `keyOf` reads the
      record's date. */
  predicate IsDueOf(t: Transaction, student: Student, monthKey: string, keyOf: string -> string) {
    t.category == STUDENT_FEE && t.studentId == Some(student.id) && keyOf(t.transactionDate) == monthKey
  }

  function LacksDue(finances: seq<Transaction>, monthKey: string, keyOf: string -> string): Student -> bool {
    (student: Student) => !(exists t :: t in finances && IsDueOf(t, student, monthKey, keyOf))
  }

  /** `studentsMissingDue`: the active students without a fee record this
      month. */
  function StudentsMissingDue(s: Snapshot, monthKey: string, keyOf: string -> string): (r: seq<Student>)
    ensures forall st :: st in r <==>
              st in s.students && st.status == Active && !(exists t :: t in s.finances && IsDueOf(t, st, monthKey, keyOf))
  {
    Filter(Filter(s.students, DashboardMetrics.IsActive()), LacksDue(s.finances, monthKey, keyOf))
  }

  /** The record asked for on a student's behalf. */
  function DuePayload(student: Student, today: string, monthLabel: string): (p: TransactionFormInput)
    ensures p.category == STUDENT_FEE && p.kind == Income && p.status == Pending
    ensures p.amount == student.monthlyFee && p.studentId == Some(student.id)
    ensures p.transactionDate == today && p.note == Some(AUTO_DUE_NOTE)
    ensures p.description == monthLabel + " fee due"
  {
    TransactionFormInput(today, STUDENT_FEE, Income, student.monthlyFee, Pending, monthLabel + " fee due",
                         Some(AUTO_DUE_NOTE), Some(student.id))
  }

  /** `Promise.all` over the students' records: every record created, in
      order, or the first failure. */
  function CreateAll(students: seq<Student>, today: string, monthLabel: string,
                     service: TransactionFormInput -> Result<Transaction, string>): Result<seq<Transaction>, string>
  {
    if students == [] then Success([])
    else
      match CreateAll(students[..|students| - 1], today, monthLabel, service)
      case Failure(e) => Failure(e)
      case Success(created) =>
        match service(DuePayload(students[|students| - 1], today, monthLabel))
        case Failure(e) => Failure(e)
        case Success(t) => Success(created + [t])
  }

  /** On success, the i-th record is the service's answer for the i-th
      student; on failure, the error is the service's answer for one of
      them. */
  lemma {:induction false} CreateAllOutcome(students: seq<Student>, today: string, monthLabel: string,
                                            service: TransactionFormInput -> Result<Transaction, string>)
    ensures var r := CreateAll(students, today, monthLabel, service);
            (r.Success? ==>
               |r.value| == |students| &&
               forall i :: 0 <= i < |students| ==>
                 service(DuePayload(students[i], today, monthLabel)) == Success(r.value[i])) &&
            (r.Failure? ==>
               exists i :: 0 <= i < |students| && service(DuePayload(students[i], today, monthLabel)) == Failure(r.error))
    decreases |students|
  {
    if students != [] {
      var m := |students| - 1;
      var front := students[..m];
      CreateAllOutcome(front, today, monthLabel, service);
      assert forall i :: 0 <= i < m ==> front[i] == students[i];
      match CreateAll(front, today, monthLabel, service)
      case Failure(e) =>
        var i :| 0 <= i < m && service(DuePayload(front[i], today, monthLabel)) == Failure(e);
      case Success(created) =>
    }
  }

  /** A failure among the first students is the failure of the whole
      batch. */
  lemma {:induction false} CreateAllFailureStays(students: seq<Student>, i: nat, today: string, monthLabel: string,
                                                 service: TransactionFormInput -> Result<Transaction, string>)
    requires i <= |students|
    requires CreateAll(students[..i], today, monthLabel, service).Failure?
    ensures CreateAll(students, today, monthLabel, service) == CreateAll(students[..i], today, monthLabel, service)
    decreases |students|
  {
    if i < |students| {
      var m := |students| - 1;
      var front := students[..m];
      PrefixOfLongerPrefix(students, i, m);
      assert front[..i] == students[..i];
      CreateAllFailureStays(front, i, today, monthLabel, service);
      assert CreateAll(front, today, monthLabel, service) == CreateAll(students[..i], today, monthLabel, service);
      CreateAllFailureExtends(students, today, monthLabel, service);
    } else {
      assert students[..i] == students;
    }
  }

  /** One more student after a failure keeps the failure. */
  lemma CreateAllFailureExtends(students: seq<Student>, today: string, monthLabel: string,
                                service: TransactionFormInput -> Result<Transaction, string>)
    requires students != []
    requires CreateAll(students[..|students| - 1], today, monthLabel, service).Failure?
    ensures CreateAll(students, today, monthLabel, service) == CreateAll(students[..|students| - 1], today, monthLabel, service)
  {
  }

  /** The service stores what it is asked to: the record it returns has the
      date, category and student link of the request. */
  ghost predicate Stores(service: TransactionFormInput -> Result<Transaction, string>) {
    forall p :: service(p).Success? ==>
      service(p).value.transactionDate == p.transactionDate && service(p).value.category == p.category &&
      service(p).value.studentId == p.studentId
  }

  /** After a pass whose records were all created, dated today in the
      current month, every active student has a fee record this month, so
      the next pass finds nobody missing and creates nothing. */
  lemma DuesCoverActiveStudents(s: Snapshot, monthKey: string, today: string, monthLabel: string,
                                service: TransactionFormInput -> Result<Transaction, string>)
    requires MonthKeyOf(today) == monthKey
    requires Stores(service)
    requires CreateAll(StudentsMissingDue(s, monthKey, MonthKeyOf), today, monthLabel, service).Success?
    ensures var created := CreateAll(StudentsMissingDue(s, monthKey, MonthKeyOf), today, monthLabel, service).value;
            var after := Snapshots.AddTransactions(s, created);
            (forall st :: st in after.students && st.status == Active ==>
               exists t :: t in after.finances && IsDueOf(t, st, monthKey, MonthKeyOf)) &&
            StudentsMissingDue(after, monthKey, MonthKeyOf) == []
  {
    var missing := StudentsMissingDue(s, monthKey, MonthKeyOf);
    CreateAllOutcome(missing, today, monthLabel, service);
    var created := CreateAll(missing, today, monthLabel, service).value;
    var after := Snapshots.AddTransactions(s, created);
    forall st | st in after.students && st.status == Active
      ensures exists t :: t in after.finances && IsDueOf(t, st, monthKey, MonthKeyOf)
    {
      if st in missing {
        var i :| 0 <= i < |missing| && missing[i] == st;
        var p := DuePayload(st, today, monthLabel);
        assert service(p) == Success(created[i]);
        assert created[i] in after.finances;
        assert IsDueOf(created[i], st, monthKey, MonthKeyOf);
      } else {
        var t :| t in s.finances && IsDueOf(t, st, monthKey, MonthKeyOf);
        assert t in after.finances;
      }
    }
    NoneKept(Filter(after.students, DashboardMetrics.IsActive()), LacksDue(after.finances, monthKey, MonthKeyOf));
  }

  // ---- The month of a stored date, as written ----

  /** `formatMonthKey` as the browser evaluates it, `utcOffsetMinutes` from
      UTC. */
  function AsWrittenKey(utcOffsetMinutes: int): string -> string {
    (date: string) => MonthKeyOfAsWritten(date, utcOffsetMinutes)
  }

  /** West of UTC (here five hours), a due created on the first of the
      month is read back in the previous month: the next pass still finds
      the student missing a due and creates another, on every pass that
      day. Read as a prefix, the same record is this month's due. */
  lemma AsWrittenDuesRepeatOnFirstOfMonth(s: Snapshot, student: Student, t: Transaction)
    requires s.students == [student] && student.status == Active
    requires s.finances == [t]
    requires t.category == STUDENT_FEE && t.studentId == Some(student.id) && t.transactionDate == "2026-10-01"
    ensures StudentsMissingDue(s, "2026-10", AsWrittenKey(-300)) == [student]
    ensures StudentsMissingDue(s, "2026-10", MonthKeyOf) == []
  {
    FirstOfOctoberAsWritten();
    FirstOfOctoberAsPrefix();
    assert !IsDueOf(t, student, "2026-10", AsWrittenKey(-300));
    assert IsDueOf(t, student, "2026-10", MonthKeyOf);
    var r := StudentsMissingDue(s, "2026-10", AsWrittenKey(-300));
    assert student in r;
  }

  /** "2026-10-01" read five hours west of UTC is in September. */
  lemma FirstOfOctoberAsWritten()
    ensures MonthKeyOfAsWritten("2026-10-01", -300) != "2026-10"
  {
    var date := "2026-10-01";
    assert date[..4] == "2026" && date[5..7] == "10" && date[8..] == "01";
    assert DigitsValue("2026") == 2026 by {
      assert "2026"[..3] == "202" && "202"[..2] == "20" && "20"[..1] == "2" && "2"[..0] == "";
    }
    assert DigitsValue("10") == 10 by {
      assert "10"[..1] == "1" && "1"[..0] == "";
    }
    assert DigitsValue("01") == 1 by {
      assert "01"[..1] == "0" && "0"[..0] == "";
    }
    assert ParseDateKey(date) == Some(Date(2026, 10, 1));
    assert PreviousDay(Date(2026, 10, 1)) == Date(2026, 9, 30);
    var september := MonthKey(YearMonth(2026, 9));
    NatToStringFourDigits(2026);
    assert september == NatToString(2026) + "-" + TwoDigits(9);
    assert TwoDigits(9) == "09";
    assert september[6] == '9';
  }

  /** "2026-10-01" read as a prefix is in October. */
  lemma FirstOfOctoberAsPrefix()
    ensures MonthKeyOf("2026-10-01") == "2026-10"
  {
    var key := "2026-10";
    assert "2026-10-01"[..7] == key;
    assert key[..4] == "2026" && key[5..7] == "10";
    assert DigitsValue("10") == 10 by {
      assert "10"[..1] == "1" && "1"[..0] == "";
    }
  }

  /** The provider's state: the snapshot, the loading flag, and the guard
      that keeps two monthly-dues passes from overlapping. */
  class AppDataProvider {
    var snapshot: Snapshot
    var loading: bool
    var seedingDues: bool

    constructor()
      ensures snapshot == DEFAULT_SNAPSHOT && loading && !seedingDues
    {
      snapshot := DEFAULT_SNAPSHOT;
      loading := true;
      seedingDues := false;
    }

    /** The bootstrap's end: the loaded snapshot, or the empty one when
        loading failed. */
    method FinishLoading(loaded: Result<Snapshot, string>)
      modifies this
      ensures snapshot == (if loaded.Success? then loaded.value else DEFAULT_SNAPSHOT)
      ensures !loading && seedingDues == old(seedingDues)
    {
      snapshot := if loaded.Success? then loaded.value else DEFAULT_SNAPSHOT;
      loading := false;
    }

    method AddStudent(created: Result<Student, string>) returns (r: Outcome<string>)
      modifies this
      ensures created.Failure? ==> snapshot == old(snapshot) && r == Fail(created.error)
      ensures created.Success? ==> snapshot == Snapshots.AddStudent(old(snapshot), created.value) && r == Pass
      ensures loading == old(loading) && seedingDues == old(seedingDues)
    {
      if created.Failure? {
        return Fail(created.error);
      }
      snapshot := Snapshots.AddStudent(snapshot, created.value);
      r := Pass;
    }

    method UpdateStudent(id: string, updated: Result<Student, string>) returns (r: Outcome<string>)
      modifies this
      ensures updated.Failure? ==> snapshot == old(snapshot) && r == Fail(updated.error)
      ensures updated.Success? ==> snapshot == Snapshots.UpdateStudent(old(snapshot), id, updated.value) && r == Pass
      ensures loading == old(loading) && seedingDues == old(seedingDues)
    {
      if updated.Failure? {
        return Fail(updated.error);
      }
      snapshot := Snapshots.UpdateStudent(snapshot, id, updated.value);
      r := Pass;
    }

    method DeleteStudent(id: string, deleted: Outcome<string>) returns (r: Outcome<string>)
      modifies this
      ensures deleted.Fail? ==> snapshot == old(snapshot) && r == deleted
      ensures deleted.Pass? ==> snapshot == Snapshots.DeleteStudent(old(snapshot), id) && r == Pass
      ensures loading == old(loading) && seedingDues == old(seedingDues)
    {
      if deleted.Fail? {
        return deleted;
      }
      snapshot := Snapshots.DeleteStudent(snapshot, id);
      r := Pass;
    }

    method AddTransaction(created: Result<Transaction, string>) returns (r: Outcome<string>)
      modifies this
      ensures created.Failure? ==> snapshot == old(snapshot) && r == Fail(created.error)
      ensures created.Success? ==> snapshot == Snapshots.AddTransaction(old(snapshot), created.value) && r == Pass
      ensures loading == old(loading) && seedingDues == old(seedingDues)
    {
      if created.Failure? {
        return Fail(created.error);
      }
      snapshot := Snapshots.AddTransaction(snapshot, created.value);
      r := Pass;
    }

    /** Used by both `updateTransaction` and `toggleTransactionStatus`: the
        record the service returns replaces the one with the id. */
    method UpdateTransaction(id: string, updated: Result<Transaction, string>) returns (r: Outcome<string>)
      modifies this
      ensures updated.Failure? ==> snapshot == old(snapshot) && r == Fail(updated.error)
      ensures updated.Success? ==> snapshot == Snapshots.UpdateTransaction(old(snapshot), id, updated.value) && r == Pass
      ensures loading == old(loading) && seedingDues == old(seedingDues)
    {
      if updated.Failure? {
        return Fail(updated.error);
      }
      snapshot := Snapshots.UpdateTransaction(snapshot, id, updated.value);
      r := Pass;
    }

    method DeleteTransaction(id: string, deleted: Outcome<string>) returns (r: Outcome<string>)
      modifies this
      ensures deleted.Fail? ==> snapshot == old(snapshot) && r == deleted
      ensures deleted.Pass? ==> snapshot == Snapshots.DeleteTransaction(old(snapshot), id) && r == Pass
      ensures loading == old(loading) && seedingDues == old(seedingDues)
    {
      if deleted.Fail? {
        return deleted;
      }
      snapshot := Snapshots.DeleteTransaction(snapshot, id);
      r := Pass;
    }

    method SaveAttendance(date: string, saved: Result<seq<AttendanceRecord>, string>) returns (r: Outcome<string>)
      modifies this
      ensures saved.Failure? ==> snapshot == old(snapshot) && r == Fail(saved.error)
      ensures saved.Success? ==> snapshot == Snapshots.SaveAttendance(old(snapshot), date, saved.value) && r == Pass
      ensures loading == old(loading) && seedingDues == old(seedingDues)
    {
      if saved.Failure? {
        return Fail(saved.error);
      }
      snapshot := Snapshots.SaveAttendance(snapshot, date, saved.value);
      r := Pass;
    }

    method GetAttendanceForDate(date: string) returns (records: seq<AttendanceRecord>)
      ensures records == Snapshots.AttendanceForDate(snapshot, date)
    {
      records := Snapshots.AttendanceForDate(snapshot, date);
    }

    method UpdateProfile(updated: Result<BusinessProfile, string>) returns (r: Outcome<string>)
      modifies this
      ensures updated.Failure? ==> snapshot == old(snapshot) && r == Fail(updated.error)
      ensures updated.Success? ==> snapshot == Snapshots.UpdateProfile(old(snapshot), updated.value) && r == Pass
      ensures loading == old(loading) && seedingDues == old(seedingDues)
    {
      if updated.Failure? {
        return Fail(updated.error);
      }
      snapshot := Snapshots.UpdateProfile(snapshot, updated.value);
      r := Pass;
    }

    method ResetAllData(next: Result<Snapshot, string>) returns (r: Outcome<string>)
      modifies this
      ensures next.Failure? ==> snapshot == old(snapshot) && r == Fail(next.error)
      ensures next.Success? ==> snapshot == next.value && r == Pass
      ensures loading == old(loading) && seedingDues == old(seedingDues)
    {
      if next.Failure? {
        return Fail(next.error);
      }
      snapshot := next.value;
      r := Pass;
    }

    /** `ensureCurrentMonthStudentDues`: nothing while loading, while
        another pass runs, or when no active student lacks a due; otherwise
        the guard is set, a due is asked for per student, and the created
        records are put first only if every request succeeded. The guard is
        cleared whether or not they did. */
    method EnsureCurrentMonthStudentDues(monthKey: string, today: string, monthLabel: string,
                                         service: TransactionFormInput -> Result<Transaction, string>)
      returns (r: Outcome<string>)
      modifies this
      ensures var missing := StudentsMissingDue(old(snapshot), monthKey, MonthKeyOf);
              old(loading) || old(seedingDues) || missing == [] ==>
                snapshot == old(snapshot) && seedingDues == old(seedingDues) && r == Pass
      ensures var missing := StudentsMissingDue(old(snapshot), monthKey, MonthKeyOf);
              var outcome := CreateAll(missing, today, monthLabel, service);
              !old(loading) && !old(seedingDues) && missing != [] ==>
                !seedingDues &&
                (outcome.Failure? ==> snapshot == old(snapshot) && r == Fail(outcome.error)) &&
                (outcome.Success? ==> snapshot == Snapshots.AddTransactions(old(snapshot), outcome.value) && r == Pass)
      ensures loading == old(loading)
    {
      if loading || seedingDues {
        return Pass;
      }
      var missing := StudentsMissingDue(snapshot, monthKey, MonthKeyOf);
      if missing == [] {
        return Pass;
      }
      seedingDues := true;
      var created: seq<Transaction> := [];
      var i := 0;
      while i < |missing|
        invariant 0 <= i <= |missing|
        invariant CreateAll(missing[..i], today, monthLabel, service) == Success(created)
        invariant seedingDues && snapshot == old(snapshot) && loading == old(loading)
      {
        PrefixOfLongerPrefix(missing, i, i + 1);
        var response := service(DuePayload(missing[i], today, monthLabel));
        if response.Failure? {
          CreateAllFailureStays(missing, i + 1, today, monthLabel, service);
          seedingDues := false;
          return Fail(response.error);
        }
        created := created + [response.value];
        i := i + 1;
      }
      assert missing[..i] == missing;
      snapshot := Snapshots.AddTransactions(snapshot, created);
      seedingDues := false;
      r := Pass;
    }
  }
}
