/** The in-memory data service used when no database is configured: a
    snapshot of the panel's records and a list of user accounts, both
    updated in place by each operation. */
module MockDataService {
  import opened Wrappers
  import opened Text
  import opened Numbers
  import opened Seqs
  import opened Domain
  import Snapshots

  /** `createId(prefix)`, with a counter in place of the random part. */
  function FreshId(prefix: string, counter: nat): string {
    prefix + "-" + NatToString(counter)
  }

  /** Ids drawn from different counter values differ. */
  lemma FreshIdsDiffer(prefix: string, m: nat, n: nat)
    requires m != n
    ensures FreshId(prefix, m) != FreshId(prefix, n)
  {
    if FreshId(prefix, m) == FreshId(prefix, n) {
      var k := |prefix + "-"|;
      assert NatToString(m) == FreshId(prefix, m)[k..];
      assert NatToString(n) == FreshId(prefix, n)[k..];
      DigitsValueOfNatToString(m);
      DigitsValueOfNatToString(n);
    }
  }

  /** The student `addStudent(input)` creates: a missing batch is the
      morning batch, a missing status is active and a missing fee is the
      default fee. The teacher name is not stored. */
  function NewStudent(input: StudentFormInput, id: string): Student {
    Student(id, input.name, input.phone, input.batch.UnwrapOr(Morning), input.joinDate,
            input.status.UnwrapOr(Active), input.monthlyFee.UnwrapOr(DEFAULT_MONTHLY_FEE), None)
  }

  /** `{ ...current, ...input }`: fields the input leaves out keep the
      current values. */
  function EditedStudent(current: Student, input: StudentFormInput): Student {
    current.(name := input.name, phone := input.phone, batch := input.batch.UnwrapOr(current.batch),
             joinDate := input.joinDate, status := input.status.UnwrapOr(current.status),
             monthlyFee := input.monthlyFee.UnwrapOr(current.monthlyFee))
  }

  function NewTransaction(input: TransactionFormInput, id: string): Transaction {
    Transaction(id, input.transactionDate, input.category, input.kind, input.amount, input.status,
                input.description, input.note, input.studentId)
  }

  function EditedTransaction(current: Transaction, input: TransactionFormInput): Transaction {
    NewTransaction(input, current.id)
  }

  /** The record with its payment status flipped. */
  function Toggled(t: Transaction): (r: Transaction)
    ensures r.status != t.status
    ensures r.(status := t.status) == t
  {
    t.(status := if t.status == Paid then Pending else Paid)
  }

  // ---- The attendance map of one date ----

  function ForStudent(studentId: string): AttendanceRecord -> bool {
    (a: AttendanceRecord) => a.studentId == studentId
  }

  /** `byStudent.get(studentId)`, the map kept as its entries in insertion
      order. */
  function Lookup(m: seq<AttendanceRecord>, studentId: string): Option<AttendanceRecord> {
    match FindIndex(m, ForStudent(studentId))
    case None => None
    case Some(i) => Some(m[i])
  }

  /** `byStudent.set(record.studentId, record)`: an existing entry is
      replaced where it stands, a new one goes last. */
  function SetRecord(m: seq<AttendanceRecord>, record: AttendanceRecord): seq<AttendanceRecord> {
    match FindIndex(m, ForStudent(record.studentId))
    case None => m + [record]
    case Some(i) => m[i := record]
  }

  predicate OnePerStudent(m: seq<AttendanceRecord>) {
    forall i, j :: 0 <= i < j < |m| ==> m[i].studentId != m[j].studentId
  }

  /** Setting a record is a map update: it stays one record per student,
      the record's student now finds it, and every other student finds what
      they found before. */
  lemma SetRecordLaw(m: seq<AttendanceRecord>, record: AttendanceRecord, studentId: string)
    requires OnePerStudent(m)
    ensures OnePerStudent(SetRecord(m, record))
    ensures Lookup(SetRecord(m, record), studentId) ==
              if studentId == record.studentId then Some(record) else Lookup(m, studentId)
  {
    var r := SetRecord(m, record);
    var at := FindIndex(m, ForStudent(record.studentId));
    var found := FindIndex(m, ForStudent(studentId));
    assert forall j :: 0 <= j < |m| && (at.None? || j != at.value) ==> r[j] == m[j];
    if studentId == record.studentId {
      var k := if at.Some? then at.value else |m|;
      FindIndexIsFirst(r, ForStudent(studentId), k);
    } else if found.Some? {
      FindIndexIsFirst(r, ForStudent(studentId), found.value);
    }
  }

  /** `new Map(records.map(item => [item.studentId, item]))` */
  function ByStudent(records: seq<AttendanceRecord>): seq<AttendanceRecord> {
    if records == [] then []
    else SetRecord(ByStudent(records[..|records| - 1]), records[|records| - 1])
  }

  /** The map of existing records holds one record per student, the last
      one each student had. */
  lemma {:induction false} ByStudentLaw(records: seq<AttendanceRecord>, studentId: string)
    ensures OnePerStudent(ByStudent(records))
    ensures Lookup(ByStudent(records), studentId).None? <==> forall a :: a in records ==> a.studentId != studentId
    ensures Lookup(ByStudent(records), studentId).Some? ==> Lookup(ByStudent(records), studentId).value in records
    ensures forall a :: a in ByStudent(records) ==> a in records
  {
    if records != [] {
      var init := records[..|records| - 1];
      var last := records[|records| - 1];
      assert records == init + [last];
      ByStudentLaw(init, studentId);
      SetRecordLaw(ByStudent(init), last, studentId);
      SetRecordMembers(ByStudent(init), last);
    }
  }

  lemma SetRecordMembers(m: seq<AttendanceRecord>, record: AttendanceRecord)
    ensures forall a :: a in SetRecord(m, record) ==> a in m || a == record
  {
  }

  /** The record an attendance draft is saved as; a blank note is dropped
      and any other note trimmed. */
  function DraftRecord(entry: AttendanceDraft, date: string, id: string): (r: AttendanceRecord)
    ensures r.note.Some? ==> r.note.value != [] && IsTrimmed(r.note.value)
  {
    var note := if entry.note.Some? && Trim(entry.note.value) != [] then Some(Trim(entry.note.value)) else None;
    AttendanceRecord(id, entry.studentId, entry.studentName, entry.batch, date, entry.status, note)
  }

  datatype Merge = Merge(records: seq<AttendanceRecord>, counter: nat)

  /** Folding the drafts into the map: a student already present keeps
      their record id, a new one draws a fresh id. */
  function MergeDrafts(m: seq<AttendanceRecord>, entries: seq<AttendanceDraft>, date: string, counter: nat): (r: Merge)
    ensures r.counter >= counter
  {
    if entries == [] then Merge(m, counter)
    else
      var before := MergeDrafts(m, entries[..|entries| - 1], date, counter);
      var entry := entries[|entries| - 1];
      var current := Lookup(before.records, entry.studentId);
      if current.Some? then Merge(SetRecord(before.records, DraftRecord(entry, date, current.value.id)), before.counter)
      else Merge(SetRecord(before.records, DraftRecord(entry, date, FreshId("att", before.counter))), before.counter + 1)
  }

  lemma MergeDraftsSnoc(m: seq<AttendanceRecord>, entries: seq<AttendanceDraft>, entry: AttendanceDraft, date: string, counter: nat)
    ensures var before := MergeDrafts(m, entries, date, counter);
            var current := Lookup(before.records, entry.studentId);
            MergeDrafts(m, entries + [entry], date, counter) ==
              if current.Some? then Merge(SetRecord(before.records, DraftRecord(entry, date, current.value.id)), before.counter)
              else Merge(SetRecord(before.records, DraftRecord(entry, date, FreshId("att", before.counter))), before.counter + 1)
  {
    assert (entries + [entry])[..|entries|] == entries;
  }

  /** The merged map keeps one record per student. */
  lemma {:induction false} MergeDraftsOnePerStudent(m: seq<AttendanceRecord>, entries: seq<AttendanceDraft>, date: string, counter: nat)
    requires OnePerStudent(m)
    ensures OnePerStudent(MergeDrafts(m, entries, date, counter).records)
  {
    if entries != [] {
      var init, entry := entries[..|entries| - 1], entries[|entries| - 1];
      MergeDraftsOnePerStudent(m, init, date, counter);
      var before := MergeDrafts(m, init, date, counter);
      var current := Lookup(before.records, entry.studentId);
      var id := if current.Some? then current.value.id else FreshId("att", before.counter);
      SetRecordLaw(before.records, DraftRecord(entry, date, id), entry.studentId);
    }
  }

  /** Merging one more draft: its student finds the draft's record, any
      other student finds what they found before, and a student already
      present keeps their record id. */
  lemma MergeDraftsStep(m: seq<AttendanceRecord>, entries: seq<AttendanceDraft>, entry: AttendanceDraft, date: string, counter: nat, studentId: string)
    requires OnePerStudent(m)
    ensures var before := MergeDrafts(m, entries, date, counter).records;
            var after := MergeDrafts(m, entries + [entry], date, counter).records;
            (studentId != entry.studentId ==> Lookup(after, studentId) == Lookup(before, studentId)) &&
            (studentId == entry.studentId ==>
               Lookup(after, studentId).Some? &&
               Lookup(after, studentId).value == DraftRecord(entry, date, Lookup(after, studentId).value.id) &&
               (Lookup(before, studentId).Some? ==> Lookup(after, studentId).value.id == Lookup(before, studentId).value.id))
  {
    MergeDraftsOnePerStudent(m, entries, date, counter);
    MergeDraftsSnoc(m, entries, entry, date, counter);
    var before := MergeDrafts(m, entries, date, counter);
    var current := Lookup(before.records, entry.studentId);
    var id := if current.Some? then current.value.id else FreshId("att", before.counter);
    SetRecordLaw(before.records, DraftRecord(entry, date, id), studentId);
  }

  /** A student with no draft finds what the map held before. */
  lemma {:induction false} MergeDraftsUndrafted(m: seq<AttendanceRecord>, entries: seq<AttendanceDraft>, date: string, counter: nat, studentId: string)
    requires OnePerStudent(m)
    requires forall e :: e in entries ==> e.studentId != studentId
    ensures Lookup(MergeDrafts(m, entries, date, counter).records, studentId) == Lookup(m, studentId)
  {
    if entries != [] {
      var init, entry := entries[..|entries| - 1], entries[|entries| - 1];
      assert entries == init + [entry];
      MergeDraftsUndrafted(m, init, date, counter, studentId);
      MergeDraftsStep(m, init, entry, date, counter, studentId);
    }
  }

  /** A student already in the map keeps their record id. */
  lemma {:induction false} MergeDraftsKeepsIds(m: seq<AttendanceRecord>, entries: seq<AttendanceDraft>, date: string, counter: nat, studentId: string)
    requires OnePerStudent(m)
    requires Lookup(m, studentId).Some?
    ensures Lookup(MergeDrafts(m, entries, date, counter).records, studentId).Some?
    ensures Lookup(MergeDrafts(m, entries, date, counter).records, studentId).value.id == Lookup(m, studentId).value.id
  {
    if entries != [] {
      var init, entry := entries[..|entries| - 1], entries[|entries| - 1];
      assert entries == init + [entry];
      MergeDraftsKeepsIds(m, init, date, counter, studentId);
      MergeDraftsStep(m, init, entry, date, counter, studentId);
    }
  }

  /** A student's last draft, entry `i`, decides their record. */
  lemma {:induction false} MergeDraftsLastWins(m: seq<AttendanceRecord>, entries: seq<AttendanceDraft>, date: string, counter: nat, i: nat)
    requires OnePerStudent(m)
    requires i < |entries|
    requires forall j :: i < j < |entries| ==> entries[j].studentId != entries[i].studentId
    ensures var found := Lookup(MergeDrafts(m, entries, date, counter).records, entries[i].studentId);
            found.Some? && found.value == DraftRecord(entries[i], date, found.value.id)
  {
    var init, entry := entries[..|entries| - 1], entries[|entries| - 1];
    assert entries == init + [entry];
    MergeDraftsStep(m, init, entry, date, counter, entries[i].studentId);
    if i < |init| {
      assert init[i] == entries[i];
      assert forall j :: i < j < |init| ==> init[j] == entries[j];
      MergeDraftsLastWins(m, init, date, counter, i);
    }
  }

  /** Every record of the merged map carries the saved date when the map's
      records did. */
  lemma {:induction false} MergeDraftsDated(m: seq<AttendanceRecord>, entries: seq<AttendanceDraft>, date: string, counter: nat)
    requires forall a :: a in m ==> a.attendanceDate == date
    ensures forall a :: a in MergeDrafts(m, entries, date, counter).records ==> a.attendanceDate == date
  {
    if entries != [] {
      var init := entries[..|entries| - 1];
      MergeDraftsDated(m, init, date, counter);
      var before := MergeDrafts(m, init, date, counter);
      var entry := entries[|entries| - 1];
      var current := Lookup(before.records, entry.studentId);
      var id := if current.Some? then current.value.id else FreshId("att", before.counter);
      SetRecordMembers(before.records, DraftRecord(entry, date, id));
    }
  }

  /** The records saved for `date`: the existing ones merged with the
      drafts. */
  function SavedForDate(attendance: seq<AttendanceRecord>, date: string, entries: seq<AttendanceDraft>, counter: nat): Merge {
    MergeDrafts(ByStudent(Filter(attendance, Snapshots.DatedOn(date))), entries, date, counter)
  }

  /** The saved records are one per student, all on `date`; after saving,
      they are that date's records and the other dates are untouched. */
  lemma SaveAttendanceReplacesDate(s: Snapshot, date: string, entries: seq<AttendanceDraft>, counter: nat, other: string)
    requires other != date
    ensures var saved := SavedForDate(s.attendance, date, entries, counter).records;
            var after := Snapshots.SaveAttendance(s, date, saved);
            OnePerStudent(saved) &&
            (forall a :: a in saved ==> a.attendanceDate == date) &&
            Snapshots.AttendanceForDate(after, date) == saved &&
            Snapshots.AttendanceForDate(after, other) == Snapshots.AttendanceForDate(s, other)
  {
    var existing := Filter(s.attendance, Snapshots.DatedOn(date));
    var m := ByStudent(existing);
    var saved := SavedForDate(s.attendance, date, entries, counter).records;
    ByStudentLaw(existing, "");
    MergeDraftsOnePerStudent(m, entries, date, counter);
    MergeDraftsDated(m, entries, date, counter);
    Snapshots.SaveAttendanceReplacesOnlyThatDate(s, date, saved, other);
  }

  /** A drafted student's saved record is their last draft, keeping the id
      of a record they already had that day. */
  lemma SaveAttendanceDrafted(s: Snapshot, date: string, entries: seq<AttendanceDraft>, counter: nat, i: nat)
    requires i < |entries|
    requires forall j :: i < j < |entries| ==> entries[j].studentId != entries[i].studentId
    ensures var saved := SavedForDate(s.attendance, date, entries, counter).records;
            var studentId := entries[i].studentId;
            Lookup(saved, studentId).Some? &&
            Lookup(saved, studentId).value == DraftRecord(entries[i], date, Lookup(saved, studentId).value.id) &&
            ((exists a :: a in s.attendance && a.attendanceDate == date && a.studentId == studentId) ==>
               exists a :: a in s.attendance && a.attendanceDate == date && a.id == Lookup(saved, studentId).value.id)
  {
    var studentId := entries[i].studentId;
    var existing := Filter(s.attendance, Snapshots.DatedOn(date));
    var m := ByStudent(existing);
    ByStudentLaw(existing, studentId);
    MergeDraftsLastWins(m, entries, date, counter, i);
    if Lookup(m, studentId).Some? {
      MergeDraftsKeepsIds(m, entries, date, counter, studentId);
      assert Lookup(m, studentId).value in existing;
    }
  }

  /** A student without a draft keeps one of their records of that day, and
      has none exactly when they had none. */
  lemma SaveAttendanceUndrafted(s: Snapshot, date: string, entries: seq<AttendanceDraft>, counter: nat, studentId: string)
    requires forall e :: e in entries ==> e.studentId != studentId
    ensures var saved := SavedForDate(s.attendance, date, entries, counter).records;
            (Lookup(saved, studentId).None? <==> forall a :: a in s.attendance && a.attendanceDate == date ==> a.studentId != studentId) &&
            (Lookup(saved, studentId).Some? ==> Lookup(saved, studentId).value in s.attendance)
  {
    var existing := Filter(s.attendance, Snapshots.DatedOn(date));
    var m := ByStudent(existing);
    ByStudentLaw(existing, studentId);
    MergeDraftsUndrafted(m, entries, date, counter, studentId);
  }

  // ---- User accounts ----

  const OWNER_EMAIL := "owner@learnngrow.app"
  const NEW_USER_EMAIL := "new.user@example.com"

  function UserHasId(userId: string): UserAccess -> bool {
    (u: UserAccess) => u.userId == userId
  }

  function UserOtherThan(userId: string): UserAccess -> bool {
    (u: UserAccess) => u.userId != userId
  }

  /** `input.email.trim().toLowerCase()` */
  function NormalizeEmail(email: string): string {
    ToLower(Trim(email))
  }

  /** The checks of `createUserAccess`, in order; on success, the email to
      store. */
  function CheckNewUser(users: seq<UserAccess>, input: CreateUserAccessInput): (r: Result<string, string>)
    ensures r.Success? <==>
              NormalizeEmail(input.email) != [] && Utf16Length(input.password) >= 6 &&
              forall u :: u in users ==> ToLower(u.email) != NormalizeEmail(input.email)
    ensures r.Success? ==> r.value == NormalizeEmail(input.email)
    ensures r == Failure("Email is required.") <==> NormalizeEmail(input.email) == []
    ensures r == Failure("Password must be at least 6 characters.") <==>
              NormalizeEmail(input.email) != [] && Utf16Length(input.password) < 6
  {
    var email := NormalizeEmail(input.email);
    if email == [] then Failure("Email is required.")
    else if Utf16Length(input.password) < 6 then Failure("Password must be at least 6 characters.")
    else if Find(users, (u: UserAccess) => ToLower(u.email) == email).Some? then Failure("User with this email already exists.")
    else Success(email)
  }

  predicate EmailsDistinct(users: seq<UserAccess>) {
    forall i, j :: 0 <= i < j < |users| ==> ToLower(users[i].email) != ToLower(users[j].email)
  }

  /** Creating an account keeps emails distinct regardless of case. */
  lemma CreateKeepsEmailsDistinct(users: seq<UserAccess>, input: CreateUserAccessInput, created: UserAccess)
    requires EmailsDistinct(users)
    requires CheckNewUser(users, input).Success? && created.email == CheckNewUser(users, input).value
    ensures EmailsDistinct([created] + users)
  {
    var e := NormalizeEmail(input.email);
    ToLowerIdempotent(Trim(input.email));
    assert ToLower(created.email) == e;
    assert forall u :: u in users ==> ToLower(u.email) != e;
    var all := [created] + users;
    forall i, j | 0 <= i < j < |all| ensures ToLower(all[i].email) != ToLower(all[j].email) {
      if i == 0 {
        assert all[j] in users;
      } else {
        assert all[i] == users[i - 1] && all[j] == users[j - 1];
      }
    }
  }

  /** Once created, the same email in any case or padding is refused as a
      duplicate. */
  lemma CreateRefusesSameEmailAgain(users: seq<UserAccess>, input: CreateUserAccessInput, created: UserAccess, again: CreateUserAccessInput)
    requires CheckNewUser(users, input).Success? && created.email == CheckNewUser(users, input).value
    requires NormalizeEmail(again.email) == NormalizeEmail(input.email) && Utf16Length(again.password) >= 6
    ensures CheckNewUser([created] + users, again) == Failure("User with this email already exists.")
  {
    ToLowerIdempotent(Trim(input.email));
    assert created in [created] + users;
  }

  /** `deleteUserAccess(userId, mode)`: "user" removes the account, "access"
      keeps it without a role. */
  function RemoveAccess(users: seq<UserAccess>, userId: string, mode: DeleteMode): (r: seq<UserAccess>)
    ensures mode == WholeUser ==> forall u :: u in r <==> u in users && u.userId != userId
    ensures mode == AccessOnly ==>
              |r| == |users| &&
              forall i :: 0 <= i < |users| ==>
                r[i] == if users[i].userId == userId then users[i].(role := None) else users[i]
  {
    match mode
    case WholeUser => Filter(users, UserOtherThan(userId))
    case AccessOnly => seq(|users|, i requires 0 <= i < |users| =>
                         if users[i].userId == userId then users[i].(role := None) else users[i])
  }

  /** `updateUserAccessRole(userId, role)`: the first account with the id
      gets the role; with none, a placeholder account is added last. */
  function SetRole(users: seq<UserAccess>, userId: string, role: AppRole, now: string): (r: seq<UserAccess>)
    ensures FindIndex(users, UserHasId(userId)).None? ==>
              r == users + [UserAccess(userId, NEW_USER_EMAIL, Some(role), now, None)]
    ensures FindIndex(users, UserHasId(userId)).Some? ==>
              var k := FindIndex(users, UserHasId(userId)).value;
              |r| == |users| && r[k] == users[k].(role := Some(role)) &&
              forall i :: 0 <= i < |users| && i != k ==> r[i] == users[i]
  {
    match FindIndex(users, UserHasId(userId))
    case None => users + [UserAccess(userId, NEW_USER_EMAIL, Some(role), now, None)]
    case Some(k) => users[k := users[k].(role := Some(role))]
  }

  /** After setting a role, the account with that id is found with the
      role. */
  lemma SetRoleThenFind(users: seq<UserAccess>, userId: string, role: AppRole, now: string)
    ensures var r := SetRole(users, userId, role, now);
            Find(r, UserHasId(userId)).Some? && Find(r, UserHasId(userId)).value.role == Some(role)
  {
    var r := SetRole(users, userId, role, now);
    var k := FindIndex(r, UserHasId(userId));
    if FindIndex(users, UserHasId(userId)).None? {
      assert r[|users|].userId == userId;
      assert k.Some? && k.value == |users|;
    } else {
      assert k == FindIndex(users, UserHasId(userId));
    }
  }

  /** The in-memory service: the snapshot it serves, the snapshot a reset
      returns to, the accounts, and the counter fresh ids are drawn from.
      The clock is the `now` parameter of the operations that stamp a
      time. */
  class MockAppDataService {
    var snapshot: Snapshot
    const initial: Snapshot
    var userAccess: seq<UserAccess>
    var counter: nat

    constructor(initial: Snapshot, now: string)
      ensures snapshot == initial && this.initial == initial && counter == 0
      ensures userAccess == [UserAccess("mock-owner", OWNER_EMAIL, Some(Admin), now, None)]
    {
      snapshot := initial;
      this.initial := initial;
      userAccess := [UserAccess("mock-owner", OWNER_EMAIL, Some(Admin), now, None)];
      counter := 0;
    }

    method CreateId(prefix: string) returns (id: string)
      modifies this
      ensures id == FreshId(prefix, old(counter)) && counter == old(counter) + 1
      ensures snapshot == old(snapshot) && userAccess == old(userAccess)
    {
      id := FreshId(prefix, counter);
      counter := counter + 1;
    }

    method GetInitialSnapshot() returns (s: Snapshot)
      ensures s == snapshot
    {
      s := snapshot;
    }

    method AddStudent(input: StudentFormInput) returns (student: Student)
      modifies this
      ensures student == NewStudent(input, FreshId("stu", old(counter)))
      ensures snapshot == Snapshots.AddStudent(old(snapshot), student)
      ensures userAccess == old(userAccess) && counter == old(counter) + 1
    {
      var id := CreateId("stu");
      student := NewStudent(input, id);
      snapshot := Snapshots.AddStudent(snapshot, student);
    }

    method UpdateStudent(id: string, input: StudentFormInput) returns (r: Result<Student, string>)
      modifies this
      ensures Find(old(snapshot.students), Snapshots.StudentHasId(id)).None? ==>
                r == Failure("Student not found.") && snapshot == old(snapshot)
      ensures Find(old(snapshot.students), Snapshots.StudentHasId(id)).Some? ==>
                r == Success(EditedStudent(Find(old(snapshot.students), Snapshots.StudentHasId(id)).value, input)) &&
                snapshot == Snapshots.UpdateStudent(old(snapshot), id, r.value)
      ensures userAccess == old(userAccess) && counter == old(counter)
    {
      var current := Find(snapshot.students, Snapshots.StudentHasId(id));
      if current.None? {
        return Failure("Student not found.");
      }
      var updated := EditedStudent(current.value, input);
      snapshot := Snapshots.UpdateStudent(snapshot, id, updated);
      r := Success(updated);
    }

    method DeleteStudent(id: string)
      modifies this
      ensures snapshot == Snapshots.DeleteStudent(old(snapshot), id)
      ensures userAccess == old(userAccess) && counter == old(counter)
    {
      snapshot := Snapshots.DeleteStudent(snapshot, id);
    }

    method AddTransaction(input: TransactionFormInput) returns (t: Transaction)
      modifies this
      ensures t == NewTransaction(input, FreshId("fin", old(counter)))
      ensures snapshot == Snapshots.AddTransaction(old(snapshot), t)
      ensures userAccess == old(userAccess) && counter == old(counter) + 1
    {
      var id := CreateId("fin");
      t := NewTransaction(input, id);
      snapshot := Snapshots.AddTransaction(snapshot, t);
    }

    method UpdateTransaction(id: string, input: TransactionFormInput) returns (r: Result<Transaction, string>)
      modifies this
      ensures Find(old(snapshot.finances), Snapshots.TransactionHasId(id)).None? ==>
                r == Failure("Transaction not found.") && snapshot == old(snapshot)
      ensures Find(old(snapshot.finances), Snapshots.TransactionHasId(id)).Some? ==>
                r == Success(EditedTransaction(Find(old(snapshot.finances), Snapshots.TransactionHasId(id)).value, input)) &&
                snapshot == Snapshots.UpdateTransaction(old(snapshot), id, r.value)
      ensures userAccess == old(userAccess) && counter == old(counter)
    {
      var current := Find(snapshot.finances, Snapshots.TransactionHasId(id));
      if current.None? {
        return Failure("Transaction not found.");
      }
      var updated := EditedTransaction(current.value, input);
      snapshot := Snapshots.UpdateTransaction(snapshot, id, updated);
      r := Success(updated);
    }

    method DeleteTransaction(id: string)
      modifies this
      ensures snapshot == Snapshots.DeleteTransaction(old(snapshot), id)
      ensures userAccess == old(userAccess) && counter == old(counter)
    {
      snapshot := Snapshots.DeleteTransaction(snapshot, id);
    }

    method ToggleTransactionStatus(id: string) returns (r: Result<Transaction, string>)
      modifies this
      ensures Find(old(snapshot.finances), Snapshots.TransactionHasId(id)).None? ==>
                r == Failure("Transaction not found.") && snapshot == old(snapshot)
      ensures Find(old(snapshot.finances), Snapshots.TransactionHasId(id)).Some? ==>
                r == Success(Toggled(Find(old(snapshot.finances), Snapshots.TransactionHasId(id)).value)) &&
                snapshot == Snapshots.UpdateTransaction(old(snapshot), id, r.value)
      ensures userAccess == old(userAccess) && counter == old(counter)
    {
      var current := Find(snapshot.finances, Snapshots.TransactionHasId(id));
      if current.None? {
        return Failure("Transaction not found.");
      }
      var updated := Toggled(current.value);
      snapshot := Snapshots.UpdateTransaction(snapshot, id, updated);
      r := Success(updated);
    }

    /** Merges the drafts into the date's records, student by student, and
        replaces that date's records with the result. */
    method SaveAttendance(date: string, entries: seq<AttendanceDraft>) returns (merged: seq<AttendanceRecord>)
      modifies this
      ensures Merge(merged, counter) == SavedForDate(old(snapshot.attendance), date, entries, old(counter))
      ensures snapshot == Snapshots.SaveAttendance(old(snapshot), date, merged)
      ensures userAccess == old(userAccess)
    {
      var byStudent := GroupByStudent(Filter(snapshot.attendance, Snapshots.DatedOn(date)));
      merged := MergeEntries(byStudent, entries, date);
      snapshot := Snapshots.SaveAttendance(snapshot, date, merged);
    }

    /** The existing records keyed by student, the last one winning. */
    static method GroupByStudent(existing: seq<AttendanceRecord>) returns (byStudent: seq<AttendanceRecord>)
      ensures byStudent == ByStudent(existing)
    {
      byStudent := [];
      for i := 0 to |existing|
        invariant byStudent == ByStudent(existing[..i])
      {
        assert existing[..i + 1][..i] == existing[..i];
        byStudent := SetRecord(byStudent, existing[i]);
      }
      assert existing[..|existing|] == existing;
    }

    /** Each draft in turn: a student already present keeps their record
        id, a new one draws a fresh id. */
    method MergeEntries(m: seq<AttendanceRecord>, entries: seq<AttendanceDraft>, date: string)
      returns (merged: seq<AttendanceRecord>)
      modifies this
      ensures Merge(merged, counter) == MergeDrafts(m, entries, date, old(counter))
      ensures snapshot == old(snapshot) && userAccess == old(userAccess)
    {
      merged := m;
      for i := 0 to |entries|
        invariant Merge(merged, counter) == MergeDrafts(m, entries[..i], date, old(counter))
        invariant snapshot == old(snapshot) && userAccess == old(userAccess)
      {
        MergeDraftsSnoc(m, entries[..i], entries[i], date, old(counter));
        assert entries[..i] + [entries[i]] == entries[..i + 1];
        var current := Lookup(merged, entries[i].studentId);
        var id;
        if current.Some? {
          id := current.value.id;
        } else {
          id := CreateId("att");
        }
        merged := SetRecord(merged, DraftRecord(entries[i], date, id));
      }
      assert entries[..|entries|] == entries;
    }

    method UpdateProfile(profile: BusinessProfile) returns (saved: BusinessProfile)
      modifies this
      ensures saved == profile
      ensures snapshot == Snapshots.UpdateProfile(old(snapshot), profile)
      ensures userAccess == old(userAccess) && counter == old(counter)
    {
      snapshot := Snapshots.UpdateProfile(snapshot, profile);
      saved := snapshot.profile;
    }

    method ResetAllData() returns (s: Snapshot)
      modifies this
      ensures s == initial && snapshot == initial
      ensures userAccess == old(userAccess) && counter == old(counter)
    {
      snapshot := initial;
      s := snapshot;
    }

    method ListUserAccess() returns (users: seq<UserAccess>)
      ensures users == userAccess
    {
      users := userAccess;
    }

    method UpdateUserAccessRole(userId: string, role: AppRole, now: string)
      modifies this
      ensures userAccess == SetRole(old(userAccess), userId, role, now)
      ensures snapshot == old(snapshot) && counter == old(counter)
    {
      var index := FindIndex(userAccess, UserHasId(userId));
      if index.None? {
        userAccess := userAccess + [UserAccess(userId, NEW_USER_EMAIL, Some(role), now, None)];
        return;
      }
      userAccess := userAccess[index.value := userAccess[index.value].(role := Some(role))];
    }

    method CreateUserAccess(input: CreateUserAccessInput, now: string) returns (r: Result<UserAccess, string>)
      modifies this
      ensures CheckNewUser(old(userAccess), input).Failure? ==>
                r == Failure(CheckNewUser(old(userAccess), input).error) &&
                userAccess == old(userAccess) && counter == old(counter)
      ensures CheckNewUser(old(userAccess), input).Success? ==>
                r == Success(UserAccess(FreshId("usr", old(counter)), CheckNewUser(old(userAccess), input).value,
                                        Some(input.role), now, None)) &&
                userAccess == [r.value] + old(userAccess) && counter == old(counter) + 1
      ensures snapshot == old(snapshot)
    {
      var email := NormalizeEmail(input.email);
      if email == [] {
        return Failure("Email is required.");
      }
      if Utf16Length(input.password) < 6 {
        return Failure("Password must be at least 6 characters.");
      }
      var existing := Find(userAccess, (u: UserAccess) => ToLower(u.email) == email);
      if existing.Some? {
        return Failure("User with this email already exists.");
      }
      var id := CreateId("usr");
      var created := UserAccess(id, email, Some(input.role), now, None);
      userAccess := [created] + userAccess;
      r := Success(created);
    }

    method DeleteUserAccess(userId: string, mode: DeleteMode)
      modifies this
      ensures userAccess == RemoveAccess(old(userAccess), userId, mode)
      ensures snapshot == old(snapshot) && counter == old(counter)
    {
      userAccess := RemoveAccess(userAccess, userId, mode);
    }
  }
}
