/** The decisions of the data service that do not depend on the database
    itself: reading numbers and rows coming back from it, recognising
    schema and transport errors, re-linking the demo data to the ids the
    database assigns on reset, and retrying an attendance save without the
    columns the database reports missing. */
module DataService {
  import opened Wrappers
  import opened Text
  import opened Numbers
  import opened Seqs
  import opened Domain
  import opened Failures

  /** A numeric column as it arrives: a number (possibly `NaN` or
      infinite), a string, or null. */
  datatype RawNumber = FiniteNumber(n: int) | NonFiniteNumber | NumericText(s: string) | NullNumber

  /** `toNumber(value, fallback)` */
  function ToNumber(value: RawNumber, fallback: int): (r: int)
    ensures value.FiniteNumber? ==> r == value.n
    ensures value.NumericText? && ParseNumber(value.s).Some? ==> r == ParseNumber(value.s).value
    ensures value.NumericText? && ParseNumber(value.s).None? ==> r == fallback
    ensures value.NonFiniteNumber? || value.NullNumber? ==> r == fallback
  {
    match value
    case FiniteNumber(n) => n
    case NumericText(s) => ParseNumber(s).UnwrapOr(fallback)
    case _ => fallback
  }

  /** A number written out as text reads back as that number, whatever
      the fallback. */
  lemma ToNumberOfText(n: int, fallback: int)
    ensures ToNumber(NumericText(IntToString(n)), fallback) == n
  {
    ParseNumberOfIntToString(n);
  }

  /** An id column: text or a number, turned into text by `String(id)`. */
  datatype RawId = IdText(s: string) | IdNumber(n: int)

  function IdString(id: RawId): string {
    match id
    case IdText(s) => s
    case IdNumber(n) => IntToString(n)
  }

  datatype StudentRow = StudentRow(
    id: RawId,
    name: string,
    phone: string,
    batch: Option<Batch>,
    joinDate: string,
    status: StudentStatus,
    monthlyFee: RawNumber)

  datatype FinanceRow = FinanceRow(
    id: RawId,
    transactionDate: string,
    category: string,
    kind: TransactionType,
    amount: RawNumber,
    status: PaymentStatus,
    description: Option<string>,
    note: Option<string>,
    studentId: Option<RawId>)

  datatype AttendanceRow = AttendanceRow(
    id: RawId,
    studentId: RawId,
    studentName: Option<string>,
    batch: Option<Batch>,
    attendanceDate: string,
    status: AttendanceStatus,
    note: Option<string>)

  /** `mapStudentRow(row)`: a missing batch is the morning batch and a
      missing or unreadable fee is the default fee. */
  function MapStudentRow(row: StudentRow): (s: Student)
    ensures s.id == IdString(row.id) && s.name == row.name && s.phone == row.phone
    ensures s.batch == (if row.batch.None? then Morning else row.batch.value)
    ensures s.monthlyFee == ToNumber(row.monthlyFee, DEFAULT_MONTHLY_FEE)
    ensures s.joinDate == row.joinDate && s.status == row.status && s.teacher.None?
  {
    Student(IdString(row.id), row.name, row.phone, row.batch.UnwrapOr(Morning), row.joinDate, row.status,
            ToNumber(row.monthlyFee, DEFAULT_MONTHLY_FEE), None)
  }

  /** The row a stored student is written as. */
  function RowOfStudent(s: Student): StudentRow {
    StudentRow(IdText(s.id), s.name, s.phone, Some(s.batch), s.joinDate, s.status, FiniteNumber(s.monthlyFee))
  }

  /** Reading back a written student gives the student; the teacher name
      is not a column of the table. */
  lemma MapStudentRowOfWritten(s: Student)
    ensures MapStudentRow(RowOfStudent(s)) == s.(teacher := None)
  {
  }

  /** `mapFinanceRow(row)`: the description falls back to the note and is
      trimmed; the student link is null exactly when the column is. */
  function MapFinanceRow(row: FinanceRow): (t: Transaction)
    ensures t.id == IdString(row.id) && t.transactionDate == row.transactionDate && t.category == row.category
    ensures t.kind == row.kind && t.status == row.status && t.note == row.note
    ensures t.amount == ToNumber(row.amount, 0)
    ensures IsTrimmed(t.description)
    ensures row.description.Some? ==> t.description == Trim(row.description.value)
    ensures row.description.None? && row.note.Some? ==> t.description == Trim(row.note.value)
    ensures row.description.None? && row.note.None? ==> t.description == ""
    ensures t.studentId.None? <==> row.studentId.None?
    ensures row.studentId.Some? ==> t.studentId == Some(IdString(row.studentId.value))
  {
    var description := Trim(if row.description.Some? then row.description.value else row.note.UnwrapOr(""));
    Transaction(IdString(row.id), row.transactionDate, row.category, row.kind, ToNumber(row.amount, 0), row.status,
                description, row.note,
                if row.studentId.None? then None else Some(IdString(row.studentId.value)))
  }

  function RowOfTransaction(t: Transaction): FinanceRow {
    FinanceRow(IdText(t.id), t.transactionDate, t.category, t.kind, FiniteNumber(t.amount), t.status,
               Some(t.description), t.note, if t.studentId.None? then None else Some(IdText(t.studentId.value)))
  }

  /** Reading back a written record gives the record when its description
      has no surrounding whitespace. */
  lemma MapFinanceRowOfWritten(t: Transaction)
    requires IsTrimmed(t.description)
    ensures MapFinanceRow(RowOfTransaction(t)) == t
  {
    TrimmedIsFixed(t.description);
  }

  /** `row.student_name?.trim() || "Unknown Student"` */
  function DisplayName(name: Option<string>): (r: string)
    ensures r != []
    ensures r == UNKNOWN_STUDENT <==> name.None? || IsBlank(name.value) || Trim(name.value) == UNKNOWN_STUDENT
    ensures name.Some? && !IsBlank(name.value) ==> r == Trim(name.value)
  {
    if name.Some? && Trim(name.value) != [] then Trim(name.value) else UNKNOWN_STUDENT
  }

  /** `mapAttendanceRow(row)`: a blank or missing name shows as
      "Unknown Student" and a missing batch as the morning batch. */
  function MapAttendanceRow(row: AttendanceRow): (a: AttendanceRecord)
    ensures a.id == IdString(row.id) && a.studentId == IdString(row.studentId)
    ensures a.studentName == DisplayName(row.studentName)
    ensures a.batch == (if row.batch.None? then Morning else row.batch.value)
    ensures a.attendanceDate == row.attendanceDate && a.status == row.status && a.note == row.note
  {
    AttendanceRecord(IdString(row.id), IdString(row.studentId), DisplayName(row.studentName),
                     row.batch.UnwrapOr(Morning), row.attendanceDate, row.status, row.note)
  }

  /** `buildStudentLookupKey(name, phone)` */
  function BuildStudentLookupKey(name: string, phone: string): string {
    ToLower(Trim(name)) + "::" + ToLower(Trim(phone))
  }

  /** Surrounding whitespace does not change the key. */
  lemma LookupKeyIgnoresPadding(name: string, phone: string)
    ensures BuildStudentLookupKey(Trim(name), Trim(phone)) == BuildStudentLookupKey(name, phone)
  {
    TrimIdempotent(name);
    TrimIdempotent(phone);
  }

  /** For names without a colon the key determines the trimmed, lower-cased
      name and phone. */
  lemma LookupKeyInjective(name1: string, phone1: string, name2: string, phone2: string)
    requires ':' !in ToLower(Trim(name1)) && ':' !in ToLower(Trim(name2))
    requires BuildStudentLookupKey(name1, phone1) == BuildStudentLookupKey(name2, phone2)
    ensures ToLower(Trim(name1)) == ToLower(Trim(name2))
    ensures ToLower(Trim(phone1)) == ToLower(Trim(phone2))
  {
    var a1, b1 := ToLower(Trim(name1)), ToLower(Trim(phone1));
    var a2, b2 := ToLower(Trim(name2)), ToLower(Trim(phone2));
    var k := BuildStudentLookupKey(name1, phone1);
    KeySplits(a1, b1);
    KeySplits(a2, b2);
  }

  lemma KeySplits(a: string, b: string)
    requires ':' !in a
    ensures var k := a + "::" + b;
            ':' in k && FirstIndex(k, ':') == |a| && k[..|a|] == a && k[|a| + 2..] == b
  {
    var k := a + "::" + b;
    assert k[|a|] == ':';
    assert k[..|a|] == a;
    assert k[|a| + 2..] == b;
  }

  /** The optional columns of the attendance table. */
  datatype AttendanceColumn = NoteColumn | StudentNameColumn | BatchColumn

  function ColumnName(c: AttendanceColumn): string {
    match c
    case NoteColumn => "note"
    case StudentNameColumn => "student_name"
    case BatchColumn => "batch"
  }

  /** `isMissingAttendanceTableError(message)` */
  predicate IsMissingAttendanceTableError(message: string) {
    Contains(message, "Could not find the table 'public.attendance'") ||
    Contains(message, "relation \"public.attendance\" does not exist")
  }

  /** `isMissingAttendanceColumnError(message, column)` */
  predicate IsMissingAttendanceColumnError(message: string, c: AttendanceColumn) {
    Contains(message, "Could not find the '" + ColumnName(c) + "' column of 'attendance'") ||
    Contains(message, "column attendance." + ColumnName(c) + " does not exist")
  }

  /** `isMissingAttendanceSchemaError(message)` */
  predicate IsMissingAttendanceSchemaError(message: string) {
    IsMissingAttendanceTableError(message) ||
    IsMissingAttendanceColumnError(message, NoteColumn) ||
    IsMissingAttendanceColumnError(message, StudentNameColumn) ||
    IsMissingAttendanceColumnError(message, BatchColumn)
  }

  /** The database's message for a missing column. */
  function MissingColumnMessage(c: AttendanceColumn): string {
    "column attendance." + ColumnName(c) + " does not exist"
  }

  /** Each missing-column message is recognised as a schema error and as
      that column's error, and not as the error of a column whose name is
      longer. */
  lemma MissingColumnMessageRecognised(c: AttendanceColumn)
    ensures IsMissingAttendanceColumnError(MissingColumnMessage(c), c)
    ensures IsMissingAttendanceSchemaError(MissingColumnMessage(c))
    ensures forall d :: |ColumnName(d)| > |ColumnName(c)| ==> !IsMissingAttendanceColumnError(MissingColumnMessage(c), d)
  {
    var m := MissingColumnMessage(c);
    ContainsInfix([], m, []);
    assert [] + m + [] == m;
    forall d | |ColumnName(d)| > |ColumnName(c)| ensures !IsMissingAttendanceColumnError(m, d) {
      ContainsNothingLonger(m, "Could not find the '" + ColumnName(d) + "' column of 'attendance'");
      ContainsNothingLonger(m, "column attendance." + ColumnName(d) + " does not exist");
    }
  }

  /** A student's name and batch, used to fill in attendance rows. */
  datatype StudentMeta = StudentMeta(name: string, batch: Batch)

  /** `hydrateAttendanceRows(rows, studentMetaMap)`: a row's own name and
      batch win, then the student's, then the defaults. */
  function HydrateAttendanceRows(rows: seq<AttendanceRow>, meta: map<string, StudentMeta>): (r: seq<AttendanceRow>)
    ensures |r| == |rows|
    ensures forall i :: 0 <= i < |rows| ==>
              r[i].studentName.Some? && r[i].batch.Some? &&
              r[i].(studentName := rows[i].studentName, batch := rows[i].batch) == rows[i]
    ensures forall i :: 0 <= i < |rows| && rows[i].studentName.Some? ==> r[i].studentName == rows[i].studentName
    ensures forall i :: 0 <= i < |rows| && rows[i].batch.Some? ==> r[i].batch == rows[i].batch
    ensures forall i :: 0 <= i < |rows| && IdString(rows[i].studentId) in meta ==>
              (rows[i].studentName.None? ==> r[i].studentName == Some(meta[IdString(rows[i].studentId)].name)) &&
              (rows[i].batch.None? ==> r[i].batch == Some(meta[IdString(rows[i].studentId)].batch))
    ensures forall i :: 0 <= i < |rows| && IdString(rows[i].studentId) !in meta ==>
              (rows[i].studentName.None? ==> r[i].studentName == Some(UNKNOWN_STUDENT)) &&
              (rows[i].batch.None? ==> r[i].batch == Some(Morning))
  {
    seq(|rows|, i requires 0 <= i < |rows| =>
      var known := IdString(rows[i].studentId) in meta;
      rows[i].(studentName := Some(if rows[i].studentName.Some? then rows[i].studentName.value
                                   else if known then meta[IdString(rows[i].studentId)].name
                                   else UNKNOWN_STUDENT),
               batch := Some(if rows[i].batch.Some? then rows[i].batch.value
                             else if known then meta[IdString(rows[i].studentId)].batch
                             else Morning)))
  }

  /** A row without a name or batch of a known student shows that
      student's name and batch once mapped. */
  lemma HydratedRowShowsStudent(rows: seq<AttendanceRow>, meta: map<string, StudentMeta>, i: nat)
    requires i < |rows| && rows[i].studentName.None? && rows[i].batch.None?
    requires IdString(rows[i].studentId) in meta
    requires IsTrimmed(meta[IdString(rows[i].studentId)].name) && meta[IdString(rows[i].studentId)].name != []
    ensures MapAttendanceRow(HydrateAttendanceRows(rows, meta)[i]).studentName == meta[IdString(rows[i].studentId)].name
    ensures MapAttendanceRow(HydrateAttendanceRows(rows, meta)[i]).batch == meta[IdString(rows[i].studentId)].batch
  {
    TrimmedIsFixed(meta[IdString(rows[i].studentId)].name);
  }

  const UNREACHABLE_API := "Unable to reach Supabase API. Verify project URL/key and allow network requests from localhost."

  /** `formatTransportFailure(action, error)` */
  function FormatTransportFailure(action: string, error: Thrown): (r: string)
    ensures IsNetworkFailure(MessageOf(error, "Unknown network error")) ==>
              r == "Failed to " + action + ": " + UNREACHABLE_API
    ensures !IsNetworkFailure(MessageOf(error, "Unknown network error")) ==>
              r == "Failed to " + action + ": " + MessageOf(error, "Unknown network error")
  {
    var message := MessageOf(error, "Unknown network error");
    if IsNetworkFailure(message) then "Failed to " + action + ": " + UNREACHABLE_API
    else "Failed to " + action + ": " + message
  }

  /** Any other message is kept whole at the end of the text, and every
      network failure of the same action reads the same. */
  lemma TransportFailureKeepsOtherMessages(action: string, e1: Thrown, e2: Thrown)
    ensures var m := MessageOf(e1, "Unknown network error");
            var r := FormatTransportFailure(action, e1);
            !IsNetworkFailure(m) ==> |r| >= |m| && r[|r| - |m|..] == m
    ensures IsNetworkFailure(MessageOf(e1, "Unknown network error")) && IsNetworkFailure(MessageOf(e2, "Unknown network error")) ==>
              FormatTransportFailure(action, e1) == FormatTransportFailure(action, e2)
    ensures StartsWith(FormatTransportFailure(action, e1), "Failed to " + action + ": ")
  {
    var prefix := "Failed to " + action + ": ";
    var m := MessageOf(e1, "Unknown network error");
    var r := FormatTransportFailure(action, e1);
    if IsNetworkFailure(m) {
      assert r == prefix + UNREACHABLE_API;
    } else {
      assert r == prefix + m;
      assert r[|r| - |m|..] == m;
    }
    assert r[..|prefix|] == prefix;
  }

  // ---- Re-linking the demo data on reset ----

  function RowKey(row: StudentRow): string {
    BuildStudentLookupKey(row.name, row.phone)
  }

  /** Each inserted row as its lookup key and its id. */
  function KeyedIds(rows: seq<StudentRow>): (r: seq<(string, string)>)
    ensures |r| == |rows|
    ensures forall i :: 0 <= i < |rows| ==> r[i] == (RowKey(rows[i]), IdString(rows[i].id))
  {
    seq(|rows|, i requires 0 <= i < |rows| => (RowKey(rows[i]), IdString(rows[i].id)))
  }

  /** A map filled from key/value pairs in order: a later pair wins. */
  function LastWins(pairs: seq<(string, string)>): map<string, string> {
    if pairs == [] then map[]
    else LastWins(pairs[..|pairs| - 1])[pairs[|pairs| - 1].0 := pairs[|pairs| - 1].1]
  }

  /** `idByLookupKey`: each inserted row's lookup key to its id; a later
      row with the same key wins. */
  function IdByLookupKey(rows: seq<StudentRow>): map<string, string> {
    LastWins(KeyedIds(rows))
  }

  /** Builds `idByLookupKey` row by row. */
  method BuildIdByLookupKey(rows: seq<StudentRow>) returns (byKey: map<string, string>)
    ensures byKey == IdByLookupKey(rows)
  {
    var pairs := KeyedIds(rows);
    byKey := map[];
    for i := 0 to |rows|
      invariant byKey == LastWins(pairs[..i])
    {
      LastWinsSnoc(pairs, i);
      byKey := byKey[RowKey(rows[i]) := IdString(rows[i].id)];
    }
    assert pairs[..|rows|] == pairs;
  }

  lemma LastWinsSnoc(pairs: seq<(string, string)>, i: nat)
    requires i < |pairs|
    ensures LastWins(pairs[..i + 1]) == LastWins(pairs[..i])[pairs[i].0 := pairs[i].1]
  {
    assert pairs[..i + 1][..i] == pairs[..i];
  }

  /** A key is present exactly when some pair has it, and it maps to the
      value of one of the pairs. */
  lemma {:induction false} LastWinsFinds(pairs: seq<(string, string)>, k: string)
    ensures k in LastWins(pairs) <==> exists i :: 0 <= i < |pairs| && pairs[i].0 == k
    ensures k in LastWins(pairs) ==> exists i :: 0 <= i < |pairs| && LastWins(pairs)[k] == pairs[i].1
  {
    if pairs != [] {
      var init := pairs[..|pairs| - 1];
      LastWinsFinds(init, k);
      assert forall i :: 0 <= i < |init| ==> pairs[i] == init[i];
    }
  }

  /** A pair whose key no later pair repeats gives that key its value. */
  lemma {:induction false} LastWinsLast(pairs: seq<(string, string)>, i: nat)
    requires i < |pairs|
    requires forall j :: i < j < |pairs| ==> pairs[j].0 != pairs[i].0
    ensures pairs[i].0 in LastWins(pairs) && LastWins(pairs)[pairs[i].0] == pairs[i].1
  {
    var init := pairs[..|pairs| - 1];
    if i < |init| {
      assert forall j :: 0 <= j < |init| ==> init[j] == pairs[j];
      LastWinsLast(init, i);
    }
  }

  /** In `idByLookupKey` a key is present exactly when some inserted row has
      it, it maps to one of the inserted ids, and a row no later row
      repeats the key of gives the key its id. */
  lemma IdByLookupKeyFinds(rows: seq<StudentRow>, k: string)
    ensures k in IdByLookupKey(rows) <==> exists i :: 0 <= i < |rows| && RowKey(rows[i]) == k
    ensures k in IdByLookupKey(rows) ==> exists i :: 0 <= i < |rows| && IdByLookupKey(rows)[k] == IdString(rows[i].id)
    ensures forall i :: 0 <= i < |rows| && RowKey(rows[i]) == k && (forall j :: i < j < |rows| ==> RowKey(rows[j]) != k) ==>
              k in IdByLookupKey(rows) && IdByLookupKey(rows)[k] == IdString(rows[i].id)
  {
    var pairs := KeyedIds(rows);
    LastWinsFinds(pairs, k);
    forall i | 0 <= i < |rows| && RowKey(rows[i]) == k && (forall j :: i < j < |rows| ==> RowKey(rows[j]) != k)
      ensures k in IdByLookupKey(rows) && IdByLookupKey(rows)[k] == IdString(rows[i].id)
    {
      LastWinsLast(pairs, i);
    }
  }

  /** `studentIdMap`: each demo student's id to the id of the inserted row
      with the same lookup key, when that id is not empty. */
  function StudentIdMap(students: seq<Student>, byKey: map<string, string>): map<string, string> {
    if students == [] then map[]
    else
      var m := StudentIdMap(students[..|students| - 1], byKey);
      var s := students[|students| - 1];
      var k := BuildStudentLookupKey(s.name, s.phone);
      if k in byKey && byKey[k] != "" then m[s.id := byKey[k]] else m
  }

  /** Builds `studentIdMap` student by student. */
  method BuildStudentIdMap(students: seq<Student>, byKey: map<string, string>) returns (idMap: map<string, string>)
    ensures idMap == StudentIdMap(students, byKey)
  {
    idMap := map[];
    for i := 0 to |students|
      invariant idMap == StudentIdMap(students[..i], byKey)
    {
      assert students[..i + 1][..i] == students[..i];
      var k := BuildStudentLookupKey(students[i].name, students[i].phone);
      if k in byKey && byKey[k] != "" {
        idMap := idMap[students[i].id := byKey[k]];
      }
    }
    assert students[..|students|] == students;
  }

  /** Every mapped id is a non-empty id of an inserted row, and every demo
      student whose key was inserted with a non-empty id is mapped. */
  lemma {:induction false} StudentIdMapSound(students: seq<Student>, byKey: map<string, string>)
    ensures forall id :: id in StudentIdMap(students, byKey) ==>
              StudentIdMap(students, byKey)[id] != "" && StudentIdMap(students, byKey)[id] in byKey.Values
    ensures forall s :: (s in students && BuildStudentLookupKey(s.name, s.phone) in byKey &&
                         byKey[BuildStudentLookupKey(s.name, s.phone)] != "") ==> s.id in StudentIdMap(students, byKey)
  {
    if students != [] {
      var init := students[..|students| - 1];
      StudentIdMapSound(init, byKey);
      forall s | s in students ensures s in init || s == students[|students| - 1] {
        var i :| 0 <= i < |students| && students[i] == s;
        if i < |init| {
          assert init[i] == s;
        }
      }
    }
  }

  /** A finance record as re-inserted on reset. */
  datatype FinancePayload = FinancePayload(
    transactionDate: string,
    category: string,
    kind: TransactionType,
    amount: int,
    status: PaymentStatus,
    description: string,
    note: Option<string>,
    studentId: Option<string>)

  /** The new student id for an old link: only a non-empty, mapped id
      survives. */
  function RemapLink(link: Option<string>, idMap: map<string, string>): Option<string> {
    if IsTruthy(link) && link.value in idMap then Some(idMap[link.value]) else None
  }

  function FinanceResetPayload(finances: seq<Transaction>, idMap: map<string, string>): (r: seq<FinancePayload>)
    ensures |r| == |finances|
    ensures forall i :: 0 <= i < |finances| ==>
              r[i].amount == finances[i].amount && r[i].category == finances[i].category &&
              r[i].studentId == RemapLink(finances[i].studentId, idMap)
  {
    seq(|finances|, i requires 0 <= i < |finances| =>
      var t := finances[i];
      FinancePayload(t.transactionDate, t.category, t.kind, t.amount, t.status, t.description, t.note,
                     RemapLink(t.studentId, idMap)))
  }

  /** An attendance record as re-inserted on reset. */
  datatype AttendancePayload = AttendancePayload(
    studentId: string,
    studentName: string,
    batch: Batch,
    attendanceDate: string,
    status: AttendanceStatus,
    note: Option<string>)

  function Remapped(a: AttendanceRecord, idMap: map<string, string>): AttendancePayload
    requires a.studentId in idMap
  {
    AttendancePayload(idMap[a.studentId], a.studentName, a.batch, a.attendanceDate, a.status, a.note)
  }

  /** Attendance of students that could not be re-linked is dropped. */
  function AttendanceResetPayload(records: seq<AttendanceRecord>, idMap: map<string, string>): (r: seq<AttendancePayload>)
    ensures |r| <= |records|
  {
    if records == [] then []
    else
      var rest := AttendanceResetPayload(records[1..], idMap);
      var a := records[0];
      if a.studentId in idMap && idMap[a.studentId] != "" then [Remapped(a, idMap)] + rest else rest
  }

  /** Each record of `records`, re-linked. */
  function RemapAll(records: seq<AttendanceRecord>, idMap: map<string, string>): (r: seq<AttendancePayload>)
    requires forall a :: a in records ==> a.studentId in idMap
    ensures |r| == |records|
    ensures forall i :: 0 <= i < |records| ==> r[i] == Remapped(records[i], idMap)
  {
    if records == [] then [] else [Remapped(records[0], idMap)] + RemapAll(records[1..], idMap)
  }

  /** The attendance payload is, in order, the re-linked records of the
      mapped students. */
  lemma {:induction false} AttendanceResetPayloadKeepsMapped(records: seq<AttendanceRecord>, idMap: map<string, string>)
    requires forall id :: id in idMap ==> idMap[id] != ""
    ensures AttendanceResetPayload(records, idMap) == RemapAll(Filter(records, MappedIn(idMap)), idMap)
  {
    if records != [] {
      AttendanceResetPayloadKeepsMapped(records[1..], idMap);
    }
  }

  function MappedIn(idMap: map<string, string>): AttendanceRecord -> bool {
    (a: AttendanceRecord) => a.studentId in idMap
  }

  /** When the database gives back every demo student (same name and
      phone, a non-empty id), every student is re-linked: no attendance is
      dropped and every finance link to a demo student survives. */
  lemma ResetKeepsEverythingWhenAllInserted(
    students: seq<Student>, inserted: seq<StudentRow>,
    finances: seq<Transaction>, attendance: seq<AttendanceRecord>)
    requires forall s :: s in students ==>
               exists i :: 0 <= i < |inserted| && RowKey(inserted[i]) == BuildStudentLookupKey(s.name, s.phone)
    requires forall i :: 0 <= i < |inserted| ==> IdString(inserted[i].id) != ""
    requires forall a :: a in attendance ==> exists s :: s in students && s.id == a.studentId
    ensures var idMap := StudentIdMap(students, IdByLookupKey(inserted));
            |AttendanceResetPayload(attendance, idMap)| == |attendance| &&
            forall i :: (0 <= i < |finances| && IsTruthy(finances[i].studentId) &&
                         exists s :: s in students && s.id == finances[i].studentId.value) ==>
              FinanceResetPayload(finances, idMap)[i].studentId.Some?
  {
    var byKey := IdByLookupKey(inserted);
    var idMap := StudentIdMap(students, byKey);
    forall s | s in students ensures BuildStudentLookupKey(s.name, s.phone) in byKey && byKey[BuildStudentLookupKey(s.name, s.phone)] != "" {
      var k := BuildStudentLookupKey(s.name, s.phone);
      IdByLookupKeyFinds(inserted, k);
    }
    StudentIdMapSound(students, byKey);
    AttendanceResetPayloadKeepsMapped(attendance, idMap);
    FilterKeepsAll(attendance, MappedIn(idMap));
  }

  // ---- Saving attendance without missing columns ----

  /** The column an upsert error says is missing, checked in the order
      student name, batch, note. */
  function ColumnToDrop(message: string): Option<AttendanceColumn> {
    if IsMissingAttendanceColumnError(message, StudentNameColumn) then Some(StudentNameColumn)
    else if IsMissingAttendanceColumnError(message, BatchColumn) then Some(BatchColumn)
    else if IsMissingAttendanceColumnError(message, NoteColumn) then Some(NoteColumn)
    else None
  }

  const ALL_COLUMNS: set<AttendanceColumn> := {StudentNameColumn, BatchColumn, NoteColumn}
  const MAX_ATTEMPTS := 4

  /** How the upsert ended: the last error, if any, the optional columns
      still sent, and the number of attempts made. */
  datatype UpsertOutcome = UpsertOutcome(error: Option<string>, columns: set<AttendanceColumn>, attempts: nat)

  /** The retry loop from attempt `attempt` on; `respond` is the database's
      answer to an upsert sending the given optional columns. */
  function RetryUpsert(columns: set<AttendanceColumn>, respond: set<AttendanceColumn> -> Option<string>, attempt: nat): (o: UpsertOutcome)
    requires attempt < MAX_ATTEMPTS
    ensures attempt < o.attempts <= MAX_ATTEMPTS
    ensures o.columns <= columns
    ensures o.error.None? ==> respond(o.columns).None?
    decreases MAX_ATTEMPTS - attempt
  {
    var error := respond(columns);
    if error.None? then UpsertOutcome(None, columns, attempt + 1)
    else
      match ColumnToDrop(error.value)
      case None => UpsertOutcome(error, columns, attempt + 1)
      case Some(c) =>
        if attempt + 1 < MAX_ATTEMPTS then RetryUpsert(columns - {c}, respond, attempt + 1)
        else UpsertOutcome(error, columns - {c}, attempt + 1)
  }

  /** The four-attempt loop of the attendance upsert. */
  method UpsertAttendance(respond: set<AttendanceColumn> -> Option<string>) returns (outcome: UpsertOutcome)
    ensures outcome == RetryUpsert(ALL_COLUMNS, respond, 0)
  {
    var columns := ALL_COLUMNS;
    var attempt := 0;
    while true
      invariant 0 <= attempt < MAX_ATTEMPTS
      invariant RetryUpsert(columns, respond, attempt) == RetryUpsert(ALL_COLUMNS, respond, 0)
      decreases MAX_ATTEMPTS - attempt
    {
      var error := respond(columns);
      if error.None? {
        return UpsertOutcome(None, columns, attempt + 1);
      }
      var drop := ColumnToDrop(error.value);
      if drop.None? {
        return UpsertOutcome(error, columns, attempt + 1);
      }
      columns := columns - {drop.value};
      if attempt + 1 == MAX_ATTEMPTS {
        return UpsertOutcome(error, columns, attempt + 1);
      }
      attempt := attempt + 1;
    }
  }

  /** A database lacking the columns in `missing`, which reports the first
      missing one it is sent, in the order student name, batch, note. */
  function DatabaseLacking(missing: set<AttendanceColumn>): set<AttendanceColumn> -> Option<string> {
    (sent: set<AttendanceColumn>) =>
      if StudentNameColumn in sent * missing then Some(MissingColumnMessage(StudentNameColumn))
      else if BatchColumn in sent * missing then Some(MissingColumnMessage(BatchColumn))
      else if NoteColumn in sent * missing then Some(MissingColumnMessage(NoteColumn))
      else None
  }

  lemma ColumnToDropOfMissing(c: AttendanceColumn)
    ensures ColumnToDrop(MissingColumnMessage(c)) == Some(c)
  {
    MissingColumnMessageRecognised(c);
  }

  /** One retry that drops the column the database reported. */
  lemma DropStep(columns: set<AttendanceColumn>, respond: set<AttendanceColumn> -> Option<string>, attempt: nat, c: AttendanceColumn)
    requires attempt + 1 < MAX_ATTEMPTS
    requires respond(columns) == Some(MissingColumnMessage(c))
    ensures RetryUpsert(columns, respond, attempt) == RetryUpsert(columns - {c}, respond, attempt + 1)
  {
    ColumnToDropOfMissing(c);
  }

  /** Whatever optional columns the database lacks, the save succeeds,
      sending exactly the columns it has, after one attempt per missing
      column plus one. */
  lemma UpsertSucceedsWithoutMissingColumns(missing: set<AttendanceColumn>)
    ensures RetryUpsert(ALL_COLUMNS, DatabaseLacking(missing), 0) ==
              UpsertOutcome(None, ALL_COLUMNS - missing, |missing| + 1)
  {
    var respond := DatabaseLacking(missing);
    var s1 := if StudentNameColumn in missing then ALL_COLUMNS - {StudentNameColumn} else ALL_COLUMNS;
    var n1 := if StudentNameColumn in missing then 1 else 0;
    if StudentNameColumn in missing {
      DropStep(ALL_COLUMNS, respond, 0, StudentNameColumn);
    }
    assert StudentNameColumn !in s1 * missing;
    var s2 := if BatchColumn in missing then s1 - {BatchColumn} else s1;
    var n2 := if BatchColumn in missing then n1 + 1 else n1;
    if BatchColumn in missing {
      assert BatchColumn in s1 * missing;
      DropStep(s1, respond, n1, BatchColumn);
    }
    assert StudentNameColumn !in s2 * missing && BatchColumn !in s2 * missing;
    var s3 := if NoteColumn in missing then s2 - {NoteColumn} else s2;
    var n3 := if NoteColumn in missing then n2 + 1 else n2;
    if NoteColumn in missing {
      assert NoteColumn in s2 * missing;
      DropStep(s2, respond, n2, NoteColumn);
    }
    assert StudentNameColumn !in s3 * missing && BatchColumn !in s3 * missing && NoteColumn !in s3 * missing;
    assert respond(s3).None?;
    SetOfColumns(s3, ALL_COLUMNS - missing);
    MissingCount(missing);
  }

  lemma SetOfColumns(a: set<AttendanceColumn>, b: set<AttendanceColumn>)
    requires StudentNameColumn in a <==> StudentNameColumn in b
    requires BatchColumn in a <==> BatchColumn in b
    requires NoteColumn in a <==> NoteColumn in b
    ensures a == b
  {
    forall x ensures x in a <==> x in b {
      match x
      case StudentNameColumn =>
      case BatchColumn =>
      case NoteColumn =>
    }
  }

  lemma MissingCount(missing: set<AttendanceColumn>)
    ensures |missing| == (if StudentNameColumn in missing then 1 else 0) + (if BatchColumn in missing then 1 else 0) +
                         (if NoteColumn in missing then 1 else 0)
  {
    var a := if StudentNameColumn in missing then {StudentNameColumn} else {};
    var b := if BatchColumn in missing then {BatchColumn} else {};
    var c := if NoteColumn in missing then {NoteColumn} else {};
    SetOfColumns(missing, a + b + c);
  }
}
