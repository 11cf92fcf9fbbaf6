/** CSV export of students, finance records and attendance. A field is
    quoted when it holds a comma, a double quote or a line feed, with its
    quotes doubled (section 2, rules 6 and 7 of RFC 4180); records are
    separated by a line feed rather than the CRLF of rule 1, and a carriage
    return alone does not cause quoting. `ParseCsv` is a reader for this
    format, used to state that the export is unambiguous. */
module Csv {
  import opened Wrappers
  import opened Text
  import opened Numbers
  import opened Domain

  predicate NeedsQuoting(value: string) {
    ',' in value || '"' in value || '\n' in value
  }

  /** `replaceAll("\"", "\"\"")` */
  function DoubleQuotes(s: string): (r: string)
    ensures |r| >= |s|
    ensures '\n' !in s ==> '\n' !in r
  {
    if s == [] then [] else (if s[0] == '"' then "\"\"" else [s[0]]) + DoubleQuotes(s[1..])
  }

  /** `escapeCsvValue(value)` */
  function EscapeCsvValue(value: string): (r: string)
    ensures !NeedsQuoting(value) ==> r == value
    ensures NeedsQuoting(value) ==> |r| >= |value| + 2 && r[0] == '"' && r[|r| - 1] == '"'
    ensures '\n' !in value ==> '\n' !in r
  {
    if NeedsQuoting(value) then "\"" + DoubleQuotes(value) + "\"" else value
  }

  /** Every field escaped. */
  function EscapeAll(fields: seq<string>): (r: seq<string>)
    ensures |r| == |fields|
  {
    if fields == [] then [] else [EscapeCsvValue(fields[0])] + EscapeAll(fields[1..])
  }

  /** The fields of one record joined with commas. */
  function JoinRow(fields: seq<string>): string {
    Join(EscapeAll(fields), ",")
  }

  /** One line per record. */
  function RecordLines(records: seq<seq<string>>): (lines: seq<string>)
    ensures |lines| == |records|
  {
    if records == [] then [] else [JoinRow(records[0])] + RecordLines(records[1..])
  }

  /** The lines of `records` joined with line feeds. */
  function JoinRecords(records: seq<seq<string>>): string {
    Join(RecordLines(records), "\n")
  }

  /** `buildCsv(headers, rows)`: the header line, then one line per row. */
  function BuildCsv(headers: seq<string>, rows: seq<seq<string>>): string {
    JoinRecords([headers] + rows)
  }

  /** A field read from the text, and the text after it. */
  datatype FieldRead = FieldRead(field: string, rest: string)

  /** Reads the inside of a quoted field, after its opening quote: a doubled
      quote stands for one quote, a single quote closes the field. */
  function ReadQuoted(s: string): (p: FieldRead)
    ensures |p.rest| <= |s|
  {
    if s == [] then FieldRead([], [])
    else if s[0] == '"' then
      if |s| >= 2 && s[1] == '"' then
        var p := ReadQuoted(s[2..]);
        FieldRead(['"'] + p.field, p.rest)
      else FieldRead([], s[1..])
    else
      var p := ReadQuoted(s[1..]);
      FieldRead([s[0]] + p.field, p.rest)
  }

  /** Reads an unquoted field, up to the next comma or line feed. */
  function ReadPlain(s: string): (p: FieldRead)
    ensures |p.rest| <= |s|
    ensures p.rest == [] || p.rest[0] == ',' || p.rest[0] == '\n'
  {
    if s == [] || s[0] == ',' || s[0] == '\n' then FieldRead([], s)
    else
      var p := ReadPlain(s[1..]);
      FieldRead([s[0]] + p.field, p.rest)
  }

  function ReadField(s: string): (p: FieldRead)
    ensures |p.rest| <= |s|
  {
    if |s| > 0 && s[0] == '"' then ReadQuoted(s[1..]) else ReadPlain(s)
  }

  /** A record read from the text, and the text after its line feed
      (`None` when the text ended). */
  datatype RecordRead = RecordRead(fields: seq<string>, rest: Option<string>)

  function ReadRecord(s: string): (p: RecordRead)
    ensures |p.fields| >= 1
    ensures p.rest.Some? ==> |p.rest.value| < |s|
    decreases |s|
  {
    var f := ReadField(s);
    if |f.rest| > 0 && f.rest[0] == ',' then
      var r := ReadRecord(f.rest[1..]);
      RecordRead([f.field] + r.fields, r.rest)
    else if |f.rest| > 0 && f.rest[0] == '\n' then RecordRead([f.field], Some(f.rest[1..]))
    else RecordRead([f.field], None)
  }

  /** The records of a CSV text. */
  function ParseCsv(s: string): (records: seq<seq<string>>)
    ensures |records| >= 1
    decreases |s|
  {
    var r := ReadRecord(s);
    match r.rest
    case None => [r.fields]
    case Some(rest) => [r.fields] + ParseCsv(rest)
  }

  /** The text after a field: nothing, or a separator. */
  predicate FieldEnd(tail: string) {
    tail == [] || tail[0] == ',' || tail[0] == '\n'
  }

  lemma {:induction false} ReadQuotedOfDoubled(value: string, tail: string)
    requires FieldEnd(tail)
    ensures ReadQuoted(DoubleQuotes(value) + "\"" + tail) == FieldRead(value, tail)
  {
    if value != [] {
      ReadQuotedOfDoubled(value[1..], tail);
      if value[0] == '"' {
        ReadQuotedDoubledQuote(value, tail);
      } else {
        ReadQuotedPlainChar(value, tail);
      }
    } else {
      var s := DoubleQuotes(value) + "\"" + tail;
      assert s[1..] == tail;
    }
  }

  /** A doubled quote reads as one quote. */
  lemma ReadQuotedDoubledQuote(value: string, tail: string)
    requires value != [] && value[0] == '"'
    requires ReadQuoted(DoubleQuotes(value[1..]) + "\"" + tail) == FieldRead(value[1..], tail)
    ensures ReadQuoted(DoubleQuotes(value) + "\"" + tail) == FieldRead(value, tail)
  {
    var d := DoubleQuotes(value[1..]);
    assert DoubleQuotes(value) == "\"\"" + d;
    ConcatAssoc("\"\"", d, "\"", tail);
    ReadQuotedQuote(d + "\"" + tail);
    assert [value[0]] + value[1..] == value;
  }

  /** Any other character reads as itself. */
  lemma ReadQuotedPlainChar(value: string, tail: string)
    requires value != [] && value[0] != '"'
    requires ReadQuoted(DoubleQuotes(value[1..]) + "\"" + tail) == FieldRead(value[1..], tail)
    ensures ReadQuoted(DoubleQuotes(value) + "\"" + tail) == FieldRead(value, tail)
  {
    var d := DoubleQuotes(value[1..]);
    assert DoubleQuotes(value) == [value[0]] + d;
    ConcatAssoc([value[0]], d, "\"", tail);
    ReadQuotedChar(value[0], d + "\"" + tail);
    assert [value[0]] + value[1..] == value;
  }

  lemma ConcatAssoc(a: string, b: string, c: string, e: string)
    ensures a + b + c + e == a + (b + c + e) == a + (b + (c + e))
  {
  }

  lemma ReadQuotedQuote(rest: string)
    ensures ReadQuoted("\"\"" + rest) == FieldRead(['"'] + ReadQuoted(rest).field, ReadQuoted(rest).rest)
  {
    assert ("\"\"" + rest)[2..] == rest;
  }

  lemma ReadQuotedChar(c: char, rest: string)
    requires c != '"'
    ensures ReadQuoted([c] + rest) == FieldRead([c] + ReadQuoted(rest).field, ReadQuoted(rest).rest)
  {
    assert ([c] + rest)[1..] == rest;
  }

  lemma {:induction false} ReadPlainOfUnquoted(value: string, tail: string)
    requires ',' !in value && '\n' !in value
    requires FieldEnd(tail)
    ensures ReadPlain(value + tail) == FieldRead(value, tail)
  {
    if value != [] {
      assert value[0] in value;
      assert (value + tail)[1..] == value[1..] + tail;
      ReadPlainOfUnquoted(value[1..], tail);
      assert [value[0]] + value[1..] == value;
    }
  }

  /** Reading an escaped field gives back the value and stops at the separator. */
  lemma ReadFieldOfEscaped(value: string, tail: string)
    requires FieldEnd(tail)
    ensures ReadField(EscapeCsvValue(value) + tail) == FieldRead(value, tail)
  {
    if NeedsQuoting(value) {
      ReadFieldOfQuoted(value, tail);
    } else {
      if value != [] {
        assert value[0] in value;
      }
      ReadPlainOfUnquoted(value, tail);
    }
  }

  lemma ReadFieldOfQuoted(value: string, tail: string)
    requires FieldEnd(tail) && NeedsQuoting(value)
    ensures ReadField(EscapeCsvValue(value) + tail) == FieldRead(value, tail)
  {
    var inner := DoubleQuotes(value) + "\"" + tail;
    ConcatAssoc("\"", DoubleQuotes(value), "\"", tail);
    assert EscapeCsvValue(value) + tail == "\"" + inner;
    assert ("\"" + inner)[1..] == inner;
    ReadQuotedOfDoubled(value, tail);
  }

  /** An escaped value on its own reads back as that value: removing the
      outer quotes and collapsing doubled quotes undoes the escaping. */
  lemma EscapeRoundTrip(value: string)
    ensures ReadField(EscapeCsvValue(value)) == FieldRead(value, [])
  {
    ReadFieldOfEscaped(value, []);
    assert EscapeCsvValue(value) + [] == EscapeCsvValue(value);
  }

  /** A record line reads back as its fields. */
  lemma {:induction false} ReadRecordOfJoinRow(fields: seq<string>, tail: string)
    requires |fields| >= 1
    requires tail == [] || tail[0] == '\n'
    ensures ReadRecord(JoinRow(fields) + tail) == RecordRead(fields, if tail == [] then None else Some(tail[1..]))
  {
    if |fields| == 1 {
      assert EscapeAll(fields) == [EscapeCsvValue(fields[0])];
      ReadFieldOfEscaped(fields[0], tail);
    } else {
      ReadRecordOfJoinRow(fields[1..], tail);
      ReadRecordStep(fields, tail);
    }
  }

  /** The first field of a longer record, then the rest of the record. */
  lemma ReadRecordStep(fields: seq<string>, tail: string)
    requires |fields| >= 2
    requires ReadRecord(JoinRow(fields[1..]) + tail) == RecordRead(fields[1..], if tail == [] then None else Some(tail[1..]))
    ensures ReadRecord(JoinRow(fields) + tail) == RecordRead(fields, if tail == [] then None else Some(tail[1..]))
  {
    var more := JoinRow(fields[1..]) + tail;
    JoinRowCons(fields, tail);
    ReadFieldOfEscaped(fields[0], "," + more);
    ReadRecordAfterComma(EscapeCsvValue(fields[0]) + ("," + more), fields[0], more);
    assert [fields[0]] + fields[1..] == fields;
  }

  lemma JoinRowCons(fields: seq<string>, tail: string)
    requires |fields| >= 2
    ensures JoinRow(fields) + tail == EscapeCsvValue(fields[0]) + ("," + (JoinRow(fields[1..]) + tail))
  {
    var first := EscapeCsvValue(fields[0]);
    assert EscapeAll(fields) == [first] + EscapeAll(fields[1..]);
    JoinCons(first, EscapeAll(fields[1..]), ",");
    ConcatAssoc(first, ",", JoinRow(fields[1..]), tail);
  }

  /** A field followed by a comma: the record goes on after the comma. */
  lemma ReadRecordAfterComma(s: string, field: string, more: string)
    requires ReadField(s) == FieldRead(field, "," + more)
    ensures ReadRecord(s) == RecordRead([field] + ReadRecord(more).fields, ReadRecord(more).rest)
  {
    assert ("," + more)[1..] == more;
  }

  lemma {:induction false} ParseJoinRecords(records: seq<seq<string>>)
    requires |records| >= 1
    requires forall i :: 0 <= i < |records| ==> |records[i]| >= 1
    ensures ParseCsv(JoinRecords(records)) == records
  {
    if |records| == 1 {
      ReadRecordOfJoinRow(records[0], []);
      assert JoinRecords(records) == JoinRow(records[0]) + [];
    } else {
      JoinCons(JoinRow(records[0]), RecordLines(records[1..]), "\n");
      var rest := JoinRecords(records[1..]);
      assert JoinRecords(records) == JoinRow(records[0]) + ("\n" + rest);
      ReadRecordOfJoinRow(records[0], "\n" + rest);
      assert ("\n" + rest)[1..] == rest;
      ParseJoinRecords(records[1..]);
      assert [records[0]] + records[1..] == records;
    }
  }

  /** The export is unambiguous: reading it back gives the header and every
      row, field for field, whatever the fields contain, provided the header
      and each row have at least one field. */
  lemma BuildCsvRoundTrip(headers: seq<string>, rows: seq<seq<string>>)
    requires |headers| >= 1
    requires forall i :: 0 <= i < |rows| ==> |rows[i]| >= 1
    ensures ParseCsv(BuildCsv(headers, rows)) == [headers] + rows
  {
    var records := [headers] + rows;
    forall i | 0 <= i < |records| ensures |records[i]| >= 1 {
      if i > 0 {
        assert records[i] == rows[i - 1];
      }
    }
    ParseJoinRecords(records);
  }

  /** The records read back from an export, one by one. */
  lemma ExportRecords(headers: seq<string>, rows: seq<seq<string>>)
    requires |headers| >= 1
    requires forall i :: 0 <= i < |rows| ==> |rows[i]| >= 1
    ensures var records := ParseCsv(BuildCsv(headers, rows));
            |records| == |rows| + 1 && records[0] == headers &&
            forall i :: 0 <= i < |rows| ==> records[i + 1] == rows[i]
  {
    BuildCsvRoundTrip(headers, rows);
  }

  /** Without line feeds in any field, the export has exactly one line per
      row plus the header line. */
  lemma BuildCsvLines(headers: seq<string>, rows: seq<seq<string>>)
    requires forall f :: f in headers ==> '\n' !in f
    requires forall i :: 0 <= i < |rows| ==> forall f :: f in rows[i] ==> '\n' !in f
    ensures |Split(BuildCsv(headers, rows), '\n')| == |rows| + 1
    ensures Split(BuildCsv(headers, rows), '\n')[0] == JoinRow(headers)
  {
    var records := [headers] + rows;
    forall i | 0 <= i < |records| ensures '\n' !in RecordLines(records)[i] {
      RecordLinesAt(records, i);
      JoinRowNoLineFeed(records[i]);
    }
    SplitJoin(RecordLines(records), '\n');
  }

  lemma {:induction false} RecordLinesAt(records: seq<seq<string>>, i: nat)
    requires i < |records|
    ensures RecordLines(records)[i] == JoinRow(records[i])
  {
    if i > 0 {
      RecordLinesAt(records[1..], i - 1);
    }
  }

  lemma {:induction false} JoinRowNoLineFeed(fields: seq<string>)
    requires forall f :: f in fields ==> '\n' !in f
    ensures '\n' !in JoinRow(fields)
  {
    if |fields| > 1 {
      assert fields[0] in fields;
      JoinRowNoLineFeed(fields[1..]);
    } else if |fields| == 1 {
      assert fields[0] in fields;
    }
  }

  const STUDENT_HEADERS: seq<string> := ["ID", "Name", "Phone", "Batch", "Join Date", "Status", "Monthly Fee"]
  const FINANCE_HEADERS: seq<string> := ["ID", "Date", "Category", "Type", "Amount", "Status", "Description", "Note", "Student ID"]
  const ATTENDANCE_HEADERS: seq<string> := ["ID", "Student ID", "Student Name", "Batch", "Date", "Status", "Note"]

  function StudentRow(s: Student): (row: seq<string>)
    ensures |row| == 7 && row[0] == s.id && row[1] == s.name && row[2] == s.phone
    ensures row[3] == BatchName(s.batch) && row[4] == s.joinDate
    ensures row[5] == StudentStatusName(s.status) && row[6] == IntToString(s.monthlyFee)
  {
    [s.id, s.name, s.phone, BatchName(s.batch), s.joinDate, StudentStatusName(s.status), IntToString(s.monthlyFee)]
  }

  function FinanceRow(t: Transaction): (row: seq<string>)
    ensures |row| == 9 && row[0] == t.id && row[1] == t.transactionDate && row[2] == t.category
    ensures row[3] == TransactionTypeName(t.kind) && row[4] == IntToString(t.amount)
    ensures row[5] == PaymentStatusName(t.status) && row[6] == t.description
    ensures row[7] == t.note.UnwrapOr("") && row[8] == t.studentId.UnwrapOr("")
  {
    [t.id, t.transactionDate, t.category, TransactionTypeName(t.kind), IntToString(t.amount),
     PaymentStatusName(t.status), t.description, t.note.UnwrapOr(""), t.studentId.UnwrapOr("")]
  }

  function AttendanceRow(r: AttendanceRecord): (row: seq<string>)
    ensures |row| == 7 && row[0] == r.id && row[1] == r.studentId && row[2] == r.studentName
    ensures row[3] == BatchName(r.batch) && row[4] == r.attendanceDate
    ensures row[5] == AttendanceStatusName(r.status) && row[6] == r.note.UnwrapOr("")
  {
    [r.id, r.studentId, r.studentName, BatchName(r.batch), r.attendanceDate,
     AttendanceStatusName(r.status), r.note.UnwrapOr("")]
  }

  /** One row per student, in order. */
  function StudentsRows(students: seq<Student>): (rows: seq<seq<string>>)
    ensures |rows| == |students|
    ensures forall i :: 0 <= i < |students| ==> rows[i] == StudentRow(students[i])
  {
    seq(|students|, i requires 0 <= i < |students| => StudentRow(students[i]))
  }

  /** `studentsToCsv(students)` */
  function StudentsToCsv(students: seq<Student>): string {
    BuildCsv(STUDENT_HEADERS, StudentsRows(students))
  }

  /** One row per transaction, in order. */
  function FinancesRows(finances: seq<Transaction>): (rows: seq<seq<string>>)
    ensures |rows| == |finances|
    ensures forall i :: 0 <= i < |finances| ==> rows[i] == FinanceRow(finances[i])
  {
    seq(|finances|, i requires 0 <= i < |finances| => FinanceRow(finances[i]))
  }

  /** `financesToCsv(finances)` */
  function FinancesToCsv(finances: seq<Transaction>): string {
    BuildCsv(FINANCE_HEADERS, FinancesRows(finances))
  }

  /** One row per attendanceRecord, in order. */
  function AttendanceRows(attendance: seq<AttendanceRecord>): (rows: seq<seq<string>>)
    ensures |rows| == |attendance|
    ensures forall i :: 0 <= i < |attendance| ==> rows[i] == AttendanceRow(attendance[i])
  {
    seq(|attendance|, i requires 0 <= i < |attendance| => AttendanceRow(attendance[i]))
  }

  /** `attendanceToCsv(attendance)` */
  function AttendanceToCsv(attendance: seq<AttendanceRecord>): string {
    BuildCsv(ATTENDANCE_HEADERS, AttendanceRows(attendance))
  }

  /** A student's record read back holds their id, name, phone, batch
      name, join date, status name and a fee that parses back to the same
      number. */
  predicate StudentRecordMatches(record: seq<string>, s: Student) {
    |record| == 7 && record[0] == s.id && record[1] == s.name && record[2] == s.phone &&
    record[3] == BatchName(s.batch) && record[4] == s.joinDate &&
    record[5] == StudentStatusName(s.status) && ParseNumber(record[6]) == Some(s.monthlyFee)
  }

  lemma StudentRowMatches(s: Student)
    ensures StudentRecordMatches(StudentRow(s), s)
  {
    ParseNumberOfIntToString(s.monthlyFee);
  }

  lemma StudentsRowsMatch(students: seq<Student>)
    ensures forall i :: 0 <= i < |students| ==> StudentRecordMatches(StudentsRows(students)[i], students[i])
  {
    forall i | 0 <= i < |students| ensures StudentRecordMatches(StudentsRows(students)[i], students[i]) {
      StudentRowMatches(students[i]);
    }
  }

  /** The student export reads back as the seven headers and, per student,
      seven fields in the order id, name, phone, batch, join date, status, fee. */
  lemma StudentsCsvReadsBack(students: seq<Student>)
    ensures var records := ParseCsv(StudentsToCsv(students));
            |records| == |students| + 1 && records[0] == STUDENT_HEADERS &&
            forall i :: 0 <= i < |students| ==> StudentRecordMatches(records[i + 1], students[i])
  {
    ExportRecords(STUDENT_HEADERS, StudentsRows(students));
    StudentsRowsMatch(students);
  }

  /** A finance record read back holds its id, date, category, type name,
      an amount that parses back to the same number, its status name,
      description and note; a missing note or student id is an empty
      field, a present student id is that id. */
  predicate FinanceRecordMatches(record: seq<string>, t: Transaction) {
    |record| == 9 && record[0] == t.id && record[1] == t.transactionDate && record[2] == t.category &&
    record[3] == TransactionTypeName(t.kind) && ParseNumber(record[4]) == Some(t.amount) &&
    record[5] == PaymentStatusName(t.status) && record[6] == t.description &&
    record[7] == t.note.UnwrapOr("") &&
    (t.studentId.None? ==> record[8] == "") &&
    (t.studentId.Some? ==> record[8] == t.studentId.value)
  }

  lemma FinanceRowMatches(t: Transaction)
    ensures FinanceRecordMatches(FinanceRow(t), t)
  {
    ParseNumberOfIntToString(t.amount);
  }

  lemma FinancesRowsMatch(finances: seq<Transaction>)
    ensures forall i :: 0 <= i < |finances| ==> FinanceRecordMatches(FinancesRows(finances)[i], finances[i])
  {
    forall i | 0 <= i < |finances| ensures FinanceRecordMatches(FinancesRows(finances)[i], finances[i]) {
      FinanceRowMatches(finances[i]);
    }
  }

  /** The finance export reads back as the nine headers and one record per
      finance record. */
  lemma FinancesCsvReadsBack(finances: seq<Transaction>)
    ensures var records := ParseCsv(FinancesToCsv(finances));
            |records| == |finances| + 1 && records[0] == FINANCE_HEADERS &&
            forall i :: 0 <= i < |finances| ==> FinanceRecordMatches(records[i + 1], finances[i])
  {
    ExportRecords(FINANCE_HEADERS, FinancesRows(finances));
    FinancesRowsMatch(finances);
  }

  /** An attendance record read back holds its id, the student id and
      name, the batch name, the date, the status name and the note, a
      missing note being an empty field. */
  predicate AttendanceRecordMatches(record: seq<string>, r: AttendanceRecord) {
    |record| == 7 && record[0] == r.id && record[1] == r.studentId && record[2] == r.studentName &&
    record[3] == BatchName(r.batch) && record[4] == r.attendanceDate &&
    record[5] == AttendanceStatusName(r.status) && record[6] == r.note.UnwrapOr("")
  }

  /** The attendance export reads back as the seven headers and one record
      per attendance record. */
  lemma AttendanceCsvReadsBack(attendance: seq<AttendanceRecord>)
    ensures var records := ParseCsv(AttendanceToCsv(attendance));
            |records| == |attendance| + 1 && records[0] == ATTENDANCE_HEADERS &&
            forall i :: 0 <= i < |attendance| ==> AttendanceRecordMatches(records[i + 1], attendance[i])
  {
    ExportRecords(ATTENDANCE_HEADERS, AttendanceRows(attendance));
  }
}
