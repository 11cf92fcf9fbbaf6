/** The attendance tab of the students page: the day being marked (never a
    weekend), the roster of active students in the chosen batch, the sheet
    of drafted statuses and notes, its summary and save payload, and the
    month calendar of one student. Today's date is a parameter, and the
    records of a day come from the provider's `getAttendanceForDate`. */
module AttendanceTab {
  import opened Wrappers
  import opened Text
  import opened Numbers
  import opened Dates
  import opened Domain
  import opened Seqs

  // ---------------------------------------------------------------------
  // Months and days

  /** `new Date(year, month, day)` reads a year 0..99 as 1900..1999. */
  function CalendarYear(year: int): int {
    if 0 <= year <= 99 then 1900 + year else year
  }

  /** `parseMonthValue`: the first day of the month a "YYYY-MM" value names,
      or today when its month part is not a number from 1 to 12. */
  function ParseMonthValue(value: string, today: Date): (first: Date)
    ensures first == today || (first.day == 1 && 1 <= first.month <= 12)
  {
    var parts := Split(value, '-');
    var year := ParseNumber(parts[0]);
    var month := if |parts| > 1 then ParseNumber(parts[1]) else None;
    if year.None? || month.None? || month.value < 1 || month.value > 12 then today
    else Date(CalendarYear(year.value), month.value, 1)
  }

  /** The two parts of a month value name a month: both read as numbers
      and the month is one of 1..12. */
  predicate NamesMonth(yearText: string, monthText: string) {
    ParseNumber(yearText).Some? && ParseNumber(monthText).Some? &&
    1 <= ParseNumber(monthText).value <= 12
  }

  /** A value "<year>-<month>…" reads as that month's first day when its
      parts name a month ("2026-10"), and falls back to today otherwise
      ("2026-13", "2026-00", "2026-xx", "x-10"). */
  lemma MonthValueOfParts(yearText: string, rest: string, today: Date)
    requires '-' !in yearText
    ensures var monthText := Split(rest, '-')[0];
            var first := ParseMonthValue(yearText + "-" + rest, today);
            (!NamesMonth(yearText, monthText) ==> first == today) &&
            (NamesMonth(yearText, monthText) ==>
               first == Date(CalendarYear(ParseNumber(yearText).value), ParseNumber(monthText).value, 1))
  {
    var value := yearText + "-" + rest;
    assert value == yearText + ['-'] + rest;
    SplitAtSeparator(yearText, '-', rest);
    var year := ParseNumber(yearText);
    var month := ParseNumber(Split(rest, '-')[0]);
    assert ParseMonthValue(value, today) ==
           if year.None? || month.None? || month.value < 1 || month.value > 12 then today
           else Date(CalendarYear(year.value), month.value, 1);
  }

  /** Digits hold no '-'. */
  lemma NoDashInDigits(s: string)
    requires AllDigits(s)
    ensures '-' !in s
  {
    forall k | 0 <= k < |s| ensures s[k] != '-' {
      assert IsDigit(s[k]);
    }
  }

  /** The month picker's value of a month reads back as its first day. */
  lemma ParseMonthValueOfMonthKey(ym: YearMonth, today: Date)
    requires ValidYearMonth(ym) && 1000 <= ym.year <= 9999
    ensures ParseMonthValue(MonthKey(ym), today) == Date(ym.year, ym.month, 1)
  {
    var y := NatToString(ym.year);
    var m := TwoDigits(ym.month);
    TwoDigitsOfMonth(ym.month);
    NoDashInDigits(y);
    NoDashInDigits(m);
    assert MonthKey(ym) == y + ['-'] + m;
    SplitAtSeparator(y, '-', m);
    ParseNumberOfDigits(y);
    DigitsValueOfNatToString(ym.year);
    ParseNumberOfDigits(m);
  }

  /** A value without a month part falls back to today. */
  lemma MonthValueWithoutMonthIsToday(value: string, today: Date)
    requires '-' !in value
    ensures ParseMonthValue(value, today) == today
  {
  }

  /** `getNearestWeekday`: a Sunday moves to the Monday after it, a
      Saturday to the Monday after it, and a weekday stays. */
  function GetNearestWeekday(d: Date): (r: Date)
    requires ValidDate(d)
    ensures ValidDate(r) && !IsWeekend(r)
    ensures !IsWeekend(d) ==> r == d
    ensures r == d || r == AddDays(d, 1) || r == AddDays(d, 2)
  {
    var w := DayOfWeek(d);
    if w == 0 then
      DayOfWeekAddDays(d, 1);
      AddDays(d, 1)
    else if w == 6 then
      DayOfWeekAddDays(d, 2);
      AddDays(d, 2)
    else d
  }

  // ---------------------------------------------------------------------
  // The roster

  function ActiveInBatch(batch: Batch): Student -> bool {
    (s: Student) => s.status == Active && s.batch == batch
  }

  function NameOf(s: Student): string {
    s.name
  }

  /** `activeBatchStudents`: the active students of the batch, each as
      often as listed, ordered by name. */
  function ActiveBatchStudents(students: seq<Student>, batch: Batch): (roster: seq<Student>)
    ensures multiset(roster) == multiset(Filter(students, ActiveInBatch(batch)))
  {
    SortBy(Filter(students, ActiveInBatch(batch)), ByKey(NameOf))
  }

  /** The roster is ordered by name and lists exactly the active students
      of the batch. */
  lemma ActiveBatchStudentsSorted(students: seq<Student>, batch: Batch)
    ensures SortedBy(ActiveBatchStudents(students, batch), ByKey(NameOf))
    ensures forall s :: s in ActiveBatchStudents(students, batch) <==> s in students && s.status == Active && s.batch == batch
  {
    SortByMembers(Filter(students, ActiveInBatch(batch)), ByKey(NameOf));
    ByKeyTotalPreorder(NameOf);
    SortBySorted(Filter(students, ActiveInBatch(batch)), ByKey(NameOf));
  }

  /** The selected student is kept only while they are on the roster. */
  function KeepSelection(current: Option<string>, roster: seq<Student>): (r: Option<string>)
    ensures r.Some? ==> r == current && exists s :: s in roster && s.id == r.value
    ensures current.Some? && current.value != [] && (exists s :: s in roster && s.id == current.value) ==> r == current
  {
    match current
    case None => None
    case Some(id) =>
      if id != [] && exists s :: s in roster && s.id == id then current else None
  }

  // ---------------------------------------------------------------------
  // Stored records of the day

  /** `existingByStudent`: each student's record of the day; a `Map` that
      is `set` record by record, so a later record replaces an earlier one. */
  function ExistingByStudent(records: seq<AttendanceRecord>): map<string, AttendanceRecord>
    decreases |records|
  {
    if records == [] then map[]
    else
      var last := records[|records| - 1];
      ExistingByStudent(records[..|records| - 1])[last.studentId := last]
  }

  /** The map holds a record for exactly the students that have one, and
      that record is one of theirs. */
  lemma {:induction false} ExistingByStudentMembers(records: seq<AttendanceRecord>, id: string)
    ensures id in ExistingByStudent(records) <==> exists k :: 0 <= k < |records| && records[k].studentId == id
    ensures id in ExistingByStudent(records) ==>
              exists k :: 0 <= k < |records| && records[k] == ExistingByStudent(records)[id] && records[k].studentId == id
    decreases |records|
  {
    if records != [] {
      var n := |records| - 1;
      ExistingByStudentMembers(records[..n], id);
      if id != records[n].studentId {
        if exists k :: 0 <= k < |records| && records[k].studentId == id {
          var k :| 0 <= k < |records| && records[k].studentId == id;
          assert records[..n][k] == records[k];
        }
        if id in ExistingByStudent(records) {
          var k :| 0 <= k < n && records[..n][k] == ExistingByStudent(records)[id] && records[..n][k].studentId == id;
          assert records[k] == records[..n][k];
        }
      }
    }
  }

  /** The last record of a student is the one kept. */
  lemma {:induction false} ExistingByStudentKeepsLast(records: seq<AttendanceRecord>, k: nat)
    requires k < |records|
    requires forall j :: k < j < |records| ==> records[j].studentId != records[k].studentId
    ensures records[k].studentId in ExistingByStudent(records)
    ensures ExistingByStudent(records)[records[k].studentId] == records[k]
    decreases |records|
  {
    var n := |records| - 1;
    if k < n {
      assert records[..n][k] == records[k];
      ExistingByStudentKeepsLast(records[..n], k);
    }
  }

  // ---------------------------------------------------------------------
  // The sheet

  /** The status the sheet starts from: the stored one, else present. */
  function DraftStatus(byStudent: map<string, AttendanceRecord>, id: string): AttendanceStatus {
    if id in byStudent then byStudent[id].status else Present
  }

  /** The note the sheet starts from: the stored one, else empty. */
  function DraftNote(byStudent: map<string, AttendanceRecord>, id: string): string {
    if id in byStudent then byStudent[id].note.UnwrapOr("") else ""
  }

  function Ids(roster: seq<Student>): set<string> {
    set s | s in roster :: s.id
  }

  lemma IdsSnoc(roster: seq<Student>, i: nat)
    requires i < |roster|
    ensures Ids(roster[..i + 1]) == Ids(roster[..i]) + {roster[i].id}
  {
    assert roster[..i + 1] == roster[..i] + [roster[i]];
    assert roster[i] in roster[..i + 1];
    forall s | s in roster[..i] ensures s in roster[..i + 1] { }
  }

  /** Filling one more key of a map built from a function. */
  lemma FillStep<V>(keys: set<string>, k: string, f: string -> V)
    ensures (map id | id in keys :: f(id))[k := f(k)] == map id | id in keys + {k} :: f(id)
  {
  }

  /** The statuses and notes being edited, keyed by student id. */
  class AttendanceSheet {
    var statusMap: map<string, AttendanceStatus>
    var noteMap: map<string, string>

    constructor()
      ensures statusMap == map[] && noteMap == map[]
    {
      statusMap := map[];
      noteMap := map[];
    }

    /** The effect run whenever the roster or the day's records change:
        every roster student starts from their stored status and note. */
    method Load(roster: seq<Student>, existing: seq<AttendanceRecord>)
      modifies this
      ensures statusMap == map id | id in Ids(roster) :: DraftStatus(ExistingByStudent(existing), id)
      ensures noteMap == map id | id in Ids(roster) :: DraftNote(ExistingByStudent(existing), id)
    {
      var byStudent := ExistingByStudent(existing);
      var statusOf := (id: string) => DraftStatus(byStudent, id);
      var noteOf := (id: string) => DraftNote(byStudent, id);
      var nextStatus: map<string, AttendanceStatus> := map[];
      var nextNotes: map<string, string> := map[];
      assert roster[..0] == [];
      for i := 0 to |roster|
        invariant nextStatus == map id | id in Ids(roster[..i]) :: statusOf(id)
        invariant nextNotes == map id | id in Ids(roster[..i]) :: noteOf(id)
      {
        IdsSnoc(roster, i);
        FillStep(Ids(roster[..i]), roster[i].id, statusOf);
        FillStep(Ids(roster[..i]), roster[i].id, noteOf);
        nextStatus := nextStatus[roster[i].id := statusOf(roster[i].id)];
        nextNotes := nextNotes[roster[i].id := noteOf(roster[i].id)];
      }
      assert roster[..|roster|] == roster;
      statusMap := nextStatus;
      noteMap := nextNotes;
    }

    /** The Present / Absent buttons of a row. */
    method SetStatus(id: string, status: AttendanceStatus)
      modifies this
      ensures statusMap == old(statusMap)[id := status] && noteMap == old(noteMap)
    {
      statusMap := statusMap[id := status];
    }

    /** The note field of a row. */
    method SetNote(id: string, note: string)
      modifies this
      ensures noteMap == old(noteMap)[id := note] && statusMap == old(statusMap)
    {
      noteMap := noteMap[id := note];
    }
  }

  // ---------------------------------------------------------------------
  // Summary and save

  predicate MarkedAbsent(statusMap: map<string, AttendanceStatus>, id: string) {
    id in statusMap && statusMap[id] == Absent
  }

  /** Students not marked absent (a student missing from the map counts
      as present). */
  function CountPresent(roster: seq<Student>, statusMap: map<string, AttendanceStatus>): (n: nat)
    ensures n <= |roster|
  {
    if roster == [] then 0
    else CountPresent(roster[..|roster| - 1], statusMap) + (if MarkedAbsent(statusMap, roster[|roster| - 1].id) then 0 else 1)
  }

  function CountAbsent(roster: seq<Student>, statusMap: map<string, AttendanceStatus>): nat {
    if roster == [] then 0
    else CountAbsent(roster[..|roster| - 1], statusMap) + (if MarkedAbsent(statusMap, roster[|roster| - 1].id) then 1 else 0)
  }

  datatype Summary = Summary(total: int, present: int, absent: int)

  /** `summary`: the roster size, and how many are present and absent. */
  function SummaryOf(roster: seq<Student>, statusMap: map<string, AttendanceStatus>): (r: Summary)
    ensures r.total == |roster| && r.present + r.absent == r.total
    ensures 0 <= r.present && 0 <= r.absent
  {
    var present := CountPresent(roster, statusMap);
    Summary(|roster|, present, |roster| - present)
  }

  /** The absent count is the number of students marked absent. */
  lemma {:induction false} SummaryCountsAbsent(roster: seq<Student>, statusMap: map<string, AttendanceStatus>)
    ensures SummaryOf(roster, statusMap).absent == CountAbsent(roster, statusMap)
    decreases |roster|
  {
    if roster != [] {
      SummaryCountsAbsent(roster[..|roster| - 1], statusMap);
    }
  }

  function StatusOr(statusMap: map<string, AttendanceStatus>, id: string): AttendanceStatus {
    if id in statusMap then statusMap[id] else Present
  }

  /** `noteMap[id]?.trim() || undefined` */
  function NoteOrNone(noteMap: map<string, string>, id: string): (note: Option<string>)
    ensures note.Some? ==> note.value != [] && IsTrimmed(note.value)
  {
    if id in noteMap && Trim(noteMap[id]) != [] then Some(Trim(noteMap[id])) else None
  }

  function DraftFor(s: Student, statusMap: map<string, AttendanceStatus>, noteMap: map<string, string>): AttendanceDraft {
    AttendanceDraft(s.id, s.name, s.batch, StatusOr(statusMap, s.id), NoteOrNone(noteMap, s.id))
  }

  /** `handleSave`: nothing is sent for an empty roster; otherwise one
      draft per roster student, in roster order, present unless marked
      otherwise and with blank notes dropped. */
  function SaveRequest(roster: seq<Student>, statusMap: map<string, AttendanceStatus>, noteMap: map<string, string>)
    : (payload: Option<seq<AttendanceDraft>>)
    ensures payload.None? <==> roster == []
    ensures payload.Some? ==> |payload.value| == |roster|
    ensures payload.Some? ==> forall i :: 0 <= i < |roster| ==>
              payload.value[i].studentId == roster[i].id && payload.value[i].studentName == roster[i].name &&
              payload.value[i].batch == roster[i].batch
    ensures payload.Some? ==> forall i :: 0 <= i < |roster| ==>
              payload.value[i].status == (if roster[i].id in statusMap then statusMap[roster[i].id] else Present)
    ensures payload.Some? ==> forall i :: 0 <= i < |roster| ==>
              payload.value[i].note ==
                (if roster[i].id in noteMap && !IsBlank(noteMap[roster[i].id]) then Some(Trim(noteMap[roster[i].id])) else None)
  {
    if roster == [] then None
    else Some(seq(|roster|, i requires 0 <= i < |roster| => DraftFor(roster[i], statusMap, noteMap)))
  }

  /** Records that echo a payload: each carries the student, status and
      note of the draft at its position. */
  predicate EchoesPayload(saved: seq<AttendanceRecord>, payload: seq<AttendanceDraft>) {
    |saved| == |payload| &&
    forall k :: 0 <= k < |saved| ==>
      saved[k].studentId == payload[k].studentId && saved[k].status == payload[k].status &&
      saved[k].note == payload[k].note
  }

  /** Saving the sheet and loading the saved records gives every roster
      student back the status drafted for them, and their note trimmed. */
  lemma SavedSheetReloads(roster: seq<Student>, statusMap: map<string, AttendanceStatus>, noteMap: map<string, string>,
                          saved: seq<AttendanceRecord>, i: nat)
    requires i < |roster|
    requires SaveRequest(roster, statusMap, noteMap).Some?
    requires EchoesPayload(saved, SaveRequest(roster, statusMap, noteMap).value)
    ensures DraftStatus(ExistingByStudent(saved), roster[i].id) == StatusOr(statusMap, roster[i].id)
    ensures DraftNote(ExistingByStudent(saved), roster[i].id) ==
              if roster[i].id in noteMap then Trim(noteMap[roster[i].id]) else ""
  {
    var payload := SaveRequest(roster, statusMap, noteMap).value;
    var id := roster[i].id;
    ExistingByStudentMembers(saved, id);
    assert saved[i].studentId == id;
    var k :| 0 <= k < |saved| && saved[k] == ExistingByStudent(saved)[id] && saved[k].studentId == id;
    assert payload[k] == DraftFor(roster[k], statusMap, noteMap);
  }

  // ---------------------------------------------------------------------
  // The month calendar of one student

  datatype DayKind = PresentDay | AbsentDay | WeekendDay | Unmarked

  datatype DayCell = DayCell(date: Date, dateKey: string, dayNumber: int, kind: DayKind, note: Option<string>)

  datatype MonthlyView = MonthlyView(
    dayCells: seq<DayCell>,
    leadingEmptyCells: int,
    trailingEmptyCells: int,
    presentDays: int,
    absentDays: int,
    workingDays: int)

  /** What the calendar reads: the selected student, the stored records of
      each day, and the sheet being edited for the selected date. */
  datatype CalendarSource = CalendarSource(
    student: Student,
    recordsOn: string -> seq<AttendanceRecord>,
    selectedDateKey: string,
    statusMap: map<string, AttendanceStatus>,
    noteMap: map<string, string>)

  function StudentIs(id: string): AttendanceRecord -> bool {
    (r: AttendanceRecord) => r.studentId == id
  }

  /** The status a day shows: on the selected date the sheet's draft, if
      the student has one, else the record stored for that day, if any. */
  function ResolvedStatus(src: CalendarSource, dateKey: string): Option<AttendanceStatus> {
    if dateKey == src.selectedDateKey && src.student.id in src.statusMap then Some(src.statusMap[src.student.id])
    else
      var record := Find(src.recordsOn(dateKey), StudentIs(src.student.id));
      if record.Some? then Some(record.value.status) else None
  }

  /** The note a day shows, resolved the same way as its status. */
  function ResolvedNote(src: CalendarSource, dateKey: string): Option<string> {
    if dateKey == src.selectedDateKey && src.student.id in src.noteMap then Some(src.noteMap[src.student.id])
    else
      var record := Find(src.recordsOn(dateKey), StudentIs(src.student.id));
      if record.Some? then record.value.note else None
  }

  function KindOf(weekend: bool, status: Option<AttendanceStatus>): DayKind {
    if weekend then WeekendDay
    else if status == Some(Present) then PresentDay
    else if status == Some(Absent) then AbsentDay
    else Unmarked
  }

  /** What a calendar day shows. */
  function CellFor(src: CalendarSource, ym: YearMonth, day: int): DayCell
    requires ValidYearMonth(ym) && 1 <= day <= DaysInMonth(ym.year, ym.month)
  {
    var date := Date(ym.year, ym.month, day);
    var key := DateKey(date);
    DayCell(date, key, day, KindOf(IsWeekend(date), ResolvedStatus(src, key)), ResolvedNote(src, key))
  }

  /** Weekends are shown as such whatever is stored, and only weekends. */
  lemma WeekendCells(src: CalendarSource, ym: YearMonth, day: int)
    requires ValidYearMonth(ym) && 1 <= day <= DaysInMonth(ym.year, ym.month)
    ensures CellFor(src, ym, day).kind == WeekendDay <==> IsWeekend(Date(ym.year, ym.month, day))
  {
  }

  /** On the selected date a drafted status and note win over whatever is
      stored for that day. */
  lemma DraftOverridesRecord(src: CalendarSource, ym: YearMonth, day: int, otherRecordsOn: string -> seq<AttendanceRecord>)
    requires ValidYearMonth(ym) && 1 <= day <= DaysInMonth(ym.year, ym.month)
    requires src.selectedDateKey == DateKey(Date(ym.year, ym.month, day))
    requires src.student.id in src.statusMap && src.student.id in src.noteMap
    ensures CellFor(src, ym, day) == CellFor(src.(recordsOn := otherRecordsOn), ym, day)
    ensures CellFor(src, ym, day).note == Some(src.noteMap[src.student.id])
  {
  }

  /** The first cells of a month's calendar. */
  predicate CellsMatch(src: CalendarSource, ym: YearMonth, cells: seq<DayCell>)
    requires ValidYearMonth(ym)
  {
    |cells| <= DaysInMonth(ym.year, ym.month) &&
    forall k :: 0 <= k < |cells| ==> cells[k] == CellFor(src, ym, k + 1)
  }

  lemma CellsMatchSnoc(src: CalendarSource, ym: YearMonth, cells: seq<DayCell>, cell: DayCell)
    requires ValidYearMonth(ym) && CellsMatch(src, ym, cells) && |cells| < DaysInMonth(ym.year, ym.month)
    requires cell == CellFor(src, ym, |cells| + 1)
    ensures CellsMatch(src, ym, cells + [cell])
  {
    var longer := cells + [cell];
    forall k | 0 <= k < |longer| ensures longer[k] == CellFor(src, ym, k + 1) {
      if k < |cells| {
        assert longer[k] == cells[k];
      }
    }
  }

  /** How many cells are of a kind. */
  function CountKind(cells: seq<DayCell>, kind: DayKind): (n: nat)
    ensures n <= |cells|
  {
    if cells == [] then 0
    else CountKind(cells[..|cells| - 1], kind) + (if cells[|cells| - 1].kind == kind then 1 else 0)
  }

  lemma CountKindSnoc(cells: seq<DayCell>, c: DayCell, kind: DayKind)
    ensures CountKind(cells + [c], kind) == CountKind(cells, kind) + (if c.kind == kind then 1 else 0)
  {
    assert (cells + [c])[..|cells|] == cells;
  }

  /** Every cell is of exactly one kind. */
  lemma {:induction false} KindsPartition(cells: seq<DayCell>)
    ensures CountKind(cells, PresentDay) + CountKind(cells, AbsentDay) +
            CountKind(cells, WeekendDay) + CountKind(cells, Unmarked) == |cells|
    decreases |cells|
  {
    if cells != [] {
      KindsPartition(cells[..|cells| - 1]);
    }
  }

  /** Empty cells after the last day so that the grid fills whole weeks. */
  function TrailingEmptyCells(leading: int, days: int): (trailing: int)
    ensures 0 <= trailing < 7
    ensures (leading + days + trailing) % 7 == 0
  {
    (7 - ((leading + days) % 7)) % 7
  }

  /** The grid of empty and day cells is whole weeks. */
  predicate FillsWeeks(view: MonthlyView) {
    0 <= view.trailingEmptyCells < 7 &&
    (view.leadingEmptyCells + |view.dayCells| + view.trailingEmptyCells) % 7 == 0
  }

  lemma PaddingFillsWeeks(view: MonthlyView)
    requires view.trailingEmptyCells == TrailingEmptyCells(view.leadingEmptyCells, |view.dayCells|)
    ensures FillsWeeks(view)
  {
  }

  /** The counters of the calendar agree with its cells. */
  predicate CountsMatch(view: MonthlyView) {
    view.presentDays == CountKind(view.dayCells, PresentDay) &&
    view.absentDays == CountKind(view.dayCells, AbsentDay) &&
    view.workingDays == |view.dayCells| - CountKind(view.dayCells, WeekendDay)
  }

  /** One more cell moves the counters by its kind. */
  lemma CountsMatchSnoc(cells: seq<DayCell>, cell: DayCell, leading: int, present: int, absent: int, working: int)
    requires CountsMatch(MonthlyView(cells, leading, 0, present, absent, working))
    ensures CountsMatch(MonthlyView(cells + [cell], leading, 0,
                                    present + (if cell.kind == PresentDay then 1 else 0),
                                    absent + (if cell.kind == AbsentDay then 1 else 0),
                                    working + (if cell.kind == WeekendDay then 0 else 1)))
  {
    CountKindSnoc(cells, cell, PresentDay);
    CountKindSnoc(cells, cell, AbsentDay);
    CountKindSnoc(cells, cell, WeekendDay);
  }

  /** `monthlyView` for a selected student: one cell per day of the month,
      and the counts of present, absent and working days. */
  method BuildMonthlyView(src: CalendarSource, ym: YearMonth) returns (view: MonthlyView)
    requires ValidYearMonth(ym)
    ensures |view.dayCells| == DaysInMonth(ym.year, ym.month) && CellsMatch(src, ym, view.dayCells)
    ensures view.leadingEmptyCells == DayOfWeek(Date(ym.year, ym.month, 1))
    ensures view.trailingEmptyCells == TrailingEmptyCells(view.leadingEmptyCells, |view.dayCells|)
    ensures CountsMatch(view)
  {
    var daysInMonth := DaysInMonth(ym.year, ym.month);
    var leading := DayOfWeek(Date(ym.year, ym.month, 1));
    var dayCells: seq<DayCell> := [];
    var presentDays, absentDays, workingDays := 0, 0, 0;
    var dayNumber := 1;
    while dayNumber <= daysInMonth
      invariant 1 <= dayNumber <= daysInMonth + 1
      invariant |dayCells| == dayNumber - 1
      invariant CellsMatch(src, ym, dayCells)
      invariant CountsMatch(MonthlyView(dayCells, leading, 0, presentDays, absentDays, workingDays))
    {
      ghost var presentBefore, absentBefore, workingBefore := presentDays, absentDays, workingDays;
      var date := Date(ym.year, ym.month, dayNumber);
      var dateKey := DateKey(date);
      var status := ResolvedStatus(src, dateKey);
      var note := ResolvedNote(src, dateKey);
      var kind;
      if IsWeekend(date) {
        kind := WeekendDay;
      } else {
        workingDays := workingDays + 1;
        if status == Some(Present) {
          presentDays := presentDays + 1;
          kind := PresentDay;
        } else if status == Some(Absent) {
          absentDays := absentDays + 1;
          kind := AbsentDay;
        } else {
          kind := Unmarked;
        }
      }
      var cell := DayCell(date, dateKey, dayNumber, kind, note);
      assert cell == CellFor(src, ym, dayNumber);
      CellsMatchSnoc(src, ym, dayCells, cell);
      CountsMatchSnoc(dayCells, cell, leading, presentBefore, absentBefore, workingBefore);
      dayCells := dayCells + [cell];
      dayNumber := dayNumber + 1;
    }
    view := MonthlyView(dayCells, leading, TrailingEmptyCells(leading, |dayCells|), presentDays, absentDays, workingDays);
  }

  /** The calendar's counts: present and absent days are working days,
      and working days and weekends make up the month. */
  lemma MonthlyViewCounts(view: MonthlyView)
    requires CountsMatch(view)
    ensures view.presentDays + view.absentDays <= view.workingDays
    ensures view.workingDays + CountKind(view.dayCells, WeekendDay) == |view.dayCells|
  {
    KindsPartition(view.dayCells);
  }

  /** The month the calendar shows: the one the picker names, else today's. */
  function ViewedMonth(selectedMonth: string, today: Date): (ym: YearMonth)
    requires ValidDate(today)
    ensures ValidYearMonth(ym)
  {
    var first := ParseMonthValue(selectedMonth, today);
    YearMonth(first.year, first.month)
  }

  /** The calendar shown for the selected student, if any. */
  method MonthlyViewFor(selected: Option<Student>, selectedMonth: string, today: Date,
                        recordsOn: string -> seq<AttendanceRecord>, selectedDateKey: string,
                        statusMap: map<string, AttendanceStatus>, noteMap: map<string, string>)
    returns (view: Option<MonthlyView>)
    requires ValidDate(today)
    ensures view.None? <==> selected.None?
    ensures view.Some? ==>
              CellsMatch(CalendarSource(selected.value, recordsOn, selectedDateKey, statusMap, noteMap),
                         ViewedMonth(selectedMonth, today), view.value.dayCells)
    ensures view.Some? ==> FillsWeeks(view.value)
    ensures view.Some? ==> view.value.presentDays + view.value.absentDays <= view.value.workingDays
  {
    if selected.None? {
      return None;
    }
    var ym := ViewedMonth(selectedMonth, today);
    var v := BuildMonthlyView(CalendarSource(selected.value, recordsOn, selectedDateKey, statusMap, noteMap), ym);
    MonthlyViewCounts(v);
    PaddingFillsWeeks(v);
    view := Some(v);
  }
}
