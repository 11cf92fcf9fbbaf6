/** The admin panel's records: students, finance transactions, attendance,
    the business profile and user access, the snapshot that holds them,
    and the inputs of the forms that create them. Optional fields are
    `Option`s; `null` and `undefined` are both `None`. */
module Domain {
  import opened Wrappers

  datatype StudentStatus = Active | Inactive
  datatype Batch = Morning | Evening
  datatype TransactionType = Income | Expense
  datatype PaymentStatus = Paid | Pending
  datatype AttendanceStatus = Present | Absent

  /** "admin" has full access; "students_only" is limited to the student pages. */
  datatype AppRole = Admin | StudentsOnly

  /** How much of an account `deleteUserAccess` removes: only the role
      ("access") or the whole user ("user"). */
  datatype DeleteMode = AccessOnly | WholeUser

  function BatchName(b: Batch): string {
    match b
    case Morning => "morning"
    case Evening => "evening"
  }

  function StudentStatusName(s: StudentStatus): string {
    match s
    case Active => "active"
    case Inactive => "inactive"
  }

  function TransactionTypeName(t: TransactionType): string {
    match t
    case Income => "income"
    case Expense => "expense"
  }

  function PaymentStatusName(s: PaymentStatus): string {
    match s
    case Paid => "paid"
    case Pending => "pending"
  }

  function AttendanceStatusName(s: AttendanceStatus): string {
    match s
    case Present => "present"
    case Absent => "absent"
  }

  function RoleName(r: AppRole): string {
    match r
    case Admin => "admin"
    case StudentsOnly => "students_only"
  }

  datatype Student = Student(
    id: string,
    name: string,
    phone: string,
    batch: Batch,
    joinDate: string,
    status: StudentStatus,
    monthlyFee: int,
    teacher: Option<string>)

  datatype Transaction = Transaction(
    id: string,
    transactionDate: string,
    category: string,
    kind: TransactionType,
    amount: int,
    status: PaymentStatus,
    description: string,
    note: Option<string>,
    studentId: Option<string>)

  datatype AttendanceRecord = AttendanceRecord(
    id: string,
    studentId: string,
    studentName: string,
    batch: Batch,
    attendanceDate: string,
    status: AttendanceStatus,
    note: Option<string>)

  datatype BusinessProfile = BusinessProfile(
    businessName: string,
    ownerName: string,
    phone: string,
    address: string)

  datatype UserAccess = UserAccess(
    userId: string,
    email: string,
    role: Option<AppRole>,
    createdAt: string,
    assignedTeachers: Option<seq<string>>)

  datatype CreateUserAccessInput = CreateUserAccessInput(
    email: string,
    password: string,
    role: AppRole,
    assignedTeachers: Option<seq<string>>)

  /** Everything the panel shows, loaded once and updated after each mutation. */
  datatype Snapshot = Snapshot(
    students: seq<Student>,
    finances: seq<Transaction>,
    attendance: seq<AttendanceRecord>,
    profile: BusinessProfile)

  /** One row of the attendance sheet as submitted. */
  datatype AttendanceDraft = AttendanceDraft(
    studentId: string,
    studentName: string,
    batch: Batch,
    status: AttendanceStatus,
    note: Option<string>)

  datatype StudentFormInput = StudentFormInput(
    name: string,
    phone: string,
    batch: Option<Batch>,
    joinDate: string,
    monthlyFee: Option<int>,
    status: Option<StudentStatus>,
    teacher: Option<string>)

  datatype TransactionFormInput = TransactionFormInput(
    transactionDate: string,
    category: string,
    kind: TransactionType,
    amount: int,
    status: PaymentStatus,
    description: string,
    note: Option<string>,
    studentId: Option<string>)

  /** What a transaction form sends: an update of an existing record, or a
      new one. */
  datatype TransactionRequest = UpdateTransaction(id: string, input: TransactionFormInput) | AddTransaction(input: TransactionFormInput)

  /** The `YYYY-MM-DD` date a transaction is sorted by. */
  function DateOf(t: Transaction): string {
    t.transactionDate
  }

  const STUDENT_FEE := "Student Fee"
  const FINANCE_CATEGORIES: seq<string> := [STUDENT_FEE, "Rent", "Salary", "Utilities", "Marketing", "Supplies"]
  const MONTHS_TO_SHOW := 6
  const DEFAULT_MONTHLY_FEE := 3000
  const UNKNOWN_STUDENT := "Unknown Student"

  /** JavaScript truthiness of an optional string: present and non-empty. */
  predicate IsTruthy(s: Option<string>) {
    s.Some? && s.value != ""
  }

  /** The transaction is linked to the student with this id. */
  predicate LinkedTo(t: Transaction, id: string) {
    t.studentId == Some(id)
  }
}
