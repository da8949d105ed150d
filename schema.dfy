/**
 * The relational schema of the clinic database (the CREATE TABLE statements
 * of server/db.ts) as record types, plus the request and reply shapes the
 * route handlers share.
 */
module Schema {
  import opened Wrappers
  import opened Tables

  /**
   * A nullable TEXT (or DATETIME) cell. The DATETIME values the app writes
   * (`CURRENT_TIMESTAMP` and date strings from its forms) are stored as text;
   * a numeric-looking value, which NUMERIC affinity would store as a number,
   * is not represented.
   */
  type Text = Option<string>

  /** A scalar field of a JSON request body; `Missing` stands for both undefined and null. */
  datatype Json = Missing | Bool(b: bool) | Num(n: int) | Str(s: string)

  /** JavaScript truthiness of such a field. */
  predicate Truthy(j: Json)
  {
    match j
    case Missing => false
    case Bool(b) => b
    case Num(n) => n != 0
    case Str(s) => s != ""
  }

  /** `x ? 1 : 0`: the 0/1 normalisation applied to boolean columns. */
  function Bit(j: Json): (r: int)
    ensures r == 0 || r == 1
    ensures r == 1 <==> Truthy(j)
  {
    if Truthy(j) then 1 else 0
  }

  /** `x || 0` on a numeric field: the number itself when non-zero, otherwise 0. */
  function OrZero(x: Option<int>): (r: int)
    ensures x.None? ==> r == 0
    ensures x.Some? ==> r == x.value
  {
    if x.Some? && x.value != 0 then x.value else 0
  }

  const Admin := "Admin"
  const SchoolNurse := "School Nurse"

  /** `req.user`: who the request acts for. */
  datatype Identity = Identity(id: int, username: string, role: string)

  /** What every handler reads from the request besides its body: the caller, the address, the clock. */
  datatype Context = Context(user: Identity, ip: string, now: string)

  /** `{ success: true }`. */
  datatype Ack = Success

  /**
   * A handler's answer: a JSON body, an error status with `{ error }`, or an
   * exception that escapes the handler, in which case Express answers 500
   * itself: a constraint failure of the store, or bcrypt refusing to hash a
   * missing password.
   */
  datatype Reply<T> = Ok(body: T) | Error(status: int, message: string) | Thrown(error: SqlError) | HashThrew

  // ---- Rows, one record type per table.  Columns without NOT NULL are Options. ----

  datatype User = User(
    username: string, passwordHash: string, role: string,
    isActive: int, failedAttempts: int, lastLogin: Text)

  datatype Student = Student(
    name: Text, grade: Text, phone: Text, isSpecialCase: Option<int>, chronicCondition: Text)

  datatype Visit = Visit(
    studentId: Option<int>, diagnosis: Text, treatment: Text,
    paracSyrup: Option<int>, paracTab: Option<int>, hyoscine: Option<int>,
    referred: Option<int>, referralTime: Text, dateTime: Text, createdBy: Option<int>,
    whatsAppNotified: Option<int>, whatsAppSentDate: Text)

  datatype FollowUp = FollowUp(
    studentId: Option<int>, followUpDate: Text, followUpType: Text, symptoms: Text,
    services: Text, recommendations: Text, referred: Option<int>, createdBy: Option<int>,
    whatsAppNotified: Option<int>)

  datatype Referral = Referral(
    studentId: Option<int>, reason: Text, destination: Text, dateTime: Text,
    createdBy: Option<int>, whatsAppNotified: Option<int>,
    age: Text, gender: Text, history: Text, referralTime: Text)

  datatype Appointment = Appointment(
    studentId: Option<int>, date: Text, healthProblem: Text, clinicName: Text,
    createdBy: Option<int>, whatsAppNotified: Option<int>)

  datatype SchoolSettings = SchoolSettings(schoolName: Text, supervisorName: Text, logoPath: Text)

  datatype AuditEntry = AuditEntry(
    userId: Option<int>, actionType: string, tableName: string, recordId: Option<int>,
    dateTime: string, ipAddress: string)

  /** The whole database: every table, the audit log included. */
  datatype DbState = DbState(
    users: Table<User>,
    students: Table<Student>,
    visits: Table<Visit>,
    followUps: Table<FollowUp>,
    referrals: Table<Referral>,
    appointments: Table<Appointment>,
    settings: Table<SchoolSettings>,
    audit: Table<AuditEntry>)

  // ---- Constraints the schema declares. ----

  predicate StudentStored(s: Student)
  {
    s.name.Some? && s.grade.Some?
  }

  predicate VisitStored(v: Visit)
  {
    v.studentId.Some? && v.createdBy.Some?
  }

  predicate FollowUpStored(f: FollowUp)
  {
    f.studentId.Some? && f.createdBy.Some?
  }

  predicate ReferralStored(r: Referral)
  {
    r.studentId.Some? && r.createdBy.Some?
  }

  predicate AppointmentStored(a: Appointment)
  {
    a.studentId.Some? && a.createdBy.Some?
  }

  /** Every row satisfies `p` (the table's NOT NULL columns). */
  predicate AllRows<T>(rows: seq<Row<T>>, p: T -> bool)
  {
    forall i :: 0 <= i < |rows| ==> p(rows[i].val)
  }

  /** An update that keeps a row property on every row keeps it on the table. */
  lemma ModifyAllRows<T>(rows: seq<Row<T>>, id: int, f: T -> T, p: T -> bool)
    requires AllRows(rows, p)
    requires forall i :: 0 <= i < |rows| ==> p(f(rows[i].val))
    ensures AllRows(Modify(rows, id, f), p)
  {
  }

  predicate HasUsername(rows: seq<Row<User>>, name: string)
  {
    exists i :: 0 <= i < |rows| && rows[i].val.username == name
  }

  /** `Username TEXT UNIQUE`. */
  predicate UniqueUsernames(rows: seq<Row<User>>)
  {
    forall i, j :: 0 <= i < j < |rows| ==> rows[i].val.username != rows[j].val.username
  }

  /** `Settings.Id ... CHECK (Id = 1)`: the table holds at most the row with Id 1. */
  predicate SettingsSingleton(rows: seq<Row<SchoolSettings>>)
  {
    forall i :: 0 <= i < |rows| ==> rows[i].id == 1
  }

  /** Distinct Ids, all equal to 1: the Settings table never holds more than one row. */
  lemma SettingsAtMostOne(rows: seq<Row<SchoolSettings>>)
    requires Ascending(rows) && SettingsSingleton(rows)
    ensures |rows| <= 1
  {
    if rows != [] {
      IdSpread(rows);
      assert rows[0].id == 1 && rows[|rows| - 1].id == 1;
    }
  }

  /** Everything the schema's constraints guarantee about a database. */
  predicate WellFormed(st: DbState)
  {
    && Valid(st.users) && Valid(st.students) && Valid(st.visits) && Valid(st.followUps)
    && Valid(st.referrals) && Valid(st.appointments) && Valid(st.settings) && Valid(st.audit)
    && UniqueUsernames(st.users.rows)
    && SettingsSingleton(st.settings.rows)
    && AllRows(st.students.rows, StudentStored)
    && AllRows(st.visits.rows, VisitStored)
    && AllRows(st.followUps.rows, FollowUpStored)
    && AllRows(st.referrals.rows, ReferralStored)
    && AllRows(st.appointments.rows, AppointmentStored)
  }

  /** Some clinic appointment names one of these students (so deleting them breaks a FOREIGN KEY). */
  predicate AppointmentsReferTo(appointments: seq<Row<Appointment>>, students: seq<Row<Student>>)
  {
    exists i :: 0 <= i < |appointments| && appointments[i].val.studentId.Some?
                && HasId(students, appointments[i].val.studentId.value)
  }

  /**
   * The constraints on a row of a table that belongs to a student and records
   * who created it: StudentId and CreatedByUserId NOT NULL (in that column
   * order), and, when foreign keys are enforced, both naming existing rows.
   */
  function ChildCheck(table: string, studentId: Option<int>, createdBy: Option<int>, fk: bool,
                      students: seq<Row<Student>>, users: seq<Row<User>>): (r: Option<SqlError>)
    ensures r.None? <==> studentId.Some? && createdBy.Some?
                         && (fk ==> HasId(students, studentId.value) && HasId(users, createdBy.value))
    ensures studentId.None? ==> r == Some(NotNull(table + ".StudentId"))
    ensures studentId.Some? && createdBy.None? ==> r == Some(NotNull(table + ".CreatedByUserId"))
  {
    if studentId.None? then Some(NotNull(table + ".StudentId"))
    else if createdBy.None? then Some(NotNull(table + ".CreatedByUserId"))
    else if fk && !(HasId(students, studentId.value) && HasId(users, createdBy.value)) then Some(ForeignKey)
    else None
  }
}
