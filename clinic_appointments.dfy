/**
 * server/routes/clinic-appointments.ts: appointments of students at outside
 * clinics. No route here checks a role: every authenticated caller may list,
 * book, mark and delete.
 */
module ClinicAppointmentRoutes {
  import opened Wrappers
  import opened Tables
  import opened Schema
  import Lists
  import opened Store
  import opened Joins

  /** An appointment is joined with its student only; its creator is not looked up. */
  function AppointmentLinks(): Links<Appointment>
  {
    Links((a: Appointment) => a.studentId, (a: Appointment) => a.createdBy, false)
  }

  function ByDate(j: Joined<Appointment>): Option<string>
  {
    j.row.val.date
  }

  /**
   * GET /: the appointments whose student exists, each with the student's
   * name, grade and phone, latest date first. The creator need not exist.
   */
  function ListAppointments(st: DbState): (r: seq<Joined<Appointment>>)
    ensures Lists.SortedDesc(r, ByDate)
    ensures forall j :: j in r <==> j.row in st.appointments.rows && JoinedFrom(j, AppointmentLinks(), st.students.rows, st.users.rows)
    ensures forall j :: j in r ==> j.createdBy == None
    ensures |r| <= |st.appointments.rows|
  {
    Listing(st.appointments.rows, AppointmentLinks(), st.students.rows, st.users.rows, ByDate)
  }

  /** Every appointment whose student exists is listed, whatever becomes of the users. */
  lemma ListingIgnoresUsers(st: DbState)
    requires forall i :: 0 <= i < |st.appointments.rows| ==>
               st.appointments.rows[i].val.studentId.Some?
               && HasId(st.students.rows, st.appointments.rows[i].val.studentId.value)
    ensures |ListAppointments(st)| == |st.appointments.rows|
  {
    assert forall i :: 0 <= i < |st.appointments.rows| ==>
             Matched(st.appointments.rows[i], AppointmentLinks(), st.students.rows, st.users.rows);
  }

  /** The fields POST / reads from the body. */
  datatype AppointmentBody = AppointmentBody(studentId: Option<int>, date: Text, healthProblem: Text, clinicName: Text)

  /**
   * The inserted row: the creator is the caller and it starts un-notified. The
   * date is bound explicitly, so a missing date is stored as NULL rather than
   * taking the column's default.
   */
  function NewAppointment(b: AppointmentBody, ctx: Context): Appointment
  {
    Appointment(b.studentId, b.date, b.healthProblem, b.clinicName, Some(ctx.user.id), Some(0))
  }

  /** The constraint the INSERT violates, if any. */
  function AppointmentRefused(st: DbState, fk: bool, b: AppointmentBody, ctx: Context): Option<SqlError>
  {
    ChildCheck("ClinicAppointments", b.studentId, Some(ctx.user.id), fk, st.students.rows, st.users.rows)
  }

  /**
   * POST /: books an appointment and replies with its new Id; a constraint
   * failure escapes the handler with nothing stored and nothing logged.
   */
  method CreateAppointment(db: Database, ctx: Context, b: AppointmentBody) returns (reply: Reply<int>)
    requires db.Valid()
    modifies db
    ensures db.Valid()
    ensures AppointmentRefused(old(db.State()), db.foreignKeys, b, ctx).Some? ==>
              reply == Thrown(AppointmentRefused(old(db.State()), db.foreignKeys, b, ctx).value) && db.State() == old(db.State())
    ensures AppointmentRefused(old(db.State()), db.foreignKeys, b, ctx).None? ==>
              var id := NextId(old(db.appointments));
              && reply == Ok(id)
              && db.State() == Logged(old(db.State()).(appointments := Append(old(db.appointments), NewAppointment(b, ctx))),
                                      Entry(ctx, "CREATE_CLINIC_APPOINTMENT", "ClinicAppointments", Some(id)))
  {
    var err := AppointmentRefused(db.State(), db.foreignKeys, b, ctx);
    if err.Some? {
      return Thrown(err.value);
    }
    var id := NextId(db.appointments);
    db.appointments := Append(db.appointments, NewAppointment(b, ctx));
    LogAudit(db, Some(ctx.user.id), "CREATE_CLINIC_APPOINTMENT", "ClinicAppointments", Some(id), ctx.ip, ctx.now);
    reply := Ok(id);
  }

  /** A booked appointment whose student exists shows up in the listing under the Id the reply gave. */
  lemma CreatedAppointmentIsListed(st: DbState, b: AppointmentBody, ctx: Context)
    requires WellFormed(st)
    requires b.studentId.Some? && HasId(st.students.rows, b.studentId.value)
    ensures var st' := st.(appointments := Append(st.appointments, NewAppointment(b, ctx)));
            exists j :: j in ListAppointments(st') && j.row == Row(NextId(st.appointments), NewAppointment(b, ctx))
  {
    var st' := st.(appointments := Append(st.appointments, NewAppointment(b, ctx)));
    var rows := st'.appointments.rows;
    assert rows[|st.appointments.rows|] == Row(NextId(st.appointments), NewAppointment(b, ctx));
    assert Matched(rows[|st.appointments.rows|], AppointmentLinks(), st'.students.rows, st'.users.rows);
    var j := JoinOne(rows[|st.appointments.rows|], AppointmentLinks(), st'.students.rows, st'.users.rows);
    assert j.row in rows && JoinedFrom(j, AppointmentLinks(), st'.students.rows, st'.users.rows);
    assert j in ListAppointments(st');
  }

  /** `SET WhatsAppNotified = 1`. */
  function Notified(): Appointment -> Appointment
  {
    (a: Appointment) => a.(whatsAppNotified := Some(1))
  }

  /**
   * PUT /:id/whatsapp: marks the appointment as notified and logs it under its
   * own action name; an Id with no appointment is logged and acknowledged all the same.
   */
  method MarkNotified(db: Database, ctx: Context, id: int) returns (reply: Reply<Ack>)
    requires db.Valid()
    modifies db
    ensures db.Valid()
    ensures reply == Ok(Success)
    ensures db.State() == Logged(old(db.State()).(appointments := old(db.appointments).(rows := Modify(old(db.appointments.rows), id, Notified()))),
                                 Entry(ctx, "WHATSAPP_CLINIC_APPOINTMENT", "ClinicAppointments", Some(id)))
  {
    ModifyValid(db.appointments, id, Notified());
    ModifyAllRows(db.appointments.rows, id, Notified(), AppointmentStored);
    db.appointments := db.appointments.(rows := Modify(db.appointments.rows, id, Notified()));
    LogAudit(db, Some(ctx.user.id), "WHATSAPP_CLINIC_APPOINTMENT", "ClinicAppointments", Some(id), ctx.ip, ctx.now);
    reply := Ok(Success);
  }

  /** After the mark, the appointment reads back as notified and otherwise unchanged. */
  lemma NotifiedReadsBack(rows: seq<Row<Appointment>>, id: int)
    requires Ascending(rows) && HasId(rows, id)
    ensures Lookup(Modify(rows, id, Notified()), id) == Some(Lookup(rows, id).value.(whatsAppNotified := Some(1)))
  {
    ModifyFind(rows, id, Notified());
  }

  /** Marking twice is marking once. */
  lemma NotifyTwice(rows: seq<Row<Appointment>>, id: int)
    ensures Modify(Modify(rows, id, Notified()), id, Notified()) == Modify(rows, id, Notified())
  {
    ModifyTwice(rows, id, Notified());
  }

  /**
   * DELETE /:id: removes the appointment with that Id, if any, and logs the
   * deletion either way. No other table refers to appointments, so the
   * DELETE cannot fail.
   */
  method DeleteAppointment(db: Database, ctx: Context, id: int) returns (reply: Reply<Ack>)
    requires db.Valid()
    modifies db
    ensures db.Valid()
    ensures reply == Ok(Success)
    ensures db.State() == Logged(old(db.State()).(appointments := old(db.appointments).(rows := Remove(old(db.appointments.rows), id))),
                                 Entry(ctx, "DELETE_CLINIC_APPOINTMENT", "ClinicAppointments", Some(id)))
  {
    db.appointments := db.appointments.(rows := Remove(db.appointments.rows, id));
    LogAudit(db, Some(ctx.user.id), "DELETE_CLINIC_APPOINTMENT", "ClinicAppointments", Some(id), ctx.ip, ctx.now);
    reply := Ok(Success);
  }

  /** A deleted appointment is gone from the listing; every other appointment reads as before. */
  lemma DeletedIsGone(st: DbState, id: int, other: int)
    requires WellFormed(st)
    ensures var st' := st.(appointments := st.appointments.(rows := Remove(st.appointments.rows, id)));
            && Lookup(st'.appointments.rows, id) == None
            && (other != id ==> Lookup(st'.appointments.rows, other) == Lookup(st.appointments.rows, other))
            && forall j :: j in ListAppointments(st') ==> j.row.id != id
  {
    RemoveFind(st.appointments.rows, id, other);
  }
}
