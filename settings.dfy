/**
 * The settings routes of server/routes/settings.ts: reading and updating the
 * single Settings row, the JSON backup of five tables, the restore that
 * replaces those tables from such a backup in one transaction, and the
 * new-year reset that empties the four student tables.
 */
module SettingsRoutes {
  import opened Wrappers
  import opened Tables
  import opened Schema
  import opened Store
  import opened Gate
  import opened StudentRoutes

  const RestoreFailed := "فشل استعادة النسخة الاحتياطية. تأكد من صحة الملف."
  const ResetFailed := "فشل حذف البيانات"

  // ---- GET / and PUT / ----

  /** GET /: the row with Id 1, which is the only row the table can hold. */
  method GetSettings(db: Database) returns (r: Option<SchoolSettings>)
    requires db.Valid()
    ensures r == Lookup(db.settings.rows, 1)
    ensures r.None? <==> db.settings.rows == []
    ensures db.settings.rows != [] ==> r == Some(db.settings.rows[0].val)
  {
    r := Lookup(db.settings.rows, 1);
    if db.settings.rows != [] {
      assert db.settings.rows[0].id == 1;
    }
  }

  /** The JSON body of PUT /. */
  datatype SettingsBody = SettingsBody(schoolName: Text, supervisorName: Text, logoPath: Text)

  function NewSettings(b: SettingsBody): SchoolSettings
  {
    SchoolSettings(b.schoolName, b.supervisorName, b.logoPath)
  }

  /** The Settings table after `UPDATE Settings SET ... WHERE Id = 1`. */
  function UpdatedSettings(t: Table<SchoolSettings>, b: SettingsBody): (r: Table<SchoolSettings>)
    requires Valid(t) && SettingsSingleton(t.rows)
    ensures Valid(r) && SettingsSingleton(r.rows) && r.seqNo == t.seqNo
    ensures t.rows == [] ==> r == t
    ensures t.rows != [] ==> r.rows == [Row(1, NewSettings(b))]
  {
    var f := (_: SchoolSettings) => NewSettings(b);
    ModifyValid(t, 1, f);
    if t.rows == [] then t
    else
      SettingsAtMostOne(t.rows);
      assert t.rows[0].id == 1;
      t.(rows := Modify(t.rows, 1, f))
  }

  /**
   * PUT / (Admin only): overwrites the three columns of row 1 and logs
   * UPDATE_SETTINGS for record 1, also when the row is missing and nothing
   * was updated.
   */
  method UpdateSettings(db: Database, ctx: Context, b: SettingsBody) returns (reply: Reply<Ack>)
    requires db.Valid()
    modifies db
    ensures db.Valid()
    ensures !Admits([Admin], Some(ctx.user)) ==> reply == Forbidden() && db.State() == old(db.State())
    ensures Admits([Admin], Some(ctx.user)) ==>
              reply == Ok(Success)
              && db.State() == Logged(old(db.State()).(settings := UpdatedSettings(old(db.settings), b)),
                                      Entry(ctx, "UPDATE_SETTINGS", "Settings", Some(1)))
  {
    if !Admits([Admin], Some(ctx.user)) {
      return Forbidden();
    }
    db.settings := UpdatedSettings(db.settings, b);
    LogAudit(db, Some(ctx.user.id), "UPDATE_SETTINGS", "Settings", Some(1), ctx.ip, ctx.now);
    reply := Ok(Success);
  }

  /** What GET / answers after PUT /: the body's values when the row existed, still nothing when it did not. */
  lemma UpdateThenGet(t: Table<SchoolSettings>, b: SettingsBody)
    requires Valid(t) && SettingsSingleton(t.rows)
    ensures HasId(t.rows, 1) ==> Lookup(UpdatedSettings(t, b).rows, 1) == Some(NewSettings(b))
    ensures !HasId(t.rows, 1) ==> Lookup(UpdatedSettings(t, b).rows, 1).None?
  {
    if t.rows != [] {
      assert t.rows[0].id == 1;
    }
  }

  // ---- GET /backup ----

  /** The backup document: the rows of five tables, every column and the Id included. */
  datatype Backup = Backup(
    settings: seq<Keyed<SchoolSettings>>,
    students: seq<Keyed<Student>>,
    visits: seq<Keyed<Visit>>,
    specialCases: seq<Keyed<FollowUp>>,
    referrals: seq<Keyed<Referral>>)

  /** `SELECT * FROM` each of the five tables. */
  function Snapshot(st: DbState): Backup
  {
    Backup(Keys(st.settings.rows), Keys(st.students.rows), Keys(st.visits.rows),
           Keys(st.followUps.rows), Keys(st.referrals.rows))
  }

  /**
   * GET /backup (Admin only): answers with the snapshot and logs BACKUP_DATA
   * on table "All" with no record; no table other than the audit log changes.
   */
  method BackupData(db: Database, ctx: Context) returns (reply: Reply<Backup>)
    requires db.Valid()
    modifies db
    ensures db.Valid()
    ensures !Admits([Admin], Some(ctx.user)) ==> reply == Forbidden() && db.State() == old(db.State())
    ensures Admits([Admin], Some(ctx.user)) ==>
              reply == Ok(Snapshot(old(db.State())))
              && db.State() == Logged(old(db.State()), Entry(ctx, "BACKUP_DATA", "All", None))
  {
    if !Admits([Admin], Some(ctx.user)) {
      return Forbidden();
    }
    var data := Snapshot(db.State());
    LogAudit(db, Some(ctx.user.id), "BACKUP_DATA", "All", None, ctx.ip, ctx.now);
    reply := Ok(data);
  }

  // ---- POST /restore ----

  /** The Settings row restore writes: the first backed-up row's three columns, else empty names and no logo. */
  function FirstSettings(xs: seq<Keyed<SchoolSettings>>): (s: SchoolSettings)
    ensures xs == [] ==> s == DefaultSettings()
    ensures xs != [] ==> s == xs[0].val
  {
    if xs == [] then DefaultSettings() else xs[0].val
  }

  /** A referral as the restore INSERT writes it: Age, Gender, History and ReferralTime are not among its columns. */
  function Restored(r: Referral): Referral
  {
    r.(age := None, gender := None, history := None, referralTime := None)
  }

  function RestoredAll(xs: seq<Keyed<Referral>>): (r: seq<Keyed<Referral>>)
    ensures |r| == |xs|
    ensures forall i :: 0 <= i < |xs| ==> r[i] == Keyed(xs[i].id, Restored(xs[i].val))
  {
    seq(|xs|, i requires 0 <= i < |xs| => Keyed(xs[i].id, Restored(xs[i].val)))
  }

  function RestoredRows(rows: seq<Row<Referral>>): (r: seq<Row<Referral>>)
    ensures |r| == |rows|
    ensures forall i :: 0 <= i < |rows| ==> r[i] == Row(rows[i].id, Restored(rows[i].val))
  {
    seq(|rows|, i requires 0 <= i < |rows| => Row(rows[i].id, Restored(rows[i].val)))
  }

  function VisitCheck(fk: bool, students: seq<Row<Student>>, users: seq<Row<User>>): Visit -> Option<SqlError>
  {
    (v: Visit) => ChildCheck("DailyVisits", v.studentId, v.createdBy, fk, students, users)
  }

  function FollowUpCheck(fk: bool, students: seq<Row<Student>>, users: seq<Row<User>>): FollowUp -> Option<SqlError>
  {
    (f: FollowUp) => ChildCheck("SpecialFollowUps", f.studentId, f.createdBy, fk, students, users)
  }

  function ReferralCheck(fk: bool, students: seq<Row<Student>>, users: seq<Row<User>>): Referral -> Option<SqlError>
  {
    (r: Referral) => ChildCheck("Referrals", r.studentId, r.createdBy, fk, students, users)
  }

  /** Replacing the five restored tables by ones that keep their constraints keeps the database well formed. */
  lemma WithRestored(st: DbState, settings: Table<SchoolSettings>, students: Table<Student>, visits: Table<Visit>,
                     followUps: Table<FollowUp>, referrals: Table<Referral>)
    requires WellFormed(st)
    requires Valid(settings) && SettingsSingleton(settings.rows)
    requires Valid(students) && AllRows(students.rows, StudentStored)
    requires Valid(visits) && AllRows(visits.rows, VisitStored)
    requires Valid(followUps) && AllRows(followUps.rows, FollowUpStored)
    requires Valid(referrals) && AllRows(referrals.rows, ReferralStored)
    ensures WellFormed(st.(settings := settings, students := students, visits := visits,
                           followUps := followUps, referrals := referrals))
  {
  }

  /** The Settings table restore leaves: emptied, then row 1 inserted. */
  function RestoredSettings(t: Table<SchoolSettings>, xs: seq<Keyed<SchoolSettings>>): (r: Table<SchoolSettings>)
    requires Valid(t)
    ensures Valid(r) && r.rows == [Row(1, FirstSettings(xs))] && SettingsSingleton(r.rows)
  {
    Put(Clear(t), 1, FirstSettings(xs), "Settings.Id").value
  }

  /**
   * The restore transaction: empty DailyVisits, SpecialFollowUps, Referrals,
   * Students and Settings (the Students delete breaks a foreign key while a
   * clinic appointment names one of them), write the Settings row, then insert
   * the backed-up students, visits, follow-ups and referrals in that order.
   * `None` is the rollback: some statement failed and nothing is kept.
   */
  function RestoreRun(st: DbState, data: Backup, fk: bool): (r: Option<DbState>)
    requires WellFormed(st)
    ensures r.Some? ==> WellFormed(r.value)
    ensures r.Some? ==> r.value == st.(settings := r.value.settings, students := r.value.students,
                                       visits := r.value.visits, followUps := r.value.followUps,
                                       referrals := r.value.referrals)
    ensures r.Some? ==> r.value.settings.rows == [Row(1, FirstSettings(data.settings))]
    ensures fk && AppointmentsReferTo(st.appointments.rows, st.students.rows) ==> r.None?
  {
    if fk && AppointmentsReferTo(st.appointments.rows, st.students.rows) then None
    else
      var settings := RestoredSettings(st.settings, data.settings);
      match LoadAll(Clear(st.students), data.students, StudentCheck, "Students.Id")
      case Failed(_) => None
      case Done(students) =>
        match LoadAll(Clear(st.visits), data.visits, VisitCheck(fk, students.rows, st.users.rows), "DailyVisits.Id")
        case Failed(_) => None
        case Done(visits) =>
          match LoadAll(Clear(st.followUps), data.specialCases, FollowUpCheck(fk, students.rows, st.users.rows),
                        "SpecialFollowUps.Id")
          case Failed(_) => None
          case Done(followUps) =>
            match LoadAll(Clear(st.referrals), RestoredAll(data.referrals),
                          ReferralCheck(fk, students.rows, st.users.rows), "Referrals.Id")
            case Failed(_) => None
            case Done(referrals) =>
              WithRestored(st, settings, students, visits, followUps, referrals);
              Some(st.(settings := settings, students := students, visits := visits,
                       followUps := followUps, referrals := referrals))
  }

  /**
   * A committed restore holds one row per backed-up student, visit,
   * follow-up and referral, each backed-up Id with the values it was backed
   * up with (referrals in their restored form).
   */
  lemma RestoreLoadsDocument(st: DbState, data: Backup, fk: bool)
    requires WellFormed(st) && RestoreRun(st, data, fk).Some?
    ensures var r := RestoreRun(st, data, fk).value;
            && LoadedFrom(r.students.rows, data.students)
            && LoadedFrom(r.visits.rows, data.visits)
            && LoadedFrom(r.followUps.rows, data.specialCases)
            && LoadedFrom(r.referrals.rows, RestoredAll(data.referrals))
  {
    var students := LoadAll(Clear(st.students), data.students, StudentCheck, "Students.Id").value;
    var users := st.users.rows;
    LoadedIntoEmpty(Clear(st.students), data.students, StudentCheck, "Students.Id");
    LoadedIntoEmpty(Clear(st.visits), data.visits, VisitCheck(fk, students.rows, users), "DailyVisits.Id");
    LoadedIntoEmpty(Clear(st.followUps), data.specialCases, FollowUpCheck(fk, students.rows, users), "SpecialFollowUps.Id");
    LoadedIntoEmpty(Clear(st.referrals), RestoredAll(data.referrals), ReferralCheck(fk, students.rows, users),
                    "Referrals.Id");
  }

  /**
   * POST /restore (Admin only): runs the transaction; on success logs
   * RESTORE_DATA on "All" and answers `{ success: true }`, on any failure
   * answers 500 and the database is exactly as before.
   */
  method Restore(db: Database, ctx: Context, data: Backup) returns (reply: Reply<Ack>)
    requires db.Valid()
    modifies db
    ensures db.Valid()
    ensures !Admits([Admin], Some(ctx.user)) ==> reply == Forbidden() && db.State() == old(db.State())
    ensures Admits([Admin], Some(ctx.user)) ==>
              match RestoreRun(old(db.State()), data, db.foreignKeys)
              case None => reply == Error(500, RestoreFailed) && db.State() == old(db.State())
              case Some(st) => reply == Ok(Success) && db.State() == Logged(st, Entry(ctx, "RESTORE_DATA", "All", None))
  {
    if !Admits([Admin], Some(ctx.user)) {
      return Forbidden();
    }
    var r := RestoreTransaction(db.State(), data, db.foreignKeys);
    if r.None? {
      return Error(500, RestoreFailed);
    }
    Commit(db, r.value);
    LogAudit(db, Some(ctx.user.id), "RESTORE_DATA", "All", None, ctx.ip, ctx.now);
    reply := Ok(Success);
  }

  /** The statements of the restore transaction, run on the database as it stood. */
  method RestoreTransaction(st: DbState, data: Backup, fk: bool) returns (r: Option<DbState>)
    requires WellFormed(st)
    ensures r == RestoreRun(st, data, fk)
  {
    if fk && AppointmentsReferTo(st.appointments.rows, st.students.rows) {
      return None;
    }
    var settings := RestoredSettings(st.settings, data.settings);
    var students := LoadEach(Clear(st.students), data.students, StudentCheck, "Students.Id");
    if students.Failed? {
      return None;
    }
    var visits := LoadEach(Clear(st.visits), data.visits, VisitCheck(fk, students.value.rows, st.users.rows),
                           "DailyVisits.Id");
    if visits.Failed? {
      return None;
    }
    var followUps := LoadEach(Clear(st.followUps), data.specialCases,
                              FollowUpCheck(fk, students.value.rows, st.users.rows), "SpecialFollowUps.Id");
    if followUps.Failed? {
      return None;
    }
    var referrals := LoadEach(Clear(st.referrals), RestoredAll(data.referrals),
                              ReferralCheck(fk, students.value.rows, st.users.rows), "Referrals.Id");
    if referrals.Failed? {
      return None;
    }
    r := Some(st.(settings := settings, students := students.value, visits := visits.value,
                  followUps := followUps.value, referrals := referrals.value));
  }

  /** Every child row names an existing student and an existing user. */
  predicate Linked(st: DbState, studentId: Option<int>, createdBy: Option<int>)
  {
    studentId.Some? && createdBy.Some? && HasId(st.students.rows, studentId.value) && HasId(st.users.rows, createdBy.value)
  }

  predicate ReferencesHold(st: DbState)
  {
    && (forall i :: 0 <= i < |st.visits.rows| ==>
          Linked(st, st.visits.rows[i].val.studentId, st.visits.rows[i].val.createdBy))
    && (forall i :: 0 <= i < |st.followUps.rows| ==>
          Linked(st, st.followUps.rows[i].val.studentId, st.followUps.rows[i].val.createdBy))
    && (forall i :: 0 <= i < |st.referrals.rows| ==>
          Linked(st, st.referrals.rows[i].val.studentId, st.referrals.rows[i].val.createdBy))
  }

  /**
   * Restoring a backup of the database itself gives back every backed-up row,
   * Ids included, except the four referral columns restore does not write;
   * with foreign keys enforced this needs no clinic appointment to name a
   * student and every child row to name an existing student and user.
   */
  lemma BackupThenRestore(st: DbState, fk: bool)
    requires WellFormed(st)
    requires fk ==> !AppointmentsReferTo(st.appointments.rows, st.students.rows) && ReferencesHold(st)
    ensures RestoreRun(st, Snapshot(st), fk).Some?
    ensures var r := RestoreRun(st, Snapshot(st), fk).value;
            && r.students.rows == st.students.rows
            && r.visits.rows == st.visits.rows
            && r.followUps.rows == st.followUps.rows
            && r.referrals.rows == RestoredRows(st.referrals.rows)
            && r.settings.rows == (if st.settings.rows == [] then [Row(1, DefaultSettings())] else st.settings.rows)
  {
    StudentsLoadBack(st);
    var students := st.students.rows;
    VisitsLoadBack(st, fk, students);
    FollowUpsLoadBack(st, fk, students);
    ReferralsLoadBack(st, fk, students);
    if st.settings.rows != [] {
      SettingsAtMostOne(st.settings.rows);
      assert st.settings.rows == [Row(1, st.settings.rows[0].val)];
    }
  }

  lemma StudentsLoadBack(st: DbState)
    requires WellFormed(st)
    ensures var r := LoadAll(Clear(st.students), Keys(st.students.rows), StudentCheck, "Students.Id");
            r.Done? && r.value.rows == st.students.rows
  {
    var s := st.students.rows;
    forall i | 0 <= i < |s| ensures StudentCheck(s[i].val).None? {
      assert StudentStored(s[i].val);
    }
    LoadKeys(Clear(st.students), s, StudentCheck, "Students.Id");
  }

  lemma VisitsLoadBack(st: DbState, fk: bool, students: seq<Row<Student>>)
    requires WellFormed(st) && students == st.students.rows && (fk ==> ReferencesHold(st))
    ensures var r := LoadAll(Clear(st.visits), Keys(st.visits.rows), VisitCheck(fk, students, st.users.rows),
                             "DailyVisits.Id");
            r.Done? && r.value.rows == st.visits.rows
  {
    var check := VisitCheck(fk, students, st.users.rows);
    forall i | 0 <= i < |st.visits.rows| ensures check(st.visits.rows[i].val).None? {
      assert VisitStored(st.visits.rows[i].val);
    }
    LoadKeys(Clear(st.visits), st.visits.rows, check, "DailyVisits.Id");
  }

  lemma FollowUpsLoadBack(st: DbState, fk: bool, students: seq<Row<Student>>)
    requires WellFormed(st) && students == st.students.rows && (fk ==> ReferencesHold(st))
    ensures var r := LoadAll(Clear(st.followUps), Keys(st.followUps.rows), FollowUpCheck(fk, students, st.users.rows),
                             "SpecialFollowUps.Id");
            r.Done? && r.value.rows == st.followUps.rows
  {
    var check := FollowUpCheck(fk, students, st.users.rows);
    forall i | 0 <= i < |st.followUps.rows| ensures check(st.followUps.rows[i].val).None? {
      assert FollowUpStored(st.followUps.rows[i].val);
    }
    LoadKeys(Clear(st.followUps), st.followUps.rows, check, "SpecialFollowUps.Id");
  }

  lemma ReferralsLoadBack(st: DbState, fk: bool, students: seq<Row<Student>>)
    requires WellFormed(st) && students == st.students.rows && (fk ==> ReferencesHold(st))
    ensures var r := LoadAll(Clear(st.referrals), RestoredAll(Keys(st.referrals.rows)),
                             ReferralCheck(fk, students, st.users.rows), "Referrals.Id");
            r.Done? && r.value.rows == RestoredRows(st.referrals.rows)
  {
    var rows := RestoredRows(st.referrals.rows);
    var check := ReferralCheck(fk, students, st.users.rows);
    forall i | 0 <= i < |rows| ensures check(rows[i].val).None? {
      assert ReferralStored(st.referrals.rows[i].val);
    }
    assert Ascending(rows);
    assert RestoredAll(Keys(st.referrals.rows)) == Keys(rows);
    LoadKeys(Clear(st.referrals), rows, check, "Referrals.Id");
  }

  /**
   * A backup taken right after a successful restore holds as many rows of
   * each table as the restored document, and every restored entry that
   * carried an Id, under that Id (referrals without the four columns
   * restore does not write); the settings row is row 1.
   */
  lemma RestoreThenBackup(st: DbState, data: Backup, fk: bool)
    requires WellFormed(st) && RestoreRun(st, data, fk).Some?
    ensures var b := Snapshot(RestoreRun(st, data, fk).value);
            && b.settings == [Keyed(Some(1), FirstSettings(data.settings))]
            && |b.students| == |data.students| && |b.visits| == |data.visits|
            && |b.specialCases| == |data.specialCases| && |b.referrals| == |data.referrals|
    ensures var b := Snapshot(RestoreRun(st, data, fk).value);
            forall k :: 0 <= k < |data.students| && data.students[k].id.Some? ==> data.students[k] in b.students
    ensures var b := Snapshot(RestoreRun(st, data, fk).value);
            forall k :: 0 <= k < |data.visits| && data.visits[k].id.Some? ==> data.visits[k] in b.visits
    ensures var b := Snapshot(RestoreRun(st, data, fk).value);
            forall k :: 0 <= k < |data.specialCases| && data.specialCases[k].id.Some? ==>
              data.specialCases[k] in b.specialCases
    ensures var b := Snapshot(RestoreRun(st, data, fk).value);
            forall k :: 0 <= k < |data.referrals| && data.referrals[k].id.Some? ==>
              Keyed(data.referrals[k].id, Restored(data.referrals[k].val)) in b.referrals
  {
    RestoreLoadsDocument(st, data, fk);
    var r := RestoreRun(st, data, fk).value;
    forall k | 0 <= k < |data.students| && data.students[k].id.Some?
      ensures data.students[k] in Keys(r.students.rows)
    {
      KeysHold(r.students.rows, Row(data.students[k].id.value, data.students[k].val));
    }
    forall k | 0 <= k < |data.visits| && data.visits[k].id.Some?
      ensures data.visits[k] in Keys(r.visits.rows)
    {
      KeysHold(r.visits.rows, Row(data.visits[k].id.value, data.visits[k].val));
    }
    forall k | 0 <= k < |data.specialCases| && data.specialCases[k].id.Some?
      ensures data.specialCases[k] in Keys(r.followUps.rows)
    {
      KeysHold(r.followUps.rows, Row(data.specialCases[k].id.value, data.specialCases[k].val));
    }
    forall k | 0 <= k < |data.referrals| && data.referrals[k].id.Some?
      ensures Keyed(data.referrals[k].id, Restored(data.referrals[k].val)) in Keys(r.referrals.rows)
    {
      KeysHold(r.referrals.rows, Row(data.referrals[k].id.value, Restored(data.referrals[k].val)));
    }
  }

  /** With foreign keys enforced, a single clinic appointment naming a student makes every restore fail. */
  lemma RestoreBlockedByAppointments(st: DbState, data: Backup)
    requires WellFormed(st) && AppointmentsReferTo(st.appointments.rows, st.students.rows)
    ensures RestoreRun(st, data, true).None?
  {
  }

  // ---- DELETE /reset-year ----

  /**
   * The reset transaction: empty DailyVisits, SpecialFollowUps, Referrals and
   * Students; Users, Settings, ClinicAppointments and the audit log stay. The
   * Students delete fails while a clinic appointment names a student.
   */
  function ResetRun(st: DbState, fk: bool): (r: Option<DbState>)
    requires WellFormed(st)
    ensures r.None? <==> fk && AppointmentsReferTo(st.appointments.rows, st.students.rows)
    ensures r.Some? ==> WellFormed(r.value)
    ensures r.Some? ==> r.value.students.rows == [] && r.value.visits.rows == []
                        && r.value.followUps.rows == [] && r.value.referrals.rows == []
    ensures r.Some? ==> r.value.users == st.users && r.value.settings == st.settings
                        && r.value.appointments == st.appointments && r.value.audit == st.audit
    ensures r.Some? ==> r.value.students.seqNo == st.students.seqNo && r.value.visits.seqNo == st.visits.seqNo
                        && r.value.followUps.seqNo == st.followUps.seqNo && r.value.referrals.seqNo == st.referrals.seqNo
  {
    if fk && AppointmentsReferTo(st.appointments.rows, st.students.rows) then None
    else Some(st.(visits := Clear(st.visits), followUps := Clear(st.followUps),
                  referrals := Clear(st.referrals), students := Clear(st.students)))
  }

  /**
   * DELETE /reset-year (Admin only): runs the transaction; on success logs
   * RESET_NEW_YEAR on "All", on failure answers 500 with nothing changed.
   */
  method ResetYear(db: Database, ctx: Context) returns (reply: Reply<Ack>)
    requires db.Valid()
    modifies db
    ensures db.Valid()
    ensures !Admits([Admin], Some(ctx.user)) ==> reply == Forbidden() && db.State() == old(db.State())
    ensures Admits([Admin], Some(ctx.user)) ==>
              match ResetRun(old(db.State()), db.foreignKeys)
              case None => reply == Error(500, ResetFailed) && db.State() == old(db.State())
              case Some(st) => reply == Ok(Success) && db.State() == Logged(st, Entry(ctx, "RESET_NEW_YEAR", "All", None))
  {
    if !Admits([Admin], Some(ctx.user)) {
      return Forbidden();
    }
    if db.foreignKeys && AppointmentsReferTo(db.appointments.rows, db.students.rows) {
      return Error(500, ResetFailed);
    }
    db.visits := Clear(db.visits);
    db.followUps := Clear(db.followUps);
    db.referrals := Clear(db.referrals);
    db.students := Clear(db.students);
    LogAudit(db, Some(ctx.user.id), "RESET_NEW_YEAR", "All", None, ctx.ip, ctx.now);
    reply := Ok(Success);
  }

  /** Resetting an already reset year changes nothing more. */
  lemma ResetIdempotent(st: DbState, fk: bool)
    requires WellFormed(st) && ResetRun(st, fk).Some?
    ensures ResetRun(ResetRun(st, fk).value, fk) == ResetRun(st, fk)
  {
  }

  /**
   * The reset keeps the AUTOINCREMENT marks, so a student added afterwards
   * never receives the Id of a student deleted by it (audit entries keep
   * naming the old Ids unambiguously).
   */
  lemma ResetNeverReusesIds(st: DbState, fk: bool, i: int)
    requires WellFormed(st) && ResetRun(st, fk).Some? && 0 <= i < |st.students.rows|
    ensures NextId(ResetRun(st, fk).value.students) > st.students.rows[i].id
  {
  }
}
