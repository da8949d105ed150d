/**
 * The database handle of server/db.ts: one object owning every table, the
 * bootstrap that seeds it (`initDb`) and the audit append (`logAudit`).
 */
module Store {
  import opened Wrappers
  import opened Tables
  import opened Schema

  class Database {
    var users: Table<User>
    var students: Table<Student>
    var visits: Table<Visit>
    var followUps: Table<FollowUp>
    var referrals: Table<Referral>
    var appointments: Table<Appointment>
    var settings: Table<SchoolSettings>
    var audit: Table<AuditEntry>
    /** Whether the SQLite build enforces the declared FOREIGN KEY constraints. */
    const foreignKeys: bool

    /** A fresh database file: every table created and empty. */
    constructor (foreignKeys: bool)
      ensures Valid() && this.foreignKeys == foreignKeys
      ensures State() == Empty()
    {
      users, students, visits := Table([], 0), Table([], 0), Table([], 0);
      followUps, referrals, appointments := Table([], 0), Table([], 0), Table([], 0);
      settings, audit := Table([], 0), Table([], 0);
      this.foreignKeys := foreignKeys;
    }

    function State(): DbState
      reads this
    {
      DbState(users, students, visits, followUps, referrals, appointments, settings, audit)
    }

    predicate Valid()
      reads this
    {
      WellFormed(State())
    }
  }

  function Empty(): DbState
  {
    DbState(Table([], 0), Table([], 0), Table([], 0), Table([], 0), Table([], 0), Table([], 0),
            Table([], 0), Table([], 0))
  }

  // ---- logAudit ----

  function Entry(ctx: Context, action: string, table: string, recordId: Option<int>): AuditEntry
  {
    AuditEntry(Some(ctx.user.id), action, table, recordId, ctx.now, ctx.ip)
  }

  /** The database with one more audit entry; every other table as it was. */
  function Logged(st: DbState, e: AuditEntry): (r: DbState)
    requires WellFormed(st)
    ensures WellFormed(r)
    ensures r.audit.rows == st.audit.rows + [Row(NextId(st.audit), e)]
    ensures r.(audit := st.audit) == st
  {
    st.(audit := Append(st.audit, e))
  }

  /** Replacing the Users table by one that keeps its constraints keeps the database well formed. */
  lemma WithUsers(st: DbState, users: Table<User>)
    requires WellFormed(st) && Valid(users) && UniqueUsernames(users.rows)
    ensures WellFormed(st.(users := users))
  {
  }

  /** `logAudit`: appends exactly one entry and leaves the earlier ones untouched. */
  method LogAudit(db: Database, userId: Option<int>, actionType: string, tableName: string,
                  recordId: Option<int>, ipAddress: string, now: string)
    requires db.Valid()
    modifies db
    ensures db.Valid()
    ensures db.State() == Logged(old(db.State()), AuditEntry(userId, actionType, tableName, recordId, now, ipAddress))
  {
    db.audit := Append(db.audit, AuditEntry(userId, actionType, tableName, recordId, now, ipAddress));
  }

  /** The end of a transaction: the database holds the state its statements built. */
  method Commit(db: Database, st: DbState)
    requires WellFormed(st)
    modifies db
    ensures db.Valid() && db.State() == st
  {
    db.users, db.students, db.visits, db.followUps := st.users, st.students, st.visits, st.followUps;
    db.referrals, db.appointments, db.settings, db.audit := st.referrals, st.appointments, st.settings, st.audit;
  }

  /** `UPDATE Users SET ... WHERE Id = ?` with a change that keeps the username: the UNIQUE index cannot object. */
  method UpdateUser(db: Database, id: int, f: User -> User)
    requires db.Valid()
    requires forall u :: f(u).username == u.username
    modifies db
    ensures db.Valid()
    ensures db.State() == old(db.State()).(users := old(db.users).(rows := Modify(old(db.users.rows), id, f)))
  {
    var users := db.users.(rows := Modify(db.users.rows, id, f));
    ModifyValid(db.users, id, f);
    assert UniqueUsernames(users.rows) by {
      forall i, j | 0 <= i < j < |users.rows|
        ensures users.rows[i].val.username != users.rows[j].val.username
      {
        assert users.rows[i].val.username == db.users.rows[i].val.username;
        assert users.rows[j].val.username == db.users.rows[j].val.username;
      }
    }
    WithUsers(db.State(), users);
    db.users := users;
  }

  // ---- initDb ----

  const AdminUsername := "admin"

  function DefaultSettings(): SchoolSettings
  {
    SchoolSettings(Some(""), Some(""), None)
  }

  /**
   * The seeding `initDb` performs after creating the tables: the user `admin`
   * with role Admin unless some user already has that name, and the Settings
   * row with Id 1 and empty names unless it exists. Nothing else changes.
   */
  function Bootstrap(st: DbState, adminHash: string): (r: DbState)
    requires WellFormed(st)
    ensures WellFormed(r)
    ensures HasUsername(r.users.rows, AdminUsername) && HasId(r.settings.rows, 1)
    ensures r == st.(users := r.users, settings := r.settings)
    ensures HasUsername(st.users.rows, AdminUsername) ==> r.users == st.users
    ensures !HasUsername(st.users.rows, AdminUsername) ==>
              r.users.rows == st.users.rows + [Row(NextId(st.users), User(AdminUsername, adminHash, Admin, 1, 0, None))]
    ensures HasId(st.settings.rows, 1) ==> r.settings == st.settings
    ensures !HasId(st.settings.rows, 1) ==> r.settings.rows == [Row(1, DefaultSettings())]
  {
    var users' :=
      if HasUsername(st.users.rows, AdminUsername) then st.users
      else Append(st.users, User(AdminUsername, adminHash, Admin, 1, 0, None));
    assert HasUsername(users'.rows, AdminUsername) by {
      if !HasUsername(st.users.rows, AdminUsername) {
        assert users'.rows[|st.users.rows|].val.username == AdminUsername;
      }
    }
    assert st.settings.rows == [] || HasId(st.settings.rows, 1) by {
      if st.settings.rows != [] {
        assert st.settings.rows[0].id == 1;
      }
    }
    var settings' :=
      if HasId(st.settings.rows, 1) then st.settings
      else
        Put(st.settings, 1, DefaultSettings(), "Settings.Id").value;
    assert HasId(settings'.rows, 1) by {
      if !HasId(st.settings.rows, 1) {
        assert settings'.rows[0].id == 1;
      }
    }
    st.(users := users', settings := settings')
  }

  /** Seeding twice is seeding once: the second run adds no row and changes no data. */
  lemma BootstrapIdempotent(st: DbState, hash1: string, hash2: string)
    requires WellFormed(st)
    ensures Bootstrap(Bootstrap(st, hash1), hash2) == Bootstrap(st, hash1)
  {
  }

  /**
   * `initDb` on an open database: the tables already exist (CREATE TABLE IF NOT
   * EXISTS does nothing), the seeds are inserted where absent, and the ALTER TABLE
   * migrations, whose errors are swallowed, leave every row as it was.
   * `adminHash` is the bcrypt hash of the default password, computed outside.
   */
  method InitDb(db: Database, adminHash: string)
    requires db.Valid()
    modifies db
    ensures db.Valid()
    ensures db.State() == Bootstrap(old(db.State()), adminHash)
  {
    if !HasUsername(db.users.rows, AdminUsername) {
      db.users := Append(db.users, User(AdminUsername, adminHash, Admin, 1, 0, None));
    }
    if !HasId(db.settings.rows, 1) {
      var r := Put(db.settings, 1, DefaultSettings(), "Settings.Id");
      db.settings := r.value;
    }
  }
}
