/**
 * The account administration routes of server/routes/users.ts, all behind
 * `requireRole(['Admin'])`: the list without password hashes, account
 * creation, role and active-flag changes, and the password reset that also
 * clears the failed-attempt counter. bcrypt's hashing is the `hash` parameter.
 */
module UserRoutes {
  import opened Wrappers
  import opened Tables
  import opened Schema
  import opened Store
  import opened Gate
  import opened Login

  // ---- GET / ----

  /** A user as the list shows it: every column except PasswordHash. */
  datatype UserView = UserView(id: int, username: string, role: string, isActive: int, failedAttempts: int, lastLogin: Text)

  function View(r: Row<User>): UserView
  {
    UserView(r.id, r.val.username, r.val.role, r.val.isActive, r.val.failedAttempts, r.val.lastLogin)
  }

  function PublicUsers(rows: seq<Row<User>>): (r: seq<UserView>)
    ensures |r| == |rows|
    ensures forall i :: 0 <= i < |rows| ==> r[i] == View(rows[i])
  {
    seq(|rows|, i requires 0 <= i < |rows| => View(rows[i]))
  }

  /** GET /: one entry per user, in Id order. */
  method ListUsers(db: Database, ctx: Context) returns (reply: Reply<seq<UserView>>)
    requires db.Valid()
    ensures !Admits([Admin], Some(ctx.user)) ==> reply == Forbidden()
    ensures Admits([Admin], Some(ctx.user)) ==> reply == Ok(PublicUsers(db.users.rows))
  {
    if !Admits([Admin], Some(ctx.user)) {
      return Forbidden();
    }
    reply := Ok(PublicUsers(db.users.rows));
  }

  /** The list discloses nothing of the password hashes: tables that differ only in hashes list the same. */
  lemma ListHidesHashes(a: seq<Row<User>>, b: seq<Row<User>>)
    requires |a| == |b|
    requires forall i :: 0 <= i < |a| ==> a[i].id == b[i].id && a[i].val == b[i].val.(passwordHash := a[i].val.passwordHash)
    ensures PublicUsers(a) == PublicUsers(b)
  {
    assert forall i :: 0 <= i < |a| ==> View(a[i]) == View(b[i]);
  }

  // ---- POST / ----

  datatype NewUserBody = NewUserBody(username: Text, password: Text, role: Text)

  /** `{ id, username, role }`. */
  datatype CreatedUser = CreatedUser(id: int, username: string, role: string)

  /** The failure the INSERT raises, if any: NOT NULL on Username, then on Role, then the UNIQUE index. */
  function CreateCheck(rows: seq<Row<User>>, b: NewUserBody): (r: Option<SqlError>)
    ensures r.None? <==> b.username.Some? && b.role.Some? && !HasUsername(rows, b.username.value)
    ensures b.username.None? ==> r == Some(NotNull("Users.Username"))
    ensures b.username.Some? && b.role.None? ==> r == Some(NotNull("Users.Role"))
    ensures b.username.Some? && b.role.Some? && HasUsername(rows, b.username.value) ==> r == Some(Unique("Users.Username"))
  {
    if b.username.None? then Some(NotNull("Users.Username"))
    else if b.role.None? then Some(NotNull("Users.Role"))
    else if HasUsername(rows, b.username.value) then Some(Unique("Users.Username"))
    else None
  }

  /** The new account: active, no failed attempts, never logged in. */
  function NewAccount(b: NewUserBody, hash: string -> string): User
    requires b.username.Some? && b.password.Some? && b.role.Some?
  {
    User(b.username.value, hash(b.password.value), b.role.value, 1, 0, None)
  }

  /** Appending a user whose name is new keeps usernames unique. */
  lemma AppendKeepsUnique(t: Table<User>, u: User)
    requires Valid(t) && UniqueUsernames(t.rows) && !HasUsername(t.rows, u.username)
    ensures UniqueUsernames(Append(t, u).rows)
  {
    var rows := Append(t, u).rows;
    forall i, j | 0 <= i < j < |rows| ensures rows[i].val.username != rows[j].val.username {
      if j == |t.rows| {
        assert rows[i] == t.rows[i];
      } else {
        assert rows[i] == t.rows[i] && rows[j] == t.rows[j];
      }
    }
  }

  /**
   * POST /: hashes the password (a missing one makes bcrypt throw before
   * anything is written), inserts the account, logs CREATE_USER with its Id
   * and echoes Id, username and role; a constraint failure answers 400 with
   * SQLite's message and writes nothing.
   */
  method CreateUser(db: Database, ctx: Context, b: NewUserBody, hash: string -> string) returns (reply: Reply<CreatedUser>)
    requires db.Valid()
    modifies db
    ensures db.Valid()
    ensures !Admits([Admin], Some(ctx.user)) ==> reply == Forbidden() && db.State() == old(db.State())
    ensures Admits([Admin], Some(ctx.user)) && b.password.None? ==> reply == HashThrew && db.State() == old(db.State())
    ensures Admits([Admin], Some(ctx.user)) && b.password.Some? && CreateCheck(old(db.users.rows), b).Some? ==>
              reply == Error(400, Message(CreateCheck(old(db.users.rows), b).value)) && db.State() == old(db.State())
    ensures Admits([Admin], Some(ctx.user)) && b.password.Some? && CreateCheck(old(db.users.rows), b).None? ==>
              var id := NextId(old(db.users));
              && reply == Ok(CreatedUser(id, b.username.value, b.role.value))
              && db.State() == Logged(old(db.State()).(users := Append(old(db.users), NewAccount(b, hash))),
                                      Entry(ctx, "CREATE_USER", "Users", Some(id)))
  {
    if !Admits([Admin], Some(ctx.user)) {
      return Forbidden();
    }
    if b.password.None? {
      return HashThrew;
    }
    var err := CreateCheck(db.users.rows, b);
    if err.Some? {
      return Error(400, Message(err.value));
    }
    var id := NextId(db.users);
    AppendKeepsUnique(db.users, NewAccount(b, hash));
    WithUsers(db.State(), Append(db.users, NewAccount(b, hash)));
    db.users := Append(db.users, NewAccount(b, hash));
    LogAudit(db, Some(ctx.user.id), "CREATE_USER", "Users", Some(id), ctx.ip, ctx.now);
    reply := Ok(CreatedUser(id, b.username.value, b.role.value));
  }

  /** The lookup by name finds a row appended under a name no earlier row has. */
  lemma {:induction false} FindAppended(rows: seq<Row<User>>, r: Row<User>)
    requires !HasUsername(rows, r.val.username)
    ensures FindByUsername(rows + [r], r.val.username) == Some(r)
  {
    if rows == [] {
      assert rows + [r] == [r];
    } else {
      assert (rows + [r])[1..] == rows[1..] + [r];
      assert forall i :: 0 <= i < |rows[1..]| ==> rows[1..][i] == rows[i + 1];
      FindAppended(rows[1..], r);
    }
  }

  /** A freshly created account logs in with the password it was created with (when bcrypt's check accepts it). */
  lemma CreatedUserCanLogIn(t: Table<User>, b: NewUserBody, hash: string -> string,
                            matches: (string, string) -> bool, ip: string, now: string)
    requires Valid(t) && UniqueUsernames(t.rows)
    requires b.password.Some? && CreateCheck(t.rows, b).None?
    requires matches(b.password.value, hash(b.password.value))
    ensures var a := LoginStep(Append(t, NewAccount(b, hash)), b.username.value, b.password.value, matches, ip, now);
            a.reply.Ok? && a.reply.body.user == Claims(NextId(t), b.username.value, b.role.value)
  {
    FindAppended(t.rows, Row(NextId(t), NewAccount(b, hash)));
  }

  // ---- PUT /:id ----

  datatype AccountBody = AccountBody(role: Text, isActive: Json)

  /** The new Role and the 0/1-normalised IsActive. */
  function Reassigned(role: string, isActive: Json): User -> User
  {
    (u: User) => u.(role := role, isActive := Bit(isActive))
  }

  /**
   * PUT /:id: sets Role and IsActive on the row with that Id and logs
   * UPDATE_USER with the Id, whether or not the row exists. A missing role on
   * an existing row violates NOT NULL; that exception escapes the handler.
   */
  method EditUser(db: Database, ctx: Context, id: int, b: AccountBody) returns (reply: Reply<Ack>)
    requires db.Valid()
    modifies db
    ensures db.Valid()
    ensures !Admits([Admin], Some(ctx.user)) ==> reply == Forbidden() && db.State() == old(db.State())
    ensures Admits([Admin], Some(ctx.user)) && b.role.None? && HasId(old(db.users.rows), id) ==>
              reply == Thrown(NotNull("Users.Role")) && db.State() == old(db.State())
    ensures Admits([Admin], Some(ctx.user)) && b.role.None? && !HasId(old(db.users.rows), id) ==>
              reply == Ok(Success) && db.State() == Logged(old(db.State()), Entry(ctx, "UPDATE_USER", "Users", Some(id)))
    ensures Admits([Admin], Some(ctx.user)) && b.role.Some? ==>
              reply == Ok(Success)
              && db.State() == Logged(old(db.State()).(users := old(db.users).(rows := Modify(old(db.users.rows), id, Reassigned(b.role.value, b.isActive)))),
                                      Entry(ctx, "UPDATE_USER", "Users", Some(id)))
  {
    if !Admits([Admin], Some(ctx.user)) {
      return Forbidden();
    }
    if b.role.None? {
      if HasId(db.users.rows, id) {
        return Thrown(NotNull("Users.Role"));
      }
    } else {
      UpdateUser(db, id, Reassigned(b.role.value, b.isActive));
    }
    LogAudit(db, Some(ctx.user.id), "UPDATE_USER", "Users", Some(id), ctx.ip, ctx.now);
    reply := Ok(Success);
  }

  /** A deactivated account is refused as inactive, whatever the password, unless it is already locked. */
  lemma DeactivatedCannotLogIn(t: Table<User>, id: int, role: string, isActive: Json, name: string, password: string,
                               matches: (string, string) -> bool, ip: string, now: string)
    requires Valid(t) && UniqueUsernames(t.rows) && !Truthy(isActive)
    requires FindByUsername(t.rows, name).Some? && FindByUsername(t.rows, name).value.id == id
    requires FindByUsername(t.rows, name).value.val.failedAttempts < LockoutThreshold
    ensures var t' := t.(rows := Modify(t.rows, id, Reassigned(role, isActive)));
            LoginStep(t', name, password, matches, ip, now).reply == Error(403, AccountInactive)
  {
    FindAfterModify(t.rows, name, id, Reassigned(role, isActive));
  }

  // ---- PUT /:id/reset-password ----

  /** The new hash, and the failed-attempt counter back at zero. */
  function Rehashed(h: string): User -> User
  {
    (u: User) => u.(passwordHash := h, failedAttempts := 0)
  }

  /**
   * PUT /:id/reset-password: stores the new hash, clears FailedAttempts and logs
   * RESET_PASSWORD with the Id; a missing password makes bcrypt throw first.
   */
  method ResetPassword(db: Database, ctx: Context, id: int, password: Text, hash: string -> string)
    returns (reply: Reply<Ack>)
    requires db.Valid()
    modifies db
    ensures db.Valid()
    ensures !Admits([Admin], Some(ctx.user)) ==> reply == Forbidden() && db.State() == old(db.State())
    ensures Admits([Admin], Some(ctx.user)) && password.None? ==> reply == HashThrew && db.State() == old(db.State())
    ensures Admits([Admin], Some(ctx.user)) && password.Some? ==>
              reply == Ok(Success)
              && db.State() == Logged(old(db.State()).(users := old(db.users).(rows := Modify(old(db.users.rows), id, Rehashed(hash(password.value))))),
                                      Entry(ctx, "RESET_PASSWORD", "Users", Some(id)))
  {
    if !Admits([Admin], Some(ctx.user)) {
      return Forbidden();
    }
    if password.None? {
      return HashThrew;
    }
    UpdateUser(db, id, Rehashed(hash(password.value)));
    LogAudit(db, Some(ctx.user.id), "RESET_PASSWORD", "Users", Some(id), ctx.ip, ctx.now);
    reply := Ok(Success);
  }

  /** A reset unlocks the account: an active user then logs in with the new password, however many failures came before. */
  lemma ResetUnlocks(t: Table<User>, id: int, name: string, password: string, hash: string -> string,
                     matches: (string, string) -> bool, ip: string, now: string)
    requires Valid(t) && UniqueUsernames(t.rows)
    requires FindByUsername(t.rows, name).Some? && FindByUsername(t.rows, name).value.id == id
    requires FindByUsername(t.rows, name).value.val.isActive != 0
    requires matches(password, hash(password))
    ensures var t' := t.(rows := Modify(t.rows, id, Rehashed(hash(password))));
            LoginStep(t', name, password, matches, ip, now).reply.Ok?
  {
    FindAfterModify(t.rows, name, id, Rehashed(hash(password)));
  }
}
