/**
 * The login handler of server/routes/auth.ts: a lookup by username followed by
 * checks in a fixed order (exists, not locked, active, password), each outcome
 * writing exactly one audit entry and at most touching the matched user's
 * FailedAttempts / LastLogin. bcrypt's comparison is the `matches` parameter;
 * it throws on a request without a password, which then gets Express's own
 * 500 with nothing written. The signed JWT is represented by the claims it
 * carries.
 */
module Login {
  import opened Wrappers
  import opened Tables
  import opened Schema
  import opened Store

  const LockoutThreshold := 5
  const InvalidCredentials := "Invalid credentials"
  const AccountLocked := "Account locked due to too many failed attempts"
  const AccountInactive := "Account is inactive"

  /** The identity a session token carries and the reply echoes. */
  datatype Claims = Claims(id: int, username: string, role: string)

  /** The token `jwt.sign` produces over the claims, with its lifetime. */
  datatype Token = Signed(claims: Claims, expiresIn: string)

  datatype Session = Session(token: Token, user: Claims)

  /** `SELECT * FROM Users WHERE Username = ?`. */
  function FindByUsername(rows: seq<Row<User>>, name: string): (r: Option<Row<User>>)
    ensures r.None? <==> !HasUsername(rows, name)
    ensures r.Some? ==> r.value in rows && r.value.val.username == name
  {
    if rows == [] then None
    else if rows[0].val.username == name then Some(rows[0])
    else
      assert HasUsername(rows, name) ==> HasUsername(rows[1..], name) by {
        if HasUsername(rows, name) {
          var i :| 0 <= i < |rows| && rows[i].val.username == name;
          assert rows[1..][i - 1].val.username == name;
        }
      }
      FindByUsername(rows[1..], name)
  }

  /** The counter update of a wrong password. */
  function Bump(u: User): User
  {
    u.(failedAttempts := u.failedAttempts + 1)
  }

  /** The update of a successful login. */
  function Reset(now: string): User -> User
  {
    (u: User) => u.(failedAttempts := 0, lastLogin := Some(now))
  }

  /** An update that keeps every username keeps the table's Ids and usernames, and their uniqueness. */
  lemma ModifyKeepsUsernames(users: Table<User>, id: int, f: User -> User)
    requires forall i :: 0 <= i < |users.rows| ==> f(users.rows[i].val).username == users.rows[i].val.username
    ensures var m := Modify(users.rows, id, f);
            && (Valid(users) && UniqueUsernames(users.rows) ==> Valid(users.(rows := m)) && UniqueUsernames(m))
            && forall i :: 0 <= i < |users.rows| ==> m[i].id == users.rows[i].id && m[i].val.username == users.rows[i].val.username
  {
    var m := Modify(users.rows, id, f);
    assert forall i :: 0 <= i < |users.rows| ==> m[i].val.username == users.rows[i].val.username;
    if Valid(users) {
      ModifyValid(users, id, f);
    }
  }

  /** What one attempt does: the new Users table, the reply, the one audit entry. */
  datatype Attempt = Attempt(users: Table<User>, reply: Reply<Session>, entry: AuditEntry)

  /** The login handler as a function of the Users table and the request. */
  function LoginStep(users: Table<User>, username: string, password: string,
                     matches: (string, string) -> bool, ip: string, now: string): (a: Attempt)
    ensures Valid(users) && UniqueUsernames(users.rows) ==> Valid(a.users) && UniqueUsernames(a.users.rows)
    ensures a.users.seqNo == users.seqNo && |a.users.rows| == |users.rows|
    ensures forall i :: 0 <= i < |users.rows| ==>
              a.users.rows[i].id == users.rows[i].id
              && a.users.rows[i].val.username == users.rows[i].val.username
  {
    match FindByUsername(users.rows, username)
    case None =>
      Attempt(users, Error(401, InvalidCredentials),
              AuditEntry(None, "LOGIN_FAILED_USER_NOT_FOUND", "Users", None, now, ip))
    case Some(row) =>
      var u := row.val;
      if u.failedAttempts >= LockoutThreshold then
        Attempt(users, Error(403, AccountLocked),
                AuditEntry(Some(row.id), "LOGIN_LOCKED", "Users", Some(row.id), now, ip))
      else if u.isActive == 0 then
        Attempt(users, Error(403, AccountInactive),
                AuditEntry(Some(row.id), "LOGIN_INACTIVE", "Users", Some(row.id), now, ip))
      else if !matches(password, u.passwordHash) then
        ModifyKeepsUsernames(users, row.id, Bump);
        Attempt(users.(rows := Modify(users.rows, row.id, Bump)), Error(401, InvalidCredentials),
                AuditEntry(Some(row.id), "LOGIN_FAILED_WRONG_PASSWORD", "Users", Some(row.id), now, ip))
      else
        var claims := Claims(row.id, u.username, u.role);
        ModifyKeepsUsernames(users, row.id, Reset(now));
        Attempt(users.(rows := Modify(users.rows, row.id, Reset(now))), Ok(Session(Signed(claims, "8h"), claims)),
                AuditEntry(Some(row.id), "LOGIN_SUCCESS", "Users", Some(row.id), now, ip))
  }

  /** The checks before the password all pass, so `compareSync` is called: a known, unlocked, active user. */
  predicate PasswordCompared(users: Table<User>, username: string)
  {
    var found := FindByUsername(users.rows, username);
    found.Some? && found.value.val.failedAttempts < LockoutThreshold && found.value.val.isActive != 0
  }

  /** Before the comparison the password is not looked at: any two passwords get the same attempt. */
  lemma PasswordUnusedBeforeCompare(users: Table<User>, username: string, p: string, q: string,
                                    matches: (string, string) -> bool, ip: string, now: string)
    requires !PasswordCompared(users, username)
    ensures LoginStep(users, username, p, matches, ip, now) == LoginStep(users, username, q, matches, ip, now)
  {
  }

  /**
   * POST /login. Reads the user row, answers per `LoginStep`, writes its one
   * audit entry, and changes nothing else in the database. A body without a
   * password gets past the lookup and the two account checks as any other;
   * when the password would then be compared, bcrypt throws: nothing is
   * updated and nothing is logged.
   */
  method Login(db: Database, username: string, password: Text,
               matches: (string, string) -> bool, ip: string, now: string)
    returns (reply: Reply<Session>)
    requires db.Valid()
    modifies db
    ensures db.Valid()
    ensures password.None? && PasswordCompared(old(db.users), username) ==>
              reply == HashThrew && db.State() == old(db.State())
    ensures var a := LoginStep(old(db.users), username, password.GetOr(""), matches, ip, now);
            WellFormed(old(db.State()).(users := a.users))
    ensures password.Some? || !PasswordCompared(old(db.users), username) ==>
              var a := LoginStep(old(db.users), username, password.GetOr(""), matches, ip, now);
              reply == a.reply && db.State() == Logged(old(db.State()).(users := a.users), a.entry)
  {
    var found := FindByUsername(db.users.rows, username);
    if found.None? {
      LogAudit(db, None, "LOGIN_FAILED_USER_NOT_FOUND", "Users", None, ip, now);
      return Error(401, InvalidCredentials);
    }
    var row := found.value;
    if row.val.failedAttempts >= LockoutThreshold {
      LogAudit(db, Some(row.id), "LOGIN_LOCKED", "Users", Some(row.id), ip, now);
      return Error(403, AccountLocked);
    }
    if row.val.isActive == 0 {
      LogAudit(db, Some(row.id), "LOGIN_INACTIVE", "Users", Some(row.id), ip, now);
      return Error(403, AccountInactive);
    }
    if password.None? {
      return HashThrew;
    }
    var valid := matches(password.value, row.val.passwordHash);
    if !valid {
      UpdateUser(db, row.id, Bump);
      LogAudit(db, Some(row.id), "LOGIN_FAILED_WRONG_PASSWORD", "Users", Some(row.id), ip, now);
      return Error(401, InvalidCredentials);
    }
    UpdateUser(db, row.id, Reset(now));
    LogAudit(db, Some(row.id), "LOGIN_SUCCESS", "Users", Some(row.id), ip, now);
    var claims := Claims(row.id, row.val.username, row.val.role);
    reply := Ok(Session(Signed(claims, "8h"), claims));
  }

  // ---- What the ordered checks guarantee. ----

  /** An unknown username: 401, one entry with no user, no Users row changed. */
  lemma UnknownUser(users: Table<User>, username: string, password: string,
                    matches: (string, string) -> bool, ip: string, now: string)
    requires Valid(users) && UniqueUsernames(users.rows) && !HasUsername(users.rows, username)
    ensures var a := LoginStep(users, username, password, matches, ip, now);
            a.reply == Error(401, InvalidCredentials) && a.users == users
            && a.entry.userId.None? && a.entry.actionType == "LOGIN_FAILED_USER_NOT_FOUND"
  {
  }

  /** A counter at the threshold locks the account before the active flag or the password is consulted. */
  lemma LockoutComesFirst(users: Table<User>, username: string, password: string,
                          matches: (string, string) -> bool, ip: string, now: string)
    requires Valid(users) && UniqueUsernames(users.rows)
    requires FindByUsername(users.rows, username).Some?
    requires FindByUsername(users.rows, username).value.val.failedAttempts >= LockoutThreshold
    ensures var a := LoginStep(users, username, password, matches, ip, now);
            a.reply == Error(403, AccountLocked) && a.users == users && a.entry.actionType == "LOGIN_LOCKED"
  {
  }

  /** An inactive account below the lockout threshold: 403, logged as LOGIN_INACTIVE for that user, no row changed. */
  lemma InactiveRefused(users: Table<User>, username: string, password: string,
                        matches: (string, string) -> bool, ip: string, now: string)
    requires Valid(users) && UniqueUsernames(users.rows)
    requires FindByUsername(users.rows, username).Some?
    requires var u := FindByUsername(users.rows, username).value.val;
             u.failedAttempts < LockoutThreshold && u.isActive == 0
    ensures var a := LoginStep(users, username, password, matches, ip, now);
            var row := FindByUsername(users.rows, username).value;
            && a.reply == Error(403, AccountInactive) && a.users == users
            && a.entry == AuditEntry(Some(row.id), "LOGIN_INACTIVE", "Users", Some(row.id), now, ip)
  {
  }

  /** A wrong password raises that user's counter by exactly one and answers exactly like an unknown user. */
  lemma WrongPasswordLooksUnknown(users: Table<User>, username: string, password: string,
                                  matches: (string, string) -> bool, ip: string, now: string,
                                  other: string)
    requires Valid(users) && UniqueUsernames(users.rows)
    requires FindByUsername(users.rows, username).Some?
    requires var u := FindByUsername(users.rows, username).value.val;
             u.failedAttempts < LockoutThreshold && u.isActive != 0 && !matches(password, u.passwordHash)
    requires !HasUsername(users.rows, other)
    ensures var a := LoginStep(users, username, password, matches, ip, now);
            var row := FindByUsername(users.rows, username).value;
            a.reply == LoginStep(users, other, password, matches, ip, now).reply
            && FindByUsername(a.users.rows, username) == Some(Row(row.id, Bump(row.val)))
  {
    var row := FindByUsername(users.rows, username).value;
    FindAfterModify(users.rows, username, row.id, Bump);
  }

  /**
   * Success resets the counter, stamps LastLogin and changes nothing else of
   * the row, and answers with an 8-hour token over the row's own Id, Username
   * and Role, which the reply also echoes.
   */
  lemma SuccessResets(users: Table<User>, username: string, password: string,
                      matches: (string, string) -> bool, ip: string, now: string)
    requires Valid(users) && UniqueUsernames(users.rows)
    requires FindByUsername(users.rows, username).Some?
    requires var u := FindByUsername(users.rows, username).value.val;
             u.failedAttempts < LockoutThreshold && u.isActive != 0 && matches(password, u.passwordHash)
    ensures var a := LoginStep(users, username, password, matches, ip, now);
            var row := FindByUsername(users.rows, username).value;
            var claims := Claims(row.id, row.val.username, row.val.role);
            && a.reply == Ok(Session(Signed(claims, "8h"), claims))
            && a.entry == AuditEntry(Some(row.id), "LOGIN_SUCCESS", "Users", Some(row.id), now, ip)
            && FindByUsername(a.users.rows, username) == Some(Row(row.id, row.val.(failedAttempts := 0, lastLogin := Some(now))))
  {
    var row := FindByUsername(users.rows, username).value;
    FindAfterModify(users.rows, username, row.id, Reset(now));
  }

  /** Whatever the outcome, rows of other users are untouched. */
  lemma OnlyMatchedUserChanges(users: Table<User>, username: string, password: string,
                               matches: (string, string) -> bool, ip: string, now: string, i: int)
    requires Valid(users) && UniqueUsernames(users.rows)
    requires 0 <= i < |users.rows| && users.rows[i].val.username != username
    ensures LoginStep(users, username, password, matches, ip, now).users.rows[i] == users.rows[i]
  {
  }

  /** The lookup after an update of the found row that keeps its name finds the updated row. */
  lemma {:induction false} FindAfterModify(rows: seq<Row<User>>, name: string, id: int, f: User -> User)
    requires Ascending(rows)
    requires FindByUsername(rows, name).Some? && FindByUsername(rows, name).value.id == id
    requires f(FindByUsername(rows, name).value.val).username == name
    ensures FindByUsername(Modify(rows, id, f), name) == Some(Row(id, f(FindByUsername(rows, name).value.val)))
  {
    if rows[0].val.username != name {
      FoundInTailIsLater(rows, name);
      assert Modify(rows, id, f) == [rows[0]] + Modify(rows[1..], id, f);
      FindAfterModify(rows[1..], name, id, f);
    }
  }

  /** When the head does not carry the name, the found row lies after it, with a larger Id. */
  lemma FoundInTailIsLater(rows: seq<Row<User>>, name: string)
    requires Ascending(rows) && rows != [] && rows[0].val.username != name
    requires FindByUsername(rows, name).Some?
    ensures Ascending(rows[1..]) && rows[0].id < FindByUsername(rows, name).value.id
  {
    var found := FindByUsername(rows[1..], name).value;
    var k :| 0 <= k < |rows[1..]| && rows[1..][k] == found;
    assert rows[k + 1] == found;
  }

  // ---- Repeated attempts. ----

  /** A series of requests, each starting from the state the previous one left, with every reply. */
  function Run<S, Y>(s: S, xs: seq<string>, step: (S, string) -> (S, Y)): (r: (S, seq<Y>))
    ensures |r.1| == |xs|
  {
    if xs == [] then (s, [])
    else
      var rest := Run(step(s, xs[0]).0, xs[1..], step);
      (rest.0, [step(s, xs[0]).1] + rest.1)
  }

  /** Running a series is running its first `k` requests and then the rest. */
  lemma {:induction false} RunSplit<S, Y>(s: S, xs: seq<string>, k: nat, step: (S, string) -> (S, Y))
    requires k <= |xs|
    ensures var first := Run(s, xs[..k], step);
            var rest := Run(first.0, xs[k..], step);
            Run(s, xs, step) == (rest.0, first.1 + rest.1)
    decreases k
  {
    if k > 0 {
      var next := step(s, xs[0]);
      assert xs[..k][0] == xs[0];
      assert xs[..k][1..] == xs[1..][..k - 1];
      assert xs[k..] == xs[1..][k - 1..];
      RunSplit(next.0, xs[1..], k - 1, step);
      var first' := Run(next.0, xs[1..][..k - 1], step);
      var rest := Run(first'.0, xs[k..], step);
      assert [next.1] + (first'.1 + rest.1) == ([next.1] + first'.1) + rest.1;
    } else {
      assert xs[..0] == [] && xs[0..] == xs;
      assert [] + Run(s, xs, step).1 == Run(s, xs, step).1;
    }
  }

  /** One login attempt on a fixed username, as a step over the Users table. */
  function Attempter(username: string, matches: (string, string) -> bool, ip: string, now: string)
    : (Table<User>, string) -> (Table<User>, Reply<Session>)
  {
    (users: Table<User>, password: string) =>
      var a := LoginStep(users, username, password, matches, ip, now);
      (a.users, a.reply)
  }

  /** Replies to a series of attempts on one username, each starting where the last left Users. */
  function Replay(users: Table<User>, username: string, passwords: seq<string>,
                  matches: (string, string) -> bool, ip: string, now: string)
    : (r: (Table<User>, seq<Reply<Session>>))
    ensures |r.1| == |passwords|
  {
    Run(users, passwords, Attempter(username, matches, ip, now))
  }

  /** Once locked, always locked: every later attempt, with any password, is refused and changes nothing. */
  lemma {:induction false} LockedStaysLocked(users: Table<User>, username: string, passwords: seq<string>,
                                             matches: (string, string) -> bool, ip: string, now: string)
    requires FindByUsername(users.rows, username).Some?
    requires FindByUsername(users.rows, username).value.val.failedAttempts >= LockoutThreshold
    ensures var r := Replay(users, username, passwords, matches, ip, now);
            r.0 == users && forall i :: 0 <= i < |r.1| ==> r.1[i] == Error(403, AccountLocked)
    decreases |passwords|
  {
    if passwords != [] {
      LockedStaysLocked(users, username, passwords[1..], matches, ip, now);
    }
  }

  /** Each wrong password below the threshold adds one to the counter and keeps the account as it was otherwise. */
  lemma {:induction false} WrongPasswordsCount(users: Table<User>, username: string, passwords: seq<string>,
                                               matches: (string, string) -> bool, ip: string, now: string)
    requires Valid(users) && UniqueUsernames(users.rows)
    requires FindByUsername(users.rows, username).Some?
    requires var u := FindByUsername(users.rows, username).value.val;
             u.isActive != 0 && u.failedAttempts + |passwords| <= LockoutThreshold
             && forall i :: 0 <= i < |passwords| ==> !matches(passwords[i], u.passwordHash)
    ensures var row := FindByUsername(users.rows, username).value;
            var found := FindByUsername(Replay(users, username, passwords, matches, ip, now).0.rows, username);
            found.Some? && found.value.id == row.id
            && found.value.val == row.val.(failedAttempts := row.val.failedAttempts + |passwords|)
    decreases |passwords|
  {
    if passwords != [] {
      var row := FindByUsername(users.rows, username).value;
      var a := LoginStep(users, username, passwords[0], matches, ip, now);
      FindAfterModify(users.rows, username, row.id, Bump);
      WrongPasswordsCount(a.users, username, passwords[1..], matches, ip, now);
    }
  }

  /**
   * From a clean counter, five consecutive wrong passwords lock the account:
   * every later attempt is refused as locked, even with the right password.
   */
  lemma FiveFailuresLock(users: Table<User>, username: string, passwords: seq<string>,
                         matches: (string, string) -> bool, ip: string, now: string)
    requires Valid(users) && UniqueUsernames(users.rows)
    requires FindByUsername(users.rows, username).Some?
    requires var u := FindByUsername(users.rows, username).value.val;
             u.isActive != 0 && u.failedAttempts == 0 && |passwords| >= 5
             && forall i :: 0 <= i < 5 ==> !matches(passwords[i], u.passwordHash)
    ensures var replies := Replay(users, username, passwords, matches, ip, now).1;
            forall i :: 5 <= i < |replies| ==> replies[i] == Error(403, AccountLocked)
  {
    var first := Replay(users, username, passwords[..5], matches, ip, now);
    WrongPasswordsCount(users, username, passwords[..5], matches, ip, now);
    LockedStaysLocked(first.0, username, passwords[5..], matches, ip, now);
    RunSplit(users, passwords, 5, Attempter(username, matches, ip, now));
  }
}
