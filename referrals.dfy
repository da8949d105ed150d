/**
 * server/routes/referrals.ts: referrals of students to outside care. Listing
 * is open to every authenticated caller; recording a referral and marking its
 * parent as notified need the Admin or School Nurse role.
 */
module ReferralRoutes {
  import opened Wrappers
  import opened Tables
  import opened Schema
  import Lists
  import opened Store
  import opened Gate
  import opened Joins

  const Staff := [Admin, SchoolNurse]

  /** A referral names its student and its creator. */
  function ReferralLinks(): Links<Referral>
  {
    Links((r: Referral) => r.studentId, (r: Referral) => r.createdBy, true)
  }

  function ByDateTime(j: Joined<Referral>): Option<string>
  {
    j.row.val.dateTime
  }

  /**
   * GET /: the referrals whose student and creator exist, each with the
   * student's name, grade and phone and the creator's username, newest first.
   */
  function ListReferrals(st: DbState): (r: seq<Joined<Referral>>)
    ensures Lists.SortedDesc(r, ByDateTime)
    ensures forall j :: j in r <==> j.row in st.referrals.rows && JoinedFrom(j, ReferralLinks(), st.students.rows, st.users.rows)
    ensures |r| <= |st.referrals.rows|
  {
    Listing(st.referrals.rows, ReferralLinks(), st.students.rows, st.users.rows, ByDateTime)
  }

  /** When every referral names an existing student and user, the listing drops none of them. */
  lemma ListingIsComplete(st: DbState)
    requires forall i :: 0 <= i < |st.referrals.rows| ==>
               Matched(st.referrals.rows[i], ReferralLinks(), st.students.rows, st.users.rows)
    ensures |ListReferrals(st)| == |st.referrals.rows|
  {
  }

  /** The fields POST / reads from the body. */
  datatype ReferralBody = ReferralBody(
    studentId: Option<int>, reason: Text, destination: Text,
    age: Text, gender: Text, history: Text, referralTime: Text)

  /** The inserted row: the creator is the caller, DateTime takes its default (the current time), un-notified. */
  function NewReferral(b: ReferralBody, ctx: Context): Referral
  {
    Referral(b.studentId, b.reason, b.destination, Some(ctx.now), Some(ctx.user.id), Some(0),
             b.age, b.gender, b.history, b.referralTime)
  }

  /** The constraint the INSERT violates, if any. */
  function ReferralRefused(st: DbState, fk: bool, b: ReferralBody, ctx: Context): Option<SqlError>
  {
    ChildCheck("Referrals", b.studentId, Some(ctx.user.id), fk, st.students.rows, st.users.rows)
  }

  /**
   * POST /: records a referral and replies with its new Id; a constraint
   * failure escapes the handler with nothing stored and nothing logged.
   */
  method CreateReferral(db: Database, ctx: Context, b: ReferralBody) returns (reply: Reply<int>)
    requires db.Valid()
    modifies db
    ensures db.Valid()
    ensures !Admits(Staff, Some(ctx.user)) ==> reply == Forbidden() && db.State() == old(db.State())
    ensures Admits(Staff, Some(ctx.user)) && ReferralRefused(old(db.State()), db.foreignKeys, b, ctx).Some? ==>
              reply == Thrown(ReferralRefused(old(db.State()), db.foreignKeys, b, ctx).value) && db.State() == old(db.State())
    ensures Admits(Staff, Some(ctx.user)) && ReferralRefused(old(db.State()), db.foreignKeys, b, ctx).None? ==>
              var id := NextId(old(db.referrals));
              && reply == Ok(id)
              && db.State() == Logged(old(db.State()).(referrals := Append(old(db.referrals), NewReferral(b, ctx))),
                                      Entry(ctx, "CREATE_REFERRAL", "Referrals", Some(id)))
  {
    if !Admits(Staff, Some(ctx.user)) {
      return Forbidden();
    }
    var err := ReferralRefused(db.State(), db.foreignKeys, b, ctx);
    if err.Some? {
      return Thrown(err.value);
    }
    var id := NextId(db.referrals);
    db.referrals := Append(db.referrals, NewReferral(b, ctx));
    LogAudit(db, Some(ctx.user.id), "CREATE_REFERRAL", "Referrals", Some(id), ctx.ip, ctx.now);
    reply := Ok(id);
  }

  /** A recorded referral whose student and creator exist shows up in the listing under the Id the reply gave. */
  lemma CreatedReferralIsListed(st: DbState, b: ReferralBody, ctx: Context)
    requires WellFormed(st)
    requires b.studentId.Some? && HasId(st.students.rows, b.studentId.value) && HasId(st.users.rows, ctx.user.id)
    ensures var st' := st.(referrals := Append(st.referrals, NewReferral(b, ctx)));
            exists j :: j in ListReferrals(st') && j.row == Row(NextId(st.referrals), NewReferral(b, ctx))
  {
    var st' := st.(referrals := Append(st.referrals, NewReferral(b, ctx)));
    var rows := st'.referrals.rows;
    assert rows[|st.referrals.rows|] == Row(NextId(st.referrals), NewReferral(b, ctx));
    assert Matched(rows[|st.referrals.rows|], ReferralLinks(), st'.students.rows, st'.users.rows);
    var j := JoinOne(rows[|st.referrals.rows|], ReferralLinks(), st'.students.rows, st'.users.rows);
    assert j.row in rows && JoinedFrom(j, ReferralLinks(), st'.students.rows, st'.users.rows);
    assert j in ListReferrals(st');
  }

  /** `SET WhatsAppNotified = 1`. */
  function Notified(): Referral -> Referral
  {
    (r: Referral) => r.(whatsAppNotified := Some(1))
  }

  /**
   * PUT /:id/whatsapp: marks the referral as notified and logs it; an Id with
   * no referral updates nothing but is logged and acknowledged all the same.
   */
  method MarkNotified(db: Database, ctx: Context, id: int) returns (reply: Reply<Ack>)
    requires db.Valid()
    modifies db
    ensures db.Valid()
    ensures !Admits(Staff, Some(ctx.user)) ==> reply == Forbidden() && db.State() == old(db.State())
    ensures Admits(Staff, Some(ctx.user)) ==>
              && reply == Ok(Success)
              && db.State() == Logged(old(db.State()).(referrals := old(db.referrals).(rows := Modify(old(db.referrals.rows), id, Notified()))),
                                      Entry(ctx, "WHATSAPP_NOTIFIED", "Referrals", Some(id)))
  {
    if !Admits(Staff, Some(ctx.user)) {
      return Forbidden();
    }
    ModifyValid(db.referrals, id, Notified());
    ModifyAllRows(db.referrals.rows, id, Notified(), ReferralStored);
    db.referrals := db.referrals.(rows := Modify(db.referrals.rows, id, Notified()));
    LogAudit(db, Some(ctx.user.id), "WHATSAPP_NOTIFIED", "Referrals", Some(id), ctx.ip, ctx.now);
    reply := Ok(Success);
  }

  /** After the mark, the referral reads back as notified and otherwise unchanged. */
  lemma NotifiedReadsBack(rows: seq<Row<Referral>>, id: int)
    requires Ascending(rows) && HasId(rows, id)
    ensures Lookup(Modify(rows, id, Notified()), id) == Some(Lookup(rows, id).value.(whatsAppNotified := Some(1)))
  {
    ModifyFind(rows, id, Notified());
  }

  /** Marking twice is marking once. */
  lemma NotifyTwice(rows: seq<Row<Referral>>, id: int)
    ensures Modify(Modify(rows, id, Notified()), id, Notified()) == Modify(rows, id, Notified())
  {
    ModifyTwice(rows, id, Notified());
  }
}
