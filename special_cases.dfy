/**
 * server/routes/specialCases.ts: follow-ups of students with special health
 * needs. Listing is open to every authenticated caller; recording a follow-up
 * and marking its parent as notified need the Admin or School Nurse role.
 */
module SpecialCaseRoutes {
  import opened Wrappers
  import opened Tables
  import opened Schema
  import Lists
  import opened Store
  import opened Gate
  import opened Joins

  const Staff := [Admin, SchoolNurse]

  /** A follow-up names its student and its creator. */
  function FollowUpLinks(): Links<FollowUp>
  {
    Links((f: FollowUp) => f.studentId, (f: FollowUp) => f.createdBy, true)
  }

  function ByFollowUpDate(j: Joined<FollowUp>): Option<string>
  {
    j.row.val.followUpDate
  }

  /**
   * GET /: the follow-ups whose student and creator exist, each with the
   * student's name, grade, phone and chronic condition and the creator's
   * username, latest follow-up date first.
   */
  function ListFollowUps(st: DbState): (r: seq<Joined<FollowUp>>)
    ensures Lists.SortedDesc(r, ByFollowUpDate)
    ensures forall j :: j in r <==> j.row in st.followUps.rows && JoinedFrom(j, FollowUpLinks(), st.students.rows, st.users.rows)
    ensures |r| <= |st.followUps.rows|
  {
    Listing(st.followUps.rows, FollowUpLinks(), st.students.rows, st.users.rows, ByFollowUpDate)
  }

  /** When every follow-up names an existing student and user, the listing drops none of them. */
  lemma ListingIsComplete(st: DbState)
    requires forall i :: 0 <= i < |st.followUps.rows| ==>
               Matched(st.followUps.rows[i], FollowUpLinks(), st.students.rows, st.users.rows)
    ensures |ListFollowUps(st)| == |st.followUps.rows|
  {
  }

  /** The fields POST / reads from the body. */
  datatype FollowUpBody = FollowUpBody(
    studentId: Option<int>, followUpDate: Text, followUpType: Text, symptoms: Text,
    services: Text, recommendations: Text, referred: Json)

  /** The inserted row: `referred` becomes 0/1, the creator is the caller, and it starts un-notified. */
  function NewFollowUp(b: FollowUpBody, ctx: Context): FollowUp
  {
    FollowUp(b.studentId, b.followUpDate, b.followUpType, b.symptoms, b.services, b.recommendations,
             Some(Bit(b.referred)), Some(ctx.user.id), Some(0))
  }

  /** The constraint the INSERT violates, if any. */
  function FollowUpRefused(st: DbState, fk: bool, b: FollowUpBody, ctx: Context): Option<SqlError>
  {
    ChildCheck("SpecialFollowUps", b.studentId, Some(ctx.user.id), fk, st.students.rows, st.users.rows)
  }

  /**
   * POST /: records a follow-up and replies with its new Id; a constraint
   * failure escapes the handler with nothing stored and nothing logged.
   */
  method CreateFollowUp(db: Database, ctx: Context, b: FollowUpBody) returns (reply: Reply<int>)
    requires db.Valid()
    modifies db
    ensures db.Valid()
    ensures !Admits(Staff, Some(ctx.user)) ==> reply == Forbidden() && db.State() == old(db.State())
    ensures Admits(Staff, Some(ctx.user)) && FollowUpRefused(old(db.State()), db.foreignKeys, b, ctx).Some? ==>
              reply == Thrown(FollowUpRefused(old(db.State()), db.foreignKeys, b, ctx).value) && db.State() == old(db.State())
    ensures Admits(Staff, Some(ctx.user)) && FollowUpRefused(old(db.State()), db.foreignKeys, b, ctx).None? ==>
              var id := NextId(old(db.followUps));
              && reply == Ok(id)
              && db.State() == Logged(old(db.State()).(followUps := Append(old(db.followUps), NewFollowUp(b, ctx))),
                                      Entry(ctx, "CREATE_SPECIAL_CASE", "SpecialFollowUps", Some(id)))
  {
    if !Admits(Staff, Some(ctx.user)) {
      return Forbidden();
    }
    var err := FollowUpRefused(db.State(), db.foreignKeys, b, ctx);
    if err.Some? {
      return Thrown(err.value);
    }
    var id := NextId(db.followUps);
    db.followUps := Append(db.followUps, NewFollowUp(b, ctx));
    LogAudit(db, Some(ctx.user.id), "CREATE_SPECIAL_CASE", "SpecialFollowUps", Some(id), ctx.ip, ctx.now);
    reply := Ok(id);
  }

  /** A recorded follow-up whose student and creator exist shows up in the listing under the Id the reply gave. */
  lemma CreatedFollowUpIsListed(st: DbState, b: FollowUpBody, ctx: Context)
    requires WellFormed(st)
    requires b.studentId.Some? && HasId(st.students.rows, b.studentId.value) && HasId(st.users.rows, ctx.user.id)
    ensures var st' := st.(followUps := Append(st.followUps, NewFollowUp(b, ctx)));
            exists j :: j in ListFollowUps(st') && j.row == Row(NextId(st.followUps), NewFollowUp(b, ctx))
  {
    var st' := st.(followUps := Append(st.followUps, NewFollowUp(b, ctx)));
    var rows := st'.followUps.rows;
    assert rows[|st.followUps.rows|] == Row(NextId(st.followUps), NewFollowUp(b, ctx));
    assert Matched(rows[|st.followUps.rows|], FollowUpLinks(), st'.students.rows, st'.users.rows);
    var j := JoinOne(rows[|st.followUps.rows|], FollowUpLinks(), st'.students.rows, st'.users.rows);
    assert j.row in rows && JoinedFrom(j, FollowUpLinks(), st'.students.rows, st'.users.rows);
    assert j in ListFollowUps(st');
  }

  /** `SET WhatsAppNotified = 1`. */
  function Notified(): FollowUp -> FollowUp
  {
    (f: FollowUp) => f.(whatsAppNotified := Some(1))
  }

  /**
   * PUT /:id/whatsapp: marks the follow-up as notified and logs it; an Id with
   * no follow-up updates nothing but is logged and acknowledged all the same.
   */
  method MarkNotified(db: Database, ctx: Context, id: int) returns (reply: Reply<Ack>)
    requires db.Valid()
    modifies db
    ensures db.Valid()
    ensures !Admits(Staff, Some(ctx.user)) ==> reply == Forbidden() && db.State() == old(db.State())
    ensures Admits(Staff, Some(ctx.user)) ==>
              && reply == Ok(Success)
              && db.State() == Logged(old(db.State()).(followUps := old(db.followUps).(rows := Modify(old(db.followUps.rows), id, Notified()))),
                                      Entry(ctx, "WHATSAPP_NOTIFIED", "SpecialFollowUps", Some(id)))
  {
    if !Admits(Staff, Some(ctx.user)) {
      return Forbidden();
    }
    ModifyValid(db.followUps, id, Notified());
    ModifyAllRows(db.followUps.rows, id, Notified(), FollowUpStored);
    db.followUps := db.followUps.(rows := Modify(db.followUps.rows, id, Notified()));
    LogAudit(db, Some(ctx.user.id), "WHATSAPP_NOTIFIED", "SpecialFollowUps", Some(id), ctx.ip, ctx.now);
    reply := Ok(Success);
  }

  /** After the mark, the follow-up reads back as notified and otherwise unchanged. */
  lemma NotifiedReadsBack(rows: seq<Row<FollowUp>>, id: int)
    requires Ascending(rows) && HasId(rows, id)
    ensures Lookup(Modify(rows, id, Notified()), id) == Some(Lookup(rows, id).value.(whatsAppNotified := Some(1)))
  {
    ModifyFind(rows, id, Notified());
  }

  /** Marking twice is marking once. */
  lemma NotifyTwice(rows: seq<Row<FollowUp>>, id: int)
    ensures Modify(Modify(rows, id, Notified()), id, Notified()) == Modify(rows, id, Notified())
  {
    ModifyTwice(rows, id, Notified());
  }
}
