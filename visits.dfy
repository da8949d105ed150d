/**
 * server/routes/visits.ts: the daily clinic visits. Listing is open to every
 * authenticated caller; recording a visit and marking its parent as notified
 * need the Admin or School Nurse role.
 */
module VisitRoutes {
  import opened Wrappers
  import opened Tables
  import opened Schema
  import Lists
  import opened Store
  import opened Gate
  import opened Joins

  /** Who may record visits and mark them notified. */
  const Staff := [Admin, SchoolNurse]

  /** A visit names its student and its creator. */
  function VisitLinks(): Links<Visit>
  {
    Links((v: Visit) => v.studentId, (v: Visit) => v.createdBy, true)
  }

  function ByDateTime(j: Joined<Visit>): Option<string>
  {
    j.row.val.dateTime
  }

  /**
   * GET /: the visits whose student and creator exist, each with the student's
   * name, grade and phone and the creator's username, newest first.
   */
  function ListVisits(st: DbState): (r: seq<Joined<Visit>>)
    ensures Lists.SortedDesc(r, ByDateTime)
    ensures forall j :: j in r <==> j.row in st.visits.rows && JoinedFrom(j, VisitLinks(), st.students.rows, st.users.rows)
    ensures |r| <= |st.visits.rows|
  {
    Listing(st.visits.rows, VisitLinks(), st.students.rows, st.users.rows, ByDateTime)
  }

  /** When every visit names an existing student and user, the listing drops none of them. */
  lemma ListingIsComplete(st: DbState)
    requires forall i :: 0 <= i < |st.visits.rows| ==>
               Matched(st.visits.rows[i], VisitLinks(), st.students.rows, st.users.rows)
    ensures |ListVisits(st)| == |st.visits.rows|
  {
  }

  /** The fields POST / reads from the body. */
  datatype VisitBody = VisitBody(
    studentId: Option<int>, diagnosis: Text, treatment: Text,
    paracSyrup: Option<int>, paracTab: Option<int>, hyoscine: Option<int>,
    referred: Json, referralTime: Text)

  /**
   * The inserted row: medication counts default to 0, `referred` becomes 0/1,
   * the creator is the caller, DateTime takes its default (the current time)
   * and the visit starts un-notified.
   */
  function NewVisit(b: VisitBody, ctx: Context): Visit
  {
    Visit(b.studentId, b.diagnosis, b.treatment,
          Some(OrZero(b.paracSyrup)), Some(OrZero(b.paracTab)), Some(OrZero(b.hyoscine)),
          Some(Bit(b.referred)), b.referralTime, Some(ctx.now), Some(ctx.user.id), Some(0), None)
  }

  /** The constraint the INSERT violates, if any. */
  function VisitRefused(st: DbState, fk: bool, b: VisitBody, ctx: Context): Option<SqlError>
  {
    ChildCheck("DailyVisits", b.studentId, Some(ctx.user.id), fk, st.students.rows, st.users.rows)
  }

  /**
   * POST /: records a visit and replies with its new Id; a constraint failure
   * escapes the handler with nothing stored and nothing logged.
   */
  method CreateVisit(db: Database, ctx: Context, b: VisitBody) returns (reply: Reply<int>)
    requires db.Valid()
    modifies db
    ensures db.Valid()
    ensures !Admits(Staff, Some(ctx.user)) ==> reply == Forbidden() && db.State() == old(db.State())
    ensures Admits(Staff, Some(ctx.user)) && VisitRefused(old(db.State()), db.foreignKeys, b, ctx).Some? ==>
              reply == Thrown(VisitRefused(old(db.State()), db.foreignKeys, b, ctx).value) && db.State() == old(db.State())
    ensures Admits(Staff, Some(ctx.user)) && VisitRefused(old(db.State()), db.foreignKeys, b, ctx).None? ==>
              var id := NextId(old(db.visits));
              && reply == Ok(id)
              && db.State() == Logged(old(db.State()).(visits := Append(old(db.visits), NewVisit(b, ctx))),
                                      Entry(ctx, "CREATE_VISIT", "DailyVisits", Some(id)))
  {
    if !Admits(Staff, Some(ctx.user)) {
      return Forbidden();
    }
    var err := VisitRefused(db.State(), db.foreignKeys, b, ctx);
    if err.Some? {
      return Thrown(err.value);
    }
    var id := NextId(db.visits);
    db.visits := Append(db.visits, NewVisit(b, ctx));
    LogAudit(db, Some(ctx.user.id), "CREATE_VISIT", "DailyVisits", Some(id), ctx.ip, ctx.now);
    reply := Ok(id);
  }

  /** A recorded visit whose student and creator exist shows up in the listing under the Id the reply gave. */
  lemma CreatedVisitIsListed(st: DbState, b: VisitBody, ctx: Context)
    requires WellFormed(st)
    requires b.studentId.Some? && HasId(st.students.rows, b.studentId.value) && HasId(st.users.rows, ctx.user.id)
    ensures var st' := st.(visits := Append(st.visits, NewVisit(b, ctx)));
            exists j :: j in ListVisits(st') && j.row == Row(NextId(st.visits), NewVisit(b, ctx))
  {
    var st' := st.(visits := Append(st.visits, NewVisit(b, ctx)));
    var rows := st'.visits.rows;
    assert rows[|st.visits.rows|] == Row(NextId(st.visits), NewVisit(b, ctx));
    assert Matched(rows[|st.visits.rows|], VisitLinks(), st'.students.rows, st'.users.rows);
    var j := JoinOne(rows[|st.visits.rows|], VisitLinks(), st'.students.rows, st'.users.rows);
    assert j.row in rows && JoinedFrom(j, VisitLinks(), st'.students.rows, st'.users.rows);
    assert j in ListVisits(st');
  }

  /** `SET WhatsAppNotified = 1, WhatsAppSentDate = CURRENT_TIMESTAMP`. */
  function Notified(now: string): Visit -> Visit
  {
    (v: Visit) => v.(whatsAppNotified := Some(1), whatsAppSentDate := Some(now))
  }

  /**
   * PUT /:id/whatsapp: marks the visit as notified at the current time and logs
   * it; an Id with no visit updates nothing but is logged and acknowledged all the same.
   */
  method MarkNotified(db: Database, ctx: Context, id: int) returns (reply: Reply<Ack>)
    requires db.Valid()
    modifies db
    ensures db.Valid()
    ensures !Admits(Staff, Some(ctx.user)) ==> reply == Forbidden() && db.State() == old(db.State())
    ensures Admits(Staff, Some(ctx.user)) ==>
              && reply == Ok(Success)
              && db.State() == Logged(old(db.State()).(visits := old(db.visits).(rows := Modify(old(db.visits.rows), id, Notified(ctx.now)))),
                                      Entry(ctx, "WHATSAPP_NOTIFIED", "DailyVisits", Some(id)))
  {
    if !Admits(Staff, Some(ctx.user)) {
      return Forbidden();
    }
    ModifyValid(db.visits, id, Notified(ctx.now));
    ModifyAllRows(db.visits.rows, id, Notified(ctx.now), VisitStored);
    db.visits := db.visits.(rows := Modify(db.visits.rows, id, Notified(ctx.now)));
    LogAudit(db, Some(ctx.user.id), "WHATSAPP_NOTIFIED", "DailyVisits", Some(id), ctx.ip, ctx.now);
    reply := Ok(Success);
  }

  /** After the mark, the visit reads back as notified at that time and otherwise unchanged. */
  lemma NotifiedReadsBack(rows: seq<Row<Visit>>, id: int, now: string)
    requires Ascending(rows) && HasId(rows, id)
    ensures var v := Lookup(rows, id).value;
            Lookup(Modify(rows, id, Notified(now)), id) == Some(v.(whatsAppNotified := Some(1), whatsAppSentDate := Some(now)))
  {
    ModifyFind(rows, id, Notified(now));
  }

  /** Marking twice at the same time is marking once. */
  lemma NotifyTwice(rows: seq<Row<Visit>>, id: int, now: string)
    ensures Modify(Modify(rows, id, Notified(now)), id, Notified(now)) == Modify(rows, id, Notified(now))
  {
    ModifyTwice(rows, id, Notified(now));
  }
}
