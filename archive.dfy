/**
 * The archive search of src/pages/Archive.tsx: fetch one of the record
 * listings, then keep the records that pass each filter the user filled in
 * (a student name, a start date, an end date), in the listing's order.
 *
 * The date of a record is a JavaScript value: `undefined` for a field the
 * record does not have, `null` for a NULL column, or a string. `new Date(x)`
 * reads `undefined` as an invalid date (NaN, which no comparison admits),
 * `null` as the epoch (0), and a string as the parameter `parse` says: the
 * instant the string denotes, or None where the date is invalid. Fetching is
 * the listing function of the chosen route.
 */
module Archive {
  import opened Wrappers
  import opened Tables
  import opened Schema
  import Lists
  import Str = Text
  import opened Joins
  import VisitRoutes
  import SpecialCaseRoutes
  import ReferralRoutes

  /** The record lists the archive searches. */
  datatype Source = Visits | SpecialCases | Referrals

  /** The list fetched for the record type chosen: the visits, unless special cases or referrals are chosen. */
  function Endpoint(searchType: string): (e: Source)
    ensures e == SpecialCases <==> searchType == "special-cases"
    ensures e == Referrals <==> searchType == "referrals"
    ensures e == Visits <==> searchType != "special-cases" && searchType != "referrals"
  {
    var e := if searchType == "special-cases" then SpecialCases else Visits;
    if searchType == "referrals" then Referrals else e
  }

  /** A fetched record, whole, as its route lists it. */
  datatype Record =
    | VisitRecord(visit: Joined<Visit>)
    | FollowUpRecord(followUp: Joined<FollowUp>)
    | ReferralRecord(referral: Joined<Referral>)

  /** `item.StudentName`. */
  function StudentName(r: Record): Text
  {
    match r
    case VisitRecord(j) => j.student.name
    case FollowUpRecord(j) => j.student.name
    case ReferralRecord(j) => j.student.name
  }

  /** A field of a fetched JSON record, as JavaScript sees it. */
  datatype JsValue = Undefined | Null | JsString(s: string)

  /** A column in the JSON the route sends: NULL is `null`, text a string. */
  function Cell(t: Text): JsValue
  {
    match t
    case None => Null
    case Some(s) => JsString(s)
  }

  /** A value `||` passes over: anything but a non-empty string. */
  predicate Truthy(v: JsValue)
  {
    v.JsString? && v.s != ""
  }

  /** `item.DateTime`: a follow-up has no such field. */
  function DateTimeOf(r: Record): JsValue
  {
    match r
    case VisitRecord(j) => Cell(j.row.val.dateTime)
    case FollowUpRecord(_) => Undefined
    case ReferralRecord(j) => Cell(j.row.val.dateTime)
  }

  /** `item.FollowUpDate`: only a follow-up has one. */
  function FollowUpDateOf(r: Record): JsValue
  {
    match r
    case FollowUpRecord(j) => Cell(j.row.val.followUpDate)
    case _ => Undefined
  }

  /**
   * `item.DateTime || item.FollowUpDate`: the first unless it is falsy. So a
   * visit or referral without a date has no date at all (`undefined`), while a
   * follow-up with a NULL follow-up date has `null`.
   */
  function DateOf(r: Record): (d: JsValue)
    ensures Truthy(DateTimeOf(r)) ==> d == DateTimeOf(r)
    ensures !Truthy(DateTimeOf(r)) ==> d == FollowUpDateOf(r)
    ensures !r.FollowUpRecord? && !Truthy(DateTimeOf(r)) ==> d == Undefined
    ensures r.FollowUpRecord? ==> d == Cell(r.followUp.row.val.followUpDate)
  {
    var d := DateTimeOf(r);
    if Truthy(d) then d else FollowUpDateOf(r)
  }

  /** `new Date(v)` as a number: NaN (None) for `undefined`, the epoch for `null`, `parse` for a string. */
  function Instant(v: JsValue, parse: string -> Option<int>): (t: Option<int>)
    ensures v == Undefined ==> t.None?
    ensures v == Null ==> t == Some(0)
    ensures v.JsString? ==> t == parse(v.s)
  {
    match v
    case Undefined => None
    case Null => Some(0)
    case JsString(s) => parse(s)
  }

  /** The record type a listing holds. */
  predicate OfSource(r: Record, e: Source)
  {
    match r
    case VisitRecord(_) => e == Visits
    case FollowUpRecord(_) => e == SpecialCases
    case ReferralRecord(_) => e == Referrals
  }

  function VisitRecords(l: seq<Joined<Visit>>): (r: seq<Record>)
    ensures |r| == |l|
    ensures forall i :: 0 <= i < |r| ==> OfSource(r[i], Visits)
  {
    seq(|l|, i requires 0 <= i < |l| => VisitRecord(l[i]))
  }

  function FollowUpRecords(l: seq<Joined<FollowUp>>): (r: seq<Record>)
    ensures |r| == |l|
    ensures forall i :: 0 <= i < |r| ==> OfSource(r[i], SpecialCases)
  {
    seq(|l|, i requires 0 <= i < |l| => FollowUpRecord(l[i]))
  }

  function ReferralRecords(l: seq<Joined<Referral>>): (r: seq<Record>)
    ensures |r| == |l|
    ensures forall i :: 0 <= i < |r| ==> OfSource(r[i], Referrals)
  {
    seq(|l|, i requires 0 <= i < |l| => ReferralRecord(l[i]))
  }

  /** The listing behind each choice, in the order the route returns it. */
  function Fetch(e: Source, st: DbState): (r: seq<Record>)
    ensures forall i :: 0 <= i < |r| ==> OfSource(r[i], e)
    ensures e == Visits ==> |r| == |VisitRoutes.ListVisits(st)|
    ensures e == SpecialCases ==> |r| == |SpecialCaseRoutes.ListFollowUps(st)|
    ensures e == Referrals ==> |r| == |ReferralRoutes.ListReferrals(st)|
  {
    match e
    case Visits => VisitRecords(VisitRoutes.ListVisits(st))
    case SpecialCases => FollowUpRecords(SpecialCaseRoutes.ListFollowUps(st))
    case Referrals => ReferralRecords(ReferralRoutes.ListReferrals(st))
  }

  /** What the user typed; an empty field sets no filter. */
  datatype Filters = Filters(startDate: string, endDate: string, studentName: string)

  /** The name filter: the student's name holds the typed text, case-sensitively. */
  predicate NameHas(r: Record, name: string)
  {
    StudentName(r).Some? && Str.Contains(StudentName(r).value, name)
  }

  /** `new Date(date) >= new Date(startDate)`. */
  predicate NotBefore(r: Record, start: string, parse: string -> Option<int>)
  {
    var t := Instant(DateOf(r), parse);
    t.Some? && parse(start).Some? && t.value >= parse(start).value
  }

  /** `new Date(date) <= new Date(endDate)`. */
  predicate NotAfter(r: Record, end: string, parse: string -> Option<int>)
  {
    var t := Instant(DateOf(r), parse);
    t.Some? && parse(end).Some? && t.value <= parse(end).value
  }

  /** The three tests, as the `filter` callbacks. */
  function ByName(name: string): Record -> bool
  {
    x => NameHas(x, name)
  }

  function FromDate(start: string, parse: string -> Option<int>): Record -> bool
  {
    x => NotBefore(x, start, parse)
  }

  function ToDate(end: string, parse: string -> Option<int>): Record -> bool
  {
    x => NotAfter(x, end, parse)
  }

  /** The name filter throws a TypeError on a record without a student name. */
  predicate NameThrows(data: seq<Record>, f: Filters)
  {
    f.studentName != "" && exists i :: 0 <= i < |data| && StudentName(data[i]).None?
  }

  /**
   * The filter chain: the name filter, then the start date, then the end date,
   * each applied only when its field is filled in. None is the TypeError the
   * search catches and logs, leaving the shown results as they were.
   */
  function Search(data: seq<Record>, f: Filters, parse: string -> Option<int>): (r: Option<seq<Record>>)
    ensures r.None? <==> NameThrows(data, f)
  {
    if NameThrows(data, f) then None
    else
      var byName := if f.studentName != "" then Lists.Filter(data, ByName(f.studentName)) else data;
      var byStart := if f.startDate != "" then Lists.Filter(byName, FromDate(f.startDate, parse)) else byName;
      var byEnd := if f.endDate != "" then Lists.Filter(byStart, ToDate(f.endDate, parse)) else byStart;
      Some(byEnd)
  }

  /** A record passes every filter that is filled in. */
  predicate Passes(r: Record, f: Filters, parse: string -> Option<int>)
  {
    && (f.studentName != "" ==> NameHas(r, f.studentName))
    && (f.startDate != "" ==> NotBefore(r, f.startDate, parse))
    && (f.endDate != "" ==> NotAfter(r, f.endDate, parse))
  }

  /** A filter applied only when its field is filled in is a filter whose test passes everything when it is not. */
  lemma OptionalStage(xs: seq<Record>, applied: bool, test: Record -> bool, p: Record -> bool)
    requires forall x :: p(x) == (applied ==> test(x))
    ensures (if applied then Lists.Filter(xs, test) else xs) == Lists.Filter(xs, p)
  {
    if applied {
      Lists.FilterSame(xs, test, p);
    } else {
      Lists.FilterAll(xs, p);
    }
  }

  /** The three stages as tests that pass everything when their field is empty. */
  function NameStage(f: Filters): Record -> bool
  {
    x => f.studentName != "" ==> NameHas(x, f.studentName)
  }

  function StartStage(f: Filters, parse: string -> Option<int>): Record -> bool
  {
    x => f.startDate != "" ==> NotBefore(x, f.startDate, parse)
  }

  function EndStage(f: Filters, parse: string -> Option<int>): Record -> bool
  {
    x => f.endDate != "" ==> NotAfter(x, f.endDate, parse)
  }

  function NameAndStart(f: Filters, parse: string -> Option<int>): Record -> bool
  {
    x => NameStage(f)(x) && StartStage(f, parse)(x)
  }

  /** The search is the three stages in a row, each one a filter. */
  lemma SearchStages(data: seq<Record>, f: Filters, parse: string -> Option<int>)
    requires !NameThrows(data, f)
    ensures Search(data, f, parse)
            == Some(Lists.Filter(Lists.Filter(Lists.Filter(data, NameStage(f)), StartStage(f, parse)), EndStage(f, parse)))
  {
    var byName := Lists.Filter(data, NameStage(f));
    var byStart := Lists.Filter(byName, StartStage(f, parse));
    OptionalStage(data, f.studentName != "", ByName(f.studentName), NameStage(f));
    OptionalStage(byName, f.startDate != "", FromDate(f.startDate, parse), StartStage(f, parse));
    OptionalStage(byStart, f.endDate != "", ToDate(f.endDate, parse), EndStage(f, parse));
  }

  /** The chain of filters is one filter by the conjunction of the filled-in tests. */
  lemma SearchIsOneFilter(data: seq<Record>, f: Filters, parse: string -> Option<int>)
    requires !NameThrows(data, f)
    ensures Search(data, f, parse) == Some(Lists.Filter(data, (x: Record) => Passes(x, f, parse)))
  {
    SearchStages(data, f, parse);
    Lists.FilterFilter(data, NameStage(f), StartStage(f, parse), NameAndStart(f, parse));
    Lists.FilterFilter(data, NameAndStart(f, parse), EndStage(f, parse), (x: Record) => Passes(x, f, parse));
  }

  /** A record is in the results exactly when it was fetched and passes every filled-in filter. */
  lemma SearchFinds(data: seq<Record>, f: Filters, parse: string -> Option<int>, x: Record)
    requires !NameThrows(data, f)
    ensures x in Search(data, f, parse).value <==> x in data && Passes(x, f, parse)
  {
    SearchIsOneFilter(data, f, parse);
    var r := Lists.Filter(data, (y: Record) => Passes(y, f, parse));
    if x in r {
      var k :| 0 <= k < |r| && r[k] == x;
    }
    if x in data && Passes(x, f, parse) {
      var k :| 0 <= k < |data| && data[k] == x;
    }
  }

  /** The results keep the fetched order: they are the fetched list with some records left out. */
  lemma SearchKeepsOrder(data: seq<Record>, f: Filters, parse: string -> Option<int>)
    requires !NameThrows(data, f)
    ensures Lists.Subsequence(Search(data, f, parse).value, data)
  {
    SearchIsOneFilter(data, f, parse);
    Lists.FilterSubsequence(data, (x: Record) => Passes(x, f, parse));
  }

  /** With every field empty, the search shows the whole list. */
  lemma EmptyFiltersKeepAll(data: seq<Record>, parse: string -> Option<int>)
    ensures Search(data, Filters("", "", ""), parse) == Some(data)
  {
    SearchIsOneFilter(data, Filters("", "", ""), parse);
    Lists.FilterAll(data, (x: Record) => Passes(x, Filters("", "", ""), parse));
  }

  /** Both bounds are inclusive: a record dated exactly at the start and at the end is kept. */
  lemma BoundsInclusive(data: seq<Record>, f: Filters, parse: string -> Option<int>, x: Record)
    requires x in data && f.studentName == ""
    requires Instant(DateOf(x), parse).Some? && Instant(DateOf(x), parse) == parse(f.startDate) == parse(f.endDate)
    ensures x in Search(data, f, parse).value
  {
    SearchFinds(data, f, parse, x);
  }

  /** A start date JavaScript cannot read leaves nothing: no comparison with NaN holds. */
  lemma InvalidStartFindsNothing(data: seq<Record>, f: Filters, parse: string -> Option<int>)
    requires f.startDate != "" && parse(f.startDate).None? && !NameThrows(data, f)
    ensures Search(data, f, parse) == Some([])
  {
    var r := Search(data, f, parse).value;
    if r != [] {
      SearchFinds(data, f, parse, r[0]);
    }
  }

  /**
   * A follow-up whose follow-up date is NULL is dated at the epoch: it is
   * not after any end date from 1970 on, and not before a start date only
   * when that start is the epoch or earlier.
   */
  lemma NullFollowUpDateIsEpoch(x: Record, start: string, end: string, parse: string -> Option<int>)
    requires x.FollowUpRecord? && x.followUp.row.val.followUpDate.None?
    ensures NotAfter(x, end, parse) <==> parse(end).Some? && parse(end).value >= 0
    ensures NotBefore(x, start, parse) <==> parse(start).Some? && parse(start).value <= 0
  {
    assert Instant(DateOf(x), parse) == Some(0);
  }

  /** A follow-up with a NULL date is found by an end date alone, if that date is not before 1970. */
  lemma NullFollowUpKeptByEndDate(data: seq<Record>, f: Filters, parse: string -> Option<int>, x: Record)
    requires x in data && x.FollowUpRecord? && x.followUp.row.val.followUpDate.None?
    requires f.studentName == "" && f.startDate == "" && parse(f.endDate).Some? && parse(f.endDate).value >= 0
    ensures x in Search(data, f, parse).value
  {
    NullFollowUpDateIsEpoch(x, f.startDate, f.endDate, parse);
    SearchFinds(data, f, parse, x);
  }

  /** A visit or referral without a date reads as an invalid date: any filled-in date filter drops it. */
  lemma UndatedRecordDropped(data: seq<Record>, f: Filters, parse: string -> Option<int>, x: Record)
    requires !NameThrows(data, f) && !x.FollowUpRecord? && !Truthy(DateTimeOf(x))
    requires f.startDate != "" || f.endDate != ""
    ensures x !in Search(data, f, parse).value
  {
    assert Instant(DateOf(x), parse).None?;
    SearchFinds(data, f, parse, x);
  }

  /** A joined row's student is a stored one, so it has a name. */
  lemma JoinedStudentNamed<T>(j: Joined<T>, l: Links<T>, students: seq<Row<Student>>, users: seq<Row<User>>)
    requires JoinedFrom(j, l, students, users) && AllRows(students, StudentStored)
    ensures j.student.name.Some?
  {
    var k :| 0 <= k < |students| && students[k] == Row(l.studentOf(j.row.val).value, j.student);
  }

  /** Every record of a listing joined with stored students names its student. */
  lemma ListedNamesPresent<T>(l: seq<Joined<T>>, links: Links<T>, students: seq<Row<Student>>, users: seq<Row<User>>)
    requires AllRows(students, StudentStored)
    requires forall j :: j in l ==> JoinedFrom(j, links, students, users)
    ensures forall i :: 0 <= i < |l| ==> l[i].student.name.Some?
  {
    forall i | 0 <= i < |l| ensures l[i].student.name.Some? {
      assert l[i] in l;
      JoinedStudentNamed(l[i], links, students, users);
    }
  }

  /** Every fetched record of a well-formed database names its student. */
  lemma FetchedNamesPresent(e: Source, st: DbState)
    requires WellFormed(st)
    ensures forall i :: 0 <= i < |Fetch(e, st)| ==> StudentName(Fetch(e, st)[i]).Some?
  {
    match e
    case Visits =>
      ListedNamesPresent(VisitRoutes.ListVisits(st), VisitRoutes.VisitLinks(), st.students.rows, st.users.rows);
    case SpecialCases =>
      ListedNamesPresent(SpecialCaseRoutes.ListFollowUps(st), SpecialCaseRoutes.FollowUpLinks(), st.students.rows, st.users.rows);
    case Referrals =>
      ListedNamesPresent(ReferralRoutes.ListReferrals(st), ReferralRoutes.ReferralLinks(), st.students.rows, st.users.rows);
  }

  /** Searching a list fetched from a well-formed database never throws. */
  lemma SearchOfStoredRecordsSucceeds(e: Source, st: DbState, f: Filters, parse: string -> Option<int>)
    requires WellFormed(st)
    ensures Search(Fetch(e, st), f, parse).Some?
  {
    FetchedNamesPresent(e, st);
  }
}
