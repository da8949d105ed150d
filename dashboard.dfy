/**
 * server/routes/dashboard.ts: the home-page summary. Today's counts of visits,
 * follow-ups and referrals, the school name, and the number of visits per day
 * since a week ago, in ascending date order.
 *
 * SQLite's `date(...)` is a parameter: it takes a stored DATETIME text to its
 * `YYYY-MM-DD` calendar date, or to NULL when the text is not a date. The
 * current date and the start of the week are computed from the clock and
 * passed in as `today` and `weekStart`.
 */
module DashboardRoute {
  import opened Wrappers
  import opened Tables
  import opened Schema
  import Str = Text
  import Lists

  /** The name shown when the settings give none. */
  const FallbackSchoolName := "المدرسة"

  /** One point of the weekly chart. */
  datatype DayCount = DayCount(date: string, count: nat)

  datatype Summary = Summary(
    schoolName: string, visitsToday: nat, specialCases: nat, referralsToday: nat,
    weeklyStats: seq<DayCount>)

  /** `COUNT(*) ... WHERE date(col) = today` over the values of one column. */
  function CountOn(cells: seq<Text>, date: string -> Option<string>, today: string): (n: nat)
    ensures n <= |cells|
    ensures n == |cells| <==> forall i :: 0 <= i < |cells| ==> cells[i].Some? && date(cells[i].value) == Some(today)
    ensures n == 0 <==> forall i :: 0 <= i < |cells| ==> cells[i].None? || date(cells[i].value) != Some(today)
  {
    if cells == [] then 0
    else
      var rest := CountOn(cells[1..], date, today);
      assert forall i :: 1 <= i < |cells| ==> cells[i] == cells[1..][i - 1];
      (if cells[0].Some? && date(cells[0].value) == Some(today) then 1 else 0) + rest
  }

  /** Counting the rows of a longer log counts the rows of the shorter one first. */
  lemma {:induction false} CountOnConcat(a: seq<Text>, b: seq<Text>, date: string -> Option<string>, today: string)
    ensures CountOn(a + b, date, today) == CountOn(a, date, today) + CountOn(b, date, today)
  {
    if a != [] {
      assert (a + b)[0] == a[0] && (a + b)[1..] == a[1..] + b;
      assert CountOn(a + b, date, today) ==
             (if a[0].Some? && date(a[0].value) == Some(today) then 1 else 0) + CountOn(a[1..] + b, date, today);
      CountOnConcat(a[1..], b, date, today);
    } else {
      assert a + b == b;
    }
  }

  /** The values of one column, in scan order. */
  function Column<T>(rows: seq<Row<T>>, cell: T -> Text): (r: seq<Text>)
    ensures |r| == |rows| && forall i :: 0 <= i < |rows| ==> r[i] == cell(rows[i].val)
  {
    if rows == [] then [] else [cell(rows[0].val)] + Column(rows[1..], cell)
  }

  function VisitTime(v: Visit): Text { v.dateTime }
  function FollowUpDate(f: FollowUp): Text { f.followUpDate }
  function ReferralTime(r: Referral): Text { r.dateTime }

  /** A visit recorded now is counted today: the counter grows by exactly one. */
  lemma NewVisitCountsToday(rows: seq<Row<Visit>>, v: Row<Visit>, date: string -> Option<string>, today: string)
    requires v.val.dateTime.Some? && date(v.val.dateTime.value) == Some(today)
    ensures CountOn(Column(rows + [v], VisitTime), date, today) == CountOn(Column(rows, VisitTime), date, today) + 1
  {
    assert Column(rows + [v], VisitTime) == Column(rows, VisitTime) + [v.val.dateTime];
    CountOnConcat(Column(rows, VisitTime), [v.val.dateTime], date, today);
  }

  /** The settings row exists and names the school. */
  predicate NameSet(settings: seq<Row<SchoolSettings>>)
  {
    Lookup(settings, 1).Some? && Lookup(settings, 1).value.schoolName.Some? && Lookup(settings, 1).value.schoolName.value != []
  }

  /** `settings?.SchoolName || 'المدرسة'`: the stored name unless the row is missing or the name is NULL or empty. */
  function SchoolName(settings: seq<Row<SchoolSettings>>): (name: string)
    ensures name != []
    ensures NameSet(settings) ==> name == Lookup(settings, 1).value.schoolName.value
    ensures !NameSet(settings) ==> name == FallbackSchoolName
  {
    var row := Lookup(settings, 1);
    if row.Some? && row.value.schoolName.Some? && row.value.schoolName.value != [] then row.value.schoolName.value
    else FallbackSchoolName
  }

  // ---- The weekly chart: GROUP BY date(DateTime) ORDER BY date(DateTime). ----

  predicate LexLt(a: string, b: string)
  {
    Str.LexLe(a, b) && a != b
  }

  /** A cell the chart counts: its `date(...)` exists and is not before the start of the week. */
  predicate InWeek(c: Text, date: string -> Option<string>, weekStart: string)
  {
    c.Some? && date(c.value).Some? && Str.LexLe(weekStart, date(c.value).value)
  }

  /** `day` is the date of some counted cell. */
  predicate DateOfCounted(cells: seq<Text>, date: string -> Option<string>, weekStart: string, day: string)
  {
    exists i :: 0 <= i < |cells| && InWeek(cells[i], date, weekStart) && day == date(cells[i].value).value
  }

  function InWeekTest(date: string -> Option<string>, weekStart: string): Text -> bool
  {
    (c: Text) => InWeek(c, date, weekStart)
  }

  /**
   * The calendar dates, in scan order, of the visits the chart counts
   * (`date(DateTime) >= weekStart`): one per counted cell, and every counted
   * cell's date among them.
   */
  function WeekDays(cells: seq<Text>, date: string -> Option<string>, weekStart: string): (days: seq<string>)
    ensures |days| == Lists.Count(cells, InWeekTest(date, weekStart))
    ensures forall k :: 0 <= k < |days| ==> Str.LexLe(weekStart, days[k])
    ensures forall i :: 0 <= i < |cells| && InWeek(cells[i], date, weekStart) ==> date(cells[i].value).value in days
  {
    if cells == [] then []
    else
      var rest := WeekDays(cells[1..], date, weekStart);
      assert forall i :: 1 <= i < |cells| ==> cells[i] == cells[1..][i - 1];
      if InWeek(cells[0], date, weekStart) then
        [date(cells[0].value).value] + rest
      else rest
  }

  /** Every date the chart counts is the date of a counted cell. */
  lemma {:induction false} WeekDaysFromCounted(cells: seq<Text>, date: string -> Option<string>, weekStart: string)
    ensures forall k :: 0 <= k < |WeekDays(cells, date, weekStart)| ==>
              DateOfCounted(cells, date, weekStart, WeekDays(cells, date, weekStart)[k])
  {
    if cells != [] {
      var days := WeekDays(cells, date, weekStart);
      var rest := WeekDays(cells[1..], date, weekStart);
      WeekDaysFromCounted(cells[1..], date, weekStart);
      var off := if InWeek(cells[0], date, weekStart) then 1 else 0;
      assert days == (if off == 1 then [date(cells[0].value).value] else []) + rest;
      forall k | 0 <= k < |days|
        ensures DateOfCounted(cells, date, weekStart, days[k])
      {
        if k < off {
          assert InWeek(cells[0], date, weekStart) && days[k] == date(cells[0].value).value;
        } else {
          assert days[k] == rest[k - off];
          var i :| 0 <= i < |cells[1..]| && InWeek(cells[1..][i], date, weekStart) && rest[k - off] == date(cells[1..][i].value).value;
          assert cells[i + 1] == cells[1..][i];
        }
      }
    }
  }

  /** The groups, one per date, dates strictly ascending. */
  predicate DatesAscending(hist: seq<DayCount>)
  {
    forall i, j :: 0 <= i < j < |hist| ==> LexLt(hist[i].date, hist[j].date)
  }

  /** The count `hist` gives day `d`, 0 when it has no group for it. */
  function CountFor(hist: seq<DayCount>, d: string): nat
  {
    if hist == [] then 0 else if hist[0].date == d then hist[0].count else CountFor(hist[1..], d)
  }

  function Total(hist: seq<DayCount>): nat
  {
    if hist == [] then 0 else hist[0].count + Total(hist[1..])
  }

  /** `hist` is the grouping of the dates in `m`: ascending, no empty group, and each date counted as often as it occurs. */
  ghost predicate Groups(hist: seq<DayCount>, m: multiset<string>)
  {
    && DatesAscending(hist)
    && (forall k :: 0 <= k < |hist| ==> hist[k].count >= 1)
    && (forall e :: CountFor(hist, e) == m[e])
  }

  /** In ascending groups the count of a present day is the count of its group. */
  lemma {:induction false} CountForAt(hist: seq<DayCount>, k: int)
    requires DatesAscending(hist) && 0 <= k < |hist|
    ensures CountFor(hist, hist[k].date) == hist[k].count
  {
    if k > 0 {
      assert hist[0].date != hist[k].date;
      CountForAt(hist[1..], k - 1);
    }
  }

  /** A day with no group counts 0. */
  lemma {:induction false} CountForAbsent(hist: seq<DayCount>, d: string)
    requires forall k :: 0 <= k < |hist| ==> hist[k].date != d
    ensures CountFor(hist, d) == 0
  {
    if hist != [] {
      CountForAbsent(hist[1..], d);
    }
  }

  /** What a grouping says group by group: each group carries its date's multiplicity, and every date has a group. */
  lemma GroupsExplained(hist: seq<DayCount>, m: multiset<string>)
    requires Groups(hist, m)
    ensures forall k :: 0 <= k < |hist| ==> hist[k].count == m[hist[k].date]
    ensures forall e :: e in m ==> exists k :: 0 <= k < |hist| && hist[k].date == e
  {
    forall k | 0 <= k < |hist| ensures hist[k].count == m[hist[k].date] {
      CountForAt(hist, k);
    }
    forall e | e in m ensures exists k :: 0 <= k < |hist| && hist[k].date == e {
      if forall k :: 0 <= k < |hist| ==> hist[k].date != e {
        CountForAbsent(hist, e);
      }
    }
  }

  /** Adds one visit on day `d` to the groups. */
  function Tally(hist: seq<DayCount>, d: string): (r: seq<DayCount>)
    requires DatesAscending(hist)
    ensures DatesAscending(r) && r != []
    ensures r[0].date == d || (hist != [] && r[0].date == hist[0].date)
  {
    if hist == [] then [DayCount(d, 1)]
    else if hist[0].date == d then [DayCount(d, hist[0].count + 1)] + hist[1..]
    else if Str.LexLe(d, hist[0].date) then
      assert forall i :: 0 <= i < |hist| ==> LexLt(d, hist[i].date) by {
        forall i | 0 <= i < |hist| ensures LexLt(d, hist[i].date) {
          if i > 0 {
            Str.LexLeTransitive(d, hist[0].date, hist[i].date);
            if d == hist[i].date { Str.LexLeAntisymmetric(d, hist[0].date); }
          }
        }
      }
      [DayCount(d, 1)] + hist
    else
      Str.LexLeTotal(d, hist[0].date);
      var rest := Tally(hist[1..], d);
      assert forall j :: 0 <= j < |rest| ==> LexLt(hist[0].date, rest[j].date) by {
        forall j | 0 <= j < |rest| ensures LexLt(hist[0].date, rest[j].date) {
          assert LexLt(hist[0].date, rest[0].date);
          if j > 0 {
            Str.LexLeTransitive(hist[0].date, rest[0].date, rest[j].date);
            if hist[0].date == rest[j].date { Str.LexLeAntisymmetric(hist[0].date, rest[0].date); }
          }
        }
      }
      [hist[0]] + rest
  }

  /** Tallying day `d` adds one to its count and leaves every other day's count alone. */
  lemma {:induction false} TallyCounts(hist: seq<DayCount>, d: string, e: string)
    requires DatesAscending(hist)
    ensures CountFor(Tally(hist, d), e) == CountFor(hist, e) + (if e == d then 1 else 0)
  {
    if hist != [] && hist[0].date != d && !Str.LexLe(d, hist[0].date) {
      TallyCounts(hist[1..], d, e);
    } else if hist != [] && hist[0].date != d {
      assert Tally(hist, d)[1..] == hist;
      if e == d {
        assert forall k :: 0 <= k < |hist| ==> hist[k].date != d;
        CountForAbsent(hist, d);
      }
    }
  }

  /** Tallying adds one to the total and never leaves an empty group. */
  lemma {:induction false} TallyTotal(hist: seq<DayCount>, d: string)
    requires DatesAscending(hist)
    ensures Total(Tally(hist, d)) == Total(hist) + 1
    ensures (forall k :: 0 <= k < |hist| ==> hist[k].count >= 1) ==>
              forall k :: 0 <= k < |Tally(hist, d)| ==> Tally(hist, d)[k].count >= 1
  {
    var r := Tally(hist, d);
    if hist == [] {
    } else if hist[0].date == d {
      assert r[1..] == hist[1..];
    } else if Str.LexLe(d, hist[0].date) {
      assert r[1..] == hist;
    } else {
      TallyTotal(hist[1..], d);
      assert r[1..] == Tally(hist[1..], d);
    }
  }

  /** Grouping the dates one visit at a time. */
  function Histogram(days: seq<string>): (hist: seq<DayCount>)
    ensures DatesAscending(hist)
  {
    if days == [] then [] else Tally(Histogram(days[..|days| - 1]), days[|days| - 1])
  }

  /** The histogram groups exactly the dates it was built from. */
  lemma {:induction false} HistogramGroups(days: seq<string>)
    ensures Groups(Histogram(days), multiset(days))
    ensures Total(Histogram(days)) == |days|
  {
    if days != [] {
      var init := days[..|days| - 1];
      var d := days[|days| - 1];
      assert days == init + [d];
      HistogramGroups(init);
      var h := Histogram(init);
      TallyTotal(h, d);
      forall e ensures CountFor(Tally(h, d), e) == multiset(days)[e] {
        TallyCounts(h, d, e);
      }
    }
  }

  /** The weekly chart of the visits table. */
  function WeeklyStats(rows: seq<Row<Visit>>, date: string -> Option<string>, weekStart: string): (hist: seq<DayCount>)
    ensures DatesAscending(hist)
    ensures forall k :: 0 <= k < |hist| ==> Str.LexLe(weekStart, hist[k].date) && hist[k].count >= 1
  {
    var days := WeekDays(Column(rows, VisitTime), date, weekStart);
    HistogramGroups(days);
    GroupsExplained(Histogram(days), multiset(days));
    assert forall k :: 0 <= k < |Histogram(days)| ==> Histogram(days)[k].date in multiset(days);
    Histogram(days)
  }

  /**
   * The chart counts every visit of the week once: one group per day that has
   * visits, each with that day's number of visits, and the counts add up to
   * the number of visits since `weekStart`.
   */
  lemma WeeklyStatsCountEveryVisit(rows: seq<Row<Visit>>, date: string -> Option<string>, weekStart: string)
    ensures var days := WeekDays(Column(rows, VisitTime), date, weekStart);
            && Groups(WeeklyStats(rows, date, weekStart), multiset(days))
            && Total(WeeklyStats(rows, date, weekStart)) == |days|
  {
    HistogramGroups(WeekDays(Column(rows, VisitTime), date, weekStart));
  }

  /** GET /: the summary. */
  function Dashboard(st: DbState, date: string -> Option<string>, today: string, weekStart: string): (s: Summary)
    ensures s.visitsToday <= |st.visits.rows| && s.specialCases <= |st.followUps.rows| && s.referralsToday <= |st.referrals.rows|
    ensures s.schoolName != []
    ensures DatesAscending(s.weeklyStats)
  {
    Summary(SchoolName(st.settings.rows),
            CountOn(Column(st.visits.rows, VisitTime), date, today),
            CountOn(Column(st.followUps.rows, FollowUpDate), date, today),
            CountOn(Column(st.referrals.rows, ReferralTime), date, today),
            WeeklyStats(st.visits.rows, date, weekStart))
  }
}
