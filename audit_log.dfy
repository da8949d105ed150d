/**
 * server/routes/audit.ts: the audit trail, for Admin callers only. Every entry
 * is listed with its user's username (NULL when the user is gone), newest
 * first, at most 500 of them.
 */
module AuditRoutes {
  import opened Wrappers
  import opened Tables
  import opened Schema
  import Lists
  import opened Gate

  /** `LIMIT 500`. */
  const Limit := 500

  /** An audit row with the `Username` column the LEFT JOIN adds. */
  datatype LogLine = LogLine(row: Row<AuditEntry>, username: Option<string>)

  /** `LEFT JOIN Users u ON a.UserId = u.Id` for one entry: the username when the user exists. */
  function WithUsername(r: Row<AuditEntry>, users: seq<Row<User>>): (l: LogLine)
    ensures l.row == r
    ensures l.username.Some? <==> r.val.userId.Some? && HasId(users, r.val.userId.value)
    ensures l.username.Some? ==> exists u :: Row(r.val.userId.value, u) in users && u.username == l.username.value
  {
    if r.val.userId.Some? && HasId(users, r.val.userId.value) then
      LogLine(r, Some(Lookup(users, r.val.userId.value).value.username))
    else LogLine(r, None)
  }

  /** The left join keeps every entry, in scan order. */
  function LeftJoin(rows: seq<Row<AuditEntry>>, users: seq<Row<User>>): (r: seq<LogLine>)
    ensures |r| == |rows|
    ensures forall i :: 0 <= i < |rows| ==> r[i] == WithUsername(rows[i], users)
  {
    if rows == [] then [] else [WithUsername(rows[0], users)] + LeftJoin(rows[1..], users)
  }

  function ByDateTime(l: LogLine): Option<string>
  {
    Some(l.row.val.dateTime)
  }

  function Min(a: int, b: int): int
  {
    if a <= b then a else b
  }

  /** The query: the joined entries sorted newest first, cut at the limit. */
  function RecentLog(st: DbState): (r: seq<LogLine>)
    ensures |r| == Min(|st.audit.rows|, Limit)
    ensures Lists.SortedDesc(r, ByDateTime)
    ensures forall k :: 0 <= k < |r| ==> r[k].row in st.audit.rows && r[k] == WithUsername(r[k].row, st.users.rows)
    ensures multiset(r) <= multiset(LeftJoin(st.audit.rows, st.users.rows))
  {
    var joined := LeftJoin(st.audit.rows, st.users.rows);
    var sorted := Lists.SortDesc(joined, ByDateTime);
    Lists.SameElements(sorted, joined);
    var r := sorted[..Min(|sorted|, Limit)];
    Lists.PrefixWithin(sorted, |r|);
    Lists.SortedDescPrefix(sorted, ByDateTime, |r|);
    assert forall k :: 0 <= k < |r| ==> r[k].row in st.audit.rows && r[k] == WithUsername(r[k].row, st.users.rows) by {
      forall k | 0 <= k < |r| ensures r[k].row in st.audit.rows && r[k] == WithUsername(r[k].row, st.users.rows) {
        assert r[k] == sorted[k];
        var i :| 0 <= i < |joined| && joined[i] == sorted[k];
        assert joined[i].row == st.audit.rows[i];
      }
    }
    r
  }

  /** GET /: Admin only. */
  function AuditLog(ctx: Context, st: DbState): (r: Reply<seq<LogLine>>)
    ensures Admits([Admin], Some(ctx.user)) ==> r == Ok(RecentLog(st))
    ensures !Admits([Admin], Some(ctx.user)) ==> r == Forbidden()
  {
    if Admits([Admin], Some(ctx.user)) then Ok(RecentLog(st)) else Forbidden()
  }

  /**
   * The limit drops only the oldest entries: every entry of the log is listed,
   * or is no newer than every listed one.
   */
  lemma OnlyOlderEntriesDropped(st: DbState)
    ensures var r := RecentLog(st);
            forall i :: 0 <= i < |st.audit.rows| ==>
              WithUsername(st.audit.rows[i], st.users.rows) in r
              || forall k :: 0 <= k < |r| ==> Lists.KeyLe(Some(st.audit.rows[i].val.dateTime), Some(r[k].row.val.dateTime))
  {
    var joined := LeftJoin(st.audit.rows, st.users.rows);
    var sorted := Lists.SortDesc(joined, ByDateTime);
    var r := RecentLog(st);
    assert r == sorted[..Min(|sorted|, Limit)];
    forall i | 0 <= i < |st.audit.rows|
      ensures WithUsername(st.audit.rows[i], st.users.rows) in r
              || forall k :: 0 <= k < |r| ==> Lists.KeyLe(Some(st.audit.rows[i].val.dateTime), Some(r[k].row.val.dateTime))
    {
      var l := joined[i];
      Lists.SameElements(sorted, joined);
      var m :| 0 <= m < |sorted| && sorted[m] == l;
      if m >= |r| {
        assert forall k :: 0 <= k < |r| ==> r[k] == sorted[k];
      } else {
        assert r[m] == l;
      }
    }
  }

  /** An entry whose user is gone is still listed, with a NULL username. */
  lemma OrphanEntriesKept(st: DbState, i: int)
    requires 0 <= i < |st.audit.rows| && |st.audit.rows| <= Limit
    requires st.audit.rows[i].val.userId.Some? && !HasId(st.users.rows, st.audit.rows[i].val.userId.value)
    ensures LogLine(st.audit.rows[i], None) in RecentLog(st)
  {
    OnlyOlderEntriesDropped(st);
    var joined := LeftJoin(st.audit.rows, st.users.rows);
    var sorted := Lists.SortDesc(joined, ByDateTime);
    Lists.SameElements(sorted, joined);
    assert RecentLog(st) == sorted;
  }
}
