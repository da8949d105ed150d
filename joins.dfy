/**
 * The listing queries of the record routes: a table joined with the student
 * each row names (and, for most tables, with the user who created it), then
 * `ORDER BY <date column> DESC`. An inner join drops the rows whose partner
 * does not exist.
 */
module Joins {
  import opened Wrappers
  import opened Tables
  import opened Schema
  import opened Lists

  /** A listed row with the student's columns and, when Users is joined, the creator's username. */
  datatype Joined<T> = Joined(row: Row<T>, student: Student, createdBy: Option<string>)

  /** The references that name this row's partners; `withUsers` tells whether Users is joined too. */
  datatype Links<!T> = Links(studentOf: T -> Option<int>, creatorOf: T -> Option<int>, withUsers: bool)

  /** The inner join finds partners for the row. */
  predicate Matched<T>(r: Row<T>, l: Links<T>, students: seq<Row<Student>>, users: seq<Row<User>>)
  {
    && l.studentOf(r.val).Some? && HasId(students, l.studentOf(r.val).value)
    && (l.withUsers ==> l.creatorOf(r.val).Some? && HasId(users, l.creatorOf(r.val).value))
  }

  /** The joined result for a matched row. */
  function JoinOne<T>(r: Row<T>, l: Links<T>, students: seq<Row<Student>>, users: seq<Row<User>>): (j: Joined<T>)
    requires Matched(r, l, students, users)
    ensures j.row == r && j.createdBy.Some? == l.withUsers
    ensures Row(l.studentOf(r.val).value, j.student) in students
    ensures l.withUsers ==> exists u :: Row(l.creatorOf(r.val).value, u) in users && j.createdBy == Some(u.username)
  {
    var s := Lookup(students, l.studentOf(r.val).value).value;
    if l.withUsers then
      var u := Lookup(users, l.creatorOf(r.val).value).value;
      Joined(r, s, Some(u.username))
    else Joined(r, s, None)
  }

  /** `j` is what the join makes of one of its rows. */
  predicate JoinedFrom<T(==)>(j: Joined<T>, l: Links<T>, students: seq<Row<Student>>, users: seq<Row<User>>)
  {
    Matched(j.row, l, students, users) && j == JoinOne(j.row, l, students, users)
  }

  /** The join in the scan order of `rows`. */
  function JoinRows<T(==)>(rows: seq<Row<T>>, l: Links<T>, students: seq<Row<Student>>, users: seq<Row<User>>): (r: seq<Joined<T>>)
    ensures |r| <= |rows|
    ensures forall k :: 0 <= k < |r| ==> r[k].row in rows && JoinedFrom(r[k], l, students, users)
    ensures forall i :: 0 <= i < |rows| && Matched(rows[i], l, students, users) ==> JoinOne(rows[i], l, students, users) in r
    ensures (forall i :: 0 <= i < |rows| ==> Matched(rows[i], l, students, users)) ==> |r| == |rows|
  {
    if rows == [] then []
    else
      var rest := JoinRows(rows[1..], l, students, users);
      assert forall k :: 0 <= k < |rest| ==> rest[k].row in rows;
      if Matched(rows[0], l, students, users) then [JoinOne(rows[0], l, students, users)] + rest
      else rest
  }

  /** The listing: the join sorted by `key`, descending, NULL keys last. */
  function Listing<T(==)>(rows: seq<Row<T>>, l: Links<T>, students: seq<Row<Student>>, users: seq<Row<User>>,
                      key: Joined<T> -> Option<string>): (r: seq<Joined<T>>)
    ensures SortedDesc(r, key)
    ensures multiset(r) == multiset(JoinRows(rows, l, students, users))
    ensures forall k :: 0 <= k < |r| ==> r[k].row in rows && JoinedFrom(r[k], l, students, users)
    ensures forall i :: 0 <= i < |rows| && Matched(rows[i], l, students, users) ==> JoinOne(rows[i], l, students, users) in r
    ensures |r| <= |rows|
    ensures (forall i :: 0 <= i < |rows| ==> Matched(rows[i], l, students, users)) ==> |r| == |rows|
  {
    var joined := JoinRows(rows, l, students, users);
    var r := SortDesc(joined, key);
    SameElements(r, joined);
    assert |r| == |multiset(r)| == |multiset(joined)| == |joined|;
    r
  }
}
