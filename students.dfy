/**
 * The student roster routes of server/routes/students.ts: the list, a single
 * insert, an update by Id, and the bulk import that skips names already on
 * the roster and runs as one transaction.
 */
module StudentRoutes {
  import opened Wrappers
  import opened Tables
  import opened Schema
  import opened Store

  /** The JSON body of POST / and PUT /:id. */
  datatype StudentBody = StudentBody(name: Text, grade: Text, phone: Text, isSpecialCase: Json, chronicCondition: Text)

  /** The row the body describes, with the special-case flag normalised to 0/1. */
  function FromBody(b: StudentBody): (s: Student)
    ensures s.name == b.name && s.grade == b.grade && s.phone == b.phone && s.chronicCondition == b.chronicCondition
    ensures s.isSpecialCase == Some(1) <==> Truthy(b.isSpecialCase)
    ensures s.isSpecialCase == Some(0) <==> !Truthy(b.isSpecialCase)
  {
    Student(b.name, b.grade, b.phone, Some(Bit(b.isSpecialCase)), b.chronicCondition)
  }

  /** The NOT NULL check SQLite applies to a Students row, column by column in declaration order. */
  function StudentCheck(s: Student): (r: Option<SqlError>)
    ensures r.None? <==> StudentStored(s)
    ensures s.name.None? ==> r == Some(NotNull("Students.Name"))
    ensures s.name.Some? && s.grade.None? ==> r == Some(NotNull("Students.Grade"))
  {
    if s.name.None? then Some(NotNull("Students.Name"))
    else if s.grade.None? then Some(NotNull("Students.Grade"))
    else None
  }

  /** GET /: every student row, in Id order, each with its Name and Grade. */
  method ListStudents(db: Database) returns (rows: seq<Row<Student>>)
    requires db.Valid()
    ensures rows == db.students.rows
    ensures Ascending(rows) && AllRows(rows, StudentStored)
  {
    rows := db.students.rows;
  }

  /**
   * POST /: inserts the row and answers with its new Id, logging CREATE_STUDENT
   * with that Id; a missing Name or Grade throws and nothing is written.
   */
  method CreateStudent(db: Database, ctx: Context, b: StudentBody) returns (reply: Reply<int>)
    requires db.Valid()
    modifies db
    ensures db.Valid()
    ensures StudentCheck(FromBody(b)).Some? ==>
              reply == Thrown(StudentCheck(FromBody(b)).value) && db.State() == old(db.State())
    ensures StudentCheck(FromBody(b)).None? ==>
              var id := NextId(old(db.students));
              && reply == Ok(id)
              && db.State() == Logged(old(db.State()).(students := Append(old(db.students), FromBody(b))),
                                      Entry(ctx, "CREATE_STUDENT", "Students", Some(id)))
  {
    var s := FromBody(b);
    var err := StudentCheck(s);
    if err.Some? {
      return Thrown(err.value);
    }
    var id := NextId(db.students);
    db.students := Append(db.students, s);
    LogAudit(db, Some(ctx.user.id), "CREATE_STUDENT", "Students", Some(id), ctx.ip, ctx.now);
    reply := Ok(id);
  }

  /** A created student is read back under the Id the reply gave; every other Id reads as before. */
  lemma CreateThenRead(t: Table<Student>, b: StudentBody, other: int)
    requires Valid(t) && other != NextId(t)
    ensures Lookup(Append(t, FromBody(b)).rows, NextId(t)) == Some(FromBody(b))
    ensures Lookup(Append(t, FromBody(b)).rows, other) == Lookup(t.rows, other)
  {
    AppendFind(t, FromBody(b));
  }

  /** The Students table after `UPDATE Students SET ... WHERE Id = ?`, or the NOT NULL failure it raises. */
  function UpdateStudents(t: Table<Student>, id: int, b: StudentBody): (r: Result<Table<Student>>)
    requires Valid(t) && AllRows(t.rows, StudentStored)
    ensures r.Failed? <==> HasId(t.rows, id) && !StudentStored(FromBody(b))
    ensures r.Failed? ==> Some(r.error) == StudentCheck(FromBody(b))
    ensures r.Done? ==> Valid(r.value) && AllRows(r.value.rows, StudentStored) && r.value.seqNo == t.seqNo
  {
    if HasId(t.rows, id) && StudentCheck(FromBody(b)).Some? then Failed(StudentCheck(FromBody(b)).value)
    else
      var f := (_: Student) => FromBody(b);
      ModifyValid(t, id, f);
      if !HasId(t.rows, id) then ModifyAbsent(t.rows, id, f); Done(t.(rows := Modify(t.rows, id, f)))
      else Done(t.(rows := Modify(t.rows, id, f)))
  }

  /**
   * PUT /:id: rewrites the five columns of the row with that Id and logs
   * UPDATE_STUDENT with the Id, whether or not such a row exists; a NOT NULL
   * failure on an existing row throws before anything is logged.
   */
  method UpdateStudent(db: Database, ctx: Context, id: int, b: StudentBody) returns (reply: Reply<Ack>)
    requires db.Valid()
    modifies db
    ensures db.Valid()
    ensures match UpdateStudents(old(db.students), id, b)
            case Failed(e) => reply == Thrown(e) && db.State() == old(db.State())
            case Done(t) =>
              reply == Ok(Success)
              && db.State() == Logged(old(db.State()).(students := t), Entry(ctx, "UPDATE_STUDENT", "Students", Some(id)))
  {
    var r := UpdateStudents(db.students, id, b);
    if r.Failed? {
      return Thrown(r.error);
    }
    db.students := r.value;
    LogAudit(db, Some(ctx.user.id), "UPDATE_STUDENT", "Students", Some(id), ctx.ip, ctx.now);
    reply := Ok(Success);
  }

  /** An update reads back as the body on its own row, and changes no other row; on a missing Id it changes nothing. */
  lemma UpdateThenRead(t: Table<Student>, id: int, b: StudentBody, other: int)
    requires Valid(t) && AllRows(t.rows, StudentStored) && other != id
    requires UpdateStudents(t, id, b).Done?
    ensures HasId(t.rows, id) ==> Lookup(UpdateStudents(t, id, b).value.rows, id) == Some(FromBody(b))
    ensures !HasId(t.rows, id) ==> UpdateStudents(t, id, b).value == t
    ensures Lookup(UpdateStudents(t, id, b).value.rows, other) == Lookup(t.rows, other)
  {
    var f := (_: Student) => FromBody(b);
    var m := Modify(t.rows, id, f);
    assert UpdateStudents(t, id, b).value.rows == m;
    if HasId(t.rows, id) {
      ModifyFind(t.rows, id, f);
    } else {
      ModifyAbsent(t.rows, id, f);
    }
    ModifyOther(t.rows, id, f, other);
  }

  // ---- POST /bulk ----

  const Unspecified := "غير محدد"
  const ImportFailed := "فشل استيراد البيانات"

  /** One element of the bulk body. */
  datatype BulkItem = BulkItem(name: Text, grade: Text, phone: Text)

  /** The row the bulk insert writes: a missing or empty grade becomes "unspecified"; flag 0, no condition. */
  function Imported(it: BulkItem): (s: Student)
    ensures s.name == it.name && s.phone == it.phone
    ensures s.grade.Some? && s.grade.value != ""
    ensures it.grade.Some? && it.grade.value != "" ==> s.grade == it.grade
    ensures s.isSpecialCase == Some(0) && s.chronicCondition.None?
  {
    Student(it.name, if it.grade.None? || it.grade.value == "" then Some(Unspecified) else it.grade,
            it.phone, Some(0), None)
  }

  /** `SELECT Id FROM Students WHERE Name = ?` finds a row (a NULL name never matches). */
  predicate NameTaken(rows: seq<Row<Student>>, name: Text)
  {
    name.Some? && exists i :: 0 <= i < |rows| && rows[i].val.name == name
  }

  /** One element of the transaction: a taken name is skipped, a missing one aborts, any other is inserted. */
  function BulkNext(u: Table<Student>, c: nat, it: BulkItem): (r: Result<(Table<Student>, nat)>)
    requires Valid(u) && AllRows(u.rows, StudentStored)
    ensures r.Done? ==> Valid(r.value.0) && AllRows(r.value.0.rows, StudentStored)
    ensures r.Done? ==> r.value.1 - c in {0, 1} && |r.value.0.rows| == |u.rows| + r.value.1 - c
    ensures r.Done? ==> r.value.0.rows[..|u.rows|] == u.rows && r.value.0.seqNo == u.seqNo + r.value.1 - c
    ensures r.Failed? <==> !NameTaken(u.rows, it.name) && it.name.None?
    ensures r.Failed? ==> r.error == NotNull("Students.Name")
    ensures NameTaken(u.rows, it.name) ==> r == Done((u, c))
    ensures !NameTaken(u.rows, it.name) && it.name.Some? ==>
              r.Done? && r.value.0.rows == u.rows + [Row(NextId(u), Imported(it))] && r.value.1 == c + 1
  {
    if NameTaken(u.rows, it.name) then Done((u, c))
    else if it.name.None? then Failed(NotNull("Students.Name"))
    else
      assert u.rows + [Row(NextId(u), Imported(it))] == Append(u, Imported(it)).rows;
      Done((Append(u, Imported(it)), c + 1))
  }

  /**
   * The transaction over the first `|items|` elements, one after the other:
   * the Students table it leaves and the number of rows it inserted, or the
   * failure that aborts it (a row without a Name).
   */
  function BulkRun(t: Table<Student>, items: seq<BulkItem>): (r: Result<(Table<Student>, nat)>)
    requires Valid(t) && AllRows(t.rows, StudentStored)
    ensures r.Done? ==> Valid(r.value.0) && AllRows(r.value.0.rows, StudentStored)
    ensures r.Done? ==> |r.value.0.rows| == |t.rows| + r.value.1 && r.value.0.rows[..|t.rows|] == t.rows
    ensures r.Done? ==> r.value.0.seqNo == t.seqNo + r.value.1
    ensures r.Failed? ==> r.error == NotNull("Students.Name")
    decreases |items|
  {
    if items == [] then Done((t, 0))
    else
      match BulkRun(t, items[..|items| - 1])
      case Failed(e) => Failed(e)
      case Done((u, c)) =>
        var r := BulkNext(u, c, items[|items| - 1]);
        assert r.Done? ==> r.value.0.rows[..|t.rows|] == t.rows by {
          if r.Done? {
            assert r.value.0.rows[..|u.rows|][..|t.rows|] == t.rows;
          }
        }
        r
  }

  /**
   * POST /bulk: the whole array in one transaction. On success the inserted
   * rows stay, BULK_IMPORT_STUDENTS is logged with record 0 and the count is
   * returned; on failure nothing at all is written and the answer is a 500.
   */
  method BulkImport(db: Database, ctx: Context, items: seq<BulkItem>) returns (reply: Reply<nat>)
    requires db.Valid()
    modifies db
    ensures db.Valid()
    ensures match BulkRun(old(db.students), items)
            case Failed(_) => reply == Error(500, ImportFailed) && db.State() == old(db.State())
            case Done((t, c)) =>
              reply == Ok(c)
              && db.State() == Logged(old(db.State()).(students := t),
                                      Entry(ctx, "BULK_IMPORT_STUDENTS", "Students", Some(0)))
  {
    var r := BulkTransaction(db.students, items);
    if r.Failed? {
      return Error(500, ImportFailed);
    }
    WithStudents(db.State(), r.value.0);
    db.students := r.value.0;
    LogAudit(db, Some(ctx.user.id), "BULK_IMPORT_STUDENTS", "Students", Some(0), ctx.ip, ctx.now);
    reply := Ok(r.value.1);
  }

  /** The insert loop of the transaction: one element after the other, stopping at the first failure. */
  method BulkTransaction(t: Table<Student>, items: seq<BulkItem>) returns (r: Result<(Table<Student>, nat)>)
    requires Valid(t) && AllRows(t.rows, StudentStored)
    ensures r == BulkRun(t, items)
  {
    var students := t;
    var count := 0;
    var i := 0;
    while i < |items|
      invariant 0 <= i <= |items|
      invariant BulkRun(t, items[..i]) == Done((students, count))
    {
      BulkStep(t, items, i);
      var it := items[i];
      var existing := NameTaken(students.rows, it.name);
      if !existing {
        if it.name.None? {
          BulkFailsWithPrefix(t, items, i + 1);
          return Failed(NotNull("Students.Name"));
        }
        students := Append(students, Imported(it));
        count := count + 1;
      }
      i := i + 1;
    }
    assert items[..i] == items;
    r := Done((students, count));
  }

  /** The transaction over one more element: skip a taken name, abort on a missing one, else append. */
  lemma BulkStep(t: Table<Student>, items: seq<BulkItem>, i: int)
    requires Valid(t) && AllRows(t.rows, StudentStored)
    requires 0 <= i < |items| && BulkRun(t, items[..i]).Done?
    ensures var r := BulkRun(t, items[..i]).value;
            BulkRun(t, items[..i + 1]) == BulkNext(r.0, r.1, items[i])
  {
    var prefix := items[..i + 1];
    assert prefix[..|prefix| - 1] == items[..i] && prefix[|prefix| - 1] == items[i];
  }

  /** Replacing the Students table by one that keeps its constraints keeps the database well formed. */
  lemma WithStudents(st: DbState, students: Table<Student>)
    requires WellFormed(st) && Valid(students) && AllRows(students.rows, StudentStored)
    ensures WellFormed(st.(students := students))
  {
  }

  /** A transaction that aborts on a prefix aborts on the whole array. */
  lemma {:induction false} BulkFailsWithPrefix(t: Table<Student>, items: seq<BulkItem>, k: nat)
    requires Valid(t) && AllRows(t.rows, StudentStored)
    requires k <= |items| && BulkRun(t, items[..k]).Failed?
    ensures BulkRun(t, items).Failed?
    decreases |items| - k
  {
    if k < |items| {
      assert items[..k + 1][..k] == items[..k];
      BulkFailsWithPrefix(t, items, k + 1);
    } else {
      assert items[..k] == items;
    }
  }

  /** The import aborts exactly when some element has no name. */
  lemma {:induction false} BulkFailsIffNameMissing(t: Table<Student>, items: seq<BulkItem>)
    requires Valid(t) && AllRows(t.rows, StudentStored)
    ensures BulkRun(t, items).Failed? <==> exists i :: 0 <= i < |items| && items[i].name.None?
    decreases |items|
  {
    if items != [] {
      var init := items[..|items| - 1];
      BulkFailsIffNameMissing(t, init);
      if exists i :: 0 <= i < |init| && init[i].name.None? {
        var i :| 0 <= i < |init| && init[i].name.None?;
        assert items[i].name.None?;
      }
      if exists i :: 0 <= i < |items| && items[i].name.None? {
        var i :| 0 <= i < |items| && items[i].name.None?;
        if i < |init| {
          assert init[i].name.None?;
        }
      }
    }
  }

  /** After a successful import every named element is on the roster. */
  lemma {:induction false} BulkNamesPresent(t: Table<Student>, items: seq<BulkItem>)
    requires Valid(t) && AllRows(t.rows, StudentStored)
    requires BulkRun(t, items).Done?
    ensures forall i :: 0 <= i < |items| && items[i].name.Some? ==> NameTaken(BulkRun(t, items).value.0.rows, items[i].name)
    decreases |items|
  {
    if items != [] {
      var init, last := items[..|items| - 1], items[|items| - 1];
      BulkNamesPresent(t, init);
      BulkLast(t, items);
      var u := BulkRun(t, init).value.0;
      assert items == init + [last];
      StepKeepsNames(u.rows, BulkRun(t, items).value.0.rows, init, last, Row(NextId(u), Imported(last)));
    }
  }

  /** One step of the import keeps every name already on the roster and adds the new one. */
  lemma StepKeepsNames(u: seq<Row<Student>>, w: seq<Row<Student>>, init: seq<BulkItem>, last: BulkItem, added: Row<Student>)
    requires forall i :: 0 <= i < |init| && init[i].name.Some? ==> NameTaken(u, init[i].name)
    requires NameTaken(u, last.name) ==> w == u
    requires !NameTaken(u, last.name) ==> last.name.Some? && w == u + [added] && added.val.name == last.name
    ensures forall i :: 0 <= i < |init + [last]| && (init + [last])[i].name.Some? ==> NameTaken(w, (init + [last])[i].name)
  {
    assert |u| <= |w| && w[..|u|] == u;
    forall i | 0 <= i < |init + [last]| && (init + [last])[i].name.Some?
      ensures NameTaken(w, (init + [last])[i].name)
    {
      if i < |init| {
        assert (init + [last])[i] == init[i];
        TakenInPrefix(u, w, init[i].name);
      } else if NameTaken(u, last.name) {
        assert w == u;
      } else {
        assert w[|u|] == added;
      }
    }
  }

  /** The last element of a successful import: skipped when its name is taken, else inserted at the end. */
  lemma BulkLast(t: Table<Student>, items: seq<BulkItem>)
    requires Valid(t) && AllRows(t.rows, StudentStored)
    requires items != [] && BulkRun(t, items).Done?
    ensures BulkRun(t, items[..|items| - 1]).Done?
    ensures var u := BulkRun(t, items[..|items| - 1]).value.0;
            var w := BulkRun(t, items).value.0;
            var last := items[|items| - 1];
            && (NameTaken(u.rows, last.name) ==> w == u)
            && (!NameTaken(u.rows, last.name) ==> last.name.Some? && w.rows == u.rows + [Row(NextId(u), Imported(last))])
  {
  }

  /** A name on a roster is still on it after rows are appended. */
  lemma TakenInPrefix(u: seq<Row<Student>>, w: seq<Row<Student>>, name: Text)
    requires |u| <= |w| && w[..|u|] == u && NameTaken(u, name)
    ensures NameTaken(w, name)
  {
    var k :| 0 <= k < |u| && u[k].val.name == name;
    assert w[k] == u[k];
  }

  /** Elements whose names are all on the roster already insert nothing and change nothing. */
  lemma {:induction false} BulkAllPresent(t: Table<Student>, items: seq<BulkItem>)
    requires Valid(t) && AllRows(t.rows, StudentStored)
    requires forall i :: 0 <= i < |items| ==> NameTaken(t.rows, items[i].name)
    ensures BulkRun(t, items) == Done((t, 0))
    decreases |items|
  {
    if items != [] {
      BulkAllPresent(t, items[..|items| - 1]);
    }
  }

  /** Importing the same array a second time inserts nothing. */
  lemma BulkIdempotent(t: Table<Student>, items: seq<BulkItem>)
    requires Valid(t) && AllRows(t.rows, StudentStored)
    requires BulkRun(t, items).Done?
    ensures var u := BulkRun(t, items).value.0; BulkRun(u, items) == Done((u, 0))
  {
    BulkFailsIffNameMissing(t, items);
    BulkNamesPresent(t, items);
    BulkAllPresent(BulkRun(t, items).value.0, items);
  }

  /** Every inserted row carries a name no earlier row (old or new) has: the import adds no duplicate name. */
  lemma {:induction false} BulkAddsNoDuplicate(t: Table<Student>, items: seq<BulkItem>)
    requires Valid(t) && AllRows(t.rows, StudentStored)
    requires BulkRun(t, items).Done?
    ensures var w := BulkRun(t, items).value.0;
            forall i, j :: 0 <= i < j < |w.rows| && |t.rows| <= j ==> w.rows[i].val.name != w.rows[j].val.name
    decreases |items|
  {
    if items != [] {
      var init := items[..|items| - 1];
      BulkAddsNoDuplicate(t, init);
      var u := BulkRun(t, init).value.0;
      var w := BulkRun(t, items).value.0;
      if w != u {
        var it := items[|items| - 1];
        assert w.rows == u.rows + [Row(NextId(u), Imported(it))];
        forall i, j | 0 <= i < j < |w.rows| && |t.rows| <= j
          ensures w.rows[i].val.name != w.rows[j].val.name
        {
          if j == |u.rows| {
            assert w.rows[i] == u.rows[i];
            assert !NameTaken(u.rows, it.name);
          } else {
            assert w.rows[i] == u.rows[i] && w.rows[j] == u.rows[j];
          }
        }
      }
    }
  }
}
