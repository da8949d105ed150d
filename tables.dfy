/**
 * A relational table as SQLite keeps it for `INTEGER PRIMARY KEY AUTOINCREMENT`:
 * rows in ascending Id order (the order a full scan returns them) and the
 * high-water mark that `sqlite_sequence` records, from which the next
 * automatically assigned Id is taken.
 */
module Tables {
  import opened Wrappers

  datatype Row<T> = Row(id: int, val: T)

  datatype Table<T> = Table(rows: seq<Row<T>>, seqNo: int)

  /** The constraint failures the store can raise. */
  datatype SqlError =
    | NotNull(column: string)
    | Unique(column: string)
    | ForeignKey

  /** The text SQLite gives the failure. */
  function Message(e: SqlError): string
  {
    match e
    case NotNull(c) => "NOT NULL constraint failed: " + c
    case Unique(c) => "UNIQUE constraint failed: " + c
    case ForeignKey => "FOREIGN KEY constraint failed"
  }

  datatype Result<T> = Done(value: T) | Failed(error: SqlError)

  predicate Ascending<T>(rows: seq<Row<T>>)
  {
    forall i, j :: 0 <= i < j < |rows| ==> rows[i].id < rows[j].id
  }

  /** Ascending Ids are at least one apart: the last exceeds the first by at least the length minus one. */
  lemma {:induction false} IdSpread<T>(rows: seq<Row<T>>)
    requires Ascending(rows) && rows != []
    ensures rows[|rows| - 1].id >= rows[0].id + |rows| - 1
  {
    if |rows| > 1 {
      IdSpread(rows[1..]);
      assert rows[1..][|rows| - 2] == rows[|rows| - 1];
    }
  }

  /** Ids are unique and ordered, and none exceeds the AUTOINCREMENT mark. */
  predicate Valid<T>(t: Table<T>)
  {
    Ascending(t.rows) && forall i :: 0 <= i < |t.rows| ==> t.rows[i].id <= t.seqNo
  }

  predicate HasId<T>(rows: seq<Row<T>>, id: int)
  {
    exists i :: 0 <= i < |rows| && rows[i].id == id
  }

  /** `SELECT ... WHERE Id = ?`: the row with that Id, if any. */
  function Lookup<T>(rows: seq<Row<T>>, id: int): (r: Option<T>)
    ensures r.Some? <==> HasId(rows, id)
    ensures r.Some? ==> Row(id, r.value) in rows
    ensures Ascending(rows) ==> forall i :: 0 <= i < |rows| && rows[i].id == id ==> r == Some(rows[i].val)
  {
    if rows == [] then None
    else if rows[0].id == id then Some(rows[0].val)
    else
      assert HasId(rows, id) ==> HasId(rows[1..], id) by {
        if HasId(rows, id) {
          var i :| 0 <= i < |rows| && rows[i].id == id;
          assert rows[1..][i - 1].id == id;
        }
      }
      assert forall i :: 1 <= i < |rows| ==> rows[1..][i - 1] == rows[i];
      Lookup(rows[1..], id)
  }

  /** The Id AUTOINCREMENT hands out next. */
  function NextId<T>(t: Table<T>): int
  {
    t.seqNo + 1
  }

  /** `INSERT` without an Id: the row gets a fresh Id above every Id ever used. */
  function Append<T>(t: Table<T>, v: T): (r: Table<T>)
    requires Valid(t)
    ensures Valid(r) && !HasId(t.rows, NextId(t))
    ensures r.rows == t.rows + [Row(NextId(t), v)] && r.seqNo == NextId(t)
  {
    Table(t.rows + [Row(NextId(t), v)], NextId(t))
  }

  /** The row an INSERT adds is found again under the Id it was given. */
  lemma AppendFind<T>(t: Table<T>, v: T)
    requires Valid(t)
    ensures Lookup(Append(t, v).rows, NextId(t)) == Some(v)
    ensures forall id :: id != NextId(t) ==> Lookup(Append(t, v).rows, id) == Lookup(t.rows, id)
  {
    var r := Append(t, v).rows;
    assert r[|t.rows|] == Row(NextId(t), v);
    forall id | id != NextId(t)
      ensures Lookup(r, id) == Lookup(t.rows, id)
    {
      if HasId(t.rows, id) {
        var i :| 0 <= i < |t.rows| && t.rows[i].id == id;
        assert r[i] == t.rows[i];
      }
    }
  }

  /** A row below every Id of an ascending table can go in front of it. */
  lemma ConsAscending<T>(x: Row<T>, rows: seq<Row<T>>)
    requires Ascending(rows) && forall i :: 0 <= i < |rows| ==> x.id < rows[i].id
    ensures Ascending([x] + rows)
  {
    assert forall i :: 0 <= i < |rows| ==> ([x] + rows)[i + 1] == rows[i];
  }

  /** Inserts a row at its place in Id order. */
  function Place<T>(rows: seq<Row<T>>, r: Row<T>): (out: seq<Row<T>>)
    requires Ascending(rows) && !HasId(rows, r.id)
    ensures |out| == |rows| + 1
    ensures forall i :: 0 <= i < |out| ==> out[i] == r || out[i] in rows
    ensures Ascending(out) && multiset(out) == multiset(rows) + multiset{r}
  {
    if rows == [] || r.id < rows[0].id then
      ConsAscending(r, rows);
      [r] + rows
    else
      var tail := rows[1..];
      assert rows == [rows[0]] + tail;
      assert !HasId(tail, r.id);
      var rest := Place(tail, r);
      assert rows[0].id < r.id;
      assert forall i :: 0 <= i < |rest| ==> rows[0].id < rest[i].id by {
        forall i | 0 <= i < |rest| ensures rows[0].id < rest[i].id {
          if rest[i] != r {
            var k :| 0 <= k < |tail| && tail[k] == rest[i];
            assert tail[k] == rows[k + 1];
          }
        }
      }
      ConsAscending(rows[0], rest);
      [rows[0]] + rest
  }

  /** A row placed after every existing Id is simply appended. */
  lemma {:induction false} PlaceLast<T>(rows: seq<Row<T>>, r: Row<T>)
    requires Ascending(rows) && forall i :: 0 <= i < |rows| ==> rows[i].id < r.id
    ensures !HasId(rows, r.id) && Place(rows, r) == rows + [r]
  {
    if rows != [] {
      PlaceLast(rows[1..], r);
      assert [rows[0]] + (rows[1..] + [r]) == rows + [r];
    }
  }

  /** `INSERT` with an explicit Id: fails on a taken Id, else keeps the Id and raises the mark. */
  function Put<T>(t: Table<T>, id: int, v: T, pk: string): (r: Result<Table<T>>)
    requires Valid(t)
    ensures r.Failed? <==> HasId(t.rows, id)
    ensures r.Failed? ==> r.error == Unique(pk)
    ensures r.Done? ==> Valid(r.value) && r.value.seqNo == Max(t.seqNo, id)
    ensures r.Done? ==> multiset(r.value.rows) == multiset(t.rows) + multiset{Row(id, v)}
  {
    if HasId(t.rows, id) then Failed(Unique(pk))
    else Done(Table(Place(t.rows, Row(id, v)), Max(t.seqNo, id)))
  }

  /** `INSERT` whose Id value may be NULL, in which case AUTOINCREMENT assigns one. */
  function Load<T>(t: Table<T>, id: Option<int>, v: T, pk: string): (r: Result<Table<T>>)
    requires Valid(t)
    ensures r.Done? ==> Valid(r.value) && |r.value.rows| == |t.rows| + 1
    ensures r.Failed? <==> id.Some? && HasId(t.rows, id.value)
    ensures r.Done? ==> multiset(r.value.rows) == multiset(t.rows) + multiset{Row(id.GetOr(NextId(t)), v)}
  {
    match id
    case None => Done(Append(t, v))
    case Some(k) => Put(t, k, v, pk)
  }

  /** `UPDATE ... WHERE Id = ?`: rewrites the row with that Id (if any), nothing else. */
  function Modify<T>(rows: seq<Row<T>>, id: int, f: T -> T): (out: seq<Row<T>>)
    ensures |out| == |rows|
    ensures forall i :: 0 <= i < |rows| ==> out[i].id == rows[i].id
    ensures forall i :: 0 <= i < |rows| && rows[i].id != id ==> out[i] == rows[i]
    ensures forall i :: 0 <= i < |rows| && rows[i].id == id ==> out[i].val == f(rows[i].val)
  {
    if rows == [] then []
    else [if rows[0].id == id then Row(id, f(rows[0].val)) else rows[0]] + Modify(rows[1..], id, f)
  }

  /** After an UPDATE of an existing row, reading it back gives the updated value. */
  lemma ModifyFind<T>(rows: seq<Row<T>>, id: int, f: T -> T)
    requires Ascending(rows) && HasId(rows, id)
    ensures Lookup(Modify(rows, id, f), id) == Some(f(Lookup(rows, id).value))
  {
    var i :| 0 <= i < |rows| && rows[i].id == id;
    var m := Modify(rows, id, f);
    assert Ascending(m);
    assert Lookup(rows, id) == Some(rows[i].val);
    assert m[i] == Row(id, f(rows[i].val));
  }

  /** An UPDATE leaves every other Id reading as before. */
  lemma ModifyOther<T>(rows: seq<Row<T>>, id: int, f: T -> T, other: int)
    requires Ascending(rows) && other != id
    ensures Lookup(Modify(rows, id, f), other) == Lookup(rows, other)
  {
    var m := Modify(rows, id, f);
    assert Ascending(m);
    if HasId(rows, other) {
      var i :| 0 <= i < |rows| && rows[i].id == other;
      assert m[i] == rows[i];
    }
  }

  /** An update that is idempotent on every row is idempotent as a statement. */
  lemma ModifyTwice<T>(rows: seq<Row<T>>, id: int, f: T -> T)
    requires forall i :: 0 <= i < |rows| ==> f(f(rows[i].val)) == f(rows[i].val)
    ensures Modify(Modify(rows, id, f), id, f) == Modify(rows, id, f)
  {
    var m := Modify(rows, id, f);
    assert forall i :: 0 <= i < |m| ==> Modify(m, id, f)[i] == m[i];
  }

  lemma ModifyValid<T>(t: Table<T>, id: int, f: T -> T)
    requires Valid(t)
    ensures Valid(t.(rows := Modify(t.rows, id, f)))
  {
  }

  /** Updating an Id no row has changes nothing. */
  lemma {:induction false} ModifyAbsent<T>(rows: seq<Row<T>>, id: int, f: T -> T)
    requires !HasId(rows, id)
    ensures Modify(rows, id, f) == rows
  {
    if rows != [] {
      assert rows[0].id != id;
      assert !HasId(rows[1..], id);
      ModifyAbsent(rows[1..], id, f);
    }
  }

  /** `DELETE ... WHERE Id = ?`: drops the row with that Id (if any), nothing else. */
  function Remove<T>(rows: seq<Row<T>>, id: int): (out: seq<Row<T>>)
    ensures |out| <= |rows|
    ensures forall i :: 0 <= i < |out| ==> out[i] in rows && out[i].id != id
    ensures forall i :: 0 <= i < |rows| && rows[i].id != id ==> rows[i] in out
    ensures Ascending(rows) ==> Ascending(out)
  {
    if rows == [] then []
    else if rows[0].id == id then Remove(rows[1..], id)
    else
      var rest := Remove(rows[1..], id);
      assert Ascending(rows) ==> Ascending([rows[0]] + rest) by {
        if Ascending(rows) {
          assert forall i :: 0 <= i < |rest| ==> rows[0].id < rest[i].id;
          ConsAscending(rows[0], rest);
        }
      }
      [rows[0]] + rest
  }

  /** After the DELETE the Id reads as absent; every other Id reads as before. */
  lemma RemoveFind<T>(rows: seq<Row<T>>, id: int, other: int)
    requires Ascending(rows)
    ensures Lookup(Remove(rows, id), id) == None
    ensures other != id ==> Lookup(Remove(rows, id), other) == Lookup(rows, other)
  {
    var out := Remove(rows, id);
    if other != id {
      if HasId(rows, other) {
        var i :| 0 <= i < |rows| && rows[i].id == other;
        assert rows[i] in out;
      } else {
        assert !HasId(out, other);
      }
    }
  }

  /** A row as a dump carries it: the Id may be absent (NULL). */
  datatype Keyed<T> = Keyed(id: Option<int>, val: T)

  /** The rows of a table as a dump of them, Ids included. */
  function Keys<T>(rows: seq<Row<T>>): (r: seq<Keyed<T>>)
    ensures |r| == |rows|
    ensures forall i :: 0 <= i < |rows| ==> r[i] == Keyed(Some(rows[i].id), rows[i].val)
  {
    seq(|rows|, i requires 0 <= i < |rows| => Keyed(Some(rows[i].id), rows[i].val))
  }

  /** A row of a table appears in its dump, under its own Id. */
  lemma {:induction false} KeysHold<T>(rows: seq<Row<T>>, row: Row<T>)
    requires row in rows
    ensures Keyed(Some(row.id), row.val) in Keys(rows)
  {
    var i :| 0 <= i < |rows| && rows[i] == row;
    assert Keys(rows)[i] == Keyed(Some(row.id), row.val);
  }

  /**
   * One INSERT per element, in order, each subject to `check` (the table's
   * NOT NULL and FOREIGN KEY constraints) and to the primary key: the table
   * after them all, or the first failure.
   */
  function LoadAll<T>(t: Table<T>, xs: seq<Keyed<T>>, check: T -> Option<SqlError>, pk: string): (r: Result<Table<T>>)
    requires Valid(t)
    ensures r.Done? ==> Valid(r.value) && |r.value.rows| == |t.rows| + |xs|
    ensures r.Done? ==> forall i :: 0 <= i < |r.value.rows| ==> r.value.rows[i] in t.rows || check(r.value.rows[i].val).None?
    ensures r.Done? ==> forall row :: row in t.rows ==> row in r.value.rows
    ensures r.Done? ==> forall k :: 0 <= k < |xs| && xs[k].id.Some? ==> Row(xs[k].id.value, xs[k].val) in r.value.rows
    decreases |xs|
  {
    if xs == [] then Done(t)
    else
      match LoadAll(t, xs[..|xs| - 1], check, pk)
      case Failed(e) => Failed(e)
      case Done(u) =>
        var x := xs[|xs| - 1];
        match check(x.val)
        case Some(e) => Failed(e)
        case None =>
          match Load(u, x.id, x.val, pk)
          case Failed(e) => Failed(e)
          case Done(w) =>
            assert xs[..|xs| - 1] + [x] == xs;
            LoadedOneMore(t, xs[..|xs| - 1], x, u, w, check, pk);
            Done(w)
  }

  /** What `LoadAll` states of a dump, carried over one more checked INSERT. */
  lemma LoadedOneMore<T>(t: Table<T>, xs: seq<Keyed<T>>, x: Keyed<T>, u: Table<T>, w: Table<T>,
                         check: T -> Option<SqlError>, pk: string)
    requires Valid(u) && check(x.val).None? && Load(u, x.id, x.val, pk) == Done(w)
    requires forall i :: 0 <= i < |u.rows| ==> u.rows[i] in t.rows || check(u.rows[i].val).None?
    requires forall row :: row in t.rows ==> row in u.rows
    requires forall k :: 0 <= k < |xs| && xs[k].id.Some? ==> Row(xs[k].id.value, xs[k].val) in u.rows
    ensures forall i :: 0 <= i < |w.rows| ==> w.rows[i] in t.rows || check(w.rows[i].val).None?
    ensures forall row :: row in t.rows ==> row in w.rows
    ensures var ys := xs + [x];
            forall k :: 0 <= k < |ys| && ys[k].id.Some? ==> Row(ys[k].id.value, ys[k].val) in w.rows
  {
    LoadKeeps(u, x.id, x.val, pk);
    forall i | 0 <= i < |w.rows|
      ensures w.rows[i] in t.rows || check(w.rows[i].val).None?
    {
      assert w.rows[i] in w.rows;
      if w.rows[i] in u.rows {
        var j :| 0 <= j < |u.rows| && u.rows[j] == w.rows[i];
      }
    }
    var ys := xs + [x];
    forall k | 0 <= k < |ys| && ys[k].id.Some?
      ensures Row(ys[k].id.value, ys[k].val) in w.rows
    {
      if k < |xs| {
        assert ys[k] == xs[k];
      } else {
        assert ys[k] == x;
      }
    }
  }

  /** What one INSERT leaves in the table: every earlier row, the new row, and nothing else. */
  lemma LoadKeeps<T>(t: Table<T>, id: Option<int>, v: T, pk: string)
    requires Valid(t) && Load(t, id, v, pk).Done?
    ensures forall row :: row in t.rows ==> row in Load(t, id, v, pk).value.rows
    ensures id.Some? ==> Row(id.value, v) in Load(t, id, v, pk).value.rows
    ensures forall row :: row in Load(t, id, v, pk).value.rows ==> row in t.rows || row.val == v
  {
    var w := Load(t, id, v, pk).value;
    var added := Row(id.GetOr(NextId(t)), v);
    assert multiset(w.rows) == multiset(t.rows) + multiset{added};
    forall row | row in t.rows
      ensures row in w.rows
    {
      assert row in multiset(t.rows);
      assert row in multiset(w.rows);
    }
    if id.Some? {
      assert Row(id.value, v) in multiset(w.rows);
    }
    forall row | row in w.rows
      ensures row in t.rows || row.val == v
    {
      assert row in multiset(w.rows);
    }
  }

  /** `rows` has one row per element of the dump `xs`, and each element that carries an Id is a row under it. */
  ghost predicate LoadedFrom<T>(rows: seq<Row<T>>, xs: seq<Keyed<T>>)
  {
    && |rows| == |xs|
    && forall k :: 0 <= k < |xs| && xs[k].id.Some? ==> Row(xs[k].id.value, xs[k].val) in rows
  }

  /** A dump loaded into an emptied table gives one row per element, each Id-carrying element under its Id. */
  lemma LoadedIntoEmpty<T>(t: Table<T>, xs: seq<Keyed<T>>, check: T -> Option<SqlError>, pk: string)
    requires Valid(t) && t.rows == [] && LoadAll(t, xs, check, pk).Done?
    ensures LoadedFrom(LoadAll(t, xs, check, pk).value.rows, xs)
  {
  }

  /** The insert loop over a dump, one element at a time. */
  method LoadEach<T>(t: Table<T>, xs: seq<Keyed<T>>, check: T -> Option<SqlError>, pk: string) returns (r: Result<Table<T>>)
    requires Valid(t)
    ensures r == LoadAll(t, xs, check, pk)
  {
    var cur := t;
    var i := 0;
    while i < |xs|
      invariant 0 <= i <= |xs|
      invariant LoadAll(t, xs[..i], check, pk) == Done(cur)
    {
      assert xs[..i + 1][..i] == xs[..i];
      var x := xs[i];
      var err := check(x.val);
      if err.Some? {
        LoadAllFailsWithPrefix(t, xs, check, pk, i + 1);
        return Failed(err.value);
      }
      var next := Load(cur, x.id, x.val, pk);
      if next.Failed? {
        LoadAllFailsWithPrefix(t, xs, check, pk, i + 1);
        return next;
      }
      cur := next.value;
      i := i + 1;
    }
    assert xs[..i] == xs;
    r := Done(cur);
  }

  /** Once an insert fails, the rest of the dump is not attempted: the first failure is the result. */
  lemma {:induction false} LoadAllFailsWithPrefix<T>(t: Table<T>, xs: seq<Keyed<T>>, check: T -> Option<SqlError>,
                                                     pk: string, k: nat)
    requires Valid(t) && k <= |xs| && LoadAll(t, xs[..k], check, pk).Failed?
    ensures LoadAll(t, xs, check, pk) == LoadAll(t, xs[..k], check, pk)
    decreases |xs| - k
  {
    if k < |xs| {
      assert xs[..k + 1][..k] == xs[..k];
      LoadAllFailsWithPrefix(t, xs, check, pk, k + 1);
    } else {
      assert xs[..k] == xs;
    }
  }

  /**
   * Loading the dump of Id-ordered rows that all pass the checks into an
   * emptied table gives those rows back, Ids included.
   */
  lemma {:induction false} LoadKeys<T>(t: Table<T>, rows: seq<Row<T>>, check: T -> Option<SqlError>, pk: string)
    requires Valid(t) && t.rows == [] && Ascending(rows)
    requires forall i :: 0 <= i < |rows| ==> check(rows[i].val).None?
    ensures LoadAll(t, Keys(rows), check, pk).Done? && LoadAll(t, Keys(rows), check, pk).value.rows == rows
    decreases |rows|
  {
    if rows != [] {
      var n := |rows| - 1;
      var last := Keyed(Some(rows[n].id), rows[n].val);
      assert Keys(rows) == Keys(rows[..n]) + [last];
      LoadKeys(t, rows[..n], check, pk);
      var u := LoadAll(t, Keys(rows[..n]), check, pk).value;
      LoadLast(t, Keys(rows[..n]), last, check, pk);
      PlaceLast(rows[..n], rows[n]);
      assert rows[..n] + [rows[n]] == rows;
    }
  }

  /** Loading one more element is one more checked INSERT on the table loaded so far. */
  lemma LoadLast<T>(t: Table<T>, xs: seq<Keyed<T>>, x: Keyed<T>, check: T -> Option<SqlError>, pk: string)
    requires Valid(t) && LoadAll(t, xs, check, pk).Done?
    ensures check(x.val).Some? ==> LoadAll(t, xs + [x], check, pk) == Failed(check(x.val).value)
    ensures check(x.val).None? ==> LoadAll(t, xs + [x], check, pk) == Load(LoadAll(t, xs, check, pk).value, x.id, x.val, pk)
  {
    assert (xs + [x])[..|xs|] == xs;
  }

  /** `DELETE FROM t`: no rows remain; the AUTOINCREMENT mark is kept. */
  function Clear<T>(t: Table<T>): (r: Table<T>)
    ensures r.rows == [] && r.seqNo == t.seqNo
  {
    Table([], t.seqNo)
  }
}
