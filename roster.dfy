/**
 * The spreadsheet import of src/pages/Students.tsx: the first sheet, read as
 * one record per data row, is turned into the array the bulk import endpoint
 * receives. The name, grade and phone columns are recognised by their header
 * text, in Arabic or in English; rows without a name are dropped.
 *
 * Reading the workbook is outside the model: a sheet arrives as records of
 * header/cell pairs, each record holding only its row's non-empty cells, as
 * the spreadsheet library produces them. `lower` is `String.toLowerCase`.
 */
module Roster {
  import opened Wrappers
  import opened Tables
  import opened Schema
  import Str = Text
  import StudentRoutes
  import Lists

  /** A spreadsheet cell value: text, a whole number or a boolean. */
  datatype Cell = Words(s: string) | Number(n: int) | Flag(b: bool)

  /** One data row: header text and cell value for each non-empty cell, left to right. */
  type Record = seq<(string, Cell)>

  /** `row[key]`: the cell under that header, if the row has one. */
  function Get(r: Record, key: string): (c: Option<Cell>)
    ensures c.Some? <==> exists i :: 0 <= i < |r| && r[i].0 == key
    ensures c.Some? ==> (key, c.value) in r
  {
    if r == [] then None
    else if r[0].0 == key then Some(r[0].1)
    else
      var c := Get(r[1..], key);
      assert forall i :: 1 <= i < |r| ==> r[i] == r[1..][i - 1];
      c
  }

  /** JavaScript truthiness of the cell. */
  predicate Present(c: Option<Cell>)
  {
    c.Some? && match c.value
               case Words(s) => s != ""
               case Number(n) => n != 0
               case Flag(b) => b
  }

  /** `String(v)`. */
  function Show(c: Cell): string
  {
    match c
    case Words(s) => s
    case Number(n) => Str.IntToString(n)
    case Flag(b) => if b then "true" else "false"
  }

  /** `Object.keys(record)`. */
  function KeysOf(r: Record): (ks: seq<string>)
    ensures |ks| == |r| && forall i :: 0 <= i < |r| ==> ks[i] == r[i].0
  {
    if r == [] then [] else [r[0].0] + KeysOf(r[1..])
  }

  /** `keys.find(p)`: the first key that passes the test. */
  function Find(keys: seq<string>, p: string -> bool): (r: Option<string>)
    ensures r.Some? <==> exists i :: 0 <= i < |keys| && p(keys[i])
    ensures r.Some? ==> exists i :: 0 <= i < |keys| && keys[i] == r.value && p(r.value) && forall j :: 0 <= j < i ==> !p(keys[j])
  {
    if keys == [] then None
    else if p(keys[0]) then Some(keys[0])
    else
      var r := Find(keys[1..], p);
      assert forall i :: 1 <= i < |keys| ==> keys[i] == keys[1..][i - 1];
      assert r.Some? ==> exists i :: 0 <= i < |keys| && keys[i] == r.value && p(r.value) && forall j :: 0 <= j < i ==> !p(keys[j]) by {
        if r.Some? {
          var i :| 0 <= i < |keys[1..]| && keys[1..][i] == r.value && p(r.value) && forall j :: 0 <= j < i ==> !p(keys[1..][j]);
          assert keys[i + 1] == r.value && forall j :: 0 <= j < i + 1 ==> !p(keys[j]);
        }
      }
      r
  }

  // ---- Recognising the columns. ----

  function NameTest(lower: string -> string): string -> bool
  {
    k => Str.Contains(k, "الاسم") || Str.Contains(k, "اسم") || Str.Contains(lower(k), "name")
  }

  function GradeTest(lower: string -> string): string -> bool
  {
    k => Str.Contains(k, "الصف") || Str.Contains(k, "صف") || Str.Contains(lower(k), "grade")
  }

  function PhoneTest(lower: string -> string): string -> bool
  {
    k => Str.Contains(k, "رقم") || Str.Contains(k, "هاتف") || Str.Contains(k, "ولي") || Str.Contains(lower(k), "phone")
  }

  /**
   * The first test of the name and grade columns is subsumed by the second:
   * a header containing "الاسم" contains "اسم", one containing "الصف" contains "صف".
   */
  lemma HeaderTestsSimplify(lower: string -> string, k: string)
    ensures NameTest(lower)(k) <==> Str.Contains(k, "اسم") || Str.Contains(lower(k), "name")
    ensures GradeTest(lower)(k) <==> Str.Contains(k, "صف") || Str.Contains(lower(k), "grade")
  {
    assert "الاسم" == "ال" + "اسم";
    assert "الصف" == "ال" + "صف";
    if Str.Contains(k, "الاسم") { Str.ContainsParts(k, "ال", "اسم"); }
    if Str.Contains(k, "الصف") { Str.ContainsParts(k, "ال", "صف"); }
  }

  /** The header found for each column, if any. */
  datatype Headers = Headers(name: Option<string>, grade: Option<string>, phone: Option<string>)

  function Detect(keys: seq<string>, lower: string -> string): Headers
  {
    Headers(Find(keys, NameTest(lower)), Find(keys, GradeTest(lower)), Find(keys, PhoneTest(lower)))
  }

  // ---- Building the array to send. ----

  /** The trimmed text of the cell under `key`, or `fallback` when there is no such column or the cell is falsy. */
  function Cleaned(r: Record, key: Option<string>, fallback: string): string
  {
    if key.Some? && Present(Get(r, key.value)) then Str.Trim(Show(Get(r, key.value).value)) else fallback
  }

  /** The object built for one row: the grade falls back to "unspecified", the phone to empty. */
  function ToItem(r: Record, h: Headers): StudentRoutes.BulkItem
    requires h.name.Some?
  {
    StudentRoutes.BulkItem(Some(Cleaned(r, h.name, "")),
                           Some(Cleaned(r, h.grade, StudentRoutes.Unspecified)),
                           Some(Cleaned(r, h.phone, "")))
  }

  /** `data.map(...)`: one object per row, in row order. */
  function Mapped(data: seq<Record>, h: Headers): (items: seq<StudentRoutes.BulkItem>)
    requires h.name.Some?
    ensures |items| == |data| && forall i :: 0 <= i < |data| ==> items[i] == ToItem(data[i], h)
  {
    seq(|data|, i requires 0 <= i < |data| => ToItem(data[i], h))
  }

  /** `.filter(s => s.name)`: the name is a non-empty string. */
  predicate Named(it: StudentRoutes.BulkItem)
  {
    it.name.Some? && it.name.value != ""
  }

  /**
   * The objects sent: one per row whose trimmed name is not empty, in row
   * order; each comes from a row, each named row gives one, and there are
   * exactly as many as there are named rows.
   */
  function ToItems(data: seq<Record>, h: Headers): (items: seq<StudentRoutes.BulkItem>)
    requires h.name.Some?
    ensures |items| <= |data|
    ensures forall k :: 0 <= k < |items| ==> Named(items[k]) && exists i :: 0 <= i < |data| && items[k] == ToItem(data[i], h)
    ensures forall i :: 0 <= i < |data| && Cleaned(data[i], h.name, "") != "" ==> ToItem(data[i], h) in items
    ensures Lists.Subsequence(items, Mapped(data, h)) && |items| == Lists.Count(Mapped(data, h), Named)
  {
    SentItems(data, h);
    Lists.FilterSubsequence(Mapped(data, h), Named);
    Lists.Filter(Mapped(data, h), Named)
  }

  /** Each filtered object comes from a row, and each row with a name gives its object. */
  lemma SentItems(data: seq<Record>, h: Headers)
    requires h.name.Some?
    ensures var items := Lists.Filter(Mapped(data, h), Named);
            forall k :: 0 <= k < |items| ==> exists i :: 0 <= i < |data| && items[k] == ToItem(data[i], h)
    ensures var items := Lists.Filter(Mapped(data, h), Named);
            forall i :: 0 <= i < |data| && Cleaned(data[i], h.name, "") != "" ==> ToItem(data[i], h) in items
  {
    var all := Mapped(data, h);
    var items := Lists.Filter(all, Named);
    forall k | 0 <= k < |items|
      ensures exists i :: 0 <= i < |data| && items[k] == ToItem(data[i], h)
    {
      var i :| 0 <= i < |all| && all[i] == items[k];
      assert items[k] == ToItem(data[i], h);
    }
    forall i | 0 <= i < |data| && Cleaned(data[i], h.name, "") != ""
      ensures ToItem(data[i], h) in items
    {
      assert all[i] == ToItem(data[i], h) && Named(all[i]);
    }
  }

  /** What the upload handler ends with: an alert, or the array it posts once the user confirms. */
  datatype Parsed = EmptyFile | NoNameColumn | NothingToImport | Import(items: seq<StudentRoutes.BulkItem>)

  /** The outcome once the headers to search are chosen. */
  function ParseWith(data: seq<Record>, keys: seq<string>, lower: string -> string): (p: Parsed)
    requires data != []
    ensures p != EmptyFile
    ensures p == NoNameColumn <==> forall i :: 0 <= i < |keys| ==> !NameTest(lower)(keys[i])
    ensures p.Import? ==> p.items != [] && p.items == ToItems(data, Detect(keys, lower))
    ensures p == NothingToImport ==> Detect(keys, lower).name.Some? && ToItems(data, Detect(keys, lower)) == []
  {
    var h := Detect(keys, lower);
    if h.name.None? then NoNameColumn
    else
      var items := ToItems(data, h);
      if items == [] then NothingToImport else Import(items)
  }

  /** The handler as written: the headers are the keys of the first record. */
  function ParseSheet(data: seq<Record>, lower: string -> string): (p: Parsed)
    ensures p == EmptyFile <==> data == []
    ensures data != [] ==> p == ParseWith(data, KeysOf(data[0]), lower)
  {
    if data == [] then EmptyFile else ParseWith(data, KeysOf(data[0]), lower)
  }

  /** Whatever the sheet, the array sent never makes the bulk import fail: every object has a name. */
  lemma ImportedItemsNeverAbort(t: Table<Student>, data: seq<Record>, keys: seq<string>, lower: string -> string)
    requires Valid(t) && AllRows(t.rows, StudentStored)
    requires data != [] && ParseWith(data, keys, lower).Import?
    ensures StudentRoutes.BulkRun(t, ParseWith(data, keys, lower).items).Done?
  {
    StudentRoutes.BulkFailsIffNameMissing(t, ParseWith(data, keys, lower).items);
  }

  // ---- The header set: the first record only, or the whole sheet. ----

  /** The keys of every record, each once, in order of first appearance. */
  function SheetKeys(data: seq<Record>): (ks: seq<string>)
    ensures forall i, j :: 0 <= i < |data| && 0 <= j < |data[i]| ==> data[i][j].0 in ks
    decreases |data|
  {
    if data == [] then []
    else
      var rest := SheetKeys(data[..|data| - 1]);
      var last := data[|data| - 1];
      assert forall i :: 0 <= i < |data| - 1 ==> data[i] == data[..|data| - 1][i];
      rest + NewKeys(rest, KeysOf(last))
  }

  /** The keys of `ks` not yet in `seen`, in order, each once. */
  function NewKeys(seen: seq<string>, ks: seq<string>): (r: seq<string>)
    ensures forall i :: 0 <= i < |ks| ==> ks[i] in seen || ks[i] in r
    decreases |ks|
  {
    if ks == [] then []
    else if ks[0] in seen then NewKeys(seen, ks[1..])
    else [ks[0]] + NewKeys(seen + [ks[0]], ks[1..])
  }

  /**
   * With the whole sheet's headers, a column is recognised whenever any row
   * has a cell under a matching header, not only when the first row does.
   */
  lemma SheetKeysFindEveryColumn(data: seq<Record>, lower: string -> string, i: int, j: int)
    requires 0 <= i < |data| && 0 <= j < |data[i]|
    ensures NameTest(lower)(data[i][j].0) ==> Detect(SheetKeys(data), lower).name.Some?
    ensures GradeTest(lower)(data[i][j].0) ==> Detect(SheetKeys(data), lower).grade.Some?
    ensures PhoneTest(lower)(data[i][j].0) ==> Detect(SheetKeys(data), lower).phone.Some?
  {
    var ks := SheetKeys(data);
    var k :| 0 <= k < |ks| && ks[k] == data[i][j].0;
  }

  /** The import with the headers of the whole sheet. */
  function ParseSheetAllColumns(data: seq<Record>, lower: string -> string): (p: Parsed)
    ensures p == EmptyFile <==> data == []
    ensures data != [] ==> p == ParseWith(data, SheetKeys(data), lower)
  {
    if data == [] then EmptyFile else ParseWith(data, SheetKeys(data), lower)
  }

  /** The headers of a sheet of one and of two records. */
  lemma SheetKeysShort(a: Record, b: Record)
    ensures SheetKeys([a]) == NewKeys([], KeysOf(a))
    ensures SheetKeys([a, b]) == SheetKeys([a]) + NewKeys(SheetKeys([a]), KeysOf(b))
  {
    assert [a][..0] == [];
    assert [a, b][..1] == [a];
  }

  /** A header that names the column of student names and nothing else. */
  lemma NameHeaderOnly(lower: string -> string)
    requires lower("الاسم") == "الاسم"
    ensures NameTest(lower)("الاسم")
    ensures !GradeTest(lower)("الاسم") && !PhoneTest(lower)("الاسم")
  {
    assert Str.StartsWith("الاسم", "الاسم");
    NameHeaderNotGrade();
    NameHeaderNotPhone();
  }

  /** The Arabic name header holds none of the grade header words. */
  lemma NameHeaderNotGrade()
    ensures !Str.Contains("الاسم", "الصف") && !Str.Contains("الاسم", "صف") && !Str.Contains("الاسم", "grade")
  {
    Str.NotContained("الاسم", "الصف", 2);
    Str.NotContained("الاسم", "صف", 0);
    Str.NotContained("الاسم", "grade", 0);
  }

  /** The Arabic name header holds none of the phone header words. */
  lemma NameHeaderNotPhone()
    ensures !Str.Contains("الاسم", "رقم") && !Str.Contains("الاسم", "هاتف")
    ensures !Str.Contains("الاسم", "ولي") && !Str.Contains("الاسم", "phone")
  {
    Str.NotContained("الاسم", "رقم", 0);
    Str.NotContained("الاسم", "هاتف", 0);
    Str.NotContained("الاسم", "ولي", 2);
    Str.NotContained("الاسم", "phone", 0);
  }

  /** A text cell with no white space at its ends is read as it is. */
  lemma CleanedWords(r: Record, key: string, s: string, fallback: string)
    requires Get(r, key) == Some(Words(s)) && s != [] && !Str.IsSpace(s[0]) && !Str.IsSpace(s[|s| - 1])
    ensures Cleaned(r, Some(key), fallback) == s
  {
    Str.TrimKeeps(s);
  }

  /** Two rows map to two objects, in order. */
  lemma MappedPair(data: seq<Record>, h: Headers)
    requires |data| == 2 && h.name.Some?
    ensures Mapped(data, h) == [ToItem(data[0], h), ToItem(data[1], h)]
  {
  }

  /** Two named rows give two objects, in order. */
  lemma TwoNamedRows(data: seq<Record>, h: Headers)
    requires |data| == 2 && h.name.Some?
    requires Named(ToItem(data[0], h)) && Named(ToItem(data[1], h))
    ensures ToItems(data, h) == [ToItem(data[0], h), ToItem(data[1], h)]
  {
    MappedPair(data, h);
    Lists.FilterPair(ToItem(data[0], h), ToItem(data[1], h), Named);
  }

  /** A sheet of two named rows is imported as their two objects. */
  lemma TwoRowParse(data: seq<Record>, keys: seq<string>, lower: string -> string)
    requires |data| == 2 && Detect(keys, lower).name.Some?
    requires Named(ToItem(data[0], Detect(keys, lower))) && Named(ToItem(data[1], Detect(keys, lower)))
    ensures ParseWith(data, keys, lower) == Import([ToItem(data[0], Detect(keys, lower)), ToItem(data[1], Detect(keys, lower))])
  {
    TwoNamedRows(data, Detect(keys, lower));
  }

  /** A two-row sheet: the first row has no phone cell, the second has one. */
  function TwoRowSheet(): seq<Record>
  {
    [ [("الاسم", Words("أحمد"))],
      [("الاسم", Words("سالم")), (PhoneHeader(), Words("99123456"))] ]
  }

  /**
   * As written, the phone column goes unrecognised when the first row's phone
   * cell is empty, so no row's phone is imported, the second row's included.
   */
  lemma FirstRowHidesPhoneColumn(lower: string -> string)
    requires lower("الاسم") == "الاسم"
    ensures var p := ParseSheet(TwoRowSheet(), lower);
            p.Import? && |p.items| == 2 && p.items[1].phone == Some("")
  {
    var data := TwoRowSheet();
    assert KeysOf(data[0]) == ["الاسم"];
    NameHeaderOnly(lower);
    assert Detect(["الاسم"], lower) == Headers(Some("الاسم"), None, None);
    TwoRowSheetCells();
    TwoRowParse(data, ["الاسم"], lower);
  }

  /** The header of the second row's phone cell. */
  function PhoneHeader(): string
  {
    "هاتف ولي الأمر"
  }

  /** The whole sheet's headers: the name column, then the phone column the second row adds. */
  lemma TwoRowSheetKeys()
    ensures SheetKeys(TwoRowSheet()) == ["الاسم", PhoneHeader()]
  {
    var data := TwoRowSheet();
    var phoneKey := PhoneHeader();
    SheetKeysShort(data[0], data[1]);
    assert data == [data[0], data[1]];
    assert KeysOf(data[0]) == ["الاسم"];
    assert NewKeys([], ["الاسم"]) == ["الاسم"] by {
      assert NewKeys(["الاسم"], []) == [];
    }
    assert KeysOf(data[1]) == ["الاسم", phoneKey];
    assert NewKeys(["الاسم"], ["الاسم", phoneKey]) == [phoneKey] by {
      assert ["الاسم", phoneKey][1..] == [phoneKey];
      assert phoneKey !in ["الاسم"];
      assert NewKeys(["الاسم", phoneKey], []) == [];
    }
  }

  /** The cells read from the sheet under the name and phone headers. */
  lemma TwoRowSheetCells()
    ensures Cleaned(TwoRowSheet()[0], Some("الاسم"), "") == "أحمد"
    ensures Cleaned(TwoRowSheet()[1], Some("الاسم"), "") == "سالم"
    ensures Cleaned(TwoRowSheet()[1], Some(PhoneHeader()), "") == "99123456"
  {
    var data := TwoRowSheet();
    CleanedWords(data[0], "الاسم", "أحمد", "");
    CleanedWords(data[1], "الاسم", "سالم", "");
    assert Get(data[1], PhoneHeader()) == Some(Words("99123456"));
    CleanedWords(data[1], PhoneHeader(), "99123456", "");
  }

  /** Among those headers the name column is found first and the phone column second. */
  lemma TwoRowSheetHeaders(lower: string -> string)
    requires lower("الاسم") == "الاسم"
    ensures var h := Detect(["الاسم", PhoneHeader()], lower);
            h.name == Some("الاسم") && h.phone == Some(PhoneHeader())
  {
    var phoneKey := PhoneHeader();
    NameHeaderOnly(lower);
    assert PhoneTest(lower)(phoneKey) by {
      assert phoneKey[..4] == "هاتف";
      assert Str.StartsWith(phoneKey, "هاتف");
    }
  }

  /** With the whole sheet's headers the same sheet imports the second row's phone. */
  lemma AllColumnsKeepPhone(lower: string -> string)
    requires lower("الاسم") == "الاسم"
    ensures var p := ParseSheetAllColumns(TwoRowSheet(), lower);
            p.Import? && |p.items| == 2 && p.items[1].phone == Some("99123456")
  {
    var data := TwoRowSheet();
    TwoRowSheetKeys();
    TwoRowSheetHeaders(lower);
    TwoRowSheetCells();
    TwoRowParse(data, ["الاسم", PhoneHeader()], lower);
  }
}
