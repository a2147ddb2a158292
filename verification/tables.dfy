/**
 * The record store shared by both dashboards: a table is a header and an
 * ordered list of rows, each row carrying its serial number (`S.No`) and its
 * other fields. The file system is a map from path to what is stored there.
 * The pure functions here say what `create_csv`, `fetch_data`, `insert_data`,
 * the delete-and-renumber block and `download_csv` compute; the classes in
 * the Finals and Demo modules perform them on a session's state.
 */
module Tables {
  import opened Records

  const SerialColumn: string := "S.No"

  datatype Option<T> = None | Some(value: T)

  datatype Result<T> = Success(value: T) | Failure(fault: Fault)

  datatype Row = Row(serial: int, fields: map<string, string>)

  datatype Table = Table(header: seq<string>, rows: seq<Row>)

  /**
   * What a path holds: a CSV file pandas can read, a regular file it cannot
   * parse, or a directory (it "exists" for `create_csv` but is not a file for
   * `fetch_data`, and writing a table to it fails).
   */
  datatype Entry = Csv(table: Table) | Unreadable | Directory

  /** The exceptions the store's I/O raises. */
  datatype Fault = ParseFailed(path: string) | IsADirectory(path: string)

  function At(files: map<string, Entry>, path: string): Option<Entry> {
    if path in files then Some(files[path]) else None
  }

  /** `pd.DataFrame(columns=columns)`. */
  function EmptyTable(columns: seq<string>): Table {
    Table(columns, [])
  }

  /** What reading a path yields when it does not raise: a readable CSV file's table, else the empty table. */
  function Loaded(e: Option<Entry>, columns: seq<string>): Table {
    match e
    case Some(Csv(t)) => t
    case _ => EmptyTable(columns)
  }

  /** Serial contiguity: the serials are exactly 1..n, in row order. */
  predicate Contiguous(rows: seq<Row>) {
    forall i :: 0 <= i < |rows| ==> rows[i].serial == i + 1
  }

  predicate Distinct(s: seq<string>) {
    forall i, j :: 0 <= i < j < |s| ==> s[i] != s[j]
  }

  // ---------------------------------------------------------------- insert

  /**
   * The header `pd.concat` produces when rows with `columns` join a table
   * with `header`: the old header, then the new columns (each once, as
   * `WidenDistinct` shows).
   */
  function Widen(header: seq<string>, columns: seq<string>): (r: seq<string>)
    ensures |header| <= |r| && r[..|header|] == header
    ensures forall c :: c in r <==> c in header || c in columns
    ensures (forall c :: c in columns ==> c in header) ==> r == header
    decreases columns
  {
    if columns == [] then header
    else if columns[0] in header then Widen(header, columns[1..])
    else
      var h := header + [columns[0]];
      assert h[..|header|] == header;
      Widen(h, columns[1..])
  }

  /** The keys of the dict after `data["S.No"] = ...`: the record's columns, `S.No` last if it was new. */
  function RowColumns(d: Record): seq<string> {
    if SerialColumn in Keys(d) then Keys(d) else Keys(d) + [SerialColumn]
  }

  /**
   * The table `insert_data` writes back: one new row whose serial is the
   * prior row count plus one, every earlier row as it was.
   */
  function Appended(t: Table, d: Record): (r: Table)
    ensures |r.rows| == |t.rows| + 1
    ensures r.rows[..|t.rows|] == t.rows
    ensures r.rows[|t.rows|].serial == |t.rows| + 1
    ensures r.rows[|t.rows|].fields == FieldMap(d) - {SerialColumn}
    ensures |t.header| <= |r.header| && r.header[..|t.header|] == t.header
    ensures SerialColumn in r.header
    ensures Contiguous(t.rows) ==> Contiguous(r.rows)
  {
    var h := Widen(t.header, RowColumns(d));
    assert SerialColumn in RowColumns(d);
    Table(h, t.rows + [Row(|t.rows| + 1, FieldMap(d) - {SerialColumn})])
  }

  /** Widening never repeats a column: a header without repeats stays without repeats. */
  lemma {:induction false} WidenDistinct(header: seq<string>, columns: seq<string>)
    requires Distinct(header)
    ensures Distinct(Widen(header, columns))
    decreases columns
  {
    if columns != [] {
      if columns[0] in header {
        WidenDistinct(header, columns[1..]);
      } else {
        WidenDistinct(header + [columns[0]], columns[1..]);
      }
    }
  }

  /** An insert whose columns the table already has leaves the header as it was. */
  lemma AppendedKnownColumns(t: Table, d: Record)
    requires forall c :: c in RowColumns(d) ==> c in t.header
    ensures Appended(t, d).header == t.header
  {
  }

  /** Widening by two lists of columns in turn is widening by their concatenation. */
  lemma {:induction false} WidenConcat(header: seq<string>, xs: seq<string>, ys: seq<string>)
    ensures Widen(header, xs + ys) == Widen(Widen(header, xs), ys)
    decreases xs
  {
    if xs == [] {
      assert xs + ys == ys;
    } else {
      assert (xs + ys)[0] == xs[0] && (xs + ys)[1..] == xs[1..] + ys;
      if xs[0] in header {
        WidenConcat(header, xs[1..], ys);
      } else {
        WidenConcat(header + [xs[0]], xs[1..], ys);
      }
    }
  }

  /**
   * Inserting where no table could be read (`fetch_data` falls back to the
   * record's own keys) leaves a one-row table: serial 1, and the header is
   * the record's keys with `S.No` added last.
   */
  lemma InsertIntoMissing(d: Record)
    ensures Appended(EmptyTable(Keys(d)), d) == Table(RowColumns(d), [Row(1, FieldMap(d) - {SerialColumn})])
    ensures SerialColumn !in Keys(d) ==> RowColumns(d) == Keys(d) + [SerialColumn]
  {
    var k := Keys(d);
    if SerialColumn !in k {
      WidenConcat(k, k, [SerialColumn]);
      assert Widen(k, [SerialColumn]) == Widen(k + [SerialColumn], []);
    }
  }

  /** The rows after one insert, as a single sequence. */
  lemma AppendedRows(t: Table, d: Record)
    ensures Appended(t, d).rows == t.rows + [Row(|t.rows| + 1, FieldMap(d) - {SerialColumn})]
  {
  }

  /** The rows a run of inserts adds after `n` existing rows: the k-th record with serial n + k + 1. */
  function Numbered(n: int, ds: seq<Record>): (r: seq<Row>)
    ensures |r| == |ds|
    ensures forall k :: 0 <= k < |ds| ==> r[k] == Row(n + k + 1, FieldMap(ds[k]) - {SerialColumn})
  {
    if ds == [] then []
    else
      var init := ds[..|ds| - 1];
      assert forall k :: 0 <= k < |init| ==> init[k] == ds[k];
      Numbered(n, init) + [Row(n + |ds|, FieldMap(ds[|ds| - 1]) - {SerialColumn})]
  }

  /**
   * The table after inserting each record of `ds` in turn: the existing rows
   * stay, and the k-th record follows with serial n + k + 1, n being the
   * starting row count.
   */
  function AppendAll(t: Table, ds: seq<Record>): (r: Table)
    ensures r.rows == t.rows + Numbered(|t.rows|, ds)
    decreases |ds|
  {
    if ds == [] then t
    else
      var init, x := ds[..|ds| - 1], ds[|ds| - 1];
      var p, numbered := AppendAll(t, init), Numbered(|t.rows|, init);
      var last := Row(|t.rows| + |ds|, FieldMap(x) - {SerialColumn});
      AppendedRows(p, x);
      assert |p.rows| + 1 == |t.rows| + |ds|;
      assert Numbered(|t.rows|, ds) == numbered + [last];
      assert (t.rows + numbered) + [last] == t.rows + (numbered + [last]);
      Appended(p, x)
  }

  /** From an empty table, n inserts leave exactly the serials 1..n, the k-th row holding the k-th record. */
  lemma InsertsFromEmpty(columns: seq<string>, ds: seq<Record>)
    ensures |AppendAll(EmptyTable(columns), ds).rows| == |ds|
    ensures Contiguous(AppendAll(EmptyTable(columns), ds).rows)
    ensures forall k :: 0 <= k < |ds| ==>
      AppendAll(EmptyTable(columns), ds).rows[k].fields == FieldMap(ds[k]) - {SerialColumn}
  {
    NumberedFromZero(AppendAll(EmptyTable(columns), ds).rows, ds);
  }

  /** Rows numbered from zero are the serials 1..n over the records in order. */
  lemma NumberedFromZero(rows: seq<Row>, ds: seq<Record>)
    // Stated with `[] +` so that it matches `AppendAll`'s ensures on an empty table term for term.
    requires rows == [] + Numbered(0, ds)
    ensures |rows| == |ds| && Contiguous(rows)
    ensures forall k :: 0 <= k < |ds| ==> rows[k].fields == FieldMap(ds[k]) - {SerialColumn}
  {
    var numbered := Numbered(0, ds);
    assert rows == numbered;
    forall k | 0 <= k < |ds| ensures rows[k].serial == k + 1 && rows[k].fields == FieldMap(ds[k]) - {SerialColumn} {
      assert numbered[k] == Row(0 + k + 1, FieldMap(ds[k]) - {SerialColumn});
    }
  }

  // ---------------------------------------------------------------- delete

  /** `df[df["S.No"] != s_no]`: the rows whose serial is not `s`, in their order. */
  function Without(rows: seq<Row>, s: int): (r: seq<Row>)
    ensures forall i :: 0 <= i < |r| ==> r[i].serial != s
    ensures |r| <= |rows|
  {
    if rows == [] then []
    else if rows[0].serial == s then Without(rows[1..], s)
    else [rows[0]] + Without(rows[1..], s)
  }

  /** The filter keeps every row whose serial is not `s` exactly as often as it occurred, and no other. */
  lemma {:induction false} WithoutCounts(rows: seq<Row>, s: int)
    ensures forall x :: multiset(Without(rows, s))[x] == if x.serial == s then 0 else multiset(rows)[x]
  {
    if rows != [] {
      WithoutCounts(rows[1..], s);
      assert rows == [rows[0]] + rows[1..];
    }
  }

  /** `df["S.No"] = range(1, len(df) + 1)`: serials reassigned 1..n, fields untouched. */
  function Renumbered(rows: seq<Row>): (r: seq<Row>)
    ensures |r| == |rows| && Contiguous(r)
    ensures forall i :: 0 <= i < |r| ==> r[i].fields == rows[i].fields
  {
    seq(|rows|, i requires 0 <= i < |rows| => Row(i + 1, rows[i].fields))
  }

  /** The table the delete block writes back. */
  function Deleted(t: Table, s: int): (r: Table)
    ensures r.header == t.header
    ensures Contiguous(r.rows)
    ensures |r.rows| <= |t.rows|
  {
    Table(t.header, Renumbered(Without(t.rows, s)))
  }

  /** `x` is `y` with some elements left out, the rest in their original order. */
  predicate Subsequence<T(==)>(x: seq<T>, y: seq<T>)
    decreases |y|
  {
    if y == [] then x == []
    else (x != [] && x[0] == y[0] && Subsequence(x[1..], y[1..])) || Subsequence(x, y[1..])
  }

  lemma {:induction false} WithoutKeepsOrder(rows: seq<Row>, s: int)
    ensures Subsequence(Without(rows, s), rows)
  {
    if rows != [] {
      WithoutKeepsOrder(rows[1..], s);
      if rows[0].serial != s {
        var r := Without(rows, s);
        assert r[0] == rows[0] && r[1..] == Without(rows[1..], s);
      }
    }
  }

  /**
   * Delete keeps exactly the rows whose serial differs from `s` (each as
   * often as before), in their original relative order, with their non-serial
   * fields unchanged, and numbers them 1..n.
   */
  lemma DeleteKeepsOtherRows(t: Table, s: int)
    ensures var kept := Without(t.rows, s);
      && Subsequence(kept, t.rows)
      && (forall x :: multiset(kept)[x] == if x.serial == s then 0 else multiset(t.rows)[x])
      && |Deleted(t, s).rows| == |kept|
      && forall i :: 0 <= i < |kept| ==> Deleted(t, s).rows[i] == Row(i + 1, kept[i].fields)
  {
    WithoutKeepsOrder(t.rows, s);
    WithoutCounts(t.rows, s);
  }

  /** Rows whose serials run b, b+1, ... in order. */
  predicate SerialsFrom(rows: seq<Row>, b: int) {
    forall i :: 0 <= i < |rows| ==> rows[i].serial == b + i
  }

  lemma SerialsFromTail(rows: seq<Row>, b: int)
    requires SerialsFrom(rows, b) && rows != []
    ensures SerialsFrom(rows[1..], b + 1)
  {
    forall i | 0 <= i < |rows| - 1 ensures rows[1..][i].serial == b + 1 + i {
      assert rows[1..][i] == rows[i + 1];
    }
  }

  lemma DropAfterHead<T>(xs: seq<T>, k: int)
    requires 0 < k < |xs|
    ensures xs[..k] + xs[k + 1..] == [xs[0]] + (xs[1..][..k - 1] + xs[1..][k..])
  {
    assert xs[..k] == [xs[0]] + xs[1..][..k - 1];
    assert xs[k + 1..] == xs[1..][k..];
  }

  /** On consecutive serials, filtering a serial outside their range keeps every row. */
  lemma {:induction false} WithoutOutside(rows: seq<Row>, b: int, s: int)
    requires SerialsFrom(rows, b)
    requires !(b <= s < b + |rows|)
    ensures Without(rows, s) == rows
    decreases |rows|
  {
    if rows != [] {
      SerialsFromTail(rows, b);
      WithoutOutside(rows[1..], b + 1, s);
      assert rows == [rows[0]] + rows[1..];
    }
  }

  /** On consecutive serials, filtering removes exactly the one row numbered `s`. */
  lemma {:induction false} WithoutInside(rows: seq<Row>, b: int, s: int)
    requires SerialsFrom(rows, b)
    requires b <= s < b + |rows|
    ensures Without(rows, s) == rows[..s - b] + rows[s - b + 1..]
    decreases |rows|
  {
    var tail := rows[1..];
    SerialsFromTail(rows, b);
    if s == b {
      WithoutOutside(tail, b + 1, s);
      assert rows[..0] + rows[1..] == tail;
    } else {
      WithoutInside(tail, b + 1, s);
      var k := s - b;
      assert Without(rows, s) == [rows[0]] + Without(tail, s);
      DropAfterHead(rows, k);
    }
  }

  /** On a contiguous table, deleting a serial that is not present changes nothing. */
  lemma DeleteAbsentSerial(t: Table, s: int)
    requires Contiguous(t.rows)
    requires !(1 <= s <= |t.rows|)
    ensures Deleted(t, s) == t
  {
    assert SerialsFrom(t.rows, 1);
    WithoutOutside(t.rows, 1, s);
    assert Renumbered(t.rows) == t.rows;
  }

  /**
   * On a contiguous table, deleting serial `s` drops row `s` alone: the table
   * shrinks by one and the later rows move up one place.
   */
  lemma DeletePresentSerial(t: Table, s: int)
    requires Contiguous(t.rows)
    requires 1 <= s <= |t.rows|
    ensures |Deleted(t, s).rows| == |t.rows| - 1
    ensures forall i :: 0 <= i < s - 1 ==> Deleted(t, s).rows[i] == Row(i + 1, t.rows[i].fields)
    ensures forall i :: s - 1 <= i < |t.rows| - 1 ==> Deleted(t, s).rows[i] == Row(i + 1, t.rows[i + 1].fields)
  {
    assert SerialsFrom(t.rows, 1);
    WithoutInside(t.rows, 1, s);
    var kept := t.rows[..s - 1] + t.rows[s..];
    var r := Renumbered(kept);
    assert Deleted(t, s).rows == r;
    forall i | 0 <= i < s - 1 ensures r[i] == Row(i + 1, t.rows[i].fields) {
      assert kept[i] == t.rows[i];
    }
    forall i | s - 1 <= i < |t.rows| - 1 ensures r[i] == Row(i + 1, t.rows[i + 1].fields) {
      assert kept[i] == t.rows[i + 1];
    }
  }

  // ---------------------------------------------------------------- export

  datatype Download = Download(filename: string, table: Table)

  /**
   * `download_csv`: the export button is offered, with the table as shown,
   * unless the frame is empty (no rows, or no columns).
   */
  function DownloadCsv(t: Table, filename: string): (offer: Option<Download>)
    ensures offer.Some? <==> |t.rows| > 0 && |t.header| > 0
    ensures offer.Some? ==> offer.value.table == t && offer.value.filename == filename
    ensures |t.header| > 0 ==> (offer.Some? <==> |t.rows| > 0)
  {
    if |t.rows| == 0 || |t.header| == 0 then None else Some(Download(filename, t))
  }

  /** After any insert the table has a row and a column, so export is offered. */
  lemma InsertOffersExport(t: Table, d: Record, filename: string)
    ensures DownloadCsv(Appended(t, d), filename) == Some(Download(filename, Appended(t, d)))
  {
    var r := Appended(t, d);
    assert SerialColumn in r.header;
  }

  // ---------------------------------------------------------------- disk

  /** `df.to_csv(path)`: replaces what the path held, unless it is a directory, which refuses the write. */
  function Written(files: map<string, Entry>, path: string, t: Table): map<string, Entry> {
    if At(files, path) == Some(Directory) then files else files[path := Csv(t)]
  }

  /** Every readable table on disk numbers its rows 1..n. */
  ghost predicate AllContiguous(files: map<string, Entry>) {
    forall p :: p in files && files[p].Csv? ==> Contiguous(files[p].table.rows)
  }

  /** Writing a table numbered 1..n keeps every readable table on disk numbered 1..n. */
  lemma WrittenKeepsContiguous(files: map<string, Entry>, path: string, t: Table)
    requires AllContiguous(files) && Contiguous(t.rows)
    ensures AllContiguous(Written(files, path, t))
  {
  }
}
