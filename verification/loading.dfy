/** What the four MySQL loaders share: preparing a row (padding, date
    conversion, empty text to NULL), the batched insert loop, the plan of
    statements a load issues, and how the loaders turn errors into
    exceptions. */
module Loading {
  import opened Base
  import opened Seqs
  import opened Dates
  import opened Registry
  import opened Batching
  import opened Sql

  // ------------------------------------------------------------ one row

  /** A `csv.reader` record as query parameters: every field is text. */
  function Cells(record: seq<string>): (r: seq<Cell>)
    ensures |r| == |record| && forall i :: 0 <= i < |record| ==> r[i] == Some(record[i])
  {
    seq(|record|, i requires 0 <= i < |record| => Some(record[i]))
  }

  /** `row.extend([None] * (len(headers) - len(row)))` on a short row;
      a long row is left as it is. */
  function Pad(row: seq<Cell>, width: nat): seq<Cell> {
    if |row| < width then row + seq(width - |row|, _ => None) else row
  }

  /** `None if value == '' else value`. */
  function EmptyToNull(c: Cell): Cell {
    if c == Some("") then None else c
  }

  function NullEmpties(row: seq<Cell>): (r: seq<Cell>)
    ensures |r| == |row| && forall i :: 0 <= i < |row| ==> r[i] == EmptyToNull(row[i])
  {
    seq(|row|, i requires 0 <= i < |row| => EmptyToNull(row[i]))
  }

  /** `strptime(None, ...)` raises this, and nothing catches it. */
  const NoneToStrptime := Exc(TypeError, "strptime() argument 1 must be str, not None")

  /** `convert_date(value, fmt)`: the date re-written as `YYYY-MM-DD`, or
      None when the text does not match the format. */
  function ConvertDate(cell: Cell, layout: Layout): (r: Result<Cell, Exc>)
    ensures cell.None? <==> r.Err?
    ensures r.Err? ==> r.error == NoneToStrptime
  {
    match cell
    case None => Err(NoneToStrptime)
    case Some(s) =>
      match ParseDate(layout, s)
      case Some(d) => Ok(Some(IsoDate(d)))
      case None => Ok(None)
  }

  /** `convert_datetime(value, fmt)`: re-written as `YYYY-MM-DD HH:MM:SS`, or None. */
  function ConvertMoment(cell: Cell, layout: Layout): (r: Result<Cell, Exc>)
    ensures cell.None? <==> r.Err?
    ensures r.Err? ==> r.error == NoneToStrptime
  {
    match cell
    case None => Err(NoneToStrptime)
    case Some(s) =>
      match ParseMoment(layout, s)
      case Some(m) => Ok(Some(IsoMoment(m)))
      case None => Ok(None)
  }

  /** The formats a loader converts with: one for `DATE` columns, one for
      `DATETIME`/`TIMESTAMP` columns. */
  datatype Formats = Formats(dates: Layout, moments: Layout)

  /** The conversion a cell under `header` gets from the schema. */
  function ConvertCell(fields: Fields, header: string, cell: Cell, formats: Formats): (r: Result<Cell, Exc>)
    ensures r.Err? ==> r.error == NoneToStrptime
  {
    if !Declares(fields, header) then Ok(cell)
    else
      var t := TypeOf(fields, header);
      if t == "DATE" then ConvertDate(cell, formats.dates)
      else if t == "DATETIME" || t == "TIMESTAMP" then ConvertMoment(cell, formats.moments)
      else Ok(cell)
  }

  /** The `for i, header in enumerate(headers)` loop: cells under a header
      are converted left to right, the first failure ends it, and cells past
      the last header are left alone. */
  function ConvertRow(fields: Fields, headers: seq<string>, row: seq<Cell>, formats: Formats): (r: Result<seq<Cell>, Exc>)
    requires |headers| <= |row|
    ensures r.Err? ==> r.error == NoneToStrptime
    decreases |headers|
  {
    if headers == [] then Ok(row)
    else
      match ConvertCell(fields, headers[0], row[0], formats)
      case Err(e) => Err(e)
      case Ok(c) =>
        match ConvertRow(fields, headers[1..], row[1..], formats)
        case Err(e) => Err(e)
        case Ok(rest) => Ok([c] + rest)
  }

  /** A record as appended to the batch. */
  function Prepare(fields: Fields, headers: seq<string>, raw: seq<Cell>, formats: Formats, nullEmpty: bool): Result<seq<Cell>, Exc> {
    match ConvertRow(fields, headers, Pad(raw, |headers|), formats)
    case Err(e) => Err(e)
    case Ok(r) => Ok(if nullEmpty then NullEmpties(r) else r)
  }

  function PrepareAll(fields: Fields, headers: seq<string>, raws: seq<seq<Cell>>, formats: Formats, nullEmpty: bool): (r: seq<Result<seq<Cell>, Exc>>)
    ensures |r| == |raws| && forall k :: 0 <= k < |raws| ==> r[k] == Prepare(fields, headers, raws[k], formats, nullEmpty)
  {
    seq(|raws|, k requires 0 <= k < |raws| => Prepare(fields, headers, raws[k], formats, nullEmpty))
  }

  // ------------------------------------------------------------- columns

  /** `[f'{header} TEXT' for header in headers]`. */
  function TextDefs(headers: seq<string>): (r: seq<ColumnDef>)
    ensures |r| == |headers| && forall i :: 0 <= i < |headers| ==> r[i] == ColumnDef(headers[i], "TEXT")
  {
    seq(|headers|, i requires 0 <= i < |headers| => ColumnDef(headers[i], "TEXT"))
  }

  /** The declared headers, in header order, with their declared types. */
  function DeclaredDefs(fields: Fields, headers: seq<string>): seq<ColumnDef> {
    if headers == [] then []
    else if Declares(fields, headers[0]) then [ColumnDef(headers[0], TypeOf(fields, headers[0]))] + DeclaredDefs(fields, headers[1..])
    else DeclaredDefs(fields, headers[1..])
  }

  /** The column list of the schema-aware loaders: the declared headers with
      their types when the table has a schema, otherwise every header as TEXT. */
  function SchemaDefs(fields: Fields, headers: seq<string>): seq<ColumnDef> {
    if fields != [] then DeclaredDefs(fields, headers) else TextDefs(headers)
  }

  // -------------------------------------------------------------- a load

  /** `executemany` once per batch. */
  function Inserts(table: string, columns: seq<string>, batches: seq<seq<seq<Cell>>>): (r: seq<Stmt>)
    ensures |r| == |batches| && forall i :: 0 <= i < |batches| ==> r[i] == InsertMany(table, columns, batches[i])
  {
    seq(|batches|, i requires 0 <= i < |batches| => InsertMany(table, columns, batches[i]))
  }

  /** How a loader call ends once its statements have all succeeded. */
  datatype End = Return(message: string) | Raise(exc: Exc)

  /** The statements a load issues, in order, and how it ends if they all succeed. */
  datatype Plan = Plan(stmts: seq<Stmt>, end: End)

  /** The first record whose preparation raised, or `|rs|`. */
  function FirstErr<T>(rs: seq<Result<T, Exc>>): (k: nat)
    ensures k <= |rs|
    ensures forall j :: 0 <= j < k ==> rs[j].Ok?
    ensures k < |rs| ==> rs[k].Err?
  {
    if rs == [] then 0 else if rs[0].Err? then 0 else 1 + FirstErr(rs[1..])
  }

  function Values<T>(rs: seq<Result<T, Exc>>): (r: seq<T>)
    requires forall j :: 0 <= j < |rs| ==> rs[j].Ok?
    ensures |r| == |rs| && forall j :: 0 <= j < |rs| ==> r[j] == rs[j].value
  {
    seq(|rs|, j requires 0 <= j < |rs| => rs[j].value)
  }

  /** The shared loop: `pre` statements, then the records prepared one at a
      time and sent in batches of 1000, then `post` and the return value.
      A record whose preparation raises ends the load there: the batch being
      filled is never sent and `post` never runs. */
  function Bulk(pre: seq<Stmt>, table: string, columns: seq<string>, prepared: seq<Result<seq<Cell>, Exc>>,
                post: seq<Stmt>, message: string): Plan
  {
    var k := FirstErr(prepared);
    var ok := Values(prepared[..k]);
    if k < |prepared| then Plan(pre + Inserts(table, columns, SentBefore(ok)), Raise(prepared[k].error))
    else Plan(pre + Inserts(table, columns, Batches(ok)) + post, Return(message))
  }

  /** The rows the statements insert, in order. */
  function RowsSent(stmts: seq<Stmt>): seq<seq<Cell>> {
    if stmts == [] then []
    else (if stmts[0].InsertMany? then stmts[0].rows else []) + RowsSent(stmts[1..])
  }

  /** Which exceptions a loader's `except` clauses catch. */
  datatype Catch =
    | Uncaught                 // no try statement
    | DbErrors(table: string)  // except mysql.connector.Error
    | AllErrors(table: string) // that, then except Exception

  /** The exception the caller sees. */
  function Handle(c: Catch, e: Exc): (r: Exc)
    ensures c.Uncaught? ==> r == e
    ensures !c.Uncaught? && e.kind == MySqlError ==>
      r == Exc(PlainException, "Error migrating table " + c.table + ": " + e.text)
    ensures c.DbErrors? && e.kind != MySqlError ==> r == e
    ensures c.AllErrors? && e.kind != MySqlError ==> r == Exc(PlainException, "Error general: " + e.text)
  {
    match c
    case Uncaught => e
    case DbErrors(t) => if e.kind == MySqlError then Exc(PlainException, "Error migrating table " + t + ": " + e.text) else e
    case AllErrors(t) =>
      if e.kind == MySqlError then Exc(PlainException, "Error migrating table " + t + ": " + e.text)
      else Exc(PlainException, "Error general: " + e.text)
  }

  /** A loader call: the state it leaves, how many statements succeeded, and
      what it returns or raises. */
  datatype Outcome = Outcome(db: Db, done: nat, result: Result<string, Exc>)

  function Perform(plan: Plan, db: Db, fault: Fault, c: Catch): (o: Outcome)
    ensures o.done <= |plan.stmts|
  {
    var run := RunAll(plan.stmts, db, fault);
    if run.error.Some? then Outcome(run.db, run.done, Err(Handle(c, Exc(MySqlError, Describe(run.error.value)))))
    else
      match plan.end
      case Return(m) => Outcome(run.db, run.done, Ok(m))
      case Raise(e) => Outcome(run.db, run.done, Err(Handle(c, e)))
  }

  /** The data records of a CSV file as query parameters. */
  function Records(records: seq<seq<string>>): (r: seq<seq<Cell>>)
    ensures |r| == |records| && forall k :: 0 <= k < |records| ==> r[k] == Cells(records[k])
  {
    seq(|records|, k requires 0 <= k < |records| => Cells(records[k]))
  }

  /** What every loader issues before the first insert: an optional
      `DROP TABLE IF EXISTS`, the `CREATE TABLE`, foreign key checks off and
      the table's keys disabled. */
  function Opening(drop: bool, table: string, defs: seq<ColumnDef>): seq<Stmt> {
    (if drop then [DropTableIfExists(table)] else []) +
    [CreateTable(table, defs), ForeignKeyChecks(false), DisableKeys(table)]
  }

  /** What every loader issues after the last insert. */
  function Closing(table: string): seq<Stmt> {
    [EnableKeys(table), ForeignKeyChecks(true)]
  }

  /** The success message of every `migrate_*` loader. */
  function Migrated(table: string): string {
    "Table " + table + " migrated successfully."
  }

  // ------------------------------------------------------- row lemmas

  /** A short row grows to the header width with NULLs; a row is never cut;
      padding twice pads once. */
  lemma PadSpec(row: seq<Cell>, width: nat)
    ensures |Pad(row, width)| == if |row| < width then width else |row|
    ensures Pad(row, width)[..|row|] == row
    ensures forall i :: |row| <= i < |Pad(row, width)| ==> Pad(row, width)[i] == None
    ensures Pad(Pad(row, width), width) == Pad(row, width)
  {
  }

  /** Exactly the empty-text cells become NULL; doing it twice changes nothing more. */
  lemma NullEmptiesSpec(row: seq<Cell>)
    ensures forall i :: 0 <= i < |row| ==> NullEmpties(row)[i] != Some("")
    ensures forall i :: 0 <= i < |row| ==> (NullEmpties(row)[i] == row[i] <==> row[i] != Some(""))
    ensures NullEmpties(NullEmpties(row)) == NullEmpties(row)
  {
  }

  /** A date written in the loader's input format comes out as the same
      date in ISO form. */
  lemma ConvertDateRoundTrip(layout: Layout, d: Date)
    requires ValidDate(d)
    ensures ConvertDate(Some(RenderDate(layout, d)), layout) == Ok(Some(IsoDate(d)))
  {
    ParseRenderDate(layout, d);
  }

  /** What `convert_date` writes is a real date, and converting it again
      through `%Y-%m-%d` gives it back unchanged. */
  lemma ConvertDateStable(cell: Cell, layout: Layout)
    requires ConvertDate(cell, layout).Ok? && ConvertDate(cell, layout).value.Some?
    ensures ParseDate(YearMonthDay, ConvertDate(cell, layout).value.value).Some?
    ensures ConvertDate(ConvertDate(cell, layout).value, YearMonthDay) == ConvertDate(cell, layout)
  {
    var d := ParseDate(layout, cell.value).value;
    ParseRenderDate(YearMonthDay, d);
  }

  lemma ConvertMomentRoundTrip(layout: Layout, m: Moment)
    requires ValidMoment(m)
    ensures ConvertMoment(Some(RenderMoment(layout, m)), layout) == Ok(Some(IsoMoment(m)))
  {
    ParseRenderMoment(layout, m);
  }

  lemma ConvertMomentStable(cell: Cell, layout: Layout)
    requires ConvertMoment(cell, layout).Ok? && ConvertMoment(cell, layout).value.Some?
    ensures ParseMoment(YearMonthDay, ConvertMoment(cell, layout).value.value).Some?
    ensures ConvertMoment(ConvertMoment(cell, layout).value, YearMonthDay) == ConvertMoment(cell, layout)
  {
    var m := ParseMoment(layout, cell.value).value;
    ParseRenderMoment(YearMonthDay, m);
  }

  /** The row loop succeeds iff every cell under a header converts; then
      each such cell holds its conversion and the cells past the last
      header are unchanged. */
  lemma {:induction false} ConvertRowSpec(fields: Fields, headers: seq<string>, row: seq<Cell>, formats: Formats)
    requires |headers| <= |row|
    ensures ConvertRow(fields, headers, row, formats).Ok? <==>
      forall i :: 0 <= i < |headers| ==> ConvertCell(fields, headers[i], row[i], formats).Ok?
    ensures ConvertRow(fields, headers, row, formats).Ok? ==>
      var r := ConvertRow(fields, headers, row, formats).value;
      |r| == |row| &&
      (forall i :: 0 <= i < |headers| ==> r[i] == ConvertCell(fields, headers[i], row[i], formats).value) &&
      (forall i :: |headers| <= i < |row| ==> r[i] == row[i])
    decreases |headers|
  {
    if headers != [] {
      ConvertRowSpec(fields, headers[1..], row[1..], formats);
      assert forall i :: 1 <= i < |headers| ==> headers[1..][i - 1] == headers[i] && row[1..][i - 1] == row[i];
      assert forall i :: 1 <= i < |row| ==> row[1..][i - 1] == row[i];
    }
  }

  /** Each declared column is a declared header with its declared type. */
  lemma {:induction false} DeclaredDefsSound(fields: Fields, headers: seq<string>)
    ensures forall i :: 0 <= i < |DeclaredDefs(fields, headers)| ==>
      var d := DeclaredDefs(fields, headers)[i];
      d.name in headers && Declares(fields, d.name) && d.sqlType == TypeOf(fields, d.name)
  {
    if headers != [] {
      DeclaredDefsSound(fields, headers[1..]);
      var r := DeclaredDefs(fields, headers);
      var rest := DeclaredDefs(fields, headers[1..]);
      assert forall h :: h in headers[1..] ==> h in headers;
      if Declares(fields, headers[0]) {
        assert forall i :: 1 <= i < |r| ==> r[i] == rest[i - 1];
      }
    }
  }

  /** Every declared header is a column, and header order is kept. */
  lemma {:induction false} DeclaredDefsComplete(fields: Fields, headers: seq<string>)
    ensures forall h :: h in headers && Declares(fields, h) ==> h in DefNames(DeclaredDefs(fields, headers))
    ensures IsSubseq(DefNames(DeclaredDefs(fields, headers)), headers)
  {
    if headers != [] {
      DeclaredDefsComplete(fields, headers[1..]);
      var rest := DeclaredDefs(fields, headers[1..]);
      var r := DeclaredDefs(fields, headers);
      assert forall h :: h in headers ==> h == headers[0] || h in headers[1..];
      if Declares(fields, headers[0]) {
        assert r == [ColumnDef(headers[0], TypeOf(fields, headers[0]))] + rest;
        assert DefNames(r) == [headers[0]] + DefNames(rest);
        assert DefNames(r)[1..] == DefNames(rest);
      }
    }
  }

  /** Headers none of which is declared give no column at all. */
  lemma {:induction false} NoneDeclared(fields: Fields, headers: seq<string>)
    requires forall i :: 0 <= i < |headers| ==> !Declares(fields, headers[i])
    ensures DeclaredDefs(fields, headers) == []
  {
    if headers != [] {
      assert !Declares(fields, headers[0]);
      NoneDeclared(fields, headers[1..]);
    }
  }

  /** When every header is declared, the columns are the headers. */
  lemma {:induction false} DeclaredDefsAll(fields: Fields, headers: seq<string>)
    requires forall i :: 0 <= i < |headers| ==> Declares(fields, headers[i])
    ensures DefNames(DeclaredDefs(fields, headers)) == headers
  {
    if headers != [] {
      assert Declares(fields, headers[0]);
      DeclaredDefsAll(fields, headers[1..]);
      var rest := DeclaredDefs(fields, headers[1..]);
      var r := DeclaredDefs(fields, headers);
      assert r == [ColumnDef(headers[0], TypeOf(fields, headers[0]))] + rest;
      assert DefNames(r) == [headers[0]] + DefNames(rest);
    }
  }

  /** Distinct headers give distinct declared columns. */
  lemma {:induction false} DeclaredDefsDistinct(fields: Fields, headers: seq<string>)
    requires Distinct(headers)
    ensures Distinct(DefNames(DeclaredDefs(fields, headers)))
  {
    if headers != [] {
      var tail := headers[1..];
      assert Distinct(tail) by {
        assert forall i :: 0 <= i < |tail| ==> tail[i] == headers[i + 1];
      }
      DeclaredDefsDistinct(fields, tail);
      if Declares(fields, headers[0]) {
        DeclaredDefsSound(fields, tail);
        var rest := DefNames(DeclaredDefs(fields, tail));
        var names := DefNames(DeclaredDefs(fields, headers));
        assert names == [headers[0]] + rest;
        forall j | 0 <= j < |rest|
          ensures !SameName(headers[0], rest[j])
        {
          var k :| 0 <= k < |tail| && tail[k] == rest[j];
          assert headers[k + 1] == rest[j];
        }
      }
    }
  }

  // ----------------------------------------------------- trace lemmas

  lemma {:induction false} RowsSentAppend(a: seq<Stmt>, b: seq<Stmt>)
    ensures RowsSent(a + b) == RowsSent(a) + RowsSent(b)
  {
    if a != [] {
      assert (a + b)[0] == a[0] && (a + b)[1..] == a[1..] + b;
      RowsSentAppend(a[1..], b);
    } else {
      assert a + b == b;
    }
  }

  /** The insert statements send exactly the rows of the batches, in order. */
  lemma {:induction false} RowsSentInserts(table: string, columns: seq<string>, batches: seq<seq<seq<Cell>>>)
    ensures RowsSent(Inserts(table, columns, batches)) == Concat(batches)
  {
    if batches != [] {
      var r := Inserts(table, columns, batches);
      assert r[1..] == Inserts(table, columns, batches[1..]);
      RowsSentInserts(table, columns, batches[1..]);
    }
  }

  /** When every record prepares, the load is `pre`, then ceil(N/1000)
      inserts of at most 1000 rows each (all full but the last) sending all
      prepared rows in order, then `post`, and it returns its message. */
  lemma BulkCompletes(pre: seq<Stmt>, table: string, columns: seq<string>, prepared: seq<Result<seq<Cell>, Exc>>,
                      post: seq<Stmt>, message: string)
    requires forall k :: 0 <= k < |prepared| ==> prepared[k].Ok?
    ensures var plan := Bulk(pre, table, columns, prepared, post, message);
      var n := (|prepared| + BatchSize - 1) / BatchSize;
      plan.end == Return(message) &&
      |plan.stmts| == |pre| + n + |post| &&
      plan.stmts[..|pre|] == pre && plan.stmts[|pre| + n..] == post &&
      (forall i :: |pre| <= i < |pre| + n ==>
        plan.stmts[i].InsertMany? && plan.stmts[i].table == table && plan.stmts[i].columns == columns &&
        0 < |plan.stmts[i].rows| <= BatchSize &&
        (i < |pre| + n - 1 ==> |plan.stmts[i].rows| == BatchSize)) &&
      RowsSent(plan.stmts[|pre|..|pre| + n]) == Values(prepared)
  {
    var ok := Values(prepared[..|prepared|]);
    assert prepared[..|prepared|] == prepared;
    BatchesSpec(ok);
    var ins := Inserts(table, columns, Batches(ok));
    RowsSentInserts(table, columns, Batches(ok));
    var stmts := pre + ins + post;
    assert stmts[|pre|..|pre| + |ins|] == ins;
    assert stmts[|pre| + |ins|..] == post;
    assert stmts[..|pre|] == pre;
  }

  /** When record `k` is the first that fails to prepare, the load is `pre`
      then floor(k/1000) full inserts sending the first k - k % 1000 prepared
      rows in order, and it raises that record's exception: `post` never runs. */
  lemma BulkStops(pre: seq<Stmt>, table: string, columns: seq<string>, prepared: seq<Result<seq<Cell>, Exc>>,
                  post: seq<Stmt>, message: string)
    requires FirstErr(prepared) < |prepared|
    ensures var plan := Bulk(pre, table, columns, prepared, post, message);
      var k := FirstErr(prepared);
      plan.end == Raise(prepared[k].error) &&
      |plan.stmts| == |pre| + k / BatchSize &&
      plan.stmts[..|pre|] == pre &&
      (forall i :: |pre| <= i < |plan.stmts| ==>
        plan.stmts[i].InsertMany? && plan.stmts[i].table == table && plan.stmts[i].columns == columns &&
        |plan.stmts[i].rows| == BatchSize) &&
      RowsSent(plan.stmts[|pre|..]) == Values(prepared[..k])[..k - k % BatchSize]
  {
    var k := FirstErr(prepared);
    var ok := Values(prepared[..k]);
    SentBeforeSpec(ok);
    var sent := SentBefore(ok);
    ConcatFullLength(sent, BatchSize);
    ModDiv(k, |sent|, BatchSize);
    var ins := Inserts(table, columns, sent);
    RowsSentInserts(table, columns, sent);
    var stmts := pre + ins;
    assert stmts[|pre|..] == ins;
    assert stmts[..|pre|] == pre;
  }

  /** `BulkStops` for a loader whose records raise only the strptime error,
      stated against the rows the records become. */
  lemma BulkRaises(pre: seq<Stmt>, table: string, columns: seq<string>,
                   prepared: seq<Result<seq<Cell>, Exc>>, rows: seq<seq<Cell>>)
    requires FirstErr(prepared) < |prepared| && prepared[FirstErr(prepared)].error == NoneToStrptime
    requires |rows| == |prepared| && forall j :: 0 <= j < FirstErr(prepared) ==> rows[j] == prepared[j].value
    ensures var p := Bulk(pre, table, columns, prepared, Closing(table), Migrated(table));
      var k := FirstErr(prepared);
      p.end == Raise(NoneToStrptime) &&
      |p.stmts| == |pre| + k / BatchSize &&
      p.stmts[..|pre|] == pre &&
      (forall i :: |pre| <= i < |p.stmts| ==> p.stmts[i].InsertMany?) &&
      RowsSent(p.stmts[|pre|..]) == rows[..k - k % BatchSize]
  {
    var k := FirstErr(prepared);
    BulkStops(pre, table, columns, prepared, Closing(table), Migrated(table));
    assert Values(prepared[..k]) == rows[..k];
    assert rows[..k][..k - k % BatchSize] == rows[..k - k % BatchSize];
  }

  /** Whatever the records hold, a plan starts with its `pre` statements. */
  lemma BulkPrefix(pre: seq<Stmt>, table: string, columns: seq<string>, prepared: seq<Result<seq<Cell>, Exc>>,
                   post: seq<Stmt>, message: string)
    ensures var plan := Bulk(pre, table, columns, prepared, post, message);
      |pre| <= |plan.stmts| && plan.stmts[..|pre|] == pre
  {
    if FirstErr(prepared) < |prepared| {
      BulkStops(pre, table, columns, prepared, post, message);
    } else {
      BulkCompletes(pre, table, columns, prepared, post, message);
    }
  }

  lemma ModDiv(k: nat, q: nat, size: nat)
    requires 0 < size && q * size == k - k % size
    ensures q == k / size
  {
    assert k == (k / size) * size + k % size;
    assert (q - k / size) * size == 0;
  }

  /** Batches sent to a table whose columns are exactly the columns named,
      with every row the right width, all succeed and append their rows to
      the table, in order, and nothing else changes. */
  lemma {:induction false} InsertsStore(db: Db, table: string, columns: seq<string>, batches: seq<seq<seq<Cell>>>)
    requires table in db.tables && columns == DefNames(db.tables[table].defs) && Distinct(columns)
    requires forall i :: 0 <= i < |Concat(batches)| ==> |Concat(batches)[i]| == |columns|
    ensures RunAll(Inserts(table, columns, batches), db, NoFault) ==
      Run(|batches|, db.(tables := db.tables[table := db.tables[table].(rows := db.tables[table].rows + Concat(batches))]), None, None)
    decreases |batches|, 1
  {
    if batches == [] {
      var tab := db.tables[table];
      assert tab.rows + Concat(batches) == tab.rows;
      assert db.tables[table := tab] == db.tables;
    } else {
      InsertsStoreCons(db, table, columns, batches);
    }
  }

  lemma {:induction false} InsertsStoreCons(db: Db, table: string, columns: seq<string>, batches: seq<seq<seq<Cell>>>)
    requires batches != []
    requires table in db.tables && columns == DefNames(db.tables[table].defs) && Distinct(columns)
    requires forall i :: 0 <= i < |Concat(batches)| ==> |Concat(batches)[i]| == |columns|
    ensures RunAll(Inserts(table, columns, batches), db, NoFault) ==
      Run(|batches|, db.(tables := db.tables[table := db.tables[table].(rows := db.tables[table].rows + Concat(batches))]), None, None)
    decreases |batches|, 0
  {
    var tab := db.tables[table];
    var b, rest := batches[0], batches[1..];
    AllFit(batches, |columns|);
    var db1 := db.(tables := db.tables[table := tab.(rows := tab.rows + b)]);
    var db2 := db1.(tables := db1.tables[table := db1.tables[table].(rows := db1.tables[table].rows + Concat(rest))]);
    assert RunAll(Inserts(table, columns, batches), db, NoFault) == Run(|rest| + 1, db2, None, None) by {
      InsertsCons(table, columns, batches);
      InsertOne(db, table, columns, b);
      RunCons(InsertMany(table, columns, b), Inserts(table, columns, rest), db, db1);
      InsertsStore(db1, table, columns, rest);
    }
    AppendTwice(db, table, b, Concat(rest));
  }

  /** Appending `a` then `c` to a table is appending `a + c`. */
  lemma AppendTwice(db: Db, table: string, a: seq<seq<Cell>>, c: seq<seq<Cell>>)
    requires table in db.tables
    ensures var tab := db.tables[table];
      var db1 := db.(tables := db.tables[table := tab.(rows := tab.rows + a)]);
      db1.(tables := db1.tables[table := db1.tables[table].(rows := db1.tables[table].rows + c)]) ==
      db.(tables := db.tables[table := tab.(rows := tab.rows + (a + c))])
  {
    var tab := db.tables[table];
    assert (tab.rows + a) + c == tab.rows + (a + c);
  }

  lemma InsertsCons(table: string, columns: seq<string>, batches: seq<seq<seq<Cell>>>)
    requires batches != []
    ensures Inserts(table, columns, batches) == [InsertMany(table, columns, batches[0])] + Inserts(table, columns, batches[1..])
  {
  }

  lemma AllFit(batches: seq<seq<seq<Cell>>>, width: nat)
    requires batches != []
    requires forall i :: 0 <= i < |Concat(batches)| ==> |Concat(batches)[i]| == width
    ensures Concat(batches) == batches[0] + Concat(batches[1..])
    ensures forall i :: 0 <= i < |batches[0]| ==> |batches[0][i]| == width
    ensures forall i :: 0 <= i < |Concat(batches[1..])| ==> |Concat(batches[1..])[i]| == width
  {
    assert Concat(batches) == batches[0] + Concat(batches[1..]);
    PartsFit(batches[0], Concat(batches[1..]), width);
  }

  /** Rows of one width split into two runs of that width. */
  lemma PartsFit(a: seq<seq<Cell>>, c: seq<seq<Cell>>, width: nat)
    requires forall i :: 0 <= i < |a + c| ==> |(a + c)[i]| == width
    ensures forall i :: 0 <= i < |a| ==> |a[i]| == width
    ensures forall i :: 0 <= i < |c| ==> |c[i]| == width
  {
    forall i | 0 <= i < |a| ensures |a[i]| == width {
      assert a[i] == (a + c)[i];
    }
    forall i | 0 <= i < |c| ensures |c[i]| == width {
      assert c[i] == (a + c)[|a| + i];
    }
  }

  /** One batch of well-formed rows is appended as sent. */
  lemma InsertOne(db: Db, table: string, columns: seq<string>, rows: seq<seq<Cell>>)
    requires table in db.tables && columns == DefNames(db.tables[table].defs) && Distinct(columns)
    requires forall i :: 0 <= i < |rows| ==> |rows[i]| == |columns|
    ensures Exec(db, InsertMany(table, columns, rows)) ==
      Ok(Reply(db.(tables := db.tables[table := db.tables[table].(rows := db.tables[table].rows + rows)]), None))
  {
    var tab := db.tables[table];
    if rows != [] {
      KnownColumns(columns);
      assert FirstMisfit(rows, |columns|) == |rows|;
      InsertPasses(db, table, columns, rows);
      AlignAllIdentity(tab.defs, rows);
    } else {
      assert tab.rows + rows == tab.rows;
      assert db.tables[table := tab] == db.tables;
    }
  }

  lemma KnownColumns(names: seq<string>)
    requires Distinct(names)
    ensures FirstUnknown(names, names) == |names|
    ensures FirstRepeat(names) == |names|
  {
  }

  // --------------------------------------------------- whole-load lemmas

  /** Without a schema the row loop converts nothing: a record is padded
      and, where the loader does so, its empty text made NULL. */
  lemma PrepareUntyped(headers: seq<string>, raw: seq<Cell>, formats: Formats, nullEmpty: bool)
    ensures Prepare([], headers, raw, formats, nullEmpty) ==
      Ok(if nullEmpty then NullEmpties(Pad(raw, |headers|)) else Pad(raw, |headers|))
  {
    var row := Pad(raw, |headers|);
    PadSpec(raw, |headers|);
    ConvertRowSpec([], headers, row, formats);
    var r := ConvertRow([], headers, row, formats);
    assert r.Ok? && r.value == row;
  }

  /** A column whose cells go through `strptime`. */
  predicate Dated(fields: Fields, header: string) {
    Declares(fields, header) &&
    (TypeOf(fields, header) == "DATE" || TypeOf(fields, header) == "DATETIME" || TypeOf(fields, header) == "TIMESTAMP")
  }

  /** A record (with empty text made NULL) fails to prepare exactly when a
      dated column gets a NULL, from the record or from padding, and then
      with `strptime`'s TypeError; otherwise each cell under a header holds
      its conversion, cells past the last header are kept, and the padding
      is NULL. */
  lemma PrepareSpec(fields: Fields, headers: seq<string>, raw: seq<Cell>, formats: Formats)
    ensures var r := Prepare(fields, headers, raw, formats, true);
      r.Err? <==> exists i :: 0 <= i < |headers| && (i >= |raw| || raw[i].None?) && Dated(fields, headers[i])
    ensures var r := Prepare(fields, headers, raw, formats, true);
      r.Err? ==> r.error == NoneToStrptime
    ensures var r := Prepare(fields, headers, raw, formats, true);
      r.Ok? ==>
        |r.value| == (if |raw| < |headers| then |headers| else |raw|) &&
        (forall i :: 0 <= i < |headers| && i < |raw| ==>
          r.value[i] == EmptyToNull(ConvertCell(fields, headers[i], raw[i], formats).value)) &&
        (forall i :: |headers| <= i < |raw| ==> r.value[i] == EmptyToNull(raw[i])) &&
        (forall i :: |raw| <= i < |headers| ==> r.value[i] == None)
  {
    var row := Pad(raw, |headers|);
    PadSpec(raw, |headers|);
    assert forall i :: 0 <= i < |raw| ==> row[i] == raw[i] by {
      forall i | 0 <= i < |raw| ensures row[i] == raw[i] {
        assert row[..|raw|][i] == row[i];
      }
    }
    ConvertRowSpec(fields, headers, row, formats);
    forall i | 0 <= i < |headers|
      ensures ConvertCell(fields, headers[i], row[i], formats).Err? <==> (row[i].None? && Dated(fields, headers[i]))
    {
    }
    assert forall i :: 0 <= i < |headers| ==> (row[i].None? <==> (i >= |raw| || raw[i].None?));
  }

  /** The three statements after the optional drop, against a state
      without the table. */
  lemma RunCreate(db: Db, table: string, defs: seq<ColumnDef>)
    requires table !in db.tables && defs != [] && Distinct(DefNames(defs))
    ensures RunAll([CreateTable(table, defs), ForeignKeyChecks(false), DisableKeys(table)], db, NoFault) ==
      Run(3, db.(tables := db.tables[table := Table(defs, [], false)], fkChecks := false), None, None)
  {
    var db1 := db.(tables := db.tables[table := Table(defs, [], true)]);
    var db2 := db1.(fkChecks := false);
    var db3 := db2.(tables := db2.tables[table := Table(defs, [], false)]);
    var tail := [ForeignKeyChecks(false), DisableKeys(table)];
    assert RunAll(tail, db1, NoFault) == Run(2, db3, None, None) by {
      RunCons(DisableKeys(table), [], db2, db3);
      RunCons(ForeignKeyChecks(false), [DisableKeys(table)], db1, db2);
      assert [ForeignKeyChecks(false)] + [DisableKeys(table)] == tail;
    }
    CreateFresh(db, table, defs);
    RunCons(CreateTable(table, defs), tail, db, db1);
    assert [CreateTable(table, defs)] + tail == [CreateTable(table, defs), ForeignKeyChecks(false), DisableKeys(table)];
    assert db3 == db.(tables := db.tables[table := Table(defs, [], false)], fkChecks := false);
  }

  /** A run of the opening statements against a state where the table can
      be created. */
  lemma RunOpening(db: Db, drop: bool, table: string, defs: seq<ColumnDef>)
    requires drop || table !in db.tables
    requires defs != [] && Distinct(DefNames(defs))
    ensures RunAll(Opening(drop, table, defs), db, NoFault) ==
      Run(|Opening(drop, table, defs)|, db.(tables := db.tables[table := Table(defs, [], false)], fkChecks := false), None, None)
  {
    var create := [CreateTable(table, defs), ForeignKeyChecks(false), DisableKeys(table)];
    if drop {
      var db0 := db.(tables := db.tables - {table});
      RunCreate(db0, table, defs);
      RunCons(DropTableIfExists(table), create, db, db0);
      assert db0.tables[table := Table(defs, [], false)] == db.tables[table := Table(defs, [], false)];
    } else {
      RunCreate(db, table, defs);
      assert Opening(drop, table, defs) == create;
    }
  }

  /** A run of the closing statements against an existing table. */
  lemma RunClosing(db: Db, table: string)
    requires table in db.tables
    ensures RunAll(Closing(table), db, NoFault) ==
      Run(2, db.(tables := db.tables[table := db.tables[table].(keysOn := true)], fkChecks := true), None, None)
  {
    var db1 := db.(tables := db.tables[table := db.tables[table].(keysOn := true)]);
    RunCons(ForeignKeyChecks(true), [], db1, db1.(fkChecks := true));
    RunCons(EnableKeys(table), [ForeignKeyChecks(true)], db, db1);
  }

  /** A complete load against a state where the table can be created, with
      column names that MySQL accepts and rows that fit them: every
      statement succeeds and the table ends up holding exactly the rows
      sent, in order, with keys and foreign key checks back on. */
  lemma LoadStores(db: Db, drop: bool, table: string, defs: seq<ColumnDef>, rows: seq<seq<Cell>>)
    requires drop || table !in db.tables
    requires defs != [] && Distinct(DefNames(defs))
    requires forall k :: 0 <= k < |rows| ==> |rows[k]| == |defs|
    ensures var stmts := Opening(drop, table, defs) + Inserts(table, DefNames(defs), Batches(rows)) + Closing(table);
      RunAll(stmts, db, NoFault) ==
      Run(|stmts|, db.(tables := db.tables[table := Table(defs, rows, true)], fkChecks := true), None, None)
  {
    var open, ins, close := Opening(drop, table, defs), Inserts(table, DefNames(defs), Batches(rows)), Closing(table);
    var db1 := db.(tables := db.tables[table := Table(defs, [], false)], fkChecks := false);
    var db2 := db1.(tables := db1.tables[table := Table(defs, rows, false)]);
    var db3 := db.(tables := db.tables[table := Table(defs, rows, true)], fkChecks := true);
    assert RunAll(open, db, NoFault) == Run(|open|, db1, None, None) by {
      RunOpening(db, drop, table, defs);
    }
    assert RunAll(ins, db1, NoFault) == Run(|ins|, db2, None, None) by {
      BatchesSpec(rows);
      InsertsStore(db1, table, DefNames(defs), Batches(rows));
      assert db1.tables[table].rows + Concat(Batches(rows)) == rows;
    }
    assert RunAll(close, db2, NoFault) == Run(|close|, db3, None, None) by {
      RunClosing(db2, table);
      assert db2.(tables := db2.tables[table := db2.tables[table].(keysOn := true)], fkChecks := true) == db3;
    }
    RunThen(open, ins, db, db1, db2);
    RunThen(open + ins, close, db, db2, db3);
  }

  /** A load whose insert names a column the table lacks: the opening
      statements succeed, the first insert fails with the first such column,
      and the table is left created and empty with its keys and the foreign
      key checks off. */
  lemma UnknownColumnStops(db: Db, drop: bool, table: string, defs: seq<ColumnDef>, columns: seq<string>, rows: seq<seq<Cell>>)
    requires drop || table !in db.tables
    requires defs != [] && Distinct(DefNames(defs))
    requires FirstUnknown(columns, DefNames(defs)) < |columns|
    requires rows != [] && forall k :: 0 <= k < |rows| ==> |rows[k]| == |columns|
    ensures var stmts := Opening(drop, table, defs) + Inserts(table, columns, Batches(rows)) + Closing(table);
      RunAll(stmts, db, NoFault) ==
      Run(|Opening(drop, table, defs)|, db.(tables := db.tables[table := Table(defs, [], false)], fkChecks := false),
          Some(UnknownColumn(columns[FirstUnknown(columns, DefNames(defs))])), None)
  {
    var open, ins := Opening(drop, table, defs), Inserts(table, columns, Batches(rows));
    var db1 := db.(tables := db.tables[table := Table(defs, [], false)], fkChecks := false);
    var e := UnknownColumn(columns[FirstUnknown(columns, DefNames(defs))]);
    RunOpening(db, drop, table, defs);
    assert RunAll(ins + Closing(table), db1, NoFault) == Run(0, db1, Some(e), None) by {
      BatchesSpec(rows);
      AllFit(Batches(rows), |columns|);
      var first := Batches(rows)[0];
      assert first != [] && FirstMisfit(first, |columns|) == |first|;
      InsertsCons(table, columns, Batches(rows));
      assert ins + Closing(table) == [InsertMany(table, columns, first)] + (Inserts(table, columns, Batches(rows)[1..]) + Closing(table));
      InsertUnknown(db1, table, columns, first);
      FirstFails(InsertMany(table, columns, first), Inserts(table, columns, Batches(rows)[1..]) + Closing(table), db1, e);
    }
    RunThenFail(open, ins + Closing(table), db, db1, e);
    assert open + ins + Closing(table) == open + (ins + Closing(table));
  }


  /** A fault at statement `i` of a load: the caller gets the database
      error the loader's handler makes of it, the injected one when the
      statements before it succeeded. */
  lemma PerformFault(plan: Plan, db: Db, i: nat, m: string, c: Catch)
    requires i < |plan.stmts|
    ensures var ra := RunAll(plan.stmts[..i], db, NoFault);
      var e := if ra.error.Some? then ra.error.value else Injected(m);
      Perform(plan, db, FailAt(i, m), c).result == Err(Handle(c, Exc(MySqlError, Describe(e))))
  {
    FaultStops(plan.stmts, db, i, m);
  }

  /** A plan that raises after its last statement, with foreign key checks
      turned off at `p` and not touched again, raises (through the handler)
      with the checks left off once every statement has succeeded. */
  lemma RaisedLeavesChecksOff(plan: Plan, db: Db, c: Catch, p: nat)
    requires plan.end.Raise? && p < |plan.stmts| && plan.stmts[p] == ForeignKeyChecks(false)
    requires forall j :: p < j < |plan.stmts| ==> !plan.stmts[j].ForeignKeyChecks?
    ensures var o := Perform(plan, db, NoFault, c);
      o.done == |plan.stmts| ==> o.result == Err(Handle(c, plan.end.exc)) && !o.db.fkChecks
  {
    var stmts := plan.stmts;
    if RunAll(stmts, db, NoFault).done == |stmts| {
      var a, b := stmts[..p + 1], stmts[p + 1..];
      assert stmts == a + b;
      assert forall j :: 0 <= j < |b| ==> b[j] == stmts[p + 1 + j];
      ChecksAfter(a, b, db, false);
    }
  }

  /** A load interrupted by a fault after foreign key checks were turned off
      and before they are turned back on leaves them off. */
  lemma ChecksLeftOff(plan: Plan, db: Db, p: nat, i: nat, m: string, c: Catch)
    requires p < i < |plan.stmts| && plan.stmts[p] == ForeignKeyChecks(false)
    requires forall j :: p < j < i ==> !plan.stmts[j].ForeignKeyChecks?
    requires RunAll(plan.stmts[..i], db, NoFault).error.None?
    ensures !Perform(plan, db, FailAt(i, m), c).db.fkChecks
  {
    var stmts := plan.stmts;
    FaultStops(stmts, db, i, m);
    var a, b := stmts[..p + 1], stmts[p + 1..i];
    assert stmts[..i] == a + b;
    assert forall j :: 0 <= j < |b| ==> b[j] == stmts[p + 1 + j];
    ChecksAfter(a, b, db, false);
  }
}
