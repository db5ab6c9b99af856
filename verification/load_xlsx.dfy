/** The XLSX loader (`migrate_xlsx_to_mysql` in import_xlsx_mysql.py): the
    table is dropped first, the header cells upper-cased, the table created
    from the headers the schema declares (or every header as TEXT), and the
    rows padded, their DATE cells re-read as `YYYY-MM-DD` and DATETIME or
    TIMESTAMP cells as `MM/DD/YYYY HH:MM:SS`, empty text made NULL, and sent
    in batches of 1000. Database errors come back as "Error migrating
    table", every other exception as "Error general". */
module XlsxLoader {
  import opened Base
  import opened Text
  import opened Dates
  import opened Registry
  import opened Batching
  import opened Sql
  import opened Loading

  /** The active sheet as values: the first row, and the rows after it. An
      empty cell is `None`. */
  datatype Sheet = Sheet(header: seq<Cell>, rows: seq<seq<Cell>>)

  /** `'%Y-%m-%d'` for DATE columns and `'%m/%d/%Y %H:%M:%S'` for DATETIME
      and TIMESTAMP columns. */
  const SheetFormats := Formats(YearMonthDay, MonthDayYear)

  /** `None.upper()`. */
  const NoUpper := Exc(AttributeError, "'NoneType' object has no attribute 'upper'")

  /** `[cell.value.upper() for cell in sheet[1]]`: the first empty header
      cell raises. */
  function Headers(header: seq<Cell>): (r: Result<seq<string>, Exc>)
    ensures r.Ok? <==> forall i :: 0 <= i < |header| ==> header[i].Some?
    ensures r.Ok? ==> |r.value| == |header| && forall i :: 0 <= i < |header| ==> r.value[i] == Upper(header[i].value)
    ensures r.Err? ==> r.error == NoUpper
  {
    if header == [] then Ok([])
    else if header[0].None? then Err(NoUpper)
    else
      match Headers(header[1..])
      case Err(e) => Err(e)
      case Ok(rest) => Ok([Upper(header[0].value)] + rest)
  }

  /** The exception raised when no column is left to create. */
  function NoFields(table: string): Exc {
    Exc(PlainException, "No fields defined for table " + table)
  }

  /** The statements the loader issues for `sheet` and how it ends. */
  function Migrate(reg: FlatRegistry, table: string, sheet: Sheet): Plan {
    match Headers(sheet.header)
    case Err(e) => Plan([DropTableIfExists(table)], Raise(e))
    case Ok(headers) =>
      var fields := FlatFields(reg, table);
      var defs := SchemaDefs(fields, headers);
      if defs == [] then Plan([DropTableIfExists(table)], Raise(NoFields(table)))
      else
        Bulk(Opening(true, table, defs), table, headers,
             PrepareAll(fields, headers, sheet.rows, SheetFormats, true),
             Closing(table), Migrated(table))
  }

  function Call(reg: FlatRegistry, table: string, sheet: Sheet, db: Db, fault: Fault): Outcome {
    Perform(Migrate(reg, table, sheet), db, fault, AllErrors(table))
  }

  /** The row a sheet row becomes, when it does not raise. */
  function RowOf(fields: Fields, headers: seq<string>, row: seq<Cell>): seq<Cell> {
    match Prepare(fields, headers, row, SheetFormats, true)
    case Ok(r) => r
    case Err(_) => []
  }

  function RowsOf(fields: Fields, headers: seq<string>, rows: seq<seq<Cell>>): (r: seq<seq<Cell>>)
    ensures |r| == |rows| && forall k :: 0 <= k < |rows| ==> r[k] == RowOf(fields, headers, rows[k])
  {
    seq(|rows|, k requires 0 <= k < |rows| => RowOf(fields, headers, rows[k]))
  }

  /** The rows the loader reads before the first one that raises, or all. */
  function Reached(reg: FlatRegistry, table: string, sheet: Sheet): nat
    requires Headers(sheet.header).Ok?
  {
    FirstErr(PrepareAll(FlatFields(reg, table), Headers(sheet.header).value, sheet.rows, SheetFormats, true))
  }

  /** A DATE cell already written as a valid `YYYY-MM-DD` date is kept as it
      is; a DATETIME cell in US form comes out in ISO form. */
  lemma SheetDates(d: Date, m: Moment)
    requires ValidDate(d) && ValidMoment(m)
    ensures ConvertDate(Some(IsoDate(d)), SheetFormats.dates) == Ok(Some(IsoDate(d)))
    ensures ConvertMoment(Some(RenderMoment(MonthDayYear, m)), SheetFormats.moments) == Ok(Some(IsoMoment(m)))
  {
    ConvertDateRoundTrip(YearMonthDay, d);
    ConvertMomentRoundTrip(MonthDayYear, m);
  }

  /** The column list is empty exactly when there are no headers, or the
      table has a schema that declares none of them. */
  lemma NoColumns(fields: Fields, headers: seq<string>)
    ensures SchemaDefs(fields, headers) == [] <==>
      headers == [] || (fields != [] && forall i :: 0 <= i < |headers| ==> !Declares(fields, headers[i]))
  {
    if fields != [] {
      DeclaredDefsSound(fields, headers);
      DeclaredDefsComplete(fields, headers);
      if exists i :: 0 <= i < |headers| && Declares(fields, headers[i]) {
        var i :| 0 <= i < |headers| && Declares(fields, headers[i]);
        assert headers[i] in headers;
        assert DefNames(DeclaredDefs(fields, headers)) != [];
      }
    }
  }

  /** The DROP always runs first; the outcome of a run that stops after it
      with the loader's own exception. */
  lemma DroppedThenRaised(table: string, db: Db, e: Exc)
    ensures Perform(Plan([DropTableIfExists(table)], Raise(e)), db, NoFault, AllErrors(table)) ==
      Outcome(db.(tables := db.tables - {table}), 1, Err(Handle(AllErrors(table), e)))
  {
    RunCons(DropTableIfExists(table), [], db, db.(tables := db.tables - {table}));
    assert [DropTableIfExists(table)] + [] == [DropTableIfExists(table)];
  }

  /** An empty header cell raises AttributeError after the DROP: the old
      table is gone and the caller gets "Error general". */
  lemma EmptyHeaderCell(reg: FlatRegistry, table: string, sheet: Sheet, db: Db)
    requires exists i :: 0 <= i < |sheet.header| && sheet.header[i].None?
    ensures Call(reg, table, sheet, db, NoFault) ==
      Outcome(db.(tables := db.tables - {table}), 1, Err(Exc(PlainException, "Error general: " + NoUpper.text)))
  {
    DroppedThenRaised(table, db, NoUpper);
  }

  /** No column to create raises "No fields defined" after the DROP, and the
      caller gets it as "Error general". */
  lemma NoFieldsDefined(reg: FlatRegistry, table: string, sheet: Sheet, db: Db)
    requires Headers(sheet.header).Ok?
    requires var headers := Headers(sheet.header).value;
      headers == [] || (FlatFields(reg, table) != [] &&
        forall i :: 0 <= i < |headers| ==> !Declares(FlatFields(reg, table), headers[i]))
    ensures Call(reg, table, sheet, db, NoFault) ==
      Outcome(db.(tables := db.tables - {table}), 1, Err(Exc(PlainException, "Error general: " + NoFields(table).text)))
  {
    NoColumns(FlatFields(reg, table), Headers(sheet.header).value);
    DroppedThenRaised(table, db, NoFields(table));
  }

  /** When the headers are named, some column is left and every row
      prepares: DROP, CREATE, checks off, keys off, ceil(N/1000) inserts
      under the upper-cased headers (all full but the last) sending every
      row in order, keys on, checks on, and the success message. */
  lemma MigrateTrace(reg: FlatRegistry, table: string, sheet: Sheet)
    requires Headers(sheet.header).Ok?
    requires SchemaDefs(FlatFields(reg, table), Headers(sheet.header).value) != []
    requires Reached(reg, table, sheet) == |sheet.rows|
    ensures var p := Migrate(reg, table, sheet);
      var fields, headers := FlatFields(reg, table), Headers(sheet.header).value;
      var n := (|sheet.rows| + BatchSize - 1) / BatchSize;
      p.end == Return(Migrated(table)) &&
      |p.stmts| == n + 6 &&
      p.stmts[..4] == [DropTableIfExists(table), CreateTable(table, SchemaDefs(fields, headers)), ForeignKeyChecks(false), DisableKeys(table)] &&
      p.stmts[4 + n..] == [EnableKeys(table), ForeignKeyChecks(true)] &&
      (forall i :: 4 <= i < 4 + n ==>
        p.stmts[i].InsertMany? && p.stmts[i].table == table && p.stmts[i].columns == headers &&
        0 < |p.stmts[i].rows| <= BatchSize && (i < 3 + n ==> |p.stmts[i].rows| == BatchSize)) &&
      RowsSent(p.stmts[4..4 + n]) == RowsOf(fields, headers, sheet.rows)
  {
    var fields, headers := FlatFields(reg, table), Headers(sheet.header).value;
    var prepared := PrepareAll(fields, headers, sheet.rows, SheetFormats, true);
    BulkCompletes(Opening(true, table, SchemaDefs(fields, headers)), table, headers, prepared, Closing(table), Migrated(table));
    assert Values(prepared) == RowsOf(fields, headers, sheet.rows);
  }

  /** Row `k` is the first with an empty DATE, DATETIME or TIMESTAMP cell
      (or one left empty by padding): only the opening statements and
      floor(k/1000) full inserts are issued, and if those succeed the
      TypeError reaches the caller as "Error general", with the foreign key
      checks left off. */
  lemma MigrateStops(reg: FlatRegistry, table: string, sheet: Sheet, db: Db)
    requires Headers(sheet.header).Ok?
    requires SchemaDefs(FlatFields(reg, table), Headers(sheet.header).value) != []
    requires Reached(reg, table, sheet) < |sheet.rows|
    ensures var p := Migrate(reg, table, sheet);
      var fields, headers := FlatFields(reg, table), Headers(sheet.header).value;
      var k := Reached(reg, table, sheet);
      |p.stmts| == 4 + k / BatchSize &&
      p.stmts[..4] == [DropTableIfExists(table), CreateTable(table, SchemaDefs(fields, headers)), ForeignKeyChecks(false), DisableKeys(table)] &&
      RowsSent(p.stmts[4..]) == RowsOf(fields, headers, sheet.rows)[..k - k % BatchSize]
    ensures var fields, headers := FlatFields(reg, table), Headers(sheet.header).value;
      var k := Reached(reg, table, sheet);
      exists i :: 0 <= i < |headers| && (i >= |sheet.rows[k]| || sheet.rows[k][i].None?) && Dated(fields, headers[i])
    ensures var o := Call(reg, table, sheet, db, NoFault);
      o.done == |Migrate(reg, table, sheet).stmts| ==>
      o.result == Err(Exc(PlainException, "Error general: " + NoneToStrptime.text)) && !o.db.fkChecks
  {
    StopsTrace(reg, table, sheet);
    var fields, headers := FlatFields(reg, table), Headers(sheet.header).value;
    PrepareSpec(fields, headers, sheet.rows[Reached(reg, table, sheet)], SheetFormats);
    StopsOutcome(reg, table, sheet, db);
  }

  lemma StopsTrace(reg: FlatRegistry, table: string, sheet: Sheet)
    requires Headers(sheet.header).Ok?
    requires SchemaDefs(FlatFields(reg, table), Headers(sheet.header).value) != []
    requires Reached(reg, table, sheet) < |sheet.rows|
    ensures var p := Migrate(reg, table, sheet);
      var fields, headers := FlatFields(reg, table), Headers(sheet.header).value;
      var k := Reached(reg, table, sheet);
      p.end == Raise(NoneToStrptime) &&
      |p.stmts| == 4 + k / BatchSize &&
      p.stmts[..4] == [DropTableIfExists(table), CreateTable(table, SchemaDefs(fields, headers)), ForeignKeyChecks(false), DisableKeys(table)] &&
      (forall i :: 4 <= i < |p.stmts| ==> p.stmts[i].InsertMany?) &&
      RowsSent(p.stmts[4..]) == RowsOf(fields, headers, sheet.rows)[..k - k % BatchSize]
  {
    var fields, headers := FlatFields(reg, table), Headers(sheet.header).value;
    var prepared := PrepareAll(fields, headers, sheet.rows, SheetFormats, true);
    var k := FirstErr(prepared);
    var pre := Opening(true, table, SchemaDefs(fields, headers));
    assert pre == [DropTableIfExists(table), CreateTable(table, SchemaDefs(fields, headers)), ForeignKeyChecks(false), DisableKeys(table)];
    assert prepared[k].error == NoneToStrptime;
    BulkRaises(pre, table, headers, prepared, RowsOf(fields, headers, sheet.rows));
  }

  lemma StopsOutcome(reg: FlatRegistry, table: string, sheet: Sheet, db: Db)
    requires Headers(sheet.header).Ok?
    requires SchemaDefs(FlatFields(reg, table), Headers(sheet.header).value) != []
    requires Reached(reg, table, sheet) < |sheet.rows|
    ensures var o := Call(reg, table, sheet, db, NoFault);
      o.done == |Migrate(reg, table, sheet).stmts| ==>
      o.result == Err(Exc(PlainException, "Error general: " + NoneToStrptime.text)) && !o.db.fkChecks
  {
    StopsTrace(reg, table, sheet);
    var p := Migrate(reg, table, sheet);
    assert p.stmts[2] == p.stmts[..4][2];
    assert forall j :: 2 < j < |p.stmts| ==> !p.stmts[j].ForeignKeyChecks? by {
      assert p.stmts[3] == p.stmts[..4][3];
    }
    RaisedLeavesChecksOff(p, db, AllErrors(table), 2);
  }


  lemma PreparedRows(reg: FlatRegistry, table: string, sheet: Sheet)
    requires Headers(sheet.header).Ok? && Reached(reg, table, sheet) == |sheet.rows|
    requires forall k :: 0 <= k < |sheet.rows| ==> |sheet.rows[k]| <= |sheet.header|
    ensures var fields, headers := FlatFields(reg, table), Headers(sheet.header).value;
      var prepared := PrepareAll(fields, headers, sheet.rows, SheetFormats, true);
      var rows := RowsOf(fields, headers, sheet.rows);
      prepared[..|prepared|] == prepared && Values(prepared) == rows &&
      forall k :: 0 <= k < |rows| ==> |rows[k]| == |headers|
  {
    var fields, headers := FlatFields(reg, table), Headers(sheet.header).value;
    var rows := RowsOf(fields, headers, sheet.rows);
    forall k | 0 <= k < |rows|
      ensures |rows[k]| == |headers|
    {
      PrepareSpec(fields, headers, sheet.rows[k], SheetFormats);
    }
  }

  /** With named headers distinct once upper-cased, declared in full by the
      schema (or no schema), rows no wider than the header, no empty dated
      cell and no fault: whatever table existed is replaced by one holding
      every row, in order, with keys and checks back on. */
  lemma MigrateStores(reg: FlatRegistry, table: string, sheet: Sheet, db: Db)
    requires Headers(sheet.header).Ok? && sheet.header != [] && Distinct(Headers(sheet.header).value)
    requires var fields, headers := FlatFields(reg, table), Headers(sheet.header).value;
      fields == [] || forall i :: 0 <= i < |headers| ==> Declares(fields, headers[i])
    requires forall k :: 0 <= k < |sheet.rows| ==> |sheet.rows[k]| <= |sheet.header|
    requires Reached(reg, table, sheet) == |sheet.rows|
    ensures var fields, headers := FlatFields(reg, table), Headers(sheet.header).value;
      Call(reg, table, sheet, db, NoFault) ==
      Outcome(db.(tables := db.tables[table := Table(SchemaDefs(fields, headers), RowsOf(fields, headers, sheet.rows), true)], fkChecks := true),
              |Migrate(reg, table, sheet).stmts|, Ok(Migrated(table)))
  {
    var fields, headers := FlatFields(reg, table), Headers(sheet.header).value;
    var defs := SchemaDefs(fields, headers);
    var rows := RowsOf(fields, headers, sheet.rows);
    if fields != [] {
      DeclaredDefsAll(fields, headers);
    }
    assert DefNames(defs) == headers;
    PreparedRows(reg, table, sheet);
    var stmts := Opening(true, table, defs) + Inserts(table, headers, Batches(rows)) + Closing(table);
    assert Migrate(reg, table, sheet) == Plan(stmts, Return(Migrated(table)));
    LoadStores(db, true, table, defs, rows);
  }

  /** A database error at statement `i` comes back as "Error migrating
      table", the MySQL handler being tried first. */
  lemma MigrateFault(reg: FlatRegistry, table: string, sheet: Sheet, db: Db, i: nat, m: string)
    requires i < |Migrate(reg, table, sheet).stmts|
    ensures var p := Migrate(reg, table, sheet);
      var ra := RunAll(p.stmts[..i], db, NoFault);
      var e := if ra.error.Some? then ra.error.value else Injected(m);
      Call(reg, table, sheet, db, FailAt(i, m)).result ==
        Err(Exc(PlainException, "Error migrating table " + table + ": " + Describe(e)))
  {
    PerformFault(Migrate(reg, table, sheet), db, i, m, AllErrors(table));
  }
}
