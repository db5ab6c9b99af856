/** The schema-aware CSV loader (`migrate_to_mysql` in import_csv_mysql.py):
    the table is created, without dropping it first, from the headers the
    schema declares (or every header as TEXT when the table has no schema);
    records are padded, dated columns converted from `MM/DD/YYYY`, empty
    text made NULL, and the rows sent in batches of 1000 under every header.
    Database errors come back as "Error migrating table"; anything else, in
    particular `strptime`'s TypeError on a padded NULL, is not caught. */
module CsvLoader {
  import opened Base
  import opened Seqs
  import opened Dates
  import opened Registry
  import opened Batching
  import opened Sql
  import opened Loading

  /** `'%m/%d/%Y'` for DATE columns and `'%m/%d/%Y %H:%M:%S'` for DATETIME
      and TIMESTAMP columns. */
  const UsFormats := Formats(MonthDayYear, MonthDayYear)

  /** The statements the loader issues for a file of `records` (header
      first) and how it ends. */
  function Migrate(reg: FlatRegistry, table: string, records: seq<seq<string>>): Plan {
    if records == [] then Plan([], Raise(Exc(StopIteration, "")))
    else
      var fields, headers := FlatFields(reg, table), records[0];
      Bulk(Opening(false, table, SchemaDefs(fields, headers)), table, headers,
           PrepareAll(fields, headers, Records(records[1..]), UsFormats, true),
           Closing(table), Migrated(table))
  }

  function Call(reg: FlatRegistry, table: string, records: seq<seq<string>>, db: Db, fault: Fault): Outcome {
    Perform(Migrate(reg, table, records), db, fault, DbErrors(table))
  }

  /** The row a data record becomes, when it does not raise. */
  function RowOf(fields: Fields, headers: seq<string>, record: seq<string>): seq<Cell> {
    match Prepare(fields, headers, Cells(record), UsFormats, true)
    case Ok(r) => r
    case Err(_) => []
  }

  function RowsOf(fields: Fields, headers: seq<string>, records: seq<seq<string>>): (r: seq<seq<Cell>>)
    ensures |r| == |records| && forall k :: 0 <= k < |records| ==> r[k] == RowOf(fields, headers, records[k])
  {
    seq(|records|, k requires 0 <= k < |records| => RowOf(fields, headers, records[k]))
  }

  /** A record raises exactly when it is shorter than the header and a
      padded position is a DATE, DATETIME or TIMESTAMP column; otherwise its
      row holds, under each header, the cell converted from US format (a
      date not in that format becomes NULL), empty text as NULL, and NULL in
      the padding. */
  lemma RecordRow(fields: Fields, headers: seq<string>, record: seq<string>)
    ensures var p := Prepare(fields, headers, Cells(record), UsFormats, true);
      p.Err? <==> exists i :: |record| <= i < |headers| && Dated(fields, headers[i])
    ensures var p := Prepare(fields, headers, Cells(record), UsFormats, true);
      p.Err? ==> p.error == NoneToStrptime
    ensures var p := Prepare(fields, headers, Cells(record), UsFormats, true);
      p.Ok? ==> (p.value == RowOf(fields, headers, record) &&
        |p.value| == (if |record| < |headers| then |headers| else |record|) &&
        (forall i :: 0 <= i < |headers| && i < |record| ==>
          p.value[i] == EmptyToNull(ConvertCell(fields, headers[i], Some(record[i]), UsFormats).value)) &&
        (forall i :: |record| <= i < |headers| ==> p.value[i] == None))
  {
    PrepareSpec(fields, headers, Cells(record), UsFormats);
  }

  /** An empty file raises StopIteration before any statement, uncaught. */
  lemma EmptyFile(reg: FlatRegistry, table: string, db: Db, fault: Fault)
    ensures Call(reg, table, [], db, fault) == Outcome(db, 0, Err(Exc(StopIteration, "")))
  {
  }

  /** The records the loader reads before the first one that raises, or all. */
  function Reached(reg: FlatRegistry, table: string, records: seq<seq<string>>): nat
    requires records != []
  {
    FirstErr(PrepareAll(FlatFields(reg, table), records[0], Records(records[1..]), UsFormats, true))
  }

  /** When every record prepares: CREATE (no DROP) with the schema's
      columns, checks off, keys off, ceil(N/1000) inserts under every header
      (all full but the last) sending every row in order, keys on, checks
      on, and the success message. */
  lemma MigrateTrace(reg: FlatRegistry, table: string, records: seq<seq<string>>)
    requires records != [] && Reached(reg, table, records) == |records| - 1
    ensures var p := Migrate(reg, table, records);
      var fields, headers := FlatFields(reg, table), records[0];
      var n := (|records| - 1 + BatchSize - 1) / BatchSize;
      p.end == Return(Migrated(table)) &&
      |p.stmts| == n + 5 &&
      p.stmts[..3] == [CreateTable(table, SchemaDefs(fields, headers)), ForeignKeyChecks(false), DisableKeys(table)] &&
      p.stmts[3 + n..] == [EnableKeys(table), ForeignKeyChecks(true)] &&
      (forall i :: 3 <= i < 3 + n ==>
        p.stmts[i].InsertMany? && p.stmts[i].table == table && p.stmts[i].columns == headers &&
        0 < |p.stmts[i].rows| <= BatchSize && (i < 2 + n ==> |p.stmts[i].rows| == BatchSize)) &&
      RowsSent(p.stmts[3..3 + n]) == RowsOf(fields, headers, records[1..])
  {
    var fields, headers := FlatFields(reg, table), records[0];
    var prepared := PrepareAll(fields, headers, Records(records[1..]), UsFormats, true);
    BulkCompletes(Opening(false, table, SchemaDefs(fields, headers)), table, headers, prepared, Closing(table), Migrated(table));
    assert Values(prepared) == RowsOf(fields, headers, records[1..]);
  }

  /** When data record `k` is the first to raise (a padded NULL in a dated
      column): only CREATE, checks off, keys off and floor(k/1000) full
      inserts are issued, the batch being filled is lost, and if those
      statements succeed the TypeError reaches the caller unwrapped, with
      foreign key checks left off. */
  lemma MigrateStops(reg: FlatRegistry, table: string, records: seq<seq<string>>, db: Db)
    requires records != [] && Reached(reg, table, records) < |records| - 1
    ensures var p := Migrate(reg, table, records);
      var fields, headers := FlatFields(reg, table), records[0];
      var k := Reached(reg, table, records);
      |p.stmts| == 3 + k / BatchSize &&
      p.stmts[..3] == [CreateTable(table, SchemaDefs(fields, headers)), ForeignKeyChecks(false), DisableKeys(table)] &&
      RowsSent(p.stmts[3..]) == RowsOf(fields, headers, records[1..])[..k - k % BatchSize]
    ensures var o := Call(reg, table, records, db, NoFault);
      o.done == |Migrate(reg, table, records).stmts| ==> o.result == Err(NoneToStrptime) && !o.db.fkChecks
  {
    StopsPlan(reg, table, records);
    var p := Migrate(reg, table, records);
    assert p.stmts[1] == p.stmts[..3][1];
    assert forall j :: 1 < j < |p.stmts| ==> !p.stmts[j].ForeignKeyChecks? by {
      assert p.stmts[2] == p.stmts[..3][2];
    }
    RaisedLeavesChecksOff(p, db, DbErrors(table), 1);
  }

  /** The statements of a load that stops at a record, and the exception
      it ends with. */
  lemma StopsPlan(reg: FlatRegistry, table: string, records: seq<seq<string>>)
    requires records != [] && Reached(reg, table, records) < |records| - 1
    ensures var p := Migrate(reg, table, records);
      var fields, headers := FlatFields(reg, table), records[0];
      var k := Reached(reg, table, records);
      p.end == Raise(NoneToStrptime) &&
      |p.stmts| == 3 + k / BatchSize &&
      p.stmts[..3] == [CreateTable(table, SchemaDefs(fields, headers)), ForeignKeyChecks(false), DisableKeys(table)] &&
      (forall i :: 3 <= i < |p.stmts| ==> p.stmts[i].InsertMany?) &&
      RowsSent(p.stmts[3..]) == RowsOf(fields, headers, records[1..])[..k - k % BatchSize]
  {
    var fields, headers := FlatFields(reg, table), records[0];
    var prepared := PrepareAll(fields, headers, Records(records[1..]), UsFormats, true);
    var k := FirstErr(prepared);
    var pre := Opening(false, table, SchemaDefs(fields, headers));
    BulkStops(pre, table, headers, prepared, Closing(table), Migrated(table));
    assert Values(prepared[..k])[..k - k % BatchSize] == RowsOf(fields, headers, records[1..])[..k - k % BatchSize];
    RecordRow(fields, headers, records[1..][k]);
  }

  /** A table that already exists (the loader never drops it) stops the
      load at the CREATE: nothing changes and the error comes back wrapped. */
  lemma TableTaken(reg: FlatRegistry, table: string, records: seq<seq<string>>, db: Db)
    requires records != [] && table in db.tables
    ensures Call(reg, table, records, db, NoFault) ==
      Outcome(db, 0, Err(Exc(PlainException, "Error migrating table " + table + ": " + Describe(TableExists(table)))))
  {
    var p := Migrate(reg, table, records);
    var fields, headers := FlatFields(reg, table), records[0];
    var prepared := PrepareAll(fields, headers, Records(records[1..]), UsFormats, true);
    CreateTaken(db, table, SchemaDefs(fields, headers));
    if FirstErr(prepared) < |prepared| {
      BulkStops(Opening(false, table, SchemaDefs(fields, headers)), table, headers, prepared, Closing(table), Migrated(table));
    } else {
      BulkCompletes(Opening(false, table, SchemaDefs(fields, headers)), table, headers, prepared, Closing(table), Migrated(table));
    }
    assert p.stmts[0] == p.stmts[..3][0] == CreateTable(table, SchemaDefs(fields, headers));
    assert RunAll(p.stmts, db, NoFault) == Run(0, db, Some(TableExists(table)), None);
  }

  /** With a free table name, distinct (ignoring case) non-empty headers that
      the schema declares in full (or no schema), records no longer than the
      header and no NULL in a dated column, and no fault: the load succeeds
      and the table holds every record's row, in order. */
  lemma MigrateStores(reg: FlatRegistry, table: string, records: seq<seq<string>>, db: Db)
    requires records != [] && records[0] != [] && Distinct(records[0]) && table !in db.tables
    requires var fields := FlatFields(reg, table);
      fields == [] || forall i :: 0 <= i < |records[0]| ==> Declares(fields, records[0][i])
    requires forall k :: 1 <= k < |records| ==> |records[k]| <= |records[0]|
    requires Reached(reg, table, records) == |records| - 1
    ensures var fields, headers := FlatFields(reg, table), records[0];
      Call(reg, table, records, db, NoFault) ==
      Outcome(db.(tables := db.tables[table := Table(SchemaDefs(fields, headers), RowsOf(fields, headers, records[1..]), true)], fkChecks := true),
              |Migrate(reg, table, records).stmts|, Ok(Migrated(table)))
  {
    var fields, headers := FlatFields(reg, table), records[0];
    var defs := SchemaDefs(fields, headers);
    var rows := RowsOf(fields, headers, records[1..]);
    if fields != [] {
      DeclaredDefsAll(fields, headers);
    }
    assert DefNames(defs) == headers;
    PreparedRows(reg, table, records);
    var stmts := Opening(false, table, defs) + Inserts(table, headers, Batches(rows)) + Closing(table);
    assert Migrate(reg, table, records) == Plan(stmts, Return(Migrated(table)));
    LoadStores(db, false, table, defs, rows);
  }

  lemma PreparedRows(reg: FlatRegistry, table: string, records: seq<seq<string>>)
    requires records != [] && Reached(reg, table, records) == |records| - 1
    requires forall k :: 1 <= k < |records| ==> |records[k]| <= |records[0]|
    ensures var fields, headers := FlatFields(reg, table), records[0];
      var prepared := PrepareAll(fields, headers, Records(records[1..]), UsFormats, true);
      var rows := RowsOf(fields, headers, records[1..]);
      prepared[..|prepared|] == prepared && Values(prepared) == rows &&
      forall k :: 0 <= k < |rows| ==> |rows[k]| == |headers|
  {
    var fields, headers := FlatFields(reg, table), records[0];
    var rows := RowsOf(fields, headers, records[1..]);
    forall k | 0 <= k < |rows|
      ensures |rows[k]| == |headers|
    {
      RecordRow(fields, headers, records[1..][k]);
    }
  }

  /** A schema that declares none of the headers gives an empty column
      list: the CREATE fails, nothing changes, and the error comes back
      wrapped. */
  lemma NothingDeclared(reg: FlatRegistry, table: string, records: seq<seq<string>>, db: Db)
    requires records != [] && table !in db.tables
    requires var fields := FlatFields(reg, table);
      fields != [] && forall i :: 0 <= i < |records[0]| ==> !Declares(fields, records[0][i])
    ensures Call(reg, table, records, db, NoFault) ==
      Outcome(db, 0, Err(Exc(PlainException, "Error migrating table " + table + ": " + Describe(EmptyColumnList))))
  {
    var p := Migrate(reg, table, records);
    var fields, headers := FlatFields(reg, table), records[0];
    var prepared := PrepareAll(fields, headers, Records(records[1..]), UsFormats, true);
    NoneDeclared(fields, headers);
    var defs := SchemaDefs(fields, headers);
    var pre := Opening(false, table, defs);
    BulkPrefix(pre, table, headers, prepared, Closing(table), Migrated(table));
    assert p.stmts[0] == p.stmts[..3][0] == CreateTable(table, defs);
    HeadFails(p.stmts, db, EmptyColumnList);
  }

  /** With a schema, every header is sent in the INSERT, declared or not: a
      header the schema does not declare makes the first insert fail (the
      table has no such column), after the table was created empty with its
      keys and the foreign key checks off, which stay so. */
  lemma UndeclaredHeader(reg: FlatRegistry, table: string, records: seq<seq<string>>, db: Db, u: nat)
    requires |records| > 1 && Distinct(records[0]) && table !in db.tables
    requires var fields := FlatFields(reg, table);
      fields != [] && DeclaredDefs(fields, records[0]) != [] &&
      u < |records[0]| && !Declares(fields, records[0][u])
    requires forall k :: 1 <= k < |records| ==> |records[k]| <= |records[0]|
    requires Reached(reg, table, records) == |records| - 1
    ensures var fields, headers := FlatFields(reg, table), records[0];
      var defs := DeclaredDefs(fields, headers);
      var c := FirstUnknown(headers, DefNames(defs));
      c <= u && !Declares(fields, headers[c]) &&
      Call(reg, table, records, db, NoFault) ==
      Outcome(db.(tables := db.tables[table := Table(defs, [], false)], fkChecks := false), 3,
              Err(Exc(PlainException, "Error migrating table " + table + ": " + Describe(UnknownColumn(headers[c])))))
  {
    var fields, headers := FlatFields(reg, table), records[0];
    var defs := DeclaredDefs(fields, headers);
    var names := DefNames(defs);
    var rows := RowsOf(fields, headers, records[1..]);
    DeclaredDefsDistinct(fields, headers);
    UnknownIsUndeclared(fields, headers, u);
    PreparedRows(reg, table, records);
    var stmts := Opening(false, table, defs) + Inserts(table, headers, Batches(rows)) + Closing(table);
    assert Migrate(reg, table, records) == Plan(stmts, Return(Migrated(table)));
    UnknownColumnStops(db, false, table, defs, headers, rows);
  }

  /** Against the declared columns, the first header MySQL does not know is
      an undeclared one, at or before any given undeclared header. */
  lemma UnknownIsUndeclared(fields: Fields, headers: seq<string>, u: nat)
    requires Distinct(headers) && u < |headers| && !Declares(fields, headers[u])
    ensures var c := FirstUnknown(headers, DefNames(DeclaredDefs(fields, headers)));
      c <= u && !Declares(fields, headers[c])
  {
    var names := DefNames(DeclaredDefs(fields, headers));
    DeclaredDefsSound(fields, headers);
    UndeclaredUnknown(fields, headers, names, u);
    var c := FirstUnknown(headers, names);
    DeclaredDefsComplete(fields, headers);
    if Declares(fields, headers[c]) {
      KnownPosition(names, headers[c]);
    }
  }

  /** No declared column shares a name with an undeclared header. */
  lemma UndeclaredUnknown(fields: Fields, headers: seq<string>, names: seq<string>, u: nat)
    requires Distinct(headers) && u < |headers| && !Declares(fields, headers[u])
    requires forall j :: 0 <= j < |names| ==> names[j] in headers && Declares(fields, names[j])
    ensures Position(names, headers[u]) == |names|
  {
    forall j | 0 <= j < |names|
      ensures !SameName(names[j], headers[u])
    {
      var k :| 0 <= k < |headers| && headers[k] == names[j];
    }
  }

  lemma KnownPosition(names: seq<string>, h: string)
    requires h in names
    ensures Position(names, h) < |names|
  {
    var j :| 0 <= j < |names| && names[j] == h;
    assert SameName(names[j], h);
  }

  /** A database error at statement `i` comes back wrapped; when the
      statements before it had succeeded and it struck after the checks were
      turned off, they stay off. */
  lemma MigrateFault(reg: FlatRegistry, table: string, records: seq<seq<string>>, db: Db, i: nat, m: string)
    requires records != [] && i < |Migrate(reg, table, records).stmts|
    ensures var p := Migrate(reg, table, records);
      var ra := RunAll(p.stmts[..i], db, NoFault);
      var e := if ra.error.Some? then ra.error.value else Injected(m);
      Call(reg, table, records, db, FailAt(i, m)).result ==
        Err(Exc(PlainException, "Error migrating table " + table + ": " + Describe(e)))
    ensures var p := Migrate(reg, table, records);
      1 < i && (i < |p.stmts| - 1 || p.end.Raise?) && RunAll(p.stmts[..i], db, NoFault).error.None? ==>
      !Call(reg, table, records, db, FailAt(i, m)).db.fkChecks
  {
    var p := Migrate(reg, table, records);
    PerformFault(p, db, i, m, DbErrors(table));
    if 1 < i && (i < |p.stmts| - 1 || p.end.Raise?) && RunAll(p.stmts[..i], db, NoFault).error.None? {
      ChecksOffBetween(reg, table, records, db, i);
      ChecksLeftOff(p, db, 1, i, m, DbErrors(table));
    }
  }

  /** Between turning the checks off and the end of the inserts, no
      statement touches them. */
  lemma ChecksOffBetween(reg: FlatRegistry, table: string, records: seq<seq<string>>, db: Db, i: nat)
    requires records != []
    requires var p := Migrate(reg, table, records);
      1 < i <= |p.stmts| && (i < |p.stmts| - 1 || p.end.Raise?)
    ensures var p := Migrate(reg, table, records);
      p.stmts[1] == ForeignKeyChecks(false) && forall j :: 1 < j < i ==> !p.stmts[j].ForeignKeyChecks?
  {
    var p := Migrate(reg, table, records);
    if Reached(reg, table, records) == |records| - 1 {
      MigrateTrace(reg, table, records);
      assert p.stmts[1] == p.stmts[..3][1];
      assert forall j :: 1 < j < 3 ==> p.stmts[j] == p.stmts[..3][j];
    } else {
      MigrateStops(reg, table, records, db);
      assert p.stmts[1] == p.stmts[..3][1];
      assert forall j :: 1 < j < 3 ==> p.stmts[j] == p.stmts[..3][j];
      var fields, headers := FlatFields(reg, table), records[0];
      var prepared := PrepareAll(fields, headers, Records(records[1..]), UsFormats, true);
      BulkStops(Opening(false, table, SchemaDefs(fields, headers)), table, headers, prepared, Closing(table), Migrated(table));
    }
  }
}
