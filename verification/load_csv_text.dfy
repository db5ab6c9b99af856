/** The schema-less CSV loader (`migrate_to_mysql` in import_csv_mysql1.py):
    the table is dropped and re-created with every header as a TEXT column,
    and the records are padded, their empty fields made NULL, and sent in
    batches of 1000. Database errors come back as "Error migrating table". */
module TextLoader {
  import opened Base
  import opened Dates
  import opened Batching
  import opened Sql
  import opened Loading

  /** The loader converts no dates; the formats are never consulted. */
  const Unused := Formats(MonthDayYear, MonthDayYear)

  /** The row a data record becomes. */
  function RowOf(headers: seq<string>, record: seq<string>): seq<Cell> {
    NullEmpties(Pad(Cells(record), |headers|))
  }

  function RowsOf(headers: seq<string>, records: seq<seq<string>>): (r: seq<seq<Cell>>)
    ensures |r| == |records| && forall k :: 0 <= k < |records| ==> r[k] == RowOf(headers, records[k])
  {
    seq(|records|, k requires 0 <= k < |records| => RowOf(headers, records[k]))
  }

  /** The statements the loader issues for a file of `records` (header
      first) and how it ends. */
  function Migrate(table: string, records: seq<seq<string>>): Plan {
    if records == [] then Plan([], Raise(Exc(StopIteration, "")))
    else
      var headers := records[0];
      Bulk(Opening(true, table, TextDefs(headers)), table, headers,
           PrepareAll([], headers, Records(records[1..]), Unused, true),
           Closing(table), Migrated(table))
  }

  /** One call of the loader against a database. */
  function Call(table: string, records: seq<seq<string>>, db: Db, fault: Fault): Outcome {
    Perform(Migrate(table, records), db, fault, DbErrors(table))
  }

  lemma TextNames(headers: seq<string>)
    ensures DefNames(TextDefs(headers)) == headers
  {
  }

  lemma PreparedRows(headers: seq<string>, records: seq<seq<string>>)
    ensures var prepared := PrepareAll([], headers, Records(records), Unused, true);
      (forall k :: 0 <= k < |prepared| ==> prepared[k].Ok?) && Values(prepared) == RowsOf(headers, records)
  {
    forall k | 0 <= k < |records|
      ensures PrepareAll([], headers, Records(records), Unused, true)[k] == Ok(RowOf(headers, records[k]))
    {
      PrepareUntyped(headers, Cells(records[k]), Unused, true);
    }
  }

  /** An empty file raises StopIteration before any statement, uncaught. */
  lemma EmptyFile(table: string, db: Db, fault: Fault)
    ensures Call(table, [], db, fault) == Outcome(db, 0, Err(Exc(StopIteration, "")))
  {
  }

  /** The statement order: DROP, CREATE with every header as TEXT in header
      order, checks off, keys off, ceil(N/1000) inserts of the headers'
      columns (all full but the last) sending every data record as its row,
      in order, then keys on, checks on; the call returns its message. */
  lemma MigrateTrace(table: string, records: seq<seq<string>>)
    requires records != []
    ensures var p := Migrate(table, records);
      var headers := records[0];
      var n := (|records| - 1 + BatchSize - 1) / BatchSize;
      p.end == Return(Migrated(table)) &&
      |p.stmts| == n + 6 &&
      p.stmts[..4] == [DropTableIfExists(table), CreateTable(table, TextDefs(headers)), ForeignKeyChecks(false), DisableKeys(table)] &&
      p.stmts[4 + n..] == [EnableKeys(table), ForeignKeyChecks(true)] &&
      (forall i :: 4 <= i < 4 + n ==>
        p.stmts[i].InsertMany? && p.stmts[i].table == table && p.stmts[i].columns == headers &&
        0 < |p.stmts[i].rows| <= BatchSize && (i < 3 + n ==> |p.stmts[i].rows| == BatchSize)) &&
      RowsSent(p.stmts[4..4 + n]) == RowsOf(headers, records[1..])
  {
    var headers := records[0];
    PreparedRows(headers, records[1..]);
    BulkCompletes(Opening(true, table, TextDefs(headers)), table, headers,
                  PrepareAll([], headers, Records(records[1..]), Unused, true), Closing(table), Migrated(table));
  }

  /** With distinct (ignoring case) non-empty headers and no record longer
      than the header, and no fault, the load succeeds and the table holds
      every data record as its row, in order, with keys and checks back on. */
  lemma MigrateStores(table: string, records: seq<seq<string>>, db: Db)
    requires records != [] && records[0] != [] && Distinct(records[0])
    requires forall k :: 1 <= k < |records| ==> |records[k]| <= |records[0]|
    ensures var headers := records[0];
      Call(table, records, db, NoFault) ==
      Outcome(db.(tables := db.tables[table := Table(TextDefs(headers), RowsOf(headers, records[1..]), true)], fkChecks := true),
              |Migrate(table, records).stmts|, Ok(Migrated(table)))
  {
    var headers := records[0];
    var rows := RowsOf(headers, records[1..]);
    PreparedRows(headers, records[1..]);
    TextNames(headers);
    forall k | 0 <= k < |rows|
      ensures |rows[k]| == |headers|
    {
      PadSpec(Cells(records[1..][k]), |headers|);
    }
    var prepared := PrepareAll([], headers, Records(records[1..]), Unused, true);
    assert prepared[..|prepared|] == prepared;
    LoadStores(db, true, table, TextDefs(headers), rows);
  }

  /** A database error at statement `i` comes back wrapped as "Error
      migrating table"; when the statements before it had succeeded and it
      struck after the checks were turned off, they are left off: nothing
      turns them back on. */
  lemma MigrateFault(table: string, records: seq<seq<string>>, db: Db, i: nat, m: string)
    requires records != [] && i < |Migrate(table, records).stmts|
    ensures var p := Migrate(table, records);
      var ra := RunAll(p.stmts[..i], db, NoFault);
      var e := if ra.error.Some? then ra.error.value else Injected(m);
      Call(table, records, db, FailAt(i, m)).result ==
        Err(Exc(PlainException, "Error migrating table " + table + ": " + Describe(e)))
    ensures var p := Migrate(table, records);
      2 < i < |p.stmts| - 1 && RunAll(p.stmts[..i], db, NoFault).error.None? ==>
      !Call(table, records, db, FailAt(i, m)).db.fkChecks
  {
    var p := Migrate(table, records);
    PerformFault(p, db, i, m, DbErrors(table));
    if 2 < i < |p.stmts| - 1 && RunAll(p.stmts[..i], db, NoFault).error.None? {
      assert p.stmts[2] == ForeignKeyChecks(false) && forall j :: 2 < j < i ==> !p.stmts[j].ForeignKeyChecks? by {
        ChecksOnlyAtEnds(table, records);
      }
      ChecksLeftOff(p, db, 2, i, m, DbErrors(table));
    }
  }

  /** Foreign key checks are turned off by the third statement and on by
      the last, and by no other. */
  lemma ChecksOnlyAtEnds(table: string, records: seq<seq<string>>)
    requires records != []
    ensures var p := Migrate(table, records);
      |p.stmts| >= 6 && p.stmts[2] == ForeignKeyChecks(false) &&
      forall j :: 2 < j < |p.stmts| - 1 ==> !p.stmts[j].ForeignKeyChecks?
  {
    var p := Migrate(table, records);
    var n := (|records| - 1 + BatchSize - 1) / BatchSize;
    MigrateTrace(table, records);
    assert p.stmts[2] == p.stmts[..4][2];
    forall j | 2 < j < |p.stmts| - 1 ensures !p.stmts[j].ForeignKeyChecks? {
      if j == 3 {
        assert p.stmts[j] == p.stmts[..4][3];
      } else if j == 4 + n {
        assert p.stmts[j] == p.stmts[4 + n..][0];
      }
    }
  }
}
