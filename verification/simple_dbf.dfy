/** The stand-alone migration script (simpleDBF.py): the CSV record count
    taken after the export, and `create_table_and_insert_data`, which drops
    and re-creates the table with every header as TEXT, pads short records,
    sends them in batches of 1000 (empty fields stay empty text) and returns
    `SELECT COUNT(*)`. Nothing is caught. */
module SimpleDbf {
  import opened Base
  import opened Dates
  import opened Batching
  import opened Sql
  import opened Loading

  /** What the external converter left behind. */
  datatype Export = Exported(records: seq<seq<string>>) | ConverterFailed

  /** `dbf_to_csv_vfp`'s return value: the records read back minus the
      header, or 0 when the converter exits with an error. */
  function CsvCount(e: Export): int {
    match e
    case Exported(records) => |records| - 1
    case ConverterFailed => 0
  }

  /** The loader converts no dates; the formats are never consulted. */
  const Unused := Formats(MonthDayYear, MonthDayYear)

  /** The row a data record becomes: padded, nothing else. */
  function RowOf(headers: seq<string>, record: seq<string>): seq<Cell> {
    Pad(Cells(record), |headers|)
  }

  function RowsOf(headers: seq<string>, records: seq<seq<string>>): (r: seq<seq<Cell>>)
    ensures |r| == |records| && forall k :: 0 <= k < |records| ==> r[k] == RowOf(headers, records[k])
  {
    seq(|records|, k requires 0 <= k < |records| => RowOf(headers, records[k]))
  }

  /** The statements for a file of `records` (header first): the load, then
      the count query. */
  function Load(table: string, records: seq<seq<string>>): Plan {
    if records == [] then Plan([], Raise(Exc(StopIteration, "")))
    else
      var headers := records[0];
      Bulk(Opening(true, table, TextDefs(headers)), table, headers,
           PrepareAll([], headers, Records(records[1..]), Unused, false),
           Closing(table) + [SelectCount(table)], "")
  }

  /** One call: the state left behind and the count returned, or the
      exception, which propagates as raised. */
  datatype Counted = Counted(db: Db, result: Result<nat, Exc>)

  function Call(table: string, records: seq<seq<string>>, db: Db, fault: Fault): Counted {
    var plan := Load(table, records);
    var run := RunAll(plan.stmts, db, fault);
    if run.error.Some? then Counted(run.db, Err(Exc(MySqlError, Describe(run.error.value))))
    else
      match plan.end
      case Raise(e) => Counted(run.db, Err(e))
      // the last statement run is the count query, whose reply is `fetchone()[0]`
      case Return(_) => Counted(run.db, Ok(run.count.GetOr(0)))
  }

  lemma PreparedRows(headers: seq<string>, records: seq<seq<string>>)
    ensures var prepared := PrepareAll([], headers, Records(records), Unused, false);
      (forall k :: 0 <= k < |prepared| ==> prepared[k].Ok?) && Values(prepared) == RowsOf(headers, records)
  {
    forall k | 0 <= k < |records|
      ensures PrepareAll([], headers, Records(records), Unused, false)[k] == Ok(RowOf(headers, records[k]))
    {
      PrepareUntyped(headers, Cells(records[k]), Unused, false);
    }
  }

  /** The statement order: DROP, CREATE with every header as TEXT, checks
      off, keys off, ceil(N/1000) inserts (all full but the last) sending
      every data record padded and otherwise unchanged, keys on, checks on,
      and the count query last. */
  lemma LoadTrace(table: string, records: seq<seq<string>>)
    requires records != []
    ensures var p := Load(table, records);
      var headers := records[0];
      var n := (|records| - 1 + BatchSize - 1) / BatchSize;
      |p.stmts| == n + 7 &&
      p.stmts[..4] == [DropTableIfExists(table), CreateTable(table, TextDefs(headers)), ForeignKeyChecks(false), DisableKeys(table)] &&
      p.stmts[4 + n..] == [EnableKeys(table), ForeignKeyChecks(true), SelectCount(table)] &&
      (forall i :: 4 <= i < 4 + n ==>
        p.stmts[i].InsertMany? && p.stmts[i].table == table && p.stmts[i].columns == headers &&
        0 < |p.stmts[i].rows| <= BatchSize && (i < 3 + n ==> |p.stmts[i].rows| == BatchSize)) &&
      RowsSent(p.stmts[4..4 + n]) == RowsOf(headers, records[1..])
  {
    var headers := records[0];
    var pre := Opening(true, table, TextDefs(headers));
    var post := Closing(table) + [SelectCount(table)];
    assert pre == [DropTableIfExists(table), CreateTable(table, TextDefs(headers)), ForeignKeyChecks(false), DisableKeys(table)];
    assert post == [EnableKeys(table), ForeignKeyChecks(true), SelectCount(table)];
    PreparedRows(headers, records[1..]);
    BulkCompletes(pre, table, headers, PrepareAll([], headers, Records(records[1..]), Unused, false), post, "");
  }

  /** With distinct (ignoring case) non-empty headers, no record longer than
      the header and no fault, the table holds every data record padded, in
      order, and the count returned is the count the export step reports:
      the two counts the script prints agree. */
  lemma CountsAgree(table: string, records: seq<seq<string>>, db: Db)
    requires records != [] && records[0] != [] && Distinct(records[0])
    requires forall k :: 1 <= k < |records| ==> |records[k]| <= |records[0]|
    ensures var headers := records[0];
      Call(table, records, db, NoFault) ==
      Counted(db.(tables := db.tables[table := Table(TextDefs(headers), RowsOf(headers, records[1..]), true)], fkChecks := true),
              Ok(|records| - 1))
    ensures Call(table, records, db, NoFault).result == Ok(CsvCount(Exported(records)))
  {
    var headers := records[0];
    var rows := RowsOf(headers, records[1..]);
    var defs := TextDefs(headers);
    PreparedRows(headers, records[1..]);
    assert DefNames(defs) == headers;
    forall k | 0 <= k < |rows|
      ensures |rows[k]| == |headers|
    {
      PadSpec(Cells(records[1..][k]), |headers|);
    }
    var prepared := PrepareAll([], headers, Records(records[1..]), Unused, false);
    assert prepared[..|prepared|] == prepared;
    var load := Opening(true, table, defs) + Inserts(table, headers, Batches(rows)) + Closing(table);
    LoadStores(db, true, table, defs, rows);
    CountLast(load, table, db, db.(tables := db.tables[table := Table(defs, rows, true)], fkChecks := true));
    assert Load(table, records).stmts == load + [SelectCount(table)];
  }

  /** The count query after a successful run reports the rows the table
      holds at that point. */
  lemma CountLast(stmts: seq<Stmt>, table: string, db: Db, after: Db)
    requires RunAll(stmts, db, NoFault) == Run(|stmts|, after, None, None) && table in after.tables
    ensures RunAll(stmts + [SelectCount(table)], db, NoFault) ==
      Run(|stmts| + 1, after, None, Some(|after.tables[table].rows|))
  {
    assert [SelectCount(table)][1..] == [];
    assert RunAll([SelectCount(table)], after, NoFault) == Run(1, after, None, Some(|after.tables[table].rows|));
    RunAppend(stmts, [SelectCount(table)], db, NoFault);
  }

  /** A database error is not caught: it reaches the caller as raised, and
      when it strikes after the checks were turned off, with the statements
      before it successful, the checks stay off. */
  lemma LoadFault(table: string, records: seq<seq<string>>, db: Db, i: nat, m: string)
    requires records != [] && i < |Load(table, records).stmts|
    ensures var p := Load(table, records);
      var ra := RunAll(p.stmts[..i], db, NoFault);
      var e := if ra.error.Some? then ra.error.value else Injected(m);
      Call(table, records, db, FailAt(i, m)).result == Err(Exc(MySqlError, Describe(e)))
    ensures var p := Load(table, records);
      2 < i < |p.stmts| - 2 && RunAll(p.stmts[..i], db, NoFault).error.None? ==>
      !Call(table, records, db, FailAt(i, m)).db.fkChecks
  {
    var p := Load(table, records);
    FaultStops(p.stmts, db, i, m);
    if 2 < i < |p.stmts| - 2 && RunAll(p.stmts[..i], db, NoFault).error.None? {
      ChecksOnlyAtEnds(table, records);
      ChecksLeftOff(p, db, 2, i, m, Uncaught);
      assert Call(table, records, db, FailAt(i, m)).db == Perform(p, db, FailAt(i, m), Uncaught).db;
    }
  }

  /** Between the statement that turns the checks off and the last two
      statements, nothing touches them. */
  lemma ChecksOnlyAtEnds(table: string, records: seq<seq<string>>)
    requires records != []
    ensures var p := Load(table, records);
      |p.stmts| > 2 && p.stmts[2] == ForeignKeyChecks(false) &&
      forall j :: 2 < j < |p.stmts| - 2 ==> !p.stmts[j].ForeignKeyChecks?
  {
    LoadTrace(table, records);
    var p := Load(table, records);
    var n := (|records| - 1 + BatchSize - 1) / BatchSize;
    assert p.stmts[2] == p.stmts[..4][2];
    forall j | 2 < j < |p.stmts| - 2
      ensures !p.stmts[j].ForeignKeyChecks?
    {
      if j == 3 {
        assert p.stmts[3] == p.stmts[..4][3];
      } else if j == 4 + n {
        assert p.stmts[j] == p.stmts[4 + n..][0];
      }
    }
  }

}
