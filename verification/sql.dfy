/** The slice of MySQL the loaders talk to: the statements they issue, a
    database state those statements act on, and the errors the server (or
    the connector, for parameter counts) reports. Any other failure of the
    server or the connection is an injected fault at a chosen statement. */
module Sql {
  import opened Base
  import opened Text

  /** A value sent as a query parameter; `None` is sent as NULL. */
  type Cell = Option<string>

  /** One `name TYPE` item of a `CREATE TABLE` column list. */
  datatype ColumnDef = ColumnDef(name: string, sqlType: string)

  datatype Stmt =
    | DropTableIfExists(table: string)
    | CreateTable(table: string, defs: seq<ColumnDef>)
    | ForeignKeyChecks(on: bool)                  // SET foreign_key_checks = 0/1
    | DisableKeys(table: string)                  // ALTER TABLE t DISABLE KEYS
    | EnableKeys(table: string)                   // ALTER TABLE t ENABLE KEYS
    | InsertMany(table: string, columns: seq<string>, rows: seq<seq<Cell>>)  // executemany
    | SelectCount(table: string)                  // SELECT COUNT(*) FROM t

  /** A table: its columns, its rows (one value per column) and whether its
      non-unique indexes are maintained. */
  datatype Table = Table(defs: seq<ColumnDef>, rows: seq<seq<Cell>>, keysOn: bool)

  datatype Db = Db(tables: map<string, Table>, fkChecks: bool)

  datatype DbError =
    | TableExists(table: string)
    | EmptyColumnList
    | DuplicateColumn(column: string)
    | NoSuchTable(table: string)
    | UnknownColumn(column: string)
    | ColumnTwice(column: string)
    | ParameterCount(tooMany: bool)
    | Injected(message: string)

  /** `str(e)` of the connector's exception for each error. */
  function Describe(e: DbError): string {
    match e
    case TableExists(t) => "1050 (42S01): Table '" + t + "' already exists"
    case EmptyColumnList => "1064 (42000): You have an error in your SQL syntax"
    case DuplicateColumn(c) => "1060 (42S21): Duplicate column name '" + c + "'"
    case NoSuchTable(t) => "1146 (42S02): Table '" + t + "' doesn't exist"
    case UnknownColumn(c) => "1054 (42S22): Unknown column '" + c + "' in 'field list'"
    case ColumnTwice(c) => "1110 (42000): Column '" + c + "' specified twice"
    case ParameterCount(tooMany) =>
      if tooMany then "Not all parameters were used in the SQL statement"
      else "Not enough parameters for the SQL statement"
    case Injected(m) => m
  }

  /** MySQL column names ignore case. */
  predicate SameName(a: string, b: string) {
    Lower(a) == Lower(b)
  }

  function DefNames(defs: seq<ColumnDef>): (r: seq<string>)
    ensures |r| == |defs| && forall i :: 0 <= i < |defs| ==> r[i] == defs[i].name
  {
    if defs == [] then [] else [defs[0].name] + DefNames(defs[1..])
  }

  /** The first position whose name matches `name`, or `|names|`. */
  function Position(names: seq<string>, name: string): (i: nat)
    ensures i <= |names|
    ensures forall j :: 0 <= j < i ==> !SameName(names[j], name)
    ensures i < |names| ==> SameName(names[i], name)
  {
    if names == [] then 0
    else if SameName(names[0], name) then 0
    else 1 + Position(names[1..], name)
  }

  predicate Distinct(names: seq<string>) {
    forall i, j :: 0 <= i < j < |names| ==> !SameName(names[i], names[j])
  }

  /** The first position whose name repeats an earlier one, or `|names|`. */
  function FirstRepeat(names: seq<string>): (k: nat)
    ensures k <= |names|
    ensures k == |names| <==> Distinct(names)
    ensures k < |names| ==> Position(names[..k], names[k]) < k
  {
    if names == [] then 0
    else
      var k := FirstRepeat(names[..|names| - 1]);
      var last := names[|names| - 1];
      assert forall i :: 0 <= i < |names| - 1 ==> names[..|names| - 1][i] == names[i];
      if k < |names| - 1 then
        assert names[..k] == names[..|names| - 1][..k];
        k
      else if Position(names[..|names| - 1], last) < |names| - 1 then |names| - 1
      else |names|
  }

  /** The first name not among `known`, or `|names|`. */
  function FirstUnknown(names: seq<string>, known: seq<string>): (k: nat)
    ensures k <= |names|
    ensures forall j :: 0 <= j < k ==> Position(known, names[j]) < |known|
    ensures k < |names| ==> Position(known, names[k]) == |known|
  {
    if names == [] then 0
    else if Position(known, names[0]) == |known| then 0
    else 1 + FirstUnknown(names[1..], known)
  }

  /** The first row whose length is not `width`, or `|rows|`. */
  function FirstMisfit(rows: seq<seq<Cell>>, width: nat): (k: nat)
    ensures k <= |rows|
    ensures forall j :: 0 <= j < k ==> |rows[j]| == width
    ensures k < |rows| ==> |rows[k]| != width
  {
    if rows == [] then 0
    else if |rows[0]| != width then 0
    else 1 + FirstMisfit(rows[1..], width)
  }

  /** The row stored for one inserted row: each table column takes the value
      sent for it, and NULL when no value was sent for it. */
  function Align(defs: seq<ColumnDef>, columns: seq<string>, row: seq<Cell>): (r: seq<Cell>)
    requires |row| == |columns|
  {
    seq(|defs|, i requires 0 <= i < |defs| =>
      var j := Position(columns, defs[i].name);
      if j < |columns| then row[j] else None)
  }

  function AlignAll(defs: seq<ColumnDef>, columns: seq<string>, rows: seq<seq<Cell>>): (r: seq<seq<Cell>>)
    requires forall k :: 0 <= k < |rows| ==> |rows[k]| == |columns|
    ensures |r| == |rows| && forall k :: 0 <= k < |rows| ==> r[k] == Align(defs, columns, rows[k])
  {
    if rows == [] then [] else [Align(defs, columns, rows[0])] + AlignAll(defs, columns, rows[1..])
  }

  /** What a statement returns besides success: `SELECT COUNT(*)` its count. */
  datatype Reply = Reply(db: Db, count: Option<nat>)

  /** `executemany` of an INSERT naming `columns`. An empty parameter list
      sends nothing; the connector checks parameter counts before the server
      sees the statement. */
  function Insert(db: Db, t: string, columns: seq<string>, rows: seq<seq<Cell>>): Result<Reply, DbError> {
    if rows == [] then Ok(Reply(db, None))
    else if FirstMisfit(rows, |columns|) < |rows| then Err(ParameterCount(|rows[FirstMisfit(rows, |columns|)]| > |columns|))
    else if t !in db.tables then Err(NoSuchTable(t))
    else if FirstUnknown(columns, DefNames(db.tables[t].defs)) < |columns| then
      Err(UnknownColumn(columns[FirstUnknown(columns, DefNames(db.tables[t].defs))]))
    else if FirstRepeat(columns) < |columns| then Err(ColumnTwice(columns[FirstRepeat(columns)]))
    else
      var tab := db.tables[t];
      Ok(Reply(db.(tables := db.tables[t := tab.(rows := tab.rows + AlignAll(tab.defs, columns, rows))]), None))
  }

  /** `CREATE TABLE`: refused when the table exists, has no columns or
      names a column twice. */
  function Create(db: Db, t: string, defs: seq<ColumnDef>): Result<Reply, DbError> {
    if t in db.tables then Err(TableExists(t))
    else if defs == [] then Err(EmptyColumnList)
    else if FirstRepeat(DefNames(defs)) < |defs| then Err(DuplicateColumn(defs[FirstRepeat(DefNames(defs))].name))
    else Ok(Reply(db.(tables := db.tables[t := Table(defs, [], true)]), None))
  }

  /** `ALTER TABLE … DISABLE KEYS` (`on` false) and `… ENABLE KEYS`. */
  function SetKeys(db: Db, t: string, on: bool): Result<Reply, DbError> {
    if t !in db.tables then Err(NoSuchTable(t))
    else Ok(Reply(db.(tables := db.tables[t := db.tables[t].(keysOn := on)]), None))
  }

  /** `SELECT COUNT(*)`. */
  function Count(db: Db, t: string): Result<Reply, DbError> {
    if t !in db.tables then Err(NoSuchTable(t))
    else Ok(Reply(db, Some(|db.tables[t].rows|)))
  }

  /** One statement against the database. */
  function Exec(db: Db, s: Stmt): Result<Reply, DbError> {
    match s
    case DropTableIfExists(t) => Ok(Reply(db.(tables := db.tables - {t}), None))
    case CreateTable(t, defs) => Create(db, t, defs)
    case ForeignKeyChecks(on) => Ok(Reply(db.(fkChecks := on), None))
    case DisableKeys(t) => SetKeys(db, t, false)
    case EnableKeys(t) => SetKeys(db, t, true)
    case InsertMany(t, columns, rows) => Insert(db, t, columns, rows)
    case SelectCount(t) => Count(db, t)
  }

  /** A failure the model does not derive from the statement itself (a lost
      connection, a value the column type refuses): statement `index` of a
      run fails with `message`. */
  datatype Fault = NoFault | FailAt(index: nat, message: string)

  /** The statement at the head of a run, unless the fault strikes it. */
  function Attempt(db: Db, s: Stmt, fault: Fault): Result<Reply, DbError> {
    if fault.FailAt? && fault.index == 0 then Err(Injected(fault.message)) else Exec(db, s)
  }

  /** The fault as seen from `n` statements later. */
  function Shift(f: Fault, n: nat): Fault {
    if f.FailAt? && f.index >= n then FailAt(f.index - n, f.message) else NoFault
  }

  /** A run of statements: how many succeeded, the state reached, the error
      that stopped it, and the last count returned. */
  datatype Run = Run(done: nat, db: Db, error: Option<DbError>, count: Option<nat>)

  /** Statements executed in order until one fails. */
  function RunAll(stmts: seq<Stmt>, db: Db, fault: Fault): (r: Run)
    ensures r.done <= |stmts|
    ensures r.error.None? <==> r.done == |stmts|
  {
    if stmts == [] then Run(0, db, None, None)
    else
      var reply := Attempt(db, stmts[0], fault);
      match reply
      case Err(e) => Run(0, db, Some(e), None)
      case Ok(rep) =>
        var rest := RunAll(stmts[1..], rep.db, Shift(fault, 1));
        Run(rest.done + 1, rest.db, rest.error, if rest.count.Some? then rest.count else rep.count)
  }

  lemma ShiftShift(f: Fault, n: nat)
    ensures Shift(Shift(f, 1), n) == Shift(f, n + 1)
  {
  }

  /** Running `a + b` is running `a`, then, if it succeeded, `b` from the
      state `a` reached. */
  lemma {:induction false} RunAppend(a: seq<Stmt>, b: seq<Stmt>, db: Db, fault: Fault)
    ensures RunAll(a + b, db, fault) ==
      var ra := RunAll(a, db, fault);
      if ra.error.Some? then ra
      else
        var rb := RunAll(b, ra.db, Shift(fault, |a|));
        Run(|a| + rb.done, rb.db, rb.error, if rb.count.Some? then rb.count else ra.count)
  {
    if a == [] {
      assert a + b == b;
      assert Shift(fault, 0) == fault;
    } else {
      assert (a + b)[0] == a[0] && (a + b)[1..] == a[1..] + b;
      var reply := Attempt(db, a[0], fault);
      if reply.Ok? {
        RunAppend(a[1..], b, reply.value.db, Shift(fault, 1));
        ShiftShift(fault, |a| - 1);
      }
    }
  }

  /** Two runs that both complete, the second from where the first left
      off, make one complete run of the statements together. */
  lemma RunThen(a: seq<Stmt>, b: seq<Stmt>, db: Db, mid: Db, end: Db)
    requires RunAll(a, db, NoFault) == Run(|a|, mid, None, None)
    requires RunAll(b, mid, NoFault) == Run(|b|, end, None, None)
    ensures RunAll(a + b, db, NoFault) == Run(|a + b|, end, None, None)
  {
    RunAppend(a, b, db, NoFault);
    assert Shift(NoFault, |a|) == NoFault;
  }

  /** A run that completes, followed by one that fails at its first
      statement, fails right after the first run. */
  lemma RunThenFail(a: seq<Stmt>, b: seq<Stmt>, db: Db, mid: Db, e: DbError)
    requires RunAll(a, db, NoFault) == Run(|a|, mid, None, None)
    requires RunAll(b, mid, NoFault) == Run(0, mid, Some(e), None)
    ensures RunAll(a + b, db, NoFault) == Run(|a|, mid, Some(e), None)
  {
    RunAppend(a, b, db, NoFault);
    assert Shift(NoFault, |a|) == NoFault;
  }

  /** A run whose first statement fails has done nothing. */
  lemma HeadFails(stmts: seq<Stmt>, db: Db, e: DbError)
    requires stmts != [] && Exec(db, stmts[0]) == Err(e)
    ensures RunAll(stmts, db, NoFault) == Run(0, db, Some(e), None)
  {
  }

  /** A statement that fails stops the run before anything changes. */
  lemma FirstFails(s: Stmt, stmts: seq<Stmt>, db: Db, e: DbError)
    requires Exec(db, s) == Err(e)
    ensures RunAll([s] + stmts, db, NoFault) == Run(0, db, Some(e), None)
  {
    assert ([s] + stmts)[0] == s;
  }

  /** A statement that succeeds is followed by the rest of the run. */
  lemma RunCons(s: Stmt, stmts: seq<Stmt>, db: Db, db1: Db)
    requires Exec(db, s) == Ok(Reply(db1, None))
    ensures RunAll([s] + stmts, db, NoFault) ==
      var r := RunAll(stmts, db1, NoFault);
      Run(r.done + 1, r.db, r.error, r.count)
  {
    assert ([s] + stmts)[0] == s && ([s] + stmts)[1..] == stmts;
    assert Shift(NoFault, 1) == NoFault;
  }

  /** A fault beyond the last statement never strikes. */
  lemma {:induction false} FaultBeyond(stmts: seq<Stmt>, db: Db, i: nat, m: string)
    requires i >= |stmts|
    ensures RunAll(stmts, db, FailAt(i, m)) == RunAll(stmts, db, NoFault)
  {
    if stmts != [] {
      var reply := Exec(db, stmts[0]);
      assert Attempt(db, stmts[0], FailAt(i, m)) == reply == Attempt(db, stmts[0], NoFault);
      if reply.Ok? {
        FaultBeyond(stmts[1..], reply.value.db, i - 1, m);
      }
    }
  }

  /** A fault at statement `i` stops the run there, unless an earlier
      statement already failed: the first `i` statements took effect, the
      rest did not run. */
  lemma FaultStops(stmts: seq<Stmt>, db: Db, i: nat, m: string)
    requires i < |stmts|
    ensures var ra := RunAll(stmts[..i], db, NoFault);
      RunAll(stmts, db, FailAt(i, m)) == if ra.error.Some? then ra else Run(i, ra.db, Some(Injected(m)), ra.count)
  {
    assert stmts == stmts[..i] + stmts[i..];
    RunAppend(stmts[..i], stmts[i..], db, FailAt(i, m));
    FaultBeyond(stmts[..i], db, i, m);
  }

  /** A run that got past `SET foreign_key_checks = v` with no later such
      statement leaves the checks at `v`. */
  lemma ChecksAfter(a: seq<Stmt>, b: seq<Stmt>, db: Db, v: bool)
    requires a != [] && a[|a| - 1] == ForeignKeyChecks(v)
    requires forall j :: 0 <= j < |b| ==> !b[j].ForeignKeyChecks?
    requires RunAll(a + b, db, NoFault).error.None?
    ensures RunAll(a + b, db, NoFault).db.fkChecks == v
  {
    var front := a[..|a| - 1];
    assert a == front + [ForeignKeyChecks(v)];
    RunAppend(a, b, db, NoFault);
    RunAppend(front, [ForeignKeyChecks(v)], db, NoFault);
    var rf := RunAll(front, db, NoFault);
    assert RunAll([ForeignKeyChecks(v)], rf.db, NoFault).db == rf.db.(fkChecks := v);
    RunKeepsChecks(b, RunAll(a, db, NoFault).db, NoFault);
  }

  /** Statements that do not touch `foreign_key_checks` leave it as it was,
      however far the run gets. */
  lemma {:induction false} RunKeepsChecks(stmts: seq<Stmt>, db: Db, fault: Fault)
    requires forall i :: 0 <= i < |stmts| ==> !stmts[i].ForeignKeyChecks?
    ensures RunAll(stmts, db, fault).db.fkChecks == db.fkChecks
  {
    if stmts != [] {
      var reply := Attempt(db, stmts[0], fault);
      if reply.Ok? {
        RunKeepsChecks(stmts[1..], reply.value.db, Shift(fault, 1));
      }
    }
  }

  /** Statements that never enable keys leave a table whose keys are off with
      its keys off, as long as it exists. */
  lemma {:induction false} RunKeepsKeysOff(stmts: seq<Stmt>, db: Db, fault: Fault, t: string)
    requires forall i :: 0 <= i < |stmts| ==> !stmts[i].EnableKeys? && !stmts[i].DropTableIfExists? && !stmts[i].CreateTable?
    requires t in db.tables && !db.tables[t].keysOn
    ensures t in RunAll(stmts, db, fault).db.tables && !RunAll(stmts, db, fault).db.tables[t].keysOn
  {
    if stmts != [] {
      var reply := Attempt(db, stmts[0], fault);
      if reply.Ok? {
        RunKeepsKeysOff(stmts[1..], reply.value.db, Shift(fault, 1), t);
      }
    }
  }

  /** When the columns sent are the table's columns in table order, each row
      is stored exactly as sent. */
  lemma AlignIdentity(defs: seq<ColumnDef>, row: seq<Cell>)
    requires Distinct(DefNames(defs)) && |row| == |defs|
    ensures Align(defs, DefNames(defs), row) == row
  {
    AlignSame(defs, DefNames(defs), row);
  }

  lemma AlignSame(defs: seq<ColumnDef>, names: seq<string>, row: seq<Cell>)
    requires names == DefNames(defs) && Distinct(names) && |row| == |defs|
    ensures Align(defs, names, row) == row
  {
    DistinctPositions(names);
    AlignPointwise(defs, names, row);
    SameCells(Align(defs, names, row), row);
  }

  /** Each name of a duplicate-free list is found where it stands. */
  lemma DistinctPositions(names: seq<string>)
    requires Distinct(names)
    ensures forall i :: 0 <= i < |names| ==> Position(names, names[i]) == i
  {
    forall i | 0 <= i < |names|
      ensures Position(names, names[i]) == i
    {
      PositionOfDistinct(names, i);
    }
  }

  lemma AlignPointwise(defs: seq<ColumnDef>, names: seq<string>, row: seq<Cell>)
    requires |names| == |defs| == |row|
    requires forall k :: 0 <= k < |defs| ==> names[k] == defs[k].name && Position(names, names[k]) == k
    ensures forall i :: 0 <= i < |defs| ==> Align(defs, names, row)[i] == row[i]
  {
  }

  lemma SameCells(a: seq<Cell>, b: seq<Cell>)
    requires |a| == |b| && forall i :: 0 <= i < |a| ==> a[i] == b[i]
    ensures a == b
  {
  }

  /** An insert that passes every check appends the aligned rows. */
  lemma InsertPasses(db: Db, t: string, columns: seq<string>, rows: seq<seq<Cell>>)
    requires rows != [] && FirstMisfit(rows, |columns|) == |rows| && t in db.tables
    requires FirstUnknown(columns, DefNames(db.tables[t].defs)) == |columns| && FirstRepeat(columns) == |columns|
    ensures Insert(db, t, columns, rows) ==
      Ok(Reply(db.(tables := db.tables[t := db.tables[t].(rows := db.tables[t].rows + AlignAll(db.tables[t].defs, columns, rows))]), None))
  {
  }

  /** Rows of the right width sent to an existing table under a column it
      lacks fail with the first such column. */
  lemma InsertUnknown(db: Db, t: string, columns: seq<string>, rows: seq<seq<Cell>>)
    requires rows != [] && FirstMisfit(rows, |columns|) == |rows| && t in db.tables
    requires FirstUnknown(columns, DefNames(db.tables[t].defs)) < |columns|
    ensures Exec(db, InsertMany(t, columns, rows)) == Err(UnknownColumn(columns[FirstUnknown(columns, DefNames(db.tables[t].defs))]))
  {
    assert Exec(db, InsertMany(t, columns, rows)) == Insert(db, t, columns, rows);
  }

  /** Rows sent with the table's own columns are all stored as sent. */
  lemma AlignAllIdentity(defs: seq<ColumnDef>, rows: seq<seq<Cell>>)
    requires Distinct(DefNames(defs)) && forall k :: 0 <= k < |rows| ==> |rows[k]| == |defs|
    ensures AlignAll(defs, DefNames(defs), rows) == rows
  {
    forall k | 0 <= k < |rows|
      ensures AlignAll(defs, DefNames(defs), rows)[k] == rows[k]
    {
      AlignIdentity(defs, rows[k]);
    }
  }

  lemma PositionOfDistinct(names: seq<string>, i: nat)
    requires Distinct(names) && i < |names|
    ensures Position(names, names[i]) == i
  {
    var p := Position(names, names[i]);
    assert p <= i;
  }

  /** Creating a table with a non-empty list of distinct columns under a free
      name gives an empty table with keys on. */
  lemma CreateFresh(db: Db, t: string, defs: seq<ColumnDef>)
    requires t !in db.tables && defs != [] && Distinct(DefNames(defs))
    ensures Exec(db, CreateTable(t, defs)) == Ok(Reply(db.(tables := db.tables[t := Table(defs, [], true)]), None))
  {
  }

  /** Creating a table under a name already taken fails and changes nothing. */
  lemma CreateTaken(db: Db, t: string, defs: seq<ColumnDef>)
    requires t in db.tables
    ensures Exec(db, CreateTable(t, defs)) == Err(TableExists(t))
  {
  }
}
