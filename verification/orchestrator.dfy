/** `run_migration_logic` in functions.py: every table is converted from
    `<source>/<table>.DBF` to `<output>/<table>.csv` and then loaded, each
    inside its own `try`, so one table's failure never stops the loop. The
    messages it collects (and hands to the logger, if any) end with a timing
    summary. The converter and the loader are parameters: what the loop sees
    of them is whether they raised and with what text. */
module Orchestrator {
  import opened Base
  import opened Seqs

  /** `os.path.join(dir, name)` on POSIX paths. */
  function Join(dir: string, name: string): string {
    if |name| > 0 && name[0] == '/' then name
    else if dir == [] || dir[|dir| - 1] == '/' then dir + name
    else dir + "/" + name
  }

  function DbfPath(source: string, table: string): string {
    Join(source, table + ".DBF")
  }

  function CsvPath(output: string, table: string): string {
    Join(output, table + ".csv")
  }

  function ConvertedMessage(dbf: string, csv: string): string {
    "Successfully converted " + dbf + " to " + csv
  }

  function ErrorMessage(table: string, error: string): string {
    "Error processing " + table + ": " + error
  }

  /** The two calls the loop makes: `convert_dbf_to_csv(dbf, csv)`, which
      raises (`Some(text)`) or not, and `migrate_to_mysql(csv, table)`,
      which returns a message or raises. */
  datatype Steps = Steps(convert: (string, string) -> Option<string>, migrate: (string, string) -> Result<string, string>)

  /** The messages one table adds, in order. */
  function TableMessages(source: string, output: string, table: string, steps: Steps): (r: seq<string>)
    ensures 1 <= |r| <= 2
  {
    var dbf, csv := DbfPath(source, table), CsvPath(output, table);
    match steps.convert(dbf, csv)
    case Some(e) => [ErrorMessage(table, e)]
    case None =>
      match steps.migrate(csv, table)
      case Ok(m) => [ConvertedMessage(dbf, csv), m]
      case Err(e) => [ConvertedMessage(dbf, csv), ErrorMessage(table, e)]
  }

  /** The messages of the loop over `tables`. */
  function Messages(source: string, output: string, tables: seq<string>, steps: Steps): (r: seq<string>)
    ensures |tables| <= |r| <= 2 * |tables|
  {
    if tables == [] then []
    else TableMessages(source, output, tables[0], steps) + Messages(source, output, tables[1..], steps)
  }

  /** What the call returns; `summary` is the timing line. */
  function RunMigration(source: string, output: string, tables: seq<string>, steps: Steps, summary: string): (r: seq<string>)
    ensures |tables| + 1 <= |r| <= 2 * |tables| + 1
    ensures r[|r| - 1] == summary
  {
    Messages(source, output, tables, steps) + [summary]
  }

  /** The loop as written, with the logger's calls recorded: `logged` is
      what a logger, when one is given, received. */
  method RunMigrationLogged(source: string, output: string, tables: seq<string>, steps: Steps, summary: string, logging: bool)
    returns (messages: seq<string>, logged: seq<string>)
    ensures messages == RunMigration(source, output, tables, steps, summary)
    ensures logged == if logging then messages else []
  {
    messages, logged := [], [];
    var i := 0;
    while i < |tables|
      invariant 0 <= i <= |tables|
      invariant messages == Messages(source, output, tables[..i], steps)
      invariant logged == if logging then messages else []
    {
      var table := tables[i];
      var dbf, csv := DbfPath(source, table), CsvPath(output, table);
      MessagesSnoc(source, output, tables[..i], table, steps);
      assert tables[..i + 1] == tables[..i] + [table];
      match steps.convert(dbf, csv) {
        case Some(e) =>
          var message := ErrorMessage(table, e);
          messages := messages + [message];
          if logging { logged := logged + [message]; }
        case None =>
          var message := ConvertedMessage(dbf, csv);
          messages := messages + [message];
          if logging { logged := logged + [message]; }
          match steps.migrate(csv, table) {
            case Ok(m) =>
              messages := messages + [m];
              if logging { logged := logged + [m]; }
            case Err(e) =>
              var error := ErrorMessage(table, e);
              messages := messages + [error];
              if logging { logged := logged + [error]; }
          }
      }
      i := i + 1;
    }
    assert tables[..i] == tables;
    messages := messages + [summary];
    if logging { logged := logged + [summary]; }
  }

  /** The loop over `a + b` is the loop over `a`, then the loop over `b`:
      whatever happened to the tables in `a`, the tables in `b` are all
      attempted and contribute exactly their own messages. */
  lemma {:induction false} MessagesAppend(source: string, output: string, a: seq<string>, b: seq<string>, steps: Steps)
    ensures Messages(source, output, a + b, steps) == Messages(source, output, a, steps) + Messages(source, output, b, steps)
  {
    if a == [] {
      assert a + b == b;
    } else {
      assert (a + b)[0] == a[0] && (a + b)[1..] == a[1..] + b;
      MessagesAppend(source, output, a[1..], b, steps);
    }
  }

  lemma MessagesSnoc(source: string, output: string, a: seq<string>, table: string, steps: Steps)
    ensures Messages(source, output, a + [table], steps) ==
      Messages(source, output, a, steps) + TableMessages(source, output, table, steps)
  {
    MessagesAppend(source, output, a, [table], steps);
    assert [table][1..] == [];
  }

  /** A table whose conversion fails adds one message and its migration is
      never called: the loader's behaviour cannot change the outcome. */
  lemma ConversionFailure(source: string, output: string, table: string, steps: Steps,
                          other: (string, string) -> Result<string, string>)
    requires steps.convert(DbfPath(source, table), CsvPath(output, table)).Some?
    ensures var e := steps.convert(DbfPath(source, table), CsvPath(output, table)).value;
      TableMessages(source, output, table, steps) == [ErrorMessage(table, e)]
    ensures TableMessages(source, output, table, steps) == TableMessages(source, output, table, steps.(migrate := other))
  {
  }

  /** A converted table adds the conversion message and then the loader's
      message, or the error it raised. */
  lemma ConversionSuccess(source: string, output: string, table: string, steps: Steps)
    requires steps.convert(DbfPath(source, table), CsvPath(output, table)).None?
    ensures var dbf, csv := DbfPath(source, table), CsvPath(output, table);
      var r := TableMessages(source, output, table, steps);
      |r| == 2 && r[0] == ConvertedMessage(dbf, csv) &&
      r[1] == match steps.migrate(csv, table)
              case Ok(m) => m
              case Err(e) => ErrorMessage(table, e)
  {
  }

  /** Whether the conversion of `table` succeeds. */
  function Converts(source: string, output: string, steps: Steps): string -> bool {
    t => steps.convert(DbfPath(source, t), CsvPath(output, t)).None?
  }

  /** One message per table, plus one more per table that converted. */
  lemma {:induction false} MessageCount(source: string, output: string, tables: seq<string>, steps: Steps)
    ensures |Messages(source, output, tables, steps)| == |tables| + |Filter(tables, Converts(source, output, steps))|
  {
    if tables != [] {
      MessageCount(source, output, tables[1..], steps);
    }
  }

  /** The files of a table: the table name with `.DBF` under the source
      folder, and with `.csv` under the output folder. */
  lemma Paths(source: string, output: string, table: string)
    requires |table| > 0 && table[0] != '/'
    requires |source| > 0 && source[|source| - 1] != '/'
    requires |output| > 0 && output[|output| - 1] != '/'
    ensures DbfPath(source, table) == source + "/" + (table + ".DBF")
    ensures CsvPath(output, table) == output + "/" + (table + ".csv")
  {
    assert (table + ".DBF")[0] == table[0];
    assert (table + ".csv")[0] == table[0];
  }
}
