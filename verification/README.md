# DBF to MySQL migration pipeline, modelled in Dafny

This project models the data-handling core of a small migration toolkit. The
toolkit exports Visual FoxPro tables (DBF) to CSV or XLSX, normalises the
exported rows and loads them into MySQL. It also offers a read-only query
endpoint. The model covers these parts:

- **Normalizers** (`CsvNormalizer`, `XlsxNormalizer`, on top of `Frames`,
  `Columns`, `Dates`, `Numbers`):
  - `process_csv` and `process_xlsx` lower-case the header and keep the
    schema's fields in schema order.
  - They parse `DD/MM/YYYY` dates and keep a row only when `fec_doc` and
    `fec_ser` fall inside the inclusive window from 2023-01-01 to "now".
  - They coerce the integer-coded columns, each with its own drop, keep or
    crash policy, and zero-pad `num_doc` to 10 and `cod_cia` to 2.
  - They map the legacy `T`/`F` logical columns to 1/0.
  - The frame is a sequence of rows tagged with their record number. Each
    normalizer is a list of single-column `Step`s.
  - The source applies each step to the whole column before the next
    (`RunSteps`). This is proved equal to a row-by-row reference
    (`Survivors`), and every statement about kept, dropped and crashing
    rows is proved through that reference.
- **CSV cleaner** (`CsvCleaner`): `process_csv` in convert_dbf_csv.py keeps
  the header and the records that have a non-empty field.
- **Loaders** (`Loading`, `Sql`, `Batching`, `CsvLoader`, `XlsxLoader`,
  `TextLoader`, `SimpleDbf`):
  - Each loader is a function from the file's records, and from the schema
    where there is one, to a `Plan`. A plan is the SQL statements in order
    plus how the call ends: it returns a message or raises an exception.
  - All four loaders share one batching loop (`Bulk`, batches of 1000).
  - `Perform` runs a plan against an abstract MySQL state: tables with
    their column definitions, rows and key state, plus the
    `foreign_key_checks` flag.
  - Errors the server would raise (table exists, unknown column, empty
    column list, duplicate column, parameter count) follow from the
    statements. Any other failure is an injected `Fault` at a chosen
    statement.
  - `Catch` and `Handle` apply the loader's own `except` clauses.
- **Orchestrator** (`Orchestrator`): `run_migration_logic` tries every
  table in turn, each inside its own `try`, collects the messages and ends
  with a timing summary. The converter and the migrator are parameters.
- **Validators**:
  - `VfpTypes` models `convert_type`, the DBF type code to SQL type map.
  - `QueryApi` models the `execute_query` endpoint: the `select` prefix
    guard, how the external tool is called and how errors are wrapped.

The schema registry (`PREDEFINED_FIELDS` in fields.py) is an explicit
parameter (`Registry`). The normalizer for CSV files reads it in the nested
`['fields']` shape; every other user reads it as a flat map. fields.py is
not part of this model.

## Model

| member | source | states |
|---|---|---|
| Frames.Load | process_csv.py:9-23 | The frame's columns are the allowed fields present in the lower-cased header, in schema order; rows keep increasing record numbers and have one cell per column |
| Frames.LoadOrigin | process_csv.py:9-23 | Every row of the loaded frame is a readable record of the file (non-blank; for CSV not longer than the header), cut down to the kept columns |
| Frames.LoadFinds | process_csv.py:9-23 | Every readable record of the file is a row of the loaded frame, under its own record number |
| Frames.ReadRowsOrigin | process_csv.py:9-10 | Each row read comes from a readable record at its own position |
| Frames.ReadRowsComplete | process_csv.py:9-10 | Each readable record is read |
| Frames.ExistingFields | process_csv.py:15-23 | Every kept column is both an allowed field and a header name, and every allowed field in the header is kept |
| Frames.FlagValue | process_csv.py:85-89 | The logical mapping gives 0 or 1, and gives 1 exactly for `T` and `t` |
| Frames.RunStepsIsRowwise | process_csv.py:25-95 | Running the steps column by column over the whole table keeps, drops and crashes exactly as running every row through all steps on its own |
| Frames.FirstStepThenRows | process_csv.py:25-95 | Running one step over the table first and the rest row by row equals running all steps row by row |
| Frames.SurvivorsCrash | process_csv.py:79-82 | The table fails exactly when some row crashes |
| Frames.SurvivorsOrigin | process_csv.py:35-94 | Every output row is an input row under the same record number, with the cells the steps give it; the output is no longer than the input |
| Frames.SurvivorsComplete | process_csv.py:35-94 | Every input row that the steps keep appears in the output with its converted cells |
| Frames.SurvivorsAscending | process_csv.py:35-94 | Rows keep their relative order: filtering never reorders |
| Frames.ThroughKept | process_csv.py:25-95 | With each step on its own column, a row is kept exactly when every step accepts the cell as read |
| Frames.ThroughValues | process_csv.py:25-95 | A kept row holds each stepped column's conversion of the cell as read; every other column is unchanged |
| Frames.ThroughCrash | process_csv.py:58-61 | A row crashes when every earlier step kept it and one step raises on its cell |
| Frames.ThroughCrashCause | process_csv.py:58-61 | Every crash is some step raising on the cell as read after all earlier steps kept the row |
| Frames.ConvertRaises | process_csv.py:58-82 | A conversion raises exactly for a numeric step without `dropna` on a cell that is not a number |
| Frames.ThroughNeverCrashes | process_xlsx.py:57-97 | A pipeline in which every numeric step drops its bad rows never crashes |
| Frames.RunOnFails | process_csv.py:58-82 | The normalizer fails, with pandas' NaN casting error, exactly when a row crashes |
| Frames.RunOnKeeps | process_csv.py:35-94 | On success the columns are unchanged and the rows are exactly the input rows the steps keep, in order, with their converted cells |
| Frames.RunOnMembership | process_csv.py:35-94 | An input row is in the output exactly when the steps keep it |
| Columns.FlagFields | process_csv.py:48-49 | Every field typed BOOLEAN contributes its lower-cased name |
| Columns.FlagFieldOrigin | process_csv.py:48-49 | Every logical column name comes from a field typed BOOLEAN |
| Columns.PassesMeaning | process_csv.py:30-45 | A windowed date step keeps the row exactly when the date parses and lies in the window; a numeric step keeps it exactly when the cell is a number; the null-on-failure date steps and the logical step always keep it |
| Columns.ConvertMeaning | process_csv.py:25-95 | What each kind of conversion writes: date or null, the windowed date, the rounded or truncated integer, a zero-padded code that reads back as the integer, or 0/1 |
| CsvNormalizer.Normalize | process_csv.py:7-98 | On success the columns are exactly the lower-cased schema fields present in the lower-cased header, in schema order; the only failure is the NaN casting error |
| CsvNormalizer.StepsDistinct | process_csv.py:25-95 | When the logical (BOOLEAN) columns are distinct and none is a fixed column, each step works on its own column |
| CsvNormalizer.AdmittedIsPassing | process_csv.py:30-95 | A row passes every step exactly when both dates are in the window and every numeric column holds a number |
| CsvNormalizer.FixedMeaning | process_csv.py:25-82 | What each of the first nine steps asks of the row |
| CsvNormalizer.RaisingSteps | process_csv.py:58-82 | Only the `cod_ser`, `cod_pac`, `nh_pac` and `cod_cia` steps can raise |
| CsvNormalizer.CrashesIsCause | process_csv.py:58-82 | A row crashes exactly when it passes the date and `num_doc` filters and then meets a non-number in `cod_ser`, or, past `per_dev`, in `cod_pac`, `nh_pac` or `cod_cia` |
| CsvNormalizer.CrashesFromCause | process_csv.py:58-82 | A crashing row satisfies that condition |
| CsvNormalizer.CrashesCause | process_csv.py:58-82 | A row satisfying that condition crashes |
| CsvNormalizer.NormalizeFails | process_csv.py:58-82 | The whole file fails exactly when some readable record satisfies the crash condition |
| CsvNormalizer.NormalizeKeeps | process_csv.py:30-95 | When the logical (BOOLEAN) columns are distinct and none is a fixed column: on success, a readable record is in the output exactly when its dates are in the window and its numeric columns hold numbers |
| CsvNormalizer.NormalizeRows | process_csv.py:30-95 | Under the same condition on the logical columns, every output row is such a record, in file order, holding what the steps make of its cells |
| CsvNormalizer.StepColumnsAre | process_csv.py:25-95 | A column outside the fixed and logical ones is touched by no step |
| CsvNormalizer.KeptValues | process_csv.py:25-95 | When the logical (BOOLEAN) columns are distinct and none is a fixed column, a kept row holds the date or null in `fec_fac`, the in-window date in `fec_doc`/`fec_ser`, rounded integers in `cod_ser`/`per_dev`/`cod_pac`/`nh_pac`, codes of at least 10 and 2 characters reading back as the rounded and truncated value in `num_doc`/`cod_cia`, the truncated `id_pac`, 0/1 in logical columns, and every other column as read |
| XlsxNormalizer.Normalize | process_xlsx.py:6-100 | On success the columns are the lower-cased flat-schema fields present in the lower-cased header, in schema order |
| XlsxNormalizer.FlagKeysApart | process_xlsx.py:53-54 | The dict of logical columns holds each name once and keeps only names the list had |
| XlsxNormalizer.StepsDistinct | process_xlsx.py:25-97 | When no logical (BOOLEAN) column is a fixed column, each step works on its own column |
| XlsxNormalizer.NormalizeNeverFails | process_xlsx.py:57-97 | Unlike the CSV variant, the spreadsheet normalizer never fails, whatever the sheet holds |
| XlsxNormalizer.AdmittedIsPassing | process_xlsx.py:30-97 | A row passes every step exactly when both dates are in the window and all six numeric columns hold numbers |
| XlsxNormalizer.NormalizeKeeps | process_xlsx.py:30-97 | When no logical (BOOLEAN) column is a fixed column, a readable record is in the output exactly when it passes those filters |
| XlsxNormalizer.NormalizeRows | process_xlsx.py:30-97 | Under the same condition, every output row is such a record, in sheet order, holding what the steps make of its cells |
| XlsxNormalizer.StepColumnsAre | process_xlsx.py:25-97 | A column outside the fixed and logical ones is touched by no step |
| XlsxNormalizer.KeptValues | process_xlsx.py:25-85 | When no logical (BOOLEAN) column is a fixed column, a kept row holds the date or null in `fec_fac`, the date-time or null in `fh_dev`, in-window dates, rounded `cod_ser`/`cod_pac`/`nh_pac`, padded `num_doc`/`cod_cia` that read back, and truncated `id_pac` |
| XlsxNormalizer.KeptFlagsAndRest | process_xlsx.py:88-97 | When no logical (BOOLEAN) column is a fixed column, logical columns hold 1 exactly for `T`/`t` and 0 otherwise; `per_dev` and every other unstepped column keep the cell as read |
| Dates.ParseDate | process_csv.py:26-27 | A date that parses is a real calendar date in years 1 to 9999 |
| Dates.ParseMoment | process_xlsx.py:48-50 | A date-time that parses is a real calendar date with hour, minute and second in range |
| Dates.ParseRenderDate | import_csv_mysql.py:8-12 | Every layout reads back the date it renders |
| Dates.ParseRenderMoment | import_csv_mysql.py:15-19 | Every layout reads back the date-time it renders |
| Numbers.RoundHalfEven | process_csv.py:55-56 | The result is within one half of the value, and an exact tie goes to the even integer |
| Numbers.TowardZero | process_csv.py:81-82 | The result is the integer part: the value minus it lies in [0, 1) for non-negative values and in (-1, 0] for negative ones |
| Numbers.ZFillShape | process_csv.py:55-56 | `str(n).zfill(w)` is the sign, then enough zeros to reach width `w`, then the digits of the absolute value |
| Numbers.ZFillReadsBack | process_csv.py:55-56 | The padded text is `max(len, w)` long, never truncated, and reads back as the same integer |
| CsvCleaner.Clean | convert_dbf_csv.py:14-24 | An empty file raises StopIteration; otherwise the header is written first and no records are added |
| CsvCleaner.CleanKeeps | convert_dbf_csv.py:21-23 | A data record is written exactly when it has a non-empty field, as many times as it occurs; everything written is such a record, in input order |
| CsvCleaner.CleanIdempotent | convert_dbf_csv.py:21-23 | Cleaning a cleaned file changes nothing |
| Batching.BatchesSpec | import_csv_mysql.py:53-79 | The batches sent cover all rows in order, are ceil(N/1000) in number, are each non-empty and at most 1000, and all but the last are full |
| Batching.SentBeforeSpec | import_csv_mysql.py:56-76 | When the loop is interrupted, exactly the first N - N mod 1000 rows have gone out, in full batches |
| Batching.FillFlushIsChunks | import_csv_mysql.py:74-79 | The fill-then-flush loop equals cutting the rows into chunks of the batch size |
| Batching.FillSizes | import_csv_mysql.py:74-76 | Every sent batch is full and the pending batch is not |
| Batching.FillCovers | import_csv_mysql.py:56-76 | The sent batches followed by the pending one are the rows in order |
| Loading.Cells | import_csv_mysql.py:56 | Every field of a CSV record is passed as text |
| Loading.PadSpec | import_csv_mysql.py:57-58 | A short row grows to the header width with NULLs, a row is never cut or altered, and padding twice pads once |
| Loading.NullEmptiesSpec | import_csv_mysql.py:72 | Exactly the empty-text cells become NULL, and doing it twice changes nothing |
| Loading.ConvertDate | import_csv_mysql.py:8-12 | The conversion raises exactly on a NULL cell, and then with `strptime`'s TypeError |
| Loading.ConvertMoment | import_csv_mysql.py:15-19 | The conversion raises exactly on a NULL cell, and then with `strptime`'s TypeError |
| Loading.ConvertDateRoundTrip | import_csv_mysql.py:8-12 | A date written in the loader's input layout comes out as the same date in ISO form |
| Loading.ConvertDateStable | import_xlsx_mysql.py:75-77 | What `convert_date` writes is a real date, and converting it again through `%Y-%m-%d` gives it back unchanged |
| Loading.ConvertMomentRoundTrip | import_csv_mysql.py:15-19 | A date-time written in the input layout comes out as the same moment in ISO form |
| Loading.ConvertMomentStable | import_xlsx_mysql.py:78-80 | What `convert_datetime` writes is a real date-time that ISO parsing reads back |
| Loading.ConvertRowSpec | import_csv_mysql.py:61-70 | The row loop succeeds exactly when every cell under a header converts; then each such cell holds its conversion and cells past the last header are unchanged |
| Loading.PrepareSpec | import_csv_mysql.py:56-72 | A record fails to prepare exactly when a DATE/DATETIME/TIMESTAMP column gets a NULL, from the record or from padding; otherwise every cell is the conversion with empty text made NULL, and the padding is NULL |
| Loading.PrepareUntyped | import_csv_mysql1.py:32-35 | Without a schema a record is only padded and, where the loader does so, has its empty text made NULL |
| Loading.TextDefs | import_csv_mysql1.py:18-19 | Every header becomes a TEXT column, in header order |
| Loading.DeclaredDefsSound | import_csv_mysql.py:37-38 | Each typed column is a header the schema declares, with its declared type |
| Loading.DeclaredDefsComplete | import_csv_mysql.py:37-38 | Every declared header becomes a column, and header order is kept |
| Loading.DeclaredDefsAll | import_csv_mysql.py:37-38 | When every header is declared, the columns are exactly the headers |
| Loading.DeclaredDefsDistinct | import_csv_mysql.py:37-38 | Distinct headers give distinct columns |
| Loading.Inserts | import_csv_mysql.py:74-79 | One `executemany` per batch, each on the table and the header columns |
| Loading.RowsSentInserts | import_csv_mysql.py:74-79 | The insert statements send exactly the rows of the batches, in order |
| Loading.BulkCompletes | import_csv_mysql.py:53-83 | When every record prepares, the statements are the opening ones, then ceil(N/1000) inserts of at most 1000 rows (all full but the last) sending every prepared row in order, then the closing ones, and the call returns its message |
| Loading.BulkStops | import_csv_mysql.py:56-79 | When record k is the first that fails to prepare, the opening statements run, then floor(k/1000) full inserts send the first k - k mod 1000 rows, and the record's exception is raised before any closing statement |
| Loading.Handle | import_xlsx_mysql.py:103-106 | Without a `try` the error passes unchanged; a database error becomes "Error migrating table T: ..."; any other exception passes unchanged past `except mysql.connector.Error` alone, and becomes "Error general: ..." where `except Exception` follows |
| Loading.Perform | import_csv_mysql.py:24-94 | No more statements succeed than the plan has |
| Loading.PerformFault | import_csv_mysql.py:93-94 | A failure at statement i reaches the caller as the loader's wrapping of the database error: the injected one when the statements before it succeeded |
| Loading.ChecksLeftOff | import_csv_mysql.py:47-83 | A load interrupted after `foreign_key_checks = 0` and before it is reset leaves the checks off; nothing re-enables them on the error path |
| Loading.InsertsStore | import_csv_mysql.py:74-79 | Batches sent to a table whose columns are exactly the columns named, with rows of the right width, all succeed and append their rows in order; nothing else changes |
| Loading.LoadStores | import_csv_mysql1.py:17-46 | A complete load on a free table name with distinct columns stores exactly the rows sent, in order, and ends with keys and foreign key checks back on |
| Loading.UnknownColumnStops | import_csv_mysql.py:37-52 | When the insert names a column the table lacks, the opening statements succeed, the first insert fails naming the first such column, and the table is left created, empty, with keys and checks off |
| Loading.RunOpening | import_csv_mysql.py:44-48 | The opening statements create the empty table, with its keys off and foreign key checks off |
| Loading.RunClosing | import_csv_mysql.py:82-83 | The closing statements turn the table's keys and the foreign key checks back on |
| Sql.RunAll | import_csv_mysql.py:44-83 | Statements run in order until one fails; the run has no error exactly when every statement ran |
| Sql.RunAppend | import_csv_mysql.py:44-83 | Running `a + b` is running `a`, then `b` from where `a` left off if it succeeded |
| Sql.FaultStops | import_csv_mysql.py:93-94 | A fault at statement i stops the run there unless an earlier statement already failed |
| Sql.FaultBeyond | import_csv_mysql.py:44-83 | A fault past the last statement never strikes |
| Sql.ChecksAfter | import_csv_mysql.py:47-83 | After `SET foreign_key_checks = v` and no later such statement, the checks stay at v |
| Sql.RunKeepsChecks | import_csv_mysql.py:48-82 | Statements that do not set `foreign_key_checks` leave it as it was, however far the run gets |
| Sql.RunKeepsKeysOff | import_csv_mysql.py:48-82 | Statements that never enable keys, drop or create leave a table's disabled keys disabled |
| Sql.FirstRepeat | import_xlsx_mysql.py:52-54 | The first repeated column name, compared ignoring case, or the length exactly when all are distinct |
| Sql.FirstUnknown | import_csv_mysql.py:51-52 | The first column name the table lacks, compared ignoring case |
| Sql.AlignIdentity | import_csv_mysql1.py:27-28 | Rows sent with the table's own columns in table order are stored as sent |
| Sql.CreateFresh | import_csv_mysql.py:44 | Creating a table with distinct columns under a free name gives an empty table with keys on |
| Sql.CreateTaken | import_csv_mysql.py:44 | Creating a table under a name already taken fails and changes nothing |
| CsvLoader.RecordRow | import_csv_mysql.py:56-72 | A record fails to prepare exactly when a dated column is NULL after padding |
| CsvLoader.EmptyFile | import_csv_mysql.py:30 | An empty file runs no statement and raises StopIteration unwrapped |
| CsvLoader.MigrateTrace | import_csv_mysql.py:35-83 | No DROP: CREATE with the schema's columns, checks off, DISABLE KEYS, the batches, ENABLE KEYS, checks on, and the success message |
| CsvLoader.MigrateStops | import_csv_mysql.py:56-70 | A record with a NULL dated cell stops the load after the full batches before it; the TypeError escapes unwrapped with checks left off |
| CsvLoader.TableTaken | import_csv_mysql.py:44-94 | With the table already present, CREATE fails, nothing changes, and the caller gets "Error migrating table T: ..." |
| CsvLoader.MigrateStores | import_csv_mysql.py:35-91 | With every header declared, or no schema, and rows that prepare, the new table holds exactly the prepared rows, in order, with keys and checks on |
| CsvLoader.NothingDeclared | import_csv_mysql.py:35-44 | A schema that declares none of the headers yields an empty column list that the server refuses, reported wrapped |
| CsvLoader.UndeclaredHeader | import_csv_mysql.py:37-52 | A header missing from a non-empty schema is left out of CREATE but named by INSERT: the first insert fails on an undeclared header, leaving an empty table with keys and checks off |
| CsvLoader.UnknownIsUndeclared | import_csv_mysql.py:37-52 | The first column the insert names that the table lacks is the first undeclared header |
| CsvLoader.MigrateFault | import_csv_mysql.py:93-94 | Any database failure is raised as "Error migrating table T: ..."; after the checks go off they stay off |
| CsvLoader.ChecksOffBetween | import_csv_mysql.py:47-83 | No statement between turning the checks off and back on touches them |
| XlsxLoader.Headers | import_xlsx_mysql.py:35 | The header succeeds exactly when every cell has a value; the names are upper-cased; an empty cell raises AttributeError |
| XlsxLoader.SheetDates | import_xlsx_mysql.py:75-80 | An ISO date cell is kept as it is; a US-layout date-time cell becomes ISO |
| XlsxLoader.NoColumns | import_xlsx_mysql.py:40-50 | The column list is empty exactly when the sheet has no headers, or the schema is non-empty and declares none of them |
| XlsxLoader.DroppedThenRaised | import_xlsx_mysql.py:28-50 | A bad header or an empty column list runs only the DROP and then raises |
| XlsxLoader.EmptyHeaderCell | import_xlsx_mysql.py:35-106 | An empty header cell drops the table and reaches the caller as "Error general: 'NoneType' object has no attribute 'upper'" |
| XlsxLoader.NoFieldsDefined | import_xlsx_mysql.py:49-106 | An empty column list drops the table and reaches the caller as "Error general: No fields defined for table T" |
| XlsxLoader.MigrateTrace | import_xlsx_mysql.py:28-101 | DROP, CREATE, checks off, DISABLE KEYS, the batches, ENABLE KEYS, checks on, and the success message |
| XlsxLoader.MigrateStops | import_xlsx_mysql.py:66-106 | A NULL dated cell stops the load after the full batches before it, and the TypeError reaches the caller as "Error general: ..." with checks left off |
| XlsxLoader.MigrateStores | import_xlsx_mysql.py:28-101 | With rows that prepare and headers the schema declares, the re-created table holds exactly the prepared rows, in order |
| XlsxLoader.MigrateFault | import_xlsx_mysql.py:103-104 | Any database failure is raised as "Error migrating table T: ..." |
| TextLoader.TextNames | import_csv_mysql1.py:18-19 | The created columns are the headers |
| TextLoader.EmptyFile | import_csv_mysql1.py:14 | An empty file runs no statement and raises StopIteration, which the handler for database errors lets through |
| TextLoader.MigrateTrace | import_csv_mysql1.py:17-54 | DROP, CREATE with every header as TEXT, checks off, DISABLE KEYS, the batches, ENABLE KEYS, checks on, and the success message |
| TextLoader.MigrateStores | import_csv_mysql1.py:17-54 | With distinct headers and no record longer than the header, the table holds every record padded with NULL and with empty text made NULL, in order |
| TextLoader.MigrateFault | import_csv_mysql1.py:55-56 | Any database failure is raised as "Error migrating table T: ..." |
| SimpleDbf.LoadTrace | simpleDBF.py:40-72 | DROP, CREATE all TEXT, checks off, DISABLE KEYS, the batches, ENABLE KEYS, checks on, then SELECT COUNT(*) last |
| SimpleDbf.PreparedRows | simpleDBF.py:55-58 | Records are only padded; empty text stays empty text |
| SimpleDbf.CountsAgree | simpleDBF.py:24-76 | On a clean load the returned count equals the CSV record count (records minus the header), and the table holds the padded records |
| SimpleDbf.LoadFault | simpleDBF.py:34-76 | A database failure escapes unwrapped; one after the checks go off and before they are reset leaves them off |
| Orchestrator.TableMessages | functions.py:21-44 | Each table adds one or two messages |
| Orchestrator.Messages | functions.py:17-44 | n tables give between n and 2n messages |
| Orchestrator.RunMigration | functions.py:46-52 | Between n+1 and 2n+1 messages, the last one the summary |
| Orchestrator.RunMigrationLogged | functions.py:8-52 | The loop returns the messages of the reference definition, and a logger, when given, receives exactly those messages in the same order |
| Orchestrator.MessagesAppend | functions.py:17-44 | The loop over `a + b` is the loop over `a` followed by the loop over `b`: a failure never stops later tables |
| Orchestrator.ConversionFailure | functions.py:21-44 | A failed conversion adds exactly "Error processing T: ...", and the migrator's behaviour cannot change that |
| Orchestrator.ConversionSuccess | functions.py:21-44 | A converted table adds the conversion message, then the migrator's message or "Error processing T: ..." |
| Orchestrator.MessageCount | functions.py:17-44 | One message per table plus one per table that converted |
| Orchestrator.Paths | functions.py:18-19 | The paths are `<source>/<table>.DBF` and `<output>/<table>.csv` |
| VfpTypes.ConvertType | pruebas/vfp.py:10-24 | The result is one of the seven types; TEXT exactly for codes outside C, N, D, L, T, I; each of those six codes maps to its own type |
| VfpTypes.Recover | pruebas/vfp.py:10-22 | The mapping is one-to-one on the six codes and `CodeOf` undoes it |
| QueryApi.Execute | api.py:49-80 | Every error response carries status 500 |
| QueryApi.AcceptsSpec | api.py:53 | A query is accepted exactly when, after stripping whitespace, at least six characters remain and they spell `select` in any case |
| QueryApi.CaseInsensitive | api.py:53 | Queries that differ only in letter case get the same verdict |
| QueryApi.SurroundingSpace | api.py:53 | Whitespace around a query changes neither the stripped text nor the verdict |
| QueryApi.AcceptsAnyTail | api.py:53 | The guard is a bare prefix test: anything after `select` passes, trailing whitespace included |
| QueryApi.Rejected | api.py:53-80 | A rejected query never starts the tool, and the 400 comes back as a 500 with "Error en execute_query: 400: ..." |
| QueryApi.Forwarded | api.py:59-69 | An accepted query reaches the tool unstripped and in its own case; a clean exit with JSON output is the answer; a failing exit comes back as a 500 wrapping "Error en dbf_query.exe: " and the tool's stderr |

## Left out

- The Tkinter applications, threads and scheduler (main.py, app.py, pruebas/index.py) and the web server startup: UI and concurrency with no data logic.
- The external tools (`ConvertirDBF.exe`, `dbview.exe`, `dbf_query.exe`) are parameters: the converter's outcome per table, and the query tool's exit code and output. The case where the query tool cannot start at all (a `FileNotFoundError` caught by the outer handler) is not modelled separately.
- `convert_dbf_to_csv` (the subprocess call and its error wrapping) and convert_dbf_xlxs.py: an abstract converter outcome stands for them.
- File I/O: reading and writing with pandas, openpyxl and csv, the `.tmp` file and `os.replace`. Files are given as a header and records; latin-1 decoding and CSV quoting are not modelled.
- fields.py is not part of this model; the schema is a parameter in the shape each call site reads.
- The MySQL server is abstract. Its error texts are the model's own (`Describe`). Type coercion by the column types, duplicate keys, lost connections and every other server-side refusal are injected faults. Connection, `commit` and `close` are left out.
- Floating point: `pd.to_numeric` is modelled as exact decimal parsing, with no exponents, `inf` or hex. Rounding is exact half-to-even and truncation is exact, so values beyond 2^53 and binary-fraction ties differ from pandas.
- pandas type inference: cells are text, NaN, or the values the steps write. A CSV column that pandas reads as numbers is modelled through its text.
- Typed spreadsheet cells: openpyxl cells arrive as text or empty. A cell that arrives as a `datetime` or a number is not modelled, in the normalizer or in the loader.
- Text handling is ASCII: lower and upper case, whitespace for `strip` and the `strptime` separator blank. A space-padded day such as `" 5/01/2023"` is not modelled.
- `os.path.join` is modelled for POSIX paths only. The program runs on Windows (main.py:54-56), where `ntpath.join` joins with `\`, so the paths inside the `ConvertedMessage` texts and the error texts differ there from the model's.
- Orchestrator.RunMigrationLogged: a logger that raises is not modelled. In functions.py a raise from the logger inside the `try` (lines 25-26, 38-39) is caught and reported as an error of that table, while one from the handler's logger (lines 43-44) or the summary logger (lines 49-50) escapes the loop.
- Header names that are equal once lower-cased: pandas keeps both as columns with the same label, and `pd.to_datetime`/`pd.to_numeric` on that label then raise (process_csv.py:12, process_xlsx.py:11). The model's `CellOf` reads the first such column instead, so neither normalizer models that failure.
- CsvNormalizer.Normalize: schema field names that are equal once lower-cased (`FEC_DOC` and `fec_doc`, say) are not modelled. process_csv.py:15-20 lower-cases them, so the selected columns repeat a label, and pandas raises when a step converts that label (the selection is a frame, not a column). The model steps the first copy, so its only failure is the NaN casting error.
- XlsxNormalizer.NormalizeNeverFails: proved without schema field names that collide once lower-cased. With such a name on a stepped column, pandas raises in process_xlsx.py:15-20 and the steps after it, just as in the CSV variant, so "never fails" covers only schemas whose lower-cased field names are distinct.
- Frames.Load: two behaviours of pandas' C reader are not modelled. A first data record with more fields than the header turns its extra leading fields into the index and shifts every later record by as many fields; the model drops that record as too long instead. A line of only spaces or tabs is skipped by `skip_blank_lines`; the model keeps it as a record, because a record here does not say whether its fields were quoted.
- Frames.LoadOrigin: its "readable record" is the model's (non-empty, and for CSV no longer than the header), so it does not cover the implicit index of a long first record or skipped whitespace-only lines.
- Frames.LoadFinds: the same two cases: a long first record is not a row here although pandas reads it shifted, and a whitespace-only line is a row here although pandas skips it.
- Frames.ReadRowsOrigin: rests on the same `Readable`, so it shares the two gaps of `Frames.Load`.
- Frames.ReadRowsComplete: rests on the same `Readable`, so it shares the two gaps of `Frames.Load`.
- CsvNormalizer.NormalizeKeeps: proved only when the logical (BOOLEAN) fields are distinct and none is a fixed column. A BOOLEAN field named `id_pac`, say, is rewritten to 0/1 before the `id_pac` step and so changes which rows are kept.
- CsvNormalizer.NormalizeRows: proved only under the same condition on the logical fields; a BOOLEAN field that is also a fixed column changes what a kept row holds.
- CsvNormalizer.KeptValues: proved only under the same condition; a repeated or fixed BOOLEAN field is rewritten twice. The crash lemmas (`CsvNormalizer.CrashesIsCause`, `CsvNormalizer.NormalizeFails`) need no such condition.
- XlsxNormalizer.NormalizeKeeps: proved only when no logical (BOOLEAN) field is a fixed column. The names come from dict keys and so never repeat (`XlsxNormalizer.FlagKeysApart`), but a BOOLEAN field that is also a fixed column is rewritten twice and changes which rows are kept.
- XlsxNormalizer.NormalizeRows: proved only under the same condition on the logical fields.
- XlsxNormalizer.KeptValues: proved only under the same condition on the logical fields.
- XlsxNormalizer.KeptFlagsAndRest: proved only under the same condition on the logical fields.
- XlsxNormalizer.StepsDistinct: holds only when no logical field is a fixed column; otherwise two steps share that column.
- CsvNormalizer.StepsDistinct: holds only for logical fields that are distinct and apart from the fixed columns; otherwise two steps share a column.
- Wall-clock time: "now" in the normalizers is a parameter; the elapsed-time texts and the summary message are parameters as well.
- The top-level script loop of simpleDBF.py (connection, transaction, the printed comparison) and the per-table prints of every loader.
- QueryApi.Show: `str(HTTPException)` is taken to be `"<status>: <detail>"`.
- SimpleDbf.CountsAgree: proved for loads whose records are no longer than the header; a longer record makes the insert fail with a parameter-count error instead.
- CsvLoader.MigrateStores: proved for distinct headers, records no longer than the header, and a schema that is empty or declares every header. With an undeclared header, CsvLoader.UndeclaredHeader gives the outcome instead.
- XlsxLoader.MigrateStores: proved under the same conditions as the CSV loader, on a sheet whose header cells all have values.
- TextLoader.MigrateStores: proved for distinct headers and records no longer than the header.

## Notes on the source's behaviour

- The CSV loader in import_csv_mysql.py issues no `DROP TABLE IF EXISTS` before its `CREATE TABLE`. The second load of the same table therefore fails with "table exists" (`CsvLoader.TableTaken`).
- No loader re-enables keys or foreign key checks on its error path. There is no `finally` (`Loading.ChecksLeftOff`).
- A record shorter than the header is padded with `None` before the dates are converted. A padded `None` in a DATE or DATETIME column makes `strptime` raise a TypeError rather than the ValueError its handler catches. The CSV loader does not catch it, so it escapes unwrapped (`CsvLoader.MigrateStops`). The spreadsheet loader turns it into "Error general: ..." (`XlsxLoader.MigrateStops`).
- The two loaders that use a schema create only the declared headers but insert into every header. Any undeclared header makes the first insert fail (`CsvLoader.UndeclaredHeader`).
- In process_csv.py, `cod_ser`, `cod_pac`, `nh_pac` and `cod_cia` have no `dropna`. A non-numeric cell there that survives the earlier filters makes `astype(int)` fail for the whole file (`CsvNormalizer.NormalizeFails`). process_xlsx.py drops such rows instead, and never fails (`XlsxNormalizer.NormalizeNeverFails`).
