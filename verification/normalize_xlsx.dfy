/** `process_xlsx`: the spreadsheet normalizer. It differs from the CSV
    one in four ways: the registry entry is the field dictionary itself,
    `fh_dev` is read as a date-time, every numeric column has a `dropna`
    (so no cell can fail the table) and `per_dev` is not converted, and the
    logical columns come from a dict, so each is converted once. */
module XlsxNormalizer {
  import opened Base
  import opened Text
  import opened Seqs
  import opened Dates
  import opened Numbers
  import opened Registry
  import opened Frames
  import opened Columns

  /** The columns the fixed steps touch. */
  const Fixed: seq<string> := ["fec_fac", "fec_doc", "fec_ser", "fh_dev", "num_doc", "cod_ser",
    "cod_pac", "nh_pac", "cod_cia", "id_pac"]

  /** The column operations in source order; `flags` is the key list of `boolean_fields`. */
  function Steps(now: Moment, flags: seq<string>): seq<Step> {
    [ Step("fec_fac", DateOrNull),
      Step("fec_doc", DateWithin(WindowStart, now)),
      Step("fec_ser", DateWithin(WindowStart, now)),
      Step("fh_dev", MomentOrNull),
      Step("num_doc", Integer(DropRow, Round, Some(10))),
      Step("cod_ser", Integer(DropRow, Round, None)),
      Step("cod_pac", Integer(DropRow, Round, None)),
      Step("nh_pac", Integer(DropRow, Round, None)),
      Step("cod_cia", Integer(DropRow, Truncate, Some(2))) ]
    + FlagSteps(flags)
    + [Step("id_pac", Integer(DropRow, Truncate, None))]
  }

  /** The registry entry of the table is its field dictionary. */
  function Schema(reg: FlatRegistry, table: string): Fields {
    FlatFields(reg, table)
  }

  /** `boolean_fields`: a dict keyed by lowered name, so each name once. */
  function FlagKeys(fields: Fields): seq<string> {
    Dedup(FlagFields(fields))
  }

  function KeptColumns(reg: FlatRegistry, table: string, header: seq<string>): seq<string> {
    ExistingFields(LowerAll(Names(Schema(reg, table))), LowerAll(header))
  }

  /** `process_xlsx(xlsx_path, table_name)`: the first sheet is a header
      row and records; `now` is `pd.Timestamp.now()`. */
  function Normalize(reg: FlatRegistry, table: string, header: seq<string>, raws: seq<seq<RawCell>>, now: Moment): (r: Result<Frame, Exc>)
    ensures r.Ok? ==> r.value.columns == KeptColumns(reg, table, header)
  {
    var fields := Schema(reg, table);
    RunOn(Steps(now, FlagKeys(fields)), Load(header, raws, LowerAll(Names(fields)), false))
  }

  function RecordCells(reg: FlatRegistry, table: string, header: seq<string>, raws: seq<seq<RawCell>>, k: nat): seq<Value>
    requires k < |raws|
  {
    Project(KeptColumns(reg, table, header), LowerAll(header), raws[k])
  }

  /** No logical column reuses a fixed column. */
  predicate FlagsApart(flags: seq<string>) {
    forall i :: 0 <= i < |flags| ==> flags[i] !in Fixed
  }

  /** The row passes every filter: both dates in the window, every
      converted numeric column a number. */
  predicate Admitted(cols: seq<string>, cells: seq<Value>, now: Moment) {
    Dated(cols, cells, "fec_doc", now) && Dated(cols, cells, "fec_ser", now) &&
    Numeric(cols, cells, "num_doc") && Numeric(cols, cells, "cod_ser") && Numeric(cols, cells, "cod_pac") &&
    Numeric(cols, cells, "nh_pac") && Numeric(cols, cells, "cod_cia") && Numeric(cols, cells, "id_pac")
  }

  // ------------------------------------------------------------- proofs

  lemma StepsShape(now: Moment, flags: seq<string>)
    ensures var s := Steps(now, flags);
      |s| == 10 + |flags| &&
      s[0] == Step("fec_fac", DateOrNull) &&
      s[1] == Step("fec_doc", DateWithin(WindowStart, now)) &&
      s[2] == Step("fec_ser", DateWithin(WindowStart, now)) &&
      s[3] == Step("fh_dev", MomentOrNull) &&
      s[4] == Step("num_doc", Integer(DropRow, Round, Some(10))) &&
      s[5] == Step("cod_ser", Integer(DropRow, Round, None)) &&
      s[6] == Step("cod_pac", Integer(DropRow, Round, None)) &&
      s[7] == Step("nh_pac", Integer(DropRow, Round, None)) &&
      s[8] == Step("cod_cia", Integer(DropRow, Truncate, Some(2))) &&
      (forall i :: 9 <= i < 9 + |flags| ==> s[i] == Step(flags[i - 9], Flag)) &&
      s[9 + |flags|] == Step("id_pac", Integer(DropRow, Truncate, None))
  {
  }

  /** The dict keeps only names the list had. */
  lemma FlagKeysApart(fields: Fields)
    requires FlagsApart(FlagFields(fields))
    ensures FlagsApart(FlagKeys(fields))
    ensures forall i, j :: 0 <= i < j < |FlagKeys(fields)| ==> FlagKeys(fields)[i] != FlagKeys(fields)[j]
  {
    var keys := FlagKeys(fields);
    forall i | 0 <= i < |keys| ensures keys[i] !in Fixed {
      assert keys[i] in FlagFields(fields);
    }
  }

  lemma StepsDistinct(now: Moment, flags: seq<string>)
    requires FlagsApart(flags) && forall i, j :: 0 <= i < j < |flags| ==> flags[i] != flags[j]
    ensures DistinctColumns(Steps(now, flags))
  {
    var s := Steps(now, flags);
    StepsShape(now, flags);
    forall i, j | 0 <= i < j < |s| ensures s[i].column != s[j].column {
      if 9 <= i < 9 + |flags| {
        assert flags[i - 9] !in Fixed;
      } else if 9 <= j < 9 + |flags| {
        assert flags[j - 9] !in Fixed;
        assert s[i].column in Fixed;
      }
    }
  }

  /** No step can raise: the spreadsheet normalizer never fails, whatever
      the file holds. */
  lemma NormalizeNeverFails(reg: FlatRegistry, table: string, header: seq<string>, raws: seq<seq<RawCell>>, now: Moment)
    ensures Normalize(reg, table, header, raws, now).Ok?
  {
    var fields := Schema(reg, table);
    var steps := Steps(now, FlagKeys(fields));
    var f := Load(header, raws, LowerAll(Names(fields)), false);
    StepsShape(now, FlagKeys(fields));
    assert forall i :: 0 <= i < |steps| ==> !MayRaise(steps[i].rule);
    forall k | 0 <= k < |f.rows| ensures !Through(steps, f.columns, f.rows[k].cells).Crashed? {
      ThroughNeverCrashes(steps, f.columns, f.rows[k].cells);
    }
    RunOnFails(steps, f);
  }

  /** Passing every step is being `Admitted`. */
  lemma AdmittedIsPassing(cols: seq<string>, cells: seq<Value>, now: Moment, flags: seq<string>)
    ensures (forall i :: 0 <= i < |Steps(now, flags)| ==> Passes(Steps(now, flags)[i], cols, cells)) <==> Admitted(cols, cells, now)
  {
    var s := Steps(now, flags);
    StepsShape(now, flags);
    forall i | 0 <= i < |s| {
      PassesMeaning(s[i], cols, cells, now);
    }
    if Admitted(cols, cells, now) {
      forall i | 0 <= i < |s| ensures Passes(s[i], cols, cells) {
        if 9 <= i < 9 + |flags| {
          assert s[i].rule == Flag;
        }
      }
    }
  }

  /** A readable record is in the output exactly when it is `Admitted`. */
  lemma NormalizeKeeps(reg: FlatRegistry, table: string, header: seq<string>, raws: seq<seq<RawCell>>, now: Moment, k: nat)
    requires FlagsApart(FlagFields(Schema(reg, table)))
    requires k < |raws| && Readable(raws[k], |header|, false)
    ensures Normalize(reg, table, header, raws, now).Ok?
    ensures (exists j :: 0 <= j < |Normalize(reg, table, header, raws, now).value.rows| &&
               Normalize(reg, table, header, raws, now).value.rows[j].id == k)
      <==> Admitted(KeptColumns(reg, table, header), RecordCells(reg, table, header, raws, k), now)
  {
    var fields := Schema(reg, table);
    var flags := FlagKeys(fields);
    var steps := Steps(now, flags);
    var f := Load(header, raws, LowerAll(Names(fields)), false);
    var cols := KeptColumns(reg, table, header);
    NormalizeNeverFails(reg, table, header, raws, now);
    var j := LoadFinds(header, raws, LowerAll(Names(fields)), false, k);
    RunOnMembership(steps, f, j);
    FlagKeysApart(fields);
    StepsDistinct(now, flags);
    ThroughKept(steps, cols, f.rows[j].cells);
    AdmittedIsPassing(cols, f.rows[j].cells, now, flags);
  }

  /** Every output row is an `Admitted` record, in file order, holding what
      the steps make of its cells. */
  lemma NormalizeRows(reg: FlatRegistry, table: string, header: seq<string>, raws: seq<seq<RawCell>>, now: Moment, j: nat)
    requires FlagsApart(FlagFields(Schema(reg, table)))
    requires Normalize(reg, table, header, raws, now).Ok?
    requires j < |Normalize(reg, table, header, raws, now).value.rows|
    ensures Ascending(Normalize(reg, table, header, raws, now).value.rows)
    ensures var row := Normalize(reg, table, header, raws, now).value.rows[j];
      row.id < |raws| && Readable(raws[row.id], |header|, false) &&
      Admitted(KeptColumns(reg, table, header), RecordCells(reg, table, header, raws, row.id), now) &&
      Through(Steps(now, FlagKeys(Schema(reg, table))), KeptColumns(reg, table, header), RecordCells(reg, table, header, raws, row.id)) == Kept(row.cells)
  {
    var fields := Schema(reg, table);
    var flags := FlagKeys(fields);
    var steps := Steps(now, flags);
    var cols := KeptColumns(reg, table, header);
    var out := Normalize(reg, table, header, raws, now).value.rows;
    RunOnLoadRow(steps, header, raws, LowerAll(Names(fields)), false, j);
    var cells := RecordCells(reg, table, header, raws, out[j].id);
    FlagKeysApart(fields);
    StepsDistinct(now, flags);
    ThroughKept(steps, cols, cells);
    AdmittedIsPassing(cols, cells, now, flags);
  }


  /** The column of the step at position `i`: the fixed columns in order,
      with the logical ones between the ninth and the last. */
  lemma ColumnAt(now: Moment, flags: seq<string>, i: nat)
    requires i < 10 + |flags|
    ensures |Steps(now, flags)| == 10 + |flags|
    ensures Steps(now, flags)[i].column ==
      if i < 9 then Fixed[i] else if i < 9 + |flags| then flags[i - 9] else Fixed[9]
  {
    StepsShape(now, flags);
    if i < 3 {
    } else if i < 6 {
    } else if i < 9 {
    }
  }

  lemma StepColumnsAre(now: Moment, flags: seq<string>, name: string)
    requires name !in Fixed && name !in flags
    ensures name !in StepColumns(Steps(now, flags))
  {
    var s := Steps(now, flags);
    StepsShape(now, flags);
    forall i | 0 <= i < |s| ensures s[i].column != name {
      ColumnAt(now, flags, i);
    }
  }

  /** What a kept row holds in each column a fixed step converts. */
  lemma KeptValues(cols: seq<string>, cells: seq<Value>, now: Moment, flags: seq<string>)
    requires |cells| == |cols| && FlagsApart(flags) && forall i, j :: 0 <= i < j < |flags| ==> flags[i] != flags[j]
    requires Through(Steps(now, flags), cols, cells).Kept?
    ensures var out := Through(Steps(now, flags), cols, cells).cells;
      ("fec_fac" in cols ==> DayOf(CellOf(cols, cells, "fec_fac"), CellOf(cols, out, "fec_fac"))) &&
      ("fec_doc" in cols ==> WindowDay(CellOf(cols, cells, "fec_doc"), CellOf(cols, out, "fec_doc"), now)) &&
      ("fec_ser" in cols ==> WindowDay(CellOf(cols, cells, "fec_ser"), CellOf(cols, out, "fec_ser"), now)) &&
      ("fh_dev" in cols ==> MomentOf(CellOf(cols, cells, "fh_dev"), CellOf(cols, out, "fh_dev"))) &&
      ("num_doc" in cols ==> PaddedCode(CellOf(cols, cells, "num_doc"), CellOf(cols, out, "num_doc"), Round, 10)) &&
      ("cod_ser" in cols ==> RoundedInt(CellOf(cols, cells, "cod_ser"), CellOf(cols, out, "cod_ser"))) &&
      ("cod_pac" in cols ==> RoundedInt(CellOf(cols, cells, "cod_pac"), CellOf(cols, out, "cod_pac"))) &&
      ("nh_pac" in cols ==> RoundedInt(CellOf(cols, cells, "nh_pac"), CellOf(cols, out, "nh_pac"))) &&
      ("cod_cia" in cols ==> PaddedCode(CellOf(cols, cells, "cod_cia"), CellOf(cols, out, "cod_cia"), Truncate, 2)) &&
      ("id_pac" in cols ==> TruncatedInt(CellOf(cols, cells, "id_pac"), CellOf(cols, out, "id_pac")))
  {
    var s := Steps(now, flags);
    StepsShape(now, flags);
    KeptMeanings(cols, cells, now, flags);
    assert s[9 + |flags|] == Step("id_pac", Integer(DropRow, Truncate, None));
  }

  /** Every step that found its column left the meaning its rule promises. */
  lemma KeptMeanings(cols: seq<string>, cells: seq<Value>, now: Moment, flags: seq<string>)
    requires |cells| == |cols| && FlagsApart(flags) && forall i, j :: 0 <= i < j < |flags| ==> flags[i] != flags[j]
    requires Through(Steps(now, flags), cols, cells).Kept?
    ensures var s := Steps(now, flags);
      forall i :: 0 <= i < |s| && s[i].column in cols ==>
        MeaningHolds(s[i], cols, cells, Through(s, cols, cells).cells, now)
  {
    var s := Steps(now, flags);
    var out := Through(s, cols, cells).cells;
    StepsDistinct(now, flags);
    ThroughValues(s, cols, cells);
    forall i | 0 <= i < |s| && s[i].column in cols
      ensures MeaningHolds(s[i], cols, cells, out, now)
    {
      ConvertMeaning(s[i].rule, CellOf(cols, cells, s[i].column), now);
    }
  }

  /** A kept row holds 0 or 1 in each logical column, 1 exactly for `T`/`t`;
      `per_dev` and every other column no step touches keep the cell as read. */
  lemma KeptFlagsAndRest(cols: seq<string>, cells: seq<Value>, now: Moment, flags: seq<string>)
    requires |cells| == |cols| && FlagsApart(flags) && forall i, j :: 0 <= i < j < |flags| ==> flags[i] != flags[j]
    requires Through(Steps(now, flags), cols, cells).Kept?
    ensures var out := Through(Steps(now, flags), cols, cells).cells;
      forall i :: 0 <= i < |flags| && flags[i] in cols ==> FlagOf(CellOf(cols, cells, flags[i]), CellOf(cols, out, flags[i]))
    ensures var out := Through(Steps(now, flags), cols, cells).cells;
      forall name :: name !in Fixed && name !in flags ==> CellOf(cols, out, name) == CellOf(cols, cells, name)
  {
    var s := Steps(now, flags);
    var out := Through(s, cols, cells).cells;
    StepsShape(now, flags);
    StepsDistinct(now, flags);
    ThroughValues(s, cols, cells);
    forall i | 0 <= i < |flags| && flags[i] in cols
      ensures FlagOf(CellOf(cols, cells, flags[i]), CellOf(cols, out, flags[i]))
    {
      assert s[9 + i] == Step(flags[i], Flag);
      ConvertMeaning(Flag, CellOf(cols, cells, flags[i]), now);
    }
    forall name | name !in Fixed && name !in flags
      ensures CellOf(cols, out, name) == CellOf(cols, cells, name)
    {
      StepColumnsAre(now, flags, name);
    }
  }

  /** The fact `ConvertMeaning` gives about one step of a kept row. */
  predicate MeaningHolds(step: Step, cols: seq<string>, cells: seq<Value>, out: seq<Value>, now: Moment) {
    var raw, w := CellOf(cols, cells, step.column), CellOf(cols, out, step.column);
    (step.rule == DateOrNull ==> DayOf(raw, w)) &&
    (step.rule == MomentOrNull ==> MomentOf(raw, w)) &&
    (step.rule == DateWithin(WindowStart, now) ==> WindowDay(raw, w, now)) &&
    (step.rule.Integer? && step.rule.width.None? && step.rule.rounding == Round ==> RoundedInt(raw, w)) &&
    (step.rule.Integer? && step.rule.width.None? && step.rule.rounding == Truncate ==> TruncatedInt(raw, w)) &&
    (step.rule.Integer? && step.rule.width.Some? ==> PaddedCode(raw, w, step.rule.rounding, step.rule.width.value)) &&
    (step.rule == Flag ==> FlagOf(raw, w))
  }
}
