/** `process_csv`: the CSV normalizer. It reads the converted table, keeps
    the schema's columns, converts the date, numeric and logical columns,
    and drops the rows that fail a date window or a numeric parse. Four of
    its numeric columns have no `dropna`, so a bad cell there fails the
    whole table. */
module CsvNormalizer {
  import opened Base
  import opened Text
  import opened Dates
  import opened Numbers
  import opened Registry
  import opened Frames
  import opened Columns

  /** The columns the fixed steps touch. */
  const Fixed: seq<string> := ["fec_fac", "fec_doc", "fec_ser", "num_doc", "cod_ser", "per_dev",
    "cod_pac", "nh_pac", "cod_cia", "id_pac"]

  /** The column operations in source order; `flags` is `boolean_fields`. */
  function Steps(now: Moment, flags: seq<string>): seq<Step> {
    Leading(now) + FlagSteps(flags) + [Step("id_pac", Integer(DropRow, Truncate, None))]
  }

  /** The nine steps before the logical columns, the only ones that may raise. */
  function Leading(now: Moment): seq<Step> {
    [ Step("fec_fac", DateOrNull),
      Step("fec_doc", DateWithin(WindowStart, now)),
      Step("fec_ser", DateWithin(WindowStart, now)),
      Step("num_doc", Integer(DropRow, Round, Some(10))),
      Step("cod_ser", Integer(Fail, Round, None)),
      Step("per_dev", Integer(DropRow, Round, None)),
      Step("cod_pac", Integer(Fail, Round, None)),
      Step("nh_pac", Integer(Fail, Round, None)),
      Step("cod_cia", Integer(Fail, Truncate, Some(2))) ]
  }

  /** The fields the registry lists under the table's `fields` entry. */
  function Schema(reg: NestedRegistry, table: string): Fields {
    NestedFields(reg, table)
  }

  /** The columns the normalized table keeps. */
  function KeptColumns(reg: NestedRegistry, table: string, header: seq<string>): seq<string> {
    ExistingFields(LowerAll(Names(Schema(reg, table))), LowerAll(header))
  }

  /** `process_csv(csv_path, table_name)`: the file is a header and records;
      `now` is `pd.Timestamp.now()`. */
  function Normalize(reg: NestedRegistry, table: string, header: seq<string>, raws: seq<seq<RawCell>>, now: Moment): (r: Result<Frame, Exc>)
    ensures r.Ok? ==> r.value.columns == KeptColumns(reg, table, header)
    ensures r.Ok? ==> forall i :: 0 <= i < |r.value.columns| ==> r.value.columns[i] in LowerAll(Names(Schema(reg, table))) && r.value.columns[i] in LowerAll(header)
    ensures r.Err? ==> r.error == NanCast
  {
    var fields := Schema(reg, table);
    RunOn(Steps(now, FlagFields(fields)), Load(header, raws, LowerAll(Names(fields)), true))
  }

  /** The raw record `k`, cut down to the kept columns, as the reader sees it. */
  function RecordCells(reg: NestedRegistry, table: string, header: seq<string>, raws: seq<seq<RawCell>>, k: nat): seq<Value>
    requires k < |raws|
  {
    Project(KeptColumns(reg, table, header), LowerAll(header), raws[k])
  }

  /** The logical columns neither repeat nor reuse a fixed column. */
  predicate FlagsApart(flags: seq<string>) {
    (forall i, j :: 0 <= i < j < |flags| ==> flags[i] != flags[j]) &&
    (forall i :: 0 <= i < |flags| ==> flags[i] !in Fixed)
  }

  /** The row passes every filter: both dates in the window, every numeric column a number. */
  predicate Admitted(cols: seq<string>, cells: seq<Value>, now: Moment) {
    Dated(cols, cells, "fec_doc", now) && Dated(cols, cells, "fec_ser", now) &&
    Numeric(cols, cells, "num_doc") && Numeric(cols, cells, "cod_ser") && Numeric(cols, cells, "per_dev") &&
    Numeric(cols, cells, "cod_pac") && Numeric(cols, cells, "nh_pac") && Numeric(cols, cells, "cod_cia") &&
    Numeric(cols, cells, "id_pac")
  }

  /** The row reaches a numeric column without `dropna` holding something
      that is not a number. */
  predicate Crashes(cols: seq<string>, cells: seq<Value>, now: Moment) {
    Dated(cols, cells, "fec_doc", now) && Dated(cols, cells, "fec_ser", now) && Numeric(cols, cells, "num_doc") &&
    (NotNumeric(cols, cells, "cod_ser") ||
     (Numeric(cols, cells, "per_dev") &&
      (NotNumeric(cols, cells, "cod_pac") || NotNumeric(cols, cells, "nh_pac") || NotNumeric(cols, cells, "cod_cia"))))
  }

  // ------------------------------------------------------------- proofs

  lemma StepsShape(now: Moment, flags: seq<string>)
    ensures var s := Steps(now, flags);
      |s| == 10 + |flags| &&
      s[0] == Step("fec_fac", DateOrNull) &&
      s[1] == Step("fec_doc", DateWithin(WindowStart, now)) &&
      s[2] == Step("fec_ser", DateWithin(WindowStart, now)) &&
      s[3] == Step("num_doc", Integer(DropRow, Round, Some(10))) &&
      s[4] == Step("cod_ser", Integer(Fail, Round, None)) &&
      s[5] == Step("per_dev", Integer(DropRow, Round, None)) &&
      s[6] == Step("cod_pac", Integer(Fail, Round, None)) &&
      s[7] == Step("nh_pac", Integer(Fail, Round, None)) &&
      s[8] == Step("cod_cia", Integer(Fail, Truncate, Some(2))) &&
      (forall i :: 9 <= i < 9 + |flags| ==> s[i] == Step(flags[i - 9], Flag)) &&
      s[9 + |flags|] == Step("id_pac", Integer(DropRow, Truncate, None))
  {
  }

  lemma StepsDistinct(now: Moment, flags: seq<string>)
    requires FlagsApart(flags)
    ensures DistinctColumns(Steps(now, flags))
  {
    var s := Steps(now, flags);
    StepsShape(now, flags);
    forall i, j | 0 <= i < j < |s| ensures s[i].column != s[j].column {
      if 9 <= i < 9 + |flags| {
        assert flags[i - 9] !in Fixed;
      } else if 9 <= j < 9 + |flags| {
        assert flags[j - 9] !in Fixed;
        assert s[i].column in Fixed;
      }
    }
  }

  /** The nine leading steps work on nine different columns and open every
      step list; no step after them may raise. */
  lemma LeadingShape(now: Moment, flags: seq<string>)
    ensures |Leading(now)| == 9 && DistinctColumns(Leading(now))
    ensures forall i :: 0 <= i < 9 ==> Steps(now, flags)[i] == Leading(now)[i]
    ensures var s := Steps(now, flags);
      s == Leading(now) + s[9..] && forall i :: 9 <= i < |s| ==> !MayRaise(s[i].rule)
  {
    var s := Steps(now, flags);
    StepsShape(now, flags);
    assert s == Leading(now) + s[9..];
    forall i | 9 <= i < |s| ensures !MayRaise(s[i].rule) {
      ColumnAt(now, flags, i);
    }
  }

  /** A row crashes the full step list exactly when it crashes the nine
      leading steps, whatever the logical columns are. */
  lemma CrashesInLeading(cols: seq<string>, cells: seq<Value>, now: Moment, flags: seq<string>)
    ensures Through(Steps(now, flags), cols, cells).Crashed? <==> Through(Leading(now), cols, cells).Crashed?
  {
    var s := Steps(now, flags);
    LeadingShape(now, flags);
    ThroughSafeTail(Leading(now), s[9..], cols, cells);
  }

  /** Passing every step is being `Admitted`. */
  lemma AdmittedIsPassing(cols: seq<string>, cells: seq<Value>, now: Moment, flags: seq<string>)
    ensures (forall i :: 0 <= i < |Steps(now, flags)| ==> Passes(Steps(now, flags)[i], cols, cells)) <==> Admitted(cols, cells, now)
  {
    var s := Steps(now, flags);
    StepsShape(now, flags);
    forall i | 0 <= i < |s| {
      PassesMeaning(s[i], cols, cells, now);
    }
    if Admitted(cols, cells, now) {
      forall i | 0 <= i < |s| ensures Passes(s[i], cols, cells) {
        if 9 <= i < 9 + |flags| {
          assert s[i].rule == Flag;
        }
      }
    }
  }

  /** The first nine steps, as the row sees them. */
  lemma FixedMeaning(cols: seq<string>, cells: seq<Value>, now: Moment, flags: seq<string>)
    ensures var s := Steps(now, flags);
      Passes(s[0], cols, cells) &&
      (Passes(s[1], cols, cells) <==> Dated(cols, cells, "fec_doc", now)) &&
      (Passes(s[2], cols, cells) <==> Dated(cols, cells, "fec_ser", now)) &&
      (Passes(s[3], cols, cells) <==> Numeric(cols, cells, "num_doc")) &&
      (Passes(s[4], cols, cells) <==> Numeric(cols, cells, "cod_ser")) &&
      (Passes(s[5], cols, cells) <==> Numeric(cols, cells, "per_dev")) &&
      (Passes(s[6], cols, cells) <==> Numeric(cols, cells, "cod_pac")) &&
      (Passes(s[7], cols, cells) <==> Numeric(cols, cells, "nh_pac")) &&
      (Passes(s[8], cols, cells) <==> Numeric(cols, cells, "cod_cia"))
  {
    var s := Steps(now, flags);
    StepsShape(now, flags);
    PassesMeaning(s[0], cols, cells, now);
    PassesMeaning(s[1], cols, cells, now);
    PassesMeaning(s[2], cols, cells, now);
    PassesMeaning(s[3], cols, cells, now);
    PassesMeaning(s[4], cols, cells, now);
    PassesMeaning(s[5], cols, cells, now);
    PassesMeaning(s[6], cols, cells, now);
    PassesMeaning(s[7], cols, cells, now);
    PassesMeaning(s[8], cols, cells, now);
  }

  /** Only the four numeric steps without `dropna` can raise. */
  lemma RaisingSteps(cols: seq<string>, cells: seq<Value>, now: Moment, flags: seq<string>, i: nat)
    requires i < |Steps(now, flags)|
    requires Convert(Steps(now, flags)[i].rule, CellOf(cols, cells, Steps(now, flags)[i].column)).Raises?
    ensures i == 4 || i == 6 || i == 7 || i == 8
  {
    var s := Steps(now, flags);
    StepsShape(now, flags);
    ConvertRaises(s[i].rule, CellOf(cols, cells, s[i].column));
  }

  /** A row that crashes satisfies `Crashes`. */
  lemma CrashesFromCause(cols: seq<string>, cells: seq<Value>, now: Moment, flags: seq<string>)
    requires |cells| == |cols|
    requires Through(Steps(now, flags), cols, cells).Crashed?
    ensures Crashes(cols, cells, now)
  {
    var s := Steps(now, flags);
    LeadingShape(now, flags);
    CrashesInLeading(cols, cells, now, flags);
    var i := ThroughCrashCause(Leading(now), cols, cells);
    assert s[i] == Leading(now)[i];
    assert forall j :: 0 <= j < i ==> Passes(s[j], cols, cells) by {
      assert forall j :: 0 <= j < i ==> s[j] == Leading(now)[j];
    }
    RaisingSteps(cols, cells, now, flags, i);
    FixedMeaning(cols, cells, now, flags);
    ConvertRaises(s[i].rule, CellOf(cols, cells, s[i].column));
    assert Passes(s[1], cols, cells) && Passes(s[2], cols, cells) && Passes(s[3], cols, cells);
    if i > 4 {
      assert Passes(s[5], cols, cells);
    }
  }

  /** A row satisfying `Crashes` crashes. */
  lemma CrashesCause(cols: seq<string>, cells: seq<Value>, now: Moment, flags: seq<string>)
    requires |cells| == |cols|
    requires Crashes(cols, cells, now)
    ensures Through(Steps(now, flags), cols, cells).Crashed?
  {
    var i := if NotNumeric(cols, cells, "cod_ser") then 4
      else if NotNumeric(cols, cells, "cod_pac") then 6
      else if NotNumeric(cols, cells, "nh_pac") then 7
      else 8;
    PrefixPasses(cols, cells, now, flags, i);
    CrashesAt(cols, cells, now, flags, i);
  }

  /** The steps before `i` keep a row whose dates are in the window and
      whose numeric cells up to `i` are numbers. */
  lemma PrefixPasses(cols: seq<string>, cells: seq<Value>, now: Moment, flags: seq<string>, i: nat)
    requires i <= 9
    requires i > 1 ==> Dated(cols, cells, "fec_doc", now)
    requires i > 2 ==> Dated(cols, cells, "fec_ser", now)
    requires i > 3 ==> Numeric(cols, cells, "num_doc")
    requires i > 4 ==> Numeric(cols, cells, "cod_ser")
    requires i > 5 ==> Numeric(cols, cells, "per_dev")
    requires i > 6 ==> Numeric(cols, cells, "cod_pac")
    requires i > 7 ==> Numeric(cols, cells, "nh_pac")
    requires i > 8 ==> Numeric(cols, cells, "cod_cia")
    ensures forall j :: 0 <= j < i ==> Passes(Steps(now, flags)[j], cols, cells)
  {
    FixedMeaning(cols, cells, now, flags);
    forall j | 0 <= j < i ensures Passes(Steps(now, flags)[j], cols, cells) {
      assert j == 0 || j == 1 || j == 2 || j == 3 || j == 4 || j == 5 || j == 6 || j == 7 || j == 8;
    }
  }

  /** The step at `i`, one of the four that may raise, raises once every
      earlier step keeps the row. */
  lemma CrashesAt(cols: seq<string>, cells: seq<Value>, now: Moment, flags: seq<string>, i: nat)
    requires |cells| == |cols|
    requires i == 4 || i == 6 || i == 7 || i == 8
    requires forall j :: 0 <= j < i ==> Passes(Steps(now, flags)[j], cols, cells)
    requires NotNumeric(cols, cells, Fixed[i])
    ensures Through(Steps(now, flags), cols, cells).Crashed?
  {
    var s, l := Steps(now, flags), Leading(now);
    ColumnAt(now, flags, i);
    StepsShape(now, flags);
    LeadingShape(now, flags);
    ConvertRaises(s[i].rule, CellOf(cols, cells, s[i].column));
    assert forall j :: 0 <= j < i ==> Passes(l[j], cols, cells) by {
      assert forall j :: 0 <= j < i ==> s[j] == l[j];
    }
    ThroughCrash(l, cols, cells, i);
    CrashesInLeading(cols, cells, now, flags);
  }

  /** A row crashes the table exactly when `Crashes` holds. */
  lemma CrashesIsCause(cols: seq<string>, cells: seq<Value>, now: Moment, flags: seq<string>)
    requires |cells| == |cols|
    ensures Through(Steps(now, flags), cols, cells).Crashed? <==> Crashes(cols, cells, now)
  {
    if Through(Steps(now, flags), cols, cells).Crashed? {
      CrashesFromCause(cols, cells, now, flags);
    }
    if Crashes(cols, cells, now) {
      CrashesCause(cols, cells, now, flags);
    }
  }

  /** The table fails, with pandas' casting error, exactly when some record
      that survives the date and `num_doc` filters reaches a non-number in
      `cod_ser`, or (past `per_dev`) in `cod_pac`, `nh_pac` or `cod_cia`. */
  lemma NormalizeFails(reg: NestedRegistry, table: string, header: seq<string>, raws: seq<seq<RawCell>>, now: Moment)
    ensures Normalize(reg, table, header, raws, now).Err? <==>
      exists k :: 0 <= k < |raws| && Readable(raws[k], |header|, true) &&
        Crashes(KeptColumns(reg, table, header), RecordCells(reg, table, header, raws, k), now)
  {
    var fields := Schema(reg, table);
    var flags := FlagFields(fields);
    var steps := Steps(now, flags);
    var f := Load(header, raws, LowerAll(Names(fields)), true);
    var cols := KeptColumns(reg, table, header);
    RunOnFails(steps, f);
    LoadOrigin(header, raws, LowerAll(Names(fields)), true);
    if Normalize(reg, table, header, raws, now).Err? {
      var j :| 0 <= j < |f.rows| && Through(steps, f.columns, f.rows[j].cells).Crashed?;
      CrashesIsCause(cols, f.rows[j].cells, now, flags);
      assert Crashes(cols, RecordCells(reg, table, header, raws, f.rows[j].id), now);
    }
    if exists k :: 0 <= k < |raws| && Readable(raws[k], |header|, true) &&
        Crashes(cols, RecordCells(reg, table, header, raws, k), now) {
      var k :| 0 <= k < |raws| && Readable(raws[k], |header|, true) &&
        Crashes(cols, RecordCells(reg, table, header, raws, k), now);
      var j := LoadFinds(header, raws, LowerAll(Names(fields)), true, k);
      CrashesIsCause(cols, f.rows[j].cells, now, flags);
    }
  }

  /** With no failure, a readable record is in the output exactly when it is `Admitted`. */
  lemma NormalizeKeeps(reg: NestedRegistry, table: string, header: seq<string>, raws: seq<seq<RawCell>>, now: Moment, k: nat)
    requires FlagsApart(FlagFields(Schema(reg, table)))
    requires Normalize(reg, table, header, raws, now).Ok?
    requires k < |raws| && Readable(raws[k], |header|, true)
    ensures (exists j :: 0 <= j < |Normalize(reg, table, header, raws, now).value.rows| &&
               Normalize(reg, table, header, raws, now).value.rows[j].id == k)
      <==> Admitted(KeptColumns(reg, table, header), RecordCells(reg, table, header, raws, k), now)
  {
    var fields := Schema(reg, table);
    var flags := FlagFields(fields);
    var steps := Steps(now, flags);
    var f := Load(header, raws, LowerAll(Names(fields)), true);
    var cols := KeptColumns(reg, table, header);
    var j := LoadFinds(header, raws, LowerAll(Names(fields)), true, k);
    RunOnMembership(steps, f, j);
    StepsDistinct(now, flags);
    ThroughKept(steps, cols, f.rows[j].cells);
    AdmittedIsPassing(cols, f.rows[j].cells, now, flags);
  }

  /** Every output row is an `Admitted` readable record, in file order, holding
      what the steps make of its cells. */
  lemma NormalizeRows(reg: NestedRegistry, table: string, header: seq<string>, raws: seq<seq<RawCell>>, now: Moment, j: nat)
    requires FlagsApart(FlagFields(Schema(reg, table)))
    requires Normalize(reg, table, header, raws, now).Ok?
    requires j < |Normalize(reg, table, header, raws, now).value.rows|
    ensures Ascending(Normalize(reg, table, header, raws, now).value.rows)
    ensures var row := Normalize(reg, table, header, raws, now).value.rows[j];
      row.id < |raws| && Readable(raws[row.id], |header|, true) &&
      Admitted(KeptColumns(reg, table, header), RecordCells(reg, table, header, raws, row.id), now) &&
      Through(Steps(now, FlagFields(Schema(reg, table))), KeptColumns(reg, table, header), RecordCells(reg, table, header, raws, row.id)) == Kept(row.cells)
  {
    var fields := Schema(reg, table);
    var flags := FlagFields(fields);
    var steps := Steps(now, flags);
    var cols := KeptColumns(reg, table, header);
    var out := Normalize(reg, table, header, raws, now).value.rows;
    RunOnLoadRow(steps, header, raws, LowerAll(Names(fields)), true, j);
    var cells := RecordCells(reg, table, header, raws, out[j].id);
    StepsDistinct(now, flags);
    ThroughKept(steps, cols, cells);
    AdmittedIsPassing(cols, cells, now, flags);
  }


  /** The column of the step at position `i`: the fixed columns in order,
      with the logical ones between the ninth and the last. */
  lemma ColumnAt(now: Moment, flags: seq<string>, i: nat)
    requires i < 10 + |flags|
    ensures |Steps(now, flags)| == 10 + |flags|
    ensures Steps(now, flags)[i].column ==
      if i < 9 then Fixed[i] else if i < 9 + |flags| then flags[i - 9] else Fixed[9]
  {
    StepsShape(now, flags);
    if i < 3 {
    } else if i < 6 {
    } else if i < 9 {
    }
  }

  /** The columns the steps touch are exactly the fixed ones and the logical ones. */
  lemma StepColumnsAre(now: Moment, flags: seq<string>, name: string)
    requires name !in Fixed && name !in flags
    ensures name !in StepColumns(Steps(now, flags))
  {
    var s := Steps(now, flags);
    StepsShape(now, flags);
    forall i | 0 <= i < |s| ensures s[i].column != name {
      ColumnAt(now, flags, i);
    }
  }

  /** Every step that found its column left the meaning its rule promises. */
  lemma KeptMeanings(cols: seq<string>, cells: seq<Value>, now: Moment, flags: seq<string>)
    requires |cells| == |cols| && FlagsApart(flags)
    requires Through(Steps(now, flags), cols, cells).Kept?
    ensures var s := Steps(now, flags);
      forall i :: 0 <= i < |s| && s[i].column in cols ==>
        ConvertMeaningHolds(s[i], cols, cells, Through(s, cols, cells).cells, now)
  {
    var s := Steps(now, flags);
    var out := Through(s, cols, cells).cells;
    StepsDistinct(now, flags);
    ThroughValues(s, cols, cells);
    forall i | 0 <= i < |s| && s[i].column in cols
      ensures ConvertMeaningHolds(s[i], cols, cells, out, now)
    {
      ConvertMeaning(s[i].rule, CellOf(cols, cells, s[i].column), now);
    }
  }

  /** What a kept row holds in the ten named columns. */
  lemma KeptFixedValues(cols: seq<string>, cells: seq<Value>, now: Moment, flags: seq<string>)
    requires |cells| == |cols| && FlagsApart(flags)
    requires Through(Steps(now, flags), cols, cells).Kept?
    ensures var out := Through(Steps(now, flags), cols, cells).cells;
      ("fec_fac" in cols ==> DayOf(CellOf(cols, cells, "fec_fac"), CellOf(cols, out, "fec_fac"))) &&
      ("fec_doc" in cols ==> WindowDay(CellOf(cols, cells, "fec_doc"), CellOf(cols, out, "fec_doc"), now)) &&
      ("fec_ser" in cols ==> WindowDay(CellOf(cols, cells, "fec_ser"), CellOf(cols, out, "fec_ser"), now)) &&
      ("num_doc" in cols ==> PaddedCode(CellOf(cols, cells, "num_doc"), CellOf(cols, out, "num_doc"), Round, 10)) &&
      ("cod_ser" in cols ==> RoundedInt(CellOf(cols, cells, "cod_ser"), CellOf(cols, out, "cod_ser"))) &&
      ("per_dev" in cols ==> RoundedInt(CellOf(cols, cells, "per_dev"), CellOf(cols, out, "per_dev"))) &&
      ("cod_pac" in cols ==> RoundedInt(CellOf(cols, cells, "cod_pac"), CellOf(cols, out, "cod_pac"))) &&
      ("nh_pac" in cols ==> RoundedInt(CellOf(cols, cells, "nh_pac"), CellOf(cols, out, "nh_pac"))) &&
      ("cod_cia" in cols ==> PaddedCode(CellOf(cols, cells, "cod_cia"), CellOf(cols, out, "cod_cia"), Truncate, 2)) &&
      ("id_pac" in cols ==> TruncatedInt(CellOf(cols, cells, "id_pac"), CellOf(cols, out, "id_pac")))
  {
    var s := Steps(now, flags);
    StepsShape(now, flags);
    KeptMeanings(cols, cells, now, flags);
    assert s[9 + |flags|] == Step("id_pac", Integer(DropRow, Truncate, None));
  }

  /** What a kept row holds in each flag column. */
  lemma KeptFlags(cols: seq<string>, cells: seq<Value>, now: Moment, flags: seq<string>)
    requires |cells| == |cols| && FlagsApart(flags)
    requires Through(Steps(now, flags), cols, cells).Kept?
    ensures var out := Through(Steps(now, flags), cols, cells).cells;
      forall i :: 0 <= i < |flags| && flags[i] in cols ==> FlagOf(CellOf(cols, cells, flags[i]), CellOf(cols, out, flags[i]))
  {
    var s := Steps(now, flags);
    var out := Through(s, cols, cells).cells;
    StepsShape(now, flags);
    KeptMeanings(cols, cells, now, flags);
    forall i | 0 <= i < |flags| && flags[i] in cols
      ensures FlagOf(CellOf(cols, cells, flags[i]), CellOf(cols, out, flags[i]))
    {
      assert s[9 + i] == Step(flags[i], Flag);
    }
  }

  /** A kept row is unchanged in every column no step touches. */
  lemma KeptOthers(cols: seq<string>, cells: seq<Value>, now: Moment, flags: seq<string>)
    requires |cells| == |cols| && FlagsApart(flags)
    requires Through(Steps(now, flags), cols, cells).Kept?
    ensures var out := Through(Steps(now, flags), cols, cells).cells;
      forall name :: name !in Fixed && name !in flags ==> CellOf(cols, out, name) == CellOf(cols, cells, name)
  {
    var s := Steps(now, flags);
    var out := Through(s, cols, cells).cells;
    StepsDistinct(now, flags);
    ThroughValues(s, cols, cells);
    forall name | name !in Fixed && name !in flags
      ensures CellOf(cols, out, name) == CellOf(cols, cells, name)
    {
      StepColumnsAre(now, flags, name);
    }
  }

  /** What a kept row holds in each column: the conversion of the cell as
      read in every column a step touches, the cell as read in every other. */
  lemma KeptValues(cols: seq<string>, cells: seq<Value>, now: Moment, flags: seq<string>)
    requires |cells| == |cols| && FlagsApart(flags)
    requires Through(Steps(now, flags), cols, cells).Kept?
    ensures var out := Through(Steps(now, flags), cols, cells).cells;
      ("fec_fac" in cols ==> DayOf(CellOf(cols, cells, "fec_fac"), CellOf(cols, out, "fec_fac"))) &&
      ("fec_doc" in cols ==> WindowDay(CellOf(cols, cells, "fec_doc"), CellOf(cols, out, "fec_doc"), now)) &&
      ("fec_ser" in cols ==> WindowDay(CellOf(cols, cells, "fec_ser"), CellOf(cols, out, "fec_ser"), now)) &&
      ("num_doc" in cols ==> PaddedCode(CellOf(cols, cells, "num_doc"), CellOf(cols, out, "num_doc"), Round, 10)) &&
      ("cod_ser" in cols ==> RoundedInt(CellOf(cols, cells, "cod_ser"), CellOf(cols, out, "cod_ser"))) &&
      ("per_dev" in cols ==> RoundedInt(CellOf(cols, cells, "per_dev"), CellOf(cols, out, "per_dev"))) &&
      ("cod_pac" in cols ==> RoundedInt(CellOf(cols, cells, "cod_pac"), CellOf(cols, out, "cod_pac"))) &&
      ("nh_pac" in cols ==> RoundedInt(CellOf(cols, cells, "nh_pac"), CellOf(cols, out, "nh_pac"))) &&
      ("cod_cia" in cols ==> PaddedCode(CellOf(cols, cells, "cod_cia"), CellOf(cols, out, "cod_cia"), Truncate, 2)) &&
      ("id_pac" in cols ==> TruncatedInt(CellOf(cols, cells, "id_pac"), CellOf(cols, out, "id_pac")))
    ensures var out := Through(Steps(now, flags), cols, cells).cells;
      forall i :: 0 <= i < |flags| && flags[i] in cols ==> FlagOf(CellOf(cols, cells, flags[i]), CellOf(cols, out, flags[i]))
    ensures var out := Through(Steps(now, flags), cols, cells).cells;
      forall name :: name !in Fixed && name !in flags ==> CellOf(cols, out, name) == CellOf(cols, cells, name)
  {
    KeptFixedValues(cols, cells, now, flags);
    KeptFlags(cols, cells, now, flags);
    KeptOthers(cols, cells, now, flags);
  }

  /** The fact `ConvertMeaning` gives about one step of a kept row. */
  predicate ConvertMeaningHolds(step: Step, cols: seq<string>, cells: seq<Value>, out: seq<Value>, now: Moment) {
    var raw, w := CellOf(cols, cells, step.column), CellOf(cols, out, step.column);
    (step.rule == DateOrNull ==> DayOf(raw, w)) &&
    (step.rule == DateWithin(WindowStart, now) ==> WindowDay(raw, w, now)) &&
    (step.rule.Integer? && step.rule.width.None? && step.rule.rounding == Round ==> RoundedInt(raw, w)) &&
    (step.rule.Integer? && step.rule.width.None? && step.rule.rounding == Truncate ==> TruncatedInt(raw, w)) &&
    (step.rule.Integer? && step.rule.width.Some? ==> PaddedCode(raw, w, step.rule.rounding, step.rule.width.value)) &&
    (step.rule == Flag ==> FlagOf(raw, w))
  }
}
