/** The table the normalizers work on, and the one mechanism both of them
    use: a list of single-column steps, each of which converts a column in
    place, may drop the rows whose cell it cannot convert, or may raise for
    the whole table. The source runs the steps one column at a time over the
    whole table; `Through` runs them one row at a time, and
    `RunStepsIsRowwise` shows the two agree. */
module Frames {
  import opened Base
  import opened Text
  import opened Seqs
  import opened Dates
  import opened Numbers

  /** A cell after reading or conversion; `Null` is pandas' NaN / NaT. */
  datatype Value = Null | Str(text: string) | Int(n: int) | Day(date: Date) | Stamp(moment: Moment)

  /** A cell as the file reader hands it over; `None` is a cell the row lacks. */
  type RawCell = Option<string>

  /** `id` is the position of the row in the file it was read from. */
  datatype Row = Row(id: nat, cells: seq<Value>)

  datatype Frame = Frame(columns: seq<string>, rows: seq<Row>)

  /** The strings pandas reads as NaN by default. */
  const NaTokens: set<string> := {"", "#N/A", "#N/A N/A", "#NA", "-1.#IND", "-1.#QNAN", "-NaN", "-nan",
    "1.#IND", "1.#QNAN", "<NA>", "N/A", "NA", "NULL", "NaN", "None", "n/a", "nan", "null"}

  function ReadCell(c: RawCell): Value {
    match c
    case None => Null
    case Some(s) => if s in NaTokens then Null else Str(s)
  }

  function LowerAll(xs: seq<string>): (r: seq<string>)
    ensures |r| == |xs| && forall i :: 0 <= i < |xs| ==> r[i] == Lower(xs[i])
  {
    if xs == [] then [] else [Lower(xs[0])] + LowerAll(xs[1..])
  }

  /** Position of the first occurrence of `x`. */
  function IndexOf(xs: seq<string>, x: string): (i: nat)
    requires x in xs
    ensures i < |xs| && xs[i] == x
    ensures forall j :: 0 <= j < i ==> xs[j] != x
  {
    if xs[0] == x then 0 else 1 + IndexOf(xs[1..], x)
  }

  /** The cell under `name`, NaN when the frame has no such column. */
  function CellOf(cols: seq<string>, cells: seq<Value>, name: string): Value {
    if name in cols && IndexOf(cols, name) < |cells| then cells[IndexOf(cols, name)] else Null
  }

  // ---------------------------------------------------------------- reading

  /** The allowed fields present in the header, in the schema's order. */
  function ExistingFields(allowed: seq<string>, header: seq<string>): (r: seq<string>)
    ensures forall i :: 0 <= i < |r| ==> r[i] in allowed && r[i] in header
    ensures forall i :: 0 <= i < |allowed| && allowed[i] in header ==> allowed[i] in r
  {
    Filter(allowed, (f: string) => f in header)
  }

  function CellAt(raw: seq<RawCell>, i: nat): Value {
    if i < |raw| then ReadCell(raw[i]) else Null
  }

  /** One record reduced to the selected columns; short records read as NaN. */
  function Project(cols: seq<string>, header: seq<string>, raw: seq<RawCell>): (r: seq<Value>)
    requires forall j :: 0 <= j < |cols| ==> cols[j] in header
    ensures |r| == |cols|
    ensures forall j :: 0 <= j < |cols| ==> r[j] == CellAt(raw, IndexOf(header, cols[j]))
  {
    seq(|cols|, (j: int) requires 0 <= j < |cols| => CellAt(raw, IndexOf(header, cols[j])))
  }

  /** Records the reader keeps: blank lines are skipped, and with
      `dropLong` (the CSV reader's `on_bad_lines='warn'`) so are records with
      more fields than the header. */
  predicate Readable(raw: seq<RawCell>, width: nat, dropLong: bool) {
    |raw| > 0 && (!dropLong || |raw| <= width)
  }

  predicate Ascending(rows: seq<Row>) {
    forall i, j :: 0 <= i < j < |rows| ==> rows[i].id < rows[j].id
  }

  function ReadRows(cols: seq<string>, header: seq<string>, raws: seq<seq<RawCell>>, from: nat, dropLong: bool): (r: seq<Row>)
    requires forall j :: 0 <= j < |cols| ==> cols[j] in header
    ensures |r| <= |raws| && Ascending(r)
    ensures forall j :: 0 <= j < |r| ==> from <= r[j].id < from + |raws| && |r[j].cells| == |cols|
    decreases |raws|
  {
    if raws == [] then []
    else
      var rest := ReadRows(cols, header, raws[1..], from + 1, dropLong);
      if Readable(raws[0], |header|, dropLong) then [Row(from, Project(cols, header, raws[0]))] + rest else rest
  }

  /** Read a file (header plus records), lower-case the header and keep only
      the allowed fields that are present. */
  function Load(header: seq<string>, raws: seq<seq<RawCell>>, allowed: seq<string>, dropLong: bool): (f: Frame)
    ensures f.columns == ExistingFields(allowed, LowerAll(header))
    ensures Ascending(f.rows) && forall j :: 0 <= j < |f.rows| ==> |f.rows[j].cells| == |f.columns|
  {
    var low := LowerAll(header);
    var cols := ExistingFields(allowed, low);
    Frame(cols, ReadRows(cols, low, raws, 0, dropLong))
  }

  /** Every row is a readable record, under its own position. */
  lemma {:induction false} ReadRowsOrigin(cols: seq<string>, header: seq<string>, raws: seq<seq<RawCell>>, from: nat, dropLong: bool)
    requires forall j :: 0 <= j < |cols| ==> cols[j] in header
    ensures forall j :: 0 <= j < |ReadRows(cols, header, raws, from, dropLong)| ==>
      var row := ReadRows(cols, header, raws, from, dropLong)[j];
      Readable(raws[row.id - from], |header|, dropLong) && row.cells == Project(cols, header, raws[row.id - from])
    decreases |raws|
  {
    if raws != [] {
      var r := ReadRows(cols, header, raws, from, dropLong);
      var rest := ReadRows(cols, header, raws[1..], from + 1, dropLong);
      var shift := if Readable(raws[0], |header|, dropLong) then 1 else 0;
      ReadRowsOrigin(cols, header, raws[1..], from + 1, dropLong);
      forall j | 0 <= j < |r|
        ensures Readable(raws[r[j].id - from], |header|, dropLong) && r[j].cells == Project(cols, header, raws[r[j].id - from])
      {
        if j >= shift {
          assert r[j] == rest[j - shift];
          assert raws[1..][rest[j - shift].id - (from + 1)] == raws[r[j].id - from];
        }
      }
    }
  }

  /** Every readable record becomes a row, under its own position. */
  lemma {:induction false} ReadRowsComplete(cols: seq<string>, header: seq<string>, raws: seq<seq<RawCell>>, from: nat, dropLong: bool, k: nat)
    requires forall j :: 0 <= j < |cols| ==> cols[j] in header
    requires k < |raws| && Readable(raws[k], |header|, dropLong)
    ensures exists j :: 0 <= j < |ReadRows(cols, header, raws, from, dropLong)| && ReadRows(cols, header, raws, from, dropLong)[j].id == from + k
    decreases |raws|
  {
    var r := ReadRows(cols, header, raws, from, dropLong);
    var rest := ReadRows(cols, header, raws[1..], from + 1, dropLong);
    if k == 0 {
      assert r[0].id == from;
    } else {
      ReadRowsComplete(cols, header, raws[1..], from + 1, dropLong, k - 1);
      var j :| 0 <= j < |rest| && rest[j].id == from + k;
      if Readable(raws[0], |header|, dropLong) {
        assert r[j + 1].id == from + k;
      } else {
        assert r[j].id == from + k;
      }
    }
  }

  // ----------------------------------------------------------- conversions

  /** Rounding before `astype(int)`: `round()` first, or plain truncation. */
  datatype Rounding = Round | Truncate

  /** What a numeric step does with a cell that is not a number:
      `dropna` the row, or let `astype(int)` raise. */
  datatype OnBad = DropRow | Fail

  datatype Rule =
    | DateOrNull                                      // to_datetime('%d/%m/%Y', coerce)
    | DateWithin(lo: Moment, hi: Moment)              // the same, then keep lo <= date <= hi
    | MomentOrNull                                    // to_datetime('%d/%m/%Y %H:%M:%S', coerce)
    | Integer(onBad: OnBad, rounding: Rounding, width: Option<nat>) // to_numeric, [round], astype(int)[, str.zfill]
    | Flag                                            // map({'F':0,'T':1,'f':0,'t':1}).fillna(0)

  /** `if column in df.columns: <rule>`. */
  datatype Step = Step(column: string, rule: Rule)

  datatype CellFate = Becomes(v: Value) | DropsRow | Raises

  datatype RowFate = Kept(cells: seq<Value>) | Dropped | Crashed

  /** The range of `pd.Timestamp` at whole-second resolution. */
  const Earliest: Moment := Moment(Date(1677, 9, 21), 0, 12, 44)
  const Latest: Moment := Moment(Date(2262, 4, 11), 23, 47, 16)

  predicate Representable(m: Moment) {
    NotAfter(Earliest, m) && NotAfter(m, Latest)
  }

  /** `pd.to_datetime(cell, format='%d/%m/%Y', errors='coerce')`, NaT as None. */
  function AsDay(v: Value): (r: Option<Date>)
    ensures r.Some? ==> ValidDate(r.value) || v.Day?
  {
    match v
    case Str(s) =>
      (match ParseDate(DayMonthYear, s)
       case Some(d) => if Representable(Midnight(d)) then Some(d) else None
       case None => None)
    case Day(d) => Some(d)
    case _ => None
  }

  /** `pd.to_datetime(cell, format='%d/%m/%Y %H:%M:%S', errors='coerce')`. */
  function AsMoment(v: Value): Option<Moment> {
    match v
    case Str(s) =>
      (match ParseMoment(DayMonthYear, s)
       case Some(m) => if Representable(m) then Some(m) else None
       case None => None)
    case Stamp(m) => Some(m)
    case _ => None
  }

  /** `pd.to_numeric(cell, errors='coerce')`, NaN as None. */
  function AsNumber(v: Value): Option<Decimal> {
    match v
    case Str(s) => ParseNumber(s)
    case Int(n) => Some(Decimal(n, 0))
    case _ => None
  }

  function ToInt(x: Decimal, rounding: Rounding): int {
    if rounding == Round then RoundHalfEven(x) else TowardZero(x)
  }

  /** The legacy logical letters; anything else, NaN included, maps to 0. */
  function FlagValue(v: Value): (n: int)
    ensures n == 0 || n == 1
    ensures n == 1 <==> v == Str("T") || v == Str("t")
  {
    if v == Str("T") || v == Str("t") then 1 else 0
  }

  function Convert(rule: Rule, v: Value): CellFate {
    match rule
    case DateOrNull =>
      Becomes(match AsDay(v) case Some(d) => Day(d) case None => Null)
    case DateWithin(lo, hi) =>
      (match AsDay(v)
       case Some(d) => if NotAfter(lo, Midnight(d)) && NotAfter(Midnight(d), hi) then Becomes(Day(d)) else DropsRow
       case None => DropsRow)
    case MomentOrNull =>
      Becomes(match AsMoment(v) case Some(m) => Stamp(m) case None => Null)
    case Integer(onBad, rounding, width) =>
      (match AsNumber(v)
       case None => if onBad == DropRow then DropsRow else Raises
       case Some(x) =>
         var n := ToInt(x, rounding);
         Becomes(match width case None => Int(n) case Some(w) => Str(ZFill(IntToString(n), w))))
    case Flag =>
      Becomes(Int(FlagValue(v)))
  }

  // ------------------------------------------------------------ one step

  /** One step on one row. */
  function Apply(step: Step, cols: seq<string>, cells: seq<Value>): (r: RowFate)
    ensures r.Kept? ==> |r.cells| == |cells|
  {
    if step.column !in cols then Kept(cells)
    else
      var i := IndexOf(cols, step.column);
      if i >= |cells| then Kept(cells)
      else
        match Convert(step.rule, cells[i])
        case Becomes(v) => Kept(cells[i := v])
        case DropsRow => Dropped
        case Raises => Crashed
  }

  /** Put one row's fate in front of the fate of the rows after it: a crash
      anywhere is a crash of the whole table. */
  function Gather(id: nat, fate: RowFate, rest: Option<seq<Row>>): Option<seq<Row>> {
    match fate
    case Crashed => None
    case Dropped => rest
    case Kept(c) => if rest.None? then None else Some([Row(id, c)] + rest.value)
  }

  /** One step over the whole table, as a pandas column operation. */
  function StepFrame(step: Step, cols: seq<string>, rows: seq<Row>): Option<seq<Row>> {
    if rows == [] then Some([])
    else Gather(rows[0].id, Apply(step, cols, rows[0].cells), StepFrame(step, cols, rows[1..]))
  }

  /** The steps in order, each over the whole table (the source's order of work). */
  function RunSteps(steps: seq<Step>, cols: seq<string>, rows: seq<Row>): Option<seq<Row>>
    decreases |steps|
  {
    if steps == [] then Some(rows)
    else
      match StepFrame(steps[0], cols, rows)
      case None => None
      case Some(t) => RunSteps(steps[1..], cols, t)
  }

  // ------------------------------------------------------- row by row

  /** All steps on one row. */
  function Through(steps: seq<Step>, cols: seq<string>, cells: seq<Value>): (r: RowFate)
    ensures r.Kept? ==> |r.cells| == |cells|
    decreases |steps|
  {
    if steps == [] then Kept(cells)
    else
      match Apply(steps[0], cols, cells)
      case Kept(c) => Through(steps[1..], cols, c)
      case Dropped => Dropped
      case Crashed => Crashed
  }

  /** The reference: each row through all steps, independently of the others. */
  function Survivors(steps: seq<Step>, cols: seq<string>, rows: seq<Row>): Option<seq<Row>> {
    if rows == [] then Some([])
    else Gather(rows[0].id, Through(steps, cols, rows[0].cells), Survivors(steps, cols, rows[1..]))
  }

  lemma {:induction false} NoStepsKeepAll(cols: seq<string>, rows: seq<Row>)
    ensures Survivors([], cols, rows) == Some(rows)
  {
    if rows != [] {
      NoStepsKeepAll(cols, rows[1..]);
      assert [Row(rows[0].id, rows[0].cells)] + rows[1..] == rows;
    }
  }

  /** Running one more step first, over the whole table, and then the rest
      row by row is the same as running all of them row by row. */
  lemma {:induction false} FirstStepThenRows(s: Step, ss: seq<Step>, cols: seq<string>, rows: seq<Row>)
    ensures match StepFrame(s, cols, rows)
            case None => Survivors([s] + ss, cols, rows) == None
            case Some(t) => Survivors([s] + ss, cols, rows) == Survivors(ss, cols, t)
  {
    var steps := [s] + ss;
    assert steps[0] == s && steps[1..] == ss;
    if rows != [] {
      FirstStepThenRows(s, ss, cols, rows[1..]);
      var a := Apply(s, cols, rows[0].cells);
      var tail := StepFrame(s, cols, rows[1..]);
      if a.Kept? && tail.Some? {
        var row := Row(rows[0].id, a.cells);
        var t := [row] + tail.value;
        assert t[0] == row && t[1..] == tail.value;
      }
    }
  }

  /** The source's column-by-column order of work keeps, drops and crashes
      exactly as the row-by-row reference does. */
  lemma {:induction false} RunStepsIsRowwise(steps: seq<Step>, cols: seq<string>, rows: seq<Row>)
    ensures RunSteps(steps, cols, rows) == Survivors(steps, cols, rows)
    decreases |steps|
  {
    if steps == [] {
      NoStepsKeepAll(cols, rows);
    } else {
      assert steps == [steps[0]] + steps[1..];
      FirstStepThenRows(steps[0], steps[1..], cols, rows);
      match StepFrame(steps[0], cols, rows)
      case None =>
      case Some(t) => RunStepsIsRowwise(steps[1..], cols, t);
    }
  }

  /** The whole table fails exactly when some row crashes. */
  lemma {:induction false} SurvivorsCrash(steps: seq<Step>, cols: seq<string>, rows: seq<Row>)
    ensures Survivors(steps, cols, rows).None? <==>
      exists k :: 0 <= k < |rows| && Through(steps, cols, rows[k].cells).Crashed?
  {
    if rows != [] {
      SurvivorsCrash(steps, cols, rows[1..]);
      if exists k :: 0 <= k < |rows[1..]| && Through(steps, cols, rows[1..][k].cells).Crashed? {
        var k :| 0 <= k < |rows[1..]| && Through(steps, cols, rows[1..][k].cells).Crashed?;
        assert rows[k + 1] == rows[1..][k];
      }
      if exists k :: 0 <= k < |rows| && Through(steps, cols, rows[k].cells).Crashed? {
        var k :| 0 <= k < |rows| && Through(steps, cols, rows[k].cells).Crashed?;
        if k > 0 {
          assert rows[1..][k - 1] == rows[k];
        }
      }
    }
  }

  /** Every output row is an input row, under the same id, with the cells
      `Through` gives it. */
  lemma {:induction false} SurvivorsOrigin(steps: seq<Step>, cols: seq<string>, rows: seq<Row>)
    requires Survivors(steps, cols, rows).Some?
    ensures |Survivors(steps, cols, rows).value| <= |rows|
    ensures forall j :: 0 <= j < |Survivors(steps, cols, rows).value| ==>
      exists k :: 0 <= k < |rows| && rows[k].id == Survivors(steps, cols, rows).value[j].id &&
        Through(steps, cols, rows[k].cells) == Kept(Survivors(steps, cols, rows).value[j].cells)
  {
    if rows != [] {
      var out := Survivors(steps, cols, rows).value;
      var rest := Survivors(steps, cols, rows[1..]);
      var fate := Through(steps, cols, rows[0].cells);
      assert rest.Some?;
      SurvivorsOrigin(steps, cols, rows[1..]);
      var shift := if fate.Kept? then 1 else 0;
      assert out[shift..] == rest.value;
      forall j | 0 <= j < |out|
        ensures exists k :: 0 <= k < |rows| && rows[k].id == out[j].id && Through(steps, cols, rows[k].cells) == Kept(out[j].cells)
      {
        if j < shift {
          assert rows[0].id == out[j].id;
        } else {
          assert out[j] == rest.value[j - shift];
          var k :| 0 <= k < |rows[1..]| && rows[1..][k].id == rest.value[j - shift].id
            && Through(steps, cols, rows[1..][k].cells) == Kept(rest.value[j - shift].cells);
          assert rows[k + 1] == rows[1..][k];
        }
      }
    }
  }

  /** Every input row that `Through` keeps is in the output. */
  lemma {:induction false} SurvivorsComplete(steps: seq<Step>, cols: seq<string>, rows: seq<Row>, k: nat)
    requires Survivors(steps, cols, rows).Some?
    requires k < |rows| && Through(steps, cols, rows[k].cells).Kept?
    ensures exists j :: (0 <= j < |Survivors(steps, cols, rows).value| &&
                         Survivors(steps, cols, rows).value[j] == Row(rows[k].id, Through(steps, cols, rows[k].cells).cells))
  {
    var out := Survivors(steps, cols, rows).value;
    var rest := Survivors(steps, cols, rows[1..]);
    var fate := Through(steps, cols, rows[0].cells);
    assert rest.Some?;
    var shift := if fate.Kept? then 1 else 0;
    assert out[shift..] == rest.value;
    if k == 0 {
      assert out[0] == Row(rows[0].id, fate.cells);
    } else {
      SurvivorsComplete(steps, cols, rows[1..], k - 1);
      assert rows[1..][k - 1] == rows[k];
      var j :| 0 <= j < |rest.value| && rest.value[j] == Row(rows[k].id, Through(steps, cols, rows[k].cells).cells);
      assert out[j + shift] == rest.value[j];
    }
  }

  /** Rows keep their relative order. */
  lemma {:induction false} SurvivorsAscending(steps: seq<Step>, cols: seq<string>, rows: seq<Row>)
    requires Survivors(steps, cols, rows).Some? && Ascending(rows)
    ensures Ascending(Survivors(steps, cols, rows).value)
  {
    if rows != [] {
      var out := Survivors(steps, cols, rows).value;
      var rest := Survivors(steps, cols, rows[1..]);
      assert rest.Some?;
      SurvivorsAscending(steps, cols, rows[1..]);
      if Through(steps, cols, rows[0].cells).Kept? {
        SurvivorsOrigin(steps, cols, rows[1..]);
        assert out[1..] == rest.value;
        forall j | 0 < j < |out| ensures out[0].id < out[j].id {
          assert out[j] == rest.value[j - 1];
          var k :| 0 <= k < |rows[1..]| && rows[1..][k].id == rest.value[j - 1].id
            && Through(steps, cols, rows[1..][k].cells) == Kept(rest.value[j - 1].cells);
          assert rows[1..][k] == rows[k + 1];
        }
      }
    }
  }

  // ------------------------------------------------ steps on distinct columns

  function StepColumns(steps: seq<Step>): (r: seq<string>)
    ensures |r| == |steps| && forall i :: 0 <= i < |steps| ==> r[i] == steps[i].column
  {
    if steps == [] then [] else [steps[0].column] + StepColumns(steps[1..])
  }

  predicate DistinctColumns(steps: seq<Step>) {
    forall i, j :: 0 <= i < j < |steps| ==> steps[i].column != steps[j].column
  }

  /** The step leaves the row in place, judged on the cells it sees. */
  predicate Passes(step: Step, cols: seq<string>, cells: seq<Value>) {
    step.column !in cols || Convert(step.rule, CellOf(cols, cells, step.column)).Becomes?
  }

  lemma CellOfUpdate(cols: seq<string>, cells: seq<Value>, name: string, v: Value)
    requires name in cols && |cells| == |cols|
    ensures CellOf(cols, cells[IndexOf(cols, name) := v], name) == v
    ensures forall other :: other != name ==>
      CellOf(cols, cells[IndexOf(cols, name) := v], other) == CellOf(cols, cells, other)
  {
    var i := IndexOf(cols, name);
    forall other | other != name && other in cols
      ensures IndexOf(cols, other) != i
    {
      assert cols[IndexOf(cols, other)] == other;
    }
  }

  /** With every step on its own column, each step sees the cell as read:
      a row is kept exactly when every step accepts its original cell. */
  lemma {:induction false} ThroughKept(steps: seq<Step>, cols: seq<string>, cells: seq<Value>)
    requires |cells| == |cols| && DistinctColumns(steps)
    ensures Through(steps, cols, cells).Kept? <==> forall i :: 0 <= i < |steps| ==> Passes(steps[i], cols, cells)
    decreases |steps|
  {
    if steps != [] {
      var s, ss := steps[0], steps[1..];
      assert forall i :: 0 <= i < |ss| ==> ss[i] == steps[i + 1];
      if s.column !in cols {
        ThroughKept(ss, cols, cells);
      } else {
        var i := IndexOf(cols, s.column);
        assert CellOf(cols, cells, s.column) == cells[i];
        match Convert(s.rule, cells[i])
        case Becomes(v) =>
          var c2 := cells[i := v];
          ThroughKept(ss, cols, c2);
          CellOfUpdate(cols, cells, s.column, v);
          forall j | 0 <= j < |ss| ensures Passes(ss[j], cols, c2) == Passes(ss[j], cols, cells) {
            assert ss[j].column != s.column;
          }
        case DropsRow =>
          assert !Passes(steps[0], cols, cells);
        case Raises =>
          assert !Passes(steps[0], cols, cells);
      }
    }
  }

  /** With every step on its own column, a kept row holds in each stepped
      column the conversion of the cell as read, and every other column unchanged. */
  lemma {:induction false} ThroughValues(steps: seq<Step>, cols: seq<string>, cells: seq<Value>)
    requires |cells| == |cols| && DistinctColumns(steps)
    requires Through(steps, cols, cells).Kept?
    ensures forall i :: 0 <= i < |steps| && steps[i].column in cols ==>
      Convert(steps[i].rule, CellOf(cols, cells, steps[i].column)) == Becomes(CellOf(cols, Through(steps, cols, cells).cells, steps[i].column))
    ensures forall name :: name !in StepColumns(steps) ==>
      CellOf(cols, Through(steps, cols, cells).cells, name) == CellOf(cols, cells, name)
    decreases |steps|
  {
    if steps != [] {
      var s, ss := steps[0], steps[1..];
      assert forall i :: 0 <= i < |ss| ==> ss[i] == steps[i + 1];
      var out := Through(steps, cols, cells).cells;
      if s.column !in cols {
        ThroughValues(ss, cols, cells);
        assert StepColumns(steps) == [s.column] + StepColumns(ss);
      } else {
        var i := IndexOf(cols, s.column);
        assert CellOf(cols, cells, s.column) == cells[i];
        var v := Convert(s.rule, cells[i]).v;
        var c2 := cells[i := v];
        assert Through(steps, cols, cells) == Through(ss, cols, c2);
        ThroughValues(ss, cols, c2);
        CellOfUpdate(cols, cells, s.column, v);
        forall j | 0 <= j < |ss| ensures ss[j].column != s.column {
          assert steps[j + 1].column != steps[0].column;
        }
        assert StepColumns(steps) == [s.column] + StepColumns(ss);
      }
    }
  }

  /** A row crashes when every earlier step keeps it and one step raises on
      its cell as read. */
  lemma {:induction false} ThroughCrash(steps: seq<Step>, cols: seq<string>, cells: seq<Value>, i: nat)
    requires |cells| == |cols| && DistinctColumns(steps)
    requires i < |steps| && steps[i].column in cols
    requires forall j :: 0 <= j < i ==> Passes(steps[j], cols, cells)
    requires Convert(steps[i].rule, CellOf(cols, cells, steps[i].column)).Raises?
    ensures Through(steps, cols, cells).Crashed?
    decreases |steps|
  {
    var s, ss := steps[0], steps[1..];
    assert forall k :: 0 <= k < |ss| ==> ss[k] == steps[k + 1];
    if i > 0 {
      assert Passes(s, cols, cells);
      if s.column !in cols {
        ThroughCrash(ss, cols, cells, i - 1);
      } else {
        var x := IndexOf(cols, s.column);
        assert CellOf(cols, cells, s.column) == cells[x];
        var v := Convert(s.rule, cells[x]).v;
        var c2 := cells[x := v];
        CellOfUpdate(cols, cells, s.column, v);
        forall j | 0 <= j < |ss| ensures ss[j].column != s.column {
          assert steps[j + 1].column != steps[0].column;
        }
        forall j | 0 <= j < i - 1 ensures Passes(ss[j], cols, c2) {
          assert Passes(steps[j + 1], cols, cells);
        }
        ThroughCrash(ss, cols, c2, i - 1);
      }
    } else {
      assert CellOf(cols, cells, s.column) == cells[IndexOf(cols, s.column)];
    }
  }

  /** With every step on its own column, a crash is always some step
      raising on the cell as read, after every earlier step kept the row. */
  lemma {:induction false} ThroughCrashCause(steps: seq<Step>, cols: seq<string>, cells: seq<Value>) returns (i: nat)
    requires |cells| == |cols| && DistinctColumns(steps)
    requires Through(steps, cols, cells).Crashed?
    ensures i < |steps| && steps[i].column in cols
    ensures forall j :: 0 <= j < i ==> Passes(steps[j], cols, cells)
    ensures Convert(steps[i].rule, CellOf(cols, cells, steps[i].column)).Raises?
    decreases |steps|
  {
    var s, ss := steps[0], steps[1..];
    assert forall k :: 0 <= k < |ss| ==> ss[k] == steps[k + 1];
    if s.column !in cols {
      var i' := ThroughCrashCause(ss, cols, cells);
      i := i' + 1;
    } else {
      var x := IndexOf(cols, s.column);
      assert CellOf(cols, cells, s.column) == cells[x];
      match Convert(s.rule, cells[x])
      case Raises =>
        i := 0;
      case Becomes(v) =>
        var c2 := cells[x := v];
        CellOfUpdate(cols, cells, s.column, v);
        forall j | 0 <= j < |ss| ensures ss[j].column != s.column {
          assert steps[j + 1].column != steps[0].column;
        }
        var i' := ThroughCrashCause(ss, cols, c2);
        i := i' + 1;
        forall j | 0 <= j < i ensures Passes(steps[j], cols, cells) {
          if j > 0 {
            assert Passes(ss[j - 1], cols, c2);
          }
        }
    }
  }

  /** Only a numeric step without `dropna` can raise. */
  predicate MayRaise(rule: Rule) {
    rule.Integer? && rule.onBad == Fail
  }

  lemma {:induction false} ConvertRaises(rule: Rule, v: Value)
    ensures Convert(rule, v).Raises? <==> MayRaise(rule) && AsNumber(v).None?
  {
  }

  /** A pipeline in which every numeric step drops its bad rows never crashes. */
  lemma {:induction false} ThroughNeverCrashes(steps: seq<Step>, cols: seq<string>, cells: seq<Value>)
    requires forall i :: 0 <= i < |steps| ==> !MayRaise(steps[i].rule)
    ensures !Through(steps, cols, cells).Crashed?
    decreases |steps|
  {
    if steps != [] {
      var s := steps[0];
      if s.column in cols && IndexOf(cols, s.column) < |cells| {
        ConvertRaises(s.rule, cells[IndexOf(cols, s.column)]);
      }
      match Apply(s, cols, cells)
      case Kept(c) =>
        assert forall k :: 0 <= k < |steps[1..]| ==> steps[1..][k] == steps[k + 1];
        ThroughNeverCrashes(steps[1..], cols, c);
      case Dropped =>
      case Crashed =>
    }
  }

  /** Running `a + b` is running `a`, then `b` on what `a` kept. */
  lemma {:induction false} ThroughAppend(a: seq<Step>, b: seq<Step>, cols: seq<string>, cells: seq<Value>)
    ensures Through(a + b, cols, cells) ==
      match Through(a, cols, cells)
      case Kept(c) => Through(b, cols, c)
      case Dropped => Dropped
      case Crashed => Crashed
    decreases |a|
  {
    if a == [] {
      assert a + b == b;
    } else {
      assert (a + b)[0] == a[0] && (a + b)[1..] == a[1..] + b;
      match Apply(a[0], cols, cells)
      case Kept(c) => ThroughAppend(a[1..], b, cols, c);
      case Dropped =>
      case Crashed =>
    }
  }

  /** Steps that cannot raise, appended to a list, change nothing about
      whether a row crashes. */
  lemma ThroughSafeTail(a: seq<Step>, b: seq<Step>, cols: seq<string>, cells: seq<Value>)
    requires forall i :: 0 <= i < |b| ==> !MayRaise(b[i].rule)
    ensures Through(a + b, cols, cells).Crashed? <==> Through(a, cols, cells).Crashed?
  {
    ThroughAppend(a, b, cols, cells);
    if Through(a, cols, cells).Kept? {
      ThroughNeverCrashes(b, cols, Through(a, cols, cells).cells);
    }
  }

  // ------------------------------------------------------ the whole table

  /** What `astype(int)` raises on a column holding NaN. */
  const NanCast: Exc := Exc(IntCastingNaN, "Cannot convert non-finite values (NA or inf) to integer")

  /** The steps on a frame: its columns stay, its rows are the survivors. */
  function RunOn(steps: seq<Step>, f: Frame): Result<Frame, Exc> {
    match RunSteps(steps, f.columns, f.rows)
    case Some(rows) => Ok(Frame(f.columns, rows))
    case None => Err(NanCast)
  }

  /** The steps fail, with pandas' casting error, exactly when one row crashes. */
  lemma RunOnFails(steps: seq<Step>, f: Frame)
    ensures RunOn(steps, f).Err? <==> exists k :: 0 <= k < |f.rows| && Through(steps, f.columns, f.rows[k].cells).Crashed?
    ensures RunOn(steps, f).Err? ==> RunOn(steps, f).error == NanCast
  {
    RunStepsIsRowwise(steps, f.columns, f.rows);
    SurvivorsCrash(steps, f.columns, f.rows);
  }

  /** On success the columns are unchanged and the rows are exactly the
      input rows `Through` keeps, in their original order, with the cells it gives them. */
  lemma RunOnKeeps(steps: seq<Step>, f: Frame)
    requires RunOn(steps, f).Ok?
    ensures RunOn(steps, f).value.columns == f.columns
    ensures |RunOn(steps, f).value.rows| <= |f.rows|
    ensures Ascending(f.rows) ==> Ascending(RunOn(steps, f).value.rows)
    ensures forall j :: 0 <= j < |RunOn(steps, f).value.rows| ==>
      exists k :: 0 <= k < |f.rows| && f.rows[k].id == RunOn(steps, f).value.rows[j].id &&
        Through(steps, f.columns, f.rows[k].cells) == Kept(RunOn(steps, f).value.rows[j].cells)
    ensures forall k :: 0 <= k < |f.rows| && Through(steps, f.columns, f.rows[k].cells).Kept? ==>
      exists j :: 0 <= j < |RunOn(steps, f).value.rows| &&
        RunOn(steps, f).value.rows[j] == Row(f.rows[k].id, Through(steps, f.columns, f.rows[k].cells).cells)
  {
    RunStepsIsRowwise(steps, f.columns, f.rows);
    SurvivorsOrigin(steps, f.columns, f.rows);
    if Ascending(f.rows) {
      SurvivorsAscending(steps, f.columns, f.rows);
    }
    forall k | 0 <= k < |f.rows| && Through(steps, f.columns, f.rows[k].cells).Kept?
      ensures exists j :: (0 <= j < |RunOn(steps, f).value.rows| &&
                           RunOn(steps, f).value.rows[j] == Row(f.rows[k].id, Through(steps, f.columns, f.rows[k].cells).cells))
    {
      SurvivorsComplete(steps, f.columns, f.rows, k);
    }
  }

  /** A row of the input survives exactly when `Through` keeps it. */
  lemma RunOnMembership(steps: seq<Step>, f: Frame, k: nat)
    requires RunOn(steps, f).Ok? && Ascending(f.rows) && k < |f.rows|
    ensures (exists j :: 0 <= j < |RunOn(steps, f).value.rows| && RunOn(steps, f).value.rows[j].id == f.rows[k].id)
      <==> Through(steps, f.columns, f.rows[k].cells).Kept?
  {
    RunStepsIsRowwise(steps, f.columns, f.rows);
    var out := Survivors(steps, f.columns, f.rows).value;
    assert RunOn(steps, f).value.rows == out;
    var id := f.rows[k].id;
    if exists j :: 0 <= j < |out| && out[j].id == id {
      var j :| 0 <= j < |out| && out[j].id == id;
      SurvivorsOrigin(steps, f.columns, f.rows);
      var k' :| 0 <= k' < |f.rows| && f.rows[k'].id == out[j].id && Through(steps, f.columns, f.rows[k'].cells) == Kept(out[j].cells);
      assert k' == k;
    }
    if Through(steps, f.columns, f.rows[k].cells).Kept? {
      SurvivorsComplete(steps, f.columns, f.rows, k);
      var j :| 0 <= j < |out| && out[j] == Row(id, Through(steps, f.columns, f.rows[k].cells).cells);
      assert out[j].id == id;
    }
  }

  /** Every row of a loaded frame is a readable record of the file, cut down
      to the frame's columns. */
  lemma LoadOrigin(header: seq<string>, raws: seq<seq<RawCell>>, allowed: seq<string>, dropLong: bool)
    ensures var f := Load(header, raws, allowed, dropLong);
      forall j :: 0 <= j < |f.rows| ==>
        f.rows[j].id < |raws| && Readable(raws[f.rows[j].id], |header|, dropLong) &&
        f.rows[j].cells == Project(f.columns, LowerAll(header), raws[f.rows[j].id])
  {
    var low := LowerAll(header);
    ReadRowsOrigin(ExistingFields(allowed, low), low, raws, 0, dropLong);
  }

  /** Each row the steps keep of a loaded file comes from a readable record
      and holds what the steps make of that record's cells; the rows stay
      in file order. */
  lemma RunOnLoadRow(steps: seq<Step>, header: seq<string>, raws: seq<seq<RawCell>>, allowed: seq<string>, dropLong: bool, j: nat)
    requires RunOn(steps, Load(header, raws, allowed, dropLong)).Ok?
    requires j < |RunOn(steps, Load(header, raws, allowed, dropLong)).value.rows|
    ensures Ascending(RunOn(steps, Load(header, raws, allowed, dropLong)).value.rows)
    ensures var f := Load(header, raws, allowed, dropLong);
      var row := RunOn(steps, f).value.rows[j];
      row.id < |raws| && Readable(raws[row.id], |header|, dropLong) &&
      Through(steps, f.columns, Project(f.columns, LowerAll(header), raws[row.id])) == Kept(row.cells)
  {
    var f := Load(header, raws, allowed, dropLong);
    var out := RunOn(steps, f).value.rows;
    RunOnKeeps(steps, f);
    LoadOrigin(header, raws, allowed, dropLong);
    var k :| 0 <= k < |f.rows| && f.rows[k].id == out[j].id && Through(steps, f.columns, f.rows[k].cells) == Kept(out[j].cells);
  }

  /** Every readable record of the file is a row of the loaded frame. */
  lemma LoadFinds(header: seq<string>, raws: seq<seq<RawCell>>, allowed: seq<string>, dropLong: bool, k: nat) returns (j: nat)
    requires k < |raws| && Readable(raws[k], |header|, dropLong)
    ensures var f := Load(header, raws, allowed, dropLong);
      j < |f.rows| && f.rows[j] == Row(k, Project(f.columns, LowerAll(header), raws[k]))
  {
    var low := LowerAll(header);
    var f := Load(header, raws, allowed, dropLong);
    ReadRowsComplete(f.columns, low, raws, 0, dropLong, k);
    j :| 0 <= j < |f.rows| && f.rows[j].id == k;
    LoadOrigin(header, raws, allowed, dropLong);
  }
}
