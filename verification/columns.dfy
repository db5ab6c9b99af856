/** The column rules the two normalizers share: the date window, the
    numeric columns, and the legacy logical columns read from the schema. */
module Columns {
  import opened Base
  import opened Text
  import opened Dates
  import opened Numbers
  import opened Registry
  import opened Frames

  /** The window's lower limit, `'2023-01-01'` compared as a timestamp. */
  const WindowStart: Moment := Midnight(Date(2023, 1, 1))

  /** The date read from `v` lies in the window ending at `now`. */
  predicate InWindow(v: Value, now: Moment) {
    AsDay(v).Some? && NotAfter(WindowStart, Midnight(AsDay(v).value)) && NotAfter(Midnight(AsDay(v).value), now)
  }

  /** A windowed column, where present, holds a date inside the window. */
  predicate Dated(cols: seq<string>, cells: seq<Value>, name: string, now: Moment) {
    name in cols ==> InWindow(CellOf(cols, cells, name), now)
  }

  /** A numeric column, where present, holds a number. */
  predicate Numeric(cols: seq<string>, cells: seq<Value>, name: string) {
    name in cols ==> AsNumber(CellOf(cols, cells, name)).Some?
  }

  /** A numeric column is present and does not hold a number. */
  predicate NotNumeric(cols: seq<string>, cells: seq<Value>, name: string) {
    name in cols && AsNumber(CellOf(cols, cells, name)).None?
  }

  /** A field the source treats as a legacy logical column. */
  predicate IsFlag(f: Field) {
    f.sqlType == "BOOLEAN"
  }

  /** The lowered names of the fields typed `BOOLEAN`, in schema order. */
  function FlagFields(fs: Fields): (r: seq<string>)
    ensures |r| <= |fs|
    ensures forall k :: 0 <= k < |fs| && IsFlag(fs[k]) ==> Lower(fs[k].name) in r
  {
    if fs == [] then []
    else
      var rest := FlagFields(fs[1..]);
      assert forall k :: 1 <= k < |fs| ==> fs[k] == fs[1..][k - 1];
      if IsFlag(fs[0]) then [Lower(fs[0].name)] + rest else rest
  }

  /** Every name in the list comes from a `BOOLEAN` field. */
  lemma {:induction false} FlagFieldOrigin(fs: Fields, i: nat) returns (k: nat)
    requires i < |FlagFields(fs)|
    ensures k < |fs| && IsFlag(fs[k]) && FlagFields(fs)[i] == Lower(fs[k].name)
  {
    var rest := FlagFields(fs[1..]);
    if IsFlag(fs[0]) && i == 0 {
      k := 0;
    } else {
      var j := if IsFlag(fs[0]) then i - 1 else i;
      assert FlagFields(fs)[i] == rest[j];
      var k' := FlagFieldOrigin(fs[1..], j);
      k := k' + 1;
    }
  }

  function FlagSteps(names: seq<string>): (r: seq<Step>)
    ensures |r| == |names| && forall i :: 0 <= i < |names| ==> r[i] == Step(names[i], Flag)
  {
    if names == [] then [] else [Step(names[0], Flag)] + FlagSteps(names[1..])
  }

  /** What each kind of step asks of the cell it sees. */
  lemma PassesMeaning(step: Step, cols: seq<string>, cells: seq<Value>, now: Moment)
    ensures step.rule == DateWithin(WindowStart, now) ==> (Passes(step, cols, cells) <==> Dated(cols, cells, step.column, now))
    ensures step.rule.Integer? ==> (Passes(step, cols, cells) <==> Numeric(cols, cells, step.column))
    ensures step.rule == DateOrNull || step.rule == MomentOrNull || step.rule == Flag ==> Passes(step, cols, cells)
  {
  }

  // ------------------------------------------- what a converted cell holds

  /** `to_datetime` on a plain date column: the date, or NaT. */
  predicate DayOf(raw: Value, w: Value) {
    w == (match AsDay(raw) case Some(d) => Day(d) case None => Null)
  }

  /** `to_datetime` on a date-time column: the moment, or NaT. */
  predicate MomentOf(raw: Value, w: Value) {
    w == (match AsMoment(raw) case Some(m) => Stamp(m) case None => Null)
  }

  /** A windowed column: the date read, which lies in the window. */
  predicate WindowDay(raw: Value, w: Value, now: Moment) {
    InWindow(raw, now) && w == Day(AsDay(raw).value)
  }

  /** `round().astype(int)`: the nearest integer, ties to even. */
  predicate RoundedInt(raw: Value, w: Value) {
    AsNumber(raw).Some? && w == Int(RoundHalfEven(AsNumber(raw).value))
  }

  /** `astype(int)`: the integer part. */
  predicate TruncatedInt(raw: Value, w: Value) {
    AsNumber(raw).Some? && w == Int(TowardZero(AsNumber(raw).value))
  }

  /** `astype(int).astype(str).str.zfill(width)`: text of at least `width`
      characters that reads back as the integer. */
  predicate PaddedCode(raw: Value, w: Value, rounding: Rounding, width: nat) {
    AsNumber(raw).Some? && w.Str? && |w.text| >= width &&
    ParseNumber(w.text) == Some(Decimal(ToInt(AsNumber(raw).value, rounding), 0))
  }

  /** The logical mapping: 1 for `T`/`t`, 0 for everything else. */
  predicate FlagOf(raw: Value, w: Value) {
    w == Int(if raw == Str("T") || raw == Str("t") then 1 else 0)
  }

  /** What each rule makes of a cell it keeps. */
  lemma ConvertMeaning(rule: Rule, v: Value, now: Moment)
    requires Convert(rule, v).Becomes?
    ensures rule == DateOrNull ==> DayOf(v, Convert(rule, v).v)
    ensures rule == MomentOrNull ==> MomentOf(v, Convert(rule, v).v)
    ensures rule == DateWithin(WindowStart, now) ==> WindowDay(v, Convert(rule, v).v, now)
    ensures rule.Integer? && rule.width.None? && rule.rounding == Round ==> RoundedInt(v, Convert(rule, v).v)
    ensures rule.Integer? && rule.width.None? && rule.rounding == Truncate ==> TruncatedInt(v, Convert(rule, v).v)
    ensures rule.Integer? && rule.width.Some? ==> PaddedCode(v, Convert(rule, v).v, rule.rounding, rule.width.value)
    ensures rule == Flag ==> FlagOf(v, Convert(rule, v).v)
  {
    if rule.Integer? && rule.width.Some? {
      ZFillReadsBack(ToInt(AsNumber(v).value, rule.rounding), rule.width.value);
    }
  }
}
