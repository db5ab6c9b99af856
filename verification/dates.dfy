/** Calendar dates and date-times as Python's `datetime` accepts them, the
    `strptime` layouts the pipeline uses, and the `strftime` renderings. */
module Dates {
  import opened Base
  import opened Text

  datatype Date = Date(year: int, month: int, day: int)
  datatype Moment = Moment(date: Date, hour: int, minute: int, second: int)

  predicate IsLeapYear(y: int) {
    y % 4 == 0 && (y % 100 != 0 || y % 400 == 0)
  }

  function DaysInMonth(y: int, m: int): int {
    if m == 2 then (if IsLeapYear(y) then 29 else 28)
    else if m == 4 || m == 6 || m == 9 || m == 11 then 30
    else 31
  }

  /** The dates `datetime.date` can represent (MINYEAR 1 .. MAXYEAR 9999). */
  predicate ValidDate(d: Date) {
    1 <= d.year <= 9999 && 1 <= d.month <= 12 && 1 <= d.day <= DaysInMonth(d.year, d.month)
  }

  predicate ValidMoment(m: Moment) {
    ValidDate(m.date) && 0 <= m.hour <= 23 && 0 <= m.minute <= 59 && 0 <= m.second <= 59
  }

  function Midnight(d: Date): Moment {
    Moment(d, 0, 0, 0)
  }

  /** Chronological order: `a` is not later than `b`. */
  predicate NotAfter(a: Moment, b: Moment) {
    if a.date.year != b.date.year then a.date.year < b.date.year
    else if a.date.month != b.date.month then a.date.month < b.date.month
    else if a.date.day != b.date.day then a.date.day < b.date.day
    else if a.hour != b.hour then a.hour < b.hour
    else if a.minute != b.minute then a.minute < b.minute
    else a.second <= b.second
  }

  /** The field orders of the `strptime` formats in use:
      `%d/%m/%Y`, `%m/%d/%Y` and `%Y-%m-%d`. */
  datatype Layout = DayMonthYear | MonthDayYear | YearMonthDay

  function Separator(layout: Layout): char {
    if layout == YearMonthDay then '-' else '/'
  }

  /** `%d`, `%m`, `%H`, `%M`, `%S`: one or two ASCII digits whose value is in range. */
  function NumberField(s: string, lo: int, hi: int): Option<int> {
    if 1 <= |s| <= 2 && AllDigits(s) && lo <= DigitsValue(s) <= hi then Some(DigitsValue(s)) else None
  }

  /** `%Y`: exactly four ASCII digits; year 0 is rejected by `datetime`. */
  function YearField(s: string): (r: Option<int>)
    ensures r.Some? ==> 1 <= r.value <= 9999
  {
    if |s| == 4 && AllDigits(s) && DigitsValue(s) >= 1 then
      DigitsValueBound(s);
      Some(DigitsValue(s))
    else None
  }

  /** `strptime(s, format)` for a date-only layout: the whole string must
      match and the fields must form a real calendar date. */
  function ParseDate(layout: Layout, s: string): (r: Option<Date>)
    ensures r.Some? ==> ValidDate(r.value)
  {
    var p := Split(s, Separator(layout));
    if |p| != 3 then None
    else
      var ys := if layout == YearMonthDay then p[0] else p[2];
      var ms := if layout == MonthDayYear then p[0] else p[1];
      var ds := if layout == DayMonthYear then p[0] else if layout == MonthDayYear then p[1] else p[2];
      match (YearField(ys), NumberField(ms, 1, 12), NumberField(ds, 1, 31))
      case (Some(y), Some(m), Some(d)) => if d <= DaysInMonth(y, m) then Some(Date(y, m, d)) else None
      case _ => None
  }

  /** Index of the first whitespace character, or |s| when there is none. */
  function FirstSpace(s: string): (i: nat)
    ensures i <= |s|
    ensures forall j :: 0 <= j < i ==> !IsSpace(s[j])
    ensures i < |s| ==> IsSpace(s[i])
  {
    if s == [] then 0 else if IsSpace(s[0]) then 0 else 1 + FirstSpace(s[1..])
  }

  /** `strptime(s, layout + ' %H:%M:%S')`: the blank in the format matches
      one or more whitespace characters; seconds 60 and 61 pass the pattern
      but are refused by `datetime`. */
  function ParseMoment(layout: Layout, s: string): (r: Option<Moment>)
    ensures r.Some? ==> ValidMoment(r.value)
  {
    var i := FirstSpace(s);
    if i == |s| then None
    else
      match ParseDate(layout, s[..i])
      case None => None
      case Some(d) =>
        var t := Split(TrimLeft(s[i..]), ':');
        if |t| != 3 then None
        else
          match (NumberField(t[0], 0, 23), NumberField(t[1], 0, 59), NumberField(t[2], 0, 59))
          case (Some(h), Some(mi), Some(sec)) => Some(Moment(d, h, mi, sec))
          case _ => None
  }

  /** `strftime` with the layout's format; the year is written with four digits. */
  function RenderDate(layout: Layout, d: Date): string
    requires ValidDate(d)
  {
    var y, m, dd := ZeroPad(d.year, 4), ZeroPad(d.month, 2), ZeroPad(d.day, 2);
    var sep := [Separator(layout)];
    match layout
    case DayMonthYear => dd + sep + m + sep + y
    case MonthDayYear => m + sep + dd + sep + y
    case YearMonthDay => y + sep + m + sep + dd
  }

  function RenderTime(m: Moment): string
    requires ValidMoment(m)
  {
    ZeroPad(m.hour, 2) + ":" + ZeroPad(m.minute, 2) + ":" + ZeroPad(m.second, 2)
  }

  function RenderMoment(layout: Layout, m: Moment): string
    requires ValidMoment(m)
  {
    RenderDate(layout, m.date) + " " + RenderTime(m)
  }

  /** `strftime('%Y-%m-%d')`. */
  function IsoDate(d: Date): string
    requires ValidDate(d)
  {
    RenderDate(YearMonthDay, d)
  }

  /** `strftime('%Y-%m-%d %H:%M:%S')`. */
  function IsoMoment(m: Moment): string
    requires ValidMoment(m)
  {
    RenderMoment(YearMonthDay, m)
  }

  // ---------------------------------------------------------------- round trips

  lemma FieldsRoundTrip(d: Date)
    requires ValidDate(d)
    ensures YearField(ZeroPad(d.year, 4)) == Some(d.year)
    ensures NumberField(ZeroPad(d.month, 2), 1, 12) == Some(d.month)
    ensures NumberField(ZeroPad(d.day, 2), 1, 31) == Some(d.day)
  {
    ZeroPadSpec(d.year, 4);
    ZeroPadSpec(d.month, 2);
    ZeroPadSpec(d.day, 2);
  }

  lemma SplitThree(a: string, b: string, c: string, sep: char)
    requires AllDigits(a) && AllDigits(b) && AllDigits(c) && !IsDigit(sep)
    ensures Split(a + [sep] + b + [sep] + c, sep) == [a, b, c]
  {
    DigitsHaveNoSign(a, sep);
    DigitsHaveNoSign(b, sep);
    DigitsHaveNoSign(c, sep);
    assert a + [sep] + b + [sep] + c == a + [sep] + (b + [sep] + c);
    SplitAt(a, sep, b + [sep] + c);
    SplitAt(b, sep, c);
    SplitWithout(c, sep);
  }

  /** Every layout reads back the date it renders. */
  lemma ParseRenderDate(layout: Layout, d: Date)
    requires ValidDate(d)
    ensures ParseDate(layout, RenderDate(layout, d)) == Some(d)
  {
    FieldsRoundTrip(d);
    var y, m, dd := ZeroPad(d.year, 4), ZeroPad(d.month, 2), ZeroPad(d.day, 2);
    var sep := Separator(layout);
    match layout
    case DayMonthYear => SplitThree(dd, m, y, sep);
    case MonthDayYear => SplitThree(m, dd, y, sep);
    case YearMonthDay => SplitThree(y, m, dd, sep);
  }

  /** Three digit runs joined by a non-blank separator contain no blank. */
  lemma FieldsNoBlank(a: string, b: string, c: string, sep: char)
    requires AllDigits(a) && AllDigits(b) && AllDigits(c) && !IsSpace(sep)
    ensures var s := a + [sep] + b + [sep] + c;
      |s| == |a| + |b| + |c| + 2 && forall j :: 0 <= j < |s| ==> !IsSpace(s[j])
  {
    var s := a + [sep] + b + [sep] + c;
    forall j | 0 <= j < |s| ensures !IsSpace(s[j]) {
      assert IsDigit(s[j]) || s[j] == sep;
    }
  }

  lemma RenderDateShape(layout: Layout, d: Date)
    requires ValidDate(d)
    ensures |RenderDate(layout, d)| == 10
    ensures forall j :: 0 <= j < 10 ==> !IsSpace(RenderDate(layout, d)[j])
  {
    ZeroPadSpec(d.year, 4);
    ZeroPadSpec(d.month, 2);
    ZeroPadSpec(d.day, 2);
    var y, m, dd := ZeroPad(d.year, 4), ZeroPad(d.month, 2), ZeroPad(d.day, 2);
    var sep := Separator(layout);
    match layout
    case DayMonthYear => FieldsNoBlank(dd, m, y, sep);
    case MonthDayYear => FieldsNoBlank(m, dd, y, sep);
    case YearMonthDay => FieldsNoBlank(y, m, dd, sep);
  }

  lemma RenderTimeShape(m: Moment)
    requires ValidMoment(m)
    ensures |RenderTime(m)| == 8 && IsDigit(RenderTime(m)[0])
    ensures Split(RenderTime(m), ':') == [ZeroPad(m.hour, 2), ZeroPad(m.minute, 2), ZeroPad(m.second, 2)]
    ensures NumberField(ZeroPad(m.hour, 2), 0, 23) == Some(m.hour)
    ensures NumberField(ZeroPad(m.minute, 2), 0, 59) == Some(m.minute)
    ensures NumberField(ZeroPad(m.second, 2), 0, 59) == Some(m.second)
  {
    ZeroPadSpec(m.hour, 2);
    ZeroPadSpec(m.minute, 2);
    ZeroPadSpec(m.second, 2);
    SplitThree(ZeroPad(m.hour, 2), ZeroPad(m.minute, 2), ZeroPad(m.second, 2), ':');
  }

  /** A date text of ten non-blank characters, one blank, and a time text
      of three colon-separated fields reads as the date at that time. */
  lemma ParseJoined(layout: Layout, ds: string, ts: string, d: Date, h: int, mi: int, sec: int)
    requires |ds| == 10 && (forall j :: 0 <= j < 10 ==> !IsSpace(ds[j])) && ParseDate(layout, ds) == Some(d)
    requires |ts| >= 1 && IsDigit(ts[0])
    requires var t := Split(ts, ':');
      |t| == 3 && NumberField(t[0], 0, 23) == Some(h) && NumberField(t[1], 0, 59) == Some(mi) &&
      NumberField(t[2], 0, 59) == Some(sec)
    ensures ParseMoment(layout, ds + " " + ts) == Some(Moment(d, h, mi, sec))
  {
    var s := ds + " " + ts;
    JoinedParts(ds, ts);
    assert s[..10] == ds && TrimLeft(s[10..]) == ts;
  }

  /** The first blank of the joined text is the one put there, and what
      follows it, trimmed, is the time text. */
  lemma JoinedParts(ds: string, ts: string)
    requires |ds| == 10 && (forall j :: 0 <= j < 10 ==> !IsSpace(ds[j]))
    requires |ts| >= 1 && IsDigit(ts[0])
    ensures var s := ds + " " + ts;
      FirstSpace(s) == 10 && s[..10] == ds && TrimLeft(s[10..]) == ts
  {
    var s := ds + " " + ts;
    assert s[10] == ' ';
    assert FirstSpace(s) == 10 by {
      assert forall j :: 0 <= j < 10 ==> s[j] == ds[j];
    }
    assert s[..10] == ds;
    assert s[10..] == " " + ts;
    assert TrimLeft(" " + ts) == ts by {
      assert (" " + ts)[1..] == ts;
    }
  }

  /** Every layout reads back the date-time it renders. */
  lemma ParseRenderMoment(layout: Layout, m: Moment)
    requires ValidMoment(m)
    ensures ParseMoment(layout, RenderMoment(layout, m)) == Some(m)
  {
    RenderDateShape(layout, m.date);
    RenderTimeShape(m);
    ParseRenderDate(layout, m.date);
    ParseJoined(layout, RenderDate(layout, m.date), RenderTime(m), m.date, m.hour, m.minute, m.second);
  }
}
