/** The row cleaning and feature derivation of scripts/data_cleaning.py.

    Timestamps are whole hours since 1970-01-01 00:00 (the data is hourly), so the
    hour of day and the day number follow by division; pandas' own parsers and the
    Gregorian year/month of a day number are parameters, not reimplemented here. */
module Cleaning {
  import opened Common

  /** The cells of one row that the cleaning reads or rewrites, each of a type that
      changes as the steps run; `other` holds every remaining column, untouched. */
  datatype Row<T, S, N> = Row(timestamp: T, stationId: S, stationName: string, ridership: N, other: map<string, string>)

  /** A row as read from the raw CSV file: every cell still text. */
  type RawRow = Row<string, string, string>

  type Month = m: int | 1 <= m <= 12 witness 1

  datatype CivilDate = CivilDate(year: int, month: Month)

  /** `pd.to_datetime(..., errors='coerce')` (None for NaT), `pd.to_numeric(...,
      errors='coerce')` (None for NaN), and the calendar year and month of a day number. */
  datatype Parsers = Parsers(toDatetime: string -> Option<int>, toNumeric: string -> Option<int>, civil: int -> CivilDate)

  /** The derived calendar and rush-hour columns of one row. */
  datatype Features = Features(
    date: int, hour: int, dayOfWeekNum: int, dayOfWeekName: string,
    month: Month, monthName: string, year: int,
    isWeekend: bool, isAmRush: bool, isPmRush: bool)

  datatype CleanRow = CleanRow(row: Row<int, int, int>, features: Features)

  datatype RawFrame = RawFrame(columns: seq<string>, rows: seq<RawRow>)

  /** The raw input file: absent, present but unreadable as CSV, or loaded. */
  datatype RawFile = Missing | Unreadable | Loaded(frame: RawFrame)

  datatype CleanFrame = CleanFrame(columns: seq<string>, rows: seq<CleanRow>)

  /** What the function returns, and what it writes to the processed file (if anything). */
  datatype CleanResult = CleanResult(frame: CleanFrame, written: Option<CleanFrame>)

  const DayNames: seq<string> := ["Monday", "Tuesday", "Wednesday", "Thursday", "Friday", "Saturday", "Sunday"]
  const MonthNames: seq<string> := ["January", "February", "March", "April", "May", "June", "July",
                                    "August", "September", "October", "November", "December"]
  const WeekendDays: set<int> := {5, 6}
  const AmRushHours: set<int> := {6, 7, 8, 9}
  const PmRushHours: set<int> := {16, 17, 18, 19}

  // ---- Column names --------------------------------------------------------

  function RenameColumn(c: string): string
  {
    if c == "station_complex_id" then "station_id"
    else if c == "station_complex" then "station_name"
    else if c == "ridership" then "hourly_ridership_total"
    else c
  }

  function RenameColumns(columns: seq<string>): seq<string>
  {
    Map(RenameColumn, columns)
  }

  const DerivedColumns: seq<string> := ["date", "hour", "day_of_week_num", "day_of_week_name", "month",
                                        "month_name", "year", "is_weekend", "is_am_rush", "is_pm_rush"]

  /** The output header: the renamed input columns in place, then every derived column
      not already among them, in the order the source assigns them. */
  function CleanColumns(columns: seq<string>): seq<string>
  {
    var renamed := RenameColumns(columns);
    renamed + Filter(c => c !in renamed, DerivedColumns)
  }

  /** The rename touches exactly three names; afterwards none of the three source names
      is left, and every other column keeps its name and position. */
  lemma RenameIsExact(columns: seq<string>)
    ensures var r := RenameColumns(columns);
      && |r| == |columns|
      && (forall i :: 0 <= i < |r| ==> r[i] != "station_complex_id" && r[i] != "station_complex" && r[i] != "ridership")
      && (forall i :: 0 <= i < |r| ==>
            && (columns[i] == "station_complex_id" ==> r[i] == "station_id")
            && (columns[i] == "station_complex" ==> r[i] == "station_name")
            && (columns[i] == "ridership" ==> r[i] == "hourly_ridership_total")
            && (columns[i] !in {"station_complex_id", "station_complex", "ridership"} ==> r[i] == columns[i]))
  {
  }

  /** The output header keeps the renamed input header as its prefix and holds exactly
      the renamed input columns and the derived columns, each derived column once even
      when the input header already had it. */
  lemma CleanColumnsContainFeatures(columns: seq<string>)
    ensures var out := CleanColumns(columns);
      && out[..|columns|] == RenameColumns(columns)
      && (forall c :: c in out <==> c in RenameColumns(columns) || c in DerivedColumns)
      && |out| <= |columns| + |DerivedColumns|
  {
    var renamed := RenameColumns(columns);
    var keep := c => c !in renamed;
    var added := Filter(keep, DerivedColumns);
    var out := CleanColumns(columns);
    assert out == renamed + added;
    assert out[..|columns|] == renamed;
    forall c
      ensures c in out <==> c in renamed || c in DerivedColumns
    {
      FilterMembership(keep, DerivedColumns, c);
    }
    FilterMapShorter(KeepIf(keep), DerivedColumns);
  }

  // ---- Per-row rules -------------------------------------------------------

  /** Step 1: parse the timestamp; None drops the row. */
  function ParseTimestamp(p: Parsers): RawRow -> Option<Row<int, string, string>>
  {
    (r: RawRow) => match p.toDatetime(r.timestamp)
      case None => None
      case Some(t) => Some(Row(t, r.stationId, r.stationName, r.ridership, r.other))
  }

  /** Step 3: make the station id numeric; a non-numeric id (such as 'TRAM1') drops the row. */
  function ParseStationId(p: Parsers): Row<int, string, string> -> Option<Row<int, int, string>>
  {
    (r: Row<int, string, string>) => match p.toNumeric(r.stationId)
      case None => None
      case Some(id) => Some(Row(r.timestamp, id, r.stationName, r.ridership, r.other))
  }

  /** `max(0, x)`. */
  function Clamp(x: int): (r: int)
    ensures 0 <= r && x <= r
    ensures r == x || r == 0
  {
    if x < 0 then 0 else x
  }

  lemma ClampIdempotent(x: int)
    ensures Clamp(Clamp(x)) == Clamp(x)
  {
  }

  /** Step 4: `to_numeric(...).fillna(0)` then `max(0, x)`. */
  function RidershipCount(p: Parsers, cell: string): (n: int)
    ensures 0 <= n
    ensures p.toNumeric(cell) == None ==> n == 0
    ensures p.toNumeric(cell).Some? && 0 <= p.toNumeric(cell).value ==> n == p.toNumeric(cell).value
    ensures p.toNumeric(cell).Some? && p.toNumeric(cell).value < 0 ==> n == 0
  {
    match p.toNumeric(cell)
    case None => 0
    case Some(x) => Clamp(x)
  }

  function CoerceRidership(p: Parsers): Row<int, int, string> -> Row<int, int, int>
  {
    (r: Row<int, int, string>) => Row(r.timestamp, r.stationId, r.stationName, RidershipCount(p, r.ridership), r.other)
  }

  /** Step 5: the calendar and rush-hour features of an hour timestamp.  Day 0
      (1970-01-01) was a Thursday, weekday 3 with Monday as 0. */
  function Derive(civil: int -> CivilDate, t: int): (f: Features)
    ensures f.date * 24 + f.hour == t && 0 <= f.hour < 24
    ensures 0 <= f.dayOfWeekNum < 7 && (f.dayOfWeekNum - f.date - 3) % 7 == 0
    ensures f.isWeekend <==> f.dayOfWeekName == "Saturday" || f.dayOfWeekName == "Sunday"
    ensures f.isAmRush <==> 6 <= f.hour <= 9
    ensures f.isPmRush <==> 16 <= f.hour <= 19
    ensures !(f.isAmRush && f.isPmRush)
    ensures f.dayOfWeekName == DayNames[f.dayOfWeekNum]
    ensures f.month == civil(f.date).month && f.year == civil(f.date).year
    ensures f.monthName == MonthNames[f.month - 1]
  {
    var day := t / 24;
    var hour := t % 24;
    var weekday := (day + 3) % 7;
    var cd := civil(day);
    Features(day, hour, weekday, DayNames[weekday], cd.month, MonthNames[cd.month - 1], cd.year,
             weekday in WeekendDays, hour in AmRushHours, hour in PmRushHours)
  }

  function WithFeatures(p: Parsers): Row<int, int, int> -> CleanRow
  {
    (r: Row<int, int, int>) => CleanRow(r, Derive(p.civil, r.timestamp))
  }

  /** The hour one day later falls on the next weekday, at the same hour. */
  lemma NextDayNextWeekday(civil: int -> CivilDate, t: int)
    ensures Derive(civil, t + 24).dayOfWeekNum == (Derive(civil, t).dayOfWeekNum + 1) % 7
    ensures Derive(civil, t + 24).hour == Derive(civil, t).hour
  {
    var f, g := Derive(civil, t), Derive(civil, t + 24);
    NextDayArithmetic(t);
    assert g.date == f.date + 1 && g.hour == f.hour;
  }

  lemma NextDayArithmetic(t: int)
    ensures (t + 24) / 24 == t / 24 + 1 && (t + 24) % 24 == t % 24
    ensures (t / 24 + 1 + 3) % 7 == ((t / 24 + 3) % 7 + 1) % 7
  {
    var d := t / 24 + 3;
    assert d == 7 * (d / 7) + d % 7;
    assert d + 1 == 7 * (d / 7) + (d % 7 + 1);
  }

  /** Hour 7 is a morning rush hour only, hour 17 an evening one only. */
  lemma RushHourExamples(civil: int -> CivilDate, day: int)
    ensures Derive(civil, day * 24 + 7).isAmRush && !Derive(civil, day * 24 + 7).isPmRush
    ensures Derive(civil, day * 24 + 17).isPmRush && !Derive(civil, day * 24 + 17).isAmRush
  {
    HourOfDay(day, 7);
    HourOfDay(day, 17);
  }

  /** Hour `h` of day `day` has that day and that hour. */
  lemma HourOfDay(day: int, h: int)
    requires 0 <= h < 24
    ensures (day * 24 + h) / 24 == day && (day * 24 + h) % 24 == h
  {
    var q, r := (day * 24 + h) / 24, (day * 24 + h) % 24;
    assert (q - day) * 24 == h - r;
  }

  /** 2024-01-06 (day 19728) was a Saturday: any hour of it is a weekend hour. */
  lemma SaturdayIsWeekend(civil: int -> CivilDate, hour: int)
    requires 0 <= hour < 24
    ensures Derive(civil, 19728 * 24 + hour).dayOfWeekName == "Saturday"
    ensures Derive(civil, 19728 * 24 + hour).isWeekend
  {
    HourOfDay(19728, hour);
  }

  // ---- The pipeline --------------------------------------------------------

  /** Steps 1, 3, 4 and 5 in the order the source runs them (step 2 renames the
      header only). */
  function CleanRows(p: Parsers, rows: seq<RawRow>): seq<CleanRow>
  {
    var stamped := FilterMap(ParseTimestamp(p), rows);
    var numbered := FilterMap(ParseStationId(p), stamped);
    var counted := Map(CoerceRidership(p), numbered);
    Map(WithFeatures(p), counted)
  }

  /** The whole per-row rule in one function. */
  function CleanOne(p: Parsers): RawRow -> Option<CleanRow>
  {
    ThenMap(ThenMap(AndThen(ParseTimestamp(p), ParseStationId(p)), CoerceRidership(p)), WithFeatures(p))
  }

  /** A raw row survives exactly when its timestamp and its station id both parse. */
  ghost predicate Survives(p: Parsers, r: RawRow)
  {
    p.toDatetime(r.timestamp).Some? && p.toNumeric(r.stationId).Some?
  }

  /** `c` is what the cleaning makes of the raw row `r`. */
  ghost predicate CleanedFrom(p: Parsers, r: RawRow, c: CleanRow)
  {
    && Survives(p, r)
    && c.row == Row(p.toDatetime(r.timestamp).value, p.toNumeric(r.stationId).value, r.stationName,
                    RidershipCount(p, r.ridership), r.other)
    && c.features == Derive(p.civil, c.row.timestamp)
  }

  lemma CleanOneMeaning(p: Parsers, r: RawRow)
    ensures CleanOne(p)(r).Some? <==> Survives(p, r)
    ensures CleanOne(p)(r).Some? ==> CleanedFrom(p, r, CleanOne(p)(r).value)
  {
  }

  /** The step-by-step pipeline is the per-row rule applied as one filter. */
  lemma CleanRowsIsOneFilter(p: Parsers, rows: seq<RawRow>)
    ensures CleanRows(p, rows) == FilterMap(CleanOne(p), rows)
  {
    var f := AndThen(ParseTimestamp(p), ParseStationId(p));
    FilterMapAndThen(ParseTimestamp(p), ParseStationId(p), rows);
    MapAfterFilterMap(f, CoerceRidership(p), rows);
    MapAfterFilterMap(ThenMap(f, CoerceRidership(p)), WithFeatures(p), rows);
  }

  /** The cleaned rows are the cleaned forms of exactly the raw rows whose timestamp and
      station id parse, in their original order: rows are only dropped, never
      reordered, duplicated or added.  `idx` gives each output row's input position. */
  lemma CleanRowsSelects(p: Parsers, rows: seq<RawRow>)
    ensures var out, idx := CleanRows(p, rows), SomeIndices(CleanOne(p), rows);
      && |out| == |idx| && Increasing(idx)
      && (forall k :: 0 <= k < |idx| ==> idx[k] < |rows| && CleanedFrom(p, rows[idx[k]], out[k]))
      && (forall i :: 0 <= i < |rows| ==> (i in idx <==> Survives(p, rows[i])))
  {
    var out, idx := CleanRows(p, rows), SomeIndices(CleanOne(p), rows);
    CleanRowsIsOneFilter(p, rows);
    FilterMapSelects(CleanOne(p), rows);
    forall k | 0 <= k < |idx|
      ensures idx[k] < |rows| && CleanedFrom(p, rows[idx[k]], out[k])
    {
      CleanOneMeaning(p, rows[idx[k]]);
    }
    forall i | 0 <= i < |rows|
      ensures i in idx <==> Survives(p, rows[i])
    {
      CleanOneMeaning(p, rows[i]);
      if i in idx {
        var k :| 0 <= k < |idx| && idx[k] == i;
      }
    }
  }

  /** Every cleaned row has a non-negative ridership and flags that match their
      fixed sets: weekend for weekdays 5 and 6, morning rush for hours 6-9, evening
      rush for hours 16-19. */
  lemma CleanRowsInvariants(p: Parsers, rows: seq<RawRow>)
    ensures forall c :: c in CleanRows(p, rows) ==>
      && 0 <= c.row.ridership
      && c.features.hour == c.row.timestamp % 24
      && (c.features.isWeekend <==> c.features.dayOfWeekNum in {5, 6})
      && (c.features.isAmRush <==> c.features.hour in {6, 7, 8, 9})
      && (c.features.isPmRush <==> c.features.hour in {16, 17, 18, 19})
  {
    var out, idx := CleanRows(p, rows), SomeIndices(CleanOne(p), rows);
    CleanRowsSelects(p, rows);
    forall c | c in out
      ensures 0 <= c.row.ridership && c.features == Derive(p.civil, c.row.timestamp)
    {
      var k :| 0 <= k < |out| && out[k] == c;
      assert CleanedFrom(p, rows[idx[k]], c);
    }
    forall c | c in out
      ensures c.features.hour == c.row.timestamp % 24
      ensures c.features.isWeekend <==> c.features.dayOfWeekNum in {5, 6}
      ensures c.features.isAmRush <==> c.features.hour in {6, 7, 8, 9}
      ensures c.features.isPmRush <==> c.features.hour in {16, 17, 18, 19}
    {
      DerivedFlags(p.civil, c.row.timestamp);
    }
  }

  lemma DerivedFlags(civil: int -> CivilDate, t: int)
    ensures var f := Derive(civil, t);
      && f.hour == t % 24
      && (f.isWeekend <==> f.dayOfWeekNum in {5, 6})
      && (f.isAmRush <==> f.hour in {6, 7, 8, 9})
      && (f.isPmRush <==> f.hour in {16, 17, 18, 19})
  {
  }

  /** A row whose timestamp does not parse, or whose station id is not numeric (such
      as 'TRAM1'), contributes no output row. */
  lemma UnparsableRowDropped(p: Parsers, rows: seq<RawRow>, i: nat)
    requires i < |rows|
    requires p.toDatetime(rows[i].timestamp) == None || p.toNumeric(rows[i].stationId) == None
    ensures forall k :: 0 <= k < |SomeIndices(CleanOne(p), rows)| ==> SomeIndices(CleanOne(p), rows)[k] != i
  {
    CleanRowsSelects(p, rows);
  }

  /** The whole function: a missing or unreadable file gives an empty frame and writes
      nothing; otherwise the cleaned frame is returned and written. */
  function LoadAndClean(p: Parsers, file: RawFile): (r: CleanResult)
    ensures !file.Loaded? ==> r.frame == CleanFrame([], []) && r.written == None
    ensures file.Loaded? ==> r.written == Some(r.frame) && |r.frame.rows| <= |file.frame.rows|
    ensures file.Loaded? ==> r.frame == CleanFrame(CleanColumns(file.frame.columns), CleanRows(p, file.frame.rows))
  {
    match file
    case Missing => CleanResult(CleanFrame([], []), None)
    case Unreadable => CleanResult(CleanFrame([], []), None)
    case Loaded(raw) =>
      CleanRowsSelects(p, raw.rows);
      assert |SomeIndices(CleanOne(p), raw.rows)| <= |raw.rows| by {
        IncreasingBelowIsShort(SomeIndices(CleanOne(p), raw.rows), |raw.rows|);
      }
      var frame := CleanFrame(CleanColumns(raw.columns), CleanRows(p, raw.rows));
      CleanResult(frame, Some(frame))
  }

  /** Strictly increasing positions below `n` number at most `n`. */
  lemma {:induction false} IncreasingBelowIsShort(idx: seq<nat>, n: nat)
    requires Increasing(idx) && forall k :: 0 <= k < |idx| ==> idx[k] < n
    ensures |idx| <= n
    decreases n
  {
    if idx != [] {
      var last := idx[|idx| - 1];
      var front := idx[..|idx| - 1];
      assert forall k :: 0 <= k < |front| ==> front[k] < last;
      IncreasingBelowIsShort(front, last);
    }
  }
}
