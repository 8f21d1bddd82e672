/** The data side of the dashboard in app.py: the daily aggregation the historical
    query performs, and the historical/forecast series combined for the trend chart.

    Timestamps are whole hours since 1970-01-01 00:00, as in the cleaning model;
    `DATE_TRUNC('day', t)` is the first hour of t's day. */
module Dashboard {
  import opened Common
  import Cleaning

  /** One row of the hourly ridership table, as the daily query reads it. */
  datatype HourlyRecord = HourlyRecord(timestamp: int, ridership: int)

  /** One row of the daily query's result: the day's first hour and the day's total. */
  datatype DailyRow = DailyRow(ds: int, total: int)

  /** One row of the forecast table: `forecast_timestamp` (hourly) and `yhat`. */
  datatype ForecastRow = ForecastRow(ds: int, yhat: real)

  datatype Series = Historical | Forecast

  /** One row of the frame handed to the line chart: `ds`, `y` and `Type`. */
  datatype PlotPoint = PlotPoint(ds: int, y: real, series: Series)

  /** `DATE_TRUNC('day', t)`. */
  function DayStart(t: int): (d: int)
    ensures d <= t < d + 24 && d % 24 == 0
  {
    (t / 24) * 24
  }

  // ---- Daily aggregation (GROUP BY 1 ORDER BY 1) ----------------------------

  /** The ridership of all records on the day starting at `day`. */
  function SumOnDay(records: seq<HourlyRecord>, day: int): int
  {
    if records == [] then 0
    else
      var last := records[|records| - 1];
      SumOnDay(records[..|records| - 1], day) + (if DayStart(last.timestamp) == day then last.ridership else 0)
  }

  function RecordDays(records: seq<HourlyRecord>): set<int>
  {
    set r | r in records :: DayStart(r.timestamp)
  }

  function DaysOf(daily: seq<DailyRow>): set<int>
  {
    set row | row in daily :: row.ds
  }

  predicate StrictlyAscending(daily: seq<DailyRow>)
  {
    forall i, j :: 0 <= i < j < |daily| ==> daily[i].ds < daily[j].ds
  }

  /** The total recorded for `day` in a daily table (0 when the day is absent). */
  function TotalOn(daily: seq<DailyRow>, day: int): int
  {
    if daily == [] then 0
    else (if daily[0].ds == day then daily[0].total else 0) + TotalOn(daily[1..], day)
  }

  /** Adds one hourly record's ridership to its day's row, keeping the days ascending. */
  function AddToDay(daily: seq<DailyRow>, day: int, amount: int): seq<DailyRow>
  {
    if daily == [] then [DailyRow(day, amount)]
    else if day < daily[0].ds then [DailyRow(day, amount)] + daily
    else if day == daily[0].ds then [DailyRow(day, daily[0].total + amount)] + daily[1..]
    else [daily[0]] + AddToDay(daily[1..], day, amount)
  }

  lemma DaysOfCons(row: DailyRow, daily: seq<DailyRow>)
    ensures DaysOf([row] + daily) == {row.ds} + DaysOf(daily)
  {
    assert forall x :: x in [row] + daily <==> x == row || x in daily;
  }

  lemma {:induction false} AddToDayDays(daily: seq<DailyRow>, day: int, amount: int)
    ensures DaysOf(AddToDay(daily, day, amount)) == DaysOf(daily) + {day}
  {
    if daily != [] {
      DaysOfCons(daily[0], daily[1..]);
      assert [daily[0]] + daily[1..] == daily;
      if day < daily[0].ds {
        DaysOfCons(DailyRow(day, amount), daily);
      } else if day == daily[0].ds {
        DaysOfCons(DailyRow(day, daily[0].total + amount), daily[1..]);
      } else {
        AddToDayDays(daily[1..], day, amount);
        DaysOfCons(daily[0], AddToDay(daily[1..], day, amount));
      }
    }
  }

  lemma {:induction false} AddToDayTotals(daily: seq<DailyRow>, day: int, amount: int, d: int)
    ensures TotalOn(AddToDay(daily, day, amount), d) == TotalOn(daily, d) + (if d == day then amount else 0)
  {
    var r := AddToDay(daily, day, amount);
    if daily == [] {
      assert TotalOn(r, d) == (if d == day then amount else 0) + TotalOn([], d);
    } else if day < daily[0].ds {
      assert r[1..] == daily;
    } else if day == daily[0].ds {
      assert r[1..] == daily[1..];
    } else {
      assert r[1..] == AddToDay(daily[1..], day, amount);
      AddToDayTotals(daily[1..], day, amount, d);
    }
  }

  lemma ConsAscending(row: DailyRow, rest: seq<DailyRow>)
    requires StrictlyAscending(rest)
    requires forall x :: x in DaysOf(rest) ==> row.ds < x
    ensures StrictlyAscending([row] + rest)
  {
    var r := [row] + rest;
    forall i, j | 0 <= i < j < |r|
      ensures r[i].ds < r[j].ds
    {
      assert r[j] == rest[j - 1] && r[j].ds in DaysOf(rest);
      if 0 < i {
        assert r[i] == rest[i - 1];
      }
    }
  }

  lemma AscendingTail(daily: seq<DailyRow>)
    requires daily != [] && StrictlyAscending(daily)
    ensures StrictlyAscending(daily[1..])
    ensures forall x :: x in DaysOf(daily[1..]) ==> daily[0].ds < x
  {
    forall x | x in DaysOf(daily[1..])
      ensures daily[0].ds < x
    {
      var row :| row in daily[1..] && row.ds == x;
      var i :| 0 <= i < |daily[1..]| && daily[1..][i] == row;
      assert daily[i + 1] == row;
    }
  }

  lemma {:induction false} AddToDayAscending(daily: seq<DailyRow>, day: int, amount: int)
    requires StrictlyAscending(daily)
    ensures StrictlyAscending(AddToDay(daily, day, amount))
  {
    if daily != [] {
      AscendingTail(daily);
      if day < daily[0].ds {
        DaysOfCons(daily[0], daily[1..]);
        assert [daily[0]] + daily[1..] == daily;
        ConsAscending(DailyRow(day, amount), daily);
      } else if day == daily[0].ds {
        ConsAscending(DailyRow(day, daily[0].total + amount), daily[1..]);
      } else {
        AddToDayAscending(daily[1..], day, amount);
        AddToDayDays(daily[1..], day, amount);
        ConsAscending(daily[0], AddToDay(daily[1..], day, amount));
      }
    }
  }

  /** The historical query: one row per distinct day, in ascending day order, whose
      total is the sum of that day's hourly ridership. */
  function DailyTotals(records: seq<HourlyRecord>): (daily: seq<DailyRow>)
    ensures StrictlyAscending(daily)
    ensures DaysOf(daily) == RecordDays(records)
    ensures forall d :: TotalOn(daily, d) == SumOnDay(records, d)
  {
    if records == [] then []
    else
      var front, last := records[..|records| - 1], records[|records| - 1];
      assert RecordDays(records) == RecordDays(front) + {DayStart(last.timestamp)} by {
        assert forall r :: r in records <==> r in front || r == last;
      }
      var daily := DailyTotals(front);
      var r := AddToDay(daily, DayStart(last.timestamp), last.ridership);
      AddToDayDays(daily, DayStart(last.timestamp), last.ridership);
      AddToDayAscending(daily, DayStart(last.timestamp), last.ridership);
      assert forall d :: TotalOn(r, d) == SumOnDay(records, d) by {
        forall d
          ensures TotalOn(r, d) == SumOnDay(records, d)
        {
          AddToDayTotals(daily, DayStart(last.timestamp), last.ridership, d);
        }
      }
      r
  }

  /** In an ascending table the total on a row's own day is that row's total. */
  lemma {:induction false} TotalOnRow(daily: seq<DailyRow>, k: nat)
    requires StrictlyAscending(daily) && k < |daily|
    ensures TotalOn(daily, daily[k].ds) == daily[k].total
  {
    if k == 0 {
      TotalOnAbsent(daily[1..], daily[0].ds);
    } else {
      assert daily[1..][k - 1] == daily[k];
      TotalOnRow(daily[1..], k - 1);
    }
  }

  lemma {:induction false} TotalOnAbsent(daily: seq<DailyRow>, day: int)
    requires forall i :: 0 <= i < |daily| ==> day < daily[i].ds
    ensures TotalOn(daily, day) == 0
  {
    if daily != [] {
      TotalOnAbsent(daily[1..], day);
    }
  }

  /** Each row of the daily result is a day start holding the sum of that day's records. */
  lemma DailyRowsAreDaySums(records: seq<HourlyRecord>)
    ensures var daily := DailyTotals(records);
      forall k :: 0 <= k < |daily| ==>
        daily[k].total == SumOnDay(records, daily[k].ds) && daily[k].ds % 24 == 0
  {
    var daily := DailyTotals(records);
    forall k | 0 <= k < |daily|
      ensures daily[k].total == SumOnDay(records, daily[k].ds) && daily[k].ds % 24 == 0
    {
      TotalOnRow(daily, k);
      assert daily[k].ds in DaysOf(daily);
    }
  }

  // ---- The trend chart --------------------------------------------------------

  /** `df_historical_plot['ds'].max()`. */
  function LastHistoricalDate(historical: seq<DailyRow>): (m: int)
    requires historical != []
    ensures m in DaysOf(historical)
    ensures forall k :: 0 <= k < |historical| ==> historical[k].ds <= m
  {
    if |historical| == 1 then
      assert historical[0] in historical;
      historical[0].ds
    else
      var rest := LastHistoricalDate(historical[1..]);
      assert historical[1..][0] in historical;
      assert forall k :: 1 <= k < |historical| ==> historical[k] == historical[1..][k - 1];
      assert forall row :: row in historical[1..] ==> row in historical;
      if historical[0].ds > rest then
        assert historical[0] in historical;
        historical[0].ds
      else rest
  }

  /** For the ascending result of the daily query, the maximum is the last row's day. */
  lemma {:induction false} LastDateOfAscending(historical: seq<DailyRow>)
    requires historical != [] && StrictlyAscending(historical)
    ensures LastHistoricalDate(historical) == historical[|historical| - 1].ds
  {
    var last := |historical| - 1;
    if last > 0 {
      var tail := historical[1..];
      assert StrictlyAscending(tail);
      LastDateOfAscending(tail);
      assert tail[last - 1] == historical[last];
      assert historical[0].ds < historical[last].ds;
    }
  }

  /** `df_forecast_plot[df_forecast_plot['ds'] > last_historical_date]`, as written:
      a forecast row is kept iff its timestamp is later than `last`. */
  function ForecastAfter(forecast: seq<ForecastRow>, last: int): (kept: seq<ForecastRow>)
    ensures forall f :: f in kept <==> f in forecast && f.ds > last
  {
    var keep := (f: ForecastRow) => f.ds > last;
    assert forall f :: f in Filter(keep, forecast) <==> f in forecast && f.ds > last by {
      forall f
        ensures f in Filter(keep, forecast) <==> f in forecast && f.ds > last
      {
        FilterMembership(keep, forecast, f);
      }
    }
    Filter(keep, forecast)
  }

  /** The as-written filter keeps, in order, exactly the forecast rows later than `last`. */
  lemma ForecastAfterSelects(forecast: seq<ForecastRow>, last: int)
    ensures var kept, idx := ForecastAfter(forecast, last), SomeIndices(KeepIf((f: ForecastRow) => f.ds > last), forecast);
      && |kept| == |idx| && Increasing(idx)
      && (forall k :: 0 <= k < |idx| ==> idx[k] < |forecast| && kept[k] == forecast[idx[k]] && kept[k].ds > last)
      && (forall i :: 0 <= i < |forecast| ==> (i in idx <==> forecast[i].ds > last))
  {
    FilterSelects((f: ForecastRow) => f.ds > last, forecast);
  }

  /** The as-written filter lets through hourly forecasts later on the last historical
      day, which the chart then draws over that day: history for day 19732 (2024-01-10)
      and a forecast at 05:00 the same day. */
  lemma SameDayForecastKept(total: int, yhat: real)
    ensures var historical := [DailyRow(19732 * 24, total)];
      var forecast := [ForecastRow(19732 * 24 + 5, yhat)];
      && ForecastAfter(forecast, LastHistoricalDate(historical)) == forecast
      && DayStart(forecast[0].ds) == historical[0].ds
  {
    var forecast := [ForecastRow(19732 * 24 + 5, yhat)];
    var keep := (f: ForecastRow) => f.ds > 19732 * 24;
    assert KeepIf(keep)(forecast[0]) == Some(forecast[0]);
    assert FilterMap(KeepIf(keep), forecast) == [forecast[0]] + FilterMap(KeepIf(keep), forecast[1..]);
    assert forecast[1..] == [];
  }

  /** The filter the comments beside it describe: forecasts from the day after the last
      historical day on. */
  function ForecastAfterLastDay(forecast: seq<ForecastRow>, last: int): (kept: seq<ForecastRow>)
    ensures forall f :: f in kept <==> f in forecast && DayStart(f.ds) > DayStart(last)
  {
    var keep := (f: ForecastRow) => DayStart(f.ds) > DayStart(last);
    assert forall f :: f in Filter(keep, forecast) <==> f in forecast && DayStart(f.ds) > DayStart(last) by {
      forall f
        ensures f in Filter(keep, forecast) <==> f in forecast && DayStart(f.ds) > DayStart(last)
      {
        FilterMembership(keep, forecast, f);
      }
    }
    Filter(keep, forecast)
  }

  /** The corrected filter keeps, in order, exactly the forecast rows on days after
      `last`'s day. */
  lemma ForecastAfterLastDaySelects(forecast: seq<ForecastRow>, last: int)
    ensures var kept := ForecastAfterLastDay(forecast, last);
      var idx := SomeIndices(KeepIf((f: ForecastRow) => DayStart(f.ds) > DayStart(last)), forecast);
      && |kept| == |idx| && Increasing(idx)
      && (forall k :: 0 <= k < |idx| ==> idx[k] < |forecast| && kept[k] == forecast[idx[k]])
      && (forall i :: 0 <= i < |forecast| ==> (i in idx <==> DayStart(forecast[i].ds) > DayStart(last)))
  {
    FilterSelects((f: ForecastRow) => DayStart(f.ds) > DayStart(last), forecast);
  }

  /** Every row the corrected filter keeps is later than `last` and is also kept by the
      as-written filter: it drops every row at or before `last`, and more. */
  lemma ForecastAfterLastDayNarrows(forecast: seq<ForecastRow>, last: int, f: ForecastRow)
    requires f in ForecastAfterLastDay(forecast, last)
    ensures f.ds > last && f in ForecastAfter(forecast, last)
  {
    DayStartBelow(last, f.ds);
  }

  /** `pd.concat` of the historical rows tagged 'Historical' and the kept forecast rows
      tagged 'Forecast', after renaming both to `ds` and `y`: every historical row in
      order, then every kept forecast row in order. */
  function Combine(historical: seq<DailyRow>, kept: seq<ForecastRow>): (chart: seq<PlotPoint>)
    ensures |chart| == |historical| + |kept|
    ensures forall k :: 0 <= k < |historical| ==>
      chart[k] == PlotPoint(historical[k].ds, historical[k].total as real, Historical)
    ensures forall k :: 0 <= k < |kept| ==> chart[|historical| + k] == PlotPoint(kept[k].ds, kept[k].yhat, Forecast)
  {
    Map((h: DailyRow) => PlotPoint(h.ds, h.total as real, Historical), historical) +
    Map((f: ForecastRow) => PlotPoint(f.ds, f.yhat, Forecast), kept)
  }

  /** The chart's data as app.py builds it, with the `>` filter, or None when the
      informational message is shown instead. */
  function TrendChartAsWritten(historical: seq<DailyRow>, forecast: seq<ForecastRow>): (chart: Option<seq<PlotPoint>>)
    ensures chart.Some? <==> historical != [] && forecast != []
  {
    if historical == [] || forecast == [] then None
    else Some(Combine(historical, ForecastAfter(forecast, LastHistoricalDate(historical))))
  }

  /** The frame as written is every historical row tagged 'Historical', followed by the
      forecast rows later than the last historical date tagged 'Forecast'. */
  lemma TrendChartAsWrittenLayout(historical: seq<DailyRow>, forecast: seq<ForecastRow>)
    requires historical != [] && forecast != []
    ensures var last := LastHistoricalDate(historical);
      var kept := ForecastAfter(forecast, last);
      var chart := TrendChartAsWritten(historical, forecast).value;
      && |chart| == |historical| + |kept|
      && (forall k :: 0 <= k < |historical| ==>
            chart[k] == PlotPoint(historical[k].ds, historical[k].total as real, Historical))
      && (forall k :: 0 <= k < |kept| ==> chart[|historical| + k] == PlotPoint(kept[k].ds, kept[k].yhat, Forecast))
      && (forall k :: |historical| <= k < |chart| ==> chart[k].series == Forecast && chart[k].ds > last)
  {
    var last := LastHistoricalDate(historical);
    var kept := ForecastAfter(forecast, last);
    var chart := TrendChartAsWritten(historical, forecast).value;
    forall k | |historical| <= k < |chart|
      ensures chart[k].series == Forecast && chart[k].ds > last
    {
      assert kept[k - |historical|] in kept;
    }
  }

  /** The chart with the corrected day-level filter, or None when the informational
      message is shown instead. */
  function TrendChart(historical: seq<DailyRow>, forecast: seq<ForecastRow>): (chart: Option<seq<PlotPoint>>)
    ensures chart.Some? <==> historical != [] && forecast != []
  {
    if historical == [] || forecast == [] then None
    else Some(Combine(historical, ForecastAfterLastDay(forecast, LastHistoricalDate(historical))))
  }

  /** The corrected chart's frame is every historical row tagged 'Historical', followed
      by the forecast rows on days after the last historical day tagged 'Forecast'. */
  lemma TrendChartLayout(historical: seq<DailyRow>, forecast: seq<ForecastRow>)
    requires historical != [] && forecast != []
    ensures var last := LastHistoricalDate(historical);
      var kept := ForecastAfterLastDay(forecast, last);
      var chart := TrendChart(historical, forecast).value;
      && |chart| == |historical| + |kept|
      && (forall k :: 0 <= k < |historical| ==>
            chart[k] == PlotPoint(historical[k].ds, historical[k].total as real, Historical))
      && (forall k :: 0 <= k < |kept| ==> chart[|historical| + k] == PlotPoint(kept[k].ds, kept[k].yhat, Forecast))
      && (forall k :: |historical| <= k < |chart| ==>
            chart[k].series == Forecast && DayStart(chart[k].ds) > DayStart(last))
  {
    var last := LastHistoricalDate(historical);
    var kept := ForecastAfterLastDay(forecast, last);
    var chart := TrendChart(historical, forecast).value;
    forall k | |historical| <= k < |chart|
      ensures chart[k].series == Forecast && DayStart(chart[k].ds) > DayStart(last)
    {
      assert kept[k - |historical|] in kept;
    }
  }

  /** On the example above the two charts differ: as written, the forecast at 05:00 is
      drawn on the last historical day; the corrected chart leaves it out. */
  lemma SameDayChartsDiffer(total: int, yhat: real)
    ensures var historical := [DailyRow(19732 * 24, total)];
      var forecast := [ForecastRow(19732 * 24 + 5, yhat)];
      && TrendChartAsWritten(historical, forecast) ==
           Some([PlotPoint(19732 * 24, total as real, Historical), PlotPoint(19732 * 24 + 5, yhat, Forecast)])
      && TrendChart(historical, forecast) == Some([PlotPoint(19732 * 24, total as real, Historical)])
  {
    var historical := [DailyRow(19732 * 24, total)];
    var forecast := [ForecastRow(19732 * 24 + 5, yhat)];
    var last := LastHistoricalDate(historical);
    assert last == 19732 * 24 by {
      assert last in DaysOf(historical);
    }
    SameDayForecastKept(total, yhat);
    var written := Combine(historical, ForecastAfter(forecast, last));
    assert written == [PlotPoint(19732 * 24, total as real, Historical), PlotPoint(19732 * 24 + 5, yhat, Forecast)];
    Cleaning.HourOfDay(19732, 0);
    Cleaning.HourOfDay(19732, 5);
    var kept := ForecastAfterLastDay(forecast, last);
    var keep := (f: ForecastRow) => DayStart(f.ds) > DayStart(last);
    assert KeepIf(keep)(forecast[0]) == None;
    assert FilterMap(KeepIf(keep), forecast) == FilterMap(KeepIf(keep), forecast[1..]);
    assert forecast[1..] == [];
    assert Combine(historical, kept) == [PlotPoint(19732 * 24, total as real, Historical)];
  }

  /** No forecast point of the chart falls on the day of any historical point, nor
      before it. */
  lemma TrendChartSeriesDoNotOverlap(historical: seq<DailyRow>, forecast: seq<ForecastRow>)
    requires historical != [] && forecast != []
    ensures var chart := TrendChart(historical, forecast).value;
      forall i, j :: 0 <= i < |chart| && 0 <= j < |chart| && chart[i].series == Historical && chart[j].series == Forecast ==>
        DayStart(chart[i].ds) < DayStart(chart[j].ds)
  {
    var last := LastHistoricalDate(historical);
    var kept := ForecastAfterLastDay(forecast, last);
    var chart := TrendChart(historical, forecast).value;
    TrendChartLayout(historical, forecast);
    forall i, j | 0 <= i < |chart| && 0 <= j < |chart| && chart[i].series == Historical && chart[j].series == Forecast
      ensures DayStart(chart[i].ds) < DayStart(chart[j].ds)
    {
      assert i < |historical| && j >= |historical|;
      assert chart[i].ds == historical[i].ds <= last;
      var f := kept[j - |historical|];
      assert f in kept;
      DayStartMonotone(chart[i].ds, last);
    }
  }

  /** A timestamp on a later day than `s` is later than `s`. */
  lemma DayStartBelow(s: int, t: int)
    requires DayStart(s) < DayStart(t)
    ensures s < t
  {
    assert s / 24 < t / 24;
    assert (s / 24 + 1) * 24 <= (t / 24) * 24;
  }

  lemma DayStartMonotone(s: int, t: int)
    requires s <= t
    ensures DayStart(s) <= DayStart(t)
  {
    assert s / 24 <= t / 24;
  }
}
