# MTA subway ridership analysis — verified model of the core logic

This project models the three pieces of logic in the MTA subway ridership pipeline
that can be stated precisely, and proves what each of them does.

- **Bounded paginated download** (`ingestion.dfy`, module `Ingestion`).
  `download_data_from_socrata_limited` pages through the Socrata endpoint.
  - Each request asks for `min(chunk_size, max_rows - rows so far)` rows at the offset
    equal to the rows received so far.
  - It stops on an empty page, a short page, a parse-empty body or an exhausted budget.
  - It fails on an HTTP error or any other exception.
  - It joins the pages, cuts the result to `max_rows` rows and saves it.

  The endpoint is a parameter `source: Request -> Response<R>`. The loop is the method
  `FetchPages`, proved equal to the recursive specification `Paginate`.
  `DownloadLimited` is the whole function, proved equal to `Download`.
- **Row cleaning and feature derivation** (`cleaning.dfy`, module `Cleaning`).
  `load_and_clean_hourly_ridership_data` cleans the raw rows in this order:
  - it drops rows with an unparsable timestamp;
  - it renames three columns;
  - it drops rows with a non-numeric station id;
  - it turns ridership into a non-negative count;
  - it derives calendar and rush-hour columns.

  pandas' `to_datetime` and `to_numeric` are parameters, and so is the Gregorian year and
  month of a day number. Timestamps are whole hours since 1970-01-01 00:00. The row steps
  are filters and maps over a `seq` (`Common.FilterMap`, `Common.Map`), applied in the
  source's order.
- **Dashboard data** (`dashboard.dfy`, module `Dashboard`).
  - The historical query of `app.py` groups hourly rows by day, sums them and orders the
    days.
  - The trend chart drops forecast rows up to the last historical date, then concatenates
    the two series with their `Type` tags. `TrendChartAsWritten` is this chart as the
    program builds it. `TrendChart` is the same chart with the corrected filter described
    under "## Findings".

`common.dfy` (module `Common`) holds the shared vocabulary: `Option`, `Min`, page
concatenation, and order-preserving row selection (`FilterMap`, `Filter`) with the lemmas
that characterise them.

## Model

| member | source | states |
|---|---|---|
| Common.FilterMapSelects | scripts/data_cleaning.py:35-62 | a row filter with conversion keeps, in input order and without duplicates, the converted form of exactly the rows on which the conversion succeeds |
| Common.FilterMembership | app.py:156 | a row is in a boolean-mask selection iff it is in the input and satisfies the mask |
| Ingestion.Paginate | scripts/data_ingestion.py:35-83 | the pagination loop as a recursive function from the rows accepted so far; its behaviour is stated by `FetchPages`, `PaginateLastStep`, `PaginateNextStep`, `RequestsFollowBudget`, `PagesFollowRequests`, `BudgetKept` and `ServePaginate` |
| Ingestion.Download | scripts/data_ingestion.py:85-103 | the saved rows, or None for False: no pages or a failed pagination gives None, otherwise the pages joined and cut to `max_rows`; stated by `DownloadLimited`, `ErrorDiscardsPages`, `SavedIsAllPages` and `DownloadFromDataset` |
| Ingestion.FetchPages | scripts/data_ingestion.py:35-83 | the while loop over offset, rows so far and the list of pages issues exactly the requests, accepts exactly the pages and fails exactly as the pagination specification `Paginate` says |
| Ingestion.DownloadLimited | scripts/data_ingestion.py:25-103 | the function issues the requests of `Paginate`; it returns True iff `Download` saves something, and then it saves those rows, which number at least 1 and at most `max_rows` |
| Ingestion.PaginateBelowBudget | scripts/data_ingestion.py:35-63 | a page is accepted only while the rows so far are below `max_rows`, and an accepted page is never empty |
| Ingestion.Head | scripts/data_ingestion.py:91-93 | `head(max_rows)` is the prefix of length `min(len, max_rows)` |
| Ingestion.PaginateLastStep | scripts/data_ingestion.py:59-83 | an error, an empty body, an empty page or a short page ends the pagination after this request; it keeps the page iff the page is non-empty, and it fails iff the response is an HTTP error or another exception |
| Ingestion.PaginateNextStep | scripts/data_ingestion.py:63-72 | a full page is kept, and the pagination goes on at offset = rows so far + page length |
| Ingestion.RequestsFollowBudget | scripts/data_ingestion.py:35-47 | every request has limit `min(chunk_size, max_rows - offset)` > 0 and offset = rows accepted before it (< `max_rows`), and only the last request may go without a page |
| Ingestion.PagesFollowRequests | scripts/data_ingestion.py:59-83 | the pages are the responses to the requests, in order, and none is empty; every request but the last got a full page; the download failed iff the last response was an HTTP error or another exception, so a parse-empty body ends the pagination without failing |
| Ingestion.PaginateEmptyNotFailed | scripts/data_ingestion.py:35-42 | when no request is made (budget already reached or limit ≤ 0), nothing failed |
| Ingestion.ErrorDiscardsPages | scripts/data_ingestion.py:75-83 | an HTTP error or other exception on any request makes the function return False, even when pages were already collected |
| Ingestion.BudgetKept | scripts/data_ingestion.py:35-64 | if the endpoint never returns more than the limit, the rows accepted never exceed `max_rows` |
| Ingestion.SavedIsAllPages | scripts/data_ingestion.py:89-93 | with such an endpoint the truncation never cuts anything, so the saved rows are all the pages joined in request order |
| Ingestion.ServePaginate | scripts/data_ingestion.py:35-72 | against an endpoint that serves a dataset in order, the pages from offset `total` on join to the dataset's rows from `total` up to `max_rows` or the end, without failure |
| Ingestion.DownloadFromDataset | scripts/data_ingestion.py:25-103 | end to end against such a dataset, the function saves the first `min(max_rows, len)` rows, and it returns False iff the dataset is empty, `max_rows` ≤ 0 or the save fails |
| Ingestion.ThreeRequestsForFullPages | scripts/data_ingestion.py:37-46 | budget 120000 and chunk 50000 over full pages issue exactly three requests: (0, 50000), (50000, 50000), (100000, 20000) |
| Ingestion.TwoRequestsWhenSecondPageShort | scripts/data_ingestion.py:59-93 | with 80000 rows available, the same budget issues exactly two requests and saves all 80000 rows |
| Cleaning.RenameColumns | scripts/data_cleaning.py:39-43 | the header rename; stated by `RenameIsExact` |
| Cleaning.CleanColumns | scripts/data_cleaning.py:39-81 | the output header: the renamed input columns, then each derived column not already among them; stated by `CleanColumnsContainFeatures` |
| Cleaning.CleanRows | scripts/data_cleaning.py:35-81 | the row steps in source order; stated by `CleanRowsIsOneFilter`, `CleanRowsSelects`, `CleanRowsInvariants` and `UnparsableRowDropped` |
| Cleaning.RenameIsExact | scripts/data_cleaning.py:39-43 | the rename maps exactly `station_complex_id`, `station_complex` and `ridership` to their new names; no old name remains, and every other column keeps its name and position |
| Cleaning.CleanColumnsContainFeatures | scripts/data_cleaning.py:39-81 | the output header starts with the renamed input header; a column is in it iff it is a renamed input column or a derived column; it has at most as many columns as the input plus the ten derived ones |
| Cleaning.Clamp | scripts/data_cleaning.py:67 | `max(0, x)` is non-negative, at least `x`, and is either `x` or 0 |
| Cleaning.ClampIdempotent | scripts/data_cleaning.py:67 | clamping twice equals clamping once |
| Cleaning.RidershipCount | scripts/data_cleaning.py:66-67 | unparsable ridership becomes 0, a negative value becomes 0, and a non-negative value is unchanged |
| Cleaning.Derive | scripts/data_cleaning.py:70-81 | `date * 24 + hour` is the timestamp and hour is in 0..23; the weekday is the day number shifted by Thursday, modulo 7; weekend iff the name is Saturday or Sunday; morning rush iff hour is in 6..9; evening rush iff hour is in 16..19; never both; the weekday name is the weekday number's name (Monday = 0); month and year are the calendar month and year of the day; the month name matches the month |
| Cleaning.NextDayNextWeekday | scripts/data_cleaning.py:71-72 | 24 hours later is the next weekday at the same hour |
| Cleaning.RushHourExamples | scripts/data_cleaning.py:80-81 | hour 7 is a morning rush hour only; hour 17 is an evening rush hour only |
| Cleaning.SaturdayIsWeekend | scripts/data_cleaning.py:72-77 | every hour of 2024-01-06 is named Saturday and flagged as weekend |
| Cleaning.DerivedFlags | scripts/data_cleaning.py:71-81 | `hour` = timestamp mod 24; weekend iff weekday in {5, 6}; morning rush iff hour in {6,7,8,9}; evening rush iff hour in {16,17,18,19} |
| Cleaning.CleanOneMeaning | scripts/data_cleaning.py:35-81 | a raw row survives iff both its timestamp and its station id parse, and what it becomes is the parsed row with the coerced ridership and the derived features |
| Cleaning.CleanRowsIsOneFilter | scripts/data_cleaning.py:35-81 | the step-by-step pipeline (two drops, then two column rewrites) equals one filter by the combined per-row rule |
| Cleaning.CleanRowsSelects | scripts/data_cleaning.py:35-62 | the output is the cleaned forms of exactly the surviving raw rows, in original order: rows are only dropped, never reordered, duplicated or added |
| Cleaning.CleanRowsInvariants | scripts/data_cleaning.py:66-81 | every output row has ridership ≥ 0, hour = timestamp mod 24, and flags exactly characterised by their sets |
| Cleaning.UnparsableRowDropped | scripts/data_cleaning.py:35-58 | a row whose timestamp does not parse, or whose station id is not numeric (like `TRAM1`), is the source of no output row |
| Cleaning.LoadAndClean | scripts/data_cleaning.py:19-107 | a missing or unreadable raw file gives an empty frame and writes nothing; otherwise the returned frame, which is also the one written, has the cleaned header `CleanColumns` and the cleaned rows `CleanRows` of the input, and no more rows than the input |
| Dashboard.DayStart | app.py:46 | `DATE_TRUNC('day', t)` is the midnight hour at or before `t`, less than 24 hours earlier |
| Dashboard.DailyTotals | app.py:44-50 | the daily query gives one row per distinct day of the hourly records, with days strictly ascending and each total equal to the sum of that day's ridership |
| Dashboard.DailyRowsAreDaySums | app.py:44-50 | each daily row is a day start whose total is the sum of that day's hourly ridership |
| Dashboard.LastHistoricalDate | app.py:153 | the last historical date is a date of the series and no historical date is later |
| Dashboard.LastDateOfAscending | app.py:153 | for the ascending daily series, that maximum is the last row's date |
| Dashboard.ForecastAfter | app.py:156 | the filter as written keeps a forecast row iff the row is in the input and its timestamp is later than the last historical date |
| Dashboard.ForecastAfterSelects | app.py:156 | the forecast filter as written keeps, in order, exactly the forecast rows whose timestamp is later than the last historical date |
| Dashboard.SameDayForecastKept | app.py:153-156 | the filter as written keeps a forecast at 05:00 on the last historical day (2024-01-10) |
| Dashboard.ForecastAfterLastDay | app.py:154-156 | the corrected filter keeps a forecast row iff the row is in the input and its day is after the last historical day |
| Dashboard.ForecastAfterLastDaySelects | app.py:154-156 | the corrected filter keeps, in order, exactly the forecast rows on days after the last historical day |
| Dashboard.ForecastAfterLastDayNarrows | app.py:154-156 | every row the corrected filter keeps is later than the boundary and is also kept by the filter as written |
| Dashboard.Combine | app.py:160-163 | the combined frame is every historical row tagged Historical, in order, followed by every kept forecast row tagged Forecast, in order; its length is the sum of the two |
| Dashboard.TrendChartAsWritten | app.py:143-185 | the chart as the program builds it, with the `>` filter, exists iff both the historical and the forecast series are non-empty |
| Dashboard.TrendChartAsWrittenLayout | app.py:145-163 | that chart's frame is every historical row tagged Historical, then the forecast rows later than the last historical date tagged Forecast; its length is the sum of the two |
| Dashboard.SameDayChartsDiffer | app.py:153-163 | with history ending on 2024-01-10 and a forecast at 05:00 that day, the chart as written has two points, the forecast drawn on the last historical day, and the corrected chart has only the historical point |
| Dashboard.TrendChart | app.py:143-185 | the corrected chart exists iff both the historical and the forecast series are non-empty |
| Dashboard.TrendChartLayout | app.py:145-163 | the corrected chart's frame is every historical row tagged Historical, then the forecast rows on days after the last historical day tagged Forecast; its length is the sum of the two |
| Dashboard.TrendChartSeriesDoNotOverlap | app.py:152-163 | every forecast point lies on a later day than every historical point |

## Left out

- HTTP, the pause between requests, CSV parsing and CSV writing are not modelled. The endpoint is the parameter `source`. A parse that fails as empty is the response `EmptyData`. The outcome of `to_csv` in the download is the parameter `saveSucceeds`.
- Creating the output directories is not modelled, and neither are the progress messages.
- The database loader is not part of this model. It creates the tables from the cleaned file.
- The hourly table is read straight from the `HourlyRecord` list that `DailyTotals` takes.
- Streamlit and Plotly rendering in `app.py` are not modelled: page layout, messages, `px.line`, the dashed boundary line, caching and engine creation. The station map is also left out.
- Floating point is not modelled. This covers the millisecond conversion of the boundary line, the map centre averages, and forecast values, which are carried as `real` without arithmetic.
- The calendar is not modelled. pandas' year and month of a day number are the parameter `civil`. Day and weekday follow from whole hours since the epoch; 1970-01-01 was a Thursday.
- Cleaning.Derive: timestamps are whole hours, so sub-hour timestamps are not modelled. The dataset is hourly.
- The dtype casts and category conversions at `scripts/data_cleaning.py:83-95` are not modelled. They change storage, not values, except as the next item says.
- Cleaning.RidershipCount: `to_numeric` is modelled as giving an integer or nothing. Fractional ridership and its later truncation by the `int32` cast are not modelled.
- Cleaning.CleanOneMeaning: the station id is modelled as an unbounded integer. The `astype('int32')` at `scripts/data_cleaning.py:62` truncates a fractional id and wraps an id outside the 32-bit range, and neither is modelled.
- A raw file that lacks one of the required columns is not modelled. The source raises `KeyError` there, and every row is assumed to carry the four columns it reads.
- The database loading step of the dashboard can fail, and the dashboard then goes on with an empty frame. The model has no separate failure for this: an empty series stands for it, and `Dashboard.TrendChart` returns None.
- Dashboard.TrendChart: this is the chart with the corrected day-level filter described under "## Findings", not the program's chart. The program's chart is `Dashboard.TrendChartAsWritten`. `Dashboard.TrendChartLayout` and `Dashboard.TrendChartSeriesDoNotOverlap` describe the corrected chart. `Dashboard.TrendChartAsWrittenLayout` describes the chart as written.
- Ingestion.FetchPages: the Python function is a single body. Its loop is modelled as `FetchPages`, and the rest of the function as `DownloadLimited`, which calls it.

## Findings

| source | as written | input that shows it | evidently intended | confidence | as-written member | corrected member |
|---|---|---|---|---|---|---|
| app.py:156 | the forecast filter compares hourly `forecast_timestamp` values with the daily maximum `ds`, which is a midnight (`DATE_TRUNC('day', …)`), so forecast hours later on the last historical day pass the `>` test | history whose last day is 2024-01-10 (ds = 2024-01-10 00:00) and a forecast row at 2024-01-10 05:00: the row is kept and drawn over the last historical day | the comments beside it: the forecast starts on the day after the last historical date and does not overlap that day | medium, not executed | Dashboard.SameDayChartsDiffer | Dashboard.TrendChartSeriesDoNotOverlap |
