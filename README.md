# flysmart search pipeline, modelled in Dafny

This project models the flight search handler `get_least_price_flight` of flysmart
(`main.py`). A POST to `/search` fetches a month's price grid from the upstream
pricing API. The handler then does five things:

- It decodes the referenced flight traces (`parse_trace`).
- It builds one price option per day cell that has an `Indirect` fare.
- It appends one row per leg to the `flights` table.
- It picks the cheapest option with Python's `min`.
- It counts the stored rows per `flight_date`.

Any exception goes through the chain of `except` clauses, which turns it into an HTTP error.

Modules, one per stage:

- `Wrappers` (`wrappers.dfy`): `Option` and `Result`, which stand in for Python exceptions.
- `Calendar` (`calendar.dfy`): `strptime(token, '%Y%m%d')` and `strftime('%d-%m-%Y')` on eight-digit tokens. It applies the Gregorian month lengths and leap years, and the 1..9999 year range of `datetime`.
- `Trace` (`trace.dfy`): `str.split('*')`, with `Join` as its inverse. It also picks the leg fields by position, in the order Python evaluates them. `parts[4]` is read first, then the date is converted, then `parts[1..3]`, `parts[5]` and `parts[6]` are read. A trace with five or six fields and a bad date is therefore a ValueError. With a good date it is an IndexError.
- `Grid` (`grid.dfy`): the decoded response body, with the `.get(..., default)` fallbacks, and the extraction loop. The loop is a method with a `while` loop, proved equal to a recursive specification function.
- `Select` (`select.dfy`): `min(flights, key=price)`, which returns the first option of least price.
- `Store` (`store.dfy`): the `flights` table as a class holding a `seq<Row>`. It has the nested insert loop and the `GROUP BY flight_date` count query.
- `Handler` (`handler.dfy`): the whole request. It covers the mapping from Python exception class to `except` clause and status, the two misfiled exceptions (see Findings), and the worked example of a search from LOND.

The upstream fetch is a parameter (`Upstream`). It is the decoded body, an error status, a transport failure, or a body that is not JSON.

## Model

| member | source | states |
|---|---|---|
| Calendar.DaysInMonth | main.py:55 | month lengths: 29 days exactly for February of a leap year, 28 for February otherwise, 30 or 31 for the rest |
| Calendar.ParseDateToken | main.py:55 | a token that parses is eight digits and names an existing date |
| Calendar.FormatDate | main.py:55 | the display form is ten characters with dashes at positions 2 and 5 |
| Calendar.ConvertDateReorders | main.py:55 | a converted token comes out as `DD-MM-YYYY` with the token's own day, month and year digits, zero-padded as written |
| Calendar.ParseDateTokenOfDate | main.py:55 | every valid date parses back from its own `YYYYMMDD` token (round trip) |
| Calendar.ConvertDateIff | main.py:55 | an eight-digit token converts exactly when year >= 1, month is in 1..12 and day is in 1..month length |
| Calendar.LeapDay | main.py:55 | the token `YYYY0229` converts exactly when YYYY is a Gregorian leap year |
| Calendar.MonthOutOfRange | main.py:55 | a month field outside 1..12 is a ValueError |
| Calendar.DayPastMonthEnd | main.py:55 | a day past the end of its month is a ValueError |
| Calendar.ConvertDate | main.py:55 | a token converts exactly when it parses as a date; a converted token is eight digits and its display form is ten characters |
| Trace.Split | main.py:53 | a split has at least one piece |
| Trace.JoinSplit | main.py:53 | no piece of a split holds `'*'`, and joining the pieces with `'*'` restores the trace |
| Trace.SplitJoin | main.py:53 | splitting a `'*'`-join of separator-free fields gives the fields back |
| Trace.ParseFields | main.py:52-63 | success exactly when there are >= 7 fields and the date converts; then FlightType, DepartureCity, ArrivalCity, Airline and AirlineCode are parts 1, 2, 3, 5 and 6, FlightDate is the converted part 4, and part 0 is ignored; IndexError exactly when there are < 5 fields, or the date converts and there are < 7; otherwise ValueError on part 4 |
| Trace.ParseTrace | main.py:52-63 | on the `'*'`-split of the trace: success exactly when there are >= 7 parts and part 4 converts, the leg then being parts 1, 2, 3, the converted part 4, parts 5 and 6; a failure is a ValueError exactly when there are >= 5 parts and part 4 does not convert, otherwise an IndexError |
| Trace.ParseTraceOfFields | main.py:52-63 | a trace built from separator-free fields decodes to those fields, with the date reordered to `DD-MM-YYYY` |
| Trace.FewerThanFiveFields | main.py:54 | a trace with fewer than five fields fails with IndexError before its date is read |
| Trace.ParsedDateShape | main.py:60 | every decoded FlightDate is two digits, dash, two digits, dash, four digits |
| Grid.GridOf | main.py:47 | a missing `data`, `PriceGrids` or `Grid` yields `[[]]`; otherwise the grid as sent |
| Grid.TracesOf | main.py:48 | a missing `data` or `Traces` yields the empty map; a present `Traces` is used as sent |
| Grid.DecodeRef | main.py:69 | a reference decodes exactly when it is in `Traces` and its trace parses, to that trace's leg; a missing reference is a KeyError; a present reference whose trace fails carries that trace's IndexError or ValueError |
| Grid.DecodeRefs | main.py:69 | one leg per reference, in reference order, when all decode; otherwise the error of the first reference that fails |
| Grid.DecodeRefsFirstFailure | main.py:69 | when every reference before position j decodes and reference j does not, the list comprehension fails with reference j's error |
| Grid.RowOptions | main.py:65-73 | on success, one option per `Indirect` cell; a failure inside the row is never the empty-grid error |
| Grid.Extraction | main.py:47-73 | the empty-grid error happens exactly when the grid is `[]`; on success, one option per `Indirect` cell of the first row |
| Grid.RowOptionsFirstFailure | main.py:65-73 | when every earlier `Indirect` cell resolves and the first failing reference is reference j of cell i, the row fails with that reference's error |
| Grid.ExtractFlights | main.py:65-73 | the loop over the first grid row returns the extraction specification: the options or the first exception |
| Grid.RowOptionsShape | main.py:65-73 | one option per `Indirect` cell in cell order, with that cell's price and one leg per trace reference, in reference order |
| Grid.RowOptionsOkIff | main.py:65-73 | extraction succeeds exactly when every reference of every `Indirect` cell resolves and parses |
| Grid.NoIndirectNoOptions | main.py:65-66 | a row without `Indirect` cells yields zero options |
| Grid.MissingGridDefaults | main.py:47 | a body without `data`, `PriceGrids` or `Grid` yields zero options |
| Grid.EmptyGridFails | main.py:65 | a grid sent as `[]` makes `price_grid[0]` raise |
| Select.CheapestIndex | main.py:86 | the chosen position holds a price <= every price, and every earlier option is strictly dearer (the first minimum) |
| Select.Cheapest | main.py:86-88 | the chosen option is the first option of least price: no option is cheaper and every earlier option is strictly dearer |
| Select.FirstCheapestUnique | main.py:86 | only one position can be the first cheapest, so the choice is determined |
| Select.TwoOptions | main.py:86 | of two options the cheaper is chosen in either order; on a tie the first |
| Store.LegRows | main.py:80-83 | one row per leg, carrying the option's price and the leg's fields |
| Store.RowOf | main.py:81-83 | a row carries the option's price and the leg's six fields, field by field |
| Store.Rows | main.py:79-83 | a search writes as many rows as its options have legs |
| Store.RowsAt | main.py:79-83 | leg j of option i lands right after the legs of the earlier options, with option i's price |
| Store.FlightStore.constructor | main.py:26-27 | a fresh database file starts with an empty table |
| Store.FlightStore.InsertOptions | main.py:79-84 | the new rows are the old rows followed by the search's rows in option-then-leg order, so existing rows are unchanged |
| Store.CountDateAppend | main.py:96 | a date's count over an appended log is its old count plus its count among the new rows |
| Store.GroupCounts | main.py:96 | there are no more groups than rows, and at least one group when there are rows |
| Store.FlightStore.CountByDate | main.py:96 | the query's groups have distinct dates, each date's count is its number of stored rows, and the counts sum to the number of stored rows |
| Store.GroupCountsCorrect | main.py:96 | the query's groups have distinct dates and counts >= 1; each date's count is its number of rows, and the counts sum to the number of rows |
| Store.GroupCountsEntries | main.py:96 | a date appears in the query's result exactly when some row has it, and each group's count is the number of rows with that date |
| Store.InsertGrowsCounts | main.py:79-96 | after a search, the counts' total grows by exactly its number of legs, and each date grows by its new rows |
| Handler.IsInstance | main.py:120-127 | every exception is an `Exception`; an HTTPError is also a `RequestException`; only a ValueError is a `ValueError`; IndexError, KeyError and the handler's own HTTPException belong to `Exception` only |
| Handler.CatchingClause | main.py:120-127 | the exception is caught by the first `except` clause, in source order, whose class it belongs to |
| Handler.Respond | main.py:120-127 | an HTTPError re-raises with the upstream status; every other exception with 500; the detail starts with the catching clause's message |
| Handler.ExtractionException | main.py:53-69 | a bad date is a ValueError, a missing reference a KeyError, and an empty grid or a short trace an IndexError, each exactly |
| Handler.Search | main.py:41-127 | the old rows always stay as a prefix; a failed request stores nothing; a failure has status 500 unless the upstream sent an error status |
| Handler.GetLeastPriceFlight | main.py:41-127 | the handler's response and new store contents are those of the `Search` specification |
| Handler.SearchSucceeds | main.py:75-96 | with at least one option, the page shows the first cheapest option's price and legs; the new store is the old rows followed by the search's rows (`Rows`), one per leg; each date's count on the page is its number of rows in the new store, and the counts sum to the store's size |
| Handler.RenderedIff | main.py:75 | a page is rendered exactly when the body was fetched and yields at least one option |
| Handler.FailureKeepsStore | main.py:75-84 | every failure happens before the insert, so the store is unchanged |
| Handler.NeverNotFound | main.py:118-127 | a 404 response can only be an upstream 404 passed through: the handler's own 404 becomes 500 |
| Handler.MissingGridIs500 | main.py:118-127 | a body without `data`, `PriceGrids` or `Grid` ends in 500 "An unexpected error occurred", with nothing stored |
| Handler.NoIndirectIs500 | main.py:118-127 | a first row without `Indirect` cells ends in 500 "An unexpected error occurred", with nothing stored |
| Handler.ErrorStatusPassesThrough | main.py:120-121 | an upstream error status becomes the response status with "HTTP error occurred", and nothing is stored |
| Handler.EmptyGridIs500 | main.py:65-127 | a grid sent as `[]` ends in 500 "An unexpected error occurred", with nothing stored |
| Handler.BadDateReportedAsJsonError | main.py:53-125 | when the first reference that fails names a trace of >= 5 fields whose fifth is not a date, the request ends in 500 "JSON decode error", with nothing stored |
| Handler.ShortOrMissingTraceIs500 | main.py:53-127 | when the first reference that fails is missing from `Traces`, or names a trace of < 5 fields, or of < 7 fields with a valid date, the request ends in 500 "An unexpected error occurred", with nothing stored |
| Handler.IntendedRespond | main.py:118-127 | the corrected mapping: the handler's own 404 keeps status 404, and a date error is not reported as a JSON decode error; all other exceptions are handled as written |
| Handler.HandlerMisfiles | main.py:118-127 | as written the 404 comes out as 500 and a date error under "JSON decode error"; corrected, 404 and "An unexpected error occurred" |
| Handler.ExampleDate | main.py:55 | the token `20240610` converts to `10-06-2024` |
| Handler.ExampleTraceDecodes | main.py:52-63 | the example trace decodes to its fields, dated `10-06-2024` |
| Handler.OneCellTwoLegs | main.py:65-88 | one cell priced 450 with two decodable references renders price 450 with the two legs in order, and stores their two rows |
| Handler.WorkedExample | main.py:41-117 | two traces dated 20240610 behind one cell priced 450 give least price 450, two legs dated `10-06-2024`, and two new rows |

## Findings

| source | as written | input that shows it | evidently intended | confidence | as-written member | corrected member |
|---|---|---|---|---|---|---|
| main.py:118-127 | `raise HTTPException(status_code=404, ...)` sits inside the `try`, so `except Exception` catches it and re-raises it as 500 "An unexpected error occurred" | a response whose first grid row has no `Indirect` cell | respond 404 "No flight details available." | high, not executed | Handler.Respond (shown by Handler.NeverNotFound and Handler.HandlerMisfiles) | Handler.IntendedRespond |
| main.py:55, 124-125 | the ValueError that `strptime` raises for a trace date such as `20240230` is caught by the clause meant for `response.json()`, and is reported as "JSON decode error" | a trace whose fifth field is `20240230` | report it as an unexpected error rather than a JSON decode error | medium, not executed | Handler.Respond (shown by Handler.BadDateReportedAsJsonError) | Handler.IntendedRespond |

`Handler.Search` and `Handler.GetLeastPriceFlight` use the as-written mapping `Respond`, because they model what the handler returns today. `IntendedRespond` is the corrected mapping. It agrees with `Respond` on every other exception.

## Left out

- The upstream fetch (`requests.get`, `raise_for_status`, `response.json()`) is network I/O. It is the parameter `Upstream`. A body that is not JSON is modelled as a ValueError caught by the "JSON decode error" clause. Recent versions of `requests` raise a `JSONDecodeError` that is also a `RequestException`, and then the "Error occurred" clause catches it. That version-dependent class is not modelled.
- The detail text after each clause's fixed prefix (`str(err)`) is not modelled. A `Failed` response carries the status and the prefix only.
- SQLite: the connection, the DDL, `commit`, and a failing INSERT are not modelled. The table is the in-memory `FlightStore.rows`. The constructor models a fresh database file; an existing `flights.db` keeps its rows across runs, which `Search` and `InsertOptions` cover by taking any prior rows. The count query's row order is not modelled either: the query has no ORDER BY. `GroupCounts` lists dates in order of first appearance and promises no order.
- Selenium (`driver.get`, `driver.quit`) is a browser side effect and is not modelled. In the code the process-wide driver is quit in `finally` after every request. So `driver.get` at line 91 fails on every later request that reaches it, after that request's rows are inserted, and the request ends in the generic 500. The model does not capture that failure path.
- Chart rendering (pandas, matplotlib, PNG, base64) is floating point and binary encoding inside libraries. The model stops at the date-to-count groups.
- FastAPI routing, form validation and Jinja templates are framework glue and are not modelled. `source/config` is not part of this model.
- Calendar.ParseDateToken: only tokens of exactly eight ASCII digits are accepted. `strptime` also accepts some shorter tokens (single-digit month or day, such as `2024610`, or the eight-character `202406 5`, whose space-padded day the `%d` pattern accepts) and non-ASCII decimal digits. Those leniencies are not reproduced.
- Calendar.FormatDate: the year is always written with four digits. glibc's `strftime` writes years below 1000 without zero padding.
- Grid: JSON `null` values, cells whose `Indirect` entry lacks `Price` or `TraceRefs`, and bodies of the wrong JSON type are not modelled; prices are integers only. A missing key or a `null`/wrong-typed `data`, `Grid`, day cell, `TraceRefs` or `Traces` can raise before the insert, which ends in the generic 500, with two exceptions. A day cell that is a JSON list or string not containing `Indirect` makes `'Indirect' in day` at line 66 false, so the cell is skipped silently and the request can still render. A `null` `Traces` is only subscripted inside the comprehension at line 69, so nothing raises when no reference is looked up. A `null` `Price` does not: with a single option a row with a NULL price is stored and the page renders with least price `None`; with two or more options `min` at line 86 raises TypeError after the commit at line 84, so the request ends in the generic 500 with the rows already stored. `Handler.FailureKeepsStore` does not cover that path.
- Prices are unbounded integers. Python compares JSON numbers, floats included, and the model does not cover floats.
