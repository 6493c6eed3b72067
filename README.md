# Aikatauluhaku results table, modelled in Dafny

Aikatauluhaku is a small PyQt window that looks up coach connections between two stop areas in Finland. It asks the Matkahuolto schedule service for them and lists them in a 13-column table. This project models what the window does once the service has answered:

- `AikatauluHakuGUI.nayta_aikataulut` (aikatauluhaku-gui.py, lines 81-130) empties the table. It then shows either a single merged "no connections found" row, or one row of thirteen strings per connection, in input order.
- The failure branch of `hae_aikataulut` (lines 76-79) shows the request error in a merged row 0.

The model has three layers, matching how the source is written:

- **Per-field derivations (pure).** These are lines 94-114, modelled in `connections.dfy`.
  - A JSON value is a `Scalar`: either a JSON string (`Text`) or any other value, kept as its Python `str()` rendering (`Other`). A missing key is `None`.
  - `RowFor` gives a connection's `DisplayRow`, or the exception the derivation raises first (`KeyError`, `ValueError`, `TypeError`), in the order the source evaluates the lookups.
- **Timestamps (pure).** These are modelled in `iso_time.dfy` and `digits.dfy`.
  - `datetime.fromisoformat` is modelled as `Parse`, over the extended-format shape `YYYY-MM-DDTHH:MM[:SS][Z|±HH:MM]` (the profile of section 5.6 of RFC 3339). It checks the calendar ranges Python checks (year 1-9999, a real day of the month, hour, minute and second). An offset must be written `±HH:MM` with HH below 24 and MM below 60, which is stricter than Python.
  - `strftime("%Y-%m-%d")` and `strftime("%H:%M")` are modelled as `DateText` and `ClockText`.
  - An offset is never applied, so the clock columns show the wall-clock time as written.
- **The table (imperative).** This is `class Table` in `results_table.dfy`.
  - Its fields are the items set in each cell (`None` where no item was set) and whether row 0 is merged.
  - Its methods are the Qt operations the source uses: `SetRowCount`, `AppendRow` (`insertRow`), `SpanFirstRow` (`setSpan(0, 0, 1, 13)`) and `SetItem`.
  - `Render`, `ShowError` and `Search` call these in the source's order.
  - `Render` is proved against the specification function `Display`. `Display` is the table and escaping exception that `nayta_aikataulut` leaves, and it does not depend on what the table held before.

What the window does not do, as the code is written:

- It does not filter out departures that are already past.
- It has no stop-area column.
- It does not stripe alternate rows.
- It does not convert times to another time zone.
- Its table has 13 columns.

## Model

| member | source | states |
|---|---|---|
| Digits.ValueOfPad | aikatauluhaku-gui.py:101-103 | a value that fits the width, written zero-padded and read back, is the value |
| Digits.PadValueOf | aikatauluhaku-gui.py:98-103 | a digit field read and written back at its width is the field as written, leading zeros included |
| IsoTime.Parse | aikatauluhaku-gui.py:98-99 | every date-time it accepts lies in Python's ranges (year 1-9999, real calendar day, seconds below 60, offset inside one day), and the text has at least the `YYYY-MM-DDTHH:MM` prefix |
| IsoTime.ParseFormat | aikatauluhaku-gui.py:98-99 | every valid date-time, written in extended format, parses back to itself |
| IsoTime.ZonePartZoneText | aikatauluhaku-gui.py:98-99 | every zone a date-time can hold (none, or an offset inside one day) is read back from its written form |
| IsoTime.ProjectionsAsWritten | aikatauluhaku-gui.py:101-103 | for any accepted text, the `%Y-%m-%d` projection is its first ten characters and the `%H:%M` projection is the five after the "T", whatever offset follows |
| Connections.PriceCell | aikatauluhaku-gui.py:120 | "N/A" exactly when the price is absent or is the string "N/A"; otherwise the price's string form followed by "€" |
| Connections.JoinLength | aikatauluhaku-gui.py:114 | a join is as long as its parts together with one separator between each two neighbours |
| Connections.JoinSplit | aikatauluhaku-gui.py:114 | joining a list equals joining its first k parts, the separator, and joining the rest |
| Connections.PartInJoin | aikatauluhaku-gui.py:114 | part i appears in the join at the offset of the earlier parts and separators, and is followed by the separator unless it is the last |
| Connections.JoinIsEmpty | aikatauluhaku-gui.py:114 | with a non-empty separator, the join is empty exactly when there is no part or a single empty one |
| Connections.RowForSucceeds | aikatauluhaku-gui.py:94-114 | a row is derived exactly when both places have a parsable string `dateTime` and `duration`, `companies` (with the first company's `name`) and `line` are present and every service text is a string |
| Connections.RowForFaults | aikatauluhaku-gui.py:94-114 | each exception in evaluation order, when every lookup before it succeeded: KeyError for `fromPlace`, its `dateTime`, `toPlace`, its `dateTime`; TypeError for a non-string departure; ValueError with the text for an unparsable departure; TypeError for a non-string arrival; ValueError for an unparsable arrival; KeyError for `duration`, `companies`, the first company's `name`, `line`; TypeError when a service text is not a string |
| Connections.TimeColumns | aikatauluhaku-gui.py:94-103 | of a derived row, column 0 is the departure text's first ten characters, columns 1 and 2 are characters 11-15 of the departure and arrival texts |
| Connections.PlainColumns | aikatauluhaku-gui.py:105-113 | of a derived row, the duration column is the duration's string form; each of the six line columns is "N/A" when the field is absent and its string form when present |
| Connections.PriceColumn | aikatauluhaku-gui.py:106 | of a derived row, the price column is "N/A" exactly when `adultPrice` is absent or "N/A", otherwise its text followed by "€" |
| Connections.CompanyColumn | aikatauluhaku-gui.py:107 | of a derived row, the company column is the first company's name, or "N/A" for an empty list |
| Connections.ServicesColumn | aikatauluhaku-gui.py:114 | of a derived row, the services column is the ", "-join of one part per entry (an entry without `service` gives ""); it is empty exactly when the list is missing or empty or holds one entry with empty text |
| ResultsTable.CollectSpec | aikatauluhaku-gui.py:90-128 | the loop lists every row exactly when no connection raises, row i being connection i's; when it stops, it stops at the first raising connection with the rows of all before it |
| ResultsTable.PlaceholderWhenNoConnections | aikatauluhaku-gui.py:84-88 | the table ends merged exactly when `connections` is missing or empty, and then holds one row with the message in column 0, no other item and no exception |
| ResultsTable.OneRowPerConnection | aikatauluhaku-gui.py:90-128 | when every connection derives, the table holds exactly one row per connection, in input order, each the connection's thirteen strings, unmerged, and nothing escapes |
| ResultsTable.FirstFaultLeavesBlankRow | aikatauluhaku-gui.py:90-114 | when connection k is the first to raise, its exception escapes, the table has k + 1 rows, rows 0..k-1 hold their connections' strings and row k is blank |
| ResultsTable.EveryRowFullWidth | aikatauluhaku-gui.py:116-128 | every row the table ends with has exactly the thirteen columns |
| ResultsTable.Table.constructor | aikatauluhaku-gui.py:39-44 | a new table has no rows and no merged cells |
| ResultsTable.Table.SetRowCount | aikatauluhaku-gui.py:82 | rows beyond n are dropped, missing rows are added blank, the merge of row 0 survives only while row 0 does |
| ResultsTable.Table.AppendRow | aikatauluhaku-gui.py:91-92 | a blank row is added at the bottom and nothing else changes |
| ResultsTable.Table.SpanFirstRow | aikatauluhaku-gui.py:86 | row 0 becomes merged; no item changes |
| ResultsTable.Table.SetItem | aikatauluhaku-gui.py:116 | the one item at (row, column) is replaced and the row count is unchanged; a position outside the table changes nothing |
| ResultsTable.Table.WriteRow | aikatauluhaku-gui.py:116-128 | the thirteen `setItem` calls leave the given row holding exactly the row's strings, every other row untouched |
| ResultsTable.Table.ListRows | aikatauluhaku-gui.py:90-128 | starting from an empty table, the loop leaves the rows and escaping exception the specification `Listing(Collect(Derived(connections)))` describes |
| ResultsTable.Table.Render | aikatauluhaku-gui.py:81-130 | whatever the table held before, it ends as `Display(data)` says, and the returned exception is the one that escapes |
| ResultsTable.Table.ShowError | aikatauluhaku-gui.py:76-79 | the table keeps only row 0 (blank if there was none), merged, with "Virhe haussa: " and the message in column 0 |
| ResultsTable.Table.Search | aikatauluhaku-gui.py:70-79 | a received body is rendered as `Display` says; a failed request shows its message in the merged row 0 and raises nothing |

## Left out

- The HTTP request is left out. This covers the URL, the query parameters, the credential header, `raise_for_status` and `response.json()` (lines 54-75). These are network I/O. `Search` takes the outcome as a `Reply`: either a decoded body or the text of the `RequestException`.
- The Qt layout and widget construction are left out (lines 13-48, 130, 132-136). So are `resizeColumnsToContents`, header resizing and the application entry point. How PyQt reports an exception that escapes a slot is also left out. `Search` returns such an exception instead.
- `datetime.now()` for the request date (line 60) is left out because it reads the wall clock.
- `Connections.Str`: Python's `str()` of a non-string JSON value (a number, `true`, `null`) is not computed. Such a value carries its rendering as given (`Other`), because float formatting is out of scope.
- JSON shapes the source does not expect are not modelled:
  - `connections`, `companies`, `services` or a company/service entry that is not a list or an object;
  - `line` or a place that is `null`;
  - a body that is not an object.
  The model's types only admit the expected shapes.
- IsoTime.Parse: accepts only `YYYY-MM-DDTHH:MM[:SS][Z|±HH:MM]`, with an offset's hours below 24 and minutes below 60. Python's `fromisoformat` also accepts other forms, which the model treats as rejected (ValueError). Among them, and not only these:
  - a date alone;
  - an hour without minutes (`2024-06-01T10`);
  - any single separator character other than "T", such as a space;
  - fractional seconds;
  - the basic format;
  - offsets with seconds;
  - offset fields outside those ranges whose total still lies inside one day (`+00:75`).
- IsoTime.Parse: reads "Z" as UTC, as Python 3.11 and later do.
- IsoTime.DateText: writes the year in four digits. Some C libraries' `strftime("%Y")` write years below 1000 without leading zeros.
- ResultsTable.Table.SpanFirstRow: models only the call the source makes, on a table that has a row 0.
- ResultsTable.Table.SetRowCount: models Qt's behaviour as follows:
  - `setRowCount(0)` removes the merge of row 0;
  - shrinking to one row keeps row 0's items and merge.
  `ShowError` relies on this.
- Connections.ServicesColumn: does not state that the column is never "N/A". A single service whose text is "N/A" shows "N/A".
- The column headers are kept as the constant `Headers` (lines 41-44). Nothing is proved about them.
