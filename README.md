# A verified model of the activity service's dispatcher and data client

The service receives JSON requests, routes each one by its `action`
field to one of five handlers, and serves them from two ScyllaDB tables:

- `activity` holds user status events.
- `daily_report` holds one summary row per user and day.

This project models in Dafny the two parts that carry the logic:

- **The dispatcher** (`functions.dfy`, module `Dispatcher`).
  - The `@action` registry is built from the class's attributes. The
    class body is a sequence of definitions, `upsert_daily_report`
    appearing twice. The object's namespace keeps the later definition.
    The registration loop walks `dir(self)`.
  - `handle_request` routes the request.
  - Each of the five handlers checks its required fields and then calls
    into the client.
  - A request is a `map<string, string>`. A raised exception is the
    `Err` of a `Result`, carrying the exception's message.
- **The data client** (`scylladb_client.dfy`, module `ScyllaDbClient`,
  with `cql.dfy`, `time_of_day.dfy`, `timestamps.dfy`, `common.dfy`).
  - The tables are `map` fields of a `Client` object, keyed by
    `(username, creation_date)`. That key is the primary key of both
    tables, so a write to an existing key overwrites the row.
  - `get_activity` and `get_daily_report` build their statement text and
    parameter list one filter at a time, as the source does.
  - The store runs a statement by evaluating the clause list the text is
    rendered from. It reads each parameter as a literal of its column's
    type. A literal it cannot read makes the statement fail.
  - `get_last_activity` returns the user's row with the greatest
    `creation_date`. This follows from the `activity` table's descending
    clustering order together with `LIMIT 1`.
  - `upsert_daily_report` first converts both times: a string is parsed
    as `"%H:%M:%S"`, a time value is used as is, and anything else raises
    `ValueError`. It then looks for the user's rows in `[today_start,
    today_start + 1 day)`. If there is one, it updates the earliest: the
    table clusters ascending, so that row is `rows[0]`. Otherwise it
    inserts a row at `today_start`.

Timestamps are whole milliseconds of naive local time since
1970-01-01T00:00:00, so a day begins at every multiple of 86 400 000.

Inputs the code cannot compute become parameters:

- the current time (`now`);
- the server-generated `uuid()` (`id`, `freshId`);
- the store's grammar for timestamp and time literals (`Literals`).

## Model

| member | source | states |
|---|---|---|
| TimeOfDay.ParseTime | scylladb_client.py:176-178 | A successful `strptime(s, "%H:%M:%S").time()` gives a valid time of day (hour < 24, minute < 60, second < 60) with no fraction. Failures carry Python's three messages: no match, unconverted data remains, second out of range. |
| TimeOfDay.ShowDropsFraction | scylladb_client.py:267-268 | `str(v).split('.')[0] if v else None` maps an absent time to None. A stored time becomes its zero-padded "HH:MM:SS" text, 8 characters, with the nanosecond fraction dropped. |
| TimeOfDay.ClockParses | scylladb_client.py:178 | The "HH:MM:SS" text of any valid time parses back to that time, less its fraction. |
| TimeOfDay.CanonicalRoundTrip | scylladb_client.py:176-268 | A canonical zero-padded "HH:MM:SS" string parses, and shaping the parsed time for output gives back the same string. |
| TimeOfDay.ClockCanonical | scylladb_client.py:267-268 | The "HH:MM:SS" text of a valid time is canonical: two digits per field, hour below 24, minute and second below 60. |
| TimeOfDay.ParsedSpelling | scylladb_client.py:176-178 | Soundness of the parse: a string that parses is the result's hour, minute and second, each written as one or two decimal digits, joined by ':' and followed by nothing. |
| TimeOfDay.SpelledParses | scylladb_client.py:176-178 | Completeness: an hour below 24, a minute below 60 and a second below 62, each in one or two digits and joined by ':', parse to that time. Any text after the seconds gives "unconverted data remains" with that text, provided a one-digit second is not followed by a digit. A second of 60 or 61 gives "second must be in 0..59". |
| TimeOfDay.CanonicalTrailing | scylladb_client.py:176-178 | A canonical "HH:MM:SS" followed by any non-empty text fails with "unconverted data remains" naming exactly that text. |
| TimeOfDay.HourTooLarge | scylladb_client.py:176-178 | Two leading digits that make an hour of 24 or more give "does not match format" for the whole string. |
| TimeOfDay.MinuteTooLarge | scylladb_client.py:176-178 | After a valid hour and ':', two digits that make a minute of 60 or more give "does not match format" for the whole string. |
| TimeOfDay.SecondTooLarge | scylladb_client.py:176-178 | After a valid hour and minute, two digits that make a second of 62 or more leave everything after the first digit unconverted. |
| Timestamps.DayStart | scylladb_client.py:190-191 | `today_start` is midnight on or before `now`. `now` lies in `[today_start, today_start + 1 day)`. |
| Timestamps.SameDay | scylladb_client.py:190-199 | Two instants have the same day start exactly when the second lies in the first one's day interval. |
| Timestamps.WholeSecond | scylladb_client.py:58 | The stored `creation_date` of a new activity is `now` truncated to a whole second. |
| Timestamps.CivilRange | scylladb_client.py:114 | The calendar date of any day count has a month in 1..12 and a day of the month in 1..31. |
| Timestamps.EpochDay | scylladb_client.py:114 | Day 0 is 1970-01-01. |
| Timestamps.LeapDay2000 | scylladb_client.py:114 | Day 11016 is 2000-02-29, a leap day of a year divisible by 400. |
| Timestamps.WholeSecondClock | scylladb_client.py:58 | Truncating an instant to the whole second leaves its clock time unchanged. |
| Timestamps.IsoDateShape | scylladb_client.py:114 | For years 1 to 9999 the date part is ten characters: four digits, '-', two digits, '-', two digits. |
| Timestamps.IsoShape | scylladb_client.py:114 | `isoformat()` of a stored timestamp, for years 1 to 9999: 19 characters "YYYY-MM-DDTHH:MM:SS" when the instant is a whole second, otherwise 26 with '.' and six fraction digits. The dashes, the 'T' and the digits are in place. Characters 11 to 18 are the instant's clock text. |
| Timestamps.WholeSecondIso | scylladb_client.py:58-114 | A row written at a whole second, as create_activity writes it, comes back with a creation date of exactly 19 characters. |
| Cql.RenderPlaceholders | scylladb_client.py:104-106 | When the table and column names contain no `%`, the rendered statement has exactly as many `%s` placeholders as parameters. |
| Cql.TextsConcat | scylladb_client.py:104-105 | The conditions and parameters of two clause lists are those of the first followed by those of the second. |
| Cql.FirstBadLiteral | scylladb_client.py:108-121 | The statement fails exactly when some parameter cannot be read as a literal of its column's type. The first such parameter, in parameter order, is reported. |
| Cql.FirstBadLiteralIsFirst | scylladb_client.py:108-121 | The reported value is the first unreadable parameter: it is parameter j of clause i, that parameter cannot be read, and every parameter before it, in clause order and then in order within its clause, can be read. |
| Cql.HoldsAllConcat | scylladb_client.py:105 | Conditions joined by AND: a row satisfies two lists together exactly when it satisfies each. |
| ScyllaDbClient.AppendEquals | scylladb_client.py:86-92 | Appending an equality filter adds "column = %s" and its value when the value is truthy, and nothing otherwise. |
| ScyllaDbClient.AppendDateCondition | scylladb_client.py:94-102 | Adds the date condition and its parameters: range, one-sided bound, or nothing. |
| ScyllaDbClient.FinishQuery | scylladb_client.py:104-106 | ` WHERE ` plus the conditions joined by ` AND ` only when there are conditions, then ` ALLOW FILTERING`. |
| ScyllaDbClient.BuildActivityQuery | scylladb_client.py:82-106 | The text and parameters built step by step are the rendering of get_activity's clause list. |
| ScyllaDbClient.BuildReportQuery | scylladb_client.py:230-258 | The same for get_daily_report. |
| ScyllaDbClient.UnfilteredActivityQuery | scylladb_client.py:82-106 | With every filter None or empty, the statement is exactly "SELECT * FROM activity ALLOW FILTERING" and there are no parameters. |
| ScyllaDbClient.UnfilteredReportQuery | scylladb_client.py:230-258 | With every filter None or empty, the statement is exactly "SELECT * FROM daily_report ALLOW FILTERING" and there are no parameters. |
| ScyllaDbClient.ActivityQueryPlaceholders | scylladb_client.py:86-106 | Every get_activity statement has as many `%s` as parameters. |
| ScyllaDbClient.ReportQueryPlaceholders | scylladb_client.py:234-258 | Every get_daily_report statement has as many `%s` as parameters. |
| ScyllaDbClient.ActivityQueryOrder | scylladb_client.py:86-102 | Conditions and parameters follow the same fixed order: username, status, date. Only truthy filters appear. |
| ScyllaDbClient.ReportQueryOrder | scylladb_client.py:234-254 | Conditions and parameters follow the order username, most_visited_hour, total, date. |
| ScyllaDbClient.DateRangeCondition | scylladb_client.py:94-96 | Both dates give the single condition "creation_date >= %s AND creation_date <= %s" with parameters [start, end], in that order. |
| ScyllaDbClient.DateBoundCondition | scylladb_client.py:97-102 | Only the start gives "creation_date >= %s" with [start]. Only the end gives "creation_date <= %s" with [end]. Neither gives no date condition. |
| ScyllaDbClient.DateClausesMeaning | scylladb_client.py:94-102 | The date condition holds exactly when each given bound is met inclusively. |
| ScyllaDbClient.ActivityClausesMeaning | scylladb_client.py:86-102 | A row satisfies get_activity's conditions exactly when it matches every given filter: username, status, inclusive date bounds. |
| ScyllaDbClient.ReportClausesMeaning | scylladb_client.py:234-254 | A report row satisfies get_daily_report's conditions exactly when it matches every given filter. The time filters compare against the stored TIME value read from the literal. |
| ScyllaDbClient.ShapeReportTimes | scylladb_client.py:262-271 | A report document carries both times as "HH:MM:SS" without fraction, and an absent time as None. |
| ScyllaDbClient.ValidRowShowsCanonical | scylladb_client.py:262-271 | A report row whose times are valid is shown with canonical "HH:MM:SS" texts, which upsert_daily_report accepts back. |
| ScyllaDbClient.CreatedActivityDoc | scylladb_client.py:109-118 | The document of a row written by create_activity carries its id, username and status, and a creation date of exactly 19 characters whose clock part is the clock of the instant of the call. |
| ScyllaDbClient.Scan | scylladb_client.py:109-118 | The store's scan returns one shaped document per row that satisfies the conditions, each row once. |
| ScyllaDbClient.ActivityHitsMeaning | scylladb_client.py:109-118 | The rows get_activity's statement selects are exactly the wanted rows, and all rows when no filter is given. |
| ScyllaDbClient.ReportHitsMeaning | scylladb_client.py:261-271 | The same for get_daily_report. |
| ScyllaDbClient.ToTime | scylladb_client.py:176-186 | A string gives exactly the result of parsing it as "%H:%M:%S", success or failure. A time value is taken unchanged. Any other value gives the ValueError message for that argument. |
| ScyllaDbClient.ReportTimes | scylladb_client.py:176-186 | most_visited_hour is converted before total. If it fails, its error is reported. If it succeeds and total fails, total's error is reported. Otherwise the result is the pair of the two converted times. |
| ScyllaDbClient.CanonicalReportTimes | scylladb_client.py:176-186 | Two canonical "HH:MM:SS" strings convert to the times they spell, and those times are shown again as the same strings. |
| ScyllaDbClient.Earliest | scylladb_client.py:194-208 | `rows[0]` of the day's select is the user's earliest row in the day interval. |
| ScyllaDbClient.EarliestUnique | scylladb_client.py:194-208 | Rows of one user have distinct creation dates, so the earliest row is unique. |
| ScyllaDbClient.UpsertUpdates | scylladb_client.py:201-210 | If the day has a row, only that row's two times change. Its id and creation_date are kept, no row is added, and every other row is untouched. |
| ScyllaDbClient.UpsertInserts | scylladb_client.py:211-217 | If the day has no row, exactly one row is added, at `today_start`, with the fresh id and the given times. All other rows are untouched. |
| ScyllaDbClient.UpsertKeepsOneRow | scylladb_client.py:190-217 | If the day has at most one row before an upsert, it has exactly one row after it, holding the upserted times. |
| ScyllaDbClient.UpsertTwice | scylladb_client.py:190-217 | After two upserts on the same day there is exactly one row for that user and day, and it holds the second call's values. |
| ScyllaDbClient.UpsertKeepsOnePerDay | scylladb_client.py:190-217 | The table invariant: if every user has at most one row per day before an upsert for today, this still holds after it, for every user and every day. |
| ScyllaDbClient.OnePerDayAllowsUpsertTwice | scylladb_client.py:190-217 | On a table that keeps the invariant, two upserts on one day keep the invariant and leave exactly one row for that user and day, holding the second call's times. |
| ScyllaDbClient.NewestUnique | scylladb_client.py:123-136 | A user's newest row is unique, because a user's rows have distinct creation dates. |
| ScyllaDbClient.CreatedIsNewest | scylladb_client.py:52-63 | create_activity then get_last_activity: if no row of the user is later than the new row, the new row is the user's only newest row and carries the status just written. |
| ScyllaDbClient.LaterRowWins | scylladb_client.py:123-136 | If the user already has a row later than the truncated `now`, the row just created is not the newest. |
| ScyllaDbClient.UpsertKeepsTimesValid | scylladb_client.py:176-217 | Upserting valid times keeps every stored time a valid time of day. |
| ScyllaDbClient.UpsertKeepsInvariants | scylladb_client.py:190-217 | An upsert of valid times for the current day keeps both table invariants: at most one row per user and day, and only valid times stored. |
| ScyllaDbClient.Client.constructor | scylladb_client.py:9-18 | A client over tables that already hold the given rows. |
| ScyllaDbClient.Client.CreateActivity | scylladb_client.py:52-63 | Writes the row `(id, status)` at `(username, now truncated to the second)`. Nothing else changes. |
| ScyllaDbClient.Client.GetActivity | scylladb_client.py:66-121 | Fails with "Ошибка выполнения запроса: …" when some parameter is not a readable literal. Otherwise returns the wanted rows, each once, shaped as documents, and all rows when no filter is given. |
| ScyllaDbClient.Client.GetDailyReport | scylladb_client.py:220-274 | The same for the report table. When every stored time is valid, every returned time text is canonical "HH:MM:SS". |
| ScyllaDbClient.Client.GetLastActivity | scylladb_client.py:123-151 | At most one document. None exactly when the user has no rows. Otherwise the user's row with the greatest creation_date. |
| ScyllaDbClient.Client.FirstRowOfDay | scylladb_client.py:194-199 | The day's select: none exactly when the user has no row in `[start, end)`, otherwise the earliest one. |
| ScyllaDbClient.Client.WriteDay | scylladb_client.py:189-217 | The day's select, then the update of its earliest row or the insert at the day start. The report table becomes the upserted one and the activity table is unchanged. |
| ScyllaDbClient.Client.UpsertDailyReport | scylladb_client.py:167-218 | A conversion error is returned before any store access, and both tables are unchanged. Otherwise the report table becomes the upserted one for `DayStart(now)`. The activity table never changes. The one-row-per-user-and-day invariant is preserved, and so is the invariant that every stored time is valid. |
| Dispatcher.Namespace | functions.py:39-124 | Every name defined in the class body or set on the instance is an attribute of the object. |
| Dispatcher.AttributesOfObject | functions.py:74-110 | The object's `upsert_daily_report` is the later definition. It is the only entry for that name. |
| Dispatcher.BuildRegistry | functions.py:9-13 | The registration loop yields the registry of the tagged attributes, visited in `dir` order. |
| Dispatcher.RegisteredTags | functions.py:11-13 | Every registry key is the `_action_name` of some decorated attribute, and maps to that attribute's handler. |
| Dispatcher.RegistryIsActionTable | functions.py:9-124 | The registry built at construction is exactly the five actions, each mapped to its handler. The duplicated `upsert_daily_report` gives one entry. |
| Dispatcher.ActionTableKeys | functions.py:39-124 | The registry's key set is exactly {create_document, get_document, get_last_document, upsert_daily_report, get_daily_report}. |
| Dispatcher.Route | functions.py:19-25 | A missing or empty `action` gives "Поле 'action' обязательно.". An unregistered action gives an error that contains the action string. A registered action selects its handler. |
| Dispatcher.RequireAll | functions.py:68-89 | Succeeds exactly when every field is present and non-empty, returning the values in order. Otherwise reports the first missing field. |
| Dispatcher.UpsertFieldOrder | functions.py:79-89 | upsert_daily_report checks username, then most_visited_hour, then total. The first missing one is reported. |
| Dispatcher.CreateArgs | functions.py:44-47 | create_document accepts exactly when both username and status are present and non-empty. Otherwise it gives the fixed validation message. |
| Dispatcher.CreatedMessage | functions.py:49 | The success message contains the username. |
| Dispatcher.Functions.constructor | functions.py:2-13 | A new object holds the client and the five-entry registry. |
| Dispatcher.Functions.CreateDocument | functions.py:39-49 | On a validation error, the error and no store write. Otherwise one activity row written and the message naming the user. |
| Dispatcher.Functions.GetDocument | functions.py:51-61 | Forwards the request's four filter fields unchanged and returns the client's answer verbatim. |
| Dispatcher.Functions.GetLastDocument | functions.py:63-72 | Without a username, the error, with the store not consulted. Otherwise at most one document: the user's newest activity. |
| Dispatcher.Functions.UpsertDailyReport | functions.py:74-110 | A missing field is reported with no store read or write. Otherwise the client's upsert runs on the two strings and the reply is None. |
| Dispatcher.Functions.GetDailyReport | functions.py:112-124 | Forwards the request's five filter fields unchanged and returns the client's answer verbatim. |
| Dispatcher.Functions.HandleRequest | functions.py:15-27 | A routing error runs no handler and leaves the store unchanged. Otherwise the routed handler's outcome is the reply. Every request preserves the one-row-per-user-and-day invariant of daily_report and the invariant that its stored times are valid, so both hold across any sequence of requests. |

## Left out

- The Cassandra driver is replaced by the in-memory tables and the scan
  over them. Also left out:
  - `Cluster`, `connect`, `set_keyspace` and `close`;
  - the keyspace and table DDL (scylladb_client.py:20-50), except the
    primary keys and the clustering orders that the model relies on.
- `create_daily_report` (scylladb_client.py:153-165) is not modelled.
  It is dead code that no handler calls. It writes into `activity` and
  passes two parameters for three placeholders.
- The `print` calls (scylladb_client.py:64, 210, 218) only write to the
  console.
- zeromq_server.py and client_example.py are socket I/O and are not part
  of this model. The server's conversion of any exception into
  `{"error": ...}` corresponds to the `Err` of a `Result`.
- Concurrency is not modelled: one request is handled at a time, so the
  race between the upsert's read and its write is out of scope.
- `datetime.now()` and `uuid()` are parameters.
- Time zones are not modelled. Stored timestamps and `now` are taken to
  be on one clock. The driver's handling of naive datetimes as UTC is
  not part of this model.
- Request values are strings only. JSON numbers, booleans, lists and
  objects as field values are not modelled. A JSON null is the same as
  an absent field for every handler, since `request.get` returns None
  either way.
- The model assumes Python 3.10 or later. The class body calls
  `@action(...)` on a `staticmethod` object, and `staticmethod` objects
  can be called only from 3.10. Earlier versions raise `TypeError` when
  the class is defined.
- `dir(self)` also lists the attributes inherited from `object`. None of
  them is callable with an `_action_name`, so they are not listed.
- ParseTime: matches ASCII digits only. Python's `\d` also matches other
  Unicode decimal digits.
- ParseTime: the "does not match" message pastes the input between `'`
  quotes as it is. Python formats it with `%r`, that is the string's
  `repr`. `repr` switches to `"` quotes for text that contains `'` and
  no `"`. It also doubles backslashes and escapes tabs, newlines and other
  non-printable characters. For such input the model's message differs
  from Python's.
- Client.GetActivity: the store's own error text is represented by the
  literal it could not read. Store failures other than an unreadable
  literal (timeouts, unavailable nodes) are not modelled.
- Client.GetActivity and Client.GetDailyReport: the order of the returned
  documents is not stated. The store returns partitions in token order,
  which this model does not compute.
- ScyllaDbClient.Literals: the store's grammar for timestamp and time
  literals is a parameter, not a definition.
- Timestamps.IsoFormat: follows `isoformat()` for years 1 to 9999, the
  range of Python's `datetime`. Timestamps outside that range are not
  excluded. IsoShape and WholeSecondIso assume a year in that range.
- ScyllaDbClient.TimeArg: a `datetime.time` value is any valid time of
  day to the nanosecond. Python's time values stop at microseconds.
