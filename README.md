# Flight monitoring: ingestion, reconciliation and queries

This project models, in Dafny, the core of the EU flight monitoring system. It has two parts.

The collector's ingestion pipeline (`flight_data_collector.py`) takes one batch of flight observations from the feed:
- it resolves each observation's airline and airports by IATA code, creating rows when absent;
- it resolves the flight by (flight number, scheduled departure);
- it classifies the status from the departure delay;
- it inserts or overwrites the flight's single status row;
- it commits the whole batch, or rolls it back when any observation raises.

The monitor's delayed-flight query belongs to the same file.

The read-side queries of the HTTP API (`flight_api.py`) are:
- the filtered flight list;
- the delayed-flight list, sorted by delay;
- the details of one flight.

The database is an abstract store: four tables, each a sequence of rows in insertion order, plus one id counter per table. The counters stand in for AUTO_INCREMENT and `cursor.lastrowid`. MySQL fixes no row order for a query without ORDER BY; the model lists rows in table order. The cursors are unbuffered: `fetchone` reads one row ahead, and a second matching row left unread makes the next statement on the connection, or the closing of the cursor, raise. The collector's point lookups return the first match, which is the only one wherever the invariant `Valid` below holds. The details endpoint fails when a second row matches (see `Api.GetFlightDetails`).

Modules:
- `Wrappers` and `Seqs` (seqs.dfy): the option type, first-match search, counting and filtering.
- `Store` (store.dfy):
  - the schema, the lookups and the per-table counts;
  - the consistency invariant `Valid`: ids below their counter and distinct, business keys unique, references resolve, at most one status row per flight;
  - the joined view that every query reads.
- `Reconcile` (reconcile.dfy): the collector's steps as functions over database values. These are the specification that the collector class is proved against.
- `ReconcileProofs`, `BatchProofs` and `Idempotence` (reconcile_proofs.dfy, batch_proofs.dfy, idempotence.dfy): the properties of those functions.
  - Every step keeps `Valid`, and every key ends with exactly one row.
  - The last write wins.
  - A batch commits exactly when every observation reads cleanly.
  - Ingesting the same batch a second time changes no row; after a commit, it changes nothing at all.
- `Collector` (collector.dfy):
  - the class `Database`, whose methods update its tables in place, as the cursor does;
  - each method is proved to produce exactly the state the matching `Reconcile` function describes;
  - the batch method is a loop over the observations, with a snapshot for the rollback;
  - the monitor's delayed-flight filter.
- `JoinFacts` (join.dfy): the join of a consistent database drops no flight, and each status row appears with its flight.
- `Api` (api.dfy):
  - WHERE clauses built by appending conditions and bound parameters, as the source does;
  - the three endpoints;
  - their soundness, completeness, ordering and not-found properties.

Calls into code outside the model are parameters:
- `parse: string -> Option<Timestamp>` stands for `datetime.fromisoformat(s.replace('Z', '+00:00'))`, followed by the connector's conversion of the result to a DATETIME value. None means the parse raised. A `Timestamp` is the value the column stores: the wall-clock fields, with the UTC offset dropped. So "08:00Z" and "10:00+02:00" on one day are two different flight keys, as they are in the table.
- `sameDay: (Timestamp, string) -> bool` stands for the SQL comparison `DATE(...) = %s`. MySQL converts the text parameter to a date first, so "2025-3-21" matches as well as "2025-03-21".
- `connected: bool` says whether the database connection succeeded.

The model follows what the code does, including where one might expect otherwise:
- The collector never writes `Cancelled`. The status is `Delayed` exactly when the departure delay is above 0, and `On Time` otherwise, negative delays included. No non-negativity of delays is enforced.
- The status UPDATE leaves `delay_reason` as it was. A newly inserted status row has no delay reason.
- The resolvers do no conflict-safe re-read after a failed insert. They look up, then insert.
- A failed batch is rolled back whole. No observation is skipped on its own.
- The details endpoint answers not-found (HTTP 404) rather than an empty result.

## Model

| member | source | states |
|---|---|---|
| `Reconcile.ResolveAirline` | flight_data_collector.py:80-98 | If the IATA code is present, the database is unchanged and the id of the first row with that code is returned. If absent, exactly one row (name, iata, icao) is appended under the next airline id, and the counter advances. No other table changes. |
| `Reconcile.ResolveAirport` | flight_data_collector.py:100-114 | Same get-or-create by IATA code. A new airport gets the observation's name and "Unknown" as country and city. |
| `Reconcile.ResolveFlight` | flight_data_collector.py:138-157 | Lookup by (number, scheduled departure). If found, nothing changes: the airline, airports and scheduled arrival stay. Otherwise one flight row with the resolved ids is appended under the next flight id. |
| `Reconcile.Classify` | flight_data_collector.py:162-164 | The status is Delayed iff the departure delay is > 0, and On Time iff it is <= 0. |
| `Reconcile.Overwrite` | flight_data_collector.py:172-178 | The UPDATE sets actual departure, actual arrival, status and delay. It keeps the id, the flight and the delay reason. |
| `Reconcile.UpdateStatus` | flight_data_collector.py:172-178 | Every row of the flight is overwritten; every other row is unchanged; the length is kept. |
| `Reconcile.UpsertStatus` | flight_data_collector.py:166-189 | If the flight has a status row, it is updated in place and the counters stay. Otherwise one row is appended under the next status id, with the reading's values and no delay reason. Only the status table and its counter change. |
| `Reconcile.Validate` | flight_data_collector.py:127-162 | Some iff all 13 fields the collector reads are present and all 4 timestamps parse. Its values are those fields: the airline's name, IATA and ICAO codes, both airports' names and codes, the flight number, the delay, and the 4 parsed times. |
| `Reconcile.ProcessObservation` | flight_data_collector.py:125-189 | The loop body as written: resolver by resolver, in the source's order of reads and writes. The first missing field or unparsable time raises, leaving the writes already made. The id counters never decrease. |
| `Reconcile.Record` | flight_data_collector.py:127-189 | All writes of a cleanly read observation: the airline, both airports, the flight, then the status upsert. The id counters never decrease. |
| `Reconcile.RunBatch` | flight_data_collector.py:124-193 | The observations of a batch in feed order, stopping at the first that raises. The id counters never decrease. |
| `Reconcile.Ingest` | flight_data_collector.py:116-200 | Without a connection, nothing changes and NotConnected is reported. On a rollback (missing data list, or a raise), the tables are those of before. On a commit, the count is the batch length and the state is the completed batch run. It commits iff the batch runs to the end. |
| `ReconcileProofs.AtMostOnePerKey` | flight_data_collector.py:87-189 | In a consistent database every airline code, airport code, flight key and flight's status has at most one row. |
| `ReconcileProofs.ResolveAirlineEffect` | flight_data_collector.py:87-98 | Afterwards the database is consistent and exactly one airline row has the code. The returned id is that row's id. A created id was not in use before. Existing ids survive. |
| `ReconcileProofs.ResolveAirportEffect` | flight_data_collector.py:102-114 | Afterwards the database is consistent and exactly one airport has the code. A created airport is fresh, with country and city "Unknown". |
| `ReconcileProofs.ResolveFlightEffect` | flight_data_collector.py:138-157 | Given existing airline and airport ids, the database stays consistent, references included. Exactly one flight has the key, and the returned id is its id. |
| `ReconcileProofs.UpdateExistingStatus` | flight_data_collector.py:170-178 | An existing status row stays in place with Overwrite applied, and every other row is unchanged. |
| `ReconcileProofs.InsertNewStatus` | flight_data_collector.py:179-189 | A flight without a status gets one appended row holding the reading, with no delay reason. Every other row is unchanged. |
| `ReconcileProofs.UpsertStatusEffect` | flight_data_collector.py:166-189 | Afterwards the database is consistent and exactly one status row exists for the flight, holding the reading. An old row keeps its id and delay reason. Other flights' rows are unchanged. |
| `ReconcileProofs.LastWriteWins` | flight_data_collector.py:166-189 | Two upserts for the same flight equal the second alone. |
| `BatchProofs.ProcessIsRecord` | flight_data_collector.py:127-189 | An observation completes iff it reads and parses cleanly. It then performs exactly the resolver chain and the upsert. |
| `BatchProofs.RecordEffect` | flight_data_collector.py:127-189 | After a clean observation the database is consistent, each of its codes and its flight key has exactly one row, and the flight's single status row holds the reading. |
| `BatchProofs.ProcessObservationValid` | flight_data_collector.py:125-189 | Processing an observation, completed or raised midway, keeps the database consistent. |
| `BatchProofs.RunBatchValid` | flight_data_collector.py:125-189 | Every state a batch passes through is consistent. |
| `BatchProofs.RaisedSticks` | flight_data_collector.py:124-197 | After the first raise, the rest of the batch is not processed. |
| `BatchProofs.RunBatchOkIff` | flight_data_collector.py:124-193 | A batch runs to the commit iff every one of its observations reads and parses cleanly, whatever the database holds. |
| `BatchProofs.IngestValid` | flight_data_collector.py:116-200 | Commit, rollback and a failed connection all leave a consistent database. |
| `BatchProofs.RecordTwice` | flight_data_collector.py:127-189 | Recording the same clean observation twice equals recording it once. |
| `Idempotence.RunBatchIsRecordAll` | flight_data_collector.py:125-189 | A clean batch performs exactly the writes of its observations, in feed order. |
| `Idempotence.FirstRun` | flight_data_collector.py:125-189 | After a batch, every observation's keys resolve to rows, and each flight's status holds the last reading the batch wrote for it. |
| `Idempotence.BatchIdempotent` | flight_data_collector.py:124-193 | Running a committed batch again on the database it produced succeeds and changes nothing. |
| `Idempotence.IngestTwice` | flight_data_collector.py:116-200 | A second identical ingest gives the same report and the same rows. After a commit it changes nothing at all. |
| `Collector.Database.ProcessAirline` | flight_data_collector.py:80-98 | A missing name, IATA or ICAO field raises with nothing written. Otherwise the new state and id are those of ResolveAirline. Consistency is kept. |
| `Collector.Database.ProcessAirport` | flight_data_collector.py:100-114 | The new state and id are those of ResolveAirport. Consistency is kept. |
| `Collector.Database.ProcessFlightRow` | flight_data_collector.py:137-157 | The new state and id are those of ResolveFlight. |
| `Collector.Database.ProcessStatus` | flight_data_collector.py:166-189 | The new state is that of UpsertStatus. |
| `Collector.Database.ProcessFlight` | flight_data_collector.py:125-189 | The loop body: it completes or raises exactly as ProcessObservation does, and leaves the same state, with the writes made before a raise left in the transaction. |
| `Collector.Database.Rollback` | flight_data_collector.py:195-197 | The tables become the snapshot's; the counters keep the ids that were consumed. |
| `Collector.Database.ProcessFlightData` | flight_data_collector.py:116-200 | The report and new state are exactly those of Ingest. This is proved by loop invariants relating the processed prefix to RunBatch from the snapshot. Consistency is kept. |
| `Collector.MonitorDelayedFlights` | flight_data_collector.py:211-221 | The rows reported are exactly the joined rows whose status records a delay > 120 minutes, and there are no more of them than joined rows. |
| `Collector.MonitorSound` | flight_data_collector.py:211-221 | Each reported row is a flight of the database. Its status row is in the table, belongs to it and records a delay > 120 minutes. |
| `Collector.MonitorComplete` | flight_data_collector.py:211-221 | In a consistent database every status row with a delay > 120 is reported, with its flight. |
| `JoinFacts.JoinedTotal` | flight_api.py:90-94 | In a consistent database the inner joins on airline and airports drop no flight: one joined row per flight, in table order. |
| `Api.BuildFlightsQuery` | flight_api.py:98-118 | One condition and one parameter for each non-empty filter and no others. The k-th parameter is the value of the k-th condition's filter. Conditions are in appending order: departure, arrival, airline, date, status. |
| `Api.ClauseMeaning` | flight_api.py:98-118 | The fully built clause holds each given filter exactly once, in rank order, bound to its own value, and nothing else. |
| `Api.WhereMeansFilters` | flight_api.py:95-121 | The built WHERE clause holds of a row iff every given filter holds of it. |
| `Api.FlightsMatching` | flight_api.py:90-121 | The rows are exactly the LEFT-joined rows that satisfy every given filter, and there are no more of them than joined rows. |
| `Api.GetFlights` | flight_api.py:66-129 | The rows are the LEFT-joined rows satisfying every given filter, in table order. The count is their number. |
| `Api.UnfilteredListsEveryFlight` | flight_api.py:90-96 | With no filter, every flight of a consistent database is listed, flights without a status row included. |
| `Api.MoreFiltersFewerFlights` | flight_api.py:100-118 | Adding filters never adds a row: every row listed is also listed with fewer filters. |
| `Api.StatusFilterNeedsStatus` | flight_api.py:114-116 | Under a status filter every listed row has a status row with that label. Flights with no status are excluded. |
| `Api.InsertByDelay` | flight_api.py:163 | Inserting into a delay-descending list keeps it descending, and adds exactly that row. |
| `Api.SortByDelay` | flight_api.py:163 | The result has non-increasing delay and is a permutation of the input. |
| `Api.ThresholdMinutes` | flight_api.py:140-166 | The threshold is hours * 60 minutes. Without `hours` it is 120, the monitor's threshold. |
| `Api.GetDelayedFlights` | flight_api.py:137-179 | The rows listed are the joined rows with a status row whose delay exceeds hours*60, with hours defaulting to 2. Each appears as often as in the join: the multiset equals the filtered join. They are in non-increasing delay, and the count is their number. The reported minimum is the `hours` given, or 2. |
| `Api.DelayedComplete` | flight_api.py:156-166 | In a consistent database every status row whose delay exceeds the threshold is listed, with its flight. |
| `Api.DefaultMatchesMonitor` | flight_api.py:140 | Without `hours`, the endpoint lists the same rows as the collector's monitor, as a multiset. |
| `Api.BuildDetailsQuery` | flight_api.py:214-221 | The clause is the flight number, followed by the date only when a non-empty date is given; the parameters match. |
| `Api.GetFlightDetails` | flight_api.py:187-239 | Not found iff no joined row has the number (and the date, when given). Failed (HTTP 500) iff at least two joined rows have them: the row read ahead is left unread and closing the cursor raises. Otherwise, the one such row. |
| `Api.FetchDetails` | flight_api.py:214-227 | The details query over the joined rows, through the built clause: not found iff no row is selected, failed iff two are, and otherwise the one selected row, which is also the first. |
| `Api.FailedIffSeveralFlights` | flight_api.py:214-239 | In a consistent database, the endpoint fails iff two flight rows have the number (and date), such as one flight number on two days with no date given. |
| `Api.NotFoundIffNoFlight` | flight_api.py:214-227 | In a consistent database, not found iff no flight row has the number (and date). |

## Left out

- The MySQL connector, the connection settings and environment loading. A connection failure is the `connected` input, and the store is abstract.
- The API's HTTP 500 answer when the connection fails: the queries are modelled on a reachable database.
- `fetch_flight_data` and its mock feed. The batch is an input sequence of observations, and a response without a `data` list is the None input.
- Flask routing, `jsonify`, logging, the error handlers, printing, `main` and `time.sleep`. These are input and output only. Only the result and not-found distinction of the endpoints is kept.
- Timestamp parsing and SQL `DATE(...)`. Both are library date handling, given as the `parse` and `sameDay` parameters.
- The ISO formatting of result timestamps in the endpoints: it is output formatting.
- The column lists the queries select. A result row is the whole joined row (`View`).
- A commit that fails, and concurrent batches. Concurrency is out of scope, and the source has no retry or re-read logic.
- Missing fields and JSON null. Both are modelled as missing, so they raise. In Python a null airline or airport name, or a null IATA code, would be written as NULL instead of raising.
- MySQL collation. Text comparisons in lookups and filters are exact; MySQL's default collation compares case-insensitively and ignores trailing spaces.
- `Reconcile.Ingest`: after a rollback the tables are restored but the id counters are not. This models AUTO_INCREMENT, whose values consumed by a rolled-back transaction are not reused. So "the store equals the store before" is stated for the rows (`SameRows`), not for the counters.
- `Api.GetFlights`, `Api.GetDelayedFlights` and `Collector.MonitorDelayedFlights`: the row order is the model's choice. For the flight list and the monitor, MySQL fixes no order; the model uses table order. For equal delays in the delayed list, MySQL fixes no order either.
- `Reconcile.ResolveAirline`, `Reconcile.ResolveAirport`, `Reconcile.ResolveFlight` and `Reconcile.UpsertStatus`: on a database with two rows for one key, the source's next statement would raise on the unread second row, and the batch would roll back. The model takes the first row instead. `Valid`, which holds of the empty schema and is kept by every collector operation, rules such a database out.
- `Api.SortByDelay`: the query fixes no order among equal delays. The model keeps table order among them, and only non-increasing delay and the permutation are claimed of the query.
- `Store.ViewOf`: a flight with several status rows would join once per status row in SQL, while the model joins it with its first. The invariant `Valid`, kept by every collector operation, rules out a second status row.
- `Api.GetDelayedFlights`: the `minimum_delay` text is modelled as the number of hours, not the formatted string.
- The hours parameter: a value that is not an integer is modelled as absent, as Flask then uses the default.
