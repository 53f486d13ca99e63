/** What one run of the collector does to the database, stated as functions
    over database values: the get-or-create resolvers for airlines and
    airports, flight identity resolution, status classification and upsert,
    the processing of one feed observation, and the batch with its
    all-or-nothing commit. The class in module Collector performs the same
    steps by updating its tables in place and is proved equal to these
    functions. */
module Reconcile {
  import opened Wrappers
  import opened Store

  // ---------------------------------------------------------------------
  // Feed observations. Every field may be missing: reading a missing field
  // raises inside the batch.
  // ---------------------------------------------------------------------

  datatype AirlineInfo = AirlineInfo(name: Option<string>, iata: Option<string>, icao: Option<string>)
  datatype Endpoint = Endpoint(
    airport: Option<string>, iata: Option<string>,
    scheduled: Option<string>, actual: Option<string>, delay: Option<int>)
  datatype FlightInfo = FlightInfo(iata: Option<string>)
  datatype Observation = Observation(
    flight: Option<FlightInfo>, airline: Option<AirlineInfo>,
    departure: Option<Endpoint>, arrival: Option<Endpoint>)

  /** Timestamp parsing followed by the conversion the connector applies
      when it writes the value: None when parsing raises, otherwise the
      DATETIME value the column receives (wall-clock fields, offset dropped). */
  type Parser = string -> Option<Timestamp>

  /** Parsing a field that may be missing; None means the read raised. */
  function ParseField(field: Option<string>, parse: Parser): (r: Option<Timestamp>)
    ensures r.Some? ==> field.Some? && parse(field.value) == r
    ensures field.Some? && parse(field.value).Some? ==> r.Some?
  {
    if field.None? then None else parse(field.value)
  }

  /** The result of processing: the database as the transaction left it,
      either after the last step or at the moment something raised. */
  datatype Outcome = Ok(db: Db) | Raised(db: Db)

  // ---------------------------------------------------------------------
  // Resolvers.
  // ---------------------------------------------------------------------

  /** Get-or-create an airline by IATA code. An existing row is returned
      untouched (the first writer's name and ICAO code win); otherwise one
      row is appended under the next airline id. */
  function ResolveAirline(db: Db, name: string, iata: string, icao: string): (r: (Db, nat))
    ensures r.0 == db.(airlines := r.0.airlines, next := db.next.(airline := r.0.next.airline))
    ensures AirlineByCode(db.airlines, iata).Some? ==>
      r.0 == db && r.1 == db.airlines[AirlineByCode(db.airlines, iata).value].id
    ensures AirlineByCode(db.airlines, iata).None? ==>
      r.0.airlines == db.airlines + [AirlineRow(r.1, name, iata, icao)] &&
      r.1 == db.next.airline && r.0.next.airline == r.1 + 1
  {
    match AirlineByCode(db.airlines, iata)
    case Some(i) => (db, db.airlines[i].id)
    case None =>
      var id := db.next.airline;
      (db.(airlines := db.airlines + [AirlineRow(id, name, iata, icao)],
           next := db.next.(airline := id + 1)), id)
  }

  /** The country and city of an airport created from a feed observation. */
  const UnknownPlace: string := "Unknown"

  /** Get-or-create an airport by IATA code; a new airport gets the name
      from the observation and "Unknown" as country and city. */
  function ResolveAirport(db: Db, name: string, iata: string): (r: (Db, nat))
    ensures r.0 == db.(airports := r.0.airports, next := db.next.(airport := r.0.next.airport))
    ensures AirportByCode(db.airports, iata).Some? ==>
      r.0 == db && r.1 == db.airports[AirportByCode(db.airports, iata).value].id
    ensures AirportByCode(db.airports, iata).None? ==>
      r.0.airports == db.airports + [AirportRow(r.1, name, iata, "Unknown", "Unknown")] &&
      r.1 == db.next.airport && r.0.next.airport == r.1 + 1
  {
    match AirportByCode(db.airports, iata)
    case Some(i) => (db, db.airports[i].id)
    case None =>
      var id := db.next.airport;
      (db.(airports := db.airports + [AirportRow(id, name, iata, UnknownPlace, UnknownPlace)],
           next := db.next.(airport := id + 1)), id)
  }

  /** Get-or-create a flight by (number, scheduled departure). An existing
      flight keeps its airline, airports and scheduled arrival. */
  function ResolveFlight(db: Db, number: string, airlineId: nat, departureId: nat, arrivalId: nat,
                         departure: Timestamp, arrival: Timestamp): (r: (Db, nat))
    ensures r.0 == db.(flights := r.0.flights, next := db.next.(flight := r.0.next.flight))
    ensures FlightByKey(db.flights, number, departure).Some? ==>
      r.0 == db && r.1 == db.flights[FlightByKey(db.flights, number, departure).value].id
    ensures FlightByKey(db.flights, number, departure).None? ==>
      r.0.flights == db.flights + [FlightRow(r.1, number, airlineId, departureId, arrivalId, departure, arrival)] &&
      r.1 == db.next.flight && r.0.next.flight == r.1 + 1
  {
    match FlightByKey(db.flights, number, departure)
    case Some(i) => (db, db.flights[i].id)
    case None =>
      var id := db.next.flight;
      (db.(flights := db.flights + [FlightRow(id, number, airlineId, departureId, arrivalId, departure, arrival)],
           next := db.next.(flight := id + 1)), id)
  }

  // ---------------------------------------------------------------------
  // Status classification and upsert.
  // ---------------------------------------------------------------------

  /** Classification from the departure delay alone. */
  function Classify(delayMinutes: int): (st: FlightStatus)
    ensures st == Delayed <==> delayMinutes > 0
    ensures st == OnTime <==> delayMinutes <= 0
  {
    if delayMinutes > 0 then Delayed else OnTime
  }

  /** The values one observation writes into a flight's status row. */
  datatype Reading = Reading(actualDeparture: Timestamp, actualArrival: Timestamp, delayMinutes: int)

  /** A status row after the UPDATE: the four written columns take the
      reading's values; id, flight and delay reason stay. */
  function Overwrite(row: StatusRow, x: Reading): (r: StatusRow)
    ensures r.id == row.id && r.flightId == row.flightId && r.delayReason == row.delayReason
    ensures r.actualDeparture == x.actualDeparture && r.actualArrival == x.actualArrival
    ensures r.delayMinutes == x.delayMinutes && r.status == Classify(x.delayMinutes)
  {
    row.(actualDeparture := x.actualDeparture, actualArrival := x.actualArrival,
         status := Classify(x.delayMinutes), delayMinutes := x.delayMinutes)
  }

  /** UPDATE flight_status SET ... WHERE flight_id = %s: every row of the
      flight is overwritten, every other row is left alone. */
  function UpdateStatus(rows: seq<StatusRow>, flightId: nat, x: Reading): (r: seq<StatusRow>)
    ensures |r| == |rows|
    ensures forall i :: 0 <= i < |rows| && rows[i].flightId == flightId ==> r[i] == Overwrite(rows[i], x)
    ensures forall i :: 0 <= i < |rows| && rows[i].flightId != flightId ==> r[i] == rows[i]
  {
    seq(|rows|, i requires 0 <= i < |rows| =>
      if rows[i].flightId == flightId then Overwrite(rows[i], x) else rows[i])
  }

  /** Update the flight's status row if there is one, otherwise insert one
      (with no delay reason) under the next status id. */
  function UpsertStatus(db: Db, flightId: nat, x: Reading): (r: Db)
    ensures r == db.(statuses := r.statuses, next := db.next.(status := r.next.status))
    ensures StatusOfFlight(db.statuses, flightId).Some? ==>
      r.statuses == UpdateStatus(db.statuses, flightId, x) && r.next == db.next
    ensures StatusOfFlight(db.statuses, flightId).None? ==>
      r.statuses == db.statuses + [StatusRow(db.next.status, flightId, x.actualDeparture, x.actualArrival,
                                             Classify(x.delayMinutes), x.delayMinutes, None)] &&
      r.next.status == db.next.status + 1
  {
    match StatusOfFlight(db.statuses, flightId)
    case Some(_) => db.(statuses := UpdateStatus(db.statuses, flightId, x))
    case None =>
      var id := db.next.status;
      db.(statuses := db.statuses + [StatusRow(id, flightId, x.actualDeparture, x.actualArrival,
                                               Classify(x.delayMinutes), x.delayMinutes, None)],
          next := db.next.(status := id + 1))
  }

  // ---------------------------------------------------------------------
  // One observation, in the order the collector reads and writes.
  // ---------------------------------------------------------------------

  /** Processing one observation: resolve the airline, the departure and
      arrival airports, parse the scheduled times, resolve the flight, parse
      the actual times, read the departure delay and upsert the status. The
      first missing field or unparsable time raises, leaving the writes made
      so far in the (not yet committed) transaction. */
  function ProcessObservation(db: Db, o: Observation, parse: Parser): (r: Outcome)
    ensures r.db.next.airline >= db.next.airline && r.db.next.airport >= db.next.airport
    ensures r.db.next.flight >= db.next.flight && r.db.next.status >= db.next.status
  {
    if o.airline.None? || o.airline.value.name.None? || o.airline.value.iata.None? || o.airline.value.icao.None?
    then Raised(db)
    else
      var al := o.airline.value;
      var (db1, airlineId) := ResolveAirline(db, al.name.value, al.iata.value, al.icao.value);
      if o.departure.None? || o.departure.value.airport.None? || o.departure.value.iata.None?
      then Raised(db1)
      else
        var dep := o.departure.value;
        var (db2, departureId) := ResolveAirport(db1, dep.airport.value, dep.iata.value);
        if o.arrival.None? || o.arrival.value.airport.None? || o.arrival.value.iata.None?
        then Raised(db2)
        else
          var arr := o.arrival.value;
          var (db3, arrivalId) := ResolveAirport(db2, arr.airport.value, arr.iata.value);
          var scheduledDeparture := ParseField(dep.scheduled, parse);
          var scheduledArrival := ParseField(arr.scheduled, parse);
          if scheduledDeparture.None? || scheduledArrival.None? || o.flight.None? || o.flight.value.iata.None?
          then Raised(db3)
          else
            var (db4, flightId) := ResolveFlight(db3, o.flight.value.iata.value, airlineId, departureId, arrivalId,
                                                 scheduledDeparture.value, scheduledArrival.value);
            var actualDeparture := ParseField(dep.actual, parse);
            var actualArrival := ParseField(arr.actual, parse);
            if actualDeparture.None? || actualArrival.None? || dep.delay.None?
            then Raised(db4)
            else
              Ok(UpsertStatus(db4, flightId, Reading(actualDeparture.value, actualArrival.value, dep.delay.value)))
  }

  /** The fields of an observation the collector reads, read and parsed. */
  datatype Parsed = Parsed(
    airlineName: string, airlineIata: string, airlineIcao: string,
    departureName: string, departureIata: string,
    arrivalName: string, arrivalIata: string,
    number: string, scheduledDeparture: Timestamp, scheduledArrival: Timestamp,
    reading: Reading)

  /** Reads every field the collector reads; None when any read would raise. */
  function Validate(o: Observation, parse: Parser): (r: Option<Parsed>)
    ensures r.Some? <==>
      && o.airline.Some? && o.airline.value.name.Some? && o.airline.value.iata.Some? && o.airline.value.icao.Some?
      && o.departure.Some? && o.departure.value.airport.Some? && o.departure.value.iata.Some?
      && o.arrival.Some? && o.arrival.value.airport.Some? && o.arrival.value.iata.Some?
      && o.flight.Some? && o.flight.value.iata.Some? && o.departure.value.delay.Some?
      && ParseField(o.departure.value.scheduled, parse).Some? && ParseField(o.arrival.value.scheduled, parse).Some?
      && ParseField(o.departure.value.actual, parse).Some? && ParseField(o.arrival.value.actual, parse).Some?
    ensures r.Some? ==>
      && o.airline.value.name == Some(r.value.airlineName)
      && o.airline.value.iata == Some(r.value.airlineIata)
      && o.airline.value.icao == Some(r.value.airlineIcao)
    ensures r.Some? ==>
      && o.departure.value.airport == Some(r.value.departureName) && o.departure.value.iata == Some(r.value.departureIata)
      && o.arrival.value.airport == Some(r.value.arrivalName) && o.arrival.value.iata == Some(r.value.arrivalIata)
    ensures r.Some? ==> o.flight.value.iata == Some(r.value.number) && o.departure.value.delay == Some(r.value.reading.delayMinutes)
    ensures r.Some? ==>
      && parse(o.departure.value.scheduled.value) == Some(r.value.scheduledDeparture)
      && parse(o.arrival.value.scheduled.value) == Some(r.value.scheduledArrival)
      && parse(o.departure.value.actual.value) == Some(r.value.reading.actualDeparture)
      && parse(o.arrival.value.actual.value) == Some(r.value.reading.actualArrival)
  {
    if o.airline.None? || o.airline.value.name.None? || o.airline.value.iata.None? || o.airline.value.icao.None? ||
       o.departure.None? || o.departure.value.airport.None? || o.departure.value.iata.None? ||
       o.arrival.None? || o.arrival.value.airport.None? || o.arrival.value.iata.None? ||
       o.flight.None? || o.flight.value.iata.None? || o.departure.value.delay.None?
    then None
    else
      var al, dep, arr := o.airline.value, o.departure.value, o.arrival.value;
      var sd, sa := ParseField(dep.scheduled, parse), ParseField(arr.scheduled, parse);
      var ad, aa := ParseField(dep.actual, parse), ParseField(arr.actual, parse);
      if sd.None? || sa.None? || ad.None? || aa.None? then None
      else Some(Parsed(al.name.value, al.iata.value, al.icao.value,
                       dep.airport.value, dep.iata.value, arr.airport.value, arr.iata.value,
                       o.flight.value.iata.value, sd.value, sa.value,
                       Reading(ad.value, aa.value, dep.delay.value)))
  }

  /** All writes of a cleanly parsed observation, as one expression. */
  function Record(db: Db, p: Parsed): (r: Db)
    ensures r.next.airline >= db.next.airline && r.next.airport >= db.next.airport
    ensures r.next.flight >= db.next.flight && r.next.status >= db.next.status
  {
    var (db1, airlineId) := ResolveAirline(db, p.airlineName, p.airlineIata, p.airlineIcao);
    var (db2, departureId) := ResolveAirport(db1, p.departureName, p.departureIata);
    var (db3, arrivalId) := ResolveAirport(db2, p.arrivalName, p.arrivalIata);
    var (db4, flightId) := ResolveFlight(db3, p.number, airlineId, departureId, arrivalId,
                                         p.scheduledDeparture, p.scheduledArrival);
    UpsertStatus(db4, flightId, p.reading)
  }

  // ---------------------------------------------------------------------
  // The batch and its transaction.
  // ---------------------------------------------------------------------

  /** The observations of a batch processed in feed order; processing stops
      at the first observation that raises. */
  function RunBatch(db: Db, batch: seq<Observation>, parse: Parser): (r: Outcome)
    ensures r.db.next.airline >= db.next.airline && r.db.next.airport >= db.next.airport
    ensures r.db.next.flight >= db.next.flight && r.db.next.status >= db.next.status
    decreases |batch|
  {
    if |batch| == 0 then Ok(db)
    else match RunBatch(db, batch[..|batch| - 1], parse)
      case Raised(d) => Raised(d)
      case Ok(d) => ProcessObservation(d, batch[|batch| - 1], parse)
  }

  /** What the collector reports for a batch. */
  datatype Report = NotConnected | Committed(count: nat) | RolledBack

  /** One call of the collector on a feed response. Without a connection
      nothing happens. A response without a data list, or a batch in which
      some observation raises, is rolled back: every table is restored, while
      the id counters keep the values the failed transaction consumed, as
      AUTO_INCREMENT counters do. Otherwise the batch is committed and its
      length reported. */
  function Ingest(db: Db, data: Option<seq<Observation>>, connected: bool, parse: Parser): (r: (Db, Report))
    ensures !connected ==> r == (db, NotConnected)
    ensures r.1.RolledBack? ==> SameRows(r.0, db)
    ensures r.1.Committed? ==> data.Some? && r.1.count == |data.value| && RunBatch(db, data.value, parse) == Ok(r.0)
    ensures connected && data.Some? ==> (r.1.Committed? <==> RunBatch(db, data.value, parse).Ok?)
    ensures connected ==> !r.1.NotConnected?
  {
    if !connected then (db, NotConnected)
    else if data.None? then (db, RolledBack)
    else match RunBatch(db, data.value, parse)
      case Ok(d) => (d, Committed(|data.value|))
      case Raised(d) => (db.(next := d.next), RolledBack)
  }
}
