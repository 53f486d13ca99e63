/** Properties of processing one observation and a whole batch: an
    observation raises exactly when one of the fields the collector reads is
    missing or unparsable, a clean observation performs the writes of
    Reconcile.Record, every state the transaction passes through is
    consistent, and the batch either commits every observation or leaves the
    tables as they were. */
module BatchProofs {
  import opened Wrappers
  import opened Store
  import opened Reconcile
  import opened ReconcileProofs

  /** Processing raises exactly when Validate finds a missing or unparsable
      field, and a clean observation performs Record's writes; whether an
      observation raises does not depend on the database. */
  lemma ProcessIsRecord(db: Db, o: Observation, parse: Parser)
    ensures ProcessObservation(db, o, parse).Ok? <==> Validate(o, parse).Some?
    ensures Validate(o, parse).Some? ==> ProcessObservation(db, o, parse) == Ok(Record(db, Validate(o, parse).value))
  {
  }

  /** The flight of a parsed observation has exactly one status row, and it
      holds the observation's reading. */
  ghost predicate Reflects(d: Db, p: Parsed) {
    && FlightByKey(d.flights, p.number, p.scheduledDeparture).Some?
    && var f := d.flights[FlightByKey(d.flights, p.number, p.scheduledDeparture).value].id;
       && StatusRowsOf(d.statuses, f) == 1
       && StatusOfFlight(d.statuses, f).Some?
       && Holds(d.statuses[StatusOfFlight(d.statuses, f).value], p.reading)
  }

  // Consistency of each step, stated with only what the next step needs.

  lemma AirlineStep(db: Db, name: string, iata: string, icao: string)
    requires Valid(db)
    ensures Valid(ResolveAirline(db, name, iata, icao).0)
    ensures IsAirlineId(ResolveAirline(db, name, iata, icao).0.airlines, ResolveAirline(db, name, iata, icao).1)
  {
    ResolveAirlineEffect(db, name, iata, icao);
  }

  lemma AirportStep(db: Db, name: string, iata: string)
    requires Valid(db)
    ensures Valid(ResolveAirport(db, name, iata).0)
    ensures IsAirportId(ResolveAirport(db, name, iata).0.airports, ResolveAirport(db, name, iata).1)
    ensures forall a :: IsAirportId(db.airports, a) ==> IsAirportId(ResolveAirport(db, name, iata).0.airports, a)
  {
    ResolveAirportEffect(db, name, iata);
  }

  lemma FlightStep(db: Db, number: string, airlineId: nat, departureId: nat, arrivalId: nat,
                   departure: Timestamp, arrival: Timestamp)
    requires Valid(db)
    requires IsAirlineId(db.airlines, airlineId)
    requires IsAirportId(db.airports, departureId) && IsAirportId(db.airports, arrivalId)
    ensures Valid(ResolveFlight(db, number, airlineId, departureId, arrivalId, departure, arrival).0)
    ensures IsFlightId(ResolveFlight(db, number, airlineId, departureId, arrivalId, departure, arrival).0.flights,
                       ResolveFlight(db, number, airlineId, departureId, arrivalId, departure, arrival).1)
  {
    ResolveFlightEffect(db, number, airlineId, departureId, arrivalId, departure, arrival);
  }

  /** Resolving the airline and both airports keeps the database consistent
      and yields ids that exist. */
  lemma PlacesValid(db: Db, p: Parsed)
    requires Valid(db)
    ensures var (db1, airlineId) := ResolveAirline(db, p.airlineName, p.airlineIata, p.airlineIcao);
      var (db2, departureId) := ResolveAirport(db1, p.departureName, p.departureIata);
      var (db3, arrivalId) := ResolveAirport(db2, p.arrivalName, p.arrivalIata);
      && Valid(db3)
      && IsAirlineId(db3.airlines, airlineId)
      && IsAirportId(db3.airports, departureId) && IsAirportId(db3.airports, arrivalId)
  {
    AirlineStep(db, p.airlineName, p.airlineIata, p.airlineIcao);
    var (db1, airlineId) := ResolveAirline(db, p.airlineName, p.airlineIata, p.airlineIcao);
    AirportStep(db1, p.departureName, p.departureIata);
    var (db2, departureId) := ResolveAirport(db1, p.departureName, p.departureIata);
    AirportStep(db2, p.arrivalName, p.arrivalIata);
  }

  /** Recording a clean observation keeps the database consistent. */
  lemma RecordValid(db: Db, p: Parsed)
    requires Valid(db)
    ensures Valid(Record(db, p))
  {
    PlacesValid(db, p);
    var (db1, airlineId) := ResolveAirline(db, p.airlineName, p.airlineIata, p.airlineIcao);
    var (db2, departureId) := ResolveAirport(db1, p.departureName, p.departureIata);
    var (db3, arrivalId) := ResolveAirport(db2, p.arrivalName, p.arrivalIata);
    FlightStep(db3, p.number, airlineId, departureId, arrivalId, p.scheduledDeparture, p.scheduledArrival);
    var (db4, flightId) := ResolveFlight(db3, p.number, airlineId, departureId, arrivalId,
                                         p.scheduledDeparture, p.scheduledArrival);
    UpsertStatusValid(db4, flightId, p.reading);
  }

  /** Whatever the database holds, after recording an observation its
      airline, both airports and its flight are found by key, and every
      status row of the flight holds the observation's reading. */
  lemma RecordFinds(db: Db, p: Parsed)
    ensures var d := Record(db, p);
      && AirlineByCode(d.airlines, p.airlineIata).Some?
      && AirportByCode(d.airports, p.departureIata).Some?
      && AirportByCode(d.airports, p.arrivalIata).Some?
      && FlightByKey(d.flights, p.number, p.scheduledDeparture).Some?
      && var f := d.flights[FlightByKey(d.flights, p.number, p.scheduledDeparture).value].id;
         && StatusOfFlight(d.statuses, f).Some?
         && forall i :: 0 <= i < |d.statuses| && d.statuses[i].flightId == f ==> Holds(d.statuses[i], p.reading)
  {
    ResolveAirlineFinds(db, p.airlineName, p.airlineIata, p.airlineIcao);
    var (db1, airlineId) := ResolveAirline(db, p.airlineName, p.airlineIata, p.airlineIcao);
    ResolveAirportFinds(db1, p.departureName, p.departureIata, p.departureIata);
    var (db2, departureId) := ResolveAirport(db1, p.departureName, p.departureIata);
    ResolveAirportFinds(db2, p.arrivalName, p.arrivalIata, p.departureIata);
    var (db3, arrivalId) := ResolveAirport(db2, p.arrivalName, p.arrivalIata);
    ResolveFlightFinds(db3, p.number, airlineId, departureId, arrivalId, p.scheduledDeparture, p.scheduledArrival);
    var (db4, flightId) := ResolveFlight(db3, p.number, airlineId, departureId, arrivalId,
                                         p.scheduledDeparture, p.scheduledArrival);
    UpsertHolds(db4, flightId, p.reading);
  }

  /** After recording a clean observation the database is consistent, its
      airline, both airports and its flight each have exactly one row, and
      the flight has exactly one status row holding the observation's
      values. */
  lemma RecordEffect(db: Db, p: Parsed)
    requires Valid(db)
    ensures var d := Record(db, p);
      && Valid(d)
      && AirlinesWithCode(d.airlines, p.airlineIata) == 1
      && AirportsWithCode(d.airports, p.departureIata) == 1
      && AirportsWithCode(d.airports, p.arrivalIata) == 1
      && FlightsWithKey(d.flights, p.number, p.scheduledDeparture) == 1
      && Reflects(d, p)
  {
    RecordValid(db, p);
    RecordFinds(db, p);
    var d := Record(db, p);
    var f := d.flights[FlightByKey(d.flights, p.number, p.scheduledDeparture).value].id;
    AirlineCodeOnce(d.airlines, d.next.airline, p.airlineIata);
    AirportCodeOnce(d.airports, d.next.airport, p.departureIata);
    AirportCodeOnce(d.airports, d.next.airport, p.arrivalIata);
    FlightKeyOnce(d.flights, p.number, p.scheduledDeparture);
    StatusOnce(d.statuses, f);
  }

  /** Every state a transaction passes through, including the one in which
      an observation raised, is consistent. */
  lemma ProcessObservationValid(db: Db, o: Observation, parse: Parser)
    requires Valid(db)
    ensures Valid(ProcessObservation(db, o, parse).db)
  {
    if o.airline.None? || o.airline.value.name.None? || o.airline.value.iata.None? || o.airline.value.icao.None? {
    } else {
      var al := o.airline.value;
      AirlineStep(db, al.name.value, al.iata.value, al.icao.value);
      var (db1, airlineId) := ResolveAirline(db, al.name.value, al.iata.value, al.icao.value);
      if o.departure.None? || o.departure.value.airport.None? || o.departure.value.iata.None? {
      } else {
        var dep := o.departure.value;
        AirportStep(db1, dep.airport.value, dep.iata.value);
        var (db2, departureId) := ResolveAirport(db1, dep.airport.value, dep.iata.value);
        if o.arrival.None? || o.arrival.value.airport.None? || o.arrival.value.iata.None? {
        } else {
          var arr := o.arrival.value;
          AirportStep(db2, arr.airport.value, arr.iata.value);
          var (db3, arrivalId) := ResolveAirport(db2, arr.airport.value, arr.iata.value);
          var sd := ParseField(dep.scheduled, parse);
          var sa := ParseField(arr.scheduled, parse);
          if sd.None? || sa.None? || o.flight.None? || o.flight.value.iata.None? {
          } else {
            FlightStep(db3, o.flight.value.iata.value, airlineId, departureId, arrivalId, sd.value, sa.value);
            var (db4, flightId) := ResolveFlight(db3, o.flight.value.iata.value, airlineId, departureId, arrivalId,
                                                 sd.value, sa.value);
            var ad := ParseField(dep.actual, parse);
            var aa := ParseField(arr.actual, parse);
            if ad.None? || aa.None? || dep.delay.None? {
            } else {
              UpsertStatusValid(db4, flightId, Reading(ad.value, aa.value, dep.delay.value));
            }
          }
        }
      }
    }
  }

  /** Every state a batch passes through is consistent. */
  lemma {:induction false} RunBatchValid(db: Db, batch: seq<Observation>, parse: Parser)
    requires Valid(db)
    ensures Valid(RunBatch(db, batch, parse).db)
    decreases |batch|
  {
    if |batch| > 0 {
      RunBatchValid(db, batch[..|batch| - 1], parse);
      match RunBatch(db, batch[..|batch| - 1], parse)
      case Raised(_) =>
      case Ok(d) => ProcessObservationValid(d, batch[|batch| - 1], parse);
    }
  }

  /** Running one more observation of a batch: nothing happens after a
      raise, otherwise the observation is processed on the state reached. */
  lemma RunBatchNext(db: Db, batch: seq<Observation>, i: nat, parse: Parser)
    requires i < |batch|
    ensures RunBatch(db, batch[..i + 1], parse) ==
      match RunBatch(db, batch[..i], parse)
      case Raised(d) => Raised(d)
      case Ok(d) => ProcessObservation(d, batch[i], parse)
  {
    assert batch[..i + 1][..i] == batch[..i];
  }

  /** Once an observation raised, the rest of the batch is not processed. */
  lemma {:induction false} RaisedSticks(db: Db, batch: seq<Observation>, i: nat, parse: Parser)
    requires i <= |batch| && RunBatch(db, batch[..i], parse).Raised?
    ensures RunBatch(db, batch, parse) == RunBatch(db, batch[..i], parse)
    decreases |batch|
  {
    if i < |batch| {
      var front := batch[..|batch| - 1];
      assert front[..i] == batch[..i];
      RaisedSticks(db, front, i, parse);
    } else {
      assert batch[..i] == batch;
    }
  }

  /** A batch runs to the end exactly when its front does and its last
      observation reads and parses cleanly. */
  lemma RunBatchLast(db: Db, batch: seq<Observation>, parse: Parser)
    requires |batch| > 0
    ensures RunBatch(db, batch, parse).Ok? <==>
      RunBatch(db, batch[..|batch| - 1], parse).Ok? && Validate(batch[|batch| - 1], parse).Some?
  {
    var r := RunBatch(db, batch[..|batch| - 1], parse);
    if r.Ok? {
      ProcessIsRecord(r.db, batch[|batch| - 1], parse);
    }
  }

  /** Every observation of the batch reads and parses cleanly. */
  predicate AllClean(batch: seq<Observation>, parse: Parser)
    decreases |batch|
  {
    |batch| == 0 || (AllClean(batch[..|batch| - 1], parse) && Validate(batch[|batch| - 1], parse).Some?)
  }

  lemma {:induction false} RunBatchClean(db: Db, batch: seq<Observation>, parse: Parser)
    ensures RunBatch(db, batch, parse).Ok? <==> AllClean(batch, parse)
    decreases |batch|
  {
    if |batch| > 0 {
      RunBatchClean(db, batch[..|batch| - 1], parse);
      RunBatchLast(db, batch, parse);
    }
  }

  lemma {:induction false} AllCleanIff(batch: seq<Observation>, parse: Parser)
    ensures AllClean(batch, parse) <==> forall i :: 0 <= i < |batch| ==> Validate(batch[i], parse).Some?
    decreases |batch|
  {
    if |batch| > 0 {
      var front := batch[..|batch| - 1];
      AllCleanIff(front, parse);
      assert forall i :: 0 <= i < |front| ==> front[i] == batch[i];
    }
  }

  lemma RunBatchOkIff(db: Db, batch: seq<Observation>, parse: Parser)
    ensures RunBatch(db, batch, parse).Ok? <==> forall i :: 0 <= i < |batch| ==> Validate(batch[i], parse).Some?
  {
    RunBatchClean(db, batch, parse);
    AllCleanIff(batch, parse);
  }

  /** The collector keeps the database consistent, whether it commits, rolls
      back or cannot connect. */
  lemma IngestValid(db: Db, data: Option<seq<Observation>>, connected: bool, parse: Parser)
    requires Valid(db)
    ensures Valid(Ingest(db, data, connected, parse).0)
  {
    if connected && data.Some? {
      RunBatchValid(db, data.value, parse);
      match RunBatch(db, data.value, parse)
      case Ok(_) =>
      case Raised(d) => ValidWithLargerCounters(db, d.next);
    }
  }

  /** Processing the same observation a second time changes nothing:
      every lookup now hits, and the status rows already hold the reading. */
  lemma RecordTwice(db: Db, p: Parsed)
    ensures Record(Record(db, p), p) == Record(db, p)
  {
    var d := Record(db, p);
    RecordFinds(db, p);
    var f := d.flights[FlightByKey(d.flights, p.number, p.scheduledDeparture).value].id;
    var again := UpdateStatus(d.statuses, f, p.reading);
    assert forall i :: 0 <= i < |d.statuses| ==> again[i] == d.statuses[i];
    assert again == d.statuses;
  }

  /** Processing an observation twice in a row is the same as processing it
      once. */
  lemma ProcessTwice(db: Db, o: Observation, parse: Parser)
    requires ProcessObservation(db, o, parse).Ok?
    ensures ProcessObservation(ProcessObservation(db, o, parse).db, o, parse) == ProcessObservation(db, o, parse)
  {
    ProcessIsRecord(db, o, parse);
    var d := ProcessObservation(db, o, parse).db;
    ProcessIsRecord(d, o, parse);
    RecordTwice(db, Validate(o, parse).value);
  }
}
