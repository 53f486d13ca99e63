/** The collector's database connection as an object whose tables change in
    place: the get-or-create steps for airlines and airports, the processing
    of one flight of a feed batch, and the batch itself with its commit or
    rollback. Every method is proved to leave the tables exactly as the
    corresponding function of module Reconcile describes, so the lemmas
    proved about those functions (consistency, idempotence) hold of the
    object too. The delayed-flight query of the monitor is at the end. */
module Collector {
  import opened Wrappers
  import Seqs
  import opened Store
  import opened Reconcile
  import BatchProofs
  import opened JoinFacts

  class Database {
    var airlines: seq<AirlineRow>
    var airports: seq<AirportRow>
    var flights: seq<FlightRow>
    var statuses: seq<StatusRow>
    var next: Counters

    /** The tables and counters as one database value. */
    function State(): Db
      reads this
    {
      Db(airlines, airports, flights, statuses, next)
    }

    /** The database is consistent. */
    ghost predicate Valid()
      reads this
    {
      Store.Valid(State())
    }

    /** A freshly created schema. */
    constructor ()
      ensures State() == EmptyDb() && Valid()
    {
      airlines, airports, flights, statuses := [], [], [], [];
      next := Counters(1, 1, 1, 1);
    }

    /** Look an airline up by IATA code and insert it when absent. A missing
        name, IATA or ICAO field raises (None) before anything is written. */
    method ProcessAirline(info: AirlineInfo) returns (id: Option<nat>)
      modifies this
      ensures info.name.None? || info.iata.None? || info.icao.None? ==>
        id.None? && State() == old(State())
      ensures info.name.Some? && info.iata.Some? && info.icao.Some? ==>
        id.Some? && (State(), id.value) == ResolveAirline(old(State()), info.name.value, info.iata.value, info.icao.value)
      ensures old(Valid()) ==> Valid()
    {
      if info.name.None? || info.iata.None? || info.icao.None? {
        return None;
      }
      ghost var before := State();
      var name, iata, icao := info.name.value, info.iata.value, info.icao.value;
      var found := AirlineByCode(airlines, iata);
      if found.Some? {
        id := Some(airlines[found.value].id);
      } else {
        var newId := next.airline;
        airlines := airlines + [AirlineRow(newId, name, iata, icao)];
        next := next.(airline := newId + 1);
        id := Some(newId);
      }
      if Store.Valid(before) {
        BatchProofs.AirlineStep(before, name, iata, icao);
      }
    }

    /** Look an airport up by IATA code and insert it, with unknown country
        and city, when absent. */
    method ProcessAirport(name: string, iata: string) returns (id: nat)
      modifies this
      ensures (State(), id) == ResolveAirport(old(State()), name, iata)
      ensures old(Valid()) ==> Valid()
    {
      ghost var before := State();
      var found := AirportByCode(airports, iata);
      if found.Some? {
        id := airports[found.value].id;
      } else {
        id := next.airport;
        airports := airports + [AirportRow(id, name, iata, UnknownPlace, UnknownPlace)];
        next := next.(airport := id + 1);
      }
      if Store.Valid(before) {
        BatchProofs.AirportStep(before, name, iata);
      }
    }

    /** Insert the flight with key (number, departure) unless it exists. */
    method ProcessFlightRow(number: string, airlineId: nat, departureId: nat, arrivalId: nat,
                            departure: Timestamp, arrival: Timestamp) returns (id: nat)
      modifies this
      ensures (State(), id) == ResolveFlight(old(State()), number, airlineId, departureId, arrivalId, departure, arrival)
    {
      var found := FlightByKey(flights, number, departure);
      if found.Some? {
        id := flights[found.value].id;
      } else {
        id := next.flight;
        flights := flights + [FlightRow(id, number, airlineId, departureId, arrivalId, departure, arrival)];
        next := next.(flight := id + 1);
      }
    }

    /** Update the flight's status row, or insert one when it has none. */
    method ProcessStatus(flightId: nat, x: Reading)
      modifies this
      ensures State() == UpsertStatus(old(State()), flightId, x)
    {
      if StatusOfFlight(statuses, flightId).Some? {
        statuses := UpdateStatus(statuses, flightId, x);
      } else {
        statuses := statuses + [StatusRow(next.status, flightId, x.actualDeparture, x.actualArrival,
                                          Classify(x.delayMinutes), x.delayMinutes, None)];
        next := next.(status := next.status + 1);
      }
    }

    /** One flight of a batch, in the collector's order of reads and writes;
        `ok` is false when a read raised, with the writes made before it
        left in place. */
    method ProcessFlight(o: Observation, parse: Parser) returns (ok: bool)
      modifies this
      ensures Reconcile.ProcessObservation(old(State()), o, parse) == if ok then Ok(State()) else Raised(State())
    {
      if o.airline.None? {
        return false;
      }
      var airlineId := ProcessAirline(o.airline.value);
      if airlineId.None? {
        return false;
      }
      if o.departure.None? || o.departure.value.airport.None? || o.departure.value.iata.None? {
        return false;
      }
      var dep := o.departure.value;
      var departureId := ProcessAirport(dep.airport.value, dep.iata.value);
      if o.arrival.None? || o.arrival.value.airport.None? || o.arrival.value.iata.None? {
        return false;
      }
      var arr := o.arrival.value;
      var arrivalId := ProcessAirport(arr.airport.value, arr.iata.value);
      var scheduledDeparture := ParseField(dep.scheduled, parse);
      var scheduledArrival := ParseField(arr.scheduled, parse);
      if scheduledDeparture.None? || scheduledArrival.None? || o.flight.None? || o.flight.value.iata.None? {
        return false;
      }
      var flightId := ProcessFlightRow(o.flight.value.iata.value, airlineId.value, departureId, arrivalId,
                                       scheduledDeparture.value, scheduledArrival.value);
      var actualDeparture := ParseField(dep.actual, parse);
      var actualArrival := ParseField(arr.actual, parse);
      if actualDeparture.None? || actualArrival.None? || dep.delay.None? {
        return false;
      }
      ProcessStatus(flightId, Reading(actualDeparture.value, actualArrival.value, dep.delay.value));
      return true;
    }

    /** Restore the tables of a snapshot; the counters keep the ids the
        rolled-back transaction consumed. */
    method Rollback(snapshot: Db)
      modifies this
      ensures State() == snapshot.(next := old(next))
    {
      airlines, airports, flights, statuses := snapshot.airlines, snapshot.airports, snapshot.flights, snapshot.statuses;
    }

    /** One call of the collector on a feed response: every flight of the
        batch in feed order, then a commit, or a rollback at the first
        flight that raises. */
    method ProcessFlightData(data: Option<seq<Observation>>, connected: bool, parse: Parser) returns (report: Report)
      modifies this
      ensures (State(), report) == Ingest(old(State()), data, connected, parse)
      ensures old(Valid()) ==> Valid()
    {
      var snapshot := State();
      if Store.Valid(snapshot) {
        BatchProofs.IngestValid(snapshot, data, connected, parse);
      }
      if !connected {
        return NotConnected;
      }
      if data.None? {
        return RolledBack;
      }
      var batch := data.value;
      var i := 0;
      while i < |batch|
        invariant 0 <= i <= |batch|
        invariant RunBatch(snapshot, batch[..i], parse) == Ok(State())
      {
        BatchProofs.RunBatchNext(snapshot, batch, i, parse);
        var ok := ProcessFlight(batch[i], parse);
        if !ok {
          BatchProofs.RaisedSticks(snapshot, batch, i + 1, parse);
          Rollback(snapshot);
          return RolledBack;
        }
        i := i + 1;
      }
      assert batch[..i] == batch;
      return Committed(|batch|);
    }
  }

  // -----------------------------------------------------------------------
  // The monitor's query: flights whose status row records a delay of more
  // than two hours.
  // -----------------------------------------------------------------------

  /** The monitor's fixed alert threshold, in minutes. */
  const AlertMinutes: int := 120

  /** The joined row carries a status whose delay exceeds the threshold. */
  predicate OverAlert(v: View) {
    v.status.Some? && v.status.value.delayMinutes > AlertMinutes
  }

  /** The monitor's query: an inner join on the status table, a strict
      comparison with the threshold, rows in table order. */
  function MonitorDelayedFlights(db: Db): (r: seq<View>)
    ensures |r| <= |Joined(db)|
    ensures forall v :: v in r <==> v in Joined(db) && OverAlert(v)
  {
    Seqs.Filter(Joined(db), OverAlert)
  }

  /** What the monitor reports is a delay of more than two hours recorded
      in the status row of the flight it is reported with. */
  lemma MonitorSound(db: Db, v: View)
    requires v in MonitorDelayedFlights(db)
    ensures v.flight in db.flights
    ensures v.status.Some? && v.status.value in db.statuses
    ensures v.status.value.flightId == v.flight.id && v.status.value.delayMinutes > 120
  {
  }

  /** On a consistent database no delay of more than two hours is missed:
      every status row recording one is reported, with its flight. */
  lemma MonitorComplete(db: Db, s: StatusRow)
    requires Valid(db)
    requires s in db.statuses && s.delayMinutes > 120
    ensures exists v :: v in MonitorDelayedFlights(db) && v.status == Some(s)
  {
    StatusInJoin(db, s);
    var v :| v in Joined(db) && v.status == Some(s);
    assert OverAlert(v);
  }
}
