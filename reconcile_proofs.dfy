/** Properties of the collector's reconciliation steps: each step keeps the
    database consistent (ids fresh, one row per business key, references
    resolve), leaves exactly one row for the key it resolves, and the status
    upsert overwrites in place. */
module ReconcileProofs {
  import opened Wrappers
  import opened Store
  import opened Reconcile

  // ---------------------------------------------------------------------
  // Appending a row keeps every existing reference resolvable.
  // ---------------------------------------------------------------------

  lemma AppendKeepsAirlineIds(rows: seq<AirlineRow>, x: AirlineRow)
    ensures forall id :: IsAirlineId(rows, id) ==> IsAirlineId(rows + [x], id)
    ensures IsAirlineId(rows + [x], x.id)
  {
    forall id | IsAirlineId(rows, id) ensures IsAirlineId(rows + [x], id) {
      var i :| 0 <= i < |rows| && rows[i].id == id;
      assert (rows + [x])[i] == rows[i];
    }
    assert (rows + [x])[|rows|] == x;
  }

  lemma AppendKeepsAirportIds(rows: seq<AirportRow>, x: AirportRow)
    ensures forall id :: IsAirportId(rows, id) ==> IsAirportId(rows + [x], id)
    ensures IsAirportId(rows + [x], x.id)
  {
    forall id | IsAirportId(rows, id) ensures IsAirportId(rows + [x], id) {
      var i :| 0 <= i < |rows| && rows[i].id == id;
      assert (rows + [x])[i] == rows[i];
    }
    assert (rows + [x])[|rows|] == x;
  }

  lemma AppendKeepsFlightIds(rows: seq<FlightRow>, x: FlightRow)
    ensures forall id :: IsFlightId(rows, id) ==> IsFlightId(rows + [x], id)
    ensures IsFlightId(rows + [x], x.id)
  {
    forall id | IsFlightId(rows, id) ensures IsFlightId(rows + [x], id) {
      var i :| 0 <= i < |rows| && rows[i].id == id;
      assert (rows + [x])[i] == rows[i];
    }
    assert (rows + [x])[|rows|] == x;
  }

  // ---------------------------------------------------------------------
  // The invariant, table by table.
  // ---------------------------------------------------------------------

  /** Inserting an airline whose code is new under the next id. */
  lemma AirlinesAppend(rows: seq<AirlineRow>, next: nat, x: AirlineRow)
    requires AirlinesOk(rows, next) && x.id == next && AirlineByCode(rows, x.iata).None?
    ensures AirlinesOk(rows + [x], next + 1)
  {
    var s := rows + [x];
    assert forall i :: 0 <= i < |rows| ==> s[i] == rows[i];
  }

  lemma AirportsAppend(rows: seq<AirportRow>, next: nat, x: AirportRow)
    requires AirportsOk(rows, next) && x.id == next && AirportByCode(rows, x.iata).None?
    ensures AirportsOk(rows + [x], next + 1)
  {
    var s := rows + [x];
    assert forall i :: 0 <= i < |rows| ==> s[i] == rows[i];
  }

  /** Inserting a flight whose key is new under the next id, referring to an
      existing airline and existing airports. */
  lemma FlightsAppend(rows: seq<FlightRow>, next: nat, airlines: seq<AirlineRow>, airports: seq<AirportRow>, x: FlightRow)
    requires FlightsOk(rows, next, airlines, airports) && x.id == next
    requires FlightByKey(rows, x.number, x.scheduledDeparture).None?
    requires IsAirlineId(airlines, x.airlineId)
    requires IsAirportId(airports, x.departureAirportId) && IsAirportId(airports, x.arrivalAirportId)
    ensures FlightsOk(rows + [x], next + 1, airlines, airports)
  {
    var s := rows + [x];
    assert forall i :: 0 <= i < |rows| ==> s[i] == rows[i];
    assert FlightKeysUnique(s);
  }

  /** Flights keep resolving when airlines and airports are only added. */
  lemma FlightsGrow(rows: seq<FlightRow>, next: nat, airlines: seq<AirlineRow>, airports: seq<AirportRow>,
                    airlines': seq<AirlineRow>, airports': seq<AirportRow>)
    requires FlightsOk(rows, next, airlines, airports)
    requires forall a :: IsAirlineId(airlines, a) ==> IsAirlineId(airlines', a)
    requires forall a :: IsAirportId(airports, a) ==> IsAirportId(airports', a)
    ensures FlightsOk(rows, next, airlines', airports')
  {
  }

  /** Inserting a status row for a flight that exists and has none. */
  lemma StatusesAppend(rows: seq<StatusRow>, next: nat, flights: seq<FlightRow>, x: StatusRow)
    requires StatusesOk(rows, next, flights) && x.id == next
    requires StatusOfFlight(rows, x.flightId).None? && IsFlightId(flights, x.flightId)
    ensures StatusesOk(rows + [x], next + 1, flights)
  {
    var s := rows + [x];
    assert forall i :: 0 <= i < |rows| ==> s[i] == rows[i];
    assert StatusFlightsUnique(s);
  }

  /** Status rows keep resolving when flights are only added. */
  lemma StatusesGrow(rows: seq<StatusRow>, next: nat, flights: seq<FlightRow>, flights': seq<FlightRow>)
    requires StatusesOk(rows, next, flights)
    requires forall f :: IsFlightId(flights, f) ==> IsFlightId(flights', f)
    ensures StatusesOk(rows, next, flights')
  {
  }

  /** Status rows with the same ids and flights, in the same places. */
  predicate SameShape(a: seq<StatusRow>, b: seq<StatusRow>) {
    |a| == |b| && forall i :: 0 <= i < |a| ==> a[i].id == b[i].id && a[i].flightId == b[i].flightId
  }

  /** The status table's invariant does not depend on the status values. */
  lemma StatusesSameShape(rows: seq<StatusRow>, rows': seq<StatusRow>, next: nat, flights: seq<FlightRow>)
    requires StatusesOk(rows, next, flights) && SameShape(rows, rows')
    ensures StatusesOk(rows', next, flights)
  {
    assert StatusFlightsUnique(rows');
  }

  /** Counters that only grew keep every id below its counter: the state
      after a rollback, which keeps the consumed counter values, is
      consistent whenever the state before the batch was. */
  lemma ValidWithLargerCounters(db: Db, n: Counters)
    requires Valid(db)
    requires n.airline >= db.next.airline && n.airport >= db.next.airport
    requires n.flight >= db.next.flight && n.status >= db.next.status
    ensures Valid(db.(next := n))
  {
  }

  // Uniqueness of business keys, one table at a time.

  lemma AirlineOnlyAt(rows: seq<AirlineRow>, next: nat, k: nat)
    requires AirlinesOk(rows, next) && k < |rows|
    ensures forall j :: 0 <= j < |rows| && j != k ==> rows[j].iata != rows[k].iata
  {
    forall j | 0 <= j < |rows| && j != k ensures rows[j].iata != rows[k].iata {
      if j < k { } else { }
    }
  }

  lemma AirportOnlyAt(rows: seq<AirportRow>, next: nat, k: nat)
    requires AirportsOk(rows, next) && k < |rows|
    ensures forall j :: 0 <= j < |rows| && j != k ==> rows[j].iata != rows[k].iata
  {
    forall j | 0 <= j < |rows| && j != k ensures rows[j].iata != rows[k].iata {
      if j < k { } else { }
    }
  }

  lemma FlightKeyOnlyAt(rows: seq<FlightRow>, k: nat)
    requires FlightKeysUnique(rows) && k < |rows|
    ensures forall j :: 0 <= j < |rows| && j != k ==>
      !(rows[j].number == rows[k].number && rows[j].scheduledDeparture == rows[k].scheduledDeparture)
  {
    forall j | 0 <= j < |rows| && j != k
      ensures !(rows[j].number == rows[k].number && rows[j].scheduledDeparture == rows[k].scheduledDeparture)
    {
      if j < k { } else { }
    }
  }

  lemma StatusOnlyAt(rows: seq<StatusRow>, k: nat)
    requires StatusFlightsUnique(rows) && k < |rows|
    ensures forall j :: 0 <= j < |rows| && j != k ==> rows[j].flightId != rows[k].flightId
  {
    forall j | 0 <= j < |rows| && j != k ensures rows[j].flightId != rows[k].flightId {
      if j < k { } else { }
    }
  }

  // A key that is found has exactly one row.

  lemma AirlineCodeOnce(rows: seq<AirlineRow>, next: nat, code: string)
    requires AirlinesOk(rows, next) && AirlineByCode(rows, code).Some?
    ensures AirlinesWithCode(rows, code) == 1
  {
    var k := AirlineByCode(rows, code).value;
    AirlineOnlyAt(rows, next, k);
    assert forall j :: 0 <= j < |rows| && j != k ==> rows[j].iata != code;
  }

  lemma AirportCodeOnce(rows: seq<AirportRow>, next: nat, code: string)
    requires AirportsOk(rows, next) && AirportByCode(rows, code).Some?
    ensures AirportsWithCode(rows, code) == 1
  {
    var k := AirportByCode(rows, code).value;
    AirportOnlyAt(rows, next, k);
    assert forall j :: 0 <= j < |rows| && j != k ==> rows[j].iata != code;
  }

  lemma FlightKeyOnce(rows: seq<FlightRow>, number: string, departure: Timestamp)
    requires FlightKeysUnique(rows) && FlightByKey(rows, number, departure).Some?
    ensures FlightsWithKey(rows, number, departure) == 1
  {
    var k := FlightByKey(rows, number, departure).value;
    FlightKeyOnlyAt(rows, k);
    assert forall j :: 0 <= j < |rows| && j != k ==> !(rows[j].number == number && rows[j].scheduledDeparture == departure);
  }

  lemma StatusOnce(rows: seq<StatusRow>, flightId: nat)
    requires StatusFlightsUnique(rows) && StatusOfFlight(rows, flightId).Some?
    ensures StatusRowsOf(rows, flightId) == 1
  {
    var k := StatusOfFlight(rows, flightId).value;
    StatusOnlyAt(rows, k);
    assert forall j :: 0 <= j < |rows| && j != k ==> rows[j].flightId != flightId;
  }

  /** In a consistent database no business key has more than one row. */
  lemma AtMostOnePerKey(db: Db, code: string, number: string, departure: Timestamp, flightId: nat)
    requires Valid(db)
    ensures AirlinesWithCode(db.airlines, code) <= 1
    ensures AirportsWithCode(db.airports, code) <= 1
    ensures FlightsWithKey(db.flights, number, departure) <= 1
    ensures StatusRowsOf(db.statuses, flightId) <= 1
  {
    if AirlineByCode(db.airlines, code).Some? {
      AirlineCodeOnce(db.airlines, db.next.airline, code);
    }
    if AirportByCode(db.airports, code).Some? {
      AirportCodeOnce(db.airports, db.next.airport, code);
    }
    if FlightByKey(db.flights, number, departure).Some? {
      FlightKeyOnce(db.flights, number, departure);
    }
    if StatusOfFlight(db.statuses, flightId).Some? {
      StatusOnce(db.statuses, flightId);
    }
  }

  // ---------------------------------------------------------------------
  // Resolvers.
  // ---------------------------------------------------------------------

  /** After resolving an airline code the database is consistent, exactly
      one airline row has the code, and its id is the one returned; a newly
      created row's id was not used before. */
  lemma ResolveAirlineEffect(db: Db, name: string, iata: string, icao: string)
    requires Valid(db)
    ensures var (d, id) := ResolveAirline(db, name, iata, icao);
      && Valid(d)
      && AirlinesWithCode(d.airlines, iata) == 1
      && AirlineByCode(d.airlines, iata).Some?
      && d.airlines[AirlineByCode(d.airlines, iata).value].id == id
      && IsAirlineId(d.airlines, id)
      && (forall a :: IsAirlineId(db.airlines, a) ==> IsAirlineId(d.airlines, a))
      && (AirlineByCode(db.airlines, iata).None? ==> forall i :: 0 <= i < |db.airlines| ==> db.airlines[i].id != id)
  {
    var (d, id) := ResolveAirline(db, name, iata, icao);
    ResolveAirlineFinds(db, name, iata, icao);
    match AirlineByCode(db.airlines, iata)
    case Some(k) =>
      AirlineCodeOnce(db.airlines, db.next.airline, iata);
      assert IsAirlineId(d.airlines, id) by { assert d.airlines[k].id == id; }
    case None =>
      var x := AirlineRow(id, name, iata, icao);
      AirlinesAppend(db.airlines, db.next.airline, x);
      AppendKeepsAirlineIds(db.airlines, x);
      AirlineCodeOnce(d.airlines, d.next.airline, iata);
      FlightsGrow(db.flights, db.next.flight, db.airlines, db.airports, d.airlines, d.airports);
  }

  /** The same for airports; a new airport's country and city are "Unknown". */
  lemma ResolveAirportEffect(db: Db, name: string, iata: string)
    requires Valid(db)
    ensures var (d, id) := ResolveAirport(db, name, iata);
      && Valid(d)
      && AirportsWithCode(d.airports, iata) == 1
      && AirportByCode(d.airports, iata).Some?
      && d.airports[AirportByCode(d.airports, iata).value].id == id
      && IsAirportId(d.airports, id)
      && (forall a :: IsAirportId(db.airports, a) ==> IsAirportId(d.airports, a))
      && (AirportByCode(db.airports, iata).None? ==>
            (forall i :: 0 <= i < |db.airports| ==> db.airports[i].id != id) &&
            d.airports[AirportByCode(d.airports, iata).value].country == "Unknown" &&
            d.airports[AirportByCode(d.airports, iata).value].city == "Unknown")
  {
    var (d, id) := ResolveAirport(db, name, iata);
    ResolveAirportFinds(db, name, iata, iata);
    match AirportByCode(db.airports, iata)
    case Some(k) =>
      AirportCodeOnce(db.airports, db.next.airport, iata);
      assert IsAirportId(d.airports, id) by { assert d.airports[k].id == id; }
    case None =>
      var x := AirportRow(id, name, iata, "Unknown", "Unknown");
      AirportsAppend(db.airports, db.next.airport, x);
      AppendKeepsAirportIds(db.airports, x);
      AirportCodeOnce(d.airports, d.next.airport, iata);
      FlightsGrow(db.flights, db.next.flight, db.airlines, db.airports, d.airlines, d.airports);
  }

  /** After resolving a flight key whose airline and airports exist, the
      database is consistent, exactly one flight row has the key, and its id
      is the one returned. */
  lemma ResolveFlightEffect(db: Db, number: string, airlineId: nat, departureId: nat, arrivalId: nat,
                            departure: Timestamp, arrival: Timestamp)
    requires Valid(db)
    requires IsAirlineId(db.airlines, airlineId)
    requires IsAirportId(db.airports, departureId) && IsAirportId(db.airports, arrivalId)
    ensures var (d, id) := ResolveFlight(db, number, airlineId, departureId, arrivalId, departure, arrival);
      && Valid(d)
      && FlightsWithKey(d.flights, number, departure) == 1
      && FlightByKey(d.flights, number, departure).Some?
      && d.flights[FlightByKey(d.flights, number, departure).value].id == id
      && IsFlightId(d.flights, id)
      && (forall f :: IsFlightId(db.flights, f) ==> IsFlightId(d.flights, f))
  {
    var (d, id) := ResolveFlight(db, number, airlineId, departureId, arrivalId, departure, arrival);
    ResolveFlightFinds(db, number, airlineId, departureId, arrivalId, departure, arrival);
    match FlightByKey(db.flights, number, departure)
    case Some(k) =>
      FlightKeyOnce(db.flights, number, departure);
      assert IsFlightId(d.flights, id) by { assert d.flights[k].id == id; }
    case None =>
      var x := FlightRow(id, number, airlineId, departureId, arrivalId, departure, arrival);
      FlightsAppend(db.flights, db.next.flight, db.airlines, db.airports, x);
      AppendKeepsFlightIds(db.flights, x);
      FlightKeyOnce(d.flights, number, departure);
      StatusesGrow(db.statuses, db.next.status, db.flights, d.flights);
  }

  // ---------------------------------------------------------------------
  // Lookups after an append: a key that was found is still found at the
  // same row, and a key found only in the new row is found there. None of
  // this needs the invariant.
  // ---------------------------------------------------------------------

  lemma AirlineLookupAppend(rows: seq<AirlineRow>, x: AirlineRow, code: string)
    ensures AirlineByCode(rows, code).Some? ==> AirlineByCode(rows + [x], code) == AirlineByCode(rows, code)
    ensures AirlineByCode(rows, code).None? && x.iata == code ==> AirlineByCode(rows + [x], code) == Some(|rows|)
  {
    var s := rows + [x];
    assert forall j :: 0 <= j < |rows| ==> s[j] == rows[j];
    assert s[|rows|] == x;
  }

  lemma AirportLookupAppend(rows: seq<AirportRow>, x: AirportRow, code: string)
    ensures AirportByCode(rows, code).Some? ==> AirportByCode(rows + [x], code) == AirportByCode(rows, code)
    ensures AirportByCode(rows, code).None? && x.iata == code ==> AirportByCode(rows + [x], code) == Some(|rows|)
  {
    var s := rows + [x];
    assert forall j :: 0 <= j < |rows| ==> s[j] == rows[j];
    assert s[|rows|] == x;
  }

  lemma FlightLookupAppend(rows: seq<FlightRow>, x: FlightRow, number: string, departure: Timestamp)
    ensures FlightByKey(rows, number, departure).Some? ==>
      FlightByKey(rows + [x], number, departure) == FlightByKey(rows, number, departure)
    ensures FlightByKey(rows, number, departure).None? && x.number == number && x.scheduledDeparture == departure ==>
      FlightByKey(rows + [x], number, departure) == Some(|rows|)
  {
    var s := rows + [x];
    assert forall j :: 0 <= j < |rows| ==> s[j] == rows[j];
    assert s[|rows|] == x;
  }

  /** Whatever the database holds, the resolved airline is the one a
      lookup by its code now finds. */
  lemma ResolveAirlineFinds(db: Db, name: string, iata: string, icao: string)
    ensures var (d, id) := ResolveAirline(db, name, iata, icao);
      AirlineByCode(d.airlines, iata).Some? && d.airlines[AirlineByCode(d.airlines, iata).value].id == id
  {
    AirlineLookupAppend(db.airlines, AirlineRow(db.next.airline, name, iata, icao), iata);
  }

  /** The resolved airport is the one a lookup by its code now finds, and an
      airport found before any further append is still found. */
  lemma ResolveAirportFinds(db: Db, name: string, iata: string, other: string)
    ensures var (d, id) := ResolveAirport(db, name, iata);
      && AirportByCode(d.airports, iata).Some? && d.airports[AirportByCode(d.airports, iata).value].id == id
      && (AirportByCode(db.airports, other).Some? ==> AirportByCode(d.airports, other) == AirportByCode(db.airports, other))
  {
    AirportLookupAppend(db.airports, AirportRow(db.next.airport, name, iata, UnknownPlace, UnknownPlace), iata);
    AirportLookupAppend(db.airports, AirportRow(db.next.airport, name, iata, UnknownPlace, UnknownPlace), other);
  }

  /** The resolved flight is the one a lookup by its key now finds. */
  lemma ResolveFlightFinds(db: Db, number: string, airlineId: nat, departureId: nat, arrivalId: nat,
                           departure: Timestamp, arrival: Timestamp)
    ensures var (d, id) := ResolveFlight(db, number, airlineId, departureId, arrivalId, departure, arrival);
      FlightByKey(d.flights, number, departure).Some? && d.flights[FlightByKey(d.flights, number, departure).value].id == id
  {
    FlightLookupAppend(db.flights, FlightRow(db.next.flight, number, airlineId, departureId, arrivalId, departure, arrival),
                       number, departure);
  }

  // ---------------------------------------------------------------------
  // Status upsert.
  // ---------------------------------------------------------------------

  /** The row carries the values a reading writes. */
  predicate Holds(row: StatusRow, x: Reading) {
    row.actualDeparture == x.actualDeparture && row.actualArrival == x.actualArrival &&
    row.delayMinutes == x.delayMinutes && row.status == Classify(x.delayMinutes)
  }

  /** The upsert of an existing flight keeps the database consistent. */
  lemma UpsertStatusValid(db: Db, flightId: nat, x: Reading)
    requires Valid(db) && IsFlightId(db.flights, flightId)
    ensures Valid(UpsertStatus(db, flightId, x))
  {
    if StatusOfFlight(db.statuses, flightId).Some? {
      StatusesSameShape(db.statuses, UpdateStatus(db.statuses, flightId, x), db.next.status, db.flights);
    } else {
      StatusesAppend(db.statuses, db.next.status, db.flights,
                     StatusRow(db.next.status, flightId, x.actualDeparture, x.actualArrival,
                               Classify(x.delayMinutes), x.delayMinutes, None));
    }
  }

  /** Updating the flight's only status row (at index k). */
  lemma UpdateExistingStatus(db: Db, flightId: nat, x: Reading, k: nat)
    requires StatusFlightsUnique(db.statuses) && StatusOfFlight(db.statuses, flightId) == Some(k)
    ensures var d := UpsertStatus(db, flightId, x);
      && StatusOfFlight(d.statuses, flightId) == Some(k)
      && d.statuses[k] == Overwrite(db.statuses[k], x)
      && (forall j :: 0 <= j < |d.statuses| && j != k ==> d.statuses[j] == db.statuses[j])
  {
    StatusOnlyAt(db.statuses, k);
  }

  /** Inserting a status row for a flight that had none. */
  lemma InsertNewStatus(db: Db, flightId: nat, x: Reading)
    requires StatusOfFlight(db.statuses, flightId).None?
    ensures var d := UpsertStatus(db, flightId, x);
      && StatusOfFlight(d.statuses, flightId) == Some(|db.statuses|)
      && d.statuses[|db.statuses|].delayReason == None
      && Holds(d.statuses[|db.statuses|], x)
      && (forall j :: 0 <= j < |d.statuses| && j != |db.statuses| ==> d.statuses[j] == db.statuses[j])
  {
    var d := UpsertStatus(db, flightId, x);
    assert d.statuses[|db.statuses|].flightId == flightId;
  }

  /** Whatever the database holds, after the upsert the flight has a status
      row and every status row of the flight holds the reading. */
  lemma UpsertHolds(db: Db, flightId: nat, x: Reading)
    ensures var d := UpsertStatus(db, flightId, x);
      && StatusOfFlight(d.statuses, flightId).Some?
      && forall i :: 0 <= i < |d.statuses| && d.statuses[i].flightId == flightId ==> Holds(d.statuses[i], x)
  {
    var d := UpsertStatus(db, flightId, x);
    match StatusOfFlight(db.statuses, flightId)
    case Some(k) =>
      assert d.statuses[k].flightId == flightId;
    case None =>
      assert d.statuses[|db.statuses|].flightId == flightId;
  }

  /** After the upsert of an existing flight the database is consistent and
      the flight has exactly one status row, holding the new reading; an
      existing row keeps its id and delay reason, a new row has no reason;
      every other status row is unchanged. */
  lemma UpsertStatusEffect(db: Db, flightId: nat, x: Reading)
    requires Valid(db) && IsFlightId(db.flights, flightId)
    ensures var d := UpsertStatus(db, flightId, x);
      && Valid(d)
      && StatusRowsOf(d.statuses, flightId) == 1
      && StatusOfFlight(d.statuses, flightId).Some?
      && Holds(d.statuses[StatusOfFlight(d.statuses, flightId).value], x)
      && (match StatusOfFlight(db.statuses, flightId)
          case Some(k) =>
            StatusOfFlight(d.statuses, flightId) == Some(k) &&
            d.statuses[k].id == db.statuses[k].id && d.statuses[k].delayReason == db.statuses[k].delayReason
          case None =>
            StatusOfFlight(d.statuses, flightId) == Some(|db.statuses|) &&
            d.statuses[|db.statuses|].delayReason == None)
      && (forall i :: 0 <= i < |db.statuses| && db.statuses[i].flightId != flightId ==> d.statuses[i] == db.statuses[i])
  {
    var d := UpsertStatus(db, flightId, x);
    UpsertStatusValid(db, flightId, x);
    match StatusOfFlight(db.statuses, flightId)
    case Some(k) =>
      UpdateExistingStatus(db, flightId, x, k);
      StatusOnlyAt(d.statuses, k);
    case None =>
      InsertNewStatus(db, flightId, x);
      StatusOnlyAt(d.statuses, |db.statuses|);
  }

  /** Last write wins: two upserts for one flight leave the database exactly
      as the second upsert alone would. */
  lemma {:induction false} LastWriteWins(db: Db, flightId: nat, x: Reading, y: Reading)
    ensures UpsertStatus(UpsertStatus(db, flightId, x), flightId, y) == UpsertStatus(db, flightId, y)
  {
    var d1 := UpsertStatus(db, flightId, x);
    match StatusOfFlight(db.statuses, flightId)
    case Some(k) =>
      assert StatusOfFlight(d1.statuses, flightId).Some? by {
        assert d1.statuses[k].flightId == flightId;
      }
      var lhs := UpdateStatus(d1.statuses, flightId, y);
      var rhs := UpdateStatus(db.statuses, flightId, y);
      assert |lhs| == |rhs|;
      assert forall i :: 0 <= i < |lhs| ==> lhs[i] == rhs[i];
    case None =>
      var n := |db.statuses|;
      assert d1.statuses[n].flightId == flightId;
      var lhs := UpdateStatus(d1.statuses, flightId, y);
      var rhs := db.statuses + [StatusRow(db.next.status, flightId, y.actualDeparture, y.actualArrival,
                                          Classify(y.delayMinutes), y.delayMinutes, None)];
      assert |lhs| == |rhs|;
      assert forall i :: 0 <= i < n ==> lhs[i] == rhs[i];
      assert lhs[n] == rhs[n];
  }
}
