/** The four tables of the flight-monitoring database, the point lookups
    the collector and the API run against them, the consistency invariant
    the collector keeps, and the joined view both sides query.

    A table is a sequence of rows in insertion order. Each table draws its
    row ids from its own counter, the way an AUTO_INCREMENT column does;
    the value taken by an insert is what `cursor.lastrowid` reports. */
module Store {
  import opened Wrappers
  import Seqs

  /** The value a DATETIME column stores. The connector writes a parsed
      time's wall-clock fields and drops its UTC offset, so two readings of
      one instant in different offsets are two different values. */
  type Timestamp = int

  /** The values of the `status` column. The collector writes only
      OnTime and Delayed; Cancelled is a value the API accepts as a filter. */
  datatype FlightStatus = OnTime | Delayed | Cancelled

  /** The text stored in the `status` column. */
  function Label(st: FlightStatus): (s: string)
    ensures st == OnTime <==> s == "On Time"
    ensures st == Delayed <==> s == "Delayed"
  {
    match st
    case OnTime => "On Time"
    case Delayed => "Delayed"
    case Cancelled => "Cancelled"
  }

  datatype AirlineRow = AirlineRow(id: nat, name: string, iata: string, icao: string)
  datatype AirportRow = AirportRow(id: nat, name: string, iata: string, country: string, city: string)
  datatype FlightRow = FlightRow(
    id: nat, number: string, airlineId: nat,
    departureAirportId: nat, arrivalAirportId: nat,
    scheduledDeparture: Timestamp, scheduledArrival: Timestamp)
  datatype StatusRow = StatusRow(
    id: nat, flightId: nat,
    actualDeparture: Timestamp, actualArrival: Timestamp,
    status: FlightStatus, delayMinutes: int, delayReason: Option<string>)

  /** The next id each table's AUTO_INCREMENT column hands out. */
  datatype Counters = Counters(airline: nat, airport: nat, flight: nat, status: nat)

  datatype Db = Db(
    airlines: seq<AirlineRow>, airports: seq<AirportRow>,
    flights: seq<FlightRow>, statuses: seq<StatusRow>,
    next: Counters)

  /** A freshly created schema: no rows, every counter at 1. */
  function EmptyDb(): (db: Db)
    ensures Valid(db)
    ensures db.airlines == [] && db.airports == [] && db.flights == [] && db.statuses == []
  {
    Db([], [], [], [], Counters(1, 1, 1, 1))
  }

  /** The two databases hold the same rows; their counters may differ. */
  predicate SameRows(a: Db, b: Db) {
    a.airlines == b.airlines && a.airports == b.airports &&
    a.flights == b.flights && a.statuses == b.statuses
  }

  // ---------------------------------------------------------------------
  // Point lookups: SELECT ... WHERE <key> = %s, then fetchone().
  // Each returns the index of the first matching row.
  // ---------------------------------------------------------------------

  /** SELECT airline_id FROM airlines WHERE iata_code = %s */
  function AirlineByCode(rows: seq<AirlineRow>, code: string): (r: Option<nat>)
    ensures r.Some? ==> r.value < |rows| && rows[r.value].iata == code
    ensures r.Some? ==> forall j :: 0 <= j < r.value ==> rows[j].iata != code
    ensures r.None? <==> forall j :: 0 <= j < |rows| ==> rows[j].iata != code
  {
    Seqs.Find(rows, (a: AirlineRow) => a.iata == code)
  }

  /** SELECT airport_id FROM airports WHERE iata_code = %s */
  function AirportByCode(rows: seq<AirportRow>, code: string): (r: Option<nat>)
    ensures r.Some? ==> r.value < |rows| && rows[r.value].iata == code
    ensures r.Some? ==> forall j :: 0 <= j < r.value ==> rows[j].iata != code
    ensures r.None? <==> forall j :: 0 <= j < |rows| ==> rows[j].iata != code
  {
    Seqs.Find(rows, (a: AirportRow) => a.iata == code)
  }

  /** SELECT flight_id FROM flights WHERE flight_number = %s AND scheduled_departure = %s */
  function FlightByKey(rows: seq<FlightRow>, number: string, departure: Timestamp): (r: Option<nat>)
    ensures r.Some? ==> r.value < |rows| && rows[r.value].number == number && rows[r.value].scheduledDeparture == departure
    ensures r.Some? ==> forall j :: 0 <= j < r.value ==> !(rows[j].number == number && rows[j].scheduledDeparture == departure)
    ensures r.None? <==> forall j :: 0 <= j < |rows| ==> !(rows[j].number == number && rows[j].scheduledDeparture == departure)
  {
    Seqs.Find(rows, (f: FlightRow) => f.number == number && f.scheduledDeparture == departure)
  }

  /** SELECT status_id FROM flight_status WHERE flight_id = %s */
  function StatusOfFlight(rows: seq<StatusRow>, flightId: nat): (r: Option<nat>)
    ensures r.Some? ==> r.value < |rows| && rows[r.value].flightId == flightId
    ensures r.Some? ==> forall j :: 0 <= j < r.value ==> rows[j].flightId != flightId
    ensures r.None? <==> forall j :: 0 <= j < |rows| ==> rows[j].flightId != flightId
  {
    Seqs.Find(rows, (s: StatusRow) => s.flightId == flightId)
  }

  /** The join condition `... ON f.airline_id = al.airline_id`. */
  function AirlineById(rows: seq<AirlineRow>, id: nat): (r: Option<nat>)
    ensures r.Some? ==> r.value < |rows| && rows[r.value].id == id
    ensures r.None? <==> forall j :: 0 <= j < |rows| ==> rows[j].id != id
  {
    Seqs.Find(rows, (a: AirlineRow) => a.id == id)
  }

  /** The join conditions `... ON f.departure_airport_id = a1.airport_id` (and a2). */
  function AirportById(rows: seq<AirportRow>, id: nat): (r: Option<nat>)
    ensures r.Some? ==> r.value < |rows| && rows[r.value].id == id
    ensures r.None? <==> forall j :: 0 <= j < |rows| ==> rows[j].id != id
  {
    Seqs.Find(rows, (a: AirportRow) => a.id == id)
  }

  // ---------------------------------------------------------------------
  // Row counts per business key. The source runs no such query; they
  // only serve to state that each key has at most one row.
  // ---------------------------------------------------------------------

  function AirlinesWithCode(rows: seq<AirlineRow>, code: string): (n: nat)
    ensures n == 0 <==> forall j :: 0 <= j < |rows| ==> rows[j].iata != code
    ensures forall k :: (0 <= k < |rows| && rows[k].iata == code &&
      (forall j :: 0 <= j < |rows| && j != k ==> rows[j].iata != code)) ==> n == 1
  {
    Seqs.Count(rows, (a: AirlineRow) => a.iata == code)
  }

  function AirportsWithCode(rows: seq<AirportRow>, code: string): (n: nat)
    ensures n == 0 <==> forall j :: 0 <= j < |rows| ==> rows[j].iata != code
    ensures forall k :: (0 <= k < |rows| && rows[k].iata == code &&
      (forall j :: 0 <= j < |rows| && j != k ==> rows[j].iata != code)) ==> n == 1
  {
    Seqs.Count(rows, (a: AirportRow) => a.iata == code)
  }

  function FlightsWithKey(rows: seq<FlightRow>, number: string, departure: Timestamp): (n: nat)
    ensures n == 0 <==> forall j :: 0 <= j < |rows| ==> !(rows[j].number == number && rows[j].scheduledDeparture == departure)
    ensures forall k :: (0 <= k < |rows| && rows[k].number == number && rows[k].scheduledDeparture == departure &&
      (forall j :: 0 <= j < |rows| && j != k ==> !(rows[j].number == number && rows[j].scheduledDeparture == departure))) ==> n == 1
  {
    Seqs.Count(rows, (f: FlightRow) => f.number == number && f.scheduledDeparture == departure)
  }

  function StatusRowsOf(rows: seq<StatusRow>, flightId: nat): (n: nat)
    ensures n == 0 <==> forall j :: 0 <= j < |rows| ==> rows[j].flightId != flightId
    ensures forall k :: (0 <= k < |rows| && rows[k].flightId == flightId &&
      (forall j :: 0 <= j < |rows| && j != k ==> rows[j].flightId != flightId)) ==> n == 1
  {
    Seqs.Count(rows, (s: StatusRow) => s.flightId == flightId)
  }

  // ---------------------------------------------------------------------
  // The consistency invariant.
  // ---------------------------------------------------------------------

  // Each table's part of the invariant: every id is below the table's
  // counter, no id occurs twice, no business key occurs twice, and every
  // reference to another table resolves.

  ghost predicate IsAirlineId(rows: seq<AirlineRow>, id: nat) {
    exists i :: 0 <= i < |rows| && rows[i].id == id
  }

  ghost predicate IsAirportId(rows: seq<AirportRow>, id: nat) {
    exists i :: 0 <= i < |rows| && rows[i].id == id
  }

  ghost predicate IsFlightId(rows: seq<FlightRow>, id: nat) {
    exists i :: 0 <= i < |rows| && rows[i].id == id
  }

  ghost predicate AirlinesOk(rows: seq<AirlineRow>, next: nat) {
    && (forall i :: 0 <= i < |rows| ==> rows[i].id < next)
    && (forall i, j :: 0 <= i < j < |rows| ==> rows[i].id != rows[j].id && rows[i].iata != rows[j].iata)
  }

  ghost predicate AirportsOk(rows: seq<AirportRow>, next: nat) {
    && (forall i :: 0 <= i < |rows| ==> rows[i].id < next)
    && (forall i, j :: 0 <= i < j < |rows| ==> rows[i].id != rows[j].id && rows[i].iata != rows[j].iata)
  }

  /** No two flights share a (number, scheduled departure) key. */
  ghost predicate FlightKeysUnique(rows: seq<FlightRow>) {
    forall i, j :: 0 <= i < j < |rows| ==>
      !(rows[i].number == rows[j].number && rows[i].scheduledDeparture == rows[j].scheduledDeparture)
  }

  ghost predicate FlightsOk(rows: seq<FlightRow>, next: nat, airlines: seq<AirlineRow>, airports: seq<AirportRow>) {
    && (forall i :: 0 <= i < |rows| ==> rows[i].id < next)
    && (forall i, j :: 0 <= i < j < |rows| ==> rows[i].id != rows[j].id)
    && FlightKeysUnique(rows)
    && (forall i :: 0 <= i < |rows| ==>
          IsAirlineId(airlines, rows[i].airlineId) &&
          IsAirportId(airports, rows[i].departureAirportId) &&
          IsAirportId(airports, rows[i].arrivalAirportId))
  }

  /** No flight has two status rows. */
  ghost predicate StatusFlightsUnique(rows: seq<StatusRow>) {
    forall i, j :: 0 <= i < j < |rows| ==> rows[i].flightId != rows[j].flightId
  }

  ghost predicate StatusesOk(rows: seq<StatusRow>, next: nat, flights: seq<FlightRow>) {
    && (forall i :: 0 <= i < |rows| ==> rows[i].id < next)
    && (forall i, j :: 0 <= i < j < |rows| ==> rows[i].id != rows[j].id)
    && StatusFlightsUnique(rows)
    && (forall i :: 0 <= i < |rows| ==> IsFlightId(flights, rows[i].flightId))
  }

  /** The consistency invariant: every table's part holds. */
  ghost predicate Valid(db: Db) {
    && AirlinesOk(db.airlines, db.next.airline)
    && AirportsOk(db.airports, db.next.airport)
    && FlightsOk(db.flights, db.next.flight, db.airlines, db.airports)
    && StatusesOk(db.statuses, db.next.status, db.flights)
  }

  // ---------------------------------------------------------------------
  // The joined view:
  //   flights f JOIN airlines al JOIN airports a1 JOIN airports a2
  //   LEFT JOIN flight_status fs ON f.flight_id = fs.flight_id
  // ---------------------------------------------------------------------

  datatype View = View(
    flight: FlightRow, airline: AirlineRow,
    departure: AirportRow, arrival: AirportRow,
    status: Option<StatusRow>)

  /** The joined row of one flight, or None when an inner join drops it. */
  function ViewOf(db: Db, f: FlightRow): (r: Option<View>)
    ensures r.Some? ==> r.value.flight == f
    ensures r.Some? ==> r.value.airline in db.airlines && r.value.airline.id == f.airlineId
    ensures r.Some? ==> r.value.departure in db.airports && r.value.departure.id == f.departureAirportId
    ensures r.Some? ==> r.value.arrival in db.airports && r.value.arrival.id == f.arrivalAirportId
    ensures r.Some? && r.value.status.Some? ==> r.value.status.value in db.statuses && r.value.status.value.flightId == f.id
    ensures r.Some? && r.value.status.None? ==> forall j :: 0 <= j < |db.statuses| ==> db.statuses[j].flightId != f.id
    ensures r.None? <==>
      AirlineById(db.airlines, f.airlineId).None? ||
      AirportById(db.airports, f.departureAirportId).None? ||
      AirportById(db.airports, f.arrivalAirportId).None?
  {
    match (AirlineById(db.airlines, f.airlineId),
           AirportById(db.airports, f.departureAirportId),
           AirportById(db.airports, f.arrivalAirportId))
    case (Some(al), Some(a1), Some(a2)) =>
      var fs := StatusOfFlight(db.statuses, f.id);
      Some(View(f, db.airlines[al], db.airports[a1], db.airports[a2],
                if fs.Some? then Some(db.statuses[fs.value]) else None))
    case _ => None
  }

  /** The joined rows of `fs`, in table order. */
  function JoinRows(db: Db, fs: seq<FlightRow>): (r: seq<View>)
    ensures |r| <= |fs|
    ensures forall v :: v in r ==> v.flight in fs && ViewOf(db, v.flight) == Some(v)
  {
    if |fs| == 0 then []
    else
      (match ViewOf(db, fs[0]) case Some(v) => [v] case None => []) + JoinRows(db, fs[1..])
  }

  /** The join every query of the system reads from. */
  function Joined(db: Db): (r: seq<View>)
    ensures forall v :: v in r ==> v.flight in db.flights && ViewOf(db, v.flight) == Some(v)
  {
    JoinRows(db, db.flights)
  }
}
