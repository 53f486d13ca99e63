/** Re-running the collector on the feed response it has just committed
    changes nothing: every airline, airport and flight of the batch is found
    by key, so no row is inserted, and every status row already holds the
    last reading the batch has for its flight, so the UPDATEs rewrite the
    values they find. */
module Idempotence {
  import opened Wrappers
  import opened Store
  import opened Reconcile
  import opened ReconcileProofs
  import opened BatchProofs

  // ---------------------------------------------------------------------
  // A clean batch as a sequence of parsed observations.
  // ---------------------------------------------------------------------

  /** The parsed observations of a batch that reads cleanly. */
  function Cleaned(batch: seq<Observation>, parse: Parser): (ps: seq<Parsed>)
    requires AllClean(batch, parse)
    ensures |ps| == |batch|
    ensures forall i :: 0 <= i < |batch| ==> Validate(batch[i], parse) == Some(ps[i])
    decreases |batch|
  {
    if |batch| == 0 then []
    else
      var front := batch[..|batch| - 1];
      assert forall i :: 0 <= i < |front| ==> front[i] == batch[i];
      Cleaned(front, parse) + [Validate(batch[|batch| - 1], parse).value]
  }

  /** The writes of parsed observations, in feed order. */
  function RecordAll(db: Db, ps: seq<Parsed>): (r: Db)
    decreases |ps|
  {
    if |ps| == 0 then db else Record(RecordAll(db, ps[..|ps| - 1]), ps[|ps| - 1])
  }

  /** A clean batch performs the writes of its parsed observations. */
  lemma {:induction false} RunBatchIsRecordAll(db: Db, batch: seq<Observation>, parse: Parser)
    requires AllClean(batch, parse)
    ensures RunBatch(db, batch, parse) == Ok(RecordAll(db, Cleaned(batch, parse)))
    decreases |batch|
  {
    if |batch| > 0 {
      var front := batch[..|batch| - 1];
      RunBatchIsRecordAll(db, front, parse);
      var ps := Cleaned(batch, parse);
      assert ps[..|ps| - 1] == Cleaned(front, parse);
      ProcessIsRecord(RecordAll(db, Cleaned(front, parse)), batch[|batch| - 1], parse);
    }
  }

  // ---------------------------------------------------------------------
  // Growth: recording never removes or rewrites an airline, airport or
  // flight row, and never moves a status row to another flight.
  // ---------------------------------------------------------------------

  /** `d` holds `e`'s airline, airport and flight rows at the same places,
      and `e`'s status rows at the same places for the same flights. */
  ghost predicate Extends(e: Db, d: Db) {
    && |e.airlines| <= |d.airlines| && (forall i :: 0 <= i < |e.airlines| ==> d.airlines[i] == e.airlines[i])
    && |e.airports| <= |d.airports| && (forall i :: 0 <= i < |e.airports| ==> d.airports[i] == e.airports[i])
    && |e.flights| <= |d.flights| && (forall i :: 0 <= i < |e.flights| ==> d.flights[i] == e.flights[i])
    && |e.statuses| <= |d.statuses| && (forall i :: 0 <= i < |e.statuses| ==> d.statuses[i].flightId == e.statuses[i].flightId)
  }

  lemma UpsertExtends(db: Db, flightId: nat, x: Reading)
    ensures Extends(db, UpsertStatus(db, flightId, x))
  {
    var d := UpsertStatus(db, flightId, x);
    if StatusOfFlight(db.statuses, flightId).None? {
      assert forall i :: 0 <= i < |db.statuses| ==> d.statuses[i] == db.statuses[i];
    }
  }

  lemma ExtendsTrans(a: Db, b: Db, c: Db)
    requires Extends(a, b) && Extends(b, c)
    ensures Extends(a, c)
  {
  }

  lemma AirlineExtends(db: Db, name: string, iata: string, icao: string)
    ensures Extends(db, ResolveAirline(db, name, iata, icao).0)
  {
    var d := ResolveAirline(db, name, iata, icao).0;
    assert forall i :: 0 <= i < |db.airlines| ==> d.airlines[i] == db.airlines[i];
  }

  lemma AirportExtends(db: Db, name: string, iata: string)
    ensures Extends(db, ResolveAirport(db, name, iata).0)
  {
    var d := ResolveAirport(db, name, iata).0;
    assert forall i :: 0 <= i < |db.airports| ==> d.airports[i] == db.airports[i];
  }

  lemma FlightExtends(db: Db, number: string, airlineId: nat, departureId: nat, arrivalId: nat,
                      departure: Timestamp, arrival: Timestamp)
    ensures Extends(db, ResolveFlight(db, number, airlineId, departureId, arrivalId, departure, arrival).0)
  {
    var d := ResolveFlight(db, number, airlineId, departureId, arrivalId, departure, arrival).0;
    assert forall i :: 0 <= i < |db.flights| ==> d.flights[i] == db.flights[i];
  }

  /** Recording extends the database. */
  lemma RecordExtends(e: Db, p: Parsed)
    ensures Extends(e, Record(e, p))
  {
    AirlineExtends(e, p.airlineName, p.airlineIata, p.airlineIcao);
    var (db1, airlineId) := ResolveAirline(e, p.airlineName, p.airlineIata, p.airlineIcao);
    AirportExtends(db1, p.departureName, p.departureIata);
    var (db2, departureId) := ResolveAirport(db1, p.departureName, p.departureIata);
    AirportExtends(db2, p.arrivalName, p.arrivalIata);
    var (db3, arrivalId) := ResolveAirport(db2, p.arrivalName, p.arrivalIata);
    FlightExtends(db3, p.number, airlineId, departureId, arrivalId, p.scheduledDeparture, p.scheduledArrival);
    var (db4, flightId) := ResolveFlight(db3, p.number, airlineId, departureId, arrivalId,
                                         p.scheduledDeparture, p.scheduledArrival);
    UpsertExtends(db4, flightId, p.reading);
    ExtendsTrans(e, db1, db2);
    ExtendsTrans(e, db2, db3);
    ExtendsTrans(e, db3, db4);
    ExtendsTrans(e, db4, Record(e, p));
  }

  // ---------------------------------------------------------------------
  // Observations whose every lookup hits.
  // ---------------------------------------------------------------------

  /** The id of the flight a parsed observation's key finds (0 when none). */
  function FlightOf(d: Db, p: Parsed): (f: nat)
    ensures FlightByKey(d.flights, p.number, p.scheduledDeparture).Some? ==>
      f == d.flights[FlightByKey(d.flights, p.number, p.scheduledDeparture).value].id
  {
    match FlightByKey(d.flights, p.number, p.scheduledDeparture)
    case Some(k) => d.flights[k].id
    case None => 0
  }

  /** The observation's airline, airports and flight exist, and its flight
      has a status row. */
  predicate Covered(d: Db, p: Parsed) {
    && AirlineByCode(d.airlines, p.airlineIata).Some?
    && AirportByCode(d.airports, p.departureIata).Some?
    && AirportByCode(d.airports, p.arrivalIata).Some?
    && FlightByKey(d.flights, p.number, p.scheduledDeparture).Some?
    && StatusOfFlight(d.statuses, FlightOf(d, p)).Some?
  }

  /** A recorded observation is covered. */
  lemma RecordCovers(e: Db, p: Parsed)
    ensures Covered(Record(e, p), p)
  {
    RecordFinds(e, p);
  }

  // A key found in a table is found at the same row of any extension.

  lemma AirlinePrefix(a: seq<AirlineRow>, b: seq<AirlineRow>, code: string)
    requires |a| <= |b| && (forall i :: 0 <= i < |a| ==> b[i] == a[i])
    requires AirlineByCode(a, code).Some?
    ensures AirlineByCode(b, code) == AirlineByCode(a, code)
  {
    var k := AirlineByCode(a, code).value;
    assert b[k] == a[k];
  }

  lemma AirportPrefix(a: seq<AirportRow>, b: seq<AirportRow>, code: string)
    requires |a| <= |b| && (forall i :: 0 <= i < |a| ==> b[i] == a[i])
    requires AirportByCode(a, code).Some?
    ensures AirportByCode(b, code) == AirportByCode(a, code)
  {
    var k := AirportByCode(a, code).value;
    assert b[k] == a[k];
  }

  lemma FlightPrefix(a: seq<FlightRow>, b: seq<FlightRow>, number: string, departure: Timestamp)
    requires |a| <= |b| && (forall i :: 0 <= i < |a| ==> b[i] == a[i])
    requires FlightByKey(a, number, departure).Some?
    ensures FlightByKey(b, number, departure) == FlightByKey(a, number, departure)
  {
    var k := FlightByKey(a, number, departure).value;
    assert b[k] == a[k];
  }

  lemma StatusPrefix(a: seq<StatusRow>, b: seq<StatusRow>, flightId: nat)
    requires |a| <= |b| && (forall i :: 0 <= i < |a| ==> b[i].flightId == a[i].flightId)
    requires StatusOfFlight(a, flightId).Some?
    ensures StatusOfFlight(b, flightId) == StatusOfFlight(a, flightId)
  {
    var k := StatusOfFlight(a, flightId).value;
    assert b[k].flightId == a[k].flightId;
  }

  /** Growth keeps an observation covered, on the same flight. */
  lemma ExtendsKeepsCovered(e: Db, d: Db, p: Parsed)
    requires Extends(e, d) && Covered(e, p)
    ensures Covered(d, p) && FlightOf(d, p) == FlightOf(e, p)
  {
    AirlinePrefix(e.airlines, d.airlines, p.airlineIata);
    AirportPrefix(e.airports, d.airports, p.departureIata);
    AirportPrefix(e.airports, d.airports, p.arrivalIata);
    FlightPrefix(e.flights, d.flights, p.number, p.scheduledDeparture);
    StatusPrefix(e.statuses, d.statuses, FlightOf(e, p));
  }

  /** For a covered observation, recording is one UPDATE of its flight's
      status rows. */
  lemma RecordCovered(e: Db, p: Parsed)
    requires Covered(e, p)
    ensures Record(e, p) == e.(statuses := UpdateStatus(e.statuses, FlightOf(e, p), p.reading))
  {
  }

  /** Recording touches only the status rows of the recorded flight, and the
      rows it adds belong to that flight. */
  lemma RecordStatusRows(e: Db, p: Parsed)
    ensures var d := Record(e, p);
      && (forall i :: 0 <= i < |e.statuses| && e.statuses[i].flightId != FlightOf(d, p) ==> d.statuses[i] == e.statuses[i])
      && (forall i :: |e.statuses| <= i < |d.statuses| ==> d.statuses[i].flightId == FlightOf(d, p))
  {
    var (db1, airlineId) := ResolveAirline(e, p.airlineName, p.airlineIata, p.airlineIcao);
    var (db2, departureId) := ResolveAirport(db1, p.departureName, p.departureIata);
    var (db3, arrivalId) := ResolveAirport(db2, p.arrivalName, p.arrivalIata);
    ResolveFlightFinds(db3, p.number, airlineId, departureId, arrivalId, p.scheduledDeparture, p.scheduledArrival);
    var (db4, flightId) := ResolveFlight(db3, p.number, airlineId, departureId, arrivalId,
                                         p.scheduledDeparture, p.scheduledArrival);
    assert FlightOf(Record(e, p), p) == flightId;
  }

  // ---------------------------------------------------------------------
  // Writes and their last values.
  // ---------------------------------------------------------------------

  /** The (flight, reading) pairs a batch writes, the flights as found in `d`. */
  function Writes(d: Db, ps: seq<Parsed>): (ws: seq<(nat, Reading)>)
    ensures |ws| == |ps|
    ensures forall j :: 0 <= j < |ps| ==> ws[j] == (FlightOf(d, ps[j]), ps[j].reading)
  {
    seq(|ps|, j requires 0 <= j < |ps| => (FlightOf(d, ps[j]), ps[j].reading))
  }

  /** The last reading written for a flight, if any. */
  function LastWrite(ws: seq<(nat, Reading)>, f: nat): (r: Option<Reading>)
    ensures r.None? <==> forall j :: 0 <= j < |ws| ==> ws[j].0 != f
    ensures r.Some? ==> exists j :: 0 <= j < |ws| && ws[j] == (f, r.value)
    decreases |ws|
  {
    if |ws| == 0 then None
    else if ws[|ws| - 1].0 == f then Some(ws[|ws| - 1].1)
    else
      var r := LastWrite(ws[..|ws| - 1], f);
      assert forall j :: 0 <= j < |ws| - 1 ==> ws[..|ws| - 1][j] == ws[j];
      r
  }

  /** Every status row holds the last reading written for its flight. */
  ghost predicate Agrees(rows: seq<StatusRow>, ws: seq<(nat, Reading)>) {
    forall i :: 0 <= i < |rows| && LastWrite(ws, rows[i].flightId).Some? ==>
      Holds(rows[i], LastWrite(ws, rows[i].flightId).value)
  }

  /** The UPDATEs of a sequence of writes, applied in order. */
  function Updates(rows: seq<StatusRow>, ws: seq<(nat, Reading)>): (r: seq<StatusRow>)
    ensures |r| == |rows|
    ensures forall i :: 0 <= i < |rows| ==> r[i].flightId == rows[i].flightId
    decreases |ws|
  {
    if |ws| == 0 then rows
    else UpdateStatus(Updates(rows, ws[..|ws| - 1]), ws[|ws| - 1].0, ws[|ws| - 1].1)
  }

  /** After a sequence of UPDATEs a row holds the last reading written for
      its flight, and a row of a flight never written is untouched. */
  lemma {:induction false} UpdatesAt(rows: seq<StatusRow>, ws: seq<(nat, Reading)>, i: nat)
    requires i < |rows|
    ensures Updates(rows, ws)[i] ==
      match LastWrite(ws, rows[i].flightId)
      case Some(x) => Overwrite(rows[i], x)
      case None => rows[i]
    decreases |ws|
  {
    if |ws| > 0 {
      UpdatesAt(rows, ws[..|ws| - 1], i);
    }
  }

  /** UPDATEs that write what the rows already hold change nothing. */
  lemma UpdatesAgreeing(rows: seq<StatusRow>, ws: seq<(nat, Reading)>)
    requires Agrees(rows, ws)
    ensures Updates(rows, ws) == rows
  {
    forall i | 0 <= i < |rows| ensures Updates(rows, ws)[i] == rows[i] {
      UpdatesAt(rows, ws, i);
    }
  }

  /** Adding one write to the end: the sequence view of a snoc. */
  lemma UpdatesSnoc(rows: seq<StatusRow>, ws: seq<(nat, Reading)>, w: (nat, Reading))
    ensures Updates(rows, ws + [w]) == UpdateStatus(Updates(rows, ws), w.0, w.1)
  {
    assert (ws + [w])[..|ws|] == ws;
  }

  lemma WritesSnoc(d: Db, ps: seq<Parsed>, p: Parsed)
    ensures Writes(d, ps + [p]) == Writes(d, ps) + [(FlightOf(d, p), p.reading)]
  {
  }

  lemma LastWriteSnoc(ws: seq<(nat, Reading)>, w: (nat, Reading), f: nat)
    ensures LastWrite(ws + [w], f) == if w.0 == f then Some(w.1) else LastWrite(ws, f)
  {
    assert (ws + [w])[..|ws|] == ws;
  }

  /** One more write keeps rows agreeing when the rows of its flight hold
      it, the other rows are the old ones and the added rows belong to its
      flight. */
  lemma AgreesSnoc(old_: seq<StatusRow>, rows: seq<StatusRow>, ws: seq<(nat, Reading)>, f: nat, x: Reading)
    requires Agrees(old_, ws) && |old_| <= |rows|
    requires forall i :: 0 <= i < |old_| ==> rows[i].flightId == old_[i].flightId
    requires forall i :: 0 <= i < |old_| && old_[i].flightId != f ==> rows[i] == old_[i]
    requires forall i :: |old_| <= i < |rows| ==> rows[i].flightId == f
    requires forall i :: 0 <= i < |rows| && rows[i].flightId == f ==> Holds(rows[i], x)
    ensures Agrees(rows, ws + [(f, x)])
  {
    forall i | 0 <= i < |rows| && LastWrite(ws + [(f, x)], rows[i].flightId).Some?
      ensures Holds(rows[i], LastWrite(ws + [(f, x)], rows[i].flightId).value)
    {
      LastWriteSnoc(ws, (f, x), rows[i].flightId);
      if rows[i].flightId != f {
        assert i < |old_| && rows[i] == old_[i];
      }
    }
  }

  /** Covered observations stay covered, on the same flight, when the status
      rows change but keep their flights. */
  lemma SameShapeCovered(d: Db, rows: seq<StatusRow>, p: Parsed)
    requires Covered(d, p)
    requires |rows| == |d.statuses| && forall i :: 0 <= i < |rows| ==> rows[i].flightId == d.statuses[i].flightId
    ensures Covered(d.(statuses := rows), p) && FlightOf(d.(statuses := rows), p) == FlightOf(d, p)
  {
    StatusPrefix(d.statuses, rows, FlightOf(d, p));
  }

  // ---------------------------------------------------------------------
  // The two runs.
  // ---------------------------------------------------------------------

  /** Every observation of the sequence is covered. */
  ghost predicate AllCovered(d: Db, ps: seq<Parsed>) {
    forall j :: 0 <= j < |ps| ==> Covered(d, ps[j])
  }

  /** Growth keeps a whole sequence covered, with the same writes. */
  lemma ExtendsKeepsAllCovered(e: Db, d: Db, ps: seq<Parsed>)
    requires Extends(e, d) && AllCovered(e, ps)
    ensures AllCovered(d, ps) && Writes(d, ps) == Writes(e, ps)
  {
    forall j | 0 <= j < |ps| ensures Covered(d, ps[j]) && FlightOf(d, ps[j]) == FlightOf(e, ps[j]) {
      ExtendsKeepsCovered(e, d, ps[j]);
    }
  }

  lemma AllCoveredSnoc(d: Db, ps: seq<Parsed>, p: Parsed)
    requires AllCovered(d, ps) && Covered(d, p)
    ensures AllCovered(d, ps + [p])
  {
    assert forall j :: 0 <= j < |ps| ==> (ps + [p])[j] == ps[j];
  }

  /** One more recorded observation keeps the earlier ones covered, on the
      same flights, and covers the new one. */
  lemma CoveredStep(e: Db, ps: seq<Parsed>, p: Parsed)
    requires AllCovered(e, ps)
    ensures AllCovered(Record(e, p), ps + [p])
    ensures Writes(Record(e, p), ps) == Writes(e, ps)
  {
    RecordExtends(e, p);
    RecordCovers(e, p);
    ExtendsKeepsAllCovered(e, Record(e, p), ps);
    AllCoveredSnoc(Record(e, p), ps, p);
  }

  /** One more recorded observation keeps the status rows agreeing with the
      writes so far. */
  lemma AgreesStep(e: Db, ps: seq<Parsed>, p: Parsed)
    requires Agrees(e.statuses, Writes(e, ps))
    requires Writes(Record(e, p), ps) == Writes(e, ps)
    ensures Agrees(Record(e, p).statuses, Writes(Record(e, p), ps + [p]))
  {
    var d := Record(e, p);
    RecordExtends(e, p);
    RecordFinds(e, p);
    RecordStatusRows(e, p);
    WritesSnoc(d, ps, p);
    AgreesSnoc(e.statuses, d.statuses, Writes(e, ps), FlightOf(d, p), p.reading);
  }

  /** After the first run every observation of the batch is covered and
      every status row holds the last reading the batch wrote for its
      flight. */
  lemma {:induction false} FirstRun(db: Db, ps: seq<Parsed>)
    ensures AllCovered(RecordAll(db, ps), ps)
    ensures Agrees(RecordAll(db, ps).statuses, Writes(RecordAll(db, ps), ps))
    decreases |ps|
  {
    if |ps| > 0 {
      var front, p := ps[..|ps| - 1], ps[|ps| - 1];
      assert ps == front + [p];
      FirstRun(db, front);
      var e := RecordAll(db, front);
      CoveredStep(e, front, p);
      AgreesStep(e, front, p);
    }
  }

  /** On a covered observation, recording over rewritten status rows is
      one more UPDATE of them. */
  lemma SecondRunStep(d: Db, rows: seq<StatusRow>, p: Parsed)
    requires Covered(d, p)
    requires |rows| == |d.statuses| && forall i :: 0 <= i < |rows| ==> rows[i].flightId == d.statuses[i].flightId
    ensures Record(d.(statuses := rows), p) == d.(statuses := UpdateStatus(rows, FlightOf(d, p), p.reading))
  {
    SameShapeCovered(d, rows, p);
    RecordCovered(d.(statuses := rows), p);
  }

  lemma CoveredFront(d: Db, ps: seq<Parsed>)
    requires |ps| > 0 && AllCovered(d, ps)
    ensures AllCovered(d, ps[..|ps| - 1]) && Covered(d, ps[|ps| - 1])
  {
  }

  lemma RecordAllLast(d: Db, ps: seq<Parsed>)
    requires |ps| > 0
    ensures RecordAll(d, ps) == Record(RecordAll(d, ps[..|ps| - 1]), ps[|ps| - 1])
  {
  }

  lemma WritesLast(d: Db, ps: seq<Parsed>)
    requires |ps| > 0
    ensures Writes(d, ps) == Writes(d, ps[..|ps| - 1]) + [(FlightOf(d, ps[|ps| - 1]), ps[|ps| - 1].reading)]
  {
  }

  /** On a database covering every observation, the batch only UPDATEs
      status rows. */
  lemma {:induction false} SecondRun(d: Db, ps: seq<Parsed>)
    requires AllCovered(d, ps)
    ensures RecordAll(d, ps) == d.(statuses := Updates(d.statuses, Writes(d, ps)))
    decreases |ps|
  {
    if |ps| > 0 {
      var front, p := ps[..|ps| - 1], ps[|ps| - 1];
      CoveredFront(d, ps);
      SecondRun(d, front);
      var rows := Updates(d.statuses, Writes(d, front));
      RecordAllLast(d, ps);
      SecondRunStep(d, rows, p);
      WritesLast(d, ps);
      UpdatesSnoc(d.statuses, Writes(d, front), (FlightOf(d, p), p.reading));
    }
  }

  /** Running a committed batch again on the database it produced succeeds
      and leaves that database exactly as it is. */
  lemma BatchIdempotent(db: Db, batch: seq<Observation>, parse: Parser)
    requires RunBatch(db, batch, parse).Ok?
    ensures RunBatch(RunBatch(db, batch, parse).db, batch, parse) == RunBatch(db, batch, parse)
  {
    RunBatchClean(db, batch, parse);
    RunBatchIsRecordAll(db, batch, parse);
    var ps := Cleaned(batch, parse);
    var d := RecordAll(db, ps);
    RunBatchIsRecordAll(d, batch, parse);
    FirstRun(db, ps);
    SecondRun(d, ps);
    UpdatesAgreeing(d.statuses, Writes(d, ps));
  }

  /** Calling the collector twice on the same feed response gives the same
      report, and the second call changes no row; after a commit it changes
      nothing at all. */
  lemma IngestTwice(db: Db, data: Option<seq<Observation>>, parse: Parser)
    ensures var (d1, r1) := Ingest(db, data, true, parse);
      var (d2, r2) := Ingest(d1, data, true, parse);
      && r2 == r1
      && SameRows(d2, d1)
      && (r1.Committed? ==> d2 == d1)
  {
    if data.Some? {
      var (d1, r1) := Ingest(db, data, true, parse);
      RunBatchOkIff(db, data.value, parse);
      RunBatchOkIff(d1, data.value, parse);
      if RunBatch(db, data.value, parse).Ok? {
        BatchIdempotent(db, data.value, parse);
      }
    }
  }
}
