/** Facts about the joined view of a consistent database, shared by the
    monitor and the API: the inner joins drop no flight, and every status
    row shows up with its flight. */
module JoinFacts {
  import opened Wrappers
  import opened Store


  /** A flight of a consistent database has its airline and both airports,
      so the inner joins keep it. */
  lemma FlightJoins(db: Db, f: FlightRow)
    requires Valid(db) && f in db.flights
    ensures ViewOf(db, f).Some?
  {
    var k :| 0 <= k < |db.flights| && db.flights[k] == f;
    assert IsAirlineId(db.airlines, f.airlineId);
    assert IsAirportId(db.airports, f.departureAirportId);
    assert IsAirportId(db.airports, f.arrivalAirportId);
  }

  /** The join of a flight list starts with the join of its first flight. */
  lemma JoinRowsCons(db: Db, fs: seq<FlightRow>)
    requires |fs| > 0 && ViewOf(db, fs[0]).Some?
    ensures JoinRows(db, fs) == [ViewOf(db, fs[0]).value] + JoinRows(db, fs[1..])
  {
  }

  /** Flights the inner joins all keep are joined one row each, in order. */
  lemma {:induction false} JoinRowsTotal(db: Db, fs: seq<FlightRow>)
    requires forall i :: 0 <= i < |fs| ==> ViewOf(db, fs[i]).Some?
    ensures |JoinRows(db, fs)| == |fs|
    ensures forall i :: 0 <= i < |fs| ==> JoinRows(db, fs)[i].flight == fs[i]
  {
    if |fs| > 0 {
      var rest := fs[1..];
      assert forall i :: 0 <= i < |rest| ==> rest[i] == fs[i + 1];
      JoinRowsTotal(db, rest);
      JoinRowsCons(db, fs);
      var r := JoinRows(db, fs);
      forall i | 0 <= i < |fs|
        ensures r[i].flight == fs[i]
      {
        if i > 0 {
          assert r[i] == JoinRows(db, rest)[i - 1];
        }
      }
    }
  }

  /** On a consistent database the inner joins drop no flight: the join
      has one row per flight, in table order. */
  lemma JoinedTotal(db: Db)
    requires Valid(db)
    ensures |Joined(db)| == |db.flights|
    ensures forall i :: 0 <= i < |db.flights| ==> Joined(db)[i].flight == db.flights[i]
  {
    forall i | 0 <= i < |db.flights|
      ensures ViewOf(db, db.flights[i]).Some?
    {
      FlightJoins(db, db.flights[i]);
    }
    JoinRowsTotal(db, db.flights);
  }

  /** On a consistent database a status row appears in the join with its
      flight. */
  lemma StatusInJoin(db: Db, s: StatusRow)
    requires Valid(db) && s in db.statuses
    ensures exists v :: v in Joined(db) && v.status == Some(s)
  {
    var m :| 0 <= m < |db.statuses| && db.statuses[m] == s;
    assert IsFlightId(db.flights, s.flightId);
    var k :| 0 <= k < |db.flights| && db.flights[k].id == s.flightId;
    JoinedTotal(db);
    var v := Joined(db)[k];
    assert v in Joined(db);
    assert ViewOf(db, db.flights[k]) == Some(v);
    var fs := StatusOfFlight(db.statuses, s.flightId);
    assert fs.Some?;
    assert StatusFlightsUnique(db.statuses);
    assert fs.value == m;
  }
}
