/** The read-only HTTP endpoints of the flight API, as queries over a
    database value: the filtered flight list, the delayed-flight list sorted
    by delay, and the details of one flight. Query strings arrive as
    optional text; a parameter that is absent or empty does not filter. */
module Api {
  import opened Wrappers
  import Seqs
  import opened Store
  import opened JoinFacts
  import Collector

  // -----------------------------------------------------------------------
  // WHERE clauses built condition by condition.
  // -----------------------------------------------------------------------

  /** The conditions an endpoint may append to its WHERE clause, each
      compared with one bound parameter. */
  datatype Condition =
    | DepartureIs    // a1.iata_code = %s
    | ArrivalIs      // a2.iata_code = %s
    | AirlineIs      // al.iata_code = %s
    | OnDate         // DATE(f.scheduled_departure) = %s
    | StatusIs       // fs.status = %s
    | NumberIs       // f.flight_number = %s

  /** `DATE(t) = %s`: the timestamp falls on the day the text parameter
      denotes. MySQL converts the text to a date before comparing, so a
      parameter such as "2025-3-21" denotes a day as well as "2025-03-21". */
  type DayMatch = (Timestamp, string) -> bool

  /** A joined row satisfies one condition under its bound parameter. A
      flight without a status row has a NULL status, which equals nothing. */
  predicate Satisfies(v: View, c: Condition, param: string, sameDay: DayMatch) {
    match c
    case DepartureIs => v.departure.iata == param
    case ArrivalIs => v.arrival.iata == param
    case AirlineIs => v.airline.iata == param
    case OnDate => sameDay(v.flight.scheduledDeparture, param)
    case StatusIs => v.status.Some? && Label(v.status.value.status) == param
    case NumberIs => v.flight.number == param
  }

  /** The conjunction of the conditions, the k-th bound to the k-th
      parameter (WHERE 1=1 AND ...). */
  predicate Where(v: View, conds: seq<Condition>, params: seq<string>, sameDay: DayMatch) {
    forall k :: 0 <= k < |conds| && k < |params| ==> Satisfies(v, conds[k], params[k], sameDay)
  }

  /** A query-string parameter filters only when present and non-empty. */
  predicate Given(arg: Option<string>) {
    arg.Some? && arg.value != ""
  }

  // -----------------------------------------------------------------------
  // GET /api/flights
  // -----------------------------------------------------------------------

  /** The optional query-string parameters of the flight list. */
  datatype Filters = Filters(
    departure: Option<string>, arrival: Option<string>, airline: Option<string>,
    date: Option<string>, status: Option<string>)

  /** The parameter a condition of the flight list is bound to. */
  function ArgFor(f: Filters, c: Condition): Option<string> {
    match c
    case DepartureIs => f.departure
    case ArrivalIs => f.arrival
    case AirlineIs => f.airline
    case OnDate => f.date
    case StatusIs => f.status
    case NumberIs => None
  }

  /** The position at which the flight list appends each condition. */
  function Rank(c: Condition): nat {
    match c
    case DepartureIs => 0
    case ArrivalIs => 1
    case AirlineIs => 2
    case OnDate => 3
    case StatusIs => 4
    case NumberIs => 5
  }

  /** The meaning of the filters: every given parameter holds of the row. */
  predicate MatchesFilters(v: View, f: Filters, sameDay: DayMatch) {
    && (Given(f.departure) ==> Satisfies(v, DepartureIs, f.departure.value, sameDay))
    && (Given(f.arrival) ==> Satisfies(v, ArrivalIs, f.arrival.value, sameDay))
    && (Given(f.airline) ==> Satisfies(v, AirlineIs, f.airline.value, sameDay))
    && (Given(f.date) ==> Satisfies(v, OnDate, f.date.value, sameDay))
    && (Given(f.status) ==> Satisfies(v, StatusIs, f.status.value, sameDay))
  }

  /** The clause built so far holds the conditions of rank below `n` whose
      parameter is given, in rank order, each bound to its parameter. */
  ghost predicate BuiltBelow(f: Filters, conds: seq<Condition>, params: seq<string>, n: nat) {
    && |conds| == |params|
    && (forall k :: 0 <= k < |conds| ==>
          Rank(conds[k]) < n && Given(ArgFor(f, conds[k])) && params[k] == ArgFor(f, conds[k]).value)
    && (forall c :: Rank(c) < n && Given(ArgFor(f, c)) ==> c in conds)
    && (forall i, j :: 0 <= i < j < |conds| ==> Rank(conds[i]) < Rank(conds[j]))
  }

  /** Appending the condition of the next rank when its parameter is given. */
  lemma BuiltStep(f: Filters, conds: seq<Condition>, params: seq<string>, c: Condition)
    requires BuiltBelow(f, conds, params, Rank(c))
    ensures Given(ArgFor(f, c)) ==> BuiltBelow(f, conds + [c], params + [ArgFor(f, c).value], Rank(c) + 1)
    ensures !Given(ArgFor(f, c)) ==> BuiltBelow(f, conds, params, Rank(c) + 1)
  {
    forall d | Rank(d) == Rank(c)
      ensures d == c
    {
    }
  }

  /** The number of optional filters of the flight list. */
  const FilterCount: nat := 5

  /** The optional filter the flight list tests in position `n`. */
  function FilterAt(n: nat): (c: Condition)
    requires n < FilterCount
    ensures Rank(c) == n
  {
    if n == 0 then DepartureIs
    else if n == 1 then ArrivalIs
    else if n == 2 then AirlineIs
    else if n == 3 then OnDate
    else StatusIs
  }

  /** The conditions the flight list has appended after testing the first
      `n` filters, and their parameters. */
  function ClauseConds(f: Filters, n: nat): seq<Condition>
    requires n <= FilterCount
  {
    if n == 0 then []
    else
      var c := FilterAt(n - 1);
      ClauseConds(f, n - 1) + (if Given(ArgFor(f, c)) then [c] else [])
  }

  function ClauseParams(f: Filters, n: nat): seq<string>
    requires n <= FilterCount
  {
    if n == 0 then []
    else
      var arg := ArgFor(f, FilterAt(n - 1));
      ClauseParams(f, n - 1) + (if Given(arg) then [arg.value] else [])
  }

  /** After `n` filters the clause holds, in rank order, exactly the given
      ones among the first `n`, each bound to its own parameter. */
  lemma {:induction false} ClauseFacts(f: Filters, n: nat)
    requires n <= FilterCount
    ensures BuiltBelow(f, ClauseConds(f, n), ClauseParams(f, n), n)
  {
    if n > 0 {
      ClauseFacts(f, n - 1);
      var c := FilterAt(n - 1);
      BuiltStep(f, ClauseConds(f, n - 1), ClauseParams(f, n - 1), c);
    }
  }

  /** Testing filter `n`: its condition and parameter are appended when
      the parameter is given. */
  lemma ClauseStep(f: Filters, n: nat, conds: seq<Condition>, params: seq<string>,
                   conds': seq<Condition>, params': seq<string>)
    requires n < FilterCount
    requires conds == ClauseConds(f, n) && params == ClauseParams(f, n)
    requires Given(ArgFor(f, FilterAt(n))) ==>
      conds' == conds + [FilterAt(n)] && params' == params + [ArgFor(f, FilterAt(n)).value]
    requires !Given(ArgFor(f, FilterAt(n))) ==> conds' == conds && params' == params
    ensures conds' == ClauseConds(f, n + 1) && params' == ClauseParams(f, n + 1)
  {
  }

  /** Build the flight list's WHERE clause by appending one condition and
      one parameter for each given filter, in a fixed order. */
  method BuildFlightsQuery(f: Filters) returns (conds: seq<Condition>, params: seq<string>)
    ensures |conds| == |params|
    ensures forall k :: 0 <= k < |conds| ==> Given(ArgFor(f, conds[k])) && params[k] == ArgFor(f, conds[k]).value
    ensures forall c :: c in conds <==> c != NumberIs && Given(ArgFor(f, c))
    ensures forall i, j :: 0 <= i < j < |conds| ==> Rank(conds[i]) < Rank(conds[j])
  {
    conds, params := [], [];
    ghost var before, boundBefore := conds, params;
    if Given(f.departure) {
      conds, params := conds + [DepartureIs], params + [f.departure.value];
    }
    ClauseStep(f, 0, before, boundBefore, conds, params);
    before, boundBefore := conds, params;
    if Given(f.arrival) {
      conds, params := conds + [ArrivalIs], params + [f.arrival.value];
    }
    ClauseStep(f, 1, before, boundBefore, conds, params);
    before, boundBefore := conds, params;
    if Given(f.airline) {
      conds, params := conds + [AirlineIs], params + [f.airline.value];
    }
    ClauseStep(f, 2, before, boundBefore, conds, params);
    before, boundBefore := conds, params;
    if Given(f.date) {
      conds, params := conds + [OnDate], params + [f.date.value];
    }
    ClauseStep(f, 3, before, boundBefore, conds, params);
    before, boundBefore := conds, params;
    if Given(f.status) {
      conds, params := conds + [StatusIs], params + [f.status.value];
    }
    ClauseStep(f, 4, before, boundBefore, conds, params);
    ClauseMeaning(f, conds, params);
  }

  /** The complete clause: every given filter and nothing else, in rank
      order, each bound to its own parameter. */
  lemma ClauseMeaning(f: Filters, conds: seq<Condition>, params: seq<string>)
    requires conds == ClauseConds(f, FilterCount) && params == ClauseParams(f, FilterCount)
    ensures |conds| == |params|
    ensures forall k :: 0 <= k < |conds| ==> Given(ArgFor(f, conds[k])) && params[k] == ArgFor(f, conds[k]).value
    ensures forall c :: c in conds <==> c != NumberIs && Given(ArgFor(f, c))
    ensures forall i, j :: 0 <= i < j < |conds| ==> Rank(conds[i]) < Rank(conds[j])
  {
    ClauseFacts(f, FilterCount);
    assert NumberIs !in conds;
  }

  /** The clause built from the filters holds exactly when the filters do. */
  lemma WhereMeansFilters(f: Filters, conds: seq<Condition>, params: seq<string>, sameDay: DayMatch, v: View)
    requires |conds| == |params|
    requires forall k :: 0 <= k < |conds| ==> Given(ArgFor(f, conds[k])) && params[k] == ArgFor(f, conds[k]).value
    requires forall c :: c in conds <==> c != NumberIs && Given(ArgFor(f, c))
    ensures Where(v, conds, params, sameDay) <==> MatchesFilters(v, f, sameDay)
  {
    if Where(v, conds, params, sameDay) {
      forall c | c != NumberIs && Given(ArgFor(f, c))
        ensures Satisfies(v, c, ArgFor(f, c).value, sameDay)
      {
        assert c in conds;
        var k :| 0 <= k < |conds| && conds[k] == c;
      }
      assert Given(f.departure) ==> Satisfies(v, DepartureIs, ArgFor(f, DepartureIs).value, sameDay);
      assert Given(f.arrival) ==> Satisfies(v, ArrivalIs, ArgFor(f, ArrivalIs).value, sameDay);
      assert Given(f.airline) ==> Satisfies(v, AirlineIs, ArgFor(f, AirlineIs).value, sameDay);
      assert Given(f.date) ==> Satisfies(v, OnDate, ArgFor(f, OnDate).value, sameDay);
      assert Given(f.status) ==> Satisfies(v, StatusIs, ArgFor(f, StatusIs).value, sameDay);
    }
    if MatchesFilters(v, f, sameDay) {
      forall k | 0 <= k < |conds|
        ensures Satisfies(v, conds[k], params[k], sameDay)
      {
        assert conds[k] in conds;
      }
    }
  }

  /** The rows the flight list returns: the joined rows, statusless flights
      included, that satisfy every given filter, in table order. */
  function FlightsMatching(db: Db, f: Filters, sameDay: DayMatch): (r: seq<View>)
    ensures |r| <= |Joined(db)|
    ensures forall v :: v in r <==> v in Joined(db) && MatchesFilters(v, f, sameDay)
  {
    Seqs.Filter(Joined(db), (v: View) => MatchesFilters(v, f, sameDay))
  }

  datatype FlightList = FlightList(flights: seq<View>, count: nat)

  /** GET /api/flights: build the clause, run it over the join, count. */
  method GetFlights(db: Db, f: Filters, sameDay: DayMatch) returns (r: FlightList)
    ensures r.flights == FlightsMatching(db, f, sameDay)
    ensures r.count == |r.flights|
  {
    var conds, params := BuildFlightsQuery(f);
    var rows := Seqs.Filter(Joined(db), (v: View) => Where(v, conds, params, sameDay));
    forall v: View
      ensures Where(v, conds, params, sameDay) == MatchesFilters(v, f, sameDay)
    {
      WhereMeansFilters(f, conds, params, sameDay, v);
    }
    Seqs.FilterSame(Joined(db), (v: View) => Where(v, conds, params, sameDay),
                    (v: View) => MatchesFilters(v, f, sameDay));
    r := FlightList(rows, |rows|);
  }

  /** No filter given: every flight of a consistent database is listed,
      those without a status row included. */
  lemma UnfilteredListsEveryFlight(db: Db, sameDay: DayMatch)
    requires Valid(db)
    ensures |FlightsMatching(db, Filters(None, None, None, None, None), sameDay)| == |db.flights|
    ensures forall i :: 0 <= i < |db.flights| ==>
      FlightsMatching(db, Filters(None, None, None, None, None), sameDay)[i].flight == db.flights[i]
  {
    var f := Filters(None, None, None, None, None);
    Seqs.FilterKeepsAll(Joined(db), (v: View) => MatchesFilters(v, f, sameDay));
    assert FlightsMatching(db, f, sameDay) == Joined(db);
    JoinedTotal(db);
  }

  /** Filters `g` ask at least what `f` asks: every parameter given in `f`
      is given in `g` with the same value. */
  predicate Narrows(g: Filters, f: Filters) {
    && (Given(f.departure) ==> g.departure == f.departure)
    && (Given(f.arrival) ==> g.arrival == f.arrival)
    && (Given(f.airline) ==> g.airline == f.airline)
    && (Given(f.date) ==> g.date == f.date)
    && (Given(f.status) ==> g.status == f.status)
  }

  /** Adding filters never adds rows. */
  lemma MoreFiltersFewerFlights(db: Db, f: Filters, g: Filters, sameDay: DayMatch)
    requires Narrows(g, f)
    ensures |FlightsMatching(db, g, sameDay)| <= |FlightsMatching(db, f, sameDay)|
    ensures forall v :: v in FlightsMatching(db, g, sameDay) ==> v in FlightsMatching(db, f, sameDay)
  {
    Seqs.FilterShrinks(Joined(db), (v: View) => MatchesFilters(v, f, sameDay),
                       (v: View) => MatchesFilters(v, g, sameDay));
  }

  /** A status filter drops every flight that has no status row. */
  lemma StatusFilterNeedsStatus(db: Db, f: Filters, sameDay: DayMatch, v: View)
    requires Given(f.status) && v in FlightsMatching(db, f, sameDay)
    ensures v.status.Some? && Label(v.status.value.status) == f.status.value
  {
    assert MatchesFilters(v, f, sameDay);
  }

  // -----------------------------------------------------------------------
  // GET /api/flights/delayed
  // -----------------------------------------------------------------------

  /** The `hours` parameter when absent or not an integer. */
  const DefaultHours: int := 2

  /** The delay recorded for a joined row (0 when it has no status row). */
  function Delay(v: View): int {
    if v.status.Some? then v.status.value.delayMinutes else 0
  }

  /** The row has a status row whose delay exceeds `minutes`. */
  predicate DelayedBeyond(v: View, minutes: int) {
    v.status.Some? && v.status.value.delayMinutes > minutes
  }

  /** Non-increasing delay from front to back. */
  predicate ByDelayDescending(s: seq<View>) {
    forall i, j :: 0 <= i < j < |s| ==> Delay(s[i]) >= Delay(s[j])
  }

  /** Insert `v` before the first row with a smaller delay. */
  function InsertByDelay(v: View, s: seq<View>): (r: seq<View>)
    requires ByDelayDescending(s)
    ensures ByDelayDescending(r)
    ensures multiset(r) == multiset(s) + multiset{v}
  {
    if |s| == 0 || Delay(v) >= Delay(s[0]) then [v] + s
    else
      var rest := InsertByDelay(v, s[1..]);
      InsertBehindHead(v, s, rest);
      [s[0]] + rest
  }

  /** The rows a row is inserted behind delay no more than the head. */
  lemma InsertBehindHead(v: View, s: seq<View>, rest: seq<View>)
    requires |s| > 0 && ByDelayDescending(s) && Delay(v) < Delay(s[0])
    requires ByDelayDescending(rest) && multiset(rest) == multiset(s[1..]) + multiset{v}
    ensures ByDelayDescending([s[0]] + rest)
    ensures multiset([s[0]] + rest) == multiset(s) + multiset{v}
  {
    forall x | x in rest
      ensures Delay(s[0]) >= Delay(x)
    {
      assert x in multiset(rest);
      if x != v {
        assert x in multiset(s[1..]);
        var j :| 0 <= j < |s[1..]| && s[1..][j] == x;
        assert s[j + 1] == x;
      }
    }
    var r := [s[0]] + rest;
    forall i, j | 0 <= i < j < |r|
      ensures Delay(r[i]) >= Delay(r[j])
    {
      assert r[j] == rest[j - 1];
      if i > 0 {
        assert r[i] == rest[i - 1];
      }
    }
    assert s == [s[0]] + s[1..];
  }

  /** ORDER BY delay_minutes DESC: the rows in non-increasing delay. The
      order among equal delays is not fixed by the query; this one keeps
      table order. */
  function SortByDelay(s: seq<View>): (r: seq<View>)
    ensures ByDelayDescending(r)
    ensures multiset(r) == multiset(s)
  {
    if |s| == 0 then []
    else
      assert s == [s[0]] + s[1..];
      InsertByDelay(s[0], SortByDelay(s[1..]))
  }

  /** The delay threshold of a request, in minutes. */
  function ThresholdMinutes(hours: Option<int>): (minutes: int)
    ensures hours.None? ==> minutes == Collector.AlertMinutes
    ensures hours.Some? ==> minutes == hours.value * 60
  {
    (if hours.Some? then hours.value else DefaultHours) * 60
  }

  /** The joined rows whose status records a delay beyond `minutes`, each
      as often as it occurs in the join, in table order. */
  function DelayedRows(db: Db, minutes: int): (r: seq<View>)
    ensures forall v :: v in r <==> v in Joined(db) && DelayedBeyond(v, minutes)
    ensures forall v :: multiset(r)[v] == if DelayedBeyond(v, minutes) then multiset(Joined(db))[v] else 0
  {
    Seqs.Filter(Joined(db), (v: View) => DelayedBeyond(v, minutes))
  }

  datatype DelayedList = DelayedList(flights: seq<View>, count: nat, minimumDelayHours: int)

  /** GET /api/flights/delayed: the flights whose status records a delay of
      more than `hours` hours, most delayed first. */
  function GetDelayedFlights(db: Db, hours: Option<int>): (r: DelayedList)
    ensures r.count == |r.flights|
    ensures hours.None? ==> r.minimumDelayHours == 2
    ensures ByDelayDescending(r.flights)
    ensures forall v :: v in r.flights <==> v in Joined(db) && DelayedBeyond(v, ThresholdMinutes(hours))
    ensures multiset(r.flights) == multiset(DelayedRows(db, ThresholdMinutes(hours)))
    ensures hours.Some? ==> r.minimumDelayHours == hours.value
  {
    var rows := SortByDelay(DelayedRows(db, ThresholdMinutes(hours)));
    assert forall v :: v in rows <==> v in multiset(rows);
    DelayedList(rows, |rows|, if hours.Some? then hours.value else DefaultHours)
  }

  /** On a consistent database every status row recording a delay beyond
      the threshold is listed, with its flight. */
  lemma DelayedComplete(db: Db, hours: Option<int>, s: StatusRow)
    requires Valid(db) && s in db.statuses && s.delayMinutes > ThresholdMinutes(hours)
    ensures exists v :: v in GetDelayedFlights(db, hours).flights && v.status == Some(s)
  {
    StatusInJoin(db, s);
  }

  /** With no `hours` parameter the endpoint lists exactly the flights the
      collector's monitor reports, sorted by delay. */
  lemma DefaultMatchesMonitor(db: Db)
    ensures multiset(GetDelayedFlights(db, None).flights) == multiset(Collector.MonitorDelayedFlights(db))
  {
    Seqs.FilterSame(Joined(db), (v: View) => DelayedBeyond(v, Collector.AlertMinutes), Collector.OverAlert);
  }

  // -----------------------------------------------------------------------
  // GET /api/flight/<flight_number>
  // -----------------------------------------------------------------------

  /** The details query's WHERE clause: the flight number, then the date
      when one is given. */
  method BuildDetailsQuery(number: string, date: Option<string>) returns (conds: seq<Condition>, params: seq<string>)
    ensures Given(date) ==> conds == [NumberIs, OnDate] && params == [number, date.value]
    ensures !Given(date) ==> conds == [NumberIs] && params == [number]
  {
    conds, params := [NumberIs], [number];
    if Given(date) {
      conds, params := conds + [OnDate], params + [date.value];
    }
  }

  /** The details clause selects exactly the requested flight. */
  lemma DetailsClauseMeaning(number: string, date: Option<string>, sameDay: DayMatch,
                             conds: seq<Condition>, params: seq<string>)
    requires Given(date) ==> conds == [NumberIs, OnDate] && params == [number, date.value]
    requires !Given(date) ==> conds == [NumberIs] && params == [number]
    ensures forall v :: Where(v, conds, params, sameDay) == IsRequested(v, number, date, sameDay)
  {
    forall v: View
      ensures Where(v, conds, params, sameDay) == IsRequested(v, number, date, sameDay)
    {
      if Given(date) {
        assert Where(v, conds, params, sameDay) <==>
          Satisfies(v, conds[0], params[0], sameDay) && Satisfies(v, conds[1], params[1], sameDay);
      } else {
        assert Where(v, conds, params, sameDay) <==> Satisfies(v, conds[0], params[0], sameDay);
      }
    }
  }

  /** The row is the requested flight, on the requested date if any. */
  predicate IsRequested(v: View, number: string, date: Option<string>, sameDay: DayMatch) {
    IsRequestedRow(v.flight, number, date, sameDay)
  }

  /** The flight row has the number, and the date when one is given. */
  predicate IsRequestedRow(f: FlightRow, number: string, date: Option<string>, sameDay: DayMatch) {
    f.number == number && (Given(date) ==> sameDay(f.scheduledDeparture, date.value))
  }

  /** Row `i` is the first of `s` that the details query selects. */
  predicate FirstRequested(s: seq<View>, i: int, number: string, date: Option<string>, sameDay: DayMatch) {
    0 <= i < |s| && IsRequested(s[i], number, date, sameDay) &&
    forall j :: 0 <= j < i ==> !IsRequested(s[j], number, date, sameDay)
  }

  /** At least two rows of `s` are selected by the details query. */
  predicate SeveralRequested(s: seq<View>, number: string, date: Option<string>, sameDay: DayMatch) {
    exists i, j :: 0 <= i < j < |s| && IsRequested(s[i], number, date, sameDay) && IsRequested(s[j], number, date, sameDay)
  }

  /** The endpoint's answers: the flight, not found (HTTP 404), or a
      failure (HTTP 500). The cursor is unbuffered: `fetchone` reads one row
      ahead, and when that row exists it is left unread, so closing the
      cursor in the `finally` block raises instead of returning the flight. */
  datatype Details = Found(flight: View) | NotFound | Failed

  /** GET /api/flight/<flight_number>: the single joined row the clause
      selects, not found when it selects none, and a failure when it selects
      more than one. */
  method GetFlightDetails(db: Db, number: string, date: Option<string>, sameDay: DayMatch) returns (r: Details)
    ensures r.NotFound? <==> forall i :: 0 <= i < |Joined(db)| ==> !IsRequested(Joined(db)[i], number, date, sameDay)
    ensures r.Failed? <==> SeveralRequested(Joined(db), number, date, sameDay)
    ensures r.Found? ==> IsRequested(r.flight, number, date, sameDay)
    ensures r.Found? ==> exists i :: FirstRequested(Joined(db), i, number, date, sameDay) && Joined(db)[i] == r.flight
    ensures r.Found? ==> forall i :: 0 <= i < |Joined(db)| && IsRequested(Joined(db)[i], number, date, sameDay) ==>
      Joined(db)[i] == r.flight
  {
    r := FetchDetails(Joined(db), number, date, sameDay);
  }

  /** The details query run over the joined rows: build the clause, fetch
      the first row it selects and read one row ahead. */
  method FetchDetails(rows: seq<View>, number: string, date: Option<string>, sameDay: DayMatch) returns (r: Details)
    ensures r.NotFound? <==> forall i :: 0 <= i < |rows| ==> !IsRequested(rows[i], number, date, sameDay)
    ensures r.Failed? <==> SeveralRequested(rows, number, date, sameDay)
    ensures r.Found? ==> IsRequested(r.flight, number, date, sameDay)
    ensures r.Found? ==> exists i :: FirstRequested(rows, i, number, date, sameDay) && rows[i] == r.flight
    ensures r.Found? ==> forall i :: 0 <= i < |rows| && IsRequested(rows[i], number, date, sameDay) ==>
      rows[i] == r.flight
  {
    var conds, params := BuildDetailsQuery(number, date);
    DetailsClauseMeaning(number, date, sameDay, conds, params);
    var selected := (v: View) => Where(v, conds, params, sameDay);
    var requested := (v: View) => IsRequested(v, number, date, sameDay);
    var k := Seqs.Find(rows, selected);
    Seqs.FindSame(rows, selected, requested);
    if k.None? {
      return NotFound;
    }
    // fetchone reads one row ahead of the row it returns
    var ahead := Seqs.Find(rows[k.value + 1..], selected);
    Seqs.FindSame(rows[k.value + 1..], selected, requested);
    Seqs.FindAhead(rows, requested, k.value, ahead);
    if ahead.Some? {
      r := Failed;
    } else {
      r := Found(rows[k.value]);
      assert FirstRequested(rows, k.value, number, date, sameDay);
    }
  }

  /** On a consistent database a flight is not found exactly when no
      flight row has the number (and the date, when one is given). */
  lemma NotFoundIffNoFlight(db: Db, number: string, date: Option<string>, sameDay: DayMatch)
    requires Valid(db)
    ensures (forall i :: 0 <= i < |Joined(db)| ==> !IsRequested(Joined(db)[i], number, date, sameDay)) <==>
      forall i :: 0 <= i < |db.flights| ==> !IsRequestedRow(db.flights[i], number, date, sameDay)
  {
    JoinedTotal(db);
  }

  /** On a consistent database the endpoint fails exactly when two flight
      rows have the number (and the date, when one is given), such as one
      flight number on two days with no date requested. */
  lemma FailedIffSeveralFlights(db: Db, number: string, date: Option<string>, sameDay: DayMatch)
    requires Valid(db)
    ensures SeveralRequested(Joined(db), number, date, sameDay) <==>
      exists i, j :: 0 <= i < j < |db.flights| &&
        IsRequestedRow(db.flights[i], number, date, sameDay) && IsRequestedRow(db.flights[j], number, date, sameDay)
  {
    var rows := Joined(db);
    JoinedTotal(db);
    if SeveralRequested(rows, number, date, sameDay) {
      var i, j :| 0 <= i < j < |rows| && IsRequested(rows[i], number, date, sameDay) && IsRequested(rows[j], number, date, sameDay);
      assert IsRequestedRow(db.flights[i], number, date, sameDay) && IsRequestedRow(db.flights[j], number, date, sameDay);
    }
    if exists i, j :: 0 <= i < j < |db.flights| &&
         IsRequestedRow(db.flights[i], number, date, sameDay) && IsRequestedRow(db.flights[j], number, date, sameDay) {
      var i, j :| 0 <= i < j < |db.flights| &&
        IsRequestedRow(db.flights[i], number, date, sameDay) && IsRequestedRow(db.flights[j], number, date, sameDay);
      assert IsRequested(rows[i], number, date, sameDay) && IsRequested(rows[j], number, date, sameDay);
    }
  }
}
